// The dependency scanner script: it reads the IOC list (compromised package
// versions), the dependency tables of the package.json files and the
// resolved entries of yarn.lock, and reports every yarn.lock entry an IOC
// names. Reading files, printing and `process.exit` become inputs and an
// exit status.
module ScanDependencies {
  import opened Wrappers
  import opened Strings

  // ------------------------------------------------------------------ IOC list

  /** One line of the IOC list; a version of "" or "*" stands for every version. */
  datatype IOC = IOC(package: string, version: string, description: string)

  /**
   * One data line of the IOC list: the trimmed line split at ","; the first
   * two fields are the package and the version, the rest (rejoined with ",")
   * the description. A blank line, or one with a single field, gives nothing.
   */
  function IOCLine(line: string): (r: Option<IOC>)
    ensures r.Some? ==> ',' !in r.value.package && ',' !in r.value.version
  {
    var t := Trim(line);
    if t == "" then None
    else
      var parts := Split(t, ',');
      if |parts| >= 2 then
        TrimWithout(parts[0], ',');
        TrimWithout(parts[1], ',');
        Some(IOC(Trim(parts[0]), Trim(parts[1]), Trim(Join(",", parts[2..]))))
      else None
  }

  /** The values `f` gives for the lines, in order; lines it gives nothing for are skipped. */
  function Collect<T>(lines: seq<string>, f: string -> Option<T>): (r: seq<T>)
    decreases |lines|
    ensures |r| <= |lines|
  {
    if lines == [] then []
    else
      var front := Collect(lines[..|lines| - 1], f);
      match f(lines[|lines| - 1])
      case None => front
      case Some(x) => front + [x]
  }

  /** One more line adds what `f` gives for it. */
  lemma CollectStep<T>(lines: seq<string>, f: string -> Option<T>, line: string)
    ensures Collect(lines + [line], f) == Collect(lines, f) + (if f(line).Some? then [f(line).value] else [])
  {
    assert (lines + [line])[..|lines|] == lines;
  }

  /** Collecting the lines after the header one line further. */
  lemma CollectNext<T>(lines: seq<string>, i: nat, f: string -> Option<T>)
    requires 1 <= i < |lines|
    ensures Collect(lines[1..i + 1], f) == Collect(lines[1..i], f) + (if f(lines[i]).Some? then [f(lines[i]).value] else [])
  {
    assert lines[1..i + 1] == lines[1..i] + [lines[i]];
    CollectStep(lines[1..i], f, lines[i]);
  }

  /** A value is collected exactly when some line gives it. */
  lemma {:induction false} CollectMembers<T>(lines: seq<string>, f: string -> Option<T>, x: T)
    decreases |lines|
    ensures x in Collect(lines, f) <==> exists k | 0 <= k < |lines| :: f(lines[k]) == Some(x)
  {
    if lines != [] {
      var front := lines[..|lines| - 1];
      CollectMembers(front, f, x);
      assert forall k | 0 <= k < |front| :: front[k] == lines[k];
    }
  }

  /** The body of the `parseIOCs` loop for one line. */
  method ParseIOCLine(rawLine: string) returns (r: Option<IOC>)
    ensures r == IOCLine(rawLine)
  {
    var line := Trim(rawLine);
    if line == "" {
      return None;
    }
    var parts := Split(line, ',');
    if |parts| >= 2 {
      r := Some(IOC(Trim(parts[0]), Trim(parts[1]), Trim(Join(",", parts[2..]))));
    } else {
      r := None;
    }
  }

  /** `parseIOCs`: the IOCs of the lines after the header, in order. */
  method ParseIOCs(content: string) returns (iocs: seq<IOC>)
    ensures iocs == Collect(Split(content, '\n')[1..], IOCLine)
  {
    var lines := Split(content, '\n');
    iocs := [];
    var i := 1;
    while i < |lines|
      invariant 1 <= i <= |lines|
      invariant iocs == Collect(lines[1..i], IOCLine)
    {
      CollectNext(lines, i, IOCLine);
      var ioc := ParseIOCLine(lines[i]);
      assert ioc == IOCLine(lines[i]);
      if ioc.Some? {
        iocs := iocs + [ioc.value];
      }
      i := i + 1;
    }
    assert lines[1..i] == lines[1..];
  }

  /** Blank lines and lines with a single field are skipped; every other line gives an IOC. */
  lemma IOCLineSkips(line: string)
    ensures IOCLine(line).Some? <==> ',' in Trim(line)
  {
  }

  /** The first line is a header and never an IOC. */
  lemma HeaderSkipped(header: string, rest: string)
    requires '\n' !in header
    ensures Collect(Split(header + "\n" + rest, '\n')[1..], IOCLine) == Collect(Split(rest, '\n'), IOCLine)
  {
    SplitCons(header, rest, '\n');
    assert header + "\n" + rest == header + ['\n'] + rest;
  }

  /** The fields of package,version,description: the description keeps its own commas. */
  lemma SplitFields(p: string, v: string, d: string)
    requires ',' !in p && ',' !in v
    ensures Split(p + "," + v + "," + d, ',') == [p, v] + Split(d, ',')
  {
    SplitCons(p, v + "," + d, ',');
    assert p + "," + v + "," + d == p + [','] + (v + "," + d);
    SplitCons(v, d, ',');
    assert v + "," + d == v + [','] + d;
  }

  /** The line package,version,description is its own trim. */
  lemma FieldsTrimmed(p: string, v: string, d: string)
    requires p != [] && !IsSpace(p[0])
    requires d != [] ==> !IsSpace(d[|d| - 1])
    ensures Trim(p + "," + v + "," + d) == p + "," + v + "," + d
  {
    var line := p + "," + v + "," + d;
    assert line[0] == p[0];
    if d == [] {
      assert line[|line| - 1] == ',';
    } else {
      assert line[|line| - 1] == d[|d| - 1];
    }
    TrimFixed(line);
  }

  /**
   * A line written as package,version,description is read back as that
   * IOC, commas in the description included.
   */
  lemma IOCLineRoundTrip(p: string, v: string, d: string)
    requires ',' !in p && ',' !in v
    requires p != [] && !IsSpace(p[0]) && !IsSpace(p[|p| - 1])
    requires v != [] ==> !IsSpace(v[0]) && !IsSpace(v[|v| - 1])
    requires d != [] ==> !IsSpace(d[0]) && !IsSpace(d[|d| - 1])
    ensures IOCLine(p + "," + v + "," + d) == Some(IOC(p, v, d))
  {
    FieldsTrimmed(p, v, d);
    SplitFields(p, v, d);
    var parts := [p, v] + Split(d, ',');
    assert parts[2..] == Split(d, ',');
    assert Join(",", parts[2..]) == d by {
      SplitJoin(d, ',');
      assert [','] == ",";
    }
    TrimFixed(p);
    TrimFixed(v);
    TrimFixed(d);
  }

  // ------------------------------------------------------- package.json files

  /** The dependency tables a package.json may hold, in the order they are read. */
  const DEP_TYPES: seq<string> := ["dependencies", "devDependencies", "peerDependencies", "optionalDependencies"]

  /** A parsed package.json: each table present, as its (name, version) entries in order. */
  type PackageJson = map<string, seq<(string, string)>>

  datatype Dependency = Dependency(name: string, version: string, source: string)

  /** The dependencies of the tables named by `types`, table by table. */
  function DepsOf(content: PackageJson, types: seq<string>, source: string): (r: seq<Dependency>)
    decreases |types|
    ensures forall d | d in r :: d.source == source
  {
    if types == [] then []
    else
      var front := DepsOf(content, types[..|types| - 1], source);
      var t := types[|types| - 1];
      if t in content then front + TableDeps(content[t], source) else front
  }

  /** The entries of one table as dependencies of `source`. */
  function TableDeps(entries: seq<(string, string)>, source: string): (r: seq<Dependency>)
    ensures |r| == |entries|
    ensures forall k | 0 <= k < |r| :: r[k] == Dependency(entries[k].0, entries[k].1, source)
  {
    seq(|entries|, k requires 0 <= k < |entries| => Dependency(entries[k].0, entries[k].1, source))
  }

  /** The dependencies of a package.json; a missing file has none. */
  function Dependencies(path: string, file: Option<PackageJson>): seq<Dependency>
  {
    if file.None? then [] else DepsOf(file.value, DEP_TYPES, path)
  }

  /** `extractDependencies(path)`: every entry of every table present, pushed in order. */
  method ExtractDependencies(path: string, file: Option<PackageJson>) returns (deps: seq<Dependency>)
    ensures deps == Dependencies(path, file)
  {
    if file.None? {
      return [];
    }
    var content := file.value;
    deps := [];
    var t := 0;
    while t < |DEP_TYPES|
      invariant 0 <= t <= |DEP_TYPES|
      invariant deps == DepsOf(content, DEP_TYPES[..t], path)
    {
      assert DEP_TYPES[..t + 1][..t] == DEP_TYPES[..t];
      var depType := DEP_TYPES[t];
      if depType in content {
        var entries := content[depType];
        var k := 0;
        while k < |entries|
          invariant 0 <= k <= |entries|
          invariant deps == DepsOf(content, DEP_TYPES[..t], path) + TableDeps(entries[..k], path)
        {
          assert TableDeps(entries[..k + 1], path) == TableDeps(entries[..k], path) + [Dependency(entries[k].0, entries[k].1, path)];
          deps := deps + [Dependency(entries[k].0, entries[k].1, path)];
          k := k + 1;
        }
        assert entries[..k] == entries;
      }
      t := t + 1;
    }
    assert DEP_TYPES[..t] == DEP_TYPES;
  }

  /**
   * A dependency is extracted exactly when one of the tables named by `types`
   * that the file holds lists its name and version.
   */
  lemma {:induction false} DepsOfMembers(content: PackageJson, types: seq<string>, source: string, d: Dependency)
    decreases |types|
    ensures d in DepsOf(content, types, source) <==>
      d.source == source && exists i, k | 0 <= i < |types| && types[i] in content && 0 <= k < |content[types[i]]| ::
        content[types[i]][k] == (d.name, d.version)
  {
    if types != [] {
      var front := types[..|types| - 1];
      var t := types[|types| - 1];
      DepsOfMembers(content, front, source, d);
      assert forall i | 0 <= i < |front| :: front[i] == types[i];
      if d in DepsOf(content, types, source) && d !in DepsOf(content, front, source) {
        var r := TableDeps(content[t], source);
        var k :| 0 <= k < |r| && r[k] == d;
        assert content[types[|types| - 1]][k] == (d.name, d.version);
      }
      if d.source == source && exists i, k | 0 <= i < |types| && types[i] in content && 0 <= k < |content[types[i]]| ::
           content[types[i]][k] == (d.name, d.version) {
        var i, k :| 0 <= i < |types| && types[i] in content && 0 <= k < |content[types[i]]| &&
           content[types[i]][k] == (d.name, d.version);
        if i == |types| - 1 {
          assert TableDeps(content[t], source)[k] == d;
        }
      }
    }
  }

  // ---------------------------------------------------------------- yarn.lock

  /** A resolved yarn.lock entry. */
  datatype Package = Package(name: string, version: string)

  /** The characters "." does not match in a JavaScript regular expression. */
  predicate IsLineTerminator(ch: char)
  {
    ch == '\n' || ch == '\r' || ch == '\U{2028}' || ch == '\U{2029}'
  }

  /**
   * A declaration line, `/^[^ ].*:$/`: a first character other than a space,
   * no line terminator after it, and ":" as its last character.
   */
  predicate IsDeclaration(line: string)
  {
    && |line| >= 2 && line[0] != ' ' && line[|line| - 1] == ':'
    && forall i | 1 <= i < |line| - 1 :: !IsLineTerminator(line[i])
  }

  /** The text before the last "@" of a specifier, when that "@" is not its first character. */
  function NameBeforeAt(spec: string): (r: Option<string>)
    ensures r.Some? <==> |spec| >= 1 && '@' in spec[1..]
    ensures r.Some? ==> r.value != "" && StartsWith(spec, r.value + "@") && '@' !in spec[|r.value| + 1..]
  {
    match LastIndexOf(spec, '@')
    case None => None
    case Some(i) =>
      if i > 0 then
        assert spec[..i + 1] == spec[..i] + "@";
        Absent(spec, '@', i + 1, |spec|);
        assert spec[1..][i - 1] == '@';
        Some(spec[..i])
      else
        Absent(spec, '@', 1, |spec|);
        None
  }

  /** The package a declaration line names, as the source computes it: the line without its ":" cut at its last "@". */
  function DeclaredNameAsWritten(line: string): (r: Option<string>)
    requires |line| >= 1
    ensures var spec := line[..|line| - 1];
      && (r.Some? <==> |spec| >= 1 && '@' in spec[1..])
      && (r.Some? ==> r.value != "" && StartsWith(spec, r.value + "@") && '@' !in spec[|r.value| + 1..])
  {
    NameBeforeAt(line[..|line| - 1])
  }

  /** A specifier without the double quotes yarn.lock puts around it. */
  function Unquote(s: string): (r: string)
    ensures |r| <= |s|
    ensures (|s| >= 2 && s[0] == '"' && s[|s| - 1] == '"') <==> s == "\"" + r + "\""
    ensures r != s ==> s == "\"" + r + "\""
  {
    if |s| >= 2 && s[0] == '"' && s[|s| - 1] == '"' then s[1..|s| - 1] else s
  }

  /** The package a declaration line names: its first specifier, unquoted, cut at its last "@". */
  function DeclaredName(line: string): (r: Option<string>)
    requires |line| >= 1
    ensures var spec := Unquote(Split(line[..|line| - 1], ',')[0]);
      && (r.Some? <==> |spec| >= 1 && '@' in spec[1..])
      && (r.Some? ==> r.value != "" && ',' !in r.value && StartsWith(spec, r.value + "@") && '@' !in spec[|r.value| + 1..])
  {
    NameBeforeAt(Unquote(Split(line[..|line| - 1], ',')[0]))
  }

  const VERSION_PREFIX := "version \""

  /** The number of characters other than '"' from `j` on. */
  function QuoteFreeRun(s: string, j: nat): (n: nat)
    requires j <= |s|
    decreases |s| - j
    ensures j + n <= |s|
    ensures forall k | j <= k < j + n :: s[k] != '"'
    ensures j + n < |s| ==> s[j + n] == '"'
  {
    if j < |s| && s[j] != '"' then 1 + QuoteFreeRun(s, j + 1) else 0
  }

  /** What `version "([^"]+)"` captures when its match starts at `i`. */
  function VersionAt(line: string, i: nat): (r: Option<string>)
    ensures r.Some? ==> r.value != "" && '"' !in r.value
  {
    if OccursAt(line, VERSION_PREFIX, i) then
      var j := i + |VERSION_PREFIX|;
      var n := QuoteFreeRun(line, j);
      if n >= 1 && j + n < |line| then
        Absent(line, '"', j, j + n);
        Some(line[j..j + n])
      else None
    else None
  }

  /** The capture of the leftmost match starting at `i` or later. */
  function VersionFrom(line: string, i: nat): (r: Option<string>)
    decreases |line| + 1 - i
    ensures r.Some? ==> r.value != "" && '"' !in r.value
    ensures r.None? ==> forall k: nat | i <= k :: VersionAt(line, k).None?
    ensures r.Some? ==> exists k: nat | i <= k ::
      VersionAt(line, k) == r && forall m: nat | i <= m < k :: VersionAt(line, m).None?
  {
    if i > |line| then
      assert forall k: nat | i <= k :: !OccursAt(line, VERSION_PREFIX, k);
      None
    else if VersionAt(line, i).Some? then VersionAt(line, i)
    else VersionFrom(line, i + 1)
  }

  /** `line.match(/version "([^"]+)"/)`: the capture of its leftmost match. */
  function VersionOf(line: string): (r: Option<string>)
    ensures r.Some? ==> r.value != "" && '"' !in r.value
    ensures r.None? <==> forall k: nat :: VersionAt(line, k).None?
    ensures r.Some? ==> exists k: nat :: VersionAt(line, k) == r && forall m: nat | m < k :: VersionAt(line, m).None?
  {
    VersionFrom(line, 0)
  }

  /** With two version matches on one line, the leftmost one is captured. */
  lemma LeftmostVersion()
    ensures VersionOf("version \"1\" version \"2\"") == Some("1")
  {
    var line := "version \"1\" version \"2\"";
    assert |line| == 23 && line[9] == '1' && line[10] == '"';
    assert line[0..9] == VERSION_PREFIX;
    assert QuoteFreeRun(line, 10) == 0;
    assert QuoteFreeRun(line, 9) == 1;
    assert line[9..10] == "1";
    assert VersionAt(line, 0) == Some("1");
  }

  /** What `parseYarnLock` has collected so far, and the package waiting for its version. */
  datatype LockScan = LockScan(packages: seq<Package>, pending: Option<string>)

  /**
   * One line of yarn.lock. A declaration that names a package makes it the
   * pending one; a version line emits the pending package, if any, with the
   * captured version; every other line changes nothing.
   */
  function LockStep(st: LockScan, line: string): (r: LockScan)
    ensures st.packages <= r.packages && |r.packages| <= |st.packages| + 1
    ensures |r.packages| == |st.packages| + 1 ==>
      && st.pending.Some? && r.pending.None?
      && r.packages[|st.packages|].name == st.pending.value
      && r.packages[|st.packages|].version != ""
    ensures r.pending != st.pending ==> r.pending.None? || (IsDeclaration(line) && r.pending == DeclaredName(line))
  {
    if IsDeclaration(line) then
      match DeclaredName(line)
      case Some(n) => st.(pending := Some(n))
      case None => st
    else if StartsWith(Trim(line), VERSION_PREFIX) then
      match VersionOf(line)
      case Some(v) =>
        if st.pending.Some? && st.pending.value != "" then LockScan(st.packages + [Package(st.pending.value, v)], None)
        else st
      case None => st
    else st
  }

  /** The scan of the lines, in order, from nothing collected and nothing pending. */
  function LockScanOf(lines: seq<string>): (r: LockScan)
    decreases |lines|
    ensures |r.packages| <= |lines|
    ensures forall p | p in r.packages :: p.name != "" && p.version != ""
    ensures r.pending.Some? ==> r.pending.value != ""
  {
    if lines == [] then LockScan([], None)
    else LockStep(LockScanOf(lines[..|lines| - 1]), lines[|lines| - 1])
  }

  /** `parseYarnLock` on the content of the file. */
  method ParseYarnLock(content: string) returns (packages: seq<Package>)
    ensures packages == LockScanOf(Split(content, '\n')).packages
  {
    var lines := Split(content, '\n');
    packages := [];
    var currentPackage: Option<string> := None;
    var i := 0;
    while i < |lines|
      invariant 0 <= i <= |lines|
      invariant LockScan(packages, currentPackage) == LockScanOf(lines[..i])
    {
      assert lines[..i + 1][..i] == lines[..i];
      var line := lines[i];
      if IsDeclaration(line) {
        var name := DeclaredName(line);
        if name.Some? {
          currentPackage := name;
        }
      } else if StartsWith(Trim(line), VERSION_PREFIX) {
        var versionMatch := VersionOf(line);
        if versionMatch.Some? && currentPackage.Some? && currentPackage.value != "" {
          packages := packages + [Package(currentPackage.value, versionMatch.value)];
          currentPackage := None;
        }
      }
      i := i + 1;
    }
    assert lines[..i] == lines;
  }

  /** No character of `s` ends a line. */
  predicate SingleLine(s: string)
  {
    forall i | 0 <= i < |s| :: !IsLineTerminator(s[i])
  }

  /** The quoted declaration `"name@range":` yarn.lock writes for a package. */
  function QuotedDeclaration(n: string, v: string): string
  {
    "\"" + n + "@" + v + "\":"
  }

  /** The version line yarn.lock writes under a declaration. */
  function VersionLine(ver: string): string
  {
    "  version \"" + ver + "\""
  }

  /** The specifier `name@range` names the package before its only "@". */
  lemma SpecifierName(n: string, v: string)
    requires n != "" && '@' !in v
    ensures NameBeforeAt(n + "@" + v) == Some(n)
  {
    var spec := n + "@" + v;
    assert spec == n + ['@'] + v;
    LastIndexOfAt(n, '@', v);
    assert spec[..|n|] == n;
  }

  /** A quoted declaration is a declaration line. */
  lemma QuotedIsDeclaration(n: string, v: string)
    requires SingleLine(n) && SingleLine(v)
    ensures IsDeclaration(QuotedDeclaration(n, v))
  {
    var d := QuotedDeclaration(n, v);
    forall i | 1 <= i < |d| - 1
      ensures !IsLineTerminator(d[i])
    {
      if i <= |n| {
        assert d[i] == n[i - 1];
      } else if i > |n| + 1 && i < |n| + 2 + |v| {
        assert d[i] == v[i - |n| - 2];
      }
    }
  }

  /** Without its ":", a quoted declaration is one quoted specifier without ",". */
  lemma QuotedSpecifier(n: string, v: string)
    requires ',' !in n && ',' !in v
    ensures var d := QuotedDeclaration(n, v);
      d[..|d| - 1] == "\"" + n + "@" + v + "\"" && ',' !in d[..|d| - 1]
  {
    var d := QuotedDeclaration(n, v);
    var pkgLine := d[..|d| - 1];
    assert pkgLine == "\"" + n + "@" + v + "\"";
    forall i | 0 <= i < |pkgLine|
      ensures pkgLine[i] != ','
    {
      if 1 <= i <= |n| {
        assert pkgLine[i] == n[i - 1];
      } else if |n| + 2 <= i < |n| + 2 + |v| {
        assert pkgLine[i] == v[i - |n| - 2];
      }
    }
  }

  /** A quoted declaration is a declaration line, and it names the package before the "@". */
  lemma QuotedDeclarationNames(n: string, v: string)
    requires n != "" && '@' !in v && ',' !in n && ',' !in v
    requires SingleLine(n) && SingleLine(v)
    ensures IsDeclaration(QuotedDeclaration(n, v))
    ensures DeclaredName(QuotedDeclaration(n, v)) == Some(n)
  {
    QuotedIsDeclaration(n, v);
    var d := QuotedDeclaration(n, v);
    var pkgLine := d[..|d| - 1];
    QuotedSpecifier(n, v);
    SplitWithout(pkgLine, ',');
    assert Unquote(pkgLine) == n + "@" + v;
    SpecifierName(n, v);
  }

  /** Trailing equal characters follow the quote-free run. */
  lemma {:induction false} QuoteFreeRunOf(s: string, j: nat, m: nat)
    requires j + m < |s| && s[j + m] == '"'
    requires forall k | j <= k < j + m :: s[k] != '"'
    decreases m
    ensures QuoteFreeRun(s, j) == m
  {
    if m > 0 {
      QuoteFreeRunOf(s, j + 1, m - 1);
    }
  }

  /** A version line is no declaration, is recognised as a version line, and captures its version. */
  lemma VersionLineCaptures(ver: string)
    requires ver != [] && '"' !in ver
    ensures !IsDeclaration(VersionLine(ver))
    ensures StartsWith(Trim(VersionLine(ver)), VERSION_PREFIX)
    ensures VersionOf(VersionLine(ver)) == Some(ver)
  {
    var l := VersionLine(ver);
    var body := "version \"" + ver + "\"";
    assert l == "  " + body;
    assert Trim(l) == body by {
      TrimLeading("  ", body);
    }
    assert body[..|VERSION_PREFIX|] == VERSION_PREFIX;
    assert VersionAt(l, 0).None? by {
      Mismatch(l, VERSION_PREFIX, 0, 0);
    }
    assert VersionAt(l, 1).None? by {
      Mismatch(l, VERSION_PREFIX, 1, 0);
    }
    assert l == "  " + VERSION_PREFIX + ver + "\"";
    assert OccursAt(l, VERSION_PREFIX, 2) by {
      assert l[2..2 + |VERSION_PREFIX|] == VERSION_PREFIX;
    }
    var j := 2 + |VERSION_PREFIX|;
    assert l[j..j + |ver|] == ver;
    assert forall k | j <= k < j + |ver| :: l[k] != '"' by {
      forall k | j <= k < j + |ver|
        ensures l[k] != '"'
      {
        assert l[k] == ver[k - j];
      }
    }
    QuoteFreeRunOf(l, j, |ver|);
    assert VersionAt(l, 2) == Some(ver);
    assert VersionFrom(l, 2) == Some(ver);
    assert VersionFrom(l, 1) == Some(ver);
  }

  /** A declaration followed by its version line emits the package and leaves nothing pending. */
  lemma EntryEmitted(st: LockScan, n: string, v: string, ver: string)
    requires n != "" && '@' !in v && ',' !in n && ',' !in v
    requires SingleLine(n) && SingleLine(v)
    requires ver != [] && '"' !in ver
    ensures LockStep(LockStep(st, QuotedDeclaration(n, v)), VersionLine(ver)) == LockScan(st.packages + [Package(n, ver)], None)
  {
    QuotedDeclarationNames(n, v);
    VersionLineCaptures(ver);
  }

  /** A line whose characters are declaration or version text holds no line feed. */
  lemma EntryLinesSingle(n: string, v: string, ver: string)
    requires SingleLine(n) && SingleLine(v) && '\n' !in ver
    ensures '\n' !in QuotedDeclaration(n, v) && '\n' !in VersionLine(ver)
  {
    var d := QuotedDeclaration(n, v);
    QuotedIsDeclaration(n, v);
    assert d[0] == '"' && d[|d| - 1] == ':';
    assert forall i | 0 <= i < |d| :: d[i] != '\n';
    var l := VersionLine(ver);
    forall i | 0 <= i < |l|
      ensures l[i] != '\n'
    {
      if 11 <= i < 11 + |ver| {
        assert l[i] == ver[i - 11];
      }
    }
  }

  /** A yarn.lock holding one entry is read back as that package and version. */
  lemma YarnEntryRoundTrip(n: string, v: string, ver: string)
    requires n != "" && '@' !in v && ',' !in n && ',' !in v
    requires SingleLine(n) && SingleLine(v)
    requires ver != [] && '"' !in ver && '\n' !in ver
    ensures LockScanOf(Split(QuotedDeclaration(n, v) + "\n" + VersionLine(ver), '\n')).packages == [Package(n, ver)]
  {
    var d := QuotedDeclaration(n, v);
    var l := VersionLine(ver);
    EntryLinesSingle(n, v, ver);
    assert Split(d + "\n" + l, '\n') == [d, l] by {
      SplitCons(d, l, '\n');
      SplitWithout(l, '\n');
      assert d + "\n" + l == d + ['\n'] + l;
    }
    var lines := [d, l];
    assert lines[..1] == [d];
    assert lines[..1][..0] == [];
    assert LockScanOf(lines[..1]) == LockStep(LockScan([], None), d);
    assert LockScanOf(lines) == LockStep(LockStep(LockScan([], None), d), l);
    EntryEmitted(LockScan([], None), n, v, ver);
  }

  /** As written, a quoted declaration keeps its opening quote in the package name. */
  lemma QuotedNameAsWritten(n: string, v: string)
    requires '@' !in v
    ensures DeclaredNameAsWritten(QuotedDeclaration(n, v)) == Some("\"" + n)
  {
    var d := QuotedDeclaration(n, v);
    var pkgLine := d[..|d| - 1];
    assert pkgLine == ("\"" + n) + ['@'] + (v + "\"");
    assert '@' !in v + "\"";
    LastIndexOfAt("\"" + n, '@', v + "\"");
    assert pkgLine[..|n| + 1] == "\"" + n;
  }

  /** The name and range of the example declaration meet what a quoted declaration needs. */
  lemma ExampleSpecifierParts(n: string, v: string)
    requires n == "@ctrl/tinycolor" && v == "4.1.1"
    ensures n != "" && '@' !in v && ',' !in n && ',' !in v
    ensures SingleLine(n) && SingleLine(v)
  {
  }

  /** The example name behind its opening quote. */
  lemma ExampleQuotedName(n: string)
    requires n == "@ctrl/tinycolor"
    ensures "\"" + n == "\"@ctrl/tinycolor"
  {
  }

  /** The example line is the quoted declaration of its name and range. */
  lemma ExampleDeclaration(line: string, n: string, v: string)
    requires line == "\"@ctrl/tinycolor@4.1.1\":"
    requires n == "@ctrl/tinycolor" && v == "4.1.1"
    ensures line == QuotedDeclaration(n, v)
  {
  }

  /**
   * The scoped package @ctrl/tinycolor, as yarn.lock declares it, is read
   * as `"@ctrl/tinycolor` as written and as `@ctrl/tinycolor` corrected.
   */
  lemma QuotedNameCounterexample(line: string)
    requires line == "\"@ctrl/tinycolor@4.1.1\":"
    ensures DeclaredNameAsWritten(line) == Some("\"@ctrl/tinycolor")
    ensures DeclaredName(line) == Some("@ctrl/tinycolor")
  {
    var n, v := "@ctrl/tinycolor", "4.1.1";
    ExampleDeclaration(line, n, v);
    ExampleSpecifierParts(n, v);
    QuotedNameAsWritten(n, v);
    ExampleQuotedName(n);
    QuotedDeclarationNames(n, v);
  }

  /** Both readings agree on an unquoted declaration with one specifier. */
  lemma UnquotedNamesAgree(n: string, v: string)
    requires n != "" && n[0] != '"' && '@' !in v && ',' !in n && ',' !in v
    ensures DeclaredName(n + "@" + v + ":") == DeclaredNameAsWritten(n + "@" + v + ":") == Some(n)
  {
    var line := n + "@" + v + ":";
    var spec := n + "@" + v;
    assert line[..|line| - 1] == spec;
    assert ',' !in spec by {
      forall i | 0 <= i < |spec|
        ensures spec[i] != ','
      {
        if i < |n| {
          assert spec[i] == n[i];
        } else if i > |n| {
          assert spec[i] == v[i - |n| - 1];
        }
      }
    }
    SplitWithout(spec, ',');
    assert Unquote(spec) == spec;
    SpecifierName(n, v);
  }

  /**
   * A declaration listing several specifiers of one package, `n@v1, n@v2:`,
   * is cut at its last "@" as written, so the name keeps the first specifier.
   */
  lemma MultiSpecifierAsWritten(n: string, v1: string, v2: string)
    requires n != "" && '@' !in v2
    ensures DeclaredNameAsWritten(n + "@" + v1 + ", " + n + "@" + v2 + ":") == Some(n + "@" + v1 + ", " + n)
  {
    var line := n + "@" + v1 + ", " + n + "@" + v2 + ":";
    var a := n + "@" + v1 + ", " + n;
    var pkgLine := line[..|line| - 1];
    assert pkgLine == a + ['@'] + v2;
    LastIndexOfAt(a, '@', v2);
    assert pkgLine[..|a|] == a;
  }

  /** The same declaration names the package of its first specifier. */
  lemma MultiSpecifierNames(n: string, v1: string, rest: string)
    requires n != "" && n[0] != '"' && '@' !in v1 && ',' !in n && ',' !in v1
    ensures DeclaredName(n + "@" + v1 + "," + rest + ":") == Some(n)
  {
    var line := n + "@" + v1 + "," + rest + ":";
    var spec := n + "@" + v1;
    assert line[..|line| - 1] == spec + [','] + rest;
    assert ',' !in spec by {
      forall i | 0 <= i < |spec|
        ensures spec[i] != ','
      {
        if i < |n| {
          assert spec[i] == n[i];
        } else if i > |n| {
          assert spec[i] == v1[i - |n| - 1];
        }
      }
    }
    SplitCons(spec, rest, ',');
    assert Unquote(spec) == spec;
    SpecifierName(n, v1);
  }

  /** The example line is a two-specifier declaration of lodash. */
  lemma ExampleMultiSpecifier(line: string, n: string, v1: string, v2: string)
    requires line == "lodash@^4.17.15, lodash@^4.17.21:"
    requires n == "lodash" && v1 == "^4.17.15" && v2 == "^4.17.21"
    ensures line == n + "@" + v1 + ", " + n + "@" + v2 + ":"
    ensures line == n + "@" + v1 + "," + (" " + n + "@" + v2) + ":"
    ensures n + "@" + v1 + ", " + n == "lodash@^4.17.15, lodash"
  {
  }

  /**
   * `lodash@^4.17.15, lodash@^4.17.21:` names `lodash@^4.17.15, lodash` as
   * written, which no IOC names, and `lodash` when read by its first specifier.
   */
  lemma MultiSpecifierCounterexample(line: string)
    requires line == "lodash@^4.17.15, lodash@^4.17.21:"
    ensures DeclaredNameAsWritten(line) == Some("lodash@^4.17.15, lodash")
    ensures DeclaredName(line) == Some("lodash")
  {
    var n, v1, v2 := "lodash", "^4.17.15", "^4.17.21";
    ExampleMultiSpecifier(line, n, v1, v2);
    MultiSpecifierAsWritten(n, v1, v2);
    MultiSpecifierNames(n, v1, " " + n + "@" + v2);
  }

  /** The number of declaration lines that name a package. */
  function NamingDeclarations(lines: seq<string>): nat
    decreases |lines|
  {
    if lines == [] then 0
    else
      var last := lines[|lines| - 1];
      NamingDeclarations(lines[..|lines| - 1]) + (if IsDeclaration(last) && DeclaredName(last).Some? then 1 else 0)
  }

  /** Each naming declaration gives at most one entry: the entries and the pending package are no more than them. */
  lemma {:induction false} OneEntryPerDeclaration(lines: seq<string>)
    decreases |lines|
    ensures var sc := LockScanOf(lines); |sc.packages| + (if sc.pending.Some? then 1 else 0) <= NamingDeclarations(lines)
  {
    if lines != [] {
      OneEntryPerDeclaration(lines[..|lines| - 1]);
    }
  }

  /** Every entry, and the pending package, is named by a declaration line. */
  lemma {:induction false} NamesDeclared(lines: seq<string>)
    decreases |lines|
    ensures var sc := LockScanOf(lines);
      && (forall p | p in sc.packages :: exists k | 0 <= k < |lines| :: IsDeclaration(lines[k]) && DeclaredName(lines[k]) == Some(p.name))
      && (sc.pending.Some? ==> exists k | 0 <= k < |lines| :: IsDeclaration(lines[k]) && DeclaredName(lines[k]) == sc.pending)
  {
    if lines != [] {
      var front := lines[..|lines| - 1];
      NamesDeclared(front);
      assert forall k | 0 <= k < |front| :: front[k] == lines[k];
    }
  }

  // ------------------------------------------------------------------ matching

  /** `matchesIOC(pkg, ioc)`: the same name, and the IOC names every version or this one. */
  predicate MatchesIOC(pkg: Package, ioc: IOC)
    ensures MatchesIOC(pkg, ioc) ==> pkg.name == ioc.package
  {
    if pkg.name != ioc.package then false
    else if ioc.version == "" || ioc.version == "*" then true
    else pkg.version == ioc.version
  }

  /** An IOC with version "" or "*" matches every version of its package. */
  lemma WildcardMatchesEveryVersion(name: string, version: string, ioc: IOC)
    requires ioc.package == name && ioc.version in {"", "*"}
    ensures MatchesIOC(Package(name, version), ioc)
  {
  }

  /** An IOC with any other version matches exactly that package and version. */
  lemma ExactVersionOnly(pkg: Package, ioc: IOC)
    requires ioc.version != "" && ioc.version != "*"
    ensures MatchesIOC(pkg, ioc) <==> pkg == Package(ioc.package, ioc.version)
  {
  }

  /** As written, the name read from a quoted declaration never matches the IOC of that package. */
  lemma QuotedNameMisses(n: string, version: string, ioc: IOC)
    requires ioc.package == n
    ensures !MatchesIOC(Package("\"" + n, version), ioc)
  {
    assert |"\"" + n| != |n|;
  }

  /** A match reported against yarn.lock. */
  datatype Match = Match(package: string, version: string, source: string, ioc: IOC)

  function MatchOf(pkg: Package, ioc: IOC): Match
  {
    Match(pkg.name, pkg.version, "yarn.lock", ioc)
  }

  /** The matches of one package, in IOC order. */
  function MatchesFor(pkg: Package, iocs: seq<IOC>): seq<Match>
    decreases |iocs|
  {
    if iocs == [] then []
    else
      var front := MatchesFor(pkg, iocs[..|iocs| - 1]);
      var ioc := iocs[|iocs| - 1];
      if MatchesIOC(pkg, ioc) then front + [MatchOf(pkg, ioc)] else front
  }

  /** The matches of every package, package by package. */
  function AllMatches(pkgs: seq<Package>, iocs: seq<IOC>): seq<Match>
    decreases |pkgs|
  {
    if pkgs == [] then []
    else AllMatches(pkgs[..|pkgs| - 1], iocs) + MatchesFor(pkgs[|pkgs| - 1], iocs)
  }

  /** The nested loops of `scanDependencies` over the resolved packages and the IOCs. */
  method FindMatches(resolved: seq<Package>, iocs: seq<IOC>) returns (matches: seq<Match>)
    ensures matches == AllMatches(resolved, iocs)
  {
    matches := [];
    var i := 0;
    while i < |resolved|
      invariant 0 <= i <= |resolved|
      invariant matches == AllMatches(resolved[..i], iocs)
    {
      assert resolved[..i + 1][..i] == resolved[..i];
      var pkg := resolved[i];
      var j := 0;
      while j < |iocs|
        invariant 0 <= j <= |iocs|
        invariant matches == AllMatches(resolved[..i], iocs) + MatchesFor(pkg, iocs[..j])
      {
        assert iocs[..j + 1][..j] == iocs[..j];
        if MatchesIOC(pkg, iocs[j]) {
          matches := matches + [MatchOf(pkg, iocs[j])];
        }
        j := j + 1;
      }
      assert iocs[..j] == iocs;
      i := i + 1;
    }
    assert resolved[..i] == resolved;
  }

  /** A package's matches are exactly the IOCs it matches. */
  lemma {:induction false} MatchesForMembers(pkg: Package, iocs: seq<IOC>, m: Match)
    decreases |iocs|
    ensures m in MatchesFor(pkg, iocs) <==> exists j | 0 <= j < |iocs| :: MatchesIOC(pkg, iocs[j]) && m == MatchOf(pkg, iocs[j])
  {
    if iocs != [] {
      var front := iocs[..|iocs| - 1];
      MatchesForMembers(pkg, front, m);
      assert forall j | 0 <= j < |front| :: front[j] == iocs[j];
    }
  }

  /** A match is reported exactly for a package and an IOC that match. */
  lemma {:induction false} AllMatchesMembers(pkgs: seq<Package>, iocs: seq<IOC>, m: Match)
    decreases |pkgs|
    ensures m in AllMatches(pkgs, iocs) <==>
      exists i, j | 0 <= i < |pkgs| && 0 <= j < |iocs| :: MatchesIOC(pkgs[i], iocs[j]) && m == MatchOf(pkgs[i], iocs[j])
  {
    if pkgs != [] {
      var front := pkgs[..|pkgs| - 1];
      var last := pkgs[|pkgs| - 1];
      AllMatchesMembers(front, iocs, m);
      MatchesForMembers(last, iocs, m);
      assert forall i | 0 <= i < |front| :: front[i] == pkgs[i];
    }
  }

  /** No match is reported exactly when no package matches any IOC. */
  lemma NoMatches(pkgs: seq<Package>, iocs: seq<IOC>)
    ensures AllMatches(pkgs, iocs) == [] <==>
      forall i, j | 0 <= i < |pkgs| && 0 <= j < |iocs| :: !MatchesIOC(pkgs[i], iocs[j])
  {
    if AllMatches(pkgs, iocs) != [] {
      AllMatchesMembers(pkgs, iocs, AllMatches(pkgs, iocs)[0]);
    }
    forall i, j | 0 <= i < |pkgs| && 0 <= j < |iocs| && MatchesIOC(pkgs[i], iocs[j])
      ensures AllMatches(pkgs, iocs) != []
    {
      AllMatchesMembers(pkgs, iocs, MatchOf(pkgs[i], iocs[j]));
    }
  }

  // --------------------------------------------------------------------- scan

  /** The package.json files read, in order. */
  const PACKAGE_JSON_PATHS: seq<string> := ["package.json", "api/package.json", "web/package.json"]

  /** The dependencies of the files at `paths`, file by file. */
  function DeclaredDeps(paths: seq<string>, read: string -> Option<PackageJson>): seq<Dependency>
    decreases |paths|
  {
    if paths == [] then []
    else DeclaredDeps(paths[..|paths| - 1], read) + Dependencies(paths[|paths| - 1], read(paths[|paths| - 1]))
  }

  /** The exit status and the matches of a scan. */
  datatype ScanResult = ScanResult(status: int, matches: seq<Match>)

  /**
   * The result of a scan of the IOC file and yarn.lock (`None` for a
   * missing file): a missing file exits with 1 and no matches; otherwise
   * every match is reported and the status is 1 exactly when there is one.
   */
  function ScanOutcome(iocFile: Option<string>, lockFile: Option<string>): (r: ScanResult)
    ensures iocFile.None? || lockFile.None? ==> r.matches == []
    ensures r.status == (if iocFile.None? || lockFile.None? || r.matches != [] then 1 else 0)
  {
    if iocFile.None? || lockFile.None? then ScanResult(1, [])
    else
      Report(LockScanOf(Split(lockFile.value, '\n')).packages, Collect(Split(iocFile.value, '\n')[1..], IOCLine))
  }

  /** Every match of the resolved packages, and the status 1 exactly when there is one. */
  function Report(resolved: seq<Package>, iocs: seq<IOC>): ScanResult
  {
    var matches := AllMatches(resolved, iocs);
    ScanResult(if matches == [] then 0 else 1, matches)
  }

  /**
   * `scanDependencies`. The package.json dependencies are collected and
   * returned, but only the yarn.lock entries are matched, so they take no
   * part in the result.
   */
  method ScanDependencies(iocFile: Option<string>, read: string -> Option<PackageJson>, lockFile: Option<string>)
    returns (status: int, matches: seq<Match>, declared: seq<Dependency>)
    ensures ScanResult(status, matches) == ScanOutcome(iocFile, lockFile)
    ensures iocFile.Some? ==> declared == DeclaredDeps(PACKAGE_JSON_PATHS, read)
  {
    declared := [];
    if iocFile.None? {
      return 1, [], declared;
    }
    var iocs := ParseIOCs(iocFile.value);
    var p := 0;
    while p < |PACKAGE_JSON_PATHS|
      invariant 0 <= p <= |PACKAGE_JSON_PATHS|
      invariant declared == DeclaredDeps(PACKAGE_JSON_PATHS[..p], read)
    {
      assert PACKAGE_JSON_PATHS[..p + 1][..p] == PACKAGE_JSON_PATHS[..p];
      var pkgPath := PACKAGE_JSON_PATHS[p];
      var deps := ExtractDependencies(pkgPath, read(pkgPath));
      declared := declared + deps;
      p := p + 1;
    }
    assert PACKAGE_JSON_PATHS[..p] == PACKAGE_JSON_PATHS;
    if lockFile.None? {
      return 1, [], declared;
    }
    var resolvedDeps := ParseYarnLock(lockFile.value);
    matches := FindMatches(resolvedDeps, iocs);
    status := if |matches| == 0 then 0 else 1;
  }

  /** A report has status 0 exactly when no resolved package matches an IOC, and 1 otherwise. */
  lemma CleanReport(resolved: seq<Package>, iocs: seq<IOC>)
    ensures Report(resolved, iocs).status in {0, 1}
    ensures Report(resolved, iocs).status == 0 <==>
      forall i, j | 0 <= i < |resolved| && 0 <= j < |iocs| :: !MatchesIOC(resolved[i], iocs[j])
  {
    NoMatches(resolved, iocs);
  }
}
