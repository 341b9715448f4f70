// The software catalogue as the web client holds it: the list entries, the
// figures derived from one entry and the filters of the catalogue page.
module Catalog {
  import opened Wrappers
  import Catalogi

  /** `State.Sort`: the orders the catalogue page offers. */
  datatype Sort =
    | AddedTime | UpdateTime | LatestVersionPublicationDate | UserCount | ReferentCount
    | UserCountAsc | ReferentCountAsc | BestMatch | MySoftware

  /** `State.Environment`. */
  datatype Environment = Linux | Windows | Mac | Browser | Stack | Android | Ios

  datatype Counts = Counts(userCount: nat, referentCount: nat)

  datatype LatestVersion = LatestVersion(semVer: Option<string>, publicationTime: Option<int>)

  /** A similar software of a list entry: its name when registered, its label (`label`, already resolved) otherwise. */
  datatype SimilarEntry = SimilarEntry(softwareName: Option<string>, displayLabel: Option<string>)

  datatype UserDeclaration = UserDeclaration(isUser: bool, isReferent: bool)

  /** A JSON object as the list of its entries, in key order. */
  type Entries<V> = seq<(string, V)>

  /**
   * `State.Software`: an entry of the API's list plus the signed-in user's
   * declaration and the search string. The entry's other fields (id, logo,
   * ...) pass through every selector unchanged and are not modelled.
   */
  datatype Software = Software(
    softwareName: string,
    softwareDescription: string,
    latestVersion: Option<LatestVersion>,
    addedTime: int,
    updateTime: int,
    applicationCategories: seq<string>,
    keywords: seq<string>,
    softwareType: Catalogi.SoftwareType,
    customAttributes: Option<Entries<Catalogi.AttributeValue>>,
    programmingLanguages: seq<string>,
    authors: seq<string>,
    userAndReferentCountByOrganization: Entries<Counts>,
    similarSoftwares: seq<SimilarEntry>,
    userDeclaration: Option<UserDeclaration>,
    search: Option<string>)

  // ------------------------------------------------------------ JSON objects

  /** `Object.keys`. */
  function Keys<V>(e: Entries<V>): (r: seq<string>)
    ensures |r| == |e| && forall i | 0 <= i < |e| :: r[i] == e[i].0
  {
    seq(|e|, i requires 0 <= i < |e| => e[i].0)
  }

  /** `obj[k]`: the value of the last entry with key `k`. */
  function Lookup<V>(e: Entries<V>, k: string): (r: Option<V>)
    decreases |e|
    ensures r.Some? <==> k in Keys(e)
    ensures r.Some? ==> (k, r.value) in e
  {
    if e == [] then None
    else
      var n := |e| - 1;
      assert Keys(e) == Keys(e[..n]) + [e[n].0];
      if e[n].0 == k then Some(e[n].1) else Lookup(e[..n], k)
  }

  // --------------------------------------------------------------- getComputeds

  /** The sum of one count over the entries of an organisation map. */
  function Total(e: Entries<Counts>, referents: bool): nat
    decreases |e|
  {
    if e == [] then 0
    else Total(e[..|e| - 1], referents) + (if referents then e[|e| - 1].1.referentCount else e[|e| - 1].1.userCount)
  }

  datatype Computeds = Computeds(userCount: nat, referentCount: nat, organizations: seq<string>)

  /** `getComputeds`: the user and referent totals over the organisations, and the organisations. */
  function GetComputeds(s: Software): (r: Computeds)
    ensures var m := s.userAndReferentCountByOrganization;
      && |r.organizations| == |m|
      && (forall i | 0 <= i < |m| :: r.organizations[i] == m[i].0)
      && (m == [] ==> r.userCount == 0 && r.referentCount == 0)
      && (forall i | 0 <= i < |m| :: m[i].1.userCount <= r.userCount && m[i].1.referentCount <= r.referentCount)
    ensures r.userCount == Total(s.userAndReferentCountByOrganization, false)
    ensures r.referentCount == Total(s.userAndReferentCountByOrganization, true)
  {
    var m := s.userAndReferentCountByOrganization;
    assert forall i | 0 <= i < |m| :: m[i].1.userCount <= Total(m, false) && m[i].1.referentCount <= Total(m, true) by {
      forall i | 0 <= i < |m| ensures m[i].1.userCount <= Total(m, false) && m[i].1.referentCount <= Total(m, true) {
        TotalAtLeast(m, i, false);
        TotalAtLeast(m, i, true);
      }
    }
    Computeds(Total(m, false), Total(m, true), Keys(m))
  }

  /** The total is at least the count of any one organisation. */
  lemma {:induction false} TotalAtLeast(e: Entries<Counts>, i: nat, referents: bool)
    requires i < |e|
    decreases |e|
    ensures (if referents then e[i].1.referentCount else e[i].1.userCount) <= Total(e, referents)
  {
    if i < |e| - 1 {
      TotalAtLeast(e[..|e| - 1], i, referents);
    }
  }

  lemma {:induction false} TotalConcat(a: Entries<Counts>, b: Entries<Counts>, referents: bool)
    decreases |b|
    ensures Total(a + b, referents) == Total(a, referents) + Total(b, referents)
  {
    if b == [] {
      assert a + b == a;
    } else {
      var n := |b| - 1;
      TotalConcat(a, b[..n], referents);
      assert (a + b)[..|a + b| - 1] == a + b[..n];
    }
  }

  /** The totals do not depend on the order of the organisations (`Object.values` order). */
  lemma {:induction false} TotalPermutation(a: Entries<Counts>, b: Entries<Counts>, referents: bool)
    requires multiset(a) == multiset(b)
    decreases |a|
    ensures Total(a, referents) == Total(b, referents)
  {
    if a == [] {
      assert |b| == |multiset(b)| == 0;
    } else {
      var n := |a| - 1;
      var x := a[n];
      assert a == a[..n] + [x];
      assert x in multiset(b);
      var j :| 0 <= j < |b| && b[j] == x;
      assert b == b[..j] + [x] + b[j + 1..];
      var rest := b[..j] + b[j + 1..];
      assert multiset(a) == multiset(a[..n]) + multiset{x};
      assert multiset(b) == multiset(b[..j]) + multiset{x} + multiset(b[j + 1..]);
      assert multiset(rest) == multiset(b[..j]) + multiset(b[j + 1..]);
      assert multiset(a[..n]) == multiset(a) - multiset{x};
      assert multiset(rest) == multiset(b) - multiset{x};
      TotalPermutation(a[..n], rest, referents);
      TotalConcat(b[..j], [x], referents);
      TotalConcat(b[..j] + [x], b[j + 1..], referents);
      TotalConcat(b[..j], b[j + 1..], referents);
      assert Total([x], referents) == Total(a, referents) - Total(a[..n], referents);
    }
  }

  /** Lists first occurrences only, in order: `Array.from(new Set(xs))`. */
  function Dedup<T(==,!new)>(xs: seq<T>): (r: seq<T>)
    decreases |xs|
    ensures forall x :: x in r <==> x in xs
    ensures forall i, j | 0 <= i < j < |r| :: r[i] != r[j]
  {
    if xs == [] then []
    else
      var rest := Dedup(xs[..|xs| - 1]);
      var x := xs[|xs| - 1];
      assert forall y :: y in xs <==> y in xs[..|xs| - 1] || y == x;
      if x in rest then rest else rest + [x]
  }

  /** `a` occurs in `xs` before `b` first does. */
  ghost predicate OccursFirst<T>(xs: seq<T>, a: T, b: T)
  {
    exists p | 0 <= p < |xs| :: xs[p] == a && b !in xs[..p]
  }

  /**
   * `Dedup` keeps the order of first occurrences: of two listed values, the
   * earlier one occurs in `xs` before the later one first does.
   */
  lemma {:induction false} DedupOrder<T(!new)>(xs: seq<T>)
    decreases |xs|
    ensures forall i, j | 0 <= i < j < |Dedup(xs)| :: OccursFirst(xs, Dedup(xs)[i], Dedup(xs)[j])
  {
    if xs != [] {
      var init := xs[..|xs| - 1];
      var rest := Dedup(init);
      var x := xs[|xs| - 1];
      DedupOrder(init);
      var r := Dedup(xs);
      assert r == if x in rest then rest else rest + [x];
      forall i, j | 0 <= i < j < |r|
        ensures OccursFirst(xs, r[i], r[j])
      {
        assert r[i] == rest[i];
        var p: nat;
        if j < |rest| {
          assert r[j] == rest[j];
          assert OccursFirst(init, rest[i], rest[j]);
          p :| 0 <= p < |init| && init[p] == rest[i] && rest[j] !in init[..p];
        } else {
          assert rest[i] in rest;
          assert rest[i] in init;
          p :| 0 <= p < |init| && init[p] == rest[i];
          assert r[j] == x && x !in init;
          assert forall y | y in init[..p] :: y in init;
        }
        assert xs[..p] == init[..p];
        assert xs[p] == r[i];
      }
    }
  }

  // ------------------------------------------------------------------ filters

  /** One `filterBy*` with its argument. */
  datatype Criterion =
    | ByOrganization(organization: string)
    | ByCategory(category: string)
    | ByProgrammingLanguage(programmingLanguage: string)
    | ByEnvironment(environment: Environment)
    | ByAttribute(attributeName: string)

  predicate OsHas(os: Catalogi.Os, e: Environment)
  {
    match e
    case Linux => os.linux
    case Windows => os.windows
    case Mac => os.mac
    case Android => os.android
    case Ios => os.ios
    case Browser => false
    case Stack => false
  }

  /**
   * `filterByEnvironnement`'s test: an operating system only for a
   * desktop/mobile software with that flag, the browser only for cloud
   * software, the stack only for a stack.
   */
  predicate HasEnvironment(t: Catalogi.SoftwareType, e: Environment)
  {
    match e
    case Browser => t.Cloud?
    case Stack => t.Stack?
    case _ => t.DesktopMobile? && OsHas(t.os, e)
  }

  /** `({...customAttributes})[name]` is truthy; no attributes spread to `{}`. */
  predicate AttributeSet(s: Software, name: string)
  {
    && s.customAttributes.Some?
    && var v := Lookup(s.customAttributes.value, name);
    && v.Some? && Catalogi.Truthy(v.value)
  }

  predicate Keeps(c: Criterion, s: Software)
  {
    match c
    case ByOrganization(o) => o in GetComputeds(s).organizations
    case ByCategory(cat) => cat in s.applicationCategories
    case ByProgrammingLanguage(l) => l in s.programmingLanguages
    case ByEnvironment(e) => HasEnvironment(s.softwareType, e)
    case ByAttribute(a) => AttributeSet(s, a)
  }

  /** `filterBy*`: `softwares.filter(...)` with the criterion's test. */
  function FilterBy(xs: seq<Software>, c: Criterion): (r: seq<Software>)
    decreases |xs|
    ensures forall x :: x in r <==> x in xs && Keeps(c, x)
    ensures |r| <= |xs|
  {
    if xs == [] then []
    else
      var n := |xs| - 1;
      assert forall y :: y in xs <==> y in xs[..n] || y == xs[n];
      FilterBy(xs[..n], c) + (if Keeps(c, xs[n]) then [xs[n]] else [])
  }

  /** Filtering distributes over concatenation: it keeps the input order. */
  lemma {:induction false} FilterConcat(a: seq<Software>, b: seq<Software>, c: Criterion)
    decreases |b|
    ensures FilterBy(a + b, c) == FilterBy(a, c) + FilterBy(b, c)
  {
    if b == [] {
      assert a + b == a;
    } else {
      var n := |b| - 1;
      var tail := if Keeps(c, b[n]) then [b[n]] else [];
      FilterConcat(a, b[..n], c);
      assert (a + b)[..|a + b| - 1] == a + b[..n];
      assert (a + b)[|a + b| - 1] == b[n];
      assert FilterBy(a + b, c) == FilterBy(a + b[..n], c) + tail;
      assert FilterBy(b, c) == FilterBy(b[..n], c) + tail;
    }
  }

  /** The softwares meeting every criterion. */
  predicate KeepsAll(cs: seq<Criterion>, x: Software)
  {
    forall c | c in cs :: Keeps(c, x)
  }

  /** Reference definition: the order-preserving subsequence of the softwares that meet every criterion. */
  function Select(xs: seq<Software>, cs: seq<Criterion>): (r: seq<Software>)
    decreases |xs|
    ensures forall x :: x in r <==> x in xs && KeepsAll(cs, x)
  {
    if xs == [] then []
    else
      var n := |xs| - 1;
      assert forall y :: y in xs <==> y in xs[..n] || y == xs[n];
      Select(xs[..n], cs) + (if KeepsAll(cs, xs[n]) then [xs[n]] else [])
  }

  /** The filters applied one after the other, as the selectors do. */
  function ApplyAll(xs: seq<Software>, cs: seq<Criterion>): (r: seq<Software>)
    decreases |cs|
    ensures |r| <= |xs|
    ensures forall x :: x in r <==> x in xs && KeepsAll(cs, x)
  {
    if cs == [] then xs
    else
      var n := |cs| - 1;
      assert forall x :: KeepsAll(cs, x) <==> KeepsAll(cs[..n], x) && Keeps(cs[n], x) by {
        assert forall c :: c in cs <==> c in cs[..n] || c == cs[n];
      }
      FilterBy(ApplyAll(xs, cs[..n]), cs[n])
  }

  lemma {:induction false} FilterSelect(xs: seq<Software>, cs: seq<Criterion>, c: Criterion)
    decreases |xs|
    ensures FilterBy(Select(xs, cs), c) == Select(xs, cs + [c])
  {
    if xs != [] {
      var n := |xs| - 1;
      FilterSelect(xs[..n], cs, c);
      FilterConcat(Select(xs[..n], cs), if KeepsAll(cs, xs[n]) then [xs[n]] else [], c);
      assert KeepsAll(cs + [c], xs[n]) <==> KeepsAll(cs, xs[n]) && Keeps(c, xs[n]);
    }
  }

  /** Applying the filters in turn selects the softwares that meet all of them, in input order. */
  lemma {:induction false} ApplyAllSelects(xs: seq<Software>, cs: seq<Criterion>)
    decreases |cs|
    ensures ApplyAll(xs, cs) == Select(xs, cs)
  {
    if cs == [] {
      SelectNone(xs);
    } else {
      var n := |cs| - 1;
      ApplyAllSelects(xs, cs[..n]);
      FilterSelect(xs, cs[..n], cs[n]);
      assert cs[..n] + [cs[n]] == cs;
    }
  }

  lemma {:induction false} SelectNone(xs: seq<Software>)
    decreases |xs|
    ensures Select(xs, []) == xs
  {
    if xs != [] {
      var n := |xs| - 1;
      SelectNone(xs[..n]);
      assert KeepsAll([], xs[n]);
      calc {
        Select(xs, []);
        Select(xs[..n], []) + [xs[n]];
        xs[..n] + [xs[n]];
        { assert xs == xs[..n] + [xs[n]]; }
        xs;
      }
    }
  }

  /** Only which criteria apply matters, not their order: the filters commute. */
  lemma {:induction false} SelectSameCriteria(xs: seq<Software>, cs1: seq<Criterion>, cs2: seq<Criterion>)
    requires forall c :: c in cs1 <==> c in cs2
    decreases |xs|
    ensures Select(xs, cs1) == Select(xs, cs2)
  {
    if xs != [] {
      SelectSameCriteria(xs[..|xs| - 1], cs1, cs2);
      assert KeepsAll(cs1, xs[|xs| - 1]) <==> KeepsAll(cs2, xs[|xs| - 1]);
    }
  }
}
