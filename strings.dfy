// String operations of JavaScript that the modelled code relies on: `join`,
// `split` on one character, `trim`, `startsWith`/`endsWith`, `includes`,
// `indexOf`/`lastIndexOf`, `replace` of a string and `replaceAll` of one character.
module Strings {
  import opened Wrappers

  /** `[a, b, c].join(sep)`. */
  function Join(sep: string, xs: seq<string>): string
    decreases |xs|
  {
    if xs == [] then ""
    else if |xs| == 1 then xs[0]
    else Join(sep, xs[..|xs| - 1]) + sep + xs[|xs| - 1]
  }

  /** Where the `i`-th part starts in the joined string. */
  function JoinOffset(sep: string, xs: seq<string>, i: nat): nat
    requires i < |xs|
    decreases i
  {
    if i == 0 then 0 else JoinOffset(sep, xs, i - 1) + |xs[i - 1]| + |sep|
  }

  /** Every part sits in the joined string at its offset. */
  lemma {:induction false} JoinHolds(sep: string, xs: seq<string>, i: nat)
    requires i < |xs|
    decreases |xs|
    ensures var j := Join(sep, xs); var o := JoinOffset(sep, xs, i);
      o + |xs[i]| <= |j| && j[o..o + |xs[i]|] == xs[i]
  {
    var n := |xs| - 1;
    if n == 0 {
    } else {
      var front := xs[..n];
      if i < n {
        JoinHolds(sep, front, i);
        JoinSameOffset(sep, xs, front, i);
        var j := Join(sep, xs);
        var jf := Join(sep, front);
        assert j == jf + sep + xs[n];
        var o := JoinOffset(sep, xs, i);
        assert j[o..o + |xs[i]|] == jf[o..o + |xs[i]|];
      } else {
        JoinLength(sep, front);
        JoinSameOffset(sep, xs, front, n - 1);
        var j := Join(sep, xs);
        assert j == Join(sep, front) + sep + xs[n];
      }
    }
  }

  /** The offsets of the common parts of a list and its prefix agree. */
  lemma {:induction false} JoinSameOffset(sep: string, xs: seq<string>, front: seq<string>, i: nat)
    requires i < |front| <= |xs| && front == xs[..|front|]
    decreases i
    ensures JoinOffset(sep, xs, i) == JoinOffset(sep, front, i)
  {
    if i > 0 {
      JoinSameOffset(sep, xs, front, i - 1);
    }
  }

  /** The joined string of a non-empty list ends where its last part ends. */
  lemma {:induction false} JoinLength(sep: string, xs: seq<string>)
    requires xs != []
    decreases |xs|
    ensures |Join(sep, xs)| == JoinOffset(sep, xs, |xs| - 1) + |xs[|xs| - 1]|
  {
    var n := |xs| - 1;
    if n > 0 {
      JoinLength(sep, xs[..n]);
      JoinSameOffset(sep, xs, xs[..n], n - 1);
    }
  }

  /** `s.startsWith(p)`. */
  predicate StartsWith(s: string, p: string)
  {
    |p| <= |s| && s[..|p|] == p
  }

  /** `s.endsWith(p)`. */
  predicate EndsWith(s: string, p: string)
  {
    |p| <= |s| && s[|s| - |p|..] == p
  }

  /** `t` occurs in `s` at index `i`. */
  predicate OccursAt(s: string, t: string, i: nat)
  {
    i + |t| <= |s| && s[i..i + |t|] == t
  }

  /** The first index at or after `from` where `t` occurs in `s`. */
  function IndexOfFrom(s: string, t: string, from: nat): (r: Option<nat>)
    decreases |s| - from
    ensures r.Some? ==> from <= r.value && OccursAt(s, t, r.value)
    ensures r.Some? ==> forall j: nat | from <= j < r.value :: !OccursAt(s, t, j)
    ensures r.None? ==> forall j: nat | from <= j :: !OccursAt(s, t, j)
  {
    if from + |t| > |s| then None
    else if s[from..from + |t|] == t then Some(from)
    else IndexOfFrom(s, t, from + 1)
  }

  /** `s.indexOf(t)`, `None` for -1. */
  function IndexOf(s: string, t: string): Option<nat>
  {
    IndexOfFrom(s, t, 0)
  }

  /** `s.includes(t)`. */
  predicate Contains(s: string, t: string)
  {
    exists i: nat | i <= |s| :: OccursAt(s, t, i)
  }

  lemma ContainsIndexOf(s: string, t: string)
    ensures Contains(s, t) <==> IndexOf(s, t).Some?
  {
    if IndexOf(s, t).Some? {
      assert OccursAt(s, t, IndexOf(s, t).value);
    }
  }

  /** One differing character rules out an occurrence. */
  lemma Mismatch(s: string, t: string, j: nat, k: nat)
    requires k < |t| && j + k < |s| && s[j + k] != t[k]
    ensures !OccursAt(s, t, j)
  {
    if j + |t| <= |s| {
      assert s[j..j + |t|][k] == s[j + k];
    }
  }

  /** A character missing from every position of a slice is not in it. */
  lemma Absent(s: string, c: char, lo: nat, hi: nat)
    requires lo <= hi <= |s|
    requires forall k | lo <= k < hi :: s[k] != c
    ensures c !in s[lo..hi]
  {
    forall k | 0 <= k < hi - lo
      ensures s[lo..hi][k] != c
    {
      assert s[lo..hi][k] == s[lo + k];
    }
  }

  /** The first index of the character `c` in `s`. */
  function FirstIndex(s: string, c: char): (i: nat)
    requires c in s
    decreases |s|
    ensures i < |s| && s[i] == c && c !in s[..i]
  {
    if s[0] == c then 0
    else
      assert c in s[1..] by { assert forall x | x in s && x != s[0] :: x in s[1..]; }
      var j := FirstIndex(s[1..], c);
      assert s[..j + 1] == [s[0]] + s[1..][..j];
      j + 1
  }

  /** `s.lastIndexOf(c)` for one character, `None` for -1. */
  function LastIndexOf(s: string, c: char): (r: Option<nat>)
    decreases |s|
    ensures r.Some? ==> r.value < |s| && s[r.value] == c && forall j | r.value < j < |s| :: s[j] != c
    ensures r.None? <==> c !in s
  {
    if s == [] then None
    else if s[|s| - 1] == c then Some(|s| - 1)
    else
      assert forall x :: x in s <==> x in s[..|s| - 1] || x == s[|s| - 1];
      LastIndexOf(s[..|s| - 1], c)
  }

  /** The last occurrence of `c` is the one after which it no longer occurs. */
  lemma {:induction false} LastIndexOfAt(a: string, c: char, b: string)
    requires c !in b
    decreases |b|
    ensures LastIndexOf(a + [c] + b, c) == Some(|a|)
  {
    var s := a + [c] + b;
    if b != [] {
      assert s[|s| - 1] == b[|b| - 1];
      assert s[..|s| - 1] == a + [c] + b[..|b| - 1];
      LastIndexOfAt(a, c, b[..|b| - 1]);
    }
  }

  /** `s.split(c)` for a one-character separator. */
  function Split(s: string, c: char): (r: seq<string>)
    decreases |s|
    ensures |r| >= 1
    ensures forall i | 0 <= i < |r| :: c !in r[i]
  {
    if c in s then var i := FirstIndex(s, c); [s[..i]] + Split(s[i + 1..], c) else [s]
  }

  /** A string without the separator splits into itself alone. */
  lemma SplitWithout(s: string, c: char)
    requires c !in s
    ensures Split(s, c) == [s]
  {
  }

  /** The first separator ends the first part. */
  lemma SplitCons(a: string, b: string, c: char)
    requires c !in a
    ensures Split(a + [c] + b, c) == [a] + Split(b, c)
  {
    var s := a + [c] + b;
    assert s[..|a|] == a && s[|a|] == c;
    assert s[|a| + 1..] == b;
    FirstIndexUnique(s, c, |a|);
  }

  /** The first index of a character is the one before which it does not occur. */
  lemma FirstIndexUnique(s: string, c: char, k: nat)
    requires k < |s| && s[k] == c && c !in s[..k]
    ensures FirstIndex(s, c) == k
  {
  }

  /** Joining a list is joining its head to the join of its tail. */
  lemma {:induction false} JoinCons(sep: string, x: string, xs: seq<string>)
    requires xs != []
    decreases |xs|
    ensures Join(sep, [x] + xs) == x + sep + Join(sep, xs)
  {
    var m := |xs| - 1;
    var ys := [x] + xs;
    if m > 0 {
      JoinCons(sep, x, xs[..m]);
      assert ys[..|ys| - 1] == [x] + xs[..m];
    } else {
      assert ys[..|ys| - 1] == [x];
    }
  }

  /** A string with the separator splits at its first occurrence. */
  lemma SplitFirst(s: string, c: char)
    requires c in s
    ensures Split(s, c) == [s[..FirstIndex(s, c)]] + Split(s[FirstIndex(s, c) + 1..], c)
  {
  }

  /** A string is what precedes a position, the character there, and what follows. */
  lemma SplitAround(s: string, i: nat)
    requires i < |s|
    ensures s == s[..i] + [s[i]] + s[i + 1..]
  {
  }

  /** Splitting and joining back with the separator is the identity. */
  lemma {:induction false} SplitJoin(s: string, c: char)
    decreases |s|
    ensures Join([c], Split(s, c)) == s
  {
    if c in s {
      var i := FirstIndex(s, c);
      var rest := s[i + 1..];
      SplitFirst(s, c);
      SplitJoin(rest, c);
      JoinCons([c], s[..i], Split(rest, c));
      SplitAround(s, i);
    } else {
      assert Split(s, c) == [s];
    }
  }

  /** Joining parts without the separator and splitting again gives the parts back. */
  lemma {:induction false} SplitOfJoin(xs: seq<string>, c: char)
    requires xs != []
    requires forall i | 0 <= i < |xs| :: c !in xs[i]
    decreases |xs|
    ensures Split(Join([c], xs), c) == xs
  {
    if |xs| > 1 {
      var tail := xs[1..];
      SplitOfJoin(tail, c);
      assert xs == [xs[0]] + tail;
      JoinCons([c], xs[0], tail);
      SplitCons(xs[0], Join([c], tail), c);
    }
  }

  /** `s.replaceAll(c, rep)` for one character. */
  function ReplaceAll(s: string, c: char, rep: string): (r: string)
    decreases |s|
    ensures c !in rep ==> c !in r
  {
    if s == [] then ""
    else (if s[0] == c then rep else [s[0]]) + ReplaceAll(s[1..], c, rep)
  }

  lemma {:induction false} ReplaceAllAppend(a: string, b: string, c: char, rep: string)
    decreases |a|
    ensures ReplaceAll(a + b, c, rep) == ReplaceAll(a, c, rep) + ReplaceAll(b, c, rep)
  {
    if a != [] {
      ReplaceAllAppend(a[1..], b, c, rep);
      assert (a + b)[1..] == a[1..] + b;
    } else {
      assert a + b == b;
    }
  }

  lemma {:induction false} ReplaceAllWithout(s: string, c: char, rep: string)
    requires c !in s
    decreases |s|
    ensures ReplaceAll(s, c, rep) == s
  {
    if s != [] {
      ReplaceAllWithout(s[1..], c, rep);
    }
  }

  /** Replacing in a string is replacing before and after its first occurrence. */
  lemma ReplaceAllFirst(s: string, c: char, rep: string)
    requires c in s
    ensures var i := FirstIndex(s, c);
      ReplaceAll(s, c, rep) == s[..i] + rep + ReplaceAll(s[i + 1..], c, rep)
  {
    var i := FirstIndex(s, c);
    var pre, rest := s[..i], s[i + 1..];
    var tail := [c] + rest;
    assert s == pre + tail;
    ReplaceAllAppend(pre, tail, c, rep);
    ReplaceAllWithout(pre, c, rep);
    assert tail[0] == c && tail[1..] == rest;
    assert ReplaceAll(tail, c, rep) == rep + ReplaceAll(rest, c, rep);
  }

  /** Replacing every occurrence is splitting at the character and joining with the replacement. */
  lemma {:induction false} JoinSplit(s: string, c: char, rep: string)
    decreases |s|
    ensures ReplaceAll(s, c, rep) == Join(rep, Split(s, c))
  {
    if c in s {
      var i := FirstIndex(s, c);
      var rest := s[i + 1..];
      JoinSplit(rest, c, rep);
      JoinCons(rep, s[..i], Split(rest, c));
      ReplaceAllFirst(s, c, rep);
    } else {
      ReplaceAllWithout(s, c, rep);
    }
  }

  /** `s.replace(t, u)` with a string pattern: only the first occurrence is replaced. */
  function ReplaceText(s: string, t: string, u: string): string
  {
    match IndexOf(s, t)
    case None => s
    case Some(i) => s[..i] + u + s[i + |t|..]
  }

  /** A text that starts with the pattern has it replaced there. */
  lemma ReplaceTextAtStart(s: string, t: string, u: string)
    requires StartsWith(s, t)
    ensures ReplaceText(s, t, u) == u + s[|t|..]
  {
    assert IndexOf(s, t) == Some(0);
  }

  /**
   * The characters `trim` removes: JavaScript's white space (tab, vertical
   * tab, form feed, space, no-break space, byte-order mark and the other
   * space separators) and its line terminators.
   */
  predicate IsSpace(ch: char)
  {
    || ch == '\t' || ch == '\U{B}' || ch == '\U{C}' || ch == ' ' || ch == '\U{A0}' || ch == '\U{FEFF}'
    || ch == '\U{1680}' || ('\U{2000}' <= ch <= '\U{200A}') || ch == '\U{202F}' || ch == '\U{205F}' || ch == '\U{3000}'
    || ch == '\n' || ch == '\r' || ch == '\U{2028}' || ch == '\U{2029}'
  }

  /** `s.trim()`: white space removed from both ends, so that neither end is white space. */
  function Trim(s: string): (r: string)
    decreases |s|
    ensures |r| <= |s|
    ensures r != [] ==> !IsSpace(r[0]) && !IsSpace(r[|r| - 1])
  {
    if s != [] && IsSpace(s[0]) then Trim(s[1..])
    else if s != [] && IsSpace(s[|s| - 1]) then Trim(s[..|s| - 1])
    else s
  }

  /**
   * What `trim` removes: the result is a slice of the string with only white space
   * before and after it, so exactly the outer white space is gone.
   */
  lemma {:induction false} TrimMeaning(s: string)
    decreases |s|
    ensures exists a, b | 0 <= a <= b <= |s| ::
      && Trim(s) == s[a..b]
      && (forall k | 0 <= k < a :: IsSpace(s[k]))
      && (forall k | b <= k < |s| :: IsSpace(s[k]))
  {
    if s != [] && IsSpace(s[0]) {
      var t := s[1..];
      TrimMeaning(t);
      var a, b :| 0 <= a <= b <= |t| && Trim(t) == t[a..b]
        && (forall k | 0 <= k < a :: IsSpace(t[k])) && (forall k | b <= k < |t| :: IsSpace(t[k]));
      TrimSliceDropFront(s, t, a, b);
    } else if s != [] && IsSpace(s[|s| - 1]) {
      var t := s[..|s| - 1];
      TrimMeaning(t);
      var a, b :| 0 <= a <= b <= |t| && Trim(t) == t[a..b]
        && (forall k | 0 <= k < a :: IsSpace(t[k])) && (forall k | b <= k < |t| :: IsSpace(t[k]));
      TrimSliceDropBack(s, t, a, b);
    } else {
      assert Trim(s) == s[0..|s|];
    }
  }

  /** A trim slice `[a, b)` of `s[1..]`, when `s` starts with white space, is the trim slice `[a + 1, b + 1)` of `s`. */
  lemma TrimSliceDropFront(s: string, t: string, a: nat, b: nat)
    requires s != [] && IsSpace(s[0]) && t == s[1..] && a <= b <= |t|
    requires Trim(t) == t[a..b]
    requires forall k | 0 <= k < a :: IsSpace(t[k])
    requires forall k | b <= k < |t| :: IsSpace(t[k])
    ensures Trim(s) == s[a + 1..b + 1]
    ensures forall k | 0 <= k < a + 1 :: IsSpace(s[k])
    ensures forall k | b + 1 <= k < |s| :: IsSpace(s[k])
  {
    forall k | 0 <= k < a + 1 ensures IsSpace(s[k]) { if k > 0 { assert s[k] == t[k - 1]; } }
    forall k | b + 1 <= k < |s| ensures IsSpace(s[k]) { assert s[k] == t[k - 1]; }
  }

  /**
   * A trim slice `[a, b)` of `s[..|s| - 1]`, when `s` ends with white space and trims
   * like `s[..|s| - 1]`, is the trim slice `[a, b)` of `s`.
   */
  lemma TrimSliceDropBack(s: string, t: string, a: nat, b: nat)
    requires s != [] && IsSpace(s[|s| - 1]) && t == s[..|s| - 1] && a <= b <= |t|
    requires Trim(s) == Trim(t) == t[a..b]
    requires forall k | 0 <= k < a :: IsSpace(t[k])
    requires forall k | b <= k < |t| :: IsSpace(t[k])
    ensures Trim(s) == s[a..b]
    ensures forall k | 0 <= k < a :: IsSpace(s[k])
    ensures forall k | b <= k < |s| :: IsSpace(s[k])
  {
    forall k | 0 <= k < a ensures IsSpace(s[k]) { assert s[k] == t[k]; }
    forall k | b <= k < |s| ensures IsSpace(s[k]) { if k < |t| { assert s[k] == t[k]; } }
  }

  /** A string whose ends are not white space is its own trim. */
  lemma TrimFixed(s: string)
    requires s != [] ==> !IsSpace(s[0]) && !IsSpace(s[|s| - 1])
    ensures Trim(s) == s
  {
  }

  /** Trimming twice is trimming once. */
  lemma TrimIdempotent(s: string)
    ensures Trim(Trim(s)) == Trim(s)
  {
    TrimFixed(Trim(s));
  }

  /** Leading white space before a trimmed string is all that `trim` removes. */
  lemma {:induction false} TrimLeading(sp: string, t: string)
    requires forall i | 0 <= i < |sp| :: IsSpace(sp[i])
    requires t != [] && !IsSpace(t[0]) && !IsSpace(t[|t| - 1])
    decreases |sp|
    ensures Trim(sp + t) == t
  {
    if sp == [] {
      assert sp + t == t;
      TrimFixed(t);
    } else {
      assert (sp + t)[0] == sp[0];
      assert (sp + t)[1..] == sp[1..] + t;
      TrimLeading(sp[1..], t);
    }
  }

  /** `trim` adds no character. */
  lemma {:induction false} TrimWithout(s: string, c: char)
    requires c !in s
    decreases |s|
    ensures c !in Trim(s)
  {
    if s != [] && IsSpace(s[0]) {
      assert forall x | x in s[1..] :: x in s;
      TrimWithout(s[1..], c);
    } else if s != [] && IsSpace(s[|s| - 1]) {
      assert forall x | x in s[..|s| - 1] :: x in s;
      TrimWithout(s[..|s| - 1], c);
    }
  }
}
