// Fusion of the provider records linked to one software into a single
// projection (mergeExternalData): sort by descending source priority, fold
// left to right with a field-level merge, strip the routing fields.
module Fusion {
  import opened Wrappers
  import opened ExternalData
  import Sorting

  /** Descending priority: a larger priority number sorts first, so the lowest number is folded last. */
  function PriorityRank(p: Populated): Sorting.Rank
  {
    Sorting.Rank(-p.priority, 0)
  }

  /** Each record's priority is at least that of every later record. */
  predicate DescendingPriority(xs: seq<Populated>)
  {
    forall i, j :: 0 <= i < j < |xs| ==> xs[j].priority <= xs[i].priority
  }

  /** The stable sort by descending priority: the same records, in descending priority. */
  function SortByPriority(xs: seq<Populated>): (r: seq<Populated>)
    ensures multiset(r) == multiset(xs)
    ensures DescendingPriority(r)
  {
    Sorting.SortPermutes(xs, PriorityRank);
    Sorting.SortSorted(xs, PriorityRank);
    Sorting.SortBy(xs, PriorityRank)
  }

  /** A scalar field: the later record's value wins when it is defined. */
  function PickScalar<V>(acc: Option<V>, next: Option<V>): Option<V>
  {
    if next.Some? then next else acc
  }

  /** A list field: when both records have one, the later record's items come first. */
  function PickList<V>(acc: Option<seq<V>>, next: Option<seq<V>>): Option<seq<V>>
  {
    if acc.Some? && next.Some? then Some(next.value + acc.value)
    else if next.Some? then next
    else acc
  }

  /** A merged scalar is defined when either record defines it, and then the later record's value wins. */
  lemma PickScalarMeaning<V>(acc: Option<V>, next: Option<V>)
    ensures PickScalar(acc, next).Some? <==> acc.Some? || next.Some?
    ensures next.Some? ==> PickScalar(acc, next) == next
    ensures next.None? ==> PickScalar(acc, next) == acc
  {
  }

  /** A merged list is defined when either record defines one, and holds the later record's items, then the earlier ones. */
  lemma PickListMeaning<V>(acc: Option<seq<V>>, next: Option<seq<V>>)
    ensures PickList(acc, next).None? <==> acc.None? && next.None?
    ensures PickList(acc, next).Some? ==> PickList(acc, next).value == next.OrElse([]) + acc.OrElse([])
  {
  }

  /** Merges `next` into the accumulated record `acc`, field by field. */
  function Combine(acc: ExternalData, next: ExternalData): ExternalData
  {
    ExternalData(
      next.externalId,
      next.sourceSlug,
      PickScalar(acc.softwareId, next.softwareId),
      PickScalar(acc.lastDataFetchAt, next.lastDataFetchAt),
      PickScalar(acc.displayLabel, next.displayLabel),
      PickScalar(acc.description, next.description),
      PickScalar(acc.isLibreSoftware, next.isLibreSoftware),
      PickScalar(acc.logoUrl, next.logoUrl),
      PickScalar(acc.websiteUrl, next.websiteUrl),
      PickScalar(acc.sourceUrl, next.sourceUrl),
      PickScalar(acc.documentationUrl, next.documentationUrl),
      PickScalar(acc.license, next.license),
      PickScalar(acc.softwareVersion, next.softwareVersion),
      PickScalar(acc.publicationTime, next.publicationTime),
      PickList(acc.developers, next.developers),
      PickList(acc.keywords, next.keywords),
      PickList(acc.programmingLanguages, next.programmingLanguages),
      PickList(acc.applicationCategories, next.applicationCategories),
      PickList(acc.referencePublications, next.referencePublications),
      PickList(acc.identifiers, next.identifiers),
      PickList(acc.providers, next.providers))
  }

  /** Left-to-right fold of `Combine` over a non-empty sequence. */
  function FoldMerge(rs: seq<ExternalData>): ExternalData
    requires rs != []
    decreases |rs|
  {
    if |rs| == 1 then rs[0] else Combine(FoldMerge(rs[..|rs| - 1]), rs[|rs| - 1])
  }

  /** Drops `slug`, `priority`, `kind` and `url`. */
  function Strip(p: Populated): ExternalData
  {
    p.data
  }

  function StripAll(xs: seq<Populated>): (rs: seq<ExternalData>)
    ensures |rs| == |xs| && forall i :: 0 <= i < |xs| ==> rs[i] == Strip(xs[i])
  {
    seq(|xs|, i requires 0 <= i < |xs| => Strip(xs[i]))
  }

  /** The value mergeExternalData returns for `xs` (its input before the in-place sort). */
  function Merged(xs: seq<Populated>): (r: Option<ExternalData>)
    ensures r.None? <==> xs == []
    ensures |xs| == 1 ==> r == Some(xs[0].data)
  {
    if |xs| == 0 then None
    else if |xs| == 1 then Some(Strip(xs[0]))
    else Some(FoldMerge(StripAll(SortByPriority(xs))))
  }

  /**
   * mergeExternalData itself: sorts the caller's array in place when it holds
   * two or more records, then returns the merged projection.
   */
  method MergeExternalData(a: array<Populated>) returns (r: Option<ExternalData>)
    modifies a
    ensures r == Merged(old(a[..]))
    ensures a.Length >= 2 ==> a[..] == SortByPriority(old(a[..]))
    ensures a.Length < 2 ==> a[..] == old(a[..])
  {
    if a.Length == 0 {
      return None;
    }
    if a.Length == 1 {
      return Some(Strip(a[0]));
    }
    ghost var input := a[..];
    SortInPlace(a);
    r := Some(FoldMerge(StripAll(a[..])));
  }

  /** `externalData.sort((a, b) => b.priority - a.priority)`, observed through its result. */
  method SortInPlace(a: array<Populated>)
    modifies a
    ensures a[..] == SortByPriority(old(a[..]))
  {
    var sorted := SortByPriority(a[..]);
    assert |sorted| == a.Length by {
      assert |multiset(sorted)| == |multiset(a[..])|;
    }
    var i := 0;
    while i < a.Length
      invariant 0 <= i <= a.Length
      invariant forall j | 0 <= j < i :: a[j] == sorted[j]
    {
      a[i] := sorted[i];
      i := i + 1;
    }
    assert a[..] == sorted;
  }

  // ---- Field-level meaning of the fold ----

  /** `f` reads a field that the merge treats as a scalar. */
  ghost predicate ScalarField<V>(f: ExternalData -> Option<V>)
  {
    forall a, b :: f(Combine(a, b)) == PickScalar(f(a), f(b))
  }

  /** `f` reads a field that the merge treats as a list. */
  ghost predicate ListField<V>(f: ExternalData -> Option<seq<V>>)
  {
    forall a, b :: f(Combine(a, b)) == PickList(f(a), f(b))
  }

  /** Reference definition: the value of the last record that defines the field. */
  function LastDefined<V>(rs: seq<ExternalData>, f: ExternalData -> Option<V>): Option<V>
    decreases |rs|
  {
    if rs == [] then None
    else if f(rs[|rs| - 1]).Some? then f(rs[|rs| - 1])
    else LastDefined(rs[..|rs| - 1], f)
  }

  /** Reference definition: every defined list, the last record's first. */
  function NewestFirst<V>(rs: seq<ExternalData>, f: ExternalData -> Option<seq<V>>): Option<seq<V>>
    decreases |rs|
  {
    if rs == [] then None
    else
      var rest := NewestFirst(rs[..|rs| - 1], f);
      var last := f(rs[|rs| - 1]);
      if last.Some? then Some(last.value + rest.OrElse([])) else rest
  }

  lemma {:induction false} FoldScalar<V>(rs: seq<ExternalData>, f: ExternalData -> Option<V>)
    requires rs != [] && ScalarField(f)
    ensures f(FoldMerge(rs)) == LastDefined(rs, f)
    decreases |rs|
  {
    if |rs| > 1 {
      var n := |rs| - 1;
      FoldScalar(rs[..n], f);
      assert f(Combine(FoldMerge(rs[..n]), rs[n])) == PickScalar(f(FoldMerge(rs[..n])), f(rs[n]));
    } else {
      assert rs[..0] == [];
    }
  }

  /** One more record: its list goes in front of the accumulated one. */
  lemma NewestFirstStep<V>(rs: seq<ExternalData>, f: ExternalData -> Option<seq<V>>)
    requires |rs| >= 2
    ensures NewestFirst(rs, f) == PickList(NewestFirst(rs[..|rs| - 1], f), f(rs[|rs| - 1]))
  {
    var last := f(rs[|rs| - 1]);
    if last.Some? {
      assert last.value + [] == last.value;
    }
  }

  /** A single record: its own list. */
  lemma NewestFirstOne<V>(rs: seq<ExternalData>, f: ExternalData -> Option<seq<V>>)
    requires |rs| == 1
    ensures NewestFirst(rs, f) == f(rs[0])
  {
    assert rs[..0] == [];
    if f(rs[0]).Some? {
      assert f(rs[0]).value + [] == f(rs[0]).value;
    }
  }

  lemma {:induction false} FoldList<V>(rs: seq<ExternalData>, f: ExternalData -> Option<seq<V>>)
    requires rs != [] && ListField(f)
    ensures f(FoldMerge(rs)) == NewestFirst(rs, f)
    decreases |rs|
  {
    var n := |rs| - 1;
    if n == 0 {
      NewestFirstOne(rs, f);
    } else {
      FoldList(rs[..n], f);
      var acc := FoldMerge(rs[..n]);
      assert FoldMerge(rs) == Combine(acc, rs[n]);
      assert f(Combine(acc, rs[n])) == PickList(f(acc), f(rs[n]));
      NewestFirstStep(rs, f);
    }
  }

  lemma {:induction false} LastDefinedNone<V>(rs: seq<ExternalData>, f: ExternalData -> Option<V>)
    ensures LastDefined(rs, f).None? <==> forall i :: 0 <= i < |rs| ==> f(rs[i]).None?
    decreases |rs|
  {
    if rs != [] {
      var n := |rs| - 1;
      LastDefinedNone(rs[..n], f);
      assert forall i :: 0 <= i < n ==> rs[..n][i] == rs[i];
    }
  }

  lemma {:induction false} LastDefinedSome<V>(rs: seq<ExternalData>, f: ExternalData -> Option<V>)
    requires LastDefined(rs, f).Some?
    ensures exists i :: (0 <= i < |rs| && f(rs[i]) == LastDefined(rs, f) &&
                         (forall j :: i < j < |rs| ==> f(rs[j]).None?))
    decreases |rs|
  {
    var n := |rs| - 1;
    if f(rs[n]).Some? {
      assert f(rs[n]) == LastDefined(rs, f);
    } else {
      LastDefinedSome(rs[..n], f);
      var i :| 0 <= i < n && f(rs[..n][i]) == LastDefined(rs[..n], f) &&
        forall j :: i < j < n ==> f(rs[..n][j]).None?;
      assert forall j :: i < j < n ==> rs[..n][j] == rs[j];
      assert f(rs[i]) == LastDefined(rs, f);
    }
  }

  /** `LastDefined` is the value of some record after which no record defines the field. */
  lemma LastDefinedMeaning<V>(rs: seq<ExternalData>, f: ExternalData -> Option<V>)
    ensures LastDefined(rs, f).None? <==> forall i :: 0 <= i < |rs| ==> f(rs[i]).None?
    ensures LastDefined(rs, f).Some? ==>
      exists i :: 0 <= i < |rs| && f(rs[i]) == LastDefined(rs, f) &&
        (forall j :: i < j < |rs| ==> f(rs[j]).None?)
  {
    LastDefinedNone(rs, f);
    if LastDefined(rs, f).Some? {
      LastDefinedSome(rs, f);
    }
  }

  /** Every element of `xs` is an element of its sorted copy, and conversely. */
  lemma SortedMembers(xs: seq<Populated>)
    ensures |SortByPriority(xs)| == |xs|
    ensures forall p :: p in xs <==> p in SortByPriority(xs)
  {
    var s := SortByPriority(xs);
    Sorting.SortPermutes(xs, PriorityRank);
    assert |multiset(s)| == |multiset(xs)|;
    forall p ensures p in xs <==> p in s {
      assert p in xs <==> p in multiset(xs);
      assert p in s <==> p in multiset(s);
    }
  }

  /** In a sequence sorted by descending priority, a record with a lower priority number comes later. */
  lemma LowerNumberComesLater(s: seq<Populated>, i: nat, j: nat)
    requires Sorting.SortedBy(s, PriorityRank)
    requires i < |s| && j < |s| && s[j].priority < s[i].priority
    ensures i < j
  {
  }

  /** No record of `xs` defines the field `f`. */
  ghost predicate NoneDefines<V>(xs: seq<Populated>, f: ExternalData -> Option<V>)
  {
    forall p :: p in xs ==> f(p.data).None?
  }

  /** `p` is a record of `xs` that defines `f`, and no record with a lower priority number defines it. */
  ghost predicate Wins<V>(xs: seq<Populated>, f: ExternalData -> Option<V>, p: Populated)
  {
    p in xs && f(p.data).Some? && forall q :: q in xs && q.priority < p.priority ==> f(q.data).None?
  }

  /** The last record of a sorted sequence that defines the field wins. */
  lemma LastDefinerWins<V>(s: seq<Populated>, f: ExternalData -> Option<V>, i: nat)
    requires Sorting.SortedBy(s, PriorityRank)
    requires i < |s| && f(s[i].data).Some?
    requires forall j :: i < j < |s| ==> f(StripAll(s)[j]).None?
    ensures Wins(s, f, s[i])
  {
    var rs := StripAll(s);
    forall q | q in s && q.priority < s[i].priority ensures f(q.data).None? {
      var j :| 0 <= j < |s| && s[j] == q;
      LowerNumberComesLater(s, i, j);
      assert rs[j] == q.data;
    }
  }

  /** A sequence whose stripped records all leave the field undefined has no record defining it. */
  lemma NoDefiner<V>(s: seq<Populated>, f: ExternalData -> Option<V>)
    requires forall i :: 0 <= i < |s| ==> f(StripAll(s)[i]).None?
    ensures NoneDefines(s, f)
  {
    var rs := StripAll(s);
    forall p | p in s ensures f(p.data).None? {
      var j :| 0 <= j < |s| && s[j] == p;
      assert rs[j] == p.data;
    }
  }

  /** The scalar winner on a sequence already sorted by descending priority. */
  lemma {:induction false} SortedScalarWinner<V>(s: seq<Populated>, f: ExternalData -> Option<V>)
    requires s != [] && ScalarField(f) && Sorting.SortedBy(s, PriorityRank)
    ensures f(FoldMerge(StripAll(s))).None? <==> NoneDefines(s, f)
    ensures f(FoldMerge(StripAll(s))).Some? ==>
      exists p :: Wins(s, f, p) && f(p.data) == f(FoldMerge(StripAll(s)))
  {
    FoldScalar(StripAll(s), f);
    SortedLastDefined(s, f);
  }

  /** The last definer of a scalar in a sequence sorted by descending priority is a winner. */
  lemma SortedLastDefined<V>(s: seq<Populated>, f: ExternalData -> Option<V>)
    requires Sorting.SortedBy(s, PriorityRank)
    ensures LastDefined(StripAll(s), f).None? <==> NoneDefines(s, f)
    ensures LastDefined(StripAll(s), f).Some? ==>
      exists p :: Wins(s, f, p) && f(p.data) == LastDefined(StripAll(s), f)
  {
    var rs := StripAll(s);
    LastDefinedNone(rs, f);
    if LastDefined(rs, f).Some? {
      LastDefinedSome(rs, f);
      var i :| 0 <= i < |rs| && f(rs[i]) == LastDefined(rs, f) &&
        (forall j :: i < j < |rs| ==> f(rs[j]).None?);
      assert rs[i] == s[i].data;
      LastDefinerWins(s, f, i);
      assert !NoneDefines(s, f) by {
        assert s[i] in s;
      }
    } else {
      NoDefiner(s, f);
    }
  }

  /** `Wins` and `NoneDefines` depend only on which records are present. */
  lemma SameMembers<V>(xs: seq<Populated>, s: seq<Populated>, f: ExternalData -> Option<V>, p: Populated)
    requires forall q :: q in xs <==> q in s
    ensures Wins(xs, f, p) <==> Wins(s, f, p)
    ensures NoneDefines(xs, f) <==> NoneDefines(s, f)
  {
  }

  /**
   * Whatever the input order, a scalar field of the merge is undefined exactly
   * when no record defines it, and otherwise holds the value of a record that
   * defines it and that no record with a numerically lower priority contradicts.
   */
  lemma {:induction false} MergedScalarWinner<V>(xs: seq<Populated>, f: ExternalData -> Option<V>)
    requires xs != [] && ScalarField(f)
    ensures f(Merged(xs).value).None? <==> NoneDefines(xs, f)
    ensures f(Merged(xs).value).Some? ==> exists p :: Wins(xs, f, p) && f(p.data) == f(Merged(xs).value)
  {
    if |xs| == 1 {
      assert Merged(xs).value == xs[0].data;
      assert forall p :: p in xs ==> p == xs[0];
      if f(xs[0].data).Some? {
        assert Wins(xs, f, xs[0]);
      }
    } else {
      MergedScalarWinnerSorted(xs, f);
    }
  }

  lemma MergedScalarWinnerSorted<V>(xs: seq<Populated>, f: ExternalData -> Option<V>)
    requires |xs| >= 2 && ScalarField(f)
    ensures f(Merged(xs).value).None? <==> NoneDefines(xs, f)
    ensures f(Merged(xs).value).Some? ==> exists p :: Wins(xs, f, p) && f(p.data) == f(Merged(xs).value)
  {
    var s := SortByPriority(xs);
    SortedMembers(xs);
    Sorting.SortSorted(xs, PriorityRank);
    SortedScalarWinner(s, f);
    var m := FoldMerge(StripAll(s));
    assert Merged(xs) == Some(m);
    if f(m).Some? {
      var p :| Wins(s, f, p) && f(p.data) == f(m);
      SameMembers(xs, s, f, p);
    } else {
      SameMembers(xs, s, f, xs[0]);
    }
  }

  /**
   * Whatever the input order, a list field of the merge holds, when some
   * record defines it, the items of every such record with the winning
   * (numerically lowest) priority's items ahead of the others.
   */
  lemma {:induction false} MergedListOrder<V>(xs: seq<Populated>, f: ExternalData -> Option<seq<V>>)
    requires |xs| >= 2 && ListField(f)
    ensures f(Merged(xs).value) == NewestFirst(StripAll(SortByPriority(xs)), f)
  {
    FoldList(StripAll(SortByPriority(xs)), f);
  }

  /**
   * Two records of different priorities merge to the same projection in
   * either input order: the higher-precedence record (lower number) overrides
   * the other's defined scalars, and its list items come first.
   */
  lemma {:induction false} TwoRecordsEitherOrder(low: Populated, high: Populated)
    requires high.priority < low.priority
    ensures Merged([high, low]) == Merged([low, high]) == Some(Combine(low.data, high.data))
    ensures var r := Merged([high, low]).value;
      && r.externalId == high.data.externalId
      && (high.data.displayLabel.Some? ==> r.displayLabel == high.data.displayLabel)
      && (high.data.documentationUrl.None? ==> r.documentationUrl == low.data.documentationUrl)
      && (high.data.keywords.Some? && low.data.keywords.Some? ==>
            r.keywords == Some(high.data.keywords.value + low.data.keywords.value))
  {
    assert [high, low][..1] == [high];
    assert [low, high][..1] == [low];
    Sorting.SortOfSorted([high], PriorityRank);
    Sorting.SortOfSorted([low, high], PriorityRank);
    assert [high, low][..1] == [high];
    assert SortByPriority([high, low]) == Sorting.Insert(low, [high], PriorityRank);
    assert SortByPriority([high, low]) == [low, high];
    assert StripAll([low, high]) == [low.data, high.data];
    assert FoldMerge([low.data, high.data]) == Combine(low.data, high.data);
    assert Merged([low, high]) == Some(Combine(low.data, high.data));
    assert Merged([high, low]) == Some(Combine(low.data, high.data));
    assert StripAll([low, high]) == [low.data, high.data];
    assert [low.data, high.data][..1] == [low.data];
  }
}
