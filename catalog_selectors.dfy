// The selectors of the catalogue page (softwareCatalog/selectors.ts): the
// offered sort orders, the search-ordered and filtered list, and the facet
// counts shown beside each filter.
module CatalogSelectors {
  import opened Wrappers
  import opened Catalog
  import opened Sorting
  import Catalogi

  // -------------------------------------------------------------- sortOptions

  /** `uiConfig.catalog.sortOptions`: which of the configurable orders are offered. */
  datatype SortFlags = SortFlags(
    referentCount: bool, userCount: bool, addedTime: bool, updateTime: bool,
    latestVersionPublicationDate: bool, userCountAsc: bool, referentCountAsc: bool)

  /** The place of each order in the option list. */
  function Position(s: Sort): nat
  {
    match s
    case BestMatch => 0
    case MySoftware => 1
    case ReferentCount => 2
    case UserCount => 3
    case AddedTime => 4
    case UpdateTime => 5
    case LatestVersionPublicationDate => 6
    case UserCountAsc => 7
    case ReferentCountAsc => 8
  }

  /** Whether an order is offered: best match with search results or when selected, mine when signed in, the rest by configuration. */
  predicate Offered(hasSearchResults: bool, sort: Sort, hasUserEmail: bool, flags: Option<SortFlags>, s: Sort)
  {
    match s
    case BestMatch => hasSearchResults || sort == BestMatch
    case MySoftware => hasUserEmail
    case ReferentCount => flags.Some? && flags.value.referentCount
    case UserCount => flags.Some? && flags.value.userCount
    case AddedTime => flags.Some? && flags.value.addedTime
    case UpdateTime => flags.Some? && flags.value.updateTime
    case LatestVersionPublicationDate => flags.Some? && flags.value.latestVersionPublicationDate
    case UserCountAsc => flags.Some? && flags.value.userCountAsc
    case ReferentCountAsc => flags.Some? && flags.value.referentCountAsc
  }

  /** Every order, in the order of the option list. */
  const AllSorts: seq<Sort> := [BestMatch, MySoftware, ReferentCount, UserCount, AddedTime, UpdateTime,
    LatestVersionPublicationDate, UserCountAsc, ReferentCountAsc]

  lemma EverySortListed(s: Sort)
    ensures s in AllSorts
  {
    match s
    case BestMatch => assert AllSorts[0] == s;
    case MySoftware => assert AllSorts[1] == s;
    case ReferentCount => assert AllSorts[2] == s;
    case UserCount => assert AllSorts[3] == s;
    case AddedTime => assert AllSorts[4] == s;
    case UpdateTime => assert AllSorts[5] == s;
    case LatestVersionPublicationDate => assert AllSorts[6] == s;
    case UserCountAsc => assert AllSorts[7] == s;
    case ReferentCountAsc => assert AllSorts[8] == s;
  }

  lemma AllSortsInPlace()
    ensures forall i | 0 <= i < |AllSorts| :: Position(AllSorts[i]) == i
  {
  }

  /** The spread of `[s]` or `[]` for each order in turn. */
  function Spread(parts: seq<Sort>, on: Sort -> bool): (r: seq<Sort>)
    requires forall i, j | 0 <= i < j < |parts| :: Position(parts[i]) < Position(parts[j])
    ensures forall s :: s in r <==> s in parts && on(s)
    ensures forall i, j | 0 <= i < j < |r| :: Position(r[i]) < Position(r[j])
  {
    if parts == [] then []
    else
      var rest := Spread(parts[1..], on);
      SpreadStep(parts, rest, on);
      (if on(parts[0]) then [parts[0]] else []) + rest
  }

  lemma SpreadStep(parts: seq<Sort>, rest: seq<Sort>, on: Sort -> bool)
    requires parts != []
    requires forall i, j | 0 <= i < j < |parts| :: Position(parts[i]) < Position(parts[j])
    requires forall s :: s in rest <==> s in parts[1..] && on(s)
    requires forall i, j | 0 <= i < j < |rest| :: Position(rest[i]) < Position(rest[j])
    ensures var r := (if on(parts[0]) then [parts[0]] else []) + rest;
      && (forall s :: s in r <==> s in parts && on(s))
      && (forall i, j | 0 <= i < j < |r| :: Position(r[i]) < Position(r[j]))
  {
    assert forall s :: s in parts <==> s == parts[0] || s in parts[1..];
    assert forall x | x in rest :: Position(parts[0]) < Position(x);
  }

  /** `sortOptions`; a missing `uiConfig` reads every flag as unset. */
  function SortOptions(hasSearchResults: bool, sort: Sort, hasUserEmail: bool, flags: Option<SortFlags>): (r: seq<Sort>)
    ensures forall s :: s in r <==> Offered(hasSearchResults, sort, hasUserEmail, flags, s)
    ensures forall i, j | 0 <= i < j < |r| :: Position(r[i]) < Position(r[j])
  {
    assert forall s :: s in AllSorts by {
      forall s ensures s in AllSorts { EverySortListed(s); }
    }
    AllSortsInPlace();
    assert forall i, j | 0 <= i < j < |AllSorts| :: Position(AllSorts[i]) < Position(AllSorts[j]);
    var on := s => Offered(hasSearchResults, sort, hasUserEmail, flags, s);
    var r := Spread(AllSorts, on);
    assert forall s :: s in r <==> on(s);
    r
  }

  // ---------------------------------------------------- filterAndSortBySearch

  /** One hit of the search index: a software name and the matched character positions. */
  datatype SearchResult = SearchResult(softwareName: string, positions: seq<int>)

  /** `indexBySoftwareName[name]`: `Object.fromEntries` keeps the last index given for a name. */
  function LastIndex(xs: seq<Software>, name: string): (r: Option<nat>)
    decreases |xs|
    ensures r.Some? <==> exists i | 0 <= i < |xs| :: xs[i].softwareName == name
    ensures r.Some? ==> r.value < |xs| && xs[r.value].softwareName == name
    ensures r.Some? ==> forall j | r.value < j < |xs| :: xs[j].softwareName != name
  {
    if xs == [] then None
    else if xs[|xs| - 1].softwareName == name then Some(|xs| - 1)
    else LastIndex(xs[..|xs| - 1], name)
  }

  /** Every hit names a software of the list; `software.softwareName` throws on a hit that does not. */
  predicate AllFound(xs: seq<Software>, results: seq<SearchResult>)
  {
    forall i | 0 <= i < |results| :: LastIndex(xs, results[i].softwareName).Some?
  }

  predicate SearchOk(xs: seq<Software>, results: Option<seq<SearchResult>>)
  {
    results.Some? ==> AllFound(xs, results.value)
  }

  datatype Match = Match(software: Software, positions: seq<int>)

  /** `filterAndSortBySearch`: one entry per hit, in hit order, with the positions as a set. */
  function FilterAndSortBySearch(results: seq<SearchResult>, xs: seq<Software>): (r: seq<Match>)
    requires AllFound(xs, results)
    ensures |r| == |results|
    ensures forall i | 0 <= i < |r| :: r[i].software in xs && r[i].software.softwareName == results[i].softwareName
    ensures forall i | 0 <= i < |r| :: forall p :: p in r[i].positions <==> p in results[i].positions
    ensures forall i | 0 <= i < |r| :: forall a, b | 0 <= a < b < |r[i].positions| :: r[i].positions[a] != r[i].positions[b]
  {
    seq(|results|, i requires 0 <= i < |results| =>
      Match(xs[LastIndex(xs, results[i].softwareName).value], Dedup(results[i].positions)))
  }

  /** The list the filters start from: the hits in hit order during a search, the whole list otherwise. */
  function Searched(xs: seq<Software>, results: Option<seq<SearchResult>>): (r: seq<Software>)
    requires SearchOk(xs, results)
    ensures results.None? ==> r == xs
    ensures results.Some? ==> |r| == |results.value|
    ensures results.Some? ==> forall i | 0 <= i < |r| :: r[i].softwareName == results.value[i].softwareName
    ensures forall x | x in r :: x in xs
  {
    if results.None? then xs
    else
      var m := FilterAndSortBySearch(results.value, xs);
      seq(|m|, i requires 0 <= i < |m| => m[i].software)
  }

  // ---------------------------------------------------------------- the filters

  /** The filters of the page, each unset when `None`. */
  datatype Filters = Filters(
    organization: Option<string>,
    category: Option<string>,
    programmingLanguage: Option<string>,
    environment: Option<Environment>,
    attributeNames: seq<string>)

  function OrganizationStage(f: Filters): seq<Criterion>
  {
    if f.organization.Some? then [ByOrganization(f.organization.value)] else []
  }

  function CategoryStage(f: Filters): seq<Criterion>
  {
    if f.category.Some? then [ByCategory(f.category.value)] else []
  }

  /** `if (programmingLanguage)`: the empty string applies no filter. */
  function LanguageStage(f: Filters): seq<Criterion>
  {
    if f.programmingLanguage.Some? && f.programmingLanguage.value != "" then [ByProgrammingLanguage(f.programmingLanguage.value)] else []
  }

  function EnvironmentStage(f: Filters): seq<Criterion>
  {
    if f.environment.Some? then [ByEnvironment(f.environment.value)] else []
  }

  function AttributeStages(f: Filters): seq<Criterion>
  {
    seq(|f.attributeNames|, i requires 0 <= i < |f.attributeNames| => ByAttribute(f.attributeNames[i]))
  }

  /** The filters in the order `softwares` and `attributeNameFilterOptions` apply them. */
  function AllCriteria(f: Filters): seq<Criterion>
  {
    OrganizationStage(f) + CategoryStage(f) + LanguageStage(f) + EnvironmentStage(f) + AttributeStages(f)
  }

  /** The filters in turn, as the `if` blocks and the attribute loop of each selector apply them. */
  method Narrow(xs: seq<Software>, cs: seq<Criterion>) returns (r: seq<Software>)
    ensures r == Select(xs, cs)
  {
    r := xs;
    var i := 0;
    while i < |cs|
      invariant 0 <= i <= |cs|
      invariant r == ApplyAll(xs, cs[..i])
    {
      assert cs[..i + 1][..i] == cs[..i];
      r := FilterBy(r, cs[i]);
      i := i + 1;
    }
    assert cs[..|cs|] == cs;
    ApplyAllSelects(xs, cs);
  }

  // ---------------------------------------------------------------- softwares

  /** The `my_software` weight: referent 2, user 1, neither 0. */
  function MyWeight(s: Software): int
  {
    if s.userDeclaration.None? then 0
    else if s.userDeclaration.value.isReferent then 2
    else if s.userDeclaration.value.isUser then 1
    else 0
  }

  /**
   * The comparator of each order as a rank: a descending weight is ranked by
   * its negation, and the latest-version order breaks ties on the update time.
   */
  function SortKey(sort: Sort): Software -> Rank
  {
    match sort
    case AddedTime => (s: Software) => Rank(-s.addedTime, 0)
    case UpdateTime => (s: Software) => Rank(-s.updateTime, 0)
    case LatestVersionPublicationDate => (s: Software) =>
      Rank(-(if s.latestVersion.Some? then s.latestVersion.value.publicationTime.OrElse(0) else 0), -s.updateTime)
    case ReferentCount => (s: Software) => Rank(-(GetComputeds(s).referentCount as int), 0)
    case ReferentCountAsc => (s: Software) => Rank(GetComputeds(s).referentCount, 0)
    case UserCount => (s: Software) => Rank(-(GetComputeds(s).userCount as int), 0)
    case UserCountAsc => (s: Software) => Rank(GetComputeds(s).userCount, 0)
    case MySoftware => (s: Software) => Rank(-MyWeight(s), 0)
    case BestMatch => (s: Software) => Rank(0, 0)
  }

  /** `searchHighlight`: the characters of the search string and the matched positions. */
  datatype Highlight = Highlight(searchChars: string, highlightedIndexes: seq<int>)

  datatype Listed = Listed(software: Software, searchHighlight: Option<Highlight>)

  /** `positionsBySoftwareName.get(name)`: the later hit for a name overwrites the earlier one. */
  function PositionsOf(results: seq<SearchResult>, name: string): (r: Option<seq<int>>)
    decreases |results|
    ensures r.Some? <==> exists i | 0 <= i < |results| :: results[i].softwareName == name
  {
    if results == [] then None
    else if results[|results| - 1].softwareName == name then Some(Dedup(results[|results| - 1].positions))
    else PositionsOf(results[..|results| - 1], name)
  }

  /** No highlight without a non-empty hit list (the map is never created) or without a search string. */
  function HighlightOf(s: Software, results: Option<seq<SearchResult>>): Option<Highlight>
  {
    if results.None? || results.value == [] || s.search.None? then None
    else
      var p := PositionsOf(results.value, s.softwareName);
      if p.Some? then Some(Highlight(s.search.value, p.value)) else None
  }

  /** The softwares of the page before highlighting: searched, filtered, then sorted unless by best match. */
  function Shown(xs: seq<Software>, results: Option<seq<SearchResult>>, sort: Sort, f: Filters): seq<Software>
    requires SearchOk(xs, results)
  {
    var filtered := Select(Searched(xs, results), AllCriteria(f));
    if sort == BestMatch then filtered else SortBy(filtered, SortKey(sort))
  }

  function Highlighted(shown: seq<Software>, results: Option<seq<SearchResult>>): seq<Listed>
  {
    seq(|shown|, i requires 0 <= i < |shown| => Listed(shown[i], HighlightOf(shown[i], results)))
  }

  /** The `softwares` selector, stage by stage as the source runs it. */
  method Softwares(xs: seq<Software>, results: Option<seq<SearchResult>>, sort: Sort, f: Filters)
    returns (r: seq<Listed>)
    requires SearchOk(xs, results)
    ensures r == Highlighted(Shown(xs, results, sort, f), results)
  {
    var tmp := xs;
    if results.Some? {
      tmp := Searched(xs, results);
    }
    tmp := Narrow(tmp, AllCriteria(f));
    if sort != BestMatch {
      tmp := SortBy(tmp, SortKey(sort));
    }
    r := Highlighted(tmp, results);
  }

  /** The page lists exactly the hits (or softwares) that meet every filter. */
  lemma ShownMembers(xs: seq<Software>, results: Option<seq<SearchResult>>, sort: Sort, f: Filters)
    requires SearchOk(xs, results)
    ensures var r := Shown(xs, results, sort, f);
      multiset(r) == multiset(Select(Searched(xs, results), AllCriteria(f)))
      && forall x :: x in r <==> x in Searched(xs, results) && KeepsAll(AllCriteria(f), x)
  {
    var filtered := Select(Searched(xs, results), AllCriteria(f));
    if sort != BestMatch {
      SortPermutes(filtered, SortKey(sort));
      assert forall x :: x in SortBy(filtered, SortKey(sort)) <==> x in multiset(SortBy(filtered, SortKey(sort)));
    }
  }

  /** Any other order sorts the filtered list by its comparator, stably. */
  lemma OtherSortsOrder(xs: seq<Software>, results: Option<seq<SearchResult>>, sort: Sort, f: Filters, k: Rank)
    requires SearchOk(xs, results) && sort != BestMatch
    ensures SortedBy(Shown(xs, results, sort, f), SortKey(sort))
    ensures WithRank(Shown(xs, results, sort, f), SortKey(sort), k)
      == WithRank(Select(Searched(xs, results), AllCriteria(f)), SortKey(sort), k)
  {
    SortSorted(Select(Searched(xs, results), AllCriteria(f)), SortKey(sort));
    SortStable(Select(Searched(xs, results), AllCriteria(f)), SortKey(sort), k);
  }

  /** The "my software" rank orders by descending weight. */
  lemma MyRankOrder(a: Software, b: Software)
    requires RankLe(SortKey(MySoftware)(a), SortKey(MySoftware)(b))
    ensures MyWeight(a) >= MyWeight(b)
  {
  }

  /** "My software": softwares I am referent of come first, then those I use, then the rest. */
  lemma MySoftwareFirst(xs: seq<Software>, results: Option<seq<SearchResult>>, f: Filters)
    requires SearchOk(xs, results)
    ensures var r := Shown(xs, results, MySoftware, f);
      forall i, j | 0 <= i < j < |r| :: MyWeight(r[i]) >= MyWeight(r[j])
  {
    var r := Shown(xs, results, MySoftware, f);
    OtherSortsOrder(xs, results, MySoftware, f, Rank(0, 0));
    forall i, j | 0 <= i < j < |r| ensures MyWeight(r[i]) >= MyWeight(r[j]) {
      MyRankOrder(r[i], r[j]);
    }
  }

  /** Every hit is named in the search results. */
  lemma HitNamed(xs: seq<Software>, results: Option<seq<SearchResult>>, s: Software)
    requires SearchOk(xs, results) && results.Some?
    requires s in Searched(xs, results)
    ensures PositionsOf(results.value, s.softwareName).Some?
  {
    var hits := Searched(xs, results);
    var j :| 0 <= j < |hits| && hits[j] == s;
    assert results.value[j].softwareName == s.softwareName;
  }

  /** A software named in the hits has a highlight exactly when there are hits and it has a search string. */
  lemma HighlightOfHit(s: Software, results: Option<seq<SearchResult>>)
    requires results.Some? ==> PositionsOf(results.value, s.softwareName).Some?
    ensures HighlightOf(s, results).Some? <==> results.Some? && results.value != [] && s.search.Some?
  {
  }

  /** A listed software has a highlight exactly when there are hits and it has a search string: the source's `assert(positions !== undefined)` holds. */
  lemma HighlightPresent(xs: seq<Software>, results: Option<seq<SearchResult>>, sort: Sort, f: Filters)
    requires SearchOk(xs, results)
    ensures var r := Highlighted(Shown(xs, results, sort, f), results);
      forall i | 0 <= i < |r| ::
        r[i].searchHighlight.Some? <==> results.Some? && results.value != [] && r[i].software.search.Some?
  {
    var shown := Shown(xs, results, sort, f);
    var r := Highlighted(shown, results);
    ShownMembers(xs, results, sort, f);
    forall i | 0 <= i < |r|
      ensures r[i].searchHighlight.Some? <==> results.Some? && results.value != [] && r[i].software.search.Some?
    {
      assert r[i] == Listed(shown[i], HighlightOf(shown[i], results));
      if results.Some? {
        assert shown[i] in shown;
        HitNamed(xs, results, shown[i]);
      }
      HighlightOfHit(shown[i], results);
    }
  }

  // ------------------------------------------------------------- facet counts

  /** A facet entry: a filter value and the number of softwares counted for it. */
  datatype Facet<K> = Facet(key: K, softwareCount: nat)

  /** The values a facet list offers, in order. */
  function FacetKeys<K>(r: seq<Facet<K>>): (ks: seq<K>)
    ensures |ks| == |r| && forall i | 0 <= i < |r| :: ks[i] == r[i].key
  {
    seq(|r|, i requires 0 <= i < |r| => r[i].key)
  }

  /** How many times `k` is counted over `xs`: once per occurrence in each software's key list. */
  function Count<T, K(==)>(k: K, xs: seq<T>, keysOf: T -> seq<K>): nat
    decreases |xs|
  {
    if xs == [] then 0 else Count(k, xs[..|xs| - 1], keysOf) + multiset(keysOf(xs[|xs| - 1]))[k]
  }

  /** `xs.map(keysOf).reduce((prev, curr) => [...prev, ...curr], [])`. */
  function Flatten<T, K(==,!new)>(xs: seq<T>, keysOf: T -> seq<K>): (r: seq<K>)
    decreases |xs|
    ensures forall k :: k in r <==> exists i | 0 <= i < |xs| :: k in keysOf(xs[i])
  {
    if xs == [] then []
    else
      var n := |xs| - 1;
      var rest := Flatten(xs[..n], keysOf);
      assert forall k :: ((exists i | 0 <= i < |xs| :: k in keysOf(xs[i]))
        <==> (exists i | 0 <= i < n :: k in keysOf(xs[..n][i])) || k in keysOf(xs[n])) by {
        forall k | exists i | 0 <= i < |xs| :: k in keysOf(xs[i])
          ensures (exists i | 0 <= i < n :: k in keysOf(xs[..n][i])) || k in keysOf(xs[n])
        {
          var i :| 0 <= i < |xs| && k in keysOf(xs[i]);
          if i < n { assert xs[..n][i] == xs[i]; }
        }
      }
      rest + keysOf(xs[n])
  }

  /** The entries of a count table, in key order. */
  function Facets<T, K(==)>(keys: seq<K>, xs: seq<T>, keysOf: T -> seq<K>): seq<Facet<K>>
  {
    seq(|keys|, i requires 0 <= i < |keys| => Facet(keys[i], Count(keys[i], xs, keysOf)))
  }

  /**
   * The `forEach` that bumps a count table: every key starts at 0 and each
   * key of each software adds one. The tables start from every key of the
   * whole list, so a filtered software never meets a missing key.
   */
  method Tally<T, K(==)>(keys: seq<K>, xs: seq<T>, keysOf: T -> seq<K>) returns (r: seq<Facet<K>>)
    ensures |r| == |keys|
    ensures forall i | 0 <= i < |keys| :: r[i] == Facet(keys[i], Count(keys[i], xs, keysOf))
  {
    var counts: map<K, nat> := map k | k in keys :: 0;
    var i := 0;
    while i < |xs|
      invariant 0 <= i <= |xs|
      invariant forall k | k in keys :: k in counts && counts[k] == Count(k, xs[..i], keysOf)
    {
      var ks := keysOf(xs[i]);
      var j := 0;
      while j < |ks|
        invariant 0 <= j <= |ks|
        invariant forall k | k in keys :: k in counts && counts[k] == Count(k, xs[..i], keysOf) + multiset(ks[..j])[k]
      {
        assert ks[..j + 1] == ks[..j] + [ks[j]];
        if ks[j] in counts {
          counts := counts[ks[j] := counts[ks[j]] + 1];
        }
        j := j + 1;
      }
      assert ks[..j] == ks;
      assert xs[..i + 1][..i] == xs[..i];
      i := i + 1;
    }
    assert xs[..i] == xs;
    r := seq(|keys|, n requires 0 <= n < |keys| => Facet(keys[n], counts[keys[n]]));
  }

  /** The number of softwares of `xs` with property `p`. */
  function Number<T>(xs: seq<T>, p: T -> bool): nat
    decreases |xs|
  {
    if xs == [] then 0 else Number(xs[..|xs| - 1], p) + (if p(xs[|xs| - 1]) then 1 else 0)
  }

  /** When each software holds `k` at most once, the count of `k` is the number of softwares holding it. */
  lemma {:induction false} CountIsNumber<T, K>(k: K, xs: seq<T>, keysOf: T -> seq<K>, p: T -> bool)
    requires forall i | 0 <= i < |xs| :: multiset(keysOf(xs[i]))[k] == if p(xs[i]) then 1 else 0
    decreases |xs|
    ensures Count(k, xs, keysOf) == Number(xs, p)
  {
    if xs != [] {
      var n := |xs| - 1;
      assert forall i | 0 <= i < n :: xs[..n][i] == xs[i];
      CountIsNumber(k, xs[..n], keysOf, p);
    }
  }

  /** A key is counted iff some software holds it. */
  lemma {:induction false} CountPositive<T, K>(k: K, xs: seq<T>, keysOf: T -> seq<K>)
    decreases |xs|
    ensures Count(k, xs, keysOf) > 0 <==> exists i | 0 <= i < |xs| :: k in keysOf(xs[i])
  {
    if xs != [] {
      var n := |xs| - 1;
      CountPositive(k, xs[..n], keysOf);
      assert forall i | 0 <= i < n :: xs[..n][i] == xs[i];
      if k in keysOf(xs[n]) {
        assert multiset(keysOf(xs[n]))[k] > 0;
      } else {
        assert multiset(keysOf(xs[n]))[k] == 0;
      }
    }
  }

  /** Counting the softwares of a selection that meet one more criterion selects with that criterion too. */
  lemma {:induction false} NumberSelect(ys: seq<Software>, cs: seq<Criterion>, c: Criterion)
    decreases |ys|
    ensures Number(Select(ys, cs), x => Keeps(c, x)) == |Select(ys, cs + [c])|
  {
    if ys != [] {
      var n := |ys| - 1;
      NumberSelect(ys[..n], cs, c);
      var tail := if KeepsAll(cs, ys[n]) then [ys[n]] else [];
      NumberConcat(Select(ys[..n], cs), tail, x => Keeps(c, x));
      assert KeepsAll(cs + [c], ys[n]) <==> KeepsAll(cs, ys[n]) && Keeps(c, ys[n]);
      if tail != [] {
        assert Number(tail, x => Keeps(c, x)) == Number([], x => Keeps(c, x)) + (if Keeps(c, ys[n]) then 1 else 0);
      }
    }
  }

  lemma {:induction false} NumberConcat<T>(a: seq<T>, b: seq<T>, p: T -> bool)
    decreases |b|
    ensures Number(a + b, p) == Number(a, p) + Number(b, p)
  {
    if b == [] {
      assert a + b == a;
    } else {
      var n := |b| - 1;
      NumberConcat(a, b[..n], p);
      assert (a + b)[..|a + b| - 1] == a + b[..n];
    }
  }

  /** The entries with a non-zero count, in order (`.filter(({softwareCount}) => softwareCount !== 0)`). */
  function NonZero<K(!new)>(fs: seq<Facet<K>>): (r: seq<Facet<K>>)
    decreases |fs|
    ensures forall x :: x in r <==> x in fs && x.softwareCount != 0
  {
    if fs == [] then []
    else
      var n := |fs| - 1;
      assert forall x :: x in fs <==> x in fs[..n] || x == fs[n];
      NonZero(fs[..n]) + (if fs[n].softwareCount != 0 then [fs[n]] else [])
  }

  /** `(a, b) => b.softwareCount - a.softwareCount`: descending counts. */
  function ByCount<K>(x: Facet<K>): Rank
  {
    Rank(-(x.softwareCount as int), 0)
  }

  /** A sorted list's entries are the entries of its input, and its counts decrease. */
  lemma SortedFacets<K(!new)>(fs: seq<Facet<K>>)
    ensures var r := SortBy(fs, ByCount);
      (forall x :: x in r <==> x in fs)
      && forall i, j | 0 <= i < j < |r| :: r[i].softwareCount >= r[j].softwareCount
  {
    var r := SortBy(fs, ByCount);
    SortPermutes(fs, ByCount);
    SortSorted(fs, ByCount);
    assert forall x :: x in r <==> x in multiset(r);
    forall i, j | 0 <= i < j < |r| ensures r[i].softwareCount >= r[j].softwareCount {
      assert RankLe(ByCount(r[i]), ByCount(r[j]));
    }
  }
}
