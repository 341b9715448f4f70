// The facet selectors of the catalogue page (`organizationOptions`,
// `categoryOptions`, `environmentOptions`, `programmingLanguageOptions`,
// `attributeNameFilterOptions`): each counts, for every value of one filter,
// the softwares that pass all the other filters.
module CatalogFacets {
  import opened Wrappers
  import opened Catalog
  import opened Sorting
  import opened CatalogSelectors
  import Catalogi

  // ------------------------------------------------------------ key lists

  function OrganizationsOf(s: Software): seq<string>
  {
    GetComputeds(s).organizations
  }

  function CategoriesOf(s: Software): seq<string>
  {
    s.applicationCategories
  }

  function LanguagesOf(s: Software): seq<string>
  {
    s.programmingLanguages
  }

  /** The keys of the `os` object, in order. */
  const OsKeys: seq<Environment> := [Windows, Linux, Mac, Android, Ios]

  /** `objectKeys(softwareType.os).filter(os => softwareType.os[os])`. */
  function OsFilter(es: seq<Environment>, os: Catalogi.Os): seq<Environment>
    decreases |es|
  {
    if es == [] then [] else (if OsHas(os, es[0]) then [es[0]] else []) + OsFilter(es[1..], os)
  }

  function OsEnvironments(os: Catalogi.Os): seq<Environment>
  {
    OsFilter(OsKeys, os)
  }

  lemma {:induction false} OsFilterCount(es: seq<Environment>, os: Catalogi.Os, e: Environment)
    decreases |es|
    ensures multiset(OsFilter(es, os))[e] == if OsHas(os, e) then multiset(es)[e] else 0
  {
    if es != [] {
      OsFilterCount(es[1..], os, e);
      assert es == [es[0]] + es[1..];
    }
  }

  /** The environments a software is counted under: the browser for cloud, the stack for a stack, its operating systems otherwise. */
  function EnvironmentsOf(s: Software): seq<Environment>
  {
    match s.softwareType
    case Cloud => [Browser]
    case Stack => [Stack]
    case DesktopMobile(os) => OsEnvironments(os)
  }

  /** The keys of `os` are distinct and name every operating system. */
  lemma OsKeysShape(keys: seq<Environment>, e: Environment)
    requires keys == OsKeys
    ensures forall i, j | 0 <= i < j < |keys| :: keys[i] != keys[j]
    ensures e != Browser && e != Stack ==> e in keys
  {
    assert keys[0] == Windows && keys[1] == Linux && keys[2] == Mac && keys[3] == Android && keys[4] == Ios;
  }

  lemma OsFilterOnce(keys: seq<Environment>, os: Catalogi.Os, e: Environment)
    requires keys == OsKeys
    ensures multiset(OsFilter(keys, os))[e] == if OsHas(os, e) then 1 else 0
  {
    OsFilterCount(keys, os, e);
    if OsHas(os, e) {
      OsKeysShape(keys, e);
      DistinctCount(keys, e);
    }
  }

  lemma OsEnvironmentsCount(os: Catalogi.Os, e: Environment)
    ensures multiset(OsEnvironments(os))[e] == if OsHas(os, e) then 1 else 0
  {
    OsFilterOnce(OsKeys, os, e);
  }

  /** Each software is counted once under each environment `filterByEnvironnement` would keep it for. */
  lemma EnvironmentsOfMeaning(s: Software, e: Environment)
    ensures multiset(EnvironmentsOf(s))[e] == if HasEnvironment(s.softwareType, e) then 1 else 0
  {
    var t := s.softwareType;
    if t.DesktopMobile? {
      assert EnvironmentsOf(s) == OsEnvironments(t.os);
      OsEnvironmentsCount(t.os, e);
    }
  }

  /** A sorted count table lists each of its keys once with that key's count. */
  lemma FacetsSorted<T, K>(keys: seq<K>, tmp: seq<T>, keysOf: T -> seq<K>, rank: Facet<K> -> Rank)
    ensures var r := SortBy(Facets(keys, tmp, keysOf), rank);
      && (forall k :: (exists i | 0 <= i < |r| :: r[i].key == k) <==> k in keys)
      && (forall i | 0 <= i < |r| :: r[i].softwareCount == Count(r[i].key, tmp, keysOf))
  {
    var fs := Facets(keys, tmp, keysOf);
    var r := SortBy(fs, rank);
    SortPermutes(fs, rank);
    assert forall x :: x in r <==> x in fs by {
      forall x ensures x in r <==> x in fs {
        assert x in r <==> x in multiset(r);
        assert x in fs <==> x in multiset(fs);
      }
    }
    forall k ensures (exists i | 0 <= i < |r| :: r[i].key == k) <==> k in keys {
      if k in keys {
        var n :| 0 <= n < |keys| && keys[n] == k;
        assert fs[n] in r;
      }
      if exists i | 0 <= i < |r| :: r[i].key == k {
        var i :| 0 <= i < |r| && r[i].key == k;
        assert r[i] in fs;
      }
    }
    forall i | 0 <= i < |r| ensures r[i].softwareCount == Count(r[i].key, tmp, keysOf) {
      assert r[i] in multiset(r);
      assert r[i] in fs;
      var j :| 0 <= j < |fs| && fs[j] == r[i];
    }
  }

  /** A list without repetition holds each value once or not at all. */
  lemma {:induction false} DistinctCount<T>(s: seq<T>, k: T)
    requires forall i, j | 0 <= i < j < |s| :: s[i] != s[j]
    decreases |s|
    ensures multiset(s)[k] == if k in s then 1 else 0
  {
    if s != [] {
      var n := |s| - 1;
      DistinctCount(s[..n], k);
      assert s == s[..n] + [s[n]];
      assert s[n] !in s[..n];
    }
  }

  /** The keys of a JSON object are distinct. */
  predicate DistinctKeys<V>(e: Entries<V>)
  {
    forall i, j | 0 <= i < j < |e| :: e[i].0 != e[j].0
  }

  /** `ks.filter(name => customAttributes[name])`. */
  function TruthyKeys(ks: seq<string>, e: Entries<Catalogi.AttributeValue>): (r: seq<string>)
    decreases |ks|
  {
    if ks == [] then []
    else
      var n := |ks| - 1;
      var v := Lookup(e, ks[n]);
      TruthyKeys(ks[..n], e) + (if v.Some? && Catalogi.Truthy(v.value) then [ks[n]] else [])
  }

  lemma {:induction false} TruthyKeysCount(ks: seq<string>, e: Entries<Catalogi.AttributeValue>, k: string)
    decreases |ks|
    ensures var v := Lookup(e, k);
      multiset(TruthyKeys(ks, e))[k] == if v.Some? && Catalogi.Truthy(v.value) then multiset(ks)[k] else 0
  {
    if ks != [] {
      var n := |ks| - 1;
      TruthyKeysCount(ks[..n], e, k);
      assert ks == ks[..n] + [ks[n]];
    }
  }

  /** The custom attributes a software has set (truthy): the attribute names the page can filter on. */
  function TruthyAttributes(s: Software): seq<string>
  {
    if s.customAttributes.None? then [] else TruthyKeys(Keys(s.customAttributes.value), s.customAttributes.value)
  }

  const Installable: string := "isInstallableOnUserComputer"

  /** What one software adds to the attribute table: its set attributes and, for desktop/mobile software, `isInstallableOnUserComputer`; nothing without custom attributes. */
  function AttributeHits(s: Software): seq<string>
  {
    if s.customAttributes.None? then []
    else TruthyAttributes(s) + (if s.softwareType.DesktopMobile? then [Installable] else [])
  }

  /** The softwares `isInstallableOnUserComputer` counts. */
  predicate CountsAsInstallable(s: Software)
  {
    s.customAttributes.Some? && s.softwareType.DesktopMobile?
  }

  /** The softwares that pass some filters are softwares of the list. */
  lemma SelectedFromList(xs: seq<Software>, results: Option<seq<SearchResult>>, cs: seq<Criterion>)
    requires SearchOk(xs, results)
    ensures forall x | x in Select(Searched(xs, results), cs) :: x in xs
  {
  }

  // --------------------------------------------------- organizationOptions

  /** The filters `organizationOptions` applies: all but the organisation. */
  function OrganizationCriteria(f: Filters): seq<Criterion>
  {
    CategoryStage(f) + LanguageStage(f) + EnvironmentStage(f) + AttributeStages(f)
  }

  lemma OmitOrganization(f: Filters)
    ensures AllCriteria(f.(organization := None)) == OrganizationCriteria(f)
  {
    assert OrganizationStage(f.(organization := None)) == [];
  }

  /** The comparator of `organizationOptions`: "other" last, then descending counts. */
  function OtherLast(x: Facet<string>): Rank
  {
    Rank(if x.key == "other" then 1 else 0, -(x.softwareCount as int))
  }

  function OrganizationOptionsSpec(xs: seq<Software>, results: Option<seq<SearchResult>>, f: Filters): seq<Facet<string>>
    requires SearchOk(xs, results)
  {
    var keys := Dedup(Flatten(xs, OrganizationsOf));
    SortBy(Facets(keys, Select(Searched(xs, results), OrganizationCriteria(f)), OrganizationsOf), OtherLast)
  }

  /** `organizationOptions`. */
  method OrganizationOptions(xs: seq<Software>, results: Option<seq<SearchResult>>, f: Filters)
    returns (r: seq<Facet<string>>)
    requires SearchOk(xs, results)
    ensures r == OrganizationOptionsSpec(xs, results, f)
  {
    var keys := Dedup(Flatten(xs, OrganizationsOf));
    var tmp := xs;
    if results.Some? {
      tmp := Searched(xs, results);
    }
    tmp := Narrow(tmp, OrganizationCriteria(f));
    var counted := Tally(keys, tmp, OrganizationsOf);
    assert counted == Facets(keys, tmp, OrganizationsOf);
    r := SortBy(counted, OtherLast);
  }

  /** An organisation is met in the whole list iff some software of the list has it as a key. */
  lemma OrganizationInList(xs: seq<Software>, o: string)
    ensures o in Flatten(xs, OrganizationsOf) <==> exists s | s in xs :: o in Keys(s.userAndReferentCountByOrganization)
  {
    if exists s | s in xs :: o in Keys(s.userAndReferentCountByOrganization) {
      var s :| s in xs && o in Keys(s.userAndReferentCountByOrganization);
      var j :| 0 <= j < |xs| && xs[j] == s;
      assert o in OrganizationsOf(xs[j]);
    }
    if o in Flatten(xs, OrganizationsOf) {
      var j :| 0 <= j < |xs| && o in OrganizationsOf(xs[j]);
      assert xs[j] in xs && o in Keys(xs[j].userAndReferentCountByOrganization);
    }
  }

  /** Every organisation of the whole list is offered, also with a zero count, and no other. */
  lemma OrganizationOptionsKeys(xs: seq<Software>, results: Option<seq<SearchResult>>, f: Filters, o: string)
    requires SearchOk(xs, results)
    ensures var r := OrganizationOptionsSpec(xs, results, f);
      (exists i | 0 <= i < |r| :: r[i].key == o) <==> exists s | s in xs :: o in Keys(s.userAndReferentCountByOrganization)
  {
    var r := OrganizationOptionsSpec(xs, results, f);
    var tmp := Select(Searched(xs, results), OrganizationCriteria(f));
    SortedFacetKeys(Flatten(xs, OrganizationsOf), tmp, OrganizationsOf, OtherLast, o);
    OrganizationInList(xs, o);
    if o in FacetKeys(r) {
      var i :| 0 <= i < |r| && FacetKeys(r)[i] == o;
    }
    if exists i | 0 <= i < |r| :: r[i].key == o {
      var i :| 0 <= i < |r| && r[i].key == o;
      assert FacetKeys(r)[i] == o;
    }
  }

  /** A software holds each organisation of a distinct-key count map at most once. */
  lemma OrganizationOnce(s: Software, o: string)
    requires DistinctKeys(s.userAndReferentCountByOrganization)
    ensures multiset(OrganizationsOf(s))[o] == if Keeps(ByOrganization(o), s) then 1 else 0
  {
    var m := s.userAndReferentCountByOrganization;
    forall a, b | 0 <= a < b < |Keys(m)| ensures Keys(m)[a] != Keys(m)[b] {
      assert Keys(m)[a] == m[a].0 && Keys(m)[b] == m[b].0;
    }
    DistinctCount(Keys(m), o);
  }

  /** The count of one organisation over some selection is the size of the selection narrowed to it. */
  lemma OrganizationCount(ys: seq<Software>, cs: seq<Criterion>, o: string)
    requires forall s | s in ys :: DistinctKeys(s.userAndReferentCountByOrganization)
    ensures Count(o, Select(ys, cs), OrganizationsOf) == |Select(ys, cs + [ByOrganization(o)])|
  {
    var tmp := Select(ys, cs);
    var p := (x: Software) => Keeps(ByOrganization(o), x);
    forall n | 0 <= n < |tmp| ensures multiset(OrganizationsOf(tmp[n]))[o] == if p(tmp[n]) then 1 else 0 {
      assert tmp[n] in tmp;
      OrganizationOnce(tmp[n], o);
    }
    CountIsNumber(o, tmp, OrganizationsOf, p);
    NumberSelect(ys, cs, ByOrganization(o));
  }

  /**
   * With distinct organisation keys (as JSON objects have), each count is the
   * number of softwares that pass every filter but the organisation filter and
   * belong to that organisation.
   */
  lemma OrganizationOptionsCounts(xs: seq<Software>, results: Option<seq<SearchResult>>, f: Filters)
    requires SearchOk(xs, results)
    requires forall s | s in xs :: DistinctKeys(s.userAndReferentCountByOrganization)
    ensures var r := OrganizationOptionsSpec(xs, results, f);
      forall i | 0 <= i < |r| :: r[i].softwareCount
        == |Select(Searched(xs, results), AllCriteria(f.(organization := None)) + [ByOrganization(r[i].key)])|
  {
    var hits := Searched(xs, results);
    var cs := OrganizationCriteria(f);
    var r := OrganizationOptionsSpec(xs, results, f);
    FacetsSorted(Dedup(Flatten(xs, OrganizationsOf)), Select(hits, cs), OrganizationsOf, OtherLast);
    assert r == SortBy(Facets(Dedup(Flatten(xs, OrganizationsOf)), Select(hits, cs), OrganizationsOf), OtherLast);
    OmitOrganization(f);
    forall i | 0 <= i < |r| ensures r[i].softwareCount == |Select(hits, cs + [ByOrganization(r[i].key)])| {
      OrganizationCount(hits, cs, r[i].key);
    }
  }

  /** "other" comes last; the other organisations come by descending count. */
  lemma OrganizationOptionsOrder(xs: seq<Software>, results: Option<seq<SearchResult>>, f: Filters)
    requires SearchOk(xs, results)
    ensures var r := OrganizationOptionsSpec(xs, results, f);
      forall i, j | 0 <= i < j < |r| ::
        && (r[i].key == "other" ==> r[j].key == "other")
        && (r[i].key != "other" && r[j].key != "other" ==> r[i].softwareCount >= r[j].softwareCount)
  {
    var keys := Dedup(Flatten(xs, OrganizationsOf));
    var fs := Facets(keys, Select(Searched(xs, results), OrganizationCriteria(f)), OrganizationsOf);
    var r := SortBy(fs, OtherLast);
    SortSorted(fs, OtherLast);
    forall i, j | 0 <= i < j < |r|
      ensures r[i].key == "other" ==> r[j].key == "other"
      ensures r[i].key != "other" && r[j].key != "other" ==> r[i].softwareCount >= r[j].softwareCount
    {
      assert RankLe(OtherLast(r[i]), OtherLast(r[j]));
    }
  }

  // ------------------------------------------- shared facts about the counters

  /** The count of a value over a selection is the size of the selection narrowed by the matching criterion. */
  lemma SelectionCount<K>(ys: seq<Software>, cs: seq<Criterion>, c: Criterion, k: K, keysOf: Software -> seq<K>)
    requires forall s | s in ys :: multiset(keysOf(s))[k] == if Keeps(c, s) then 1 else 0
    ensures Count(k, Select(ys, cs), keysOf) == |Select(ys, cs + [c])|
  {
    var tmp := Select(ys, cs);
    var p := (x: Software) => Keeps(c, x);
    forall n | 0 <= n < |tmp| ensures multiset(keysOf(tmp[n]))[k] == if p(tmp[n]) then 1 else 0 {
      assert tmp[n] in tmp;
    }
    CountIsNumber(k, tmp, keysOf, p);
    NumberSelect(ys, cs, c);
  }

  /** A count table without its zero entries, sorted by descending count. */
  lemma NonZeroFacetsSorted<T, K(!new)>(keys: seq<K>, tmp: seq<T>, keysOf: T -> seq<K>)
    ensures var r := SortBy(NonZero(Facets(keys, tmp, keysOf)), ByCount);
      && (forall k :: k in FacetKeys(r) <==> k in keys && Count(k, tmp, keysOf) > 0)
      && (forall i | 0 <= i < |r| :: r[i].softwareCount == Count(r[i].key, tmp, keysOf))
      && (forall i, j | 0 <= i < j < |r| :: r[i].softwareCount >= r[j].softwareCount)
  {
    var fs := Facets(keys, tmp, keysOf);
    var nz := NonZero(fs);
    var r := SortBy(nz, ByCount);
    SortedFacets(nz);
    var rk := FacetKeys(r);
    forall i | 0 <= i < |r|
      ensures r[i].softwareCount == Count(r[i].key, tmp, keysOf) && r[i].key in keys && r[i].softwareCount > 0
    {
      assert r[i] in nz;
      var j :| 0 <= j < |fs| && fs[j] == r[i];
    }
    forall k | k in rk ensures k in keys && Count(k, tmp, keysOf) > 0 {
      var i :| 0 <= i < |r| && rk[i] == k;
    }
    forall k | k in keys && Count(k, tmp, keysOf) > 0 ensures k in rk {
      var n :| 0 <= n < |keys| && keys[n] == k;
      assert fs[n] in nz;
      var i :| 0 <= i < |r| && r[i] == fs[n];
      assert rk[i] == k;
    }
  }

  /** A value met in the softwares that pass some filters is a value of the whole list. */
  lemma InWholeList<K(!new)>(xs: seq<Software>, results: Option<seq<SearchResult>>, cs: seq<Criterion>, keysOf: Software -> seq<K>, k: K)
    requires SearchOk(xs, results)
    requires k in Flatten(Select(Searched(xs, results), cs), keysOf)
    ensures k in Flatten(xs, keysOf)
  {
    var tmp := Select(Searched(xs, results), cs);
    var j :| 0 <= j < |tmp| && k in keysOf(tmp[j]);
    assert tmp[j] in tmp;
    var n :| 0 <= n < |xs| && xs[n] == tmp[j];
  }

  /** The options of a facet that drops zeros: exactly the values some software passing the other filters has, by descending count. */
  lemma DroppingZeros<K(!new)>(xs: seq<Software>, results: Option<seq<SearchResult>>, cs: seq<Criterion>, keysOf: Software -> seq<K>)
    requires SearchOk(xs, results)
    ensures var tmp := Select(Searched(xs, results), cs);
      var r := SortBy(NonZero(Facets(Dedup(Flatten(xs, keysOf)), tmp, keysOf)), ByCount);
      && (forall k :: k in FacetKeys(r) <==> k in Flatten(tmp, keysOf))
      && (forall i | 0 <= i < |r| :: r[i].softwareCount == Count(r[i].key, tmp, keysOf))
      && (forall i, j | 0 <= i < j < |r| :: r[i].softwareCount >= r[j].softwareCount)
  {
    var tmp := Select(Searched(xs, results), cs);
    var keys := Dedup(Flatten(xs, keysOf));
    NonZeroFacetsSorted(keys, tmp, keysOf);
    forall k ensures k in keys && Count(k, tmp, keysOf) > 0 <==> k in Flatten(tmp, keysOf) {
      CountPositive(k, tmp, keysOf);
      if k in Flatten(tmp, keysOf) {
        InWholeList(xs, results, cs, keysOf, k);
      }
    }
  }

  predicate Distinct<T(==)>(s: seq<T>)
  {
    forall i, j | 0 <= i < j < |s| :: s[i] != s[j]
  }

  /** With distinct values per software, the count of a value is the number of softwares passing the filters that hold it. */
  lemma DistinctCounts(ys: seq<Software>, cs: seq<Criterion>, c: Criterion, k: string, keysOf: Software -> seq<string>)
    requires forall s | s in ys :: Distinct(keysOf(s)) && (k in keysOf(s) <==> Keeps(c, s))
    ensures Count(k, Select(ys, cs), keysOf) == |Select(ys, cs + [c])|
  {
    forall s | s in ys ensures multiset(keysOf(s))[k] == if Keeps(c, s) then 1 else 0 {
      DistinctCount(keysOf(s), k);
    }
    SelectionCount(ys, cs, c, k, keysOf);
  }

  // ------------------------------------------------------- categoryOptions

  /** The filters `categoryOptions` applies: all but the category. */
  function CategoryCriteria(f: Filters): seq<Criterion>
  {
    OrganizationStage(f) + LanguageStage(f) + EnvironmentStage(f) + AttributeStages(f)
  }

  lemma OmitCategory(f: Filters)
    ensures AllCriteria(f.(category := None)) == CategoryCriteria(f)
  {
    assert CategoryStage(f.(category := None)) == [];
  }

  function CategoryOptionsSpec(xs: seq<Software>, results: Option<seq<SearchResult>>, f: Filters): seq<Facet<string>>
    requires SearchOk(xs, results)
  {
    var keys := Dedup(Flatten(xs, CategoriesOf));
    SortBy(NonZero(Facets(keys, Select(Searched(xs, results), CategoryCriteria(f)), CategoriesOf)), ByCount)
  }

  /** `categoryOptions`. */
  method CategoryOptions(xs: seq<Software>, results: Option<seq<SearchResult>>, f: Filters)
    returns (r: seq<Facet<string>>)
    requires SearchOk(xs, results)
    ensures r == CategoryOptionsSpec(xs, results, f)
  {
    var keys := Dedup(Flatten(xs, CategoriesOf));
    var tmp := xs;
    if results.Some? {
      tmp := Searched(xs, results);
    }
    tmp := Narrow(tmp, CategoryCriteria(f));
    var counted := Tally(keys, tmp, CategoriesOf);
    assert counted == Facets(keys, tmp, CategoriesOf);
    r := SortBy(NonZero(counted), ByCount);
  }

  /** A category is offered iff a software passing every filter but the category filter has it; by descending count. */
  lemma CategoryOptionsOffered(xs: seq<Software>, results: Option<seq<SearchResult>>, f: Filters)
    requires SearchOk(xs, results)
    ensures var tmp := Select(Searched(xs, results), AllCriteria(f.(category := None)));
      var r := CategoryOptionsSpec(xs, results, f);
      && (forall c :: c in FacetKeys(r) <==> c in Flatten(tmp, CategoriesOf))
      && (forall i, j | 0 <= i < j < |r| :: r[i].softwareCount >= r[j].softwareCount)
  {
    var tmp := Select(Searched(xs, results), CategoryCriteria(f));
    OmitCategory(f);
    DroppingZeros(xs, results, CategoryCriteria(f), CategoriesOf);
    assert CategoryOptionsSpec(xs, results, f) == SortBy(NonZero(Facets(Dedup(Flatten(xs, CategoriesOf)), tmp, CategoriesOf)), ByCount);
  }

  /** The count of one value over a selection, for softwares listing each value once. */
  lemma CategoryCount(ys: seq<Software>, cs: seq<Criterion>, k: string)
    requires forall s | s in ys :: Distinct(s.applicationCategories)
    ensures Count(k, Select(ys, cs), CategoriesOf) == |Select(ys, cs + [ByCategory(k)])|
  {
    DistinctCounts(ys, cs, ByCategory(k), k, CategoriesOf);
  }

  /** With distinct categories per software, a count is the number of softwares passing the other filters in that category. */
  lemma CategoryOptionsCounts(xs: seq<Software>, results: Option<seq<SearchResult>>, f: Filters)
    requires SearchOk(xs, results)
    requires forall s | s in xs :: Distinct(s.applicationCategories)
    ensures var r := CategoryOptionsSpec(xs, results, f);
      forall i | 0 <= i < |r| :: r[i].softwareCount
        == |Select(Searched(xs, results), AllCriteria(f.(category := None)) + [ByCategory(r[i].key)])|
  {
    var hits := Searched(xs, results);
    var cs := CategoryCriteria(f);
    var r := CategoryOptionsSpec(xs, results, f);
    NonZeroFacetsSorted(Dedup(Flatten(xs, CategoriesOf)), Select(hits, cs), CategoriesOf);
    assert r == SortBy(NonZero(Facets(Dedup(Flatten(xs, CategoriesOf)), Select(hits, cs), CategoriesOf)), ByCount);
    OmitCategory(f);
    assert forall s | s in hits :: s in xs;
    forall i | 0 <= i < |r| ensures r[i].softwareCount == |Select(hits, cs + [ByCategory(r[i].key)])| {
      CategoryCount(hits, cs, r[i].key);
    }
  }

  // --------------------------------------------- programmingLanguageOptions

  /** The filters `programmingLanguageOptions` applies: all but the language. */
  function LanguageCriteria(f: Filters): seq<Criterion>
  {
    OrganizationStage(f) + CategoryStage(f) + EnvironmentStage(f) + AttributeStages(f)
  }

  lemma OmitLanguage(f: Filters)
    ensures AllCriteria(f.(programmingLanguage := None)) == LanguageCriteria(f)
  {
    assert LanguageStage(f.(programmingLanguage := None)) == [];
  }

  function LanguageOptionsSpec(xs: seq<Software>, results: Option<seq<SearchResult>>, f: Filters): seq<Facet<string>>
    requires SearchOk(xs, results)
  {
    var keys := Dedup(Flatten(xs, LanguagesOf));
    SortBy(NonZero(Facets(keys, Select(Searched(xs, results), LanguageCriteria(f)), LanguagesOf)), ByCount)
  }

  /** `programmingLanguageOptions`. */
  method ProgrammingLanguageOptions(xs: seq<Software>, results: Option<seq<SearchResult>>, f: Filters)
    returns (r: seq<Facet<string>>)
    requires SearchOk(xs, results)
    ensures r == LanguageOptionsSpec(xs, results, f)
  {
    var keys := Dedup(Flatten(xs, LanguagesOf));
    var tmp := xs;
    if results.Some? {
      tmp := Searched(xs, results);
    }
    tmp := Narrow(tmp, LanguageCriteria(f));
    var counted := Tally(keys, tmp, LanguagesOf);
    assert counted == Facets(keys, tmp, LanguagesOf);
    r := SortBy(NonZero(counted), ByCount);
  }

  /** A language is offered iff a software passing every filter but the language filter uses it; by descending count. */
  lemma LanguageOptionsOffered(xs: seq<Software>, results: Option<seq<SearchResult>>, f: Filters)
    requires SearchOk(xs, results)
    ensures var tmp := Select(Searched(xs, results), AllCriteria(f.(programmingLanguage := None)));
      var r := LanguageOptionsSpec(xs, results, f);
      && (forall l :: l in FacetKeys(r) <==> l in Flatten(tmp, LanguagesOf))
      && (forall i, j | 0 <= i < j < |r| :: r[i].softwareCount >= r[j].softwareCount)
  {
    var tmp := Select(Searched(xs, results), LanguageCriteria(f));
    OmitLanguage(f);
    DroppingZeros(xs, results, LanguageCriteria(f), LanguagesOf);
    assert LanguageOptionsSpec(xs, results, f) == SortBy(NonZero(Facets(Dedup(Flatten(xs, LanguagesOf)), tmp, LanguagesOf)), ByCount);
  }

  /** The count of one value over a selection, for softwares listing each value once. */
  lemma LanguageCount(ys: seq<Software>, cs: seq<Criterion>, k: string)
    requires forall s | s in ys :: Distinct(s.programmingLanguages)
    ensures Count(k, Select(ys, cs), LanguagesOf) == |Select(ys, cs + [ByProgrammingLanguage(k)])|
  {
    DistinctCounts(ys, cs, ByProgrammingLanguage(k), k, LanguagesOf);
  }

  /** With distinct languages per software, a count is the number of softwares passing the other filters in that language. */
  lemma LanguageOptionsCounts(xs: seq<Software>, results: Option<seq<SearchResult>>, f: Filters)
    requires SearchOk(xs, results)
    requires forall s | s in xs :: Distinct(s.programmingLanguages)
    ensures var r := LanguageOptionsSpec(xs, results, f);
      forall i | 0 <= i < |r| :: r[i].softwareCount
        == |Select(Searched(xs, results), AllCriteria(f.(programmingLanguage := None)) + [ByProgrammingLanguage(r[i].key)])|
  {
    var hits := Searched(xs, results);
    var cs := LanguageCriteria(f);
    var r := LanguageOptionsSpec(xs, results, f);
    NonZeroFacetsSorted(Dedup(Flatten(xs, LanguagesOf)), Select(hits, cs), LanguagesOf);
    assert r == SortBy(NonZero(Facets(Dedup(Flatten(xs, LanguagesOf)), Select(hits, cs), LanguagesOf)), ByCount);
    OmitLanguage(f);
    assert forall s | s in hits :: s in xs;
    forall i | 0 <= i < |r| ensures r[i].softwareCount == |Select(hits, cs + [ByProgrammingLanguage(r[i].key)])| {
      LanguageCount(hits, cs, r[i].key);
    }
  }

  // --------------------------------------------------- environmentOptions

  /** The filters `environmentOptions` applies, in its order: all but the environment. */
  function EnvironmentCriteria(f: Filters): seq<Criterion>
  {
    OrganizationStage(f) + LanguageStage(f) + CategoryStage(f) + AttributeStages(f)
  }

  lemma OmitEnvironment(ys: seq<Software>, f: Filters, more: seq<Criterion>)
    ensures Select(ys, AllCriteria(f.(environment := None)) + more) == Select(ys, EnvironmentCriteria(f) + more)
  {
    assert EnvironmentStage(f.(environment := None)) == [];
    SelectSameCriteria(ys, AllCriteria(f.(environment := None)) + more, EnvironmentCriteria(f) + more);
  }

  /** Every environment of the list with its count, by descending count (zeros kept). */
  function EnvironmentOptionsSpec(xs: seq<Software>, results: Option<seq<SearchResult>>, f: Filters): seq<Facet<Environment>>
    requires SearchOk(xs, results)
  {
    var keys := Dedup(Flatten(xs, EnvironmentsOf));
    SortBy(Facets(keys, Select(Searched(xs, results), EnvironmentCriteria(f)), EnvironmentsOf), ByCount)
  }

  /** `environmentOptions`. */
  method EnvironmentOptions(xs: seq<Software>, results: Option<seq<SearchResult>>, f: Filters)
    returns (r: seq<Facet<Environment>>)
    requires SearchOk(xs, results)
    ensures r == EnvironmentOptionsSpec(xs, results, f)
  {
    var keys := Dedup(Flatten(xs, EnvironmentsOf));
    var tmp := xs;
    if results.Some? {
      tmp := Searched(xs, results);
    }
    tmp := Narrow(tmp, EnvironmentCriteria(f));
    var counted := Tally(keys, tmp, EnvironmentsOf);
    assert counted == Facets(keys, tmp, EnvironmentsOf);
    r := SortBy(counted, ByCount);
  }

  /** A key is listed by a sorted count table iff it is one of the table's keys. */
  lemma SortedFacetKeys<T, K(!new)>(all: seq<K>, tmp: seq<T>, keysOf: T -> seq<K>, rank: Facet<K> -> Rank, k: K)
    ensures k in FacetKeys(SortBy(Facets(Dedup(all), tmp, keysOf), rank)) <==> k in all
  {
    var r := SortBy(Facets(Dedup(all), tmp, keysOf), rank);
    FacetsSorted(Dedup(all), tmp, keysOf, rank);
    if k in FacetKeys(r) {
      var i :| 0 <= i < |r| && FacetKeys(r)[i] == k;
    }
    if k in all {
      assert k in Dedup(all);
      var i :| 0 <= i < |r| && r[i].key == k;
      assert FacetKeys(r)[i] == k;
    }
  }

  /** An environment is met in the whole list iff some software of the list runs there. */
  lemma EnvironmentInList(xs: seq<Software>, e: Environment)
    ensures e in Flatten(xs, EnvironmentsOf) <==> exists s | s in xs :: HasEnvironment(s.softwareType, e)
  {
    if exists s | s in xs :: HasEnvironment(s.softwareType, e) {
      var s :| s in xs && HasEnvironment(s.softwareType, e);
      var j :| 0 <= j < |xs| && xs[j] == s;
      EnvironmentsOfMeaning(s, e);
      assert e in multiset(EnvironmentsOf(xs[j]));
    }
    if e in Flatten(xs, EnvironmentsOf) {
      var j :| 0 <= j < |xs| && e in EnvironmentsOf(xs[j]);
      EnvironmentsOfMeaning(xs[j], e);
      assert xs[j] in xs;
    }
  }

  /** An environment is offered iff some software of the whole list runs there, whatever the other filters. */
  lemma EnvironmentOptionsKeys(xs: seq<Software>, results: Option<seq<SearchResult>>, f: Filters, e: Environment)
    requires SearchOk(xs, results)
    ensures var r := EnvironmentOptionsSpec(xs, results, f);
      e in FacetKeys(r) <==> exists s | s in xs :: HasEnvironment(s.softwareType, e)
  {
    var tmp := Select(Searched(xs, results), EnvironmentCriteria(f));
    SortedFacetKeys(Flatten(xs, EnvironmentsOf), tmp, EnvironmentsOf, ByCount, e);
    EnvironmentInList(xs, e);
  }

  /** The count of one environment over a selection is the size of the selection narrowed to it. */
  lemma EnvironmentCount(ys: seq<Software>, cs: seq<Criterion>, e: Environment)
    ensures Count(e, Select(ys, cs), EnvironmentsOf) == |Select(ys, cs + [ByEnvironment(e)])|
  {
    forall s | s in ys ensures multiset(EnvironmentsOf(s))[e] == if Keeps(ByEnvironment(e), s) then 1 else 0 {
      EnvironmentsOfMeaning(s, e);
    }
    SelectionCount(ys, cs, ByEnvironment(e), e, EnvironmentsOf);
  }

  /** Each count is the number of softwares that pass every filter but the environment filter and run there. */
  lemma EnvironmentOptionsCounts(xs: seq<Software>, results: Option<seq<SearchResult>>, f: Filters)
    requires SearchOk(xs, results)
    ensures var r := EnvironmentOptionsSpec(xs, results, f);
      forall i | 0 <= i < |r| :: r[i].softwareCount
        == |Select(Searched(xs, results), AllCriteria(f.(environment := None)) + [ByEnvironment(r[i].key)])|
  {
    var hits := Searched(xs, results);
    var cs := EnvironmentCriteria(f);
    var r := EnvironmentOptionsSpec(xs, results, f);
    FacetsSorted(Dedup(Flatten(xs, EnvironmentsOf)), Select(hits, cs), EnvironmentsOf, ByCount);
    assert r == SortBy(Facets(Dedup(Flatten(xs, EnvironmentsOf)), Select(hits, cs), EnvironmentsOf), ByCount);
    forall i | 0 <= i < |r|
      ensures r[i].softwareCount == |Select(hits, AllCriteria(f.(environment := None)) + [ByEnvironment(r[i].key)])|
    {
      EnvironmentCount(hits, cs, r[i].key);
      OmitEnvironment(hits, f, [ByEnvironment(r[i].key)]);
    }
  }

  /** The environments come by descending count. */
  lemma EnvironmentOptionsOrder(xs: seq<Software>, results: Option<seq<SearchResult>>, f: Filters)
    requires SearchOk(xs, results)
    ensures var r := EnvironmentOptionsSpec(xs, results, f);
      forall i, j | 0 <= i < j < |r| :: r[i].softwareCount >= r[j].softwareCount
  {
    var keys := Dedup(Flatten(xs, EnvironmentsOf));
    var fs := Facets(keys, Select(Searched(xs, results), EnvironmentCriteria(f)), EnvironmentsOf);
    SortedFacets(fs);
    assert EnvironmentOptionsSpec(xs, results, f) == SortBy(fs, ByCount);
  }

  // --------------------------------------------- attributeNameFilterOptions

  /** An attribute definition of the UI configuration: its name and its `label` (a keyword here). */
  datatype AttributeDefinition = AttributeDefinition(name: string, labelText: string)

  /** `attributeDefinitions.find(({ name }) => name === n)`: the first definition of that name. */
  function FindDefinition(defs: seq<AttributeDefinition>, n: string): (r: Option<nat>)
    decreases |defs|
    ensures r.Some? <==> exists i | 0 <= i < |defs| :: defs[i].name == n
    ensures r.Some? ==> r.value < |defs| && defs[r.value].name == n
    ensures r.Some? ==> forall j | 0 <= j < r.value :: defs[j].name != n
  {
    if defs == [] then None
    else if defs[0].name == n then Some(0)
    else
      var rest := FindDefinition(defs[1..], n);
      assert forall i | 1 <= i < |defs| :: defs[i] == defs[1..][i - 1];
      if rest.Some? then Some(rest.value + 1) else None
  }

  /** `getLabel`: the label of the first definition of the name; none without a UI configuration. */
  function LabelOf(ui: Option<seq<AttributeDefinition>>, n: string): (r: Option<string>)
    ensures r.Some? <==> ui.Some? && exists i | 0 <= i < |ui.value| :: ui.value[i].name == n
    ensures r.Some? ==> exists i | 0 <= i < |ui.value| ::
      (ui.value[i] == AttributeDefinition(n, r.value) && forall j | 0 <= j < i :: ui.value[j].name != n)
  {
    if ui.None? then None
    else
      var i := FindDefinition(ui.value, n);
      if i.None? then None else Some(ui.value[i.value].labelText)
  }

  datatype AttributeOption = AttributeOption(attributeName: string, attributeLabel: string, softwareCount: nat)

  /** The closing `filter` and `map`: the counted attributes that have a label, with it, in table order. */
  function Labelled(fs: seq<Facet<string>>, ui: Option<seq<AttributeDefinition>>): (r: seq<AttributeOption>)
    decreases |fs|
    ensures |r| <= |fs|
    ensures forall o | o in r :: LabelOf(ui, o.attributeName) == Some(o.attributeLabel) && Facet(o.attributeName, o.softwareCount) in fs
    ensures forall x | x in fs && LabelOf(ui, x.key).Some? :: AttributeOption(x.key, LabelOf(ui, x.key).value, x.softwareCount) in r
  {
    if fs == [] then []
    else
      var n := |fs| - 1;
      var x := fs[n];
      var l := LabelOf(ui, x.key);
      assert forall y :: y in fs <==> y in fs[..n] || y == x;
      Labelled(fs[..n], ui) + (if l.Some? then [AttributeOption(x.key, l.value, x.softwareCount)] else [])
  }

  /** The counted attribute names: those set on some software, then `isInstallableOnUserComputer`. */
  function AttributeKeys(xs: seq<Software>): seq<string>
  {
    Dedup(Dedup(Flatten(xs, TruthyAttributes)) + [Installable])
  }

  function AttributeOptionsSpec(xs: seq<Software>, results: Option<seq<SearchResult>>, f: Filters, ui: Option<seq<AttributeDefinition>>): seq<AttributeOption>
    requires SearchOk(xs, results)
  {
    Labelled(Facets(AttributeKeys(xs), Select(Searched(xs, results), AllCriteria(f)), AttributeHits), ui)
  }

  /** `attributeNameFilterOptions`: counted over the softwares passing every filter, including the attribute filters. */
  method AttributeNameFilterOptions(xs: seq<Software>, results: Option<seq<SearchResult>>, f: Filters, ui: Option<seq<AttributeDefinition>>)
    returns (r: seq<AttributeOption>)
    requires SearchOk(xs, results)
    ensures r == AttributeOptionsSpec(xs, results, f, ui)
  {
    var keys := AttributeKeys(xs);
    var tmp := xs;
    if results.Some? {
      tmp := Searched(xs, results);
    }
    tmp := Narrow(tmp, AllCriteria(f));
    var counted := Tally(keys, tmp, AttributeHits);
    assert counted == Facets(keys, tmp, AttributeHits);
    r := Labelled(counted, ui);
  }

  /** A name is among a software's set attributes iff the attribute filter keeps that software. */
  lemma TruthyAttributesMeaning(s: Software, a: string)
    ensures a in TruthyAttributes(s) <==> AttributeSet(s, a)
  {
    if s.customAttributes.Some? {
      var e := s.customAttributes.value;
      TruthyKeysCount(Keys(e), e, a);
      assert a in Keys(e) <==> a in multiset(Keys(e));
      assert a in TruthyAttributes(s) <==> a in multiset(TruthyAttributes(s));
    }
  }

  /** The counted names are `isInstallableOnUserComputer` and the attributes set on some software of the list. */
  lemma AttributeKeysMeaning(xs: seq<Software>, a: string)
    ensures a in AttributeKeys(xs) <==> a == Installable || exists s | s in xs :: AttributeSet(s, a)
  {
    var all := Flatten(xs, TruthyAttributes);
    assert a in AttributeKeys(xs) <==> a == Installable || a in all;
    if exists s | s in xs :: AttributeSet(s, a) {
      var s :| s in xs && AttributeSet(s, a);
      var j :| 0 <= j < |xs| && xs[j] == s;
      TruthyAttributesMeaning(s, a);
      assert a in TruthyAttributes(xs[j]);
    }
    if a in all {
      var j :| 0 <= j < |xs| && a in TruthyAttributes(xs[j]);
      TruthyAttributesMeaning(xs[j], a);
      assert xs[j] in xs;
    }
  }

  /** A name is offered iff it is a key of the table and has a label. */
  lemma LabelledNames(fs: seq<Facet<string>>, ui: Option<seq<AttributeDefinition>>, a: string)
    ensures (exists o | o in Labelled(fs, ui) :: o.attributeName == a) <==> LabelOf(ui, a).Some? && a in FacetKeys(fs)
  {
    var r := Labelled(fs, ui);
    if exists o | o in r :: o.attributeName == a {
      var o :| o in r && o.attributeName == a;
      var n :| 0 <= n < |fs| && fs[n] == Facet(a, o.softwareCount);
      assert FacetKeys(fs)[n] == a;
    }
    if LabelOf(ui, a).Some? && a in FacetKeys(fs) {
      var n :| 0 <= n < |fs| && FacetKeys(fs)[n] == a;
      assert fs[n] in fs;
      assert AttributeOption(a, LabelOf(ui, a).value, fs[n].softwareCount) in r;
    }
  }

  /**
   * An attribute is offered iff the UI configuration labels it and it is
   * `isInstallableOnUserComputer` or set on some software of the whole list.
   */
  lemma AttributeOptionsOffered(xs: seq<Software>, results: Option<seq<SearchResult>>, f: Filters, ui: Option<seq<AttributeDefinition>>, a: string)
    requires SearchOk(xs, results)
    ensures var r := AttributeOptionsSpec(xs, results, f, ui);
      (exists o | o in r :: o.attributeName == a)
        <==> LabelOf(ui, a).Some? && (a == Installable || exists s | s in xs :: AttributeSet(s, a))
  {
    var keys := AttributeKeys(xs);
    var fs := Facets(keys, Select(Searched(xs, results), AllCriteria(f)), AttributeHits);
    assert AttributeOptionsSpec(xs, results, f, ui) == Labelled(fs, ui);
    assert FacetKeys(fs) == keys;
    AttributeKeysMeaning(xs, a);
    LabelledNames(fs, ui, a);
  }

  /** When each item holds `k` once per test it passes, the count of `k` is the sum of the two numbers of items. */
  lemma {:induction false} CountIsSum<T, K>(k: K, xs: seq<T>, keysOf: T -> seq<K>, p: T -> bool, q: T -> bool)
    requires forall i | 0 <= i < |xs| :: multiset(keysOf(xs[i]))[k] == (if p(xs[i]) then 1 else 0) + (if q(xs[i]) then 1 else 0)
    decreases |xs|
    ensures Count(k, xs, keysOf) == Number(xs, p) + Number(xs, q)
  {
    if xs != [] {
      var n := |xs| - 1;
      assert forall i | 0 <= i < n :: xs[..n][i] == xs[i];
      CountIsSum(k, xs[..n], keysOf, p, q);
    }
  }

  /** With distinct keys, a software adds a named attribute once when it is set and never otherwise. */
  lemma AttributeHitsNamed(s: Software, a: string)
    requires a != Installable
    requires s.customAttributes.Some? ==> DistinctKeys(s.customAttributes.value)
    ensures multiset(AttributeHits(s))[a] == if AttributeSet(s, a) then 1 else 0
  {
    if s.customAttributes.Some? {
      var e := s.customAttributes.value;
      forall i, j | 0 <= i < j < |Keys(e)| ensures Keys(e)[i] != Keys(e)[j] {
        assert Keys(e)[i] == e[i].0 && Keys(e)[j] == e[j].0;
      }
      DistinctCount(Keys(e), a);
      TruthyKeysCount(Keys(e), e, a);
    }
  }

  /** `isInstallableOnUserComputer` is added once if it is set, and once more for desktop/mobile software with custom attributes. */
  lemma AttributeHitsInstallable(s: Software)
    requires s.customAttributes.Some? ==> DistinctKeys(s.customAttributes.value)
    ensures multiset(AttributeHits(s))[Installable]
      == (if AttributeSet(s, Installable) then 1 else 0) + (if CountsAsInstallable(s) then 1 else 0)
  {
    if s.customAttributes.Some? {
      var e := s.customAttributes.value;
      forall i, j | 0 <= i < j < |Keys(e)| ensures Keys(e)[i] != Keys(e)[j] {
        assert Keys(e)[i] == e[i].0 && Keys(e)[j] == e[j].0;
      }
      DistinctCount(Keys(e), Installable);
      TruthyKeysCount(Keys(e), e, Installable);
    }
  }

  /** The count of a named attribute over a selection is the size of the selection narrowed by that attribute. */
  lemma AttributeCount(ys: seq<Software>, cs: seq<Criterion>, a: string)
    requires a != Installable
    requires forall s | s in ys && s.customAttributes.Some? :: DistinctKeys(s.customAttributes.value)
    ensures Count(a, Select(ys, cs), AttributeHits) == |Select(ys, cs + [ByAttribute(a)])|
  {
    forall s | s in ys ensures multiset(AttributeHits(s))[a] == if Keeps(ByAttribute(a), s) then 1 else 0 {
      AttributeHitsNamed(s, a);
    }
    SelectionCount(ys, cs, ByAttribute(a), a, AttributeHits);
  }

  /** The count of `isInstallableOnUserComputer`: those that set it plus the desktop/mobile ones with custom attributes. */
  lemma InstallableCount(ys: seq<Software>, cs: seq<Criterion>)
    requires forall s | s in ys && s.customAttributes.Some? :: DistinctKeys(s.customAttributes.value)
    ensures Count(Installable, Select(ys, cs), AttributeHits)
      == |Select(ys, cs + [ByAttribute(Installable)])| + Number(Select(ys, cs), CountsAsInstallable)
  {
    var tmp := Select(ys, cs);
    var p := (x: Software) => Keeps(ByAttribute(Installable), x);
    forall n | 0 <= n < |tmp|
      ensures multiset(AttributeHits(tmp[n]))[Installable]
        == (if p(tmp[n]) then 1 else 0) + (if CountsAsInstallable(tmp[n]) then 1 else 0)
    {
      assert tmp[n] in tmp;
      AttributeHitsInstallable(tmp[n]);
    }
    CountIsSum(Installable, tmp, AttributeHits, p, CountsAsInstallable);
    NumberSelect(ys, cs, ByAttribute(Installable));
  }

  /** One entry of the attribute table counts the selection narrowed to that attribute, plus the installable extra. */
  lemma AttributeEntryCount(keys: seq<string>, ys: seq<Software>, cs: seq<Criterion>, name: string, count: nat)
    requires forall s | s in ys && s.customAttributes.Some? :: DistinctKeys(s.customAttributes.value)
    requires Facet(name, count) in Facets(keys, Select(ys, cs), AttributeHits)
    ensures count == |Select(ys, cs + [ByAttribute(name)])|
      + (if name == Installable then Number(Select(ys, cs), CountsAsInstallable) else 0)
  {
    var fs := Facets(keys, Select(ys, cs), AttributeHits);
    var n :| 0 <= n < |fs| && fs[n] == Facet(name, count);
    assert count == Count(name, Select(ys, cs), AttributeHits);
    if name == Installable {
      InstallableCount(ys, cs);
    } else {
      AttributeCount(ys, cs, name);
    }
  }

  /**
   * With distinct attribute keys, each count is the number of softwares
   * passing every filter that also pass that attribute's filter, plus, for
   * `isInstallableOnUserComputer`, those of kind desktop/mobile that have
   * custom attributes.
   */
  lemma AttributeOptionsCounts(xs: seq<Software>, results: Option<seq<SearchResult>>, f: Filters, ui: Option<seq<AttributeDefinition>>)
    requires SearchOk(xs, results)
    requires forall s | s in xs && s.customAttributes.Some? :: DistinctKeys(s.customAttributes.value)
    ensures var hits := Searched(xs, results);
      var r := AttributeOptionsSpec(xs, results, f, ui);
      forall o | o in r :: o.softwareCount
        == |Select(hits, AllCriteria(f) + [ByAttribute(o.attributeName)])|
          + (if o.attributeName == Installable then Number(Select(hits, AllCriteria(f)), CountsAsInstallable) else 0)
  {
    var hits := Searched(xs, results);
    var cs := AllCriteria(f);
    var fs := Facets(AttributeKeys(xs), Select(hits, cs), AttributeHits);
    var r := AttributeOptionsSpec(xs, results, f, ui);
    assert r == Labelled(fs, ui);
    assert forall s | s in hits :: s in xs;
    forall o | o in r
      ensures o.softwareCount == |Select(hits, cs + [ByAttribute(o.attributeName)])|
        + (if o.attributeName == Installable then Number(Select(hits, cs), CountsAsInstallable) else 0)
    {
      AttributeEntryCount(AttributeKeys(xs), hits, cs, o.attributeName, o.softwareCount);
    }
  }
}
