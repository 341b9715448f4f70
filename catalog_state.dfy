// The catalogue page's state and its reducers: each reducer is a function on
// the state value, and the store object applies them to its fields in place.
module CatalogState {
  import opened Wrappers
  import opened Catalog
  import opened CatalogSelectors

  /** `State` of the catalogue use case. */
  datatype CatalogState = CatalogState(
    softwares: seq<Software>,
    softwareList: Option<seq<Software>>,
    search: string,
    searchResults: Option<seq<SearchResult>>,
    sort: Sort,
    organization: Option<string>,
    category: Option<string>,
    programmingLanguage: Option<string>,
    environment: Option<Environment>,
    filteredAttributeNames: seq<string>,
    sortBackup: Sort,
    userEmail: Option<string>)

  /**
   * `UpdateFilterParams`: a key of the state with a value for it. The keys
   * are every field but `softwares`, `sortBackup` and `userEmail`; the type
   * also omits a `searchResult` the state does not have, so `searchResults`
   * stays a key.
   */
  datatype FilterParam =
    | SetSoftwareList(softwareList: Option<seq<Software>>)
    | SetSearch(search: string)
    | SetSearchResults(searchResults: Option<seq<SearchResult>>)
    | SetSort(sort: Sort)
    | SetOrganization(organization: Option<string>)
    | SetCategory(category: Option<string>)
    | SetProgrammingLanguage(programmingLanguage: Option<string>)
    | SetEnvironment(environment: Option<Environment>)
    | SetFilteredAttributeNames(filteredAttributeNames: seq<string>)

  datatype Key =
    | SoftwareListKey | SearchKey | SearchResultsKey | SortKey | OrganizationKey
    | CategoryKey | ProgrammingLanguageKey | EnvironmentKey | FilteredAttributeNamesKey

  function KeyOf(p: FilterParam): Key
  {
    match p
    case SetSoftwareList(_) => SoftwareListKey
    case SetSearch(_) => SearchKey
    case SetSearchResults(_) => SearchResultsKey
    case SetSort(_) => SortKey
    case SetOrganization(_) => OrganizationKey
    case SetCategory(_) => CategoryKey
    case SetProgrammingLanguage(_) => ProgrammingLanguageKey
    case SetEnvironment(_) => EnvironmentKey
    case SetFilteredAttributeNames(_) => FilteredAttributeNamesKey
  }

  /** `{ key, value: state[key] }`: the parameter that would set a key to what it holds. */
  function Current(s: CatalogState, k: Key): (p: FilterParam)
    ensures KeyOf(p) == k
  {
    match k
    case SoftwareListKey => SetSoftwareList(s.softwareList)
    case SearchKey => SetSearch(s.search)
    case SearchResultsKey => SetSearchResults(s.searchResults)
    case SortKey => SetSort(s.sort)
    case OrganizationKey => SetOrganization(s.organization)
    case CategoryKey => SetCategory(s.category)
    case ProgrammingLanguageKey => SetProgrammingLanguage(s.programmingLanguage)
    case EnvironmentKey => SetEnvironment(s.environment)
    case FilteredAttributeNamesKey => SetFilteredAttributeNames(s.filteredAttributeNames)
  }

  /** Two states that agree on every key and on the three other fields are equal. */
  lemma {:induction false} SameKeysSameState(s: CatalogState, t: CatalogState)
    requires forall k :: Current(s, k) == Current(t, k)
    requires s.softwares == t.softwares && s.sortBackup == t.sortBackup && s.userEmail == t.userEmail
    ensures s == t
  {
    assert Current(s, SoftwareListKey) == Current(t, SoftwareListKey);
    assert Current(s, SearchKey) == Current(t, SearchKey);
    assert Current(s, SearchResultsKey) == Current(t, SearchResultsKey);
    assert Current(s, SortKey) == Current(t, SortKey);
    assert Current(s, OrganizationKey) == Current(t, OrganizationKey);
    assert Current(s, CategoryKey) == Current(t, CategoryKey);
    assert Current(s, ProgrammingLanguageKey) == Current(t, ProgrammingLanguageKey);
    assert Current(s, EnvironmentKey) == Current(t, EnvironmentKey);
    assert Current(s, FilteredAttributeNamesKey) == Current(t, FilteredAttributeNamesKey);
  }

  /** The filters of the page as the selectors read them. */
  function FiltersOf(s: CatalogState): Filters
  {
    Filters(s.organization, s.category, s.programmingLanguage, s.environment, s.filteredAttributeNames)
  }

  /** No filter is set. */
  predicate NoFilters(s: CatalogState)
  {
    && s.organization.None? && s.category.None? && s.programmingLanguage.None?
    && s.environment.None? && s.filteredAttributeNames == []
  }

  /** The keys `filterReset` clears. */
  predicate IsFilterKey(k: Key)
  {
    k in {OrganizationKey, CategoryKey, ProgrammingLanguageKey, EnvironmentKey, FilteredAttributeNamesKey}
  }

  // ------------------------------------------------------------------ reducers

  /** `initialized`: a fresh state with no search, no filter and the default sort as sort and backup. */
  function Initialized(softwares: seq<Software>, softwareList: Option<seq<Software>>, defaultSort: Sort, userEmail: Option<string>): (r: CatalogState)
    ensures NoFilters(r)
    ensures r.search == "" && r.searchResults.None?
    ensures r.sort == defaultSort && r.sortBackup == defaultSort
    ensures r.softwares == softwares && r.softwareList == softwareList && r.userEmail == userEmail
  {
    CatalogState(softwares, softwareList, "", None, defaultSort, None, None, None, None, [], defaultSort, userEmail)
  }

  /** `filterUpdated`: `state[key] = value`. */
  function FilterUpdated(s: CatalogState, p: FilterParam): (r: CatalogState)
    ensures Current(r, KeyOf(p)) == p
    ensures forall k | k != KeyOf(p) :: Current(r, k) == Current(s, k)
    ensures r.softwares == s.softwares && r.sortBackup == s.sortBackup && r.userEmail == s.userEmail
  {
    match p
    case SetSoftwareList(v) => s.(softwareList := v)
    case SetSearch(v) => s.(search := v)
    case SetSearchResults(v) => s.(searchResults := v)
    case SetSort(v) => s.(sort := v)
    case SetOrganization(v) => s.(organization := v)
    case SetCategory(v) => s.(category := v)
    case SetProgrammingLanguage(v) => s.(programmingLanguage := v)
    case SetEnvironment(v) => s.(environment := v)
    case SetFilteredAttributeNames(v) => s.(filteredAttributeNames := v)
  }

  /** Writing a key back with the value it holds changes nothing. */
  lemma FilterUpdatedCurrent(s: CatalogState, k: Key)
    ensures FilterUpdated(s, Current(s, k)) == s
  {
    var r := FilterUpdated(s, Current(s, k));
    forall k' ensures Current(r, k') == Current(s, k') {
    }
    SameKeysSameState(r, s);
  }

  /** Updating one key and then another is the same in either order; the last write to a key wins. */
  lemma FilterUpdatesCommute(s: CatalogState, p: FilterParam, q: FilterParam)
    ensures KeyOf(p) != KeyOf(q) ==> FilterUpdated(FilterUpdated(s, p), q) == FilterUpdated(FilterUpdated(s, q), p)
    ensures KeyOf(p) == KeyOf(q) ==> FilterUpdated(FilterUpdated(s, p), q) == FilterUpdated(s, q)
  {
    var a := FilterUpdated(FilterUpdated(s, p), q);
    if KeyOf(p) != KeyOf(q) {
      var b := FilterUpdated(FilterUpdated(s, q), p);
      forall k ensures Current(a, k) == Current(b, k) {
      }
      SameKeysSameState(a, b);
    } else {
      var b := FilterUpdated(s, q);
      forall k ensures Current(a, k) == Current(b, k) {
      }
      SameKeysSameState(a, b);
    }
  }

  /** `searchResultUpdated`: only `searchResults` changes. */
  function SearchResultUpdated(s: CatalogState, results: Option<seq<SearchResult>>): (r: CatalogState)
    ensures Current(r, SearchResultsKey) == SetSearchResults(results)
    ensures forall k | k != SearchResultsKey :: Current(r, k) == Current(s, k)
    ensures r.softwares == s.softwares && r.sortBackup == s.sortBackup && r.userEmail == s.userEmail
  {
    s.(searchResults := results)
  }

  /** `notifyRequestChangeSort`: asking for `best_match` while another sort is on saves that sort as the backup; the sort itself never changes. */
  function NotifyRequestChangeSort(s: CatalogState, sort: Sort): (r: CatalogState)
    ensures forall k :: Current(r, k) == Current(s, k)
    ensures r.softwares == s.softwares && r.userEmail == s.userEmail
    ensures sort == BestMatch && s.sort != BestMatch ==> r.sortBackup == s.sort
    ensures !(sort == BestMatch && s.sort != BestMatch) ==> r == s
    ensures s.sortBackup != BestMatch ==> r.sortBackup != BestMatch
  {
    if sort == BestMatch && s.sort != BestMatch then s.(sortBackup := s.sort) else s
  }

  /** Asking twice is asking once. */
  lemma NotifyIdempotent(s: CatalogState, sort: Sort)
    ensures NotifyRequestChangeSort(NotifyRequestChangeSort(s, sort), sort) == NotifyRequestChangeSort(s, sort)
  {
  }

  /** `filterReset`: the five filters are cleared; search, results, sorts and the rest stay. */
  function FilterReset(s: CatalogState): (r: CatalogState)
    ensures NoFilters(r)
    ensures forall k | !IsFilterKey(k) :: Current(r, k) == Current(s, k)
    ensures r.softwares == s.softwares && r.sortBackup == s.sortBackup && r.userEmail == s.userEmail
  {
    s.(organization := None, category := None, programmingLanguage := None, environment := None, filteredAttributeNames := [])
  }

  /** After a reset the page shows every software the search keeps (all of them without a search). */
  lemma {:induction false} FilterResetSelectsAll(s: CatalogState, ys: seq<Software>)
    ensures Select(ys, AllCriteria(FiltersOf(FilterReset(s)))) == ys
  {
    var f := FiltersOf(FilterReset(s));
    assert AllCriteria(f) == [];
    SelectNone(ys);
  }

  /** Resetting twice is resetting once, and a fresh state is already reset. */
  lemma FilterResetIdempotent(s: CatalogState, softwares: seq<Software>, softwareList: Option<seq<Software>>, defaultSort: Sort, userEmail: Option<string>)
    ensures FilterReset(FilterReset(s)) == FilterReset(s)
    ensures var i := Initialized(softwares, softwareList, defaultSort, userEmail); FilterReset(i) == i
  {
  }

  // --------------------------------------------------------------- the store

  /** The catalogue slice of the store; each reducer updates its fields in place. */
  class CatalogStore {
    var softwares: seq<Software>
    var softwareList: Option<seq<Software>>
    var search: string
    var searchResults: Option<seq<SearchResult>>
    var sort: Sort
    var organization: Option<string>
    var category: Option<string>
    var programmingLanguage: Option<string>
    var environment: Option<Environment>
    var filteredAttributeNames: seq<string>
    var sortBackup: Sort
    var userEmail: Option<string>

    function State(): CatalogState
      reads this
    {
      CatalogState(softwares, softwareList, search, searchResults, sort, organization, category,
        programmingLanguage, environment, filteredAttributeNames, sortBackup, userEmail)
    }

    /** The backup sort is never `best_match`: it is what the page returns to when the search is cleared. */
    predicate Valid()
      reads this
    {
      sortBackup != BestMatch
    }

    /** The store after a first `initialized`. */
    constructor (softwares: seq<Software>, softwareList: Option<seq<Software>>, defaultSort: Sort, userEmail: Option<string>)
      requires defaultSort != BestMatch
      ensures Valid() && State() == Initialized(softwares, softwareList, defaultSort, userEmail)
    {
      this.softwares := softwares;
      this.softwareList := softwareList;
      search := "";
      searchResults := None;
      sort := defaultSort;
      organization := None;
      category := None;
      programmingLanguage := None;
      environment := None;
      filteredAttributeNames := [];
      sortBackup := defaultSort;
      this.userEmail := userEmail;
    }

    /** `initialized`, dispatched again: the whole state is replaced. */
    method Initialize(all: seq<Software>, list: Option<seq<Software>>, defaultSort: Sort, email: Option<string>)
      requires defaultSort != BestMatch
      modifies this
      ensures Valid() && State() == Initialized(all, list, defaultSort, email)
    {
      Replace(Initialized(all, list, defaultSort, email));
    }

    /** Every field set from `s` at once. */
    method Replace(s: CatalogState)
      modifies this
      ensures State() == s
    {
      softwares, softwareList, search, searchResults, sort, organization, category :=
        s.softwares, s.softwareList, s.search, s.searchResults, s.sort, s.organization, s.category;
      programmingLanguage, environment, filteredAttributeNames, sortBackup, userEmail :=
        s.programmingLanguage, s.environment, s.filteredAttributeNames, s.sortBackup, s.userEmail;
    }

    /** `filterUpdated`. */
    method UpdateFilter(p: FilterParam)
      requires Valid()
      modifies this
      ensures Valid() && State() == FilterUpdated(old(State()), p)
    {
      match p
      case SetSoftwareList(v) => softwareList := v;
      case SetSearch(v) => search := v;
      case SetSearchResults(v) => searchResults := v;
      case SetSort(v) => sort := v;
      case SetOrganization(v) => organization := v;
      case SetCategory(v) => category := v;
      case SetProgrammingLanguage(v) => programmingLanguage := v;
      case SetEnvironment(v) => environment := v;
      case SetFilteredAttributeNames(v) => filteredAttributeNames := v;
    }

    /** `searchResultUpdated`. */
    method UpdateSearchResults(results: Option<seq<SearchResult>>)
      requires Valid()
      modifies this
      ensures Valid() && State() == SearchResultUpdated(old(State()), results)
    {
      searchResults := results;
    }

    /** `notifyRequestChangeSort`. */
    method RequestChangeSort(requested: Sort)
      requires Valid()
      modifies this
      ensures Valid() && State() == NotifyRequestChangeSort(old(State()), requested)
    {
      if requested == BestMatch && sort != BestMatch {
        sortBackup := sort;
      }
    }

    /** `filterReset`. */
    method ResetFilters()
      requires Valid()
      modifies this
      ensures Valid() && State() == FilterReset(old(State()))
    {
      organization := None;
      category := None;
      programmingLanguage := None;
      environment := None;
      filteredAttributeNames := [];
    }
  }
}
