// The catalogue thunks: the search-driven sort switching of `updateFilter`,
// the default sort, and the search string built for each list entry.
module CatalogThunks {
  import opened Wrappers
  import opened Catalog
  import opened CatalogSelectors
  import opened CatalogState
  import opened Strings

  // ------------------------------------------------------------ getDefaultSort

  /** `getDefaultSort`: `my_software` for a signed-in user, `referent_count` otherwise. */
  function GetDefaultSort(userEmail: Option<string>): (r: Sort)
    ensures r == MySoftware <==> userEmail.Some?
    ensures r == ReferentCount <==> userEmail.None?
  {
    if userEmail.None? then ReferentCount else MySoftware
  }

  /** The default sort can be the backup sort; for a signed-in user it is among the offered sorts. */
  lemma DefaultSortOffered(userEmail: Option<string>, hasSearchResults: bool, flags: Option<SortFlags>)
    ensures GetDefaultSort(userEmail) != BestMatch
    ensures userEmail.Some? ==> GetDefaultSort(userEmail) in SortOptions(hasSearchResults, GetDefaultSort(userEmail), userEmail.Some?, flags)
  {
  }

  // -------------------------------------------------------------- updateFilter

  /** The sort `updateFilter` asks for before writing the key: `best_match` when a search starts, the backup when it is cleared. */
  function RequestedSort(s: CatalogState, p: FilterParam): (r: Option<Sort>)
    ensures r == Some(BestMatch) <==> (p.SetSearch? && s.search == "" && p.search != "") || (p.SetSearch? && p.search == "" && s.search != "" && s.sortBackup == BestMatch)
    ensures r.Some? ==> p.SetSearch? && (s.search == "") != (p.search == "")
    ensures p.SetSearch? && p.search == "" && s.search != "" ==> r == Some(s.sortBackup)
  {
    if p.SetSearch? && s.search == "" && p.search != "" then Some(BestMatch)
    else if p.SetSearch? && p.search == "" && s.search != "" then Some(s.sortBackup)
    else None
  }

  /**
   * `updateFilter` as the state it leaves and the sort request it emits.
   * `found` stands for what the search index answers for the new search over
   * the softwares of the state.
   */
  function UpdateFilterSpec(s: CatalogState, p: FilterParam, found: seq<SearchResult>): (r: (CatalogState, Option<Sort>))
  {
    var req := RequestedSort(s, p);
    var s1 := if req.Some? then NotifyRequestChangeSort(s, req.value) else s;
    var s2 := FilterUpdated(s1, p);
    var s3 := if p.SetSearch? then SearchResultUpdated(s2, if p.search == "" then None else Some(found)) else s2;
    (s3, req)
  }

  /** The key is written; a new search replaces the results (none for an empty search); other keys leave them and make no request. */
  lemma {:induction false} UpdateFilterEffect(s: CatalogState, p: FilterParam, found: seq<SearchResult>)
    ensures var (r, req) := UpdateFilterSpec(s, p, found);
      && Current(r, KeyOf(p)) == p
      && (forall k | k != KeyOf(p) && k != SearchResultsKey :: Current(r, k) == Current(s, k))
      && r.softwares == s.softwares && r.userEmail == s.userEmail
      && (p.SetSearch? && p.search == "" ==> r.searchResults.None?)
      && (p.SetSearch? && p.search != "" ==> r.searchResults == Some(found))
      && (!p.SetSearch? ==> req.None? && r == FilterUpdated(s, p))
  {
    var req := RequestedSort(s, p);
    var s1 := if req.Some? then NotifyRequestChangeSort(s, req.value) else s;
    assert forall k :: Current(s1, k) == Current(s, k);
    var s2 := FilterUpdated(s1, p);
    if p.SetSearch? {
      var s3 := SearchResultUpdated(s2, if p.search == "" then None else Some(found));
      assert Current(s3, SearchKey) == Current(s2, SearchKey);
    }
  }

  /** Starting a search asks for `best_match` and keeps the sort in use as the backup. */
  lemma SearchStarted(s: CatalogState, search: string, found: seq<SearchResult>)
    requires s.search == "" && search != ""
    ensures var (r, req) := UpdateFilterSpec(s, SetSearch(search), found);
      && req == Some(BestMatch)
      && r.sort == s.sort
      && r.sortBackup == (if s.sort != BestMatch then s.sort else s.sortBackup)
      && r.search == search && r.searchResults == Some(found)
  {
  }

  /** Clearing the search asks for the backup sort, which is never `best_match`, and drops the results. */
  lemma SearchCleared(s: CatalogState, found: seq<SearchResult>)
    requires s.search != "" && s.sortBackup != BestMatch
    ensures var (r, req) := UpdateFilterSpec(s, SetSearch(""), found);
      && req == Some(s.sortBackup) && req != Some(BestMatch)
      && r.sortBackup == s.sortBackup && r.sort == s.sort
      && r.search == "" && r.searchResults.None?
  {
  }

  /** Changing a non-empty search keeps both sorts and makes no request. */
  lemma SearchRefined(s: CatalogState, search: string, found: seq<SearchResult>)
    requires s.search != "" && search != ""
    ensures var (r, req) := UpdateFilterSpec(s, SetSearch(search), found);
      req.None? && r.sort == s.sort && r.sortBackup == s.sortBackup && r.searchResults == Some(found)
  {
  }

  /**
   * `updateFilter` on the store: the dispatches in order. `found` is the
   * answer of the (memoised) search over the state's softwares.
   */
  method UpdateFilter(store: CatalogStore, p: FilterParam, found: seq<SearchResult>) returns (requested: Option<Sort>)
    requires store.Valid()
    modifies store
    ensures store.Valid()
    ensures (store.State(), requested) == UpdateFilterSpec(old(store.State()), p, found)
  {
    requested := None;
    if p.SetSearch? {
      var currentSearch := store.search;
      var sortBackup := store.sortBackup;
      if currentSearch == "" && p.search != "" {
        store.RequestChangeSort(BestMatch);
        requested := Some(BestMatch);
      }
      if p.search == "" && currentSearch != "" {
        store.RequestChangeSort(sortBackup);
        requested := Some(sortBackup);
      }
    }
    store.UpdateFilter(p);
    if p.SetSearch? {
      if p.search == "" {
        store.UpdateSearchResults(None);
      } else {
        store.UpdateSearchResults(Some(found));
      }
    }
  }

  // ---------------------------------------------- softwareInListToInternalSoftware

  /** A name of a list entry expanded for the search: "VSCodium" also answers to its upstream names. */
  function Expand(name: string): (r: seq<string>)
    ensures name in r
  {
    if name == "VSCodium" then ["vscode", "Visual Studio Code", "VSCodium"] else [name]
  }

  /** What a similar software contributes: its name when registered, else its label when that is truthy, else nothing. */
  function SimilarName(e: SimilarEntry): Option<string>
  {
    if e.softwareName.Some? then e.softwareName
    else if e.displayLabel.Some? && e.displayLabel.value != "" then e.displayLabel
    else None
  }

  function SimilarTerms(sims: seq<SimilarEntry>): (r: seq<string>)
    decreases |sims|
    ensures forall t :: t in r <==> exists i | 0 <= i < |sims| :: SimilarName(sims[i]).Some? && t in Expand(SimilarName(sims[i]).value)
  {
    if sims == [] then []
    else
      var n := |sims| - 1;
      var rest := SimilarTerms(sims[..n]);
      var own := match SimilarName(sims[n]) case None => [] case Some(name) => Expand(name);
      assert forall i | 0 <= i < n :: sims[..n][i] == sims[i];
      rest + own
  }

  /** The terms of the search string, in order, `undefined` dropped. */
  function Terms(s: Software): seq<string>
  {
    s.keywords + s.applicationCategories + [s.softwareDescription] + s.authors + SimilarTerms(s.similarSoftwares)
  }

  /** The `search` field: the name, then the terms joined by ", " in parentheses. */
  function SearchString(s: Software): string
  {
    s.softwareName + " (" + Join(", ", Terms(s)) + ")"
  }

  /** `softwareInListToInternalSoftware`: the entry with the user's declaration and its search string. */
  function ToInternal(s: Software, declaration: Option<UserDeclaration>): (r: Software)
    ensures r.search == Some(SearchString(s)) && r.userDeclaration == declaration
    ensures r.(search := s.search, userDeclaration := s.userDeclaration) == s
  {
    s.(userDeclaration := declaration, search := Some(SearchString(s)))
  }

  /** A string wrapped as `name (j)` keeps `name (` in front, `)` at the end and each part of `j` behind the prefix. */
  lemma Parenthesized(name: string, j: string, k: nat, len: nat)
    requires k + len <= |j|
    ensures var str := name + " (" + j + ")"; var o := |name| + 2 + k;
      && str[..|name| + 2] == name + " ("
      && str[|str| - 1] == ')'
      && o + len <= |str| && str[o..o + len] == j[k..k + len]
  {
    var str := name + " (" + j + ")";
    assert str == (name + " (") + j + ")";
  }

  /** The search string starts with the name and " (", ends with ")", and holds every term. */
  lemma SearchStringShape(s: Software, i: nat)
    requires i < |Terms(s)|
    ensures var str := SearchString(s); var t := Terms(s)[i];
      var o := |s.softwareName| + 2 + JoinOffset(", ", Terms(s), i);
      && str[..|s.softwareName| + 2] == s.softwareName + " ("
      && str[|str| - 1] == ')'
      && o + |t| <= |str| && str[o..o + |t|] == t
  {
    var ts := Terms(s);
    JoinHolds(", ", ts, i);
    Parenthesized(s.softwareName, Join(", ", ts), JoinOffset(", ", ts, i), |ts[i]|);
  }

  /** A similar software listed as "VSCodium" makes the entry answer to "vscode" and "Visual Studio Code" too. */
  lemma VSCodiumExpands(s: Software, k: nat)
    requires k < |s.similarSoftwares| && SimilarName(s.similarSoftwares[k]) == Some("VSCodium")
    ensures "vscode" in Terms(s) && "Visual Studio Code" in Terms(s) && "VSCodium" in Terms(s)
  {
    var ts := SimilarTerms(s.similarSoftwares);
    assert "vscode" in Expand("VSCodium") && "Visual Studio Code" in Expand("VSCodium");
    assert "vscode" in ts && "Visual Studio Code" in ts && "VSCodium" in ts;
  }

  /** A similar software with no name adds no term exactly when its label is absent or empty; otherwise it adds its label's expansion. */
  lemma UnnamedSimilarAddsNothing(sims: seq<SimilarEntry>, e: SimilarEntry)
    requires e.softwareName.None?
    ensures SimilarTerms(sims + [e]) == SimilarTerms(sims) <==> (e.displayLabel.None? || e.displayLabel.value == "")
    ensures e.displayLabel.Some? && e.displayLabel.value != "" ==>
      SimilarTerms(sims + [e]) == SimilarTerms(sims) + Expand(e.displayLabel.value)
  {
    assert (sims + [e])[..|sims|] == sims;
  }
}
