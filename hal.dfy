// `getArticleById` of the HAL adapter, up to the request: the curation of a
// HAL identifier that carries a version suffix, and the search query built
// from it. The fetch itself is not part of this model.
module Hal {
  import opened Strings

  /** The search endpoint of the HAL API, up to the identifier. */
  const SEARCH_BY_HAL_ID := "https://api.archives-ouvertes.fr/search/?q=halId_id:"

  /** The article fields the query asks for, in order. */
  const ARTICLE_FIELDS: seq<string> := ["en_title_s", "fr_title_s", "docid", "title_s"]

  /**
   * The identifier sent to the API: when the character before the last one
   * is "v", the id ends in a one-character version ("...v3") and the last
   * two characters are dropped.
   */
  function IdForApi(id: string): (r: string)
    ensures StartsWith(id, r) && |id| - 2 <= |r| <= |id|
    ensures r != id <==> |id| >= 2 && id[|id| - 2] == 'v'
  {
    if |id| >= 2 && id[|id| - 2] == 'v' then id[..|id| - 2] else id
  }

  /** The `fl=` list: the four fields joined by ",". */
  function FieldList(): string
  {
    Join(",", ARTICLE_FIELDS)
  }

  /** The query URL for an article id: the endpoint, the curated id, then the field list. */
  function Query(articleHalId: string): (r: string)
    ensures StartsWith(r, SEARCH_BY_HAL_ID + IdForApi(articleHalId))
    ensures EndsWith(r, "&fl=" + FieldList())
    ensures |r| == |SEARCH_BY_HAL_ID| + |IdForApi(articleHalId)| + |"&fl=" + FieldList()|
  {
    var head := SEARCH_BY_HAL_ID + IdForApi(articleHalId);
    var tail := "&fl=" + FieldList();
    var r := head + tail;
    assert r[..|head|] == head;
    assert r[|r| - |tail|..] == tail;
    r
  }

  /** The field list is the four field names separated by commas. */
  lemma FieldListFixed(xs: seq<string>)
    requires xs == ARTICLE_FIELDS
    ensures Join(",", xs) == "en_title_s,fr_title_s,docid,title_s"
  {
    assert xs[..3][..2][..1] == ["en_title_s"];
    assert Join(",", xs[..3][..2]) == "en_title_s" + "," + "fr_title_s";
    assert Join(",", xs[..3]) == "en_title_s" + "," + "fr_title_s" + "," + "docid";
    assert Join(",", xs) == "en_title_s" + "," + "fr_title_s" + "," + "docid" + "," + "title_s";
  }

  /** A one-character version after "v" is dropped. */
  lemma VersionDropped(base: string, d: char)
    ensures IdForApi(base + ['v', d]) == base
  {
    var id := base + ['v', d];
    assert id[|id| - 2] == 'v';
    assert id[..|id| - 2] == base;
  }

  /** An id whose character before the last is not "v" is sent as it is. */
  lemma UnversionedKept(id: string)
    requires |id| < 2 || id[|id| - 2] != 'v'
    ensures IdForApi(id) == id
  {
  }

  /** A two-digit version ("...v12") is not recognised and is kept. */
  lemma TwoDigitVersionKept(base: string, d1: char, d2: char)
    requires d1 != 'v'
    ensures IdForApi(base + ['v', d1, d2]) == base + ['v', d1, d2]
  {
    var id := base + ['v', d1, d2];
    assert id[|id| - 2] == d1;
  }

  /** Two ids give the same query exactly when they give the same curated id. */
  lemma {:induction false} QueryDeterminesId(a: string, b: string)
    ensures Query(a) == Query(b) <==> IdForApi(a) == IdForApi(b)
  {
    if Query(a) == Query(b) {
      var qa, qb := Query(a), Query(b);
      var n := |SEARCH_BY_HAL_ID|;
      var t := |"&fl=" + FieldList()|;
      assert |IdForApi(a)| == |IdForApi(b)|;
      assert qa[n..|qa| - t] == IdForApi(a);
      assert qb[n..|qb| - t] == IdForApi(b);
    }
  }

  /** Two versions of the same article give the same query as the bare id. */
  lemma VersionsShareQuery(base: string, d: char)
    requires |base| < 2 || base[|base| - 2] != 'v'
    ensures Query(base + ['v', d]) == Query(base)
  {
    VersionDropped(base, d);
  }
}
