// The software_external_datas repository (createPgSoftwareExternalDataRepository)
// as functions from the database before a call to the database after it.
module ExternalDataRepo {
  import opened Wrappers
  import opened ExternalData
  import opened Tables
  import Fusion

  // ---------------------------------------------------------------- saveMany

  /** One item of `saveMany`: the key, an optional link and the optional option fields. */
  datatype SaveItem = SaveItem(
    sourceSlug: string,
    externalId: string,
    softwareId: Option<nat>,
    displayLabel: Option<LocalizedString>,
    description: Option<LocalizedString>,
    isLibreSoftware: Option<bool>)

  function ItemKey(item: SaveItem): ExtKey
  {
    ExtKey(item.sourceSlug, item.externalId)
  }

  /** The row `saveMany` inserts: label and description default to "", developers to []; the other columns stay null. */
  function NewRow(item: SaveItem): ExternalData
  {
    ExternalData(
      item.externalId, item.sourceSlug, item.softwareId, None,
      Some(item.displayLabel.OrElse("")), Some(item.description.OrElse("")), item.isLibreSoftware,
      None, None, None, None, None, None, None,
      Some([]), None, None, None, None, None, None)
  }

  /** Insert-or-ignore of one row on the (sourceSlug, externalId) key. */
  function InsertOne(db: Db, item: SaveItem): Db
  {
    var k := ItemKey(item);
    if k in db.externalData then db
    else db.(externalData := db.externalData[k := NewRow(item)], extOrder := db.extOrder + [k])
  }

  /** The first item of `items` with key `k`: the one an insert-or-ignore keeps. */
  function FirstItem(items: seq<SaveItem>, k: ExtKey): Option<SaveItem>
    decreases |items|
  {
    if items == [] then None
    else
      var first := FirstItem(items[..|items| - 1], k);
      if first.Some? then first
      else if ItemKey(items[|items| - 1]) == k then Some(items[|items| - 1])
      else None
  }

  lemma {:induction false} FirstItemMeaning(items: seq<SaveItem>, k: ExtKey)
    decreases |items|
    ensures FirstItem(items, k).None? <==> forall i | 0 <= i < |items| :: ItemKey(items[i]) != k
    ensures FirstItem(items, k).Some? ==>
      exists i | 0 <= i < |items| ::
        && items[i] == FirstItem(items, k).value
        && ItemKey(items[i]) == k
        && forall j | 0 <= j < i :: ItemKey(items[j]) != k
  {
    if items != [] {
      var init := items[..|items| - 1];
      FirstItemMeaning(init, k);
      assert forall i | 0 <= i < |init| :: init[i] == items[i];
      if FirstItem(init, k).None? && ItemKey(items[|items| - 1]) == k {
        assert items[|items| - 1] == FirstItem(items, k).value;
      }
    }
  }

  /**
   * `saveMany`: inserts the items in order, each one only if its key is not
   * taken yet; a row that exists already is left untouched.
   */
  function InsertRows(db: Db, items: seq<SaveItem>): (r: Db)
    decreases |items|
    ensures r.sources == db.sources && r.softwares == db.softwares
    ensures r.nextSoftwareId == db.nextSoftwareId && r.similar == db.similar
    ensures forall k :: k in r.externalData <==> k in db.externalData || FirstItem(items, k).Some?
    ensures forall k | k in db.externalData :: k in r.externalData && r.externalData[k] == db.externalData[k]
    ensures forall k | k in r.externalData && k !in db.externalData ::
      FirstItem(items, k).Some? && r.externalData[k] == NewRow(FirstItem(items, k).value)
    ensures db.extOrder <= r.extOrder
    ensures Valid(db) ==> Valid(r)
  {
    if items == [] then db
    else
      var init := items[..|items| - 1];
      var prev := InsertRows(db, init);
      InsertOneFacts(db, prev, init, items[|items| - 1]);
      InsertOne(prev, items[|items| - 1])
  }

  /** The first item with a key, after one more item. */
  lemma FirstItemSnoc(init: seq<SaveItem>, last: SaveItem, k: ExtKey)
    ensures FirstItem(init + [last], k)
      == if FirstItem(init, k).Some? then FirstItem(init, k) else if ItemKey(last) == k then Some(last) else None
  {
    assert (init + [last])[..|init|] == init;
  }

  /** An insert-or-ignore keeps the tables valid. */
  lemma InsertOneValid(prev: Db, last: SaveItem)
    requires Valid(prev)
    ensures Valid(InsertOne(prev, last))
  {
    var k := ItemKey(last);
    if k !in prev.externalData {
      var r := InsertOne(prev, last);
      assert k !in prev.extOrder;
      forall i, j | 0 <= i < j < |r.extOrder| ensures r.extOrder[i] != r.extOrder[j] {
        if j == |r.extOrder| - 1 {
          assert r.extOrder[i] in prev.extOrder;
        } else {
          assert r.extOrder[i] == prev.extOrder[i] && r.extOrder[j] == prev.extOrder[j];
        }
      }
    }
  }

  /** The induction step of `InsertRows`. */
  lemma InsertOneFacts(db: Db, prev: Db, init: seq<SaveItem>, last: SaveItem)
    requires prev.sources == db.sources && prev.softwares == db.softwares
    requires prev.nextSoftwareId == db.nextSoftwareId && prev.similar == db.similar
    requires forall k :: k in prev.externalData <==> k in db.externalData || FirstItem(init, k).Some?
    requires forall k | k in db.externalData :: k in prev.externalData && prev.externalData[k] == db.externalData[k]
    requires forall k | k in prev.externalData && k !in db.externalData ::
      FirstItem(init, k).Some? && prev.externalData[k] == NewRow(FirstItem(init, k).value)
    requires db.extOrder <= prev.extOrder
    requires Valid(db) ==> Valid(prev)
    ensures var r := InsertOne(prev, last);
      && var items := init + [last];
      && items[..|items| - 1] == init
      && (forall k :: k in r.externalData <==> k in db.externalData || FirstItem(items, k).Some?)
      && (forall k | k in db.externalData :: k in r.externalData && r.externalData[k] == db.externalData[k])
      && (forall k | k in r.externalData && k !in db.externalData ::
            FirstItem(items, k).Some? && r.externalData[k] == NewRow(FirstItem(items, k).value))
      && db.extOrder <= r.extOrder
      && (Valid(db) ==> Valid(r))
  {
    var items := init + [last];
    assert items[..|items| - 1] == init;
    forall k ensures FirstItem(items, k)
      == if FirstItem(init, k).Some? then FirstItem(init, k) else if ItemKey(last) == k then Some(last) else None
    {
      FirstItemSnoc(init, last, k);
    }
    if Valid(db) {
      InsertOneValid(prev, last);
    }
  }

  /** `InsertRows` over one item more is one insert-or-ignore more. */
  lemma InsertRowsSnoc(db: Db, items: seq<SaveItem>, i: nat)
    requires i < |items|
    ensures InsertRows(db, items[..i + 1]) == InsertOne(InsertRows(db, items[..i]), items[i])
  {
    assert items[..i + 1][..i] == items[..i];
  }

  /** Saving a single item adds at most its own key, with the row built from the item. */
  lemma InsertSingle(db: Db, item: SaveItem)
    ensures var r := InsertRows(db, [item]);
      && ItemKey(item) in r.externalData
      && (forall k | k in r.externalData && k !in db.externalData ::
            k == ItemKey(item) && r.externalData[k] == NewRow(item))
  {
    assert [item][..0] == [];
    forall k ensures FirstItem([item], k) == (if k == ItemKey(item) then Some(item) else None) {
    }
  }

  /** Items whose keys are new get exactly the saveMany defaults. */
  lemma SaveManyDefaults(db: Db, items: seq<SaveItem>, k: ExtKey)
    requires k !in db.externalData && k in InsertRows(db, items).externalData
    ensures var row := InsertRows(db, items).externalData[k];
      && FirstItem(items, k).Some?
      && var item := FirstItem(items, k).value;
      && KeyOf(row) == k
      && row.softwareId == item.softwareId
      && row.displayLabel == Some(item.displayLabel.OrElse(""))
      && row.description == Some(item.description.OrElse(""))
      && row.isLibreSoftware == item.isLibreSoftware
      && row.developers == Some([])
      && row.lastDataFetchAt.None? && row.logoUrl.None? && row.identifiers.None? && row.keywords.None?
  {
    var item := FirstItem(items, k).value;
    FirstItemMeaning(items, k);
  }

  /** Saving the same items twice changes nothing the second time. */
  lemma {:induction false} SaveManyIdempotent(db: Db, items: seq<SaveItem>)
    requires Valid(db)
    ensures InsertRows(InsertRows(db, items), items) == InsertRows(db, items)
  {
    var r := InsertRows(db, items);
    InsertAllPresent(r, items);
  }

  /** Inserting items whose keys are all present is the identity. */
  lemma {:induction false} InsertAllPresent(db: Db, items: seq<SaveItem>)
    requires forall k :: FirstItem(items, k).Some? ==> k in db.externalData
    decreases |items|
    ensures InsertRows(db, items) == db
  {
    if items != [] {
      var init := items[..|items| - 1];
      forall k | FirstItem(init, k).Some?
        ensures k in db.externalData
      {
        assert FirstItem(items, k).Some?;
      }
      InsertAllPresent(db, init);
      var last := items[|items| - 1];
      FirstItemMeaning(items, ItemKey(last));
      assert FirstItem(items, ItemKey(last)).Some?;
    }
  }

  // ------------------------------------------------------------------ update

  /**
   * The descriptive columns of `data` that are defined replace the stored ones;
   * the undefined ones are dropped from the SET list and stay as they are.
   */
  function Overlay(row: ExternalData, data: ExternalData): ExternalData
  {
    row.(
      displayLabel := Fusion.PickScalar(row.displayLabel, data.displayLabel),
      description := Fusion.PickScalar(row.description, data.description),
      isLibreSoftware := Fusion.PickScalar(row.isLibreSoftware, data.isLibreSoftware),
      logoUrl := Fusion.PickScalar(row.logoUrl, data.logoUrl),
      websiteUrl := Fusion.PickScalar(row.websiteUrl, data.websiteUrl),
      sourceUrl := Fusion.PickScalar(row.sourceUrl, data.sourceUrl),
      documentationUrl := Fusion.PickScalar(row.documentationUrl, data.documentationUrl),
      license := Fusion.PickScalar(row.license, data.license),
      softwareVersion := Fusion.PickScalar(row.softwareVersion, data.softwareVersion),
      publicationTime := Fusion.PickScalar(row.publicationTime, data.publicationTime),
      developers := Fusion.PickScalar(row.developers, data.developers),
      keywords := Fusion.PickScalar(row.keywords, data.keywords),
      programmingLanguages := Fusion.PickScalar(row.programmingLanguages, data.programmingLanguages),
      applicationCategories := Fusion.PickScalar(row.applicationCategories, data.applicationCategories),
      referencePublications := Fusion.PickScalar(row.referencePublications, data.referencePublications),
      identifiers := Fusion.PickScalar(row.identifiers, data.identifiers),
      providers := Fusion.PickScalar(row.providers, data.providers))
  }

  /** `data` defines none of the descriptive columns. */
  predicate NoColumns(data: ExternalData)
  {
    && data.displayLabel.None?
    && data.description.None?
    && data.isLibreSoftware.None?
    && data.logoUrl.None?
    && data.websiteUrl.None?
    && data.sourceUrl.None?
    && data.documentationUrl.None?
    && data.license.None?
    && data.softwareVersion.None?
    && data.publicationTime.None?
    && data.developers.None?
    && data.keywords.None?
    && data.programmingLanguages.None?
    && data.applicationCategories.None?
    && data.referencePublications.None?
    && data.identifiers.None?
    && data.providers.None?
  }

  /** `data` defines every descriptive column. */
  predicate AllColumns(data: ExternalData)
  {
    && data.displayLabel.Some?
    && data.description.Some?
    && data.isLibreSoftware.Some?
    && data.logoUrl.Some?
    && data.websiteUrl.Some?
    && data.sourceUrl.Some?
    && data.documentationUrl.Some?
    && data.license.Some?
    && data.softwareVersion.Some?
    && data.publicationTime.Some?
    && data.developers.Some?
    && data.keywords.Some?
    && data.programmingLanguages.Some?
    && data.applicationCategories.Some?
    && data.referencePublications.Some?
    && data.identifiers.Some?
    && data.providers.Some?
  }

  /**
   * An overlay keeps the key, the link and the fetch time of the row; it keeps
   * the whole row when `data` defines no column and takes every descriptive
   * column of `data` when it defines them all; writing the same data twice has
   * the effect of once.
   */
  lemma OverlayMeaning(row: ExternalData, data: ExternalData)
    ensures var r := Overlay(row, data);
      && r.externalId == row.externalId && r.sourceSlug == row.sourceSlug
      && r.softwareId == row.softwareId && r.lastDataFetchAt == row.lastDataFetchAt
      && (NoColumns(data) ==> r == row)
      && (AllColumns(data) ==> r == data.(externalId := row.externalId, sourceSlug := row.sourceSlug,
                                          softwareId := row.softwareId, lastDataFetchAt := row.lastDataFetchAt))
      && Overlay(r, data) == r
  {
  }

  /**
   * `update`: rewrites the row with key `k`; `softwareId` and `lastDataFetchAt`
   * are written as given, so an omitted one becomes null. A missing key matches
   * no row.
   */
  function Update(db: Db, k: ExtKey, softwareId: Option<nat>, lastDataFetchAt: Option<int>, data: ExternalData): (r: Db)
    ensures k !in db.externalData ==> r == db
    ensures r.externalData.Keys == db.externalData.Keys && r.extOrder == db.extOrder
    ensures r.sources == db.sources && r.softwares == db.softwares
    ensures r.nextSoftwareId == db.nextSoftwareId && r.similar == db.similar
    ensures forall k' | k' in db.externalData && k' != k :: r.externalData[k'] == db.externalData[k']
    ensures k in db.externalData ==>
      && r.externalData[k].softwareId == softwareId
      && r.externalData[k].lastDataFetchAt == lastDataFetchAt
      && KeyOf(r.externalData[k]) == KeyOf(db.externalData[k])
    ensures k in db.externalData ==>
      r.externalData[k] == Overlay(db.externalData[k], data).(softwareId := softwareId, lastDataFetchAt := lastDataFetchAt)
    ensures Valid(db) ==> Valid(r)
  {
    if k !in db.externalData then db
    else
      var row := Overlay(db.externalData[k], data).(softwareId := softwareId, lastDataFetchAt := lastDataFetchAt);
      db.(externalData := db.externalData[k := row])
  }

  /** Updating a row with its own data only sets the link and the fetch time. */
  lemma UpdateWithOwnData(db: Db, k: ExtKey, softwareId: Option<nat>, lastDataFetchAt: Option<int>)
    requires k in db.externalData
    ensures Update(db, k, softwareId, lastDataFetchAt, db.externalData[k]).externalData[k]
      == db.externalData[k].(softwareId := softwareId, lastDataFetchAt := lastDataFetchAt)
  {
  }

  /** The same update applied twice has the effect of one. */
  lemma UpdateIdempotent(db: Db, k: ExtKey, softwareId: Option<nat>, lastDataFetchAt: Option<int>, data: ExternalData)
    ensures var once := Update(db, k, softwareId, lastDataFetchAt, data);
      Update(once, k, softwareId, lastDataFetchAt, data) == once
  {
  }

  // -------------------------------------------------------------------- save

  /** A row with only its key set. */
  function Blank(k: ExtKey): ExternalData
  {
    ExternalData(k.externalId, k.sourceSlug, None, None, None, None, None, None, None, None, None, None, None, None,
                 None, None, None, None, None, None, None)
  }

  /**
   * `save`: upsert of `data` on its key. A new row gets the defined columns of
   * `data` and `softwareId`; an existing row gets the defined columns of `data`
   * written over it and keeps its link when `softwareId` is undefined.
   * `data.softwareId` and `data.lastDataFetchAt` are not columns of the
   * argument's type and are ignored.
   */
  function Save(db: Db, data: ExternalData, softwareId: Option<nat>): (r: Db)
    ensures KeyOf(data) in r.externalData
    ensures r.externalData.Keys == db.externalData.Keys + {KeyOf(data)}
    ensures forall k | k in db.externalData && k != KeyOf(data) :: r.externalData[k] == db.externalData[k]
    ensures KeyOf(data) !in db.externalData ==>
      r.externalData[KeyOf(data)] == data.(softwareId := softwareId, lastDataFetchAt := None)
    ensures KeyOf(data) in db.externalData ==>
      && r.externalData[KeyOf(data)].softwareId == Fusion.PickScalar(db.externalData[KeyOf(data)].softwareId, softwareId)
      && r.externalData[KeyOf(data)].lastDataFetchAt == db.externalData[KeyOf(data)].lastDataFetchAt
      && r.externalData[KeyOf(data)].(softwareId := None)
         == Overlay(db.externalData[KeyOf(data)], data).(softwareId := None)
    ensures r.sources == db.sources && r.softwares == db.softwares
    ensures r.nextSoftwareId == db.nextSoftwareId && r.similar == db.similar
  {
    var k := KeyOf(data);
    if k in db.externalData then
      var old_ := db.externalData[k];
      var row := Overlay(old_, data).(softwareId := Fusion.PickScalar(old_.softwareId, softwareId));
      db.(externalData := db.externalData[k := row])
    else
      var row := Overlay(Blank(k), data).(softwareId := softwareId);
      db.(externalData := db.externalData[k := row], extOrder := db.extOrder + [k])
  }

  /** `save` keeps the tables valid. */
  lemma SaveValid(db: Db, data: ExternalData, softwareId: Option<nat>)
    requires Valid(db)
    ensures Valid(Save(db, data, softwareId))
  {
    var k := KeyOf(data);
    var r := Save(db, data, softwareId);
    if k !in db.externalData {
      assert k !in db.extOrder;
      forall i, j | 0 <= i < j < |r.extOrder| ensures r.extOrder[i] != r.extOrder[j] {
        if j == |r.extOrder| - 1 {
          assert r.extOrder[i] in db.extOrder;
        } else {
          assert r.extOrder[i] == db.extOrder[i] && r.extOrder[j] == db.extOrder[j];
        }
      }
    }
  }

  /** A row that `save` wrote is not changed by writing the same record over it again. */
  lemma SaveRowTwice(o: ExternalData, data: ExternalData, softwareId: Option<nat>)
    ensures var row := Overlay(o, data).(softwareId := Fusion.PickScalar(o.softwareId, softwareId));
      Overlay(row, data).(softwareId := Fusion.PickScalar(row.softwareId, softwareId)) == row
  {
  }

  /** Saving the same record twice has the effect of saving it once. */
  lemma SaveIdempotent(db: Db, data: ExternalData, softwareId: Option<nat>)
    ensures Save(Save(db, data, softwareId), data, softwareId) == Save(db, data, softwareId)
  {
    var k := KeyOf(data);
    var once := Save(db, data, softwareId);
    var o := if k in db.externalData then db.externalData[k] else Blank(k);
    SaveRowTwice(o, data, softwareId);
    var row := once.externalData[k];
    assert row == Overlay(o, data).(softwareId := Fusion.PickScalar(o.softwareId, softwareId));
    assert once.externalData[k := row] == once.externalData;
    assert Save(once, data, softwareId) == once.(externalData := once.externalData[k := row]);
  }

  // ------------------------------------------------------------------ getIds

  /** A row still to refresh: never fetched, or fetched strictly before `threshold`. */
  predicate Stale(row: ExternalData, threshold: int)
  {
    row.lastDataFetchAt.None? || row.lastDataFetchAt.value < threshold
  }

  /** The keys of `order` whose rows are stale, in order. */
  function StaleKeys(order: seq<ExtKey>, rows: map<ExtKey, ExternalData>, threshold: int): (r: seq<ExtKey>)
    decreases |order|
    ensures forall k :: k in r <==> k in order && k in rows && Stale(rows[k], threshold)
    ensures Distinct(order) ==> Distinct(r)
  {
    if order == [] then []
    else
      var init := order[..|order| - 1];
      var k := order[|order| - 1];
      assert forall x :: x in order <==> x in init || x == k;
      var rest := StaleKeys(init, rows, threshold);
      if k in rows && Stale(rows[k], threshold) then rest + [k] else rest
  }

  /**
   * `getIds`: every key when `minuteSkipSince` is undefined or 0; otherwise the
   * keys whose rows were not fetched since `now - minuteSkipSince` minutes.
   */
  function GetIds(db: Db, minuteSkipSince: Option<int>, now: int): (r: seq<ExtKey>)
    ensures Valid(db) && (minuteSkipSince.None? || minuteSkipSince.value == 0) ==>
      (forall k :: k in r <==> k in db.externalData)
    ensures Valid(db) && minuteSkipSince.Some? && minuteSkipSince.value != 0 ==>
      (forall k :: k in r <==>
         k in db.externalData && Stale(db.externalData[k], now - minuteSkipSince.value * 60000))
    ensures Valid(db) ==> Distinct(r)
  {
    if minuteSkipSince.None? || minuteSkipSince.value == 0 then db.extOrder
    else StaleKeys(db.extOrder, db.externalData, now - minuteSkipSince.value * 60000)
  }

  // ------------------------------------------------------------------ delete

  function RemoveKey(order: seq<ExtKey>, k: ExtKey): (r: seq<ExtKey>)
    decreases |order|
    ensures forall x :: x in r <==> x in order && x != k
    ensures Distinct(order) ==> Distinct(r)
  {
    if order == [] then []
    else
      var init := order[..|order| - 1];
      var last := order[|order| - 1];
      assert forall x :: x in order <==> x in init || x == last;
      var rest := RemoveKey(init, k);
      assert Distinct(order) ==> Distinct(init) && last !in init by {
        if Distinct(order) {
          assert forall i | 0 <= i < |init| :: init[i] == order[i];
        }
      }
      if last == k then rest else rest + [last]
  }

  function DeleteRow(db: Db, k: ExtKey): (r: Db)
    ensures r.externalData == db.externalData - {k}
    ensures r.sources == db.sources && r.softwares == db.softwares
    ensures r.nextSoftwareId == db.nextSoftwareId && r.similar == db.similar
    ensures Valid(db) ==> Valid(r)
  {
    db.(externalData := db.externalData - {k}, extOrder := RemoveKey(db.extOrder, k))
  }

  /** `delete` as written: the result is the length of Kysely's result list, which holds one entry per statement. */
  function DeleteAsWritten(db: Db, k: ExtKey): (r: (Db, bool))
    ensures r.0.externalData == db.externalData - {k}
    ensures r.0.sources == db.sources && r.0.softwares == db.softwares && r.0.similar == db.similar
    ensures r.1
  {
    (DeleteRow(db, k), true)
  }

  /** A delete of a missing key reports success. */
  lemma DeleteAsWrittenMissingKey(db: Db, k: ExtKey)
    requires k !in db.externalData
    ensures DeleteAsWritten(db, k).0 == DeleteRow(db, k)
    ensures DeleteAsWritten(db, k).1
  {
  }

  /** `delete`: removes the row and tells whether a row was removed. */
  function Delete(db: Db, k: ExtKey): (r: (Db, bool))
    ensures r.0.externalData == db.externalData - {k}
    ensures r.0.sources == db.sources && r.0.softwares == db.softwares && r.0.similar == db.similar
    ensures forall x :: x in r.0.extOrder <==> x in db.extOrder && x != k
    ensures r.1 <==> |r.0.externalData| == |db.externalData| - 1
  {
    MapRemoveSize(db.externalData, k);
    (DeleteRow(db, k), k in db.externalData)
  }

  /** The flag of `Delete` is exactly "the table lost a row". */
  lemma DeleteReportsRemoval(db: Db, k: ExtKey)
    ensures var (r, deleted) := Delete(db, k);
      && (deleted <==> |r.externalData| == |db.externalData| - 1)
      && (!deleted ==> r.externalData == db.externalData)
  {
    MapRemoveSize(db.externalData, k);
  }

  /** Removing a key shrinks a map by one exactly when the key was there. */
  lemma MapRemoveSize<K, V>(m: map<K, V>, k: K)
    ensures k in m ==> |m - {k}| == |m| - 1
    ensures k !in m ==> m - {k} == m
  {
    if k in m {
      assert m.Keys == (m - {k}).Keys + {k};
      assert |m.Keys| == |(m - {k}).Keys| + 1;
    }
  }

  // ------------------------------------------------ getOtherIdentifierIdsBySourceURL

  /**
   * The rows the identifier scan reads, in table order: the left join with
   * sources keeps a row only when its source exists and has another URL.
   */
  function ScanRows(db: Db, order: seq<ExtKey>, sourceURL: string): (r: seq<ExternalData>)
    decreases |order|
  {
    if order == [] then []
    else
      var rest := ScanRows(db, order[..|order| - 1], sourceURL);
      var k := order[|order| - 1];
      if k in db.externalData && InScan(db, db.externalData[k], sourceURL) then rest + [db.externalData[k]]
      else rest
  }

  predicate InScan(db: Db, row: ExternalData, sourceURL: string)
  {
    row.sourceSlug in db.sources && db.sources[row.sourceSlug].url != sourceURL
  }

  /** A row with a non-empty identifier list and a truthy software id. */
  predicate Eligible(row: ExternalData)
  {
    row.identifiers.Some? && |row.identifiers.value| > 0 && TruthyId(row.softwareId)
  }

  /** The identifiers issued by the catalogue at `url`, in order. */
  function Matches(ids: seq<Identifier>, url: string): (r: seq<Identifier>)
    decreases |ids|
    ensures forall x :: x in r <==> x in ids && x.subjectOfUrl == Some(url)
    ensures |r| <= |ids|
  {
    if ids == [] then []
    else
      var rest := Matches(ids[..|ids| - 1], url);
      var x := ids[|ids| - 1];
      assert forall y :: y in ids <==> y in ids[..|ids| - 1] || y == x;
      if x.subjectOfUrl == Some(url) then rest + [x] else rest
  }

  /**
   * The reduce of getOtherIdentifierIdsBySourceURL over `rows`: each eligible
   * row maps the value of its first identifier from `url` to its software id.
   * `normalized` is `new URL(sourceURL).toString()`, `None` when that throws;
   * a row with more than `limit` matches throws.
   */
  function IndexRows(rows: seq<ExternalData>, normalized: Option<string>, limit: nat): (r: Result<map<string, nat>, Failure>)
    decreases |rows|
    ensures r.Ok? && normalized.None? ==> r.value == map[]
    ensures r.Ok? ==> forall key | key in r.value :: r.value[key] != 0
  {
    if rows == [] then Ok(map[])
    else
      var acc := IndexRows(rows[..|rows| - 1], normalized, limit);
      var row := rows[|rows| - 1];
      if acc.Err? || !Eligible(row) then acc
      else if normalized.None? then Err(InvalidUrl)
      else
        var found := Matches(row.identifiers.value, normalized.value);
        if |found| == 0 then acc
        else if |found| > limit then Err(DatabaseCorrupted)
        else Ok(acc.value[found[0].value := row.softwareId.value])
  }

  /** The value of the first identifier of `row` issued by `url`. */
  function FirstMatch(row: ExternalData, url: string): Option<string>
  {
    if row.identifiers.None? then None
    else
      var found := Matches(row.identifiers.value, url);
      if |found| == 0 then None else Some(found[0].value)
  }

  /** Reference definition: the software id of the last eligible row whose first match is `key`. */
  function LastLinkFor(rows: seq<ExternalData>, url: string, key: string): (r: Option<nat>)
    decreases |rows|
    ensures r.Some? ==> r.value != 0
  {
    if rows == [] then None
    else
      var row := rows[|rows| - 1];
      if Eligible(row) && FirstMatch(row, url) == Some(key) then Some(row.softwareId.value)
      else LastLinkFor(rows[..|rows| - 1], url, key)
  }

  /** A successful scan maps exactly the matched keys, each to the last row that matched it. */
  lemma {:induction false} IndexRowsMeaning(rows: seq<ExternalData>, url: string, limit: nat)
    requires IndexRows(rows, Some(url), limit).Ok?
    decreases |rows|
    ensures var m := IndexRows(rows, Some(url), limit).value;
      forall key :: (key in m <==> LastLinkFor(rows, url, key).Some?)
                 && (key in m ==> m[key] == LastLinkFor(rows, url, key).value)
  {
    if rows != [] {
      IndexRowsMeaning(rows[..|rows| - 1], url, limit);
    }
  }

  /** Rows whose match count the scan rejects (or every eligible row when the URL does not parse). */
  predicate Rejected(row: ExternalData, normalized: Option<string>, limit: nat)
  {
    Eligible(row) && (normalized.None? || |Matches(row.identifiers.value, normalized.value)| > limit)
  }

  /** The scan fails exactly when some row is rejected, with the error of the URL when it does not parse. */
  lemma {:induction false} IndexRowsFails(rows: seq<ExternalData>, normalized: Option<string>, limit: nat)
    decreases |rows|
    ensures IndexRows(rows, normalized, limit).Err? <==>
      exists i | 0 <= i < |rows| :: Rejected(rows[i], normalized, limit)
    ensures IndexRows(rows, normalized, limit).Err? ==>
      IndexRows(rows, normalized, limit).error == (if normalized.None? then InvalidUrl else DatabaseCorrupted)
  {
    if rows != [] {
      var init := rows[..|rows| - 1];
      IndexRowsFails(init, normalized, limit);
      assert forall i | 0 <= i < |init| :: init[i] == rows[i];
      if exists i | 0 <= i < |init| :: Rejected(init[i], normalized, limit) {
        var i :| 0 <= i < |init| && Rejected(init[i], normalized, limit);
        assert Rejected(rows[i], normalized, limit);
      }
    }
  }

  /** Once the scan has thrown, the remaining rows do not change the outcome. */
  lemma {:induction false} IndexRowsErrSticks(rows: seq<ExternalData>, n: nat, normalized: Option<string>, limit: nat)
    requires n <= |rows| && IndexRows(rows[..n], normalized, limit).Err?
    decreases |rows|
    ensures IndexRows(rows, normalized, limit) == IndexRows(rows[..n], normalized, limit)
  {
    if n < |rows| {
      var init := rows[..|rows| - 1];
      assert init[..n] == rows[..n];
      IndexRowsErrSticks(init, n, normalized, limit);
    } else {
      assert rows[..n] == rows;
    }
  }

  /** Rows that agree on the keys of `order` scan the same. */
  lemma {:induction false} ScanSameRows(db: Db, db1: Db, order: seq<ExtKey>, sourceURL: string)
    requires db1.sources == db.sources
    requires forall k | k in order :: k in db.externalData && k in db1.externalData && db1.externalData[k] == db.externalData[k]
    decreases |order|
    ensures ScanRows(db1, order, sourceURL) == ScanRows(db, order, sourceURL)
  {
    if order != [] {
      ScanSameRows(db, db1, order[..|order| - 1], sourceURL);
    }
  }

  /** Appending keys of unlinked rows to the scan leaves the identifier index as it was. */
  lemma {:induction false} ScanExtendUnlinked(db: Db, order: seq<ExtKey>, extra: seq<ExtKey>, sourceURL: string,
                                              normalized: Option<string>, limit: nat)
    requires forall k | k in extra && k in db.externalData :: db.externalData[k].softwareId.None?
    decreases |extra|
    ensures IndexRows(ScanRows(db, order + extra, sourceURL), normalized, limit)
         == IndexRows(ScanRows(db, order, sourceURL), normalized, limit)
  {
    if extra != [] {
      var init := extra[..|extra| - 1];
      assert (order + extra)[..|order + extra| - 1] == order + init;
      ScanExtendUnlinked(db, order, init, sourceURL, normalized, limit);
      var rest := ScanRows(db, order + init, sourceURL);
      var k := extra[|extra| - 1];
      if k in db.externalData && InScan(db, db.externalData[k], sourceURL) {
        assert (rest + [db.externalData[k]])[..|rest|] == rest;
      }
    } else {
      assert order + extra == order;
    }
  }

  /**
   * The identifier scan ignores rows that are not linked to a software: a
   * database that only gained such rows answers as before.
   */
  lemma ScanIgnoresUnlinkedRows(db: Db, db1: Db, sourceURL: string, normalize: string -> Option<string>)
    requires Valid(db) && Valid(db1)
    requires db1.sources == db.sources && db.extOrder <= db1.extOrder
    requires forall k | k in db.externalData :: k in db1.externalData && db1.externalData[k] == db.externalData[k]
    requires forall k | k in db1.externalData && k !in db.externalData :: db1.externalData[k].softwareId.None?
    ensures OtherIdentifierIds(db1, sourceURL, normalize) == OtherIdentifierIds(db, sourceURL, normalize)
  {
    var p := db.extOrder;
    var extra := db1.extOrder[|p|..];
    assert db1.extOrder == p + extra;
    forall k | k in extra && k in db1.externalData ensures db1.externalData[k].softwareId.None? {
      var j :| 0 <= j < |extra| && extra[j] == k;
      assert db1.extOrder[|p| + j] == k;
    }
    ScanExtendUnlinked(db1, p, extra, sourceURL, normalize(sourceURL), 1);
    ScanSameRows(db, db1, p, sourceURL);
  }

  /** `getOtherIdentifierIdsBySourceURL` as written: a row is corrupt only with more than two matches. */
  function OtherIdentifierIdsAsWritten(db: Db, sourceURL: string, normalize: string -> Option<string>): (r: Result<map<string, nat>, Failure>)
    ensures var rows := ScanRows(db, db.extOrder, sourceURL);
      r.Err? <==> exists i | 0 <= i < |rows| :: Rejected(rows[i], normalize(sourceURL), 2)
    ensures r.Err? ==> r.error == (if normalize(sourceURL).None? then InvalidUrl else DatabaseCorrupted)
    ensures r.Ok? && normalize(sourceURL).Some? ==>
      forall key :: key in r.value <==> LastLinkFor(ScanRows(db, db.extOrder, sourceURL), normalize(sourceURL).value, key).Some?
  {
    var rows := ScanRows(db, db.extOrder, sourceURL);
    IndexRowsFails(rows, normalize(sourceURL), 2);
    assert IndexRows(rows, normalize(sourceURL), 2).Ok? && normalize(sourceURL).Some? ==>
      forall key :: key in IndexRows(rows, normalize(sourceURL), 2).value <==> LastLinkFor(rows, normalize(sourceURL).value, key).Some?
    by {
      if IndexRows(rows, normalize(sourceURL), 2).Ok? && normalize(sourceURL).Some? {
        IndexRowsMeaning(rows, normalize(sourceURL).value, 2);
      }
    }
    IndexRows(rows, normalize(sourceURL), 2)
  }

  /** `getOtherIdentifierIdsBySourceURL` with the check the error message describes: at most one match per row. */
  function OtherIdentifierIds(db: Db, sourceURL: string, normalize: string -> Option<string>): (r: Result<map<string, nat>, Failure>)
    ensures var rows := ScanRows(db, db.extOrder, sourceURL);
      r.Err? <==> exists i | 0 <= i < |rows| :: Rejected(rows[i], normalize(sourceURL), 1)
    ensures r.Err? ==> r.error == (if normalize(sourceURL).None? then InvalidUrl else DatabaseCorrupted)
    ensures r.Ok? && normalize(sourceURL).Some? ==>
      forall key :: key in r.value <==> LastLinkFor(ScanRows(db, db.extOrder, sourceURL), normalize(sourceURL).value, key).Some?
    ensures r.Ok? ==> forall key | key in r.value :: r.value[key] != 0
  {
    var rows := ScanRows(db, db.extOrder, sourceURL);
    IndexRowsFails(rows, normalize(sourceURL), 1);
    assert IndexRows(rows, normalize(sourceURL), 1).Ok? && normalize(sourceURL).Some? ==>
      forall key :: key in IndexRows(rows, normalize(sourceURL), 1).value <==> LastLinkFor(rows, normalize(sourceURL).value, key).Some?
    by {
      if IndexRows(rows, normalize(sourceURL), 1).Ok? && normalize(sourceURL).Some? {
        IndexRowsMeaning(rows, normalize(sourceURL).value, 1);
      }
    }
    IndexRows(rows, normalize(sourceURL), 1)
  }

  /** A row holding two identifiers from the same catalogue. */
  function TwoFromOneCatalogue(url: string): ExternalData
  {
    Blank(ExtKey("wikidata", "Q1")).(
      softwareId := Some(1),
      identifiers := Some([Identifier("a", Some(url)), Identifier("b", Some(url))]))
  }

  /** The limit of two lets a row with two identifiers from one catalogue through; a limit of one rejects it. */
  lemma TwoMatchesAccepted(url: string)
    ensures IndexRows([TwoFromOneCatalogue(url)], Some(url), 2) == Ok(map["a" := 1])
    ensures IndexRows([TwoFromOneCatalogue(url)], Some(url), 1) == Err(DatabaseCorrupted)
  {
    var row := TwoFromOneCatalogue(url);
    var ids := row.identifiers.value;
    var a, b := Identifier("a", Some(url)), Identifier("b", Some(url));
    assert ids == [a, b];
    assert ids[..1] == [a] && [a][..0] == [];
    assert Matches([], url) == [];
    assert Matches([a], url) == [a];
    assert Matches(ids, url) == [a, b];
    assert Eligible(row);
    assert [row][..0] == [];
    assert IndexRows([], Some(url), 2) == Ok(map[]);
    assert IndexRows([], Some(url), 1) == Ok(map[]);
  }

  // --------------------------------------------------------- getMergedForAllSoftwares

  /** The rows linked to `id` whose source exists, joined with their source, in table order. */
  function LinkedRows(db: Db, order: seq<ExtKey>, id: nat): (r: seq<Populated>)
    decreases |order|
    ensures |r| <= |order|
    ensures forall p | p in r :: Linked(db, p.data, id) && p == Populate(p.data, db.sources[p.data.sourceSlug])
    ensures forall p | p in r :: exists k | k in order && k in db.externalData :: db.externalData[k] == p.data
    ensures forall k | k in order && k in db.externalData && Linked(db, db.externalData[k], id) ::
      Populate(db.externalData[k], db.sources[db.externalData[k].sourceSlug]) in r
  {
    if order == [] then []
    else
      assert forall x :: x in order <==> x in order[..|order| - 1] || x == order[|order| - 1];
      var rest := LinkedRows(db, order[..|order| - 1], id);
      var k := order[|order| - 1];
      if k in db.externalData && Linked(db, db.externalData[k], id)
      then rest + [Populate(db.externalData[k], db.sources[db.externalData[k].sourceSlug])]
      else rest
  }

  predicate Linked(db: Db, row: ExternalData, id: nat)
  {
    row.softwareId == Some(id) && row.sourceSlug in db.sources
  }

  /** The software ids with at least one linked row whose source exists. */
  function LinkedIds(db: Db): set<nat>
  {
    set k | k in db.externalData && db.externalData[k].softwareId.Some? && db.externalData[k].sourceSlug in db.sources
      :: db.externalData[k].softwareId.value
  }

  lemma {:induction false} LinkedRowsNonEmpty(db: Db, order: seq<ExtKey>, id: nat)
    decreases |order|
    ensures LinkedRows(db, order, id) != [] ==> id in LinkedIds(db)
    ensures ((forall k | k in order :: k in db.externalData) && id in LinkedIds(db)
             && (forall k | k in db.externalData :: k in order)) ==> LinkedRows(db, order, id) != []
  {
    if order != [] {
      var init := order[..|order| - 1];
      var k := order[|order| - 1];
      LinkedRowsNonEmpty(db, init, id);
      if k in db.externalData && Linked(db, db.externalData[k], id) {
        assert db.externalData[k].softwareId.value == id;
      }
      if (forall k | k in order :: k in db.externalData) && id in LinkedIds(db)
         && (forall k | k in db.externalData :: k in order) && LinkedRows(db, init, id) == [] {
        LinkedRowsEmpty(db, order, id);
      }
    }
  }

  /** The group of a software is empty exactly when no key of the scan holds a row linked to it. */
  lemma {:induction false} LinkedRowsEmpty(db: Db, order: seq<ExtKey>, id: nat)
    decreases |order|
    ensures LinkedRows(db, order, id) == [] <==>
      forall k | k in order && k in db.externalData :: !Linked(db, db.externalData[k], id)
  {
    if order != [] {
      LinkedRowsEmpty(db, order[..|order| - 1], id);
      assert forall x :: x in order <==> x in order[..|order| - 1] || x == order[|order| - 1];
    }
  }

  /** Scanning two runs of keys one after the other gives the two groups one after the other. */
  lemma {:induction false} LinkedRowsAppend(db: Db, a: seq<ExtKey>, b: seq<ExtKey>, id: nat)
    decreases |b|
    ensures LinkedRows(db, a + b, id) == LinkedRows(db, a, id) + LinkedRows(db, b, id)
  {
    if b == [] {
      assert a + b == a;
    } else {
      var b' := b[..|b| - 1];
      assert (a + b)[..|a + b| - 1] == a + b';
      assert (a + b)[|a + b| - 1] == b[|b| - 1];
      LinkedRowsAppend(db, a, b', id);
    }
  }

  /** Two linked rows come out in the order of their keys in the scan. */
  lemma LinkedRowsOrder(db: Db, order: seq<ExtKey>, id: nat, i: nat, j: nat)
    requires i < j < |order|
    requires order[i] in db.externalData && Linked(db, db.externalData[order[i]], id)
    requires order[j] in db.externalData && Linked(db, db.externalData[order[j]], id)
    ensures var r := LinkedRows(db, order, id);
      exists p, q | 0 <= p < q < |r| ::
        && r[p] == Populate(db.externalData[order[i]], db.sources[db.externalData[order[i]].sourceSlug])
        && r[q] == Populate(db.externalData[order[j]], db.sources[db.externalData[order[j]].sourceSlug])
  {
    var a, c := order[..j], order[j + 1..];
    var kj := order[j];
    assert order == a + ([kj] + c);
    LinkedRowsAppend(db, a, [kj] + c, id);
    LinkedRowsAppend(db, [kj], c, id);
    var ra := LinkedRows(db, a, id);
    var pj := Populate(db.externalData[kj], db.sources[db.externalData[kj].sourceSlug]);
    assert LinkedRows(db, [kj], id) == [pj] by {
      assert [kj][..0] == [];
    }
    var r := LinkedRows(db, order, id);
    assert r == ra + ([pj] + LinkedRows(db, c, id));
    var pi := Populate(db.externalData[order[i]], db.sources[db.externalData[order[i]].sourceSlug]);
    assert order[i] == a[i];
    assert pi in ra;
    var p :| 0 <= p < |ra| && ra[p] == pi;
    assert r[p] == pi && r[|ra|] == pj;
  }

  /**
   * `getMergedForAllSoftwares`: one entry per software id with linked rows,
   * each the fusion of those rows.
   */
  function MergedForAllSoftwares(db: Db): (r: map<nat, ExternalData>)
    ensures forall id | id in r :: Fusion.Merged(LinkedRows(db, db.extOrder, id)) == Some(r[id])
    ensures Valid(db) ==> forall id :: id in r <==> LinkedRows(db, db.extOrder, id) != []
  {
    var r := map id | id in LinkedIds(db) && LinkedRows(db, db.extOrder, id) != []
      :: Fusion.Merged(LinkedRows(db, db.extOrder, id)).value;
    assert forall id :: LinkedRows(db, db.extOrder, id) != [] ==> id in LinkedIds(db) by {
      forall id ensures LinkedRows(db, db.extOrder, id) != [] ==> id in LinkedIds(db) {
        LinkedRowsNonEmpty(db, db.extOrder, id);
      }
    }
    r
  }
}
