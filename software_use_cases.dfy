// The createSoftware and updateSoftware use cases: the decision whether a
// submitted form names a known software, the creation of a new one, the
// binding of the form's external record and the replacement of its similar
// softwares. Each step is a function on the database (the specification) and
// a method over the store that performs the same reads and writes in the same
// order.
module SoftwareUseCases {
  import opened Wrappers
  import opened Catalogi
  import opened ExternalData
  import opened Tables
  import ExternalDataRepo
  import SoftwareRepo
  import Store

  /** `SoftwareFormData`: what a user submits to declare or edit a software. */
  datatype SoftwareForm = SoftwareForm(
    softwareName: string,
    softwareDescription: string,
    softwareLicense: string,
    softwareLogoUrl: Option<string>,
    softwareMinimalVersion: Option<string>,
    customAttributes: Option<map<string, AttributeValue>>,
    similarSoftwareExternalDataItems: seq<SoftwareRepo.SimilarItem>,
    softwareType: SoftwareType,
    externalIdForSource: Option<string>,
    sourceSlug: string,
    softwareKeywords: seq<string>)

  /** A truthy optional string: defined and non-empty. */
  predicate Given(s: Option<string>)
  {
    s.Some? && s.value != ""
  }

  /** The key of the form's own external record. */
  function FormKey(form: SoftwareForm): ExtKey
    requires Given(form.externalIdForSource)
  {
    ExtKey(form.sourceSlug, form.externalIdForSource.value)
  }

  /** `formDataToSoftwareRow`; its `referencedSinceTime` is the `now` of the call. */
  function FormDataToSoftwareRow(form: SoftwareForm, userId: nat): SoftwareFields
  {
    SoftwareFields(
      form.softwareName, form.softwareDescription, form.softwareLicense, form.softwareLogoUrl,
      None, false, form.customAttributes, form.softwareType, [], [], None, form.softwareKeywords, userId)
  }

  /** The `saveMany` item that records an external id linked to a software. */
  function LinkItem(sourceSlug: string, externalId: string, id: nat): ExternalDataRepo.SaveItem
  {
    ExternalDataRepo.SaveItem(sourceSlug, externalId, Some(id), None, None, None)
  }

  // ------------------------------------------------ resolveExistingSoftwareId

  /** The software the form's own external record is linked to, when the form names one. */
  function LinkedId(db: Db, form: SoftwareForm): Option<nat>
  {
    if Given(form.externalIdForSource) then SoftwareRepo.SoftwareIdByExternalKey(db, FormKey(form)) else None
  }

  /** The database after resolution (an identifier hit writes) and the id found, if any. */
  datatype Resolution = Resolution(db: Db, id: Option<nat>)

  /**
   * `resolveExistingSoftwareId`: an unknown source fails; then the first of
   * exact name, linked external record and cross-catalogue identifier that
   * finds something wins. `normalize` stands for `new URL(..).toString()`.
   */
  function ResolveExisting(db: Db, form: SoftwareForm, normalize: string -> Option<string>): (r: Result<Resolution, Failure>)
    ensures r == Err(SourceSlugUnknown) <==> form.sourceSlug !in db.sources
    ensures r.Err? ==> r.error in {SourceSlugUnknown, InvalidUrl, DatabaseCorrupted}
    ensures r.Ok? ==> r.value.db.softwares == db.softwares && r.value.db.sources == db.sources
    ensures r.Ok? ==> r.value.db.similar == db.similar && r.value.db.nextSoftwareId == db.nextSoftwareId
    ensures r.Ok? && r.value.db != db ==> TruthyId(r.value.id)
  {
    if form.sourceSlug !in db.sources then Err(SourceSlugUnknown)
    else
      var source := db.sources[form.sourceSlug];
      var named := SoftwareRepo.GetByName(db, form.softwareName);
      if named.Some? then Ok(Resolution(db, named))
      else
        var linked := LinkedId(db, form);
        if TruthyId(linked) then Ok(Resolution(db, linked))
        else
          match ExternalDataRepo.OtherIdentifierIds(db, source.url, normalize)
          case Err(e) => Err(e)
          case Ok(ids) =>
            if Given(form.externalIdForSource) && form.externalIdForSource.value in ids then
              var id := ids[form.externalIdForSource.value];
              var item := LinkItem(source.slug, form.externalIdForSource.value, id);
              Ok(Resolution(ExternalDataRepo.InsertRows(db, [item]), Some(id)))
            else Ok(Resolution(db, None))
  }

  /** `resolveOrCreateSoftwareId`: the resolved id when truthy, otherwise a new software. */
  function ResolveOrCreate(db: Db, form: SoftwareForm, userId: nat, now: int, normalize: string -> Option<string>)
    : (r: Result<(Db, nat), Failure>)
    ensures r.Err? <==> ResolveExisting(db, form, normalize).Err?
    ensures r.Err? ==> r.error == ResolveExisting(db, form, normalize).error
    ensures r.Ok? ==> r.value.0.sources == db.sources && r.value.0.similar == db.similar
    ensures Valid(db) && r.Ok? && !TruthyId(ResolveExisting(db, form, normalize).value.id) ==>
      r.value.1 !in ResolveExisting(db, form, normalize).value.db.softwares
  {
    match ResolveExisting(db, form, normalize)
    case Err(e) => Err(e)
    case Ok(res) =>
      if TruthyId(res.id) then Ok((res.db, res.id.value))
      else Ok(SoftwareRepo.Create(res.db, FormDataToSoftwareRow(form, userId), now, now))
  }

  // ------------------------------------------------------- makeCreateSofware

  /**
   * The binding step of `makeCreateSofware`: an unlinked record is linked to
   * `id`, a missing one is inserted already linked, a linked one is left alone.
   */
  function BindExternal(db: Db, k: ExtKey, id: nat): Db
  {
    if k in db.externalData then
      var saved := db.externalData[k];
      if saved.softwareId.None? then ExternalDataRepo.Update(db, k, Some(id), saved.lastDataFetchAt, saved)
      else db
    else ExternalDataRepo.InsertRows(db, [LinkItem(k.sourceSlug, k.externalId, id)])
  }

  /** The similar items of a created software, all under the form's source. */
  function ForceSource(items: seq<SoftwareRepo.SimilarItem>, sourceSlug: string): (r: seq<SoftwareRepo.SimilarItem>)
    ensures |r| == |items|
    ensures forall i | 0 <= i < |r| :: r[i] == items[i].(sourceSlug := sourceSlug)
  {
    seq(|items|, i requires 0 <= i < |items| => items[i].(sourceSlug := sourceSlug))
  }

  /** `makeCreateSofware`: resolve or create, bind the external id, save the similar softwares. */
  function CreateSoftware(db: Db, form: SoftwareForm, userId: nat, now: int, normalize: string -> Option<string>)
    : (r: Result<(Db, nat), Failure>)
    ensures r.Err? <==> ResolveExisting(db, form, normalize).Err?
    ensures r.Err? ==> r.error == ResolveExisting(db, form, normalize).error
    ensures r.Ok? ==> r.value.1 == ResolveOrCreate(db, form, userId, now, normalize).value.1
    ensures r.Ok? ==> r.value.0.sources == db.sources
  {
    match ResolveOrCreate(db, form, userId, now, normalize)
    case Err(e) => Err(e)
    case Ok((db1, id)) => Ok((Complete(db1, form, id), id))
  }

  /** The binding step, when the form names an external id. */
  function Bound(db1: Db, form: SoftwareForm, id: nat): Db
  {
    if Given(form.externalIdForSource) then BindExternal(db1, FormKey(form), id) else db1
  }

  /** What `makeCreateSofware` writes once it has an id: the binding, then the similar softwares. */
  function Complete(db1: Db, form: SoftwareForm, id: nat): Db
  {
    var db2 := Bound(db1, form, id);
    var items := form.similarSoftwareExternalDataItems;
    if |items| > 0
    then SoftwareRepo.SaveSimilar(db2, [SoftwareRepo.SimilarGroup(id, ForceSource(items, form.sourceSlug))])
    else db2
  }

  // ------------------------------------------------------ makeUpdateSoftware

  /**
   * The row `makeUpdateSoftware` writes: the form's fields, no
   * dereferencing and no general information (both left as stored), no
   * workshops and no categories.
   */
  function UpdateFields(form: SoftwareForm, userId: nat): SoftwareFields
  {
    SoftwareFields(
      form.softwareName, form.softwareDescription, form.softwareLicense, form.softwareLogoUrl,
      None, false, form.customAttributes, form.softwareType, [], [], None, form.softwareKeywords, userId)
  }

  /** `makeUpdateSoftware`: rewrite the row, then replace its similar softwares by the submitted ones. */
  function UpdateSoftware(db: Db, form: SoftwareForm, userId: nat, id: nat, now: int): (r: Db)
    ensures r.softwares.Keys == db.softwares.Keys && r.sources == db.sources
    ensures forall other | other in db.softwares && other != id :: r.softwares[other] == db.softwares[other]
    ensures id in db.softwares ==> r.softwares[id].fields.name == form.softwareName && r.softwares[id].updateTime == now
    ensures forall k | k in db.externalData :: k in r.externalData && r.externalData[k] == db.externalData[k]
    ensures forall l :: l in r.similar <==>
      (l in db.similar && l.softwareId != id)
      || exists it | it in form.similarSoftwareExternalDataItems :: l == Link(id, it.sourceSlug, it.externalId)
  {
    var db1 := SoftwareRepo.UpdateRow(db, id, UpdateFields(form, userId), now);
    SoftwareRepo.SaveSimilar(db1, [SoftwareRepo.SimilarGroup(id, form.similarSoftwareExternalDataItems)])
  }

  // ------------------------------------------------------------- the methods

  method ResolveExistingSoftwareId(store: Store.Store, form: SoftwareForm, normalize: string -> Option<string>)
    returns (r: Result<Option<nat>, Failure>)
    requires store.Valid()
    modifies store
    ensures store.Valid()
    ensures var spec := ResolveExisting(old(store.State()), form, normalize);
      && (spec.Err? ==> r == Err(spec.error) && store.State() == old(store.State()))
      && (spec.Ok? ==> r == Ok(spec.value.id) && store.State() == spec.value.db)
  {
    var source := store.GetSource(form.sourceSlug);
    if source.None? {
      return Err(SourceSlugUnknown);
    }
    var named := store.GetByName(form.softwareName);
    if named.Some? {
      return Ok(named);
    }
    if Given(form.externalIdForSource) {
      var saved := store.SoftwareIdByExternalKey(FormKey(form));
      if TruthyId(saved) {
        return Ok(saved);
      }
    }
    var ids := store.OtherIdentifierIds(source.value.url, normalize);
    if ids.Err? {
      return Err(ids.error);
    }
    if Given(form.externalIdForSource) && form.externalIdForSource.value in ids.value {
      var id := ids.value[form.externalIdForSource.value];
      store.SaveMany([LinkItem(source.value.slug, form.externalIdForSource.value, id)]);
      return Ok(Some(id));
    }
    return Ok(None);
  }

  method ResolveOrCreateSoftwareId(store: Store.Store, form: SoftwareForm, userId: nat, now: int,
                                   normalize: string -> Option<string>)
    returns (r: Result<nat, Failure>)
    requires store.Valid()
    modifies store
    ensures store.Valid()
    ensures var spec := ResolveOrCreate(old(store.State()), form, userId, now, normalize);
      && (spec.Err? ==> r == Err(spec.error) && store.State() == old(store.State()))
      && (spec.Ok? ==> r == Ok(spec.value.1) && store.State() == spec.value.0)
  {
    var resolved := ResolveExistingSoftwareId(store, form, normalize);
    if resolved.Err? {
      return Err(resolved.error);
    }
    if TruthyId(resolved.value) {
      return Ok(resolved.value.value);
    }
    var id := store.Create(FormDataToSoftwareRow(form, userId), now, now);
    return Ok(id);
  }

  /** `makeCreateSofware` over the store. */
  method RunCreateSoftware(store: Store.Store, form: SoftwareForm, userId: nat, now: int,
                              normalize: string -> Option<string>)
    returns (r: Result<nat, Failure>)
    requires store.Valid()
    modifies store
    ensures store.Valid()
    ensures var spec := CreateSoftware(old(store.State()), form, userId, now, normalize);
      && (spec.Err? ==> r == Err(spec.error) && store.State() == old(store.State()))
      && (spec.Ok? ==> r == Ok(spec.value.1) && store.State() == spec.value.0)
  {
    var resolved := ResolveOrCreateSoftwareId(store, form, userId, now, normalize);
    if resolved.Err? {
      return Err(resolved.error);
    }
    var id := resolved.value;
    if Given(form.externalIdForSource) {
      var k := FormKey(form);
      var saved := store.Get(k);
      if saved.Some? && saved.value.softwareId.None? {
        store.UpdateExternal(k, Some(id), saved.value.lastDataFetchAt, saved.value);
      }
      if saved.None? {
        store.SaveMany([LinkItem(form.sourceSlug, form.externalIdForSource.value, id)]);
      }
    }
    var items := form.similarSoftwareExternalDataItems;
    if |items| > 0 {
      store.SaveSimilar([SoftwareRepo.SimilarGroup(id, ForceSource(items, form.sourceSlug))]);
    }
    return Ok(id);
  }

  /** `makeUpdateSoftware` over the store. */
  method RunUpdateSoftware(store: Store.Store, form: SoftwareForm, userId: nat, id: nat, now: int)
    requires store.Valid()
    modifies store
    ensures store.Valid()
    ensures store.State() == UpdateSoftware(old(store.State()), form, userId, id, now)
  {
    store.UpdateSoftware(id, UpdateFields(form, userId), now);
    store.SaveSimilar([SoftwareRepo.SimilarGroup(id, form.similarSoftwareExternalDataItems)]);
  }

  // -------------------------------------------------------------- properties

  /**
   * Creation fails exactly when the source is unknown, or when neither the
   * name nor the link finds a software and the identifier scan throws; the
   * error then says whether the source URL did not parse or a row was corrupt.
   */
  lemma CreateSoftwareFails(db: Db, form: SoftwareForm, userId: nat, now: int, normalize: string -> Option<string>)
    ensures form.sourceSlug !in db.sources ==> CreateSoftware(db, form, userId, now, normalize) == Err(SourceSlugUnknown)
    ensures form.sourceSlug in db.sources ==>
      var url := db.sources[form.sourceSlug].url;
      && (CreateSoftware(db, form, userId, now, normalize).Err? <==>
            && SoftwareRepo.GetByName(db, form.softwareName).None?
            && !TruthyId(LinkedId(db, form))
            && ExternalDataRepo.OtherIdentifierIds(db, url, normalize).Err?)
      && (CreateSoftware(db, form, userId, now, normalize).Err? ==>
            CreateSoftware(db, form, userId, now, normalize).error
              == (if normalize(url).None? then InvalidUrl else DatabaseCorrupted))
  {
    if form.sourceSlug in db.sources {
      var url := db.sources[form.sourceSlug].url;
      ExternalDataRepo.IndexRowsFails(ExternalDataRepo.ScanRows(db, db.extOrder, url), normalize(url), 1);
    }
  }

  /** A software with exactly the form's name wins over every other clue, and resolution then writes nothing. */
  lemma ResolveByName(db: Db, form: SoftwareForm, normalize: string -> Option<string>)
    requires Valid(db) && form.sourceSlug in db.sources
    requires exists id | id in db.softwares :: db.softwares[id].fields.name == form.softwareName
    ensures ResolveExisting(db, form, normalize).Ok?
    ensures var res := ResolveExisting(db, form, normalize).value;
      && res.db == db && res.id.Some?
      && res.id.value in db.softwares && db.softwares[res.id.value].fields.name == form.softwareName
      && forall id | id in db.softwares && id < res.id.value :: db.softwares[id].fields.name != form.softwareName
  {
  }

  /** Without a software of that name, a record of the form's key linked to a truthy id decides. */
  lemma ResolveByLink(db: Db, form: SoftwareForm, normalize: string -> Option<string>)
    requires Valid(db) && form.sourceSlug in db.sources
    requires forall id | id in db.softwares :: db.softwares[id].fields.name != form.softwareName
    requires Given(form.externalIdForSource) && FormKey(form) in db.externalData
    requires TruthyId(db.externalData[FormKey(form)].softwareId)
    ensures ResolveExisting(db, form, normalize) == Ok(Resolution(db, db.externalData[FormKey(form)].softwareId))
  {
  }

  /**
   * Without a name or a link, the form's external id is looked up among the
   * identifiers other catalogues hold for this source: it resolves to the
   * software of the last scanned row whose first identifier from this source
   * is that id, and that record is then saved linked to the software.
   */
  lemma ResolveByIdentifier(db: Db, form: SoftwareForm, normalize: string -> Option<string>, u: string)
    requires Valid(db) && form.sourceSlug in db.sources
    requires forall id | id in db.softwares :: db.softwares[id].fields.name != form.softwareName
    requires !TruthyId(LinkedId(db, form))
    requires normalize(db.sources[form.sourceSlug].url) == Some(u)
    requires ExternalDataRepo.OtherIdentifierIds(db, db.sources[form.sourceSlug].url, normalize).Ok?
    ensures ResolveExisting(db, form, normalize).Ok?
    ensures var res := ResolveExisting(db, form, normalize).value;
      var rows := ExternalDataRepo.ScanRows(db, db.extOrder, db.sources[form.sourceSlug].url);
      && res.id == (if Given(form.externalIdForSource)
                    then ExternalDataRepo.LastLinkFor(rows, u, form.externalIdForSource.value) else None)
      && (res.id.Some? ==>
            && Given(form.externalIdForSource)
            && FormKey(form) in res.db.externalData
            && (FormKey(form) !in db.externalData ==> res.db.externalData[FormKey(form)].softwareId == res.id))
      && (res.id.None? ==> res.db == db)
  {
    var url := db.sources[form.sourceSlug].url;
    var rows := ExternalDataRepo.ScanRows(db, db.extOrder, url);
    ExternalDataRepo.IndexRowsMeaning(rows, u, 1);
    if Given(form.externalIdForSource) {
      var ext := form.externalIdForSource.value;
      var ids := ExternalDataRepo.OtherIdentifierIds(db, url, normalize).value;
      if ext in ids {
        var item := LinkItem(db.sources[form.sourceSlug].slug, ext, ids[ext]);
        assert ExternalDataRepo.ItemKey(item) == FormKey(form);
        ExternalDataRepo.FirstItemMeaning([item], FormKey(form));
      }
    }
  }

  /**
   * `r` differs from `db` at most by the form's own external record, added
   * linked to `id`: softwares, links and the other rows are untouched.
   */
  ghost predicate AddsAtMostFormRecord(db: Db, r: Db, form: SoftwareForm, id: Option<nat>)
  {
    && Valid(r)
    && r.softwares == db.softwares && r.nextSoftwareId == db.nextSoftwareId
    && r.similar == db.similar && r.sources == db.sources
    && db.extOrder <= r.extOrder
    && (forall k | k in db.externalData :: k in r.externalData && r.externalData[k] == db.externalData[k])
    && (forall k | k in r.externalData && k !in db.externalData ::
          Given(form.externalIdForSource) && k == FormKey(form) && r.externalData[k].softwareId == id)
  }

  /**
   * Whatever resolution finds, it touches neither the softwares nor the
   * similarity links; the one row it may add is the form's own record, linked
   * to the id it returns, and the id it returns is never 0.
   */
  lemma ResolutionWrites(db: Db, form: SoftwareForm, normalize: string -> Option<string>)
    requires Valid(db)
    requires ResolveExisting(db, form, normalize).Ok?
    ensures var res := ResolveExisting(db, form, normalize).value;
      && AddsAtMostFormRecord(db, res.db, form, res.id)
      && (res.id.Some? ==> res.id.value != 0)
  {
    var url := db.sources[form.sourceSlug].url;
    if SoftwareRepo.GetByName(db, form.softwareName).Some? {
      assert ResolveExisting(db, form, normalize) == Ok(Resolution(db, SoftwareRepo.GetByName(db, form.softwareName)));
    } else if TruthyId(LinkedId(db, form)) {
      assert ResolveExisting(db, form, normalize) == Ok(Resolution(db, LinkedId(db, form)));
    } else {
      var ids := ExternalDataRepo.OtherIdentifierIds(db, url, normalize).value;
      if Given(form.externalIdForSource) && form.externalIdForSource.value in ids {
        var ext := form.externalIdForSource.value;
        var item := LinkItem(db.sources[form.sourceSlug].slug, ext, ids[ext]);
        assert ResolveExisting(db, form, normalize) == Ok(Resolution(ExternalDataRepo.InsertRows(db, [item]), Some(ids[ext])));
        LinkedInsertWrites(db, form, item);
      } else {
        assert ResolveExisting(db, form, normalize) == Ok(Resolution(db, None));
      }
    }
  }

  /** Saving the form's own record linked to a software adds at most that record. */
  lemma LinkedInsertWrites(db: Db, form: SoftwareForm, item: ExternalDataRepo.SaveItem)
    requires Valid(db) && Given(form.externalIdForSource)
    requires ExternalDataRepo.ItemKey(item) == FormKey(form)
    ensures AddsAtMostFormRecord(db, ExternalDataRepo.InsertRows(db, [item]), form, item.softwareId)
  {
    ExternalDataRepo.InsertSingle(db, item);
  }

  /**
   * `resolveOrCreateSoftwareId` creates a software exactly when resolution
   * finds none; the new one takes the next id, carries the form's fields and
   * no software had the form's name before.
   */
  lemma ResolveOrCreateMeaning(db: Db, form: SoftwareForm, userId: nat, now: int, normalize: string -> Option<string>)
    requires Valid(db)
    requires ResolveExisting(db, form, normalize).Ok?
    ensures ResolveOrCreate(db, form, userId, now, normalize).Ok?
    ensures var res := ResolveExisting(db, form, normalize).value;
      var (db1, id) := ResolveOrCreate(db, form, userId, now, normalize).value;
      && Valid(db1) && id != 0
      && (res.id.Some? ==> id == res.id.value && db1 == res.db)
      && (res.id.None? ==>
            && id == db.nextSoftwareId && id !in db.softwares
            && db1.softwares == db.softwares[id := SoftwareRow(FormDataToSoftwareRow(form, userId), now, now)]
            && db1.externalData == res.db.externalData && db1.similar == db.similar
            && forall other | other in db.softwares :: db.softwares[other].fields.name != form.softwareName)
  {
    ResolutionWrites(db, form, normalize);
  }

  /** The writes of `makeCreateSofware` after resolution leave the softwares as they are. */
  lemma AfterResolution(db1: Db, form: SoftwareForm, id: nat)
    requires Valid(db1)
    ensures var db2 := Bound(db1, form, id);
      var db3 := Complete(db1, form, id);
      && Valid(db2) && Valid(db3)
      && db3.softwares == db1.softwares && db3.nextSoftwareId == db1.nextSoftwareId && db3.sources == db1.sources
      && db2.similar == db1.similar && db2.sources == db1.sources
      && db1.extOrder <= db2.extOrder <= db3.extOrder
      && (forall k | k in db2.externalData && k !in db1.externalData ::
            Given(form.externalIdForSource) && k == FormKey(form))
      && (forall k | k in db1.externalData && !(Given(form.externalIdForSource) && k == FormKey(form)) ::
            k in db2.externalData && db2.externalData[k] == db1.externalData[k])
      && (forall k | k in db2.externalData :: k in db3.externalData && db3.externalData[k] == db2.externalData[k])
      && (|form.similarSoftwareExternalDataItems| == 0 ==> db3 == db2)
  {
    if Given(form.externalIdForSource) {
      var k := FormKey(form);
      if k !in db1.externalData {
        ExternalDataRepo.InsertSingle(db1, LinkItem(k.sourceSlug, k.externalId, id));
      }
    }
  }

  /** An item forced under a source keeps its external id. */
  lemma ForcedItemKey(items: seq<SoftwareRepo.SimilarItem>, sourceSlug: string, it: SoftwareRepo.SimilarItem)
    requires it in ForceSource(items, sourceSlug)
    ensures exists j | j in items :: ExtKey(it.sourceSlug, it.externalId) == ExtKey(sourceSlug, j.externalId)
  {
    var forced := ForceSource(items, sourceSlug);
    var i :| 0 <= i < |forced| && forced[i] == it;
    assert items[i] in items;
  }

  /** The rows the similar step adds are records of the submitted items under the form's source, unlinked. */
  lemma SimilarStepRows(db2: Db, items: seq<SoftwareRepo.SimilarItem>, sourceSlug: string, id: nat)
    ensures var db3 := SoftwareRepo.SaveSimilar(db2, [SoftwareRepo.SimilarGroup(id, ForceSource(items, sourceSlug))]);
      forall k | k in db3.externalData && k !in db2.externalData ::
        && db3.externalData[k].softwareId.None?
        && exists it | it in items :: k == ExtKey(sourceSlug, it.externalId)
  {
    var groups := [SoftwareRepo.SimilarGroup(id, ForceSource(items, sourceSlug))];
    var db3 := SoftwareRepo.SaveSimilar(db2, groups);
    forall k | k in db3.externalData && k !in db2.externalData
      ensures exists it | it in items :: k == ExtKey(sourceSlug, it.externalId)
    {
      var g, it :| g in groups && it in g.items && k == ExtKey(it.sourceSlug, it.externalId);
      assert g == groups[0];
      ForcedItemKey(items, sourceSlug, it);
    }
  }

  /**
   * After `makeCreateSofware` the form's external record exists: an unlinked
   * or missing one is now linked to the returned id, and one already linked
   * is left exactly as it was.
   */
  lemma CreateSoftwareBinds(db: Db, form: SoftwareForm, userId: nat, now: int, normalize: string -> Option<string>)
    requires Valid(db) && Given(form.externalIdForSource)
    requires CreateSoftware(db, form, userId, now, normalize).Ok?
    ensures var (db2, id) := CreateSoftware(db, form, userId, now, normalize).value;
      var k := FormKey(form);
      && k in db2.externalData
      && (k !in db.externalData || db.externalData[k].softwareId.None? ==> db2.externalData[k].softwareId == Some(id))
      && (k in db.externalData && db.externalData[k].softwareId.Some? ==> db2.externalData[k] == db.externalData[k])
  {
    var k := FormKey(form);
    var res := ResolveExisting(db, form, normalize).value;
    ResolutionWrites(db, form, normalize);
    ResolveOrCreateMeaning(db, form, userId, now, normalize);
    var (db1, id) := ResolveOrCreate(db, form, userId, now, normalize).value;
    AfterResolution(db1, form, id);
    assert db1.externalData == res.db.externalData;
    if k !in db1.externalData {
      var item := LinkItem(k.sourceSlug, k.externalId, id);
      ExternalDataRepo.FirstItemMeaning([item], k);
    }
  }

  /**
   * `makeCreateSofware` replaces the similar softwares of the returned id by
   * the submitted items, each under the form's source, when there are any,
   * and otherwise keeps its links; no other software's links change.
   */
  lemma CreateSoftwareSimilars(db: Db, form: SoftwareForm, userId: nat, now: int, normalize: string -> Option<string>)
    requires Valid(db)
    requires CreateSoftware(db, form, userId, now, normalize).Ok?
    ensures var (db2, id) := CreateSoftware(db, form, userId, now, normalize).value;
      var items := form.similarSoftwareExternalDataItems;
      && (items == [] ==> db2.similar == db.similar)
      && (items != [] ==> forall l: Link | l.softwareId == id ::
            l in db2.similar <==> exists it | it in items :: l == Link(id, form.sourceSlug, it.externalId))
      && (forall l: Link | l.softwareId != id :: l in db2.similar <==> l in db.similar)
  {
    ResolveOrCreateMeaning(db, form, userId, now, normalize);
    ResolutionWrites(db, form, normalize);
    var (db1, id) := ResolveOrCreate(db, form, userId, now, normalize).value;
    assert db1.similar == db.similar;
    CompleteSimilars(db1, form, id);
  }

  /** The binding step leaves the links alone. */
  lemma BoundKeepsLinks(db1: Db, form: SoftwareForm, id: nat)
    ensures Bound(db1, form, id).similar == db1.similar
  {
  }

  /** The links after the binding and similar steps, from the links after resolution. */
  lemma CompleteSimilars(db1: Db, form: SoftwareForm, id: nat)
    ensures var db3 := Complete(db1, form, id);
      var items := form.similarSoftwareExternalDataItems;
      && (items == [] ==> db3.similar == db1.similar)
      && (items != [] ==> forall l: Link | l.softwareId == id ::
            l in db3.similar <==> exists it | it in items :: l == Link(id, form.sourceSlug, it.externalId))
      && (forall l: Link | l.softwareId != id :: l in db3.similar <==> l in db1.similar)
  {
    BoundKeepsLinks(db1, form, id);
    var db2 := Bound(db1, form, id);
    var items := form.similarSoftwareExternalDataItems;
    if items != [] {
      var forced := ForceSource(items, form.sourceSlug);
      SoftwareRepo.SaveSimilarReplaces(db2, id, forced);
      forall l: Link | l.softwareId == id
        ensures (exists it | it in forced :: l == Link(id, it.sourceSlug, it.externalId))
            <==> (exists it | it in items :: l == Link(id, form.sourceSlug, it.externalId))
      {
        ForcedLink(id, items, form.sourceSlug, l);
      }
    }
  }

  /** A link of the forced items is a link of the submitted items under the one source, and back. */
  lemma ForcedLink(id: nat, items: seq<SoftwareRepo.SimilarItem>, sourceSlug: string, l: Link)
    ensures (exists it | it in ForceSource(items, sourceSlug) :: l == Link(id, it.sourceSlug, it.externalId))
        <==> (exists it | it in items :: l == Link(id, sourceSlug, it.externalId))
  {
    var forced := ForceSource(items, sourceSlug);
    if exists it | it in forced :: l == Link(id, it.sourceSlug, it.externalId) {
      var it :| it in forced && l == Link(id, it.sourceSlug, it.externalId);
      var i :| 0 <= i < |forced| && forced[i] == it;
      assert items[i] in items;
    }
    if exists it | it in items :: l == Link(id, sourceSlug, it.externalId) {
      var it :| it in items && l == Link(id, sourceSlug, it.externalId);
      var i :| 0 <= i < |items| && items[i] == it;
      assert forced[i] in forced;
    }
  }

  /**
   * After `makeCreateSofware` the softwares table is as before, unless
   * resolution found nothing: then it holds one more row, built from the form,
   * under the returned id.
   */
  lemma CreateSoftwareSoftwares(db: Db, form: SoftwareForm, userId: nat, now: int, normalize: string -> Option<string>)
    requires Valid(db)
    requires CreateSoftware(db, form, userId, now, normalize).Ok?
    ensures ResolveExisting(db, form, normalize).Ok?
    ensures var res := ResolveExisting(db, form, normalize).value;
      var (db2, id) := CreateSoftware(db, form, userId, now, normalize).value;
      && Valid(db2) && id != 0 && db2.sources == db.sources
      && (res.id.Some? ==> id == res.id.value && db2.softwares == db.softwares && db2.nextSoftwareId == db.nextSoftwareId)
      && (res.id.None? ==>
            && id == db.nextSoftwareId && id !in db.softwares
            && db2.softwares == db.softwares[id := SoftwareRow(FormDataToSoftwareRow(form, userId), now, now)])
  {
    ResolutionWrites(db, form, normalize);
    ResolveOrCreateMeaning(db, form, userId, now, normalize);
    var (db1, id) := ResolveOrCreate(db, form, userId, now, normalize).value;
    AfterResolution(db1, form, id);
  }

  /** The rows the steps after resolution add: the form's own record, linked to `id`, and unlinked similar records. */
  lemma CompleteNewRows(db1: Db, form: SoftwareForm, id: nat)
    requires Valid(db1)
    ensures var db3 := Complete(db1, form, id);
      forall k | k in db3.externalData && k !in db1.externalData ::
        || (Given(form.externalIdForSource) && k == FormKey(form) && db3.externalData[k].softwareId == Some(id))
        || (&& db3.externalData[k].softwareId.None?
            && exists it | it in form.similarSoftwareExternalDataItems :: k == ExtKey(form.sourceSlug, it.externalId))
  {
    AfterResolution(db1, form, id);
    var db2 := Bound(db1, form, id);
    if form.similarSoftwareExternalDataItems != [] {
      SimilarStepRows(db2, form.similarSoftwareExternalDataItems, form.sourceSlug, id);
    }
    if Given(form.externalIdForSource) && FormKey(form) !in db1.externalData {
      var k := FormKey(form);
      ExternalDataRepo.FirstItemMeaning([LinkItem(k.sourceSlug, k.externalId, id)], k);
    }
  }

  /**
   * `makeCreateSofware` only appends to the row order and leaves every
   * existing row other than the form's own record as it was.
   */
  lemma CreateSoftwareKeepsRows(db: Db, form: SoftwareForm, userId: nat, now: int, normalize: string -> Option<string>)
    requires Valid(db)
    requires CreateSoftware(db, form, userId, now, normalize).Ok?
    ensures var (db2, id) := CreateSoftware(db, form, userId, now, normalize).value;
      && db.extOrder <= db2.extOrder
      && (forall k | k in db.externalData && !(Given(form.externalIdForSource) && k == FormKey(form)) ::
            k in db2.externalData && db2.externalData[k] == db.externalData[k])
  {
    var res := ResolveExisting(db, form, normalize).value;
    ResolutionWrites(db, form, normalize);
    ResolveOrCreateMeaning(db, form, userId, now, normalize);
    var (db1, id) := ResolveOrCreate(db, form, userId, now, normalize).value;
    assert db1.externalData == res.db.externalData && db1.extOrder == res.db.extOrder;
    AfterResolution(db1, form, id);
  }

  /**
   * The rows `makeCreateSofware` adds are the form's own record, linked to the
   * returned id, and records of similar items under the form's source, which
   * stay unlinked.
   */
  lemma CreateSoftwareNewRows(db: Db, form: SoftwareForm, userId: nat, now: int, normalize: string -> Option<string>)
    requires Valid(db)
    requires CreateSoftware(db, form, userId, now, normalize).Ok?
    ensures var (db2, id) := CreateSoftware(db, form, userId, now, normalize).value;
      forall k | k in db2.externalData && k !in db.externalData ::
        || (Given(form.externalIdForSource) && k == FormKey(form) && db2.externalData[k].softwareId == Some(id))
        || (&& db2.externalData[k].softwareId.None?
            && exists it | it in form.similarSoftwareExternalDataItems :: k == ExtKey(form.sourceSlug, it.externalId))
  {
    var res := ResolveExisting(db, form, normalize).value;
    ResolutionWrites(db, form, normalize);
    ResolveOrCreateMeaning(db, form, userId, now, normalize);
    var (db1, id) := ResolveOrCreate(db, form, userId, now, normalize).value;
    assert db1.externalData == res.db.externalData;
    CompleteNewRows(db1, form, id);
    if Given(form.externalIdForSource) {
      CreateSoftwareBinds(db, form, userId, now, normalize);
    }
  }

  /**
   * A software with the form's name takes the form: no software is created,
   * whatever the external id (the same form twice, or the same name with
   * another external id, leaves one software).
   */
  lemma NameWins(db: Db, form: SoftwareForm, userId: nat, now: int, normalize: string -> Option<string>)
    requires Valid(db) && form.sourceSlug in db.sources
    requires exists id | id in db.softwares :: db.softwares[id].fields.name == form.softwareName
    ensures CreateSoftware(db, form, userId, now, normalize).Ok?
    ensures var (db2, id) := CreateSoftware(db, form, userId, now, normalize).value;
      && id in db.softwares && db.softwares[id].fields.name == form.softwareName
      && db2.softwares == db.softwares && db2.nextSoftwareId == db.nextSoftwareId
  {
    ResolveByName(db, form, normalize);
    ResolveOrCreateMeaning(db, form, userId, now, normalize);
    CreateSoftwareSoftwares(db, form, userId, now, normalize);
  }

  /**
   * Without a software of that name, a form whose external record is already
   * linked takes that software: no software is created, the record is left
   * alone, and the only rows added are those of similar items.
   */
  lemma LinkedRecordWins(db: Db, form: SoftwareForm, userId: nat, now: int, normalize: string -> Option<string>)
    requires Valid(db) && form.sourceSlug in db.sources
    requires forall id | id in db.softwares :: db.softwares[id].fields.name != form.softwareName
    requires Given(form.externalIdForSource) && FormKey(form) in db.externalData
    requires TruthyId(db.externalData[FormKey(form)].softwareId)
    ensures CreateSoftware(db, form, userId, now, normalize).Ok?
    ensures var (db2, id) := CreateSoftware(db, form, userId, now, normalize).value;
      && db.externalData[FormKey(form)].softwareId == Some(id)
      && db2.softwares == db.softwares && db2.nextSoftwareId == db.nextSoftwareId
      && db2.externalData[FormKey(form)] == db.externalData[FormKey(form)]
      && (forall k | k in db2.externalData && k !in db.externalData ::
            exists it | it in form.similarSoftwareExternalDataItems :: k == ExtKey(form.sourceSlug, it.externalId))
  {
    ResolveByLink(db, form, normalize);
    ResolveOrCreateMeaning(db, form, userId, now, normalize);
    CreateSoftwareSoftwares(db, form, userId, now, normalize);
    CreateSoftwareBinds(db, form, userId, now, normalize);
    CreateSoftwareNewRows(db, form, userId, now, normalize);
    CreateSoftwareKeepsRows(db, form, userId, now, normalize);
  }
  /** Two databases with the same softwares table find the same software by name. */
  lemma SameSoftwaresSameName(db: Db, db1: Db, name: string)
    requires Valid(db) && Valid(db1) && db1.softwares == db.softwares
    ensures SoftwareRepo.GetByName(db1, name) == SoftwareRepo.GetByName(db, name)
  {
    var r, r1 := SoftwareRepo.GetByName(db, name), SoftwareRepo.GetByName(db1, name);
    if r.Some? {
      assert r1.Some?;
      assert !(r1.value < r.value) && !(r.value < r1.value);
    }
  }

  /** With no name hit and no usable link in either, two databases with the same identifier index resolve alike. */
  lemma SameIdentifierResolution(db: Db, db1: Db, form: SoftwareForm, normalize: string -> Option<string>)
    requires form.sourceSlug in db.sources && db1.sources == db.sources
    requires SoftwareRepo.GetByName(db, form.softwareName).None? && SoftwareRepo.GetByName(db1, form.softwareName).None?
    requires LinkedId(db1, form) == LinkedId(db, form) && !TruthyId(LinkedId(db, form))
    requires var url := db.sources[form.sourceSlug].url;
      ExternalDataRepo.OtherIdentifierIds(db1, url, normalize) == ExternalDataRepo.OtherIdentifierIds(db, url, normalize)
    requires ResolveExisting(db, form, normalize).Ok?
    ensures ResolveExisting(db1, form, normalize).Ok?
    ensures ResolveExisting(db1, form, normalize).value.id == ResolveExisting(db, form, normalize).value.id
  {
  }

  /** A name hit resolves to that software. */
  lemma ResolvedByName(db1: Db, form: SoftwareForm, normalize: string -> Option<string>, id: nat)
    requires form.sourceSlug in db1.sources && SoftwareRepo.GetByName(db1, form.softwareName) == Some(id)
    ensures ResolveExisting(db1, form, normalize) == Ok(Resolution(db1, Some(id)))
  {
  }

  /** Without a name hit, a usable link resolves to the linked software. */
  lemma ResolvedByLink(db1: Db, form: SoftwareForm, normalize: string -> Option<string>, id: nat)
    requires form.sourceSlug in db1.sources && SoftwareRepo.GetByName(db1, form.softwareName).None?
    requires LinkedId(db1, form) == Some(id) && id != 0
    ensures ResolveExisting(db1, form, normalize) == Ok(Resolution(db1, Some(id)))
  {
  }

  /** After a successful `makeCreateSofware`, resolving the same form again finds the same id. */
  lemma SecondResolution(db: Db, form: SoftwareForm, userId: nat, now: int, normalize: string -> Option<string>)
    requires Valid(db)
    requires CreateSoftware(db, form, userId, now, normalize).Ok?
    ensures var (db1, id) := CreateSoftware(db, form, userId, now, normalize).value;
      && ResolveExisting(db1, form, normalize).Ok?
      && ResolveExisting(db1, form, normalize).value.id == Some(id)
  {
    CreateSoftwareSoftwares(db, form, userId, now, normalize);
    var res := ResolveExisting(db, form, normalize).value;
    if res.id.None? {
      SecondResolutionCreated(db, form, userId, now, normalize);
    } else if SoftwareRepo.GetByName(db, form.softwareName).Some? {
      var (db1, id) := CreateSoftware(db, form, userId, now, normalize).value;
      SameSoftwaresSameName(db, db1, form.softwareName);
      ResolvedByName(db1, form, normalize, id);
    } else {
      SecondResolutionUnnamed(db, form, userId, now, normalize);
    }
  }

  /** `SecondResolution` when the first call created the software: the name now finds it. */
  lemma SecondResolutionCreated(db: Db, form: SoftwareForm, userId: nat, now: int, normalize: string -> Option<string>)
    requires Valid(db)
    requires CreateSoftware(db, form, userId, now, normalize).Ok?
    requires ResolveExisting(db, form, normalize).Ok? && ResolveExisting(db, form, normalize).value.id.None?
    ensures var (db1, id) := CreateSoftware(db, form, userId, now, normalize).value;
      && ResolveExisting(db1, form, normalize).Ok?
      && ResolveExisting(db1, form, normalize).value.id == Some(id)
  {
    CreateSoftwareSoftwares(db, form, userId, now, normalize);
    ResolutionWrites(db, form, normalize);
    var (db1, id) := CreateSoftware(db, form, userId, now, normalize).value;
    assert SoftwareRepo.GetByName(db1, form.softwareName) == Some(id);
    ResolvedByName(db1, form, normalize, id);
  }

  /** `SecondResolution` when no software had the form's name and resolution found one. */
  lemma SecondResolutionUnnamed(db: Db, form: SoftwareForm, userId: nat, now: int, normalize: string -> Option<string>)
    requires Valid(db)
    requires CreateSoftware(db, form, userId, now, normalize).Ok?
    requires ResolveExisting(db, form, normalize).Ok? && ResolveExisting(db, form, normalize).value.id.Some?
    requires SoftwareRepo.GetByName(db, form.softwareName).None?
    ensures var (db1, id) := CreateSoftware(db, form, userId, now, normalize).value;
      && ResolveExisting(db1, form, normalize).Ok?
      && ResolveExisting(db1, form, normalize).value.id == Some(id)
  {
    CreateSoftwareSoftwares(db, form, userId, now, normalize);
    var (db1, id) := CreateSoftware(db, form, userId, now, normalize).value;
    SameSoftwaresSameName(db, db1, form.softwareName);
    CreateSoftwareBinds(db, form, userId, now, normalize);
    var k := FormKey(form);
    if TruthyId(LinkedId(db, form)) || k !in db.externalData || db.externalData[k].softwareId.None? {
      assert LinkedId(db1, form) == Some(id);
      ResolvedByLink(db1, form, normalize, id);
    } else {
      assert LinkedId(db1, form) == LinkedId(db, form);
      CreateSoftwareKeepsRows(db, form, userId, now, normalize);
      CreateSoftwareNewRows(db, form, userId, now, normalize);
      var url := db.sources[form.sourceSlug].url;
      ExternalDataRepo.ScanIgnoresUnlinkedRows(db, db1, url, normalize);
      SameIdentifierResolution(db, db1, form, normalize);
    }
  }

  /**
   * Submitting the same form twice leaves one software: the second
   * `makeCreateSofware` returns the id of the first and creates nothing.
   */
  lemma SameFormTwice(db: Db, form: SoftwareForm, userId: nat, now: int, later: int, normalize: string -> Option<string>)
    requires Valid(db)
    requires CreateSoftware(db, form, userId, now, normalize).Ok?
    ensures var (db1, id) := CreateSoftware(db, form, userId, now, normalize).value;
      && CreateSoftware(db1, form, userId, later, normalize).Ok?
      && CreateSoftware(db1, form, userId, later, normalize).value.1 == id
      && CreateSoftware(db1, form, userId, later, normalize).value.0.softwares == db1.softwares
      && CreateSoftware(db1, form, userId, later, normalize).value.0.nextSoftwareId == db1.nextSoftwareId
  {
    CreateSoftwareSoftwares(db, form, userId, now, normalize);
    SecondResolution(db, form, userId, now, normalize);
    var (db1, id) := CreateSoftware(db, form, userId, now, normalize).value;
    ResolveOrCreateMeaning(db1, form, userId, later, normalize);
    CreateSoftwareSoftwares(db1, form, userId, later, normalize);
  }
  /**
   * `makeUpdateSoftware` never creates or removes a software: it rewrites the
   * row of `id` from the form (keeping its dereferencing, its general
   * information and, when the form has none, its custom attributes), leaves
   * every other software and every existing external record as it was, and
   * replaces the similar softwares of `id` by exactly the submitted items,
   * each under its own source.
   */
  lemma UpdateSoftwareMeaning(db: Db, form: SoftwareForm, userId: nat, id: nat, now: int)
    requires Valid(db)
    ensures var r := UpdateSoftware(db, form, userId, id, now);
      var items := form.similarSoftwareExternalDataItems;
      && Valid(r)
      && r.softwares.Keys == db.softwares.Keys && r.nextSoftwareId == db.nextSoftwareId
      && (forall other | other in db.softwares && other != id :: r.softwares[other] == db.softwares[other])
      && (id in db.softwares ==>
            var before, after := db.softwares[id], r.softwares[id];
            && after.updateTime == now && after.referencedSinceTime == before.referencedSinceTime
            && after.fields.name == form.softwareName
            && after.fields.description == form.softwareDescription
            && after.fields.license == form.softwareLicense
            && after.fields.logoUrl == form.softwareLogoUrl
            && after.fields.softwareType == form.softwareType
            && after.fields.keywords == form.softwareKeywords
            && after.fields.addedByUserId == userId
            && after.fields.workshopUrls == [] && after.fields.categories == []
            && !after.fields.isStillInObservation
            && after.fields.dereferencing == before.fields.dereferencing
            && after.fields.generalInfoMd == before.fields.generalInfoMd
            && after.fields.customAttributes
                 == (if form.customAttributes.Some? then form.customAttributes else before.fields.customAttributes))
      && (forall k | k in db.externalData :: k in r.externalData && r.externalData[k] == db.externalData[k])
      && (forall k | k in r.externalData && k !in db.externalData ::
            && r.externalData[k].softwareId.None?
            && exists it | it in items :: k == ExtKey(it.sourceSlug, it.externalId))
      && (forall l: Link | l.softwareId == id ::
            l in r.similar <==> exists it | it in items :: l == Link(id, it.sourceSlug, it.externalId))
      && (forall l: Link | l.softwareId != id :: l in r.similar <==> l in db.similar)
  {
    var items := form.similarSoftwareExternalDataItems;
    var db1 := SoftwareRepo.UpdateRow(db, id, UpdateFields(form, userId), now);
    var groups := [SoftwareRepo.SimilarGroup(id, items)];
    SoftwareRepo.SaveSimilarReplaces(db1, id, items);
    var r := SoftwareRepo.SaveSimilar(db1, groups);
    forall k | k in r.externalData && k !in db.externalData
      ensures exists it | it in items :: k == ExtKey(it.sourceSlug, it.externalId)
    {
      var g, it :| g in groups && it in g.items && k == ExtKey(it.sourceSlug, it.externalId);
      assert g == groups[0];
    }
  }

  /** An update with no similar items leaves the software with no similar software at all. */
  lemma UpdateWithoutSimilarsClears(db: Db, form: SoftwareForm, userId: nat, id: nat, now: int)
    requires Valid(db) && form.similarSoftwareExternalDataItems == []
    ensures var r := UpdateSoftware(db, form, userId, id, now);
      && r.externalData == db.externalData
      && forall l | l in r.similar :: l.softwareId != id
  {
    UpdateSoftwareMeaning(db, form, userId, id, now);
  }
  /** After the steps that follow resolution, every submitted similar item has a record under the form's source. */
  lemma CompleteHasSimilarRows(db1: Db, form: SoftwareForm, id: nat)
    ensures var db3 := Complete(db1, form, id);
      forall it | it in form.similarSoftwareExternalDataItems :: ExtKey(form.sourceSlug, it.externalId) in db3.externalData
  {
    var items := form.similarSoftwareExternalDataItems;
    var forced := ForceSource(items, form.sourceSlug);
    var groups := [SoftwareRepo.SimilarGroup(id, forced)];
    forall it | it in items
      ensures Link(id, form.sourceSlug, it.externalId) in SoftwareRepo.NewLinks(groups)
    {
      var i :| 0 <= i < |items| && items[i] == it;
      assert forced[i] in groups[0].items;
    }
  }

  /**
   * A similar item that had no record before `makeCreateSofware` gets one that
   * is linked to no software, so the details of the created software list it
   * as unregistered.
   */
  lemma FreshSimilarUnregistered(db: Db, form: SoftwareForm, userId: nat, now: int, normalize: string -> Option<string>,
                                 it: SoftwareRepo.SimilarItem)
    requires Valid(db)
    requires CreateSoftware(db, form, userId, now, normalize).Ok?
    requires it in form.similarSoftwareExternalDataItems
    requires ExtKey(form.sourceSlug, it.externalId) !in db.externalData
    requires !(Given(form.externalIdForSource) && FormKey(form) == ExtKey(form.sourceSlug, it.externalId))
    ensures var (db2, id) := CreateSoftware(db, form, userId, now, normalize).value;
      var k := ExtKey(form.sourceSlug, it.externalId);
      && k in db2.externalData
      && db2.externalData[k].softwareId.None?
      && SoftwareRepo.ProjectSimilar(db2, db2.externalData[k]).Unregistered?
  {
    var (db1, id) := ResolveOrCreate(db, form, userId, now, normalize).value;
    CompleteHasSimilarRows(db1, form, id);
    CreateSoftwareNewRows(db, form, userId, now, normalize);
  }
}
