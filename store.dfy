// The database behind the repositories (DbApiV2) as one mutable object: each
// table is a field, and each repository call changes the fields exactly as the
// matching function of ExternalDataRepo or SoftwareRepo says.
module Store {
  import opened Wrappers
  import opened ExternalData
  import opened Tables
  import ExternalDataRepo
  import SoftwareRepo
  import Fusion

  class Store {
    var sources: map<string, Source>
    var externalData: map<ExtKey, ExternalData>
    var extOrder: seq<ExtKey>
    var softwares: map<nat, SoftwareRow>
    var nextSoftwareId: nat
    var similar: set<Link>

    /** The tables as one value. */
    function State(): Db
      reads this
    {
      Db(sources, externalData, extOrder, softwares, nextSoftwareId, similar)
    }

    ghost predicate Valid()
      reads this
    {
      Tables.Valid(State())
    }

    /** A fresh database with the given sources table. */
    constructor (initialSources: map<string, Source>)
      requires forall s | s in initialSources :: initialSources[s].slug == s
      ensures Valid() && State() == Empty(initialSources)
    {
      sources := initialSources;
      externalData := map[];
      extOrder := [];
      softwares := map[];
      nextSoftwareId := 1;
      similar := {};
    }

    // ------------------------------------------------------ sources repository

    /** `source.getByName`. */
    method GetSource(slug: string) returns (r: Option<Source>)
      ensures r.Some? <==> slug in sources
      ensures r.Some? ==> r.value == sources[slug]
    {
      r := if slug in sources then Some(sources[slug]) else None;
    }

    // ------------------------------------------ external data repository

    /** One insert-or-ignore of `saveMany`. */
    method InsertOne(item: ExternalDataRepo.SaveItem)
      modifies this
      ensures State() == ExternalDataRepo.InsertOne(old(State()), item)
    {
      var k := ExternalDataRepo.ItemKey(item);
      if k !in externalData {
        externalData := externalData[k := ExternalDataRepo.NewRow(item)];
        extOrder := extOrder + [k];
      }
    }

    /** `saveMany`: one insert-or-ignore per item, in order. */
    method SaveMany(items: seq<ExternalDataRepo.SaveItem>)
      requires Valid()
      modifies this
      ensures Valid()
      ensures State() == ExternalDataRepo.InsertRows(old(State()), items)
    {
      ghost var db := State();
      var i := 0;
      while i < |items|
        invariant 0 <= i <= |items|
        invariant State() == ExternalDataRepo.InsertRows(db, items[..i])
      {
        ExternalDataRepo.InsertRowsSnoc(db, items, i);
        InsertOne(items[i]);
        i := i + 1;
      }
      assert items[..|items|] == items;
    }

    /** `softwareExternalData.update`. */
    method UpdateExternal(k: ExtKey, softwareId: Option<nat>, lastDataFetchAt: Option<int>, data: ExternalData)
      requires Valid()
      modifies this
      ensures Valid()
      ensures State() == ExternalDataRepo.Update(old(State()), k, softwareId, lastDataFetchAt, data)
    {
      if k in externalData {
        var row := ExternalDataRepo.Overlay(externalData[k], data);
        externalData := externalData[k := row.(softwareId := softwareId, lastDataFetchAt := lastDataFetchAt)];
      }
    }

    /** `softwareExternalData.save`. */
    method Save(data: ExternalData, softwareId: Option<nat>)
      requires Valid()
      modifies this
      ensures Valid()
      ensures State() == ExternalDataRepo.Save(old(State()), data, softwareId)
    {
      ExternalDataRepo.SaveValid(State(), data, softwareId);
      var k := KeyOf(data);
      if k in externalData {
        var before := externalData[k];
        var row := ExternalDataRepo.Overlay(before, data);
        externalData := externalData[k := row.(softwareId := Fusion.PickScalar(before.softwareId, softwareId))];
      } else {
        var row := ExternalDataRepo.Overlay(ExternalDataRepo.Blank(k), data);
        externalData := externalData[k := row.(softwareId := softwareId)];
        extOrder := extOrder + [k];
      }
    }

    /** `softwareExternalData.get`. */
    method Get(k: ExtKey) returns (r: Option<ExternalData>)
      ensures r.Some? <==> k in externalData
      ensures r.Some? ==> r.value == externalData[k]
    {
      r := if k in externalData then Some(externalData[k]) else None;
    }

    /** `getIds`. */
    method GetIds(minuteSkipSince: Option<int>, now: int) returns (r: seq<ExtKey>)
      ensures r == ExternalDataRepo.GetIds(State(), minuteSkipSince, now)
    {
      if minuteSkipSince.None? || minuteSkipSince.value == 0 {
        r := extOrder;
      } else {
        r := ExternalDataRepo.StaleKeys(extOrder, externalData, now - minuteSkipSince.value * 60000);
      }
    }

    /** `softwareExternalData.delete`, reporting whether a row went away. */
    method Delete(k: ExtKey) returns (deleted: bool)
      requires Valid()
      modifies this
      ensures Valid()
      ensures (State(), deleted) == ExternalDataRepo.Delete(old(State()), k)
    {
      deleted := k in externalData;
      externalData := externalData - {k};
      extOrder := ExternalDataRepo.RemoveKey(extOrder, k);
    }

    /**
     * `getOtherIdentifierIdsBySourceURL`: the reduce over the scanned rows,
     * filling the accumulator one row at a time and throwing on a bad row.
     */
    method OtherIdentifierIds(sourceURL: string, normalize: string -> Option<string>)
      returns (r: Result<map<string, nat>, Failure>)
      ensures r == ExternalDataRepo.OtherIdentifierIds(State(), sourceURL, normalize)
    {
      var rows := ExternalDataRepo.ScanRows(State(), extOrder, sourceURL);
      var normalized := normalize(sourceURL);
      var acc: map<string, nat> := map[];
      var i := 0;
      while i < |rows|
        invariant 0 <= i <= |rows|
        invariant ExternalDataRepo.IndexRows(rows[..i], normalized, 1) == Ok(acc)
      {
        var row := rows[i];
        assert rows[..i + 1][..i] == rows[..i];
        if ExternalDataRepo.Eligible(row) {
          if normalized.None? {
            ExternalDataRepo.IndexRowsErrSticks(rows, i + 1, normalized, 1);
            return Err(InvalidUrl);
          }
          var found := ExternalDataRepo.Matches(row.identifiers.value, normalized.value);
          if |found| > 1 {
            ExternalDataRepo.IndexRowsErrSticks(rows, i + 1, normalized, 1);
            return Err(DatabaseCorrupted);
          }
          if |found| > 0 {
            acc := acc[found[0].value := row.softwareId.value];
          }
        }
        i := i + 1;
      }
      assert rows[..|rows|] == rows;
      r := Ok(acc);
    }

    // ----------------------------------------------------- software repository

    /** `software.getByName`: the ids are tried in increasing order and the first row with that name answers. */
    method GetByName(name: string) returns (r: Option<nat>)
      ensures r == SoftwareRepo.GetByName(State(), name)
    {
      var i := 0;
      while i < nextSoftwareId
        invariant i <= nextSoftwareId
        invariant SoftwareRepo.LowestNamed(State(), name, i) == SoftwareRepo.GetByName(State(), name)
      {
        if i in softwares && softwares[i].fields.name == name {
          return Some(i);
        }
        i := i + 1;
      }
      return None;
    }

    /** `getSoftwareIdByExternalIdAndSlug`. */
    method SoftwareIdByExternalKey(k: ExtKey) returns (r: Option<nat>)
      ensures r == SoftwareRepo.SoftwareIdByExternalKey(State(), k)
    {
      r := if k in externalData then externalData[k].softwareId else None;
    }

    /** `software.create`: the row gets the next id of the sequence. */
    method Create(fields: SoftwareFields, referencedSinceTime: int, now: int) returns (id: nat)
      requires Valid()
      modifies this
      ensures Valid()
      ensures (State(), id) == SoftwareRepo.Create(old(State()), fields, referencedSinceTime, now)
    {
      id := nextSoftwareId;
      softwares := softwares[id := SoftwareRow(fields, referencedSinceTime, now)];
      nextSoftwareId := id + 1;
    }

    /** `software.update`. */
    method UpdateSoftware(id: nat, fields: SoftwareFields, now: int)
      requires Valid()
      modifies this
      ensures Valid()
      ensures State() == SoftwareRepo.UpdateRow(old(State()), id, fields, now)
    {
      if id in softwares {
        var before := softwares[id];
        var f := fields.(
          isStillInObservation := false,
          dereferencing := if fields.dereferencing.Some? then fields.dereferencing else before.fields.dereferencing,
          customAttributes := if fields.customAttributes.Some? then fields.customAttributes else before.fields.customAttributes,
          generalInfoMd := if fields.generalInfoMd.Some? then fields.generalInfoMd else before.fields.generalInfoMd);
        softwares := softwares[id := SoftwareRow(f, before.referencedSinceTime, now)];
      }
    }

    /** `software.unreference`; the lookup of an unknown id fails and nothing is written. */
    method Unreference(id: nat, reason: string, time: int) returns (r: Result<(), Failure>)
      requires Valid()
      modifies this
      ensures Valid()
      ensures var spec := SoftwareRepo.Unreference(old(State()), id, reason, time);
        && (spec.Err? ==> r == Err(spec.error) && State() == old(State()))
        && (spec.Ok? ==> r == Ok(()) && State() == spec.value)
    {
      if id !in softwares {
        return Err(SoftwareNotFound);
      }
      var row := softwares[id];
      var deref := Dereferencing(reason, time, SoftwareRepo.VersionMin(row));
      softwares := softwares[id := row.(fields := row.fields.(dereferencing := Some(deref)))];
      r := Ok(());
    }

    /** `saveSimilarSoftwares`: insert the missing rows, then delete and re-insert the triples. */
    method SaveSimilar(groups: seq<SoftwareRepo.SimilarGroup>)
      requires Valid()
      modifies this
      ensures Valid()
      ensures State() == SoftwareRepo.SaveSimilar(old(State()), groups)
    {
      ghost var db := State();
      var items := SoftwareRepo.SimilarSaveItems(groups);
      var links := SoftwareRepo.KeptLinks(similar, groups) + SoftwareRepo.NewLinks(groups);
      if items != [] {
        SaveMany(items);
      }
      SoftwareRepo.SaveSimilarSteps(db, groups, State());
      similar := links;
    }
  }
}
