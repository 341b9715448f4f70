// The softwares repository (createPgSoftwareRepository): the table writes as
// functions on the database, and the read-side assembly of getFullList and
// getDetails.
module SoftwareRepo {
  import opened Wrappers
  import opened Catalogi
  import opened ExternalData
  import opened Tables
  import ExternalDataRepo
  import Fusion

  // ----------------------------------------------------------------- lookups

  /** The lowest id at or after `from` whose row has exactly that name. */
  function LowestNamed(db: Db, name: string, from: nat): (r: Option<nat>)
    decreases db.nextSoftwareId - from
    ensures r.Some? ==> from <= r.value < db.nextSoftwareId
    ensures r.Some? ==> r.value in db.softwares && db.softwares[r.value].fields.name == name
    ensures forall id | from <= id < (if r.Some? then r.value else db.nextSoftwareId) && id in db.softwares ::
      db.softwares[id].fields.name != name
  {
    if from >= db.nextSoftwareId then None
    else if from in db.softwares && db.softwares[from].fields.name == name then Some(from)
    else LowestNamed(db, name, from + 1)
  }

  /**
   * `getByName`: a software with exactly that name, dereferenced or not. The
   * query takes the first row the table returns; the model takes the lowest id.
   */
  function GetByName(db: Db, name: string): (r: Option<nat>)
    ensures r.Some? ==> r.value in db.softwares && db.softwares[r.value].fields.name == name
    ensures r.Some? ==> forall id | id in db.softwares && id < r.value :: db.softwares[id].fields.name != name
    ensures Valid(db) ==> (r.None? <==> forall id | id in db.softwares :: db.softwares[id].fields.name != name)
  {
    LowestNamed(db, name, 0)
  }

  /** `getSoftwareIdByExternalIdAndSlug`: the link of the row with that key, if any. */
  function SoftwareIdByExternalKey(db: Db, k: ExtKey): (r: Option<nat>)
    ensures r.Some? <==> k in db.externalData && db.externalData[k].softwareId.Some?
    ensures r.Some? ==> db.externalData[k].softwareId == r
  {
    if k in db.externalData then db.externalData[k].softwareId else None
  }

  // ------------------------------------------------------------------ writes

  /** `create`: inserts the row under the next id, stamped with `updateTime = now`, and returns the id. */
  function Create(db: Db, fields: SoftwareFields, referencedSinceTime: int, now: int): (r: (Db, nat))
    ensures r.1 == db.nextSoftwareId && r.0.nextSoftwareId == db.nextSoftwareId + 1
    ensures Valid(db) ==> r.1 !in db.softwares && r.1 != 0
    ensures r.0.softwares.Keys == db.softwares.Keys + {r.1}
    ensures r.0.softwares[r.1] == SoftwareRow(fields, referencedSinceTime, now)
    ensures forall id | id in db.softwares && id != r.1 :: r.0.softwares[id] == db.softwares[id]
    ensures r.0.externalData == db.externalData && r.0.extOrder == db.extOrder
    ensures r.0.sources == db.sources && r.0.similar == db.similar
    ensures Valid(db) ==> Valid(r.0)
  {
    var id := db.nextSoftwareId;
    (db.(softwares := db.softwares[id := SoftwareRow(fields, referencedSinceTime, now)], nextSoftwareId := id + 1), id)
  }

  /**
   * `update`: rewrites the row with id `id`. `dereferencing`,
   * `customAttributes` and `generalInfoMd` are dropped from the SET list when
   * undefined and keep their stored value; `logoUrl` is written as given (null
   * when undefined); `isStillInObservation` is always false and `updateTime`
   * is `now`. A missing id matches no row.
   */
  function UpdateRow(db: Db, id: nat, fields: SoftwareFields, now: int): (r: Db)
    ensures r.softwares.Keys == db.softwares.Keys && r.nextSoftwareId == db.nextSoftwareId
    ensures id !in db.softwares ==> r == db
    ensures forall other | other in db.softwares && other != id :: r.softwares[other] == db.softwares[other]
    ensures id in db.softwares ==>
      var before, after := db.softwares[id], r.softwares[id];
      && after.updateTime == now
      && after.referencedSinceTime == before.referencedSinceTime
      && !after.fields.isStillInObservation
      && after.fields.name == fields.name
      && after.fields.logoUrl == fields.logoUrl
      && (fields.dereferencing.None? ==> after.fields.dereferencing == before.fields.dereferencing)
      && (fields.customAttributes.None? ==> after.fields.customAttributes == before.fields.customAttributes)
      && (fields.generalInfoMd.None? ==> after.fields.generalInfoMd == before.fields.generalInfoMd)
      && after.fields == fields.(
           isStillInObservation := false,
           dereferencing := after.fields.dereferencing,
           customAttributes := after.fields.customAttributes,
           generalInfoMd := after.fields.generalInfoMd)
    ensures r.externalData == db.externalData && r.extOrder == db.extOrder
    ensures r.sources == db.sources && r.similar == db.similar
    ensures Valid(db) ==> Valid(r)
  {
    if id !in db.softwares then db
    else
      var before := db.softwares[id];
      var f := fields.(
        isStillInObservation := false,
        dereferencing := if fields.dereferencing.Some? then fields.dereferencing else before.fields.dereferencing,
        customAttributes := if fields.customAttributes.Some? then fields.customAttributes else before.fields.customAttributes,
        generalInfoMd := if fields.generalInfoMd.Some? then fields.generalInfoMd else before.fields.generalInfoMd);
      db.(softwares := db.softwares[id := SoftwareRow(f, before.referencedSinceTime, now)])
  }

  /** `customAttributes?.versionMin` of a row. */
  function VersionMin(row: SoftwareRow): Option<AttributeValue>
  {
    if row.fields.customAttributes.Some? && "versionMin" in row.fields.customAttributes.value
    then Some(row.fields.customAttributes.value["versionMin"])
    else None
  }

  /**
   * `unreference`: records why and when a software left the catalogue, with
   * its `versionMin` attribute as the last recommended version. The lookup
   * throws for an unknown id.
   */
  function Unreference(db: Db, id: nat, reason: string, time: int): (r: Result<Db, Failure>)
    ensures r.Err? <==> id !in db.softwares
    ensures r.Err? ==> r.error == SoftwareNotFound
    ensures r.Ok? ==>
      && r.value.softwares.Keys == db.softwares.Keys
      && r.value.softwares[id] == db.softwares[id].(fields := db.softwares[id].fields.(
           dereferencing := Some(Dereferencing(reason, time, VersionMin(db.softwares[id])))))
      && (forall other | other in db.softwares && other != id :: r.value.softwares[other] == db.softwares[other])
      && r.value.externalData == db.externalData && r.value.similar == db.similar
      && (Valid(db) ==> Valid(r.value))
  {
    if id !in db.softwares then Err(SoftwareNotFound)
    else
      var row := db.softwares[id];
      var deref := Dereferencing(reason, time, VersionMin(row));
      Ok(db.(softwares := db.softwares[id := row.(fields := row.fields.(dereferencing := Some(deref)))]))
  }

  // -------------------------------------------------------- saveSimilarSoftwares

  /** `SoftwareExternalDataOption`: a provider record proposed as similar software. */
  datatype SimilarItem = SimilarItem(
    externalId: string,
    displayLabel: LocalizedString,
    description: LocalizedString,
    isLibreSoftware: Option<bool>,
    sourceSlug: string)

  /** One entry of the `saveSimilarSoftwares` argument. */
  datatype SimilarGroup = SimilarGroup(softwareId: nat, items: seq<SimilarItem>)

  /** The external row a similar item needs: never linked to a software. */
  function ToSaveItem(it: SimilarItem): ExternalDataRepo.SaveItem
  {
    ExternalDataRepo.SaveItem(it.sourceSlug, it.externalId, None, Some(it.displayLabel), Some(it.description), it.isLibreSoftware)
  }

  function GroupSaveItems(items: seq<SimilarItem>): (r: seq<ExternalDataRepo.SaveItem>)
    decreases |items|
    ensures forall it | it in items :: ToSaveItem(it) in r
    ensures forall x | x in r :: exists it | it in items :: x == ToSaveItem(it)
    ensures forall x | x in r :: x.softwareId.None?
  {
    if items == [] then []
    else
      var init := items[..|items| - 1];
      assert forall it | it in items :: it in init || it == items[|items| - 1];
      GroupSaveItems(init) + [ToSaveItem(items[|items| - 1])]
  }

  /** The `dataToInsert` of `saveSimilarSoftwares`, as external rows, in order. */
  function SimilarSaveItems(groups: seq<SimilarGroup>): (r: seq<ExternalDataRepo.SaveItem>)
    decreases |groups|
    ensures forall g, it | g in groups && it in g.items :: ToSaveItem(it) in r
    ensures forall x | x in r :: exists g, it | g in groups && it in g.items :: x == ToSaveItem(it)
    ensures forall x | x in r :: x.softwareId.None?
    ensures r == [] <==> forall g | g in groups :: g.items == []
  {
    if groups == [] then []
    else
      var init := groups[..|groups| - 1];
      assert forall g | g in groups :: g in init || g == groups[|groups| - 1];
      SimilarSaveItems(init) + GroupSaveItems(groups[|groups| - 1].items)
  }

  function GroupIds(groups: seq<SimilarGroup>): set<nat>
  {
    set g | g in groups :: g.softwareId
  }

  /** The similarity triples `saveSimilarSoftwares` inserts. */
  function NewLinks(groups: seq<SimilarGroup>): set<Link>
  {
    set g, it | g in groups && it in g.items :: Link(g.softwareId, it.sourceSlug, it.externalId)
  }

  /**
   * `saveSimilarSoftwares`: makes sure every similar item has an external row
   * (insert-or-ignore, unlinked), then replaces the similarity triples of every
   * software id in `groups` by the submitted ones.
   */
  function SaveSimilar(db: Db, groups: seq<SimilarGroup>): (r: Db)
    ensures forall l :: l in r.similar <==>
      (l in db.similar && l.softwareId !in GroupIds(groups)) || l in NewLinks(groups)
    ensures forall l | l in NewLinks(groups) :: ExtKey(l.sourceSlug, l.similarExternalId) in r.externalData
    ensures forall k | k in db.externalData :: k in r.externalData && r.externalData[k] == db.externalData[k]
    ensures forall k | k in r.externalData && k !in db.externalData :: r.externalData[k].softwareId.None?
    ensures forall k | k in r.externalData && k !in db.externalData ::
      exists g, it | g in groups && it in g.items :: k == ExtKey(it.sourceSlug, it.externalId)
    ensures db.extOrder <= r.extOrder
    ensures r.softwares == db.softwares && r.nextSoftwareId == db.nextSoftwareId && r.sources == db.sources
    ensures Valid(db) ==> Valid(r)
  {
    var items := SimilarSaveItems(groups);
    var inserted := if items != [] then ExternalDataRepo.InsertRows(db, items) else db;
    SimilarRowsInserted(db, groups);
    inserted.(similar := KeptLinks(db.similar, groups) + NewLinks(groups))
  }

  /** `SaveSimilar` as its two steps: the rows inserted, then the links replaced. */
  lemma SaveSimilarSteps(db: Db, groups: seq<SimilarGroup>, inserted: Db)
    requires inserted == if SimilarSaveItems(groups) != [] then ExternalDataRepo.InsertRows(db, SimilarSaveItems(groups)) else db
    ensures SaveSimilar(db, groups) == inserted.(similar := KeptLinks(db.similar, groups) + NewLinks(groups))
  {
  }

  /** The links of softwares outside the submitted groups. */
  function KeptLinks(similar: set<Link>, groups: seq<SimilarGroup>): (r: set<Link>)
    ensures forall l :: l in r <==> l in similar && l.softwareId !in GroupIds(groups)
  {
    set l | l in similar && l.softwareId !in GroupIds(groups)
  }

  /** The first step of `SaveSimilar`: every submitted item has a row afterwards, and the new rows are unlinked. */
  lemma SimilarRowsInserted(db: Db, groups: seq<SimilarGroup>)
    ensures var items := SimilarSaveItems(groups);
      var inserted := if items != [] then ExternalDataRepo.InsertRows(db, items) else db;
      && (forall l | l in NewLinks(groups) :: ExtKey(l.sourceSlug, l.similarExternalId) in inserted.externalData)
      && (forall k | k in inserted.externalData && k !in db.externalData :: inserted.externalData[k].softwareId.None?)
      && (forall k | k in inserted.externalData && k !in db.externalData ::
            exists g, it | g in groups && it in g.items :: k == ExtKey(it.sourceSlug, it.externalId))
  {
    var items := SimilarSaveItems(groups);
    var inserted := if items != [] then ExternalDataRepo.InsertRows(db, items) else db;
    forall l | l in NewLinks(groups) ensures ExtKey(l.sourceSlug, l.similarExternalId) in inserted.externalData {
      var g, it :| g in groups && it in g.items && l == Link(g.softwareId, it.sourceSlug, it.externalId);
      var x := ToSaveItem(it);
      assert x in items;
      var i :| 0 <= i < |items| && items[i] == x;
      ExternalDataRepo.FirstItemMeaning(items, ExternalDataRepo.ItemKey(x));
    }
    forall k | k in inserted.externalData && k !in db.externalData
      ensures inserted.externalData[k].softwareId.None?
      ensures exists g, it | g in groups && it in g.items :: k == ExtKey(it.sourceSlug, it.externalId)
    {
      ExternalDataRepo.FirstItemMeaning(items, k);
      var i :| 0 <= i < |items| && ExternalDataRepo.ItemKey(items[i]) == k;
      assert items[i] in items;
      var g, it :| g in groups && it in g.items && items[i] == ToSaveItem(it);
    }
  }

  /** For one software, the similarity triples afterwards are exactly the submitted items: a full replace. */
  lemma SaveSimilarReplaces(db: Db, id: nat, items: seq<SimilarItem>)
    ensures var r := SaveSimilar(db, [SimilarGroup(id, items)]);
      && (forall l: Link | l.softwareId == id ::
            l in r.similar <==> exists it | it in items :: l == Link(id, it.sourceSlug, it.externalId))
      && (forall l: Link | l.softwareId != id :: l in r.similar <==> l in db.similar)
  {
    var groups := [SimilarGroup(id, items)];
    assert GroupIds(groups) == {id};
    forall l ensures l in NewLinks(groups) <==> exists it | it in items :: l == Link(id, it.sourceSlug, it.externalId) {
      if l in NewLinks(groups) {
        var g, it :| g in groups && it in g.items && l == Link(g.softwareId, it.sourceSlug, it.externalId);
        assert g == groups[0];
      }
      if exists it | it in items :: l == Link(id, it.sourceSlug, it.externalId) {
        var it :| it in items && l == Link(id, it.sourceSlug, it.externalId);
        assert groups[0] in groups && it in groups[0].items;
      }
    }
  }

  // ------------------------------------------------------------ count aggregation

  datatype Counts = Counts(userCount: nat, referentCount: nat)

  datatype CountType = UserCount | ReferentCount

  /** A row of the grouped count queries: one (software, organisation, kind) and its count. */
  datatype CountRow = CountRow(softwareId: nat, organization: Option<string>, countType: CountType, count: nat)

  function OrgName(organization: Option<string>): string
  {
    organization.OrElse("NO_ORGANIZATION")
  }

  function SetCount(c: Counts, t: CountType, n: nat): Counts
  {
    match t
    case UserCount => c.(userCount := n)
    case ReferentCount => c.(referentCount := n)
  }

  function CountOf(c: Counts, t: CountType): nat
  {
    match t
    case UserCount => c.userCount
    case ReferentCount => c.referentCount
  }

  /** `aggregateCounts`: nests the rows by software id then organisation. */
  function AggregateCounts(rows: seq<CountRow>): (r: map<nat, map<string, Counts>>)
    decreases |rows|
    ensures forall i | 0 <= i < |rows| :: rows[i].softwareId in r && OrgName(rows[i].organization) in r[rows[i].softwareId]
  {
    if rows == [] then map[]
    else
      var n := |rows| - 1;
      assert forall i | 0 <= i < n :: rows[..n][i] == rows[i];
      var acc := AggregateCounts(rows[..|rows| - 1]);
      var row := rows[|rows| - 1];
      var org := OrgName(row.organization);
      var softwareCounts := if row.softwareId in acc then acc[row.softwareId] else map[];
      var orgCounts := if org in softwareCounts then softwareCounts[org] else Counts(0, 0);
      acc[row.softwareId := softwareCounts[org := SetCount(orgCounts, row.countType, row.count)]]
  }

  /** Reference definition: the count of the last row for that software, organisation and kind. */
  function LastCount(rows: seq<CountRow>, id: nat, org: string, t: CountType): Option<nat>
    decreases |rows|
  {
    if rows == [] then None
    else
      var row := rows[|rows| - 1];
      if row.softwareId == id && OrgName(row.organization) == org && row.countType == t then Some(row.count)
      else LastCount(rows[..|rows| - 1], id, org, t)
  }

  predicate HasRow(rows: seq<CountRow>, id: nat, org: string)
  {
    exists i | 0 <= i < |rows| :: rows[i].softwareId == id && OrgName(rows[i].organization) == org
  }

  /**
   * The nesting has an entry for exactly the (software, organisation) pairs
   * that have rows, null organisations under "NO_ORGANIZATION"; each count is
   * that of its row, and 0 when the kind has none.
   */
  lemma {:induction false} LastCountHasRow(rows: seq<CountRow>, id: nat, org: string, t: CountType)
    decreases |rows|
    ensures LastCount(rows, id, org, t).Some? ==> HasRow(rows, id, org)
  {
    if rows != [] {
      var init := rows[..|rows| - 1];
      LastCountHasRow(init, id, org, t);
      if HasRow(init, id, org) {
        var i :| 0 <= i < |init| && init[i].softwareId == id && OrgName(init[i].organization) == org;
        assert rows[i] == init[i];
      }
      var row := rows[|rows| - 1];
      if row.softwareId == id && OrgName(row.organization) == org {
        assert HasRow(rows, id, org) by {
          assert rows[|rows| - 1] == row;
        }
      }
    }
  }

  lemma {:induction false} AggregateCountsMeaning(rows: seq<CountRow>, id: nat, org: string)
    decreases |rows|
    ensures var m := AggregateCounts(rows);
      && (id in m <==> exists i | 0 <= i < |rows| :: rows[i].softwareId == id)
      && (id in m ==> (org in m[id] <==> HasRow(rows, id, org)))
      && (id in m && org in m[id] ==>
            && m[id][org].userCount == LastCount(rows, id, org, UserCount).OrElse(0)
            && m[id][org].referentCount == LastCount(rows, id, org, ReferentCount).OrElse(0))
  {
    if rows != [] {
      var init := rows[..|rows| - 1];
      var row := rows[|rows| - 1];
      var acc := AggregateCounts(init);
      var m := AggregateCounts(rows);
      AggregateCountsMeaning(init, id, org);
      LastCountHasRow(init, id, org, UserCount);
      LastCountHasRow(init, id, org, ReferentCount);
      assert forall i | 0 <= i < |init| :: init[i] == rows[i];
      assert HasRow(rows, id, org) <==> HasRow(init, id, org) || (row.softwareId == id && OrgName(row.organization) == org) by {
        if HasRow(rows, id, org) && !(row.softwareId == id && OrgName(row.organization) == org) {
          var i :| 0 <= i < |rows| && rows[i].softwareId == id && OrgName(rows[i].organization) == org;
          assert i < |init| && init[i] == rows[i];
        }
        if HasRow(init, id, org) {
          var i :| 0 <= i < |init| && init[i].softwareId == id && OrgName(init[i].organization) == org;
          assert rows[i] == init[i];
        }
        if row.softwareId == id && OrgName(row.organization) == org {
          assert rows[|rows| - 1] == row;
        }
      }
      assert (exists i | 0 <= i < |rows| :: rows[i].softwareId == id) <==>
             (exists i | 0 <= i < |init| :: init[i].softwareId == id) || row.softwareId == id by {
        if row.softwareId == id {
          assert rows[|rows| - 1] == row;
        }
      }
      if row.softwareId == id && OrgName(row.organization) == org {
        var softwareCounts := if id in acc then acc[id] else map[];
        var orgCounts := if org in softwareCounts then softwareCounts[org] else Counts(0, 0);
        assert m[id][org] == SetCount(orgCounts, row.countType, row.count);
        if !(id in acc && org in acc[id]) {
          assert !HasRow(init, id, org);
          assert orgCounts == Counts(0, 0);
        }
      }
    }
  }

  /** The count rows of `getDetails`: one organisation and kind of the software asked for. */
  datatype OrgCountRow = OrgCountRow(organization: Option<string>, countType: CountType, count: nat)

  /** The per-organisation reduce of `getDetails`. */
  function CountsByOrganization(rows: seq<OrgCountRow>): map<string, Counts>
    decreases |rows|
  {
    if rows == [] then map[]
    else
      var acc := CountsByOrganization(rows[..|rows| - 1]);
      var row := rows[|rows| - 1];
      var org := OrgName(row.organization);
      var existing := if org in acc then acc[org] else Counts(0, 0);
      acc[org := SetCount(existing, row.countType, row.count)]
  }

  /** The rows of `rows` for software `id`, without the id. */
  function RowsOf(rows: seq<CountRow>, id: nat): seq<OrgCountRow>
    decreases |rows|
  {
    if rows == [] then []
    else
      var rest := RowsOf(rows[..|rows| - 1], id);
      var row := rows[|rows| - 1];
      if row.softwareId == id then rest + [OrgCountRow(row.organization, row.countType, row.count)] else rest
  }

  /** getFullList and getDetails agree: the nested counts of a software are the per-organisation counts of its rows. */
  lemma {:induction false} CountsAgree(rows: seq<CountRow>, id: nat)
    decreases |rows|
    ensures id in AggregateCounts(rows) ==> AggregateCounts(rows)[id] == CountsByOrganization(RowsOf(rows, id))
    ensures id !in AggregateCounts(rows) ==> RowsOf(rows, id) == []
  {
    if rows != [] {
      var init := rows[..|rows| - 1];
      CountsAgree(init, id);
      var row := rows[|rows| - 1];
      if row.softwareId == id {
        var s := RowsOf(init, id) + [OrgCountRow(row.organization, row.countType, row.count)];
        assert s[..|s| - 1] == RowsOf(init, id);
      }
    }
  }

  /** Two users of OrgA and one referent of OrgB. */
  lemma AggregateCountsExample(id: nat)
    ensures AggregateCounts([CountRow(id, Some("OrgA"), UserCount, 2), CountRow(id, Some("OrgB"), ReferentCount, 1)])
      == map[id := map["OrgA" := Counts(2, 0), "OrgB" := Counts(0, 1)]]
  {
    var rows := [CountRow(id, Some("OrgA"), UserCount, 2), CountRow(id, Some("OrgB"), ReferentCount, 1)];
    assert rows[..1] == [rows[0]] && [rows[0]][..0] == [];
    assert AggregateCounts([rows[0]]) == map[id := map["OrgA" := Counts(2, 0)]];
    assert "OrgB" !in map["OrgA" := Counts(2, 0)];
  }

  // --------------------------------------------------------- similar aggregation

  /** A row of the similar-software join of getFullList. */
  datatype SimilarRow = SimilarRow(softwareId: nat, linkedSoftwareName: Option<string>, displayLabel: Option<LocalizedString>)

  datatype SimilarEntry = SimilarEntry(softwareName: Option<string>, displayLabel: Option<LocalizedString>)

  /** `aggregateSimilars`: groups the rows by software id. */
  function AggregateSimilars(rows: seq<SimilarRow>): map<nat, seq<SimilarEntry>>
    decreases |rows|
  {
    if rows == [] then map[]
    else
      var acc := AggregateSimilars(rows[..|rows| - 1]);
      var row := rows[|rows| - 1];
      var prev := if row.softwareId in acc then acc[row.softwareId] else [];
      acc[row.softwareId := prev + [SimilarEntry(row.linkedSoftwareName, row.displayLabel)]]
  }

  /** Reference definition: the entries of software `id`, in row order. */
  function EntriesOf(rows: seq<SimilarRow>, id: nat): seq<SimilarEntry>
    decreases |rows|
  {
    if rows == [] then []
    else
      var rest := EntriesOf(rows[..|rows| - 1], id);
      var row := rows[|rows| - 1];
      if row.softwareId == id then rest + [SimilarEntry(row.linkedSoftwareName, row.displayLabel)] else rest
  }

  /** Each software's list holds its rows in order; a software has a list iff it has rows. */
  lemma {:induction false} AggregateSimilarsMeaning(rows: seq<SimilarRow>, id: nat)
    decreases |rows|
    ensures id in AggregateSimilars(rows) <==> EntriesOf(rows, id) != []
    ensures id in AggregateSimilars(rows) ==> AggregateSimilars(rows)[id] == EntriesOf(rows, id)
  {
    if rows != [] {
      AggregateSimilarsMeaning(rows[..|rows| - 1], id);
    }
  }

  // ------------------------------------------------------------ list ordering

  /** Code-point lexicographic order on names. */
  predicate NameLe(a: string, b: string)
    decreases |a|
  {
    a == [] || (b != [] && (a[0] < b[0] || (a[0] == b[0] && NameLe(a[1..], b[1..]))))
  }

  lemma {:induction false} NameLeTotal(a: string, b: string)
    decreases |a|
    ensures NameLe(a, b) || NameLe(b, a)
  {
    if a != [] && b != [] && a[0] == b[0] {
      NameLeTotal(a[1..], b[1..]);
    }
  }

  lemma {:induction false} NameLeTrans(a: string, b: string, c: string)
    requires NameLe(a, b) && NameLe(b, c)
    decreases |a|
    ensures NameLe(a, c)
  {
    if a != [] && b != [] && c != [] && a[0] == b[0] && b[0] == c[0] {
      NameLeTrans(a[1..], b[1..], c[1..]);
    }
  }

  /** An active software as the list query returns it: its id and row. */
  datatype Entry = Entry(id: nat, row: SoftwareRow)

  predicate SortedByName(s: seq<Entry>)
  {
    forall i, j | 0 <= i < j < |s| :: NameLe(s[i].row.fields.name, s[j].row.fields.name)
  }

  function Name(e: Entry): string
  {
    e.row.fields.name
  }

  function InsertByName(e: Entry, s: seq<Entry>): seq<Entry>
    decreases |s|
  {
    if s == [] then [e]
    else if NameLe(Name(e), Name(s[0])) then [e] + s
    else [s[0]] + InsertByName(e, s[1..])
  }

  /** Sorts by name ascending (insertion sort; rows with equal names keep no particular order). */
  function SortByName(s: seq<Entry>): (r: seq<Entry>)
    decreases |s|
    ensures multiset(r) == multiset(s)
    ensures SortedByName(r)
  {
    if s == [] then []
    else
      var n := |s| - 1;
      InsertByNamePermutes(s[n], SortByName(s[..n]));
      InsertByNameSorted(s[n], SortByName(s[..n]));
      assert s == s[..n] + [s[n]];
      InsertByName(s[n], SortByName(s[..n]))
  }

  lemma {:induction false} InsertByNamePermutes(e: Entry, s: seq<Entry>)
    decreases |s|
    ensures multiset(InsertByName(e, s)) == multiset(s) + multiset{e}
  {
    if s != [] && !NameLe(Name(e), Name(s[0])) {
      InsertByNamePermutes(e, s[1..]);
      assert s == [s[0]] + s[1..];
    }
  }

  lemma {:induction false} InsertByNameSorted(e: Entry, s: seq<Entry>)
    requires SortedByName(s)
    decreases |s|
    ensures SortedByName(InsertByName(e, s))
  {
    if s == [] {
    } else if NameLe(Name(e), Name(s[0])) {
      forall j | 0 <= j < |s| ensures NameLe(Name(e), Name(s[j])) {
        if j > 0 {
          NameLeTrans(Name(e), Name(s[0]), Name(s[j]));
        }
      }
      ConsSortedByName(e, s);
    } else {
      NameLeTotal(Name(e), Name(s[0]));
      var t := s[1..];
      InsertByNameSorted(e, t);
      InsertByNamePermutes(e, t);
      var u := InsertByName(e, t);
      forall j | 0 <= j < |u| ensures NameLe(Name(s[0]), Name(u[j])) {
        assert u[j] in multiset(u);
        if u[j] != e {
          assert u[j] in multiset(t);
          var m :| 0 <= m < |t| && t[m] == u[j];
          assert t[m] == s[m + 1];
        }
      }
      ConsSortedByName(s[0], u);
    }
  }

  /** An entry no later than every entry of a sorted list may go in front of it. */
  lemma ConsSortedByName(x: Entry, u: seq<Entry>)
    requires SortedByName(u)
    requires forall j | 0 <= j < |u| :: NameLe(Name(x), Name(u[j]))
    ensures SortedByName([x] + u)
  {
    var r := [x] + u;
    forall i, j | 0 <= i < j < |r| ensures NameLe(Name(r[i]), Name(r[j])) {
      assert r[j] == u[j - 1];
      if i > 0 {
        assert r[i] == u[i - 1];
      }
    }
  }

  lemma {:induction false} SortByNameCorrect(s: seq<Entry>)
    decreases |s|
    ensures multiset(SortByName(s)) == multiset(s)
    ensures SortedByName(SortByName(s))
  {
    if s != [] {
      var n := |s| - 1;
      SortByNameCorrect(s[..n]);
      InsertByNamePermutes(s[n], SortByName(s[..n]));
      InsertByNameSorted(s[n], SortByName(s[..n]));
      assert s == s[..n] + [s[n]];
    }
  }

  /** The sorted list has the same entries as the unsorted one. */
  lemma SortByNameMembers(s: seq<Entry>)
    ensures |SortByName(s)| == |s|
    ensures forall e :: e in SortByName(s) <==> e in s
    ensures SortedByName(SortByName(s))
  {
    SortByNameCorrect(s);
    var r := SortByName(s);
    assert |multiset(r)| == |multiset(s)|;
    forall e ensures e in r <==> e in s {
      assert e in r <==> e in multiset(r);
      assert e in s <==> e in multiset(s);
    }
  }

  /** The softwares that are not dereferenced, from id `from` up, in id order. */
  function ActiveFrom(db: Db, from: nat): (r: seq<Entry>)
    decreases db.nextSoftwareId - from
    ensures forall e | e in r ::
      && e.id in db.softwares && e.row == db.softwares[e.id]
      && e.row.fields.dereferencing.None? && from <= e.id < db.nextSoftwareId
    ensures forall id | from <= id < db.nextSoftwareId && id in db.softwares && db.softwares[id].fields.dereferencing.None? ::
      Entry(id, db.softwares[id]) in r
    ensures forall i, j | 0 <= i < j < |r| :: r[i].id < r[j].id
  {
    if from >= db.nextSoftwareId then []
    else
      var rest := ActiveFrom(db, from + 1);
      if from in db.softwares && db.softwares[from].fields.dereferencing.None?
      then [Entry(from, db.softwares[from])] + rest
      else rest
  }

  // --------------------------------------------------------------- getFullList

  datatype LatestVersion = LatestVersion(semVer: Option<string>, publicationTime: Option<int>)

  /** `SoftwareInList` as the API returns it. */
  datatype SoftwareInList = SoftwareInList(
    id: nat,
    softwareName: string,
    softwareDescription: string,
    logoUrl: Option<string>,
    latestVersion: Option<LatestVersion>,
    addedTime: int,
    updateTime: int,
    applicationCategories: seq<string>,
    keywords: seq<string>,
    softwareType: SoftwareType,
    customAttributes: Option<map<string, AttributeValue>>,
    programmingLanguages: seq<string>,
    authors: seq<string>,
    userAndReferentCountByOrganization: map<string, Counts>,
    similarSoftwares: seq<SimilarEntry>)

  function Names(devs: seq<Developer>): (r: seq<string>)
    ensures |r| == |devs| && forall i | 0 <= i < |devs| :: r[i] == devs[i].name
  {
    seq(|devs|, i requires 0 <= i < |devs| => devs[i].name)
  }

  function ListItem(e: Entry, ext: Option<ExternalData>, counts: map<nat, map<string, Counts>>,
                    similars: map<nat, seq<SimilarEntry>>): SoftwareInList
  {
    var f := e.row.fields;
    SoftwareInList(
      e.id, f.name, f.description,
      if ext.Some? && ext.value.logoUrl.Some? then ext.value.logoUrl else f.logoUrl,
      if ext.Some? then Some(LatestVersion(ext.value.softwareVersion, ext.value.publicationTime)) else None,
      e.row.referencedSinceTime, e.row.updateTime,
      f.categories + (if ext.Some? then ext.value.applicationCategories.OrElse([]) else []),
      f.keywords, f.softwareType, f.customAttributes,
      if ext.Some? then ext.value.programmingLanguages.OrElse([]) else [],
      if ext.Some? then Names(ext.value.developers.OrElse([])) else [],
      if e.id in counts then counts[e.id] else map[],
      if e.id in similars then similars[e.id] else [])
  }

  /**
   * `getFullList`: the softwares that are not dereferenced, by name, each with
   * its fused external data, its counts and its similar softwares. The count
   * rows and the similar-software rows are the results of aggregate queries
   * and are parameters.
   */
  function FullList(db: Db, countRows: seq<CountRow>, similarRows: seq<SimilarRow>): (r: seq<SoftwareInList>)
    ensures |r| == |ActiveFrom(db, 0)|
    ensures forall i, j | 0 <= i < j < |r| :: NameLe(r[i].softwareName, r[j].softwareName)
    ensures forall i | 0 <= i < |r| ::
      && r[i].id in db.softwares
      && db.softwares[r[i].id].fields.dereferencing.None?
      && r[i].softwareName == db.softwares[r[i].id].fields.name
    ensures forall id | 0 <= id < db.nextSoftwareId && id in db.softwares && db.softwares[id].fields.dereferencing.None? ::
      exists i | 0 <= i < |r| :: r[i].id == id
    ensures var merged := ExternalDataRepo.MergedForAllSoftwares(db);
      forall i | 0 <= i < |r| && r[i].id in db.softwares ::
        r[i] == ListItem(Entry(r[i].id, db.softwares[r[i].id]),
                         if r[i].id in merged then Some(merged[r[i].id]) else None,
                         AggregateCounts(countRows), AggregateSimilars(similarRows))
  {
    var sorted := SortByName(ActiveFrom(db, 0));
    var merged := ExternalDataRepo.MergedForAllSoftwares(db);
    var counts := AggregateCounts(countRows);
    var similars := AggregateSimilars(similarRows);
    ActiveSorted(db);
    StoredEntries(db, sorted);
    Assemble(sorted, merged, counts, similars)
  }

  /** Entries that are stored rows are, position by position, the entries of their ids. */
  lemma StoredEntries(db: Db, s: seq<Entry>)
    requires forall e | e in s :: e.id in db.softwares && e.row == db.softwares[e.id]
    ensures forall i | 0 <= i < |s| :: s[i].id in db.softwares && s[i] == Entry(s[i].id, db.softwares[s[i].id])
  {
    forall i | 0 <= i < |s| ensures s[i].id in db.softwares && s[i] == Entry(s[i].id, db.softwares[s[i].id]) {
      assert s[i] in s;
    }
  }

  /** The active rows sorted by name are exactly the active rows, each at some position. */
  lemma ActiveSorted(db: Db)
    ensures var s := SortByName(ActiveFrom(db, 0));
      && |s| == |ActiveFrom(db, 0)|
      && SortedByName(s)
      && (forall e | e in s :: e.id in db.softwares && e.row == db.softwares[e.id] && e.row.fields.dereferencing.None?)
      && (forall id | 0 <= id < db.nextSoftwareId && id in db.softwares && db.softwares[id].fields.dereferencing.None? ::
            exists i | 0 <= i < |s| :: s[i].id == id)
  {
    var sorted := SortByName(ActiveFrom(db, 0));
    SortByNameMembers(ActiveFrom(db, 0));
    forall id | 0 <= id < db.nextSoftwareId && id in db.softwares && db.softwares[id].fields.dereferencing.None?
      ensures exists i | 0 <= i < |sorted| :: sorted[i].id == id
    {
      var e := Entry(id, db.softwares[id]);
      assert e in sorted;
      var i :| 0 <= i < |sorted| && sorted[i] == e;
    }
  }

  /** One list entry per software row, in order. */
  function Assemble(entries: seq<Entry>, merged: map<nat, ExternalData>, counts: map<nat, map<string, Counts>>,
                    similars: map<nat, seq<SimilarEntry>>): (r: seq<SoftwareInList>)
    ensures |r| == |entries|
    ensures forall i | 0 <= i < |r| ::
      r[i] == ListItem(entries[i], if entries[i].id in merged then Some(merged[entries[i].id]) else None, counts, similars)
    ensures forall i | 0 <= i < |r| :: r[i].id == entries[i].id && r[i].softwareName == Name(entries[i])
  {
    seq(|entries|, i requires 0 <= i < |entries| =>
      ListItem(entries[i], if entries[i].id in merged then Some(merged[entries[i].id]) else None, counts, similars))
  }

  /** The field rules of one list entry: logo and categories combine the row and the fused external data. */
  lemma ListItemFields(e: Entry, ext: Option<ExternalData>, counts: map<nat, map<string, Counts>>,
                       similars: map<nat, seq<SimilarEntry>>)
    ensures var item := ListItem(e, ext, counts, similars);
      && (ext.Some? && ext.value.logoUrl.Some? ==> item.logoUrl == ext.value.logoUrl)
      && ((ext.None? || ext.value.logoUrl.None?) ==> item.logoUrl == e.row.fields.logoUrl)
      && (item.latestVersion.Some? <==> ext.Some?)
      && e.row.fields.categories <= item.applicationCategories
      && (ext.None? ==> item.applicationCategories == e.row.fields.categories && item.authors == [])
      && (e.id !in counts ==> item.userAndReferentCountByOrganization == map[])
      && (e.id !in similars ==> item.similarSoftwares == [])
  {
  }

  // ---------------------------------------------------------------- getDetails

  /** `Software.SimilarSoftware`. */
  datatype SimilarSoftware =
    | Registered(
        softwareId: nat, softwareName: Option<string>, softwareDescription: Option<string>,
        externalId: string, displayLabel: Option<LocalizedString>, description: Option<LocalizedString>,
        isLibreSoftware: Option<bool>, sourceSlug: string)
    | Unregistered(
        sourceSlug: string, externalId: string, isLibreSoftware: Option<bool>,
        displayLabel: Option<LocalizedString>, description: Option<LocalizedString>)

  /**
   * The projection of one similar external row: registered when it links (with
   * a truthy id) to a software whose dereferencing is null, which the left join
   * also reports for a link to a missing software.
   */
  function ProjectSimilar(db: Db, row: ExternalData): (r: SimilarSoftware)
    ensures r.Registered? <==>
      TruthyId(row.softwareId)
      && (row.softwareId.value !in db.softwares || db.softwares[row.softwareId.value].fields.dereferencing.None?)
    ensures r.externalId == row.externalId && r.sourceSlug == row.sourceSlug
    ensures r.displayLabel == row.displayLabel && r.description == row.description
    ensures r.isLibreSoftware == row.isLibreSoftware
    ensures r.Registered? ==> r.softwareId == row.softwareId.value
    ensures r.Registered? && r.softwareId in db.softwares ==>
      && r.softwareName == Some(db.softwares[r.softwareId].fields.name)
      && r.softwareDescription == Some(db.softwares[r.softwareId].fields.description)
  {
    var linked := if row.softwareId.Some? && row.softwareId.value in db.softwares
                  then Some(db.softwares[row.softwareId.value]) else None;
    if TruthyId(row.softwareId) && (linked.None? || linked.value.fields.dereferencing.None?) then
      Registered(row.softwareId.value,
                 if linked.Some? then Some(linked.value.fields.name) else None,
                 if linked.Some? then Some(linked.value.fields.description) else None,
                 row.externalId, row.displayLabel, row.description, row.isLibreSoftware, row.sourceSlug)
    else
      Unregistered(row.sourceSlug, row.externalId, row.isLibreSoftware, row.displayLabel, row.description)
  }

  /** The similar join of getDetails over `links`, in their order; a link without an external row is dropped. */
  function SimilarOf(db: Db, links: seq<Link>): (r: seq<SimilarSoftware>)
    decreases |links|
    ensures |r| <= |links|
    ensures forall s | s in r :: exists l | l in links ::
      ExtKey(l.sourceSlug, l.similarExternalId) in db.externalData
      && s == ProjectSimilar(db, db.externalData[ExtKey(l.sourceSlug, l.similarExternalId)])
    ensures forall l | l in links && ExtKey(l.sourceSlug, l.similarExternalId) in db.externalData ::
      ProjectSimilar(db, db.externalData[ExtKey(l.sourceSlug, l.similarExternalId)]) in r
  {
    if links == [] then []
    else
      var rest := SimilarOf(db, links[..|links| - 1]);
      var l := links[|links| - 1];
      var k := ExtKey(l.sourceSlug, l.similarExternalId);
      assert forall x | x in links[..|links| - 1] :: x in links;
      if k in db.externalData then rest + [ProjectSimilar(db, db.externalData[k])] else rest
  }

  /** The similar join keeps link order: the results for `a + b` are those for `a` followed by those for `b`. */
  lemma {:induction false} SimilarOfAppend(db: Db, a: seq<Link>, b: seq<Link>)
    decreases |b|
    ensures SimilarOf(db, a + b) == SimilarOf(db, a) + SimilarOf(db, b)
  {
    if b == [] {
      assert a + b == a;
    } else {
      var n := |b| - 1;
      assert (a + b)[..|a + b| - 1] == a + b[..n];
      assert (a + b)[|a + b| - 1] == b[n];
      SimilarOfAppend(db, a, b[..n]);
    }
  }

  /** `Software` as getDetails returns it. */
  datatype SoftwareDetails = SoftwareDetails(
    softwareId: nat,
    softwareName: string,
    softwareDescription: string,
    logoUrl: Option<string>,
    latestVersion: Option<LatestVersion>,
    addedTime: int,
    updateTime: int,
    dereferencing: Option<Dereferencing>,
    applicationCategories: seq<string>,
    customAttributes: Option<map<string, AttributeValue>>,
    userAndReferentCountByOrganization: map<string, Counts>,
    authors: seq<Developer>,
    officialWebsiteUrl: Option<string>,
    codeRepositoryUrl: Option<string>,
    documentationUrl: Option<string>,
    license: string,
    externalId: Option<string>,
    sourceSlug: Option<string>,
    softwareType: SoftwareType,
    similarSoftwares: seq<SimilarSoftware>,
    keywords: seq<string>,
    programmingLanguages: seq<string>,
    serviceProviders: seq<string>,
    referencePublications: Option<seq<string>>,
    identifiers: Option<seq<Identifier>>)

  /**
   * `getDetails`: undefined for an unknown id; otherwise the row combined with
   * the fusion of its linked external rows. `countRows` are the grouped user
   * and referent counts of this software, `links` its similarity triples in the
   * order the join returns them.
   */
  function Details(db: Db, id: nat, countRows: seq<OrgCountRow>, links: seq<Link>): (r: Option<SoftwareDetails>)
    ensures r.None? <==> id !in db.softwares
    ensures r.Some? ==>
      var row := db.softwares[id];
      var ext := Fusion.Merged(ExternalDataRepo.LinkedRows(db, db.extOrder, id));
      && r.value.softwareId == id
      && r.value.license == (if ext.Some? && ext.value.license.Some? then ext.value.license.value else row.fields.license)
      && r.value.externalId == (if ext.Some? then Some(ext.value.externalId) else None)
      && r.value.sourceSlug == (if ext.Some? then Some(ext.value.sourceSlug) else None)
      && r.value.userAndReferentCountByOrganization == CountsByOrganization(countRows)
      && r.value.similarSoftwares == SimilarOf(db, links)
    ensures r.Some? ==>
      var row := db.softwares[id];
      var f := row.fields;
      var ext := Fusion.Merged(ExternalDataRepo.LinkedRows(db, db.extOrder, id));
      && r.value.softwareName == f.name && r.value.softwareDescription == f.description
      && r.value.addedTime == row.referencedSinceTime && r.value.updateTime == row.updateTime
      && r.value.dereferencing == f.dereferencing && r.value.customAttributes == f.customAttributes
      && r.value.softwareType == f.softwareType && r.value.keywords == f.keywords
      && (ext.Some? && ext.value.logoUrl.Some? ==> r.value.logoUrl == ext.value.logoUrl)
      && (ext.None? || ext.value.logoUrl.None? ==> r.value.logoUrl == f.logoUrl)
      && (ext.None? ==>
            && r.value.latestVersion.None? && r.value.applicationCategories == f.categories
            && r.value.authors == [] && r.value.programmingLanguages == [] && r.value.serviceProviders == []
            && r.value.officialWebsiteUrl.None? && r.value.codeRepositoryUrl.None? && r.value.documentationUrl.None?
            && r.value.referencePublications.None? && r.value.identifiers.None?)
      && (ext.Some? ==>
            && r.value.latestVersion == Some(LatestVersion(ext.value.softwareVersion, ext.value.publicationTime))
            && r.value.applicationCategories == f.categories + ext.value.applicationCategories.OrElse([])
            && r.value.authors == ext.value.developers.OrElse([])
            && r.value.programmingLanguages == ext.value.programmingLanguages.OrElse([])
            && r.value.serviceProviders == ext.value.providers.OrElse([])
            && r.value.officialWebsiteUrl == ext.value.websiteUrl
            && r.value.codeRepositoryUrl == ext.value.sourceUrl
            && r.value.documentationUrl == ext.value.documentationUrl
            && r.value.referencePublications == ext.value.referencePublications
            && r.value.identifiers == ext.value.identifiers)
  {
    if id !in db.softwares then None
    else
      var row := db.softwares[id];
      var f := row.fields;
      var ext := Fusion.Merged(ExternalDataRepo.LinkedRows(db, db.extOrder, id));
      Some(SoftwareDetails(
        id, f.name, f.description,
        if ext.Some? && ext.value.logoUrl.Some? then ext.value.logoUrl else f.logoUrl,
        if ext.Some? then Some(LatestVersion(ext.value.softwareVersion, ext.value.publicationTime)) else None,
        row.referencedSinceTime, row.updateTime, f.dereferencing,
        f.categories + (if ext.Some? then ext.value.applicationCategories.OrElse([]) else []),
        f.customAttributes,
        CountsByOrganization(countRows),
        if ext.Some? then ext.value.developers.OrElse([]) else [],
        if ext.Some? then ext.value.websiteUrl else None,
        if ext.Some? then ext.value.sourceUrl else None,
        if ext.Some? then ext.value.documentationUrl else None,
        if ext.Some? && ext.value.license.Some? then ext.value.license.value else f.license,
        if ext.Some? then Some(ext.value.externalId) else None,
        if ext.Some? then Some(ext.value.sourceSlug) else None,
        f.softwareType,
        SimilarOf(db, links),
        f.keywords,
        if ext.Some? then ext.value.programmingLanguages.OrElse([]) else [],
        if ext.Some? then ext.value.providers.OrElse([]) else [],
        if ext.Some? then ext.value.referencePublications else None,
        if ext.Some? then ext.value.identifiers else None))
  }

  /**
   * The details of a software and its entry in the full list fuse the same
   * external data the same way: logo, latest version, categories, languages,
   * keywords and author names agree.
   */
  lemma DetailsAgreeWithList(db: Db, id: nat, countRows: seq<OrgCountRow>, links: seq<Link>,
                             counts: map<nat, map<string, Counts>>, similars: map<nat, seq<SimilarEntry>>)
    requires id in db.softwares
    ensures var d := Details(db, id, countRows, links).value;
      var ext := Fusion.Merged(ExternalDataRepo.LinkedRows(db, db.extOrder, id));
      var item := ListItem(Entry(id, db.softwares[id]), ext, counts, similars);
      && d.softwareId == item.id && d.softwareName == item.softwareName
      && d.logoUrl == item.logoUrl && d.latestVersion == item.latestVersion
      && d.applicationCategories == item.applicationCategories
      && d.programmingLanguages == item.programmingLanguages && d.keywords == item.keywords
      && Names(d.authors) == item.authors
  {
  }
}
