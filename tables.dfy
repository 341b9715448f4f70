// The API's tables, as values: sources, software_external_datas, softwares and
// softwares__similar_software_external_datas.
module Tables {
  import opened Wrappers
  import opened Catalogi
  import opened ExternalData

  /** The primary key of software_external_datas. */
  datatype ExtKey = ExtKey(sourceSlug: string, externalId: string)

  function KeyOf(r: ExternalData): ExtKey
  {
    ExtKey(r.sourceSlug, r.externalId)
  }

  /** The JSON object stored in `softwares.dereferencing`. */
  datatype Dereferencing = Dereferencing(reason: string, time: int, lastRecommendedVersion: Option<AttributeValue>)

  /**
   * `SoftwareExtrinsicRow`: the columns callers of create and update supply.
   * `None` is `undefined`, which a stored row reads back as null.
   */
  datatype SoftwareFields = SoftwareFields(
    name: string,
    description: string,
    license: string,
    logoUrl: Option<string>,
    dereferencing: Option<Dereferencing>,
    isStillInObservation: bool,
    customAttributes: Option<map<string, AttributeValue>>,
    softwareType: SoftwareType,
    workshopUrls: seq<string>,
    categories: seq<string>,
    generalInfoMd: Option<string>,
    keywords: seq<string>,
    addedByUserId: nat)

  /** A row of `softwares`, without its id (the key of the table). Times are milliseconds. */
  datatype SoftwareRow = SoftwareRow(fields: SoftwareFields, referencedSinceTime: int, updateTime: int)

  /** A row of softwares__similar_software_external_datas. */
  datatype Link = Link(softwareId: nat, sourceSlug: string, similarExternalId: string)

  /**
   * The whole database. `extOrder` lists the keys of `externalData` in insertion
   * order, which is the order in which a query without ORDER BY returns rows in
   * this model. `nextSoftwareId` is the next value of the `softwares.id` sequence.
   */
  datatype Db = Db(
    sources: map<string, Source>,
    externalData: map<ExtKey, ExternalData>,
    extOrder: seq<ExtKey>,
    softwares: map<nat, SoftwareRow>,
    nextSoftwareId: nat,
    similar: set<Link>)

  /** Order and uniqueness of `extOrder`. */
  ghost predicate Distinct<T>(s: seq<T>)
  {
    forall i, j | 0 <= i < j < |s| :: s[i] != s[j]
  }

  /** The invariants every operation of the store keeps. */
  ghost predicate Valid(db: Db)
  {
    && (forall k | k in db.externalData :: KeyOf(db.externalData[k]) == k)
    && Distinct(db.extOrder)
    && (forall k :: k in db.externalData <==> k in db.extOrder)
    && 0 < db.nextSoftwareId
    && (forall id | id in db.softwares :: 0 < id < db.nextSoftwareId)
    && (forall s | s in db.sources :: db.sources[s].slug == s)
  }

  /** The database a fresh deployment starts from: only the sources table is filled. */
  function Empty(sources: map<string, Source>): (db: Db)
    requires forall s | s in sources :: sources[s].slug == s
    ensures Valid(db) && db.externalData == map[] && db.softwares == map[] && db.similar == {}
  {
    Db(sources, map[], [], map[], 1, {})
  }

  /** The errors the API throws in this model. */
  datatype Failure =
    | SourceSlugUnknown
    | DatabaseCorrupted
    | InvalidUrl
    | SoftwareNotFound
}
