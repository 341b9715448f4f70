// Provider records ("external data") as stored in the software_external_datas
// table, and the same records joined with their source row.
module ExternalData {
  import opened Wrappers

  /** Stored as JSON; a language-keyed object is treated as one opaque value. */
  type LocalizedString = string

  /** `Catalogi.Person | Catalogi.Organization`; only the name is modelled. */
  datatype Developer = Person(name: string) | Organization(name: string)

  /** `Catalogi.Identification`: an identifier and the URL of the catalogue that issued it. */
  datatype Identifier = Identifier(value: string, subjectOfUrl: Option<string>)

  /**
   * One row of software_external_datas after null columns are read back as
   * undefined (`None`). `externalId` and `sourceSlug` form the key and are never
   * null. Times are milliseconds since the epoch.
   */
  datatype ExternalData = ExternalData(
    externalId: string,
    sourceSlug: string,
    softwareId: Option<nat>,
    lastDataFetchAt: Option<int>,
    displayLabel: Option<LocalizedString>,
    description: Option<LocalizedString>,
    isLibreSoftware: Option<bool>,
    logoUrl: Option<string>,
    websiteUrl: Option<string>,
    sourceUrl: Option<string>,
    documentationUrl: Option<string>,
    license: Option<string>,
    softwareVersion: Option<string>,
    publicationTime: Option<int>,
    developers: Option<seq<Developer>>,
    keywords: Option<seq<string>>,
    programmingLanguages: Option<seq<string>>,
    applicationCategories: Option<seq<string>>,
    referencePublications: Option<seq<string>>,
    identifiers: Option<seq<Identifier>>,
    providers: Option<seq<string>>)

  /** A row of the sources table. */
  datatype Source = Source(slug: string, kind: string, url: string, priority: int)

  /**
   * `PopulatedExternalData`: an external-data row together with the routing
   * fields `slug`, `priority`, `kind` and `url` of its source.
   */
  datatype Populated = Populated(data: ExternalData, slug: string, priority: int, kind: string, url: string)

  function Populate(data: ExternalData, source: Source): Populated
  {
    Populated(data, source.slug, source.priority, source.kind, source.url)
  }

  /** JavaScript truthiness of an optional software id: `undefined` and 0 are falsy. */
  predicate TruthyId(id: Option<nat>)
  {
    id.Some? && id.value != 0
  }
}
