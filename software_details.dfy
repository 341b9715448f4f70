// The software details page's view of one software: the API record projected
// with its counts, its cloud instances, its similar softwares resolved against
// the catalogue list, and the platforms it supports.
module Details {
  import opened Wrappers
  import opened Catalogi
  import opened ExternalData
  import Tables
  import SoftwareRepo
  import Catalog

  /**
   * `ApiTypes.Software` as the web receives it: the organisation counts are a
   * JSON object, here the list of its entries. Links and logo URLs pass through
   * unchanged and are not modelled.
   */
  datatype ApiSoftware = ApiSoftware(
    softwareId: nat,
    softwareName: string,
    softwareDescription: string,
    latestVersion: Option<Catalog.LatestVersion>,
    addedTime: int,
    dereferencing: Option<Tables.Dereferencing>,
    customAttributes: Option<Catalog.Entries<AttributeValue>>,
    similarSoftwares: seq<SoftwareRepo.SimilarSoftware>,
    license: string,
    softwareType: SoftwareType,
    userAndReferentCountByOrganization: Catalog.Entries<Catalog.Counts>,
    serviceProviders: Option<seq<string>>,
    programmingLanguages: seq<string>,
    keywords: seq<string>,
    applicationCategories: seq<string>,
    identifiers: Option<seq<Identifier>>,
    authors: seq<Developer>)

  /** `ApiTypes.Instance`. */
  datatype ApiInstance = ApiInstance(
    id: nat, mainSoftwareSillId: nat, instanceUrl: Option<string>,
    organization: string, targetAudience: string, isPublic: bool)

  /** An instance as the page shows it: without the software it belongs to. */
  datatype Instance = Instance(id: nat, instanceUrl: Option<string>, organization: string, targetAudience: string, isPublic: bool)

  datatype SimilarSoftware =
    | RegisteredSimilar(software: Catalog.Software)
    | UnregisteredSimilar(
        sourceSlug: string, externalId: string, displayLabel: Option<LocalizedString>,
        description: Option<LocalizedString>, isLibreSoftware: Option<bool>)

  datatype SupportedPlatforms = SupportedPlatforms(isInstallableOnUserComputer: Option<bool>, isAvailableAsMobileApp: bool)

  /** `State.Software` of the details page. */
  datatype Software = Software(
    softwareId: nat,
    softwareName: string,
    softwareDescription: string,
    semVer: string,
    publicationTime: Option<int>,
    addedTime: int,
    dereferencing: Option<Tables.Dereferencing>,
    serviceProviders: seq<string>,
    referentCount: nat,
    userCount: nat,
    instances: Option<seq<Instance>>,
    similarSoftwares: seq<SimilarSoftware>,
    license: string,
    customAttributes: Option<Catalog.Entries<AttributeValue>>,
    supportedPlatforms: SupportedPlatforms,
    programmingLanguages: seq<string>,
    keywords: seq<string>,
    applicationCategories: seq<string>,
    softwareType: SoftwareType,
    identifiers: seq<Identifier>,
    authors: seq<Developer>)

  function Strip(i: ApiInstance): Instance
  {
    Instance(i.id, i.instanceUrl, i.organization, i.targetAudience, i.isPublic)
  }

  /** The instances of one software, in list order, without their owner. */
  function InstancesOf(instances: seq<ApiInstance>, softwareId: nat): (r: seq<Instance>)
    decreases |instances|
    ensures |r| <= |instances|
    ensures forall x | x in r :: exists i | i in instances :: i.mainSoftwareSillId == softwareId && x == Strip(i)
    ensures forall i | i in instances && i.mainSoftwareSillId == softwareId :: Strip(i) in r
  {
    if instances == [] then []
    else
      var n := |instances| - 1;
      assert forall i :: i in instances <==> i in instances[..n] || i == instances[n];
      InstancesOf(instances[..n], softwareId)
        + (if instances[n].mainSoftwareSillId == softwareId then [Strip(instances[n])] else [])
  }

  /** `softwareInListToExternalCatalogSoftware`: the first list entry with that name. */
  function FindByName(list: seq<Catalog.Software>, name: string): (r: Option<Catalog.Software>)
    decreases |list|
    ensures r.Some? <==> exists i | 0 <= i < |list| :: list[i].softwareName == name
    ensures r.Some? ==> r.value in list && r.value.softwareName == name
    ensures r.Some? ==> exists i | 0 <= i < |list| :: list[i] == r.value && forall j | 0 <= j < i :: list[j].softwareName != name
  {
    if list == [] then None
    else if list[0].softwareName == name then Some(list[0])
    else
      assert forall i | 1 <= i < |list| :: list[i] == list[1..][i - 1];
      var r := FindByName(list[1..], name);
      assert r.Some? ==> exists i | 1 <= i < |list| :: list[i] == r.value && forall j | 0 <= j < i :: list[j].softwareName != name by {
        if r.Some? {
          var i :| 0 <= i < |list[1..]| && list[1..][i] == r.value && forall j | 0 <= j < i :: list[1..][j].softwareName != name;
          assert forall j | 0 <= j < i + 1 :: list[j].softwareName != name by {
            forall j | 0 <= j < i + 1 ensures list[j].softwareName != name {
              if j > 0 { assert list[j] == list[1..][j - 1]; }
            }
          }
        }
      }
      r
  }

  /**
   * One similar software: a registered one found in the list by its name stays
   * registered with that entry; any other becomes (or stays) unregistered with
   * its own fields.
   */
  function ResolveSimilar(list: seq<Catalog.Software>, s: SoftwareRepo.SimilarSoftware): (r: SimilarSoftware)
    ensures r.RegisteredSimilar? <==>
      s.Registered? && s.softwareName.Some? && exists i | 0 <= i < |list| :: list[i].softwareName == s.softwareName.value
    ensures r.RegisteredSimilar? ==> r.software in list && Some(r.software.softwareName) == s.softwareName
    ensures r.RegisteredSimilar? ==> exists i | 0 <= i < |list| ::
      list[i] == r.software && forall j | 0 <= j < i :: Some(list[j].softwareName) != s.softwareName
    ensures r.UnregisteredSimilar? ==>
      r == UnregisteredSimilar(s.sourceSlug, s.externalId, s.displayLabel, s.description, s.isLibreSoftware)
  {
    var found := if s.Registered? && s.softwareName.Some? then FindByName(list, s.softwareName.value) else None;
    if found.Some? then RegisteredSimilar(found.value)
    else UnregisteredSimilar(s.sourceSlug, s.externalId, s.displayLabel, s.description, s.isLibreSoftware)
  }

  /** `supportedPlatforms`: nothing is known about installing a stack; a mobile app needs an Android or iOS build. */
  function Platforms(t: SoftwareType): (r: SupportedPlatforms)
    ensures r.isInstallableOnUserComputer.None? <==> t.Stack?
    ensures r.isInstallableOnUserComputer == Some(true) <==> t.DesktopMobile?
    ensures r.isAvailableAsMobileApp <==> t.DesktopMobile? && (t.os.android || t.os.ios)
  {
    SupportedPlatforms(
      if t.Stack? then None else Some(t.DesktopMobile?),
      t.DesktopMobile? && (t.os.android || t.os.ios))
  }

  /** `apiSoftwareToSoftware`. */
  function ApiSoftwareToSoftware(api: ApiSoftware, instances: seq<ApiInstance>, list: seq<Catalog.Software>): (r: Software)
    ensures r.referentCount == Catalog.Total(api.userAndReferentCountByOrganization, true)
    ensures r.userCount == Catalog.Total(api.userAndReferentCountByOrganization, false)
    ensures r.instances.Some? <==> api.softwareType.Cloud?
    ensures r.instances.Some? ==> r.instances.value == InstancesOf(instances, api.softwareId)
    ensures |r.similarSoftwares| == |api.similarSoftwares|
    ensures forall i | 0 <= i < |api.similarSoftwares| :: r.similarSoftwares[i] == ResolveSimilar(list, api.similarSoftwares[i])
    ensures r.supportedPlatforms == Platforms(api.softwareType)
    ensures r.semVer == (if api.latestVersion.Some? && api.latestVersion.value.semVer.Some? then api.latestVersion.value.semVer.value else "")
    ensures r.publicationTime == (if api.latestVersion.Some? then api.latestVersion.value.publicationTime else None)
    ensures api.serviceProviders.Some? ==> r.serviceProviders == api.serviceProviders.value
    ensures api.serviceProviders.None? ==> r.serviceProviders == []
    ensures api.identifiers.Some? ==> r.identifiers == api.identifiers.value
    ensures api.identifiers.None? ==> r.identifiers == []
    ensures r.softwareId == api.softwareId && r.softwareName == api.softwareName && r.license == api.license
      && r.softwareType == api.softwareType && r.customAttributes == api.customAttributes
      && r.dereferencing == api.dereferencing && r.authors == api.authors
    ensures r.softwareDescription == api.softwareDescription && r.addedTime == api.addedTime
      && r.programmingLanguages == api.programmingLanguages && r.keywords == api.keywords
      && r.applicationCategories == api.applicationCategories
  {
    var counts := api.userAndReferentCountByOrganization;
    Software(
      api.softwareId,
      api.softwareName,
      api.softwareDescription,
      if api.latestVersion.Some? then api.latestVersion.value.semVer.OrElse("") else "",
      if api.latestVersion.Some? then api.latestVersion.value.publicationTime else None,
      api.addedTime,
      api.dereferencing,
      api.serviceProviders.OrElse([]),
      Catalog.Total(counts, true),
      Catalog.Total(counts, false),
      if api.softwareType.Cloud? then Some(InstancesOf(instances, api.softwareId)) else None,
      seq(|api.similarSoftwares|, i requires 0 <= i < |api.similarSoftwares| => ResolveSimilar(list, api.similarSoftwares[i])),
      api.license,
      api.customAttributes,
      Platforms(api.softwareType),
      api.programmingLanguages,
      api.keywords,
      api.applicationCategories,
      api.softwareType,
      api.identifiers.OrElse([]),
      api.authors)
  }

  /** The page's totals agree with the catalogue's for the same organisation counts, whatever their key order. */
  lemma CountsAgreeWithCatalog(api: ApiSoftware, instances: seq<ApiInstance>, list: seq<Catalog.Software>, entry: Catalog.Software)
    requires multiset(entry.userAndReferentCountByOrganization) == multiset(api.userAndReferentCountByOrganization)
    ensures var r := ApiSoftwareToSoftware(api, instances, list);
      && r.referentCount == Catalog.GetComputeds(entry).referentCount
      && r.userCount == Catalog.GetComputeds(entry).userCount
  {
    Catalog.TotalPermutation(entry.userAndReferentCountByOrganization, api.userAndReferentCountByOrganization, true);
    Catalog.TotalPermutation(entry.userAndReferentCountByOrganization, api.userAndReferentCountByOrganization, false);
  }

  /** Only the instances of this software appear, all of them, and only for cloud software. */
  lemma InstancesExactly(api: ApiSoftware, instances: seq<ApiInstance>, list: seq<Catalog.Software>, x: ApiInstance)
    requires api.softwareType.Cloud? && x in instances
    ensures var r := ApiSoftwareToSoftware(api, instances, list);
      x.mainSoftwareSillId == api.softwareId ==> Strip(x) in r.instances.value
  {
  }

  /** A registered similar missing from the list is shown unregistered with its own fields; an unregistered one stays so. */
  lemma SimilarDowngrade(api: ApiSoftware, instances: seq<ApiInstance>, list: seq<Catalog.Software>, i: nat)
    requires i < |api.similarSoftwares|
    requires var s := api.similarSoftwares[i];
      s.Unregistered? || s.softwareName.None? || forall j | 0 <= j < |list| :: list[j].softwareName != s.softwareName.value
    ensures var s := api.similarSoftwares[i];
      ApiSoftwareToSoftware(api, instances, list).similarSoftwares[i]
        == UnregisteredSimilar(s.sourceSlug, s.externalId, s.displayLabel, s.description, s.isLibreSoftware)
  {
  }
}
