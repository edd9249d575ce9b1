/** Shared values of the version-resolution pipeline: outcomes, the error
    taxonomy, release records, revision tables and the abstract oracles
    that stand for the network and the filesystem. */
module Types {

  datatype Option<T> = None | Some(value: T)

  /** Every failure the pipeline raises, one variant per distinct message. */
  datatype Error =
    | DirectoryCreationError                     // "Could not create directory for Chromium"
    | LastStableFetchError(platform: string)     // "Could not get Chromium last stable version for <platform>"
    | FullVersionsFetchError                     // "Could not get Chromium full versions"
    | UnsupportedPlatform(platform: string)      // "Platform "<platform>" is unsupported for downloading Chromium"
    | VersionNotFound(version: string)           // "Chromium version <version> was not found"
    | RevisionsReadError                         // "Could not read Chromium revisions file"
    | SaveError                                  // a failed write of the hot cache file
    | DownloadError                              // "Could not download Chromium"
    | BuildNotFound(attempts: int)               // "Could not find Chromium build in <attempts> retries"
    | RevisionNotFound(revision: int, ver: nat)  // "Could not find Chromium revision <revision> for version <ver>"
    | BrowserNotSpecified                        // "Headless browser id was not specified in hermione config"

  datatype Result<T> = Ok(value: T) | Err(error: Error)

  /** One stable release as the release service reports it. */
  datatype Release = Release(version: string, revision: int)

  function Versions(rs: seq<Release>): (vs: seq<string>)
    ensures |vs| == |rs|
    ensures forall i :: 0 <= i < |rs| ==> vs[i] == rs[i].version
  {
    if rs == [] then [] else [rs[0].version] + Versions(rs[1..])
  }

  /** Contents of a revisions.json file: platform -> version -> revision. */
  type Table = map<string, map<string, int>>

  /** A revisions.json file as the filesystem presents it. */
  datatype JsonFile = Missing | Unreadable | Parsed(table: Table)

  /** `_.get(table, [platform, version])`. */
  function Lookup(t: Table, platform: string, version: string): (r: Option<int>)
    ensures r.Some? <==> platform in t && version in t[platform]
    ensures r.Some? ==> r.value == t[platform][version]
  {
    if platform in t && version in t[platform] then Some(t[platform][version]) else None
  }

  /** JavaScript truthiness of a looked-up revision: absent and 0 are both misses. */
  predicate Truthy(r: Option<int>) {
    r.Some? && r.value != 0
  }

  /** Answer of one request to the release service. */
  datatype Response = FetchFailed | Body(records: seq<Release>)

  /** Answer of the latest-stable request: the newest stable release. */
  datatype Latest = LatestFailed | LatestRelease(major: int, version: string, revision: int)

  /** The remote release-metadata service: a page of stable releases for
      (platform, num, offset), and the latest stable release per platform. */
  datatype ReleaseService = ReleaseService(
    page: (string, nat, nat) -> Response,
    latest: string -> Latest)

  /** Outcome of one attempt to fetch a build by revision: found (with the
      value it yields), an HTTP 404, or any other failure. */
  datatype Attempt<T> = Found(value: T) | NotFound | Failed
}
