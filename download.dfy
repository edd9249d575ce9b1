/** Model of lib/download-chromium-by-version.js: make sure the cache
    directory exists, pick the version and the first revision, try to
    download revision R, R-1, R-2, ... while the downloader answers 404, and
    write the corrected revision back to the hot cache when it changed. */
module Download {
  import opened Types
  import opened Utils
  import opened DecrementSearch

  /** Where the download starts: the version handed on to saveRevision and
      the first revision tried. */
  datatype Start = Start(passedVersion: string, revision: int)

  /** `if (version)`: a configured, non-empty version string. */
  predicate VersionGiven(version: Option<string>) {
    version.Some? && version.value != ""
  }

  /** The start of the download: the given version and its resolved
      revision, or else the latest stable release and its revision. */
  function StartOf(bundled: JsonFile, hot: JsonFile, service: ReleaseService, platform: string,
                   version: Option<string>): (r: Result<Start>)
    ensures VersionGiven(version) ==> match Resolve(bundled, hot, service, platform, version.value)
      case Ok(rev) => r == Ok(Start(version.value, rev))
      case Err(e) => r == Err(e)
    ensures !VersionGiven(version) ==> match service.latest(platform)
      case LatestFailed => r == Err(LastStableFetchError(platform))
      case LatestRelease(_, v, rev) => r == Ok(Start(v, rev))
  {
    if VersionGiven(version) then
      match Resolve(bundled, hot, service, platform, version.value)
      case Ok(rev) => Ok(Start(version.value, rev))
      case Err(e) => Err(e)
    else
      match service.latest(platform)
      case LatestFailed => Err(LastStableFetchError(platform))
      case LatestRelease(_, v, rev) => Ok(Start(v, rev))
  }

  /** Number of iterations of `for (i = 0; i < downloadAttempts; i++)`. */
  function Budget(attempts: int): (n: nat)
    ensures attempts > 0 ==> n == attempts
    ensures attempts <= 0 ==> n == 0
  {
    if attempts > 0 then attempts else 0
  }

  /** What one run decides: the value returned or thrown, the revisions
      tried, and the (version, revision) entry written back, if any. */
  datatype Plan = Plan(result: Result<string>, tried: seq<int>, writeBack: Option<Start>)

  /** The download loop and what follows it, from a known start. */
  function AttemptPlan(download: int -> Attempt<string>, start: Start, attempts: int): Plan {
    var tried := Tried(download, start.revision, Budget(attempts));
    match Search(download, start.revision, Budget(attempts))
    case Hit(rev, path) =>
      if path == "" then Plan(Err(BuildNotFound(attempts)), tried, None)
      else Plan(Ok(path), tried, if rev != start.revision then Some(Start(start.passedVersion, rev)) else None)
    case Exhausted => Plan(Err(BuildNotFound(attempts)), tried, None)
    case Aborted(_) => Plan(Err(DownloadError), tried, None)
  }

  /** The whole run: nothing is tried when the directory cannot be made or
      the start cannot be found. */
  function DownloadPlan(dirOk: bool, bundled: JsonFile, hot: JsonFile, service: ReleaseService,
                        download: int -> Attempt<string>, platform: string, version: Option<string>,
                        attempts: int): (p: Plan)
    ensures !dirOk ==> p == Plan(Err(DirectoryCreationError), [], None)
    ensures dirOk && StartOf(bundled, hot, service, platform, version).Err? ==>
      p == Plan(Err(StartOf(bundled, hot, service, platform, version).error), [], None)
  {
    if !dirOk then Plan(Err(DirectoryCreationError), [], None)
    else match StartOf(bundled, hot, service, platform, version)
      case Err(e) => Plan(Err(e), [], None)
      case Ok(start) => AttemptPlan(download, start, attempts)
  }

  /** Attempt k is made at revision start - k, and at most
      `downloadAttempts` attempts are made. */
  lemma AttemptsCountDown(download: int -> Attempt<string>, start: Start, attempts: int)
    ensures var t := AttemptPlan(download, start, attempts).tried;
      && |t| <= Budget(attempts)
      && forall k :: 0 <= k < |t| ==> t[k] == start.revision - k
  {
    TriedCountsDown(download, start.revision, Budget(attempts));
  }

  /** The download succeeds exactly when some attempt within the budget
      finds a build (with a non-empty path) after nothing but 404s; the
      path returned is that build's. */
  lemma {:induction false} DownloadSucceedsIff(download: int -> Attempt<string>, start: Start, attempts: int)
    ensures AttemptPlan(download, start, attempts).result.Ok? <==>
      exists k :: 0 <= k < Budget(attempts) && AllNotFound(download, start.revision, k)
        && download(start.revision - k).Found? && download(start.revision - k).value != ""
    ensures AttemptPlan(download, start, attempts).result.Ok? ==>
      var k := |AttemptPlan(download, start, attempts).tried| - 1;
      0 <= k && download(start.revision - k) == Found(AttemptPlan(download, start, attempts).result.value)
  {
    var budget := Budget(attempts);
    var s := Search(download, start.revision, budget);
    TriedStopsAtResult(download, start.revision, budget);
    if s.Hit? {
      SearchHit(download, start.revision, budget);
    }
    if s.Aborted? {
      SearchAborted(download, start.revision, budget);
    }
    if exists k :: 0 <= k < budget && AllNotFound(download, start.revision, k)
        && download(start.revision - k).Found? && download(start.revision - k).value != "" {
      var k :| 0 <= k < budget && AllNotFound(download, start.revision, k)
        && download(start.revision - k).Found? && download(start.revision - k).value != "";
      SearchSkip(download, start.revision, budget, k);
      assert s == Hit(start.revision - k, download(start.revision - k).value);
    }
  }

  /** Any answer other than success or 404 aborts at once: nothing is tried
      after it, and the error is "Could not download Chromium". */
  lemma {:induction false} DownloadErrorIff(download: int -> Attempt<string>, start: Start, attempts: int)
    ensures AttemptPlan(download, start, attempts).result == Err(DownloadError) <==>
      exists k :: 0 <= k < Budget(attempts) && AllNotFound(download, start.revision, k)
        && download(start.revision - k).Failed?
    ensures AttemptPlan(download, start, attempts).result == Err(DownloadError) ==>
      var t := AttemptPlan(download, start, attempts).tried;
      t != [] && download(t[|t| - 1]).Failed?
  {
    var budget := Budget(attempts);
    var s := Search(download, start.revision, budget);
    TriedStopsAtResult(download, start.revision, budget);
    TriedCountsDown(download, start.revision, budget);
    if s.Hit? {
      SearchHit(download, start.revision, budget);
    }
    if s.Aborted? {
      SearchAborted(download, start.revision, budget);
    }
    if exists k :: 0 <= k < budget && AllNotFound(download, start.revision, k) && download(start.revision - k).Failed? {
      var k :| 0 <= k < budget && AllNotFound(download, start.revision, k) && download(start.revision - k).Failed?;
      SearchSkip(download, start.revision, budget, k);
      assert s == Aborted(start.revision - k);
    }
  }

  /** When every attempt answers 404, or no attempt is allowed, the build
      is not found and the whole budget was spent. */
  lemma BuildNotFoundWhenAllMissing(download: int -> Attempt<string>, start: Start, attempts: int)
    requires AllNotFound(download, start.revision, Budget(attempts))
    ensures AttemptPlan(download, start, attempts).result == Err(BuildNotFound(attempts))
    ensures |AttemptPlan(download, start, attempts).tried| == Budget(attempts)
  {
    SearchExhaustedIff(download, start.revision, Budget(attempts));
    TriedStopsAtResult(download, start.revision, Budget(attempts));
  }

  /** The corrected revision is written back exactly when the download
      succeeded after at least one 404, and it is the revision that
      succeeded. */
  lemma {:induction false} WriteBackIff(download: int -> Attempt<string>, start: Start, attempts: int)
    ensures var p := AttemptPlan(download, start, attempts);
      p.writeBack.Some? <==> p.result.Ok? && download(start.revision).NotFound?
    ensures var p := AttemptPlan(download, start, attempts);
      p.writeBack.Some? ==>
        && p.writeBack.value.passedVersion == start.passedVersion
        && p.writeBack.value.revision == p.tried[|p.tried| - 1]
        && download(p.writeBack.value.revision).Found?
  {
    var budget := Budget(attempts);
    var s := Search(download, start.revision, budget);
    TriedStopsAtResult(download, start.revision, budget);
    TriedCountsDown(download, start.revision, budget);
    if s.Hit? {
      SearchHit(download, start.revision, budget);
    }
  }

  /** Round trip through the hot cache: after a download that wrote back
      revision R (non-zero) for a version the bundled table has no truthy
      entry for, the next resolution of that version returns R without
      asking the release service. */
  lemma DownloadThenResolve(bundled: JsonFile, hot: JsonFile, service: ReleaseService,
                            download: int -> Attempt<string>, platform: string, version: string, attempts: int)
    requires bundled.Parsed? && !Truthy(Lookup(bundled.table, platform, version))
    requires StartOf(bundled, hot, service, platform, Some(version)).Ok?
    requires VersionGiven(Some(version))
    requires AttemptPlan(download, StartOf(bundled, hot, service, platform, Some(version)).value, attempts).writeBack.Some?
    ensures var w := AttemptPlan(download, StartOf(bundled, hot, service, platform, Some(version)).value, attempts).writeBack.value;
      w.revision != 0 ==>
        Resolve(bundled, Parsed(MergedTable(hot, platform, w.passedVersion, w.revision)), service, platform, version)
          == Ok(w.revision)
  {
    var start := StartOf(bundled, hot, service, platform, Some(version)).value;
    var w := AttemptPlan(download, start, attempts).writeBack.value;
    if w.revision != 0 {
      ResolveAfterSave(bundled, hot, service, platform, version, w.revision);
    }
  }

  /** The start-revision step of the exported function: getRevision for a
      given version, else the latest stable release. */
  method ChooseStart(files: CacheFiles, service: ReleaseService, platform: string, version: Option<string>)
    returns (r: Result<Start>)
    ensures r == StartOf(files.bundled, files.hot, service, platform, version)
  {
    if VersionGiven(version) {
      var revision, _ := GetRevision(files, service, platform, version.value);
      if revision.Err? {
        return Err(revision.error);
      }
      return Ok(Start(version.value, revision.value));
    }
    var majorInfo := service.latest(platform);
    if majorInfo.LatestFailed? {
      return Err(LastStableFetchError(platform));
    }
    return Ok(Start(majorInfo.version, majorInfo.revision));
  }

  /** The download loop of the exported function and the write-back after
      it, from a known start. `tried` lists the revisions attempted. */
  method AttemptDownloads(files: CacheFiles, download: int -> Attempt<string>, platform: string,
                          start: Start, downloadAttempts: int)
    returns (r: Result<string>, tried: seq<int>)
    requires files.cacheDir
    modifies files`hot
    ensures var p := AttemptPlan(download, start, downloadAttempts);
      && r == p.result && tried == p.tried
      && files.hot == (if p.writeBack.Some? && files.writable
                       then Parsed(MergedTable(old(files.hot), platform, p.writeBack.value.passedVersion, p.writeBack.value.revision))
                       else old(files.hot))
  {
    var passedVersion := start.passedVersion;
    var revision := start.revision;
    ghost var budget := Budget(downloadAttempts);
    var cachedRevision := revision;
    var chromiumPath: Option<string> := None;
    tried := [];
    var i := 0;
    while i < downloadAttempts
      invariant 0 <= i <= budget
      invariant revision == cachedRevision - i && chromiumPath.None?
      invariant tried + Tried(download, revision, budget - i) == Tried(download, cachedRevision, budget)
      invariant Search(download, revision, budget - i) == Search(download, cachedRevision, budget)
      invariant files.hot == old(files.hot)
    {
      tried := tried + [revision];
      var attempt := download(revision);
      if attempt.Found? {
        assert Tried(download, revision, budget - i) == [revision];
        chromiumPath := Some(attempt.value);
        break;
      } else if attempt.NotFound? {
        assert Tried(download, revision, budget - i) == [revision] + Tried(download, revision - 1, budget - i - 1);
        revision := revision - 1;
      } else {
        assert Tried(download, revision, budget - i) == [revision];
        return Err(DownloadError), tried;
      }
      i := i + 1;
    }
    if chromiumPath.None? || chromiumPath.value == "" {
      return Err(BuildNotFound(downloadAttempts)), tried;
    }
    if revision != cachedRevision {
      // a failed save is reported and otherwise ignored
      var _ := files.SaveRevision(platform, passedVersion, revision);
    }
    return Ok(chromiumPath.value), tried;
  }

  /** The exported function: download Chromium `version` (or the latest
      stable one) into the cache, making at most `downloadAttempts` attempts.
      `tried` lists the revisions attempted, in order. */
  method DownloadChromiumByVersion(files: CacheFiles, service: ReleaseService, download: int -> Attempt<string>,
                                   platformOs: string, arch: string, version: Option<string>, downloadAttempts: int)
    returns (r: Result<string>, tried: seq<int>)
    modifies files`cacheDir, files`hot
    ensures files.cacheDir == (old(files.cacheDir) || files.writable)
    ensures var platform := PlatformName(platformOs, arch);
      var p := DownloadPlan(old(files.cacheDir) || files.writable, old(files.bundled), old(files.hot),
                            service, download, platform, version, downloadAttempts);
      && r == p.result && tried == p.tried
      && files.hot == (if p.writeBack.Some? && files.writable
                       then Parsed(MergedTable(old(files.hot), platform, p.writeBack.value.passedVersion, p.writeBack.value.revision))
                       else old(files.hot))
  {
    var dirOk := files.EnsureDir();
    if !dirOk {
      return Err(DirectoryCreationError), [];
    }
    var platform := PlatformName(platformOs, arch);
    var start := ChooseStart(files, service, platform, version);
    if start.Err? {
      return Err(start.error), [];
    }
    r, tried := AttemptDownloads(files, download, platform, start.value, downloadAttempts);
  }
}
