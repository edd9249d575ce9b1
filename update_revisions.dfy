/** Model of scripts/update-revisions.js: for every supported platform,
    continue the bundled revisions table from the version after the largest
    one it holds up to the latest stable major, finding each version's
    revision by the same decrement-on-404 search as the downloader. */
module UpdateRevisions {
  import opened Types
  import opened Decimal
  import opened DecrementSearch
  import opened Utils

  /** REVISION_REQUEST_ATTEMPTS. */
  const RevisionRequestAttempts: nat := 30

  /** CHROMIUM_MIN_VERSION: where an empty platform bucket starts. */
  const ChromiumMinVersion: nat := 100

  /** Releases asked for per platform (`{num: 300}`, offset 0). */
  const ReleasesPerPlatform: nat := 300

  /** osPrefix: the snapshot-storage directory of each platform. */
  const OsPrefix: map<string, string> :=
    map["mac" := "Mac", "linux" := "Linux_x64", "Win32" := "Win", "Windows" := "Win_x64"]

  /** supportedPlatforms, in the order they are processed. */
  const SupportedPlatforms: seq<string> := ["mac", "linux", "Win32", "Windows"]

  /** Every supported platform has a storage prefix and every prefix belongs
      to a supported platform; the platforms are distinct. */
  lemma OsPrefixMatchesSupportedPlatforms()
    ensures OsPrefix.Keys == set p | p in SupportedPlatforms
    ensures forall i, j :: 0 <= i < j < |SupportedPlatforms| ==> SupportedPlatforms[i] != SupportedPlatforms[j]
  {
    assert forall p :: p in OsPrefix.Keys <==> p in SupportedPlatforms;
  }

  /** The hosts the plugin names (getPlatformName of darwin, of win32 on
      any architecture, and of linux) are all platforms the table is
      maintained for. */
  lemma HostPlatformsSupported(arch: string)
    ensures PlatformName("darwin", arch) in SupportedPlatforms
    ensures PlatformName("win32", arch) in SupportedPlatforms
    ensures PlatformName("linux", arch) in SupportedPlatforms
  {
    assert SupportedPlatforms[0] == "mac" && SupportedPlatforms[1] == "linux";
    assert SupportedPlatforms[2] == "Win32" && SupportedPlatforms[3] == "Windows";
  }

  // ----- the start version -------------------------------------------------

  /** `n` is the largest number among `keys`, or 0 when none is positive. */
  ghost predicate IsLargestKey(keys: set<string>, n: nat) {
    && (forall k :: k in keys ==> KeyNumber(k) <= n)
    && (n == 0 || exists k :: k in keys && KeyNumber(k) == n)
  }

  /** `Number(Object.keys(bucket).sort((a, b) => a - b).pop())`, falsy
      values counted as 0. */
  ghost function LargestKey(keys: set<string>): (n: nat)
    ensures IsLargestKey(keys, n)
    decreases keys
  {
    if keys == {} then 0
    else
      var k :| k in keys;
      var rest := LargestKey(keys - {k});
      if KeyNumber(k) > rest then KeyNumber(k) else rest
  }

  /** The largest key is determined by the keys alone. */
  lemma LargestKeyUnique(keys: set<string>, n: nat)
    requires IsLargestKey(keys, n)
    ensures n == LargestKey(keys)
  {
    var m := LargestKey(keys);
    if n != 0 && m != 0 {
      var k :| k in keys && KeyNumber(k) == n;
      var j :| j in keys && KeyNumber(j) == m;
    }
  }

  /** `lastInFile ? lastInFile + 1 : CHROMIUM_MIN_VERSION`. */
  ghost function StartVersion(bucket: map<string, int>): (v: nat)
    ensures v >= 1
    ensures forall k :: k in bucket ==> KeyNumber(k) < v
    ensures LargestKey(bucket.Keys) == 0 ==> v == ChromiumMinVersion
    ensures LargestKey(bucket.Keys) != 0 ==> v == LargestKey(bucket.Keys) + 1
  {
    var last := LargestKey(bucket.Keys);
    if last != 0 then last + 1 else ChromiumMinVersion
  }

  /** The largest version number among the keys of a bucket, 0 when it has
      none: the numeric sort of the keys followed by `pop`. */
  method LastInFile(bucket: map<string, int>) returns (last: nat)
    ensures last == LargestKey(bucket.Keys)
  {
    var keys := bucket.Keys;
    ghost var seen: set<string> := {};
    last := 0;
    while keys != {}
      invariant keys + seen == bucket.Keys && keys !! seen
      invariant IsLargestKey(seen, last)
      decreases |keys|
    {
      var k :| k in keys;
      if KeyNumber(k) > last {
        last := KeyNumber(k);
      }
      keys := keys - {k};
      seen := seen + {k};
    }
    LargestKeyUnique(bucket.Keys, last);
  }

  /** The first version the script looks up for a bucket. */
  method FirstVersion(bucket: map<string, int>) returns (startVersion: nat)
    ensures startVersion == StartVersion(bucket)
  {
    var lastInFile := LastInFile(bucket);
    startVersion := if lastInFile != 0 then lastInFile + 1 else ChromiumMinVersion;
  }

  // ----- one version ---------------------------------------------------------

  /** The first revision tried for `ver`: that of the first newest-first
      release whose version starts with the decimal numeral of `ver`;
      getFullVersion's failure is not caught. */
  function InitialRevision(releases: seq<Release>, ver: nat): (r: Result<int>)
    ensures var i := FirstWithPrefix(Versions(releases), NatToDecimal(ver));
      && (r.Ok? <==> i < |releases|)
      && (r.Ok? ==> r.value == releases[i].revision)
      && (r.Err? ==> r.error == VersionNotFound(NatToDecimal(ver)))
  {
    match RevisionOf(releases, NatToDecimal(ver))
    case None => Err(VersionNotFound(NatToDecimal(ver)))
    case Some(revision) => Ok(revision)
  }

  /** What the retry loop of one version ends with: the revision to store,
      None after 30 answers of 404, or the error that aborts the run. */
  function StepOutcome(s: SearchResult<()>, ver: nat): Result<Option<int>> {
    match s
    case Hit(revision, _) => Ok(Some(revision))
    case Exhausted => Ok(None)
    case Aborted(revision) => Err(RevisionNotFound(revision, ver))
  }

  /** One iteration of the version loop: the revision stored for `ver`, if
      any, or the error that aborts the run. `probe` answers whether the
      snapshot REVISIONS file of a revision exists. */
  function VersionStep(releases: seq<Release>, probe: int -> Attempt<()>, ver: nat): Result<Option<int>> {
    match InitialRevision(releases, ver)
    case Err(e) => Err(e)
    case Ok(revision) => StepOutcome(Search(probe, revision, RevisionRequestAttempts), ver)
  }

  /** A stored revision is the first one within 30 attempts, counting down
      from the initial revision, whose snapshot exists; every one before it
      answered 404. No revision is stored exactly when all 30 answered
      404, and any other answer aborts the run naming that revision. */
  lemma VersionStepMeaning(releases: seq<Release>, probe: int -> Attempt<()>, ver: nat)
    requires InitialRevision(releases, ver).Ok?
    ensures var start, r := InitialRevision(releases, ver).value, VersionStep(releases, probe, ver);
      && (r.Ok? && r.value.Some? ==>
            && start - RevisionRequestAttempts < r.value.value <= start
            && probe(r.value.value).Found?
            && AllNotFound(probe, start, start - r.value.value))
      && (r == Ok(None) <==> AllNotFound(probe, start, RevisionRequestAttempts))
      && (r.Err? ==>
            && r.error.RevisionNotFound? && r.error.ver == ver
            && start - RevisionRequestAttempts < r.error.revision <= start
            && probe(r.error.revision).Failed?
            && AllNotFound(probe, start, start - r.error.revision))
  {
    var start := InitialRevision(releases, ver).value;
    var s := Search(probe, start, RevisionRequestAttempts);
    SearchExhaustedIff(probe, start, RevisionRequestAttempts);
    if s.Hit? {
      SearchHit(probe, start, RevisionRequestAttempts);
    } else if s.Aborted? {
      SearchAborted(probe, start, RevisionRequestAttempts);
    }
  }

  /** The retry loop of one version. `tried` lists the revisions probed. */
  method RequestRevision(probe: int -> Attempt<()>, initial: int, ver: nat)
    returns (r: Result<Option<int>>, tried: seq<int>)
    ensures r == StepOutcome(Search(probe, initial, RevisionRequestAttempts), ver)
    ensures tried == Tried(probe, initial, RevisionRequestAttempts)
  {
    var revision := initial;
    ghost var budget: nat := RevisionRequestAttempts;
    tried := [];
    var i := 0;
    while i < RevisionRequestAttempts
      invariant 0 <= i <= budget
      invariant revision == initial - i
      invariant tried + Tried(probe, revision, budget - i) == Tried(probe, initial, budget)
      invariant Search(probe, revision, budget - i) == Search(probe, initial, budget)
    {
      tried := tried + [revision];
      var answer := probe(revision);
      if answer.Found? {
        assert Tried(probe, revision, budget - i) == [revision];
        return Ok(Some(revision)), tried;
      } else if answer.NotFound? {
        assert Tried(probe, revision, budget - i) == [revision] + Tried(probe, revision - 1, budget - i - 1);
        revision := revision - 1;
      } else {
        assert Tried(probe, revision, budget - i) == [revision];
        return Err(RevisionNotFound(revision, ver)), tried;
      }
      i := i + 1;
    }
    r := Ok(None);
  }

  /** VersionStep for every version, as the version loop consults it. */
  function VersionSteps(releases: seq<Release>, probe: int -> Attempt<()>): nat -> Result<Option<int>> {
    (ver: nat) => VersionStep(releases, probe, ver)
  }

  /** The body of the version loop: getFullVersion, the initial revision
      and the retry loop. */
  method VersionIteration(releases: seq<Release>, probe: int -> Attempt<()>, ver: nat)
    returns (r: Result<Option<int>>)
    ensures r == VersionSteps(releases, probe)(ver)
  {
    var fullVersion := GetFullVersion(Versions(releases), NatToDecimal(ver));
    if fullVersion.Err? {
      return Err(fullVersion.error);
    }
    var revision := RevisionOf(releases, NatToDecimal(ver));
    var found, _ := RequestRevision(probe, revision.value, ver);
    r := found;
  }

  // ----- the versions of one platform ---------------------------------------------

  /** The version loop from `ver` to `lastStable`, in ascending order, over
      the platform bucket; `step(v)` is what version v's iteration yields. */
  function FillVersions(bucket: map<string, int>, step: nat -> Result<Option<int>>,
                        ver: nat, lastStable: int): Result<map<string, int>>
    decreases lastStable - ver + 1
  {
    if ver > lastStable then Ok(bucket)
    else match step(ver)
      case Err(e) => Err(e)
      case Ok(None) => FillVersions(bucket, step, ver + 1, lastStable)
      case Ok(Some(revision)) => FillVersions(bucket[NatToDecimal(ver) := revision], step, ver + 1, lastStable)
  }

  /** The loop succeeds exactly when every version from `ver` to
      `lastStable` succeeds; nothing is done when `ver` > `lastStable`. */
  lemma {:induction false} FillVersionsOkIff(bucket: map<string, int>, step: nat -> Result<Option<int>>,
                                             ver: nat, lastStable: int)
    ensures FillVersions(bucket, step, ver, lastStable).Ok? <==>
      forall v: nat :: ver <= v <= lastStable ==> step(v).Ok?
    ensures ver > lastStable ==> FillVersions(bucket, step, ver, lastStable) == Ok(bucket)
    decreases lastStable - ver + 1
  {
    if ver <= lastStable {
      match step(ver)
      case Err(_) =>
      case Ok(None) =>
        FillVersionsOkIff(bucket, step, ver + 1, lastStable);
      case Ok(Some(revision)) =>
        FillVersionsOkIff(bucket[NatToDecimal(ver) := revision], step, ver + 1, lastStable);
    }
  }

  /** What the loop writes, when every key already stored stands for a
      version below `ver`: every stored entry is kept as it was; version v
      in ver..lastStable gets an entry exactly when its search stored a
      revision, and it is that revision; there are no other entries. */
  lemma {:induction false} FillVersionsWrites(bucket: map<string, int>, step: nat -> Result<Option<int>>,
                                              ver: nat, lastStable: int)
    requires forall k :: k in bucket ==> KeyNumber(k) < ver
    requires FillVersions(bucket, step, ver, lastStable).Ok?
    ensures var b := FillVersions(bucket, step, ver, lastStable).value;
      && (forall k :: k in bucket ==> k in b && b[k] == bucket[k])
      && (forall v: nat :: ver <= v <= lastStable ==>
            (NatToDecimal(v) in b <==> step(v) != Ok(None))
            && (NatToDecimal(v) in b ==> step(v) == Ok(Some(b[NatToDecimal(v)]))))
      && (forall k :: k in b ==> k in bucket || ver <= KeyNumber(k) <= lastStable)
    decreases lastStable - ver + 1
  {
    FillVersionsOkIff(bucket, step, ver, lastStable);
    if ver <= lastStable {
      var b := FillVersions(bucket, step, ver, lastStable).value;
      var key := NatToDecimal(ver);
      KeyNumberOfDecimal(ver);
      assert key !in bucket;
      var next := if step(ver) == Ok(None) then bucket else bucket[key := step(ver).value.value];
      assert FillVersions(bucket, step, ver, lastStable) == FillVersions(next, step, ver + 1, lastStable);
      FillVersionsWrites(next, step, ver + 1, lastStable);
      forall v: nat | ver <= v <= lastStable
        ensures NatToDecimal(v) in b <==> step(v) != Ok(None)
        ensures NatToDecimal(v) in b ==> step(v) == Ok(Some(b[NatToDecimal(v)]))
      {
        if v != ver {
          assert NatToDecimal(v) != key by {
            if NatToDecimal(v) == key {
              NatToDecimalInjective(v, ver);
            }
          }
        }
      }
    }
  }

  /** The version loop over the platform bucket, in place. */
  method FillVersionsLoop(bucket: map<string, int>, releases: seq<Release>, probe: int -> Attempt<()>,
                          startVersion: nat, lastStable: int)
    returns (r: Result<map<string, int>>)
    ensures r == FillVersions(bucket, VersionSteps(releases, probe), startVersion, lastStable)
  {
    ghost var step := VersionSteps(releases, probe);
    var revisionsForPlatform := bucket;
    var ver := startVersion;
    while ver <= lastStable
      invariant ver >= startVersion
      invariant FillVersions(revisionsForPlatform, step, ver, lastStable)
        == FillVersions(bucket, step, startVersion, lastStable)
      decreases lastStable - ver + 1
    {
      var found := VersionIteration(releases, probe, ver);
      if found.Err? {
        return Err(found.error);
      }
      if found.value.Some? {
        revisionsForPlatform := revisionsForPlatform[NatToDecimal(ver) := found.value.value];
      }
      ver := ver + 1;
    }
    return Ok(revisionsForPlatform);
  }

  // ----- the platforms -----------------------------------------------------------

  /** The bucket of `platform`, filled from the version after its largest
      key up to `lastStable`. */
  ghost function FillBucket(table: Table, platform: string, releases: seq<Release>, probe: int -> Attempt<()>,
                            lastStable: int): Result<Table>
  {
    var bucket := if platform in table then table[platform] else map[];
    match FillVersions(bucket, VersionSteps(releases, probe), StartVersion(bucket), lastStable)
    case Err(e) => Err(e)
    case Ok(filled) => Ok(table[platform := filled])
  }

  /** One iteration of the platform loop: create the bucket if absent, fetch
      the releases and the latest stable major, and fill the bucket. */
  ghost function FillPlatform(table: Table, service: ReleaseService, probe: string -> (int -> Attempt<()>),
                              platform: string): Result<Table>
    requires platform in OsPrefix
  {
    match GetStableReleases(platform, service.page(platform, ReleasesPerPlatform, 0))
    case Err(e) => Err(e)
    case Ok(releases) =>
      match service.latest(platform)
      case LatestFailed => Err(LastStableFetchError(platform))
      case LatestRelease(lastStable, _, _) => FillBucket(table, platform, releases, probe(OsPrefix[platform]), lastStable)
  }

  /** The platform loop over `platforms`, in order; the first error ends it. */
  ghost function FillPlatforms(table: Table, service: ReleaseService, probe: string -> (int -> Attempt<()>),
                               platforms: seq<string>): Result<Table>
    requires forall p :: p in platforms ==> p in OsPrefix
    decreases |platforms|
  {
    if platforms == [] then Ok(table)
    else match FillPlatform(table, service, probe, platforms[0])
      case Err(e) => Err(e)
      case Ok(t) => FillPlatforms(t, service, probe, platforms[1..])
  }

  /** The whole script: read the bundled table, fill every supported
      platform, write the table back. */
  ghost function RunSpec(bundled: JsonFile, service: ReleaseService, probe: string -> (int -> Attempt<()>)): Result<Table> {
    if !bundled.Parsed? then Err(RevisionsReadError)
    else FillPlatforms(bundled.table, service, probe, SupportedPlatforms)
  }

  /** Filling a platform touches its own bucket only, creating it if absent,
      and keeps every entry already stored in it. */
  lemma FillPlatformFrame(table: Table, service: ReleaseService, probe: string -> (int -> Attempt<()>), platform: string)
    requires platform in OsPrefix
    requires FillPlatform(table, service, probe, platform).Ok?
    ensures var t := FillPlatform(table, service, probe, platform).value;
      && t.Keys == table.Keys + {platform}
      && (forall q :: q in table && q != platform ==> t[q] == table[q])
      && (platform in table ==> forall k :: k in table[platform] ==> k in t[platform] && t[platform][k] == table[platform][k])
  {
    var bucket := if platform in table then table[platform] else map[];
    var releases := GetStableReleases(platform, service.page(platform, ReleasesPerPlatform, 0)).value;
    assert FillPlatform(table, service, probe, platform)
      == FillBucket(table, platform, releases, probe(OsPrefix[platform]), service.latest(platform).major);
    var lastStable := service.latest(platform).major;
    FillVersionsWrites(bucket, VersionSteps(releases, probe(OsPrefix[platform])), StartVersion(bucket), lastStable);
  }

  /** The platform loop touches the listed platforms' buckets only, creates
      each of them, and keeps every entry already stored. */
  lemma {:induction false} FillPlatformsFrame(table: Table, service: ReleaseService, probe: string -> (int -> Attempt<()>),
                                              platforms: seq<string>)
    requires forall p :: p in platforms ==> p in OsPrefix
    requires FillPlatforms(table, service, probe, platforms).Ok?
    ensures var t := FillPlatforms(table, service, probe, platforms).value;
      t.Keys == table.Keys + set p | p in platforms
    ensures var t := FillPlatforms(table, service, probe, platforms).value;
      forall q :: q in table ==> q in t && (q !in platforms ==> t[q] == table[q])
    ensures var t := FillPlatforms(table, service, probe, platforms).value;
      forall q, k :: q in table && k in table[q] ==> q in t && k in t[q] && t[q][k] == table[q][k]
    decreases |platforms|
  {
    if platforms != [] {
      var p := platforms[0];
      FillPlatformFrame(table, service, probe, p);
      var t1 := FillPlatform(table, service, probe, p).value;
      FillPlatformsFrame(t1, service, probe, platforms[1..]);
      assert forall q :: q in platforms <==> q == p || q in platforms[1..];
    }
  }

  /** Old entries are never overwritten or removed, buckets of platforms
      outside supportedPlatforms are untouched, and every supported
      platform ends up with a bucket. */
  lemma UpdateKeepsStoredEntries(bundled: JsonFile, service: ReleaseService, probe: string -> (int -> Attempt<()>))
    requires RunSpec(bundled, service, probe).Ok?
    ensures bundled.Parsed?
    ensures var t := RunSpec(bundled, service, probe).value;
      t.Keys == bundled.table.Keys + set p | p in SupportedPlatforms
    ensures var t := RunSpec(bundled, service, probe).value;
      forall q :: q in bundled.table ==> q in t && (q !in SupportedPlatforms ==> t[q] == bundled.table[q])
    ensures var t := RunSpec(bundled, service, probe).value;
      forall q, k :: q in bundled.table && k in bundled.table[q] ==> q in t && k in t[q] && t[q][k] == bundled.table[q][k]
  {
    FillPlatformsFrame(bundled.table, service, probe, SupportedPlatforms);
  }

  /** The start-version computation and the version loop of one platform. */
  method UpdateBucket(revisions: Table, platformName: string, releases: seq<Release>, probe: int -> Attempt<()>,
                      lastStable: int)
    returns (r: Result<Table>)
    ensures r == FillBucket(revisions, platformName, releases, probe, lastStable)
  {
    var revisionsForPlatform := if platformName in revisions then revisions[platformName] else map[];
    var table := revisions[platformName := revisionsForPlatform];
    var startVersion := FirstVersion(revisionsForPlatform);
    var filled := FillVersionsLoop(revisionsForPlatform, releases, probe, startVersion, lastStable);
    if filled.Err? {
      return Err(filled.error);
    }
    assert table[platformName := filled.value] == revisions[platformName := filled.value];
    return Ok(table[platformName := filled.value]);
  }

  /** One iteration of the platform loop, in place on the table. */
  method UpdatePlatform(revisions: Table, service: ReleaseService, probe: string -> (int -> Attempt<()>), platformName: string)
    returns (r: Result<Table>)
    requires platformName in OsPrefix
    ensures r == FillPlatform(revisions, service, probe, platformName)
  {
    var releases := GetStableReleases(platformName, service.page(platformName, ReleasesPerPlatform, 0));
    if releases.Err? {
      return Err(releases.error);
    }
    var latest := service.latest(platformName);
    if latest.LatestFailed? {
      return Err(LastStableFetchError(platformName));
    }
    r := UpdateBucket(revisions, platformName, releases.value, probe(OsPrefix[platformName]), latest.major);
  }

  /** updateRevisions: the bundled revisions file is rewritten with the
      filled table, or left as it was when any step fails. */
  method UpdateRevisions(files: CacheFiles, service: ReleaseService, probe: string -> (int -> Attempt<()>))
    returns (r: Result<()>)
    modifies files`bundled
    ensures match RunSpec(old(files.bundled), service, probe)
      case Ok(t) => r == Ok(()) && files.bundled == Parsed(t)
      case Err(e) => r == Err(e) && files.bundled == old(files.bundled)
  {
    if !files.bundled.Parsed? {
      return Err(RevisionsReadError);
    }
    var revisions := files.bundled.table;
    var n := 0;
    while n < |SupportedPlatforms|
      invariant 0 <= n <= |SupportedPlatforms|
      invariant files.bundled == old(files.bundled)
      invariant FillPlatforms(revisions, service, probe, SupportedPlatforms[n..]) == RunSpec(old(files.bundled), service, probe)
    {
      var platformName := SupportedPlatforms[n];
      assert SupportedPlatforms[n..] == [platformName] + SupportedPlatforms[n + 1..];
      var filled := UpdatePlatform(revisions, service, probe, platformName);
      if filled.Err? {
        return Err(filled.error);
      }
      revisions := filled.value;
      n := n + 1;
    }
    files.bundled := Parsed(revisions);
    r := Ok(());
  }
}
