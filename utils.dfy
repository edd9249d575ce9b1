/** Model of lib/utils.js: the platform name, the two-tier revision cache,
    the newest-first list of stable releases, the prefix search for a full
    version and the bounded paged resolver of a version's revision. */
module Utils {
  import opened Types
  import opened VersionOrder

  /** REVISIONS_PER_REQUEST: releases asked for per page. */
  const RevisionsPerRequest: nat := 150

  /** Pages asked for before a version counts as not found (requestNum 0..3). */
  const RequestCount: nat := 4

  /** getPlatformName: the host's OS and CPU architecture in the release
      service's vocabulary. */
  function PlatformName(platform: string, arch: string): (name: string)
    ensures platform == "darwin" ==> name == "mac"
    ensures platform == "win32" && arch == "x64" ==> name == "Windows"
    ensures platform == "win32" && arch != "x64" ==> name == "Win32"
    ensures platform != "darwin" && platform != "win32" ==> name == platform
  {
    if platform == "darwin" then "mac"
    else if platform == "win32" then (if arch == "x64" then "Windows" else "Win32")
    else platform
  }

  /** The architecture decides the name only on Windows, and there it only
      matters whether it is x64. */
  lemma ArchMattersOnlyOnWindows(platform: string, arch1: string, arch2: string)
    ensures PlatformName(platform, arch1) == PlatformName(platform, arch2)
        <==> platform != "win32" || (arch1 == "x64") == (arch2 == "x64")
  {
  }

  // ----- prefix search ---------------------------------------------------

  /** Index of the first element of `vs` that starts with `prefix`, or |vs|
      when there is none (`_.find` with `_.startsWith`). */
  function FirstWithPrefix(vs: seq<string>, prefix: string): (i: nat)
    ensures i <= |vs|
    ensures i < |vs| ==> prefix <= vs[i]
    ensures forall j :: 0 <= j < i ==> !(prefix <= vs[j])
  {
    if vs == [] then 0
    else if prefix <= vs[0] then 0
    else 1 + FirstWithPrefix(vs[1..], prefix)
  }

  /** getFullVersion: the first version that starts with `shortVer`. The
      found element is tested for truthiness, so an empty string found by
      the empty prefix also counts as not found. */
  function GetFullVersion(versions: seq<string>, shortVer: string): (r: Result<string>)
    ensures r.Ok? ==> exists i :: (0 <= i < |versions| && versions[i] == r.value
      && shortVer <= r.value && forall j :: 0 <= j < i ==> !(shortVer <= versions[j]))
    ensures r.Err? ==> r.error == VersionNotFound(shortVer)
    ensures shortVer != "" ==>
      (r.Ok? <==> exists j :: 0 <= j < |versions| && shortVer <= versions[j])
    ensures shortVer == "" ==> (r.Ok? <==> versions != [] && versions[0] != "")
  {
    var i := FirstWithPrefix(versions, shortVer);
    if i == |versions| || versions[i] == "" then Err(VersionNotFound(shortVer))
    else Ok(versions[i])
  }

  /** The examples the unit tests pin down. */
  lemma GetFullVersionExamples()
    ensures GetFullVersion(["76.0.130.10", "75.0.110.2", "74.0.100.3"], "75") == Ok("75.0.110.2")
    ensures GetFullVersion(["76.0.130.10", "75.0.110.2", "74.0.100.3"], "790") == Err(VersionNotFound("790"))
  {
    var vs := ["76.0.130.10", "75.0.110.2", "74.0.100.3"];
    assert vs[0][1] == '6' && vs[1][..2] == "75";
    assert !("75" <= vs[0]) && "75" <= vs[1];
    assert vs[0][1] == '6' && vs[1][1] == '5' && vs[2][1] == '4';
    assert !("790" <= vs[0]) && !("790" <= vs[1]) && !("790" <= vs[2]);
  }

  /** Index of the first occurrence of `x` in `vs` (`Array.find` by equality). */
  function FirstIndexOf(vs: seq<string>, x: string): (i: nat)
    requires x in vs
    ensures i < |vs| && vs[i] == x && forall j :: 0 <= j < i ==> vs[j] != x
  {
    if vs[0] == x then 0 else 1 + FirstIndexOf(vs[1..], x)
  }

  // ----- stable releases, newest first -----------------------------------

  /** Each release is at least as new as the one after it. */
  ghost predicate NewestFirst(rs: seq<Release>) {
    forall i :: 0 <= i < |rs| - 1 ==> AtLeast(rs[i].version, rs[i + 1].version)
  }

  /** Puts `x` before the first release that is not newer than it. */
  function InsertNewestFirst(x: Release, rs: seq<Release>): seq<Release> {
    if rs == [] then [x]
    else if AtLeast(x.version, rs[0].version) then [x] + rs
    else [rs[0]] + InsertNewestFirst(x, rs[1..])
  }

  lemma {:induction false} InsertNewestFirstPermutes(x: Release, rs: seq<Release>)
    ensures multiset(InsertNewestFirst(x, rs)) == multiset(rs) + multiset{x}
    ensures |InsertNewestFirst(x, rs)| == |rs| + 1
  {
    if rs != [] && !AtLeast(x.version, rs[0].version) {
      InsertNewestFirstPermutes(x, rs[1..]);
      assert rs == [rs[0]] + rs[1..];
    }
  }

  lemma {:induction false} InsertKeepsNewestFirst(x: Release, rs: seq<Release>)
    requires NewestFirst(rs)
    ensures var r := InsertNewestFirst(x, rs);
      NewestFirst(r) && r != [] && (r[0] == x || r[0] == rs[0])
  {
    if rs != [] && !AtLeast(x.version, rs[0].version) {
      AtLeastTotal(x.version, rs[0].version);
      InsertKeepsNewestFirst(x, rs[1..]);
      var tail := InsertNewestFirst(x, rs[1..]);
      assert InsertNewestFirst(x, rs) == [rs[0]] + tail;
      assert AtLeast(rs[0].version, tail[0].version);
    }
  }

  /** `sort(compareVersions).reverse()`: the releases, newest first. */
  function SortNewestFirst(rs: seq<Release>): seq<Release>
    decreases |rs|
  {
    if rs == [] then []
    else InsertNewestFirst(rs[|rs| - 1], SortNewestFirst(rs[..|rs| - 1]))
  }

  /** The sort loses and invents no release. */
  lemma {:induction false} SortNewestFirstPermutes(rs: seq<Release>)
    ensures multiset(SortNewestFirst(rs)) == multiset(rs)
    decreases |rs|
  {
    if rs != [] {
      var init, last := rs[..|rs| - 1], rs[|rs| - 1];
      var sorted := SortNewestFirst(init);
      SortNewestFirstPermutes(init);
      InsertNewestFirstPermutes(last, sorted);
      assert SortNewestFirst(rs) == InsertNewestFirst(last, sorted);
      assert rs == init + [last];
      assert multiset(rs) == multiset(init) + multiset{last};
    }
  }

  /** The sort puts the releases newest first. */
  lemma {:induction false} SortNewestFirstOrders(rs: seq<Release>)
    ensures NewestFirst(SortNewestFirst(rs))
    decreases |rs|
  {
    if rs != [] {
      var init := rs[..|rs| - 1];
      SortNewestFirstOrders(init);
      InsertKeepsNewestFirst(rs[|rs| - 1], SortNewestFirst(init));
    }
  }

  /** The releases of `rs` whose version compares equal to `v`, in order. */
  function Ties(rs: seq<Release>, v: string): seq<Release> {
    if rs == [] then []
    else (if CompareVersions(rs[0].version, v) == 0 then [rs[0]] else []) + Ties(rs[1..], v)
  }

  function Reversed(rs: seq<Release>): seq<Release> {
    if rs == [] then [] else [rs[|rs| - 1]] + Reversed(rs[..|rs| - 1])
  }

  lemma ReversedSnoc(rs: seq<Release>, x: Release)
    ensures Reversed(rs + [x]) == [x] + Reversed(rs)
  {
    assert (rs + [x])[..|rs|] == rs;
  }

  lemma {:induction false} TiesAppend(a: seq<Release>, b: seq<Release>, v: string)
    ensures Ties(a + b, v) == Ties(a, v) + Ties(b, v)
    decreases |a|
  {
    if a != [] {
      var head := if CompareVersions(a[0].version, v) == 0 then [a[0]] else [];
      assert (a + b)[0] == a[0] && (a + b)[1..] == a[1..] + b;
      TiesAppend(a[1..], b, v);
      assert Ties(a + b, v) == head + Ties(a[1..] + b, v);
      assert Ties(a, v) == head + Ties(a[1..], v);
    } else {
      assert a + b == b;
    }
  }

  /** A release strictly newer than `x` does not tie with what `x` ties with. */
  lemma NewerIsNoTie(x: Release, y: Release, v: string)
    requires CompareVersions(x.version, v) == 0 && !AtLeast(x.version, y.version)
    ensures CompareVersions(y.version, v) != 0
  {
    if CompareVersions(y.version, v) == 0 {
      CompareComponentsFlip(Components(y.version), Components(v));
      SameVersionTransitive(x.version, v, y.version);
    }
  }

  /** Inserting a release puts it ahead of every release that compares equal
      to it: releases strictly newer than it are all it passes. */
  lemma {:induction false} InsertTieOrder(x: Release, rs: seq<Release>, v: string)
    ensures Ties(InsertNewestFirst(x, rs), v) == (if CompareVersions(x.version, v) == 0 then [x] else []) + Ties(rs, v)
    decreases |rs|
  {
    var hx := if CompareVersions(x.version, v) == 0 then [x] else [];
    if rs == [] {
      assert Ties([x], v) == hx + [];
    } else if AtLeast(x.version, rs[0].version) {
      assert ([x] + rs)[0] == x && ([x] + rs)[1..] == rs;
    } else {
      var rest := InsertNewestFirst(x, rs[1..]);
      var h0 := if CompareVersions(rs[0].version, v) == 0 then [rs[0]] else [];
      InsertTieOrder(x, rs[1..], v);
      assert ([rs[0]] + rest)[0] == rs[0] && ([rs[0]] + rest)[1..] == rest;
      assert Ties(InsertNewestFirst(x, rs), v) == h0 + Ties(rest, v);
      assert Ties(rs, v) == h0 + Ties(rs[1..], v);
      if hx != [] {
        NewerIsNoTie(x, rs[0], v);
        assert h0 == [];
      }
    }
  }

  lemma ReversedTiesSnoc(rs: seq<Release>, x: Release, v: string)
    ensures Reversed(Ties(rs + [x], v)) == (if CompareVersions(x.version, v) == 0 then [x] else []) + Reversed(Ties(rs, v))
  {
    TiesAppend(rs, [x], v);
    var t := Ties(rs, v);
    if CompareVersions(x.version, v) == 0 {
      assert Ties([x], v) == [x];
      ReversedSnoc(t, x);
    } else {
      assert Ties([x], v) == [];
      assert t + [] == t;
    }
  }

  /** `sort(compareVersions).reverse()` with a stable sort: releases that
      compare equal come out in the reverse of their input order. */
  lemma {:induction false} SortNewestFirstTieOrder(rs: seq<Release>, v: string)
    ensures Ties(SortNewestFirst(rs), v) == Reversed(Ties(rs, v))
    decreases |rs|
  {
    if rs != [] {
      var init, last := rs[..|rs| - 1], rs[|rs| - 1];
      SortNewestFirstTieOrder(init, v);
      InsertTieOrder(last, SortNewestFirst(init), v);
      assert rs == init + [last];
      ReversedTiesSnoc(init, last, v);
    }
  }

  /** "1.0" and "1.0.0" compare equal, so the one fetched later comes first. */
  lemma SortNewestFirstTieExample()
    ensures SortNewestFirst([Release("1.0", 1), Release("1.0.0", 2)]) == [Release("1.0.0", 2), Release("1.0", 1)]
  {
    var a, b := Release("1.0", 1), Release("1.0.0", 2);
    MissingComponentsAreZero();
    assert [a, b][..1] == [a] && [a][..0] == [];
    assert SortNewestFirst([a]) == [a];
    assert AtLeast(b.version, a.version);
  }

  /** Newest-first order between every two positions, not only neighbours. */
  lemma {:induction false} NewestFirstPairwise(rs: seq<Release>, i: int, j: int)
    requires NewestFirst(rs)
    requires 0 <= i <= j < |rs|
    ensures AtLeast(rs[i].version, rs[j].version)
    decreases j - i
  {
    if i == j {
      CompareComponentsFlip(Components(rs[i].version), Components(rs[i].version));
    } else {
      NewestFirstPairwise(rs, i + 1, j);
      AtLeastTransitive(rs[i].version, rs[i + 1].version, rs[j].version);
    }
  }

  /** getStableReleases on one answer of the release service: a failed
      request and an empty list are errors; otherwise the releases are
      returned newest first. */
  function GetStableReleases(platform: string, response: Response): (r: Result<seq<Release>>)
    ensures response.FetchFailed? ==> r == Err(FullVersionsFetchError)
    ensures response.Body? && response.records == [] ==> r == Err(UnsupportedPlatform(platform))
    ensures response.Body? && response.records != [] ==> r.Ok?
  {
    match response
    case FetchFailed => Err(FullVersionsFetchError)
    case Body(records) =>
      if records == [] then Err(UnsupportedPlatform(platform)) else Ok(SortNewestFirst(records))
  }

  /** The releases of a page are its records, newest first. */
  lemma StableReleasesNewestFirst(platform: string, response: Response)
    requires GetStableReleases(platform, response).Ok?
    ensures var rels := GetStableReleases(platform, response).value;
      multiset(rels) == multiset(response.records) && NewestFirst(rels)
  {
    SortNewestFirstPermutes(response.records);
    SortNewestFirstOrders(response.records);
  }

  // ----- one page of the resolver -----------------------------------------

  /** `stableReleases.find(v => v.version === getFullVersion(versions, version)).revision`:
      the revision of the first release whose version starts with `version`,
      or None where getFullVersion throws. */
  function RevisionOf(rels: seq<Release>, version: string): (r: Option<int>)
    ensures var i := FirstWithPrefix(Versions(rels), version);
      && (r.Some? <==> i < |rels| && rels[i].version != "")
      && (r.Some? ==> r.value == rels[i].revision)
  {
    var vs := Versions(rels);
    match GetFullVersion(vs, version)
    case Err(_) => None
    case Ok(full) =>
      var k := FirstIndexOf(vs, full);
      assert k == FirstWithPrefix(vs, version) by {
        var i := FirstWithPrefix(vs, version);
        assert vs[i] == full;
        assert k <= i;
        assert version <= vs[k];
      }
      Some(rels[k].revision)
  }

  /** tryGetRevision: the revision of the first newest-first release whose
      version starts with `version`; a miss is None, while a failed or empty
      page is an error that is passed on. */
  function TryGetRevision(platform: string, version: string, response: Response): (r: Result<Option<int>>)
    ensures GetStableReleases(platform, response).Err? ==>
      r == Err(GetStableReleases(platform, response).error)
    ensures GetStableReleases(platform, response).Ok? ==>
      r == Ok(RevisionOf(GetStableReleases(platform, response).value, version))
  {
    match GetStableReleases(platform, response)
    case Err(e) => Err(e)
    case Ok(rels) => Ok(RevisionOf(rels, version))
  }

  /** The pages getRevision asks for, in order: RevisionsPerRequest
      releases at offsets 0, RevisionsPerRequest, 2 * RevisionsPerRequest, ... */
  function PageResponses(service: ReleaseService, platform: string): (rs: seq<Response>)
    ensures |rs| == RequestCount
    ensures forall i :: 0 <= i < RequestCount ==>
      rs[i] == service.page(platform, RevisionsPerRequest, RevisionsPerRequest * i)
  {
    seq(RequestCount, i requires 0 <= i => service.page(platform, RevisionsPerRequest, RevisionsPerRequest * i))
  }

  function Map<A, B>(f: A -> B, xs: seq<A>): (ys: seq<B>)
    ensures |ys| == |xs|
  {
    if xs == [] then [] else [f(xs[0])] + Map(f, xs[1..])
  }

  lemma {:induction false} MapAt<A, B>(f: A -> B, xs: seq<A>, i: nat)
    requires i < |xs|
    ensures Map(f, xs)[i] == f(xs[i])
  {
    if i > 0 {
      MapAt(f, xs[1..], i - 1);
    }
  }

  /** tryGetRevision for one version, as a function of the page's response. */
  function PageAnswer(platform: string, version: string): Response -> Result<Option<int>> {
    response => TryGetRevision(platform, version, response)
  }

  /** The answers the first RequestCount pages would give, in order. */
  function PageAnswers(service: ReleaseService, platform: string, version: string): (answers: seq<Result<Option<int>>>)
    ensures |answers| == RequestCount
  {
    Map(PageAnswer(platform, version), PageResponses(service, platform))
  }

  /** A page answer after which paging goes on: no error and no truthy revision. */
  predicate PageMiss(a: Result<Option<int>>) {
    a.Ok? && !Truthy(a.value)
  }

  /** The loop over pages from `page` on: the first error or truthy revision
      ends it; past the last page the version is not found. */
  function PageSearch(answers: seq<Result<Option<int>>>, version: string, page: nat): Result<int>
    decreases |answers| - page
  {
    if page >= |answers| then Err(VersionNotFound(version))
    else match answers[page]
      case Err(e) => Err(e)
      case Ok(o) => if Truthy(o) then Ok(o.value) else PageSearch(answers, version, page + 1)
  }

  /** A found revision is the truthy answer of some page `k`, every page
      before it having missed. */
  lemma {:induction false} PageSearchFound(answers: seq<Result<Option<int>>>, version: string, page: nat)
    returns (k: nat)
    requires PageSearch(answers, version, page).Ok?
    ensures page <= k < |answers|
    ensures answers[k] == Ok(Some(PageSearch(answers, version, page).value))
    ensures PageSearch(answers, version, page).value != 0
    ensures forall j :: page <= j < k ==> PageMiss(answers[j])
    decreases |answers| - page
  {
    if Truthy(answers[page].value) {
      k := page;
    } else {
      k := PageSearchFound(answers, version, page + 1);
    }
  }

  /** The version is reported not found exactly when every remaining page
      misses, provided no page fails with that same error. */
  lemma {:induction false} PageSearchNotFoundIff(answers: seq<Result<Option<int>>>, version: string, page: nat)
    requires forall j :: 0 <= j < |answers| ==> answers[j] != Err(VersionNotFound(version))
    ensures PageSearch(answers, version, page) == Err(VersionNotFound(version))
      <==> forall j :: page <= j < |answers| ==> PageMiss(answers[j])
    decreases |answers| - page
  {
    if page < |answers| {
      PageSearchNotFoundIff(answers, version, page + 1);
    }
  }

  /** A page that misses hands the search on to the next page. */
  lemma PageSearchSkip(answers: seq<Result<Option<int>>>, version: string, page: nat)
    requires page < |answers| && PageMiss(answers[page])
    ensures PageSearch(answers, version, page) == PageSearch(answers, version, page + 1)
  {
  }

  /** Page i's answer is tryGetRevision on the i-th request: 150 releases at
      offset 150 * i. */
  lemma PageAnswerAt(service: ReleaseService, platform: string, version: string, i: nat)
    requires i < RequestCount
    ensures PageAnswers(service, platform, version)[i]
         == TryGetRevision(platform, version, service.page(platform, RevisionsPerRequest, RevisionsPerRequest * i))
  {
    MapAt(PageAnswer(platform, version), PageResponses(service, platform), i);
  }

  /** A page never fails with "version not found": its only errors are a
      failed request and an empty release list. */
  lemma PageErrors(service: ReleaseService, platform: string, version: string, page: nat)
    requires page < RequestCount && PageAnswers(service, platform, version)[page].Err?
    ensures PageAnswers(service, platform, version)[page].error in {FullVersionsFetchError, UnsupportedPlatform(platform)}
  {
    PageAnswerAt(service, platform, version, page);
  }

  // ----- the two-tier revision cache -----------------------------------------

  /** getSavedRevision: the bundled table first; the hot cache only when the
      bundled table has no truthy entry and the hot file exists. */
  function SavedRevision(bundled: JsonFile, hot: JsonFile, platform: string, version: string): (r: Result<Option<int>>)
    ensures !bundled.Parsed? ==> r == Err(RevisionsReadError)
    ensures bundled.Parsed? && Truthy(Lookup(bundled.table, platform, version)) ==>
      r == Ok(Lookup(bundled.table, platform, version))
    ensures bundled.Parsed? && !Truthy(Lookup(bundled.table, platform, version)) ==>
      r == match hot
        case Missing => Ok(None)
        case Unreadable => Err(RevisionsReadError)
        case Parsed(t) => Ok(Lookup(t, platform, version))
  {
    if !bundled.Parsed? then Err(RevisionsReadError)
    else if Truthy(Lookup(bundled.table, platform, version)) then Ok(Lookup(bundled.table, platform, version))
    else if hot.Missing? then Ok(None)
    else if hot.Unreadable? then Err(RevisionsReadError)
    else Ok(Lookup(hot.table, platform, version))
  }

  /** A truthy bundled entry wins whatever the hot cache holds. */
  lemma BundledWins(bundled: JsonFile, hot1: JsonFile, hot2: JsonFile, platform: string, version: string)
    requires bundled.Parsed? && Truthy(Lookup(bundled.table, platform, version))
    ensures SavedRevision(bundled, hot1, platform, version) == SavedRevision(bundled, hot2, platform, version)
  {
  }

  /** What saveRevision starts from: the hot table, or {} when the file is
      missing or unreadable. */
  function BaseTable(hot: JsonFile): Table {
    if hot.Parsed? then hot.table else map[]
  }

  /** The hot table after saveRevision: the one entry set, the platform
      bucket created if absent, every other entry as before. */
  function MergedTable(hot: JsonFile, platform: string, version: string, revision: int): (t: Table)
    ensures Lookup(t, platform, version) == Some(revision)
    ensures forall q, w :: q != platform || w != version ==> Lookup(t, q, w) == Lookup(BaseTable(hot), q, w)
    ensures t.Keys == BaseTable(hot).Keys + {platform}
  {
    var base := BaseTable(hot);
    var bucket := if platform in base then base[platform] else map[];
    base[platform := bucket[version := revision]]
  }

  /** Round trip: a saved revision is read back through the hot cache when
      the bundled table has no truthy entry for it. */
  lemma SaveThenRead(bundled: JsonFile, hot: JsonFile, platform: string, version: string, revision: int)
    requires bundled.Parsed? && !Truthy(Lookup(bundled.table, platform, version))
    ensures SavedRevision(bundled, Parsed(MergedTable(hot, platform, version, revision)), platform, version)
      == Ok(Some(revision))
  {
  }

  /** Saving one entry does not change what any other entry reads as, as
      long as the hot file was readable or missing. */
  lemma SaveKeepsOtherReads(bundled: JsonFile, hot: JsonFile, platform: string, version: string, revision: int,
                            q: string, w: string)
    requires !hot.Unreadable?
    requires q != platform || w != version
    ensures SavedRevision(bundled, Parsed(MergedTable(hot, platform, version, revision)), q, w)
      == SavedRevision(bundled, hot, q, w)
  {
    var t := MergedTable(hot, platform, version, revision);
    assert Lookup(t, q, w) == Lookup(BaseTable(hot), q, w);
  }

  /** The files the pipeline reads and writes: the bundled
      lib/constants/revisions.json, the hot cache <cachePath>/revisions.json
      and the cache directory itself. */
  class CacheFiles {
    var bundled: JsonFile
    var hot: JsonFile
    var cacheDir: bool
    /** Whether the cache directory and the files in it can be created and written. */
    const writable: bool

    constructor (bundled: JsonFile, hot: JsonFile, cacheDir: bool, writable: bool)
      ensures this.bundled == bundled && this.hot == hot
      ensures this.cacheDir == cacheDir && this.writable == writable
    {
      this.bundled := bundled;
      this.hot := hot;
      this.cacheDir := cacheDir;
      this.writable := writable;
    }

    /** fs.ensureDir(cachePath). */
    method EnsureDir() returns (ok: bool)
      modifies this`cacheDir
      ensures ok == (old(cacheDir) || writable)
      ensures cacheDir == ok
    {
      if !cacheDir && writable {
        cacheDir := true;
      }
      ok := cacheDir;
    }

    /** getSavedRevision. */
    method GetSavedRevision(platform: string, version: string) returns (r: Result<Option<int>>)
      ensures r == SavedRevision(bundled, hot, platform, version)
    {
      if !bundled.Parsed? {
        return Err(RevisionsReadError);
      }
      var revision := Lookup(bundled.table, platform, version);
      if Truthy(revision) {
        return Ok(revision);
      }
      if hot.Missing? {
        return Ok(None);
      }
      if hot.Unreadable? {
        return Err(RevisionsReadError);
      }
      return Ok(Lookup(hot.table, platform, version));
    }

    /** saveRevision: read the hot table (or {}), set the entry in place,
      write the table back. */
    method SaveRevision(platform: string, version: string, revision: int) returns (r: Result<()>)
      modifies this`hot
      ensures r.Ok? <==> cacheDir && writable
      ensures r.Ok? ==> hot == Parsed(MergedTable(old(hot), platform, version, revision))
      ensures r.Err? ==> r.error == SaveError && hot == old(hot)
    {
      var revisionsCache := if hot.Parsed? then hot.table else map[];
      if platform !in revisionsCache {
        revisionsCache := revisionsCache[platform := map[]];
      }
      revisionsCache := revisionsCache[platform := revisionsCache[platform][version := revision]];
      if cacheDir && writable {
        hot := Parsed(revisionsCache);
        r := Ok(());
      } else {
        r := Err(SaveError);
      }
    }
  }

  // ----- the resolver -------------------------------------------------------

  /** What getRevision yields: a truthy cached revision, else the first
      truthy page answer among the first RequestCount pages. */
  function Resolve(bundled: JsonFile, hot: JsonFile, service: ReleaseService, platform: string, version: string): Result<int> {
    match SavedRevision(bundled, hot, platform, version)
    case Err(e) => Err(e)
    case Ok(saved) => if Truthy(saved) then Ok(saved.value) else PageSearch(PageAnswers(service, platform, version), version, 0)
  }

  /** A cache miss that lets the resolver go to the release service. */
  predicate CacheMiss(bundled: JsonFile, hot: JsonFile, platform: string, version: string) {
    var saved := SavedRevision(bundled, hot, platform, version);
    saved.Ok? && !Truthy(saved.value)
  }

  /** A resolved revision is never 0: a 0 anywhere counts as a miss. */
  lemma ResolveNonZero(bundled: JsonFile, hot: JsonFile, service: ReleaseService, platform: string, version: string)
    requires Resolve(bundled, hot, service, platform, version).Ok?
    ensures Resolve(bundled, hot, service, platform, version).value != 0
  {
    if CacheMiss(bundled, hot, platform, version) {
      var _ := PageSearchFound(PageAnswers(service, platform, version), version, 0);
    }
  }

  /** A non-zero revision saved to the hot cache is what the next resolution
      returns, without asking the release service. */
  lemma ResolveAfterSave(bundled: JsonFile, hot: JsonFile, service: ReleaseService,
                         platform: string, version: string, revision: int)
    requires bundled.Parsed? && !Truthy(Lookup(bundled.table, platform, version))
    requires revision != 0
    ensures Resolve(bundled, Parsed(MergedTable(hot, platform, version, revision)), service, platform, version)
      == Ok(revision)
    ensures !CacheMiss(bundled, Parsed(MergedTable(hot, platform, version, revision)), platform, version)
  {
    SaveThenRead(bundled, hot, platform, version, revision);
  }

  /** One round of getRevision's loop: request page `requestNum` of the
      stable releases and try it for `version`. */
  method RequestPage(service: ReleaseService, platform: string, version: string, requestNum: nat)
    returns (revision: Result<Option<int>>)
    requires requestNum < RequestCount
    ensures revision == PageAnswers(service, platform, version)[requestNum]
  {
    var num := RevisionsPerRequest;
    var offset := RevisionsPerRequest * requestNum;
    revision := TryGetRevision(platform, version, service.page(platform, num, offset));
    PageAnswerAt(service, platform, version, requestNum);
  }

  /** getRevision's loop over pages: the first error or truthy revision ends
      it; after RequestCount misses the version is not found. `offsets`
      lists the page offsets requested, in order. */
  method RequestPages(service: ReleaseService, platform: string, version: string)
    returns (r: Result<int>, offsets: seq<nat>)
    ensures r == PageSearch(PageAnswers(service, platform, version), version, 0)
    ensures 1 <= |offsets| <= RequestCount
    ensures forall i :: 0 <= i < |offsets| ==> offsets[i] == RevisionsPerRequest * i
    ensures forall i :: 0 <= i < |offsets| - 1 ==> PageMiss(PageAnswers(service, platform, version)[i])
    ensures r == Err(VersionNotFound(version)) ==> |offsets| == RequestCount
    ensures r != Err(VersionNotFound(version)) ==> !PageMiss(PageAnswers(service, platform, version)[|offsets| - 1])
  {
    ghost var answers := PageAnswers(service, platform, version);
    offsets := [];
    var requestNum := 0;
    while requestNum <= 3
      invariant 0 <= requestNum <= RequestCount
      invariant |offsets| == requestNum
      invariant forall i :: 0 <= i < requestNum ==> offsets[i] == RevisionsPerRequest * i
      invariant forall i :: 0 <= i < requestNum ==> PageMiss(answers[i])
      invariant PageSearch(answers, version, 0) == PageSearch(answers, version, requestNum)
    {
      offsets := offsets + [RevisionsPerRequest * requestNum];
      var revision := RequestPage(service, platform, version, requestNum);
      if revision.Err? {
        PageErrors(service, platform, version, requestNum);
        assert !PageMiss(answers[|offsets| - 1]);
        return Err(revision.error), offsets;
      }
      if Truthy(revision.value) {
        assert !PageMiss(answers[|offsets| - 1]);
        return Ok(revision.value.value), offsets;
      }
      PageSearchSkip(answers, version, requestNum);
      assert forall i :: 0 <= i < requestNum + 1 ==> PageMiss(answers[i]);
      requestNum := requestNum + 1;
    }
    r := Err(VersionNotFound(version));
  }

  /** getRevision: a truthy saved revision, else the paged search.
      `offsets` lists the page offsets requested, in order. */
  method GetRevision(files: CacheFiles, service: ReleaseService, platform: string, version: string)
    returns (r: Result<int>, offsets: seq<nat>)
    ensures r == Resolve(files.bundled, files.hot, service, platform, version)
    ensures offsets == [] <==> !CacheMiss(files.bundled, files.hot, platform, version)
    ensures |offsets| <= RequestCount
    ensures forall i :: 0 <= i < |offsets| ==> offsets[i] == RevisionsPerRequest * i
    ensures forall i :: 0 <= i < |offsets| - 1 ==> PageMiss(PageAnswers(service, platform, version)[i])
    ensures r == Err(VersionNotFound(version)) ==> |offsets| == RequestCount
    ensures CacheMiss(files.bundled, files.hot, platform, version) && r != Err(VersionNotFound(version))
            ==> !PageMiss(PageAnswers(service, platform, version)[|offsets| - 1])
  {
    var saved := files.GetSavedRevision(platform, version);
    if saved.Err? {
      return Err(saved.error), [];
    }
    if Truthy(saved.value) {
      return Ok(saved.value.value), [];
    }
    r, offsets := RequestPages(service, platform, version);
  }
}
