# Headless Chromium for hermione: version resolution and download, in Dafny

This project models the part of the hermione headless-Chrome plugin that
decides which Chromium build to run and where it comes from. It covers four
parts of the plugin:

- **`lib/utils.js`**, module `Utils`. It maps the host OS to a platform name
  and finds a full version from a short one by prefix. It orders stable
  releases newest first and reads the two-tier revision cache. The
  cache's tiers are the bundled `revisions.json` and the writable hot
  cache in the cache directory. The resolver asks up to 4 pages of 150
  releases, and `saveRevision` merges one entry into the hot cache.
- **`lib/download-chromium-by-version.js`**, module `Download`. It makes
  sure the cache directory exists and picks the version and start
  revision. It tries revision R, R-1, R-2, … while the downloader answers
  404, and writes the corrected revision back when it changed.
- **`scripts/update-revisions.js`**, module `UpdateRevisions`. For each
  supported platform, the script continues the bundled table from the
  version after the largest stored one up to the latest stable major. It
  finds each version's revision with the same decrement-on-404 search,
  within 30 attempts.
- **`index.js`**, module `Plugin`. It has the enabled and browser-id checks.
  Its INIT handler merges `args: ['headless']` (a `_.union`) and
  `binary: <path>` into the browser's `chromeOptions`.

Shared pieces live in their own modules:

- `Types`: errors, releases, tables, files and the oracles.
- `VersionOrder`: the `compare-versions` order, as numeric components.
- `Decimal`: `ver.toString()` and `Number(key)`.
- `DecrementSearch`: the decrement-on-404 search used by both loops, as a
  function, with its lemmas.

The network, the filesystem and the `download-chromium` package are
parameters:

- `ReleaseService` answers a page of stable releases for
  (platform, num, offset), or the latest stable release. Either request
  can fail.
- `Utils.CacheFiles` is a class whose fields are the bundled file, the hot
  cache file and the cache directory. Each file is missing, unreadable or
  a parsed table. A constant says whether the cache directory can be
  written.
- The downloader is a function from revision to `Found(path)`, `NotFound`
  (HTTP 404) or `Failed`. The script's REVISIONS-file probe has the same
  shape, per storage prefix.

The imperative parts stay imperative. `GetRevision`'s page loop,
`AttemptDownloads`' retry loop and the script's three nested loops are
`while` loops. `SaveRevision`, `EnsureDir`, `UpdateRevisions` and `OnInit`
update the fields of `CacheFiles` and `Browser` in place. Each loop is
proved against a specification function: `PageSearch`, `AttemptPlan`,
`Search`, `FillVersions` or `FillPlatforms`. The lemmas state what the
source promises about those functions.

Where the code and its unit tests disagree, the model follows the code:

- The platform names come from `getPlatformName` (`mac`, `Windows`, `Win32`,
  or the platform itself), not from the older `getOSName`.
- The capability key is `chromeOptions`, not `goog:chromeOptions`.
- Stable releases are fetched by `getStableReleases`, and the script checks
  revisions by fetching the snapshot REVISIONS file. `requestRevision` and
  `getStableVersions` do not exist in the code.

JavaScript truthiness is kept wherever the code relies on it:

- A stored or found revision of 0 is a miss.
- An empty version string takes the latest-stable path.
- A downloader result with an empty path counts as "build not found".
- `getFullVersion` finding an empty string counts as not found.

## Model

| member | source | states |
|---|---|---|
| Types.Lookup | lib/utils.js:49 | `_.get(table, [platform, version])` is present exactly when both keys are, and is then the stored value |
| Types.Versions | lib/utils.js:99 | the version strings of the releases, position by position |
| VersionOrder.CompareComponentsFlip | lib/utils.js:82 | swapping the arguments of the version comparison negates it |
| VersionOrder.CompareComponentsTransitive | lib/utils.js:82 | the comparison is transitive, so the sort's order is well defined |
| VersionOrder.AtLeastTotal | lib/utils.js:82 | every two versions compare one way or the other |
| VersionOrder.AtLeastTransitive | lib/utils.js:82 | "at least as new as" is transitive |
| VersionOrder.SameVersionTransitive | lib/utils.js:82 | comparing equal carries over from a to b to c |
| VersionOrder.MissingComponentsAreZero | lib/utils.js:82 | a missing component counts as 0: "1.0.0" and "1.0" compare equal |
| VersionOrder.TenIsNewerThanNine | lib/utils.js:82 | the order is numeric per component: "10" is newer than "9" |
| Decimal.NatToDecimal | scripts/update-revisions.js:36 | `ver.toString()` is a non-empty string of decimal digits |
| Decimal.ParseNatToDecimal | scripts/update-revisions.js:30 | reading a key back with `Number` gives the version that `toString` wrote |
| Decimal.NatToDecimalInjective | scripts/update-revisions.js:46 | distinct versions are stored under distinct keys |
| Decimal.KeyNumberOfDecimal | scripts/update-revisions.js:30 | the number of a key written for version v is v |
| DecrementSearch.SearchHit | lib/download-chromium-by-version.js:35-47 | a success is the first attempt within the budget that is not a 404, and every attempt before it was a 404 |
| DecrementSearch.SearchAborted | lib/download-chromium-by-version.js:45-51 | an abort is the first attempt that was neither a success nor a 404, after nothing but 404s |
| DecrementSearch.SearchExhaustedIff | lib/download-chromium-by-version.js:35-53 | the search runs out exactly when every attempt within the budget answers 404 |
| DecrementSearch.SearchBudgetMonotone | scripts/update-revisions.js:39-55 | more attempts never change an outcome that fewer attempts already reached |
| DecrementSearch.SearchSkip | lib/download-chromium-by-version.js:46-47 | after k leading 404s, the search goes on from revision − k with k fewer attempts |
| DecrementSearch.Tried | lib/download-chromium-by-version.js:35 | no more revisions are tried than the budget allows |
| DecrementSearch.TriedCountsDown | lib/download-chromium-by-version.js:35-47 | attempt k is made at revision start − k |
| DecrementSearch.TriedStopsAtResult | lib/download-chromium-by-version.js:42-51 | attempts stop at the revision that ended the search; a search that runs out spends its whole budget |
| Utils.PlatformName | lib/utils.js:13-25 | darwin → mac; win32 → Windows on x64 and Win32 on any other architecture; any other platform unchanged |
| Utils.ArchMattersOnlyOnWindows | lib/utils.js:13-25 | two architectures give the same name exactly when the host is not win32 or both are (or both are not) x64 |
| Utils.FirstWithPrefix | lib/utils.js:86 | the index of the first version starting with the prefix; no earlier version starts with it |
| Utils.GetFullVersion | lib/utils.js:85-93 | the result is the first version having `shortVer` as a prefix; "version not found" exactly when there is none (or, for the empty prefix, when the first version is empty) |
| Utils.GetFullVersionExamples | lib/utils.js:85-93 | "75" against 76/75/74 gives "75.0.110.2", and "790" is not found |
| Utils.FirstIndexOf | lib/utils.js:100 | `find` by equality returns the first position holding the value |
| Utils.InsertNewestFirstPermutes | lib/utils.js:82 | inserting a release adds exactly that release |
| Utils.InsertKeepsNewestFirst | lib/utils.js:82 | inserting into a newest-first list keeps it newest first |
| Utils.SortNewestFirstPermutes | lib/utils.js:79-82 | the sorted releases are a permutation of the fetched ones |
| Utils.SortNewestFirstOrders | lib/utils.js:82 | `sort(compareVersions).reverse()` leaves each release at least as new as the next |
| Utils.InsertTieOrder | lib/utils.js:82 | inserting one release puts it ahead of every release already there that compares equal to it |
| Utils.SortNewestFirstTieOrder | lib/utils.js:82 | releases that compare equal come out in reverse input order: the sort is stable, then `reverse()` flips them |
| Utils.SortNewestFirstTieExample | lib/utils.js:82 | of "1.0" and a later "1.0.0", which compare equal, "1.0.0" comes first |
| Utils.NewestFirstPairwise | lib/utils.js:82 | in a newest-first list every release is at least as new as every later one |
| Utils.GetStableReleases | lib/utils.js:65-83 | a failed request gives "Could not get Chromium full versions"; an empty body gives "Platform … is unsupported"; any other body gives releases |
| Utils.StableReleasesNewestFirst | lib/utils.js:79-82 | the releases returned are a permutation of the response body, ordered newest first |
| Utils.RevisionOf | lib/utils.js:98-103 | the revision of the first newest-first release whose version starts with the requested one; none exactly when there is no such release |
| Utils.TryGetRevision | lib/utils.js:95-104 | an error of getStableReleases is passed on; otherwise the page answers with the revision of the first matching release, or null on a miss |
| Utils.PageResponses | lib/utils.js:113-116 | the pages asked for are 4 requests of 150 releases at offsets 0, 150, 300, 450, in order |
| Utils.PageAnswers | lib/utils.js:113-116 | one answer per page request, 4 in all |
| Utils.PageAnswerAt | lib/utils.js:113-116 | the i-th answer is `tryGetRevision` on 150 releases at offset 150 * i |
| Utils.PageSearchFound | lib/utils.js:113-121 | a found revision is the truthy answer of some page; every page before it missed; the revision is not 0 |
| Utils.PageSearchNotFoundIff | lib/utils.js:113-123 | "version not found" exactly when every page misses |
| Utils.PageSearchSkip | lib/utils.js:118-120 | a page that misses hands the search on to the next page |
| Utils.PageErrors | lib/utils.js:95-104 | a page fails only with a failed request or an empty release list, never with "not found" |
| Utils.SavedRevision | lib/utils.js:44-63 | an unreadable bundled file is an error; a truthy bundled entry wins; otherwise a missing hot cache gives "absent", an unreadable one an error, and a readable one its entry |
| Utils.BundledWins | lib/utils.js:49-52 | with a truthy bundled entry, the hot cache is never consulted |
| Utils.MergedTable | lib/utils.js:126-136 | after saving, the entry (platform, version) holds the revision; every other entry reads as before; the platform bucket is created if absent |
| Utils.SaveThenRead | lib/utils.js:126-136 | a saved revision is read back through the hot cache when the bundled table has no truthy entry |
| Utils.SaveKeepsOtherReads | lib/utils.js:131-134 | saving one entry does not change what any other entry reads as |
| Utils.CacheFiles.EnsureDir | lib/download-chromium-by-version.js:10-14 | the directory exists afterwards exactly when it existed or could be created |
| Utils.CacheFiles.GetSavedRevision | lib/utils.js:44-63 | the sequential lookups give exactly `SavedRevision` |
| Utils.CacheFiles.SaveRevision | lib/utils.js:126-140 | a writable cache now holds the merged table; otherwise the save fails and the file is unchanged |
| Utils.ResolveNonZero | lib/utils.js:106-124 | a resolved revision is never 0 |
| Utils.ResolveAfterSave | lib/utils.js:106-111 | after saving a non-zero revision, the next resolution returns it without asking the release service |
| Utils.RequestPage | lib/utils.js:114-116 | request number n asks 150 releases at offset 150·n and yields that page's answer |
| Utils.RequestPages | lib/utils.js:113-123 | the loop returns the first error or truthy revision among the 4 pages; it requests offsets 0, 150, … in order and stops at the first page that does not miss, so unless the answer is "not found" the last page requested is the one that decided it; "not found" comes only after all 4 |
| Utils.GetRevision | lib/utils.js:106-124 | a truthy cached revision is returned without any request; otherwise the paged search runs, as `Resolve` says, and the last page requested decides any answer other than "not found" |
| Download.StartOf | lib/download-chromium-by-version.js:22-29 | a non-empty version starts from getRevision's answer; otherwise from the latest stable release's version and revision, or "Could not get Chromium last stable version" |
| Download.Budget | lib/download-chromium-by-version.js:35 | the loop runs `downloadAttempts` times, and not at all when that is ≤ 0 |
| Download.DownloadPlan | lib/download-chromium-by-version.js:9-29 | a directory that cannot be made gives "Could not create directory" and nothing is tried; an error finding the start is passed on and nothing is tried |
| Download.AttemptsCountDown | lib/download-chromium-by-version.js:35-47 | attempt k uses revision start − k; at most `downloadAttempts` attempts are made |
| Download.DownloadSucceedsIff | lib/download-chromium-by-version.js:35-65 | success exactly when some attempt within the budget finds a build after nothing but 404s; the path returned is that build's |
| Download.DownloadErrorIff | lib/download-chromium-by-version.js:45-51 | "Could not download Chromium" exactly when a non-404 failure comes after nothing but 404s; it is the last attempt made |
| Download.BuildNotFoundWhenAllMissing | lib/download-chromium-by-version.js:55-58 | when every attempt answers 404, or none is allowed, the result is "Could not find Chromium build in N retries" |
| Download.WriteBackIff | lib/download-chromium-by-version.js:60-63 | the revision is saved exactly when the download succeeded after at least one 404; the saved revision is the one that succeeded |
| Download.DownloadThenResolve | lib/download-chromium-by-version.js:60-63 | after a write-back of a non-zero revision, resolving the same version returns it from the hot cache |
| Download.ChooseStart | lib/download-chromium-by-version.js:19-29 | the start chosen is `StartOf` |
| Download.AttemptDownloads | lib/download-chromium-by-version.js:31-65 | the retry loop returns and tries what `AttemptPlan` says, and writes the hot cache only when the revision changed and the cache is writable |
| Download.DownloadChromiumByVersion | lib/download-chromium-by-version.js:9-66 | the whole function: the directory step, then the result, the revisions tried and the hot cache as `DownloadPlan` says |
| UpdateRevisions.OsPrefixMatchesSupportedPlatforms | scripts/update-revisions.js:14-20 | the platforms with a storage prefix are exactly the supported ones, and these are distinct |
| UpdateRevisions.HostPlatformsSupported | scripts/update-revisions.js:20 | every name getPlatformName gives for darwin, win32 and linux is a supported platform |
| UpdateRevisions.LargestKey | scripts/update-revisions.js:30 | the largest number among a bucket's keys, or 0 |
| UpdateRevisions.LargestKeyUnique | scripts/update-revisions.js:30 | the largest key number is determined by the keys |
| UpdateRevisions.StartVersion | scripts/update-revisions.js:30-31 | largest stored version + 1, or 100 for a bucket with none; above every stored version |
| UpdateRevisions.LastInFile | scripts/update-revisions.js:30 | the key loop finds the largest key number |
| UpdateRevisions.FirstVersion | scripts/update-revisions.js:30-31 | the start version is `StartVersion` of the bucket |
| UpdateRevisions.InitialRevision | scripts/update-revisions.js:36-37 | the revision of the first newest-first release whose version starts with the decimal version; "version not found" exactly when there is none |
| UpdateRevisions.VersionStepMeaning | scripts/update-revisions.js:39-55 | a stored revision is the first, within 30 attempts counting down, whose snapshot exists, after nothing but 404s; nothing is stored exactly when all 30 answer 404; any other answer aborts the run naming revision and version |
| UpdateRevisions.RequestRevision | scripts/update-revisions.js:39-55 | the attempt loop of one version ends as the 30-attempt search does, and tries the revisions that search tries |
| UpdateRevisions.VersionIteration | scripts/update-revisions.js:36-55 | one iteration of the version loop yields what `VersionStep` says |
| UpdateRevisions.FillVersionsOkIff | scripts/update-revisions.js:35-56 | the version loop succeeds exactly when every version from start to lastStable does; no version runs when start > lastStable |
| UpdateRevisions.FillVersionsWrites | scripts/update-revisions.js:35-56 | stored entries are kept; version v gets an entry exactly when its search found a revision, and holds that revision; no other entries appear |
| UpdateRevisions.FillVersionsLoop | scripts/update-revisions.js:35-56 | the version loop computes `FillVersions` |
| UpdateRevisions.FillPlatformFrame | scripts/update-revisions.js:26-56 | one platform's iteration creates its bucket if absent, touches no other platform, and keeps every stored entry |
| UpdateRevisions.FillPlatformsFrame | scripts/update-revisions.js:26-57 | the platform loop creates a bucket for each listed platform, leaves other platforms alone, and keeps every stored entry |
| UpdateRevisions.UpdateKeepsStoredEntries | scripts/update-revisions.js:22-61 | a successful run keeps every stored entry, leaves unsupported platforms alone, and gives every supported platform a bucket |
| UpdateRevisions.UpdateBucket | scripts/update-revisions.js:27-56 | the start version and the version loop of one platform compute `FillBucket` |
| UpdateRevisions.UpdatePlatform | scripts/update-revisions.js:26-56 | one platform iteration computes `FillPlatform` |
| UpdateRevisions.UpdateRevisions | scripts/update-revisions.js:22-69 | an unreadable file is "Could not read Chromium revisions file"; a successful run writes the filled table back; any failure leaves the file as it was |
| Plugin.DedupSameElements | index.js:29 | `_.union` keeps exactly the elements of its inputs |
| Plugin.DedupDistinct | index.js:29 | `_.union` has no duplicates |
| Plugin.DedupFirstOccurrenceOrder | index.js:29 | elements keep the order of their first occurrence |
| Plugin.DedupOfDistinct | index.js:29 | a duplicate-free list is its own union |
| Plugin.UnionHeadless | index.js:29 | the union with ['headless'] is the existing args without repeats, then 'headless' if it was absent |
| Plugin.UnionHeadlessMeaning | index.js:27-31 | the resulting args have no duplicates and hold exactly the old args and 'headless'; duplicate-free args stay as they were, with 'headless' appended only if absent |
| Plugin.UnionHeadlessIdempotent | index.js:29 | a second union with ['headless'] changes nothing |
| Plugin.MergeChromeOptionsFields | index.js:24-31 | `args` becomes the union of the old array args (none otherwise) with ['headless']; `binary` becomes the path unless it was already an array; every other field is kept |
| Plugin.MergeChromeOptionsIdempotent | index.js:24-31 | merging twice with the same path equals merging once |
| Plugin.MergeChromeOptionsExamples | test/unit/index.js:38-78 | no prior options give `{args: ['headless'], binary: path}`; prior args ['some-arg'] give ['some-arg', 'headless'] |
| Plugin.Plugin | index.js:8-16 | a disabled plugin registers nothing; an unknown browser id is "Headless browser id was not specified"; otherwise the handler is registered for that browser |
| Plugin.OnInit | index.js:18-33 | a worker changes nothing; otherwise the download runs, its error propagates and leaves the browser unchanged, and on success chromeOptions becomes the merge with the downloaded path |

## Left out

- HTTP through `got`, its 5 retries and the chromiumdash URLs are not modelled. The release service is a parameter that answers a page or the latest stable release, or fails.
- `getLastStableMajor` is not modelled beyond its result. Its answer, or its failure, is the `latest` field of the release service.
- The `download-chromium` package is a function from revision to found path, 404 or other failure. Error messages other than "Response code 404" count as other failures.
- The spinner, the console output, `process.on` and `process.exit` are left out because they have no effect on the results.
- Asynchrony is left out: every `await` is a sequential step. The save after a download is not awaited in the source, so its failure never reaches the caller. The model states this as "the result does not depend on the save".
- `compare-versions` is modelled as lexicographic order on numeric components, with missing components as 0 and other characters skipped. Its validation of malformed versions and its pre-release ordering are left out.
- `fs.readJSON` of a file that holds something other than an object of objects is left out. A revisions file is missing, unreadable or a table.
- UpdateRevisions.LastInFile: keys that are not decimal numerals count as 0. The numeric `sort` with `NaN` comparisons has an order that depends on the engine, so `pop` might return a non-numeric key. The model takes the largest numeric key instead. `Number`'s acceptance of whitespace, signs and exponents in keys is also left out.
- `fs.writeFile` failing at the end of the script is not modelled. A run whose steps succeed always writes the table.
- The cache path string and `path.resolve` are not modelled; the `CacheFiles` object stands for the files at that path.
- `lib/parse-config.js` is not part of this model. The plugin options arrive already parsed as `Config`, and `cachePath` is the `CacheFiles` object.
- The host event emitter is not modelled. `OnInit` is the handler itself, and `isWorker` is a parameter.
- A browser entry that is present but `undefined`, and a browser whose `desiredCapabilities` is undefined (a TypeError in the source), are left out.
- Option values other than strings and arrays of strings are left out, and so are array-like objects as existing `args`. A non-array existing `args` is replaced by `['headless']`.
- `mergeWith` mutates the existing `chromeOptions` object in place. The model replaces the field with the merged value, so aliasing of that object elsewhere is not captured.
- `revisionsForPlatform` is the same object as `revisions[platformName]` in the script. The model fills a local bucket and stores it back into the table, which is the same final state without the aliasing.
- The TypeError that `releases.find(...).revision` would raise cannot occur. `getFullVersion` has already failed with "version not found" in that case, and that is the error the model gives.
