/** The plugin entry point: the enabled and browser-id checks, and the INIT
    handler that downloads Chromium and merges `args: ['headless']` and
    `binary: <path>` into the browser's `chromeOptions` capability with
    lodash's `mergeWith` and a `union` customizer. */
module Plugin {
  import opened Types
  import opened Utils
  import opened Download

  // ----- _.union --------------------------------------------------------------

  /** The distinct elements of `xs`, each at the place of its first occurrence. */
  function Dedup(xs: seq<string>): seq<string>
    decreases |xs|
  {
    if xs == [] then []
    else
      var init := xs[..|xs| - 1];
      if xs[|xs| - 1] in init then Dedup(init) else Dedup(init) + [xs[|xs| - 1]]
  }

  /** `_.union(a, b)`: the distinct elements of a then b, in order of first occurrence. */
  function Union(a: seq<string>, b: seq<string>): seq<string> {
    Dedup(a + b)
  }

  predicate Distinct(xs: seq<string>) {
    forall i, j :: 0 <= i < j < |xs| ==> xs[i] != xs[j]
  }

  /** The union keeps exactly the elements of its input. */
  lemma {:induction false} DedupSameElements(xs: seq<string>)
    ensures forall x :: x in Dedup(xs) <==> x in xs
    decreases |xs|
  {
    if xs != [] {
      var init := xs[..|xs| - 1];
      DedupSameElements(init);
      assert xs == init + [xs[|xs| - 1]];
    }
  }

  /** The union has no duplicates. */
  lemma {:induction false} DedupDistinct(xs: seq<string>)
    ensures Distinct(Dedup(xs))
    decreases |xs|
  {
    if xs != [] {
      var init := xs[..|xs| - 1];
      DedupDistinct(init);
      DedupSameElements(init);
    }
  }

  /** Elements appear in the order of their first occurrence: whatever comes
      earlier in the union occurs in the input before every occurrence of
      what comes later. */
  lemma {:induction false} DedupFirstOccurrenceOrder(xs: seq<string>)
    ensures forall i, j, k :: 0 <= i < j < |Dedup(xs)| && 0 <= k < |xs| && xs[k] == Dedup(xs)[j]
                              ==> Dedup(xs)[i] in xs[..k]
    decreases |xs|
  {
    if xs != [] {
      var init := xs[..|xs| - 1];
      var last := xs[|xs| - 1];
      DedupFirstOccurrenceOrder(init);
      DedupSameElements(init);
      var d := Dedup(xs);
      var e := Dedup(init);
      forall i, j, k | 0 <= i < j < |d| && 0 <= k < |xs| && xs[k] == d[j]
        ensures d[i] in xs[..k]
      {
        assert d[i] == e[i];
        if k < |init| {
          assert xs[k] == init[k];
          assert init[..k] == xs[..k];
        } else {
          assert xs[..k] == init;
        }
      }
    }
  }

  /** A duplicate-free list is its own union. */
  lemma {:induction false} DedupOfDistinct(xs: seq<string>)
    requires Distinct(xs)
    ensures Dedup(xs) == xs
    decreases |xs|
  {
    if xs != [] {
      var init := xs[..|xs| - 1];
      assert xs[|xs| - 1] !in init by {
        forall k | 0 <= k < |init|
          ensures init[k] != xs[|xs| - 1]
        {
          assert init[k] == xs[k];
        }
      }
      DedupOfDistinct(init);
      assert xs == init + [xs[|xs| - 1]];
    }
  }

  /** `_.union(args, ['headless'])`: the existing args without repeats, then
      'headless' if it was not among them. */
  lemma UnionHeadless(args: seq<string>)
    ensures Union(args, [Headless]) == Dedup(args) + (if Headless in args then [] else [Headless])
  {
    assert (args + [Headless])[..|args|] == args;
  }

  // ----- _.mergeWith ----------------------------------------------------------

  const Headless := "headless"

  /** A value of a `chromeOptions` field: a string, an array of strings, or
      any other value. */
  datatype OptionValue = Text(text: string) | List(items: seq<string>) | Other

  /** `desiredCapabilities.chromeOptions`, field name to value. */
  type ChromeOptions = map<string, OptionValue>

  function Get(options: ChromeOptions, key: string): Option<OptionValue> {
    if key in options then Some(options[key]) else None
  }

  /** The merge of one source field into the existing value `objValue`: the
      customizer turns an existing array into its union with ['headless'];
      for any other existing value it declines, and lodash copies a source
      array into a fresh array and lets a source string replace the value. */
  function MergeValue(objValue: Option<OptionValue>, srcValue: OptionValue): OptionValue {
    if objValue.Some? && objValue.value.List? then List(Union(objValue.value.items, [Headless]))
    else srcValue
  }

  /** `_.mergeWith(chromeOptions, {args: ['headless'], binary: path}, customizer)`;
      undefined options merge as `{}`. */
  function MergeChromeOptions(existing: Option<ChromeOptions>, path: string): ChromeOptions {
    var base := if existing.Some? then existing.value else map[];
    var withArgs := base["args" := MergeValue(Get(base, "args"), List([Headless]))];
    withArgs["binary" := MergeValue(Get(withArgs, "binary"), Text(path))]
  }

  /** The existing args that the merge starts from: none when the field is
      absent or not an array. */
  function ArgsOf(existing: Option<ChromeOptions>): seq<string> {
    if existing.Some? && "args" in existing.value && existing.value["args"].List?
    then existing.value["args"].items
    else []
  }

  /** `_.union(args, ['headless'])` is an array without repeats holding
      exactly the args and 'headless'; args that had no repeats stay as they
      were, with 'headless' appended if absent. */
  lemma UnionHeadlessMeaning(args: seq<string>)
    ensures Distinct(Union(args, [Headless]))
    ensures forall x :: x in Union(args, [Headless]) <==> x in args || x == Headless
    ensures Distinct(args) ==> Union(args, [Headless]) == args + (if Headless in args then [] else [Headless])
  {
    DedupSameElements(args + [Headless]);
    DedupDistinct(args + [Headless]);
    if Distinct(args) {
      UnionHeadless(args);
      DedupOfDistinct(args);
    }
  }

  /** A second union with 'headless' changes nothing. */
  lemma UnionHeadlessIdempotent(args: seq<string>)
    ensures Union(Union(args, [Headless]), [Headless]) == Union(args, [Headless])
  {
    var u := Union(args, [Headless]);
    UnionHeadlessMeaning(args);
    UnionHeadlessMeaning(u);
  }

  /** The merge sets `args` to the union of the existing args (none unless
      they were an array) with ['headless']; it sets `binary` to the
      downloaded path unless an array was already there; it keeps every
      other field. */
  lemma MergeChromeOptionsFields(existing: Option<ChromeOptions>, path: string)
    ensures MergeChromeOptions(existing, path)["args"] == List(Union(ArgsOf(existing), [Headless]))
    ensures existing.None? || "binary" !in existing.value || !existing.value["binary"].List?
            ==> MergeChromeOptions(existing, path)["binary"] == Text(path)
    ensures existing.Some? && "binary" in existing.value && existing.value["binary"].List?
            ==> MergeChromeOptions(existing, path)["binary"] == List(Union(existing.value["binary"].items, [Headless]))
    ensures existing.Some? ==> MergeChromeOptions(existing, path).Keys == existing.value.Keys + {"args", "binary"}
    ensures existing.None? ==> MergeChromeOptions(existing, path).Keys == {"args", "binary"}
    ensures existing.Some? ==> forall k :: k in existing.value && k != "args" && k != "binary"
                                  ==> MergeChromeOptions(existing, path)[k] == existing.value[k]
  {
    if ArgsOf(existing) == [] {
      UnionHeadless([]);
    }
  }

  /** Running the handler a second time with the same path changes nothing
      more: the second union finds 'headless' and no repeats. */
  lemma MergeChromeOptionsIdempotent(existing: Option<ChromeOptions>, path: string)
    ensures MergeChromeOptions(Some(MergeChromeOptions(existing, path)), path) == MergeChromeOptions(existing, path)
  {
    var once := MergeChromeOptions(existing, path);
    var twice := MergeChromeOptions(Some(once), path);
    MergeChromeOptionsFields(existing, path);
    MergeChromeOptionsFields(Some(once), path);
    UnionHeadlessIdempotent(ArgsOf(existing));
    if existing.Some? && "binary" in existing.value && existing.value["binary"].List? {
      UnionHeadlessIdempotent(existing.value["binary"].items);
    }
    assert twice.Keys == once.Keys;
    forall k | k in once
      ensures twice[k] == once[k]
    {
    }
  }

  /** No prior options give `{args: ['headless'], binary: path}`; prior args
      ['some-arg'] give ['some-arg', 'headless']. */
  lemma MergeChromeOptionsExamples()
    ensures MergeChromeOptions(None, "path/to/bin") == map["args" := List(["headless"]), "binary" := Text("path/to/bin")]
    ensures MergeChromeOptions(Some(map["args" := List(["some-arg"])]), "path/to/bin")
         == map["args" := List(["some-arg", "headless"]), "binary" := Text("path/to/bin")]
  {
    assert Dedup(["headless"]) == ["headless"] by {
      assert ["headless"][..0] == [];
    }
    assert Dedup(["some-arg"]) == ["some-arg"] by {
      assert ["some-arg"][..0] == [];
    }
    assert ["some-arg"] + ["headless"] == ["some-arg", "headless"];
    assert ["some-arg", "headless"][..1] == ["some-arg"];
  }

  // ----- the plugin -----------------------------------------------------------

  /** The parsed plugin options; the cache path is the CacheFiles object. */
  datatype Config = Config(enabled: bool, browserId: string, version: Option<string>, downloadAttempts: int)

  /** A browser of the host configuration. */
  class Browser {
    /** `desiredCapabilities.chromeOptions`; None while undefined. */
    var chromeOptions: Option<ChromeOptions>

    constructor (chromeOptions: Option<ChromeOptions>)
      ensures this.chromeOptions == chromeOptions
    {
      this.chromeOptions := chromeOptions;
    }
  }

  /** The plugin function: nothing is registered when the plugin is
      disabled, an unknown browser id is an error, and otherwise the INIT
      handler is registered for that browser. */
  function Plugin(config: Config, browsers: map<string, Browser>): (r: Result<Option<Browser>>)
    ensures r == Ok(None) <==> !config.enabled
    ensures r.Err? <==> config.enabled && config.browserId !in browsers
    ensures r.Err? ==> r.error == BrowserNotSpecified
    ensures r.Ok? && r.value.Some? ==> r.value.value == browsers[config.browserId]
  {
    if !config.enabled then Ok(None)
    else if config.browserId !in browsers then Err(BrowserNotSpecified)
    else Ok(Some(browsers[config.browserId]))
  }

  /** The INIT handler: a worker process does nothing; otherwise Chromium is
      downloaded and, on success, the browser's chromeOptions are replaced
      by their merge with the headless flag and the binary path. A download
      error propagates and leaves the browser as it was. */
  method OnInit(browser: Browser, isWorker: bool, config: Config, files: CacheFiles, service: ReleaseService,
                download: int -> Attempt<string>, platformOs: string, arch: string)
    returns (r: Result<()>, tried: seq<int>)
    modifies browser, files`cacheDir, files`hot
    ensures isWorker ==> r == Ok(()) && tried == [] && unchanged(browser) && unchanged(files)
    ensures !isWorker ==>
      var platform := PlatformName(platformOs, arch);
      var p := DownloadPlan(old(files.cacheDir) || files.writable, old(files.bundled), old(files.hot),
                            service, download, platform, config.version, config.downloadAttempts);
      && tried == p.tried
      && files.cacheDir == (old(files.cacheDir) || files.writable)
      && files.hot == (if p.writeBack.Some? && files.writable
                       then Parsed(MergedTable(old(files.hot), platform, p.writeBack.value.passedVersion, p.writeBack.value.revision))
                       else old(files.hot))
      && (p.result.Err? ==> r == Err(p.result.error) && unchanged(browser))
      && (p.result.Ok? ==> r == Ok(()) && browser.chromeOptions == Some(MergeChromeOptions(old(browser.chromeOptions), p.result.value)))
  {
    if isWorker {
      return Ok(()), [];
    }
    var chromiumPath;
    chromiumPath, tried := DownloadChromiumByVersion(files, service, download, platformOs, arch,
                                                     config.version, config.downloadAttempts);
    if chromiumPath.Err? {
      return Err(chromiumPath.error), tried;
    }
    browser.chromeOptions := Some(MergeChromeOptions(browser.chromeOptions, chromiumPath.value));
    r := Ok(());
  }
}
