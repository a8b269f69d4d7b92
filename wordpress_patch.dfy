/** The start-up patch of the WordPress tree inside the PHP runtime's filesystem: two
    appended blocks, the disabled fsockopen and cURL transports, the removed site-health
    filter and the installed fetch() transport, applied once and in this order. */
module WordPressPatch {
  import opened TextSearch
  import opened SiteHealthPattern
  import opened VirtualFs

  /** The document root, fixed by the WordPress bundle. */
  const DocRoot := "/wordpress"

  const WpConfigPath := DocRoot + "/wp-config.php"
  const PluginPath := DocRoot + "/wp-includes/plugin.php"
  const FsockopenPath := DocRoot + "/wp-includes/Requests/Transport/fsockopen.php"
  const CurlPath := DocRoot + "/wp-includes/Requests/Transport/cURL.php"
  const DefaultFiltersPath := DocRoot + "/wp-includes/default-filters.php"
  const MuPluginsDir := DocRoot + "/wp-content/mu-plugins"
  const FetchTransportPath := MuPluginsDir + "/requests_transport_fetch.php"

  /** The transports whose `test` method is replaced, in the order they are patched. */
  const Transports := [FsockopenPath, CurlPath]

  /** Every path the patch writes. */
  const WrittenPaths :=
    {WpConfigPath, PluginPath, FsockopenPath, CurlPath, DefaultFiltersPath, FetchTransportPath}

  // The appended blocks are template literals whose lines carry the source's indentation:
  // twelve spaces on each line, sixteen before `return`, and eight before the closing quote.
  const Indent := "            "
  const ClosingIndent := "        "

  /** The part of the `wp-config.php` block before the quoted document root. */
  const ConfigHead :=
    "\n" +
    Indent + "define('USE_FETCH_FOR_REQUESTS', false);\n" +
    Indent + "define('WP_HOME', '"

  /** The part of the `wp-config.php` block after the quoted document root. */
  const ConfigTail :=
    "');\n" +
    Indent + "\n" +
    Indent + "// The original version of this function crashes WASM WordPress, let's define an empty one instead.\n" +
    Indent + "function wp_new_blog_notification(...$args){} \n" +
    ClosingIndent

  /** The block appended to `wp-config.php`; `quote` stands for `JSON.stringify`. */
  function ConfigBlock(quote: string -> string): string {
    ConfigHead + quote(DocRoot) + ConfigTail
  }

  /** The part of the `plugin.php` block before the quoted site URL. */
  const SiteUrlHead := "\n" + Indent + "function _wasm_wp_force_site_url() {\n" + Indent + "    return "

  /** The part of the `plugin.php` block after the quoted site URL. */
  const SiteUrlTail :=
    ";\n" +
    Indent + "}\n" +
    Indent + "add_filter( \"option_home\", '_wasm_wp_force_site_url', 10000 );\n" +
    Indent + "add_filter( \"option_siteurl\", '_wasm_wp_force_site_url', 10000 );\n" +
    ClosingIndent

  /** The block appended to `plugin.php`: a function returning the scoped site URL, and
      filters that make WordPress read `home` and `siteurl` from it. */
  function SiteUrlBlock(scopedSiteUrl: string, quote: string -> string): string {
    SiteUrlHead + quote(scopedSiteUrl) + SiteUrlTail
  }

  function AppendConfig(contents: string, quote: string -> string): string {
    contents + ConfigBlock(quote)
  }

  function AppendSiteUrlFilters(contents: string, scopedSiteUrl: string, quote: string -> string): string {
    contents + SiteUrlBlock(scopedSiteUrl, quote)
  }

  const TestSignature := "public static function test"

  /** The replacement: the original signature turned into a `test` that reports the
      transport as unusable, followed by the start of a renamed `test2`. */
  const TestStub := TestSignature + StubBeforeDollar + "$" + StubAfterDollar

  const StubBeforeDollar := "( "
  const StubAfterDollar := "capabilities = array() ) " + StubBody + TestSignature + "2"
  const StubBody := "{ return false; } "

  /** The transport callback: `contents.replace('public static function test', …)`. */
  function DisableTransportTest(contents: string): string {
    ReplaceFirst(contents, TestSignature, TestStub)
  }

  /** After the `wp-config.php` and `plugin.php` appends the old text is a prefix of the
      new one and the rest is exactly the block; the `plugin.php` block returns the quoted
      scoped site URL. */
  lemma AppendsKeepOldContents(contents: string, scopedSiteUrl: string, quote: string -> string)
    ensures AppendConfig(contents, quote)[..|contents|] == contents
    ensures AppendConfig(contents, quote)[|contents|..] == ConfigBlock(quote)
    ensures AppendSiteUrlFilters(contents, scopedSiteUrl, quote)[..|contents|] == contents
    ensures AppendSiteUrlFilters(contents, scopedSiteUrl, quote)[|contents|..] ==
      SiteUrlBlock(scopedSiteUrl, quote)
    ensures OccursAt(SiteUrlBlock(scopedSiteUrl, quote), quote(scopedSiteUrl), |SiteUrlHead|)
    ensures OccursAt(ConfigBlock(quote), quote(DocRoot), |ConfigHead|)
  {
    EmbeddedAt(SiteUrlHead, quote(scopedSiteUrl), SiteUrlTail);
    EmbeddedAt(ConfigHead, quote(DocRoot), ConfigTail);
  }

  /** Appending is not idempotent: a second run adds the block again. */
  lemma AppendConfigTwice(contents: string, quote: string -> string)
    ensures AppendConfig(AppendConfig(contents, quote), quote) ==
      contents + ConfigBlock(quote) + ConfigBlock(quote)
    ensures AppendConfig(AppendConfig(contents, quote), quote) != AppendConfig(contents, quote)
  {
    assert |ConfigHead| > 0;
  }

  lemma EmbeddedAt(head: string, middle: string, tail: string)
    ensures OccursAt(head + middle + tail, middle, |head|)
  {
    assert (head + middle + tail)[|head|..|head| + |middle|] == middle;
  }

  /** `$capabilities` is not one of JavaScript's replacement patterns, so the stub is
      inserted literally, as `ReplaceFirst` does. */
  lemma TestStubIsLiteral()
    ensures IsLiteralReplacement(TestStub)
  {
    var a := TestSignature + StubBeforeDollar;
    assert '$' !in a;
    assert '$' !in "capabilities = array() ) ";
    assert '$' !in StubBody;
    assert '$' !in StubAfterDollar;
    forall k | 0 <= k < |TestStub| - 1 && TestStub[k] == '$'
      ensures TestStub[k + 1] !in {'$', '&', '`', '\''}
    {
      // the only `$` of the stub is the one between `a` and StubAfterDollar
      assert k == |a|;
      assert TestStub[k + 1] == StubAfterDollar[0] == "capabilities = array() ) "[0] == 'c';
    }
  }

  /** The transport patch: unchanged when the signature is absent; otherwise the first
      signature becomes the stub, which still starts with the signature, and the text
      before and after it is kept. */
  lemma DisableTransportTestSpec(contents: string)
    ensures (forall j :: !OccursAt(contents, TestSignature, j)) ==>
      DisableTransportTest(contents) == contents
    ensures forall k :: IsFirstOccurrence(contents, TestSignature, k) ==>
      && DisableTransportTest(contents) ==
         contents[..k] + TestStub + contents[k + |TestSignature|..]
      && OccursAt(DisableTransportTest(contents), TestStub, k)
      && OccursAt(DisableTransportTest(contents), TestSignature, k)
  {
    forall k | IsFirstOccurrence(contents, TestSignature, k)
      ensures OccursAt(DisableTransportTest(contents), TestStub, k)
      ensures OccursAt(DisableTransportTest(contents), TestSignature, k)
    {
      var r := DisableTransportTest(contents);
      assert r == contents[..k] + TestStub + contents[k + |TestSignature|..];
      assert r[k..k + |TestStub|] == TestStub;
      assert r[k..k + |TestSignature|] == TestStub[..|TestSignature|] == TestSignature;
    }
  }

  /** The transport patch is not idempotent: the stub starts with the signature it
      replaces, so a second application patches the stub again. */
  lemma DisableTransportTestNotIdempotent(contents: string, k: int)
    requires OccursAt(contents, TestSignature, k)
    ensures DisableTransportTest(DisableTransportTest(contents)) != DisableTransportTest(contents)
  {
    var once := DisableTransportTest(contents);
    ReplaceFirstLength(contents, TestSignature, TestStub, k);
    FirstOccurrenceExists(contents, TestSignature, k);
    DisableTransportTestSpec(contents);
    var k0 := IndexOf(contents, TestSignature, 0).value;
    assert OccursAt(once, TestSignature, k0);
    ReplaceFirstLength(once, TestSignature, TestStub, k0);
  }

  /** The five files the patch reads must exist. */
  predicate TargetsPresent(files: map<string, string>) {
    && WpConfigPath in files
    && PluginPath in files
    && FsockopenPath in files
    && CurlPath in files
    && DefaultFiltersPath in files
  }

  predicate Distinct(ts: seq<string>) {
    forall i, j :: 0 <= i < j < |ts| ==> ts[i] != ts[j]
  }

  /** The files after the transport loop has patched `ts`, one after the other. */
  function PatchTransports(files: map<string, string>, ts: seq<string>): (r: map<string, string>)
    requires forall t :: t in ts ==> t in files
    ensures r.Keys == files.Keys
    decreases |ts|
  {
    if ts == [] then files
    else
      var prev := PatchTransports(files, ts[..|ts| - 1]);
      var t := ts[|ts| - 1];
      prev[t := DisableTransportTest(prev[t])]
  }

  /** The loop over distinct transports patches exactly those paths, each once. */
  lemma {:induction false} PatchTransportsEffect(files: map<string, string>, ts: seq<string>)
    requires forall t :: t in ts ==> t in files
    requires Distinct(ts)
    ensures forall p :: p in files ==>
      PatchTransports(files, ts)[p] == if p in ts then DisableTransportTest(files[p]) else files[p]
  {
    if ts != [] {
      var init := ts[..|ts| - 1];
      var t := ts[|ts| - 1];
      assert forall u :: u in init ==> u in ts;
      PatchTransportsEffect(files, init);
      assert t !in init;
      forall p | p in files
        ensures PatchTransports(files, ts)[p] ==
          if p in ts then DisableTransportTest(files[p]) else files[p]
      {
        if p != t {
          assert p in ts <==> p in init;
        }
      }
    }
  }

  /** The whole filesystem after `patchWordPressFiles`, step by step. */
  function PatchedFiles(files: map<string, string>, scopedSiteUrl: string,
                        quote: string -> string, fetchTransport: string): map<string, string>
    requires TargetsPresent(files)
  {
    var f1 := files[WpConfigPath := AppendConfig(files[WpConfigPath], quote)];
    var f2 := f1[PluginPath := AppendSiteUrlFilters(f1[PluginPath], scopedSiteUrl, quote)];
    var f3 := PatchTransports(f2, Transports);
    var f4 := f3[DefaultFiltersPath := RemoveSiteHealthFilter(f3[DefaultFiltersPath])];
    f4[FetchTransportPath := fetchTransport]
  }

  /** The patch writes exactly six paths, the five it reads and the new transport file;
      each gets its own edit of its previous contents and every other file is kept. */
  lemma PatchedFilesEffect(files: map<string, string>, scopedSiteUrl: string,
                           quote: string -> string, fetchTransport: string)
    requires TargetsPresent(files)
    ensures |WrittenPaths| == 6
    ensures PatchedFiles(files, scopedSiteUrl, quote, fetchTransport).Keys ==
      files.Keys + {FetchTransportPath}
    ensures forall p :: p in files && p !in WrittenPaths ==>
      PatchedFiles(files, scopedSiteUrl, quote, fetchTransport)[p] == files[p]
    ensures PatchedFiles(files, scopedSiteUrl, quote, fetchTransport)[WpConfigPath] ==
      AppendConfig(files[WpConfigPath], quote)
    ensures PatchedFiles(files, scopedSiteUrl, quote, fetchTransport)[PluginPath] ==
      AppendSiteUrlFilters(files[PluginPath], scopedSiteUrl, quote)
    ensures PatchedFiles(files, scopedSiteUrl, quote, fetchTransport)[FsockopenPath] ==
      DisableTransportTest(files[FsockopenPath])
    ensures PatchedFiles(files, scopedSiteUrl, quote, fetchTransport)[CurlPath] ==
      DisableTransportTest(files[CurlPath])
    ensures PatchedFiles(files, scopedSiteUrl, quote, fetchTransport)[DefaultFiltersPath] ==
      RemoveSiteHealthFilter(files[DefaultFiltersPath])
    ensures PatchedFiles(files, scopedSiteUrl, quote, fetchTransport)[FetchTransportPath] ==
      fetchTransport
  {
    var f1 := files[WpConfigPath := AppendConfig(files[WpConfigPath], quote)];
    var f2 := f1[PluginPath := AppendSiteUrlFilters(f1[PluginPath], scopedSiteUrl, quote)];
    PatchTransportsEffect(f2, Transports);
  }

  /** `mkdirTree` of the mu-plugins directory also provides its two ancestors. */
  lemma MuPluginsTree()
    ensures DirTree(MuPluginsDir) >= {DocRoot, DocRoot + "/wp-content", MuPluginsDir}
  {
    assert IsDirPrefix(DocRoot, MuPluginsDir);
    assert IsDirPrefix(DocRoot + "/wp-content", MuPluginsDir);
    assert IsDirPrefix(MuPluginsDir, MuPluginsDir);
  }

  /** `patchFile(path, callback)`: the file at `path` becomes `callback` of its previous
      contents; nothing else changes. */
  method PatchFile(php: FileSystem, path: string, callback: string -> string)
    requires path in php.files
    modifies php
    ensures php.files == old(php.files)[path := callback(old(php.files)[path])]
    ensures php.dirs == old(php.dirs)
  {
    var contents := php.ReadFileAsText(path);
    php.WriteFile(path, callback(contents));
  }

  /** `patchWordPressFiles(php)`. The scoped site URL, `JSON.stringify` and the contents
      of `requests_transport_fetch.php` are parameters. */
  method PatchWordPressFiles(php: FileSystem, scopedSiteUrl: string,
                             quote: string -> string, fetchTransport: string)
    requires TargetsPresent(php.files)
    modifies php
    ensures php.files == PatchedFiles(old(php.files), scopedSiteUrl, quote, fetchTransport)
    ensures php.dirs == old(php.dirs) + DirTree(MuPluginsDir)
    ensures MuPluginsDir in php.dirs
    ensures php.files[FetchTransportPath] == fetchTransport
  {
    ghost var files := php.files;
    PatchFile(php, WpConfigPath, (contents: string) => AppendConfig(contents, quote));
    ghost var f1 := files[WpConfigPath := AppendConfig(files[WpConfigPath], quote)];
    assert php.files == f1;
    PatchFile(php, PluginPath,
      (contents: string) => AppendSiteUrlFilters(contents, scopedSiteUrl, quote));
    ghost var f2 := f1[PluginPath := AppendSiteUrlFilters(f1[PluginPath], scopedSiteUrl, quote)];
    assert php.files == f2;

    ghost var beforeLoop := php.files;
    for k := 0 to |Transports|
      invariant php.files == PatchTransports(beforeLoop, Transports[..k])
      invariant php.dirs == old(php.dirs)
    {
      assert Transports[..k + 1][..k] == Transports[..k];
      PatchFile(php, Transports[k], DisableTransportTest);
    }
    assert Transports[..|Transports|] == Transports;

    PatchFile(php, DefaultFiltersPath, RemoveSiteHealthFilter);

    php.MkdirTree(MuPluginsDir);
    DirTreeContainsPath(MuPluginsDir);
    php.WriteFile(FetchTransportPath, fetchTransport);
  }
}
