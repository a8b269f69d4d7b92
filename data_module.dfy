/** Choice of the WordPress data bundle the worker loads next to the PHP runtime. */
module DataModule {
  import opened Wrappers

  const DefaultBundle := "wp-playground-default.js"

  /** The bundles a `dataModule` option may name. */
  const AllowedWpModules: map<string, string> :=
    map["vanilla" := "wp.js", "test" := "wp-test-content.js", "playground" := DefaultBundle]

  /** `allowedWpModules[requestedModule] || allowedWpModules.playground`, where `None`
      stands for an option that is not set. A lookup that yields nothing, or an empty and
      hence falsy name, falls back to the playground bundle. */
  function RequestedDataModule(requested: Option<string>): (bundle: string)
    ensures bundle in AllowedWpModules.Values
    ensures requested.Some? && requested.value in AllowedWpModules ==>
      bundle == AllowedWpModules[requested.value]
    ensures requested.None? || requested.value !in AllowedWpModules ==>
      bundle == DefaultBundle
  {
    var found :=
      if requested.Some? && requested.value in AllowedWpModules
      then AllowedWpModules[requested.value] else "";
    if found != "" then found else AllowedWpModules["playground"]
  }

  /** The resolver's whole table, selector by selector. */
  lemma ResolverTable(other: string)
    requires other !in {"vanilla", "test", "playground"}
    ensures RequestedDataModule(Some("vanilla")) == "wp.js"
    ensures RequestedDataModule(Some("test")) == "wp-test-content.js"
    ensures RequestedDataModule(Some("playground")) == "wp-playground-default.js"
    ensures RequestedDataModule(Some(other)) == "wp-playground-default.js"
    ensures RequestedDataModule(None) == "wp-playground-default.js"
  {
  }

  /** The module specifier of the data bundle, `/${getRequestedDataModule()}?${wpJsCacheBuster}`. */
  function DataModuleSpecifier(requested: Option<string>, cacheBuster: string): string {
    "/" + RequestedDataModule(requested) + "?" + cacheBuster
  }

  /** The `test` selector loads the test-content bundle; an unknown one the default. */
  lemma SpecifierNamesBundle(other: string, cacheBuster: string)
    requires other !in AllowedWpModules
    ensures DataModuleSpecifier(Some("test"), cacheBuster) == "/" + "wp-test-content.js" + "?" + cacheBuster
    ensures DataModuleSpecifier(Some(other), cacheBuster) == "/" + DefaultBundle + "?" + cacheBuster
  {
    assert RequestedDataModule(Some("test")) == "wp-test-content.js";
    assert RequestedDataModule(Some(other)) == DefaultBundle;
  }
}
