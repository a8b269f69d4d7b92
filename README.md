# WordPress Playground worker bootstrap: resolver and source patcher

This project models the synchronous logic of the worker thread that starts WordPress
inside an in-browser PHP runtime. The model has two parts:

- **Data-module resolver.** The worker reads a `dataModule` option. It maps `vanilla`,
  `test` and `playground` to the bundles `wp.js`, `wp-test-content.js` and
  `wp-playground-default.js`. Any other value, or a missing option, gets the playground
  bundle. The bundle is then loaded from `/<bundle>?<cache buster>`.
- **WordPress source patcher.** `patchWordPressFiles` edits the runtime's virtual
  filesystem once, in a fixed order. Each edit is a read-modify-write through
  `patchFile` (read the file, apply a callback to its text, write the result back):
  - append configuration constants to `wp-config.php`;
  - append a filter to `wp-includes/plugin.php` that forces the site URL to the scoped
    site URL;
  - in a loop over the two transports `fsockopen.php` and `cURL.php`, replace the first
    `public static function test` with a stub that returns `false`;
  - remove the leftmost match of
    `/add_filter[^;]+wp_maybe_grant_site_health_caps[^;]+;/i` from
    `wp-includes/default-filters.php`;
  - create `wp-content/mu-plugins`, then write `requests_transport_fetch.php` into it.

Modules:

- `Wrappers` (`wrappers.dfy`) holds the `Option` type.
- `TextSearch` (`text_search.dfy`) holds literal search. `IndexOf` is the search and
  `ReplaceFirst` is `String.prototype.replace` with a string pattern, for a replacement
  that has no `$` pattern (`IsLiteralReplacement`); the transport stub is one
  (`TestStubIsLiteral`).
- `SiteHealthPattern` (`site_health_pattern.dfy`) holds the one regular expression. It is
  written as an explicit search (`MatchAt`, `FindMatch`) and proved equal to a
  declarative reading of the expression (`IsPatternMatch`): it matches exactly where the
  expression matches, and it finds the leftmost match.
- `DataModule` (`data_module.dfy`) holds the resolver.
- `VirtualFs` (`virtual_fs.dfy`) holds the filesystem. The class `FileSystem` has a
  `files` map from path to text and a `dirs` set. It offers `readFileAsText`,
  `writeFile` and `mkdirTree`.
- `WordPressPatch` (`wordpress_patch.dfy`) holds the appended blocks, the per-file
  callbacks, and the state after the whole patch as the function `PatchedFiles`. It
  also holds the methods `PatchFile` and `PatchWordPressFiles`; the second keeps the
  source's `for` loop over the transports.

Three things the code takes from outside are parameters of `PatchWordPressFiles`:

- the scoped site URL;
- `JSON.stringify`, as an arbitrary function `quote: string -> string`;
- the text that `require('./requests_transport_fetch.php')` yields.

Two consequences of the code are worth stating:

- The regular expression has no `g` flag, so only the first match is removed. A file
  that holds the registration twice keeps the second copy (`SecondMatchSurvives`).
- An append adds its block whatever the file already holds, so a second run adds the
  block again (`AppendConfigTwice`). The model states that the old text is a prefix of
  the new text and that the block is the rest.

## Model

| member | source | states |
|---|---|---|
| `DataModule.RequestedDataModule` | src/wordpress-playground/worker-thread.ts:44-53 | the bundle is always one of the three allowed ones; a known selector gets its own bundle; an unknown or missing selector gets `wp-playground-default.js` |
| `DataModule.ResolverTable` | src/wordpress-playground/worker-thread.ts:45-52 | `vanilla`, `test` and `playground` give `wp.js`, `wp-test-content.js` and `wp-playground-default.js`; every other string, and no option, gives `wp-playground-default.js` |
| `DataModule.SpecifierNamesBundle` | src/wordpress-playground/worker-thread.ts:28 | the data-module path for `test` is `/wp-test-content.js?<token>`; for an unknown selector it is `/wp-playground-default.js?<token>` |
| `DataModule.DataModuleSpecifier` | src/wordpress-playground/worker-thread.ts:28 | no contract of its own: the data-bundle module path; specified by `SpecifierNamesBundle` |
| `TextSearch.IndexOf` | src/wordpress-playground/worker-thread.ts:95-98 | a found index is an occurrence at or after the start index, and none lies between the start and it; when nothing is found, no occurrence exists from the start index on |
| `TextSearch.ReplaceFirst` | src/wordpress-playground/worker-thread.ts:95-98 | without an occurrence the text is unchanged; otherwise the result is `pre + replacement + post`, where `pre + needle + post` is the input and the needle starts nowhere inside `pre` |
| `SiteHealthPattern.FoldCase` | src/wordpress-playground/worker-thread.ts:105 | case folding for the `i` flag: it maps `;` and only `;` to `;`, and maps exactly the ASCII letters to lower-case letters |
| `SiteHealthPattern.FoldCaseEquality` | src/wordpress-playground/worker-thread.ts:105 | two characters fold equal exactly when they are the same character or the same ASCII letter in the other case, which is JavaScript's non-Unicode `i` equality for this ASCII pattern |
| `SiteHealthPattern.MatchAt` | src/wordpress-playground/worker-thread.ts:105 | no contract of its own: the match starting at one index; specified by `MatchAtSound` and `MatchAtComplete` |
| `SiteHealthPattern.RemoveSiteHealthFilter` | src/wordpress-playground/worker-thread.ts:103-108 | no contract of its own: the site-health callback; specified by `RemoveSiteHealthFilterSpec` |
| `SiteHealthPattern.FindMatch` | src/wordpress-playground/worker-thread.ts:103-107 | the reported start has a match, and no index between the search start and it has one; when nothing is reported, no index from the search start on has a match |
| `SiteHealthPattern.MatchAtSound` | src/wordpress-playground/worker-thread.ts:105 | whatever the explicit search finds at an index is a string the expression matches in full |
| `SiteHealthPattern.MatchAtComplete` | src/wordpress-playground/worker-thread.ts:105 | every full match of the expression that starts at an index is the one the explicit search finds there |
| `SiteHealthPattern.FindMatchIsLeftmost` | src/wordpress-playground/worker-thread.ts:103-107 | the search returns the leftmost match of the expression; it returns nothing exactly when the text contains no match |
| `SiteHealthPattern.MatchEndIsDetermined` | src/wordpress-playground/worker-thread.ts:105 | at most one match starts at any index, because `[^;]` cannot pass a `;` |
| `SiteHealthPattern.RemoveSiteHealthFilterSpec` | src/wordpress-playground/worker-thread.ts:103-108 | without a match the file is unchanged; otherwise exactly the leftmost match is deleted, and the text before and after it is kept |
| `SiteHealthPattern.MatchShape` | src/wordpress-playground/worker-thread.ts:105 | a deleted span starts with `add_filter` in any case and ends with its only `;`; it holds `wp_maybe_grant_site_health_caps` with at least one character on each side |
| `SiteHealthPattern.SecondMatchSurvives` | src/wordpress-playground/worker-thread.ts:104-107 | a stock `add_filter( 'user_has_cap', 'wp_maybe_grant_site_health_caps', 1, 4 );` is a match; when it is present twice, the patch removes only the first copy |
| `VirtualFs.DirTree` | src/wordpress-playground/worker-thread.ts:111 | the directories `mkdirTree(path)` ensures are exactly `path` and each of its prefixes that ends before a `/` |
| `VirtualFs.DirTreeContainsPath` | src/wordpress-playground/worker-thread.ts:111 | `mkdirTree` of a non-empty path provides that path itself |
| `VirtualFs.FileSystem.ReadFileAsText` | src/wordpress-playground/worker-thread.ts:57 | reading an existing file returns its stored text and changes nothing |
| `VirtualFs.FileSystem.WriteFile` | src/wordpress-playground/worker-thread.ts:57 | the file at the path becomes the given text; every other file and every directory is unchanged |
| `VirtualFs.FileSystem.MkdirTree` | src/wordpress-playground/worker-thread.ts:111 | adds the directory and all its ancestors, keeps existing directories, has no precondition (it succeeds whether or not they exist), and leaves the files alone |
| `WordPressPatch.ConfigBlock` | src/wordpress-playground/worker-thread.ts:64-70 | no contract of its own: the block appended to `wp-config.php`; specified by `AppendsKeepOldContents` |
| `WordPressPatch.SiteUrlBlock` | src/wordpress-playground/worker-thread.ts:79-85 | no contract of its own: the block appended to `plugin.php`; specified by `AppendsKeepOldContents` |
| `WordPressPatch.AppendConfig` | src/wordpress-playground/worker-thread.ts:60-71 | no contract of its own: the `wp-config.php` callback; specified by `AppendsKeepOldContents` and `AppendConfigTwice` |
| `WordPressPatch.AppendSiteUrlFilters` | src/wordpress-playground/worker-thread.ts:75-86 | no contract of its own: the `plugin.php` callback; specified by `AppendsKeepOldContents` |
| `WordPressPatch.AppendsKeepOldContents` | src/wordpress-playground/worker-thread.ts:60-86 | after each append the old text is a prefix of the new text and the rest is exactly the fixed block; the `plugin.php` block embeds the quoted scoped site URL and the `wp-config.php` block the quoted document root |
| `WordPressPatch.AppendConfigTwice` | src/wordpress-playground/worker-thread.ts:60-71 | applying the `wp-config.php` append twice gives the old text followed by two copies of the block, which differs from one application |
| `WordPressPatch.DisableTransportTest` | src/wordpress-playground/worker-thread.ts:94-98 | no contract of its own: the transport callback; specified by `DisableTransportTestSpec` and `DisableTransportTestNotIdempotent` |
| `WordPressPatch.TestStubIsLiteral` | src/wordpress-playground/worker-thread.ts:97 | the transport replacement has no `$$`, `$&`, `` $` `` or `$'` pattern, so it is inserted literally |
| `WordPressPatch.DisableTransportTestSpec` | src/wordpress-playground/worker-thread.ts:94-98 | without the signature a transport file is unchanged; otherwise the first signature becomes the stub, the stub begins with the original signature, and the text around it is kept |
| `WordPressPatch.DisableTransportTestNotIdempotent` | src/wordpress-playground/worker-thread.ts:94-98 | on a file that holds the signature, a second transport patch changes the text again, so the patch relies on running once |
| `WordPressPatch.PatchTransports` | src/wordpress-playground/worker-thread.ts:89-100 | the transport loop keeps the set of paths |
| `WordPressPatch.PatchTransportsEffect` | src/wordpress-playground/worker-thread.ts:89-100 | for distinct transports, the loop patches each listed path once and leaves every other path as it was |
| `WordPressPatch.MuPluginsTree` | src/wordpress-playground/worker-thread.ts:111 | creating `wp-content/mu-plugins` also provides `/wordpress` and `/wordpress/wp-content` |
| `WordPressPatch.PatchedFiles` | src/wordpress-playground/worker-thread.ts:55-116 | no contract of its own: the filesystem after the whole patch, step by step; specified by `PatchedFilesEffect` |
| `WordPressPatch.PatchedFilesEffect` | src/wordpress-playground/worker-thread.ts:55-116 | the patch writes exactly six distinct paths: the five existing files, each edited from its old text, and the new transport file with the supplied text; every other file is kept |
| `WordPressPatch.PatchFile` | src/wordpress-playground/worker-thread.ts:56-58 | the file at the path becomes the callback applied to its previous text; every other file and every directory is unchanged |
| `WordPressPatch.PatchWordPressFiles` | src/wordpress-playground/worker-thread.ts:55-116 | the new files are `PatchedFiles` of the old ones; the directories gain exactly the mu-plugins tree; `mu-plugins` exists, and `requests_transport_fetch.php` holds the supplied text |

## Left out

- ReplaceFirst: does not expand the replacement patterns `$$`, `$&`, `` $` `` and `$'`
  that JavaScript expands even for a string pattern. The only replacement the patcher
  uses has none of them (`TestStubIsLiteral`), so for it the two agree.
- Loading the PHP runtime and the data bundle (`import`, `Promise.all`,
  `loadPHPWithProgress`) is left out. It is asynchronous I/O into an external WASM
  runtime. Only the bundle path is modelled.
- `PHPServer` and `PHPBrowser` construction and `initializeWorkerThread` are left out.
  They wrap external libraries.
- The random scope token (`Math.random().toFixed(16)`) and `setURLScope` are left out.
  They are floating-point randomness and a URL helper outside this file. The scoped
  site URL is a parameter.
- `JSON.stringify` is not interpreted. It is the arbitrary function `quote`.
- The contents of `requests_transport_fetch.php` are not part of this model. They are
  a parameter.
- `isUploadedFilePath` is not part of this model. It lives in `worker-utils`.
- Reading a missing file is out of scope. `PatchWordPressFiles` and `PatchFile` require
  the files they read to exist.
- Errors of the runtime's filesystem are not modelled: writing under a missing
  directory, or `mkdirTree` over an existing file. `WriteFile` and `MkdirTree` always
  succeed.
- Resolver lookups of JavaScript object-prototype keys (such as `constructor`) are not
  modelled. The table is a closed map of the three keys. A non-string option value is
  treated like an unknown selector.
- General regular-expression semantics are out of scope. Only this one expression is
  modelled.
- Text is a sequence of Unicode characters, not UTF-16 code units. The matcher never
  splits text inside a character, so lengths differ from JavaScript's but the spans
  removed and replaced are the same.
