# Import firewall: a Dafny model

This project models the `import-firewall` ESLint rule of `eslint-plugin-import-firewall`.
The rule enforces a layered architecture: each source file belongs to a *layer* (app, widget,
feature, shared, ...), and each layer may import only from the layers its configuration lists.
For a single `import` statement in a single file, the rule decides whether to report an
`invalidImport` diagnostic.

The model follows `rules/import-firewall.js` piece by piece:

- **Registry** (`registry.dfy`, `ordered_map.dfy`). The rule keeps three maps filled once by
  `Map.set`: path pattern → layer name, alias → layer name, and layer name → allowed imports.
  - A JavaScript `Map` is modelled as its list of entries in insertion order. `Set` replaces the
    value of a key in place, or appends a new key at the end.
  - `Build` is the `forEach` loop and is proved equal to the left fold `Of`.
  - A repeated key keeps the position where it was first set but takes the value set last. In a
    configuration without repeated names, patterns or aliases (`WellFormed`), every map lists the
    layers in declaration order.
- **Separator normalisation** (`paths.dfy`). `Normalize` replaces every backslash with a slash.
- **Path classifier** (`classify.dfy`). `LayerFromPath` is the `for...of` loop: it returns the
  first path pattern, in map order, that the normalised file path contains. It is proved equal
  to the first-match function `PathLayer`.
- **Import classifier** (`classify.dfy`, `paths.dfy`).
  - An alias prefix wins over everything else.
  - A `./` or `../` specifier is resolved with a stack of segments (`ResolveRelative`):
    - the stack starts as the file's directory;
    - `..` pops, and does nothing when the stack is already empty;
    - `.` is skipped;
    - any other segment is pushed.
  - The resolved path `/a/b/.../` is then matched against the path patterns.
  - A `./` specifier that matches no pattern falls back to the importing file's own layer.
  - `IsExternal` is the `isNodeModuleImport` test.
- **Evaluator** (`firewall.dfy`). `Evaluate` is the `ImportDeclaration` handler.
  - It takes the file name and the import source as parameters.
  - It returns `Option<Diagnostic>`: the report's three data fields, or none.
  - It is proved equal to the decision function `Decide`.
- **Examples** (`examples.dfy`). The four-layer configuration of the test suite, and every valid
  and invalid test case of `tests/import-firewall.test.js` as a lemma about `Decide`.
  - The lemmas hold for every registry with the fixture's three maps (`IsFixture`).
    `FixtureRegistry` proves that the registry built from the fixture is one of them.
  - File paths are written as their segments: `Slashed(["project", "src", "app", "index.js"])`
    is `/project/src/app/index.js`. Each lemma's comment gives the path as the test writes it.
  - Specifiers and the expected `allowed` texts are the test's own string literals.

The `allowed` text lists the layers in configuration order, unsorted (`allowedLayers.join(', ')`,
rules/import-firewall.js:181), as the tests expect (`widget, feature, shared, node_modules`,
tests/import-firewall.test.js:148).

`Decide` skips a file whose layer is the empty string, as the source's `!currentLayer` test does.
It does not skip an imported layer with an empty name, because the source tests only
`importedLayer === null`.

## Model

| member | source | states |
|---|---|---|
| Strings.StartsWith | rules/import-firewall.js:91 | `startsWith` is the prefix relation on strings |
| Strings.Contains | rules/import-firewall.js:80 | `includes`; `ContainsIffOccurs` states its meaning |
| Strings.ContainsIffOccurs | rules/import-firewall.js:80 | `includes` holds exactly when the pattern starts the string at some offset |
| Strings.ContainsInfix | rules/import-firewall.js:125 | a pattern occurs in any string built around it |
| Strings.Split | rules/import-firewall.js:99 | `split('/')` yields at least one piece and no piece contains the separator |
| Strings.JoinSplit | rules/import-firewall.js:99 | joining the pieces of a split with the separator gives back the string |
| Strings.SplitJoin | rules/import-firewall.js:119 | splitting separator-free parts joined by the separator gives back the parts |
| Strings.NonEmpty | rules/import-firewall.js:99 | `filter(Boolean)` keeps only non-empty parts, each taken from the input |
| Strings.NonEmptyAppend | rules/import-firewall.js:99 | filtering distributes over concatenation |
| Strings.Join | rules/import-firewall.js:119 | `join`; `SplitJoin` and `JoinSnoc` state its meaning |
| Strings.JoinSnoc | rules/import-firewall.js:181 | joining one more part appends the separator and that part |
| OrderedMap.Get | rules/import-firewall.js:176 | `Map.get`, `None` for a missing key; `Set` and `GetDistinct` state its meaning |
| OrderedMap.Set | rules/import-firewall.js:65-67 | `Map.set` keeps an existing key in place with the new value and appends a new key; other keys keep their values |
| OrderedMap.FromPairs | rules/import-firewall.js:64-68 | the map left by one `set` per pair; `FromPairsKeys`, `FromPairsGet` and `FromPairsDistinct` state its meaning |
| OrderedMap.FromPairsKeys | rules/import-firewall.js:64-68 | the keys of the filled map are the configured keys in order of first occurrence |
| OrderedMap.FromPairsGet | rules/import-firewall.js:64-68 | a key repeated in the configuration maps to the value set last |
| OrderedMap.FromPairsDistinct | rules/import-firewall.js:64-68 | without repeated keys the filled map is exactly the configured pairs in order |
| OrderedMap.FromPairsKeysDistinct | rules/import-firewall.js:64-68 | a filled map never holds a key twice |
| OrderedMap.DedupMembers | rules/import-firewall.js:64-68 | deduplicating the keys keeps every key |
| OrderedMap.GetDistinct | rules/import-firewall.js:176 | `get` of the key of entry `i` returns entry `i`'s value |
| LayerRegistry.Of | rules/import-firewall.js:59-68 | the three maps of a configuration; `OfWellFormed` states their contents |
| LayerRegistry.Build | rules/import-firewall.js:59-68 | the `forEach` loop leaves the three maps that one `set` per layer, in order, produces |
| LayerRegistry.OfWellFormed | rules/import-firewall.js:64-68 | in a configuration without repeated names, patterns or aliases, each map lists the layers in declaration order |
| LayerRegistry.RulesOfLastDeclared | rules/import-firewall.js:67 | the allow-list stored for a name is that of the last layer declared with it |
| LayerRegistry.RulesOfLayer | rules/import-firewall.js:67 | in a well-formed configuration the allow-list stored for layer `i` is the one it declares |
| Paths.Normalize | rules/import-firewall.js:70-73 | every backslash becomes a slash and every other character is kept, at the same length |
| Paths.NormalizeNoBackslash | rules/import-firewall.js:70-73 | a normalised path contains no backslash |
| Paths.NormalizeIdempotent | rules/import-firewall.js:70-73 | normalising twice is the same as normalising once |
| Paths.NormalizeKeeps | rules/import-firewall.js:70-73 | a path without backslashes is unchanged |
| Paths.Segments | rules/import-firewall.js:99 | `split('/').filter(Boolean)`; `SegmentsWellFormed` and `SegmentsOfJoin` state its meaning |
| Paths.Directory | rules/import-firewall.js:98-102 | the segments of the normalised file path without the last; `ResolvedPathSegments` uses it |
| Paths.Step | rules/import-firewall.js:109-115 | one iteration of the loop: `..` pops unless empty, `.` is skipped, anything else is pushed; `ResolveClimbs` and `ResolveDescends` state its effect |
| Paths.Resolve | rules/import-firewall.js:106-116 | the stack after the loop; `ResolveAppend`, `ResolveLength` and `ResolveWellFormed` state its meaning |
| Paths.ResolvedPath | rules/import-firewall.js:98-119 | the resolved path; `ResolvedPathShape` and `ResolvedPathSegments` state its meaning |
| Paths.ResolveRelative | rules/import-firewall.js:98-119 | the push/pop loop over the specifier's segments yields the resolved path of the file's directory and the specifier |
| Paths.ResolvedPathShape | rules/import-firewall.js:119 | a resolved path begins and ends with `/` |
| Paths.ResolveAppend | rules/import-firewall.js:108-116 | resolving two runs of segments in turn is resolving their concatenation |
| Paths.ResolveDescends | rules/import-firewall.js:113-115 | segments other than `.` and `..` are pushed in order |
| Paths.ResolveClimbs | rules/import-firewall.js:109-112 | `n` segments `..` drop `n` directories, clamped at the root |
| Paths.ClimbThenDescend | rules/import-firewall.js:108-116 | `n` segments `..` and then plain segments climb `n` directories and then descend |
| Paths.StayThenDescend | rules/import-firewall.js:108-116 | `./` and then plain segments descend from the file's own directory |
| Paths.ResolveLength | rules/import-firewall.js:106-116 | the resolved stack is no longer than the directory and the specifier together |
| Paths.SegmentsWellFormed | rules/import-firewall.js:99 | the segments of a path are non-empty and slash-free |
| Paths.ResolveWellFormed | rules/import-firewall.js:106-116 | resolving well-formed segments yields well-formed segments |
| Paths.ResolvedPathSegments | rules/import-firewall.js:99-119 | splitting the resolved path into segments gives back the resolved stack |
| Paths.SegmentsOfJoin | rules/import-firewall.js:105 | the segments of slash-free parts joined by `/` are those parts, without empty ones |
| Paths.SlashedContains | rules/import-firewall.js:80 | a pattern `/a/b/` occurs in `/x/y/.../z` exactly when `a, b` occur as consecutive segments followed by at least one more |
| Paths.SlashedPrefix | rules/import-firewall.js:80 | a pattern `/a/b/` starts a slashed path exactly when its segments start the path's segments |
| Classify.FirstMatch | rules/import-firewall.js:79-84 | the value of the first entry whose key passes the test; `FirstMatchIsFirst` and `FirstMatchNone` state its meaning |
| Classify.Scan | rules/import-firewall.js:79-84 | the `for...of` loop with early return yields the value of the first entry whose key passes the test |
| Classify.FirstMatchIsFirst | rules/import-firewall.js:90-94 | when entry `i` is the first to pass, the scan returns its value |
| Classify.FirstMatchNone | rules/import-firewall.js:122-128 | the scan finds nothing exactly when no entry passes |
| Classify.FirstMatchNoneKeys | rules/import-firewall.js:122-128 | the scan finds nothing exactly when no key passes |
| Classify.PathLayer | rules/import-firewall.js:75-86 | the first path pattern the normalised file path contains; `PathLayerFirstDeclared` and `PathLayerNone` state its meaning |
| Classify.LayerFromPath | rules/import-firewall.js:75-86 | `getLayerFromPath` is the first-match of the normalised path against the path patterns |
| Classify.PathLayerFirstDeclared | rules/import-firewall.js:75-86 | in a well-formed configuration a file belongs to the first declared layer whose pattern its path contains |
| Classify.PathLayerNone | rules/import-firewall.js:75-86 | a file has no layer exactly when its normalised path contains no configured pattern, in every configuration |
| Classify.ImportLayer | rules/import-firewall.js:88-139 | the layer of a specifier; `AliasWins`, `RelativeResolved`, `SameDirectoryFallback`, `ParentDirectoryUnknown` and `ExternalIff` state its four branches |
| Classify.LayerFromImport | rules/import-firewall.js:88-139 | `getLayerFromImport`, with the file name as a parameter, computes `ImportLayer` |
| Classify.AliasWins | rules/import-firewall.js:88-94 | the first alias that starts the specifier decides its layer, even for a relative-looking specifier |
| Classify.RelativeResolved | rules/import-firewall.js:97-128 | a relative specifier without an alias takes the layer of the first pattern its resolved path contains |
| Classify.SameDirectoryFallback | rules/import-firewall.js:130-134 | a `./` specifier whose resolved path matches no pattern takes the importing file's layer |
| Classify.ParentDirectoryUnknown | rules/import-firewall.js:130-138 | a `../` specifier whose resolved path matches no pattern has no layer |
| Classify.IsExternal | rules/import-firewall.js:141-150 | `isNodeModuleImport`; `ExternalIff` states its meaning |
| Classify.ExternalIff | rules/import-firewall.js:141-150 | a specifier is external exactly when no alias starts it and it starts with neither `./` nor `../`; an external specifier has no layer |
| Firewall.AllowedFor | rules/import-firewall.js:176 | the stored allow-list of a layer, or none; `RulesOfLayer` states which list is stored |
| Firewall.FormatAllowed | rules/import-firewall.js:180-182 | the `allowed` text, `node_modules only` for an empty list; `FormatAllowedLists` states the non-empty case |
| Firewall.FormatAllowedLists | rules/import-firewall.js:180-182 | a non-empty allow-list is shown in configuration order with `node_modules` as the last entry |
| Firewall.Decide | rules/import-firewall.js:152-194 | the decision for one import; `ReportIff` states its meaning |
| Firewall.Evaluate | rules/import-firewall.js:152-194 | the `ImportDeclaration` handler computes the decision `Decide` |
| Firewall.EvaluateTwice | rules/import-firewall.js:152-194 | the handler keeps no state: the same import checked twice gets the same answer |
| Firewall.ReportIff | rules/import-firewall.js:152-194 | a report is made exactly when the file has a non-empty layer, the import is not external, its layer is known and missing from the allow-list; the report names both layers and the formatted allow-list |
| Firewall.CheckedImport | rules/import-firewall.js:176-193 | once both layers are known, the allow-list membership test alone decides |
| Firewall.UncheckedFilePasses | rules/import-firewall.js:155-160 | a file with no layer, or an empty one, is never reported |
| Firewall.ExternalPasses | rules/import-firewall.js:164-167 | an external import is never reported |
| Firewall.UnknownLayerPasses | rules/import-firewall.js:169-174 | an import whose layer is unknown is never reported |
| Firewall.AliasImportDecision | rules/import-firewall.js:152-194 | in a well-formed configuration, an aliased import from layer `i` of layer `k` is reported exactly when `k` is not in `i`'s allow-list |
| FirewallExamples.FixtureRegistry | tests/import-firewall.test.js:15-43 | the test configuration is well formed and its registry holds its layers in order |
| FirewallExamples.FixtureAllowed | tests/import-firewall.test.js:15-43 | the four allow-lists of the test configuration as the evaluator reads them |
| FirewallExamples.SourcePattern | rules/import-firewall.js:80 | in a `/project/src/...` path, `/src/<dir>/` occurs exactly when `dir` follows `src` and is not the last segment |
| FirewallExamples.PathScan | rules/import-firewall.js:79-84 | the path scan of the test configuration gives the layer of the directory after `src` |
| FirewallExamples.FileLayer | rules/import-firewall.js:75-86 | a file under `src/<dir>/` of the test configuration is in `dir`'s layer |
| FirewallExamples.AliasScan | rules/import-firewall.js:90-94 | the alias scan of the test configuration gives `@<dir>/...` the layer of `dir` |
| FirewallExamples.NoAlias | rules/import-firewall.js:90-94 | a specifier not beginning with `@` starts with no alias of the test configuration |
| FirewallExamples.AliasImport | rules/import-firewall.js:88-94 | `@<dir>/...` is not external and has `dir`'s layer |
| FirewallExamples.RelativeImport | rules/import-firewall.js:97-128 | a relative specifier is not external and takes the layer of the directory after `src` in its resolved stack |
| FirewallExamples.AliasCase | rules/import-firewall.js:152-194 | an aliased import is decided by the allow-list of the file's layer |
| FirewallExamples.RelativeCase | rules/import-firewall.js:152-194 | a relative import is decided by the allow-list of the file's layer, on the resolved layer |
| FirewallExamples.AppImportsApp | tests/import-firewall.test.js:48-52 | app may import app through `@app/` |
| FirewallExamples.AppImportsWidget | tests/import-firewall.test.js:53-57 | app may import widget |
| FirewallExamples.AppImportsFeature | tests/import-firewall.test.js:58-62 | app may import feature |
| FirewallExamples.AppImportsShared | tests/import-firewall.test.js:63-67 | app may import shared |
| FirewallExamples.WidgetImportsWidget | tests/import-firewall.test.js:69-73 | widget may import widget |
| FirewallExamples.WidgetImportsFeature | tests/import-firewall.test.js:74-78 | widget may import feature |
| FirewallExamples.WidgetImportsShared | tests/import-firewall.test.js:79-83 | widget may import shared |
| FirewallExamples.FeatureImportsFeature | tests/import-firewall.test.js:85-89 | feature may import feature |
| FirewallExamples.FeatureImportsShared | tests/import-firewall.test.js:90-94 | feature may import shared |
| FirewallExamples.SharedImportsShared | tests/import-firewall.test.js:96-100 | shared may import shared |
| FirewallExamples.SameDirectoryImport | tests/import-firewall.test.js:102-106 | `./component` from an app file stays in the app layer and passes |
| FirewallExamples.ParentDirectoryImport | tests/import-firewall.test.js:107-111 | `../app/other` from `app/components/` resolves into the app layer and passes |
| FirewallExamples.ReactIsExternal | tests/import-firewall.test.js:113-117 | `react` is external and passes |
| FirewallExamples.LodashIsExternal | tests/import-firewall.test.js:118-122 | `lodash` is external and passes |
| FirewallExamples.FeatureImportsSharedRelative | tests/import-firewall.test.js:124-128 | `../../shared/utils` from `features/auth/` reaches shared and passes |
| FirewallExamples.WidgetImportsSharedRelative | tests/import-firewall.test.js:129-133 | `../../../shared/utils` from `widgets/header/components/` reaches shared and passes |
| FirewallExamples.WidgetImportingAppReported | tests/import-firewall.test.js:137-152 | widget importing `@app/` is reported with `widget, feature, shared, node_modules` |
| FirewallExamples.FeatureImportingWidgetReported | tests/import-firewall.test.js:154-168 | feature importing widget is reported with `feature, shared, node_modules` |
| FirewallExamples.FeatureImportingAppReported | tests/import-firewall.test.js:169-183 | feature importing app is reported |
| FirewallExamples.SharedImportingAppReported | tests/import-firewall.test.js:185-199 | shared importing app is reported with `shared, node_modules` |
| FirewallExamples.SharedImportingWidgetReported | tests/import-firewall.test.js:200-214 | shared importing widget is reported |
| FirewallExamples.SharedImportingFeatureReported | tests/import-firewall.test.js:215-229 | shared importing feature is reported |
| FirewallExamples.WidgetImportingAppRelativeReported | tests/import-firewall.test.js:231-245 | `../../app/components` from a widget file is reported like the aliased import |
| FirewallExamples.FeatureImportingAppRelativeReported | tests/import-firewall.test.js:246-260 | `../../../app/components` from `features/auth/components/` resolves into app and is reported |
| FirewallExamples.BareDotsAreExternal | rules/import-firewall.js:141-150 | a bare `.` or `..` starts with neither `./` nor `../`, so it is external and passes |
| FirewallExamples.ScriptIsUnchecked | rules/import-firewall.js:155-160 | `/project/scripts/build.js` is in no layer, so none of its imports is reported |

## Left out

- The ESLint metadata and option schema (rules/import-firewall.js:14-52) are left out. They hold no decision logic.
- `context.options`, `context.getFilename()`, `node.source.value` and `context.report`: the
  configuration, the file name and the import source are parameters, and the report is the
  returned `Option<Diagnostic>`. The message template is not interpolated: the diagnostic holds its three data fields.
- The `srcDir` option (rules/import-firewall.js:57) is left out, because it is read but never used.
- The CommonJS/ES module export lines (rules/import-firewall.js:199-203), `index.js` (plugin registration) and `example-config.js` (configuration data) are not part of this model.
- JavaScript strings are sequences of UTF-16 code units; here a string is a sequence of Unicode
  scalar values. `includes`, `startsWith`, `split('/')` and the backslash replacement agree on both
  for well-formed text, but a path holding a lone surrogate cannot be represented.
- The regular expression `/\\/g` is modelled as a per-character map, which is what it denotes.
- A configuration whose fields are not strings, or whose allow-lists are not arrays, is not modelled. The option schema rejects both before the rule runs.
