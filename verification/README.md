# jenkins-js-builder core, modelled in Dafny

`index.js` of the Jenkins JavaScript build helper is a gulp plugin. A project's
`gulpfile.js` uses it to register *bundles* (`bundle(module, as)` plus chained
setters such as `inDir`, `inAdjunctPackage`, `asJenkinsModuleResource`,
`withTransforms`, `withExternalModuleMapping`, `less` and `export`). Its `bundle`
task then turns every registered descriptor into a browserify run. Each run has
an output directory, an optional less job, an entry file and a fixed order of
source transforms. Two of those transforms are the helper's own source rewrites.
The first rewrites `require('<from>')` calls according to the module mappings.
The second appends a `jenkins-js-modules` export call, and an `.import(...)`
wrapper when there are mappings, exactly once per pipeline. The file also
registers the gulp tasks (`defineTasks`/`defineTask`), holds the source and test
roots (`src`/`tests`), and builds the `rebundle` watch list.

The model keeps all of that as pure functions over immutable values:

- `Strings`: the underscore.string helpers the file calls, with that library's
  semantics. `strRightBack`/`strLeftBack` cut at the *last* occurrence of the
  separator, anywhere in the string. `ltrim`/`rtrim` treat their argument as a
  *set* of characters. `replaceAll` is modelled for one character.
- `Paths`: `normalizePath`, `packageToPath` and the two output base directories.
- `Errors`: the thrown values.
- `Bundles`: the descriptor record, `bundle(...)`, each setter as a function
  returning `Result<Bundle, Error>`, and a chain of setter calls.
- `Transforms`: the require-rewrite decision and the import/export injection,
  with its one-shot `applied` flag, kept as a function over `(applied, content)`.
- `BundleTask`: the per-descriptor plan of the `bundle` task, the task's loop,
  and the loop as written, with its shared index.
- `Tasks`: the gulp task map, `src`/`tests`, the test spec glob and the watch list.
- `Scenarios`: two worked registrations, from `bundle(...)` to the plan.

JavaScript truthiness is kept. An empty string is an unset field, so `inDir('./')`
stores `""` and the descriptor still has no destination. `bundleTransforms` is
an `Option` because an empty array is truthy.

## Model

| member | source | states |
|---|---|---|
| Strings.StrRightBack | index.js:135 | the result is a suffix of the input and holds no separator; when the separator occurs, separator + result is a suffix and no occurrence starts after that one (the cut is at the last separator); otherwise the whole input |
| Strings.StrLeftBack | index.js:136 | the result is a prefix, the separator occurs right after it and at no later index; with no occurrence anywhere the whole input is returned |
| Strings.TrimStart | index.js:117-118 | the result is a suffix of the input that does not start with a set character, and every character removed is in the set |
| Strings.TrimEnd | index.js:119 | the result is a prefix of the input that does not end with a set character, and every character removed is in the set |
| Strings.ReplaceChar | index.js:124 | same length; each position holds the replacement where the input had the pattern character and the input character elsewhere |
| Paths.NormalizePathSpec | index.js:116-122 | a normalised path never starts with '.' or '/' and never ends with '/'; it is the input with a leading run of '.'/'/' and a trailing run of '/' removed |
| Paths.NormalPathIff | index.js:116-122 | a path is left unchanged by normalising exactly when it is empty or starts with neither '.' nor '/' and does not end with '/' |
| Paths.NormalizePathIdempotent | index.js:116-122 | normalising twice equals normalising once |
| Paths.NormalizeDotSlash | index.js:117 | "./js" normalises to "js" |
| Paths.NormalizeParentDir | index.js:117 | the character-set trim also turns "../x" into "x" |
| Paths.NormalizeCurrentDir | index.js:116-122 | "./" normalises to the empty (unset) path |
| Paths.PackageToPath | index.js:123-125 | every '.' becomes '/', every other character is kept, the length is unchanged, and no '.' is left |
| Bundles.NewBundle | index.js:127-154 | an empty module throws; otherwise `js` is the text after the last '/', `module` is `js` cut before its last ".js", `as` is `module` or the alias cut before its last ".js", the output file is `as` + ".js", the descriptor starts unconfigured, and it is a dependency bundle exactly when the module string holds no '/' and no ".js" |
| Bundles.DependencyModuleIff | index.js:135-137 | `moduleToBundle === bundle.module` holds exactly when the string contains neither '/' nor ".js" |
| Bundles.InAdjunctPackage | index.js:155-164 | succeeds exactly for a non-empty package on a descriptor with no destination; then stores the package path and changes nothing else; otherwise throws the registration error |
| Bundles.InDir | index.js:165-174 | succeeds exactly for a non-empty dir on a descriptor with no destination; stores the normalised dir, which is a destination only when it is non-empty; nothing else changes |
| Bundles.AsJenkinsModuleResource | index.js:175-180 | succeeds exactly when no destination is set; then sets the Jenkins-module flag and changes nothing else |
| Bundles.WithTransforms | index.js:181-184 | never throws and replaces the transform list; nothing else changes |
| Bundles.WithExternalModuleMapping | index.js:185-204 | throws the mapping error exactly when `from` or `to` is empty; otherwise appends exactly one mapping after the existing ones, with the handlebars runtime as override only for ('handlebars', 'handlebars:handlebars3') without one |
| Bundles.Less | index.js:205-211 | stores the less source; the target directory changes only when a non-empty one is given; nothing else changes |
| Bundles.Export | index.js:212-215 | a non-empty id sets the export flag and the plugin id; an empty id changes nothing; no other field changes |
| Bundles.SecondDestinationFails | index.js:145-150 | once a destination is set, a call throws exactly when it is a destination call or a mapping without both names, and a call that succeeds keeps the destination |
| Bundles.Chain | index.js:155-231 | the not-chainable error needs an `export` call that is not last; a first call that throws ends the chain with that error and the descriptor untouched; with no inner `export`, the chain throws exactly when applying the calls one after another (`ApplyAll`) fails, with the same error, and otherwise leaves the descriptor `ApplyAll` computes; on failure the descriptor is the one the calls before the failing call built; a chain of successful non-destination calls throws nothing |
| Bundles.ChainStopsAfterExport | index.js:212-231 | `export` returns nothing, so when the calls up to the first `export` that is not last succeed, the chain ends with the not-chainable error and the descriptor those calls leave, the export's effect included |
| Bundles.SingleCall | index.js:155-231 | one call that succeeds leaves exactly the descriptor that call returns, and no error |
| Bundles.ChainKeepsDestination | index.js:145-150 | once a destination is set, no chain of calls changes it |
| Bundles.ChainKeepsAtMostOneDestination | index.js:145-180 | no chain of calls makes two destination fields truthy |
| Bundles.ChainExtendsMappings | index.js:197-201 | mappings are only appended: the earlier list is a prefix of the later one |
| Bundles.ChainKeepsNames | index.js:133-153 | no setter changes the module, file and output names fixed at registration |
| Bundles.Declare | index.js:127-236 | an empty module throws and registers nothing; otherwise exactly one descriptor is appended after the existing ones, even when a later call throws; the appended descriptor and the error are those of the chain of calls on the fresh descriptor; it keeps its registration names and has at most one destination; with no calls the fresh descriptor itself is appended |
| Bundles.DeclareOneCall | index.js:127-236 | `bundle(m, as).<call>` with a call that succeeds appends exactly that call's result and throws nothing |
| Errors.ThrownIdentifiesError | index.js:45-49 | two failures that throw the same value are the same failure: the unknown-task message determines the task name, and it differs from the literals thrown at lines 130, 187 and 280, which differ from each other |
| Transforms.RequireDecision | index.js:387-399 | no rewrite exactly when no mapping has `from` equal to the argument; otherwise the first such mapping decides the replacement |
| Transforms.RewriteRequire | index.js:389-399 | the source's loop over the mappings returns the first-match decision |
| Transforms.AppendedMappingDecides | index.js:389-397 | a mapping appended for a name no earlier mapping claims decides every `require` of that name |
| Transforms.ImportListEmptyIff | index.js:440 | the import list is empty exactly when there are no mappings |
| Transforms.BuildImports | index.js:408-415 | the loop that adds ", " before every name but the first builds the joined import list, empty exactly when there are no mappings |
| Transforms.Inject | index.js:417-453 | with no mappings the content comes first; with mappings the result opens with the `.import(...)` header of every mapped name and ends with the closing of `onFulfilled`; the export call (and the CSS call when due) follows the content |
| Transforms.InjectRoundTrip | index.js:432-453 | the injected text holds the original content verbatim: unwrapping it gives the content back |
| Transforms.Step | index.js:405-459 | the flag is set after every call; an applied flag returns the content unchanged; otherwise the result unwraps to the content |
| Transforms.RunAfterApplied | index.js:457-459 | once applied, the transform passes every content through unchanged |
| Transforms.InjectedOnlyOnce | index.js:403-460 | over one pipeline run only the first content is injected; all later ones pass unchanged |
| BundleTask.EntryTextRoundTrip | index.js:322 | the synthesised entry file re-exports exactly the named module |
| BundleTask.PipelineTransforms | index.js:332-341 | hbsfy first, then the user transforms in order, then the require rewrite exactly when there are mappings, then the import/export injection last |
| BundleTask.PlanBundle | index.js:287-341 | fails exactly when no destination is set; the output directory is the assets base for a Jenkins module, else the `inDir` directory, else the adjunct base + "/" + package path; the less job exists exactly when a less source is set, targeting `bundleTo/as`, `lessTargetDir` or `bundleTo`; a dependency bundle gets a synthesised entry under `target/` |
| BundleTask.DestinationCallDecidesOutputDir | index.js:292-299 | the output directory follows from the one destination call that set it; `inDir` with a path that normalises to "" makes the task fail |
| BundleTask.LaterCallsKeepOutputDir | index.js:292-299 | calls made after the destination is set never move the output directory |
| BundleTask.RunBundleTask | index.js:278-290 | the task succeeds exactly for a non-empty list whose descriptors all have a destination; it plans every descriptor in order, and on failure the first descriptor without a destination is the one reached: exactly the descriptors before it are planned |
| BundleTask.VisitsAsWritten | index.js:284-340 | every index the loop as written visits is in range, and the first visit is the starting index |
| BundleTask.VisitsInOrderWithoutTransforms | index.js:284-340 | when no descriptor from the start index on has a transform list, the loop as written visits the descriptors one by one, in order, up to and including the first one without a destination |
| BundleTask.AllVisitedWithoutTransforms | index.js:284-340 | with every descriptor having a destination and no transform list, the loop as written visits every descriptor exactly once, in order, as `RunBundleTask` plans them |
| BundleTask.SharedIndexSkipsBundle | index.js:284-340 | with one user transform on the first of three bundles, the loop as written visits bundles 0 and 2 only |
| BundleTask.SharedIndexRepeatsBundle | index.js:284-340 | a second bundle with an empty transform list is visited again on every iteration |
| Tasks.DefineTask | index.js:63-71 | `test` registers its function as `appTest` and `test` as ['bundle', 'appTest']; any other name is registered as given; every other entry is kept |
| Tasks.DefineEach | index.js:43-55 | the first unknown name throws; without one, every requested name is defined; names are only added (`appTest` only when `test` is requested), and every other definition keeps its value; when nothing throws, the names are exactly the earlier ones plus the requested ones, `appTest` is the `test` action and every other requested name is bound to its own action |
| Tasks.DefaultNames | index.js:52-54 | exactly the requested names that are jshint, test or bundle |
| Tasks.DefaultNamesOne | index.js:52-54 | one name goes into `default` exactly when it is jshint, test or bundle |
| Tasks.DefaultNamesAppend | index.js:52-54 | the names for a concatenated request are those of each part, in request order |
| Tasks.DefineTasks | index.js:36-61 | no names means ['test']; throws exactly when some name is not a helper task, naming the first such name; otherwise `test` is the composite task, `appTest` is the `test` action, every other requested name is bound to its own action, `default` lists the requested lint/test/bundle names when there are any, the defined names are exactly the earlier ones plus these, and every other definition is kept; an existing `default` that is not requested survives a call that throws or adds no `default` |
| Tasks.TestStaysComposite | index.js:43-55 | defining further known names after `test` never turns `test` back into a plain action |
| Tasks.InheritedNameIsNotRejected | index.js:45-49 | the lookup as written lets 'toString' through and defines it, where the intended lookup throws |
| Tasks.LoadTimeTasks | index.js:506 | the definitions made at load time, including `default` = ['jshint', 'test', 'bundle'] |
| Tasks.Src | index.js:73-85 | a falsy argument keeps the roots; a string or array replaces them with the normalised paths in order; another truthy value clears them; the test root never changes; new roots are already normal |
| Tasks.NormalizeAll | index.js:78-82 | the array form of `src` pushes the normalised form of each path, keeping length and order, and every result is already normal |
| Tasks.Tests | index.js:87-92 | a non-empty path replaces the test root with its normalised (already normal) form; the source roots never change |
| Tasks.CurrentDirTestRootRunsNoTests | index.js:250-253 | `tests('./')` leaves the test root unset, so the test task finds no specs to run |
| Tasks.RebundleWatchList | index.js:348-354 | the watch list is './index.js' followed by `<root>/**/*.*` for each source root, in order |
| Scenarios.AppFile | index.js:135 | the text after the last '/' of 'my/app.js' is 'app.js' |
| Scenarios.AppName | index.js:136 | 'app.js' cut before its last ".js" is 'app' |
| Scenarios.AppBundle | index.js:135-153 | `bundle('my/app.js')` gives js 'app.js', module and output name 'app', not a dependency bundle |
| Scenarios.JsonModuleName | index.js:136 | the ".js" cut of 'foo.json' gives 'foo' |
| Scenarios.OutIsNormal | index.js:116-122 | 'out' is already normal, so `inDir('out')` stores it as given |
| Scenarios.AppDeclared | index.js:127-174 | `bundle('my/app.js').inDir(dir)` with a non-empty directory that starts with neither '.' nor '/' and does not end with '/' registers one descriptor, the registered 'app' bundle placed in `dir`, and throws nothing |
| Scenarios.AppPlan | index.js:292-341 | that descriptor is built from its own file into 'out' with hbsfy and the injection only |
| Scenarios.AppExport | index.js:417-433 | its content is followed by `export(undefined, 'app', {})` |
| Scenarios.JqueryBundle | index.js:135-137 | `bundle('jquery')` is a dependency bundle named 'jquery' |
| Scenarios.WidgetsPath | index.js:123-125 | 'acme.ui' becomes the path 'acme/ui' |
| Scenarios.JqueryDeclared | index.js:127-164 | `bundle('jquery').inAdjunctPackage('acme.ui')` registers exactly the 'jquery' dependency bundle with the package path 'acme/ui', and throws nothing |
| Scenarios.JqueryPlan | index.js:298-322 | that descriptor is built from the synthesised 'target/jquery.js' into the adjunct base + '/acme/ui' |

## Left out

- Running browserify, hbsfy, gulp streams and `gulp.dest`: foreign libraries. The plan passed to them is modelled. User transforms are identified by name.
- Finding `require(...)` calls in JavaScript source: done by browserify-transform-tools. Only the decision for one evaluated argument is modelled.
- Filesystem effects (`existsSync`, `mkdirSync`, `writeFileSync`) and the less compilation: only the computed paths and the entry-file text are kept.
- The Maven branch of `export` (index.js:216-227): it reads pom.xml and parses it in a callback. `Bundles.Export` models an empty id as the non-Maven branch, which only logs.
- The load-time Maven detection (index.js:13-29): `Tasks.InitialSession` takes it as a parameter.
- The jasmine test run, the test web server and the `testing_completed` event (index.js:249-276, 472-503). Only the spec glob (`Tasks.TestSpecs`) and the "no test root" case are modelled.
- jshint, `gulp.watch` execution, `onTaskStart`/`onTaskEnd`, and all logging and colours.
- The text of the engine's TypeError for a call on `export`'s `undefined` result. `Errors.NotChainable` stands for it.
- BundleTask.VisitsAsWritten: takes a fuel bound on the number of visits, because the loop as written need not terminate (see `BundleTask.SharedIndexRepeatsBundle`).
- Tasks.DefineEach: the exact bindings and key set are stated only when the lookup does not find `appTest` itself. Both lookups modelled meet this: the helper's own tasks and the inherited-name lookup.

Two behaviours are kept as the code has them:

- `withTransforms` replaces the descriptor's transform list; it does not extend it (index.js:181-184).
- The import/export injection applies to the first content the string transform sees in a pipeline run, and every later content passes unchanged (index.js:403-460).

## Findings

| source | as written | input that shows it | evidently intended | confidence | as-written member | corrected member |
|---|---|---|---|---|---|---|
| index.js:284-340 | the outer loop over bundles and the inner loop over user transforms share one function-scoped `var i` | three bundles with destinations, the first with `withTransforms([t])`: the task builds bundles 0 and 2 and never builds bundle 1 (an empty list on bundle 1 makes the loop revisit it forever) | each loop has its own index, so every registered bundle is built once, in order | not executed | BundleTask.SharedIndexSkipsBundle | BundleTask.RunBundleTask |
| index.js:45-49 | the task is looked up as `tasks[taskname]` on a plain object literal | `defineTasks(['toString'])` finds `Object.prototype.toString`, throws nothing and defines a gulp task 'toString' | only the helper's own tasks (test, bundle, rebundle, jshint) are found, and any other name throws "Unknown gulp task" | not executed | Tasks.InheritedNameIsNotRejected | Tasks.DefineTasks |
