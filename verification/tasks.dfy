/** Task registry glue: `defineTasks`/`defineTask` as map building over gulp task
    names, the `src`/`tests` path setters, the `rebundle` watch list and the test
    task's spec glob. gulp itself is represented by the map of definitions. */
module Tasks {
  import opened Wrappers
  import opened Errors
  import opened Paths

  /** A gulp task definition: an action (named by the task function it runs) or
      a list of tasks to run. */
  datatype GulpTask = Action(fn: string) | DependsOn(deps: seq<string>)

  type Registry = map<string, GulpTask>

  /** The task functions the helper defines. */
  const BuiltinTasks: set<string> := {"test", "bundle", "rebundle", "jshint"}

  /** The tasks that go into the `default` task when requested. */
  const DefaultCandidates: set<string> := {"jshint", "test", "bundle"}

  /** The properties every JavaScript object literal inherits from Object.prototype. */
  const InheritedNames: set<string> := {
    "constructor", "hasOwnProperty", "isPrototypeOf", "propertyIsEnumerable",
    "toLocaleString", "toString", "valueOf", "__proto__",
    "__defineGetter__", "__defineSetter__", "__lookupGetter__", "__lookupSetter__"
  }

  /** `defineTask(name, fn)`: `test` is registered as `appTest`, and `test` becomes
      a task that runs `bundle` and then `appTest`; any other name is registered
      as it is. No other entry changes. */
  function DefineTask(reg: Registry, name: string, fn: string): (r: Registry)
    ensures name == "test" ==>
      && r.Keys == reg.Keys + {"appTest", "test"}
      && r["appTest"] == Action(fn) && r["test"] == DependsOn(["bundle", "appTest"])
    ensures name != "test" ==> r.Keys == reg.Keys + {name} && r[name] == Action(fn)
    ensures forall n :: n in reg && n != name && (name == "test" ==> n != "appTest") ==> r[n] == reg[n]
  {
    if name == "test" then reg["appTest" := Action(fn)]["test" := DependsOn(["bundle", "appTest"])]
    else reg[name := Action(fn)]
  }

  /** The registry after a run of `defineTasks`, and the error that ended it. */
  datatype DefineOutcome = DefineOutcome(registry: Registry, error: Option<Error>)

  /** `k` is the first name of `names` that `known` does not hold. */
  predicate IsFirstUnknown(known: set<string>, names: seq<string>, k: int) {
    0 <= k < |names| && names[k] !in known && forall j :: 0 <= j < k ==> names[j] in known
  }

  /** The source's loop over the requested names: each known name is defined in
      turn; the first unknown one throws, leaving the earlier definitions in place. */
  function DefineEach(known: set<string>, reg: Registry, names: seq<string>): (r: DefineOutcome)
    ensures r.error.None? <==> forall i :: 0 <= i < |names| ==> names[i] in known
    ensures r.error.Some? ==> exists k :: IsFirstUnknown(known, names, k) && r.error.value == UnknownTask(names[k])
    ensures forall i :: 0 <= i < |names| && (forall j :: 0 <= j <= i ==> names[j] in known) ==> names[i] in r.registry
    ensures Framed(reg, names, r.registry)
    ensures "appTest" !in known && r.error.None? ==> DefinesAll(reg, names, r.registry)
    decreases |names|
  {
    if |names| == 0 then DefineOutcome(reg, None)
    else if names[0] !in known then
      assert IsFirstUnknown(known, names, 0);
      DefineOutcome(reg, Some(UnknownTask(names[0])))
    else
      var reg' := DefineTask(reg, names[0], names[0]);
      var r := DefineEach(known, reg', names[1..]);
      FramedStep(reg, names, r.registry);
      DefinesAllStep(known, reg, names, r);
      ErrorStep(known, reg, names, r);
      r
  }

  /** The error and the defined prefix of a run after a known first name. */
  lemma ErrorStep(known: set<string>, reg: Registry, names: seq<string>, r: DefineOutcome)
    requires |names| > 0 && names[0] in known
    requires var rest := names[1..];
      && (r.error.None? <==> forall i :: 0 <= i < |rest| ==> rest[i] in known)
      && (r.error.Some? ==> exists k :: IsFirstUnknown(known, rest, k) && r.error.value == UnknownTask(rest[k]))
      && (forall i :: 0 <= i < |rest| && (forall j :: 0 <= j <= i ==> rest[j] in known) ==> rest[i] in r.registry)
    requires names[0] in DefineTask(reg, names[0], names[0])
    requires Framed(DefineTask(reg, names[0], names[0]), names[1..], r.registry)
    ensures r.error.None? <==> forall i :: 0 <= i < |names| ==> names[i] in known
    ensures r.error.Some? ==> exists k :: IsFirstUnknown(known, names, k) && r.error.value == UnknownTask(names[k])
    ensures forall i :: 0 <= i < |names| && (forall j :: 0 <= j <= i ==> names[j] in known) ==> names[i] in r.registry
  {
    var rest := names[1..];
    assert forall i :: 0 < i < |names| ==> names[i] == rest[i - 1];
    if r.error.Some? {
      var k :| IsFirstUnknown(known, rest, k) && r.error.value == UnknownTask(rest[k]);
      assert IsFirstUnknown(known, names, k + 1);
    }
    forall i | 0 <= i < |names| && (forall j :: 0 <= j <= i ==> names[j] in known) ensures names[i] in r.registry {
      if i > 0 {
        assert forall j :: 0 <= j <= i - 1 ==> rest[j] in known by {
          forall j | 0 <= j <= i - 1 ensures rest[j] in known { assert rest[j] == names[j + 1]; }
        }
      }
    }
  }

  /** The names `defineTask` may write when defining `names`. */
  function Written(names: seq<string>): set<string> {
    (set n | n in names) + (if "test" in names then {"appTest"} else {})
  }

  /** Only the names defined, and `appTest` when `test` is one of them, may
      change: every other entry is kept. */
  predicate Framed(reg: Registry, names: seq<string>, r: Registry) {
    && reg.Keys <= r.Keys <= reg.Keys + Written(names)
    && forall n :: n in reg && n !in Written(names) ==> r[n] == reg[n]
  }

  /** Every name in `names` is defined as its own task, `test` by its
      `appTest` pair, and nothing else is added. */
  predicate DefinesAll(reg: Registry, names: seq<string>, r: Registry) {
    && r.Keys == reg.Keys + Written(names)
    && ("test" in names ==> r["appTest"] == Action("test"))
    && (forall n :: n in names && n != "test" ==> r[n] == Action(n))
  }

  lemma FramedStep(reg: Registry, names: seq<string>, r: Registry)
    requires |names| > 0
    requires Framed(DefineTask(reg, names[0], names[0]), names[1..], r)
    ensures Framed(reg, names, r)
  {
    assert Written(names) == {names[0]} + Written(names[1..]) + (if names[0] == "test" then {"appTest"} else {});
  }

  lemma DefinesAllStep(known: set<string>, reg: Registry, names: seq<string>, r: DefineOutcome)
    requires |names| > 0 && names[0] in known
    requires r.error.None? <==> forall i :: 0 <= i < |names[1..]| ==> names[1..][i] in known
    requires Framed(DefineTask(reg, names[0], names[0]), names[1..], r.registry)
    requires "appTest" !in known && r.error.None? ==> DefinesAll(DefineTask(reg, names[0], names[0]), names[1..], r.registry)
    ensures "appTest" !in known && r.error.None? ==> DefinesAll(reg, names, r.registry)
  {
    if "appTest" !in known && r.error.None? {
      assert forall i :: 0 <= i < |names| ==> names[i] in known by {
        forall i | 0 <= i < |names| ensures names[i] in known {
          if i > 0 { assert names[i] == names[1..][i - 1]; }
        }
      }
      assert "appTest" !in names;
      assert Written(names) == {names[0]} + Written(names[1..]) + (if names[0] == "test" then {"appTest"} else {});
    }
  }

  /** The requested names that also go into `default`, in the order given. */
  function DefaultNames(names: seq<string>): (r: seq<string>)
    ensures |r| <= |names|
    ensures forall x :: x in r <==> x in names && x in DefaultCandidates
    decreases |names|
  {
    if |names| == 0 then []
    else if names[0] in DefaultCandidates then [names[0]] + DefaultNames(names[1..])
    else DefaultNames(names[1..])
  }

  /** One name goes into `default` exactly when it is a lint, test or bundle task. */
  lemma DefaultNamesOne(x: string)
    ensures DefaultNames([x]) == if x in DefaultCandidates then [x] else []
  {
    assert [x][1..] == [];
  }

  /** The names of a concatenation are those of each part, in order; with
      `DefaultNamesOne` this fixes the order and the repetitions of the result. */
  lemma {:induction false} DefaultNamesAppend(xs: seq<string>, ys: seq<string>)
    ensures DefaultNames(xs + ys) == DefaultNames(xs) + DefaultNames(ys)
    decreases |xs|
  {
    if |xs| > 0 {
      assert (xs + ys)[0] == xs[0];
      assert (xs + ys)[1..] == xs[1..] + ys;
      DefaultNamesAppend(xs[1..], ys);
    } else {
      assert xs + ys == ys;
    }
  }

  /** `defineTasks(tasknames)` over a task table whose lookup finds `known`:
      no names means `['test']`; after every name is defined, `default` runs the
      requested lint, test and bundle tasks when there are any. */
  function DefineTasksOver(known: set<string>, reg: Registry, tasknames: Option<seq<string>>): DefineOutcome {
    var names := if tasknames.None? then ["test"] else tasknames.value;
    var o := DefineEach(known, reg, names);
    if o.error.Some? then o
    else
      var defaults := DefaultNames(names);
      if |defaults| > 0 then DefineOutcome(o.registry["default" := DependsOn(defaults)], None)
      else o
  }

  /** `defineTasks` with the intended lookup: only the helper's own tasks are found. */
  function DefineTasks(reg: Registry, tasknames: Option<seq<string>>): (r: DefineOutcome)
    ensures var names := if tasknames.None? then ["test"] else tasknames.value;
      && (r.error.None? <==> forall i :: 0 <= i < |names| ==> names[i] in BuiltinTasks)
      && (r.error.Some? ==> exists k :: IsFirstUnknown(BuiltinTasks, names, k) && r.error.value == UnknownTask(names[k]))
      && (r.error.None? ==> forall i :: 0 <= i < |names| ==> names[i] in r.registry)
      && (r.error.None? && "test" in names ==> r.registry["test"] == DependsOn(["bundle", "appTest"]))
      && (r.error.None? && |DefaultNames(names)| > 0 ==> "default" in r.registry && r.registry["default"] == DependsOn(DefaultNames(names)))
      && (r.error.None? && "test" in names ==> "appTest" in r.registry && r.registry["appTest"] == Action("test"))
      && (r.error.None? ==> forall n :: n in names && n != "test" ==> n in r.registry && r.registry[n] == Action(n))
      && (r.error.None? ==>
            r.registry.Keys == reg.Keys + Written(names) + (if |DefaultNames(names)| > 0 then {"default"} else {}))
      && (forall n :: n in reg && n !in Written(names) && n != "default" ==> n in r.registry && r.registry[n] == reg[n])
      && ("default" in reg && "default" !in names && (r.error.Some? || |DefaultNames(names)| == 0) ==>
            "default" in r.registry && r.registry["default"] == reg["default"])
  {
    var names := if tasknames.None? then ["test"] else tasknames.value;
    TestDefinedAsComposite(reg, names);
    var o := DefineEach(BuiltinTasks, reg, names);
    assert "appTest" !in BuiltinTasks && "default" !in BuiltinTasks;
    DefaultAdded(reg, names, o.registry, DefaultNames(names), o.error.None?);
    DefineTasksOver(BuiltinTasks, reg, tasknames)
  }

  /** Adding `default` after a complete run keeps every definition the run made. */
  lemma DefaultAdded(reg: Registry, names: seq<string>, o: Registry, defaults: seq<string>, complete: bool)
    requires Framed(reg, names, o)
    requires complete ==> DefinesAll(reg, names, o) && "default" !in names
    ensures var r := if complete && |defaults| > 0 then o["default" := DependsOn(defaults)] else o;
      && (complete && "test" in names ==> "appTest" in r && r["appTest"] == Action("test"))
      && (complete ==> forall n :: n in names && n != "test" ==> n in r && r[n] == Action(n))
      && (complete ==> r.Keys == reg.Keys + Written(names) + (if |defaults| > 0 then {"default"} else {}))
      && (forall n :: n in reg && n !in Written(names) && n != "default" ==> n in r && r[n] == reg[n])
      && ("default" in reg && "default" !in names && !(complete && |defaults| > 0) ==>
            "default" in r && r["default"] == reg["default"])
  {
    assert "default" !in names ==> "default" !in Written(names);
  }

  lemma TestDefinedAsComposite(reg: Registry, names: seq<string>)
    ensures var o := DefineEach(BuiltinTasks, reg, names);
      o.error.None? && "test" in names ==> o.registry["test"] == DependsOn(["bundle", "appTest"])
  {
    var o := DefineEach(BuiltinTasks, reg, names);
    if o.error.None? && "test" in names {
      TestStaysComposite(reg, names);
    }
  }

  /** Defining known names after `test` never redefines `test` as a plain action. */
  lemma {:induction false} TestStaysComposite(reg: Registry, names: seq<string>)
    requires forall i :: 0 <= i < |names| ==> names[i] in BuiltinTasks
    requires "test" in names || ("test" in reg && reg["test"] == DependsOn(["bundle", "appTest"]))
    ensures DefineEach(BuiltinTasks, reg, names).registry["test"] == DependsOn(["bundle", "appTest"])
    decreases |names|
  {
    if |names| > 0 {
      var reg' := DefineTask(reg, names[0], names[0]);
      if names[0] != "test" {
        assert "test" in names[1..] || "test" in reg;
      }
      TestStaysComposite(reg', names[1..]);
    }
  }

  /** `defineTasks` as written: `tasks[taskname]` also finds every name inherited
      from Object.prototype. */
  function DefineTasksAsWritten(reg: Registry, tasknames: Option<seq<string>>): DefineOutcome {
    DefineTasksOver(BuiltinTasks + InheritedNames, reg, tasknames)
  }

  /** An inherited property name passes the source's lookup and is defined as a
      gulp task, where the intended lookup throws. */
  lemma InheritedNameIsNotRejected(reg: Registry)
    ensures DefineTasksAsWritten(reg, Some(["toString"])).error.None?
    ensures "toString" in DefineTasksAsWritten(reg, Some(["toString"])).registry
    ensures DefineTasks(reg, Some(["toString"])).error == Some(UnknownTask("toString"))
  {
    assert "toString" in BuiltinTasks + InheritedNames;
    assert DefaultNames(["toString"]) == [];
  }

  /** The definitions made when the helper is loaded. */
  lemma LoadTimeTasks()
    ensures DefineTasks(map[], Some(["jshint", "test", "bundle", "rebundle"])) ==
      DefineOutcome(map[
        "jshint" := Action("jshint"),
        "appTest" := Action("test"),
        "test" := DependsOn(["bundle", "appTest"]),
        "bundle" := Action("bundle"),
        "rebundle" := Action("rebundle"),
        "default" := DependsOn(["jshint", "test", "bundle"])], None)
  {
    var names := ["jshint", "test", "bundle", "rebundle"];
    assert names[1..] == ["test", "bundle", "rebundle"];
    assert names[1..][1..] == ["bundle", "rebundle"];
    assert names[1..][1..][1..] == ["rebundle"];
    assert DefaultNames(["rebundle"]) == [];
    assert DefaultNames(["bundle", "rebundle"]) == ["bundle"];
    assert DefaultNames(names) == ["jshint", "test", "bundle"];
  }

  /** Source roots and test root, as `src()` and `tests()` return them. */
  datatype Session = Session(srcPaths: seq<string>, testSrcPath: string)

  /** The roots chosen at load time, with or without a Maven project descriptor. */
  function InitialSession(isMavenBuild: bool): Session {
    if isMavenBuild then Session(["src/main/js", "src/main/less"], "src/test/js")
    else Session(["./js", "./less"], "./spec")
  }

  /** The argument of `src(paths)`: absent (or another falsy value), a string, an
      array of strings, or some other truthy value. */
  datatype PathsArg = NoPaths | OnePath(path: string) | PathList(paths: seq<string>) | OtherValue

  /** `src(paths)`: a truthy argument replaces the source roots with its
      normalised paths (none when it is neither a string nor an array); a falsy
      one keeps them. */
  function Src(s: Session, arg: PathsArg): (r: Session)
    ensures r.testSrcPath == s.testSrcPath
    ensures arg.NoPaths? || arg == OnePath("") ==> r == s
    ensures arg.OnePath? && arg.path != "" ==> r.srcPaths == [NormalizePath(arg.path)]
    ensures arg.PathList? ==>
      |r.srcPaths| == |arg.paths| && forall i :: 0 <= i < |arg.paths| ==> r.srcPaths[i] == NormalizePath(arg.paths[i])
    ensures arg.OtherValue? ==> r.srcPaths == []
    ensures r != s ==> forall i :: 0 <= i < |r.srcPaths| ==> NormalizePath(r.srcPaths[i]) == r.srcPaths[i]
  {
    match arg
    case NoPaths => s
    case OnePath(p) =>
      if p == "" then s
      else
        NormalizePathIdempotent(p);
        s.(srcPaths := [NormalizePath(p)])
    case PathList(ps) => s.(srcPaths := NormalizeAll(ps))
    case OtherValue => s.(srcPaths := [])
  }

  /** Every path of `ps` normalised, in order; each result is already normal. */
  function NormalizeAll(ps: seq<string>): (r: seq<string>)
    ensures |r| == |ps|
    ensures forall i :: 0 <= i < |ps| ==> r[i] == NormalizePath(ps[i])
    ensures forall i :: 0 <= i < |r| ==> NormalizePath(r[i]) == r[i]
  {
    var r := seq(|ps|, i requires 0 <= i < |ps| => NormalizePath(ps[i]));
    forall i | 0 <= i < |ps| ensures NormalizePath(r[i]) == r[i] {
      NormalizePathIdempotent(ps[i]);
    }
    r
  }

  /** `tests(path)`: a non-empty path replaces the test root with its normalised form. */
  function Tests(s: Session, path: string): (r: Session)
    ensures r.srcPaths == s.srcPaths
    ensures path == "" ==> r == s
    ensures path != "" ==> r.testSrcPath == NormalizePath(path)
    ensures path != "" ==> NormalizePath(r.testSrcPath) == r.testSrcPath
  {
    if path == "" then s
    else
      NormalizePathIdempotent(path);
      s.(testSrcPath := NormalizePath(path))
  }

  /** The glob of spec files the test task runs; none (only a warning) when the
      test root is unset. */
  function TestSpecs(testSrcPath: string): Option<string> {
    if testSrcPath == "" then None else Some(testSrcPath + "/**/*-spec.js")
  }

  /** Setting the test root to "./" leaves it empty, so the test task runs nothing. */
  lemma CurrentDirTestRootRunsNoTests(s: Session)
    ensures TestSpecs(Tests(s, "./").testSrcPath) == None
  {
    NormalizeCurrentDir();
  }

  /** The glob watched under one source root. */
  function WatchGlob(srcPath: string): string {
    srcPath + "/**/*.*"
  }

  /** The `rebundle` watch list: the build script, then every file under each
      source root, in order. */
  method RebundleWatchList(srcPaths: seq<string>) returns (watch: seq<string>)
    ensures |watch| == |srcPaths| + 1 && watch[0] == "./index.js"
    ensures forall i :: 0 <= i < |srcPaths| ==> watch[i + 1] == WatchGlob(srcPaths[i])
  {
    watch := ["./index.js"];
    var i := 0;
    while i < |srcPaths|
      invariant 0 <= i <= |srcPaths|
      invariant |watch| == i + 1 && watch[0] == "./index.js"
      invariant forall j :: 0 <= j < i ==> watch[j + 1] == WatchGlob(srcPaths[j])
    {
      watch := watch + [WatchGlob(srcPaths[i])];
      i := i + 1;
    }
  }
}
