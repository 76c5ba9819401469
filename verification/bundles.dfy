/** The bundle descriptor that `bundle(moduleToBundle, as)` creates and its
    chainable setters. JavaScript truthiness is kept: an empty string is an unset
    field, so a destination directory that normalises to "" still counts as unset. */
module Bundles {
  import opened Wrappers
  import opened Strings
  import opened Paths
  import opened Errors

  /** One `withExternalModuleMapping` entry; an empty `require` is no override. */
  datatype Mapping = Mapping(from: string, to: string, require: string)

  /** The descriptor object. `moduleName` and `asName` are the source's `module`
      and `as` fields; user transforms are identified by name, and
      `bundleTransforms` is `None` until `withTransforms` stores a list (an empty
      list is still truthy in JavaScript). */
  datatype Bundle = Bundle(
    bundleModule: string,
    js: string,
    moduleName: string,
    asName: string,
    bundleOutputFile: string,
    bundleDependencyModule: bool,
    bundleToAdjunctPackageDir: string,
    bundleInDir: string,
    bundleAsJenkinsModule: bool,
    bundleTransforms: Option<seq<string>>,
    moduleMappings: seq<Mapping>,
    lessSrcPath: string,
    lessTargetDir: string,
    bundleExport: bool,
    bundleExportPlugin: string)

  /** The runtime substituted for the handlebars mapping when no override is given. */
  const HandlebarsRuntimeShim: string := "jenkins-handlebars-rt/runtimes/handlebars3_rt"

  /** Some destination field is truthy: the bundle task can place this bundle. */
  predicate HasDestination(b: Bundle) {
    b.bundleToAdjunctPackageDir != "" || b.bundleAsJenkinsModule || b.bundleInDir != ""
  }

  /** No two destination fields are truthy at once. */
  predicate AtMostOneDestination(b: Bundle) {
    && !(b.bundleToAdjunctPackageDir != "" && b.bundleAsJenkinsModule)
    && !(b.bundleToAdjunctPackageDir != "" && b.bundleInDir != "")
    && !(b.bundleAsJenkinsModule && b.bundleInDir != "")
  }

  predicate SameDestination(a: Bundle, b: Bundle) {
    && a.bundleToAdjunctPackageDir == b.bundleToAdjunctPackageDir
    && a.bundleInDir == b.bundleInDir
    && a.bundleAsJenkinsModule == b.bundleAsJenkinsModule
  }

  /** `b` is `a` with at most its destination fields changed. */
  predicate SameExceptDestination(a: Bundle, b: Bundle) {
    a.(bundleToAdjunctPackageDir := b.bundleToAdjunctPackageDir,
       bundleInDir := b.bundleInDir,
       bundleAsJenkinsModule := b.bundleAsJenkinsModule) == b
  }

  /** A descriptor as registration leaves it: nothing configured yet. */
  predicate Unconfigured(b: Bundle) {
    && !HasDestination(b)
    && b.bundleTransforms == None
    && b.moduleMappings == []
    && b.lessSrcPath == "" && b.lessTargetDir == ""
    && !b.bundleExport && b.bundleExportPlugin == ""
  }

  /** The module name is the whole registered string exactly when that string has
      no '/' and no ".js" anywhere in it. */
  lemma DependencyModuleIff(m: string)
    ensures StrLeftBack(StrRightBack(m, "/"), ".js") == m <==> !Occurs(m, "/") && !Occurs(m, ".js")
  {
    var js := StrRightBack(m, "/");
    var name := StrLeftBack(js, ".js");
    if Occurs(m, "/") {
      assert |js| < |m|;
    } else if Occurs(m, ".js") {
      assert js == m;
      assert |name| + 3 <= |m|;
    }
  }

  /** A string without `sep` has no `sep` in any prefix. */
  lemma NoOccurrenceInPrefix(s: string, sep: string, p: string)
    requires IsPrefix(p, s) && !Occurs(s, sep)
    ensures !Occurs(p, sep)
  {
    forall j | 0 <= j <= |p| && IsAt(p, sep, j) ensures false {
      assert p == s[..|p|];
      OccursInPrefix(s, sep, |p|, j);
    }
  }

  /** `bundle(moduleToBundle, as)`: an empty module throws; otherwise the names are
      derived from the last path segment with the last ".js" cut off, and the
      bundle is a dependency bundle when the module string is a bare name. */
  function NewBundle(moduleToBundle: string, alias: string): (r: Result<Bundle, Error>)
    ensures r.Err? <==> moduleToBundle == ""
    ensures r.Err? ==> r.error == RegistrationFailed
    ensures r.Ok? ==> Unconfigured(r.value) && r.value.bundleModule == moduleToBundle
    ensures r.Ok? ==> IsSuffix(r.value.js, moduleToBundle) && !Occurs(r.value.js, "/")
    ensures r.Ok? ==> (Occurs(moduleToBundle, "/") ==> IsSuffix("/" + r.value.js, moduleToBundle))
    ensures r.Ok? ==> (!Occurs(moduleToBundle, "/") ==> r.value.js == moduleToBundle)
    ensures r.Ok? ==> IsPrefix(r.value.moduleName, r.value.js) && !Occurs(r.value.moduleName, "/")
    ensures r.Ok? ==> (Occurs(r.value.js, ".js") ==>
      IsAt(r.value.js, ".js", |r.value.moduleName|) && forall i :: |r.value.moduleName| < i ==> !IsAt(r.value.js, ".js", i))
    ensures r.Ok? ==> (!Occurs(r.value.js, ".js") ==> r.value.moduleName == r.value.js)
    ensures r.Ok? ==> (alias == "" ==> r.value.asName == r.value.moduleName)
    ensures r.Ok? ==> (alias != "" ==> IsPrefix(r.value.asName, alias) && (!Occurs(alias, ".js") ==> r.value.asName == alias))
    ensures r.Ok? ==> (alias != "" && Occurs(alias, ".js") ==>
      IsAt(alias, ".js", |r.value.asName|) && forall i :: |r.value.asName| < i ==> !IsAt(alias, ".js", i))
    ensures r.Ok? ==> r.value.bundleOutputFile == r.value.asName + ".js"
    ensures r.Ok? ==>
      (r.value.bundleDependencyModule <==> !Occurs(moduleToBundle, "/") && !Occurs(moduleToBundle, ".js"))
  {
    if moduleToBundle == "" then Err(RegistrationFailed)
    else
      var js := StrRightBack(moduleToBundle, "/");
      var moduleName := StrLeftBack(js, ".js");
      var asName := if alias == "" then moduleName else StrLeftBack(alias, ".js");
      DependencyModuleIff(moduleToBundle);
      NoOccurrenceInPrefix(js, "/", moduleName);
      Ok(Bundle(
        bundleModule := moduleToBundle,
        js := js,
        moduleName := moduleName,
        asName := asName,
        bundleOutputFile := asName + ".js",
        bundleDependencyModule := moduleToBundle == moduleName,
        bundleToAdjunctPackageDir := "",
        bundleInDir := "",
        bundleAsJenkinsModule := false,
        bundleTransforms := None,
        moduleMappings := [],
        lessSrcPath := "",
        lessTargetDir := "",
        bundleExport := false,
        bundleExportPlugin := ""))
  }

  /** `inAdjunctPackage(packageName)`: an empty name, or a destination already
      set, throws before any field changes. */
  function InAdjunctPackage(b: Bundle, packageName: string): (r: Result<Bundle, Error>)
    ensures r.Ok? <==> packageName != "" && !HasDestination(b)
    ensures r.Err? ==> r.error == RegistrationFailed
    ensures r.Ok? ==> r.value.bundleToAdjunctPackageDir == PackageToPath(packageName)
    ensures r.Ok? ==> HasDestination(r.value) && AtMostOneDestination(r.value)
    ensures r.Ok? ==> SameExceptDestination(b, r.value)
  {
    if packageName == "" || HasDestination(b) then Err(RegistrationFailed)
    else Ok(b.(bundleToAdjunctPackageDir := PackageToPath(packageName)))
  }

  /** `inDir(dir)`: as `inAdjunctPackage`, but the stored directory is the
      normalised path, which is empty (so still unset) for a `dir` such as "./". */
  function InDir(b: Bundle, dir: string): (r: Result<Bundle, Error>)
    ensures r.Ok? <==> dir != "" && !HasDestination(b)
    ensures r.Err? ==> r.error == RegistrationFailed
    ensures r.Ok? ==> r.value.bundleInDir == NormalizePath(dir)
    ensures r.Ok? ==> (HasDestination(r.value) <==> NormalizePath(dir) != "")
    ensures r.Ok? ==> AtMostOneDestination(r.value) && SameExceptDestination(b, r.value)
  {
    if dir == "" || HasDestination(b) then Err(RegistrationFailed)
    else Ok(b.(bundleInDir := NormalizePath(dir)))
  }

  /** `asJenkinsModuleResource()`: throws when a destination is already set. */
  function AsJenkinsModuleResource(b: Bundle): (r: Result<Bundle, Error>)
    ensures r.Ok? <==> !HasDestination(b)
    ensures r.Err? ==> r.error == RegistrationFailed
    ensures r.Ok? ==> r.value.bundleAsJenkinsModule && AtMostOneDestination(r.value)
    ensures r.Ok? ==> SameExceptDestination(b, r.value)
  {
    if HasDestination(b) then Err(RegistrationFailed)
    else Ok(b.(bundleAsJenkinsModule := true))
  }

  /** `withTransforms(transforms)`: replaces, not extends, the user transform list. */
  function WithTransforms(b: Bundle, transforms: Option<seq<string>>): (r: Result<Bundle, Error>)
    ensures r.Ok? && r.value.bundleTransforms == transforms
    ensures r.value.(bundleTransforms := b.bundleTransforms) == b
  {
    Ok(b.(bundleTransforms := transforms))
  }

  /** `withExternalModuleMapping(from, to, require)`: both names are required;
      the mapping is appended with no uniqueness check, and the handlebars
      mapping without an override gets the runtime shim as its override. */
  function WithExternalModuleMapping(b: Bundle, from: string, to: string, require: string): (r: Result<Bundle, Error>)
    ensures r.Ok? <==> from != "" && to != ""
    ensures r.Err? ==> r.error == MappingNamesMissing
    ensures r.Ok? ==> |r.value.moduleMappings| == |b.moduleMappings| + 1
    ensures r.Ok? ==> r.value.moduleMappings[..|b.moduleMappings|] == b.moduleMappings
    ensures r.Ok? ==>
      var m := r.value.moduleMappings[|b.moduleMappings|];
      && m.from == from && m.to == to
      && (from == "handlebars" && to == "handlebars:handlebars3" && require == "" ==> m.require == HandlebarsRuntimeShim)
      && (from != "handlebars" || to != "handlebars:handlebars3" || require != "" ==> m.require == require)
    ensures r.Ok? ==> r.value.(moduleMappings := b.moduleMappings) == b
  {
    if from == "" || to == "" then Err(MappingNamesMissing)
    else
      var require' :=
        if from == "handlebars" && to == "handlebars:handlebars3" && require == "" then HandlebarsRuntimeShim
        else require;
      Ok(b.(moduleMappings := b.moduleMappings + [Mapping(from, to, require')]))
  }

  /** `less(src, targetDir)`: the source is always stored, the target directory
      only when given. */
  function Less(b: Bundle, src: string, targetDir: string): (r: Result<Bundle, Error>)
    ensures r.Ok? && r.value.lessSrcPath == src
    ensures r.value.lessTargetDir == (if targetDir != "" then targetDir else b.lessTargetDir)
    ensures r.value.(lessSrcPath := b.lessSrcPath, lessTargetDir := b.lessTargetDir) == b
  {
    var b' := b.(lessSrcPath := src);
    Ok(if targetDir != "" then b'.(lessTargetDir := targetDir) else b')
  }

  /** `export(bundleId)` with a bundle id: the module is exported under that
      namespace. Without one, in a build with no project descriptor, nothing
      changes (an error is only logged). */
  function Export(b: Bundle, bundleId: string): (r: Bundle)
    ensures bundleId != "" ==> r.bundleExport && r.bundleExportPlugin == bundleId
    ensures bundleId == "" ==> r == b
    ensures r.(bundleExport := b.bundleExport, bundleExportPlugin := b.bundleExportPlugin) == b
  {
    if bundleId != "" then b.(bundleExport := true, bundleExportPlugin := bundleId) else b
  }

  /** One configuration call made on a descriptor. */
  datatype Call =
    | AdjunctPackageCall(packageName: string)
    | InDirCall(dir: string)
    | JenkinsModuleCall
    | TransformsCall(transforms: Option<seq<string>>)
    | MappingCall(from: string, to: string, require: string)
    | LessCall(src: string, targetDir: string)
    | ExportCall(bundleId: string)

  predicate IsDestinationCall(c: Call) {
    c.AdjunctPackageCall? || c.InDirCall? || c.JenkinsModuleCall?
  }

  function Apply(b: Bundle, c: Call): Result<Bundle, Error> {
    match c
    case AdjunctPackageCall(p) => InAdjunctPackage(b, p)
    case InDirCall(d) => InDir(b, d)
    case JenkinsModuleCall => AsJenkinsModuleResource(b)
    case TransformsCall(ts) => WithTransforms(b, ts)
    case MappingCall(f, t, q) => WithExternalModuleMapping(b, f, t, q)
    case LessCall(s, d) => Less(b, s, d)
    case ExportCall(id) => Ok(Export(b, id))
  }

  /** A call made once a destination is set is a destination call exactly when it fails. */
  lemma SecondDestinationFails(b: Bundle, c: Call)
    requires HasDestination(b)
    ensures Apply(b, c).Err? <==> IsDestinationCall(c) || (c.MappingCall? && (c.from == "" || c.to == ""))
    ensures Apply(b, c).Ok? ==> SameDestination(b, Apply(b, c).value)
  {
  }

  /** The calls applied one after another, the last one outermost: the error of
      the first call that fails, or the descriptor the last call leaves. */
  function ApplyAll(b: Bundle, calls: seq<Call>): Result<Bundle, Error>
    decreases |calls|
  {
    if |calls| == 0 then Ok(b)
    else match ApplyAll(b, calls[..|calls| - 1])
      case Err(e) => Err(e)
      case Ok(b') => Apply(b', calls[|calls| - 1])
  }

  /** Applying a first call and then the rest is applying them all. */
  lemma {:induction false} ApplyAllCons(b: Bundle, calls: seq<Call>)
    requires |calls| > 0
    ensures ApplyAll(b, calls) ==
      match Apply(b, calls[0])
      case Err(e) => Err(e)
      case Ok(b') => ApplyAll(b', calls[1..])
    decreases |calls|
  {
    if |calls| > 1 {
      var init := calls[..|calls| - 1];
      ApplyAllCons(b, init);
      assert init[0] == calls[0];
      assert init[1..] == calls[1..][..|calls[1..]| - 1];
      assert calls[1..][|calls[1..]| - 1] == calls[|calls| - 1];
    } else {
      assert calls[..0] == [];
      assert calls[1..] == [];
    }
  }

  /** No `export` call is followed by another call. */
  predicate NoInnerExport(calls: seq<Call>) {
    forall k :: 0 <= k < |calls| - 1 ==> !calls[k].ExportCall?
  }

  /** The descriptor after a chain of calls, and the error that ended it early. */
  datatype ChainOutcome = ChainOutcome(bundle: Bundle, error: Option<Error>)

  /** A chain `bundle(...).c1(...).c2(...)...`: each call mutates the shared
      descriptor in place, so a throw keeps the effect of the calls before it;
      `export` returns `undefined`, so any call after it fails. */
  function Chain(b: Bundle, calls: seq<Call>): (r: ChainOutcome)
    ensures ChainSpec(b, calls, r)
    decreases |calls|
  {
    if |calls| == 0 then ChainOutcome(b, None)
    else match Apply(b, calls[0])
      case Err(e) =>
        FailingFirstCall(b, calls);
        ChainOutcome(b, Some(e))
      case Ok(b') =>
        if calls[0].ExportCall? && |calls| > 1 then
          ExportStopsSpec(b, b', calls);
          ChainOutcome(b', Some(NotChainable))
        else
          var r := Chain(b', calls[1..]);
          SpecStep(b, b', calls, r);
          r
  }

  /** What a chain promises: the not-chainable error needs an `export` that is not
      last; calls that all succeed without setting a destination, with no inner
      `export`, throw nothing; a first call that throws ends the chain with its
      error and the descriptor untouched; and without an inner `export` the chain
      ends as applying its calls one after another does. */
  predicate ChainSpec(b: Bundle, calls: seq<Call>, r: ChainOutcome) {
    && (r.error == Some(NotChainable) ==> exists k :: 0 <= k < |calls| - 1 && calls[k].ExportCall?)
    && (((forall k :: 0 <= k < |calls| ==> Apply(b, calls[k]).Ok? && !IsDestinationCall(calls[k]))
         && NoInnerExport(calls)) ==> r.error.None?)
    && (|calls| > 0 && Apply(b, calls[0]).Err? ==> r == ChainOutcome(b, Some(Apply(b, calls[0]).error)))
    && FollowsApplyAll(b, calls, r)
  }

  /** A first `export` followed by more calls meets the chain's promise. */
  lemma ExportStopsSpec(b: Bundle, b': Bundle, calls: seq<Call>)
    requires |calls| > 1 && calls[0].ExportCall? && Apply(b, calls[0]) == Ok(b')
    ensures ChainSpec(b, calls, ChainOutcome(b', Some(NotChainable)))
  {
  }

  /** A first call that succeeds hands the chain's promise on to the rest. */
  lemma SpecStep(b: Bundle, b': Bundle, calls: seq<Call>, r: ChainOutcome)
    requires |calls| > 0 && Apply(b, calls[0]) == Ok(b')
    requires !calls[0].ExportCall? || |calls| == 1
    requires ChainSpec(b', calls[1..], r)
    ensures ChainSpec(b, calls, r)
  {
    FollowsStep(b, b', calls, r);
    InnerExportStep(calls, r.error);
    AllSucceedStep(b, b', calls);
  }

  /** An inner `export` of the rest of a chain is an inner `export` of the chain. */
  lemma InnerExportStep(calls: seq<Call>, error: Option<Error>)
    requires |calls| > 0
    requires error == Some(NotChainable) ==> exists k :: 0 <= k < |calls[1..]| - 1 && calls[1..][k].ExportCall?
    ensures error == Some(NotChainable) ==> exists k :: 0 <= k < |calls| - 1 && calls[k].ExportCall?
  {
    if error == Some(NotChainable) {
      var k :| 0 <= k < |calls[1..]| - 1 && calls[1..][k].ExportCall?;
      assert calls[k + 1] == calls[1..][k];
    }
  }

  /** Whether a call that sets no destination succeeds does not depend on the descriptor. */
  lemma NonDestinationCallOk(b: Bundle, b': Bundle, c: Call)
    requires !IsDestinationCall(c)
    ensures Apply(b, c).Ok? == Apply(b', c).Ok?
  {
  }

  /** Calls that all succeed without setting a destination still do after the first. */
  lemma AllSucceedStep(b: Bundle, b': Bundle, calls: seq<Call>)
    requires |calls| > 0
    ensures (forall k :: 0 <= k < |calls| ==> Apply(b, calls[k]).Ok? && !IsDestinationCall(calls[k])) ==>
      forall k :: 0 <= k < |calls[1..]| ==> Apply(b', calls[1..][k]).Ok? && !IsDestinationCall(calls[1..][k])
  {
    forall k | 0 <= k < |calls[1..]| && !IsDestinationCall(calls[1..][k])
      ensures Apply(b, calls[1..][k]).Ok? == Apply(b', calls[1..][k]).Ok?
    {
      NonDestinationCallOk(b, b', calls[1..][k]);
    }
    assert forall k :: 0 <= k < |calls[1..]| ==> calls[1..][k] == calls[k + 1];
  }

  /** With no inner `export`, a chain ends as applying all its calls does: with
      their final descriptor when none fails, and otherwise with the error of the
      first failing call and the descriptor the calls before it leave. */
  predicate FollowsApplyAll(b: Bundle, calls: seq<Call>, r: ChainOutcome) {
    NoInnerExport(calls) ==>
      && (r.error.None? <==> ApplyAll(b, calls).Ok?)
      && (r.error.None? ==> r.bundle == ApplyAll(b, calls).value)
      && (r.error.Some? ==> r.error.value == ApplyAll(b, calls).error)
      && (r.error.Some? ==>
            exists k :: 0 <= k < |calls| && ApplyAll(b, calls[..k]) == Ok(r.bundle) && Apply(r.bundle, calls[k]).Err?)
  }

  lemma FailingFirstCall(b: Bundle, calls: seq<Call>)
    requires |calls| > 0 && Apply(b, calls[0]).Err?
    ensures ChainSpec(b, calls, ChainOutcome(b, Some(Apply(b, calls[0]).error)))
  {
    ApplyAllCons(b, calls);
    assert calls[..0] == [];
  }

  lemma FollowsStep(b: Bundle, b': Bundle, calls: seq<Call>, r: ChainOutcome)
    requires |calls| > 0 && Apply(b, calls[0]) == Ok(b')
    requires FollowsApplyAll(b', calls[1..], r)
    ensures FollowsApplyAll(b, calls, r)
  {
    if NoInnerExport(calls) {
      assert NoInnerExport(calls[1..]);
      ApplyAllCons(b, calls);
      if r.error.Some? {
        var k :| 0 <= k < |calls[1..]| && ApplyAll(b', calls[1..][..k]) == Ok(r.bundle) && Apply(r.bundle, calls[1..][k]).Err?;
        FailingCallStep(b, b', calls, k, r.bundle);
      }
    }
  }

  /** The call that fails at index `k` of the rest fails at index `k + 1` of the chain. */
  lemma FailingCallStep(b: Bundle, b': Bundle, calls: seq<Call>, k: nat, before: Bundle)
    requires |calls| > 0 && Apply(b, calls[0]) == Ok(b')
    requires k < |calls[1..]| && ApplyAll(b', calls[1..][..k]) == Ok(before) && Apply(before, calls[1..][k]).Err?
    ensures ApplyAll(b, calls[..k + 1]) == Ok(before) && Apply(before, calls[k + 1]).Err?
  {
    ApplyAllCons(b, calls[..k + 1]);
    assert calls[..k + 1][1..] == calls[1..][..k];
    assert calls[k + 1] == calls[1..][k];
  }

  /** Every call after an `export` fails: when the calls up to the first `export`
      that is not last all succeed, the chain ends with the descriptor they leave,
      the export's effect included, and the not-chainable error. */
  lemma {:induction false} ChainStopsAfterExport(b: Bundle, calls: seq<Call>, k: nat)
    requires k < |calls| - 1 && calls[k].ExportCall?
    requires NoInnerExport(calls[..k + 1]) && ApplyAll(b, calls[..k + 1]).Ok?
    ensures Chain(b, calls) == ChainOutcome(ApplyAll(b, calls[..k + 1]).value, Some(NotChainable))
    decreases k
  {
    if k == 0 {
      ExportFirstStops(b, calls);
    } else {
      StopsShift(b, calls, k);
      ChainStopsAfterExport(Apply(b, calls[0]).value, calls[1..], k - 1);
    }
  }

  /** The base case: a first call that is `export` and not last. */
  lemma ExportFirstStops(b: Bundle, calls: seq<Call>)
    requires 0 < |calls| - 1 && calls[0].ExportCall? && ApplyAll(b, calls[..1]).Ok?
    ensures Chain(b, calls) == ChainOutcome(ApplyAll(b, calls[..1]).value, Some(NotChainable))
  {
    ApplyAllFirstOk(b, calls[..1]);
    assert calls[..1][0] == calls[0];
    assert calls[..1][1..] == [];
    ChainAtExport(b, calls);
  }

  /** The inductive step: before the first `export`, dropping the first call of
      the chain moves that `export` one index earlier and keeps the outcome. */
  lemma StopsShift(b: Bundle, calls: seq<Call>, k: nat)
    requires 0 < k < |calls| - 1 && calls[k].ExportCall?
    requires NoInnerExport(calls[..k + 1]) && ApplyAll(b, calls[..k + 1]).Ok?
    ensures Apply(b, calls[0]).Ok?
    ensures Chain(b, calls) == Chain(Apply(b, calls[0]).value, calls[1..])
    ensures ApplyAll(b, calls[..k + 1]) == ApplyAll(Apply(b, calls[0]).value, calls[1..][..(k - 1) + 1])
    ensures calls[1..][k - 1].ExportCall? && NoInnerExport(calls[1..][..(k - 1) + 1])
  {
    var pre := calls[..k + 1];
    ApplyAllFirstOk(b, pre);
    assert pre[0] == calls[0];
    assert pre[1..] == calls[1..][..k];
    assert !pre[0].ExportCall?;
    ChainFirstStep(b, calls);
    InnerExportShift(calls, k);
  }

  /** Calls that all succeed start with a first call that succeeds. */
  lemma ApplyAllFirstOk(b: Bundle, calls: seq<Call>)
    requires |calls| > 0 && ApplyAll(b, calls).Ok?
    ensures Apply(b, calls[0]).Ok? && ApplyAll(b, calls) == ApplyAll(Apply(b, calls[0]).value, calls[1..])
  {
    ApplyAllCons(b, calls);
  }

  /** An `export` followed by more calls ends the chain right after its own effect. */
  lemma ChainAtExport(b: Bundle, calls: seq<Call>)
    requires |calls| > 1 && calls[0].ExportCall?
    ensures Chain(b, calls) == ChainOutcome(Apply(b, calls[0]).value, Some(NotChainable))
  {
  }

  /** A first call that succeeds and is not `export` hands the rest of the chain its descriptor. */
  lemma ChainFirstStep(b: Bundle, calls: seq<Call>)
    requires |calls| > 1 && Apply(b, calls[0]).Ok? && !calls[0].ExportCall?
    ensures Chain(b, calls) == Chain(Apply(b, calls[0]).value, calls[1..])
  {
  }

  /** Dropping the first call keeps the first `export` first, one index earlier. */
  lemma InnerExportShift(calls: seq<Call>, k: nat)
    requires 0 < k < |calls| && calls[k].ExportCall? && NoInnerExport(calls[..k + 1])
    ensures calls[1..][..k] == calls[1..][..(k - 1) + 1]
    ensures calls[1..][k - 1].ExportCall? && NoInnerExport(calls[1..][..k])
  {
    assert calls[1..][k - 1] == calls[k];
    forall j | 0 <= j < k - 1 ensures !calls[1..][..k][j].ExportCall? {
      assert calls[1..][..k][j] == calls[..k + 1][j + 1];
    }
  }

  /** A chain of one call that succeeds ends with that call's descriptor and no error. */
  lemma SingleCall(b: Bundle, c: Call)
    requires Apply(b, c).Ok?
    ensures Chain(b, [c]) == ChainOutcome(Apply(b, c).value, None)
  {
    assert [c][1..] == [];
  }

  /** Once a destination is set, no chain of calls changes it. */
  lemma {:induction false} ChainKeepsDestination(b: Bundle, calls: seq<Call>)
    requires HasDestination(b)
    ensures SameDestination(b, Chain(b, calls).bundle)
    decreases |calls|
  {
    if |calls| > 0 {
      SecondDestinationFails(b, calls[0]);
      match Apply(b, calls[0])
      case Err(_) =>
      case Ok(b') =>
        if !(calls[0].ExportCall? && |calls| > 1) {
          ChainKeepsDestination(b', calls[1..]);
        }
    }
  }

  /** No chain of calls ever makes two destination fields truthy. */
  lemma {:induction false} ChainKeepsAtMostOneDestination(b: Bundle, calls: seq<Call>)
    requires AtMostOneDestination(b)
    ensures AtMostOneDestination(Chain(b, calls).bundle)
    decreases |calls|
  {
    if |calls| > 0 {
      match Apply(b, calls[0])
      case Err(_) =>
      case Ok(b') =>
        if !(calls[0].ExportCall? && |calls| > 1) {
          ChainKeepsAtMostOneDestination(b', calls[1..]);
        }
    }
  }

  /** Mappings are only ever appended: earlier ones stay, in order. */
  lemma {:induction false} ChainExtendsMappings(b: Bundle, calls: seq<Call>)
    ensures b.moduleMappings <= Chain(b, calls).bundle.moduleMappings
    decreases |calls|
  {
    if |calls| > 0 {
      match Apply(b, calls[0])
      case Err(_) =>
      case Ok(b') =>
        assert b.moduleMappings <= b'.moduleMappings;
        if !(calls[0].ExportCall? && |calls| > 1) {
          ChainExtendsMappings(b', calls[1..]);
        }
    }
  }

  /** The fields fixed at registration. */
  predicate SameNames(a: Bundle, b: Bundle) {
    && a.bundleModule == b.bundleModule && a.js == b.js && a.moduleName == b.moduleName
    && a.asName == b.asName && a.bundleOutputFile == b.bundleOutputFile
    && a.bundleDependencyModule == b.bundleDependencyModule
  }

  lemma ApplyKeepsNames(b: Bundle, c: Call)
    requires Apply(b, c).Ok?
    ensures SameNames(b, Apply(b, c).value)
  {
    match c
    case AdjunctPackageCall(p) =>
    case InDirCall(d) =>
    case JenkinsModuleCall =>
    case TransformsCall(ts) =>
    case MappingCall(f, t, q) =>
    case LessCall(src, d) =>
    case ExportCall(id) =>
  }

  /** No setter touches the names derived at registration. */
  lemma {:induction false} ChainKeepsNames(b: Bundle, calls: seq<Call>)
    ensures SameNames(b, Chain(b, calls).bundle)
    decreases |calls|
  {
    if |calls| > 0 {
      match Apply(b, calls[0])
      case Err(_) =>
      case Ok(b') =>
        ApplyKeepsNames(b, calls[0]);
        if !(calls[0].ExportCall? && |calls| > 1) {
          ChainKeepsNames(b', calls[1..]);
        }
    }
  }

  /** `bundle(moduleToBundle, as)` followed by a chain of calls on the result: the
      descriptor joins the registered list as soon as `bundle` returns, so it
      stays there, partly configured, even when a later call in the chain throws. */
  function Declare(bundles: seq<Bundle>, moduleToBundle: string, alias: string, calls: seq<Call>): (r: (seq<Bundle>, Option<Error>))
    ensures moduleToBundle == "" ==> r == (bundles, Some(RegistrationFailed))
    ensures moduleToBundle != "" ==> |r.0| == |bundles| + 1 && r.0[..|bundles|] == bundles
    ensures moduleToBundle != "" ==>
      var c := Chain(NewBundle(moduleToBundle, alias).value, calls);
      r.0[|bundles|] == c.bundle && r.1 == c.error
    ensures moduleToBundle != "" ==> AtMostOneDestination(r.0[|bundles|])
    ensures moduleToBundle != "" ==> SameNames(NewBundle(moduleToBundle, alias).value, r.0[|bundles|])
    ensures moduleToBundle != "" && calls == [] ==> r == (bundles + [NewBundle(moduleToBundle, alias).value], None)
  {
    match NewBundle(moduleToBundle, alias)
    case Err(e) => (bundles, Some(e))
    case Ok(b) =>
      var out := Chain(b, calls);
      ChainKeepsAtMostOneDestination(b, calls);
      ChainKeepsNames(b, calls);
      (bundles + [out.bundle], out.error)
  }

  /** A registration followed by one call that succeeds appends the descriptor
      that call leaves, and throws nothing. */
  lemma DeclareOneCall(bundles: seq<Bundle>, moduleToBundle: string, alias: string, c: Call)
    requires NewBundle(moduleToBundle, alias).Ok? && Apply(NewBundle(moduleToBundle, alias).value, c).Ok?
    ensures Declare(bundles, moduleToBundle, alias, [c]) ==
      (bundles + [Apply(NewBundle(moduleToBundle, alias).value, c).value], None)
  {
    SingleCall(NewBundle(moduleToBundle, alias).value, c);
  }
}
