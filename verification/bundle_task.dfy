/** The `bundle` task: for each registered descriptor it resolves the output
    directory, the less job, the entry file (synthesising one for a dependency
    bundle) and the ordered transform pipeline. Running browserify, less and the
    file writes is outside the model; what is kept is the plan handed to them. */
module BundleTask {
  import opened Wrappers
  import opened Strings
  import opened Paths
  import opened Errors
  import opened Bundles

  /** A transform attached to the browserify pipeline. */
  datatype TransformTag = Hbsfy | UserTransform(name: string) | RequireMapping | ImportExport

  /** A less compilation: source glob and target directory. */
  datatype LessJob = LessJob(src: string, targetDir: string)

  /** What the task does for one descriptor. */
  datatype Plan = Plan(
    outputDir: string,
    less: Option<LessJob>,
    entryFile: string,
    entryText: Option<string>,
    transforms: seq<TransformTag>,
    outputFile: string)

  /** The content of the entry file synthesised for a dependency bundle. */
  function EntryText(moduleName: string): string {
    "module.exports = require('" + moduleName + "');"
  }

  const EntryPrefix: string := "module.exports = require('"
  const EntrySuffix: string := "');"

  /** The module a synthesised entry file re-exports. */
  function EntryModule(text: string): Option<string> {
    if |EntryPrefix| + |EntrySuffix| <= |text| && IsPrefix(EntryPrefix, text) && IsSuffix(EntrySuffix, text)
    then Some(text[|EntryPrefix|..|text| - |EntrySuffix|])
    else None
  }

  /** The synthesised entry re-exports exactly the named module. */
  lemma EntryTextRoundTrip(moduleName: string)
    ensures EntryModule(EntryText(moduleName)) == Some(moduleName)
  {
    var t := EntryText(moduleName);
    assert t == EntryPrefix + moduleName + EntrySuffix;
    assert t[..|EntryPrefix|] == EntryPrefix;
    assert t[|t| - |EntrySuffix|..] == EntrySuffix;
    assert t[|EntryPrefix|..|t| - |EntrySuffix|] == moduleName;
  }

  /** The user transforms of a descriptor, in order; none when never set. */
  function UserTransforms(b: Bundle): seq<string> {
    match b.bundleTransforms
    case Some(ts) => ts
    case None => []
  }

  /** The pipeline's transforms: hbsfy first, then the user transforms in order,
      then the require rewrite only when there are mappings, and the
      import/export injection last. */
  function PipelineTransforms(b: Bundle): (r: seq<TransformTag>)
    ensures var users := UserTransforms(b);
      && |r| == |users| + 2 + (if |b.moduleMappings| > 0 then 1 else 0)
      && r[0] == Hbsfy && r[|r| - 1] == ImportExport
      && (forall i :: 0 <= i < |users| ==> r[1 + i] == UserTransform(users[i]))
    ensures RequireMapping in r <==> |b.moduleMappings| > 0
  {
    var users := UserTransforms(b);
    var tagged := seq(|users|, i requires 0 <= i < |users| => UserTransform(users[i]));
    var r := [Hbsfy] + tagged + (if |b.moduleMappings| > 0 then [RequireMapping] else []) + [ImportExport];
    assert forall t :: t in tagged ==> t.UserTransform?;
    r
  }

  /** The plan for one descriptor. A descriptor with no truthy destination aborts
      the task; otherwise the Jenkins module destination wins, then `inDir`, then
      the adjunct package directory under the adjunct base path. */
  function PlanBundle(b: Bundle): (r: Result<Plan, Error>)
    ensures r.Err? <==> !HasDestination(b)
    ensures r.Err? ==> r.error == BundleTaskFailed
    ensures r.Ok? && b.bundleAsJenkinsModule ==> r.value.outputDir == JsModulesBasePath
    ensures r.Ok? && !b.bundleAsJenkinsModule && b.bundleInDir != "" ==> r.value.outputDir == b.bundleInDir
    ensures r.Ok? && !b.bundleAsJenkinsModule && b.bundleInDir == "" ==>
      r.value.outputDir == AdjunctBasePath + "/" + b.bundleToAdjunctPackageDir
    ensures r.Ok? ==> (r.value.less.Some? <==> b.lessSrcPath != "")
    ensures r.Ok? && r.value.less.Some? ==>
      && r.value.less.value.src == b.lessSrcPath
      && (b.bundleAsJenkinsModule ==> r.value.less.value.targetDir == r.value.outputDir + "/" + b.asName)
      && (!b.bundleAsJenkinsModule && b.lessTargetDir != "" ==> r.value.less.value.targetDir == b.lessTargetDir)
      && (!b.bundleAsJenkinsModule && b.lessTargetDir == "" ==> r.value.less.value.targetDir == r.value.outputDir)
    ensures r.Ok? && b.bundleDependencyModule ==>
      r.value.entryFile == "target/" + b.bundleOutputFile && r.value.entryText.Some?
      && EntryModule(r.value.entryText.value) == Some(b.moduleName)
    ensures r.Ok? && !b.bundleDependencyModule ==> r.value.entryFile == b.bundleModule && r.value.entryText.None?
    ensures r.Ok? ==> r.value.outputFile == b.bundleOutputFile && r.value.transforms == PipelineTransforms(b)
  {
    if !HasDestination(b) then Err(BundleTaskFailed)
    else
      var bundleTo :=
        if b.bundleAsJenkinsModule then JsModulesBasePath
        else if b.bundleInDir != "" then b.bundleInDir
        else AdjunctBasePath + "/" + b.bundleToAdjunctPackageDir;
      var less :=
        if b.lessSrcPath == "" then None
        else if b.bundleAsJenkinsModule then Some(LessJob(b.lessSrcPath, bundleTo + "/" + b.asName))
        else if b.lessTargetDir != "" then Some(LessJob(b.lessSrcPath, b.lessTargetDir))
        else Some(LessJob(b.lessSrcPath, bundleTo));
      EntryTextRoundTrip(b.moduleName);
      if b.bundleDependencyModule then
        Ok(Plan(bundleTo, less, "target/" + b.bundleOutputFile, Some(EntryText(b.moduleName)),
                PipelineTransforms(b), b.bundleOutputFile))
      else
        Ok(Plan(bundleTo, less, b.bundleModule, None, PipelineTransforms(b), b.bundleOutputFile))
  }

  /** The output directory follows from the one destination call that set it:
      `inDir` gives the normalised directory (and aborts the task when that is
      empty), `inAdjunctPackage` the package path under the adjunct base, and
      `asJenkinsModuleResource` the assets directory. */
  lemma DestinationCallDecidesOutputDir(b: Bundle, c: Call)
    requires !HasDestination(b) && IsDestinationCall(c) && Apply(b, c).Ok?
    ensures var p := PlanBundle(Apply(b, c).value);
      && (c.InDirCall? ==> (p.Ok? <==> NormalizePath(c.dir) != ""))
      && (c.InDirCall? && p.Ok? ==> p.value.outputDir == NormalizePath(c.dir))
      && (c.AdjunctPackageCall? ==> p.Ok? && p.value.outputDir == AdjunctBasePath + "/" + PackageToPath(c.packageName))
      && (c.JenkinsModuleCall? ==> p.Ok? && p.value.outputDir == JsModulesBasePath)
  {
  }

  /** Calls made after a destination is set never move the output directory. */
  lemma LaterCallsKeepOutputDir(b: Bundle, calls: seq<Call>)
    requires HasDestination(b)
    ensures PlanBundle(Chain(b, calls).bundle).Ok?
    ensures PlanBundle(Chain(b, calls).bundle).value.outputDir == PlanBundle(b).value.outputDir
  {
    ChainKeepsDestination(b, calls);
  }

  /** The first index at or after `i` whose descriptor has no destination, or
      `|bundles|` when every one from `i` on has one. */
  function FirstWithoutDestination(bundles: seq<Bundle>, i: nat): (r: nat)
    requires i <= |bundles|
    ensures i <= r <= |bundles|
    ensures forall k :: i <= k < r ==> HasDestination(bundles[k])
    ensures r < |bundles| ==> !HasDestination(bundles[r])
    decreases |bundles| - i
  {
    if i < |bundles| && HasDestination(bundles[i]) then FirstWithoutDestination(bundles, i + 1) else i
  }

  /** The first descriptor without a destination is the one every earlier
      descriptor is not. */
  lemma FirstWithoutDestinationIs(bundles: seq<Bundle>, i: nat)
    requires i <= |bundles|
    requires forall k :: 0 <= k < i ==> HasDestination(bundles[k])
    requires i < |bundles| ==> !HasDestination(bundles[i])
    ensures FirstWithoutDestination(bundles, 0) == i
  {
  }

  /** The task over the registered descriptors, visiting every one in
      registration order. An empty list, or a descriptor without a destination,
      aborts it; the bundles visited before the failing one are already under way. */
  method RunBundleTask(bundles: seq<Bundle>) returns (started: seq<Plan>, err: Option<Error>)
    ensures err.None? <==> |bundles| > 0 && forall i :: 0 <= i < |bundles| ==> HasDestination(bundles[i])
    ensures err.Some? ==> err.value == BundleTaskFailed
    ensures |started| <= |bundles|
    ensures forall i :: 0 <= i < |started| ==> PlanBundle(bundles[i]) == Ok(started[i])
    ensures err.None? ==> |started| == |bundles|
    ensures err.Some? && |bundles| > 0 ==> |started| < |bundles| && !HasDestination(bundles[|started|])
    ensures |started| == FirstWithoutDestination(bundles, 0) || |bundles| == 0
  {
    if |bundles| == 0 {
      return [], Some(BundleTaskFailed);
    }
    started := [];
    var i := 0;
    while i < |bundles|
      invariant 0 <= i <= |bundles| && |started| == i
      invariant forall j :: 0 <= j < i ==> HasDestination(bundles[j]) && PlanBundle(bundles[j]) == Ok(started[j])
    {
      var p := PlanBundle(bundles[i]);
      if p.Err? {
        FirstWithoutDestinationIs(bundles, i);
        return started, Some(p.error);
      }
      started := started + [p.value];
      i := i + 1;
    }
    FirstWithoutDestinationIs(bundles, |bundles|);
    return started, None;
  }

  /** Where the source's outer loop goes after visiting bundle `i`. The inner loop
      over the user transforms reuses the same function-scoped `i`, so after a
      bundle with a transform list the next index is that list's length plus one. */
  function NextIndexAsWritten(bundles: seq<Bundle>, i: nat): nat
    requires i < |bundles|
  {
    match bundles[i].bundleTransforms
    case Some(ts) => |ts| + 1
    case None => i + 1
  }

  /** The indices the source's loop visits from `i`, for at most `fuel` visits;
      the visit of a bundle without a destination throws and ends the list. */
  function VisitsAsWritten(bundles: seq<Bundle>, i: nat, fuel: nat): (r: seq<nat>)
    ensures |r| <= fuel
    ensures forall k :: 0 <= k < |r| ==> r[k] < |bundles|
    ensures |r| > 0 ==> r[0] == i
    decreases fuel
  {
    if fuel == 0 || i >= |bundles| then []
    else if !HasDestination(bundles[i]) then [i]
    else [i] + VisitsAsWritten(bundles, NextIndexAsWritten(bundles, i), fuel - 1)
  }

  /** With one user transform on the first of three bundles, the loop jumps from
      bundle 0 to bundle 2: bundle 1 is never built. */
  lemma SharedIndexSkipsBundle(bundles: seq<Bundle>, t: string, fuel: nat)
    requires |bundles| == 3 && forall i :: 0 <= i < 3 ==> HasDestination(bundles[i])
    requires bundles[0].bundleTransforms == Some([t]) && bundles[2].bundleTransforms == None
    requires fuel >= 2
    ensures VisitsAsWritten(bundles, 0, fuel) == [0, 2]
  {
    assert NextIndexAsWritten(bundles, 0) == 2;
    assert NextIndexAsWritten(bundles, 2) == 3;
    assert VisitsAsWritten(bundles, 3, fuel - 2) == [];
    assert VisitsAsWritten(bundles, 2, fuel - 1) == [2];
  }

  /** A second bundle with an empty (but truthy) transform list sends the loop
      back to itself: bundle 1 is visited again on every iteration, without end. */
  lemma {:induction false} SharedIndexRepeatsBundle(bundles: seq<Bundle>, fuel: nat)
    requires |bundles| >= 2 && HasDestination(bundles[1]) && bundles[1].bundleTransforms == Some([])
    ensures VisitsAsWritten(bundles, 1, fuel) == seq(fuel, _ => 1)
    decreases fuel
  {
    if fuel > 0 {
      assert NextIndexAsWritten(bundles, 1) == 1;
      SharedIndexRepeatsBundle(bundles, fuel - 1);
      assert seq(fuel, _ => 1) == [1] + seq(fuel - 1, _ => 1);
    }
  }

  /** Without user transform lists the shared index does no harm: the loop as
      written visits the descriptors in order, up to and including the first
      one without a destination, exactly the descriptors `RunBundleTask` reaches. */
  lemma {:induction false} VisitsInOrderWithoutTransforms(bundles: seq<Bundle>, i: nat)
    requires i <= |bundles|
    requires forall k :: i <= k < |bundles| ==> bundles[k].bundleTransforms.None?
    ensures var f := FirstWithoutDestination(bundles, i);
      var v := VisitsAsWritten(bundles, i, |bundles| - i);
      && |v| == (if f < |bundles| then f - i + 1 else f - i)
      && forall k :: 0 <= k < |v| ==> v[k] == i + k
    decreases |bundles| - i
  {
    if i < |bundles| && HasDestination(bundles[i]) {
      assert NextIndexAsWritten(bundles, i) == i + 1;
      VisitsInOrderWithoutTransforms(bundles, i + 1);
    }
  }

  /** When every descriptor has a destination and none has a transform list, the
      loop as written builds each of them once, in order. */
  lemma AllVisitedWithoutTransforms(bundles: seq<Bundle>)
    requires forall k :: 0 <= k < |bundles| ==> HasDestination(bundles[k]) && bundles[k].bundleTransforms.None?
    ensures var v := VisitsAsWritten(bundles, 0, |bundles|);
      |v| == |bundles| && forall k :: 0 <= k < |bundles| ==> v[k] == k
  {
    VisitsInOrderWithoutTransforms(bundles, 0);
    FirstWithoutDestinationIs(bundles, |bundles|);
  }
}
