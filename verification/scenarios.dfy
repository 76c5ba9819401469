/** Worked registrations: a file bundle placed in a directory and a dependency
    bundle placed in an adjunct package, from registration to the task's plan. */
module Scenarios {
  import opened Wrappers
  import opened Strings
  import opened Paths
  import opened Bundles
  import opened Transforms
  import opened BundleTask

  /** An occurrence of `sep` starts with its first character. */
  lemma FirstCharAt(s: string, sep: string, i: int)
    requires |sep| > 0
    ensures IsAt(s, sep, i) ==> s[i] == sep[0]
  {
    if IsAt(s, sep, i) {
      assert s[i..i + |sep|][0] == s[i];
    }
  }

  /** The module registered by the first worked example. */
  const AppModule: string := "my/app.js"

  /** The dependency module and adjunct package of the second worked example. */
  const JqueryModule: string := "jquery"
  const WidgetsPackage: string := "acme.ui"

  /** A descriptor with every optional field unset. */
  function Registered(m: string, js: string, name: string, dependency: bool): Bundle {
    Bundle(m, js, name, name, name + ".js", dependency, "", "", false, None, [], "", "", false, "")
  }

  /** The file name of 'my/app.js' is the text after its only '/'. */
  lemma AppFile()
    ensures StrRightBack(AppModule, "/") == "app.js"
  {
    var s := AppModule;
    FirstCharAt(s, "/", 8); FirstCharAt(s, "/", 7); FirstCharAt(s, "/", 6);
    FirstCharAt(s, "/", 5); FirstCharAt(s, "/", 4); FirstCharAt(s, "/", 3);
    assert IsAt(s, "/", 2);
    assert LastIndexFrom(s, "/", 8) == 2;
  }

  /** The module name of 'app.js' is the text before its ".js". */
  lemma AppName()
    ensures StrLeftBack("app.js", ".js") == "app"
  {
    assert IsAt("app.js", ".js", 3);
    assert LastIndexFrom("app.js", ".js", 3) == 3;
  }

  /** `bundle('my/app.js')`: the module and output name are `app`. */
  lemma AppBundle()
    ensures NewBundle(AppModule, "") == Ok(Registered(AppModule, "app.js", "app", false))
  {
    AppFile();
    AppName();
  }

  /** "out" is already a normal path. */
  lemma OutIsNormal()
    ensures NormalizePath("out") == "out"
  {
    UntrimmedIsNormal("out");
  }

  /** The descriptor `bundle('my/app.js').inDir('out')` leaves registered. */
  function AppInOut(): Bundle {
    Registered(AppModule, "app.js", "app", false).(bundleInDir := "out")
  }

  /** `bundle('my/app.js').inDir(dir)`, for a non-empty directory that is already
      normal (no leading '.' or '/', no trailing '/', such as "out"), registers one
      descriptor placed in `dir` and throws nothing. */
  lemma AppDeclared(dir: string)
    requires dir != "" && dir[0] != '.' && dir[0] != '/' && dir[|dir| - 1] != '/'
    ensures Declare([], AppModule, "", [InDirCall(dir)])
      == ([Registered(AppModule, "app.js", "app", false).(bundleInDir := dir)], None)
  {
    AppBundle();
    NormalPathIff(dir);
    DeclareOneCall([], AppModule, "", InDirCall(dir));
  }

  /** It is built from its own file into `out/app.js` with only the built-in transforms. */
  lemma AppPlan()
    ensures PlanBundle(AppInOut()) == Ok(Plan("out", None, AppModule, None, [Hbsfy, ImportExport], "app.js"))
  {
    var b := AppInOut();
    assert b.bundleOutputFile == "app.js";
    assert HasDestination(b) && !b.bundleAsJenkinsModule && !b.bundleDependencyModule;
    assert UserTransforms(b) == [];
    assert PipelineTransforms(b) == [Hbsfy, ImportExport];
  }

  /** Its output announces it in the global namespace with an empty module
      object, right after the original content. */
  lemma AppExport(content: string)
    ensures ExportStatement(AppInOut()) == "\t\trequire('jenkins-js-modules').export(undefined, 'app', {});"
    ensures Inject(AppInOut(), content) == content + "\n" + ExportStatement(AppInOut())
  {
    var b := AppInOut();
    assert ExportNamespace(b) == "undefined" && ExportModule(b) == "{}";
    assert !AddsCss(b);
    ImportListEmptyIff([]);
  }

  /** The ".js" cut is at its last occurrence anywhere, not only at the end:
      a module file `foo.json` gets the name `foo`. */
  lemma JsonModuleName()
    ensures StrLeftBack("foo.json", ".js") == "foo"
  {
    var s := "foo.json";
    FirstCharAt(s, ".js", 5); FirstCharAt(s, ".js", 4);
    assert IsAt(s, ".js", 3);
    assert LastIndexFrom(s, ".js", 5) == 3;
  }

  /** `bundle('jquery')`: a bare module name, so a dependency bundle. */
  lemma JqueryBundle()
    ensures NewBundle(JqueryModule, "") == Ok(Registered(JqueryModule, "jquery", "jquery", true))
  {
    var s := "jquery";
    FirstCharAt(s, "/", 5); FirstCharAt(s, "/", 4); FirstCharAt(s, "/", 3);
    FirstCharAt(s, "/", 2); FirstCharAt(s, "/", 1); FirstCharAt(s, "/", 0);
    assert LastIndexFrom(s, "/", 5) == -1;
    FirstCharAt(s, ".js", 3); FirstCharAt(s, ".js", 2); FirstCharAt(s, ".js", 1); FirstCharAt(s, ".js", 0);
    assert LastIndexFrom(s, ".js", 3) == -1;
  }

  /** The descriptor `bundle('jquery').inAdjunctPackage('acme.ui')` leaves registered. */
  function JqueryInPackage(): Bundle {
    Registered(JqueryModule, "jquery", "jquery", true).(bundleToAdjunctPackageDir := "acme/ui")
  }

  lemma WidgetsPath()
    ensures PackageToPath(WidgetsPackage) == "acme/ui"
  {
    var r := PackageToPath(WidgetsPackage);
    assert r[0] == 'a' && r[1] == 'c' && r[2] == 'm' && r[3] == 'e' && r[4] == '/' && r[5] == 'u' && r[6] == 'i';
  }

  /** `bundle('jquery').inAdjunctPackage('acme.ui')` registers one descriptor
      and throws nothing. */
  lemma JqueryDeclared()
    ensures Declare([], JqueryModule, "", [AdjunctPackageCall(WidgetsPackage)]) == ([JqueryInPackage()], None)
  {
    JqueryBundle();
    WidgetsPath();
    DeclareOneCall([], JqueryModule, "", AdjunctPackageCall(WidgetsPackage));
  }

  /** The task writes a re-exporting entry file and builds it into the package's
      directory under the adjunct base. */
  lemma JqueryPlan()
    ensures PlanBundle(JqueryInPackage()) == Ok(Plan(
      "./target/generated-adjuncts//acme/ui", None,
      "target/jquery.js", Some("module.exports = require('jquery');"),
      [Hbsfy, ImportExport], "jquery.js"))
  {
    var b := JqueryInPackage();
    assert b.bundleOutputFile == "jquery.js";
    assert HasDestination(b) && !b.bundleAsJenkinsModule && b.bundleInDir == "" && b.bundleDependencyModule;
    assert AdjunctBasePath + "/" + b.bundleToAdjunctPackageDir == "./target/generated-adjuncts//acme/ui";
    assert "target/" + b.bundleOutputFile == "target/jquery.js";
    assert EntryText("jquery") == "module.exports = require('jquery');";
    assert UserTransforms(b) == [];
    assert PipelineTransforms(b) == [Hbsfy, ImportExport];
  }
}
