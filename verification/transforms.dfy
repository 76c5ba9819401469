/** The two source rewrites the bundle task adds to each pipeline: the
    module-mapping `require` rewrite, decided per evaluated `require` argument,
    and the one-shot import/export injection. */
module Transforms {
  import opened Wrappers
  import opened Strings
  import opened Bundles

  /** The call a matched mapping puts in place of the original `require`: its
      override when it has one, else a runtime lookup of its `to` name. */
  function Replacement(m: Mapping): string {
    if m.require != "" then "require('" + m.require + "')"
    else "require('jenkins-js-modules').require('" + m.to + "')"
  }

  /** `k` is the first mapping whose `from` is `required`. */
  predicate IsFirstMatch(ms: seq<Mapping>, required: string, k: int) {
    0 <= k < |ms| && ms[k].from == required && forall j :: 0 <= j < k ==> ms[j].from != required
  }

  /** The rewrite of one `require(required)` call: the first mapping whose `from`
      equals the argument decides; with no such mapping the call stays as it is. */
  function RequireDecision(ms: seq<Mapping>, required: string): (r: Option<string>)
    ensures r.None? <==> forall j :: 0 <= j < |ms| ==> ms[j].from != required
    ensures r.Some? ==> exists k :: IsFirstMatch(ms, required, k) && r.value == Replacement(ms[k])
  {
    if |ms| == 0 then None
    else if ms[0].from == required then
      assert IsFirstMatch(ms, required, 0);
      Some(Replacement(ms[0]))
    else
      var r := RequireDecision(ms[1..], required);
      if r.Some? then
        var k :| IsFirstMatch(ms[1..], required, k) && r.value == Replacement(ms[1..][k]);
        assert IsFirstMatch(ms, required, k + 1);
        r
      else
        r
  }

  /** The callback of the require transform, as the source's loop over the mappings. */
  method RewriteRequire(ms: seq<Mapping>, required: string) returns (r: Option<string>)
    ensures r == RequireDecision(ms, required)
  {
    var i := 0;
    while i < |ms|
      invariant 0 <= i <= |ms|
      invariant RequireDecision(ms, required) == RequireDecision(ms[i..], required)
    {
      if ms[i].from == required {
        return Some(Replacement(ms[i]));
      }
      assert ms[i..][1..] == ms[i + 1..];
      i := i + 1;
    }
    return None;
  }

  /** A mapping registered for a name no earlier mapping claims decides every
      `require` of that name. */
  lemma AppendedMappingDecides(b: Bundle, from: string, to: string, require: string)
    requires WithExternalModuleMapping(b, from, to, require).Ok?
    requires forall j :: 0 <= j < |b.moduleMappings| ==> b.moduleMappings[j].from != from
    ensures var ms := WithExternalModuleMapping(b, from, to, require).value.moduleMappings;
            RequireDecision(ms, from) == Some(Replacement(ms[|ms| - 1]))
  {
    var ms := WithExternalModuleMapping(b, from, to, require).value.moduleMappings;
    var n := |b.moduleMappings|;
    assert |ms| == n + 1 && ms[..n] == b.moduleMappings;
    assert forall j :: 0 <= j < n ==> ms[j] == b.moduleMappings[j];
    assert IsFirstMatch(ms, from, n);
    forall k | IsFirstMatch(ms, from, k) ensures k == n {
      FirstMatchUnique(ms, from, k, n);
    }
  }

  /** There is at most one first match. */
  lemma FirstMatchUnique(ms: seq<Mapping>, required: string, k1: int, k2: int)
    requires IsFirstMatch(ms, required, k1) && IsFirstMatch(ms, required, k2)
    ensures k1 == k2
  {
  }

  /** The quoted `to` names of the mappings, in order. */
  function QuotedTargets(ms: seq<Mapping>): (r: seq<string>)
    ensures |r| == |ms|
    ensures forall i :: 0 <= i < |ms| ==> r[i] == "'" + ms[i].to + "'"
  {
    seq(|ms|, i requires 0 <= i < |ms| => "'" + ms[i].to + "'")
  }

  /** The argument list of the generated `.import(...)` call. */
  function ImportList(ms: seq<Mapping>): string {
    Join(QuotedTargets(ms), ", ")
  }

  /** A join of non-empty items is empty exactly when there are no items. */
  lemma {:induction false} JoinEmptyIff(xs: seq<string>, sep: string)
    requires forall i :: 0 <= i < |xs| ==> xs[i] != ""
    ensures Join(xs, sep) == "" <==> |xs| == 0
    decreases |xs|
  {
    if |xs| > 1 {
      assert |Join(xs, sep)| >= |xs[0]|;
    }
  }

  /** The import list is empty exactly when there are no mappings. */
  lemma ImportListEmptyIff(ms: seq<Mapping>)
    ensures ImportList(ms) == "" <==> |ms| == 0
  {
    JoinEmptyIff(QuotedTargets(ms), ", ");
  }

  /** The source's loop that builds the import list, adding ", " before every
      item but the first. */
  method BuildImports(ms: seq<Mapping>) returns (imports: string)
    ensures imports == ImportList(ms)
    ensures imports == "" <==> |ms| == 0
  {
    var qs := QuotedTargets(ms);
    imports := "";
    var i := 0;
    while i < |ms|
      invariant 0 <= i <= |ms|
      invariant imports == Join(qs[..i], ", ")
      invariant imports == "" <==> i == 0
    {
      if |imports| > 0 {
        imports := imports + ", ";
      }
      imports := imports + "'" + ms[i].to + "'";
      assert qs[..i + 1] == qs[..i] + [qs[i]];
      if i > 0 {
        JoinSnoc(qs[..i], qs[i], ", ");
      } else {
        assert qs[..1] == [qs[0]];
      }
      i := i + 1;
    }
    assert qs[..|ms|] == qs;
    ImportListEmptyIff(ms);
  }

  /** The namespace argument of the export call: the plugin id quoted, or the
      global namespace `undefined`. */
  function ExportNamespace(b: Bundle): string {
    if b.bundleExportPlugin != "" then "'" + b.bundleExportPlugin + "'" else "undefined"
  }

  /** The module argument of the export call: the module itself only when the
      bundle was exported, else an empty placeholder object. */
  function ExportModule(b: Bundle): string {
    if b.bundleExport then "module" else "{}"
  }

  function ExportStatement(b: Bundle): string {
    "\t\trequire('jenkins-js-modules').export(" + ExportNamespace(b) + ", '" + b.asName + "', " + ExportModule(b) + ");"
  }

  /** The stylesheet is registered for the page only for an exported plugin
      bundle that has a less source. */
  predicate AddsCss(b: Bundle) {
    b.bundleExportPlugin != "" && b.lessSrcPath != ""
  }

  function CssStatement(b: Bundle): string {
    "\t\trequire('jenkins-js-modules').addModuleCSSToPage('" + b.bundleExportPlugin + "', '" + b.asName + "');"
  }

  /** Everything appended after the original content. */
  function Appendix(b: Bundle): string {
    "\n" + ExportStatement(b) + (if AddsCss(b) then "\n" + CssStatement(b) else "")
  }

  function ImportHeader(imports: string): string {
    "require('jenkins-js-modules')\n    .import(" + imports + ")\n    .onFulfilled(function() {\n\n"
  }

  const ImportFooter: string := "\n    });\n"

  /** The import/export injection applied to one content string. With mappings
      the result opens with the `.import(...)` of every mapped name and closes
      the `onFulfilled` callback, so nothing in it runs before those imports;
      without mappings the original content comes first and runs at once. */
  function Inject(b: Bundle, content: string): (r: string)
    ensures |b.moduleMappings| == 0 ==> IsPrefix(content, r)
    ensures |b.moduleMappings| > 0 ==>
      IsPrefix(ImportHeader(ImportList(b.moduleMappings)), r) && IsSuffix(ImportFooter, r)
    ensures IsSuffix(Appendix(b) + (if |b.moduleMappings| > 0 then ImportFooter else ""), r)
  {
    var c := content + Appendix(b);
    var imports := ImportList(b.moduleMappings);
    ImportListEmptyIff(b.moduleMappings);
    if |imports| > 0 then
      var r := ImportHeader(imports) + c + ImportFooter;
      assert r == ImportHeader(imports) + content + (Appendix(b) + ImportFooter);
      r
    else
      c
  }

  /** Recovers the original content from an injected string: the inverse of `Inject`. */
  function Unwrap(b: Bundle, r: string): Option<string> {
    var tail := Appendix(b);
    var inner :=
      if |b.moduleMappings| == 0 then Some(r)
      else
        var h := ImportHeader(ImportList(b.moduleMappings));
        if |h| + |ImportFooter| <= |r| && IsPrefix(h, r) && IsSuffix(ImportFooter, r)
        then Some(r[|h|..|r| - |ImportFooter|])
        else None;
    if inner.Some? && IsSuffix(tail, inner.value)
    then Some(inner.value[..|inner.value| - |tail|])
    else None
  }

  /** The injection keeps the original content verbatim, in front of the export call. */
  lemma InjectRoundTrip(b: Bundle, content: string)
    ensures Unwrap(b, Inject(b, content)) == Some(content)
  {
    var c := content + Appendix(b);
    var tail := Appendix(b);
    ImportListEmptyIff(b.moduleMappings);
    if |b.moduleMappings| > 0 {
      var h := ImportHeader(ImportList(b.moduleMappings));
      var r := h + c + ImportFooter;
      assert r[..|h|] == h;
      assert r[|r| - |ImportFooter|..] == ImportFooter;
      assert r[|h|..|r| - |ImportFooter|] == c;
    }
    assert c[|c| - |tail|..] == tail;
    assert c[..|c| - |tail|] == content;
  }

  /** One call of the string transform's callback: the first call injects, every
      later call passes its content through, and the flag is set either way. */
  function Step(applied: bool, b: Bundle, content: string): (r: (bool, string))
    ensures r.0
    ensures applied ==> r.1 == content
    ensures !applied ==> Unwrap(b, r.1) == Some(content)
  {
    InjectRoundTrip(b, content);
    if applied then (true, content) else (true, Inject(b, content))
  }

  /** The callback run over the successive contents one pipeline run feeds it. */
  function Run(applied: bool, b: Bundle, contents: seq<string>): (out: seq<string>)
    ensures |out| == |contents|
    decreases |contents|
  {
    if |contents| == 0 then []
    else
      var s := Step(applied, b, contents[0]);
      [s.1] + Run(s.0, b, contents[1..])
  }

  /** Once applied, the callback is the identity on every later content. */
  lemma {:induction false} RunAfterApplied(b: Bundle, contents: seq<string>)
    ensures Run(true, b, contents) == contents
    decreases |contents|
  {
    if |contents| > 0 {
      RunAfterApplied(b, contents[1..]);
    }
  }

  /** Only the first content of a run is injected; all later ones pass unchanged. */
  lemma InjectedOnlyOnce(b: Bundle, contents: seq<string>)
    requires |contents| > 0
    ensures Run(false, b, contents)[0] == Inject(b, contents[0])
    ensures Run(false, b, contents)[1..] == contents[1..]
  {
    RunAfterApplied(b, contents[1..]);
  }
}
