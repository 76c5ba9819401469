/** Path and package-name helpers and the two fixed output base directories. */
module Paths {
  import opened Strings

  /** Base directory for bundles placed in an adjunct package. */
  const AdjunctBasePath: string := "./target/generated-adjuncts/"

  /** Base directory for bundles packaged as Jenkins module resources. */
  const JsModulesBasePath: string := "./target/classes/assets/"

  /** The characters `normalizePath` strips from the front, and from the back. */
  const DotOrSlash: set<char> := {'.', '/'}
  const Slash: set<char> := {'/'}

  /** `path` is `r` with a leading run of characters from `lead` before it and
      a trailing run of characters from `trail` after it, `r` starting at index `i`. */
  predicate TrimmedAt(path: string, r: string, i: int, lead: set<char>, trail: set<char>) {
    && IsAt(path, r, i)
    && (forall k :: 0 <= k < i ==> path[k] in lead)
    && (forall k :: i + |r| <= k < |path| ==> path[k] in trail)
  }

  /** `normalizePath`: strips every leading '.' and '/' character (a character
      set, not the literal prefix "./") and then every trailing '/'. */
  function NormalizePath(path: string): string {
    TrimEnd(TrimStart(TrimStart(path, DotOrSlash), Slash), Slash)
  }

  /** The normalised path is the part of `path` left between a leading run of
      '.'/'/' characters and a trailing run of '/' characters, and it neither
      starts with '.' or '/' nor ends with '/'. */
  lemma NormalizePathSpec(path: string)
    ensures var r := NormalizePath(path);
      && (|r| > 0 ==> r[0] != '.' && r[0] != '/' && r[|r| - 1] != '/')
      && exists i | 0 <= i <= |path| :: TrimmedAt(path, r, i, DotOrSlash, Slash)
  {
    NormalizeEnds(path);
    NormalizeWitness(path);
  }

  /** The normalised path neither starts with '.' or '/' nor ends with '/'. */
  lemma NormalizeEnds(path: string)
    ensures var r := NormalizePath(path);
      |r| > 0 ==> r[0] != '.' && r[0] != '/' && r[|r| - 1] != '/'
  {
    var t1 := TrimStart(path, DotOrSlash);
    var t2 := TrimStart(t1, Slash);
    NothingTrimmed(t1, t2, Slash);
  }

  /** The normalised path sits in `path` between the two trimmed runs. */
  lemma NormalizeWitness(path: string)
    ensures exists i | 0 <= i <= |path| :: TrimmedAt(path, NormalizePath(path), i, DotOrSlash, Slash)
  {
    var t1 := TrimStart(path, DotOrSlash);
    var t2 := TrimStart(t1, Slash);
    var r := TrimEnd(t2, Slash);
    assert r == NormalizePath(path);
    assert Slash <= DotOrSlash;
    NormalizeSteps(path, DotOrSlash, Slash, Slash, t1, t2, r);
    assert TrimmedAt(path, r, |path| - |t2|, DotOrSlash, Slash);
  }

  /** A second leading trim removes nothing when the first character survives it. */
  lemma NothingTrimmed(t1: string, t2: string, b: set<char>)
    requires IsSuffix(t2, t1)
    requires |t2| < |t1| ==> t1[0] in b
    requires |t1| > 0 ==> t1[0] !in b
    ensures t2 == t1
  {
  }

  /** Trimming a leading run from `a`, then one from `b` (a subset of `a`), then
      a trailing run from `c` leaves `r` at index `|path| - |t2|` of `path`. */
  lemma {:induction false} NormalizeSteps(path: string, a: set<char>, b: set<char>, c: set<char>, t1: string, t2: string, r: string)
    requires b <= a
    requires IsSuffix(t1, path) && forall k :: 0 <= k < |path| - |t1| ==> path[k] in a
    requires IsSuffix(t2, t1) && forall k :: 0 <= k < |t1| - |t2| ==> t1[k] in b
    requires IsPrefix(r, t2) && forall k :: |r| <= k < |t2| ==> t2[k] in c
    ensures TrimmedAt(path, r, |path| - |t2|, a, c)
  {
    var d1 := |path| - |t1|;
    var i := |path| - |t2|;
    assert path[d1..] == t1;
    assert t1[|t1| - |t2|..] == t2;
    assert path[i..] == t2;
    assert t2[..|r|] == r;
    forall k | 0 <= k < i ensures path[k] in a {
      if k >= d1 {
        assert path[k] == t1[k - d1];
      }
    }
    forall k | i + |r| <= k < |path| ensures path[k] in c {
      assert path[k] == t2[k - i];
    }
    assert path[i..i + |r|] == t2[..|r|];
  }

  /** Normalising a normalised path changes nothing. */
  lemma NormalizePathIdempotent(path: string)
    ensures NormalizePath(NormalizePath(path)) == NormalizePath(path)
  {
    NormalizeEnds(path);
    UntrimmedIsNormal(NormalizePath(path));
  }

  /** The normal paths, those that normalising leaves as they are, are exactly the
      empty path and the paths that start with neither '.' nor '/' and do not end with '/'. */
  lemma NormalPathIff(path: string)
    ensures NormalizePath(path) == path <==>
      (|path| == 0 || (path[0] != '.' && path[0] != '/' && path[|path| - 1] != '/'))
  {
    if |path| == 0 || (path[0] != '.' && path[0] != '/' && path[|path| - 1] != '/') {
      UntrimmedIsNormal(path);
    } else {
      NormalizeEnds(path);
    }
  }

  /** A path with nothing to trim at either end normalises to itself. */
  lemma UntrimmedIsNormal(path: string)
    requires |path| == 0 || (path[0] !in DotOrSlash && path[|path| - 1] !in Slash)
    ensures NormalizePath(path) == path
  {
    calc {
      NormalizePath(path);
      TrimEnd(TrimStart(TrimStart(path, DotOrSlash), Slash), Slash);
      { TrimStartKeeps(path, DotOrSlash); }
      TrimEnd(TrimStart(path, Slash), Slash);
      { TrimStartKeeps(path, Slash); }
      TrimEnd(path, Slash);
      { TrimEndKeeps(path, Slash); }
      path;
    }
  }

  /** A leading "./" is dropped. */
  lemma NormalizeDotSlash()
    ensures NormalizePath("./js") == "js"
  {
    assert RunEnd("./js", DotOrSlash, 2) == 2;
    assert RunEnd("./js", DotOrSlash, 0) == 2;
    assert TrimStart("./js", DotOrSlash) == "js";
    assert RunEnd("js", Slash, 0) == 0;
    assert RunStart("js", Slash, 2) == 2;
  }

  /** The character-set reading also drops a parent-directory prefix. */
  lemma NormalizeParentDir()
    ensures NormalizePath("../x") == "x"
  {
    assert RunEnd("../x", DotOrSlash, 3) == 3;
    assert RunEnd("../x", DotOrSlash, 0) == 3;
    assert TrimStart("../x", DotOrSlash) == "x";
    assert RunEnd("x", Slash, 0) == 0;
    assert RunStart("x", Slash, 1) == 1;
  }

  /** A bare "./" normalises to the empty, falsy, path. */
  lemma NormalizeCurrentDir()
    ensures NormalizePath("./") == ""
  {
    assert RunEnd("./", DotOrSlash, 0) == 2;
  }

  /** `packageToPath`: a dotted Java-style package name as a directory path. */
  function PackageToPath(packageName: string): (r: string)
    ensures |r| == |packageName|
    ensures forall i :: 0 <= i < |r| ==> r[i] == (if packageName[i] == '.' then '/' else packageName[i])
    ensures '.' !in r
  {
    ReplaceChar(packageName, '.', '/')
  }
}
