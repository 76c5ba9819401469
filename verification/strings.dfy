/** The few underscore.string helpers the build helper relies on, with the
    semantics of that library: `lastIndexOf`-based `strLeftBack`/`strRightBack`,
    character-set `ltrim`/`rtrim`, and a global single-character `replaceAll`. */
module Strings {

  /** `sep` occurs in `s` starting at index `i`. */
  predicate IsAt(s: string, sep: string, i: int) {
    0 <= i && i + |sep| <= |s| && s[i..i + |sep|] == sep
  }

  /** `sep` occurs somewhere in `s`. */
  predicate Occurs(s: string, sep: string) {
    exists i | 0 <= i <= |s| :: IsAt(s, sep, i)
  }

  predicate IsPrefix(p: string, s: string) {
    |p| <= |s| && s[..|p|] == p
  }

  predicate IsSuffix(p: string, s: string) {
    |p| <= |s| && s[|s| - |p|..] == p
  }

  /** The last index at or below `from` where `sep` occurs in `s`, or -1. */
  function LastIndexFrom(s: string, sep: string, from: int): (r: int)
    ensures r == -1 || (0 <= r <= from && IsAt(s, sep, r))
    ensures forall i :: r < i <= from ==> !IsAt(s, sep, i)
    decreases if from < 0 then 0 else from + 1
  {
    if from < 0 then -1
    else if IsAt(s, sep, from) then from
    else LastIndexFrom(s, sep, from - 1)
  }

  /** JavaScript's `String.prototype.lastIndexOf`: -1 when `sep` does not occur. */
  function LastIndexOf(s: string, sep: string): (r: int)
    ensures r == -1 || IsAt(s, sep, r)
    ensures forall i :: r < i ==> !IsAt(s, sep, i)
    ensures r == -1 <==> !Occurs(s, sep)
  {
    LastIndexFrom(s, sep, |s| - |sep|)
  }

  /** An occurrence of `sep` inside the suffix `s[k..]` is an occurrence in `s` at or after `k`. */
  lemma OccursInSuffix(s: string, sep: string, k: nat, j: int)
    requires k <= |s|
    requires IsAt(s[k..], sep, j)
    ensures IsAt(s, sep, k + j)
  {
    assert s[k..][j..j + |sep|] == s[k + j..k + j + |sep|];
  }

  /** An occurrence of `sep` inside the prefix `s[..k]` is an occurrence in `s`. */
  lemma OccursInPrefix(s: string, sep: string, k: nat, j: int)
    requires k <= |s|
    requires IsAt(s[..k], sep, j)
    ensures IsAt(s, sep, j)
  {
    assert s[..k][j..j + |sep|] == s[j..j + |sep|];
  }

  /** Past the last occurrence of a non-empty `sep`, the rest of `s` holds no `sep`. */
  lemma NothingAfterLast(s: string, sep: string, pos: int)
    requires sep != "" && pos == LastIndexOf(s, sep) && pos != -1
    ensures !Occurs(s[pos + |sep|..], sep)
    ensures IsSuffix(sep + s[pos + |sep|..], s)
  {
    var r := s[pos + |sep|..];
    forall j | IsAt(r, sep, j) ensures false {
      OccursInSuffix(s, sep, pos + |sep|, j);
    }
    assert |s| - |sep + r| == pos;
    assert s[pos..] == s[pos..pos + |sep|] + s[pos + |sep|..];
    assert s[pos..pos + |sep|] == sep;
  }

  /** underscore.string `strRightBack`: the text after the last `sep`, or all of `s`
      when `sep` is empty or absent. */
  function StrRightBack(s: string, sep: string): (r: string)
    ensures IsSuffix(r, s)
    ensures sep != "" ==> !Occurs(r, sep)
    ensures sep != "" && Occurs(s, sep) ==> IsSuffix(sep + r, s)
    ensures sep != "" && Occurs(s, sep) ==> forall i :: |s| - |r| - |sep| < i ==> !IsAt(s, sep, i)
    ensures sep == "" || !Occurs(s, sep) ==> r == s
  {
    var pos := if sep == "" then -1 else LastIndexOf(s, sep);
    if pos != -1 then
      NothingAfterLast(s, sep, pos);
      s[pos + |sep|..]
    else
      s
  }

  /** underscore.string `strLeftBack`: the text before the last occurrence of `sep`
      anywhere in `s` (not only as a suffix), or all of `s` when `sep` is absent. */
  function StrLeftBack(s: string, sep: string): (r: string)
    ensures IsPrefix(r, s)
    ensures !Occurs(s, sep) ==> r == s
    ensures Occurs(s, sep) ==> IsAt(s, sep, |r|) && forall i :: |r| < i ==> !IsAt(s, sep, i)
  {
    var pos := LastIndexOf(s, sep);
    if pos != -1 then s[..pos] else s
  }

  /** The end of the run of characters from `chars` that starts at index `i`. */
  function RunEnd(s: string, chars: set<char>, i: nat): (r: nat)
    requires i <= |s|
    ensures i <= r <= |s|
    ensures forall k :: i <= k < r ==> s[k] in chars
    ensures r < |s| ==> s[r] !in chars
    decreases |s| - i
  {
    if i < |s| && s[i] in chars then RunEnd(s, chars, i + 1) else i
  }

  /** The start of the run of characters from `chars` that ends just before index `j`. */
  function RunStart(s: string, chars: set<char>, j: nat): (r: nat)
    requires j <= |s|
    ensures r <= j
    ensures forall k :: r <= k < j ==> s[k] in chars
    ensures r > 0 ==> s[r - 1] !in chars
  {
    if j > 0 && s[j - 1] in chars then RunStart(s, chars, j - 1) else j
  }

  /** underscore.string `ltrim(s, chars)`: drops the longest leading run of
      characters that belong to the set `chars`. */
  function TrimStart(s: string, chars: set<char>): (r: string)
    ensures IsSuffix(r, s)
    ensures |r| > 0 ==> r[0] !in chars
    ensures forall i :: 0 <= i < |s| - |r| ==> s[i] in chars
  {
    s[RunEnd(s, chars, 0)..]
  }

  /** underscore.string `rtrim(s, chars)`: drops the longest trailing run of
      characters that belong to the set `chars`. */
  function TrimEnd(s: string, chars: set<char>): (r: string)
    ensures IsPrefix(r, s)
    ensures |r| > 0 ==> r[|r| - 1] !in chars
    ensures forall i :: |r| <= i < |s| ==> s[i] in chars
  {
    s[..RunStart(s, chars, |s|)]
  }

  /** A leading trim removes nothing when the first character is not in the set. */
  lemma TrimStartKeeps(s: string, chars: set<char>)
    requires |s| == 0 || s[0] !in chars
    ensures TrimStart(s, chars) == s
  {
    assert RunEnd(s, chars, 0) == 0;
  }

  /** A trailing trim removes nothing when the last character is not in the set. */
  lemma TrimEndKeeps(s: string, chars: set<char>)
    requires |s| == 0 || s[|s| - 1] !in chars
    ensures TrimEnd(s, chars) == s
  {
    assert RunStart(s, chars, |s|) == |s|;
  }

  /** underscore.string `replaceAll` with a one-character pattern: every `from`
      becomes `to`, everything else is kept in place. */
  function ReplaceChar(s: string, from: char, to: char): (r: string)
    ensures |r| == |s|
    ensures forall i :: 0 <= i < |s| ==> r[i] == (if s[i] == from then to else s[i])
  {
    if |s| == 0 then [] else [if s[0] == from then to else s[0]] + ReplaceChar(s[1..], from, to)
  }

  /** The items of `xs` separated by `sep`, as JavaScript's `Array.prototype.join`. */
  function Join(xs: seq<string>, sep: string): string {
    if |xs| == 0 then ""
    else if |xs| == 1 then xs[0]
    else xs[0] + sep + Join(xs[1..], sep)
  }

  /** Joining one more item appends the separator and the item. */
  lemma {:induction false} JoinSnoc(xs: seq<string>, x: string, sep: string)
    requires |xs| > 0
    ensures Join(xs + [x], sep) == Join(xs, sep) + sep + x
    decreases |xs|
  {
    if |xs| == 1 {
      assert xs + [x] == [xs[0], x];
      assert ([xs[0], x])[1..] == [x];
    } else {
      assert (xs + [x])[1..] == xs[1..] + [x];
      JoinSnoc(xs[1..], x, sep);
    }
  }
}
