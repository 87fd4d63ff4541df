/*
 * The JavaScript string operations copy mode relies on, with the language's
 * own rules for out-of-range and negative positions: `trimEnd`, `indexOf`,
 * `lastIndexOf`, `slice`, `substring` and `join`, and the character classes
 * `\s` and `\w` of its regular expressions.
 */
module JsString {

  /** JavaScript white space and line terminators, as `\s` and `trimEnd` see them. */
  predicate IsSpace(c: char)
  {
    || c == ' ' || c == '\t' || c == '\n' || c == '\r' || c == '\U{000B}' || c == '\U{000C}'
    || c == '\U{00A0}' || c == '\U{1680}' || ('\U{2000}' <= c <= '\U{200A}')
    || c == '\U{2028}' || c == '\U{2029}' || c == '\U{202F}' || c == '\U{205F}'
    || c == '\U{3000}' || c == '\U{FEFF}'
  }

  /** The class `\w`: ASCII letters, digits and the underscore. */
  predicate IsWordChar(c: char)
  {
    ('a' <= c <= 'z') || ('A' <= c <= 'Z') || ('0' <= c <= '9') || c == '_'
  }

  function Min(x: int, y: int): int { if x <= y then x else y }

  function Max(x: int, y: int): int { if x >= y then x else y }

  /** `s.trimEnd()`: s without its trailing white space. */
  function TrimEnd(s: string): (r: string)
    ensures |r| <= |s| && r == s[..|r|]
    ensures r == [] || !IsSpace(r[|r| - 1])
    ensures forall i :: |r| <= i < |s| ==> IsSpace(s[i])
  {
    if s != [] && IsSpace(s[|s| - 1]) then TrimEnd(s[..|s| - 1]) else s
  }

  /** pat occurs in s at index k. */
  predicate MatchAt(s: string, pat: string, k: int)
  {
    0 <= k && k + |pat| <= |s| && s[k..k + |pat|] == pat
  }

  /** The first occurrence of pat at index k or later, or -1. */
  function IndexFrom(s: string, pat: string, k: nat): (r: int)
    ensures r == -1 || (k <= r && MatchAt(s, pat, r))
    ensures forall j :: k <= j && (r == -1 || j < r) ==> !MatchAt(s, pat, j)
    decreases |s| - k
  {
    if k + |pat| > |s| then -1
    else if s[k..k + |pat|] == pat then k
    else IndexFrom(s, pat, k + 1)
  }

  /** The last occurrence of pat at index k or earlier, or -1. */
  function LastIndexFrom(s: string, pat: string, k: int): (r: int)
    ensures r == -1 || (0 <= r <= k && MatchAt(s, pat, r))
    ensures forall j :: r < j <= k ==> !MatchAt(s, pat, j)
    decreases k
  {
    if k < 0 then -1
    else if MatchAt(s, pat, k) then k
    else LastIndexFrom(s, pat, k - 1)
  }

  /** `s.indexOf(pat, from)`: the search starts at from clamped to [0, |s|]. */
  function IndexOf(s: string, pat: string, from: int): (r: int)
    ensures pat != [] && 0 <= from ==>
      || (r == -1 && forall j :: from <= j ==> !MatchAt(s, pat, j))
      || (from <= r && MatchAt(s, pat, r) && forall j :: from <= j < r ==> !MatchAt(s, pat, j))
  {
    IndexFrom(s, pat, Min(Max(from, 0), |s|))
  }

  /** `s.lastIndexOf(pat, from)`: the search starts at from clamped to [0, |s|], so a
      negative from looks at index 0 only. */
  function LastIndexOf(s: string, pat: string, from: int): (r: int)
    ensures 0 <= from ==>
      || (r == -1 && forall j :: j <= from ==> !MatchAt(s, pat, j))
      || (0 <= r <= from && MatchAt(s, pat, r) && forall j :: r < j <= from ==> !MatchAt(s, pat, j))
  {
    LastIndexFrom(s, pat, Min(Max(from, 0), |s|))
  }

  /** A position argument of `slice`: a negative one counts from the end. */
  function SlicePos(n: int, len: nat): (r: nat)
    ensures r <= len
  {
    if n < 0 then Max(len + n, 0) else Min(n, len)
  }

  /** `s.slice(start, end)`. */
  function Slice(s: string, start: int, end: int): (r: string)
    ensures 0 <= start <= end <= |s| ==> r == s[start..end]
    ensures |r| <= |s|
  {
    var from, to := SlicePos(start, |s|), SlicePos(end, |s|);
    if from < to then s[from..to] else []
  }

  /** `s.substring(a, b)`: both ends clamped to [0, |s|], swapped when a > b. */
  function Substring(s: string, a: int, b: int): (r: string)
    ensures |r| <= |s|
  {
    var x, y := Min(Max(a, 0), |s|), Min(Max(b, 0), |s|);
    if x <= y then s[x..y] else s[y..x]
  }

  /** `ls.join(sep)`. */
  function Join(ls: seq<string>, sep: string): string
  {
    if ls == [] then []
    else if |ls| == 1 then ls[0]
    else ls[0] + sep + Join(ls[1..], sep)
  }

  /** `s.split(c)` for a one-character separator: the pieces between the separators, so
      one more piece than there are separators. */
  function SplitOn(s: string, c: char): (r: seq<string>)
    ensures |r| >= 1
    decreases |s|
  {
    if s == [] then [[]]
    else
      var rest := SplitOn(s[1..], c);
      if s[0] == c then [[]] + rest else [[s[0]] + rest[0]] + rest[1..]
  }

  /** A piece without the separator splits into itself, and one followed by the separator
      comes off as the first piece. */
  lemma {:induction false} SplitOnPiece(a: string, b: string, c: char)
    requires c !in a
    ensures SplitOn(a, c) == [a]
    ensures SplitOn(a + [c] + b, c) == [a] + SplitOn(b, c)
    decreases |a|
  {
    if a != [] {
      assert (a + [c] + b)[1..] == a[1..] + [c] + b;
      assert a == [a[0]] + a[1..];
      SplitOnPiece(a[1..], b, c);
    } else {
      assert a + [c] + b == [c] + b;
    }
  }

  /** Splitting the joined lines at the separator gives the lines back, as long as no line
      contains it. */
  lemma {:induction false} SplitJoin(ls: seq<string>, c: char)
    requires ls != []
    requires forall k :: 0 <= k < |ls| ==> c !in ls[k]
    ensures SplitOn(Join(ls, [c]), c) == ls
    decreases |ls|
  {
    if |ls| == 1 {
      SplitOnPiece(ls[0], [], c);
    } else {
      SplitOnPiece(ls[0], Join(ls[1..], [c]), c);
      SplitJoin(ls[1..], c);
      assert ls == [ls[0]] + ls[1..];
    }
  }

  /** Every character of a slice comes from the string. */
  lemma SliceFrom(s: string, start: int, end: int, ch: char)
    requires ch in Slice(s, start, end)
    ensures ch in s
  {
    var from, to := SlicePos(start, |s|), SlicePos(end, |s|);
    if from < to {
      var i :| 0 <= i < to - from && s[from..to][i] == ch;
      assert s[from + i] == ch;
    }
  }
}
