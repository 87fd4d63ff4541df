/*
 * The scanning loops of the copy-mode word motions `w`, `b` and `e`
 * (src/pane.ts:981-1040). A boundary is recognised from the two characters
 * `line.substring(n, n + 2)`: the regular expressions' classes `\w` and `\s`
 * are JsString.IsWordChar and JsString.IsSpace.
 */
module WordMotion {
  import opened JsString

  /** A two-character window matching `/\W\w/`, `/\w[^\w\s]/` or `/\s\S/`: the second
      character starts a word, a run of punctuation, or anything after a space. */
  predicate StartsWord(p: string)
  {
    |p| == 2 &&
      (|| (!IsWordChar(p[0]) && IsWordChar(p[1]))
       || (IsWordChar(p[0]) && !IsWordChar(p[1]) && !IsSpace(p[1]))
       || (IsSpace(p[0]) && !IsSpace(p[1])))
  }

  /** A two-character window matching `/\w\W/`, `/[^\w\s]\w/` or `/\S\s/`: the first
      character ends a word, a run of punctuation, or anything before a space. */
  predicate EndsWord(p: string)
  {
    |p| == 2 &&
      (|| (IsWordChar(p[0]) && !IsWordChar(p[1]))
       || (!IsWordChar(p[0]) && !IsSpace(p[0]) && IsWordChar(p[1]))
       || (!IsSpace(p[0]) && IsSpace(p[1])))
  }

  /** The window at column k starts a word. */
  predicate StartsWordAt(line: string, k: int)
  {
    StartsWord(Substring(line, k, k + 2))
  }

  /** The window at column k ends a word. */
  predicate EndsWordAt(line: string, k: int)
  {
    EndsWord(Substring(line, k, k + 2))
  }

  /** Whether the window at each column starts a word. */
  function WordStarts(line: string): int -> bool
  {
    k => StartsWordAt(line, k)
  }

  /** Whether the window at each column ends a word. */
  function WordEnds(line: string): int -> bool
  {
    k => EndsWordAt(line, k)
  }

  /** The first column k from n on, below hi, where hit(k) holds, plus one; hi when
      there is none. */
  function FirstHit(hit: int -> bool, n: int, hi: int): (r: int)
    ensures n >= hi ==> r == n
    ensures n < hi ==> n < r <= hi
    decreases hi - n
  {
    if n >= hi then n
    else if hit(n) then n + 1
    else FirstHit(hit, n + 1, hi)
  }

  /** FirstHit passes no column where hit holds, and stops just after one unless it
      reaches hi. */
  lemma {:induction false} FirstHitStops(hit: int -> bool, n: int, hi: int)
    requires n < hi
    ensures var r := FirstHit(hit, n, hi);
      && (forall k :: n <= k < r - 1 ==> !hit(k))
      && (r < hi ==> hit(r - 1))
    decreases hi - n
  {
    if !hit(n) && n + 1 < hi {
      FirstHitStops(hit, n + 1, hi);
    }
  }

  /** Counting down from n: the column just before the last column k <= n - 2 where
      hit(k) holds, or 0 when there is none. */
  function LastHit(hit: int -> bool, n: int): (r: int)
    ensures n <= 0 ==> r == n
    ensures n > 0 ==> 0 <= r < n
    decreases n
  {
    if n <= 0 then n
    else if hit(n - 2) then n - 1
    else LastHit(hit, n - 1)
  }

  /** LastHit passes no column where hit holds, and stops just after one unless it
      reaches 0. */
  lemma {:induction false} LastHitStops(hit: int -> bool, n: int)
    requires n > 0
    ensures var r := LastHit(hit, n);
      && (forall k :: r - 1 < k <= n - 2 ==> !hit(k))
      && (r > 0 ==> hit(r - 1))
    decreases n
  {
    if !hit(n - 2) && n - 1 > 0 {
      LastHitStops(hit, n - 1);
    }
  }

  /** The first column after n where hit holds, or hi - 1. */
  function NextHit(hit: int -> bool, n: int, hi: int): (r: int)
    ensures n >= hi ==> r == n
    ensures n < hi - 1 ==> n < r <= hi - 1
    ensures n == hi - 1 ==> r == n
    decreases hi - n
  {
    if n >= hi then n
    else if n + 1 == hi then n
    else if hit(n + 1) then n + 1
    else NextHit(hit, n + 1, hi)
  }

  /** NextHit passes no column where hit holds, and stops on one unless it reaches
      hi - 1. */
  lemma {:induction false} NextHitStops(hit: int -> bool, n: int, hi: int)
    requires n < hi
    ensures var r := NextHit(hit, n, hi);
      && (forall k :: n < k < r ==> !hit(k))
      && (n < hi - 1 && r < hi - 1 ==> hit(r))
    decreases hi - n
  {
    if n + 1 < hi && !hit(n + 1) {
      NextHitStops(hit, n + 1, hi);
    }
  }

  /** The loop of `w` from column n: the column just after the first window at n or
      later that starts a word, or the end of the line when there is none. */
  function ScanForward(line: string, n: int): (r: int)
    ensures n >= |line| ==> r == n
    ensures n < |line| ==> n < r <= |line|
  {
    FirstHit(WordStarts(line), n, |line|)
  }

  /** `w` stops just after the first window that starts a word: no window before it does,
      and when it stops before the end of the line the window it passed does. */
  lemma ScanForwardStops(line: string, n: int)
    requires n < |line|
    ensures var r := ScanForward(line, n);
      && (forall k :: n <= k < r - 1 ==> !StartsWordAt(line, k))
      && (r < |line| ==> StartsWordAt(line, r - 1))
      && (r == |line| ==> forall k :: n <= k < |line| ==> !StartsWordAt(line, k))
  {
    var r := ScanForward(line, n);
    FirstHitStops(WordStarts(line), n, |line|);
    forall k | n <= k < r - 1 ensures !StartsWordAt(line, k) {
      assert !WordStarts(line)(k);
    }
    if r < |line| {
      assert WordStarts(line)(r - 1);
    } else {
      assert !StartsWordAt(line, |line| - 1);
    }
  }

  /** The loop of `b` from column n: the column just before the last window ending at n
      or earlier that starts a word, or 0 when there is none. */
  function ScanBackward(line: string, n: int): (r: int)
    ensures n <= 0 ==> r == n
    ensures n > 0 ==> 0 <= r < n
  {
    LastHit(WordStarts(line), n)
  }

  /** `b` stops just before the last window that starts a word: no window after it up to
      n does, and when it stops after column 0 the window it passed does. */
  lemma ScanBackwardStops(line: string, n: int)
    requires n > 0
    ensures var r := ScanBackward(line, n);
      && (forall k :: r - 1 < k <= n - 2 ==> !StartsWordAt(line, k))
      && (r > 0 ==> StartsWordAt(line, r - 1))
  {
    var r := ScanBackward(line, n);
    LastHitStops(WordStarts(line), n);
    forall k | r - 1 < k <= n - 2 ensures !StartsWordAt(line, k) {
      assert !WordStarts(line)(k);
    }
    if r > 0 {
      assert WordStarts(line)(r - 1);
    }
  }

  /** The loop of `e` from column n: the first column after n whose window ends a word,
      or the last column of the line. */
  function ScanToEnd(line: string, n: int): (r: int)
    ensures n >= |line| ==> r == n
    ensures n < |line| - 1 ==> n < r <= |line| - 1
    ensures n == |line| - 1 ==> r == n
  {
    NextHit(WordEnds(line), n, |line|)
  }

  /** `e` stops on the first window after n that ends a word: none between n and it does,
      and when it stops before the last column its window does. */
  lemma ScanToEndStops(line: string, n: int)
    requires n < |line|
    ensures var r := ScanToEnd(line, n);
      && (forall k :: n < k < r ==> !EndsWordAt(line, k))
      && (n < |line| - 1 && r < |line| - 1 ==> EndsWordAt(line, r))
  {
    var r := ScanToEnd(line, n);
    NextHitStops(WordEnds(line), n, |line|);
    forall k | n < k < r ensures !EndsWordAt(line, k) {
      assert !WordEnds(line)(k);
    }
    if n < |line| - 1 && r < |line| - 1 {
      assert WordEnds(line)(r);
    }
  }

  /** The loop of `w`: step right until past a window that starts a word, or to the end
      of the line. */
  method ForwardLoop(line: string, x: int) returns (n: int)
    ensures n == ScanForward(line, x)
  {
    n := x;
    while n < |line|
      invariant ScanForward(line, n) == ScanForward(line, x)
      decreases |line| - n
    {
      if StartsWord(Substring(line, n, n + 2)) {
        n := n + 1;
        return;
      }
      n := n + 1;
    }
  }

  /** The loop of `b`: step left until past a window that starts a word, or to column 0. */
  method BackwardLoop(line: string, x: int) returns (n: int)
    ensures n == ScanBackward(line, x)
  {
    n := x;
    while n > 0
      invariant ScanBackward(line, n) == ScanBackward(line, x)
      decreases n
    {
      if StartsWord(Substring(line, n - 2, n)) {
        n := n - 1;
        return;
      }
      n := n - 1;
    }
  }

  /** The loop of `e`: step right until a window that ends a word, stopping on the last
      column of the line. */
  method ToEndLoop(line: string, x: int) returns (n: int)
    ensures n == ScanToEnd(line, x)
  {
    n := x;
    while n < |line|
      invariant ScanToEnd(line, n) == ScanToEnd(line, x)
      decreases |line| - n
    {
      n := n + 1;
      if n == |line| {
        n := n - 1;
        return;
      }
      if EndsWord(Substring(line, n, n + 2)) {
        return;
      }
    }
  }
}
