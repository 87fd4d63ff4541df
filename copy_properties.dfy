/*
 * What copy mode promises, stated over CopyModel: the selection stays
 * ordered through every keystroke, the cursor motions stay on the screen's
 * grid, `$` lands on the last character of the line, a repeat count
 * performs a motion that many times, and typed digits build the count.
 */
module CopyProperties {
  import opened Options
  import opened JsString
  import opened CopyModel

  /** One keystroke, after the count, keeps every selection ordered. */
  lemma StepKeepsOrder(s: CopyState, t: Term, key: string)
    requires CursorReady(s) && SelectionOrdered(s)
    ensures SelectionOrdered(Step(s, t, key))
  {
    var f := Start(s, t);
    if f.s.lastKey == [] {
      var o := Act(f, t, key);
      assert SelectionOrdered(o.s);
    }
  }

  /** Replaying a key keeps every selection ordered. */
  lemma {:induction false} ReplayKeepsOrder(s: CopyState, t: Term, key: string, n: nat)
    requires CursorReady(s) && SelectionOrdered(s)
    ensures SelectionOrdered(Replay(s, t, key, n))
    decreases n
  {
    if n > 0 {
      StepKeepsOrder(s, t, key);
      ReplayKeepsOrder(Step(s, t, key), t, key, n - 1);
    }
  }

  /** `handleCMKey` keeps the selection's start at or before its end. */
  lemma HandleKeepsOrder(s: CopyState, t: Term, key: string)
    requires CursorReady(s) && SelectionOrdered(s)
    ensures SelectionOrdered(Handle(s, t, key))
  {
    var f := Start(s, t);
    if f.s.repetition > 0 || (IsDigitKey(key) && key != "0") {
      if !IsDigitKey(key) {
        ReplayKeepsOrder(f.s.(repetition := 0), t, key, f.s.repetition);
      }
    } else {
      StepKeepsOrder(s, t, key);
    }
  }

  /** The cells the arrow keys can reach: columns 0 to cols - 2, rows 0 to the last row
      of the bottom page. */
  predicate OnGrid(t: Term, p: Point)
  {
    0 <= p.x <= t.cols - 2 && 0 <= p.y <= t.baseY + t.rows - 1
  }

  predicate IsArrowKey(key: string)
  {
    key in ["h", "j", "k", "l", "ArrowLeft", "ArrowRight", "ArrowUp", "ArrowDown"]
  }

  /** Out of marking, with no count and nothing pending, h/j/k/l, the arrows and `0` keep
      the cursor on the grid. */
  lemma MotionsStayOnGrid(s: CopyState, t: Term, key: string)
    requires !s.marking && s.lastKey == [] && s.repetition == 0
    requires s.cursor.Some? && OnGrid(t, s.cursor.value)
    requires IsArrowKey(key) || key == "0"
    ensures var r := Handle(s, t, key);
      r.cursor.Some? && OnGrid(t, r.cursor.value) && !r.marking
  {
    assert !IsDigitKey(key) || key == "0";
    var f := Start(s, t);
    assert f.s == s;
    ArrowKeepsOnGrid(f, t, key);
  }

  /** The switch moves the position by at most one cell and keeps it on the grid. */
  lemma ArrowKeepsOnGrid(f: Focus, t: Term, key: string)
    requires f.s.cursor.Some? && OnGrid(t, Point(f.x, f.y))
    requires IsArrowKey(key) || key == "0"
    ensures var o := Act(f, t, key);
      OnGrid(t, Point(o.x, o.y)) && o.s.marking == f.s.marking && o.s.cursor == f.s.cursor
  {
    if key == "ArrowLeft" || key == "h" {
    } else if key == "ArrowRight" || key == "l" {
    } else if key == "ArrowDown" || key == "j" {
    } else if key == "ArrowUp" || key == "k" {
    } else {
      assert key == "0";
    }
  }

  /** Out of marking, `$` puts the cursor on the last character of the line that is not
      white space (column 0 on a blank line). */
  lemma DollarGoesToLastCharacter(s: CopyState, t: Term)
    requires !s.marking && s.lastKey == [] && s.repetition == 0 && s.cursor.Some?
    ensures var r, y := Handle(s, t, "$"), s.cursor.value.y;
      var line, c := Row(t, y), r.cursor.value;
      && r.cursor.Some? && c.y == y
      && (TrimEnd(line) == [] ==> c.x == 0 && forall i :: 0 <= i < |line| ==> IsSpace(line[i]))
      && (TrimEnd(line) != [] ==>
            0 <= c.x < |line| && !IsSpace(line[c.x]) && forall i :: c.x < i < |line| ==> IsSpace(line[i]))
  {
    var f := Start(s, t);
    assert f.s == s;
    var y := s.cursor.value.y;
    var line := Row(t, y);
    var tl := TrimEnd(line);
    assert tl == line[..|tl|];
    if tl != [] {
      assert tl[|tl| - 1] == line[|tl| - 1];
    }
  }

  /** While marking, `$` moves the selection's moving end just past the last character of
      its line that is not white space (column 0 on a blank line), on the same row. */
  lemma DollarWhileMarking(f: Focus, t: Term)
    requires f.s.cursor.Some? && f.s.marking
    ensures var o, line := Act(f, t, "$"), Row(t, f.y);
      && o.y == f.y && 0 <= o.x <= |line|
      && (forall i :: o.x <= i < |line| ==> IsSpace(line[i]))
      && (o.x > 0 ==> !IsSpace(line[o.x - 1]))
  {
    var line := Row(t, f.y);
    var tl := TrimEnd(line);
    assert tl == line[..|tl|];
    if tl != [] {
      assert tl[|tl| - 1] == line[|tl| - 1];
    }
  }

  /** The last row `j` can reach. */
  function Bottom(t: Term): int { t.baseY + t.rows - 1 }

  /** Out of marking, r's cursor is n rows below s's, stopping at `bottom`, in the same
      column, and r is still out of marking with no pending key. */
  predicate MovedDown(s: CopyState, r: CopyState, n: nat, bottom: int)
  {
    s.cursor.Some? && r.cursor == Some(Point(s.cursor.value.x, Min(s.cursor.value.y + n, bottom)))
    && !r.marking && r.lastKey == []
  }

  /** Replaying `j` n times out of marking moves the cursor n rows down, stopping at the
      bottom, and leaves its column alone. */
  lemma {:induction false} ReplayDown(s: CopyState, t: Term, n: nat)
    requires !s.marking && s.lastKey == [] && s.cursor.Some? && s.cursor.value.y <= Bottom(t)
    ensures MovedDown(s, Replay(s, t, "j", n), n, Bottom(t))
    decreases n
  {
    if n > 0 {
      var s1 := Step(s, t, "j");
      StepDown(s, t);
      ReplayDown(s1, t, n - 1);
      ReplayFirst(s, t, "j", n);
      DownAgain(s, s1, Replay(s1, t, "j", n - 1), n, Bottom(t));
    }
  }

  lemma ReplayFirst(s: CopyState, t: Term, key: string, n: nat)
    requires CursorReady(s) && n > 0
    ensures Replay(s, t, key, n) == Replay(Step(s, t, key), t, key, n - 1)
  {
  }

  lemma DownAgain(s: CopyState, s1: CopyState, r: CopyState, n: nat, bottom: int)
    requires n > 0 && s.cursor.Some? && s.cursor.value.y <= bottom
    requires MovedDown(s, s1, 1, bottom) && MovedDown(s1, r, n - 1, bottom)
    ensures MovedDown(s, r, n, bottom)
  {
  }

  /** Out of marking, `j` moves the cursor one row down, stopping at the bottom. */
  lemma StepDown(s: CopyState, t: Term)
    requires !s.marking && s.lastKey == [] && s.cursor.Some? && s.cursor.value.y <= Bottom(t)
    ensures MovedDown(s, Step(s, t, "j"), 1, Bottom(t))
  {
    var f := Start(s, t);
    assert f.s == s;
    var o := Act(f, t, "j");
    var c := s.cursor.value;
    assert o.x == c.x && o.y == Min(c.y + 1, Bottom(t)) && !o.s.marking && o.s.lastKey == [];
  }

  /** With a repeat count n, `j` moves the cursor n rows down (out of marking), stopping
      at the bottom, and the count is reset. */
  lemma CountedDown(s: CopyState, t: Term)
    requires !s.marking && s.lastKey == [] && s.cursor.Some? && s.cursor.value.y <= Bottom(t)
    requires s.repetition > 0
    ensures var r, c := Handle(s, t, "j"), s.cursor.value;
      r.cursor == Some(Point(c.x, Min(c.y + s.repetition, Bottom(t)))) && r.repetition == 0
  {
    var f := Start(s, t);
    assert f.s == s;
    ReplayDown(s.(repetition := 0), t, s.repetition);
  }

  /** The decimal value of a string of digits. */
  function Decimal(ds: string): nat
    requires forall i :: 0 <= i < |ds| ==> '0' <= ds[i] <= '9'
  {
    if ds == [] then 0 else 10 * Decimal(ds[..|ds| - 1]) + DigitValue(ds[|ds| - 1])
  }

  /** The state after typing the keys of ds one by one. */
  function Typed(s: CopyState, t: Term, ds: string): (r: CopyState)
    requires CursorReady(s)
    ensures CursorReady(r)
  {
    if ds == [] then s else Handle(Typed(s, t, ds[..|ds| - 1]), t, [ds[|ds| - 1]])
  }

  /** Typing a number (no leading 0) sets the repeat count to that number. */
  lemma {:induction false} TypedCount(s: CopyState, t: Term, ds: string)
    requires CursorReady(s) && s.repetition == 0
    requires ds != [] && ds[0] != '0' && forall i :: 0 <= i < |ds| ==> '0' <= ds[i] <= '9'
    ensures Typed(s, t, ds).repetition == Decimal(ds) > 0
  {
    var init := ds[..|ds| - 1];
    if init == [] {
      assert ds == [ds[0]];
    } else {
      assert init[0] == ds[0];
      TypedCount(s, t, init);
      assert init[..|init|] == init;
    }
    var p := Typed(s, t, init);
    assert p.repetition == Decimal(init);
    var f := Start(p, t);
    assert IsDigitKey([ds[|ds| - 1]]);
  }
}
