/*
 * The copy-mode fields of a pane (src/pane.ts:50-81) and the methods that
 * update them in place: `cmInitCursor`, `cmSelectionUpdate`,
 * `enterCopyMode`, `exitCopyMode`, `copySelection`, `handleCMKey` and
 * `scale`. Each method is proved to leave the fields in the state the
 * corresponding CopyModel function computes, so everything proved about
 * those functions holds of the pane.
 */
module CopyPane {
  import opened Options
  import opened JsString
  import opened WordMotion
  import opened CopyModel

  /** The `w` motion, with the scanning loop of the source. */
  method ForwardWord(t: Term, x: int, y: int, marking: bool) returns (p: Point)
    ensures p == WordForward(t, x, y, marking)
  {
    var line := Trimmed(t, y);
    var nx := ForwardLoop(line, x);
    var ny := y;
    if nx >= |line| {
      if Trimmed(t, y + 1) != [] {
        nx, ny := 0, y + 1;
      } else {
        nx := |line| - 1;
      }
    }
    if marking {
      nx := nx + 1;
    }
    p := Point(nx, ny);
  }

  /** The `b` motion, with the scanning loop of the source. */
  method BackwardWord(t: Term, x: int, y: int) returns (p: Point)
    ensures p == WordBackward(t, x, y)
  {
    var line := Trimmed(t, y);
    var nx, ny := x, y;
    if x <= 0 && y > 0 {
      ny := y - 1;
      line := Trimmed(t, ny);
      nx := |line|;
    }
    nx := BackwardLoop(line, nx);
    p := Point(nx, ny);
  }

  /** The `e` motion, with the scanning loop of the source. */
  method ToWordEnd(t: Term, x: int, y: int, marking: bool) returns (p: Point)
    ensures p == WordEnd(t, x, y, marking)
  {
    var line := Trimmed(t, y);
    var nx, ny := x, y;
    if nx >= |line| - 1 {
      line := Trimmed(t, y + 1);
      if line == [] {
        return Point(x, y);
      }
      nx, ny := 0, y + 1;
    }
    nx := ToEndLoop(line, nx);
    if marking {
      nx := nx + 1;
    }
    p := Point(nx, ny);
  }

  class Pane {
    var copyMode: bool
    var cmCursor: Option<Point>
    var cmSelection: Option<Selection>
    var cmAtEnd: End
    var cmMarking: bool
    var repetition: nat
    var lastKey: string
    /** The first buffer row on screen (the terminal's `viewportY`). */
    var viewportY: int
    /** The terminal's own (mouse) selection. */
    var mouseSelection: Option<string>
    /** The last text written to the clipboard. */
    var clipboard: Option<string>
    var fontSize: int
    /** The terminal's active buffer as copy mode reads it. */
    var term: Term

    /** The copy-mode fields as one value. */
    function State(): CopyState
      reads this
    {
      CopyState(copyMode, cmCursor, cmSelection, cmAtEnd, cmMarking, repetition, lastKey,
                viewportY, mouseSelection, clipboard)
    }

    /** A pane on terminal t, showing the view from row viewportY; its font size is the
        one it is given, or the theme's when it is given none (0). */
    constructor(t: Term, viewportY: int, requested: int, themeSize: int)
      ensures State() == CopyState(false, None, None, Undefined, false, 0, [], viewportY, None, None)
      ensures term == t && fontSize == (if requested != 0 then requested else themeSize)
    {
      copyMode, cmCursor, cmSelection, cmAtEnd, cmMarking := false, None, None, Undefined, false;
      repetition, lastKey := 0, [];
      this.viewportY := viewportY;
      mouseSelection, clipboard := None, None;
      fontSize := if requested != 0 then requested else themeSize;
      term := t;
    }

    /** `scale(by)`. */
    method Scale(step: int)
      modifies this
      ensures fontSize == ScaledFont(old(fontSize), step)
      ensures State() == old(State()) && term == old(term)
    {
      fontSize := fontSize + step;
      if fontSize < 6 {
        fontSize := 6;
      } else if fontSize > 30 {
        fontSize := 30;
      }
    }

    /** `cmInitCursor()`. */
    method CmInitCursor()
      modifies this
      ensures State() == InitCursor(old(State()), term)
      ensures term == old(term) && fontSize == old(fontSize)
    {
      if cmSelection.Some? {
        return;
      }
      cmCursor := Some(Point(term.cursorX, term.cursorY + viewportY));
    }

    /** `cmSelectionUpdate(selection)`. */
    method CmSelectionUpdate(sel: Selection)
      requires cmMarking || cmCursor.Some?
      modifies this
      ensures State() == SelectionUpdate(old(State()), sel)
      ensures term == old(term) && fontSize == old(fontSize)
    {
      var s := sel;
      if !cmMarking {
        s := PointSelection(cmCursor.value);
      } else if !Truthy(cmAtEnd) {
        if s.startRow > s.endRow {
          s := s.(endRow := s.startRow);
        }
        if s.endRow == s.startRow && s.startColumn > s.endColumn {
          s := s.(endColumn := s.startColumn);
        }
      } else {
        if s.startRow > s.endRow {
          s := s.(startRow := s.endRow);
        }
        if s.startRow == s.endRow && s.startColumn > s.endColumn {
          s := s.(startColumn := s.endColumn);
        }
      }
      cmSelection := Some(s);
    }

    /** `enterCopyMode(marking)`. */
    method EnterCopyMode(marking: bool)
      modifies this
      ensures State() == EnterCopy(old(State()), term, marking)
      ensures term == old(term) && fontSize == old(fontSize)
    {
      if marking {
        cmMarking := true;
      }
      if !copyMode {
        copyMode := true;
        CmInitCursor();
        cmAtEnd := Null;
      }
    }

    /** `exitCopyMode()`. */
    method ExitCopyMode()
      modifies this
      ensures State() == ExitCopy(old(State()), term)
      ensures term == old(term) && fontSize == old(fontSize)
    {
      if copyMode {
        copyMode := false;
        cmSelection := None;
        mouseSelection := None;
        viewportY := term.baseY;
      }
    }

    /** `copySelection()`: the loop collects the covered part of every selected row. */
    method CopySelection()
      modifies this
      ensures State() == Copy(old(State()), term)
      ensures term == old(term) && fontSize == old(fontSize)
    {
      if mouseSelection.Some? {
        clipboard := mouseSelection;
        return;
      }
      if cmSelection.None? {
        return;
      }
      var sel := cmSelection.value;
      ghost var all := Copied(term, sel);
      var lines: seq<string> := [];
      var row := sel.startRow;
      while row <= sel.endRow
        invariant sel.startRow <= row && row - sel.startRow <= |all|
        invariant lines == all[..row - sel.startRow]
        decreases sel.endRow - row
      {
        var lineText := Row(term, row);
        var start := if row == sel.startRow then sel.startColumn else 0;
        var end := if row == sel.endRow then sel.endColumn else |lineText|;
        lines := lines + [Slice(lineText, start, end)];
        row := row + 1;
      }
      assert lines == all;
      clipboard := Some(Join(lines, "\n"));
    }

    /** The start of `handleCMKey`: the position the key moves from and the selection it
        works on. */
    method Begin() returns (x: int, y: int, sel: Selection)
      requires CursorReady(State())
      modifies this
      ensures var f := Start(old(State()), term); State() == f.s && x == f.x && y == f.y && sel == f.sel
      ensures term == old(term) && fontSize == old(fontSize)
    {
      if !cmMarking || cmSelection.None? {
        cmMarking := false;
        if cmCursor.None? {
          CmInitCursor();
        }
        x, y := cmCursor.value.x, cmCursor.value.y;
        sel := PointSelection(cmCursor.value);
      } else if Truthy(cmAtEnd) {
        sel := cmSelection.value;
        x, y := sel.endColumn, sel.endRow;
      } else {
        sel := cmSelection.value;
        x, y := sel.startColumn, sel.startRow;
      }
    }

    /** The key switch of `handleCMKey`: returns the new position. */
    method Perform(x: int, y: int, sel: Selection, key: string) returns (nx: int, ny: int)
      requires cmCursor.Some?
      modifies this
      ensures var o := Act(Focus(old(State()), x, y, sel), term, key);
        State() == o.s && nx == o.x && ny == o.y
      ensures term == old(term) && fontSize == old(fontSize)
    {
      nx, ny := x, y;
      if key == " " {
        if !cmMarking {
          cmAtEnd := Null;
        } else {
          CmInitCursor();
        }
        cmMarking := !cmMarking;
        CmSelectionUpdate(sel);
      } else if key == "Enter" {
        CopySelection();
        ExitCopyMode();
      } else if key == "Escape" || key == "q" {
        ExitCopyMode();
      } else {
        nx, ny := Move(x, y, sel, key);
      }
    }

    /** The keys of the switch that only move the position (or set a pending f/F/t/T). */
    method Move(x: int, y: int, sel: Selection, key: string) returns (nx: int, ny: int)
      requires cmCursor.Some? && key != " " && key != "Enter" && key != "Escape" && key != "q"
      modifies this
      ensures var o := Act(Focus(old(State()), x, y, sel), term, key);
        State() == o.s && nx == o.x && ny == o.y
      ensures term == old(term) && fontSize == old(fontSize)
    {
      nx, ny := x, y;
      if key == "ArrowLeft" || key == "h" {
        if x > 0 {
          nx := x - 1;
        }
        if cmAtEnd == Null {
          cmAtEnd := Known(false);
        }
      } else if key == "ArrowRight" || key == "l" {
        if x < term.cols - 2 {
          nx := x + 1;
        }
        if cmAtEnd == Null {
          cmAtEnd := Known(true);
        }
      } else if key == "ArrowDown" || key == "j" {
        if y < term.baseY + term.rows - 1 {
          ny := y + 1;
        }
        if cmAtEnd == Null {
          cmAtEnd := Known(true);
        }
      } else if key == "ArrowUp" || key == "k" {
        if y > 0 {
          ny := y - 1;
        }
        if cmAtEnd == Null {
          cmAtEnd := Known(false);
        }
      } else {
        nx, ny := Jump(x, y, sel, key);
      }
    }

    /** The keys of the switch that jump within a line or a page. */
    method Jump(x: int, y: int, sel: Selection, key: string) returns (nx: int, ny: int)
      requires cmCursor.Some? && key != " " && key != "Enter" && key != "Escape" && key != "q"
      requires key != "ArrowLeft" && key != "h" && key != "ArrowRight" && key != "l"
      requires key != "ArrowDown" && key != "j" && key != "ArrowUp" && key != "k"
      modifies this
      ensures var o := Act(Focus(old(State()), x, y, sel), term, key);
        State() == o.s && nx == o.x && ny == o.y
      ensures term == old(term) && fontSize == old(fontSize)
    {
      nx, ny := x, y;
      if key == "0" {
        nx := 0;
      } else if key == "$" {
        nx := |Trimmed(term, y)|;
        if nx != 0 && !cmMarking {
          nx := nx - 1;
        }
      } else if key == "w" {
        var p := ForwardWord(term, x, y, cmMarking);
        nx, ny := p.x, p.y;
      } else if key == "b" {
        var p := BackwardWord(term, x, y);
        nx, ny := p.x, p.y;
      } else if key == "e" {
        var p := ToWordEnd(term, x, y, cmMarking);
        nx, ny := p.x, p.y;
      } else if key == "f" || key == "F" || key == "t" || key == "T" {
        lastKey := key;
      } else if key == "C-f" {
        ny := viewportY + |term.lines| - term.baseY;
        if ny >= |term.lines| {
          ny := |term.lines| - 1;
        }
      } else if key == "C-b" {
        ny := viewportY - (|term.lines| - term.baseY);
        if ny < 0 {
          ny := 0;
        }
      }
    }

    /** The end of `handleCMKey`: the cursor or the selection follows a move to
        (nx, ny), and the view scrolls to keep row ny on screen. */
    method Follow(x: int, y: int, sel: Selection, nx: int, ny: int)
      requires cmCursor.Some?
      modifies this
      ensures State() == Settle(old(State()), term, x, y, sel, nx, ny)
      ensures term == old(term) && fontSize == old(fontSize)
    {
      if ny == y && nx == x {
        return;
      }
      var s := sel;
      if !cmMarking {
        cmCursor := Some(Point(nx, ny));
      } else if Truthy(cmAtEnd) {
        if Before(ny, nx, s.startRow, s.startColumn) {
          cmAtEnd := Known(false);
          s := Selection(ny, nx, s.startRow, s.startColumn);
        } else {
          s := s.(endRow := ny, endColumn := nx);
        }
      } else {
        if Before(s.endRow, s.endColumn, ny, nx) {
          cmAtEnd := Known(true);
          s := Selection(s.endRow, s.endColumn, ny, nx);
        } else {
          s := s.(startRow := ny, startColumn := nx);
        }
      }
      CmSelectionUpdate(s);
      if ny >= viewportY + term.rows || ny < viewportY {
        viewportY := Max(Min(ny, term.baseY), 0);
      }
    }

    /** `handleCMKey` after the position is chosen and the count is out of the way. */
    method DispatchKey(x: int, y: int, sel: Selection, key: string)
      requires cmCursor.Some?
      modifies this
      ensures State() == Dispatch(Focus(old(State()), x, y, sel), term, key)
      ensures term == old(term) && fontSize == old(fontSize)
    {
      var nx, ny := x, y;
      if lastKey != [] {
        if !IsNavKey(key) && !IsOneChar(key) {
          return;
        }
        nx := Find(lastKey, Trimmed(term, y), key, x, cmMarking);
        lastKey := [];
      } else {
        nx, ny := Perform(x, y, sel, key);
      }
      Follow(x, y, sel, nx, ny);
    }

    /** One keystroke with no count: what each replay of a counted key does. */
    method StepKey(key: string)
      requires CursorReady(State())
      modifies this
      ensures State() == Step(old(State()), term, key)
      ensures term == old(term) && fontSize == old(fontSize)
    {
      var x, y, sel := Begin();
      DispatchKey(x, y, sel, key);
    }

    /** `handleCMKey(key)`: a digit extends the repeat count; the next other key is
        replayed that many times. */
    method HandleKey(key: string)
      requires CursorReady(State())
      modifies this
      ensures State() == Handle(old(State()), term, key)
      ensures term == old(term) && fontSize == old(fontSize)
    {
      ghost var goal := Handle(State(), term, key);
      var x, y, sel := Begin();
      if repetition > 0 || (IsDigitKey(key) && key != "0") {
        if IsDigitKey(key) {
          repetition := 10 * repetition + DigitValue(key[0]);
        } else {
          var temp := repetition;
          repetition := 0;
          var i := 0;
          while i < temp
            invariant 0 <= i <= temp
            invariant CursorReady(State())
            invariant term == old(term) && fontSize == old(fontSize)
            invariant Replay(State(), term, key, temp - i) == goal
          {
            StepKey(key);
            i := i + 1;
          }
        }
      } else {
        DispatchKey(x, y, sel, key);
      }
    }
  }
}
