/*
 * The copy-mode state machine of a pane (src/pane.ts:476-500, 812-1193) as
 * functions on its state: what one keystroke does (`handleCMKey`), the
 * normalisation of the selection (`cmSelectionUpdate`), the cursor's
 * initialisation (`cmInitCursor`), entering and leaving copy mode, and
 * copying the selection (`copySelection`). The class CopyPane.Pane performs
 * the same steps in place and is proved against these functions.
 *
 * Rows are absolute buffer rows, columns are 0-based; the selection's end
 * column is exclusive for copying.
 */
module CopyModel {
  import opened Options
  import opened JsString
  import opened WordMotion

  datatype Point = Point(x: int, y: int)

  datatype Selection = Selection(startRow: int, startColumn: int, endRow: int, endColumn: int)

  /** `cmAtEnd`: never assigned (undefined), null while the direction of a new selection
      is unknown, or whether the end (rather than the start) moves with the cursor. */
  datatype End = Undefined | Null | Known(atEnd: bool)

  /** JavaScript truthiness of `cmAtEnd`. */
  predicate Truthy(e: End) { e == Known(true) }

  /** The terminal's active buffer: its lines as the terminal renders them (trailing blanks
      of the grid dropped), the grid's columns and rows, the first row of the bottom page
      (`baseY`), and the terminal cursor relative to the viewport. The viewport's first
      row changes with scrolling and is part of CopyState. */
  datatype Term = Term(lines: seq<string>, cols: int, rows: int, baseY: int, cursorX: int, cursorY: int)

  /** The fields of a pane that copy mode reads and writes. `mouseSelection` is the
      terminal's own (mouse) selection, `clipboard` the last text written to the
      clipboard. */
  datatype CopyState = CopyState(
    copyMode: bool,
    cursor: Option<Point>,
    selection: Option<Selection>,
    atEnd: End,
    marking: bool,
    repetition: nat,
    lastKey: string,
    viewportY: int,
    mouseSelection: Option<string>,
    clipboard: Option<string>)

  /** Line y of the buffer; a row outside the buffer reads as empty. */
  function Row(t: Term, y: int): string
  {
    if 0 <= y < |t.lines| then t.lines[y] else []
  }

  /** Line y without trailing white space, as the motions read it. */
  function Trimmed(t: Term, y: int): string
  {
    TrimEnd(Row(t, y))
  }

  /** (y1, x1) comes strictly before (y2, x2) in row-major order. */
  predicate Before(y1: int, x1: int, y2: int, x2: int)
  {
    y1 < y2 || (y1 == y2 && x1 < x2)
  }

  /** The selection's start does not come after its end. */
  predicate Ordered(sel: Selection)
  {
    !Before(sel.endRow, sel.endColumn, sel.startRow, sel.startColumn)
  }

  /** Every selection the state holds is ordered. */
  predicate SelectionOrdered(s: CopyState)
  {
    s.selection.Some? ==> Ordered(s.selection.value)
  }

  function PointSelection(p: Point): Selection
  {
    Selection(p.y, p.x, p.y, p.x)
  }

  /** The normalisation of `cmSelectionUpdate` while marking: the end that moves with the
      cursor stays where it is, and the other end is pulled onto it if they crossed. */
  function Normalized(sel: Selection, atEnd: bool): (r: Selection)
    ensures Ordered(r)
    ensures Ordered(sel) ==> r == sel
    ensures !atEnd ==> r.startRow == sel.startRow && r.startColumn == sel.startColumn
    ensures atEnd ==> r.endRow == sel.endRow && r.endColumn == sel.endColumn
  {
    if !atEnd then
      var endRow := if sel.startRow > sel.endRow then sel.startRow else sel.endRow;
      var endColumn := if endRow == sel.startRow && sel.startColumn > sel.endColumn then sel.startColumn else sel.endColumn;
      sel.(endRow := endRow, endColumn := endColumn)
    else
      var startRow := if sel.startRow > sel.endRow then sel.endRow else sel.startRow;
      var startColumn := if sel.endRow == startRow && sel.startColumn > sel.endColumn then sel.endColumn else sel.startColumn;
      sel.(startRow := startRow, startColumn := startColumn)
  }

  /** `cmSelectionUpdate(sel)`: while marking, the selection becomes sel normalised;
      otherwise it becomes the single point under the cursor. */
  function SelectionUpdate(s: CopyState, sel: Selection): (r: CopyState)
    requires s.marking || s.cursor.Some?
    ensures r == s.(selection := r.selection) && r.selection.Some? && Ordered(r.selection.value)
    ensures !s.marking ==> r.selection == Some(PointSelection(s.cursor.value))
    ensures s.marking && Ordered(sel) ==> r.selection == Some(sel)
  {
    if !s.marking then s.(selection := Some(PointSelection(s.cursor.value)))
    else s.(selection := Some(Normalized(sel, Truthy(s.atEnd))))
  }

  /** `cmInitCursor`: with no selection, the copy-mode cursor starts at the terminal's
      cursor, in absolute rows. */
  function InitCursor(s: CopyState, t: Term): (r: CopyState)
    ensures r.cursor.Some? || s.selection.Some?
    ensures s.selection.Some? ==> r == s
    ensures s.cursor.Some? ==> r.cursor.Some?
    ensures r == s.(cursor := r.cursor)
  {
    if s.selection.Some? then s
    else s.(cursor := Some(Point(t.cursorX, t.cursorY + s.viewportY)))
  }

  /** `enterCopyMode(marking)`. */
  function EnterCopy(s: CopyState, t: Term, marking: bool): (r: CopyState)
    ensures r.copyMode
    ensures s.copyMode ==> r == s.(marking := s.marking || marking)
    ensures !s.copyMode ==> r.atEnd == Null && (s.selection.None? ==> r.cursor.Some?)
  {
    var s1 := if marking then s.(marking := true) else s;
    if s1.copyMode then s1
    else InitCursor(s1.(copyMode := true), t).(atEnd := Null)
  }

  /** `exitCopyMode()`: the selections are dropped and the view returns to the bottom. */
  function ExitCopy(s: CopyState, t: Term): (r: CopyState)
    ensures !r.copyMode
    ensures s.copyMode ==> r.selection.None? && r.mouseSelection.None? && r.viewportY == t.baseY
    ensures !s.copyMode ==> r == s
    ensures r.cursor == s.cursor && r.marking == s.marking && r.repetition == s.repetition
  {
    if s.copyMode then s.(copyMode := false, selection := None, mouseSelection := None, viewportY := t.baseY)
    else s
  }

  /** The part of buffer row `row` that the selection covers. */
  function Piece(t: Term, sel: Selection, row: int): string
  {
    var line := Row(t, row);
    Slice(line, if row == sel.startRow then sel.startColumn else 0, if row == sel.endRow then sel.endColumn else |line|)
  }

  /** The lines `copySelection` collects: one per row from startRow to endRow; the first
      starts at startColumn, the last stops before endColumn, the others are whole. */
  function Copied(t: Term, sel: Selection): (r: seq<string>)
    ensures |r| == Max(sel.endRow - sel.startRow + 1, 0)
    ensures forall k :: 0 <= k < |r| ==> r[k] == Piece(t, sel, sel.startRow + k)
    ensures forall k :: 0 < k < |r| - 1 ==> r[k] == Row(t, sel.startRow + k)
    ensures |r| > 1 && 0 <= sel.startColumn <= |Row(t, sel.startRow)| ==>
      r[0] == Row(t, sel.startRow)[sel.startColumn..]
    ensures |r| > 1 && 0 <= sel.endColumn <= |Row(t, sel.endRow)| ==>
      r[|r| - 1] == Row(t, sel.endRow)[..sel.endColumn]
  {
    seq(Max(sel.endRow - sel.startRow + 1, 0), k => Piece(t, sel, sel.startRow + k))
  }

  /** `copySelection()`: the terminal's own selection if there is one, else the copy-mode
      selection's lines joined with newlines; nothing without a selection. */
  function Copy(s: CopyState, t: Term): (r: CopyState)
    ensures r == s.(clipboard := r.clipboard)
    ensures s.mouseSelection.Some? ==> r.clipboard == s.mouseSelection
    ensures s.mouseSelection.None? && s.selection.None? ==> r == s
    ensures s.mouseSelection.None? && s.selection.Some? ==>
      r.clipboard == Some(Join(Copied(t, s.selection.value), "\n"))
  {
    if s.mouseSelection.Some? then s.(clipboard := s.mouseSelection)
    else if s.selection.None? then s
    else s.(clipboard := Some(Join(Copied(t, s.selection.value), "\n")))
  }

  /** What a copy-mode selection puts on the clipboard splits at its newlines back into the
      copied pieces, one per selected row, when the buffer lines hold no newline. */
  lemma CopyRoundTrip(s: CopyState, t: Term)
    requires s.mouseSelection.None? && s.selection.Some?
    requires s.selection.value.startRow <= s.selection.value.endRow
    requires forall y :: 0 <= y < |t.lines| ==> '\n' !in t.lines[y]
    ensures Copy(s, t).clipboard.Some?
    ensures SplitOn(Copy(s, t).clipboard.value, '\n') == Copied(t, s.selection.value)
  {
    var sel := s.selection.value;
    var ls := Copied(t, sel);
    forall k | 0 <= k < |ls| ensures '\n' !in ls[k] {
      var row := sel.startRow + k;
      var line := Row(t, row);
      var start := if row == sel.startRow then sel.startColumn else 0;
      var end := if row == sel.endRow then sel.endColumn else |line|;
      if '\n' in Slice(line, start, end) {
        SliceFrom(line, start, end, '\n');
      }
    }
    assert "\n" == ['\n'];
    SplitJoin(ls, '\n');
  }

  /** The state in which `handleCMKey` can pick its cursor: a cursor exists, or no
      selection does (so one can be initialised). */
  predicate CursorReady(s: CopyState)
  {
    s.cursor.Some? || s.selection.None?
  }

  /** The position a keystroke moves from, and the selection it works on. */
  datatype Focus = Focus(s: CopyState, x: int, y: int, sel: Selection)

  /** The start of `handleCMKey`: out of marking (or with no selection), marking is off and
      the cursor, initialised if need be, is the position and a point selection; while
      marking, the end of the selection that moves is the position. */
  function Start(s: CopyState, t: Term): (f: Focus)
    requires CursorReady(s)
    ensures f.s.cursor.Some? && f.s.repetition == s.repetition && f.s.lastKey == s.lastKey
    ensures f.s.selection == s.selection && f.s.viewportY == s.viewportY
    ensures !f.s.marking ==> f.sel == PointSelection(f.s.cursor.value) && f.x == f.s.cursor.value.x && f.y == f.s.cursor.value.y
    ensures f.s.marking ==> s.marking && s.selection == Some(f.sel) && f.s == s
    ensures s.cursor.Some? && !s.marking ==> f.s == s
  {
    if !s.marking || s.selection.None? then
      var s1 := s.(marking := false);
      var s2 := if s1.cursor.None? then InitCursor(s1, t) else s1;
      var c := s2.cursor.value;
      Focus(s2, c.x, c.y, PointSelection(c))
    else if Truthy(s.atEnd) then
      Focus(s, s.selection.value.endColumn, s.selection.value.endRow, s.selection.value)
    else
      Focus(s, s.selection.value.startColumn, s.selection.value.startRow, s.selection.value)
  }

  /** The keys accepted after a pending f/F/t/T besides single characters. */
  predicate IsNavKey(key: string)
  {
    key == "Escape" || key == "ArrowRight" || key == "ArrowLeft" || key == "ArrowUp" || key == "ArrowDown"
  }

  /** A key of exactly one character that `.` matches (not a line terminator). */
  predicate IsOneChar(key: string)
  {
    |key| == 1 && key[0] != '\n' && key[0] != '\r' && key[0] != '\U{2028}' && key[0] != '\U{2029}'
  }

  /** The column a pending `f` (or `t`, when before holds) moves to on `line` from column
      x: the next occurrence of key after x (for `t` the column before it), one further
      while marking; x itself when there is none. */
  function FindAfter(line: string, key: string, x: int, marking: bool, before: bool): (r: int)
    ensures key != [] && 0 <= x ==>
      var m := r + (if before then 1 else 0) - (if marking then 1 else 0);
      || (r == x && forall j :: x < j ==> !MatchAt(line, key, j))
      || (x < m && MatchAt(line, key, m) && forall j :: x < j < m ==> !MatchAt(line, key, j))
  {
    var i := IndexOf(line, key, x + 1) - (if before then 1 else 0);
    if i == (if before then -2 else -1) then x else if marking then i + 1 else i
  }

  /** The column a pending `F` (or `T`, when after holds) moves to on `line` from column
      x: the last occurrence of key at x - 2 or before (for `T` the column after it); x
      itself when there is none. */
  function FindBefore(line: string, key: string, x: int, after: bool): (r: int)
    ensures 2 <= x ==>
      var m := if after then r - 1 else r;
      || (r == x && forall j :: j <= x - 2 ==> !MatchAt(line, key, j))
      || (m <= x - 2 && MatchAt(line, key, m) && forall j :: m < j <= x - 2 ==> !MatchAt(line, key, j))
  {
    var i := LastIndexOf(line, key, x - 2) + (if after then 1 else 0);
    if i == (if after then 0 else -1) then x else i
  }

  /** The column a pending `f`, `F`, `t` or `T` (lastKey) moves to on `line` from column x
      when key is typed. */
  function Find(lastKey: string, line: string, key: string, x: int, marking: bool): (r: int)
    ensures lastKey == "f" && key != [] && 0 <= x ==>
      var m := if marking then r - 1 else r;
      || (r == x && forall j :: x < j ==> !MatchAt(line, key, j))
      || (x < m && MatchAt(line, key, m) && forall j :: x < j < m ==> !MatchAt(line, key, j))
    ensures lastKey == "t" && key != [] && 0 <= x ==>
      var m := if marking then r else r + 1;
      || (r == x && forall j :: x < j ==> !MatchAt(line, key, j))
      || (x < m && MatchAt(line, key, m) && forall j :: x < j < m ==> !MatchAt(line, key, j))
    ensures lastKey == "F" && 2 <= x ==>
      || (r == x && forall j :: j <= x - 2 ==> !MatchAt(line, key, j))
      || (r <= x - 2 && MatchAt(line, key, r) && forall j :: r < j <= x - 2 ==> !MatchAt(line, key, j))
    ensures lastKey == "T" && 2 <= x ==>
      || (r == x && forall j :: j <= x - 2 ==> !MatchAt(line, key, j))
      || (r - 1 <= x - 2 && MatchAt(line, key, r - 1) && forall j :: r - 1 < j <= x - 2 ==> !MatchAt(line, key, j))
    ensures lastKey != "f" && lastKey != "F" && lastKey != "t" && lastKey != "T" ==> r == x
  {
    if lastKey == "f" then FindAfter(line, key, x, marking, false)
    else if lastKey == "F" then FindBefore(line, key, x, false)
    else if lastKey == "t" then FindAfter(line, key, x, marking, true)
    else if lastKey == "T" then FindBefore(line, key, x, true)
    else x
  }

  /** `w` from (x, y): to the start of the next word on the line; past the last one, to
      the start of the next line when that is not blank, else to the line's last column.
      One further while marking. */
  function WordForward(t: Term, x: int, y: int, marking: bool): Point
  {
    var line := Trimmed(t, y);
    var n := ScanForward(line, x);
    var p := if n < |line| then Point(n, y)
             else if Trimmed(t, y + 1) != [] then Point(0, y + 1)
             else Point(|line| - 1, y);
    if marking then p.(x := p.x + 1) else p
  }

  /** `b` from (x, y): back to the start of a word; from the first column, from the end
      of the previous line. */
  function WordBackward(t: Term, x: int, y: int): Point
  {
    if x <= 0 && y > 0 then
      var line := Trimmed(t, y - 1);
      Point(ScanBackward(line, |line|), y - 1)
    else Point(ScanBackward(Trimmed(t, y), x), y)
  }

  /** `e` from (x, y): to the end of the word; from the line's last column, to the end of
      the first word of the next line, or nowhere when that line is blank. One further
      while marking, except when it does not move. */
  function WordEnd(t: Term, x: int, y: int, marking: bool): Point
  {
    var line := Trimmed(t, y);
    if x >= |line| - 1 then
      var next := Trimmed(t, y + 1);
      if next == [] then Point(x, y)
      else
        var n := ScanToEnd(next, 0);
        Point(if marking then n + 1 else n, y + 1)
    else
      var n := ScanToEnd(line, x);
      Point(if marking then n + 1 else n, y)
  }

  /** What a key does before the cursor moves: the state it leaves and where it moves to. */
  datatype Outcome = Outcome(s: CopyState, x: int, y: int)

  /** The key switch of `handleCMKey`. Search keys (`/`, `?`, `n`) are not part of this
      model and, like unknown keys, change nothing. */
  function Act(f: Focus, t: Term, key: string): (o: Outcome)
    requires f.s.cursor.Some?
    ensures o.s.cursor.Some? && o.s.repetition == f.s.repetition
    ensures o.s.selection != f.s.selection ==> o.s.selection.None? || Ordered(o.s.selection.value)
  {
    var s, x, y := f.s, f.x, f.y;
    if key == " " then
      var s1 := if !s.marking then s.(atEnd := Null) else InitCursor(s, t);
      Outcome(SelectionUpdate(s1.(marking := !s1.marking), f.sel), x, y)
    else if key == "Enter" then Outcome(ExitCopy(Copy(s, t), t), x, y)
    else if key == "Escape" || key == "q" then Outcome(ExitCopy(s, t), x, y)
    else if key == "ArrowLeft" || key == "h" then
      Outcome(if s.atEnd == Null then s.(atEnd := Known(false)) else s, if x > 0 then x - 1 else x, y)
    else if key == "ArrowRight" || key == "l" then
      Outcome(if s.atEnd == Null then s.(atEnd := Known(true)) else s, if x < t.cols - 2 then x + 1 else x, y)
    else if key == "ArrowDown" || key == "j" then
      Outcome(if s.atEnd == Null then s.(atEnd := Known(true)) else s, x, if y < t.baseY + t.rows - 1 then y + 1 else y)
    else if key == "ArrowUp" || key == "k" then
      Outcome(if s.atEnd == Null then s.(atEnd := Known(false)) else s, x, if y > 0 then y - 1 else y)
    else if key == "0" then Outcome(s, 0, y)
    else if key == "$" then
      var n := |Trimmed(t, y)|;
      Outcome(s, if n != 0 && !s.marking then n - 1 else n, y)
    else if key == "w" then
      var p := WordForward(t, x, y, s.marking);
      Outcome(s, p.x, p.y)
    else if key == "b" then
      var p := WordBackward(t, x, y);
      Outcome(s, p.x, p.y)
    else if key == "e" then
      var p := WordEnd(t, x, y, s.marking);
      Outcome(s, p.x, p.y)
    else if key == "f" || key == "F" || key == "t" || key == "T" then Outcome(s.(lastKey := key), x, y)
    else if key == "C-f" then
      var ny := s.viewportY + |t.lines| - t.baseY;
      Outcome(s, x, if ny >= |t.lines| then |t.lines| - 1 else ny)
    else if key == "C-b" then
      var ny := s.viewportY - (|t.lines| - t.baseY);
      Outcome(s, x, if ny < 0 then 0 else ny)
    else Outcome(s, x, y)
  }

  /** While marking, the moving end goes to (nx, ny); when it passes the anchor, the ends
      swap roles so the selection stays ordered. */
  function Reanchor(sel: Selection, atEnd: End, nx: int, ny: int): (r: (Selection, End))
    ensures Ordered(sel) ==> Ordered(r.0)
    ensures Truthy(atEnd) && Ordered(sel) ==> r.1 == Known(!Before(ny, nx, sel.startRow, sel.startColumn))
    ensures Truthy(r.1) ==> r.0.endRow == ny && r.0.endColumn == nx
    ensures r.1 == Known(false) ==> r.0.startRow == ny && r.0.startColumn == nx
    ensures r.1 != atEnd ==> r.1 == Known(Truthy(r.1))
  {
    if Truthy(atEnd) then
      if Before(ny, nx, sel.startRow, sel.startColumn) then
        (Selection(ny, nx, sel.startRow, sel.startColumn), Known(false))
      else (sel.(endRow := ny, endColumn := nx), atEnd)
    else if Before(sel.endRow, sel.endColumn, ny, nx) then
      (Selection(sel.endRow, sel.endColumn, ny, nx), Known(true))
    else (sel.(startRow := ny, startColumn := nx), atEnd)
  }

  /** The viewport after the cursor moved to row ny: unchanged while ny is on screen,
      otherwise scrolled by `ny - viewportY` rows, within [0, baseY]. */
  function Scrolled(vy: int, t: Term, ny: int): (r: int)
    ensures vy <= ny < vy + t.rows ==> r == vy
    ensures (ny < vy || ny >= vy + t.rows) && 0 <= ny <= t.baseY ==> r == ny
  {
    if ny >= vy + t.rows || ny < vy then Max(Min(ny, t.baseY), 0) else vy
  }

  /** The end of `handleCMKey`: if the position changed, the cursor (out of marking) or the
      selection (while marking) follows it, the selection is updated and the view scrolls
      to keep the new row visible. */
  function Settle(s: CopyState, t: Term, x: int, y: int, sel: Selection, nx: int, ny: int): (r: CopyState)
    requires s.cursor.Some?
    ensures r.cursor.Some? && r.repetition == s.repetition && r.lastKey == s.lastKey
    ensures r.selection != s.selection ==> r.selection.Some? && Ordered(r.selection.value)
  {
    if ny == y && nx == x then s
    else
      var moved := if !s.marking then (sel, s.atEnd) else Reanchor(sel, s.atEnd, nx, ny);
      var s1 := if !s.marking then s.(cursor := Some(Point(nx, ny))) else s.(atEnd := moved.1);
      var s2 := SelectionUpdate(s1, moved.0);
      s2.(viewportY := Scrolled(s2.viewportY, t, ny))
  }

  /** `handleCMKey(key)` once the repeat count is out of the way. */
  function Step(s: CopyState, t: Term, key: string): (r: CopyState)
    requires CursorReady(s)
    ensures r.cursor.Some? && r.repetition == s.repetition
  {
    Dispatch(Start(s, t), t, key)
  }

  /** The rest of `handleCMKey` from the chosen position: a pending f/F/t/T consumes the
      key (keys it does not accept are ignored), or the key switch runs; then the cursor
      or selection follows the new position. */
  function Dispatch(f: Focus, t: Term, key: string): (r: CopyState)
    requires f.s.cursor.Some?
    ensures r.cursor.Some? && r.repetition == f.s.repetition
  {
    if f.s.lastKey != [] then
      if !IsNavKey(key) && !IsOneChar(key) then f.s
      else Settle(f.s.(lastKey := []), t, f.x, f.y, f.sel, Find(f.s.lastKey, Trimmed(t, f.y), key, f.x, f.s.marking), f.y)
    else
      var o := Act(f, t, key);
      Settle(o.s, t, f.x, f.y, f.sel, o.x, o.y)
  }

  /** A key that is a single decimal digit. */
  predicate IsDigitKey(key: string)
  {
    |key| == 1 && '0' <= key[0] <= '9'
  }

  function DigitValue(c: char): nat
    requires '0' <= c <= '9'
  {
    (c as int) - ('0' as int)
  }

  /** The key replayed n times. */
  function Replay(s: CopyState, t: Term, key: string, n: nat): (r: CopyState)
    requires CursorReady(s)
    ensures r.cursor.Some? || (n == 0 && r == s)
    ensures r.repetition == s.repetition
    decreases n
  {
    if n == 0 then s else Replay(Step(s, t, key), t, key, n - 1)
  }

  /** `handleCMKey(key)`: a digit (other than a leading 0) extends the repeat count; the
      next other key resets the count and is performed that many times; without a count,
      the key is performed once. Only single-digit keys count (see RepeatCount). */
  function Handle(s: CopyState, t: Term, key: string): (r: CopyState)
    requires CursorReady(s)
    ensures CursorReady(r)
  {
    var f := Start(s, t);
    if f.s.repetition > 0 || (IsDigitKey(key) && key != "0") then
      if IsDigitKey(key) then f.s.(repetition := 10 * f.s.repetition + DigitValue(key[0]))
      else Replay(f.s.(repetition := 0), t, key, f.s.repetition)
    else Dispatch(f, t, key)
  }

  /** `scale(by)`: the font size moves by the step and is kept within [6, 30]. */
  function ScaledFont(fontSize: int, step: int): (r: int)
    ensures 6 <= r <= 30
    ensures 6 <= fontSize + step <= 30 ==> r == fontSize + step
    ensures fontSize + step < 6 ==> r == 6
    ensures fontSize + step > 30 ==> r == 30
  {
    var f := fontSize + step;
    if f < 6 then 6 else if f > 30 then 30 else f
  }
}
