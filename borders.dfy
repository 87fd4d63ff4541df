/*
 * Dragging a border: `Layout.moveBorder` with `prevCell`, `nextCell` and
 * `findNext` (src/layout.ts:287-354).
 *
 * A border of a cell separates two adjacent siblings c0 and c1 in some layout
 * on the path from the cell up to the root. Moving it to `dest` (clamped)
 * shrinks one and grows the other by the same amount.
 */
module Borders {
  import opened Options
  import opened CellGeometry
  import opened Partition
  import opened Tree
  import opened LayoutEdit

  datatype Border = Top | Bottom | Left | Right

  /** "top" and "bottom" move along y (sy, yoff), "left" and "right" along x. */
  function BorderAxis(b: Border): Axis { if b == Top || b == Bottom then Y else X }

  /** `this.dir.indexOf(border) != -1`: "topbottom" contains "top" and "bottom",
      "rightleft" contains "right" and "left", "TBD" contains none. */
  predicate Names(d: Dir, b: Border)
  {
    (d == TopBottom && (b == Top || b == Bottom)) || (d == RightLeft && (b == Right || b == Left))
  }

  /** Top and left are the leading borders: they lie between a cell and the one before it. */
  predicate Leading(b: Border) { b == Top || b == Left }

  /** A layout of direction d can move border b between two of its children exactly when
      the border runs along the axis the layout divides. */
  lemma NamesIffAcross(d: Dir, b: Border)
    requires d != TBD
    ensures !Names(d, b) <==> BorderAxis(b) == Along(d)
  {
  }

  /** `prevCell(c)` where idx is `cells.indexOf(c)` (-1 when c is not a child). */
  function PrevCell(cs: seq<Cell>, idx: int): (r: Option<Cell>)
    requires -1 <= idx < |cs|
    ensures r.Some? <==> idx >= 1
    ensures r.Some? ==> r.value == cs[idx - 1]
  {
    if idx - 1 >= 0 then Some(cs[idx - 1]) else None
  }

  /** `nextCell(c)` where idx is `cells.indexOf(c)`: for a cell that is not a child
      (idx == -1) this is the first child. */
  function NextCell(cs: seq<Cell>, idx: int): (r: Option<Cell>)
    requires -1 <= idx < |cs|
    ensures r.Some? <==> idx + 1 < |cs|
    ensures r.Some? ==> r.value == cs[idx + 1]
    ensures idx == -1 && cs != [] ==> r == Some(cs[0])
  {
    if idx + 1 < |cs| then Some(cs[idx + 1]) else None
  }

  /** The two siblings a border separates: children j and j + 1 of the layout at lp. */
  datatype Straddle = Straddle(lp: Path, j: nat)

  /** The layout at lp can move border b of its child k itself: it does not name the border
      and the child has a sibling on that side. */
  predicate Straddles(root: Cell, lp: Path, k: nat, b: Border)
  {
    && ValidPath(root, lp) && At(root, lp).Layout? && k < |At(root, lp).cells|
    && !Names(At(root, lp).dir, b)
    && (if Leading(b) then k >= 1 else k + 1 < |At(root, lp).cells|)
  }

  /** No layout on lp deeper than n straddles border b for its child on lp. */
  predicate NoneStraddles(root: Cell, lp: Path, n: int, b: Border)
    decreases |lp|
  {
    lp == [] || |lp| <= n + 1 || (!Straddles(root, Parent(lp), lp[|lp| - 1], b) && NoneStraddles(root, Parent(lp), n, b))
  }

  /** `NoneStraddles` says that no layout at a depth i with n < i < |lp| straddles the
      border for the child lp[i]. */
  lemma {:induction false} NoneStraddlesMeans(root: Cell, lp: Path, n: int, b: Border)
    requires -1 <= n
    ensures NoneStraddles(root, lp, n, b) <==> forall i :: n < i < |lp| ==> !Straddles(root, lp[..i], lp[i], b)
    decreases |lp|
  {
    if |lp| > n + 1 {
      var pl := Parent(lp);
      NoneStraddlesMeans(root, pl, n, b);
      assert pl == lp[..|lp| - 1];
      assert forall i :: 0 <= i < |pl| ==> pl[..i] == lp[..i] && pl[i] == lp[i];
    }
  }

  /** Where `moveBorder(cell, border, ...)` called on the layout at lp with the cell at
      index k acts: there, if that layout can move the border itself; otherwise in the
      parent, for the layout itself; nowhere once the root is passed. So the move happens
      in the nearest layout on the way up that straddles the border, and nowhere when none
      does. */
  function Resolve(root: Cell, lp: Path, k: nat, b: Border): (r: Option<Straddle>)
    requires ValidPath(root, lp) && At(root, lp).Layout? && k < |At(root, lp).cells|
    ensures r.Some? ==>
      && |r.value.lp| <= |lp| && lp[..|r.value.lp|] == r.value.lp
      && ValidPath(root, r.value.lp) && At(root, r.value.lp).Layout?
      && r.value.j + 1 < |At(root, r.value.lp).cells|
      && !Names(At(root, r.value.lp).dir, b)
    ensures Straddles(root, lp, k, b) ==> r == Some(Straddle(lp, if Leading(b) then k - 1 else k))
    decreases |lp|
  {
    var l := At(root, lp);
    var c0 := if Names(l.dir, b) then None else if Leading(b) then PrevCell(l.cells, k) else Some(l.cells[k]);
    var c1 := if Names(l.dir, b) then None else if Leading(b) then Some(l.cells[k]) else NextCell(l.cells, k);
    if c0.Some? && c1.Some? then Some(Straddle(lp, if Leading(b) then k - 1 else k))
    else if lp == [] then None
    else
      AtParent(root, lp);
      var pl := Parent(lp);
      var r := Resolve(root, pl, lp[|lp| - 1], b);
      assert pl == lp[..|lp| - 1];
      assert r.Some? ==> lp[..|r.value.lp|] == pl[..|r.value.lp|];
      r
  }

  /** When the layout at lp cannot move the border itself, the request climbs: nothing
      moves exactly when no layout on the path straddles the border, and otherwise the move
      happens in the nearest one that does. */
  lemma {:induction false} ResolveNearest(root: Cell, lp: Path, k: nat, b: Border)
    requires ValidPath(root, lp) && At(root, lp).Layout? && k < |At(root, lp).cells|
    requires !Straddles(root, lp, k, b)
    ensures Resolve(root, lp, k, b).None? <==> NoneStraddles(root, lp, -1, b)
    ensures Resolve(root, lp, k, b).Some? ==>
      var s := Resolve(root, lp, k, b).value;
      var n := |s.lp|;
      && n < |lp| && Straddles(root, lp[..n], lp[n], b)
      && s.j == (if Leading(b) then lp[n] - 1 else lp[n])
      && NoneStraddles(root, lp, n, b)
    decreases |lp|
  {
    if lp != [] {
      AtParent(root, lp);
      var pl, i := Parent(lp), lp[|lp| - 1];
      assert Resolve(root, lp, k, b) == Resolve(root, pl, i, b);
      assert pl == lp[..|lp| - 1];
      if !Straddles(root, pl, i, b) {
        ResolveNearest(root, pl, i, b);
        var r := Resolve(root, pl, i, b);
        if r.Some? {
          var n := |r.value.lp|;
          assert lp[..n] == pl[..n] && lp[n] == pl[n];
        }
      }
    }
  }

  /** `findNext(c)` for the child k of the layout at lp, as written: the next sibling if
      there is one, otherwise `findNext` of the layout's PARENT within the grandparent
      (`this.layout?.layout`), which skips the layout's own next sibling. */
  function FindNext(root: Cell, lp: Path, k: nat): (r: Option<Cell>)
    requires ValidPath(root, lp) && At(root, lp).Layout? && k < |At(root, lp).cells|
    ensures k + 1 < |At(root, lp).cells| ==> r == Some(At(root, lp).cells[k + 1])
    ensures k + 1 == |At(root, lp).cells| && |lp| < 2 ==> r.None?
    ensures k + 1 == |At(root, lp).cells| && |lp| >= 2 ==>
      var g, i := lp[..|lp| - 2], lp[|lp| - 2];
      && ValidPath(root, g) && At(root, g).Layout? && i < |At(root, g).cells|
      && (i + 1 < |At(root, g).cells| ==> r == Some(At(root, g).cells[i + 1]))
    decreases |lp|
  {
    var l := At(root, lp);
    match NextCell(l.cells, k)
    case Some(n) => Some(n)
    case None =>
      if |lp| < 2 then None
      else
        AtParent(root, lp);
        AtParent(root, Parent(lp));
        assert Parent(Parent(lp)) == lp[..|lp| - 2] && Parent(lp)[|Parent(lp)| - 1] == lp[|lp| - 2];
        FindNext(root, lp[..|lp| - 2], lp[|lp| - 2])
  }

  function Max(x: real, y: real): real { if x >= y then x else y }

  function Min(x: real, y: real): real { if x <= y then x else y }

  /** The destination after `Math.max(dest, c0.off + 0.02)` and then
      `Math.min(dest, bound - 0.02)`. */
  function Clamp(dest: real, lo: real, hi: real): (r: real)
    ensures r <= hi - 0.02
    ensures lo + 0.02 <= hi - 0.02 ==> lo + 0.02 <= r
    ensures lo + 0.02 <= dest <= hi - 0.02 ==> r == dest
  {
    Min(Max(dest, lo + 0.02), hi - 0.02)
  }

  /** The layout after the border between its children j and j + 1 moves towards dest
      along a, `bound` being the upper limit: c0 shrinks and c1 grows by the distance c1's
      start travels, then c1 starts at the clamped destination.
      The two cells keep their total size and c0's offset, c1 keeps its far end, c1 starts
      at the clamped destination; nothing else changes. */
  function Moved(l: Cell, j: nat, a: Axis, dest: real, bound: real): (r: Cell)
    requires l.Layout? && j + 1 < |l.cells|
    ensures r.Layout? && SameRect(r, l) && r.dir == l.dir && |r.cells| == |l.cells|
    ensures forall k :: 0 <= k < |l.cells| && k != j && k != j + 1 ==> r.cells[k] == l.cells[k]
    ensures var c0, c1, n0, n1 := l.cells[j], l.cells[j + 1], r.cells[j], r.cells[j + 1];
      && Size(n0, a) + Size(n1, a) == Size(c0, a) + Size(c1, a)
      && Off(n0, a) == Off(c0, a)
      && Off(n1, a) == Clamp(dest, Off(c0, a), bound)
      && Off(n1, a) + Size(n1, a) == Off(c1, a) + Size(c1, a)
      && Size(n0, Other(a)) == Size(c0, Other(a)) && Off(n0, Other(a)) == Off(c0, Other(a))
      && Size(n1, Other(a)) == Size(c1, Other(a)) && Off(n1, Other(a)) == Off(c1, Other(a))
  {
    var c0, c1 := l.cells[j], l.cells[j + 1];
    var d := Clamp(dest, Off(c0, a), bound);
    var shift := Off(c1, a) - d;
    var n0 := SetSize(c0, a, Size(c0, a) - shift);
    var n1 := SetOff(SetSize(c1, a, Size(c1, a) + shift), a, d);
    l.(cells := l.cells[j := n0][j + 1 := n1])
  }

  /** Straddle s names two adjacent children of a layout of the tree. */
  predicate Adjacent(root: Cell, s: Straddle)
  {
    ValidPath(root, s.lp) && At(root, s.lp).Layout? && s.j + 1 < |At(root, s.lp).cells|
  }

  /** The tree after the border between the two cells of s moves, with the given bound. */
  function MoveAt(root: Cell, s: Straddle, b: Border, dest: real, bound: real): Cell
    requires Adjacent(root, s)
  {
    Replace(root, s.lp, Moved(At(root, s.lp), s.j, BorderAxis(b), dest, bound))
  }

  /** `max?.[off] || 1` with max = findNext(c1), as written. */
  function BoundAsWritten(root: Cell, s: Straddle, a: Axis): real
    requires Adjacent(root, s)
  {
    match FindNext(root, s.lp, s.j + 1)
    case Some(n) => if Off(n, a) != 0.0 then Off(n, a) else 1.0
    case None => 1.0
  }

  /** The far end of c1: where the cell after it starts whenever there is one in the
      same row. */
  function FarEnd(root: Cell, s: Straddle, a: Axis): real
    requires Adjacent(root, s)
  {
    var c1 := At(root, s.lp).cells[s.j + 1];
    Off(c1, a) + Size(c1, a)
  }

  /** `layout.moveBorder(cell, border, dest)` for the child k of the layout at lp, as
      written. */
  function MoveBorderAsWritten(root: Cell, lp: Path, k: nat, b: Border, dest: real): Cell
    requires ValidPath(root, lp) && At(root, lp).Layout? && k < |At(root, lp).cells|
  {
    match Resolve(root, lp, k, b)
    case None => root
    case Some(s) => MoveAt(root, s, b, dest, BoundAsWritten(root, s, BorderAxis(b)))
  }

  /** The border move with the bound it is evidently meant to have: the far end of c1. */
  function MoveBorder(root: Cell, lp: Path, k: nat, b: Border, dest: real): Cell
    requires ValidPath(root, lp) && At(root, lp).Layout? && k < |At(root, lp).cells|
  {
    match Resolve(root, lp, k, b)
    case None => root
    case Some(s) => MoveAt(root, s, b, dest, FarEnd(root, s, BorderAxis(b)))
  }

  /** Moving a border between two children of a well-formed layout, along the axis it
      divides, keeps it well formed when the bound lies beyond c0's start plus the 0.02
      margin and no further than c1's far end. */
  lemma MovedKeepsWF(l: Cell, j: nat, dest: real, bound: real)
    requires l.Layout? && WF(l) && j + 1 < |l.cells|
    requires var a, c0, c1 := Along(l.dir), l.cells[j], l.cells[j + 1];
      Off(c0, a) + 0.02 < bound <= Off(c1, a) + Size(c1, a)
    ensures WF(Moved(l, j, Along(l.dir), dest, bound))
  {
    var a := Along(l.dir);
    var cs := l.cells;
    var c0, c1 := cs[j], cs[j + 1];
    ContiguousNext(cs, a, Off(l, a), j);
    assert WF(c0) && WF(c1);
    assert Off(c0, Other(a)) == Off(l, Other(a)) && Size(c0, Other(a)) == Size(l, Other(a));
    assert Off(c1, Other(a)) == Off(l, Other(a)) && Size(c1, Other(a)) == Size(l, Other(a));
    var r := Moved(l, j, a, dest, bound);
    var n0, n1 := r.cells[j], r.cells[j + 1];
    MovedPairWF(l, j, dest, bound);
    MovedSplice(l, j, a, dest, bound);
    MovedPairFits(l, j, dest, bound);
    assert AllWF([n0, n1]) by {
      assert forall k :: 0 <= k < 2 ==> [n0, n1][k] == if k == 0 then n0 else n1;
    }
    ReplaceRunKeepsWF(l, j, j + 2, [n0, n1]);
  }

  /** The move only touches the two cells around the border. */
  lemma MovedSplice(l: Cell, j: nat, a: Axis, dest: real, bound: real)
    requires l.Layout? && j + 1 < |l.cells|
    ensures var r := Moved(l, j, a, dest, bound);
      r == l.(cells := l.cells[..j] + [r.cells[j], r.cells[j + 1]] + l.cells[j + 2..])
  {
    var r := Moved(l, j, a, dest, bound);
    assert r.cells == l.cells[..j] + [r.cells[j], r.cells[j + 1]] + l.cells[j + 2..];
  }

  /** The two moved cells are well formed. */
  lemma MovedPairWF(l: Cell, j: nat, dest: real, bound: real)
    requires l.Layout? && j + 1 < |l.cells|
    requires var a, c0, c1 := Along(l.dir), l.cells[j], l.cells[j + 1];
      && WF(c0) && WF(c1) && Off(c1, a) == Off(c0, a) + Size(c0, a)
      && Off(c0, a) + 0.02 < bound <= Off(c1, a) + Size(c1, a)
    ensures var r := Moved(l, j, Along(l.dir), dest, bound);
      WF(r.cells[j]) && WF(r.cells[j + 1])
  {
    var a := Along(l.dir);
    var c0, c1 := l.cells[j], l.cells[j + 1];
    ShiftedPairWF(c0, c1, a, Clamp(dest, Off(c0, a), bound));
  }

  /** Moving the border between two adjacent well-formed cells to a point strictly inside
      them leaves both well formed. */
  lemma ShiftedPairWF(c0: Cell, c1: Cell, a: Axis, d: real)
    requires WF(c0) && WF(c1) && Off(c1, a) == Off(c0, a) + Size(c0, a)
    requires Off(c0, a) < d < Off(c1, a) + Size(c1, a)
    ensures var shift := Off(c1, a) - d;
      && WF(SetSize(c0, a, Size(c0, a) - shift))
      && WF(SetOff(SetSize(c1, a, Size(c1, a) + shift), a, d))
  {
    var shift := Off(c1, a) - d;
    SetSizeKeepsWF(c0, a, Size(c0, a) - shift);
    SetSizeKeepsWF(c1, a, Size(c1, a) + shift);
    SetOffKeepsWF(SetSize(c1, a, Size(c1, a) + shift), a, d);
  }

  /** The two moved cells still fill the run of the two they replace. */
  lemma MovedPairFits(l: Cell, j: nat, dest: real, bound: real)
    requires l.Layout? && j + 1 < |l.cells|
    requires var a, c0, c1 := Along(l.dir), l.cells[j], l.cells[j + 1];
      && Off(c0, Other(a)) == Off(l, Other(a)) && Size(c0, Other(a)) == Size(l, Other(a))
      && Off(c1, Other(a)) == Off(l, Other(a)) && Size(c1, Other(a)) == Size(l, Other(a))
      && Off(c1, a) == Off(c0, a) + Size(c0, a)
    ensures var a, r := Along(l.dir), Moved(l, j, Along(l.dir), dest, bound);
      var ms := [r.cells[j], r.cells[j + 1]];
      && Contiguous(ms, a, Off(l.cells[j], a))
      && SumSize(ms, a) == SumSize(l.cells[j..j + 2], a)
      && Spans(ms, Other(a), Off(l, Other(a)), Size(l, Other(a)))
  {
    var a := Along(l.dir);
    var cs := l.cells;
    var c0, c1 := cs[j], cs[j + 1];
    var r := Moved(l, j, a, dest, bound);
    var n0, n1 := r.cells[j], r.cells[j + 1];
    ContiguousTwo(n0, n1, a, Off(c0, a));
    assert cs[j..j + 2] == [c0, c1];
    SumSizeTwo(c0, c1, a);
    SumSizeTwo(n0, n1, a);
  }

  /** The two cells the border separates measure more than the 0.02 margin together. */
  predicate Roomy(root: Cell, lp: Path, k: nat, b: Border)
    requires ValidPath(root, lp) && At(root, lp).Layout? && k < |At(root, lp).cells|
  {
    match Resolve(root, lp, k, b)
    case None => true
    case Some(Straddle(p, j)) =>
      Size(At(root, p).cells[j], BorderAxis(b)) + Size(At(root, p).cells[j + 1], BorderAxis(b)) > 0.02
  }

  /** The corrected move inside one well-formed layout that does not name the border. */
  lemma PairMoveKeepsWF(l: Cell, j: nat, b: Border, dest: real)
    requires l.Layout? && WF(l) && j + 1 < |l.cells| && !Names(l.dir, b)
    requires Size(l.cells[j], BorderAxis(b)) + Size(l.cells[j + 1], BorderAxis(b)) > 0.02
    ensures var a := BorderAxis(b);
      WF(Moved(l, j, a, dest, Off(l.cells[j + 1], a) + Size(l.cells[j + 1], a)))
  {
    NamesIffAcross(l.dir, b);
    var a := BorderAxis(b);
    ContiguousNext(l.cells, a, Off(l, a), j);
    MovedKeepsWF(l, j, dest, Off(l.cells[j + 1], a) + Size(l.cells[j + 1], a));
  }

  /** The corrected move inside the layout at s.lp, seen from the root. */
  lemma MoveAtKeepsWF(root: Cell, s: Straddle, b: Border, dest: real)
    requires WF(root) && Adjacent(root, s) && !Names(At(root, s.lp).dir, b)
    requires var l := At(root, s.lp);
      Size(l.cells[s.j], BorderAxis(b)) + Size(l.cells[s.j + 1], BorderAxis(b)) > 0.02
    ensures WF(MoveAt(root, s, b, dest, FarEnd(root, s, BorderAxis(b))))
  {
    var l, a := At(root, s.lp), BorderAxis(b);
    WFAt(root, s.lp);
    PairMoveKeepsWF(l, s.j, b, dest);
    ReplaceKeepsWF(root, s.lp, Moved(l, s.j, a, dest, FarEnd(root, s, a)));
  }

  /** With the far end of c1 as the bound, moving a border keeps a well-formed tree well
      formed whenever the two cells have room for the margin. */
  lemma MoveBorderKeepsWF(root: Cell, lp: Path, k: nat, b: Border, dest: real)
    requires WF(root) && ValidPath(root, lp) && At(root, lp).Layout? && k < |At(root, lp).cells|
    requires Roomy(root, lp, k, b)
    ensures WF(MoveBorder(root, lp, k, b, dest))
  {
    match Resolve(root, lp, k, b)
    case None =>
    case Some(s) =>
      assert Adjacent(root, s) && !Names(At(root, s.lp).dir, b);
      MoveAtKeepsWF(root, s, b, dest);
  }

  /** A window split side by side twice, the left half being a nested "topbottom" layout:
      panes 1 and 2 share the left half, pane 3 takes the right half. */
  function NestedRow(): Cell
  {
    Layout(TopBottom, 1.0, 1.0, 0.0, 0.0, [
      Layout(TopBottom, 0.5, 1.0, 0.0, 0.0, [Pane(1, 0.25, 1.0, 0.0, 0.0), Pane(2, 0.25, 1.0, 0.25, 0.0)]),
      Pane(3, 0.5, 1.0, 0.5, 0.0)])
  }

  /** The example tree is well formed and pane 2's left border can be dragged. */
  lemma NestedRowWF()
    ensures WF(NestedRow()) && Roomy(NestedRow(), [0], 1, Left)
  {
    var t := NestedRow();
    var w := t.cells[0];
    assert WF(w.cells[0]) && WF(w.cells[1]) && WF(t.cells[1]);
    assert w.cells[1..][1..] == [] && t.cells[1..][1..] == [];
    assert WF(w);
  }

  /** Dragging the left border of pane 2 to 0.9: as written, `findNext` finds no cell after
      pane 2 (it looks past the nested layout's own sibling, pane 3), the bound becomes 1,
      and pane 2 ends up with width -0.4. */
  lemma MoveBorderOvershoots()
    ensures ValidPath(MoveBorderAsWritten(NestedRow(), [0], 1, Left, 0.9), [0, 1])
    ensures At(MoveBorderAsWritten(NestedRow(), [0], 1, Left, 0.9), [0, 1]).sx == -0.4
    ensures !WF(MoveBorderAsWritten(NestedRow(), [0], 1, Left, 0.9))
  {
    var t := NestedRow();
    assert Resolve(t, [0], 1, Left) == Some(Straddle([0], 0));
    assert FindNext(t, [0], 1) == None;
    var r := MoveBorderAsWritten(t, [0], 1, Left, 0.9);
    assert ValidPath(r, [0, 1]);
    assert At(r, [0, 1]).sx == -0.4;
    if WF(r) {
      WFAt(r, [0, 1]);
    }
  }

  /** The same drag with c1's far end as the bound stops the border at 0.48 and keeps the
      tree well formed. */
  lemma MoveBorderStops()
    ensures ValidPath(MoveBorder(NestedRow(), [0], 1, Left, 0.9), [0, 1])
    ensures At(MoveBorder(NestedRow(), [0], 1, Left, 0.9), [0, 1]).xoff == 0.48
    ensures WF(MoveBorder(NestedRow(), [0], 1, Left, 0.9))
  {
    var t := NestedRow();
    NestedRowWF();
    assert Resolve(t, [0], 1, Left) == Some(Straddle([0], 0));
    var r := MoveBorder(t, [0], 1, Left, 0.9);
    assert ValidPath(r, [0, 1]);
    MoveBorderKeepsWF(t, [0], 1, Left, 0.9);
  }
}
