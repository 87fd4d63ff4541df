/*
 * Flipping a layout's direction: `Layout.changeDir` (src/layout.ts:366-421).
 *
 * The children are redistributed evenly along the new axis, each one taking
 * the layout's own extent across it; when the parent already has the new
 * direction, the layout dissolves into the parent, its children taking its
 * place in order.
 */
module DirectionChange {
  import opened CellGeometry
  import opened Partition
  import opened Tree
  import opened LayoutEdit

  /** The direction after the flip: "rightleft" becomes "topbottom", anything else
      "rightleft". */
  function NewDir(d: Dir): Dir { if d == RightLeft then TopBottom else RightLeft }

  /** The first step for each child: its offsets and its sizes trade axes, in the order
      y offset, x offset, width, height, each through the cascading setters. */
  function Transposed(c: Cell): (r: Cell)
    ensures r.xoff == c.yoff && r.yoff == c.xoff && r.sx == c.sy && r.sy == c.sx
    ensures r.Pane? == c.Pane? && (r.Pane? ==> r.id == c.id)
  {
    SetSize(SetSize(SetOff(SetOff(c, Y, c.xoff), X, c.yoff), X, c.sy), Y, c.sx)
  }

  /** The second step: the child is given its slot, in the order y offset, x offset,
      height, width, each through the cascading setters. */
  function Place(c: Cell, xoff: real, yoff: real, sx: real, sy: real): (r: Cell)
    ensures r.xoff == xoff && r.yoff == yoff && r.sx == sx && r.sy == sy
    ensures r.Pane? == c.Pane? && (r.Pane? ==> r.id == c.id)
  {
    SetSize(SetSize(SetOff(SetOff(c, Y, yoff), X, xoff), Y, sy), X, sx)
  }

  /** `cellSize`: the layout's extent along the new axis, shared among its n children. */
  function CellSize(l: Cell): real
    requires l.Layout? && l.dir != TBD && |l.cells| > 0
  {
    if l.dir == TopBottom then l.sy / (|l.cells| as real) else l.sx / (|l.cells| as real)
  }

  /** Child i after the flip. */
  function Flipped(l: Cell, i: nat): Cell
    requires l.Layout? && l.dir != TBD && i < |l.cells|
  {
    FlippedAt(l, i, CellSize(l))
  }

  /** Child i after the flip, for slots of size cs. */
  function FlippedAt(l: Cell, i: nat, cs: real): Cell
    requires l.Layout? && i < |l.cells|
  {
    var t := Transposed(l.cells[i]);
    if l.dir == TopBottom then Place(t, l.xoff, l.yoff + cs * (i as real), l.sx, cs)
    else Place(t, l.xoff + cs * (i as real), l.yoff, cs, l.sy)
  }

  /** The children after the flip, child i in place i. */
  function FlipAll(l: Cell): (r: seq<Cell>)
    requires l.Layout? && l.dir != TBD
    ensures |r| == |l.cells|
  {
    seq(|l.cells|, i requires 0 <= i < |l.cells| => Flipped(l, i))
  }

  /** `layout.changeDir()` on the layout at lp. A TBD layout is left alone; the root
      layout, having no parent to merge into, is flipped where it is. */
  function ChangeDir(root: Cell, lp: Path): (r: Cell)
    requires ValidPath(root, lp) && At(root, lp).Layout?
    ensures At(root, lp).dir == TBD ==> r == root
    ensures lp == [] && root.dir != TBD ==> r == root.(dir := NewDir(root.dir), cells := FlipAll(root))
  {
    var l := At(root, lp);
    if l.dir == TBD then root
    else
      var flipped := l.(dir := NewDir(l.dir), cells := FlipAll(l));
      if lp != [] && (AtParent(root, lp); At(root, Parent(lp)).dir == flipped.dir) then
        var parent := At(root, Parent(lp));
        Replace(root, Parent(lp), parent.(cells := Splice(parent.cells, lp[|lp| - 1], 1, flipped.cells)))
      else
        Replace(root, lp, flipped)
  }

  lemma TransposedWF(c: Cell)
    requires WF(c)
    ensures WF(Transposed(c))
  {
    var o1 := SetOff(c, Y, c.xoff);
    var o2 := SetOff(o1, X, c.yoff);
    var s1 := SetSize(o2, X, c.sy);
    SetOffKeepsWF(c, Y, c.xoff);
    SetOffKeepsWF(o1, X, c.yoff);
    SetSizeKeepsWF(o2, X, c.sy);
    SetSizeKeepsWF(s1, Y, c.sx);
  }

  lemma PlaceWF(c: Cell, xoff: real, yoff: real, sx: real, sy: real)
    requires WF(c) && sx > 0.0 && sy > 0.0
    ensures WF(Place(c, xoff, yoff, sx, sy))
  {
    var p1 := SetOff(c, Y, yoff);
    var p2 := SetOff(p1, X, xoff);
    var p3 := SetSize(p2, Y, sy);
    SetOffKeepsWF(c, Y, yoff);
    SetOffKeepsWF(p1, X, xoff);
    SetSizeKeepsWF(p2, Y, sy);
    SetSizeKeepsWF(p3, X, sx);
  }

  lemma CellSizePositive(l: Cell)
    requires l.Layout? && l.dir != TBD && |l.cells| > 0 && l.sx > 0.0 && l.sy > 0.0
    ensures CellSize(l) > 0.0
  {
    var n := |l.cells| as real;
    assert n > 0.0;
    assert l.sy / n > 0.0 && l.sx / n > 0.0;
  }

  /** A well-formed child stays well formed in its new slot. */
  lemma FlippedWF(l: Cell, i: nat)
    requires l.Layout? && l.dir != TBD && i < |l.cells| && WF(l.cells[i]) && l.sx > 0.0 && l.sy > 0.0
    ensures WF(Flipped(l, i))
  {
    CellSizePositive(l);
    TransposedWF(l.cells[i]);
    var cs := CellSize(l);
    var t := Transposed(l.cells[i]);
    var at := cs * (i as real);
    if l.dir == TopBottom {
      assert Flipped(l, i) == Place(t, l.xoff, l.yoff + at, l.sx, cs);
      PlaceWF(t, l.xoff, l.yoff + at, l.sx, cs);
    } else {
      assert Flipped(l, i) == Place(t, l.xoff + at, l.yoff, cs, l.sy);
      PlaceWF(t, l.xoff + at, l.yoff, cs, l.sy);
    }
  }

  lemma SharesAddUp(total: real, n: real)
    requires n > 0.0
    ensures (total / n) * n == total
  {
  }

  /** The start of slot i of a row of slots of size step starting at base, by repeated
      addition. */
  function Slot(base: real, step: real, i: nat): real
    decreases i
  {
    if i == 0 then base else Slot(base, step, i - 1) + step
  }

  lemma {:induction false} SlotIs(base: real, step: real, i: nat)
    ensures Slot(base, step, i) == base + step * (i as real)
    decreases i
  {
    if i > 0 {
      SlotIs(base, step, i - 1);
      assert step * ((i - 1) as real) + step == step * (i as real);
    }
  }

  /** Cell k of cs has size step and starts slot i0 + k of a row starting at base. */
  predicate EvenSlots(cs: seq<Cell>, a: Axis, base: real, step: real, i0: nat)
  {
    forall k :: 0 <= k < |cs| ==> Size(cs[k], a) == step && Off(cs[k], a) == Slot(base, step, i0 + k)
  }

  lemma EvenSlotsTail(cs: seq<Cell>, a: Axis, base: real, step: real, i0: nat)
    requires cs != [] && EvenSlots(cs, a, base, step, i0)
    ensures EvenSlots(cs[1..], a, base, step, i0 + 1)
  {
    forall k | 0 <= k < |cs| - 1
      ensures Size(cs[1..][k], a) == step && Off(cs[1..][k], a) == Slot(base, step, i0 + 1 + k)
    {
      assert cs[1..][k] == cs[k + 1];
      assert i0 + 1 + k == i0 + (k + 1);
    }
  }

  /** Cells in consecutive equal slots from slot i0 on form a contiguous row whose total is
      the slot size times their number. */
  lemma {:induction false} EvenRow(cs: seq<Cell>, a: Axis, base: real, step: real, i0: nat)
    requires EvenSlots(cs, a, base, step, i0)
    ensures Contiguous(cs, a, Slot(base, step, i0))
    ensures SumSize(cs, a) == Slot(0.0, step, |cs|)
    decreases |cs|
  {
    if cs != [] {
      EvenSlotsTail(cs, a, base, step, i0);
      EvenRow(cs[1..], a, base, step, i0 + 1);
      assert Off(cs[0], a) == Slot(base, step, i0 + 0) && Size(cs[0], a) == step;
    }
  }

  /** Child i after the flip takes the i-th of n equal slots along the new axis, and the
      layout's own offset and size across it; it stays a pane with the same id or a
      layout. */
  lemma FlippedPlaced(l: Cell, i: nat)
    requires l.Layout? && l.dir != TBD && i < |l.cells|
    ensures var a, n, f := Along(NewDir(l.dir)), |l.cells| as real, Flipped(l, i);
      && Size(f, a) == Size(l, a) / n
      && Off(f, a) == Off(l, a) + Size(l, a) / n * (i as real)
      && Size(f, Other(a)) == Size(l, Other(a))
      && Off(f, Other(a)) == Off(l, Other(a))
      && f.Pane? == l.cells[i].Pane?
      && (f.Pane? ==> f.id == l.cells[i].id)
  {
  }

  /** The flipped children share the layout evenly along the new axis, each taking the
      layout's whole extent across it. */
  lemma FlipAllPlaced(l: Cell)
    requires l.Layout? && l.dir != TBD
    ensures var a, n, r := Along(NewDir(l.dir)), |l.cells| as real, FlipAll(l);
      forall i :: 0 <= i < |r| ==>
        && Size(r[i], a) == Size(l, a) / n
        && Off(r[i], a) == Off(l, a) + Size(l, a) / n * (i as real)
        && Size(r[i], Other(a)) == Size(l, Other(a))
        && Off(r[i], Other(a)) == Off(l, Other(a))
        && r[i].Pane? == l.cells[i].Pane?
        && (r[i].Pane? ==> r[i].id == l.cells[i].id)
  {
    forall i | 0 <= i < |l.cells| {
      FlippedPlaced(l, i);
    }
  }

  /** The flipped children sit in consecutive equal slots from the layout's offset. */
  lemma FlipAllSlots(l: Cell)
    requires l.Layout? && l.dir != TBD && |l.cells| > 0
    ensures var a := Along(NewDir(l.dir));
      EvenSlots(FlipAll(l), a, Off(l, a), Size(l, a) / (|l.cells| as real), 0)
  {
    var a := Along(NewDir(l.dir));
    var step := Size(l, a) / (|l.cells| as real);
    var fs := FlipAll(l);
    forall k | 0 <= k < |fs| ensures Size(fs[k], a) == step && Off(fs[k], a) == Slot(Off(l, a), step, 0 + k) {
      assert fs[k] == Flipped(l, k);
      FlippedInSlot(l, k);
    }
  }

  lemma FlippedInSlot(l: Cell, k: nat)
    requires l.Layout? && l.dir != TBD && k < |l.cells|
    ensures var a := Along(NewDir(l.dir));
      var step := Size(l, a) / (|l.cells| as real);
      Size(Flipped(l, k), a) == step && Off(Flipped(l, k), a) == Slot(Off(l, a), step, k)
  {
    var a := Along(NewDir(l.dir));
    FlippedPlaced(l, k);
    SlotIs(Off(l, a), Size(l, a) / (|l.cells| as real), k);
  }

  /** n slots of a total shared n ways add up to the total. */
  lemma SlotsTotal(total: real, n: nat)
    requires n > 0
    ensures Slot(0.0, total / (n as real), n) == total
  {
    SlotIs(0.0, total / (n as real), n);
    SharesAddUp(total, n as real);
  }

  /** The flipped children form a row filling the layout along the new axis. */
  lemma FlipAllRow(l: Cell)
    requires l.Layout? && l.dir != TBD && |l.cells| > 0
    ensures var a := Along(NewDir(l.dir));
      Contiguous(FlipAll(l), a, Off(l, a)) && SumSize(FlipAll(l), a) == Size(l, a)
  {
    var a := Along(NewDir(l.dir));
    var step := Size(l, a) / (|l.cells| as real);
    FlipAllSlots(l);
    EvenRow(FlipAll(l), a, Off(l, a), step, 0);
    SlotsTotal(Size(l, a), |l.cells|);
  }

  /** The flipped layout is well formed: its children fill it evenly along the new axis. */
  lemma FlippedLayoutWF(l: Cell)
    requires l.Layout? && WF(l) && l.dir != TBD
    ensures WF(l.(dir := NewDir(l.dir), cells := FlipAll(l)))
  {
    var f := l.(dir := NewDir(l.dir), cells := FlipAll(l));
    FlipAllPlaced(l);
    FlipAllRow(l);
    forall i | 0 <= i < |f.cells| ensures WF(f.cells[i]) {
      assert WF(l.cells[i]);
      FlippedWF(l, i);
    }
    assert Partitioned(f);
  }

  /** Flipping a layout of a well-formed tree keeps the tree well formed, whether the
      layout stays or dissolves into a parent of the new direction. */
  lemma ChangeDirKeepsWF(root: Cell, lp: Path)
    requires WF(root) && ValidPath(root, lp) && At(root, lp).Layout?
    ensures WF(ChangeDir(root, lp))
  {
    var l := At(root, lp);
    if l.dir != TBD {
      WFAt(root, lp);
      FlippedLayoutWF(l);
      var f := l.(dir := NewDir(l.dir), cells := FlipAll(l));
      if lp != [] && (AtParent(root, lp); At(root, Parent(lp)).dir == f.dir) {
        var pp, i := Parent(lp), lp[|lp| - 1];
        var parent := At(root, pp);
        WFAt(root, pp);
        DissolveKeepsWF(parent, i, f);
        ReplaceKeepsWF(root, pp, parent.(cells := Splice(parent.cells, i, 1, f.cells)));
      } else {
        ReplaceKeepsWF(root, lp, f);
      }
    }
  }

  /** A well-formed layout f with the rectangle of child i of a parent of its own direction
      can be replaced in the parent by its children. */
  lemma DissolveKeepsWF(parent: Cell, i: nat, f: Cell)
    requires parent.Layout? && WF(parent) && i < |parent.cells| && WF(f) && f.Layout?
    requires f.dir == parent.dir && SameRect(f, parent.cells[i])
    ensures WF(parent.(cells := Splice(parent.cells, i, 1, f.cells)))
  {
    ChildSpansAcross(parent, i);
    DissolvedFits(parent, i, f);
    ReplaceRunKeepsWF(parent, i, i + 1, f.cells);
  }

  /** Child i of a well-formed layout has the layout's offset and extent across the
      layout's axis. */
  lemma ChildSpansAcross(l: Cell, i: nat)
    requires l.Layout? && WF(l) && i < |l.cells|
    ensures var a, c := Along(l.dir), l.cells[i];
      Off(c, Other(a)) == Off(l, Other(a)) && Size(c, Other(a)) == Size(l, Other(a))
  {
  }

  /** The children of a layout f with the rectangle of child i of a parent of its own
      direction tile the stretch of that child. */
  lemma DissolvedFits(parent: Cell, i: nat, f: Cell)
    requires parent.Layout? && i < |parent.cells| && f.Layout? && Partitioned(f)
    requires f.dir == parent.dir && SameRect(f, parent.cells[i])
    requires var a, c := Along(parent.dir), parent.cells[i];
      Off(c, Other(a)) == Off(parent, Other(a)) && Size(c, Other(a)) == Size(parent, Other(a))
    ensures var a, cs := Along(parent.dir), parent.cells;
      && Contiguous(f.cells, a, Off(cs[i], a))
      && SumSize(f.cells, a) == SumSize(cs[i..i + 1], a)
      && Spans(f.cells, Other(a), Off(parent, Other(a)), Size(parent, Other(a)))
  {
    var a := Along(parent.dir);
    var cs := parent.cells;
    assert cs[i..i + 1] == [cs[i]];
    SumSizeOne(cs[i], a);
  }

  /** When the parent already has the new direction, the flipped children take the
      layout's place in the parent, in order; otherwise the layout stays where it was with
      the new direction and the flipped children. */
  lemma ChangeDirPlaces(root: Cell, pp: Path, i: nat)
    requires ValidPath(root, pp) && At(root, pp).Layout? && i < |At(root, pp).cells|
    requires ValidPath(root, pp + [i]) && At(root, pp + [i]).Layout? && At(root, pp + [i]).dir != TBD
    ensures var l, parent, r := At(root, pp + [i]), At(root, pp), ChangeDir(root, pp + [i]);
      && (parent.dir == NewDir(l.dir) ==>
            ValidPath(r, pp) && At(r, pp).Layout? && At(r, pp).cells == parent.cells[..i] + FlipAll(l) + parent.cells[i + 1..])
      && (parent.dir != NewDir(l.dir) ==>
            ValidPath(r, pp + [i]) && At(r, pp + [i]) == l.(dir := NewDir(l.dir), cells := FlipAll(l)))
  {
    var lp := pp + [i];
    assert Parent(lp) == pp && lp[|lp| - 1] == i;
    var l, parent := At(root, lp), At(root, pp);
    if parent.dir == NewDir(l.dir) {
      var np := parent.(cells := Splice(parent.cells, i, 1, FlipAll(l)));
      ReplaceAt(root, pp, np);
    } else {
      ReplaceAt(root, lp, l.(dir := NewDir(l.dir), cells := FlipAll(l)));
    }
  }
}
