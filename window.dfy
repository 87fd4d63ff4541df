/*
 * A window of the tiling layout: the root of its tree of cells, whether it has
 * been closed, and the length of the registry of cells every new pane and
 * layout is pushed onto (a new pane's id is that length before the push).
 *
 * The operations of src/layout.ts and `Pane.split` (src/pane.ts:326-361) that
 * change the tree in place are the methods of this class; each is proved
 * against the function of the same name that specifies it, and the lemmas
 * about those functions say what the operation promises.
 */
module Windows {
  import opened Options
  import opened CellGeometry
  import opened Partition
  import opened Tree
  import opened LayoutEdit
  import opened Splitting
  import opened Closing
  import opened Borders
  import opened DirectionChange

  /** The loop of `changeDir` over a layout's children: each child's axes are swapped and
      it is given the i-th of n equal slots along the new axis. */
  method FlipChildren(l: Cell) returns (cs: seq<Cell>)
    requires l.Layout? && l.dir != TBD
    ensures cs == FlipAll(l)
  {
    var n := |l.cells|;
    var cellSize := if n == 0 then 0.0 else if l.dir == TopBottom then l.sy / (n as real) else l.sx / (n as real);
    cs := [];
    var i := 0;
    while i < n
      invariant 0 <= i <= n && |cs| == i
      invariant forall k :: 0 <= k < i ==> cs[k] == Flipped(l, k)
    {
      var c := Transposed(l.cells[i]);
      if l.dir == TopBottom {
        c := Place(c, l.xoff, l.yoff + cellSize * (i as real), l.sx, cellSize);
      } else {
        c := Place(c, l.xoff + cellSize * (i as real), l.yoff, cellSize, l.sy);
      }
      assert cellSize == CellSize(l) && c == FlippedAt(l, i, cellSize);
      FlippedSnoc(l, cs, c);
      cs := cs + [c];
      i := i + 1;
    }
    assert forall k :: 0 <= k < n ==> FlipAll(l)[k] == Flipped(l, k);
  }

  /** Appending the next flipped child to the first ones. */
  lemma FlippedSnoc(l: Cell, cs: seq<Cell>, c: Cell)
    requires l.Layout? && l.dir != TBD && |cs| < |l.cells|
    requires forall k :: 0 <= k < |cs| ==> cs[k] == Flipped(l, k)
    requires c == Flipped(l, |cs|)
    ensures forall k :: 0 <= k < |cs| + 1 ==> (cs + [c])[k] == Flipped(l, k)
  {
  }

  class Window {
    var root: Cell
    var closed: bool
    var registry: nat

    /** The tree tiles the window. */
    ghost predicate Valid()
      reads this
    {
      WF(root)
    }

    /** A fresh window: a TBD layout (registry slot 0) holding one pane (slot 1) that
        covers the given rectangle. */
    constructor (sx: real, sy: real, xoff: real, yoff: real)
      requires sx > 0.0 && sy > 0.0
      ensures root == Layout(TBD, sx, sy, xoff, yoff, [Pane(1, sx, sy, xoff, yoff)])
      ensures !closed && registry == 2
      ensures Valid()
    {
      root := Layout(TBD, sx, sy, xoff, yoff, [Pane(1, sx, sy, xoff, yoff)]);
      closed := false;
      registry := 2;
      WrapFacts(TBD, Pane(1, sx, sy, xoff, yoff));
    }

    /** `new Layout(dir, basedOn)` for the cell at p, registered like every cell. */
    method WrapCell(p: Path, d: Dir)
      requires ValidPath(root, p)
      modifies this
      ensures root == WrapAt(old(root), p, d)
      ensures registry == old(registry) + 1 && closed == old(closed)
      ensures old(Valid()) ==> Valid()
    {
      if WF(root) {
        WFAt(root, p);
        WrapFacts(d, At(root, p));
        ReplaceKeepsWF(root, p, Wrap(d, At(root, p)));
      }
      root := Replace(root, p, Wrap(d, At(root, p)));
      registry := registry + 1;
    }

    /** `layout.addPane(props, index)` on the layout at lp: the new pane takes the next
        registry id. */
    method AddPaneAt(lp: Path, at: Placement, sx: real, sy: real, xoff: real, yoff: real) returns (id: nat)
      requires ValidPath(root, lp) && At(root, lp).Layout?
      modifies this
      ensures id == old(registry) && registry == old(registry) + 1 && closed == old(closed)
      ensures root == Replace(old(root), lp, AddPane(At(old(root), lp), Pane(id, sx, sy, xoff, yoff), at))
    {
      id := registry;
      registry := registry + 1;
      root := Replace(root, lp, AddPane(At(root, lp), Pane(id, sx, sy, xoff, yoff), at));
    }

    /** `pane.split(dir, s)` for the pane at q; returns where the new pane is, or None
        when the pane may not be split. */
    method SplitPane(q: Path, d: Dir, s: real, minSize: real, maxPanes: nat) returns (born: Option<Path>)
      requires ValidPath(root, q) && q != [] && At(root, q).Pane?
      modifies this
      ensures var r := Split(old(root), q, d, s, minSize, maxPanes, old(registry));
        && (r.None? ==> born.None? && root == old(root) && registry == old(registry))
        && (r.Some? ==> born == Some(r.value.pane) && root == r.value.root
                        && registry == old(registry) + r.value.slots)
      ensures closed == old(closed)
      ensures old(Valid()) && 0.0 < s < 1.0 ==> Valid()
    {
      if WF(root) && 0.0 < s < 1.0 {
        SplitKeepsWF(root, q, d, s, minSize, maxPanes, registry);
      }
      var r := Split(root, q, d, s, minSize, maxPanes, registry);
      match r
      case None =>
        born := None;
      case Some(SplitResult(t, p, slots)) =>
        root := t;
        registry := registry + slots;
        born := Some(p);
    }

    /** `layout.onClose(c)` for the cell at q, climbing while the closed cell was its
        layout's only child. Every level removes one registry entry (none once the
        registry is empty); at the root the window is closed. */
    method CloseCell(q: Path)
      requires ValidPath(root, q) && q != []
      modifies this
      ensures var c := Close(old(root), q);
        && root == c.root
        && closed == (old(closed) || c.windowClosed)
        && registry == (if old(registry) >= c.released then old(registry) - c.released else 0)
      ensures old(Valid()) ==> Valid()
    {
      if WF(root) {
        CloseKeepsWF(root, q);
      }
      ghost var target := Close(root, q);
      var cur: Path := q;
      AtParent(root, cur);
      while |At(root, Parent(cur)).cells| == 1 && Parent(cur) != []
        invariant root == old(root) && closed == old(closed)
        invariant ValidPath(root, cur) && cur != [] && |cur| <= |q|
        invariant ValidPath(root, Parent(cur)) && At(root, Parent(cur)).Layout?
        invariant cur[|cur| - 1] < |At(root, Parent(cur)).cells|
        invariant target.root == Close(root, cur).root
        invariant target.windowClosed == Close(root, cur).windowClosed
        invariant target.released == Close(root, cur).released + |q| - |cur|
        invariant registry == (if old(registry) >= |q| - |cur| then old(registry) - (|q| - |cur|) else 0)
        decreases |cur|
      {
        if registry > 0 {
          registry := registry - 1;
        }
        cur := Parent(cur);
        AtParent(root, cur);
      }
      if registry > 0 {
        registry := registry - 1;
      }
      CloseAt(cur);
    }

    /** The last step of CloseCell: cur's parent has other children, or is the top. */
    method CloseAt(cur: Path)
      requires ValidPath(root, cur) && cur != []
      requires ValidPath(root, Parent(cur)) && At(root, Parent(cur)).Layout?
      requires |At(root, Parent(cur)).cells| != 1 || Parent(cur) == []
      modifies this
      ensures var c := Close(old(root), cur);
        root == c.root && closed == (old(closed) || c.windowClosed) && registry == old(registry)
    {
      AtParent(root, cur);
      var lp := Parent(cur);
      var l := At(root, lp);
      var i := cur[|cur| - 1];
      if |l.cells| == 1 {
        assert Close(root, cur) == Closed(root, true, 1);
        closed := true;
      } else {
        var j := PeerIndex(i);
        var cells := l.cells[j := Absorb(l.cells[j], l.cells[i], Along(l.dir))];
        assert Close(root, cur) == Closed(Replace(root, lp, l.(cells := Splice(cells, i, 1, []))), false, 1);
        root := Replace(root, lp, l.(cells := Splice(cells, i, 1, [])));
      }
    }

    /** `layout.moveBorder(cell, border, dest)` for child k of the layout at lp, with the
        bound c1's far end (see Borders.MoveBorderAsWritten for the bound as written). */
    method DragBorder(lp: Path, k: nat, b: Border, dest: real)
      requires ValidPath(root, lp) && At(root, lp).Layout? && k < |At(root, lp).cells|
      modifies this
      ensures root == MoveBorder(old(root), lp, k, b, dest)
      ensures registry == old(registry) && closed == old(closed)
      ensures old(Valid()) && Roomy(old(root), lp, k, b) ==> Valid()
    {
      if WF(root) && Roomy(root, lp, k, b) {
        MoveBorderKeepsWF(root, lp, k, b, dest);
      }
      match Resolve(root, lp, k, b)
      case None =>
      case Some(s) =>
        var a := BorderAxis(b);
        var l := At(root, s.lp);
        root := Replace(root, s.lp, Moved(l, s.j, a, dest, FarEnd(root, s, a)));
    }

    /** `layout.changeDir()` on the layout at lp: one pass over the children that swaps
        each child's axes and gives it its slot, then the flip in place or the flattening
        into a parent that already has the new direction. */
    method FlipLayout(lp: Path)
      requires ValidPath(root, lp) && At(root, lp).Layout?
      modifies this
      ensures root == ChangeDir(old(root), lp)
      ensures registry == old(registry) && closed == old(closed)
      ensures old(Valid()) ==> Valid()
    {
      if WF(root) {
        ChangeDirKeepsWF(root, lp);
      }
      var l := At(root, lp);
      if l.dir == TBD {
        return;
      }
      var cs := FlipChildren(l);
      var flipped := l.(dir := NewDir(l.dir), cells := cs);
      if lp != [] {
        AtParent(root, lp);
        var parent := At(root, Parent(lp));
        if parent.dir == flipped.dir {
          root := Replace(root, Parent(lp), parent.(cells := Splice(parent.cells, lp[|lp| - 1], 1, cs)));
          return;
        }
      }
      root := Replace(root, lp, flipped);
    }
  }
}
