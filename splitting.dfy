/*
 * Growing the tree: wrapping a cell in a new layout (the Layout constructor,
 * src/layout.ts:31-53), `addPane` (src/layout.ts:121-144), and `Pane.split`
 * with its guard `isSplittable` (src/pane.ts:326-361, 1263-1271).
 */
module Splitting {
  import opened Options
  import opened CellGeometry
  import opened Partition
  import opened Tree
  import opened LayoutEdit

  /** JavaScript's `x || d` on a number (a NaN `x` is not modelled). */
  function Or(x: real, d: real): real { if x == 0.0 then d else x }

  /** `new Layout(dir, basedOn)`: a layout with basedOn's geometry (falsy sizes read as 1,
      falsy offsets as 0) whose only child is basedOn. */
  function Wrap(d: Dir, basedOn: Cell): (w: Cell)
    ensures w.Layout? && w.dir == d && w.cells == [basedOn]
  {
    Layout(d, Or(basedOn.sx, 1.0), Or(basedOn.sy, 1.0), Or(basedOn.xoff, 0.0), Or(basedOn.yoff, 0.0), [basedOn])
  }

  /** The tree after wrapping the cell at p: the new layout takes basedOn's place in its parent. */
  function WrapAt(root: Cell, p: Path, d: Dir): Cell
    requires ValidPath(root, p)
  {
    Replace(root, p, Wrap(d, At(root, p)))
  }

  /** A wrapper of a well-formed cell has the cell's rectangle and is well formed. */
  lemma WrapFacts(d: Dir, c: Cell)
    requires WF(c)
    ensures SameRect(Wrap(d, c), c) && WF(Wrap(d, c))
  {
    var l := Wrap(d, c);
    SingleChildPartitioned(l);
  }

  /** Wrapping replaces basedOn by the new layout at the same index of its parent, and
      leaves the parent's other children and its length alone; the new layout holds
      basedOn and copies its geometry; the tree stays well formed. */
  lemma WrapInParent(root: Cell, p: Path, d: Dir)
    requires WF(root) && ValidPath(root, p) && p != []
    ensures var r := WrapAt(root, p, d);
      var q := Parent(p);
      && ValidPath(root, q) && ValidPath(r, q) && ValidPath(r, p)
      && At(r, q).Layout? && At(root, q).Layout? && p[|p| - 1] < |At(root, q).cells|
      && At(r, q).cells == At(root, q).cells[p[|p| - 1] := At(r, p)]
      && At(r, p).Layout? && At(r, p).dir == d && At(r, p).cells == [At(root, p)]
      && SameRect(At(r, p), At(root, p))
      && WF(r)
  {
    var q := Parent(p);
    var i := p[|p| - 1];
    var w := Wrap(d, At(root, p));
    AtParent(root, p);
    assert p == q + [i];
    ReplaceChild(root, q, i, w);
    var l := At(root, q).(cells := At(root, q).cells[i := w]);
    ReplaceAt(root, q, l);
    ReplaceAt(root, p, w);
    WFAt(root, p);
    WrapFacts(d, At(root, p));
    ReplaceKeepsWF(root, p, w);
  }

  /** Where `addPane` puts the new pane: after the cell at index `index` (`props.parent`,
      -1 when that cell is not a child), over the child at `index`, or at the end. */
  datatype Placement = AfterParent(index: int) | AtIndex(index: int) | Append

  /** `addPane`: the layout after the new pane is spliced into its children. */
  function AddPane(l: Cell, pane: Cell, at: Placement): (r: Cell)
    requires l.Layout?
    ensures r.Layout? && SameRect(r, l) && r.dir == l.dir
    ensures at.AfterParent? && -1 <= at.index < |l.cells| ==>
      r.cells == l.cells[..at.index + 1] + [pane] + l.cells[at.index + 1..]
    ensures at.AtIndex? && 0 <= at.index < |l.cells| ==> r.cells == l.cells[at.index := pane]
    ensures at.Append? ==> r.cells == l.cells + [pane]
  {
    match at
    case AfterParent(k) => l.(cells := Splice(l.cells, k + 1, 0, [pane]))
    case AtIndex(i) => l.(cells := Splice(l.cells, i, 1, [pane]))
    case Append => l.(cells := l.cells + [pane])
  }

  /** `isSplittable`: false when the window holds more than maxPanes panes; otherwise
      "topbottom" needs the pane's width and "rightleft" its height to reach minSize. */
  function IsSplittable(root: Cell, pane: Cell, d: Dir, minSize: real, maxPanes: nat): (b: bool)
    ensures b <==> NumPanes(root) <= maxPanes && d != TBD && Size(pane, Along(d)) >= minSize
  {
    if NumPanes(root) > maxPanes then false
    else if d == TopBottom then pane.sx >= minSize
    else if d == RightLeft then pane.sy >= minSize
    else false
  }

  /** The new pane's share `x * (1 - s)` of an extent x. It is positive and smaller
      than x when x is positive and 0 < s < 1, and it leaves exactly `x * s`. */
  function Share(x: real, s: real): (r: real)
    ensures 0.0 < x && 0.0 < s < 1.0 ==> 0.0 < r < x
    ensures x - r == x * s
  {
    assert x * (1.0 - s) == x - x * s;
    assert 0.0 < x && 0.0 < s < 1.0 ==> 0.0 < x * s < x;
    x * (1.0 - s)
  }

  /** What a split pane keeps: its extent along the split's axis minus the new pane's
      share, as the source writes it. */
  function Kept(pane: Cell, d: Dir, s: real): Cell
  {
    if d == RightLeft then pane.(sy := pane.sy - Share(pane.sy, s))
    else pane.(sx := pane.sx - Share(pane.sx, s))
  }

  /** The new pane of a split, with id `id`: the share `1 - s` of the extent, right
      after what the pane keeps. */
  function Born(pane: Cell, d: Dir, s: real, id: nat): Cell
  {
    if d == RightLeft then Pane(id, pane.sx, Share(pane.sy, s), pane.xoff, pane.yoff + Kept(pane, d, s).sy)
    else Pane(id, Share(pane.sx, s), pane.sy, pane.xoff + Kept(pane, d, s).sx, pane.yoff)
  }

  /** The layout built when the parent's direction differs from the split's: a new
      layout of direction d based on the pane, holding what the pane keeps and then
      the new pane. */
  function WrapHalves(pane: Cell, d: Dir, kept: Cell, born: Cell): (w: Cell)
    ensures w.Layout? && w.dir == d && w.cells == [kept, born]
    ensures SameRect(w, Wrap(d, pane))
  {
    var w := Wrap(d, pane);
    AddPane(w.(cells := [kept]), born, AfterParent(0))
  }

  /** The halves of a split tile the pane's rectangle, the pane keeping `s` of it. */
  lemma HalvesTile(pane: Cell, d: Dir, s: real, id: nat)
    requires pane.Pane? && d != TBD
    ensures var kept := Kept(pane, d, s);
      var born := Born(pane, d, s, id);
      var a := Along(d);
      && kept.Pane? && kept.id == pane.id && born.Pane? && born.id == id
      && Size(kept, a) + Size(born, a) == Size(pane, a)
      && Size(kept, a) == Size(pane, a) * s
      && Off(kept, a) == Off(pane, a) && Off(born, a) == Off(pane, a) + Size(kept, a)
      && Off(kept, Other(a)) == Off(born, Other(a)) == Off(pane, Other(a))
      && Size(kept, Other(a)) == Size(born, Other(a)) == Size(pane, Other(a))
  {
  }

  datatype SplitResult = SplitResult(root: Cell, pane: Path, slots: nat)

  /** `Pane.split(dir, s)` on the pane at path q. Nothing happens when the pane is not
      splittable. A TBD or single-child parent adopts dir; if the parent's direction still
      differs, the pane is first wrapped in a new layout of direction dir, which takes a
      registry slot. The pane then keeps `s` of its extent and the new pane, with the next
      registry id, is inserted right after it. The result says where the new pane is and
      how many registry slots were taken. */
  function Split(root: Cell, q: Path, d: Dir, s: real, minSize: real, maxPanes: nat, nextId: nat): (r: Option<SplitResult>)
    requires ValidPath(root, q) && q != [] && At(root, q).Pane?
    ensures r.None? <==> !IsSplittable(root, At(root, q), d, minSize, maxPanes)
    ensures r.Some? ==> r.value.slots > 0 && PlacesHalves(r.value, d, At(root, q), s, nextId + r.value.slots - 1)
  {
    var pane := At(root, q);
    if !IsSplittable(root, pane, d, minSize, maxPanes) then None
    else
      AtParent(root, q);
      var p := Parent(q);
      var i := q[|q| - 1];
      var l := At(root, p);
      var l1 := if l.dir == TBD || |l.cells| == 1 then l.(dir := d) else l;
      if l1.dir != d then Some(SplitWrapped(root, q, pane, d, s, nextId + 1))
      else Some(SplitInPlace(root, p, l1, i, pane, d, s, nextId))
  }

  /** The split when the pane is first wrapped: the wrapper, of direction d, takes the
      pane's place and holds the two halves; the new pane is its second child. */
  function SplitWrapped(root: Cell, q: Path, pane: Cell, d: Dir, s: real, id: nat): (r: SplitResult)
    requires ValidPath(root, q)
    ensures r.slots == 2 && PlacesHalves(r, d, pane, s, id)
    ensures r.pane == q + [1]
    ensures ValidPath(r.root, q) && At(r.root, q) == WrapHalves(pane, d, Kept(pane, d, s), Born(pane, d, s, id))
    ensures forall p2 :: ValidPath(root, p2) && !(q <= p2) && !(p2 <= q) ==>
      ValidPath(r.root, p2) && At(r.root, p2) == At(root, p2)
  {
    var w := WrapHalves(pane, d, Kept(pane, d, s), Born(pane, d, s, id));
    ReplaceAt(root, q, w);
    assert Parent(q + [1]) == q;
    forall p2 | ValidPath(root, p2) && !(q <= p2) && !(p2 <= q)
      ensures ValidPath(Replace(root, q, w), p2) && At(Replace(root, q, w), p2) == At(root, p2)
    {
      ReplaceFrame(root, q, w, p2);
    }
    SplitResult(Replace(root, q, w), q + [1], 2)
  }

  /** The split in the parent l1 of direction d: the pane, child i, keeps its share and the
      new pane is inserted right after it. */
  function SplitInPlace(root: Cell, p: Path, l1: Cell, i: nat, pane: Cell, d: Dir, s: real, id: nat): (r: SplitResult)
    requires ValidPath(root, p) && l1.Layout? && l1.dir == d && i < |l1.cells|
    ensures r.slots == 1 && PlacesHalves(r, d, pane, s, id)
    ensures r.pane == p + [i + 1]
    ensures ValidPath(r.root, p) && At(r.root, p).Layout? && At(r.root, p).dir == d && SameRect(At(r.root, p), l1)
    ensures At(r.root, p).cells == l1.cells[..i] + [Kept(pane, d, s), Born(pane, d, s, id)] + l1.cells[i + 1..]
    ensures forall p2 :: ValidPath(root, p2) && !(p <= p2) && !(p2 <= p) ==>
      ValidPath(r.root, p2) && At(r.root, p2) == At(root, p2)
  {
    var l2 := AddPane(l1.(cells := l1.cells[i := Kept(pane, d, s)]), Born(pane, d, s, id), AfterParent(i));
    ReplaceAt(root, p, l2);
    assert Parent(p + [i + 1]) == p;
    assert l2.cells == l1.cells[..i] + [Kept(pane, d, s), Born(pane, d, s, id)] + l1.cells[i + 1..];
    forall p2 | ValidPath(root, p2) && !(p <= p2) && !(p2 <= p)
      ensures ValidPath(Replace(root, p, l2), p2) && At(Replace(root, p, l2), p2) == At(root, p2)
    {
      ReplaceFrame(root, p, l2, p2);
    }
    SplitResult(Replace(root, p, l2), p + [i + 1], 1)
  }

  /** The halves of a well-formed pane split at 0 < s < 1 are well formed and tile it. */
  lemma HalvesWF(pane: Cell, d: Dir, s: real, id: nat)
    requires pane.Pane? && WF(pane) && d != TBD && 0.0 < s < 1.0
    ensures var kept, born := Kept(pane, d, s), Born(pane, d, s, id);
      var a := Along(d);
      && WF(kept) && WF(born)
      && Contiguous([kept, born], a, Off(pane, a))
      && SumSize([kept, born], a) == Size(pane, a)
      && Spans([kept, born], Other(a), Off(pane, Other(a)), Size(pane, Other(a)))
  {
    var kept, born := Kept(pane, d, s), Born(pane, d, s, id);
    var a := Along(d);
    HalvesTile(pane, d, s, id);
    ContiguousTwo(kept, born, a, Off(pane, a));
    SumSizeTwo(kept, born, a);
  }

  /** The layout built when the parent's direction differs from the split's: a wrapper
      of the pane's rectangle holding the two halves. It is well formed. */
  lemma WrappedSplitWF(pane: Cell, d: Dir, s: real, id: nat)
    requires pane.Pane? && WF(pane) && d != TBD && 0.0 < s < 1.0
    ensures var kept, born := Kept(pane, d, s), Born(pane, d, s, id);
      var w := WrapHalves(pane, d, kept, born);
      WF(w) && SameRect(w, pane) && w.cells == [kept, born]
  {
    HalvesWF(pane, d, s, id);
  }

  /** The parent after an in-place split: the pane replaced by its two halves. It stays
      well formed, with its own rectangle. */
  lemma InPlaceSplitWF(l: Cell, i: nat, d: Dir, s: real, id: nat)
    requires l.Layout? && WF(l) && i < |l.cells| && l.cells[i].Pane? && d != TBD && 0.0 < s < 1.0
    requires l.dir == d || l.dir == TBD || |l.cells| == 1
    ensures var l1 := l.(dir := d);
      var kept, born := Kept(l.cells[i], d, s), Born(l.cells[i], d, s, id);
      var l2 := AddPane(l1.(cells := l1.cells[i := kept]), born, AfterParent(i));
      WF(l2) && SameRect(l2, l) && l2.cells == l.cells[..i] + [kept, born] + l.cells[i + 1..]
  {
    var pane := l.cells[i];
    var l1 := l.(dir := d);
    if l.dir != d {
      SingleChildFills(l);
      SingleChildPartitioned(l1);
    }
    var a := Along(d);
    var kept, born := Kept(pane, d, s), Born(pane, d, s, id);
    HalvesWF(pane, d, s, id);
    var ms := [kept, born];
    var l2 := AddPane(l1.(cells := l1.cells[i := kept]), born, AfterParent(i));
    assert l2.cells == l1.cells[..i] + ms + l1.cells[i + 1..];
    assert l1.cells[i..i + 1] == [pane];
    SumSizeOne(pane, a);
    ReplaceRunKeepsPartitioned(l1, i, i + 1, ms);
    ReplaceRunKeepsChildrenWF(l1.cells, i, i + 1, ms);
  }

  /** Splitting a pane of a well-formed tree at 0 < s < 1 keeps the tree well formed. */
  lemma SplitKeepsWF(root: Cell, q: Path, d: Dir, s: real, minSize: real, maxPanes: nat, nextId: nat)
    requires WF(root) && ValidPath(root, q) && q != [] && At(root, q).Pane? && 0.0 < s < 1.0
    ensures var r := Split(root, q, d, s, minSize, maxPanes, nextId);
      r.Some? ==> WF(r.value.root)
  {
    var pane := At(root, q);
    if IsSplittable(root, pane, d, minSize, maxPanes) {
      AtParent(root, q);
      var p := Parent(q);
      var i := q[|q| - 1];
      var l := At(root, p);
      WFAt(root, p);
      WFAt(root, q);
      var l1 := if l.dir == TBD || |l.cells| == 1 then l.(dir := d) else l;
      if l1.dir != d {
        var kept, born := Kept(pane, d, s), Born(pane, d, s, nextId + 1);
        WrappedSplitWF(pane, d, s, nextId + 1);
        ReplaceKeepsWF(root, q, WrapHalves(pane, d, kept, born));
      } else {
        var kept, born := Kept(pane, d, s), Born(pane, d, s, nextId);
        InPlaceSplitWF(l, i, d, s, nextId);
        assert l1 == l.(dir := d);
        ReplaceKeepsWF(root, p, AddPane(l1.(cells := l1.cells[i := kept]), born, AfterParent(i)));
      }
    }
  }

  /** Where a split puts things. The pane is wrapped exactly when its parent keeps a
      direction other than dir (it is neither TBD nor single-child); the wrapper then takes
      the pane's place and the new pane is its second child. Otherwise the parent, now of
      direction dir, holds the two halves where the pane was, its other children in order.
      In both cases every cell off the changed layout's line is untouched. */
  lemma SplitPlaces(root: Cell, q: Path, d: Dir, s: real, minSize: real, maxPanes: nat, nextId: nat)
    requires ValidPath(root, q) && q != [] && At(root, q).Pane?
    ensures var r := Split(root, q, d, s, minSize, maxPanes, nextId);
      r.Some? ==>
        && ValidPath(root, Parent(q)) && At(root, Parent(q)).Layout? && q[|q| - 1] < |At(root, Parent(q)).cells|
        && var l, i, pane, t := At(root, Parent(q)), q[|q| - 1], At(root, q), r.value.root;
        && (r.value.slots == 2 <==> l.dir != TBD && |l.cells| != 1 && l.dir != d)
        && (r.value.slots == 2 ==>
              && r.value.pane == q + [1]
              && ValidPath(t, q) && At(t, q) == WrapHalves(pane, d, Kept(pane, d, s), Born(pane, d, s, nextId + 1))
              && forall p2 :: ValidPath(root, p2) && !(q <= p2) && !(p2 <= q) ==> ValidPath(t, p2) && At(t, p2) == At(root, p2))
        && (r.value.slots == 1 ==>
              && r.value.pane == Parent(q) + [i + 1]
              && ValidPath(t, Parent(q)) && At(t, Parent(q)).Layout? && At(t, Parent(q)).dir == d
              && SameRect(At(t, Parent(q)), l)
              && At(t, Parent(q)).cells == l.cells[..i] + [Kept(pane, d, s), Born(pane, d, s, nextId)] + l.cells[i + 1..]
              && forall p2 :: ValidPath(root, p2) && !(Parent(q) <= p2) && !(p2 <= Parent(q)) ==>
                   ValidPath(t, p2) && At(t, p2) == At(root, p2))
  {
    AtParent(root, q);
  }

  /** The layout at lp holds the two halves of a split at indices i and i + 1. */
  predicate HoldsHalves(t: Cell, lp: Path, i: nat, d: Dir, pane: Cell, s: real, bornId: nat)
  {
    && ValidPath(t, lp) && At(t, lp).Layout? && At(t, lp).dir == d
    && i + 1 < |At(t, lp).cells|
    && At(t, lp).cells[i] == Kept(pane, d, s)
    && At(t, lp).cells[i + 1] == Born(pane, d, s, bornId)
  }

  /** The split result r holds the halves of pane in its new pane's layout: the kept half
      just before the new pane, which is the born half with id bornId. */
  predicate PlacesHalves(r: SplitResult, d: Dir, pane: Cell, s: real, bornId: nat)
  {
    && r.pane != [] && r.pane[|r.pane| - 1] > 0
    && HoldsHalves(r.root, Parent(r.pane), r.pane[|r.pane| - 1] - 1, d, pane, s, bornId)
  }
}
