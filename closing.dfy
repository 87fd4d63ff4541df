/*
 * Closing a cell: `Layout.onClose` (src/layout.ts:72-108).
 *
 * The layout holding the closed cell either gives the cell's room to an
 * adjacent sibling (the peer), or, when the cell was its only child, closes
 * itself in its own parent in turn; at the root that closes the window.
 */
module Closing {
  import opened CellGeometry
  import opened Partition
  import opened Tree
  import opened LayoutEdit

  /** What `onClose` leaves: the tree, whether the window was closed, and how many
      entries it removed from the window's registry of cells (one per call level). */
  datatype Closed = Closed(root: Cell, windowClosed: bool, released: nat)

  /** The sibling that absorbs the closed cell at index i: the one before it, or the
      second cell when the closed one is the first. */
  function PeerIndex(i: nat): nat { if i > 0 then i - 1 else 1 }

  /** The peer grows by the closed cell's size along the layout's axis (through the
      cascading size setter), then takes the closed cell's offset if that is smaller. */
  function Absorb(peer: Cell, c: Cell, a: Axis): (r: Cell)
    ensures Size(r, a) == Size(peer, a) + Size(c, a)
    ensures Off(r, a) == (if Off(c, a) < Off(peer, a) then Off(c, a) else Off(peer, a))
    ensures Size(r, Other(a)) == Size(peer, Other(a)) && Off(r, Other(a)) == Off(peer, Other(a))
    ensures r.Pane? == peer.Pane? && (r.Pane? ==> r.id == peer.id)
  {
    var grown := SetSize(peer, a, Size(peer, a) + Size(c, a));
    if Off(c, a) < Off(grown, a) then SetOff(grown, a, Off(c, a)) else grown
  }

  /** `parent.onClose(c)` where c is the cell at path q. */
  function Close(root: Cell, q: Path): (r: Closed)
    requires ValidPath(root, q) && q != []
    ensures 1 <= r.released <= |q|
    ensures r.windowClosed ==> r.root == root
    decreases |q|
  {
    AtParent(root, q);
    var lp := Parent(q);
    var l := At(root, lp);
    var i := q[|q| - 1];
    if |l.cells| == 1 then
      if lp == [] then Closed(root, true, 1)
      else
        var r := Close(root, lp);
        r.(released := r.released + 1)
    else
      var j := PeerIndex(i);
      var cells := l.cells[j := Absorb(l.cells[j], l.cells[i], Along(l.dir))];
      Closed(Replace(root, lp, l.(cells := Splice(cells, i, 1, []))), false, 1)
  }

  /** Removing index i after writing x at index j != i: the others keep their order. */
  lemma RemoveAfterUpdate<T>(s: seq<T>, j: nat, x: T, i: nat)
    requires i < |s| && j < |s| && i != j
    ensures var t := Splice(s[j := x], i, 1, []);
      && |t| == |s| - 1
      && (forall k :: 0 <= k < i && k != j ==> t[k] == s[k])
      && (forall k :: i < k < |s| && k != j ==> t[k - 1] == s[k])
      && t[if j < i then j else j - 1] == x
  {
    var u := s[j := x];
    var t := Splice(u, i, 1, []);
    assert t == u[..i] + u[i + 1..];
  }

  /** With a sibling to absorb it, the closed cell (child i of the layout at lp) leaves its
      layout: the other cells keep their order, and the peer (the previous cell, or the next
      one for the first cell) grows by the closed cell's size and starts where the earlier
      of the two started. One registry entry is released and the window stays open. */
  lemma CloseAbsorbs(root: Cell, lp: Path, i: nat)
    requires ValidPath(root, lp) && At(root, lp).Layout? && |At(root, lp).cells| >= 2
    requires i < |At(root, lp).cells| && ValidPath(root, lp + [i])
    ensures var l, r := At(root, lp), Close(root, lp + [i]);
      var j, a := PeerIndex(i), Along(l.dir);
      && j < |l.cells|
      && !r.windowClosed && r.released == 1 && ValidPath(r.root, lp)
      && var nl := At(r.root, lp);
      && nl.Layout? && nl.dir == l.dir && SameRect(nl, l)
      && |nl.cells| == |l.cells| - 1
      && (forall k :: 0 <= k < i && k != j ==> nl.cells[k] == l.cells[k])
      && (forall k :: i < k < |l.cells| && k != j ==> nl.cells[k - 1] == l.cells[k])
      && var peer := nl.cells[if j < i then j else j - 1];
      && Size(peer, a) == Size(l.cells[j], a) + Size(l.cells[i], a)
      && Off(peer, a) == (if Off(l.cells[i], a) < Off(l.cells[j], a) then Off(l.cells[i], a) else Off(l.cells[j], a))
      && Size(peer, Other(a)) == Size(l.cells[j], Other(a))
      && Off(peer, Other(a)) == Off(l.cells[j], Other(a))
  {
    var q := lp + [i];
    assert Parent(q) == lp && q[|q| - 1] == i;
    var l := At(root, lp);
    var j := PeerIndex(i);
    var x := Absorb(l.cells[j], l.cells[i], Along(l.dir));
    var nl := l.(cells := Splice(l.cells[j := x], i, 1, []));
    assert Close(root, q) == Closed(Replace(root, lp, nl), false, 1);
    ReplaceAt(root, lp, nl);
    RemoveAfterUpdate(l.cells, j, x, i);
  }

  /** The window closes exactly when every layout from the root down to the closed cell's
      has a single child; the tree is then left as it was. */
  lemma {:induction false} CloseClosesWindow(root: Cell, q: Path)
    requires ValidPath(root, q) && q != []
    ensures Close(root, q).windowClosed <==>
      forall k :: 0 <= k < |q| ==> ValidPath(root, q[..k]) && At(root, q[..k]).Layout? && |At(root, q[..k]).cells| == 1
    decreases |q|
  {
    AtParent(root, q);
    var lp := Parent(q);
    assert q[..|q| - 1] == lp;
    if |At(root, lp).cells| == 1 && lp != [] {
      CloseClosesWindow(root, lp);
      forall k | 0 <= k < |lp| ensures q[..k] == lp[..k] {
      }
    }
  }

  /** A layout left with a single child closes itself in its own parent, one more registry
      entry being released. */
  lemma CloseClimbs(root: Cell, q: Path)
    requires ValidPath(root, q) && q != [] && Parent(q) != []
    requires ValidPath(root, Parent(q)) && At(root, Parent(q)).Layout? && |At(root, Parent(q)).cells| == 1
    ensures Close(root, q) == Close(root, Parent(q)).(released := Close(root, Parent(q)).released + 1)
  {
  }

  /** Closing climbs to the nearest ancestor with two or more children: closing the cell at
      q is closing that ancestor's child on q's path (which CloseAbsorbs describes), with
      one registry entry released for every level climbed. */
  lemma {:induction false} CloseAtAncestor(root: Cell, q: Path, n: nat)
    requires ValidPath(root, q) && n < |q|
    requires ValidPath(root, q[..n]) && At(root, q[..n]).Layout? && |At(root, q[..n]).cells| >= 2
    requires forall k :: n < k < |q| ==>
      ValidPath(root, q[..k]) && At(root, q[..k]).Layout? && |At(root, q[..k]).cells| == 1
    ensures ValidPath(root, q[..n + 1])
    ensures Close(root, q) == Close(root, q[..n + 1]).(released := |q| - n)
    decreases |q|
  {
    AtParent(root, q);
    var lp := Parent(q);
    assert q[..|q| - 1] == lp;
    if n + 1 == |q| {
      assert q[..n + 1] == q;
    } else {
      assert |At(root, lp).cells| == 1;
      forall k | 0 <= k <= |lp| ensures lp[..k] == q[..k] {
      }
      CloseAtAncestor(root, lp, n);
    }
  }

  /** A well-formed peer that absorbs a cell of positive size stays well formed. */
  lemma AbsorbedWF(peer: Cell, c: Cell, a: Axis)
    requires WF(peer) && Size(c, a) > 0.0
    ensures WF(Absorb(peer, c, a))
  {
    var grown := SetSize(peer, a, Size(peer, a) + Size(c, a));
    SetSizeKeepsWF(peer, a, Size(peer, a) + Size(c, a));
    SetOffKeepsWF(grown, a, Off(c, a));
  }

  /** Two adjacent children lo and lo + 1 merged into one well-formed cell covering both
      keep a well-formed layout well formed. */
  lemma MergeKeepsWF(l: Cell, lo: nat, x: Cell)
    requires l.Layout? && WF(l) && lo + 1 < |l.cells| && WF(x)
    requires var a := Along(l.dir);
      && Off(x, a) == Off(l.cells[lo], a)
      && Size(x, a) == Size(l.cells[lo], a) + Size(l.cells[lo + 1], a)
      && Off(x, Other(a)) == Off(l.cells[lo], Other(a))
      && Size(x, Other(a)) == Size(l.cells[lo], Other(a))
    ensures WF(l.(cells := l.cells[..lo] + [x] + l.cells[lo + 2..]))
  {
    var a := Along(l.dir);
    var cs := l.cells;
    assert [x][1..] == [];
    assert Contiguous([x], a, Off(cs[lo], a));
    SumSizeOne(x, a);
    assert cs[lo..lo + 2] == [cs[lo], cs[lo + 1]];
    SumSizeTwo(cs[lo], cs[lo + 1], a);
    assert Spans([x], Other(a), Off(l, Other(a)), Size(l, Other(a)));
    assert AllWF(cs);
    ReplaceRunKeepsPartitioned(l, lo, lo + 2, [x]);
    ReplaceRunKeepsChildrenWF(cs, lo, lo + 2, [x]);
  }

  /** The layout after its child i is absorbed by its peer stays well formed. */
  lemma AbsorbKeepsWF(l: Cell, i: nat)
    requires l.Layout? && WF(l) && |l.cells| >= 2 && i < |l.cells|
    ensures var j := PeerIndex(i);
      WF(l.(cells := Splice(l.cells[j := Absorb(l.cells[j], l.cells[i], Along(l.dir))], i, 1, [])))
  {
    var a := Along(l.dir);
    var cs := l.cells;
    var j := PeerIndex(i);
    var x := Absorb(cs[j], cs[i], a);
    assert WF(cs[j]) && WF(cs[i]);
    AbsorbedWF(cs[j], cs[i], a);
    var lo := if j < i then j else i;
    ContiguousNext(cs, a, Off(l, a), lo);
    assert Splice(cs[j := x], i, 1, []) == cs[..lo] + [x] + cs[lo + 2..];
    MergeKeepsWF(l, lo, x);
  }

  /** Closing a cell of a well-formed tree leaves a well-formed tree. */
  lemma {:induction false} CloseKeepsWF(root: Cell, q: Path)
    requires WF(root) && ValidPath(root, q) && q != []
    ensures WF(Close(root, q).root)
    decreases |q|
  {
    AtParent(root, q);
    var lp := Parent(q);
    var l := At(root, lp);
    var i := q[|q| - 1];
    if |l.cells| == 1 {
      if lp != [] {
        CloseKeepsWF(root, lp);
      }
    } else {
      var j := PeerIndex(i);
      var nl := l.(cells := Splice(l.cells[j := Absorb(l.cells[j], l.cells[i], Along(l.dir))], i, 1, []));
      WFAt(root, lp);
      AbsorbKeepsWF(l, i);
      ReplaceKeepsWF(root, lp, nl);
    }
  }
}
