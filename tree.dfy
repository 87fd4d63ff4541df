/*
 * Addressing cells inside a layout tree, and the read-only queries of
 * src/layout.ts (numPanes, allCells).
 *
 * A cell is addressed by its path: the sequence of child indices leading to it
 * from the root. The parent of the cell at path p + [i] is the layout at p, so
 * the `layout` back-pointer of the source is the path with its last index
 * dropped.
 */
module Tree {
  import opened CellGeometry
  import opened Partition

  type Path = seq<nat>

  predicate ValidPath(c: Cell, p: Path)
    decreases p
  {
    p == [] || (c.Layout? && p[0] < |c.cells| && ValidPath(c.cells[p[0]], p[1..]))
  }

  /** The cell at path p. */
  function At(c: Cell, p: Path): Cell
    requires ValidPath(c, p)
    decreases p
  {
    if p == [] then c else At(c.cells[p[0]], p[1..])
  }

  /** Two cells occupy the same rectangle. */
  predicate SameRect(x: Cell, y: Cell)
  {
    x.sx == y.sx && x.sy == y.sy && x.xoff == y.xoff && x.yoff == y.yoff
  }

  /** The tree with the cell at path p replaced by n. */
  function Replace(c: Cell, p: Path, n: Cell): (r: Cell)
    requires ValidPath(c, p)
    ensures p != [] ==> SameRect(r, c) && r.Layout? && r.dir == c.dir && |r.cells| == |c.cells|
    decreases p
  {
    if p == [] then n else c.(cells := c.cells[p[0] := Replace(c.cells[p[0]], p[1..], n)])
  }

  /** The layout at the path of a cell's parent. */
  function Parent(p: Path): Path
    requires p != []
  {
    p[..|p| - 1]
  }

  lemma {:induction false} AtChild(c: Cell, p: Path, i: nat)
    requires ValidPath(c, p) && At(c, p).Layout? && i < |At(c, p).cells|
    ensures ValidPath(c, p + [i]) && At(c, p + [i]) == At(c, p).cells[i]
    decreases p
  {
    if p != [] {
      assert (p + [i])[1..] == p[1..] + [i];
      AtChild(c.cells[p[0]], p[1..], i);
    }
  }

  /** The parent of a cell is a layout holding it at the path's last index. */
  lemma AtParent(c: Cell, p: Path)
    requires ValidPath(c, p) && p != []
    ensures ValidPath(c, Parent(p)) && At(c, Parent(p)).Layout?
    ensures p[|p| - 1] < |At(c, Parent(p)).cells|
    ensures At(c, p) == At(c, Parent(p)).cells[p[|p| - 1]]
  {
    PrefixValid(c, p, |p| - 1);
    var q := Parent(p);
    var i := p[|p| - 1];
    assert p == q + [i];
    PrefixStep(c, q, i);
  }

  lemma {:induction false} PrefixValid(c: Cell, p: Path, k: nat)
    requires ValidPath(c, p) && k <= |p|
    ensures ValidPath(c, p[..k])
    decreases p
  {
    if k > 0 {
      assert p[..k][1..] == p[1..][..k - 1];
      PrefixValid(c.cells[p[0]], p[1..], k - 1);
    }
  }

  lemma {:induction false} PrefixStep(c: Cell, q: Path, i: nat)
    requires ValidPath(c, q + [i])
    ensures ValidPath(c, q) && At(c, q).Layout? && i < |At(c, q).cells|
    ensures At(c, q + [i]) == At(c, q).cells[i]
    decreases q
  {
    if q != [] {
      assert (q + [i])[1..] == q[1..] + [i];
      PrefixStep(c.cells[q[0]], q[1..], i);
    }
  }

  lemma {:induction false} ReplaceAt(c: Cell, p: Path, n: Cell)
    requires ValidPath(c, p)
    ensures ValidPath(Replace(c, p, n), p) && At(Replace(c, p, n), p) == n
    decreases p
  {
    if p != [] {
      ReplaceAt(c.cells[p[0]], p[1..], n);
    }
  }

  /** Replacing the cell at p leaves every cell off p's line alone: a path that is neither a
      prefix of p nor an extension of it still leads to the same cell. */
  lemma {:induction false} ReplaceFrame(c: Cell, p: Path, n: Cell, p2: Path)
    requires ValidPath(c, p) && ValidPath(c, p2) && !(p <= p2) && !(p2 <= p)
    ensures ValidPath(Replace(c, p, n), p2) && At(Replace(c, p, n), p2) == At(c, p2)
    decreases p
  {
    if p[0] == p2[0] {
      assert p == [p[0]] + p[1..] && p2 == [p2[0]] + p2[1..];
      ReplaceFrame(c.cells[p[0]], p[1..], n, p2[1..]);
    }
  }

  /** Replacing a child of the layout at p is replacing that layout by a copy with the new child. */
  lemma {:induction false} ReplaceChild(c: Cell, p: Path, i: nat, n: Cell)
    requires ValidPath(c, p) && At(c, p).Layout? && i < |At(c, p).cells|
    ensures ValidPath(c, p + [i])
    ensures Replace(c, p + [i], n) == Replace(c, p, At(c, p).(cells := At(c, p).cells[i := n]))
    decreases p
  {
    AtChild(c, p, i);
    if p != [] {
      assert (p + [i])[1..] == p[1..] + [i];
      ReplaceChild(c.cells[p[0]], p[1..], i, n);
    }
  }

  /** Putting a well-formed cell in the place of one with the same rectangle keeps the tree well formed. */
  lemma {:induction false} ReplaceKeepsWF(c: Cell, p: Path, n: Cell)
    requires WF(c) && ValidPath(c, p) && WF(n) && SameRect(At(c, p), n)
    ensures WF(Replace(c, p, n)) && SameRect(Replace(c, p, n), c)
    decreases p
  {
    if p != [] {
      var j := p[0];
      var child := Replace(c.cells[j], p[1..], n);
      ReplaceKeepsWF(c.cells[j], p[1..], n);
      var r := Replace(c, p, n);
      assert r.cells == c.cells[j := child];
      var A := Along(c.dir);
      assert SameOn(c.cells, r.cells, A) && SameOn(c.cells, r.cells, Other(A)) by {
        forall i | 0 <= i < |r.cells|
          ensures Off(r.cells[i], A) == Off(c.cells[i], A) && Size(r.cells[i], A) == Size(c.cells[i], A)
          ensures Off(r.cells[i], Other(A)) == Off(c.cells[i], Other(A))
          ensures Size(r.cells[i], Other(A)) == Size(c.cells[i], Other(A))
        {
        }
      }
      SameOnKeepsLayout(c.cells, r.cells, A, Off(c, A));
      SameOnKeepsSpans(c.cells, r.cells, Other(A), Off(c, Other(A)), Size(c, Other(A)));
      assert forall i :: 0 <= i < |r.cells| ==> WF(r.cells[i]);
    }
  }

  /** Every cell of a well-formed tree is well formed. */
  lemma {:induction false} WFAt(root: Cell, p: Path)
    requires WF(root) && ValidPath(root, p)
    ensures WF(At(root, p))
    decreases p
  {
    if p != [] {
      WFAt(root.cells[p[0]], p[1..]);
    }
  }

  // ---------------------------------------------------------------------------
  // Queries

  /** `numPanes` (src/layout.ts:55-61): a child layout counts its panes, a pane counts 1. */
  function NumPanes(c: Cell): nat
    decreases c
  {
    match c
    case Pane(_, _, _, _, _) => 1
    case Layout(_, _, _, _, _, cs) => NumPanesAll(cs)
  }

  function NumPanesAll(cs: seq<Cell>): nat
    decreases cs
  {
    if cs == [] then 0 else NumPanesAll(cs[..|cs| - 1]) + NumPanes(cs[|cs| - 1])
  }

  /** `allCells` (src/layout.ts:356-365): the panes, depth first, left to right. */
  function AllCells(c: Cell): seq<Cell>
    decreases c
  {
    match c
    case Pane(_, _, _, _, _) => [c]
    case Layout(_, _, _, _, _, cs) => AllCellsOf(cs)
  }

  function AllCellsOf(cs: seq<Cell>): seq<Cell>
    decreases cs
  {
    if cs == [] then [] else AllCellsOf(cs[..|cs| - 1]) + AllCells(cs[|cs| - 1])
  }

  /** `numPanes` is the length of `allCells`. */
  lemma {:induction false} NumPanesIsAllCellsLength(c: Cell)
    ensures |AllCells(c)| == NumPanes(c)
    decreases c, 1
  {
    if c.Layout? {
      NumPanesAllIsLength(c.cells);
    }
  }

  lemma {:induction false} NumPanesAllIsLength(cs: seq<Cell>)
    ensures |AllCellsOf(cs)| == NumPanesAll(cs)
    decreases cs, 0
  {
    if cs != [] {
      NumPanesAllIsLength(cs[..|cs| - 1]);
      NumPanesIsAllCellsLength(cs[|cs| - 1]);
    }
  }

  /** `allCells` lists panes only. */
  lemma {:induction false} AllCellsArePanes(c: Cell)
    ensures forall x :: x in AllCells(c) ==> x.Pane?
    decreases c, 1
  {
    if c.Layout? {
      AllCellsOfArePanes(c.cells);
    }
  }

  lemma {:induction false} AllCellsOfArePanes(cs: seq<Cell>)
    ensures forall x :: x in AllCellsOf(cs) ==> x.Pane?
    decreases cs, 0
  {
    if cs != [] {
      AllCellsOfArePanes(cs[..|cs| - 1]);
      AllCellsArePanes(cs[|cs| - 1]);
    }
  }

  /** Every pane of the tree is listed by `allCells`. */
  lemma {:induction false} PaneIsListed(c: Cell, p: Path)
    requires ValidPath(c, p) && At(c, p).Pane?
    ensures At(c, p) in AllCells(c)
    decreases p
  {
    if p != [] {
      PaneIsListed(c.cells[p[0]], p[1..]);
      ChildListed(c.cells, p[0]);
    }
  }

  /** The panes of a child are among the panes of its siblings' list. */
  lemma {:induction false} ChildListed(cs: seq<Cell>, j: nat)
    requires j < |cs|
    ensures forall x :: x in AllCells(cs[j]) ==> x in AllCellsOf(cs)
    decreases |cs|
  {
    if j < |cs| - 1 {
      assert cs[..|cs| - 1][j] == cs[j];
      ChildListed(cs[..|cs| - 1], j);
    }
  }

  /** Every pane `allCells` lists sits at some path of the tree. */
  lemma {:induction false} ListedPaneHasPath(c: Cell, k: nat) returns (p: Path)
    requires k < |AllCells(c)|
    ensures ValidPath(c, p) && At(c, p) == AllCells(c)[k]
    decreases c, 1
  {
    if c.Pane? {
      p := [];
    } else {
      var j, q := ListedInChild(c.cells, k);
      p := [j] + q;
      assert p[1..] == q;
    }
  }

  lemma {:induction false} ListedInChild(cs: seq<Cell>, k: nat) returns (j: nat, q: Path)
    requires k < |AllCellsOf(cs)|
    ensures j < |cs| && ValidPath(cs[j], q) && At(cs[j], q) == AllCellsOf(cs)[k]
    decreases cs, 0
  {
    var front := AllCellsOf(cs[..|cs| - 1]);
    if k < |front| {
      j, q := ListedInChild(cs[..|cs| - 1], k);
      assert cs[..|cs| - 1][j] == cs[j];
    } else {
      j := |cs| - 1;
      q := ListedPaneHasPath(cs[j], k - |front|);
    }
  }

  // ---------------------------------------------------------------------------
  // The queries' loops

  /** `numPanes` as the source computes it: a loop over the children with a running count. */
  method CountPanes(c: Cell) returns (n: nat)
    ensures n == NumPanes(c)
    decreases c
  {
    match c
    case Pane(_, _, _, _, _) =>
      n := 1;
    case Layout(_, _, _, _, _, cs) =>
      n := 0;
      var i := 0;
      while i < |cs|
        invariant 0 <= i <= |cs|
        invariant n == NumPanesAll(cs[..i])
      {
        var k := 1;
        if cs[i].Layout? {
          k := CountPanes(cs[i]);
        }
        assert cs[..i + 1][..i] == cs[..i];
        n := n + k;
        i := i + 1;
      }
      assert cs[..|cs|] == cs;
  }

  /** `allCells` as the source computes it: concatenating child layouts' lists, pushing panes. */
  method CollectPanes(c: Cell) returns (cells: seq<Cell>)
    ensures cells == AllCells(c)
    decreases c
  {
    match c
    case Pane(_, _, _, _, _) =>
      cells := [c];
    case Layout(_, _, _, _, _, cs) =>
      cells := [];
      var i := 0;
      while i < |cs|
        invariant 0 <= i <= |cs|
        invariant cells == AllCellsOf(cs[..i])
      {
        assert cs[..i + 1][..i] == cs[..i];
        if cs[i].Layout? {
          var sub := CollectPanes(cs[i]);
          cells := cells + sub;
        } else {
          cells := cells + [cs[i]];
        }
        i := i + 1;
      }
      assert cs[..|cs|] == cs;
  }
}
