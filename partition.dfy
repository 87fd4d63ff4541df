/*
 * The geometric invariant of the layout tree and the proof that the cascading
 * setters keep it.
 *
 * A layout partitions its own rectangle: along the axis it divides, its
 * children follow one another without gap or overlap, starting at the
 * layout's offset, and their sizes add up to the layout's size; across that
 * axis every child has the layout's own offset and size.
 */
module Partition {
  import opened CellGeometry

  /** The cells follow one another along a, the first one starting at off. */
  predicate Contiguous(cs: seq<Cell>, a: Axis, off: real)
    decreases |cs|
  {
    |cs| == 0 || (Off(cs[0], a) == off && Contiguous(cs[1..], a, off + Size(cs[0], a)))
  }

  function SumSize(cs: seq<Cell>, a: Axis): real
    decreases |cs|
  {
    if cs == [] then 0.0 else Size(cs[0], a) + SumSize(cs[1..], a)
  }

  /** Every cell has offset off and size s on axis a. */
  predicate Spans(cs: seq<Cell>, a: Axis, off: real, s: real)
  {
    forall i :: 0 <= i < |cs| ==> Off(cs[i], a) == off && Size(cs[i], a) == s
  }

  /** The children of a layout partition its rectangle. */
  predicate Partitioned(c: Cell)
    requires c.Layout?
  {
    var a := Along(c.dir);
    && Contiguous(c.cells, a, Off(c, a))
    && SumSize(c.cells, a) == Size(c, a)
    && Spans(c.cells, Other(a), Off(c, Other(a)), Size(c, Other(a)))
  }

  /** The invariant of every reachable tree: positive sizes, non-empty layouts,
      a TBD layout has a single child, and every layout is partitioned. */
  predicate WF(c: Cell)
    decreases c
  {
    && c.sx > 0.0 && c.sy > 0.0
    && (c.Layout? ==>
          && |c.cells| >= 1
          && (c.dir == TBD ==> |c.cells| == 1)
          && Partitioned(c)
          && forall i :: 0 <= i < |c.cells| ==> WF(c.cells[i]))
  }

  predicate AllWF(cs: seq<Cell>)
  {
    forall i :: 0 <= i < |cs| ==> WF(cs[i])
  }

  // ---------------------------------------------------------------------------
  // Sequences of cells that agree on one axis

  predicate SameOn(xs: seq<Cell>, ys: seq<Cell>, a: Axis)
  {
    |xs| == |ys| && forall i :: 0 <= i < |xs| ==> Off(xs[i], a) == Off(ys[i], a) && Size(xs[i], a) == Size(ys[i], a)
  }

  lemma {:induction false} SameOnKeepsLayout(xs: seq<Cell>, ys: seq<Cell>, a: Axis, off: real)
    requires SameOn(xs, ys, a)
    ensures Contiguous(xs, a, off) <==> Contiguous(ys, a, off)
    ensures SumSize(xs, a) == SumSize(ys, a)
    decreases |xs|
  {
    if xs != [] {
      SameOnKeepsLayout(xs[1..], ys[1..], a, off + Size(xs[0], a));
    }
  }

  lemma SameOnKeepsSpans(xs: seq<Cell>, ys: seq<Cell>, a: Axis, off: real, s: real)
    requires SameOn(xs, ys, a) && Spans(xs, a, off, s)
    ensures Spans(ys, a, off, s)
  {
  }

  lemma {:induction false} SumSizeAppend(xs: seq<Cell>, ys: seq<Cell>, a: Axis)
    ensures SumSize(xs + ys, a) == SumSize(xs, a) + SumSize(ys, a)
    decreases |xs|
  {
    if xs == [] {
      assert xs + ys == ys;
    } else {
      assert (xs + ys)[1..] == xs[1..] + ys;
      SumSizeAppend(xs[1..], ys, a);
    }
  }

  lemma {:induction false} ContiguousAppend(xs: seq<Cell>, ys: seq<Cell>, a: Axis, off: real)
    ensures Contiguous(xs + ys, a, off) <==> Contiguous(xs, a, off) && Contiguous(ys, a, off + SumSize(xs, a))
    decreases |xs|
  {
    if xs == [] {
      assert xs + ys == ys;
    } else {
      assert (xs + ys)[1..] == xs[1..] + ys;
      assert (xs + ys)[0] == xs[0];
      ContiguousAppend(xs[1..], ys, a, off + Size(xs[0], a));
    }
  }

  // ---------------------------------------------------------------------------
  // What the offset setters do

  lemma {:induction false} ShiftCellsFacts(cs: seq<Cell>, a: Axis, v: real, along: bool)
    ensures var rs := ShiftCells(cs, a, v, along);
      && SameOn(cs, rs, Other(a))
      && (forall i :: 0 <= i < |rs| ==> Size(rs[i], a) == Size(cs[i], a))
      && (along ==> Contiguous(rs, a, v))
      && (!along ==> forall i :: 0 <= i < |rs| ==> Off(rs[i], a) == v)
    decreases cs
  {
    if cs != [] {
      var next := if along then v + Size(cs[0], a) else v;
      ShiftCellsFacts(cs[1..], a, next, along);
      var rs := ShiftCells(cs, a, v, along);
      assert rs[1..] == ShiftCells(cs[1..], a, next, along);
      forall i | 0 <= i < |rs|
        ensures Off(rs[i], Other(a)) == Off(cs[i], Other(a)) && Size(rs[i], Other(a)) == Size(cs[i], Other(a))
        ensures Size(rs[i], a) == Size(cs[i], a)
        ensures !along ==> Off(rs[i], a) == v
      {
        if i > 0 {
          assert rs[i] == rs[1..][i - 1];
        }
      }
    }
  }

  /** The xoff/yoff setters: across the axis it divides, a layout gives each
      child the new offset; otherwise it re-lays them contiguously from it
      (v, v+s0, v+s0+s1, ...). Sizes are untouched. */
  lemma OffSetterRelays(c: Cell, a: Axis, v: real)
    requires c.Layout?
    ensures var r := SetOff(c, a, v);
      && (Divides(c.dir, Other(a)) ==> forall i :: 0 <= i < |r.cells| ==> Off(r.cells[i], a) == v)
      && (!Divides(c.dir, Other(a)) ==> Contiguous(r.cells, a, v))
      && forall i :: 0 <= i < |r.cells| ==> r.cells[i].sx == c.cells[i].sx && r.cells[i].sy == c.cells[i].sy
  {
    ShiftCellsFacts(c.cells, a, v, !Divides(c.dir, Other(a)));
    var rs := SetOff(c, a, v).cells;
    forall i | 0 <= i < |rs| ensures rs[i].sx == c.cells[i].sx && rs[i].sy == c.cells[i].sy {
      assert Size(rs[i], a) == Size(c.cells[i], a);
      assert Size(rs[i], Other(a)) == Size(c.cells[i], Other(a));
    }
  }

  // ---------------------------------------------------------------------------
  // What the size setters do

  /** One step of the size setters' loop. */
  lemma ResizeCellsStep(cs: seq<Cell>, a: Axis, r: real, along: bool, off: real)
    requires cs != []
    ensures var rs := ResizeCells(cs, a, r, along, off);
      && rs[1..] == ResizeCells(cs[1..], a, r, along, off + Size(cs[0], a) * r)
      && Size(rs[0], a) == Size(cs[0], a) * r
      && Size(rs[0], Other(a)) == Size(cs[0], Other(a))
      && Off(rs[0], Other(a)) == Off(cs[0], Other(a))
      && Off(rs[0], a) == (if along then off else Off(cs[0], a))
  {
  }

  /** The size setters' loop keeps every child's geometry across axis a. */
  lemma {:induction false} ResizeCellsCross(cs: seq<Cell>, a: Axis, r: real, along: bool, off: real)
    ensures SameOn(cs, ResizeCells(cs, a, r, along, off), Other(a))
    decreases cs
  {
    if cs != [] {
      var s := Size(cs[0], a) * r;
      var rs := ResizeCells(cs, a, r, along, off);
      var tail := ResizeCells(cs[1..], a, r, along, off + s);
      ResizeCellsCross(cs[1..], a, r, along, off + s);
      ResizeCellsStep(cs, a, r, along, off);
      forall i | 0 <= i < |rs|
        ensures Off(rs[i], Other(a)) == Off(cs[i], Other(a)) && Size(rs[i], Other(a)) == Size(cs[i], Other(a))
      {
        if i > 0 {
          assert rs[i] == tail[i - 1];
          assert cs[i] == cs[1..][i - 1];
        }
      }
    }
  }

  /** Every size of rs on axis a is the matching size of cs times r. */
  predicate ScaledBy(cs: seq<Cell>, rs: seq<Cell>, a: Axis, r: real)
  {
    |rs| == |cs| && forall i :: 0 <= i < |cs| ==> Size(rs[i], a) == Size(cs[i], a) * r
  }

  lemma ScaledByCons(c: Cell, d: Cell, cs: seq<Cell>, rs: seq<Cell>, a: Axis, r: real)
    requires Size(d, a) == Size(c, a) * r && ScaledBy(cs, rs, a, r)
    ensures ScaledBy([c] + cs, [d] + rs, a, r)
  {
    forall i | 0 < i <= |cs| ensures Size(([d] + rs)[i], a) == Size(([c] + cs)[i], a) * r {
      assert ([d] + rs)[i] == rs[i - 1];
      assert ([c] + cs)[i] == cs[i - 1];
    }
  }

  /** The size setters' loop scales every child by r on axis a. */
  lemma {:induction false} ResizeCellsScales(cs: seq<Cell>, a: Axis, r: real, along: bool, off: real)
    ensures ScaledBy(cs, ResizeCells(cs, a, r, along, off), a, r)
    decreases cs
  {
    if cs != [] {
      var rs := ResizeCells(cs, a, r, along, off);
      ResizeCellsScales(cs[1..], a, r, along, off + Size(cs[0], a) * r);
      ResizeCellsStep(cs, a, r, along, off);
      assert rs == [rs[0]] + rs[1..];
      assert cs == [cs[0]] + cs[1..];
      ScaledByCons(cs[0], rs[0], cs[1..], rs[1..], a, r);
    }
  }

  /** Along the divided axis, the size setters' loop lays the children end to end from off. */
  lemma {:induction false} ResizeCellsContiguous(cs: seq<Cell>, a: Axis, r: real, off: real)
    ensures Contiguous(ResizeCells(cs, a, r, true, off), a, off)
    decreases cs
  {
    if cs != [] {
      var s := Size(cs[0], a) * r;
      ResizeCellsContiguous(cs[1..], a, r, off + s);
      ResizeCellsStep(cs, a, r, true, off);
    }
  }

  /** Across the divided axis, the size setters' loop leaves the offsets on a alone. */
  lemma {:induction false} ResizeCellsKeepsOffsets(cs: seq<Cell>, a: Axis, r: real, off: real)
    ensures var rs := ResizeCells(cs, a, r, false, off);
      forall i :: 0 <= i < |rs| ==> Off(rs[i], a) == Off(cs[i], a)
    decreases cs
  {
    if cs != [] {
      var s := Size(cs[0], a) * r;
      var rs := ResizeCells(cs, a, r, false, off);
      var tail := ResizeCells(cs[1..], a, r, false, off + s);
      ResizeCellsKeepsOffsets(cs[1..], a, r, off + s);
      ResizeCellsStep(cs, a, r, false, off);
      forall i | 0 <= i < |rs| ensures Off(rs[i], a) == Off(cs[i], a) {
        if i > 0 {
          assert rs[i] == tail[i - 1];
          assert cs[i] == cs[1..][i - 1];
        }
      }
    }
  }

  /** Scaling every size by r scales the total by r. */
  lemma {:induction false} ScaledSum(cs: seq<Cell>, rs: seq<Cell>, a: Axis, r: real)
    requires |rs| == |cs|
    requires forall i :: 0 <= i < |rs| ==> Size(rs[i], a) == Size(cs[i], a) * r
    ensures SumSize(rs, a) == SumSize(cs, a) * r
    decreases |cs|
  {
    if cs != [] {
      ScaledSum(cs[1..], rs[1..], a, r);
      assert SumSize(rs, a) == Size(cs[0], a) * r + SumSize(cs[1..], a) * r;
      Distributes(Size(cs[0], a), SumSize(cs[1..], a), r);
    }
  }

  lemma Distributes(x: real, y: real, r: real)
    ensures x * r + y * r == (x + y) * r
  {
  }

  /** The size setters' loop scales the children's total on a by r. */
  lemma ResizeCellsSum(cs: seq<Cell>, a: Axis, r: real, along: bool, off: real)
    ensures SumSize(ResizeCells(cs, a, r, along, off), a) == SumSize(cs, a) * r
  {
    ResizeCellsScales(cs, a, r, along, off);
    ScaledSum(cs, ResizeCells(cs, a, r, along, off), a, r);
  }

  /** Sequences whose sizes on a agree have the same total on a. */
  lemma {:induction false} SameSizesSameSum(xs: seq<Cell>, ys: seq<Cell>, a: Axis)
    requires |xs| == |ys|
    requires forall i :: 0 <= i < |xs| ==> Size(xs[i], a) == Size(ys[i], a)
    ensures SumSize(xs, a) == SumSize(ys, a)
    decreases |xs|
  {
    if xs != [] {
      SameSizesSameSum(xs[1..], ys[1..], a);
    }
  }

  /** The children a size setter produces. */
  lemma SetSizeChildren(c: Cell, a: Axis, v: real)
    requires c.Layout?
    ensures SetSize(c, a, v).cells ==
      if Size(c, a) == 0.0 || |c.cells| == 0 then c.cells
      else ResizeCells(c.cells, a, v / Size(c, a), Divides(c.dir, a), Off(c.cells[0], a))
  {
  }

  lemma DivideBack(was: real, v: real)
    requires was != 0.0
    ensures was * (v / was) == v
  {
  }

  /** The sx/sy setters along the axis a layout divides: its children are
      scaled by v / old size and re-laid contiguously from its first child's
      offset, so children that added up to the old size now add up to v. */
  lemma SizeSetterRelaysAlong(c: Cell, a: Axis, v: real)
    requires c.Layout? && Divides(c.dir, a)
    requires Size(c, a) != 0.0 && |c.cells| > 0
    requires SumSize(c.cells, a) == Size(c, a)
    ensures Contiguous(SetSize(c, a, v).cells, a, Off(c.cells[0], a))
    ensures SumSize(SetSize(c, a, v).cells, a) == v
    ensures SameOn(c.cells, SetSize(c, a, v).cells, Other(a))
  {
    var k := v / Size(c, a);
    var off := Off(c.cells[0], a);
    var rs := ResizeCells(c.cells, a, k, true, off);
    SetSizeChildren(c, a, v);
    assert SumSize(rs, a) == v by {
      ResizeCellsSum(c.cells, a, k, true, off);
      DivideBack(Size(c, a), v);
    }
    ResizeCellsCross(c.cells, a, k, true, off);
    ResizeCellsContiguous(c.cells, a, k, off);
  }

  /** The sx/sy setters across the axis a layout divides: each child is scaled
      by v / old size in place. */
  lemma SizeSetterRelaysAcross(c: Cell, a: Axis, v: real)
    requires c.Layout? && !Divides(c.dir, a)
    requires Size(c, a) != 0.0 && |c.cells| > 0
    ensures var rs := SetSize(c, a, v).cells;
      forall i :: 0 <= i < |rs| ==>
        Size(rs[i], a) == Size(c.cells[i], a) * (v / Size(c, a)) && Off(rs[i], a) == Off(c.cells[i], a)
    ensures SameOn(c.cells, SetSize(c, a, v).cells, Other(a))
  {
    SetSizeChildren(c, a, v);
    ResizeCellsCross(c.cells, a, v / Size(c, a), false, Off(c.cells[0], a));
    ResizeCellsScales(c.cells, a, v / Size(c, a), false, Off(c.cells[0], a));
    ResizeCellsKeepsOffsets(c.cells, a, v / Size(c, a), Off(c.cells[0], a));
  }

  // ---------------------------------------------------------------------------
  // The setters keep the invariant

  lemma {:induction false} SetOffKeepsWF(c: Cell, a: Axis, v: real)
    requires WF(c)
    ensures WF(SetOff(c, a, v))
    decreases c
  {
    if c.Layout? {
      var cs := c.cells;
      var along := !Divides(c.dir, Other(a));
      var r := SetOff(c, a, v);
      ShiftCellsFacts(cs, a, v, along);
      ShiftCellsKeepWF(cs, a, v, along);
      var A := Along(c.dir);
      if A == a {
        SameSizesSameSum(cs, r.cells, a);
        SameOnKeepsSpans(cs, r.cells, Other(a), Off(c, Other(a)), Size(c, Other(a)));
      } else if c.dir == TBD {
        assert Contiguous(r.cells[1..], a, v + Size(r.cells[0], a));
        assert Spans(r.cells, a, v, Size(c, a));
        SameOnKeepsLayout(cs, r.cells, Other(a), Off(c, A));
      } else {
        assert Spans(r.cells, a, v, Size(c, a));
        SameOnKeepsLayout(cs, r.cells, Other(a), Off(c, A));
      }
    }
  }

  lemma {:induction false} ShiftCellsKeepWF(cs: seq<Cell>, a: Axis, v: real, along: bool)
    requires AllWF(cs)
    ensures AllWF(ShiftCells(cs, a, v, along))
    decreases cs
  {
    if cs != [] {
      var next := if along then v + Size(cs[0], a) else v;
      var rs := ShiftCells(cs, a, v, along);
      SetOffKeepsWF(cs[0], a, v);
      ShiftCellsKeepWF(cs[1..], a, next, along);
      forall i | 0 <= i < |rs| ensures WF(rs[i]) {
        if i > 0 {
          assert rs[i] == ShiftCells(cs[1..], a, next, along)[i - 1];
        }
      }
    }
  }

  /** A size setter keeps a layout partitioned (its children need not be WF). */
  lemma SetSizeKeepsPartitioned(c: Cell, a: Axis, v: real)
    requires c.Layout? && |c.cells| >= 1 && (c.dir == TBD ==> |c.cells| == 1)
    requires Partitioned(c) && Size(c, a) > 0.0
    ensures Partitioned(SetSize(c, a, v))
  {
    var cs := c.cells;
    var r := SetSize(c, a, v);
    var A := Along(c.dir);
    if Divides(c.dir, a) {
      SizeSetterRelaysAlong(c, a, v);
      SameOnKeepsSpans(cs, r.cells, Other(a), Off(c, Other(a)), Size(c, Other(a)));
    } else {
      SizeSetterRelaysAcross(c, a, v);
      if A == a {
        TbdSizeKeepsPartitioned(c, a, v);
      } else {
        SpanScaled(c, a, v);
        SameOnKeepsLayout(cs, r.cells, Other(a), Off(c, A));
      }
    }
  }

  /** A TBD layout's single child follows a size setter on x. */
  lemma TbdSizeKeepsPartitioned(c: Cell, a: Axis, v: real)
    requires c.Layout? && c.dir == TBD && |c.cells| == 1 && a == X
    requires Partitioned(c) && Size(c, a) > 0.0
    ensures Partitioned(SetSize(c, a, v))
  {
    var cs := c.cells;
    var r := SetSize(c, a, v);
    SizeSetterRelaysAcross(c, a, v);
    DivideBack(Size(c, a), v);
    assert SumSize(cs, a) == Size(cs[0], a) + SumSize(cs[1..], a);
    assert Size(cs[0], a) == Size(c, a);
    assert SumSize(r.cells, a) == Size(r.cells[0], a);
    assert Contiguous(r.cells[1..], a, Off(c, a) + Size(r.cells[0], a));
    SameOnKeepsSpans(cs, r.cells, Other(a), Off(c, Other(a)), Size(c, Other(a)));
  }

  /** Across the axis a layout divides, every child spans the layout before and after a size setter. */
  lemma SpanScaled(c: Cell, a: Axis, v: real)
    requires c.Layout? && Along(c.dir) != a && Size(c, a) > 0.0
    requires Spans(c.cells, a, Off(c, a), Size(c, a))
    ensures Spans(SetSize(c, a, v).cells, a, Off(c, a), v)
  {
    var rs := SetSize(c, a, v).cells;
    if |c.cells| > 0 {
      SizeSetterRelaysAcross(c, a, v);
      DivideBack(Size(c, a), v);
      forall i | 0 <= i < |rs| ensures Off(rs[i], a) == Off(c, a) && Size(rs[i], a) == v {
        assert Size(c.cells[i], a) == Size(c, a);
      }
    }
  }

  lemma {:induction false} SetSizeKeepsWF(c: Cell, a: Axis, v: real)
    requires WF(c) && v > 0.0
    ensures WF(SetSize(c, a, v))
    decreases Weight(c), 1
  {
    if c.Layout? {
      var k := v / Size(c, a);
      assert k > 0.0;
      SetSizeChildren(c, a, v);
      SetSizeKeepsPartitioned(c, a, v);
      ResizeCellsKeepWF(c.cells, a, k, Divides(c.dir, a), Off(c.cells[0], a));
    }
  }

  lemma {:induction false} ResizeCellsKeepWF(cs: seq<Cell>, a: Axis, r: real, along: bool, off: real)
    requires AllWF(cs) && r > 0.0
    ensures AllWF(ResizeCells(cs, a, r, along, off))
    decreases WeightAll(cs), 2
  {
    if cs != [] {
      var s := Size(cs[0], a) * r;
      assert s > 0.0 by {
        assert WF(cs[0]);
        assert Size(cs[0], a) > 0.0;
      }
      var rs := ResizeCells(cs, a, r, along, off);
      if along {
        SetOffKeepsWF(cs[0], a, off);
        SetSizeKeepsWF(SetOff(cs[0], a, off), a, s);
      } else {
        SetSizeKeepsWF(cs[0], a, s);
      }
      ResizeCellsKeepWF(cs[1..], a, r, along, off + s);
      ResizeCellsStep(cs, a, r, along, off);
      forall i | 0 <= i < |rs| ensures WF(rs[i]) {
        if i > 0 {
          assert rs[i] == ResizeCells(cs[1..], a, r, along, off + s)[i - 1];
        }
      }
    }
  }
}
