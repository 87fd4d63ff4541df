/*
 * The setters of src/layout.ts:208-286 as the loops they are: one pass over
 * the layout's children with a running offset. Each child's own assignment
 * cascades through the functional setters of CellGeometry.
 */
module SetterLoops {
  import opened CellGeometry

  /** The loop of `set sx` / `set sy` (src/layout.ts:214-223, 238-247): along the axis
      the layout divides, each child is moved to the running offset and rescaled, and the
      offset advances by its new size; across it, each child is only rescaled. */
  method ResizeChildren(cs: seq<Cell>, a: Axis, r: real, along: bool, off0: real) returns (rs: seq<Cell>)
    ensures rs == ResizeCells(cs, a, r, along, off0)
  {
    rs := [];
    var off := off0;
    ghost var next := off0;
    var rest := cs;
    while rest != []
      invariant along ==> off == next
      invariant rs + ResizeCells(rest, a, r, along, next) == ResizeCells(cs, a, r, along, off0)
      decreases |rest|
    {
      var s := Size(rest[0], a) * r;
      var first;
      ResizeCellsUnfold(rest, a, r, along, next);
      if along {
        first := SetSize(SetOff(rest[0], a, off), a, s);
        off := off + s;
      } else {
        first := SetSize(rest[0], a, s);
      }
      assert ResizeCells(rest, a, r, along, next) == [first] + ResizeCells(rest[1..], a, r, along, next + s);
      Regroup(rs, first, ResizeCells(rest[1..], a, r, along, next + s));
      rs := rs + [first];
      next := next + s;
      rest := rest[1..];
    }
  }

  /** `set sx` / `set sy` on a cell: store the size; a layout with children and a non-zero
      old size then rescales them by the ratio of new to old size. */
  method AssignSize(c: Cell, a: Axis, v: real) returns (r: Cell)
    ensures r == SetSize(c, a, v)
  {
    r := WithSize(c, a, v);
    if c.Layout? {
      var was := Size(c, a);
      if was != 0.0 && |c.cells| != 0 {
        var rs := ResizeChildren(c.cells, a, v / was, Divides(c.dir, a), Off(c.cells[0], a));
        r := r.(cells := rs);
      }
    }
  }

  /** The loop of `set xoff` / `set yoff` (src/layout.ts:258-266, 277-285): across the
      layout's direction every child gets the new offset; otherwise the children are laid
      one after the other from it. */
  method ShiftChildren(cs: seq<Cell>, a: Axis, v: real, along: bool) returns (rs: seq<Cell>)
    ensures rs == ShiftCells(cs, a, v, along)
  {
    rs := [];
    var x := v;
    var rest := cs;
    while rest != []
      invariant rs + ShiftCells(rest, a, x, along) == ShiftCells(cs, a, v, along)
      decreases |rest|
    {
      var first := SetOff(rest[0], a, x);
      var next := if along then x + Size(rest[0], a) else x;
      ShiftCellsUnfold(rest, a, x, along);
      Regroup(rs, first, ShiftCells(rest[1..], a, next, along));
      rs := rs + [first];
      x := next;
      rest := rest[1..];
    }
  }

  /** `set xoff` / `set yoff` on a cell. */
  method AssignOff(c: Cell, a: Axis, v: real) returns (r: Cell)
    ensures r == SetOff(c, a, v)
  {
    r := WithOff(c, a, v);
    if c.Layout? {
      var rs := ShiftChildren(c.cells, a, v, !Divides(c.dir, Other(a)));
      r := r.(cells := rs);
    }
  }

  lemma Regroup<T>(xs: seq<T>, x: T, ys: seq<T>)
    ensures xs + ([x] + ys) == (xs + [x]) + ys
  {
  }

  lemma ResizeCellsUnfold(cs: seq<Cell>, a: Axis, r: real, along: bool, off: real)
    requires cs != []
    ensures var s := Size(cs[0], a) * r;
      ResizeCells(cs, a, r, along, off) ==
        [if along then SetSize(SetOff(cs[0], a, off), a, s) else SetSize(cs[0], a, s)]
        + ResizeCells(cs[1..], a, r, along, off + s)
  {
  }

  lemma ShiftCellsUnfold(cs: seq<Cell>, a: Axis, v: real, along: bool)
    requires cs != []
    ensures ShiftCells(cs, a, v, along) ==
      [SetOff(cs[0], a, v)] + ShiftCells(cs[1..], a, if along then v + Size(cs[0], a) else v, along)
  {
  }
}
