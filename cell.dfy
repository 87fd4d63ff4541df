/*
 * Geometry of the cells of the tiling layout.
 *
 * A cell is either a Pane (a leaf hosting one terminal) or a Layout (an
 * internal node with a direction and an ordered list of child cells). Every
 * cell carries its size (sx, sy) and offset (xoff, yoff) as fractions of the
 * viewport. Assigning a size or an offset to a Layout is not a plain store:
 * the setters of src/layout.ts re-lay the layout's children, recursively.
 */
module CellGeometry {

  /** The direction of a layout. The names are the opposite of what they
      suggest: "topbottom" places its children side by side (it divides sx),
      "rightleft" stacks them (it divides sy). TBD is a fresh, undecided layout. */
  datatype Dir = TBD | TopBottom | RightLeft

  datatype Axis = X | Y

  datatype Cell =
    | Pane(id: nat, sx: real, sy: real, xoff: real, yoff: real)
    | Layout(dir: Dir, sx: real, sy: real, xoff: real, yoff: real, cells: seq<Cell>)

  function Other(a: Axis): Axis { if a == X then Y else X }

  function Size(c: Cell, a: Axis): real { if a == X then c.sx else c.sy }

  function Off(c: Cell, a: Axis): real { if a == X then c.xoff else c.yoff }

  /** The axis along which a layout's children follow one another. Anything
      other than "rightleft" counts as x, as in `onClose`. */
  function Along(d: Dir): Axis { if d == RightLeft then Y else X }

  /** Whether a layout of direction d divides axis a ("topbottom" divides x,
      "rightleft" divides y, TBD divides neither). */
  predicate Divides(d: Dir, a: Axis) { d != TBD && Along(d) == a }

  /** The plain store of a size, as the base cell class does it. */
  function WithSize(c: Cell, a: Axis, v: real): Cell
  {
    if a == X then c.(sx := v) else c.(sy := v)
  }

  /** The plain store of an offset. */
  function WithOff(c: Cell, a: Axis, v: real): Cell
  {
    if a == X then c.(xoff := v) else c.(yoff := v)
  }

  /** Number of nodes of a tree: the measure that makes the cascading setters terminate. */
  function Weight(c: Cell): nat
    decreases c
  {
    match c
    case Pane(_, _, _, _, _) => 1
    case Layout(_, _, _, _, _, cs) => 1 + WeightAll(cs)
  }

  function WeightAll(cs: seq<Cell>): nat
    decreases cs
  {
    if cs == [] then 0 else Weight(cs[0]) + WeightAll(cs[1..])
  }

  /** Assigning `xoff` (a == X) or `yoff` (a == Y) to a cell (src/layout.ts:255-286).
      A layout stores its own offset, then gives every child the value `v` when it
      stacks them across a (dir "rightleft" for x, "topbottom" for y), and
      otherwise the running offsets v, v+s0, v+s0+s1, ... */
  function SetOff(c: Cell, a: Axis, v: real): (r: Cell)
    ensures Weight(r) == Weight(c)
    ensures Off(r, a) == v && Off(r, Other(a)) == Off(c, Other(a))
    ensures r.sx == c.sx && r.sy == c.sy
    ensures r.Pane? == c.Pane?
    ensures r.Pane? ==> r.id == c.id
    ensures r.Layout? ==> r.dir == c.dir && |r.cells| == |c.cells|
    decreases c
  {
    match c
    case Pane(_, _, _, _, _) => WithOff(c, a, v)
    case Layout(d, _, _, _, _, cs) =>
      WithOff(c, a, v).(cells := ShiftCells(cs, a, v, !Divides(d, Other(a))))
  }

  /** The loop of the offset setters over a layout's children. */
  function ShiftCells(cs: seq<Cell>, a: Axis, v: real, along: bool): (r: seq<Cell>)
    ensures WeightAll(r) == WeightAll(cs)
    ensures |r| == |cs|
    decreases cs
  {
    if cs == [] then []
    else
      var next := if along then v + Size(cs[0], a) else v;
      [SetOff(cs[0], a, v)] + ShiftCells(cs[1..], a, next, along)
  }

  /** Assigning `sx` (a == X) or `sy` (a == Y) to a cell (src/layout.ts:208-248).
      A layout stores its own size; with r = v / old size, it rescales its
      children by r: along the axis it divides it re-lays them contiguously from
      the offset of its first child, across it it only scales them. With no
      children, or an old size of 0 (a NaN or infinite ratio in the source),
      the children are left untouched. */
  function SetSize(c: Cell, a: Axis, v: real): (r: Cell)
    ensures Weight(r) == Weight(c)
    ensures Size(r, a) == v && Size(r, Other(a)) == Size(c, Other(a))
    ensures r.xoff == c.xoff && r.yoff == c.yoff
    ensures r.Pane? == c.Pane?
    ensures r.Pane? ==> r.id == c.id
    ensures r.Layout? ==> r.dir == c.dir && |r.cells| == |c.cells|
    decreases Weight(c), 1
  {
    match c
    case Pane(_, _, _, _, _) => WithSize(c, a, v)
    case Layout(d, _, _, _, _, cs) =>
      var was := Size(c, a);
      if was == 0.0 || |cs| == 0 then WithSize(c, a, v)
      else WithSize(c, a, v).(cells := ResizeCells(cs, a, v / was, Divides(d, a), Off(cs[0], a)))
  }

  /** The loop of the size setters over a layout's children, with the running offset. */
  function ResizeCells(cs: seq<Cell>, a: Axis, r: real, along: bool, off: real): (rs: seq<Cell>)
    ensures WeightAll(rs) == WeightAll(cs)
    ensures |rs| == |cs|
    decreases WeightAll(cs), 2
  {
    if cs == [] then []
    else
      var s := Size(cs[0], a) * r;
      var first := if along then SetSize(SetOff(cs[0], a, off), a, s) else SetSize(cs[0], a, s);
      [first] + ResizeCells(cs[1..], a, r, along, off + s)
  }
}
