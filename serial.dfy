/*
 * The serialisations of a layout tree: `dump` (src/layout.ts:186-199 and
 * src/pane.ts:787-806), which mirrors the tree as plain objects, and `toText`
 * (src/layout.ts:159-183), the compact text form the tests compare against.
 */
module Serial {
  import opened Options
  import opened CellGeometry
  import opened Partition
  import opened Tree

  /** What a pane's dump takes from its terminal and channel rather than from the tree. */
  datatype PaneInfo = PaneInfo(fontSize: int, channelID: Option<nat>, zoomed: bool, rows: nat, cols: nat)

  /** SerializedLayout and SerializedPane. */
  datatype Serialized =
    | SLayout(dir: Dir, sx: real, sy: real, xoff: real, yoff: real, cells: seq<Serialized>)
    | SPane(sx: real, sy: real, xoff: real, yoff: real, fontSize: int, channelID: Option<nat>,
            active: bool, zoomed: bool, rows: nat, cols: nat)

  /** `dump`: a layout dumps its direction, geometry and its children's dumps in order; a
      pane dumps its geometry and its terminal's state, and is marked active when it is
      the window's active pane. `info` maps a pane's id to its terminal's state. */
  function Dump(c: Cell, info: nat -> PaneInfo, activeId: Option<nat>): Serialized
    decreases c
  {
    match c
    case Pane(id, sx, sy, xoff, yoff) =>
      var i := info(id);
      SPane(sx, sy, xoff, yoff, i.fontSize, i.channelID, activeId == Some(id), i.zoomed, i.rows, i.cols)
    case Layout(d, sx, sy, xoff, yoff, cs) =>
      SLayout(d, sx, sy, xoff, yoff, DumpAll(cs, info, activeId))
  }

  function DumpAll(cs: seq<Cell>, info: nat -> PaneInfo, activeId: Option<nat>): (r: seq<Serialized>)
    ensures |r| == |cs|
    decreases cs
  {
    if cs == [] then [] else DumpAll(cs[..|cs| - 1], info, activeId) + [Dump(cs[|cs| - 1], info, activeId)]
  }

  /** Rebuilding a tree from its dump. A dump carries no pane ids, so the panes come back with id 0. */
  function Restore(s: Serialized): Cell
    decreases s
  {
    match s
    case SPane(sx, sy, xoff, yoff, _, _, _, _, _, _) => Pane(0, sx, sy, xoff, yoff)
    case SLayout(d, sx, sy, xoff, yoff, ss) => Layout(d, sx, sy, xoff, yoff, RestoreAll(ss))
  }

  function RestoreAll(ss: seq<Serialized>): (r: seq<Cell>)
    ensures |r| == |ss|
    decreases ss
  {
    if ss == [] then [] else RestoreAll(ss[..|ss| - 1]) + [Restore(ss[|ss| - 1])]
  }

  /** The tree with every pane id erased. */
  function ClearIds(c: Cell): Cell
    decreases c
  {
    match c
    case Pane(_, sx, sy, xoff, yoff) => Pane(0, sx, sy, xoff, yoff)
    case Layout(d, sx, sy, xoff, yoff, cs) => Layout(d, sx, sy, xoff, yoff, ClearIdsAll(cs))
  }

  function ClearIdsAll(cs: seq<Cell>): (r: seq<Cell>)
    ensures |r| == |cs|
    decreases cs
  {
    if cs == [] then [] else ClearIdsAll(cs[..|cs| - 1]) + [ClearIds(cs[|cs| - 1])]
  }

  /** A dump mirrors the tree: restoring it gives back the tree, up to pane ids. */
  lemma {:induction false} RestoreDump(c: Cell, info: nat -> PaneInfo, activeId: Option<nat>)
    ensures Restore(Dump(c, info, activeId)) == ClearIds(c)
    decreases c, 1
  {
    if c.Layout? {
      RestoreDumpAll(c.cells, info, activeId);
    }
  }

  lemma {:induction false} RestoreDumpAll(cs: seq<Cell>, info: nat -> PaneInfo, activeId: Option<nat>)
    ensures RestoreAll(DumpAll(cs, info, activeId)) == ClearIdsAll(cs)
    decreases cs, 0
  {
    if cs != [] {
      var ds := DumpAll(cs, info, activeId);
      assert ds[..|ds| - 1] == DumpAll(cs[..|cs| - 1], info, activeId);
      RestoreDumpAll(cs[..|cs| - 1], info, activeId);
      RestoreDump(cs[|cs| - 1], info, activeId);
    }
  }

  /** The dump of the i-th child is the i-th entry of the dump's cells. */
  lemma {:induction false} DumpAllAt(cs: seq<Cell>, info: nat -> PaneInfo, activeId: Option<nat>, i: nat)
    requires i < |cs|
    ensures DumpAll(cs, info, activeId)[i] == Dump(cs[i], info, activeId)
    decreases |cs|
  {
    if i < |cs| - 1 {
      assert cs[..|cs| - 1][i] == cs[i];
      DumpAllAt(cs[..|cs| - 1], info, activeId, i);
    }
  }

  /** Erasing ids keeps the geometry, so it keeps the invariant. */
  lemma {:induction false} ClearIdsKeepsWF(c: Cell)
    requires WF(c)
    ensures WF(ClearIds(c)) && SameRect(ClearIds(c), c)
    decreases c, 1
  {
    if c.Layout? {
      var cs := c.cells;
      var rs := ClearIdsAll(cs);
      ClearIdsAllFacts(cs);
      var A := Along(c.dir);
      assert SameOn(cs, rs, A) && SameOn(cs, rs, Other(A)) by {
        forall i | 0 <= i < |rs|
          ensures Off(rs[i], A) == Off(cs[i], A) && Size(rs[i], A) == Size(cs[i], A)
          ensures Off(rs[i], Other(A)) == Off(cs[i], Other(A)) && Size(rs[i], Other(A)) == Size(cs[i], Other(A))
        {
          assert SameRect(rs[i], cs[i]);
        }
      }
      SameOnKeepsLayout(cs, rs, A, Off(c, A));
      SameOnKeepsSpans(cs, rs, Other(A), Off(c, Other(A)), Size(c, Other(A)));
    }
  }

  lemma {:induction false} ClearIdsAllFacts(cs: seq<Cell>)
    requires AllWF(cs)
    ensures var rs := ClearIdsAll(cs);
      forall i :: 0 <= i < |rs| ==> WF(rs[i]) && SameRect(rs[i], cs[i])
    decreases cs, 0
  {
    if cs != [] {
      var rs := ClearIdsAll(cs);
      var front := cs[..|cs| - 1];
      ClearIdsAllFacts(front);
      ClearIdsKeepsWF(cs[|cs| - 1]);
      forall i | 0 <= i < |rs| ensures WF(rs[i]) && SameRect(rs[i], cs[i]) {
        if i < |rs| - 1 {
          assert rs[i] == ClearIdsAll(front)[i];
          assert cs[i] == front[i];
        }
      }
    }
  }

  // ---------------------------------------------------------------------------
  // toText

  /** `toText`: "[" ... "]" for a "rightleft" layout, "{" ... "}" otherwise; each child
      gives "sx" "x" "sy" "," "xoff" "," "yoff", then a child layout's own text or ","
      and the pane's id; children are separated by ",". Numbers go through `num`
      (the source's `toFixed(3)`), ids through `ident`. */
  function ToText(c: Cell, num: real -> string, ident: nat -> string): (r: string)
    requires c.Layout?
    ensures |r| >= 2 && r[0] == Open(c.dir) && r[|r| - 1] == Close(c.dir)
    decreases c, 0
  {
    [Open(c.dir)] + Items(c.cells, num, ident) + [Close(c.dir)]
  }

  function Open(d: Dir): char { if d == RightLeft then '[' else '{' }

  function Close(d: Dir): char { if d == RightLeft then ']' else '}' }

  function Items(cs: seq<Cell>, num: real -> string, ident: nat -> string): string
    decreases cs, 2
  {
    if cs == [] then []
    else
      var n := |cs| - 1;
      Items(cs[..n], num, ident) + (if n > 0 then "," else "") + Entry(cs[n], num, ident)
  }

  function Entry(c: Cell, num: real -> string, ident: nat -> string): string
    decreases c, 1
  {
    num(c.sx) + "x" + num(c.sy) + "," + num(c.xoff) + "," + num(c.yoff)
      + (if c.Layout? then ToText(c, num, ident) else "," + ident(c.id))
  }

  function Count(s: string, ch: char): nat
    decreases |s|
  {
    if s == [] then 0 else (if s[0] == ch then 1 else 0) + Count(s[1..], ch)
  }

  lemma {:induction false} CountAppend(s: string, t: string, ch: char)
    ensures Count(s + t, ch) == Count(s, ch) + Count(t, ch)
    decreases |s|
  {
    if s == [] {
      assert s + t == t;
    } else {
      assert (s + t)[1..] == s[1..] + t;
      CountAppend(s[1..], t, ch);
    }
  }

  /** The layouts of a tree with direction "rightleft" (wanted == true) or any other. */
  function Layouts(c: Cell, rightLeft: bool): nat
    decreases c
  {
    match c
    case Pane(_, _, _, _, _) => 0
    case Layout(d, _, _, _, _, cs) => (if (d == RightLeft) == rightLeft then 1 else 0) + LayoutsAll(cs, rightLeft)
  }

  function LayoutsAll(cs: seq<Cell>, rightLeft: bool): nat
    decreases cs
  {
    if cs == [] then 0 else LayoutsAll(cs[..|cs| - 1], rightLeft) + Layouts(cs[|cs| - 1], rightLeft)
  }

  predicate NoBrackets(s: string)
  {
    forall i :: 0 <= i < |s| ==> s[i] !in "[]{}"
  }

  lemma {:induction false} NoBracketsCount(s: string, ch: char)
    requires NoBrackets(s) && ch in "[]{}"
    ensures Count(s, ch) == 0
    decreases |s|
  {
    if s != [] {
      NoBracketsCount(s[1..], ch);
    }
  }

  /** The text is bracketed consistently: there is one "[" and one "]" per "rightleft"
      layout and one "{" and one "}" per other layout, provided the number and id
      formatters write no brackets. */
  lemma {:induction false} ToTextBrackets(c: Cell, num: real -> string, ident: nat -> string)
    requires c.Layout?
    requires forall x :: NoBrackets(num(x))
    requires forall n :: NoBrackets(ident(n))
    ensures Count(ToText(c, num, ident), '[') == Count(ToText(c, num, ident), ']') == Layouts(c, true)
    ensures Count(ToText(c, num, ident), '{') == Count(ToText(c, num, ident), '}') == Layouts(c, false)
    decreases c, 0
  {
    ItemsBrackets(c.cells, num, ident);
    var body := Items(c.cells, num, ident);
    var o: string := [Open(c.dir)];
    var e: string := [Close(c.dir)];
    assert ToText(c, num, ident) == o + body + e;
    forall ch | ch in "[]{}"
      ensures Count(ToText(c, num, ident), ch) == Count(o, ch) + Count(body, ch) + Count(e, ch)
      ensures Count(o, ch) == (if Open(c.dir) == ch then 1 else 0)
      ensures Count(e, ch) == (if Close(c.dir) == ch then 1 else 0)
    {
      CountAppend(o, body, ch);
      CountAppend(o + body, e, ch);
      assert o[1..] == [] && e[1..] == [];
    }
  }

  lemma {:induction false} ItemsBrackets(cs: seq<Cell>, num: real -> string, ident: nat -> string)
    requires forall x :: NoBrackets(num(x))
    requires forall n :: NoBrackets(ident(n))
    ensures Count(Items(cs, num, ident), '[') == Count(Items(cs, num, ident), ']') == LayoutsAll(cs, true)
    ensures Count(Items(cs, num, ident), '{') == Count(Items(cs, num, ident), '}') == LayoutsAll(cs, false)
    decreases cs, 2
  {
    if cs != [] {
      var n := |cs| - 1;
      var front := Items(cs[..n], num, ident);
      var sep: string := if n > 0 then "," else "";
      var e := Entry(cs[n], num, ident);
      ItemsBrackets(cs[..n], num, ident);
      EntryBrackets(cs[n], num, ident);
      forall ch | ch in "[]{}"
        ensures Count(Items(cs, num, ident), ch) == Count(front, ch) + Count(e, ch)
      {
        CountAppend(front, sep, ch);
        CountAppend(front + sep, e, ch);
        NoBracketsCount(sep, ch);
      }
    }
  }

  lemma {:induction false} EntryBrackets(c: Cell, num: real -> string, ident: nat -> string)
    requires forall x :: NoBrackets(num(x))
    requires forall n :: NoBrackets(ident(n))
    ensures Count(Entry(c, num, ident), '[') == Count(Entry(c, num, ident), ']') == Layouts(c, true)
    ensures Count(Entry(c, num, ident), '{') == Count(Entry(c, num, ident), '}') == Layouts(c, false)
    decreases c, 1
  {
    var head := num(c.sx) + "x" + num(c.sy) + "," + num(c.xoff) + "," + num(c.yoff);
    var tail := if c.Layout? then ToText(c, num, ident) else "," + ident(c.id);
    assert Entry(c, num, ident) == head + tail;
    forall ch | ch in "[]{}"
      ensures Count(head, ch) == 0
    {
      CountAppend(num(c.sx), "x", ch);
      CountAppend(num(c.sx) + "x", num(c.sy), ch);
      CountAppend(num(c.sx) + "x" + num(c.sy), ",", ch);
      CountAppend(num(c.sx) + "x" + num(c.sy) + ",", num(c.xoff), ch);
      CountAppend(num(c.sx) + "x" + num(c.sy) + "," + num(c.xoff), ",", ch);
      CountAppend(num(c.sx) + "x" + num(c.sy) + "," + num(c.xoff) + ",", num(c.yoff), ch);
      NoBracketsCount(num(c.sx), ch);
      NoBracketsCount(num(c.sy), ch);
      NoBracketsCount(num(c.xoff), ch);
      NoBracketsCount(num(c.yoff), ch);
      NoBracketsCount("x", ch);
      NoBracketsCount(",", ch);
    }
    forall ch | ch in "[]{}"
      ensures Count(Entry(c, num, ident), ch) == Count(tail, ch)
    {
      CountAppend(head, tail, ch);
    }
    if c.Layout? {
      ToTextBrackets(c, num, ident);
    } else {
      forall ch | ch in "[]{}" ensures Count(tail, ch) == 0 {
        CountAppend(",", ident(c.id), ch);
        NoBracketsCount(",", ch);
        NoBracketsCount(ident(c.id), ch);
      }
    }
  }
}
