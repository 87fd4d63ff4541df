/*
 * Editing a layout's list of children, and why such edits keep a layout
 * partitioned.
 *
 * The source edits `cells` with `Array.prototype.splice`; `Splice` below has
 * its semantics, including how it clamps a negative or too large start.
 */
module LayoutEdit {
  import opened CellGeometry
  import opened Partition
  import opened Tree

  /** `s.splice(start, deleteCount, ...items)`: the array afterwards. */
  function Splice<T>(s: seq<T>, start: int, deleteCount: int, items: seq<T>): (r: seq<T>)
    ensures 0 <= start <= |s| && 0 <= deleteCount <= |s| - start ==>
      r == s[..start] + items + s[start + deleteCount..]
    ensures start < -|s| ==> r == items + s[(if deleteCount < 0 then 0 else if deleteCount > |s| then |s| else deleteCount)..]
    ensures start >= |s| ==> r == s + items
  {
    var st := if start < 0 then (if |s| + start < 0 then 0 else |s| + start) else (if start > |s| then |s| else start);
    var dc := if deleteCount < 0 then 0 else if deleteCount > |s| - st then |s| - st else deleteCount;
    s[..st] + items + s[st + dc..]
  }

  /** A layout whose only child fills it is partitioned whatever its direction. */
  lemma SingleChildPartitioned(l: Cell)
    requires l.Layout? && |l.cells| == 1 && SameRect(l.cells[0], l)
    ensures Partitioned(l)
  {
    var a := Along(l.dir);
    assert l.cells[1..] == [];
    assert SumSize(l.cells, a) == Size(l.cells[0], a) + SumSize(l.cells[1..], a);
  }

  /** The only child of a partitioned layout fills it. */
  lemma SingleChildFills(l: Cell)
    requires l.Layout? && |l.cells| == 1 && Partitioned(l)
    ensures SameRect(l.cells[0], l)
  {
    var a := Along(l.dir);
    assert l.cells[1..] == [];
    assert SumSize(l.cells, a) == Size(l.cells[0], a) + SumSize(l.cells[1..], a);
    assert Off(l.cells[0], a) == Off(l, a);
    assert Off(l.cells[0], Other(a)) == Off(l, Other(a)) && Size(l.cells[0], Other(a)) == Size(l, Other(a));
    if a == X {
      assert l.cells[0].xoff == l.xoff && l.cells[0].sx == l.sx;
    } else {
      assert l.cells[0].yoff == l.yoff && l.cells[0].sy == l.sy;
    }
  }

  /** The offset along its layout's axis at which the j-th child starts. */
  lemma ChildStart(l: Cell, j: nat)
    requires l.Layout? && Partitioned(l) && j < |l.cells|
    ensures Off(l.cells[j], Along(l.dir)) == Off(l, Along(l.dir)) + SumSize(l.cells[..j], Along(l.dir))
  {
    var a := Along(l.dir);
    var cs := l.cells;
    assert cs == cs[..j] + cs[j..];
    ContiguousAppend(cs[..j], cs[j..], a, Off(l, a));
  }

  /** In a contiguous row each cell starts where the previous one ends. */
  lemma {:induction false} ContiguousNext(cs: seq<Cell>, a: Axis, off: real, k: nat)
    requires Contiguous(cs, a, off) && k + 1 < |cs|
    ensures Off(cs[k + 1], a) == Off(cs[k], a) + Size(cs[k], a)
    decreases k
  {
    if k > 0 {
      ContiguousNext(cs[1..], a, off + Size(cs[0], a), k - 1);
    }
  }

  /** A contiguous row cut in three: each part is contiguous from where the previous one
      ends, and the sizes add up. */
  lemma RowParts(cs: seq<Cell>, j: nat, k: nat, a: Axis, off: real)
    requires Contiguous(cs, a, off) && j < k <= |cs|
    ensures Contiguous(cs[..j], a, off) && Off(cs[j], a) == off + SumSize(cs[..j], a)
    ensures Contiguous(cs[k..], a, Off(cs[j], a) + SumSize(cs[j..k], a))
    ensures SumSize(cs, a) == SumSize(cs[..j], a) + (SumSize(cs[j..k], a) + SumSize(cs[k..], a))
  {
    var pre, mid, post := cs[..j], cs[j..k], cs[k..];
    var m := off + SumSize(pre, a);
    assert cs == pre + (mid + post);
    ContiguousAppend(pre, mid + post, a, off);
    ContiguousAppend(mid, post, a, m);
    assert mid[0] == cs[j];
    SumSizeAppend(pre, mid + post, a);
    SumSizeAppend(mid, post, a);
  }

  /** Three rows, each starting where the previous one ends, make one contiguous row. */
  lemma RowJoin(pre: seq<Cell>, ms: seq<Cell>, post: seq<Cell>, a: Axis, off: real)
    requires Contiguous(pre, a, off) && Contiguous(ms, a, off + SumSize(pre, a))
    requires Contiguous(post, a, off + SumSize(pre, a) + SumSize(ms, a))
    ensures Contiguous(pre + ms + post, a, off)
    ensures SumSize(pre + ms + post, a) == SumSize(pre, a) + (SumSize(ms, a) + SumSize(post, a))
  {
    assert pre + ms + post == pre + (ms + post);
    ContiguousAppend(ms, post, a, off + SumSize(pre, a));
    ContiguousAppend(pre, ms + post, a, off);
    SumSizeAppend(ms, post, a);
    SumSizeAppend(pre, ms + post, a);
  }

  /** Replacing the run cs[j..k] by cells ms that tile the same stretch keeps a row contiguous and its total. */
  lemma ReplaceRunKeepsRow(cs: seq<Cell>, j: nat, k: nat, ms: seq<Cell>, a: Axis, off: real)
    requires Contiguous(cs, a, off) && j < k <= |cs|
    requires Contiguous(ms, a, Off(cs[j], a)) && SumSize(ms, a) == SumSize(cs[j..k], a)
    ensures Contiguous(cs[..j] + ms + cs[k..], a, off)
    ensures SumSize(cs[..j] + ms + cs[k..], a) == SumSize(cs, a)
  {
    RowParts(cs, j, k, a, off);
    RowJoin(cs[..j], ms, cs[k..], a, off);
  }

  lemma ReplaceRunKeepsSpans(cs: seq<Cell>, j: nat, k: nat, ms: seq<Cell>, a: Axis, off: real, sz: real)
    requires j <= k <= |cs| && Spans(cs, a, off, sz) && Spans(ms, a, off, sz)
    ensures Spans(cs[..j] + ms + cs[k..], a, off, sz)
  {
    var ns := cs[..j] + ms + cs[k..];
    forall i | 0 <= i < |ns| ensures Off(ns[i], a) == off && Size(ns[i], a) == sz {
      if i < j {
        assert ns[i] == cs[i];
      } else if i < j + |ms| {
        assert ns[i] == ms[i - j];
      } else {
        assert ns[i] == cs[i - j - |ms| + k];
      }
    }
  }

  /** Replacing the run cells[j..k] by cells ms that tile the same stretch keeps a layout partitioned. */
  lemma ReplaceRunKeepsPartitioned(l: Cell, j: nat, k: nat, ms: seq<Cell>)
    requires l.Layout? && Partitioned(l) && j < k <= |l.cells|
    requires Contiguous(ms, Along(l.dir), Off(l.cells[j], Along(l.dir)))
    requires SumSize(ms, Along(l.dir)) == SumSize(l.cells[j..k], Along(l.dir))
    requires Spans(ms, Other(Along(l.dir)), Off(l, Other(Along(l.dir))), Size(l, Other(Along(l.dir))))
    ensures Partitioned(l.(cells := l.cells[..j] + ms + l.cells[k..]))
  {
    var a := Along(l.dir);
    ReplaceRunKeepsRow(l.cells, j, k, ms, a, Off(l, a));
    ReplaceRunKeepsSpans(l.cells, j, k, ms, Other(a), Off(l, Other(a)), Size(l, Other(a)));
  }

  /** Replacing the run cells[j..k] of a well-formed layout by well-formed cells ms that
      tile the same stretch keeps the layout well formed. */
  lemma ReplaceRunKeepsWF(l: Cell, j: nat, k: nat, ms: seq<Cell>)
    requires l.Layout? && WF(l) && j < k <= |l.cells| && AllWF(ms) && |ms| >= 1
    requires l.dir == TBD ==> |ms| == 1
    requires Contiguous(ms, Along(l.dir), Off(l.cells[j], Along(l.dir)))
    requires SumSize(ms, Along(l.dir)) == SumSize(l.cells[j..k], Along(l.dir))
    requires Spans(ms, Other(Along(l.dir)), Off(l, Other(Along(l.dir))), Size(l, Other(Along(l.dir))))
    ensures WF(l.(cells := l.cells[..j] + ms + l.cells[k..]))
  {
    assert AllWF(l.cells);
    ReplaceRunKeepsPartitioned(l, j, k, ms);
    ReplaceRunKeepsChildrenWF(l.cells, j, k, ms);
    var m := l.(cells := l.cells[..j] + ms + l.cells[k..]);
    assert |m.cells| == |l.cells| - (k - j) + |ms|;
  }

  /** Every child of the new list is a child of the old list or one of ms. */
  lemma ReplaceRunKeepsChildrenWF(cs: seq<Cell>, j: nat, k: nat, ms: seq<Cell>)
    requires j <= k <= |cs| && AllWF(cs) && AllWF(ms)
    ensures AllWF(cs[..j] + ms + cs[k..])
  {
    var ns := cs[..j] + ms + cs[k..];
    forall i | 0 <= i < |ns| ensures WF(ns[i]) {
      if i < j {
        assert ns[i] == cs[i];
      } else if i < j + |ms| {
        assert ns[i] == ms[i - j];
      } else {
        assert ns[i] == cs[i - j - |ms| + k];
      }
    }
  }

  lemma SumSizeOne(c: Cell, a: Axis)
    ensures SumSize([c], a) == Size(c, a)
  {
    assert [c][1..] == [];
  }

  lemma SumSizeTwo(c: Cell, d: Cell, a: Axis)
    ensures SumSize([c, d], a) == Size(c, a) + Size(d, a)
  {
    assert [c, d][1..] == [d];
    SumSizeOne(d, a);
  }

  lemma ContiguousTwo(c: Cell, d: Cell, a: Axis, off: real)
    requires Off(c, a) == off && Off(d, a) == off + Size(c, a)
    ensures Contiguous([c, d], a, off)
  {
    assert [c, d][1..] == [d];
    assert [d][1..] == [];
  }
}
