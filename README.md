# Terminal 7 layout tree and copy mode, in Dafny

This project models two self-contained parts of Terminal 7's user interface and proves
what they promise.

**The tiling layout tree** (`src/layout.ts`, with `Pane.split` and `Pane.isSplittable`
from `src/pane.ts`). A window is a tree:

- **Layouts.** Each layout has a direction ("TBD", "topbottom" or "rightleft") and an
  ordered list of cells.
- **Panes** are the leaves.
- **Geometry.** Every cell has a fractional size `sx`, `sy` and offset `xoff`, `yoff`.
- **Direction names.** They read backwards: "topbottom" places its children side by
  side (it divides `sx`), and "rightleft" stacks them (it divides `sy`).

The operations are modelled:

- wrapping a cell in a new layout;
- adding a pane;
- closing a cell, where a sibling absorbs it or the close propagates upwards;
- the cascading size and offset setters;
- dragging a border;
- flipping a layout's direction, which may merge it into its parent;
- splitting a pane;
- the queries `numPanes`, `allCells`, `dump` and `toText`.

The central invariant is `Partition.WF`: sizes are positive, and every layout is
non-empty. Along the axis it divides, its children follow one another without gap or
overlap and their sizes add up to its size. Across that axis, every child has the
layout's own offset and size. Every operation is proved to keep it.

**The copy-mode state machine** of a pane (`handleCMKey`, `cmSelectionUpdate`,
`cmInitCursor`, `enterCopyMode`, `exitCopyMode`, `copySelection`, plus `scale`). This is
vi-style cursor motion over the terminal's buffer:

- a numeric repeat prefix;
- pending `f`/`F`/`t`/`T` keys;
- word motions;
- a selection whose ends are kept in order while the cursor moves.

**Structure.** Each part is written twice:

- **as values.** Datatypes and functions (`Tree`, `Splitting`, `Closing`, `Borders`,
  `DirectionChange`, `Serial`, `CopyModel`), about which the properties are proved;
- **in the source's imperative form.** The class `Windows.Window` holds the tree and
  changes it in place. The class `CopyPane.Pane` holds the copy-mode fields and updates
  them with the loops of the source. The setter loops (`SetterLoops`) and the word-motion
  loops (`WordMotion`) are methods with loop invariants.

Each method is proved to compute exactly what the matching function computes, so every
property of the functions holds of the objects.

**Representation choices.**

- **Geometry** is `real`, so sums and partitions are exact.
- **Cells are addressed by paths** of child indices. A cell's parent is the path without
  its last index.
- **The terminal's list of cells** (`t7.cells`, one list shared by all windows) is kept
  as a count held by each `Windows.Window` (its registry below). A new cell's id is that
  count before it is added.
- **The terminal buffer** is a value `CopyModel.Term`: its lines, its columns and rows,
  `baseY`, and the terminal cursor.

Behaviour of the code worth noting:

- **Single-child layouts are not collapsed.** Closing a cell never removes a layout that
  is left with one child, and a new window's TBD layout has one child. `Partition.WF`
  therefore allows single-child layouts.
- **Split admission.** A pane may be split when its extent along the split direction is
  at least the minimum pane size (src/pane.ts:1263-1271).
- **Split sizes.** The splitting pane keeps `size * s` and the new pane gets
  `size * (1 - s)` (src/pane.ts:339-352).
- **Border bound.** `Borders.MoveBorderAsWritten` follows the code: the bound for a
  dragged border comes from `findNext` (src/layout.ts:332-334). `Borders.MoveBorder`, which
  `Windows.Window.DragBorder` uses, takes the corrected bound, the far end of the cell the
  border shrinks (see Findings).

## Model

| member | source | states |
|---|---|---|
| CellGeometry.SetSize | src/layout.ts:208-248 | assigning `sx`/`sy` sets that size; the other size, both offsets, the kind, pane id, direction and number of children are unchanged |
| CellGeometry.SetOff | src/layout.ts:255-286 | assigning `xoff`/`yoff` sets that offset; the other offset, both sizes, the kind, pane id, direction and number of children are unchanged |
| Partition.SizeSetterRelaysAlong | src/layout.ts:214-221 | along the divided axis, children that summed to the old size sum to the new one, contiguous from the first child's offset, other axis unchanged |
| Partition.SizeSetterRelaysAcross | src/layout.ts:222-223 | across the divided axis, each child's size is scaled by new/old and its offset is kept |
| Partition.ResizeCellsScales | src/layout.ts:214-223 | every child's size along the axis is its old size times the ratio |
| Partition.ResizeCellsContiguous | src/layout.ts:214-221 | the re-laid children are contiguous from the given start offset |
| Partition.ResizeCellsKeepsOffsets | src/layout.ts:222 | a child that is only rescaled keeps its offset |
| Partition.ResizeCellsCross | src/layout.ts:238-247 | rescaling along one axis leaves every child's offset and size on the other axis unchanged |
| Partition.ResizeCellsSum | src/layout.ts:214-223 | the children's total size is scaled by the ratio |
| Partition.ShiftCellsFacts | src/layout.ts:255-286 | the offset setter keeps sizes and the other axis; along the divided axis the children become contiguous from the new offset, otherwise each gets the new offset |
| Partition.OffSetterRelays | src/layout.ts:274-286 | on a layout that divides the other axis every child gets the new offset; otherwise (TBD included) the children are laid contiguously from it; no size changes |
| Partition.SetOffKeepsWF | src/layout.ts:255-286 | the offset setter keeps a well-formed cell well formed |
| Partition.SetSizeKeepsWF | src/layout.ts:208-248 | the size setter with a positive value keeps a well-formed cell well formed |
| Partition.SetSizeKeepsPartitioned | src/layout.ts:208-248 | a partitioned layout stays partitioned after a size assignment |
| SetterLoops.ResizeChildren | src/layout.ts:214-223 | the setter loop with its running offset computes exactly the rescaled children |
| SetterLoops.AssignSize | src/layout.ts:208-248 | the imperative size setter equals `SetSize` |
| SetterLoops.ShiftChildren | src/layout.ts:258-266 | the offset loop with its running `x`/`y` computes exactly the shifted children |
| SetterLoops.AssignOff | src/layout.ts:255-286 | the imperative offset setter equals `SetOff` |
| LayoutEdit.Splice | src/layout.ts:105 | `splice(start, n, ...items)` within bounds replaces n entries at start by the items; a start at or past the end appends the items, and a start below minus the length works at the front |
| Tree.Replace | src/layout.ts:113-115 | replacing a cell below the root keeps the root's rectangle, direction and number of children |
| Tree.ReplaceAt | src/layout.ts:113-115 | after `replace`, the new cell is at the old one's position |
| Tree.ReplaceChild | src/layout.ts:113-115 | replacing child i is updating index i of the parent's list: same length, others unchanged |
| Tree.ReplaceFrame | src/layout.ts:113-115 | replacing the cell at p leaves every cell whose path is neither a prefix nor an extension of p where it was |
| Tree.ReplaceKeepsWF | src/layout.ts:113-115 | replacing a cell by a well-formed cell with the same rectangle keeps the tree well formed |
| Tree.NumPanesIsAllCellsLength | src/layout.ts:55-61 | `numPanes` equals the length of `allCells()` |
| Tree.AllCellsArePanes | src/layout.ts:356-365 | `allCells` lists only panes |
| Tree.PaneIsListed | src/layout.ts:356-365 | every pane of the tree is listed by `allCells` |
| Tree.ListedPaneHasPath | src/layout.ts:356-365 | every listed cell is the cell at some path of the tree |
| Tree.CountPanes | src/layout.ts:55-61 | the counting loop returns `NumPanes` |
| Tree.CollectPanes | src/layout.ts:356-365 | the collecting loop returns `AllCells`, depth first, left to right |
| Splitting.Wrap | src/layout.ts:31-53 | the new layout has the given direction and exactly the wrapped cell as its only child |
| Splitting.WrapFacts | src/layout.ts:31-39 | the wrapper copies the wrapped cell's geometry and is well formed |
| Splitting.WrapInParent | src/layout.ts:43-49 | in the parent, the wrapped cell is replaced by the wrapper at the same index, other entries unchanged, and the tree stays well formed |
| Splitting.AddPane | src/layout.ts:121-144 | with a parent cell the pane goes right after it; with an index it replaces that entry; otherwise it is appended |
| Splitting.IsSplittable | src/pane.ts:1263-1271 | splittable iff `numPanes <= max_panes` and the pane's extent along the direction is at least `min` |
| Splitting.Share | src/pane.ts:339-352 | the new pane's share `x*(1-s)` leaves `x*s` to the original, strictly between 0 and x |
| Splitting.HalvesTile | src/pane.ts:339-352 | the kept half keeps the pane's id and offset with size `size*s`; the new half starts where it ends and the sizes add up; across, both copy the pane |
| Splitting.WrapHalves | src/pane.ts:330-336 | the wrapper made for a split has the split's direction and exactly the two halves |
| Splitting.Split | src/pane.ts:326-361 | no result iff the pane is not splittable; otherwise the new pane sits right after the kept half in a layout of the split's direction, with the next registry id |
| Splitting.SplitWrapped | src/pane.ts:330-336 | the wrapper of direction d, holding exactly the two halves, takes the pane's place at q; the new pane is at q + [1]; every cell off q's line is unchanged; two registry slots are used |
| Splitting.SplitInPlace | src/pane.ts:326-361 | the parent at p, now of direction d with its rectangle kept, holds its old children with the pane replaced by the kept and new halves, in order; the new pane is at p + [i + 1]; every cell off p's line is unchanged; one registry slot is used |
| Splitting.SplitPlaces | src/pane.ts:326-361 | a split wraps the pane exactly when its parent keeps a direction other than d (not TBD, more than one child); it then places the halves as `SplitWrapped` says, otherwise as `SplitInPlace` says, with everything off the changed layout's line unchanged |
| Splitting.HalvesWF | src/pane.ts:339-352 | the two halves are well formed and tile the original pane's rectangle |
| Splitting.WrappedSplitWF | src/pane.ts:330-336 | a wrapper holding the two halves is well formed, covers the pane's rectangle and holds exactly the halves |
| Splitting.InPlaceSplitWF | src/pane.ts:330-358 | the parent with the halves in place of the pane is well formed with the same rectangle |
| Splitting.SplitKeepsWF | src/pane.ts:326-361 | a split with 0 < s < 1 keeps the tree well formed |
| Closing.Absorb | src/layout.ts:93-101 | the peer grows by the closed cell's size along the axis and takes the smaller of the two offsets; the other axis is unchanged |
| Closing.Close | src/layout.ts:72-108 | one to depth-many registry entries are released; when the window closes the tree is unchanged |
| Closing.CloseAbsorbs | src/layout.ts:85-107 | with two or more children, the peer (`i-1`, or 1 for the first) absorbs the cell, the cell is removed, the others keep their order |
| Closing.CloseClosesWindow | src/layout.ts:77-83 | the window closes iff every layout from the root to the cell has a single child |
| Closing.CloseClimbs | src/layout.ts:77-80 | a layout left with a single child is closed in its own parent, one more registry entry being released |
| Closing.CloseAtAncestor | src/layout.ts:72-107 | closing a cell is closing the child, on its path, of the nearest ancestor with two or more children (described by `CloseAbsorbs`), releasing one registry entry per level climbed |
| Closing.AbsorbKeepsWF | src/layout.ts:85-107 | absorbing and removing a child keeps a layout well formed |
| Closing.CloseKeepsWF | src/layout.ts:72-108 | closing a cell keeps the tree well formed |
| Borders.NamesIffAcross | src/layout.ts:307-314 | a layout can move a border between its children exactly when the border lies across the axis it divides |
| Borders.PrevCell | src/layout.ts:287-290 | `prevCell` returns the previous cell, and nothing for the first |
| Borders.NextCell | src/layout.ts:291-294 | `nextCell` returns the next cell, nothing for the last, and the first cell for a cell not in the list |
| Borders.Resolve | src/layout.ts:302-329 | a layout that does not name the border and has the sibling on that side moves it itself, between (prev, cell) for top/left and (cell, next) otherwise; any move found is between two adjacent children of a layout on the path that does not name the border |
| Borders.ResolveNearest | src/layout.ts:314-327 | otherwise the request climbs: nothing moves exactly when no layout on the path straddles the border, and otherwise the move happens in the nearest one that does, at the pair its child on the path gives |
| Borders.NoneStraddlesMeans | src/layout.ts:324-327 | the climb's condition: no layout on the path deeper than n straddles the border for its child on the path |
| Borders.FindNext | src/layout.ts:347-354 | `findNext` is the next sibling when there is one; for a last child it is nothing at the top two levels, and below them the next sibling of the PARENT layout in the grandparent when there is one |
| Borders.Clamp | src/layout.ts:333-334 | the destination is at most the bound minus 0.02, at least the start plus 0.02 when the two fit, and unchanged when already inside |
| Borders.Moved | src/layout.ts:335-338 | the pair's total size is kept, c0's offset is kept, c1 starts at the clamped destination and its far end is unchanged; the other cells are untouched |
| Borders.MovedKeepsWF | src/layout.ts:330-338 | moving a border inside a well-formed layout keeps it well formed when the bound is within c1's far end |
| Borders.PairMoveKeepsWF | src/layout.ts:330-338 | with c1's far end as the bound, moving the border between two cells of a layout across it keeps the layout well formed when the pair is wider than the margin |
| Borders.MoveAtKeepsWF | src/layout.ts:314-338 | the same move applied deep in the tree keeps the tree well formed |
| Borders.MoveBorderKeepsWF | src/layout.ts:302-354 | with c1's far end as the bound, dragging a border keeps the tree well formed whenever the two cells have room for the margin |
| Borders.MoveBorderOvershoots | src/layout.ts:332-334 | as written, dragging a nested pane's left border to 0.9 leaves the other pane with width -0.4 and breaks the invariant |
| Borders.MoveBorderStops | src/layout.ts:332-338 | with the intended bound the same drag stops at 0.48 and the tree stays well formed |
| DirectionChange.ChangeDir | src/layout.ts:366-421 | a TBD layout is left alone; the root layout is flipped in place |
| DirectionChange.Transposed | src/layout.ts:381-389 | each child's offsets and sizes trade axes |
| DirectionChange.Place | src/layout.ts:396-406 | a child is given the offsets and sizes computed for it |
| DirectionChange.FlippedPlaced | src/layout.ts:374-406 | child i gets size L/n along the new axis at offset `off + i*L/n`, and the layout's own size and offset across it |
| DirectionChange.FlipAllPlaced | src/layout.ts:381-413 | the same for every child of the flipped list, each keeping its kind and id |
| DirectionChange.FlipAllRow | src/layout.ts:374-413 | the flipped children are contiguous from the layout's offset and fill its size |
| DirectionChange.FlippedLayoutWF | src/layout.ts:366-414 | the flipped layout is well formed |
| DirectionChange.ChangeDirPlaces | src/layout.ts:414-420 | if the new direction equals the parent's, the layout is replaced in the parent's cells by its flipped children in order; otherwise it is flipped in place |
| DirectionChange.DissolveKeepsWF | src/layout.ts:416-419 | splicing a layout's children into a parent of the same direction keeps the parent well formed |
| DirectionChange.ChangeDirKeepsWF | src/layout.ts:366-421 | `changeDir` keeps the tree well formed |
| Windows.FlipChildren | src/layout.ts:381-413 | the loop over the children computes exactly the flipped list |
| Windows.Window.constructor | src/layout.ts:31-53 | a new window is a TBD layout wrapping one pane that fills it; two registry slots used |
| Windows.Window.WrapCell | src/layout.ts:31-53 | wrapping in place: the tree becomes `WrapAt`, one registry slot, the invariant kept |
| Windows.Window.AddPaneAt | src/layout.ts:121-144 | the new pane's id is the registry length before the push; the layout becomes `AddPane` |
| Windows.Window.SplitPane | src/pane.ts:326-361 | nothing changes when not splittable; otherwise the tree becomes the split's result, the registry grows by its slots, and the invariant is kept |
| Windows.Window.CloseCell | src/layout.ts:72-108 | the climb through single-child layouts ends in `Close`: same tree, window-closed flag and registry release; the invariant is kept |
| Windows.Window.DragBorder | src/layout.ts:302-354 | the tree becomes the corrected `MoveBorder`, and the invariant is kept when the cells have room |
| Windows.Window.FlipLayout | src/layout.ts:366-421 | the tree becomes `ChangeDir`, and the invariant is kept |
| Serial.RestoreDump | src/layout.ts:186-199 | a dump mirrors the tree: rebuilding from it gives back the tree, directions, geometry and order, with pane ids dropped |
| Serial.DumpAllAt | src/layout.ts:197 | entry i of a layout's dumped cells is the dump of child i |
| Serial.ToText | src/layout.ts:159-183 | the text opens with `[` and closes with `]` for "rightleft", and `{`…`}` otherwise |
| Serial.ToTextBrackets | src/layout.ts:159-183 | the text holds exactly one `[`…`]` pair per "rightleft" layout and one `{`…`}` pair per other layout |
| JsString.TrimEnd | src/pane.ts:976 | `trimEnd` drops exactly the trailing white space |
| JsString.IndexFrom | src/pane.ts:884 | `indexOf(key, from)` is the first match at or after `from`, or -1 if there is none |
| JsString.LastIndexFrom | src/pane.ts:892 | `lastIndexOf(key, from)` is the last match at or before `from`, or -1 if there is none |
| JsString.IndexOf | src/pane.ts:884 | with a non-empty key and a start at 0 or more, the result is -1 with no match from the start on, or the first match at or after the start |
| JsString.LastIndexOf | src/pane.ts:892 | with a start at 0 or more, the result is -1 with no match up to the start, or the last match at or before the start |
| JsString.Slice | src/pane.ts:824 | `slice(start, end)` within bounds is the substring |
| JsString.SplitJoin | src/pane.ts:827 | splitting the joined lines at the separator gives the lines back when none contains it |
| WordMotion.ScanForwardStops | src/pane.ts:983-991 | `w` stops just past the first word start at or after the cursor, or at the end of the line when there is none |
| WordMotion.ScanBackwardStops | src/pane.ts:1009-1017 | `b` stops at the nearest word start before the cursor, or at column 0 |
| WordMotion.ScanToEndStops | src/pane.ts:1027-1037 | `e` stops at the first word end after the cursor, or at the last column |
| WordMotion.ForwardLoop | src/pane.ts:983-991 | the `w` while-loop computes `ScanForward` |
| WordMotion.BackwardLoop | src/pane.ts:1009-1017 | the `b` while-loop computes `ScanBackward` |
| WordMotion.ToEndLoop | src/pane.ts:1027-1037 | the `e` while-loop computes `ScanToEnd` |
| CopyModel.Normalized | src/pane.ts:1167-1185 | the selection is put in order, moving the end that follows the cursor; an ordered selection is unchanged |
| CopyModel.SelectionUpdate | src/pane.ts:1157-1193 | out of marking the selection is the point at the cursor; while marking it is the normalised selection; nothing else changes |
| CopyModel.InitCursor | src/pane.ts:1101-1107 | with no selection the cursor is placed at the terminal cursor; with one nothing changes |
| CopyModel.EnterCopy | src/pane.ts:476-492 | entering sets copy mode, resets `cmAtEnd` to null and places a cursor when there is no selection; in copy mode already, it only turns marking on |
| CopyModel.ExitCopy | src/pane.ts:493-505 | leaving clears both selections and scrolls to the bottom; outside copy mode nothing changes |
| CopyModel.Copied | src/pane.ts:819-826 | one line per row from startRow to endRow: the first from startColumn, the last up to endColumn, the middle ones whole |
| CopyModel.Copy | src/pane.ts:812-828 | the terminal's own selection wins; without any selection nothing changes; otherwise the clipboard gets the copied lines joined with newlines; only the clipboard changes |
| CopyModel.CopyRoundTrip | src/pane.ts:817-827 | the clipboard text of a copy-mode selection splits at its newlines back into exactly the pieces `Copied` describes, one per selected row, when the buffer lines hold no newline |
| CopyModel.Start | src/pane.ts:833-856 | out of marking the cursor is the position and a point selection; while marking, the selection's moving end is |
| CopyModel.Find | src/pane.ts:881-911 | `f` moves to the first match after the cursor (one further while marking) and `t` to the column before it (the match itself while marking), staying put exactly when there is none; `F` moves to the last match at or before `x-2` and `T` to the column after it, staying put exactly when there is none (for x >= 2); any other pending key leaves x |
| CopyModel.FindAfter | src/pane.ts:882-903 | the f/t search: the first match after x, with t's and marking's offsets, or x exactly when there is none |
| CopyModel.FindBefore | src/pane.ts:890-909 | the F/T search: the last match at or before x - 2, with T's offset, or x exactly when there is none |
| CopyModel.Act | src/pane.ts:913-1059 | the key switch keeps a cursor and the count, and any selection it sets is ordered |
| CopyModel.Reanchor | src/pane.ts:1065-1092 | moving an end keeps an ordered selection ordered, swapping the anchored end exactly when the cursor crosses the anchor |
| CopyModel.Scrolled | src/pane.ts:1094-1098 | the view scrolls only when the new row is off screen, and then it starts at that row |
| CopyModel.Settle | src/pane.ts:1060-1099 | after a move the cursor and count remain, and a changed selection is ordered |
| CopyModel.Replay | src/pane.ts:860-866 | replaying a key keeps the count and a cursor |
| CopyModel.Handle | src/pane.ts:829-1100 | a keystroke leaves the pane ready for the next one |
| CopyModel.ScaledFont | src/pane.ts:229-233 | the font size moves by the step and is clamped to [6, 30] |
| CopyPane.ForwardWord | src/pane.ts:981-1001 | the imperative `w` motion equals `WordForward` |
| CopyPane.BackwardWord | src/pane.ts:1002-1018 | the imperative `b` motion equals `WordBackward` |
| CopyPane.ToWordEnd | src/pane.ts:1019-1040 | the imperative `e` motion equals `WordEnd` |
| CopyPane.Pane.constructor | src/pane.ts:89-96 | a new pane is out of copy mode, with no cursor, selection or count, and the requested font size or the theme's |
| CopyPane.Pane.Scale | src/pane.ts:229-233 | `scale` sets the font size to `ScaledFont` and changes nothing else |
| CopyPane.Pane.CmInitCursor | src/pane.ts:1101-1107 | the fields become `InitCursor` of the old state |
| CopyPane.Pane.CmSelectionUpdate | src/pane.ts:1157-1193 | the fields become `SelectionUpdate` of the old state |
| CopyPane.Pane.EnterCopyMode | src/pane.ts:476-492 | the fields become `EnterCopy` of the old state |
| CopyPane.Pane.ExitCopyMode | src/pane.ts:493-505 | the fields become `ExitCopy` of the old state |
| CopyPane.Pane.CopySelection | src/pane.ts:812-828 | the line-collecting loop leaves the fields at `Copy` of the old state |
| CopyPane.Pane.Begin | src/pane.ts:833-856 | the fields and the chosen position are `Start` of the old state |
| CopyPane.Pane.Perform | src/pane.ts:913-940 | the key switch in place equals `Act` |
| CopyPane.Pane.Move | src/pane.ts:944-971 | the arrow and hjkl cases in place equal `Act` |
| CopyPane.Pane.Jump | src/pane.ts:972-1058 | the 0, $, w, b, e, f/F/t/T, C-f and C-b cases in place equal `Act` |
| CopyPane.Pane.Follow | src/pane.ts:1060-1099 | moving the cursor or selection end in place equals `Settle` |
| CopyPane.Pane.DispatchKey | src/pane.ts:868-912 | a pending f/F/t/T, or the key switch, in place equals `Dispatch` |
| CopyPane.Pane.StepKey | src/pane.ts:829-856 | one keystroke without a count in place equals `Step` |
| CopyPane.Pane.HandleKey | src/pane.ts:829-1100 | `handleCMKey`, replays included, leaves the fields at `Handle` of the old state |
| CopyProperties.StepKeepsOrder | src/pane.ts:1060-1093 | one keystroke keeps the selection's start at or before its end |
| CopyProperties.ReplayKeepsOrder | src/pane.ts:860-866 | replaying a key any number of times keeps the selection ordered |
| CopyProperties.HandleKeepsOrder | src/pane.ts:829-1100 | every keystroke keeps the selection ordered |
| CopyProperties.ArrowKeepsOnGrid | src/pane.ts:944-974 | arrows, hjkl and 0 never leave `[0, cols-2] x [0, baseY+rows-1]` |
| CopyProperties.MotionsStayOnGrid | src/pane.ts:944-974 | out of marking, these keys keep the cursor on the grid |
| CopyProperties.DollarGoesToLastCharacter | src/pane.ts:975-980 | out of marking, `$` moves to the last non-blank character of the line, or column 0 on a blank line |
| CopyProperties.DollarWhileMarking | src/pane.ts:975-980 | while marking, `$` moves the moving end just past the last non-blank character of its line (column 0 on a blank line), on the same row |
| CopyProperties.StepDown | src/pane.ts:958-964 | out of marking, `j` moves the cursor one row down, stopping at the last row |
| CopyProperties.ReplayDown | src/pane.ts:860-866 | `j` replayed n times moves n rows down, stopping at the last row, column unchanged |
| CopyProperties.CountedDown | src/pane.ts:857-867 | with a count n, `j` moves n rows down (stopping at the last row) and resets the count |
| CopyProperties.TypedCount | src/pane.ts:857-859 | typing the digits of n (no leading 0) sets the count to n |
| RepeatCount.ParseInt | src/pane.ts:859 | `parseInt(key)` is NaN exactly when the key does not start with a digit |
| RepeatCount.TenTimesPlus | src/pane.ts:859 | `10*r + d` is NaN exactly when either operand is |
| RepeatCount.CountAsWritten | src/pane.ts:857-867 | as written, once the count is NaN a key containing a digit keeps it NaN and replays nothing |
| RepeatCount.NaNNeverCountsAgain | src/pane.ts:857-867 | as written, from a NaN count no sequence of keys ever replays a key |
| RepeatCount.CountLostAsWritten | src/pane.ts:857-859 | as written, "C-1" then "5" then "j" runs `j` once |
| RepeatCount.CorrectedMatchesHandle | src/pane.ts:857-867 | `Handle` follows exactly the corrected counting rule |
| RepeatCount.CountKeptCorrected | src/pane.ts:857-867 | corrected, "C-1" then "5" then "j" replays `j` five times |

## Left out

- **src/gate.ts** is not part of this model. It is connection and session plumbing.
- **Rendering, DOM and timers** are not modelled, because they have no effect on the
  tree or the copy-mode state:
  - CSS parsing in the geometry getters (the sizes are plain fields);
  - `fit`, `focus`, `refreshDividers` and `updateDivideButtons`;
  - border colours, `cmMark` decorations and `console.log`;
  - xterm addons, `Preferences` and `transit` flags;
  - zoom and gestures.
- **Search keys** `/`, `?` and `n` depend on the xterm search add-on. In this model they
  change nothing, like unknown keys.
- **The clipboard and the terminal's own selection** are fields of the copy state
  (`clipboard`, `mouseSelection`). `Clipboard.write` is that field's update.
  `scrollLines` and `scrollToBottom` are updates of `viewportY`.
- **Window.addLayout** is not part of this model. It is modelled as wrapping the cell in
  a new layout that takes a registry slot.
- Windows.Window.constructor: each window starts its own registry at 2, with pane id 1.
  In the source the list of cells is shared by every window of the terminal, so ids do
  not restart; this matches only the first window of a fresh terminal. Several windows
  sharing one list are not modelled.
- **`w.close()`** is a window-closed flag.
- **The registry** (`t7.cells`) is kept as its length only, which is what new ids are
  drawn from. Which entry `onClose` removes is not modelled.
- Windows.Window.CloseCell: the model always finds the closed cell in its layout, since
  cells are addressed by paths. The source's not-found case is not modelled: there
  `indexOf` gives -1, `splice(-1, 1)` removes the wrong registry entry, and `cells[1]` is
  used as the peer.
- DirectionChange.ChangeDir: the flattened layout is found by its path index. The
  source finds it with `findIndex(c => c.id === this.id)`, which could match another cell
  with the same (possibly undefined) id; this is not modelled. The spliced children keep
  a `layout` back-pointer to the removed layout, which paths cannot express.
- Borders.MoveBorder: the corrected move uses c1's far end as the bound (see
  Findings). Borders.MoveBorderAsWritten keeps the source's bound.
- CellGeometry.SetSize: when the old size is 0 and the new one is not, the source
  divides by zero and scales the children by Infinity. The model leaves them untouched,
  as the source does for 0/0 (NaN). Well-formed trees never have a zero size.
- **Floating point.** JavaScript rounding is not modelled; geometry is exact `real`.
  The `toFixed(3)` formatting in `toText` is a parameter `num`, and pane ids in `toText`
  are a parameter `ident`.
- Serial.RestoreDump: a dump carries no pane ids, so the tree it rebuilds has ids
  cleared. The terminal's rows, columns, font size and channel come from a parameter
  `info`, and the active pane from `activeId`.
- **Word motions** use a character-class stand-in for the regular expressions `\w`
  (ASCII letters, digits and `_`) and `\s` (JavaScript white space). Full Unicode
  classes are not modelled.
- **Strings are sequences of Unicode characters**, while JavaScript indexes UTF-16 code
  units. On a line holding a character outside the Basic Multilingual Plane (an emoji,
  say), the columns from `indexOf`, `lastIndexOf`, `slice`, `length` and `$` differ from
  the source's. CopyModel.IsOneChar accepts such a character as an f/t target, where
  `/^.$/` rejects its two code units.
- CopyModel.Find: for `F` and `T` the contract covers x >= 2. For x < 2, JavaScript's
  `lastIndexOf` with a negative start looks at index 0 only; the function follows this
  but the contract does not describe it.
- CopyModel.Row: a buffer row outside the buffer reads as an empty line. In the source,
  `getLine` returns undefined there and `translateToString` throws, except in `w`, which
  uses `?.`.
- CopyModel.Handle: requires a cursor or no selection (`CursorReady`). Otherwise
  `cmInitCursor` returns early and the source throws reading `cmCursor.x`.
- CopyModel.Handle: counts single-digit keys only. This is the corrected rule; the
  source's rule, where a key containing a digit counts, is RepeatCount.CountAsWritten
  (see Findings).
- CopyModel.Act: `C-f` and `C-b` use the number of buffer lines as the buffer's
  `length`.
- Splitting.IsSplittable: for a direction other than "topbottom" or "rightleft", the
  source returns undefined, which is falsy. The model treats TBD as not splittable.

## Findings

| source | as written | input that shows it | evidently intended | confidence | as-written member | corrected member |
|---|---|---|---|---|---|---|
| src/layout.ts:332-334 | The bound for a dragged border is the offset of `findNext(c1)`, or 1 when there is none or it is 0. `findNext` (src/layout.ts:347-354) jumps from the layout to its grandparent, so it misses the layout's own next sibling. | Take a "topbottom" window whose left half is a nested "topbottom" layout holding panes 1 and 2, each 0.25 wide; pane 3 is the right half. Dragging pane 2's left border to 0.9 finds no next cell, so the bound is 1. Pane 2's width becomes -0.4. | The border stops 0.02 before the far end of the cell it shrinks: at 0.48 here. Sizes stay positive. | not executed | Borders.MoveBorderAsWritten, Borders.MoveBorderOvershoots | Borders.MoveBorder, Borders.MoveBorderStops, Borders.MoveBorderKeepsWF |
| src/pane.ts:857-859 | Any key that merely contains a digit starts or extends the repeat count, and it is read with `parseInt(key)`. A key such as "C-1" or "F1" makes the count NaN. From then on every digit computes NaN again, and nothing is ever repeated. | The keys "C-1", then "5", then "j". | Only a single-digit key counts: "5" then "j" moves down five rows. | not executed | RepeatCount.CountAsWritten, RepeatCount.CountLostAsWritten, RepeatCount.NaNNeverCountsAgain | RepeatCount.CountCorrected, RepeatCount.CountKeptCorrected, RepeatCount.CorrectedMatchesHandle |
