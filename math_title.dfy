/**
 * components/MathTitle.tsx: "MULTISQUARED" laid out letter by letter over
 * rows of square cells, 4-5-6 wide on desktop and 3-5-3 on mobile, each
 * cell on one of four neutral backgrounds picked at random.
 */
module Title {
  import opened Common
  import opened Draws

  const Word: string := "MULTISQUARED"
  const BgColors: seq<string> := ["bg-neutral-600", "bg-neutral-700", "bg-neutral-800", "bg-neutral-900"]
  const LayoutDesktop: seq<nat> := [4, 5, 6]
  const LayoutMobile: seq<nat> := [3, 5, 3]

  /** `layout.reduce((a, b) => a + b, 0)`. */
  function Sum(layout: seq<nat>): nat {
    if layout == [] then 0 else Sum(layout[..|layout| - 1]) + layout[|layout| - 1]
  }

  /** The two layouts hold 15 and 11 cells. */
  lemma LayoutTotals()
    ensures Sum(LayoutDesktop) == 15 && Sum(LayoutMobile) == 11
  {
    assert LayoutDesktop[..2] == [4, 5] && [4, 5][..1] == [4] && [4][..0] == [];
    assert Sum([4]) == 4 && Sum([4, 5]) == 9;
    assert LayoutMobile[..2] == [3, 5] && [3, 5][..1] == [3] && [3][..0] == [];
    assert Sum([3]) == 3 && Sum([3, 5]) == 8;
  }

  /** `updateLayout`: the desktop layout from 1024 pixels of window width on, the mobile one below. */
  function LayoutFor(innerWidth: int): (layout: seq<nat>)
    ensures |layout| == 3
    ensures Sum(layout) == if innerWidth >= 1024 then 15 else 11
  {
    LayoutTotals();
    if innerWidth >= 1024 then LayoutDesktop else LayoutMobile
  }

  /** The cells: one per letter of the word, then empty strings up to `total` cells if there is room. */
  function CellsFor(total: nat): (cells: seq<string>)
    ensures |cells| == if total > |Word| then total else |Word|
    ensures forall i :: 0 <= i < |Word| ==> cells[i] == [Word[i]]
    ensures forall i :: |Word| <= i < |cells| ==> cells[i] == ""
  {
    var pad := if total > |Word| then total - |Word| else 0;
    seq(|Word|, i requires 0 <= i < |Word| => [Word[i]]) + seq(pad, _ => "")
  }

  /** `s.slice(from, to)` for non-negative bounds: both clamped to the length, empty when they cross. */
  function Slice<T>(s: seq<T>, from: nat, to: nat): (r: seq<T>)
    ensures to <= |s| && from <= to ==> r == s[from..to]
    ensures |r| <= |s|
  {
    var lo := if from < |s| then from else |s|;
    var hi := if to < |s| then to else |s|;
    if lo <= hi then s[lo..hi] else []
  }

  /** The rows `layout.forEach` builds: row `k` is the slice starting at the sum of the widths before it. */
  function Rows(layout: seq<nat>, cells: seq<string>): (rows: seq<seq<string>>)
    ensures |rows| == |layout|
  {
    if layout == [] then []
    else
      var front := layout[..|layout| - 1];
      Rows(front, cells) + [Slice(cells, Sum(front), Sum(front) + layout[|layout| - 1])]
  }

  /** The rows joined back together. */
  function Flatten(rows: seq<seq<string>>): seq<string> {
    if rows == [] then [] else Flatten(rows[..|rows| - 1]) + rows[|rows| - 1]
  }

  /** The sum of a prefix grows with the prefix. */
  lemma {:induction false} PrefixSumMono(layout: seq<nat>, a: nat, b: nat)
    requires a <= b <= |layout|
    ensures Sum(layout[..a]) <= Sum(layout[..b])
    decreases b - a
  {
    if a < b {
      PrefixSumMono(layout, a, b - 1);
      assert layout[..b][..b - 1] == layout[..b - 1];
    }
  }

  /** The rows hold the cells in order: joined, they are the first `Sum(layout)` cells, or all of them if fewer. */
  lemma {:induction false} RowsCoverPrefix(layout: seq<nat>, cells: seq<string>)
    ensures Flatten(Rows(layout, cells)) == cells[..if Sum(layout) < |cells| then Sum(layout) else |cells|]
  {
    if layout != [] {
      var front := layout[..|layout| - 1];
      RowsCoverPrefix(front, cells);
      var rows := Rows(layout, cells);
      assert rows[..|rows| - 1] == Rows(front, cells);
    }
  }

  /** When the cells suffice, row `k` is exactly `layout[k]` cells, starting after the rows before it. */
  lemma {:induction false} RowIsItsSlice(layout: seq<nat>, cells: seq<string>, k: nat)
    requires Sum(layout) <= |cells| && k < |layout|
    ensures Sum(layout[..k]) + layout[k] <= |cells|
    ensures Rows(layout, cells)[k] == cells[Sum(layout[..k])..Sum(layout[..k]) + layout[k]]
  {
    var front := layout[..|layout| - 1];
    assert layout[..k + 1][..k] == layout[..k];
    PrefixSumMono(layout, k + 1, |layout|);
    assert layout[..|layout|] == layout;
    if k < |layout| - 1 {
      assert front[..k] == layout[..k];
      PrefixSumMono(layout, |layout| - 1, |layout|);
      RowIsItsSlice(front, cells, k);
    }
  }

  /**
   * With the mobile layout only 11 of the 12 letters are shown: the rows
   * spell "MULTISQUARE" and the final "D" is in no row.
   */
  lemma MobileDropsFinalLetter()
    ensures Flatten(Rows(LayoutMobile, CellsFor(11))) == CellsFor(11)[..11]
    ensures forall k, j :: 0 <= k < 3 && 0 <= j < |Rows(LayoutMobile, CellsFor(11))[k]| ==>
              Rows(LayoutMobile, CellsFor(11))[k][j] != "D"
  {
    var cells := CellsFor(11);
    LayoutTotals();
    RowsCoverPrefix(LayoutMobile, cells);
    var rows := Rows(LayoutMobile, cells);
    forall k, j | 0 <= k < 3 && 0 <= j < |rows[k]|
      ensures rows[k][j] != "D"
    {
      RowIsItsSlice(LayoutMobile, cells, k);
      assert LayoutMobile[..k + 1][..k] == LayoutMobile[..k];
      PrefixSumMono(LayoutMobile, k + 1, 3);
      assert LayoutMobile[..3] == LayoutMobile;
      var at := Sum(LayoutMobile[..k]) + j;
      assert rows[k][j] == cells[at];
      assert at < 11;
      assert cells[at] == [Word[at]];
    }
  }

  /** With the desktop layout every letter is shown and three empty cells follow. */
  lemma DesktopShowsWholeWord()
    ensures Flatten(Rows(LayoutDesktop, CellsFor(15))) == CellsFor(15)
    ensures CellsFor(15)[12..] == ["", "", ""]
  {
    LayoutTotals();
    RowsCoverPrefix(LayoutDesktop, CellsFor(15));
  }

  /** The background effect: one class per cell, each drawn from the four colours. */
  function BgClasses(picks: seq<Unit>): (classes: seq<string>)
    ensures |classes| == |picks|
    ensures forall i :: 0 <= i < |picks| ==> classes[i] == BgColors[FloorMul(picks[i], |BgColors|)]
  {
    seq(|picks|, i requires 0 <= i < |picks| => BgColors[FloorMul(picks[i], |BgColors|)])
  }

  /** `cellBgClasses[rowIndex * 10 + i]`: the class a cell gets as written, `undefined` past the end. */
  function BgAsWritten(classes: seq<string>, rowIndex: nat, i: nat): (c: Option<string>)
    ensures c.Some? <==> rowIndex * 10 + i < |classes|
  {
    if rowIndex * 10 + i < |classes| then Some(classes[rowIndex * 10 + i]) else None
  }

  /**
   * As written, no cell of the third row gets a background class: its
   * lookups start at index 20, past the 15 or 11 classes there are.
   */
  lemma ThirdRowHasNoBackground(innerWidth: int, picks: seq<Unit>, i: nat)
    requires |picks| == Sum(LayoutFor(innerWidth))
    ensures BgAsWritten(BgClasses(picks), 2, i).None?
  {
  }

  /** The class of cell `i` of row `rowIndex`, looked up at the cell's position in the whole title. */
  function BgFor(classes: seq<string>, layout: seq<nat>, rowIndex: nat, i: nat): (c: Option<string>)
    requires rowIndex <= |layout|
  {
    var at := Sum(layout[..rowIndex]) + i;
    if at < |classes| then Some(classes[at]) else None
  }

  /**
   * With one class per cell, every cell of every row gets a class, and two
   * different cells read different entries.
   */
  lemma {:induction false} EveryCellHasItsOwnBackground(classes: seq<string>, layout: seq<nat>, r1: nat, i1: nat, r2: nat, i2: nat)
    requires |classes| == Sum(layout)
    requires r1 < |layout| && i1 < layout[r1] && r2 < |layout| && i2 < layout[r2]
    ensures BgFor(classes, layout, r1, i1).Some?
    ensures (r1, i1) != (r2, i2) ==> Sum(layout[..r1]) + i1 != Sum(layout[..r2]) + i2
  {
    assert layout[..r1 + 1][..r1] == layout[..r1];
    assert layout[..r2 + 1][..r2] == layout[..r2];
    assert layout[..|layout|] == layout;
    PrefixSumMono(layout, r1 + 1, |layout|);
    if r1 < r2 {
      PrefixSumMono(layout, r1 + 1, r2);
    } else if r2 < r1 {
      PrefixSumMono(layout, r2 + 1, r1);
    }
  }

  /** The component's state: the layout and the background classes. */
  class TitleState {
    var layout: seq<nat>
    var cellBgClasses: seq<string>

    /** First render: the mobile layout and no classes yet. */
    constructor ()
      ensures layout == LayoutMobile && cellBgClasses == []
    {
      layout := LayoutMobile;
      cellBgClasses := [];
    }

    /** `updateLayout`, run on mount and on every resize. */
    method UpdateLayout(innerWidth: int)
      modifies this
      ensures layout == LayoutFor(innerWidth) && cellBgClasses == old(cellBgClasses)
    {
      layout := if innerWidth >= 1024 then LayoutDesktop else LayoutMobile;
    }

    /** The effect on `layout`: a fresh class for each of the `Sum(layout)` cells. */
    method PickBackgrounds(picks: seq<Unit>)
      requires |picks| == Sum(layout)
      modifies this
      ensures layout == old(layout) && cellBgClasses == BgClasses(picks)
    {
      cellBgClasses := seq(|picks|, i requires 0 <= i < |picks| => BgColors[FloorMul(picks[i], |BgColors|)]);
    }

    /**
     * The render: the cells for the current layout split into one row per
     * layout entry, and each cell's background read at its position in the
     * whole title (the corrected lookup; see `BgAsWritten`).
     */
    method RenderRows() returns (rows: seq<seq<string>>, backgrounds: seq<seq<Option<string>>>)
      ensures rows == Rows(layout, CellsFor(Sum(layout)))
      ensures |backgrounds| == |rows|
      ensures forall k :: 0 <= k < |rows| ==> |backgrounds[k]| == |rows[k]|
      ensures forall k, i :: 0 <= k < |rows| && 0 <= i < |rows[k]| ==> backgrounds[k][i] == BgFor(cellBgClasses, layout, k, i)
    {
      var cells := CellsFor(Sum(layout));
      rows := SplitRows(layout, cells);
      var classes, widths := cellBgClasses, layout;
      backgrounds := seq(|rows|, k requires 0 <= k < |rows| =>
        seq(|rows[k]|, i requires 0 <= i < |rows[k]| => BgFor(classes, widths, k, i)));
    }
  }

  /** `layout.forEach`: each row is the next `cols` cells, with a running `index`. */
  method SplitRows(layout: seq<nat>, cells: seq<string>) returns (rows: seq<seq<string>>)
    ensures rows == Rows(layout, cells)
  {
    rows := [];
    var index := 0;
    for k := 0 to |layout|
      invariant index == Sum(layout[..k])
      invariant rows == Rows(layout[..k], cells)
    {
      assert layout[..k + 1][..k] == layout[..k];
      rows := rows + [Slice(cells, index, index + layout[k])];
      index := index + layout[k];
    }
    assert layout[..|layout|] == layout;
  }
}
