/**
 * components/DrawMulti2Grid.tsx: a full-window grid of digits with "1+1="
 * pinned in its first cells and a few pre-drawn letters of "MULTI2"; the
 * pointer paints undrawn cells with the letters of "MULTI2", either as a
 * straight run of six or as a splash around the pointer.
 */
module DrawGrid {
  import opened Common
  import opened Draws
  import opened Cells

  /** One cell: its character, whether it has been drawn, whether it is one of the pinned cells. */
  datatype DCell = DCell(ch: char, drawn: bool, fixed: bool)

  const Multi2: string := "MULTI2"
  const FixedValues: string := "1+1="

  /** `0 <= i < prev.length && !prev[i].drawn && !prev[i].fixed`: a cell the pointer may paint. */
  predicate Eligible(cells: seq<DCell>, i: int) {
    0 <= i < |cells| && !cells[i].drawn && !cells[i].fixed
  }

  // ---------------------------------------------------------------------
  // Building the grid (`updateGrid`)
  // ---------------------------------------------------------------------

  /** The last of the six pre-draw picks that lands on cell `i`, if any. */
  function PickedAt(picks: seq<Unit>, total: nat, i: nat): (r: Option<nat>)
    ensures r.Some? ==> r.value < |picks| && FloorMul(picks[r.value], total) == i
    ensures r.Some? ==> forall k :: r.value < k < |picks| ==> FloorMul(picks[k], total) != i
    ensures r.None? <==> forall k :: 0 <= k < |picks| ==> FloorMul(picks[k], total) != i
    decreases |picks|
  {
    if picks == [] then None
    else if FloorMul(picks[|picks| - 1], total) == i then Some(|picks| - 1)
    else PickedAt(picks[..|picks| - 1], total, i)
  }

  /** Cell `i` before the pre-draw: pinned for the first four, else a filler digit. */
  function BaseCell(i: nat, fill: seq<Unit>): DCell
    requires i < |fill|
  {
    if i < 4 then DCell(FixedValues[i], false, true) else DCell(Digit(fill[i]), false, false)
  }

  /** Cell `i` after the pre-draw: the letter of the last pick that landed on it, else its base cell. */
  function InitialCell(i: nat, fill: seq<Unit>, picks: seq<Unit>): DCell
    requires i < |fill|
  {
    match PickedAt(picks, |fill|, i)
    case Some(k) => DCell(Multi2[k % 6], true, false)
    case None => BaseCell(i, fill)
  }

  function InitialCells(fill: seq<Unit>, picks: seq<Unit>): seq<DCell> {
    seq(|fill|, i requires 0 <= i < |fill| => InitialCell(i, fill, picks))
  }

  /**
   * What the builder promises: `cols*rows` cells; a drawn cell is exactly
   * one some pick landed on, it is not pinned and carries a letter of
   * "MULTI2" (the last pick's); every other cell is "1", "+", "1", "=" pinned
   * at 0-3, or an unpinned digit. So a pick may overwrite a pinned cell,
   * and no more than six cells are drawn.
   */
  lemma InitialCellsFacts(fill: seq<Unit>, picks: seq<Unit>, i: nat)
    requires |fill| > 0 && |picks| == 6 && i < |fill|
    ensures var c := InitialCells(fill, picks)[i];
            && (c.drawn <==> exists k :: 0 <= k < 6 && FloorMul(picks[k], |fill|) == i)
            && (c.drawn ==> !c.fixed && c.ch in Multi2)
            && (!c.drawn && i < 4 ==> c.fixed && c.ch == FixedValues[i])
            && (!c.drawn && i >= 4 ==> !c.fixed && '0' <= c.ch <= '9')
            && (c.fixed ==> i < 4)
  {
    match PickedAt(picks, |fill|, i) {
      case Some(k) =>
        assert Multi2[k % 6] in Multi2;
      case None =>
    }
  }

  /** The drawn cells of a freshly built grid are among the six picks' cells. */
  lemma AtMostSixDrawn(fill: seq<Unit>, picks: seq<Unit>)
    requires |fill| > 0 && |picks| == 6
    ensures var cells := InitialCells(fill, picks);
            (set i | 0 <= i < |cells| && cells[i].drawn) <= (set k | 0 <= k < 6 :: FloorMul(picks[k], |fill|))
  {
    var cells := InitialCells(fill, picks);
    forall i | 0 <= i < |cells| && cells[i].drawn
      ensures i in (set k | 0 <= k < 6 :: FloorMul(picks[k], |fill|))
    {
      InitialCellsFacts(fill, picks, i);
    }
  }

  // ---------------------------------------------------------------------
  // Drawing (`handleDraw`)
  // ---------------------------------------------------------------------

  /** `index + i` for i in 0..5. */
  function Horizontal(index: int): seq<int> {
    seq(6, k requires 0 <= k < 6 => index + k)
  }

  /** `index + i * grid.cols` for i in 0..5. */
  function Vertical(index: int, cols: int): seq<int> {
    seq(6, k requires 0 <= k < 6 => index + k * cols)
  }

  /** `dir.every(...)`: every index of the run may be painted. */
  predicate RunFree(cells: seq<DCell>, run: seq<int>) {
    forall k :: 0 <= k < |run| ==> Eligible(cells, run[k])
  }

  /** The eight neighbour offsets, in the order they are tried. */
  function Offsets(cols: int): seq<int> {
    [-1, 1, -cols, cols, -cols - 1, -cols + 1, cols - 1, cols + 1]
  }

  /** `j` is the pointer's cell or one of its eight flat neighbours. */
  predicate Near(index: int, cols: int, j: int) {
    j == index || j - index in Offsets(cols)
  }

  /** The paintable neighbours `index + o`, for `o` in `offs`, in order. */
  function Neighbours(cells: seq<DCell>, index: int, offs: seq<int>): (r: seq<int>)
    ensures forall k :: 0 <= k < |r| ==> Eligible(cells, r[k]) && r[k] - index in offs
    ensures forall o :: o in offs && Eligible(cells, index + o) ==> index + o in r
    decreases |offs|
  {
    if offs == [] then []
    else
      var o := offs[|offs| - 1];
      var front := Neighbours(cells, index, offs[..|offs| - 1]);
      assert forall p :: p in offs ==> p in offs[..|offs| - 1] || p == o;
      front + (if Eligible(cells, index + o) then [index + o] else [])
  }

  /**
   * `availableIndices`: the pointer's cell, then its neighbours, each when it
   * may be painted. Neighbours are checked on the flat index only, so a
   * neighbour across a row edge counts.
   */
  function Candidates(cells: seq<DCell>, index: int, cols: int): (r: seq<int>)
    ensures forall k :: 0 <= k < |r| ==> Eligible(cells, r[k]) && Near(index, cols, r[k])
    ensures Eligible(cells, index) ==> index in r
    ensures forall o :: o in Offsets(cols) && Eligible(cells, index + o) ==> index + o in r
  {
    (if Eligible(cells, index) then [index] else []) + Neighbours(cells, index, Offsets(cols))
  }

  /** Every entry of a reordering of the candidates is a candidate. */
  lemma ShuffledAreCandidates(cells: seq<DCell>, index: int, cols: int, shuffled: seq<int>)
    requires multiset(shuffled) == multiset(Candidates(cells, index, cols))
    ensures forall k :: 0 <= k < |shuffled| ==> shuffled[k] in Candidates(cells, index, cols)
  {
    forall k | 0 <= k < |shuffled| ensures shuffled[k] in Candidates(cells, index, cols) {
      assert shuffled[k] in multiset(shuffled);
    }
  }

  /** Every index of `run` is a cell of the grid. */
  predicate InGrid(cells: seq<DCell>, run: seq<int>) {
    forall k :: 0 <= k < |run| ==> 0 <= run[k] < |cells|
  }

  /** Paints `run` in order: the k-th index gets `word[k % 6]` and `drawn`; a later write to the same index wins. */
  function Paint(cells: seq<DCell>, run: seq<int>): (r: seq<DCell>)
    requires InGrid(cells, run)
    ensures |r| == |cells|
    decreases |run|
  {
    if run == [] then cells
    else
      var p := Paint(cells, run[..|run| - 1]);
      var i := run[|run| - 1];
      p[i := p[i].(ch := Multi2[(|run| - 1) % 6], drawn := true)]
  }

  /** Painting changes only the cells of the run; each of them ends drawn with a letter of "MULTI2" and its pinned flag kept. */
  lemma {:induction false} PaintFacts(cells: seq<DCell>, run: seq<int>, i: nat)
    requires InGrid(cells, run) && i < |cells|
    ensures var r := Paint(cells, run);
            && (i !in run ==> r[i] == cells[i])
            && (i in run ==> r[i].drawn && r[i].ch in Multi2 && r[i].fixed == cells[i].fixed)
    decreases |run|
  {
    if run != [] {
      var front := run[..|run| - 1];
      PaintFacts(cells, front, i);
      assert run == front + [run[|run| - 1]];
      var k := |run| - 1;
      assert Multi2[k % 6] in Multi2;
    }
  }

  /** On a run without repeats, the k-th index ends with `word[k % 6]`. */
  lemma {:induction false} PaintDistinct(cells: seq<DCell>, run: seq<int>, k: nat)
    requires InGrid(cells, run) && k < |run|
    requires forall a, b :: 0 <= a < b < |run| ==> run[a] != run[b]
    ensures Paint(cells, run)[run[k]] == cells[run[k]].(ch := Multi2[k % 6], drawn := true)
    decreases |run|
  {
    var front := run[..|run| - 1];
    if k < |run| - 1 {
      PaintDistinct(cells, front, k);
    } else {
      PaintFacts(cells, front, run[k]);
    }
  }

  /** `Math.min(6, shuffled.length)`. */
  function SplashSize(n: nat): (m: nat)
    ensures m <= 6 && m <= n && (m == 6 || m == n)
  {
    if n < 6 then n else 6
  }

  /**
   * The cells one draw paints: with the sequence coin (`Math.random() < 0.2`)
   * the horizontal run if it is free, else the vertical run if it is free;
   * otherwise the first `min(6, n)` of the shuffled candidates.
   */
  function Chosen(cells: seq<DCell>, index: int, cols: int, coin: Unit, shuffled: seq<int>): (run: seq<int>)
    requires multiset(shuffled) == multiset(Candidates(cells, index, cols))
    ensures RunFree(cells, run) && InGrid(cells, run)
  {
    ShuffledAreCandidates(cells, index, cols, shuffled);
    if coin < 0.2 && RunFree(cells, Horizontal(index)) then Horizontal(index)
    else if coin < 0.2 && RunFree(cells, Vertical(index, cols)) then Vertical(index, cols)
    else shuffled[..SplashSize(|shuffled|)]
  }

  /** The grid after one draw at `index`. */
  function DrawSpec(cells: seq<DCell>, index: int, cols: int, coin: Unit, shuffled: seq<int>): seq<DCell>
    requires multiset(shuffled) == multiset(Candidates(cells, index, cols))
  {
    Paint(cells, Chosen(cells, index, cols, coin, shuffled))
  }

  /**
   * A draw keeps the length; it never changes a cell that was pinned or
   * drawn before; every cell it changes ends drawn, unpinned, with a letter
   * of "MULTI2", and lies in the painted run.
   */
  lemma DrawKeepsPinnedAndDrawn(cells: seq<DCell>, index: int, cols: int, coin: Unit, shuffled: seq<int>, i: nat)
    requires multiset(shuffled) == multiset(Candidates(cells, index, cols))
    requires i < |cells|
    ensures |DrawSpec(cells, index, cols, coin, shuffled)| == |cells|
    ensures cells[i].fixed || cells[i].drawn ==> DrawSpec(cells, index, cols, coin, shuffled)[i] == cells[i]
    ensures var r := DrawSpec(cells, index, cols, coin, shuffled)[i];
            r != cells[i] ==> r.drawn && !r.fixed && r.ch in Multi2 && i in Chosen(cells, index, cols, coin, shuffled)
  {
    var run := Chosen(cells, index, cols, coin, shuffled);
    PaintFacts(cells, run, i);
    if i in run {
      var k :| 0 <= k < |run| && run[k] == i;
      assert Eligible(cells, run[k]);
    }
  }

  /**
   * What is painted: the horizontal run `index..index+5` when the coin asks
   * for a sequence and that run is free; else the vertical run when it is
   * free; else at most six candidates, each the pointer's cell or one of
   * its eight flat neighbours.
   */
  lemma ChosenShape(cells: seq<DCell>, index: int, cols: int, coin: Unit, shuffled: seq<int>)
    requires multiset(shuffled) == multiset(Candidates(cells, index, cols))
    ensures var run := Chosen(cells, index, cols, coin, shuffled);
            || (coin < 0.2 && RunFree(cells, Horizontal(index)) && run == Horizontal(index))
            || (coin < 0.2 && !RunFree(cells, Horizontal(index)) && RunFree(cells, Vertical(index, cols))
                && run == Vertical(index, cols))
            || (|run| <= 6 && forall k :: 0 <= k < |run| ==> Near(index, cols, run[k]))
  {
    if !(coin < 0.2 && RunFree(cells, Horizontal(index))) && !(coin < 0.2 && RunFree(cells, Vertical(index, cols))) {
      SplashNear(cells, index, cols, shuffled);
    }
  }

  /** The splash paints at most six cells, each the pointer's cell or a flat neighbour. */
  lemma SplashNear(cells: seq<DCell>, index: int, cols: int, shuffled: seq<int>)
    requires multiset(shuffled) == multiset(Candidates(cells, index, cols))
    ensures var run := shuffled[..SplashSize(|shuffled|)];
            |run| <= 6 && forall k :: 0 <= k < |run| ==> Near(index, cols, run[k])
  {
    ShuffledAreCandidates(cells, index, cols, shuffled);
    var cands := Candidates(cells, index, cols);
    var run := shuffled[..SplashSize(|shuffled|)];
    forall k | 0 <= k < |run| ensures Near(index, cols, run[k]) {
      assert run[k] == shuffled[k];
      var m :| 0 <= m < |cands| && cands[m] == run[k];
    }
  }

  /**
   * A free horizontal run, when the coin asks for a sequence, is what gets
   * painted, "M", "U", "L", "T", "I", "2" from left to right.
   */
  lemma HorizontalRunSpellsWord(cells: seq<DCell>, index: int, cols: int, coin: Unit, shuffled: seq<int>, k: nat)
    requires multiset(shuffled) == multiset(Candidates(cells, index, cols))
    requires coin < 0.2 && RunFree(cells, Horizontal(index)) && k < 6
    ensures Chosen(cells, index, cols, coin, shuffled) == Horizontal(index)
    ensures 0 <= index + k < |cells|
    ensures DrawSpec(cells, index, cols, coin, shuffled)[index + k] == cells[index + k].(ch := Multi2[k], drawn := true)
  {
    var run := Horizontal(index);
    assert run[k] == index + k && Eligible(cells, run[k]);
    RunsHaveNoRepeats(index, 1);
    PaintDistinct(cells, run, k);
  }

  /**
   * Only when the horizontal run is not free is the vertical run tried;
   * when it is free it is painted "M", "U", "L", "T", "I", "2" from top to
   * bottom.
   */
  lemma VerticalRunSpellsWord(cells: seq<DCell>, index: int, cols: int, coin: Unit, shuffled: seq<int>, k: nat)
    requires multiset(shuffled) == multiset(Candidates(cells, index, cols))
    requires coin < 0.2 && !RunFree(cells, Horizontal(index)) && RunFree(cells, Vertical(index, cols))
    requires cols > 0 && k < 6
    ensures Chosen(cells, index, cols, coin, shuffled) == Vertical(index, cols)
    ensures 0 <= index + k * cols < |cells|
    ensures DrawSpec(cells, index, cols, coin, shuffled)[index + k * cols]
            == cells[index + k * cols].(ch := Multi2[k], drawn := true)
  {
    var run := Vertical(index, cols);
    assert run[k] == index + k * cols && Eligible(cells, run[k]);
    RunsHaveNoRepeats(index, cols);
    PaintDistinct(cells, run, k);
  }

  /** Neither run names a cell twice (the vertical one because the row width is positive). */
  lemma RunsHaveNoRepeats(index: int, cols: int)
    requires cols > 0
    ensures forall a, b :: 0 <= a < b < 6 ==> Horizontal(index)[a] != Horizontal(index)[b]
    ensures forall a, b :: 0 <= a < b < 6 ==> Vertical(index, cols)[a] != Vertical(index, cols)[b]
  {
    forall a, b | 0 <= a < b < 6 ensures Vertical(index, cols)[a] != Vertical(index, cols)[b] {
      Cells.MulStrict(a, b, cols);
    }
  }

  /** When neither the pointer's cell nor any flat neighbour may be painted, a draw changes nothing. */
  lemma NothingPaintableNoChange(cells: seq<DCell>, index: int, cols: int, coin: Unit, shuffled: seq<int>)
    requires multiset(shuffled) == multiset(Candidates(cells, index, cols))
    requires !Eligible(cells, index)
    requires forall o :: o in Offsets(cols) ==> !Eligible(cells, index + o)
    ensures DrawSpec(cells, index, cols, coin, shuffled) == cells
  {
    assert Candidates(cells, index, cols) == [];
    assert !RunFree(cells, Horizontal(index)) by { assert Horizontal(index)[0] == index; }
    assert !RunFree(cells, Vertical(index, cols)) by { assert Vertical(index, cols)[0] == index; }
    assert |multiset(shuffled)| == 0;
  }

  /**
   * The splash can cross a row edge: for a cell in the last column, the
   * "+1" neighbour is the first cell of the next row, and it is a candidate
   * whenever it may be painted.
   */
  lemma SplashWrapsAcrossRows(cells: seq<DCell>, index: int, cols: int)
    requires cols > 0 && index >= 0 && index % cols == cols - 1
    requires Eligible(cells, index + 1)
    ensures index + 1 in Candidates(cells, index, cols)
    ensures (index + 1) / cols == index / cols + 1 && (index + 1) % cols == 0
  {
    assert Offsets(cols)[1] == 1;
    assert 1 in Offsets(cols);
    var q := index / cols;
    assert index + 1 == (q + 1) * cols + 0 by {
      assert index == q * cols + cols - 1;
      assert (q + 1) * cols == q * cols + cols;
    }
    DivModUnique(index + 1, cols, q + 1, 0);
  }

  // ---------------------------------------------------------------------
  // The component
  // ---------------------------------------------------------------------

  /** The component's state: grid size, cells, whether it is shown, and the `isDrawing` ref. */
  class Multi2Grid {
    var cols: nat
    var rows: nat
    var cells: seq<DCell>
    var visible: bool
    var isDrawing: bool

    constructor ()
      ensures cols == 0 && rows == 0 && cells == [] && visible && !isDrawing
    {
      cols, rows, cells, visible, isDrawing := 0, 0, [], true, false;
    }

    /**
     * `updateGrid` for a grid of `cols * rows` cells: filler digits, the
     * pinned "1+1=" over the first four, then the six pre-drawn letters,
     * written in turn.
     */
    method UpdateGrid(cols: nat, rows: nat, fill: seq<Unit>, picks: seq<Unit>)
      requires cols > 0 && rows > 0 && |fill| == cols * rows && |picks| == 6
      modifies this
      ensures this.cols == cols && this.rows == rows && cells == InitialCells(fill, picks)
      ensures visible == old(visible) && isDrawing == old(isDrawing)
    {
      var total := cols * rows;
      var a := new DCell[total](i requires 0 <= i < total => DCell(Digit(fill[i]), false, false));
      var fixedCount := if total < 4 then total else 4;
      for i := 0 to fixedCount
        modifies a
        invariant forall j :: 0 <= j < total ==> a[j] == (if j < i then BaseCell(j, fill) else DCell(Digit(fill[j]), false, false))
      {
        a[i] := DCell(FixedValues[i], false, true);
      }
      for k := 0 to 6
        modifies a
        invariant forall j :: 0 <= j < total ==> a[j] == InitialCell(j, fill, picks[..k])
      {
        var idx := FloorMul(picks[k], total);
        a[idx] := DCell(Multi2[k % 6], true, false);
        assert picks[..k + 1][..k] == picks[..k];
      }
      assert picks[..6] == picks;
      this.cols, this.rows := cols, rows;
      cells := a[..];
    }

    /** Writes `run` into `a` in order, as `Paint` does. */
    static method PaintInto(a: array<DCell>, run: seq<int>)
      requires InGrid(a[..], run)
      modifies a
      ensures a[..] == Paint(old(a[..]), run)
    {
      ghost var start := a[..];
      for k := 0 to |run|
        invariant InGrid(start, run[..k]) && a[..] == Paint(start, run[..k])
      {
        var i := run[k];
        a[i] := a[i].(ch := Multi2[k % 6], drawn := true);
        assert run[..k + 1][..k] == run[..k];
      }
      assert run[..|run|] == run;
    }

    /**
     * `handleDraw(index)`: copies the cells, paints the chosen run into the
     * copy and stores it. `coin` is the sequence draw and `shuffled` the
     * splash order, any reordering of the candidates.
     */
    method HandleDraw(index: nat, coin: Unit, shuffled: seq<int>)
      requires index < |cells|
      requires multiset(shuffled) == multiset(Candidates(cells, index, cols))
      modifies this
      ensures cols == old(cols) && rows == old(rows) && visible == old(visible) && isDrawing == old(isDrawing)
      ensures cells == DrawSpec(old(cells), index, cols, coin, shuffled)
    {
      var prev := cells;
      var run := Chosen(prev, index, cols, coin, shuffled);
      var newCells := new DCell[|prev|](i requires 0 <= i < |prev| => prev[i]);
      assert newCells[..] == prev;
      PaintInto(newCells, run);
      cells := newCells[..];
    }

    /** Whether cell `i` is the close button (`i === grid.cols - 1 && grid.rows > 0`). */
    predicate IsCloseButton(i: nat)
      reads this
    {
      i == cols - 1 && rows > 0
    }

    /** Pointer down: the close button hides the grid; any other cell starts a gesture and draws. */
    method PointerDown(index: nat, coin: Unit, shuffled: seq<int>)
      requires index < |cells|
      requires multiset(shuffled) == multiset(Candidates(cells, index, cols))
      modifies this
      ensures cols == old(cols) && rows == old(rows)
      ensures old(IsCloseButton(index)) ==> !visible && cells == old(cells) && isDrawing == old(isDrawing)
      ensures !old(IsCloseButton(index)) ==>
                isDrawing && visible == old(visible) && cells == DrawSpec(old(cells), index, cols, coin, shuffled)
    {
      if IsCloseButton(index) {
        visible := false;
      } else {
        isDrawing := true;
        HandleDraw(index, coin, shuffled);
      }
    }

    /** Pointer enter: draws only inside a gesture and never on the close button. */
    method PointerEnter(index: nat, coin: Unit, shuffled: seq<int>)
      requires index < |cells|
      requires multiset(shuffled) == multiset(Candidates(cells, index, cols))
      modifies this
      ensures cols == old(cols) && rows == old(rows) && visible == old(visible) && isDrawing == old(isDrawing)
      ensures !old(isDrawing) || old(IsCloseButton(index)) ==> cells == old(cells)
      ensures old(isDrawing) && !old(IsCloseButton(index)) ==> cells == DrawSpec(old(cells), index, cols, coin, shuffled)
    {
      if !IsCloseButton(index) && isDrawing {
        HandleDraw(index, coin, shuffled);
      }
    }

    /** Pointer up: the gesture ends. */
    method PointerUp()
      modifies this
      ensures !isDrawing && cols == old(cols) && rows == old(rows) && cells == old(cells) && visible == old(visible)
    {
      isDrawing := false;
    }
  }
}
