/**
 * The "1 + 1 =" hero grid of components/MathHeroPage.tsx: `buildGrid`
 * pins "1", "+", "1", "=" at indices 0-3, tries up to 100 random spots for
 * the word MULTISQUARED that avoid those cells, falls back to row 1 from
 * column 0, and fills the rest with digits; a scroll update then draws
 * hidden cells in or fades visible cells out, one Bernoulli outcome per cell.
 */
module HeroPage {
  import opened Common
  import opened Draws
  import opened Cells

  datatype HeroCell = HeroCell(id: nat, ch: char, isFixed: bool, isWord: bool, visible: bool, drawn: bool)

  const Word: string := "MULTISQUARED"
  const MaxAttempts: nat := 100

  /** `fixedTextPositions`: the literal positions 0-3 paired with "1", "+", "1", "=". */
  const FixedTextPositions: seq<Entry> := [Entry(0, '1'), Entry(1, '+'), Entry(2, '1'), Entry(3, '=')]

  /** `fixedPositions.includes(index)`. */
  predicate IsFixedPosition(index: int) {
    0 <= index <= 3
  }

  /** `overlapsFixed(indices)`. */
  predicate OverlapsFixed(indices: seq<int>) {
    exists k :: 0 <= k < |indices| && IsFixedPosition(indices[k])
  }

  /** What one attempt proposes: a run, or, for a vertical try, no column right of column 3. */
  datatype Proposal = Proposed(run: Run) | NoColumn

  /**
   * The proposal of one attempt. A horizontal run starts in a row from 1 to
   * `rows - 1` (row 0 holds the fixed text); a vertical run lies in a
   * column greater than 3.
   */
  function Propose(cols: nat, rows: nat, d: Placement): (p: Proposal)
    ensures d.coin < 0.5 ==> p.Proposed? && p.run.Across?
    ensures d.coin >= 0.5 ==> (p.NoColumn? <==> cols <= 4)
    ensures p.Proposed? && p.run.Across? && rows >= 2 ==> 1 <= p.run.row <= rows - 1
    ensures p.Proposed? && p.run.Across? && cols >= |Word| ==> 0 <= p.run.startCol <= cols - |Word|
    ensures p.Proposed? && p.run.Down? ==> 3 < p.run.col < cols
    ensures p.Proposed? && p.run.Down? && rows >= |Word| ==> 0 <= p.run.startRow <= rows - |Word|
  {
    if d.coin < 0.5 then
      Proposed(Across(FloorMul(d.first, rows - 1) + 1, FloorMul(d.second, cols - |Word| + 1)))
    else if cols <= 4 then NoColumn
    else Proposed(Down(4 + FloorMul(d.first, cols - 4), FloorMul(d.second, rows - |Word| + 1)))
  }

  /** How the retry loop ends: an accepted run at some attempt, or the fallback. */
  datatype Outcome = Accepted(attempt: nat, run: Run) | FellBack

  predicate Rejected(cols: nat, rows: nat, d: Placement) {
    var p := Propose(cols, rows, d);
    p.Proposed? && OverlapsFixed(Indices(p.run, cols, |Word|))
  }

  /** The retry loop from attempt `k` on. */
  function Search(cols: nat, rows: nat, tries: seq<Placement>, k: nat): Outcome
    requires |tries| == MaxAttempts && k <= MaxAttempts
    decreases MaxAttempts - k
  {
    if k == MaxAttempts then FellBack
    else
      match Propose(cols, rows, tries[k])
      case NoColumn => FellBack
      case Proposed(run) =>
        if !OverlapsFixed(Indices(run, cols, |Word|)) then Accepted(k, run)
        else Search(cols, rows, tries, k + 1)
  }

  /** The run `buildGrid` places the word on. */
  function PlacedRun(cols: nat, rows: nat, tries: seq<Placement>): Run
    requires |tries| == MaxAttempts
  {
    match Search(cols, rows, tries, 0)
    case Accepted(_, run) => run
    case FellBack => Across(1, 0)
  }

  /** `wordCells` after the retry loop and the fallback. */
  function WordCellsFor(cols: nat, rows: nat, tries: seq<Placement>): seq<Entry>
    requires |tries| == MaxAttempts
  {
    Label(Indices(PlacedRun(cols, rows, tries), cols, |Word|), Word)
  }

  /** Every attempt from `k` up to (not including) `b` was proposed and overlapped a fixed cell. */
  predicate RejectedBetween(cols: nat, rows: nat, tries: seq<Placement>, k: nat, b: nat) {
    b <= |tries| && forall j :: k <= j < b ==> Rejected(cols, rows, tries[j])
  }

  /** Attempt `b` found no column right of column 3, after only rejected attempts from `k`. */
  predicate StopsAt(cols: nat, rows: nat, tries: seq<Placement>, k: nat, b: nat) {
    k <= b < |tries| && Propose(cols, rows, tries[b]).NoColumn? && RejectedBetween(cols, rows, tries, k, b)
  }

  /**
   * The retry loop's outcome, attempt by attempt: an accepted run is the
   * proposal of an attempt below 100 that misses cells 0-3, after only
   * rejected attempts; the fallback happens exactly when every attempt up to
   * 100 is rejected, or when a vertical try finds no column greater than 3
   * after only rejected attempts.
   */
  lemma {:induction false} SearchOutcome(cols: nat, rows: nat, tries: seq<Placement>, k: nat)
    requires |tries| == MaxAttempts && k <= MaxAttempts
    ensures Search(cols, rows, tries, k).Accepted? ==>
              var a := Search(cols, rows, tries, k).attempt;
              var run := Search(cols, rows, tries, k).run;
              && k <= a < MaxAttempts
              && Propose(cols, rows, tries[a]) == Proposed(run)
              && !OverlapsFixed(Indices(run, cols, |Word|))
              && RejectedBetween(cols, rows, tries, k, a)
    ensures Search(cols, rows, tries, k).FellBack? <==>
              RejectedBetween(cols, rows, tries, k, MaxAttempts) || exists b :: StopsAt(cols, rows, tries, k, b)
    decreases MaxAttempts - k
  {
    if k < MaxAttempts {
      SearchOutcome(cols, rows, tries, k + 1);
      var p := Propose(cols, rows, tries[k]);
      if p.NoColumn? {
        assert StopsAt(cols, rows, tries, k, k);
      } else if !OverlapsFixed(Indices(p.run, cols, |Word|)) {
        assert !Rejected(cols, rows, tries[k]);
      } else {
        assert Rejected(cols, rows, tries[k]);
        RejectedStep(cols, rows, tries, k, k + 1);
      }
    }
  }

  /** After a rejected attempt `k`, stopping from `k` and stopping from `k + 1` are the same. */
  lemma RejectedStep(cols: nat, rows: nat, tries: seq<Placement>, k: nat, next: nat)
    requires k < |tries| && next == k + 1 && Rejected(cols, rows, tries[k])
    ensures RejectedBetween(cols, rows, tries, k, |tries|) <==> RejectedBetween(cols, rows, tries, next, |tries|)
    ensures (exists b :: StopsAt(cols, rows, tries, k, b)) <==> (exists b :: StopsAt(cols, rows, tries, next, b))
  {
    if b :| StopsAt(cols, rows, tries, next, b) {
      assert StopsAt(cols, rows, tries, k, b);
    }
    if b :| StopsAt(cols, rows, tries, k, b) {
      assert b != k;
      assert StopsAt(cols, rows, tries, next, b);
    }
  }

  /**
   * An accepted word never covers a fixed cell, and it is a horizontal run
   * from a row in [1, rows - 1] or a vertical run in a column greater than
   * 3; otherwise the word sits at indices `cols .. cols + 11`.
   */
  lemma PlacedWordAvoidsFixed(cols: nat, rows: nat, tries: seq<Placement>)
    requires |tries| == MaxAttempts
    ensures var o := Search(cols, rows, tries, 0);
            o.Accepted? ==> forall k :: 0 <= k < |Word| ==> !IsFixedPosition(WordCellsFor(cols, rows, tries)[k].idx)
    ensures var o := Search(cols, rows, tries, 0);
            o.Accepted? && o.run.Across? && rows >= 2 ==> 1 <= o.run.row <= rows - 1
    ensures var o := Search(cols, rows, tries, 0);
            o.Accepted? && o.run.Down? ==> 3 < o.run.col < cols
    ensures var o := Search(cols, rows, tries, 0);
            o.FellBack? ==> forall k :: 0 <= k < |Word| ==> WordCellsFor(cols, rows, tries)[k] == Entry(cols + k, Word[k])
  {
    SearchOutcome(cols, rows, tries, 0);
    var o := Search(cols, rows, tries, 0);
    if o.Accepted? {
      var ix := Indices(o.run, cols, |Word|);
      forall k | 0 <= k < |Word| ensures !IsFixedPosition(WordCellsFor(cols, rows, tries)[k].idx) {
        assert WordCellsFor(cols, rows, tries)[k].idx == ix[k];
      }
    }
  }

  /**
   * The retry loop of `buildGrid` (lines 66-132): up to 100 proposals, each
   * accepted only when it misses cells 0-3; a vertical try with no column
   * right of column 3 ends the loop; with no accepted proposal the word goes
   * to indices `cols .. cols + 11`.
   */
  method PlaceWord(cols: nat, rows: nat, tries: seq<Placement>) returns (wordCells: seq<Entry>)
    requires |tries| == MaxAttempts
    ensures wordCells == WordCellsFor(cols, rows, tries)
  {
    wordCells := [];
    var placed := false;
    var attempts := 0;
    while attempts < MaxAttempts
      invariant 0 <= attempts <= MaxAttempts
      invariant Search(cols, rows, tries, 0) == Search(cols, rows, tries, attempts)
    {
      var p := ProposeAttempt(cols, rows, tries[attempts]);
      SearchStep(cols, rows, tries, attempts);
      if p.NoColumn? {
        break;
      }
      var proposed := ProposedIndices(p.run, cols);
      if !OverlapsFixed(proposed) {
        wordCells := Label(proposed, Word);
        placed := true;
        break;
      }
      attempts := attempts + 1;
    }
    if !placed {
      wordCells := Fallback(cols);
    }
  }

  /** One attempt's draws turned into a proposal (lines 75-81 and 94-105). */
  method ProposeAttempt(cols: nat, rows: nat, d: Placement) returns (p: Proposal)
    ensures p == Propose(cols, rows, d)
  {
    var wordLength := |Word|;
    if d.coin < 0.5 {
      var row := FloorMul(d.first, rows - 1) + 1;
      var startCol := FloorMul(d.second, cols - wordLength + 1);
      p := Proposed(Across(row, startCol));
    } else {
      if cols <= 4 {
        return NoColumn;
      }
      var col := 4 + FloorMul(d.first, cols - 4);
      var startRow := FloorMul(d.second, rows - wordLength + 1);
      p := Proposed(Down(col, startRow));
    }
  }

  /** The fallback placement (lines 123-132): letter `i` at index `cols + i`, the start of row 1. */
  method Fallback(cols: nat) returns (wordCells: seq<Entry>)
    ensures wordCells == Label(Indices(Across(1, 0), cols, |Word|), Word)
  {
    wordCells := [];
    for i := 0 to |Word|
      invariant |wordCells| == i
      invariant forall k :: 0 <= k < i ==> wordCells[k] == Entry(cols + k, Word[k])
    {
      wordCells := wordCells + [Entry(cols + i, Word[i])];
    }
  }

  /** One attempt of the retry loop: accept, stop, or go on to the next attempt. */
  lemma SearchStep(cols: nat, rows: nat, tries: seq<Placement>, k: nat)
    requires |tries| == MaxAttempts && k < MaxAttempts
    ensures Propose(cols, rows, tries[k]).NoColumn? ==> Search(cols, rows, tries, k) == FellBack
    ensures Propose(cols, rows, tries[k]).Proposed? ==>
              var run := Propose(cols, rows, tries[k]).run;
              Search(cols, rows, tries, k) ==
                if OverlapsFixed(Indices(run, cols, |Word|)) then Search(cols, rows, tries, k + 1) else Accepted(k, run)
  {
  }

  /** `proposedIndices`, pushed one index at a time (lines 82-85 and 106-109). */
  method ProposedIndices(run: Run, cols: nat) returns (proposed: seq<int>)
    ensures proposed == Indices(run, cols, |Word|)
  {
    proposed := [];
    for i := 0 to |Word|
      invariant proposed == Indices(run, cols, i)
    {
      match run
      case Across(row, startCol) => proposed := proposed + [row * cols + startCol + i];
      case Down(col, startRow) => proposed := proposed + [(startRow + i) * cols + col];
    }
  }

  /** The fixed entry at `i`, if any: "1+1="[i] for `i` in 0-3. */
  lemma FixedLookup(i: int)
    ensures Find(FixedTextPositions, i) == if 0 <= i < 4 then Some("1+1="[i]) else None
  {
    if !(0 <= i < 4) {
      assert !Has(FixedTextPositions, i);
    }
  }

  /** One cell of `Array.from({ length: total }, ...)` (lines 134-150). */
  function MakeCell(i: nat, wordCells: seq<Entry>, filler: Unit): HeroCell {
    var fixed := Find(FixedTextPositions, i);
    var wordCell := Find(wordCells, i);
    var ch := match fixed
      case Some(c) => c
      case None => match wordCell
        case Some(c) => c
        case None => Digit(filler);
    HeroCell(i, ch, fixed.Some?, wordCell.Some?, true, wordCell.Some?)
  }

  /**
   * The grid assembled around the placed word: `cols * rows` cells with id
   * `i` at position `i`; cells 0-3 show "1", "+", "1", "=" and are the only
   * fixed cells; `isWord` and `drawn` hold exactly on the word's indices
   * inside the grid, where the word's character shows unless a fixed one
   * does; every other cell shows a digit; every cell starts visible.
   */
  function Assemble(cols: nat, rows: nat, wordCells: seq<Entry>, fill: seq<Unit>): (grid: seq<HeroCell>)
    requires |fill| == cols * rows
    ensures |grid| == cols * rows
    ensures forall i :: 0 <= i < |grid| ==> grid[i].id == i && grid[i].visible
    ensures forall i :: 0 <= i < |grid| ==> (grid[i].isFixed <==> i < 4)
    ensures forall i :: 0 <= i < |grid| && i < 4 ==> grid[i].ch == "1+1="[i]
    ensures forall i :: 0 <= i < |grid| ==> (grid[i].isWord <==> Has(wordCells, i)) && grid[i].drawn == grid[i].isWord
    ensures forall i :: 0 <= i < |grid| && 4 <= i && grid[i].isWord ==>
              exists k :: 0 <= k < |wordCells| && wordCells[k] == Entry(i, grid[i].ch)
    ensures forall i :: 0 <= i < |grid| && !grid[i].isFixed && !grid[i].isWord ==> '0' <= grid[i].ch <= '9'
  {
    forall i | 0 <= i < cols * rows ensures Find(FixedTextPositions, i) == if i < 4 then Some("1+1="[i]) else None {
      FixedLookup(i);
    }
    seq(cols * rows, i requires 0 <= i < cols * rows => MakeCell(i, wordCells, fill[i]))
  }

  /** `buildGrid(cols, rows)`. */
  method BuildGrid(cols: nat, rows: nat, tries: seq<Placement>, fill: seq<Unit>) returns (grid: seq<HeroCell>)
    requires |tries| == MaxAttempts && |fill| == cols * rows
    ensures grid == Assemble(cols, rows, WordCellsFor(cols, rows, tries), fill)
  {
    var wordCells := PlaceWord(cols, rows, tries);
    var total := cols * rows;
    grid := [];
    for i := 0 to total
      invariant grid == Assemble(cols, rows, wordCells, fill)[..i]
    {
      grid := grid + [MakeCell(i, wordCells, fill[i])];
    }
    assert grid == Assemble(cols, rows, wordCells, fill)[..total];
  }

  /**
   * With three columns or fewer, the fallback run `cols .. cols + 11`
   * reaches into cells 0-3: on a 3-column grid whose first try is vertical,
   * cell 3 keeps its "=" and `isFixed`, but is also marked as a word cell
   * and drawn.
   */
  lemma NarrowFallbackMarksFixedCell(rows: nat, tries: seq<Placement>, fill: seq<Unit>)
    requires |tries| == MaxAttempts && |fill| == 3 * rows && rows >= 2
    requires tries[0].coin >= 0.5
    ensures var g := Assemble(3, rows, WordCellsFor(3, rows, tries), fill);
            g[3].isFixed && g[3].ch == '=' && g[3].isWord && g[3].drawn
  {
    assert Search(3, rows, tries, 0) == FellBack;
    assert WordCellsFor(3, rows, tries)[0] == Entry(3, 'M');
  }

  /** The two outcomes of `Math.random()` a scroll update may consume for one cell. */
  datatype ScrollDraw = ScrollDraw(drawIn: Unit, fadeOut: Unit)

  /**
   * The scroll update of one cell (lines 172-200). A cell is drawn in
   * (shown and marked drawn) only while progress is below 0.1 and only if
   * it was hidden and undrawn; it fades out (hidden, marked drawn) only at
   * progress 0.3 or more and only if it was visible. Nothing else about the
   * cell changes, and `drawn` never goes back to false.
   */
  function ScrollCell(c: HeroCell, progress: real, d: ScrollDraw): (r: HeroCell)
    ensures r.id == c.id && r.ch == c.ch && r.isFixed == c.isFixed && r.isWord == c.isWord
    ensures c.drawn ==> r.drawn
    ensures r.visible && !c.visible ==> progress < 0.1 && !c.drawn && r.drawn
    ensures !r.visible && c.visible ==> progress >= 0.3 && r.drawn
    ensures r.drawn && !c.drawn ==> r.visible != c.visible
    ensures progress < 0.3 && (c.visible || c.drawn) ==> r == c
  {
    if progress < 0.1 && !c.visible && !c.drawn && d.drawIn < progress * 0.6 then
      c.(visible := true, drawn := true)
    else if progress >= 0.3 && c.visible && d.fadeOut < (progress - 0.3) * 0.4 then
      c.(drawn := true, visible := false)
    else c
  }

  /** `prev.map(...)`: one scroll update over the whole grid. */
  function ScrollStep(cells: seq<HeroCell>, progress: real, draws: seq<ScrollDraw>): (r: seq<HeroCell>)
    requires |draws| == |cells|
    ensures |r| == |cells|
    ensures forall i :: 0 <= i < |r| ==> r[i] == ScrollCell(cells[i], progress, draws[i])
  {
    seq(|cells|, i requires 0 <= i < |cells| => ScrollCell(cells[i], progress, draws[i]))
  }

  /** At progress 0 neither phase can fire: the update changes nothing. */
  lemma ScrollAtZeroChangesNothing(cells: seq<HeroCell>, draws: seq<ScrollDraw>)
    requires |draws| == |cells|
    ensures ScrollStep(cells, 0.0, draws) == cells
  {
    forall i | 0 <= i < |cells| ensures ScrollStep(cells, 0.0, draws)[i] == cells[i] {
      var c, d := cells[i], draws[i];
      assert !(d.drawIn < 0.0 * 0.6);
    }
  }

  /** A sequence of scroll updates, one progress value and one draw list per update. */
  function ScrollRun(cells: seq<HeroCell>, progress: seq<real>, draws: seq<seq<ScrollDraw>>): seq<HeroCell>
    requires |draws| == |progress|
    requires forall t :: 0 <= t < |draws| ==> |draws[t]| == |cells|
    decreases |progress|
  {
    if progress == [] then cells
    else ScrollRun(ScrollStep(cells, progress[0], draws[0]), progress[1..], draws[1..])
  }

  /**
   * Starting from a grid where every cell is visible (as `buildGrid` makes
   * it), any sequence of scroll updates keeps length, id, character and
   * flags, keeps every drawn cell drawn, and only ever hides cells: the
   * draw-in phase can never fire, because it needs a hidden cell that was
   * never drawn, and fading out marks a cell drawn.
   */
  lemma {:induction false} ScrollOnlyHides(cells: seq<HeroCell>, progress: seq<real>, draws: seq<seq<ScrollDraw>>)
    requires |draws| == |progress|
    requires forall t :: 0 <= t < |draws| ==> |draws[t]| == |cells|
    requires forall i :: 0 <= i < |cells| ==> cells[i].visible || cells[i].drawn
    ensures var r := ScrollRun(cells, progress, draws);
            && |r| == |cells|
            && (forall i :: 0 <= i < |r| ==> r[i].visible || r[i].drawn)
            && (forall i :: 0 <= i < |r| ==> r[i].visible ==> cells[i].visible)
            && (forall i :: 0 <= i < |r| ==> cells[i].drawn ==> r[i].drawn)
            && (forall i :: 0 <= i < |r| ==> r[i].id == cells[i].id && r[i].ch == cells[i].ch
                                             && r[i].isFixed == cells[i].isFixed && r[i].isWord == cells[i].isWord)
    decreases |progress|
  {
    if progress != [] {
      var next := ScrollStep(cells, progress[0], draws[0]);
      assert forall i :: 0 <= i < |next| ==> next[i].visible || next[i].drawn;
      assert forall i :: 0 <= i < |next| ==> next[i].visible ==> cells[i].visible;
      ScrollOnlyHides(next, progress[1..], draws[1..]);
    }
  }

  /** Hence, from `buildGrid`'s output, visibility only goes from true to false. */
  lemma BuiltGridOnlyFades(cols: nat, rows: nat, tries: seq<Placement>, fill: seq<Unit>,
                           progress: seq<real>, draws: seq<seq<ScrollDraw>>)
    requires |tries| == MaxAttempts && |fill| == cols * rows
    requires |draws| == |progress|
    requires forall t :: 0 <= t < |draws| ==> |draws[t]| == cols * rows
    ensures var g := Assemble(cols, rows, WordCellsFor(cols, rows, tries), fill);
            var r := ScrollRun(g, progress, draws);
            |r| == |g| && forall i :: 0 <= i < |r| ==> (r[i].visible || r[i].drawn) && r[i].id == i
  {
    var g := Assemble(cols, rows, WordCellsFor(cols, rows, tries), fill);
    ScrollOnlyHides(g, progress, draws);
  }

  /** The page's grid state. */
  class Page {
    var cols: nat
    var rows: nat
    var cells: seq<HeroCell>
    var hasLoaded: bool

    constructor ()
      ensures cols == 0 && rows == 0 && cells == [] && !hasLoaded
    {
      cols, rows, cells, hasLoaded := 0, 0, [], false;
    }

    /**
     * The build effect: nothing while the window has no size; otherwise the
     * grid is as many whole cells of `minCellSize` pixels as fit each way,
     * built by `buildGrid`.
     */
    method BuildEffect(width: nat, height: nat, minCellSize: nat, tries: seq<Placement>, fill: seq<Unit>)
      requires minCellSize > 0 && |tries| == MaxAttempts
      requires |fill| == CellCount(width, minCellSize) * CellCount(height, minCellSize)
      modifies this
      ensures width == 0 || height == 0 ==>
                cols == old(cols) && rows == old(rows) && cells == old(cells) && hasLoaded == old(hasLoaded)
      ensures width != 0 && height != 0 ==>
                && cols == CellCount(width, minCellSize) && rows == CellCount(height, minCellSize) && hasLoaded
                && cells == Assemble(cols, rows, WordCellsFor(cols, rows, tries), fill)
    {
      if width == 0 || height == 0 {
        return;
      }
      var c := width / minCellSize;
      var r := height / minCellSize;
      cols, rows := c, r;
      cells := BuildGrid(c, r, tries, fill);
      hasLoaded := true;
    }

    /** The scroll subscription: every cell takes one `ScrollCell` step at the new progress. */
    method OnScroll(progress: real, draws: seq<ScrollDraw>)
      requires |draws| == |cells|
      modifies this
      ensures cols == old(cols) && rows == old(rows) && hasLoaded == old(hasLoaded)
      ensures cells == ScrollStep(old(cells), progress, draws)
    {
      cells := ScrollStep(cells, progress, draws);
    }
  }
}
