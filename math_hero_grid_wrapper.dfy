/**
 * components/MathHeroGridWrapper.tsx: builds a `GridTextContent` grid once
 * the window has a size, shuffles the cell indices and schedules one reveal
 * per cell; a reveal shows one cell and changes nothing else.
 */
module HeroGridWrapper {
  import opened Draws
  import opened Cells
  import opened GridText
  import opened Shuffle

  /** `updated[idx] = { ...updated[idx], visible: true }`. */
  function Reveal(cells: seq<TextCell>, idx: nat): (r: seq<TextCell>)
    requires idx < |cells|
  {
    cells[idx := cells[idx].(visible := true)]
  }

  /**
   * A reveal keeps the length, shows cell `idx`, keeps that cell's id,
   * character and flags, leaves every other cell alone, and doing it twice
   * is the same as doing it once.
   */
  lemma RevealTouchesOneCell(cells: seq<TextCell>, idx: nat)
    requires idx < |cells|
    ensures var r := Reveal(cells, idx);
            && |r| == |cells| && r[idx].visible
            && r[idx].id == cells[idx].id && r[idx].ch == cells[idx].ch
            && r[idx].isFixed == cells[idx].isFixed && r[idx].isWord == cells[idx].isWord
            && (forall i :: 0 <= i < |cells| && i != idx ==> r[i] == cells[i])
            && Reveal(r, idx) == r
  {}

  /** The reveals of `idxs`, in order. */
  function RevealAll(cells: seq<TextCell>, idxs: seq<nat>): (r: seq<TextCell>)
    requires forall k :: 0 <= k < |idxs| ==> idxs[k] < |cells|
    ensures |r| == |cells|
    decreases |idxs|
  {
    if idxs == [] then cells
    else Reveal(RevealAll(cells, idxs[..|idxs| - 1]), idxs[|idxs| - 1])
  }

  /**
   * On a grid where no cell is visible yet (as `GridTextContent` builds it),
   * after the reveals of the first `k` shuffled indices exactly those cells
   * are visible, and nothing but visibility has changed.
   */
  lemma {:induction false} RevealedExactlyThePrefix(cells: seq<TextCell>, idxs: seq<nat>)
    requires forall k :: 0 <= k < |idxs| ==> idxs[k] < |cells|
    requires forall i :: 0 <= i < |cells| ==> !cells[i].visible
    ensures var r := RevealAll(cells, idxs);
            && |r| == |cells|
            && (forall i :: 0 <= i < |cells| ==> (r[i].visible <==> i in idxs))
            && (forall i :: 0 <= i < |cells| ==> r[i] == cells[i].(visible := r[i].visible))
    decreases |idxs|
  {
    if idxs != [] {
      var front := idxs[..|idxs| - 1];
      RevealedExactlyThePrefix(cells, front);
      assert idxs == front + [idxs[|idxs| - 1]];
      forall i | 0 <= i < |cells| ensures i in idxs <==> i in front || i == idxs[|idxs| - 1] {
      }
    }
  }

  /** The reveals of the first `k` entries of a shuffled order show exactly those `k` cells. */
  lemma ShuffledRevealsShowPrefix(cells: seq<TextCell>, perm: seq<nat>, k: nat)
    requires IsPermutation(perm, |cells|) && k <= |perm|
    requires forall i :: 0 <= i < |cells| ==> !cells[i].visible
    ensures forall j :: 0 <= j < k ==> perm[j] < |cells|
    ensures var r := RevealAll(cells, perm[..k]);
            forall i :: 0 <= i < |cells| ==> (r[i].visible <==> exists j :: 0 <= j < k && perm[j] == i)
  {
    PermutationFacts(perm, |cells|);
    RevealedExactlyThePrefix(cells, perm[..k]);
    forall i | 0 <= i < |cells| ensures i in perm[..k] <==> exists j :: 0 <= j < k && perm[j] == i {
      if exists j :: 0 <= j < k && perm[j] == i {
        var j :| 0 <= j < k && perm[j] == i;
        assert perm[..k][j] == i;
      }
    }
  }

  /** The component's state: its cells, its grid size and the reveal timers it has scheduled. */
  class Wrapper {
    var cells: seq<TextCell>
    var cols: nat
    var rows: nat
    var timers: seq<Timer>

    constructor ()
      ensures cells == [] && cols == 0 && rows == 0 && timers == []
    {
      cells, cols, rows, timers := [], 0, 0, [];
    }

    /**
     * The build effect (lines 29-57): nothing while the window has no size
     * or once cells exist; otherwise the grid from `GridTextContent`, the
     * size from `minCellSize`, and one reveal timer per cell in a shuffled
     * order, the `k`-th at `k * staggerDelay`.
     */
    method Build(width: nat, height: nat, minCellSize: nat, fixedText: seq<Entry>, word: string,
                 staggerDelay: nat, d: Placement, fill: seq<Unit>, picks: seq<Unit>)
      requires minCellSize > 0
      requires |fill| == CellCount(width, minCellSize) * CellCount(height, minCellSize) == |picks|
      modifies this
      ensures width == 0 || height == 0 || |old(cells)| > 0 ==>
                cells == old(cells) && cols == old(cols) && rows == old(rows) && timers == old(timers)
      ensures !(width == 0 || height == 0 || |old(cells)| > 0) ==>
                && cols == CellCount(width, minCellSize) && rows == CellCount(height, minCellSize)
                && cells == Layout(cols, rows, fixedText, word, d, fill)
                && IsPermutation(Targets(timers), |cells|)
                && timers == Schedule(Targets(timers), staggerDelay)
    {
      if width == 0 || height == 0 {
        return;
      }
      if |cells| > 0 {
        return;
      }
      var c := CellCount(width, minCellSize);
      var r := CellCount(height, minCellSize);
      cols, rows := c, r;
      var newCells := GridTextContent(c, r, fixedText, word, d, fill);
      cells := newCells;
      var allIndices := FisherYates(|newCells|, picks);
      var scheduled := Schedule(allIndices, staggerDelay);
      assert Targets(scheduled) == allIndices;
      timers := scheduled;
    }

    /** A timer firing: the reveal of one cell. */
    method Fire(t: Timer)
      requires t.idx < |cells|
      modifies this
      ensures cells == Reveal(old(cells), t.idx)
      ensures cols == old(cols) && rows == old(rows) && timers == old(timers)
    {
      var updated := cells;
      updated := updated[t.idx := updated[t.idx].(visible := true)];
      cells := updated;
    }

    /** The effect's cleanup: every pending timer is cleared. */
    method Cleanup()
      modifies this
      ensures timers == [] && cells == old(cells) && cols == old(cols) && rows == old(rows)
    {
      timers := [];
    }
  }
}
