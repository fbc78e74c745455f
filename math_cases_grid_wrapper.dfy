/**
 * components/MathCasesGridWrapper.tsx: one hidden slot per item, a column
 * count from the window width, and a shuffled reveal of every slot.
 */
module CasesGridWrapper {
  import opened Draws
  import opened Shuffle
  import Cells

  /** One slot of the grid: its id and whether it has been revealed. */
  datatype Slot = Slot(id: nat, visible: bool)

  /** `items.map((_, i) => ({ id: i, visible: false }))`. */
  function InitialSlots(n: nat): (slots: seq<Slot>)
    ensures |slots| == n && forall i :: 0 <= i < n ==> slots[i] == Slot(i, false)
  {
    seq(n, i requires 0 <= i < n => Slot(i, false))
  }

  /**
   * A column count as JavaScript computes it: a whole number, or `Infinity`
   * when the width is divided by a zero cell size.
   */
  datatype Columns = Columns(n: nat) | Unbounded

  /**
   * `Math.floor(width / minCellSize) || 1`: the whole cells that fit, and
   * never 0 columns. A zero cell size divides a positive width into
   * `Infinity`, and `0 / 0` is `NaN`, which `|| 1` turns into 1.
   */
  function ColumnsFor(width: nat, minCellSize: nat): (cols: Columns)
    ensures minCellSize > 0 ==> cols.Columns? && cols.n >= 1
    ensures minCellSize > 0 && width >= minCellSize ==> cols.n * minCellSize <= width < (cols.n + 1) * minCellSize
    ensures width < minCellSize ==> cols == Columns(1)
    ensures minCellSize == 0 ==> (cols.Unbounded? <==> width > 0)
  {
    if minCellSize == 0 then
      if width == 0 then Columns(1) else Unbounded
    else
      var n := Cells.CellCount(width, minCellSize);
      if n == 0 then Columns(1) else Columns(n)
  }

  /** `updated[idx] = { ...updated[idx], visible: true }` on a slot list. */
  function RevealSlot(slots: seq<Slot>, idx: nat): (r: seq<Slot>)
    requires idx < |slots|
  {
    slots[idx := slots[idx].(visible := true)]
  }

  /** A reveal shows slot `idx`, keeps its id and every other slot, and a second reveal is a no-op. */
  lemma RevealSlotTouchesOne(slots: seq<Slot>, idx: nat)
    requires idx < |slots|
    ensures var r := RevealSlot(slots, idx);
            && |r| == |slots| && r[idx] == Slot(slots[idx].id, true)
            && (forall i :: 0 <= i < |slots| && i != idx ==> r[i] == slots[i])
            && RevealSlot(r, idx) == r
  {
  }

  /** The reveals of `idxs`, in order. */
  function RevealSlots(slots: seq<Slot>, idxs: seq<nat>): (r: seq<Slot>)
    requires forall k :: 0 <= k < |idxs| ==> idxs[k] < |slots|
    ensures |r| == |slots|
    decreases |idxs|
  {
    if idxs == [] then slots
    else RevealSlot(RevealSlots(slots, idxs[..|idxs| - 1]), idxs[|idxs| - 1])
  }

  /**
   * From the initial slots, the reveals of the first `k` shuffled indices
   * show exactly those slots, and every slot keeps id = position.
   */
  lemma {:induction false} RevealedSlotsArePrefix(n: nat, idxs: seq<nat>)
    requires forall k :: 0 <= k < |idxs| ==> idxs[k] < n
    ensures var r := RevealSlots(InitialSlots(n), idxs);
            forall i :: 0 <= i < n ==> r[i].id == i && (r[i].visible <==> i in idxs)
    decreases |idxs|
  {
    if idxs != [] {
      var front := idxs[..|idxs| - 1];
      RevealedSlotsArePrefix(n, front);
      var before := RevealSlots(InitialSlots(n), front);
      assert RevealSlots(InitialSlots(n), idxs) == RevealSlot(before, idxs[|idxs| - 1]);
      assert idxs == front + [idxs[|idxs| - 1]];
      var last := idxs[|idxs| - 1];
      forall i | 0 <= i < n
        ensures RevealSlots(InitialSlots(n), idxs)[i].id == i
        ensures RevealSlots(InitialSlots(n), idxs)[i].visible <==> i in idxs
      {
        assert i in idxs <==> i in front || i == last;
        if i != last {
          assert RevealSlot(before, last)[i] == before[i];
        }
      }
    }
  }

  /** The component's state. */
  class Wrapper {
    var slots: seq<Slot>
    var cols: Columns
    var timers: seq<Timer>

    constructor (itemCount: nat)
      ensures slots == InitialSlots(itemCount) && cols == Columns(1) && timers == []
    {
      slots := InitialSlots(itemCount);
      cols := Columns(1);
      timers := [];
    }

    /**
     * The effect: nothing while the width is 0; otherwise the column count
     * and a fresh schedule, the `k`-th reveal at `k * staggerDelay`, that
     * reveals each slot once (the previous run's cleanup has cleared the
     * old timers).
     */
    method Layout(width: nat, minCellSize: nat, staggerDelay: nat, picks: seq<Unit>)
      requires |picks| == |slots|
      modifies this
      ensures slots == old(slots)
      ensures width == 0 ==> cols == old(cols) && timers == old(timers)
      ensures width != 0 ==>
                && cols == ColumnsFor(width, minCellSize)
                && IsPermutation(Targets(timers), |slots|)
                && timers == Schedule(Targets(timers), staggerDelay)
    {
      if width == 0 {
        return;
      }
      cols := ColumnsFor(width, minCellSize);
      var allIndices := FisherYates(|slots|, picks);
      var scheduled := Schedule(allIndices, staggerDelay);
      assert Targets(scheduled) == allIndices;
      timers := scheduled;
    }

    /** A timer firing: the reveal of one slot. */
    method Fire(t: Timer)
      requires t.idx < |slots|
      modifies this
      ensures slots == RevealSlot(old(slots), t.idx) && cols == old(cols) && timers == old(timers)
    {
      var updated := slots;
      updated := updated[t.idx := updated[t.idx].(visible := true)];
      slots := updated;
    }
  }
}
