/**
 * components/MathCasesGrid.tsx: the first four cases as labelled tiles in a
 * fixed two-column grid, revealed in a shuffled order on mount and on every
 * window resize.
 */
module CasesGrid {
  import opened Common
  import opened Text
  import opened Draws
  import opened Shuffle
  import opened CaseStore
  import opened CasesGridWrapper

  const BgColors: seq<string> :=
    ["bg-neutral-500", "bg-neutral-600", "bg-neutral-700", "bg-neutral-800", "bg-neutral-900"]
  const HoverColors: seq<string> :=
    ["hover:bg-neutral-900", "hover:bg-neutral-800", "hover:bg-neutral-700", "hover:bg-neutral-600", "hover:bg-neutral-500"]

  /** One tile: its React key, link target, heading text and colour classes. */
  datatype CaseItem = CaseItem(key: int, href: string, title: string, bg: string, hover: string)

  /** `M2_CASE_${String(k + 1).padStart(2, "0")}`. */
  function Label(k: nat): (text: string)
    ensures |text| >= 10 && text[..8] == "M2_CASE_"
    ensures k < 9 ==> text == "M2_CASE_0" + [('0' as int + k + 1) as char]
  {
    var digits := PadStart(Decimal(k + 1), 2, '0');
    if k < 9 then
      PadOneDigit(Decimal(k + 1));
      "M2_CASE_" + digits
    else
      "M2_CASE_" + digits
  }

  /** A one-digit string padded to two places gets one leading zero. */
  lemma PadOneDigit(d: string)
    requires |d| == 1
    ensures PadStart(d, 2, '0') == "0" + d
  {
    assert PadStart(['0'] + d, 2, '0') == ['0'] + d;
  }

  /** The four labels the grid can show. */
  lemma FirstFourLabels()
    ensures Label(0) == "M2_CASE_01" && Label(1) == "M2_CASE_02"
    ensures Label(2) == "M2_CASE_03" && Label(3) == "M2_CASE_04"
  {
    var prefix := "M2_CASE_0";
    assert prefix + ['1'] == "M2_CASE_01" && prefix + ['2'] == "M2_CASE_02";
    assert prefix + ['3'] == "M2_CASE_03" && prefix + ['4'] == "M2_CASE_04";
  }

  /** `cases.slice(0, 4).map(...)`: at most the first four cases, in order. */
  function CaseItems(cases: seq<Case>): (items: seq<CaseItem>)
    ensures |items| == if |cases| < 4 then |cases| else 4
    ensures forall k :: 0 <= k < |items| ==>
              items[k] == CaseItem(cases[k].id, "/cases/" + cases[k].slug, Label(k), BgColors[k % 5], HoverColors[k % 5])
  {
    var first := if |cases| < 4 then cases else cases[..4];
    seq(|first|, k requires 0 <= k < |first| =>
      CaseItem(first[k].id, "/cases/" + first[k].slug, Label(k), BgColors[k % 5], HoverColors[k % 5]))
  }

  /** The shade digit of each background class: 5, 6, 7, 8, 9. */
  lemma BgShades()
    ensures forall k :: 0 <= k < 5 ==> |BgColors[k]| == 14 && BgColors[k][11] == ('5' as int + k) as char
  {
  }

  /**
   * With at most four items the colour index never wraps: item `k` takes
   * the `k`-th colours, so no two items share a background.
   */
  lemma ItemColoursDistinct(cases: seq<Case>)
    ensures var items := CaseItems(cases);
            && (forall k :: 0 <= k < |items| ==> items[k].bg == BgColors[k] && items[k].hover == HoverColors[k])
            && (forall j, k :: 0 <= j < k < |items| ==> items[j].bg != items[k].bg)
  {
    var items := CaseItems(cases);
    assert forall k :: 0 <= k < |items| ==> k % 5 == k;
    BgShades();
    forall j, k | 0 <= j < k < |items| ensures items[j].bg != items[k].bg {
      assert items[j].bg[11] != items[k].bg[11];
    }
  }

  /**
   * One object of the inner wrapper's `cells` array. A timer that writes
   * past the end of the array stores `{ visible: true }`, which has no id.
   */
  datatype GridCell = GridCell(id: Option<nat>, visible: bool)

  /** `items.map((_, i) => ({ id: i, visible: false }))`, as array entries (`None` is a hole). */
  function InitialCells(n: nat): (cells: seq<Option<GridCell>>)
    ensures |cells| == n && forall i :: 0 <= i < n ==> cells[i] == Some(GridCell(Some(i), false))
  {
    seq(n, i requires 0 <= i < n => Some(GridCell(Some(i), false)))
  }

  /** The id `{ ...updated[idx] }` copies: none from a hole or from past the end. */
  function IdAt(cells: seq<Option<GridCell>>, idx: nat): Option<nat> {
    if idx < |cells| && cells[idx].Some? then cells[idx].value.id else None
  }

  /**
   * `updated[idx] = { ...updated[idx], visible: true }` on a JavaScript
   * array: inside the array one entry is replaced; past the end the array
   * grows to `idx + 1`, with holes before the new entry.
   */
  function WriteVisible(cells: seq<Option<GridCell>>, idx: nat): (r: seq<Option<GridCell>>)
    ensures |r| == if idx < |cells| then |cells| else idx + 1
    ensures r[idx] == Some(GridCell(IdAt(cells, idx), true))
    ensures forall i :: 0 <= i < |r| && i != idx ==> r[i] == if i < |cells| then cells[i] else None
  {
    if idx < |cells| then cells[idx := Some(GridCell(IdAt(cells, idx), true))]
    else cells + seq(idx - |cells|, _ => None) + [Some(GridCell(None, true))]
  }

  /**
   * Inside the array the write is the slot reveal: the slot at `idx` keeps
   * its id and becomes visible, every other slot is kept, and writing again
   * changes nothing.
   */
  lemma WriteInsideIsReveal(slots: seq<Slot>, idx: nat)
    requires idx < |slots|
    ensures var cells := seq(|slots|, i requires 0 <= i < |slots| => Some(GridCell(Some(slots[i].id), slots[i].visible)));
            var revealed := RevealSlot(slots, idx);
            && WriteVisible(cells, idx) == seq(|slots|, i requires 0 <= i < |slots| => Some(GridCell(Some(revealed[i].id), revealed[i].visible)))
            && WriteVisible(WriteVisible(cells, idx), idx) == WriteVisible(cells, idx)
  {
  }

  /**
   * When the items grow from `n` to `m` after mount, the new schedule fires
   * index `m - 1`: the array then has `m` entries, the last one visible and
   * without an id, and holes between the old cells and it.
   */
  lemma GrownItemsGetCellsWithoutId(n: nat, m: nat)
    requires n < m
    ensures var r := WriteVisible(InitialCells(n), m - 1);
            && |r| == m
            && r[m - 1] == Some(GridCell(None, true))
            && (forall i :: n <= i < m - 1 ==> r[i] == None)
            && (forall i :: 0 <= i < n ==> r[i] == Some(GridCell(Some(i), false)))
  {
  }

  /**
   * The inner wrapper's state: the cells (set once, from the items at
   * mount), the fixed column count and every timer ever scheduled.
   */
  class InnerWrapper {
    var cells: seq<Option<GridCell>>
    var cols: nat
    var timers: seq<Timer>

    constructor (itemCount: nat)
      ensures cells == InitialCells(itemCount) && cols == 2 && timers == []
    {
      cells := InitialCells(itemCount);
      cols := 2;
      timers := [];
    }

    /**
     * `handleResize`: two columns, and a new shuffled schedule over the
     * current items added to the pending timers; the returned cleanup is
     * dropped, so earlier timers stay pending. The cells are not resized
     * to the items.
     */
    method HandleResize(itemCount: nat, staggerDelay: nat, picks: seq<Unit>)
      requires |picks| == itemCount
      modifies this
      ensures cells == old(cells) && cols == 2
      ensures |timers| == |old(timers)| + itemCount && timers[..|old(timers)|] == old(timers)
      ensures var added := timers[|old(timers)|..];
              IsPermutation(Targets(added), itemCount) && added == Schedule(Targets(added), staggerDelay)
    {
      cols := 2;
      var allIndices := FisherYates(itemCount, picks);
      var scheduled := Schedule(allIndices, staggerDelay);
      assert Targets(scheduled) == allIndices;
      PermutationFacts(allIndices, itemCount);
      timers := timers + scheduled;
      assert timers[|old(timers)|..] == scheduled;
    }

    /** A timer firing: its index made visible, wherever it lies. */
    method Fire(t: Timer)
      modifies this
      ensures cells == WriteVisible(old(cells), t.idx) && cols == old(cols) && timers == old(timers)
    {
      var updated := cells;
      if t.idx < |updated| {
        updated := updated[t.idx := Some(GridCell(IdAt(updated, t.idx), true))];
      } else {
        updated := updated + seq(t.idx - |updated|, _ => None) + [Some(GridCell(None, true))];
      }
      cells := updated;
    }
  }
}
