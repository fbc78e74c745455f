/**
 * components/P5MathGrid.tsx: a p5 sketch of digits with "1+1=" pinned in
 * its first cells. Cells appear one per frame; pressing or dragging over a
 * cell flips it between its digit and its letter of "MULTI2", at most once
 * per press. The pointer is given as the cell under it, if any.
 */
module P5Grid {
  import opened Common
  import opened Draws

  const Word: string := "MULTI2"
  const FixedValues: string := "1+1="

  /** `fixedCells.includes(i)` with `fixedCells = [0, 1, 2, 3]`. */
  predicate IsFixed(i: int) {
    0 <= i < 4
  }

  /** An RGB triple, `[number, number, number]`. */
  type Rgb = c: seq<int> | |c| == 3 witness [0, 0, 0]

  const White: Rgb := [255, 255, 255]
  const Black: Rgb := [0, 0, 0]

  /** `c.map((v) => 255 - v)`. */
  function Invert(c: Rgb): Rgb {
    seq(3, i requires 0 <= i < 3 => 255 - c[i])
  }

  /** One drawn cell: its character, background and text colour. */
  datatype Look = Look(ch: char, bg: Rgb, fg: Rgb)

  /**
   * How a cell is drawn: its word letter once toggled and its digit before;
   * white on black unless pinned or toggled, black on white then; both
   * colours inverted under the pointer.
   */
  function Appearance(isFixed: bool, isToggled: bool, numberCh: char, wordCh: char, hovered: bool): (look: Look)
    ensures look.ch == if isToggled then wordCh else numberCh
    ensures look.fg == Invert(look.bg)
    ensures look.bg == (if (isFixed || isToggled) != hovered then White else Black)
  {
    var ch := if isToggled then wordCh else numberCh;
    var bg := if isFixed || isToggled then White else Black;
    var fg := if isFixed || isToggled then Black else White;
    if hovered then Look(ch, Invert(bg), Invert(fg)) else Look(ch, bg, fg)
  }

  /** Hovering inverts both colours of a cell and keeps its character; inverting twice restores a colour. */
  lemma HoverInverts(isFixed: bool, isToggled: bool, numberCh: char, wordCh: char, c: Rgb)
    ensures var plain := Appearance(isFixed, isToggled, numberCh, wordCh, false);
            Appearance(isFixed, isToggled, numberCh, wordCh, true) == Look(plain.ch, Invert(plain.bg), Invert(plain.fg))
    ensures Invert(Invert(c)) == c
  {
  }

  /** The two flag arrays of the sketch as values: what is toggled and what the current press has reached. */
  datatype Marks = Marks(toggled: seq<bool>, dragged: seq<bool>)

  /**
   * `handlePointer` then `toggleCell` on the cell under the pointer: a
   * pinned cell, a cell outside the grid or one the press already reached
   * stays as it is; any other cell flips and is marked as reached.
   */
  function Pointer(m: Marks, hit: Option<nat>): (r: Marks)
    requires |m.toggled| == |m.dragged|
    ensures |r.toggled| == |r.dragged| == |m.toggled|
    ensures forall i :: 0 <= i < |m.toggled| && hit != Some(i) ==> r.toggled[i] == m.toggled[i] && r.dragged[i] == m.dragged[i]
    ensures hit.Some? && hit.value < |m.toggled| ==>
              r.dragged[hit.value] == (m.dragged[hit.value] || !IsFixed(hit.value))
              && r.toggled[hit.value] == (m.toggled[hit.value] != (!IsFixed(hit.value) && !m.dragged[hit.value]))
  {
    if hit.Some? && hit.value < |m.toggled| && !IsFixed(hit.value) && !m.dragged[hit.value] then
      Marks(m.toggled[hit.value := !m.toggled[hit.value]], m.dragged[hit.value := true])
    else
      m
  }

  /** One press from toggle state `start`: `dragToggled.fill(false)`, then each pointer event of the press in order. */
  function Press(start: seq<bool>, hits: seq<Option<nat>>): (r: Marks)
    ensures |r.toggled| == |r.dragged| == |start|
  {
    if hits == [] then Marks(start, seq(|start|, _ => false))
    else Pointer(Press(start, hits[..|hits| - 1]), hits[|hits| - 1])
  }

  /** Some event of the press was over the unpinned cell `i`. */
  predicate Visited(hits: seq<Option<nat>>, i: nat) {
    !IsFixed(i) && exists k :: 0 <= k < |hits| && hits[k] == Some(i)
  }

  /**
   * Within one press every cell flips at most once, however often the
   * pointer passes over it: after the press a cell differs from its state at
   * the press exactly when the press visited it and it is not pinned.
   */
  lemma {:induction false} PressFlipsVisitedCellsOnce(start: seq<bool>, hits: seq<Option<nat>>)
    ensures forall i :: 0 <= i < |start| ==>
              Press(start, hits).dragged[i] == Visited(hits, i)
              && Press(start, hits).toggled[i] == (start[i] != Visited(hits, i))
  {
    if hits != [] {
      var front := hits[..|hits| - 1];
      PressFlipsVisitedCellsOnce(start, front);
      forall i | 0 <= i < |start|
        ensures Visited(hits, i) == (Visited(front, i) || (!IsFixed(i) && hits[|hits| - 1] == Some(i)))
      {
        if Visited(front, i) {
          var k :| 0 <= k < |front| && front[k] == Some(i);
          assert hits[k] == Some(i);
        }
        if Visited(hits, i) {
          var k :| 0 <= k < |hits| && hits[k] == Some(i);
          if k < |front| {
            assert front[k] == Some(i);
          }
        }
      }
    }
  }

  /** The sketch's closure state. */
  class Sketch {
    var cols: nat
    var rows: nat
    var sequenceNumbers: seq<char>
    var sequenceWord: seq<char>
    var toggledCells: array<bool>
    var dragToggled: array<bool>
    var animateIndex: nat
    var lastTime: int

    /** One entry per cell everywhere, the two flag arrays distinct, the animation within the grid. */
    ghost predicate Valid()
      reads this
    {
      && toggledCells != dragToggled
      && |sequenceNumbers| == |sequenceWord| == toggledCells.Length == dragToggled.Length == cols * rows
      && animateIndex <= cols * rows
    }

    /** The flag arrays as values. */
    ghost function MarksNow(): Marks
      reads this, toggledCells, dragToggled
    {
      Marks(toggledCells[..], dragToggled[..])
    }

    /**
     * `setup`: `cols * rows` cells, "1", "+", "1", "=" at 0-3 and a digit
     * elsewhere, the word cells spelling "MULTI2" over and over, nothing
     * toggled.
     */
    constructor Setup(cols: nat, rows: nat, digits: seq<Unit>)
      requires |digits| == cols * rows
      ensures Valid() && fresh(toggledCells) && fresh(dragToggled)
      ensures this.cols == cols && this.rows == rows && animateIndex == 0 && lastTime == 0
      ensures forall i :: 0 <= i < cols * rows ==>
                sequenceNumbers[i] == (if IsFixed(i) then FixedValues[i] else Digit(digits[i]))
      ensures forall i :: 0 <= i < cols * rows ==> sequenceWord[i] == Word[i % 6]
      ensures forall i :: 0 <= i < cols * rows ==> !toggledCells[i] && !dragToggled[i]
    {
      var total := cols * rows;
      this.cols, this.rows := cols, rows;
      sequenceNumbers := seq(total, i requires 0 <= i < total => if IsFixed(i) then FixedValues[i] else Digit(digits[i]));
      sequenceWord := seq(total, i requires 0 <= i < total => Word[i % 6]);
      toggledCells := new bool[total](_ => false);
      dragToggled := new bool[total](_ => false);
      animateIndex, lastTime := 0, 0;
    }

    /**
     * `toggleCell(i)`: a pinned cell never changes; otherwise the cell flips
     * the first time the current press reaches it and later calls do nothing.
     */
    method ToggleCell(i: nat)
      requires Valid() && i < cols * rows
      modifies toggledCells, dragToggled
      ensures MarksNow() == Pointer(old(MarksNow()), Some(i))
    {
      if IsFixed(i) {
        return;
      }
      if !dragToggled[i] {
        toggledCells[i] := !toggledCells[i];
        dragToggled[i] := true;
      }
    }

    /** `handlePointer`: toggles the cell under the pointer, if there is one. */
    method HandlePointer(hit: Option<nat>)
      requires Valid()
      modifies toggledCells, dragToggled
      ensures MarksNow() == Pointer(old(MarksNow()), hit)
    {
      if hit.Some? && hit.value < cols * rows {
        ToggleCell(hit.value);
      } else {
        assert toggledCells[..] == old(toggledCells[..]);
      }
    }

    /** `mousePressed`: clears `dragToggled`, which starts a new press, then handles the pointer. */
    method MousePressed(hit: Option<nat>)
      requires Valid()
      modifies dragToggled, toggledCells
      ensures MarksNow() == Press(old(toggledCells[..]), [hit])
    {
      for i := 0 to dragToggled.Length
        modifies dragToggled
        invariant forall j :: 0 <= j < i ==> !dragToggled[j]
      {
        dragToggled[i] := false;
      }
      assert dragToggled[..] == seq(cols * rows, _ => false);
      HandlePointer(hit);
    }

    /** `mouseDragged`: handles the pointer within the current press. */
    method MouseDragged(hit: Option<nat>)
      requires Valid()
      modifies toggledCells, dragToggled
      ensures MarksNow() == Pointer(old(MarksNow()), hit)
    {
      HandlePointer(hit);
    }

    /**
     * The load animation step of `draw`: one more cell appears when more than
     * `interval` ms have passed and not all cells are shown yet. `now` is the
     * clock read in the test and `later` the second read stored in
     * `lastTime`.
     */
    method Tick(now: int, later: int, interval: int)
      requires Valid()
      modifies this
      ensures Valid()
      ensures cols == old(cols) && rows == old(rows)
      ensures toggledCells == old(toggledCells) && dragToggled == old(dragToggled)
      ensures sequenceNumbers == old(sequenceNumbers) && sequenceWord == old(sequenceWord)
      ensures now - old(lastTime) > interval && old(animateIndex) < cols * rows ==>
                animateIndex == old(animateIndex) + 1 && lastTime == later
      ensures !(now - old(lastTime) > interval && old(animateIndex) < cols * rows) ==>
                animateIndex == old(animateIndex) && lastTime == old(lastTime)
    {
      if now - lastTime > interval && animateIndex < |sequenceNumbers| {
        animateIndex := animateIndex + 1;
        lastTime := later;
      }
    }

    /** The frame `draw` paints: the first `animateIndex` cells, as `Appearance` says. */
    method Render(hover: Option<nat>) returns (looks: seq<Look>)
      requires Valid()
      ensures |looks| == animateIndex
      ensures forall i :: 0 <= i < animateIndex ==>
                looks[i] == Appearance(IsFixed(i), toggledCells[i], sequenceNumbers[i], sequenceWord[i], hover == Some(i))
    {
      looks := [];
      for i := 0 to animateIndex
        invariant |looks| == i
        invariant forall j :: 0 <= j < i ==>
                    looks[j] == Appearance(IsFixed(j), toggledCells[j], sequenceNumbers[j], sequenceWord[j], hover == Some(j))
      {
        var isFixed := IsFixed(i);
        var isToggled := toggledCells[i];
        var ch := if isToggled then sequenceWord[i] else sequenceNumbers[i];
        var bg := if isFixed || isToggled then White else Black;
        var fg := if isFixed || isToggled then Black else White;
        if hover == Some(i) {
          bg, fg := Invert(bg), Invert(fg);
        }
        looks := looks + [Look(ch, bg, fg)];
      }
    }
  }
}
