/**
 * `GridTextContent` (app/utils/GridTextContent.ts): a `cols * rows` grid of
 * text cells with fixed characters, one word placed once at a random spot
 * (no overlap check), and random digits everywhere else. Every cell starts
 * hidden.
 */
module GridText {
  import opened Common
  import opened Draws
  import opened Cells

  datatype TextCell = TextCell(id: nat, ch: char, isFixed: bool, isWord: bool, visible: bool)

  /**
   * The run one placement proposes for a word of `n` characters: a random
   * row and start column, or a random column and start row.
   */
  function ChooseRun(cols: int, rows: int, n: nat, d: Placement): (run: Run)
    ensures run.Across? <==> d.coin < 0.5
    ensures run.Across? && rows > 0 ==> 0 <= run.row < rows
    ensures run.Across? && n <= cols ==> 0 <= run.startCol && run.startCol + n <= cols
    ensures run.Down? && cols > 0 ==> 0 <= run.col < cols
    ensures run.Down? && n <= rows ==> 0 <= run.startRow && run.startRow + n <= rows
  {
    if d.coin < 0.5 then Across(FloorMul(d.first, rows), FloorMul(d.second, cols - n + 1))
    else Down(FloorMul(d.first, cols), FloorMul(d.second, rows - n + 1))
  }

  /** The `{ idx, char }` list of the word's cells; empty when the word is empty. */
  function WordEntries(cols: nat, rows: nat, word: string, d: Placement): (r: seq<Entry>)
    ensures |r| == |word|
  {
    if |word| > 0 then Label(Indices(ChooseRun(cols, rows, |word|, d), cols, |word|), word) else []
  }

  /**
   * When the word fits the chosen orientation, its run lies inside the grid,
   * all in one row (consecutive columns) or all in one column (consecutive
   * rows), and carries the word's characters in order.
   */
  lemma WordRunFits(cols: nat, rows: nat, word: string, d: Placement, k: nat)
    requires 0 <= k < |word|
    requires d.coin < 0.5 ==> |word| <= cols && rows > 0
    requires d.coin >= 0.5 ==> |word| <= rows && cols > 0
    ensures var e := WordEntries(cols, rows, word, d);
            0 <= e[k].idx < cols * rows && e[k].ch == word[k]
    ensures var e := WordEntries(cols, rows, word, d);
            d.coin < 0.5 ==> e[k].idx / cols == e[0].idx / cols && e[k].idx == e[0].idx + k
    ensures var e := WordEntries(cols, rows, word, d);
            d.coin >= 0.5 ==> e[k].idx % cols == e[0].idx % cols && e[k].idx / cols == e[0].idx / cols + k
  {
    var run := ChooseRun(cols, rows, |word|, d);
    match run
    case Across(row, startCol) =>
      AcrossInRow(row, startCol, cols, rows, |word|, k);
      AcrossInRow(row, startCol, cols, rows, |word|, 0);
    case Down(col, startRow) =>
      DownInColumn(col, startRow, cols, rows, |word|, k);
      DownInColumn(col, startRow, cols, rows, |word|, 0);
  }

  /** The word's cells, pushed one by one (lines 26-41). */
  method PlaceWord(cols: nat, rows: nat, word: string, d: Placement) returns (wordCells: seq<Entry>)
    ensures wordCells == WordEntries(cols, rows, word, d)
  {
    wordCells := [];
    if |word| > 0 {
      if d.coin < 0.5 {
        var row := FloorMul(d.first, rows);
        var startCol := FloorMul(d.second, cols - |word| + 1);
        for i := 0 to |word|
          invariant wordCells == WordEntries(cols, rows, word, d)[..i]
        {
          wordCells := wordCells + [Entry(row * cols + (startCol + i), word[i])];
        }
      } else {
        var col := FloorMul(d.first, cols);
        var startRow := FloorMul(d.second, rows - |word| + 1);
        for i := 0 to |word|
          invariant wordCells == WordEntries(cols, rows, word, d)[..i]
        {
          wordCells := wordCells + [Entry((startRow + i) * cols + col, word[i])];
        }
      }
      assert wordCells == WordEntries(cols, rows, word, d)[..|word|];
    }
  }

  /** `fixed?.char ?? wordCell?.char ?? <random digit>`. */
  function CellChar(fixed: Option<char>, wordCell: Option<char>, filler: Unit): char {
    match fixed
    case Some(c) => c
    case None =>
      match wordCell
      case Some(c) => c
      case None => Digit(filler)
  }

  function MakeCell(i: nat, fixedText: seq<Entry>, wordCells: seq<Entry>, filler: Unit): TextCell {
    var fixed := Find(fixedText, i);
    var wordCell := Find(wordCells, i);
    TextCell(i, CellChar(fixed, wordCell, filler), fixed.Some?, wordCell.Some?, false)
  }

  /**
   * The grid `GridTextContent` returns. Cell `i` has id `i`; it is fixed
   * exactly when some fixed entry names index `i` (the first such entry
   * gives its character, so entries outside the grid have no effect); it is
   * a word cell exactly when the word's run passes through `i`; a fixed
   * character wins over a word character, and every other cell shows a digit.
   * No cell starts visible.
   */
  function Layout(cols: nat, rows: nat, fixedText: seq<Entry>, word: string, d: Placement, fill: seq<Unit>)
    : (cells: seq<TextCell>)
    requires |fill| == cols * rows
    ensures |cells| == cols * rows
    ensures forall i :: 0 <= i < |cells| ==> cells[i].id == i && !cells[i].visible
    ensures forall i :: 0 <= i < |cells| ==> (cells[i].isFixed <==> Has(fixedText, i))
    ensures forall i :: 0 <= i < |cells| ==>
              (cells[i].isWord <==> exists k :: 0 <= k < |word| && At(ChooseRun(cols, rows, |word|, d), cols, k) == i)
    ensures forall i :: 0 <= i < |cells| && cells[i].isFixed ==>
              exists k :: 0 <= k < |fixedText| && fixedText[k] == Entry(i, cells[i].ch)
                          && forall j :: 0 <= j < k ==> fixedText[j].idx != i
    ensures forall i :: 0 <= i < |cells| && !cells[i].isFixed && cells[i].isWord ==>
              exists k :: 0 <= k < |word| && At(ChooseRun(cols, rows, |word|, d), cols, k) == i
                          && cells[i].ch == word[k]
    ensures forall i :: 0 <= i < |cells| && !cells[i].isFixed && !cells[i].isWord ==> '0' <= cells[i].ch <= '9'
  {
    var wordCells := WordEntries(cols, rows, word, d);
    var run := ChooseRun(cols, rows, |word|, d);
    assert forall i :: Has(wordCells, i) <==> exists k :: 0 <= k < |word| && At(run, cols, k) == i by {
      forall i ensures Has(wordCells, i) <==> exists k :: 0 <= k < |word| && At(run, cols, k) == i {
        if Has(wordCells, i) {
          var k :| 0 <= k < |wordCells| && wordCells[k].idx == i;
          assert At(run, cols, k) == i;
        }
        if exists k :: 0 <= k < |word| && At(run, cols, k) == i {
          var k :| 0 <= k < |word| && At(run, cols, k) == i;
          assert wordCells[k].idx == i;
        }
      }
    }
    seq(cols * rows, i requires 0 <= i < cols * rows => MakeCell(i, fixedText, wordCells, fill[i]))
  }

  /** `GridTextContent`: the cell list pushed index by index (lines 43-57). */
  method GridTextContent(cols: nat, rows: nat, fixedText: seq<Entry>, word: string, d: Placement, fill: seq<Unit>)
    returns (cells: seq<TextCell>)
    requires |fill| == cols * rows
    ensures cells == Layout(cols, rows, fixedText, word, d, fill)
  {
    var total := cols * rows;
    var wordCells := PlaceWord(cols, rows, word, d);
    cells := [];
    for i := 0 to total
      invariant cells == Layout(cols, rows, fixedText, word, d, fill)[..i]
    {
      var fixed := Find(fixedText, i);
      var wordCell := Find(wordCells, i);
      cells := cells + [TextCell(i, CellChar(fixed, wordCell, fill[i]), fixed.Some?, wordCell.Some?, false)];
    }
    assert cells == Layout(cols, rows, fixedText, word, d, fill)[..total];
  }
}
