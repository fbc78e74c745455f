/**
 * The pieces the grid builders share: an `{ idx, char }` entry (a fixed
 * character or a placed word character), the first-match lookup
 * `entries.find((e) => e.idx === i)`, and the two shapes a word run takes
 * in a row-major grid (cell `(row, col)` has index `row * cols + col`).
 */
module Cells {
  import opened Common

  datatype Entry = Entry(idx: int, ch: char)

  predicate Has(entries: seq<Entry>, i: int) {
    exists k :: 0 <= k < |entries| && entries[k].idx == i
  }

  /** `entries.find((e) => e.idx === i)?.char`: the first entry at `i` wins. */
  function Find(entries: seq<Entry>, i: int): (r: Option<char>)
    ensures r.None? <==> !Has(entries, i)
    ensures r.Some? ==> exists k :: 0 <= k < |entries| && entries[k] == Entry(i, r.value)
                                    && forall j :: 0 <= j < k ==> entries[j].idx != i
  {
    if entries == [] then None
    else if entries[0].idx == i then Some(entries[0].ch)
    else
      var r := Find(entries[1..], i);
      assert r.Some? ==> exists k :: 0 <= k < |entries[1..]| && entries[1..][k] == Entry(i, r.value)
                                     && forall j :: 0 <= j < k ==> entries[1..][j].idx != i;
      assert r.Some? ==> exists k :: 1 <= k < |entries| && entries[k] == Entry(i, r.value)
                                     && forall j :: 0 <= j < k ==> entries[j].idx != i by {
        if r.Some? {
          var k :| 0 <= k < |entries[1..]| && entries[1..][k] == Entry(i, r.value)
                   && forall j :: 0 <= j < k ==> entries[1..][j].idx != i;
          assert entries[k + 1] == Entry(i, r.value);
          forall j | 0 <= j < k + 1 ensures entries[j].idx != i {
            if j > 0 { assert entries[j] == entries[1..][j - 1]; }
          }
        }
      }
      r
  }

  /** A run of word cells: along a row from `startCol`, or down a column from `startRow`. */
  datatype Run = Across(row: int, startCol: int) | Down(col: int, startRow: int)

  /** Flat index of the `k`-th cell of a run. */
  function At(run: Run, cols: int, k: int): int {
    match run
    case Across(row, startCol) => row * cols + startCol + k
    case Down(col, startRow) => (startRow + k) * cols + col
  }

  /** The first `n` flat indices of a run. */
  function Indices(run: Run, cols: int, n: nat): (r: seq<int>)
    ensures |r| == n && forall k :: 0 <= k < n ==> r[k] == At(run, cols, k)
  {
    seq(n, k requires 0 <= k < n => At(run, cols, k))
  }

  /** Pairs the `k`-th index with the `k`-th character of `word`. */
  function Label(indices: seq<int>, word: string): (r: seq<Entry>)
    requires |indices| == |word|
    ensures |r| == |word| && forall k :: 0 <= k < |word| ==> r[k] == Entry(indices[k], word[k])
  {
    seq(|word|, k requires 0 <= k < |word| => Entry(indices[k], word[k]))
  }

  /**
   * A horizontal run that fits its row lies in that row, on consecutive
   * columns, inside a grid of `rows` rows.
   */
  lemma AcrossInRow(row: int, startCol: int, cols: int, rows: int, n: nat, k: int)
    requires 0 <= row < rows && 0 <= startCol && startCol + n <= cols && 0 <= k < n
    ensures 0 <= At(Across(row, startCol), cols, k) < cols * rows
    ensures At(Across(row, startCol), cols, k) / cols == row
    ensures At(Across(row, startCol), cols, k) % cols == startCol + k
  {
    var i := row * cols + startCol + k;
    assert row * cols + cols == (row + 1) * cols;
    assert (row + 1) * cols <= rows * cols by { MulMono(row + 1, rows, cols); }
    DivModUnique(i, cols, row, startCol + k);
  }

  /** A vertical run that fits its column lies in that column, inside the grid. */
  lemma DownInColumn(col: int, startRow: int, cols: int, rows: int, n: nat, k: int)
    requires 0 <= col < cols && 0 <= startRow && startRow + n <= rows && 0 <= k < n
    ensures 0 <= At(Down(col, startRow), cols, k) < cols * rows
    ensures At(Down(col, startRow), cols, k) / cols == startRow + k
    ensures At(Down(col, startRow), cols, k) % cols == col
  {
    var r := startRow + k;
    assert r * cols + cols == (r + 1) * cols;
    assert (r + 1) * cols <= rows * cols by { MulMono(r + 1, rows, cols); }
    assert 0 <= r * cols by { MulMono(0, r, cols); }
    DivModUnique(r * cols + col, cols, r, col);
  }

  /** `Math.floor(width / minCellSize)` for whole-pixel sizes. */
  function CellCount(size: nat, minCellSize: nat): (n: nat)
    requires minCellSize > 0
    ensures n * minCellSize <= size < (n + 1) * minCellSize
  {
    var n := size / minCellSize;
    assert (n + 1) * minCellSize == n * minCellSize + minCellSize;
    n
  }

  lemma MulMono(a: int, b: int, c: int)
    requires a <= b && c >= 0
    ensures a * c <= b * c
  {}

  lemma MulStrict(a: int, b: int, c: int)
    requires a < b && c > 0
    ensures a * c < b * c
  {
    assert b * c - a * c == (b - a) * c;
  }

  lemma DivModUnique(i: int, cols: int, q: int, m: int)
    requires cols > 0 && 0 <= m < cols && i == q * cols + m
    ensures i / cols == q && i % cols == m
  {
    var q', m' := i / cols, i % cols;
    assert (q' - q) * cols == m - m';
    if q' > q {
      MulMono(1, q' - q, cols);
    } else if q' < q {
      MulMono(1, q - q', cols);
    }
  }
}
