/**
 * app/sketches/mathGridSketch.ts: a p5 sketch that grows a stream of
 * characters starting from "1+1=2". Every tick appends a digit (now and then
 * a letter of "multi²"), sometimes the whole word, and starts over once the
 * stream no longer fits the grid. Element `i` is drawn at column
 * `i % cols`, row `floor(i / cols)`.
 */
module GridSketch {
  import opened Common
  import opened Draws
  import Cells

  const Initial: seq<char> := ['1', '+', '1', '=', '2']
  const Word: string := "multi²"
  /** How many times the word may appear before no more copies are appended. */
  const WordCount: nat := 8
  const DefaultInterval: int := 100

  /** `w` occurs in `text` at position `i`. */
  predicate OccursAt(text: seq<char>, w: seq<char>, i: nat) {
    i + |w| <= |text| && text[i..i + |w|] == w
  }

  /**
   * `text.match(new RegExp(w, "g"))?.length ?? 0` for a literal `w`: the
   * matches found scanning left to right from position `k`, each search
   * resuming after the previous match. There is one iff `w` occurs at or
   * after `k`.
   */
  function MatchCount(text: seq<char>, w: seq<char>, k: nat): (n: nat)
    requires |w| > 0
    ensures n * |w| <= |text| - k || (n == 0 && k > |text|)
    ensures n > 0 <==> exists i :: k <= i && OccursAt(text, w, i)
    decreases |text| - k
  {
    if k + |w| > |text| then 0
    else if text[k..k + |w|] == w then
      assert OccursAt(text, w, k);
      1 + MatchCount(text, w, k + |w|)
    else
      assert !OccursAt(text, w, k);
      MatchCount(text, w, k + 1)
  }

  /** No match of the word can start inside the last five elements of `text` and run into an appended copy. */
  lemma NoMatchAcrossTheSeam(text: seq<char>, k: nat)
    requires |text| < k + |Word| && k < |text|
    ensures (text + Word)[k..k + |Word|] != Word
  {
    var s := text + Word;
    var j := |text| - k;
    assert s[k + j] == Word[0] == 'm';
    assert Word[j] != 'm';
  }

  /**
   * Appending the word adds exactly one match, whatever the text: "multi²"
   * has no proper prefix that is also a suffix, so no match runs across
   * the seam and the scan of `text` ends where the copy begins.
   */
  lemma {:induction false} AppendingWordAddsOneMatch(text: seq<char>, k: nat)
    requires k <= |text|
    ensures MatchCount(text + Word, Word, k) == MatchCount(text, Word, k) + 1
    decreases |text| - k
  {
    var s := text + Word;
    if k == |text| {
      assert s[k..k + |Word|] == Word;
      assert MatchCount(s, Word, k + |Word|) == 0;
    } else if k + |Word| > |text| {
      NoMatchAcrossTheSeam(text, k);
      AppendingWordAddsOneMatch(text, k + 1);
    } else {
      assert s[k..k + |Word|] == text[k..k + |Word|];
      if text[k..k + |Word|] == Word {
        AppendingWordAddsOneMatch(text, k + |Word|);
      } else {
        AppendingWordAddsOneMatch(text, k + 1);
      }
    }
  }

  /** The draws one tick consumes. */
  datatype TickDraws = TickDraws(digit: Unit, letterCoin: Unit, letter: Unit, wordCoin: Unit)

  /** The element a tick always appends: a letter of the word (only while the grid has room) or a digit. */
  function NextChar(len: nat, cap: nat, d: TickDraws): (c: char)
    ensures d.letterCoin < 0.05 && len < cap ==> c in Word
    ensures !(d.letterCoin < 0.05 && len < cap) ==> '0' <= c <= '9'
  {
    if d.letterCoin < 0.05 && len < cap then Word[FloorMul(d.letter, |Word|)] else Digit(d.digit)
  }

  /** The text after appending the next element and, if the draw says so, the whole word. */
  function Grown(text: seq<char>, cap: nat, d: TickDraws): (r: seq<char>)
  {
    var one := text + [NextChar(|text|, cap, d)];
    if MatchCount(one, Word, 0) < WordCount && d.wordCoin < 0.02 then one + Word else one
  }

  /** One tick's effect on the text once the interval has passed: grow, then start over if the grid is overfull. */
  function TickText(text: seq<char>, cap: nat, d: TickDraws): (r: seq<char>)
    ensures |r| <= cap || r == Initial
  {
    var grown := Grown(text, cap, d);
    if |grown| > cap then Initial else grown
  }

  /**
   * Without a reset the old text is a prefix of the new one, which is one
   * element longer, or seven when the word was appended; the appended word
   * needs fewer than eight matches in the text before it.
   */
  lemma GrowthIsAppendOnly(text: seq<char>, cap: nat, d: TickDraws)
    ensures var r := TickText(text, cap, d);
            r == Initial
            || (|r| > |text| && r[..|text|] == text && r[|text|] == NextChar(|text|, cap, d)
                && (|r| == |text| + 1 || (|r| == |text| + 7 && r[|text| + 1..] == Word
                    && MatchCount(text + [r[|text|]], Word, 0) < WordCount)))
  {
  }

  /**
   * When a tick appends the whole word, the word count grows by exactly
   * one, so from fewer than eight matches it reaches at most eight.
   */
  lemma WordAppendCountsOnce(text: seq<char>, cap: nat, d: TickDraws)
    ensures var one := text + [NextChar(|text|, cap, d)];
            var grown := Grown(text, cap, d);
            |grown| == |one| + |Word| ==>
              MatchCount(grown, Word, 0) == MatchCount(one, Word, 0) + 1 && MatchCount(grown, Word, 0) <= WordCount
  {
    var one := text + [NextChar(|text|, cap, d)];
    if |Grown(text, cap, d)| == |one| + |Word| {
      AppendingWordAddsOneMatch(one, 0);
    }
  }

  /** A reset happens exactly when the grown text no longer fits the grid. */
  lemma ResetWhenOverfull(text: seq<char>, cap: nat, d: TickDraws)
    ensures |Grown(text, cap, d)| > cap ==> TickText(text, cap, d) == Initial
    ensures |Grown(text, cap, d)| <= cap ==> TickText(text, cap, d) == Grown(text, cap, d)
    ensures |text| + 7 <= cap ==> TickText(text, cap, d)[..|text|] == text
  {
  }

  /** Where element `i` is drawn: `(i % cols, floor(i / cols))`; with no columns the position is undefined. */
  datatype Position = Position(col: int, row: int)

  function PositionOf(i: nat, cols: nat): (p: Option<Position>)
    ensures cols == 0 <==> p.None?
    ensures p.Some? ==> 0 <= p.value.col < cols && p.value.row >= 0 && p.value.row * cols + p.value.col == i
  {
    if cols == 0 then None else Some(Position(i % cols, i / cols))
  }

  /** Reading a position back as `row * cols + col` gives the index it was computed from, and no other. */
  lemma PositionRoundTrip(cols: nat, col: nat, row: nat)
    requires col < cols
    ensures PositionOf(row * cols + col, cols) == Some(Position(col, row))
  {
    Cells.DivModUnique(row * cols + col, cols, row, col);
  }

  /**
   * The body of `draw`'s text step: push a digit or a letter, maybe push
   * the whole word one element at a time, and start over when the grid is
   * overfull.
   */
  method StepText(displayText: seq<char>, cap: nat, d: TickDraws) returns (text: seq<char>)
    ensures text == TickText(displayText, cap, d)
  {
    var randNum := Digit(d.digit);
    text := displayText;
    if d.letterCoin < 0.05 && |text| < cap {
      var wordChar := Word[FloorMul(d.letter, |Word|)];
      text := text + [wordChar];
    } else {
      text := text + [randNum];
    }
    var currentWordCount := MatchCount(text, Word, 0);
    if currentWordCount < WordCount && d.wordCoin < 0.02 {
      ghost var before := text;
      for j := 0 to |Word|
        invariant text == before + Word[..j]
      {
        text := text + [Word[j]];
      }
      assert text == before + Word;
    }
    if |text| > cap {
      text := Initial;
    }
  }

  /** The sketch's closure state; `cols` and `rows` are the results of `updateGrid`. */
  class Sketch {
    var displayText: seq<char>
    var lastTime: int
    var cols: nat
    var rows: nat
    var interval: int

    /** `setup`, with the grid size `updateGrid` works out and the `interval` prop if given. */
    constructor (cols: nat, rows: nat, interval: Option<int>)
      ensures displayText == Initial && lastTime == 0 && this.cols == cols && this.rows == rows
      ensures this.interval == if interval.Some? then interval.value else DefaultInterval
    {
      displayText := Initial;
      lastTime := 0;
      this.cols, this.rows := cols, rows;
      this.interval := if interval.Some? then interval.value else DefaultInterval;
    }

    /** `updateWithProps`: a given `interval` replaces the current one. */
    method UpdateWithProps(interval: Option<int>)
      modifies this
      ensures displayText == old(displayText) && lastTime == old(lastTime) && cols == old(cols) && rows == old(rows)
      ensures this.interval == if interval.Some? then interval.value else old(this.interval)
    {
      if interval.Some? {
        this.interval := interval.value;
      }
    }

    /** `windowResized`: the new grid size; the text is kept. */
    method Resize(cols: nat, rows: nat)
      modifies this
      ensures this.cols == cols && this.rows == rows
      ensures displayText == old(displayText) && lastTime == old(lastTime) && interval == old(interval)
    {
      this.cols, this.rows := cols, rows;
    }

    /**
     * The text step of `draw`: nothing until more than `interval` ms have
     * passed, then one tick. `now` is the clock read in the test and `later`
     * the second read stored in `lastTime`.
     */
    method Tick(now: int, later: int, d: TickDraws)
      modifies this
      ensures cols == old(cols) && rows == old(rows) && interval == old(interval)
      ensures now - old(lastTime) > interval ==> displayText == TickText(old(displayText), cols * rows, d) && lastTime == later
      ensures !(now - old(lastTime) > interval) ==> displayText == old(displayText) && lastTime == old(lastTime)
    {
      if now - lastTime > interval {
        displayText := StepText(displayText, cols * rows, d);
        lastTime := later;
      }
    }

    /** The placement loop of `draw`: each element of the text with the cell it is drawn in. */
    method Layout() returns (placed: seq<(char, Option<Position>)>)
      ensures |placed| == |displayText|
      ensures forall i :: 0 <= i < |displayText| ==> placed[i] == (displayText[i], PositionOf(i, cols))
    {
      placed := [];
      for i := 0 to |displayText|
        invariant |placed| == i
        invariant forall k :: 0 <= k < i ==> placed[k] == (displayText[k], PositionOf(k, cols))
      {
        var p := if cols == 0 then None else Some(Position(i % cols, i / cols));
        placed := placed + [(displayText[i], p)];
      }
    }
  }
}
