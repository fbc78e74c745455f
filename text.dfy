/**
 * String helpers behind the media classification and labels: ASCII
 * case-insensitive matching (what a JavaScript regular expression with the
 * `i` flag does for the ASCII patterns used here), `split(sep).pop()`,
 * `split(sep)[0]`, `String(n)` and `padStart`.
 */
module Text {
  /** ASCII lower-casing; the patterns matched in this project are ASCII. */
  function Lower(c: char): char {
    if 'A' <= c <= 'Z' then (c as int + 32) as char else c
  }

  /** `s` matches the lower-case pattern `p` at position `k`, ignoring ASCII case. */
  predicate MatchesAt(s: string, k: nat, p: string)
    requires k + |p| <= |s|
  {
    forall j :: 0 <= j < |p| ==> Lower(s[k + j]) == p[j]
  }

  /** Some match of `p` starts at or after position `k`. */
  function ContainsFrom(s: string, p: string, k: nat): (b: bool)
    decreases |s| - k
    ensures b <==> exists i :: k <= i && i + |p| <= |s| && MatchesAt(s, i, p)
  {
    if k + |p| > |s| then false
    else if MatchesAt(s, k, p) then true
    else ContainsFrom(s, p, k + 1)
  }

  /** The unanchored test `/p/i.test(s)` for a literal lower-case pattern `p`. */
  function ContainsCI(s: string, p: string): (b: bool)
    ensures b <==> exists i :: 0 <= i && i + |p| <= |s| && MatchesAt(s, i, p)
  {
    ContainsFrom(s, p, 0)
  }

  /** The end-anchored test `/p$/i.test(s)` for a literal lower-case pattern `p`. */
  predicate EndsWithCI(s: string, p: string) {
    |p| <= |s| && MatchesAt(s, |s| - |p|, p)
  }

  /** `s.split(sep).pop()`: the text after the last `sep`, or all of `s`. */
  function AfterLast(s: string, sep: char): (r: string)
    ensures sep !in r
    ensures |r| <= |s| && r == s[|s| - |r|..]
    ensures |r| == |s| || s[|s| - |r| - 1] == sep
  {
    if s == [] then []
    else if s[|s| - 1] == sep then []
    else AfterLast(s[..|s| - 1], sep) + [s[|s| - 1]]
  }

  /** The text after the last `sep` of `prefix + [sep] + segment` is `segment`, when `segment` has no `sep`. */
  lemma {:induction false} AfterLastOfJoined(prefix: string, sep: char, segment: string)
    requires sep !in segment
    ensures AfterLast(prefix + [sep] + segment, sep) == segment
  {
    var s := prefix + [sep] + segment;
    if segment != [] {
      var front := segment[..|segment| - 1];
      assert segment[|segment| - 1] in segment;
      assert s[..|s| - 1] == prefix + [sep] + front;
      AfterLastOfJoined(prefix, sep, front);
      assert segment == front + [segment[|segment| - 1]];
    }
  }

  /** `s.split(sep)[0]`: the text before the first `sep`, or all of `s`. */
  function BeforeFirst(s: string, sep: char): (r: string)
    ensures sep !in r
    ensures |r| <= |s| && r == s[..|r|]
    ensures |r| == |s| || s[|r|] == sep
  {
    if s == [] then []
    else if s[0] == sep then []
    else [s[0]] + BeforeFirst(s[1..], sep)
  }

  /** The text before the first `sep` of `head + [sep] + rest` is `head`, when `head` has no `sep`. */
  lemma {:induction false} BeforeFirstOfJoined(head: string, sep: char, rest: string)
    requires sep !in head
    ensures BeforeFirst(head + [sep] + rest, sep) == head
  {
    var s := head + [sep] + rest;
    if head != [] {
      assert head[0] in head;
      assert s[1..] == head[1..] + [sep] + rest;
      BeforeFirstOfJoined(head[1..], sep, rest);
      assert head == [head[0]] + head[1..];
    }
  }

  predicate IsDigit(c: char) {
    '0' <= c <= '9'
  }

  /** The number a string of decimal digits spells, most significant digit first. */
  function DigitsValue(s: string): nat
    requires forall i :: 0 <= i < |s| ==> IsDigit(s[i])
  {
    if s == [] then 0
    else
      var d := s[|s| - 1];
      assert IsDigit(d);
      10 * DigitsValue(s[..|s| - 1]) + (d as int - '0' as int)
  }

  /** `String(n)` for a natural number: its decimal digits. */
  function Decimal(n: nat): (r: string)
    ensures |r| >= 1 && forall i :: 0 <= i < |r| ==> IsDigit(r[i])
    ensures n < 10 ==> r == [('0' as int + n) as char]
  {
    if n < 10 then [('0' as int + n) as char]
    else Decimal(n / 10) + [('0' as int + n % 10) as char]
  }

  /** The digits of `String(n)` spell `n`, with no leading zero. */
  lemma {:induction false} DecimalSpellsNumber(n: nat)
    ensures DigitsValue(Decimal(n)) == n
    ensures |Decimal(n)| > 1 ==> Decimal(n)[0] != '0'
  {
    if n >= 10 {
      DecimalSpellsNumber(n / 10);
      var front := Decimal(n / 10);
      var r := Decimal(n);
      assert r == front + [('0' as int + n % 10) as char];
      assert r[..|r| - 1] == front;
      assert r[0] == front[0];
    }
  }

  /** `s.padStart(width, [c])`. */
  function PadStart(s: string, width: nat, c: char): (r: string)
    ensures |r| == if |s| >= width then |s| else width
    ensures r[|r| - |s|..] == s
    ensures forall i :: 0 <= i < |r| - |s| ==> r[i] == c
    decreases width - |s|
  {
    if |s| >= width then s else PadStart([c] + s, width, c)
  }
}
