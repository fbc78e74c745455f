/**
 * The reveal order the three grid wrappers share (MathHeroGridWrapper,
 * MathCasesGridWrapper and the wrapper inside MathCasesGrid run the same
 * loop): a Fisher-Yates (Knuth) shuffle of the cell indices, done in place
 * on `allIndices`, and one reveal timer per shuffled index at
 * `position * staggerDelay`.
 */
module Shuffle {
  import opened Draws
  import Cells

  /** `[...Array(n).keys()]`. */
  function Range(n: nat): (r: seq<nat>)
    ensures |r| == n && forall i :: 0 <= i < n ==> r[i] == i
  {
    seq(n, i requires 0 <= i < n => i)
  }

  /** `perm` holds each of `0 .. n-1` exactly as often as `Range(n)` does. */
  predicate IsPermutation(perm: seq<nat>, n: nat) {
    multiset(perm) == multiset(Range(n))
  }

  lemma {:induction false} RangeCount(n: nat, x: nat)
    ensures multiset(Range(n))[x] == if x < n then 1 else 0
  {
    if n > 0 {
      RangeCount(n - 1, x);
      assert Range(n) == Range(n - 1) + [n - 1];
    }
  }

  lemma CountAtLeastTwo(s: seq<nat>, j: nat, k: nat)
    requires j < k < |s| && s[j] == s[k]
    ensures multiset(s)[s[j]] >= 2
  {
    assert s == s[..j] + [s[j]] + s[j + 1..k] + [s[k]] + s[k + 1..];
  }

  /**
   * A permutation of `0 .. n-1` has length `n`, holds only indices below
   * `n`, holds each of them, and never repeats one.
   */
  lemma PermutationFacts(perm: seq<nat>, n: nat)
    requires IsPermutation(perm, n)
    ensures |perm| == n
    ensures forall k :: 0 <= k < |perm| ==> perm[k] < n
    ensures forall x :: 0 <= x < n ==> x in perm
    ensures forall j, k :: 0 <= j < k < |perm| ==> perm[j] != perm[k]
  {
    assert |perm| == |multiset(perm)| == |multiset(Range(n))| == n;
    forall k | 0 <= k < |perm| ensures perm[k] < n {
      assert perm[k] in multiset(perm);
      RangeCount(n, perm[k]);
    }
    forall x | 0 <= x < n ensures x in perm {
      RangeCount(n, x);
      assert x in multiset(perm);
    }
    forall j, k | 0 <= j < k < |perm| ensures perm[j] != perm[k] {
      if perm[j] == perm[k] {
        CountAtLeastTwo(perm, j, k);
        RangeCount(n, perm[j]);
        assert false;
      }
    }
  }

  /**
   * The swap loop (`for (let i = n - 1; i > 0; i--)` with
   * `j = Math.floor(Math.random() * (i + 1))`), on the array `allIndices`
   * initialised to `0 .. n-1`; `picks[i]` is the draw made for position `i`.
   * The result is a permutation of the cell indices.
   */
  method FisherYates(n: nat, picks: seq<Unit>) returns (perm: seq<nat>)
    requires |picks| == n
    ensures IsPermutation(perm, n)
  {
    var allIndices := new nat[n](i => i);
    assert allIndices[..] == Range(n);
    var i: int := n - 1;
    while i > 0
      invariant -1 <= i < n
      invariant multiset(allIndices[..]) == multiset(Range(n))
    {
      var j := FloorMul(picks[i], i + 1);
      allIndices[i], allIndices[j] := allIndices[j], allIndices[i];
      i := i - 1;
    }
    perm := allIndices[..];
  }

  /** A pending `setTimeout`: reveal cell `idx` at `at` milliseconds. */
  datatype Timer = Timer(idx: nat, at: nat)

  /** `allIndices.forEach((idx, i) => setTimeout(..., i * staggerDelay))`. */
  function Schedule(perm: seq<nat>, staggerDelay: nat): (timers: seq<Timer>)
    ensures |timers| == |perm|
    ensures forall k :: 0 <= k < |perm| ==> timers[k].idx == perm[k] && timers[k].at == k * staggerDelay
  {
    seq(|perm|, k requires 0 <= k < |perm| => Timer(perm[k], k * staggerDelay))
  }

  /** The cells the timers reveal, in timer order. */
  function Targets(timers: seq<Timer>): (r: seq<nat>)
    ensures |r| == |timers| && forall k :: 0 <= k < |timers| ==> r[k] == timers[k].idx
  {
    seq(|timers|, k requires 0 <= k < |timers| => timers[k].idx)
  }

  /**
   * Over a permutation of `n` cells the schedule has one timer per cell and
   * no cell twice, its times never decrease, and the last reveal is at
   * `(n - 1) * staggerDelay`.
   */
  lemma ScheduleRevealsEachCellOnce(perm: seq<nat>, n: nat, staggerDelay: nat)
    requires IsPermutation(perm, n)
    ensures var timers := Schedule(perm, staggerDelay);
            && |timers| == n
            && IsPermutation(Targets(timers), n)
            && (forall j, k :: 0 <= j < k < n ==> timers[j].idx != timers[k].idx)
            && (forall j, k :: 0 <= j <= k < n ==> timers[j].at <= timers[k].at)
            && (forall k :: 0 <= k < n ==> timers[k].at <= (n - 1) * staggerDelay)
            && (n > 0 ==> timers[n - 1].at == (n - 1) * staggerDelay)
  {
    PermutationFacts(perm, n);
    var timers := Schedule(perm, staggerDelay);
    assert Targets(timers) == perm;
    forall j, k | 0 <= j <= k < n ensures timers[j].at <= timers[k].at {
      Cells.MulMono(j, k, staggerDelay);
    }
    forall k | 0 <= k < n ensures timers[k].at <= (n - 1) * staggerDelay {
      Cells.MulMono(k, n - 1, staggerDelay);
    }
  }
}
