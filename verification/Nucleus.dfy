/**
 Nucleus (top-p) selection: the smallest set of top tokens that carries a share p of the total weight,
 found by sorting only as many tokens as a bound on the unsorted rest requires.
 */
module Nucleus {
  import opened Pigeonhole
  import opened PartialSorting

  const INITIAL_CANDIDATES: nat := 16
  const GROWTH_FACTOR: nat := 4

  /** What the exponential is used for: it is positive and never decreases. */
  ghost predicate IsWeighting(exp: real -> real) {
    && (forall x :: exp(x) > 0.0)
    && (forall x, y | x <= y :: exp(x) <= exp(y))
  }

  /** A product; named so that proofs can treat it as one term. */
  function Times(x: real, y: real): real {
    x * y
  }

  /** Scores turned into weights. */
  datatype Weights = Weights(scores: seq<real>, max: real, invTemp: real, exp: real -> real)
  {
    ghost predicate Valid() {
      0.0 < invTemp && IsWeighting(exp)
    }

    function At(i: nat): real
      requires i < |scores|
    {
      exp((scores[i] - max) * invTemp)
    }
  }

  lemma {:induction false} WeightMonotone(w: Weights, i: nat, j: nat)
    requires w.Valid() && i < |w.scores| && j < |w.scores| && w.scores[i] <= w.scores[j]
    ensures 0.0 < w.At(i) <= w.At(j)
  {
    Scale(w.scores[i] - w.max, w.scores[j] - w.max, w.invTemp);
  }

  lemma {:induction false} Scale(x: real, y: real, c: real)
    requires x <= y && 0.0 <= c
    ensures x * c <= y * c
  {}

  /** The weight of the first n tokens of a list. */
  ghost function Sum(w: Weights, s: seq<nat>, n: nat): real
    requires n <= |s| && Below(s, |w.scores|)
  {
    if n == 0 then 0.0 else Sum(w, s, n - 1) + w.At(s[n - 1])
  }

  /** The weight of the whole vocabulary. */
  ghost function Total(w: Weights, n: nat): real
    requires n <= |w.scores|
  {
    if n == 0 then 0.0 else Total(w, n - 1) + w.At(n - 1)
  }

  // ----- sums over lists

  lemma {:induction false} SumAgrees(w: Weights, s: seq<nat>, t: seq<nat>, n: nat)
    requires n <= |s| && n <= |t| && Below(s, |w.scores|) && Below(t, |w.scores|) && s[..n] == t[..n]
    ensures Sum(w, s, n) == Sum(w, t, n)
  {
    if 0 < n {
      assert s[n - 1] == s[..n][n - 1] == t[n - 1];
      assert s[..n - 1] == s[..n][..n - 1] == t[..n - 1];
      SumAgrees(w, s, t, n - 1);
    }
  }

  function Without(s: seq<nat>, j: nat): seq<nat>
    requires j < |s|
  {
    s[..j] + s[j + 1..]
  }

  lemma {:induction false} WithoutIs(s: seq<nat>, j: nat)
    requires j < |s|
    ensures |Without(s, j)| == |s| - 1
    ensures forall i | 0 <= i < |s| - 1 :: Without(s, j)[i] == if i < j then s[i] else s[i + 1]
  {}

  /** Taking one token out of a list takes its weight out of the sum. */
  lemma {:induction false} SumWithout(w: Weights, s: seq<nat>, j: nat, n: nat)
    requires j < n <= |s| && Below(s, |w.scores|)
    ensures Below(Without(s, j), |w.scores|) && n - 1 <= |Without(s, j)|
    ensures Sum(w, s, n) == Sum(w, Without(s, j), n - 1) + w.At(s[j])
  {
    WithoutIs(s, j);
    hide Without;
    if j == n - 1 {
      assert s[..j] == Without(s, j)[..j];
      SumAgrees(w, s, Without(s, j), j);
    } else {
      SumWithout(w, s, j, n - 1);
    }
  }

  lemma {:induction false} DistinctWithout(s: seq<nat>, j: nat)
    requires j < |s| && Distinct(s)
    ensures Distinct(Without(s, j)) && s[j] !in Without(s, j)
    ensures forall n | Below(s, n) :: Below(Without(s, j), n)
  {
    WithoutIs(s, j);
    hide Without;
  }

  /** Every order of the vocabulary has the same total weight. */
  lemma {:induction false} SumOfPermutation(w: Weights, s: seq<nat>)
    requires IsPermutation(s) && |s| <= |w.scores|
    ensures Below(s, |w.scores|) && Sum(w, s, |s|) == Total(w, |s|)
  {
    if s != [] {
      var n := |s|;
      var j := HitsAll(s, n - 1);
      SumWithout(w, s, j, n);
      DistinctWithout(s, j);
      WithoutIs(s, j);
      hide Without;
      var t := Without(s, j);
      forall i | 0 <= i < |t| ensures t[i] < n - 1 { assert t[i] in t && t[i] < n; }
      SumOfPermutation(w, t);
    }
  }

  lemma {:induction false} SumPositive(w: Weights, s: seq<nat>, m: nat, n: nat)
    requires w.Valid() && m <= n <= |s| && Below(s, |w.scores|)
    ensures 0.0 <= Sum(w, s, m) <= Sum(w, s, n)
  {
    if 0 < n {
      WeightMonotone(w, s[n - 1], s[n - 1]);
      if m < n { SumPositive(w, s, m, n - 1); } else { SumPositive(w, s, m - 1, n - 1); }
    }
  }

  /** The weight of the rest is at most the bound per token times their number. */
  lemma {:induction false} TailBound(w: Weights, s: seq<nat>, m: nat, n: nat, bound: real)
    requires m <= n <= |s| && Below(s, |w.scores|)
    requires forall i | m <= i < n :: w.At(s[i]) <= bound
    ensures Sum(w, s, n) - Sum(w, s, m) <= Times((n - m) as real, bound)
  {
    if m < n {
      TailBound(w, s, m, n - 1, bound);
      Distribute((n - 1 - m) as real, bound);
    }
  }

  lemma {:induction false} Distribute(x: real, y: real)
    ensures (x + 1.0) * y == x * y + y
  {}

  // ----- what a nucleus is

  /** The first cutoff tokens carry at least a share p of the weight. */
  ghost predicate Carries(w: Weights, s: seq<nat>, p: real, cutoff: nat)
    requires Below(s, |w.scores|)
  {
    cutoff <= |s| && Sum(w, s, cutoff) >= Times(p, Total(w, |w.scores|))
  }

  /** The tail bound is safe: when it is met, the tokens up to i carry enough. */
  lemma {:induction false} BoundSuffices(w: Weights, s: seq<nat>, p: real, i: nat)
    requires w.Valid() && 0.0 < p && |s| == |w.scores| && IsPermutation(s) && i < |s|
             && SortedPart(s, w.scores, 0, i + 1)
    requires Sum(w, s, i + 1) >= Times(p, Sum(w, s, i + 1) + Times((|s| - i - 1) as real, w.At(s[i])))
    ensures Carries(w, s, p, i + 1)
  {
    hide Sum, Total, Distinct, Times, Weights.At;
    forall j | i + 1 <= j < |s| ensures w.At(s[j]) <= w.At(s[i]) { WeightMonotone(w, s[j], s[i]); }
    TailBound(w, s, i + 1, |s|, w.At(s[i]));
    SumOfPermutation(w, s);
    Enough(Sum(w, s, i + 1), Times((|s| - i - 1) as real, w.At(s[i])), Total(w, |s|), p);
  }

  lemma {:induction false} Enough(prefix: real, tail: real, total: real, p: real)
    requires prefix >= Times(p, prefix + tail) && total <= prefix + tail && 0.0 <= p
    ensures prefix >= Times(p, total)
  {
    Scale(total, prefix + tail, p);
  }

  lemma {:induction false} WholeCarries(w: Weights, s: seq<nat>, p: real)
    requires w.Valid() && p <= 1.0 && |s| == |w.scores| && IsPermutation(s)
    ensures Carries(w, s, p, |s|) && Sum(w, s, |s|) == Total(w, |s|)
  {
    hide Sum, Total, Times, IsPermutation;
    SumOfPermutation(w, s);
    WholeIsPositive(w, s);
    AtMostWhole(p, Total(w, |s|));
  }

  lemma {:induction false} WholeIsPositive(w: Weights, s: seq<nat>)
    requires w.Valid() && |s| == |w.scores| && IsPermutation(s)
    ensures 0.0 <= Sum(w, s, |s|)
  {
    SumPositive(w, s, 0, |s|);
  }

  lemma {:induction false} AtMostWhole(p: real, x: real)
    requires p <= 1.0 && 0.0 <= x
    ensures Times(p, x) <= x
  {
    Scale(p, 1.0, x);
  }

  lemma {:induction false} EmptyCarriesNothing(w: Weights, s: seq<nat>, p: real)
    requires w.Valid() && 0.0 < p && 0 < |s| == |w.scores| && IsPermutation(s)
    ensures !Carries(w, s, p, 0)
  {
    SumOfPermutation(w, s);
    SumPositive(w, s, 1, |s|);
    assert Sum(w, s, 1) == Sum(w, s, 0) + w.At(s[0]);
    WeightMonotone(w, s[0], s[0]);
    ProductPositive(p, Total(w, |s|));
  }

  lemma {:induction false} ProductPositive(x: real, y: real)
    requires 0.0 < x && 0.0 < y
    ensures 0.0 < Times(x, y)
  {}

  /** Among all sets of k tokens, the k top ones weigh most. */
  lemma {:induction false} TopWeighsMost(w: Weights, s: seq<nat>, t: seq<nat>)
    requires w.Valid() && |s| == |w.scores| && IsPermutation(s) && |t| <= |s| && SortedPart(s, w.scores, 0, |t|)
    requires Distinct(t) && Below(t, |s|)
    ensures Sum(w, t, |t|) <= Sum(w, s, |t|)
  {
    if t != [] {
      var k := |t|;
      var j := OutsidePrefix(s, t);
      var at := HitsAll(s, t[j]);
      WeightMonotone(w, t[j], s[k - 1]);
      SumWithout(w, t, j, k);
      DistinctWithout(t, j);
      WithoutIs(t, j);
      TopWeighsMost(w, s, Without(t, j));
    }
  }

  /** One of k different tokens is not among the first k - 1 of the order. */
  lemma {:induction false} OutsidePrefix(s: seq<nat>, t: seq<nat>) returns (j: nat)
    requires t != [] && |t| <= |s| && IsPermutation(s) && Distinct(t) && Below(t, |s|)
    ensures j < |t| && forall i | 0 <= i < |t| - 1 :: s[i] != t[j]
  {
    var prefix := s[..|t| - 1];
    if forall x | x in t :: x in prefix {
      DistinctCardinality(t);
      DistinctCardinality(prefix);
      SubsetCardinality(Elements(t), Elements(prefix));
      assert false;
    }
    var x :| x in t && x !in prefix;
    j :| 0 <= j < |t| && t[j] == x;
    assert forall i | 0 <= i < |t| - 1 :: prefix[i] == s[i];
  }

  // ----- the search

  /** What the search promises: an order of the vocabulary whose first cutoff tokens are the top ones, best
      first, and carry a share p of the weight. */
  ghost predicate IsNucleus(w: Weights, s: seq<nat>, p: real, cutoff: nat) {
    && |s| == |w.scores| && IsPermutation(s)
    && SortedPart(s, w.scores, 0, cutoff)
    && Carries(w, s, p, cutoff)
  }

  /** No shorter prefix carries enough. */
  ghost predicate Shortest(w: Weights, s: seq<nat>, p: real, cutoff: nat) {
    && Below(s, |w.scores|) && cutoff <= |s|
    && forall k | 0 <= k < cutoff :: !Carries(w, s, p, k)
  }

  /** Then no smaller set of tokens carries enough either. */
  lemma {:induction false} ShortestIsSmallest(w: Weights, s: seq<nat>, p: real, cutoff: nat, t: seq<nat>)
    requires w.Valid() && IsNucleus(w, s, p, cutoff) && Shortest(w, s, p, cutoff)
    requires Distinct(t) && Below(t, |s|) && |t| < cutoff
    ensures Sum(w, t, |t|) < Times(p, Total(w, |w.scores|))
  {
    hide Times, Sum, Total;
    TopWeighsMost(w, s, t);
    assert !Carries(w, s, p, |t|);
  }

  /** Even if all tokens after the first k weighed as much as the k-th, the first k would carry enough. */
  ghost predicate MeetsBound(w: Weights, s: seq<nat>, p: real, k: nat)
    requires Below(s, |w.scores|)
  {
    0 < k <= |s| && Sum(w, s, k) >= Times(p, Sum(w, s, k) + Times((|s| - k) as real, w.At(s[k - 1])))
  }

  /** The numbers of tokens after which the search sorts more: 16, 64, 256 and so on. */
  ghost predicate BatchEnd(k: nat) {
    k == 16 || (64 <= k && k % 4 == 0 && BatchEnd(k / 4))
  }

  /** A bound that is met at a batch end is passed over, unless that is the whole vocabulary. */
  ghost predicate CanStop(k: nat, vocab: nat) {
    k == vocab || !BatchEnd(k)
  }

  /** The search stops at the first length that meets the bound, batch ends aside. */
  ghost predicate FirstStop(w: Weights, s: seq<nat>, p: real, cutoff: nat) {
    && Below(s, |w.scores|) && CanStop(cutoff, |s|) && MeetsBound(w, s, p, cutoff)
    && forall k | 0 < k < cutoff && CanStop(k, |s|) :: !MeetsBound(w, s, p, k)
  }

  /** Nothing stopped the search among the first n lengths. */
  ghost predicate NoStop(w: Weights, s: seq<nat>, p: real, n: nat) {
    Below(s, |w.scores|) && forall k | 0 < k <= n && CanStop(k, |s|) :: !MeetsBound(w, s, p, k)
  }

  lemma {:induction false} BatchGap(a: nat, b: nat)
    requires BatchEnd(a) && BatchEnd(b) && a < b
    ensures 4 * a <= b
    decreases b
  {
    if a != 16 && b != 16 { BatchGap(a / 4, b / 4); }
  }

  lemma {:induction false} BatchAtLeast(a: nat)
    requires BatchEnd(a)
    ensures 16 <= a && BatchEnd(4 * a)
  {}

  lemma {:induction false} BoundAgrees(w: Weights, s: seq<nat>, t: seq<nat>, p: real, k: nat)
    requires Below(s, |w.scores|) && Below(t, |w.scores|) && |s| == |t| && k <= |s| && s[..k] == t[..k]
    ensures MeetsBound(w, s, p, k) <==> MeetsBound(w, t, p, k)
  {
    hide Sum, Times, Weights.At;
    SumAgrees(w, s, t, k);
    if 0 < k { assert s[k - 1] == s[..k][k - 1] == t[k - 1]; }
  }

  lemma {:induction false} NoStopAgrees(w: Weights, s: seq<nat>, t: seq<nat>, p: real, n: nat)
    requires Below(s, |w.scores|) && Below(t, |w.scores|) && |s| == |t| && n <= |s| && s[..n] == t[..n]
    requires NoStop(w, s, p, n)
    ensures NoStop(w, t, p, n)
  {
    hide MeetsBound, CanStop;
    forall k | 0 < k <= n && CanStop(k, |t|) ensures !MeetsBound(w, t, p, k) {
      assert s[..k] == s[..n][..k] == t[..k];
      BoundAgrees(w, s, t, p, k);
    }
  }

  lemma {:induction false} WholeMeetsBound(w: Weights, s: seq<nat>, p: real)
    requires w.Valid() && p <= 1.0 && 0 < |s| == |w.scores| && IsPermutation(s)
    ensures MeetsBound(w, s, p, |s|)
  {
    hide Sum, Distinct;
    WholeIsPositive(w, s);
    AtMostWhole(p, Sum(w, s, |s|));
  }

  /** A batch that ended without stopping: its own end does not count. */
  lemma {:induction false} BatchPassed(w: Weights, s: seq<nat>, p: real, from: nat, k: nat)
    requires NoStop(w, s, p, from) && k < |s| && BatchEnd(k)
    requires forall j | from < j < k :: !MeetsBound(w, s, p, j)
    ensures NoStop(w, s, p, k)
  {
    hide MeetsBound, BatchEnd;
  }

  /** A batch in which the bound was met before its end. */
  lemma {:induction false} Stopped(w: Weights, s: seq<nat>, p: real, from: nat, cutoff: nat, k: nat)
    requires NoStop(w, s, p, from) && from < cutoff <= k && MeetsBound(w, s, p, cutoff)
    requires forall j | from < j < cutoff :: !MeetsBound(w, s, p, j)
    requires from == 0 || BatchEnd(from)
    requires cutoff == |s| || (cutoff < k <= if from == 0 then 16 else 4 * from)
    ensures FirstStop(w, s, p, cutoff)
  {
    hide MeetsBound, BatchEnd;
    assert CanStop(cutoff, |s|) by {
      if BatchEnd(cutoff) {
        BatchAtLeast(cutoff);
        if 0 < from { BatchGap(from, cutoff); }
      }
    }
    forall j | 0 < j < cutoff && CanStop(j, |s|) ensures !MeetsBound(w, s, p, j) {
      assert j <= from || from < j;
    }
  }

  /** Eighty tokens of the same weight and a share of one fifth: sixteen tokens meet the bound and no fewer do, but
      they are a batch end, and the search stops at seventeen. */
  lemma {:induction false} PassedOver(w: Weights, s: seq<nat>)
    requires w == Weights(seq(80, _ => 0.0), 0.0, 1.0, x => 1.0) && |s| == 80 && Below(s, 80)
    ensures MeetsBound(w, s, 0.2, 16) && FirstStop(w, s, 0.2, 17)
  {
    forall k | 0 < k <= 17 ensures MeetsBound(w, s, 0.2, k) <==> 16 <= k {
      EqualSum(w, s, k);
    }
    assert !BatchEnd(17);
  }

  lemma {:induction false} EqualSum(w: Weights, s: seq<nat>, k: nat)
    requires w == Weights(seq(80, _ => 0.0), 0.0, 1.0, x => 1.0) && k <= |s| && Below(s, 80)
    ensures Sum(w, s, k) == k as real
  {
    if 0 < k { EqualSum(w, s, k - 1); }
  }

  /** Walks over the newly sorted tokens until the tail bound is met. */
  method Scan(w: Weights, idx: array<nat>, p: real, from: nat, k: nat, before: real) returns (cutoff: nat, sum: real)
    requires w.Valid() && 0.0 < p && idx.Length == |w.scores| && IsPermutation(idx[..])
    requires from <= k <= idx.Length && SortedPart(idx[..], w.scores, 0, k) && before == Sum(w, idx[..], from)
    ensures cutoff <= k && sum == Sum(w, idx[..], cutoff)
    ensures cutoff < k ==> Carries(w, idx[..], p, cutoff) && from < cutoff && MeetsBound(w, idx[..], p, cutoff)
    ensures forall j | from < j < cutoff :: !MeetsBound(w, idx[..], p, j)
  {
    hide SortedPart, Distinct, Total, Times, Weights.At, Carries;
    ghost var s := idx[..];
    cutoff, sum := k, before;
    for i := from to k
      invariant cutoff == k && sum == Sum(w, s, i)
      invariant forall j | from < j <= i :: !MeetsBound(w, s, p, j)
    {
      var e := w.At(idx[i]);
      assert s[i] == idx[i];
      sum := sum + e;
      var tail := Times((|w.scores| - i - 1) as real, e);
      if sum >= Times(p, sum + tail) {
        SortedShorter(s, w.scores, i + 1, k);
        BoundSuffices(w, s, p, i);
        return i + 1, sum;
      }
    }
  }

  lemma {:induction false} SortedShorter(s: seq<nat>, scores: seq<real>, m: nat, n: nat)
    requires Below(s, |scores|) && m <= n && SortedPart(s, scores, 0, n)
    ensures SortedPart(s, scores, 0, m)
  {}

  /** The exact cutoff over a fully sorted vocabulary; only an empty one leaves the loop without a cutoff. */
  method ExactCutoff(w: Weights, idx: array<nat>, p: real) returns (cutoff: nat)
    requires w.Valid() && 0.0 < p <= 1.0 && idx.Length == |w.scores| && IsPermutation(idx[..])
    ensures cutoff <= idx.Length && Carries(w, idx[..], p, cutoff) && Shortest(w, idx[..], p, cutoff)
  {
    hide Distinct, Total, Times, Weights.At;
    ghost var s := idx[..];
    WholeCarries(w, s, p);
    if 0 < |s| { EmptyCarriesNothing(w, s, p); }
    var all := 0.0;
    for i := 0 to idx.Length
      invariant all == Sum(w, s, i)
    {
      assert s[i] == idx[i];
      all := all + w.At(idx[i]);
    }
    var sum := 0.0;
    for i := 0 to idx.Length
      invariant sum == Sum(w, s, i)
      invariant forall k | 0 <= k < i + 1 && 0 < idx.Length :: !Carries(w, s, p, k)
    {
      assert s[i] == idx[i];
      sum := sum + w.At(idx[i]);
      if sum >= Times(p, all) {
        return i + 1;
      }
    }
    cutoff := 0;
  }

  /** Sorts positions from .. k - 1 behind an already sorted prefix. */
  method SortMore(w: Weights, idx: array<nat>, from: nat, k: nat)
    requires from <= k <= idx.Length == |w.scores| && IsPermutation(idx[..]) && SortedPart(idx[..], w.scores, 0, from)
    modifies idx
    ensures IsPermutation(idx[..]) && SortedPart(idx[..], w.scores, 0, k)
    ensures Sum(w, idx[..], from) == old(Sum(w, idx[..], from)) && idx[..from] == old(idx[..from])
  {
    hide SortedPart, Distinct, Sum, Weights.At;
    ghost var s := idx[..];
    PartialSort(idx, w.scores, from, k);
    SortedExtends(s, idx[..], w.scores, from, k);
    SumAgrees(w, s, idx[..], from);
  }

  /** Finds a nucleus: the shortest for vocabularies of at most 64 tokens, otherwise the first length that meets the
      tail bound and is not passed over. */
  method FindNucleus(w: Weights, idx: array<nat>, p: real) returns (cutoff: nat)
    requires w.Valid() && 0.0 < p <= 1.0 && idx.Length == |w.scores|
    modifies idx
    ensures IsNucleus(w, idx[..], p, cutoff)
    ensures |w.scores| <= 64 ==> Shortest(w, idx[..], p, cutoff)
    ensures |w.scores| > 64 ==> FirstStop(w, idx[..], p, cutoff)
  {
    hide SortedPart, Distinct, Total, Carries, Shortest, Weights.At, FirstStop, Sum;
    var vocab := |w.scores|;
    Iota(idx);
    SortedNone(idx[..], w.scores);
    var sorted: nat;
    cutoff, sorted := Search(w, idx, p);
    if vocab <= INITIAL_CANDIDATES * GROWTH_FACTOR {
      if sorted < vocab { SortMore(w, idx, sorted, vocab); }
      cutoff := ExactCutoff(w, idx, p);
    }
    SortedShorter(idx[..], w.scores, cutoff, if vocab <= 64 then vocab else sorted);
  }

  /** Sorts more and more of the vocabulary until the tail bound is met. */
  method Search(w: Weights, idx: array<nat>, p: real) returns (cutoff: nat, sorted: nat)
    requires w.Valid() && 0.0 < p <= 1.0 && idx.Length == |w.scores| && IsPermutation(idx[..])
    modifies idx
    ensures IsPermutation(idx[..]) && cutoff <= sorted <= idx.Length && SortedPart(idx[..], w.scores, 0, sorted)
    ensures Carries(w, idx[..], p, cutoff)
    ensures 0 < |w.scores| ==> FirstStop(w, idx[..], p, cutoff)
  {
    hide SortedPart, Distinct, Total, Carries, Weights.At, FirstStop, Sum, NoStop, MeetsBound, BatchEnd;
    var vocab := |w.scores|;
    var k: nat := Least(INITIAL_CANDIDATES, vocab);
    var sum := 0.0;
    cutoff, sorted := 0, 0;
    NothingSearched(w, idx[..], p);
    while true
      invariant sorted <= k <= vocab && (k == 0 ==> vocab == 0) && (sorted == k ==> k == 0)
      invariant k == vocab || BatchEnd(k)
      invariant k <= (if sorted == 0 then 16 else 4 * sorted) && (sorted == 0 || BatchEnd(sorted))
      invariant IsPermutation(idx[..]) && SortedPart(idx[..], w.scores, 0, sorted)
      invariant sum == Sum(w, idx[..], sorted) && NoStop(w, idx[..], p, sorted)
      decreases vocab - k
    {
      ghost var was, from := idx[..], sorted;
      SortMore(w, idx, sorted, k);
      NoStopAgrees(w, was, idx[..], p, sorted);
      cutoff, sum := Scan(w, idx, p, sorted, k, sum);
      sorted := k;
      if cutoff < k || k == vocab {
        if 0 < vocab {
          if cutoff == vocab { WholeMeetsBound(w, idx[..], p); }
          Stopped(w, idx[..], p, from, cutoff, k);
        }
        break;
      }
      BatchPassed(w, idx[..], p, from, k);
      BatchAtLeast(k);
      k := Least(k * GROWTH_FACTOR, vocab);
    }
    if cutoff == vocab { WholeCarries(w, idx[..], p); }
  }

  lemma {:induction false} NothingSearched(w: Weights, s: seq<nat>, p: real)
    requires Below(s, |w.scores|)
    ensures Sum(w, s, 0) == 0.0 && NoStop(w, s, p, 0) && SortedPart(s, w.scores, 0, 0) && BatchEnd(16)
  {}

  function Least(a: nat, b: nat): nat {
    if a < b then a else b
  }

  lemma {:induction false} SortedNone(s: seq<nat>, scores: seq<real>)
    requires Below(s, |scores|)
    ensures SortedPart(s, scores, 0, 0)
  {}
}
