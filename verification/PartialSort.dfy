/**
 The contract of the standard partial sort over an index array, with one implementation that meets it.
 Ties may end up in any order; nothing here relies on which.
 */
module PartialSorting {
  import opened Pigeonhole

  /** s lists 0 .. |s| - 1 in some order. */
  ghost predicate IsPermutation(s: seq<nat>) {
    Distinct(s) && Below(s, |s|)
  }

  /** From position from up to mid, every element scores at least as high as everything after it. */
  ghost predicate SortedPart(s: seq<nat>, scores: seq<real>, from: nat, mid: nat)
    requires Below(s, |scores|)
  {
    forall i, j | from <= i < mid && i < j < |s| :: scores[s[i]] >= scores[s[j]]
  }

  /** The same elements from position from on, and the same prefix before it. */
  ghost predicate Rearranged(s: seq<nat>, s': seq<nat>, from: nat) {
    && |s'| == |s| && from <= |s|
    && s'[..from] == s[..from]
    && (forall i | from <= i < |s| :: s'[i] in s[from..])
  }

  method Iota(idx: array<nat>)
    modifies idx
    ensures forall i | 0 <= i < idx.Length :: idx[i] == i
    ensures IsPermutation(idx[..])
  {
    for i := 0 to idx.Length
      invariant forall j | 0 <= j < i :: idx[j] == j
    {
      idx[i] := i;
    }
  }

  function Swapped(s: seq<nat>, i: nat, k: nat): seq<nat>
    requires i < |s| && k < |s|
  {
    s[i := s[k]][k := s[i]]
  }

  lemma {:induction false} SwapPermutes(s: seq<nat>, i: nat, k: nat, from: nat)
    requires IsPermutation(s) && from <= i <= k < |s|
    ensures IsPermutation(Swapped(s, i, k)) && Rearranged(s, Swapped(s, i, k), from)
  {
    var t := Swapped(s, i, k);
    forall j | from <= j < |s| ensures t[j] in s[from..] {
      assert s[from..][j - from] == s[j] && s[from..][i - from] == s[i] && s[from..][k - from] == s[k];
    }
  }

  lemma {:induction false} RearrangedTwice(s: seq<nat>, t: seq<nat>, u: seq<nat>, from: nat)
    requires Rearranged(s, t, from) && Rearranged(t, u, from)
    ensures Rearranged(s, u, from)
  {
    forall i | from <= i < |s| ensures u[i] in s[from..] {
      assert u[i] in t[from..];
      var j :| 0 <= j < |t[from..]| && t[from..][j] == u[i];
      assert t[from + j] in s[from..];
    }
  }

  lemma {:induction false} SwapSorted(s: seq<nat>, scores: seq<real>, from: nat, i: nat, k: nat)
    requires |s| == |scores| && IsPermutation(s) && from <= i <= k < |s| && SortedPart(s, scores, from, i)
    requires forall j | i <= j < |s| :: scores[s[j]] <= scores[s[k]]
    ensures Below(Swapped(s, i, k), |scores|) && SortedPart(Swapped(s, i, k), scores, from, i + 1)
  {}

  /** Leaves the best mid - from elements of the tail, in descending order, at positions from .. mid - 1. */
  method PartialSort(idx: array<nat>, scores: seq<real>, from: nat, mid: nat)
    requires from <= mid <= idx.Length == |scores| && IsPermutation(idx[..])
    modifies idx
    ensures IsPermutation(idx[..]) && Rearranged(old(idx[..]), idx[..], from)
    ensures SortedPart(idx[..], scores, from, mid)
  {
    hide Distinct, SortedPart, Rearranged, Swapped;
    RearrangedRefl(idx[..], scores, from);
    for i := from to mid
      invariant IsPermutation(idx[..]) && Rearranged(old(idx[..]), idx[..], from)
      invariant SortedPart(idx[..], scores, from, i)
    {
      var k := Best(idx, scores, i);
      ghost var before := idx[..];
      SwapPermutes(before, i, k, from);
      SwapSorted(before, scores, from, i, k);
      RearrangedTwice(old(idx[..]), before, Swapped(before, i, k), from);
      Exchange(idx, i, k);
    }
  }

  lemma {:induction false} RearrangedRefl(s: seq<nat>, scores: seq<real>, from: nat)
    requires from <= |s| && Below(s, |scores|)
    ensures Rearranged(s, s, from) && SortedPart(s, scores, from, from)
  {
    forall i | from <= i < |s| ensures s[i] in s[from..] { assert s[from..][i - from] == s[i]; }
  }

  method Exchange(idx: array<nat>, i: nat, k: nat)
    requires i < idx.Length && k < idx.Length
    modifies idx
    ensures idx[..] == Swapped(old(idx[..]), i, k)
  {
    idx[i], idx[k] := idx[k], idx[i];
  }

  method Best(idx: array<nat>, scores: seq<real>, i: nat) returns (k: nat)
    requires i < idx.Length && Below(idx[..], |scores|)
    ensures i <= k < idx.Length
    ensures forall j | i <= j < idx.Length :: scores[idx[..][j]] <= scores[idx[..][k]]
  {
    k := i;
    assert forall j | 0 <= j < idx.Length :: idx[..][j] < |scores|;
    for j := i + 1 to idx.Length
      invariant i <= k < idx.Length
      invariant forall l | i <= l < j :: scores[idx[..][l]] <= scores[idx[..][k]]
    {
      if scores[idx[..][j]] > scores[idx[..][k]] { k := j; }
    }
  }

  /** Sorting the tail of an array whose prefix already dominates it keeps the prefix dominant. */
  lemma {:induction false} SortedExtends(s: seq<nat>, s': seq<nat>, scores: seq<real>, from: nat, mid: nat)
    requires Below(s, |scores|) && Below(s', |scores|) && Rearranged(s, s', from)
    requires SortedPart(s, scores, 0, from) && SortedPart(s', scores, from, mid) && from <= mid
    ensures SortedPart(s', scores, 0, mid)
  {
    forall i, j | 0 <= i < mid && i < j < |s'| ensures scores[s'[i]] >= scores[s'[j]] {
      if i < from {
        assert s'[i] == s'[..from][i] == s[..from][i] == s[i];
        if j < from {
          assert s'[j] == s'[..from][j] == s[..from][j] == s[j];
        } else {
          var k :| 0 <= k < |s[from..]| && s[from..][k] == s'[j];
          assert s[from + k] == s'[j];
        }
      }
    }
  }
}
