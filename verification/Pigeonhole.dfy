/** Counting facts about sequences without repeats. */
module Pigeonhole {

  ghost predicate Distinct<T>(s: seq<T>) {
    forall i, j | 0 <= i < j < |s| :: s[i] != s[j]
  }

  ghost predicate Below(s: seq<nat>, n: nat) {
    forall i | 0 <= i < |s| :: s[i] < n
  }

  ghost function NumbersBelow(n: nat): (r: set<nat>)
    ensures |r| == n && forall x: nat :: x in r <==> x < n
  {
    if n == 0 then {} else NumbersBelow(n - 1) + {n - 1}
  }

  ghost function Elements<T>(s: seq<T>): set<T> {
    set x | x in s
  }

  lemma {:induction false} DistinctCardinality<T>(s: seq<T>)
    requires Distinct(s)
    ensures |Elements(s)| == |s|
  {
    if s != [] {
      var t, x := s[..|s| - 1], s[|s| - 1];
      DistinctCardinality(t);
      assert x !in t;
      assert Elements(s) == Elements(t) + {x};
    }
  }

  lemma {:induction false} SubsetCardinality<T>(a: set<T>, b: set<T>)
    requires a <= b
    ensures |a| <= |b|
  {
    assert a + (b - a) == b;
  }

  /** At most n distinct numbers below n. */
  lemma {:induction false} AtMost(s: seq<nat>, n: nat)
    requires Distinct(s) && Below(s, n)
    ensures |s| <= n
  {
    DistinctCardinality(s);
    SubsetCardinality(Elements(s), NumbersBelow(n));
  }

  /** n distinct numbers below n are all of them. */
  lemma {:induction false} HitsAll(s: seq<nat>, v: nat) returns (i: nat)
    requires Distinct(s) && Below(s, |s|) && v < |s|
    ensures i < |s| && s[i] == v
  {
    if v !in s {
      var n := |s|;
      DistinctCardinality(s);
      assert Elements(s) <= NumbersBelow(n) - {v};
      SubsetCardinality(Elements(s), NumbersBelow(n) - {v});
      assert false;
    }
    i :| 0 <= i < |s| && s[i] == v;
  }
}
