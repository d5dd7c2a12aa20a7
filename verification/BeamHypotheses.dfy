/**
 The finished hypotheses of one batch entry: a fixed array, best first, into which each new hypothesis
 is inserted by shifting the worse ones.
 */
module BeamHypotheses {
  import Pigeonhole

  /** A span of the hypothesis buffer and the normalized score of the tokens there. */
  datatype Hypothesis = Hypothesis(start: nat, length: nat, score: real)

  /** Where x goes: after everything that scores at least as high. */
  function Position(list: seq<Hypothesis>, x: Hypothesis): (k: nat)
    ensures k <= |list|
  {
    if list == [] || list[|list| - 1].score >= x.score then |list| else Position(list[..|list| - 1], x)
  }

  function InsertAt<T>(list: seq<T>, k: nat, x: T): seq<T>
    requires k <= |list|
  {
    list[..k] + [x] + list[k..]
  }

  function Insert(list: seq<Hypothesis>, x: Hypothesis): seq<Hypothesis> {
    InsertAt(list, Position(list, x), x)
  }

  function Take<T>(list: seq<T>, n: nat): seq<T> {
    if |list| <= n then list else list[..n]
  }

  /** Everything added so far, ranked. */
  function Ranked(added: seq<Hypothesis>): (r: seq<Hypothesis>)
    ensures |r| == |added|
  {
    if added == [] then [] else Insert(Ranked(added[..|added| - 1]), added[|added| - 1])
  }

  ghost predicate Descending(list: seq<Hypothesis>) {
    forall i, j | 0 <= i < j < |list| :: list[i].score >= list[j].score
  }

  /** order lists the insertion indices of list's elements: a stable descending sort of added. */
  ghost predicate StableSort(list: seq<Hypothesis>, order: seq<nat>, added: seq<Hypothesis>) {
    && |list| == |order| == |added|
    && (forall i | 0 <= i < |order| :: order[i] < |added| && list[i] == added[order[i]])
    && (forall i, j | 0 <= i < j < |order| ::
          list[i].score > list[j].score || (list[i].score == list[j].score && order[i] < order[j]))
  }

  lemma {:induction false} PositionSplits(list: seq<Hypothesis>, x: Hypothesis)
    requires Descending(list)
    ensures var k := Position(list, x);
            && (forall i | 0 <= i < k :: list[i].score >= x.score)
            && (forall i | k <= i < |list| :: list[i].score < x.score)
  {
    if list != [] && list[|list| - 1].score < x.score { PositionSplits(list[..|list| - 1], x); }
  }

  lemma {:induction false} StableIsDescending(list: seq<Hypothesis>, order: seq<nat>, added: seq<Hypothesis>)
    requires StableSort(list, order, added)
    ensures Descending(list)
  {}

  lemma {:induction false} InsertStable(list: seq<Hypothesis>, order: seq<nat>, added: seq<Hypothesis>, x: Hypothesis)
    requires StableSort(list, order, added)
    ensures var k := Position(list, x); StableSort(InsertAt(list, k, x), InsertAt(order, k, |added|), added + [x])
  {
    hide Position;
    StableIsDescending(list, order, added);
    PositionSplits(list, x);
    var k := Position(list, x);
    var list', order' := InsertAt(list, k, x), InsertAt(order, k, |added|);
    forall i, j | 0 <= i < j < |order'|
      ensures list'[i].score > list'[j].score || (list'[i].score == list'[j].score && order'[i] < order'[j])
    {
      InsertedAt(list, k, x, i);
      InsertedAt(list, k, x, j);
      InsertedAt(order, k, |added|, i);
      InsertedAt(order, k, |added|, j);
    }
    forall i | 0 <= i < |order'| ensures order'[i] < |added + [x]| && list'[i] == (added + [x])[order'[i]] {
      InsertedAt(list, k, x, i);
      InsertedAt(order, k, |added|, i);
    }
  }

  lemma {:induction false} InsertedAt<T>(list: seq<T>, k: nat, x: T, i: nat)
    requires k <= |list| && i <= |list|
    ensures |InsertAt(list, k, x)| == |list| + 1
    ensures InsertAt(list, k, x)[i] == if i < k then list[i] else if i == k then x else list[i - 1]
  {}

  /** The ranking is the stable descending sort of everything added. */
  lemma {:induction false} RankedIsStableSort(added: seq<Hypothesis>) returns (order: seq<nat>)
    ensures StableSort(Ranked(added), order, added)
  {
    if added == [] {
      order := [];
    } else {
      var n := |added| - 1;
      var before := RankedIsStableSort(added[..n]);
      InsertStable(Ranked(added[..n]), before, added[..n], added[n]);
      order := InsertAt(before, Position(Ranked(added[..n]), added[n]), n);
      assert added[..n] + [added[n]] == added;
    }
  }

  /** A stable sort is unique: the order of scores, then of insertion, fixes every place. */
  lemma {:induction false} StableSortUnique(list: seq<Hypothesis>, order: seq<nat>, list': seq<Hypothesis>,
                                            order': seq<nat>, added: seq<Hypothesis>, k: nat)
    requires StableSort(list, order, added) && StableSort(list', order', added) && k <= |order|
    ensures order[..k] == order'[..k]
  {
    if 0 < k {
      StableSortUnique(list, order, list', order', added, k - 1);
      var i, j := k - 1, k - 1;
      if order[i] != order'[i] {
        var a := FindIndex(list', order', added, order[i]);
        var b := FindIndex(list, order, added, order'[i]);
        SamePrefix(order, order', i, a);
        SamePrefix(order', order, i, b);
        assert false;
      }
      assert order[..k] == order[..k - 1] + [order[k - 1]];
      assert order'[..k] == order'[..k - 1] + [order'[k - 1]];
    }
  }

  lemma {:induction false} SamePrefix(order: seq<nat>, order': seq<nat>, i: nat, a: nat)
    requires i < |order| && |order| == |order'| && a < |order'| && order[..i] == order'[..i] && order'[a] == order[i]
    requires forall x, y | 0 <= x < y < |order| :: order[x] != order[y]
    ensures i <= a
  {
    if a < i {
      SameAt(order, order', i, a);
      assert false;
    }
  }

  lemma {:induction false} SameAt(order: seq<nat>, order': seq<nat>, i: nat, a: nat)
    requires i <= |order| && i <= |order'| && a < i && order[..i] == order'[..i]
    ensures order[a] == order'[a]
  {
    assert order[a] == order[..i][a] && order'[a] == order'[..i][a];
  }

  /** Every insertion index occurs: the order is a permutation. */
  lemma {:induction false} FindIndex(list: seq<Hypothesis>, order: seq<nat>, added: seq<Hypothesis>, v: nat)
    returns (i: nat)
    requires StableSort(list, order, added) && v < |added|
    ensures i < |order| && order[i] == v
  {
    assert Pigeonhole.Distinct(order) && Pigeonhole.Below(order, |order|);
    i := Pigeonhole.HitsAll(order, v);
  }

  // ----- the bounded list

  /** Keeping only the best n before inserting loses nothing of the best n after. */
  lemma {:induction false} TakeInsert(list: seq<Hypothesis>, x: Hypothesis, n: nat)
    requires Descending(list)
    ensures Take(Insert(Take(list, n), x), n) == Take(Insert(list, x), n)
  {
    hide Position;
    PositionSplits(list, x);
    var short := Take(list, n);
    PositionSplits(short, x);
    var k, l := Position(list, x), Position(short, x);
    assert forall i | 0 <= i < |short| :: short[i] == list[i];
    assert l < |short| ==> short[l].score == list[l].score;
    assert k < |short| ==> short[k].score == list[k].score;
    assert l == if k < |short| then k else |short|;
    var a, b := Take(Insert(short, x), n), Take(Insert(list, x), n);
    assert |a| == |b|;
    forall i | 0 <= i < |a| ensures a[i] == b[i] {
      InsertedAt(short, l, x, i);
      InsertedAt(list, k, x, i);
    }
  }

  /** Which of everything added scores at least x. */
  ghost function Better(added: seq<Hypothesis>, x: real): set<nat> {
    set i: nat | i < |added| && added[i].score >= x
  }

  lemma {:induction false} OrderDistinct(list: seq<Hypothesis>, order: seq<nat>, added: seq<Hypothesis>)
    requires StableSort(list, order, added)
    ensures Pigeonhole.Distinct(order) && Pigeonhole.Below(order, |order|)
  {
    forall i, j | 0 <= i < j < |order| ensures order[i] != order[j] {
      assert order[i] == order[j] ==> list[i].score == list[j].score;
    }
  }

  /** The n-th best scores below x exactly if fewer than n score at least x. */
  lemma {:induction false} WorstDecides(added: seq<Hypothesis>, order: seq<nat>, n: nat, x: real)
    requires StableSort(Ranked(added), order, added) && 0 < n <= |added|
    ensures Ranked(added)[n - 1].score < x <==> |Better(added, x)| < n
  {
    hide Ranked;
    var list, better := Ranked(added), Better(added, x);
    OrderDistinct(list, order, added);
    if list[n - 1].score >= x {
      var first := order[..n];
      Pigeonhole.DistinctCardinality(first);
      forall i | i in Pigeonhole.Elements(first) ensures i in better {
        var k :| 0 <= k < n && first[k] == i;
        assert order[k] == i && list[k].score >= list[n - 1].score;
      }
      Pigeonhole.SubsetCardinality(Pigeonhole.Elements(first), better);
    } else {
      var first := order[..n - 1];
      Pigeonhole.DistinctCardinality(first);
      forall i | i in better ensures i in Pigeonhole.Elements(first) {
        var k := Pigeonhole.HitsAll(order, i);
        assert list[k].score >= x;
        assert k < n - 1 && first[k] == i;
      }
      Pigeonhole.SubsetCardinality(better, Pigeonhole.Elements(first));
    }
  }

  class HypothesisList {
    /** Best first; slots from used on are unset. */
    const beams: array<Hypothesis>
    var used: nat
    var done: bool
    const normalize: (real, nat) -> real
    ghost var added: seq<Hypothesis>

    ghost predicate Valid()
      reads this, beams
    {
      && used <= beams.Length
      && beams[..used] == Take(Ranked(added), beams.Length)
    }

    constructor (n: nat, normalize: (real, nat) -> real)
      ensures Valid() && fresh(beams) && beams.Length == n && added == [] && this.normalize == normalize
      ensures !done && used == 0
    {
      beams := new Hypothesis[n](_ => Hypothesis(0, 0, 0.0));
      used := 0;
      done := false;
      this.normalize := normalize;
      added := [];
    }

    /** Adds a hypothesis: afterwards the array holds the best of everything ever added, ties in the order
        they came. */
    method Add(start: nat, length: nat, sumLogprobs: real)
      requires Valid() && 0 < beams.Length
      modifies this, beams
      ensures Valid() && done == old(done)
      ensures added == old(added) + [Hypothesis(start, length, normalize(sumLogprobs, length))]
      ensures used == if old(used) < beams.Length then old(used) + 1 else old(used)
    {
      hide Ranked, Position, Insert;
      var x := Hypothesis(start, length, normalize(sumLogprobs, length));
      ghost var list := beams[..used];
      AddRanked(added, x, beams.Length);
      added := added + [x];
      var index := used;
      if index == beams.Length {
        index := index - 1;
        if x.score <= beams[index].score {
          WorstStays(list, x);
          return;
        }
        assert beams[..index] == list[..|list| - 1];
        BestDropped(list, x);
        Shift(index, x);
      } else {
        used := used + 1;
        Shift(index, x);
        ShortList(list, x, beams.Length);
      }
    }

    /** Whether a hypothesis with these log-probabilities could still get into a full list: fewer of everything added
        than the list has places score as high. */
    method CanImprove(sumLogprobs: real, length: nat) returns (r: bool)
      requires Valid() && used == beams.Length && 0 < used
      ensures r <==> |Better(added, normalize(sumLogprobs, length))| < beams.Length
    {
      ghost var order := RankedIsStableSort(added);
      hide Ranked;
      assert beams[..used][used - 1] == beams[used - 1];
      WorstDecides(added, order, used, normalize(sumLogprobs, length));
      r := beams[used - 1].score < normalize(sumLogprobs, length);
    }

    /** Moves worse elements of the first index ones one place down and puts x in the gap. */
    method Shift(from: nat, x: Hypothesis)
      requires from < beams.Length
      modifies beams
      ensures beams[..from + 1] == Insert(old(beams[..from]), x)
      ensures forall i | from < i < beams.Length :: beams[i] == old(beams[i])
    {
      hide Position, InsertAt;
      ghost var list := beams[..from];
      var index := from;
      while index > 0 && x.score > beams[index - 1].score
        invariant index <= from
        invariant forall i | index <= i < from :: list[i].score < x.score
        invariant forall i | 0 <= i < index :: beams[i] == list[i]
        invariant forall i | index < i <= from :: beams[i] == list[i - 1]
        invariant forall i | from < i < beams.Length :: beams[i] == old(beams[i])
      {
        beams[index] := beams[index - 1];
        index := index - 1;
      }
      beams[index] := x;
      PositionIs(list, x, index);
      InsertedSeq(list, index, x, beams[..from + 1]);
    }
  }

  lemma {:induction false} InsertedSeq<T>(list: seq<T>, k: nat, x: T, s: seq<T>)
    requires k <= |list| && |s| == |list| + 1 && s[k] == x
    requires forall i | 0 <= i < k :: s[i] == list[i]
    requires forall i | k < i <= |list| :: s[i] == list[i - 1]
    ensures s == InsertAt(list, k, x)
  {}

  lemma {:induction false} PositionIs(list: seq<Hypothesis>, x: Hypothesis, k: nat)
    requires k <= |list| && (forall i | k <= i < |list| :: list[i].score < x.score)
    requires k == 0 || list[k - 1].score >= x.score
    ensures Position(list, x) == k
  {
    if k < |list| { PositionIs(list[..|list| - 1], x, k); }
  }

  lemma {:induction false} AddRanked(added: seq<Hypothesis>, x: Hypothesis, n: nat)
    ensures Take(Ranked(added + [x]), n) == Take(Insert(Take(Ranked(added), n), x), n)
  {
    hide Position;
    assert (added + [x])[..|added|] == added;
    var order := RankedIsStableSort(added);
    StableIsDescending(Ranked(added), order, added);
    TakeInsert(Ranked(added), x, n);
  }

  lemma {:induction false} WorstStays(list: seq<Hypothesis>, x: Hypothesis)
    requires list != [] && x.score <= list[|list| - 1].score
    ensures Take(Insert(list, x), |list|) == list
  {}

  lemma {:induction false} BestDropped(list: seq<Hypothesis>, x: Hypothesis)
    requires list != [] && x.score > list[|list| - 1].score
    ensures Take(Insert(list, x), |list|) == Insert(list[..|list| - 1], x)
  {
    var k := Position(list[..|list| - 1], x);
    assert Position(list, x) == k;
  }

  lemma {:induction false} ShortList(list: seq<Hypothesis>, x: Hypothesis, n: nat)
    requires |list| < n
    ensures Take(Insert(list, x), n) == Insert(list, x)
  {}
}
