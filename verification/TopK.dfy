/**
 The device-side top-k list: a fixed number of slots kept in order by insertion, and the merge of two such
 lists. Whatever the order of insertions and merges, the result is the same.
 */
module TopKMerge {
  import opened Common
  import opened Pigeonhole

  /** A score, or minus infinity in an empty slot. */
  datatype Value = NegInf | Fin(score: real)
  {
    predicate Less(other: Value) {
      other.Fin? && (NegInf? || score < other.score)
    }
  }

  datatype Item = Item(value: Value, key: int)

  const EMPTY := Item(NegInf, -1)

  /** A slot with contents. */
  predicate IsItem(x: Item) {
    x.value.Fin? && 0 <= x.key
  }

  /** The order of results: higher score first, then lower id. */
  predicate Better(x: Item, y: Item) {
    y.value.Less(x.value) || (x.value == y.value && x.key < y.key)
  }

  /** The test that lets x move up past the slot y. */
  predicate Beats(x: Item, y: Item) {
    y.value.Less(x.value) || y.key == -1 || (x.value == y.value && x.key < y.key)
  }

  /** Slots best first, empty ones last. */
  ghost predicate Sorted(c: seq<Item>) {
    && (forall i | 0 <= i < |c| :: c[i] == EMPTY || IsItem(c[i]))
    && (forall i, j | 0 <= i < j < |c| :: c[j] == EMPTY || (c[i] != EMPTY && Better(c[i], c[j])))
  }

  /** Finite scores and distinct ids. */
  ghost predicate Proper(s: set<Item>) {
    && (forall x | x in s :: IsItem(x))
    && (forall x, y | x in s && y in s && x.key == y.key :: x == y)
  }

  /** c holds the best |c| of s in order, and empty slots where s has fewer. */
  ghost predicate TopOf(c: seq<Item>, s: set<Item>) {
    && Sorted(c)
    && (forall i | 0 <= i < |c| && c[i] != EMPTY :: c[i] in s)
    && (forall x | x in s :: x in c || AllBetter(c, x))
  }

  ghost predicate AllBetter(c: seq<Item>, x: Item) {
    forall i | 0 <= i < |c| :: c[i] != EMPTY && Better(c[i], x)
  }

  /** The first k slots are fixed by the set alone. */
  lemma {:induction false} TopUnique(c: seq<Item>, d: seq<Item>, s: set<Item>, k: nat)
    requires Proper(s) && TopOf(c, s) && TopOf(d, s) && k <= |c| == |d|
    ensures c[..k] == d[..k]
  {
    hide AllBetter;
    if 0 < k {
      TopUnique(c, d, s, k - 1);
      NotAhead(c, d, s, k - 1);
      NotAhead(d, c, s, k - 1);
      assert c[k - 1] != EMPTY ==> c[k - 1] in s;
      assert d[k - 1] != EMPTY ==> d[k - 1] in s;
      assert c[..k] == c[..k - 1] + [c[k - 1]] && d[..k] == d[..k - 1] + [d[k - 1]];
    }
  }

  /** With equal prefixes, neither list can hold something better next. */
  lemma {:induction false} NotAhead(c: seq<Item>, d: seq<Item>, s: set<Item>, k: nat)
    requires TopOf(c, s) && TopOf(d, s) && k < |c| == |d| && c[..k] == d[..k]
    ensures c[k] == EMPTY || (d[k] != EMPTY && !Better(c[k], d[k]))
  {
    if c[k] != EMPTY {
      var x := c[k];
      assert x in s;
      forall i | 0 <= i < k ensures c[i] == d[i] { assert c[i] == c[..k][i] && d[i] == d[..k][i]; }
      if x in d {
        var j :| 0 <= j < |d| && d[j] == x;
        assert k <= j;
      } else {
        assert AllBetter(d, x);
      }
    }
  }

  // ----- inserting one item

  /** Where x goes: before the first slot it beats. */
  ghost function Place(c: seq<Item>, x: Item): (p: nat)
    ensures p <= |c|
  {
    if c == [] || !Beats(x, c[|c| - 1]) then |c| else Place(c[..|c| - 1], x)
  }

  ghost function Inserted(c: seq<Item>, p: nat, x: Item): (r: seq<Item>)
    requires p <= |c|
    ensures |r| == |c|
    ensures forall i | 0 <= i < |c| :: r[i] == Shifted(c, p, x, i)
  {
    if p == |c| then c else c[..p] + [x] + c[p..|c| - 1]
  }

  /** What slot i holds once x is at p and the slots from there on have moved one down. */
  ghost function Shifted(c: seq<Item>, p: nat, x: Item, i: nat): Item
    requires i < |c| && p <= |c|
  {
    if i < p then c[i] else if i == p then x else c[i - 1]
  }

  /** The slots after inserting x; inserting an empty slot changes nothing. */
  ghost function InsertItem(c: seq<Item>, x: Item): (r: seq<Item>)
    ensures |r| == |c|
  {
    if x == EMPTY then c else Inserted(c, Place(c, x), x)
  }

  lemma {:induction false} PlaceSplits(c: seq<Item>, x: Item)
    requires Sorted(c) && IsItem(x) && forall i | 0 <= i < |c| :: c[i].key != x.key
    ensures forall i | 0 <= i < Place(c, x) :: c[i] != EMPTY && Better(c[i], x)
    ensures forall i | Place(c, x) <= i < |c| :: c[i] == EMPTY || Better(x, c[i])
  {
    if c != [] && Beats(x, c[|c| - 1]) {
      PlaceSplits(c[..|c| - 1], x);
    }
  }

  /** Inserting keeps the slots the best of everything so far. */
  lemma {:induction false} InsertTop(c: seq<Item>, s: set<Item>, x: Item)
    requires TopOf(c, s) && Proper(s + {x}) && x !in s
    ensures TopOf(InsertItem(c, x), s + {x})
  {
    hide Place, Better, AllBetter;
    forall i | 0 <= i < |c| ensures c[i].key != x.key { if c[i] != EMPTY { assert c[i] in s + {x}; } }
    assert IsItem(x);
    PlaceSplits(c, x);
    var p, d := Place(c, x), InsertItem(c, x);
    assert d == Inserted(c, p, x);
    InsertSorted(c, p, x);
    forall i | 0 <= i < |d| && d[i] != EMPTY ensures d[i] in s + {x} {}
    forall y | y in s + {x} ensures y in d || AllBetter(d, y) {
      if y == x {
        if p < |c| { assert d[p] == x; } else { NotBetter(c, p, x); }
      } else {
        InsertKeeps(c, s, p, x, y);
      }
    }
  }

  lemma {:induction false} NotBetter(c: seq<Item>, p: nat, x: Item)
    requires p == |c| && forall i | 0 <= i < p :: c[i] != EMPTY && Better(c[i], x)
    ensures AllBetter(Inserted(c, p, x), x)
  {}

  lemma {:induction false} InsertSorted(c: seq<Item>, p: nat, x: Item)
    requires Sorted(c) && IsItem(x) && p <= |c|
    requires forall i | 0 <= i < p :: c[i] != EMPTY && Better(c[i], x)
    requires forall i | p <= i < |c| :: c[i] == EMPTY || Better(x, c[i])
    ensures Sorted(Inserted(c, p, x))
  {
    hide Better;
  }

  lemma {:induction false} InsertKeeps(c: seq<Item>, s: set<Item>, p: nat, x: Item, y: Item)
    requires TopOf(c, s) && y in s && IsItem(y) && IsItem(x) && p <= |c|
    requires forall i | 0 <= i < p :: c[i] != EMPTY && Better(c[i], x)
    requires forall i | p <= i < |c| :: c[i] == EMPTY || Better(x, c[i])
    ensures y in Inserted(c, p, x) || AllBetter(Inserted(c, p, x), y)
  {
    hide Better;
    var d := Inserted(c, p, x);
    if y in c {
      var i :| 0 <= i < |c| && c[i] == y;
      if i < p {
        assert d[i] == y;
      } else if i + 1 < |c| {
        assert d[i + 1] == y;
      } else {
        assert y != EMPTY && Better(x, y) by {
          if p < i { BetterTrans(x, c[p], y); }
        }
      }
    } else {
      assert AllBetter(c, y);
      if p < |c| { BetterTrans(x, c[p], y); }
    }
  }

  lemma {:induction false} BetterTrans(x: Item, y: Item, z: Item)
    requires Better(x, y) && Better(y, z)
    ensures Better(x, z)
  {}

  // ----- merging two lists

  ghost function InsertAll(c: seq<Item>, items: seq<Item>): (r: seq<Item>)
    ensures |r| == |c|
    decreases |items|
  {
    if items == [] then c else InsertItem(InsertAll(c, items[..|items| - 1]), items[|items| - 1])
  }

  ghost function Contents(c: seq<Item>): set<Item> {
    set x | x in c && x != EMPTY
  }

  lemma {:induction false} InsertAllTop(c: seq<Item>, s: set<Item>, d: seq<Item>, t: set<Item>)
    requires TopOf(c, s) && Sorted(d) && Contents(d) <= t && s !! t && Proper(s + t)
    ensures TopOf(InsertAll(c, d), s + Contents(d))
    decreases |d|
  {
    hide TopOf;
    if d == [] {
      assert s + Contents(d) == s;
    } else {
      var n, x := |d| - 1, d[|d| - 1];
      var init := d[..n];
      assert Contents(init) <= Contents(d);
      InsertAllTop(c, s, init, t);
      if x == EMPTY {
        assert Contents(d) == Contents(init);
      } else {
        assert x !in init;
        assert Contents(d) == Contents(init) + {x};
        assert x in t && s + Contents(d) <= s + t;
        assert s + Contents(d) == s + Contents(init) + {x};
        InsertTop(InsertAll(c, init), s + Contents(init), x);
      }
    }
  }

  lemma {:induction false} SameElements(d: seq<Item>, r: seq<Item>)
    requires Distinct(d) && |d| == |r| && forall x | x in d :: x in r
    ensures forall x | x in r :: x in d
  {
    DistinctCardinality(d);
    ElementsAtMost(r);
    var a, b := Elements(d), Elements(r);
    assert a <= b;
    assert a + (b - a) == b && |b| == |a| + |b - a|;
    assert b - a == {};
    forall x | x in r ensures x in d { assert x in b && x !in b - a; }
  }

  lemma {:induction false} ElementsAtMost<T>(s: seq<T>)
    ensures |Elements(s)| <= |s|
  {
    if s != [] {
      var t, x := s[..|s| - 1], s[|s| - 1];
      ElementsAtMost(t);
      assert Elements(s) == Elements(t) + {x};
    }
  }

  /** What the second list dropped is dropped by the merge too. */
  lemma {:induction false} DroppedStays(r: seq<Item>, s: set<Item>, d: seq<Item>, y: Item)
    requires TopOf(r, s) && Sorted(d) && |d| == |r| && AllBetter(d, y) && Contents(d) <= s
    ensures AllBetter(r, y)
  {
    if forall x | x in d :: x in r {
      hide Better;
      assert Distinct(d) by { SortedDistinct(d); }
      SameElements(d, r);
      forall i | 0 <= i < |r| ensures r[i] != EMPTY && Better(r[i], y) { assert r[i] in r; }
    } else {
      var z :| z in d && z !in r;
      assert z != EMPTY && Better(z, y);
      assert z in Contents(d);
      assert AllBetter(r, z);
    }
  }

  lemma {:induction false} SortedDistinct(d: seq<Item>)
    requires Sorted(d) && forall i | 0 <= i < |d| :: d[i] != EMPTY
    ensures Distinct(d)
  {}

  /** Merging two top lists of disjoint sets gives the top list of their union. */
  lemma {:induction false} MergeTop(c: seq<Item>, s: set<Item>, d: seq<Item>, t: set<Item>)
    requires TopOf(c, s) && TopOf(d, t) && |c| == |d| && s !! t && Proper(s + t)
    ensures TopOf(InsertAll(c, d), s + t)
  {
    hide Better, AllBetter, InsertAll;
    assert Contents(d) <= t;
    InsertAllTop(c, s, d, t);
    var r := InsertAll(c, d);
    forall y | y in s + t ensures y in r || AllBetter(r, y) {
      if y !in s && y !in d { DroppedStays(r, s + Contents(d), d, y); } else if y in d { InContents(d, t, y); }
    }
  }

  lemma {:induction false} InContents(d: seq<Item>, t: set<Item>, y: Item)
    requires y in d && y != EMPTY
    ensures y in Contents(d)
  {}

  // ----- any way of building a list

  /** A run of the device code: start empty, insert an item, or merge two lists. */
  datatype Run = Init | Insert(run: Run, item: Item) | Reduce(left: Run, right: Run)

  ghost function Items(run: Run): set<Item> {
    match run
    case Init => {}
    case Insert(r, x) => Items(r) + {x}
    case Reduce(a, b) => Items(a) + Items(b)
  }

  /** No item enters twice. */
  ghost predicate Once(run: Run) {
    match run
    case Init => true
    case Insert(r, x) => Once(r) && x !in Items(r)
    case Reduce(a, b) => Once(a) && Once(b) && Items(a) !! Items(b)
  }

  ghost function Outcome(run: Run, n: nat): (r: seq<Item>)
    ensures |r| == n
  {
    match run
    case Init => Repeat(EMPTY, n)
    case Insert(r, x) => InsertItem(Outcome(r, n), x)
    case Reduce(a, b) => InsertAll(Outcome(a, n), Outcome(b, n))
  }

  lemma {:induction false} RunTop(run: Run, n: nat)
    requires Once(run) && Proper(Items(run))
    ensures TopOf(Outcome(run, n), Items(run))
  {
    hide TopOf, InsertItem, InsertAll;
    match run
    case Init => EmptiesTop(n);
    case Insert(r, x) =>
      assert Items(r) <= Items(run);
      RunTop(r, n);
      InsertTop(Outcome(r, n), Items(r), x);
    case Reduce(a, b) =>
      assert Items(a) <= Items(run) && Items(b) <= Items(run);
      RunTop(a, n);
      RunTop(b, n);
      MergeTop(Outcome(a, n), Items(a), Outcome(b, n), Items(b));
  }

  lemma {:induction false} EmptiesTop(n: nat)
    ensures TopOf(Repeat(EMPTY, n), {})
  {}

  /** Any two runs over the same items end with the same slots. */
  lemma {:induction false} OrderFree(a: Run, b: Run, n: nat)
    requires Once(a) && Once(b) && Items(a) == Items(b) && Proper(Items(a))
    ensures Outcome(a, n) == Outcome(b, n)
  {
    hide Outcome, TopOf;
    RunTop(a, n);
    RunTop(b, n);
    var c, d := Outcome(a, n), Outcome(b, n);
    TopUnique(c, d, Items(a), n);
    assert c == c[..n] && d == d[..n];
  }

  // ----- the device code

  ghost function Zip(values: seq<Value>, keys: seq<int>): (r: seq<Item>)
    requires |values| == |keys|
    ensures |r| == |values| && forall i | 0 <= i < |r| :: r[i] == Item(values[i], keys[i])
  {
    if values == [] then [] else
      Zip(values[..|values| - 1], keys[..|keys| - 1]) + [Item(values[|values| - 1], keys[|keys| - 1])]
  }

  lemma {:induction false} PlaceIs(c: seq<Item>, x: Item, p: nat)
    requires p <= |c| && (forall i | p <= i < |c| :: Beats(x, c[i])) && (p == 0 || !Beats(x, c[p - 1]))
    ensures Place(c, x) == p
  {
    if p < |c| { PlaceIs(c[..|c| - 1], x, p); }
  }

  /** How far the insertion has come: x sits at p, past every slot from p on, with k slots still to compare. */
  ghost predicate Moving(c: seq<Item>, now: seq<Item>, x: Item, p: nat, k: nat) {
    && k <= p <= |c|
    && now == Inserted(c, p, x)
    && (forall i | p <= i < |c| :: Beats(x, c[i]))
    && (k < p ==> !Beats(x, c[p - 1]))
  }

  /** One comparison of neighbours, as the loop makes it. */
  ghost function Swapped(now: seq<Item>, k: nat): seq<Item>
    requires k + 1 < |now|
  {
    if Beats(now[k + 1], now[k]) then now[k := now[k + 1]][k + 1 := now[k]] else now
  }

  lemma {:induction false} MovingOn(c: seq<Item>, now: seq<Item>, x: Item, p: nat, k: nat)
    requires Sorted(c) && IsItem(x) && k + 1 < |c| && Moving(c, now, x, p, k + 1)
    ensures Moving(c, Swapped(now, k), x, if p == k + 1 && Beats(x, c[k]) then k else p, k)
  {
    if p == k + 1 {
      if Beats(x, c[k]) { Inserts(c, p, k, x); }
    } else {
      StaysSorted(c, x, p, k);
      assert now[k] == c[k] && now[k + 1] == c[k + 1];
    }
  }

  lemma {:induction false} Inserts(c: seq<Item>, p: nat, k: nat, x: Item)
    requires p == k + 1 < |c|
    ensures var now := Inserted(c, p, x);
            now[k] == c[k] && now[k + 1] == x && now[k := now[k + 1]][k + 1 := now[k]] == Inserted(c, k, x)
  {}

  /** Below the place of x the slots are in order and full, so neighbours stay where they are. */
  lemma {:induction false} StaysSorted(c: seq<Item>, x: Item, p: nat, k: nat)
    requires Sorted(c) && k + 1 < p <= |c| && !Beats(x, c[p - 1])
    ensures !Beats(c[k + 1], c[k])
  {
    assert c[p - 1] != EMPTY;
    assert c[k] != EMPTY && Better(c[k], c[k + 1]);
  }

  lemma {:induction false} Begins(c: seq<Item>, x: Item)
    requires Sorted(c) && c != [] && (IsItem(x) || x == EMPTY)
    ensures var last := |c| - 1;
            var now := if Beats(x, c[last]) then c[last := x] else c;
            if x == EMPTY then now == c else Moving(c, now, x, if Beats(x, c[last]) then last else |c|, last)
  {
    var last := |c| - 1;
    assert c[last := x] == Inserted(c, last, x);
  }

  lemma {:induction false} Ends(c: seq<Item>, now: seq<Item>, x: Item, p: nat)
    requires x != EMPTY && Moving(c, now, x, p, 0)
    ensures now == InsertItem(c, x)
  {
    PlaceIs(c, x, p);
  }

  /** Swapping empty slots changes nothing. */
  lemma {:induction false} SortedStays(c: seq<Item>, k: nat)
    requires Sorted(c) && k + 1 < |c|
    ensures Swapped(c, k) == c
  {
    if c[k] != EMPTY && c[k + 1] != EMPTY { assert Better(c[k], c[k + 1]); }
    if c[k] == EMPTY { assert c[k + 1] == EMPTY; }
  }

  class TopK {
    const key: array<int>
    const value: array<Value>

    ghost predicate Valid()
      reads this
    {
      0 < key.Length == value.Length
    }

    ghost function Slots(): (r: seq<Item>)
      requires Valid()
      reads this, key, value
      ensures |r| == key.Length
    {
      Zip(value[..], key[..])
    }

    /** All slots empty. */
    constructor (maxK: nat)
      requires 0 < maxK
      ensures Valid() && Slots() == Repeat(EMPTY, maxK) && fresh(key) && fresh(value) && key.Length == maxK
    {
      key := new int[maxK](_ => -1);
      value := new Value[maxK](_ => NegInf);
      new;
      assert forall i | 0 <= i < maxK :: Slots()[i] == Repeat(EMPTY, maxK)[i];
    }

    /** Puts an item in its place, dropping the last slot; an empty item changes nothing. */
    method Insert(elem: Value, id: int)
      requires Valid() && Sorted(Slots()) && (IsItem(Item(elem, id)) || Item(elem, id) == EMPTY)
      modifies key, value
      ensures Slots() == InsertItem(old(Slots()), Item(elem, id))
    {
      hide Inserted, Place, Sorted, Beats, Moving, Swapped, Zip;
      var n := key.Length;
      ghost var c, x := Slots(), Item(elem, id);
      ghost var p: nat := if Beats(x, c[n - 1]) then n - 1 else n;
      Begins(c, x);
      ReplaceLast(elem, id);
      var k := n - 1;
      while k > 0
        invariant 0 <= k < n && (x == EMPTY ==> Slots() == c)
        invariant x != EMPTY ==> Moving(c, Slots(), x, p, k)
      {
        k := k - 1;
        ghost var now := Slots();
        if x == EMPTY { SortedStays(c, k); } else { MovingOn(c, now, x, p, k); }
        if x != EMPTY && p == k + 1 && Beats(x, c[k]) { p := k; }
        Compare(k);
      }
      if x != EMPTY { Ends(c, Slots(), x, p); }
    }

    method Compare(k: nat)
      requires Valid() && k + 1 < key.Length
      modifies key, value
      ensures Slots() == Swapped(old(Slots()), k)
    {
      ghost var was := Slots();
      if value[k].Less(value[k + 1]) || key[k] == -1 || (value[k + 1] == value[k] && key[k + 1] < key[k]) {
        var v, i := value[k], key[k];
        value[k] := value[k + 1];
        key[k] := key[k + 1];
        value[k + 1] := v;
        key[k + 1] := i;
      }
      forall j | 0 <= j < key.Length ensures Slots()[j] == Swapped(was, k)[j] {}
    }

    method ReplaceLast(elem: Value, id: int)
      requires Valid()
      modifies key, value
      ensures var c, x, last := old(Slots()), Item(elem, id), key.Length - 1;
              Slots() == if Beats(x, c[last]) then c[last := x] else c
    {
      ghost var c, x := Slots(), Item(elem, id);
      var last := key.Length - 1;
      if value[last].Less(elem) || key[last] == -1 || (elem == value[last] && id < key[last]) {
        value[last] := elem;
        key[last] := id;
        assert forall j | 0 <= j < key.Length :: Slots()[j] == c[last := x][j];
      }
    }

    /** Merges another list into a copy of this one: if the two hold the best of two disjoint sets, the result
        holds the best of their union. */
    method Reduce(other: TopK, ghost s: set<Item>, ghost t: set<Item>) returns (res: TopK)
      requires Valid() && other.Valid() && other.key.Length == key.Length
      requires TopOf(Slots(), s) && TopOf(other.Slots(), t) && s !! t && Proper(s + t)
      ensures res.Valid() && fresh(res) && fresh(res.key) && fresh(res.value) && res.key.Length == key.Length
      ensures res.Slots() == InsertAll(Slots(), other.Slots()) && TopOf(res.Slots(), s + t)
    {
      hide InsertItem, Zip, Inserted, Place, Sorted, TopOf;
      var n := key.Length;
      res := new TopK(n);
      ghost var c, d := Slots(), other.Slots();
      res.CopyFrom(this);
      InsertNone(c, d[..0]);
      for i := 0 to n
        invariant res.Valid() && fresh(res) && fresh(res.key) && fresh(res.value) && res.key.Length == n
        invariant res.Slots() == InsertAll(c, d[..i])
      {
        NextMerged(c, s, d, t, i);
        other.SlotIs(i);
        assert other.Slots() == d;
        res.Insert(other.value[i], other.key[i]);
      }
      assert d[..n] == d;
      MergeTop(c, s, d, t);
    }

    lemma {:induction false} SlotIs(i: nat)
      requires Valid() && i < key.Length
      ensures Slots()[i] == Item(value[i], key[i])
    {}

    method CopyFrom(other: TopK)
      requires Valid() && other.Valid() && other.key.Length == key.Length && key != other.key && value != other.value
      modifies key, value
      ensures Slots() == other.Slots()
    {
      for i := 0 to key.Length
        invariant forall j | 0 <= j < i :: key[j] == other.key[j] && value[j] == other.value[j]
      {
        key[i] := other.key[i];
        value[i] := other.value[i];
      }
      assert key[..] == other.key[..] && value[..] == other.value[..];
    }
  }

  lemma {:induction false} InsertNone(c: seq<Item>, none: seq<Item>)
    requires none == []
    ensures InsertAll(c, none) == c
  {}

  lemma {:induction false} NextMerged(c: seq<Item>, s: set<Item>, d: seq<Item>, t: set<Item>, i: nat)
    requires TopOf(c, s) && TopOf(d, t) && s !! t && Proper(s + t) && i < |d|
    ensures InsertAll(c, d[..i + 1]) == InsertItem(InsertAll(c, d[..i]), d[i])
    ensures Sorted(InsertAll(c, d[..i])) && (d[i] == EMPTY || IsItem(d[i]))
  {
    assert d[..i + 1][..i] == d[..i];
    assert Contents(d[..i]) <= t;
    InsertAllTop(c, s, d[..i], t);
  }
}
