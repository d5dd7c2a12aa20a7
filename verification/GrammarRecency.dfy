/**
 What the recency list of the grammar cache means over whole runs: it is the ready keys ordered by their latest use,
 and eviction drops the one whose latest use is oldest, no more often than it must.
 */
module GrammarRecency {
  import opened Common
  import opened Pigeonhole
  import opened GrammarCache
  import opened GrammarFlight

  // ----- uses

  /** The key that a step uses: that of a lookup which finds it ready, or of an entry which becomes ready. */
  ghost function UsedKey(sys: System, step: Step): Option<string> {
    match step
    case Begin(_, r) =>
      var key := CacheKey(r);
      if key in sys.cache.entries && sys.cache.entries[key].ready then Some(key) else None
    case PublishEntry(c) =>
      var pc := PcOf(sys, c);
      if pc.Compiled? && pc.cached then Some(CacheKey(pc.request)) else None
    case _ => None
  }

  /** Step i of the run uses k. */
  ghost predicate UsedAt(steps: seq<Step>, i: nat, k: string)
    requires i < |steps|
  {
    After(steps[..i]).Some? && UsedKey(After(steps[..i]).value, steps[i]) == Some(k)
  }

  /** The last step that uses k, or -1. */
  ghost function LastUse(steps: seq<Step>, k: string): int {
    if steps == [] then -1
    else
      var n := |steps| - 1;
      if UsedAt(steps, n, k) then n else LastUse(steps[..n], k)
  }

  lemma {:induction false} LastUseIsLast(steps: seq<Step>, k: string)
    ensures -1 <= LastUse(steps, k) < |steps|
    ensures 0 <= LastUse(steps, k) ==> UsedAt(steps, LastUse(steps, k), k)
    ensures forall i | LastUse(steps, k) < i < |steps| :: !UsedAt(steps, i, k)
  {
    hide After;
    if steps != [] {
      var n := |steps| - 1;
      LastUseIsLast(steps[..n], k);
      forall i | 0 <= i < n ensures UsedAt(steps[..n], i, k) <==> UsedAt(steps, i, k) {
        assert steps[..n][..i] == steps[..i];
      }
    }
  }

  lemma {:induction false} LastUseAfter(steps: seq<Step>, sys: System, step: Step, k: string)
    requires After(steps) == Some(sys)
    ensures LastUse(steps + [step], k) == if UsedKey(sys, step) == Some(k) then |steps| else LastUse(steps, k)
  {
    hide After, UsedKey;
    assert (steps + [step])[..|steps|] == steps;
  }

  // ----- the order

  /** Every key of the list was used, each later than the next. */
  ghost predicate Recent(keys: seq<string>, steps: seq<Step>) {
    && (forall i | 0 <= i < |keys| :: 0 <= LastUse(steps, keys[i]))
    && (forall i, j | 0 <= i < j < |keys| :: LastUse(steps, keys[j]) < LastUse(steps, keys[i]))
  }

  lemma {:induction false} RecentPrefix(keys: seq<string>, steps: seq<Step>, m: nat)
    requires Recent(keys, steps) && m <= |keys|
    ensures Recent(keys[..m], steps)
  {}

  lemma {:induction false} RecentWithout(keys: seq<string>, steps: seq<Step>, k: string)
    requires Recent(keys, steps)
    ensures Recent(RemoveKey(keys, k), steps)
    ensures forall x | x in RemoveKey(keys, k) :: x in keys
  {
    hide Recent;
    if keys != [] {
      RecentTail(keys, steps);
      RecentWithout(keys[1..], steps, k);
      if keys[0] != k { RecentCons(keys, steps, RemoveKey(keys[1..], k)); }
    }
  }

  lemma {:induction false} RecentTail(keys: seq<string>, steps: seq<Step>)
    requires Recent(keys, steps) && keys != []
    ensures Recent(keys[1..], steps)
  {
    hide LastUse;
  }

  lemma {:induction false} RecentCons(keys: seq<string>, steps: seq<Step>, rest: seq<string>)
    requires Recent(keys, steps) && keys != [] && Recent(rest, steps) && forall x | x in rest :: x in keys[1..]
    ensures Recent([keys[0]] + rest, steps)
  {
    hide LastUse;
    forall j | 0 <= j < |rest| ensures LastUse(steps, rest[j]) < LastUse(steps, keys[0]) {
      assert rest[j] in keys[1..];
      var i :| 0 <= i < |keys[1..]| && keys[1..][i] == rest[j];
      assert keys[i + 1] == rest[j];
    }
  }

  /** Keys that a step does not use keep their order. */
  lemma {:induction false} RecentUnused(keys: seq<string>, steps: seq<Step>, sys: System, step: Step)
    requires After(steps) == Some(sys) && Recent(keys, steps)
    requires forall i | 0 <= i < |keys| :: UsedKey(sys, step) != Some(keys[i])
    ensures Recent(keys, steps + [step])
  {
    hide LastUse, UsedKey, After;
    forall i | 0 <= i < |keys| ensures LastUse(steps + [step], keys[i]) == LastUse(steps, keys[i]) {
      LastUseAfter(steps, sys, step, keys[i]);
    }
  }

  /** The key it uses comes first. */
  lemma {:induction false} RecentFront(keys: seq<string>, steps: seq<Step>, sys: System, step: Step, k: string)
    requires After(steps) == Some(sys) && Recent(keys, steps) && UsedKey(sys, step) == Some(k) && k !in keys
    ensures Recent([k] + keys, steps + [step])
  {
    hide LastUse, UsedKey, After;
    RecentUnused(keys, steps, sys, step);
    LastUseAfter(steps, sys, step, k);
    forall i | 0 <= i < |keys| ensures LastUse(steps + [step], keys[i]) < |steps| {
      LastUseAfter(steps, sys, step, keys[i]);
      LastUseIsLast(steps, keys[i]);
    }
  }

  // ----- what a step does to the list

  /** The list after a step: what is left of it, behind the key that the step uses. */
  ghost predicate Moved(sys: System, step: Step, l': seq<string>, m: nat) {
    var l := sys.cache.lru;
    && m <= |l|
    && match UsedKey(sys, step)
       case None => l' == l[..m]
       case Some(k) => if k in l then m == |l| && l' == [k] + RemoveKey(l, k) else l' == [k] + l[..m]
  }

  /** Ready entries survive exactly if they are not cut off; every one cut off is counted. */
  ghost predicate Survive(s: State, s': State, m: nat) {
    && m <= |s.lru| && s'.evictions == s.evictions + |s.lru| - m
    && forall k | k in s.lru :: (k in s'.entries && s'.entries[k].ready) <==> k !in s.lru[m..]
  }

  lemma {:induction false} LookupMoves(s: State, key: string, promise: nat) returns (m: nat)
    requires Consistent(s)
    ensures var s' := Lookup(s, key, promise);
            && Survive(s, s', m)
            && (if key in s.entries && s.entries[key].ready then m == |s.lru| && s'.lru == [key] + RemoveKey(s.lru, key)
                else s'.lru == s.lru[..m])
            && (m < |s.lru| ==>
                  key !in s.entries && s.cachedBytes - KeyBytes(s.lru[m + 1..]) + |key| > MAX_KEY_BYTES)
  {
    hide Consistent, EvictFor, KeyBytes, RemoveKey;
    m := |s.lru|;
    assert s.lru[m..] == [] && s.lru[..m] == s.lru;
    ReadyListed(s);
    if LookupFound(s, key) == Compile(true) {
      MissConsistent(s);
      var t := EvictFor(s.(misses := s.misses + 1), |key|);
      EvictForExact(s.(misses := s.misses + 1), |key|);
      m := |t.lru|;
    }
  }

  lemma {:induction false} ReadyListed(s: State)
    requires Consistent(s)
    ensures forall k :: k in s.lru <==> k in s.entries && s.entries[k].ready
  {
    hide Accounted;
  }

  lemma {:induction false} PublishMoves(s: State, key: string) returns (m: nat)
    requires Consistent(s) && key in s.entries && !s.entries[key].ready
    ensures var s' := Publish(s, key);
            && Survive(s, s', m) && s'.lru == [key] + s.lru[..m] && key !in s.lru
            && m == if |s.lru| < MAX_CACHED_GRAMMARS then |s.lru| else MAX_CACHED_GRAMMARS - 1
  {
    hide Consistent, EvictToCount, KeyBytes;
    ReadyListed(s);
    EvictToCountExact(s);
    m := if |s.lru| < MAX_CACHED_GRAMMARS then |s.lru| else MAX_CACHED_GRAMMARS - 1;
  }

  lemma {:induction false} StepMoves(sys: System, step: Step) returns (m: nat)
    requires Inv(sys) && Enabled(sys, step)
    ensures Moved(sys, step, Next(sys, step).cache.lru, m) && Survive(sys.cache, Next(sys, step).cache, m)
  {
    hide Consistent, CacheKey, Supported, RemoveKey, Lookup, Publish, Fits, KeyBytes, CallersOk, PromisesOk, EntriesOk;
    var s := sys.cache;
    m := |s.lru|;
    assert s.lru[m..] == [] && s.lru[..m] == s.lru;
    ReadyListed(s);
    match step
    case Begin(_, r) => m := LookupMoves(s, CacheKey(r), |sys.promises|);
    case PublishEntry(c) =>
      StillPending(sys, c);
      if PcOf(sys, c).cached { m := PublishMoves(s, CacheKey(PcOf(sys, c).request)); }
    case EraseEntry(c) => StillPending(sys, c);
    case FinishCompile(_) =>
    case FailCompile(_) =>
    case Resolve(_) =>
    case Await(_) =>
  }

  lemma {:induction false} StillPending(sys: System, c: nat)
    requires Inv(sys) && InFlight(PcOf(sys, c))
    ensures PcOf(sys, c).cached ==>
              CacheKey(PcOf(sys, c).request) in sys.cache.entries
              && !sys.cache.entries[CacheKey(PcOf(sys, c).request)].ready
  {
    hide Consistent, CacheKey, Supported;
    assert CallerOk(sys, c, sys.callers[c]);
  }

  // ----- whole runs

  /** After any interleaving of any callers the recency list is the ready keys in the order of their latest hit or
      publication, newest first. */
  lemma {:induction false} ListIsByRecency(steps: seq<Step>)
    requires After(steps).Some?
    ensures var s := After(steps).value.cache;
            Recent(s.lru, steps) && forall k :: k in s.lru <==> k in s.entries && s.entries[k].ready
  {
    hide Inv, Next, Recent, UsedKey;
    EveryRunKeepsInv(steps);
    InvConsistent(After(steps).value);
    ReadyListed(After(steps).value.cache);
    if steps == [] {
      NothingRecent();
    } else {
      var n := |steps| - 1;
      var before, step := steps[..n], steps[n];
      ListIsByRecency(before);
      EveryRunKeepsInv(before);
      assert steps == before + [step];
      StepRecent(before, After(before).value, step);
    }
  }

  lemma {:induction false} NothingRecent()
    ensures Recent(START.cache.lru, [])
  {}

  lemma {:induction false} InvConsistent(sys: System)
    requires Inv(sys)
    ensures Consistent(sys.cache)
  {}

  lemma {:induction false} StepRecent(steps: seq<Step>, sys: System, step: Step)
    requires After(steps) == Some(sys) && Inv(sys) && Enabled(sys, step) && Recent(sys.cache.lru, steps)
    ensures Recent(Next(sys, step).cache.lru, steps + [step])
  {
    hide Inv, Next, Recent, UsedKey, RemoveKey, Survive, After, Enabled;
    InvConsistent(sys);
    var l := sys.cache.lru;
    var m := StepMoves(sys, step);
    RecentPrefix(l, steps, m);
    match UsedKey(sys, step)
    case None => RecentUnused(l[..m], steps, sys, step);
    case Some(k) =>
      if k in l {
        RecentWithout(l, steps, k);
        WithoutKey(sys.cache, k);
        RecentFront(RemoveKey(l, k), steps, sys, step, k);
      } else {
        RecentFront(l[..m], steps, sys, step, k);
      }
  }

  lemma {:induction false} WithoutKey(s: State, k: string)
    requires Consistent(s)
    ensures k !in RemoveKey(s.lru, k)
  {
    RemoveKeyMembers(s.lru, k);
  }

  /** Every eviction of a run drops the ready keys whose latest use is oldest: whatever stays was used later. */
  lemma {:induction false} EvictsOldest(steps: seq<Step>, sys: System, step: Step, k: string, j: string)
    requires After(steps) == Some(sys) && Enabled(sys, step)
    requires k in sys.cache.entries && sys.cache.entries[k].ready
    requires j in sys.cache.entries && sys.cache.entries[j].ready
    requires var s' := Next(sys, step).cache; k !in s'.entries && j in s'.entries && s'.entries[j].ready
    ensures LastUse(steps, k) < LastUse(steps, j)
  {
    hide Inv, Next, LastUse, UsedKey, RemoveKey, After, Enabled;
    EveryRunKeepsInv(steps);
    ListIsByRecency(steps);
    var l := sys.cache.lru;
    var m := StepMoves(sys, step);
    var a :| m <= a < |l| && l[a] == k by { assert k in l[m..]; }
    var b :| 0 <= b < |l| && l[b] == j;
  }

  /** Evictions happen only in a lookup that reserves an entry or in a publication, and drop no more than they must:
      with one ready key more the bytes of the new key, or one more ready entry, would not have fitted. */
  lemma {:induction false} EvictsNoMoreThanNeeded(steps: seq<Step>, sys: System, step: Step) returns (m: nat)
    requires After(steps) == Some(sys) && Enabled(sys, step)
    ensures var s, s' := sys.cache, Next(sys, step).cache;
            && Survive(s, s', m)
            && (m < |s.lru| ==>
                  || (step.PublishEntry? && |s.lru| == MAX_CACHED_GRAMMARS && m == MAX_CACHED_GRAMMARS - 1)
                  || (step.Begin? && CacheKey(step.request) !in s.entries
                      && s.cachedBytes - KeyBytes(s.lru[m + 1..]) + |CacheKey(step.request)| > MAX_KEY_BYTES))
  {
    hide Consistent, CacheKey, Supported, RemoveKey, Lookup, Publish, Fits, KeyBytes, CallersOk, PromisesOk, EntriesOk,
         After;
    EveryRunKeepsInv(steps);
    var s := sys.cache;
    m := |s.lru|;
    assert s.lru[m..] == [] && s.lru[..m] == s.lru;
    ReadyListed(s);
    match step
    case Begin(_, r) => m := LookupMoves(s, CacheKey(r), |sys.promises|);
    case PublishEntry(c) =>
      StillPending(sys, c);
      if PcOf(sys, c).cached {
        m := PublishMoves(s, CacheKey(PcOf(sys, c).request));
        AtMostAll(s);
      }
    case EraseEntry(c) => StillPending(sys, c);
    case FinishCompile(_) =>
    case FailCompile(_) =>
    case Resolve(_) =>
    case Await(_) =>
  }

  lemma {:induction false} AtMostAll(s: State)
    requires Consistent(s)
    ensures |s.lru| <= MAX_CACHED_GRAMMARS
  {}

  // ----- the counters

  datatype Tally = Tally(hits: nat, waits: nat, misses: nat, evictions: nat)

  /** The ready keys that a step makes disappear. */
  ghost function Dropped(s: State, s': State): set<string> {
    set k | k in s.entries && s.entries[k].ready && k !in s'.entries
  }

  /** What happened in a run: lookups that found their key ready, pending or not at all, and ready keys dropped. */
  ghost function TallyOf(steps: seq<Step>): Tally {
    if steps == [] || After(steps).None? then Tally(0, 0, 0, 0)
    else
      var n := |steps| - 1;
      var t, s, step := TallyOf(steps[..n]), After(steps[..n]).value.cache, steps[n];
      var dropped := t.(evictions := t.evictions + |Dropped(s, After(steps).value.cache)|);
      if !step.Begin? then dropped
      else if CacheKey(step.request) !in s.entries then dropped.(misses := t.misses + 1)
      else if s.entries[CacheKey(step.request)].ready then dropped.(hits := t.hits + 1)
      else dropped.(waits := t.waits + 1)
  }

  ghost function Counters(s: State): Tally {
    Tally(s.hits, s.waits, s.misses, s.evictions)
  }

  /** The four counters count what they say. */
  lemma {:induction false} CountersAreExact(steps: seq<Step>)
    requires After(steps).Some?
    ensures Counters(After(steps).value.cache) == TallyOf(steps)
  {
    hide Inv, Next, CacheKey;
    if steps != [] {
      var n := |steps| - 1;
      CountersAreExact(steps[..n]);
      EveryRunKeepsInv(steps[..n]);
      StepCounts(After(steps[..n]).value, steps[n]);
    }
  }

  lemma {:induction false} StepCounts(sys: System, step: Step)
    requires Inv(sys) && Enabled(sys, step)
    ensures var s, s' := sys.cache, Next(sys, step).cache;
            && s'.evictions == s.evictions + |Dropped(s, s')|
            && (!step.Begin? ==> s'.hits == s.hits && s'.waits == s.waits && s'.misses == s.misses)
            && (step.Begin? ==>
                  var key := CacheKey(step.request);
                  && s'.misses == s.misses + (if key !in s.entries then 1 else 0)
                  && s'.hits == s.hits + (if key in s.entries && s.entries[key].ready then 1 else 0)
                  && s'.waits == s.waits + (if key in s.entries && !s.entries[key].ready then 1 else 0))
  {
    StepDrops(sys, step);
    hide Dropped;
    StepTallies(sys, step);
  }

  lemma {:induction false} StepTallies(sys: System, step: Step)
    requires Inv(sys) && Enabled(sys, step)
    ensures var s, s' := sys.cache, Next(sys, step).cache;
            && (!step.Begin? ==> s'.hits == s.hits && s'.waits == s.waits && s'.misses == s.misses)
            && (step.Begin? ==>
                  var key := CacheKey(step.request);
                  && s'.misses == s.misses + (if key !in s.entries then 1 else 0)
                  && s'.hits == s.hits + (if key in s.entries && s.entries[key].ready then 1 else 0)
                  && s'.waits == s.waits + (if key in s.entries && !s.entries[key].ready then 1 else 0))
  {
    hide Consistent, CacheKey, Supported, RemoveKey, Fits, CallersOk, PromisesOk, EntriesOk, EvictFor, EvictToCount;
    match step
    case Begin(_, r) => if CacheKey(r) !in sys.cache.entries { LookupMissing(sys.cache, CacheKey(r), |sys.promises|); }
    case PublishEntry(c) =>
      StillPending(sys, c);
      if PcOf(sys, c).cached { PublishEntries(sys.cache, CacheKey(PcOf(sys, c).request)); }
    case EraseEntry(c) =>
    case FinishCompile(_) =>
    case FailCompile(_) =>
    case Resolve(_) =>
    case Await(_) =>
  }

  lemma {:induction false} StepDrops(sys: System, step: Step)
    requires Inv(sys) && Enabled(sys, step)
    ensures Next(sys, step).cache.evictions == sys.cache.evictions + |Dropped(sys.cache, Next(sys, step).cache)|
  {
    hide Inv, Next, Moved, Enabled;
    InvConsistent(sys);
    var s, s' := sys.cache, Next(sys, step).cache;
    var m := StepMoves(sys, step);
    NeverUnready(sys, step);
    TailDistinct(s, m);
    ReadyListed(s);
    assert Dropped(s, s') == Elements(s.lru[m..]);
  }

  lemma {:induction false} TailDistinct(s: State, m: nat)
    requires Consistent(s) && m <= |s.lru|
    ensures |Elements(s.lru[m..])| == |s.lru| - m && forall k :: k in Elements(s.lru[m..]) <==> k in s.lru[m..]
    ensures forall k | k in s.lru[m..] :: k in s.lru
  {
    DistinctCardinality(s.lru[m..]);
  }

  /** A ready entry stays ready for as long as it is there. */
  lemma {:induction false} NeverUnready(sys: System, step: Step)
    requires Inv(sys) && Enabled(sys, step)
    ensures forall k | k in sys.cache.entries && sys.cache.entries[k].ready && k in Next(sys, step).cache.entries ::
              Next(sys, step).cache.entries[k].ready
  {
    hide Consistent, CacheKey, Supported, RemoveKey, Fits, CallersOk, PromisesOk, EntriesOk, EvictFor, EvictToCount;
    match step
    case Begin(_, r) => if CacheKey(r) !in sys.cache.entries { LookupMissing(sys.cache, CacheKey(r), |sys.promises|); }
    case PublishEntry(c) =>
      StillPending(sys, c);
      if PcOf(sys, c).cached { PublishEntries(sys.cache, CacheKey(PcOf(sys, c).request)); }
    case EraseEntry(c) =>
    case FinishCompile(_) =>
    case FailCompile(_) =>
    case Resolve(_) =>
    case Await(_) =>
  }
}
