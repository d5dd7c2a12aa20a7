/**
 Concurrent callers of the grammar cache. Each critical section is one atomic step under the mutex; a
 caller compiles, and resolves its promise, outside it. The invariant holds under any interleaving.
 */
module GrammarFlight {
  import opened Common
  import opened Sums
  import opened GrammarCache

  datatype PromiseState = Unset | Value(asset: Asset) | Error

  datatype Promise = Promise(owner: nat, request: Request, state: PromiseState)

  /** Where a caller of GetGrammarAsset is. */
  datatype Pc =
    | Idle
    | Waiting(request: Request, promise: nat)
    | Compiling(request: Request, promise: nat, cached: bool)
    | Compiled(request: Request, promise: nat, cached: bool, asset: Asset)
    | Failed(request: Request, promise: nat, cached: bool)
    | Published(request: Request, promise: nat, asset: Asset)
    | Aborted(request: Request, promise: nat)
    | Returned(request: Request, asset: Asset)
    | Threw(request: Request)

  datatype System = System(cache: State, promises: seq<Promise>, callers: map<nat, Pc>, lookups: nat)

  datatype Step =
    | Begin(caller: nat, request: Request)
    | FinishCompile(caller: nat)
    | FailCompile(caller: nat)
    | PublishEntry(caller: nat)
    | EraseEntry(caller: nat)
    | Resolve(caller: nat)
    | Await(caller: nat)

  function PcOf(sys: System, c: nat): Pc {
    if c in sys.callers then sys.callers[c] else Idle
  }

  predicate Enabled(sys: System, step: Step) {
    var pc := PcOf(sys, step.caller);
    match step
    case Begin(_, r) => (pc.Idle? || pc.Returned? || pc.Threw?) && Supported(r.guidanceType)
    case FinishCompile(_) => pc.Compiling?
    case FailCompile(_) => pc.Compiling?
    case PublishEntry(_) => pc.Compiled?
    case EraseEntry(_) => pc.Failed?
    case Resolve(_) => pc.Published? || pc.Aborted?
    case Await(_) => pc.Waiting? && pc.promise < |sys.promises| && !sys.promises[pc.promise].state.Unset?
  }

  function Move(sys: System, c: nat, pc: Pc): System {
    sys.(callers := sys.callers[c := pc])
  }

  function Next(sys: System, step: Step): System
    requires Enabled(sys, step)
  {
    var c := step.caller;
    var pc := PcOf(sys, c);
    match step
    case Begin(_, r) =>
      var key := CacheKey(r);
      var sys' := sys.(cache := Lookup(sys.cache, key, |sys.promises|), lookups := sys.lookups + 1);
      (match LookupFound(sys.cache, key)
       case Hit(p) => Move(sys', c, Waiting(r, p))
       case Wait(p) => Move(sys', c, Waiting(r, p))
       case Compile(cached) =>
         Move(sys', c, Compiling(r, |sys.promises|, cached)).(promises := sys.promises + [Promise(c, r, Unset)]))
    case FinishCompile(_) => Move(sys, c, Compiled(pc.request, pc.promise, pc.cached, AssetFor(pc.request)))
    case FailCompile(_) => Move(sys, c, Failed(pc.request, pc.promise, pc.cached))
    case PublishEntry(_) =>
      var key := CacheKey(pc.request);
      if !pc.cached then Move(sys, c, Published(pc.request, pc.promise, pc.asset))
      // the "disappeared from the cache" error
      else if key !in sys.cache.entries then Move(sys, c, Failed(pc.request, pc.promise, true))
      else Move(sys, c, Published(pc.request, pc.promise, pc.asset)).(cache := Publish(sys.cache, key))
    case EraseEntry(_) =>
      var key := CacheKey(pc.request);
      var sys' := Move(sys, c, Aborted(pc.request, pc.promise));
      if pc.cached && key in sys.cache.entries then
        sys'.(cache := if sys.cache.entries[key].ready
                       then Erase(sys.cache, key).(lru := RemoveKey(sys.cache.lru, key), pendingBytes :=
                         sys.cache.pendingBytes)
                       else Erase(sys.cache, key))
      else sys'
    case Resolve(_) =>
      if pc.promise < |sys.promises| then
        var p := sys.promises[pc.promise];
        if pc.Published? then
          Move(sys, c, Returned(pc.request, pc.asset)).(promises :=
            sys.promises[pc.promise := p.(state := Value(pc.asset))])
        else
          Move(sys, c, Threw(pc.request)).(promises := sys.promises[pc.promise := p.(state := Error)])
      else sys
    case Await(_) =>
      var p := sys.promises[pc.promise];
      Move(sys, c, if p.state.Value? then Returned(pc.request, p.state.asset) else Threw(pc.request))
  }

  // ----- the invariant

  predicate InFlight(pc: Pc) {
    pc.Compiling? || pc.Compiled? || pc.Failed?
  }

  predicate Owning(pc: Pc) {
    InFlight(pc) || pc.Published? || pc.Aborted?
  }

  /** What a caller's place means for its promise and its entry. */
  ghost predicate CallerOk(sys: System, c: nat, pc: Pc) {
    && (pc.Waiting? ==>
          && pc.promise < |sys.promises|
          && Supported(pc.request.guidanceType)
          && CacheKey(sys.promises[pc.promise].request) == CacheKey(pc.request))
    && (Owning(pc) ==>
          && pc.promise < |sys.promises|
          && sys.promises[pc.promise] == Promise(c, pc.request, Unset)
          && Supported(pc.request.guidanceType))
    && (InFlight(pc) && pc.cached ==>
          && CacheKey(pc.request) in sys.cache.entries
          && sys.cache.entries[CacheKey(pc.request)] == Entry(pc.promise, false))
    && (pc.Compiled? || pc.Published? || pc.Returned? ==> pc.asset == AssetFor(pc.request))
  }

  /** An unresolved promise has a live owner that will resolve it; a value is the request's own grammar. */
  ghost predicate PromiseOk(sys: System, p: nat)
    requires p < |sys.promises|
  {
    var promise := sys.promises[p];
    && Supported(promise.request.guidanceType)
    && (promise.state.Unset? ==> Owning(PcOf(sys, promise.owner)) && PcOf(sys, promise.owner).promise == p)
    && (promise.state.Value? ==> promise.state.asset == AssetFor(promise.request))
  }

  /** A pending entry is being compiled for the cache; a ready one has, or is about to get, its value. */
  ghost predicate EntryOk(sys: System, k: string)
    requires k in sys.cache.entries
  {
    var e := sys.cache.entries[k];
    && e.promise < |sys.promises|
    && var promise := sys.promises[e.promise];
       && CacheKey(promise.request) == k
       && (!e.ready ==> promise.state.Unset? && InFlight(PcOf(sys, promise.owner)) && PcOf(sys, promise.owner).cached)
       && (e.ready ==> promise.state.Value? || (promise.state.Unset? && PcOf(sys, promise.owner).Published?))
  }

  ghost predicate CallersOk(sys: System) {
    forall c | c in sys.callers :: CallerOk(sys, c, sys.callers[c])
  }

  ghost predicate PromisesOk(sys: System) {
    forall p | 0 <= p < |sys.promises| :: PromiseOk(sys, p)
  }

  ghost predicate EntriesOk(sys: System) {
    forall k | k in sys.cache.entries :: EntryOk(sys, k)
  }

  ghost predicate Inv(sys: System) {
    && Consistent(sys.cache)
    && sys.cache.hits + sys.cache.waits + sys.cache.misses == sys.lookups
    && CallersOk(sys) && PromisesOk(sys) && EntriesOk(sys)
  }

  const START := System(INITIAL, [], map[], 0)

  lemma {:induction false} StartInv()
    ensures Inv(START)
  {
    SumEmpty<string>();
    assert Sizes(map[]) == map[] && PendingSizes(map[]) == map[];
  }

  // ----- every step keeps it

  /** Steps that change neither the cache nor the promises, and keep c's promise: compiling ends. */
  lemma {:induction false} CompileKeeps(sys: System, c: nat, pc': Pc)
    requires Inv(sys) && PcOf(sys, c).Compiling? && InFlight(pc')
    requires var pc := PcOf(sys, c); pc'.request == pc.request && pc'.promise == pc.promise && pc'.cached == pc.cached
    requires pc'.Compiled? ==> pc'.asset == AssetFor(pc'.request)
    ensures Inv(Move(sys, c, pc'))
  {
    hide Consistent, CacheKey, Supported;
    var sys' := Move(sys, c, pc');
    assert CallerOk(sys, c, sys.callers[c]);
    forall d | d in sys'.callers ensures CallerOk(sys', d, sys'.callers[d]) {
      if d != c { assert CallerOk(sys, d, sys.callers[d]); }
    }
    forall p | 0 <= p < |sys'.promises| ensures PromiseOk(sys', p) { assert PromiseOk(sys, p); }
    forall k | k in sys'.cache.entries ensures EntryOk(sys', k) { assert EntryOk(sys, k); }
  }

  lemma {:induction false} AwaitKeeps(sys: System, step: Step)
    requires Inv(sys) && step.Await? && Enabled(sys, step)
    ensures Inv(Next(sys, step))
  {
    hide Consistent, CacheKey, Supported;
    var c := step.caller;
    var sys', pc := Next(sys, step), PcOf(sys, c);
    assert CallerOk(sys, c, sys.callers[c]);
    assert PromiseOk(sys, pc.promise);
    KeyInjective(pc.request, sys.promises[pc.promise].request);
    forall d | d in sys'.callers ensures CallerOk(sys', d, sys'.callers[d]) {
      if d != c { assert CallerOk(sys, d, sys.callers[d]); }
    }
    forall p | 0 <= p < |sys'.promises| ensures PromiseOk(sys', p) { assert PromiseOk(sys, p); }
    forall k | k in sys'.cache.entries ensures EntryOk(sys', k) { assert EntryOk(sys, k); }
  }

  lemma {:induction false} ResolveKeeps(sys: System, step: Step)
    requires Inv(sys) && step.Resolve? && Enabled(sys, step)
    ensures Inv(Next(sys, step))
  {
    hide Consistent, CacheKey, Supported;
    var c := step.caller;
    var sys', pc := Next(sys, step), PcOf(sys, c);
    assert CallerOk(sys, c, sys.callers[c]);
    forall d | d in sys'.callers ensures CallerOk(sys', d, sys'.callers[d]) {
      if d != c { assert CallerOk(sys, d, sys.callers[d]); }
    }
    forall p | 0 <= p < |sys'.promises| ensures PromiseOk(sys', p) { assert PromiseOk(sys, p); }
    forall k | k in sys'.cache.entries ensures EntryOk(sys', k) {
      assert EntryOk(sys, k) && PromiseOk(sys, sys.cache.entries[k].promise);
    }
  }

  /** The lookup step finds an entry: nothing moves but the caller and the recency order. */
  lemma {:induction false} BeginFound(sys: System, step: Step)
    requires Inv(sys) && step.Begin? && Enabled(sys, step) && CacheKey(step.request) in sys.cache.entries
    ensures Inv(Next(sys, step))
  {
    hide Consistent, CacheKey, Supported, RemoveKey;
    var c, key := step.caller, CacheKey(step.request);
    var sys' := Next(sys, step);
    LookupConsistent(sys.cache, key, |sys.promises|);
    assert EntryOk(sys, key);
    forall d | d in sys'.callers ensures CallerOk(sys', d, sys'.callers[d]) {
      if d != c { assert CallerOk(sys, d, sys.callers[d]); }
    }
    forall p | 0 <= p < |sys'.promises| ensures PromiseOk(sys', p) { assert PromiseOk(sys, p); }
    forall k | k in sys'.cache.entries ensures EntryOk(sys', k) { assert EntryOk(sys, k); }
  }

  /** It finds none: the caller compiles, holding a new promise and, when there is room, a pending entry. */
  lemma {:induction false} BeginMissing(sys: System, step: Step)
    requires Inv(sys) && step.Begin? && Enabled(sys, step) && CacheKey(step.request) !in sys.cache.entries
    ensures Inv(Next(sys, step))
  {
    hide Consistent, CacheKey, Supported, Fits, CallersOk, PromisesOk, EntriesOk;
    var key, p0 := CacheKey(step.request), |sys.promises|;
    LookupConsistent(sys.cache, key, p0);
    LookupMissing(sys.cache, key, p0);
    MissingCallers(sys, step);
    MissingPromises(sys, step);
    MissingEntries(sys, step);
    hide Lookup;
  }

  lemma {:induction false} MissingCallers(sys: System, step: Step)
    requires Inv(sys) && step.Begin? && Enabled(sys, step) && CacheKey(step.request) !in sys.cache.entries
    ensures CallersOk(Next(sys, step))
  {
    hide Consistent, CacheKey, Supported, Fits, PromisesOk, EntriesOk;
    var c, sys' := step.caller, Next(sys, step);
    LookupMissing(sys.cache, CacheKey(step.request), |sys.promises|);
    hide Lookup;
    forall d | d in sys'.callers ensures CallerOk(sys', d, sys'.callers[d]) {
      if d != c { assert CallerOk(sys, d, sys.callers[d]); }
    }
  }

  lemma {:induction false} MissingPromises(sys: System, step: Step)
    requires Inv(sys) && step.Begin? && Enabled(sys, step) && CacheKey(step.request) !in sys.cache.entries
    ensures PromisesOk(Next(sys, step))
  {
    hide Consistent, CacheKey, Supported, Fits, CallersOk, EntriesOk;
    var sys' := Next(sys, step);
    LookupMissing(sys.cache, CacheKey(step.request), |sys.promises|);
    hide Lookup;
    forall p | 0 <= p < |sys'.promises| ensures PromiseOk(sys', p) {
      if p < |sys.promises| { assert PromiseOk(sys, p); }
    }
  }

  lemma {:induction false} MissingEntries(sys: System, step: Step)
    requires Inv(sys) && step.Begin? && Enabled(sys, step) && CacheKey(step.request) !in sys.cache.entries
    ensures EntriesOk(Next(sys, step))
  {
    hide Consistent, CacheKey, Supported, Fits, CallersOk, PromisesOk;
    var key, sys' := CacheKey(step.request), Next(sys, step);
    LookupMissing(sys.cache, key, |sys.promises|);
    hide Lookup;
    forall k | k in sys'.cache.entries ensures EntryOk(sys', k) {
      if k != key { assert EntryOk(sys, k); }
    }
  }

  /** What a miss does to the entries: evicts ready ones, and reserves the key when it is cacheable. */
  lemma {:induction false} LookupMissing(s: State, key: string, promise: nat)
    requires Consistent(s) && key !in s.entries
    ensures var s' := Lookup(s, key, promise);
            && s'.hits == s.hits && s'.waits == s.waits && s'.misses == s.misses + 1
            && (forall k | k in s'.entries && k != key :: k in s.entries && s'.entries[k] == s.entries[k])
            && (forall k | k in s.entries && !s.entries[k].ready :: k in s'.entries && s'.entries[k] == s.entries[k])
            && (Fits(s.pendingBytes, |key|) ==> key in s'.entries && s'.entries[key] == Entry(promise, false))
            && (!Fits(s.pendingBytes, |key|) ==> key !in s'.entries)
  {
    hide Consistent, EvictFor, Fits;
    MissConsistent(s);
    EvictForConsistent(s.(misses := s.misses + 1), |key|);
  }

  /** Publishing keeps every other pending entry, and never finds its own gone. */
  lemma {:induction false} PublishCachedKeeps(sys: System, c: nat)
    requires Inv(sys) && PcOf(sys, c).Compiled? && PcOf(sys, c).cached
    ensures var pc := PcOf(sys, c);
            && CacheKey(pc.request) in sys.cache.entries
            && Inv(Move(sys, c, Published(pc.request, pc.promise, pc.asset)).(cache :=
              Publish(sys.cache, CacheKey(pc.request))))
  {
    hide Consistent, CacheKey, Supported;
    var pc := PcOf(sys, c);
    var key := CacheKey(pc.request);
    assert CallerOk(sys, c, sys.callers[c]);
    var sys' := Move(sys, c, Published(pc.request, pc.promise, pc.asset)).(cache := Publish(sys.cache, key));
    PublishConsistent(sys.cache, key);
    PublishEntries(sys.cache, key);
    hide Publish;
    forall d | d in sys'.callers ensures CallerOk(sys', d, sys'.callers[d]) {
      if d != c { assert CallerOk(sys, d, sys.callers[d]); }
    }
    forall p | 0 <= p < |sys'.promises| ensures PromiseOk(sys', p) { assert PromiseOk(sys, p); }
    forall k | k in sys'.cache.entries ensures EntryOk(sys', k) {
      assert EntryOk(sys, k) && PromiseOk(sys, sys.cache.entries[k].promise);
    }
  }

  lemma {:induction false} PublishUncachedKeeps(sys: System, c: nat)
    requires Inv(sys) && PcOf(sys, c).Compiled? && !PcOf(sys, c).cached
    ensures var pc := PcOf(sys, c); Inv(Move(sys, c, Published(pc.request, pc.promise, pc.asset)))
  {
    hide Consistent, CacheKey, Supported;
    var pc := PcOf(sys, c);
    assert CallerOk(sys, c, sys.callers[c]);
    var sys' := Move(sys, c, Published(pc.request, pc.promise, pc.asset));
    forall d | d in sys'.callers ensures CallerOk(sys', d, sys'.callers[d]) {
      if d != c { assert CallerOk(sys, d, sys.callers[d]); }
    }
    forall p | 0 <= p < |sys'.promises| ensures PromiseOk(sys', p) { assert PromiseOk(sys, p); }
    forall k | k in sys'.cache.entries ensures EntryOk(sys', k) {
      assert EntryOk(sys, k) && PromiseOk(sys, sys.cache.entries[k].promise);
    }
  }

  lemma {:induction false} PublishKeeps(sys: System, step: Step)
    requires Inv(sys) && step.PublishEntry? && Enabled(sys, step)
    ensures Inv(Next(sys, step))
  {
    hide Inv, Publish, CacheKey;
    if PcOf(sys, step.caller).cached {
      PublishCachedKeeps(sys, step.caller);
    } else {
      PublishUncachedKeeps(sys, step.caller);
    }
  }

  lemma {:induction false} PublishEntries(s: State, key: string)
    requires Consistent(s) && key in s.entries && !s.entries[key].ready
    ensures var s' := Publish(s, key);
            && s'.hits == s.hits && s'.waits == s.waits && s'.misses == s.misses
            && key in s'.entries && s'.entries[key] == Entry(s.entries[key].promise, true)
            && (forall k | k in s'.entries && k != key :: k in s.entries && s'.entries[k] == s.entries[k])
            && (forall k | k in s.entries && !s.entries[k].ready && k != key ::
                  k in s'.entries && s'.entries[k] == s.entries[k])
  {
    hide Consistent, EvictToCount;
    EvictToCountConsistent(s);
  }

  /** A failed compilation's entry is still pending when it is erased. */
  lemma {:induction false} EraseKeeps(sys: System, step: Step)
    requires Inv(sys) && step.EraseEntry? && Enabled(sys, step)
    ensures Inv(Next(sys, step))
  {
    hide Consistent, CacheKey, Supported;
    var c := step.caller;
    var sys', pc := Next(sys, step), PcOf(sys, c);
    var key := CacheKey(pc.request);
    assert CallerOk(sys, c, sys.callers[c]);
    if pc.cached { EraseConsistent(sys.cache, key); }
    forall d | d in sys'.callers ensures CallerOk(sys', d, sys'.callers[d]) {
      if d != c { assert CallerOk(sys, d, sys.callers[d]); }
    }
    forall p | 0 <= p < |sys'.promises| ensures PromiseOk(sys', p) { assert PromiseOk(sys, p); }
    forall k | k in sys'.cache.entries ensures EntryOk(sys', k) {
      assert EntryOk(sys, k) && PromiseOk(sys, sys.cache.entries[k].promise);
    }
  }

  lemma {:induction false} StepKeeps(sys: System, step: Step)
    requires Inv(sys) && Enabled(sys, step)
    ensures Inv(Next(sys, step))
  {
    hide Inv;
    match step
    case Begin(_, r) =>
      if CacheKey(r) in sys.cache.entries { BeginFound(sys, step); } else { BeginMissing(sys, step); }
    case FinishCompile(c) =>
      var pc := PcOf(sys, c);
      CompileKeeps(sys, c, Compiled(pc.request, pc.promise, pc.cached, AssetFor(pc.request)));
    case FailCompile(c) =>
      var pc := PcOf(sys, c);
      CompileKeeps(sys, c, Failed(pc.request, pc.promise, pc.cached));
    case PublishEntry(_) => PublishKeeps(sys, step);
    case EraseEntry(_) => EraseKeeps(sys, step);
    case Resolve(_) => ResolveKeeps(sys, step);
    case Await(_) => AwaitKeeps(sys, step);
  }

  // ----- whole runs

  /** The system after a run, provided every step of it was enabled in turn. */
  function After(steps: seq<Step>): Option<System> {
    if steps == [] then Some(START)
    else
      var before := After(steps[..|steps| - 1]);
      if before.Some? && Enabled(before.value, steps[|steps| - 1]) then Some(Next(before.value, steps[|steps| - 1]))
          else None
  }

  /** Cache accounting holds after any interleaving of any callers. */
  lemma {:induction false} EveryRunKeepsInv(steps: seq<Step>)
    requires After(steps).Some?
    ensures Inv(After(steps).value)
  {
    hide Inv, Next;
    if steps == [] {
      StartInv();
    } else {
      EveryRunKeepsInv(steps[..|steps| - 1]);
      StepKeeps(After(steps[..|steps| - 1]).value, steps[|steps| - 1]);
    }
  }

  /** Single flight: no two callers ever compile for the same cached key at once. */
  lemma {:induction false} SingleFlight(steps: seq<Step>, sys: System, c: nat, d: nat)
    requires After(steps) == Some(sys) && c in sys.callers && d in sys.callers && c != d
    requires InFlight(sys.callers[c]) && sys.callers[c].cached && InFlight(sys.callers[d]) && sys.callers[d].cached
    ensures CacheKey(sys.callers[c].request) != CacheKey(sys.callers[d].request)
  {
    hide CacheKey, Consistent, After;
    EveryRunKeepsInv(steps);
    assert CallerOk(sys, c, sys.callers[c]) && CallerOk(sys, d, sys.callers[d]);
  }

  /** A pending entry is never evicted: publishing always finds it, so the "disappeared" error is unreachable. */
  lemma {:induction false} NeverDisappears(steps: seq<Step>, sys: System, c: nat)
    requires After(steps) == Some(sys) && c in sys.callers && sys.callers[c].Compiled? && sys.callers[c].cached
    ensures CacheKey(sys.callers[c].request) in sys.cache.entries
    ensures sys.cache.entries[CacheKey(sys.callers[c].request)] == Entry(sys.callers[c].promise, false)
  {
    hide CacheKey, Consistent, After;
    EveryRunKeepsInv(steps);
    assert CallerOk(sys, c, sys.callers[c]);
  }

  /** Key faithfulness: a caller only ever receives the grammar compiled for its own type, data and flag. */
  lemma {:induction false} ReceivesOwnGrammar(steps: seq<Step>, sys: System, c: nat)
    requires After(steps) == Some(sys) && c in sys.callers && sys.callers[c].Returned?
    ensures sys.callers[c].asset == AssetFor(sys.callers[c].request)
  {
    hide CacheKey, Consistent, After;
    EveryRunKeepsInv(steps);
    assert CallerOk(sys, c, sys.callers[c]);
  }

  /** Nobody waits in vain: a promise someone waits on is resolved, or some caller is on its way to resolve it. */
  lemma {:induction false} WaitersHaveOwners(steps: seq<Step>, sys: System, c: nat)
    requires After(steps) == Some(sys) && c in sys.callers && sys.callers[c].Waiting?
    ensures var p := sys.callers[c].promise;
            && p < |sys.promises|
            && (sys.promises[p].state.Unset? ==>
                  Owning(PcOf(sys, sys.promises[p].owner)) && PcOf(sys, sys.promises[p].owner).promise == p)
  {
    hide CacheKey, Consistent, After;
    EveryRunKeepsInv(steps);
    assert CallerOk(sys, c, sys.callers[c]);
    assert PromiseOk(sys, sys.callers[c].promise);
  }

  /** A hit never fails: a ready entry's promise has its value, or its owner is about to set it. */
  lemma {:induction false} HitsSucceed(steps: seq<Step>, sys: System, k: string)
    requires After(steps) == Some(sys) && k in sys.cache.entries && sys.cache.entries[k].ready
    ensures var p := sys.cache.entries[k].promise;
            && p < |sys.promises|
            && (sys.promises[p].state.Value? || PcOf(sys, sys.promises[p].owner).Published?)
  {
    hide CacheKey, Consistent, After;
    EveryRunKeepsInv(steps);
    assert EntryOk(sys, k);
  }
}
