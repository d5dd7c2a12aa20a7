/**
 The compiled-grammar cache: its keys, and its critical sections, each of which runs under the cache's
 mutex. Entries are ready or still being compiled; only ready ones are in the recency list.
 */
module GrammarCache {
  import opened Common
  import opened Sums
  import opened Pigeonhole

  // ----- requests and keys

  datatype Request = Request(guidanceType: string, data: string, ffTokens: bool, batchSize: nat, numBeams: nat)

  datatype RequestError = Unpaired | Unsupported

  predicate Supported(guidanceType: string) {
    guidanceType == "json_schema" || guidanceType == "regex" || guidanceType == "lark_grammar"
  }

  /** Whether guidance is requested at all; a half-specified or unknown request is an error. */
  function ValidateGuidanceRequest(guidanceType: string, data: string): (r: Result<bool, RequestError>)
    ensures r == Success(false) <==> guidanceType == "" && data == ""
    ensures r == Success(true) <==> Supported(guidanceType) && data != ""
    ensures r == Failure(Unpaired) <==> (guidanceType == "") != (data == "")
    ensures r == Failure(Unsupported) <==> guidanceType != "" && data != "" && !Supported(guidanceType)
  {
    if guidanceType == "" && data == "" then Success(false)
    else if guidanceType == "" || data == "" then Failure(Unpaired)
    else if !Supported(guidanceType) then Failure(Unsupported)
    else Success(true)
  }

  /** Fast-forward tokens are for a single sequence. */
  predicate Flag(r: Request) {
    r.ffTokens && r.batchSize == 1 && r.numBeams == 1
  }

  function CacheKey(r: Request): string {
    r.guidanceType + ['\0'] + r.data + ['\0'] + [if Flag(r) then '\U{0001}' else '\0']
  }

  /** What compilation depends on. */
  datatype Asset = Asset(guidanceType: string, data: string, flag: bool)

  function AssetFor(r: Request): Asset {
    Asset(r.guidanceType, r.data, r.ffTokens && r.batchSize == 1 && r.numBeams == 1)
  }

  lemma {:induction false} NoNul(t: string)
    requires Supported(t)
    ensures '\0' !in t
  {
    assert '\0' !in "json_schema" && '\0' !in "regex" && '\0' !in "lark_grammar";
  }

  lemma {:induction false} FirstNul(t: string, rest: string, u: string, rest': string)
    requires t + ['\0'] + rest == u + ['\0'] + rest' && '\0' !in t && '\0' !in u
    ensures t == u && rest == rest'
  {
    var w, w' := t + ['\0'] + rest, u + ['\0'] + rest';
    assert w[|t|] == '\0' && w'[|u|] == '\0';
    assert w[..|t|] == t && w'[..|u|] == u && w[|t| + 1..] == rest && w'[|u| + 1..] == rest';
  }

  /** Keys of supported requests agree only when the compiled grammar would be the same. */
  lemma {:induction false} KeyInjective(a: Request, b: Request)
    requires Supported(a.guidanceType) && Supported(b.guidanceType)
    ensures CacheKey(a) == CacheKey(b) <==> AssetFor(a) == AssetFor(b)
  {
    if CacheKey(a) == CacheKey(b) {
      NoNul(a.guidanceType);
      NoNul(b.guidanceType);
      var x := a.data + ['\0'] + [if Flag(a) then '\U{0001}' else '\0'];
      var y := b.data + ['\0'] + [if Flag(b) then '\U{0001}' else '\0'];
      assert CacheKey(a) == a.guidanceType + ['\0'] + x;
      assert CacheKey(b) == b.guidanceType + ['\0'] + y;
      FirstNul(a.guidanceType, x, b.guidanceType, y);
      assert x[|x| - 1] == y[|y| - 1];
      assert x[..|x| - 2] == a.data && y[..|y| - 2] == b.data;
    }
  }

  // ----- the cache

  const MAX_CACHED_GRAMMARS := 64
  const MAX_KEY_BYTES := 16 * 1024 * 1024

  predicate Fits(cachedBytes: nat, keyBytes: nat) {
    keyBytes <= MAX_KEY_BYTES && cachedBytes <= MAX_KEY_BYTES - keyBytes
  }

  /** The promise whose value the entry's waiters get, and whether compilation is done. */
  datatype Entry = Entry(promise: nat, ready: bool)

  datatype State = State(
    entries: map<string, Entry>,
    lru: seq<string>,
    cachedBytes: nat,
    pendingBytes: nat,
    hits: nat,
    misses: nat,
    waits: nat,
    evictions: nat)

  const INITIAL := State(map[], [], 0, 0, 0, 0, 0, 0)

  ghost function Sizes(entries: map<string, Entry>): map<string, nat> {
    map k | k in entries :: |k|
  }

  ghost function PendingSizes(entries: map<string, Entry>): map<string, nat> {
    map k | k in entries && !entries[k].ready :: |k|
  }

  /** The recency list is exactly the ready keys, without repeats. */
  ghost predicate ListsReady(entries: map<string, Entry>, lru: seq<string>) {
    && Distinct(lru)
    && (forall k | k in lru :: k in entries && entries[k].ready)
    && (forall k | k in entries && entries[k].ready :: k in lru)
  }

  /** Both byte counters are exact. */
  ghost predicate Accounted(s: State) {
    && s.cachedBytes == Sum(Sizes(s.entries))
    && s.pendingBytes == Sum(PendingSizes(s.entries))
  }

  ghost predicate Consistent(s: State) {
    && ListsReady(s.entries, s.lru)
    && Accounted(s)
    && |s.lru| <= MAX_CACHED_GRAMMARS
    && s.cachedBytes <= MAX_KEY_BYTES
  }

  // ----- accounting

  lemma {:induction false} PendingAtMostCached(entries: map<string, Entry>)
    ensures Sum(PendingSizes(entries)) <= Sum(Sizes(entries))
    decreases |entries|
  {
    if entries == map[] {
      assert PendingSizes(entries) == map[] && Sizes(entries) == map[];
    } else {
      hide Sum;
      var k :| k in entries;
      PendingAtMostCached(entries - {k});
      SizesWithout(entries, k);
    }
  }

  lemma {:induction false} SizesWithout(entries: map<string, Entry>, k: string)
    requires k in entries
    ensures Sum(Sizes(entries)) == Sum(Sizes(entries - {k})) + |k|
    ensures Sum(PendingSizes(entries)) == Sum(PendingSizes(entries - {k})) + if entries[k].ready then 0 else |k|
  {
    hide Sum;
    SumRemove(Sizes(entries), k);
    assert Sizes(entries) - {k} == Sizes(entries - {k});
    if entries[k].ready {
      assert PendingSizes(entries) == PendingSizes(entries - {k});
    } else {
      SumRemove(PendingSizes(entries), k);
      assert PendingSizes(entries) - {k} == PendingSizes(entries - {k});
    }
  }

  lemma {:induction false} SizesWith(entries: map<string, Entry>, k: string, e: Entry)
    requires k !in entries
    ensures Sum(Sizes(entries[k := e])) == Sum(Sizes(entries)) + |k|
    ensures Sum(PendingSizes(entries[k := e])) == Sum(PendingSizes(entries)) + if e.ready then 0 else |k|
  {
    hide Sum;
    SizesWithout(entries[k := e], k);
    assert entries[k := e] - {k} == entries;
  }

  /** Without ready entries, all cached bytes are pending. */
  lemma {:induction false} AllPending(s: State)
    requires ListsReady(s.entries, s.lru) && Accounted(s) && s.lru == []
    ensures s.cachedBytes == s.pendingBytes
  {
    assert Sizes(s.entries) == PendingSizes(s.entries);
  }

  // ----- eviction

  /** Drops the least recently used ready entry. */
  function EvictOne(s: State): State
    requires s.lru != []
  {
    var k := s.lru[|s.lru| - 1];
    s.(entries := s.entries - {k}, lru := s.lru[..|s.lru| - 1],
       cachedBytes := if |k| <= s.cachedBytes then s.cachedBytes - |k| else 0, evictions := s.evictions + 1)
  }

  lemma {:induction false} EvictOneConsistent(s: State)
    requires Consistent(s) && s.lru != []
    ensures Consistent(EvictOne(s)) && |s.lru[|s.lru| - 1]| <= s.cachedBytes
    ensures EvictOne(s).pendingBytes == s.pendingBytes
  {
    hide Sum;
    var k := s.lru[|s.lru| - 1];
    assert k in s.lru;
    SizesWithout(s.entries, k);
    EvictOneLists(s.entries, s.lru);
  }

  lemma {:induction false} EvictOneLists(entries: map<string, Entry>, lru: seq<string>)
    requires ListsReady(entries, lru) && lru != []
    ensures ListsReady(entries - {lru[|lru| - 1]}, lru[..|lru| - 1])
  {
    var k, rest := lru[|lru| - 1], lru[..|lru| - 1];
    forall x | x in rest ensures x in entries - {k} && (entries - {k})[x].ready {
      var i :| 0 <= i < |rest| && rest[i] == x;
      assert lru[i] == x;
    }
    forall x | x in entries - {k} && (entries - {k})[x].ready ensures x in rest {
      var i :| 0 <= i < |lru| && lru[i] == x;
      assert rest[i] == x;
    }
  }

  /** Evicts until a key of n bytes fits or nothing is left to evict. */
  function EvictFor(s: State, n: nat): State
    decreases |s.lru|
  {
    if s.lru == [] || Fits(s.cachedBytes, n) then s else EvictFor(EvictOne(s), n)
  }

  /** Evicts until there is room for one more ready entry. */
  function EvictToCount(s: State): State
    decreases |s.lru|
  {
    if |s.lru| < MAX_CACHED_GRAMMARS then s else EvictToCount(EvictOne(s))
  }

  /** Eviction keeps the cache consistent, never touches a pending entry, and keeps no counter but its own. */
  ghost predicate Evicted(s: State, s': State) {
    && s'.lru <= s.lru
    && s'.pendingBytes == s.pendingBytes
    && s'.hits == s.hits && s'.misses == s.misses && s'.waits == s.waits
    && (forall k | k in s'.entries :: k in s.entries && s'.entries[k] == s.entries[k])
    && (forall k | k in s.entries && !s.entries[k].ready :: k in s'.entries)
  }

  lemma {:induction false} EvictOneEvicts(s: State)
    requires Consistent(s) && s.lru != []
    ensures Evicted(s, EvictOne(s))
  {
    assert s.lru[|s.lru| - 1] in s.lru;
  }

  lemma {:induction false} EvictForConsistent(s: State, n: nat)
    requires Consistent(s)
    ensures Consistent(EvictFor(s, n)) && Evicted(s, EvictFor(s, n))
    ensures EvictFor(s, n).lru == [] || Fits(EvictFor(s, n).cachedBytes, n)
    decreases |s.lru|
  {
    hide Consistent;
    if s.lru != [] && !Fits(s.cachedBytes, n) {
      EvictOneConsistent(s);
      EvictOneEvicts(s);
      EvictForConsistent(EvictOne(s), n);
    }
  }

  lemma {:induction false} EvictToCountConsistent(s: State)
    requires Consistent(s)
    ensures Consistent(EvictToCount(s)) && Evicted(s, EvictToCount(s)) && |EvictToCount(s).lru| < MAX_CACHED_GRAMMARS
    decreases |s.lru|
  {
    hide Consistent;
    if |s.lru| >= MAX_CACHED_GRAMMARS {
      EvictOneConsistent(s);
      EvictOneEvicts(s);
      EvictToCountConsistent(EvictOne(s));
    }
  }

  /** The bytes of some keys. */
  ghost function KeyBytes(keys: seq<string>): nat {
    if keys == [] then 0 else KeyBytes(keys[..|keys| - 1]) + |keys[|keys| - 1]|
  }

  /** t is s without the ready entries from place m of the recency list on. */
  ghost predicate Cut(s: State, t: State, m: nat) {
    && m <= |s.lru| && t.lru == s.lru[..m]
    && (forall k :: k in t.entries <==> k in s.entries && k !in s.lru[m..])
    && (forall k | k in t.entries :: t.entries[k] == s.entries[k])
    && t.cachedBytes == s.cachedBytes - KeyBytes(s.lru[m..]) && t.evictions == s.evictions + |s.lru| - m
  }

  lemma {:induction false} CutNothing(s: State)
    ensures Cut(s, s, |s.lru|)
  {
    assert s.lru[|s.lru|..] == [] && s.lru[..|s.lru|] == s.lru;
  }

  lemma {:induction false} CutMore(s: State, t: State, m: nat)
    requires Consistent(s) && s.lru != [] && Cut(EvictOne(s), t, m)
    ensures Cut(s, t, m)
  {
    hide Consistent, KeyBytes;
    EvictOneConsistent(s);
    TailOf(s.lru, m);
    forall k ensures k in t.entries <==> k in s.entries && k !in s.lru[m..] {
      TailHas(s.lru, m, k);
    }
  }

  lemma {:induction false} TailOf(keys: seq<string>, m: nat)
    requires m < |keys|
    ensures var init := keys[..|keys| - 1];
            init[..m] == keys[..m] && KeyBytes(keys[m..]) == KeyBytes(init[m..]) + |keys[|keys| - 1]|
  {
    var init := keys[..|keys| - 1];
    assert keys[m..][..|keys[m..]| - 1] == init[m..];
  }

  lemma {:induction false} TailHas(keys: seq<string>, m: nat, k: string)
    requires m < |keys|
    ensures k in keys[m..] <==> k in keys[..|keys| - 1][m..] || k == keys[|keys| - 1]
  {
    assert keys[m..] == keys[..|keys| - 1][m..] + [keys[|keys| - 1]];
  }

  /** How far eviction for a key goes: the entries dropped are the last of the list, and one fewer would not have made
      room. */
  lemma {:induction false} EvictForExact(s: State, n: nat)
    requires Consistent(s)
    ensures var t := EvictFor(s, n); var m := |t.lru|;
            && Cut(s, t, m) && (m == 0 || t.cachedBytes + n <= MAX_KEY_BYTES)
            && (m < |s.lru| ==> s.cachedBytes - KeyBytes(s.lru[m + 1..]) + n > MAX_KEY_BYTES)
    decreases |s.lru|
  {
    hide Consistent, Cut;
    if s.lru == [] || Fits(s.cachedBytes, n) {
      CutNothing(s);
    } else {
      EvictOneConsistent(s);
      EvictForExact(EvictOne(s), n);
      var t := EvictFor(s, n);
      CutMore(s, t, |t.lru|);
      CutBytes(s, t, |t.lru|);
    }
  }

  lemma {:induction false} CutBytes(s: State, t: State, m: nat)
    requires Consistent(s) && s.lru != [] && Cut(EvictOne(s), t, m)
    ensures m < |s.lru|
    ensures s.cachedBytes - KeyBytes(s.lru[m + 1..]) ==
            if m + 1 == |s.lru| then s.cachedBytes
            else EvictOne(s).cachedBytes - KeyBytes(EvictOne(s).lru[m + 1..])
  {
    hide Consistent;
    EvictOneConsistent(s);
    if m + 1 == |s.lru| {
      assert s.lru[m + 1..] == [];
    } else {
      TailOf(s.lru, m + 1);
    }
  }

  /** Eviction for one more ready entry drops the last of the list only when there are 64. */
  lemma {:induction false} EvictToCountExact(s: State)
    requires Consistent(s)
    ensures Cut(s, EvictToCount(s), if |s.lru| < MAX_CACHED_GRAMMARS then |s.lru| else MAX_CACHED_GRAMMARS - 1)
    decreases |s.lru|
  {
    hide Cut, EvictOne, Accounted, ListsReady;
    if |s.lru| < MAX_CACHED_GRAMMARS {
      CutNothing(s);
    } else {
      EvictOneConsistent(s);
      EvictOneShorter(s);
      EvictToCountExact(EvictOne(s));
      CutMore(s, EvictToCount(s), MAX_CACHED_GRAMMARS - 1);
    }
  }

  lemma {:induction false} EvictOneShorter(s: State)
    requires s.lru != []
    ensures |EvictOne(s).lru| == |s.lru| - 1
  {}

  /** Which misses get an entry: those whose key fits beside the keys still being compiled. */
  lemma {:induction false} CachedExactly(s: State, key: string)
    ensures LookupFound(s, key) == Compile(true) <==> key !in s.entries && s.pendingBytes + |key| <= MAX_KEY_BYTES
    ensures LookupFound(s, key).Hit? <==> key in s.entries && s.entries[key].ready
    ensures LookupFound(s, key).Wait? <==> key in s.entries && !s.entries[key].ready
  {}

  /** A cacheable key always gets room: once nothing is left to evict, only pending bytes remain, and
      those leave room by the test that made the key cacheable. */
  lemma {:induction false} CacheableFits(s: State, n: nat)
    requires Consistent(s) && Fits(s.pendingBytes, n)
    ensures Fits(EvictFor(s, n).cachedBytes, n)
  {
    hide Sum;
    EvictForConsistent(s, n);
    if EvictFor(s, n).lru == [] { AllPending(EvictFor(s, n)); }
  }

  // ----- the critical sections

  function RemoveKey(lru: seq<string>, k: string): seq<string> {
    if lru == [] then [] else if lru[0] == k then lru[1..] else [lru[0]] + RemoveKey(lru[1..], k)
  }

  datatype Found = Hit(promise: nat) | Wait(promise: nat) | Compile(cached: bool)

  /** The first critical section: find the entry, or reserve a pending one for the caller's promise. */
  function LookupFound(s: State, key: string): Found {
    if key in s.entries then
      if s.entries[key].ready then Hit(s.entries[key].promise) else Wait(s.entries[key].promise)
    else Compile(Fits(s.pendingBytes, |key|))
  }

  function Lookup(s: State, key: string, promise: nat): State {
    match LookupFound(s, key)
    case Hit(_) => s.(hits := s.hits + 1, lru := [key] + RemoveKey(s.lru, key))
    case Wait(_) => s.(waits := s.waits + 1)
    case Compile(false) => s.(misses := s.misses + 1)
    case Compile(true) =>
      var t := EvictFor(s.(misses := s.misses + 1), |key|);
      t.(entries := t.entries[key := Entry(promise, false)],
         cachedBytes := t.cachedBytes + |key|, pendingBytes := t.pendingBytes + |key|)
  }

  /** The second: a compiled pending entry becomes ready and most recently used. */
  function Publish(s: State, key: string): State
    requires key in s.entries
  {
    var t := EvictToCount(s);
    t.(entries := t.entries[key := Entry(s.entries[key].promise, true)], lru := [key] + t.lru,
       pendingBytes := if |key| <= t.pendingBytes then t.pendingBytes - |key| else 0)
  }

  /** The third: a pending entry whose compilation failed is forgotten. */
  function Erase(s: State, key: string): State {
    s.(entries := s.entries - {key},
       pendingBytes := if |key| <= s.pendingBytes then s.pendingBytes - |key| else 0,
       cachedBytes := if |key| <= s.cachedBytes then s.cachedBytes - |key| else 0)
  }

  lemma {:induction false} RemoveKeyMembers(lru: seq<string>, k: string)
    requires Distinct(lru)
    ensures Distinct(RemoveKey(lru, k))
    ensures forall x :: x in RemoveKey(lru, k) <==> x in lru && x != k
    ensures |RemoveKey(lru, k)| == |lru| - if k in lru then 1 else 0
  {
    if lru != [] {
      RemoveKeyMembers(lru[1..], k);
      assert lru == [lru[0]] + lru[1..];
      if lru[0] != k {
        var r := RemoveKey(lru[1..], k);
        forall j | 0 <= j < |r| ensures r[j] != lru[0] {
          assert r[j] in lru[1..];
        }
      }
    }
  }

  lemma {:induction false} TouchLists(entries: map<string, Entry>, lru: seq<string>, key: string)
    requires ListsReady(entries, lru) && key in entries && entries[key].ready
    ensures ListsReady(entries, [key] + RemoveKey(lru, key)) && |[key] + RemoveKey(lru, key)| == |lru|
  {
    RemoveKeyMembers(lru, key);
  }

  lemma {:induction false} LookupConsistent(s: State, key: string, promise: nat)
    requires Consistent(s)
    ensures Consistent(Lookup(s, key, promise))
  {
    hide Sum, Fits;
    match LookupFound(s, key)
    case Hit(_) => TouchLists(s.entries, s.lru, key);
    case Wait(_) =>
    case Compile(false) =>
    case Compile(true) => ReserveConsistent(s.(misses := s.misses + 1), key, promise);
  }

  lemma {:induction false} ReserveConsistent(s: State, key: string, promise: nat)
    requires Consistent(s) && key !in s.entries && Fits(s.pendingBytes, |key|)
    ensures var t := EvictFor(s, |key|);
            Consistent(t.(entries := t.entries[key := Entry(promise, false)],
                          cachedBytes := t.cachedBytes + |key|, pendingBytes := t.pendingBytes + |key|))
  {
    hide Sum, EvictFor;
    EvictForConsistent(s, |key|);
    CacheableFits(s, |key|);
    SizesWith(EvictFor(s, |key|).entries, key, Entry(promise, false));
  }

  lemma {:induction false} PublishConsistent(s: State, key: string)
    requires Consistent(s) && key in s.entries && !s.entries[key].ready
    ensures Consistent(Publish(s, key)) && |key| <= EvictToCount(s).pendingBytes
  {
    hide Sum, EvictToCount;
    EvictToCountConsistent(s);
    var t := EvictToCount(s);
    var e := Entry(s.entries[key].promise, true);
    SizesWithout(t.entries, key);
    SizesWith(t.entries - {key}, key, e);
    assert (t.entries - {key})[key := e] == t.entries[key := e];
    PublishLists(t.entries, t.lru, key, e);
  }

  lemma {:induction false} PublishLists(entries: map<string, Entry>, lru: seq<string>, key: string, e: Entry)
    requires ListsReady(entries, lru) && key in entries && !entries[key].ready && e.ready
    ensures ListsReady(entries[key := e], [key] + lru)
  {}

  lemma {:induction false} EraseConsistent(s: State, key: string)
    requires Consistent(s) && key in s.entries && !s.entries[key].ready
    ensures Consistent(Erase(s, key)) && |key| <= s.pendingBytes <= s.cachedBytes
  {
    hide Sum;
    SizesWithout(s.entries, key);
    PendingAtMostCached(s.entries);
    EraseLists(s.entries, s.lru, key);
  }

  lemma {:induction false} EraseLists(entries: map<string, Entry>, lru: seq<string>, key: string)
    requires ListsReady(entries, lru) && key in entries && !entries[key].ready
    ensures ListsReady(entries - {key}, lru)
  {}

  // ----- the cache object

  class GuidanceCache {
    var entries: map<string, Entry>
    var lru: seq<string>
    var cachedBytes: nat
    var pendingBytes: nat
    var hits: nat
    var misses: nat
    var waits: nat
    var evictions: nat

    function View(): State
      reads this
    {
      State(entries, lru, cachedBytes, pendingBytes, hits, misses, waits, evictions)
    }

    ghost predicate Valid()
      reads this
    {
      Consistent(View())
    }

    constructor ()
      ensures Valid() && View() == INITIAL
    {
      entries, lru, cachedBytes, pendingBytes := map[], [], 0, 0;
      hits, misses, waits, evictions := 0, 0, 0, 0;
      SumEmpty<string>();
      assert Sizes(map[]) == map[] && PendingSizes(map[]) == map[];
    }

    method EvictLeastRecentlyUsed()
      requires Valid() && lru != []
      modifies this
      ensures Valid() && View() == EvictOne(old(View()))
    {
      hide Consistent;
      EvictOneConsistent(View());
      var k := lru[|lru| - 1];
      cachedBytes := cachedBytes - |k|;
      entries := entries - {k};
      lru := lru[..|lru| - 1];
      evictions := evictions + 1;
    }

    /** Finds the key's entry or reserves one for the caller's promise, evicting for room. */
    method FindOrReserve(key: string, promise: nat) returns (found: Found)
      requires Valid()
      modifies this
      ensures Valid() && View() == Lookup(old(View()), key, promise)
      ensures found == LookupFound(old(View()), key)
    {
      hide Consistent, EvictOne, RemoveKey;
      LookupConsistent(View(), key, promise);
      if key in entries {
        if entries[key].ready {
          hits := hits + 1;
          lru := [key] + RemoveKey(lru, key);
          return Hit(entries[key].promise);
        }
        waits := waits + 1;
        return Wait(entries[key].promise);
      }
      misses := misses + 1;
      var cacheable := Fits(pendingBytes, |key|);
      ghost var s := View();
      MissConsistent(old(View()));
      if cacheable { CacheableFits(s, |key|); }
      while cacheable && lru != [] && !Fits(cachedBytes, |key|)
        invariant Valid() && (cacheable ==> EvictFor(View(), |key|) == EvictFor(s, |key|))
        invariant !cacheable ==> View() == s
        decreases |lru|
      {
        EvictOneShrinks(View());
        EvictLeastRecentlyUsed();
      }
      if cacheable && Fits(cachedBytes, |key|) {
        entries := entries[key := Entry(promise, false)];
        cachedBytes := cachedBytes + |key|;
        pendingBytes := pendingBytes + |key|;
        return Compile(true);
      }
      return Compile(false);
    }

    /** Makes a compiled pending entry ready, keeping the number of ready entries bounded. */
    method PublishReady(key: string)
      requires Valid() && key in entries && !entries[key].ready
      modifies this
      ensures Valid() && View() == Publish(old(View()), key)
    {
      hide Consistent, EvictOne;
      ghost var s := View();
      PublishConsistent(s, key);
      EvictToCountConsistent(s);
      while |lru| >= MAX_CACHED_GRAMMARS
        invariant Valid() && EvictToCount(View()) == EvictToCount(s)
        decreases |lru|
      {
        EvictOneShrinks(View());
        EvictLeastRecentlyUsed();
      }
      lru := [key] + lru;
      entries := entries[key := Entry(entries[key].promise, true)];
      pendingBytes := pendingBytes - |key|;
    }

    /** Forgets a pending entry whose compilation failed. */
    method EraseFailed(key: string)
      requires Valid() && key in entries && !entries[key].ready
      modifies this
      ensures Valid() && View() == Erase(old(View()), key)
    {
      hide Consistent;
      EraseConsistent(View(), key);
      pendingBytes := pendingBytes - |key|;
      cachedBytes := cachedBytes - |key|;
      entries := entries - {key};
    }
  }

  lemma {:induction false} MissConsistent(s: State)
    requires Consistent(s)
    ensures Consistent(s.(misses := s.misses + 1))
  {
    hide Sum;
  }

  lemma {:induction false} EvictOneShrinks(s: State)
    requires s.lru != []
    ensures |EvictOne(s).lru| < |s.lru|
  {}
}
