/**
 The incremental stop-string matcher: one Knuth-Morris-Pratt automaton per stop string, run over a
 byte stream that arrives in arbitrary chunks, withholding the output that may still become part of
 a match.
 */
module StopStringMatching {
  import opened Common
  import opened StopStringSpec
  import Utf8

  const MAX_STOP_STRING_COUNT := 16
  const MAX_STOP_STRING_TOTAL_BYTES := 16 * 1024

  datatype ConfigError = TooMany | EmptyEntry(index: nat) | NotUtf8(index: nat) | TooManyBytes

  function TotalBytes(ps: seq<Bytes>): nat {
    if ps == [] then 0 else TotalBytes(ps[..|ps| - 1]) + |ps[|ps| - 1]|
  }

  ghost predicate ValidConfig(ps: seq<Bytes>) {
    && |ps| <= MAX_STOP_STRING_COUNT
    && NonEmpty(ps)
    && (forall i | 0 <= i < |ps| :: Utf8.WellFormed(ps[i]))
    && TotalBytes(ps) <= MAX_STOP_STRING_TOTAL_BYTES
  }

  /** Accepts exactly the documented configurations, and names the first offending entry. */
  method ValidateStopStrings(ps: seq<Bytes>) returns (error: Option<ConfigError>)
    ensures error.None? <==> ValidConfig(ps)
    ensures error == Some(TooMany) <==> |ps| > MAX_STOP_STRING_COUNT
    ensures error.Some? && error.value.EmptyEntry? ==> error.value.index < |ps| && ps[error.value.index] == []
    ensures error.Some? && error.value.NotUtf8? ==> error.value.index < |ps| && !Utf8.WellFormed(ps[error.value.index])
    ensures error.Some? && (error.value.EmptyEntry? || error.value.NotUtf8?) ==>
              forall i | 0 <= i < error.value.index :: ps[i] != [] && Utf8.WellFormed(ps[i])
  {
    if |ps| > MAX_STOP_STRING_COUNT { return Some(TooMany); }
    var total := 0;
    for i := 0 to |ps|
      invariant forall j | 0 <= j < i :: ps[j] != [] && Utf8.WellFormed(ps[j])
      invariant total == TotalBytes(ps[..i])
    {
      if ps[i] == [] { return Some(EmptyEntry(i)); }
      var valid := Utf8.IsValidUtf8(ps[i]);
      if !valid { return Some(NotUtf8(i)); }
      total := total + |ps[i]|;
      assert ps[..i + 1][..i] == ps[..i];
    }
    assert ps[..|ps|] == ps;
    if total > MAX_STOP_STRING_TOTAL_BYTES { return Some(TooManyBytes); }
    return None;
  }

  // ----- automata

  /** The first n entries are right: after k + 1 bytes of p, falling back leads to the longest border that is shorter
      than those bytes. */
  ghost predicate FailureTableUpTo(p: Bytes, table: seq<nat>, n: nat) {
    && n <= |table| == |p|
    && forall k | 0 <= k < n :: table[k] == PrefixLength(p, p[1..k + 1])
  }

  ghost predicate IsFailureTable(p: Bytes, table: seq<nat>) {
    FailureTableUpTo(p, table, |p|)
  }

  lemma {:induction false} EndsWithSnoc(s: Bytes, b: byte, p: Bytes, j: nat)
    requires 0 < j <= |p|
    ensures EndsWith(s + [b], p[..j]) <==> EndsWith(s, p[..j - 1]) && p[j - 1] == b
  {
    var w := s + [b];
    if EndsWith(w, p[..j]) {
      assert w[|w| - j..] == p[..j];
      EndsWithSplit(s, [b], p, j);
      assert w[|w| - j..][j - 1] == p[j - 1];
    }
    if EndsWith(s, p[..j - 1]) && p[j - 1] == b {
      assert w[|w| - j..] == s[|s| - (j - 1)..] + [b] == p[..j];
    }
  }

  /** Of two suffixes of s that are prefixes of p, the shorter is a proper border of the longer. */
  lemma {:induction false} SuffixOfSuffix(p: Bytes, s: Bytes, k: nat, j: nat)
    requires j < k <= |p| && EndsWith(s, p[..k])
    ensures EndsWith(s, p[..j]) <==> EndsWith(p[1..k], p[..j])
  {
    assert s[|s| - k..] == p[..k];
    assert s[|s| - j..] == p[..k][k - j..] == p[1..k][k - 1 - j..];
  }

  /** Following the failure link loses no candidate for the next byte. */
  lemma {:induction false} Fallback(p: Bytes, s: Bytes, b: byte, k: nat, f: nat)
    requires 0 < k < |p| && EndsWith(s, p[..k]) && p[k] != b
    requires f == PrefixLength(p, p[1..k])
    ensures f < k && EndsWith(s, p[..f])
    ensures forall j | f + 1 < j <= k + 1 :: !EndsWith(s + [b], p[..j])
  {
    hide PrefixLengthUpTo;
    PrefixLengthIsLongest(p, p[1..k]);
    SuffixOfSuffix(p, s, k, f);
    forall j | f + 1 < j <= k + 1 ensures !EndsWith(s + [b], p[..j]) {
      EndsWithSnoc(s, b, p, j);
      if j <= k { SuffixOfSuffix(p, s, k, j - 1); }
    }
  }

  /** One step of one automaton: from the state for s to the state for s followed by b. */
  method AdvanceAutomaton(p: Bytes, table: seq<nat>, state: nat, b: byte, ghost s: Bytes) returns (k: nat)
    requires FailureTableUpTo(p, table, state)
    requires state < |p| && state == PrefixLength(p, s)
    ensures k == PrefixLength(p, s + [b])
  {
    hide PrefixLengthUpTo;
    k := state;
    PrefixLengthIsLongest(p, s);
    forall j | k + 1 < j <= |p| ensures !EndsWith(s + [b], p[..j]) { EndsWithSnoc(s, b, p, j); }
    while k > 0 && p[k] != b
      invariant k <= state && EndsWith(s, p[..k])
      invariant forall j | k + 1 < j <= |p| :: !EndsWith(s + [b], p[..j])
    {
      Fallback(p, s, b, k, table[k - 1]);
      k := table[k - 1];
    }
    EndsWithSnoc(s, b, p, k + 1);
    if p[k] == b { k := k + 1; }
    LongestPrefixUnique(p, s + [b], k);
  }

  method BuildFailureTable(p: Bytes) returns (table: seq<nat>)
    requires p != []
    ensures IsFailureTable(p, table)
  {
    hide PrefixLengthUpTo;
    table := Repeat(0, |p|);
    var matched := 0;
    assert p[1..1] == [] && LongestPrefix(p, [], 0);
    LongestPrefixUnique(p, [], 0);
    for k := 1 to |p|
      invariant FailureTableUpTo(p, table, k)
      invariant matched == table[k - 1]
    {
      matched := AdvanceAutomaton(p, table, matched, p[k], p[1..k]);
      assert p[1..k] + [p[k]] == p[1..k + 1];
      table := table[k := matched];
    }
  }

  // ----- the matcher

  ghost predicate PartialStates(ps: seq<Bytes>, states: seq<nat>) {
    |states| == |ps| && forall i | 0 <= i < |ps| :: states[i] < |ps[i]|
  }

  ghost predicate FailureTables(ps: seq<Bytes>, tables: seq<seq<nat>>) {
    |tables| == |ps| && forall i | 0 <= i < |ps| :: IsFailureTable(ps[i], tables[i])
  }

  /** The states of the automata after stream s. */
  function PrefixStates(ps: seq<Bytes>, s: Bytes): (states: seq<nat>)
    ensures |states| == |ps|
    ensures forall i | 0 <= i < |ps| :: states[i] == PrefixLength(ps[i], s)
  {
    if ps == [] then [] else PrefixStates(ps[..|ps| - 1], s) + [PrefixLength(ps[|ps| - 1], s)]
  }

  /** Without a match no automaton is in its final state. */
  lemma {:induction false} PartialWithoutMatch(ps: seq<Bytes>, s: Bytes)
    requires NonEmpty(ps) && FirstMatch(ps, s).None?
    ensures PartialStates(ps, PrefixStates(ps, s))
  {
    hide FirstMatch, BestEnding, PrefixLengthUpTo, HeldUpTo;
    FirstMatchIsFirst(ps, s);
    forall i | 0 <= i < |ps| ensures PrefixLength(ps[i], s) < |ps[i]| {
      FullPrefix(ps[i], s);
      assert s[..|s|] == s;
      assert !OccursAt(ps, s, i, |s|);
    }
  }

  lemma {:induction false} FullPrefix(p: Bytes, s: Bytes)
    ensures PrefixLength(p, s) == |p| <==> EndsWith(s, p)
  {
    hide FirstMatch, BestEnding, PrefixLengthUpTo, HeldUpTo;
    PrefixLengthIsLongest(p, s);
    assert p[..|p|] == p;
  }

  lemma {:induction false} BestEndingStep(ps: seq<Bytes>, s: Bytes, i: nat)
    requires i < |ps|
    ensures var best := BestEnding(ps, s, i);
            BestEnding(ps, s, i + 1) ==
            if PrefixLength(ps[i], s) == |ps[i]| && (best.None? || |ps[best.value]| < |ps[i]|) then Some(i) else best
  {
    FullPrefix(ps[i], s);
  }

  /** Feeds one byte to every automaton; reports the stop string that ends here, if any. */
  method AdvanceAll(ps: seq<Bytes>, tables: seq<seq<nat>>, states: seq<nat>, b: byte, ghost s: Bytes)
    returns (next: seq<nat>, bestLength: nat, bestIndex: nat)
    requires NonEmpty(ps) && FailureTables(ps, tables)
    requires states == PrefixStates(ps, s) && PartialStates(ps, states)
    ensures next == PrefixStates(ps, s + [b])
    ensures bestLength == 0 ==> BestEnding(ps, s + [b], |ps|).None?
    ensures bestLength != 0 ==>
              BestEnding(ps, s + [b], |ps|) == Some(bestIndex) && bestIndex < |ps| && bestLength == |ps[bestIndex]|
  {
    hide FirstMatch, BestEnding, PrefixLengthUpTo, HeldUpTo;
    next, bestLength, bestIndex := states, 0, 0;
    for i := 0 to |ps|
      invariant |next| == |ps|
      invariant forall j | 0 <= j < i :: next[j] == PrefixLength(ps[j], s + [b])
      invariant forall j | i <= j < |ps| :: next[j] == states[j]
      invariant bestLength == 0 ==> BestEnding(ps, s + [b], i).None?
      invariant bestLength != 0 ==>
                  BestEnding(ps, s + [b], i) == Some(bestIndex) && bestIndex < i && bestLength == |ps[bestIndex]|
    {
      var k := AdvanceAutomaton(ps[i], tables[i], next[i], b, s);
      next := next[i := k];
      BestEndingStep(ps, s + [b], i);
      if k == |ps[i]| && |ps[i]| > bestLength {
        bestLength := |ps[i]|;
        bestIndex := i;
      }
    }
  }

  /** The longest of the active prefixes: bytes before it are in no later match. */
  method LongestActive(ps: seq<Bytes>, states: seq<nat>, ghost s: Bytes) returns (h: nat)
    requires states == PrefixStates(ps, s)
    ensures h == Held(ps, s)
  {
    hide PrefixStates, PrefixLength;
    h := 0;
    for i := 0 to |states|
      invariant h == HeldUpTo(ps, s, i)
    {
      if h < states[i] { h := states[i]; }
    }
  }

  /** The released part of the stored suffix is dropped once it is as large as the live part. */
  function NextBegin(begin: nat, live: nat): (b: nat)
    ensures b == 0 || b < live
  {
    if begin >= live then 0 else begin
  }

  /** Cuts the stored bytes before the last held ones. The released part stays stored until the live part is no
      larger. */
  method SplitStored(stored: Bytes, begin: nat, held: nat) returns (gain: Bytes, kept: Bytes, next: nat)
    requires begin + held <= |stored|
    ensures gain == stored[begin..|stored| - held] && |gain| == |stored| - held - begin
    ensures next == NextBegin(|stored| - held, held)
    ensures kept == stored[|stored| - held - next..]
  {
    var release := |stored| - begin - held;
    gain := stored[begin..begin + release];
    kept, next := stored, begin + release;
    var livePending := |stored| - next;
    if next >= livePending {
      kept := if livePending == 0 then [] else kept[next..];
      next := 0;
    }
  }

  lemma {:induction false} ConcatAssoc(a: Bytes, b: Bytes, c: Bytes)
    ensures a + (b + c) == (a + b) + c
  {}

  /** Before a match: the stored bytes end with the withheld suffix, which begins at begin and at
      stream offset start, and what precedes it there is smaller than it. */
  ghost predicate Stored(ps: seq<Bytes>, s: Bytes, pending: Bytes, begin: nat, start: nat) {
    && start == |Released(ps, s)|
    && begin <= start
    && pending == s[start - begin..]
    && (pending == [] || |pending| < 2 * Held(ps, s))
  }

  lemma {:induction false} StoredSuffix(ps: seq<Bytes>, s: Bytes, chunk: Bytes, pending: Bytes, begin: nat, start: nat)
    requires Stored(ps, s, pending, begin, start)
    ensures begin <= |pending| && start + |pending| - begin == |s|
    ensures pending + chunk == (s + chunk)[start - begin..]
  {
    hide Released, Held;
  }

  lemma {:induction false} Splice(w: Bytes, start: nat, begin: nat, x: nat)
    requires begin <= start <= x <= |w|
    ensures w[..start] + w[start - begin..][begin..begin + x - start] == w[..x]
  {}

  lemma {:induction false} DropDrop(w: Bytes, a: nat, b: nat)
    requires a + b <= |w|
    ensures w[a..][b..] == w[a + b..]
  {}

  lemma {:induction false} MatchedRelease(ps: seq<Bytes>, s: Bytes, chunk: Bytes)
    requires NonEmpty(ps) && FirstMatch(ps, s).None? && FirstMatch(ps, s + chunk).Some?
    ensures |Released(ps, s)| <= |Released(ps, s + chunk)| == FirstMatch(ps, s + chunk).value.start
  {
    hide FirstMatch, Held, NonEmpty;
    ReleasedBeforeMatch(ps, s, chunk);
  }

  /** The stored bytes up to the start of a match are exactly what was not yet released before it. */
  lemma {:induction false} ReleaseOnMatch(ps: seq<Bytes>, s: Bytes, chunk: Bytes, pending: Bytes, begin: nat,
                                          start: nat)
    requires NonEmpty(ps) && FirstMatch(ps, s).None? && Stored(ps, s, pending, begin, start)
    requires FirstMatch(ps, s + chunk).Some?
    ensures var m := FirstMatch(ps, s + chunk).value; var stored := pending + chunk;
            && start <= m.start && begin + m.start - start <= |stored|
            && Released(ps, s) + stored[begin..begin + m.start - start] == Released(ps, s + chunk)
  {
    hide FirstMatch, Held, NonEmpty, Released;
    StoredSuffix(ps, s, chunk, pending, begin, start);
    MatchedRelease(ps, s, chunk);
    var w, x := s + chunk, |Released(ps, s + chunk)|;
    assert Released(ps, s) == s[..start] == w[..start];
    Splice(w, start, begin, x);
  }

  lemma {:induction false} StoredLength(ps: seq<Bytes>, s: Bytes, chunk: Bytes, pending: Bytes, begin: nat, start: nat)
    requires NonEmpty(ps) && Stored(ps, s, pending, begin, start)
    requires FirstMatch(ps, s).None? && FirstMatch(ps, s + chunk).None?
    ensures begin + Held(ps, s + chunk) <= |pending + chunk|
    ensures |Released(ps, s + chunk)| == start + |pending + chunk| - Held(ps, s + chunk) - begin
  {
    hide FirstMatch, Held, NonEmpty;
    StoredSuffix(ps, s, chunk, pending, begin, start);
    ReleasedMonotone(ps, s, chunk);
  }

  /** Without a match, all stored bytes but the longest active prefix are released. */
  lemma {:induction false} ReleaseWithoutMatch(ps: seq<Bytes>, s: Bytes, chunk: Bytes, pending: Bytes, begin: nat,
                                               start: nat)
    requires NonEmpty(ps) && Stored(ps, s, pending, begin, start)
    requires FirstMatch(ps, s).None? && FirstMatch(ps, s + chunk).None?
    ensures begin + Held(ps, s + chunk) <= |pending + chunk|
    ensures Released(ps, s) + (pending + chunk)[begin..|pending + chunk| - Held(ps, s + chunk)] ==
            Released(ps, s + chunk)
  {
    hide FirstMatch, Held, NonEmpty, Released;
    StoredSuffix(ps, s, chunk, pending, begin, start);
    StoredLength(ps, s, chunk, pending, begin, start);
    var w, x := s + chunk, |Released(ps, s + chunk)|;
    assert Released(ps, s) == s[..start] == w[..start];
    Splice(w, start, begin, x);
  }

  lemma {:induction false} StoredWithoutMatch(ps: seq<Bytes>, s: Bytes, chunk: Bytes, pending: Bytes, begin: nat,
                                              start: nat)
    requires NonEmpty(ps) && Stored(ps, s, pending, begin, start)
    requires FirstMatch(ps, s).None? && FirstMatch(ps, s + chunk).None?
    ensures var stored, held := pending + chunk, Held(ps, s + chunk);
            && begin + held <= |stored|
            && var next := NextBegin(|stored| - held, held);
               Stored(ps, s + chunk, stored[|stored| - held - next..], next, start + |stored| - held - begin)
  {
    hide FirstMatch, Held, NonEmpty, Released;
    StoredSuffix(ps, s, chunk, pending, begin, start);
    StoredLength(ps, s, chunk, pending, begin, start);
    var w, stored, held := s + chunk, pending + chunk, Held(ps, s + chunk);
    var next := NextBegin(|stored| - held, held);
    DropDrop(w, start - begin, |stored| - held - next);
  }

  /** Before a match and before the end of the stream, the cleared text followed by the withheld
      suffix is everything fed, and that suffix is the longest one that could still become a match. */
  lemma {:induction false} NothingLost(ps: seq<Bytes>, s: Bytes, pending: Bytes, begin: nat, start: nat)
    requires FirstMatch(ps, s).None? && Stored(ps, s, pending, begin, start)
    ensures begin <= |pending| && |pending| - begin == Held(ps, s)
    ensures Released(ps, s) + pending[begin..] == s
  {
    hide FirstMatch, Held;
    assert Released(ps, s) + s[|Released(ps, s)|..] == s;
  }

  /** The fields a matcher carries from call to call. */
  datatype State = State(
    prefixLengths: seq<nat>,
    safe: Bytes,
    pending: Bytes,
    pendingBegin: nat,
    pendingStart: nat,
    consumedBytes: nat,
    found: Option<Match>,
    flushed: bool)

  function InitialState(ps: seq<Bytes>): State {
    State(Repeat(0, |ps|), [], [], 0, 0, 0, None, false)
  }

  /** What st has cleared for publication after stream s. */
  ghost function Cleared(ps: seq<Bytes>, st: State, s: Bytes): Bytes {
    if st.flushed && st.found.None? then s else Released(ps, s)
  }

  /** st is a state of a matcher that was fed s and whose output so far was published. */
  ghost predicate Consistent(ps: seq<Bytes>, st: State, s: Bytes, published: Bytes) {
    && st.found == FirstMatch(ps, s)
    && st.prefixLengths == PrefixStates(ps, Live(ps, s))
    && published + st.safe == Cleared(ps, st, s)
    && (ps == [] ==> st.pendingStart == 0)
    && (ps == [] || st.found.Some? || st.flushed ==> st.pending == [] && st.pendingBegin == 0)
    && (ps != [] && (st.found.Some? || st.flushed) ==>
          st.pendingStart == if st.found.Some? then st.found.value.end else |s|)
    && (ps != [] && st.found.None? && !st.flushed ==> Stored(ps, s, st.pending, st.pendingBegin, st.pendingStart))
  }

  lemma {:induction false} InitialConsistent(ps: seq<Bytes>)
    ensures Consistent(ps, InitialState(ps), [], [])
  {}

  lemma {:induction false} OpenFacts(ps: seq<Bytes>, st: State, s: Bytes, published: Bytes)
    requires Consistent(ps, st, s, published)
    ensures st.found == FirstMatch(ps, s) && |st.prefixLengths| == |ps|
    ensures published + st.safe == if st.flushed && st.found.None? then s else Released(ps, s)
    ensures st.found.None? ==> st.prefixLengths == PrefixStates(ps, s)
    ensures st.found.Some? || st.flushed || ps == [] ==> st.pending == [] && st.pendingBegin == 0
    ensures st.found.None? && !st.flushed && ps != [] ==> Stored(ps, s, st.pending, st.pendingBegin, st.pendingStart)
  {
    hide FirstMatch, Stored, PrefixStates, Released;
  }

  /** Bytes after the match change nothing. */
  lemma {:induction false} StickyConsistent(ps: seq<Bytes>, st: State, s: Bytes, chunk: Bytes, published: Bytes)
    requires Consistent(ps, st, s, published) && st.found.Some?
    ensures Consistent(ps, st, s + chunk, published)
  {
    hide FirstMatch, Stored, PrefixStates, Released;
    FirstMatchSticky(ps, s, chunk);
    ReleasedSticky(ps, s, chunk);
    assert (s + chunk)[..st.found.value.end] == s[..st.found.value.end];
  }

  lemma {:induction false} MatchedConsistent(ps: seq<Bytes>, st: State, s: Bytes, published: Bytes)
    requires ps != [] && st.found.Some? && st.found == FirstMatch(ps, s)
    requires st.prefixLengths == PrefixStates(ps, s[..st.found.value.end])
    requires published + st.safe == Released(ps, s)
    requires st.pending == [] && st.pendingBegin == 0 && st.pendingStart == st.found.value.end
    ensures Consistent(ps, st, s, published)
  {
    hide FirstMatch, Stored, PrefixStates, Released;
  }

  lemma {:induction false} StoredConsistent(ps: seq<Bytes>, st: State, s: Bytes, published: Bytes)
    requires ps != [] && st.found.None? && FirstMatch(ps, s).None? && !st.flushed
    requires st.prefixLengths == PrefixStates(ps, s)
    requires published + st.safe == Released(ps, s)
    requires Stored(ps, s, st.pending, st.pendingBegin, st.pendingStart)
    ensures Consistent(ps, st, s, published)
  {
    hide FirstMatch, Stored, PrefixStates, Released;
  }

  lemma {:induction false} UnconfiguredConsistent(ps: seq<Bytes>, st: State, s: Bytes, chunk: Bytes, published: Bytes)
    requires ps == [] && Consistent(ps, st, s, published) && !st.flushed
    ensures FirstMatch(ps, s + chunk).None? && BeginAfter(ps, s, st.pendingBegin, chunk) == 0 == st.pendingBegin
    ensures Consistent(ps, st.(safe := st.safe + chunk, consumedBytes := st.consumedBytes + |chunk|), s + chunk,
            published)
  {
    hide FirstMatch, Stored, PrefixStates, Released, Held;
    NoStopStrings(ps, s);
    NoStopStrings(ps, s + chunk);
    assert published + (st.safe + chunk) == s + chunk;
  }

  /** Once the stream has ended, what was withheld is output too. */
  lemma {:induction false} FlushConsistent(ps: seq<Bytes>, st: State, st': State, s: Bytes, published: Bytes)
    requires Consistent(ps, st, s, published) && st.pendingBegin <= |st.pending|
    requires st' == st.(safe := [], pending := [], pendingBegin := 0,
                        pendingStart := st.pendingStart + |st.pending| - st.pendingBegin, flushed := true)
    ensures Consistent(ps, st', s, published + st.safe + st.pending[st.pendingBegin..])
  {
    hide FirstMatch, PrefixStates, Held, Live;
    if st.found.None? && !st.flushed {
      if ps == [] {
        NoStopStrings(ps, s);
      } else {
        NothingLost(ps, s, st.pending, st.pendingBegin, st.pendingStart);
      }
    }
  }

  /** The stream, the output taken, the compaction point and the byte count determine every field. */
  lemma {:induction false} ConsistentDetermines(ps: seq<Bytes>, st: State, st': State, s: Bytes, published: Bytes)
    requires Consistent(ps, st, s, published) && Consistent(ps, st', s, published)
    requires st.pendingBegin == st'.pendingBegin && st.consumedBytes == st'.consumedBytes && st.flushed == st'.flushed
    ensures st == st'
  {
    hide FirstMatch, PrefixStates, Live, Released, Held;
    var c := Cleared(ps, st, s);
    assert st.safe == c[|published|..] == st'.safe;
  }

  /** Where the live suffix begins after chunk, given where it began after s. */
  function BeginAfter(ps: seq<Bytes>, s: Bytes, begin: nat, chunk: Bytes): nat {
    if FirstMatch(ps, s).Some? then begin
    else if FirstMatch(ps, s + chunk).Some? then 0
    else HeldGrowth(ps, s, chunk); NextBegin(begin + Held(ps, s) + |chunk| - Held(ps, s + chunk), Held(ps, s + chunk))
  }

  class StopStringMatcher {
    const stopStrings: seq<Bytes>
    const failureTables: seq<seq<nat>>
    var prefixLengths: seq<nat>
    var safe: Bytes
    var pending: Bytes
    var pendingBegin: nat
    var pendingStart: nat
    var consumedBytes: nat
    var found: Option<Match>
    var flushed: bool

    /** Every byte handed to Consume since construction or Reset, ignored ones included. */
    ghost var fed: Bytes
    /** Every byte returned by TakeSafeOutput or Flush since construction or Reset. */
    ghost var published: Bytes

    function View(): State
      reads this
    {
      State(prefixLengths, safe, pending, pendingBegin, pendingStart, consumedBytes, found, flushed)
    }

    ghost predicate Valid()
      reads this
    {
      && NonEmpty(stopStrings)
      && FailureTables(stopStrings, failureTables)
      && Consistent(stopStrings, View(), fed, published)
    }

    constructor (ps: seq<Bytes>)
      requires ValidConfig(ps)
      ensures Valid() && stopStrings == ps
      ensures View() == InitialState(ps) && fed == [] && published == []
    {
      ConfigNonEmpty(ps);
      hide Consistent, Repeat, ValidConfig, NonEmpty, FailureTables;
      var tables := BuildTables(ps);
      InitialConsistent(ps);
      stopStrings := ps;
      failureTables := tables;
      prefixLengths := Repeat(0, |ps|);
      safe, pending, pendingBegin, pendingStart, consumedBytes := [], [], 0, 0, 0;
      found, flushed := None, false;
      fed, published := [], [];
    }

    static method BuildTables(ps: seq<Bytes>) returns (tables: seq<seq<nat>>)
      requires NonEmpty(ps)
      ensures FailureTables(ps, tables)
    {
      hide IsFailureTable;
      tables := [];
      for i := 0 to |ps|
        invariant |tables| == i
        invariant forall j | 0 <= j < i :: IsFailureTable(ps[j], tables[j])
      {
        var table := BuildFailureTable(ps[i]);
        tables := tables + [table];
      }
    }

    /** A fresh matcher, or the reason why the configuration is refused. */
    static method Create(ps: seq<Bytes>) returns (r: Result<StopStringMatcher, ConfigError>)
      ensures r.Success? <==> ValidConfig(ps)
      ensures r.Success? ==> fresh(r.value) && r.value.Valid() && r.value.stopStrings == ps && r.value.fed == []
    {
      var error := ValidateStopStrings(ps);
      if error.Some? { return Failure(error.value); }
      var m := new StopStringMatcher(ps);
      return Success(m);
    }

    /** Runs the automata over the new bytes, up to the byte that completes a match, if any. */
    method Scan(bytes: Bytes, ghost s: Bytes) returns (bestLength: nat, bestIndex: nat, k: nat)
      requires NonEmpty(stopStrings) && FailureTables(stopStrings, failureTables)
      requires FirstMatch(stopStrings, s).None? && prefixLengths == PrefixStates(stopStrings, s)
      modifies this`prefixLengths
      ensures k <= |bytes| && bestLength <= |s| + k
      ensures prefixLengths == PrefixStates(stopStrings, (s + bytes)[..|s| + k])
      ensures bestLength == 0 ==> k == |bytes| && FirstMatch(stopStrings, s + bytes).None?
      ensures bestLength != 0 ==>
                FirstMatch(stopStrings, s + bytes) == Some(Match(bestIndex, |s| + k - bestLength, |s| + k))
    {
      hide FirstMatch, BestEnding, PrefixStates, NonEmpty, FailureTables, PartialStates;
      k, bestLength, bestIndex := 0, 0, 0;
      ghost var seen := s;
      while k < |bytes|
        invariant k <= |bytes| && seen == s + bytes[..k]
        invariant FirstMatch(stopStrings, seen).None?
        invariant prefixLengths == PrefixStates(stopStrings, seen)
      {
        PartialWithoutMatch(stopStrings, seen);
        FirstMatchSnoc(stopStrings, seen, bytes[k]);
        prefixLengths, bestLength, bestIndex := AdvanceAll(stopStrings, failureTables, prefixLengths, bytes[k], seen);
        SeenSnoc(s, bytes, k);
        seen := seen + [bytes[k]];
        k := k + 1;
        if bestLength != 0 {
          SeenPrefix(s, bytes, k);
          FirstMatchSticky(stopStrings, seen, bytes[k..]);
          return;
        }
      }
      bestLength := 0;
      SeenPrefix(s, bytes, k);
    }

    /** Publishes what no active prefix covers, and compacts the stored suffix when that pays. */
    method Release(bytes: Bytes, ghost s: Bytes)
      requires NonEmpty(stopStrings)
      requires FirstMatch(stopStrings, s).None? && FirstMatch(stopStrings, s + bytes).None?
      requires Stored(stopStrings, s, pending, pendingBegin, pendingStart)
      requires prefixLengths == PrefixStates(stopStrings, s + bytes)
      requires published + safe == Released(stopStrings, s)
      modifies this`safe, this`pending, this`pendingBegin, this`pendingStart
      ensures Stored(stopStrings, s + bytes, pending, pendingBegin, pendingStart)
      ensures published + safe == Released(stopStrings, s + bytes)
      ensures pendingBegin == BeginAfter(stopStrings, s, old(pendingBegin), bytes)
    {
      hide *;
      NothingLost(stopStrings, s, pending, pendingBegin, pendingStart);
      StoredWithoutMatch(stopStrings, s, bytes, pending, pendingBegin, pendingStart);
      ReleaseWithoutMatch(stopStrings, s, bytes, pending, pendingBegin, pendingStart);
      BeginReleased(stopStrings, s, pendingBegin, bytes, |pending + bytes|);
      var longestActive := LongestActive(stopStrings, prefixLengths, s + bytes);
      var gain, stored, begin := SplitStored(pending + bytes, pendingBegin, longestActive);
      ConcatAssoc(published, safe, gain);
      safe := safe + gain;
      pendingStart := pendingStart + |gain|;
      pending := stored;
      pendingBegin := begin;
    }

    /** The chunk completes a match: everything before it is cleared and nothing stays pending. */
    method EndAtMatch(bestIndex: nat, bestLength: nat, end: nat, bytes: Bytes, ghost s: Bytes)
      requires NonEmpty(stopStrings) && FirstMatch(stopStrings, s).None?
      requires Stored(stopStrings, s, pending, pendingBegin, pendingStart)
      requires bestLength <= end
      requires FirstMatch(stopStrings, s + bytes) == Some(Match(bestIndex, end - bestLength, end))
      requires published + safe == Released(stopStrings, s)
      modifies this`safe, this`pending, this`pendingBegin, this`pendingStart, this`found
      ensures found == FirstMatch(stopStrings, s + bytes)
      ensures pending == [] && pendingBegin == 0 && pendingStart == end
      ensures published + safe == Released(stopStrings, s + bytes)
    {
      hide FirstMatch, NonEmpty, Released, Stored;
      ReleaseOnMatch(stopStrings, s, bytes, pending, pendingBegin, pendingStart);
      found := Some(Match(bestIndex, end - bestLength, end));
      ghost var gain := (pending + bytes)[pendingBegin..pendingBegin + (end - bestLength) - pendingStart];
      ConcatAssoc(published, safe, gain);
      pending := pending + bytes;
      safe := safe + pending[pendingBegin..pendingBegin + (end - bestLength) - pendingStart];
      pending := [];
      pendingBegin := 0;
      pendingStart := end;
    }

    /** Consumes the next chunk. The reported match, the cleared text and the withheld suffix are those
        of the naive scan of everything fed so far, so how the stream was cut into chunks is immaterial. */
    method Consume(bytes: Bytes) returns (r: Result<Option<Match>, ()>)
      requires Valid()
      modifies this
      ensures Valid()
      ensures old(flushed) ==> r.Failure? && unchanged(this)
      ensures !old(flushed) ==>
                && fed == old(fed) + bytes && published == old(published) && !flushed
                && r == Success(if old(found).Some? then None else FirstMatch(stopStrings, fed))
                && consumedBytes == (if old(found).Some? then old(consumedBytes) else old(consumedBytes) + |bytes|)
                && pendingBegin == BeginAfter(stopStrings, old(fed), old(pendingBegin), bytes)
    {
      hide FirstMatch, PrefixStates, NonEmpty, FailureTables, Released, Held, Stored, Consistent, BeginAfter, Live;
      if flushed { return Failure(()); }
      ghost var s, w := fed, fed + bytes;
      fed := w;
      OpenFacts(stopStrings, View(), s, published);
      if found.Some? {
        StickyConsistent(stopStrings, View(), s, bytes, published);
        BeginOnMatch(stopStrings, s, pendingBegin, bytes);
        return Success(None);
      }
      if stopStrings == [] {
        UnconfiguredConsistent(stopStrings, View(), s, bytes, published);
        consumedBytes := consumedBytes + |bytes|;
        safe := safe + bytes;
        return Success(None);
      }
      var m := Advance(bytes, s);
      r := Success(m);
    }

    /** Feeds a chunk to the automata before any match. */
    method Advance(bytes: Bytes, ghost s: Bytes) returns (m: Option<Match>)
      requires NonEmpty(stopStrings) && FailureTables(stopStrings, failureTables) && stopStrings != []
      requires !flushed && found.None? && FirstMatch(stopStrings, s).None?
      requires prefixLengths == PrefixStates(stopStrings, s) && published + safe == Released(stopStrings, s)
      requires Stored(stopStrings, s, pending, pendingBegin, pendingStart)
      modifies this
      ensures Consistent(stopStrings, View(), s + bytes, published)
      ensures published == old(published) && fed == old(fed) && !flushed
      ensures consumedBytes == old(consumedBytes) + |bytes| && m == FirstMatch(stopStrings, s + bytes)
      ensures pendingBegin == BeginAfter(stopStrings, s, old(pendingBegin), bytes)
    {
      hide FirstMatch, PrefixStates, NonEmpty, FailureTables, Released, Held, Stored, Consistent, BeginAfter, Live;
      ghost var w := s + bytes;
      consumedBytes := consumedBytes + |bytes|;
      var bestLength, bestIndex, k := Scan(bytes, s);
      if bestLength != 0 {
        StoredSuffix(stopStrings, s, bytes, pending, pendingBegin, pendingStart);
        BeginOnMatch(stopStrings, s, pendingBegin, bytes);
        EndAtMatch(bestIndex, bestLength, pendingStart + (|pending| - pendingBegin) + k, bytes, s);
        MatchedConsistent(stopStrings, View(), w, published);
        return found;
      }
      assert w[..|w|] == w;
      Release(bytes, s);
      StoredConsistent(stopStrings, View(), w, published);
      return None;
    }

    method TakeSafeOutput() returns (output: Bytes)
      requires Valid()
      modifies this`safe, this`published
      ensures Valid()
      ensures output == old(safe) && safe == []
      ensures published == old(published) + output == Cleared(stopStrings, View(), fed)
    {
      hide FirstMatch, PrefixStates, NonEmpty, FailureTables, Released, Held, Stored;
      output := safe;
      safe := [];
      published := published + output;
    }

    /** Ends the stream: whatever was withheld becomes output, and nothing is lost. */
    method Flush() returns (output: Bytes)
      requires Valid()
      modifies this
      ensures Valid() && flushed && fed == old(fed)
      ensures published == old(published) + output
      ensures published == match FirstMatch(stopStrings, fed) case Some(m) => fed[..m.start] case None => fed
    {
      hide FirstMatch, NonEmpty, FailureTables, Consistent, Cleared;
      ghost var st, out := View(), published;
      PendingInRange(stopStrings, View(), fed, published);
      output := TakeSafeOutput();
      output := output + pending[pendingBegin..];
      published := published + pending[pendingBegin..];
      pendingStart := pendingStart + |pending| - pendingBegin;
      pending := [];
      pendingBegin := 0;
      flushed := true;
      FlushConsistent(stopStrings, st, View(), fed, out);
      FlushedOutput(stopStrings, View(), fed, published);
    }

    method Reset()
      requires Valid()
      modifies this
      ensures Valid()
      ensures View() == InitialState(stopStrings) && fed == [] && published == []
    {
      hide FirstMatch, PrefixStates, NonEmpty, FailureTables, Released, Held, Stored, Repeat;
      assert |prefixLengths| == |stopStrings|;
      safe, pending, pendingBegin, pendingStart, consumedBytes := [], [], 0, 0, 0;
      found, flushed := None, false;
      prefixLengths := Repeat(0, |prefixLengths|);
      fed, published := [], [];
      InitialConsistent(stopStrings);
    }

    /** A whole run of chunks, however the stream is cut. */
    method ConsumeAll(chunks: seq<Bytes>)
      requires Valid() && !flushed
      modifies this
      ensures Valid() && !flushed
      ensures fed == old(fed) + Flatten(chunks) && published == old(published)
      ensures found == FirstMatch(stopStrings, old(fed) + Flatten(chunks))
      ensures published + safe == Released(stopStrings, old(fed) + Flatten(chunks))
    {
      hide *;
      OpenValid();
      FlattenEmpty(chunks, fed);
      for i := 0 to |chunks|
        invariant Valid() && !flushed && published == old(published)
        invariant fed == old(fed) + Flatten(chunks[..i])
        invariant found == FirstMatch(stopStrings, fed) && published + safe == Released(stopStrings, fed)
      {
        var _ := Consume(chunks[i]);
        OpenValid();
        FlattenSnoc(chunks, i);
        ConcatAssoc(old(fed), Flatten(chunks[..i]), chunks[i]);
      }
      assert chunks[..|chunks|] == chunks;
    }

    lemma {:induction false} OpenValid()
      requires Valid() && !flushed
      ensures found == FirstMatch(stopStrings, fed) && published + safe == Released(stopStrings, fed)
    {
      hide Consistent, FirstMatch, Released;
      OpenFacts(stopStrings, View(), fed, published);
    }
  }

  function Flatten(chunks: seq<Bytes>): Bytes {
    if chunks == [] then [] else Flatten(chunks[..|chunks| - 1]) + chunks[|chunks| - 1]
  }

  lemma {:induction false} FlattenSnoc(chunks: seq<Bytes>, i: nat)
    requires i < |chunks|
    ensures Flatten(chunks[..i + 1]) == Flatten(chunks[..i]) + chunks[i]
  {
    assert chunks[..i + 1][..i] == chunks[..i];
  }

  lemma {:induction false} FlattenEmpty(chunks: seq<Bytes>, s: Bytes)
    ensures s + Flatten(chunks[..0]) == s
  {}

  lemma {:induction false} ConfigNonEmpty(ps: seq<Bytes>)
    requires ValidConfig(ps)
    ensures NonEmpty(ps)
  {}

  lemma {:induction false} FlushedOutput(ps: seq<Bytes>, st: State, s: Bytes, published: Bytes)
    requires Consistent(ps, st, s, published) && st.flushed && st.safe == []
    ensures published == match FirstMatch(ps, s) case Some(m) => s[..m.start] case None => s
  {
    hide FirstMatch, Held, PrefixStates;
    assert published + st.safe == published;
  }

  lemma {:induction false} SeenSnoc(s: Bytes, bytes: Bytes, k: nat)
    requires k < |bytes|
    ensures s + bytes[..k] + [bytes[k]] == s + bytes[..k + 1]
  {}

  lemma {:induction false} SeenPrefix(s: Bytes, bytes: Bytes, k: nat)
    requires k <= |bytes|
    ensures (s + bytes)[..|s| + k] == s + bytes[..k]
    ensures s + bytes == s + bytes[..k] + bytes[k..]
    ensures k == |bytes| ==> s + bytes[..k] == s + bytes
  {}

  lemma {:induction false} BeginOnMatch(ps: seq<Bytes>, s: Bytes, begin: nat, chunk: Bytes)
    ensures FirstMatch(ps, s).Some? ==> BeginAfter(ps, s, begin, chunk) == begin
    ensures FirstMatch(ps, s).None? && FirstMatch(ps, s + chunk).Some? ==> BeginAfter(ps, s, begin, chunk) == 0
  {
    hide FirstMatch;
  }

  lemma {:induction false} BeginReleased(ps: seq<Bytes>, s: Bytes, begin: nat, chunk: Bytes, stored: nat)
    requires FirstMatch(ps, s).None? && FirstMatch(ps, s + chunk).None? && stored == begin + Held(ps, s) + |chunk|
    ensures Held(ps, s + chunk) <= stored
    ensures BeginAfter(ps, s, begin, chunk) == NextBegin(stored - Held(ps, s + chunk), Held(ps, s + chunk))
  {
    hide FirstMatch, Held;
    HeldGrowth(ps, s, chunk);
  }

  lemma {:induction false} PendingInRange(ps: seq<Bytes>, st: State, s: Bytes, published: Bytes)
    requires Consistent(ps, st, s, published)
    ensures st.pendingBegin <= |st.pending|
  {
    hide FirstMatch, PrefixStates, Released, Held;
  }

  lemma {:induction false} ReleasedSticky(ps: seq<Bytes>, s: Bytes, t: Bytes)
    requires FirstMatch(ps, s).Some?
    ensures Released(ps, s + t) == Released(ps, s)
  {
    hide FirstMatch;
    FirstMatchSticky(ps, s, t);
  }

  lemma {:induction false} NoStopStrings(ps: seq<Bytes>, s: Bytes)
    requires ps == []
    ensures FirstMatch(ps, s).None? && Held(ps, s) == 0 && Released(ps, s) == s
    ensures PrefixStates(ps, s) == []
  {}

  lemma {:induction false} FirstMatchSnoc(ps: seq<Bytes>, s: Bytes, b: byte)
    requires FirstMatch(ps, s).None?
    ensures var best := BestEnding(ps, s + [b], |ps|);
            FirstMatch(ps, s + [b]) ==
            if best.None? then None else Some(Match(best.value, |s| + 1 - |ps[best.value]|, |s| + 1))
  {
    hide BestEnding;
    assert (s + [b])[..|s|] == s;
  }
}
