/** Which requests the pool takes: checkpoints, the admission rule, and what a sequence of admissions leaves. */
module DrafterAdmission {
  import opened Arithmetic
  import opened Common
  import opened DrafterState
  import opened DrafterCache
  import opened DrafterPool

  datatype SnapshotState = Resident | Evicted | Unavailable

  /** A copy of a ring: one row list per ring block. */
  datatype Checkpoint = Checkpoint(tokenCount: nat, data: seq<seq<Kv>>, state: SnapshotState)

  /** What a capture saved, and for each position the row the captured request had last ingested. */
  datatype Capture = Capture(tokenCount: nat, data: seq<seq<Kv>>, window: History)

  /** The saved ring holds the captured request's whole window. */
  ghost predicate Recorded(c: Config, k: Capture)
    requires ValidConfig(c)
  {
    && k.data != [] && FullBlocks(k.data, c.pagedBlockSize)
    && forall p | 0 <= p < k.tokenCount <= p + ContextWindow(c) ::
         p in k.window && SavedRow(k.data, c.pagedBlockSize, p) == k.window[p]
  }

  lemma {:induction false} RecordedBlocks(c: Config, k: Capture)
    requires ValidConfig(c) && Recorded(c, k)
    ensures k.data != []
  {}

  ghost predicate AllRecorded(c: Config, ledger: set<Capture>)
    requires ValidConfig(c)
  {
    forall k | k in ledger :: Recorded(c, k)
  }

  /** Which requests of a windowed drafter can be captured: those that stand at the position with their whole window. */
  lemma {:induction false} CapturableIff(c: Config, requests: Requests, r: nat, tokenCount: nat)
    requires ValidConfig(c) && (r in requests ==> Shaped(c, requests[r]))
    ensures Capturable(c, requests, r, tokenCount) <==>
            && 0 < c.slidingWindow && r in requests && requests[r].cached == tokenCount
            && WholeWindow(c, requests[r], tokenCount)
  {
    hide CeilDiv, HasContext, WholeWindow;
    if r in requests && requests[r].cached == tokenCount { HasContextIff(c, requests[r], tokenCount); }
  }

  predicate Capturable(c: Config, requests: Requests, r: nat, tokenCount: nat)
    requires ValidConfig(c)
  {
    && RingBlocks(c) != 0 && r in requests
    && requests[r].cached == tokenCount
    && HasContext(c, requests[r], tokenCount)
    && |requests[r].blocks| == RingBlocks(c)
  }

  /** What a request brings to a step: auxCount auxiliary rows from auxBegin on, for its positions from firstPosition
      on. */
  datatype Feed = Feed(
    request: nat,
    checkpoint: Option<Checkpoint>,
    auxBegin: nat,
    auxCount: nat,
    firstPosition: nat,
    draftEligible: bool,
    wantsDrafts: bool)

  ghost predicate DistinctFeeds(feeds: seq<Feed>) {
    forall i, j | 0 <= i < j < |feeds| :: feeds[i].request != feeds[j].request
  }

  /** The checkpoint is what the capture saved; its state may have changed since. */
  ghost predicate Saved(k: Capture, cp: Checkpoint) {
    k.tokenCount == cp.tokenCount && k.data == cp.data
  }

  /** A feed's checkpoint comes from a capture. */
  ghost predicate SoundCheckpoint(ledger: set<Capture>, feed: Feed) {
    feed.checkpoint.Some? ==> exists k :: k in ledger && Saved(k, feed.checkpoint.value)
  }

  /** A step carries at most one feed per request. */
  ghost predicate SoundFeeds(ledger: set<Capture>, feeds: seq<Feed>) {
    && (forall i | 0 <= i < |feeds| :: SoundCheckpoint(ledger, feeds[i]))
    && DistinctFeeds(feeds)
  }

  lemma {:induction false} SoundAt(ledger: set<Capture>, feeds: seq<Feed>, i: nat)
    requires SoundFeeds(ledger, feeds) && i < |feeds|
    ensures SoundCheckpoint(ledger, feeds[i]) && DistinctFeeds(feeds)
  {}

  /** h is what the request captured in the feed's checkpoint had ingested. */
  ghost predicate CapturedAs(ledger: set<Capture>, feed: Feed, h: History) {
    feed.checkpoint.Some? && exists k :: k in ledger && Saved(k, feed.checkpoint.value) && h == k.window
  }

  predicate CanJoin(eligible: bool, first: nat, window: nat) {
    eligible && (first == 0 || window != 0)
  }

  /** The window that lets a request join in the middle. */
  function JoinWindow(c: Config): nat {
    if c.isDspark then 0 else ContextWindow(c)
  }

  lemma {:induction false} JoinsAtZero(c: Config, feed: Feed)
    requires c.slidingWindow == 0 && CanJoin(feed.draftEligible, feed.firstPosition, JoinWindow(c))
    ensures feed.firstPosition == 0
  {}

  /** A feed that may join afresh: no checkpoint is still worth waiting for. */
  predicate Eligible(c: Config, feed: Feed) {
    && (feed.firstPosition != 0 && feed.checkpoint.Some? ==> feed.checkpoint.value.state == Evicted)
    && CanJoin(feed.draftEligible, feed.firstPosition, JoinWindow(c))
  }

  predicate Restorable(c: Config, feed: Feed, free: nat)
    requires ValidConfig(c)
  {
    && feed.checkpoint.Some?
    && feed.checkpoint.value.state == Resident
    && feed.checkpoint.value.tokenCount == feed.firstPosition
    && |feed.checkpoint.value.data| == RingBlocks(c)
    && RingBlocks(c) <= free
  }

  lemma {:induction false} RestoredAtCheckpoint(c: Config, feed: Feed, free: nat)
    requires ValidConfig(c) && Restorable(c, feed, free)
    ensures feed.checkpoint.Some? && feed.checkpoint.value.tokenCount == feed.firstPosition
  {}

  predicate HasRoom(c: Config, free: nat, count: nat)
    requires ValidConfig(c)
  {
    if c.slidingWindow > 0 then RingBlocks(c) <= free else count < c.maxRequests && SpillBlocks(c) <= free
  }

  lemma {:induction false} RingOnlyWindowed(c: Config)
    requires ValidConfig(c)
    ensures RingBlocks(c) != 0 <==> c.slidingWindow > 0
  {}

  /** How a feed's request got into the pool, or did not. */
  datatype Admission = Kept | Refused | Joined | Restored

  /** The admission rule: tracked already, restorable from a checkpoint, or eligible with room in the pool. */
  function AdmissionOf(c: Config, feed: Feed, tracked: bool, free: nat, count: nat): Admission
    requires ValidConfig(c)
  {
    if tracked then Kept
    else if feed.draftEligible && feed.firstPosition != 0 && Restorable(c, feed, free) then Restored
    else if Eligible(c, feed) && HasRoom(c, free, count) then Joined
    else Refused
  }

  /** The rule in terms of the feed: who is kept, who is restored from a checkpoint, and who joins afresh; everyone
      else is refused. A request joins in the middle of its context only with a sliding window, not as DSpark, and
      not while a checkpoint is still about. */
  lemma {:induction false} AdmissionRule(c: Config, feed: Feed, tracked: bool, free: nat, count: nat)
    requires ValidConfig(c)
    ensures AdmissionOf(c, feed, tracked, free, count).Kept? <==> tracked
    ensures AdmissionOf(c, feed, tracked, free, count).Restored? <==> !tracked && RestoredBy(c, feed, free)
    ensures AdmissionOf(c, feed, tracked, free, count).Joined? <==> !tracked && JoinedBy(c, feed, free, count)
  {}

  /** A feed at a later position with a resident checkpoint of exactly that position and ring size, and a free ring. */
  ghost predicate RestoredBy(c: Config, feed: Feed, free: nat)
    requires ValidConfig(c)
  {
    && feed.draftEligible && feed.firstPosition != 0
    && match feed.checkpoint
       case None => false
       case Some(cp) =>
         cp.state == Resident && cp.tokenCount == feed.firstPosition && |cp.data| == RingBlocks(c) <= free
  }

  ghost predicate JoinedBy(c: Config, feed: Feed, free: nat, count: nat)
    requires ValidConfig(c)
  {
    && feed.draftEligible
    && (feed.firstPosition == 0 ||
        (c.slidingWindow > 0 && !c.isDspark && (feed.checkpoint.Some? ==> feed.checkpoint.value.state == Evicted)))
    && if c.slidingWindow > 0 then RingBlocks(c) <= free else count < c.maxRequests && SpillBlocks(c) <= free
  }

  /** r is new, with nothing cached from first on and so many blocks; nobody else changed. */
  ghost predicate JoinedAt(requests: Requests, history: map<nat, History>, requests': Requests,
                           history': map<nat, History>, r: nat, first: nat, blocks: nat) {
    && requests'.Keys == history'.Keys == requests.Keys + {r} && history.Keys == requests.Keys
    && (forall q | q in requests && q != r :: requests'[q] == requests[q] && history'[q] == history[q])
    && requests'[r].cached == requests'[r].contextStart == first && |requests'[r].blocks| == blocks
    && history'[r] == map[]
  }

  lemma {:induction false} IsJoined(requests: Requests, history: map<nat, History>, r: nat, st: RequestState)
    requires history.Keys == requests.Keys && st.cached == st.contextStart
    ensures JoinedAt(requests, history, requests[r := st], history[r := map[]], r, st.cached, |st.blocks|)
  {}

  lemma {:induction false} EligibleIs(c: Config, feed: Feed)
    ensures Eligible(c, feed) <==>
            && !(feed.firstPosition != 0 && feed.checkpoint.Some? && feed.checkpoint.value.state != Evicted)
            && CanJoin(feed.draftEligible, feed.firstPosition, JoinWindow(c))
  {}

  lemma {:induction false} RoomIs(c: Config, free: nat, count: nat)
    requires ValidConfig(c)
    ensures HasRoom(c, free, count) <==>
            if RingBlocks(c) != 0 then RingBlocks(c) <= free else count < c.maxRequests && SpillBlocks(c) <= free
  {}

  lemma {:induction false} KeptIsTracked(c: Config, feed: Feed, tracked: bool, free: nat, count: nat)
    requires ValidConfig(c)
    ensures AdmissionOf(c, feed, tracked, free, count).Kept? <==> tracked
  {}

  /** Blocks that a decision takes out of the pool. */
  function RingFor(c: Config, how: Admission): nat
    requires ValidConfig(c)
  {
    if how.Joined? || how.Restored? then RingBlocks(c) else 0
  }

  /** How many requests the decisions brought in. */
  function Entrants(how: seq<Admission>): nat {
    if how == [] then 0
    else
      var last := how[|how| - 1];
      Entrants(how[..|how| - 1]) + if last.Joined? || last.Restored? then 1 else 0
  }

  /** The admission rule applied to the first n feeds in turn: each sees the rings of earlier entrants gone. */
  ghost function Admissions(c: Config, feeds: seq<Feed>, tracked: set<nat>, free: nat, n: nat): (how: seq<Admission>)
    requires ValidConfig(c) && n <= |feeds|
    ensures |how| == n
  {
    if n == 0 then []
    else
      var how := Admissions(c, feeds, tracked, free, n - 1);
      var taken := Entrants(how) * RingBlocks(c);
      how + [AdmissionOf(c, feeds[n - 1], feeds[n - 1].request in tracked, if taken <= free then free - taken else 0,
             |tracked| + Entrants(how))]
  }

  /** The decisions so far follow the rule, and left this many free blocks and tracked requests. */
  ghost predicate ByRule(c: Config, feeds: seq<Feed>, tracked: set<nat>, free: nat, how: seq<Admission>, left: nat,
                         count: nat)
    requires ValidConfig(c)
  {
    && |how| <= |feeds| && how == Admissions(c, feeds, tracked, free, |how|)
    && left + Entrants(how) * RingBlocks(c) == free && count == |tracked| + Entrants(how)
  }

  lemma {:induction false} RuleBegins(c: Config, feeds: seq<Feed>, requests: Requests, free: nat)
    requires ValidConfig(c)
    ensures ByRule(c, feeds, requests.Keys, free, [], free, |requests|)
  {
    assert |requests| == |requests.Keys|;
  }

  lemma {:induction false} RuleGoesOn(c: Config, feeds: seq<Feed>, tracked: set<nat>, free: nat, how: seq<Admission>,
                                      left: nat, count: nat, left': nat, count': nat, h: Admission)
    requires ValidConfig(c) && ByRule(c, feeds, tracked, free, how, left, count) && |how| < |feeds|
    requires h == AdmissionOf(c, feeds[|how|], feeds[|how|].request in tracked, left, count)
    requires left' + RingFor(c, h) == left && count' == count + if h.Joined? || h.Restored? then 1 else 0
    ensures ByRule(c, feeds, tracked, free, how + [h], left', count')
  {
    hide AdmissionOf, RingBlocks;
    assert (how + [h])[..|how|] == how;
    MulSucc(Entrants(how), RingBlocks(c));
  }

  lemma {:induction false} RuleApplied(c: Config, feeds: seq<Feed>, tracked: set<nat>, free: nat, how: seq<Admission>,
                                       left: nat, count: nat)
    requires ValidConfig(c) && ByRule(c, feeds, tracked, free, how, left, count) && |how| == |feeds|
    ensures how == Admissions(c, feeds, tracked, free, |feeds|)
  {}

  /** One admission counts one entrant or none. */
  lemma {:induction false} CountAdmitted(requests: Requests, requests': Requests, r: nat, h: Admission)
    requires requests'.Keys == requests.Keys + if h.Refused? then {} else {r}
    requires h.Kept? <==> r in requests
    ensures |requests'| == |requests| + if h.Joined? || h.Restored? then 1 else 0
  {
    assert |requests'| == |requests'.Keys| && |requests| == |requests.Keys|;
    if !h.Refused? && r !in requests {
      assert |requests.Keys + {r}| == |requests.Keys| + 1;
    } else {
      assert requests'.Keys == requests.Keys;
    }
  }

  /** The cache and the cursors once the feeds are admitted, and how. */
  datatype Admitted = Admitted(how: seq<Admission>, requests: Requests, history: map<nat, History>)

  /** A request that joins has nothing yet; one that is restored has what the captured request had ingested. */
  ghost predicate Entered(c: Config, ledger: set<Capture>, feed: Feed, how: Admission, st: RequestState, h: History) {
    (how.Joined? || how.Restored? ==> ValidConfig(c) && |st.blocks| == RingBlocks(c)) &&
    match how
    case Joined => st.cached == st.contextStart == feed.firstPosition && h == map[]
    case Restored =>
      && st.cached == feed.firstPosition && st.contextStart == 0 && CapturedAs(ledger, feed, h)
      && feed.checkpoint.Some? && feed.checkpoint.value.tokenCount == feed.firstPosition
    case _ => true
  }

  ghost predicate AdmittedOne(c: Config, ledger: set<Capture>, feed: Feed, how: Admission, requests: Requests,
                              a: Admitted) {
    && (how.Kept? <==> feed.request in requests)
    && (how.Refused? <==> feed.request !in a.requests)
    && (how.Joined? || how.Restored? ==>
          && feed.request in a.requests && feed.request in a.history
          && Entered(c, ledger, feed, how, a.requests[feed.request], a.history[feed.request]))
  }

  /** The first n feeds were admitted as listed, and nobody else's state or history changed. */
  ghost predicate AdmittedBy(c: Config, ledger: set<Capture>, feeds: seq<Feed>, requests: Requests,
                             history: map<nat, History>, a: Admitted, n: nat) {
    && n == |a.how| <= |feeds| && a.history.Keys == a.requests.Keys && history.Keys == requests.Keys
    && (forall q | q in requests ::
          q in a.requests && a.requests[q] == requests[q] && a.history[q] == history[q])
    && (forall q | q in a.requests && q !in requests :: exists j :: 0 <= j < n && feeds[j].request == q)
    && forall j | 0 <= j < n :: AdmittedOne(c, ledger, feeds[j], a.how[j], requests, a)
  }

  lemma {:induction false} NoneAdmitted(c: Config, ledger: set<Capture>, feeds: seq<Feed>, requests: Requests,
                                        history: map<nat, History>)
    requires history.Keys == requests.Keys
    ensures AdmittedBy(c, ledger, feeds, requests, history, Admitted([], requests, history), 0)
  {}

  lemma {:induction false} AdmitMore(c: Config, ledger: set<Capture>, feeds: seq<Feed>, requests: Requests,
                                     history: map<nat, History>, a: Admitted, n: nat, h: Admission, a': Admitted)
    requires DistinctFeeds(feeds) && n < |feeds| && AdmittedBy(c, ledger, feeds, requests, history, a, n)
    requires a'.how == a.how + [h] && a'.history.Keys == a'.requests.Keys
    requires a'.requests.Keys == a.requests.Keys + if h.Refused? then {} else {feeds[n].request}
    requires forall q | q in a.requests :: a'.requests[q] == a.requests[q] && a'.history[q] == a.history[q]
    requires (h.Kept? <==> feeds[n].request in a.requests) && (h.Refused? ==> feeds[n].request !in a.requests)
    requires !h.Refused? ==>
               Entered(c, ledger, feeds[n], h, a'.requests[feeds[n].request], a'.history[feeds[n].request])
    ensures AdmittedBy(c, ledger, feeds, requests, history, a', n + 1)
  {
    hide Entered, AdmittedOne;
    var feed := feeds[n];
    assert feed.request in a.requests ==> feed.request in requests;
    forall j | 0 <= j < n ensures AdmittedOne(c, ledger, feeds[j], a'.how[j], requests, a') {
      assert AdmittedOne(c, ledger, feeds[j], a.how[j], requests, a);
      assert feeds[j].request != feed.request;
      AdmittedStays(c, ledger, feeds[j], a.how[j], requests, a, a', feed.request);
    }
    assert AdmittedOne(c, ledger, feed, h, requests, a') by { IsAdmitted(c, ledger, feed, h, requests, a'); }
    forall q | q in a'.requests && q !in requests ensures exists j :: 0 <= j < n + 1 && feeds[j].request == q {
      if q !in a.requests { assert feeds[n].request == q; }
    }
  }

  lemma {:induction false} IsAdmitted(c: Config, ledger: set<Capture>, feed: Feed, how: Admission, requests: Requests,
                                      a: Admitted)
    requires (how.Kept? <==> feed.request in requests) && (how.Refused? <==> feed.request !in a.requests)
    requires a.history.Keys == a.requests.Keys
    requires !how.Refused? ==> Entered(c, ledger, feed, how, a.requests[feed.request], a.history[feed.request])
    ensures AdmittedOne(c, ledger, feed, how, requests, a)
  {
    hide Entered;
  }

  /** Admitting another request changes nothing for this one. */
  lemma {:induction false} AdmittedStays(c: Config, ledger: set<Capture>, feed: Feed, how: Admission,
                                         requests: Requests, a: Admitted, a': Admitted, other: nat)
    requires AdmittedOne(c, ledger, feed, how, requests, a) && feed.request != other
    requires a.history.Keys == a.requests.Keys && a'.history.Keys == a'.requests.Keys
    requires a.requests.Keys <= a'.requests.Keys <= a.requests.Keys + {other}
    requires forall q | q in a.requests :: a'.requests[q] == a.requests[q] && a'.history[q] == a.history[q]
    ensures AdmittedOne(c, ledger, feed, how, requests, a')
  {
    hide Entered;
    assert feed.request in a'.requests.Keys ==> feed.request in a.requests.Keys;
  }

  /** With one feed per request, the feed's request is tracked exactly if it was before the step. */
  lemma {:induction false} TrackedBefore(c: Config, ledger: set<Capture>, feeds: seq<Feed>, requests: Requests,
                                         history: map<nat, History>, a: Admitted, n: nat)
    requires DistinctFeeds(feeds) && n < |feeds| && AdmittedBy(c, ledger, feeds, requests, history, a, n)
    ensures feeds[n].request in a.requests <==> feeds[n].request in requests
  {}

  /** A windowed pool that was made for m requests tracks at least m. */
  ghost predicate PoolFull(c: Config, tracked: nat)
    requires ValidConfig(c)
  {
    forall m: nat | c.numBlocks == PoolBlocks(c, m) :: m <= tracked
  }

  lemma {:induction false} FewBlocksLeft(c: Config, free: seq<nat>, requests: Requests, owner: map<nat, Owner>,
                                         cells: Cells, history: map<nat, History>)
    requires ValidConfig(c) && c.slidingWindow > 0 && Pooled(c, free, requests, owner)
    requires AllTracked(c, requests, cells, history) && |free| < RingBlocks(c)
    ensures PoolFull(c, |requests|)
  {
    hide Pooled, RingBlocks, PoolBlocks, HoldsWindow;
    var ring := RingBlocks(c);
    forall r | r in requests ensures |requests[r].blocks| == ring { assert Tracked(c, requests[r], cells, history[r]); }
    RingAccounting(c, free, requests, owner, ring);
    forall m: nat | c.numBlocks == PoolBlocks(c, m) ensures m <= |requests| {
      PoolHoldsRings(c, m);
      if |requests| < m { MulLess(|requests|, m, ring); }
    }
  }
}
