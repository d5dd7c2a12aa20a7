/** Capturing a request, releasing it and feeding its checkpoint back brings the request back with its window. */
module DrafterRestore {
  import opened Common
  import opened DrafterState
  import opened DrafterCache
  import opened DrafterPool
  import opened DrafterAdmission
  import opened DrafterPlan
  import opened Drafter
  import opened DrafterMachine

  /** Later feeds do not change what was decided about earlier ones. */
  lemma {:induction false} FirstDecision(c: Config, feeds: seq<Feed>, tracked: set<nat>, free: nat, n: nat)
    requires ValidConfig(c) && 0 < n <= |feeds|
    ensures Admissions(c, feeds, tracked, free, n)[0] ==
            AdmissionOf(c, feeds[0], feeds[0].request in tracked, free, |tracked|)
  {
    hide AdmissionOf, RingBlocks;
    if n == 1 {
      assert Admissions(c, feeds, tracked, free, 0) == [];
    } else {
      FirstDecision(c, feeds, tracked, free, n - 1);
    }
  }

  /** Every capture with the same bytes has the same window. */
  lemma {:induction false} SameWindow(c: Config, ledger: set<DrafterAdmission.Capture>, feed: Feed, h: History,
                                      h': History, n: nat)
    requires ValidConfig(c) && 0 < c.slidingWindow && AllRecorded(c, ledger) && CapturedAs(ledger, feed, h)
    requires feed.checkpoint.value.tokenCount == n
    requires var cp := feed.checkpoint.value;
             && cp.data != [] && FullBlocks(cp.data, c.pagedBlockSize)
             && forall p | 0 <= p < n <= p + ContextWindow(c) ::
                  p in h' && SavedRow(cp.data, c.pagedBlockSize, p) == h'[p]
    ensures SameOn(c, n, h, h')
  {
    hide SavedRow;
    var k :| k in ledger && Saved(k, feed.checkpoint.value) && h == k.window;
    assert Recorded(c, k);
    forall p: nat | Readable(c, n, p) ensures p in h && p in h' && h[p] == h'[p] {
      assert SavedRow(k.data, c.pagedBlockSize, p) == k.window[p];
    }
  }

  /** On all that a query block at n can read, the histories are the same. */
  ghost predicate SameOn(c: Config, n: nat, h: History, h': History) {
    forall p: nat | Readable(c, n, p) :: p in h && p in h' && h[p] == h'[p]
  }

  /** Captures a request, releases it, and runs a step whose first feed is the request's own with that checkpoint. If
      the capture was made, the request is restored at its position, and its window is the one it had. */
  method CaptureAndReturn(d: Dflash2Drafter, n: nat, aux: seq<int>, feed: Feed, others: seq<Feed>, bucket: nat)
    returns (cp: Option<Checkpoint>, r: Outcome, ghost a: Admitted)
    requires d.Valid() && n != 0 && feed.draftEligible && feed.firstPosition == n
    requires SoundFeeds(d.ledger, [feed.(checkpoint := None)] + others) && InsideAux(aux, [feed] + others)
    modifies d
    ensures d.Valid()
    ensures cp.Some? <==>
              && 0 < d.config.slidingWindow && feed.request in old(d.requests)
              && old(d.requests)[feed.request].cached == n
              && WholeWindow(d.config, old(d.requests)[feed.request], n)
    ensures cp.Some? ==>
              && a.how != [] && a.how[0] == Restored
              && feed.request in a.requests && feed.request in a.history && feed.request in old(d.history)
              && a.requests[feed.request].cached == n && a.requests[feed.request].contextStart == 0
              && SameOn(d.config, n, a.history[feed.request], old(d.history)[feed.request])
  {
    hide *;
    d.ValidFacts();
    d.KeysMatch();
    r, a := Idle, Admitted([], map[], map[]);
    ghost var ledger := d.ledger;
    cp := d.CapturePrefix(feed.request, n, true);
    if cp.None? { return; }
    ghost var was := d.history[feed.request];
    RingHeld(d.config, d.requests, d.cells, d.history, feed.request);
    d.Release(feed.request);
    var feeds := [feed.(checkpoint := cp)] + others;
    SoundReturn(ledger, d.ledger, feed, others, cp.value, was, feeds);
    StillInside(aux, feed, others, feeds);
    ghost var free, before, beforeHistory := |d.freeBlocks|, d.requests, d.history;
    var outcome, _, admitted := d.Propose(aux, feeds, bucket);
    r, a := outcome, admitted;
    FirstDecision(d.config, feeds, before.Keys, free, |feeds|);
    AdmissionRule(d.config, feeds[0], false, free, |before.Keys|);
    IsRestoredBy(d.config, feeds[0], free);
    FirstEntered(d.config, d.ledger, feeds, before, beforeHistory, a);
    d.ValidFacts();
    SavedNonEmpty(d.config, cp.value);
    SameWindow(d.config, d.ledger, feeds[0], a.history[feed.request], was, n);
  }

  lemma {:induction false} RingHeld(c: Config, requests: Requests, cells: Cells, history: map<nat, History>, r: nat)
    requires ValidConfig(c) && AllTracked(c, requests, cells, history) && r in requests && 0 < c.slidingWindow
    ensures |requests[r].blocks| == RingBlocks(c) && 0 < RingBlocks(c)
  {
    hide CeilDiv, HoldsWindow;
    assert Tracked(c, requests[r], cells, history[r]);
  }

  lemma {:induction false} SavedNonEmpty(c: Config, cp: Checkpoint)
    requires ValidConfig(c) && |cp.data| == RingBlocks(c) && 0 < RingBlocks(c)
    ensures cp.data != []
  {}

  lemma {:induction false} SoundReturn(ledger: set<DrafterAdmission.Capture>, ledger': set<DrafterAdmission.Capture>,
                                       feed: Feed, others: seq<Feed>, cp: Checkpoint, h: History, feeds: seq<Feed>)
    requires SoundFeeds(ledger, [feed.(checkpoint := None)] + others)
    requires ledger' == ledger + {DrafterAdmission.Capture(cp.tokenCount, cp.data, h)}
    requires feeds == [feed.(checkpoint := Some(cp))] + others
    ensures SoundFeeds(ledger', feeds)
  {
    var before := [feed.(checkpoint := None)] + others;
    forall i | 0 <= i < |feeds| ensures SoundCheckpoint(ledger', feeds[i]) {
      if i == 0 {
        assert Saved(DrafterAdmission.Capture(cp.tokenCount, cp.data, h), cp);
      } else {
        assert feeds[i] == before[i] && SoundCheckpoint(ledger, before[i]);
        if feeds[i].checkpoint.Some? {
          var k :| k in ledger && Saved(k, feeds[i].checkpoint.value);
          assert k in ledger';
        }
      }
    }
    forall i, j | 0 <= i < j < |feeds| ensures feeds[i].request != feeds[j].request {
      assert before[i].request != before[j].request;
    }
  }

  lemma {:induction false} StillInside(aux: seq<int>, feed: Feed, others: seq<Feed>, feeds: seq<Feed>)
    requires InsideAux(aux, [feed] + others) && |feeds| == |others| + 1 && feeds[1..] == others
    requires feeds[0].auxBegin == feed.auxBegin && feeds[0].auxCount == feed.auxCount
    ensures forall i | 0 <= i < |feeds| :: feeds[i].auxBegin + feeds[i].auxCount <= |aux|
  {
    forall i | 0 <= i < |feeds| ensures feeds[i].auxBegin + feeds[i].auxCount <= |aux| {
      assert 0 < i ==> feeds[i] == ([feed] + others)[i];
      assert ([feed] + others)[0] == feed;
    }
  }

  lemma {:induction false} IsRestoredBy(c: Config, feed: Feed, free: nat)
    requires ValidConfig(c) && feed.draftEligible && feed.firstPosition != 0 && feed.checkpoint.Some?
    requires var cp := feed.checkpoint.value;
             cp.state == Resident && cp.tokenCount == feed.firstPosition && |cp.data| == RingBlocks(c) <= free
    ensures RestoredBy(c, feed, free)
  {}

  lemma {:induction false} FirstEntered(c: Config, ledger: set<DrafterAdmission.Capture>, feeds: seq<Feed>,
                                        requests: Requests, history: map<nat, History>, a: Admitted)
    requires feeds != [] && AdmittedBy(c, ledger, feeds, requests, history, a, |feeds|)
    requires a.how != [] && a.how[0] == Restored
    ensures var q := feeds[0].request;
            && q in a.requests && q in a.history && a.requests[q].cached == feeds[0].firstPosition
            && a.requests[q].contextStart == 0 && CapturedAs(ledger, feeds[0], a.history[q])
  {
    hide CapturedAs, RingBlocks;
    assert AdmittedOne(c, ledger, feeds[0], a.how[0], requests, a);
  }

  // ----- over runs

  /** In any run: a request is captured, released, and fed again with its resident checkpoint while a ring is free. The
      step restores it, and it has every row that it had when it was captured. */
  lemma {:induction false} RestoreRoundTrip(c: Config, script: seq<Op>, log: seq<Decision>, m: nat, r: nat, n: nat,
                                            aux: seq<int>, fs: seq<ScriptFeed>, bucket: nat)
    requires ValidConfig(c) && AllDecided(c, script, log) && m + 2 < |log| && n != 0
    requires script[m] == Op.Capture(r, n, true) && log[m] == Captured(true) && script[m + 1] == Release(r)
    requires script[m + 2] == Step(aux, fs, bucket) && fs != [] && DistinctScript(fs)
    requires fs[0].saved == Some(|UnboundedAfter(c, script, log[..m]).saved|) && fs[0].state == Resident
    requires fs[0].feed.request == r && fs[0].feed.firstPosition == n && fs[0].feed.draftEligible
    requires RingBlocks(c) <= FreeOf(c, UnboundedAfter(c, script, log[..m + 2]).lines)
    ensures log[m + 2].Stepped? && log[m + 2].how != [] && log[m + 2].how[0] == Restored
    ensures var was, lines := UnboundedAfter(c, script, log[..m]).lines, UnboundedAfter(c, script, log[..m + 3]).lines;
            && r in was && r in lines
            && forall p | p in was[r].rows && p < n :: p in lines[r].rows && lines[r].rows[p] == was[r].rows[p]
  {
    hide *;
    DecisionAt(c, script, log, m);
    DecisionAt(c, script, log, m + 1);
    DecisionAt(c, script, log, m + 2);
    var u0, u2 := UnboundedAfter(c, script, log[..m]), UnboundedAfter(c, script, log[..m + 2]);
    CapturedLine(c, u0, r, n, log[m], log[m + 1]);
    StepRestores(c, u2, aux, fs, bucket, log[m + 2]);
    RestoredLine(c, u2, aux, fs, bucket, log[m + 2]);
  }

  lemma {:induction false} DecisionAt(c: Config, script: seq<Op>, log: seq<Decision>, m: nat)
    requires ValidConfig(c) && AllDecided(c, script, log) && m < |log|
    ensures m < |script| && Decided(c, UnboundedAfter(c, script, log[..m]), script[m], log[m])
    ensures UnboundedAfter(c, script, log[..m + 1]) ==
            AfterOp(c, UnboundedAfter(c, script, log[..m]), script[m], log[m])
  {
    hide Decided, AfterOp;
    assert log[..m + 1][..m] == log[..m];
  }

  /** After capture and release the machine has the copy and no longer the request. */
  lemma {:induction false} CapturedLine(c: Config, u: Unbounded, r: nat, n: nat, d: Decision, d': Decision)
    requires ValidConfig(c) && d == Captured(true) && Decided(c, u, Op.Capture(r, n, true), d)
    ensures r in u.lines
    ensures var v := AfterOp(c, AfterOp(c, u, Op.Capture(r, n, true), d), Release(r), d');
            v.saved == u.saved + [Copy(u.lines[r].rows, n)] && v.lines == u.lines - {r}
  {
    hide HasContext, RingBlocks;
  }

  lemma {:induction false} StepRestores(c: Config, u: Unbounded, aux: seq<int>, fs: seq<ScriptFeed>, bucket: nat,
                                        d: Decision)
    requires ValidConfig(c) && Decided(c, u, Step(aux, fs, bucket), d) && fs != []
    requires fs[0].saved.Some? && fs[0].saved.value < |u.saved| && fs[0].state == Resident
    requires fs[0].feed.request !in u.lines && fs[0].feed.draftEligible
    requires fs[0].feed.firstPosition == u.saved[fs[0].saved.value].tokenCount != 0
    requires RingBlocks(c) <= FreeOf(c, u.lines)
    ensures d.Stepped? && |d.how| == |fs| && d.how[0] == Restored
  {
    hide RingBlocks, FreeOf, Concluded, Admissions, AdmissionOf;
    var feeds := PlainFeeds(c, fs, u.saved);
    FirstDecision(c, feeds, u.lines.Keys, FreeOf(c, u.lines), |feeds|);
    AdmissionRule(c, feeds[0], false, FreeOf(c, u.lines), |u.lines.Keys|);
  }

  lemma {:induction false} RestoredLine(c: Config, u: Unbounded, aux: seq<int>, fs: seq<ScriptFeed>, bucket: nat,
                                        d: Decision)
    requires ValidConfig(c) && d.Stepped? && |d.how| == |fs| && fs != [] && d.how[0] == Restored && DistinctScript(fs)
    requires fs[0].saved.Some? && fs[0].saved.value < |u.saved|
    ensures var q, copy := fs[0].feed.request, u.saved[fs[0].saved.value];
            var lines := AfterOp(c, u, Step(aux, fs, bucket), d).lines;
            && q in lines
            && forall p | p in copy.rows && p < fs[0].feed.firstPosition ::
                 p in lines[q].rows && lines[q].rows[p] == copy.rows[p]
  {
    hide EnterAll, FeedAll, RingBlocks, Ingest, AuxRows;
    EnterAt(c, u, fs, d.how, |fs|, 0);
    var v := EnterAll(c, u, fs, d.how, |fs|);
    FeedAt(c, v.lines, aux, fs, d.outcome, |fs|, 0);
  }
}
