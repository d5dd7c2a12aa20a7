/** Whole runs of the drafter: any script of steps, captures, restores and releases follows the unbounded machine. */
module DrafterRun {
  import opened Common
  import opened DrafterState
  import opened DrafterCache
  import opened DrafterPool
  import opened DrafterStep
  import opened DrafterCommit
  import opened DrafterClaims
  import opened DrafterAdmission
  import opened DrafterPlan
  import opened Drafter
  import opened DrafterMachine

  ghost predicate AllSaved(ledger: set<DrafterAdmission.Capture>, captured: seq<Checkpoint>) {
    forall i | 0 <= i < |captured| :: IsSaved(ledger, captured[i])
  }

  ghost predicate IsSaved(ledger: set<DrafterAdmission.Capture>, cp: Checkpoint) {
    exists k :: k in ledger && Saved(k, cp)
  }

  /** The drafter and its captures against the machine. */
  ghost predicate Matching(d: Dflash2Drafter, captured: seq<Checkpoint>, u: Unbounded)
    reads d
  {
    && d.Valid() && AllSaved(d.ledger, captured) && AllSavedAs(d.config, captured, u.saved)
    && Agrees(d.config, d.requests, d.history, u.lines)
  }

  method ResolveAll(fs: seq<ScriptFeed>, captured: seq<Checkpoint>) returns (feeds: seq<Feed>)
    ensures AllResolved(fs, captured, feeds)
  {
    feeds := [];
    for i := 0 to |fs|
      invariant |feeds| == i && forall j | 0 <= j < i :: feeds[j] == Resolved(fs[j], captured)
    {
      feeds := feeds + [Resolved(fs[i], captured)];
    }
  }

  lemma {:induction false} ResolvedSound(op: Op, captured: seq<Checkpoint>, ledger: set<DrafterAdmission.Capture>,
                                         feeds: seq<Feed>)
    requires op.Step? && GoodOp(op) && AllSaved(ledger, captured) && AllResolved(op.feeds, captured, feeds)
    ensures SoundFeeds(ledger, feeds) && InsideAux(op.aux, feeds) && DistinctScript(op.feeds)
  {
    forall i | 0 <= i < |feeds| ensures SoundCheckpoint(ledger, feeds[i]) {
      var f := op.feeds[i];
      if feeds[i].checkpoint.Some? {
        assert IsSaved(ledger, captured[f.saved.value]);
        var k :| k in ledger && Saved(k, captured[f.saved.value]);
        assert Saved(k, feeds[i].checkpoint.value);
      }
    }
  }

  lemma {:induction false} SavedMore(ledger: set<DrafterAdmission.Capture>, captured: seq<Checkpoint>, cp: Checkpoint,
                                     ledger': set<DrafterAdmission.Capture>, h: History)
    requires AllSaved(ledger, captured) && ledger' == ledger + {DrafterAdmission.Capture(cp.tokenCount, cp.data, h)}
    ensures AllSaved(ledger', captured + [cp])
  {
    var more := captured + [cp];
    forall i | 0 <= i < |more| ensures IsSaved(ledger', more[i]) {
      if i < |captured| {
        assert IsSaved(ledger, captured[i]);
        var k :| k in ledger && Saved(k, captured[i]);
        assert k in ledger';
      } else {
        assert Saved(DrafterAdmission.Capture(cp.tokenCount, cp.data, h), cp);
      }
    }
  }

  lemma {:induction false} GrownAgrees(c: Config, requests: Requests, requests': Requests, history: map<nat, History>,
                                       lines: map<nat, Line>)
    requires Agrees(c, requests, history, lines) && GrownFrom(requests, requests')
    ensures Agrees(c, requests', history, lines)
  {
    hide AgreesOn;
    forall q | q in requests' ensures AgreesOn(c, requests'[q], history[q], lines[q]) {
      StillAgrees(c, requests[q], requests'[q], history[q], lines[q]);
    }
  }

  lemma {:induction false} ReleasedAgrees(c: Config, requests: Requests, history: map<nat, History>,
                                          lines: map<nat, Line>, r: nat)
    requires Agrees(c, requests, history, lines) && Counted(requests, lines)
    ensures Agrees(c, requests - {r}, history - {r}, lines - {r}) && Counted(requests - {r}, lines - {r})
  {
    hide AgreesOn;
  }

  /** A capture of a request with its whole context saves what the machine holds. */
  lemma {:induction false} CapturedSavedAs(c: Config, st: RequestState, cp: Checkpoint, h: History, line: Line)
    requires ValidConfig(c) && RingBlocks(c) != 0 && AgreesOn(c, st, h, line)
    requires st.cached == cp.tokenCount && HasContext(c, st, st.cached)
    requires |cp.data| == RingBlocks(c) && FullBlocks(cp.data, c.pagedBlockSize)
    requires forall p | 0 <= p < cp.tokenCount <= p + ContextWindow(c) ::
               p in h && SavedRow(cp.data, c.pagedBlockSize, p) == h[p]
    ensures SavedAs(c, cp, Copy(line.rows, cp.tokenCount))
  {
    hide SavedRow, FullBlocks;
    forall p | 0 <= p < cp.tokenCount <= p + ContextWindow(c)
      ensures p in line.rows && SavedRow(cp.data, c.pagedBlockSize, p) == line.rows[p]
    {
      assert AgreesAt(h, line.rows, p);
    }
  }

  /** A step that drafts reads complete windows of the machine's rows. */
  lemma {:induction false} AgreeingDrafters(c: Config, aux: seq<int>, feeds: seq<Feed>, r: Outcome,
                                            before: Requests, beforeHistory: map<nat, History>,
                                            requests: Requests, cells: Cells, history: map<nat, History>,
                                            lines: map<nat, Line>)
    requires ValidConfig(c) && r.Ran? && r.drafted && Agrees(c, requests, history, lines)
    requires DraftersComplete(c, r.rows, r.shares, requests, cells, history)
    requires PlannedFor(c, feeds, r.rows, r.shares, before, true)
    requires Fed(c, aux, r.rows, r.shares, before, beforeHistory, requests, history)
    ensures DraftersComplete(c, r.rows, r.shares, requests, cells, RowsOf(lines))
  {
    hide CompleteWindow, AgreesOn, HasContext, Fed, PlannedFor;
    forall i | 0 <= i < |r.rows| && r.shares[i].hasBlock
      ensures CompleteWindow(c, requests[r.rows[i].request], cells, RowsOf(lines)[r.rows[i].request])
    {
      var q := r.rows[i].request;
      DrafterHasContext(c, aux, feeds, r, before, beforeHistory, requests, history, i);
      AgreeingWindow(c, requests[q], cells, history[q], lines[q]);
    }
  }

  lemma {:induction false} DrafterHasContext(c: Config, aux: seq<int>, feeds: seq<Feed>, r: Outcome,
                                             before: Requests, beforeHistory: map<nat, History>,
                                             requests: Requests, history: map<nat, History>, i: nat)
    requires r.Ran? && i < |r.rows| == |r.shares| && r.shares[i].hasBlock
    requires PlannedFor(c, feeds, r.rows, r.shares, before, true)
    requires Fed(c, aux, r.rows, r.shares, before, beforeHistory, requests, history)
    ensures var q := r.rows[i].request; q in requests && HasContext(c, requests[q], requests[q].cached)
  {
    hide IngestedAll, Planned, DistinctRequests, ContextWindow;
    var row := r.rows[i];
    assert row in r.rows;
    var j :| 0 <= j < |feeds| && row == FeedRow(feeds[j]);
    assert Drafting(c, before, feeds[j]) && MovedOne(row, before, requests);
  }

  /** The drafter's decisions about a step are the machine's. */
  lemma {:induction false} StepFollows(c: Config, free: seq<nat>, owner: map<nat, Owner>, fs: seq<ScriptFeed>,
                                       captured: seq<Checkpoint>, feeds: seq<Feed>, u: Unbounded, requests: Requests,
                                       history: map<nat, History>, a: Admitted, r: Outcome)
    requires ValidConfig(c) && AllSavedAs(c, captured, u.saved) && AllResolved(fs, captured, feeds)
    requires Pooled(c, free, requests, owner) && Agrees(c, requests, history, u.lines) && Counted(requests, u.lines)
    requires a.how == Admissions(c, feeds, requests.Keys, |free|, |feeds|) && Concluded(c, feeds, a.requests, r)
    requires var v := EnterAll(c, u, fs, a.how, |fs|);
             Agrees(c, a.requests, a.history, v.lines) && Counted(a.requests, v.lines)
    ensures StepDecided(c, u, fs, a.how, r)
  {
    hide *;
    var plain := PlainFeeds(c, fs, u.saved);
    ResolvedAlike(c, fs, captured, u.saved, feeds);
    SameLengths(feeds, plain);
    FreeAgrees(c, free, requests, owner, history, u.lines);
    AgreeingKeys(c, requests, history, u.lines);
    AdmissionsAlike(c, feeds, plain, requests.Keys, |free|, |feeds|);
    var lines := EnterAll(c, u, fs, a.how, |fs|).lines;
    AgreeingStates(c, a.requests, a.history, lines);
    ConcludedAlike(c, feeds, plain, a.requests, States(lines), r);
    IsStepDecided(c, u, fs, a.how, r);
  }

  lemma {:induction false} SameLengths(feeds: seq<Feed>, feeds': seq<Feed>)
    requires AllAlike(feeds, feeds')
    ensures |feeds| == |feeds'|
  {}

  lemma {:induction false} AgreeingKeys(c: Config, requests: Requests, history: map<nat, History>,
                                        lines: map<nat, Line>)
    requires Agrees(c, requests, history, lines)
    ensures lines.Keys == requests.Keys
  {}

  lemma {:induction false} IsStepDecided(c: Config, u: Unbounded, fs: seq<ScriptFeed>, how: seq<Admission>, r: Outcome)
    requires ValidConfig(c)
    requires var feeds := PlainFeeds(c, fs, u.saved);
             && how == Admissions(c, feeds, u.lines.Keys, FreeOf(c, u.lines), |feeds|)
             && Concluded(c, feeds, States(EnterAll(c, u, fs, how, |fs|).lines), r)
    ensures StepDecided(c, u, fs, how, r)
  {
    hide PlainFeeds, Admissions, Concluded, States, EnterAll, FreeOf;
  }

  lemma {:induction false} RunFollows(c: Config, op: Op, captured: seq<Checkpoint>, feeds: seq<Feed>, r: Outcome,
                                      a: Admitted, requests: Requests, history: map<nat, History>,
                                      lines: map<nat, Line>)
    requires ValidConfig(c) && op.Step? && r.Ran? && DistinctScript(op.feeds) && InsideAux(op.aux, feeds)
    requires AllResolved(op.feeds, captured, feeds) && PlannedFor(c, feeds, r.rows, r.shares, a.requests, r.drafted)
    requires Fed(c, op.aux, r.rows, r.shares, a.requests, a.history, requests, history)
    requires Claimed(c, r.rows, r.shares, a.requests, requests, |r.rows|)
    requires Agrees(c, a.requests, a.history, lines) && Counted(a.requests, lines)
    ensures var lines' := FeedAll(c, lines, op.aux, op.feeds, r, |op.feeds|);
            Agrees(c, requests, history, lines') && Counted(requests, lines')
  {
    hide Fed, Claimed, Agrees, Counted, AllResolved, FeedAll, ServedFrom, DraftsFor, Planned;
    FeedAgrees(c, op.aux, op.feeds, captured, feeds, r, a.requests, a.history, requests, history, lines);
  }

  /** One step of a run. */
  method RunStepOp(d: Dflash2Drafter, op: Op, captured: seq<Checkpoint>, ghost u: Unbounded)
    returns (r: Outcome, ghost decision: Decision)
    requires op.Step? && GoodOp(op) && Matching(d, captured, u) && Counted(d.requests, u.lines)
    modifies d
    ensures Matching(d, captured, AfterOp(d.config, u, op, decision)) && Decided(d.config, u, op, decision)
    ensures decision.Stepped? && decision.outcome == r
    ensures !Failed(r) ==> Counted(d.requests, AfterOp(d.config, u, op, decision).lines)
    ensures r.PoolExhausted? && old(d.Budgeted()) ==>
              d.config.slidingWindow == 0 && Overcommitted(d.config, CommittedAfter(d.requests, r.rows))
    ensures r.Ran? && r.drafted ==>
              DraftersComplete(d.config, r.rows, r.shares, d.requests, d.cells,
                               RowsOf(AfterOp(d.config, u, op, decision).lines))
    ensures !Failed(r) && old(d.Budgeted()) ==> d.Budgeted()
  {
    hide GoodOp, AllSaved, AllSavedAs, Agrees, Counted, AllResolved, SoundFeeds, AdmittedBy, GrownFrom, LaidOut, Fed,
         DraftersComplete, Overcommitted, CommittedAfter, EnterAll, FeedAll, Pooled, AllTracked, PlannedFor,
         AllRecorded, Dflash2Drafter.Budgeted, Claimed, Admissions, StepDecided, TooLarge, SomeEmpty, Misplaced;
    var feeds := ResolveAll(op.feeds, captured);
    ResolvedSound(op, captured, d.ledger, feeds);
    ghost var before, beforeHistory, free, owner := d.requests, d.history, d.freeBlocks, d.owner;
    var outcome, _, a := d.Propose(op.aux, feeds, op.bucket);
    r, decision := outcome, Stepped(a.how, outcome);
    EnterAgrees(d.config, d.ledger, op.feeds, captured, feeds, u, before, beforeHistory, a);
    EnterSaved(d.config, u, op.feeds, a.how, |op.feeds|);
    StepFollows(d.config, free, owner, op.feeds, captured, feeds, u, before, beforeHistory, a, r);
    ghost var v := EnterAll(d.config, u, op.feeds, a.how, |op.feeds|);
    if r.Ran? {
      RunFollows(d.config, op, captured, feeds, r, a, d.requests, d.history, v.lines);
      if r.drafted {
        AgreeingDrafters(d.config, op.aux, feeds, r, a.requests, a.history, d.requests, d.cells, d.history,
                         FeedAll(d.config, v.lines, op.aux, op.feeds, r, |op.feeds|));
      }
    } else {
      GrownAgrees(d.config, a.requests, d.requests, d.history, v.lines);
    }
  }

  /** A captured request is one of the machine's, and the machine would capture it too. */
  lemma {:induction false} CaptureAlike(c: Config, requests: Requests, history: map<nat, History>,
                                        lines: map<nat, Line>, r: nat, n: nat)
    requires ValidConfig(c) && Agrees(c, requests, history, lines) && Counted(requests, lines)
    ensures Capturable(c, requests, r, n) <==> Capturable(c, States(lines), r, n)
  {
    hide Agrees, RingBlocks, BlockCounts;
    AgreeingStates(c, requests, history, lines);
  }

  lemma {:induction false} AllSavedMore(c: Config, captured: seq<Checkpoint>, saved: seq<Copy>, cp: Checkpoint,
                                        copy: Copy)
    requires ValidConfig(c) && AllSavedAs(c, captured, saved) && SavedAs(c, cp, copy)
    ensures AllSavedAs(c, captured + [cp], saved + [copy])
  {
    hide SavedAs;
  }

  /** A capture of a run. */
  method RunCaptureOp(d: Dflash2Drafter, op: Op, captured: seq<Checkpoint>, ghost u: Unbounded)
    returns (captured': seq<Checkpoint>, ghost decision: Decision)
    requires op.Capture? && Matching(d, captured, u) && Counted(d.requests, u.lines)
    modifies d`ledger
    ensures Matching(d, captured', AfterOp(d.config, u, op, decision)) && Decided(d.config, u, op, decision)
    ensures Counted(d.requests, AfterOp(d.config, u, op, decision).lines)
    ensures old(d.Budgeted()) ==> d.Budgeted()
  {
    hide AllSaved, AllSavedAs, SavedAs, Counted, AgreesOn, Pooled, AllTracked, AllRecorded, Dflash2Drafter.Budgeted,
         RingBlocks, SavedRow, FullBlocks, States;
    var r, n := op.request, op.tokenCount;
    ghost var before := d.ledger;
    var cp := d.CapturePrefix(r, n, op.available);
    CaptureAlike(d.config, d.requests, d.history, u.lines, r, n);
    decision := Captured(cp.Some?);
    if cp.None? {
      assert d.ledger == before;
      return captured, decision;
    }
    SavedMore(before, captured, cp.value, d.ledger, d.history[r]);
    CapturedSavedAs(d.config, d.requests[r], cp.value, d.history[r], u.lines[r]);
    AllSavedMore(d.config, captured, u.saved, cp.value, Copy(u.lines[r].rows, n));
    captured' := captured + [cp.value];
  }

  /** A release of a run. */
  method RunReleaseOp(d: Dflash2Drafter, op: Op, captured: seq<Checkpoint>, ghost u: Unbounded)
    requires (op.Release? || op.ReleaseAll?) && Matching(d, captured, u) && Counted(d.requests, u.lines)
    modifies d
    ensures Matching(d, captured, AfterOp(d.config, u, op, Nothing)) && Decided(d.config, u, op, Nothing)
    ensures Counted(d.requests, AfterOp(d.config, u, op, Nothing).lines)
    ensures old(d.Budgeted()) ==> d.Budgeted()
  {
    hide AllSaved, AllSavedAs, AgreesOn, Pooled, Tracked, AllRecorded, Dflash2Drafter.Budgeted;
    if op.Release? {
      ReleasedAgrees(d.config, d.requests, d.history, u.lines, op.request);
      d.Release(op.request);
    } else {
      d.ReleaseAll();
    }
  }

  lemma {:induction false} DecidedMore(c: Config, script: seq<Op>, log: seq<Decision>, decision: Decision)
    requires ValidConfig(c) && AllDecided(c, script, log) && |log| < |script|
    requires Decided(c, UnboundedAfter(c, script, log), script[|log|], decision)
    ensures var more := log + [decision];
            && AllDecided(c, script, more)
            && UnboundedAfter(c, script, more) ==
               AfterOp(c, UnboundedAfter(c, script, log), script[|log|], decision)
  {
    hide Decided, AfterOp;
    var more := log + [decision];
    assert more[..|log|] == log;
    forall n | 0 <= n < |more| ensures Decided(c, UnboundedAfter(c, script, more[..n]), script[n], more[n]) {
      if n < |log| { assert more[..n] == log[..n]; }
    }
  }

  lemma {:induction false} NothingYet(d: Dflash2Drafter, script: seq<Op>)
    requires d.Valid() && d.requests == map[]
    ensures AllDecided(d.config, script, []) && Matching(d, [], UnboundedAfter(d.config, script, []))
    ensures Counted(d.requests, UnboundedAfter(d.config, script, []).lines)
  {
    hide Pooled, AllRecorded;
  }

  lemma {:induction false} MatchingRefines(d: Dflash2Drafter, captured: seq<Checkpoint>, u: Unbounded)
    requires Matching(d, captured, u)
    ensures d.Valid() && Refines(d.config, d.requests, d.cells, u.lines)
  {
    hide Pooled, AllRecorded, AllTracked, Agrees, Refines;
    AgreeingTracked(d.config, d.requests, d.cells, d.history, u.lines);
  }

  /** What a run has come to: its decisions are the machine's, and so is all that its rings hold. */
  ghost predicate Followed(d: Dflash2Drafter, script: seq<Op>, log: seq<Decision>)
    reads d
  {
    && d.Valid() && AllDecided(d.config, script, log)
    && Refines(d.config, d.requests, d.cells, UnboundedAfter(d.config, script, log).lines)
  }

  /** Runs a script on a fresh drafter, up to the first step that throws. The drafter decides as the unbounded machine
      does, its rings hold that machine's rows, a step that drafts reads complete windows of them, and the pool runs
      out only if the context committed by that step does not fit the blocks it was sized against. */
  method RunScript(config: Config, script: seq<Op>)
    returns (d: Dflash2Drafter, last: Option<Outcome>, ghost log: seq<Decision>)
    requires ValidConfig(config) && forall i | 0 <= i < |script| :: GoodOp(script[i])
    ensures d.config == config && |log| <= |script| && Followed(d, script, log)
    ensures last == LastOutcome(log) && (|log| == |script| || (last.Some? && Failed(last.value)))
    ensures (last.Some? ==> !Failed(last.value)) ==>
              d.Budgeted() && Counted(d.requests, UnboundedAfter(config, script, log).lines)
    ensures last.Some? && last.value.PoolExhausted? ==>
              config.slidingWindow == 0 && Overcommitted(config, CommittedAfter(d.requests, last.value.rows))
    ensures last.Some? && last.value.Ran? && last.value.drafted ==>
              DraftersComplete(config, last.value.rows, last.value.shares, d.requests, d.cells,
                               RowsOf(UnboundedAfter(config, script, log).lines))
  {
    hide *;
    d := new Dflash2Drafter(config);
    var captured: seq<Checkpoint> := [];
    last, log := None, [];
    NothingYet(d, script);
    NoOutcome();
    var done := 0;
    while done < |script|
      invariant fresh(d) && d.config == config && d.Budgeted() && done == |log| <= |script|
      invariant Matching(d, captured, UnboundedAfter(config, script, log)) && AllDecided(config, script, log)
      invariant Counted(d.requests, UnboundedAfter(config, script, log).lines)
      invariant last == LastOutcome(log) && (last.Some? ==> !Failed(last.value) && !last.value.PoolExhausted?)
      invariant last.Some? && last.value.Ran? && last.value.drafted ==>
                  DraftersComplete(config, last.value.rows, last.value.shares, d.requests, d.cells,
                                   RowsOf(UnboundedAfter(config, script, log).lines))
    {
      ghost var u := UnboundedAfter(config, script, log);
      var op := script[done];
      ghost var decision;
      done := done + 1;
      if op.Step? {
        var r;
        r, decision := RunStepOp(d, op, captured, u);
        DecidedMore(config, script, log, decision);
        LastDecision(log, decision);
        last, log := Some(r), log + [decision];
        ExhaustedFails(r);
        if Failed(r) { break; }
      } else {
        if op.Capture? {
          captured, decision := RunCaptureOp(d, op, captured, u);
        } else {
          RunReleaseOp(d, op, captured, u);
          decision := Nothing;
        }
        NotStepped(config, u, op, decision);
        DecidedMore(config, script, log, decision);
        LastDecision(log, decision);
        last, log := None, log + [decision];
      }
    }
    MatchingRefines(d, captured, UnboundedAfter(config, script, log));
    IsFollowed(d, script, log);
  }

  lemma {:induction false} IsFollowed(d: Dflash2Drafter, script: seq<Op>, log: seq<Decision>)
    requires d.Valid() && AllDecided(d.config, script, log)
    requires Refines(d.config, d.requests, d.cells, UnboundedAfter(d.config, script, log).lines)
    ensures Followed(d, script, log)
  {}

  lemma {:induction false} ExhaustedFails(r: Outcome)
    ensures r.PoolExhausted? ==> Failed(r)
  {}

  lemma {:induction false} NoOutcome()
    ensures LastOutcome([]) == None
  {}

  lemma {:induction false} LastDecision(log: seq<Decision>, decision: Decision)
    ensures LastOutcome(log + [decision]) == if decision.Stepped? then Some(decision.outcome) else None
  {}

  lemma {:induction false} NotStepped(c: Config, u: Unbounded, op: Op, decision: Decision)
    requires ValidConfig(c) && Decided(c, u, op, decision) && !op.Step?
    ensures !decision.Stepped?
  {}
}
