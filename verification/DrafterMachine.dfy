/**
 The drafter without a ring: requests keep every row they were ever fed and only count their blocks. It decides
 about admission, capture and running as the drafter does, and its rows agree with the drafter's histories on every
 window.
 */
module DrafterMachine {
  import opened Common
  import opened Sums
  import opened DrafterLayout
  import opened DrafterState
  import opened DrafterCache
  import opened DrafterPool
  import opened DrafterStep
  import opened DrafterCommit
  import opened DrafterClaims
  import opened DrafterAdmission
  import opened DrafterPlan
  import opened Drafter

  // ----- scripts

  /** A feed whose checkpoint, if any, is an earlier capture of the run in the state it is in by now. */
  datatype ScriptFeed = ScriptFeed(feed: Feed, saved: Option<nat>, state: SnapshotState)

  datatype Op =
    | Step(aux: seq<int>, feeds: seq<ScriptFeed>, bucket: nat)
    | Capture(request: nat, tokenCount: nat, available: bool)
    | Release(request: nat)
    | ReleaseAll

  /** How each feed of a step was admitted and what the step came to, or whether a capture was made. */
  datatype Decision = Stepped(how: seq<Admission>, outcome: Outcome) | Captured(made: bool) | Nothing

  /** One feed per request, inside the auxiliary rows. */
  ghost predicate GoodOp(op: Op) {
    op.Step? ==>
      && (forall i | 0 <= i < |op.feeds| :: op.feeds[i].feed.auxBegin + op.feeds[i].feed.auxCount <= |op.aux|)
      && DistinctScript(op.feeds)
  }

  ghost predicate DistinctScript(fs: seq<ScriptFeed>) {
    forall i, j | 0 <= i < j < |fs| :: fs[i].feed.request != fs[j].feed.request
  }

  /** A step that threw. */
  predicate Failed(r: Outcome) {
    r.NotContiguous? || r.NoRows? || r.PoolExhausted?
  }

  /** The outcome of the last operation, if that was a step. */
  function LastOutcome(log: seq<Decision>): Option<Outcome> {
    if log != [] && log[|log| - 1].Stepped? then Some(log[|log| - 1].outcome) else None
  }

  // ----- the unbounded machine

  /** A request: every row it was fed, its cursor, where its context starts, and the number of its blocks. */
  datatype Line = Line(rows: History, cached: nat, start: nat, blocks: nat)

  /** What a capture saw. */
  datatype Copy = Copy(rows: History, tokenCount: nat)

  datatype Unbounded = Unbounded(lines: map<nat, Line>, saved: seq<Copy>)

  /** The K/V of n auxiliary rows. */
  ghost function AuxRows(aux: seq<int>, begin: nat, n: nat): (r: seq<Kv>)
    ensures |r| == n
    ensures begin + n <= |aux| ==> forall k | 0 <= k < n :: r[k] == Context(aux[begin + k])
  {
    if n == 0 then []
    else AuxRows(aux, begin, n - 1) + [if begin + n <= |aux| then Context(aux[begin + n - 1]) else Blank]
  }

  /** The line of a request that is admitted: one that joins is empty, a restored one has what the capture saw. */
  ghost function NewLine(c: Config, saved: seq<Copy>, f: ScriptFeed, how: Admission): Line
    requires ValidConfig(c)
  {
    var first := f.feed.firstPosition;
    if how.Restored? && f.saved.Some? && f.saved.value < |saved|
    then Line(saved[f.saved.value].rows, first, 0, RingBlocks(c))
    else Line(map[], first, first, RingBlocks(c))
  }

  ghost function EnterAll(c: Config, u: Unbounded, fs: seq<ScriptFeed>, how: seq<Admission>, n: nat): Unbounded
    requires ValidConfig(c) && n <= |fs|
  {
    if n == 0 then u else
      var v := EnterAll(c, u, fs, how, n - 1);
      var f := fs[n - 1];
      if n <= |how| && (how[n - 1].Joined? || how[n - 1].Restored?)
      then v.(lines := v.lines[f.feed.request := NewLine(c, u.saved, f, how[n - 1])]) else v
  }

  function BlocksAfter(c: Config, r: Outcome, q: nat, blocks: nat): nat
    requires ValidConfig(c)
  {
    if r.Ran? && |r.rows| == |r.shares| then CountAfter(c, blocks, r.rows, r.shares, q, |r.rows|) else blocks
  }

  /** The line once the feed is in: all its rows, at the positions they belong to. */
  ghost function FedLine(c: Config, line: Line, aux: seq<int>, f: Feed, r: Outcome): Line
    requires ValidConfig(c)
  {
    Line(Ingest(line.rows, f.firstPosition, AuxRows(aux, f.auxBegin, f.auxCount)), f.firstPosition + f.auxCount,
         line.start, BlocksAfter(c, r, f.request, line.blocks))
  }

  ghost function FeedAll(c: Config, lines: map<nat, Line>, aux: seq<int>, fs: seq<ScriptFeed>, r: Outcome, n: nat)
    : map<nat, Line>
    requires ValidConfig(c) && n <= |fs|
  {
    if n == 0 then lines else
      var before := FeedAll(c, lines, aux, fs, r, n - 1);
      var f := fs[n - 1].feed;
      if f.request in before then before[f.request := FedLine(c, before[f.request], aux, f, r)] else before
  }

  ghost function AfterOp(c: Config, u: Unbounded, op: Op, d: Decision): Unbounded
    requires ValidConfig(c)
  {
    match op
    case Step(aux, fs, _) =>
      if !d.Stepped? then u else
        var v := EnterAll(c, u, fs, d.how, |fs|);
        if d.outcome.Ran? then v.(lines := FeedAll(c, v.lines, aux, fs, d.outcome, |fs|)) else v
    case Capture(r, n, _) =>
      if d.Captured? && d.made && r in u.lines then u.(saved := u.saved + [Copy(u.lines[r].rows, n)]) else u
    case Release(r) => u.(lines := u.lines - {r})
    case ReleaseAll => u.(lines := map[])
  }

  /** The machine after the operations that decisions were made about. */
  ghost function UnboundedAfter(c: Config, script: seq<Op>, log: seq<Decision>): Unbounded
    requires ValidConfig(c) && |log| <= |script|
    decreases |log|
  {
    if log == [] then Unbounded(map[], []) else
      var n := |log| - 1;
      AfterOp(c, UnboundedAfter(c, script, log[..n]), script[n], log[n])
  }

  // ----- its decisions

  /** The lines as request states; block ids do not matter. */
  ghost function States(lines: map<nat, Line>): Requests {
    map q | q in lines :: RequestState(Repeat(0, lines[q].blocks), lines[q].cached, lines[q].start)
  }

  ghost function FreeOf(c: Config, lines: map<nat, Line>): nat {
    var held := Sum(BlockCounts(States(lines)));
    if held <= c.numBlocks then c.numBlocks - held else 0
  }

  /** The feed as the machine sees it: of a checkpoint only its position and state matter. */
  ghost function PlainFeed(c: Config, f: ScriptFeed, saved: seq<Copy>): Feed
    requires ValidConfig(c)
  {
    f.feed.(checkpoint :=
              if f.saved.Some? && f.saved.value < |saved|
              then Some(Checkpoint(saved[f.saved.value].tokenCount, Repeat([], RingBlocks(c)), f.state)) else None)
  }

  ghost function PlainFeeds(c: Config, fs: seq<ScriptFeed>, saved: seq<Copy>): (feeds: seq<Feed>)
    requires ValidConfig(c)
    ensures |feeds| == |fs| && forall i | 0 <= i < |fs| :: feeds[i] == PlainFeed(c, fs[i], saved)
  {
    if fs == [] then [] else PlainFeeds(c, fs[..|fs| - 1], saved) + [PlainFeed(c, fs[|fs| - 1], saved)]
  }

  /** The decision that the rules of admission, capture and planning make about an operation. */
  ghost predicate Decided(c: Config, u: Unbounded, op: Op, d: Decision)
    requires ValidConfig(c)
  {
    match op
    case Step(_, fs, _) => d.Stepped? && StepDecided(c, u, fs, d.how, d.outcome)
    case Capture(r, n, available) => d == Captured(available && Capturable(c, States(u.lines), r, n))
    case _ => d == Nothing
  }

  ghost predicate StepDecided(c: Config, u: Unbounded, fs: seq<ScriptFeed>, how: seq<Admission>, r: Outcome)
    requires ValidConfig(c)
  {
    var feeds := PlainFeeds(c, fs, u.saved);
    && how == Admissions(c, feeds, u.lines.Keys, FreeOf(c, u.lines), |feeds|)
    && Concluded(c, feeds, States(EnterAll(c, u, fs, how, |fs|).lines), r)
  }

  ghost predicate AllDecided(c: Config, script: seq<Op>, log: seq<Decision>)
    requires ValidConfig(c)
  {
    && |log| <= |script|
    && forall n | 0 <= n < |log| :: Decided(c, UnboundedAfter(c, script, log[..n]), script[n], log[n])
  }

  // ----- agreement

  /** The request stands where its line does, and on every position of the window its history is the line's. */
  ghost predicate AgreesOn(c: Config, st: RequestState, h: History, line: Line) {
    && st.contextStart == line.start <= st.cached == line.cached
    && forall p | WindowStart(c, st) <= p < st.cached :: AgreesAt(h, line.rows, p)
  }

  ghost predicate AgreesAt(h: History, u: History, p: nat) {
    p in h && p in u && h[p] == u[p]
  }

  ghost predicate Agrees(c: Config, requests: Requests, history: map<nat, History>, lines: map<nat, Line>) {
    && lines.Keys == history.Keys == requests.Keys
    && forall r | r in requests :: AgreesOn(c, requests[r], history[r], lines[r])
  }

  /** Requests have as many blocks as their lines. */
  ghost predicate Counted(requests: Requests, lines: map<nat, Line>) {
    lines.Keys == requests.Keys && forall r | r in requests :: |requests[r].blocks| == lines[r].blocks
  }

  /** A checkpoint's bytes are what the capture saw, on every position a restored request can read. */
  ghost predicate SavedAs(c: Config, cp: Checkpoint, copy: Copy)
    requires ValidConfig(c)
  {
    && 0 < c.slidingWindow && cp.tokenCount == copy.tokenCount
    && |cp.data| == RingBlocks(c) && cp.data != [] && FullBlocks(cp.data, c.pagedBlockSize)
    && forall p | 0 <= p < cp.tokenCount <= p + ContextWindow(c) ::
         p in copy.rows && SavedRow(cp.data, c.pagedBlockSize, p) == copy.rows[p]
  }

  ghost predicate AllSavedAs(c: Config, captured: seq<Checkpoint>, saved: seq<Copy>)
    requires ValidConfig(c)
  {
    |captured| == |saved| && forall i | 0 <= i < |captured| :: SavedAs(c, captured[i], saved[i])
  }

  ghost function RowsOf(lines: map<nat, Line>): map<nat, History> {
    map q | q in lines :: lines[q].rows
  }

  /** The cells hold every window's rows of the unbounded machine, and cursors are where its lines end. */
  ghost predicate Refines(c: Config, requests: Requests, cells: Cells, lines: map<nat, Line>)
    requires ValidConfig(c)
  {
    && AllTracked(c, requests, cells, RowsOf(lines))
    && forall q | q in requests ::
         q in lines && requests[q].cached == lines[q].cached && requests[q].contextStart == lines[q].start
  }

  /** If the rings hold the histories and the histories agree, the rings hold the machine's rows. */
  lemma {:induction false} AgreeingTracked(c: Config, requests: Requests, cells: Cells, history: map<nat, History>,
                                           lines: map<nat, Line>)
    requires ValidConfig(c) && AllTracked(c, requests, cells, history) && Agrees(c, requests, history, lines)
    ensures Refines(c, requests, cells, lines)
  {
    hide Shaped, WindowStart, CellOf;
    forall r | r in requests ensures Tracked(c, requests[r], cells, lines[r].rows) {
      var st := requests[r];
      assert Tracked(c, st, cells, history[r]) && AgreesOn(c, st, history[r], lines[r]);
      forall p | WindowStart(c, st) <= p < st.cached
        ensures HoldsAt(c.pagedBlockSize, st.blocks, cells, lines[r].rows, p)
      {
        assert HoldsAt(c.pagedBlockSize, st.blocks, cells, history[r], p) && AgreesAt(history[r], lines[r].rows, p);
      }
    }
  }

  /** A drafting request reads a complete window of the machine's rows. */
  lemma {:induction false} AgreeingWindow(c: Config, st: RequestState, cells: Cells, h: History, line: Line)
    requires ValidConfig(c) && CompleteWindow(c, st, cells, h) && AgreesOn(c, st, h, line)
    requires HasContext(c, st, st.cached)
    ensures CompleteWindow(c, st, cells, line.rows)
  {
    hide CellOf;
    forall p | 0 <= p < st.cached && (ContextWindow(c) == 0 || st.cached <= p + ContextWindow(c))
      ensures HoldsAt(c.pagedBlockSize, st.blocks, cells, line.rows, p)
    {
      assert HoldsAt(c.pagedBlockSize, st.blocks, cells, h, p) && AgreesAt(h, line.rows, p);
    }
  }

  // ----- admission

  /** What admission made of a request. */
  ghost predicate EnteredAt(c: Config, u: Unbounded, v: Unbounded, f: ScriptFeed, how: Admission)
    requires ValidConfig(c)
  {
    var q := f.feed.request;
    if how.Joined? || how.Restored? then q in v.lines && v.lines[q] == NewLine(c, u.saved, f, how)
    else SameFor(u, v, q)
  }

  ghost predicate SameFor(u: Unbounded, v: Unbounded, q: nat) {
    (q in v.lines <==> q in u.lines) && (q in u.lines ==> v.lines[q] == u.lines[q])
  }

  lemma {:induction false} EnterElsewhere(c: Config, u: Unbounded, fs: seq<ScriptFeed>, how: seq<Admission>, n: nat,
                                          q: nat)
    requires ValidConfig(c) && n <= |fs| && n <= |how| && forall j | 0 <= j < n :: fs[j].feed.request != q
    ensures EnterAll(c, u, fs, how, n).saved == u.saved && SameFor(u, EnterAll(c, u, fs, how, n), q)
  {
    if 0 < n { EnterElsewhere(c, u, fs, how, n - 1, q); }
  }

  lemma {:induction false} EnterAt(c: Config, u: Unbounded, fs: seq<ScriptFeed>, how: seq<Admission>, n: nat, j: nat)
    requires ValidConfig(c) && j < n <= |fs| && n <= |how| && DistinctScript(fs)
    ensures EnterAll(c, u, fs, how, n).saved == u.saved
    ensures EnteredAt(c, u, EnterAll(c, u, fs, how, n), fs[j], how[j])
  {
    hide NewLine;
    if j == n - 1 {
      EnterElsewhere(c, u, fs, how, n - 1, fs[j].feed.request);
    } else {
      EnterAt(c, u, fs, how, n - 1, j);
    }
  }

  lemma {:induction false} EnterSaved(c: Config, u: Unbounded, fs: seq<ScriptFeed>, how: seq<Admission>, n: nat)
    requires ValidConfig(c) && n <= |fs|
    ensures EnterAll(c, u, fs, how, n).saved == u.saved
  {
    if 0 < n { EnterSaved(c, u, fs, how, n - 1); }
  }

  function Resolved(f: ScriptFeed, captured: seq<Checkpoint>): Feed {
    f.feed.(checkpoint :=
              if f.saved.Some? && f.saved.value < |captured| then Some(captured[f.saved.value].(state := f.state))
              else None)
  }

  ghost predicate AllResolved(fs: seq<ScriptFeed>, captured: seq<Checkpoint>, feeds: seq<Feed>) {
    |feeds| == |fs| && forall i | 0 <= i < |fs| :: feeds[i] == Resolved(fs[i], captured)
  }

  lemma {:induction false} ResolvedRequest(f: ScriptFeed, captured: seq<Checkpoint>)
    ensures var feed := Resolved(f, captured);
            && feed.request == f.feed.request && feed.firstPosition == f.feed.firstPosition
            && feed.auxBegin == f.feed.auxBegin && feed.auxCount == f.feed.auxCount
  {}

  /** Every capture with the same bytes has the same window. */
  lemma {:induction false} RestoredAgrees(c: Config, ledger: set<DrafterAdmission.Capture>, f: ScriptFeed,
                                          captured: seq<Checkpoint>, saved: seq<Copy>, st: RequestState, h: History)
    requires ValidConfig(c) && AllRecorded(c, ledger) && AllSavedAs(c, captured, saved)
    requires Entered(c, ledger, Resolved(f, captured), Restored, st, h)
    ensures AgreesOn(c, st, h, NewLine(c, saved, f, Restored))
  {
    hide SavedRow, RingBlocks;
    var cp := Resolved(f, captured).checkpoint.value;
    var k :| k in ledger && Saved(k, cp) && h == k.window;
    assert Recorded(c, k);
    var copy := saved[f.saved.value];
    assert SavedAs(c, captured[f.saved.value], copy);
    forall p | WindowStart(c, st) <= p < st.cached ensures AgreesAt(h, copy.rows, p) {
      assert SavedRow(k.data, c.pagedBlockSize, p) == k.window[p];
    }
  }

  lemma {:induction false} JoinedAgrees(c: Config, ledger: set<DrafterAdmission.Capture>, f: ScriptFeed, feed: Feed,
                                        saved: seq<Copy>, st: RequestState, h: History)
    requires ValidConfig(c) && Entered(c, ledger, feed, Joined, st, h) && feed.firstPosition == f.feed.firstPosition
    ensures AgreesOn(c, st, h, NewLine(c, saved, f, Joined))
  {}

  lemma {:induction false} NewLineBlocks(c: Config, saved: seq<Copy>, f: ScriptFeed, how: Admission)
    requires ValidConfig(c)
    ensures NewLine(c, saved, f, how).blocks == RingBlocks(c)
  {}

  lemma {:induction false} OneEnters(c: Config, ledger: set<DrafterAdmission.Capture>, fs: seq<ScriptFeed>,
                                     captured: seq<Checkpoint>, feeds: seq<Feed>, u: Unbounded, requests: Requests,
                                     history: map<nat, History>, a: Admitted, q: nat)
    requires ValidConfig(c) && AllRecorded(c, ledger) && AllSavedAs(c, captured, u.saved) && DistinctScript(fs)
    requires AllResolved(fs, captured, feeds) && AdmittedBy(c, ledger, feeds, requests, history, a, |feeds|)
    requires Agrees(c, requests, history, u.lines) && Counted(requests, u.lines) && q in a.requests
    ensures var v := EnterAll(c, u, fs, a.how, |fs|);
            && q in v.lines && q in a.history && AgreesOn(c, a.requests[q], a.history[q], v.lines[q])
            && |a.requests[q].blocks| == v.lines[q].blocks
  {
    hide AllRecorded, AllSavedAs, AgreesOn, EnterAll, Resolved, CapturedAs, RingBlocks, NewLine;
    if j :| 0 <= j < |fs| && fs[j].feed.request == q {
      ResolvedRequest(fs[j], captured);
      assert AdmittedOne(c, ledger, feeds[j], a.how[j], requests, a);
      EnterAt(c, u, fs, a.how, |fs|, j);
      NewLineBlocks(c, u.saved, fs[j], a.how[j]);
      if a.how[j].Joined? {
        JoinedAgrees(c, ledger, fs[j], feeds[j], u.saved, a.requests[q], a.history[q]);
      } else if a.how[j].Restored? {
        RestoredAgrees(c, ledger, fs[j], captured, u.saved, a.requests[q], a.history[q]);
      }
    } else {
      assert q in requests by {
        if q !in requests {
          var j :| 0 <= j < |feeds| && feeds[j].request == q;
          ResolvedRequest(fs[j], captured);
        }
      }
      EnterElsewhere(c, u, fs, a.how, |fs|, q);
    }
  }

  /** After admission the histories agree again. */
  lemma {:induction false} EnterAgrees(c: Config, ledger: set<DrafterAdmission.Capture>, fs: seq<ScriptFeed>,
                                       captured: seq<Checkpoint>, feeds: seq<Feed>, u: Unbounded,
                                       requests: Requests, history: map<nat, History>, a: Admitted)
    requires ValidConfig(c) && AllRecorded(c, ledger) && AllSavedAs(c, captured, u.saved) && DistinctScript(fs)
    requires AllResolved(fs, captured, feeds) && AdmittedBy(c, ledger, feeds, requests, history, a, |feeds|)
    requires Agrees(c, requests, history, u.lines) && Counted(requests, u.lines)
    ensures var v := EnterAll(c, u, fs, a.how, |fs|);
            Agrees(c, a.requests, a.history, v.lines) && Counted(a.requests, v.lines)
  {
    hide AllRecorded, AllSavedAs, AgreesOn, Entered, EnterAll, Resolved, NewLine;
    var v := EnterAll(c, u, fs, a.how, |fs|);
    forall q | q in a.requests
      ensures q in v.lines && AgreesOn(c, a.requests[q], a.history[q], v.lines[q])
      ensures |a.requests[q].blocks| == v.lines[q].blocks
    {
      OneEnters(c, ledger, fs, captured, feeds, u, requests, history, a, q);
    }
    forall q | q in v.lines ensures q in a.requests {
      if j :| 0 <= j < |fs| && fs[j].feed.request == q {
        ResolvedRequest(fs[j], captured);
        assert AdmittedOne(c, ledger, feeds[j], a.how[j], requests, a);
        EnterAt(c, u, fs, a.how, |fs|, j);
      } else {
        EnterElsewhere(c, u, fs, a.how, |fs|, q);
      }
    }
  }

  // ----- feeding

  lemma {:induction false} FeedElsewhere(c: Config, lines: map<nat, Line>, aux: seq<int>, fs: seq<ScriptFeed>,
                                         r: Outcome, n: nat, q: nat)
    requires ValidConfig(c) && n <= |fs| && forall j | 0 <= j < n :: fs[j].feed.request != q
    ensures var after := FeedAll(c, lines, aux, fs, r, n);
            after.Keys == lines.Keys && (q in lines ==> after[q] == lines[q])
  {
    hide FedLine;
    if 0 < n { FeedElsewhere(c, lines, aux, fs, r, n - 1, q); }
  }

  lemma {:induction false} FeedAt(c: Config, lines: map<nat, Line>, aux: seq<int>, fs: seq<ScriptFeed>, r: Outcome,
                                  n: nat, j: nat)
    requires ValidConfig(c) && j < n <= |fs| && DistinctScript(fs)
    ensures var after := FeedAll(c, lines, aux, fs, r, n); var f := fs[j].feed;
            && after.Keys == lines.Keys
            && (f.request in lines ==> after[f.request] == FedLine(c, lines[f.request], aux, f, r))
  {
    hide FedLine;
    if j == n - 1 {
      FeedElsewhere(c, lines, aux, fs, r, n - 1, fs[j].feed.request);
    } else {
      FeedAt(c, lines, aux, fs, r, n - 1, j);
    }
  }

  lemma {:induction false} FeedKeys(c: Config, lines: map<nat, Line>, aux: seq<int>, fs: seq<ScriptFeed>, r: Outcome,
                                    n: nat)
    requires ValidConfig(c) && n <= |fs|
    ensures FeedAll(c, lines, aux, fs, r, n).Keys == lines.Keys
  {
    hide FedLine;
    if 0 < n { FeedKeys(c, lines, aux, fs, r, n - 1); }
  }

  /** The rows a step drops lie before the new window. */
  lemma {:induction false} IngestAgrees(c: Config, aux: seq<int>, row: Row, share: Share, st: RequestState,
                                        st': RequestState, h: History, h': History, line: Line, line': Line)
    requires AgreesOn(c, st, h, line) && share == ShareOf(c, row, share.hasBlock) && IngestedOne(aux, row, share, h, h')
    requires st.cached == row.firstPosition && st'.cached == row.firstPosition + row.auxCount == line'.cached
    requires st'.contextStart == st.contextStart && line'.start == line.start && row.auxBegin + row.auxCount <= |aux|
    requires line'.rows == Ingest(line.rows, row.firstPosition, AuxRows(aux, row.auxBegin, row.auxCount))
    ensures AgreesOn(c, st', h', line')
  {
    hide Ingest, AuxRows, HasAux;
    forall p | WindowStart(c, st') <= p < st'.cached ensures AgreesAt(h', line'.rows, p) {
      if share.first <= p {
        assert HasAux(aux, row, h', p);
        AuxAgrees(aux, row, h', line.rows, p);
      } else {
        assert AgreesAt(h, line.rows, p);
      }
    }
  }

  lemma {:induction false} AuxAgrees(aux: seq<int>, row: Row, h: History, u: History, p: nat)
    requires HasAux(aux, row, h, p) && p < row.firstPosition + row.auxCount && row.auxBegin + row.auxCount <= |aux|
    ensures AgreesAt(h, Ingest(u, row.firstPosition, AuxRows(aux, row.auxBegin, row.auxCount)), p)
  {
    var rows := AuxRows(aux, row.auxBegin, row.auxCount);
    assert rows[p - row.firstPosition] == Context(aux[row.auxBegin + (p - row.firstPosition)]);
  }

  ghost predicate InsideAux(aux: seq<int>, feeds: seq<Feed>) {
    forall i | 0 <= i < |feeds| :: feeds[i].auxBegin + feeds[i].auxCount <= |aux|
  }

  /** Agreement looks at the cursor and the context start alone. */
  lemma {:induction false} StillAgrees(c: Config, st: RequestState, st': RequestState, h: History, line: Line)
    requires AgreesOn(c, st, h, line) && st'.cached == st.cached && st'.contextStart == st.contextStart
    ensures AgreesOn(c, st', h, line)
  {}

  lemma {:induction false} UnservedHasNoFeed(fs: seq<ScriptFeed>, captured: seq<Checkpoint>, feeds: seq<Feed>,
                                             rows: seq<Row>, requests: Requests, q: nat)
    requires AllResolved(fs, captured, feeds) && ServedFrom(feeds, rows, requests, |feeds|) && q in requests
    requires forall i | 0 <= i < |rows| :: rows[i].request != q
    ensures forall j | 0 <= j < |fs| :: fs[j].feed.request != q
  {
    forall j | 0 <= j < |fs| ensures fs[j].feed.request != q {
      ResolvedRequest(fs[j], captured);
      assert feeds[j].request in requests <==> FeedRow(feeds[j]) in rows;
    }
  }

  lemma {:induction false} CountElsewhere(c: Config, blocks: nat, rows: seq<Row>, shares: seq<Share>, q: nat, n: nat)
    requires ValidConfig(c) && n <= |rows| && n <= |shares| && forall i | 0 <= i < n :: rows[i].request != q
    ensures CountAfter(c, blocks, rows, shares, q, n) == blocks
  {
    hide NeededBlocks;
    if 0 < n { CountElsewhere(c, blocks, rows, shares, q, n - 1); }
  }

  lemma {:induction false} ServedAgrees(c: Config, aux: seq<int>, fs: seq<ScriptFeed>, captured: seq<Checkpoint>,
                                        feeds: seq<Feed>, r: Outcome, requests: Requests,
                                        history: map<nat, History>, requests': Requests, history': map<nat, History>,
                                        lines: map<nat, Line>, i: nat)
    requires ValidConfig(c) && r.Ran? && DistinctScript(fs) && AllResolved(fs, captured, feeds) && InsideAux(aux, feeds)
    requires Fed(c, aux, r.rows, r.shares, requests, history, requests', history') && i < |r.rows|
    requires ServedFrom(feeds, r.rows, requests, |feeds|) && Agrees(c, requests, history, lines)
    ensures var q := r.rows[i].request; var lines' := FeedAll(c, lines, aux, fs, r, |fs|);
            && q in requests' && q in history' && q in lines && q in lines'
            && AgreesOn(c, requests'[q], history'[q], lines'[q])
            && lines'[q].blocks == BlocksAfter(c, r, q, lines[q].blocks)
  {
    hide FeedAll, AgreesOn, IngestedOne, Resolved, ShareOf, Ingest, AuxRows, BlocksAfter;
    var row := r.rows[i];
    var q := row.request;
    assert row in r.rows;
    var j :| 0 <= j < |feeds| && row == FeedRow(feeds[j]);
    ResolvedRequest(fs[j], captured);
    FeedAt(c, lines, aux, fs, r, |fs|, j);
    assert MovedOne(row, requests, requests');
    IngestAgrees(c, aux, row, r.shares[i], requests[q], requests'[q], history[q], history'[q], lines[q],
                 FedLine(c, lines[q], aux, fs[j].feed, r));
  }

  /** After a step that ran the histories agree again. */
  lemma {:induction false} FeedAgrees(c: Config, aux: seq<int>, fs: seq<ScriptFeed>, captured: seq<Checkpoint>,
                                      feeds: seq<Feed>, r: Outcome, requests: Requests,
                                      history: map<nat, History>, requests': Requests, history': map<nat, History>,
                                      lines: map<nat, Line>)
    requires ValidConfig(c) && r.Ran? && DistinctScript(fs) && AllResolved(fs, captured, feeds) && InsideAux(aux, feeds)
    requires Fed(c, aux, r.rows, r.shares, requests, history, requests', history')
    requires Claimed(c, r.rows, r.shares, requests, requests', |r.rows|)
    requires ServedFrom(feeds, r.rows, requests, |feeds|) && Agrees(c, requests, history, lines)
    requires Counted(requests, lines)
    ensures var lines' := FeedAll(c, lines, aux, fs, r, |fs|);
            Agrees(c, requests', history', lines') && Counted(requests', lines')
  {
    hide FeedAll, AgreesOn, IngestedOne, Resolved, ServedFrom, CountAfter;
    var lines' := FeedAll(c, lines, aux, fs, r, |fs|);
    FeedKeys(c, lines, aux, fs, r, |fs|);
    forall q | q in requests'
      ensures AgreesOn(c, requests'[q], history'[q], lines'[q]) && |requests'[q].blocks| == lines'[q].blocks
    {
      if i :| 0 <= i < |r.rows| && r.rows[i].request == q {
        ServedAgrees(c, aux, fs, captured, feeds, r, requests, history, requests', history', lines, i);
      } else {
        UnservedHasNoFeed(fs, captured, feeds, r.rows, requests, q);
        FeedElsewhere(c, lines, aux, fs, r, |fs|, q);
        StillAgrees(c, requests[q], requests'[q], history[q], lines[q]);
        CountElsewhere(c, lines[q].blocks, r.rows, r.shares, q, |r.rows|);
      }
    }
  }

  // ----- the machine decides as the drafter does

  /** Feeds that differ at most in the bytes of their checkpoints. */
  ghost predicate Alike(f: Feed, g: Feed) {
    && g == f.(checkpoint := g.checkpoint) && (f.checkpoint.Some? <==> g.checkpoint.Some?)
    && (f.checkpoint.Some? ==>
          var cp, cp' := f.checkpoint.value, g.checkpoint.value;
          cp.tokenCount == cp'.tokenCount && |cp.data| == |cp'.data| && cp.state == cp'.state)
  }

  ghost predicate AllAlike(feeds: seq<Feed>, feeds': seq<Feed>) {
    |feeds| == |feeds'| && forall i | 0 <= i < |feeds| :: Alike(feeds[i], feeds'[i])
  }

  lemma {:induction false} ResolvedAlike(c: Config, fs: seq<ScriptFeed>, captured: seq<Checkpoint>, saved: seq<Copy>,
                                         feeds: seq<Feed>)
    requires ValidConfig(c) && AllSavedAs(c, captured, saved) && AllResolved(fs, captured, feeds)
    ensures AllAlike(feeds, PlainFeeds(c, fs, saved))
  {
    hide RingBlocks;
    forall i | 0 <= i < |fs| ensures Alike(feeds[i], PlainFeeds(c, fs, saved)[i]) {
      if fs[i].saved.Some? && fs[i].saved.value < |captured| {
        assert SavedAs(c, captured[fs[i].saved.value], saved[fs[i].saved.value]);
      }
    }
  }

  lemma {:induction false} AdmissionsAlike(c: Config, feeds: seq<Feed>, feeds': seq<Feed>, tracked: set<nat>, free: nat,
                                           n: nat)
    requires ValidConfig(c) && AllAlike(feeds, feeds') && n <= |feeds|
    ensures Admissions(c, feeds, tracked, free, n) == Admissions(c, feeds', tracked, free, n)
  {
    hide RingBlocks, AdmissionOf, Entrants;
    if 0 < n {
      AdmissionsAlike(c, feeds, feeds', tracked, free, n - 1);
      var f, g := feeds[n - 1], feeds'[n - 1];
      assert Alike(f, g);
      var how := Admissions(c, feeds, tracked, free, n - 1);
      var taken := Entrants(how) * RingBlocks(c);
      AdmissionAlike(c, f, g, f.request in tracked, if taken <= free then free - taken else 0,
                     |tracked| + Entrants(how));
    }
  }

  lemma {:induction false} AdmissionAlike(c: Config, f: Feed, g: Feed, tracked: bool, free: nat, count: nat)
    requires ValidConfig(c) && Alike(f, g)
    ensures AdmissionOf(c, f, tracked, free, count) == AdmissionOf(c, g, tracked, free, count)
  {
    hide RingBlocks, HasRoom;
  }

  /** The same requests, with other blocks but as many. */
  ghost predicate SameStates(requests: Requests, requests': Requests) {
    && requests'.Keys == requests.Keys
    && forall q | q in requests ::
         && requests'[q].cached == requests[q].cached && requests'[q].contextStart == requests[q].contextStart
         && |requests'[q].blocks| == |requests[q].blocks|
  }

  lemma {:induction false} AgreeingStates(c: Config, requests: Requests, history: map<nat, History>,
                                          lines: map<nat, Line>)
    requires Agrees(c, requests, history, lines) && Counted(requests, lines)
    ensures SameStates(requests, States(lines)) && BlockCounts(States(lines)) == BlockCounts(requests)
  {
    forall q | q in requests
      ensures requests[q].cached == lines[q].cached && requests[q].contextStart == lines[q].start
    {
      assert AgreesOn(c, requests[q], history[q], lines[q]);
    }
  }

  lemma {:induction false} FreeAgrees(c: Config, free: seq<nat>, requests: Requests, owner: map<nat, Owner>,
                                      history: map<nat, History>, lines: map<nat, Line>)
    requires Pooled(c, free, requests, owner) && Agrees(c, requests, history, lines) && Counted(requests, lines)
    ensures FreeOf(c, lines) == |free|
  {
    hide Sum, Partitioned, Agrees;
    AgreeingStates(c, requests, history, lines);
  }

  lemma {:induction false} ServedAlike(feeds: seq<Feed>, feeds': seq<Feed>, rows: seq<Row>, requests: Requests,
                                       requests': Requests)
    requires AllAlike(feeds, feeds') && requests'.Keys == requests.Keys && ServedFrom(feeds, rows, requests, |feeds|)
    ensures ServedFrom(feeds', rows, requests', |feeds'|)
  {
    forall j | 0 <= j < |feeds| ensures FeedRow(feeds'[j]) == FeedRow(feeds[j]) && feeds'[j].request == feeds[j].request
    {
      assert Alike(feeds[j], feeds'[j]);
    }
    forall row | row in rows ensures exists j :: 0 <= j < |feeds'| && row == FeedRow(feeds'[j]) {
      var j :| 0 <= j < |feeds| && row == FeedRow(feeds[j]);
      assert row == FeedRow(feeds'[j]);
    }
    forall j | 0 <= j < |feeds'| ensures feeds'[j].request in requests' <==> FeedRow(feeds'[j]) in rows {
      assert feeds[j].request in requests <==> FeedRow(feeds[j]) in rows;
    }
  }

  lemma {:induction false} DraftsAlike(c: Config, feeds: seq<Feed>, feeds': seq<Feed>, rows: seq<Row>,
                                       shares: seq<Share>, requests: Requests, requests': Requests, drafted: bool)
    requires AllAlike(feeds, feeds') && SameStates(requests, requests')
    requires DraftsFor(c, feeds, rows, shares, requests, drafted)
    ensures DraftsFor(c, feeds', rows, shares, requests', drafted)
  {
    forall j | 0 <= j < |feeds|
      ensures Drafting(c, requests, feeds[j]) <==> Drafting(c, requests', feeds'[j])
      ensures feeds[j].request == feeds'[j].request
    {
      assert Alike(feeds[j], feeds'[j]);
    }
    hide Drafting;
    if drafted {
      var j :| 0 <= j < |feeds| && Drafting(c, requests, feeds[j]);
      assert Drafting(c, requests', feeds'[j]);
    }
    forall i, j | 0 <= i < |rows| && 0 <= j < |feeds'| && rows[i].request == feeds'[j].request
      ensures shares[i].hasBlock <==> if drafted then Drafting(c, requests', feeds'[j]) else i == 0
    {
      assert feeds[j].request == feeds'[j].request;
    }
  }

  lemma {:induction false} ClaimsAlike(c: Config, rows: seq<Row>, shares: seq<Share>, requests: Requests,
                                       requests': Requests)
    requires ValidConfig(c) && SameStates(requests, requests')
    ensures TooLarge(c, requests, rows, shares) <==> TooLarge(c, requests', rows, shares)
  {
    hide CountAfter, Sum;
    if |rows| == |shares| {
      assert CountsAfter(c, requests, rows, shares) == CountsAfter(c, requests', rows, shares);
    }
  }

  lemma {:induction false} PlanAlike(c: Config, feeds: seq<Feed>, feeds': seq<Feed>, rows: seq<Row>,
                                     shares: seq<Share>, requests: Requests, requests': Requests, drafted: bool)
    requires AllAlike(feeds, feeds') && SameStates(requests, requests')
    requires PlannedFor(c, feeds, rows, shares, requests, drafted)
    ensures PlannedFor(c, feeds', rows, shares, requests', drafted)
  {
    hide DraftsFor, ServedFrom, Planned, AllAlike, DistinctRequests;
    ServedAlike(feeds, feeds', rows, requests, requests');
    DraftsAlike(c, feeds, feeds', rows, shares, requests, requests', drafted);
  }

  lemma {:induction false} ConcludedAlike(c: Config, feeds: seq<Feed>, feeds': seq<Feed>, requests: Requests,
                                          requests': Requests, r: Outcome)
    requires ValidConfig(c) && AllAlike(feeds, feeds') && SameStates(requests, requests')
    requires Concluded(c, feeds, requests, r)
    ensures Concluded(c, feeds', requests', r)
  {
    hide PlannedFor, TooLarge, SomeEmpty;
    forall j | 0 <= j < |feeds|
      ensures feeds[j].request == feeds'[j].request
      ensures Misplaced(feeds[j], requests) <==> Misplaced(feeds'[j], requests')
    {
      assert Alike(feeds[j], feeds'[j]);
    }
    hide Misplaced, AllAlike;
    SameOutcomes(feeds, feeds', requests, requests');
    if !r.Idle? && !r.NotContiguous? {
      PlanAlike(c, feeds, feeds', r.rows, r.shares, requests, requests', r.drafted);
      ClaimsAlike(c, r.rows, r.shares, requests, requests');
    }
  }

  lemma {:induction false} SameOutcomes(feeds: seq<Feed>, feeds': seq<Feed>, requests: Requests, requests': Requests)
    requires |feeds| == |feeds'| && requests'.Keys == requests.Keys
    requires forall j | 0 <= j < |feeds| :: feeds[j].request == feeds'[j].request
                                            && (Misplaced(feeds[j], requests) <==> Misplaced(feeds'[j], requests'))
    ensures (forall j | 0 <= j < |feeds| :: feeds[j].request !in requests) <==>
            (forall j | 0 <= j < |feeds'| :: feeds'[j].request !in requests')
    ensures (exists j :: 0 <= j < |feeds| && Misplaced(feeds[j], requests)) <==>
            (exists j :: 0 <= j < |feeds'| && Misplaced(feeds'[j], requests'))
  {
    hide Misplaced;
    if j :| 0 <= j < |feeds| && Misplaced(feeds[j], requests) { assert Misplaced(feeds'[j], requests'); }
    if j :| 0 <= j < |feeds'| && Misplaced(feeds'[j], requests') { assert Misplaced(feeds[j], requests); }
    if j :| 0 <= j < |feeds| && feeds[j].request in requests { assert feeds'[j].request in requests'; }
    if j :| 0 <= j < |feeds'| && feeds'[j].request in requests' { assert feeds[j].request in requests; }
  }
}
