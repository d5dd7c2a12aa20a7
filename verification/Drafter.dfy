/**
 The block drafter's host-side protocol: admitting requests to the paged cache pool, growing and
 releasing their block lists, capturing and restoring ring checkpoints, and one proposal step over a
 packed batch.
 */
module Drafter {
  import opened Common
  import opened Pigeonhole
  import opened Sums
  import opened DrafterLayout
  import opened DrafterState
  import opened DrafterCache
  import opened DrafterPool
  import opened DrafterStep
  import opened DrafterCommit
  import opened DrafterClaims
  import opened DrafterAdmission
  import opened DrafterPlan

  class Dflash2Drafter {
    const config: Config
    var freeBlocks: seq<nat>
    var requests: Requests
    var cells: Cells
    var admissionMisses: nat

    /** Where each block is. */
    ghost var owner: map<nat, Owner>
    /** For each tracked request and position, the row last ingested. */
    ghost var history: map<nat, History>
    /** Every capture made so far. */
    ghost var ledger: set<Capture>

    ghost predicate Valid()
      reads this
    {
      && ValidConfig(config)
      && Pooled(config, freeBlocks, requests, owner)
      && AllTracked(config, requests, cells, history)
      && AllRecorded(config, ledger)
    }

    /** Full attention: no request holds more than its context and one query-block spill. */
    ghost predicate Budgeted()
      reads this
      requires ValidConfig(config)
    {
      config.slidingWindow == 0 ==>
          |requests| <= config.maxRequests && WithinBudget(config, requests, CachedOf(requests))
    }

    constructor (config: Config)
      requires ValidConfig(config)
      ensures Valid() && Budgeted() && this.config == config && requests == map[]
      ensures |freeBlocks| == config.numBlocks && admissionMisses == 0 && ledger == {}
    {
      hide Pooled, AllTracked;
      this.config := config;
      var free := DescendingBlocks(config.numBlocks);
      freeBlocks, requests, cells, admissionMisses := free, map[], map[], 0;
      ghost var owners := InitialOwners(config.numBlocks, config.numBlocks);
      InitiallyPooled(config, free, owners);
      NothingTracked(config);
      owner, history, ledger := owners, map[], {};
    }

    /** Takes free blocks until the request has as many as the positions need, or the whole ring of a windowed
        drafter. Fails only when the pool runs out. */
    method EnsureBlocks(r: nat, positions: nat) returns (ok: bool, ghost taken: seq<nat>)
      requires ValidConfig(config) && Pooled(config, freeBlocks, requests, owner) && r in requests
      modifies this`freeBlocks, this`requests, this`owner
      ensures Pooled(config, freeBlocks, requests, owner)
      ensures requests == old(requests)[r := old(requests[r]).(blocks := old(requests[r].blocks) + taken)]
      ensures |taken| + |freeBlocks| == |old(freeBlocks)|
      ensures ok <==> NeededBlocks(config, positions) <= |old(requests[r].blocks)| + |old(freeBlocks)|
      ensures ok ==> |old(requests[r].blocks)| + |taken| ==
                     Max(|old(requests[r].blocks)|, NeededBlocks(config, positions))
      ensures !ok ==> freeBlocks == [] && |old(requests[r].blocks)| + |taken| < NeededBlocks(config, positions)
    {
      hide Pooled, RingBlocks, CeilDiv;
      var needed := NeededBlocks(config, positions);
      taken := [];
      ghost var st := requests[r];
      assert st.(blocks := st.blocks + []) == st;
      while |requests[r].blocks| < needed
        invariant r in requests && Pooled(config, freeBlocks, requests, owner)
        invariant requests == old(requests)[r := st.(blocks := st.blocks + taken)]
        invariant |taken| + |freeBlocks| == |old(freeBlocks)|
        invariant taken == [] || |st.blocks| + |taken| <= needed
        decreases |freeBlocks|
      {
        if freeBlocks == [] {
          return false, taken;
        }
        TakePooled(config, freeBlocks, requests, owner, r);
        var b := freeBlocks[|freeBlocks| - 1];
        owner := owner[b := Held(r, |requests[r].blocks|)];
        assert st.blocks + (taken + [b]) == st.blocks + taken + [b];
        taken := taken + [b];
        requests := requests[r := requests[r].(blocks := requests[r].blocks + [b])];
        freeBlocks := freeBlocks[..|freeBlocks| - 1];
      }
      return true, taken;
    }

    /** Forgets a request and frees what it held; forgetting an unknown one does nothing. */
    method Release(r: nat)
      requires Valid()
      modifies this
      ensures Valid() && requests == old(requests) - {r} && cells == old(cells)
      ensures history == old(history) - {r} && admissionMisses == old(admissionMisses)
      ensures freeBlocks == old(freeBlocks) + if r in old(requests) then old(requests)[r].blocks else []
      ensures ledger == old(ledger) && (old(Budgeted()) ==> Budgeted())
    {
      hide Pooled, AllTracked, AllRecorded, CeilDiv, SpillBlocks;
      if r !in requests {
        SameKeys(config, requests, cells, history);
        assert requests - {r} == requests && history - {r} == history;
        return;
      }
      ReleasePooled(config, freeBlocks, requests, owner, r);
      SmallerWithout(requests, r);
      RemoveTracked(config, requests, cells, history, r);
      owner := GiveBack(owner, r, |freeBlocks|);
      freeBlocks := freeBlocks + requests[r].blocks;
      requests := requests - {r};
      history := history - {r};
    }

    /** Forgets all requests. Afterwards the whole pool is free again. */
    method ReleaseAll()
      requires Valid()
      modifies this
      ensures Valid() && Budgeted() && requests == map[] && |freeBlocks| == config.numBlocks
      ensures admissionMisses == old(admissionMisses) && ledger == old(ledger)
    {
      hide Pooled, AllTracked, AllRecorded;
      while requests != map[]
        invariant Valid() && admissionMisses == old(admissionMisses) && ledger == old(ledger)
        decreases |requests|
      {
        var r :| r in requests;
        var before := requests;
        Release(r);
        SmallerWithout(before, r);
      }
      EmptyPool(config, freeBlocks, owner);
    }

    predicate CanCapturePrefix(r: nat, tokenCount: nat)
      reads this
      requires ValidConfig(config)
    {
      Capturable(config, requests, r, tokenCount)
    }

    /** Copies the request's ring. The copy holds, for every position of the window, the row the request
        last ingested there, and every position of the window was ingested. Whether snapshots are enabled, within
        their limit and storable is an input. */
    method CapturePrefix(r: nat, tokenCount: nat, available: bool) returns (cp: Option<Checkpoint>)
      requires Valid()
      modifies this`ledger
      ensures Valid() && (old(Budgeted()) ==> Budgeted())
      ensures cp.Some? <==> CanCapturePrefix(r, tokenCount) && available
      ensures cp.Some? <==>
                && available && 0 < config.slidingWindow && r in requests && requests[r].cached == tokenCount
                && WholeWindow(config, requests[r], tokenCount)
      ensures ledger == old(ledger) + if cp.Some? then {Capture(tokenCount, cp.value.data, history[r])} else {}
      ensures cp.Some? ==>
                && r in history && cp.value.tokenCount == tokenCount && cp.value.state == Resident
                && |cp.value.data| == RingBlocks(config) && FullBlocks(cp.value.data, config.pagedBlockSize)
                && forall p | 0 <= p < tokenCount <= p + ContextWindow(config) ::
                     p in history[r] && SavedRow(cp.value.data, config.pagedBlockSize, p) == history[r][p]
    {
      hide Pooled, RingBlocks, WholeWindow, Shaped, HoldsWindow, HasContext, SavedRow, AllTracked;
      AllShaped(config, requests, cells, history);
      CapturableIff(config, requests, r, tokenCount);
      if !CanCapturePrefix(r, tokenCount) || !available { return None; }
      var data := CopyOut(cells, requests[r].blocks, config.pagedBlockSize);
      RingSaved(config, requests, cells, history, r, data);
      ledger := ledger + {Capture(tokenCount, data, history[r])};
      return Some(Checkpoint(tokenCount, data, Resident));
    }

    /** Claims a ring for the request and fills it from a resident checkpoint of its exact position. From then on
        the request reads, for each position of its window, the row that the captured request last ingested. */
    method RestorePrefix(feed: Feed) returns (ok: bool)
      requires Valid() && feed.request !in requests
      requires SoundCheckpoint(ledger, feed)
      modifies this
      ensures Valid() && ledger == old(ledger) && (old(Budgeted()) ==> Budgeted())
      ensures ok <==> Restorable(config, feed, |old(freeBlocks)|)
      ensures ok ==>
                && requests.Keys == old(requests).Keys + {feed.request}
                && (forall q | q in old(requests) :: requests[q] == old(requests)[q] && history[q] == old(history)[q])
                && requests[feed.request].cached == feed.firstPosition && requests[feed.request].contextStart == 0
                && feed.request in history && CapturedAs(ledger, feed, history[feed.request])
                && |freeBlocks| == |old(freeBlocks)| - RingBlocks(config)
                && |requests[feed.request].blocks| == RingBlocks(config)
                && admissionMisses == old(admissionMisses)
      ensures !ok ==>
                && requests == old(requests) && freeBlocks == old(freeBlocks) && cells == old(cells)
                  && history == old(history)
                && admissionMisses == old(admissionMisses) +
                   if feed.checkpoint.Some? && |freeBlocks| < RingBlocks(config) then 1 else 0
    {
      hide Pooled, RingBlocks, AllTracked, CopyBlocks, Recorded;
      if !Restorable(config, feed, |freeBlocks|) {
        if feed.checkpoint.Some? && |freeBlocks| < RingBlocks(config) {
          admissionMisses := admissionMisses + 1;
        }
        return false;
      }
      var cp, ring := feed.checkpoint.value, RingBlocks(config);
      ghost var k :| k in ledger && Saved(k, cp);
      RecordedBlocks(config, k);
      RingOnlyWindowed(config);
      var m := |freeBlocks| - ring;
      var blocks := freeBlocks[m..];
      var st := RequestState(blocks, feed.firstPosition, 0);
      RestoreStep(config, freeBlocks, requests, cells, owner, history, feed.request, k, st);
      RestorePooled(config, freeBlocks, requests, owner, feed.request, ring, st);
      cells := CopyIn(cells, blocks, cp.data);
      requests := requests[feed.request := st];
      history := history[feed.request := k.window];
      owner := TakeLast(owner, feed.request, m);
      freeBlocks := freeBlocks[..m];
      return true;
    }

    /** Decides about one feed. A new request is restored with the captured request's history or joins with none;
        a windowed pool made for some number of requests refuses an eligible feed for lack of blocks only when it
        tracks that many. */
    method Admit(feed: Feed) returns (ok: bool, ghost how: Admission)
      requires Valid() && SoundCheckpoint(ledger, feed)
      modifies this
      ensures Valid() && ledger == old(ledger)
      ensures how == AdmissionOf(config, feed, feed.request in old(requests), |old(freeBlocks)|, |old(requests)|)
      ensures how.Kept? <==> feed.request in old(requests)
      ensures how.Restored? <==> feed.request !in old(requests) && RestoredBy(config, feed, |old(freeBlocks)|)
      ensures how.Joined? <==>
                feed.request !in old(requests) && JoinedBy(config, feed, |old(freeBlocks)|, |old(requests)|)
      ensures ok <==> !how.Refused?
      ensures admissionMisses == old(admissionMisses)
                + (if feed.request !in old(requests) && feed.draftEligible && feed.firstPosition != 0
                   && feed.checkpoint.Some? && |old(freeBlocks)| < RingBlocks(config) then 1 else 0)
                + (if how.Refused? && Eligible(config, feed) then 1 else 0)
      ensures requests.Keys == old(requests).Keys + if ok then {feed.request} else {}
      ensures forall q | q in old(requests) :: requests[q] == old(requests)[q] && history[q] == old(history)[q]
      ensures ok ==>
                && feed.request in history
                && Entered(config, ledger, feed, how, requests[feed.request], history[feed.request])
      ensures |freeBlocks| + RingFor(config, how) == |old(freeBlocks)|
      ensures !ok ==> freeBlocks == old(freeBlocks) && cells == old(cells) && history == old(history)
      ensures !ok && Eligible(config, feed) && config.slidingWindow > 0 ==> PoolFull(config, |old(requests)|)
      ensures old(Budgeted()) ==> Budgeted()
    {
      hide Pooled, RingBlocks, AllTracked, AllRecorded, Budgeted, PoolFull, CapturedAs, Restorable, Eligible, HasRoom,
           RestoredBy, JoinedBy;
      how := AdmissionOf(config, feed, feed.request in requests, |freeBlocks|, |requests|);
      AdmissionRule(config, feed, feed.request in requests, |freeBlocks|, |requests|);
      SameKeys(config, requests, cells, history);
      if feed.request in requests { return true, how; }
      if feed.draftEligible && feed.firstPosition != 0 {
        ghost var free := |freeBlocks|;
        ok := RestorePrefix(feed);
        if ok {
          RestoredAtCheckpoint(config, feed, free);
          return true, how;
        }
      }
      ok := Join(feed);
    }

    /** Lets an eligible request join afresh if there is room. */
    method Join(feed: Feed) returns (ok: bool)
      requires Valid() && feed.request !in requests
      modifies this
      ensures Valid() && ledger == old(ledger) && (old(Budgeted()) ==> Budgeted())
      ensures ok <==> Eligible(config, feed) && HasRoom(config, |old(freeBlocks)|, |old(requests)|)
      ensures ok ==>
                && JoinedAt(old(requests), old(history), requests, history, feed.request, feed.firstPosition,
                            RingBlocks(config))
                && |freeBlocks| + RingBlocks(config) == |old(freeBlocks)|
      ensures !ok ==> requests == old(requests) && freeBlocks == old(freeBlocks) && cells == old(cells)
                      && history == old(history)
      ensures admissionMisses == old(admissionMisses) + if !ok && Eligible(config, feed) then 1 else 0
      ensures !ok && Eligible(config, feed) && config.slidingWindow > 0 ==> PoolFull(config, |old(requests)|)
    {
      hide *;
      ValidFacts();
      EligibleIs(config, feed);
      RoomIs(config, |freeBlocks|, |requests|);
      RingOnlyWindowed(config);
      KeysMatch();
      if feed.firstPosition != 0 && feed.checkpoint.Some? && feed.checkpoint.value.state != Evicted { return false; }
      if !CanJoin(feed.draftEligible, feed.firstPosition, JoinWindow(config)) { return false; }
      if RingBlocks(config) != 0 {
        if |freeBlocks| < RingBlocks(config) {
          FewBlocksLeft(config, freeBlocks, requests, owner, cells, history);
          CountMiss();
          return false;
        }
        ClaimRing(feed.request, feed.firstPosition);
        return true;
      }
      if |requests| >= config.maxRequests || |freeBlocks| < SpillBlocks(config) {
        CountMiss();
        return false;
      }
      JoinsAtZero(config, feed);
      TrackEmpty(feed.request);
      return true;
    }

    method CountMiss()
      requires Valid()
      modifies this`admissionMisses
      ensures Valid() && admissionMisses == old(admissionMisses) + 1 && (old(Budgeted()) ==> Budgeted())
    {
      hide Pooled, AllTracked, AllRecorded, WithinBudget;
      admissionMisses := admissionMisses + 1;
    }

    /** A windowed request takes its whole ring when it joins. */
    method ClaimRing(r: nat, first: nat)
      requires Valid() && r !in requests && config.slidingWindow > 0 && RingBlocks(config) <= |freeBlocks|
      modifies this
      ensures Valid() && admissionMisses == old(admissionMisses) && ledger == old(ledger)
      ensures JoinedAt(old(requests), old(history), requests, history, r, first, RingBlocks(config))
      ensures |freeBlocks| + RingBlocks(config) == |old(freeBlocks)| && Budgeted()
    {
      hide Pooled, RingBlocks, AllTracked, Tracked, AllRecorded, JoinedAt;
      RingOnlyWindowed(config);
      SameKeys(config, requests, cells, history);
      ghost var before := requests;
      InsertPooled(config, freeBlocks, requests, owner, r, RequestState([], first, first));
      requests := requests[r := RequestState([], first, first)];
      var _, taken := EnsureBlocks(r, 0);
      assert [] + taken == taken;
      ghost var st := RequestState(taken, first, first);
      assert requests == before[r := st];
      IsJoined(before, history, r, st);
      RingShaped(config, st);
      JoinTracked(config, st, cells);
      UpdateTracked(config, before, cells, history, r, st, map[]);
      history := history[r := map[]];
    }

    /** A full-attention request starts with nothing. */
    method TrackEmpty(r: nat)
      requires Valid() && r !in requests && config.slidingWindow == 0 && |requests| < config.maxRequests
      modifies this`requests, this`history
      ensures Valid()
      ensures requests == old(requests)[r := RequestState([], 0, 0)] && history == old(history)[r := map[]]
      ensures JoinedAt(old(requests), old(history), requests, history, r, 0, 0)
      ensures old(Budgeted()) ==> Budgeted()
    {
      hide Pooled, AllTracked, Tracked, SpillBlocks, CeilDiv, AllRecorded, JoinedAt;
      KeysMatch();
      var st := RequestState([], 0, 0);
      IsJoined(requests, history, r, st);
      InsertPooled(config, freeBlocks, requests, owner, r, st);
      JoinTracked(config, st, cells);
      UpdateTracked(config, requests, cells, history, r, st, map[]);
      OneMore(requests, r, st);
      requests := requests[r := st];
      history := history[r := map[]];
    }

    /** Admits what it can; the rest decode without drafts. A row wants drafts when its own feed does. */
    method ServeFeeds(feeds: seq<Feed>) returns (rows: seq<Row>, wants: seq<bool>, ghost how: seq<Admission>)
      requires Valid() && SoundFeeds(ledger, feeds)
      modifies this
      ensures Valid() && ledger == old(ledger)
      ensures |wants| == |rows| && DistinctRequests(rows) && WantsOf(feeds, rows, wants, |feeds|)
      ensures forall i | 0 <= i < |rows| :: rows[i].request in requests
      ensures ServedFrom(feeds, rows, requests, |feeds|)
      ensures AdmittedBy(config, ledger, feeds, old(requests), old(history), Admitted(how, requests, history), |feeds|)
      ensures how == Admissions(config, feeds, old(requests).Keys, |old(freeBlocks)|, |feeds|)
      ensures old(Budgeted()) ==> Budgeted()
    {
      hide *;
      NoneServed(feeds, requests);
      KeysMatch();
      NoneAdmitted(config, ledger, feeds, requests, history);
      RuleBegins(config, feeds, requests, |freeBlocks|);
      rows, wants, how := [], [], [];
      for i := 0 to |feeds|
        invariant Valid() && ledger == old(ledger) && |wants| == |rows| && DistinctRequests(rows)
        invariant WantsOf(feeds, rows, wants, i) && RowsFrom(feeds, rows, i)
        invariant forall k | 0 <= k < |rows| :: rows[k].request in requests
        invariant ServedFrom(feeds, rows, requests, i)
        invariant AdmittedBy(config, ledger, feeds, old(requests), old(history), Admitted(how, requests, history), i)
        invariant ByRule(config, feeds, old(requests).Keys, |old(freeBlocks)|, how, |freeBlocks|, |requests|)
        invariant |how| == i && ValidConfig(config)
        invariant old(Budgeted()) ==> Budgeted()
      {
        ghost var before, beforeHistory, free := requests, history, |freeBlocks|;
        ghost var h;
        KeysMatch();
        SoundAt(ledger, feeds, i);
        var ok;
        ok, h := Admit(feeds[i]);
        KeysMatch();
        KeptIsTracked(config, feeds[i], feeds[i].request in before, free, |before|);
        TrackedBefore(config, ledger, feeds, old(requests), old(history), Admitted(how, before, beforeHistory), i);
        CountAdmitted(before, requests, feeds[i].request, h);
        RuleGoesOn(config, feeds, old(requests).Keys, |old(freeBlocks)|, how, free, |before|, |freeBlocks|,
                   |requests|, h);
        ServeMore(feeds, rows, before, requests, i, ok);
        AdmitMore(config, ledger, feeds, old(requests), old(history), Admitted(how, before, beforeHistory), i, h,
                  Admitted(how + [h], requests, history));
        how := how + [h];
        WantMore(feeds, rows, wants, i);
        if ok {
          rows := rows + [FeedRow(feeds[i])];
          wants := wants + [feeds[i].wantsDrafts];
        }
      }
      RuleApplied(config, feeds, old(requests).Keys, |old(freeBlocks)|, how, |freeBlocks|, |requests|);
    }

    lemma {:induction false} ValidFacts()
      requires Valid()
      ensures ValidConfig(config) && Pooled(config, freeBlocks, requests, owner)
      ensures AllTracked(config, requests, cells, history) && AllRecorded(config, ledger)
    {}

    lemma {:induction false} IsValid()
      requires ValidConfig(config) && Pooled(config, freeBlocks, requests, owner)
      requires AllTracked(config, requests, cells, history) && AllRecorded(config, ledger)
      ensures Valid()
    {}

    lemma {:induction false} PoolFacts()
      requires Valid()
      ensures ValidConfig(config) && Pooled(config, freeBlocks, requests, owner)
    {}

    lemma {:induction false} BudgetAtStart(rows: seq<Row>)
      requires Valid() && config.slidingWindow == 0 && Budgeted() && DistinctRequests(rows)
      requires forall i | 0 <= i < |rows| ::
                 rows[i].request in requests && requests[rows[i].request].cached == rows[i].firstPosition
      ensures |requests| <= config.maxRequests && WithinBudget(config, requests, CommittedAfter(requests, rows))
    {
      hide Pooled, AllTracked, CommittedAfter, WithinBudget, AllRecorded;
      BudgetBeforeStep(config, requests, rows);
    }

    lemma {:induction false} KeysMatch()
      requires Valid()
      ensures ValidConfig(config) && history.Keys == requests.Keys
    {}

    /** Feeds that asked and have their whole window get a query block; when none does, the first
        served feed lends its slot, because the graph needs one. */
    method ChooseBlocks(rows: seq<Row>, wants: seq<bool>) returns (blocks: seq<bool>, wanted: bool)
      requires |wants| == |rows| && rows != [] && forall i | 0 <= i < |rows| :: rows[i].request in requests
      ensures |blocks| == |rows|
      ensures wanted <==> exists i :: 0 <= i < |rows| && wants[i] && RowDrafts(config, requests, rows[i])
      ensures forall i | 0 <= i < |rows| ::
                blocks[i] <==> if wanted then wants[i] && RowDrafts(config, requests, rows[i]) else i == 0
    {
      blocks, wanted := [], false;
      for i := 0 to |rows|
        invariant |blocks| == i
        invariant wanted <==> exists j :: 0 <= j < i && wants[j] && RowDrafts(config, requests, rows[j])
        invariant forall j | 0 <= j < i :: blocks[j] <==> wants[j] && RowDrafts(config, requests, rows[j])
      {
        var b := wants[i] && RowDrafts(config, requests, rows[i]);
        blocks := blocks + [b];
        if b { wanted := true; }
      }
      if !wanted { blocks := blocks[0 := true]; }
    }

    method Contiguous(rows: seq<Row>) returns (ok: bool)
      requires forall i | 0 <= i < |rows| :: rows[i].request in requests
      ensures ok <==> forall i | 0 <= i < |rows| :: requests[rows[i].request].cached == rows[i].firstPosition
    {
      for i := 0 to |rows|
        invariant forall j | 0 <= j < i :: requests[rows[j].request].cached == rows[j].firstPosition
      {
        if requests[rows[i].request].cached != rows[i].firstPosition { return false; }
      }
      return true;
    }

    /** Grows a tracked request's block list. A windowed request already owns its ring. */
    method GrowRequest(r: nat, positions: nat) returns (ok: bool, ghost taken: seq<nat>)
      requires Valid() && r in requests
      modifies this`freeBlocks, this`requests, this`owner
      ensures Valid()
      ensures requests == old(requests)[r := old(requests[r]).(blocks := old(requests[r].blocks) + taken)]
      ensures config.slidingWindow > 0 ==> ok && taken == []
      ensures Extended(config, old(requests), requests, r, positions, ok)
      ensures config.slidingWindow == 0 && ok ==>
                |requests[r].blocks| == Max(|old(requests[r].blocks)|, CeilDiv(positions, config.pagedBlockSize))
      ensures !ok ==> freeBlocks == [] && |requests[r].blocks| < CeilDiv(positions, config.pagedBlockSize)
    {
      hide Pooled, RingBlocks, CeilDiv;
      RingOnlyWindowed(config);
      ghost var before := requests;
      assert Tracked(config, requests[r], cells, history[r]);
      ok, taken := EnsureBlocks(r, positions);
      assert config.slidingWindow > 0 ==> |taken| == 0;
      hide Shaped, HoldsWindow;
      GrowTracked(config, before[r], taken, cells, history[r]);
      UpdateTracked(config, before, cells, history, r, requests[r], history[r]);
      assert history[r := history[r]] == history;
    }

    /** Lays out the rows of all that take part and claims exactly the blocks they need. It runs out only when the
        pool is too small for all of them, and under full attention only when the committed context of the tracked
        requests does not fit the blocks the pool was sized against. */
    method BuildBatch(rows: seq<Row>, shares: seq<Share>, blockRows: nat, ghost committed: map<nat, nat>)
      returns (status: Status, l: Layout, columns: nat, ghost ctxIndex: seq<nat>)
      requires Valid() && Planned(config, rows, shares) && DistinctRequests(rows)
      requires forall i | 0 <= i < |rows| ::
                 rows[i].request in requests && requests[rows[i].request].cached == rows[i].firstPosition
      requires blockRows == Blocks(shares, |shares|) * config.blockSize
      requires committed == CommittedAfter(requests, rows)
      modifies this`freeBlocks, this`requests, this`owner
      ensures Valid() && GrownFrom(old(requests), requests)
      ensures status.Ready? ==>
                && Serves(config, rows, shares, requests)
                && Built(l, ctxIndex, shares, config.blockSize, blockRows, |shares|)
                && Wide(config, shares, columns, |shares|)
                && Claimed(config, rows, shares, old(requests), requests, |rows|)
      ensures status.EmptyFeed? ==> SomeEmpty(config, shares)
      ensures status.Exhausted? ==> TooLarge(config, old(requests), rows, shares)
      ensures status.Exhausted? ==> config.slidingWindow == 0 && (old(Budgeted()) ==> Overcommitted(config, committed))
      ensures status.Ready? && config.slidingWindow == 0 && old(Budgeted()) ==>
                |requests| <= config.maxRequests && WithinBudget(config, requests, committed)
    {
      hide *;
      PoolFacts();
      ghost var start, budget := requests, config.slidingWindow == 0 && Budgeted();
      if budget { BudgetAtStart(rows); }
      l, columns, ctxIndex := EMPTY, 0, [];
      var slot, ctxRow := 0, 0;
      NothingBuilt(config, rows, shares, blockRows, start);
      NothingClaimed(config, rows, shares, start);
      NoSlots(shares);
      PlannedSize(config, rows, shares);
      for i := 0 to |rows|
        invariant Valid() && GrownFrom(start, requests)
        invariant slot == Blocks(shares, i) && ctxRow == Contexts(shares, i)
        invariant Built(l, ctxIndex, shares, config.blockSize, blockRows, i) && Wide(config, shares, columns, i)
        invariant forall j | 0 <= j < i :: ServesOne(config, rows[j], shares[j], requests)
        invariant Claimed(config, rows, shares, start, requests, i)
        invariant budget ==> |requests| <= config.maxRequests && WithinBudget(config, requests, committed)
      {
        var queryLen := ShareRows(shares[i], config.blockSize);
        if queryLen == 0 {
          IsEmpty(config, shares, i);
          return EmptyFeed, l, columns, ctxIndex;
        }
        CommittedAfterRow(start, rows, i);
        ghost var before := requests;
        var ok := GrowForRow(rows, shares, i, start, committed, budget);
        if !ok {
          PoolFacts();
          TooMany(config, rows, shares, start, before, requests, owner, i);
          return Exhausted, l, columns, ctxIndex;
        }
        ClaimMore(config, rows, shares, start, before, requests, i);
        WiderColumns(config, shares, columns, i);
        columns := Max(columns, ColumnsFor(shares[i].first + queryLen, config.pagedBlockSize));
        AppendedBuilt(l, ctxIndex, shares, config.blockSize, blockRows, i);
        BuiltSized(l, ctxIndex, shares, config.blockSize, blockRows, i);
        ctxIndex := ctxIndex + Range(|l.qRowMap|, shares[i].count);
        l := AppendShare(l, shares[i], slot, ctxRow, config.blockSize, blockRows);
        NextSlot(shares, i);
        slot := slot + if shares[i].hasBlock then 1 else 0;
        ctxRow := ctxRow + shares[i].count;
      }
      AllServed(config, rows, shares, requests);
      return Ready, l, columns, ctxIndex;
    }

    /** Claims the blocks of row i, keeping what earlier rows claimed. */
    method GrowForRow(rows: seq<Row>, shares: seq<Share>, i: nat, ghost start: Requests, ghost committed: map<nat, nat>,
                      ghost budget: bool)
      returns (ok: bool)
      requires Valid() && Planned(config, rows, shares) && i < |rows| && GrownFrom(start, requests)
      requires rows[i].request in start && start[rows[i].request].cached == rows[i].firstPosition
      requires 0 < ShareRows(shares[i], config.blockSize)
      requires forall j | 0 <= j < i :: ServesOne(config, rows[j], shares[j], requests)
      requires budget ==>
                 config.slidingWindow == 0 && |requests| <= config.maxRequests
                   && WithinBudget(config, requests, committed)
      requires rows[i].request in committed && committed[rows[i].request] == rows[i].firstPosition + rows[i].auxCount
      modifies this`freeBlocks, this`requests, this`owner
      ensures Valid() && GrownFrom(start, requests)
      ensures ok ==> forall j | 0 <= j <= i :: ServesOne(config, rows[j], shares[j], requests)
      ensures ok && budget ==> |requests| <= config.maxRequests && WithinBudget(config, requests, committed)
      ensures !ok ==> config.slidingWindow == 0 && freeBlocks == [] && (budget ==> Overcommitted(config, committed))
      ensures Extended(config, old(requests), requests, rows[i].request,
              shares[i].first + ShareRows(shares[i], config.blockSize), ok)
    {
      hide Pooled, AllTracked, CeilDiv, SpillBlocks, ServesOne, Overcommitted, ShareOf, ShareRows, Extended;
      var r := rows[i].request;
      ghost var before := requests;
      ghost var taken;
      ok, taken := GrowRequest(r, shares[i].first + ShareRows(shares[i], config.blockSize));
      OneChanged(before, r, taken, start);
      RowWithinBudget(config, rows[i], shares[i], committed[r]);
      if !ok {
        if budget {
          BudgetGrown(config, before, requests, committed, r);
          OvercommittedWhenEmpty(config, requests, owner, committed, r);
        }
        return;
      }
      if budget { BudgetGrown(config, before, requests, committed, r); }
      forall j | 0 <= j < i ensures ServesOne(config, rows[j], shares[j], requests) {
        GrownServesOne(config, rows[j], shares[j], before, requests);
      }
      GrownCovers(config, rows[i], shares[i], requests);
    }

    method FillTable(rows: seq<Row>, shares: seq<Share>, columns: nat, ghost es: seq<Entry>)
      returns (table: seq<seq<int>>)
      requires Valid() && Serves(config, rows, shares, requests) && Wide(config, shares, columns, |shares|)
      requires |es| == |rows|
      requires forall i | 0 <= i < |rows| ::
                 rows[i].request in requests && es[i] == Entry(rows[i].request, requests[rows[i].request].blocks,
                   shares[i])
      ensures TableFor(table, es, config.pagedBlockSize, config.blockSize)
    {
      hide Pooled, RingBlocks, TableRow, Shaped, HoldsWindow, ShareRows, ColumnsFor;
      RingOnlyWindowed(config);
      AllShaped(config, requests, cells, history);
      table := [];
      for i := 0 to |rows|
        invariant |table| == i
        invariant forall j | 0 <= j < i :: TableRow(table[j], es[j], config.pagedBlockSize, config.blockSize)
      {
        assert ServesOne(config, rows[i], shares[i], requests);
        ServedMatches(config, rows[i], shares[i], requests);
        var row := FillTableRow(requests[rows[i].request].blocks, RingBlocks(config) != 0, columns);
        FilledRowAddresses(row, es[i], config.pagedBlockSize, config.blockSize, RingBlocks(config) != 0);
        table := table + [row];
      }
    }

    /** Runs the session over the batch and moves every served request's cursor. */
    method RunBatch(aux: seq<int>, rows: seq<Row>, shares: seq<Share>, blockRows: nat, l: Layout, columns: nat,
                    ghost ctxIndex: seq<nat>)
      requires Valid() && Serves(config, rows, shares, requests) && Planned(config, rows, shares) && InAux(aux, rows)
      requires Built(l, ctxIndex, shares, config.blockSize, blockRows, |shares|)
               && Wide(config, shares, columns, |shares|)
      modifies this`cells, this`requests, this`history
      ensures Valid()
      ensures requests == CommitRequests(old(requests), rows, |rows|)
      ensures IngestedAll(aux, rows, shares, old(history), history)
    {
      hide *;
      ValidFacts();
      ServesTracked(config, rows, shares, requests, history, cells);
      ghost var es := EntriesOf(rows, shares, requests, |rows|);
      SharesOfEntries(rows, shares, es);
      var table := FillTable(rows, shares, columns, es);
      var packed := GatherAux(config, aux, rows, shares);
      var cells', ws := RunSession(cells, l, table, packed, blockRows, config.pagedBlockSize, es, ctxIndex,
        config.blockSize);
      ghost var kvs := Sources(l, packed, blockRows, |l.qkvRowMap|);
      BuiltRows(l, ctxIndex, shares, config.blockSize, blockRows);
      HistoryCommitted(history, rows, shares, kvs, config.blockSize);
      ghost var history' := CommitHistory(history, rows, shares, kvs, config.blockSize);
      CommitTracked(config, freeBlocks, owner, requests, cells, history, history', rows, shares, es, ws, kvs);
      StepIngests(config, aux, rows, shares, packed, l, ctxIndex, blockRows, history, history');
      CommitPooled(config, freeBlocks, requests, owner, rows, |rows|);
      cells := cells';
      history := history';
      CommitRows(rows);
      IsValid();
    }

    method CommitRows(rows: seq<Row>)
      requires forall i | 0 <= i < |rows| :: rows[i].request in requests
      modifies this`requests
      ensures requests == CommitRequests(old(requests), rows, |rows|)
    {
      for i := 0 to |rows|
        invariant requests == CommitRequests(old(requests), rows, i)
      {
        CommitKeys(old(requests), rows, i);
        var row := rows[i];
        requests := requests[row.request := requests[row.request].(cached := row.firstPosition + row.auxCount)];
      }
    }

    /** One step. Who is admitted and what the step comes to follow from the rules. If it runs, each request that
        takes part has its new rows at their positions and everything else as before, and those that draft read a
        complete window. Whatever happens, blocks stay partitioned and windows stay in their cells; and the pool
        runs out only when the committed context does not fit the blocks it was sized against. */
    method Propose(aux: seq<int>, feeds: seq<Feed>, bucket: nat)
      returns (r: Outcome, ghost ctxIndex: seq<nat>, ghost a: Admitted)
      requires Valid() && SoundFeeds(ledger, feeds)
      requires forall i | 0 <= i < |feeds| :: feeds[i].auxBegin + feeds[i].auxCount <= |aux|
      modifies this
      ensures Valid() && ledger == old(ledger)
      ensures AdmittedBy(config, ledger, feeds, old(requests), old(history), a, |feeds|)
      ensures a.how == Admissions(config, feeds, old(requests).Keys, |old(freeBlocks)|, |feeds|)
      ensures Concluded(config, feeds, a.requests, r)
      ensures r.PoolExhausted? ==> config.slidingWindow == 0
      ensures r.PoolExhausted? && old(Budgeted()) ==> Overcommitted(config, CommittedAfter(requests, r.rows))
      ensures (r.Ran? || r.Idle? || r.NotContiguous?) && old(Budgeted()) ==> Budgeted()
      ensures !r.Ran? ==> history == a.history && GrownFrom(a.requests, requests)
      ensures r.Idle? || r.NotContiguous? ==> requests == a.requests
      ensures r.Ran? ==> LaidOut(config, r.rows, r.shares, r.layout, ctxIndex)
      ensures r.Ran? ==> Fed(config, aux, r.rows, r.shares, a.requests, a.history, requests, history)
      ensures r.Ran? ==> Claimed(config, r.rows, r.shares, a.requests, requests, |r.rows|)
      ensures r.Ran? && r.drafted ==> DraftersComplete(config, r.rows, r.shares, requests, cells, history)
    {
      hide Pooled, AllTracked, AllRecorded, ServedFrom, LaidOut, Fed, DraftersComplete, Overcommitted,
           CommittedAfter, InAux, WantsOf, Concluded, Budgeted, DistinctRequests, SoundCheckpoint, DistinctFeeds,
           AdmittedBy, GrownFrom, Claimed, Admissions;
      ctxIndex := [];
      ghost var how;
      var rows, wants;
      rows, wants, how := ServeFeeds(feeds);
      a := Admitted(how, requests, history);
      if rows == [] {
        NobodyServed(config, feeds, rows, requests);
        NothingGrown(requests);
        return Idle, ctxIndex, a;
      }
      FeedsInAux(aux, feeds, rows, requests);
      r, ctxIndex := RunStep(aux, feeds, rows, wants, bucket);
    }

    /** The step over the feeds that are served. */
    method RunStep(aux: seq<int>, ghost feeds: seq<Feed>, rows: seq<Row>, wants: seq<bool>, bucket: nat)
      returns (r: Outcome, ghost ctxIndex: seq<nat>)
      requires Valid() && rows != [] && |wants| == |rows| && DistinctRequests(rows) && InAux(aux, rows)
      requires forall i | 0 <= i < |rows| :: rows[i].request in requests
      requires ServedFrom(feeds, rows, requests, |feeds|) && WantsOf(feeds, rows, wants, |feeds|)
               && DistinctFeeds(feeds)
      modifies this`freeBlocks, this`requests, this`owner, this`cells, this`history
      ensures Valid() && !r.Idle?
      ensures Concluded(config, feeds, old(requests), r)
      ensures r.PoolExhausted? ==> config.slidingWindow == 0
      ensures r.PoolExhausted? && old(Budgeted()) ==> Overcommitted(config, CommittedAfter(requests, r.rows))
      ensures (r.Ran? || r.NotContiguous?) && old(Budgeted()) ==> Budgeted()
      ensures !r.Ran? ==> history == old(history) && GrownFrom(old(requests), requests)
      ensures r.NotContiguous? ==> requests == old(requests)
      ensures r.Ran? ==> LaidOut(config, r.rows, r.shares, r.layout, ctxIndex)
      ensures r.Ran? ==> Fed(config, aux, r.rows, r.shares, old(requests), old(history), requests, history)
      ensures r.Ran? ==> Claimed(config, r.rows, r.shares, old(requests), requests, |r.rows|)
      ensures r.Ran? && r.drafted ==> DraftersComplete(config, r.rows, r.shares, requests, cells, history)
    {
      hide Pooled, AllTracked, AllRecorded, ServedFrom, Planned, Built, DraftersComplete, WithinBudget, Serves,
           IngestedAll, CommitRequests, CommittedAfter, Overcommitted, Wide, InAux, GrownFrom, HasContext, WantsOf,
           DistinctRequests, Moved, PlannedFor, SomeEmpty, TooLarge, Claimed, DistinctFeeds, Concluded;
      ctxIndex := [];
      SameKeys(config, requests, cells, history);
      var blocks, wanted := ChooseBlocks(rows, wants);
      var contiguous := Contiguous(rows);
      if !contiguous {
        NothingGrown(requests);
        OutOfPlace(config, feeds, rows, requests);
        return NotContiguous, ctxIndex;
      }
      var shares := PlanShares(config, rows, blocks);
      var blockRows := Blocks(shares, |shares|) * config.blockSize;
      ghost var admitted := requests;
      PlanChosen(config, feeds, rows, wants, shares, blocks, admitted, wanted);
      var status, l, columns;
      status, l, columns, ctxIndex := BuildBatch(rows, shares, blockRows, CommittedAfter(requests, rows));
      CommittedAfterGrown(admitted, requests, rows);
      if status == EmptyFeed {
        r := NoRows(rows, shares, wanted);
        PlanConcludes(config, feeds, admitted, r);
        return;
      }
      if status == Exhausted {
        r := PoolExhausted(rows, shares, wanted);
        PlanConcludes(config, feeds, admitted, r);
        return;
      }
      ghost var grown := requests;
      NoneEmpty(config, rows, shares, grown);
      ClaimsFit(config, rows, shares, admitted, grown, freeBlocks, owner);
      WidenTable(config, shares, columns, Max(columns, bucket));
      RunBatch(aux, rows, shares, blockRows, l, Max(columns, bucket), ctxIndex);
      StepMoves(config, rows, shares, admitted, grown);
      ClaimedCommitted(config, rows, shares, admitted, grown);
      if config.slidingWindow == 0 && |grown| <= config.maxRequests
          && WithinBudget(config, grown, CommittedAfter(grown, rows)) {
        BudgetCommitted(config, grown, rows);
      }
      if wanted { AllDraftersComplete(config, freeBlocks, owner, admitted, grown, cells, history, rows, shares); }
      r := Ran(rows, shares, wanted, l);
      PlanConcludes(config, feeds, admitted, r);
    }
  }

  /** The packed layout of a step is a correct gather of the rows it ingests. */
  ghost predicate LaidOut(c: Config, rows: seq<Row>, shares: seq<Share>, l: Layout, ctxIndex: seq<nat>) {
    && Planned(c, rows, shares)
    && Built(l, ctxIndex, shares, c.blockSize, Blocks(shares, |shares|) * c.blockSize, |shares|)
  }

  /** What a step that ran did to histories and cursors: every served request's ingested positions have their own
      auxiliary rows, its other positions and all other requests keep theirs, and served cursors moved. */
  ghost predicate Fed(c: Config, aux: seq<int>, rows: seq<Row>, shares: seq<Share>, requests: Requests,
                      history: map<nat, History>, requests': Requests, history': map<nat, History>) {
    && Planned(c, rows, shares) && DistinctRequests(rows)
    && IngestedAll(aux, rows, shares, history, history')
    && Moved(rows, requests, requests')
  }

  /** Served cursors pass their new positions, which began where the cursor was; nothing else moves. */
  ghost predicate Moved(rows: seq<Row>, requests: Requests, requests': Requests) {
    && requests'.Keys == requests.Keys
    && (forall q | q in requests :: requests'[q].contextStart == requests[q].contextStart)
    && (forall q | q in requests && (forall i | 0 <= i < |rows| :: rows[i].request != q) ::
          requests'[q].cached == requests[q].cached)
    && forall i | 0 <= i < |rows| :: MovedOne(rows[i], requests, requests')
  }

  ghost predicate MovedOne(row: Row, requests: Requests, requests': Requests) {
    && row.request in requests && row.request in requests'
    && requests[row.request].cached == row.firstPosition
    && requests'[row.request].cached == row.firstPosition + row.auxCount
  }

  lemma {:induction false} NothingGrown(requests: Requests)
    ensures GrownFrom(requests, requests)
  {}

  lemma {:induction false} StepMoves(c: Config, rows: seq<Row>, shares: seq<Share>, admitted: Requests, grown: Requests)
    requires ValidConfig(c) && Serves(c, rows, shares, grown) && GrownFrom(admitted, grown)
    ensures Moved(rows, admitted, CommitRequests(grown, rows, |rows|))
  {
    hide CommitRequests;
    var requests := CommitRequests(grown, rows, |rows|);
    CommitKeys(grown, rows, |rows|);
    forall q | q in admitted ensures requests[q].contextStart == admitted[q].contextStart {
      CommitKeepsBlocks(grown, rows, |rows|, q);
    }
    forall q | q in admitted && (forall i | 0 <= i < |rows| :: rows[i].request != q)
      ensures requests[q].cached == admitted[q].cached
    {
      CommitElsewhere(grown, rows, |rows|, q);
    }
    forall i | 0 <= i < |rows| ensures MovedOne(rows[i], admitted, requests) {
      assert ServesOne(c, rows[i], shares[i], grown);
      CommitAt(grown, rows, |rows|, i);
    }
  }

  ghost predicate DraftersComplete(c: Config, rows: seq<Row>, shares: seq<Share>, requests: Requests, cells: Cells,
                                   history: map<nat, History>)
    requires ValidConfig(c)
  {
    && |rows| == |shares|
    && forall i | 0 <= i < |rows| && shares[i].hasBlock ::
         && rows[i].request in requests && rows[i].request in history
         && CompleteWindow(c, requests[rows[i].request], cells, history[rows[i].request])
  }

  lemma {:induction false} WidenTable(c: Config, shares: seq<Share>, columns: nat, columns': nat)
    requires ValidConfig(c) && Wide(c, shares, columns, |shares|) && columns <= columns'
    ensures Wide(c, shares, columns', |shares|)
  {
    hide ColumnsFor, ShareRows;
  }

  lemma {:induction false} AllDraftersComplete(c: Config, free: seq<nat>, owner: map<nat, Owner>, admitted: Requests,
                                               requests: Requests, cells: Cells,
                                               history: map<nat, History>, rows: seq<Row>, shares: seq<Share>)
    requires ValidConfig(c) && Serves(c, rows, shares, requests) && GrownFrom(admitted, requests)
    requires forall i | 0 <= i < |rows| && shares[i].hasBlock ::
               rows[i].request in admitted && HasContext(c, admitted[rows[i].request],
                 rows[i].firstPosition + rows[i].auxCount)
    requires Pooled(c, free, CommitRequests(requests, rows, |rows|), owner)
    requires AllTracked(c, CommitRequests(requests, rows, |rows|), cells, history)
    ensures DraftersComplete(c, rows, shares, CommitRequests(requests, rows, |rows|), cells, history)
  {
    hide Pooled, AllTracked, CommitRequests, CompleteWindow, ServesOne;
    forall i | 0 <= i < |rows| && shares[i].hasBlock
      ensures rows[i].request in CommitRequests(requests, rows, |rows|) && rows[i].request in history
      ensures CompleteWindow(c, CommitRequests(requests, rows, |rows|)[rows[i].request], cells,
              history[rows[i].request])
    {
      DraftedWindow(c, free, owner, requests, cells, history, rows, shares, i);
    }
  }

  lemma {:induction false} ServesTracked(c: Config, rows: seq<Row>, shares: seq<Share>, requests: Requests,
                                         history: map<nat, History>, cells: Cells)
    requires ValidConfig(c) && Serves(c, rows, shares, requests) && AllTracked(c, requests, cells, history)
    ensures |rows| == |shares| && DistinctRequests(rows)
    ensures forall i | 0 <= i < |rows| :: rows[i].request in requests && rows[i].request in history
  {
    forall i | 0 <= i < |rows| ensures rows[i].request in requests && rows[i].request in history {
      assert ServesOne(c, rows[i], shares[i], requests);
    }
  }

  lemma {:induction false} BuiltRows(l: Layout, ctxIndex: seq<nat>, shares: seq<Share>, blockSize: nat, blockRows: nat)
    requires Built(l, ctxIndex, shares, blockSize, blockRows, |shares|)
    ensures forall i | 0 <= i < |shares| :: Rows(shares, blockSize, i) + shares[i].count <= |l.qkvRowMap|
  {
    forall i | 0 <= i < |shares| ensures Rows(shares, blockSize, i) + shares[i].count <= |l.qkvRowMap| {
      assert Placed(l, shares, blockSize, blockRows, i);
    }
  }

  datatype Status = Ready | EmptyFeed | Exhausted

  /** The block table is wide enough for the last position of each of the first n shares. */
  ghost predicate Wide(c: Config, shares: seq<Share>, columns: nat, n: nat)
    requires ValidConfig(c) && n <= |shares|
  {
    forall i | 0 <= i < n ::
      && 0 < shares[i].first + ShareRows(shares[i], c.blockSize)
      && ColumnsFor(shares[i].first + ShareRows(shares[i], c.blockSize), c.pagedBlockSize) <= columns
  }

  lemma {:induction false} WiderColumns(c: Config, shares: seq<Share>, columns: nat, n: nat)
    requires ValidConfig(c) && n < |shares| && Wide(c, shares, columns, n) && 0 < ShareRows(shares[n], c.blockSize)
    ensures Wide(c, shares, Max(columns, ColumnsFor(shares[n].first + ShareRows(shares[n], c.blockSize),
            c.pagedBlockSize)), n + 1)
  {
    hide ColumnsFor, ShareRows;
  }

  lemma {:induction false} NothingBuilt(c: Config, rows: seq<Row>, shares: seq<Share>, blockRows: nat,
                                        requests: Requests)
    requires ValidConfig(c)
    ensures Built(EMPTY, [], shares, c.blockSize, blockRows, 0) && Wide(c, shares, 0, 0)
            && GrownFrom(requests, requests)
  {}

  lemma {:induction false} NoSlots(shares: seq<Share>)
    ensures Blocks(shares, 0) == 0 && Contexts(shares, 0) == 0
  {}

  lemma {:induction false} NextSlot(shares: seq<Share>, n: nat)
    requires n < |shares|
    ensures Blocks(shares, n + 1) == Blocks(shares, n) + if shares[n].hasBlock then 1 else 0
    ensures Contexts(shares, n + 1) == Contexts(shares, n) + shares[n].count
  {}

  lemma {:induction false} PlannedSize(c: Config, rows: seq<Row>, shares: seq<Share>)
    requires Planned(c, rows, shares)
    ensures |shares| == |rows|
  {}

  lemma {:induction false} BuiltSized(l: Layout, ctxIndex: seq<nat>, shares: seq<Share>, blockSize: nat, blockRows: nat,
                                      n: nat)
    requires n <= |shares| && Built(l, ctxIndex, shares, blockSize, blockRows, n)
    ensures |l.qRowMap| == |l.qkvRowMap|
  {
    hide Placed, Inverse, QueryPlaced, Longest;
  }

  lemma {:induction false} AllServed(c: Config, rows: seq<Row>, shares: seq<Share>, requests: Requests)
    requires ValidConfig(c) && |rows| == |shares| && DistinctRequests(rows)
    requires forall j | 0 <= j < |rows| :: ServesOne(c, rows[j], shares[j], requests)
    ensures Serves(c, rows, shares, requests)
  {
    hide ServesOne;
  }

  /** One request's longer list keeps everything else. */
  lemma {:induction false} OneChanged(requests: Requests, r: nat, taken: seq<nat>, start: Requests)
    requires r in requests && GrownFrom(start, requests)
    ensures var requests' := requests[r := requests[r].(blocks := requests[r].blocks + taken)];
            GrownFrom(requests, requests') && GrownFrom(start, requests')
  {}

  lemma {:induction false} BudgetGrown(c: Config, requests: Requests, requests': Requests, committed: map<nat, nat>,
                                       r: nat)
    requires ValidConfig(c) && WithinBudget(c, requests, committed) && r in requests && r in requests'
    requires requests' == requests[r := requests'[r]]
    requires |requests'[r].blocks| <= Max(|requests[r].blocks|,
             CeilDiv(committed[r], c.pagedBlockSize) + SpillBlocks(c))
    ensures WithinBudget(c, requests', committed) && |requests'| == |requests|
  {
    hide CeilDiv, SpillBlocks;
    assert requests'.Keys == requests.Keys;
    SameSize(requests, requests');
  }

  lemma {:induction false} RingShaped(c: Config, st: RequestState)
    requires ValidConfig(c) && c.slidingWindow > 0 && |st.blocks| == RingBlocks(c) && st.contextStart <= st.cached
    ensures Shaped(c, st)
  {}

  lemma {:induction false} OneMore(requests: Requests, r: nat, st: RequestState)
    requires r !in requests
    ensures |requests[r := st]| == |requests| + 1
  {
    assert requests[r := st].Keys == requests.Keys + {r};
    SameSize(requests, requests);
    assert |requests[r := st].Keys| == |requests.Keys| + 1;
  }

  ghost function InitialOwners(n: nat, k: nat): (owners: map<nat, Owner>)
    requires k <= n
    ensures forall b :: b in owners <==> 0 <= b < k
    ensures forall b | b in owners :: owners[b] == Free(n - 1 - b)
  {
    if k == 0 then map[] else InitialOwners(n, k - 1)[k - 1 := Free(n - k)]
  }

  /** Block ids in the order that hands out the lowest first. */
  method DescendingBlocks(n: nat) returns (free: seq<nat>)
    ensures |free| == n && forall j | 0 <= j < n :: free[j] == n - 1 - j
  {
    free := [];
    for i := 0 to n
      invariant |free| == i && forall j | 0 <= j < i :: free[j] == n - 1 - j
    {
      free := free + [n - 1 - i];
    }
  }

  lemma {:induction false} NothingTracked(c: Config)
    requires ValidConfig(c)
    ensures AllTracked(c, map[], map[], map[])
  {}

  lemma {:induction false} SameKeys(c: Config, requests: Requests, cells: Cells, history: map<nat, History>)
    requires ValidConfig(c) && AllTracked(c, requests, cells, history)
    ensures history.Keys == requests.Keys
  {}

  lemma {:induction false} SmallerWithout(requests: Requests, r: nat)
    requires r in requests
    ensures |requests - {r}| < |requests|
  {
    assert (requests - {r}).Keys == requests.Keys - {r};
    SameSize(requests, requests);
    assert |(requests - {r}).Keys| < |requests.Keys|;
  }

  lemma {:induction false} EmptyPool(c: Config, free: seq<nat>, owner: map<nat, Owner>)
    requires Pooled(c, free, map[], owner)
    ensures |free| == c.numBlocks
  {
    SumEmpty<nat>();
    assert BlockCounts(map[]) == map[];
  }

  /** Reads a block list out of the cache. */
  method CopyOut(cells: Cells, blocks: seq<nat>, paged: nat) returns (data: seq<seq<Kv>>)
    ensures |data| == |blocks| && FullBlocks(data, paged)
    ensures forall i, o | 0 <= i < |blocks| && 0 <= o < paged :: data[i][o] == At(cells, Cell(blocks[i], o))
  {
    data := [];
    for i := 0 to |blocks|
      invariant |data| == i && FullBlocks(data, paged)
      invariant forall j, o | 0 <= j < i && 0 <= o < paged :: data[j][o] == At(cells, Cell(blocks[j], o))
    {
      var rows: seq<Kv> := [];
      for k := 0 to paged
        invariant |rows| == k && forall o | 0 <= o < k :: rows[o] == At(cells, Cell(blocks[i], o))
      {
        rows := rows + [At(cells, Cell(blocks[i], k))];
      }
      data := data + [rows];
    }
  }

  /** A copy of a ring holds the rows of the whole window. */
  lemma {:induction false} RingSaved(c: Config, requests: Requests, cells: Cells, history: map<nat, History>, r: nat,
                                     data: seq<seq<Kv>>)
    requires ValidConfig(c) && AllTracked(c, requests, cells, history) && r in requests && RingBlocks(c) != 0
    requires HasContext(c, requests[r], requests[r].cached) && FullBlocks(data, c.pagedBlockSize)
    requires |data| == |requests[r].blocks| == RingBlocks(c)
    requires forall i, o | 0 <= i < |data| && 0 <= o < c.pagedBlockSize ::
               data[i][o] == At(cells, Cell(requests[r].blocks[i], o))
    ensures r in history && data != []
    ensures forall p | 0 <= p < requests[r].cached <= p + ContextWindow(c) ::
              p in history[r] && SavedRow(data, c.pagedBlockSize, p) == history[r][p]
  {
    hide RingBlocks;
    var st := requests[r];
    assert Tracked(c, st, cells, history[r]);
    forall p | 0 <= p < st.cached <= p + ContextWindow(c)
      ensures p in history[r] && SavedRow(data, c.pagedBlockSize, p) == history[r][p]
    {
      assert HoldsAt(c.pagedBlockSize, st.blocks, cells, history[r], p);
    }
  }

  /** Writes saved blocks into the cache. */
  method CopyIn(cells: Cells, blocks: seq<nat>, data: seq<seq<Kv>>) returns (cells': Cells)
    requires |blocks| == |data|
    ensures cells' == CopyBlocks(cells, blocks, data, |data|)
  {
    cells' := cells;
    for i := 0 to |data|
      invariant cells' == CopyBlocks(cells, blocks, data, i)
    {
      ghost var before := cells';
      for k := 0 to |data[i]|
        invariant cells' == CopyBlock(before, blocks[i], data[i][..k])
      {
        cells' := cells'[Cell(blocks[i], k) := data[i][k]];
        assert data[i][..k + 1][..k] == data[i][..k];
      }
      assert data[i][..|data[i]|] == data[i];
    }
  }

  /** Restoring into free blocks keeps every request's window and completes the new one's. */
  lemma {:induction false} RestoreStep(c: Config, free: seq<nat>, requests: Requests, cells: Cells, owner: map<nat,
                                       Owner>,
                                       history: map<nat, History>, r: nat, k: Capture, st: RequestState)
    requires ValidConfig(c) && Pooled(c, free, requests, owner) && AllTracked(c, requests, cells, history)
             && Recorded(c, k)
    requires r !in requests && |k.data| == RingBlocks(c) != 0 && |k.data| <= |free|
    requires st == RequestState(free[|free| - |k.data|..], k.tokenCount, 0)
    ensures AllTracked(c, requests[r := st], CopyBlocks(cells, st.blocks, k.data, |k.data|), history[r := k.window])
  {
    hide RingBlocks, CopyBlocks, Tracked;
    PartitionMeaning(c.numBlocks, free, requests, owner);
    var m := |free| - |k.data|;
    assert Distinct(st.blocks) by {
      forall i, j | 0 <= i < j < |st.blocks| ensures st.blocks[i] != st.blocks[j] {
        assert st.blocks[i] == free[m + i] && st.blocks[j] == free[m + j];
      }
    }
    assert c.slidingWindow > 0 by { RingOnlyWindowed(c); }
    RestoredTracked(c, cells, st.blocks, k.data, k.tokenCount, k.window);
    forall q | q in requests ensures Tracked(c, requests[q], CopyBlocks(cells, st.blocks, k.data, |k.data|), history[q])
    {
      RestoreKeepsTracked(c, requests[q], cells, history[q], st.blocks, k.data);
    }
  }
}
