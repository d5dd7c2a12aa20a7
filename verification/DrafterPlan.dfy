/** What a step does once its feeds are admitted: who takes part, who drafts, and what the step comes to. */
module DrafterPlan {
  import opened DrafterLayout
  import opened DrafterState
  import opened DrafterCache
  import opened DrafterStep
  import opened DrafterCommit
  import opened DrafterClaims
  import opened DrafterAdmission

  function FeedRow(feed: Feed): Row {
    Row(feed.request, feed.auxBegin, feed.auxCount, feed.firstPosition)
  }

  /** Of the first n feeds, exactly those whose request is tracked are served. */
  ghost predicate ServedFrom(feeds: seq<Feed>, rows: seq<Row>, requests: Requests, n: nat)
    requires n <= |feeds|
  {
    && (forall j | 0 <= j < n :: feeds[j].request in requests <==> FeedRow(feeds[j]) in rows)
    && (forall row | row in rows :: exists j :: 0 <= j < n && row == FeedRow(feeds[j]))
  }

  lemma {:induction false} NoneServed(feeds: seq<Feed>, requests: Requests)
    ensures ServedFrom(feeds, [], requests, 0) && WantsOf(feeds, [], [], 0) && RowsFrom(feeds, [], 0)
    ensures DistinctRequests([])
  {}

  lemma {:induction false} ServeMore(feeds: seq<Feed>, rows: seq<Row>, requests: Requests, requests': Requests, n: nat,
                                     ok: bool)
    requires DistinctFeeds(feeds) && n < |feeds| && ServedFrom(feeds, rows, requests, n)
    requires requests'.Keys == requests.Keys + if ok then {feeds[n].request} else {}
    requires !ok ==> feeds[n].request !in requests
    ensures ServedFrom(feeds, if ok then rows + [FeedRow(feeds[n])] else rows, requests', n + 1)
  {
    var rows' := if ok then rows + [FeedRow(feeds[n])] else rows;
    forall j | 0 <= j < n + 1 ensures feeds[j].request in requests' <==> FeedRow(feeds[j]) in rows' {
      if j < n {
        assert feeds[j].request != feeds[n].request;
      } else if !ok {
        forall row | row in rows ensures row != FeedRow(feeds[n]) {
          var k :| 0 <= k < n && row == FeedRow(feeds[k]);
        }
      }
    }
    forall row | row in rows' ensures exists j :: 0 <= j < n + 1 && row == FeedRow(feeds[j]) {
      if row in rows {
        var j :| 0 <= j < n && row == FeedRow(feeds[j]);
      } else {
        assert row == FeedRow(feeds[n]);
      }
    }
  }

  lemma {:induction false} FeedsInAux(aux: seq<int>, feeds: seq<Feed>, rows: seq<Row>, requests: Requests)
    requires forall i | 0 <= i < |feeds| :: feeds[i].auxBegin + feeds[i].auxCount <= |aux|
    requires ServedFrom(feeds, rows, requests, |feeds|)
    ensures InAux(aux, rows)
  {
    forall i | 0 <= i < |rows| ensures rows[i].auxBegin + rows[i].auxCount <= |aux| {
      assert rows[i] in rows;
    }
  }

  /** Every row comes from one of the first n feeds. */
  ghost predicate RowsFrom(feeds: seq<Feed>, rows: seq<Row>, n: nat)
    requires n <= |feeds|
  {
    forall k | 0 <= k < |rows| :: FromFeed(feeds, rows[k], n)
  }

  ghost predicate FromFeed(feeds: seq<Feed>, row: Row, n: nat)
    requires n <= |feeds|
  {
    exists j :: 0 <= j < n && row.request == feeds[j].request
  }

  /** Every row of the first n feeds wants drafts exactly when its feed does. */
  ghost predicate WantsOf(feeds: seq<Feed>, rows: seq<Row>, wants: seq<bool>, n: nat)
    requires |wants| == |rows| && n <= |feeds|
  {
    forall i, j | 0 <= i < |rows| && 0 <= j < n && rows[i].request == feeds[j].request ::
          wants[i] == feeds[j].wantsDrafts
  }

  lemma {:induction false} WantMore(feeds: seq<Feed>, rows: seq<Row>, wants: seq<bool>, n: nat)
    requires DistinctFeeds(feeds) && n < |feeds| && |wants| == |rows| && WantsOf(feeds, rows, wants, n)
    requires RowsFrom(feeds, rows, n) && DistinctRequests(rows)
    ensures WantsOf(feeds, rows, wants, n + 1) && RowsFrom(feeds, rows, n + 1)
    ensures FeedRow(feeds[n]).request == feeds[n].request
    ensures var more := rows + [FeedRow(feeds[n])];
            && WantsOf(feeds, more, wants + [feeds[n].wantsDrafts], n + 1)
            && RowsFrom(feeds, more, n + 1) && DistinctRequests(more)
  {
    var more := rows + [FeedRow(feeds[n])];
    forall k | 0 <= k < |rows| ensures FromFeed(feeds, rows[k], n + 1) && rows[k].request != feeds[n].request {
      assert FromFeed(feeds, rows[k], n);
    }
    forall k | 0 <= k < |more| ensures FromFeed(feeds, more[k], n + 1) {}
  }

  datatype Outcome =
    | Idle
    | NotContiguous
    | NoRows(rows: seq<Row>, shares: seq<Share>, drafted: bool)
    | PoolExhausted(rows: seq<Row>, shares: seq<Share>, drafted: bool)
    | Ran(rows: seq<Row>, shares: seq<Share>, drafted: bool, layout: Layout)

  /** The feed's request takes part, but the feed does not begin at its cursor. */
  ghost predicate Misplaced(feed: Feed, requests: Requests) {
    feed.request in requests && requests[feed.request].cached != feed.firstPosition
  }

  /** A share that contributes no row at all. */
  ghost predicate SomeEmpty(c: Config, shares: seq<Share>) {
    exists i :: 0 <= i < |shares| && ShareRows(shares[i], c.blockSize) == 0
  }

  /** The feed's request takes part, it asked for drafts, and its window is complete once the step is done. */
  ghost predicate Drafting(c: Config, requests: Requests, feed: Feed) {
    && feed.request in requests && feed.wantsDrafts
    && HasContext(c, requests[feed.request], feed.firstPosition + feed.auxCount)
  }

  /** Which feeds draft, in terms of positions: those that asked and whose context holds all that the block reads. */
  lemma {:induction false} DraftingIff(c: Config, requests: Requests, feed: Feed)
    requires ValidConfig(c)
    requires feed.request in requests ==>
               Shaped(c, requests[feed.request]) && requests[feed.request].cached == feed.firstPosition
    ensures Drafting(c, requests, feed) <==>
            && feed.wantsDrafts && feed.request in requests
            && WholeWindow(c, requests[feed.request], feed.firstPosition + feed.auxCount)
  {
    hide HasContext, RingBlocks, WholeWindow;
    if feed.request in requests {
      HasContextIff(c, requests[feed.request], feed.firstPosition + feed.auxCount);
    }
  }

  /** The step drafts exactly when some feed is drafting, and then exactly the rows of those feeds get query blocks;
      otherwise the first row lends its slot. */
  ghost predicate DraftsFor(c: Config, feeds: seq<Feed>, rows: seq<Row>, shares: seq<Share>, requests: Requests,
                            drafted: bool) {
    && |rows| == |shares|
    && (drafted <==> exists j :: 0 <= j < |feeds| && Drafting(c, requests, feeds[j]))
    && forall i, j | 0 <= i < |rows| && 0 <= j < |feeds| && rows[i].request == feeds[j].request ::
         shares[i].hasBlock <==> if drafted then Drafting(c, requests, feeds[j]) else i == 0
  }

  /** The step's plan: one row for every feed that takes part, in place, with blocks for those that draft. */
  ghost predicate PlannedFor(c: Config, feeds: seq<Feed>, rows: seq<Row>, shares: seq<Share>, requests: Requests,
                             drafted: bool) {
    && rows != [] && DistinctRequests(rows) && ServedFrom(feeds, rows, requests, |feeds|)
    && (forall i | 0 <= i < |rows| ::
          rows[i].request in requests && requests[rows[i].request].cached == rows[i].firstPosition)
    && Planned(c, rows, shares) && DraftsFor(c, feeds, rows, shares, requests, drafted)
  }

  /** Every plan has a query block, as the graph needs. */
  lemma {:induction false} SomeBlock(c: Config, feeds: seq<Feed>, rows: seq<Row>, shares: seq<Share>,
                                     requests: Requests, drafted: bool)
    requires PlannedFor(c, feeds, rows, shares, requests, drafted)
    ensures 0 < Blocks(shares, |shares|)
  {
    hide Drafting, DistinctRequests, Planned, Blocks;
    if drafted {
      var j :| 0 <= j < |feeds| && Drafting(c, requests, feeds[j]);
      IsThere(c, requests, feeds[j]);
      assert FeedRow(feeds[j]) in rows;
      var i :| 0 <= i < |rows| && rows[i] == FeedRow(feeds[j]);
      CountsBlock(shares, i, |shares|);
    } else {
      assert rows[0] in rows;
      var j :| 0 <= j < |feeds| && rows[0] == FeedRow(feeds[j]);
      CountsBlock(shares, 0, |shares|);
    }
  }

  lemma {:induction false} IsThere(c: Config, requests: Requests, feed: Feed)
    requires Drafting(c, requests, feed)
    ensures feed.request in requests
  {}

  lemma {:induction false} CountsBlock(shares: seq<Share>, i: nat, n: nat)
    requires i < n <= |shares| && shares[i].hasBlock
    ensures 0 < Blocks(shares, n)
  {
    if i < n - 1 { CountsBlock(shares, i, n - 1); }
  }

  /** What a step comes to is decided by the admitted requests: nobody takes part, a feed is out of place, a share is
      empty, the pool is too small, or it runs. */
  ghost predicate Concluded(c: Config, feeds: seq<Feed>, requests: Requests, r: Outcome)
    requires ValidConfig(c)
  {
    && (r.Idle? <==> forall j | 0 <= j < |feeds| :: feeds[j].request !in requests)
    && (r.NotContiguous? <==> exists j :: 0 <= j < |feeds| && Misplaced(feeds[j], requests))
    && (!r.Idle? && !r.NotContiguous? ==> PlannedFor(c, feeds, r.rows, r.shares, requests, r.drafted))
    && (r.NoRows? ==> SomeEmpty(c, r.shares))
    && (r.PoolExhausted? ==> TooLarge(c, requests, r.rows, r.shares))
    && (r.Ran? ==> !SomeEmpty(c, r.shares) && !TooLarge(c, requests, r.rows, r.shares))
  }

  /** A row whose request has its whole window once the row's positions are in. */
  predicate RowDrafts(c: Config, requests: Requests, row: Row) {
    row.request in requests && HasContext(c, requests[row.request], row.firstPosition + row.auxCount)
  }

  /** The chosen blocks are the right ones. */
  lemma {:induction false} DraftsChosen(c: Config, feeds: seq<Feed>, rows: seq<Row>, wants: seq<bool>,
                                        shares: seq<Share>, blocks: seq<bool>, requests: Requests, wanted: bool)
    requires |wants| == |rows| == |shares| == |blocks| && WantsOf(feeds, rows, wants, |feeds|)
    requires forall i | 0 <= i < |rows| :: rows[i].request in requests && shares[i].hasBlock == blocks[i]
    requires ServedFrom(feeds, rows, requests, |feeds|) && DistinctFeeds(feeds)
    requires wanted <==> exists i :: 0 <= i < |rows| && wants[i] && RowDrafts(c, requests, rows[i])
    requires forall i | 0 <= i < |rows| :: blocks[i] <==>
               if wanted then wants[i] && RowDrafts(c, requests, rows[i]) else i == 0
    ensures DraftsFor(c, feeds, rows, shares, requests, wanted)
  {
    hide HasContext;
    forall i, j | 0 <= i < |rows| && 0 <= j < |feeds| && rows[i].request == feeds[j].request
      ensures wants[i] && RowDrafts(c, requests, rows[i]) <==> Drafting(c, requests, feeds[j])
    {
      assert rows[i] in rows;
    }
    if wanted {
      var i :| 0 <= i < |rows| && wants[i] && RowDrafts(c, requests, rows[i]);
      assert rows[i] in rows;
      var j :| 0 <= j < |feeds| && rows[i] == FeedRow(feeds[j]);
      assert Drafting(c, requests, feeds[j]);
    }
    if j :| 0 <= j < |feeds| && Drafting(c, requests, feeds[j]) {
      assert FeedRow(feeds[j]) in rows;
      var i :| 0 <= i < |rows| && rows[i] == FeedRow(feeds[j]);
      assert wants[i] && RowDrafts(c, requests, rows[i]);
    }
  }

  lemma {:induction false} PlanChosen(c: Config, feeds: seq<Feed>, rows: seq<Row>, wants: seq<bool>,
                                      shares: seq<Share>, blocks: seq<bool>, requests: Requests, wanted: bool)
    requires |wants| == |rows| == |shares| == |blocks| && WantsOf(feeds, rows, wants, |feeds|)
    requires forall i | 0 <= i < |rows| :: rows[i].request in requests && shares[i].hasBlock == blocks[i]
    requires forall i | 0 <= i < |rows| :: requests[rows[i].request].cached == rows[i].firstPosition
    requires ServedFrom(feeds, rows, requests, |feeds|) && DistinctFeeds(feeds) && DistinctRequests(rows)
    requires rows != [] && Planned(c, rows, shares)
    requires wanted <==> exists i :: 0 <= i < |rows| && wants[i] && RowDrafts(c, requests, rows[i])
    requires forall i | 0 <= i < |rows| :: blocks[i] <==>
               if wanted then wants[i] && RowDrafts(c, requests, rows[i]) else i == 0
    ensures PlannedFor(c, feeds, rows, shares, requests, wanted)
  {
    hide DraftsFor, ServedFrom, WantsOf, Planned, DistinctRequests, DistinctFeeds;
    DraftsChosen(c, feeds, rows, wants, shares, blocks, requests, wanted);
  }

  lemma {:induction false} NobodyServed(c: Config, feeds: seq<Feed>, rows: seq<Row>, requests: Requests)
    requires ValidConfig(c) && rows == [] && ServedFrom(feeds, rows, requests, |feeds|)
    ensures Concluded(c, feeds, requests, Idle)
  {
    forall j | 0 <= j < |feeds| ensures feeds[j].request !in requests && !Misplaced(feeds[j], requests) {}
  }

  lemma {:induction false} OutOfPlace(c: Config, feeds: seq<Feed>, rows: seq<Row>, requests: Requests)
    requires ValidConfig(c) && ServedFrom(feeds, rows, requests, |feeds|)
    requires exists i :: 0 <= i < |rows| && rows[i].request in requests
                         && requests[rows[i].request].cached != rows[i].firstPosition
    ensures Concluded(c, feeds, requests, NotContiguous)
  {
    var i :| 0 <= i < |rows| && rows[i].request in requests
             && requests[rows[i].request].cached != rows[i].firstPosition;
    assert rows[i] in rows;
    var j :| 0 <= j < |feeds| && rows[i] == FeedRow(feeds[j]);
    assert Misplaced(feeds[j], requests);
  }

  lemma {:induction false} PlanConcludes(c: Config, feeds: seq<Feed>, requests: Requests, r: Outcome)
    requires ValidConfig(c) && !r.Idle? && !r.NotContiguous?
    requires PlannedFor(c, feeds, r.rows, r.shares, requests, r.drafted)
    requires r.NoRows? ==> SomeEmpty(c, r.shares)
    requires r.PoolExhausted? ==> TooLarge(c, requests, r.rows, r.shares)
    requires r.Ran? ==> !SomeEmpty(c, r.shares) && !TooLarge(c, requests, r.rows, r.shares)
    ensures Concluded(c, feeds, requests, r)
  {
    hide SomeEmpty, TooLarge, Planned, DraftsFor;
    forall j | 0 <= j < |feeds| ensures !Misplaced(feeds[j], requests) {
      if feeds[j].request in requests {
        assert FeedRow(feeds[j]) in r.rows;
      }
    }
    assert r.rows[0] in r.rows;
    var j :| 0 <= j < |feeds| && r.rows[0] == FeedRow(feeds[j]);
    assert feeds[j].request in requests;
  }

  lemma {:induction false} NoneEmpty(c: Config, rows: seq<Row>, shares: seq<Share>, requests: Requests)
    requires ValidConfig(c) && Serves(c, rows, shares, requests)
    ensures !SomeEmpty(c, shares)
  {
    forall i | 0 <= i < |shares| ensures 0 < ShareRows(shares[i], c.blockSize) {
      assert ServesOne(c, rows[i], shares[i], requests);
    }
  }

  lemma {:induction false} IsEmpty(c: Config, shares: seq<Share>, i: nat)
    requires i < |shares| && ShareRows(shares[i], c.blockSize) == 0
    ensures SomeEmpty(c, shares)
  {}

  /** Moving cursors claims nothing. */
  lemma {:induction false} ClaimedCommitted(c: Config, rows: seq<Row>, shares: seq<Share>, requests: Requests,
                                            grown: Requests)
    requires ValidConfig(c) && |rows| == |shares| && Claimed(c, rows, shares, requests, grown, |rows|)
    ensures Claimed(c, rows, shares, requests, CommitRequests(grown, rows, |rows|), |rows|)
  {
    hide CommitRequests, CountAfter;
    CommitKeys(grown, rows, |rows|);
    forall q | q in requests ensures |CommitRequests(grown, rows, |rows|)[q].blocks| == |grown[q].blocks| {
      CommitKeepsBlocks(grown, rows, |rows|, q);
    }
  }
}
