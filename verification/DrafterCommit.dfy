/** What a completed step leaves: every tracked request's window holds after the batch's writes. */
module DrafterCommit {
  import opened Arithmetic
  import opened Pigeonhole
  import opened Sums
  import opened DrafterLayout
  import opened DrafterState
  import opened DrafterCache
  import opened DrafterPool
  import opened DrafterStep

  ghost predicate DistinctRequests(rows: seq<Row>) {
    forall i, j | 0 <= i < j < |rows| :: rows[i].request != rows[j].request
  }

  /** Row i continues its request where it stopped, and the request's blocks cover its positions. */
  ghost predicate ServesOne(c: Config, row: Row, share: Share, requests: Requests)
    requires ValidConfig(c)
  {
    && row.request in requests
    && requests[row.request].cached == row.firstPosition
    && share == ShareOf(c, row, share.hasBlock)
    && 0 < ShareRows(share, c.blockSize)
    && (c.slidingWindow == 0 ==>
          share.first + ShareRows(share, c.blockSize) <= |requests[row.request].blocks| * c.pagedBlockSize)
  }

  ghost predicate Serves(c: Config, rows: seq<Row>, shares: seq<Share>, requests: Requests)
    requires ValidConfig(c)
  {
    && |rows| == |shares| && DistinctRequests(rows)
    && forall i | 0 <= i < |rows| :: ServesOne(c, rows[i], shares[i], requests)
  }

  function EntriesOf(rows: seq<Row>, shares: seq<Share>, requests: Requests, n: nat): (es: seq<Entry>)
    requires n <= |rows| == |shares|
    requires forall i | 0 <= i < n :: rows[i].request in requests
    ensures |es| == n
    ensures forall i | 0 <= i < n :: es[i] == Entry(rows[i].request, requests[rows[i].request].blocks, shares[i])
  {
    if n == 0 then []
    else EntriesOf(rows, shares, requests, n - 1) + [Entry(rows[n - 1].request, requests[rows[n - 1].request].blocks,
      shares[n - 1])]
  }

  lemma {:induction false} SharesOfEntries(rows: seq<Row>, shares: seq<Share>, es: seq<Entry>)
    requires |es| == |rows| == |shares| && forall i | 0 <= i < |rows| :: es[i].share == shares[i]
    ensures SharesOf(es) == shares
  {}

  lemma {:induction false} ServedMatches(c: Config, row: Row, share: Share, requests: Requests)
    requires ValidConfig(c) && ServesOne(c, row, share, requests) && Shaped(c, requests[row.request])
    ensures var st := requests[row.request]; Matches(c, Entry(row.request, st.blocks, share), st, row.auxCount)
    ensures var st := requests[row.request];
            st.blocks != [] && ShareRows(share, c.blockSize) <= |st.blocks| * c.pagedBlockSize
  {
    hide RingBlocks;
    var st := requests[row.request];
    MatchesFits(c, Entry(row.request, st.blocks, share), st, row.auxCount, st.cached + row.auxCount);
    assert 0 * c.pagedBlockSize == 0;
  }

  lemma {:induction false} BatchAddressable(c: Config, free: seq<nat>, owner: map<nat, Owner>, rows: seq<Row>,
                                            shares: seq<Share>, requests: Requests, es: seq<Entry>)
    requires ValidConfig(c) && Serves(c, rows, shares, requests) && Pooled(c, free, requests, owner)
    requires forall r | r in requests :: Shaped(c, requests[r])
    requires |es| == |rows|
    requires forall i | 0 <= i < |es| ::
               rows[i].request in requests && es[i] == Entry(rows[i].request, requests[rows[i].request].blocks,
                 shares[i])
    ensures Addressable(es, c.pagedBlockSize, c.blockSize)
  {
    hide Shaped, ShareRows, Distinct, ServesOne, Partitioned;
    PartitionMeaning(c.numBlocks, free, requests, owner);
    forall i | 0 <= i < |es|
      ensures es[i].blocks != [] && Distinct(es[i].blocks)
      ensures ShareRows(es[i].share, c.blockSize) <= |es[i].blocks| * c.pagedBlockSize
    {
      assert ServesOne(c, rows[i], shares[i], requests);
      ServedMatches(c, rows[i], shares[i], requests);
    }
    forall i, j | 0 <= i < j < |es| ensures Disjoint(es[i].blocks, es[j].blocks) {
      assert rows[i].request != rows[j].request;
    }
  }

  // ----- committing

  /** cached_positions of the first n rows' requests moved past their new positions. */
  function CommitRequests(requests: Requests, rows: seq<Row>, n: nat): Requests
    requires n <= |rows|
  {
    if n == 0 then requests
    else
      var before := CommitRequests(requests, rows, n - 1);
      var row := rows[n - 1];
      if row.request in before then before[row.request := before[row.request].(cached :=
          row.firstPosition + row.auxCount)]
      else before
  }

  lemma {:induction false} CommitElsewhere(requests: Requests, rows: seq<Row>, n: nat, r: nat)
    requires n <= |rows| && r in requests && forall i | 0 <= i < n :: rows[i].request != r
    ensures r in CommitRequests(requests, rows, n) && CommitRequests(requests, rows, n)[r] == requests[r]
  {
    if 0 < n { CommitElsewhere(requests, rows, n - 1, r); }
  }

  lemma {:induction false} CommitAt(requests: Requests, rows: seq<Row>, n: nat, i: nat)
    requires i < n <= |rows| && DistinctRequests(rows) && rows[i].request in requests
    requires requests[rows[i].request].cached == rows[i].firstPosition
    ensures rows[i].request in CommitRequests(requests, rows, n)
    ensures CommitRequests(requests, rows, n)[rows[i].request] == Committed(requests[rows[i].request], rows[i].auxCount)
  {
    if i == n - 1 {
      CommitElsewhere(requests, rows, n - 1, rows[i].request);
    } else {
      CommitAt(requests, rows, n - 1, i);
    }
  }

  lemma {:induction false} CommitKeys(requests: Requests, rows: seq<Row>, n: nat)
    requires n <= |rows|
    ensures CommitRequests(requests, rows, n).Keys == requests.Keys
  {
    if 0 < n { CommitKeys(requests, rows, n - 1); }
  }

  lemma {:induction false} CommitPooled(c: Config, free: seq<nat>, requests: Requests, owner: map<nat, Owner>,
                                        rows: seq<Row>, n: nat)
    requires n <= |rows| && Pooled(c, free, requests, owner)
    ensures Pooled(c, free, CommitRequests(requests, rows, n), owner)
  {
    if 0 < n {
      CommitPooled(c, free, requests, owner, rows, n - 1);
      var before, row := CommitRequests(requests, rows, n - 1), rows[n - 1];
      if row.request in before {
        hide Pooled;
        InsertPooled(c, free, before, owner, row.request, before[row.request].(cached :=
          row.firstPosition + row.auxCount));
      }
    }
  }

  /** Rows of the K/V sources that request i ingests. */
  function IngestedRows(kvs: seq<Kv>, shares: seq<Share>, blockSize: nat, i: nat): seq<Kv>
    requires i < |shares| && Rows(shares, blockSize, i) + shares[i].count <= |kvs|
  {
    kvs[Rows(shares, blockSize, i)..Rows(shares, blockSize, i) + shares[i].count]
  }

  ghost predicate CommittedHistory(history: map<nat, History>, history': map<nat, History>, rows: seq<Row>,
                                   shares: seq<Share>, kvs: seq<Kv>, blockSize: nat)
    requires |rows| == |shares|
  {
    && history'.Keys == history.Keys
    && (forall r | r in history && (forall i | 0 <= i < |rows| :: rows[i].request != r) :: history'[r] == history[r])
    && (forall i | 0 <= i < |rows| :: CommittedOne(history, history', rows[i].request, shares, kvs, blockSize, i))
  }

  ghost predicate CommittedOne(history: map<nat, History>, history': map<nat, History>, r: nat, shares: seq<Share>,
                               kvs: seq<Kv>, blockSize: nat, i: nat)
    requires i < |shares|
  {
    && r in history && r in history'
    && Rows(shares, blockSize, i) + shares[i].count <= |kvs|
    && history'[r] == Ingest(history[r], shares[i].first, IngestedRows(kvs, shares, blockSize, i))
  }

  /** The ring refines the unbounded cache across a step: if every tracked request's window was held
      before, it is held after the batch ran and was committed. */
  lemma {:induction false} CommitTracked(c: Config, free: seq<nat>, owner: map<nat, Owner>, requests: Requests,
                                         cells: Cells,
                                         history: map<nat, History>, history': map<nat, History>,
                                         rows: seq<Row>, shares: seq<Share>, es: seq<Entry>, ws: seq<Write>,
                                           kvs: seq<Kv>)
    requires ValidConfig(c) && Pooled(c, free, requests, owner) && AllTracked(c, requests, cells, history)
    requires Serves(c, rows, shares, requests) && |es| == |rows| && SharesOf(es) == shares
    requires forall i | 0 <= i < |es| ::
               && rows[i].request in requests
               && es[i] == Entry(rows[i].request, requests[rows[i].request].blocks, shares[i])
    requires IsWrites(ws, kvs, es, |es|, c.pagedBlockSize, c.blockSize)
    requires CommittedHistory(history, history', rows, shares, kvs, c.blockSize)
    ensures AllTracked(c, CommitRequests(requests, rows, |rows|), Apply(cells, ws), history')
  {
    hide Pooled, IsWrites, Tracked, ServesOne, Apply, CommitRequests, SharesOf, CommittedOne, Addressable,
         DistinctCells;
    AllShaped(c, requests, cells, history);
    BatchAddressable(c, free, owner, rows, shares, requests, es);
    BatchWritesDistinct(ws, kvs, es, c.pagedBlockSize, c.blockSize);
    CommitKeys(requests, rows, |rows|);
    var requests' := CommitRequests(requests, rows, |rows|);
    forall r | r in requests' ensures Tracked(c, requests'[r], Apply(cells, ws), history'[r]) {
      if i :| 0 <= i < |rows| && rows[i].request == r {
        CommitServed(c, requests, cells, history, history', rows, shares, es, ws, kvs, i);
      } else {
        CommitUnserved(c, free, owner, requests, cells, history, rows, es, ws, kvs, r);
      }
    }
  }

  lemma {:induction false} AllShaped(c: Config, requests: Requests, cells: Cells, history: map<nat, History>)
    requires ValidConfig(c) && AllTracked(c, requests, cells, history)
    ensures forall r | r in requests :: Shaped(c, requests[r])
  {
    forall r | r in requests ensures Shaped(c, requests[r]) { assert Tracked(c, requests[r], cells, history[r]); }
  }

  lemma {:induction false} CommitServed(c: Config, requests: Requests, cells: Cells, history: map<nat, History>,
                                        history': map<nat, History>,
                                        rows: seq<Row>, shares: seq<Share>, es: seq<Entry>, ws: seq<Write>,
                                          kvs: seq<Kv>, i: nat)
    requires ValidConfig(c) && AllTracked(c, requests, cells, history)
    requires Serves(c, rows, shares, requests) && |es| == |rows| && SharesOf(es) == shares && i < |rows|
    requires forall i | 0 <= i < |es| ::
               && rows[i].request in requests
               && es[i] == Entry(rows[i].request, requests[rows[i].request].blocks, shares[i])
    requires IsWrites(ws, kvs, es, |es|, c.pagedBlockSize, c.blockSize)
    requires Addressable(es, c.pagedBlockSize, c.blockSize) && DistinctCells(ws)
    requires CommittedHistory(history, history', rows, shares, kvs, c.blockSize)
    ensures var r := rows[i].request;
            && r in CommitRequests(requests, rows, |rows|) && r in history'
            && Tracked(c, CommitRequests(requests, rows, |rows|)[r], Apply(cells, ws), history'[r])
  {
    hide IsWrites, Apply, CommitRequests, Addressable, DistinctCells, HoldsWindow, RingBlocks, Rows, SharesOf, Ingest;
    var r := rows[i].request;
    var st := requests[r];
    assert ServesOne(c, rows[i], shares[i], requests);
    assert CommittedOne(history, history', r, shares, kvs, c.blockSize, i);
    assert Tracked(c, st, cells, history[r]);
    CommitAt(requests, rows, |rows|, i);
    ServedMatches(c, rows[i], shares[i], requests);
    ServedKeepsWindow(c, ws, kvs, es, i, st, rows[i].auxCount, cells, history[r],
      IngestedRows(kvs, shares, c.blockSize, i));
    CommittedShaped(c, st, rows[i], shares[i]);
  }

  lemma {:induction false} CommittedShaped(c: Config, st: RequestState, row: Row, share: Share)
    requires ValidConfig(c) && Shaped(c, st) && st.cached == row.firstPosition
             && share == ShareOf(c, row, share.hasBlock)
    requires c.slidingWindow == 0 ==> share.first + ShareRows(share, c.blockSize) <= |st.blocks| * c.pagedBlockSize
    ensures Shaped(c, Committed(st, row.auxCount))
  {
    hide RingBlocks;
  }

  lemma {:induction false} CommitUnserved(c: Config, free: seq<nat>, owner: map<nat, Owner>, requests: Requests,
                                          cells: Cells,
                                          history: map<nat, History>, rows: seq<Row>, es: seq<Entry>, ws: seq<Write>,
                                            kvs: seq<Kv>, r: nat)
    requires ValidConfig(c) && Pooled(c, free, requests, owner) && AllTracked(c, requests, cells, history)
    requires |es| == |rows| && r in requests && forall i | 0 <= i < |rows| :: rows[i].request != r
    requires forall i | 0 <= i < |es| :: rows[i].request in requests && es[i].blocks == requests[rows[i].request].blocks
    requires IsWrites(ws, kvs, es, |es|, c.pagedBlockSize, c.blockSize)
    ensures r in CommitRequests(requests, rows, |rows|) && r in history
    ensures Tracked(c, CommitRequests(requests, rows, |rows|)[r], Apply(cells, ws), history[r])
  {
    hide IsWrites, Apply, CommitRequests, Partitioned, HoldsWindow, Shaped;
    PartitionMeaning(c.numBlocks, free, requests, owner);
    assert Tracked(c, requests[r], cells, history[r]);
    CommitElsewhere(requests, rows, |rows|, r);
    UnservedKeepsWindow(c, ws, kvs, es, requests[r], cells, history[r]);
  }

  /** Request r's history after the step. */
  ghost function HistoryAfter(h: History, rows: seq<Row>, shares: seq<Share>, kvs: seq<Kv>, blockSize: nat,
                              r: nat): History
    requires |rows| == |shares|
    requires forall i | 0 <= i < |rows| :: Rows(shares, blockSize, i) + shares[i].count <= |kvs|
  {
    if i :| 0 <= i < |rows| && rows[i].request == r then
      Ingest(h, shares[i].first, IngestedRows(kvs, shares, blockSize, i))
    else h
  }

  ghost function CommitHistory(history: map<nat, History>, rows: seq<Row>, shares: seq<Share>, kvs: seq<Kv>,
                               blockSize: nat): map<nat, History>
    requires |rows| == |shares|
    requires forall i | 0 <= i < |rows| :: Rows(shares, blockSize, i) + shares[i].count <= |kvs|
  {
    map r | r in history :: HistoryAfter(history[r], rows, shares, kvs, blockSize, r)
  }

  lemma {:induction false} HistoryCommitted(history: map<nat, History>, rows: seq<Row>, shares: seq<Share>,
                                            kvs: seq<Kv>, blockSize: nat)
    requires |rows| == |shares| && DistinctRequests(rows)
    requires forall i | 0 <= i < |rows| ::
               Rows(shares, blockSize, i) + shares[i].count <= |kvs| && rows[i].request in history
    ensures CommittedHistory(history, CommitHistory(history, rows, shares, kvs, blockSize), rows, shares, kvs,
            blockSize)
  {
    hide Rows, Ingest, IngestedRows;
    var history' := CommitHistory(history, rows, shares, kvs, blockSize);
    forall i | 0 <= i < |rows| ensures CommittedOne(history, history', rows[i].request, shares, kvs, blockSize, i) {
      var r := rows[i].request;
      var j :| 0 <= j < |rows| && rows[j].request == r
        && HistoryAfter(history[r], rows, shares, kvs, blockSize, r) ==
          Ingest(history[r], shares[j].first, IngestedRows(kvs, shares, blockSize, j));
      assert i == j;
    }
  }

  // ----- growing block lists during a step

  /** requests' differs from requests only in longer block lists. */
  ghost predicate GrownFrom(requests: Requests, requests': Requests) {
    && requests'.Keys == requests.Keys
    && forall r | r in requests ::
         && requests'[r].cached == requests[r].cached && requests'[r].contextStart == requests[r].contextStart
         && |requests[r].blocks| <= |requests'[r].blocks|
  }

  lemma {:induction false} GrownServesOne(c: Config, row: Row, share: Share, requests: Requests, requests': Requests)
    requires ValidConfig(c) && ServesOne(c, row, share, requests) && GrownFrom(requests, requests')
    ensures ServesOne(c, row, share, requests')
  {
    MulLe(|requests[row.request].blocks|, |requests'[row.request].blocks|, c.pagedBlockSize);
  }

  /** Under full attention, enough blocks for the positions means the row can be served. */
  lemma {:induction false} GrownCovers(c: Config, row: Row, share: Share, requests: Requests)
    requires ValidConfig(c) && row.request in requests && requests[row.request].cached == row.firstPosition
    requires share == ShareOf(c, row, share.hasBlock) && 0 < ShareRows(share, c.blockSize)
    requires c.slidingWindow == 0 ==>
               CeilDiv(share.first + ShareRows(share, c.blockSize), c.pagedBlockSize) <= |requests[row.request].blocks|
    ensures ServesOne(c, row, share, requests)
  {
    hide CeilDiv;
    if c.slidingWindow == 0 {
      var n := share.first + ShareRows(share, c.blockSize);
      CeilDivCovers(n, c.pagedBlockSize);
      MulLe(CeilDiv(n, c.pagedBlockSize), |requests[row.request].blocks|, c.pagedBlockSize);
    }
  }

  /** The tracked requests' committed context does not fit the blocks the pool was sized against. */
  ghost predicate Overcommitted(c: Config, committed: map<nat, nat>)
    requires ValidConfig(c)
  {
    forall target: nat | c.numBlocks == FullAttentionPoolBlocks(c, target, c.maxRequests) ::
      Sum(ContextBlocks(c, committed)) > target
  }

  /** The blocks a row needs stay within its request's budget. */
  lemma {:induction false} RowWithinBudget(c: Config, row: Row, share: Share, committed: nat)
    requires ValidConfig(c) && share == ShareOf(c, row, share.hasBlock) && committed == row.firstPosition + row.auxCount
    ensures CeilDiv(share.first + ShareRows(share, c.blockSize), c.pagedBlockSize) <=
            CeilDiv(committed, c.pagedBlockSize) + SpillBlocks(c)
  {
    hide CeilDiv, SpillBlocks;
    CeilDivMonotone(share.first + ShareRows(share, c.blockSize), committed + c.blockSize, c.pagedBlockSize);
    SpillSuffices(c, committed);
  }

  lemma {:induction false} OvercommittedWhenEmpty(c: Config, requests: Requests, owner: map<nat, Owner>,
                                                  committed: map<nat, nat>, r: nat)
    requires ValidConfig(c) && Pooled(c, [], requests, owner) && |requests| <= c.maxRequests
    requires WithinBudget(c, requests, committed)
    requires r in requests && |requests[r].blocks| < CeilDiv(committed[r], c.pagedBlockSize) + SpillBlocks(c)
    ensures Overcommitted(c, committed)
  {
    hide Pooled, WithinBudget, CeilDiv, SpillBlocks, FullAttentionPoolBlocks, Sum;
    forall target: nat | c.numBlocks == FullAttentionPoolBlocks(c, target, c.maxRequests)
      ensures Sum(ContextBlocks(c, committed)) > target
    {
      ExhaustedMeansOvercommitted(c, requests, owner, committed, r, target);
    }
  }

  ghost function CachedOf(requests: Requests): map<nat, nat> {
    map r | r in requests :: requests[r].cached
  }

  /** What each tracked request will have committed once the step is done. */
  ghost function CommittedAfter(requests: Requests, rows: seq<Row>): map<nat, nat> {
    CachedOf(CommitRequests(requests, rows, |rows|))
  }

  lemma {:induction false} CommittedAfterRow(requests: Requests, rows: seq<Row>, i: nat)
    requires i < |rows| && DistinctRequests(rows) && rows[i].request in requests
    requires requests[rows[i].request].cached == rows[i].firstPosition
    ensures rows[i].request in CommittedAfter(requests, rows)
    ensures CommittedAfter(requests, rows)[rows[i].request] == rows[i].firstPosition + rows[i].auxCount
  {
    hide CommitRequests;
    CommitAt(requests, rows, |rows|, i);
  }

  /** A step only adds context, so a budget that holds before it holds for what it will commit. */
  lemma {:induction false} BudgetBeforeStep(c: Config, requests: Requests, rows: seq<Row>)
    requires ValidConfig(c) && WithinBudget(c, requests, CachedOf(requests)) && DistinctRequests(rows)
    requires forall i | 0 <= i < |rows| ::
               rows[i].request in requests && requests[rows[i].request].cached == rows[i].firstPosition
    ensures WithinBudget(c, requests, CommittedAfter(requests, rows))
  {
    hide CommitRequests, CeilDiv, SpillBlocks;
    var committed := CommittedAfter(requests, rows);
    CommitKeys(requests, rows, |rows|);
    forall r | r in requests
      ensures |requests[r].blocks| <= CeilDiv(committed[r], c.pagedBlockSize) + SpillBlocks(c)
    {
      if i :| 0 <= i < |rows| && rows[i].request == r {
        CommittedAfterRow(requests, rows, i);
      } else {
        CommitElsewhere(requests, rows, |rows|, r);
      }
      CeilDivMonotone(requests[r].cached, committed[r], c.pagedBlockSize);
    }
  }

  // ----- what the step ingested

  /** h holds the K/V of position p's auxiliary row. */
  ghost predicate HasAux(aux: seq<int>, row: Row, h: History, p: nat) {
    && row.firstPosition <= p && row.auxBegin + (p - row.firstPosition) < |aux|
    && p in h && h[p] == Context(aux[row.auxBegin + (p - row.firstPosition)])
  }

  /** The request's history holds, for each ingested position, the K/V of that position's auxiliary row,
      and is unchanged elsewhere. */
  ghost predicate IngestedOne(aux: seq<int>, row: Row, share: Share, h: History, h': History) {
    && (forall p | share.first <= p < share.first + share.count :: HasAux(aux, row, h', p))
    && (forall p | p in h && !(share.first <= p < share.first + share.count) :: p in h' && h'[p] == h[p])
  }

  ghost predicate IngestedAll(aux: seq<int>, rows: seq<Row>, shares: seq<Share>, history: map<nat, History>,
                              history': map<nat, History>)
    requires |rows| == |shares|
  {
    && history'.Keys == history.Keys
    && (forall r | r in history && (forall i | 0 <= i < |rows| :: rows[i].request != r) :: history'[r] == history[r])
    && (forall i | 0 <= i < |rows| ::
          rows[i].request in history && IngestedOne(aux, rows[i], shares[i], history[rows[i].request],
            history'[rows[i].request]))
  }

  lemma {:induction false} StepIngests(c: Config, aux: seq<int>, rows: seq<Row>, shares: seq<Share>, packed: seq<int>,
                                       l: Layout, ctxIndex: seq<nat>,
                                       blockRows: nat, history: map<nat, History>, history': map<nat, History>)
    requires Planned(c, rows, shares) && Gathered(c, aux, rows, shares, packed, |rows|)
    requires Built(l, ctxIndex, shares, c.blockSize, blockRows, |shares|)
    requires CommittedHistory(history, history', rows, shares, Sources(l, packed, blockRows, |l.qkvRowMap|),
             c.blockSize)
    ensures IngestedAll(aux, rows, shares, history, history')
  {
    hide Rows, Ingest, Placed, Gathered, Sources, Inverse, Sized, IngestedOne;
    var kvs := Sources(l, packed, blockRows, |l.qkvRowMap|);
    forall i | 0 <= i < |rows|
      ensures rows[i].request in history && IngestedOne(aux, rows[i], shares[i], history[rows[i].request],
              history'[rows[i].request])
    {
      assert CommittedOne(history, history', rows[i].request, shares, kvs, c.blockSize, i);
      assert Placed(l, shares, c.blockSize, blockRows, i);
      RowIngests(c, aux, rows, shares, packed, l, blockRows, i, history[rows[i].request]);
    }
  }

  lemma {:induction false} RowIngests(c: Config, aux: seq<int>, rows: seq<Row>, shares: seq<Share>, packed: seq<int>,
                                      l: Layout,
                                      blockRows: nat, i: nat, h: History)
    requires Planned(c, rows, shares) && Gathered(c, aux, rows, shares, packed, |rows|) && i < |rows|
    requires Placed(l, shares, c.blockSize, blockRows, i)
    ensures var kvs := Sources(l, packed, blockRows, |l.qkvRowMap|);
            && Rows(shares, c.blockSize, i) + shares[i].count <= |kvs|
            && IngestedOne(aux, rows[i], shares[i], h, Ingest(h, shares[i].first,
              IngestedRows(kvs, shares, c.blockSize, i)))
  {
    hide Rows, Gathered, Source, Ingest;
    var kvs := Sources(l, packed, blockRows, |l.qkvRowMap|);
    var h' := Ingest(h, shares[i].first, IngestedRows(kvs, shares, c.blockSize, i));
    forall p | shares[i].first <= p < shares[i].first + shares[i].count ensures HasAux(aux, rows[i], h', p) {
      var k := p - shares[i].first;
      ContextRowsAreGathered(c, aux, rows, shares, packed, l, blockRows, i, k);
      assert h'[p] == IngestedRows(kvs, shares, c.blockSize, i)[k] == kvs[l.cumulative[i] + k];
    }
  }

  /** Everything a query block of the request can read is there: each of the last ContextWindow committed
      positions is in its own cell with the row last ingested for it, apart from the block's cells. */
  ghost predicate CompleteWindow(c: Config, st: RequestState, cells: Cells, h: History)
    requires ValidConfig(c)
  {
    forall p | 0 <= p < st.cached && (ContextWindow(c) == 0 || st.cached <= p + ContextWindow(c)) ::
      && HoldsAt(c.pagedBlockSize, st.blocks, cells, h, p)
      && forall q | p < q < st.cached + c.blockSize ::
           CellOf(st.blocks, c.pagedBlockSize, p) != CellOf(st.blocks, c.pagedBlockSize, q)
  }

  lemma {:induction false} DraftWindow(c: Config, free: seq<nat>, owner: map<nat, Owner>, requests: Requests,
                                       cells: Cells, history: map<nat, History>, r: nat)
    requires ValidConfig(c) && Pooled(c, free, requests, owner) && AllTracked(c, requests, cells, history)
             && r in requests
    requires HasContext(c, requests[r], requests[r].cached)
    requires c.slidingWindow == 0 ==> requests[r].cached + c.blockSize <= |requests[r].blocks| * c.pagedBlockSize
    ensures r in history && CompleteWindow(c, requests[r], cells, history[r])
  {
    hide Partitioned, CellOf, HoldsWindow, Shaped, Distinct, HoldsAt, HasContext;
    PartitionMeaning(c.numBlocks, free, requests, owner);
    var st, h := requests[r], history[r];
    assert Tracked(c, st, cells, h);
    forall p | 0 <= p < st.cached && (ContextWindow(c) == 0 || st.cached <= p + ContextWindow(c))
      ensures HoldsAt(c.pagedBlockSize, st.blocks, cells, h, p) && st.blocks != []
      ensures forall q | p < q < st.cached + c.blockSize ::
                CellOf(st.blocks, c.pagedBlockSize, p) != CellOf(st.blocks, c.pagedBlockSize, q)
    {
      ReadsAt(c, st, cells, h, p);
    }
  }

  lemma {:induction false} ReadsAt(c: Config, st: RequestState, cells: Cells, h: History, p: nat)
    requires ValidConfig(c) && Shaped(c, st) && HoldsWindow(c, st, cells, h)
    requires HasContext(c, st, st.cached) && Distinct(st.blocks)
    requires p < st.cached && (ContextWindow(c) == 0 || st.cached <= p + ContextWindow(c))
    requires c.slidingWindow == 0 ==> st.cached + c.blockSize <= |st.blocks| * c.pagedBlockSize
    ensures HoldsAt(c.pagedBlockSize, st.blocks, cells, h, p) && st.blocks != []
    ensures forall q | p < q < st.cached + c.blockSize ::
              CellOf(st.blocks, c.pagedBlockSize, p) != CellOf(st.blocks, c.pagedBlockSize, q)
  {
    hide CellOf, Shaped, HoldsWindow, Distinct, HasContext;
    DraftReadsCompleteWindow(c, st, cells, h, p, st.cached + c.blockSize - 1);
    forall q | p < q < st.cached + c.blockSize
      ensures CellOf(st.blocks, c.pagedBlockSize, p) != CellOf(st.blocks, c.pagedBlockSize, q)
    {
      DraftReadsCompleteWindow(c, st, cells, h, p, q);
    }
  }

  // ----- bookkeeping across the step

  lemma {:induction false} CommitKeepsBlocks(requests: Requests, rows: seq<Row>, n: nat, r: nat)
    requires n <= |rows| && r in requests
    ensures r in CommitRequests(requests, rows, n)
    ensures CommitRequests(requests, rows, n)[r].blocks == requests[r].blocks
    ensures CommitRequests(requests, rows, n)[r].contextStart == requests[r].contextStart
  {
    if 0 < n { CommitKeepsBlocks(requests, rows, n - 1, r); }
  }

  lemma {:induction false} CommittedAfterGrown(requests: Requests, requests': Requests, rows: seq<Row>)
    requires GrownFrom(requests, requests') && DistinctRequests(rows)
    requires forall i | 0 <= i < |rows| ::
               rows[i].request in requests && requests[rows[i].request].cached == rows[i].firstPosition
    ensures CommittedAfter(requests', rows) == CommittedAfter(requests, rows)
  {
    hide CommitRequests;
    CommitKeys(requests, rows, |rows|);
    CommitKeys(requests', rows, |rows|);
    forall r | r in requests ensures CommittedAfter(requests', rows)[r] == CommittedAfter(requests, rows)[r] {
      if i :| 0 <= i < |rows| && rows[i].request == r {
        CommitAt(requests, rows, |rows|, i);
        CommitAt(requests', rows, |rows|, i);
      } else {
        CommitElsewhere(requests, rows, |rows|, r);
        CommitElsewhere(requests', rows, |rows|, r);
      }
    }
  }

  lemma {:induction false} BudgetCommitted(c: Config, requests: Requests, rows: seq<Row>)
    requires ValidConfig(c) && |requests| <= c.maxRequests && WithinBudget(c, requests, CommittedAfter(requests, rows))
    ensures var requests' := CommitRequests(requests, rows, |rows|);
            |requests'| <= c.maxRequests && WithinBudget(c, requests', CachedOf(requests'))
  {
    hide CommitRequests, CeilDiv, SpillBlocks;
    CommitKeys(requests, rows, |rows|);
    SameSize(requests, CommitRequests(requests, rows, |rows|));
    forall r | r in requests ensures CommitRequests(requests, rows, |rows|)[r].blocks == requests[r].blocks {
      CommitKeepsBlocks(requests, rows, |rows|, r);
    }
  }

  /** A request that got a query block has its whole window in the cache when the session reads it. */
  lemma {:induction false} DraftedWindow(c: Config, free: seq<nat>, owner: map<nat, Owner>, requests: Requests,
                                         cells: Cells, history: map<nat, History>,
                                         rows: seq<Row>, shares: seq<Share>, i: nat)
    requires ValidConfig(c) && Serves(c, rows, shares, requests) && i < |rows| && shares[i].hasBlock
    requires rows[i].request in requests && HasContext(c, requests[rows[i].request],
             rows[i].firstPosition + rows[i].auxCount)
    requires Pooled(c, free, CommitRequests(requests, rows, |rows|), owner)
    requires AllTracked(c, CommitRequests(requests, rows, |rows|), cells, history)
    ensures var requests' := CommitRequests(requests, rows, |rows|); var r := rows[i].request;
            r in requests' && r in history && CompleteWindow(c, requests'[r], cells, history[r])
  {
    hide Pooled, AllTracked, CommitRequests, CompleteWindow;
    assert ServesOne(c, rows[i], shares[i], requests);
    CommitAt(requests, rows, |rows|, i);
    DraftWindow(c, free, owner, CommitRequests(requests, rows, |rows|), cells, history, rows[i].request);
  }
}
