/** How many blocks a step claims: what each served request needs, and whether the pool can give it. */
module DrafterClaims {
  import opened Sums
  import opened DrafterLayout
  import opened DrafterState
  import opened DrafterPool
  import opened DrafterStep

  /** Blocks that make the positions addressable: a whole ring, or as many as the positions fill. */
  function NeededBlocks(c: Config, positions: nat): nat
    requires ValidConfig(c)
  {
    if RingBlocks(c) != 0 then RingBlocks(c) else CeilDiv(positions, c.pagedBlockSize)
  }

  /** Blocks that a request with some blocks has once the first n rows have claimed theirs. */
  function CountAfter(c: Config, blocks: nat, rows: seq<Row>, shares: seq<Share>, q: nat, n: nat): nat
    requires ValidConfig(c) && n <= |rows| && n <= |shares|
  {
    if n == 0 then blocks
    else
      var before := CountAfter(c, blocks, rows, shares, q, n - 1);
      if rows[n - 1].request != q then before
      else Max(before, NeededBlocks(c, shares[n - 1].first + ShareRows(shares[n - 1], c.blockSize)))
  }

  /** The block counts of a step that claims everything it needs. */
  ghost function CountsAfter(c: Config, requests: Requests, rows: seq<Row>, shares: seq<Share>): map<nat, nat>
    requires ValidConfig(c) && |rows| == |shares|
  {
    map q | q in requests :: CountAfter(c, |requests[q].blocks|, rows, shares, q, |rows|)
  }

  /** The pool has fewer blocks than the step needs. */
  ghost predicate TooLarge(c: Config, requests: Requests, rows: seq<Row>, shares: seq<Share>)
    requires ValidConfig(c)
  {
    |rows| == |shares| && Sum(CountsAfter(c, requests, rows, shares)) > c.numBlocks
  }

  /** The first n rows have claimed exactly what they need. */
  ghost predicate Claimed(c: Config, rows: seq<Row>, shares: seq<Share>, requests: Requests, requests': Requests,
                          n: nat)
    requires ValidConfig(c)
  {
    && n <= |rows| && n <= |shares| && requests'.Keys == requests.Keys
    && forall q | q in requests ::
         |requests'[q].blocks| == CountAfter(c, |requests[q].blocks|, rows, shares, q, n)
  }

  /** Request r got what the positions need, or not enough; nobody else's count changed. */
  ghost predicate Extended(c: Config, requests: Requests, requests': Requests, r: nat, positions: nat, enough: bool)
    requires ValidConfig(c)
  {
    && r in requests && requests'.Keys == requests.Keys
    && (forall q | q in requests && q != r :: |requests'[q].blocks| == |requests[q].blocks|)
    && if enough then |requests'[r].blocks| == Max(|requests[r].blocks|, NeededBlocks(c, positions))
       else |requests'[r].blocks| < NeededBlocks(c, positions)
  }

  lemma {:induction false} NothingClaimed(c: Config, rows: seq<Row>, shares: seq<Share>, requests: Requests)
    requires ValidConfig(c)
    ensures Claimed(c, rows, shares, requests, requests, 0)
  {}

  lemma {:induction false} ClaimMore(c: Config, rows: seq<Row>, shares: seq<Share>, start: Requests, requests: Requests,
                                     requests': Requests, n: nat)
    requires ValidConfig(c) && n < |rows| == |shares| && Claimed(c, rows, shares, start, requests, n)
    requires Extended(c, requests, requests', rows[n].request,
             shares[n].first + ShareRows(shares[n], c.blockSize), true)
    ensures Claimed(c, rows, shares, start, requests', n + 1)
  {
    hide NeededBlocks, ShareRows;
  }

  lemma {:induction false} CountGrows(c: Config, blocks: nat, rows: seq<Row>, shares: seq<Share>, q: nat, n: nat,
                                      m: nat)
    requires ValidConfig(c) && n <= m <= |rows| == |shares|
    ensures CountAfter(c, blocks, rows, shares, q, n) <= CountAfter(c, blocks, rows, shares, q, m)
    decreases m
  {
    hide NeededBlocks, ShareRows;
    if n < m { CountGrows(c, blocks, rows, shares, q, n, m - 1); }
  }

  /** A pool that cannot give row n what it needs is too small for the step. */
  lemma {:induction false} TooMany(c: Config, rows: seq<Row>, shares: seq<Share>, start: Requests, requests: Requests,
                                   requests': Requests, owner: map<nat, Owner>, n: nat)
    requires ValidConfig(c) && n < |rows| == |shares| && Claimed(c, rows, shares, start, requests, n)
    requires Extended(c, requests, requests', rows[n].request,
             shares[n].first + ShareRows(shares[n], c.blockSize), false)
    requires Pooled(c, [], requests', owner)
    ensures TooLarge(c, start, rows, shares)
  {
    hide NeededBlocks, ShareRows, Partitioned, Sum;
    var r := rows[n].request;
    var counts: map<nat, nat>, need: map<nat, nat> := BlockCounts(requests'), CountsAfter(c, start, rows, shares);
    forall q | q in counts ensures counts[q] <= need[q] && (q == r ==> counts[q] < need[q]) {
      CountGrows(c, |start[q].blocks|, rows, shares, q, if q == r then n + 1 else n, |rows|);
    }
    var counts': map<nat, nat> := counts[r := counts[r] + 1];
    SumUpdate(counts, r, counts[r] + 1);
    BoundedBy(counts', need, 0, |counts'|, 0);
  }

  /** A step that claimed everything fits the pool. */
  lemma {:induction false} ClaimsFit(c: Config, rows: seq<Row>, shares: seq<Share>, start: Requests, requests: Requests,
                                     free: seq<nat>, owner: map<nat, Owner>)
    requires ValidConfig(c) && |rows| == |shares| && Claimed(c, rows, shares, start, requests, |rows|)
    requires Pooled(c, free, requests, owner)
    ensures !TooLarge(c, start, rows, shares)
  {
    hide Partitioned, Sum, CountAfter;
    assert CountsAfter(c, start, rows, shares) == BlockCounts(requests);
  }
}
