/**
 Facts about the drafter's pool and tracked requests, one per kind of state change: taking a free
 block, releasing a request, restoring a checkpoint, and committing a batch.
 */
module DrafterPool {
  import opened Arithmetic
  import opened Pigeonhole
  import opened Sums
  import opened DrafterState
  import opened DrafterCache

  // ----- counting blocks

  ghost function BlockCounts(requests: Requests): map<nat, nat> {
    map r | r in requests :: |requests[r].blocks|
  }

  /** The blocks are partitioned, and none is lost: the free ones and the held ones add up. */
  ghost predicate Pooled(c: Config, free: seq<nat>, requests: Requests, owner: map<nat, Owner>) {
    && Partitioned(c.numBlocks, free, requests, owner)
    && |free| + Sum(BlockCounts(requests)) == c.numBlocks
  }

  lemma {:induction false} CountsAfterUpdate(requests: Requests, r: nat, st: RequestState)
    ensures BlockCounts(requests[r := st]) == BlockCounts(requests)[r := |st.blocks|]
  {}

  lemma {:induction false} TakePooled(c: Config, free: seq<nat>, requests: Requests, owner: map<nat, Owner>, r: nat)
    requires Pooled(c, free, requests, owner) && free != [] && r in requests
    ensures var b := free[|free| - 1]; var st := requests[r];
            Pooled(c, free[..|free| - 1], requests[r := st.(blocks := st.blocks + [b])],
                   owner[b := Held(r, |st.blocks|)])
  {
    hide Partitioned, Sum;
    var st := requests[r];
    var st' := st.(blocks := st.blocks + [free[|free| - 1]]);
    TakeOwned(c.numBlocks, free, requests, owner, r);
    CountsAfterUpdate(requests, r, st');
    SumUpdate(BlockCounts(requests), r, |st'.blocks|);
  }

  lemma {:induction false} ReleasePooled(c: Config, free: seq<nat>, requests: Requests, owner: map<nat, Owner>, r: nat)
    requires Pooled(c, free, requests, owner) && r in requests
    ensures Pooled(c, free + requests[r].blocks, requests - {r}, GiveBack(owner, r, |free|))
  {
    hide Partitioned, Sum, GiveBack;
    ReleaseOwned(c.numBlocks, free, requests, owner, r);
    SumRemove(BlockCounts(requests), r);
    assert BlockCounts(requests - {r}) == BlockCounts(requests) - {r};
  }

  lemma {:induction false} RestorePooled(c: Config, free: seq<nat>, requests: Requests, owner: map<nat, Owner>, r: nat,
                                         k: nat, st: RequestState)
    requires Pooled(c, free, requests, owner) && r !in requests && k <= |free|
    requires st.blocks == free[|free| - k..]
    ensures Pooled(c, free[..|free| - k], requests[r := st], TakeLast(owner, r, |free| - k))
  {
    hide Partitioned, Sum, TakeLast;
    RestoreOwned(c.numBlocks, free, requests, owner, r, k, st);
    CountsAfterUpdate(requests, r, st);
    SumUpdate(BlockCounts(requests), r, k);
  }

  lemma {:induction false} InsertPooled(c: Config, free: seq<nat>, requests: Requests, owner: map<nat, Owner>, r: nat,
                                        st: RequestState)
    requires Pooled(c, free, requests, owner)
    requires if r in requests then st.blocks == requests[r].blocks else st.blocks == []
    ensures Pooled(c, free, requests[r := st], owner)
  {
    hide Partitioned, Sum;
    SameBlocksOwned(c.numBlocks, free, requests, requests[r := st], owner);
    CountsAfterUpdate(requests, r, st);
    SumUpdate(BlockCounts(requests), r, |st.blocks|);
  }

  /** Nothing is tracked at first, and every block is free. */
  lemma {:induction false} InitiallyPooled(c: Config, free: seq<nat>, owner: map<nat, Owner>)
    requires |free| == c.numBlocks
    requires forall i | 0 <= i < |free| :: free[i] == c.numBlocks - 1 - i
    requires forall b :: b in owner <==> 0 <= b < c.numBlocks
    requires forall b | b in owner :: owner[b] == Free(c.numBlocks - 1 - b)
    ensures Pooled(c, free, map[], owner)
  {
    SumEmpty<nat>();
    assert BlockCounts(map[]) == map[];
  }

  /** Windowed pools: the number of rings a pool can hold is exact. */
  lemma {:induction false} RingAccounting(c: Config, free: seq<nat>, requests: Requests, owner: map<nat, Owner>,
                                          ring: nat)
    requires Pooled(c, free, requests, owner)
    requires forall r | r in requests :: |requests[r].blocks| == ring
    ensures |free| + |requests| * ring == c.numBlocks
  {
    hide Partitioned;
    SumConstant(BlockCounts(requests), ring);
    assert BlockCounts(requests).Keys == requests.Keys;
    assert |BlockCounts(requests)| == |BlockCounts(requests).Keys|;
    assert |requests| == |requests.Keys|;
  }

  lemma {:induction false} SumConstant(m: map<nat, nat>, v: nat)
    requires forall k | k in m :: m[k] == v
    ensures Sum(m) == |m| * v
    decreases |m|
  {
    if m == map[] {
      SumEmpty<nat>();
    } else {
      hide Sum;
      var k :| k in m;
      SumRemove(m, k);
      SumConstant(m - {k}, v);
      MulSucc(|m| - 1, v);
    }
  }

  // ----- tracked requests

  ghost predicate Tracked(c: Config, st: RequestState, cells: Cells, h: History)
    requires ValidConfig(c)
  {
    Shaped(c, st) && HoldsWindow(c, st, cells, h)
  }

  ghost predicate AllTracked(c: Config, requests: Requests, cells: Cells, history: map<nat, History>)
    requires ValidConfig(c)
  {
    && history.Keys == requests.Keys
    && forall r | r in requests :: Tracked(c, requests[r], cells, history[r])
  }

  /** A request that joins with nothing cached yet has an empty window. */
  lemma {:induction false} JoinTracked(c: Config, st: RequestState, cells: Cells)
    requires ValidConfig(c) && Shaped(c, st) && st.cached == st.contextStart
    ensures Tracked(c, st, cells, map[])
  {}

  lemma {:induction false} UpdateTracked(c: Config, requests: Requests, cells: Cells, history: map<nat, History>,
                                         r: nat, st: RequestState, h: History)
    requires ValidConfig(c) && AllTracked(c, requests, cells, history) && Tracked(c, st, cells, h)
    ensures AllTracked(c, requests[r := st], cells, history[r := h])
  {
    hide Tracked;
  }

  lemma {:induction false} RemoveTracked(c: Config, requests: Requests, cells: Cells, history: map<nat, History>,
                                         r: nat)
    requires ValidConfig(c) && AllTracked(c, requests, cells, history)
    ensures AllTracked(c, requests - {r}, cells, history - {r})
  {
    hide Tracked;
  }

  /** Growing a block list keeps the request tracked. */
  lemma {:induction false} GrowTracked(c: Config, st: RequestState, more: seq<nat>, cells: Cells, h: History)
    requires ValidConfig(c) && Tracked(c, st, cells, h)
    requires c.slidingWindow > 0 ==> more == []
    ensures Tracked(c, st.(blocks := st.blocks + more), cells, h)
  {
    if c.slidingWindow > 0 {
      assert st.blocks + more == st.blocks;
    } else {
      GrowthKeepsWindow(c, st, more, cells, h);
      MulLe(|st.blocks|, |st.blocks + more|, c.pagedBlockSize);
    }
  }

  // ----- checkpoints

  /** A copy of a request's ring, block by block. */
  function CopyBlock(cells: Cells, b: nat, rows: seq<Kv>): Cells {
    if rows == [] then cells else CopyBlock(cells, b, rows[..|rows| - 1])[Cell(b, |rows| - 1) := rows[|rows| - 1]]
  }

  function CopyBlocks(cells: Cells, blocks: seq<nat>, data: seq<seq<Kv>>, n: nat): Cells
    requires n <= |blocks| && n <= |data|
  {
    if n == 0 then cells else CopyBlock(CopyBlocks(cells, blocks, data, n - 1), blocks[n - 1], data[n - 1])
  }

  lemma {:induction false} CopyBlockAt(cells: Cells, b: nat, rows: seq<Kv>, c: Cell)
    ensures At(CopyBlock(cells, b, rows), c) == if c.block == b
            && c.offset < |rows| then rows[c.offset] else At(cells, c)
  {
    if rows != [] { CopyBlockAt(cells, b, rows[..|rows| - 1], c); }
  }

  lemma {:induction false} CopyBlocksElsewhere(cells: Cells, blocks: seq<nat>, data: seq<seq<Kv>>, n: nat, c: Cell)
    requires n <= |blocks| && n <= |data| && c.block !in blocks
    ensures At(CopyBlocks(cells, blocks, data, n), c) == At(cells, c)
  {
    if 0 < n {
      hide CopyBlock;
      CopyBlocksElsewhere(cells, blocks, data, n - 1, c);
      CopyBlockAt(CopyBlocks(cells, blocks, data, n - 1), blocks[n - 1], data[n - 1], c);
    }
  }

  lemma {:induction false} CopyBlocksAt(cells: Cells, blocks: seq<nat>, data: seq<seq<Kv>>, n: nat, i: nat, offset: nat)
    requires i < n <= |blocks| && n <= |data| && Distinct(blocks) && offset < |data[i]|
    ensures At(CopyBlocks(cells, blocks, data, n), Cell(blocks[i], offset)) == data[i][offset]
  {
    hide CopyBlock;
    CopyBlockAt(CopyBlocks(cells, blocks, data, n - 1), blocks[n - 1], data[n - 1], Cell(blocks[i], offset));
    if i < n - 1 { CopyBlocksAt(cells, blocks, data, n - 1, i, offset); }
  }

  ghost predicate FullBlocks(data: seq<seq<Kv>>, paged: nat) {
    forall i | 0 <= i < |data| :: |data[i]| == paged
  }

  /** What a checkpoint holds for a position. */
  function SavedRow(data: seq<seq<Kv>>, paged: nat, p: nat): Kv
    requires 0 < paged && data != [] && FullBlocks(data, paged)
  {
    data[p / paged % |data|][p % paged]
  }

  /** A restored request reads from its own blocks what the saved ring holds, for every position of the window. */
  lemma {:induction false} RestoredTracked(c: Config, cells: Cells, blocks: seq<nat>, data: seq<seq<Kv>>, n: nat,
                                           h: History)
    requires ValidConfig(c) && c.slidingWindow > 0 && Distinct(blocks)
    requires |blocks| == |data| == RingBlocks(c) && data != [] && FullBlocks(data, c.pagedBlockSize)
    requires forall p | 0 <= p < n <= p + ContextWindow(c) :: p in h && SavedRow(data, c.pagedBlockSize, p) == h[p]
    ensures Tracked(c, RequestState(blocks, n, 0), CopyBlocks(cells, blocks, data, |data|), h)
  {
    hide CopyBlocks, Distinct;
    var st, cells' := RequestState(blocks, n, 0), CopyBlocks(cells, blocks, data, |data|);
    forall p | WindowStart(c, st) <= p < n ensures HoldsAt(c.pagedBlockSize, blocks, cells', h, p) {
      assert SavedRow(data, c.pagedBlockSize, p) == h[p];
      CopyBlocksAt(cells, blocks, data, |data|, p / c.pagedBlockSize % |data|, p % c.pagedBlockSize);
    }
  }

  /** The other requests do not notice. */
  lemma {:induction false} RestoreKeepsTracked(c: Config, st: RequestState, cells: Cells, h: History, blocks: seq<nat>,
                                               data: seq<seq<Kv>>)
    requires ValidConfig(c) && Tracked(c, st, cells, h) && |blocks| == |data| && Disjoint(st.blocks, blocks)
    ensures Tracked(c, st, CopyBlocks(cells, blocks, data, |data|), h)
  {
    hide CopyBlocks, CellOf;
    forall p | WindowStart(c, st) <= p < st.cached
      ensures HoldsAt(c.pagedBlockSize, st.blocks, CopyBlocks(cells, blocks, data, |data|), h, p)
    {
      assert HoldsAt(c.pagedBlockSize, st.blocks, cells, h, p);
      CellInBlocks(st.blocks, c.pagedBlockSize, p);
      CopyBlocksElsewhere(cells, blocks, data, |data|, CellOf(st.blocks, c.pagedBlockSize, p));
    }
  }

  // ----- sufficiency of a full-attention pool

  /** Blocks the committed context of each request needs. */
  ghost function ContextBlocks(c: Config, committed: map<nat, nat>): map<nat, nat>
    requires ValidConfig(c)
  {
    map r | r in committed :: CeilDiv(committed[r], c.pagedBlockSize)
  }

  /** Each request holds at most its committed context plus one query-block spill. */
  ghost predicate WithinBudget(c: Config, requests: Requests, committed: map<nat, nat>)
    requires ValidConfig(c)
  {
    && committed.Keys == requests.Keys
    && forall r | r in requests :: |requests[r].blocks| <= CeilDiv(committed[r], c.pagedBlockSize) + SpillBlocks(c)
  }

  /** When the pool is empty although a request still needs a block, the committed context of the
      tracked requests does not fit the target's blocks. */
  lemma {:induction false} ExhaustedMeansOvercommitted(c: Config, requests: Requests, owner: map<nat, Owner>,
                                                       committed: map<nat, nat>, r: nat, target: nat)
    requires ValidConfig(c) && Pooled(c, [], requests, owner) && |requests| <= c.maxRequests
    requires WithinBudget(c, requests, committed)
    requires r in requests && |requests[r].blocks| < CeilDiv(committed[r], c.pagedBlockSize) + SpillBlocks(c)
    requires c.numBlocks == FullAttentionPoolBlocks(c, target, c.maxRequests)
    ensures Sum(ContextBlocks(c, committed)) > target
  {
    hide Partitioned, Sum, CeilDiv, SpillBlocks, FullAttentionPoolBlocks;
    var bound := |requests| * SpillBlocks(c);
    OneBelowBudget(c, requests, committed, r, bound);
    OverTarget(c, target, Sum(ContextBlocks(c, committed)), |requests|);
  }

  lemma {:induction false} OneBelowBudget(c: Config, requests: Requests, committed: map<nat, nat>, r: nat, bound: nat)
    requires ValidConfig(c) && WithinBudget(c, requests, committed)
    requires r in requests && |requests[r].blocks| < CeilDiv(committed[r], c.pagedBlockSize) + SpillBlocks(c)
    requires bound == |requests| * SpillBlocks(c)
    ensures Sum(BlockCounts(requests)) + 1 <= Sum(ContextBlocks(c, committed)) + bound
  {
    hide Sum, CeilDiv, SpillBlocks;
    var counts: map<nat, nat>, need: map<nat, nat> := BlockCounts(requests), ContextBlocks(c, committed);
    var counts': map<nat, nat> := counts[r := counts[r] + 1];
    SumUpdate(counts, r, counts[r] + 1);
    SameSize(counts', requests);
    BoundedBy(counts', need, SpillBlocks(c), |requests|, bound);
  }

  lemma {:induction false} BoundedBy(m: map<nat, nat>, m': map<nat, nat>, slack: nat, n: nat, bound: nat)
    requires m.Keys == m'.Keys && |m| == n && bound == n * slack
    requires forall k | k in m :: m[k] <= m'[k] + slack
    ensures Sum(m) <= Sum(m') + bound
  {
    SumBounded(m, m', slack);
  }

  lemma {:induction false} SameSize<A, B, C>(m: map<A, B>, m': map<A, C>)
    requires m.Keys == m'.Keys
    ensures |m| == |m'|
  {
    assert |m| == |m.Keys| && |m'| == |m'.Keys|;
  }

  lemma {:induction false} OverTarget(c: Config, target: nat, need: nat, n: nat)
    requires ValidConfig(c) && c.numBlocks == FullAttentionPoolBlocks(c, target, c.maxRequests)
    requires n <= c.maxRequests && c.numBlocks + 1 <= need + n * SpillBlocks(c)
    ensures need > target
  {
    MulLe(n, c.maxRequests, SpillBlocks(c));
  }
}
