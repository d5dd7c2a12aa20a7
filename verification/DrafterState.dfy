/**
 The block-drafter's host-side state: its geometry, the ownership of the paged cache blocks, and the
 cells a request's positions occupy.
 */
module DrafterState {
  import opened Arithmetic
  import opened Pigeonhole

  // ----- geometry

  /** A sliding window of zero means full attention. */
  datatype Config = Config(
    pagedBlockSize: nat,
    numBlocks: nat,
    maxRequests: nat,
    blockSize: nat,
    slidingWindow: nat,
    isDspark: bool)

  ghost predicate ValidConfig(c: Config) {
    0 < c.pagedBlockSize && 0 < c.numBlocks && 0 < c.maxRequests && 0 < c.blockSize
  }

  function CeilDiv(a: nat, b: nat): nat
    requires 0 < b
  {
    (a + b - 1) / b
  }

  /** Committed positions the drafter keeps behind a query block; zero when it keeps all of them. */
  function ContextWindow(c: Config): nat {
    if c.slidingWindow > 0 then c.slidingWindow + c.blockSize else 0
  }

  function RingBlocks(c: Config): nat
    requires ValidConfig(c)
  {
    if c.slidingWindow > 0 then CeilDiv(ContextWindow(c) + c.blockSize, c.pagedBlockSize) + 1 else 0
  }

  /** At most this many blocks more than its context are needed for a request's query block. */
  function SpillBlocks(c: Config): nat
    requires ValidConfig(c)
  {
    (c.blockSize - 1) / c.pagedBlockSize + 1
  }

  /** Blocks needed for a windowed pool of maxBatchSize requests. */
  function PoolBlocks(c: Config, maxBatchSize: nat): nat
    requires ValidConfig(c)
  {
    if c.slidingWindow == 0 then 0
    else
      var positions := c.slidingWindow + 2 * c.blockSize;
      var rounded := positions / c.pagedBlockSize + if positions % c.pagedBlockSize != 0 then 1 else 0;
      (if maxBatchSize < 1 then 1 else maxBatchSize) * (rounded + 1)
  }

  function FullAttentionPoolBlocks(c: Config, targetBlocks: nat, maxBatchSize: nat): nat
    requires ValidConfig(c)
  {
    targetBlocks + maxBatchSize * ((c.blockSize - 1) / c.pagedBlockSize + 1)
  }

  lemma {:induction false} DivBounds(a: nat, b: nat)
    requires 0 < b
    ensures a / b * b <= a < a / b * b + b
  {}

  /** The pool is sized with exactly the ring the drafter uses, one per request. */
  lemma {:induction false} PoolHoldsRings(c: Config, maxBatchSize: nat)
    requires ValidConfig(c) && 0 < c.slidingWindow
    ensures PoolBlocks(c, maxBatchSize) == (if maxBatchSize < 1 then 1 else maxBatchSize) * RingBlocks(c)
  {
    var p, b := c.slidingWindow + 2 * c.blockSize, c.pagedBlockSize;
    CeilDivByRemainder(p, b);
  }

  lemma {:induction false} CeilDivByRemainder(p: nat, b: nat)
    requires 0 < b
    ensures p / b + (if p % b != 0 then 1 else 0) == CeilDiv(p, b)
  {
    DivBounds(p, b);
    var q := p / b;
    assert p == q * b + p % b;
    if p % b == 0 {
      DivUnique(p + b - 1, b, q, p + b - 1 - q * b);
    } else {
      assert (q + 1) * b == q * b + b;
      DivUnique(p + b - 1, b, q + 1, p + b - 1 - (q + 1) * b);
    }
  }

  lemma {:induction false} CeilDivCovers(a: nat, b: nat)
    requires 0 < b
    ensures a <= CeilDiv(a, b) * b < a + b
  {
    DivBounds(a + b - 1, b);
  }

  /** A ring covers the window, the query block and one more block. */
  lemma {:induction false} RingCovers(c: Config)
    requires ValidConfig(c) && 0 < c.slidingWindow
    ensures ContextWindow(c) + c.blockSize + c.pagedBlockSize <= RingBlocks(c) * c.pagedBlockSize
  {
    var n, b := ContextWindow(c) + c.blockSize, c.pagedBlockSize;
    CeilDivCovers(n, b);
    assert (CeilDiv(n, b) + 1) * b == CeilDiv(n, b) * b + b;
  }

  /** Blocks for a context plus a query block exceed those for the context by at most the spill. */
  lemma {:induction false} SpillSuffices(c: Config, context: nat)
    requires ValidConfig(c)
    ensures CeilDiv(context + c.blockSize, c.pagedBlockSize) <= CeilDiv(context, c.pagedBlockSize) + SpillBlocks(c)
  {
    var b, q := c.pagedBlockSize, c.blockSize;
    var x, y := CeilDiv(context, b), SpillBlocks(c);
    hide CeilDiv;
    CeilDivCovers(context, b);
    SpillCovers(c);
    Products(x, y, b);
    CeilDivLeast(context + q, b, x + y);
  }

  lemma {:induction false} SpillCovers(c: Config)
    requires ValidConfig(c)
    ensures c.blockSize <= SpillBlocks(c) * c.pagedBlockSize
  {
    DivBounds(c.blockSize - 1, c.pagedBlockSize);
    MulSucc((c.blockSize - 1) / c.pagedBlockSize, c.pagedBlockSize);
  }

  lemma {:induction false} CeilDivLeast(a: nat, b: nat, n: nat)
    requires 0 < b && a <= n * b
    ensures CeilDiv(a, b) <= n
  {
    CeilDivCovers(a, b);
    var d := CeilDiv(a, b);
    if n < d { MulLess(n, d, b); }
  }

  lemma {:induction false} CeilDivMonotone(a: nat, a': nat, b: nat)
    requires 0 < b && a <= a'
    ensures CeilDiv(a, b) <= CeilDiv(a', b)
  {
    CeilDivCovers(a', b);
    CeilDivLeast(a, b, CeilDiv(a', b));
  }

  // ----- requests and block ownership

  datatype RequestState = RequestState(blocks: seq<nat>, cached: nat, contextStart: nat)

  type Requests = map<nat, RequestState>

  /** Where a block is: at an index of the free list, or of some request's list. */
  datatype Owner = Free(index: nat) | Held(request: nat, index: nat)

  ghost predicate FreeOwned(free: seq<nat>, owner: map<nat, Owner>) {
    forall i | 0 <= i < |free| :: free[i] in owner && owner[free[i]] == Free(i)
  }

  ghost predicate BlocksOwned(blocks: seq<nat>, r: nat, owner: map<nat, Owner>) {
    forall i | 0 <= i < |blocks| :: blocks[i] in owner && owner[blocks[i]] == Held(r, i)
  }

  ghost predicate Located(b: nat, o: Owner, free: seq<nat>, requests: Requests) {
    match o
    case Free(i) => i < |free| && free[i] == b
    case Held(r, i) => r in requests && i < |requests[r].blocks| && requests[r].blocks[i] == b
  }

  /** owner inverts the free list and all block lists, over exactly the blocks of the pool. */
  ghost predicate Partitioned(n: nat, free: seq<nat>, requests: Requests, owner: map<nat, Owner>) {
    && (forall b :: b in owner <==> 0 <= b < n)
    && FreeOwned(free, owner)
    && (forall r | r in requests :: BlocksOwned(requests[r].blocks, r, owner))
    && (forall b | b in owner :: Located(b, owner[b], free, requests))
  }

  /** The free list and the requests' block lists partition the blocks 0 .. n - 1. */
  lemma {:induction false} PartitionMeaning(n: nat, free: seq<nat>, requests: Requests, owner: map<nat, Owner>)
    requires Partitioned(n, free, requests, owner)
    ensures Distinct(free) && forall b | b in free :: b < n
    ensures forall r | r in requests :: Distinct(requests[r].blocks) && forall b | b in requests[r].blocks ::
              b < n && b !in free
    ensures forall r, r' | r in requests && r' in requests && r != r' ::
              forall b | b in requests[r].blocks :: b !in requests[r'].blocks
    ensures forall b | 0 <= b < n :: b in free || exists r :: r in requests && b in requests[r].blocks
  {
    forall b | 0 <= b < n ensures b in free || exists r :: r in requests && b in requests[r].blocks {
      assert Located(b, owner[b], free, requests);
    }
  }

  /** A free block becomes the last block of a request. */
  lemma {:induction false} TakeOwned(n: nat, free: seq<nat>, requests: Requests, owner: map<nat, Owner>, r: nat)
    requires Partitioned(n, free, requests, owner) && free != [] && r in requests
    ensures var b := free[|free| - 1]; var st := requests[r];
            Partitioned(n, free[..|free| - 1], requests[r := st.(blocks := st.blocks + [b])],
                        owner[b := Held(r, |st.blocks|)])
  {
    var b, st := free[|free| - 1], requests[r];
    var requests' := requests[r := st.(blocks := st.blocks + [b])];
    var owner' := owner[b := Held(r, |st.blocks|)];
    assert owner[b] == Free(|free| - 1);
    forall q | q in requests' ensures BlocksOwned(requests'[q].blocks, q, owner') {
      assert BlocksOwned(requests[q].blocks, q, owner);
    }
    forall x | x in owner' ensures Located(x, owner'[x], free[..|free| - 1], requests') {
      assert Located(x, owner[x], free, requests);
    }
  }

  ghost function GiveBack(owner: map<nat, Owner>, r: nat, at: nat): map<nat, Owner> {
    map b | b in owner :: if owner[b].Held? && owner[b].request == r then Free(at + owner[b].index) else owner[b]
  }

  /** A request's blocks return to the end of the free list. */
  lemma {:induction false} ReleaseOwned(n: nat, free: seq<nat>, requests: Requests, owner: map<nat, Owner>, r: nat)
    requires Partitioned(n, free, requests, owner) && r in requests
    ensures Partitioned(n, free + requests[r].blocks, requests - {r}, GiveBack(owner, r, |free|))
  {
    var owner', free' := GiveBack(owner, r, |free|), free + requests[r].blocks;
    assert BlocksOwned(requests[r].blocks, r, owner);
    forall q | q in requests - {r} ensures BlocksOwned(requests[q].blocks, q, owner') {
      assert BlocksOwned(requests[q].blocks, q, owner);
    }
    forall x | x in owner' ensures Located(x, owner'[x], free', requests - {r}) {
      assert Located(x, owner[x], free, requests);
    }
  }

  ghost function TakeLast(owner: map<nat, Owner>, r: nat, from: nat): map<nat, Owner> {
    map b | b in owner :: if owner[b].Free? && from <= owner[b].index then Held(r, owner[b].index - from) else owner[b]
  }

  lemma {:induction false} RestoredBlocksOwned(free: seq<nat>, owner: map<nat, Owner>, r: nat, m: nat)
    requires FreeOwned(free, owner) && m <= |free|
    ensures BlocksOwned(free[m..], r, TakeLast(owner, r, m))
    ensures FreeOwned(free[..m], TakeLast(owner, r, m))
  {
    forall i | m <= i < |free| ensures free[i] in owner && owner[free[i]] == Free(i) {}
  }

  lemma {:induction false} RestoredLocated(b: nat, free: seq<nat>, requests: Requests, owner: map<nat, Owner>, r: nat,
                                           m: nat, st: RequestState)
    requires b in owner && Located(b, owner[b], free, requests) && r !in requests && m <= |free|
    requires st.blocks == free[m..]
    ensures Located(b, TakeLast(owner, r, m)[b], free[..m], requests[r := st])
  {}

  /** The last k free blocks become a new request's list, in order. */
  lemma {:induction false} RestoreOwned(n: nat, free: seq<nat>, requests: Requests, owner: map<nat, Owner>, r: nat,
                                        k: nat, st: RequestState)
    requires Partitioned(n, free, requests, owner) && r !in requests && k <= |free|
    requires st.blocks == free[|free| - k..]
    ensures Partitioned(n, free[..|free| - k], requests[r := st], TakeLast(owner, r, |free| - k))
  {
    hide FreeOwned, Located;
    var m := |free| - k;
    var owner', requests' := TakeLast(owner, r, m), requests[r := st];
    RestoredBlocksOwned(free, owner, r, m);
    forall q | q in requests ensures BlocksOwned(requests[q].blocks, q, owner') {
      assert BlocksOwned(requests[q].blocks, q, owner);
    }
    forall x | x in owner' ensures Located(x, owner'[x], free[..m], requests') {
      RestoredLocated(x, free, requests, owner, r, m, st);
    }
  }

  /** Ownership depends only on the block lists. */
  lemma {:induction false} SameBlocksOwned(n: nat, free: seq<nat>, requests: Requests, requests': Requests,
                                           owner: map<nat, Owner>)
    requires Partitioned(n, free, requests, owner)
    requires forall r | r in requests :: r in requests' && requests'[r].blocks == requests[r].blocks
    requires forall r | r in requests' :: r in requests || requests'[r].blocks == []
    ensures Partitioned(n, free, requests', owner)
  {
    forall r | r in requests' ensures BlocksOwned(requests'[r].blocks, r, owner) {
      if r in requests { assert BlocksOwned(requests[r].blocks, r, owner); }
    }
    forall x | x in owner ensures Located(x, owner[x], free, requests') {
      assert Located(x, owner[x], free, requests);
    }
  }

  // ----- cells

  /** One position's K/V slot in the paged cache. */
  datatype Cell = Cell(block: nat, offset: nat)

  /** K/V of a context row, made from one auxiliary row of the target, or of a query row. */
  datatype Kv = Blank | Context(aux: int) | Query(row: nat)

  type Cells = map<Cell, Kv>

  function At(cells: Cells, c: Cell): Kv {
    if c in cells then cells[c] else Blank
  }

  /** The cell of a position: the block list repeats across every column of the block table. */
  function CellOf(blocks: seq<nat>, blockSize: nat, p: nat): Cell
    requires 0 < blockSize && blocks != []
  {
    Cell(blocks[p / blockSize % |blocks|], p % blockSize)
  }

  lemma {:induction false} ModStep(a: nat, b: nat, n: nat)
    requires 0 < n && a < b && a % n == b % n
    ensures a + n <= b
  {
    DivBounds(a, n);
    DivBounds(b, n);
    var x, y := a / n, b / n;
    assert a == x * n + a % n && b == y * n + b % n;
    if y <= x { if y < x { MulLess(y, x, n); } } else { MulLess(x, y, n); }
  }

  /** Positions closer together than the ring is long never share a cell. */
  lemma {:induction false} RingInjective(blocks: seq<nat>, blockSize: nat, p: nat, q: nat)
    requires 0 < blockSize && blocks != [] && Distinct(blocks)
    requires p < q < p + |blocks| * blockSize
    ensures CellOf(blocks, blockSize, p) != CellOf(blocks, blockSize, q)
  {
    if CellOf(blocks, blockSize, p) == CellOf(blocks, blockSize, q) {
      var x, y, n := p / blockSize, q / blockSize, |blocks|;
      assert x % n == y % n;
      assert p == x * blockSize + p % blockSize && q == y * blockSize + q % blockSize;
      assert (x + n) * blockSize == x * blockSize + n * blockSize;
      if x < y {
        ModStep(x, y, n);
        MulLe(x + n, y, blockSize);
      } else {
        MulLe(y, x, blockSize);
      }
      assert false;
    }
  }

  lemma {:induction false} DivLess(p: nat, n: nat, b: nat)
    requires 0 < b && p < n * b
    ensures p / b < n
  {
    DivBounds(p, b);
    if n <= p / b { MulLe(n, p / b, b); }
  }

  lemma {:induction false} SmallMod(a: nat, n: nat)
    requires a < n
    ensures a % n == a
  {}

  /** A position inside the first blocks keeps its cell when the list grows. */
  lemma {:induction false} GrowthKeepsCell(blocks: seq<nat>, more: seq<nat>, blockSize: nat, p: nat)
    requires 0 < blockSize && p < |blocks| * blockSize
    ensures blocks != [] && CellOf(blocks + more, blockSize, p) == CellOf(blocks, blockSize, p)
  {
    var x := p / blockSize;
    DivLess(p, |blocks|, blockSize);
    SmallMod(x, |blocks|);
    SmallMod(x, |blocks + more|);
    assert (blocks + more)[x] == blocks[x];
  }
}
