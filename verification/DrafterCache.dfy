/**
 What one drafter run does to the paged cache: every packed row's K/V is written to the cell its block
 table names. A request's window of committed positions survives the writes of any batch.
 */
module DrafterCache {
  import opened Pigeonhole
  import opened DrafterLayout
  import opened DrafterState

  /** A served request's block list and its part of the batch. */
  datatype Entry = Entry(request: nat, blocks: seq<nat>, share: Share)

  function SharesOf(es: seq<Entry>): (shares: seq<Share>)
    ensures |shares| == |es| && forall i | 0 <= i < |es| :: shares[i] == es[i].share
  {
    if es == [] then [] else SharesOf(es[..|es| - 1]) + [es[|es| - 1].share]
  }

  datatype Write = Write(cell: Cell, kv: Kv)

  function Apply(cells: Cells, ws: seq<Write>): Cells {
    if ws == [] then cells
    else
      var w := ws[|ws| - 1];
      Apply(cells, ws[..|ws| - 1])[w.cell := w.kv]
  }

  ghost predicate Untouched(ws: seq<Write>, c: Cell) {
    forall r | 0 <= r < |ws| :: ws[r].cell != c
  }

  ghost predicate DistinctCells(ws: seq<Write>) {
    forall r, r' | 0 <= r < r' < |ws| :: ws[r].cell != ws[r'].cell
  }

  lemma {:induction false} ApplyUntouched(cells: Cells, ws: seq<Write>, c: Cell)
    requires Untouched(ws, c)
    ensures At(Apply(cells, ws), c) == At(cells, c)
  {
    if ws != [] { ApplyUntouched(cells, ws[..|ws| - 1], c); }
  }

  /** With distinct cells the order of the writes does not matter: every one of them survives. */
  lemma {:induction false} ApplyWritten(cells: Cells, ws: seq<Write>, r: nat)
    requires r < |ws| && DistinctCells(ws)
    ensures At(Apply(cells, ws), ws[r].cell) == ws[r].kv
  {
    if r < |ws| - 1 { ApplyWritten(cells, ws[..|ws| - 1], r); }
  }

  // ----- the writes of a batch

  /** The row of entry i at offset r - Rows(i) goes to the cell of its position. */
  ghost predicate WritesOf(ws: seq<Write>, kvs: seq<Kv>, es: seq<Entry>, i: nat, paged: nat, blockSize: nat)
    requires i < |es| && 0 < paged
  {
    var shares := SharesOf(es);
    var base := Rows(shares, blockSize, i);
    && es[i].blocks != []
    && base + ShareRows(es[i].share, blockSize) <= |ws| <= |kvs|
    && forall r | base <= r < base + ShareRows(es[i].share, blockSize) ::
         ws[r] == Write(CellOf(es[i].blocks, paged, es[i].share.first + (r - base)), kvs[r])
  }

  ghost predicate IsWrites(ws: seq<Write>, kvs: seq<Kv>, es: seq<Entry>, n: nat, paged: nat, blockSize: nat)
    requires n <= |es| && 0 < paged
  {
    && |ws| == Rows(SharesOf(es), blockSize, n) <= |kvs|
    && forall i | 0 <= i < n :: WritesOf(ws, kvs, es, i, paged, blockSize)
  }

  /** Rows of one request never wrap onto each other, and no two requests share a block. */
  ghost predicate Addressable(es: seq<Entry>, paged: nat, blockSize: nat) {
    && (forall i | 0 <= i < |es| ::
          && es[i].blocks != [] && Distinct(es[i].blocks)
          && ShareRows(es[i].share, blockSize) <= |es[i].blocks| * paged)
    && (forall i, j | 0 <= i < j < |es| :: Disjoint(es[i].blocks, es[j].blocks))
  }

  ghost predicate Disjoint(a: seq<nat>, b: seq<nat>) {
    forall x | x in a :: x !in b
  }

  lemma {:induction false} FindShare(shares: seq<Share>, blockSize: nat, n: nat, r: nat) returns (i: nat)
    requires n <= |shares| && r < Rows(shares, blockSize, n)
    ensures i < n && Rows(shares, blockSize, i) <= r < Rows(shares, blockSize, i) + ShareRows(shares[i], blockSize)
  {
    if r < Rows(shares, blockSize, n - 1) {
      i := FindShare(shares, blockSize, n - 1, r);
    } else {
      i := n - 1;
    }
  }

  lemma {:induction false} CellInBlocks(blocks: seq<nat>, paged: nat, p: nat)
    requires 0 < paged && blocks != []
    ensures CellOf(blocks, paged, p).block in blocks
  {}

  lemma {:induction false} BatchWritesDistinct(ws: seq<Write>, kvs: seq<Kv>, es: seq<Entry>, paged: nat, blockSize: nat)
    requires 0 < paged && IsWrites(ws, kvs, es, |es|, paged, blockSize) && Addressable(es, paged, blockSize)
    ensures DistinctCells(ws)
  {
    hide Rows, CellOf, Distinct, ShareRows;
    forall r, r' | 0 <= r < r' < |ws| ensures ws[r].cell != ws[r'].cell {
      RowsDistinct(ws, kvs, es, paged, blockSize, r, r');
    }
  }

  lemma {:induction false} RowsDistinct(ws: seq<Write>, kvs: seq<Kv>, es: seq<Entry>, paged: nat, blockSize: nat,
                                        r: nat, r': nat)
    requires 0 < paged && IsWrites(ws, kvs, es, |es|, paged, blockSize) && Addressable(es, paged, blockSize)
    requires r < r' < |ws|
    ensures ws[r].cell != ws[r'].cell
  {
    hide Rows, CellOf, Distinct, ShareRows;
    var shares := SharesOf(es);
    var i := FindShare(shares, blockSize, |es|, r);
    var j := FindShare(shares, blockSize, |es|, r');
    assert WritesOf(ws, kvs, es, i, paged, blockSize) && WritesOf(ws, kvs, es, j, paged, blockSize);
    var p := es[i].share.first + (r - Rows(shares, blockSize, i));
    var q := es[j].share.first + (r' - Rows(shares, blockSize, j));
    if i == j {
      RingInjective(es[i].blocks, paged, p, q);
    } else {
      CellInBlocks(es[i].blocks, paged, p);
      CellInBlocks(es[j].blocks, paged, q);
    }
  }

  /** A cell of a block that no served request owns is not written. */
  lemma {:induction false} ForeignUntouched(ws: seq<Write>, kvs: seq<Kv>, es: seq<Entry>, paged: nat, blockSize: nat,
                                            c: Cell)
    requires 0 < paged && IsWrites(ws, kvs, es, |es|, paged, blockSize)
    requires forall i | 0 <= i < |es| :: c.block !in es[i].blocks
    ensures Untouched(ws, c)
  {
    hide Rows, CellOf, ShareRows;
    forall r | 0 <= r < |ws| ensures ws[r].cell != c {
      var i := FindShare(SharesOf(es), blockSize, |es|, r);
      assert WritesOf(ws, kvs, es, i, paged, blockSize);
      CellInBlocks(es[i].blocks, paged, es[i].share.first + (r - Rows(SharesOf(es), blockSize, i)));
    }
  }

  /** A request's own older position is not written while the ring is long enough. */
  lemma {:induction false} OlderUntouched(ws: seq<Write>, kvs: seq<Kv>, es: seq<Entry>, paged: nat, blockSize: nat,
                                          i: nat, p: nat)
    requires 0 < paged && IsWrites(ws, kvs, es, |es|, paged, blockSize) && Addressable(es, paged, blockSize)
    requires i < |es| && p < es[i].share.first
    requires es[i].share.first + ShareRows(es[i].share, blockSize) <= p + |es[i].blocks| * paged
    ensures Untouched(ws, CellOf(es[i].blocks, paged, p))
  {
    hide Rows, CellOf, Distinct, ShareRows;
    var c := CellOf(es[i].blocks, paged, p);
    CellInBlocks(es[i].blocks, paged, p);
    forall r | 0 <= r < |ws| ensures ws[r].cell != c {
      var j := FindShare(SharesOf(es), blockSize, |es|, r);
      assert WritesOf(ws, kvs, es, j, paged, blockSize);
      var q := es[j].share.first + (r - Rows(SharesOf(es), blockSize, j));
      if i == j {
        RingInjective(es[i].blocks, paged, p, q);
      } else {
        CellInBlocks(es[j].blocks, paged, q);
      }
    }
  }

  // ----- the window a request can read

  function WindowStart(c: Config, st: RequestState): nat {
    var w := ContextWindow(c);
    if w != 0 && w + st.contextStart < st.cached then st.cached - w else st.contextStart
  }

  /** History h gives, for each position, the row last ingested for it. */
  type History = map<nat, Kv>

  /** Every committed position of the window is in its cell. */
  ghost predicate HoldsWindow(c: Config, st: RequestState, cells: Cells, h: History)
    requires ValidConfig(c)
  {
    forall p | WindowStart(c, st) <= p < st.cached :: HoldsAt(c.pagedBlockSize, st.blocks, cells, h, p)
  }

  /** The cell of position p holds the row last ingested for it. */
  ghost predicate HoldsAt(paged: nat, blocks: seq<nat>, cells: Cells, h: History, p: nat)
    requires 0 < paged
  {
    blocks != [] && p in h && At(cells, CellOf(blocks, paged, p)) == h[p]
  }

  /** A windowed request owns a whole ring; a full-attention request owns blocks for all it has cached. */
  ghost predicate Shaped(c: Config, st: RequestState)
    requires ValidConfig(c)
  {
    && st.contextStart <= st.cached
    && if c.slidingWindow > 0 then |st.blocks| == RingBlocks(c)
       else st.contextStart == 0 && st.cached <= |st.blocks| * c.pagedBlockSize
  }

  /** The history after rows were ingested for the positions from first on. */
  ghost function Ingest(h: History, first: nat, rows: seq<Kv>): (r: History)
    ensures forall p :: p in r <==> p in h || first <= p < first + |rows|
    ensures forall p | first <= p < first + |rows| :: r[p] == rows[p - first]
    ensures forall p | p in h && !(first <= p < first + |rows|) :: r[p] == h[p]
  {
    if rows == [] then h
    else Ingest(h, first, rows[..|rows| - 1])[first + |rows| - 1 := rows[|rows| - 1]]
  }

  /** A full-attention request keeps its window when its block list grows. */
  lemma {:induction false} GrowthKeepsWindow(c: Config, st: RequestState, more: seq<nat>, cells: Cells, h: History)
    requires ValidConfig(c) && HoldsWindow(c, st, cells, h)
    requires st.cached <= |st.blocks| * c.pagedBlockSize
    ensures HoldsWindow(c, st.(blocks := st.blocks + more), cells, h)
  {
    hide CellOf;
    forall p | WindowStart(c, st) <= p < st.cached
      ensures HoldsAt(c.pagedBlockSize, st.blocks + more, cells, h, p)
    {
      assert HoldsAt(c.pagedBlockSize, st.blocks, cells, h, p);
      GrowthKeepsCell(st.blocks, more, c.pagedBlockSize, p);
    }
  }

  /** The state of a served request after the run. */
  function Committed(st: RequestState, total: nat): RequestState {
    st.(cached := st.cached + total)
  }

  /** Entry i matches its request: it ingests the last rows of the total new positions, all of them
      unless the window is shorter, and its blocks can address all its rows. */
  ghost predicate Matches(c: Config, e: Entry, st: RequestState, total: nat)
    requires ValidConfig(c)
  {
    var w := ContextWindow(c);
    && Shaped(c, st) && e.blocks == st.blocks
    && e.share.count == (if w != 0 && total > w then w else total)
    && e.share.first == st.cached + (total - e.share.count)
    && (c.slidingWindow == 0 ==> e.share.first + ShareRows(e.share, c.blockSize) <= |st.blocks| * c.pagedBlockSize)
  }

  lemma {:induction false} MatchesFits(c: Config, e: Entry, st: RequestState, total: nat, p: nat)
    requires ValidConfig(c) && Matches(c, e, st, total)
    requires ContextWindow(c) == 0 || st.cached + total <= p + ContextWindow(c)
    ensures e.share.first + ShareRows(e.share, c.blockSize) <= p + |e.blocks| * c.pagedBlockSize
    ensures ShareRows(e.share, c.blockSize) <= |e.blocks| * c.pagedBlockSize
  {
    if c.slidingWindow > 0 { RingCovers(c); }
  }

  /** After the run, a served request's window is complete: the old part was not overwritten and the
      new rows are in their cells. */
  lemma {:induction false} ServedKeepsWindow(c: Config, ws: seq<Write>, kvs: seq<Kv>, es: seq<Entry>, i: nat,
                                             st: RequestState, total: nat,
                          cells: Cells, h: History, rows: seq<Kv>)
    requires ValidConfig(c) && i < |es| && Matches(c, es[i], st, total)
    requires IsWrites(ws, kvs, es, |es|, c.pagedBlockSize, c.blockSize)
             && Addressable(es, c.pagedBlockSize, c.blockSize)
    requires DistinctCells(ws)
    requires HoldsWindow(c, st, cells, h)
    requires |rows| == es[i].share.count
    requires var base := Rows(SharesOf(es), c.blockSize, i);
             base + es[i].share.count <= |kvs| && rows == kvs[base..base + es[i].share.count]
    ensures HoldsWindow(c, Committed(st, total), Apply(cells, ws), Ingest(h, es[i].share.first, rows))
  {
    hide CellOf, Rows, Apply, IsWrites, Addressable, DistinctCells, At, Ingest;
    var st', h' := Committed(st, total), Ingest(h, es[i].share.first, rows);
    forall p | WindowStart(c, st') <= p < st'.cached
      ensures HoldsAt(c.pagedBlockSize, st'.blocks, Apply(cells, ws), h', p)
    {
      if p < es[i].share.first {
        OldPosition(c, ws, kvs, es, i, st, total, cells, h, p);
      } else {
        NewPosition(c, ws, kvs, es, i, cells, p);
      }
    }
  }

  lemma {:induction false} NewPosition(c: Config, ws: seq<Write>, kvs: seq<Kv>, es: seq<Entry>, i: nat, cells: Cells,
                                       p: nat)
    requires ValidConfig(c) && i < |es| && DistinctCells(ws)
    requires IsWrites(ws, kvs, es, |es|, c.pagedBlockSize, c.blockSize)
    requires es[i].share.first <= p < es[i].share.first + ShareRows(es[i].share, c.blockSize)
    ensures var r := Rows(SharesOf(es), c.blockSize, i) + (p - es[i].share.first);
            && es[i].blocks != [] && r < |kvs|
            && At(Apply(cells, ws), CellOf(es[i].blocks, c.pagedBlockSize, p)) == kvs[r]
  {
    hide CellOf, Rows, Apply, DistinctCells, At;
    assert WritesOf(ws, kvs, es, i, c.pagedBlockSize, c.blockSize);
    var r := Rows(SharesOf(es), c.blockSize, i) + (p - es[i].share.first);
    assert ws[r] == Write(CellOf(es[i].blocks, c.pagedBlockSize, p), kvs[r]);
    ApplyWritten(cells, ws, r);
  }

  lemma {:induction false} OldPosition(c: Config, ws: seq<Write>, kvs: seq<Kv>, es: seq<Entry>, i: nat,
                                       st: RequestState, total: nat,
                    cells: Cells, h: History, p: nat)
    requires ValidConfig(c) && i < |es| && Matches(c, es[i], st, total)
    requires IsWrites(ws, kvs, es, |es|, c.pagedBlockSize, c.blockSize)
             && Addressable(es, c.pagedBlockSize, c.blockSize)
    requires HoldsWindow(c, st, cells, h)
    requires WindowStart(c, Committed(st, total)) <= p < es[i].share.first
    ensures p < st.cached && HoldsAt(c.pagedBlockSize, st.blocks, Apply(cells, ws), h, p)
  {
    hide CellOf, Rows, Apply, IsWrites, Addressable, At;
    assert WindowStart(c, st) <= p < st.cached;
    assert HoldsAt(c.pagedBlockSize, st.blocks, cells, h, p);
    MatchesFits(c, es[i], st, total, p);
    OlderUntouched(ws, kvs, es, c.pagedBlockSize, c.blockSize, i, p);
    ApplyUntouched(cells, ws, CellOf(st.blocks, c.pagedBlockSize, p));
  }

  /** A request that is not served keeps its window. */
  lemma {:induction false} UnservedKeepsWindow(c: Config, ws: seq<Write>, kvs: seq<Kv>, es: seq<Entry>,
                                               st: RequestState, cells: Cells, h: History)
    requires ValidConfig(c) && HoldsWindow(c, st, cells, h)
    requires IsWrites(ws, kvs, es, |es|, c.pagedBlockSize, c.blockSize)
    requires forall i | 0 <= i < |es| :: Disjoint(st.blocks, es[i].blocks)
    ensures HoldsWindow(c, st, Apply(cells, ws), h)
  {
    hide CellOf, Rows, Apply, IsWrites, At;
    forall p | WindowStart(c, st) <= p < st.cached
      ensures HoldsAt(c.pagedBlockSize, st.blocks, Apply(cells, ws), h, p)
    {
      assert HoldsAt(c.pagedBlockSize, st.blocks, cells, h, p);
      var cell := CellOf(st.blocks, c.pagedBlockSize, p);
      CellInBlocks(st.blocks, c.pagedBlockSize, p);
      ForeignUntouched(ws, kvs, es, c.pagedBlockSize, c.blockSize, cell);
      ApplyUntouched(cells, ws, cell);
    }
  }

  // ----- what a drafting request reads

  function HasContext(c: Config, st: RequestState, end: nat): bool {
    || st.contextStart == 0
    || (ContextWindow(c) != 0 && end >= st.contextStart && end - st.contextStart >= ContextWindow(c))
  }

  /** A query block that begins at end can read position p. */
  ghost predicate Readable(c: Config, end: nat, p: nat) {
    p < end && (c.slidingWindow == 0 || end <= p + c.slidingWindow + c.blockSize)
  }

  /** The request's context holds every position that such a block can read. */
  ghost predicate WholeWindow(c: Config, st: RequestState, end: nat) {
    forall p: nat | Readable(c, end, p) :: st.contextStart <= p
  }

  /** What HasContext decides. A request whose context does not begin at zero is always windowed. */
  lemma {:induction false} HasContextIff(c: Config, st: RequestState, end: nat)
    requires st.contextStart <= end && (c.slidingWindow == 0 ==> st.contextStart == 0)
    ensures HasContext(c, st, end) <==> WholeWindow(c, st, end)
  {
    var w := c.slidingWindow + c.blockSize;
    if 0 < c.slidingWindow && !HasContext(c, st, end) {
      var p := if w <= end then end - w else 0;
      assert Readable(c, end, p) && p < st.contextStart;
    }
  }

  /** A drafting request reads a complete window: each of the last ContextWindow committed positions
      (all of them under full attention) is in its own cell with the row last ingested for it, and
      none of those cells is one the query block occupies. */
  lemma {:induction false} DraftReadsCompleteWindow(c: Config, st: RequestState, cells: Cells, h: History, p: nat,
                                                    q: nat)
    requires ValidConfig(c) && Shaped(c, st) && HoldsWindow(c, st, cells, h)
    requires HasContext(c, st, st.cached) && Distinct(st.blocks)
    requires p < st.cached && (ContextWindow(c) == 0 || st.cached <= p + ContextWindow(c))
    requires p < q < st.cached + c.blockSize
    requires c.slidingWindow == 0 ==> st.cached + c.blockSize <= |st.blocks| * c.pagedBlockSize
    ensures HoldsAt(c.pagedBlockSize, st.blocks, cells, h, p)
    ensures CellOf(st.blocks, c.pagedBlockSize, p) != CellOf(st.blocks, c.pagedBlockSize, q)
  {
    hide CellOf, Distinct;
    assert WindowStart(c, st) <= p;
    if c.slidingWindow > 0 { RingCovers(c); }
    RingInjective(st.blocks, c.pagedBlockSize, p, q);
  }
}
