/**
 The parts of one proposal step that do not touch the pool: planning each request's rows, gathering
 the auxiliary rows, filling the block table, and running the session over the cache.
 */
module DrafterStep {
  import opened Arithmetic
  import opened DrafterLayout
  import opened DrafterState
  import opened DrafterCache

  /** A served feed reduced to what the step needs. */
  datatype Row = Row(request: nat, auxBegin: nat, auxCount: nat, firstPosition: nat)

  // ----- planning

  /** How many of the first rows lie outside any window that will be read. */
  function Dropped(c: Config, row: Row): nat {
    var w := ContextWindow(c);
    if w != 0 && row.auxCount > w then row.auxCount - w else 0
  }

  function ShareOf(c: Config, row: Row, hasBlock: bool): Share {
    Share(row.firstPosition + Dropped(c, row), row.auxCount - Dropped(c, row), hasBlock)
  }

  ghost predicate Planned(c: Config, rows: seq<Row>, shares: seq<Share>) {
    |shares| == |rows| && forall i | 0 <= i < |rows| :: shares[i] == ShareOf(c, rows[i], shares[i].hasBlock)
  }

  method PlanShares(c: Config, rows: seq<Row>, blocks: seq<bool>) returns (shares: seq<Share>)
    requires |blocks| == |rows|
    ensures Planned(c, rows, shares)
    ensures forall i | 0 <= i < |rows| :: shares[i].hasBlock == blocks[i]
  {
    shares := [];
    for i := 0 to |rows|
      invariant |shares| == i
      invariant forall j | 0 <= j < i :: shares[j] == ShareOf(c, rows[j], blocks[j])
    {
      var dropped := 0;
      if ContextWindow(c) != 0 && rows[i].auxCount > ContextWindow(c) {
        dropped := rows[i].auxCount - ContextWindow(c);
      }
      shares := shares + [Share(rows[i].firstPosition + dropped, rows[i].auxCount - dropped, blocks[i])];
    }
  }

  // ----- gathering

  ghost predicate InAux(aux: seq<int>, rows: seq<Row>) {
    forall i | 0 <= i < |rows| :: rows[i].auxBegin + rows[i].auxCount <= |aux|
  }

  /** The packed context rows of request i are the auxiliary rows of its ingested positions. */
  ghost predicate GatheredOne(c: Config, aux: seq<int>, row: Row, packed: seq<int>, base: nat, count: nat)
  {
    && row.auxBegin + row.auxCount <= |aux| && count <= row.auxCount
    && base + count <= |packed|
    && forall x | base <= x < base + count :: packed[x] == aux[row.auxBegin + row.auxCount - count + (x - base)]
  }

  ghost predicate Gathered(c: Config, aux: seq<int>, rows: seq<Row>, shares: seq<Share>, packed: seq<int>, n: nat)
    requires n <= |rows| == |shares|
  {
    forall i | 0 <= i < n :: GatheredOne(c, aux, rows[i], packed, Contexts(shares, i), shares[i].count)
  }

  method GatherAux(c: Config, aux: seq<int>, rows: seq<Row>, shares: seq<Share>) returns (packed: seq<int>)
    requires Planned(c, rows, shares) && InAux(aux, rows)
    ensures |packed| == Contexts(shares, |shares|) && Gathered(c, aux, rows, shares, packed, |rows|)
  {
    hide Gathered, Dropped;
    packed := [];
    GatherNone(c, aux, rows, shares);
    for i := 0 to |rows|
      invariant |packed| == Contexts(shares, i)
      invariant Gathered(c, aux, rows, shares, packed, i)
    {
      ShareInAux(c, aux, rows, shares, i);
      var begin := rows[i].auxBegin + Dropped(c, rows[i]);
      var more := aux[begin..begin + shares[i].count];
      GatherMore(c, aux, rows, shares, packed, more, i);
      packed := packed + more;
    }
  }

  lemma {:induction false} GatherNone(c: Config, aux: seq<int>, rows: seq<Row>, shares: seq<Share>)
    requires |rows| == |shares|
    ensures Gathered(c, aux, rows, shares, [], 0)
  {}

  lemma {:induction false} ShareInAux(c: Config, aux: seq<int>, rows: seq<Row>, shares: seq<Share>, i: nat)
    requires Planned(c, rows, shares) && InAux(aux, rows) && i < |rows|
    ensures rows[i].auxBegin + Dropped(c, rows[i]) + shares[i].count <= |aux|
  {}

  lemma {:induction false} GatherMore(c: Config, aux: seq<int>, rows: seq<Row>, shares: seq<Share>, packed: seq<int>,
                                      more: seq<int>, n: nat)
    requires Planned(c, rows, shares) && InAux(aux, rows) && n < |rows|
    requires |packed| == Contexts(shares, n) && Gathered(c, aux, rows, shares, packed, n)
    requires var begin := rows[n].auxBegin + Dropped(c, rows[n]); more == aux[begin..begin + shares[n].count]
    ensures Gathered(c, aux, rows, shares, packed + more, n + 1)
  {
    hide Contexts;
    forall i | 0 <= i < n + 1 ensures GatheredOne(c, aux, rows[i], packed + more, Contexts(shares, i), shares[i].count)
    {
      if i < n {
        assert GatheredOne(c, aux, rows[i], packed, Contexts(shares, i), shares[i].count);
      }
    }
  }

  // ----- K/V sources

  /** What concat(query rows, context rows) holds at index v. */
  function Source(packed: seq<int>, blockRows: nat, v: nat): Kv {
    if v < blockRows then Query(v) else if v - blockRows < |packed| then Context(packed[v - blockRows]) else Blank
  }

  function Sources(l: Layout, packed: seq<int>, blockRows: nat, n: nat): (kvs: seq<Kv>)
    requires n <= |l.qkvRowMap|
    ensures |kvs| == n && forall r | 0 <= r < n :: kvs[r] == Source(packed, blockRows, l.qkvRowMap[r])
  {
    if n == 0 then [] else Sources(l, packed, blockRows, n - 1) + [Source(packed, blockRows, l.qkvRowMap[n - 1])]
  }

  /** The k-th packed context row of a request carries the auxiliary row of its position: the packed
      layout is a correct gather. */
  lemma {:induction false} ContextRowsAreGathered(c: Config, aux: seq<int>, rows: seq<Row>, shares: seq<Share>,
                                                  packed: seq<int>,
                                                  l: Layout, blockRows: nat, i: nat, k: nat)
    requires Planned(c, rows, shares) && i < |rows| && k < shares[i].count
    requires Gathered(c, aux, rows, shares, packed, |rows|) && Placed(l, shares, c.blockSize, blockRows, i)
    ensures var p := l.past[i] + k; var r := l.cumulative[i] + k;
            && r < |l.qkvRowMap|
            && rows[i].firstPosition <= p < rows[i].firstPosition + rows[i].auxCount
            && rows[i].auxBegin + (p - rows[i].firstPosition) < |aux|
            && Source(packed, blockRows, l.qkvRowMap[r]) == Context(aux[rows[i].auxBegin + (p - rows[i].firstPosition)])
  {
    hide Contexts, Rows, Blocks;
    var base, count := Contexts(shares, i), shares[i].count;
    assert GatheredOne(c, aux, rows[i], packed, base, count);
  }

  // ----- block table

  /** Every position of the entry is addressed by its column. */
  ghost predicate TableRow(row: seq<int>, e: Entry, paged: nat, blockSize: nat)
    requires 0 < paged
  {
    && e.blocks != []
    && forall p | e.share.first <= p < e.share.first + ShareRows(e.share, blockSize) ::
         p / paged < |row| && row[p / paged] == e.blocks[p / paged % |e.blocks|]
  }

  /** A windowed row repeats the ring; a full-attention row lists the blocks and pads with -1. */
  method FillTableRow(blocks: seq<nat>, ring: bool, columns: nat) returns (row: seq<int>)
    requires blocks != []
    ensures |row| == columns
    ensures forall j | 0 <= j < columns :: row[j] == if ring || j < |blocks| then blocks[j % |blocks|] else -1
  {
    row := [];
    for j := 0 to columns
      invariant |row| == j
      invariant forall i | 0 <= i < j :: row[i] == if ring || i < |blocks| then blocks[i % |blocks|] else -1
    {
      if ring {
        row := row + [blocks[j % |blocks|]];
      } else if j < |blocks| {
        SmallMod(j, |blocks|);
        row := row + [blocks[j]];
      } else {
        row := row + [-1];
      }
    }
  }

  /** The columns a request's last position needs. */
  function ColumnsFor(positions: nat, paged: nat): nat
    requires 0 < paged && 0 < positions
  {
    (positions - 1) / paged + 1
  }

  lemma {:induction false} FilledRowAddresses(row: seq<int>, e: Entry, paged: nat, blockSize: nat, ring: bool)
    requires 0 < paged && e.blocks != [] && 0 < ShareRows(e.share, blockSize)
    requires ColumnsFor(e.share.first + ShareRows(e.share, blockSize), paged) <= |row|
    requires forall j | 0 <= j < |row| :: row[j] == if ring || j < |e.blocks| then e.blocks[j % |e.blocks|] else -1
    requires ring || e.share.first + ShareRows(e.share, blockSize) <= |e.blocks| * paged
    ensures TableRow(row, e, paged, blockSize)
  {
    hide ColumnsFor, ShareRows;
    var total := e.share.first + ShareRows(e.share, blockSize);
    forall p | e.share.first <= p < total
      ensures p / paged < |row| && row[p / paged] == e.blocks[p / paged % |e.blocks|]
    {
      ColumnInside(p, total, paged, |row|, |e.blocks|, ring);
      var j: nat := p / paged;
      assert row[j] == e.blocks[j % |e.blocks|];
    }
  }

  lemma {:induction false} ColumnInside(p: nat, total: nat, paged: nat, columns: nat, blocks: nat, ring: bool)
    requires 0 < paged && p < total && ColumnsFor(total, paged) <= columns && (ring || total <= blocks * paged)
    ensures p / paged < columns && (ring || p / paged < blocks)
  {
    DivMonotone(p, total - 1, paged);
    if !ring { DivLess(p, blocks, paged); }
  }

  lemma {:induction false} DivMonotone(a: nat, b: nat, n: nat)
    requires 0 < n && a <= b
    ensures a / n <= b / n
  {
    DivBounds(a, n);
    DivBounds(b, n);
    if b / n < a / n { MulLess(b / n, a / n, n); }
  }

  // ----- running

  ghost predicate TableFor(table: seq<seq<int>>, es: seq<Entry>, paged: nat, blockSize: nat)
    requires 0 < paged
  {
    |table| == |es| && forall i | 0 <= i < |es| :: TableRow(table[i], es[i], paged, blockSize)
  }

  /** Writes the rows of entry i: every one goes to the cell that the block table gives for its position. */
  method RunEntry(cells: Cells, l: Layout, row: seq<int>, packed: seq<int>, blockRows: nat, i: nat, paged: nat,
                  ghost e: Entry, ghost blockSize: nat)
    returns (cells': Cells, ghost ws: seq<Write>)
    requires 0 < paged && i + 1 < |l.cumulative| && i < |l.past|
    requires l.cumulative[i + 1] == l.cumulative[i] + ShareRows(e.share, blockSize) <= |l.qkvRowMap|
    requires l.past[i] == e.share.first && TableRow(row, e, paged, blockSize)
    ensures cells' == Apply(cells, ws) && |ws| == ShareRows(e.share, blockSize) && e.blocks != []
    ensures forall k | 0 <= k < |ws| ::
              ws[k] == Write(CellOf(e.blocks, paged, e.share.first + k),
                Source(packed, blockRows, l.qkvRowMap[l.cumulative[i] + k]))
  {
    hide Apply, CellOf, Source, TableRow, ShareRows;
    HasBlocks(row, e, paged, blockSize);
    cells', ws := cells, [];
    NothingApplied(cells);
    var k := 0;
    while l.cumulative[i] + k < l.cumulative[i + 1]
      invariant k == |ws| <= ShareRows(e.share, blockSize)
      invariant cells' == Apply(cells, ws)
      invariant forall j | 0 <= j < k ::
                  ws[j] == Write(CellOf(e.blocks, paged, e.share.first + j),
                    Source(packed, blockRows, l.qkvRowMap[l.cumulative[i] + j]))
    {
      var p := l.past[i] + k;
      AddressedCell(row, e, paged, blockSize, p);
      var cell := Cell(row[p / paged], p % paged);
      var kv := Source(packed, blockRows, l.qkvRowMap[l.cumulative[i] + k]);
      cells' := cells'[cell := kv];
      ApplySnoc(cells, ws, Write(cell, kv));
      ws := ws + [Write(cell, kv)];
      k := k + 1;
    }
  }

  lemma {:induction false} AddressedCell(row: seq<int>, e: Entry, paged: nat, blockSize: nat, p: nat)
    requires 0 < paged && TableRow(row, e, paged, blockSize)
    requires e.share.first <= p < e.share.first + ShareRows(e.share, blockSize)
    ensures p / paged < |row| && 0 <= row[p / paged]
    ensures Cell(row[p / paged], p % paged) == CellOf(e.blocks, paged, p)
  {}

  lemma {:induction false} HasBlocks(row: seq<int>, e: Entry, paged: nat, blockSize: nat)
    requires 0 < paged && TableRow(row, e, paged, blockSize)
    ensures e.blocks != []
  {}

  lemma {:induction false} NothingApplied(cells: Cells)
    ensures Apply(cells, []) == cells
  {}

  lemma {:induction false} ApplySnoc(cells: Cells, ws: seq<Write>, w: Write)
    ensures Apply(cells, ws + [w]) == Apply(cells, ws)[w.cell := w.kv]
  {
    assert (ws + [w])[..|ws|] == ws;
  }

  lemma {:induction false} ApplyConcat(cells: Cells, ws: seq<Write>, vs: seq<Write>)
    ensures Apply(cells, ws + vs) == Apply(Apply(cells, ws), vs)
  {
    if vs == [] {
      assert ws + vs == ws;
    } else {
      ApplyConcat(cells, ws, vs[..|vs| - 1]);
      assert ws + vs == ws + vs[..|vs| - 1] + [vs[|vs| - 1]];
      ApplySnoc(cells, ws + vs[..|vs| - 1], vs[|vs| - 1]);
    }
  }

  /** The session's effect on the cache, as writes in packed order. */
  method RunSession(cells: Cells, l: Layout, table: seq<seq<int>>, packed: seq<int>, blockRows: nat, paged: nat,
                    ghost es: seq<Entry>, ghost ctxIndex: seq<nat>, ghost blockSize: nat)
    returns (cells': Cells, ghost ws: seq<Write>)
    requires 0 < paged && TableFor(table, es, paged, blockSize)
    requires Built(l, ctxIndex, SharesOf(es), blockSize, blockRows, |es|)
    ensures cells' == Apply(cells, ws)
    ensures IsWrites(ws, Sources(l, packed, blockRows, |l.qkvRowMap|), es, |es|, paged, blockSize)
  {
    hide Apply, SharesOf, Rows, Contexts, Blocks, Sources, TableRow, Inverse;
    ghost var shares, kvs := SharesOf(es), Sources(l, packed, blockRows, |l.qkvRowMap|);
    cells', ws := cells, [];
    NoWrites(cells, kvs, es, paged, blockSize);
    for i := 0 to |table|
      invariant cells' == Apply(cells, ws)
      invariant IsWrites(ws, kvs, es, i, paged, blockSize)
    {
      assert Placed(l, shares, blockSize, blockRows, i);
      ghost var more;
      cells', more := RunEntry(cells', l, table[i], packed, blockRows, i, paged, es[i], blockSize);
      ApplyConcat(cells, ws, more);
      MoreWrites(ws, more, kvs, es, i, paged, blockSize, l);
      ws := ws + more;
    }
  }

  lemma {:induction false} NoWrites(cells: Cells, kvs: seq<Kv>, es: seq<Entry>, paged: nat, blockSize: nat)
    requires 0 < paged
    ensures Apply(cells, []) == cells && IsWrites([], kvs, es, 0, paged, blockSize)
  {}

  lemma {:induction false} MoreWrites(ws: seq<Write>, more: seq<Write>, kvs: seq<Kv>, es: seq<Entry>, n: nat,
                                      paged: nat, blockSize: nat, l: Layout)
    requires 0 < paged && n < |es| && IsWrites(ws, kvs, es, n, paged, blockSize) && es[n].blocks != []
    requires |more| == ShareRows(es[n].share, blockSize) && |ws| + |more| <= |kvs|
    requires forall k | 0 <= k < |more| ::
               more[k] == Write(CellOf(es[n].blocks, paged, es[n].share.first + k), kvs[|ws| + k])
    ensures IsWrites(ws + more, kvs, es, n + 1, paged, blockSize)
  {
    hide CellOf, SharesOf;
    forall i | 0 <= i < n + 1 ensures WritesOf(ws + more, kvs, es, i, paged, blockSize) {
      if i < n { assert WritesOf(ws, kvs, es, i, paged, blockSize); }
    }
  }
}
