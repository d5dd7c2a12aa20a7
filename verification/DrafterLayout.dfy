/**
 The packed batch of one block-drafter step. Every served request contributes its context rows and,
 when it drafts, a block of query rows; the row maps tell the graph where each packed row's inputs
 come from in concat(query rows, context rows).
 */
module DrafterLayout {
  import opened Common
  import opened Arithmetic

  /** One request's part of the batch: context rows at positions first.., then an optional query block. */
  datatype Share = Share(first: nat, count: nat, hasBlock: bool)

  datatype Layout = Layout(
    qRowMap: seq<nat>,
    qkvRowMap: seq<nat>,
    blockRowIndex: seq<nat>,
    cumulative: seq<nat>,
    past: seq<nat>,
    maxQueryLen: nat,
    maxKvLen: nat)

  const EMPTY := Layout([], [], [], [0], [], 0, 0)

  /** Context rows, query blocks and packed rows of the first n shares. */
  function Contexts(shares: seq<Share>, n: nat): nat
    requires n <= |shares|
  {
    if n == 0 then 0 else Contexts(shares, n - 1) + shares[n - 1].count
  }

  function Blocks(shares: seq<Share>, n: nat): nat
    requires n <= |shares|
  {
    if n == 0 then 0 else Blocks(shares, n - 1) + if shares[n - 1].hasBlock then 1 else 0
  }

  function ShareRows(share: Share, blockSize: nat): nat {
    share.count + if share.hasBlock then blockSize else 0
  }

  function Rows(shares: seq<Share>, blockSize: nat, n: nat): nat
    requires n <= |shares|
  {
    if n == 0 then 0 else Rows(shares, blockSize, n - 1) + ShareRows(shares[n - 1], blockSize)
  }

  lemma {:induction false} RowsSplit(shares: seq<Share>, blockSize: nat, n: nat)
    requires n <= |shares|
    ensures Rows(shares, blockSize, n) == Contexts(shares, n) + Blocks(shares, n) * blockSize
  {
    if 0 < n { RowsSplit(shares, blockSize, n - 1); }
  }

  lemma {:induction false} BlocksMonotone(shares: seq<Share>, i: nat, n: nat)
    requires i <= n <= |shares|
    ensures Blocks(shares, i) <= Blocks(shares, n)
  {
    if i < n { BlocksMonotone(shares, i, n - 1); }
  }

  function Range(from: nat, n: nat): (r: seq<nat>)
    ensures |r| == n && forall k | 0 <= k < n :: r[k] == from + k
  {
    if n == 0 then [] else Range(from, n - 1) + [from + n - 1]
  }

  // ----- what a layout must satisfy

  /** The inverse of the row map: block rows first, context rows after them. */
  ghost function RowOf(l: Layout, ctxIndex: seq<nat>, blockRows: nat, v: nat): int {
    if v < blockRows then
      if v < |l.blockRowIndex| then l.blockRowIndex[v] else -1
    else
      if v - blockRows < |ctxIndex| then ctxIndex[v - blockRows] else -1
  }

  /** blockRowIndex and ctxIndex together invert the row map built so far. */
  ghost predicate Inverse(l: Layout, ctxIndex: seq<nat>, blockRows: nat) {
    && |l.blockRowIndex| <= blockRows
    && (forall r | 0 <= r < |l.qkvRowMap| :: RowOf(l, ctxIndex, blockRows, l.qkvRowMap[r]) == r)
    && (forall v | 0 <= v < |l.blockRowIndex| ::
          l.blockRowIndex[v] < |l.qkvRowMap| && l.qkvRowMap[l.blockRowIndex[v]] == v)
    && (forall c | 0 <= c < |ctxIndex| :: ctxIndex[c] < |l.qkvRowMap| && l.qkvRowMap[ctxIndex[c]] == blockRows + c)
  }

  /** Share i's rows are where the graph looks for them. */
  ghost predicate Placed(l: Layout, shares: seq<Share>, blockSize: nat, blockRows: nat, i: nat)
    requires i < |shares|
  {
    var base := Rows(shares, blockSize, i);
    && i + 1 < |l.cumulative| && i < |l.past|
    && l.cumulative[i] == base && l.cumulative[i + 1] == base + ShareRows(shares[i], blockSize) <= |l.qkvRowMap|
    && l.past[i] == shares[i].first
    && (forall r | base <= r < base + shares[i].count ::
          l.qkvRowMap[r] == blockRows + Contexts(shares, i) + (r - base))
    && (shares[i].hasBlock ==>
          forall r | base + shares[i].count <= r < base + shares[i].count + blockSize ::
            l.qkvRowMap[r] == Blocks(shares, i) * blockSize + (r - base - shares[i].count))
  }

  /** Share i's query rows: a block row reads its own, a context row borrows the first of its block or of the batch. */
  ghost predicate QueryPlaced(l: Layout, shares: seq<Share>, blockSize: nat, i: nat)
    requires i < |shares|
  {
    var base := Rows(shares, blockSize, i);
    && base + ShareRows(shares[i], blockSize) <= |l.qRowMap|
    && (forall r | base <= r < base + shares[i].count ::
          l.qRowMap[r] == if shares[i].hasBlock then Blocks(shares, i) * blockSize else 0)
    && (shares[i].hasBlock ==>
          forall r | base + shares[i].count <= r < base + shares[i].count + blockSize ::
            l.qRowMap[r] == Blocks(shares, i) * blockSize + (r - base - shares[i].count))
  }

  /** The maxima are those of the first n shares. */
  ghost predicate Longest(l: Layout, shares: seq<Share>, blockSize: nat, n: nat)
    requires n <= |shares|
  {
    && (forall i | 0 <= i < n :: ShareRows(shares[i], blockSize) <= l.maxQueryLen)
    && (forall i | 0 <= i < n :: shares[i].first + ShareRows(shares[i], blockSize) <= l.maxKvLen)
    && (l.maxQueryLen == 0 || exists i :: 0 <= i < n && ShareRows(shares[i], blockSize) == l.maxQueryLen)
    && (l.maxKvLen == 0 || exists i :: 0 <= i < n && shares[i].first + ShareRows(shares[i], blockSize) == l.maxKvLen)
  }

  ghost predicate Sized(l: Layout, ctxIndex: seq<nat>, shares: seq<Share>, blockSize: nat, n: nat)
    requires n <= |shares|
  {
    && |l.qRowMap| == |l.qkvRowMap| == Rows(shares, blockSize, n)
    && |l.blockRowIndex| == Blocks(shares, n) * blockSize
    && |ctxIndex| == Contexts(shares, n)
    && |l.cumulative| == n + 1 && l.cumulative[n] == Rows(shares, blockSize, n)
    && |l.past| == n
  }

  ghost predicate Built(l: Layout, ctxIndex: seq<nat>, shares: seq<Share>, blockSize: nat, blockRows: nat, n: nat)
    requires n <= |shares|
  {
    && Sized(l, ctxIndex, shares, blockSize, n)
    && Inverse(l, ctxIndex, blockRows) && Longest(l, shares, blockSize, n)
    && (forall i | 0 <= i < n :: Placed(l, shares, blockSize, blockRows, i))
    && (forall i | 0 <= i < n :: QueryPlaced(l, shares, blockSize, i))
  }

  /** A finished row map uses every block row and every context row exactly once, and blockRowIndex
      is its inverse on the block rows. */
  lemma {:induction false} RowMapIsPermutation(l: Layout, ctxIndex: seq<nat>, shares: seq<Share>, blockSize: nat)
    requires Built(l, ctxIndex, shares, blockSize, Blocks(shares, |shares|) * blockSize, |shares|)
    ensures var total := Blocks(shares, |shares|) * blockSize + Contexts(shares, |shares|);
            && |l.qkvRowMap| == total
            && (forall r | 0 <= r < total :: l.qkvRowMap[r] < total)
            && (forall r, r' | 0 <= r < r' < total :: l.qkvRowMap[r] != l.qkvRowMap[r'])
            && (forall v | 0 <= v < total :: v in l.qkvRowMap)
            && |l.blockRowIndex| == Blocks(shares, |shares|) * blockSize
            && (forall v | 0 <= v < |l.blockRowIndex| ::
                  l.blockRowIndex[v] < total && l.qkvRowMap[l.blockRowIndex[v]] == v)
  {
    hide Contexts, Blocks, Rows;
    RowsSplit(shares, blockSize, |shares|);
    var blockRows := Blocks(shares, |shares|) * blockSize;
    forall v | 0 <= v < blockRows + Contexts(shares, |shares|) ensures v in l.qkvRowMap {
      if v < blockRows {
        assert l.qkvRowMap[l.blockRowIndex[v]] == v;
      } else {
        assert l.qkvRowMap[ctxIndex[v - blockRows]] == v;
      }
    }
  }

  // ----- building it

  function Max(a: nat, b: nat): nat { if a < b then b else a }

  /** The layout after one more share, whose context rows start at context row ctxRow. */
  function Appended(l: Layout, share: Share, slot: nat, ctxRow: nat, blockSize: nat, blockRows: nat): Layout {
    var firstBlockRow := slot * blockSize;
    var block := if share.hasBlock then Range(firstBlockRow, blockSize) else [];
    Layout(
      l.qRowMap + Repeat(if share.hasBlock then firstBlockRow else 0, share.count) + block,
      l.qkvRowMap + Range(blockRows + ctxRow, share.count) + block,
      l.blockRowIndex + Range(|l.qRowMap| + share.count, |block|),
      l.cumulative + [|l.qRowMap| + ShareRows(share, blockSize)],
      l.past + [share.first],
      Max(l.maxQueryLen, ShareRows(share, blockSize)),
      Max(l.maxKvLen, share.first + ShareRows(share, blockSize)))
  }

  method AppendShare(l: Layout, share: Share, slot: nat, ctxRow: nat, blockSize: nat, blockRows: nat)
    returns (r: Layout)
    requires |l.qRowMap| == |l.qkvRowMap|
    ensures r == Appended(l, share, slot, ctxRow, blockSize, blockRows)
  {
    var rows := if share.hasBlock then blockSize else 0;
    var queryLen := share.count + rows;
    var firstBlockRow := slot * blockSize;
    var borrowed := if share.hasBlock then firstBlockRow else 0;
    var q, qkv := AppendContextRows(l.qRowMap, l.qkvRowMap, borrowed, blockRows + ctxRow, share.count);
    var index;
    q, qkv, index := AppendBlockRows(q, qkv, l.blockRowIndex, firstBlockRow, rows);
    r := Layout(q, qkv, index, l.cumulative + [|q|], l.past + [share.first],
                Max(l.maxQueryLen, queryLen), Max(l.maxKvLen, share.first + queryLen));
  }

  /** Rows that only bring K/V still need some query row; nothing reads what comes out of it. */
  method AppendContextRows(q0: seq<nat>, qkv0: seq<nat>, borrowed: nat, firstContextRow: nat, count: nat)
    returns (q: seq<nat>, qkv: seq<nat>)
    ensures q == q0 + Repeat(borrowed, count)
    ensures qkv == qkv0 + Range(firstContextRow, count)
  {
    q, qkv := q0, qkv0;
    for row := 0 to count
      invariant q == q0 + Repeat(borrowed, row)
      invariant qkv == qkv0 + Range(firstContextRow, row)
    {
      q := q + [borrowed];
      qkv := qkv + [firstContextRow + row];
    }
  }

  method AppendBlockRows(q0: seq<nat>, qkv0: seq<nat>, index0: seq<nat>, firstBlockRow: nat, rows: nat)
    returns (q: seq<nat>, qkv: seq<nat>, index: seq<nat>)
    ensures q == q0 + Range(firstBlockRow, rows)
    ensures qkv == qkv0 + Range(firstBlockRow, rows)
    ensures index == index0 + Range(|q0|, rows)
  {
    q, qkv, index := q0, qkv0, index0;
    for row := 0 to rows
      invariant q == q0 + Range(firstBlockRow, row)
      invariant qkv == qkv0 + Range(firstBlockRow, row)
      invariant index == index0 + Range(|q0|, row)
    {
      index := index + [|q|];
      q := q + [firstBlockRow + row];
      qkv := qkv + [firstBlockRow + row];
    }
  }

  lemma {:induction false} AppendedSized(l: Layout, ctxIndex: seq<nat>, shares: seq<Share>, blockSize: nat,
                                         blockRows: nat, n: nat)
    requires n < |shares| && Sized(l, ctxIndex, shares, blockSize, n)
    ensures Sized(Appended(l, shares[n], Blocks(shares, n), Contexts(shares, n), blockSize, blockRows),
                  ctxIndex + Range(|l.qRowMap|, shares[n].count), shares, blockSize, n + 1)
  {
    hide Range, Repeat;
    MulSucc(Blocks(shares, n), blockSize);
  }

  lemma {:induction false} AppendedInverse(l: Layout, ctxIndex: seq<nat>, share: Share, blockSize: nat, blockRows: nat,
                                           slot: nat)
    requires Inverse(l, ctxIndex, blockRows)
    requires |l.qRowMap| == |l.qkvRowMap| && |l.blockRowIndex| == slot * blockSize
    requires share.hasBlock ==> slot * blockSize + blockSize <= blockRows
    ensures Inverse(Appended(l, share, slot, |ctxIndex|, blockSize, blockRows),
                    ctxIndex + Range(|l.qRowMap|, share.count), blockRows)
  {
    hide Range, Repeat;
    var a := Appended(l, share, slot, |ctxIndex|, blockSize, blockRows);
    var index := ctxIndex + Range(|l.qRowMap|, share.count);
    var m := |l.qkvRowMap|;
    forall r | 0 <= r < |a.qkvRowMap| ensures RowOf(a, index, blockRows, a.qkvRowMap[r]) == r {
      if r < m {
        assert a.qkvRowMap[r] == l.qkvRowMap[r];
        assert RowOf(l, ctxIndex, blockRows, l.qkvRowMap[r]) == r;
      }
    }
  }

  lemma {:induction false} AppendedKeeps(l: Layout, share: Share, shares: seq<Share>, blockSize: nat, blockRows: nat,
                                         i: nat, slot: nat, ctxRow: nat)
    requires i < |shares| && Placed(l, shares, blockSize, blockRows, i)
    ensures Placed(Appended(l, share, slot, ctxRow, blockSize, blockRows), shares, blockSize, blockRows, i)
  {
    hide Range, Repeat, Rows, Contexts, Blocks;
    var a := Appended(l, share, slot, ctxRow, blockSize, blockRows);
    assert forall r | 0 <= r < |l.qkvRowMap| :: a.qkvRowMap[r] == l.qkvRowMap[r];
  }

  lemma {:induction false} AppendedPlaced(l: Layout, ctxIndex: seq<nat>, shares: seq<Share>, blockSize: nat,
                                          blockRows: nat, n: nat)
    requires n < |shares| && Sized(l, ctxIndex, shares, blockSize, n)
    ensures Placed(Appended(l, shares[n], Blocks(shares, n), Contexts(shares, n), blockSize, blockRows),
                   shares, blockSize, blockRows, n)
  {
    hide Range, Repeat, Rows, Contexts, Blocks;
  }

  lemma {:induction false} AppendedQueries(l: Layout, shares: seq<Share>, blockSize: nat, blockRows: nat, n: nat,
                                           i: nat)
    requires i <= n < |shares| && |l.qRowMap| == Rows(shares, blockSize, n)
    requires i < n ==> QueryPlaced(l, shares, blockSize, i)
    ensures QueryPlaced(Appended(l, shares[n], Blocks(shares, n), Contexts(shares, n), blockSize, blockRows), shares,
                        blockSize, i)
  {
    hide Range, Repeat, Rows, Contexts, Blocks;
    var a := Appended(l, shares[n], Blocks(shares, n), Contexts(shares, n), blockSize, blockRows);
    assert forall r | 0 <= r < |l.qRowMap| :: a.qRowMap[r] == l.qRowMap[r];
  }

  lemma {:induction false} AppendedLongest(l: Layout, shares: seq<Share>, blockSize: nat, blockRows: nat, n: nat)
    requires n < |shares| && Longest(l, shares, blockSize, n)
    ensures Longest(Appended(l, shares[n], Blocks(shares, n), Contexts(shares, n), blockSize, blockRows), shares,
                    blockSize, n + 1)
  {
    hide ShareRows, Blocks, Contexts, Range, Repeat;
    var q, v := ShareRows(shares[n], blockSize), shares[n].first + ShareRows(shares[n], blockSize);
    if l.maxQueryLen != 0 && q <= l.maxQueryLen {
      var i :| 0 <= i < n && ShareRows(shares[i], blockSize) == l.maxQueryLen;
    }
    if l.maxKvLen != 0 && v <= l.maxKvLen {
      var i :| 0 <= i < n && shares[i].first + ShareRows(shares[i], blockSize) == l.maxKvLen;
    }
  }

  /** With a block in the batch every packed row has a query row, and block rows have their own. */
  lemma {:induction false} QueryRowsExist(l: Layout, ctxIndex: seq<nat>, shares: seq<Share>, blockSize: nat, i: nat,
                                          r: nat)
    requires Built(l, ctxIndex, shares, blockSize, Blocks(shares, |shares|) * blockSize, |shares|)
    requires 0 < Blocks(shares, |shares|) && 0 < blockSize && i < |shares|
    requires Rows(shares, blockSize, i) <= r < Rows(shares, blockSize, i) + ShareRows(shares[i], blockSize)
    ensures r < |l.qRowMap| && r < |l.qkvRowMap| && l.qRowMap[r] < Blocks(shares, |shares|) * blockSize
    ensures Rows(shares, blockSize, i) + shares[i].count <= r ==> l.qRowMap[r] == l.qkvRowMap[r]
  {
    hide Rows, Contexts, Inverse, Longest, Sized;
    assert Placed(l, shares, blockSize, Blocks(shares, |shares|) * blockSize, i);
    assert QueryPlaced(l, shares, blockSize, i);
    hide Blocks;
    BlocksFit(shares, blockSize, i);
    MulLess(0, Blocks(shares, |shares|), blockSize);
  }

  lemma {:induction false} AppendedBuilt(l: Layout, ctxIndex: seq<nat>, shares: seq<Share>, blockSize: nat,
                                         blockRows: nat, n: nat)
    requires n < |shares| && Built(l, ctxIndex, shares, blockSize, blockRows, n)
    requires blockRows == Blocks(shares, |shares|) * blockSize
    ensures Built(Appended(l, shares[n], Blocks(shares, n), Contexts(shares, n), blockSize, blockRows),
                  ctxIndex + Range(|l.qRowMap|, shares[n].count), shares, blockSize, blockRows, n + 1)
  {
    hide Range, Placed, QueryPlaced, Longest, Appended, Inverse, Rows, Contexts;
    AppendedLongest(l, shares, blockSize, blockRows, n);
    AppendedSized(l, ctxIndex, shares, blockSize, blockRows, n);
    BlocksFit(shares, blockSize, n);
    AppendedInverse(l, ctxIndex, shares[n], blockSize, blockRows, Blocks(shares, n));
    AppendedPlaced(l, ctxIndex, shares, blockSize, blockRows, n);
    var a := Appended(l, shares[n], Blocks(shares, n), Contexts(shares, n), blockSize, blockRows);
    forall i | 0 <= i < n + 1 ensures Placed(a, shares, blockSize, blockRows, i) {
      if i < n {
        AppendedKeeps(l, shares[n], shares, blockSize, blockRows, i, Blocks(shares, n), Contexts(shares, n));
      }
    }
    forall i | 0 <= i < n + 1 ensures QueryPlaced(a, shares, blockSize, i) {
      AppendedQueries(l, shares, blockSize, blockRows, n, i);
    }
  }

  lemma {:induction false} BlocksFit(shares: seq<Share>, blockSize: nat, n: nat)
    requires n < |shares|
    ensures shares[n].hasBlock ==> Blocks(shares, n) * blockSize + blockSize <= Blocks(shares, |shares|) * blockSize
  {
    if shares[n].hasBlock {
      BlocksMonotone(shares, n + 1, |shares|);
      MulLess(Blocks(shares, n), Blocks(shares, |shares|), blockSize);
    }
  }
}
