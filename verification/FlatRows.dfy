/** Rows of equal length laid out one after another in a flat buffer. */
module FlatRows {
  import opened Arithmetic

  lemma {:induction false} Flat(row: nat, col: nat, width: nat, rows: nat)
    requires col < width && row < rows
    ensures row * width + col < rows * width
    ensures (row * width + col) / width == row && (row * width + col) % width == col
  {
    assert (row + 1) * width <= rows * width by { MulLe(row + 1, rows, width); }
    assert (row + 1) * width == row * width + width;
    DivUnique(row * width + col, width, row, col);
  }

  lemma {:induction false} Unflat(x: nat, width: nat, rows: nat)
    requires 0 < width && x < rows * width
    ensures x / width < rows && x % width < width && x == (x / width) * width + x % width
  {
    var q := x / width;
    if rows <= q {
      MulLe(rows, q, width);
      assert false;
    }
  }

  /** Row i of a flat buffer whose rows are max apart. */
  ghost function FlatRow<T>(flat: seq<T>, rows: nat, max: nat, i: nat, length: nat): (r: seq<T>)
    requires |flat| == rows * max && i < rows && length <= max
    ensures |r| == length
  {
    RowInside(i, rows, max);
    flat[i * max..i * max + length]
  }

  lemma {:induction false} FlatAt<T>(flat: seq<T>, rows: nat, max: nat, i: nat, length: nat, k: nat)
    requires |flat| == rows * max && i < rows && k < length <= max
    ensures i * max + k < |flat| && FlatRow(flat, rows, max, i, length)[k] == flat[i * max + k]
  {
    RowInside(i, rows, max);
  }

  lemma {:induction false} RowReads<T>(flat: seq<T>, rows: nat, max: nat, i: nat, base: nat, row: seq<T>)
    requires |flat| == rows * max && i < rows && |row| <= max && base == i * max && base + |row| <= |flat|
    requires flat[base..base + |row|] == row
    ensures FlatRow(flat, rows, max, i, |row|) == row
  {}

  lemma {:induction false} RowInside(i: nat, rows: nat, max: nat)
    requires i < rows
    ensures i * max + max <= rows * max
  {
    MulLe(i + 1, rows, max);
    assert (i + 1) * max == i * max + max;
  }

  /** Rows do not overlap. */
  lemma {:induction false} RowsApart(i: nat, j: nat, max: nat)
    requires i < j
    ensures i * max + max <= j * max
  {
    RowInside(i, j, max);
  }

  /** Writing at and after the end of a row's range leaves the row as it was. */
  lemma {:induction false} RowUnchanged<T>(flat: seq<T>, flat': seq<T>, rows: nat, max: nat, i: nat, length: nat)
    requires |flat| == |flat'| == rows * max && i < rows && length <= max
    requires forall x | i * max <= x < i * max + length && x < |flat| :: flat'[x] == flat[x]
    ensures FlatRow(flat', rows, max, i, length) == FlatRow(flat, rows, max, i, length)
  {
    RowInside(i, rows, max);
  }

  /** The share of batch entry b in a list of n per entry. */
  function Part<T>(s: seq<T>, batches: nat, n: nat, b: nat): (r: seq<T>)
    requires b < batches && |s| == batches * n
    ensures |r| == n
  {
    RowInside(b, batches, n);
    s[b * n..b * n + n]
  }
}
