/** The token rows of all beams: two flat buffers of rows * max_length tokens that swap at every append. */
module BeamSequences {
  import opened FlatRows

  ghost function AllRows(flat: seq<int>, rows: nat, max: nat, n: nat, length: nat): (r: seq<seq<int>>)
    requires |flat| == rows * max && n <= rows && length <= max
    ensures |r| == n && forall i | 0 <= i < n :: r[i] == FlatRow(flat, rows, max, i, length)
  {
    if n == 0 then [] else AllRows(flat, rows, max, n - 1, length) + [FlatRow(flat, rows, max, n - 1, length)]
  }

  /** A row of batch entry i / beams that starts with the entry's prompt. */
  ghost predicate Prompted(row: seq<int>, prompt: seq<int>, batches: nat, beams: nat, count: nat, i: nat) {
    && 0 < beams && |prompt| == batches * count && i / beams < batches
    && row == Part(prompt, batches, count, i / beams)
  }

  lemma {:induction false} IsPrompted(prompt: seq<int>, batches: nat, beams: nat, count: nat, i: nat)
    requires 0 < beams && |prompt| == batches * count && i / beams < batches
    ensures Prompted(Part(prompt, batches, count, i / beams), prompt, batches, beams, count, i)
  {}

  class Sequences {
    const rows: nat
    const maxLength: nat
    var current: array<int>
    var next: array<int>
    var length: nat

    ghost predicate Valid()
      reads this
    {
      && current.Length == next.Length == rows * maxLength
      && current != next
      && length <= maxLength
    }

    ghost function Rows(): (r: seq<seq<int>>)
      requires Valid()
      reads this, current
      ensures |r| == rows
    {
      AllRows(current[..], rows, maxLength, rows, length)
    }

    ghost function Row(i: nat): (r: seq<int>)
      requires Valid() && i < rows
      reads this, current
    {
      FlatRow(current[..], rows, maxLength, i, length)
    }

    constructor (rows: nat, maxLength: nat)
      ensures Valid() && length == 0 && this.rows == rows && this.maxLength == maxLength
      ensures fresh(current) && fresh(next)
    {
      this.rows := rows;
      this.maxLength := maxLength;
      current := new int[rows * maxLength](_ => 0);
      next := new int[rows * maxLength](_ => 0);
      length := 0;
    }

    /** Copies row i's tokens to target[at ..]. */
    method CopyRow(i: nat, target: array<int>, at: nat)
      requires Valid() && i < rows && target != current && at + length <= target.Length
      modifies target
      ensures target[..] == old(target[..at]) + Row(i) + old(target[at + length..])
    {
      RowInside(i, rows, maxLength);
      var base := i * maxLength;
      Write(target, at, current[base..base + length]);
    }

    /** Starts every row of a batch entry with the entry's prompt. */
    method Begin(prompt: seq<int>, batches: nat, beams: nat, count: nat)
      requires Valid() && length == 0 && count <= maxLength
      requires rows == batches * beams && 0 < beams && |prompt| == batches * count
      modifies this, next
      ensures Valid() && length == count && current == old(next) && next == old(current)
      ensures forall i | 0 <= i < rows :: Prompted(Row(i), prompt, batches, beams, count, i)
    {
      hide FlatRow, Part, Prompted;
      for i := 0 to rows
        modifies next
        invariant forall k | 0 <= k < i ::
                    Prompted(FlatRow(next[..], rows, maxLength, k, count), prompt, batches, beams, count, k)
      {
        Unflat(i, beams, batches);
        ghost var mid := next[..];
        RowInside(i, rows, maxLength);
        var source := Part(prompt, batches, count, i / beams);
        IsPrompted(prompt, batches, beams, count, i);
        Write(next, i * maxLength, source);
        Written(mid, next[..], rows, maxLength, i, source);
      }
      length := count;
      current, next := next, current;
    }

    static method Write(target: array<int>, at: nat, source: seq<int>)
      requires at + |source| <= target.Length
      modifies target
      ensures target[..] == old(target[..at]) + source + old(target[at + |source|..])
    {
      for k := 0 to |source|
        invariant forall x | 0 <= x < target.Length && !(at <= x < at + k) :: target[x] == old(target[x])
        invariant forall x | at <= x < at + k :: target[x] == source[x - at]
      {
        target[at + k] := source[k];
      }
      Copied(old(target[..]), target[..], source, at);
    }

    /** Every new row is the row it extends plus its token; the two buffers swap. */
    method Append(tokens: array<int>, parents: array<nat>)
      requires Valid() && length < maxLength && tokens.Length == parents.Length == rows
      requires tokens != current && tokens != next
      requires forall i | 0 <= i < rows :: parents[i] < rows
      modifies this, next
      ensures Valid() && length == old(length) + 1 && current == old(next) && next == old(current)
      ensures forall i | 0 <= i < rows :: Row(i) == old(Rows())[parents[i]] + [tokens[i]]
    {
      hide AllRows, FlatRow;
      ghost var before := current[..];
      ghost var longer := length + 1;
      for i := 0 to rows
        modifies next
        invariant forall k | 0 <= k < i :: FlatRow(next[..], rows, maxLength, k, longer) ==
                                            FlatRow(before, rows, maxLength, parents[k], length) + [tokens[k]]
      {
        ghost var mid := next[..];
        RowInside(i, rows, maxLength);
        CopyRow(parents[i], next, i * maxLength);
        next[i * maxLength + length] := tokens[i];
        Extended(mid, next[..], rows, maxLength, i, length, longer,
          FlatRow(before, rows, maxLength, parents[i], length), tokens[i]);
      }
      length := length + 1;
      current, next := next, current;
    }
  }

  lemma {:induction false} Copied(before: seq<int>, after: seq<int>, row: seq<int>, at: nat)
    requires |before| == |after| && at + |row| <= |before|
    requires forall x | 0 <= x < |after| && !(at <= x < at + |row|) :: after[x] == before[x]
    requires forall x | at <= x < at + |row| :: after[x] == row[x - at]
    ensures after == before[..at] + row + before[at + |row|..]
  {}

  /** A row written at its place reads back, and no other row changes. */
  lemma {:induction false} Extended(before: seq<int>, after: seq<int>, rows: nat, max: nat, i: nat, length: nat,
                                    longer: nat, row: seq<int>, token: int)
    requires |before| == |after| == rows * max && i < rows && length < max && longer == length + 1 && |row| == length
    requires i * max + length < |before|
    requires after == (before[..i * max] + row + before[i * max + length..])[i * max + length := token]
    ensures FlatRow(after, rows, max, i, longer) == row + [token]
    ensures forall k | 0 <= k < i :: FlatRow(after, rows, max, k, longer) == FlatRow(before, rows, max, k, longer)
  {
    var base := i * max;
    assert forall x | 0 <= x < base :: after[x] == before[x];
    forall k | 0 <= k < i ensures FlatRow(after, rows, max, k, longer) == FlatRow(before, rows, max, k, longer) {
      RowsApart(k, i, max);
      RowUnchanged(before, after, rows, max, k, longer);
    }
    RowInside(i, rows, max);
    ReadsBack(before, row, token, base, after);
  }

  lemma {:induction false} Written(before: seq<int>, after: seq<int>, rows: nat, max: nat, i: nat, row: seq<int>)
    requires |before| == |after| == rows * max && i < rows && |row| <= max && i * max + |row| <= |before|
    requires after == before[..i * max] + row + before[i * max + |row|..]
    ensures FlatRow(after, rows, max, i, |row|) == row
    ensures forall k | 0 <= k < i :: FlatRow(after, rows, max, k, |row|) == FlatRow(before, rows, max, k, |row|)
  {
    hide *;
    var base := i * max;
    PrefixKept(before, row, base, after);
    RowReads(after, rows, max, i, base, row);
    forall k | 0 <= k < i ensures FlatRow(after, rows, max, k, |row|) == FlatRow(before, rows, max, k, |row|) {
      RowsApart(k, i, max);
      RowUnchanged(before, after, rows, max, k, |row|);
    }
  }

  lemma {:induction false} PrefixKept(before: seq<int>, row: seq<int>, base: nat, after: seq<int>)
    requires base + |row| <= |before| && after == before[..base] + row + before[base + |row|..]
    ensures |after| == |before| && after[base..base + |row|] == row
    ensures forall x | 0 <= x < base :: after[x] == before[x]
  {}

  lemma {:induction false} ReadsBack(before: seq<int>, row: seq<int>, token: int, base: nat, after: seq<int>)
    requires base + |row| < |before| && after == (before[..base] + row + before[base + |row|..])[base + |row| := token]
    ensures |after| == |before| && after[base..base + |row| + 1] == row + [token]
  {}
}
