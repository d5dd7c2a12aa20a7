/**
 Replaying the kept tokens of a speculative step over fixed-size state: convolution windows, a compressed
 key index and recurrent cells. The destination may be the source itself.
 */
module StateReplay {
  import opened Arithmetic
  import opened Common
  import opened FlatRows

  // ----- convolution windows

  /** A window after new items: the last |window| of window followed by items. */
  function Slide<T>(window: seq<T>, items: seq<T>): (r: seq<T>)
    ensures |r| == |window|
  {
    (window + items)[|items|..]
  }

  /** Sliding by a and then by b is sliding by both. */
  lemma {:induction false} SlideCompose<T>(window: seq<T>, a: seq<T>, b: seq<T>)
    ensures Slide(Slide(window, a), b) == Slide(window, a + b)
  {
    var all := window + a + b;
    assert window + (a + b) == all;
    assert Slide(window, a) + b == all[|a|..];
  }

  /** The first n items of channel c in values laid out update by update. */
  ghost function Channel<T>(values: seq<T>, channels: nat, c: nat, n: nat): (r: seq<T>)
    requires c < channels && n * channels <= |values|
    ensures |r| == n
    decreases n
  {
    if n == 0 then [] else
      MulLe(n - 1, n, channels);
      Flat(n - 1, c, channels, n);
      Channel(values, channels, c, n - 1) + [values[(n - 1) * channels + c]]
  }

  lemma {:induction false} ChannelAt<T>(values: seq<T>, channels: nat, c: nat, n: nat, j: nat)
    requires c < channels && n * channels <= |values| && j < n
    ensures j * channels + c < |values| && Channel(values, channels, c, n)[j] == values[j * channels + c]
  {
    MulLe(n - 1, n, channels);
    Flat(j, c, channels, n);
    if j < n - 1 { ChannelAt(values, channels, c, n - 1, j); }
  }

  lemma {:induction false} ChannelConcat<T>(a: seq<T>, b: seq<T>, channels: nat, c: nat, m: nat, n: nat)
    requires c < channels && |a| == m * channels && n * channels <= |b|
    ensures (m + n) * channels <= |a + b|
    ensures Channel(a + b, channels, c, m + n) == Channel(a, channels, c, m) + Channel(b, channels, c, n)
  {
    Products(m, n, channels);
    hide Channel;
    var l, r := Channel(a + b, channels, c, m + n), Channel(a, channels, c, m) + Channel(b, channels, c, n);
    forall j | 0 <= j < m + n ensures l[j] == r[j] {
      ChannelConcatAt(a, b, channels, c, m, n, j);
    }
  }

  lemma {:induction false} ChannelConcatAt<T>(a: seq<T>, b: seq<T>, channels: nat, c: nat, m: nat, n: nat, j: nat)
    requires c < channels && |a| == m * channels && n * channels <= |b| && (m + n) * channels <= |a + b| && j < m + n
    ensures Channel(a + b, channels, c, m + n)[j] ==
            if j < m then Channel(a, channels, c, m)[j] else Channel(b, channels, c, n)[j - m]
  {
    hide Channel;
    ChannelAt(a + b, channels, c, m + n, j);
    if j < m {
      ChannelAt(a, channels, c, m, j);
    } else {
      ChannelAt(b, channels, c, n, j - m);
      Products(m, j - m, channels);
    }
  }

  /** Values beyond the kept ones do not matter. */
  lemma {:induction false} ChannelKept<T>(a: seq<T>, channels: nat, c: nat, m: nat)
    requires c < channels && m * channels <= |a|
    ensures Channel(a[..m * channels], channels, c, m) == Channel(a, channels, c, m)
  {
    hide Channel;
    var kept := a[..m * channels];
    forall j | 0 <= j < m ensures Channel(kept, channels, c, m)[j] == Channel(a, channels, c, m)[j] {
      ChannelAt(kept, channels, c, m, j);
      ChannelAt(a, channels, c, m, j);
    }
  }

  /** Every channel's window has slid by its kept items. */
  ghost predicate ConvReplayed<T>(before: seq<T>, after: seq<T>, channels: nat, width: nat, values: seq<T>, kept: nat) {
    && |before| == |after| == channels * width && kept * channels <= |values|
    && forall c | 0 <= c < channels :: RowSlid(before, after, channels, width, values, kept, c)
  }

  ghost predicate RowSlid<T>(before: seq<T>, after: seq<T>, channels: nat, width: nat, values: seq<T>, kept: nat,
                             c: nat)
    requires |before| == |after| == channels * width && kept * channels <= |values| && c < channels
  {
    FlatRow(after, channels, width, c, width) == Slide(FlatRow(before, channels, width, c, width),
      Channel(values, channels, c, kept))
  }

  /** A flat buffer is determined by its rows. */
  lemma {:induction false} RowsDetermine<T>(a: seq<T>, b: seq<T>, rows: nat, width: nat)
    requires |a| == |b| == rows * width
    requires forall c | 0 <= c < rows :: FlatRow(a, rows, width, c, width) == FlatRow(b, rows, width, c, width)
    ensures a == b
  {
    hide FlatRow;
    forall x | 0 <= x < |a| ensures a[x] == b[x] {
      var c, k := Place(x, rows, width);
      FlatAt(a, rows, width, c, width, k);
      FlatAt(b, rows, width, c, width, k);
    }
  }

  lemma {:induction false} Place(x: nat, rows: nat, width: nat) returns (c: nat, k: nat)
    requires x < rows * width
    ensures c < rows && k < width && c * width + k == x
  {
    assert 0 < width;
    Unflat(x, width, rows);
    c, k := x / width, x % width;
  }

  /** Replaying what is kept of a and then of b gives what replaying both at once gives. */
  lemma {:induction false} ConvComposes<T>(s: seq<T>, mid: seq<T>, end: seq<T>, once: seq<T>, channels: nat, width: nat,
                                           a: seq<T>, b: seq<T>, m: nat, n: nat)
    requires m * channels <= |a|
    requires ConvReplayed(s, mid, channels, width, a, m) && ConvReplayed(mid, end, channels, width, b, n)
    requires ConvReplayed(s, once, channels, width, a[..m * channels] + b, m + n)
    ensures end == once
  {
    hide FlatRow, Slide, Channel;
    var kept := a[..m * channels];
    forall c | 0 <= c < channels ensures FlatRow(end, channels, width, c, width) ==
        FlatRow(once, channels, width, c, width) {
      assert RowSlid(s, mid, channels, width, a, m, c) && RowSlid(mid, end, channels, width, b, n, c);
      assert RowSlid(s, once, channels, width, kept + b, m + n, c);
      ChannelConcat(kept, b, channels, c, m, n);
      ChannelKept(a, channels, c, m);
      SlideCompose(FlatRow(s, channels, width, c, width), Channel(a, channels, c, m), Channel(b, channels, c, n));
    }
    RowsDetermine(end, once, channels, width);
  }

  /** Slides every window in place or into a separate destination. */
  method ReplayConv<T>(source: array<T>, destination: array<T>, values: seq<T>, channels: nat, width: nat, kept: nat)
    requires source.Length == destination.Length == channels * width && kept * channels <= |values|
    modifies destination
    ensures ConvReplayed(old(source[..]), destination[..], channels, width, values, kept)
    ensures source != destination ==> source[..] == old(source[..])
  {
    hide Slide, Channel, FlatRow, RowSlid;
    ghost var s := source[..];
    for c := 0 to channels
      invariant forall x | c * width <= x < source.Length :: source[x] == s[x]
      invariant source != destination ==> source[..] == s
      invariant forall d | 0 <= d < c :: RowSlid(s, destination[..], channels, width, values, kept, d)
    {
      ghost var was := destination[..];
      RowInside(c, channels, width);
      SlideRow(source, destination, values, channels, width, kept, c, s);
      forall d | 0 <= d < c ensures RowSlid(s, destination[..], channels, width, values, kept, d) {
        assert RowSlid(s, was, channels, width, values, kept, d);
        RowKept(s, was, destination[..], channels, width, values, kept, c, d);
      }
    }
  }

  lemma {:induction false} RowKept<T>(s: seq<T>, was: seq<T>, now: seq<T>, channels: nat, width: nat, values: seq<T>,
                                      kept: nat, c: nat, d: nat)
    requires |s| == |was| == |now| == channels * width && kept * channels <= |values| && d < c < channels
    requires forall x | 0 <= x < c * width && x < |was| :: now[x] == was[x]
    requires RowSlid(s, was, channels, width, values, kept, d)
    ensures RowSlid(s, now, channels, width, values, kept, d)
  {
    hide FlatRow, Slide, Channel;
    RowsApart(d, c, width);
    RowUnchanged(was, now, channels, width, d, width);
  }

  /** One channel, from its first place on: what a place needs lies at or after it. */
  method SlideRow<T>(source: array<T>, destination: array<T>, values: seq<T>, channels: nat, width: nat, kept: nat,
                     c: nat, ghost s: seq<T>)
    requires source.Length == destination.Length == |s| == channels * width && kept * channels <= |values|
             && c < channels
    requires forall x | c * width <= x < source.Length :: source[x] == s[x]
    modifies destination
    ensures forall x | 0 <= x < c * width && x < destination.Length :: destination[x] == old(destination[x])
    ensures forall x | (c + 1) * width <= x < source.Length :: source[x] == s[x]
    ensures source != destination ==> source[..] == old(source[..])
    ensures RowSlid(s, destination[..], channels, width, values, kept, c)
  {
    hide FlatRow, Slide, Channel, RowSlid;
    RowInside(c, channels, width);
    var base := c * width;
    Products(c, 1, width);
    ghost var row, items := FlatRow(s, channels, width, c, width), Channel(values, channels, c, kept);
    ghost var slid := Slide(row, items);
    for position := 0 to width
      invariant forall x | 0 <= x < base :: destination[x] == old(destination[x])
      invariant forall x | base + position <= x < source.Length :: source[x] == s[x]
      invariant source != destination ==> source[..] == old(source[..])
      invariant forall x | base <= x < base + position :: destination[x] == slid[x - base]
    {
      destination[base + position] := SlidItem(source, values, channels, width, kept, c, base, position, s);
    }
    RowIs(destination[..], channels, width, c, slid);
    SlidIs(s, destination[..], channels, width, values, kept, c);
  }

  /** What belongs at a place of channel c, read from the part of the source not yet overwritten. */
  method SlidItem<T>(source: array<T>, values: seq<T>, channels: nat, width: nat, kept: nat, c: nat, base: nat,
                     position: nat, ghost s: seq<T>) returns (v: T)
    requires source.Length == |s| == channels * width && kept * channels <= |values| && c < channels && position < width
             && base == c * width
    requires forall x | base + position <= x < source.Length :: source[x] == s[x]
    ensures v == Slide(FlatRow(s, channels, width, c, width), Channel(values, channels, c, kept))[position]
  {
    hide FlatRow, Slide, Channel;
    SlideAt(FlatRow(s, channels, width, c, width), Channel(values, channels, c, kept), position);
    var shifted := position + kept;
    if shifted < width {
      FlatAt(s, channels, width, c, width, shifted);
      v := source[base + shifted];
    } else {
      ChannelAt(values, channels, c, kept, shifted - width);
      v := values[(shifted - width) * channels + c];
    }
  }

  lemma {:induction false} SlidIs<T>(s: seq<T>, now: seq<T>, channels: nat, width: nat, values: seq<T>, kept: nat,
                                     c: nat)
    requires |s| == |now| == channels * width && kept * channels <= |values| && c < channels
    requires FlatRow(now, channels, width, c, width) == Slide(FlatRow(s, channels, width, c, width),
             Channel(values, channels, c, kept))
    ensures RowSlid(s, now, channels, width, values, kept, c)
  {}

  lemma {:induction false} RowIs<T>(flat: seq<T>, rows: nat, width: nat, c: nat, row: seq<T>)
    requires |flat| == rows * width && c < rows && |row| == width
    requires forall x | c * width <= x < c * width + width && x < |flat| :: flat[x] == row[x - c * width]
    ensures FlatRow(flat, rows, width, c, width) == row
  {
    RowInside(c, rows, width);
  }

  lemma {:induction false} SlideAt<T>(window: seq<T>, items: seq<T>, position: nat)
    requires position < |window|
    ensures var shifted := position + |items|;
            Slide(window, items)[position] == if shifted < |window| then window[shifted] else items[shifted - |window|]
  {}

  // ----- the compressed key index

  const MAX_INT32: int := 0x7FFF_FFFF

  /** Committed key rows and the rows of a group not yet complete, with their counts. */
  datatype Index<T> = Index(keys: seq<T>, aux: seq<T>, keyLength: nat, bufferLength: nat)

  /** What every committed index satisfies for groups of ratio tokens. */
  ghost predicate Committed<T>(ix: Index<T>, ratio: nat) {
    && 0 < ratio && ratio - 1 <= |ix.aux|
    && ix.keyLength <= |ix.keys| && ix.bufferLength < ratio
  }

  /** The capacity test made before anything is written. */
  ghost predicate Fits<T>(ix: Index<T>, ratio: nat, kept: nat)
    requires 0 < ratio
  {
    && ix.keyLength + (ix.bufferLength + kept) / ratio <= |ix.keys|
    && ix.keyLength + (ix.bufferLength + kept) / ratio <= MAX_INT32
  }

  /** One token: the last of a group becomes the group's key row, any other waits in the buffer. */
  ghost function Push<T>(ix: Index<T>, ratio: nat, v: T): Index<T> {
    if ix.bufferLength + 1 == ratio then
      ix.(keys := Put(ix.keys, ix.keyLength, v), keyLength := ix.keyLength + 1, bufferLength := 0)
    else
      ix.(aux := Put(ix.aux, ix.bufferLength, v), bufferLength := ix.bufferLength + 1)
  }

  ghost function Put<T>(s: seq<T>, i: nat, v: T): (r: seq<T>)
    ensures |r| == |s|
  {
    if i < |s| then s[i := v] else s
  }

  ghost function PushAll<T>(ix: Index<T>, ratio: nat, values: seq<T>): Index<T>
    decreases |values|
  {
    if values == [] then ix else Push(PushAll(ix, ratio, values[..|values| - 1]), ratio, values[|values| - 1])
  }

  lemma {:induction false} PushCounts(buffer: nat, n: nat, ratio: nat)
    requires buffer < ratio
    ensures var q, r := (buffer + n) / ratio, (buffer + n) % ratio;
            if r + 1 == ratio then (buffer + n + 1) / ratio == q + 1 && (buffer + n + 1) % ratio == 0
            else (buffer + n + 1) / ratio == q && (buffer + n + 1) % ratio == r + 1
  {
    var q, r := (buffer + n) / ratio, (buffer + n) % ratio;
    assert buffer + n == q * ratio + r;
    if r + 1 == ratio {
      Products(q, 1, ratio);
      DivUnique(buffer + n + 1, ratio, q + 1, 0);
    } else {
      DivUnique(buffer + n + 1, ratio, q, r + 1);
    }
  }

  /** The counts after a replay are quotient and remainder by the ratio. */
  lemma {:induction false} PushAllCounts<T>(ix: Index<T>, ratio: nat, values: seq<T>)
    requires Committed(ix, ratio)
    ensures var r := PushAll(ix, ratio, values);
            && r.keyLength == ix.keyLength + (ix.bufferLength + |values|) / ratio
            && r.bufferLength == (ix.bufferLength + |values|) % ratio
            && |r.keys| == |ix.keys| && |r.aux| == |ix.aux|
  {
    if values == [] {
      DivUnique(ix.bufferLength, ratio, 0, ix.bufferLength);
    } else {
      PushAllCounts(ix, ratio, values[..|values| - 1]);
      PushCounts(ix.bufferLength, |values| - 1, ratio);
    }
  }

  /** What the capacity test decides: whether the index after the replay is within its capacity. */
  lemma {:induction false} FitsIff<T>(ix: Index<T>, ratio: nat, values: seq<T>)
    requires Committed(ix, ratio)
    ensures Fits(ix, ratio, |values|) <==>
            PushAll(ix, ratio, values).keyLength <= |ix.keys| && PushAll(ix, ratio, values).keyLength <= MAX_INT32
    ensures PushAll(ix, ratio, values).bufferLength <= |ix.aux|
  {
    hide PushAll;
    PushAllCounts(ix, ratio, values);
  }

  /** An index that has replayed nothing is committed, if its buffer can hold all but one token of a group. */
  lemma {:induction false} FreshCommitted<T>(keys: seq<T>, aux: seq<T>, ratio: nat)
    ensures Committed(Index(keys, aux, 0, 0), ratio) <==> 0 < ratio <= |aux| + 1
  {}

  /** A replay that fits keeps a committed index committed. */
  lemma {:induction false} PushAllCommitted<T>(ix: Index<T>, ratio: nat, values: seq<T>)
    requires Committed(ix, ratio) && Fits(ix, ratio, |values|)
    ensures Committed(PushAll(ix, ratio, values), ratio)
  {
    hide PushAll;
    PushAllCounts(ix, ratio, values);
  }

  lemma {:induction false} PushAllConcat<T>(ix: Index<T>, ratio: nat, a: seq<T>, b: seq<T>)
    ensures PushAll(PushAll(ix, ratio, a), ratio, b) == PushAll(ix, ratio, a + b)
    decreases |b|
  {
    if b == [] {
      assert a + b == a;
    } else {
      assert (a + b)[..|a + b| - 1] == a + b[..|b| - 1];
      PushAllConcat(ix, ratio, a, b[..|b| - 1]);
    }
  }

  /** Replaying a and then b is accepted exactly when replaying both at once is, with the same result. */
  lemma {:induction false} IndexComposes<T>(ix: Index<T>, ratio: nat, a: seq<T>, b: seq<T>)
    requires Committed(ix, ratio)
    ensures Fits(ix, ratio, |a + b|) <==> Fits(ix, ratio, |a|) && Fits(PushAll(ix, ratio, a), ratio, |b|)
    ensures PushAll(PushAll(ix, ratio, a), ratio, b) == PushAll(ix, ratio, a + b)
  {
    hide PushAll;
    PushAllConcat(ix, ratio, a, b);
    PushAllCounts(ix, ratio, a);
    SplitQuotient(ix.bufferLength + |a|, |b|, ratio);
  }

  lemma {:induction false} SplitQuotient(x: nat, y: nat, ratio: nat)
    requires 0 < ratio
    ensures (x + y) / ratio == x / ratio + (x % ratio + y) / ratio && x / ratio <= (x + y) / ratio
  {
    var q, r := (x % ratio + y) / ratio, (x % ratio + y) % ratio;
    assert x == (x / ratio) * ratio + x % ratio;
    assert x % ratio + y == q * ratio + r;
    Products(x / ratio, q, ratio);
    DivUnique(x + y, ratio, x / ratio + q, r);
  }

  /** Which of the replayed tokens completes group g. */
  ghost function Completing(g: nat, ratio: nat, buffer: nat): int {
    (g + 1) * ratio - 1 - buffer
  }

  lemma {:induction false} CompletingNext(buffer: nat, n: nat, ratio: nat)
    requires buffer < ratio && (buffer + n) % ratio + 1 == ratio
    ensures Completing((buffer + n) / ratio, ratio, buffer) == n
  {
    var q := (buffer + n) / ratio;
    assert buffer + n == q * ratio + (buffer + n) % ratio;
    Products(q, 1, ratio);
  }

  /** What the key rows hold: row keyLength + g is the token that completed group g, older rows are kept. */
  ghost predicate KeyRow<T>(ix: Index<T>, ratio: nat, values: seq<T>, keys: seq<T>, k: nat) {
    && k < |keys| == |ix.keys|
    && if k < ix.keyLength then keys[k] == ix.keys[k]
       else var at := Completing(k - ix.keyLength, ratio, ix.bufferLength); 0 <= at < |values| && keys[k] == values[at]
  }

  lemma {:induction false} KeyRows<T>(ix: Index<T>, ratio: nat, values: seq<T>, k: nat)
    requires Committed(ix, ratio) && Fits(ix, ratio, |values|)
             && k < ix.keyLength + (ix.bufferLength + |values|) / ratio
    ensures KeyRow(ix, ratio, values, PushAll(ix, ratio, values).keys, k)
  {
    hide *;
    if values == [] {
      OldKeys(ix, ratio, values, k);
    } else {
      var n := |values| - 1;
      var init := values[..n];
      var now := PushAll(ix, ratio, init);
      PushLast(ix, ratio, values);
      FitsLess(ix, ratio, n);
      PushAllCounts(ix, ratio, init);
      NextGroup(ix, ratio, n, k);
      if k < now.keyLength {
        KeyRows(ix, ratio, init, k);
        OldKey(ix, ratio, values, now, k);
      } else {
        CompletingNext(ix.bufferLength, n, ratio);
        NewKey(ix, ratio, values, now, k);
      }
    }
  }

  lemma {:induction false} PushLast<T>(ix: Index<T>, ratio: nat, values: seq<T>)
    requires values != []
    ensures var n := |values| - 1; PushAll(ix, ratio, values) == Push(PushAll(ix, ratio, values[..n]), ratio, values[n])
  {}

  lemma {:induction false} OldKeys<T>(ix: Index<T>, ratio: nat, none: seq<T>, k: nat)
    requires Committed(ix, ratio) && Fits(ix, ratio, 0) && none == [] && k < ix.keyLength + ix.bufferLength / ratio
    ensures KeyRow(ix, ratio, none, PushAll(ix, ratio, none).keys, k)
  {
    DivUnique(ix.bufferLength, ratio, 0, ix.bufferLength);
  }

  /** A key row of one token more is an older one, or the row that this token completes. */
  lemma {:induction false} NextGroup<T>(ix: Index<T>, ratio: nat, n: nat, k: nat)
    requires Committed(ix, ratio) && Fits(ix, ratio, n + 1) && k < ix.keyLength + (ix.bufferLength + n + 1) / ratio
    ensures 0 < ratio && ix.bufferLength < ratio && k < |ix.keys|
    ensures var next := ix.keyLength + (ix.bufferLength + n) / ratio;
            k < next || (k == next && (ix.bufferLength + n) % ratio + 1 == ratio)
  {
    PushCounts(ix.bufferLength, n, ratio);
  }

  lemma {:induction false} FitsLess<T>(ix: Index<T>, ratio: nat, n: nat)
    requires Committed(ix, ratio) && Fits(ix, ratio, n + 1)
    ensures Fits(ix, ratio, n)
  {
    SplitQuotient(ix.bufferLength + n, 1, ratio);
  }

  /** The token that completes a group is that group's key row. */
  lemma {:induction false} NewKey<T>(ix: Index<T>, ratio: nat, values: seq<T>, now: Index<T>, k: nat)
    requires values != [] && now.bufferLength + 1 == ratio && k == now.keyLength
             && ix.keyLength <= k < |now.keys| == |ix.keys|
    requires Completing(k - ix.keyLength, ratio, ix.bufferLength) == |values| - 1
    ensures KeyRow(ix, ratio, values, Push(now, ratio, values[|values| - 1]).keys, k)
  {
    hide Completing;
  }

  lemma {:induction false} OldKey<T>(ix: Index<T>, ratio: nat, values: seq<T>, now: Index<T>, k: nat)
    requires values != [] && (now.bufferLength + 1 == ratio ==> k != now.keyLength)
    requires KeyRow(ix, ratio, values[..|values| - 1], now.keys, k)
    ensures KeyRow(ix, ratio, values, Push(now, ratio, values[|values| - 1]).keys, k)
  {
    hide Completing;
  }

  /** What the buffer holds: its rows are the tokens since the last completed group. */
  lemma {:induction false} BufferRows<T>(ix: Index<T>, ratio: nat, values: seq<T>, i: nat)
    requires Committed(ix, ratio) && i < (ix.bufferLength + |values|) % ratio
    ensures var r := PushAll(ix, ratio, values);
            var at := |values| - (ix.bufferLength + |values|) % ratio + i;
            && |r.aux| == |ix.aux| && i < |r.aux|
            && r.aux[i] == if 0 <= at then values[at] else ix.aux[i]
  {
    if values == [] {
      DivUnique(ix.bufferLength, ratio, 0, ix.bufferLength);
    } else {
      var n := |values| - 1;
      var init := values[..n];
      PushAllCounts(ix, ratio, init);
      PushCounts(ix.bufferLength, n, ratio);
      var r := (ix.bufferLength + n) % ratio;
      if i < r { BufferRows(ix, ratio, init, i); }
    }
  }

  datatype IndexError = InvalidLengths | ExceedsCapacity

  /** Copies a whole buffer unless it is the destination itself. */
  method CopyInto<T>(source: array<T>, destination: array<T>)
    requires source.Length == destination.Length
    modifies destination
    ensures destination[..] == old(source[..])
  {
    if source != destination {
      for i := 0 to source.Length
        invariant destination[..i] == source[..i] && source[..] == old(source[..])
      {
        destination[i] := source[i];
      }
      assert destination[..] == destination[..source.Length] && source[..] == source[..source.Length];
    }
  }

  /** Replays kept tokens into a key index. The lengths are the committed ones; the result holds the new ones. */
  method ReplayIndexer<T>(source: array<T>, destination: array<T>, sourceAux: array<T>, destinationAux: array<T>,
                          keyLength: int, bufferLength: int, values: seq<T>, kept: nat, ratio: nat)
    returns (r: Result<(nat, nat), IndexError>)
    requires source.Length == destination.Length && sourceAux.Length == destinationAux.Length && kept <= |values|
    requires destination != destinationAux && destination != sourceAux && destinationAux != source
    modifies destination, destinationAux
    ensures r.Failure? ==> destination[..] == old(destination[..]) && destinationAux[..] == old(destinationAux[..])
    ensures r == Failure(InvalidLengths) <==>
              keyLength < 0 || bufferLength < 0 || !Committed(Index(old(source[..]), old(sourceAux[..]), keyLength,
                bufferLength), ratio)
    ensures r != Failure(InvalidLengths) ==>
              var ix := Index(old(source[..]), old(sourceAux[..]), keyLength, bufferLength);
              && (r.Success? <==> Fits(ix, ratio, kept))
              && (r.Success? ==>
                    Index(destination[..], destinationAux[..], r.value.0, r.value.1) ==
                    PushAll(ix, ratio, values[..kept]))
  {
    if || ratio == 0 || ratio - 1 > sourceAux.Length || keyLength < 0 || bufferLength < 0
       || keyLength > source.Length || bufferLength >= ratio || bufferLength > sourceAux.Length {
      return Failure(InvalidLengths);
    }
    var retained := bufferLength + kept;
    if || retained / ratio > source.Length - keyLength || retained % ratio > sourceAux.Length
       || retained / ratio > MAX_INT32 - keyLength {
      return Failure(ExceedsCapacity);
    }
    var k, b := PushTokens(source, destination, sourceAux, destinationAux, keyLength, bufferLength, values, kept,
      ratio);
    r := Success((k, b));
  }

  method PushTokens<T>(source: array<T>, destination: array<T>, sourceAux: array<T>, destinationAux: array<T>,
                       keyLength: nat, bufferLength: nat, values: seq<T>, kept: nat, ratio: nat)
    returns (k: nat, b: nat)
    requires source.Length == destination.Length && sourceAux.Length == destinationAux.Length && kept <= |values|
    requires destination != destinationAux && destination != sourceAux && destinationAux != source
    requires Committed(Index(source[..], sourceAux[..], keyLength, bufferLength), ratio)
    requires Fits(Index(source[..], sourceAux[..], keyLength, bufferLength), ratio, kept)
    modifies destination, destinationAux
    ensures Index(destination[..], destinationAux[..], k, b) ==
            PushAll(Index(old(source[..]), old(sourceAux[..]), keyLength, bufferLength), ratio, values[..kept])
  {
    hide PushAll;
    ghost var ix := Index(source[..], sourceAux[..], keyLength, bufferLength);
    CopyInto(source, destination);
    CopyInto(sourceAux, destinationAux);
    k, b := keyLength, bufferLength;
    PushNone(ix, ratio, values[..0]);
    for t := 0 to kept
      invariant Index(destination[..], destinationAux[..], k, b) == PushAll(ix, ratio, values[..t])
    {
      PushNext(ix, ratio, values, t, kept);
      b := b + 1;
      if b == ratio {
        destination[k] := values[t];
        k := k + 1;
        b := 0;
      } else {
        destinationAux[b - 1] := values[t];
      }
    }
  }

  lemma {:induction false} PushNone<T>(ix: Index<T>, ratio: nat, none: seq<T>)
    requires none == []
    ensures PushAll(ix, ratio, none) == ix
  {}

  /** The next token of an accepted replay has room where it goes. */
  lemma {:induction false} PushNext<T>(ix: Index<T>, ratio: nat, values: seq<T>, t: nat, kept: nat)
    requires Committed(ix, ratio) && Fits(ix, ratio, kept) && t < kept <= |values|
    ensures PushAll(ix, ratio, values[..t + 1]) == Push(PushAll(ix, ratio, values[..t]), ratio, values[t])
    ensures var now := PushAll(ix, ratio, values[..t]);
            if now.bufferLength + 1 == ratio then now.keyLength < |now.keys| else now.bufferLength < |now.aux|
  {
    assert values[..t + 1][..t] == values[..t];
    var now := PushAll(ix, ratio, values[..t]);
    assert PushAll(ix, ratio, values[..t + 1]) == Push(now, ratio, values[t]);
    hide PushAll;
    PushAllCounts(ix, ratio, values[..t]);
    PushCounts(ix.bufferLength, t, ratio);
    SplitQuotient(ix.bufferLength + t + 1, kept - t - 1, ratio);
  }

  // ----- recurrent cells

  /** The sizes of a gated recurrent state: every value head has width * keyWidth cells, and shares the keys
      of one of the keyHeads key heads. */
  datatype Gates = Gates(heads: nat, width: nat, keyHeads: nat, keyWidth: nat)
  {
    function KeyHead(h: nat): (k: nat)
      requires h < heads && 0 < keyHeads
      ensures k < keyHeads
    {
      HeadBelow(h, heads, keyHeads);
      h * keyHeads / heads
    }
  }

  lemma {:induction false} HeadBelow(h: nat, heads: nat, keyHeads: nat)
    requires h < heads && 0 < keyHeads
    ensures h * keyHeads / heads < keyHeads
  {
    var q := h * keyHeads / heads;
    if keyHeads <= q {
      assert q * heads <= h * keyHeads;
      MulLe(keyHeads, q, heads);
      MulLess(h, heads, keyHeads);
      assert false;
    }
  }

  /** The transitions to replay, count of them: a decay per head, keys per key head and deltas per head, transition
      by transition. The buffers may hold more than are kept. */
  datatype Transitions = Transitions(decay: seq<real>, key: seq<real>, delta: seq<real>, count: nat)

  ghost predicate Fed(g: Gates, t: Transitions) {
    && 0 < g.keyHeads
    && t.count * g.heads <= |t.decay|
    && (t.count * g.keyHeads) * g.keyWidth <= |t.key|
    && (t.count * g.heads) * g.width <= |t.delta|
  }

  /** Where entry (i, j, k) is. */
  function PlaceOf(m: nat, w: nat, i: nat, j: nat, k: nat): nat {
    (i * m + j) * w + k
  }

  /** Entry (i, j, k) of an array that begins with n * m * w entries. */
  function Entry(s: seq<real>, n: nat, m: nat, w: nat, i: nat, j: nat, k: nat): real
    requires (n * m) * w <= |s| && i < n && j < m && k < w
  {
    Flat(i, j, m, n);
    Flat(i * m + j, k, w, n * m);
    s[(i * m + j) * w + k]
  }

  lemma {:induction false} EntryConcat(a: seq<real>, b: seq<real>, n: nat, n': nat, m: nat, w: nat, i: nat, j: nat,
                                       k: nat)
    requires |a| == (n * m) * w && (n' * m) * w <= |b| && i < n + n' && j < m && k < w
    ensures ((n + n') * m) * w <= |a + b|
    ensures Entry(a + b, n + n', m, w, i, j, k) == if i < n then Entry(a, n, m, w, i, j, k)
            else Entry(b, n', m, w, i - n, j, k)
  {
    hide *;
    ConcatFits(a, b, n, n', m, w);
    EntryAt(a + b, n + n', m, w, i, j, k);
    ConcatAt(a, b, PlaceOf(m, w, i, j, k));
    if i < n {
      EntryAt(a, n, m, w, i, j, k);
    } else {
      EntryAt(b, n', m, w, i - n, j, k);
      Shifted(n, i - n, m, j, w, k);
    }
  }

  lemma {:induction false} ConcatFits(a: seq<real>, b: seq<real>, n: nat, n': nat, m: nat, w: nat)
    requires |a| == (n * m) * w && (n' * m) * w <= |b|
    ensures ((n + n') * m) * w <= |a + b|
  {
    Products(n, n', m);
    Products(n * m, n' * m, w);
  }

  lemma {:induction false} ConcatAt(a: seq<real>, b: seq<real>, x: nat)
    requires x < |a + b|
    ensures (a + b)[x] == if x < |a| then a[x] else b[x - |a|]
  {}

  /** Entries beyond the first n * m * w do not matter. */
  lemma {:induction false} EntryKept(s: seq<real>, n: nat, m: nat, w: nat, i: nat, j: nat, k: nat)
    requires (n * m) * w <= |s| && i < n && j < m && k < w
    ensures |s[..(n * m) * w]| == (n * m) * w
    ensures Entry(s[..(n * m) * w], n, m, w, i, j, k) == Entry(s, n, m, w, i, j, k)
  {
    hide Entry;
    EntryAt(s, n, m, w, i, j, k);
    EntryAt(s[..(n * m) * w], n, m, w, i, j, k);
  }

  lemma {:induction false} EntryAt(s: seq<real>, n: nat, m: nat, w: nat, i: nat, j: nat, k: nat)
    requires (n * m) * w <= |s| && i < n && j < m && k < w
    ensures PlaceOf(m, w, i, j, k) < |s| && Entry(s, n, m, w, i, j, k) == s[PlaceOf(m, w, i, j, k)]
  {
    Flat(i, j, m, n);
    Flat(i * m + j, k, w, n * m);
  }

  lemma {:induction false} Shifted(n: nat, i: nat, m: nat, j: nat, w: nat, k: nat)
    ensures PlaceOf(m, w, n + i, j, k) == (n * m) * w + PlaceOf(m, w, i, j, k)
  {
    Products(n, i, m);
    Products(n * m, i * m + j, w);
  }

  /** One cell through one transition. */
  function Gate(state: real, decay: real, key: real, delta: real): real {
    key * delta + state * decay
  }

  /** A cell after the first n transitions. */
  ghost function Evolve(g: Gates, t: Transitions, h: nat, v: nat, k: nat, state: real, n: nat): real
    requires Fed(g, t) && h < g.heads && v < g.width && k < g.keyWidth && n <= t.count
  {
    if n == 0 then state else
      Gate(Evolve(g, t, h, v, k, state, n - 1), DecayAt(g, t, n - 1, h),
           Entry(t.key, t.count, g.keyHeads, g.keyWidth, n - 1, g.KeyHead(h), k),
           Entry(t.delta, t.count, g.heads, g.width, n - 1, h, v))
  }

  function DecayAt(g: Gates, t: Transitions, i: nat, h: nat): real
    requires Fed(g, t) && h < g.heads && i < t.count
  {
    Flat(i, h, g.heads, t.count);
    t.decay[i * g.heads + h]
  }

  /** The kept transitions alone. */
  ghost function Kept(g: Gates, t: Transitions): (r: Transitions)
    requires Fed(g, t)
    ensures Fed(g, r) && r.count == t.count
  {
    Transitions(t.decay[..t.count * g.heads], t.key[..(t.count * g.keyHeads) * g.keyWidth],
                t.delta[..(t.count * g.heads) * g.width], t.count)
  }

  /** a's kept transitions followed by b's. */
  ghost function Joined(g: Gates, a: Transitions, b: Transitions): Transitions
    requires Fed(g, a)
  {
    var k := Kept(g, a);
    Transitions(k.decay + b.decay, k.key + b.key, k.delta + b.delta, a.count + b.count)
  }

  lemma {:induction false} JoinedFed(g: Gates, a: Transitions, b: Transitions)
    requires Fed(g, a) && Fed(g, b)
    ensures Fed(g, Joined(g, a, b))
  {
    Products(a.count, b.count, g.heads);
    Products(a.count, b.count, g.keyHeads);
    Products(a.count * g.keyHeads, b.count * g.keyHeads, g.keyWidth);
    Products(a.count * g.heads, b.count * g.heads, g.width);
  }

  lemma {:induction false} JoinedDecay(g: Gates, a: Transitions, b: Transitions, i: nat, h: nat)
    requires Fed(g, a) && Fed(g, b) && Fed(g, Joined(g, a, b)) && i < a.count + b.count && h < g.heads
    ensures DecayAt(g, Joined(g, a, b), i, h) ==
            if i < a.count then DecayAt(g, a, i, h) else DecayAt(g, b, i - a.count, h)
  {
    var n := a.count * g.heads;
    if i < a.count {
      Flat(i, h, g.heads, a.count);
      ConcatAt(a.decay[..n], b.decay, i * g.heads + h);
    } else {
      Flat(i - a.count, h, g.heads, b.count);
      Products(a.count, i - a.count, g.heads);
      ConcatAt(a.decay[..n], b.decay, i * g.heads + h);
    }
  }

  /** A cell evolves through joined transitions as through the two parts one after the other. */
  lemma {:induction false} EvolveJoined(g: Gates, a: Transitions, b: Transitions, h: nat, v: nat, k: nat, state: real,
                                        n: nat)
    requires Fed(g, a) && Fed(g, b) && n <= a.count + b.count
    requires h < g.heads && v < g.width && k < g.keyWidth
    ensures Fed(g, Joined(g, a, b))
    ensures Evolve(g, Joined(g, a, b), h, v, k, state, n) ==
            if n <= a.count then Evolve(g, a, h, v, k, state, n)
            else Evolve(g, b, h, v, k, Evolve(g, a, h, v, k, state, a.count), n - a.count)
  {
    hide Entry, DecayAt, Gate, Gates.KeyHead, Fed, Kept;
    JoinedFed(g, a, b);
    if 0 < n {
      var t := Joined(g, a, b);
      assert t.count == a.count + b.count;
      EvolveJoined(g, a, b, h, v, k, state, n - 1);
      JoinedDecay(g, a, b, n - 1, h);
      JoinedEntries(g, a, b, n - 1, h, v, k);
    }
  }

  lemma {:induction false} JoinedEntries(g: Gates, a: Transitions, b: Transitions, i: nat, h: nat, v: nat, k: nat)
    requires Fed(g, a) && Fed(g, b) && Fed(g, Joined(g, a, b)) && i < a.count + b.count
    requires h < g.heads && v < g.width && k < g.keyWidth
    ensures var t := Joined(g, a, b);
            && Entry(t.key, t.count, g.keyHeads, g.keyWidth, i, g.KeyHead(h), k) ==
               (if i < a.count then Entry(a.key, a.count, g.keyHeads, g.keyWidth, i, g.KeyHead(h), k)
                else Entry(b.key, b.count, g.keyHeads, g.keyWidth, i - a.count, g.KeyHead(h), k))
            && Entry(t.delta, t.count, g.heads, g.width, i, h, v) ==
               (if i < a.count then Entry(a.delta, a.count, g.heads, g.width, i, h, v)
                else Entry(b.delta, b.count, g.heads, g.width, i - a.count, h, v))
  {
    hide Entry, Gates.KeyHead;
    JoinedEntry(a.key, b.key, a.count, b.count, g.keyHeads, g.keyWidth, i, g.KeyHead(h), k);
    JoinedEntry(a.delta, b.delta, a.count, b.count, g.heads, g.width, i, h, v);
  }

  lemma {:induction false} JoinedEntry(a: seq<real>, b: seq<real>, n: nat, n': nat, m: nat, w: nat, i: nat, j: nat,
                                       k: nat)
    requires (n * m) * w <= |a| && (n' * m) * w <= |b| && i < n + n' && j < m && k < w
    ensures ((n + n') * m) * w <= |a[..(n * m) * w] + b|
    ensures Entry(a[..(n * m) * w] + b, n + n', m, w, i, j, k) ==
            if i < n then Entry(a, n, m, w, i, j, k) else Entry(b, n', m, w, i - n, j, k)
  {
    hide Entry;
    EntryConcat(a[..(n * m) * w], b, n, n', m, w, i, j, k);
    if i < n { EntryKept(a, n, m, w, i, j, k); }
  }

  /** Only the kept transitions matter: whatever else the buffers hold, every cell evolves alike. */
  lemma {:induction false} OnlyKeptMatter(g: Gates, t: Transitions, h: nat, v: nat, k: nat, state: real, n: nat)
    requires Fed(g, t) && h < g.heads && v < g.width && k < g.keyWidth && n <= t.count
    ensures Evolve(g, Kept(g, t), h, v, k, state, n) == Evolve(g, t, h, v, k, state, n)
  {
    if 0 < n {
      OnlyKeptMatter(g, t, h, v, k, state, n - 1);
      Flat(n - 1, h, g.heads, t.count);
      EntryKept(t.key, t.count, g.keyHeads, g.keyWidth, n - 1, g.KeyHead(h), k);
      EntryKept(t.delta, t.count, g.heads, g.width, n - 1, h, v);
      hide Entry, Gate, Gates.KeyHead, Fed;
    }
  }

  /** Row and column of a flat place. */
  ghost function Split(y: nat, rows: nat, width: nat): (c: (nat, nat))
    requires y < rows * width
    ensures c.0 < rows && c.1 < width
  {
    assert 0 < width;
    Unflat(y, width, rows);
    (y / width, y % width)
  }

  lemma {:induction false} SplitIs(i: nat, j: nat, rows: nat, width: nat)
    requires i < rows && j < width
    ensures i * width + j < rows * width && Split(i * width + j, rows, width) == (i, j)
  {
    Flat(i, j, width, rows);
  }

  /** The head, value and key coordinate of a flat place. */
  ghost function Coordinate(g: Gates, y: nat): (c: (nat, nat, nat))
    requires y < (g.heads * g.width) * g.keyWidth
    ensures c.0 < g.heads && c.1 < g.width && c.2 < g.keyWidth
  {
    var p := Split(y, g.heads * g.width, g.keyWidth);
    var q := Split(p.0, g.heads, g.width);
    (q.0, q.1, p.1)
  }

  /** The final value of the cell at a flat place. */
  ghost function CellAfter(g: Gates, t: Transitions, state: seq<real>, y: nat): real
    requires Fed(g, t) && y < |state| == (g.heads * g.width) * g.keyWidth
  {
    var c := Coordinate(g, y);
    Evolve(g, t, c.0, c.1, c.2, state[y], t.count)
  }

  /** The cell (h, v, k) lies at its place and ends as it evolves. */
  lemma {:induction false} CellMeaning(g: Gates, t: Transitions, state: seq<real>, h: nat, v: nat, k: nat, row: nat)
    requires Fed(g, t) && |state| == (g.heads * g.width) * g.keyWidth && h < g.heads && v < g.width && k < g.keyWidth
    requires row == h * g.width + v
    ensures row * g.keyWidth + k < |state|
    ensures CellAfter(g, t, state, row * g.keyWidth + k) == Evolve(g, t, h, v, k, state[row * g.keyWidth + k], t.count)
  {
    SplitIs(h, v, g.heads, g.width);
    SplitIs(row, k, g.heads * g.width, g.keyWidth);
    hide Split, Evolve;
  }

  ghost predicate GatedReplayed(g: Gates, t: Transitions, before: seq<real>, after: seq<real>) {
    && Fed(g, t) && |before| == |after| == (g.heads * g.width) * g.keyWidth
    && forall y | 0 <= y < |after| :: after[y] == CellAfter(g, t, before, y)
  }

  /** Replaying a's transitions and then b's gives what replaying both at once gives. */
  lemma {:induction false} GatedComposes(g: Gates, a: Transitions, b: Transitions, s: seq<real>, mid: seq<real>,
                                         end: seq<real>, once: seq<real>)
    requires GatedReplayed(g, a, s, mid) && GatedReplayed(g, b, mid, end) && GatedReplayed(g, Joined(g, a, b), s, once)
    ensures end == once
  {
    hide Evolve, Fed, Coordinate, Kept;
    forall y | 0 <= y < |end| ensures end[y] == once[y] {
      var c := Coordinate(g, y);
      assert mid[y] == CellAfter(g, a, s, y);
      EvolveWhole(g, a, b, c.0, c.1, c.2, s[y]);
    }
  }

  lemma {:induction false} EvolveWhole(g: Gates, a: Transitions, b: Transitions, h: nat, v: nat, k: nat, state: real)
    requires Fed(g, a) && Fed(g, b) && h < g.heads && v < g.width && k < g.keyWidth
    ensures Fed(g, Joined(g, a, b))
    ensures Evolve(g, Joined(g, a, b), h, v, k, state, a.count + b.count) ==
            Evolve(g, b, h, v, k, Evolve(g, a, h, v, k, state, a.count), b.count)
  {
    hide Fed;
    EvolveJoined(g, a, b, h, v, k, state, a.count + b.count);
    if b.count == 0 { assert Evolve(g, b, h, v, k, Evolve(g, a, h, v, k, state, a.count), 0) ==
        Evolve(g, a, h, v, k, state, a.count); }
  }

  // ----- the closed form

  ghost function ItemAt(s: seq<real>, x: int): real {
    if 0 <= x < |s| then s[x] else 0.0
  }

  /** The product of a head's decays from one transition up to another. */
  ghost function Decays(g: Gates, t: Transitions, h: nat, from: nat, to: nat): real {
    if to <= from then 1.0 else Decays(g, t, h, from, to - 1) * ItemAt(t.decay, (to - 1) * g.heads + h)
  }

  /** What transition i writes to a cell: its key, from the key head that the value head shares, times its delta. */
  ghost function Written(g: Gates, t: Transitions, h: nat, v: nat, k: nat, i: nat): real
    requires 0 < g.heads
  {
    ItemAt(t.key, (i * g.keyHeads + h * g.keyHeads / g.heads) * g.keyWidth + k)
    * ItemAt(t.delta, (i * g.heads + h) * g.width + v)
  }

  /** The sum of what the first m of n transitions wrote, each decayed by all later ones. */
  ghost function Carried(g: Gates, t: Transitions, h: nat, v: nat, k: nat, m: nat, n: nat): real
    requires 0 < g.heads
  {
    if m == 0 then 0.0
    else Carried(g, t, h, v, k, m - 1, n) + Written(g, t, h, v, k, m - 1) * Decays(g, t, h, m, n)
  }

  /** The cell (h, v, k): its old value decayed by all kept transitions, plus what they wrote. */
  ghost predicate ClosedAt(g: Gates, t: Transitions, before: seq<real>, after: seq<real>, h: nat, v: nat, k: nat)
    requires 0 < g.heads
  {
    var y := (h * g.width + v) * g.keyWidth + k;
    ItemAt(after, y) == ItemAt(before, y) * Decays(g, t, h, 0, t.count) + Carried(g, t, h, v, k, t.count, t.count)
  }

  ghost predicate ClosedForm(g: Gates, t: Transitions, before: seq<real>, after: seq<real>) {
    forall h: nat, v: nat, k: nat | h < g.heads && v < g.width && k < g.keyWidth ::
      ClosedAt(g, t, before, after, h, v, k)
  }

  lemma {:induction false} CarriedDecays(g: Gates, t: Transitions, h: nat, v: nat, k: nat, m: nat, n: nat)
    requires 0 < g.heads && m <= n
    ensures Carried(g, t, h, v, k, m, n + 1) == Carried(g, t, h, v, k, m, n) * ItemAt(t.decay, n * g.heads + h)
  {
    hide Written, ItemAt;
    if 0 < m {
      CarriedDecays(g, t, h, v, k, m - 1, n);
      assert Decays(g, t, h, m, n + 1) == Decays(g, t, h, m, n) * ItemAt(t.decay, n * g.heads + h);
      Distribute(Carried(g, t, h, v, k, m - 1, n), Written(g, t, h, v, k, m - 1), Decays(g, t, h, m, n),
                 ItemAt(t.decay, n * g.heads + h));
    }
  }

  lemma {:induction false} Distribute(a: real, b: real, c: real, d: real)
    ensures a * d + b * (c * d) == (a + b * c) * d
  {}

  /** Evolving through the transitions comes to the closed form. */
  lemma {:induction false} EvolveClosed(g: Gates, t: Transitions, h: nat, v: nat, k: nat, state: real, n: nat)
    requires Fed(g, t) && h < g.heads && v < g.width && k < g.keyWidth && n <= t.count
    ensures Evolve(g, t, h, v, k, state, n) == state * Decays(g, t, h, 0, n) + Carried(g, t, h, v, k, n, n)
  {
    hide *;
    if n == 0 {
      ClosedNone(g, t, h, v, k, state);
    } else {
      EvolveClosed(g, t, h, v, k, state, n - 1);
      EvolveOne(g, t, h, v, k, state, n - 1);
      ClosedOne(g, t, h, v, k, n - 1);
      OneTransition(Evolve(g, t, h, v, k, state, n - 1), Evolve(g, t, h, v, k, state, n), state,
                    Decays(g, t, h, 0, n - 1), Decays(g, t, h, 0, n), Carried(g, t, h, v, k, n - 1, n - 1),
                    Carried(g, t, h, v, k, n, n), ItemAt(t.decay, (n - 1) * g.heads + h),
                    Written(g, t, h, v, k, n - 1));
    }
  }

  lemma {:induction false} ClosedNone(g: Gates, t: Transitions, h: nat, v: nat, k: nat, state: real)
    requires Fed(g, t) && h < g.heads && v < g.width && k < g.keyWidth
    ensures Evolve(g, t, h, v, k, state, 0) == state * Decays(g, t, h, 0, 0) + Carried(g, t, h, v, k, 0, 0)
  {
    hide Fed;
  }

  lemma {:induction false} EvolveOne(g: Gates, t: Transitions, h: nat, v: nat, k: nat, state: real, n: nat)
    requires Fed(g, t) && h < g.heads && v < g.width && k < g.keyWidth && n < t.count
    ensures Evolve(g, t, h, v, k, state, n + 1) ==
            Written(g, t, h, v, k, n) + Evolve(g, t, h, v, k, state, n) * ItemAt(t.decay, n * g.heads + h)
  {
    hide Fed, Entry, DecayAt, Gates.KeyHead, ItemAt, Written;
    TransitionAt(g, t, h, v, k, n);
  }

  lemma {:induction false} ClosedOne(g: Gates, t: Transitions, h: nat, v: nat, k: nat, n: nat)
    requires 0 < g.heads
    ensures Decays(g, t, h, 0, n + 1) == Decays(g, t, h, 0, n) * ItemAt(t.decay, n * g.heads + h)
    ensures Carried(g, t, h, v, k, n + 1, n + 1) ==
            Carried(g, t, h, v, k, n, n) * ItemAt(t.decay, n * g.heads + h) + Written(g, t, h, v, k, n) * 1.0
  {
    hide Written, ItemAt;
    CarriedDecays(g, t, h, v, k, n, n);
    assert Decays(g, t, h, n + 1, n + 1) == 1.0;
  }

  lemma {:induction false} OneTransition(cell: real, cell': real, state: real, decays: real, decays': real,
                                         carried: real, carried': real, decay: real, written: real)
    requires cell == state * decays + carried && cell' == written + cell * decay
    requires decays' == decays * decay && carried' == carried * decay + written * 1.0
    ensures cell' == state * decays' + carried'
  {
    assert cell * decay == state * decays' + carried * decay;
  }

  lemma {:induction false} TransitionAt(g: Gates, t: Transitions, h: nat, v: nat, k: nat, i: nat)
    requires Fed(g, t) && h < g.heads && v < g.width && k < g.keyWidth && i < t.count
    ensures DecayAt(g, t, i, h) == ItemAt(t.decay, i * g.heads + h)
    ensures Entry(t.key, t.count, g.keyHeads, g.keyWidth, i, g.KeyHead(h), k)
            * Entry(t.delta, t.count, g.heads, g.width, i, h, v) == Written(g, t, h, v, k, i)
  {
    hide Entry;
    EntryAt(t.key, t.count, g.keyHeads, g.keyWidth, i, g.KeyHead(h), k);
    EntryAt(t.delta, t.count, g.heads, g.width, i, h, v);
    Flat(i, h, g.heads, t.count);
  }

  /** A replay leaves every cell at its closed form. */
  lemma {:induction false} ReplayedClosed(g: Gates, t: Transitions, before: seq<real>, after: seq<real>)
    requires GatedReplayed(g, t, before, after)
    ensures ClosedForm(g, t, before, after)
  {
    hide ClosedAt, GatedReplayed;
    forall h: nat, v: nat, k: nat | h < g.heads && v < g.width && k < g.keyWidth
      ensures ClosedAt(g, t, before, after, h, v, k)
    {
      CellClosed(g, t, before, after, h, v, k, h * g.width + v, (h * g.width + v) * g.keyWidth + k);
    }
  }

  lemma {:induction false} CellClosed(g: Gates, t: Transitions, before: seq<real>, after: seq<real>, h: nat, v: nat,
                                      k: nat, row: nat, y: nat)
    requires GatedReplayed(g, t, before, after) && h < g.heads && v < g.width && k < g.keyWidth
    requires row == h * g.width + v && y == row * g.keyWidth + k
    ensures ClosedAt(g, t, before, after, h, v, k)
  {
    hide Fed, Evolve, CellAfter, Decays, Carried;
    CellMeaning(g, t, before, h, v, k, row);
    EvolveClosed(g, t, h, v, k, before[y], t.count);
  }

  /** One cell through all transitions. */
  method ReplayCell(g: Gates, t: Transitions, h: nat, v: nat, k: nat, start: real) returns (state: real)
    requires Fed(g, t) && h < g.heads && v < g.width && k < g.keyWidth
    ensures state == Evolve(g, t, h, v, k, start, t.count)
  {
    hide Entry, DecayAt, Gate, Gates.KeyHead;
    var keyHead := g.KeyHead(h);
    state := start;
    for i := 0 to t.count
      invariant state == Evolve(g, t, h, v, k, start, i)
    {
      state := Gate(state, DecayAt(g, t, i, h), Entry(t.key, t.count, g.keyHeads, g.keyWidth, i, keyHead, k),
                    Entry(t.delta, t.count, g.heads, g.width, i, h, v));
    }
  }

  /** Everything below x is replayed, everything from x on not yet touched. */
  ghost predicate ReplayedTo(g: Gates, t: Transitions, s: seq<real>, source: seq<real>, destination: seq<real>, x: nat)
  {
    && Fed(g, t) && |s| == |source| == |destination| == (g.heads * g.width) * g.keyWidth
    && x <= |s|
    && (forall y | 0 <= y < x :: destination[y] == CellAfter(g, t, s, y))
    && (forall y | x <= y < |s| :: source[y] == s[y])
  }

  /** The cells of one value row. */
  method ReplayRow(g: Gates, t: Transitions, source: array<real>, destination: array<real>, h: nat, v: nat, row: nat,
                   ghost s: seq<real>)
    requires ReplayedTo(g, t, s, source[..], destination[..], row * g.keyWidth)
    requires h < g.heads && v < g.width && row == h * g.width + v
    modifies destination
    ensures ReplayedTo(g, t, s, source[..], destination[..], (row + 1) * g.keyWidth)
  {
    hide Evolve, CellAfter, Fed;
    Products(row, 1, g.keyWidth);
    var base := row * g.keyWidth;
    for k := 0 to g.keyWidth
      invariant ReplayedTo(g, t, s, source[..], destination[..], base + k)
    {
      CellMeaning(g, t, s, h, v, k, row);
      assert source[..][base + k] == s[base + k];
      var state := ReplayCell(g, t, h, v, k, source[base + k]);
      destination[base + k] := state;
    }
  }

  /** Replays the transitions over every cell. */
  method ReplayGated(g: Gates, t: Transitions, source: array<real>, destination: array<real>)
    requires Fed(g, t) && source.Length == destination.Length == (g.heads * g.width) * g.keyWidth
    modifies destination
    ensures GatedReplayed(g, t, old(source[..]), destination[..])
    ensures ClosedForm(g, t, old(source[..]), destination[..])
  {
    hide Evolve, CellAfter, Fed, ClosedForm;
    ghost var s := source[..];
    var row := 0;
    assert row * g.keyWidth == 0;
    for h := 0 to g.heads
      invariant row == h * g.width
      invariant ReplayedTo(g, t, s, source[..], destination[..], row * g.keyWidth)
    {
      Products(h, 1, g.width);
      for v := 0 to g.width
        invariant row == h * g.width + v
        invariant ReplayedTo(g, t, s, source[..], destination[..], row * g.keyWidth)
      {
        ReplayRow(g, t, source, destination, h, v, row, s);
        row := row + 1;
      }
    }
    ReplayedClosed(g, t, s, destination[..]);
  }
}
