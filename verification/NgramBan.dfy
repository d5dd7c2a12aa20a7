/** No-repeat n-gram banning: the two implementations, and what picking only unbanned tokens guarantees. */
module NgramBan {
  import opened Arithmetic
  import opened FlatRows

  /** The n tokens from position i on. */
  function Ngram(s: seq<int>, n: nat, i: nat): (r: seq<int>)
    requires i + n <= |s|
    ensures |r| == n
  {
    s[i..i + n]
  }

  ghost predicate Occurs(s: seq<int>, n: nat, gram: seq<int>) {
    exists i | 0 <= i <= |s| - n :: Ngram(s, n, i) == gram
  }

  /** Appending t would end the text with an n-gram it already has. */
  ghost predicate Recreates(s: seq<int>, n: int, t: int) {
    0 < n <= |s| && Occurs(s, n, Ngram(s + [t], n, |s| + 1 - n))
  }

  ghost predicate DistinctNgrams(s: seq<int>, n: nat) {
    forall i, j | 0 <= i < j <= |s| - n :: Ngram(s, n, i) != Ngram(s, n, j)
  }

  // ----- whole runs

  lemma {:induction false} NgramOfAppend(s: seq<int>, n: nat, t: int, i: nat)
    requires i + n <= |s|
    ensures Ngram(s + [t], n, i) == Ngram(s, n, i)
  {}

  /** One more token keeps the n-grams distinct exactly when it recreates none. */
  lemma {:induction false} AppendKeepsDistinct(s: seq<int>, n: nat, t: int)
    requires 0 < n
    ensures DistinctNgrams(s + [t], n) <==> DistinctNgrams(s, n) && !Recreates(s, n, t)
  {
    hide Ngram;
    var s' := s + [t];
    if DistinctNgrams(s', n) {
      forall i, j | 0 <= i < j <= |s| - n ensures Ngram(s, n, i) != Ngram(s, n, j) {
        NgramOfAppend(s, n, t, i);
        NgramOfAppend(s, n, t, j);
      }
      if n <= |s| {
        forall i | 0 <= i <= |s| - n ensures Ngram(s, n, i) != Ngram(s', n, |s| + 1 - n) { NgramOfAppend(s, n, t, i); }
      }
    }
    if DistinctNgrams(s, n) && !Recreates(s, n, t) {
      forall i, j | 0 <= i < j <= |s'| - n ensures Ngram(s', n, i) != Ngram(s', n, j) {
        NgramOfAppend(s, n, t, i);
        if j <= |s| - n { NgramOfAppend(s, n, t, j); }
      }
    }
  }

  /** Every pick of a run is a token of the vocabulary that was not banned when it was picked. */
  ghost predicate PicksUnbanned(s: seq<int>, picks: seq<int>, n: int, vocab: nat)
    decreases |picks|
  {
    picks == [] ||
    var k := |picks| - 1;
    && PicksUnbanned(s, picks[..k], n, vocab)
    && 0 <= picks[k] < vocab
    && !Recreates(s + picks[..k], n, picks[k])
  }

  /** No n-gram ever repeats in a run of unbanned picks, however long. */
  lemma {:induction false} NeverRepeats(s: seq<int>, picks: seq<int>, n: nat, vocab: nat)
    requires 0 < n && DistinctNgrams(s, n) && PicksUnbanned(s, picks, n, vocab)
    ensures DistinctNgrams(s + picks, n)
    decreases |picks|
  {
    hide DistinctNgrams, Recreates;
    if picks == [] {
      assert s + picks == s;
    } else {
      var k := |picks| - 1;
      NeverRepeats(s, picks[..k], n, vocab);
      AppendKeepsDistinct(s + picks[..k], n, picks[k]);
      assert s + picks[..k] + [picks[k]] == s + picks;
    }
  }

  // ----- what the loops look for

  /** The text at start agrees with its last n - 1 tokens and goes on with t. */
  ghost predicate MatchesAt(s: seq<int>, n: nat, start: nat, t: int)
    requires 0 < n && start + n <= |s|
  {
    Ngram(s, n - 1, start) == s[|s| - (n - 1)..] && s[start + n - 1] == t
  }

  lemma {:induction false} MatchIsRecreation(s: seq<int>, n: nat, start: nat, t: int)
    requires 0 < n && start + n <= |s|
    ensures MatchesAt(s, n, start, t) <==> Ngram(s, n, start) == Ngram(s + [t], n, |s| + 1 - n)
  {
    var a, b := Ngram(s, n, start), Ngram(s + [t], n, |s| + 1 - n);
    assert a == Ngram(s, n - 1, start) + [s[start + n - 1]];
    assert b == s[|s| - (n - 1)..] + [t];
    if a == b {
      assert a[..n - 1] == b[..n - 1] && a[n - 1] == b[n - 1];
    }
  }

  /** t follows one of the first upTo matching places. */
  ghost predicate Found(s: seq<int>, n: nat, upTo: nat, t: int)
    requires 0 < n && (upTo == 0 || upTo - 1 + n <= |s|)
  {
    exists start | 0 <= start < upTo :: MatchesAt(s, n, start, t)
  }

  lemma {:induction false} FoundAll(s: seq<int>, n: nat, t: int)
    requires 0 < n <= |s|
    ensures Found(s, n, |s| - n + 1, t) <==> Recreates(s, n, t)
  {
    hide Ngram, MatchesAt;
    if Found(s, n, |s| - n + 1, t) {
      var start :| 0 <= start < |s| - n + 1 && MatchesAt(s, n, start, t);
      MatchIsRecreation(s, n, start, t);
    }
    if Recreates(s, n, t) {
      var i :| 0 <= i <= |s| - n && Ngram(s, n, i) == Ngram(s + [t], n, |s| + 1 - n);
      MatchIsRecreation(s, n, i, t);
    }
  }

  lemma {:induction false} FoundNext(s: seq<int>, n: nat, start: nat, t: int)
    requires 0 < n && start + n <= |s|
    ensures Found(s, n, start + 1, t) <==> Found(s, n, start, t) || MatchesAt(s, n, start, t)
  {}

  // ----- the implementation shared by speculative decoding

  /** Sets the logits of exactly the tokens that would recreate an n-gram to lowest. */
  method ApplyNoRepeatNgramToLogits(logits: array<real>, prefix: seq<int>, n: int, lowest: real)
    modifies logits
    ensures Banned(old(logits[..]), logits[..], prefix, n, lowest)
  {
    if n <= 0 || |prefix| < n { return; }
    hide Ngram, MatchesAt, Found, Recreates;
    var length := n - 1;
    var target := prefix[|prefix| - length..];
    ghost var was := logits[..];
    NothingFound(prefix, n);
    for start := 0 to |prefix| - n + 1
      invariant forall t | 0 <= t < logits.Length :: logits[t] == if Found(prefix, n, start, t) then lowest else was[t]
    {
      StepFound(prefix, n, start);
      if Ngram(prefix, length, start) == target {
        var banned := prefix[start + length];
        if 0 <= banned < logits.Length {
          logits[banned] := lowest;
        }
      }
    }
    forall t ensures Found(prefix, n, |prefix| - n + 1, t) <==> Recreates(prefix, n, t) { FoundAll(prefix, n, t); }
  }

  lemma {:induction false} NothingFound(s: seq<int>, n: nat)
    requires 0 < n <= |s|
    ensures forall t :: !Found(s, n, 0, t)
  {}

  /** A matching place adds the token that follows it to what is found; any other place adds nothing. */
  lemma {:induction false} StepFound(s: seq<int>, n: nat, start: nat)
    requires 0 < n && start + n <= |s|
    ensures forall t :: Found(s, n, start + 1, t) <==>
              Found(s, n, start, t) || (Ngram(s, n - 1, start) == s[|s| - (n - 1)..] && s[start + n - 1] == t)
  {
    hide Ngram;
    forall t ensures Found(s, n, start + 1, t) <==>
                       Found(s, n, start, t) || (Ngram(s, n - 1, start) == s[|s| - (n - 1)..] && s[start + n - 1] == t)
    {
      FoundNext(s, n, start, t);
    }
  }

  // ----- the implementation of standard search

  /** Compares token by token and stops at the first difference. */
  method SamePrefix(s: seq<int>, start: nat, target: seq<int>) returns (matches: bool)
    requires start + |target| <= |s|
    ensures matches <==> Ngram(s, |target|, start) == target
  {
    for j := 0 to |target|
      invariant forall i | 0 <= i < j :: s[start + i] == target[i]
    {
      if s[start + j] != target[j] {
        assert Ngram(s, |target|, start)[j] != target[j];
        return false;
      }
    }
    return true;
  }

  /** One row of a flat score buffer, from base on. */
  method BanRow(scores: array<real>, base: nat, vocab: nat, sequence: seq<int>, n: nat, lowest: real)
    requires base + vocab <= scores.Length && 0 < n <= |sequence|
    modifies scores
    ensures forall x | 0 <= x < scores.Length ::
              scores[x] == if base <= x < base + vocab && Recreates(sequence, n, x - base) then lowest
                else old(scores[x])
  {
    hide Ngram, MatchesAt, Found, Recreates;
    var length := n - 1;
    var target := sequence[|sequence| - length..];
    ghost var was := scores[..];
    NothingFound(sequence, n);
    for start := 0 to |sequence| - n + 1
      invariant forall x | 0 <= x < scores.Length ::
                  scores[x] == if base <= x < base + vocab && Found(sequence, n, start, x - base) then lowest
                    else was[x]
    {
      StepFound(sequence, n, start);
      var matches := SamePrefix(sequence, start, target);
      if matches {
        var banned := sequence[start + length];
        if 0 <= banned < vocab {
          scores[base + banned] := lowest;
        }
      }
    }
    forall t ensures Found(sequence, n, |sequence| - n + 1, t) <==>
          Recreates(sequence, n, t) { FoundAll(sequence, n, t); }
  }

  /** A flat score buffer after banning: row by row, what the shared helper does to that row alone. */
  ghost predicate RowBanned(before: seq<real>, after: seq<real>, rows: nat, vocab: nat, i: nat, sequence: seq<int>,
                            n: int, lowest: real)
    requires |before| == |after| == rows * vocab && i < rows
  {
    var b, a := FlatRow(before, rows, vocab, i, vocab), FlatRow(after, rows, vocab, i, vocab);
    forall t | 0 <= t < vocab :: a[t] == if Recreates(sequence, n, t) then lowest else b[t]
  }

  /** What the shared helper makes of a row. */
  ghost predicate Banned(before: seq<real>, after: seq<real>, sequence: seq<int>, n: int, lowest: real) {
    |after| == |before| && forall t | 0 <= t < |after| ::
        after[t] == if Recreates(sequence, n, t) then lowest else before[t]
  }

  /** The two implementations agree: on equal rows they leave equal rows. */
  lemma {:induction false} ImplementationsAgree(before: seq<real>, after: seq<real>, rows: nat, vocab: nat, i: nat,
                                                sequence: seq<int>, n: int, lowest: real, row: seq<real>)
    requires |before| == |after| == rows * vocab && i < rows && RowBanned(before, after, rows, vocab, i, sequence, n,
             lowest)
    requires Banned(FlatRow(before, rows, vocab, i, vocab), row, sequence, n, lowest)
    ensures FlatRow(after, rows, vocab, i, vocab) == row
  {
    hide Recreates, FlatRow;
    var a, b := FlatRow(after, rows, vocab, i, vocab), FlatRow(before, rows, vocab, i, vocab);
    forall t | 0 <= t < vocab ensures a[t] == row[t] { assert a[t] ==
        if Recreates(sequence, n, t) then lowest else b[t]; }
  }

  /** Bans in every row by that row's own tokens. All rows have the same length. */
  method ApplyNoRepeatNgram(scores: array<real>, sequences: seq<seq<int>>, length: nat, vocab: nat, n: int,
                            lowest: real)
    requires scores.Length == |sequences| * vocab
    requires forall i | 0 <= i < |sequences| :: |sequences[i]| == length
    modifies scores
    ensures forall i | 0 <= i < |sequences| ::
              RowBanned(old(scores[..]), scores[..], |sequences|, vocab, i, sequences[i], n, lowest)
  {
    if n <= 0 || length < n { return; }
    hide Recreates, RowBanned, FlatRow;
    ghost var was := scores[..];
    var rows := |sequences|;
    for i := 0 to rows
      invariant forall x | i * vocab <= x < scores.Length :: scores[x] == was[x]
      invariant forall k | 0 <= k < i :: RowBanned(was, scores[..], rows, vocab, k, sequences[k], n, lowest)
    {
      RowInside(i, rows, vocab);
      ghost var mid := scores[..];
      BanRow(scores, i * vocab, vocab, sequences[i], n, lowest);
      IsBanned(was, mid, scores[..], rows, vocab, i, sequences[i], n, lowest);
      forall k | 0 <= k < i ensures RowBanned(was, scores[..], rows, vocab, k, sequences[k], n, lowest) {
        StaysBanned(was, mid, scores[..], rows, vocab, i, k, sequences[k], n, lowest);
      }
      MulSucc(i, vocab);
    }
  }

  lemma {:induction false} IsBanned(was: seq<real>, mid: seq<real>, now: seq<real>, rows: nat, vocab: nat, i: nat,
                                    sequence: seq<int>, n: int, lowest: real)
    requires |was| == |mid| == |now| == rows * vocab && i < rows
    requires forall x | i * vocab <= x < |mid| :: mid[x] == was[x]
    requires forall x | 0 <= x < |now| ::
               now[x] == if i * vocab <= x < i * vocab + vocab
                 && Recreates(sequence, n, x - i * vocab) then lowest else mid[x]
    ensures RowBanned(was, now, rows, vocab, i, sequence, n, lowest)
  {
    hide Recreates, FlatRow;
    RowInside(i, rows, vocab);
    forall t | 0 <= t < vocab
      ensures FlatRow(now, rows, vocab, i, vocab)[t] == if Recreates(sequence, n, t) then lowest
              else FlatRow(was, rows, vocab, i, vocab)[t]
    {
      FlatAt(now, rows, vocab, i, vocab, t);
      FlatAt(was, rows, vocab, i, vocab, t);
    }
  }

  lemma {:induction false} StaysBanned(was: seq<real>, mid: seq<real>, now: seq<real>, rows: nat, vocab: nat, i: nat,
                                       k: nat, sequence: seq<int>, n: int, lowest: real)
    requires |was| == |mid| == |now| == rows * vocab && k < i < rows
    requires forall x | 0 <= x < i * vocab && x < |now| :: now[x] == mid[x]
    requires RowBanned(was, mid, rows, vocab, k, sequence, n, lowest)
    ensures RowBanned(was, now, rows, vocab, k, sequence, n, lowest)
  {
    hide Recreates, FlatRow;
    RowsApart(k, i, vocab);
    RowUnchanged(mid, now, rows, vocab, k, vocab);
  }

  // ----- generating

  /** Whenever some logit is above lowest, the sampler picks a token whose logit is. */
  ghost predicate SkipsLowered(sampler: seq<real> -> int, vocab: nat, lowest: real) {
    forall logits: seq<real> | |logits| == vocab && SomeLeft(logits, lowest) ::
      0 <= sampler(logits) < vocab && logits[sampler(logits)] != lowest
  }

  predicate SomeLeft(logits: seq<real>, lowest: real) {
    exists t :: 0 <= t < |logits| && logits[t] != lowest
  }

  /** Bans and picks in turn, for up to steps tokens or until no logit is left above lowest. No n-gram of the whole
      text repeats unless one of the prompt did. */
  method Generate(prompt: seq<int>, model: seq<int> -> seq<real>, sampler: seq<real> -> int, vocab: nat, n: int,
                  lowest: real, steps: nat)
    returns (picks: seq<int>)
    requires forall text :: |model(text)| == vocab
    requires SkipsLowered(sampler, vocab, lowest)
    ensures |picks| <= steps && PicksUnbanned(prompt, picks, n, vocab)
    ensures 0 < n && DistinctNgrams(prompt, n) ==> DistinctNgrams(prompt + picks, n)
    ensures |picks| < steps ==>
              forall t | 0 <= t < vocab ::
                Recreates(prompt + picks, n, t) || model(prompt + picks)[t] == lowest
  {
    hide DistinctNgrams, Recreates;
    picks := [];
    for i := 0 to steps
      invariant |picks| == i && PicksUnbanned(prompt, picks, n, vocab)
    {
      var text := prompt + picks;
      var raw := model(text);
      var logits := new real[vocab](k requires 0 <= k < vocab => raw[k]);
      ghost var was := logits[..];
      assert was == raw;
      ApplyNoRepeatNgramToLogits(logits, text, n, lowest);
      if !SomeLeft(logits[..], lowest) {
        assert forall t | 0 <= t < vocab :: logits[..][t] == lowest;
        break;
      }
      var pick := sampler(logits[..]);
      assert logits[..][pick] != lowest && !Recreates(text, n, pick);
      assert (picks + [pick])[..|picks|] == picks;
      picks := picks + [pick];
    }
    if 0 < n && DistinctNgrams(prompt, n) { NeverRepeats(prompt, picks, n, vocab); }
  }
}
