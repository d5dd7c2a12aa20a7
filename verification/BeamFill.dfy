/** Exactly when the beam slots are filled after every step, whatever the model's logits are. */
module BeamFill {
  import opened Pigeonhole
  import opened PartialSorting
  import opened FlatRows
  import opened BeamTop

  /** The scores of a step: every row's beam score plus its logits less the normalizer of those logits. */
  ghost predicate StepScores(ext: seq<real>, scores: seq<real>, vocab: nat, logits: seq<seq<real>>,
                             normalizer: seq<real> -> real)
    requires 0 < vocab
  {
    |ext| == |scores| * vocab && forall x | 0 <= x < |ext| :: StepScore(ext, scores, vocab, logits, normalizer, x)
  }

  ghost predicate StepScore(ext: seq<real>, scores: seq<real>, vocab: nat, logits: seq<seq<real>>,
                            normalizer: seq<real> -> real, x: nat)
    requires 0 < vocab && x < |ext|
  {
    var i := x / vocab;
    && i < |scores| && i < |logits| && |logits[i]| == vocab
    && ext[x] == scores[i] + logits[i][x % vocab] - normalizer(logits[i])
  }

  /** However ties are broken, enough of the candidates continue. */
  ghost predicate Fills(ext: seq<real>, vocab: nat, beams: nat, eos: seq<int>) {
    forall order, scores, tokens, parents | Candidates(order, ext, vocab, beams, scores, tokens, parents) ::
      beams <= |Live(tokens, eos, 2 * beams)|
  }

  /** No logits leave a slot empty. */
  ghost predicate AlwaysFilled(scores: seq<real>, vocab: nat, eos: seq<int>, normalizer: seq<real> -> real)
    requires 0 < vocab
  {
    forall ext, logits | StepScores(ext, scores, vocab, logits, normalizer) :: Fills(ext, vocab, |scores|, eos)
  }

  /** Whatever the beam scores and however logits are normalized, the slots are filled for all logits exactly when the
      vocabulary has at most one EOS id. */
  lemma {:induction false} FilledIffOneEos(scores: seq<real>, vocab: nat, eos: seq<int>, normalizer: seq<real> -> real)
    requires scores != [] && 0 < vocab
    ensures AlwaysFilled(scores, vocab, eos, normalizer) <==> OneEos(eos, vocab)
  {
    hide *;
    if OneEos(eos, vocab) {
      OneEosFills(scores, vocab, eos, normalizer);
    } else {
      var ext, logits, order, cs, tokens, parents := Starving(scores, vocab, eos, normalizer);
      NotFilled(scores, vocab, eos, normalizer, ext, logits, order, cs, tokens, parents);
    }
  }

  lemma {:induction false} OneEosFills(scores: seq<real>, vocab: nat, eos: seq<int>, normalizer: seq<real> -> real)
    requires 0 < vocab && OneEos(eos, vocab)
    ensures AlwaysFilled(scores, vocab, eos, normalizer)
  {
    hide OneEos, Live, StepScores;
    forall ext, logits | StepScores(ext, scores, vocab, logits, normalizer) ensures Fills(ext, vocab, |scores|, eos) {
      EveryOrderFills(ext, vocab, |scores|, eos);
    }
  }

  lemma {:induction false} EveryOrderFills(ext: seq<real>, vocab: nat, beams: nat, eos: seq<int>)
    requires OneEos(eos, vocab)
    ensures Fills(ext, vocab, beams, eos)
  {
    forall order, scores, tokens, parents | Candidates(order, ext, vocab, beams, scores, tokens, parents)
      ensures beams <= |Live(tokens, eos, 2 * beams)|
    {
      AlwaysFills(order, ext, vocab, beams, scores, tokens, parents, eos);
    }
  }

  lemma {:induction false} NotFilled(scores: seq<real>, vocab: nat, eos: seq<int>, normalizer: seq<real> -> real,
                                     ext: seq<real>, logits: seq<seq<real>>, order: seq<nat>, cs: seq<real>,
                                     tokens: seq<int>, parents: seq<nat>)
    requires 0 < vocab && 0 < |scores| && StepScores(ext, scores, vocab, logits, normalizer)
    requires Candidates(order, ext, vocab, |scores|, cs, tokens, parents) && |tokens| == 2 * |scores|
    requires Live(tokens, eos, 2 * |scores|) == []
    ensures !AlwaysFilled(scores, vocab, eos, normalizer)
  {
    hide StepScores, Candidates, Live;
    assert !Fills(ext, vocab, |scores|, eos);
  }

  /** With two EOS ids there are logits for which nothing continues. */
  lemma {:induction false} Starving(scores: seq<real>, vocab: nat, eos: seq<int>, normalizer: seq<real> -> real)
    returns (ext: seq<real>, logits: seq<seq<real>>, order: seq<nat>, cs: seq<real>, tokens: seq<int>,
             parents: seq<nat>)
    requires scores != [] && 0 < vocab && !OneEos(eos, vocab)
    ensures StepScores(ext, scores, vocab, logits, normalizer)
    ensures Candidates(order, ext, vocab, |scores|, cs, tokens, parents) && |tokens| == 2 * |scores|
    ensures Live(tokens, eos, 2 * |scores|) == []
  {
    hide *;
    var beams := |scores|;
    var a, b := TwoIds(eos, vocab);
    var gap := Spread(scores);
    var row := Peaks(vocab, a, b, gap);
    ext, logits := Scored(scores, vocab, a, b, gap, row, normalizer);
    GapPutsAhead(ext, scores, vocab, a, b, gap, normalizer(row));
    RaisedSize(ext, scores, vocab, a, b, gap, normalizer(row));
    order := SomeOrder(ext, 2 * beams);
    cs, tokens, parents := Apart(order, ext, vocab, beams);
    TwoEosStarve(order, ext, vocab, beams, cs, tokens, parents, eos, a, b);
  }

  lemma {:induction false} TwoIds(eos: seq<int>, vocab: nat) returns (a: nat, b: nat)
    requires !OneEos(eos, vocab)
    ensures a < b < vocab && a in eos && b in eos
  {
    var x, y :| x in eos && y in eos && 0 <= x < vocab && 0 <= y < vocab && x != y;
    a, b := if x < y then x else y, if x < y then y else x;
  }

  /** A bound on how far the beam scores are apart. */
  lemma {:induction false} Spread(scores: seq<real>) returns (gap: real)
    ensures 0.0 < gap && forall i, j | 0 <= i < |scores| && 0 <= j < |scores| :: scores[i] - scores[j] < gap
  {
    var m := Magnitude(scores);
    gap := 2.0 * m;
  }

  lemma {:induction false} Magnitude(scores: seq<real>) returns (m: real)
    ensures 0.0 < m && forall i | 0 <= i < |scores| :: -m < scores[i] < m
  {
    if scores == [] {
      m := 1.0;
    } else {
      var n := |scores| - 1;
      m := Magnitude(scores[..n]);
      var x := if scores[n] < 0.0 then -scores[n] else scores[n];
      assert forall i | 0 <= i < n :: scores[..n][i] == scores[i];
      m := m + x;
    }
  }

  /** Logits that are gap for a and b and zero otherwise. */
  ghost function Peaks(vocab: nat, a: nat, b: nat, gap: real): (row: seq<real>)
    ensures |row| == vocab && forall t | 0 <= t < vocab :: row[t] == if t == a || t == b then gap else 0.0
  {
    seq(vocab, t requires 0 <= t < vocab => if t == a || t == b then gap else 0.0)
  }

  lemma {:induction false} Scored(scores: seq<real>, vocab: nat, a: nat, b: nat, gap: real, row: seq<real>,
                                  normalizer: seq<real> -> real)
    returns (ext: seq<real>, logits: seq<seq<real>>)
    requires 0 < vocab && row == Peaks(vocab, a, b, gap)
    ensures StepScores(ext, scores, vocab, logits, normalizer)
    ensures Raises(ext, scores, vocab, a, b, gap, normalizer(row))
  {
    hide Peaks, ScoreAt, StepScore, RaisedAs;
    var n := |scores| * vocab;
    logits := seq(|scores|, _ => row);
    var z := normalizer(row);
    ext := seq(n, x requires 0 <= x < n => ScoreAt(scores, row, vocab, z, x));
    forall x | 0 <= x < n
      ensures StepScore(ext, scores, vocab, logits, normalizer, x)
              && RaisedAs(ext, scores, vocab, a, b, gap, z, x)
    {
      OneScored(ext, scores, vocab, a, b, gap, row, z, logits, normalizer, x);
    }
  }

  ghost function ScoreAt(scores: seq<real>, row: seq<real>, vocab: nat, z: real, x: nat): real
    requires 0 < vocab
  {
    if x / vocab < |scores| && x % vocab < |row| then scores[x / vocab] + row[x % vocab] - z else 0.0
  }

  lemma {:induction false} OneScored(ext: seq<real>, scores: seq<real>, vocab: nat, a: nat, b: nat, gap: real,
                                     row: seq<real>, z: real, logits: seq<seq<real>>, normalizer: seq<real> -> real,
                                     x: nat)
    requires 0 < vocab && row == Peaks(vocab, a, b, gap) && z == normalizer(row)
    requires |logits| == |scores| && forall i | 0 <= i < |logits| :: logits[i] == row
    requires |ext| == |scores| * vocab && x < |ext| && ext[x] == ScoreAt(scores, row, vocab, z, x)
    ensures StepScore(ext, scores, vocab, logits, normalizer, x) && RaisedAs(ext, scores, vocab, a, b, gap, z, x)
  {
    hide Peaks;
    Unflat(x, vocab, |scores|);
    assert logits[x / vocab] == row;
  }

  lemma {:induction false} RaisedSize(ext: seq<real>, scores: seq<real>, vocab: nat, a: nat, b: nat, gap: real,
                                      normalizer: real)
    requires 0 < vocab && Raises(ext, scores, vocab, a, b, gap, normalizer) && a < b < vocab
    ensures |ext| == |scores| * vocab && 2 * |scores| <= |ext|
  {
    hide RaisedAs;
    assert |scores| * vocab == |scores| * 2 + |scores| * (vocab - 2);
  }

  /** There is an order whose first mid places hold the best, best first. */
  lemma {:induction false} SomeOrder(scores: seq<real>, mid: nat) returns (s: seq<nat>)
    requires mid <= |scores|
    ensures |s| == |scores| && IsPermutation(s) && SortedPart(s, scores, 0, mid)
  {
    if mid == 0 {
      s := seq(|scores|, i => i);
    } else {
      hide Distinct, SortedPart, Swapped;
      var t := SomeOrder(scores, mid - 1);
      var k := BestFrom(scores, t, mid - 1);
      SwapPermutes(t, mid - 1, k, 0);
      SwapSorted(t, scores, 0, mid - 1, k);
      s := Swapped(t, mid - 1, k);
    }
  }

  lemma {:induction false} BestFrom(scores: seq<real>, s: seq<nat>, from: nat) returns (k: nat)
    requires |s| == |scores| && Below(s, |scores|) && from < |s|
    ensures from <= k < |s| && forall j | from <= j < |s| :: scores[s[j]] <= scores[s[k]]
    decreases |s| - from
  {
    k := from;
    if from + 1 < |s| {
      var best := BestFrom(scores, s, from + 1);
      if scores[s[from]] < scores[s[best]] { k := best; }
    }
  }

  lemma {:induction false} Apart(order: seq<nat>, ext: seq<real>, vocab: nat, beams: nat)
    returns (scores: seq<real>, tokens: seq<int>, parents: seq<nat>)
    requires |order| == |ext| == beams * vocab && 2 * beams <= |order| && 0 < vocab
    requires IsPermutation(order) && SortedPart(order, ext, 0, 2 * beams)
    ensures Candidates(order, ext, vocab, beams, scores, tokens, parents)
  {
    hide Distinct, SortedPart, TokenOf, ParentOf, TakenApart;
    var n := 2 * beams;
    scores := seq(n, j requires 0 <= j < n => ext[order[j]]);
    tokens := seq(n, j requires 0 <= j < n => TokenOf(order[j], vocab));
    parents := seq(n, j requires 0 <= j < n => ParentOf(order[j], vocab));
    forall j | 0 <= j < n ensures TakenApart(order[j], ext, vocab, scores[j], tokens[j], parents[j]) {
      OneApart(order[j], ext, vocab);
    }
  }

  ghost function TokenOf(x: nat, vocab: nat): int
    requires 0 < vocab
  {
    x % vocab
  }

  ghost function ParentOf(x: nat, vocab: nat): nat
    requires 0 < vocab
  {
    x / vocab
  }

  lemma {:induction false} OneApart(x: nat, ext: seq<real>, vocab: nat)
    requires x < |ext| && 0 < vocab
    ensures TakenApart(x, ext, vocab, ext[x], TokenOf(x, vocab), ParentOf(x, vocab))
  {}
}
