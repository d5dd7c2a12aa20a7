/**
 When a full list closes its batch entry. The source compares it with the best of the candidate scores from place
 b * num_beams on, while the candidates of entry b begin at 2 * b * num_beams. So the test is right for the first
 entry, careful for the second, and about other entries' candidates for all later ones.
 */
module BeamStopping {
  import opened Common
  import opened Arithmetic
  import opened Pigeonhole
  import opened FlatRows
  import opened BeamScorer

  /** The inputs of one decision: all candidates' scores, what the entry has finished, and how scores are normalized. */
  datatype Case = Case(scores: seq<real>, texts: seq<Text>, normalize: (real, nat) -> real, length: nat)

  /** The candidates of each entry are sorted, and a larger sum is never normalized to a smaller score. */
  ghost predicate Possible(k: Case, batches: nat, beams: nat) {
    && |k.scores| == batches * (2 * beams)
    && (forall b | 0 <= b < batches :: Falls(Part(k.scores, batches, 2 * beams, b)))
    && (forall x, y, n | x <= y :: k.normalize(x, n) <= k.normalize(y, n))
  }

  ghost predicate Falls(s: seq<real>) {
    forall i, j | 0 <= i < j < |s| :: s[i] >= s[j]
  }

  /** The decision if the scores looked at begin at this place. */
  ghost predicate ClosesAt(k: Case, beams: nat, at: nat)
    requires 0 < beams && at + 2 * beams <= |k.scores|
  {
    Settles(false, k.texts, beams, k.normalize(MaxOf(k.scores, at, 2 * beams), k.length))
  }

  /** What the source decides about entry b, and what the entry's own candidates say. */
  ghost predicate Closes(k: Case, batches: nat, beams: nat, b: nat)
    requires 0 < beams && b < batches && |k.scores| == batches * (2 * beams)
  {
    SliceInside(b, batches, beams);
    ClosesAt(k, beams, b * beams)
  }

  ghost predicate ShouldClose(k: Case, batches: nat, beams: nat, b: nat)
    requires 0 < beams && b < batches && |k.scores| == batches * (2 * beams)
  {
    RowInside(b, batches, 2 * beams);
    ClosesAt(k, beams, b * (2 * beams))
  }

  /** The test is exact for the first entry and for no other. */
  lemma {:induction false} ExactOnlyForFirst(batches: nat, beams: nat, b: nat)
    requires 0 < beams && b < batches
    ensures b == 0 <==>
            forall k | Possible(k, batches, beams) ::
              Closes(k, batches, beams, b) <==> ShouldClose(k, batches, beams, b)
  {
    hide Settles, MaxOf;
    if b == 0 {
      assert b * beams == b * (2 * beams);
    } else {
      var k := Split(batches, beams, b, 1.0, 0.0);
      SplitDecides(k, batches, beams, b, 1.0, 0.0);
    }
  }

  /** It never closes an entry whose own candidates could still improve it, exactly for the first two entries. */
  lemma {:induction false} SafeOnlyForTwo(batches: nat, beams: nat, b: nat)
    requires 0 < beams && b < batches
    ensures b <= 1 <==>
            forall k | Possible(k, batches, beams) :: Closes(k, batches, beams, b) ==> ShouldClose(k, batches, beams, b)
  {
    hide Settles, MaxOf;
    if b == 0 {
      assert b * beams == b * (2 * beams);
    } else if b == 1 {
      forall k | Possible(k, batches, beams) && Closes(k, batches, beams, b) ensures ShouldClose(k, batches, beams, b) {
        SecondIsSafe(k, batches, beams);
      }
    } else {
      var k := Split(batches, beams, b, 0.0, 1.0);
      SplitDecides(k, batches, beams, b, 0.0, 1.0);
    }
  }

  // ----- the second entry

  lemma {:induction false} SecondIsSafe(k: Case, batches: nat, beams: nat)
    requires 0 < beams && 1 < batches && Possible(k, batches, beams) && Closes(k, batches, beams, 1)
    ensures ShouldClose(k, batches, beams, 1)
  {
    hide MaxOf;
    SliceInside(1, batches, beams);
    RowInside(1, batches, 2 * beams);
    assert 1 * beams == beams && 1 * (2 * beams) == 2 * beams;
    MaxOfIs(k.scores, beams, 2 * beams);
    MaxOfIs(k.scores, 2 * beams, 2 * beams);
    OwnBestFirst(k.scores, batches, beams);
    var x, y := MaxOf(k.scores, beams, 2 * beams), MaxOf(k.scores, 2 * beams, 2 * beams);
    assert k.scores[2 * beams] <= x;
    FewerBetter(k.texts, k.normalize(y, k.length), k.normalize(x, k.length));
  }

  lemma {:induction false} OwnBestFirst(s: seq<real>, batches: nat, beams: nat)
    requires 0 < beams && 1 < batches && |s| == batches * (2 * beams) && Falls(Part(s, batches, 2 * beams, 1))
    requires 4 * beams <= |s|
    ensures forall i | 2 * beams <= i < 4 * beams :: s[i] <= s[2 * beams]
  {
    var own := Part(s, batches, 2 * beams, 1);
    assert own == s[2 * beams..4 * beams];
    forall i | 2 * beams <= i < 4 * beams ensures s[i] <= s[2 * beams] {
      assert own[i - 2 * beams] == s[i] && own[0] == s[2 * beams];
    }
  }

  lemma {:induction false} FewerBetter(texts: seq<Text>, x: real, y: real)
    requires x <= y
    ensures |BetterTexts(texts, y)| <= |BetterTexts(texts, x)|
  {
    SubsetCardinality(BetterTexts(texts, y), BetterTexts(texts, x));
  }

  // ----- the counterexamples

  /** Every candidate of the entries before b has one score, every other candidate another; the list is full of texts
      that score between them. */
  ghost function Split(batches: nat, beams: nat, b: nat, before: real, from: real): Case {
    Case(seq(batches * (2 * beams), x => if x < b * (2 * beams) then before else from), Repeat(Text([], 0.5), beams),
         (x, n) => x, 0)
  }

  lemma {:induction false} SplitDecides(k: Case, batches: nat, beams: nat, b: nat, before: real, from: real)
    requires 0 < beams && b < batches && k == Split(batches, beams, b, before, from)
    requires (b != 0 && before == 1.0 && from == 0.0) || (1 < b && before == 0.0 && from == 1.0)
    ensures Possible(k, batches, beams)
    ensures Closes(k, batches, beams, b) <==> before == 0.0
    ensures ShouldClose(k, batches, beams, b) <==> from == 0.0
  {
    hide MaxOf, BetterTexts;
    SplitPossible(k, batches, beams, b, before, from);
    SliceInside(b, batches, beams);
    RowInside(b, batches, 2 * beams);
    SliceMax(k.scores, batches, beams, b, before, from);
    FullOfHalves(k.texts, beams);
  }

  lemma {:induction false} FullOfHalves(texts: seq<Text>, beams: nat)
    requires texts == Repeat(Text([], 0.5), beams) && 0 < beams
    ensures |BetterTexts(texts, 0.0)| == beams && |BetterTexts(texts, 1.0)| == 0
  {
    assert BetterTexts(texts, 1.0) == {};
    assert BetterTexts(texts, 0.0) == NumbersBelow(beams);
  }

  lemma {:induction false} SliceMax(s: seq<real>, batches: nat, beams: nat, b: nat, before: real, from: real)
    requires 0 < beams && b < batches && |s| == batches * (2 * beams)
    requires forall x | 0 <= x < |s| :: s[x] == if x < b * (2 * beams) then before else from
    requires (b != 0 && before == 1.0 && from == 0.0) || (1 < b && before == 0.0 && from == 1.0)
    ensures b * beams + 2 * beams <= |s| && b * (2 * beams) + 2 * beams <= |s|
    ensures MaxOf(s, b * beams, 2 * beams) == before && MaxOf(s, b * (2 * beams), 2 * beams) == from
  {
    hide MaxOf;
    SliceInside(b, batches, beams);
    RowInside(b, batches, 2 * beams);
    MaxOfIs(s, b * beams, 2 * beams);
    MaxOfIs(s, b * (2 * beams), 2 * beams);
    assert b * (2 * beams) == b * beams + b * beams;
    MulLe(1, b, beams);
    if 1 < b { MulLe(2, b, beams); }
    assert s[b * beams] == before;
  }

  lemma {:induction false} SplitPossible(k: Case, batches: nat, beams: nat, b: nat, before: real, from: real)
    requires 0 < beams && b < batches && k == Split(batches, beams, b, before, from)
    ensures Possible(k, batches, beams)
  {
    forall e | 0 <= e < batches ensures Falls(Part(k.scores, batches, 2 * beams, e)) {
      RowInside(e, batches, 2 * beams);
      if e < b { RowsApart(e, b, 2 * beams); } else { MulLe(b, e, 2 * beams); }
      SameScore(k.scores, batches, beams, e, if e < b then before else from);
    }
  }

  lemma {:induction false} SameScore(s: seq<real>, batches: nat, beams: nat, e: nat, x: real)
    requires e < batches && |s| == batches * (2 * beams)
    requires forall i | e * (2 * beams) <= i < e * (2 * beams) + 2 * beams && i < |s| :: s[i] == x
    ensures Falls(Part(s, batches, 2 * beams, e))
  {
    RowInside(e, batches, 2 * beams);
  }
}
