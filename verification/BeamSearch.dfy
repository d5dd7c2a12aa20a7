/**
 Beam search over whole runs: every step adds the beams' scores to the log-probabilities, looks at the
 best 2 * num_beams extensions of each batch entry, lets the scorer choose among them, and extends the rows.
 */
module BeamSearching {
  import opened Pigeonhole
  import opened PartialSorting
  import opened FlatRows
  import opened BeamTop
  import opened BeamSequences
  import opened BeamScorer

  /** The score of extending row parent by token. */
  ghost function Extension(ext: seq<real>, vocab: nat, rows: nat, parent: nat, token: nat): real
    requires |ext| == rows * vocab && parent < rows && token < vocab
  {
    Flat(parent, token, vocab, rows);
    ext[parent * vocab + token]
  }

  /** A slot holds an extension of one of the rows base .. base + beams - 1 that does not end it. */
  ghost predicate IsExtension(slot: Slot, ext: seq<real>, vocab: nat, rows: nat, base: nat, beams: nat, eos: seq<int>)
    requires |ext| == rows * vocab && base + beams <= rows
  {
    && base <= slot.parent < base + beams && 0 <= slot.token < vocab && slot.token !in eos
    && slot.score == Extension(ext, vocab, rows, slot.parent, slot.token)
  }

  ghost predicate Holds(slots: seq<Slot>, parent: nat, token: nat) {
    exists i | 0 <= i < |slots| :: slots[i].parent == parent && slots[i].token == token
  }

  /** The slots are the best extensions, best first: no extension that continues a row and is left out scores
      higher than any of them. */
  ghost predicate BestExtensions(slots: seq<Slot>, ext: seq<real>, vocab: nat, rows: nat, base: nat, beams: nat,
                                 eos: seq<int>)
    requires |ext| == rows * vocab && base + beams <= rows
  {
    && |slots| == beams
    && (forall i | 0 <= i < |slots| :: IsExtension(slots[i], ext, vocab, rows, base, beams, eos))
    && (forall i, j | 0 <= i < j < |slots| :: slots[i].score >= slots[j].score)
    && (forall i, j | 0 <= i < j < |slots| :: slots[i].parent != slots[j].parent || slots[i].token != slots[j].token)
    && (forall parent: nat, token: nat, i | base <= parent < base + beams && token < vocab && token !in eos
      && 0 <= i < |slots| ::
          Holds(slots, parent, token) || Extension(ext, vocab, rows, parent, token) <= slots[i].score)
  }

  // ----- one batch entry

  /** Extending beam of batch entry b scores the same in the entry's own part and in the whole. */
  lemma {:induction false} PartExtension(ext: seq<real>, batches: nat, beams: nat, vocab: nat, b: nat, beam: nat,
                                         token: nat)
    requires b < batches && |ext| == batches * (beams * vocab) == (batches * beams) * vocab
    requires beam < beams && token < vocab
    ensures b * beams + beams <= batches * beams && beam * vocab + token < beams * vocab
    ensures Part(ext, batches, beams * vocab, b)[beam * vocab + token] ==
            Extension(ext, vocab, batches * beams, b * beams + beam, token)
  {
    RowInside(b, batches, beams);
    Flat(beam, token, vocab, beams);
    PartAt(ext, batches, beams * vocab, b, beam * vocab + token);
    Flat(b * beams + beam, token, vocab, batches * beams);
    Nested(b, beams, beam, vocab);
    hide Part;
  }

  lemma {:induction false} Nested(b: nat, beams: nat, beam: nat, vocab: nat)
    ensures b * (beams * vocab) + beam * vocab == (b * beams + beam) * vocab
  {}

  /** The candidates offered to batch entry b are the best extensions of its rows. */
  ghost predicate Offered(ext: seq<real>, batches: nat, beams: nat, vocab: nat, b: nat, s: seq<real>, t: seq<int>,
                          p: seq<nat>)
    requires b < batches && |ext| == batches * (beams * vocab)
  {
    exists order :: Candidates(order, Part(ext, batches, beams * vocab, b), vocab, beams, s, t, p)
  }

  lemma {:induction false} SlotExtends(o: Offer, ext: seq<real>, batches: nat, beams: nat, vocab: nat, b: nat,
                                       order: seq<nat>, eos: seq<int>, i: nat)
    requires b < batches && |ext| == batches * (beams * vocab) == (batches * beams) * vocab && o.base == b * beams
    requires Candidates(order, Part(ext, batches, beams * vocab, b), vocab, beams, o.scores, o.tokens, o.parents)
    requires o.Shaped(beams) && i < |Live(o.tokens, eos, 2 * beams)|
    ensures b * beams + beams <= batches * beams && Live(o.tokens, eos, 2 * beams)[i] < 2 * beams
    ensures IsExtension(o.SlotAt(Live(o.tokens, eos, 2 * beams)[i]), ext, vocab, batches * beams, b * beams, beams, eos)
  {
    hide Live, Candidates, Part, Extension;
    LiveMeaning(o.tokens, eos, 2 * beams);
    var c := Live(o.tokens, eos, 2 * beams)[i];
    ParentBelow(order, Part(ext, batches, beams * vocab, b), vocab, beams, o.scores, o.tokens, o.parents, c);
    PartExtension(ext, batches, beams, vocab, b, o.parents[c], o.tokens[c]);
  }

  lemma {:induction false} SlotsRanked(o: Offer, ext: seq<real>, vocab: nat, beams: nat, order: seq<nat>, eos: seq<int>,
                                       i: nat, j: nat)
    requires Candidates(order, ext, vocab, beams, o.scores, o.tokens, o.parents) && o.Shaped(beams)
    requires i < j < |Live(o.tokens, eos, 2 * beams)|
    ensures Live(o.tokens, eos, 2 * beams)[i] < 2 * beams && Live(o.tokens, eos, 2 * beams)[j] < 2 * beams
    ensures var x, y := o.SlotAt(Live(o.tokens, eos, 2 * beams)[i]), o.SlotAt(Live(o.tokens, eos, 2 * beams)[j]);
            x.score >= y.score && (x.parent != y.parent || x.token != y.token)
  {
    hide Live, Candidates;
    LiveMeaning(o.tokens, eos, 2 * beams);
    var a, c := Live(o.tokens, eos, 2 * beams)[i], Live(o.tokens, eos, 2 * beams)[j];
    SamePlace(order, ext, vocab, beams, o.scores, o.tokens, o.parents, a, c);
    BetterPlace(order, ext, vocab, beams, o.scores, o.tokens, o.parents, a, c);
  }

  /** The slot of every kept candidate. */
  ghost predicate SlotsAre(o: Offer, beams: nat, slots: seq<Slot>, live: seq<nat>)
    requires o.Shaped(beams) && Below(live, 2 * beams)
  {
    |slots| == beams <= |live| && forall i | 0 <= i < |slots| :: slots[i] == o.SlotAt(live[i])
  }

  lemma {:induction false} SlotsBest(o: Offer, ext: seq<real>, batches: nat, beams: nat, vocab: nat, b: nat,
                                     order: seq<nat>, eos: seq<int>, slots: seq<Slot>, parent: nat, token: nat, i: nat)
    requires b < batches && |ext| == batches * (beams * vocab) == (batches * beams) * vocab && o.base == b * beams
    requires Candidates(order, Part(ext, batches, beams * vocab, b), vocab, beams, o.scores, o.tokens, o.parents)
    requires o.Shaped(beams) && Below(Live(o.tokens, eos, 2 * beams), 2 * beams)
             && SlotsAre(o, beams, slots, Live(o.tokens, eos, 2 * beams))
    requires o.base <= parent < o.base + beams && token < vocab && token !in eos && i < beams
    ensures parent < batches * beams
    ensures Holds(slots, parent, token) || Extension(ext, vocab, batches * beams, parent, token) <= slots[i].score
  {
    hide Live, Candidates, Part, Extension;
    var beam := parent - o.base;
    PartExtension(ext, batches, beams, vocab, b, beam, token);
    var k := KeptAreBest(order, Part(ext, batches, beams * vocab, b), vocab, beams, o.scores, o.tokens, o.parents, eos,
      beam, token, i);
    assert slots[i] == o.SlotAt(Live(o.tokens, eos, 2 * beams)[i]);
    if k <= i { assert slots[k] == o.SlotAt(Live(o.tokens, eos, 2 * beams)[k]); }
  }

  /** Looking at 2 * beams candidates is enough: with at most one EOS id in the vocabulary every slot is
      filled, and with the best extensions there are. */
  lemma {:induction false} TopTwoKExact(o: Offer, ext: seq<real>, batches: nat, beams: nat, vocab: nat, b: nat,
                                        eos: seq<int>, before: BatchState, after: BatchState, finish: bool)
    requires b < batches && |ext| == batches * (beams * vocab) == (batches * beams) * vocab && o.base == b * beams
    requires Offered(ext, batches, beams, vocab, b, o.scores, o.tokens, o.parents) && OneEos(eos, vocab)
    requires o.Shaped(beams) && Stepped(o, beams, eos, before, after, finish)
    ensures b * beams + beams <= batches * beams
    ensures BestExtensions(after.slots, ext, vocab, batches * beams, b * beams, beams, eos)
  {
    hide Live, Ended, EndedTexts, Candidates, Part, Extension, IsExtension, Holds, OneEos;
    RowInside(b, batches, beams);
    var part := Part(ext, batches, beams * vocab, b);
    var order :| Candidates(order, part, vocab, beams, o.scores, o.tokens, o.parents);
    AlwaysFills(order, part, vocab, beams, o.scores, o.tokens, o.parents, eos);
    var live, slots := Live(o.tokens, eos, 2 * beams), after.slots;
    assert SlotsAre(o, beams, slots, live);
    forall i | 0 <= i < |slots| ensures IsExtension(slots[i], ext, vocab, batches * beams, b * beams, beams, eos) {
      SlotExtends(o, ext, batches, beams, vocab, b, order, eos, i);
    }
    forall i, j | 0 <= i < j < |slots|
      ensures slots[i].score >= slots[j].score && (slots[i].parent != slots[j].parent
              || slots[i].token != slots[j].token)
    {
      SlotsRanked(o, part, vocab, beams, order, eos, i, j);
    }
    forall parent: nat, token: nat, i | b * beams <= parent < b * beams + beams && token < vocab && token !in eos
        && 0 <= i < |slots|
      ensures Holds(slots, parent, token) || Extension(ext, vocab, batches * beams, parent, token) <= slots[i].score
    {
      SlotsBest(o, ext, batches, beams, vocab, b, order, eos, slots, parent, token, i);
    }
  }

  // ----- the step over flat arrays

  /** A row's log-probability of a token plus the row's score. */
  ghost function Raised(logprobs: seq<real>, scores: seq<real>, vocab: nat, x: nat): real
    requires |logprobs| == |scores| * vocab && x < |logprobs| && 0 < vocab
  {
    Unflat(x, vocab, |scores|);
    logprobs[x] + scores[x / vocab]
  }

  ghost predicate AllRaised(ext: seq<real>, logprobs: seq<real>, scores: seq<real>, vocab: nat) {
    && |ext| == |logprobs| == |scores| * vocab && 0 < vocab
    && forall x | 0 <= x < |ext| :: ext[x] == Raised(logprobs, scores, vocab, x)
  }

  /** An extension's score is its parent's score plus the token's log-probability there. */
  lemma {:induction false} RaisedExtension(ext: seq<real>, logprobs: seq<real>, scores: seq<real>, vocab: nat,
                                           parent: nat, token: nat)
    requires |ext| == |logprobs| == |scores| * vocab && token < vocab && parent < |scores|
             && AllRaised(ext, logprobs, scores, vocab)
    ensures Extension(ext, vocab, |scores|, parent, token) ==
            scores[parent] + Extension(logprobs, vocab, |scores|, parent, token)
  {
    Flat(parent, token, vocab, |scores|);
    assert ext[parent * vocab + token] == Raised(logprobs, scores, vocab, parent * vocab + token);
  }

  lemma {:induction false} RaisedAt(logprobs: seq<real>, scores: seq<real>, vocab: nat, row: nat, k: nat)
    requires |logprobs| == |scores| * vocab && row < |scores| && k < vocab
    ensures row * vocab + k < |logprobs| && row * vocab + vocab <= |logprobs|
    ensures Raised(logprobs, scores, vocab, row * vocab + k) == logprobs[row * vocab + k] + scores[row]
  {
    Flat(row, k, vocab, |scores|);
    RowInside(row, |scores|, vocab);
  }

  /** Adds every row's score to all its log-probabilities. */
  method AddScores(next: array<real>, scores: array<real>, vocab: nat)
    requires next != scores && next.Length == scores.Length * vocab && 0 < vocab
    modifies next
    ensures AllRaised(next[..], old(next[..]), scores[..], vocab)
  {
    hide Raised;
    ghost var logprobs, sc := next[..], scores[..];
    var offset := 0;
    for row := 0 to scores.Length
      invariant offset == row * vocab <= next.Length
      invariant forall x | 0 <= x < offset :: next[x] == Raised(logprobs, sc, vocab, x)
      invariant forall x | offset <= x < next.Length :: next[x] == logprobs[x]
    {
      ghost var base := offset;
      RowInside(row, scores.Length, vocab);
      for k := 0 to vocab
        invariant offset == base + k && base + vocab <= next.Length
        invariant forall x | 0 <= x < offset :: next[x] == Raised(logprobs, sc, vocab, x)
        invariant forall x | offset <= x < next.Length :: next[x] == logprobs[x]
      {
        RaisedAt(logprobs, sc, vocab, row, k);
        next[offset] := next[offset] + scores[row];
        offset := offset + 1;
      }
    }
  }

  lemma {:induction false} PartAt<T>(s: seq<T>, batches: nat, n: nat, b: nat, i: nat)
    requires b < batches && |s| == batches * n && i < n
    ensures b * n + i < |s| && Part(s, batches, n, b)[i] == s[b * n + i]
  {
    RowInside(b, batches, n);
  }

  lemma {:induction false} PartElsewhere<T>(s: seq<T>, s': seq<T>, batches: nat, n: nat, b: nat, c: nat)
    requires b < batches && c < b && |s| == |s'| == batches * n
    requires forall x | 0 <= x < |s| && !(b * n <= x < b * n + n) :: s'[x] == s[x]
    ensures Part(s', batches, n, c) == Part(s, batches, n, c)
  {
    RowInside(c, batches, n);
    RowsApart(c, b, n);
  }

  /** The candidates of one batch entry, taken from the first 2 * beams places of a partial sort. */
  method SelectBatch(ext: seq<real>, batches: nat, beams: nat, vocab: nat, b: nat, idx: array<nat>, s: array<real>,
                     t: array<int>, p: array<nat>)
    requires b < batches && |ext| == batches * (beams * vocab) && 0 < vocab
    requires idx.Length == beams * vocab && 2 * beams <= idx.Length && idx != p
    requires s.Length == t.Length == p.Length == batches * (2 * beams) && Below(p[..], beams)
    modifies idx, s, t, p
    ensures Below(p[..], beams)
    ensures Offered(ext, batches, beams, vocab, b, Part(s[..], batches, 2 * beams, b),
            Part(t[..], batches, 2 * beams, b), Part(p[..], batches, 2 * beams, b))
    ensures forall x | 0 <= x < s.Length && !(b * (2 * beams) <= x < b * (2 * beams) + 2 * beams) ::
              s[x] == old(s[x]) && t[x] == old(t[x]) && p[x] == old(p[x])
  {
    hide *;
    var part := Part(ext, batches, beams * vocab, b);
    Iota(idx);
    PartialSort(idx, part, 0, 2 * beams);
    ghost var order := idx[..];
    var at := b * (2 * beams);
    RowInside(b, batches, 2 * beams);
    PermutationBelow(order, beams * vocab);
    TakeApart(idx, part, vocab, beams, at, 2 * beams, s, t, p);
    AreCandidates(order, part, vocab, beams, s[..], t[..], p[..], batches, b);
    AreOffered(order, ext, batches, beams, vocab, b, Part(s[..], batches, 2 * beams, b),
      Part(t[..], batches, 2 * beams, b), Part(p[..], batches, 2 * beams, b));
  }

  lemma {:induction false} AreOffered(order: seq<nat>, ext: seq<real>, batches: nat, beams: nat, vocab: nat, b: nat,
                                      s: seq<real>, t: seq<int>, p: seq<nat>)
    requires b < batches && |ext| == batches * (beams * vocab) && 0 < vocab
    requires Candidates(order, Part(ext, batches, beams * vocab, b), vocab, beams, s, t, p)
    ensures Offered(ext, batches, beams, vocab, b, s, t, p)
  {
    hide Candidates, Part;
  }

  /** Writes the score, token and beam of the first n flattened indices to s, t and p from place at on. */
  method TakeApart(idx: array<nat>, part: seq<real>, vocab: nat, beams: nat, at: nat, n: nat, s: array<real>,
                   t: array<int>, p: array<nat>)
    requires 0 < vocab && |part| == beams * vocab && n <= idx.Length && idx != p && at + n <= s.Length
    requires s.Length == t.Length == p.Length && Below(p[..], beams)
    requires forall i | 0 <= i < idx.Length :: idx[..][i] < |part|
    modifies s, t, p
    ensures Below(p[..], beams)
    ensures forall x | 0 <= x < s.Length && !(at <= x < at + n) ::
              s[x] == old(s[x]) && t[x] == old(t[x]) && p[x] == old(p[x])
    ensures forall x | at <= x < at + n :: TakenApart(idx[..][x - at], part, vocab, s[..][x], t[..][x], p[..][x])
  {
    hide TakenApart;
    ghost var order := idx[..];
    for i := 0 to n
      invariant Below(p[..], beams)
      invariant idx[..] == order
      invariant forall x | 0 <= x < s.Length && !(at <= x < at + i) ::
                  s[x] == old(s[x]) && t[x] == old(t[x]) && p[x] == old(p[x])
      invariant forall x | at <= x < at + i :: TakenApart(order[x - at], part, vocab, s[x], t[x], p[x])
    {
      var x := idx[i];
      assert order[i] == x;
      ApartAt(x, part, vocab, beams);
      p[at + i] := x / vocab;
      t[at + i] := x % vocab;
      s[at + i] := part[x];
    }
  }

  lemma {:induction false} ApartAt(x: nat, part: seq<real>, vocab: nat, beams: nat)
    requires 0 < vocab && x < |part| == beams * vocab
    ensures x / vocab < beams && TakenApart(x, part, vocab, part[x], x % vocab, x / vocab)
  {
    Unflat(x, vocab, beams);
  }

  lemma {:induction false} PermutationBelow(s: seq<nat>, n: nat)
    requires IsPermutation(s) && |s| == n
    ensures forall i | 0 <= i < |s| :: s[i] < n
  {}

  lemma {:induction false} AreCandidates(order: seq<nat>, part: seq<real>, vocab: nat, beams: nat, s: seq<real>,
                                         t: seq<int>, p: seq<nat>, batches: nat, b: nat)
    requires |order| == |part| == beams * vocab && 2 * beams <= |order| && 0 < vocab && IsPermutation(order)
             && SortedPart(order, part, 0, 2 * beams)
    requires |s| == |t| == |p| == batches * (2 * beams) && b < batches && b * (2 * beams) + 2 * beams <= |s|
    requires forall x | b * (2 * beams) <= x < b * (2 * beams) + 2 * beams ::
               TakenApart(order[x - b * (2 * beams)], part, vocab, s[x], t[x], p[x])
    ensures Candidates(order, part, vocab, beams, Part(s, batches, 2 * beams, b), Part(t, batches, 2 * beams, b),
            Part(p, batches, 2 * beams, b))
  {
    hide TakenApart, SortedPart;
    forall j | 0 <= j < 2 * beams
      ensures TakenApart(order[j], part, vocab, Part(s, batches, 2 * beams, b)[j], Part(t, batches, 2 * beams, b)[j],
              Part(p, batches, 2 * beams, b)[j])
    {
      var x := b * (2 * beams) + j;
      assert TakenApart(order[x - b * (2 * beams)], part, vocab, s[x], t[x], p[x]);
      PartAt(s, batches, 2 * beams, b, j);
      PartAt(t, batches, 2 * beams, b, j);
      PartAt(p, batches, 2 * beams, b, j);
    }
  }

  /** The candidates of every batch entry. */
  ghost predicate AllOffered(ext: seq<real>, batches: nat, beams: nat, vocab: nat, s: seq<real>, t: seq<int>,
                             p: seq<nat>, n: nat)
    requires n <= batches && |ext| == batches * (beams * vocab) && |s| == |t| == |p| == batches * (2 * beams)
  {
    forall b | 0 <= b < n :: OfferedPart(ext, batches, beams, vocab, s, t, p, b)
  }

  ghost predicate OfferedPart(ext: seq<real>, batches: nat, beams: nat, vocab: nat, s: seq<real>, t: seq<int>,
                              p: seq<nat>, b: nat)
    requires b < batches && |ext| == batches * (beams * vocab) && |s| == |t| == |p| == batches * (2 * beams)
  {
    Offered(ext, batches, beams, vocab, b, Part(s, batches, 2 * beams, b), Part(t, batches, 2 * beams, b),
      Part(p, batches, 2 * beams, b))
  }

  lemma {:induction false} OfferedNext(ext: seq<real>, batches: nat, beams: nat, vocab: nat, s: seq<real>, t: seq<int>,
                                       p: seq<nat>, s': seq<real>, t': seq<int>, p': seq<nat>, b: nat)
    requires b < batches && |ext| == batches * (beams * vocab)
    requires |s| == |t| == |p| == |s'| == |t'| == |p'| == batches * (2 * beams)
    requires AllOffered(ext, batches, beams, vocab, s, t, p, b)
             && OfferedPart(ext, batches, beams, vocab, s', t', p', b)
    requires forall x | 0 <= x < |s| && !(b * (2 * beams) <= x < b * (2 * beams) + 2 * beams) ::
               s'[x] == s[x] && t'[x] == t[x] && p'[x] == p[x]
    ensures AllOffered(ext, batches, beams, vocab, s', t', p', b + 1)
  {
    hide Offered, Part;
    forall c | 0 <= c < b + 1 ensures OfferedPart(ext, batches, beams, vocab, s', t', p', c) {
      if c < b {
        PartElsewhere(s, s', batches, 2 * beams, b, c);
        PartElsewhere(t, t', batches, 2 * beams, b, c);
        PartElsewhere(p, p', batches, 2 * beams, b, c);
        assert OfferedPart(ext, batches, beams, vocab, s, t, p, c);
      }
    }
  }

  /** Builds the candidate lists of all batch entries. */
  method SelectAll(ext: seq<real>, batches: nat, beams: nat, vocab: nat, idx: array<nat>) returns (s: seq<real>,
                   t: seq<int>, p: seq<nat>)
    requires |ext| == batches * (beams * vocab) && 0 < vocab && 0 < beams
    requires idx.Length == beams * vocab && 2 * beams <= idx.Length
    modifies idx
    ensures |s| == |t| == |p| == batches * (2 * beams) && Below(p, beams)
    ensures AllOffered(ext, batches, beams, vocab, s, t, p, batches)
  {
    var n := batches * (2 * beams);
    var scores, tokens, parents := new real[n](_ => 0.0), new int[n](_ => 0), new nat[n](_ => 0);
    assert Below(parents[..], beams);
    hide *;
    NoneOffered(ext, batches, beams, vocab, scores[..], tokens[..], parents[..]);
    for b := 0 to batches
      modifies idx, scores, tokens, parents
      invariant Below(parents[..], beams)
      invariant AllOffered(ext, batches, beams, vocab, scores[..], tokens[..], parents[..], b)
    {
      ghost var s0, t0, p0 := scores[..], tokens[..], parents[..];
      SelectBatch(ext, batches, beams, vocab, b, idx, scores, tokens, parents);
      IsOfferedPart(ext, batches, beams, vocab, scores[..], tokens[..], parents[..], b);
      OfferedNext(ext, batches, beams, vocab, s0, t0, p0, scores[..], tokens[..], parents[..], b);
    }
    s, t, p := scores[..], tokens[..], parents[..];
  }

  lemma {:induction false} NoneOffered(ext: seq<real>, batches: nat, beams: nat, vocab: nat, s: seq<real>, t: seq<int>,
                                       p: seq<nat>)
    requires |ext| == batches * (beams * vocab) && |s| == |t| == |p| == batches * (2 * beams)
    ensures AllOffered(ext, batches, beams, vocab, s, t, p, 0)
  {}

  lemma {:induction false} IsOfferedPart(ext: seq<real>, batches: nat, beams: nat, vocab: nat, s: seq<real>,
                                         t: seq<int>, p: seq<nat>, b: nat)
    requires b < batches && |ext| == batches * (beams * vocab) && |s| == |t| == |p| == batches * (2 * beams)
    requires Offered(ext, batches, beams, vocab, b, Part(s, batches, 2 * beams, b), Part(t, batches, 2 * beams, b),
             Part(p, batches, 2 * beams, b))
    ensures OfferedPart(ext, batches, beams, vocab, s, t, p, b)
  {}

  // ----- what one step does

  /** The sizes of a search and how it scores. */
  datatype Shape = Shape(batches: nat, beams: nat, vocab: nat, pad: int, eos: seq<int>, normalize: (real, nat) -> real)

  /** The effect of a step on a batch entry that is not done: the scorer steps over the best candidates. */
  ghost predicate SteppedBy(o: Offer, sh: Shape, b: nat, before: BatchState, after: BatchState, ext: seq<real>,
                            rows: seq<seq<int>>, length: nat, finish: bool) {
    && b < sh.batches && |ext| == sh.batches * (sh.beams * sh.vocab)
    && o.Shaped(sh.beams) && o.rows == rows && o.base == b * sh.beams && o.length == length
      && o.normalize == sh.normalize
    && Offered(ext, sh.batches, sh.beams, sh.vocab, b, o.scores, o.tokens, o.parents)
    && Stepped(o, sh.beams, sh.eos, before, after, finish)
  }

  /** What one step does to batch entry b: a done entry is padded; any other steps over its candidates, and
      with at most one EOS id its beams are then the best extensions of its rows. */
  ghost predicate Advanced(sh: Shape, b: nat, before: BatchState, after: BatchState, ext: seq<real>,
                           rows: seq<seq<int>>, length: nat, finish: bool) {
    if before.done then after == Padded(before, sh.pad)
    else
      && (exists o :: SteppedBy(o, sh, b, before, after, ext, rows, length, finish))
      && |ext| == (sh.batches * sh.beams) * sh.vocab && b * sh.beams + sh.beams <= sh.batches * sh.beams
      && (OneEos(sh.eos, sh.vocab) ==> BestExtensions(after.slots, ext, sh.vocab, sh.batches * sh.beams, b * sh.beams,
        sh.beams, sh.eos))
  }

  ghost predicate AllAdvanced(sh: Shape, before: seq<BatchState>, after: seq<BatchState>, ext: seq<real>,
                              rows: seq<seq<int>>, length: nat, finish: seq<bool>) {
    && |before| == |after| == |finish| == sh.batches
    && forall b | 0 <= b < sh.batches :: Advanced(sh, b, before[b], after[b], ext, rows, length, finish[b])
  }

  lemma {:induction false} AllAdvance(sh: Shape, before: seq<BatchState>, after: seq<BatchState>, ext: seq<real>,
                                      rows: seq<seq<int>>, length: nat, finish: seq<bool>)
    requires |before| == |after| == |finish| == sh.batches
    requires forall b | 0 <= b < sh.batches :: Advanced(sh, b, before[b], after[b], ext, rows, length, finish[b])
    ensures AllAdvanced(sh, before, after, ext, rows, length, finish)
  {
    hide Advanced;
  }

  /** Every new row is the row it extends plus its token. */
  ghost predicate Appended(rows: seq<seq<int>>, rows': seq<seq<int>>, parents: seq<nat>, tokens: seq<int>) {
    && |rows| == |rows'| == |parents| == |tokens|
    && forall i | 0 <= i < |rows'| :: parents[i] < |rows| && rows'[i] == rows[parents[i]] + [tokens[i]]
  }

  lemma {:induction false} Advances(scorer: BeamSearchScorer, vocab: nat, b: nat, before: BatchState, after: BatchState,
                                    ext: seq<real>, rows: seq<seq<int>>, s: seq<real>, t: seq<int>, p: seq<nat>,
                                    length: nat, finish: bool)
    requires b < scorer.batches && |ext| == scorer.batches * (scorer.beams * vocab)
    requires |s| == |t| == |p| == scorer.batches * (2 * scorer.beams)
    requires AllOffered(ext, scorer.batches, scorer.beams, vocab, s, t, p, scorer.batches)
    requires scorer.Processed(b, before, after, rows, s, t, p, length, finish)
    ensures Advanced(ShapeOf(scorer, vocab), b, before, after, ext, rows, length, finish)
  {
    if !before.done {
      assert OfferedPart(ext, scorer.batches, scorer.beams, vocab, s, t, p, b);
      var n := 2 * scorer.beams;
      var o := scorer.OfferOf(b, rows, Part(s, scorer.batches, n, b), Part(t, scorer.batches, n, b),
        Part(p, scorer.batches, n, b), length);
      hide Stepped, Offered, BestExtensions, OneEos, Part;
      assert SteppedBy(o, ShapeOf(scorer, vocab), b, before, after, ext, rows, length, finish);
      RowInside(b, scorer.batches, scorer.beams);
      Regroup(scorer.batches, scorer.beams, vocab);
      if OneEos(scorer.eos, vocab) {
        TopTwoKExact(o, ext, scorer.batches, scorer.beams, vocab, b, scorer.eos, before, after, finish);
      }
    }
  }

  lemma {:induction false} Regroup(a: nat, b: nat, c: nat)
    ensures a * (b * c) == (a * b) * c
  {}

  ghost function ShapeOf(scorer: BeamSearchScorer, vocab: nat): Shape {
    Shape(scorer.batches, scorer.beams, vocab, scorer.pad, scorer.eos, scorer.normalize)
  }

  /** The candidates of all batch entries, one entry after another. */
  datatype Picked = Picked(scores: seq<real>, tokens: seq<int>, parents: seq<nat>)
  {
    ghost predicate Of(ext: seq<real>, batches: nat, beams: nat, vocab: nat) {
      && |ext| == batches * (beams * vocab) && |scores| == |tokens| == |parents| == batches * (2 * beams)
      && AllOffered(ext, batches, beams, vocab, scores, tokens, parents, batches)
    }
  }

  lemma {:induction false} ArePicked(c: Picked, ext: seq<real>, batches: nat, beams: nat, vocab: nat)
    requires |ext| == batches * (beams * vocab) && |c.scores| == |c.tokens| == |c.parents| == batches * (2 * beams)
    requires AllOffered(ext, batches, beams, vocab, c.scores, c.tokens, c.parents, batches)
    ensures c.Of(ext, batches, beams, vocab)
  {}

  // ----- whole runs

  class BeamSearch {
    const scorer: BeamSearchScorer
    const sequences: Sequences
    const vocab: nat
    /** Scratch indices of one batch entry. */
    const idx: array<nat>
    var finalized: bool

    /** Holds between steps of every run. The buffer bound is part of it: whatever was cloned so far fits
        the steps below the current length. */
    ghost predicate Valid()
      reads this, sequences, scorer, scorer.parents, scorer.Lists()
    {
      && scorer.Valid() && scorer.Sized()
      && sequences.Valid() && sequences.rows == scorer.parents.Length && sequences.maxLength == scorer.maxLength
      && scorer.nextLength <= sequences.length
      && Separate() && 0 < vocab && idx.Length == scorer.beams * vocab
    }

    ghost predicate Separate()
      reads this, sequences
    {
      && sequences.current != scorer.buffer && sequences.current != scorer.tokens
      && sequences.next != scorer.buffer && sequences.next != scorer.tokens
      && idx != scorer.parents
    }

    constructor (batches: nat, beams: nat, vocab: nat, maxLength: nat, pad: int, eos: seq<int>,
      normalize: (real, nat) -> real, early: bool)
      requires 0 < beams && 0 < vocab
      ensures Valid() && sequences.length == 0 && !finalized && scorer.early == early
      ensures scorer.batches == batches && scorer.beams == beams && scorer.eos == eos && this.vocab == vocab
    {
      scorer := new BeamSearchScorer(batches, beams, maxLength, pad, eos, normalize, early);
      sequences := new Sequences(batches * beams, maxLength);
      this.vocab := vocab;
      idx := new nat[beams * vocab](_ => 0);
      finalized := false;
    }

    lemma {:induction false} Sizes()
      requires Valid()
      ensures scorer.parents.Length == scorer.batches * scorer.beams == scorer.scores.Length == scorer.tokens.Length ==
              sequences.rows
      ensures scorer.parents.Length * vocab == scorer.batches * (scorer.beams * vocab)
      ensures 0 < vocab && 0 < scorer.beams && idx.Length == scorer.beams * vocab
      ensures scorer.Valid() && scorer.Sized() && sequences.Valid() && scorer.nextLength <= sequences.length
      ensures sequences.maxLength == scorer.maxLength && Separate()
    {}

    lemma {:induction false} StatesAre()
      requires Valid()
      ensures |States()| == scorer.batches && forall b | 0 <= b < scorer.batches :: States()[b] == scorer.State(b)
      ensures Rows() == sequences.Rows() && ShapeOf(scorer, vocab).batches == scorer.batches
    {}

    lemma {:induction false} IsChosen()
      requires scorer.Valid() && scorer.Sized() && sequences.Valid() && scorer.nextLength <= sequences.length + 1
      requires sequences.rows == scorer.parents.Length && sequences.maxLength == scorer.maxLength
      requires Separate() && 0 < vocab && idx.Length == scorer.beams * vocab
      ensures Chosen()
    {}

    ghost function StatesTo(n: nat): (r: seq<BatchState>)
      requires scorer.Valid() && n <= scorer.batches
      reads scorer`used, scorer.scores, scorer.tokens, scorer.parents, scorer.buffer, scorer.Lists()
      ensures |r| == n && forall b | 0 <= b < n :: r[b] == scorer.State(b)
    {
      if n == 0 then [] else StatesTo(n - 1) + [scorer.State(n - 1)]
    }

    /** What the scorer holds for every batch entry. */
    ghost function States(): (r: seq<BatchState>)
      requires Valid()
      reads this, sequences, scorer, scorer.scores, scorer.tokens, scorer.parents, scorer.buffer, scorer.Lists()
    {
      StatesTo(scorer.batches)
    }

    ghost function Rows(): seq<seq<int>>
      requires Valid()
      reads this, sequences, sequences.current, scorer, scorer.parents, scorer.Lists()
    {
      sequences.Rows()
    }

    lemma {:induction false} NoLists(next: array<real>)
      ensures next !in scorer.Lists() && idx !in scorer.Lists() && sequences !in scorer.Lists()
              && scorer !in scorer.Lists()
      ensures sequences.current !in scorer.Lists() && sequences.next !in scorer.Lists()
      ensures scorer.scores !in scorer.Lists() && scorer.buffer !in scorer.Lists() && scorer.tokens !in scorer.Lists()
              && scorer.parents !in scorer.Lists()
    {}

    method Raise(next: array<real>)
      requires Valid() && next.Length == scorer.parents.Length * vocab && next != scorer.scores
      modifies next
      ensures Valid() && States() == old(States()) && Rows() == old(Rows())
      ensures AllRaised(next[..], old(next[..]), scorer.scores[..], vocab)
    {
      Sizes();
      NoLists(next);
      AddScores(next, scorer.scores, vocab);
    }

    method Choose(next: array<real>) returns (s: seq<real>, t: seq<int>, p: seq<nat>)
      requires Valid() && next.Length == scorer.parents.Length * vocab && 2 * scorer.beams <= scorer.beams * vocab
      modifies idx
      ensures Valid() && States() == old(States()) && Rows() == old(Rows())
      ensures |s| == |t| == |p| == scorer.batches * (2 * scorer.beams) && Below(p, scorer.beams)
      ensures next.Length == scorer.batches * (scorer.beams * vocab)
      ensures AllOffered(next[..], scorer.batches, scorer.beams, vocab, s, t, p, scorer.batches)
    {
      Sizes();
      s, t, p := SelectAll(next[..], scorer.batches, scorer.beams, vocab, idx);
    }

    /** The search between the scorer's choice and the append. */
    ghost predicate Chosen()
      reads this, sequences, scorer, scorer.parents, scorer.Lists()
    {
      && scorer.Valid() && scorer.Sized()
      && sequences.Valid() && sequences.rows == scorer.parents.Length && sequences.maxLength == scorer.maxLength
      && scorer.nextLength <= sequences.length + 1
      && Separate() && 0 < vocab && idx.Length == scorer.beams * vocab
    }

    /** Whether each open entry's full list closes it follows from the candidates' scores. */
    ghost predicate AllDecided(before: seq<BatchState>, after: seq<BatchState>, s: seq<real>, length: nat,
                               finish: seq<bool>)
    {
      && |before| == |after| == |finish| == scorer.batches && 0 < scorer.beams
      && |s| == scorer.batches * (2 * scorer.beams)
      && forall b | 0 <= b < scorer.batches && !before[b].done :: scorer.Decided(b, s, after[b], length, finish[b])
    }

    lemma {:induction false} AreDecided(before: seq<BatchState>, after: seq<BatchState>, rows: seq<seq<int>>,
                                        s: seq<real>, t: seq<int>, p: seq<nat>, length: nat, finish: seq<bool>)
      requires |before| == |after| == |finish| == scorer.batches && 0 < scorer.beams
      requires |s| == |t| == |p| == scorer.batches * (2 * scorer.beams)
      requires forall b | 0 <= b < scorer.batches ::
                 scorer.Processed(b, before[b], after[b], rows, s, t, p, length, finish[b])
      ensures AllDecided(before, after, s, length, finish)
    {
      hide Stepped, Padded, BeamSearchScorer.OfferOf, BeamSearchScorer.Decided;
      forall b | 0 <= b < scorer.batches && !before[b].done
        ensures scorer.Decided(b, s, after[b], length, finish[b])
      {
        assert scorer.Processed(b, before[b], after[b], rows, s, t, p, length, finish[b]);
      }
    }

    method Score(ghost ext: seq<real>, s: seq<real>, t: seq<int>, p: seq<nat>) returns (ghost finish: seq<bool>)
      requires Valid() && sequences.length < sequences.maxLength
      requires |s| == |t| == |p| == scorer.batches * (2 * scorer.beams) && Below(p, scorer.beams)
      requires |ext| == scorer.batches * (scorer.beams * vocab)
               && AllOffered(ext, scorer.batches, scorer.beams, vocab, s, t, p, scorer.batches)
      modifies scorer, scorer.buffer, scorer.scores, scorer.tokens, scorer.parents, scorer.Lists()
      ensures Chosen() && sequences.Rows() == old(Rows())
      ensures AllAdvanced(ShapeOf(scorer, vocab), old(States()), StatesTo(scorer.batches), ext, old(Rows()),
              sequences.length, finish)
      ensures AllDecided(old(States()), StatesTo(scorer.batches), s, sequences.length, finish)
    {
      hide *;
      Sizes();
      StatesAre();
      NoLists(scorer.scores);
      ghost var rows, length, before := Rows(), sequences.length, States();
      finish := scorer.Process(sequences, s, t, p);
      forall b | 0 <= b < scorer.batches
        ensures Advanced(ShapeOf(scorer, vocab), b, before[b], scorer.State(b), ext, rows, length, finish[b])
      {
        Advances(scorer, vocab, b, before[b], scorer.State(b), ext, rows, s, t, p, length, finish[b]);
      }
      AllAdvance(ShapeOf(scorer, vocab), before, StatesTo(scorer.batches), ext, rows, length, finish);
      AreDecided(before, StatesTo(scorer.batches), rows, s, t, p, length, finish);
      IsChosen();
    }

    method Extend()
      requires Chosen() && sequences.length < sequences.maxLength
      modifies sequences, sequences.next
      ensures Valid() && sequences.length == old(sequences.length) + 1
      ensures sequences.current == old(sequences.next) && sequences.next == old(sequences.current)
      ensures States() == old(StatesTo(scorer.batches))
      ensures Appended(old(sequences.Rows()), Rows(), scorer.parents[..], scorer.tokens[..])
    {
      hide FlatRow, Bound, Tri, BeamSearchScorer.BatchValid;
      sequences.Append(scorer.tokens, scorer.parents);
    }

    /** Lets the scorer choose and extends the rows. */
    method Step(ghost ext: seq<real>, s: seq<real>, t: seq<int>, p: seq<nat>) returns (ghost finish: seq<bool>)
      requires Valid() && sequences.length < sequences.maxLength
      requires |s| == |t| == |p| == scorer.batches * (2 * scorer.beams) && Below(p, scorer.beams)
      requires |ext| == scorer.batches * (scorer.beams * vocab)
               && AllOffered(ext, scorer.batches, scorer.beams, vocab, s, t, p, scorer.batches)
      modifies scorer, scorer.buffer, scorer.scores, scorer.tokens, scorer.parents, scorer.Lists(), sequences,
               sequences.next
      ensures Valid() && sequences.length == old(sequences.length) + 1
      ensures sequences.current == old(sequences.next) && sequences.next == old(sequences.current)
      ensures AllAdvanced(ShapeOf(scorer, vocab), old(States()), States(), ext, old(Rows()), old(sequences.length),
              finish)
      ensures AllDecided(old(States()), States(), s, old(sequences.length), finish)
      ensures Appended(old(Rows()), Rows(), scorer.parents[..], scorer.tokens[..])
    {
      NoLists(scorer.scores);
      hide *;
      finish := Score(ext, s, t, p);
      Extend();
    }

    /** Starts a fresh search with the prompts of all batch entries, one after another; prompts that are too
        long change nothing. */
    method AppendTokens(prompt: seq<int>, count: nat) returns (ok: bool)
      requires Valid() && sequences.length == 0 && |prompt| == scorer.batches * count
      modifies sequences, sequences.next
      ensures Valid() && ok == (count <= sequences.maxLength)
      ensures !ok ==> sequences.length == 0
      ensures ok ==> sequences.length == count && States() == old(States())
      ensures ok ==> forall i | 0 <= i < sequences.rows ::
                Prompted(sequences.Row(i), prompt, scorer.batches, scorer.beams, count, i)
    {
      Sizes();
      hide FlatRow, Bound, Tri, BeamSearchScorer.BatchValid, Part, Prompted;
      ok := count <= sequences.maxLength;
      if ok { sequences.Begin(prompt, scorer.batches, scorer.beams, count); }
    }

    /** One step of the search. With too small a vocabulary it fails after raising the scores, and changes
        nothing else. */
    method SelectTop(next: array<real>) returns (ok: bool, ghost finish: seq<bool>, ghost c: Picked)
      requires Valid() && next.Length == scorer.parents.Length * vocab && next != scorer.scores
      requires sequences.length < sequences.maxLength
      modifies next, idx, scorer, scorer.buffer, scorer.scores, scorer.tokens, scorer.parents, scorer.Lists(),
               sequences, sequences.next
      ensures Valid()
      ensures AllRaised(next[..], old(next[..]), old(scorer.scores[..]), vocab)
      ensures ok <==> 2 * scorer.beams <= scorer.beams * vocab
      ensures !ok ==> sequences.length == old(sequences.length) && Rows() == old(Rows()) && States() == old(States())
      ensures ok ==> sequences.length == old(sequences.length) + 1
      ensures ok ==> sequences.current == old(sequences.next) && sequences.next == old(sequences.current)
      ensures ok ==> AllAdvanced(ShapeOf(scorer, vocab), old(States()), States(), next[..], old(Rows()),
              old(sequences.length), finish)
      ensures ok ==> c.Of(next[..], scorer.batches, scorer.beams, vocab)
      ensures ok ==> AllDecided(old(States()), States(), c.scores, old(sequences.length), finish)
      ensures ok ==> Appended(old(Rows()), Rows(), scorer.parents[..], scorer.tokens[..])
    {
      hide *;
      Sizes();
      NoLists(next);
      Raise(next);
      finish, c := [], Picked([], [], []);
      if scorer.beams * vocab < 2 * scorer.beams {
        return false, finish, c;
      }
      ghost var raised := next[..];
      var s, t, p := Choose(next);
      finish := Step(next[..], s, t, p);
      c := Picked(s, t, p);
      ArePicked(c, next[..], scorer.batches, scorer.beams, vocab);
      ok := true;
    }

    /** Adds the open beams of every batch entry that is not done to its finished hypotheses; a second call
        changes nothing. */
    method Finalize()
      requires if finalized then scorer.Valid() && scorer.Sized() else Valid()
      modifies this`finalized, scorer, scorer.buffer, scorer.Lists()
      ensures finalized && scorer.Valid() && scorer.Sized()
      ensures old(finalized) ==> forall b | 0 <= b < scorer.batches :: scorer.State(b) == old(scorer.State(b))
      ensures !old(finalized) ==> sequences.Valid() && forall b | 0 <= b < scorer.batches ::
                scorer.Closed(b, old(scorer.State(b)), scorer.State(b), sequences.Rows(), sequences.length)
    {
      if finalized { return; }
      Sizes();
      hide AllRows, Padded, BeamSearchScorer.State, Bound, Tri, BeamSearchScorer.Shape, BeamSearchScorer.BatchValid,
           BeamSearchScorer.Closed;
      scorer.Finalize(sequences);
      finalized := true;
    }
  }
}
