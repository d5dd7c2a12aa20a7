/** Whole runs of beam search: what an open beam's score and row are made of. */
module BeamRun {
  import opened Pigeonhole
  import opened FlatRows
  import opened BeamTop
  import opened BeamSequences
  import opened BeamScorer
  import opened BeamSearching

  /** One step as taken: the log-probabilities it was given, and for every row the row it extends and its token. */
  datatype Taken = Taken(logprobs: seq<real>, parents: seq<nat>, tokens: seq<int>)

  /** The log-probability a step gave a token in a row. */
  ghost function Gain(t: Taken, vocab: nat, rows: nat, parent: nat, token: int): real {
    if |t.logprobs| == rows * vocab && parent < rows && 0 <= token < vocab
    then Extension(t.logprobs, vocab, rows, parent, token) else 0.0
  }

  ghost predicate Logged(log: seq<Taken>, rows: nat) {
    forall n | 0 <= n < |log| :: LoggedStep(log[n], rows)
  }

  ghost predicate LoggedStep(t: Taken, rows: nat) {
    |t.parents| == |t.tokens| == rows && forall i | 0 <= i < rows :: t.parents[i] < rows
  }

  /** The starting score of row i's first ancestor plus the log-probabilities of the tokens along its path. */
  ghost function PathScore(start: seq<real>, log: seq<Taken>, vocab: nat, i: nat): real
    requires Logged(log, |start|) && i < |start|
    decreases |log|
  {
    if log == [] then start[i] else
      var n := |log| - 1;
      assert LoggedStep(log[n], |start|);
      var p := log[n].parents[i];
      PathScore(start, log[..n], vocab, p) + Gain(log[n], vocab, |start|, p, log[n].tokens[i])
  }

  /** The first ancestor's row followed by the tokens along the path. */
  ghost function PathRow(first: seq<seq<int>>, log: seq<Taken>, i: nat): seq<int>
    requires Logged(log, |first|) && i < |first|
    decreases |log|
  {
    if log == [] then first[i] else
      var n := |log| - 1;
      assert LoggedStep(log[n], |first|);
      PathRow(first, log[..n], log[n].parents[i]) + [log[n].tokens[i]]
  }

  /** Row i's slot holds its path's score. */
  ghost predicate Scored(start: seq<real>, log: seq<Taken>, vocab: nat, slot: Slot, i: nat) {
    Logged(log, |start|) && i < |start| && slot.score == PathScore(start, log, vocab, i)
  }

  ghost predicate AllScored(sh: Shape, start: seq<real>, log: seq<Taken>, states: seq<BatchState>) {
    && |states| == sh.batches
    && forall b | 0 <= b < sh.batches && !states[b].done :: BatchScored(sh, start, log, states[b], b)
  }

  ghost predicate BatchScored(sh: Shape, start: seq<real>, log: seq<Taken>, st: BatchState, b: nat) {
    |st.slots| == sh.beams && forall i | 0 <= i < sh.beams ::
        Scored(start, log, sh.vocab, st.slots[i], b * sh.beams + i)
  }

  ghost predicate AllRowed(first: seq<seq<int>>, log: seq<Taken>, rows: seq<seq<int>>) {
    && |rows| == |first| && Logged(log, |first|)
    && forall i | 0 <= i < |rows| :: rows[i] == PathRow(first, log, i)
  }

  /** The slots of the states are the flat arrays. */
  ghost predicate Flattened(sh: Shape, states: seq<BatchState>, scores: seq<real>, parents: seq<nat>, tokens: seq<int>)
  {
    && |states| == sh.batches && |scores| == |parents| == |tokens| == sh.batches * sh.beams
    && forall b | 0 <= b < sh.batches :: FlatBatch(sh, states[b], b, scores, parents, tokens)
  }

  ghost predicate FlatBatch(sh: Shape, st: BatchState, b: nat, scores: seq<real>, parents: seq<nat>, tokens: seq<int>) {
    && b * sh.beams + sh.beams <= |scores| && |scores| == |parents| == |tokens|
    && st.slots == SlotsFrom(scores, tokens, parents, b * sh.beams, sh.beams)
  }

  // ----- one step

  lemma {:induction false} LogMore(log: seq<Taken>, t: Taken, rows: nat)
    requires Logged(log, rows) && LoggedStep(t, rows)
    ensures Logged(log + [t], rows)
  {}

  lemma {:induction false} PathMore(start: seq<real>, first: seq<seq<int>>, log: seq<Taken>, t: Taken, vocab: nat,
                                    i: nat)
    requires Logged(log, |start|) && LoggedStep(t, |start|) && |first| == |start| && i < |start|
    ensures Logged(log + [t], |start|)
    ensures PathScore(start, log + [t], vocab, i) ==
            PathScore(start, log, vocab, t.parents[i]) + Gain(t, vocab, |start|, t.parents[i], t.tokens[i])
    ensures PathRow(first, log + [t], i) == PathRow(first, log, t.parents[i]) + [t.tokens[i]]
  {
    hide Gain;
    LogMore(log, t, |start|);
    assert (log + [t])[..|log|] == log;
  }

  /** The rows follow their paths. */
  lemma {:induction false} RowsFollow(first: seq<seq<int>>, start: seq<real>, log: seq<Taken>, t: Taken,
                                      rows: seq<seq<int>>, rows': seq<seq<int>>)
    requires AllRowed(first, log, rows) && Appended(rows, rows', t.parents, t.tokens) && |start| == |first|
    ensures LoggedStep(t, |first|) && AllRowed(first, log + [t], rows')
  {
    hide PathRow, PathScore;
    assert LoggedStep(t, |first|);
    LogMore(log, t, |first|);
    forall i | 0 <= i < |rows'| ensures rows'[i] == PathRow(first, log + [t], i) {
      PathMore(start, first, log, t, 0, i);
    }
  }

  /** A slot that holds a best extension holds its path's score, if its parent's slot did. */
  lemma {:induction false} SlotFollows(sh: Shape, start: seq<real>, log: seq<Taken>, t: Taken, before: BatchState,
                                       after: BatchState, ext: seq<real>, scores: seq<real>,
                                       first: seq<seq<int>>, b: nat, i: nat)
    requires b < sh.batches && i < sh.beams && |start| == |first| == |scores| == sh.batches * sh.beams
    requires Logged(log, |start|) && LoggedStep(t, |start|) && BatchScored(sh, start, log, before, b)
    requires AllRaised(ext, t.logprobs, scores, sh.vocab)
    requires b * sh.beams + sh.beams <= |scores|
    requires forall k | 0 <= k < sh.beams :: before.slots[k].score == scores[b * sh.beams + k]
    requires |after.slots| == sh.beams && after.slots[i].parent == t.parents[b * sh.beams + i]
             && after.slots[i].token == t.tokens[b * sh.beams + i]
    requires IsExtension(after.slots[i], ext, sh.vocab, |scores|, b * sh.beams, sh.beams, sh.eos)
    ensures Scored(start, log + [t], sh.vocab, after.slots[i], b * sh.beams + i)
  {
    hide PathScore, PathRow, AllRaised, Extension;
    var slot := after.slots[i];
    var k := slot.parent - b * sh.beams;
    PathMore(start, first, log, t, sh.vocab, b * sh.beams + i);
    assert Scored(start, log, sh.vocab, before.slots[k], b * sh.beams + k);
    RaisedSizes(ext, t.logprobs, scores, sh.vocab);
    RaisedExtension(ext, t.logprobs, scores, sh.vocab, slot.parent, slot.token);
  }

  lemma {:induction false} RaisedSizes(ext: seq<real>, logprobs: seq<real>, scores: seq<real>, vocab: nat)
    requires AllRaised(ext, logprobs, scores, vocab)
    ensures |ext| == |logprobs| == |scores| * vocab && 0 < vocab
  {}

  lemma {:induction false} FlatSlot(sh: Shape, st: BatchState, b: nat, scores: seq<real>, parents: seq<nat>,
                                    tokens: seq<int>, i: nat)
    requires FlatBatch(sh, st, b, scores, parents, tokens) && i < sh.beams
    ensures |st.slots| == sh.beams && b * sh.beams + i < |scores|
    ensures st.slots[i] == Slot(scores[b * sh.beams + i], tokens[b * sh.beams + i], parents[b * sh.beams + i])
  {}

  /** One batch entry of a step. An entry that is not done afterwards was not done before. */
  lemma {:induction false} BatchFollows(sh: Shape, start: seq<real>, first: seq<seq<int>>, log: seq<Taken>, t: Taken,
                                        before: BatchState, after: BatchState, ext: seq<real>,
                                        rows: seq<seq<int>>, length: nat, finish: bool, flats: Flats, flats': Flats,
                                          b: nat)
    requires b < sh.batches && |start| == |first| == |flats.scores| == sh.batches * sh.beams
    requires Logged(log, |start|) && LoggedStep(t, |start|) && (!before.done ==> BatchScored(sh, start, log, before, b))
    requires AllRaised(ext, t.logprobs, flats.scores, sh.vocab) && OneEos(sh.eos, sh.vocab)
    requires FlatBatch(sh, before, b, flats.scores, flats.parents, flats.tokens)
    requires FlatBatch(sh, after, b, flats'.scores, t.parents, t.tokens) && |flats'.scores| == |flats.scores|
    requires Advanced(sh, b, before, after, ext, rows, length, finish) && !after.done
    ensures BatchScored(sh, start, log + [t], after, b)
  {
    hide PathScore, PathRow, AllRaised, Extension, Scored, FlatBatch, SteppedBy, Padded;
    NotDone(sh, b, before, after, ext, rows, length, finish);
    forall k | 0 <= k < sh.beams ensures before.slots[k].score == flats.scores[b * sh.beams + k] {
      FlatSlot(sh, before, b, flats.scores, flats.parents, flats.tokens, k);
    }
    forall i | 0 <= i < sh.beams ensures Scored(start, log + [t], sh.vocab, after.slots[i], b * sh.beams + i) {
      FlatSlot(sh, after, b, flats'.scores, t.parents, t.tokens, i);
      SlotFollows(sh, start, log, t, before, after, ext, flats.scores, first, b, i);
    }
  }

  /** The scorer's flat slot arrays at one moment. */
  datatype Flats = Flats(scores: seq<real>, parents: seq<nat>, tokens: seq<int>)

  lemma {:induction false} NotDone(sh: Shape, b: nat, before: BatchState, after: BatchState, ext: seq<real>,
                                   rows: seq<seq<int>>, length: nat, finish: bool)
    requires Advanced(sh, b, before, after, ext, rows, length, finish) && !after.done && OneEos(sh.eos, sh.vocab)
    ensures !before.done && |ext| == (sh.batches * sh.beams) * sh.vocab
            && b * sh.beams + sh.beams <= sh.batches * sh.beams
    ensures BestExtensions(after.slots, ext, sh.vocab, sh.batches * sh.beams, b * sh.beams, sh.beams, sh.eos)
  {
    hide BestExtensions, SteppedBy;
  }

  lemma {:induction false} StepFollows(sh: Shape, start: seq<real>, first: seq<seq<int>>, log: seq<Taken>, t: Taken,
                                       before: seq<BatchState>, after: seq<BatchState>, ext: seq<real>,
                                       rows: seq<seq<int>>, length: nat, finish: seq<bool>, flats: Flats, flats': Flats)
    requires |start| == |first| == sh.batches * sh.beams && Logged(log, |start|) && LoggedStep(t, |start|)
    requires OneEos(sh.eos, sh.vocab) && AllScored(sh, start, log, before)
    requires AllRaised(ext, t.logprobs, flats.scores, sh.vocab)
             && AllAdvanced(sh, before, after, ext, rows, length, finish)
    requires Flattened(sh, before, flats.scores, flats.parents, flats.tokens)
             && Flattened(sh, after, flats'.scores, t.parents, t.tokens)
    ensures AllScored(sh, start, log + [t], after)
  {
    hide AllRaised, Advanced, BatchScored, FlatBatch, OneEos, Logged;
    forall b | 0 <= b < sh.batches && !after[b].done ensures BatchScored(sh, start, log + [t], after[b], b) {
      assert FlatBatch(sh, before[b], b, flats.scores, flats.parents, flats.tokens);
      assert FlatBatch(sh, after[b], b, flats'.scores, t.parents, t.tokens);
      BatchFollows(sh, start, first, log, t, before[b], after[b], ext, rows, length, finish[b], flats, flats', b);
    }
  }

  // ----- what is finished

  /** The text was finished by step n: row i of the entry as it was then, which an EOS id ended there. */
  ghost predicate ProducedBy(sh: Shape, start: seq<real>, first: seq<seq<int>>, log: seq<Taken>, b: nat, text: Text,
                             n: nat, i: nat, e: int) {
    && n < |log| && i < |start| == |first| && Logged(log[..n], |start|)
    && b * sh.beams <= i < b * sh.beams + sh.beams && e in sh.eos
    && text.tokens == PathRow(first, log[..n], i)
    && text.score == sh.normalize(PathScore(start, log[..n], sh.vocab, i) + Gain(log[n], sh.vocab, |start|, i, e),
                                  |text.tokens|)
  }

  ghost predicate Produced(sh: Shape, start: seq<real>, first: seq<seq<int>>, log: seq<Taken>, b: nat, text: Text) {
    exists n: nat, i: nat, e: int :: ProducedBy(sh, start, first, log, b, text, n, i, e)
  }

  /** What an entry had finished stays, and whatever came to it was finished by a step. */
  ghost predicate BatchTexts(sh: Shape, start: seq<real>, first: seq<seq<int>>, log: seq<Taken>, was: seq<Text>,
                             now: seq<Text>, b: nat) {
    was <= now && forall t | |was| <= t < |now| :: Produced(sh, start, first, log, b, now[t])
  }

  ghost predicate TextsFollow(sh: Shape, start: seq<real>, first: seq<seq<int>>, log: seq<Taken>,
                              was: seq<BatchState>, now: seq<BatchState>) {
    && |was| == |now| == sh.batches
    && forall b | 0 <= b < sh.batches :: BatchTexts(sh, start, first, log, was[b].texts, now[b].texts, b)
  }

  lemma {:induction false} ProducedStays(sh: Shape, start: seq<real>, first: seq<seq<int>>, log: seq<Taken>, t: Taken,
                                         b: nat, text: Text)
    requires Produced(sh, start, first, log, b, text)
    ensures Produced(sh, start, first, log + [t], b, text)
  {
    hide PathRow, PathScore, Gain;
    var n: nat, i: nat, e: int :| ProducedBy(sh, start, first, log, b, text, n, i, e);
    assert (log + [t])[..n] == log[..n] && (log + [t])[n] == log[n];
    assert ProducedBy(sh, start, first, log + [t], b, text, n, i, e);
  }

  lemma {:induction false} EndedTextAt(o: Offer, beams: nat, at: seq<nat>, k: nat)
    requires o.Shaped(beams) && Below(at, 2 * beams) && k < |at|
    ensures EndedTexts(o, beams, at)[k] == o.TextAt(at[k])
  {
    if k < |at| - 1 { EndedTextAt(o, beams, at[..|at| - 1], k); }
  }

  /** A candidate's score is that of the extension it stands for. */
  lemma {:induction false} CandidateExtends(o: Offer, sh: Shape, ext: seq<real>, b: nat, j: nat)
    requires b < sh.batches && |ext| == sh.batches * (sh.beams * sh.vocab) == (sh.batches * sh.beams) * sh.vocab
    requires Offered(ext, sh.batches, sh.beams, sh.vocab, b, o.scores, o.tokens, o.parents)
    requires o.Shaped(sh.beams) && o.base == b * sh.beams && j < 2 * sh.beams
    ensures o.parents[j] < sh.beams && 0 <= o.tokens[j] < sh.vocab && o.base + sh.beams <= sh.batches * sh.beams
    ensures o.scores[j] == Extension(ext, sh.vocab, sh.batches * sh.beams, o.base + o.parents[j], o.tokens[j])
  {
    hide Candidates, Part, Extension;
    var part := Part(ext, sh.batches, sh.beams * sh.vocab, b);
    var order :| Candidates(order, part, sh.vocab, sh.beams, o.scores, o.tokens, o.parents);
    ParentBelow(order, part, sh.vocab, sh.beams, o.scores, o.tokens, o.parents, j);
    PartExtension(ext, sh.batches, sh.beams, sh.vocab, b, o.parents[j], o.tokens[j]);
  }

  /** An ended candidate's text is the one its path makes. */
  lemma {:induction false} EndedProduced(o: Offer, sh: Shape, start: seq<real>, first: seq<seq<int>>, log: seq<Taken>,
                                         t: Taken, before: BatchState, ext: seq<real>, rows: seq<seq<int>>,
                                         length: nat, flats: Flats, b: nat, j: nat)
    requires b < sh.batches && |start| == |first| == |flats.scores| == sh.batches * sh.beams
    requires |ext| == sh.batches * (sh.beams * sh.vocab) == (sh.batches * sh.beams) * sh.vocab
    requires BatchScored(sh, start, log, before, b)
    requires FlatBatch(sh, before, b, flats.scores, flats.parents, flats.tokens)
    requires AllRaised(ext, t.logprobs, flats.scores, sh.vocab) && AllRowed(first, log, rows)
    requires forall i | 0 <= i < |rows| :: |rows[i]| == length
    requires Offered(ext, sh.batches, sh.beams, sh.vocab, b, o.scores, o.tokens, o.parents)
    requires o.Shaped(sh.beams) && o.base == b * sh.beams && o.rows == rows && o.length == length
             && o.normalize == sh.normalize
    requires j < 2 * sh.beams && o.tokens[j] in sh.eos
    ensures Produced(sh, start, first, log + [t], b, o.TextAt(j))
  {
    hide PathRow, PathScore, Candidates, Offered, Extension, AllRaised, FlatBatch;
    CandidateExtends(o, sh, ext, b, j);
    var i, e := o.base + o.parents[j], o.tokens[j];
    RaisedSizes(ext, t.logprobs, flats.scores, sh.vocab);
    RaisedExtension(ext, t.logprobs, flats.scores, sh.vocab, i, e);
    FlatSlot(sh, before, b, flats.scores, flats.parents, flats.tokens, o.parents[j]);
    assert Scored(start, log, sh.vocab, before.slots[o.parents[j]], i);
    assert (log + [t])[..|log|] == log;
    assert ProducedBy(sh, start, first, log + [t], b, o.TextAt(j), |log|, i, e);
  }

  lemma {:induction false} BatchTextsFollow(sh: Shape, start: seq<real>, first: seq<seq<int>>, log: seq<Taken>,
                                            t: Taken, was: seq<Text>, before: BatchState, after: BatchState,
                                            ext: seq<real>, rows: seq<seq<int>>, length: nat, finish: bool,
                                            flats: Flats, b: nat)
    requires b < sh.batches && |start| == |first| == |flats.scores| == sh.batches * sh.beams
    requires !before.done ==> BatchScored(sh, start, log, before, b)
    requires FlatBatch(sh, before, b, flats.scores, flats.parents, flats.tokens)
    requires AllRaised(ext, t.logprobs, flats.scores, sh.vocab) && AllRowed(first, log, rows)
    requires forall i | 0 <= i < |rows| :: |rows[i]| == length
    requires Advanced(sh, b, before, after, ext, rows, length, finish)
    requires BatchTexts(sh, start, first, log, was, before.texts, b)
    ensures BatchTexts(sh, start, first, log + [t], was, after.texts, b)
  {
    hide Produced, BatchScored, FlatBatch, AllRaised, AllRowed, Offered, BestExtensions, Live, Ended, EndedTexts,
         SlotsFilled;
    forall x | |was| <= x < |before.texts| ensures Produced(sh, start, first, log + [t], b, before.texts[x]) {
      ProducedStays(sh, start, first, log, t, b, before.texts[x]);
    }
    if !before.done {
      var o :| SteppedBy(o, sh, b, before, after, ext, rows, length, finish);
      var ended := Ended(o.tokens, sh.eos, sh.beams);
      EndedMeaning(o.tokens, sh.eos, sh.beams);
      var more := EndedTexts(o, sh.beams, ended);
      forall k | 0 <= k < |more| ensures Produced(sh, start, first, log + [t], b, more[k]) {
        EndedTextAt(o, sh.beams, ended, k);
        EndedProduced(o, sh, start, first, log, t, before, ext, rows, length, flats, b, ended[k]);
      }
      Joined(sh, start, first, log + [t], was, before.texts, more, b);
    }
  }

  lemma {:induction false} Joined(sh: Shape, start: seq<real>, first: seq<seq<int>>, log: seq<Taken>, was: seq<Text>,
                                  now: seq<Text>, more: seq<Text>, b: nat)
    requires BatchTexts(sh, start, first, log, was, now, b)
    requires forall k | 0 <= k < |more| :: Produced(sh, start, first, log, b, more[k])
    ensures BatchTexts(sh, start, first, log, was, now + more, b)
  {
    hide Produced;
    forall t | |was| <= t < |now + more| ensures Produced(sh, start, first, log, b, (now + more)[t]) {
      assert (now + more)[t] == if t < |now| then now[t] else more[t - |now|];
    }
  }

  lemma {:induction false} StepTexts(sh: Shape, start: seq<real>, first: seq<seq<int>>, log: seq<Taken>, t: Taken,
                                     was: seq<BatchState>, before: seq<BatchState>, after: seq<BatchState>,
                                     ext: seq<real>, rows: seq<seq<int>>, length: nat, finish: seq<bool>, flats: Flats)
    requires |start| == |first| == |flats.scores| == sh.batches * sh.beams && AllScored(sh, start, log, before)
    requires AllRaised(ext, t.logprobs, flats.scores, sh.vocab) && AllRowed(first, log, rows)
    requires forall i | 0 <= i < |rows| :: |rows[i]| == length
    requires AllAdvanced(sh, before, after, ext, rows, length, finish)
    requires Flattened(sh, before, flats.scores, flats.parents, flats.tokens)
    requires TextsFollow(sh, start, first, log, was, before)
    ensures TextsFollow(sh, start, first, log + [t], was, after)
  {
    hide AllRaised, Advanced, BatchScored, FlatBatch, BatchTexts, AllRowed;
    forall b | 0 <= b < sh.batches
      ensures BatchTexts(sh, start, first, log + [t], was[b].texts, after[b].texts, b)
    {
      assert FlatBatch(sh, before[b], b, flats.scores, flats.parents, flats.tokens);
      BatchTextsFollow(sh, start, first, log, t, was[b].texts, before[b], after[b], ext, rows, length, finish[b], flats,
                       b);
    }
  }

  lemma {:induction false} StartTexts(sh: Shape, start: seq<real>, first: seq<seq<int>>, states: seq<BatchState>)
    requires |states| == sh.batches
    ensures TextsFollow(sh, start, first, [], states, states)
  {}

  lemma {:induction false} RowLengths(s: BeamSearch)
    requires s.Valid()
    ensures forall i | 0 <= i < |s.Rows()| :: |s.Rows()[i]| == s.sequences.length
    ensures |s.States()| == s.scorer.batches
  {
    s.Sizes();
    hide FlatRow, Tri, Bound, BeamSearchScorer.BatchValid;
  }

  // ----- whole runs

  /** The scorer's arrays are its states' slots. */
  lemma {:induction false} FlatStates(s: BeamSearch)
    requires s.Valid()
    ensures Flattened(ShapeOf(s.scorer, s.vocab), s.States(), s.scorer.scores[..], s.scorer.parents[..],
            s.scorer.tokens[..])
  {
    hide SlotsFrom, Read, Tri, Bound;
    var sh := ShapeOf(s.scorer, s.vocab);
    forall b | 0 <= b < sh.batches
      ensures FlatBatch(sh, s.States()[b], b, s.scorer.scores[..], s.scorer.parents[..], s.scorer.tokens[..])
    {
      RowInside(b, sh.batches, sh.beams);
    }
  }

  /** At the start every slot holds its starting score. */
  lemma {:induction false} StartScored(sh: Shape, states: seq<BatchState>, f: Flats)
    requires Flattened(sh, states, f.scores, f.parents, f.tokens)
    ensures AllScored(sh, f.scores, [], states)
  {
    hide FlatBatch;
    forall b | 0 <= b < sh.batches && !states[b].done ensures BatchScored(sh, f.scores, [], states[b], b) {
      assert FlatBatch(sh, states[b], b, f.scores, f.parents, f.tokens);
      forall i | 0 <= i < sh.beams ensures |states[b].slots| == sh.beams
          && Scored(f.scores, [], sh.vocab, states[b].slots[i], b * sh.beams + i) {
        FlatSlot(sh, states[b], b, f.scores, f.parents, f.tokens, i);
      }
      NumberOfSlots(sh, states[b], b, f);
    }
  }

  lemma {:induction false} NumberOfSlots(sh: Shape, st: BatchState, b: nat, f: Flats)
    requires FlatBatch(sh, st, b, f.scores, f.parents, f.tokens)
    ensures |st.slots| == sh.beams
  {}

  lemma {:induction false} StartRowed(rows: seq<seq<int>>)
    ensures AllRowed(rows, [], rows)
  {}

  /** Runs a search from wherever it stands, one input after another, up to the maximal length. Every row is its
      first ancestor's row plus the tokens along its path, and with at most one EOS id every open beam's score is
      its first ancestor's score plus the log-probabilities along its path; and every text that came to be finished
      is such a row, with that score and the EOS id's log-probability normalized by its length. */
  method RunSteps(s: BeamSearch, inputs: seq<seq<real>>) returns (done: nat, ghost log: seq<Taken>)
    requires s.Valid() && 2 * s.scorer.beams <= s.scorer.beams * s.vocab
    requires forall n | 0 <= n < |inputs| ::
               |inputs[n]| == s.scorer.parents.Length * s.vocab
    modifies s, s.idx, s.scorer, s.scorer.buffer, s.scorer.scores, s.scorer.tokens, s.scorer.parents, s.scorer.Lists(),
             s.sequences,
             s.sequences.current, s.sequences.next
    ensures s.Valid() && done <= |inputs| && |log| == done
    ensures done < |inputs| ==> s.sequences.length == s.sequences.maxLength
    ensures forall n | 0 <= n < done :: log[n].logprobs == inputs[n]
    ensures s.sequences.length == old(s.sequences.length) + done
    ensures AllRowed(old(s.Rows()), log, s.Rows())
    ensures OneEos(s.scorer.eos, s.vocab) ==>
              AllScored(ShapeOf(s.scorer, s.vocab), old(s.scorer.scores[..]), log, s.States())
    ensures OneEos(s.scorer.eos, s.vocab) ==>
              TextsFollow(ShapeOf(s.scorer, s.vocab), old(s.scorer.scores[..]), old(s.Rows()), log, old(s.States()),
                          s.States())
  {
    hide *;
    ghost var sh, start, first := ShapeOf(s.scorer, s.vocab), s.scorer.scores[..], s.Rows();
    done, log := 0, [];
    SizesOf(s);
    FlatStates(s);
    StartScored(sh, s.States(), Flats(s.scorer.scores[..], s.scorer.parents[..], s.scorer.tokens[..]));
    StartRowed(first);
    RowLengths(s);
    ghost var was := s.States();
    StartTexts(sh, start, first, was);
    ghost var a, b := s.sequences.current, s.sequences.next;
    while done < |inputs| && s.sequences.length < s.sequences.maxLength
      modifies s, s.idx, s.scorer, s.scorer.buffer, s.scorer.scores, s.scorer.tokens, s.scorer.parents,
               s.scorer.Lists(), s.sequences, a, b
      invariant s.Valid() && done <= |inputs| && |log| == done && s.sequences.length == old(s.sequences.length) + done
      invariant (s.sequences.current == a && s.sequences.next == b)
                || (s.sequences.current == b && s.sequences.next == a)
      invariant forall n | 0 <= n < done :: log[n].logprobs == inputs[n]
      invariant AllRowed(first, log, s.Rows())
      invariant OneEos(sh.eos, sh.vocab) ==> AllScored(sh, start, log, s.States())
      invariant OneEos(sh.eos, sh.vocab) ==> TextsFollow(sh, start, first, log, was, s.States())
    {
      ghost var t;
      t := OneStep(s, inputs[done], sh, start, first, log, was);
      log := log + [t];
      done := done + 1;
    }
    SizesOf(s);
  }

  method OneStep(s: BeamSearch, input: seq<real>, ghost sh: Shape, ghost start: seq<real>, ghost first: seq<seq<int>>,
                 ghost log: seq<Taken>, ghost was: seq<BatchState>)
    returns (ghost t: Taken)
    requires s.Valid() && 2 * s.scorer.beams <= s.scorer.beams * s.vocab && s.sequences.length < s.sequences.maxLength
    requires |input| == s.scorer.parents.Length * s.vocab
    requires sh == ShapeOf(s.scorer, s.vocab) && |start| == |first| == s.scorer.parents.Length
    requires AllRowed(first, log, s.Rows()) && (OneEos(sh.eos, sh.vocab) ==> AllScored(sh, start, log, s.States()))
    requires OneEos(sh.eos, sh.vocab) ==> TextsFollow(sh, start, first, log, was, s.States())
    modifies s.idx, s.scorer, s.scorer.buffer, s.scorer.scores, s.scorer.tokens, s.scorer.parents, s.scorer.Lists(),
             s.sequences, s.sequences.next
    ensures s.Valid() && s.sequences.length == old(s.sequences.length) + 1
    ensures s.sequences.current == old(s.sequences.next) && s.sequences.next == old(s.sequences.current)
    ensures t.logprobs == input && AllRowed(first, log + [t], s.Rows())
    ensures OneEos(sh.eos, sh.vocab) ==> AllScored(sh, start, log + [t], s.States())
    ensures OneEos(sh.eos, sh.vocab) ==> TextsFollow(sh, start, first, log + [t], was, s.States())
  {
    hide *;
    ghost var before, rows, length := s.States(), s.Rows(), s.sequences.length;
    ghost var flats := Flats(s.scorer.scores[..], s.scorer.parents[..], s.scorer.tokens[..]);
    FlatStates(s);
    RowLengths(s);
    ghost var ext, finish;
    ext, finish := Select(s, input);
    ghost var flats' := Flats(s.scorer.scores[..], s.scorer.parents[..], s.scorer.tokens[..]);
    t := Taken(input, flats'.parents, flats'.tokens);
    RowsFollow(first, start, log, t, rows, s.Rows());
    FlatStates(s);
    RowedLogged(first, log, rows);
    SizesOf(s);
    if OneEos(sh.eos, sh.vocab) {
      StepFollows(sh, start, first, log, t, before, s.States(), ext, rows, length, finish, flats, flats');
      StepTexts(sh, start, first, log, t, was, before, s.States(), ext, rows, length, finish, flats);
    }
  }

  lemma {:induction false} RowedLogged(first: seq<seq<int>>, log: seq<Taken>, rows: seq<seq<int>>)
    requires AllRowed(first, log, rows)
    ensures Logged(log, |first|)
  {}

  lemma {:induction false} SizesOf(s: BeamSearch)
    requires s.Valid()
    ensures s.scorer.parents.Length == s.scorer.scores.Length == s.scorer.batches * s.scorer.beams == |s.Rows()|
    ensures s.sequences.length <= s.sequences.maxLength
    ensures var sh := ShapeOf(s.scorer, s.vocab);
            sh.batches == s.scorer.batches && sh.beams == s.scorer.beams && sh.eos == s.scorer.eos
              && sh.vocab == s.vocab
  {
    s.Sizes();
  }

  /** A step over a copy of the log-probabilities. */
  method Select(s: BeamSearch, input: seq<real>) returns (ghost ext: seq<real>, ghost finish: seq<bool>)
    requires s.Valid() && 2 * s.scorer.beams <= s.scorer.beams * s.vocab && s.sequences.length < s.sequences.maxLength
    requires |input| == s.scorer.parents.Length * s.vocab
    modifies s.idx, s.scorer, s.scorer.buffer, s.scorer.scores, s.scorer.tokens, s.scorer.parents, s.scorer.Lists(),
             s.sequences, s.sequences.next
    ensures s.Valid() && s.sequences.length == old(s.sequences.length) + 1
    ensures s.sequences.current == old(s.sequences.next) && s.sequences.next == old(s.sequences.current)
    ensures AllRaised(ext, input, old(s.scorer.scores[..]), s.vocab)
    ensures AllAdvanced(ShapeOf(s.scorer, s.vocab), old(s.States()), s.States(), ext, old(s.Rows()),
            old(s.sequences.length), finish)
    ensures Appended(old(s.Rows()), s.Rows(), s.scorer.parents[..], s.scorer.tokens[..])
  {
    hide AllRaised, AllAdvanced, Appended, AllRows, Bound, Tri, BeamSearchScorer.BatchValid;
    var next := new real[|input|](i requires 0 <= i < |input| => input[i]);
    assert next[..] == input;
    assert s.States() == old(s.States()) && s.Rows() == old(s.Rows());
    var ok, closed, _ := s.SelectTop(next);
    ext, finish := next[..], closed;
  }
}
