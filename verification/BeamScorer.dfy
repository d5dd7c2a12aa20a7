/**
 The beam scorer: per batch entry it keeps num_beams open beams and a bounded list of finished
 hypotheses, whose tokens are cloned into one append-only buffer.
 */
module BeamScorer {
  import opened Arithmetic
  import opened Common
  import opened Pigeonhole
  import opened BeamHypotheses
  import opened FlatRows
  import opened BeamTop
  import opened BeamSequences

  // ----- values

  /** An open beam: its score, the token it adds and the row it extends. */
  datatype Slot = Slot(score: real, token: int, parent: nat)

  /** A finished hypothesis as a reader of the buffer sees it. */
  datatype Text = Text(tokens: seq<int>, score: real)

  ghost predicate Within(added: seq<Hypothesis>, n: nat) {
    forall i | 0 <= i < |added| :: Inside(added[i], n)
  }

  ghost predicate Inside(h: Hypothesis, n: nat) {
    h.start + h.length <= n
  }

  ghost function TextOf(buffer: seq<int>, h: Hypothesis): Text
    requires Inside(h, |buffer|)
  {
    Text(buffer[h.start..h.start + h.length], h.score)
  }

  ghost function Read(buffer: seq<int>, added: seq<Hypothesis>): (r: seq<Text>)
    requires Within(added, |buffer|)
    ensures |r| == |added|
  {
    if added == [] then [] else
      assert Inside(added[|added| - 1], |buffer|);
      Read(buffer, added[..|added| - 1]) + [TextOf(buffer, added[|added| - 1])]
  }

  lemma {:induction false} ReadAt(buffer: seq<int>, added: seq<Hypothesis>, i: nat)
    requires Within(added, |buffer|) && i < |added|
    ensures Inside(added[i], |buffer|) && Read(buffer, added)[i] == TextOf(buffer, added[i])
  {
    if i < |added| - 1 { ReadAt(buffer, added[..|added| - 1], i); }
  }

  /** Appending to the buffer changes no text already in it. */
  lemma {:induction false} ReadExtends(buffer: seq<int>, more: seq<int>, added: seq<Hypothesis>)
    requires Within(added, |buffer|)
    ensures Within(added, |buffer + more|) && Read(buffer + more, added) == Read(buffer, added)
  {
    if added != [] {
      var n := |added| - 1;
      var h := added[n];
      assert Inside(h, |buffer|);
      assert (buffer + more)[h.start..h.start + h.length] == buffer[h.start..h.start + h.length];
      ReadExtends(buffer, more, added[..n]);
    }
  }

  lemma {:induction false} ReadAppend(buffer: seq<int>, row: seq<int>, added: seq<Hypothesis>, score: real)
    requires Within(added, |buffer|)
    ensures var h := Hypothesis(|buffer|, |row|, score);
            Within(added + [h], |buffer + row|) && Read(buffer + row, added + [h]) ==
              Read(buffer, added) + [Text(row, score)]
  {
    var h := Hypothesis(|buffer|, |row|, score);
    assert (added + [h])[..|added|] == added;
    assert (buffer + row)[h.start..h.start + h.length] == row;
    ReadExtends(buffer, row, added);
    assert forall i | 0 <= i < |added| :: Inside(added[i], |buffer|) ==> Inside(added[i], |buffer + row|);
  }

  /** What one batch entry is offered in a step: the rows so far, where its own rows begin, its candidates
      with parents counted from there, and how a score is normalized at this length. */
  datatype Offer = Offer(rows: seq<seq<int>>, base: nat, scores: seq<real>, tokens: seq<int>, parents: seq<nat>,
    length: nat, normalize: (real, nat) -> real)
  {
    ghost predicate Shaped(beams: nat) {
      && |scores| == |tokens| == |parents| == 2 * beams
      && forall j | 0 <= j < |parents| :: base + parents[j] < |rows|
    }

    ghost function TextAt(j: nat): Text
      requires j < |scores| == |parents| && base + parents[j] < |rows|
    {
      Text(rows[base + parents[j]], normalize(scores[j], length))
    }

    ghost function SlotAt(j: nat): Slot
      requires j < |scores| && |scores| == |tokens| == |parents|
    {
      Slot(scores[j], tokens[j], base + parents[j])
    }
  }

  /** The texts that ended candidates add: the row each one extends, with its normalized score. */
  ghost function EndedTexts(o: Offer, beams: nat, at: seq<nat>): (r: seq<Text>)
    requires o.Shaped(beams) && Below(at, 2 * beams)
    ensures |r| == |at|
  {
    if at == [] then [] else EndedTexts(o, beams, at[..|at| - 1]) + [o.TextAt(at[|at| - 1])]
  }

  // ----- when an entry is closed

  /** Which texts score at least x. */
  ghost function BetterTexts(texts: seq<Text>, x: real): set<nat> {
    set i: nat | i < |texts| && texts[i].score >= x
  }

  /** A full list closes its entry at once, or when nothing of score x could get into it. */
  ghost predicate Settles(early: bool, texts: seq<Text>, beams: nat, x: real) {
    early || beams <= |BetterTexts(texts, x)|
  }

  lemma {:induction false} ReadScores(buffer: seq<int>, added: seq<Hypothesis>, x: real)
    requires Within(added, |buffer|)
    ensures BetterTexts(Read(buffer, added), x) == Better(added, x)
  {
    hide Read, Inside;
    forall i: nat | i < |added| ensures Read(buffer, added)[i].score == added[i].score { ReadAt(buffer, added, i); }
  }

  /** The largest of n scores. */
  function MaxOf(s: seq<real>, from: nat, n: nat): real
    requires 0 < n && from + n <= |s|
  {
    if n == 1 then s[from]
    else
      var m := MaxOf(s, from, n - 1);
      if m < s[from + n - 1] then s[from + n - 1] else m
  }

  lemma {:induction false} MaxOfIs(s: seq<real>, from: nat, n: nat)
    requires 0 < n && from + n <= |s|
    ensures forall i | from <= i < from + n :: s[i] <= MaxOf(s, from, n)
    ensures exists i :: from <= i < from + n && s[i] == MaxOf(s, from, n)
  {
    if 1 < n { MaxOfIs(s, from, n - 1); } else { assert s[from] == MaxOf(s, from, n); }
  }

  method BestOf(s: seq<real>, from: nat, n: nat) returns (best: real)
    requires 0 < n && from + n <= |s|
    ensures best == MaxOf(s, from, n)
  {
    best := s[from];
    for i := 1 to n
      invariant best == MaxOf(s, from, i)
    {
      if best < s[from + i] { best := s[from + i]; }
    }
  }

  /** The scores that are looked at lie inside the candidates of all entries. */
  lemma {:induction false} SliceInside(b: nat, batches: nat, beams: nat)
    requires b < batches
    ensures b * beams + 2 * beams <= batches * (2 * beams)
  {
    RowInside(b, batches, beams);
    MulLe(1, batches, beams);
    assert batches * (2 * beams) == batches * beams + batches * beams;
  }

  // ----- how much buffer a run can use

  /** 0 + 1 + ... + (n - 1). */
  function Tri(n: nat): nat {
    if n == 0 then 0 else Tri(n - 1) + n - 1
  }

  lemma {:induction false} TriClosed(n: nat)
    ensures Tri(n + 1) == n * (n + 1) / 2
  {
    if 0 < n {
      TriClosed(n - 1);
      assert n * (n + 1) == (n - 1) * n + 2 * n;
      assert (n - 1) * n % 2 == 0 by { Even(n - 1); }
    }
  }

  lemma {:induction false} Even(n: nat)
    ensures n * (n + 1) % 2 == 0
  {
    if n % 2 == 0 {
      assert n == 2 * (n / 2);
      assert n * (n + 1) == 2 * ((n / 2) * (n + 1));
    } else {
      assert n + 1 == 2 * ((n + 1) / 2);
      assert n * (n + 1) == 2 * (n * ((n + 1) / 2));
    }
  }

  lemma {:induction false} TriMonotone(m: nat, n: nat)
    requires m <= n
    ensures Tri(m) <= Tri(n)
  {
    if m < n { TriMonotone(m, n - 1); }
  }

  /** Room for a step at this length: what is used now plus one clone per beam stays below the next bound. */
  lemma {:induction false} StepFits(beams: nat, from: nat, length: nat, maxLength: nat, used: nat)
    requires from <= length <= maxLength && used <= beams * Tri(from)
    ensures used + beams * length <= beams * Tri(length + 1) <= beams * Tri(maxLength + 1)
  {
    TriMonotone(from, length);
    TriMonotone(length + 1, maxLength + 1);
    Room(beams, Tri(from), Tri(length), length, Tri(maxLength + 1), used);
  }

  lemma {:induction false} Room(beams: nat, before: nat, now: nat, length: nat, bound: nat, used: nat)
    requires before <= now && now + length <= bound && used <= beams * before
    ensures used + beams * length <= beams * (now + length) <= beams * bound
  {
    MulLe(before, now, beams);
    MulLe(now + length, bound, beams);
    Products(now, length, beams);
  }

  // ----- one batch entry of a step

  /** What the scorer holds for one batch entry. */
  datatype BatchState = BatchState(done: bool, used: nat, texts: seq<Text>, slots: seq<Slot>)

  ghost function Padded(s: BatchState, pad: int): BatchState {
    s.(slots := Repeat(Slot(0.0, pad, 0), |s.slots|))
  }

  /** The first open slots come from the candidates that continue, in order; a slot no candidate reaches
      keeps its old content. */
  ghost predicate SlotsFilled(o: Offer, beams: nat, before: seq<Slot>, after: seq<Slot>, live: seq<nat>)
    requires o.Shaped(beams) && Below(live, 2 * beams)
  {
    && |after| == |before|
    && forall i | 0 <= i < |after| :: after[i] == if i < |live| then o.SlotAt(live[i]) else before[i]
  }

  ghost function SlotsFrom(scores: seq<real>, tokens: seq<int>, parents: seq<nat>, base: nat, n: nat): (r: seq<Slot>)
    requires |scores| == |tokens| == |parents| && base + n <= |scores|
    ensures |r| == n && forall i | 0 <= i < n :: r[i] == Slot(scores[base + i], tokens[base + i], parents[base + i])
  {
    if n == 0 then [] else
      SlotsFrom(scores, tokens, parents, base, n - 1)
      + [Slot(scores[base + n - 1], tokens[base + n - 1], parents[base + n - 1])]
  }

  class BeamSearchScorer {
    const batches: nat
    const beams: nat
    const maxLength: nat
    const pad: int
    const eos: seq<int>
    const normalize: (real, nat) -> real
    const early: bool
    /** The open beams, batch * beams + i. */
    const scores: array<real>
    const tokens: array<int>
    const parents: array<nat>
    /** The clones of finished rows, one after another. */
    const buffer: array<int>
    var used: nat
    const hyps: seq<HypothesisList>
    /** One more than the last length processed. */
    ghost var nextLength: nat

    ghost function Lists(): set<object> {
      (set b | 0 <= b < |hyps| :: hyps[b]) + (set b | 0 <= b < |hyps| :: hyps[b].beams)
    }

    ghost predicate Shape() {
      && 0 < beams
      && scores.Length == tokens.Length == parents.Length == batches * beams
      && buffer.Length == batches * beams * Tri(maxLength + 1)
      && buffer != tokens
      && |hyps| == batches
      && (forall b | 0 <= b < |hyps| :: hyps[b].beams.Length == beams && hyps[b].normalize == normalize)
      && (forall b, c | 0 <= b < c < |hyps| :: hyps[b] != hyps[c] && hyps[b].beams != hyps[c].beams)
    }

    ghost predicate BatchValid(b: nat)
      requires b < |hyps|
      reads this`used, hyps[b], hyps[b].beams
    {
      && hyps[b].Valid()
      && Within(hyps[b].added, used)
      && (hyps[b].done ==> hyps[b].used == beams)
    }

    ghost predicate Valid()
      reads this`used, parents, Lists()
    {
      && Shape()
      && used <= buffer.Length
      && (forall b | 0 <= b < batches :: BatchValid(b))
      && (forall i | 0 <= i < parents.Length :: parents[i] < parents.Length)
    }

    /** Everything ever finished in batch entry b, as read back from the buffer. */
    ghost function Texts(b: nat): (r: seq<Text>)
      requires b < |hyps| && used <= buffer.Length && Within(hyps[b].added, used)
      reads this`used, buffer, hyps[b]
    {
      Read(buffer[..used], hyps[b].added)
    }

    ghost function Slots(b: nat): (r: seq<Slot>)
      requires Shape() && b < batches
      reads scores, tokens, parents
      ensures |r| == beams
    {
      RowInside(b, batches, beams);
      SlotsFrom(scores[..], tokens[..], parents[..], b * beams, beams)
    }

    ghost function State(b: nat): BatchState
      requires Valid() && b < batches
      reads this`used, scores, tokens, parents, buffer, Lists()
    {
      assert BatchValid(b);
      BatchState(hyps[b].done, hyps[b].used, Texts(b), Slots(b))
    }

    /** Nothing finished, nothing done, and only the first beam of every batch entry can win the first step. */
    constructor (batches: nat, beams: nat, maxLength: nat, pad: int, eos: seq<int>, normalize: (real, nat) -> real,
      early: bool)
      requires 0 < beams
      ensures Valid() && Sized() && nextLength == 0
      ensures this.batches == batches && this.beams == beams && this.maxLength == maxLength
      ensures this.pad == pad && this.eos == eos && this.normalize == normalize && this.early == early
      ensures forall i | 0 <= i < scores.Length :: scores[i] == if i % beams == 0 then 0.0 else -1000000000.0
      ensures forall b | 0 <= b < batches :: !State(b).done && State(b).used == 0 && State(b).texts == []
      ensures fresh(scores) && fresh(tokens) && fresh(parents) && fresh(buffer) && fresh(Lists())
    {
      hide Tri, SlotsFrom, Ranked;
      this.batches, this.beams, this.maxLength := batches, beams, maxLength;
      this.pad, this.eos, this.normalize, this.early := pad, eos, normalize, early;
      var rows := batches * beams;
      scores := new real[rows](i => if i % beams == 0 then 0.0 else -1000000000.0);
      tokens := new int[rows](_ => 0);
      parents := new nat[rows](_ => 0);
      TriClosed(maxLength);
      buffer := new int[rows * (maxLength * (maxLength + 1) / 2)](_ => 0);
      var lists := MakeLists(batches, beams, normalize);
      hyps := lists;
      used := 0;
      nextLength := 0;
      new;
      forall b | 0 <= b < batches ensures BatchValid(b) && Texts(b) == [] { assert hyps[b].added == []; }
      ZeroBound(parents.Length);
      assert forall i | 0 <= i < parents.Length :: parents[i] == 0;
    }

    static method MakeLists(n: nat, beams: nat, normalize: (real, nat) -> real) returns (lists: seq<HypothesisList>)
      ensures |lists| == n
      ensures forall b | 0 <= b < n :: fresh(lists[b]) && fresh(lists[b].beams) && MadeEmpty(lists[b], beams, normalize)
      ensures forall b, c | 0 <= b < c < n :: lists[b] != lists[c] && lists[b].beams != lists[c].beams
    {
      lists := [];
      for i := 0 to n
        invariant |lists| == i
        invariant forall b | 0 <= b < i ::
                    fresh(lists[b]) && fresh(lists[b].beams) && MadeEmpty(lists[b], beams, normalize)
        invariant forall b, c | 0 <= b < c < i :: lists[b] != lists[c] && lists[b].beams != lists[c].beams
      {
        var list := new HypothesisList(beams, normalize);
        lists := lists + [list];
      }
    }

    static ghost predicate MadeEmpty(list: HypothesisList, beams: nat, normalize: (real, nat) -> real)
      reads list, list.beams
    {
      list.Valid() && list.beams.Length == beams && list.normalize == normalize && list.added == [] && !list.done
        && list.used == 0
    }

    /** Clones a row to the end of the buffer and adds it to the finished list of a batch entry. */
    method Finish(b: nat, sequences: Sequences, row: nat, score: real)
      requires Valid() && b < batches && sequences.Valid() && row < sequences.rows && sequences.current != buffer
      requires used + sequences.length <= buffer.Length
      modifies this`used, buffer, hyps[b], hyps[b].beams
      ensures Valid() && used == old(used) + sequences.length
      ensures State(b) == Finished(old(State(b)), sequences.Row(row), normalize(score, sequences.length), beams)
      ensures forall c | 0 <= c < batches && c != b :: State(c) == old(State(c))
    {
      hide Tri, Read, FlatRow, HypothesisList.Valid, Ranked, Inside, SlotsFrom;
      assert BatchValid(b);
      var start := used;
      var length := sequences.length;
      ghost var text, row' := buffer[..start], sequences.Row(row);
      sequences.CopyRow(row, buffer, start);
      used := used + length;
      assert buffer[..used] == text + row';
      hyps[b].Add(start, length, score);
      forall c | 0 <= c < batches ensures BatchValid(c) {
        assert old(BatchValid(c));
        WithinGrows(old(hyps[c].added), start, length, normalize(score, length));
      }
      assert text == old(buffer[..used]);
      ReadAppend(text, row', old(hyps[b].added), normalize(score, length));
      forall c | 0 <= c < batches && c != b ensures State(c) == old(State(c)) {
        assert old(BatchValid(c));
        ReadExtends(text, row', hyps[c].added);
      }
    }

    /** Sets the i-th open beam of a batch entry. */
    method Open(b: nat, i: nat, score: real, token: int, parent: nat)
      requires Valid() && b < batches && i < beams && parent < parents.Length
      modifies scores, tokens, parents
      ensures Valid()
      ensures State(b) == old(State(b)).(slots := old(State(b)).slots[i := Slot(score, token, parent)])
      ensures forall c | 0 <= c < batches && c != b :: State(c) == old(State(c))
    {
      hide Tri, Read, HypothesisList.Valid, Ranked, Within, SlotsFrom;
      RowInside(b, batches, beams);
      var at := b * beams + i;
      ghost var sc, tk, pr := scores[..], tokens[..], parents[..];
      scores[at] := score;
      tokens[at] := token;
      parents[at] := parent;
      assert scores[..] == sc[at := score] && tokens[..] == tk[at := token] && parents[..] == pr[at := parent];
      forall c | 0 <= c < batches ensures BatchValid(c) { assert old(BatchValid(c)); }
      SlotWritten(sc, tk, pr, b * beams, beams, at, Slot(score, token, parent));
      forall c | 0 <= c < batches && c != b ensures State(c) == old(State(c)) {
        assert old(BatchValid(c));
        SlotElsewhere(sc, tk, pr, batches, beams, b, c, at, Slot(score, token, parent));
      }
    }

    lemma {:induction false} InLists(b: nat)
      requires Valid() && b < batches
      ensures hyps[b] in Lists() && hyps[b].beams in Lists() && State(b).done == hyps[b].done
    {}

    lemma {:induction false} Apart(sequences: Sequences)
      ensures sequences !in Lists() && sequences.current !in Lists() && this !in Lists()
      ensures buffer !in Lists() && scores !in Lists() && tokens !in Lists() && parents !in Lists()
    {}

    lemma {:induction false} RoomForStep(length: nat)
      requires Valid() && Sized() && nextLength <= length <= maxLength
      ensures used + Spent(batches, beams, length) <= Bound(parents.Length, length + 1) <= buffer.Length
      ensures Spent(0, beams, length) == 0
    {
      assert batches * (beams * length) == parents.Length * length;
      StepFits(parents.Length, nextLength, length, maxLength, used);
    }

    /** The offer of this step to batch entry b. */
    ghost function OfferOf(b: nat, rows: seq<seq<int>>, s: seq<real>, t: seq<int>, p: seq<nat>, length: nat): (o: Offer)
      ensures o.rows == rows && o.scores == s && o.tokens == t && o.parents == p && o.length == length
    {
      Offer(rows, b * beams, s, t, p, length, normalize)
    }

    lemma {:induction false} ShapeOf()
      requires Valid()
      ensures |hyps| == batches && scores.Length == tokens.Length == parents.Length
    {}

    lemma {:induction false} BatchBegins(b: nat, o: Offer)
      requires Valid() && b < batches && |o.rows| == parents.Length && Below(o.parents, beams)
      requires |o.scores| == |o.tokens| == |o.parents| == 2 * beams
      requires o == OfferOf(b, o.rows, o.scores, o.tokens, o.parents, o.length)
      ensures o.Shaped(beams) && o.normalize == normalize && o.base == b * beams && o.base + beams <= parents.Length
      ensures Partly(o, beams, State(b), State(b), Live(o.tokens, eos, 0), Ended(o.tokens, eos, Capped(0, beams)))
      ensures Live(o.tokens, eos, 0) == [] && Capped(0, beams) * o.length == 0
    {
      hide Partly, Live, Ended;
      assert BatchValid(b);
      OfferShaped(o, b, batches, beams);
      StepBegins(o, beams, eos, State(b), o.length);
      RowInside(b, batches, beams);
    }

    /** One candidate: finished when it ends its sequence within the first beams ones, opened when it continues. */
    method Consider(b: nat, sequences: Sequences, ghost o: Offer, ghost before: BatchState, s: real, t: int, row: nat,
                    j: nat, count: nat) returns (count': nat)
      requires Valid() && b < batches && o.Shaped(beams)
      requires sequences.Valid() && sequences.rows == parents.Length && sequences.current != buffer
               && sequences.current != tokens
      requires o.rows == sequences.Rows() && o.length == sequences.length && o.normalize == normalize
      requires j < 2 * beams && o.scores[j] == s && o.tokens[j] == t && o.base + o.parents[j] == row < parents.Length
      requires count == |Live(o.tokens, eos, j)| < beams
      requires j < beams ==> used + sequences.length <= buffer.Length
      requires Partly(o, beams, before, State(b), Live(o.tokens, eos, j), Ended(o.tokens, eos, Capped(j, beams)))
      modifies this`used, buffer, scores, tokens, parents, hyps[b], hyps[b].beams
      ensures Valid()
      ensures used == old(used) + if j < beams && t in eos then sequences.length else 0
      ensures Partly(o, beams, before, State(b), Live(o.tokens, eos, j + 1), Ended(o.tokens, eos, Capped(j + 1, beams)))
      ensures count' == |Live(o.tokens, eos, j + 1)| <= beams
      ensures forall c | 0 <= c < batches && c != b :: State(c) == old(State(c))
    {
      hide *;
      ShapeOf();
      OfferMeans(o, beams, sequences, j, row);
      NextCandidate(o.tokens, eos, j, beams);
      ghost var now := State(b);
      count' := count;
      if t in eos {
        if j < beams {
          StepEnds(o, beams, before, now, Live(o.tokens, eos, j), Ended(o.tokens, eos, j), j);
          Finish(b, sequences, row, s);
        }
      } else {
        StepOpens(o, beams, before, now, Live(o.tokens, eos, j), Ended(o.tokens, eos, Capped(j, beams)), j);
        Open(b, count, s, t, row);
        count' := count + 1;
      }
    }

    /** What decides whether the full list of entry b closes it: the best of the scores from place b * beams on. */
    ghost predicate Decided(b: nat, flat: seq<real>, after: BatchState, length: nat, finish: bool)
      requires b < batches && 0 < beams && |flat| == batches * (2 * beams)
    {
      SliceInside(b, batches, beams);
      finish == Settles(early, after.texts, beams, normalize(MaxOf(flat, b * beams, 2 * beams), length))
    }

    /** One step of a batch entry that is not done. */
    method ProcessBatch(b: nat, sequences: Sequences, s: seq<real>, t: seq<int>, p: seq<nat>, flat: seq<real>)
      returns (ghost finish: bool)
      requires Valid() && b < batches && !hyps[b].done
      requires sequences.Valid() && sequences.rows == parents.Length && sequences.current != buffer
               && sequences.current != tokens
      requires |s| == |t| == |p| == 2 * beams && Below(p, beams) && |flat| == batches * (2 * beams)
      requires used + beams * sequences.length <= buffer.Length
      modifies this`used, buffer, scores, tokens, parents, hyps[b], hyps[b].beams
      ensures Valid() && used <= old(used) + beams * sequences.length
      ensures OfferOf(b, sequences.Rows(), s, t, p, sequences.length).Shaped(beams)
      ensures Stepped(OfferOf(b, sequences.Rows(), s, t, p, sequences.length), beams, eos, old(State(b)), State(b),
              finish)
      ensures 0 < beams && Decided(b, flat, State(b), sequences.length, finish)
      ensures forall c | 0 <= c < batches && c != b :: State(c) == old(State(c))
    {
      hide *;
      ShapeOf();
      ghost var before := State(b);
      ghost var o := OfferOf(b, sequences.Rows(), s, t, p, sequences.length);
      BatchBegins(b, o);
      var base := b * beams;
      ghost var start := used;
      var count, j := 0, 0;
      while j < 2 * beams && count < beams
        modifies this`used, buffer, scores, tokens, parents, hyps[b], hyps[b].beams
        invariant Valid() && j <= 2 * beams
        invariant Partly(o, beams, before, State(b), Live(t, eos, j), Ended(t, eos, Capped(j, beams)))
        invariant count == |Live(t, eos, j)| <= beams
        invariant used <= start + Capped(j, beams) * sequences.length
        invariant forall c | 0 <= c < batches && c != b :: State(c) == old(State(c))
      {
        CapStep(j, sequences.length, beams);
        assert p[j] < beams by { BelowAt(p, beams, j); }
        count := Consider(b, sequences, o, before, s[j], t[j], base + p[j], j, count);
        j := j + 1;
      }
      CapFull(t, eos, j, beams);
      ghost var now := State(b);
      finish := SetDone(b, flat, sequences.length);
      StepEndsAt(o, beams, eos, before, now, j, finish);
    }

    /** A full list closes its batch entry unless something could still get into it. */
    method SetDone(b: nat, flat: seq<real>, length: nat) returns (ghost finish: bool)
      requires Valid() && b < batches && |flat| == batches * (2 * beams)
      modifies hyps[b]
      ensures Valid() && used == old(used) && State(b) == old(State(b)).(done := old(State(b)).used == beams && finish)
      ensures 0 < beams && Decided(b, flat, State(b), length, finish)
      ensures forall c | 0 <= c < batches && c != b :: State(c) == old(State(c))
    {
      hide Tri, Read, Ranked, SlotsFrom, MaxOf, Better, BetterTexts, Inside;
      SliceInside(b, batches, beams);
      assert BatchValid(b);
      ghost var x := normalize(MaxOf(flat, b * beams, 2 * beams), length);
      finish := Settles(early, Texts(b), beams, x);
      var done := hyps[b].used == beams;
      if done && !early {
        var best := BestOf(flat, b * beams, 2 * beams);
        var improves := hyps[b].CanImprove(best, length);
        ReadScores(buffer[..used], hyps[b].added, x);
        done := !improves;
      }
      hyps[b].done := done;
      forall c | 0 <= c < batches ensures BatchValid(c) { assert old(BatchValid(c)); }
    }

    /** Buffer use after all steps below nextLength. */
    ghost predicate Sized()
      reads this
    {
      nextLength <= maxLength + 1 && used <= Bound(parents.Length, nextLength)
    }

    lemma {:induction false} IsSized()
      requires nextLength <= maxLength + 1 && used <= Bound(parents.Length, nextLength)
      ensures Sized()
    {}

    /** Fills the slots of a done batch entry. */
    method Pad(b: nat)
      requires Valid() && b < batches
      modifies scores, tokens, parents
      ensures Valid() && State(b) == Padded(old(State(b)), pad)
      ensures forall c | 0 <= c < batches && c != b :: State(c) == old(State(c))
    {
      hide *;
      ShapeOf();
      SomeRow(b);
      ghost var before := State(b);
      for i := 0 to beams
        invariant Valid()
        invariant State(b) == before.(slots := State(b).slots)
        invariant |State(b).slots| == beams && forall k | 0 <= k < i :: State(b).slots[k] == Slot(0.0, pad, 0)
        invariant forall c | 0 <= c < batches && c != b :: State(c) == old(State(c))
      {
        Open(b, i, 0.0, pad, 0);
      }
      PaddedIs(before, State(b).slots, pad);
    }

    lemma {:induction false} SomeRow(b: nat)
      requires Valid() && b < batches
      ensures 0 < parents.Length && b * beams + beams <= parents.Length && |State(b).slots| == beams
    {
      RowInside(b, batches, beams);
    }

    /** What a step does to every batch entry. */
    ghost predicate Processed(b: nat, before: BatchState, after: BatchState, rows: seq<seq<int>>, s: seq<real>,
                              t: seq<int>, p: seq<nat>, length: nat, finish: bool)
      requires b < batches && |s| == |t| == |p| == batches * (2 * beams)
    {
      var o := OfferOf(b, rows, Part(s, batches, 2 * beams, b), Part(t, batches, 2 * beams, b),
        Part(p, batches, 2 * beams, b), length);
      if before.done then after == Padded(before, pad)
      else
        && o.Shaped(beams) && Stepped(o, beams, eos, before, after, finish)
        && 0 < beams && Decided(b, s, after, length, finish)
    }

    method StepBatch(b: nat, sequences: Sequences, s: seq<real>, t: seq<int>, p: seq<nat>)
      returns (ghost finish: bool)
      requires Valid() && b < batches && used + beams * sequences.length <= buffer.Length
      requires sequences.Valid() && sequences.rows == parents.Length && sequences.current != buffer
               && sequences.current != tokens
      requires |s| == |t| == |p| == batches * (2 * beams) && Below(p, beams)
      modifies this`used, buffer, scores, tokens, parents, hyps[b], hyps[b].beams
      ensures Valid() && used <= old(used) + beams * sequences.length
      ensures Processed(b, old(State(b)), State(b), sequences.Rows(), s, t, p, sequences.length, finish)
      ensures forall c | 0 <= c < batches && c != b :: State(c) == old(State(c))
    {
      ShapeOf();
      InLists(b);
      PartBelow(p, batches, 2 * beams, b, beams);
      hide Valid, State, Shape, Stepped, Padded, AllRows, Part, Below, OfferOf, Decided;
      if hyps[b].done {
        Pad(b);
        finish := false;
      } else {
        finish := ProcessBatch(b, sequences, Part(s, batches, 2 * beams, b), Part(t, batches, 2 * beams, b),
          Part(p, batches, 2 * beams, b), s);
      }
    }

    /** One step over the candidates of all batch entries. */
    method Process(sequences: Sequences, s: seq<real>, t: seq<int>, p: seq<nat>) returns (ghost finish: seq<bool>)
      requires Valid() && Sized()
      requires sequences.Valid() && sequences.rows == parents.Length && sequences.current != buffer
               && sequences.current != tokens
      requires nextLength <= sequences.length < sequences.maxLength == maxLength
      requires |s| == |t| == |p| == batches * (2 * beams) && Below(p, beams)
      modifies this`used, this`nextLength, buffer, scores, tokens, parents, Lists()
      ensures Valid() && Sized() && nextLength == sequences.length + 1 && |finish| == batches
      ensures forall b | 0 <= b < batches ::
                Processed(b, old(State(b)), State(b), sequences.Rows(), s, t, p, sequences.length, finish[b])
    {
      hide *;
      ShapeOf();
      Apart(sequences);
      ghost var start, rows, length := used, sequences.Rows(), sequences.length;
      RoomForStep(length);
      finish := [];
      for b := 0 to batches
        modifies this`used, buffer, scores, tokens, parents, Lists()
        invariant Valid() && used <= start + Spent(b, beams, length)
        invariant sequences.Valid() && sequences.Rows() == rows
        invariant |finish| == b
        invariant forall c | 0 <= c < b :: Processed(c, old(State(c)), State(c), rows, s, t, p, length, finish[c])
        invariant forall c | b <= c < batches :: State(c) == old(State(c))
      {
        ShareFits(b, batches, beams, length);
        InLists(b);
        ghost var closes;
        closes := StepBatch(b, sequences, s, t, p);
        finish := finish + [closes];
      }
      nextLength := sequences.length + 1;
      IsSized();
    }

    /** Finishes every open beam of a batch entry. */
    method FinalizeBatch(b: nat, sequences: Sequences)
      requires Valid() && b < batches && used + beams * sequences.length <= buffer.Length
      requires sequences.Valid() && sequences.rows == parents.Length && sequences.current != buffer
               && sequences.current != tokens
      modifies this`used, buffer, hyps[b], hyps[b].beams
      ensures Valid() && used == old(used) + beams * sequences.length
      ensures b * beams + beams <= sequences.rows
      ensures State(b) == Finalized(old(State(b)), sequences.Rows(), b * beams, beams, sequences.length, normalize,
              beams)
      ensures forall c | 0 <= c < batches && c != b :: State(c) == old(State(c))
    {
      hide *;
      ShapeOf();
      SomeRow(b);
      var base := b * beams;
      ghost var start, rows, length, before := used, sequences.Rows(), sequences.length, State(b);
      FinalizedNone(before, rows, base, length, normalize, beams);
      for i := 0 to beams
        modifies this`used, buffer, hyps[b], hyps[b].beams
        invariant Valid() && used == start + Spent(i, 1, length)
        invariant State(b) == Finalized(before, rows, base, i, length, normalize, beams)
        invariant forall c | 0 <= c < batches && c != b :: State(c) == old(State(c))
      {
        ShareFits(i, beams, 1, length);
        SpentAll(beams, length);
        ScoreIs(b, i);
        FinalizedNext(before, rows, base, i, length, normalize, beams);
        RowIs(sequences, base + i);
        Finish(b, sequences, base + i, scores[base + i]);
      }
      SpentAll(beams, length);
    }

    lemma {:induction false} ScoreIs(b: nat, i: nat)
      requires Valid() && b < batches && i < beams
      ensures b * beams + i < scores.Length && |State(b).slots| == beams
              && State(b).slots[i].score == scores[b * beams + i]
    {
      RowInside(b, batches, beams);
    }

    /** Finishes the open beams of every batch entry that is not done: afterwards every finished list is full,
        and the buffer has had room for everything. */
    method Finalize(sequences: Sequences)
      requires Valid() && Sized()
      requires sequences.Valid() && sequences.rows == parents.Length && sequences.current != buffer
               && sequences.current != tokens
      requires nextLength <= sequences.length <= sequences.maxLength == maxLength
      modifies this`used, this`nextLength, buffer, Lists()
      ensures Valid() && Sized() && nextLength == sequences.length + 1
      ensures forall b | 0 <= b < batches :: Closed(b, old(State(b)), State(b), sequences.Rows(), sequences.length)
    {
      hide *;
      ShapeOf();
      Apart(sequences);
      ghost var start, rows, length := used, sequences.Rows(), sequences.length;
      RoomForStep(length);
      for b := 0 to batches
        modifies this`used, buffer, Lists()
        invariant Valid() && used <= start + Spent(b, beams, length)
        invariant sequences.Valid() && sequences.Rows() == rows
        invariant forall c | 0 <= c < b :: Closed(c, old(State(c)), State(c), rows, length)
        invariant forall c | b <= c < batches :: State(c) == old(State(c))
      {
        ShareFits(b, batches, beams, length);
        InLists(b);
        CloseBatch(b, sequences);
      }
      nextLength := sequences.length + 1;
      IsSized();
    }

    ghost predicate Closed(b: nat, before: BatchState, after: BatchState, rows: seq<seq<int>>, length: nat) {
      && after.used == beams
      && if before.done then after == before
         else |before.slots| == beams && b * beams + beams <= |rows|
              && after == Finalized(before, rows, b * beams, beams, length, normalize, beams)
    }

    method CloseBatch(b: nat, sequences: Sequences)
      requires Valid() && b < batches && used + beams * sequences.length <= buffer.Length
      requires sequences.Valid() && sequences.rows == parents.Length && sequences.current != buffer
               && sequences.current != tokens
      modifies this`used, buffer, hyps[b], hyps[b].beams
      ensures Valid() && used <= old(used) + beams * sequences.length
      ensures Closed(b, old(State(b)), State(b), sequences.Rows(), sequences.length)
      ensures forall c | 0 <= c < batches && c != b :: State(c) == old(State(c))
    {
      assert BatchValid(b);
      SomeRow(b);
      hide Valid, State, Finalized, AllRows;
      InLists(b);
      if !hyps[b].done {
        FinalizedUsed(State(b), sequences.Rows(), b * beams, beams, sequences.length, normalize, beams);
        FinalizeBatch(b, sequences);
      } else {
        DoneIsFull(b);
      }
    }

    lemma {:induction false} DoneIsFull(b: nat)
      requires Valid() && b < batches && hyps[b].done
      ensures State(b).done && State(b).used == beams
    {
      assert BatchValid(b);
    }

    /** The tokens of the i-th best hypothesis of a batch entry: those of the text that is i-th in the stable
        descending order of everything finished there. */
    method GetBeamHypothesis(b: nat, i: nat) returns (r: Option<seq<int>>, ghost order: seq<nat>)
      requires Valid() && b < batches && (i < beams ==> i < hyps[b].used)
      ensures r.None? <==> beams <= i
      ensures StableSort(Ranked(hyps[b].added), order, hyps[b].added)
      ensures r.Some? ==> i < |order| && order[i] < |State(b).texts| && r.value == State(b).texts[order[i]].tokens
    {
      order := RankedIsStableSort(hyps[b].added);
      hide Ranked, Insert, Tri, SlotsFrom, Read;
      assert BatchValid(b);
      if beams <= i { return None, order; }
      var list := hyps[b];
      assert list.beams[i] == list.beams[..list.used][i];
      var h := list.beams[i];
      ReadAt(buffer[..used], list.added, order[i]);
      r := Some(buffer[h.start..h.start + h.length]);
    }
  }

  /** A batch entry after its first n open beams are finished. */
  ghost function Finalized(s: BatchState, rows: seq<seq<int>>, base: nat, n: nat, length: nat,
                           normalize: (real, nat) -> real, beams: nat): (r: BatchState)
    requires n <= |s.slots| && base + n <= |rows|
    ensures r.slots == s.slots && r.done == s.done
  {
    if n == 0 then s
    else Finished(Finalized(s, rows, base, n - 1, length, normalize, beams), rows[base + n - 1],
      normalize(s.slots[n - 1].score, length), beams)
  }

  lemma {:induction false} FinalizedNone(s: BatchState, rows: seq<seq<int>>, base: nat, length: nat,
                                         normalize: (real, nat) -> real, beams: nat)
    requires base <= |rows|
    ensures Finalized(s, rows, base, 0, length, normalize, beams) == s && Spent(0, 1, length) == 0
  {}

  lemma {:induction false} FinalizedNext(s: BatchState, rows: seq<seq<int>>, base: nat, i: nat, length: nat,
                                         normalize: (real, nat) -> real, beams: nat)
    requires i < |s.slots| && base + i < |rows|
    ensures Finalized(s, rows, base, i + 1, length, normalize, beams) ==
            Finished(Finalized(s, rows, base, i, length, normalize, beams), rows[base + i],
              normalize(s.slots[i].score, length), beams)
  {}

  lemma {:induction false} FinalizedUsed(s: BatchState, rows: seq<seq<int>>, base: nat, n: nat, length: nat,
                                         normalize: (real, nat) -> real, beams: nat)
    requires n <= |s.slots| && base + n <= |rows| && s.used <= beams
    ensures Finalized(s, rows, base, n, length, normalize, beams).used ==
            if s.used + n < beams then s.used + n else beams
  {
    if 0 < n { FinalizedUsed(s, rows, base, n - 1, length, normalize, beams); }
  }

  lemma {:induction false} SpentAll(beams: nat, length: nat)
    ensures Spent(beams, 1, length) == beams * length
  {
    assert 1 * length == length;
  }

  lemma {:induction false} RowIs(sequences: Sequences, i: nat)
    requires sequences.Valid() && i < sequences.rows
    ensures sequences.Rows()[i] == sequences.Row(i)
  {}

  /** What all steps below a length can have cloned. */
  ghost function Bound(rows: nat, length: nat): nat {
    rows * Tri(length)
  }

  lemma {:induction false} ZeroBound(rows: nat)
    ensures Bound(rows, 0) == 0
  {
    assert Tri(0) == 0;
  }

  /** The clones of b batch entries when every beam of theirs ends. */
  ghost function Spent(b: nat, beams: nat, length: nat): nat {
    b * (beams * length)
  }

  lemma {:induction false} ShareFits(b: nat, batches: nat, beams: nat, length: nat)
    requires b < batches
    ensures Spent(b + 1, beams, length) == Spent(b, beams, length) + beams * length <= Spent(batches, beams, length)
  {
    var share := beams * length;
    RowInside(b, batches, share);
    assert (b + 1) * share == b * share + share;
  }

  lemma {:induction false} PartBelow(s: seq<nat>, batches: nat, n: nat, b: nat, bound: nat)
    requires b < batches && |s| == batches * n && Below(s, bound)
    ensures Below(Part(s, batches, n, b), bound)
  {
    RowInside(b, batches, n);
  }

  lemma {:induction false} PaddedIs(before: BatchState, slots: seq<Slot>, pad: int)
    requires |slots| == |before.slots| && forall k | 0 <= k < |slots| :: slots[k] == Slot(0.0, pad, 0)
    ensures before.(slots := slots) == Padded(before, pad)
  {}

  lemma {:induction false} OfferMeans(o: Offer, beams: nat, sequences: Sequences, j: nat, row: nat)
    requires sequences.Valid() && o.rows == sequences.Rows() && o.Shaped(beams) && j < 2 * beams
    requires row == o.base + o.parents[j]
    ensures |o.scores| == |o.tokens| == |o.parents| == 2 * beams && row < sequences.rows
    ensures o.TextAt(j) == Text(sequences.Row(row), o.normalize(o.scores[j], o.length))
    ensures o.SlotAt(j) == Slot(o.scores[j], o.tokens[j], row)
  {}

  lemma {:induction false} NextCandidate(t: seq<int>, eos: seq<int>, j: nat, beams: nat)
    requires j < 2 * beams == |t|
    ensures Live(t, eos, j + 1) == if t[j] in eos then Live(t, eos, j) else Live(t, eos, j) + [j]
    ensures Capped(j, beams) == (if j < beams then j else beams)
    ensures Ended(t, eos, Capped(j + 1, beams)) ==
            if j < beams && t[j] in eos then Ended(t, eos, j) + [j] else Ended(t, eos, Capped(j, beams))
  {
    if j < beams && t[j] !in eos { assert Ended(t, eos, j + 1) == Ended(t, eos, j); }
  }

  lemma {:induction false} CapStep(j: nat, length: nat, beams: nat)
    ensures Capped(j + 1, beams) * length == Capped(j, beams) * length + if j < beams then length else 0
    ensures j < beams ==> Capped(j, beams) * length + length <= beams * length
    ensures j >= beams ==> Capped(j, beams) * length == beams * length
  {
    if j < beams {
      MulLe(j + 1, beams, length);
      assert (j + 1) * length == j * length + length;
    }
  }

  lemma {:induction false} BelowAt(s: seq<nat>, n: nat, j: nat)
    requires Below(s, n) && j < |s|
    ensures s[j] < n
  {}

  lemma {:induction false} CapFull(t: seq<int>, eos: seq<int>, j: nat, beams: nat)
    requires j <= 2 * beams == |t| && (j == 2 * beams || |Live(t, eos, j)| == beams)
    ensures Capped(j, beams) == beams
  {
    EndedMeaning(t, eos, j);
  }

  lemma {:induction false} StepBegins(o: Offer, beams: nat, eos: seq<int>, before: BatchState, length: nat)
    requires o.Shaped(beams) && |before.slots| == beams && before.used <= beams
    ensures Partly(o, beams, before, before, Live(o.tokens, eos, 0), Ended(o.tokens, eos, Capped(0, beams)))
    ensures Live(o.tokens, eos, 0) == [] && Capped(0, beams) * length == 0
  {
    assert before.texts + [] == before.texts;
  }

  lemma {:induction false} StepEndsAt(o: Offer, beams: nat, eos: seq<int>, before: BatchState, now: BatchState, j: nat,
                                      finish: bool)
    requires o.Shaped(beams) && j <= 2 * beams && Capped(j, beams) == beams
    requires j == 2 * beams || |Live(o.tokens, eos, j)| == beams
    requires Partly(o, beams, before, now, Live(o.tokens, eos, j), Ended(o.tokens, eos, beams))
    ensures Stepped(o, beams, eos, before, now.(done := now.used == beams && finish), finish)
  {
    hide Live, Ended, EndedTexts, SlotsFilled;
    LiveMeaning(o.tokens, eos, 2 * beams);
    LivePrefix(o.tokens, eos, j, 2 * beams);
    StepCompletes(o, beams, before, now, Live(o.tokens, eos, j), Live(o.tokens, eos, 2 * beams),
      Ended(o.tokens, eos, beams));
    assert now.(done := now.used == beams && finish).(done := before.done) == now;
  }

  ghost function Capped(n: nat, beams: nat): (r: nat)
    ensures r <= n && r <= beams
  {
    if n < beams then n else beams
  }

  /** The effect of continuing the live candidates and finishing the ended ones. */
  ghost predicate Partly(o: Offer, beams: nat, before: BatchState, now: BatchState, live: seq<nat>, ended: seq<nat>)
    requires o.Shaped(beams)
  {
    && Below(live, 2 * beams) && Below(ended, 2 * beams)
    && |before.slots| == beams
    && SlotsFilled(o, beams, before.slots, now.slots, live)
    && now.texts == before.texts + EndedTexts(o, beams, ended)
    && now.used == Capped(before.used + |ended|, beams)
    && now.done == before.done
  }

  /** One not-done batch entry before and after a step: the first candidates that continue fill its slots,
      those among the first beams ones that end are added to its texts. */
  ghost predicate Stepped(o: Offer, beams: nat, eos: seq<int>, before: BatchState, after: BatchState, finish: bool)
    requires o.Shaped(beams)
  {
    && Partly(o, beams, before, after.(done := before.done), Live(o.tokens, eos, 2 * beams),
      Ended(o.tokens, eos, beams))
    && after.done == (after.used == beams && finish)
  }

  lemma {:induction false} StepOpens(o: Offer, beams: nat, before: BatchState, now: BatchState, live: seq<nat>,
                                     ended: seq<nat>, j: nat)
    requires o.Shaped(beams) && j < 2 * beams && |live| < beams && Partly(o, beams, before, now, live, ended)
    ensures |now.slots| == beams
    ensures Partly(o, beams, before, now.(slots := now.slots[|live| := o.SlotAt(j)]), live + [j], ended)
  {
    hide EndedTexts;
  }

  lemma {:induction false} StepEnds(o: Offer, beams: nat, before: BatchState, now: BatchState, live: seq<nat>,
                                    ended: seq<nat>, j: nat)
    requires o.Shaped(beams) && j < 2 * beams && Partly(o, beams, before, now, live, ended)
    ensures Partly(o, beams, before, Finished(now, o.TextAt(j).tokens, o.TextAt(j).score, beams), live, ended + [j])
  {
    hide SlotsFilled;
    assert (ended + [j])[..|ended|] == ended;
  }

  /** Candidates beyond those that fill the beams do not matter. */
  lemma {:induction false} StepCompletes(o: Offer, beams: nat, before: BatchState, now: BatchState, live: seq<nat>,
                                         more: seq<nat>, ended: seq<nat>)
    requires o.Shaped(beams) && Partly(o, beams, before, now, live, ended)
    requires Below(more, 2 * beams) && |live| <= |more| && more[..|live|] == live && (more == live || beams <= |live|)
    ensures Partly(o, beams, before, now, more, ended)
  {
    hide EndedTexts;
    assert forall i | 0 <= i < |live| :: more[i] == more[..|live|][i];
  }

  lemma {:induction false} OfferShaped(o: Offer, b: nat, batches: nat, beams: nat)
    requires |o.scores| == |o.tokens| == |o.parents| == 2 * beams && Below(o.parents, beams)
    requires b < batches && o.base == b * beams && |o.rows| == batches * beams
    ensures o.Shaped(beams)
  {
    RowInside(b, batches, beams);
  }

  lemma {:induction false} LivePrefix(tokens: seq<int>, eos: seq<int>, m: nat, n: nat)
    requires m <= n <= |tokens|
    ensures |Live(tokens, eos, m)| <= |Live(tokens, eos, n)|
    ensures Live(tokens, eos, n)[..|Live(tokens, eos, m)|] == Live(tokens, eos, m)
  {
    if m < n { LivePrefix(tokens, eos, m, n - 1); }
  }

  /** Writing one flat slot changes the slots of the batch entry it lies in and no other. */
  lemma {:induction false} SlotWritten(scores: seq<real>, tokens: seq<int>, parents: seq<nat>, base: nat, n: nat,
                                       at: nat, slot: Slot)
    requires |scores| == |tokens| == |parents| && base + n <= |scores| && at < |scores|
    ensures var before := SlotsFrom(scores, tokens, parents, base, n);
            SlotsFrom(scores[at := slot.score], tokens[at := slot.token], parents[at := slot.parent], base, n) ==
            if base <= at < base + n then before[at - base := slot] else before
  {}

  lemma {:induction false} SlotElsewhere(scores: seq<real>, tokens: seq<int>, parents: seq<nat>, batches: nat,
                                         beams: nat, b: nat, c: nat, at: nat, slot: Slot)
    requires |scores| == |tokens| == |parents| == batches * beams && b < batches && c < batches && b != c
    requires b * beams <= at < b * beams + beams
    ensures c * beams + beams <= batches * beams && at < |scores|
    ensures SlotsFrom(scores[at := slot.score], tokens[at := slot.token], parents[at := slot.parent], c * beams,
            beams) ==
            SlotsFrom(scores, tokens, parents, c * beams, beams)
  {
    hide SlotsFrom;
    RowInside(c, batches, beams);
    RowInside(b, batches, beams);
    if c < b { RowsApart(c, b, beams); } else { RowsApart(b, c, beams); }
    SlotWritten(scores, tokens, parents, c * beams, beams, at, slot);
  }

  ghost function Finished(s: BatchState, tokens: seq<int>, score: real, beams: nat): BatchState {
    s.(texts := s.texts + [Text(tokens, score)], used := if s.used < beams then s.used + 1 else s.used)
  }

  lemma {:induction false} WithinGrows(added: seq<Hypothesis>, start: nat, length: nat, score: real)
    requires Within(added, start)
    ensures Within(added, start + length) && Within(added + [Hypothesis(start, length, score)], start + length)
  {
    var more := added + [Hypothesis(start, length, score)];
    forall i | 0 <= i < |more| ensures Inside(more[i], start + length)
    { if i < |added| { assert Inside(added[i], start); } }
    forall i | 0 <= i < |added| ensures Inside(added[i], start + length) { assert Inside(added[i], start); }
  }
}
