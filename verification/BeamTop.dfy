/**
 Choosing the next beams of one batch entry: of all extensions (beam, token), flattened to
 beam * vocab + token, only the best 2 * num_beams are looked at, and of these the first num_beams
 that do not end the sequence are kept.
 */
module BeamTop {
  import opened Pigeonhole
  import opened PartialSorting
  import opened FlatRows

  // ----- which candidates continue and which end

  /** The positions below n whose token does not end a sequence, ascending. */
  function Live(tokens: seq<int>, eos: seq<int>, n: nat): seq<nat>
    requires n <= |tokens|
  {
    if n == 0 then [] else Live(tokens, eos, n - 1) + if tokens[n - 1] in eos then [] else [n - 1]
  }

  /** The positions below n whose token ends a sequence, ascending. */
  function Ended(tokens: seq<int>, eos: seq<int>, n: nat): seq<nat>
    requires n <= |tokens|
  {
    if n == 0 then [] else Ended(tokens, eos, n - 1) + if tokens[n - 1] in eos then [n - 1] else []
  }

  ghost predicate Ascending(s: seq<nat>) {
    forall i, j | 0 <= i < j < |s| :: s[i] < s[j]
  }

  lemma {:induction false} LiveMeaning(tokens: seq<int>, eos: seq<int>, n: nat)
    requires n <= |tokens|
    ensures Below(Live(tokens, eos, n), n) && Ascending(Live(tokens, eos, n))
    ensures forall i | 0 <= i < |Live(tokens, eos, n)| :: tokens[Live(tokens, eos, n)[i]] !in eos
  {
    if 0 < n { LiveMeaning(tokens, eos, n - 1); }
  }

  lemma {:induction false} LiveComplete(tokens: seq<int>, eos: seq<int>, n: nat, j: nat) returns (i: nat)
    requires j < n <= |tokens| && tokens[j] !in eos
    ensures i < |Live(tokens, eos, n)| && Live(tokens, eos, n)[i] == j
  {
    if j == n - 1 { i := |Live(tokens, eos, n - 1)|; } else { i := LiveComplete(tokens, eos, n - 1, j); }
  }

  lemma {:induction false} EndedMeaning(tokens: seq<int>, eos: seq<int>, n: nat)
    requires n <= |tokens|
    ensures Below(Ended(tokens, eos, n), n) && Ascending(Ended(tokens, eos, n))
    ensures forall i | 0 <= i < |Ended(tokens, eos, n)| :: tokens[Ended(tokens, eos, n)[i]] in eos
    ensures |Live(tokens, eos, n)| + |Ended(tokens, eos, n)| == n
  {
    if 0 < n { EndedMeaning(tokens, eos, n - 1); }
  }

  lemma {:induction false} EndedComplete(tokens: seq<int>, eos: seq<int>, n: nat, j: nat) returns (i: nat)
    requires j < n <= |tokens| && tokens[j] in eos
    ensures i < |Ended(tokens, eos, n)| && Ended(tokens, eos, n)[i] == j
  {
    if j == n - 1 { i := |Ended(tokens, eos, n - 1)|; } else { i := EndedComplete(tokens, eos, n - 1, j); }
  }

  /** At most one token of the vocabulary ends a sequence. */
  ghost predicate OneEos(eos: seq<int>, vocab: nat) {
    forall a, b | a in eos && b in eos && 0 <= a < vocab && 0 <= b < vocab :: a == b
  }

  /** The candidate lists are the best 2 * beams flattened extensions, taken apart. */
  ghost predicate Candidates(order: seq<nat>, ext: seq<real>, vocab: nat, beams: nat, scores: seq<real>,
                             tokens: seq<int>, parents: seq<nat>) {
    && |order| == |ext| == beams * vocab && 2 * beams <= |order| && 0 < vocab
    && IsPermutation(order) && SortedPart(order, ext, 0, 2 * beams)
    && |scores| == |tokens| == |parents| == 2 * beams
    && forall j | 0 <= j < 2 * beams :: TakenApart(order[j], ext, vocab, scores[j], tokens[j], parents[j])
  }

  ghost predicate TakenApart(x: nat, ext: seq<real>, vocab: nat, score: real, token: int, parent: nat)
    requires x < |ext| && 0 < vocab
  {
    score == ext[x] && token == x % vocab && parent == x / vocab
  }

  lemma {:induction false} CandidateFacts(order: seq<nat>, ext: seq<real>, vocab: nat, beams: nat, scores: seq<real>,
                                          tokens: seq<int>, parents: seq<nat>)
    requires Candidates(order, ext, vocab, beams, scores, tokens, parents)
    ensures |order| == |ext| == beams * vocab && IsPermutation(order) && SortedPart(order, ext, 0, 2 * beams)
    ensures |scores| == |tokens| == |parents| == 2 * beams
  {}

  /** The parents of the ended candidates. */
  ghost function Parents(parents: seq<nat>, at: seq<nat>): (r: seq<nat>)
    requires Below(at, |parents|)
    ensures |r| == |at| && forall i | 0 <= i < |r| :: r[i] == parents[at[i]]
  {
    if at == [] then [] else Parents(parents, at[..|at| - 1]) + [parents[at[|at| - 1]]]
  }

  lemma {:induction false} SamePlace(order: seq<nat>, ext: seq<real>, vocab: nat, beams: nat, scores: seq<real>,
                                     tokens: seq<int>, parents: seq<nat>, a: nat, b: nat)
    requires Candidates(order, ext, vocab, beams, scores, tokens, parents) && a < b < 2 * beams
    ensures tokens[a] != tokens[b] || parents[a] != parents[b]
    ensures parents[a] < beams && parents[b] < beams && 0 <= tokens[a] < vocab && 0 <= tokens[b] < vocab
  {
    assert TakenApart(order[a], ext, vocab, scores[a], tokens[a], parents[a]);
    assert TakenApart(order[b], ext, vocab, scores[b], tokens[b], parents[b]);
    Unflat(order[a], vocab, beams);
    Unflat(order[b], vocab, beams);
  }

  lemma {:induction false} BetterPlace(order: seq<nat>, ext: seq<real>, vocab: nat, beams: nat, scores: seq<real>,
                                       tokens: seq<int>, parents: seq<nat>, a: nat, b: nat)
    requires Candidates(order, ext, vocab, beams, scores, tokens, parents) && a < b < 2 * beams
    ensures scores[a] >= scores[b]
  {
    assert TakenApart(order[a], ext, vocab, scores[a], tokens[a], parents[a]);
    assert TakenApart(order[b], ext, vocab, scores[b], tokens[b], parents[b]);
    assert ext[order[a]] >= ext[order[b]];
  }

  /** Each beam contributes at most one ended candidate, so at least half of the candidates continue. */
  lemma {:induction false} AlwaysFills(order: seq<nat>, ext: seq<real>, vocab: nat, beams: nat, scores: seq<real>,
                                       tokens: seq<int>, parents: seq<nat>, eos: seq<int>)
    requires Candidates(order, ext, vocab, beams, scores, tokens, parents) && OneEos(eos, vocab)
    ensures beams <= |Live(tokens, eos, 2 * beams)|
  {
    hide Live, Ended, Candidates;
    CandidateFacts(order, ext, vocab, beams, scores, tokens, parents);
    var n := 2 * beams;
    EndedMeaning(tokens, eos, n);
    var at := Ended(tokens, eos, n);
    var q := Parents(parents, at);
    forall i, j | 0 <= i < j < |q| ensures q[i] != q[j] {
      SamePlace(order, ext, vocab, beams, scores, tokens, parents, at[i], at[j]);
    }
    forall i | 0 <= i < |q| ensures q[i] < beams {
      ParentBelow(order, ext, vocab, beams, scores, tokens, parents, at[i]);
    }
    AtMost(q, beams);
  }

  lemma {:induction false} ParentBelow(order: seq<nat>, ext: seq<real>, vocab: nat, beams: nat, scores: seq<real>,
                                       tokens: seq<int>, parents: seq<nat>, a: nat)
    requires Candidates(order, ext, vocab, beams, scores, tokens, parents) && a < 2 * beams
    ensures parents[a] < beams && 0 <= tokens[a] < vocab && order[a] == parents[a] * vocab + tokens[a]
    ensures order[a] < |ext| && scores[a] == ext[order[a]]
  {
    assert TakenApart(order[a], ext, vocab, scores[a], tokens[a], parents[a]);
    Unflat(order[a], vocab, beams);
  }

  /** Any extension that continues is either among the kept ones or no better than each of them. */
  lemma {:induction false} KeptAreBest(order: seq<nat>, ext: seq<real>, vocab: nat, beams: nat, scores: seq<real>,
                                       tokens: seq<int>, parents: seq<nat>, eos: seq<int>, beam: nat, token: nat,
                                       i: nat)
    returns (k: nat)
    requires Candidates(order, ext, vocab, beams, scores, tokens, parents)
    requires beam < beams && token < vocab && token !in eos && i < beams && i < |Live(tokens, eos, 2 * beams)|
    ensures beam * vocab + token < |ext| && Live(tokens, eos, 2 * beams)[i] < 2 * beams
    ensures || ext[beam * vocab + token] <= scores[Live(tokens, eos, 2 * beams)[i]]
            || (k < i + 1 && k < |Live(tokens, eos, 2 * beams)| && Live(tokens, eos, 2 * beams)[k] < 2 * beams
                && tokens[Live(tokens, eos, 2 * beams)[k]] == token && parents[Live(tokens, eos, 2 * beams)[k]] == beam)
  {
    hide Live, Candidates;
    CandidateFacts(order, ext, vocab, beams, scores, tokens, parents);
    LiveMeaning(tokens, eos, 2 * beams);
    var live := Live(tokens, eos, 2 * beams);
    var c := live[i];
    Flat(beam, token, vocab, beams);
    var x := beam * vocab + token;
    var j := HitsAll(order, x);
    ParentBelow(order, ext, vocab, beams, scores, tokens, parents, c);
    k := 0;
    if j <= c {
      PlaceOf(order, ext, vocab, beams, scores, tokens, parents, j, beam, token);
      k := LiveComplete(tokens, eos, 2 * beams, j);
    } else {
      assert ext[order[c]] >= ext[order[j]];
    }
  }

  lemma {:induction false} PlaceOf(order: seq<nat>, ext: seq<real>, vocab: nat, beams: nat, scores: seq<real>,
                                   tokens: seq<int>, parents: seq<nat>, j: nat, beam: nat, token: nat)
    requires Candidates(order, ext, vocab, beams, scores, tokens, parents) && j < 2 * beams
    requires beam < beams && token < vocab && order[j] == beam * vocab + token
    ensures tokens[j] == token && parents[j] == beam
  {
    assert TakenApart(order[j], ext, vocab, scores[j], tokens[j], parents[j]);
    Flat(beam, token, vocab, beams);
  }

  // ----- several EOS ids

  ghost predicate IsTop(x: nat, vocab: nat, a: nat, b: nat)
    requires 0 < vocab
  {
    x % vocab == a || x % vocab == b
  }

  /** Every extension by a or b scores above every other extension. Only the order matters. */
  ghost predicate TopsAhead(ext: seq<real>, vocab: nat, a: nat, b: nat)
    requires 0 < vocab
  {
    forall x, y | 0 <= x < |ext| && 0 <= y < |ext| && IsTop(x, vocab, a, b) && !IsTop(y, vocab, a, b) :: ext[x] > ext[y]
  }

  /** The scores of one step when every row's logits are gap for a and b and zero otherwise: the row's beam score
      plus the logit less the normalizer, which is the same for all rows. */
  ghost predicate Raises(ext: seq<real>, scores: seq<real>, vocab: nat, a: nat, b: nat, gap: real, normalizer: real)
    requires 0 < vocab
  {
    |ext| == |scores| * vocab && forall x | 0 <= x < |ext| :: RaisedAs(ext, scores, vocab, a, b, gap, normalizer, x)
  }

  ghost predicate RaisedAs(ext: seq<real>, scores: seq<real>, vocab: nat, a: nat, b: nat, gap: real, normalizer: real,
                           x: nat)
    requires 0 < vocab && x < |ext|
  {
    x / vocab < |scores| && ext[x] == scores[x / vocab] + (if IsTop(x, vocab, a, b) then gap else 0.0) - normalizer
  }

  /** Whatever the beam scores are, logits with a gap wider than they are apart put a and b ahead everywhere. */
  lemma {:induction false} GapPutsAhead(ext: seq<real>, scores: seq<real>, vocab: nat, a: nat, b: nat, gap: real,
                                        normalizer: real)
    requires 0 < vocab && Raises(ext, scores, vocab, a, b, gap, normalizer)
    requires forall i, j | 0 <= i < |scores| && 0 <= j < |scores| :: scores[i] - scores[j] < gap
    ensures TopsAhead(ext, vocab, a, b)
  {
    hide IsTop;
    forall x, y | 0 <= x < |ext| && 0 <= y < |ext| && IsTop(x, vocab, a, b) && !IsTop(y, vocab, a, b)
      ensures ext[x] > ext[y]
    {
      assert RaisedAs(ext, scores, vocab, a, b, gap, normalizer, x)
             && RaisedAs(ext, scores, vocab, a, b, gap, normalizer, y);
      assert scores[y / vocab] - scores[x / vocab] < gap;
    }
  }

  ghost predicate AllTops(s: seq<nat>, vocab: nat, a: nat, b: nat)
    requires 0 < vocab
  {
    forall i | 0 <= i < |s| :: IsTop(s[i], vocab, a, b)
  }

  /** The flattened extensions by a and by b: 2 * beams different ones. */
  lemma {:induction false} Tops(vocab: nat, beams: nat, a: nat, b: nat) returns (r: seq<nat>)
    requires a < b < vocab
    ensures |r| == 2 * beams && Below(r, beams * vocab) && Distinct(r) && AllTops(r, vocab, a, b)
  {
    if beams == 0 {
      r := [];
    } else {
      hide IsTop;
      var n := beams - 1;
      var s := Tops(vocab, n, a, b);
      var x, y := n * vocab + a, n * vocab + b;
      TopsStep(vocab, n, a, b, x, y);
      r := s + [x, y];
    }
  }

  lemma {:induction false} TopsStep(vocab: nat, n: nat, a: nat, b: nat, x: nat, y: nat)
    requires a < b < vocab && x == n * vocab + a && y == n * vocab + b
    ensures n * vocab <= x < y < (n + 1) * vocab && IsTop(x, vocab, a, b) && IsTop(y, vocab, a, b)
  {
    Flat(n, a, vocab, n + 1);
    Flat(n, b, vocab, n + 1);
  }

  /** With two EOS ids in the vocabulary the guarantee is lost whatever the tie-breaking: when both are ahead, no
      candidate continues. */
  lemma {:induction false} TwoEosStarve(order: seq<nat>, ext: seq<real>, vocab: nat, beams: nat, scores: seq<real>,
                                        tokens: seq<int>, parents: seq<nat>, eos: seq<int>, a: nat, b: nat)
    requires a < b < vocab && a in eos && b in eos && TopsAhead(ext, vocab, a, b)
    requires Candidates(order, ext, vocab, beams, scores, tokens, parents)
    ensures |tokens| == 2 * beams && Live(tokens, eos, 2 * beams) == []
  {
    hide *;
    CandidateFacts(order, ext, vocab, beams, scores, tokens, parents);
    if Live(tokens, eos, 2 * beams) != [] {
      var c := FirstLive(tokens, eos, 2 * beams);
      CandidateNotTop(order, ext, vocab, beams, scores, tokens, parents, a, b, c);
      var tops := Tops(vocab, beams, a, b);
      TopsAbove(order, ext, vocab, a, b, tops, c, 2 * beams);
    }
  }

  lemma {:induction false} FirstLive(tokens: seq<int>, eos: seq<int>, n: nat) returns (c: nat)
    requires n <= |tokens| && Live(tokens, eos, n) != []
    ensures c < n && tokens[c] !in eos
  {
    hide Live;
    LiveMeaning(tokens, eos, n);
    c := Live(tokens, eos, n)[0];
  }

  lemma {:induction false} CandidateNotTop(order: seq<nat>, ext: seq<real>, vocab: nat, beams: nat, scores: seq<real>,
                                           tokens: seq<int>, parents: seq<nat>, a: nat, b: nat, c: nat)
    requires Candidates(order, ext, vocab, beams, scores, tokens, parents) && c < 2 * beams && tokens[c] != a
             && tokens[c] != b
    ensures 2 * beams <= |order| && 0 < vocab && !IsTop(order[c], vocab, a, b)
  {
    ParentBelow(order, ext, vocab, beams, scores, tokens, parents, c);
    NotTop(parents[c], tokens[c], vocab, beams, a, b);
  }

  lemma {:induction false} TopsAbove(order: seq<nat>, ext: seq<real>, vocab: nat, a: nat, b: nat, tops: seq<nat>,
                                     c: nat, mid: nat)
    requires 0 < vocab && |order| == |ext| && IsPermutation(order) && c < mid <= |order| && TopsAhead(ext, vocab, a, b)
    requires SortedPart(order, ext, 0, mid) && !IsTop(order[c], vocab, a, b)
    requires AllTops(tops, vocab, a, b) && Below(tops, |ext|) && Distinct(tops)
    ensures |tops| <= c
  {
    hide IsTop, SortedPart;
    ManyAbove(order, ext, tops, c, mid);
  }

  lemma {:induction false} NotTop(beam: nat, token: nat, vocab: nat, beams: nat, a: nat, b: nat)
    requires beam < beams && token < vocab && token != a && token != b
    ensures !IsTop(beam * vocab + token, vocab, a, b)
  {
    Flat(beam, token, vocab, beams);
  }

  /** More elements score above position c than there are positions before it: impossible. */
  lemma {:induction false} ManyAbove(order: seq<nat>, ext: seq<real>, tops: seq<nat>, c: nat, mid: nat)
    requires |order| == |ext| && IsPermutation(order) && c < mid <= |order| && SortedPart(order, ext, 0, mid)
    requires Distinct(tops) && Below(tops, |ext|) && forall i | 0 <= i < |tops| :: ext[tops[i]] > ext[order[c]]
    ensures |tops| <= c
  {
    var at := Places(order, tops);
    forall i | 0 <= i < |at| ensures at[i] < c {
      assert order[at[i]] == tops[i];
    }
    AtMost(at, c);
  }

  lemma {:induction false} Places(order: seq<nat>, tops: seq<nat>) returns (at: seq<nat>)
    requires IsPermutation(order) && Distinct(tops) && Below(tops, |order|)
    ensures |at| == |tops| && Distinct(at) && forall i | 0 <= i < |at| :: at[i] < |order| && order[at[i]] == tops[i]
  {
    if tops == [] {
      at := [];
    } else {
      var n := |tops| - 1;
      at := Places(order, tops[..n]);
      var p := HitsAll(order, tops[n]);
      assert forall i | 0 <= i < n :: tops[..n][i] == tops[i];
      at := at + [p];
    }
  }
}
