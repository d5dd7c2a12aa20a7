/**
 Guidance that applies only between an opening and a closing marker token: a small state machine over
 32-bit mask words around a grammar cursor.
 */
module DelimitedGuidance {
  import opened Common

  // ----- mask words

  type Mask = seq<bv32>

  function Bit(i: nat): bv32
    requires i < 32
  {
    1 << i
  }

  predicate Test(w: bv32, b: bv32) { w & b != 0 }

  function Without(w: bv32, b: bv32): bv32 { w & !b }

  function With(w: bv32, b: bv32): bv32 { w | b }

  lemma {:induction false} BitsDisjoint(i: nat, j: nat)
    requires i < 32 && j < 32 && i != j
    ensures !Test(Bit(i), Bit(j))
  {}

  lemma {:induction false} BitNonZero(i: nat)
    requires i < 32
    ensures Test(Bit(i), Bit(i))
  {}

  lemma {:induction false} WithoutSelf(w: bv32, b: bv32)
    ensures !Test(Without(w, b), b)
  {}

  lemma {:induction false} WithoutOther(w: bv32, b: bv32, c: bv32)
    requires !Test(b, c)
    ensures Without(w, b) & c == w & c
  {}

  lemma {:induction false} WithSelf(w: bv32, b: bv32)
    requires Test(b, b)
    ensures Test(With(w, b), b)
  {}

  lemma {:induction false} WithOther(w: bv32, b: bv32, c: bv32)
    requires !Test(b, c)
    ensures With(w, b) & c == w & c
  {}

  predicate Has(w: bv32, i: nat)
    requires i < 32
  {
    Test(w, Bit(i))
  }

  function Off(w: bv32, i: nat): bv32
    requires i < 32
  {
    Without(w, Bit(i))
  }

  function On(w: bv32, i: nat): bv32
    requires i < 32
  {
    With(w, Bit(i))
  }

  lemma {:induction false} SameTest(w: bv32, v: bv32, c: bv32)
    requires w & c == v & c
    ensures Test(w, c) <==> Test(v, c)
  {}

  lemma {:induction false} WithoutTest(w: bv32, b: bv32, c: bv32)
    requires !Test(b, c)
    ensures Test(Without(w, b), c) <==> Test(w, c)
  {
    hide Without;
    WithoutOther(w, b, c);
    SameTest(Without(w, b), w, c);
  }

  lemma {:induction false} WithTest(w: bv32, b: bv32, c: bv32)
    requires !Test(b, c)
    ensures Test(With(w, b), c) <==> Test(w, c)
  {
    hide With;
    WithOther(w, b, c);
    SameTest(With(w, b), w, c);
  }

  lemma {:induction false} OffOne(w: bv32, i: nat, j: nat)
    requires i < 32 && j < 32
    ensures Has(Off(w, i), j) <==> Has(w, j) && i != j
  {
    hide Bit, Test, Without;
    if i == j {
      WithoutSelf(w, Bit(i));
    } else {
      BitsDisjoint(i, j);
      WithoutTest(w, Bit(i), Bit(j));
    }
  }

  lemma {:induction false} OnOne(w: bv32, i: nat, j: nat)
    requires i < 32 && j < 32
    ensures Has(On(w, i), j) <==> Has(w, j) || i == j
  {
    hide Bit, Test, With;
    if i == j {
      BitNonZero(i);
      WithSelf(w, Bit(i));
    } else {
      BitsDisjoint(i, j);
      WithTest(w, Bit(i), Bit(j));
    }
  }

  predicate Allowed(m: Mask, t: nat) {
    t / 32 < |m| && Has(m[t / 32], t % 32)
  }

  function Clear(m: Mask, t: nat): Mask
    requires t / 32 < |m|
  {
    m[t / 32 := Off(m[t / 32], t % 32)]
  }

  function Set(m: Mask, t: nat): Mask
    requires t / 32 < |m|
  {
    m[t / 32 := On(m[t / 32], t % 32)]
  }

  /** Clearing a bit forbids that token and no other. */
  lemma {:induction false} ClearOne(m: Mask, t: nat, u: nat)
    requires t / 32 < |m|
    ensures Allowed(Clear(m, t), u) <==> Allowed(m, u) && u != t
  {
    hide Has, Off;
    if t / 32 == u / 32 { OffOne(m[t / 32], t % 32, u % 32); }
  }

  lemma {:induction false} SetOne(m: Mask, t: nat, u: nat)
    requires t / 32 < |m|
    ensures Allowed(Set(m, t), u) <==> Allowed(m, u) || u == t
  {
    hide Has, On;
    if t / 32 == u / 32 { OnOne(m[t / 32], t % 32, u % 32); }
  }

  // ----- the protocol

  /** A compiled grammar seen through its cursor: the mask after some tokens, and which next token commits. */
  datatype Grammar = Grammar(mask: seq<int> -> Mask, accepts: (seq<int>, int) -> bool)

  datatype Config = Config(vocabSize: nat, eosTokens: seq<nat>, opening: nat, closing: nat)

  predicate ValidConfig(c: Config) {
    && c.opening != c.closing && c.opening < c.vocabSize && c.closing < c.vocabSize
    && c.eosTokens != []
    && forall i | 0 <= i < |c.eosTokens| ::
         c.eosTokens[i] < c.vocabSize && c.eosTokens[i] != c.opening && c.eosTokens[i] != c.closing
  }

  function Words(c: Config): nat {
    (c.vocabSize + 31) / 32
  }

  /** Dormant, or open with the tokens committed to the body since the opening marker. */
  datatype Status = Dormant | Open(body: seq<int>)

  datatype Fault = NoReadyMask | Premature | Rejected

  /** What the grammar's acceptance of its primary EOS says. */
  predicate Accepting(c: Config, g: Grammar, body: seq<int>)
    requires ValidConfig(c)
  {
    Allowed(g.mask(body), c.eosTokens[0])
  }

  /** The mask asked for in a status: none while dormant, and none ready when the body's has the wrong size. */
  function Ready(c: Config, g: Grammar, st: Status): Result<Mask, Fault>
    requires ValidConfig(c)
  {
    match st
    case Dormant => Success([])
    case Open(body) => if |g.mask(body)| != Words(c) then Failure(NoReadyMask) else Success(Shown(c, g.mask(body)))
  }

  /** One committed token. Whether the closing marker is premature is read off the words shown. */
  function Step(c: Config, g: Grammar, st: Status, t: int): Result<Status, Fault>
    requires ValidConfig(c)
  {
    match st
    case Dormant => Success(if t == c.opening then Open([]) else Dormant)
    case Open(body) =>
      if t == c.closing then
        var shown := Ready(c, g, st);
        if shown.Failure? then Failure(shown.error)
        else if Allowed(shown.value, c.closing) then Success(Dormant)
        else Failure(Premature)
      else if g.accepts(body, t) then Success(Open(body + [t]))
      else Failure(Rejected)
  }

  /** The status after committing tokens in order; a fault ends the run. */
  function Steps(c: Config, g: Grammar, st: Status, tokens: seq<int>): Result<Status, Fault>
    requires ValidConfig(c)
  {
    if tokens == [] then Success(st)
    else
      var before := Steps(c, g, st, tokens[..|tokens| - 1]);
      if before.Failure? then before else Step(c, g, before.value, tokens[|tokens| - 1])
  }

  /** A whole run from a fresh processor. */
  function Run(c: Config, g: Grammar, tokens: seq<int>): Result<Status, Fault>
    requires ValidConfig(c)
  {
    Steps(c, g, Dormant, tokens)
  }

  lemma {:induction false} RunSnoc(c: Config, g: Grammar, tokens: seq<int>, t: int)
    requires ValidConfig(c)
    ensures var before := Run(c, g, tokens);
            Run(c, g, tokens + [t]) == if before.Failure? then before else Step(c, g, before.value, t)
  {
    assert (tokens + [t])[..|tokens|] == tokens;
  }

  /** The body cursor is a fresh cursor plus exactly the tokens since the marker that opened the region. */
  lemma {:induction false} BodyIsSinceOpening(c: Config, g: Grammar, tokens: seq<int>) returns (i: nat)
    requires ValidConfig(c) && Run(c, g, tokens).Success? && Run(c, g, tokens).value.Open?
    ensures i < |tokens| && tokens[i] == c.opening
    ensures Run(c, g, tokens[..i]) == Success(Dormant)
    ensures Run(c, g, tokens).value.body == tokens[i + 1..] && c.closing !in tokens[i + 1..]
  {
    hide Shown;
    var n := |tokens| - 1;
    var before := Run(c, g, tokens[..n]).value;
    if before.Dormant? {
      i := n;
    } else {
      i := BodyIsSinceOpening(c, g, tokens[..n]);
      assert tokens[..n][..i] == tokens[..i];
      assert tokens[i + 1..] == tokens[..n][i + 1..] + [tokens[n]];
    }
  }

  /** Every close of a run happens at the closing marker, and only when the grammar, after exactly the tokens
      since the marker that opened the region, permitted its primary EOS. */
  lemma {:induction false} ClosesOnlyWhenAccepting(c: Config, g: Grammar, tokens: seq<int>, n: nat) returns (i: nat)
    requires ValidConfig(c) && n < |tokens| && Run(c, g, tokens[..n]).Success? && Run(c, g, tokens[..n]).value.Open?
    requires Run(c, g, tokens[..n + 1]) == Success(Dormant)
    ensures i < n && tokens[i] == c.opening && Run(c, g, tokens[..i]) == Success(Dormant)
    ensures c.closing !in tokens[i + 1..n] && tokens[n] == c.closing
    ensures Accepting(c, g, tokens[i + 1..n])
  {
    hide Shown, Allowed, Steps;
    i := BodyIsSinceOpening(c, g, tokens[..n]);
    assert tokens[..n][..i] == tokens[..i] && tokens[..n][i + 1..] == tokens[i + 1..n];
    assert tokens[..n + 1] == tokens[..n] + [tokens[n]];
    RunSnoc(c, g, tokens[..n], tokens[n]);
    ClosingShown(c, g, tokens[i + 1..n]);
  }

  lemma {:induction false} ClosingShown(c: Config, g: Grammar, body: seq<int>)
    requires ValidConfig(c) && |g.mask(body)| == Words(c)
    ensures Allowed(Shown(c, g.mask(body)), c.closing) <==> Accepting(c, g, body)
  {
    hide Allowed, Shown;
    ShownMeaning(c, g.mask(body));
  }

  // ----- the mask of an open region

  /** The words after every EOS of the first n has been cleared. */
  function ClearAll(m: Mask, tokens: seq<nat>, n: nat): (r: Mask)
    requires n <= |tokens| && forall i | 0 <= i < n :: tokens[i] / 32 < |m|
    ensures |r| == |m|
  {
    if n == 0 then m else Clear(ClearAll(m, tokens, n - 1), tokens[n - 1])
  }

  lemma {:induction false} ClearAllAllowed(m: Mask, tokens: seq<nat>, n: nat, u: nat)
    requires n <= |tokens| && forall i | 0 <= i < n :: tokens[i] / 32 < |m|
    ensures Allowed(ClearAll(m, tokens, n), u) <==> Allowed(m, u) && u !in tokens[..n]
  {
    if 0 < n {
      hide Allowed, Clear;
      ClearAllAllowed(m, tokens, n - 1, u);
      ClearOne(ClearAll(m, tokens, n - 1), tokens[n - 1], u);
      assert tokens[..n] == tokens[..n - 1] + [tokens[n - 1]];
    }
  }

  /** The mask an open region shows: no EOS, no opening marker, and the closing marker exactly when the
      grammar would have allowed its primary EOS. */
  ghost predicate DelimitedMask(c: Config, body: Mask, m: Mask)
    requires ValidConfig(c)
  {
    && |m| == |body|
    && forall t: nat :: Allowed(m, t) <==>
         && t !in c.eosTokens && t != c.opening
         && if t == c.closing then Allowed(body, c.eosTokens[0]) else Allowed(body, t)
  }

  /** The words an open region shows over the words of its body. */
  function Shown(c: Config, body: Mask): (m: Mask)
    requires ValidConfig(c) && |body| == Words(c)
    ensures |m| == |body|
  {
    WordsCover(c);
    var cleared := Clear(ClearAll(body, c.eosTokens, |c.eosTokens|), c.closing);
    Clear(if Allowed(body, c.eosTokens[0]) then Set(cleared, c.closing) else cleared, c.opening)
  }

  /** Which tokens those words allow. */
  lemma {:induction false} ShownMeaning(c: Config, body: Mask)
    requires ValidConfig(c) && |body| == Words(c)
    ensures DelimitedMask(c, body, Shown(c, body))
  {
    hide Allowed, Clear, Set, ClearAll, DelimitedMask;
    WordsCover(c);
    OpenMaskMeaning(c, body, Shown(c, body), Allowed(body, c.eosTokens[0]));
  }

  // ----- runs that pick what the mask shows

  /** The sampler may pick t: anything while no mask applies, otherwise a token of the vocabulary whose bit is
      set in the words that are ready. */
  ghost predicate Offered(c: Config, g: Grammar, st: Status, t: int)
    requires ValidConfig(c)
  {
    var shown := Ready(c, g, st);
    shown.Success? && (shown.value == [] || (0 <= t < c.vocabSize && Allowed(shown.value, t)))
  }

  /** Every token was offered when it was chosen. */
  ghost predicate RespectsMasks(c: Config, g: Grammar, tokens: seq<int>)
    requires ValidConfig(c)
  {
    forall n | 0 <= n < |tokens| && Run(c, g, tokens[..n]).Success? ::
          Offered(c, g, Run(c, g, tokens[..n]).value, tokens[n])
  }

  /** The grammar commits what its own mask allows. */
  ghost predicate MaskSound(c: Config, g: Grammar) {
    forall body: seq<int>, t: nat | t < c.vocabSize && Allowed(g.mask(body), t) :: g.accepts(body, t)
  }

  /** What an open region's words keep out, and what they let through commits. */
  lemma {:induction false} OfferedSteps(c: Config, g: Grammar, st: Status, t: int)
    requires ValidConfig(c) && MaskSound(c, g) && Offered(c, g, st, t)
    ensures Step(c, g, st, t).Success?
    ensures st.Open? ==> t !in c.eosTokens && t != c.opening && (t == c.closing ==> Accepting(c, g, st.body))
  {
    hide Allowed, Shown;
    if st.Open? {
      WordsCover(c);
      ShownMeaning(c, g.mask(st.body));
    }
  }

  /** Position n of a run holds nothing that an open region must not. */
  ghost predicate CleanAt(c: Config, g: Grammar, tokens: seq<int>, n: nat)
    requires ValidConfig(c) && n < |tokens|
  {
    && Run(c, g, tokens[..n]).Success?
    && (Run(c, g, tokens[..n]).value.Open? ==>
          && tokens[n] !in c.eosTokens && tokens[n] != c.opening
          && (tokens[n] == c.closing ==> Accepting(c, g, Run(c, g, tokens[..n]).value.body)))
  }

  /** A run that only picks what the words show never faults, and at no position puts an EOS or an opening marker
      inside an open region or closes one the grammar would not end. */
  lemma {:induction false} MaskedRunsAreClean(c: Config, g: Grammar, tokens: seq<int>)
    requires ValidConfig(c) && MaskSound(c, g) && RespectsMasks(c, g, tokens)
    ensures Run(c, g, tokens).Success? && forall n | 0 <= n < |tokens| :: CleanAt(c, g, tokens, n)
  {
    hide Run, Step, Offered, MaskSound;
    forall n | 0 <= n < |tokens| ensures CleanAt(c, g, tokens, n) {
      MaskedPrefix(c, g, tokens, n);
      OfferedSteps(c, g, Run(c, g, tokens[..n]).value, tokens[n]);
    }
    MaskedPrefix(c, g, tokens, |tokens|);
    assert tokens[..|tokens|] == tokens;
  }

  lemma {:induction false} MaskedPrefix(c: Config, g: Grammar, tokens: seq<int>, n: nat)
    requires ValidConfig(c) && MaskSound(c, g) && RespectsMasks(c, g, tokens) && n <= |tokens|
    ensures Run(c, g, tokens[..n]).Success?
    decreases n
  {
    hide Step, Steps, Offered, MaskSound;
    if n == 0 {
      NothingRun(c, g, tokens[..0]);
    } else {
      MaskedPrefix(c, g, tokens, n - 1);
      assert tokens[..n] == tokens[..n - 1] + [tokens[n - 1]];
      RunSnoc(c, g, tokens[..n - 1], tokens[n - 1]);
      OfferedSteps(c, g, Run(c, g, tokens[..n - 1]).value, tokens[n - 1]);
    }
  }

  lemma {:induction false} NothingRun(c: Config, g: Grammar, none: seq<int>)
    requires ValidConfig(c) && none == []
    ensures Run(c, g, none) == Success(Dormant)
  {}

  /** So the body is exactly what follows the last opening marker of the whole history. */
  lemma {:induction false} MaskedBodyFollowsLastMarker(c: Config, g: Grammar, tokens: seq<int>) returns (i: nat)
    requires ValidConfig(c) && MaskSound(c, g) && RespectsMasks(c, g, tokens)
    requires Run(c, g, tokens).Success? && Run(c, g, tokens).value.Open?
    ensures i < |tokens| && tokens[i] == c.opening && c.opening !in tokens[i + 1..]
    ensures Run(c, g, tokens).value.body == tokens[i + 1..]
  {
    hide Run, RespectsMasks, MaskSound;
    MaskedRunsAreClean(c, g, tokens);
    i := BodyIsSinceOpening(c, g, tokens);
    forall n | i < n < |tokens| ensures tokens[n] != c.opening {
      assert CleanAt(c, g, tokens, n);
      StaysOpen(c, g, tokens, i, n);
    }
  }

  /** Between its opening marker and the present, an open region was open all along. */
  lemma {:induction false} StaysOpen(c: Config, g: Grammar, tokens: seq<int>, i: nat, n: nat)
    requires ValidConfig(c) && i < n <= |tokens| && tokens[i] == c.opening && c.closing !in tokens[i + 1..]
    requires Run(c, g, tokens[..i]) == Success(Dormant) && Run(c, g, tokens[..n]).Success?
    ensures Run(c, g, tokens[..n]).value.Open?
    decreases n
  {
    hide Steps, Shown;
    assert tokens[..n] == tokens[..n - 1] + [tokens[n - 1]];
    RunSnoc(c, g, tokens[..n - 1], tokens[n - 1]);
    if i + 1 < n {
      assert tokens[n - 1] in tokens[i + 1..];
      StaysOpen(c, g, tokens, i, n - 1);
    }
  }

  // ----- the objects

  /** The wrapped grammar cursor. */
  class GrammarCursor {
    const grammar: Grammar
    var committed: seq<int>

    constructor (grammar: Grammar)
      ensures this.grammar == grammar && committed == []
    {
      this.grammar := grammar;
      committed := [];
    }

    method Commit(t: int) returns (ok: bool)
      modifies this
      ensures ok == grammar.accepts(old(committed), t)
      ensures committed == if ok then old(committed) + [t] else old(committed)
    {
      ok := grammar.accepts(committed, t);
      if ok { committed := committed + [t]; }
    }

    method Reset()
      modifies this
      ensures committed == []
    {
      committed := [];
    }

    method Clone() returns (copy: GrammarCursor)
      ensures fresh(copy) && copy.grammar == grammar && copy.committed == committed
    {
      copy := new GrammarCursor(grammar);
      copy.committed := committed;
    }
  }

  class DelimitedProcessor {
    const config: Config
    const body: GrammarCursor
    var active: bool
    var mask: Mask

    constructor (config: Config, body: GrammarCursor)
      requires ValidConfig(config)
      ensures this.config == config && this.body == body && !active
    {
      this.config := config;
      this.body := body;
      active := false;
      mask := [];
    }

    /** The throwing constructor: distinct markers inside the vocabulary, and EOS ids inside it that are neither. */
    static method Create(body: Option<GrammarCursor>, vocabSize: nat, eosTokens: seq<int>, opening: int, closing: int)
      returns (r: Option<DelimitedProcessor>)
      ensures r.Some? <==>
                && body.Some? && 0 <= opening < vocabSize && 0 <= closing < vocabSize && opening != closing
                && eosTokens != []
                && forall i | 0 <= i < |eosTokens| ::
                    0 <= eosTokens[i] < vocabSize && eosTokens[i] != opening && eosTokens[i] != closing
      ensures r.Some? ==>
                && fresh(r.value) && r.value.body == body.value && r.value.Current() == Dormant
                && ValidConfig(r.value.config) && r.value.config == Config(vocabSize, eosTokens, opening, closing)
    {
      if body.None? || opening < 0 || closing < 0 || opening == closing || opening >= vocabSize || closing >= vocabSize
          || eosTokens == [] {
        return None;
      }
      for i := 0 to |eosTokens|
        invariant forall j | 0 <= j < i ::
                    0 <= eosTokens[j] < vocabSize && eosTokens[j] != opening && eosTokens[j] != closing
      {
        if eosTokens[i] < 0 || eosTokens[i] >= vocabSize || eosTokens[i] == opening
            || eosTokens[i] == closing { return None; }
      }
      var p := new DelimitedProcessor(Config(vocabSize, eosTokens, opening, closing), body.value);
      r := Some(p);
    }

    function Current(): Status
      reads this, body
    {
      if active then Open(body.committed) else Dormant
    }

    /** The mask to apply: none while dormant. */
    method GetReadyMask() returns (r: Result<Mask, Fault>)
      requires ValidConfig(config)
      modifies this`mask
      ensures r == Ready(config, body.grammar, Current())
      ensures r == Success([]) <==> !active
      ensures r.Failure? <==> active && |body.grammar.mask(body.committed)| != Words(config)
      ensures r.Success? && active ==> DelimitedMask(config, body.grammar.mask(body.committed), r.value)
    {
      hide Shown, DelimitedMask;
      if !active { return Success([]); }
      var bodyMask := body.grammar.mask(body.committed);
      if |bodyMask| != Words(config) { return Failure(NoReadyMask); }
      mask := OpenMask(config, bodyMask);
      return Success(mask);
    }

    /** Commits tokens in order up to the first fault. */
    method CommitTokens(tokens: seq<int>) returns (done: nat, fault: Option<Fault>, ghost reached: Status)
      requires ValidConfig(config)
      modifies this, body
      ensures done <= |tokens| && Current() == reached
      ensures Steps(config, body.grammar, old(Current()), tokens[..done]) == Success(reached)
      ensures fault.None? <==> done == |tokens|
      ensures fault.Some? ==>
                done < |tokens| && Step(config, body.grammar, reached, tokens[done]) == Failure(fault.value)
    {
      hide Step;
      done, fault := 0, None;
      ghost var start := Current();
      while done < |tokens|
        invariant done <= |tokens|
        invariant Steps(config, body.grammar, start, tokens[..done]) == Success(Current())
      {
        assert tokens[..done + 1][..done] == tokens[..done];
        fault := CommitOne(tokens[done]);
        if fault.Some? { return done, fault, Current(); }
        done := done + 1;
      }
      assert tokens[..done] == tokens;
      return done, None, Current();
    }

    method CommitOne(t: int) returns (fault: Option<Fault>)
      requires ValidConfig(config)
      modifies this, body
      ensures Step(config, body.grammar, old(Current()), t) ==
              if fault.Some? then Failure(fault.value) else Success(Current())
      ensures fault.Some? ==> Current() == old(Current())
    {
      hide Shown, Allowed, DelimitedMask;
      if !active {
        if t == config.opening {
          body.Reset();
          active := true;
        }
        return None;
      }
      if t == config.closing {
        var m := GetReadyMask();
        if m.Failure? { return Some(m.error); }
        if !Allowed(m.value, config.closing) { return Some(Premature); }
        active := false;
        mask := [];
        return None;
      }
      var ok := body.Commit(t);
      if !ok { return Some(Rejected); }
      mask := [];
      return None;
    }

    method Reset()
      modifies this, body
      ensures Current() == Dormant
    {
      active := false;
      mask := [];
      body.Reset();
    }

    /** An independent processor in the same status. */
    method Clone() returns (copy: DelimitedProcessor)
      requires ValidConfig(config)
      ensures fresh(copy) && fresh(copy.body)
      ensures copy.config == config && copy.body.grammar == body.grammar && copy.Current() == Current()
    {
      var b := body.Clone();
      copy := new DelimitedProcessor(config, b);
      copy.active := active;
    }
  }

  /** A sampler picks, after some history, a token the mask leaves it, or stops. */
  ghost predicate PicksShown(c: Config, sampler: (seq<int>, Mask) -> Option<int>) {
    forall history, m | m != [] && sampler(history, m).Some? :: InMask(c, m, sampler(history, m).value)
  }

  predicate InMask(c: Config, m: Mask, t: int) {
    0 <= t < c.vocabSize && Allowed(m, t)
  }

  /** Masks and commits alternate for up to steps tokens, on a processor that is dormant. As long as the grammar has
      a mask ready nothing faults, and the history is clean at every position. */
  method Generate(p: DelimitedProcessor, sampler: (seq<int>, Mask) -> Option<int>, steps: nat)
    returns (history: seq<int>, ready: bool)
    requires ValidConfig(p.config) && p.Current() == Dormant
    requires MaskSound(p.config, p.body.grammar) && PicksShown(p.config, sampler)
    modifies p, p.body
    ensures |history| <= steps && RespectsMasks(p.config, p.body.grammar, history)
    ensures Run(p.config, p.body.grammar, history) == Success(p.Current())
    ensures forall n | 0 <= n < |history| :: CleanAt(p.config, p.body.grammar, history, n)
    ensures !ready ==> p.Current().Open? && Ready(p.config, p.body.grammar, p.Current()).Failure?
    ensures AllSampled(p.config, p.body.grammar, sampler, history)
    ensures |history| < steps && ready ==>
              var shown := Ready(p.config, p.body.grammar, p.Current());
              shown.Success? && sampler(history, shown.value).None?
  {
    hide Run, Step, MaskSound, CleanAt, RespectsMasks, DelimitedMask, AllSampled, Shown;
    ghost var c, g := p.config, p.body.grammar;
    history, ready := [], true;
    NothingSampled(c, g, sampler, history);
    NothingRun(c, g, history);
    NothingPicked(c, g, history);
    for i := 0 to steps
      invariant |history| == i && ready && RespectsMasks(c, g, history) && Run(c, g, history) == Success(p.Current())
      invariant AllSampled(c, g, sampler, history)
    {
      var m := p.GetReadyMask();
      if m.Failure? {
        ready := false;
        break;
      }
      var pick := sampler(history, m.value);
      if pick.None? { break; }
      assert m.value != [] ==> InMask(c, m.value, pick.value);
      OfferedSteps(c, g, p.Current(), pick.value);
      OnePicked(c, g, history, p.Current(), pick.value);
      OneSampled(c, g, sampler, history, p.Current(), m.value);
      RunSnoc(c, g, history, pick.value);
      OneStep(c, g, p.Current(), pick.value);
      var done, fault, reached := p.CommitTokens([pick.value]);
      OneCommitted([pick.value], done);
      history := history + [pick.value];
    }
    MaskedRunsAreClean(c, g, history);
  }

  /** Every token is what the sampler picked from the mask that was ready then. */
  ghost predicate AllSampled(c: Config, g: Grammar, sampler: (seq<int>, Mask) -> Option<int>, history: seq<int>)
    requires ValidConfig(c)
  {
    forall n | 0 <= n < |history| :: SampledAt(c, g, sampler, history, n)
  }

  ghost predicate SampledAt(c: Config, g: Grammar, sampler: (seq<int>, Mask) -> Option<int>, history: seq<int>, n: nat)
    requires ValidConfig(c) && n < |history|
  {
    var before := Run(c, g, history[..n]);
    before.Success? &&
    var shown := Ready(c, g, before.value);
    shown.Success? && sampler(history[..n], shown.value) == Some(history[n])
  }

  lemma {:induction false} NothingSampled(c: Config, g: Grammar, sampler: (seq<int>, Mask) -> Option<int>,
                                          none: seq<int>)
    requires ValidConfig(c) && none == []
    ensures AllSampled(c, g, sampler, none)
  {}

  lemma {:induction false} OneSampled(c: Config, g: Grammar, sampler: (seq<int>, Mask) -> Option<int>,
                                      history: seq<int>, st: Status, m: Mask)
    requires ValidConfig(c) && AllSampled(c, g, sampler, history) && Run(c, g, history) == Success(st)
    requires Ready(c, g, st) == Success(m) && sampler(history, m).Some?
    ensures AllSampled(c, g, sampler, history + [sampler(history, m).value])
  {
    hide Run, Ready;
    var more := history + [sampler(history, m).value];
    forall n | 0 <= n < |more| ensures SampledAt(c, g, sampler, more, n) {
      if n < |history| {
        assert more[..n] == history[..n] && SampledAt(c, g, sampler, history, n);
      } else {
        assert more[..n] == history;
      }
    }
  }

  lemma {:induction false} NothingPicked(c: Config, g: Grammar, none: seq<int>)
    requires ValidConfig(c) && none == []
    ensures RespectsMasks(c, g, none)
  {}

  lemma {:induction false} OnePicked(c: Config, g: Grammar, history: seq<int>, st: Status, t: int)
    requires ValidConfig(c) && RespectsMasks(c, g, history) && Run(c, g, history) == Success(st) && Offered(c, g, st, t)
    ensures RespectsMasks(c, g, history + [t])
  {
    hide Run, Offered;
    var more := history + [t];
    forall n | 0 <= n < |more| && Run(c, g, more[..n]).Success?
        ensures Offered(c, g, Run(c, g, more[..n]).value, more[n]) {
      if n < |history| { assert more[..n] == history[..n]; } else { assert more[..n] == history; }
    }
  }

  lemma {:induction false} OneStep(c: Config, g: Grammar, st: Status, t: int)
    requires ValidConfig(c)
    ensures Steps(c, g, st, [t]) == Step(c, g, st, t) && Steps(c, g, st, []) == Success(st)
  {
    hide Step;
    assert [t][..0] == [];
  }

  lemma {:induction false} OneCommitted(tokens: seq<int>, done: nat)
    requires |tokens| == 1 && done <= 1
    ensures tokens[..done] == if done == 0 then [] else tokens
  {}

  /** A clone continues like the original: whatever is committed next, both stop at the same token with the same
      fault and then show the same mask, and neither moves the other. */
  method CloneContinues(p: DelimitedProcessor, tokens: seq<int>)
    returns (copy: DelimitedProcessor, done: nat, fault: Option<Fault>, shown: Result<Mask, Fault>, done': nat,
      fault': Option<Fault>, shown': Result<Mask, Fault>)
    requires ValidConfig(p.config)
    modifies p, p.body
    ensures fresh(copy) && fresh(copy.body) && done <= |tokens|
    ensures done == done' && fault == fault' && shown == shown' && copy.Current() == p.Current()
    ensures Steps(p.config, p.body.grammar, old(p.Current()), tokens[..done]) == Success(p.Current())
  {
    hide Step, Steps, Shown, DelimitedMask;
    copy := p.Clone();
    ghost var st := p.Current();
    ghost var reached, reached';
    done, fault, reached := p.CommitTokens(tokens);
    assert copy.Current() == st;
    done', fault', reached' := copy.CommitTokens(tokens);
    SameStop(p.config, p.body.grammar, st, tokens, done, fault, reached, done', fault', reached');
    shown := p.GetReadyMask();
    shown' := copy.GetReadyMask();
  }

  /** Where a run of commits stops is a function of the status and the tokens. */
  ghost predicate Stopped(c: Config, g: Grammar, st: Status, tokens: seq<int>, done: nat, fault: Option<Fault>,
                          reached: Status)
    requires ValidConfig(c)
  {
    && done <= |tokens| && Steps(c, g, st, tokens[..done]) == Success(reached)
    && (fault.None? <==> done == |tokens|)
    && (fault.Some? ==> done < |tokens| && Step(c, g, reached, tokens[done]) == Failure(fault.value))
  }

  lemma {:induction false} SameStop(c: Config, g: Grammar, st: Status, tokens: seq<int>, done: nat,
                                    fault: Option<Fault>, reached: Status, done': nat, fault': Option<Fault>,
                                    reached': Status)
    requires ValidConfig(c) && Stopped(c, g, st, tokens, done, fault, reached)
             && Stopped(c, g, st, tokens, done', fault', reached')
    ensures done == done' && fault == fault' && reached == reached'
  {
    hide Step, Steps;
    if done < done' {
      PastFault(c, g, st, tokens, done, done');
    } else if done' < done {
      PastFault(c, g, st, tokens, done', done);
    }
  }

  /** Beyond a fault there is no status. */
  lemma {:induction false} PastFault(c: Config, g: Grammar, st: Status, tokens: seq<int>, k: nat, n: nat)
    requires ValidConfig(c) && k < n <= |tokens| && Steps(c, g, st, tokens[..k]).Success?
    requires Step(c, g, Steps(c, g, st, tokens[..k]).value, tokens[k]).Failure?
    ensures Steps(c, g, st, tokens[..n]).Failure?
    decreases n
  {
    hide Step;
    assert tokens[..n][..n - 1] == tokens[..n - 1];
    if k + 1 < n { PastFault(c, g, st, tokens, k, n - 1); }
  }

  /** Builds the open-region mask word by word. */
  method OpenMask(c: Config, bodyMask: Mask) returns (m: Mask)
    requires ValidConfig(c) && |bodyMask| == Words(c)
    ensures m == Shown(c, bodyMask) && DelimitedMask(c, bodyMask, m)
  {
    hide Allowed, Clear, Set, DelimitedMask;
    m := bodyMask;
    WordsCover(c);
    var accepting := Allowed(m, c.eosTokens[0]);
    for i := 0 to |c.eosTokens|
      invariant m == ClearAll(bodyMask, c.eosTokens, i)
    {
      m := Clear(m, c.eosTokens[i]);
    }
    SameLength(m, c.closing);
    m := Clear(m, c.closing);
    SameLength(m, c.closing);
    if accepting { m := Set(m, c.closing); }
    m := Clear(m, c.opening);
    ShownMeaning(c, bodyMask);
  }

  lemma {:induction false} WordsCover(c: Config)
    ensures forall t: nat | t < c.vocabSize :: t / 32 < Words(c)
  {}

  lemma {:induction false} OpenMaskMeaning(c: Config, bodyMask: Mask, m: Mask, accepting: bool)
    requires ValidConfig(c) && |bodyMask| == Words(c) && accepting == Allowed(bodyMask, c.eosTokens[0])
    requires forall t: nat | t < c.vocabSize :: t / 32 < Words(c)
    requires var cleared := Clear(ClearAll(bodyMask, c.eosTokens, |c.eosTokens|), c.closing);
             m == Clear(if accepting then Set(cleared, c.closing) else cleared, c.opening)
    ensures DelimitedMask(c, bodyMask, m)
  {
    hide Allowed, Clear, Set, ClearAll;
    var e := ClearAll(bodyMask, c.eosTokens, |c.eosTokens|);
    SameLength(e, c.closing);
    var cleared := Clear(e, c.closing);
    var marked := if accepting then Set(cleared, c.closing) else cleared;
    SameLength(cleared, c.closing);
    SameLength(marked, c.opening);
    forall t: nat ensures Allowed(m, t) <==>
      t !in c.eosTokens && t != c.opening && if t == c.closing then Allowed(bodyMask, c.eosTokens[0])
        else Allowed(bodyMask, t)
    {
      ClearAllAllowed(bodyMask, c.eosTokens, |c.eosTokens|, t);
      assert c.eosTokens[..|c.eosTokens|] == c.eosTokens;
      ClearOne(e, c.closing, t);
      if accepting { SetOne(cleared, c.closing, t); }
      ClearOne(marked, c.opening, t);
    }
  }

  lemma {:induction false} SameLength(m: Mask, t: nat)
    requires t / 32 < |m|
    ensures |Clear(m, t)| == |m| && |Set(m, t)| == |m|
  {}
}
