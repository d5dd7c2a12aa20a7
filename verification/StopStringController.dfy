/**
 Stop strings on tokens: a detokenizer and a matcher behind it. Tokens are undone by starting both afresh and
 feeding them the tokens that are left.
 */
module StopStringControl {
  import opened Common
  import opened StopStringSpec
  import opened StopStringMatching

  /** What a detokenizer stream that has already decoded the given tokens yields for the next one. */
  type Decoder = (seq<int>, int) -> Bytes

  /** All text decoded from tokens by one fresh stream. */
  function Decoded(decode: Decoder, tokens: seq<int>): Bytes {
    if tokens == [] then []
    else
      var before := tokens[..|tokens| - 1];
      Decoded(decode, before) + decode(before, tokens[|tokens| - 1])
  }

  /** The matcher's compaction point after tokens, chunk by chunk. */
  function BeginOf(ps: seq<Bytes>, decode: Decoder, tokens: seq<int>): nat {
    if tokens == [] then 0
    else
      var before := tokens[..|tokens| - 1];
      BeginAfter(ps, Decoded(decode, before), BeginOf(ps, decode, before), decode(before, tokens[|tokens| - 1]))
  }

  /** The matcher's byte count after tokens: chunks that come after a match do not count. */
  function ConsumedOf(ps: seq<Bytes>, decode: Decoder, tokens: seq<int>): nat {
    if tokens == [] then 0
    else
      var before := tokens[..|tokens| - 1];
      ConsumedOf(ps, decode, before) +
      if FirstMatch(ps, Decoded(decode, before)).Some? then 0 else |decode(before, tokens[|tokens| - 1])|
  }

  /** st is what observing exactly these tokens leaves in a fresh matcher whose output is drained. */
  ghost predicate StateOf(ps: seq<Bytes>, decode: Decoder, tokens: seq<int>, st: State) {
    var s := Decoded(decode, tokens);
    && Consistent(ps, st, s, Released(ps, s))
    && st.safe == [] && !st.flushed
    && st.pendingBegin == BeginOf(ps, decode, tokens)
    && st.consumedBytes == ConsumedOf(ps, decode, tokens)
  }

  /** There is only one such state. */
  lemma {:induction false} StateOfUnique(ps: seq<Bytes>, decode: Decoder, tokens: seq<int>, st: State, st': State)
    requires StateOf(ps, decode, tokens, st) && StateOf(ps, decode, tokens, st')
    ensures st == st'
  {
    hide Consistent, Decoded, BeginOf, ConsumedOf, Released;
    var s := Decoded(decode, tokens);
    ConsistentDetermines(ps, st, st', s, Released(ps, s));
  }

  lemma {:induction false} Snoc(ps: seq<Bytes>, decode: Decoder, tokens: seq<int>, token: int)
    ensures var t := tokens + [token]; var chunk := decode(tokens, token); var s := Decoded(decode, tokens);
            && Decoded(decode, t) == s + chunk
            && BeginOf(ps, decode, t) == BeginAfter(ps, s, BeginOf(ps, decode, tokens), chunk)
            && ConsumedOf(ps, decode, t) ==
               ConsumedOf(ps, decode, tokens) + if FirstMatch(ps, s).Some? then 0 else |chunk|
  {
    hide BeginAfter, FirstMatch;
    assert (tokens + [token])[..|tokens|] == tokens;
  }

  class StopStringController {
    const decode: Decoder
    const matcher: StopStringMatcher
    /** The tokens decoded so far by the current tokenizer stream. */
    var stream: seq<int>
    var turnTokens: seq<int>

    /** Stream and matcher are those of a fresh controller that observed exactly turnTokens. */
    ghost predicate Valid()
      reads this, matcher
    {
      && matcher.Valid()
      && stream == turnTokens
      && matcher.fed == Decoded(decode, turnTokens)
      && matcher.published == Released(matcher.stopStrings, matcher.fed)
      && StateOf(matcher.stopStrings, decode, turnTokens, matcher.View())
    }

    constructor (decode: Decoder, ps: seq<Bytes>)
      requires ValidConfig(ps)
      ensures Valid() && fresh(matcher)
      ensures this.decode == decode && matcher.stopStrings == ps && turnTokens == []
    {
      hide Consistent, Decoded, BeginOf, ConsumedOf, Released, NonEmpty, FailureTables, FirstMatch, StateOf,
           InitialState, ValidConfig;
      this.decode := decode;
      matcher := new StopStringMatcher(ps);
      stream := [];
      turnTokens := [];
      new;
      NothingObserved(matcher.stopStrings, decode);
    }

    /** Decodes one token through the stream and feeds the text to the matcher, draining its output. */
    method DecodeIntoMatcher(token: int)
      requires matcher.Valid() && matcher.fed == Decoded(decode, stream)
      requires matcher.published == Released(matcher.stopStrings, matcher.fed)
      requires StateOf(matcher.stopStrings, decode, stream, matcher.View())
      modifies this`stream, matcher
      ensures stream == old(stream) + [token]
      ensures matcher.Valid() && matcher.fed == Decoded(decode, stream)
      ensures matcher.published == Released(matcher.stopStrings, matcher.fed)
      ensures StateOf(matcher.stopStrings, decode, stream, matcher.View())
    {
      hide Consistent, Decoded, BeginOf, ConsumedOf, Released, NonEmpty, FailureTables, FirstMatch, BeginAfter;
      ghost var ps := matcher.stopStrings;
      OpenFacts(ps, matcher.View(), matcher.fed, matcher.published);
      Snoc(ps, decode, stream, token);
      var chunk := decode(stream, token);
      stream := stream + [token];
      var _ := matcher.Consume(chunk);
      var _ := matcher.TakeSafeOutput();
      OpenFacts(ps, matcher.View(), matcher.fed, matcher.published);
      assert matcher.published + matcher.safe == matcher.published;
    }

    /** Records a generated token. The result is the match, if one has completed by now. */
    method ObserveToken(token: int) returns (m: Option<Match>)
      requires Valid()
      modifies this, matcher
      ensures Valid()
      ensures turnTokens == old(turnTokens) + [token]
      ensures m == FirstMatch(matcher.stopStrings, Decoded(decode, turnTokens))
    {
      hide Consistent, Decoded, BeginOf, ConsumedOf, Released, NonEmpty, FailureTables, FirstMatch;
      turnTokens := turnTokens + [token];
      DecodeIntoMatcher(token);
      m := matcher.found;
      OpenFacts(matcher.stopStrings, matcher.View(), matcher.fed, matcher.published);
    }

    /** Undoes every token after the first count ones; a count beyond the history is refused. */
    method RollbackTo(count: nat) returns (ok: bool)
      requires Valid()
      modifies this, matcher
      ensures Valid()
      ensures ok <==> count <= |old(turnTokens)|
      ensures turnTokens == if ok then old(turnTokens)[..count] else old(turnTokens)
    {
      hide Consistent, Decoded, BeginOf, ConsumedOf, Released, NonEmpty, FailureTables, FirstMatch;
      if count > |turnTokens| { return false; }
      if count == |turnTokens| { return true; }
      turnTokens := turnTokens[..count];
      matcher.Reset();
      stream := [];
      NothingObserved(matcher.stopStrings, decode);
      for i := 0 to |turnTokens|
        invariant turnTokens == old(turnTokens)[..count] && i <= |turnTokens| && stream == turnTokens[..i]
        invariant matcher.Valid() && matcher.fed == Decoded(decode, stream)
        invariant matcher.published == Released(matcher.stopStrings, matcher.fed)
        invariant StateOf(matcher.stopStrings, decode, stream, matcher.View())
      {
        DecodeIntoMatcher(turnTokens[i]);
        assert turnTokens[..i] + [turnTokens[i]] == turnTokens[..i + 1];
      }
      assert stream == turnTokens;
      return true;
    }
  }

  lemma {:induction false} NothingObserved(ps: seq<Bytes>, decode: Decoder)
    ensures Decoded(decode, []) == [] && Released(ps, []) == []
    ensures StateOf(ps, decode, [], InitialState(ps))
  {
    InitialConsistent(ps);
  }

  datatype Op = Observe(token: int) | Rollback(count: nat)

  /** The history a script of calls leaves, refused rollbacks having no effect. */
  function TokensAfter(ops: seq<Op>): seq<int> {
    if ops == [] then []
    else
      var before := TokensAfter(ops[..|ops| - 1]);
      match ops[|ops| - 1]
      case Observe(t) => before + [t]
      case Rollback(n) => if n <= |before| then before[..n] else before
  }

  /** Rollback equals replay: after any script of calls, the controller is in exactly the state of a
      fresh one that was only shown the tokens that remain. */
  method RollbackEqualsReplay(decode: Decoder, ps: seq<Bytes>, ops: seq<Op>)
    returns (c: StopStringController, d: StopStringController)
    requires ValidConfig(ps)
    ensures c.Valid() && d.Valid()
    ensures c.turnTokens == d.turnTokens == TokensAfter(ops)
    ensures c.stream == d.stream && c.matcher.View() == d.matcher.View()
    ensures c.matcher.found == FirstMatch(ps, Decoded(decode, TokensAfter(ops)))
  {
    hide StateOf, Decoded, Released, FirstMatch, NonEmpty, FailureTables, Consistent;
    c := new StopStringController(decode, ps);
    for i := 0 to |ops|
      invariant fresh(c) && fresh(c.matcher) && c.Valid() && c.decode == decode && c.matcher.stopStrings == ps
      invariant c.turnTokens == TokensAfter(ops[..i])
    {
      assert ops[..i + 1][..i] == ops[..i];
      match ops[i]
      case Observe(t) => var _ := c.ObserveToken(t);
      case Rollback(n) => var _ := c.RollbackTo(n);
    }
    assert ops[..|ops|] == ops;
    d := ReplayFresh(decode, ps, c.turnTokens);
    StateOfUnique(ps, decode, c.turnTokens, c.matcher.View(), d.matcher.View());
    OpenFacts(ps, c.matcher.View(), c.matcher.fed, c.matcher.published);
  }

  method ReplayFresh(decode: Decoder, ps: seq<Bytes>, tokens: seq<int>) returns (d: StopStringController)
    requires ValidConfig(ps)
    ensures fresh(d) && fresh(d.matcher) && d.Valid()
    ensures d.decode == decode && d.matcher.stopStrings == ps && d.turnTokens == tokens
  {
    hide StateOf, Decoded, Released, FirstMatch, NonEmpty, FailureTables, Consistent;
    d := new StopStringController(decode, ps);
    for i := 0 to |tokens|
      invariant fresh(d) && fresh(d.matcher) && d.Valid() && d.decode == decode && d.matcher.stopStrings == ps
      invariant d.turnTokens == tokens[..i]
    {
      var _ := d.ObserveToken(tokens[i]);
    }
  }
}
