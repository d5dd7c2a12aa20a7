/** What whole histories mean for delimited guidance, in terms of where the markers are. */
module DelimitedRuns {
  import opened Common
  import opened DelimitedGuidance

  /** A region is open since the opening marker at i: none was open there, and no closing marker followed. */
  ghost predicate OpenSince(c: Config, tokens: seq<int>, i: nat)
    decreases |tokens|, 0
  {
    && i < |tokens| && tokens[i] == c.opening && c.closing !in tokens[i + 1..]
    && NoneOpen(c, tokens[..i])
  }

  ghost predicate NoneOpen(c: Config, tokens: seq<int>)
    decreases |tokens|, 1
  {
    forall j | 0 <= j < |tokens| :: !OpenSince(c, tokens, j)
  }

  /** Where the region stands after a history. */
  ghost predicate StandsAt(c: Config, tokens: seq<int>, st: Status) {
    match st
    case Dormant => NoneOpen(c, tokens)
    case Open(body) => exists i :: 0 <= i < |tokens| && OpenSince(c, tokens, i) && body == tokens[i + 1..]
  }

  /** The grammar lets token t through after the body: it may end at the closing marker, and accepts any other. */
  ghost predicate LetsThrough(c: Config, g: Grammar, body: seq<int>, t: int)
    requires ValidConfig(c)
  {
    if t == c.closing then |g.mask(body)| == Words(c) && Accepting(c, g, body) else g.accepts(body, t)
  }

  /** Why it does not. */
  ghost function Refusal(c: Config, g: Grammar, body: seq<int>, t: int): Fault {
    if t != c.closing then Rejected else if |g.mask(body)| != Words(c) then NoReadyMask else Premature
  }

  // ----- one more token

  lemma {:induction false} OpenAfter(c: Config, tokens: seq<int>, t: int, i: nat)
    requires i < |tokens|
    ensures OpenSince(c, tokens + [t], i) <==> OpenSince(c, tokens, i) && t != c.closing
  {
    var more := tokens + [t];
    assert more[..i] == tokens[..i] && more[i + 1..] == tokens[i + 1..] + [t];
  }

  lemma {:induction false} OpensHere(c: Config, tokens: seq<int>, t: int)
    ensures OpenSince(c, tokens + [t], |tokens|) <==> t == c.opening && NoneOpen(c, tokens)
  {
    var more := tokens + [t];
    assert more[..|tokens|] == tokens && more[|tokens| + 1..] == [];
  }

  /** At most one region is open. */
  lemma {:induction false} OpenOnce(c: Config, tokens: seq<int>, i: nat, j: nat)
    requires OpenSince(c, tokens, i) && OpenSince(c, tokens, j) && i <= j
    ensures i == j
  {
    if i < j { OpenEarlier(c, tokens, i, j); }
  }

  /** A region that is still open was open all the time. */
  lemma {:induction false} OpenEarlier(c: Config, tokens: seq<int>, i: nat, j: nat)
    requires OpenSince(c, tokens, i) && i < j <= |tokens|
    ensures OpenSince(c, tokens[..j], i)
  {
    var before := tokens[..j];
    assert before[..i] == tokens[..i];
    var rest := before[i + 1..];
    forall k | 0 <= k < |rest| ensures rest[k] != c.closing {
      assert rest[k] == tokens[i + 1..][k];
    }
  }

  /** Statuses are fixed by the history. */
  lemma {:induction false} StandsOnce(c: Config, tokens: seq<int>, st: Status, st': Status)
    requires StandsAt(c, tokens, st) && StandsAt(c, tokens, st')
    ensures st == st'
  {
    hide OpenSince;
    if st.Open? && st'.Open? {
      var i :| 0 <= i < |tokens| && OpenSince(c, tokens, i) && st.body == tokens[i + 1..];
      var j :| 0 <= j < |tokens| && OpenSince(c, tokens, j) && st'.body == tokens[j + 1..];
      if i <= j { OpenOnce(c, tokens, i, j); } else { OpenOnce(c, tokens, j, i); }
    } else if st.Open? {
      IsOpen(c, tokens, st);
    } else if st'.Open? {
      IsOpen(c, tokens, st');
    }
  }

  lemma {:induction false} IsOpen(c: Config, tokens: seq<int>, st: Status)
    requires st.Open? && StandsAt(c, tokens, st)
    ensures !NoneOpen(c, tokens)
  {
    var i :| 0 <= i < |tokens| && OpenSince(c, tokens, i) && st.body == tokens[i + 1..];
  }

  lemma {:induction false} IsNoneOpen(c: Config, tokens: seq<int>)
    requires forall j | 0 <= j < |tokens| :: !OpenSince(c, tokens, j)
    ensures NoneOpen(c, tokens) && StandsAt(c, tokens, Dormant)
  {}

  lemma {:induction false} StandsAfterDormant(c: Config, tokens: seq<int>, t: int)
    requires NoneOpen(c, tokens)
    ensures StandsAt(c, tokens + [t], if t == c.opening then Open([]) else Dormant)
  {
    hide OpenSince;
    var more := tokens + [t];
    OpensHere(c, tokens, t);
    if t == c.opening {
      assert OpenSince(c, more, |tokens|) && more[|tokens| + 1..] == [];
    } else {
      forall i | 0 <= i < |more| ensures !OpenSince(c, more, i) {
        if i < |tokens| { OpenAfter(c, tokens, t, i); }
      }
      IsNoneOpen(c, more);
    }
  }

  lemma {:induction false} StandsAfterOpen(c: Config, tokens: seq<int>, st: Status, t: int)
    requires st.Open? && StandsAt(c, tokens, st)
    ensures StandsAt(c, tokens + [t], if t == c.closing then Dormant else Open(st.body + [t]))
  {
    hide OpenSince;
    var more := tokens + [t];
    var i :| 0 <= i < |tokens| && OpenSince(c, tokens, i) && st.body == tokens[i + 1..];
    OpensHere(c, tokens, t);
    if t == c.closing {
      forall j | 0 <= j < |more| ensures !OpenSince(c, more, j) {
        if j < |tokens| { OpenAfter(c, tokens, t, j); } else { IsOpen(c, tokens, st); }
      }
      IsNoneOpen(c, more);
    } else {
      OpenAfter(c, tokens, t, i);
      assert more[i + 1..] == tokens[i + 1..] + [t];
    }
  }

  // ----- the machine is what the markers say

  /** One step of the machine, in terms of the grammar. */
  lemma {:induction false} StepIs(c: Config, g: Grammar, st: Status, t: int)
    requires ValidConfig(c)
    ensures st.Dormant? ==> Step(c, g, st, t) == Success(if t == c.opening then Open([]) else Dormant)
    ensures st.Open? && LetsThrough(c, g, st.body, t) ==>
              Step(c, g, st, t) == Success(if t == c.closing then Dormant else Open(st.body + [t]))
    ensures st.Open? && !LetsThrough(c, g, st.body, t) ==> Step(c, g, st, t) == Failure(Refusal(c, g, st.body, t))
  {
    hide Shown, Allowed;
    if st.Open? && |g.mask(st.body)| == Words(c) { ClosingShown(c, g, st.body); }
  }

  /** Every token of the history was let through when it came inside an open region. */
  ghost predicate AllFit(c: Config, g: Grammar, tokens: seq<int>)
    requires ValidConfig(c)
  {
    forall n | 0 <= n < |tokens| :: FitsAt(c, g, tokens, n)
  }

  ghost predicate FitsAt(c: Config, g: Grammar, tokens: seq<int>, n: nat)
    requires ValidConfig(c) && n < |tokens|
  {
    forall body | StandsAt(c, tokens[..n], Open(body)) :: LetsThrough(c, g, body, tokens[n])
  }

  /** A run succeeds exactly if every token fits, and then it stands where the markers say. */
  lemma {:induction false} RunIs(c: Config, g: Grammar, tokens: seq<int>)
    requires ValidConfig(c)
    ensures Run(c, g, tokens).Success? <==> AllFit(c, g, tokens)
    ensures Run(c, g, tokens).Success? ==> StandsAt(c, tokens, Run(c, g, tokens).value)
  {
    hide StandsAt, LetsThrough, Step, Steps, FitsAt, Run;
    if tokens == [] {
      NothingRun(c, g, tokens);
      NothingStands(c, tokens);
    } else {
      var n := |tokens| - 1;
      var before, t := tokens[..n], tokens[n];
      assert tokens == before + [t];
      RunIs(c, g, before);
      RunSnoc(c, g, before, t);
      FitMore(c, g, before, t);
      if Run(c, g, before).Success? { OneMore(c, g, before, t, Run(c, g, before).value); }
    }
  }

  lemma {:induction false} NothingStands(c: Config, none: seq<int>)
    requires none == []
    ensures StandsAt(c, none, Dormant)
  {}

  lemma {:induction false} FitMore(c: Config, g: Grammar, tokens: seq<int>, t: int)
    requires ValidConfig(c)
    ensures AllFit(c, g, tokens + [t]) <==> AllFit(c, g, tokens) && FitsAt(c, g, tokens + [t], |tokens|)
  {
    hide StandsAt, LetsThrough;
    var more := tokens + [t];
    forall n | 0 <= n < |tokens| ensures FitsAt(c, g, more, n) <==> FitsAt(c, g, tokens, n) {
      assert more[..n] == tokens[..n];
    }
  }

  lemma {:induction false} OneMore(c: Config, g: Grammar, tokens: seq<int>, t: int, st: Status)
    requires ValidConfig(c) && StandsAt(c, tokens, st)
    ensures Step(c, g, st, t).Success? <==> FitsAt(c, g, tokens + [t], |tokens|)
    ensures Step(c, g, st, t).Success? ==> StandsAt(c, tokens + [t], Step(c, g, st, t).value)
  {
    hide StandsAt, LetsThrough, Step;
    assert (tokens + [t])[..|tokens|] == tokens;
    StepIs(c, g, st, t);
    forall body | StandsAt(c, tokens, Open(body)) ensures st == Open(body) {
      StandsOnce(c, tokens, st, Open(body));
    }
    if st.Dormant? {
      DormantStands(c, tokens);
      StandsAfterDormant(c, tokens, t);
    } else {
      StandsAfterOpen(c, tokens, st, t);
    }
  }

  lemma {:induction false} DormantStands(c: Config, tokens: seq<int>)
    requires StandsAt(c, tokens, Dormant)
    ensures NoneOpen(c, tokens)
  {}

  /** A run that fails does so at the first token that does not fit, with the reason the grammar gives. */
  lemma {:induction false} FailsAtFirst(c: Config, g: Grammar, tokens: seq<int>, n: nat, body: seq<int>)
    requires ValidConfig(c) && n < |tokens| && AllFit(c, g, tokens[..n]) && StandsAt(c, tokens[..n], Open(body))
    requires !LetsThrough(c, g, body, tokens[n])
    ensures Run(c, g, tokens) == Failure(Refusal(c, g, body, tokens[n]))
  {
    hide StandsAt, LetsThrough, Step, Steps, AllFit;
    RunIs(c, g, tokens[..n]);
    StandsOnce(c, tokens[..n], Run(c, g, tokens[..n]).value, Open(body));
    StepIs(c, g, Open(body), tokens[n]);
    FailureStays(c, g, tokens, n, n + 1);
    FailureStays(c, g, tokens, n, |tokens|);
    assert tokens[..|tokens|] == tokens;
  }

  lemma {:induction false} FailureStays(c: Config, g: Grammar, tokens: seq<int>, n: nat, m: nat)
    requires ValidConfig(c) && n < m <= |tokens| && Run(c, g, tokens[..n]).Success?
    requires Step(c, g, Run(c, g, tokens[..n]).value, tokens[n]).Failure?
    ensures Run(c, g, tokens[..m]) == Failure(Step(c, g, Run(c, g, tokens[..n]).value, tokens[n]).error)
    decreases m
  {
    hide Step, Run;
    assert tokens[..m] == tokens[..m - 1] + [tokens[m - 1]];
    RunSnoc(c, g, tokens[..m - 1], tokens[m - 1]);
    if n + 1 < m { FailureStays(c, g, tokens, n, m - 1); }
  }

  /** After any history whose regions are all closed every token may be picked, and the opening marker opens one. */
  lemma {:induction false} ClosedOffersAll(c: Config, g: Grammar, tokens: seq<int>, t: int)
    requires ValidConfig(c) && AllFit(c, g, tokens) && NoneOpen(c, tokens)
    ensures Run(c, g, tokens) == Success(Dormant) && Offered(c, g, Dormant, t)
    ensures Run(c, g, tokens + [t]) == Success(if t == c.opening then Open([]) else Dormant)
    ensures RespectsMasks(c, g, tokens) ==> RespectsMasks(c, g, tokens + [t])
  {
    hide OpenSince, NoneOpen, AllFit, Run, RespectsMasks;
    RunIs(c, g, tokens);
    StandsDormant(c, tokens);
    StandsOnce(c, tokens, Run(c, g, tokens).value, Dormant);
    RunSnoc(c, g, tokens, t);
    if RespectsMasks(c, g, tokens) { OnePicked(c, g, tokens, Dormant, t); }
  }

  lemma {:induction false} StandsDormant(c: Config, tokens: seq<int>)
    requires NoneOpen(c, tokens)
    ensures StandsAt(c, tokens, Dormant)
  {}
}
