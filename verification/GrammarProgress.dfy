/** Every call of the grammar cache comes to an end: callers never block each other for ever. */
module GrammarProgress {
  import opened Common
  import opened GrammarCache
  import opened GrammarFlight

  /** A call that has neither returned nor thrown. */
  predicate Busy(pc: Pc) {
    !pc.Idle? && !pc.Returned? && !pc.Threw?
  }

  /** How many steps a call still takes at most. */
  function Remaining(pc: Pc): nat {
    match pc
    case Compiling(_, _, _) => 4
    case Compiled(_, _, _, _) => 3
    case Failed(_, _, _) => 2
    case Published(_, _, _) => 1
    case Aborted(_, _) => 1
    case Waiting(_, _) => 1
    case _ => 0
  }

  /** What a caller that owns a promise does next. */
  ghost function OwnStep(c: nat, pc: Pc): Step {
    match pc
    case Compiling(_, _, _) => FinishCompile(c)
    case Compiled(_, _, _, _) => PublishEntry(c)
    case Failed(_, _, _) => EraseEntry(c)
    case _ => Resolve(c)
  }

  /** Whatever has happened, a call that is not over can be continued, by itself or by the one it waits for. */
  lemma {:induction false} NeverStuck(steps: seq<Step>, sys: System, c: nat) returns (next: Step)
    requires After(steps) == Some(sys) && c in sys.callers && Busy(sys.callers[c])
    ensures Enabled(sys, next) && !next.Begin? && Busy(PcOf(sys, next.caller))
    ensures next.caller == c ||
            (sys.callers[c].Waiting? && sys.callers[c].promise < |sys.promises|
             && sys.promises[sys.callers[c].promise].owner == next.caller)
  {
    hide CacheKey, Consistent, After;
    EveryRunKeepsInv(steps);
    var pc := sys.callers[c];
    assert CallerOk(sys, c, pc);
    if pc.Waiting? {
      var promise := sys.promises[pc.promise];
      assert PromiseOk(sys, pc.promise);
      if promise.state.Unset? {
        next := OwnStep(promise.owner, PcOf(sys, promise.owner));
      } else {
        next := Await(c);
      }
    } else {
      next := OwnStep(c, pc);
    }
  }

  /** Every step of a call brings it closer to its end and delays no other call. */
  lemma {:induction false} StepsCount(steps: seq<Step>, sys: System, step: Step)
    requires After(steps) == Some(sys) && Enabled(sys, step) && !step.Begin?
    ensures Remaining(PcOf(Next(sys, step), step.caller)) < Remaining(PcOf(sys, step.caller))
    ensures forall d | d != step.caller :: PcOf(Next(sys, step), d) == PcOf(sys, d)
  {
    hide CacheKey, Consistent, After, Publish, Erase;
    EveryRunKeepsInv(steps);
    if step.Resolve? || step.PublishEntry? { assert CallerOk(sys, step.caller, sys.callers[step.caller]); }
  }

  /** The steps that all calls together still take. */
  ghost function Pending(callers: map<nat, Pc>): nat
    decreases |callers|
  {
    if callers == map[] then 0
    else
      var c :| c in callers;
      Remaining(callers[c]) + Pending(callers - {c})
  }

  lemma {:induction false} PendingWithout(callers: map<nat, Pc>, c: nat)
    requires c in callers
    ensures Pending(callers) == Remaining(callers[c]) + Pending(callers - {c})
    decreases |callers|
  {
    hide Remaining;
    var d :| d in callers && Pending(callers) == Remaining(callers[d]) + Pending(callers - {d});
    if d != c {
      PendingWithout(callers - {d}, c);
      PendingWithout(callers - {c}, d);
      assert callers - {d} - {c} == callers - {c} - {d};
    }
  }

  lemma {:induction false} PendingLess(steps: seq<Step>, sys: System, step: Step)
    requires After(steps) == Some(sys) && Enabled(sys, step) && !step.Begin? && step.caller in sys.callers
    ensures Pending(Next(sys, step).callers) < Pending(sys.callers)
  {
    hide Pending, Remaining, After, Enabled;
    StepsCount(steps, sys, step);
    CallersAfter(sys, step);
    var c := step.caller;
    PendingWithout(sys.callers, c);
    PendingWithout(Next(sys, step).callers, c);
    assert Next(sys, step).callers - {c} == sys.callers - {c};
  }

  lemma {:induction false} CallersAfter(sys: System, step: Step)
    requires Enabled(sys, step) && step.caller in sys.callers
    ensures Next(sys, step).callers == sys.callers[step.caller := PcOf(Next(sys, step), step.caller)]
  {
    hide CacheKey, Publish, Erase, Lookup, LookupFound;
  }

  /** Every run can be continued, without new calls, to one in which all calls are over, in at most so many steps. */
  lemma {:induction false} EveryCallEnds(steps: seq<Step>) returns (more: seq<Step>)
    requires After(steps).Some?
    ensures After(steps + more).Some? && |more| <= Pending(After(steps).value.callers)
    ensures forall i | 0 <= i < |more| :: !more[i].Begin?
    ensures forall c | c in After(steps + more).value.callers :: !Busy(After(steps + more).value.callers[c])
    decreases Pending(After(steps).value.callers)
  {
    hide Pending, Next, Enabled, Busy;
    var sys := After(steps).value;
    if c :| c in sys.callers && Busy(sys.callers[c]) {
      var step := NeverStuck(steps, sys, c);
      BusyIsThere(sys, step);
      PendingLess(steps, sys, step);
      assert (steps + [step])[..|steps|] == steps;
      var rest := EveryCallEnds(steps + [step]);
      more := [step] + rest;
      assert steps + more == steps + [step] + rest;
    } else {
      more := [];
      assert steps + more == steps;
    }
  }

  lemma {:induction false} BusyIsThere(sys: System, step: Step)
    requires Busy(PcOf(sys, step.caller))
    ensures step.caller in sys.callers
  {}
}
