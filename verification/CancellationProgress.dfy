/** Every run of subscriptions, cancellations and resets can be finished: no callback is stuck on a list. */
module CancellationProgress {
  import opened Cancellation

  lemma {:induction false} RunsCompose(s: State, a: seq<Step>, b: seq<Step>)
    requires Legal(s, a) && Legal(Execute(s, a), b)
    ensures Legal(s, a + b) && Execute(s, a + b) == Execute(Execute(s, a), b)
    decreases |a|
  {
    if a == [] {
      assert a + b == b;
    } else {
      assert (a + b)[0] == a[0] && (a + b)[1..] == a[1..] + b;
      hide Enabled, Apply;
      RunsCompose(Apply(s, a[0]), a[1..], b);
    }
  }

  lemma StepThen(s: State, step: Step, rest: seq<Step>)
    requires Enabled(s, step) && Legal(Apply(s, step), rest)
    ensures Legal(s, [step] + rest) && Execute(s, [step] + rest) == Execute(Apply(s, step), rest)
  {
    hide Enabled, Apply;
    assert ([step] + rest)[1..] == rest;
  }

  function StepsLeft(c: Call): nat {
    match c
    case Before => 3
    case Inside => 2
    case After => 1
    case Cleared => 0
  }

  function InlineStep(s: State, e: Id): Step
    requires e in s.inline
  {
    match s.inline[e]
    case Before => StartInline(e)
    case Inside => ReturnInline(e)
    case After => ClearInline(e)
    case Cleared => NotifyInline(e)
  }

  lemma InlineStepMoves(s: State, e: Id)
    requires Consistent(s) && e in s.inline
    ensures Enabled(s, InlineStep(s, e))
    ensures var s' := Apply(s, InlineStep(s, e));
            && s'.inline - {e} == s.inline - {e} && s'.toCall == s.toCall
            && if s.inline[e] == Cleared then e !in s'.inline
               else e in s'.inline && StepsLeft(s'.inline[e]) == StepsLeft(s.inline[e]) - 1
  {
    hide EntryConsistent;
  }

  /** A thread that subscribed too late can finish its callback. */
  lemma {:induction false} FinishInline(s: State, e: Id) returns (steps: seq<Step>)
    requires Consistent(s) && e in s.inline
    ensures Legal(s, steps) && Consistent(Execute(s, steps))
    ensures Execute(s, steps).inline == s.inline - {e} && Execute(s, steps).toCall == s.toCall
    decreases StepsLeft(s.inline[e])
  {
    var step := InlineStep(s, e);
    InlineStepMoves(s, e);
    StepKeeps(s, step);
    hide Consistent, Enabled, InlineStep, Apply;
    if s.inline[e] == Cleared {
      StepThen(s, step, []);
      steps := [step];
      assert [step] + [] == [step];
      assert Apply(s, step).inline == Apply(s, step).inline - {e};
    } else {
      var rest := FinishInline(Apply(s, step), e);
      StepThen(s, step, rest);
      steps := [step] + rest;
    }
  }

  function CallStep(s: State): Step {
    match s.call
    case Before => StartCall
    case Inside => ReturnCall
    case After => ClearCall
    case Cleared => NotifyCall
  }

  lemma CallStepMoves(s: State)
    requires Consistent(s) && s.toCall != []
    ensures Enabled(s, CallStep(s))
    ensures var s' := Apply(s, CallStep(s));
            && s'.inline == s.inline
            && if s.call == Cleared then s'.toCall == s.toCall[1..]
               else s'.toCall == s.toCall && StepsLeft(s'.call) == StepsLeft(s.call) - 1
  {
    hide EntryConsistent;
  }

  /** The thread that cancelled can finish the callback at the front of its list. */
  lemma {:induction false} FinishCall(s: State) returns (steps: seq<Step>)
    requires Consistent(s) && s.toCall != []
    ensures Legal(s, steps) && Consistent(Execute(s, steps))
    ensures Execute(s, steps).inline == s.inline && Execute(s, steps).toCall == s.toCall[1..]
    decreases StepsLeft(s.call)
  {
    var step := CallStep(s);
    CallStepMoves(s);
    StepKeeps(s, step);
    hide Consistent, Enabled, CallStep, Apply;
    if s.call == Cleared {
      StepThen(s, step, []);
      steps := [step];
      assert [step] + [] == [step];
    } else {
      var rest := FinishCall(Apply(s, step));
      StepThen(s, step, rest);
      steps := [step] + rest;
    }
  }

  lemma {:induction false} Settle(s: State) returns (steps: seq<Step>)
    requires Consistent(s)
    ensures Legal(s, steps) && Settled(Execute(s, steps))
    decreases |s.toCall|, |s.inline|
  {
    hide Consistent, Enabled, Apply;
    if s.toCall != [] {
      var first := FinishCall(s);
      var rest := Settle(Execute(s, first));
      RunsCompose(s, first, rest);
      steps := first + rest;
    } else if s.inline != map[] {
      var e :| e in s.inline;
      var first := FinishInline(s, e);
      assert (s.inline - {e}).Keys == s.inline.Keys - {e};
      var rest := Settle(Execute(s, first));
      RunsCompose(s, first, rest);
      steps := first + rest;
    } else {
      steps := [];
    }
  }

  /**
    Whatever has happened, the threads that have callbacks to call can call them all. After a cancellation every
    callback has then run exactly once, or not at all when it was reset before.
  */
  lemma EveryRunCanSettle(steps: seq<Step>) returns (more: seq<Step>)
    requires Legal(INIT, steps)
    ensures Legal(INIT, steps + more) && Settled(Execute(INIT, steps + more))
    ensures var s := Execute(INIT, steps + more);
            s.cancelled ==> forall e :: e in s.entries ==> s.entries[e].runs == if e in s.earlyReset then 0 else 1
  {
    InitIsConsistent();
    RunKeeps(INIT, steps);
    more := Settle(Execute(INIT, steps));
    RunsCompose(INIT, steps, more);
    var s := Execute(INIT, steps + more);
    forall e | s.cancelled && e in s.entries ensures s.entries[e].runs == if e in s.earlyReset then 0 else 1 {
      ExactlyOnceUnlessResetEarly(steps + more, e);
    }
  }
}
