/**
  The callback registry of cancellation.cpp as a state machine.

  A step is one critical section, or the start or the return of a callback, which run outside the
  mutex. An entry is identified by a number; `toCall` is what the canceller still has to invoke
  of its snapshot, `inline` are the subscriptions that found the source already cancelled and
  invoke their own callback. Callbacks that reset a registration from the cancelling thread are
  not part of the model.
*/
module Cancellation {
  import opened Wrappers

  type Id = nat

  /**
    Where a thread stands that has to run a callback: it has yet to call it, is inside it, is back
    from it, or has cleared `executing` but not yet notified the condition variable.
  */
  datatype Call = Before | Inside | After | Cleared

  datatype Reset = NotReset | WaitingForCallback | Returned

  /**
    `runs` counts how often the callback was started and `running` says that it is being run;
    `asleep` says that a waiting reset sleeps on the condition variable.
  */
  datatype Entry = Entry(active: bool, executing: bool, reset: Reset, asleep: bool, running: bool, runs: nat)

  datatype State = State(
    cancelled: bool,
    entries: map<Id, Entry>,
    callbacks: seq<Id>,
    toCall: seq<Id>,
    call: Call,
    inline: map<Id, Call>,
    earlyReset: set<Id>)

  datatype Step =
    | Subscribe(e: Id)
    | StartInline(e: Id)
    | ReturnInline(e: Id)
    | ClearInline(e: Id)
    | NotifyInline(e: Id)
    | CancelSource
    | StartCall
    | ReturnCall
    | ClearCall
    | NotifyCall
    | ResetCall(e: Id)
    | SpuriousWake(e: Id)
    | ResetCheck(e: Id)

  const INIT := State(false, map[], [], [], Before, map[], {})

  /** The entries of the callback vector that are still active. */
  function ActiveOf(callbacks: seq<Id>, entries: map<Id, Entry>): (r: seq<Id>)
    requires forall e :: e in callbacks ==> e in entries
    ensures forall e :: e in r <==> e in callbacks && entries[e].active
    ensures Distinct(callbacks) ==> Distinct(r)
  {
    if callbacks == [] then []
    else
      var n := |callbacks| - 1;
      assert callbacks == callbacks[..n] + [callbacks[n]];
      assert callbacks[n] in callbacks;
      var front := ActiveOf(callbacks[..n], entries);
      assert Distinct(callbacks) ==> forall i :: 0 <= i < |front| ==> front[i] in callbacks[..n];
      if entries[callbacks[n]].active then front + [callbacks[n]] else front
  }

  /** std::remove of one entry. */
  function Removed(callbacks: seq<Id>, e: Id): (r: seq<Id>)
    ensures forall x :: x in r <==> x in callbacks && x != e
    ensures Distinct(callbacks) ==> Distinct(r)
  {
    if callbacks == [] then []
    else
      var n := |callbacks| - 1;
      assert callbacks == callbacks[..n] + [callbacks[n]];
      var front := Removed(callbacks[..n], e);
      assert Distinct(callbacks) ==> forall i :: 0 <= i < |front| ==> front[i] in callbacks[..n];
      if callbacks[n] == e then front else front + [callbacks[n]]
  }

  predicate Distinct(s: seq<Id>) {
    forall i, j :: 0 <= i < j < |s| ==> s[i] != s[j]
  }

  function WithExecuting(entries: map<Id, Entry>, called: seq<Id>): (r: map<Id, Entry>)
    ensures r.Keys == entries.Keys && forall e :: e in r ==> r[e].active == entries[e].active
    ensures called == [] ==> r == entries
  {
    map e | e in entries :: if e in called then entries[e].(executing := true) else entries[e]
  }

  lemma WithExecutingSnoc(entries: map<Id, Entry>, called: seq<Id>, e: Id)
    requires e in entries
    ensures WithExecuting(entries, called + [e])
         == WithExecuting(entries, called)[e := WithExecuting(entries, called)[e].(executing := true)]
  {
  }

  function With(s: State, e: Id, entry: Entry): State {
    s.(entries := s.entries[e := entry])
  }

  predicate Enabled(s: State, step: Step) {
    match step
    case Subscribe(e) => e !in s.entries
    case StartInline(e) => e in s.inline && s.inline[e] == Before && e in s.entries
    case ReturnInline(e) => e in s.inline && s.inline[e] == Inside && e in s.entries
    case ClearInline(e) => e in s.inline && s.inline[e] == After && e in s.entries
    case NotifyInline(e) => e in s.inline && s.inline[e] == Cleared && e in s.entries
    case CancelSource => forall e :: e in s.callbacks ==> e in s.entries
    case StartCall => s.toCall != [] && s.call == Before && s.toCall[0] in s.entries
    case ReturnCall => s.toCall != [] && s.call == Inside && s.toCall[0] in s.entries
    case ClearCall => s.toCall != [] && s.call == After && s.toCall[0] in s.entries
    case NotifyCall => s.toCall != [] && s.call == Cleared && s.toCall[0] in s.entries
    case ResetCall(e) => e in s.entries && e in s.callbacks && s.entries[e].reset == NotReset
    case SpuriousWake(e) => e in s.entries && s.entries[e].asleep
    case ResetCheck(e) => e in s.entries && s.entries[e].reset == WaitingForCallback && !s.entries[e].asleep
  }

  function Apply(s: State, step: Step): State
    requires Enabled(s, step)
  {
    match step
    case Subscribe(e) =>
      if s.cancelled then With(s, e, Entry(false, true, NotReset, false, false, 0)).(inline := s.inline[e := Before])
      else With(s, e, Entry(true, false, NotReset, false, false, 0)).(callbacks := s.callbacks + [e])
    case StartInline(e) => Started(s, e).(inline := s.inline[e := Inside])
    case ReturnInline(e) => ReturnedFrom(s, e).(inline := s.inline[e := After])
    case ClearInline(e) => NoLongerExecuting(s, e).(inline := s.inline[e := Cleared])
    case NotifyInline(e) => Notified(s, e).(inline := s.inline - {e})
    case CancelSource =>
      if s.cancelled then s
      else
        var called := ActiveOf(s.callbacks, s.entries);
        s.(cancelled := true, entries := WithExecuting(s.entries, called), toCall := called, call := Before)
    case StartCall => Started(s, s.toCall[0]).(call := Inside)
    case ReturnCall => ReturnedFrom(s, s.toCall[0]).(call := After)
    case ClearCall => NoLongerExecuting(s, s.toCall[0]).(call := Cleared)
    case NotifyCall => Notified(s, s.toCall[0]).(toCall := s.toCall[1..], call := Before)
    case ResetCall(e) =>
      var early := if s.cancelled then s.earlyReset else s.earlyReset + {e};
      var entry := s.entries[e].(active := false);
      if entry.executing then With(s, e, entry.(reset := WaitingForCallback, asleep := true)).(earlyReset := early)
      else With(s, e, entry.(reset := Returned)).(callbacks := Removed(s.callbacks, e), earlyReset := early)
    case SpuriousWake(e) => With(s, e, s.entries[e].(asleep := false))
    case ResetCheck(e) =>
      if s.entries[e].executing then With(s, e, s.entries[e].(asleep := true))
      else With(s, e, s.entries[e].(reset := Returned)).(callbacks := Removed(s.callbacks, e))
  }

  function Started(s: State, e: Id): State
    requires e in s.entries
  {
    With(s, e, s.entries[e].(running := true, runs := s.entries[e].runs + 1))
  }

  function ReturnedFrom(s: State, e: Id): State
    requires e in s.entries
  {
    With(s, e, s.entries[e].(running := false))
  }

  function NoLongerExecuting(s: State, e: Id): State
    requires e in s.entries
  {
    With(s, e, s.entries[e].(executing := false))
  }

  /** notify_all on the entry's condition variable. */
  function Notified(s: State, e: Id): State
    requires e in s.entries
  {
    With(s, e, s.entries[e].(asleep := false))
  }

  predicate Legal(s: State, steps: seq<Step>)
    decreases |steps|
  {
    steps == [] || (Enabled(s, steps[0]) && Legal(Apply(s, steps[0]), steps[1..]))
  }

  function Execute(s: State, steps: seq<Step>): State
    requires Legal(s, steps)
    decreases |steps|
  {
    if steps == [] then s else Execute(Apply(s, steps[0]), steps[1..])
  }

  // ----- the invariant -------------------------------------------------------------------------------------

  /** Some thread has this entry's callback on its list. */
  predicate Pending(s: State, e: Id) {
    e in s.toCall || e in s.inline
  }

  /** How far the thread responsible for a pending entry has come. */
  function Progress(s: State, e: Id): Call
    requires Pending(s, e)
  {
    if e in s.inline then s.inline[e] else if s.toCall[0] == e then s.call else Before
  }

  /** Runs of an entry, from where it stands. */
  function ExpectedRuns(s: State, e: Id): nat {
    if !s.cancelled || e in s.earlyReset || (Pending(s, e) && Progress(s, e) == Before) then 0 else 1
  }

  ghost predicate EntryConsistent(s: State, e: Id)
    requires e in s.entries
  {
    var entry := s.entries[e];
    && (entry.executing <==> Pending(s, e) && Progress(s, e) != Cleared)
    && (entry.running <==> Pending(s, e) && Progress(s, e) == Inside)
    && entry.runs == ExpectedRuns(s, e)
    && (entry.asleep ==> entry.reset == WaitingForCallback && Pending(s, e))
    && (entry.reset == Returned ==> !entry.executing)
    && (e in s.earlyReset ==> entry.reset != NotReset && !Pending(s, e))
    && (e in s.callbacks ==> (entry.active <==> entry.reset == NotReset))
    && (!s.cancelled ==> if entry.reset == NotReset then e in s.callbacks else e in s.earlyReset)
  }

  ghost predicate Consistent(s: State) {
    && Distinct(s.callbacks) && Distinct(s.toCall)
    && (forall e :: e in s.callbacks || e in s.toCall || e in s.inline || e in s.earlyReset ==> e in s.entries)
    && (forall e :: e in s.toCall ==> e !in s.inline)
    && (forall e :: e in s.inline ==> e !in s.callbacks)
    && (!s.cancelled ==> s.toCall == [] && s.inline == map[])
    && (forall e :: e in s.entries ==> EntryConsistent(s, e))
  }

  /** Steps of one thread that change only one entry and its own progress. */
  lemma OthersUnchanged(s: State, s': State, e: Id)
    requires Consistent(s) && e in s.entries
    requires s'.cancelled == s.cancelled && forall x :: x != e ==> (x in s'.earlyReset <==> x in s.earlyReset)
    requires s'.entries.Keys == s.entries.Keys && forall x :: x in s.entries && x != e ==> s'.entries[x] == s.entries[x]
    requires forall x :: x != e ==> (Pending(s', x) <==> Pending(s, x))
    requires forall x :: x != e && Pending(s, x) ==> Progress(s', x) == Progress(s, x)
    requires forall x :: x != e ==> (x in s'.callbacks <==> x in s.callbacks)
    ensures forall x :: x in s.entries && x != e ==> EntryConsistent(s', x)
  {
    forall x | x in s.entries && x != e ensures EntryConsistent(s', x) {
      assert EntryConsistent(s, x);
    }
  }

  lemma SubscribeKeeps(s: State, e: Id)
    requires Consistent(s) && e !in s.entries
    ensures Consistent(Apply(s, Subscribe(e)))
  {
    var s' := Apply(s, Subscribe(e));
    forall x | x in s'.entries ensures EntryConsistent(s', x) {
      if x != e { assert EntryConsistent(s, x); }
    }
  }

  lemma StartInlineKeeps(s: State, step: Step)
    requires Consistent(s) && Enabled(s, step) && step.StartInline?
    ensures Consistent(Apply(s, step))
  {
    hide Removed, ActiveOf, WithExecuting;
    var s' := Apply(s, step);
    assert EntryConsistent(s, step.e);
    OthersUnchanged(s, s', step.e);
    assert EntryConsistent(s', step.e);
  }

  lemma EndInlineKeeps(s: State, step: Step)
    requires Consistent(s) && Enabled(s, step) && (step.ReturnInline? || step.ClearInline?)
    ensures Consistent(Apply(s, step))
  {
    hide Removed, ActiveOf, WithExecuting;
    var s' := Apply(s, step);
    assert EntryConsistent(s, step.e);
    OthersUnchanged(s, s', step.e);
    assert EntryConsistent(s', step.e);
  }

  lemma NotifyInlineKeeps(s: State, step: Step)
    requires Consistent(s) && Enabled(s, step) && step.NotifyInline?
    ensures Consistent(Apply(s, step))
  {
    hide Removed, ActiveOf, WithExecuting;
    var s' := Apply(s, step);
    assert EntryConsistent(s, step.e);
    OthersUnchanged(s, s', step.e);
    assert EntryConsistent(s', step.e);
  }

  lemma CallStepKeeps(s: State, step: Step)
    requires Consistent(s) && Enabled(s, step) && (step.StartCall? || step.ReturnCall? || step.ClearCall?)
    ensures Consistent(Apply(s, step))
  {
    hide Removed, ActiveOf, WithExecuting;
    var s' := Apply(s, step);
    var e := s.toCall[0];
    assert e in s.toCall;
    assert EntryConsistent(s, e);
    OthersUnchanged(s, s', e);
    assert EntryConsistent(s', e);
  }

  lemma NotifyCallKeeps(s: State)
    requires Consistent(s) && Enabled(s, NotifyCall)
    ensures Consistent(Apply(s, NotifyCall))
  {
    hide Removed, ActiveOf, WithExecuting;
    var s' := Apply(s, NotifyCall);
    var e := s.toCall[0];
    assert s.toCall == [e] + s'.toCall;
    assert EntryConsistent(s, e);
    forall x | x != e ensures Pending(s', x) <==> Pending(s, x) {
      assert x in s.toCall <==> x in s'.toCall;
    }
    OthersUnchanged(s, s', e);
    assert EntryConsistent(s', e);
  }

  lemma CancelKeeps(s: State)
    requires Consistent(s) && !s.cancelled && Enabled(s, CancelSource)
    ensures Consistent(Apply(s, CancelSource))
  {
    var s' := Apply(s, CancelSource);
    forall x | x in s'.entries ensures EntryConsistent(s', x) {
      assert EntryConsistent(s, x);
    }
  }

  lemma ResetCallKeeps(s: State, step: Step)
    requires Consistent(s) && Enabled(s, step) && step.ResetCall?
    ensures Consistent(Apply(s, step))
  {
    hide Removed, ActiveOf, WithExecuting;
    var s' := Apply(s, step);
    assert EntryConsistent(s, step.e);
    OthersUnchanged(s, s', step.e);
    assert EntryConsistent(s', step.e);
  }

  lemma SpuriousWakeKeeps(s: State, step: Step)
    requires Consistent(s) && Enabled(s, step) && step.SpuriousWake?
    ensures Consistent(Apply(s, step))
  {
    hide Removed, ActiveOf, WithExecuting;
    var s' := Apply(s, step);
    assert EntryConsistent(s, step.e);
    OthersUnchanged(s, s', step.e);
    assert EntryConsistent(s', step.e);
  }

  lemma ResetCheckKeeps(s: State, step: Step)
    requires Consistent(s) && Enabled(s, step) && step.ResetCheck?
    ensures Consistent(Apply(s, step))
  {
    hide Removed, ActiveOf, WithExecuting;
    var s' := Apply(s, step);
    assert EntryConsistent(s, step.e);
    OthersUnchanged(s, s', step.e);
    assert EntryConsistent(s', step.e);
  }

  lemma StepKeeps(s: State, step: Step)
    requires Consistent(s) && Enabled(s, step)
    ensures Consistent(Apply(s, step))
  {
    hide Consistent;
    match step
    case Subscribe(e) => SubscribeKeeps(s, e);
    case StartInline(_) => StartInlineKeeps(s, step);
    case ReturnInline(_) => EndInlineKeeps(s, step);
    case ClearInline(_) => EndInlineKeeps(s, step);
    case NotifyInline(_) => NotifyInlineKeeps(s, step);
    case CancelSource => if !s.cancelled { CancelKeeps(s); }
    case StartCall => CallStepKeeps(s, step);
    case ReturnCall => CallStepKeeps(s, step);
    case ClearCall => CallStepKeeps(s, step);
    case NotifyCall => NotifyCallKeeps(s);
    case ResetCall(_) => ResetCallKeeps(s, step);
    case SpuriousWake(_) => SpuriousWakeKeeps(s, step);
    case ResetCheck(_) => ResetCheckKeeps(s, step);
  }

  /** Every reachable state, for every interleaving of subscribe, cancel and reset. */
  lemma {:induction false} RunKeeps(s: State, steps: seq<Step>)
    requires Consistent(s) && Legal(s, steps)
    ensures Consistent(Execute(s, steps))
    decreases |steps|
  {
    if steps != [] {
      StepKeeps(s, steps[0]);
      RunKeeps(Apply(s, steps[0]), steps[1..]);
    }
  }

  lemma InitIsConsistent()
    ensures Consistent(INIT)
  {
  }

  // ----- what callers rely on ---------------------------------------------------------------------------------

  /** No callback ever runs twice. */
  lemma AtMostOnce(steps: seq<Step>, e: Id)
    requires Legal(INIT, steps) && e in Execute(INIT, steps).entries
    ensures Execute(INIT, steps).entries[e].runs <= 1
  {
    InitIsConsistent();
    RunKeeps(INIT, steps);
    assert EntryConsistent(Execute(INIT, steps), e);
  }

  /** Nobody has a callback left to run. */
  predicate Settled(s: State) {
    s.toCall == [] && s.inline == map[]
  }

  /**
    After a cancellation whose callers have finished, a callback has run exactly once unless it was
    reset before the source was cancelled, and then it has not run at all.
  */
  lemma ExactlyOnceUnlessResetEarly(steps: seq<Step>, e: Id)
    requires Legal(INIT, steps) && e in Execute(INIT, steps).entries
    requires Execute(INIT, steps).cancelled && Settled(Execute(INIT, steps))
    ensures Execute(INIT, steps).entries[e].runs == if e in Execute(INIT, steps).earlyReset then 0 else 1
  {
    InitIsConsistent();
    RunKeeps(INIT, steps);
    assert EntryConsistent(Execute(INIT, steps), e);
  }

  /** Before a cancellation nothing runs. */
  lemma NothingRunsBeforeCancel(steps: seq<Step>, e: Id)
    requires Legal(INIT, steps) && e in Execute(INIT, steps).entries && !Execute(INIT, steps).cancelled
    ensures Execute(INIT, steps).entries[e].runs == 0
  {
    InitIsConsistent();
    RunKeeps(INIT, steps);
    assert EntryConsistent(Execute(INIT, steps), e);
  }

  predicate HasReturned(s: State, e: Id) {
    e in s.entries && s.entries[e].reset == Returned
  }

  lemma ReturnedStepStays(s: State, step: Step, e: Id)
    requires Consistent(s) && HasReturned(s, e) && Enabled(s, step)
    ensures HasReturned(Apply(s, step), e) && Apply(s, step).entries[e].runs == s.entries[e].runs
  {
    hide Removed, ActiveOf;
    assert EntryConsistent(s, e);
    if step.StartCall? || step.ReturnCall? || step.ClearCall? || step.NotifyCall? {
      assert s.toCall[0] in s.toCall;
    }
  }

  /** Once reset has returned, the callback is not running and is never started again. */
  lemma {:induction false} ResetIsFinal(s: State, steps: seq<Step>, e: Id)
    requires Consistent(s) && HasReturned(s, e) && Legal(s, steps)
    ensures !s.entries[e].running
    ensures HasReturned(Execute(s, steps), e)
    ensures Execute(s, steps).entries[e].runs == s.entries[e].runs && !Execute(s, steps).entries[e].running
    decreases |steps|
  {
    assert EntryConsistent(s, e);
    if steps != [] {
      ReturnedStepStays(s, steps[0], e);
      StepKeeps(s, steps[0]);
      ResetIsFinal(Apply(s, steps[0]), steps[1..], e);
    }
  }

  /** A sleeping reset is always about to be notified: no wake-up is lost. */
  lemma SleepingResetIsServed(s: State, e: Id)
    requires Consistent(s) && e in s.entries && s.entries[e].asleep
    ensures Pending(s, e)
  {
    assert EntryConsistent(s, e);
  }

  /** So once every callback is done, a reset that still waits is awake and its next check returns. */
  lemma SettledResetReturns(steps: seq<Step>, e: Id)
    requires Legal(INIT, steps) && e in Execute(INIT, steps).entries && Settled(Execute(INIT, steps))
    requires Execute(INIT, steps).entries[e].reset == WaitingForCallback
    ensures Enabled(Execute(INIT, steps), ResetCheck(e))
    ensures HasReturned(Apply(Execute(INIT, steps), ResetCheck(e)), e)
  {
    InitIsConsistent();
    RunKeeps(INIT, steps);
    assert EntryConsistent(Execute(INIT, steps), e);
  }

  // ----- the callback vector ------------------------------------------------------------------------------------

  /** One list holds members of another, in its order. */
  ghost predicate InOrderOf(part: seq<Id>, whole: seq<Id>) {
    forall i, j :: 0 <= i < j < |part| ==> Precedes(whole, part[i], part[j])
  }

  ghost predicate Precedes(whole: seq<Id>, x: Id, y: Id) {
    exists a, b :: 0 <= a < b < |whole| && whole[a] == x && whole[b] == y
  }

  lemma PrecedesInLonger(whole: seq<Id>, last: Id, x: Id, y: Id)
    ensures Precedes(whole, x, y) ==> Precedes(whole + [last], x, y)
    ensures x in whole ==> Precedes(whole + [last], x, last)
  {
    var all := whole + [last];
    if Precedes(whole, x, y) {
      var a, b :| 0 <= a < b < |whole| && whole[a] == x && whole[b] == y;
      assert all[a] == x && all[b] == y;
    }
    if x in whole {
      var a :| 0 <= a < |whole| && whole[a] == x;
      assert all[a] == x && all[|whole|] == last;
    }
  }

  /** A cancellation calls in the order of subscription. */
  lemma {:induction false} ActiveInOrder(callbacks: seq<Id>, entries: map<Id, Entry>)
    requires forall e :: e in callbacks ==> e in entries
    ensures InOrderOf(ActiveOf(callbacks, entries), callbacks)
  {
    hide Precedes;
    if callbacks != [] {
      var n := |callbacks| - 1;
      var front, last := callbacks[..n], callbacks[n];
      assert callbacks == front + [last];
      ActiveInOrder(front, entries);
      forall x, y {
        PrecedesInLonger(front, last, x, y);
      }
    }
  }

  /** Removing an entry closes the gap and moves nothing else. */
  lemma {:induction false} RemovedCloses(a: seq<Id>, e: Id, b: seq<Id>)
    requires e !in a && e !in b
    ensures Removed(a + [e] + b, e) == a + b && Removed(a, e) == a
  {
    if b != [] {
      var n := |b| - 1;
      assert (a + [e] + b)[..|a| + 1 + n] == a + [e] + b[..n];
      assert b == b[..n] + [b[n]];
      RemovedCloses(a, e, b[..n]);
      assert a + b[..n] + [b[n]] == a + b;
    } else {
      assert (a + [e] + b)[..|a|] == a && a + [e] + b == a + [e];
      RemovedNothing(a, e);
    }
  }

  lemma {:induction false} RemovedNothing(a: seq<Id>, e: Id)
    requires e !in a
    ensures Removed(a, e) == a
  {
    if a != [] {
      assert a == a[..|a| - 1] + [a[|a| - 1]];
      RemovedNothing(a[..|a| - 1], e);
    }
  }

  /** An entry whose reset has returned is no longer registered. */
  ghost predicate ReturnedAreGone(s: State) {
    forall e :: HasReturned(s, e) ==> e !in s.callbacks
  }

  lemma {:induction false} ReturnedStayGone(s: State, steps: seq<Step>)
    requires Consistent(s) && ReturnedAreGone(s) && Legal(s, steps)
    ensures ReturnedAreGone(Execute(s, steps))
    decreases |steps|
  {
    if steps != [] {
      GoneAfterStep(s, steps[0]);
      StepKeeps(s, steps[0]);
      hide Consistent, ReturnedAreGone, Enabled;
      ReturnedStayGone(Apply(s, steps[0]), steps[1..]);
    }
  }

  lemma GoneAfterStep(s: State, step: Step)
    requires Consistent(s) && ReturnedAreGone(s) && Enabled(s, step)
    ensures ReturnedAreGone(Apply(s, step))
  {
    hide ActiveOf, Removed, WithExecuting, EntryConsistent;
    var s' := Apply(s, step);
    forall e | HasReturned(s', e) ensures e !in s'.callbacks {
      if e in s.entries && s.entries[e].reset != Returned {
        assert step == ResetCall(e) || step == ResetCheck(e) by { OnlyResetReturns(s, step, e); }
      }
    }
  }

  lemma OnlyResetReturns(s: State, step: Step, e: Id)
    requires Enabled(s, step) && e in s.entries && s.entries[e].reset != Returned && HasReturned(Apply(s, step), e)
    ensures step == ResetCall(e) || step == ResetCheck(e)
  {
  }

  /** In every reachable state, and so no cancellation finds an entry that was reset. */
  lemma ReturnedIsUnregistered(steps: seq<Step>, e: Id)
    requires Legal(INIT, steps) && HasReturned(Execute(INIT, steps), e)
    ensures e !in Execute(INIT, steps).callbacks
  {
    InitIsConsistent();
    ReturnedStayGone(INIT, steps);
  }

  // ----- the shared object ---------------------------------------------------------------------------------------

  /** The fields under the mutex; each method is one critical section of the source. */
  class CancellationState {
    var cancelled: bool
    var entries: map<Id, Entry>
    var callbacks: seq<Id>

    constructor ()
      ensures Represents(INIT)
    {
      cancelled, entries, callbacks := false, map[], [];
    }

    ghost predicate Represents(s: State)
      reads this
    {
      cancelled == s.cancelled && entries == s.entries && callbacks == s.callbacks
    }

    /** The critical section of subscribe; true when the subscriber must run the callback itself. */
    method Register(e: Id, ghost s: State) returns (invokeNow: bool)
      requires Represents(s) && Enabled(s, Subscribe(e))
      modifies this
      ensures Represents(Apply(s, Subscribe(e))) && (invokeNow <==> s.cancelled)
    {
      invokeNow := cancelled;
      if cancelled {
        entries := entries[e := Entry(false, true, NotReset, false, false, 0)];
      } else {
        entries := entries[e := Entry(true, false, NotReset, false, false, 0)];
        callbacks := callbacks + [e];
      }
    }

    /** The critical section of cancel: the snapshot of the active entries, marked as executing. */
    method Snapshot(ghost s: State) returns (called: seq<Id>)
      requires Represents(s) && Enabled(s, CancelSource)
      modifies this
      ensures Represents(Apply(s, CancelSource))
      ensures called == if s.cancelled then [] else Apply(s, CancelSource).toCall
    {
      hide WithExecuting, Distinct;
      called := [];
      if cancelled { return; }
      cancelled := true;
      for i := 0 to |callbacks|
        invariant cancelled && callbacks == s.callbacks
        invariant called == ActiveOf(callbacks[..i], s.entries)
        invariant entries == WithExecuting(s.entries, called)
      {
        var e := callbacks[i];
        assert callbacks[..i + 1][..i] == callbacks[..i] && callbacks[..i + 1][i] == e;
        if entries[e].active {
          WithExecutingSnoc(s.entries, called, e);
          entries := entries[e := entries[e].(executing := true)];
          called := called + [e];
        }
      }
      assert callbacks[..|callbacks|] == callbacks;
    }

    /** The critical section after a callback has returned. */
    method FinishCallback(ghost s: State, e: Id)
      requires Represents(s) && Enabled(s, ClearCall) && e == s.toCall[0]
      modifies this
      ensures Represents(Apply(s, ClearCall))
    {
      entries := entries[e := entries[e].(executing := false)];
    }

    /** The critical section of reset up to the wait; true when it is done without waiting. */
    method BeginReset(e: Id, ghost s: State) returns (done: bool)
      requires Represents(s) && Enabled(s, ResetCall(e))
      modifies this
      ensures Represents(Apply(s, ResetCall(e))) && (done <==> HasReturned(Apply(s, ResetCall(e)), e))
    {
      entries := entries[e := entries[e].(active := false)];
      done := CheckOnce(e, s);
    }

    /** One evaluation of the wait predicate under the mutex, and the removal once it holds. */
    method CheckReset(e: Id, ghost s: State) returns (done: bool)
      requires Represents(s) && Enabled(s, ResetCheck(e))
      modifies this
      ensures Represents(Apply(s, ResetCheck(e))) && (done <==> HasReturned(Apply(s, ResetCheck(e)), e))
    {
      done := CheckOnce(e, s);
    }

    method CheckOnce(e: Id, ghost s: State) returns (done: bool)
      requires e in entries && callbacks == s.callbacks
      modifies this
      ensures cancelled == old(cancelled) && done == !old(entries)[e].executing
      ensures callbacks == if done then Removed(s.callbacks, e) else s.callbacks
      ensures entries == old(entries)[e := if done then old(entries)[e].(reset := Returned)
                                           else old(entries)[e].(reset := WaitingForCallback, asleep := true)]
    {
      done := !entries[e].executing;
      if done {
        entries := entries[e := entries[e].(reset := Returned)];
        callbacks := Removed(callbacks, e);
      } else {
        entries := entries[e := entries[e].(reset := WaitingForCallback, asleep := true)];
      }
    }
  }
}
