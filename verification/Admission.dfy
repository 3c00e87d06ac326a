/**
  The admission queue of verification_admission_controller.cpp as a state machine.

  A step is what one thread does while it holds the mutex, or an event that needs no mutex:
  setting a cancellation flag, the notification sent by a cancellation callback, a spurious
  wake-up. A thread that found nothing to do keeps the mutex (`Checked`) until it waits, so a
  notification sent without the mutex can fall between its check and its wait.

  The cancellation branch erases the ticket and every ticket behind it, as the program does. What
  that loses, and when, is stated at the end.
*/
module Admission {
  import opened Wrappers

  type Id = nat

  datatype Phase =
    | Idle       // has not arrived
    | Awake      // will lock the mutex and look again
    | Checked    // looked in vain and still holds the mutex
    | Sleeping   // waits on the condition variable
    | Running    // admitted: a permit is outstanding
    | Finished   // returned its permit
    | Withdrawn  // left because it was cancelled

  /**
    `arrivals`, `admissions` and `erased` record the history; `announced` are the threads whose
    cancellation callback has sent its one notification.
  */
  datatype State = State(
    capacity: nat,
    available: nat,
    queue: seq<Id>,
    phases: map<Id, Phase>,
    holder: Option<Id>,
    cancelled: set<Id>,
    undefined: bool,
    arrivals: seq<Id>,
    admissions: seq<Id>,
    erased: set<Id>,
    announced: set<Id>)

  datatype Step =
    | Arrive(t: Id)
    | Recheck(t: Id)
    | Wait(t: Id)
    | Wake(t: Id)
    | Cancel(t: Id)
    | CancelNotify(t: Id)
    | Release(t: Id)

  function Init(capacity: nat): State {
    State(capacity, capacity, [], map[], None, {}, false, [], [], {}, {})
  }

  function PhaseOf(s: State, t: Id): Phase {
    if t in s.phases then s.phases[t] else Idle
  }

  /** notify_all */
  function Notified(phases: map<Id, Phase>): (r: map<Id, Phase>)
    ensures r.Keys == phases.Keys
  {
    map t | t in phases :: if phases[t] == Sleeping then Awake else phases[t]
  }

  function IndexOf(queue: seq<Id>, t: Id): (i: nat)
    ensures i <= |queue| && (i < |queue| ==> queue[i] == t) && forall k :: 0 <= k < i ==> queue[k] != t
    ensures i == |queue| <==> t !in queue
  {
    if queue == [] || queue[0] == t then 0 else 1 + IndexOf(queue[1..], t)
  }

  /** One turn of the wait loop by a thread that has locked the mutex. */
  function Evaluate(s: State, t: Id): State {
    if t in s.cancelled then
      var i := IndexOf(s.queue, t);
      s.(queue := s.queue[..i],
         phases := Notified(s.phases)[t := Withdrawn],
         erased := s.erased + (set x | x in s.queue[i..]))
    else if s.available != 0 && s.queue == [] then
      s.(undefined := true) // front() of an empty deque
    else if s.available != 0 && s.queue[0] == t then
      s.(queue := s.queue[1..], available := s.available - 1, phases := s.phases[t := Running],
         admissions := s.admissions + [t])
    else
      s.(phases := s.phases[t := Checked], holder := Some(t))
  }

  predicate Enabled(s: State, step: Step) {
    !s.undefined
    && match step
       case Arrive(t) => s.holder == None && PhaseOf(s, t) == Idle
       case Recheck(t) => s.holder == None && PhaseOf(s, t) == Awake
       case Wait(t) => s.holder == Some(t)
       case Wake(t) => PhaseOf(s, t) == Sleeping
       case Cancel(_) => true
       case CancelNotify(t) => t in s.cancelled && t !in s.announced
       case Release(t) => s.holder == None && PhaseOf(s, t) == Running
  }

  function Apply(s: State, step: Step): State {
    match step
    case Arrive(t) =>
      Evaluate(s.(queue := s.queue + [t], phases := Notified(s.phases)[t := Awake], arrivals := s.arrivals + [t]), t)
    case Recheck(t) => Evaluate(s, t)
    case Wait(t) => s.(phases := s.phases[t := Sleeping], holder := None)
    case Wake(t) => s.(phases := s.phases[t := Awake])
    case Cancel(t) => s.(cancelled := s.cancelled + {t})
    case CancelNotify(t) => s.(phases := Notified(s.phases), announced := s.announced + {t})
    case Release(t) => s.(available := s.available + 1, phases := Notified(s.phases)[t := Finished])
  }

  /** The state after some steps, all of them enabled in turn. */
  predicate Legal(s: State, steps: seq<Step>)
    decreases |steps|
  {
    steps == [] || (Enabled(s, steps[0]) && Legal(Apply(s, steps[0]), steps[1..]))
  }

  function Execute(s: State, steps: seq<Step>): State
    decreases |steps|
  {
    if steps == [] then s else Execute(Apply(s, steps[0]), steps[1..])
  }

  // ----- safety over all runs ----------------------------------------------------------------------------

  function Outstanding(s: State): set<Id> {
    set t | t in s.phases && s.phases[t] == Running
  }

  predicate Waiting(s: State, t: Id) {
    PhaseOf(s, t) in {Awake, Checked, Sleeping}
  }

  predicate Distinct(queue: seq<Id>) {
    forall i, j :: 0 <= i < j < |queue| ==> queue[i] != queue[j]
  }

  /** `all` without the members of `gone`. */
  function Remaining(all: seq<Id>, gone: set<Id>): seq<Id> {
    if all == [] then []
    else
      var front, last := Remaining(all[..|all| - 1], gone), all[|all| - 1];
      if last in gone then front else front + [last]
  }

  /** Permits are neither lost nor invented. */
  ghost predicate PermitsConserved(s: State) {
    s.available + |Outstanding(s)| == s.capacity
  }

  ghost predicate QueueOfWaiters(s: State) {
    Distinct(s.queue) && forall t :: t in s.queue ==> Waiting(s, t)
  }

  /** Exactly the thread that holds the mutex is between its check and its wait, and has nothing to do. */
  ghost predicate HolderChecked(s: State) {
    && (forall t: Id :: PhaseOf(s, t) == Checked <==> s.holder == Some(t))
    && (s.holder.Some? && s.queue != [] && s.queue[0] == s.holder.value ==> s.available == 0)
  }

  /** A sleeping front with a free permit has somebody to wake it. */
  ghost predicate FrontWillWake(s: State) {
    s.queue != [] && s.available > 0 && PhaseOf(s, s.queue[0]) == Sleeping ==> Outstanding(s) != {}
  }

  /** First come, first served: the arrivals that were not erased are the admissions, then the queue. */
  ghost predicate FirstComeFirstServed(s: State) {
    && Distinct(s.arrivals) && (forall t: Id :: t in s.arrivals <==> PhaseOf(s, t) != Idle)
    && s.erased <= (set t | t in s.arrivals)
    && Remaining(s.arrivals, s.erased) == s.admissions + s.queue
  }

  ghost predicate Safe(s: State) {
    && PermitsConserved(s) && QueueOfWaiters(s) && HolderChecked(s) && FrontWillWake(s) && FirstComeFirstServed(s)
  }

  lemma InitIsSafe(capacity: nat)
    ensures Safe(Init(capacity))
  {
    assert Outstanding(Init(capacity)) == {};
  }

  lemma {:induction false} RemainingMembers(all: seq<Id>, gone: set<Id>)
    ensures forall t :: t in Remaining(all, gone) <==> t in all && t !in gone
    ensures Distinct(all) ==> Distinct(Remaining(all, gone))
  {
    if all != [] {
      var n := |all| - 1;
      RemainingMembers(all[..n], gone);
      assert all == all[..n] + [all[n]];
      var front := Remaining(all[..n], gone);
      if Distinct(all) {
        forall i | 0 <= i < |front| ensures front[i] != all[n] {
          assert front[i] in front;
        }
      }
    }
  }

  /** Erasing more tickets filters what remained. */
  lemma {:induction false} RemainingTwice(all: seq<Id>, gone: set<Id>, more: set<Id>)
    ensures Remaining(all, gone + more) == Remaining(Remaining(all, gone), more)
  {
    if all != [] {
      var n := |all| - 1;
      RemainingTwice(all[..n], gone, more);
      var front := Remaining(all[..n], gone);
      if all[n] !in gone {
        assert (front + [all[n]])[..|front|] == front;
      }
    }
  }

  lemma {:induction false} RemainingOfSuffix(front: seq<Id>, tail: seq<Id>)
    requires Distinct(front + tail)
    ensures Remaining(front + tail, set x | x in tail) == front
  {
    forall x | x in front ensures x !in tail {
      var i :| 0 <= i < |front| && front[i] == x;
      forall k | 0 <= k < |tail| ensures tail[k] != x {
        assert (front + tail)[i] == x && (front + tail)[|front| + k] == tail[k];
      }
    }
    RemainingKeeps(front, set x | x in tail);
    RemainingSuffixGone(front, tail, set x | x in tail);
  }

  lemma {:induction false} RemainingSuffixGone(front: seq<Id>, tail: seq<Id>, gone: set<Id>)
    requires forall x :: x in tail ==> x in gone
    ensures Remaining(front + tail, gone) == Remaining(front, gone)
  {
    if tail == [] {
      assert front + tail == front;
    } else {
      var n := |tail| - 1;
      assert (front + tail)[..|front| + n] == front + tail[..n];
      assert tail[n] in tail;
      RemainingSuffixGone(front, tail[..n], gone);
    }
  }

  lemma {:induction false} RemainingKeeps(all: seq<Id>, gone: set<Id>)
    ensures (forall t :: t in all ==> t !in gone) ==> Remaining(all, gone) == all
  {
    if all != [] && forall t :: t in all ==> t !in gone {
      var n := |all| - 1;
      assert all == all[..n] + [all[n]];
      RemainingKeeps(all[..n], gone);
    }
  }

  lemma NotifiedKeepsOutstanding(s: State, s': State)
    requires s'.phases == Notified(s.phases)
    ensures Outstanding(s') == Outstanding(s)
    ensures forall t: Id :: Waiting(s', t) <==> Waiting(s, t)
    ensures forall t: Id :: PhaseOf(s', t) != Sleeping
    ensures forall t: Id :: PhaseOf(s, t) != Sleeping ==> PhaseOf(s', t) == PhaseOf(s, t)
  {
  }

  /** A thread joining the queue, before it looks for the first time. */
  function Joined(s: State, t: Id): State {
    s.(queue := s.queue + [t], phases := Notified(s.phases)[t := Awake], arrivals := s.arrivals + [t])
  }

  lemma JoinIsSafe(s: State, t: Id)
    requires Safe(s) && s.holder == None && PhaseOf(s, t) == Idle
    ensures Safe(Joined(s, t)) && PhaseOf(Joined(s, t), t) == Awake
  {
    var s' := Joined(s, t);
    NotifiedKeepsOutstanding(s, s.(phases := Notified(s.phases)));
    assert Outstanding(s') == Outstanding(s);
    assert t !in s.queue && t !in s.arrivals;
    JoinKeepsOrder(s, t);
    hide FirstComeFirstServed, Remaining;
    forall x | x in s'.queue ensures Waiting(s', x) {
      assert x in s.queue || x == t;
    }
  }

  lemma RemainingAppend(all: seq<Id>, gone: set<Id>, t: Id)
    requires t !in gone
    ensures Remaining(all + [t], gone) == Remaining(all, gone) + [t]
  {
    assert (all + [t])[..|all|] == all;
  }

  lemma JoinKeepsOrder(s: State, t: Id)
    requires FirstComeFirstServed(s) && t !in s.arrivals
    ensures FirstComeFirstServed(Joined(s, t))
  {
    RemainingAppend(s.arrivals, s.erased, t);
    hide Remaining;
    var s' := Joined(s, t);
    assert s.admissions + s.queue + [t] == s.admissions + s'.queue;
    forall x: Id ensures x in s'.arrivals <==> PhaseOf(s', x) != Idle {
      assert x in s'.arrivals <==> x in s.arrivals || x == t;
    }
  }

  lemma WithdrawIsSafe(s: State, t: Id)
    requires Safe(s) && s.holder == None && PhaseOf(s, t) == Awake && t in s.cancelled
    ensures Safe(Evaluate(s, t))
  {
    var s' := Evaluate(s, t);
    var i := IndexOf(s.queue, t);
    NotifiedKeepsOutstanding(s, s.(phases := Notified(s.phases)));
    assert Outstanding(s') == Outstanding(s);
    forall x | x in s'.queue ensures Waiting(s', x) {
      assert x in s.queue && x != t;
    }
    EraseSuffixKeepsOrder(s, i);
    forall x: Id ensures x in s'.arrivals <==> PhaseOf(s', x) != Idle {
      assert x in s.arrivals <==> PhaseOf(s, x) != Idle;
    }
    assert s' .queue != [] ==> s'.queue[0] in s'.queue;
  }

  lemma EraseSuffixKeepsOrder(s: State, i: nat)
    requires Distinct(s.arrivals) && Remaining(s.arrivals, s.erased) == s.admissions + s.queue && i <= |s.queue|
    requires s.erased <= (set t | t in s.arrivals)
    ensures var gone := set x | x in s.queue[i..];
            && s.erased + gone <= (set t | t in s.arrivals)
            && Remaining(s.arrivals, s.erased + gone) == s.admissions + s.queue[..i]
  {
    var tail := s.queue[i..];
    var gone := set x | x in tail;
    var left := s.admissions + s.queue[..i];
    RemainingMembers(s.arrivals, s.erased);
    RemainingTwice(s.arrivals, s.erased, gone);
    assert s.admissions + s.queue == left + tail;
    RemainingOfSuffix(left, tail);
    forall x | x in gone ensures x in s.arrivals {
      assert x in s.admissions + s.queue;
    }
  }

  lemma AdmitIsSafe(s: State, t: Id)
    requires Safe(s) && s.holder == None && PhaseOf(s, t) == Awake && t !in s.cancelled
    requires s.available != 0 && s.queue != [] && s.queue[0] == t
    ensures Safe(Evaluate(s, t))
  {
    var s' := Evaluate(s, t);
    assert Outstanding(s') == Outstanding(s) + {t};
    assert t !in Outstanding(s);
    assert s.admissions + s.queue == s.admissions + [t] + s.queue[1..];
    forall x | x in s'.queue ensures Waiting(s', x) {
      assert x in s.queue && x != t;
    }
    assert t in Outstanding(s');
    assert t in s.queue;
  }

  lemma CheckIsSafe(s: State, t: Id)
    requires Safe(s) && s.holder == None && PhaseOf(s, t) == Awake && t !in s.cancelled
    requires s.available == 0 || (s.queue != [] && s.queue[0] != t)
    ensures Safe(Evaluate(s, t))
  {
    var s' := Evaluate(s, t);
    assert Outstanding(s') == Outstanding(s);
    forall x: Id ensures x in s'.arrivals <==> PhaseOf(s', x) != Idle {
      assert x in s.arrivals <==> PhaseOf(s, x) != Idle;
    }
  }

  lemma EvaluateIsSafe(s: State, t: Id)
    requires Safe(s) && s.holder == None && PhaseOf(s, t) == Awake
    ensures Safe(Evaluate(s, t))
  {
    hide Safe;
    if t in s.cancelled {
      WithdrawIsSafe(s, t);
    } else if s.available != 0 && s.queue == [] {
      UndefinedIsSafe(s);
    } else if s.available != 0 && s.queue[0] == t {
      AdmitIsSafe(s, t);
    } else {
      CheckIsSafe(s, t);
    }
  }

  lemma UndefinedIsSafe(s: State)
    requires Safe(s)
    ensures Safe(s.(undefined := true))
  {
    assert Outstanding(s.(undefined := true)) == Outstanding(s);
  }

  lemma WaitIsSafe(s: State, t: Id)
    requires Safe(s) && s.holder == Some(t)
    ensures Safe(Apply(s, Wait(t)))
  {
    var s' := Apply(s, Wait(t));
    assert Outstanding(s') == Outstanding(s);
    forall x: Id ensures x in s'.arrivals <==> PhaseOf(s', x) != Idle {
      assert x in s.arrivals <==> PhaseOf(s, x) != Idle;
    }
  }

  lemma WakeIsSafe(s: State, t: Id)
    requires Safe(s) && PhaseOf(s, t) == Sleeping
    ensures Safe(Apply(s, Wake(t)))
  {
    var s' := Apply(s, Wake(t));
    assert Outstanding(s') == Outstanding(s);
    forall x: Id ensures x in s'.arrivals <==> PhaseOf(s', x) != Idle {
      assert x in s.arrivals <==> PhaseOf(s, x) != Idle;
    }
  }

  lemma NotifyIsSafe(s: State, t: Id)
    requires Safe(s)
    ensures Safe(Apply(s, CancelNotify(t)))
  {
    var s' := Apply(s, CancelNotify(t));
    NotifiedKeepsOutstanding(s, s');
    forall x: Id ensures x in s'.arrivals <==> PhaseOf(s', x) != Idle {
      assert x in s.arrivals <==> PhaseOf(s, x) != Idle;
    }
    forall x: Id ensures PhaseOf(s', x) == Checked <==> PhaseOf(s, x) == Checked {
    }
  }

  lemma ReleaseIsSafe(s: State, t: Id)
    requires Safe(s) && s.holder == None && PhaseOf(s, t) == Running
    ensures Safe(Apply(s, Release(t)))
  {
    var s' := Apply(s, Release(t));
    NotifiedKeepsOutstanding(s, s.(phases := Notified(s.phases)));
    assert t in Outstanding(s);
    assert Outstanding(s') == Outstanding(s) - {t};
    forall x | x in s'.queue ensures Waiting(s', x) && PhaseOf(s', x) != Sleeping {
      assert x in s.queue && x != t;
    }
    forall x: Id ensures x in s'.arrivals <==> PhaseOf(s', x) != Idle {
      assert x in s.arrivals <==> PhaseOf(s, x) != Idle;
    }
  }

  /** Every step of every interleaving keeps the protocol safe. */
  lemma StepIsSafe(s: State, step: Step)
    requires Safe(s) && Enabled(s, step)
    ensures Safe(Apply(s, step))
  {
    match step
    case Arrive(t) =>
      JoinIsSafe(s, t);
      EvaluateIsSafe(Joined(s, t), t);
    case Recheck(t) => EvaluateIsSafe(s, t);
    case Wait(t) => WaitIsSafe(s, t);
    case Wake(t) => WakeIsSafe(s, t);
    case Cancel(t) => assert Outstanding(Apply(s, step)) == Outstanding(s);
    case CancelNotify(t) => NotifyIsSafe(s, t);
    case Release(t) => ReleaseIsSafe(s, t);
  }

  lemma {:induction false} RunIsSafe(s: State, steps: seq<Step>)
    requires Safe(s) && Legal(s, steps)
    ensures Safe(Execute(s, steps))
    decreases |steps|
  {
    if steps != [] {
      StepIsSafe(s, steps[0]);
      RunIsSafe(Apply(s, steps[0]), steps[1..]);
    }
  }

  /** Every reachable state, for every capacity and every interleaving. */
  lemma {:induction false} ReachableIsSafe(capacity: nat, steps: seq<Step>)
    requires Legal(Init(capacity), steps)
    ensures Safe(Execute(Init(capacity), steps))
  {
    InitIsSafe(capacity);
    RunIsSafe(Init(capacity), steps);
  }

  /** No state has a queue, everybody in it asleep, and no permit out. */
  lemma QueueIsNeverStuck(s: State)
    requires Safe(s) && s.capacity > 0 && s.queue != []
    requires forall t :: t in s.queue ==> PhaseOf(s, t) == Sleeping
    ensures Outstanding(s) != {}
  {
    assert s.queue[0] in s.queue;
  }

  // ----- what a look decides, and who is woken ----------------------------------------------------------------

  /**
    A look withdraws a thread exactly when it is cancelled, permit or not; otherwise admits it exactly when it is
    the front and there is a permit; and only looks in vain while it is not the front or there is none.
  */
  lemma LookDecides(s: State, t: Id)
    requires Enabled(s, Recheck(t))
    ensures var s' := Apply(s, Recheck(t));
            && (PhaseOf(s', t) == Withdrawn <==> t in s.cancelled)
            && (PhaseOf(s', t) == Running <==> t !in s.cancelled && s.available > 0 && s.queue != [] && s.queue[0] == t)
            && (s'.undefined <==> t !in s.cancelled && s.available > 0 && s.queue == [])
            && (PhaseOf(s', t) == Checked
                <==> t !in s.cancelled && (s.available == 0 || (s.queue != [] && s.queue[0] != t)))
  {
  }

  /** An arrival looks at once, behind everybody else. */
  lemma ArrivalLooks(s: State, t: Id)
    requires Enabled(s, Arrive(t))
    ensures Joined(s, t).queue == s.queue + [t] && Apply(s, Arrive(t)) == Apply(Joined(s, t), Recheck(t))
  {
  }

  /** Steps that notify: an arrival, a withdrawal, a cancellation callback and a returned permit. */
  predicate Notifies(s: State, step: Step) {
    step.Arrive? || step.CancelNotify? || step.Release? || (step.Recheck? && step.t in s.cancelled)
  }

  /** After such a step nobody sleeps. Other steps put to sleep or wake at most their own thread. */
  lemma NotifyWakesEverybody(s: State, step: Step, x: Id)
    requires Enabled(s, step)
    ensures Notifies(s, step) ==> PhaseOf(Apply(s, step), x) != Sleeping
    ensures !Notifies(s, step) && (step.Cancel? || x != step.t) ==>
              (PhaseOf(Apply(s, step), x) == Sleeping <==> PhaseOf(s, x) == Sleeping)
  {
    NotifiedKeepsOutstanding(s, s.(phases := Notified(s.phases)));
  }

  // ----- waiters lost by the cancellation branch ------------------------------------------------------------

  /** Every waiting thread still has its ticket. */
  ghost predicate NobodyLost(s: State) {
    forall t: Id :: Waiting(s, t) ==> t in s.queue
  }

  /** A cancelled thread may leave only from the back of the queue. */
  predicate LeavesFromBack(s: State, step: Step) {
    step.Recheck? && step.t in s.cancelled ==> s.queue != [] && s.queue[|s.queue| - 1] == step.t
  }

  /** The withdrawal of a queued thread loses nobody exactly when its ticket is the last. */
  lemma WithdrawalLosesNobodyIffLast(s: State, t: Id)
    requires Safe(s) && NobodyLost(s) && s.holder == None && PhaseOf(s, t) == Awake && t in s.cancelled
    ensures NobodyLost(Evaluate(s, t)) <==> s.queue[|s.queue| - 1] == t
  {
    var s' := Evaluate(s, t);
    assert Waiting(s, t);
    var i := IndexOf(s.queue, t);
    var last := s.queue[|s.queue| - 1];
    if last == t {
      assert i == |s.queue| - 1;
      forall x: Id | Waiting(s', x) ensures x in s'.queue {
        assert Waiting(s, x) && x != t;
        assert s.queue == s'.queue + [t];
      }
    } else {
      assert last in s.queue;
      assert Waiting(s', last);
    }
  }

  /** Exactly the steps that leave from the middle lose a waiter. */
  lemma StepLosesNobodyIff(s: State, step: Step)
    requires Safe(s) && NobodyLost(s) && Enabled(s, step)
    ensures NobodyLost(Apply(s, step)) <==> LeavesFromBack(s, step)
  {
    var s' := Apply(s, step);
    match step
    case Recheck(t) =>
      if t in s.cancelled {
        assert Waiting(s, t);
        WithdrawalLosesNobodyIffLast(s, t);
      } else {
        AdmissionLosesNobody(s, t);
      }
    case Arrive(t) =>
      JoinIsSafe(s, t);
      JoinLosesNobody(s, t);
      if t in s.cancelled {
        WithdrawalLosesNobodyIffLast(Joined(s, t), t);
      } else {
        AdmissionLosesNobody(Joined(s, t), t);
      }
    case Wait(t) => assert forall x: Id :: Waiting(s', x) ==> Waiting(s, x);
    case Wake(t) => assert forall x: Id :: Waiting(s', x) ==> Waiting(s, x);
    case Cancel(t) => assert forall x: Id :: Waiting(s', x) ==> Waiting(s, x);
    case CancelNotify(_) => NotifiedKeepsOutstanding(s, s');
    case Release(t) =>
      NotifiedKeepsOutstanding(s, s.(phases := Notified(s.phases)));
      assert forall x: Id :: Waiting(s', x) ==> Waiting(s.(phases := Notified(s.phases)), x);
  }

  lemma JoinLosesNobody(s: State, t: Id)
    requires NobodyLost(s)
    ensures NobodyLost(Joined(s, t))
  {
    forall x: Id | Waiting(Joined(s, t), x) ensures x in Joined(s, t).queue {
      assert x == t || Waiting(s, x);
    }
  }

  lemma AdmissionLosesNobody(s: State, t: Id)
    requires NobodyLost(s) && Waiting(s, t) && t !in s.cancelled
    ensures NobodyLost(Evaluate(s, t)) && !(Evaluate(s, t).undefined && !s.undefined)
  {
    assert t in s.queue;
    var s' := Evaluate(s, t);
    forall x: Id | Waiting(s', x) ensures x in s'.queue {
      assert Waiting(s, x);
    }
  }

  predicate AllLeaveFromBack(s: State, steps: seq<Step>)
    decreases |steps|
  {
    steps == [] || (LeavesFromBack(s, steps[0]) && AllLeaveFromBack(Apply(s, steps[0]), steps[1..]))
  }

  ghost predicate NobodyEverLost(s: State, steps: seq<Step>)
    decreases |steps|
  {
    NobodyLost(s) && (steps == [] || NobodyEverLost(Apply(s, steps[0]), steps[1..]))
  }

  /** A run loses nobody at any point iff every cancelled thread leaves from the back. */
  lemma {:induction false} RunLosesNobodyIff(s: State, steps: seq<Step>)
    requires Safe(s) && NobodyLost(s) && Legal(s, steps)
    ensures NobodyEverLost(s, steps) <==> AllLeaveFromBack(s, steps)
    decreases |steps|
  {
    if steps != [] {
      StepIsSafe(s, steps[0]);
      StepLosesNobodyIff(s, steps[0]);
      if LeavesFromBack(s, steps[0]) {
        RunLosesNobodyIff(Apply(s, steps[0]), steps[1..]);
      } else {
        LostNow(Apply(s, steps[0]), steps[1..]);
      }
    }
  }

  lemma LostNow(s: State, steps: seq<Step>)
    requires !NobodyLost(s)
    ensures !NobodyEverLost(s, steps)
  {
  }

  /** While nobody is lost, no step looks at the front of an empty queue. */
  lemma NobodyLostIsDefined(s: State, step: Step)
    requires NobodyLost(s) && Enabled(s, step)
    ensures !Apply(s, step).undefined
  {
    match step
    case Recheck(t) => assert Waiting(s, t);
    case Arrive(t) => assert Joined(s, t).queue != [];
    case _ =>
  }

  /** While nobody is lost, sleepers alone cannot be left behind: some permit is out to wake them. */
  lemma SleepersHaveAPermitOut(s: State)
    requires Safe(s) && NobodyLost(s) && s.capacity > 0
    requires (exists t: Id :: Waiting(s, t)) && forall t: Id :: Waiting(s, t) ==> PhaseOf(s, t) == Sleeping
    ensures Outstanding(s) != {}
  {
    var t: Id :| Waiting(s, t);
    assert s.queue != [];
    QueueIsNeverStuck(s);
  }

  /** The states of a run with capacity one and threads 0, 1 and 2. */
  function LostWaiterState(k: nat): State {
    match k
    case 0 => Init(1)
    case 1 => State(1, 0, [], map[0 := Running], None, {}, false, [0], [0], {}, {})
    case 2 => State(1, 0, [1], map[0 := Running, 1 := Checked], Some(1), {}, false, [0, 1], [0], {}, {})
    case 3 => State(1, 0, [1], map[0 := Running, 1 := Sleeping], None, {}, false, [0, 1], [0], {}, {})
    case 4 =>
      State(1, 0, [1, 2], map[0 := Running, 1 := Awake, 2 := Checked], Some(2), {}, false, [0, 1, 2], [0], {}, {})
    case 5 => State(1, 0, [1, 2], map[0 := Running, 1 := Awake, 2 := Sleeping], None, {}, false, [0, 1, 2], [0], {}, {})
    case 6 => LostWaiterState(5).(cancelled := {1})
    case 7 => LostWaiterState(6).(phases := map[0 := Running, 1 := Awake, 2 := Awake], announced := {1})
    case 8 =>
      State(1, 0, [], map[0 := Running, 1 := Withdrawn, 2 := Awake], None, {1}, false, [0, 1, 2], [0], {1, 2}, {1})
    case 9 => LostWaiterState(8).(phases := map[0 := Running, 1 := Withdrawn, 2 := Checked], holder := Some(2))
    case 10 => LostWaiterState(8).(phases := map[0 := Running, 1 := Withdrawn, 2 := Sleeping])
    case 11 => LostWaiterState(8).(available := 1, phases := map[0 := Finished, 1 := Withdrawn, 2 := Awake])
    case _ => LostWaiterState(11).(undefined := true)
  }

  const LOST_WAITER_STEPS: seq<Step> :=
    [Arrive(0), Arrive(1), Wait(1), Arrive(2), Wait(2), Cancel(1), CancelNotify(1), Recheck(1),
     Recheck(2), Wait(2), Release(0), Recheck(2)]

  lemma LostWaiterStarts()
    ensures Enabled(LostWaiterState(0), LOST_WAITER_STEPS[0])
    ensures Apply(LostWaiterState(0), LOST_WAITER_STEPS[0]) == LostWaiterState(1)
  {
    var s, s' := LostWaiterState(0), Apply(LostWaiterState(0), LOST_WAITER_STEPS[0]);
    assert s'.phases == LostWaiterState(1).phases && s'.queue == LostWaiterState(1).queue;
  }

  lemma LostWaiterArrives(k: nat)
    requires k == 1 || k == 3
    ensures Enabled(LostWaiterState(k), LOST_WAITER_STEPS[k])
    ensures Apply(LostWaiterState(k), LOST_WAITER_STEPS[k]) == LostWaiterState(k + 1)
  {
    if k == 1 {
      var s, s' := LostWaiterState(1), Apply(LostWaiterState(1), LOST_WAITER_STEPS[1]);
      assert s'.phases == LostWaiterState(2).phases && s'.queue == LostWaiterState(2).queue;
    } else if k == 3 {
      var s, s' := LostWaiterState(3), Apply(LostWaiterState(3), LOST_WAITER_STEPS[3]);
      assert s'.phases == LostWaiterState(4).phases && s'.queue == LostWaiterState(4).queue;
    }
  }

  lemma LostWaiterSleeps(k: nat)
    requires k == 2 || k == 4 || k == 9
    ensures Enabled(LostWaiterState(k), LOST_WAITER_STEPS[k])
    ensures Apply(LostWaiterState(k), LOST_WAITER_STEPS[k]) == LostWaiterState(k + 1)
  {
    if k == 2 {
      var s, s' := LostWaiterState(2), Apply(LostWaiterState(2), LOST_WAITER_STEPS[2]);
      assert s'.phases == LostWaiterState(3).phases && s'.queue == LostWaiterState(3).queue;
    } else if k == 4 {
      var s, s' := LostWaiterState(4), Apply(LostWaiterState(4), LOST_WAITER_STEPS[4]);
      assert s'.phases == LostWaiterState(5).phases && s'.queue == LostWaiterState(5).queue;
    } else if k == 9 {
      var s, s' := LostWaiterState(9), Apply(LostWaiterState(9), LOST_WAITER_STEPS[9]);
      assert s'.phases == LostWaiterState(10).phases && s'.queue == LostWaiterState(10).queue;
    }
  }

  lemma LostWaiterIsCancelled(k: nat)
    requires k == 5 || k == 6
    ensures Enabled(LostWaiterState(k), LOST_WAITER_STEPS[k])
    ensures Apply(LostWaiterState(k), LOST_WAITER_STEPS[k]) == LostWaiterState(k + 1)
  {
    if k == 5 {
      var s, s' := LostWaiterState(5), Apply(LostWaiterState(5), LOST_WAITER_STEPS[5]);
      assert s'.phases == LostWaiterState(6).phases && s'.queue == LostWaiterState(6).queue;
    } else if k == 6 {
      var s, s' := LostWaiterState(6), Apply(LostWaiterState(6), LOST_WAITER_STEPS[6]);
      assert s'.phases == LostWaiterState(7).phases && s'.queue == LostWaiterState(7).queue;
    }
  }

  lemma BothErased()
    ensures IndexOf([1, 2], 1) == 0 && (set x | x in [1, 2][0..]) == {1, 2} && [1, 2][..0] == []
  {
    assert [1, 2][0..] == [1, 2];
  }

  lemma LostWaiterErasesTwo()
    ensures Enabled(LostWaiterState(7), LOST_WAITER_STEPS[7])
    ensures Apply(LostWaiterState(7), LOST_WAITER_STEPS[7]) == LostWaiterState(8)
  {
    BothErased();
    var s, s' := LostWaiterState(7), Apply(LostWaiterState(7), LOST_WAITER_STEPS[7]);
    assert s'.phases == LostWaiterState(8).phases && s'.queue == LostWaiterState(8).queue;
  }

  lemma LostWaiterLooks()
    ensures Enabled(LostWaiterState(8), LOST_WAITER_STEPS[8])
    ensures Apply(LostWaiterState(8), LOST_WAITER_STEPS[8]) == LostWaiterState(9)
  {
    var s, s' := LostWaiterState(8), Apply(LostWaiterState(8), LOST_WAITER_STEPS[8]);
    assert s'.phases == LostWaiterState(9).phases;
  }

  lemma LostWaiterGetsPermit(k: nat)
    requires k == 10 || k == 11
    ensures Enabled(LostWaiterState(k), LOST_WAITER_STEPS[k])
    ensures Apply(LostWaiterState(k), LOST_WAITER_STEPS[k]) == LostWaiterState(k + 1)
  {
    if k == 10 {
      var s, s' := LostWaiterState(10), Apply(LostWaiterState(10), LOST_WAITER_STEPS[10]);
      assert s'.phases == LostWaiterState(11).phases && s'.queue == LostWaiterState(11).queue;
    } else if k == 11 {
      var s, s' := LostWaiterState(11), Apply(LostWaiterState(11), LOST_WAITER_STEPS[11]);
      assert s'.phases == LostWaiterState(12).phases && s'.queue == LostWaiterState(12).queue;
    }
  }

  lemma LostWaiterMove(k: nat)
    requires k < 12
    ensures Enabled(LostWaiterState(k), LOST_WAITER_STEPS[k])
    ensures Apply(LostWaiterState(k), LOST_WAITER_STEPS[k]) == LostWaiterState(k + 1)
  {
    hide LostWaiterState, Apply, Enabled;
    match k
    case 0 => LostWaiterStarts();
    case 1 | 3 => LostWaiterArrives(k);
    case 2 | 4 | 9 => LostWaiterSleeps(k);
    case 5 | 6 => LostWaiterIsCancelled(k);
    case 7 => LostWaiterErasesTwo();
    case 8 => LostWaiterLooks();
    case _ => LostWaiterGetsPermit(k);
  }

  lemma {:induction false} LostWaiterMoves(k: nat)
    requires k <= 12
    ensures Legal(LostWaiterState(k), LOST_WAITER_STEPS[k..])
    ensures Execute(LostWaiterState(k), LOST_WAITER_STEPS[k..]) == LostWaiterState(12)
    decreases 12 - k
  {
    hide LostWaiterState, Apply, Enabled;
    if k < 12 {
      LostWaiterMove(k);
      LostWaiterMoves(k + 1);
      assert LOST_WAITER_STEPS[k..][1..] == LOST_WAITER_STEPS[k + 1..];
    }
  }

  /**
    0 runs, 1 and 2 wait, 1 is cancelled and erases the ticket of 2 with its own. When the permit
    comes back, 2 looks at the front of an empty queue.
  */
  lemma LostWaiterRun()
    ensures Legal(Init(1), LOST_WAITER_STEPS) && Execute(Init(1), LOST_WAITER_STEPS).undefined
  {
    hide Legal, Execute;
    LostWaiterMoves(0);
    assert LOST_WAITER_STEPS[0..] == LOST_WAITER_STEPS;
  }

  // ----- cancellations announced too early -------------------------------------------------------------------

  /** Every notification was sent for a cancelled thread. */
  predicate AnnouncedWereCancelled(s: State) {
    s.announced <= s.cancelled
  }

  /** A cancelled thread is awake, or its notification is still to come. */
  ghost predicate CancellationsAreSeen(s: State) {
    forall t: Id :: t in s.cancelled && PhaseOf(s, t) == Sleeping ==> t !in s.announced
  }

  /** The notification came between the thread's look at the token and its wait. */
  predicate SleepsThroughCancellation(s: State, step: Step) {
    step.Wait? && step.t in s.cancelled && step.t in s.announced
  }

  /** Going to sleep after the notification is the only step that misses a cancellation. */
  lemma StepSeesCancellationsIff(s: State, step: Step)
    requires AnnouncedWereCancelled(s) && CancellationsAreSeen(s) && Enabled(s, step)
    ensures AnnouncedWereCancelled(Apply(s, step))
    ensures CancellationsAreSeen(Apply(s, step)) <==> !SleepsThroughCancellation(s, step)
  {
    var s' := Apply(s, step);
    if SleepsThroughCancellation(s, step) {
      assert PhaseOf(s', step.t) == Sleeping;
    } else {
      forall t: Id | t in s'.cancelled && PhaseOf(s', t) == Sleeping ensures t !in s'.announced {
        assert PhaseOf(s, t) == Sleeping || step == Wait(t);
      }
    }
  }

  ghost predicate AlwaysSeen(s: State, steps: seq<Step>)
    decreases |steps|
  {
    CancellationsAreSeen(s) && (steps == [] || AlwaysSeen(Apply(s, steps[0]), steps[1..]))
  }

  predicate NobodySleepsThrough(s: State, steps: seq<Step>)
    decreases |steps|
  {
    steps == [] || (!SleepsThroughCancellation(s, steps[0]) && NobodySleepsThrough(Apply(s, steps[0]), steps[1..]))
  }

  /** In a run every cancelled waiter is awake or about to be, iff nobody goes to sleep after its notification. */
  lemma {:induction false} RunSeesCancellationsIff(s: State, steps: seq<Step>)
    requires AnnouncedWereCancelled(s) && CancellationsAreSeen(s) && Legal(s, steps)
    ensures AlwaysSeen(s, steps) <==> NobodySleepsThrough(s, steps)
    decreases |steps|
  {
    hide CancellationsAreSeen, SleepsThroughCancellation, Enabled, Apply;
    if steps != [] {
      StepSeesCancellationsIff(s, steps[0]);
      if !SleepsThroughCancellation(s, steps[0]) {
        RunSeesCancellationsIff(Apply(s, steps[0]), steps[1..]);
      }
    }
  }

  predicate WithdrawsNext(s: State, t: Id) {
    Enabled(s, Recheck(t)) && PhaseOf(Apply(s, Recheck(t)), t) == Withdrawn
  }

  /**
    A missed cancellation only waits for the next permit: when every waiter sleeps and none has lost
    its ticket, some permit is out, and whichever comes back wakes the cancelled thread, which then
    withdraws at its next look.
  */
  lemma MissedCancellationIsSeenAtNextRelease(s: State, t: Id)
    requires Safe(s) && NobodyLost(s) && s.capacity > 0 && !s.undefined
    requires t in s.cancelled && PhaseOf(s, t) == Sleeping
    requires forall x: Id :: Waiting(s, x) ==> PhaseOf(s, x) == Sleeping
    ensures Outstanding(s) != {}
    ensures forall u :: u in Outstanding(s) ==> Enabled(s, Release(u)) && WithdrawsNext(Apply(s, Release(u)), t)
  {
    assert Waiting(s, t);
    SleepersHaveAPermitOut(s);
    assert s.holder == None by {
      if s.holder.Some? { assert Waiting(s, s.holder.value); }
    }
  }

  /** Whoever looked in vain can miss its cancellation: the token and the notification need no mutex. */
  lemma CheckedThreadCanMiss(s: State, t: Id)
    requires !s.undefined && s.holder == Some(t) && t !in s.announced
    ensures var s' := Apply(Apply(Apply(s, Cancel(t)), CancelNotify(t)), Wait(t));
            && Legal(s, [Cancel(t), CancelNotify(t), Wait(t)])
            && Execute(s, [Cancel(t), CancelNotify(t), Wait(t)]) == s'
            && t in s'.cancelled && PhaseOf(s', t) == Sleeping && t in s'.announced && s'.queue == s.queue
  {
    var s1 := Apply(s, Cancel(t));
    var s2 := Apply(s1, CancelNotify(t));
    var s3 := Apply(s2, Wait(t));
    assert Enabled(s, Cancel(t)) && Enabled(s1, CancelNotify(t)) && Enabled(s2, Wait(t));
    assert PhaseOf(s3, t) == Sleeping;
    hide Apply, Enabled;
    RunFrom(s2, Wait(t), []);
    RunFrom(s1, CancelNotify(t), [Wait(t)]);
    RunFrom(s, Cancel(t), [CancelNotify(t), Wait(t)]);
    assert [Wait(t)] + [] == [Wait(t)] && [CancelNotify(t)] + [Wait(t)] == [CancelNotify(t), Wait(t)];
    assert [Cancel(t)] + [CancelNotify(t), Wait(t)] == [Cancel(t), CancelNotify(t), Wait(t)];
  }

  lemma RunFrom(s: State, step: Step, rest: seq<Step>)
    requires Enabled(s, step) && Legal(Apply(s, step), rest)
    ensures Legal(s, [step] + rest) && Execute(s, [step] + rest) == Execute(Apply(s, step), rest)
  {
    hide Apply, Enabled;
    assert ([step] + rest)[1..] == rest;
  }

  /** 0 runs, 1 has looked in vain; it is cancelled and notified before it waits, and sleeps on. */
  lemma MissedCancellationRun()
    ensures var steps := [Arrive(0), Arrive(1)] + [Cancel(1), CancelNotify(1), Wait(1)];
            var s := Execute(Init(1), steps);
            Legal(Init(1), steps) && 1 in s.cancelled && PhaseOf(s, 1) == Sleeping && 1 in s.announced && s.queue == [1]
  {
    hide Apply, Enabled;
    var last := [Cancel(1), CancelNotify(1), Wait(1)];
    LostWaiterMove(0);
    LostWaiterMove(1);
    assert LostWaiterState(0) == Init(1) && LostWaiterState(2).queue == [1] && LostWaiterState(2).announced == {};
    assert LostWaiterState(2).holder == Some(1) && !LostWaiterState(2).undefined;
    hide *;
    CheckedThreadCanMiss(LostWaiterState(2), 1);
    RunFrom(LostWaiterState(1), Arrive(1), last);
    RunFrom(LostWaiterState(0), Arrive(0), [Arrive(1)] + last);
    assert [Arrive(0)] + ([Arrive(1)] + last) == [Arrive(0), Arrive(1)] + last;
  }

  // ----- the shared object ----------------------------------------------------------------------------------

  /** `FrontOfEmpty` stands for the undefined look at the front of an empty queue. */
  datatype Outcome = Leave | Admitted | MustWait | FrontOfEmpty

  /**
    The fields the mutex protects and the threads that sleep on the condition variable; each method is
    what a thread does under one lock.
  */
  class Controller {
    const capacity: nat
    var available: nat
    var queue: seq<Id>
    var asleep: set<Id>

    constructor (capacity: nat)
      ensures this.capacity == available == capacity && queue == [] && asleep == {}
      ensures Represents(Init(capacity))
    {
      this.capacity, available, queue, asleep := capacity, capacity, [], {};
    }

    ghost predicate Represents(s: State)
      reads this
    {
      && s.capacity == capacity && s.available == available && s.queue == queue
      && forall t: Id :: t in asleep <==> PhaseOf(s, t) == Sleeping
    }

    /** VerificationAdmissionController::create */
    static method Create(capacity: nat) returns (r: Option<Controller>)
      ensures r.Some? <==> capacity > 0
      ensures r.Some? ==> fresh(r.value) && r.value.Represents(Init(capacity))
    {
      if capacity == 0 { return None; }
      var controller := new Controller(capacity);
      r := Some(controller);
    }

    /** notify_all on the condition variable. */
    method NotifyAll()
      modifies this`asleep
      ensures asleep == {}
    {
      asleep := {};
    }

    /** A ticket joins at the back and everybody is notified, before the first look. */
    method Enqueue(t: Id, ghost s: State)
      requires Represents(s)
      modifies this`queue, this`asleep
      ensures Represents(Joined(s, t))
    {
      queue := queue + [t];
      NotifyAll();
    }

    /** One turn of the wait loop. */
    method Look(t: Id, cancelled: bool, ghost s: State) returns (o: Outcome)
      requires Represents(s) && (cancelled <==> t in s.cancelled) && PhaseOf(s, t) == Awake && !s.undefined
      modifies this
      ensures Represents(Evaluate(s, t)) && (o == FrontOfEmpty <==> Evaluate(s, t).undefined)
      ensures o != FrontOfEmpty ==>
                o == match PhaseOf(Evaluate(s, t), t) {
                       case Withdrawn => Leave
                       case Running => Admitted
                       case _ => MustWait }
    {
      if cancelled {
        var i := 0;
        while i < |queue| && queue[i] != t
          invariant i <= |queue| && forall k :: 0 <= k < i ==> queue[k] != t
        {
          i := i + 1;
        }
        assert i == IndexOf(s.queue, t);
        queue := queue[..i];
        NotifyAll();
        return Leave;
      }
      if available != 0 {
        if queue == [] { return FrontOfEmpty; }
        if queue[0] == t {
          queue := queue[1..];
          available := available - 1;
          return Admitted;
        }
      }
      o := MustWait;
    }

    /** The wait that follows a look in vain. */
    method Sleep(t: Id, ghost s: State)
      requires Represents(s) && s.holder == Some(t)
      modifies this`asleep
      ensures Represents(Apply(s, Wait(t)))
    {
      asleep := asleep + {t};
    }

    /** The cancellation callback, which notifies without the mutex. */
    method Announce(ghost t: Id, ghost s: State)
      requires Represents(s)
      modifies this`asleep
      ensures Represents(Apply(s, CancelNotify(t)))
    {
      NotifyAll();
    }

    /** ~Permit */
    method Return(ghost s: State, ghost t: Id)
      requires Represents(s)
      modifies this`available, this`asleep
      ensures Represents(Apply(s, Release(t)))
    {
      available := available + 1;
      NotifyAll();
    }
  }
}
