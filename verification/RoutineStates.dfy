/**
 What becomes of the state of the routine: when a routine that is parked is made ready, what it
 keeps until then, and that a stopped routine stays stopped.
 */
module RoutineStates {
  import Delivery
  import opened Wakeup

  // ---------------------------------------------------------------- who moves the routine

  /** The routine's loop and what its callback got are as before. */
  predicate BodyKept(s: State, s': State) {
    s'.body == s.body && s'.got == s.got
  }

  /** A processor's steps around the routine. */
  lemma SchedulerKeepsBody(s: State, p: nat, due: bool, blocks: bool, how: RoutineState)
    requires CursorOk(s.view) && ProcessorAt(s.processors, p) != Resumed
    ensures var s' := ProcessorStep(s, p, due, blocks, how); BodyKept(s, s') && s'.forceStop == s.forceStop
  {
  }

  lemma DispatcherKeepsRoutine(s: State, d: nat, m: Msg)
    requires CursorOk(s.view)
    ensures var s' := DispatcherStep(s, d, m);
      && BodyKept(s, s') && s'.state == s.state && s'.running == s.running && s'.forceStop == s.forceStop
      && s'.processors == s.processors && s'.lock == s.lock
  {
  }

  /** The routine's own steps leave the dispatchers and the request to stop as they are. */
  lemma BodyKeepsRest(s: State, p: nat, blocks: bool, how: RoutineState)
    requires CursorOk(s.view)
    ensures var s' := BodyStep(s, p, blocks, how); s'.forceStop == s.forceStop && s'.dispatchers == s.dispatchers
  {
    if s.body == AtFetch {
      FetchKeepsRest(s, p, blocks, how);
    } else {
      LoopKeepsRest(s, p, blocks, how);
    }
  }

  lemma FetchKeepsRest(s: State, p: nat, blocks: bool, how: RoutineState)
    requires CursorOk(s.view) && s.body == AtFetch
    ensures var s' := BodyStep(s, p, blocks, how); s'.forceStop == s.forceStop && s'.dispatchers == s.dispatchers
  {
  }

  lemma LoopKeepsRest(s: State, p: nat, blocks: bool, how: RoutineState)
    requires CursorOk(s.view) && s.body != AtFetch
    ensures var s' := BodyStep(s, p, blocks, how); s'.forceStop == s.forceStop && s'.dispatchers == s.dispatchers
  {
  }

  /** The loop moves and the callback gets messages only by steps of the processor that runs the
      routine; being scheduled and resumed leaves them where they were. */
  lemma OnlyTheRunnerMovesIt(s: State, a: Action)
    requires CursorOk(s.view) && (a.Process? ==> ProcessorAt(s.processors, a.p) != Resumed)
    ensures BodyKept(s, Step(s, a))
  {
    match a
    case Process(p, due, blocks, how) => SchedulerKeepsBody(s, p, due, blocks, how);
    case Dispatch(d, m) => DispatcherKeepsRoutine(s, d, m);
    case Stop =>
  }

  // ---------------------------------------------------------------- parked

  /** The routine has left the processor to wait for something. */
  predicate Parked(s: State) {
    !s.running && (s.state == SLEEP || Waiting(s.state))
  }

  /** The step is the one of UpdateState that makes a parked routine ready: for a sleeping one,
      the look at the clock, and the wake time has passed; for a waiting one, the look at the
      state after the flag was found clear. */
  predicate Wakes(s: State, a: Action) {
    && a.Process?
    && (if s.state == SLEEP then ProcessorAt(s.processors, a.p) == Locked && a.due
        else ProcessorAt(s.processors, a.p) == TookFlag)
  }

  lemma ParkedStep(s: State, a: Action)
    requires Inv(s) && Parked(s)
    ensures var s' := Step(s, a);
      && BodyKept(s, s') && !s'.running
      && s'.state == if Wakes(s, a) then READY else s.state
  {
    assert forall p: nat :: ProcessorAt(s.processors, p) == Resumed ==> s.running;
    OnlyTheRunnerMovesIt(s, a);
    match a
    case Process(p, due, blocks, how) => ParkedScheduled(s, p, due, blocks, how);
    case Dispatch(d, m) => DispatcherKeepsRoutine(s, d, m);
    case Stop =>
  }

  lemma ParkedScheduled(s: State, p: nat, due: bool, blocks: bool, how: RoutineState)
    requires Inv(s) && Parked(s) && ProcessorAt(s.processors, p) != Resumed
    ensures var s' := ProcessorStep(s, p, due, blocks, how);
      !s'.running && s'.state == if Wakes(s, Process(p, due, blocks, how)) then READY else s.state
  {
  }

  /** In every run, a step makes a parked routine ready if and only if it is the step of
      UpdateState that is to do so: a sleeping routine exactly when its wake time has passed, a
      waiting one exactly when its flag was found clear.  Until then it stays in the state its
      callback or its loop yielded, and its callback neither goes on nor gets a message. */
  lemma WokenExactly(size: nat, checks: bool, schedule: seq<Action>, a: Action)
    requires Parked(Execute(size, checks, schedule))
    ensures var (s, s') := (Execute(size, checks, schedule), Step(Execute(size, checks, schedule), a));
      && BodyKept(s, s') && !s'.running
      && (s'.state == READY <==> Wakes(s, a)) && (s'.state == s.state <==> !Wakes(s, a))
  {
    RunInv(size, checks, schedule);
    ParkedStep(Execute(size, checks, schedule), a);
  }

  /** In every run, a callback that yields parks the routine in the state it asked for, where it
      will go on. */
  lemma ParksAsAsked(size: nat, checks: bool, schedule: seq<Action>, a: Action)
    requires var s := Execute(size, checks, schedule);
      && a.Process? && ProcessorAt(s.processors, a.p) == Resumed && s.body == InCallback
      && a.blocks && (a.how == SLEEP || Waiting(a.how))
    ensures var s' := Step(Execute(size, checks, schedule), a);
      Parked(s') && s'.state == a.how && BodyKept(Execute(size, checks, schedule), s')
  {
    RunInv(size, checks, schedule);
  }

  /** The routine keeps running through the steps. */
  predicate StaysOn(s: State, more: seq<Action>)
    requires CursorOk(s.view)
    decreases |more|
  {
    s.running && (more != [] ==> StaysOn(Step(s, more[0]), more[1..]))
  }

  /** `n` messages were delivered before the turn; one more since, if the loop is past its fetch. */
  predicate InTurn(s: State, n: nat) {
    |s.got| == if s.body == InCallback || s.body == AtYieldReady then n + 1 else n
  }

  lemma TurnStep(s: State, a: Action, n: nat)
    requires Inv(s) && s.running && InTurn(s, n) && Step(s, a).running
    ensures InTurn(Step(s, a), n)
  {
    if a.Process? && ProcessorAt(s.processors, a.p) == Resumed {
      TurnBody(s, a.p, a.blocks, a.how, n);
    } else {
      OnlyTheRunnerMovesIt(s, a);
    }
  }

  lemma TurnBody(s: State, p: nat, blocks: bool, how: RoutineState, n: nat)
    requires CursorOk(s.view) && InTurn(s, n) && BodyStep(s, p, blocks, how).running
    ensures InTurn(BodyStep(s, p, blocks, how), n)
  {
    if s.body == AtFetch {
      TurnFetch(s, p, blocks, how, n);
    } else {
      QuietBody(s, p, blocks, how);
    }
  }

  lemma TurnFetch(s: State, p: nat, blocks: bool, how: RoutineState, n: nat)
    requires CursorOk(s.view) && InTurn(s, n) && s.body == AtFetch
    ensures InTurn(BodyStep(s, p, blocks, how), n)
  {
    var s' := BodyStep(s, p, blocks, how);
    assert s'.body == if Delivery.Fetch(s.view).Message? then InCallback else AtYield;
  }

  /** From one resumption at the top of its loop to the next yield the routine gets at most one
      message, whatever others do meanwhile. */
  lemma {:induction false} OneMessageATurn(s: State, more: seq<Action>, n: nat)
    requires Inv(s) && InTurn(s, n) && StaysOn(s, more)
    ensures n <= |After(s, more).got| <= n + 1
    decreases |more|
  {
    if more != [] {
      TurnStep(s, more[0], n);
      StepKeepsInv(s, more[0]);
      OneMessageATurn(Step(s, more[0]), more[1..], n);
    }
  }

  // ---------------------------------------------------------------- UpdateState as a whole

  function After(s: State, more: seq<Action>): (s': State)
    requires CursorOk(s.view)
    ensures CursorOk(s'.view)
    decreases |more|
  {
    if more == [] then s else After(Step(s, more[0]), more[1..])
  }

  predicate Others(more: seq<Action>, p: nat) {
    forall i | 0 <= i < |more| :: more[i].Process? ==> more[i].p != p
  }

  /** While a processor has the routine's lock and does not run it, nobody else changes its state. */
  lemma OthersStep(s: State, a: Action, p: nat)
    requires Inv(s) && s.lock == Held(p) && !s.running && (a.Process? ==> a.p != p)
    ensures var s' := Step(s, a);
      && s'.state == s.state && s'.lock == s.lock && !s'.running
      && ProcessorAt(s'.processors, p) == ProcessorAt(s.processors, p)
  {
    assert a.Process? ==> ProcessorAt(s.processors, a.p) == Searching;
  }

  lemma {:induction false} OthersLeave(s: State, more: seq<Action>, p: nat)
    requires Inv(s) && s.lock == Held(p) && !s.running && Others(more, p)
    ensures var s' := After(s, more);
      s'.state == s.state && ProcessorAt(s'.processors, p) == ProcessorAt(s.processors, p)
    decreases |more|
  {
    if more != [] {
      OthersStep(s, more[0], p);
      StepKeepsInv(s, more[0]);
      OthersLeave(Step(s, more[0]), more[1..], p);
    }
  }

  /** UpdateState finds the routine ready: it was, or it slept and is due, or it waited and its
      flag was clear. */
  predicate FoundReady(s: State, due: bool) {
    s.state == READY || (s.state == SLEEP && due) || (Waiting(s.state) && !s.flag)
  }

  /** UpdateState, in every run and whatever others do between its two steps, ends with the
      routine ready if and only if it was ready before, slept and its wake time has passed, or
      waited and its flag was clear. */
  lemma UpdateStateExactly(
    size: nat, checks: bool, schedule: seq<Action>, a: Action, others: seq<Action>, b: Action)
    requires a.Process? && b.Process? && b.p == a.p && Others(others, a.p)
    requires ProcessorAt(Execute(size, checks, schedule).processors, a.p) == Locked
    ensures var s := Execute(size, checks, schedule);
      var s1 := Step(s, a);
      var s2 := if ProcessorAt(s1.processors, a.p) == Decided then s1 else Step(After(s1, others), b);
      ProcessorAt(s2.processors, a.p) == Decided && (s2.state == READY <==> FoundReady(s, a.due))
  {
    var s := Execute(size, checks, schedule);
    RunInv(size, checks, schedule);
    StepKeepsInv(s, a);
    var s1 := Step(s, a);
    if ProcessorAt(s1.processors, a.p) == TookFlag {
      OthersLeave(s1, others, a.p);
    }
  }

  // ---------------------------------------------------------------- stopping

  /** A finished routine stays finished, and its callback is not called again, however the run
      goes on. */
  lemma {:induction false} FinishedForGood(s: State, more: seq<Action>)
    requires Inv(s) && s.state == FINISHED
    ensures After(s, more).state == FINISHED && BodyKept(s, After(s, more))
    decreases |more|
  {
    if more != [] {
      FinishedStep(s, more[0]);
      StepKeepsInv(s, more[0]);
      FinishedForGood(Step(s, more[0]), more[1..]);
    }
  }

  lemma FinishedStep(s: State, a: Action)
    requires Inv(s) && s.state == FINISHED
    ensures Step(s, a).state == FINISHED && BodyKept(s, Step(s, a))
  {
    assert forall p: nat :: ProcessorAt(s.processors, p) == Resumed ==> s.running;
  }

  /** From Stop on, the request stays and no processor resumes the routine: a ready routine that a
      processor would resume is finished instead. */
  lemma StopTakesHold(s: State, a: Action)
    requires Inv(s) && (s.forceStop || a == Stop)
    ensures var s' := Step(s, a);
      && s'.forceStop && (s'.running ==> s.running)
      && (a.Process? && ProcessorAt(s.processors, a.p) == Decided && s.state == READY ==> s'.state == FINISHED)
  {
    match a
    case Process(p, due, blocks, how) => StoppedScheduled(s, p, due, blocks, how);
    case Dispatch(d, m) => DispatcherKeepsRoutine(s, d, m);
    case Stop =>
  }

  lemma StoppedScheduled(s: State, p: nat, due: bool, blocks: bool, how: RoutineState)
    requires Inv(s) && s.forceStop
    ensures var s' := ProcessorStep(s, p, due, blocks, how);
      && s'.forceStop && (s'.running ==> s.running)
      && (ProcessorAt(s.processors, p) == Decided && s.state == READY ==> s'.state == FINISHED)
  {
    if ProcessorAt(s.processors, p) == Resumed {
      BodyKeepsRest(s, p, blocks, how);
    } else {
      SchedulerKeepsBody(s, p, due, blocks, how);
    }
  }

  // ---------------------------------------------------------------- notifying

  /** Dispatcher `d` takes `k` steps in a row. */
  function DispatchAlone(s: State, d: nat, m: Msg, k: nat): State
    requires CursorOk(s.view)
    decreases k
  {
    if k == 0 then s else DispatchAlone(DispatcherStep(s, d, m), d, m, k - 1)
  }

  function DispatchRemaining(d: Dispatcher): nat {
    match d case Quiet => 0 case Filled => 3 case SawOther => 2 case SawWaiting => 1
  }

  /** Nothing holds up a Dispatch: from any state, one that has filled its message finishes within
      three steps of its own. */
  lemma {:induction false} DispatchFinishes(s: State, d: nat, m: Msg) returns (k: nat)
    requires CursorOk(s.view)
    ensures k <= DispatchRemaining(DispatcherAt(s.dispatchers, d)) <= 3
    ensures DispatcherAt(DispatchAlone(s, d, m, k).dispatchers, d) == Quiet
    decreases DispatchRemaining(DispatcherAt(s.dispatchers, d))
  {
    k := 0;
    if DispatcherAt(s.dispatchers, d) != Quiet {
      k := DispatchFinishes(DispatcherStep(s, d, m), d, m);
      k := k + 1;
    }
  }

  /** The state of the routine is `st` through all the steps. */
  predicate StaysIn(s: State, more: seq<Action>, st: RoutineState)
    requires CursorOk(s.view)
    decreases |more|
  {
    s.state == st && (more != [] ==> StaysIn(Step(s, more[0]), more[1..], st))
  }

  /** Dispatcher `d` is going to clear the flag of a routine that keeps waiting. */
  predicate WillClear(s: State, d: nat, st: RoutineState) {
    || DispatcherAt(s.dispatchers, d) == Filled
    || DispatcherAt(s.dispatchers, d) == SawWaiting
    || (DispatcherAt(s.dispatchers, d) == SawOther && st == IO_WAIT)
  }

  /** One of the steps is dispatcher `d`'s and leaves the flag clear. */
  predicate Cleared(s: State, more: seq<Action>, d: nat)
    requires CursorOk(s.view)
    decreases |more|
  {
    more != [] &&
    (|| (more[0].Dispatch? && more[0].d == d && !Step(s, more[0]).flag)
     || Cleared(Step(s, more[0]), more[1..], d))
  }

  lemma ClearStep(s: State, a: Action, d: nat)
    requires CursorOk(s.view) && Waiting(s.state) && WillClear(s, d, s.state)
    ensures WillClear(Step(s, a), d, s.state) || (a.Dispatch? && a.d == d && !Step(s, a).flag)
  {
    if a.Process? {
      ProcessorKeepsDispatchers(s, a.p, a.due, a.blocks, a.how);
    }
  }

  lemma ProcessorKeepsDispatchers(s: State, p: nat, due: bool, blocks: bool, how: RoutineState)
    requires CursorOk(s.view)
    ensures ProcessorStep(s, p, due, blocks, how).dispatchers == s.dispatchers
  {
    if ProcessorAt(s.processors, p) == Resumed {
      BodyKeepsRest(s, p, blocks, how);
    }
  }

  /** A routine that waits for data or for IO is notified of every message: however the run goes on
      while it waits, a Dispatch that has filled its message clears the flag before it ends. */
  lemma {:induction false} WaitingIsNotified(s: State, more: seq<Action>, d: nat, st: RoutineState)
    requires CursorOk(s.view) && Waiting(st) && StaysIn(s, more, st) && WillClear(s, d, st)
    ensures Cleared(s, more, d) || WillClear(After(s, more), d, st)
    decreases |more|
  {
    if more != [] {
      ClearStep(s, more[0], d);
      if WillClear(Step(s, more[0]), d, st) {
        WaitingIsNotified(Step(s, more[0]), more[1..], d, st);
      }
    }
  }
}
