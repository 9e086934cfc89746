/**
 The coroutine of a single-channel reader, between the processors that run it and the
 dispatchers that fill its buffer and notify it.

 The routine's body, the processor loop and Dispatch take one step per access to shared
 state; any number of processors and dispatchers interleave freely.  NextRoutine, of either
 scheduling policy, is Acquire, UpdateState, and then either the routine or Release.
 NotifyProcessor, of either policy, loads the state twice, once to compare it with DATA_WAIT
 and once with IO_WAIT, and calls SetUpdateFlag if one of the two matched; a notifier that
 always calls it is covered as well.
 */
module Wakeup {
  import Delivery

  type Msg = Delivery.Msg

  datatype RoutineState = READY | FINISHED | SLEEP | IO_WAIT | DATA_WAIT

  /** Where the routine's endless loop stands. */
  datatype Body =
    | AtTop        // about to set DATA_WAIT
    | AtFetch      // about to call TryFetch
    | InCallback   // TryFetch delivered, inside f(msg)
    | AtYieldReady // callback over, about to yield READY
    | AtYield      // TryFetch had nothing, about to yield

  datatype Processor =
    | Searching  // about to Acquire
    | Locked     // acquired, at the start of UpdateState
    | TookFlag   // test_and_set found the flag clear; the state is examined next
    | Decided    // UpdateState returned
    | Resumed    // the routine runs on this processor
    | Releasing  // about to Release

  datatype Dispatcher =
    | Quiet
    | Filled     // message filled, first load of the state next
    | SawOther   // first load was not DATA_WAIT, second load next
    | SawWaiting // saw the routine wait, SetUpdateFlag next

  /** The routine's lock_; who set it is noted, though Release does not look at it. */
  datatype Lock = Free | Held(p: nat)

  /** `flag` is updated_: set means no news.  `got` is history: every message handed to the
      callback, with the position it was filled at. */
  datatype State = State(
    view: Delivery.View,
    got: seq<Delivery.Outcome>,
    state: RoutineState,
    flag: bool,
    lock: Lock,
    forceStop: bool,
    body: Body,
    running: bool,
    processors: map<nat, Processor>,
    dispatchers: map<nat, Dispatcher>,
    checks: bool)

  datatype Action =
    | Process(p: nat, due: bool, blocks: bool, how: RoutineState) // due: wake_time_ has passed;
                                                                  // blocks: the callback yields
    | Dispatch(d: nat, m: Msg)
    | Stop

  function ProcessorAt(ps: map<nat, Processor>, p: nat): Processor {
    if p in ps then ps[p] else Searching
  }

  function DispatcherAt(ds: map<nat, Dispatcher>, d: nat): Dispatcher {
    if d in ds then ds[d] else Quiet
  }

  function Init(size: nat, checks: bool): State {
    State(Delivery.View([], size, 0), [], READY, true, Free, false, AtTop, false, map[], map[], checks)
  }

  /** The cursor is at most one past the newest message. */
  predicate CursorOk(v: Delivery.View) {
    v.next <= Delivery.Tail(v) + 1
  }

  function Waiting(st: RoutineState): bool {
    st == DATA_WAIT || st == IO_WAIT
  }

  function Move(s: State, p: nat, to: Processor): State {
    s.(processors := s.processors[p := to])
  }

  function Turn(s: State, d: nat, to: Dispatcher): State {
    s.(dispatchers := s.dispatchers[d := to])
  }

  /** The routine leaves the processor: SwapContext back to Resume's caller. */
  function SwapOut(s: State, p: nat, st: RoutineState, body: Body): State {
    Move(s.(state := st, body := body, running := false), p, Releasing)
  }

  /** One step of the routine's body on processor `p`. */
  function BodyStep(s: State, p: nat, blocks: bool, how: RoutineState): (s': State)
    requires CursorOk(s.view)
    ensures CursorOk(s'.view)
  {
    match s.body
    case AtTop => s.(state := DATA_WAIT, body := AtFetch)
    case AtFetch =>
      if Delivery.Fetch(s.view).Message?
      then s.(view := Delivery.TryFetch(s.view), got := s.got + [Delivery.Fetch(s.view)], body := InCallback)
      else s.(body := AtYield)
    case InCallback =>
      if blocks && (how == SLEEP || Waiting(how)) then SwapOut(s, p, how, InCallback)
      else s.(body := AtYieldReady)
    case AtYieldReady => SwapOut(s, p, READY, AtTop)
    case AtYield => SwapOut(s, p, s.state, AtTop)
  }

  function ProcessorStep(s: State, p: nat, due: bool, blocks: bool, how: RoutineState): (s': State)
    requires CursorOk(s.view)
    ensures CursorOk(s'.view)
  {
    match ProcessorAt(s.processors, p)
    case Searching => if s.lock.Held? then s else Move(s.(lock := Held(p)), p, Locked)
    case Locked =>
      if s.state == SLEEP && due then Move(s.(state := READY), p, Decided)
      else if !s.flag then Move(s.(flag := true), p, TookFlag)
      else Move(s, p, Decided)
    case TookFlag =>
      Move(if Waiting(s.state) then s.(state := READY) else s, p, Decided)
    case Decided =>
      if s.state != READY then Move(s, p, Releasing)
      else if s.forceStop then Move(s.(state := FINISHED), p, Releasing)
      else Move(s.(running := true), p, Resumed)
    case Resumed => BodyStep(s, p, blocks, how)
    case Releasing => Move(s.(lock := Free), p, Searching)
  }

  function DispatcherStep(s: State, d: nat, m: Msg): (s': State)
    requires CursorOk(s.view)
    ensures CursorOk(s'.view)
  {
    match DispatcherAt(s.dispatchers, d)
    case Quiet => Turn(s.(view := Delivery.Fill(s.view, m)), d, Filled)
    case Filled =>
      if !s.checks then Turn(s.(flag := false), d, Quiet)
      else Turn(s, d, if s.state == DATA_WAIT then SawWaiting else SawOther)
    case SawOther => Turn(s, d, if s.state == IO_WAIT then SawWaiting else Quiet)
    case SawWaiting => Turn(s.(flag := false), d, Quiet)
  }

  function Step(s: State, a: Action): (s': State)
    requires CursorOk(s.view)
    ensures CursorOk(s'.view)
  {
    match a
    case Process(p, due, blocks, how) => ProcessorStep(s, p, due, blocks, how)
    case Dispatch(d, m) => DispatcherStep(s, d, m)
    case Stop => s.(forceStop := true)
  }

  function Execute(size: nat, checks: bool, schedule: seq<Action>): (s: State)
    ensures CursorOk(s.view)
  {
    if schedule == [] then Init(size, checks)
    else Step(Execute(size, checks, schedule[..|schedule| - 1]), schedule[|schedule| - 1])
  }

  // ---------------------------------------------------------------- invariant

  predicate Undelivered(v: Delivery.View) {
    CursorOk(v) && Delivery.Fetch(v).Message?
  }

  /** A dispatcher has filled and not looked at the state yet, or is going to clear the flag. */
  ghost predicate Notifying(ds: map<nat, Dispatcher>) {
    exists d: nat :: WillNotify(DispatcherAt(ds, d))
  }

  /** A notifier that has seen the routine not in DATA_WAIT need do nothing more. */
  predicate WillNotify(d: Dispatcher) {
    d == Filled || d == SawWaiting
  }

  /** A processor has consumed the flag and will now examine the state. */
  predicate FlagInHand(ps: map<nat, Processor>, lock: Lock) {
    lock.Held? && ProcessorAt(ps, lock.p) == TookFlag
  }

  /** The routine needs no further notification to look at its buffer again; or it is inside
      its callback, and will look once the callback has returned. */
  predicate Awake(s: State) {
    || s.state == READY
    || !s.flag
    || FlagInHand(s.processors, s.lock)
    || (s.running && (s.body == AtTop || s.body == AtFetch))
    || s.body == InCallback
    || s.body == AtYieldReady
  }

  /** Only the processor that holds the lock is past its search, and the routine runs
      exactly while that processor has resumed it. */
  ghost predicate Exclusive(ps: map<nat, Processor>, lock: Lock, running: bool) {
    && (forall p: nat | ProcessorAt(ps, p) != Searching :: lock == Held(p))
    && (lock.Held? ==> ProcessorAt(ps, lock.p) != Searching)
    && (running <==> lock.Held? && ProcessorAt(ps, lock.p) == Resumed)
  }

  predicate Consistent(s: State) {
    && CursorOk(s.view)
    && (!s.running ==> s.body == AtTop || s.body == InCallback)
    && (s.state == SLEEP || s.state == IO_WAIT ==> s.body == InCallback)
    && (s.running ==> s.state == READY || s.state == DATA_WAIT)
    && (s.state == FINISHED ==> s.forceStop)
  }

  /** An undelivered message finds the routine awake, unless its notification is under way. */
  ghost predicate Noticed(s: State) {
    Undelivered(s.view) && !s.forceStop && !Notifying(s.dispatchers) ==> Awake(s)
  }

  ghost predicate Inv(s: State) {
    Exclusive(s.processors, s.lock, s.running) && Consistent(s) && Noticed(s)
  }

  /** The lock holder moves on, keeping the lock. */
  lemma HolderMoves(ps: map<nat, Processor>, lock: Lock, running: bool, p: nat, to: Processor)
    requires Exclusive(ps, lock, running) && lock == Held(p) && to != Searching
    ensures Exclusive(ps[p := to], lock, to == Resumed)
  {
  }

  /** The routine's own steps. */
  lemma BodyKeepsInv(s: State, p: nat, blocks: bool, how: RoutineState)
    requires Inv(s) && ProcessorAt(s.processors, p) == Resumed
    ensures Inv(BodyStep(s, p, blocks, how))
  {
    if s.body == AtFetch {
      if Undelivered(s.view) {
        FetchKeepsInv(s, Delivery.TryFetch(s.view), s.got + [Delivery.Fetch(s.view)], InCallback);
      } else {
        FetchKeepsInv(s, s.view, s.got, AtYield);
      }
    } else {
      HolderMoves(s.processors, s.lock, s.running, p, Releasing);
      if s.body == AtYield {
        YieldKeepsNoticed(s, p, blocks, how);
      } else {
        OtherBodyAwake(s, p, blocks, how);
      }
    }
  }

  /** TryFetch: the routine enters its callback, or it has been given every message. */
  lemma FetchKeepsInv(s: State, view: Delivery.View, got: seq<Delivery.Outcome>, body: Body)
    requires Inv(s) && s.running && s.body == AtFetch && CursorOk(view)
    requires body == InCallback || (body == AtYield && !Undelivered(view))
    ensures Inv(s.(view := view, got := got, body := body))
  {
  }

  /** Every step but the fetch and the last yield leaves the routine ready, in its callback or
      about to fetch. */
  lemma OtherBodyAwake(s: State, p: nat, blocks: bool, how: RoutineState)
    requires CursorOk(s.view) && s.running && s.body != AtFetch && s.body != AtYield
    ensures Awake(BodyStep(s, p, blocks, how))
  {
  }

  /** A routine about to sleep is awake only if it is ready or its flag is clear, and it takes
      that to sleep with it. */
  lemma YieldKeepsNoticed(s: State, p: nat, blocks: bool, how: RoutineState)
    requires Inv(s) && s.body == AtYield && ProcessorAt(s.processors, p) == Resumed
    ensures Noticed(BodyStep(s, p, blocks, how))
  {
  }

  /** The processor's steps around the routine. */
  lemma SchedulerKeepsInv(s: State, p: nat, due: bool, blocks: bool, how: RoutineState)
    requires Inv(s) && ProcessorAt(s.processors, p) != Resumed
    ensures Inv(ProcessorStep(s, p, due, blocks, how))
  {
    SchedulerKeepsExclusive(s, p, due, blocks, how);
    SchedulerKeepsNoticed(s, p, due, blocks, how);
  }

  lemma SchedulerKeepsExclusive(s: State, p: nat, due: bool, blocks: bool, how: RoutineState)
    requires CursorOk(s.view) && Exclusive(s.processors, s.lock, s.running)
    requires ProcessorAt(s.processors, p) != Resumed
    ensures var s' := ProcessorStep(s, p, due, blocks, how); Exclusive(s'.processors, s'.lock, s'.running)
  {
    var s' := ProcessorStep(s, p, due, blocks, how);
    var from, to := ProcessorAt(s.processors, p), ProcessorAt(s'.processors, p);
    if from != Searching && to != Searching {
      HolderMoves(s.processors, s.lock, s.running, p, to);
    } else if from != to {
      assert forall q: nat :: ProcessorAt(s'.processors, q) == if q == p then to else ProcessorAt(s.processors, q);
    }
  }

  lemma SchedulerKeepsNoticed(s: State, p: nat, due: bool, blocks: bool, how: RoutineState)
    requires Inv(s) && ProcessorAt(s.processors, p) != Resumed
    ensures Noticed(ProcessorStep(s, p, due, blocks, how))
  {
  }

  lemma DispatcherKeepsInv(s: State, d: nat, m: Msg)
    requires Inv(s)
    ensures Inv(DispatcherStep(s, d, m))
  {
    var s' := DispatcherStep(s, d, m);
    if WillNotify(DispatcherAt(s'.dispatchers, d)) {
      assert Notifying(s'.dispatchers);
    } else if DispatcherAt(s.dispatchers, d) == SawOther {
      OthersNotify(s.dispatchers, d, Quiet);
    } else {
      NotifiedIsAwake(s, d, m);
    }
  }

  /** A dispatcher that is not going to notify, and still is not, makes no difference. */
  lemma OthersNotify(ds: map<nat, Dispatcher>, d: nat, to: Dispatcher)
    requires !WillNotify(DispatcherAt(ds, d)) && !WillNotify(to)
    ensures Notifying(ds) ==> Notifying(ds[d := to])
  {
    if Notifying(ds) {
      var e: nat :| WillNotify(DispatcherAt(ds, e));
      assert WillNotify(DispatcherAt(ds[d := to], e));
    }
  }

  /** A notifier that leaves the flag alone has seen the routine not in DATA_WAIT, and so on
      its way to another TryFetch. */
  lemma NotifiedIsAwake(s: State, d: nat, m: Msg)
    requires Consistent(s) && WillNotify(DispatcherAt(s.dispatchers, d))
    ensures var s' := DispatcherStep(s, d, m);
      !WillNotify(DispatcherAt(s'.dispatchers, d)) && !s'.forceStop ==> Awake(s')
  {
  }

  lemma StepKeepsInv(s: State, a: Action)
    requires Inv(s)
    ensures Inv(Step(s, a))
  {
    match a
    case Process(p, due, blocks, how) =>
      if ProcessorAt(s.processors, p) == Resumed {
        BodyKeepsInv(s, p, blocks, how);
      } else {
        SchedulerKeepsInv(s, p, due, blocks, how);
      }
    case Dispatch(d, m) => DispatcherKeepsInv(s, d, m);
    case Stop =>
  }

  lemma {:induction false} RunInv(size: nat, checks: bool, schedule: seq<Action>)
    ensures Inv(Execute(size, checks, schedule))
  {
    if schedule != [] {
      RunInv(size, checks, schedule[..|schedule| - 1]);
      StepKeepsInv(Execute(size, checks, schedule[..|schedule| - 1]), schedule[|schedule| - 1]);
    }
  }

  // ------------------------------------------------- what callers can rely on

  /** No lost wakeup, with either kind of notifier: once every Dispatch has finished, or has
      got as far as seeing the routine not in DATA_WAIT, a message that is still undelivered
      finds the routine ready, or its flag clear or just consumed, or on its way to the next
      TryFetch, or inside its callback. */
  lemma NoLostWakeup(size: nat, checks: bool, schedule: seq<Action>)
    ensures var s := Execute(size, checks, schedule);
      Undelivered(s.view) && !s.forceStop && (forall d: nat :: !WillNotify(DispatcherAt(s.dispatchers, d))) ==>
        || s.state == READY
        || !s.flag
        || FlagInHand(s.processors, s.lock)
        || (s.running && (s.body == AtTop || s.body == AtFetch))
        || s.body == InCallback || s.body == AtYieldReady
  {
    RunInv(size, checks, schedule);
  }

  /** The routine sleeps with its flag set, and nobody notifies or schedules it. */
  ghost predicate Asleep(s: State) {
    && !s.forceStop && s.state == DATA_WAIT && s.flag && s.body == AtTop
    && (forall d: nat :: !WillNotify(DispatcherAt(s.dispatchers, d)))
    && (forall p: nat :: ProcessorAt(s.processors, p) == Searching)
  }

  /** The converse reading: a routine that is asleep has nothing to fetch, and the last message
      its callback got is the newest. */
  lemma SleeperMissesNothing(size: nat, checks: bool, schedule: seq<Action>)
    requires Asleep(Execute(size, checks, schedule))
    ensures var s := Execute(size, checks, schedule);
      Delivery.Fetch(s.view).Nothing? && LastIsNewest(s.view, s.got)
  {
    RunInv(size, checks, schedule);
    CallbacksAreFaithful(size, checks, schedule);
    SleeperIsUpToDate(Execute(size, checks, schedule));
  }

  ghost predicate LastIsNewest(v: Delivery.View, got: seq<Delivery.Outcome>) {
    var n := |v.filled|;
    n > 0 ==> got != [] && got[|got| - 1] == Delivery.Message(n, v.filled[n - 1])
  }

  lemma SleeperIsUpToDate(s: State)
    requires Inv(s) && Delivery.Faithful(LogOf(s)) && Asleep(s)
    ensures Delivery.Fetch(s.view).Nothing? && LastIsNewest(s.view, s.got)
  {
    assert s.lock.Held? ==> ProcessorAt(s.processors, s.lock.p) != Searching;
    Delivery.FetchByLag(s.view);
    if s.got != [] {
      assert Delivery.Genuine(s.view, s.got[|s.got| - 1]);
    }
  }

  /** Processor `p` takes `k` steps while nobody else moves. */
  function Alone(s: State, p: nat, k: nat): (s': State)
    requires CursorOk(s.view)
    ensures CursorOk(s'.view)
  {
    if k == 0 then s else ProcessorStep(Alone(s, p, k - 1), p, false, false, READY)
  }

  /** The wakeup is not only kept but taken: whenever a message is undelivered, every Dispatch
      has finished and the routine is parked at the top of its loop, any processor that looks
      for work delivers the next message within six steps. */
  lemma WakeupIsTaken(size: nat, checks: bool, schedule: seq<Action>, p: nat) returns (k: nat)
    requires var s := Execute(size, checks, schedule);
      && Undelivered(s.view) && !s.forceStop && s.body == AtTop
      && (forall d: nat :: !WillNotify(DispatcherAt(s.dispatchers, d)))
      && (forall q: nat :: ProcessorAt(s.processors, q) == Searching)
    ensures k <= 6
    ensures var s := Execute(size, checks, schedule);
      var s' := Alone(s, p, k);
      s'.body == InCallback && s'.view == Delivery.TryFetch(s.view)
  {
    RunInv(size, checks, schedule);
    var s := Execute(size, checks, schedule);
    assert s.lock.Held? ==> ProcessorAt(s.processors, s.lock.p) != Searching;
    assert Awake(s) && s.lock == Free && !s.running;
    LockAlone(s, p);
    var s2 := ReadyAlone(s, Alone(s, p, 1), p);
    k := if s.flag then 5 else 6;
    RunAlone(s, s2, p, k - 3);
  }

  /** Acquire succeeds on a free lock. */
  lemma LockAlone(s: State, p: nat)
    requires CursorOk(s.view) && s.lock == Free && ProcessorAt(s.processors, p) == Searching
    ensures Alone(s, p, 1) == Move(s.(lock := Held(p)), p, Locked)
    ensures ProcessorAt(Alone(s, p, 1).processors, p) == Locked
  {
  }

  /** Resume, set DATA_WAIT, TryFetch. */
  lemma RunAlone(s: State, s2: State, p: nat, k: nat)
    requires CursorOk(s.view) && s2 == Alone(s, p, k)
    requires ProcessorAt(s2.processors, p) == Decided && s2.state == READY && !s2.forceStop
    requires s2.body == AtTop && Undelivered(s2.view)
    ensures Alone(s, p, k + 3).body == InCallback && Alone(s, p, k + 3).view == Delivery.TryFetch(s2.view)
  {
    var s3 := Alone(s, p, k + 1);
    assert s3 == Move(s2.(running := true), p, Resumed);
    var s4 := Alone(s, p, k + 2);
    assert s4 == s3.(state := DATA_WAIT, body := AtFetch);
  }

  /** UpdateState on the locked routine makes it ready. */
  lemma ReadyAlone(s: State, s1: State, p: nat) returns (s2: State)
    requires CursorOk(s.view) && s1 == Alone(s, p, 1) && ProcessorAt(s1.processors, p) == Locked
    requires s1.state == READY || (!s1.flag && Waiting(s1.state))
    ensures s2 == Alone(s, p, if s1.flag then 2 else 3)
    ensures ProcessorAt(s2.processors, p) == Decided && s2.state == READY
    ensures s2.view == s1.view && s2.body == s1.body && s2.forceStop == s1.forceStop
  {
    s2 := Alone(s, p, 2);
    if !s1.flag {
      assert ProcessorAt(s2.processors, p) == TookFlag;
      s2 := ProcessorStep(s2, p, false, false, READY);
      assert s2 == Alone(s, p, 3);
    }
  }

  // ---------------------------------------------------------------- what the callback gets

  /** The routine calls TryFetch. */
  predicate Fetches(s: State, a: Action) {
    a.Process? && ProcessorAt(s.processors, a.p) == Resumed && s.body == AtFetch
  }

  /** A Dispatch fills the buffer. */
  predicate FillsNow(s: State, a: Action) {
    a.Dispatch? && DispatcherAt(s.dispatchers, a.d) == Quiet
  }

  /** The operation on the buffer that a step performs, if any. */
  function OpOf(s: State, a: Action): seq<Delivery.Op> {
    if Fetches(s, a) then [Delivery.OpTryFetch]
    else if FillsNow(s, a) then [Delivery.OpFill(a.m)]
    else []
  }

  /** The operations on the buffer that a schedule performs, in order. */
  function OpsOf(size: nat, checks: bool, schedule: seq<Action>): seq<Delivery.Op> {
    if schedule == [] then []
    else
      var before, a := schedule[..|schedule| - 1], schedule[|schedule| - 1];
      OpsOf(size, checks, before) + OpOf(Execute(size, checks, before), a)
  }

  function LogOf(s: State): Delivery.Log {
    Delivery.Log(s.view, s.got)
  }

  /** A step changes the view and the callback's log as its operation does, if it has one. */
  lemma LogStep(s: State, a: Action)
    requires CursorOk(s.view)
    ensures LogOf(Step(s, a)) ==
            if Fetches(s, a) then Delivery.Apply(LogOf(s), Delivery.OpTryFetch)
            else if FillsNow(s, a) then Delivery.Apply(LogOf(s), Delivery.OpFill(a.m))
            else LogOf(s)
  {
    match a
    case Stop =>
    case Dispatch(d, m) =>
    case Process(p, due, blocks, how) =>
      if ProcessorAt(s.processors, p) == Resumed {
        BodyLog(s, p, blocks, how);
      }
  }

  lemma BodyLog(s: State, p: nat, blocks: bool, how: RoutineState)
    requires CursorOk(s.view)
    ensures LogOf(BodyStep(s, p, blocks, how)) ==
            if s.body == AtFetch then Delivery.Apply(LogOf(s), Delivery.OpTryFetch) else LogOf(s)
  {
    if s.body != AtFetch {
      QuietBody(s, p, blocks, how);
    }
  }

  lemma QuietBody(s: State, p: nat, blocks: bool, how: RoutineState)
    requires CursorOk(s.view) && s.body != AtFetch
    ensures LogOf(BodyStep(s, p, blocks, how)) == LogOf(s)
  {
  }

  /** In every run the buffer and what was handed to the callback are what the delivery model
      makes of the run's own fills and fetches, in the order in which they happened. */
  lemma {:induction false} RoutineFollowsDelivery(size: nat, checks: bool, schedule: seq<Action>)
    ensures LogOf(Execute(size, checks, schedule)) == Delivery.Play(size, OpsOf(size, checks, schedule))
    ensures Execute(size, checks, schedule).view.filled == Delivery.Fills(OpsOf(size, checks, schedule))
  {
    var ops := OpsOf(size, checks, schedule);
    if schedule != [] {
      var before, a := schedule[..|schedule| - 1], schedule[|schedule| - 1];
      RoutineFollowsDelivery(size, checks, before);
      LogStep(Execute(size, checks, before), a);
      PlayMore(size, OpsOf(size, checks, before), OpOf(Execute(size, checks, before), a));
    }
    Delivery.FilledAreFills(size, ops);
  }

  lemma PlayMore(size: nat, ops: seq<Delivery.Op>, more: seq<Delivery.Op>)
    requires |more| <= 1
    ensures Delivery.Play(size, ops + more) ==
            if more == [] then Delivery.Play(size, ops) else Delivery.Apply(Delivery.Play(size, ops), more[0])
  {
    if more == [] {
      assert ops + more == ops;
    } else {
      assert (ops + more)[..|ops|] == ops;
    }
  }

  /** In every run the callback gets messages that were dispatched, in increasing order of
      position, none twice, and skips only after lagging by more than the queue size. */
  lemma CallbacksAreFaithful(size: nat, checks: bool, schedule: seq<Action>)
    ensures Delivery.Faithful(LogOf(Execute(size, checks, schedule)))
    ensures Delivery.GapsAreLong(Execute(size, checks, schedule).got, size)
  {
    RoutineFollowsDelivery(size, checks, schedule);
    Delivery.DeliveryIsFaithful(size, OpsOf(size, checks, schedule));
    Delivery.SkipsOnlyWhenLagging(size, OpsOf(size, checks, schedule));
  }

  /** In every run, when the routine fetches, the callback gets exactly what is due of the messages
      dispatched so far: at first the newest, later the next or, after a lag, the newest. */
  lemma CallbackGetsWhatIsDue(size: nat, checks: bool, schedule: seq<Action>, a: Action)
    requires Fetches(Execute(size, checks, schedule), a)
    ensures var (s, ops) := (Execute(size, checks, schedule), OpsOf(size, checks, schedule));
      Step(s, a).got == s.got + Delivery.Due(size, Delivery.Fills(ops), s.got)
  {
    var s := Execute(size, checks, schedule);
    RoutineFollowsDelivery(size, checks, schedule);
    CallbacksAreFaithful(size, checks, schedule);
    Delivery.DeliveryIsFaithful(size, OpsOf(size, checks, schedule));
    LogStep(s, a);
    Delivery.FetchIsDue(LogOf(s));
  }

  /** Whenever the routine calls TryFetch it has kept up. */
  ghost predicate NeverLags(size: nat, checks: bool, schedule: seq<Action>) {
    forall n | 0 <= n < |schedule| && Fetches(Execute(size, checks, schedule[..n]), schedule[n]) ::
      Delivery.KeepsUp(Execute(size, checks, schedule[..n]).view)
  }

  /** In every run in which the routine never lags, the callback gets every message after its
      first exactly once. */
  lemma {:induction false} CallbacksHaveNoGaps(size: nat, checks: bool, schedule: seq<Action>)
    requires NeverLags(size, checks, schedule)
    ensures Delivery.Gapless(Execute(size, checks, schedule).got)
  {
    if schedule != [] {
      var n := |schedule| - 1;
      var before := schedule[..n];
      assert forall k | 0 <= k < n :: before[..k] == schedule[..k] && before[k] == schedule[k];
      CallbacksHaveNoGaps(size, checks, before);
      CallbacksAreFaithful(size, checks, before);
      GaplessStep(Execute(size, checks, before), schedule[n]);
    }
  }

  lemma GaplessStep(s: State, a: Action)
    requires CursorOk(s.view) && Delivery.Faithful(LogOf(s)) && Delivery.Gapless(s.got)
    requires Fetches(s, a) ==> Delivery.KeepsUp(s.view)
    ensures Delivery.Gapless(Step(s, a).got)
  {
    LogStep(s, a);
    if Fetches(s, a) {
      Delivery.ApplyKeepsGapless(LogOf(s), Delivery.OpTryFetch);
    }
  }
}
