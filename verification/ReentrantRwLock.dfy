/**
 ReentrantRWLock with any number of threads that use it through nested guards.  One step is
 one access to lock_num_, write_lock_wait_num_ or write_thread_id_; in particular the two
 accesses of WriteUnlock are two steps.  A thread only ever closes its innermost guard, as
 guard objects in nested scopes do.
 */
module ReentrantRwLock {

  datatype Guard = R | W

  datatype Pc =
    | Ready
    | ReadAsk           // not the owner, about to load lock_num_
    | ReadHave(n: int)  // lock_num_ loaded, loop condition to be evaluated
    | ReadPassed(n: int) // condition passed, CAS n -> n + 1 next
    | ReadLeave         // ReadUnlock, not the owner, about to decrement
    | WriteNest         // WriteLock by the owner, about to decrement
    | WriteAsk          // not the owner, about to increment the wait count
    | WriteWaiting      // CAS 0 -> -1 next
    | WriteWon          // CAS succeeded, owner to be set next
    | WriteOwned        // owner set, wait count to be decremented next
    | Clearing          // WriteUnlock saw -1, owner to be cleared next

  /** `stack` is the guards the thread has open, outermost first. */
  datatype Thread = Thread(stack: seq<Guard>, pc: Pc)

  datatype Owner = NoOne | Is(t: nat)

  datatype State = State(lockNum: int, waitNum: int, owner: Owner, writeFirst: bool, threads: map<nat, Thread>)

  datatype Call = OpenRead | OpenWrite | Close

  const ALL_CALLS := {OpenRead, OpenWrite, Close}

  datatype Action = Action(t: nat, call: Call, weak: bool)

  function At(ts: map<nat, Thread>, t: nat): Thread {
    if t in ts then ts[t] else Thread([], Ready)
  }

  function Init(writeFirst: bool): State {
    State(0, 0, NoOne, writeFirst, map[])
  }

  function Put(s: State, t: nat, th: Thread): State {
    s.(threads := s.threads[t := th])
  }

  function Top(stack: seq<Guard>): Guard
    requires stack != []
  {
    stack[|stack| - 1]
  }

  function Pop(stack: seq<Guard>): seq<Guard>
    requires stack != []
  {
    stack[..|stack| - 1]
  }

  /** A call, made by a thread that is between calls. */
  function Begin(s: State, t: nat, call: Call): State {
    var stack := At(s.threads, t).stack;
    match call
    case OpenRead => Put(s, t, if s.owner == Is(t) then Thread(stack + [R], Ready) else Thread(stack, ReadAsk))
    case OpenWrite => Put(s, t, Thread(stack, if s.owner == Is(t) then WriteNest else WriteAsk))
    case Close =>
      if stack == [] then s
      else if Top(stack) == R then
        Put(s, t, if s.owner == Is(t) then Thread(Pop(stack), Ready) else Thread(stack, ReadLeave))
      else
        Put(s.(lockNum := s.lockNum + 1), t, Thread(Pop(stack), if s.lockNum == -1 then Clearing else Ready))
  }

  function Step(s: State, a: Action): State {
    var Thread(stack, pc) := At(s.threads, a.t);
    match pc
    case Ready => Begin(s, a.t, a.call)
    case ReadAsk => Put(s, a.t, Thread(stack, ReadHave(s.lockNum)))
    case ReadHave(n) =>
      Put(s, a.t, Thread(stack, if n < 0 || (s.writeFirst && s.waitNum > 0) then ReadAsk else ReadPassed(n)))
    case ReadPassed(n) =>
      if s.lockNum == n && !a.weak then Put(s.(lockNum := n + 1), a.t, Thread(stack + [R], Ready))
      else Put(s, a.t, Thread(stack, ReadHave(s.lockNum)))
    case ReadLeave =>
      if stack == [] then s else Put(s.(lockNum := s.lockNum - 1), a.t, Thread(Pop(stack), Ready))
    case WriteNest => Put(s.(lockNum := s.lockNum - 1), a.t, Thread(stack + [W], Ready))
    case WriteAsk => Put(s.(waitNum := s.waitNum + 1), a.t, Thread(stack, WriteWaiting))
    case WriteWaiting =>
      if s.lockNum == 0 && !a.weak then Put(s.(lockNum := -1), a.t, Thread(stack + [W], WriteWon))
      else s
    case WriteWon => Put(s.(owner := Is(a.t)), a.t, Thread(stack, WriteOwned))
    case WriteOwned => Put(s.(waitNum := s.waitNum - 1), a.t, Thread(stack, Ready))
    case Clearing => Put(s.(owner := NoOne), a.t, Thread(stack, Ready))
  }

  function Execute(writeFirst: bool, schedule: seq<Action>): State {
    if schedule == [] then Init(writeFirst)
    else Step(Execute(writeFirst, schedule[..|schedule| - 1]), schedule[|schedule| - 1])
  }

  // ---------------------------------------------------------------- invariant

  /** All open guards, each named by its thread and depth. */
  function Guards(ts: map<nat, Thread>): set<(nat, nat)> {
    set t, i: nat | t in ts && i < |ts[t].stack| :: (t, i)
  }

  function WriteDepth(stack: seq<Guard>): nat {
    if stack == [] then 0 else WriteDepth(Pop(stack)) + if Top(stack) == W then 1 else 0
  }

  /** The thread's outermost guard is a write. */
  predicate Inside(th: Thread) {
    th.stack != [] && th.stack[0] == W
  }

  /** What a negative lock count means for one thread: only one thread is inside, its
      outermost guard is a write, and the count covers at least its writes, exactly so while
      the thread is the recorded owner. */
  predicate Deep(lockNum: int, owner: Owner, t: nat, th: Thread) {
    th.stack != [] ==>
      && th.stack[0] == W
      && lockNum + WriteDepth(th.stack) <= 0
      && (owner == Is(t) ==> lockNum + WriteDepth(th.stack) == 0)
  }

  predicate Knows(lockNum: int, owner: Owner, t: nat, th: Thread) {
    && (owner == Is(t) ==> Inside(th) || th.pc == Clearing)
    && match th.pc
       case ReadPassed(n) => n >= 0
       case ReadLeave => th.stack != [] && Top(th.stack) == R && owner != Is(t)
       case WriteNest => Inside(th)
       case WriteWon => th.stack == [W] && lockNum == -1
       case Clearing => th.stack == []
       case _ => true
  }

  ghost predicate Inv(lockNum: int, owner: Owner, ts: map<nat, Thread>) {
    && (forall t: nat :: Knows(lockNum, owner, t, At(ts, t)))
    && (if lockNum >= 0 then
          lockNum == |Guards(ts)| && forall t: nat :: W !in At(ts, t).stack
        else
          && (forall t: nat :: Deep(lockNum, owner, t, At(ts, t)))
          && (forall t: nat, u: nat | At(ts, t).stack != [] && At(ts, u).stack != [] :: t == u))
  }

  /** Exclusion: a thread with a write guard open, at any depth, is alone. */
  ghost predicate Exclusion(s: State) {
    forall t: nat, u: nat | t != u && W in At(s.threads, t).stack :: At(s.threads, u).stack == []
  }

  // ---------------------------------------------------------------- small facts

  lemma DepthAfterPush(stack: seq<Guard>, g: Guard)
    ensures WriteDepth(stack + [g]) == WriteDepth(stack) + if g == W then 1 else 0
    ensures Pop(stack + [g]) == stack && Top(stack + [g]) == g
  {
  }

  lemma {:induction false} DepthPositive(stack: seq<Guard>)
    ensures WriteDepth(stack) > 0 <==> W in stack
  {
    if stack != [] {
      DepthPositive(Pop(stack));
      assert stack == Pop(stack) + [Top(stack)];
    }
  }

  /** The guards after thread `t` opens one, closes one, or neither. */
  lemma GuardsChange(ts: map<nat, Thread>, t: nat, th: Thread)
    requires |At(ts, t).stack| - 1 <= |th.stack| <= |At(ts, t).stack| + 1
    ensures |Guards(ts[t := th])| - |Guards(ts)| == |th.stack| - |At(ts, t).stack|
  {
    var n, ts' := |At(ts, t).stack|, ts[t := th];
    if |th.stack| == n {
      SameGuards(ts, ts', t);
    } else if |th.stack| == n + 1 {
      OneMoreGuard(ts, ts', t);
    } else {
      OneMoreGuard(ts', ts, t);
    }
  }

  lemma SameGuards(ts: map<nat, Thread>, ts': map<nat, Thread>, t: nat)
    requires forall u: nat :: |At(ts', u).stack| == |At(ts, u).stack|
    ensures Guards(ts') == Guards(ts)
  {
    forall u: nat, i: nat
      ensures (u, i) in Guards(ts') <==> (u, i) in Guards(ts)
    {
      assert (u, i) in Guards(ts') <==> i < |At(ts', u).stack|;
      assert (u, i) in Guards(ts) <==> i < |At(ts, u).stack|;
    }
  }

  lemma OneMoreGuard(ts: map<nat, Thread>, ts': map<nat, Thread>, t: nat)
    requires forall u: nat :: |At(ts', u).stack| == |At(ts, u).stack| + if u == t then 1 else 0
    ensures |Guards(ts')| == |Guards(ts)| + 1
  {
    var g := (t, |At(ts, t).stack|);
    forall u: nat, i: nat
      ensures (u, i) in Guards(ts') <==> (u, i) in Guards(ts) || (u, i) == g
    {
      assert (u, i) in Guards(ts') <==> i < |At(ts', u).stack|;
      assert (u, i) in Guards(ts) <==> i < |At(ts, u).stack|;
    }
    assert Guards(ts') == Guards(ts) + {g};
    assert g !in Guards(ts);
  }

  lemma GuardsCounted(ts: map<nat, Thread>, t: nat)
    ensures At(ts, t).stack != [] ==> |Guards(ts)| > 0
  {
    assert At(ts, t).stack != [] ==> (t, 0) in Guards(ts);
  }

  // ---------------------------------------------------------------- the steps

  /** A step that leaves stack, count and owner alone. */
  lemma MoveKeepsInv(s: State, t: nat, pc: Pc)
    requires Inv(s.lockNum, s.owner, s.threads)
    requires Knows(s.lockNum, s.owner, t, At(s.threads, t).(pc := pc))
    ensures Inv(s.lockNum, s.owner, s.threads[t := At(s.threads, t).(pc := pc)])
  {
    var ts, th' := s.threads, At(s.threads, t).(pc := pc);
    SameGuards(ts, ts[t := th'], t);
    forall u: nat
      ensures Knows(s.lockNum, s.owner, u, At(ts[t := th'], u))
      ensures At(ts[t := th'], u).stack == At(ts, u).stack
      ensures s.lockNum < 0 ==> Deep(s.lockNum, s.owner, u, At(ts[t := th'], u))
    {
      assert Knows(s.lockNum, s.owner, u, At(ts, u));
      assert s.lockNum < 0 ==> Deep(s.lockNum, s.owner, u, At(ts, u));
    }
  }

  /** Thread `t` acts while nobody else has a guard open, or everybody counts in lockNum. */
  lemma ActKeepsInv(s: State, t: nat, lockNum: int, owner: Owner, th: Thread)
    requires Inv(s.lockNum, s.owner, s.threads)
    requires Knows(lockNum, owner, t, th) && (owner == s.owner || owner == Is(t))
    requires |At(s.threads, t).stack| - 1 <= |th.stack| <= |At(s.threads, t).stack| + 1
    requires forall u: nat | u != t :: At(s.threads, u).pc != WriteWon
    requires
      if lockNum >= 0 then
        && lockNum == |Guards(s.threads)| + |th.stack| - |At(s.threads, t).stack|
        && W !in th.stack && forall u: nat | u != t :: W !in At(s.threads, u).stack
      else Deep(lockNum, owner, t, th) && forall u: nat | u != t :: At(s.threads, u).stack == []
    ensures Inv(lockNum, owner, s.threads[t := th])
  {
    var ts, ts' := s.threads, s.threads[t := th];
    GuardsChange(ts, t, th);
    forall u: nat
      ensures Knows(lockNum, owner, u, At(ts', u))
      ensures At(ts', u) == if u == t then th else At(ts, u)
    {
      assert Knows(s.lockNum, s.owner, u, At(ts, u));
    }
  }

  /** While thread `t` has a write guard, or has none and its step counts, no other thread
      is between winning the lock and recording it. */
  lemma NoOtherWinner(s: State, t: nat)
    requires Inv(s.lockNum, s.owner, s.threads)
    requires s.lockNum >= 0 || At(s.threads, t).stack != []
    ensures forall u: nat | u != t :: At(s.threads, u).pc != WriteWon
  {
  }

  /** A reader's successful CAS. */
  lemma CountedReadKeepsInv(s: State, t: nat)
    requires Inv(s.lockNum, s.owner, s.threads)
    requires At(s.threads, t).pc.ReadPassed? && s.lockNum == At(s.threads, t).pc.n
    ensures Inv(s.lockNum + 1, s.owner, s.threads[t := Thread(At(s.threads, t).stack + [R], Ready)])
  {
    assert Knows(s.lockNum, s.owner, t, At(s.threads, t));
    NoOtherWinner(s, t);
    ActKeepsInv(s, t, s.lockNum + 1, s.owner, Thread(At(s.threads, t).stack + [R], Ready));
  }

  /** A thread whose outermost guard is a write is the only one with guards. */
  lemma InsideAlone(s: State, t: nat)
    requires Inv(s.lockNum, s.owner, s.threads) && W in At(s.threads, t).stack
    ensures s.lockNum < 0 && Deep(s.lockNum, s.owner, t, At(s.threads, t))
    ensures forall u: nat | u != t :: At(s.threads, u).stack == []
    ensures forall u: nat | u != t :: At(s.threads, u).pc != WriteWon
  {
  }

  /** The owner opens and closes read guards without touching the count. */
  lemma OwnerReadKeepsInv(s: State, t: nat, stack: seq<Guard>)
    requires Inv(s.lockNum, s.owner, s.threads)
    requires s.owner == Is(t) && At(s.threads, t).pc == Ready
    requires stack == At(s.threads, t).stack + [R] || At(s.threads, t).stack == stack + [R]
    ensures Inv(s.lockNum, s.owner, s.threads[t := Thread(stack, Ready)])
  {
    var th := At(s.threads, t);
    assert Knows(s.lockNum, s.owner, t, th);
    assert stack != [] && stack[0] == W;
    InsideAlone(s, t);
    DepthAfterPush(th.stack, R);
    DepthAfterPush(stack, R);
    ActKeepsInv(s, t, s.lockNum, s.owner, Thread(stack, Ready));
  }

  /** ReadUnlock by a thread that is not the owner. */
  lemma LeaveKeepsInv(s: State, t: nat)
    requires Inv(s.lockNum, s.owner, s.threads)
    requires At(s.threads, t).pc == ReadLeave
    ensures At(s.threads, t).stack != []
    ensures Inv(s.lockNum - 1, s.owner, s.threads[t := Thread(Pop(At(s.threads, t).stack), Ready)])
  {
    var th := At(s.threads, t);
    assert Knows(s.lockNum, s.owner, t, th);
    NoOtherWinner(s, t);
    GuardsCounted(s.threads, t);
    if s.lockNum < 0 {
      assert Deep(s.lockNum, s.owner, t, th);
    }
    ActKeepsInv(s, t, s.lockNum - 1, s.owner, Thread(Pop(th.stack), Ready));
  }

  lemma NestKeepsInv(s: State, t: nat)
    requires Inv(s.lockNum, s.owner, s.threads)
    requires At(s.threads, t).pc == WriteNest
    ensures Inv(s.lockNum - 1, s.owner, s.threads[t := Thread(At(s.threads, t).stack + [W], Ready)])
  {
    var th := At(s.threads, t);
    assert Knows(s.lockNum, s.owner, t, th);
    InsideAlone(s, t);
    DepthAfterPush(th.stack, W);
    ActKeepsInv(s, t, s.lockNum - 1, s.owner, Thread(th.stack + [W], Ready));
  }

  lemma CloseWriteKeepsInv(s: State, t: nat)
    requires Inv(s.lockNum, s.owner, s.threads)
    requires var th := At(s.threads, t); th.pc == Ready && th.stack != [] && Top(th.stack) == W
    ensures Inv(s.lockNum + 1, s.owner,
      s.threads[t := Thread(Pop(At(s.threads, t).stack), if s.lockNum == -1 then Clearing else Ready)])
  {
    var th := At(s.threads, t);
    var th' := Thread(Pop(th.stack), if s.lockNum == -1 then Clearing else Ready);
    assert Knows(s.lockNum, s.owner, t, th);
    InsideAlone(s, t);
    DepthPositive(th'.stack);
    assert th'.stack != [] ==> th'.stack[0] == W;
    if s.lockNum == -1 {
      OnlyGuard(s.threads, t);
    }
    ActKeepsInv(s, t, s.lockNum + 1, s.owner, th');
  }

  lemma OnlyGuard(ts: map<nat, Thread>, t: nat)
    requires |At(ts, t).stack| == 1 && forall u: nat | u != t :: At(ts, u).stack == []
    ensures |Guards(ts)| == 1
  {
    forall u: nat, i: nat
      ensures (u, i) in Guards(ts) <==> (u, i) == (t, 0)
    {
      assert (u, i) in Guards(ts) <==> i < |At(ts, u).stack|;
    }
    assert Guards(ts) == {(t, 0)};
  }

  lemma WinKeepsInv(s: State, t: nat)
    requires Inv(s.lockNum, s.owner, s.threads)
    requires At(s.threads, t).pc == WriteWaiting && s.lockNum == 0
    ensures Inv(-1, s.owner, s.threads[t := Thread(At(s.threads, t).stack + [W], WriteWon)])
  {
    forall u: nat
      ensures At(s.threads, u).stack == []
    {
      GuardsCounted(s.threads, u);
    }
    assert Knows(s.lockNum, s.owner, t, At(s.threads, t));
    NoOtherWinner(s, t);
    DepthAfterPush([], W);
    ActKeepsInv(s, t, -1, s.owner, Thread([W], WriteWon));
  }

  lemma SetOwnerKeepsInv(s: State, t: nat)
    requires Inv(s.lockNum, s.owner, s.threads)
    requires At(s.threads, t).pc == WriteWon
    ensures Inv(s.lockNum, Is(t), s.threads[t := At(s.threads, t).(pc := WriteOwned)])
  {
    var th := At(s.threads, t);
    assert Knows(s.lockNum, s.owner, t, th);
    InsideAlone(s, t);
    DepthAfterPush([], W);
    assert [] + [W] == th.stack;
    ActKeepsInv(s, t, s.lockNum, Is(t), th.(pc := WriteOwned));
  }

  lemma ClearOwnerKeepsInv(s: State, t: nat)
    requires Inv(s.lockNum, s.owner, s.threads)
    requires At(s.threads, t).pc == Clearing
    ensures Inv(s.lockNum, NoOne, s.threads[t := At(s.threads, t).(pc := Ready)])
  {
    var ts, th' := s.threads, At(s.threads, t).(pc := Ready);
    SameGuards(ts, ts[t := th'], t);
    forall u: nat
      ensures Knows(s.lockNum, NoOne, u, At(ts[t := th'], u))
      ensures At(ts[t := th'], u).stack == At(ts, u).stack
      ensures s.lockNum < 0 ==> Deep(s.lockNum, NoOne, u, At(ts[t := th'], u))
    {
      assert Knows(s.lockNum, s.owner, u, At(ts, u));
      assert s.lockNum < 0 ==> Deep(s.lockNum, s.owner, u, At(ts, u));
    }
  }

  lemma BeginKeepsInv(s: State, t: nat, call: Call)
    requires Inv(s.lockNum, s.owner, s.threads) && At(s.threads, t).pc == Ready
    ensures var s' := Begin(s, t, call); Inv(s'.lockNum, s'.owner, s'.threads)
  {
    var stack := At(s.threads, t).stack;
    assert Knows(s.lockNum, s.owner, t, At(s.threads, t));
    match call
    case OpenRead =>
      if s.owner == Is(t) {
        OwnerReadKeepsInv(s, t, stack + [R]);
      } else {
        MoveKeepsInv(s, t, ReadAsk);
      }
    case OpenWrite => MoveKeepsInv(s, t, if s.owner == Is(t) then WriteNest else WriteAsk);
    case Close =>
      if stack != [] {
        assert stack == Pop(stack) + [Top(stack)];
        if Top(stack) == W {
          CloseWriteKeepsInv(s, t);
        } else if s.owner == Is(t) {
          OwnerReadKeepsInv(s, t, Pop(stack));
        } else {
          MoveKeepsInv(s, t, ReadLeave);
        }
      }
  }

  lemma ReaderKeepsInv(s: State, a: Action)
    requires Inv(s.lockNum, s.owner, s.threads)
    requires var pc := At(s.threads, a.t).pc; pc.ReadAsk? || pc.ReadHave? || pc.ReadPassed? || pc.ReadLeave?
    ensures var s' := Step(s, a); Inv(s'.lockNum, s'.owner, s'.threads)
  {
    var t, th := a.t, At(s.threads, a.t);
    assert Knows(s.lockNum, s.owner, t, th);
    match th.pc
    case ReadAsk => MoveKeepsInv(s, t, ReadHave(s.lockNum));
    case ReadHave(n) => MoveKeepsInv(s, t, if n < 0 || (s.writeFirst && s.waitNum > 0) then ReadAsk else ReadPassed(n));
    case ReadPassed(n) =>
      if s.lockNum == n && !a.weak {
        CountedReadKeepsInv(s, t);
      } else {
        MoveKeepsInv(s, t, ReadHave(s.lockNum));
      }
    case ReadLeave => LeaveKeepsInv(s, t);
  }

  lemma StepKeepsInv(s: State, a: Action)
    requires Inv(s.lockNum, s.owner, s.threads)
    ensures var s' := Step(s, a); Inv(s'.lockNum, s'.owner, s'.threads)
  {
    var t, th := a.t, At(s.threads, a.t);
    assert Knows(s.lockNum, s.owner, t, th);
    match th.pc
    case Ready => BeginKeepsInv(s, t, a.call);
    case WriteNest => NestKeepsInv(s, t);
    case WriteAsk => MoveKeepsInv(s, t, WriteWaiting);
    case WriteWaiting =>
      if s.lockNum == 0 && !a.weak {
        WinKeepsInv(s, t);
      }
    case WriteWon => SetOwnerKeepsInv(s, t);
    case WriteOwned => MoveKeepsInv(s, t, Ready);
    case Clearing => ClearOwnerKeepsInv(s, t);
    case _ => ReaderKeepsInv(s, a);
  }

  lemma {:induction false} RunInv(writeFirst: bool, schedule: seq<Action>)
    ensures var s := Execute(writeFirst, schedule); Inv(s.lockNum, s.owner, s.threads)
  {
    if schedule != [] {
      RunInv(writeFirst, schedule[..|schedule| - 1]);
      StepKeepsInv(Execute(writeFirst, schedule[..|schedule| - 1]), schedule[|schedule| - 1]);
    }
  }

  /** In every run, while a thread has a write guard open, at any depth, no other thread has
      any guard open, although WriteUnlock updates the count and the owner in two steps. */
  lemma ExclusionOverRuns(writeFirst: bool, schedule: seq<Action>)
    ensures Exclusion(Execute(writeFirst, schedule))
  {
    RunInv(writeFirst, schedule);
  }

  // ---------------------------------------------------------------- depth accounting

  /** A negative count is the write depth of the one thread inside. */
  ghost predicate Exact(s: State) {
    s.lockNum < 0 ==> exists t: nat :: Accounts(s, t)
  }

  predicate Accounts(s: State, t: nat) {
    Inside(At(s.threads, t)) && s.lockNum + WriteDepth(At(s.threads, t).stack) == 0
  }

  /** Thread `t` is inside, has lost its record as owner, and is about to give back a read
      guard that was never counted. */
  predicate Miscounts(s: State, t: nat) {
    At(s.threads, t).pc == ReadLeave && Inside(At(s.threads, t))
  }

  /** Depth accounting breaks exactly at that decrement, and at no other step. */
  lemma AccountingBreaksExactly(writeFirst: bool, schedule: seq<Action>, a: Action)
    requires Exact(Execute(writeFirst, schedule))
    ensures Exact(Step(Execute(writeFirst, schedule), a)) <==> !Miscounts(Execute(writeFirst, schedule), a.t)
  {
    var s := Execute(writeFirst, schedule);
    RunInv(writeFirst, schedule);
    assert Knows(s.lockNum, s.owner, a.t, At(s.threads, a.t));
    if Miscounts(s, a.t) {
      MiscountBreaks(s, a);
    } else if s.lockNum < 0 {
      var x: nat :| Accounts(s, x);
      InsideKeepsExact(s, a, x);
    } else {
      OutsideKeepsExact(s, a);
    }
  }

  lemma MiscountBreaks(s: State, a: Action)
    requires Inv(s.lockNum, s.owner, s.threads) && Exact(s) && Miscounts(s, a.t)
    ensures !Exact(Step(s, a))
  {
    var s', stack := Step(s, a), At(s.threads, a.t).stack;
    assert Knows(s.lockNum, s.owner, a.t, At(s.threads, a.t));
    InsideAlone(s, a.t);
    var x: nat :| Accounts(s, x);
    assert x == a.t;
    assert WriteDepth(Pop(stack)) == WriteDepth(stack);
    forall u: nat
      ensures !Accounts(s', u)
    {
      assert u != a.t ==> At(s'.threads, u) == At(s.threads, u);
    }
  }

  lemma OutsideKeepsExact(s: State, a: Action)
    requires Inv(s.lockNum, s.owner, s.threads) && s.lockNum >= 0
    ensures Exact(Step(s, a))
  {
    var s', th := Step(s, a), At(s.threads, a.t);
    assert Knows(s.lockNum, s.owner, a.t, th);
    assert W !in th.stack;
    GuardsCounted(s.threads, a.t);
    if s'.lockNum < 0 {
      assert th.pc == WriteWaiting && th.stack == [];
      assert At(s'.threads, a.t).stack == [] + [W];
      DepthAfterPush([], W);
      assert Accounts(s', a.t);
    }
  }

  /** A thread without guards cannot change a negative count. */
  lemma BystanderStep(s: State, a: Action)
    requires s.lockNum < 0 && At(s.threads, a.t).stack == []
    requires Knows(s.lockNum, s.owner, a.t, At(s.threads, a.t))
    ensures Step(s, a).lockNum == s.lockNum && At(Step(s, a).threads, a.t).stack == []
    ensures forall u: nat | u != a.t :: At(Step(s, a).threads, u) == At(s.threads, u)
  {
  }

  /** The thread inside changes count and depth together. */
  lemma InsiderStep(s: State, a: Action)
    requires Accounts(s, a.t) && !Miscounts(s, a.t) && s.lockNum < 0
    requires Knows(s.lockNum, s.owner, a.t, At(s.threads, a.t))
    ensures Step(s, a).lockNum < 0 ==> Accounts(Step(s, a), a.t)
  {
    if At(s.threads, a.t).pc == Ready {
      InsiderCall(s, a.t, a.call);
    } else {
      DepthAfterPush(At(s.threads, a.t).stack, W);
    }
  }

  lemma InsiderCall(s: State, t: nat, call: Call)
    requires Accounts(s, t) && s.lockNum < 0
    ensures Begin(s, t, call).lockNum < 0 ==> Accounts(Begin(s, t, call), t)
  {
  }

  lemma InsideKeepsExact(s: State, a: Action, x: nat)
    requires Inv(s.lockNum, s.owner, s.threads) && Accounts(s, x) && !Miscounts(s, a.t)
    ensures Exact(Step(s, a))
  {
    var s' := Step(s, a);
    InsideAlone(s, x);
    assert Knows(s.lockNum, s.owner, a.t, At(s.threads, a.t));
    if a.t != x {
      BystanderStep(s, a);
      assert Accounts(s', x);
    } else {
      InsiderStep(s, a);
      assert s'.lockNum < 0 ==> Accounts(s', x);
    }
  }

  /** Whoever is inside is on record, or about to be, and nobody is about to erase it. */
  ghost predicate Recorded(owner: Owner, ts: map<nat, Thread>) {
    && (forall t: nat :: Inside(At(ts, t)) ==> owner == Is(t) || At(ts, t).pc == WriteWon)
    && (forall t: nat, u: nat :: Inside(At(ts, t)) ==> At(ts, u).pc != Clearing)
  }

  /** The step wins the lock for writing. */
  predicate Wins(s: State, a: Action) {
    At(s.threads, a.t).pc == WriteWaiting && s.lockNum == 0 && !a.weak
  }

  /** No write lock is won while some WriteUnlock is between its two accesses. */
  ghost predicate Careful(writeFirst: bool, schedule: seq<Action>) {
    schedule == [] ||
    (var s, a := Execute(writeFirst, schedule[..|schedule| - 1]), schedule[|schedule| - 1];
     && Careful(writeFirst, schedule[..|schedule| - 1])
     && (Wins(s, a) ==> forall u: nat :: At(s.threads, u).pc != Clearing))
  }

  /** What one step does to the record of the thread that takes it. */
  lemma RecordStep(s: State, a: Action)
    requires Knows(s.lockNum, s.owner, a.t, At(s.threads, a.t))
    ensures var s', th, th' := Step(s, a), At(s.threads, a.t), At(Step(s, a).threads, a.t);
      && (forall u: nat | u != a.t :: At(s'.threads, u) == At(s.threads, u))
      && (s'.owner == s.owner || (th.pc == Clearing && s'.owner == NoOne) || (th.pc == WriteWon && s'.owner == Is(a.t)))
      && (Inside(th') && !Inside(th) ==> Wins(s, a) && th'.pc == WriteWon)
      && (th.pc == WriteWon ==> s'.owner == Is(a.t))
      && (th'.pc == Clearing ==> th.pc == Clearing || Inside(th) || W in th.stack)
  {
  }

  lemma StepKeepsRecorded(s: State, a: Action)
    requires Inv(s.lockNum, s.owner, s.threads) && Recorded(s.owner, s.threads)
    requires Wins(s, a) ==> forall u: nat :: At(s.threads, u).pc != Clearing
    ensures Recorded(Step(s, a).owner, Step(s, a).threads)
  {
    var s', th := Step(s, a), At(s.threads, a.t);
    assert Knows(s.lockNum, s.owner, a.t, th);
    RecordStep(s, a);
    StepKeepsInv(s, a);
    assert Knows(s'.lockNum, s'.owner, a.t, At(s'.threads, a.t));
    if W in th.stack {
      InsideAlone(s, a.t);
    }
  }

  /** In every careful run the count is exact all the way. */
  lemma {:induction false} CarefulRunsAccountExactly(writeFirst: bool, schedule: seq<Action>)
    requires Careful(writeFirst, schedule)
    ensures var s := Execute(writeFirst, schedule); Exact(s) && Recorded(s.owner, s.threads)
  {
    if schedule != [] {
      var before, a := schedule[..|schedule| - 1], schedule[|schedule| - 1];
      var s := Execute(writeFirst, before);
      CarefulRunsAccountExactly(writeFirst, before);
      RunInv(writeFirst, before);
      StepKeepsRecorded(s, a);
      assert Knows(s.lockNum, s.owner, a.t, At(s.threads, a.t));
      assert Inside(At(s.threads, a.t)) ==> s.owner == Is(a.t) || At(s.threads, a.t).pc == WriteWon;
      AccountingBreaksExactly(writeFirst, before, a);
    }
  }

  /** The count is exact after every prefix of the schedule. */
  ghost predicate ExactThroughout(writeFirst: bool, schedule: seq<Action>) {
    forall k | 0 <= k <= |schedule| :: Exact(Execute(writeFirst, schedule[..k]))
  }

  ghost predicate NeverMiscounts(writeFirst: bool, schedule: seq<Action>) {
    forall k | 0 <= k < |schedule| :: !Miscounts(Execute(writeFirst, schedule[..k]), schedule[k].t)
  }

  /** Step `k` of the schedule, seen from its prefixes. */
  lemma PrefixStep(writeFirst: bool, schedule: seq<Action>, k: nat)
    requires k < |schedule|
    ensures Execute(writeFirst, schedule[..k + 1]) == Step(Execute(writeFirst, schedule[..k]), schedule[k])
  {
    assert schedule[..k + 1][..k] == schedule[..k];
  }

  lemma {:induction false} ExactUpTo(writeFirst: bool, schedule: seq<Action>, k: nat)
    requires k <= |schedule| && NeverMiscounts(writeFirst, schedule)
    ensures Exact(Execute(writeFirst, schedule[..k]))
  {
    if k > 0 {
      ExactUpTo(writeFirst, schedule, k - 1);
      PrefixStep(writeFirst, schedule, k - 1);
      AccountingBreaksExactly(writeFirst, schedule[..k - 1], schedule[k - 1]);
    }
  }

  /** Over whole runs: the count is exact all the way if and only if no step of the run is
      such a decrement. */
  lemma ExactExactlyWithoutMiscounts(writeFirst: bool, schedule: seq<Action>)
    ensures ExactThroughout(writeFirst, schedule) <==> NeverMiscounts(writeFirst, schedule)
  {
    if NeverMiscounts(writeFirst, schedule) {
      forall k | 0 <= k <= |schedule| ensures Exact(Execute(writeFirst, schedule[..k])) {
        ExactUpTo(writeFirst, schedule, k);
      }
    }
    if ExactThroughout(writeFirst, schedule) {
      forall k | 0 <= k < |schedule|
        ensures !Miscounts(Execute(writeFirst, schedule[..k]), schedule[k].t)
      {
        PrefixStep(writeFirst, schedule, k);
        assert Exact(Execute(writeFirst, schedule[..k + 1]));
        AccountingBreaksExactly(writeFirst, schedule[..k], schedule[k]);
      }
    }
  }

  // ------------------------------------------------------- what callers can do about it

  /** The step opens a read guard inside a write guard of the same thread. */
  predicate OpensReadUnderWrite(s: State, a: Action) {
    At(s.threads, a.t).pc == Ready && a.call == OpenRead && W in At(s.threads, a.t).stack
  }

  /** No thread ever opens a read guard inside a write guard. */
  ghost predicate Flat(writeFirst: bool, schedule: seq<Action>) {
    forall k | 0 <= k < |schedule| :: !OpensReadUnderWrite(Execute(writeFirst, schedule[..k]), schedule[k])
  }

  /** A thread inside has no read guard and is not about to get one. */
  predicate FlatThread(th: Thread) {
    Inside(th) ==> R !in th.stack && !th.pc.ReadAsk? && !th.pc.ReadHave? && !th.pc.ReadPassed?
  }

  ghost predicate FlatThreads(ts: map<nat, Thread>) {
    forall t: nat :: FlatThread(At(ts, t))
  }

  lemma FlatStep(s: State, a: Action)
    requires Inv(s.lockNum, s.owner, s.threads) && FlatThreads(s.threads) && !OpensReadUnderWrite(s, a)
    ensures FlatThreads(Step(s, a).threads) && !Miscounts(s, a.t)
  {
    assert Knows(s.lockNum, s.owner, a.t, At(s.threads, a.t)) && FlatThread(At(s.threads, a.t));
    FlatMover(s, a);
    StepMovesOne(s, a);
    forall u: nat ensures FlatThread(At(Step(s, a).threads, u)) {
      assert FlatThread(At(s.threads, u));
    }
  }

  lemma FlatMover(s: State, a: Action)
    requires Knows(s.lockNum, s.owner, a.t, At(s.threads, a.t)) && FlatThread(At(s.threads, a.t))
    requires !OpensReadUnderWrite(s, a)
    ensures FlatThread(At(Step(s, a).threads, a.t))
  {
  }

  lemma {:induction false} FlatUpTo(writeFirst: bool, schedule: seq<Action>, k: nat)
    requires k <= |schedule| && Flat(writeFirst, schedule)
    ensures FlatThreads(Execute(writeFirst, schedule[..k]).threads)
  {
    if k > 0 {
      FlatUpTo(writeFirst, schedule, k - 1);
      PrefixStep(writeFirst, schedule, k - 1);
      RunInv(writeFirst, schedule[..k - 1]);
      FlatStep(Execute(writeFirst, schedule[..k - 1]), schedule[k - 1]);
    }
  }

  /** Callers who never open a read guard inside a write guard keep the count exact in every
      run, whatever the interleaving.  `LostRecord` shows that callers who do may lose it. */
  lemma FlatRunsAccountExactly(writeFirst: bool, schedule: seq<Action>)
    requires Flat(writeFirst, schedule)
    ensures ExactThroughout(writeFirst, schedule)
  {
    forall k | 0 <= k < |schedule|
      ensures !Miscounts(Execute(writeFirst, schedule[..k]), schedule[k].t)
    {
      FlatUpTo(writeFirst, schedule, k);
      RunInv(writeFirst, schedule[..k]);
      FlatStep(Execute(writeFirst, schedule[..k]), schedule[k]);
    }
    ExactExactlyWithoutMiscounts(writeFirst, schedule);
  }

  // ---------------------------------------------------------------- a run that is not careful

  /** Some schedule that makes no other calls than these leads to `s`. */
  ghost predicate Reachable(writeFirst: bool, calls: set<Call>, s: State) {
    exists schedule: seq<Action> :: MakesOnly(schedule, calls) && Execute(writeFirst, schedule) == s
  }

  predicate MakesOnly(schedule: seq<Action>, calls: set<Call>) {
    forall i | 0 <= i < |schedule| :: schedule[i].call in calls
  }

  /** Only thread `t` has moved, and it is now as in `th`. */
  ghost predicate OnlyMoved(s: State, s': State, t: nat, th: Thread) {
    At(s'.threads, t) == th && forall u: nat | u != t :: At(s'.threads, u) == At(s.threads, u)
  }

  lemma StepMovesOne(s: State, a: Action)
    ensures OnlyMoved(s, Step(s, a), a.t, At(Step(s, a).threads, a.t))
  {
  }

  lemma ReachStep(writeFirst: bool, calls: set<Call>, s: State, a: Action) returns (s': State)
    requires Reachable(writeFirst, calls, s) && a.call in calls
    ensures s' == Step(s, a) && Reachable(writeFirst, calls, s')
    ensures OnlyMoved(s, s', a.t, At(s'.threads, a.t))
  {
    s' := Step(s, a);
    StepMovesOne(s, a);
    assert Reachable(writeFirst, calls, s') by {
      var schedule :| MakesOnly(schedule, calls) && Execute(writeFirst, schedule) == s;
      assert (schedule + [a])[..|schedule|] == schedule;
      assert MakesOnly(schedule + [a], calls) && Execute(writeFirst, schedule + [a]) == s';
    }
  }

  /** A thread that is not disturbed takes the free lock for writing: it gets in line ... */
  lemma AskAlone(writeFirst: bool, calls: set<Call>, s: State, t: nat) returns (s': State)
    requires OpenWrite in calls && Reachable(writeFirst, calls, s) && s.owner != Is(t) && At(s.threads, t).pc == Ready
    ensures Reachable(writeFirst, calls, s') && s'.lockNum == s.lockNum && s'.owner == s.owner
    ensures OnlyMoved(s, s', t, Thread(At(s.threads, t).stack, WriteWaiting))
  {
    var a := Action(t, OpenWrite, false);
    s' := ReachStep(writeFirst, calls, s, a);
    assert At(s'.threads, t) == Thread(At(s.threads, t).stack, WriteAsk);
    s' := ReachStep(writeFirst, calls, s', a);
  }

  /** ... puts itself on record once it has won ... */
  lemma SettleAlone(writeFirst: bool, calls: set<Call>, s: State, t: nat) returns (s': State)
    requires OpenWrite in calls && Reachable(writeFirst, calls, s) && At(s.threads, t).pc == WriteWon
    ensures Reachable(writeFirst, calls, s') && s'.lockNum == s.lockNum && s'.owner == Is(t)
    ensures OnlyMoved(s, s', t, Thread(At(s.threads, t).stack, Ready))
  {
    var a := Action(t, OpenWrite, false);
    s' := ReachStep(writeFirst, calls, s, a);
    assert At(s'.threads, t) == Thread(At(s.threads, t).stack, WriteOwned);
    s' := ReachStep(writeFirst, calls, s', a);
  }

  /** ... and wins a free lock. */
  lemma WinAlone(writeFirst: bool, calls: set<Call>, s: State, t: nat) returns (s': State)
    requires OpenWrite in calls && Reachable(writeFirst, calls, s)
    requires s.lockNum == 0 && At(s.threads, t).pc == WriteWaiting
    ensures Reachable(writeFirst, calls, s') && s'.lockNum == -1 && s'.owner == Is(t)
    ensures OnlyMoved(s, s', t, Thread(At(s.threads, t).stack + [W], Ready))
  {
    s' := ReachStep(writeFirst, calls, s, Action(t, OpenWrite, false));
    assert At(s'.threads, t) == Thread(At(s.threads, t).stack + [W], WriteWon);
    s' := SettleAlone(writeFirst, calls, s', t);
  }

  /** Thread 0 takes the lock, releases it, and is stopped before it clears the owner. */
  lemma ReleaseHalfway(writeFirst: bool, calls: set<Call>) returns (s: State)
    requires OpenWrite in calls && Close in calls
    ensures Reachable(writeFirst, calls, s) && s.lockNum == 0 && s.owner == Is(0)
    ensures OnlyMoved(Init(writeFirst), s, 0, Thread([], Clearing))
  {
    assert MakesOnly([], calls) && Execute(writeFirst, []) == Init(writeFirst);
    s := AskAlone(writeFirst, calls, Init(writeFirst), 0);
    s := WinAlone(writeFirst, calls, s, 0);
    s := ReachStep(writeFirst, calls, s, Action(0, Close, false));
  }

  /** Then thread 1 takes the lock. */
  lemma Retake(writeFirst: bool, calls: set<Call>) returns (s: State)
    requires OpenWrite in calls && Close in calls
    ensures Reachable(writeFirst, calls, s) && s.lockNum == -1 && s.owner == Is(1)
    ensures At(s.threads, 0) == Thread([], Clearing) && At(s.threads, 1) == Thread([W], Ready)
    ensures forall t: nat | t > 1 :: At(s.threads, t) == Thread([], Ready)
  {
    s := ReleaseHalfway(writeFirst, calls);
    s := AskAlone(writeFirst, calls, s, 1);
    s := WinAlone(writeFirst, calls, s, 1);
  }

  /** The count can be lost: thread 1 opens a read guard under its write guard; thread 0 goes
      on and erases thread 1's record; thread 1 closes both guards.  The count is left at -1
      with no guard open. */
  lemma LostRecord(writeFirst: bool) returns (s: State)
    ensures Reachable(writeFirst, ALL_CALLS, s)
    ensures s.lockNum == -1 && forall t: nat :: At(s.threads, t) == Thread([], Ready)
    ensures !Exact(s) && Lost(s)
  {
    s := Retake(writeFirst, ALL_CALLS);
    s := OpenReadThenErase(writeFirst, s);
    s := CloseBoth(writeFirst, s);
  }

  lemma OpenReadThenErase(writeFirst: bool, s: State) returns (s': State)
    requires Reachable(writeFirst, ALL_CALLS, s) && s.lockNum == -1 && s.owner == Is(1)
    requires At(s.threads, 0) == Thread([], Clearing) && At(s.threads, 1) == Thread([W], Ready)
    requires forall t: nat | t > 1 :: At(s.threads, t) == Thread([], Ready)
    ensures Reachable(writeFirst, ALL_CALLS, s') && s'.lockNum == -1 && s'.owner == NoOne
    ensures At(s'.threads, 1) == Thread([W, R], Ready)
    ensures forall t: nat | t != 1 :: At(s'.threads, t) == Thread([], Ready)
  {
    s' := ReachStep(writeFirst, ALL_CALLS, s, Action(1, OpenRead, false));
    assert At(s'.threads, 1) == Thread([W] + [R], Ready);
    s' := ReachStep(writeFirst, ALL_CALLS, s', Action(0, Close, false));
  }

  lemma CloseBoth(writeFirst: bool, s: State) returns (s': State)
    requires Reachable(writeFirst, ALL_CALLS, s) && s.lockNum == -1 && s.owner == NoOne
    requires At(s.threads, 1) == Thread([W, R], Ready)
    requires forall t: nat | t != 1 :: At(s.threads, t) == Thread([], Ready)
    ensures Reachable(writeFirst, ALL_CALLS, s')
    ensures s'.lockNum == -1 && Lost(s') && forall t: nat :: At(s'.threads, t) == Thread([], Ready)
  {
    var close := Action(1, Close, false);
    s' := ReachStep(writeFirst, ALL_CALLS, s, close);
    assert At(s'.threads, 1) == Thread([W, R], ReadLeave);
    s' := ReachStep(writeFirst, ALL_CALLS, s', close);
    assert Pop([W, R]) == [W];
    assert At(s'.threads, 1) == Thread([W], Ready) && s'.lockNum == -2;
    s' := ReachStep(writeFirst, ALL_CALLS, s', close);
    assert Pop([W]) == [];
    assert At(s'.threads, 1) == Thread([], Ready);
  }

  /** The lock counts a writer and no guard is open. */
  ghost predicate Lost(s: State) {
    s.lockNum < 0 && forall t: nat :: At(s.threads, t).stack == []
  }

  lemma LostStays(s: State, a: Action)
    requires Lost(s) && Knows(s.lockNum, s.owner, a.t, At(s.threads, a.t))
    ensures Lost(Step(s, a))
  {
    BystanderStep(s, a);
  }

  /** The state after `more` steps from `s`. */
  function After(s: State, more: seq<Action>): State
    decreases |more|
  {
    if more == [] then s else After(Step(s, more[0]), more[1..])
  }

  lemma {:induction false} LostFrom(s: State, more: seq<Action>)
    requires Inv(s.lockNum, s.owner, s.threads) && Lost(s)
    ensures Lost(After(s, more))
    decreases |more|
  {
    if more != [] {
      LostStays(s, more[0]);
      StepKeepsInv(s, more[0]);
      LostFrom(Step(s, more[0]), more[1..]);
    }
  }

  /** From such a state nobody ever gets the lock again. */
  lemma LostForGood(writeFirst: bool, s: State, more: seq<Action>)
    requires Reachable(writeFirst, ALL_CALLS, s) && Lost(s)
    ensures Lost(After(s, more))
  {
    var schedule :| MakesOnly(schedule, ALL_CALLS) && Execute(writeFirst, schedule) == s;
    RunInv(writeFirst, schedule);
    LostFrom(s, more);
  }
}
