/**
 What makes ReentrantRWLock reentrant: a thread that has the lock for writing is granted further
 guards without waiting.  When that holds, what happens when it does not, and what callers can
 do about it.
 */
module Reentrancy {
  import opened ReentrantRwLock

  /** Thread `t` has a write guard outermost and is about to open another guard. */
  predicate AsksInside(s: State, t: nat, call: Call) {
    Inside(At(s.threads, t)) && At(s.threads, t).pc == Ready && call != Close
  }

  /** Thread `t` makes the call and, after `more`, has one guard more. */
  predicate IsGranted(s: State, t: nat, call: Call, more: seq<Action>) {
    |At(After(Step(s, Action(t, call, false)), more).threads, t).stack| > |At(s.threads, t).stack|
  }

  // ---------------------------------------------------------------- granted

  predicate Others(more: seq<Action>, t: nat) {
    forall i | 0 <= i < |more| :: more[i].t != t
  }

  lemma {:induction false} OthersLeave(s: State, more: seq<Action>, t: nat)
    requires Others(more, t)
    ensures At(After(s, more).threads, t) == At(s.threads, t)
    decreases |more|
  {
    if more != [] {
      StepMovesOne(s, more[0]);
      OthersLeave(Step(s, more[0]), more[1..], t);
    }
  }

  /** The recorded owner gets a nested read guard at once and a nested write guard with its
      second step, whatever other threads do in between: it never waits. */
  lemma OwnerIsGranted(s: State, t: nat, call: Call, others: seq<Action>, a: Action)
    requires AsksInside(s, t, call) && s.owner == Is(t) && Others(others, t) && a.t == t
    ensures var (stack, s1) := (At(s.threads, t).stack, Step(s, Action(t, call, false)));
      && (call == OpenRead ==> At(s1.threads, t) == Thread(stack + [R], Ready))
      && (call == OpenWrite ==> At(Step(After(s1, others), a).threads, t) == Thread(stack + [W], Ready))
  {
    OthersLeave(Step(s, Action(t, call, false)), others, t);
  }

  // ---------------------------------------------------------------- not granted

  /** Thread `t` waits behind its own write guard, and nobody else has a guard. */
  ghost predicate Stuck(s: State, t: nat, stack: seq<Guard>, n: int) {
    && At(s.threads, t).stack == stack != [] && s.lockNum == n < 0
    && Waits(At(s.threads, t).pc)
    && forall u: nat | u != t :: At(s.threads, u).stack == []
  }

  predicate Waits(pc: Pc) {
    pc.ReadAsk? || (pc.ReadHave? && pc.n < 0) || pc.WriteAsk? || pc.WriteWaiting?
  }

  lemma StuckStep(s: State, a: Action, t: nat, stack: seq<Guard>, n: int)
    requires Inv(s.lockNum, s.owner, s.threads) && Stuck(s, t, stack, n)
    ensures Stuck(Step(s, a), t, stack, n)
  {
    StepMovesOne(s, a);
    if a.t != t {
      assert Knows(s.lockNum, s.owner, a.t, At(s.threads, a.t));
      BystanderStep(s, a);
    }
  }

  lemma {:induction false} StuckFrom(s: State, more: seq<Action>, t: nat, stack: seq<Guard>, n: int)
    requires Inv(s.lockNum, s.owner, s.threads) && Stuck(s, t, stack, n)
    ensures Stuck(After(s, more), t, stack, n)
    decreases |more|
  {
    if more != [] {
      StuckStep(s, more[0], t, stack, n);
      StepKeepsInv(s, more[0]);
      StuckFrom(Step(s, more[0]), more[1..], t, stack, n);
    }
  }

  lemma ErasedOwnerWaits(s: State, t: nat, call: Call)
    requires Inv(s.lockNum, s.owner, s.threads) && AsksInside(s, t, call) && s.owner != Is(t)
    ensures Stuck(Step(s, Action(t, call, false)), t, At(s.threads, t).stack, s.lockNum)
  {
    InsideAlone(s, t);
    StepMovesOne(s, Action(t, call, false));
  }

  /** A thread inside whose record has been erased waits behind its own guard for ever once it
      asks for another one, and nobody else ever opens a guard again, whatever the
      continuation and whoever takes part in it. */
  lemma ErasedOwnerIsStuck(writeFirst: bool, schedule: seq<Action>, t: nat, call: Call, more: seq<Action>)
    requires var s := Execute(writeFirst, schedule); AsksInside(s, t, call) && s.owner != Is(t)
    ensures var s := Execute(writeFirst, schedule);
      Stuck(After(Step(s, Action(t, call, false)), more), t, At(s.threads, t).stack, s.lockNum)
  {
    var s, a := Execute(writeFirst, schedule), Action(t, call, false);
    RunInv(writeFirst, schedule);
    ErasedOwnerWaits(s, t, call);
    StepKeepsInv(s, a);
    StuckFrom(Step(s, a), more, t, At(s.threads, t).stack, s.lockNum);
  }

  /** The lock is reentrant exactly for the recorded owner: in every run, a thread inside that
      asks for another guard is granted it in some continuation if and only if the lock has it
      on record, and then it does not even wait (`OwnerIsGranted`). */
  lemma ReentrantExactly(writeFirst: bool, schedule: seq<Action>, t: nat, call: Call)
    requires AsksInside(Execute(writeFirst, schedule), t, call)
    ensures var s := Execute(writeFirst, schedule);
      (exists more :: IsGranted(s, t, call, more)) <==> s.owner == Is(t)
  {
    var s := Execute(writeFirst, schedule);
    if s.owner == Is(t) {
      var a := Action(t, call, false);
      OwnerIsGranted(s, t, call, [], a);
      assert After(Step(s, a), []) == Step(s, a);
      OneStepAfter(Step(s, a), a);
      assert IsGranted(s, t, call, if call == OpenRead then [] else [a]);
    } else {
      forall more ensures !IsGranted(s, t, call, more) {
        ErasedOwnerIsStuck(writeFirst, schedule, t, call, more);
      }
    }
  }

  lemma OneStepAfter(s: State, a: Action)
    ensures After(s, [a]) == Step(s, a)
  {
    assert [a][1..] == [];
    assert After(Step(s, a), []) == Step(s, a);
  }

  /** The record can be erased although only write guards are used: thread 0 releases and is
      stopped, thread 1 takes the lock, thread 0 goes on and erases thread 1's record. */
  lemma RecordIsErased(writeFirst: bool) returns (s: State)
    ensures Reachable(writeFirst, {OpenWrite, Close}, s)
    ensures Inside(At(s.threads, 1)) && At(s.threads, 1).pc == Ready && s.owner == NoOne && Exact(s)
  {
    s := Retake(writeFirst, {OpenWrite, Close});
    s := ReachStep(writeFirst, {OpenWrite, Close}, s, Action(0, Close, false));
    assert WriteDepth([W]) == 1 by { DepthAfterPush([], W); assert [] + [W] == [W]; }
    assert Accounts(s, 1);
  }

  // ---------------------------------------------------------------- what callers can do

  /** The step opens a guard inside a write guard of the same thread. */
  predicate OpensUnderWrite(s: State, a: Action) {
    At(s.threads, a.t).pc == Ready && a.call != Close && W in At(s.threads, a.t).stack
  }

  /** No thread ever opens any guard inside a write guard. */
  ghost predicate Bare(writeFirst: bool, schedule: seq<Action>) {
    forall k | 0 <= k < |schedule| :: !OpensUnderWrite(Execute(writeFirst, schedule[..k]), schedule[k])
  }

  /** A thread inside has one guard and is not waiting for anything. */
  predicate BareThread(th: Thread) {
    Inside(th) ==> th.stack == [W] && (th.pc == Ready || th.pc == WriteWon || th.pc == WriteOwned)
  }

  ghost predicate BareThreads(ts: map<nat, Thread>) {
    forall t: nat :: BareThread(At(ts, t))
  }

  lemma BareMover(s: State, a: Action)
    requires Inv(s.lockNum, s.owner, s.threads) && BareThread(At(s.threads, a.t)) && !OpensUnderWrite(s, a)
    ensures BareThread(At(Step(s, a).threads, a.t))
  {
    var th := At(s.threads, a.t);
    assert Knows(s.lockNum, s.owner, a.t, th);
    GuardsCounted(s.threads, a.t);
    assert th.pc == WriteWaiting && s.lockNum == 0 ==> th.stack == [];
  }

  lemma BareStep(s: State, a: Action)
    requires Inv(s.lockNum, s.owner, s.threads) && BareThreads(s.threads) && !OpensUnderWrite(s, a)
    ensures BareThreads(Step(s, a).threads)
  {
    BareMover(s, a);
    StepMovesOne(s, a);
    var ts' := Step(s, a).threads;
    forall u: nat ensures BareThread(At(ts', u)) {
      assert BareThread(At(s.threads, u));
    }
  }

  lemma BareNext(writeFirst: bool, schedule: seq<Action>, k: nat)
    requires k < |schedule| && !OpensUnderWrite(Execute(writeFirst, schedule[..k]), schedule[k])
    requires BareThreads(Execute(writeFirst, schedule[..k]).threads)
    ensures BareThreads(Execute(writeFirst, schedule[..k + 1]).threads)
  {
    var s := Execute(writeFirst, schedule[..k]);
    RunInv(writeFirst, schedule[..k]);
    BareStep(s, schedule[k]);
    assert Execute(writeFirst, schedule[..k + 1]) == Step(s, schedule[k]) by {
      PrefixStep(writeFirst, schedule, k);
    }
  }

  lemma {:induction false} BareUpTo(writeFirst: bool, schedule: seq<Action>, k: nat)
    requires k <= |schedule| && Bare(writeFirst, schedule)
    ensures BareThreads(Execute(writeFirst, schedule[..k]).threads)
  {
    if k > 0 {
      BareUpTo(writeFirst, schedule, k - 1);
      BareNext(writeFirst, schedule, k - 1);
    }
  }

  /** The lock is never dead while thread `t` is inside: the count is -1, `t` is not waiting, and
      closing its guard frees the lock. */
  predicate Alive(s: State, t: nat) {
    var th := At(s.threads, t);
    Inside(th) ==>
      && s.lockNum == -1 && !Waits(th.pc)
      && (th.pc == Ready ==> Step(s, Action(t, Close, false)).lockNum == 0)
  }

  /** Callers who open nothing at all inside a write guard keep the lock alive: in every run a
      thread inside is never waiting for the lock, the count is exact, and closing its guard
      frees the lock. */
  lemma BareRunsStayAlive(writeFirst: bool, schedule: seq<Action>, t: nat)
    requires Bare(writeFirst, schedule)
    ensures Alive(Execute(writeFirst, schedule), t)
  {
    RunInv(writeFirst, schedule);
    BareRunIsBare(writeFirst, schedule, t);
    BareRunIsExact(writeFirst, schedule);
    BareIsAlive(Execute(writeFirst, schedule), t);
  }

  lemma BareRunIsBare(writeFirst: bool, schedule: seq<Action>, t: nat)
    requires Bare(writeFirst, schedule)
    ensures BareThread(At(Execute(writeFirst, schedule).threads, t))
  {
    BareUpTo(writeFirst, schedule, |schedule|);
    assert schedule[..|schedule|] == schedule;
  }

  lemma BareRunIsExact(writeFirst: bool, schedule: seq<Action>)
    requires Bare(writeFirst, schedule)
    ensures Exact(Execute(writeFirst, schedule))
  {
    BareIsFlat(writeFirst, schedule);
    FlatRunsAccountExactly(writeFirst, schedule);
    assert Exact(Execute(writeFirst, schedule[..|schedule|]));
    assert schedule[..|schedule|] == schedule;
  }

  lemma BareIsAlive(s: State, t: nat)
    requires Inv(s.lockNum, s.owner, s.threads) && Exact(s) && BareThread(At(s.threads, t))
    ensures Alive(s, t)
  {
    if Inside(At(s.threads, t)) {
      InsideAlone(s, t);
      ExactOfOne(s, t);
    }
  }

  lemma BareIsFlat(writeFirst: bool, schedule: seq<Action>)
    requires Bare(writeFirst, schedule)
    ensures Flat(writeFirst, schedule)
  {
    forall k | 0 <= k < |schedule|
      ensures !OpensReadUnderWrite(Execute(writeFirst, schedule[..k]), schedule[k])
    {
      assert !OpensUnderWrite(Execute(writeFirst, schedule[..k]), schedule[k]);
    }
  }

  lemma ExactOfOne(s: State, t: nat)
    requires Exact(s) && s.lockNum < 0 && At(s.threads, t).stack == [W]
    requires forall u: nat | u != t :: At(s.threads, u).stack == []
    ensures s.lockNum == -1
  {
    var x: nat :| Accounts(s, x);
    DepthAfterPush([], W);
    assert [] + [W] == [W];
  }
}
