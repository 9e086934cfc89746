/**
 What a thread that opens and closes guards of ReentrantRWLock gets: exactly the guards of its
 calls, and, if it is left alone, exactly when the lock lets it in.
 */
module GuardCalls {
  import opened ReentrantRwLock

  // ---------------------------------------------------------------- the guards of its calls

  /** A thread's latest call, and the guards that its earlier calls leave it with. */
  datatype Deed = Deed(before: seq<Guard>, call: Call)

  /** The guards a thread should have when the call has returned.  Closing without a guard open is
      no call. */
  function Meant(deed: Deed): seq<Guard> {
    match deed.call
    case OpenRead => deed.before + [R]
    case OpenWrite => deed.before + [W]
    case Close => if deed.before == [] then [] else Pop(deed.before)
  }

  function MeantFor(deeds: map<nat, Deed>, t: nat): seq<Guard> {
    if t in deeds then Meant(deeds[t]) else []
  }

  function Note(deeds: map<nat, Deed>, s: State, a: Action): map<nat, Deed> {
    if At(s.threads, a.t).pc == Ready then deeds[a.t := Deed(MeantFor(deeds, a.t), a.call)] else deeds
  }

  function Deeds(writeFirst: bool, schedule: seq<Action>): map<nat, Deed> {
    if schedule == [] then map[]
    else
      var before := schedule[..|schedule| - 1];
      Note(Deeds(writeFirst, before), Execute(writeFirst, before), schedule[|schedule| - 1])
  }

  /** The thread has the guards of its calls; one that is inside a call is at that call. */
  predicate Kept(deeds: map<nat, Deed>, t: nat, th: Thread) {
    if th.pc == Ready then th.stack == MeantFor(deeds, t)
    else t in deeds && Underway(deeds[t], th)
  }

  predicate Underway(deed: Deed, th: Thread) {
    match th.pc
    case Ready => false
    case ReadAsk => deed.call == OpenRead && th.stack == deed.before
    case ReadHave(_) => deed.call == OpenRead && th.stack == deed.before
    case ReadPassed(_) => deed.call == OpenRead && th.stack == deed.before
    case ReadLeave => deed.call == Close && th.stack == deed.before != [] && Top(deed.before) == R
    case WriteNest => deed.call == OpenWrite && th.stack == deed.before
    case WriteAsk => deed.call == OpenWrite && th.stack == deed.before
    case WriteWaiting => deed.call == OpenWrite && th.stack == deed.before
    case WriteWon => deed.call == OpenWrite && th.stack == Meant(deed)
    case WriteOwned => deed.call == OpenWrite && th.stack == Meant(deed)
    case Clearing => deed.call == Close && th.stack == Meant(deed)
  }

  lemma MoverKept(deeds: map<nat, Deed>, s: State, a: Action)
    requires Kept(deeds, a.t, At(s.threads, a.t))
    ensures Kept(Note(deeds, s, a), a.t, At(Step(s, a).threads, a.t))
  {
  }

  /** In every run every thread that is between calls has exactly the guards of its calls open, in
      their order: one for each OpenRead and OpenWrite, of that kind, less the innermost one for
      each Close; and a thread inside a call is on its way to what that call asks for. */
  lemma {:induction false} GuardsAreOfCalls(writeFirst: bool, schedule: seq<Action>, t: nat)
    ensures Kept(Deeds(writeFirst, schedule), t, At(Execute(writeFirst, schedule).threads, t))
  {
    if schedule != [] {
      var before, a := schedule[..|schedule| - 1], schedule[|schedule| - 1];
      var s := Execute(writeFirst, before);
      GuardsAreOfCalls(writeFirst, before, t);
      if t == a.t {
        MoverKept(Deeds(writeFirst, before), s, a);
      } else {
        StepMovesOne(s, a);
      }
    }
  }

  // ---------------------------------------------------------------- a thread on its own

  function Alone(s: State, t: nat, call: Call, k: nat): State
    decreases k
  {
    if k == 0 then s else Alone(Step(s, Action(t, call, false)), t, call, k - 1)
  }

  lemma {:induction false} AloneMore(s: State, t: nat, call: Call, j: nat, k: nat)
    ensures Alone(s, t, call, j + k) == Alone(Alone(s, t, call, j), t, call, k)
    decreases j
  {
    if j > 0 {
      AloneMore(Step(s, Action(t, call, false)), t, call, j - 1, k);
    }
  }

  /** The lock lets thread `t` in, to read or to write: it is the owner, or it need not wait. */
  predicate Admits(s: State, t: nat, call: Call) {
    || s.owner == Is(t)
    || (call == OpenRead && s.lockNum >= 0 && !(s.writeFirst && s.waitNum > 0))
    || (call == OpenWrite && s.lockNum == 0)
  }

  function GuardOf(call: Call): Guard {
    if call == OpenRead then R else W
  }

  /** After `k` steps of its own the call has returned with one guard more. */
  predicate In(s: State, t: nat, call: Call, k: nat) {
    At(Alone(s, t, call, k).threads, t) == Thread(At(s.threads, t).stack + [GuardOf(call)], Ready)
  }

  lemma OwnerGetsIn(s: State, t: nat, call: Call) returns (k: nat)
    requires At(s.threads, t).pc == Ready && call != Close && s.owner == Is(t)
    ensures k <= 2 && In(s, t, call, k)
  {
    var s1 := Step(s, Action(t, call, false));
    assert Alone(s, t, call, 1) == s1;
    k := 1;
    if call == OpenWrite {
      assert At(s1.threads, t) == Thread(At(s.threads, t).stack, WriteNest);
      assert Alone(s, t, call, 2) == Alone(s1, t, call, 1);
      k := 2;
    }
  }

  /** How many steps a reader that is not the owner still needs when it is let in. */
  function ReadRemaining(s: State, t: nat): nat {
    match At(s.threads, t).pc
    case ReadAsk => 3
    case ReadHave(n) => if n == s.lockNum then 2 else 4
    case ReadPassed(n) => if n == s.lockNum then 1 else 3
    case _ => 0
  }

  lemma ReaderNearer(s: State, t: nat)
    requires s.owner != Is(t) && Admits(s, t, OpenRead) && ReadRemaining(s, t) > 0
    ensures var (s', stack) := (Step(s, Action(t, OpenRead, false)), At(s.threads, t).stack);
      if ReadRemaining(s', t) == 0 then At(s'.threads, t) == Thread(stack + [R], Ready)
      else
        && ReadRemaining(s', t) < ReadRemaining(s, t) && At(s'.threads, t).stack == stack
        && s'.owner != Is(t) && Admits(s', t, OpenRead)
  {
  }

  /** A reader that the lock lets in, and that is left alone, has its guard within four steps,
      wherever in ReadLock it was. */
  lemma {:induction false} AskerGetsIn(s: State, t: nat) returns (k: nat)
    requires s.owner != Is(t) && Admits(s, t, OpenRead) && ReadRemaining(s, t) > 0
    ensures k <= ReadRemaining(s, t) <= 4 && In(s, t, OpenRead, k)
    decreases ReadRemaining(s, t)
  {
    ReaderNearer(s, t);
    var s' := Step(s, Action(t, OpenRead, false));
    if ReadRemaining(s', t) == 0 {
      k := 0;
      assert Alone(s', t, OpenRead, 0) == s';
    } else {
      k := AskerGetsIn(s', t);
    }
    k := k + 1;
  }

  lemma ReaderGetsIn(s: State, t: nat) returns (k: nat)
    requires At(s.threads, t).pc == Ready && s.owner != Is(t) && Admits(s, t, OpenRead)
    ensures k <= 4 && In(s, t, OpenRead, k)
  {
    var s1 := Step(s, Action(t, OpenRead, false));
    assert s1 == Put(s, t, Thread(At(s.threads, t).stack, ReadAsk));
    k := AskerGetsIn(s1, t);
    k := k + 1;
  }

  lemma WriterGetsIn(s: State, t: nat)
    requires At(s.threads, t).pc == Ready && s.owner != Is(t) && s.lockNum == 0
    ensures In(s, t, OpenWrite, 5)
  {
    var (a, stack) := (Action(t, OpenWrite, false), At(s.threads, t).stack);
    var s1 := Step(s, a);
    assert s1 == Put(s, t, Thread(stack, WriteAsk));
    var s2 := Step(s1, a);
    assert s2 == Put(s1.(waitNum := s.waitNum + 1), t, Thread(stack, WriteWaiting));
    WaiterGetsIn(s2, t);
    assert Alone(s, t, OpenWrite, 2) == s2;
    AloneMore(s, t, OpenWrite, 2, 3);
  }

  /** A writer that waits at a free lock, and is left alone, has its guard in three steps. */
  lemma WaiterGetsIn(s: State, t: nat)
    requires At(s.threads, t).pc == WriteWaiting && s.lockNum == 0
    ensures At(Alone(s, t, OpenWrite, 3).threads, t) == Thread(At(s.threads, t).stack + [W], Ready)
  {
    var (a, stack) := (Action(t, OpenWrite, false), At(s.threads, t).stack + [W]);
    var s1 := Step(s, a);
    assert At(s1.threads, t) == Thread(stack, WriteWon);
    var s2 := Step(s1, a);
    assert At(s2.threads, t) == Thread(stack, WriteOwned);
    assert Alone(s, t, OpenWrite, 3) == Alone(s1, t, OpenWrite, 2) == Alone(s2, t, OpenWrite, 1);
  }

  /** The thread is in front of the lock, which does not let it in. */
  predicate KeptOut(s: State, t: nat, call: Call, stack: seq<Guard>) {
    && !Admits(s, t, call) && At(s.threads, t).stack == stack
    && match At(s.threads, t).pc
       case Ready => true
       case ReadAsk => call == OpenRead
       case ReadHave(_) => call == OpenRead
       case ReadPassed(n) => call == OpenRead && s.lockNum < 0 && n >= 0
       case WriteAsk => call == OpenWrite
       case WriteWaiting => call == OpenWrite
       case _ => false
  }

  lemma KeptOutStep(s: State, t: nat, call: Call, stack: seq<Guard>)
    requires KeptOut(s, t, call, stack) && call != Close
    ensures KeptOut(Step(s, Action(t, call, false)), t, call, stack)
  {
  }

  lemma {:induction false} StaysOut(s: State, t: nat, call: Call, stack: seq<Guard>, k: nat)
    requires KeptOut(s, t, call, stack) && call != Close
    ensures KeptOut(Alone(s, t, call, k), t, call, stack)
    decreases k
  {
    if k > 0 {
      KeptOutStep(s, t, call, stack);
      StaysOut(Step(s, Action(t, call, false)), t, call, stack, k - 1);
    }
  }

  /** A thread that opens a guard, with whatever guards it has, gets it on its own if and only if it
      is the recorded owner or the lock lets it in: to read, nobody writes and in write-first mode
      nobody waits to; to write, the lock is free. */
  lemma AloneExactly(s: State, t: nat, call: Call)
    requires At(s.threads, t).pc == Ready && call != Close
    ensures (exists k: nat :: In(s, t, call, k)) <==> Admits(s, t, call)
  {
    if Admits(s, t, call) {
      if s.owner == Is(t) {
        var k := OwnerGetsIn(s, t, call);
      } else if call == OpenRead {
        var k := ReaderGetsIn(s, t);
      } else {
        WriterGetsIn(s, t);
      }
    } else {
      var stack := At(s.threads, t).stack;
      forall k: nat ensures !In(s, t, call, k) {
        StaysOut(s, t, call, stack, k);
      }
    }
  }
}
