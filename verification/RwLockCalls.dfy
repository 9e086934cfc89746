/**
 What a thread that asks for AtomicRWLock gets: the lock in the way it asked for, and, if it is
 left alone, in a bounded number of steps exactly when the lock lets it in.
 */
module RwLockCalls {
  import opened AtomicRwLock

  // ---------------------------------------------------------------- in the way it asked for

  predicate Writes(pc: Pc) {
    pc == WriteWaiting || pc == WriteWon || pc == Writing
  }

  /** Whether each thread's latest call asked to write. */
  function Asked(writeFirst: bool, schedule: seq<Action>): map<nat, bool> {
    if schedule == [] then map[]
    else
      var before, a := schedule[..|schedule| - 1], schedule[|schedule| - 1];
      if PcOf(Execute(writeFirst, before).threads, a.t) == Idle then Asked(writeFirst, before)[a.t := a.write]
      else Asked(writeFirst, before)
  }

  predicate Served(asked: map<nat, bool>, ts: map<nat, Pc>, t: nat) {
    PcOf(ts, t) != Idle ==> t in asked && asked[t] == Writes(PcOf(ts, t))
  }

  lemma StepServes(asked: map<nat, bool>, s: State, a: Action, t: nat)
    requires Served(asked, s.threads, t)
    ensures Served(if PcOf(s.threads, a.t) == Idle then asked[a.t := a.write] else asked, Step(s, a).threads, t)
  {
  }

  /** In every run a thread that asked to read waits for and has the lock only as a reader, and one
      that asked to write only as a writer. */
  lemma {:induction false} CallersServedOverRuns(writeFirst: bool, schedule: seq<Action>, t: nat)
    ensures Served(Asked(writeFirst, schedule), Execute(writeFirst, schedule).threads, t)
  {
    if schedule != [] {
      var before, a := schedule[..|schedule| - 1], schedule[|schedule| - 1];
      CallersServedOverRuns(writeFirst, before, t);
      StepServes(Asked(writeFirst, before), Execute(writeFirst, before), a, t);
    }
  }

  // ---------------------------------------------------------------- a thread on its own

  function Alone(s: State, t: nat, write: bool, k: nat): State
    decreases k
  {
    if k == 0 then s else Alone(Step(s, Action(t, write, false)), t, write, k - 1)
  }

  /** The lock lets readers in: nobody writes and, in write-first mode, nobody waits to. */
  predicate Admits(s: State) {
    s.lockNum >= RW_LOCK_FREE && !(s.writeFirst && s.waitNum > 0)
  }

  /** How many steps a reader still needs when it is let in. */
  function ReadRemaining(s: State, t: nat): nat {
    match PcOf(s.threads, t)
    case Idle => 3
    case ReadReload => 3
    case ReadHave(n) => if n == s.lockNum then 2 else 4
    case ReadPassed(n) => if n == s.lockNum then 1 else 3
    case _ => 0
  }

  lemma ReaderNearer(s: State, t: nat)
    requires Admits(s) && ReadRemaining(s, t) > 0
    ensures var s' := Step(s, Action(t, false, false));
      && ReadRemaining(s', t) < ReadRemaining(s, t)
      && (if ReadRemaining(s', t) == 0 then PcOf(s'.threads, t) == Reading else Admits(s'))
  {
  }

  /** A reader that the lock lets in, and that is left alone, has it within four steps, wherever
      in ReadLock it was. */
  lemma {:induction false} ReaderGetsIn(s: State, t: nat) returns (k: nat)
    requires Admits(s) && ReadRemaining(s, t) > 0
    ensures k <= ReadRemaining(s, t) <= 4 && PcOf(Alone(s, t, false, k).threads, t) == Reading
    decreases ReadRemaining(s, t)
  {
    ReaderNearer(s, t);
    var s' := Step(s, Action(t, false, false));
    if ReadRemaining(s', t) == 0 {
      k := 0;
      assert Alone(s', t, false, 0) == s';
    } else {
      k := ReaderGetsIn(s', t);
    }
    k := k + 1;
  }

  /** The reader is in front of its check, or past it with a number that the lock does not have. */
  predicate KeptOut(s: State, t: nat) {
    && !Admits(s)
    && match PcOf(s.threads, t)
       case Idle => true
       case ReadReload => true
       case ReadHave(n) => true
       case ReadPassed(n) => s.lockNum < RW_LOCK_FREE && n >= RW_LOCK_FREE
       case _ => false
  }

  lemma {:induction false} StaysOut(s: State, t: nat, k: nat)
    requires KeptOut(s, t)
    ensures KeptOut(Alone(s, t, false, k), t)
    decreases k
  {
    if k > 0 {
      StaysOut(Step(s, Action(t, false, false)), t, k - 1);
    }
  }

  /** A reader that comes to the lock, in either mode, gets it on its own if and only if nobody
      writes and, in write-first mode only, no writer is waiting. */
  lemma ReaderAloneExactly(s: State, t: nat)
    requires PcOf(s.threads, t) == Idle
    ensures (exists k: nat :: PcOf(Alone(s, t, false, k).threads, t) == Reading) <==> Admits(s)
  {
    if Admits(s) {
      var k := ReaderGetsIn(s, t);
    } else {
      forall k: nat ensures PcOf(Alone(s, t, false, k).threads, t) != Reading {
        StaysOut(s, t, k);
      }
    }
  }

  /** A writer that comes to a free lock, or waits at one, has it on its own within three steps. */
  lemma WriterGetsIn(s: State, t: nat) returns (k: nat)
    requires s.lockNum == RW_LOCK_FREE && (PcOf(s.threads, t) == Idle || PcOf(s.threads, t) == WriteWaiting)
    ensures k <= 3 && PcOf(Alone(s, t, true, k).threads, t) == Writing
  {
    var a := Action(t, true, false);
    if PcOf(s.threads, t) == Idle {
      assert PcOf(Step(s, a).threads, t) == WriteWaiting;
      WaiterGetsIn(Step(s, a), t);
      k := 3;
    } else {
      WaiterGetsIn(s, t);
      k := 2;
    }
  }

  lemma WaiterGetsIn(s: State, t: nat)
    requires s.lockNum == RW_LOCK_FREE && PcOf(s.threads, t) == WriteWaiting
    ensures PcOf(Alone(s, t, true, 2).threads, t) == Writing
  {
    var s1 := Step(s, Action(t, true, false));
    assert PcOf(s1.threads, t) == WriteWon;
    assert Alone(s, t, true, 2) == Alone(s1, t, true, 1);
  }

  lemma {:induction false} WaiterStays(s: State, t: nat, k: nat)
    requires s.lockNum != RW_LOCK_FREE && (PcOf(s.threads, t) == Idle || PcOf(s.threads, t) == WriteWaiting)
    ensures PcOf(Alone(s, t, true, k).threads, t) == Idle || PcOf(Alone(s, t, true, k).threads, t) == WriteWaiting
    decreases k
  {
    if k > 0 {
      WaiterStays(Step(s, Action(t, true, false)), t, k - 1);
    }
  }

  /** A writer that comes to the lock gets it on its own if and only if the lock is free. */
  lemma WriterAloneExactly(s: State, t: nat)
    requires PcOf(s.threads, t) == Idle
    ensures (exists k: nat :: PcOf(Alone(s, t, true, k).threads, t) == Writing) <==> s.lockNum == RW_LOCK_FREE
  {
    if s.lockNum == RW_LOCK_FREE {
      var k := WriterGetsIn(s, t);
    } else {
      forall k: nat ensures PcOf(Alone(s, t, true, k).threads, t) != Writing {
        WaiterStays(s, t, k);
      }
    }
  }
}
