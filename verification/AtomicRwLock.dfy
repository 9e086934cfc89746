/**
 AtomicRWLock with any number of threads, in both modes.  One step is one atomic operation on
 lock_num_ or write_lock_wait_num_; std::this_thread::yield and its retry counter do nothing
 to the state.  Fewer than 2^31 threads hold the lock at a time, so lock_num_ does not overflow.
 */
module AtomicRwLock {
  import opened Common

  datatype Pc =
    | Idle
    | ReadHave(n: int)  // lock_num_ loaded, loop condition to be evaluated
    | ReadReload        // a writer was waiting, lock_num_ to be loaded again
    | ReadPassed(n: int) // condition passed, CAS n -> n + 1 next
    | Reading
    | WriteWaiting      // wait count incremented, CAS 0 -> -1 next
    | WriteWon          // CAS succeeded, wait count to be decremented next
    | Writing

  datatype State = State(lockNum: int, waitNum: int, writeFirst: bool, threads: map<nat, Pc>)

  datatype Action = Action(t: nat, write: bool, weak: bool)

  const RW_LOCK_FREE := 0
  const WRITE_EXCLUSIVE := -1

  function PcOf(ts: map<nat, Pc>, t: nat): Pc {
    if t in ts then ts[t] else Idle
  }

  function Init(writeFirst: bool): State {
    State(RW_LOCK_FREE, 0, writeFirst, map[])
  }

  function Goto(s: State, t: nat, pc: Pc): State {
    s.(threads := s.threads[t := pc])
  }

  /** Thread `a.t` takes its next step; idle, it starts to lock for writing or reading. */
  function Step(s: State, a: Action): State {
    match PcOf(s.threads, a.t)
    case Idle =>
      if a.write then Goto(s.(waitNum := s.waitNum + 1), a.t, WriteWaiting)
      else Goto(s, a.t, ReadHave(s.lockNum))
    case ReadHave(n) =>
      if n < RW_LOCK_FREE then Goto(s, a.t, ReadHave(s.lockNum))
      else if s.writeFirst && s.waitNum > 0 then Goto(s, a.t, ReadReload)
      else Goto(s, a.t, ReadPassed(n))
    case ReadReload => Goto(s, a.t, ReadHave(s.lockNum))
    case ReadPassed(n) =>
      if Acquires(s, a) then Goto(s.(lockNum := n + 1), a.t, Reading)
      else Goto(s, a.t, ReadHave(s.lockNum))
    case Reading => Goto(s.(lockNum := s.lockNum - 1), a.t, Idle)
    case WriteWaiting =>
      if s.lockNum == RW_LOCK_FREE && !a.weak then Goto(s.(lockNum := WRITE_EXCLUSIVE), a.t, WriteWon)
      else s
    case WriteWon => Goto(s.(waitNum := s.waitNum - 1), a.t, Writing)
    case Writing => Goto(s.(lockNum := s.lockNum + 1), a.t, Idle)
  }

  /** The step is a reader's successful CAS. */
  predicate Acquires(s: State, a: Action) {
    PcOf(s.threads, a.t).ReadPassed? && s.lockNum == PcOf(s.threads, a.t).n && !a.weak
  }

  function Execute(writeFirst: bool, schedule: seq<Action>): (s: State)
    ensures s.writeFirst == writeFirst
  {
    if schedule == [] then Init(writeFirst)
    else Step(Execute(writeFirst, schedule[..|schedule| - 1]), schedule[|schedule| - 1])
  }

  // ---------------------------------------------------------------- exclusion

  function Readers(ts: map<nat, Pc>): set<nat> {
    set t | t in ts && ts[t] == Reading
  }

  /** Threads that have the lock for writing. */
  function Writers(ts: map<nat, Pc>): set<nat> {
    set t | t in ts && (ts[t] == WriteWon || ts[t] == Writing)
  }

  /** Writers between the increment and the decrement of the wait count. */
  function Waiters(ts: map<nat, Pc>): set<nat> {
    set t | t in ts && (ts[t] == WriteWaiting || ts[t] == WriteWon)
  }

  /** Readers that have passed the loop condition and are about to CAS. */
  function Passed(ts: map<nat, Pc>): set<nat> {
    set t | t in ts && ts[t].ReadPassed?
  }

  ghost predicate Inv(s: State) {
    && (if s.lockNum < 0 then s.lockNum == -1 && |Writers(s.threads)| == 1 && Readers(s.threads) == {}
        else s.lockNum == |Readers(s.threads)| && Writers(s.threads) == {})
    && s.waitNum == |Waiters(s.threads)|
    && (forall t: nat :: PcOf(s.threads, t).ReadPassed? ==> PcOf(s.threads, t).n >= 0)
  }

  /** How the three sets change when one thread moves. */
  lemma Moved(ts: map<nat, Pc>, t: nat, pc: Pc)
    ensures var ts' := ts[t := pc];
      && Readers(ts') == (if pc == Reading then Readers(ts) + {t} else Readers(ts) - {t})
      && Writers(ts') == (if pc == WriteWon || pc == Writing then Writers(ts) + {t} else Writers(ts) - {t})
      && Waiters(ts') == (if pc == WriteWaiting || pc == WriteWon then Waiters(ts) + {t} else Waiters(ts) - {t})
      && forall u: nat :: PcOf(ts', u) == if u == t then pc else PcOf(ts, u)
    ensures t in Readers(ts) <==> PcOf(ts, t) == Reading
    ensures t in Writers(ts) <==> PcOf(ts, t) == WriteWon || PcOf(ts, t) == Writing
    ensures t in Waiters(ts) <==> PcOf(ts, t) == WriteWaiting || PcOf(ts, t) == WriteWon
  {
  }

  /** A thread of the same kind afterwards leaves each set as it is. */
  lemma SameSets(ts: map<nat, Pc>, t: nat, pc: Pc)
    requires (pc == Reading) == (t in Readers(ts)) && (pc == WriteWon || pc == Writing) == (t in Writers(ts))
    ensures var ts' := ts[t := pc];
      && Readers(ts') == Readers(ts) && Writers(ts') == Writers(ts)
      && forall u: nat :: PcOf(ts', u) == if u == t then pc else PcOf(ts, u)
  {
  }

  /** A thread that does not have the lock and is not waiting to write moves on. */
  lemma MoveKeepsInv(s: State, t: nat, pc: Pc)
    requires Inv(s)
    requires t !in Readers(s.threads) && t !in Writers(s.threads) && t !in Waiters(s.threads)
    requires pc.Idle? || pc.ReadHave? || pc.ReadReload? || (pc.ReadPassed? && pc.n >= 0)
    ensures Inv(Goto(s, t, pc))
  {
    SameSets(s.threads, t, pc);
    assert Waiters(s.threads[t := pc]) == Waiters(s.threads) by { Moved(s.threads, t, pc); }
  }

  lemma EnterKeepsInv(s: State, t: nat)
    requires Inv(s) && PcOf(s.threads, t).ReadPassed? && s.lockNum == PcOf(s.threads, t).n
    ensures Inv(Goto(s.(lockNum := s.lockNum + 1), t, Reading))
  {
    assert PcOf(s.threads, t).n >= 0;
    Moved(s.threads, t, Reading);
    assert Waiters(s.threads) - {t} == Waiters(s.threads) && Writers(s.threads) - {t} == Writers(s.threads);
  }

  lemma LeaveKeepsInv(s: State, t: nat)
    requires Inv(s) && PcOf(s.threads, t) == Reading
    ensures Inv(Goto(s.(lockNum := s.lockNum - 1), t, Idle))
  {
    Moved(s.threads, t, Idle);
    assert Waiters(s.threads) - {t} == Waiters(s.threads) && Writers(s.threads) - {t} == Writers(s.threads);
  }

  lemma WaitKeepsInv(s: State, t: nat)
    requires Inv(s) && PcOf(s.threads, t) == Idle
    ensures Inv(Goto(s.(waitNum := s.waitNum + 1), t, WriteWaiting))
  {
    SameSets(s.threads, t, WriteWaiting);
    assert Waiters(s.threads[t := WriteWaiting]) == Waiters(s.threads) + {t} && t !in Waiters(s.threads) by {
      Moved(s.threads, t, WriteWaiting);
    }
  }

  lemma WinKeepsInv(s: State, t: nat)
    requires Inv(s) && PcOf(s.threads, t) == WriteWaiting && s.lockNum == RW_LOCK_FREE
    ensures Inv(Goto(s.(lockNum := WRITE_EXCLUSIVE), t, WriteWon))
  {
    Moved(s.threads, t, WriteWon);
    assert Waiters(s.threads) + {t} == Waiters(s.threads);
  }

  lemma SettleKeepsInv(s: State, t: nat)
    requires Inv(s) && PcOf(s.threads, t) == WriteWon
    ensures Inv(Goto(s.(waitNum := s.waitNum - 1), t, Writing))
  {
    Moved(s.threads, t, Writing);
    assert Writers(s.threads) + {t} == Writers(s.threads);
  }

  lemma WriteUnlockKeepsInv(s: State, t: nat)
    requires Inv(s) && PcOf(s.threads, t) == Writing
    ensures Inv(Goto(s.(lockNum := s.lockNum + 1), t, Idle))
  {
    Moved(s.threads, t, Idle);
    Singleton(Writers(s.threads), t);
  }

  lemma StepKeepsInv(s: State, a: Action)
    requires Inv(s)
    ensures Inv(Step(s, a))
  {
    var t := a.t;
    assert PcOf(s.threads, t).ReadPassed? ==> PcOf(s.threads, t).n >= 0;
    match PcOf(s.threads, t)
    case Idle => if a.write { WaitKeepsInv(s, t); } else { MoveKeepsInv(s, t, ReadHave(s.lockNum)); }
    case ReadHave(n) => MoveKeepsInv(s, t, PcOf(Step(s, a).threads, t));
    case ReadReload => MoveKeepsInv(s, t, ReadHave(s.lockNum));
    case ReadPassed(n) => if Acquires(s, a) { EnterKeepsInv(s, t); } else { MoveKeepsInv(s, t, ReadHave(s.lockNum)); }
    case Reading => LeaveKeepsInv(s, t);
    case WriteWaiting => if s.lockNum == RW_LOCK_FREE && !a.weak { WinKeepsInv(s, t); }
    case WriteWon => SettleKeepsInv(s, t);
    case Writing => WriteUnlockKeepsInv(s, t);
  }

  lemma {:induction false} RunInv(writeFirst: bool, schedule: seq<Action>)
    ensures Inv(Execute(writeFirst, schedule))
  {
    if schedule != [] {
      RunInv(writeFirst, schedule[..|schedule| - 1]);
      StepKeepsInv(Execute(writeFirst, schedule[..|schedule| - 1]), schedule[|schedule| - 1]);
    }
  }

  /** Exclusion and exact counting in every run and in both modes: lock_num_ is -1 exactly
      while one writer and no reader is inside, and counts the readers inside otherwise; the
      wait count counts the writers between its increment and its decrement. */
  lemma ExclusionOverRuns(writeFirst: bool, schedule: seq<Action>)
    ensures var s := Execute(writeFirst, schedule);
      var (readers, writers) := (Readers(s.threads), Writers(s.threads));
      && (s.lockNum == WRITE_EXCLUSIVE <==> |writers| == 1 && readers == {})
      && (s.lockNum != WRITE_EXCLUSIVE ==> s.lockNum == |readers| && writers == {})
      && s.waitNum == |Waiters(s.threads)|
  {
    RunInv(writeFirst, schedule);
  }

  // ---------------------------------------------------------------- bounded bypass

  /** The readers that acquire the lock in the window, in order. */
  function Bypasses(s: State, window: seq<Action>): seq<nat>
    decreases |window|
  {
    if window == [] then []
    else (if Acquires(s, window[0]) then [window[0].t] else []) + Bypasses(Step(s, window[0]), window[1..])
  }

  /** A writer is waiting before every step of the window. */
  predicate WriterWaits(s: State, window: seq<Action>)
    decreases |window|
  {
    window == [] || (s.waitNum > 0 && WriterWaits(Step(s, window[0]), window[1..]))
  }

  /** While a writer waits nobody newly passes the condition, and an acquirer had passed it. */
  lemma StepShrinksPassed(s: State, a: Action)
    requires s.writeFirst && s.waitNum > 0
    ensures Step(s, a).writeFirst
    ensures Passed(Step(s, a).threads) <= Passed(s.threads)
    ensures Acquires(s, a) ==> a.t in Passed(s.threads) && a.t !in Passed(Step(s, a).threads)
  {
  }

  /** Bounded bypass in write-first mode: while the wait count stays positive, every reader
      acquires at most once, and only if it had passed the condition before. */
  lemma {:induction false} BoundedBypass(s: State, window: seq<Action>)
    requires s.writeFirst && WriterWaits(s, window)
    ensures var b := Bypasses(s, window);
      && (forall i | 0 <= i < |b| :: b[i] in Passed(s.threads))
      && (forall i, j | 0 <= i < j < |b| :: b[i] != b[j])
      && |b| <= |Passed(s.threads)|
    decreases |window|
  {
    if window != [] {
      var a, s' := window[0], Step(s, window[0]);
      StepShrinksPassed(s, a);
      BoundedBypass(s', window[1..]);
      var rest := Bypasses(s', window[1..]);
      if Acquires(s, a) {
        SubsetCard(Passed(s'.threads), Passed(s.threads) - {a.t});
        assert Bypasses(s, window) == [a.t] + rest;
      } else {
        SubsetCard(Passed(s'.threads), Passed(s.threads));
        assert Bypasses(s, window) == rest;
      }
    }
  }

  lemma {:induction false} SubsetCard(x: set<nat>, y: set<nat>)
    requires x <= y
    ensures |x| <= |y|
  {
    if x != {} {
      var e :| e in x;
      SubsetCard(x - {e}, y - {e});
    }
  }
}
