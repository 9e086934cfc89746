/**
 ReentrantRWLock used by one thread alone, through any nesting of guards: which nestings can
 be completed at all, and what state they leave.
 */
module LockNesting {
  import opened Common
  import opened ReentrantRwLock

  /** What one thread does with guards: a section with what happens inside it, and then what
      happens after it. */
  datatype Nest = Done | Section(kind: Guard, inside: Nest, after: Nest)

  /** Calls in the order in which they are made. */
  datatype Calls = NoCalls | Then(before: Calls, last: Call)

  /** `calls`, and then the calls of a nesting. */
  function Program(p: Nest, calls: Calls): Calls {
    match p
    case Done => calls
    case Section(kind, inside, after) =>
      Program(after, Then(Program(inside, Then(calls, Opening(kind))), Close))
  }

  function Opening(kind: Guard): Call {
    if kind == R then OpenRead else OpenWrite
  }

  predicate OnlyReads(p: Nest) {
    p.Done? || (p.kind == R && OnlyReads(p.inside) && OnlyReads(p.after))
  }

  /** No outermost read section has a write inside. */
  predicate NoUpgrade(p: Nest) {
    p.Done? || ((p.kind == W || OnlyReads(p.inside)) && NoUpgrade(p.after))
  }

  predicate Solo(schedule: seq<Action>, t: nat) {
    forall i | 0 <= i < |schedule| :: schedule[i].t == t
  }

  /** The calls that the steps of a schedule begin. */
  function Begun(writeFirst: bool, schedule: seq<Action>): Calls {
    if schedule == [] then NoCalls
    else
      var before, a := schedule[..|schedule| - 1], schedule[|schedule| - 1];
      WithCall(Begun(writeFirst, before), Execute(writeFirst, before), a)
  }

  function WithCall(calls: Calls, s: State, a: Action): Calls {
    if At(s.threads, a.t).pc == Ready then Then(calls, a.call) else calls
  }

  /** Thread `t` alone has begun these calls ... */
  predicate Started(writeFirst: bool, schedule: seq<Action>, t: nat, calls: Calls) {
    Solo(schedule, t) && Begun(writeFirst, schedule) == calls
  }

  /** ... and they have all returned. */
  predicate Made(writeFirst: bool, schedule: seq<Action>, t: nat, calls: Calls) {
    Started(writeFirst, schedule, t, calls) && At(Execute(writeFirst, schedule).threads, t).pc == Ready
  }

  /** The schedule has thread `t` alone make the calls of `p`, and all of them have returned. */
  predicate Completes(writeFirst: bool, t: nat, p: Nest, schedule: seq<Action>) {
    Made(writeFirst, schedule, t, Program(p, NoCalls))
  }

  // ---------------------------------------------------------------- calls one after another

  /** The lock as its only user sees it between calls. */
  datatype Held = Held(n: int, mine: bool, stack: seq<Guard>)

  const FREE := Held(0, false, [])

  /** The effect of one call; none if it never returns. */
  function Do(h: Held, call: Call): Option<Held> {
    match call
    case OpenRead =>
      Some(if h.mine then h.(stack := h.stack + [R]) else h.(n := h.n + 1, stack := h.stack + [R]))
    case OpenWrite =>
      if h.mine then Some(h.(n := h.n - 1, stack := h.stack + [W]))
      else if h.n == 0 then Some(Held(-1, true, h.stack + [W]))
      else None
    case Close =>
      if h.stack == [] then Some(h)
      else if Top(h.stack) == W then Some(Held(h.n + 1, h.mine && h.n != -1, Pop(h.stack)))
      else Some(Held(if h.mine then h.n else h.n - 1, h.mine, Pop(h.stack)))
  }

  function DoAll(calls: Calls): Option<Held> {
    match calls
    case NoCalls => Some(FREE)
    case Then(before, last) =>
      if DoAll(before).None? then None else Do(DoAll(before).value, last)
  }

  /** A thread on its own either reads only, or has a write guard outermost and is the owner. */
  predicate Sane(h: Held) {
    if h.mine then h.stack != [] && h.stack[0] == W && h.n + WriteDepth(h.stack) == 0
    else W !in h.stack && h.n == |h.stack|
  }

  lemma DoKeepsSane(h: Held, call: Call)
    requires Sane(h)
    ensures Do(h, call).Some? ==> Sane(Do(h, call).value)
  {
    DepthAfterPush(h.stack, R);
    DepthAfterPush(h.stack, W);
    DepthPositive(h.stack);
    if h.stack != [] {
      DepthPositive(Pop(h.stack));
    }
  }

  lemma {:induction false} AllSane(calls: Calls)
    ensures DoAll(calls).Some? ==> Sane(DoAll(calls).value)
  {
    if calls.Then? {
      AllSane(calls.before);
      if DoAll(calls.before).Some? {
        DoKeepsSane(DoAll(calls.before).value, calls.last);
      }
    }
  }

  // ---------------------------------------------------------------- the machine follows them

  /** Between calls the lock is as `h` says. */
  predicate Mirrors(h: Held, s: State, t: nat, th: Thread) {
    s.lockNum == h.n && s.owner == (if h.mine then Is(t) else NoOne) && th.stack == h.stack
  }

  /** A call that began when the lock was as `h` says, and has not returned. */
  predicate Pending(h: Held, call: Call, s: State, t: nat, th: Thread) {
    match th.pc
    case ReadAsk => call == OpenRead && !h.mine && Mirrors(h, s, t, th) && s.waitNum == 0
    case ReadHave(n) => call == OpenRead && !h.mine && Mirrors(h, s, t, th) && s.waitNum == 0 && n == h.n
    case ReadPassed(n) => call == OpenRead && !h.mine && Mirrors(h, s, t, th) && s.waitNum == 0 && n == h.n
    case ReadLeave =>
      call == Close && !h.mine && Mirrors(h, s, t, th) && s.waitNum == 0 && h.stack != [] && Top(h.stack) == R
    case WriteNest => call == OpenWrite && h.mine && Mirrors(h, s, t, th) && s.waitNum == 0
    case WriteAsk => call == OpenWrite && !h.mine && Mirrors(h, s, t, th) && s.waitNum == 0
    case WriteWaiting => call == OpenWrite && !h.mine && Mirrors(h, s, t, th) && s.waitNum == 1
    case WriteWon =>
      call == OpenWrite && h == FREE && s.lockNum == -1 && s.owner == NoOne && th.stack == [W] && s.waitNum == 1
    case WriteOwned =>
      call == OpenWrite && h == FREE && s.lockNum == -1 && s.owner == Is(t) && th.stack == [W] && s.waitNum == 1
    case Clearing =>
      && call == Close && h.mine && h.n == -1 && h.stack != [] && Top(h.stack) == W
      && s.lockNum == 0 && s.owner == Is(t) && th.stack == Pop(h.stack) && s.waitNum == 0
    case Ready => false
  }

  /** Thread `t` has returned from a call and the lock is as `result` says. */
  predicate Returned(result: Option<Held>, s: State, t: nat) {
    && At(s.threads, t).pc == Ready && s.waitNum == 0
    && result.Some? && Mirrors(result.value, s, t, At(s.threads, t))
  }

  /** State `s` is what thread `t`, alone, reaches by beginning `calls`. */
  predicate Tracks(s: State, t: nat, calls: Calls) {
    || Returned(DoAll(calls), s, t)
    || (&& calls.Then? && DoAll(calls.before).Some?
        && Pending(DoAll(calls.before).value, calls.last, s, t, At(s.threads, t)))
  }

  /** A call begins, and may return at once. */
  lemma BeginTracks(s: State, a: Action, h: Held)
    requires Sane(h) && Returned(Some(h), s, a.t)
    ensures var s' := Step(s, a);
      Returned(Do(h, a.call), s', a.t) || Pending(h, a.call, s', a.t, At(s'.threads, a.t))
  {
    DepthPositive(h.stack);
    if h.stack != [] && h.mine {
      DepthPositive(Pop(h.stack));
    }
  }

  /** A call goes on, and may return. */
  lemma PendingTracks(s: State, a: Action, h: Held, call: Call)
    requires Sane(h) && Pending(h, call, s, a.t, At(s.threads, a.t))
    ensures var s' := Step(s, a);
      Returned(Do(h, call), s', a.t) || Pending(h, call, s', a.t, At(s'.threads, a.t))
  {
  }

  lemma StepTracks(s: State, a: Action, calls: Calls)
    requires Tracks(s, a.t, calls)
    ensures Tracks(Step(s, a), a.t, WithCall(calls, s, a))
  {
    if Returned(DoAll(calls), s, a.t) {
      AllSane(calls);
      BeginTracks(s, a, DoAll(calls).value);
    } else {
      AllSane(calls.before);
      PendingTracks(s, a, DoAll(calls.before).value, calls.last);
    }
  }

  /** Under every schedule of one thread alone, the lock is where its calls made one after
      another put it. */
  lemma {:induction false} SoloTracks(writeFirst: bool, schedule: seq<Action>, t: nat)
    requires Solo(schedule, t)
    ensures Tracks(Execute(writeFirst, schedule), t, Begun(writeFirst, schedule))
  {
    if schedule != [] {
      var before, a := schedule[..|schedule| - 1], schedule[|schedule| - 1];
      SoloTracks(writeFirst, before, t);
      StepTracks(Execute(writeFirst, before), a, Begun(writeFirst, before));
    }
  }

  // ---------------------------------------------------------------- what a nesting comes to

  lemma {:induction false} NoneStays(p: Nest, calls: Calls)
    requires DoAll(calls).None?
    ensures DoAll(Program(p, calls)).None?
  {
    if p.Section? {
      NoneStays(p.inside, Then(calls, Opening(p.kind)));
      NoneStays(p.after, Then(Program(p.inside, Then(calls, Opening(p.kind))), Close));
    }
  }

  /** Closing what was opened last. */
  lemma Closed(h: Held, kind: Guard)
    requires Sane(h) && Do(h, Opening(kind)).Some?
    ensures Do(Do(h, Opening(kind)).value, Close) == Some(h)
  {
    DepthAfterPush(h.stack, kind);
    DepthPositive(h.stack);
  }

  /** Under an outermost write everything is granted and undone. */
  lemma {:induction false} OwnerRestores(p: Nest, calls: Calls)
    requires DoAll(calls).Some? && DoAll(calls).value.mine
    ensures DoAll(Program(p, calls)) == DoAll(calls)
  {
    if p.Section? {
      var open := Then(calls, Opening(p.kind));
      AllSane(calls);
      OwnerRestores(p.inside, open);
      Closed(DoAll(calls).value, p.kind);
      OwnerRestores(p.after, Then(Program(p.inside, open), Close));
    }
  }

  /** Under an outermost read reads are granted and undone, and a write is never granted. */
  lemma {:induction false} ReaderRestores(p: Nest, calls: Calls)
    requires DoAll(calls).Some? && !DoAll(calls).value.mine && DoAll(calls).value.stack != []
    ensures DoAll(Program(p, calls)) == if OnlyReads(p) then DoAll(calls) else None
  {
    if p.Section? {
      var open := Then(calls, Opening(p.kind));
      AllSane(calls);
      if p.kind == W {
        NoneStays(p.inside, open);
        NoneStays(p.after, Then(Program(p.inside, open), Close));
      } else {
        ReaderRestores(p.inside, open);
        Closed(DoAll(calls).value, R);
        if OnlyReads(p.inside) {
          ReaderRestores(p.after, Then(Program(p.inside, open), Close));
        } else {
          NoneStays(p.after, Then(Program(p.inside, open), Close));
        }
      }
    }
  }

  lemma {:induction false} NestRestores(p: Nest, calls: Calls)
    requires DoAll(calls) == Some(FREE)
    ensures DoAll(Program(p, calls)) == if NoUpgrade(p) then Some(FREE) else None
  {
    if p.Section? {
      var open := Then(calls, Opening(p.kind));
      if p.kind == W {
        OwnerRestores(p.inside, open);
      } else {
        ReaderRestores(p.inside, open);
      }
      Closed(FREE, p.kind);
      if p.kind == W || OnlyReads(p.inside) {
        NestRestores(p.after, Then(Program(p.inside, open), Close));
      } else {
        NoneStays(p.after, Then(Program(p.inside, open), Close));
      }
    }
  }

  // ---------------------------------------------------------------- every call that can return does

  function Rank(pc: Pc): nat {
    match pc
    case Ready => 0
    case ReadPassed(_) => 1
    case ReadHave(_) => 2
    case ReadAsk => 3
    case ReadLeave => 1
    case WriteNest => 1
    case WriteOwned => 1
    case WriteWon => 2
    case WriteWaiting => 3
    case WriteAsk => 4
    case Clearing => 1
  }

  /** A step that is not a spurious failure brings a call that can return closer to its end. */
  lemma Progress(s: State, a: Action, h: Held, call: Call)
    requires Sane(h) && Pending(h, call, s, a.t, At(s.threads, a.t)) && Do(h, call).Some? && !a.weak
    ensures Rank(At(Step(s, a).threads, a.t).pc) < Rank(At(s.threads, a.t).pc)
  {
  }

  lemma TracksProgress(s: State, a: Action, calls: Calls)
    requires Tracks(s, a.t, calls) && DoAll(calls).Some? && !a.weak && At(s.threads, a.t).pc != Ready
    ensures Rank(At(Step(s, a).threads, a.t).pc) < Rank(At(s.threads, a.t).pc)
  {
    AllSane(calls.before);
    Progress(s, a, DoAll(calls.before).value, calls.last);
  }

  lemma OneMore(writeFirst: bool, schedule: seq<Action>, a: Action)
    ensures Execute(writeFirst, schedule + [a]) == Step(Execute(writeFirst, schedule), a)
    ensures Begun(writeFirst, schedule + [a]) ==
            WithCall(Begun(writeFirst, schedule), Execute(writeFirst, schedule), a)
  {
    assert (schedule + [a])[..|schedule|] == schedule;
  }

  /** The call in progress is brought to its end. */
  lemma {:induction false} FinishCall(writeFirst: bool, schedule: seq<Action>, t: nat, calls: Calls)
    returns (longer: seq<Action>)
    requires Started(writeFirst, schedule, t, calls) && DoAll(calls).Some?
    ensures Made(writeFirst, longer, t, calls)
    decreases Rank(At(Execute(writeFirst, schedule).threads, t).pc)
  {
    var s, a := Execute(writeFirst, schedule), Action(t, Close, false);
    longer := schedule;
    if At(s.threads, t).pc != Ready {
      SoloTracks(writeFirst, schedule, t);
      TracksProgress(s, a, calls);
      OneMore(writeFirst, schedule, a);
      longer := FinishCall(writeFirst, schedule + [a], t, calls);
    }
  }

  lemma CallBegun(writeFirst: bool, schedule: seq<Action>, a: Action, calls: Calls)
    requires Made(writeFirst, schedule, a.t, calls)
    ensures Started(writeFirst, schedule + [a], a.t, Then(calls, a.call))
  {
    OneMore(writeFirst, schedule, a);
  }

  /** Calls that can all return are made one after another ... */
  lemma {:induction false} MakeCalls(writeFirst: bool, t: nat, calls: Calls) returns (schedule: seq<Action>)
    requires DoAll(calls).Some?
    ensures Made(writeFirst, schedule, t, calls)
    decreases calls, 1
  {
    match calls
    case NoCalls => schedule := [];
    case Then(before, last) =>
      schedule := BeginLast(writeFirst, t, before, last);
      schedule := FinishCall(writeFirst, schedule, t, calls);
  }

  /** ... and then one more is begun. */
  lemma {:induction false} BeginLast(
    writeFirst: bool, t: nat, before: Calls, last: Call) returns (schedule: seq<Action>)
    requires DoAll(before).Some?
    ensures Started(writeFirst, schedule, t, Then(before, last))
    decreases before, 2
  {
    var made := MakeCalls(writeFirst, t, before);
    CallBegun(writeFirst, made, Action(t, last, false), before);
    schedule := made + [Action(t, last, false)];
  }

  // ---------------------------------------------------------------- nestings

  /** Nobody holds the lock, nobody waits for it, and thread `t` has no guard open. */
  predicate Free(s: State, t: nat) {
    s.lockNum == 0 && s.waitNum == 0 && s.owner == NoOne && At(s.threads, t) == Thread([], Ready)
  }

  /** Whatever schedule completes a nesting, it leaves the lock as new. */
  lemma CompletedIsFree(writeFirst: bool, t: nat, p: Nest, schedule: seq<Action>)
    requires Completes(writeFirst, t, p, schedule)
    ensures NoUpgrade(p) && Free(Execute(writeFirst, schedule), t)
  {
    SoloTracks(writeFirst, schedule, t);
    NestRestores(p, NoCalls);
  }

  /** A nesting can be completed by a thread on its own if and only if it asks for no write
      inside an outermost read; `CompletedIsFree` tells what it leaves. */
  lemma NestingRestores(writeFirst: bool, t: nat, p: Nest)
    ensures (exists schedule :: Completes(writeFirst, t, p, schedule)) <==> NoUpgrade(p)
  {
    if schedule :| Completes(writeFirst, t, p, schedule) {
      CompletedIsFree(writeFirst, t, p, schedule);
    } else if NoUpgrade(p) {
      NestRestores(p, NoCalls);
      var schedule := MakeCalls(writeFirst, t, Program(p, NoCalls));
      assert Completes(writeFirst, t, p, schedule);
    }
  }

  /** A thread whose calls so far cannot all return sits in WriteLock, behind its own read. */
  predicate BehindOwnRead(s: State, t: nat) {
    && (At(s.threads, t).pc == WriteAsk || At(s.threads, t).pc == WriteWaiting)
    && s.lockNum > 0 && At(s.threads, t).stack != []
  }

  lemma BlockedBehindOwnRead(s: State, t: nat, calls: Calls)
    requires Tracks(s, t, calls) && DoAll(calls).None?
    ensures BehindOwnRead(s, t)
  {
    AllSane(calls.before);
  }

  predicate IsPrefix(x: Calls, y: Calls) {
    x == y || (y.Then? && IsPrefix(x, y.before))
  }

  lemma {:induction false} FirstBlocked(calls: Calls) returns (prefix: Calls)
    requires DoAll(calls).None?
    ensures IsPrefix(prefix, calls) && prefix.Then? && DoAll(prefix).None? && DoAll(prefix.before).Some?
  {
    prefix := calls;
    if DoAll(calls.before).None? {
      prefix := FirstBlocked(calls.before);
    }
  }

  /** A nesting that cannot be completed is carried out up to that point. */
  lemma UpgradeIsReached(writeFirst: bool, t: nat, p: Nest) returns (schedule: seq<Action>)
    requires !NoUpgrade(p)
    ensures Solo(schedule, t) && IsPrefix(Begun(writeFirst, schedule), Program(p, NoCalls))
    ensures BehindOwnRead(Execute(writeFirst, schedule), t)
  {
    NestRestores(p, NoCalls);
    var calls := FirstBlocked(Program(p, NoCalls));
    schedule := BeginLast(writeFirst, t, calls.before, calls.last);
    SoloTracks(writeFirst, schedule, t);
    BlockedBehindOwnRead(Execute(writeFirst, schedule), t, calls);
  }

  lemma BehindOwnReadStep(s: State, a: Action, t: nat)
    requires Inv(s.lockNum, s.owner, s.threads) && BehindOwnRead(s, t)
    ensures BehindOwnRead(Step(s, a), t) && At(Step(s, a).threads, t).stack == At(s.threads, t).stack
    ensures At(s.threads, t).pc == WriteWaiting ==> At(Step(s, a).threads, t).pc == WriteWaiting
  {
    var s' := Step(s, a);
    StepKeepsInv(s, a);
    StepMovesOne(s, a);
    assert W !in At(s.threads, t).stack;
    assert At(s'.threads, t).stack == At(s.threads, t).stack;
    assert s'.lockNum < 0 ==> Deep(s'.lockNum, s'.owner, t, At(s'.threads, t));
    GuardsCounted(s'.threads, t);
  }

  /** The upgrade blocks for ever: once a thread has asked to write inside a read of its own, no
      continuation by any threads lets it past WriteLock. */
  lemma {:induction false} UpgradeBlocksForGood(s: State, t: nat, more: seq<Action>)
    requires Inv(s.lockNum, s.owner, s.threads) && BehindOwnRead(s, t)
    ensures BehindOwnRead(After(s, more), t) && At(After(s, more).threads, t).stack == At(s.threads, t).stack
    ensures At(s.threads, t).pc == WriteWaiting ==> At(After(s, more).threads, t).pc == WriteWaiting
    decreases |more|
  {
    if more != [] {
      BehindOwnReadStep(s, more[0], t);
      StepKeepsInv(s, more[0]);
      UpgradeBlocksForGood(Step(s, more[0]), t, more[1..]);
    }
  }

  // ---------------------------------------------------------------- and shuts readers out

  /** Threads between the increment and the decrement of the wait count. */
  function Waiters(ts: map<nat, Thread>): set<nat> {
    set t | t in ts && IsWaiter(ts[t].pc)
  }

  predicate IsWaiter(pc: Pc) {
    pc == WriteWaiting || pc == WriteWon || pc == WriteOwned
  }

  /** Readers that have passed the loop condition and are about to CAS. */
  function Passed(ts: map<nat, Thread>): set<nat> {
    set t | t in ts && ts[t].pc.ReadPassed?
  }

  lemma WaitersMove(ts: map<nat, Thread>, t: nat, th: Thread)
    ensures Waiters(ts[t := th]) == if IsWaiter(th.pc) then Waiters(ts) + {t} else Waiters(ts) - {t}
    ensures t in Waiters(ts) <==> IsWaiter(At(ts, t).pc)
  {
  }

  lemma WaitCountStep(s: State, a: Action)
    requires s.waitNum == |Waiters(s.threads)|
    ensures Step(s, a).waitNum == |Waiters(Step(s, a).threads)|
  {
    var s', th' := Step(s, a), At(Step(s, a).threads, a.t);
    WaitersMove(s.threads, a.t, th');
    WaitNumStep(s, a);
  }

  lemma WaitNumStep(s: State, a: Action)
    ensures var (s', pc) := (Step(s, a), At(s.threads, a.t).pc);
      var pc' := At(s'.threads, a.t).pc;
      && (s'.threads == s.threads[a.t := At(s'.threads, a.t)] || s' == s)
      && s'.waitNum == s.waitNum + (if IsWaiter(pc') then 1 else 0) - (if IsWaiter(pc) then 1 else 0)
  {
  }

  lemma {:induction false} WaitCountOverRuns(writeFirst: bool, schedule: seq<Action>)
    ensures var s := Execute(writeFirst, schedule); s.waitNum == |Waiters(s.threads)| && s.writeFirst == writeFirst
  {
    if schedule != [] {
      WaitCountOverRuns(writeFirst, schedule[..|schedule| - 1]);
      WaitCountStep(Execute(writeFirst, schedule[..|schedule| - 1]), schedule[|schedule| - 1]);
    }
  }

  lemma PassedShrinks(s: State, a: Action)
    requires s.writeFirst && s.waitNum > 0
    ensures Step(s, a).writeFirst && Passed(Step(s, a).threads) <= Passed(s.threads)
  {
  }

  /** In write-first mode no reader passes its check again, in any continuation by any threads:
      only those past it already can still get the lock. */
  lemma {:induction false} UpgradeShutsReadersOut(s: State, t: nat, more: seq<Action>)
    requires Inv(s.lockNum, s.owner, s.threads) && BehindOwnRead(s, t) && At(s.threads, t).pc == WriteWaiting
    requires s.writeFirst && s.waitNum == |Waiters(s.threads)|
    ensures Passed(After(s, more).threads) <= Passed(s.threads) && After(s, more).waitNum > 0
    decreases |more|
  {
    WaitersMove(s.threads, t, At(s.threads, t));
    assert t in Waiters(s.threads);
    if more != [] {
      PassedShrinks(s, more[0]);
      WaitCountStep(s, more[0]);
      BehindOwnReadStep(s, more[0], t);
      StepKeepsInv(s, more[0]);
      UpgradeShutsReadersOut(Step(s, more[0]), t, more[1..]);
    }
  }
}
