/**
 What a caller of AcquireBlockToWrite or AcquireBlockToRead gets: a block of the segment, the one
 that was asked for, and, if it is left alone, in a bounded number of steps.
 */
module BlockUse {
  import opened Common
  import opened ShmBlocks
  import opened ShmLayout
  import opened Tickets

  // ---------------------------------------------------------------- the block exists

  /** The block that a thread is busy with, if any. */
  function BlockIn(pc: Pc): Option<nat> {
    match pc
    case Idle => None
    case Scan => None
    case TryWrite(b) => Some(b)
    case AskWrite(b) => Some(b)
    case RetryWrite(b) => Some(b)
    case Writing(b, _) => Some(b)
    case UnlockWrite(b, _) => Some(b)
    case ReadLoad(b, _, _) => Some(b)
    case ReadCas(b, _, _, _) => Some(b)
    case ReadFailed(b, _) => Some(b)
    case Insert(b, _, _) => Some(b)
    case InsertCas(b, _, _) => Some(b)
    case Reading(b, _) => Some(b)
    case UnlockRead(b) => Some(b)
    case Stranded(b, _) => Some(b)
  }

  predicate InSegment(pc: Pc, blockNum: nat) {
    BlockIn(pc).Some? ==> BlockIn(pc).value < blockNum
  }

  ghost predicate WithinSegment(s: State) {
    && (forall t: nat :: InSegment(PcOf(s.threads, t), s.blockNum))
    && (forall b | b in s.blocks :: b < s.blockNum)
  }

  lemma StepWithinSegment(s: State, a: Action)
    requires s.blockNum > 0 && WithinSegment(s)
    ensures WithinSegment(Step(s, a))
  {
    MoverWithin(s, a);
    var s' := Step(s, a);
    forall t: nat ensures InSegment(PcOf(s'.threads, t), s'.blockNum) {
      assert InSegment(PcOf(s.threads, t), s.blockNum);
      if t != a.t {
        StepMovesOne(s, a, t);
      }
    }
  }

  /** The thread that moves stays within the segment and touches no block beyond it. */
  ghost predicate MovesWithin(s: State, s': State, t: nat) {
    && InSegment(PcOf(s'.threads, t), s.blockNum) && s'.blockNum == s.blockNum
    && (forall b | b in s'.blocks :: b in s.blocks || b < s.blockNum)
  }

  lemma MoverWithin(s: State, a: Action)
    requires s.blockNum > 0 && InSegment(PcOf(s.threads, a.t), s.blockNum)
    ensures MovesWithin(s, Step(s, a), a.t)
  {
    if AtLock(PcOf(s.threads, a.t)) {
      LockerWithin(s, a);
    } else {
      OtherWithin(s, a);
    }
  }

  lemma LockerWithin(s: State, a: Action)
    requires s.blockNum > 0 && InSegment(PcOf(s.threads, a.t), s.blockNum) && AtLock(PcOf(s.threads, a.t))
    ensures MovesWithin(s, Step(s, a), a.t)
  {
  }

  lemma OtherWithin(s: State, a: Action)
    requires s.blockNum > 0 && InSegment(PcOf(s.threads, a.t), s.blockNum) && !AtLock(PcOf(s.threads, a.t))
    ensures MovesWithin(s, Step(s, a), a.t)
  {
  }

  /** In every run every block that a thread tries, locks, reads or writes is one of the segment,
      and no other is ever touched. */
  lemma {:induction false} BlocksExistOverRuns(blockNum: nat, schedule: seq<Action>)
    requires blockNum > 0
    ensures WithinSegment(Execute(blockNum, schedule))
  {
    if schedule != [] {
      BlocksExistOverRuns(blockNum, schedule[..|schedule| - 1]);
      StepWithinSegment(Execute(blockNum, schedule[..|schedule| - 1]), schedule[|schedule| - 1]);
    }
  }

  // ---------------------------------------------------------------- the block that was asked for

  datatype Ask = ToWrite | ToRead(b: nat)

  predicate WritesAsked(pc: Pc) {
    match pc
    case Insert(_, write, _) => write
    case InsertCas(_, write, _) => write
    case Stranded(_, write) => write
    case _ => pc.Scan? || pc.TryWrite? || pc.AskWrite? || pc.RetryWrite? || pc.Writing? || pc.UnlockWrite?
  }

  /** The thread is doing what its call asked for, with the block it asked for. */
  predicate Serves(ask: Ask, pc: Pc) {
    match ask
    case ToWrite => WritesAsked(pc)
    case ToRead(b) => !WritesAsked(pc) && BlockIn(pc) == Some(b)
  }

  /** What each thread's latest call asked for.  A request to read a block that does not exist is
      turned down at once. */
  function Asks(asked: map<nat, Ask>, s: State, a: Action): map<nat, Ask> {
    if PcOf(s.threads, a.t) != Idle then asked
    else if a.write then asked[a.t := ToWrite]
    else if a.block < s.blockNum then asked[a.t := ToRead(a.block)]
    else asked
  }

  function Asked(blockNum: nat, schedule: seq<Action>): map<nat, Ask>
    requires blockNum > 0
  {
    if schedule == [] then map[]
    else
      var before := schedule[..|schedule| - 1];
      Asks(Asked(blockNum, before), Execute(blockNum, before), schedule[|schedule| - 1])
  }

  predicate Served(asked: map<nat, Ask>, s: State, t: nat) {
    PcOf(s.threads, t) != Idle ==> t in asked && Serves(asked[t], PcOf(s.threads, t))
  }

  lemma MoverServed(asked: map<nat, Ask>, s: State, a: Action)
    requires s.blockNum > 0 && Served(asked, s, a.t)
    ensures Served(Asks(asked, s, a), Step(s, a), a.t)
  {
    if AtLock(PcOf(s.threads, a.t)) {
      LockerServed(asked, s, a);
    } else {
      OtherServed(asked, s, a);
    }
  }

  lemma LockerServed(asked: map<nat, Ask>, s: State, a: Action)
    requires s.blockNum > 0 && Served(asked, s, a.t) && AtLock(PcOf(s.threads, a.t))
    ensures Served(Asks(asked, s, a), Step(s, a), a.t)
  {
  }

  lemma OtherServed(asked: map<nat, Ask>, s: State, a: Action)
    requires s.blockNum > 0 && Served(asked, s, a.t) && !AtLock(PcOf(s.threads, a.t))
    ensures Served(Asks(asked, s, a), Step(s, a), a.t)
  {
  }

  /** In every run a thread that asked to read block `b` is busy with `b` and nothing else, and
      only as a reader; one that asked for a block to write, only as a writer. */
  lemma {:induction false} CallersServedOverRuns(blockNum: nat, schedule: seq<Action>, t: nat)
    requires blockNum > 0
    ensures Served(Asked(blockNum, schedule), Execute(blockNum, schedule), t)
  {
    if schedule != [] {
      var before, a := schedule[..|schedule| - 1], schedule[|schedule| - 1];
      var s := Execute(blockNum, before);
      CallersServedOverRuns(blockNum, before, t);
      CallersServedOverRuns(blockNum, before, a.t);
      if t == a.t {
        MoverServed(Asked(blockNum, before), s, a);
      } else {
        StepMovesOne(s, a, t);
      }
    }
  }

  /** A caller looking for a block to write does not give up: it returns only after it has had
      one, or is refused with the lock held. */
  lemma WriterKeepsTrying(s: State, a: Action)
    requires s.blockNum > 0 && PcOf(s.threads, a.t) != Idle && PcOf(Step(s, a).threads, a.t) == Idle
    requires WritesAsked(PcOf(s.threads, a.t))
    ensures PcOf(s.threads, a.t).Writing? || PcOf(s.threads, a.t).UnlockWrite?
  {
  }

  // ---------------------------------------------------------------- the words that were asked for

  /** What a caller has done with the block it has: the words it stored, and where it has read. */
  datatype Use = Use(stored: map<nat, Word>, looked: set<nat>)

  function UseOf(uses: map<nat, Use>, t: nat): Use {
    if t in uses then uses[t] else Use(map[], {})
  }

  /** A store and a read count as the caller asked for them; a new block is a new use. */
  function Counts(uses: map<nat, Use>, s: State, a: Action): map<nat, Use> {
    var (pc, u) := (PcOf(s.threads, a.t), UseOf(uses, a.t));
    if pc.Insert? || pc.InsertCas? then uses[a.t := Use(map[], {})]
    else if pc.Writing? && !a.release then uses[a.t := u.(stored := u.stored[a.pos := a.word])]
    else if pc.Reading? && !a.release then uses[a.t := u.(looked := u.looked + {a.pos})]
    else uses
  }

  function Uses(blockNum: nat, schedule: seq<Action>): map<nat, Use>
    requires blockNum > 0
  {
    if schedule == [] then map[]
    else
      var before := schedule[..|schedule| - 1];
      Counts(Uses(blockNum, before), Execute(blockNum, before), schedule[|schedule| - 1])
  }

  ghost predicate Accounts(uses: map<nat, Use>, ts: map<nat, Pc>, t: nat) {
    match PcOf(ts, t)
    case Writing(_, put) => put == UseOf(uses, t).stored
    case UnlockWrite(_, put) => put == UseOf(uses, t).stored
    case Reading(_, got) => got.Keys == UseOf(uses, t).looked
    case _ => true
  }

  lemma MoverAccounts(uses: map<nat, Use>, s: State, a: Action)
    requires s.blockNum > 0 && Accounts(uses, s.threads, a.t)
    ensures Accounts(Counts(uses, s, a), Step(s, a).threads, a.t)
  {
    if AtLock(PcOf(s.threads, a.t)) {
      LockerAccounts(uses, s, a);
    } else {
      OtherAccounts(uses, s, a);
    }
  }

  lemma LockerAccounts(uses: map<nat, Use>, s: State, a: Action)
    requires s.blockNum > 0 && Accounts(uses, s.threads, a.t) && AtLock(PcOf(s.threads, a.t))
    ensures Accounts(Counts(uses, s, a), Step(s, a).threads, a.t)
  {
  }

  lemma OtherAccounts(uses: map<nat, Use>, s: State, a: Action)
    requires s.blockNum > 0 && Accounts(uses, s.threads, a.t) && !AtLock(PcOf(s.threads, a.t))
    ensures Accounts(Counts(uses, s, a), Step(s, a).threads, a.t)
  {
  }

  /** In every run the words that the snapshot results are about (`SnapshotOverRuns`,
      `PublishedByRelease`) are the callers' own: a writer's are exactly those it asked to store
      since it got the block, a reader's those at exactly the positions it asked for. */
  lemma {:induction false} WordsAreCallersOverRuns(blockNum: nat, schedule: seq<Action>, t: nat)
    requires blockNum > 0
    ensures Accounts(Uses(blockNum, schedule), Execute(blockNum, schedule).threads, t)
  {
    if schedule != [] {
      var before, a := schedule[..|schedule| - 1], schedule[|schedule| - 1];
      var s := Execute(blockNum, before);
      WordsAreCallersOverRuns(blockNum, before, t);
      if t == a.t {
        MoverAccounts(Uses(blockNum, before), s, a);
      } else {
        StepMovesOne(s, a, t);
      }
    }
  }

  // ---------------------------------------------------------------- tickets

  /** How many tickets a schedule draws. */
  function Drawn(blockNum: nat, schedule: seq<Action>): nat
    requires blockNum > 0
  {
    if schedule == [] then 0
    else
      var before, a := schedule[..|schedule| - 1], schedule[|schedule| - 1];
      Drawn(blockNum, before) + if PcOf(Execute(blockNum, before).threads, a.t) == Scan then 1 else 0
  }

  lemma TicketStays(s: State, a: Action)
    requires s.blockNum > 0 && PcOf(s.threads, a.t) != Scan
    ensures Step(s, a).ticket == s.ticket
  {
    if AtLock(PcOf(s.threads, a.t)) {
      LockerKeepsTicket(s, a);
    } else {
      OtherKeepsTicket(s, a);
    }
  }

  lemma LockerKeepsTicket(s: State, a: Action)
    requires s.blockNum > 0 && AtLock(PcOf(s.threads, a.t))
    ensures Step(s, a).ticket == s.ticket
  {
  }

  lemma OtherKeepsTicket(s: State, a: Action)
    requires s.blockNum > 0 && !AtLock(PcOf(s.threads, a.t)) && PcOf(s.threads, a.t) != Scan
    ensures Step(s, a).ticket == s.ticket
  {
  }

  lemma NextTicket(k: nat)
    ensures (k % TICKETS + 1) % TICKETS == (k + 1) % TICKETS
  {
  }

  /** In every run the counter is the number of tickets drawn, modulo 2^32 ... */
  lemma {:induction false} TicketsCounted(blockNum: nat, schedule: seq<Action>)
    requires blockNum > 0
    ensures Execute(blockNum, schedule).ticket == Drawn(blockNum, schedule) % TICKETS
  {
    if schedule != [] {
      var before, a := schedule[..|schedule| - 1], schedule[|schedule| - 1];
      var s := Execute(blockNum, before);
      TicketsCounted(blockNum, before);
      if PcOf(s.threads, a.t) == Scan {
        NextTicket(Drawn(blockNum, before));
      } else {
        TicketStays(s, a);
      }
    }
  }

  /** ... and whoever draws the next ticket goes on to try the block it stands for. */
  lemma TicketTriesItsBlock(blockNum: nat, schedule: seq<Action>, a: Action)
    requires blockNum > 0 && PcOf(Execute(blockNum, schedule).threads, a.t) == Scan
    ensures PcOf(Step(Execute(blockNum, schedule), a).threads, a.t) ==
            TryWrite(BlockOfTicket(Drawn(blockNum, schedule), blockNum))
  {
    TicketsCounted(blockNum, schedule);
  }

  // ---------------------------------------------------------------- a caller on its own

  /** The thread of `a` takes `k` steps in a row. */
  function Alone(s: State, a: Action, k: nat): State
    requires s.blockNum > 0
    decreases k
  {
    if k == 0 then s else SameBlockNum(s, a); Alone(Step(s, a), a, k - 1)
  }

  lemma SameBlockNum(s: State, a: Action)
    requires s.blockNum > 0
    ensures Step(s, a).blockNum == s.blockNum
  {
    if AtLock(PcOf(s.threads, a.t)) {
      LockerSameNum(s, a);
    } else {
      OtherSameNum(s, a);
    }
  }

  lemma LockerSameNum(s: State, a: Action)
    requires s.blockNum > 0 && AtLock(PcOf(s.threads, a.t))
    ensures Step(s, a).blockNum == s.blockNum
  {
  }

  lemma OtherSameNum(s: State, a: Action)
    requires s.blockNum > 0 && !AtLock(PcOf(s.threads, a.t))
    ensures Step(s, a).blockNum == s.blockNum
  {
  }

  lemma {:induction false} AloneMore(s: State, a: Action, j: nat, k: nat)
    requires s.blockNum > 0
    ensures Alone(s, a, j).blockNum == s.blockNum && Alone(s, a, j + k) == Alone(Alone(s, a, j), a, k)
    decreases j
  {
    if j > 0 {
      SameBlockNum(s, a);
      AloneMore(Step(s, a), a, j - 1, k);
    }
  }

  /** Drawing a ticket for a free block, the writer locks it ... */
  lemma DrawFree(s: State, a: Action)
    requires s.blockNum > 0 && PcOf(s.threads, a.t) == Scan && !a.weak
    requires At(s.blocks, s.ticket % s.blockNum).lockNum == RW_LOCK_FREE
    ensures PcOf(Alone(s, a, 2).threads, a.t) == Insert(s.ticket % s.blockNum, true, 0)
  {
    var s1 := Step(s, a);
    assert PcOf(s1.threads, a.t) == TryWrite(s.ticket % s.blockNum) && s1.blocks == s.blocks;
    assert Alone(s, a, 2) == Step(s1, a);
  }

  /** ... and for another one it is back where it was, one ticket further. */
  lemma DrawTaken(s: State, a: Action) returns (k: nat)
    requires s.blockNum > 0 && PcOf(s.threads, a.t) == Scan
    requires At(s.blocks, s.ticket % s.blockNum).lockNum != RW_LOCK_FREE
    ensures k <= 4 && PcOf(Alone(s, a, k).threads, a.t) == Scan
    ensures Alone(s, a, k).ticket == (s.ticket + 1) % TICKETS
    ensures Alone(s, a, k).blocks == s.blocks && Alone(s, a, k).blockNum == s.blockNum
  {
    var b := s.ticket % s.blockNum;
    var s1 := Step(s, a);
    assert s1 == Goto(s.(ticket := (s.ticket + 1) % TICKETS), a.t, TryWrite(b));
    var s2 := Step(s1, a);
    assert s2 == Goto(s1, a.t, AskWrite(b));
    var s3 := Step(s2, a);
    assert s3 == Goto(s2, a.t, if a.yes then Scan else RetryWrite(b));
    k := 3;
    assert Alone(s, a, 3) == Alone(s2, a, 1) == s3 by {
      assert Alone(s, a, 3) == Alone(s1, a, 2);
    }
    if !a.yes {
      k := 4;
      assert Step(s3, a) == Goto(s3, a.t, Scan);
      AloneMore(s, a, 3, 1);
      assert Alone(s3, a, 1) == Step(s3, a);
    }
  }

  /** The writer locks a free block by the time it draws ticket `i`, which stands for one. */
  lemma {:induction false} ScanUpTo(s: State, a: Action, n: nat, i: nat, free: nat) returns (k: nat, b: nat)
    requires s.blockNum > 0 && PcOf(s.threads, a.t) == Scan && !a.weak
    requires s.ticket == n % TICKETS && n <= i && BlockOfTicket(i, s.blockNum) == free
    requires At(s.blocks, free).lockNum == RW_LOCK_FREE
    ensures k <= 4 * (i - n) + 2 && b < s.blockNum && At(s.blocks, b).lockNum == RW_LOCK_FREE
    ensures PcOf(Alone(s, a, k).threads, a.t) == Insert(b, true, 0)
    decreases i - n
  {
    b := s.ticket % s.blockNum;
    if At(s.blocks, b).lockNum == RW_LOCK_FREE {
      k := 2;
      DrawFree(s, a);
    } else {
      var j := DrawTaken(s, a);
      NextTicket(n);
      k, b := ScanUpTo(Alone(s, a, j), a, n + 1, i, free);
      AloneMore(s, a, j, k);
      k := j + k;
    }
  }

  /** A writer that is left alone locks a free block within `8 * blockNum` steps, provided that
      there is one, whatever AnyAlive answers and wherever the ticket counter is. */
  lemma WriterFindsFreeBlock(blockNum: nat, schedule: seq<Action>, a: Action, free: nat) returns (k: nat, b: nat)
    requires 0 < blockNum <= TICKETS && free < blockNum && !a.weak
    requires PcOf(Execute(blockNum, schedule).threads, a.t) == Scan
    requires At(Execute(blockNum, schedule).blocks, free).lockNum == RW_LOCK_FREE
    ensures var s := Execute(blockNum, schedule);
      && k <= 8 * blockNum && b < blockNum && At(s.blocks, b).lockNum == RW_LOCK_FREE
      && PcOf(Alone(s, a, k).threads, a.t) == Insert(b, true, 0)
  {
    var n := Drawn(blockNum, schedule);
    TicketsCounted(blockNum, schedule);
    AllTriedInTwoRounds(n, blockNum, free);
    var i: nat :| n <= i < n + 2 * blockNum && BlockOfTicket(i, blockNum) == free;
    k, b := ScanUpTo(Execute(blockNum, schedule), a, n, i, free);
  }

  /** A reader that is left alone is through within five steps: it locks the block it asked for if
      and only if nobody writes it, and changes nothing otherwise. */
  lemma ReaderAlone(s: State, a: Action) returns (k: nat)
    requires a.block < s.blockNum && PcOf(s.threads, a.t) == Idle && !a.write && !a.weak
    ensures k <= 5
    ensures var (s', n) := (Alone(s, a, k), At(s.blocks, a.block).lockNum);
      if n >= RW_LOCK_FREE
      then PcOf(s'.threads, a.t) == Insert(a.block, false, 0) && At(s'.blocks, a.block).lockNum == n + 1
      else PcOf(s'.threads, a.t) == Idle && s'.blocks == s.blocks
  {
    var b := a.block;
    var s1 := Step(s, a);
    assert s1 == Goto(s, a.t, ReadLoad(b, 0, false));
    if At(s.blocks, b).lockNum >= RW_LOCK_FREE {
      k := 3;
      LoadAndLock(s1, a, b, false);
    } else {
      k := LoadAndFail(s1, a, b, false);
      if !a.yes {
        var j := LoadAndFail(Alone(s1, a, k), a, b, true);
        AloneMore(s1, a, k, j);
        k := k + j;
      }
      k := k + 1;
    }
  }

  lemma LoadAndLock(s: State, a: Action, b: nat, again: bool)
    requires s.blockNum > 0 && PcOf(s.threads, a.t) == ReadLoad(b, 0, again) && !a.weak
    requires At(s.blocks, b).lockNum >= RW_LOCK_FREE
    ensures var s' := Alone(s, a, 2);
      && PcOf(s'.threads, a.t) == Insert(b, false, 0)
      && At(s'.blocks, b).lockNum == At(s.blocks, b).lockNum + 1
  {
    var s1 := Step(s, a);
    assert s1 == Goto(s, a.t, ReadCas(b, 0, again, At(s.blocks, b).lockNum));
    assert Alone(s, a, 2) == Step(s1, a);
  }

  lemma LoadAndFail(s: State, a: Action, b: nat, again: bool) returns (k: nat)
    requires s.blockNum > 0 && PcOf(s.threads, a.t) == ReadLoad(b, 0, again)
    requires At(s.blocks, b).lockNum < RW_LOCK_FREE
    ensures k == 2 && Alone(s, a, k).blocks == s.blocks && Alone(s, a, k).blockNum == s.blockNum
    ensures PcOf(Alone(s, a, k).threads, a.t) == if again || a.yes then Idle else ReadLoad(b, 0, true)
  {
    k := 2;
    var s1 := Step(s, a);
    assert s1 == Goto(s, a.t, ReadFailed(b, again));
    assert Alone(s, a, 2) == Step(s1, a);
  }

  /** A reader whose compare-and-swap keeps failing tries `MAX_TRY_LOCK_TIMES` times, no fewer and
      no more, before it gives up. */
  lemma {:induction false} FiveTries(s: State, a: Action, b: nat, again: bool, i: nat)
    requires s.blockNum > 0 && PcOf(s.threads, a.t) == ReadLoad(b, 0, again) && a.weak
    requires At(s.blocks, b).lockNum >= RW_LOCK_FREE && i <= MAX_TRY_LOCK_TIMES
    ensures Alone(s, a, 2 * i).blocks == s.blocks && Alone(s, a, 2 * i).blockNum == s.blockNum
    ensures PcOf(Alone(s, a, 2 * i).threads, a.t) ==
            if i == MAX_TRY_LOCK_TIMES then ReadFailed(b, again) else ReadLoad(b, i, again)
  {
    if i > 0 {
      FiveTries(s, a, b, again, i - 1);
      AloneMore(s, a, 2 * (i - 1), 2);
      OneTry(Alone(s, a, 2 * (i - 1)), a, b, again, i - 1);
    }
  }

  lemma OneTry(s: State, a: Action, b: nat, again: bool, i: nat)
    requires s.blockNum > 0 && PcOf(s.threads, a.t) == ReadLoad(b, i, again) && a.weak
    requires At(s.blocks, b).lockNum >= RW_LOCK_FREE && i < MAX_TRY_LOCK_TIMES
    ensures Alone(s, a, 2).blocks == s.blocks && Alone(s, a, 2).blockNum == s.blockNum
    ensures PcOf(Alone(s, a, 2).threads, a.t) ==
            if i + 1 == MAX_TRY_LOCK_TIMES then ReadFailed(b, again) else ReadLoad(b, i + 1, again)
  {
    var s1 := Step(s, a);
    assert s1 == Goto(s, a.t, ReadCas(b, i, again, At(s.blocks, b).lockNum));
    assert Alone(s, a, 2) == Step(s1, a);
  }

  /** One of the slots from `slot` on is empty or has the process on record. */
  ghost predicate Room(pids: map<nat, nat>, pid: nat, slot: nat) {
    exists i: nat :: slot <= i < MAX_PROCESS_NUM && (PidAt(pids, i) == 0 || PidAt(pids, i) == pid)
  }

  /** A thread that has the lock and is left alone gets the block, to do what it asked for, if and
      only if one of the slots it has still to look at is empty or records its process; otherwise
      it is refused with the lock held. */
  lemma {:induction false} InsertAlone(s: State, a: Action, b: nat, write: bool, slot: nat) returns (k: nat)
    requires s.blockNum > 0 && PcOf(s.threads, a.t) == Insert(b, write, slot) && slot < MAX_PROCESS_NUM
    ensures k <= MAX_PROCESS_NUM - slot + 1
    ensures PcOf(Alone(s, a, k).threads, a.t) ==
            if Room(At(s.blocks, b).pids, a.pid, slot) then Acquired(b, write) else Stranded(b, write)
    decreases MAX_PROCESS_NUM - slot
  {
    var pids := At(s.blocks, b).pids;
    var (probed, s1) := (PidAt(pids, slot), Step(s, a));
    if probed == a.pid {
      k := 1;
      assert Alone(s, a, 1) == s1;
    } else if probed == 0 {
      k := 2;
      assert s1 == Goto(s, a.t, InsertCas(b, write, slot));
      assert Alone(s, a, 2) == Step(s1, a);
    } else {
      assert s1 == Goto(s, a.t, NextSlot(b, write, slot));
      assert Room(pids, a.pid, slot) <==> Room(pids, a.pid, slot + 1);
      if slot + 1 < MAX_PROCESS_NUM {
        k := InsertAlone(s1, a, b, write, slot + 1);
      } else {
        k := 0;
      }
      k := k + 1;
    }
  }

  // ---------------------------------------------------------------- the bytes behind a block

  /** In every run on a segment that is laid out, the buffer of every block that a thread is busy
      with lies in the mapped memory, behind the State and Block objects, and does not overlap the
      buffer of any other block that a thread is busy with. */
  lemma BuffersAreMapped(
    segment: AllocMemory, header: Header, mapped: nat, base: nat, stateBytes: nat, blockBytes: nat,
    schedule: seq<Action>, t: nat, u: nat)
    requires stateBytes <= EXTRA_SIZE + STATE_SIZE && blockBytes <= BLOCK_SIZE && header.blockNum > 0
    requires segment.LaidOut(base, header, stateBytes, blockBytes) && segment.conf.managedShmSize <= mapped
    requires BlockIn(PcOf(Execute(header.blockNum, schedule).threads, t)).Some?
    ensures var ts := Execute(header.blockNum, schedule).threads;
      var (b, other) := (BlockIn(PcOf(ts, t)).value, BlockIn(PcOf(ts, u)));
      && b in segment.blockBufAddrs
      && base + stateBytes + header.blockNum * blockBytes <= segment.blockBufAddrs[b]
      && segment.blockBufAddrs[b] + segment.conf.blockBufSize <= base + mapped
      && (other.Some? && other.value != b ==>
            && other.value in segment.blockBufAddrs
            && (|| segment.blockBufAddrs[b] + segment.conf.blockBufSize <= segment.blockBufAddrs[other.value]
                || segment.blockBufAddrs[other.value] + segment.conf.blockBufSize <= segment.blockBufAddrs[b]))
  {
    var ts := Execute(header.blockNum, schedule).threads;
    var (b, other) := (BlockIn(PcOf(ts, t)).value, BlockIn(PcOf(ts, u)));
    BlocksExistOverRuns(header.blockNum, schedule);
    assert InSegment(PcOf(ts, t), header.blockNum) && InSegment(PcOf(ts, u), header.blockNum);
    var c := if other.Some? then other.value else b;
    LayoutIsSound(segment, segment, header, mapped, base, base, stateBytes, blockBytes, b, c);
    LayoutIsSound(segment, segment, header, mapped, base, base, stateBytes, blockBytes, c, b);
  }
}
