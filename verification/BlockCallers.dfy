/**
 How many callers a shared-memory block bears: the exact number of threads up to which a refused
 call never leaves a lock behind.  It does not depend on how the threads are spread over
 processes.
 */
module BlockCallers {
  import opened ShmBlocks

  /** The steps are taken by these threads, each with the id of its process. */
  predicate By(schedule: seq<Action>, threads: set<nat>, pidOf: nat -> nat) {
    forall i | 0 <= i < |schedule| :: ByOne(schedule[i], threads, pidOf)
  }

  predicate ByOne(a: Action, threads: set<nat>, pidOf: nat -> nat) {
    a.t in threads && a.pid == pidOf(a.t)
  }

  /** Process ids are not 0. */
  predicate Processes(threads: set<nat>, pidOf: nat -> nat) {
    forall t | t in threads :: pidOf(t) != 0
  }

  // ---------------------------------------------------------------- one slot for each thread

  /** Slots are filled from the first on, each by a thread of its own, with its process id. */
  ghost predicate SlotsOk(pids: map<nat, nat>, who: map<nat, nat>, threads: set<nat>, pidOf: nat -> nat) {
    && pids.Keys == who.Keys
    && (forall i | i in who :: who[i] in threads && pids[i] == pidOf(who[i]))
    && (forall i: nat, j | j in who && i < j :: i in who)
    && (forall i, j | i in who && j in who && who[i] == who[j] :: i == j)
  }

  /** All slots before `slot` have been filled by other threads than `t`. */
  ghost predicate Behind(who: map<nat, nat>, t: nat, slot: nat) {
    forall i: nat | i < slot :: i in who && who[i] != t
  }

  /** What a thread knows of the slots it has been through. */
  ghost predicate ProbeOk(bs: map<nat, Block>, t: nat, pc: Pc) {
    match pc
    case Insert(b, _, slot) => slot < MAX_PROCESS_NUM && Behind(At(bs, b).recorders, t, slot)
    case InsertCas(b, _, slot) =>
      && slot < MAX_PROCESS_NUM && Behind(At(bs, b).recorders, t, slot)
      && (slot in At(bs, b).recorders ==> At(bs, b).recorders[slot] != t)
    case Stranded(b, _) => Behind(At(bs, b).recorders, t, MAX_PROCESS_NUM)
    case _ => true
  }

  ghost predicate AllSlotsOk(bs: map<nat, Block>, threads: set<nat>, pidOf: nat -> nat) {
    forall b: nat :: SlotsOk(At(bs, b).pids, At(bs, b).recorders, threads, pidOf)
  }

  ghost predicate ProbesOk(bs: map<nat, Block>, ts: map<nat, Pc>) {
    forall t: nat :: ProbeOk(bs, t, PcOf(ts, t))
  }

  ghost predicate SlotInv(s: State, threads: set<nat>, pidOf: nat -> nat) {
    AllSlotsOk(s.blocks, threads, pidOf) && ProbesOk(s.blocks, s.threads)
  }

  /** Only a successful CAS on a slot touches the slots. */
  lemma SlotsStay(s: State, a: Action, b: nat)
    requires s.blockNum > 0 && !PcOf(s.threads, a.t).InsertCas?
    ensures At(Step(s, a).blocks, b).pids == At(s.blocks, b).pids
    ensures At(Step(s, a).blocks, b).recorders == At(s.blocks, b).recorders
  {
    if AtLock(PcOf(s.threads, a.t)) {
      LockSlotsStay(s, a, b);
    } else {
      OtherSlotsStay(s, a, b);
    }
  }

  lemma LockSlotsStay(s: State, a: Action, b: nat)
    requires s.blockNum > 0 && AtLock(PcOf(s.threads, a.t))
    ensures At(Step(s, a).blocks, b).pids == At(s.blocks, b).pids
    ensures At(Step(s, a).blocks, b).recorders == At(s.blocks, b).recorders
  {
  }

  lemma OtherSlotsStay(s: State, a: Action, b: nat)
    requires s.blockNum > 0 && !AtLock(PcOf(s.threads, a.t)) && !PcOf(s.threads, a.t).InsertCas?
    ensures At(Step(s, a).blocks, b).pids == At(s.blocks, b).pids
    ensures At(Step(s, a).blocks, b).recorders == At(s.blocks, b).recorders
  {
  }

  /** A probe's findings stay true while slots are filled by others. */
  lemma ProbeStays(bs: map<nat, Block>, bs': map<nat, Block>, t: nat, pc: Pc)
    requires ProbeOk(bs, t, pc)
    requires forall b: nat, i | i in At(bs, b).recorders ::
      i in At(bs', b).recorders && At(bs', b).recorders[i] == At(bs, b).recorders[i]
    requires forall b: nat, i | i in At(bs', b).recorders && i !in At(bs, b).recorders :: At(bs', b).recorders[i] != t
    ensures ProbeOk(bs', t, pc)
  {
  }

  /** The thread that loads a slot knows what to make of it. */
  lemma LoaderOk(s: State, a: Action, threads: set<nat>, pidOf: nat -> nat)
    requires s.blockNum > 0 && SlotInv(s, threads, pidOf) && ByOne(a, threads, pidOf) && Processes(threads, pidOf)
    requires PcOf(s.threads, a.t).Insert?
    ensures ProbeOk(s.blocks, a.t, PcOf(Step(s, a).threads, a.t))
  {
    var pc := PcOf(s.threads, a.t);
    assert ProbeOk(s.blocks, a.t, pc);
    var block := At(s.blocks, pc.b);
    assert SlotsOk(block.pids, block.recorders, threads, pidOf);
    assert pc.slot in block.recorders ==> block.pids[pc.slot] == pidOf(block.recorders[pc.slot]) != 0;
    assert Behind(block.recorders, a.t, pc.slot);
  }

  lemma OtherPc(s: State, a: Action)
    requires s.blockNum > 0 && !PcOf(s.threads, a.t).Insert? && !PcOf(s.threads, a.t).InsertCas?
    ensures var (pc, pc') := (PcOf(s.threads, a.t), PcOf(Step(s, a).threads, a.t));
      pc' == pc || !(pc'.InsertCas? || pc'.Stranded? || (pc'.Insert? && pc'.slot > 0))
  {
  }

  lemma QuietKeepsSlots(s: State, a: Action, threads: set<nat>, pidOf: nat -> nat)
    requires s.blockNum > 0 && SlotInv(s, threads, pidOf) && ByOne(a, threads, pidOf) && Processes(threads, pidOf)
    requires !PcOf(s.threads, a.t).InsertCas?
    ensures SlotInv(Step(s, a), threads, pidOf)
  {
    var s' := Step(s, a);
    forall b: nat ensures SlotsOk(At(s'.blocks, b).pids, At(s'.blocks, b).recorders, threads, pidOf)
      ensures At(s'.blocks, b).recorders == At(s.blocks, b).recorders
    {
      SlotsStay(s, a, b);
      assert SlotsOk(At(s.blocks, b).pids, At(s.blocks, b).recorders, threads, pidOf);
    }
    assert ProbeOk(s.blocks, a.t, PcOf(s.threads, a.t));
    if PcOf(s.threads, a.t).Insert? {
      LoaderOk(s, a, threads, pidOf);
    } else {
      OtherPc(s, a);
    }
    assert ProbeOk(s.blocks, a.t, PcOf(s'.threads, a.t));
    forall u: nat ensures ProbeOk(s'.blocks, u, PcOf(s'.threads, u)) {
      if u != a.t {
        StepMovesOne(s, a, u);
        assert ProbeOk(s.blocks, u, PcOf(s.threads, u));
      }
      ProbeStays(s.blocks, s'.blocks, u, PcOf(s'.threads, u));
    }
  }

  /** Recording: the thread had no slot yet, and the slot it takes is the next one. */
  lemma RecordKeepsSlotsOk(
    pids: map<nat, nat>, who: map<nat, nat>, threads: set<nat>, pidOf: nat -> nat, t: nat, slot: nat)
    requires SlotsOk(pids, who, threads, pidOf) && Behind(who, t, slot) && slot !in who && t in threads
    ensures SlotsOk(pids[slot := pidOf(t)], who[slot := t], threads, pidOf)
  {
  }

  lemma CasKeepsSlots(s: State, a: Action, threads: set<nat>, pidOf: nat -> nat)
    requires s.blockNum > 0 && SlotInv(s, threads, pidOf) && ByOne(a, threads, pidOf) && Processes(threads, pidOf)
    requires PcOf(s.threads, a.t).InsertCas?
    ensures SlotInv(Step(s, a), threads, pidOf)
  {
    var s', pc := Step(s, a), PcOf(s.threads, a.t);
    var block := At(s.blocks, pc.b);
    assert ProbeOk(s.blocks, a.t, pc) && SlotsOk(block.pids, block.recorders, threads, pidOf);
    assert pc.slot in block.recorders ==> block.pids[pc.slot] == pidOf(block.recorders[pc.slot]) != 0;
    if PidAt(block.pids, pc.slot) == 0 {
      RecordKeepsSlotsOk(block.pids, block.recorders, threads, pidOf, a.t, pc.slot);
      forall b: nat ensures SlotsOk(At(s'.blocks, b).pids, At(s'.blocks, b).recorders, threads, pidOf) {
        assert SlotsOk(At(s.blocks, b).pids, At(s.blocks, b).recorders, threads, pidOf);
      }
      forall u: nat ensures ProbeOk(s'.blocks, u, PcOf(s'.threads, u)) {
        if u != a.t {
          assert ProbeOk(s.blocks, u, PcOf(s.threads, u));
          ProbeStays(s.blocks, s'.blocks, u, PcOf(s.threads, u));
        }
      }
    } else {
      assert s'.blocks == s.blocks && ProbeOk(s.blocks, a.t, PcOf(s'.threads, a.t));
      forall u: nat ensures ProbeOk(s'.blocks, u, PcOf(s'.threads, u)) {
        assert u != a.t ==> ProbeOk(s.blocks, u, PcOf(s.threads, u));
      }
    }
  }

  lemma {:induction false} RunSlotInv(blockNum: nat, schedule: seq<Action>, threads: set<nat>, pidOf: nat -> nat)
    requires blockNum > 0 && By(schedule, threads, pidOf) && Processes(threads, pidOf)
    ensures SlotInv(Execute(blockNum, schedule), threads, pidOf)
  {
    if schedule != [] {
      var before, a := schedule[..|schedule| - 1], schedule[|schedule| - 1];
      RunSlotInv(blockNum, before, threads, pidOf);
      if PcOf(Execute(blockNum, before).threads, a.t).InsertCas? {
        CasKeepsSlots(Execute(blockNum, before), a, threads, pidOf);
      } else {
        QuietKeepsSlots(Execute(blockNum, before), a, threads, pidOf);
      }
    }
  }

  // ---------------------------------------------------------------- few enough

  /** `n` different threads. */
  lemma {:induction false} Pigeonhole(who: map<nat, nat>, n: nat, threads: set<nat>)
    requires forall i: nat | i < n :: i in who && who[i] in threads
    requires forall i: nat, j: nat | i < n && j < n && who[i] == who[j] :: i == j
    ensures n <= |threads|
  {
    if n > 0 {
      Pigeonhole(who, n - 1, threads - {who[n - 1]});
    }
  }

  lemma StrandedNeedsMore(s: State, t: nat, b: nat, write: bool, threads: set<nat>, pidOf: nat -> nat)
    requires SlotInv(s, threads, pidOf) && PcOf(s.threads, t) == Stranded(b, write) && t in threads
    ensures |threads| > MAX_PROCESS_NUM
  {
    var who := At(s.blocks, b).recorders;
    assert ProbeOk(s.blocks, t, PcOf(s.threads, t));
    assert SlotsOk(At(s.blocks, b).pids, who, threads, pidOf);
    assert forall i: nat | i < MAX_PROCESS_NUM :: i in who && who[i] != t;
    Pigeonhole(who, MAX_PROCESS_NUM, threads - {t});
  }

  /** Up to 64 threads, of however many processes, nobody is ever stranded. */
  lemma FewAreNotStranded(blockNum: nat, schedule: seq<Action>, threads: set<nat>, pidOf: nat -> nat, t: nat)
    requires blockNum > 0 && By(schedule, threads, pidOf) && Processes(threads, pidOf)
    requires |threads| <= MAX_PROCESS_NUM && t in threads
    ensures !PcOf(Execute(blockNum, schedule).threads, t).Stranded?
  {
    var s := Execute(blockNum, schedule);
    RunSlotInv(blockNum, schedule, threads, pidOf);
    if PcOf(s.threads, t).Stranded? {
      StrandedNeedsMore(s, t, PcOf(s.threads, t).b, PcOf(s.threads, t).write, threads, pidOf);
      assert false;
    }
  }

  // ---------------------------------------------------------------- one too many

  /** Some schedule of these threads leads to `s`. */
  ghost predicate Reached(blockNum: nat, threads: set<nat>, pidOf: nat -> nat, s: State)
    requires blockNum > 0
  {
    exists schedule: seq<Action> :: By(schedule, threads, pidOf) && Execute(blockNum, schedule) == s
  }

  lemma ReachedStep(blockNum: nat, threads: set<nat>, pidOf: nat -> nat, s: State, a: Action)
    requires blockNum > 0 && Reached(blockNum, threads, pidOf, s) && ByOne(a, threads, pidOf)
    ensures s.blockNum == blockNum && Reached(blockNum, threads, pidOf, Step(s, a))
  {
    var schedule :| By(schedule, threads, pidOf) && Execute(blockNum, schedule) == s;
    ExecuteMore(blockNum, schedule, a);
    assert By(schedule + [a], threads, pidOf);
  }

  /** Different threads, `n` of them. */
  predicate Distinct(who: seq<nat>, threads: set<nat>) {
    && (forall i | 0 <= i < |who| :: who[i] in threads)
    && (forall i, j | 0 <= i < j < |who| :: who[i] != who[j])
  }

  lemma {:induction false} Enumerate(threads: set<nat>, n: nat) returns (who: seq<nat>)
    requires n <= |threads|
    ensures |who| == n && Distinct(who, threads)
  {
    if n == 0 {
      who := [];
    } else {
      var t :| t in threads;
      var rest := Enumerate(threads - {t}, n - 1);
      who := [t] + rest;
    }
  }

  /** Threads `lo` to `hi` of the line are at `pc`. */
  ghost predicate AllAt(s: State, who: seq<nat>, lo: nat, hi: nat, pc: Pc) {
    forall i: nat | lo <= i < hi <= |who| :: PcOf(s.threads, who[i]) == pc
  }

  /** Exactly the slots before `n` are filled. */
  ghost predicate FilledTo(pids: map<nat, nat>, n: nat) {
    forall i: nat :: PidAt(pids, i) != 0 <==> i < n
  }

  /** A line of different threads on its way through the slots of block `b`. */
  ghost predicate Line(blockNum: nat, threads: set<nat>, pidOf: nat -> nat, s: State, who: seq<nat>)
    requires blockNum > 0
  {
    Reached(blockNum, threads, pidOf, s) && Distinct(who, threads) && Processes(threads, pidOf)
  }

  function Act(t: nat, b: nat, pidOf: nat -> nat, word: Word): Action {
    Action(t, pidOf(t), false, b, false, false, false, 0, word)
  }

  /** Thread `t` loads the lock number ... */
  lemma Loads(blockNum: nat, threads: set<nat>, pidOf: nat -> nat, s: State, t: nat, b: nat, word: Word)
    returns (s': State)
    requires b < blockNum && Reached(blockNum, threads, pidOf, s) && t in threads
    requires PcOf(s.threads, t) == Idle && At(s.blocks, b).lockNum >= 0
    ensures Reached(blockNum, threads, pidOf, s') && s'.blocks == s.blocks
    ensures PcOf(s'.threads, t) == ReadCas(b, 0, false, At(s.blocks, b).lockNum)
    ensures forall u: nat | u != t :: PcOf(s'.threads, u) == PcOf(s.threads, u)
  {
    var a := Act(t, b, pidOf, word);
    ReachedStep(blockNum, threads, pidOf, s, a);
    var s1 := Step(s, a);
    assert s1 == Goto(s, t, ReadLoad(b, 0, false));
    ReachedStep(blockNum, threads, pidOf, s1, a);
    s' := Step(s1, a);
  }

  /** ... and wins the block for reading, next to `n` others. */
  lemma Enters(blockNum: nat, threads: set<nat>, pidOf: nat -> nat, s: State, t: nat, b: nat, n: nat, word: Word)
    returns (s': State)
    requires b < blockNum && Reached(blockNum, threads, pidOf, s) && t in threads
    requires PcOf(s.threads, t) == Idle && At(s.blocks, b).lockNum == n
    ensures Reached(blockNum, threads, pidOf, s') && PcOf(s'.threads, t) == Insert(b, false, 0)
    ensures At(s'.blocks, b) == At(s.blocks, b).(lockNum := n + 1)
    ensures forall u: nat | u != t :: PcOf(s'.threads, u) == PcOf(s.threads, u)
  {
    var s1 := Loads(blockNum, threads, pidOf, s, t, b, word);
    ReachedStep(blockNum, threads, pidOf, s1, Act(t, b, pidOf, word));
    s' := Step(s1, Act(t, b, pidOf, word));
  }

  /** The first `k` of the line are readers of the block, about to record their process. */
  lemma {:induction false} AllEnter(
    blockNum: nat, threads: set<nat>, pidOf: nat -> nat, who: seq<nat>, k: nat, b: nat, word: Word) returns (s: State)
    requires b < blockNum && Distinct(who, threads) && Processes(threads, pidOf) && k <= |who|
    ensures Line(blockNum, threads, pidOf, s, who)
    ensures AllAt(s, who, 0, k, Insert(b, false, 0)) && AllAt(s, who, k, |who|, Idle)
    ensures At(s.blocks, b) == FRESH.(lockNum := k)
  {
    if k == 0 {
      s := Init(blockNum);
      assert By([], threads, pidOf) && Execute(blockNum, []) == s;
    } else {
      var s0 := AllEnter(blockNum, threads, pidOf, who, k - 1, b, word);
      s := Enters(blockNum, threads, pidOf, s0, who[k - 1], b, k - 1, word);
    }
  }

  /** Threads from `k` on load the empty slot; those before have done so. */
  lemma {:induction false} AllLoad(
    blockNum: nat, threads: set<nat>, pidOf: nat -> nat, s: State, who: seq<nat>, b: nat, slot: nat, k: nat, word: Word)
    returns (s': State)
    requires b < blockNum && Line(blockNum, threads, pidOf, s, who)
    requires FilledTo(At(s.blocks, b).pids, slot) && slot <= k <= |who|
    requires AllAt(s, who, slot, k, InsertCas(b, false, slot)) && AllAt(s, who, k, |who|, Insert(b, false, slot))
    ensures Line(blockNum, threads, pidOf, s', who) && s'.blocks == s.blocks
    ensures AllAt(s', who, slot, |who|, InsertCas(b, false, slot))
    decreases |who| - k
  {
    s' := s;
    if k < |who| {
      var a := Act(who[k], b, pidOf, word);
      ReachedStep(blockNum, threads, pidOf, s, a);
      assert PidAt(At(s.blocks, b).pids, slot) == 0;
      var s1 := Step(s, a);
      assert s1 == Goto(s, who[k], InsertCas(b, false, slot));
      s' := AllLoad(blockNum, threads, pidOf, s1, who, b, slot, k + 1, word);
    }
  }

  /** The first of them wins the slot. */
  lemma OneWins(
    blockNum: nat, threads: set<nat>, pidOf: nat -> nat, s: State, who: seq<nat>, b: nat, slot: nat, word: Word)
    returns (s': State)
    requires b < blockNum && Line(blockNum, threads, pidOf, s, who)
    requires FilledTo(At(s.blocks, b).pids, slot) && slot < |who|
    requires AllAt(s, who, slot, |who|, InsertCas(b, false, slot))
    ensures Line(blockNum, threads, pidOf, s', who) && FilledTo(At(s'.blocks, b).pids, slot + 1)
    ensures AllAt(s', who, slot + 1, |who|, InsertCas(b, false, slot))
  {
    var a := Act(who[slot], b, pidOf, word);
    ReachedStep(blockNum, threads, pidOf, s, a);
    assert PidAt(At(s.blocks, b).pids, slot) == 0;
    s' := Step(s, a);
    var pids := At(s.blocks, b).pids;
    assert At(s'.blocks, b).pids == pids[slot := pidOf(who[slot])];
    forall i: nat ensures PidAt(At(s'.blocks, b).pids, i) != 0 <==> i < slot + 1 {
      assert PidAt(pids, i) != 0 <==> i < slot;
    }
  }

  /** Those from `k` to `last` lose it and go on. */
  lemma {:induction false} AllLose(
    blockNum: nat, threads: set<nat>, pidOf: nat -> nat, s: State, who: seq<nat>, b: nat, slot: nat, k: nat, word: Word)
    returns (s': State)
    requires b < blockNum && Line(blockNum, threads, pidOf, s, who) && FilledTo(At(s.blocks, b).pids, slot + 1)
    requires slot < k <= |who| && slot + 1 < MAX_PROCESS_NUM
    requires AllAt(s, who, slot + 1, k, Insert(b, false, slot + 1))
    requires AllAt(s, who, k, |who|, InsertCas(b, false, slot))
    ensures Line(blockNum, threads, pidOf, s', who) && s'.blocks == s.blocks
    ensures AllAt(s', who, slot + 1, |who|, Insert(b, false, slot + 1))
    decreases |who| - k
  {
    s' := s;
    if k < |who| {
      var a := Act(who[k], b, pidOf, word);
      ReachedStep(blockNum, threads, pidOf, s, a);
      assert PidAt(At(s.blocks, b).pids, slot) != 0;
      var s1 := Step(s, a);
      assert s1 == Goto(s, who[k], Insert(b, false, slot + 1));
      s' := AllLose(blockNum, threads, pidOf, s1, who, b, slot, k + 1, word);
    }
  }

  /** One round: all load the slot, one wins it, the others go on together. */
  lemma Round(
    blockNum: nat, threads: set<nat>, pidOf: nat -> nat, s: State, who: seq<nat>, b: nat, slot: nat, word: Word)
    returns (s': State)
    requires b < blockNum && Line(blockNum, threads, pidOf, s, who) && FilledTo(At(s.blocks, b).pids, slot)
    requires slot < |who| && slot + 1 < MAX_PROCESS_NUM && AllAt(s, who, slot, |who|, Insert(b, false, slot))
    ensures Line(blockNum, threads, pidOf, s', who) && FilledTo(At(s'.blocks, b).pids, slot + 1)
    ensures AllAt(s', who, slot + 1, |who|, Insert(b, false, slot + 1))
  {
    var s1 := AllLoad(blockNum, threads, pidOf, s, who, b, slot, slot, word);
    var s2 := OneWins(blockNum, threads, pidOf, s1, who, b, slot, word);
    s' := AllLose(blockNum, threads, pidOf, s2, who, b, slot, slot + 1, word);
  }

  /** Up to any slot, one thread of the line after another wins and the rest go on together. */
  lemma {:induction false} LineUpTo(
    blockNum: nat, threads: set<nat>, pidOf: nat -> nat, who: seq<nat>, b: nat, slot: nat, word: Word)
    returns (s: State)
    requires b < blockNum && Distinct(who, threads) && Processes(threads, pidOf)
    requires |who| == MAX_PROCESS_NUM + 1 && slot < MAX_PROCESS_NUM
    ensures Line(blockNum, threads, pidOf, s, who) && FilledTo(At(s.blocks, b).pids, slot)
    ensures AllAt(s, who, slot, |who|, Insert(b, false, slot))
  {
    if slot == 0 {
      s := AllEnter(blockNum, threads, pidOf, who, |who|, b, word);
      assert At(s.blocks, b).pids == map[];
    } else {
      var s0 := LineUpTo(blockNum, threads, pidOf, who, b, slot - 1, word);
      s := Round(blockNum, threads, pidOf, s0, who, b, slot - 1, word);
    }
  }

  /** 65 threads, of however many processes, can come to where the last one is refused with the
      lock held. */
  lemma OneTooMany(blockNum: nat, threads: set<nat>, pidOf: nat -> nat, b: nat, word: Word)
    returns (schedule: seq<Action>, a: Action)
    requires b < blockNum && Processes(threads, pidOf) && |threads| > MAX_PROCESS_NUM
    ensures By(schedule, threads, pidOf) && ByOne(a, threads, pidOf)
    ensures PcOf(Step(Execute(blockNum, schedule), a).threads, a.t) == Stranded(b, false)
    ensures PcOf(Execute(blockNum, schedule).threads, a.t).InsertCas?
  {
    var last := MAX_PROCESS_NUM - 1;
    var who := Enumerate(threads, MAX_PROCESS_NUM + 1);
    var s := LineUpTo(blockNum, threads, pidOf, who, b, last, word);
    s := AllLoad(blockNum, threads, pidOf, s, who, b, last, last, word);
    s := OneWins(blockNum, threads, pidOf, s, who, b, last, word);
    assert PidAt(At(s.blocks, b).pids, last) != 0;
    assert PcOf(s.threads, who[MAX_PROCESS_NUM]) == InsertCas(b, false, last);
    schedule :| By(schedule, threads, pidOf) && Execute(blockNum, schedule) == s;
    a := Act(who[MAX_PROCESS_NUM], b, pidOf, word);
  }

  // ---------------------------------------------------------------- exactly

  /** Whatever these threads do, a refused call leaves every lock number as it found it. */
  ghost predicate RefusalsClean(blockNum: nat, threads: set<nat>, pidOf: nat -> nat)
    requires blockNum > 0
  {
    forall schedule: seq<Action>, a: Action
      | By(schedule, threads, pidOf) && ByOne(a, threads, pidOf) && Refuses(Execute(blockNum, schedule), a) ::
      Balanced(blockNum, schedule + [a], a.t)
  }

  lemma FewAreRefusedCleanly(blockNum: nat, threads: set<nat>, pidOf: nat -> nat, schedule: seq<Action>, a: Action)
    requires blockNum > 0 && Processes(threads, pidOf) && |threads| <= MAX_PROCESS_NUM
    requires By(schedule, threads, pidOf) && ByOne(a, threads, pidOf) && Refuses(Execute(blockNum, schedule), a)
    ensures Balanced(blockNum, schedule + [a], a.t)
  {
    assert By(schedule + [a], threads, pidOf);
    FewAreNotStranded(blockNum, schedule + [a], threads, pidOf, a.t);
    ExecuteMore(blockNum, schedule, a);
    RefusedCleanlyExactly(blockNum, schedule, a);
  }

  /** The exact condition for callers: refused calls leave nothing behind in every run of some
      threads if and only if the threads are at most 64, however they are spread over
      processes. */
  lemma RefusalsAreCleanExactly(blockNum: nat, threads: set<nat>, pidOf: nat -> nat, word: Word)
    requires blockNum > 0 && Processes(threads, pidOf)
    ensures RefusalsClean(blockNum, threads, pidOf) <==> |threads| <= MAX_PROCESS_NUM
  {
    if |threads| <= MAX_PROCESS_NUM {
      forall schedule: seq<Action>, a: Action
        | By(schedule, threads, pidOf) && ByOne(a, threads, pidOf) && Refuses(Execute(blockNum, schedule), a)
        ensures Balanced(blockNum, schedule + [a], a.t)
      {
        FewAreRefusedCleanly(blockNum, threads, pidOf, schedule, a);
      }
    } else {
      var schedule, a := OneTooMany(blockNum, threads, pidOf, 0, word);
      RefusedCleanlyExactly(blockNum, schedule, a);
      assert Refuses(Execute(blockNum, schedule), a) && !Balanced(blockNum, schedule + [a], a.t);
    }
  }
}
