/**
 Blocks of a shared-memory segment, used by any number of threads of any number of processes:
 a writer scans for a block it can lock, writes words into its buffer and releases it; a
 reader locks a block it was told about, reads words and releases it.  One step is one atomic
 operation or one word read or written.  No process dies, so AnyAlive only answers; its answer
 comes with the action, and so does the process id that Insert records.  Callers release what
 they have acquired, and nothing else.  A "thread" here is one caller's use of one block at a
 time: a caller that is refused with the lock held ends as `Stranded`, and its later calls
 belong to another thread.
 */
module ShmBlocks {
  import opened Common

  type Word(!new)

  const RW_LOCK_FREE := 0
  const WRITE_EXCLUSIVE := -1
  const MAX_TRY_LOCK_TIMES := 5
  const MAX_PROCESS_NUM := 64

  /** `pids` is the lockless set of process ids, by slot.  Two fields are history: `recorders`
      has the threads that filled the slots, `published` the contents when the last writer
      released the block. */
  datatype Block = Block(
    lockNum: int, buf: map<nat, Word>, published: map<nat, Word>, pids: map<nat, nat>, recorders: map<nat, nat>)

  datatype Pc =
    | Idle
    | Scan                    // next ticket to be taken
    | TryWrite(b: nat)        // CAS 0 -> -1 next
    | AskWrite(b: nat)        // CAS failed, AnyAlive next
    | RetryWrite(b: nat)      // nobody alive, CAS 0 -> -1 next
    | Writing(b: nat, put: map<nat, Word>)
    | UnlockWrite(b: nat, put: map<nat, Word>) // lock number seen negative, fetch_add next
    | ReadLoad(b: nat, tries: nat, again: bool)
    | ReadCas(b: nat, tries: nat, again: bool, n: int)
    | ReadFailed(b: nat, again: bool)
    | Insert(b: nat, write: bool, slot: nat)    // locked; load of a slot of the process ids next
    | InsertCas(b: nat, write: bool, slot: nat) // the slot was empty, CAS 0 -> pid next
    | Reading(b: nat, got: map<nat, Option<Word>>)
    | UnlockRead(b: nat)      // lock number seen positive, fetch_sub next
    | Stranded(b: nat, write: bool) // Insert refused: the acquire fails and the lock stays

  datatype State = State(ticket: nat, blockNum: nat, blocks: map<nat, Block>, threads: map<nat, Pc>)

  /** `yes` answers AnyAlive; a holder releases if `release`, and otherwise accesses word `pos`. */
  datatype Action =
    Action(t: nat, pid: nat, write: bool, block: nat, weak: bool, yes: bool, release: bool, pos: nat, word: Word)

  const FRESH := Block(RW_LOCK_FREE, map[], map[], map[], map[])

  function PcOf(ts: map<nat, Pc>, t: nat): Pc {
    if t in ts then ts[t] else Idle
  }

  function At(bs: map<nat, Block>, b: nat): Block {
    if b in bs then bs[b] else FRESH
  }

  function Content(m: map<nat, Word>, pos: nat): Option<Word> {
    if pos in m then Some(m[pos]) else None
  }

  /** The process id in a slot, 0 if it is empty. */
  function PidAt(pids: map<nat, nat>, slot: nat): nat {
    if slot in pids then pids[slot] else 0
  }

  function Init(blockNum: nat): State {
    State(0, blockNum, map[], map[])
  }

  function Goto(s: State, t: nat, pc: Pc): State {
    s.(threads := s.threads[t := pc])
  }

  function SetLock(s: State, b: nat, n: int): State {
    s.(blocks := s.blocks[b := At(s.blocks, b).(lockNum := n)])
  }

  predicate Free(s: State, b: nat, a: Action) {
    At(s.blocks, b).lockNum == RW_LOCK_FREE && !a.weak
  }

  /** Thread `a.t` takes its next step; idle, it asks for a block to write, or for block
      `a.block` to read. */
  function Step(s: State, a: Action): State
    requires s.blockNum > 0
  {
    match PcOf(s.threads, a.t)
    case Idle =>
      if a.write then Goto(s, a.t, Scan)
      else if a.block < s.blockNum then Goto(s, a.t, ReadLoad(a.block, 0, false))
      else s
    case Scan =>
      Goto(s.(ticket := (s.ticket + 1) % 0x1_0000_0000), a.t, TryWrite(s.ticket % s.blockNum))
    case TryWrite(b) =>
      if Free(s, b, a) then Goto(SetLock(s, b, WRITE_EXCLUSIVE), a.t, Insert(b, true, 0))
      else Goto(s, a.t, AskWrite(b))
    case AskWrite(b) => Goto(s, a.t, if a.yes then Scan else RetryWrite(b))
    case RetryWrite(b) =>
      if Free(s, b, a) then Goto(SetLock(s, b, WRITE_EXCLUSIVE), a.t, Insert(b, true, 0))
      else Goto(s, a.t, Scan)
    case Writing(b, put) =>
      if a.release then Goto(s, a.t, if At(s.blocks, b).lockNum < 0 then UnlockWrite(b, put) else Idle)
      else Goto(Store(s, b, a.pos, a.word), a.t, Writing(b, put[a.pos := a.word]))
    case UnlockWrite(b, put) => Goto(Publish(s, b), a.t, Idle)
    case ReadLoad(b, tries, again) =>
      var n := At(s.blocks, b).lockNum;
      Goto(s, a.t, if n < RW_LOCK_FREE then ReadFailed(b, again) else ReadCas(b, tries, again, n))
    case ReadCas(b, tries, again, n) =>
      if At(s.blocks, b).lockNum == n && !a.weak then Goto(SetLock(s, b, n + 1), a.t, Insert(b, false, 0))
      else Goto(s, a.t, if tries + 1 == MAX_TRY_LOCK_TIMES then ReadFailed(b, again) else ReadLoad(b, tries + 1, again))
    case ReadFailed(b, again) => Goto(s, a.t, if again || a.yes then Idle else ReadLoad(b, 0, true))
    case Insert(b, write, slot) =>
      var probed := PidAt(At(s.blocks, b).pids, slot);
      Goto(s, a.t, if probed == a.pid then Acquired(b, write)
                   else if probed == 0 then InsertCas(b, write, slot)
                   else NextSlot(b, write, slot))
    case InsertCas(b, write, slot) =>
      if PidAt(At(s.blocks, b).pids, slot) == 0 then Goto(SetPid(s, b, slot, a), a.t, Acquired(b, write))
      else Goto(s, a.t, NextSlot(b, write, slot))
    case Reading(b, got) =>
      if a.release then Goto(s, a.t, if At(s.blocks, b).lockNum > 0 then UnlockRead(b) else Idle)
      else Goto(s, a.t, Reading(b, got[a.pos := Content(At(s.blocks, b).buf, a.pos)]))
    case UnlockRead(b) => Goto(SetLock(s, b, At(s.blocks, b).lockNum - 1), a.t, Idle)
    case Stranded(_, _) => s
  }

  function Acquired(b: nat, write: bool): Pc {
    if write then Writing(b, map[]) else Reading(b, map[])
  }

  /** The next slot, or failure after the last. */
  function NextSlot(b: nat, write: bool, slot: nat): Pc {
    if slot + 1 >= MAX_PROCESS_NUM then Stranded(b, write) else Insert(b, write, slot + 1)
  }

  function SetPid(s: State, b: nat, slot: nat, a: Action): State {
    var block := At(s.blocks, b);
    s.(blocks := s.blocks[b := block.(pids := block.pids[slot := a.pid], recorders := block.recorders[slot := a.t])])
  }

  function Store(s: State, b: nat, pos: nat, word: Word): State {
    var block := At(s.blocks, b);
    s.(blocks := s.blocks[b := block.(buf := block.buf[pos := word])])
  }

  function Publish(s: State, b: nat): State {
    var block := At(s.blocks, b);
    s.(blocks := s.blocks[b := block.(lockNum := block.lockNum + 1, published := block.buf)])
  }

  function Execute(blockNum: nat, schedule: seq<Action>): (s: State)
    requires blockNum > 0
    ensures s.blockNum == blockNum
  {
    if schedule == [] then Init(blockNum)
    else Step(Execute(blockNum, schedule[..|schedule| - 1]), schedule[|schedule| - 1])
  }

  // ---------------------------------------------------------------- who holds what

  predicate ReadHolds(pc: Pc, b: nat) {
    match pc
    case Insert(k, write, _) => k == b && !write
    case InsertCas(k, write, _) => k == b && !write
    case Reading(k, _) => k == b
    case UnlockRead(k) => k == b
    case Stranded(k, write) => k == b && !write
    case _ => false
  }

  predicate WriteHolds(pc: Pc, b: nat) {
    match pc
    case Insert(k, write, _) => k == b && write
    case InsertCas(k, write, _) => k == b && write
    case Writing(k, _) => k == b
    case UnlockWrite(k, _) => k == b
    case Stranded(k, write) => k == b && write
    case _ => false
  }

  function Readers(ts: map<nat, Pc>, b: nat): set<nat> {
    set t | t in ts && ReadHolds(ts[t], b)
  }

  function Writers(ts: map<nat, Pc>, b: nat): set<nat> {
    set t | t in ts && WriteHolds(ts[t], b)
  }

  predicate Counted(lockNum: int, readers: set<nat>, writers: set<nat>) {
    if lockNum < 0 then lockNum == WRITE_EXCLUSIVE && |writers| == 1 && readers == {}
    else lockNum == |readers| && writers == {}
  }

  /** What a thread relies on. */
  ghost predicate PcOk(pc: Pc, bs: map<nat, Block>) {
    match pc
    case ReadCas(_, _, _, n) => n >= 0
    case Writing(b, put) => forall p | p in put :: Content(At(bs, b).buf, p) == Some(put[p])
    case UnlockWrite(b, put) => forall p | p in put :: Content(At(bs, b).buf, p) == Some(put[p])
    case Reading(b, got) => forall p | p in got :: got[p] == Content(At(bs, b).published, p)
    case _ => true
  }

  ghost predicate BlockOk(block: Block, ts: map<nat, Pc>, b: nat) {
    && Counted(block.lockNum, Readers(ts, b), Writers(ts, b))
    && (block.lockNum >= 0 ==> block.buf == block.published)
  }

  ghost predicate BlocksOk(bs: map<nat, Block>, ts: map<nat, Pc>) {
    forall b: nat :: BlockOk(At(bs, b), ts, b)
  }

  ghost predicate PcsOk(ts: map<nat, Pc>, bs: map<nat, Block>) {
    forall t: nat :: PcOk(PcOf(ts, t), bs)
  }

  ghost predicate Inv(s: State) {
    BlocksOk(s.blocks, s.threads) && PcsOk(s.threads, s.blocks)
  }

  /** The holders of every block after one thread moves. */
  lemma Moved(ts: map<nat, Pc>, t: nat, pc: Pc, b: nat)
    ensures Readers(ts[t := pc], b) == if ReadHolds(pc, b) then Readers(ts, b) + {t} else Readers(ts, b) - {t}
    ensures Writers(ts[t := pc], b) == if WriteHolds(pc, b) then Writers(ts, b) + {t} else Writers(ts, b) - {t}
    ensures t in Readers(ts, b) <==> ReadHolds(PcOf(ts, t), b)
    ensures t in Writers(ts, b) <==> WriteHolds(PcOf(ts, t), b)
  {
  }

  /** A thread that holds the same afterwards disturbs no block. */
  lemma SameHolders(ts: map<nat, Pc>, t: nat, pc: Pc, b: nat)
    requires ReadHolds(pc, b) == ReadHolds(PcOf(ts, t), b) && WriteHolds(pc, b) == WriteHolds(PcOf(ts, t), b)
    ensures Readers(ts[t := pc], b) == Readers(ts, b) && Writers(ts[t := pc], b) == Writers(ts, b)
  {
  }

  /** The holder of a write lock is alone. */
  lemma Alone(s: State, t: nat, b: nat)
    requires Inv(s) && WriteHolds(PcOf(s.threads, t), b)
    ensures At(s.blocks, b).lockNum == WRITE_EXCLUSIVE && Writers(s.threads, b) == {t} && Readers(s.threads, b) == {}
    ensures forall u: nat | u != t :: !WriteHolds(PcOf(s.threads, u), b) && !ReadHolds(PcOf(s.threads, u), b)
  {
    assert BlockOk(At(s.blocks, b), s.threads, b);
    Moved(s.threads, t, PcOf(s.threads, t), b);
    Singleton(Writers(s.threads, b), t);
    forall u: nat | u != t ensures !WriteHolds(PcOf(s.threads, u), b) && !ReadHolds(PcOf(s.threads, u), b) {
      Moved(s.threads, u, PcOf(s.threads, u), b);
    }
  }

  /** While somebody reads a block its lock number is positive. */
  lemma ReaderCounted(s: State, t: nat, b: nat)
    requires Inv(s) && ReadHolds(PcOf(s.threads, t), b)
    ensures At(s.blocks, b).lockNum > 0 && Writers(s.threads, b) == {}
  {
    assert BlockOk(At(s.blocks, b), s.threads, b);
    Moved(s.threads, t, PcOf(s.threads, t), b);
  }

  // ---------------------------------------------------------------- every step keeps it

  /** The others still rely on the same, and so does the thread that moved. */
  lemma PcsKept(ts: map<nat, Pc>, bs: map<nat, Block>, t: nat, pc: Pc, bs': map<nat, Block>)
    requires PcsOk(ts, bs) && PcOk(pc, bs')
    requires forall u: nat | u != t && PcOk(PcOf(ts, u), bs) :: PcOk(PcOf(ts, u), bs')
    ensures PcsOk(ts[t := pc], bs')
  {
    var ts' := ts[t := pc];
    forall u: nat ensures PcOk(PcOf(ts', u), bs') {
      assert PcOk(PcOf(ts, u), bs);
    }
  }

  /** A step that changes no block and no holder. */
  lemma MoveKeepsInv(s: State, t: nat, pc: Pc)
    requires Inv(s) && PcOk(pc, s.blocks)
    requires forall b: nat :: ReadHolds(pc, b) == ReadHolds(PcOf(s.threads, t), b)
    requires forall b: nat :: WriteHolds(pc, b) == WriteHolds(PcOf(s.threads, t), b)
    ensures Inv(Goto(s, t, pc))
  {
    PcsKept(s.threads, s.blocks, t, pc, s.blocks);
    var ts' := s.threads[t := pc];
    forall b: nat ensures BlockOk(At(s.blocks, b), ts', b) {
      assert BlockOk(At(s.blocks, b), s.threads, b);
      SameHolders(s.threads, t, pc, b);
    }
  }

  /** A step on block `b`: the other blocks keep their holders. */
  lemma BlocksKept(s: State, t: nat, pc: Pc, b: nat, block: Block)
    requires Inv(s) && BlockOk(block, s.threads[t := pc], b)
    requires forall k: nat | k != b :: ReadHolds(pc, k) == ReadHolds(PcOf(s.threads, t), k)
    requires forall k: nat | k != b :: WriteHolds(pc, k) == WriteHolds(PcOf(s.threads, t), k)
    ensures BlocksOk(s.blocks[b := block], s.threads[t := pc])
  {
    var (bs', ts') := (s.blocks[b := block], s.threads[t := pc]);
    forall k: nat ensures BlockOk(At(bs', k), ts', k) {
      if k != b {
        assert BlockOk(At(s.blocks, k), s.threads, k);
        SameHolders(s.threads, t, pc, k);
      }
    }
  }

  /** A change of the lock number alone touches nothing a thread relies on. */
  lemma RelockKeepsInv(s: State, t: nat, pc: Pc, b: nat, n: int)
    requires Inv(s) && (pc.Insert? || pc.Idle?)
    requires BlockOk(At(s.blocks, b).(lockNum := n), s.threads[t := pc], b)
    requires forall k: nat | k != b :: ReadHolds(pc, k) == ReadHolds(PcOf(s.threads, t), k)
    requires forall k: nat | k != b :: WriteHolds(pc, k) == WriteHolds(PcOf(s.threads, t), k)
    ensures Inv(Goto(SetLock(s, b, n), t, pc))
  {
    BlocksKept(s, t, pc, b, At(s.blocks, b).(lockNum := n));
    PcsKept(s.threads, s.blocks, t, pc, SetLock(s, b, n).blocks);
  }

  lemma WriteLockKeepsInv(s: State, t: nat, b: nat)
    requires Inv(s) && (PcOf(s.threads, t) == TryWrite(b) || PcOf(s.threads, t) == RetryWrite(b))
    requires At(s.blocks, b).lockNum == RW_LOCK_FREE
    ensures Inv(Goto(SetLock(s, b, WRITE_EXCLUSIVE), t, Insert(b, true, 0)))
  {
    assert BlockOk(At(s.blocks, b), s.threads, b);
    Moved(s.threads, t, Insert(b, true, 0), b);
    RelockKeepsInv(s, t, Insert(b, true, 0), b, WRITE_EXCLUSIVE);
  }

  lemma ReadLockKeepsInv(s: State, t: nat, b: nat)
    requires Inv(s) && PcOf(s.threads, t).ReadCas? && PcOf(s.threads, t).b == b
    requires At(s.blocks, b).lockNum == PcOf(s.threads, t).n
    ensures Inv(Goto(SetLock(s, b, At(s.blocks, b).lockNum + 1), t, Insert(b, false, 0)))
  {
    assert BlockOk(At(s.blocks, b), s.threads, b) && PcOk(PcOf(s.threads, t), s.blocks);
    Moved(s.threads, t, Insert(b, false, 0), b);
    RelockKeepsInv(s, t, Insert(b, false, 0), b, At(s.blocks, b).lockNum + 1);
  }

  lemma ReadUnlockKeepsInv(s: State, t: nat, b: nat)
    requires Inv(s) && PcOf(s.threads, t) == UnlockRead(b)
    ensures Inv(Goto(SetLock(s, b, At(s.blocks, b).lockNum - 1), t, Idle))
  {
    assert BlockOk(At(s.blocks, b), s.threads, b);
    ReaderCounted(s, t, b);
    Moved(s.threads, t, Idle, b);
    RelockKeepsInv(s, t, Idle, b, At(s.blocks, b).lockNum - 1);
  }

  /** A word stored by the block's only holder. */
  lemma StoreKeepsInv(s: State, t: nat, b: nat, pos: nat, word: Word)
    requires Inv(s) && PcOf(s.threads, t).Writing? && PcOf(s.threads, t).b == b
    ensures Inv(Goto(Store(s, b, pos, word), t, Writing(b, PcOf(s.threads, t).put[pos := word])))
  {
    var pc := Writing(b, PcOf(s.threads, t).put[pos := word]);
    var s' := Store(s, b, pos, word);
    Alone(s, t, b);
    assert PcOk(PcOf(s.threads, t), s.blocks);
    SameHolders(s.threads, t, pc, b);
    BlocksKept(s, t, pc, b, At(s'.blocks, b));
    OthersUnmoved(s, t, b, s'.blocks);
    PcsKept(s.threads, s.blocks, t, pc, s'.blocks);
  }

  /** What threads other than the writer of block `b` rely on is not in block `b`. */
  lemma OthersUnmoved(s: State, t: nat, b: nat, bs': map<nat, Block>)
    requires Inv(s) && WriteHolds(PcOf(s.threads, t), b)
    requires forall k: nat | k != b :: At(bs', k) == At(s.blocks, k)
    ensures forall u: nat | u != t && PcOk(PcOf(s.threads, u), s.blocks) :: PcOk(PcOf(s.threads, u), bs')
  {
    Alone(s, t, b);
    forall u: nat | u != t && PcOk(PcOf(s.threads, u), s.blocks) ensures PcOk(PcOf(s.threads, u), bs') {
      assert !WriteHolds(PcOf(s.threads, u), b) && !ReadHolds(PcOf(s.threads, u), b);
    }
  }

  lemma PublishKeepsInv(s: State, t: nat, b: nat)
    requires Inv(s) && PcOf(s.threads, t).UnlockWrite? && PcOf(s.threads, t).b == b
    ensures Inv(Goto(Publish(s, b), t, Idle))
  {
    Alone(s, t, b);
    Moved(s.threads, t, Idle, b);
    BlocksKept(s, t, Idle, b, At(Publish(s, b).blocks, b));
    OthersUnmoved(s, t, b, Publish(s, b).blocks);
    PcsKept(s.threads, s.blocks, t, Idle, Publish(s, b).blocks);
  }

  /** A reader's word is the published one. */
  lemma ReadKeepsInv(s: State, t: nat, pos: nat)
    requires Inv(s) && PcOf(s.threads, t).Reading?
    ensures var pc := PcOf(s.threads, t);
      Inv(Goto(s, t, Reading(pc.b, pc.got[pos := Content(At(s.blocks, pc.b).buf, pos)])))
  {
    var pc := PcOf(s.threads, t);
    ReaderCounted(s, t, pc.b);
    assert BlockOk(At(s.blocks, pc.b), s.threads, pc.b) && PcOk(pc, s.blocks);
    MoveKeepsInv(s, t, Reading(pc.b, pc.got[pos := Content(At(s.blocks, pc.b).buf, pos)]));
  }

  lemma HolderKeepsInv(s: State, a: Action)
    requires s.blockNum > 0 && Inv(s)
    requires PcOf(s.threads, a.t).Writing? || PcOf(s.threads, a.t).Reading?
    ensures Inv(Step(s, a))
  {
    var pc := PcOf(s.threads, a.t);
    assert PcOk(pc, s.blocks);
    if pc.Writing? {
      Alone(s, a.t, pc.b);
      if a.release {
        MoveKeepsInv(s, a.t, UnlockWrite(pc.b, pc.put));
      } else {
        StoreKeepsInv(s, a.t, pc.b, a.pos, a.word);
      }
    } else {
      ReaderCounted(s, a.t, pc.b);
      if a.release {
        MoveKeepsInv(s, a.t, UnlockRead(pc.b));
      } else {
        ReadKeepsInv(s, a.t, a.pos);
      }
    }
  }

  /** The next step is on a lock number. */
  predicate AtLock(pc: Pc) {
    pc.TryWrite? || pc.RetryWrite? || pc.ReadCas? || pc.UnlockRead? || pc.UnlockWrite?
  }

  lemma LockStepKeepsInv(s: State, a: Action)
    requires s.blockNum > 0 && Inv(s) && AtLock(PcOf(s.threads, a.t))
    ensures Inv(Step(s, a))
  {
    match PcOf(s.threads, a.t)
    case UnlockRead(b) => ReadUnlockKeepsInv(s, a.t, b);
    case UnlockWrite(b, _) => PublishKeepsInv(s, a.t, b);
    case _ => TryStepKeepsInv(s, a);
  }

  lemma TryStepKeepsInv(s: State, a: Action)
    requires s.blockNum > 0 && Inv(s)
    requires var pc := PcOf(s.threads, a.t); pc.TryWrite? || pc.RetryWrite? || pc.ReadCas?
    ensures Inv(Step(s, a))
  {
    match PcOf(s.threads, a.t)
    case TryWrite(b) => if Free(s, b, a) { WriteLockKeepsInv(s, a.t, b); } else { MoveKeepsInv(s, a.t, AskWrite(b)); }
    case RetryWrite(b) => if Free(s, b, a) { WriteLockKeepsInv(s, a.t, b); } else { MoveKeepsInv(s, a.t, Scan); }
    case ReadCas(b, _, _, n) =>
      if At(s.blocks, b).lockNum == n && !a.weak {
        ReadLockKeepsInv(s, a.t, b);
      } else {
        MoveKeepsInv(s, a.t, PcOf(Step(s, a).threads, a.t));
      }
  }

  /** Steps that touch no block. */
  lemma QuietStepKeepsInv(s: State, a: Action)
    requires s.blockNum > 0 && Inv(s)
    requires var pc := PcOf(s.threads, a.t);
      pc.Scan? || pc.AskWrite? || pc.ReadLoad? || pc.ReadFailed? || pc.Insert?
    ensures Inv(Step(s, a))
  {
    match PcOf(s.threads, a.t)
    case Scan => MoveKeepsInv(s, a.t, TryWrite(s.ticket % s.blockNum));
    case AskWrite(b) => MoveKeepsInv(s, a.t, if a.yes then Scan else RetryWrite(b));
    case ReadLoad(b, tries, again) =>
      var n := At(s.blocks, b).lockNum;
      MoveKeepsInv(s, a.t, if n < RW_LOCK_FREE then ReadFailed(b, again) else ReadCas(b, tries, again, n));
    case ReadFailed(b, again) => MoveKeepsInv(s, a.t, if again || a.yes then Idle else ReadLoad(b, 0, true));
    case Insert(_, _, _) => MoveKeepsInv(s, a.t, PcOf(Step(s, a).threads, a.t));
  }

  /** Recording a process id touches nothing the invariant speaks of. */
  lemma RecordKeepsInv(s: State, a: Action)
    requires s.blockNum > 0 && Inv(s) && PcOf(s.threads, a.t).InsertCas?
    ensures Inv(Step(s, a))
  {
    var pc := PcOf(s.threads, a.t);
    var b, to := pc.b, PcOf(Step(s, a).threads, a.t);
    if PidAt(At(s.blocks, b).pids, pc.slot) == 0 {
      var block := At(SetPid(s, b, pc.slot, a).blocks, b);
      assert BlockOk(At(s.blocks, b), s.threads, b);
      SameHolders(s.threads, a.t, to, b);
      BlocksKept(s, a.t, to, b, block);
      PcsKept(s.threads, s.blocks, a.t, to, s.blocks[b := block]);
    } else {
      MoveKeepsInv(s, a.t, to);
    }
  }

  lemma StepKeepsInv(s: State, a: Action)
    requires s.blockNum > 0 && Inv(s)
    ensures Inv(Step(s, a))
  {
    var pc := PcOf(s.threads, a.t);
    if AtLock(pc) {
      LockStepKeepsInv(s, a);
    } else if pc.Writing? || pc.Reading? {
      HolderKeepsInv(s, a);
    } else if pc.Idle? {
      if a.write {
        MoveKeepsInv(s, a.t, Scan);
      } else if a.block < s.blockNum {
        MoveKeepsInv(s, a.t, ReadLoad(a.block, 0, false));
      }
    } else if pc.InsertCas? {
      RecordKeepsInv(s, a);
    } else if !pc.Stranded? {
      QuietStepKeepsInv(s, a);
    }
  }

  lemma {:induction false} RunInv(blockNum: nat, schedule: seq<Action>)
    requires blockNum > 0
    ensures Inv(Execute(blockNum, schedule))
  {
    if schedule != [] {
      RunInv(blockNum, schedule[..|schedule| - 1]);
      StepKeepsInv(Execute(blockNum, schedule[..|schedule| - 1]), schedule[|schedule| - 1]);
    }
  }

  // ---------------------------------------------------------------- over whole runs

  /** In every run each block's lock number is -1 exactly while one writer and no reader holds
      the block, and otherwise counts its readers. */
  lemma ExclusionOverRuns(blockNum: nat, schedule: seq<Action>, b: nat)
    requires blockNum > 0
    ensures var s := Execute(blockNum, schedule);
      var (n, readers, writers) := (At(s.blocks, b).lockNum, Readers(s.threads, b), Writers(s.threads, b));
      && (n == WRITE_EXCLUSIVE <==> |writers| == 1 && readers == {})
      && (n != WRITE_EXCLUSIVE ==> n == |readers| && writers == {})
  {
    RunInv(blockNum, schedule);
    assert BlockOk(At(Execute(blockNum, schedule).blocks, b), Execute(blockNum, schedule).threads, b);
  }

  /** No torn reads: in every run, all the words a reader has read since it locked the block
      come from one release of the block; and all the words a writer has stored since it locked
      the block are still there. */
  lemma SnapshotOverRuns(blockNum: nat, schedule: seq<Action>, t: nat)
    requires blockNum > 0
    ensures var s := Execute(blockNum, schedule);
      match PcOf(s.threads, t)
      case Reading(b, got) =>
        && At(s.blocks, b).buf == At(s.blocks, b).published
        && (forall p | p in got :: got[p] == Content(At(s.blocks, b).published, p))
      case Writing(b, put) => forall p | p in put :: Content(At(s.blocks, b).buf, p) == Some(put[p])
      case _ => true
  {
    RunInv(blockNum, schedule);
    var s := Execute(blockNum, schedule);
    assert PcOk(PcOf(s.threads, t), s.blocks);
    if PcOf(s.threads, t).Reading? {
      ReaderCounted(s, t, PcOf(s.threads, t).b);
      assert BlockOk(At(s.blocks, PcOf(s.threads, t).b), s.threads, PcOf(s.threads, t).b);
    }
  }

  /** The step changes the block's published contents only by releasing it, and then to hold
      every word its writer stored; if anybody holds the block for reading, the step changes
      nothing in it. */
  ghost predicate ReleasesOnly(s: State, a: Action, b: nat)
    requires s.blockNum > 0
  {
    var (block, block', pc) := (At(s.blocks, b), At(Step(s, a).blocks, b), PcOf(s.threads, a.t));
    && (if pc.UnlockWrite? && pc.b == b
        then forall p | p in pc.put :: Content(block'.published, p) == Some(pc.put[p])
        else block'.published == block.published)
    && (Readers(s.threads, b) != {} ==> block'.buf == block.buf && block'.published == block.published)
  }

  lemma StepReleasesOnly(s: State, a: Action, b: nat)
    requires s.blockNum > 0 && Inv(s)
    ensures ReleasesOnly(s, a, b)
  {
    assert PcOk(PcOf(s.threads, a.t), s.blocks);
    if WriteHolds(PcOf(s.threads, a.t), b) {
      Alone(s, a.t, b);
    }
  }

  /** In every run, what readers of a block see changes only when its writer releases it. */
  lemma PublishedByRelease(blockNum: nat, schedule: seq<Action>, a: Action, b: nat)
    requires blockNum > 0
    ensures ReleasesOnly(Execute(blockNum, schedule), a, b)
  {
    RunInv(blockNum, schedule);
    StepReleasesOnly(Execute(blockNum, schedule), a, b);
  }

  // ---------------------------------------------------------------- refused callers

  /** What thread program point `pc` adds to the lock number of block `b`. */
  function Share(pc: Pc, b: nat): int {
    if WriteHolds(pc, b) then -1 else if ReadHolds(pc, b) then 1 else 0
  }

  /** The sum of the changes that the thread's own steps have made to the block's lock number. */
  function Contribution(blockNum: nat, schedule: seq<Action>, t: nat, b: nat): int
    requires blockNum > 0
  {
    if schedule == [] then 0
    else
      var before, a := schedule[..|schedule| - 1], schedule[|schedule| - 1];
      var s := Execute(blockNum, before);
      Contribution(blockNum, before, t, b) +
      if a.t == t then At(Step(s, a).blocks, b).lockNum - At(s.blocks, b).lockNum else 0
  }

  lemma LockStepShares(s: State, a: Action, b: nat)
    requires s.blockNum > 0 && AtLock(PcOf(s.threads, a.t))
    ensures At(Step(s, a).blocks, b).lockNum - At(s.blocks, b).lockNum ==
            Share(PcOf(Step(s, a).threads, a.t), b) - Share(PcOf(s.threads, a.t), b)
  {
  }

  lemma OtherStepShares(s: State, a: Action, b: nat)
    requires s.blockNum > 0 && !AtLock(PcOf(s.threads, a.t))
    requires WriteHolds(PcOf(s.threads, a.t), b) ==> At(s.blocks, b).lockNum < 0
    requires ReadHolds(PcOf(s.threads, a.t), b) ==> At(s.blocks, b).lockNum > 0
    ensures At(Step(s, a).blocks, b).lockNum == At(s.blocks, b).lockNum
    ensures Share(PcOf(Step(s, a).threads, a.t), b) == Share(PcOf(s.threads, a.t), b)
  {
  }

  lemma StepShares(s: State, a: Action, b: nat)
    requires s.blockNum > 0 && Inv(s)
    ensures At(Step(s, a).blocks, b).lockNum - At(s.blocks, b).lockNum ==
            Share(PcOf(Step(s, a).threads, a.t), b) - Share(PcOf(s.threads, a.t), b)
  {
    var pc := PcOf(s.threads, a.t);
    if AtLock(pc) {
      LockStepShares(s, a, b);
    } else {
      if WriteHolds(pc, b) {
        Alone(s, a.t, b);
      } else if ReadHolds(pc, b) {
        ReaderCounted(s, a.t, b);
      }
      OtherStepShares(s, a, b);
    }
  }

  lemma StepMovesOne(s: State, a: Action, u: nat)
    requires s.blockNum > 0 && u != a.t
    ensures PcOf(Step(s, a).threads, u) == PcOf(s.threads, u)
  {
    if AtLock(PcOf(s.threads, a.t)) {
      LockStepMovesOne(s, a, u);
    } else {
      OtherStepMovesOne(s, a, u);
    }
  }

  lemma LockStepMovesOne(s: State, a: Action, u: nat)
    requires s.blockNum > 0 && u != a.t && AtLock(PcOf(s.threads, a.t))
    ensures PcOf(Step(s, a).threads, u) == PcOf(s.threads, u)
  {
  }

  lemma OtherStepMovesOne(s: State, a: Action, u: nat)
    requires s.blockNum > 0 && u != a.t && !AtLock(PcOf(s.threads, a.t))
    ensures PcOf(Step(s, a).threads, u) == PcOf(s.threads, u)
  {
  }

  /** In every run a thread has changed a block's lock number by exactly what it holds of it,
      so every call of its that has returned holding nothing has undone what it did. */
  lemma {:induction false} ContributionIsShare(blockNum: nat, schedule: seq<Action>, t: nat, b: nat)
    requires blockNum > 0
    ensures Contribution(blockNum, schedule, t, b) == Share(PcOf(Execute(blockNum, schedule).threads, t), b)
  {
    if schedule != [] {
      var before, a := schedule[..|schedule| - 1], schedule[|schedule| - 1];
      ContributionIsShare(blockNum, before, t, b);
      RunInv(blockNum, before);
      if a.t == t {
        StepShares(Execute(blockNum, before), a, b);
      } else {
        StepMovesOne(Execute(blockNum, before), a, t);
      }
    }
  }

  /** The step makes AcquireBlockToWrite or AcquireBlockToRead return false. */
  predicate Refuses(s: State, a: Action)
    requires s.blockNum > 0
  {
    match PcOf(s.threads, a.t)
    case Idle => !a.write && a.block >= s.blockNum
    case ReadFailed(_, again) => again || a.yes
    case Insert(_, _, _) => PcOf(Step(s, a).threads, a.t).Stranded?
    case InsertCas(_, _, _) => PcOf(Step(s, a).threads, a.t).Stranded?
    case _ => false
  }

  /** The call has not won a lock yet. */
  predicate BeforeCas(pc: Pc) {
    pc.Idle? || pc.ReadFailed?
  }

  /** Thread `t` has, on balance, left every lock number as it found it. */
  ghost predicate Balanced(blockNum: nat, schedule: seq<Action>, t: nat)
    requires blockNum > 0
  {
    forall b: nat :: Net(blockNum, schedule, t, b) == 0
  }

  function Net(blockNum: nat, schedule: seq<Action>, t: nat, b: nat): int
    requires blockNum > 0
  {
    Contribution(blockNum, schedule, t, b)
  }

  lemma BalancedIsHoldingNothing(blockNum: nat, schedule: seq<Action>, t: nat)
    requires blockNum > 0
    ensures Balanced(blockNum, schedule, t) <==> HoldsNothing(PcOf(Execute(blockNum, schedule).threads, t))
  {
    var pc := PcOf(Execute(blockNum, schedule).threads, t);
    forall b: nat
      ensures Net(blockNum, schedule, t, b) == Share(pc, b)
    {
      ContributionIsShare(blockNum, schedule, t, b);
    }
    if b: nat :| Share(pc, b) != 0 {
      assert Net(blockNum, schedule, t, b) != 0;
    }
  }

  ghost predicate HoldsNothing(pc: Pc) {
    forall b: nat :: Share(pc, b) == 0
  }

  /** A refused call leaves every lock number as it found it if and only if it was refused
      before its compare-and-swap succeeded. */
  lemma RefusedCleanlyExactly(blockNum: nat, schedule: seq<Action>, a: Action)
    requires blockNum > 0 && Refuses(Execute(blockNum, schedule), a)
    ensures Balanced(blockNum, schedule + [a], a.t) <==> BeforeCas(PcOf(Execute(blockNum, schedule).threads, a.t))
  {
    ExecuteMore(blockNum, schedule, a);
    BalancedIsHoldingNothing(blockNum, schedule + [a], a.t);
    RefusedShare(Execute(blockNum, schedule), a);
  }

  lemma RefusedShare(s: State, a: Action)
    requires s.blockNum > 0 && Refuses(s, a)
    ensures HoldsNothing(PcOf(Step(s, a).threads, a.t)) <==> BeforeCas(PcOf(s.threads, a.t))
  {
    var pc := PcOf(s.threads, a.t);
    if !BeforeCas(pc) {
      assert Share(PcOf(Step(s, a).threads, a.t), pc.b) != 0;
    }
  }

  lemma ExecuteMore(blockNum: nat, schedule: seq<Action>, a: Action)
    requires blockNum > 0
    ensures Execute(blockNum, schedule + [a]) == Step(Execute(blockNum, schedule), a)
  {
    assert (schedule + [a])[..|schedule|] == schedule;
  }

  /** The state after `more` steps from `s`. */
  function After(s: State, more: seq<Action>): State
    requires s.blockNum > 0
    decreases |more|
  {
    if more == [] then s else After(Step(s, more[0]), more[1..])
  }

  /** Thread `t` has been refused and keeps block `b`: nobody else ever has it for writing, nor
      for reading if `t` wrote, and its contents stay as they are. */
  ghost predicate Lost(s: State, t: nat, b: nat, write: bool, block: Block) {
    && PcOf(s.threads, t) == Stranded(b, write)
    && At(s.blocks, b).buf == block.buf && At(s.blocks, b).published == block.published
    && (if write then
          && At(s.blocks, b).lockNum == WRITE_EXCLUSIVE
          && Writers(s.threads, b) == {t} && Readers(s.threads, b) == {}
        else At(s.blocks, b).lockNum > 0 && Writers(s.threads, b) == {} && t in Readers(s.threads, b))
  }

  lemma StrandedLoses(s: State, t: nat, b: nat, write: bool)
    requires Inv(s) && PcOf(s.threads, t) == Stranded(b, write)
    ensures Lost(s, t, b, write, At(s.blocks, b))
  {
    Moved(s.threads, t, Stranded(b, write), b);
    if write {
      Alone(s, t, b);
    } else {
      ReaderCounted(s, t, b);
    }
  }

  lemma LostStep(s: State, a: Action, t: nat, b: nat, write: bool, block: Block)
    requires s.blockNum > 0 && Inv(s) && Lost(s, t, b, write, block)
    ensures Lost(Step(s, a), t, b, write, block)
  {
    var s' := Step(s, a);
    StepKeepsInv(s, a);
    if a.t != t {
      StepMovesOne(s, a, t);
      Moved(s.threads, a.t, PcOf(s.threads, a.t), b);
      OnlyWriterChanges(s, a, b);
    }
    StrandedLoses(s', t, b, write);
  }

  /** The step leaves the block's contents alone. */
  ghost predicate SameContents(s: State, a: Action, b: nat)
    requires s.blockNum > 0
  {
    var (block, block') := (At(s.blocks, b), At(Step(s, a).blocks, b));
    block'.buf == block.buf && block'.published == block.published
  }

  /** A thread that does not hold the block for writing leaves its contents alone. */
  lemma OnlyWriterChanges(s: State, a: Action, b: nat)
    requires s.blockNum > 0 && !WriteHolds(PcOf(s.threads, a.t), b)
    ensures SameContents(s, a, b)
  {
    if AtLock(PcOf(s.threads, a.t)) {
      LockStepKeepsContents(s, a, b);
    } else {
      OtherStepKeepsContents(s, a, b);
    }
  }

  lemma LockStepKeepsContents(s: State, a: Action, b: nat)
    requires s.blockNum > 0 && !WriteHolds(PcOf(s.threads, a.t), b) && AtLock(PcOf(s.threads, a.t))
    ensures SameContents(s, a, b)
  {
  }

  lemma OtherStepKeepsContents(s: State, a: Action, b: nat)
    requires s.blockNum > 0 && !WriteHolds(PcOf(s.threads, a.t), b) && !AtLock(PcOf(s.threads, a.t))
    ensures SameContents(s, a, b)
  {
  }

  lemma {:induction false} LostFrom(s: State, t: nat, b: nat, write: bool, block: Block, more: seq<Action>)
    requires s.blockNum > 0 && Inv(s) && Lost(s, t, b, write, block)
    ensures Lost(After(s, more), t, b, write, block)
    decreases |more|
  {
    if more != [] {
      StepKeepsInv(s, more[0]);
      LostStep(s, more[0], t, b, write, block);
      LostFrom(Step(s, more[0]), t, b, write, block, more[1..]);
    }
  }

  /** A caller refused after its compare-and-swap takes the block out of use: however the run
      goes on, the block is never locked for writing again, nor for reading if the caller meant
      to write, and what it holds never changes. */
  lemma StrandedForGood(blockNum: nat, schedule: seq<Action>, t: nat, b: nat, write: bool, more: seq<Action>)
    requires blockNum > 0 && PcOf(Execute(blockNum, schedule).threads, t) == Stranded(b, write)
    ensures var s := Execute(blockNum, schedule);
      Lost(After(s, more), t, b, write, At(s.blocks, b))
  {
    var s := Execute(blockNum, schedule);
    RunInv(blockNum, schedule);
    StrandedLoses(s, t, b, write);
    LostFrom(s, t, b, write, At(s.blocks, b), more);
  }

  // ---------------------------------------------------------------- a caller that is stranded

  /** Some schedule leads to `s` in which every thread is a process of its own. */
  ghost predicate Reachable(blockNum: nat, s: State)
    requires blockNum > 0
  {
    exists schedule: seq<Action> :: OwnPids(schedule) && Execute(blockNum, schedule) == s
  }

  predicate OwnPids(schedule: seq<Action>) {
    forall i | 0 <= i < |schedule| :: schedule[i].pid == schedule[i].t + 1
  }

  lemma ReachStep(blockNum: nat, s: State, a: Action)
    requires blockNum > 0 && Reachable(blockNum, s) && a.pid == a.t + 1
    ensures s.blockNum == blockNum && Reachable(blockNum, Step(s, a))
  {
    var schedule :| OwnPids(schedule) && Execute(blockNum, schedule) == s;
    ExecuteMore(blockNum, schedule, a);
    assert OwnPids(schedule + [a]);
  }

  /** The slots below `k` hold the process ids 1 to `k`, the others are empty. */
  ghost predicate SlotsFilled(pids: map<nat, nat>, k: nat) {
    forall i: nat :: PidAt(pids, i) == if i < k then i + 1 else 0
  }

  /** Only thread `t` has moved, to `pc`, and no ticket was taken. */
  ghost predicate OnlyMoved(s: State, s': State, t: nat, pc: Pc) {
    && s'.ticket == s.ticket && PcOf(s'.threads, t) == pc
    && forall u: nat | u != t :: PcOf(s'.threads, u) == PcOf(s.threads, u)
  }

  /** Thread `t` of process `t + 1` goes through slots that other processes have. */
  lemma {:induction false} ProbeUp(
    blockNum: nat, s: State, t: nat, b: nat, write: bool, slot: nat, last: nat, word: Word)
    returns (s': State)
    requires blockNum > 0 && Reachable(blockNum, s) && SlotsFilled(At(s.blocks, b).pids, t)
    requires slot <= last <= t && last < MAX_PROCESS_NUM && PcOf(s.threads, t) == Insert(b, write, slot)
    ensures Reachable(blockNum, s') && s'.blocks == s.blocks
    ensures OnlyMoved(s, s', t, Insert(b, write, last))
    decreases last - slot
  {
    s' := s;
    if slot < last {
      var a := Action(t, t + 1, false, 0, false, false, false, 0, word);
      ReachStep(blockNum, s, a);
      assert PidAt(At(s.blocks, b).pids, slot) == slot + 1;
      var s1 := Step(s, a);
      assert s1 == Goto(s, t, Insert(b, write, slot + 1));
      s' := ProbeUp(blockNum, s1, t, b, write, slot + 1, last, word);
    }
  }

  /** Block `b` is free, the first `k` processes are on record, and nobody is in a call. */
  ghost predicate Used(s: State, b: nat, k: nat) {
    && At(s.blocks, b).lockNum == RW_LOCK_FREE && SlotsFilled(At(s.blocks, b).pids, k)
    && s.ticket == 0 && forall t: nat :: PcOf(s.threads, t) == Idle
  }

  /** Thread `t` wins the free block for reading ... */
  lemma BeginRead(blockNum: nat, s: State, b: nat, t: nat, word: Word) returns (s': State)
    requires b < blockNum && Reachable(blockNum, s)
    requires At(s.blocks, b).lockNum == RW_LOCK_FREE && PcOf(s.threads, t) == Idle
    ensures Reachable(blockNum, s') && OnlyMoved(s, s', t, Insert(b, false, 0))
    ensures At(s'.blocks, b) == At(s.blocks, b).(lockNum := 1)
  {
    var a := Action(t, t + 1, false, b, false, false, false, 0, word);
    ReachStep(blockNum, s, a);
    var s1 := Step(s, a);
    assert s1 == Goto(s, t, ReadLoad(b, 0, false));
    ReachStep(blockNum, s1, a);
    var s2 := Step(s1, a);
    assert PcOf(s2.threads, t) == ReadCas(b, 0, false, 0) && s2.blocks == s.blocks;
    ReachStep(blockNum, s2, a);
    s' := Step(s2, a);
  }

  /** ... or, as the first writer, for writing. */
  lemma BeginWrite(blockNum: nat, s: State, t: nat, word: Word) returns (s': State)
    requires blockNum > 0 && Reachable(blockNum, s) && s.ticket == 0
    requires At(s.blocks, 0).lockNum == RW_LOCK_FREE && PcOf(s.threads, t) == Idle
    ensures Reachable(blockNum, s') && PcOf(s'.threads, t) == Insert(0, true, 0)
    ensures At(s'.blocks, 0).pids == At(s.blocks, 0).pids
  {
    var a := Action(t, t + 1, true, 0, false, false, false, 0, word);
    ReachStep(blockNum, s, a);
    var s1 := Step(s, a);
    assert s1 == Goto(s, t, Scan);
    ReachStep(blockNum, s1, a);
    var s2 := Step(s1, a);
    assert PcOf(s2.threads, t) == TryWrite(0) && s2.blocks == s.blocks;
    ReachStep(blockNum, s2, a);
    s' := Step(s2, a);
  }

  /** Thread `t`, at an empty slot, records its process ... */
  lemma Record(blockNum: nat, s: State, b: nat, t: nat, word: Word) returns (s': State)
    requires blockNum > 0 && Reachable(blockNum, s) && PcOf(s.threads, t) == Insert(b, false, t)
    requires SlotsFilled(At(s.blocks, b).pids, t)
    ensures Reachable(blockNum, s') && OnlyMoved(s, s', t, Reading(b, map[]))
    ensures At(s'.blocks, b).lockNum == At(s.blocks, b).lockNum && SlotsFilled(At(s'.blocks, b).pids, t + 1)
  {
    var a := Action(t, t + 1, false, 0, false, false, false, 0, word);
    ReachStep(blockNum, s, a);
    assert PidAt(At(s.blocks, b).pids, t) == 0;
    var s1 := Step(s, a);
    assert s1 == Goto(s, t, InsertCas(b, false, t));
    ReachStep(blockNum, s1, a);
    s' := Step(s1, a);
    OneSlotMore(At(s.blocks, b).pids, t);
  }

  lemma OneSlotMore(pids: map<nat, nat>, k: nat)
    requires SlotsFilled(pids, k)
    ensures SlotsFilled(pids[k := k + 1], k + 1)
  {
    var pids' := pids[k := k + 1];
    forall i: nat ensures PidAt(pids', i) == if i < k + 1 then i + 1 else 0 {
      assert PidAt(pids, i) == if i < k then i + 1 else 0;
    }
  }

  /** ... and leaves the block. */
  lemma Leave(blockNum: nat, s: State, b: nat, t: nat, word: Word) returns (s': State)
    requires blockNum > 0 && Reachable(blockNum, s) && PcOf(s.threads, t) == Reading(b, map[])
    requires At(s.blocks, b).lockNum == 1
    ensures Reachable(blockNum, s') && OnlyMoved(s, s', t, Idle)
    ensures At(s'.blocks, b) == At(s.blocks, b).(lockNum := RW_LOCK_FREE)
  {
    var a := Action(t, t + 1, false, 0, false, false, true, 0, word);
    ReachStep(blockNum, s, a);
    var s1 := Step(s, a);
    assert s1 == Goto(s, t, UnlockRead(b));
    ReachStep(blockNum, s1, a);
    s' := Step(s1, a);
  }

  /** `k` processes, one after another, acquire the block to read and release it. */
  lemma {:induction false} UsedBy(blockNum: nat, b: nat, k: nat, word: Word) returns (s: State)
    requires b < blockNum && k <= MAX_PROCESS_NUM
    ensures Reachable(blockNum, s) && Used(s, b, k)
  {
    if k == 0 {
      s := Init(blockNum);
      assert OwnPids([]) && Execute(blockNum, []) == s;
    } else {
      s := UsedBy(blockNum, b, k - 1, word);
      s := UseOnce(blockNum, s, b, k - 1, word);
    }
  }

  lemma UseOnce(blockNum: nat, s: State, b: nat, t: nat, word: Word) returns (s': State)
    requires b < blockNum && t < MAX_PROCESS_NUM && Reachable(blockNum, s) && Used(s, b, t)
    ensures Reachable(blockNum, s') && Used(s', b, t + 1)
  {
    s' := BeginRead(blockNum, s, b, t, word);
    s' := ProbeUp(blockNum, s', t, b, false, 0, t, word);
    s' := Record(blockNum, s', b, t, word);
    s' := Leave(blockNum, s', b, t, word);
  }

  /** A process that finds all slots taken by others is refused with the lock held. */
  lemma Refused(blockNum: nat, s: State, b: nat, write: bool, word: Word) returns (s': State)
    requires blockNum > 0 && Reachable(blockNum, s) && SlotsFilled(At(s.blocks, b).pids, MAX_PROCESS_NUM)
    requires PcOf(s.threads, MAX_PROCESS_NUM) == Insert(b, write, 0)
    ensures Reachable(blockNum, s') && PcOf(s'.threads, MAX_PROCESS_NUM) == Stranded(b, write)
  {
    var t := MAX_PROCESS_NUM;
    s' := ProbeUp(blockNum, s, t, b, write, 0, t - 1, word);
    var a := Action(t, t + 1, false, 0, false, false, false, 0, word);
    ReachStep(blockNum, s', a);
    assert PidAt(At(s'.blocks, b).pids, t - 1) == t;
    s' := Step(s', a);
  }

  /** It does happen: once 64 processes have used a block, although all of them have released
      it, the next process is refused with the lock held, whether it wants to read the block or,
      as the first writer, to write it. */
  lemma StrandedReachable(blockNum: nat, b: nat, write: bool, word: Word) returns (s: State)
    requires b < blockNum && (write ==> b == 0)
    ensures Reachable(blockNum, s) && PcOf(s.threads, MAX_PROCESS_NUM) == Stranded(b, write)
  {
    s := UsedBy(blockNum, b, MAX_PROCESS_NUM, word);
    if write {
      s := BeginWrite(blockNum, s, MAX_PROCESS_NUM, word);
    } else {
      s := BeginRead(blockNum, s, b, MAX_PROCESS_NUM, word);
    }
    s := Refused(blockNum, s, b, write, word);
  }
}
