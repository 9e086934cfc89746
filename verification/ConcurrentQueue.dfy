/**
 BoundedQueue under any number of concurrent callers of Enqueue and Dequeue.

 One step is one atomic load, store or compare-and-swap of one thread together with the
 local computation that follows it.  A schedule is any sequence of actions; every schedule
 is a run.  The counters are unbounded: a run shorter than 2^64 operations is assumed.
 */
module ConcurrentQueue {
  import opened Ring

  type Value(!new)

  /** Where a thread stands inside Enqueue or Dequeue, with its local variables. */
  datatype Pc =
    | Idle
    | EnqTail(v: Value, oldTail: nat)     // tail_ loaded, head_ to be loaded next
    | EnqChecked(v: Value, oldTail: nat)  // room was seen, CAS on tail_ next
    | EnqClaimed(v: Value, ticket: nat)   // ticket won, slot to be written next
    | EnqWritten(v: Value, ticket: nat)   // slot written, CAS on commit_ next
    | DeqHead(oldHead: nat)               // head_ loaded, commit_ to be loaded next
    | DeqChecked(oldHead: nat)            // an element was seen, slot to be copied next
    | DeqCopied(oldHead: nat, v: Value)   // slot copied, CAS on head_ next

  datatype State = State(
    head: nat, tail: nat, commit: nat, pool: seq<Value>, threads: map<nat, Pc>)

  datatype Call = Enqueue(v: Value) | Dequeue

  /** Thread `t` takes its next step; `call` is what it starts if it is idle, and
      `weak` makes a compare_exchange_weak fail although the comparison holds. */
  datatype Action = Action(t: nat, call: Call, weak: bool)

  datatype Event =
    | Silent
    | Claim(v: Value)     // successful CAS on tail_
    | Publish(v: Value)   // successful CAS on commit_; Enqueue returns true
    | Full(oldTail: nat)  // Enqueue returns false
    | Take(v: Value)      // successful CAS on head_; Dequeue returns true
    | Empty               // Dequeue returns false

  function PcOf(s: State, t: nat): Pc {
    if t in s.threads then s.threads[t] else Idle
  }

  function Init(size: nat, blank: Value): State {
    State(0, 1, 1, seq(size + 2, _ => blank), map[])
  }

  function Goto(s: State, t: nat, pc: Pc): State {
    s.(threads := s.threads[t := pc])
  }

  function Step(s: State, a: Action): (State, Event)
    requires |s.pool| > 0
  {
    match PcOf(s, a.t)
    case Idle =>
      (match a.call
       case Enqueue(v) => (Goto(s, a.t, EnqTail(v, s.tail)), Silent)
       case Dequeue => (Goto(s, a.t, DeqHead(s.head)), Silent))
    case EnqTail(v, oldTail) =>
      if Index(oldTail + 1, |s.pool|) == Index(s.head, |s.pool|)
      then (Goto(s, a.t, Idle), Full(oldTail))
      else (Goto(s, a.t, EnqChecked(v, oldTail)), Silent)
    case EnqChecked(v, oldTail) =>
      if s.tail == oldTail && !a.weak
      then (Goto(s.(tail := oldTail + 1), a.t, EnqClaimed(v, oldTail)), Claim(v))
      else (Goto(s, a.t, EnqTail(v, s.tail)), Silent)
    case EnqClaimed(v, ticket) =>
      (Goto(s.(pool := s.pool[Index(ticket, |s.pool|) := v]), a.t, EnqWritten(v, ticket)), Silent)
    case EnqWritten(v, ticket) =>
      if s.commit == ticket && !a.weak
      then (Goto(s.(commit := ticket + 1), a.t, Idle), Publish(v))
      else (s, Silent)
    case DeqHead(oldHead) =>
      if oldHead + 1 == s.commit
      then (Goto(s, a.t, Idle), Empty)
      else (Goto(s, a.t, DeqChecked(oldHead)), Silent)
    case DeqChecked(oldHead) =>
      (Goto(s, a.t, DeqCopied(oldHead, s.pool[Index(oldHead + 1, |s.pool|)])), Silent)
    case DeqCopied(oldHead, v) =>
      if s.head == oldHead && !a.weak
      then (Goto(s.(head := oldHead + 1), a.t, Idle), Take(v))
      else (Goto(s, a.t, DeqHead(s.head)), Silent)
  }

  /** The state after a schedule, and the values of its successful CASes on tail_, commit_
      and head_, each in the order in which they happened. */
  datatype Run = Run(s: State, claimed: seq<Value>, published: seq<Value>, taken: seq<Value>)

  function Record(r: Run, a: Action): Run
    requires |r.s.pool| > 0
  {
    var (s, e) := Step(r.s, a);
    Run(s,
        if e.Claim? then r.claimed + [e.v] else r.claimed,
        if e.Publish? then r.published + [e.v] else r.published,
        if e.Take? then r.taken + [e.v] else r.taken)
  }

  function Execute(size: nat, blank: Value, schedule: seq<Action>): (r: Run)
    ensures |r.s.pool| == size + 2
  {
    if schedule == [] then Run(Init(size, blank), [], [], [])
    else Record(Execute(size, blank, schedule[..|schedule| - 1]), schedule[|schedule| - 1])
  }

  // ---------------------------------------------------------------- invariant

  /** Thread `t` won ticket `k` and has not yet published it. */
  predicate Holds(s: State, t: nat, k: nat) {
    var pc := PcOf(s, t);
    (pc.EnqClaimed? || pc.EnqWritten?) && pc.ticket == k
  }

  ghost predicate HasOwner(s: State, k: nat) {
    exists t: nat :: Holds(s, t, k)
  }

  predicate Counters(s: State) {
    s.head + 1 <= s.commit <= s.tail <= s.head + |s.pool| - 1
  }

  ghost predicate Owners(s: State) {
    && (forall t: nat, k: nat :: Holds(s, t, k) ==> s.commit <= k < s.tail)
    && (forall t: nat, u: nat, k: nat :: Holds(s, t, k) && Holds(s, u, k) ==> t == u)
    && (forall k: nat :: s.commit <= k < s.tail ==> HasOwner(s, k))
  }

  ghost predicate Slots(r: Run)
    requires |r.s.pool| > 0
  {
    forall k: nat {:trigger Index(k, |r.s.pool|)} :: r.s.head < k < r.s.commit ==>
      k <= |r.claimed| && r.s.pool[Index(k, |r.s.pool|)] == r.claimed[k - 1]
  }

  /** What a thread may rely on at each program point. */
  ghost predicate Knows(r: Run, pc: Pc)
    requires |r.s.pool| > 0
  {
    var s := r.s;
    match pc
    case Idle => true
    case EnqTail(v, oldTail) => oldTail <= s.tail
    case EnqChecked(v, oldTail) =>
      oldTail <= s.tail && (oldTail == s.tail ==> s.tail + 1 <= s.head + |s.pool| - 1)
    case EnqClaimed(v, k) => 0 < k <= |r.claimed| && r.claimed[k - 1] == v
    case EnqWritten(v, k) =>
      0 < k <= |r.claimed| && r.claimed[k - 1] == v && s.pool[Index(k, |s.pool|)] == v
    case DeqHead(h) => h <= s.head
    case DeqChecked(h) => h <= s.head && (h == s.head ==> h + 1 < s.commit)
    case DeqCopied(h, v) =>
      h <= s.head && (h == s.head ==> h + 1 < s.commit && h < |r.claimed| && r.claimed[h] == v)
  }

  ghost predicate Inv(r: Run) {
    && |r.s.pool| >= 2
    && Counters(r.s)
    && |r.claimed| == r.s.tail - 1
    && r.published == r.claimed[..r.s.commit - 1]
    && r.taken == r.claimed[..r.s.head]
    && Owners(r.s)
    && Slots(r)
    && (forall t: nat :: Knows(r, PcOf(r.s, t)))
  }

  lemma InitInv(size: nat, blank: Value)
    ensures Inv(Run(Init(size, blank), [], [], []))
  {
  }

  /** A step that moves thread `t` to `pc` without touching tickets or shared memory. */
  lemma MoveKeepsInv(r: Run, t: nat, pc: Pc)
    requires Inv(r)
    requires !PcOf(r.s, t).EnqClaimed? && !PcOf(r.s, t).EnqWritten?
    requires !pc.EnqClaimed? && !pc.EnqWritten? && Knows(r, pc)
    ensures Inv(r.(s := Goto(r.s, t, pc)))
  {
    var s' := Goto(r.s, t, pc);
    SameOwners(r.s, s');
    assert forall u: nat :: PcOf(s', u) == if u == t then pc else PcOf(r.s, u);
  }

  lemma SameOwners(s: State, s': State)
    requires Owners(s) && s'.commit == s.commit && s'.tail == s.tail
    requires forall u: nat, k: nat :: Holds(s', u, k) <==> Holds(s, u, k)
    ensures Owners(s')
  {
    forall k: nat | s.commit <= k < s.tail
      ensures HasOwner(s', k)
    {
      assert HasOwner(s, k);
      var u: nat :| Holds(s, u, k);
      assert Holds(s', u, k);
    }
  }

  lemma ClaimKeepsInv(r: Run, a: Action)
    requires Inv(r)
    requires PcOf(r.s, a.t).EnqChecked? && r.s.tail == PcOf(r.s, a.t).oldTail && !a.weak
    ensures Inv(Record(r, a))
  {
    var r' := Record(r, a);
    var s, s' := r.s, r'.s;
    assert Knows(r, PcOf(s, a.t));
    assert forall u: nat :: u != a.t ==> PcOf(s', u) == PcOf(s, u);
    assert forall u: nat, k: nat :: Holds(s', u, k) <==> (u == a.t && k == s.tail) || Holds(s, u, k);
    forall k: nat | s'.commit <= k < s'.tail
      ensures HasOwner(s', k)
    {
      if k == s.tail {
        assert Holds(s', a.t, k);
      } else {
        assert HasOwner(s, k);
        var u: nat :| Holds(s, u, k);
        assert Holds(s', u, k);
      }
    }
    forall u: nat
      ensures Knows(r', PcOf(s', u))
    {
      assert Knows(r, PcOf(s, u));
    }
  }

  /** Writing a claimed slot disturbs no other live ticket. */
  lemma WriteKeepsInv(r: Run, a: Action)
    requires Inv(r)
    requires PcOf(r.s, a.t).EnqClaimed?
    ensures Inv(Record(r, a))
  {
    var r' := Record(r, a);
    var s, s', n := r.s, r'.s, |r.s.pool|;
    var ticket := PcOf(s, a.t).ticket;
    assert Knows(r, PcOf(s, a.t)) && Holds(s, a.t, ticket);
    assert forall u: nat :: u != a.t ==> PcOf(s', u) == PcOf(s, u);
    SameOwners(s, s');
    forall k: nat | s.head < k < s.tail && k != ticket
      ensures Index(k, n) != Index(ticket, n)
    {
      CloseCounters(k, ticket, n);
    }
    forall u: nat
      ensures Knows(r', PcOf(s', u))
    {
      assert Knows(r, PcOf(s, u));
      if u != a.t && PcOf(s, u).EnqWritten? {
        assert Holds(s, u, PcOf(s, u).ticket);
      }
    }
  }

  lemma PublishKeepsOwners(s: State, s': State, t: nat)
    requires Owners(s) && Holds(s, t, s.commit)
    requires s'.commit == s.commit + 1 && s'.tail == s.tail
    requires forall u: nat, k: nat :: Holds(s', u, k) <==> u != t && Holds(s, u, k)
    ensures Owners(s')
  {
    forall k: nat | s'.commit <= k < s'.tail
      ensures HasOwner(s', k)
    {
      assert HasOwner(s, k);
      var u: nat :| Holds(s, u, k);
      assert u != t;
      assert Holds(s', u, k);
    }
    forall u: nat, k: nat | Holds(s', u, k)
      ensures s'.commit <= k
    {
      assert k != s.commit;
    }
  }

  lemma PublishKeepsInv(r: Run, a: Action)
    requires Inv(r)
    requires PcOf(r.s, a.t).EnqWritten? && r.s.commit == PcOf(r.s, a.t).ticket && !a.weak
    ensures Inv(Record(r, a))
  {
    var r' := Record(r, a);
    var s, s' := r.s, r'.s;
    assert Knows(r, PcOf(s, a.t)) && Holds(s, a.t, s.commit);
    assert Owners(s') by {
      PublishKeepsOwners(s, s', a.t);
    }
    assert Slots(r');
    forall u: nat
      ensures Knows(r', PcOf(s', u))
    {
      assert Knows(r, PcOf(s, u));
      assert PcOf(s', u) == if u == a.t then Idle else PcOf(s, u);
    }
  }

  lemma TakeKeepsInv(r: Run, a: Action)
    requires Inv(r)
    requires PcOf(r.s, a.t).DeqCopied? && r.s.head == PcOf(r.s, a.t).oldHead && !a.weak
    ensures Inv(Record(r, a))
  {
    var r' := Record(r, a);
    var s, s' := r.s, r'.s;
    assert Knows(r, PcOf(s, a.t));
    assert forall u: nat :: u != a.t ==> PcOf(s', u) == PcOf(s, u);
    SameOwners(s, s');
    forall u: nat
      ensures Knows(r', PcOf(s', u))
    {
      assert Knows(r, PcOf(s, u));
    }
  }

  lemma TailCheckKeepsInv(r: Run, a: Action)
    requires Inv(r)
    requires PcOf(r.s, a.t).EnqTail?
    ensures Inv(Record(r, a))
  {
    var s, n := r.s, |r.s.pool|;
    var v, oldTail := PcOf(s, a.t).v, PcOf(s, a.t).oldTail;
    assert Knows(r, PcOf(s, a.t));
    if Index(oldTail + 1, n) == Index(s.head, n) {
      MoveKeepsInv(r, a.t, Idle);
    } else {
      if oldTail == s.tail {
        FullTurn(s.head, n);
        assert oldTail + 1 != s.head + n;
      }
      MoveKeepsInv(r, a.t, EnqChecked(v, oldTail));
    }
  }

  lemma DequeueKeepsInv(r: Run, a: Action)
    requires Inv(r)
    requires PcOf(r.s, a.t).DeqHead? || PcOf(r.s, a.t).DeqChecked? || PcOf(r.s, a.t).DeqCopied?
    ensures Inv(Record(r, a))
  {
    var s := r.s;
    var pc := PcOf(s, a.t);
    assert Knows(r, pc);
    if pc.DeqCopied? && s.head == pc.oldHead && !a.weak {
      TakeKeepsInv(r, a);
    } else {
      var pc' := PcOf(Step(s, a).0, a.t);
      assert Record(r, a) == r.(s := Goto(s, a.t, pc'));
      MoveKeepsInv(r, a.t, pc');
    }
  }

  lemma StepKeepsInv(r: Run, a: Action)
    requires Inv(r)
    ensures Inv(Record(r, a))
  {
    var s := r.s;
    match PcOf(s, a.t)
    case Idle =>
      MoveKeepsInv(r, a.t, if a.call.Enqueue? then EnqTail(a.call.v, s.tail) else DeqHead(s.head));
    case EnqTail(_, _) => TailCheckKeepsInv(r, a);
    case EnqChecked(v, oldTail) =>
      if s.tail == oldTail && !a.weak {
        ClaimKeepsInv(r, a);
      } else {
        MoveKeepsInv(r, a.t, EnqTail(v, s.tail));
      }
    case EnqClaimed(_, _) => WriteKeepsInv(r, a);
    case EnqWritten(_, ticket) =>
      if s.commit == ticket && !a.weak {
        PublishKeepsInv(r, a);
      }
    case DeqHead(_) => DequeueKeepsInv(r, a);
    case DeqChecked(_) => DequeueKeepsInv(r, a);
    case DeqCopied(_, _) => DequeueKeepsInv(r, a);
  }

  lemma {:induction false} RunInv(size: nat, blank: Value, schedule: seq<Action>)
    ensures Inv(Execute(size, blank, schedule))
  {
    if schedule == [] {
      InitInv(size, blank);
    } else {
      RunInv(size, blank, schedule[..|schedule| - 1]);
      StepKeepsInv(Execute(size, blank, schedule[..|schedule| - 1]), schedule[|schedule| - 1]);
    }
  }

  // ------------------------------------------------- what callers can rely on

  /** FIFO: whatever the schedule, the values dequeued are a prefix of the values published,
      which are a prefix of the values enqueued: nothing lost, duplicated or reordered. */
  lemma FifoOverRuns(size: nat, blank: Value, schedule: seq<Action>)
    ensures var r := Execute(size, blank, schedule); r.taken <= r.published <= r.claimed
  {
    RunInv(size, blank, schedule);
  }

  /** The tickets claimed and not yet committed are exactly [commit, tail), and each has
      exactly one owner. */
  lemma TicketsOverRuns(size: nat, blank: Value, schedule: seq<Action>)
    ensures var s := Execute(size, blank, schedule).s;
      && s.head + 1 <= s.commit <= s.tail <= s.head + size + 1
      && (forall k: nat :: HasOwner(s, k) <==> s.commit <= k < s.tail)
      && (forall t: nat, u: nat, k: nat :: Holds(s, t, k) && Holds(s, u, k) ==> t == u)
  {
    RunInv(size, blank, schedule);
  }

  /** No two pending writers share a slot, and none writes where an element can be read. */
  lemma WritersDisjointOverRuns(size: nat, blank: Value, schedule: seq<Action>, t: nat, k: nat)
    ensures var s := Execute(size, blank, schedule).s;
      Holds(s, t, k) ==>
        && (forall u: nat, j: nat :: Holds(s, u, j) && Index(j, size + 2) == Index(k, size + 2) ==> u == t)
        && (forall j: nat {:trigger Index(j, size + 2)} ::
              s.head < j < s.commit ==> Index(j, size + 2) != Index(k, size + 2))
  {
    RunInv(size, blank, schedule);
    var s := Execute(size, blank, schedule).s;
    if Holds(s, t, k) {
      forall j: nat {:trigger Index(j, size + 2)} | s.head < j < s.tail && j != k
        ensures Index(j, size + 2) != Index(k, size + 2)
      {
        CloseCounters(j, k, size + 2);
      }
    }
  }

  /** The elements a consumer can take, read off the ring itself. */
  function Content(s: State): seq<Value>
    requires |s.pool| > 0 && s.head + 1 <= s.commit
  {
    Window(s.pool, s.head + 1, s.commit)
  }

  lemma ContentIsPublished(r: Run)
    requires Inv(r)
    ensures Content(r.s) == r.published[r.s.head..]
  {
  }

  /** An empty answer is given on an empty queue. */
  lemma EmptyAnswer(r: Run, a: Action)
    requires Inv(r) && Step(r.s, a).1.Empty?
    ensures r.s.head + 1 == r.s.commit && Step(r.s, a).0.head == r.s.head && Step(r.s, a).0.commit == r.s.commit
  {
  }

  lemma CountersStep(s: State, a: Action)
    requires |s.pool| > 0
    ensures var (s', e) := Step(s, a);
      && s'.head == (if e.Take? then s.head + 1 else s.head)
      && s'.commit == (if e.Publish? then s.commit + 1 else s.commit)
      && |s'.pool| == |s.pool|
  {
  }

  /** What is taken is the oldest published element. */
  lemma TakeAnswer(r: Run, a: Action)
    requires Inv(r) && Step(r.s, a).1.Take?
    ensures r.s.head < |r.published| && r.published[r.s.head] == Step(r.s, a).1.v
  {
  }

  /** A bounded FIFO queue goes from `before` to `after` when event `e` happens. */
  ghost predicate QueueStep(size: nat, before: seq<Value>, e: Event, after: seq<Value>) {
    match e
    case Publish(v) => after == before + [v] && |after| <= size
    case Take(v) => before == [v] + after
    case Empty => before == [] && after == []
    case _ => after == before
  }

  /** The same seen from the elements ever published and how many were taken. */
  lemma LogStep(size: nat, log: seq<Value>, head: nat, e: Event, log': seq<Value>, head': nat)
    requires head <= |log| && head' <= |log'|
    requires log' == if e.Publish? then log + [e.v] else log
    requires head' == if e.Take? then head + 1 else head
    requires e.Take? ==> head < |log| && log[head] == e.v
    requires e.Empty? ==> head == |log|
    requires |log'| - head' <= size
    ensures QueueStep(size, log[head..], e, log'[head'..])
  {
  }

  /** Every step of every run is a step of a bounded FIFO queue, or leaves it alone. */
  lemma StepsRefineQueue(size: nat, blank: Value, schedule: seq<Action>, a: Action)
    ensures var s := Execute(size, blank, schedule).s;
      var (s', e) := Step(s, a);
      Counters(s) && Counters(s') && QueueStep(size, Content(s), e, Content(s'))
  {
    RunInv(size, blank, schedule);
    StepRefines(Execute(size, blank, schedule), a);
  }

  lemma StepRefines(r: Run, a: Action)
    requires Inv(r)
    ensures var (s', e) := Step(r.s, a);
      Counters(s') && QueueStep(|r.s.pool| - 2, Content(r.s), e, Content(s'))
  {
    var r', e := Record(r, a), Step(r.s, a).1;
    StepKeepsInv(r, a);
    ContentIsPublished(r);
    ContentIsPublished(r');
    CountersStep(r.s, a);
    if e.Empty? {
      EmptyAnswer(r, a);
    } else if e.Take? {
      TakeAnswer(r, a);
    }
    LogStep(|r.s.pool| - 2, r.published, r.s.head, e, r'.published, r'.s.head);
  }

  /** What the two loads of an Enqueue that answers "full" tell. */
  lemma FullCounters(r: Run, a: Action)
    requires Inv(r) && Step(r.s, a).1.Full?
    ensures var (s, oldTail) := (r.s, Step(r.s, a).1.oldTail);
      oldTail <= s.tail && Index(oldTail + 1, |s.pool|) == Index(s.head, |s.pool|)
  {
    assert Knows(r, PcOf(r.s, a.t));
  }

  lemma TailIsCurrent(head: nat, oldTail: nat, tail: nat, n: nat)
    requires n > 0 && head <= oldTail <= tail <= head + n - 1
    requires Index(oldTail + 1, n) == Index(head, n)
    ensures tail == oldTail && tail - head - 1 == n - 2
  {
    if oldTail + 1 < head + n {
      CloseCounters(head, oldTail + 1, n);
      assert false;
    }
  }

  /** Enqueue's answer "full" is earned, that is, the tail it used is current and the queue
      holds `size` claimed elements, exactly when head_ had not passed that tail. */
  lemma FullAnswer(size: nat, blank: Value, schedule: seq<Action>, a: Action)
    ensures var s := Execute(size, blank, schedule).s;
      Step(s, a).1.Full? ==>
        (s.head <= Step(s, a).1.oldTail <==>
         s.tail == Step(s, a).1.oldTail && s.tail - s.head - 1 == size)
  {
    RunInv(size, blank, schedule);
    var r := Execute(size, blank, schedule);
    var e := Step(r.s, a).1;
    if e.Full? {
      FullCounters(r, a);
      if r.s.head <= e.oldTail {
        TailIsCurrent(r.s.head, e.oldTail, r.s.tail, size + 2);
      }
    }
  }

  /** Thread `p` makes all the Enqueue calls. */
  predicate OneProducer(schedule: seq<Action>, p: nat) {
    forall i | 0 <= i < |schedule| :: schedule[i].call.Enqueue? ==> schedule[i].t == p
  }

  /** Nobody else is in an Enqueue, and the tail the producer has loaded is current. */
  predicate ProducerOk(s: State, p: nat, t: nat) {
    var pc := PcOf(s, t);
    && (pc.EnqTail? || pc.EnqChecked? || pc.EnqClaimed? || pc.EnqWritten? ==> t == p)
    && (pc.EnqTail? || pc.EnqChecked? ==> pc.oldTail == s.tail)
  }

  ghost predicate ProducersOk(s: State, p: nat) {
    forall t: nat :: ProducerOk(s, p, t)
  }

  lemma ProducerStep(s: State, a: Action, p: nat)
    requires |s.pool| > 0 && ProducersOk(s, p) && (a.call.Enqueue? ==> a.t == p)
    ensures ProducersOk(Step(s, a).0, p)
  {
    var s' := Step(s, a).0;
    assert ProducerOk(s, p, a.t);
    forall t: nat ensures ProducerOk(s', p, t) {
      assert ProducerOk(s, p, t);
    }
  }

  lemma {:induction false} ProducerOverRuns(size: nat, blank: Value, schedule: seq<Action>, p: nat)
    requires OneProducer(schedule, p)
    ensures ProducersOk(Execute(size, blank, schedule).s, p)
  {
    if schedule != [] {
      ProducerOverRuns(size, blank, schedule[..|schedule| - 1], p);
      ProducerStep(Execute(size, blank, schedule[..|schedule| - 1]).s, schedule[|schedule| - 1], p);
    }
  }

  /** What callers can arrange: if one thread makes all the Enqueue calls, whatever the others
      dequeue, every answer "full" is given with `size` tickets outstanding. */
  lemma OneProducerIsToldTheTruth(size: nat, blank: Value, schedule: seq<Action>, a: Action, p: nat)
    requires OneProducer(schedule, p)
    ensures var s := Execute(size, blank, schedule).s;
      Step(s, a).1.Full? ==> s.tail - s.head - 1 == size
  {
    var s := Execute(size, blank, schedule).s;
    RunInv(size, blank, schedule);
    ProducerOverRuns(size, blank, schedule, p);
    assert ProducerOk(s, p, a.t);
    FullAnswer(size, blank, schedule, a);
  }

  // ---------------------------------------------------------------- undisturbed calls

  /** The run that goes on from `r` with `more`. */
  function Onward(r: Run, more: seq<Action>): Run
    requires |r.s.pool| > 0
    decreases |more|
  {
    if more == [] then r
    else
      CountersStep(r.s, more[0]);
      Onward(Record(r, more[0]), more[1..])
  }

  /** In `r` and after every further step, at most one ticket is outstanding and thread `u` is
      where it is in `r`. */
  ghost predicate Along(r: Run, more: seq<Action>, u: nat, pc: Pc)
    requires |r.s.pool| > 0
    decreases |more|
  {
    && r.s.tail <= r.s.head + 2 && PcOf(r.s, u) == pc
    && (more != [] ==> (CountersStep(r.s, more[0]); Along(Record(r, more[0]), more[1..], u, pc)))
  }

  lemma {:induction false} Join(r: Run, xs: seq<Action>, ys: seq<Action>, u: nat, pc: Pc)
    requires |r.s.pool| > 0 && |Onward(r, xs).s.pool| > 0
    requires Along(r, xs, u, pc) && Along(Onward(r, xs), ys, u, pc)
    ensures Along(r, xs + ys, u, pc) && Onward(r, xs + ys) == Onward(Onward(r, xs), ys)
    decreases |xs|
  {
    if xs == [] {
      assert xs + ys == ys;
    } else {
      CountersStep(r.s, xs[0]);
      Join(Record(r, xs[0]), xs[1..], ys, u, pc);
      assert (xs + ys)[0] == xs[0] && (xs + ys)[1..] == xs[1..] + ys;
    }
  }

  /** One step more. */
  lemma AlongOne(r: Run, a: Action, u: nat, pc: Pc)
    requires |r.s.pool| > 0 && |Record(r, a).s.pool| > 0
    requires r.s.tail <= r.s.head + 2 && PcOf(r.s, u) == pc
    requires Record(r, a).s.tail <= Record(r, a).s.head + 2 && PcOf(Record(r, a).s, u) == pc
    ensures Along(r, [a], u, pc) && Onward(r, [a]) == Record(r, a)
  {
    assert [a][1..] == [];
    assert Along(Record(r, a), [], u, pc);
  }

  lemma {:induction false} AlongAt(r: Run, more: seq<Action>, u: nat, pc: Pc, k: nat)
    requires |r.s.pool| > 0 && k <= |more| && Along(r, more, u, pc)
    ensures var s := Onward(r, more[..k]).s; s.tail <= s.head + 2 && PcOf(s, u) == pc
    decreases |more|
  {
    if k > 0 {
      CountersStep(r.s, more[0]);
      AlongAt(Record(r, more[0]), more[1..], u, pc, k - 1);
      assert more[..k][0] == more[0] && more[..k][1..] == more[1..][..k - 1];
    }
  }

  lemma ExecuteOne(size: nat, blank: Value, schedule: seq<Action>, a: Action)
    ensures Execute(size, blank, schedule + [a]) == Record(Execute(size, blank, schedule), a)
  {
    assert (schedule + [a])[..|schedule|] == schedule;
  }

  lemma OnwardFront(r: Run, a: Action, more: seq<Action>)
    requires |r.s.pool| > 0 && |Record(r, a).s.pool| > 0
    ensures Onward(r, [a] + more) == Onward(Record(r, a), more)
  {
    assert ([a] + more)[1..] == more;
  }

  lemma {:induction false} ExecuteOnward(size: nat, blank: Value, schedule: seq<Action>, more: seq<Action>)
    ensures Execute(size, blank, schedule + more) == Onward(Execute(size, blank, schedule), more)
    decreases |more|
  {
    if more == [] {
      assert schedule + more == schedule;
    } else {
      ExecuteOne(size, blank, schedule, more[0]);
      ExecuteOnward(size, blank, schedule + [more[0]], more[1..]);
      assert schedule + [more[0]] + more[1..] == schedule + more;
      OnwardFront(Execute(size, blank, schedule), more[0], more[1..]);
      assert [more[0]] + more[1..] == more;
    }
  }

  /** Thread `t` moves from `pc` of its own to `pc'`, the rest of the state being as in `s`. */
  lemma Moved(s: State, t: nat, pc: Pc, pc': Pc)
    ensures PcOf(Goto(s, t, pc), t) == pc
    ensures Goto(Goto(s, t, pc), t, pc') == Goto(s, t, pc')
    ensures forall u: nat | u != t :: PcOf(Goto(s, t, pc), u) == PcOf(s, u)
  {
  }

  /** Nothing is in the queue and no enqueuer is half-way. */
  predicate Quiet(s: State) {
    s.head + 1 == s.commit == s.tail
  }

  /** An Enqueue that nobody interrupts first sees that there is room ... */
  lemma RoomAlone(r: Run, t: nat, v: Value, u: nat) returns (more: seq<Action>)
    requires |r.s.pool| > 2 && Quiet(r.s) && PcOf(r.s, t) == Idle && u != t
    ensures Along(r, more, u, PcOf(r.s, u)) && Onward(r, more).taken == r.taken
    ensures Onward(r, more).s == Goto(r.s, t, EnqChecked(v, r.s.tail))
  {
    var a := Action(t, Enqueue(v), false);
    var r1 := Record(r, a);
    Moved(r.s, t, EnqTail(v, r.s.tail), EnqChecked(v, r.s.tail));
    assert r1.s == Goto(r.s, t, EnqTail(v, r.s.tail));
    AlongOne(r, a, u, PcOf(r.s, u));
    CloseCounters(r.s.tail + 1, r.s.head, |r.s.pool|);
    var r2 := Record(r1, a);
    assert r2.s == Goto(r.s, t, EnqChecked(v, r.s.tail));
    Moved(r.s, t, EnqChecked(v, r.s.tail), Idle);
    AlongOne(r1, a, u, PcOf(r.s, u));
    Join(r, [a], [a], u, PcOf(r.s, u));
    more := [a] + [a];
  }

  /** ... then wins the next ticket ... */
  lemma ClaimAlone(r: Run, t: nat, u: nat) returns (a: Action)
    requires |r.s.pool| > 0 && PcOf(r.s, t).EnqChecked? && PcOf(r.s, t).oldTail == r.s.tail
    requires r.s.tail + 1 <= r.s.head + 2 && u != t
    ensures var r' := Record(r, a);
      && r'.taken == r.taken && Along(r, [a], u, PcOf(r.s, u)) && Onward(r, [a]) == r'
      && r'.s == Goto(r.s.(tail := r.s.tail + 1), t, EnqClaimed(PcOf(r.s, t).v, r.s.tail))
  {
    a := Action(t, Dequeue, false);
    AlongOne(r, a, u, PcOf(r.s, u));
  }

  /** ... then writes its slot and publishes it. */
  lemma PublishAlone(r: Run, t: nat, u: nat) returns (more: seq<Action>)
    requires |r.s.pool| > 0 && PcOf(r.s, t).EnqClaimed? && PcOf(r.s, t).ticket == r.s.commit
    requires r.s.tail <= r.s.head + 2 && u != t
    ensures Along(r, more, u, PcOf(r.s, u)) && Onward(r, more).taken == r.taken
    ensures Onward(r, more).s ==
            Goto(r.s.(commit := r.s.commit + 1,
                      pool := r.s.pool[Index(r.s.commit, |r.s.pool|) := PcOf(r.s, t).v]), t, Idle)
  {
    var a := Action(t, Dequeue, false);
    var r1 := Record(r, a);
    assert PcOf(r1.s, t) == EnqWritten(PcOf(r.s, t).v, r.s.commit);
    AlongOne(r, a, u, PcOf(r.s, u));
    var r2 := Record(r1, a);
    AlongOne(r1, a, u, PcOf(r.s, u));
    Join(r, [a], [a], u, PcOf(r.s, u));
    more := [a] + [a];
  }

  /** A Dequeue that nobody interrupts sees the element ... */
  lemma SeeAlone(r: Run, t: nat, u: nat) returns (more: seq<Action>)
    requires |r.s.pool| > 0 && r.s.head + 2 == r.s.commit == r.s.tail && PcOf(r.s, t) == Idle && u != t
    ensures Along(r, more, u, PcOf(r.s, u)) && Onward(r, more).taken == r.taken
    ensures Onward(r, more).s == Goto(r.s, t, DeqChecked(r.s.head))
  {
    var a := Action(t, Dequeue, false);
    var r1 := Record(r, a);
    Moved(r.s, t, DeqHead(r.s.head), DeqChecked(r.s.head));
    assert r1.s == Goto(r.s, t, DeqHead(r.s.head));
    AlongOne(r, a, u, PcOf(r.s, u));
    var r2 := Record(r1, a);
    assert r2.s == Goto(r.s, t, DeqChecked(r.s.head));
    Moved(r.s, t, DeqChecked(r.s.head), Idle);
    AlongOne(r1, a, u, PcOf(r.s, u));
    Join(r, [a], [a], u, PcOf(r.s, u));
    more := [a] + [a];
  }

  /** ... and takes it. */
  lemma TakeAlone(r: Run, t: nat, u: nat) returns (more: seq<Action>)
    requires |r.s.pool| > 0 && PcOf(r.s, t) == DeqChecked(r.s.head) && r.s.tail <= r.s.head + 2 && u != t
    ensures Along(r, more, u, PcOf(r.s, u))
    ensures Onward(r, more).taken == r.taken + [r.s.pool[Index(r.s.head + 1, |r.s.pool|)]]
    ensures Onward(r, more).s == Goto(r.s.(head := r.s.head + 1), t, Idle)
  {
    var a := Action(t, Dequeue, false);
    var r1 := Record(r, a);
    assert PcOf(r1.s, t) == DeqCopied(r.s.head, r.s.pool[Index(r.s.head + 1, |r.s.pool|)]);
    AlongOne(r, a, u, PcOf(r.s, u));
    var r2 := Record(r1, a);
    AlongOne(r1, a, u, PcOf(r.s, u));
    Join(r, [a], [a], u, PcOf(r.s, u));
    more := [a] + [a];
  }

  lemma EnqueueAlone(r: Run, t: nat, v: Value, u: nat) returns (more: seq<Action>)
    requires |r.s.pool| > 2 && Quiet(r.s) && PcOf(r.s, t) == Idle && u != t
    ensures Along(r, more, u, PcOf(r.s, u)) && Onward(r, more).taken == r.taken
    ensures Onward(r, more).s ==
            Goto(r.s.(tail := r.s.tail + 1, commit := r.s.commit + 1,
                      pool := r.s.pool[Index(r.s.commit, |r.s.pool|) := v]), t, Idle)
  {
    var pc := PcOf(r.s, u);
    more := RoomAlone(r, t, v, u);
    var r1 := Onward(r, more);
    Moved(r.s, t, EnqChecked(v, r.s.tail), Idle);
    var a := ClaimAlone(r1, t, u);
    Join(r, more, [a], u, pc);
    more := more + [a];
    var r2 := Onward(r, more);
    var rest := PublishAlone(r2, t, u);
    Join(r, more, rest, u, pc);
    more := more + rest;
  }

  lemma DequeueAlone(r: Run, t: nat, u: nat) returns (more: seq<Action>)
    requires |r.s.pool| > 0 && r.s.head + 2 == r.s.commit == r.s.tail && PcOf(r.s, t) == Idle && u != t
    ensures Along(r, more, u, PcOf(r.s, u))
    ensures Onward(r, more).taken == r.taken + [r.s.pool[Index(r.s.head + 1, |r.s.pool|)]]
    ensures Onward(r, more).s == Goto(r.s.(head := r.s.head + 1), t, Idle)
  {
    more := SeeAlone(r, t, u);
    Moved(r.s, t, DeqChecked(r.s.head), Idle);
    var rest := TakeAlone(Onward(r, more), t, u);
    Join(r, more, rest, u, PcOf(r.s, u));
    more := more + rest;
  }

  /** One thread enqueues a value and dequeues it, and everyone else stays where they are. */
  lemma RoundTrip(r: Run, t: nat, v: Value, u: nat) returns (more: seq<Action>)
    requires |r.s.pool| > 2 && Quiet(r.s) && PcOf(r.s, t) == Idle && u != t
    ensures Along(r, more, u, PcOf(r.s, u))
    ensures var r' := Onward(r, more);
      && Quiet(r'.s) && r'.taken == r.taken + [v] && r'.s.head == r.s.head + 1
      && |r'.s.pool| == |r.s.pool| && r'.s.threads == r.s.threads[t := Idle]
  {
    more := EnqueueAlone(r, t, v, u);
    var r1 := Onward(r, more);
    Moved(r.s, t, Idle, Idle);
    var rest := DequeueAlone(r1, t, u);
    Join(r, more, rest, u, PcOf(r.s, u));
    more := more + rest;
  }

  /** Two round trips, after which an Enqueue that loaded its tail before them answers "full". */
  lemma TwoRoundTrips(r: Run, v: Value) returns (between: seq<Action>)
    requires |r.s.pool| > 2 && Quiet(r.s) && r.s.head == 0
    requires PcOf(r.s, 0) == EnqTail(v, 1) && PcOf(r.s, 1) == Idle
    ensures Along(r, between, 0, EnqTail(v, 1))
    ensures var s := Onward(r, between).s;
      Quiet(s) && s.head == 2 && PcOf(s, 0) == EnqTail(v, 1) && |s.pool| == |r.s.pool|
  {
    between := RoundTrip(r, 1, v, 0);
    var rest := RoundTrip(Onward(r, between), 1, v, 0);
    Join(r, between, rest, 0, EnqTail(v, 1));
    between := between + rest;
  }

  /** The answer "full" is not always earned: whatever the size, two round trips of another
      thread between the two loads of an Enqueue make it fail on an empty queue, although at
      every instant in between at most one ticket was outstanding. */
  lemma FullAnswerOnEmptyQueue(size: nat, blank: Value) returns (between: seq<Action>)
    requires size > 0
    ensures var a := Action(0, Enqueue(blank), false);
      var s := Execute(size, blank, [a] + between).s;
      && Step(s, a).1.Full? && Quiet(s)
      && forall k | 0 <= k <= |between| :: WaitsWithRoom(Execute(size, blank, [a] + between[..k]).s)
  {
    var a := Action(0, Enqueue(blank), false);
    FirstLoad(size, blank, a);
    between := TwoRoundTrips(Execute(size, blank, [a]), blank);
    forall k | 0 <= k <= |between|
      ensures WaitsWithRoom(Execute(size, blank, [a] + between[..k]).s)
    {
      AlongAt(Execute(size, blank, [a]), between, 0, EnqTail(blank, 1), k);
      ExecuteOnward(size, blank, [a], between[..k]);
    }
    ExecuteOnward(size, blank, [a], between);
    StaleTailIsFull(Execute(size, blank, [a] + between).s, a, blank);
  }

  lemma FirstLoad(size: nat, blank: Value, a: Action)
    requires a == Action(0, Enqueue(blank), false)
    ensures var s := Execute(size, blank, [a]).s;
      Quiet(s) && s.head == 0 && PcOf(s, 0) == EnqTail(blank, 1) && PcOf(s, 1) == Idle
  {
    ExecuteOne(size, blank, [], a);
    assert [] + [a] == [a];
  }

  lemma StaleTailIsFull(s: State, a: Action, v: Value)
    requires |s.pool| > 0 && s.head == 2 && PcOf(s, a.t) == EnqTail(v, 1)
    ensures Step(s, a).1.Full?
  {
  }

  /** Thread 0 is between the two loads of its Enqueue and at most one ticket is outstanding. */
  predicate WaitsWithRoom(s: State) {
    PcOf(s, 0).EnqTail? && s.tail - s.head - 1 <= 1
  }
}
