/**
 CCObjectPool: a free list threaded through an arena, popped and pushed by any number of
 threads with a double-width compare-and-swap on (count, node).

 One step is one load, store or compare-and-swap of one thread with the local computation
 after it, and every sequence of actions is a run.  The version count is unbounded: a run
 in which it does not wrap round is assumed.
 */
module ObjectPool {

  /** A Node*: an arena index, or nullptr. */
  datatype Ptr = Null | Node(i: nat)

  datatype Head = Head(count: nat, node: Ptr)

  datatype Pc =
    | Idle
    | Getting(seen: Head)             // free_head_ loaded, seen.node->next to be read next
    | GetNext(seen: Head, next: Ptr)  // next read, CAS next
    | Releasing(node: nat, seen: Head) // free_head_ loaded, node->next to be written next
    | Linked(node: nat, seen: Head)    // node->next written, CAS next

  /** `held` is what clients have obtained and not yet given back. */
  datatype State = State(next: seq<Ptr>, head: Head, held: set<nat>, threads: map<nat, Pc>)

  datatype Call = Get | Release(node: nat)

  datatype Action = Action(t: nat, call: Call, weak: bool)

  datatype Event =
    | Silent
    | Got(node: nat)       // GetObject returns this object
    | GotNull              // GetObject returns nullptr
    | GivenBack(node: nat) // a client calls ReleaseObject
    | Pushed(node: nat)    // ReleaseObject's CAS succeeds

  function PcOf(s: State, t: nat): Pc {
    if t in s.threads then s.threads[t] else Idle
  }

  function Goto(s: State, t: nat, pc: Pc): State {
    s.(threads := s.threads[t := pc])
  }

  /** The constructor's chain: each node points to the one after it, the last to nullptr. */
  function Chain(capacity: nat): (next: seq<Ptr>)
    ensures |next| == capacity
  {
    seq(capacity, (i: nat) => if i + 1 < capacity then Node(i + 1) else Null)
  }

  function Init(capacity: nat): State {
    State(Chain(capacity), Head(0, Node(0)), {}, map[])
  }

  /** A GetObject that has just loaded free_head_, first or after a failed CAS. */
  function Loaded(s: State, t: nat): (State, Event) {
    if s.head.node == Null then (Goto(s, t, Idle), GotNull)
    else (Goto(s, t, Getting(s.head)), Silent)
  }

  function Step(s: State, a: Action): (State, Event) {
    match PcOf(s, a.t)
    case Idle =>
      (match a.call
       case Get => Loaded(s, a.t)
       case Release(x) =>
         // a client can only give back what it holds
         if x in s.held then (Goto(s.(held := s.held - {x}), a.t, Releasing(x, s.head)), GivenBack(x))
         else (s, Silent))
    case Getting(seen) =>
      if seen.node.Node? && seen.node.i < |s.next|
      then (Goto(s, a.t, GetNext(seen, s.next[seen.node.i])), Silent)
      else (s, Silent)
    case GetNext(seen, next) =>
      if s.head == seen && !a.weak && seen.node.Node?
      then (Goto(s.(head := Head(seen.count + 1, next), held := s.held + {seen.node.i}), a.t, Idle),
            Got(seen.node.i))
      else Loaded(s, a.t)
    case Releasing(x, seen) =>
      if x < |s.next|
      then (Goto(s.(next := s.next[x := seen.node]), a.t, Linked(x, seen)), Silent)
      else (s, Silent)
    case Linked(x, seen) =>
      if s.head == seen && !a.weak
      then (Goto(s.(head := Head(seen.count + 1, Node(x))), a.t, Idle), Pushed(x))
      else (Goto(s, a.t, Releasing(x, s.head)), Silent)
  }

  /** The state after a schedule, with how often each object was handed out and given back. */
  datatype Run = Run(s: State, got: multiset<nat>, back: multiset<nat>)

  function Record(r: Run, a: Action): Run {
    var (s, e) := Step(r.s, a);
    Run(s,
        if e.Got? then r.got + multiset{e.node} else r.got,
        if e.GivenBack? then r.back + multiset{e.node} else r.back)
  }

  function Execute(capacity: nat, schedule: seq<Action>): Run {
    if schedule == [] then Run(Init(capacity), multiset{}, multiset{})
    else Record(Execute(capacity, schedule[..|schedule| - 1]), schedule[|schedule| - 1])
  }

  // ---------------------------------------------------------------- invariant

  /** Following next from `p` visits exactly `xs`, in this order, and ends in nullptr. */
  predicate ListFrom(next: seq<Ptr>, p: Ptr, xs: seq<nat>) {
    && p == PtrAt(xs, 0)
    && forall i | 0 <= i < |xs| :: xs[i] < |next| && next[xs[i]] == PtrAt(xs, i + 1)
  }

  function PtrAt(xs: seq<nat>, i: nat): Ptr {
    if i < |xs| then Node(xs[i]) else Null
  }

  predicate Distinct(xs: seq<nat>) {
    forall i, j | 0 <= i < j < |xs| :: xs[i] != xs[j]
  }

  /** Thread `t` is pushing node `x` back. */
  predicate Frees(s: State, t: nat, x: nat) {
    var pc := PcOf(s, t);
    (pc.Releasing? || pc.Linked?) && pc.node == x
  }

  ghost predicate Busy(s: State, x: nat) {
    exists t: nat :: Frees(s, t, x)
  }

  /** Every node is free, held or being pushed back, and only one of the three; and no two
      threads push the same node back. */
  ghost predicate Partition(s: State, free: seq<nat>) {
    && (forall x: nat :: x < |s.next| <==> x in free || x in s.held || Busy(s, x))
    && (forall x: nat :: x in free ==> x !in s.held)
    && (forall x: nat, t: nat :: Frees(s, t, x) ==> x < |s.next| && x !in free && x !in s.held)
    && (forall x: nat, t: nat, u: nat :: Frees(s, t, x) && Frees(s, u, x) ==> t == u)
  }

  /** An old head that carries the current count is the current head. */
  predicate Fresh(s: State, seen: Head) {
    seen.count <= s.head.count && (seen.count == s.head.count ==> seen == s.head)
  }

  predicate Knows(s: State, pc: Pc) {
    match pc
    case Idle => true
    case Getting(seen) => Fresh(s, seen) && seen.node.Node? && seen.node.i < |s.next|
    case GetNext(seen, next) =>
      && Fresh(s, seen) && seen.node.Node? && seen.node.i < |s.next|
      && (seen == s.head ==> next == s.next[seen.node.i])
    case Releasing(x, seen) => Fresh(s, seen)
    case Linked(x, seen) => Fresh(s, seen) && x < |s.next| && s.next[x] == seen.node
  }

  ghost predicate Inv(s: State, free: seq<nat>) {
    && ListFrom(s.next, s.head.node, free)
    && Distinct(free)
    && Partition(s, free)
    && (forall t: nat :: Knows(s, PcOf(s, t)))
  }

  lemma InitInv(capacity: nat) returns (free: seq<nat>)
    requires capacity >= 1
    ensures Inv(Init(capacity), free)
  {
    free := seq(capacity, i => i);
    forall x: nat | x < capacity
      ensures x in free
    {
      assert free[x] == x;
    }
  }

  /** A step that moves a thread which frees nothing, before or after. */
  lemma MoveKeepsInv(s: State, free: seq<nat>, t: nat, pc: Pc)
    requires Inv(s, free) && Knows(s, pc)
    requires !PcOf(s, t).Releasing? && !PcOf(s, t).Linked? && !pc.Releasing? && !pc.Linked?
    ensures Inv(Goto(s, t, pc), free)
  {
    var s' := Goto(s, t, pc);
    assert forall u: nat :: PcOf(s', u) == if u == t then pc else PcOf(s, u);
    assert forall u: nat, x: nat :: Frees(s', u, x) <==> Frees(s, u, x);
    SameBusy(s, s');
  }

  lemma SameBusy(s: State, s': State)
    requires forall u: nat, x: nat :: Frees(s', u, x) <==> Frees(s, u, x)
    ensures forall x: nat :: Busy(s', x) <==> Busy(s, x)
  {
  }

  /** A successful pop: the count pins the head, so the successor read earlier is current. */
  lemma PopKeepsInv(s: State, free: seq<nat>, a: Action) returns (free': seq<nat>)
    requires Inv(s, free)
    requires PcOf(s, a.t).GetNext? && s.head == PcOf(s, a.t).seen && !a.weak
    ensures Step(s, a).1.Got? && free == [Step(s, a).1.node] + free'
    ensures Inv(Step(s, a).0, free')
  {
    var s' := Step(s, a).0;
    assert Knows(s, PcOf(s, a.t));
    free' := free[1..];
    assert forall u: nat :: u != a.t ==> PcOf(s', u) == PcOf(s, u);
    assert forall u: nat, x: nat :: Frees(s', u, x) <==> Frees(s, u, x);
    SameBusy(s, s');
    assert ListFrom(s'.next, s'.head.node, free') by {
      forall i | 0 <= i < |free'|
        ensures free'[i] < |s.next| && s.next[free'[i]] == PtrAt(free', i + 1)
      {
        assert free'[i] == free[i + 1];
      }
    }
    forall x: nat
      ensures x in free <==> x == free[0] || x in free'
    {
    }
    forall u: nat
      ensures Knows(s', PcOf(s', u))
    {
      assert Knows(s, PcOf(s, u));
    }
  }

  lemma GiveBackKeepsInv(s: State, free: seq<nat>, a: Action)
    requires Inv(s, free)
    requires PcOf(s, a.t).Idle? && a.call.Release? && a.call.node in s.held
    ensures Inv(Step(s, a).0, free)
  {
    var s', x := Step(s, a).0, a.call.node;
    assert forall u: nat :: u != a.t ==> PcOf(s', u) == PcOf(s, u);
    assert forall u: nat, y: nat :: Frees(s', u, y) <==> (u == a.t && y == x) || Frees(s, u, y);
    forall y: nat
      ensures Busy(s', y) <==> y == x || Busy(s, y)
    {
      if y == x {
        assert Frees(s', a.t, x);
      } else if Busy(s, y) {
        var u: nat :| Frees(s, u, y);
        assert Frees(s', u, y);
      }
    }
    forall u: nat
      ensures Knows(s', PcOf(s', u))
    {
      assert Knows(s, PcOf(s, u));
    }
  }

  /** Writing the link of a node being pushed back touches nothing that others rely on. */
  lemma LinkKeepsInv(s: State, free: seq<nat>, a: Action)
    requires Inv(s, free)
    requires PcOf(s, a.t).Releasing?
    ensures Inv(Step(s, a).0, free)
  {
    var s', x := Step(s, a).0, PcOf(s, a.t).node;
    assert Frees(s, a.t, x) && Knows(s, PcOf(s, a.t));
    assert forall u: nat :: u != a.t ==> PcOf(s', u) == PcOf(s, u);
    assert forall u: nat, y: nat :: Frees(s', u, y) <==> Frees(s, u, y);
    SameBusy(s, s');
    assert forall i | 0 <= i < |free| :: free[i] in free && free[i] != x;
    forall u: nat
      ensures Knows(s', PcOf(s', u))
    {
      assert Knows(s, PcOf(s, u));
      if PcOf(s, u).Linked? {
        assert Frees(s, u, PcOf(s, u).node);
      }
      if PcOf(s, u).GetNext? && PcOf(s, u).seen == s.head {
        assert s.head.node == Node(free[0]);
      }
    }
  }

  lemma PushKeepsInv(s: State, free: seq<nat>, a: Action) returns (free': seq<nat>)
    requires Inv(s, free)
    requires PcOf(s, a.t).Linked? && s.head == PcOf(s, a.t).seen && !a.weak
    ensures free' == [PcOf(s, a.t).node] + free
    ensures Inv(Step(s, a).0, free')
  {
    var s', x := Step(s, a).0, PcOf(s, a.t).node;
    assert Frees(s, a.t, x) && Knows(s, PcOf(s, a.t));
    free' := [x] + free;
    assert forall u: nat :: u != a.t ==> PcOf(s', u) == PcOf(s, u);
    assert forall u: nat, y: nat :: Frees(s', u, y) <==> u != a.t && Frees(s, u, y);
    forall y: nat
      ensures Busy(s', y) <==> y != x && Busy(s, y)
    {
      if y != x && Busy(s, y) {
        var u: nat :| Frees(s, u, y);
        assert Frees(s', u, y);
      }
    }
    forall i | 0 <= i < |free'|
      ensures free'[i] < |s.next| && s.next[free'[i]] == PtrAt(free', i + 1)
    {
      if i > 0 {
        assert free'[i] == free[i - 1];
      }
    }
    forall u: nat
      ensures Knows(s', PcOf(s', u))
    {
      assert Knows(s, PcOf(s, u));
    }
  }

  lemma RetryKeepsInv(s: State, free: seq<nat>, a: Action)
    requires Inv(s, free)
    requires PcOf(s, a.t).Linked? && !(s.head == PcOf(s, a.t).seen && !a.weak)
    ensures Inv(Step(s, a).0, free)
  {
    var s' := Step(s, a).0;
    assert forall u: nat :: u != a.t ==> PcOf(s', u) == PcOf(s, u);
    assert forall u: nat, y: nat :: Frees(s', u, y) <==> Frees(s, u, y);
    SameBusy(s, s');
    forall u: nat
      ensures Knows(s', PcOf(s', u))
    {
      assert Knows(s, PcOf(s, u));
    }
  }

  /** Every step is a step of a stack of free objects, or leaves the stack alone. */
  lemma StepKeepsInv(s: State, free: seq<nat>, a: Action) returns (free': seq<nat>)
    requires Inv(s, free)
    ensures Inv(Step(s, a).0, free') && |Step(s, a).0.next| == |s.next|
    ensures match Step(s, a).1
            case Got(x) => free == [x] + free'
            case Pushed(x) => free' == [x] + free
            case GotNull => free == [] == free'
            case _ => free' == free
  {
    free' := free;
    assert Knows(s, PcOf(s, a.t));
    match PcOf(s, a.t)
    case Idle =>
      if a.call.Get? {
        MoveKeepsInv(s, free, a.t, PcOf(Loaded(s, a.t).0, a.t));
      } else if a.call.node in s.held {
        GiveBackKeepsInv(s, free, a);
      }
    case Getting(seen) => MoveKeepsInv(s, free, a.t, PcOf(Step(s, a).0, a.t));
    case GetNext(seen, next) =>
      if s.head == seen && !a.weak {
        free' := PopKeepsInv(s, free, a);
      } else {
        MoveKeepsInv(s, free, a.t, PcOf(Loaded(s, a.t).0, a.t));
      }
    case Releasing(x, seen) => LinkKeepsInv(s, free, a);
    case Linked(x, seen) =>
      if s.head == seen && !a.weak {
        free' := PushKeepsInv(s, free, a);
      } else {
        RetryKeepsInv(s, free, a);
      }
  }

  // ------------------------------------------------- what callers can rely on

  /** In every run the free list is a finite list without repetition, and free nodes, held
      nodes and nodes being pushed back make up the arena, each node in one place only. */
  lemma {:induction false} PartitionOverRuns(capacity: nat, schedule: seq<Action>) returns (free: seq<nat>)
    requires capacity >= 1
    ensures Inv(Execute(capacity, schedule).s, free)
    ensures |Execute(capacity, schedule).s.next| == capacity
  {
    if schedule == [] {
      free := InitInv(capacity);
    } else {
      var r, a := Execute(capacity, schedule[..|schedule| - 1]), schedule[|schedule| - 1];
      free := PartitionOverRuns(capacity, schedule[..|schedule| - 1]);
      assert Execute(capacity, schedule) == Record(r, a);
      free := StepKeepsInv(r.s, free, a);
    }
  }

  /** The list that starts at a pointer is determined by the links. */
  lemma {:induction false} ListIsUnique(next: seq<Ptr>, p: Ptr, xs: seq<nat>, ys: seq<nat>)
    requires ListFrom(next, p, xs) && ListFrom(next, p, ys)
    ensures xs == ys
    decreases |xs|
  {
    if p.Node? {
      assert forall i | 0 <= i < |xs| - 1 :: PtrAt(xs[1..], i) == PtrAt(xs, i + 1);
      ListIsUnique(next, next[p.i], xs[1..], ys[1..]);
    }
  }

  /** ABA safety: whenever the CAS of FindFreeHead succeeds, the successor it installs is the
      popped node's successor now, whatever happened to that node since it was read. */
  lemma PopInstallsCurrentSuccessor(capacity: nat, schedule: seq<Action>, a: Action)
    requires capacity >= 1
    ensures var s := Execute(capacity, schedule).s;
      var (s', e) := Step(s, a);
      e.Got? ==>
        && e.node < capacity == |s.next| && s.head.node == Node(e.node)
        && s'.head.node == s.next[e.node]
        && e.node !in s.held && !Busy(s, e.node)
  {
    var free := PartitionOverRuns(capacity, schedule);
    var s := Execute(capacity, schedule).s;
    assert Knows(s, PcOf(s, a.t));
    assert free != [] ==> free[0] in free;
    var free' := StepKeepsInv(s, free, a);
  }

  /** The pool behaves as a stack: pops take its top, pushes put a node on top, and nullptr
      is returned only by a load that sees no free object. */
  lemma StepsRefineStack(capacity: nat, schedule: seq<Action>, a: Action)
    returns (free: seq<nat>, free': seq<nat>)
    requires capacity >= 1
    ensures var s := Execute(capacity, schedule).s;
      var (s', e) := Step(s, a);
      && ListFrom(s.next, s.head.node, free) && ListFrom(s'.next, s'.head.node, free')
      && match e
         case Got(x) => free == [x] + free'
         case Pushed(x) => free' == [x] + free
         case GotNull => free == [] == free'
         case _ => free' == free
  {
    free := PartitionOverRuns(capacity, schedule);
    free' := StepKeepsInv(Execute(capacity, schedule).s, free, a);
  }

  /** Object `x` has been handed out once more than given back exactly while it is held. */
  predicate Balanced(r: Run, x: nat) {
    r.got[x] == r.back[x] + if x in r.s.held then 1 else 0
  }

  lemma StepKeepsBalance(r: Run, a: Action, x: nat)
    requires Balanced(r, x)
    requires Step(r.s, a).1.Got? ==> Step(r.s, a).1.node !in r.s.held
    ensures Balanced(Record(r, a), x)
  {
  }

  /** No object ever has two holders: the account of every object balances in every run. */
  lemma {:induction false} HandedOutOnce(capacity: nat, schedule: seq<Action>, x: nat)
    requires capacity >= 1
    ensures Balanced(Execute(capacity, schedule), x)
  {
    if schedule != [] {
      var before, a := schedule[..|schedule| - 1], schedule[|schedule| - 1];
      HandedOutOnce(capacity, before, x);
      PopInstallsCurrentSuccessor(capacity, before, a);
      StepKeepsBalance(Execute(capacity, before), a, x);
      assert Execute(capacity, schedule) == Record(Execute(capacity, before), a);
    }
  }

  /** The constructor's loop builds the chain that every run starts from. */
  method BuildChain(capacity: nat) returns (arena: array<Ptr>)
    requires capacity >= 1
    ensures fresh(arena) && arena[..] == Chain(capacity)
  {
    arena := new Ptr[capacity](_ => Null);
    for i := 0 to capacity - 1
      invariant forall k | 0 <= k < i :: arena[k] == Node(k + 1)
    {
      arena[i] := Node(i + 1);
    }
    arena[capacity - 1] := Null;
  }
}
