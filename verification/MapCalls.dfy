/**
 What each call of Has, Get and Set amounts to between its beginning and its return, whatever
 other threads do meanwhile, and that no call is held up by others.
 */
module MapCalls {
  import opened AtomicHashMap

  /** A thread's latest call, and what its steps have brought about since it began. */
  datatype Story = Story(call: Call, events: seq<Event>)

  /** The latest call of every thread, and the map that the Set calls make of an empty one, each
      taking effect with its own arguments at the instant of its event. */
  datatype Book = Book(stories: map<nat, Story>, m: map<int, Value>)

  /** The story of the thread that acts: a new one if the thread was idle. */
  function Current(book: Book, s: State, a: Action): Story {
    if PcOf(s, a.t).Idle? || a.t !in book.stories then Story(a.call, []) else book.stories[a.t]
  }

  function Enter(book: Book, s: State, a: Action): Book
    requires s.buckets > 0
  {
    var (story, e) := (Current(book, s, a), Step(s, a).1);
    Book(book.stories[a.t := if e.Silent? then story else story.(events := story.events + [e])],
         if story.call.Set? && (e.Inserted? || e.Updated?) then book.m[story.call.key := story.call.v] else book.m)
  }

  function BookOf(buckets: nat, schedule: seq<Action>): Book
    requires buckets > 0
  {
    if schedule == [] then Book(map[], map[])
    else
      var before := schedule[..|schedule| - 1];
      Enter(BookOf(buckets, before), Execute(buckets, before).s, schedule[|schedule| - 1])
  }

  // ---------------------------------------------------------------- one call

  /** A call that has done its work: a Set has inserted or updated its key with its value, once;
      a Has or a Get has given one answer, about its key. */
  ghost predicate Done(story: Story) {
    && |story.events| == 1
    && match story.call
       case Has(k) => story.events[0] == Present(k) || story.events[0] == Absent(k)
       case Get(k) => story.events[0] == Absent(k) || (story.events[0].Found? && story.events[0].key == k)
       case Set(k, v) =>
         || story.events[0] == Updated(k, v)
         || (story.events[0].Inserted? && story.events[0].key == k && story.events[0].v == v)
  }

  ghost predicate Told(book: Book, s: State, t: nat) {
    if t !in book.stories then PcOf(s, t).Idle?
    else
      match PcOf(s, t)
      case Idle => Done(book.stories[t])
      case Cleanup(_, _, _) => book.stories[t].call.Set? && Done(book.stories[t])
      case Active(call, _, at) => book.stories[t] == Story(call, []) && (at.Matched? ==> !call.Has?)
  }

  lemma MoverIsTold(book: Book, s: State, a: Action)
    requires s.buckets > 0 && Told(book, s, a.t)
    ensures Told(Enter(book, s, a), Step(s, a).0, a.t)
  {
  }

  lemma EnterTells(book: Book, s: State, a: Action, t: nat)
    requires s.buckets > 0 && Told(book, s, a.t) && Told(book, s, t)
    ensures Told(Enter(book, s, a), Step(s, a).0, t)
  {
    if t == a.t {
      MoverIsTold(book, s, a);
    }
  }

  /** In every run each Set(k, v) that has returned has made exactly one change to the map, the
      insertion or update of `k` with `v`; each Has(k) and Get(k) has given exactly one answer,
      about `k`; and a call under way has done nothing, but for a Set with deletes to do. */
  lemma {:induction false} CallsAnsweredOverRuns(buckets: nat, schedule: seq<Action>, t: nat)
    requires buckets > 0
    ensures Told(BookOf(buckets, schedule), Execute(buckets, schedule).s, t)
  {
    if schedule != [] {
      var before, a := schedule[..|schedule| - 1], schedule[|schedule| - 1];
      CallsAnsweredOverRuns(buckets, before, t);
      CallsAnsweredOverRuns(buckets, before, a.t);
      EnterTells(BookOf(buckets, before), Execute(buckets, before).s, a, t);
    }
  }

  lemma EnterInStep(book: Book, r: Run, a: Action)
    requires r.s.buckets > 0 && Told(book, r.s, a.t) && book.m == r.m
    ensures Enter(book, r.s, a).m == Record(r, a).m
  {
  }

  /** The map that every answer is about (`StepsRefineMap`) is the one that the Set calls make. */
  lemma {:induction false} MapIsOfCalls(buckets: nat, schedule: seq<Action>)
    requires buckets > 0
    ensures BookOf(buckets, schedule).m == Execute(buckets, schedule).m
  {
    if schedule != [] {
      var before, a := schedule[..|schedule| - 1], schedule[|schedule| - 1];
      MapIsOfCalls(buckets, before);
      CallsAnsweredOverRuns(buckets, before, a.t);
      EnterInStep(BookOf(buckets, before), Execute(buckets, before), a);
    }
  }

  // ---------------------------------------------------------------- a thread on its own

  function Alone(r: Run, t: nat, call: Call, k: nat): Run
    requires r.s.buckets > 0
    decreases k
  {
    if k == 0 then r
    else
      BucketsStay(r, Action(t, call));
      Alone(Record(r, Action(t, call)), t, call, k - 1)
  }

  /** The published keys that come after an entry. */
  function KeysAfter(r: Run, e: nat): set<int> {
    set k | k in r.index && Below(r, e, k)
  }

  /** How many steps thread `t` still needs. */
  function Remaining(r: Run, t: nat): nat {
    match PcOf(r.s, t)
    case Idle => 0
    case Cleanup(_, _, _) => 1
    case Active(_, _, Swapping(target, seen)) => if ValueOf(r.s, target) == seen then 2 else |r.index| + 5
    case Active(_, _, Linking(prev, succ)) => if NextOf(r.s, prev) == succ then 2 else |r.index| + 5
    case Active(_, _, Matched(_)) => 3
    case Active(_, _, Walking(prev)) => |KeysAfter(r, prev)| + 4
  }

  /** A step of Find leaves one key behind. */
  lemma WalkingLeavesKeys(r: Run, prev: nat)
    requires Lists(r) && Listed(r, prev) && NextOf(r.s, prev).To?
    ensures |KeysAfter(r, NextOf(r.s, prev).i)| < |KeysAfter(r, prev)|
  {
    var n := NextOf(r.s, prev).i;
    assert LinkOk(r, prev);
    assert KeyOf(r.s, n) in KeysAfter(r, prev) && KeyOf(r.s, n) !in KeysAfter(r, n);
    assert KeysAfter(r, n) <= KeysAfter(r, prev);
    Smaller(KeysAfter(r, n), KeysAfter(r, prev), KeyOf(r.s, n));
  }

  lemma Smaller(small: set<int>, large: set<int>, k: int)
    requires small <= large && k in large && k !in small
    ensures |small| < |large|
  {
    Fewer(small + {k}, large);
  }

  lemma Fewer(small: set<int>, large: set<int>)
    requires small <= large
    ensures |small| <= |large|
  {
    assert large == small + (large - small);
  }

  /** Find goes on to the next entry ... */
  lemma WalkIsNearer(r: Run, t: nat, call: Call, mine: Mine, prev: nat)
    requires Lists(r) && Listed(r, prev) && NextOf(r.s, prev).To?
    ensures Remaining(r.(s := Goto(r.s, t, Active(call, mine, Walking(NextOf(r.s, prev).i)))), t)
            < |KeysAfter(r, prev)| + 4
  {
    var n := NextOf(r.s, prev).i;
    var r' := r.(s := Goto(r.s, t, Active(call, mine, Walking(n))));
    WalkingLeavesKeys(r, prev);
    assert KeysAfter(r', n) == KeysAfter(r, n);
  }

  /** ... or ends before the place of a missing key, which is then current. */
  lemma PrepareIsFresh(r: Run, eo: seq<Owner>, t: nat, call: Call, mine: Mine, prev: nat)
    requires Lists(r) && EntriesOwned(r, eo) && Listed(r, prev) && call.Set? && EntryIn(PcOf(r.s, t)) == mine.entry
    ensures var s' := Prepare(r.s, t, call, mine, prev, NextOf(r.s, prev));
      && PcOf(s', t).Active? && PcOf(s', t).at == Linking(prev, NextOf(r.s, prev))
      && NextOf(s', prev) == NextOf(r.s, prev)
  {
  }

  lemma VisitIsNearer(r: Run, eo: seq<Owner>, vo: seq<Owner>, t: nat, mine: Mine, call: Call, prev: nat)
    requires Inv(r, eo, vo) && Listed(r, prev) && EntryIn(PcOf(r.s, t)) == mine.entry
    ensures Remaining(r.(s := Visit(r.s, t, call, mine, prev).0), t) < |KeysAfter(r, prev)| + 4
  {
    var succ := NextOf(r.s, prev);
    if succ.To? && KeyOf(r.s, succ.i) < call.key {
      WalkIsNearer(r, t, call, mine, prev);
    } else if call.Set? && !(succ.To? && KeyOf(r.s, succ.i) == call.key) {
      PrepareIsFresh(r, eo, t, call, mine, prev);
    }
  }

  lemma OneStepNearer(r: Run, eo: seq<Owner>, vo: seq<Owner>, t: nat, call: Call)
    requires Inv(r, eo, vo) && !PcOf(r.s, t).Idle?
    ensures Remaining(Record(r, Action(t, call)), t) < Remaining(r, t)
  {
    var (pc, r') := (PcOf(r.s, t), Record(r, Action(t, call)));
    assert Knows(r, pc);
    if pc.Active? && pc.at.Walking? {
      VisitIsNearer(r, eo, vo, t, pc.mine, pc.call, pc.at.prev);
      assert r' == r.(s := Visit(r.s, t, pc.call, pc.mine, pc.at.prev).0);
    } else {
      OtherStepNearer(r, t, call);
    }
  }

  lemma OtherStepNearer(r: Run, t: nat, call: Call)
    requires Lists(r) && !PcOf(r.s, t).Idle? && (PcOf(r.s, t).Active? ==> !PcOf(r.s, t).at.Walking?)
    requires Knows(r, PcOf(r.s, t))
    ensures Remaining(Record(r, Action(t, call)), t) < Remaining(r, t)
  {
    var (pc, r') := (PcOf(r.s, t), Record(r, Action(t, call)));
    if pc.Active? && PcOf(r'.s, t).Active? && PcOf(r'.s, t).at.Walking? {
      Fewer(KeysAfter(r', PcOf(r'.s, t).at.prev), r'.index.Keys);
    }
  }

  /** No call is held up by others: in every run, a thread inside a call that is left alone
      returns within five steps more than there are keys. */
  lemma AloneReturns(buckets: nat, schedule: seq<Action>, t: nat, call: Call) returns (k: nat)
    requires buckets > 0
    ensures var r := Execute(buckets, schedule);
      k <= |r.m| + 5 && PcOf(Alone(r, t, call, k).s, t).Idle?
  {
    var r := Execute(buckets, schedule);
    var eo, vo := RunInv(buckets, schedule);
    AtMostAllKeys(r, t);
    k := AloneFrom(r, eo, vo, t, call);
  }

  lemma AtMostAllKeys(r: Run, t: nat)
    requires Spells(r)
    ensures Remaining(r, t) <= |r.m| + 5
  {
    assert |r.m.Keys| == |r.m| && |r.index.Keys| == |r.index|;
    if PcOf(r.s, t).Active? && PcOf(r.s, t).at.Walking? {
      Fewer(KeysAfter(r, PcOf(r.s, t).at.prev), r.index.Keys);
    }
  }

  lemma OneMoreAlone(r: Run, t: nat, call: Call, k: nat)
    requires r.s.buckets > 0 && k > 0
    ensures Record(r, Action(t, call)).s.buckets > 0
    ensures Alone(r, t, call, k) == Alone(Record(r, Action(t, call)), t, call, k - 1)
  {
    BucketsStay(r, Action(t, call));
  }

  lemma {:induction false} AloneFrom(r: Run, eo: seq<Owner>, vo: seq<Owner>, t: nat, call: Call) returns (k: nat)
    requires Inv(r, eo, vo)
    ensures k <= Remaining(r, t) && PcOf(Alone(r, t, call, k).s, t).Idle?
    decreases Remaining(r, t)
  {
    if PcOf(r.s, t).Idle? {
      k := 0;
    } else {
      OneStepNearer(r, eo, vo, t, call);
      var eo', vo' := StepKeepsInv(r, eo, vo, Action(t, call));
      k := AloneFrom(Record(r, Action(t, call)), eo', vo', t, call);
      k := k + 1;
      OneMoreAlone(r, t, call, k);
    }
  }
}
