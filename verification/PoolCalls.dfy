/**
 What each call of GetObject and ReleaseObject amounts to between its beginning and its return,
 whatever other threads do meanwhile, and that no call is held up by others.
 */
module PoolCalls {
  import opened ObjectPool

  /** A thread's latest call, and what its steps have brought about since it began. */
  datatype Story = Story(call: Call, events: seq<Event>)

  /** The clients' own record: the latest call of every thread, the objects they have been given
      and have not passed to ReleaseObject since, and how often each was passed to it. */
  datatype Book = Book(stories: map<nat, Story>, out: set<nat>, returned: multiset<nat>)

  /** The action begins a call.  A client only releases an object that is out. */
  predicate Begins(book: Book, s: State, a: Action) {
    PcOf(s, a.t) == Idle && (a.call.Release? ==> a.call.node in book.out)
  }

  function Begin(book: Book, a: Action): Book {
    var book' := book.(stories := book.stories[a.t := Story(a.call, [])]);
    if a.call.Get? then book'
    else book'.(out := book.out - {a.call.node}, returned := book.returned + multiset{a.call.node})
  }

  /** What thread `t` has brought about now. */
  function Note(book: Book, t: nat, e: Event): Book {
    if e == Silent || t !in book.stories then book
    else
      var story := book.stories[t];
      book.(stories := book.stories[t := story.(events := story.events + [e])],
            out := if e.Got? then book.out + {e.node} else book.out)
  }

  function Enter(book: Book, s: State, a: Action): Book {
    Note(if Begins(book, s, a) then Begin(book, a) else book, a.t, Step(s, a).1)
  }

  function BookOf(capacity: nat, schedule: seq<Action>): Book {
    if schedule == [] then Book(map[], {}, multiset{})
    else
      var before := schedule[..|schedule| - 1];
      Enter(BookOf(capacity, before), Execute(capacity, before).s, schedule[|schedule| - 1])
  }

  // ---------------------------------------------------------------- one call

  /** A call that has returned: GetObject has handed out one object or nullptr, ReleaseObject has
      taken its argument and pushed it. */
  predicate Answered(story: Story) {
    match story.call
    case Get => |story.events| == 1 && (story.events[0].Got? || story.events[0].GotNull?)
    case Release(x) => story.events == [GivenBack(x), Pushed(x)]
  }

  predicate Underway(story: Story, pc: Pc) {
    match pc
    case Idle => false
    case Getting(_) => story == Story(Get, [])
    case GetNext(_, _) => story == Story(Get, [])
    case Releasing(x, _) => story == Story(Release(x), [GivenBack(x)])
    case Linked(x, _) => story == Story(Release(x), [GivenBack(x)])
  }

  predicate Told(book: Book, s: State, t: nat) {
    if t !in book.stories then PcOf(s, t) == Idle
    else if PcOf(s, t) == Idle then Answered(book.stories[t])
    else Underway(book.stories[t], PcOf(s, t))
  }

  lemma MoverIsTold(book: Book, s: State, a: Action)
    requires Told(book, s, a.t) && book.out == s.held
    ensures Told(Enter(book, s, a), Step(s, a).0, a.t)
  {
  }

  lemma EnterTells(book: Book, s: State, a: Action, t: nat)
    requires Told(book, s, a.t) && Told(book, s, t) && book.out == s.held
    ensures Told(Enter(book, s, a), Step(s, a).0, t)
  {
    if t == a.t {
      MoverIsTold(book, s, a);
    }
  }

  lemma EnterKeepsOut(book: Book, s: State, a: Action)
    requires Told(book, s, a.t) && book.out == s.held
    ensures Enter(book, s, a).out == Step(s, a).0.held
  {
  }

  /** In every run each ReleaseObject(x) that has returned has given back and pushed `x` and
      nothing else, each GetObject has handed out one object or nullptr, no call under way has
      done more than take its argument, and the pool takes for held exactly the objects that its
      clients have got and not released since. */
  lemma {:induction false} CallsAnsweredOverRuns(capacity: nat, schedule: seq<Action>, t: nat)
    requires capacity >= 1
    ensures Told(BookOf(capacity, schedule), Execute(capacity, schedule).s, t)
    ensures BookOf(capacity, schedule).out == Execute(capacity, schedule).s.held
  {
    if schedule != [] {
      var before, a := schedule[..|schedule| - 1], schedule[|schedule| - 1];
      CallsAnsweredOverRuns(capacity, before, t);
      CallsAnsweredOverRuns(capacity, before, a.t);
      EnterTells(BookOf(capacity, before), Execute(capacity, before).s, a, t);
      EnterKeepsOut(BookOf(capacity, before), Execute(capacity, before).s, a);
    }
  }

  // ---------------------------------------------------------------- the accounts

  lemma EnterCounts(book: Book, r: Run, a: Action)
    requires Told(book, r.s, a.t) && book.out == r.s.held && book.returned == r.back
    ensures Enter(book, r.s, a).returned == Record(r, a).back
  {
  }

  lemma {:induction false} ReturnsCounted(capacity: nat, schedule: seq<Action>)
    requires capacity >= 1
    ensures BookOf(capacity, schedule).returned == Execute(capacity, schedule).back
  {
    if schedule != [] {
      var before, a := schedule[..|schedule| - 1], schedule[|schedule| - 1];
      ReturnsCounted(capacity, before);
      CallsAnsweredOverRuns(capacity, before, a.t);
      EnterCounts(BookOf(capacity, before), Execute(capacity, before), a);
    }
  }

  /** In every run each object has been handed out exactly once more than clients have called
      ReleaseObject with it while it is out, and equally often otherwise. */
  lemma AccountsBalance(capacity: nat, schedule: seq<Action>, x: nat)
    requires capacity >= 1
    ensures var (book, r) := (BookOf(capacity, schedule), Execute(capacity, schedule));
      r.got[x] == book.returned[x] + if x in book.out then 1 else 0
  {
    HandedOutOnce(capacity, schedule, x);
    ReturnsCounted(capacity, schedule);
    CallsAnsweredOverRuns(capacity, schedule, 0);
  }

  // ---------------------------------------------------------------- a thread on its own

  function Alone(s: State, t: nat, call: Call, k: nat): State
    decreases k
  {
    if k == 0 then s else Alone(Step(s, Action(t, call, false)).0, t, call, k - 1)
  }

  /** How many steps thread `t` still needs: more if the head it has loaded is no longer current. */
  function Remaining(s: State, t: nat): nat {
    match PcOf(s, t)
    case Idle => 0
    case Getting(seen) => if seen == s.head then 2 else 4
    case GetNext(seen, _) => if seen == s.head then 1 else 3
    case Releasing(_, seen) => if seen == s.head then 2 else 4
    case Linked(_, seen) => if seen == s.head then 1 else 3
  }

  lemma OneStepNearer(s: State, free: seq<nat>, t: nat, call: Call)
    requires Inv(s, free) && PcOf(s, t) != Idle
    ensures Remaining(Step(s, Action(t, call, false)).0, t) < Remaining(s, t)
  {
    assert Knows(s, PcOf(s, t));
    assert PcOf(s, t).Releasing? ==> Frees(s, t, PcOf(s, t).node);
  }

  /** No call is held up by others: in every run, a thread inside a call that is left alone
      returns within four steps. */
  lemma AloneReturns(capacity: nat, schedule: seq<Action>, t: nat, call: Call) returns (k: nat)
    requires capacity >= 1
    ensures k <= 4 && PcOf(Alone(Execute(capacity, schedule).s, t, call, k), t) == Idle
  {
    var free := PartitionOverRuns(capacity, schedule);
    k := AloneFrom(Execute(capacity, schedule).s, free, t, call);
  }

  lemma {:induction false} AloneFrom(s: State, free: seq<nat>, t: nat, call: Call) returns (k: nat)
    requires Inv(s, free)
    ensures k <= Remaining(s, t) && PcOf(Alone(s, t, call, k), t) == Idle
    decreases Remaining(s, t)
  {
    if PcOf(s, t) == Idle {
      k := 0;
    } else {
      var a := Action(t, call, false);
      OneStepNearer(s, free, t, call);
      var free' := StepKeepsInv(s, free, a);
      k := AloneFrom(Step(s, a).0, free', t, call);
      k := k + 1;
    }
  }
}
