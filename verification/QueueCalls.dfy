/**
 What each call of Enqueue and Dequeue amounts to between its beginning and its return, whatever
 other threads do meanwhile, and that no call is held up except by a writer with an earlier
 ticket.
 */
module QueueCalls {
  import opened Ring
  import opened ConcurrentQueue

  /** A thread's latest call, and what its steps have brought about since it began. */
  datatype Story = Story(call: Call, events: seq<Event>)

  /** The latest call of every thread, and the arguments of the calls that won a ticket and of
      those that published it, in the order in which they did. */
  datatype Book = Book(stories: map<nat, Story>, won: seq<Value>, entered: seq<Value>)

  function Arguments(call: Call): seq<Value> {
    if call.Enqueue? then [call.v] else []
  }

  /** The story of the thread that acts: a new one if the thread was idle. */
  function Current(book: Book, s: State, a: Action): Story {
    if PcOf(s, a.t).Idle? || a.t !in book.stories then Story(a.call, []) else book.stories[a.t]
  }

  function Enter(book: Book, s: State, a: Action): Book
    requires |s.pool| > 0
  {
    var (story, e) := (Current(book, s, a), Step(s, a).1);
    Book(book.stories[a.t := if e.Silent? then story else story.(events := story.events + [e])],
         if e.Claim? then book.won + Arguments(story.call) else book.won,
         if e.Publish? then book.entered + Arguments(story.call) else book.entered)
  }

  function BookOf(size: nat, blank: Value, schedule: seq<Action>): Book {
    if schedule == [] then Book(map[], [], [])
    else
      var before := schedule[..|schedule| - 1];
      Enter(BookOf(size, blank, before), Execute(size, blank, before).s, schedule[|schedule| - 1])
  }

  // ---------------------------------------------------------------- one call

  /** A call that has returned: an Enqueue has won a ticket for its argument and published it, or
      was told that the queue is full; a Dequeue has taken one element, or was told that the
      queue is empty. */
  ghost predicate Answered(story: Story) {
    match story.call
    case Enqueue(v) => story.events == [Claim(v), Publish(v)] || (|story.events| == 1 && story.events[0].Full?)
    case Dequeue => |story.events| == 1 && (story.events[0].Take? || story.events[0].Empty?)
  }

  /** A call under way: an Enqueue may have won a ticket, a Dequeue has done nothing. */
  ghost predicate Underway(story: Story, pc: Pc) {
    match pc
    case Idle => false
    case EnqTail(v, _) => story == Story(Enqueue(v), [])
    case EnqChecked(v, _) => story == Story(Enqueue(v), [])
    case EnqClaimed(v, _) => story == Story(Enqueue(v), [Claim(v)])
    case EnqWritten(v, _) => story == Story(Enqueue(v), [Claim(v)])
    case _ => story == Story(Dequeue, [])
  }

  ghost predicate Told(book: Book, s: State, t: nat) {
    if t !in book.stories then PcOf(s, t).Idle?
    else if PcOf(s, t).Idle? then Answered(book.stories[t])
    else Underway(book.stories[t], PcOf(s, t))
  }

  lemma EnterTells(book: Book, s: State, a: Action, t: nat)
    requires |s.pool| > 0 && Told(book, s, a.t) && Told(book, s, t)
    ensures Told(Enter(book, s, a), Step(s, a).0, t)
  {
  }

  /** In every run each call of Enqueue(v) that has returned has won exactly one ticket, for `v`,
      and published `v`, or has been told "full" and done nothing; each Dequeue has taken one
      element or been told "empty"; and no call under way has done more than win its ticket. */
  lemma {:induction false} CallsAnsweredOverRuns(size: nat, blank: Value, schedule: seq<Action>, t: nat)
    ensures Told(BookOf(size, blank, schedule), Execute(size, blank, schedule).s, t)
  {
    if schedule != [] {
      var before, a := schedule[..|schedule| - 1], schedule[|schedule| - 1];
      CallsAnsweredOverRuns(size, blank, before, t);
      CallsAnsweredOverRuns(size, blank, before, a.t);
      EnterTells(BookOf(size, blank, before), Execute(size, blank, before).s, a, t);
    }
  }

  // ---------------------------------------------------------------- end to end

  ghost predicate InStep(book: Book, r: Run) {
    book.won == r.claimed && book.entered == r.published
  }

  lemma EnterInStep(book: Book, r: Run, a: Action)
    requires |r.s.pool| > 0 && Told(book, r.s, a.t) && InStep(book, r)
    ensures InStep(Enter(book, r.s, a), Record(r, a))
  {
  }

  /** Tickets are won and published for the arguments of the calls. */
  lemma {:induction false} ValuesAreArguments(size: nat, blank: Value, schedule: seq<Action>)
    ensures InStep(BookOf(size, blank, schedule), Execute(size, blank, schedule))
  {
    if schedule != [] {
      var before, a := schedule[..|schedule| - 1], schedule[|schedule| - 1];
      ValuesAreArguments(size, blank, before);
      CallsAnsweredOverRuns(size, blank, before, a.t);
      EnterInStep(BookOf(size, blank, before), Execute(size, blank, before), a);
    }
  }

  /** End to end: in every run the elements that Dequeue calls return are, in order, a prefix of
      the arguments of the Enqueue calls that have published, and these are a prefix of the
      arguments of the Enqueue calls that have won a ticket. */
  lemma CallersValuesComeOut(size: nat, blank: Value, schedule: seq<Action>)
    ensures var (r, book) := (Execute(size, blank, schedule), BookOf(size, blank, schedule));
      r.taken <= book.entered <= book.won
  {
    FifoOverRuns(size, blank, schedule);
    ValuesAreArguments(size, blank, schedule);
  }

  // ---------------------------------------------------------------- a thread on its own

  /** Thread `t` takes `k` steps in a row, beginning `call` if it is idle. */
  function Alone(s: State, t: nat, call: Call, k: nat): State
    requires |s.pool| > 0
    decreases k
  {
    if k == 0 then s else Alone(Step(s, Action(t, call, false)).0, t, call, k - 1)
  }

  /** Thread `t` has returned, or waits for an earlier ticket to be published. */
  predicate ReturnedOrBehind(s: State, t: nat) {
    var pc := PcOf(s, t);
    pc.Idle? || (pc.EnqWritten? && pc.ticket != s.commit)
  }

  /** How many steps thread `t` still needs: more if what it has loaded is no longer current. */
  function Remaining(s: State, t: nat): nat {
    match PcOf(s, t)
    case Idle => 0
    case EnqTail(_, oldTail) => if oldTail == s.tail then 4 else 6
    case EnqChecked(_, oldTail) => if oldTail == s.tail then 3 else 5
    case EnqClaimed(_, _) => 2
    case EnqWritten(_, _) => 1
    case DeqHead(oldHead) => if oldHead == s.head then 3 else 6
    case DeqChecked(oldHead) => if oldHead == s.head then 2 else 5
    case DeqCopied(oldHead, _) => if oldHead == s.head then 1 else 4
  }

  lemma OneStepNearer(s: State, t: nat, call: Call)
    requires |s.pool| > 0 && !ReturnedOrBehind(s, t)
    ensures Remaining(Step(s, Action(t, call, false)).0, t) < Remaining(s, t)
  {
  }

  /** No call is held up by others, except behind a writer with an earlier ticket: from any state
      at all, a thread inside a call that is left alone returns within six steps, or has won its
      ticket and waits for an earlier one. */
  lemma {:induction false} AloneReturns(s: State, t: nat, call: Call) returns (k: nat)
    requires |s.pool| > 0
    ensures k <= Remaining(s, t) <= 6 && ReturnedOrBehind(Alone(s, t, call, k), t)
    decreases Remaining(s, t)
  {
    if ReturnedOrBehind(s, t) {
      k := 0;
    } else {
      OneStepNearer(s, t, call);
      k := AloneReturns(Step(s, Action(t, call, false)).0, t, call);
      k := k + 1;
    }
  }
}
