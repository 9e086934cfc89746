/**
 What each call on a registry amounts to between its beginning and its return, whatever other
 threads do meanwhile, and that a registration that is left alone ends where one after another
 would.
 */
module RegistryCalls {
  import opened IdRegistry
  import opened RegistryRace

  // ---------------------------------------------------------------- one call

  /** A thread's latest call, and the names it has set since it began, with their ids. */
  datatype Story = Story(call: Call, named: seq<(string, Id)>)

  function Current(stories: map<nat, Story>, s: State, a: Action): Story {
    if PcOf(s.threads, a.t) == Idle || a.t !in stories then Story(a.call, []) else stories[a.t]
  }

  /** What a step adds to the names set. */
  function Added(s: State, s': State): seq<(string, Id)> {
    if |s.settled| <= |s'.settled| then s'.settled[|s.settled|..] else []
  }

  function Enter(hash: string -> Id, stories: map<nat, Story>, s: State, a: Action): map<nat, Story> {
    var story := Current(stories, s, a);
    stories[a.t := story.(named := story.named + Added(s, Step(hash, s, a)))]
  }

  function Stories(hash: string -> Id, schedule: seq<Action>): map<nat, Story> {
    if schedule == [] then map[]
    else
      var before := schedule[..|schedule| - 1];
      Enter(hash, Stories(hash, before), Execute(hash, before), schedule[|schedule| - 1])
  }

  /** A call that has done its work: Register(n) has set `n`, once; LookUp has set nothing. */
  predicate Done(story: Story) {
    match story.call
    case Register(n) => |story.named| == 1 && story.named[0].0 == n
    case LookUp(_) => story.named == []
  }

  predicate Told(stories: map<nat, Story>, ts: map<nat, Pc>, t: nat) {
    if t !in stories then PcOf(ts, t) == Idle
    else
      match PcOf(ts, t)
      case Idle => Done(stories[t])
      case AtDelete(_) => stories[t].call.Register? && Done(stories[t])
      case LookGet(id) => stories[t] == Story(LookUp(id), [])
      case LookRead(_) => stories[t].call.LookUp? && Done(stories[t])
      case AtHas(n, _) => stories[t] == Story(Register(n), [])
      case AtGet(n, _) => stories[t] == Story(Register(n), [])
      case AtCompare(n, _, _) => stories[t] == Story(Register(n), [])
      case AtWarn(n, _, _) => stories[t] == Story(Register(n), [])
      case AtSet(n, _) => stories[t] == Story(Register(n), [])
  }

  lemma MoverIsTold(hash: string -> Id, stories: map<nat, Story>, s: State, a: Action)
    requires Told(stories, s.threads, a.t)
    ensures Told(Enter(hash, stories, s, a), Step(hash, s, a).threads, a.t)
  {
  }

  /** In every run each Register(n) that has returned has set `n`, exactly once, each LookUp has
      set nothing, and no call under way has done more. */
  lemma {:induction false} CallsAnsweredOverRuns(hash: string -> Id, schedule: seq<Action>, t: nat)
    ensures Told(Stories(hash, schedule), Execute(hash, schedule).threads, t)
  {
    if schedule != [] {
      var before, a := schedule[..|schedule| - 1], schedule[|schedule| - 1];
      CallsAnsweredOverRuns(hash, before, t);
      if t == a.t {
        MoverIsTold(hash, Stories(hash, before), Execute(hash, before), a);
      } else {
        StepMovesOne(hash, Execute(hash, before), a);
      }
    }
  }

  // ---------------------------------------------------------------- look-ups

  /** A thread about to read the string of a look-up holds the one its id leads to. */
  ghost predicate Looks(stories: map<nat, Story>, s: State, t: nat) {
    PcOf(s.threads, t).LookRead? ==>
      && t in stories && stories[t].call.LookUp?
      && PcOf(s.threads, t).cell < |s.cells|
      && stories[t].call.id in NamesOf(s)
      && NamesOf(s)[stories[t].call.id] == s.cells[PcOf(s.threads, t).cell]
  }

  lemma StepKeepsLooks(hash: string -> Id, stories: map<nat, Story>, s: State, a: Action, t: nat)
    requires CellsOk(s) && Looks(stories, s, t) && Told(stories, s.threads, a.t) && !Overwrites(s, a)
    ensures Looks(Enter(hash, stories, s, a), Step(hash, s, a), t)
  {
    var pc := PcOf(s.threads, a.t);
    if pc.AtSet? {
      SetNames(s, pc.name, pc.id);
    } else {
      OtherSteps(hash, s, a);
    }
  }

  lemma {:induction false} LooksUpTo(hash: string -> Id, schedule: seq<Action>, k: nat, t: nat)
    requires k <= |schedule| && NeverOverwrites(hash, schedule)
    ensures Looks(Stories(hash, schedule[..k]), Execute(hash, schedule[..k]), t)
  {
    if k > 0 {
      LooksUpTo(hash, schedule, k - 1, t);
      var (before, a) := (schedule[..k - 1], schedule[k - 1]);
      AlwaysOriginated(hash, before);
      CallsAnsweredOverRuns(hash, before, a.t);
      assert schedule[..k][..k - 1] == before;
      StepKeepsLooks(hash, Stories(hash, before), Execute(hash, before), a, t);
    }
  }

  /** What a step of LookUp answers, if it ends the call: the empty string if Get found nothing,
      and otherwise what the pointer leads to. */
  function AnswerOf(s: State, a: Action): seq<string> {
    match PcOf(s.threads, a.t)
    case LookGet(id) => if id in s.bound then [] else [""]
    case LookRead(cell) => [Read(s, cell, a.junk)]
    case _ => []
  }

  /** In every run that loses no name, a LookUp(id) that reads no deleted string answers with the
      name that `id` has at that instant, and with the empty string only if `id` has none. */
  lemma LookUpAnswersRight(hash: string -> Id, schedule: seq<Action>, a: Action)
    requires NeverOverwrites(hash, schedule) && !Dangles(Execute(hash, schedule), a)
    ensures var (s, stories) := (Execute(hash, schedule), Stories(hash, schedule));
      AnswerOf(s, a) != [] ==>
        && a.t in stories && stories[a.t].call.LookUp?
        && var id := stories[a.t].call.id; AnswerOf(s, a) == [if id in NamesOf(s) then NamesOf(s)[id] else ""]
  {
    CallsAnsweredOverRuns(hash, schedule, a.t);
    LooksUpTo(hash, schedule, |schedule|, a.t);
    assert schedule[..|schedule|] == schedule;
  }

  // ---------------------------------------------------------------- strings in use are not deleted

  /** The strings that ids lead to are different ones, and none has been deleted. */
  ghost predicate LiveStrings(bound: map<Id, nat>, cells: seq<string>, deleted: set<nat>) {
    && (forall id | id in bound :: bound[id] < |cells| && bound[id] !in deleted)
    && (forall i, j | i in bound && j in bound && bound[i] == bound[j] :: i == j)
    && (forall c | c in deleted :: c < |cells|)
  }

  /** A string about to be deleted is one that no id leads to. */
  ghost predicate Dooms(bound: map<Id, nat>, cells: seq<string>, pc: Pc) {
    pc.AtDelete? ==> pc.cell < |cells| && forall id | id in bound :: bound[id] != pc.cell
  }

  ghost predicate Live(s: State) {
    && LiveStrings(s.bound, s.cells, s.deleted)
    && forall t: nat :: Dooms(s.bound, s.cells, PcOf(s.threads, t))
  }

  /** The mover is all right, and the others have lost nothing. */
  lemma MoveKeepsLive(s: State, s': State, t: nat, pc: Pc)
    requires Live(s) && LiveStrings(s'.bound, s'.cells, s'.deleted) && s'.threads == s.threads[t := pc]
    requires Dooms(s'.bound, s'.cells, pc) && |s.cells| <= |s'.cells|
    requires forall id | id in s'.bound :: s'.bound[id] >= |s.cells| || (id in s.bound && s.bound[id] == s'.bound[id])
    ensures Live(s')
  {
    forall u: nat ensures Dooms(s'.bound, s'.cells, PcOf(s'.threads, u)) {
      assert Dooms(s.bound, s.cells, PcOf(s.threads, u));
    }
  }

  lemma StepKeepsLive(hash: string -> Id, s: State, a: Action)
    requires Live(s)
    ensures Live(Step(hash, s, a))
  {
    var s', pc := Step(hash, s, a), PcOf(s.threads, a.t);
    assert Dooms(s.bound, s.cells, pc);
    if pc.AtSet? {
      MoveKeepsLive(s, s', a.t, PcOf(s'.threads, a.t));
    } else if pc.AtDelete? {
      MoveKeepsLive(s, s', a.t, Idle);
    } else {
      OtherSteps(hash, s, a);
      OtherDeletesNothing(hash, s, a);
      if s' != s {
        MoveKeepsLive(s, s', a.t, PcOf(s'.threads, a.t));
      }
    }
  }

  lemma OtherDeletesNothing(hash: string -> Id, s: State, a: Action)
    requires !PcOf(s.threads, a.t).AtSet? && !PcOf(s.threads, a.t).AtDelete?
    ensures var s' := Step(hash, s, a);
      && s'.deleted == s.deleted && !PcOf(s'.threads, a.t).AtDelete?
      && (s' == s || s'.threads == s.threads[a.t := PcOf(s'.threads, a.t)])
  {
  }

  /** In every run, sound or not, a string that an id leads to has not been deleted. */
  lemma {:induction false} LiveOverRuns(hash: string -> Id, schedule: seq<Action>)
    ensures Live(Execute(hash, schedule))
  {
    if schedule != [] {
      LiveOverRuns(hash, schedule[..|schedule| - 1]);
      StepKeepsLive(hash, Execute(hash, schedule[..|schedule| - 1]), schedule[|schedule| - 1]);
    }
  }

  // ---------------------------------------------------------------- a thread on its own

  function Alone(hash: string -> Id, s: State, a: Action, k: nat): State
    decreases k
  {
    if k == 0 then s else Alone(hash, Step(hash, s, a), a, k - 1)
  }

  lemma {:induction false} AloneMore(hash: string -> Id, s: State, a: Action, j: nat, k: nat)
    ensures Alone(hash, s, a, j + k) == Alone(hash, Alone(hash, s, a, j), a, k)
    decreases j
  {
    if j > 0 {
      AloneMore(hash, Step(hash, s, a), a, j - 1, k);
    }
  }

  /** An id that another name has is passed in four steps that change nothing else. */
  lemma PassAlone(hash: string -> Id, s: State, a: Action, name: string, id: Id)
    requires Live(s) && PcOf(s.threads, a.t) == AtHas(name, id)
    requires id in NamesOf(s) && NamesOf(s)[id] != name
    ensures Alone(hash, s, a, 4) == Goto(s, a.t, AtHas(name, Plus(id, 1)))
  {
    var s2 := CompareAlone(hash, s, a, name, id);
    var s3 := Step(hash, s2, a);
    assert s3 == Goto(s2, a.t, AtWarn(name, Plus(id, 1), s.bound[id]));
    assert Alone(hash, s2, a, 2) == Step(hash, s3, a) == Goto(s3, a.t, AtHas(name, Plus(id, 1)));
    AloneMore(hash, s, a, 2, 2);
  }

  lemma CompareAlone(hash: string -> Id, s: State, a: Action, name: string, id: Id) returns (s2: State)
    requires PcOf(s.threads, a.t) == AtHas(name, id) && id in s.bound
    ensures s2 == Alone(hash, s, a, 2) == Goto(s, a.t, AtCompare(name, id, s.bound[id]))
  {
    var s1 := Step(hash, s, a);
    assert s1 == Goto(s, a.t, AtGet(name, id));
    s2 := Step(hash, s1, a);
    assert s2 == Goto(s1, a.t, AtCompare(name, id, s.bound[id]));
    assert Alone(hash, s, a, 2) == Alone(hash, s1, a, 1);
  }

  /** An id that is free or has the name is settled on. */
  lemma SettleAlone(hash: string -> Id, s: State, a: Action, name: string, id: Id) returns (k: nat)
    requires Live(s) && PcOf(s.threads, a.t) == AtHas(name, id) && Fits(NamesOf(s), name, id)
    ensures k <= 5
    ensures var s' := Alone(hash, s, a, k);
      PcOf(s'.threads, a.t) == Idle && s'.settled == s.settled + [(name, id)] && NamesOf(s') == NamesOf(s)[id := name]
  {
    SetNames(s, name, id);
    if id in s.bound {
      k := 5;
      var s2 := CompareAlone(hash, s, a, name, id);
      var s3 := Step(hash, s2, a);
      assert s3 == Goto(s2, a.t, AtSet(name, id));
      var s4 := Step(hash, s3, a);
      assert s4 == Goto(SetName(s3, name, id), a.t, AtDelete(s.bound[id]));
      assert Alone(hash, s2, a, 3) == Alone(hash, s3, a, 2) == Alone(hash, s4, a, 1) == Step(hash, s4, a);
      AloneMore(hash, s, a, 2, 3);
    } else {
      k := 2;
      var s1 := Step(hash, s, a);
      assert s1 == Goto(s, a.t, AtSet(name, id));
      assert Alone(hash, s, a, 2) == Step(hash, s1, a);
    }
  }

  lemma {:induction false} ProbeAlone(
    hash: string -> Id, s: State, a: Action, name: string, id: Id, stop: Id) returns (k: nat)
    requires Live(s) && PcOf(s.threads, a.t) == AtHas(name, id) && StopsAt(NamesOf(s), name, id, stop)
    ensures k <= 4 * Distance(id, stop) + 5
    ensures var s' := Alone(hash, s, a, k);
      && PcOf(s'.threads, a.t) == Idle && s'.settled == s.settled + [(name, stop)]
      && NamesOf(s') == NamesOf(s)[stop := name]
    decreases Distance(id, stop)
  {
    if id == stop {
      k := SettleAlone(hash, s, a, name, id);
    } else {
      assert Plus(id, 0) == id;
      PassAlone(hash, s, a, name, id);
      var s' := Goto(s, a.t, AtHas(name, Plus(id, 1)));
      OneFurther(NamesOf(s), name, id, stop);
      MoveKeepsLive(s, s', a.t, AtHas(name, Plus(id, 1)));
      k := ProbeAlone(hash, s', a, name, Plus(id, 1), stop);
      AloneMore(hash, s, a, 4, k);
      k := 4 + k;
    }
  }

  lemma OneFurther(names: map<Id, string>, name: string, id: Id, stop: Id)
    requires StopsAt(names, name, id, stop) && id != stop
    ensures StopsAt(names, name, Plus(id, 1), stop) && Distance(Plus(id, 1), stop) == Distance(id, stop) - 1
  {
    var d := Distance(id, stop);
    forall i: Id | i < d - 1 ensures Plus(Plus(id, 1), i) in names && names[Plus(Plus(id, 1), i)] != name {
      assert Plus(Plus(id, 1), i) == Plus(id, i + 1);
    }
  }

  /** In every run, sound or not, a Register(n) that is left alone returns, and does what the
      registry used by one thread does: it binds `n` to the first id, counting up from its hash,
      that is free or has `n`, and changes no other binding. */
  lemma RegisterAlone(hash: string -> Id, schedule: seq<Action>, a: Action, stop: Id) returns (k: nat)
    requires var s := Execute(hash, schedule);
      PcOf(s.threads, a.t) == Idle && a.call.Register? && StopsAt(NamesOf(s), a.call.name, hash(a.call.name), stop)
    ensures k <= 4 * Distance(hash(a.call.name), stop) + 6
    ensures var (s, n) := (Execute(hash, schedule), a.call.name);
      var s' := Alone(hash, s, a, k);
      && PcOf(s'.threads, a.t) == Idle && s'.settled == s.settled + [(n, stop)]
      && NamesOf(s') == NamesOf(s)[stop := n]
  {
    var s, n := Execute(hash, schedule), a.call.name;
    LiveOverRuns(hash, schedule);
    StepKeepsLive(hash, s, a);
    k := ProbeAlone(hash, Step(hash, s, a), a, n, hash(n), stop);
    k := k + 1;
  }
}
