/**
 Registrations and look-ups that overlap in time.  One step of a thread is one operation on the
 id map, which acts like an atomic map (`AtomicHashMap.StepsRefineMap`), or one read through a
 pointer that Get returned.  Set puts a new string in place of the one the id had, and then, in
 a step of its own, deletes the old one.  Reading a deleted string gives anything: what it gives
 comes with the action.
 */
module RegistryRace {
  import opened IdRegistry

  datatype Call = Register(name: string) | LookUp(id: Id)

  datatype Pc =
    | Idle
    | AtHas(name: string, id: Id)                // Has(id) next
    | AtGet(name: string, id: Id)                // Has said yes, Get(id) next
    | AtCompare(name: string, id: Id, cell: nat) // pointer in hand, comparison next
    | AtWarn(name: string, id: Id, cell: nat)    // id incremented, the string is read once more
    | AtSet(name: string, id: Id)                // loop left, Set(id, name) next
    | AtDelete(cell: nat)                        // the string that was replaced is deleted next
    | LookGet(id: Id)
    | LookRead(cell: nat)

  /** `bound` leads from ids to strings in `cells`.  `settled` and `begun` are history: the names
      set and their ids, in order, and the calls begun. */
  datatype State = State(
    bound: map<Id, nat>,
    cells: seq<string>,
    deleted: set<nat>,
    settled: seq<(string, Id)>,
    begun: multiset<Call>,
    threads: map<nat, Pc>)

  /** Thread `t` takes its next step; idle, it begins `call`.  `junk` is what a deleted string reads as. */
  datatype Action = Action(t: nat, call: Call, junk: string)

  const START := State(map[], [], {}, [], multiset{}, map[])

  function PcOf(ts: map<nat, Pc>, t: nat): Pc {
    if t in ts then ts[t] else Idle
  }

  function Goto(s: State, t: nat, pc: Pc): State {
    s.(threads := s.threads[t := pc])
  }

  function Cell(cells: seq<string>, c: nat): string {
    if c < |cells| then cells[c] else ""
  }

  /** What reading through a pointer gives. */
  function Read(s: State, c: nat, junk: string): string {
    if c in s.deleted then junk else Cell(s.cells, c)
  }

  function Step(hash: string -> Id, s: State, a: Action): State {
    match PcOf(s.threads, a.t)
    case Idle =>
      Goto(s.(begun := s.begun + multiset{a.call}), a.t,
           if a.call.Register? then AtHas(a.call.name, hash(a.call.name)) else LookGet(a.call.id))
    case AtHas(name, id) => Goto(s, a.t, if id in s.bound then AtGet(name, id) else AtSet(name, id))
    case AtGet(name, id) => if id in s.bound then Goto(s, a.t, AtCompare(name, id, s.bound[id])) else s
    case AtCompare(name, id, cell) =>
      Goto(s, a.t, if Read(s, cell, a.junk) == name then AtSet(name, id) else AtWarn(name, Plus(id, 1), cell))
    case AtWarn(name, id, cell) => Goto(s, a.t, AtHas(name, id))
    case AtSet(name, id) => Goto(SetName(s, name, id), a.t, if id in s.bound then AtDelete(s.bound[id]) else Idle)
    case AtDelete(cell) => Goto(s.(deleted := s.deleted + {cell}), a.t, Idle)
    case LookGet(id) => Goto(s, a.t, if id in s.bound then LookRead(s.bound[id]) else Idle)
    case LookRead(cell) => Goto(s, a.t, Idle)
  }

  function SetName(s: State, name: string, id: Id): State {
    s.(bound := s.bound[id := |s.cells|], cells := s.cells + [name], settled := s.settled + [(name, id)])
  }

  function Execute(hash: string -> Id, schedule: seq<Action>): State {
    if schedule == [] then START
    else Step(hash, Execute(hash, schedule[..|schedule| - 1]), schedule[|schedule| - 1])
  }

  lemma PrefixStep(hash: string -> Id, schedule: seq<Action>, k: nat)
    requires k < |schedule|
    ensures Execute(hash, schedule[..k + 1]) == Step(hash, Execute(hash, schedule[..k]), schedule[k])
  {
    assert schedule[..k + 1][..k] == schedule[..k];
  }

  lemma ExecuteMore(hash: string -> Id, schedule: seq<Action>, a: Action)
    ensures Execute(hash, schedule + [a]) == Step(hash, Execute(hash, schedule), a)
  {
    assert (schedule + [a])[..|schedule|] == schedule;
  }

  // ---------------------------------------------------------------- the naming

  /** The naming that the map stands for. */
  function Names(bound: map<Id, nat>, cells: seq<string>): map<Id, string> {
    map id | id in bound :: Cell(cells, bound[id])
  }

  function NamesOf(s: State): map<Id, string> {
    Names(s.bound, s.cells)
  }

  ghost predicate CellsOk(s: State) {
    forall id | id in s.bound :: s.bound[id] < |s.cells|
  }

  /** One more binding, and no other change. */
  lemma SetNames(s: State, name: string, id: Id)
    requires CellsOk(s)
    ensures NamesOf(SetName(s, name, id)) == NamesOf(s)[id := name] && CellsOk(SetName(s, name, id))
  {
  }

  /** Every id settled on still leads to its name. */
  ghost predicate Lawful(s: State) {
    forall i | 0 <= i < |s.settled| :: Kept(NamesOf(s), s.settled[i])
  }

  predicate Kept(names: map<Id, string>, r: (string, Id)) {
    r.1 in names && names[r.1] == r.0
  }

  /** The step is a Set that replaces another name. */
  predicate Overwrites(s: State, a: Action) {
    var pc := PcOf(s.threads, a.t);
    pc.AtSet? && !Fits(NamesOf(s), pc.name, pc.id)
  }

  /** The step reads a string that has been deleted. */
  predicate Dangles(s: State, a: Action) {
    var pc := PcOf(s.threads, a.t);
    (pc.AtCompare? || pc.AtWarn? || pc.LookRead?) && pc.cell in s.deleted
  }

  /** Every binding is there because its id was settled on for its name. */
  ghost predicate Originated(s: State) {
    CellsOk(s) && forall id | id in NamesOf(s) :: (NamesOf(s)[id], id) in s.settled
  }

  lemma OtherSteps(hash: string -> Id, s: State, a: Action)
    requires !PcOf(s.threads, a.t).AtSet?
    ensures var s' := Step(hash, s, a); s'.bound == s.bound && s'.cells == s.cells && s'.settled == s.settled
  {
  }

  lemma OriginatedStep(hash: string -> Id, s: State, a: Action)
    requires Originated(s)
    ensures Originated(Step(hash, s, a))
  {
    var s', pc := Step(hash, s, a), PcOf(s.threads, a.t);
    if pc.AtSet? {
      SetNames(s, pc.name, pc.id);
      assert s'.settled[|s.settled|] == (pc.name, pc.id);
      forall id | id in NamesOf(s') ensures (NamesOf(s')[id], id) in s'.settled {
        assert id != pc.id ==> (NamesOf(s)[id], id) in s.settled;
      }
    } else {
      OtherSteps(hash, s, a);
      assert NamesOf(s') == NamesOf(s);
    }
  }

  lemma {:induction false} AlwaysOriginated(hash: string -> Id, schedule: seq<Action>)
    ensures Originated(Execute(hash, schedule))
  {
    if schedule != [] {
      AlwaysOriginated(hash, schedule[..|schedule| - 1]);
      OriginatedStep(hash, Execute(hash, schedule[..|schedule| - 1]), schedule[|schedule| - 1]);
    }
  }

  lemma LawBreaksExactly(hash: string -> Id, s: State, a: Action)
    requires Lawful(s) && Originated(s)
    ensures Lawful(Step(hash, s, a)) <==> !Overwrites(s, a)
  {
    var s', pc := Step(hash, s, a), PcOf(s.threads, a.t);
    if pc.AtSet? {
      SetNames(s, pc.name, pc.id);
      if Overwrites(s, a) {
        var i :| 0 <= i < |s.settled| && s.settled[i] == (NamesOf(s)[pc.id], pc.id);
        assert s'.settled[i] == s.settled[i] && !Kept(NamesOf(s'), s'.settled[i]);
      } else {
        forall i | 0 <= i < |s'.settled| ensures Kept(NamesOf(s'), s'.settled[i]) {
          assert i < |s.settled| ==> s'.settled[i] == s.settled[i] && Kept(NamesOf(s), s.settled[i]);
        }
      }
    } else {
      OtherSteps(hash, s, a);
    }
  }

  ghost predicate LawfulThroughout(hash: string -> Id, schedule: seq<Action>) {
    forall k | 0 <= k <= |schedule| :: Lawful(Execute(hash, schedule[..k]))
  }

  ghost predicate NeverOverwrites(hash: string -> Id, schedule: seq<Action>) {
    forall k | 0 <= k < |schedule| :: !Overwrites(Execute(hash, schedule[..k]), schedule[k])
  }

  ghost predicate NeverDangles(hash: string -> Id, schedule: seq<Action>) {
    forall k | 0 <= k < |schedule| :: !Dangles(Execute(hash, schedule[..k]), schedule[k])
  }

  lemma {:induction false} LawfulUpTo(hash: string -> Id, schedule: seq<Action>, k: nat)
    requires k <= |schedule| && NeverOverwrites(hash, schedule)
    ensures Lawful(Execute(hash, schedule[..k]))
  {
    if k > 0 {
      LawfulUpTo(hash, schedule, k - 1);
      PrefixStep(hash, schedule, k - 1);
      AlwaysOriginated(hash, schedule[..k - 1]);
      LawBreaksExactly(hash, Execute(hash, schedule[..k - 1]), schedule[k - 1]);
    }
  }

  /** Over whole runs: every id settled on leads to its name all the way if and only if no Set
      of the run replaces another name. */
  lemma LawfulExactlyWithoutOverwrites(hash: string -> Id, schedule: seq<Action>)
    ensures LawfulThroughout(hash, schedule) <==> NeverOverwrites(hash, schedule)
  {
    if NeverOverwrites(hash, schedule) {
      forall k | 0 <= k <= |schedule| ensures Lawful(Execute(hash, schedule[..k])) {
        LawfulUpTo(hash, schedule, k);
      }
    }
    if LawfulThroughout(hash, schedule) {
      forall k | 0 <= k < |schedule| ensures !Overwrites(Execute(hash, schedule[..k]), schedule[k]) {
        PrefixStep(hash, schedule, k);
        assert Lawful(Execute(hash, schedule[..k + 1]));
        AlwaysOriginated(hash, schedule[..k]);
        LawBreaksExactly(hash, Execute(hash, schedule[..k]), schedule[k]);
      }
    }
  }

  // ---------------------------------------------------------------- sound runs name injectively

  /** Everything a probe has passed is taken by other names, and the string it is about to
      compare says what its id is bound to. */
  ghost predicate ProbeOk(hash: string -> Id, names: map<Id, string>, cells: seq<string>, pc: Pc) {
    && (pc.AtHas? || pc.AtGet? || pc.AtCompare? || pc.AtWarn? || pc.AtSet? ==>
          TakenByOthers(names, pc.name, hash(pc.name), Distance(hash(pc.name), pc.id)))
    && (pc.AtGet? ==> pc.id in names)
    && (pc.AtCompare? ==> pc.cell < |cells| && pc.id in names && names[pc.id] == cells[pc.cell])
  }

  ghost predicate ProbesOk(hash: string -> Id, names: map<Id, string>, cells: seq<string>, ts: map<nat, Pc>) {
    forall t: nat :: ProbeOk(hash, names, cells, PcOf(ts, t))
  }

  ghost predicate Inv(hash: string -> Id, s: State) {
    Placed(hash, NamesOf(s)) && ProbesOk(hash, NamesOf(s), s.cells, s.threads) && Lawful(s) && Originated(s)
  }

  /** A binding that fits leaves every probe's findings as they are. */
  lemma ProbesStay(
    hash: string -> Id, names: map<Id, string>, cells: seq<string>, ts: map<nat, Pc>, id: Id, name: string)
    requires ProbesOk(hash, names, cells, ts) && Fits(names, name, id)
    ensures ProbesOk(hash, names[id := name], cells + [name], ts)
  {
    var names', cells' := names[id := name], cells + [name];
    forall t: nat ensures ProbeOk(hash, names', cells', PcOf(ts, t)) {
      assert ProbeOk(hash, names, cells, PcOf(ts, t));
    }
  }

  lemma ProbeMoves(hash: string -> Id, names: map<Id, string>, cells: seq<string>, ts: map<nat, Pc>, t: nat, pc: Pc)
    requires ProbesOk(hash, names, cells, ts) && ProbeOk(hash, names, cells, pc)
    ensures ProbesOk(hash, names, cells, ts[t := pc])
  {
    var ts' := ts[t := pc];
    forall u: nat ensures ProbeOk(hash, names, cells, PcOf(ts', u)) {
      assert ProbeOk(hash, names, cells, PcOf(ts, u));
    }
  }

  /** Passing an id that another name has. */
  lemma ProbePasses(hash: string -> Id, names: map<Id, string>, cells: seq<string>, name: string, id: Id, cell: nat)
    requires ProbeOk(hash, names, cells, AtCompare(name, id, cell)) && cells[cell] != name
    ensures ProbeOk(hash, names, cells, AtWarn(name, Plus(id, 1), cell))
  {
    var from := hash(name);
    if Plus(id, 1) != from {
      assert Distance(from, Plus(id, 1)) == Distance(from, id) + 1;
      assert Plus(from, Distance(from, id)) == id;
    }
  }

  lemma StepKeepsInv(hash: string -> Id, s: State, a: Action)
    requires Inv(hash, s) && !Overwrites(s, a) && !Dangles(s, a)
    ensures Inv(hash, Step(hash, s, a))
  {
    var s', pc := Step(hash, s, a), PcOf(s.threads, a.t);
    assert ProbeOk(hash, NamesOf(s), s.cells, pc);
    LawBreaksExactly(hash, s, a);
    OriginatedStep(hash, s, a);
    if pc.AtSet? {
      SetNames(s, pc.name, pc.id);
      RegisterKeepsPlaced(hash, NamesOf(s), pc.name, pc.id);
      ProbesStay(hash, NamesOf(s), s.cells, s.threads, pc.id, pc.name);
    } else if pc.AtCompare? && s.cells[pc.cell] != pc.name {
      ProbePasses(hash, NamesOf(s), s.cells, pc.name, pc.id, pc.cell);
    }
    ProbeMoves(hash, NamesOf(s'), s'.cells, s.threads, a.t, PcOf(s'.threads, a.t));
  }

  lemma {:induction false} InvUpTo(hash: string -> Id, schedule: seq<Action>, k: nat)
    requires k <= |schedule| && NeverOverwrites(hash, schedule) && NeverDangles(hash, schedule)
    ensures Inv(hash, Execute(hash, schedule[..k]))
  {
    if k > 0 {
      InvUpTo(hash, schedule, k - 1);
      PrefixStep(hash, schedule, k - 1);
      StepKeepsInv(hash, Execute(hash, schedule[..k - 1]), schedule[k - 1]);
    }
  }

  /** Equal names and only equal names have equal ids. */
  ghost predicate OneIdPerName(s: State) {
    forall i, j | 0 <= i < |s.settled| && 0 <= j < |s.settled| ::
      s.settled[i].1 == s.settled[j].1 <==> s.settled[i].0 == s.settled[j].0
  }

  /** In every run that replaces no other name and reads no deleted string, the naming is
      injective, although calls overlap. */
  lemma NamingSurvivesOverlap(hash: string -> Id, schedule: seq<Action>)
    requires NeverOverwrites(hash, schedule) && NeverDangles(hash, schedule)
    ensures var s := Execute(hash, schedule); Lawful(s) && OneIdPerName(s)
  {
    assert schedule[..|schedule|] == schedule;
    InvUpTo(hash, schedule, |schedule|);
    var s := Execute(hash, schedule);
    forall i, j | 0 <= i < |s.settled| && 0 <= j < |s.settled|
      ensures s.settled[i].1 == s.settled[j].1 <==> s.settled[i].0 == s.settled[j].0
    {
      SameNameSameId(hash, NamesOf(s), s.settled[i], s.settled[j]);
    }
  }

  lemma SameNameSameId(hash: string -> Id, names: map<Id, string>, x: (string, Id), y: (string, Id))
    requires Placed(hash, names) && Kept(names, x) && Kept(names, y)
    ensures x.1 == y.1 <==> x.0 == y.0
  {
    if x.0 == y.0 {
      StopIsUnique(names, x.0, hash(x.0), x.1, y.1);
    }
  }

  // ---------------------------------------------------------------- calls that are safe together

  /** No two different names share a hash, no name is registered by more than two calls, and a
      name registered by two is not looked up. */
  ghost predicate SafeTogether(hash: string -> Id, calls: multiset<Call>) {
    && (forall m, n | Register(m) in calls && Register(n) in calls && hash(m) == hash(n) :: m == n)
    && (forall n :: calls[Register(n)] <= 2)
    && (forall n | calls[Register(n)] == 2 :: LookUp(hash(n)) !in calls)
  }

  /** The thread is in a call that registers `name` and has not set it yet. */
  predicate Registering(pc: Pc, name: string) {
    (pc.AtHas? || pc.AtGet? || pc.AtCompare? || pc.AtWarn? || pc.AtSet?) && pc.name == name
  }

  function Pending(ts: map<nat, Pc>, name: string): set<nat> {
    set t | t in ts && Registering(ts[t], name)
  }

  /** Some later string says the same. */
  ghost predicate Replaced(cells: seq<string>, c: nat) {
    exists d: nat :: c < d < |cells| && cells[d] == cells[c]
  }

  /** Every name is at its hash, and so is every probe. */
  ghost predicate Home(hash: string -> Id, calls: multiset<Call>, s: State, pc: Pc) {
    match pc
    case Idle => true
    case AtHas(name, id) => Register(name) in calls && id == hash(name)
    case AtGet(name, id) => Register(name) in calls && id == hash(name) && id in s.bound
    case AtCompare(name, id, cell) =>
      Register(name) in calls && id == hash(name) && cell < |s.cells| && s.cells[cell] == name
    case AtWarn(_, _, _) => false
    case AtSet(name, id) => Register(name) in calls && id == hash(name)
    case AtDelete(cell) => Replaced(s.cells, cell)
    case LookGet(id) => LookUp(id) in calls
    case LookRead(cell) => cell < |s.cells| && LookUp(hash(s.cells[cell])) in calls
  }

  ghost predicate AllHome(hash: string -> Id, calls: multiset<Call>, s: State) {
    && (forall id | id in s.bound ::
          s.bound[id] < |s.cells| && hash(s.cells[s.bound[id]]) == id && Register(s.cells[s.bound[id]]) in calls)
    && (forall t: nat :: Home(hash, calls, s, PcOf(s.threads, t)))
    && (forall c | c in s.deleted :: Replaced(s.cells, c))
  }

  /** A call that registers a name has set it or is on its way. */
  ghost predicate Counted(s: State) {
    forall n :: s.begun[Register(n)] == multiset(s.cells)[n] + |Pending(s.threads, n)|
  }

  lemma PendingMoves(ts: map<nat, Pc>, t: nat, pc: Pc, n: string)
    ensures Pending(ts[t := pc], n) == if Registering(pc, n) then Pending(ts, n) + {t} else Pending(ts, n) - {t}
    ensures t in Pending(ts, n) <==> Registering(PcOf(ts, t), n)
  {
  }

  lemma StepCounts(hash: string -> Id, s: State, a: Action)
    requires Counted(s)
    ensures Counted(Step(hash, s, a))
  {
    var s', pc := Step(hash, s, a), PcOf(s.threads, a.t);
    var pc' := PcOf(s'.threads, a.t);
    forall n ensures s'.begun[Register(n)] == multiset(s'.cells)[n] + |Pending(s'.threads, n)| {
      PendingMoves(s.threads, a.t, pc', n);
      assert s.begun[Register(n)] == multiset(s.cells)[n] + |Pending(s.threads, n)|;
      BegunOrSet(hash, s, a, n);
      RegistersOn(hash, s, a, n);
      StepMovesOne(hash, s, a);
    }
  }

  lemma StepMovesOne(hash: string -> Id, s: State, a: Action)
    ensures Step(hash, s, a).threads == s.threads[a.t := PcOf(Step(hash, s, a).threads, a.t)] || Step(hash, s, a) == s
  {
  }

  lemma BegunOrSet(hash: string -> Id, s: State, a: Action, n: string)
    ensures var (s', pc) := (Step(hash, s, a), PcOf(s.threads, a.t));
      && s'.begun[Register(n)] == s.begun[Register(n)] + (if pc.Idle? && a.call == Register(n) then 1 else 0)
      && multiset(s'.cells)[n] == multiset(s.cells)[n] + (if pc.AtSet? && pc.name == n then 1 else 0)
  {
  }

  lemma RegistersOn(hash: string -> Id, s: State, a: Action, n: string)
    ensures var (pc, pc') := (PcOf(s.threads, a.t), PcOf(Step(hash, s, a).threads, a.t));
      Registering(pc', n) <==> (pc.Idle? && a.call == Register(n)) || (Registering(pc, n) && !pc.AtSet?)
  {
  }

  lemma {:induction false} AlwaysCounted(hash: string -> Id, schedule: seq<Action>)
    ensures Counted(Execute(hash, schedule))
  {
    if schedule == [] {
      assert forall n :: Pending(START.threads, n) == {};
    } else {
      AlwaysCounted(hash, schedule[..|schedule| - 1]);
      StepCounts(hash, Execute(hash, schedule[..|schedule| - 1]), schedule[|schedule| - 1]);
    }
  }

  lemma ReplacedIsTwice(cells: seq<string>, c: nat)
    ensures c < |cells| && Replaced(cells, c) ==> multiset(cells)[cells[c]] >= 2
  {
    if c < |cells| && Replaced(cells, c) {
      var d: nat :| c < d < |cells| && cells[d] == cells[c];
      assert cells == cells[..d] + [cells[d]] + cells[d + 1..];
      assert cells[..d][c] == cells[c];
    }
  }

  /** A string that a thread is about to read has not been replaced. */
  lemma ReadsAreLive(hash: string -> Id, calls: multiset<Call>, s: State, a: Action)
    requires SafeTogether(hash, calls) && AllHome(hash, calls, s) && Counted(s) && s.begun <= calls
    ensures !Dangles(s, a)
  {
    var pc := PcOf(s.threads, a.t);
    assert Home(hash, calls, s, pc);
    if pc.AtCompare? || pc.LookRead? {
      var n := s.cells[pc.cell];
      PendingMoves(s.threads, a.t, pc, n);
      assert s.begun[Register(n)] == multiset(s.cells)[n] + |Pending(s.threads, n)|;
      assert s.begun[Register(n)] <= calls[Register(n)];
      assert pc.AtCompare? ==> a.t in Pending(s.threads, n);
      assert calls[Register(n)] <= 2;
      assert multiset(s.cells)[n] <= 1;
      ReplacedIsTwice(s.cells, pc.cell);
    }
  }

  /** What holds of a thread goes on to hold while ids are bound and strings are added. */
  lemma HomeStays(hash: string -> Id, calls: multiset<Call>, s: State, s': State, pc: Pc)
    requires Home(hash, calls, s, pc) && s.cells <= s'.cells && s.bound.Keys <= s'.bound.Keys
    ensures Home(hash, calls, s', pc)
  {
    if pc.AtDelete? {
      ReplacedStays(s.cells, s'.cells, pc.cell);
    }
  }

  lemma ReplacedStays(cells: seq<string>, cells': seq<string>, c: nat)
    requires Replaced(cells, c) && cells <= cells'
    ensures Replaced(cells', c)
  {
    var d: nat :| c < d < |cells| && cells[d] == cells[c];
    assert cells'[d] == cells'[c];
  }

  lemma SetKeepsHome(hash: string -> Id, calls: multiset<Call>, s: State, a: Action)
    requires SafeTogether(hash, calls) && AllHome(hash, calls, s) && PcOf(s.threads, a.t).AtSet?
    ensures AllHome(hash, calls, Step(hash, s, a)) && !Overwrites(s, a)
  {
    var s', pc := Step(hash, s, a), PcOf(s.threads, a.t);
    assert Home(hash, calls, s, pc);
    if pc.id in s.bound {
      assert s'.cells[|s.cells|] == s'.cells[s.bound[pc.id]];
      assert Replaced(s'.cells, s.bound[pc.id]);
    }
    forall u: nat ensures Home(hash, calls, s', PcOf(s'.threads, u)) {
      assert Home(hash, calls, s, PcOf(s.threads, u));
      HomeStays(hash, calls, s, s', PcOf(s.threads, u));
    }
    forall c | c in s'.deleted ensures Replaced(s'.cells, c) {
      ReplacedStays(s.cells, s'.cells, c);
    }
  }

  lemma StepKeepsHome(hash: string -> Id, calls: multiset<Call>, s: State, a: Action)
    requires SafeTogether(hash, calls) && AllHome(hash, calls, s) && Counted(s)
    requires Step(hash, s, a).begun <= calls && s.begun <= calls
    ensures AllHome(hash, calls, Step(hash, s, a)) && !Overwrites(s, a) && !Dangles(s, a)
  {
    ReadsAreLive(hash, calls, s, a);
    if PcOf(s.threads, a.t).AtSet? {
      SetKeepsHome(hash, calls, s, a);
    } else {
      OtherSteps(hash, s, a);
      MoverIsHome(hash, calls, s, a);
      StepMovesOne(hash, s, a);
      var s' := Step(hash, s, a);
      forall u: nat ensures Home(hash, calls, s', PcOf(s'.threads, u)) {
        assert Home(hash, calls, s, PcOf(s.threads, u));
        HomeStays(hash, calls, s, s', PcOf(s.threads, u));
      }
    }
  }

  lemma MoverIsHome(hash: string -> Id, calls: multiset<Call>, s: State, a: Action)
    requires SafeTogether(hash, calls) && AllHome(hash, calls, s)
    requires !Dangles(s, a) && !PcOf(s.threads, a.t).AtSet?
    requires Step(hash, s, a).begun <= calls
    ensures var s' := Step(hash, s, a);
      && Home(hash, calls, s', PcOf(s'.threads, a.t))
      && forall c | c in s'.deleted :: Replaced(s'.cells, c)
  {
    assert Home(hash, calls, s, PcOf(s.threads, a.t));
    if PcOf(s.threads, a.t).Idle? {
      CallerIsHome(hash, calls, s, a);
    } else {
      OnTheWayIsHome(hash, calls, s, a);
    }
  }

  lemma CallerIsHome(hash: string -> Id, calls: multiset<Call>, s: State, a: Action)
    requires PcOf(s.threads, a.t).Idle? && Step(hash, s, a).begun <= calls
    ensures var s' := Step(hash, s, a);
      Home(hash, calls, s', PcOf(s'.threads, a.t)) && s'.deleted == s.deleted && s'.cells == s.cells
  {
    assert a.call in Step(hash, s, a).begun;
  }

  lemma OnTheWayIsHome(hash: string -> Id, calls: multiset<Call>, s: State, a: Action)
    requires SafeTogether(hash, calls) && AllHome(hash, calls, s)
    requires !Dangles(s, a) && !PcOf(s.threads, a.t).AtSet? && !PcOf(s.threads, a.t).Idle?
    ensures var s' := Step(hash, s, a);
      && Home(hash, calls, s', PcOf(s'.threads, a.t))
      && forall c | c in s'.deleted :: Replaced(s'.cells, c)
  {
    assert Home(hash, calls, s, PcOf(s.threads, a.t));
  }

  lemma BegunGrows(hash: string -> Id, s: State, a: Action)
    ensures s.begun <= Step(hash, s, a).begun
  {
  }

  lemma {:induction false} PrefixBegun(hash: string -> Id, schedule: seq<Action>, k: nat)
    requires k <= |schedule|
    ensures Execute(hash, schedule[..k]).begun <= Execute(hash, schedule).begun
    decreases |schedule| - k
  {
    if k == |schedule| {
      assert schedule[..k] == schedule;
    } else {
      PrefixStep(hash, schedule, k);
      BegunGrows(hash, Execute(hash, schedule[..k]), schedule[k]);
      PrefixBegun(hash, schedule, k + 1);
    }
  }

  lemma {:induction false} HomeUpTo(hash: string -> Id, calls: multiset<Call>, schedule: seq<Action>, k: nat)
    requires k <= |schedule| && SafeTogether(hash, calls) && Execute(hash, schedule).begun <= calls
    ensures AllHome(hash, calls, Execute(hash, schedule[..k]))
  {
    if k > 0 {
      HomeUpTo(hash, calls, schedule, k - 1);
      SafeStep(hash, calls, schedule, k - 1);
    }
  }

  lemma SafeStep(hash: string -> Id, calls: multiset<Call>, schedule: seq<Action>, k: nat)
    requires k < |schedule| && SafeTogether(hash, calls) && Execute(hash, schedule).begun <= calls
    requires AllHome(hash, calls, Execute(hash, schedule[..k]))
    ensures AllHome(hash, calls, Execute(hash, schedule[..k + 1]))
    ensures !Overwrites(Execute(hash, schedule[..k]), schedule[k])
    ensures !Dangles(Execute(hash, schedule[..k]), schedule[k])
  {
    PrefixStep(hash, schedule, k);
    PrefixBegun(hash, schedule, k);
    PrefixBegun(hash, schedule, k + 1);
    AlwaysCounted(hash, schedule[..k]);
    StepKeepsHome(hash, calls, Execute(hash, schedule[..k]), schedule[k]);
  }

  /** The run never loses a name and never reads a deleted string. */
  ghost predicate Sound(hash: string -> Id, schedule: seq<Action>) {
    LawfulThroughout(hash, schedule) && NeverDangles(hash, schedule)
  }

  lemma SafeTogetherIsSound(hash: string -> Id, calls: multiset<Call>, schedule: seq<Action>)
    requires SafeTogether(hash, calls) && Execute(hash, schedule).begun <= calls
    ensures Sound(hash, schedule)
  {
    forall k | 0 <= k < |schedule|
      ensures !Overwrites(Execute(hash, schedule[..k]), schedule[k])
      ensures !Dangles(Execute(hash, schedule[..k]), schedule[k])
    {
      HomeUpTo(hash, calls, schedule, k);
      SafeStep(hash, calls, schedule, k);
    }
    LawfulExactlyWithoutOverwrites(hash, schedule);
  }

  // ---------------------------------------------------------------- calls that are not

  /** Thread `a.t` takes `k` steps in a row. */
  function Times(hash: string -> Id, s: State, a: Action, k: nat): State {
    if k == 0 then s else Step(hash, Times(hash, s, a, k - 1), a)
  }

  lemma {:induction false} ExecuteTimes(hash: string -> Id, schedule: seq<Action>, a: Action, k: nat)
    returns (longer: seq<Action>)
    ensures Execute(hash, longer) == Times(hash, Execute(hash, schedule), a, k)
  {
    if k == 0 {
      longer := schedule;
    } else {
      var shorter := ExecuteTimes(hash, schedule, a, k - 1);
      ExecuteMore(hash, shorter, a);
      longer := shorter + [a];
    }
  }

  lemma OneTime(hash: string -> Id, s: State, a: Action)
    ensures Times(hash, s, a, 1) == Step(hash, s, a)
  {
    assert Times(hash, s, a, 0) == s;
  }

  /** The first registration of a name, undisturbed. */
  lemma FirstRegistration(hash: string -> Id, s: State, a: Action)
    requires s == START && a.call.Register?
    ensures var h := hash(a.call.name);
      Times(hash, s, a, 3) ==
        State(map[h := 0], [a.call.name], {}, [(a.call.name, h)], multiset{a.call}, map[a.t := Idle])
  {
    var n, h := a.call.name, hash(a.call.name);
    OneTime(hash, s, a);
    assert Times(hash, s, a, 1) == State(map[], [], {}, [], multiset{a.call}, map[a.t := AtHas(n, h)]);
    assert Times(hash, s, a, 2) == State(map[], [], {}, [], multiset{a.call}, map[a.t := AtSet(n, h)]);
  }

  /** A name is registered and bound to its first string, which is live. */
  predicate Fresh(hash: string -> Id, s: State, n: string) {
    hash(n) in s.bound && s.bound[hash(n)] == 0 && s.cells == [n] && s.deleted == {}
  }

  /** A second registration, or a look-up, gets the pointer. */
  lemma GetsPointer(hash: string -> Id, s: State, a: Action, n: string)
    requires Fresh(hash, s, n) && PcOf(s.threads, a.t) == Idle
    requires a.call == Register(n) || a.call == LookUp(hash(n))
    ensures var k := if a.call.Register? then 3 else 2;
      var s' := Times(hash, s, a, k);
      && Fresh(hash, s', n) && s'.begun == s.begun + multiset{a.call}
      && PcOf(s'.threads, a.t) == (if a.call.Register? then AtCompare(n, hash(n), 0) else LookRead(0))
      && forall u: nat | u != a.t :: PcOf(s'.threads, u) == PcOf(s.threads, u)
  {
    OneTime(hash, s, a);
    var s1 := Times(hash, s, a, 1);
    var s2 := Times(hash, s, a, 2);
    assert s2 == Step(hash, s1, a);
  }

  /** One more registration gets as far as Set ... */
  lemma ComesToSet(hash: string -> Id, s: State, a: Action, n: string)
    requires Fresh(hash, s, n) && PcOf(s.threads, a.t) == Idle && a.call == Register(n)
    ensures var s' := Times(hash, s, a, 4);
      && Fresh(hash, s', n) && PcOf(s'.threads, a.t) == AtSet(n, hash(n)) && s'.begun == s.begun + multiset{a.call}
      && forall u: nat | u != a.t :: PcOf(s'.threads, u) == PcOf(s.threads, u)
  {
    GetsPointer(hash, s, a, n);
    var s3 := Times(hash, s, a, 3);
    assert Times(hash, s, a, 4) == Step(hash, s3, a);
    assert PcOf(s3.threads, a.t).AtCompare?;
  }

  /** ... and deletes the string. */
  lemma Deletes(hash: string -> Id, s: State, a: Action, n: string)
    requires Fresh(hash, s, n) && PcOf(s.threads, a.t) == AtSet(n, hash(n))
    ensures var s' := Times(hash, s, a, 2);
      && s'.deleted == {0} && s'.begun == s.begun
      && forall u: nat | u != a.t :: PcOf(s'.threads, u) == PcOf(s.threads, u)
  {
    OneTime(hash, s, a);
    var s1 := Times(hash, s, a, 1);
    assert PcOf(s1.threads, a.t) == AtDelete(0);
    assert Times(hash, s, a, 2) == Step(hash, s1, a);
  }

  /** Thread 1 gets the pointer, and thread 2 registers the name again. */
  lemma PointerThenDelete(hash: string -> Id, s: State, a: Action, last: Action, n: string)
    requires Fresh(hash, s, n) && PcOf(s.threads, 1) == Idle && PcOf(s.threads, 2) == Idle
    requires a.t == 1 && last.t == 2 && last.call == Register(n)
    requires a.call == Register(n) || a.call == LookUp(hash(n))
    ensures var s1 := Times(hash, s, a, if a.call.Register? then 3 else 2);
      var s3 := Times(hash, Times(hash, s1, last, 4), last, 2);
      Dangles(s3, a) && s3.begun == s.begun + multiset{a.call, last.call}
  {
    GetsPointer(hash, s, a, n);
    var s1 := Times(hash, s, a, if a.call.Register? then 3 else 2);
    assert PcOf(s1.threads, 2) == Idle;
    ComesToSet(hash, s1, last, n);
    var s2 := Times(hash, s1, last, 4);
    assert PcOf(s2.threads, 1) == PcOf(s1.threads, 1);
    Deletes(hash, s2, last, n);
    assert PcOf(Times(hash, s2, last, 2).threads, 1) == PcOf(s2.threads, 1);
  }

  /** Three calls on one name: it is registered, somebody gets the pointer to its string, and it
      is registered again.  The next step of the second reads a deleted string, whatever the
      name and the hash. */
  lemma PointerDangles(hash: string -> Id, n: string, reader: Call) returns (schedule: seq<Action>, a: Action)
    requires reader == Register(n) || reader == LookUp(hash(n))
    ensures Execute(hash, schedule).begun == multiset{Register(n), Register(n), reader}
    ensures Dangles(Execute(hash, schedule), a)
  {
    var first, last := Action(0, Register(n), n), Action(2, Register(n), n);
    a := Action(1, reader, n);
    FirstRegistration(hash, START, first);
    PointerThenDelete(hash, Times(hash, START, first, 3), a, last, n);
    schedule := InFourParts(hash, first, a, if reader.Register? then 3 else 2, last);
  }

  lemma InFourParts(hash: string -> Id, first: Action, a: Action, k: nat, last: Action) returns (schedule: seq<Action>)
    ensures Execute(hash, schedule) ==
            Times(hash, Times(hash, Times(hash, Times(hash, START, first, 3), a, k), last, 4), last, 2)
  {
    var one := ExecuteTimes(hash, [], first, 3);
    var two := ExecuteTimes(hash, one, a, k);
    var three := ExecuteTimes(hash, two, last, 4);
    schedule := ExecuteTimes(hash, three, last, 2);
  }

  /** Two threads step one after the other. */
  function Pair(hash: string -> Id, s: State, a: Action, b: Action): State {
    Step(hash, Step(hash, s, a), b)
  }

  lemma ExecutePair(hash: string -> Id, schedule: seq<Action>, a: Action, b: Action)
    ensures Execute(hash, schedule + [a] + [b]) == Pair(hash, Execute(hash, schedule), a, b)
  {
    ExecuteMore(hash, schedule, a);
    ExecuteMore(hash, schedule + [a], b);
  }

  /** Both compute the hash, both find it free, both set it. */
  lemma Raced(hash: string -> Id, a: Action, b: Action)
    requires a.t == 0 && b.t == 1 && a.call.Register? && b.call.Register? && hash(a.call.name) == hash(b.call.name)
    ensures var h, m, n := hash(a.call.name), a.call.name, b.call.name;
      var s' := Pair(hash, Pair(hash, Pair(hash, START, a, b), a, b), a, b);
      && s'.settled == [(m, h), (n, h)] && NamesOf(s') == map[h := n]
      && s'.begun == multiset{a.call, b.call}
  {
    var h, m, n := hash(a.call.name), a.call.name, b.call.name;
    var calls := multiset{a.call, b.call};
    var s1 := Pair(hash, START, a, b);
    assert s1 == State(map[], [], {}, [], calls, map[0 := AtHas(m, h), 1 := AtHas(n, h)]);
    var s2 := Pair(hash, s1, a, b);
    assert s2 == State(map[], [], {}, [], calls, map[0 := AtSet(m, h), 1 := AtSet(n, h)]);
    var s3 := Pair(hash, s2, a, b);
    assert s3.bound == map[h := 1] && s3.cells == [m] + [n] && s3.settled == [(m, h)] + [(n, h)];
  }

  /** Two names with the same hash, registered at the same time by two threads: both get that
      hash as id, and the first loses its binding. */
  lemma CollisionLosesName(hash: string -> Id, m: string, n: string) returns (schedule: seq<Action>)
    requires m != n && hash(m) == hash(n)
    ensures var s := Execute(hash, schedule);
      && s.begun == multiset{Register(m), Register(n)}
      && s.settled == [(m, hash(m)), (n, hash(n))] && NamesOf(s) == map[hash(n) := n] && !Lawful(s)
  {
    var a, b := Action(0, Register(m), ""), Action(1, Register(n), "");
    ExecutePair(hash, [], a, b);
    var two := [] + [a] + [b];
    ExecutePair(hash, two, a, b);
    var four := two + [a] + [b];
    ExecutePair(hash, four, a, b);
    schedule := four + [a] + [b];
    Raced(hash, a, b);
    NameLost(Execute(hash, schedule), m, n, hash(m));
  }

  lemma NameLost(s: State, m: string, n: string, h: Id)
    requires m != n && s.settled == [(m, h), (n, h)] && NamesOf(s) == map[h := n]
    ensures !Lawful(s)
  {
    assert !Kept(NamesOf(s), s.settled[0]);
  }

  lemma DanglingBeginsNothing(hash: string -> Id, s: State, a: Action)
    requires Dangles(s, a)
    ensures Step(hash, s, a).begun == s.begun
  {
  }

  lemma DanglingIsNotSound(hash: string -> Id, schedule: seq<Action>, a: Action)
    requires Dangles(Execute(hash, schedule), a)
    ensures !NeverDangles(hash, schedule + [a])
    ensures Execute(hash, schedule + [a]).begun == Execute(hash, schedule).begun
  {
    ExecuteMore(hash, schedule, a);
    DanglingBeginsNothing(hash, Execute(hash, schedule), a);
    var k, longer := |schedule|, schedule + [a];
    assert longer[..k] == schedule && longer[k] == a;
    assert Dangles(Execute(hash, longer[..k]), longer[k]);
  }

  lemma LostIsNotSound(hash: string -> Id, schedule: seq<Action>)
    requires !Lawful(Execute(hash, schedule))
    ensures !Sound(hash, schedule)
  {
    assert schedule[..|schedule|] == schedule;
  }

  /** Calls that are not safe together can go wrong. */
  lemma UnsafeGoesWrong(hash: string -> Id, calls: multiset<Call>) returns (schedule: seq<Action>)
    requires !SafeTogether(hash, calls)
    ensures Execute(hash, schedule).begun <= calls && !Sound(hash, schedule)
  {
    if m, n :| Register(m) in calls && Register(n) in calls && hash(m) == hash(n) && m != n {
      schedule := CollisionLosesName(hash, m, n);
      LostIsNotSound(hash, schedule);
    } else if n :| calls[Register(n)] > 2 {
      var a;
      schedule, a := PointerDangles(hash, n, Register(n));
      DanglingIsNotSound(hash, schedule, a);
      schedule := schedule + [a];
    } else {
      var n :| calls[Register(n)] == 2 && LookUp(hash(n)) in calls;
      var a;
      schedule, a := PointerDangles(hash, n, LookUp(hash(n)));
      DanglingIsNotSound(hash, schedule, a);
      schedule := schedule + [a];
    }
  }

  /** The exact condition for callers: some calls can be made under every interleaving without
      losing a name and without reading a deleted string if and only if no two different names
      share a hash, no name is registered by more than two of them, and none that is registered
      by two is looked up. */
  lemma OverlapIsSafeExactly(hash: string -> Id, calls: multiset<Call>)
    ensures (forall schedule | Execute(hash, schedule).begun <= calls :: Sound(hash, schedule)) <==>
            SafeTogether(hash, calls)
  {
    if SafeTogether(hash, calls) {
      forall schedule | Execute(hash, schedule).begun <= calls ensures Sound(hash, schedule) {
        SafeTogetherIsSound(hash, calls, schedule);
      }
    } else {
      var schedule := UnsafeGoesWrong(hash, calls);
    }
  }
}
