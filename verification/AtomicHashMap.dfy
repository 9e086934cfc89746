/**
 AtomicHashMap under any number of concurrent callers of Has, Get and Set.

 Entries live in one memory, `entries`; the first `buckets` of them are the head entries of
 the buckets, whose keys are never looked at.  One step is one atomic load or
 compare-and-swap on shared memory, with the work on memory that no other thread can see
 (allocating, linking or deleting an entry or value of one's own) attached to it.  Every
 sequence of actions is a run.  Memory handed back by delete is not handed out again.
 */
module AtomicHashMap {
  type Value(!new)

  datatype Ptr = Null | To(i: nat)

  /** `value` points into `values`, `next` into `entries`. */
  datatype Entry = Entry(key: int, value: Ptr, next: Ptr)

  datatype Call = Has(key: int) | Get(key: int) | Set(key: int, v: Value)

  /** Insert's locals new_entry and new_value, which survive its retries. */
  datatype Mine = Mine(entry: Ptr, value: Ptr)

  datatype Where =
    | Walking(prev: nat)               // Find, about to load prev->next
    | Matched(target: nat)             // key found, about to load target->value_ptr
    | Swapping(target: nat, seen: Ptr) // about to CAS target->value_ptr
    | Linking(prev: nat, succ: Ptr)    // about to CAS prev->next

  datatype Pc =
    | Idle
    | Active(call: Call, mine: Mine, at: Where)
    | Cleanup(replaced: Ptr, entry: Ptr, value: Ptr) // a CAS succeeded, deletes to do

  datatype State = State(
    buckets: nat,
    entries: seq<Entry>,
    values: seq<Value>,
    deletedEntries: multiset<nat>,
    deletedValues: multiset<nat>,
    threads: map<nat, Pc>)

  datatype Action = Action(t: nat, call: Call)

  datatype Event =
    | Silent
    | Present(key: int)                     // Has returns true
    | Absent(key: int)                      // Has or Get returns false
    | Found(key: int, value: Ptr)           // Get returns true
    | Inserted(key: int, v: Value, entry: nat)  // Insert's CAS on prev->next succeeds
    | Updated(key: int, v: Value)               // Insert's CAS on value_ptr succeeds

  function PcOf(s: State, t: nat): Pc {
    if t in s.threads then s.threads[t] else Idle
  }

  function Goto(s: State, t: nat, pc: Pc): State {
    s.(threads := s.threads[t := pc])
  }

  function Init(buckets: nat): State {
    State(buckets, seq(buckets, _ => Entry(0, Null, Null)), [], multiset{}, multiset{}, map[])
  }

  /** Reads that stay inside the memory; every reachable state makes them so. */
  function NextOf(s: State, e: nat): Ptr {
    if e < |s.entries| then s.entries[e].next else Null
  }

  function KeyOf(s: State, e: nat): int {
    if e < |s.entries| then s.entries[e].key else 0
  }

  function ValueOf(s: State, e: nat): Ptr {
    if e < |s.entries| then s.entries[e].value else Null
  }

  /** Give thread `t` an entry of its own that points to `succ`, and aim it at `prev`. */
  function Prepare(s: State, t: nat, call: Call, mine: Mine, prev: nat, succ: Ptr): State
    requires call.Set?
  {
    match mine.entry
    case Null =>
      Goto(s.(entries := s.entries + [Entry(call.key, To(|s.values|), succ)], values := s.values + [call.v]),
           t, Active(call, Mine(To(|s.entries|), mine.value), Linking(prev, succ)))
    case To(e) =>
      Goto(if e < |s.entries| then s.(entries := s.entries[e := s.entries[e].(next := succ)]) else s,
           t, Active(call, mine, Linking(prev, succ)))
  }

  /** Load prev->next and look at the entry it leads to. */
  function Visit(s: State, t: nat, call: Call, mine: Mine, prev: nat): (State, Event) {
    var succ := NextOf(s, prev);
    if succ.To? && KeyOf(s, succ.i) < call.key then
      (Goto(s, t, Active(call, mine, Walking(succ.i))), Silent)
    else if succ.To? && KeyOf(s, succ.i) == call.key then
      if call.Has? then (Goto(s, t, Idle), Present(call.key))
      else (Goto(s, t, Active(call, mine, Matched(succ.i))), Silent)
    else
      if call.Set? then (Prepare(s, t, call, mine, prev, succ), Silent)
      else (Goto(s, t, Idle), Absent(call.key))
  }

  /** The bucket index key & (capacity - 1), for a capacity that is a power of two. */
  function Bucket(s: State, key: int): (b: nat)
    requires s.buckets > 0
  {
    key % s.buckets
  }

  function Step(s: State, a: Action): (State, Event)
    requires s.buckets > 0
  {
    match PcOf(s, a.t)
    case Idle => Visit(s, a.t, a.call, Mine(Null, Null), Bucket(s, a.call.key))
    case Cleanup(replaced, entry, value) =>
      var doomed := if entry.To? then ValueOf(s, entry.i) else Null;
      (Goto(s.(deletedEntries := s.deletedEntries + Only(entry),
               deletedValues := s.deletedValues + Only(replaced) + Only(value) + Only(doomed)),
            a.t, Idle), Silent)
    case Active(call, mine, Walking(prev)) => Visit(s, a.t, call, mine, prev)
    case Active(call, mine, Matched(target)) =>
      if !call.Set? then
        (Goto(s, a.t, Idle), Found(call.key, ValueOf(s, target)))
      else if mine.value.Null? then
        (Goto(s.(values := s.values + [call.v]), a.t,
              Active(call, mine.(value := To(|s.values|)), Swapping(target, ValueOf(s, target)))), Silent)
      else
        (Goto(s, a.t, Active(call, mine, Swapping(target, ValueOf(s, target)))), Silent)
    case Active(call, mine, Swapping(target, seen)) =>
      if call.Set? && target < |s.entries| && s.entries[target].value == seen then
        (Goto(s.(entries := s.entries[target := s.entries[target].(value := mine.value)]),
              a.t, Cleanup(seen, mine.entry, Null)), Updated(call.key, call.v))
      else
        (Goto(s, a.t, Active(call, mine, Walking(Bucket(s, call.key)))), Silent)
    case Active(call, mine, Linking(prev, succ)) =>
      if call.Set? && mine.entry.To? && prev < |s.entries| && s.entries[prev].next == succ then
        (Goto(s.(entries := s.entries[prev := s.entries[prev].(next := mine.entry)]),
              a.t, Cleanup(Null, Null, mine.value)), Inserted(call.key, call.v, mine.entry.i))
      else
        (Goto(s, a.t, Active(call, mine, Walking(Bucket(s, call.key)))), Silent)
  }

  function Only(p: Ptr): multiset<nat> {
    if p.To? then multiset{p.i} else multiset{}
  }

  /** The state after a schedule, with the map that its successful CASes, in order, build on
      an empty map, and the entry each key was inserted with. */
  datatype Run = Run(s: State, m: map<int, Value>, index: map<int, nat>)

  function Record(r: Run, a: Action): Run
    requires r.s.buckets > 0
  {
    var (s, e) := Step(r.s, a);
    Run(s,
        if e.Inserted? || e.Updated? then r.m[e.key := e.v] else r.m,
        if e.Inserted? then r.index[e.key := e.entry] else r.index)
  }

  function Execute(buckets: nat, schedule: seq<Action>): (r: Run)
    requires buckets > 0
    ensures r.s.buckets == buckets
  {
    if schedule == [] then Run(Init(buckets), map[], map[])
    else
      BucketsStay(Execute(buckets, schedule[..|schedule| - 1]), schedule[|schedule| - 1]);
      Record(Execute(buckets, schedule[..|schedule| - 1]), schedule[|schedule| - 1])
  }

  lemma BucketsStay(r: Run, a: Action)
    requires r.s.buckets > 0
    ensures Record(r, a).s.buckets == r.s.buckets
  {
  }

  // ---------------------------------------------------- invariant: the lists

  /** Entry `e` is a head entry or has been published. */
  predicate Listed(r: Run, e: nat) {
    && e < |r.s.entries|
    && (e < r.s.buckets || (r.s.entries[e].key in r.index && r.index[r.s.entries[e].key] == e))
  }

  function BucketOf(r: Run, e: nat): int
    requires r.s.buckets > 0
  {
    if e < r.s.buckets then e else KeyOf(r.s, e) % r.s.buckets
  }

  /** Entry `e` comes before key `k` in its list. */
  predicate Below(r: Run, e: nat, k: int) {
    e < r.s.buckets || KeyOf(r.s, e) < k
  }

  /** The link of a listed entry skips no published key of its bucket. */
  ghost predicate LinkOk(r: Run, e: nat)
    requires r.s.buckets > 0
  {
    match NextOf(r.s, e)
    case Null => forall k | k in r.index && k % r.s.buckets == BucketOf(r, e) :: !Below(r, e, k)
    case To(n) =>
      && Listed(r, n) && n >= r.s.buckets
      && BucketOf(r, n) == BucketOf(r, e) && Below(r, e, KeyOf(r.s, n))
      && forall k | k in r.index && k % r.s.buckets == BucketOf(r, e) && Below(r, e, k) :: KeyOf(r.s, n) <= k
  }

  ghost predicate Lists(r: Run) {
    && 0 < r.s.buckets <= |r.s.entries|
    && (forall k | k in r.index :: r.s.buckets <= r.index[k] < |r.s.entries| && r.s.entries[r.index[k]].key == k)
    && (forall e: nat | Listed(r, e) :: LinkOk(r, e))
  }

  /** The entries spell out the map. */
  ghost predicate Spells(r: Run) {
    && r.m.Keys == r.index.Keys
    && (forall k | k in r.index :: PointsTo(r.s, ValueOf(r.s, r.index[k]), r.m[k]))
  }

  ghost predicate PointsTo(s: State, p: Ptr, v: Value) {
    p.To? && p.i < |s.values| && s.values[p.i] == v
  }

  /** What belongs to a thread: its unpublished entry, its spare value, a replaced value. */
  function EntryIn(pc: Pc): Ptr {
    match pc case Idle => Null case Active(_, mine, _) => mine.entry case Cleanup(_, e, _) => e
  }

  function SpareIn(pc: Pc): Ptr {
    match pc case Idle => Null case Active(_, mine, _) => mine.value case Cleanup(_, _, v) => v
  }

  function ReplacedIn(pc: Pc): Ptr {
    match pc case Idle => Null case Active(_, _, _) => Null case Cleanup(p, _, _) => p
  }

  /** What a thread may rely on at each program point. */
  ghost predicate Knows(r: Run, pc: Pc)
    requires r.s.buckets > 0
  {
    match pc
    case Idle => true
    case Cleanup(_, _, _) => true
    case Active(call, mine, at) =>
      && (if call.Set? then OwnsOk(r.s, call, mine) else mine == Mine(Null, Null))
      && match at
         case Walking(prev) => BeforeKey(r, prev, call.key)
         case Matched(target) => !call.Has? && IndexedAt(r, call.key, target)
         case Swapping(target, seen) => call.Set? && IndexedAt(r, call.key, target) && mine.value.To?
         case Linking(prev, succ) =>
           && call.Set? && BeforeKey(r, prev, call.key) && AfterKey(r, succ, call.key)
           && mine.entry.To? && NextOf(r.s, mine.entry.i) == succ
  }

  /** A thread's own entry and value carry the arguments of its call. */
  ghost predicate OwnsOk(s: State, call: Call, mine: Mine)
    requires call.Set?
  {
    && (mine.entry.To? ==>
          && mine.entry.i < |s.entries| && KeyOf(s, mine.entry.i) == call.key
          && PointsTo(s, ValueOf(s, mine.entry.i), call.v))
    && (mine.value.To? ==> PointsTo(s, mine.value, call.v))
  }

  predicate IndexedAt(r: Run, k: int, e: nat) {
    k in r.index && r.index[k] == e
  }

  predicate BeforeKey(r: Run, e: nat, k: int)
    requires r.s.buckets > 0
  {
    Listed(r, e) && BucketOf(r, e) == k % r.s.buckets && Below(r, e, k)
  }

  predicate AfterKey(r: Run, p: Ptr, k: int)
    requires r.s.buckets > 0
  {
    p.To? ==> Listed(r, p.i) && p.i >= r.s.buckets && BucketOf(r, p.i) == k % r.s.buckets && k < KeyOf(r.s, p.i)
  }

  // ------------------------------------------------ invariant: who owns what

  datatype Owner = Head | Key(k: int) | Thread(t: nat) | Deleted

  /** Every entry has one owner: its bucket, its key, an inserting thread, or none any more. */
  ghost predicate EntriesOwned(r: Run, own: seq<Owner>) {
    && |own| == |r.s.entries|
    && (forall e: nat | e < |own| :: own[e] == Head <==> e < r.s.buckets)
    && (forall k | k in r.index :: r.index[k] < |own| && own[r.index[k]] == Key(k))
    && (forall e: nat | e < |own| && own[e].Key? :: IndexedAt(r, own[e].k, e))
    && (forall t: nat | EntryIn(PcOf(r.s, t)).To? ::
          EntryIn(PcOf(r.s, t)).i < |own| && own[EntryIn(PcOf(r.s, t)).i] == Thread(t))
    && (forall e: nat | e < |own| && own[e].Thread? :: EntryIn(PcOf(r.s, own[e].t)) == To(e))
    && (forall e: nat :: r.s.deletedEntries[e] == if e < |own| && own[e] == Deleted then 1 else 0)
  }

  /** Thread `t` is responsible for value `id`. */
  predicate Holds(s: State, t: nat, id: nat) {
    var pc := PcOf(s, t);
    || SpareIn(pc) == To(id)
    || ReplacedIn(pc) == To(id)
    || EntryValue(s, pc) == To(id)
  }

  function EntryValue(s: State, pc: Pc): Ptr {
    if EntryIn(pc).To? then ValueOf(s, EntryIn(pc).i) else Null
  }

  /** Every value has one owner: a key, an inserting thread, or none any more. */
  ghost predicate ValuesOwned(r: Run, own: seq<Owner>) {
    && |own| == |r.s.values|
    && (forall k | k in r.index && ValueOf(r.s, r.index[k]).To? ::
          ValueOf(r.s, r.index[k]).i < |own| && own[ValueOf(r.s, r.index[k]).i] == Key(k))
    && (forall id: nat | id < |own| :: own[id] != Head)
    && (forall id: nat | id < |own| && own[id].Key? ::
          own[id].k in r.index && ValueOf(r.s, r.index[own[id].k]) == To(id))
    && (forall t: nat, id: nat :: Holds(r.s, t, id) <==> id < |own| && own[id] == Thread(t))
    && (forall id: nat :: r.s.deletedValues[id] == if id < |own| && own[id] == Deleted then 1 else 0)
    && (forall t: nat :: Separate(r.s, PcOf(r.s, t)))
  }

  /** The values a thread is responsible for are different ones. */
  predicate Separate(s: State, pc: Pc) {
    && (SpareIn(pc).To? ==> SpareIn(pc) != ReplacedIn(pc) && SpareIn(pc) != EntryValue(s, pc))
    && (ReplacedIn(pc).To? ==> ReplacedIn(pc) != EntryValue(s, pc))
  }

  /** The part of the invariant that readers live on. */
  ghost predicate Readable(r: Run) {
    Lists(r) && Spells(r) && forall t: nat :: Knows(r, PcOf(r.s, t))
  }

  ghost predicate Inv(r: Run, entryOwn: seq<Owner>, valueOwn: seq<Owner>) {
    Readable(r) && EntriesOwned(r, entryOwn) && ValuesOwned(r, valueOwn)
  }

  lemma InitInv(buckets: nat)
    requires buckets > 0
    ensures Inv(Run(Init(buckets), map[], map[]), seq(buckets, _ => Head), [])
  {
  }

  // -------------------------------------------------------- frames

  /** Nothing that threads rely on goes away: keys stay, values stay, the index only grows. */
  ghost predicate Grows(r: Run, r': Run) {
    && r'.s.buckets == r.s.buckets
    && |r.s.entries| <= |r'.s.entries|
    && (forall e: nat | e < |r.s.entries| :: r'.s.entries[e].key == r.s.entries[e].key)
    && (forall k | k in r.index :: k in r'.index && r'.index[k] == r.index[k])
    && |r.s.values| <= |r'.s.values|
    && (forall id: nat | id < |r.s.values| :: r'.s.values[id] == r.s.values[id])
  }

  lemma KnowsStable(r: Run, r': Run, pc: Pc)
    requires r.s.buckets > 0 && Grows(r, r') && Knows(r, pc)
    requires EntryIn(pc).To? && EntryIn(pc).i < |r.s.entries| ==>
      r'.s.entries[EntryIn(pc).i] == r.s.entries[EntryIn(pc).i]
    ensures Knows(r', pc)
  {
  }

  lemma ListsStable(r: Run, r': Run)
    requires Lists(r) && Grows(r, r') && r'.index == r.index
    requires forall e: nat | Listed(r', e) :: Listed(r, e) && NextOf(r'.s, e) == NextOf(r.s, e)
    ensures Lists(r')
  {
  }

  /** Everyone but `t` still knows what it knew. */
  lemma OthersKnow(r: Run, r': Run, t: nat)
    requires r.s.buckets > 0 && Grows(r, r')
    requires forall u: nat :: Knows(r, PcOf(r.s, u))
    requires forall u: nat | u != t :: PcOf(r'.s, u) == PcOf(r.s, u)
    requires forall u: nat | u != t && EntryIn(PcOf(r.s, u)).To? && EntryIn(PcOf(r.s, u)).i < |r.s.entries| ::
      r'.s.entries[EntryIn(PcOf(r.s, u)).i] == r.s.entries[EntryIn(PcOf(r.s, u)).i]
    requires Knows(r', PcOf(r'.s, t))
    ensures forall u: nat :: Knows(r', PcOf(r'.s, u))
  {
  }

  /** A step on memory that is not listed yet keeps what readers live on. */
  lemma PrivateWork(r: Run, r': Run, t: nat)
    requires Readable(r) && Grows(r, r') && r'.index == r.index && r'.m == r.m
    requires forall e: nat | Listed(r', e) :: Listed(r, e) && r'.s.entries[e] == r.s.entries[e]
    requires forall u: nat | u != t :: PcOf(r'.s, u) == PcOf(r.s, u)
    requires forall u: nat | u != t && EntryIn(PcOf(r.s, u)).To? && EntryIn(PcOf(r.s, u)).i < |r.s.entries| ::
      r'.s.entries[EntryIn(PcOf(r.s, u)).i] == r.s.entries[EntryIn(PcOf(r.s, u)).i]
    requires Knows(r', PcOf(r'.s, t))
    ensures Readable(r')
  {
    ListsStable(r, r');
    OthersKnow(r, r', t);
    forall k | k in r.index
      ensures PointsTo(r'.s, ValueOf(r'.s, r.index[k]), r.m[k])
    {
      assert Listed(r', r.index[k]);
    }
  }

  lemma SameEntryOwners(r: Run, r': Run, own: seq<Owner>)
    requires EntriesOwned(r, own)
    requires |r'.s.entries| == |r.s.entries| && r'.s.buckets == r.s.buckets && r'.index == r.index
    requires r'.s.deletedEntries == r.s.deletedEntries
    requires forall u: nat :: EntryIn(PcOf(r'.s, u)) == EntryIn(PcOf(r.s, u))
    ensures EntriesOwned(r', own)
  {
  }

  lemma SameValueOwners(r: Run, r': Run, own: seq<Owner>)
    requires ValuesOwned(r, own)
    requires |r'.s.values| == |r.s.values| && r'.index == r.index
    requires r'.s.deletedValues == r.s.deletedValues
    requires forall k | k in r.index :: ValueOf(r'.s, r.index[k]) == ValueOf(r.s, r.index[k])
    requires forall u: nat ::
      var pc, pc' := PcOf(r.s, u), PcOf(r'.s, u);
      && SpareIn(pc') == SpareIn(pc) && ReplacedIn(pc') == ReplacedIn(pc)
      && EntryValue(r'.s, pc') == EntryValue(r.s, pc)
    ensures ValuesOwned(r', own)
  {
    assert forall u: nat, id: nat :: Holds(r'.s, u, id) <==> Holds(r.s, u, id);
    forall u: nat
      ensures Separate(r'.s, PcOf(r'.s, u))
    {
      assert Separate(r.s, PcOf(r.s, u));
    }
  }

  /** Thread `t` allocates one more entry. */
  lemma OneMoreEntry(r: Run, r': Run, own: seq<Owner>, t: nat)
    requires EntriesOwned(r, own) && r.s.buckets <= |r.s.entries|
    requires |r'.s.entries| == |r.s.entries| + 1 && r'.s.buckets == r.s.buckets && r'.index == r.index
    requires r'.s.deletedEntries == r.s.deletedEntries
    requires EntryIn(PcOf(r.s, t)) == Null && EntryIn(PcOf(r'.s, t)) == To(|r.s.entries|)
    requires forall u: nat | u != t :: EntryIn(PcOf(r'.s, u)) == EntryIn(PcOf(r.s, u))
    ensures EntriesOwned(r', own + [Thread(t)])
  {
  }

  /** Thread `t` allocates one more value. */
  lemma OneMoreValue(r: Run, r': Run, own: seq<Owner>, t: nat)
    requires ValuesOwned(r, own)
    requires |r'.s.values| == |r.s.values| + 1 && r'.index == r.index
    requires r'.s.deletedValues == r.s.deletedValues
    requires forall k | k in r.index :: ValueOf(r'.s, r.index[k]) == ValueOf(r.s, r.index[k])
    requires forall u: nat, id: nat ::
      Holds(r'.s, u, id) <==> Holds(r.s, u, id) || (u == t && id == |r.s.values|)
    requires forall u: nat :: Separate(r'.s, PcOf(r'.s, u))
    ensures ValuesOwned(r', own + [Thread(t)])
  {
  }

  /** A step that only moves a thread, between points with the same belongings. */
  lemma MoveKeepsInv(r: Run, eo: seq<Owner>, vo: seq<Owner>, t: nat, pc: Pc)
    requires Inv(r, eo, vo) && Knows(r, pc)
    requires EntryIn(pc) == EntryIn(PcOf(r.s, t))
    requires SpareIn(pc) == SpareIn(PcOf(r.s, t))
    requires ReplacedIn(pc) == ReplacedIn(PcOf(r.s, t))
    ensures Inv(r.(s := Goto(r.s, t, pc)), eo, vo)
  {
    var r' := r.(s := Goto(r.s, t, pc));
    assert forall u: nat :: PcOf(r'.s, u) == if u == t then pc else PcOf(r.s, u);
    ListsStable(r, r');
    KnowsStable(r, r', pc);
    OthersKnow(r, r', t);
    SameEntryOwners(r, r', eo);
    SameValueOwners(r, r', vo);
  }

  // -------------------------------------------------------- private work

  /** Insert allocates its entry, with the value inside it. */
  lemma AllocateKeepsInv(r: Run, eo: seq<Owner>, vo: seq<Owner>, t: nat, call: Call, mine: Mine, prev: nat, succ: Ptr)
    requires Inv(r, eo, vo) && call.Set? && OwnsOk(r.s, call, mine)
    requires PcOf(r.s, t) == Idle || PcOf(r.s, t) == Active(call, mine, Walking(prev))
    requires mine.entry == Null && SpareIn(PcOf(r.s, t)) == mine.value
    requires BeforeKey(r, prev, call.key) && AfterKey(r, succ, call.key)
    ensures Inv(r.(s := Prepare(r.s, t, call, mine, prev, succ)), eo + [Thread(t)], vo + [Thread(t)])
  {
    AllocateKeepsLists(r, t, call, mine, prev, succ);
    AllocateKeepsOwners(r, eo, vo, t, call, mine, prev, succ);
  }

  lemma AllocateKeepsLists(r: Run, t: nat, call: Call, mine: Mine, prev: nat, succ: Ptr)
    requires Readable(r) && call.Set? && OwnsOk(r.s, call, mine) && mine.entry == Null
    requires BeforeKey(r, prev, call.key) && AfterKey(r, succ, call.key)
    ensures Readable(r.(s := Prepare(r.s, t, call, mine, prev, succ)))
  {
    var r' := r.(s := Prepare(r.s, t, call, mine, prev, succ));
    var pc := Active(call, Mine(To(|r.s.entries|), mine.value), Linking(prev, succ));
    assert Grows(r, r');
    assert Knows(r', pc);
    PrivateWork(r, r', t);
  }

  lemma AllocateKeepsOwners(
    r: Run, eo: seq<Owner>, vo: seq<Owner>, t: nat, call: Call, mine: Mine, prev: nat, succ: Ptr)
    requires EntriesOwned(r, eo) && ValuesOwned(r, vo) && call.Set? && r.s.buckets <= |r.s.entries|
    requires PcOf(r.s, t) == Idle || PcOf(r.s, t) == Active(call, mine, Walking(prev))
    requires mine.entry == Null && SpareIn(PcOf(r.s, t)) == mine.value
    ensures var r' := r.(s := Prepare(r.s, t, call, mine, prev, succ));
      EntriesOwned(r', eo + [Thread(t)]) && ValuesOwned(r', vo + [Thread(t)])
  {
    var r' := r.(s := Prepare(r.s, t, call, mine, prev, succ));
    var pc := Active(call, Mine(To(|r.s.entries|), mine.value), Linking(prev, succ));
    assert forall u: nat :: PcOf(r'.s, u) == if u == t then pc else PcOf(r.s, u);
    OneMoreEntry(r, r', eo, t);
    forall u: nat
      ensures Separate(r'.s, PcOf(r'.s, u))
    {
      assert Separate(r.s, PcOf(r.s, u));
      assert mine.value.To? ==> Holds(r.s, t, mine.value.i);
    }
    OneMoreValue(r, r', vo, t);
  }

  /** Insert aims the entry it already has at the place it found. */
  lemma RelinkKeepsInv(r: Run, eo: seq<Owner>, vo: seq<Owner>, t: nat, call: Call, mine: Mine, prev: nat, succ: Ptr)
    requires Inv(r, eo, vo) && call.Set? && OwnsOk(r.s, call, mine)
    requires PcOf(r.s, t) == Active(call, mine, Walking(prev)) && mine.entry.To?
    requires BeforeKey(r, prev, call.key) && AfterKey(r, succ, call.key)
    ensures Inv(r.(s := Prepare(r.s, t, call, mine, prev, succ)), eo, vo)
  {
    assert EntryIn(PcOf(r.s, t)) == mine.entry;
    RelinkKeepsLists(r, t, call, mine, prev, succ);
    RelinkKeepsOwners(r, eo, vo, t, call, mine, prev, succ);
  }

  lemma RelinkKeepsLists(r: Run, t: nat, call: Call, mine: Mine, prev: nat, succ: Ptr)
    requires Readable(r) && call.Set? && OwnsOk(r.s, call, mine) && mine.entry.To?
    requires !Listed(r, mine.entry.i)
    requires forall u: nat | u != t :: EntryIn(PcOf(r.s, u)) != mine.entry
    requires BeforeKey(r, prev, call.key) && AfterKey(r, succ, call.key)
    ensures Readable(r.(s := Prepare(r.s, t, call, mine, prev, succ)))
  {
    var r' := r.(s := Prepare(r.s, t, call, mine, prev, succ));
    var pc := Active(call, mine, Linking(prev, succ));
    assert Grows(r, r');
    assert Knows(r', pc);
    PrivateWork(r, r', t);
  }

  lemma RelinkKeepsOwners(r: Run, eo: seq<Owner>, vo: seq<Owner>, t: nat, call: Call, mine: Mine, prev: nat, succ: Ptr)
    requires EntriesOwned(r, eo) && ValuesOwned(r, vo) && call.Set?
    requires PcOf(r.s, t) == Active(call, mine, Walking(prev)) && mine.entry.To?
    ensures var r' := r.(s := Prepare(r.s, t, call, mine, prev, succ));
      EntriesOwned(r', eo) && ValuesOwned(r', vo)
  {
    var r' := r.(s := Prepare(r.s, t, call, mine, prev, succ));
    var pc := Active(call, mine, Linking(prev, succ));
    assert forall u: nat :: PcOf(r'.s, u) == if u == t then pc else PcOf(r.s, u);
    SameEntryOwners(r, r', eo);
    assert forall e: nat :: ValueOf(r'.s, e) == ValueOf(r.s, e);
    SameValueOwners(r, r', vo);
  }

  /** Insert allocates a spare value and notes the value it means to replace. */
  lemma SpareKeepsInv(r: Run, eo: seq<Owner>, vo: seq<Owner>, a: Action)
    requires Inv(r, eo, vo)
    requires var pc := PcOf(r.s, a.t); pc.Active? && pc.at.Matched? && pc.call.Set? && pc.mine.value.Null?
    ensures Inv(Record(r, a), eo, vo + [Thread(a.t)])
  {
    SpareKeepsLists(r, a);
    SpareKeepsOwners(r, eo, vo, a);
  }

  lemma SpareKeepsLists(r: Run, a: Action)
    requires Readable(r)
    requires var pc := PcOf(r.s, a.t); pc.Active? && pc.at.Matched? && pc.call.Set? && pc.mine.value.Null?
    ensures Readable(Record(r, a))
  {
    var r' := Record(r, a);
    assert Knows(r, PcOf(r.s, a.t));
    assert Grows(r, r');
    assert Knows(r', PcOf(r'.s, a.t));
    PrivateWork(r, r', a.t);
  }

  lemma SpareKeepsOwners(r: Run, eo: seq<Owner>, vo: seq<Owner>, a: Action)
    requires Inv(r, eo, vo)
    requires var pc := PcOf(r.s, a.t); pc.Active? && pc.at.Matched? && pc.call.Set? && pc.mine.value.Null?
    ensures EntriesOwned(Record(r, a), eo) && ValuesOwned(Record(r, a), vo + [Thread(a.t)])
  {
    var r', t := Record(r, a), a.t;
    var pc := PcOf(r'.s, t);
    assert forall u: nat :: PcOf(r'.s, u) == if u == t then pc else PcOf(r.s, u);
    SameEntryOwners(r, r', eo);
    forall u: nat
      ensures Separate(r'.s, PcOf(r'.s, u))
    {
      assert Separate(r.s, PcOf(r.s, u));
      if EntryValue(r.s, pc).To? {
        assert Holds(r.s, t, EntryValue(r.s, pc).i);
      }
    }
    OneMoreValue(r, r', vo, t);
  }

  // -------------------------------------------------------- the three CASes' successes

  /** Thread `t` is about to replace the value of its key, and the CAS will succeed. */
  predicate SwapReady(s: State, t: nat) {
    var pc := PcOf(s, t);
    pc.Active? && pc.at.Swapping? && pc.call.Set? && pc.at.target < |s.entries| &&
    s.entries[pc.at.target].value == pc.at.seen
  }

  lemma SwapKeepsLists(r: Run, a: Action)
    requires Readable(r) && SwapReady(r.s, a.t)
    requires forall u: nat :: EntryIn(PcOf(r.s, u)) != To(PcOf(r.s, a.t).at.target)
    ensures Readable(Record(r, a))
  {
    var r', pc := Record(r, a), PcOf(r.s, a.t);
    var k, target := pc.call.key, pc.at.target;
    assert Knows(r, pc);
    assert Grows(r, r');
    assert Lists(r') by { ListsStable(r, r'); }
    forall j | j in r.index
      ensures PointsTo(r'.s, ValueOf(r'.s, r.index[j]), r'.m[j])
    {
      assert PointsTo(r.s, ValueOf(r.s, r.index[j]), r.m[j]);
      assert j != k ==> r.index[j] != target;
    }
    OthersKnow(r, r', a.t);
  }

  /** Key `k` gives up value `out` and takes value `ins`; thread `t` the other way round. */
  lemma ValuesExchanged(r: Run, r': Run, own: seq<Owner>, t: nat, k: int, out: nat, ins: nat)
    requires ValuesOwned(r, own) && out < |own| && ins < |own| && own[ins] == Thread(t)
    requires k in r.index && ValueOf(r.s, r.index[k]) == To(out) && ValueOf(r'.s, r.index[k]) == To(ins)
    requires |r'.s.values| == |r.s.values| && r'.index == r.index && r'.s.deletedValues == r.s.deletedValues
    requires forall j | j in r.index && j != k :: ValueOf(r'.s, r.index[j]) == ValueOf(r.s, r.index[j])
    requires forall u: nat, id: nat :: Holds(r'.s, u, id) <==>
      if u == t then id == out || (Holds(r.s, t, id) && id != ins) else Holds(r.s, u, id)
    requires forall u: nat :: Separate(r'.s, PcOf(r'.s, u))
    ensures ValuesOwned(r', own[out := Thread(t)][ins := Key(k)])
  {
    assert own[out] == Key(k);
  }

  lemma SwapKeepsValues(r: Run, vo: seq<Owner>, a: Action)
    requires ValuesOwned(r, vo) && Lists(r) && Spells(r) && SwapReady(r.s, a.t)
    requires Knows(r, PcOf(r.s, a.t))
    requires forall u: nat :: EntryIn(PcOf(r.s, u)) != To(PcOf(r.s, a.t).at.target)
    ensures var pc := PcOf(r.s, a.t);
      && pc.at.seen.To? && pc.at.seen.i < |vo| && pc.mine.value.i < |vo|
      && ValuesOwned(Record(r, a), vo[pc.at.seen.i := Thread(a.t)][pc.mine.value.i := Key(pc.call.key)])
  {
    var r', t, pc := Record(r, a), a.t, PcOf(r.s, a.t);
    var k, out, ins := pc.call.key, pc.at.seen, pc.mine.value;
    var pc' := Cleanup(out, pc.mine.entry, Null);
    assert PointsTo(r.s, ValueOf(r.s, r.index[k]), r.m[k]);
    assert Holds(r.s, t, ins.i);
    assert forall u: nat :: PcOf(r'.s, u) == if u == t then pc' else PcOf(r.s, u);
    assert forall u: nat :: EntryValue(r'.s, PcOf(r.s, u)) == EntryValue(r.s, PcOf(r.s, u));
    assert EntryValue(r'.s, pc') == EntryValue(r.s, pc);
    assert EntryValue(r.s, pc).To? ==> Holds(r.s, t, EntryValue(r.s, pc).i);
    forall u: nat
      ensures Separate(r'.s, PcOf(r'.s, u))
    {
      assert Separate(r.s, PcOf(r.s, u));
    }
    assert Separate(r.s, pc);
    ValuesExchanged(r, r', vo, t, k, out.i, ins.i);
  }

  lemma SwapKeepsInv(r: Run, eo: seq<Owner>, vo: seq<Owner>, a: Action) returns (vo': seq<Owner>)
    requires Inv(r, eo, vo) && SwapReady(r.s, a.t)
    ensures Inv(Record(r, a), eo, vo')
  {
    var r', pc := Record(r, a), PcOf(r.s, a.t);
    assert Knows(r, pc);
    assert eo[pc.at.target] == Key(pc.call.key);
    SwapKeepsLists(r, a);
    SwapKeepsValues(r, vo, a);
    vo' := vo[pc.at.seen.i := Thread(a.t)][pc.mine.value.i := Key(pc.call.key)];
    assert forall u: nat :: EntryIn(PcOf(r'.s, u)) == EntryIn(PcOf(r.s, u));
    SameEntryOwners(r, r', eo);
  }

  /** Thread `t` is about to publish its entry, and the CAS will succeed. */
  predicate LinkReady(s: State, t: nat) {
    var pc := PcOf(s, t);
    pc.Active? && pc.at.Linking? && pc.call.Set? && pc.mine.entry.To? && pc.at.prev < |s.entries| &&
    s.entries[pc.at.prev].next == pc.at.succ
  }

  /** The gap a thread found is still a gap, so its key is not in the map. */
  lemma GapMeansAbsent(r: Run, prev: nat, k: int)
    requires Lists(r) && BeforeKey(r, prev, k) && AfterKey(r, NextOf(r.s, prev), k)
    ensures k !in r.index
  {
  }

  /** Entry `e` for key `k` is published between `prev` and its successor. */
  ghost predicate Publishes(r: Run, r': Run, prev: nat, e: nat, k: int) {
    && Lists(r) && BeforeKey(r, prev, k) && AfterKey(r, NextOf(r.s, prev), k)
    && r.s.buckets <= e < |r.s.entries| && KeyOf(r.s, e) == k && !Listed(r, e)
    && NextOf(r.s, e) == NextOf(r.s, prev)
    && r'.s.buckets == r.s.buckets
    && r'.s.entries == r.s.entries[prev := r.s.entries[prev].(next := To(e))]
    && r'.index == r.index[k := e]
  }

  lemma PublishKeepsLists(r: Run, r': Run, prev: nat, e: nat, k: int)
    requires Publishes(r, r', prev, e, k)
    ensures Lists(r')
  {
    GapMeansAbsent(r, prev, k);
    assert forall x: nat :: Listed(r', x) ==> x == e || Listed(r, x);
    forall x: nat | Listed(r', x)
      ensures LinkOk(r', x)
    {
      if x == e || x == prev {
        NewLinksSkipNothing(r, r', prev, e, k);
      } else {
        OtherLinksSkipNothing(r, r', prev, e, x, k);
      }
    }
  }

  lemma NewLinksSkipNothing(r: Run, r': Run, prev: nat, e: nat, k: int)
    requires Publishes(r, r', prev, e, k)
    ensures LinkOk(r', e) && LinkOk(r', prev)
  {
  }

  lemma OtherLinksSkipNothing(r: Run, r': Run, prev: nat, e: nat, x: nat, k: int)
    requires Publishes(r, r', prev, e, k)
    requires Listed(r, x) && x != prev
    ensures LinkOk(r', x)
  {
    GapMeansAbsent(r, prev, k);
    LinksBeforeKey(r, prev, x, k);
    assert LinkOk(r, x);
    assert forall y: nat :: KeyOf(r'.s, y) == KeyOf(r.s, y);
    assert forall y: nat | Listed(r, y) :: Listed(r', y);
  }

  /** Any other entry of the bucket that comes before `k` links to something before it. */
  lemma LinksBeforeKey(r: Run, prev: nat, x: nat, k: int)
    requires Lists(r) && BeforeKey(r, prev, k) && AfterKey(r, NextOf(r.s, prev), k)
    requires Listed(r, x) && x != prev
    ensures BucketOf(r, x) == k % r.s.buckets && Below(r, x, k) ==>
      NextOf(r.s, x).To? && KeyOf(r.s, NextOf(r.s, x).i) < k
  {
  }

  /** What thread `a.t` knows when its link succeeds. */
  lemma LinkPublishes(r: Run, eo: seq<Owner>, a: Action)
    requires Readable(r) && EntriesOwned(r, eo) && LinkReady(r.s, a.t)
    ensures var pc := PcOf(r.s, a.t);
      Publishes(r, Record(r, a), pc.at.prev, pc.mine.entry.i, pc.call.key) && pc.call.key !in r.index
  {
  }

  lemma LinkKeepsLists(r: Run, eo: seq<Owner>, a: Action)
    requires Readable(r) && EntriesOwned(r, eo) && LinkReady(r.s, a.t)
    ensures Readable(Record(r, a))
  {
    var r', pc := Record(r, a), PcOf(r.s, a.t);
    LinkPublishes(r, eo, a);
    assert Knows(r, pc);
    PublishKeepsLists(r, r', pc.at.prev, pc.mine.entry.i, pc.call.key);
    assert Grows(r, r');
    forall k | k in r'.index
      ensures PointsTo(r'.s, ValueOf(r'.s, r'.index[k]), r'.m[k])
    {
      if k != pc.call.key {
        assert PointsTo(r.s, ValueOf(r.s, r.index[k]), r.m[k]);
      }
    }
    forall u: nat | u != a.t && EntryIn(PcOf(r.s, u)).To?
      ensures EntryIn(PcOf(r.s, u)).i != pc.at.prev
    {
      assert eo[EntryIn(PcOf(r.s, u)).i] == Thread(u);
    }
    OthersKnow(r, r', a.t);
  }

  lemma LinkKeepsEntries(r: Run, eo: seq<Owner>, a: Action)
    requires Readable(r) && EntriesOwned(r, eo) && LinkReady(r.s, a.t)
    ensures var pc := PcOf(r.s, a.t);
      pc.mine.entry.i < |eo| && EntriesOwned(Record(r, a), eo[pc.mine.entry.i := Key(pc.call.key)])
  {
    var r', pc := Record(r, a), PcOf(r.s, a.t);
    LinkPublishes(r, eo, a);
    assert EntryIn(pc) == pc.mine.entry;
    assert forall u: nat :: EntryIn(PcOf(r'.s, u)) == if u == a.t then Null else EntryIn(PcOf(r.s, u));
  }

  /** Thread `t` hands value `id` over to the new key `k`. */
  lemma ValueHandedOver(r: Run, r': Run, own: seq<Owner>, t: nat, k: int, e: nat, id: nat)
    requires ValuesOwned(r, own) && id < |own| && own[id] == Thread(t)
    requires k !in r.index && r'.index == r.index[k := e] && ValueOf(r'.s, e) == To(id)
    requires |r'.s.values| == |r.s.values| && r'.s.deletedValues == r.s.deletedValues
    requires forall j | j in r.index :: ValueOf(r'.s, r.index[j]) == ValueOf(r.s, r.index[j])
    requires forall u: nat, x: nat :: Holds(r'.s, u, x) <==> Holds(r.s, u, x) && !(u == t && x == id)
    requires forall u: nat :: Separate(r'.s, PcOf(r'.s, u))
    ensures ValuesOwned(r', own[id := Key(k)])
  {
  }

  lemma LinkKeepsValues(r: Run, vo: seq<Owner>, a: Action)
    requires ValuesOwned(r, vo) && LinkReady(r.s, a.t) && r.s.buckets > 0
    requires Knows(r, PcOf(r.s, a.t)) && PcOf(r.s, a.t).call.key !in r.index
    ensures var pc := PcOf(r.s, a.t);
      var id := ValueOf(r.s, pc.mine.entry.i);
      id.To? && id.i < |vo| && ValuesOwned(Record(r, a), vo[id.i := Key(pc.call.key)])
  {
    var r', t, pc := Record(r, a), a.t, PcOf(r.s, a.t);
    var id := ValueOf(r.s, pc.mine.entry.i);
    var pc' := Cleanup(Null, Null, pc.mine.value);
    assert EntryValue(r.s, pc) == id;
    assert Holds(r.s, t, id.i);
    assert forall u: nat :: PcOf(r'.s, u) == if u == t then pc' else PcOf(r.s, u);
    assert forall e: nat :: ValueOf(r'.s, e) == ValueOf(r.s, e);
    forall u: nat
      ensures Separate(r'.s, PcOf(r'.s, u))
    {
      assert Separate(r.s, PcOf(r.s, u));
    }
    assert Separate(r.s, pc);
    ValueHandedOver(r, r', vo, t, pc.call.key, pc.mine.entry.i, id.i);
  }

  lemma LinkKeepsInv(r: Run, eo: seq<Owner>, vo: seq<Owner>, a: Action) returns (eo': seq<Owner>, vo': seq<Owner>)
    requires Inv(r, eo, vo) && LinkReady(r.s, a.t)
    ensures Inv(Record(r, a), eo', vo')
  {
    var pc := PcOf(r.s, a.t);
    assert Knows(r, pc);
    LinkPublishes(r, eo, a);
    LinkKeepsLists(r, eo, a);
    LinkKeepsEntries(r, eo, a);
    LinkKeepsValues(r, vo, a);
    eo' := eo[pc.mine.entry.i := Key(pc.call.key)];
    vo' := vo[ValueOf(r.s, pc.mine.entry.i).i := Key(pc.call.key)];
  }

  // -------------------------------------------------------- deletes

  function Mark(own: seq<Owner>, p: Ptr): (own': seq<Owner>) {
    if p.To? && p.i < |own| then own[p.i := Deleted] else own
  }

  lemma CleanupKeepsEntries(r: Run, eo: seq<Owner>, a: Action)
    requires EntriesOwned(r, eo) && PcOf(r.s, a.t).Cleanup? && r.s.buckets > 0
    ensures EntriesOwned(Record(r, a), Mark(eo, PcOf(r.s, a.t).entry))
  {
    var r', pc := Record(r, a), PcOf(r.s, a.t);
    assert EntryIn(pc) == pc.entry;
    assert forall u: nat :: EntryIn(PcOf(r'.s, u)) == if u == a.t then Null else EntryIn(PcOf(r.s, u));
    EntryDeleted(r, r', eo, a.t);
  }

  /** Thread `t` deletes the entry it has, if it has one. */
  lemma EntryDeleted(r: Run, r': Run, own: seq<Owner>, t: nat)
    requires EntriesOwned(r, own) && r'.s.entries == r.s.entries && r'.s.buckets == r.s.buckets && r'.index == r.index
    requires r'.s.deletedEntries == r.s.deletedEntries + Only(EntryIn(PcOf(r.s, t)))
    requires forall u: nat :: EntryIn(PcOf(r'.s, u)) == if u == t then Null else EntryIn(PcOf(r.s, u))
    ensures EntriesOwned(r', Mark(own, EntryIn(PcOf(r.s, t))))
  {
  }

  /** Thread `t` deletes all it is responsible for. */
  lemma ThreadDeletes(r: Run, r': Run, own: seq<Owner>, own': seq<Owner>, t: nat)
    requires ValuesOwned(r, own) && |own'| == |own|
    requires |r'.s.values| == |r.s.values| && r'.index == r.index && r'.s.entries == r.s.entries
    requires forall id: nat | id < |own| :: own'[id] == if Holds(r.s, t, id) then Deleted else own[id]
    requires forall id: nat :: r'.s.deletedValues[id] == r.s.deletedValues[id] + if Holds(r.s, t, id) then 1 else 0
    requires forall u: nat :: PcOf(r'.s, u) == if u == t then Idle else PcOf(r.s, u)
    ensures ValuesOwned(r', own')
  {
    assert forall u: nat, id: nat :: Holds(r'.s, u, id) <==> u != t && Holds(r.s, u, id);
    forall u: nat
      ensures Separate(r'.s, PcOf(r'.s, u))
    {
      assert Separate(r.s, PcOf(r.s, u));
    }
  }

  lemma CleanupDeletes(s: State, a: Action, id: nat)
    requires PcOf(s, a.t).Cleanup? && s.buckets > 0 && Separate(s, PcOf(s, a.t))
    ensures Step(s, a).0.deletedValues[id] == s.deletedValues[id] + if Holds(s, a.t, id) then 1 else 0
  {
  }

  lemma CleanupKeepsValues(r: Run, vo: seq<Owner>, a: Action) returns (vo': seq<Owner>)
    requires ValuesOwned(r, vo) && PcOf(r.s, a.t).Cleanup? && r.s.buckets > 0
    ensures ValuesOwned(Record(r, a), vo')
  {
    var r', s, t := Record(r, a), r.s, a.t;
    vo' := seq(|vo|, id requires 0 <= id < |vo| => if Holds(s, t, id) then Deleted else vo[id]);
    assert Separate(s, PcOf(s, t));
    forall id: nat
      ensures r'.s.deletedValues[id] == s.deletedValues[id] + if Holds(s, t, id) then 1 else 0
    {
      CleanupDeletes(s, a, id);
    }
    ThreadDeletes(r, r', vo, vo', t);
  }

  lemma CleanupKeepsInv(r: Run, eo: seq<Owner>, vo: seq<Owner>, a: Action) returns (eo': seq<Owner>, vo': seq<Owner>)
    requires Inv(r, eo, vo) && PcOf(r.s, a.t).Cleanup?
    ensures Inv(Record(r, a), eo', vo')
  {
    var r' := Record(r, a);
    assert Grows(r, r');
    PrivateWork(r, r', a.t);
    CleanupKeepsEntries(r, eo, a);
    eo' := Mark(eo, PcOf(r.s, a.t).entry);
    vo' := CleanupKeepsValues(r, vo, a);
  }

  // -------------------------------------------------------- all steps

  /** The load of prev->next, wherever it leads. */
  lemma VisitKeepsInv(r: Run, eo: seq<Owner>, vo: seq<Owner>, t: nat, call: Call, mine: Mine, prev: nat)
    returns (eo': seq<Owner>, vo': seq<Owner>)
    requires Inv(r, eo, vo) && BeforeKey(r, prev, call.key)
    requires if call.Set? then OwnsOk(r.s, call, mine) else mine == Mine(Null, Null)
    requires (PcOf(r.s, t) == Idle && mine == Mine(Null, Null)) || PcOf(r.s, t) == Active(call, mine, Walking(prev))
    ensures Inv(r.(s := Visit(r.s, t, call, mine, prev).0), eo', vo')
  {
    var succ := NextOf(r.s, prev);
    assert LinkOk(r, prev);
    eo', vo' := eo, vo;
    if succ.To? && KeyOf(r.s, succ.i) < call.key {
      MoveKeepsInv(r, eo, vo, t, Active(call, mine, Walking(succ.i)));
    } else if succ.To? && KeyOf(r.s, succ.i) == call.key {
      MoveKeepsInv(r, eo, vo, t, if call.Has? then Idle else Active(call, mine, Matched(succ.i)));
    } else if !call.Set? {
      MoveKeepsInv(r, eo, vo, t, Idle);
    } else if mine.entry.Null? {
      AllocateKeepsInv(r, eo, vo, t, call, mine, prev, succ);
      eo', vo' := eo + [Thread(t)], vo + [Thread(t)];
    } else {
      RelinkKeepsInv(r, eo, vo, t, call, mine, prev, succ);
    }
  }

  /** A retry: both CAS loops go back to the start of the bucket. */
  lemma RetryKeepsInv(r: Run, eo: seq<Owner>, vo: seq<Owner>, a: Action)
    requires Inv(r, eo, vo)
    requires PcOf(r.s, a.t).Active?
    ensures var pc := PcOf(r.s, a.t);
      Inv(r.(s := Goto(r.s, a.t, Active(pc.call, pc.mine, Walking(Bucket(r.s, pc.call.key))))), eo, vo)
  {
    var pc := PcOf(r.s, a.t);
    assert Knows(r, pc);
    MoveKeepsInv(r, eo, vo, a.t, Active(pc.call, pc.mine, Walking(Bucket(r.s, pc.call.key))));
  }

  lemma MatchedKeepsInv(r: Run, eo: seq<Owner>, vo: seq<Owner>, a: Action) returns (vo': seq<Owner>)
    requires Inv(r, eo, vo)
    requires PcOf(r.s, a.t).Active? && PcOf(r.s, a.t).at.Matched?
    ensures Inv(Record(r, a), eo, vo')
  {
    var pc := PcOf(r.s, a.t);
    assert Knows(r, pc);
    vo' := vo;
    if !pc.call.Set? {
      MoveKeepsInv(r, eo, vo, a.t, Idle);
    } else if pc.mine.value.Null? {
      SpareKeepsInv(r, eo, vo, a);
      vo' := vo + [Thread(a.t)];
    } else {
      MoveKeepsInv(r, eo, vo, a.t, pc.(at := Swapping(pc.at.target, ValueOf(r.s, pc.at.target))));
    }
  }

  lemma CasKeepsInv(r: Run, eo: seq<Owner>, vo: seq<Owner>, a: Action) returns (eo': seq<Owner>, vo': seq<Owner>)
    requires Inv(r, eo, vo)
    requires PcOf(r.s, a.t).Active? && (PcOf(r.s, a.t).at.Swapping? || PcOf(r.s, a.t).at.Linking?)
    ensures Inv(Record(r, a), eo', vo')
  {
    eo', vo' := eo, vo;
    if SwapReady(r.s, a.t) {
      vo' := SwapKeepsInv(r, eo, vo, a);
    } else if LinkReady(r.s, a.t) {
      eo', vo' := LinkKeepsInv(r, eo, vo, a);
    } else {
      RetryKeepsInv(r, eo, vo, a);
    }
  }

  lemma StepKeepsInv(r: Run, eo: seq<Owner>, vo: seq<Owner>, a: Action) returns (eo': seq<Owner>, vo': seq<Owner>)
    requires Inv(r, eo, vo)
    ensures Inv(Record(r, a), eo', vo')
  {
    var pc := PcOf(r.s, a.t);
    eo', vo' := eo, vo;
    match pc
    case Idle => eo', vo' := VisitKeepsInv(r, eo, vo, a.t, a.call, Mine(Null, Null), Bucket(r.s, a.call.key));
    case Cleanup(_, _, _) => eo', vo' := CleanupKeepsInv(r, eo, vo, a);
    case Active(call, mine, at) =>
      if at.Walking? {
        assert Knows(r, pc);
        eo', vo' := VisitKeepsInv(r, eo, vo, a.t, call, mine, at.prev);
      } else if at.Matched? {
        vo' := MatchedKeepsInv(r, eo, vo, a);
      } else {
        eo', vo' := CasKeepsInv(r, eo, vo, a);
      }
  }

  lemma {:induction false} RunInv(buckets: nat, schedule: seq<Action>) returns (eo: seq<Owner>, vo: seq<Owner>)
    requires buckets > 0
    ensures Inv(Execute(buckets, schedule), eo, vo)
  {
    if schedule == [] {
      InitInv(buckets);
      eo, vo := seq(buckets, _ => Head), [];
    } else {
      var before, a := schedule[..|schedule| - 1], schedule[|schedule| - 1];
      eo, vo := RunInv(buckets, before);
      assert Execute(buckets, schedule) == Record(Execute(buckets, before), a);
      eo, vo := StepKeepsInv(Execute(buckets, before), eo, vo, a);
    }
  }

  // ------------------------------------------------- what callers can rely on

  /** Linearization: every call's answer is the answer of an atomic map at one instant inside
      the call, and every successful CAS is one update of that map. */
  lemma StepsRefineMap(buckets: nat, schedule: seq<Action>, a: Action)
    requires buckets > 0
    ensures var r := Execute(buckets, schedule);
      var r' := Record(r, a);
      match Step(r.s, a).1
      case Present(k) => k in r.m && r'.m == r.m
      case Absent(k) => k !in r.m && r'.m == r.m
      case Found(k, p) => k in r.m && PointsTo(r.s, p, r.m[k]) && r'.m == r.m
      case Inserted(k, v, _) => k !in r.m && r'.m == r.m[k := v]
      case Updated(k, v) => k in r.m && r'.m == r.m[k := v]
      case Silent => r'.m == r.m
  {
    var eo, vo := RunInv(buckets, schedule);
    var r := Execute(buckets, schedule);
    var pc := PcOf(r.s, a.t);
    assert Knows(r, pc);
    if pc.Idle? {
      VisitAnswers(r, a.t, a.call, Mine(Null, Null), Bucket(r.s, a.call.key));
    } else if pc.Active? && pc.at.Walking? {
      VisitAnswers(r, a.t, pc.call, pc.mine, pc.at.prev);
    } else if LinkReady(r.s, a.t) {
      LinkPublishes(r, eo, a);
    }
  }

  /** What the load of prev->next tells about the map at that instant. */
  lemma VisitAnswers(r: Run, t: nat, call: Call, mine: Mine, prev: nat)
    requires Lists(r) && Spells(r) && BeforeKey(r, prev, call.key)
    ensures match Visit(r.s, t, call, mine, prev).1
            case Present(k) => k == call.key && k in r.m
            case Absent(k) => k == call.key && k !in r.m
            case Silent => true
            case _ => false
  {
  }

  /** Keys of `r` are in `r'` too, with the entries they had. */
  ghost predicate Extends(r: Run, r': Run) {
    r.m.Keys <= r'.m.Keys && forall k | k in r.index :: k in r'.index && r'.index[k] == r.index[k]
  }

  lemma StepExtends(r: Run, eo: seq<Owner>, vo: seq<Owner>, a: Action)
    requires Inv(r, eo, vo)
    ensures Extends(r, Record(r, a))
  {
    if LinkReady(r.s, a.t) {
      LinkPublishes(r, eo, a);
    }
  }

  /** The run that goes on from `r` with `more`. */
  function Onward(r: Run, more: seq<Action>): Run
    requires r.s.buckets > 0
    decreases |more|
  {
    if more == [] then r
    else
      BucketsStay(r, more[0]);
      Onward(Record(r, more[0]), more[1..])
  }

  lemma {:induction false} OnwardExtends(r: Run, eo: seq<Owner>, vo: seq<Owner>, more: seq<Action>)
    requires Inv(r, eo, vo)
    ensures Extends(r, Onward(r, more))
    decreases |more|
  {
    if more != [] {
      StepExtends(r, eo, vo, more[0]);
      var eo', vo' := StepKeepsInv(r, eo, vo, more[0]);
      var r' := Record(r, more[0]);
      OnwardExtends(r', eo', vo', more[1..]);
      assert Onward(r, more) == Onward(r', more[1..]);
    }
  }

  /** Keys never vanish, and no key ever moves to another entry, however the run goes on. */
  lemma KeysStay(buckets: nat, schedule: seq<Action>, more: seq<Action>)
    requires buckets > 0
    ensures var r := Execute(buckets, schedule); Extends(r, Onward(r, more))
  {
    var eo, vo := RunInv(buckets, schedule);
    OnwardExtends(Execute(buckets, schedule), eo, vo, more);
  }

  /** Following next from entry `e` visits exactly `xs` and ends in nullptr. */
  predicate Follows(s: State, e: nat, xs: seq<nat>)
    decreases |xs|
  {
    if xs == [] then NextOf(s, e) == Null
    else NextOf(s, e) == To(xs[0]) && Follows(s, xs[0], xs[1..])
  }

  /** The keys of bucket `b` beyond entry `e`. */
  ghost function KeysBeyond(r: Run, e: nat): set<int>
    requires r.s.buckets > 0
  {
    set k | k in r.index && k % r.s.buckets == BucketOf(r, e) && Below(r, e, k)
  }

  /** One link moves past exactly one key. */
  lemma LinkPassesOneKey(r: Run, e: nat, n: nat)
    requires Lists(r) && Listed(r, e) && NextOf(r.s, e) == To(n)
    ensures n >= r.s.buckets && Listed(r, n) && IndexedAt(r, KeyOf(r.s, n), n) && Below(r, e, KeyOf(r.s, n))
    ensures KeyOf(r.s, n) !in KeysBeyond(r, n)
    ensures KeysBeyond(r, e) == {KeyOf(r.s, n)} + KeysBeyond(r, n)
  {
  }

  /** `xs` is the list beyond entry `e`: sorted, and with exactly the keys beyond it. */
  ghost predicate ListOf(r: Run, e: nat, xs: seq<nat>)
    requires r.s.buckets > 0
  {
    && Follows(r.s, e, xs)
    && (forall i | 0 <= i < |xs| ::
          IndexedAt(r, KeyOf(r.s, xs[i]), xs[i]) && KeyOf(r.s, xs[i]) in KeysBeyond(r, e))
    && (forall i, j | 0 <= i < j < |xs| :: KeyOf(r.s, xs[i]) < KeyOf(r.s, xs[j]))
    && (forall k | k in KeysBeyond(r, e) :: r.index[k] in xs)
  }

  lemma ListGrowsInFront(r: Run, e: nat, n: nat, rest: seq<nat>)
    requires r.s.buckets > 0 && n >= r.s.buckets && ListOf(r, n, rest)
    requires NextOf(r.s, e) == To(n) && IndexedAt(r, KeyOf(r.s, n), n)
    requires KeysBeyond(r, e) == {KeyOf(r.s, n)} + KeysBeyond(r, n)
    ensures ListOf(r, e, [n] + rest)
  {
    var xs := [n] + rest;
    assert xs[1..] == rest;
    forall j | 1 <= j < |xs|
      ensures IndexedAt(r, KeyOf(r.s, xs[j]), xs[j]) && KeyOf(r.s, xs[j]) in KeysBeyond(r, n)
      ensures KeyOf(r.s, n) < KeyOf(r.s, xs[j])
    {
      assert xs[j] == rest[j - 1];
    }
  }

  lemma {:induction false} ListBeyond(r: Run, e: nat) returns (xs: seq<nat>)
    requires Lists(r) && Listed(r, e)
    ensures ListOf(r, e, xs)
    decreases |KeysBeyond(r, e)|
  {
    if NextOf(r.s, e).Null? {
      assert LinkOk(r, e);
      xs := [];
    } else {
      var n := NextOf(r.s, e).i;
      LinkPassesOneKey(r, e, n);
      xs := ListBeyond(r, n);
      ListGrowsInFront(r, e, n, xs);
      xs := [n] + xs;
    }
  }

  lemma BucketList(r: Run, b: nat) returns (xs: seq<nat>)
    requires Lists(r) && b < r.s.buckets
    ensures Follows(r.s, b, xs)
    ensures forall i, j | 0 <= i < j < |xs| :: KeyOf(r.s, xs[i]) < KeyOf(r.s, xs[j])
    ensures forall k | k in r.index :: k % r.s.buckets == b <==> r.index[k] in xs
    ensures forall i | 0 <= i < |xs| :: KeyOf(r.s, xs[i]) in r.index
  {
    xs := ListBeyond(r, b);
    forall k | k in r.index
      ensures k % r.s.buckets == b <==> r.index[k] in xs
    {
      assert k in KeysBeyond(r, b) <==> k % r.s.buckets == b;
    }
  }

  /** In every run each bucket is a finite list, strictly sorted by key, of exactly the
      entries of those keys of the map that belong to it. */
  lemma BucketsOverRuns(buckets: nat, schedule: seq<Action>, b: nat) returns (xs: seq<nat>)
    requires b < buckets
    ensures var r := Execute(buckets, schedule);
      && Follows(r.s, b, xs)
      && (forall i, j | 0 <= i < j < |xs| :: KeyOf(r.s, xs[i]) < KeyOf(r.s, xs[j]))
      && r.m.Keys == r.index.Keys
      && (forall k | k in r.m :: k % buckets == b <==> r.index[k] in xs)
      && (forall i | 0 <= i < |xs| :: KeyOf(r.s, xs[i]) in r.m)
  {
    var eo, vo := RunInv(buckets, schedule);
    xs := BucketList(Execute(buckets, schedule), b);
  }

  /** Conservation: no entry and no value is ever deleted twice or deleted while published;
      once every call has returned, what is not published has been deleted. */
  lemma NothingLeaksOverRuns(buckets: nat, schedule: seq<Action>)
    requires buckets > 0
    ensures var r := Execute(buckets, schedule);
      && (forall id: nat :: r.s.deletedValues[id] <= 1 && (PublishedValue(r, id) ==> r.s.deletedValues[id] == 0))
      && (forall e: nat :: r.s.deletedEntries[e] <= 1 && (Listed(r, e) ==> r.s.deletedEntries[e] == 0))
    ensures var r := Execute(buckets, schedule);
      (forall t: nat :: PcOf(r.s, t) == Idle) ==>
        && (forall id: nat | id < |r.s.values| :: PublishedValue(r, id) || r.s.deletedValues[id] == 1)
        && (forall e: nat | e < |r.s.entries| :: Listed(r, e) || r.s.deletedEntries[e] == 1)
  {
    var eo, vo := RunInv(buckets, schedule);
    var r := Execute(buckets, schedule);
    forall id: nat
      ensures PublishedValue(r, id) ==> r.s.deletedValues[id] == 0
    {
    }
    if forall t: nat :: PcOf(r.s, t) == Idle {
      forall id: nat | id < |r.s.values|
        ensures PublishedValue(r, id) || r.s.deletedValues[id] == 1
      {
        assert vo[id].Thread? ==> Holds(r.s, vo[id].t, id);
      }
    }
  }

  /** Every value is exactly one of published, deleted (once) and held by one thread that is
      inside a call, all the time; so a call that has returned has left nothing behind,
      whatever the others are doing. */
  lemma ValuesPartitionedOverRuns(buckets: nat, schedule: seq<Action>, id: nat)
    requires buckets > 0 && id < |Execute(buckets, schedule).s.values|
    ensures var r := Execute(buckets, schedule);
      var (published, deleted, held) := (PublishedValue(r, id), r.s.deletedValues[id] == 1, HeldValue(r.s, id));
      && (published || deleted || held)
      && !(published && deleted) && !(published && held) && !(deleted && held)
      && r.s.deletedValues[id] <= 1
      && (forall t: nat, u: nat | Holds(r.s, t, id) && Holds(r.s, u, id) :: t == u && PcOf(r.s, t) != Idle)
  {
    var eo, vo := RunInv(buckets, schedule);
    ValuesPartitioned(Execute(buckets, schedule), vo, id);
  }

  lemma ValuesPartitioned(r: Run, vo: seq<Owner>, id: nat)
    requires ValuesOwned(r, vo) && id < |r.s.values|
    ensures PublishedValue(r, id) <==> vo[id].Key?
    ensures HeldValue(r.s, id) <==> vo[id].Thread?
    ensures r.s.deletedValues[id] == if vo[id] == Deleted then 1 else 0
    ensures vo[id] != Head
    ensures forall t: nat | Holds(r.s, t, id) :: vo[id] == Thread(t) && PcOf(r.s, t) != Idle
  {
    assert vo[id].Thread? ==> Holds(r.s, vo[id].t, id);
  }

  /** The same for entries: each is in a list, deleted (once), or one thread's own. */
  lemma EntriesPartitionedOverRuns(buckets: nat, schedule: seq<Action>, e: nat)
    requires buckets > 0 && e < |Execute(buckets, schedule).s.entries|
    ensures var r := Execute(buckets, schedule);
      var (listed, deleted, held) := (Listed(r, e), r.s.deletedEntries[e] == 1, HeldEntry(r.s, e));
      && (listed || deleted || held)
      && !(listed && deleted) && !(listed && held) && !(deleted && held)
      && r.s.deletedEntries[e] <= 1
  {
    var eo, vo := RunInv(buckets, schedule);
    EntriesPartitioned(Execute(buckets, schedule), eo, e);
  }

  lemma EntriesPartitioned(r: Run, eo: seq<Owner>, e: nat)
    requires Readable(r) && EntriesOwned(r, eo) && e < |r.s.entries|
    ensures Listed(r, e) <==> eo[e] == Head || eo[e].Key?
    ensures HeldEntry(r.s, e) <==> eo[e].Thread?
    ensures r.s.deletedEntries[e] == if eo[e] == Deleted then 1 else 0
  {
    assert eo[e].Thread? ==> EntryIn(PcOf(r.s, eo[e].t)) == To(e);
    assert eo[e].Key? ==> IndexedAt(r, eo[e].k, e);
  }

  /** Some thread has this entry as its own. */
  ghost predicate HeldEntry(s: State, e: nat) {
    exists t: nat :: EntryIn(PcOf(s, t)) == To(e)
  }

  /** Some thread is responsible for this value. */
  ghost predicate HeldValue(s: State, id: nat) {
    exists t: nat :: Holds(s, t, id)
  }

  /** A spare value means that the key is in the map, so no entry is linked while there is one. */
  predicate SpareOk(r: Run, pc: Pc) {
    pc.Active? && pc.mine.value.To? ==> pc.call.key in r.index && !pc.at.Linking?
  }

  ghost predicate SparesOk(r: Run) {
    forall t: nat :: SpareOk(r, PcOf(r.s, t))
  }

  lemma SpareStep(r: Run, eo: seq<Owner>, vo: seq<Owner>, a: Action)
    requires Inv(r, eo, vo) && SparesOk(r)
    ensures SparesOk(Record(r, a))
  {
    var r' := Record(r, a);
    StepExtends(r, eo, vo, a);
    SpareMover(r, eo, vo, a);
    forall t: nat ensures SpareOk(r', PcOf(r'.s, t)) {
      if t != a.t {
        assert SpareOk(r, PcOf(r.s, t));
        StepMovesOne(r, a, t);
      }
    }
  }

  lemma StepMovesOne(r: Run, a: Action, t: nat)
    requires r.s.buckets > 0 && t != a.t
    ensures PcOf(Record(r, a).s, t) == PcOf(r.s, t)
  {
  }

  lemma SpareMover(r: Run, eo: seq<Owner>, vo: seq<Owner>, a: Action)
    requires Inv(r, eo, vo) && SparesOk(r)
    ensures SpareOk(r, PcOf(Record(r, a).s, a.t))
  {
    var pc := PcOf(r.s, a.t);
    assert Knows(r, pc) && SpareOk(r, pc);
    if pc.Active? && pc.at.Walking? {
      SpareWalker(r, a.t, pc.call, pc.mine, pc.at.prev);
    }
  }

  /** With the key in the map a traversal does not end in a gap. */
  lemma SpareWalker(r: Run, t: nat, call: Call, mine: Mine, prev: nat)
    requires Lists(r) && BeforeKey(r, prev, call.key) && (mine.value.To? ==> call.key in r.index)
    ensures SpareOk(r, PcOf(Visit(r.s, t, call, mine, prev).0, t))
  {
    assert LinkOk(r, prev);
  }

  /** In every run, an Insert that has set a value aside finds its key in the map from then on:
      it never links an entry while it has a spare value.  The overload that moves its argument
      into the spare value therefore never copies the moved-from argument into an entry. */
  lemma {:induction false} SpareMeansPresent(buckets: nat, schedule: seq<Action>)
    requires buckets > 0
    ensures SparesOk(Execute(buckets, schedule))
  {
    if schedule != [] {
      var before, a := schedule[..|schedule| - 1], schedule[|schedule| - 1];
      SpareMeansPresent(buckets, before);
      var eo, vo := RunInv(buckets, before);
      SpareStep(Execute(buckets, before), eo, vo, a);
    }
  }

  /** Some key currently maps to this value. */
  ghost predicate PublishedValue(r: Run, id: nat) {
    exists k :: k in r.index && ValueOf(r.s, r.index[k]) == To(id)
  }
}
