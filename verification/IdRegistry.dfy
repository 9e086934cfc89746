/**
 GlobalData's id registries: a name is registered under the first id, counting up from its
 hash with 64-bit wrap-around, that is free or already carries that name.  The node, channel,
 service and task registries run the same code on four maps; this is one of them.  The hash
 is any function, and calls do not overlap.
 */
module IdRegistry {

  const ID_SPACE: nat := 0x1_0000_0000_0000_0000

  /** Every uint64_t. */
  type Id = i: nat | i < ID_SPACE witness 0

  /** 64-bit addition, which wraps round. */
  function Plus(from: Id, d: Id): (to: Id)
    ensures to == (from + d) % ID_SPACE
  {
    if from + d < ID_SPACE then from + d else from + d - ID_SPACE
  }

  /** How many increments lead from one id to another. */
  function Distance(from: Id, to: Id): (d: Id)
    ensures Plus(from, d) == to
  {
    if from <= to then to - from else to - from + ID_SPACE
  }

  /** `id` is where a probe for `name` from `from` stops: everything before it is taken by
      other names, and it is free or carries `name`. */
  ghost predicate StopsAt(names: map<Id, string>, name: string, from: Id, id: Id) {
    && TakenByOthers(names, name, from, Distance(from, id))
    && Fits(names, name, id)
  }

  /** Id `id` is free or already carries the name. */
  predicate Fits(names: map<Id, string>, name: string, id: Id) {
    id in names ==> names[id] == name
  }

  ghost predicate TakenByOthers(names: map<Id, string>, name: string, from: Id, d: Id) {
    forall i: Id | i < d :: Plus(from, i) in names && names[Plus(from, i)] != name
  }

  /** Every registered name sits where a probe for it stops. */
  ghost predicate Placed(hash: string -> Id, names: map<Id, string>) {
    forall id | id in names :: StopsAt(names, names[id], hash(names[id]), id)
  }

  /** Some id is free or already carries the name: otherwise the probe would never end. */
  ghost predicate Room(names: map<Id, string>, name: string) {
    exists id: Id :: Fits(names, name, id)
  }

  /** A probe stops in one place only. */
  lemma StopIsUnique(names: map<Id, string>, name: string, from: Id, id: Id, id': Id)
    requires StopsAt(names, name, from, id) && StopsAt(names, name, from, id')
    ensures id == id'
  {
  }

  /** Whatever the occupied ids, a probe stops somewhere exactly when there is room. */
  lemma StopsExactlyWithRoom(names: map<Id, string>, name: string, from: Id)
    ensures (exists id: Id :: StopsAt(names, name, from, id)) <==> Room(names, name)
  {
    if Room(names, name) {
      var goal: Id :| Fits(names, name, goal);
      var id := StopBefore(names, name, from, goal, 0);
    }
  }

  lemma {:induction false} StopBefore(names: map<Id, string>, name: string, from: Id, goal: Id, d: Id) returns (id: Id)
    requires Fits(names, name, goal) && d <= Distance(from, goal)
    requires TakenByOthers(names, name, from, d)
    ensures StopsAt(names, name, from, id)
    decreases Distance(from, goal) - d
  {
    id := Plus(from, d);
    if !Fits(names, name, id) {
      id := StopBefore(names, name, from, goal, d + 1);
    }
  }

  /** Registering a name where its probe stops keeps every name in its place. */
  lemma RegisterKeepsPlaced(hash: string -> Id, names: map<Id, string>, name: string, id: Id)
    requires Placed(hash, names) && StopsAt(names, name, hash(name), id)
    ensures Placed(hash, names[id := name])
  {
  }

  class Registry {
    const hash: string -> Id
    var names: map<Id, string>

    ghost predicate Valid()
      reads this
    {
      Placed(hash, names)
    }

    constructor (hash: string -> Id)
      ensures Valid() && names == map[] && this.hash == hash
    {
      this.hash := hash;
      names := map[];
    }

    /** The probing loop of Register. */
    method Probe(name: string) returns (id: Id)
      requires Room(names, name)
      ensures StopsAt(names, name, hash(name), id)
    {
      id := hash(name);
      ghost var d: Id := 0;
      ghost var goal: Id :| Fits(names, name, goal);
      while id in names
        invariant id == Plus(hash(name), d)
        invariant d <= Distance(hash(name), goal)
        invariant TakenByOthers(names, name, hash(name), d)
        decreases ID_SPACE - d
      {
        if names[id] == name {
          break;
        }
        assert id != goal;
        id := if id + 1 == ID_SPACE then 0 else id + 1;
        d := d + 1;
      }
      assert d == Distance(hash(name), id);
    }

    /** The new binding is the only change; a name keeps its id for ever, and no other name
        has that id. */
    method Register(name: string) returns (id: Id)
      requires Valid() && Room(names, name)
      modifies this
      ensures Valid()
      ensures StopsAt(old(names), name, hash(name), id)
      ensures names == old(names)[id := name]
      ensures id in old(names) ==> names == old(names)
      ensures forall j | j in names :: names[j] == name <==> j == id
    {
      id := Probe(name);
      RegisterKeepsPlaced(hash, names, name, id);
      names := names[id := name];
      forall j | j in names && names[j] == name
        ensures j == id
      {
        assert StopsAt(names, name, hash(name), j);
        assert StopsAt(names, name, hash(name), id);
        StopIsUnique(names, name, hash(name), j, id);
      }
    }

    method LookUp(id: Id) returns (name: string)
      ensures name == if id in names then names[id] else ""
    {
      if id in names {
        return names[id];
      }
      return "";
    }
  }

  // -------------------------------------------------------- whole histories

  /** `ids` are the answers to `requests`, made one after another on an empty registry. */
  ghost predicate History(hash: string -> Id, requests: seq<string>, ids: seq<Id>, names: map<Id, string>) {
    && |requests| == |ids|
    && if requests == [] then names == map[]
       else
         var n := |requests| - 1;
         exists before: map<Id, string> ::
           && History(hash, requests[..n], ids[..n], before)
           && StopsAt(before, requests[n], hash(requests[n]), ids[n])
           && names == before[ids[n] := requests[n]]
  }

  /** The registry is an injective naming: over any history, equal names and only equal names
      get equal ids, and looking up any id ever returned gives its name back. */
  lemma {:induction false} NamingIsInjective(
    hash: string -> Id, requests: seq<string>, ids: seq<Id>, names: map<Id, string>)
    requires History(hash, requests, ids, names)
    ensures Placed(hash, names)
    ensures forall i | 0 <= i < |ids| :: ids[i] in names && names[ids[i]] == requests[i]
    ensures forall i, j | 0 <= i < |ids| && 0 <= j < |ids| :: ids[i] == ids[j] <==> requests[i] == requests[j]
  {
    if requests != [] {
      var n := |requests| - 1;
      var before: map<Id, string> :|
        && History(hash, requests[..n], ids[..n], before)
        && StopsAt(before, requests[n], hash(requests[n]), ids[n])
        && names == before[ids[n] := requests[n]];
      NamingIsInjective(hash, requests[..n], ids[..n], before);
      RegisterKeepsPlaced(hash, before, requests[n], ids[n]);
      forall i | 0 <= i < n
        ensures ids[i] in names && names[ids[i]] == requests[i]
        ensures ids[i] == ids[n] <==> requests[i] == requests[n]
      {
        assert ids[..n][i] == ids[i] && requests[..n][i] == requests[i];
        assert ids[i] in before && before[ids[i]] == requests[i];
        if requests[i] == requests[n] {
          StopIsUnique(before, requests[n], hash(requests[n]), ids[i], ids[n]);
        }
      }
    }
  }
}
