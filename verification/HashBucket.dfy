/**
 One bucket of the hash map as a linked list updated in place, used by one thread at a time:
 every compare-and-exchange then succeeds the first time.
 */
module HashBucket {
  import opened Common

  type Value(!new)

  /** `value` stands for the object value_ptr points to; only the head entry has none. */
  class Entry {
    const key: int
    var value: Option<Value>
    var next: Entry?

    constructor (key: int, value: Option<Value>, next: Entry?)
      ensures this.key == key && this.value == value && this.next == next
    {
      this.key := key;
      this.value := value;
      this.next := next;
    }
  }

  function Key(list: seq<Entry>, i: nat): int
    requires i < |list|
  {
    list[i].key
  }

  /** The entry at a position, null past the end. */
  function EntryAt(list: seq<Entry>, i: nat): Entry? {
    if i < |list| then list[i] else null
  }

  ghost predicate Sorted(list: seq<Entry>) {
    forall i: nat, j: nat | i < j < |list| :: Key(list, i) < Key(list, j)
  }

  ghost predicate HasKey(list: seq<Entry>, key: int) {
    exists i: nat | i < |list| :: Key(list, i) == key
  }

  /** Everything before `at` is smaller than the key, everything from there on is not. */
  ghost predicate Splits(list: seq<Entry>, key: int, at: nat) {
    && at <= |list|
    && (forall i: nat | i < at :: Key(list, i) < key)
    && (at < |list| ==> key <= Key(list, at))
  }

  lemma FoundExactly(list: seq<Entry>, key: int, at: nat)
    requires Sorted(list) && Splits(list, key, at)
    ensures HasKey(list, key) <==> at < |list| && list[at].key == key
  {
  }

  /** Keys are sorted, so an entry sits at one place only, and a key belongs to one entry. */
  lemma PlacedOnce(list: seq<Entry>, j: nat)
    requires Sorted(list) && j < |list|
    ensures forall i: nat | i < |list| && list[i] == list[j] :: i == j
    ensures forall e | e in list && e.key == list[j].key :: e == list[j]
  {
    forall i: nat | i < |list| && list[i].key == list[j].key ensures i == j {
      assert Key(list, i) == Key(list, j);
    }
  }

  /** The list with `entry` put in at its place. */
  ghost function Spliced(list: seq<Entry>, entry: Entry, at: nat): seq<Entry>
    requires at <= |list|
  {
    list[..at] + [entry] + list[at..]
  }

  lemma SplicedKey(list: seq<Entry>, entry: Entry, at: nat, i: nat)
    requires at <= |list| && i <= |list|
    ensures |Spliced(list, entry, at)| == |list| + 1
    ensures Key(Spliced(list, entry, at), i) ==
            if i < at then Key(list, i) else if i == at then entry.key else Key(list, i - 1)
  {
  }

  lemma SplicedSorted(list: seq<Entry>, entry: Entry, at: nat)
    requires Sorted(list) && Splits(list, entry.key, at) && !HasKey(list, entry.key)
    ensures Sorted(Spliced(list, entry, at))
  {
    var list' := Spliced(list, entry, at);
    forall i: nat, j: nat | i < j < |list'| ensures Key(list', i) < Key(list', j) {
      SplicedKey(list, entry, at, i);
      SplicedKey(list, entry, at, j);
      assert at < |list| ==> Key(list, at) > entry.key;
    }
  }

  lemma SplicedKeys(list: seq<Entry>, entry: Entry, at: nat, k: int)
    requires at <= |list|
    ensures HasKey(Spliced(list, entry, at), k) <==> k == entry.key || HasKey(list, k)
  {
    var list' := Spliced(list, entry, at);
    if HasKey(list', k) {
      var i: nat :| i < |list'| && Key(list', i) == k;
      SplicedKey(list, entry, at, i);
    }
    if HasKey(list, k) {
      var i: nat :| i < |list| && Key(list, i) == k;
      SplicedKey(list, entry, at, if i < at then i else i + 1);
    }
    SplicedKey(list, entry, at, at);
  }

  ghost predicate KeysMatch(list: seq<Entry>, contents: map<int, Value>) {
    forall k :: k in contents <==> HasKey(list, k)
  }

  lemma SplicedMatch(list: seq<Entry>, contents: map<int, Value>, entry: Entry, value: Value, at: nat)
    requires at <= |list| && KeysMatch(list, contents)
    ensures KeysMatch(Spliced(list, entry, at), contents[entry.key := value])
    ensures forall e | e in Spliced(list, entry, at) :: e == entry || e in list
  {
    forall k {
      SplicedKeys(list, entry, at, k);
    }
  }

  class Bucket {
    const head: Entry
    ghost var list: seq<Entry>
    ghost var contents: map<int, Value>

    /** `list` is the chain of entries after the head. */
    ghost predicate Linked()
      reads this, head, list
    {
      && head !in list
      && head.next == EntryAt(list, 0)
      && (forall i: nat | i < |list| :: list[i].next == EntryAt(list, i + 1))
    }

    ghost predicate Binds()
      reads this, list
    {
      forall e | e in list :: e.key in contents && e.value == Some(contents[e.key])
    }

    /** The chain is sorted and binds exactly what `contents` does. */
    ghost predicate Valid()
      reads this, head, list
    {
      && Linked() && Sorted(list) && Binds()
      && KeysMatch(list, contents)
    }

    constructor ()
      ensures Valid() && contents == map[] && fresh(head)
    {
      head := new Entry(0, None, null);
      list, contents := [], map[];
    }

    /** The entry after which `key` is or belongs, and the one that follows. */
    method Find(key: int) returns (found: bool, prev: Entry, target: Entry?, ghost at: nat)
      requires Valid()
      ensures Splits(list, key, at)
      ensures prev == if at == 0 then head else list[at - 1]
      ensures target == EntryAt(list, at)
      ensures found ==> target != null && target.key == key
      ensures found <==> key in contents
    {
      prev, target, at := head, head.next, 0;
      while target != null && target.key < key
        invariant at <= |list|
        invariant prev == if at == 0 then head else list[at - 1]
        invariant target == EntryAt(list, at)
        invariant forall i: nat | i < at :: Key(list, i) < key
        decreases |list| - at
      {
        assert target == list[at] && Key(list, at) == target.key;
        prev, target, at := target, target.next, at + 1;
      }
      found := target != null && target.key == key;
      FoundExactly(list, key, at);
    }

    method Has(key: int) returns (r: bool)
      requires Valid()
      ensures r <==> key in contents
    {
      var target := head.next;
      ghost var at := 0;
      while target != null && target.key < key
        invariant at <= |list|
        invariant target == EntryAt(list, at)
        invariant forall i: nat | i < at :: Key(list, i) < key
        decreases |list| - at
      {
        assert target == list[at] && Key(list, at) == target.key;
        target, at := target.next, at + 1;
      }
      r := target != null && target.key == key;
      FoundExactly(list, key, at);
    }

    method Get(key: int) returns (r: Option<Value>)
      requires Valid()
      ensures r == if key in contents then Some(contents[key]) else None
    {
      var found, prev, target, at := Find(key);
      return if found then target.value else None;
    }

    /** The exchange of `prev.next`. */
    method Link(prev: Entry, entry: Entry, ghost at: nat)
      requires Linked() && Sorted(list) && at <= |list| && entry != head && entry !in list
      requires prev == if at == 0 then head else list[at - 1]
      requires entry.next == EntryAt(list, at)
      modifies this`list, prev`next
      ensures list == old(Spliced(list, entry, at)) && Linked()
    {
      if at > 0 {
        PlacedOnce(list, at - 1);
      }
      prev.next := entry;
      list := Spliced(list, entry, at);
    }

    /** The key is not bound: put a new entry in its place. */
    method Add(prev: Entry, target: Entry?, key: int, value: Value, ghost at: nat)
      requires Valid() && Splits(list, key, at) && key !in contents
      requires prev == if at == 0 then head else list[at - 1]
      requires target == EntryAt(list, at)
      modifies this, prev`next
      ensures Valid() && contents == old(contents)[key := value]
      ensures forall e | e in list :: e in old(list) || fresh(e)
    {
      var entry := new Entry(key, Some(value), target);
      SplicedMatch(list, contents, entry, value, at);
      SplicedSorted(list, entry, at);
      Link(prev, entry, at);
      contents := contents[key := value];
    }

    /** The key is bound by `target`: exchange its value. */
    method Replace(target: Entry, value: Value, ghost at: nat)
      requires Valid() && at < |list| && target == list[at]
      modifies this`contents, target`value
      ensures Valid() && contents == old(contents)[target.key := value]
    {
      PlacedOnce(list, at);
      target.value := Some(value);
      contents := contents[target.key := value];
    }

    /** Insert binds the key, whether it was bound before or not, and nothing else. */
    method Insert(key: int, value: Value)
      requires Valid()
      modifies this, head, list
      ensures Valid() && contents == old(contents)[key := value]
      ensures forall e | e in list :: e in old(list) || fresh(e)
    {
      var found, prev, target, at := Find(key);
      if found {
        FoundExactly(list, key, at);
        Replace(target, value, at);
      } else {
        Add(prev, target, key, value, at);
      }
    }
  }
}
