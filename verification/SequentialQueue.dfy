/**
 BoundedQueue used by one thread: the same ring and counters as ConcurrentQueue, updated in
 place.  With nobody else around, every compare-and-swap succeeds at its first real attempt,
 so the retry loops of the source run once.
 */
module SequentialQueue {
  import opened Ring

  class BoundedQueue<V(0)> {
    var head: nat
    var tail: nat
    var commit: nat
    var poolSize: nat
    var pool: array<V>

    ghost predicate Valid()
      reads this, pool
    {
      && pool.Length == poolSize && poolSize >= 2
      && head + 1 <= commit == tail <= head + poolSize - 1
    }

    /** The abstract value: the elements waiting, oldest first. */
    ghost function Contents(): (q: seq<V>)
      reads this, pool
      requires Valid()
      ensures |q| == tail - head - 1
    {
      Window(pool[..], head + 1, commit)
    }

    /** How many elements the queue was asked to hold. */
    ghost function Capacity(): (c: nat)
      reads this, pool
      requires Valid()
    {
      poolSize - 2
    }

    constructor ()
      ensures head == 0 && tail == commit == 1 && poolSize == pool.Length == 0 && fresh(pool)
    {
      head, tail, commit, poolSize := 0, 1, 1, 0;
      pool := new V[0];
    }

    /** `granted` is the allocator's answer. */
    method Init(size: nat, granted: bool) returns (ok: bool)
      requires head == 0 && tail == commit == 1
      modifies this`poolSize, this`pool
      ensures ok == granted
      ensures ok ==> Valid() && Contents() == [] && Capacity() == size && fresh(pool)
    {
      poolSize := size + 2;
      if !granted {
        return false;
      }
      pool := new V[poolSize];
      return true;
    }

    method Enqueue(element: V) returns (ok: bool)
      requires Valid()
      modifies this`tail, this`commit, pool
      ensures Valid() && Capacity() == old(Capacity())
      ensures ok <==> |old(Contents())| < old(Capacity())
      ensures Contents() == if ok then old(Contents()) + [element] else old(Contents())
    {
      var oldTail := tail;
      var newTail := oldTail + 1;
      FullExactly(head, tail, poolSize);
      if Index(newTail, poolSize) == Index(head, poolSize) {
        return false;
      }
      tail := newTail;
      ghost var before := pool[..];
      pool[Index(oldTail, poolSize)] := element;
      commit := newTail;
      WriteExtendsWindow(before, head + 1, oldTail, element);
      assert pool[..] == before[Index(oldTail, poolSize) := element];
      return true;
    }

    /** `previous` is what the caller's variable held; a failed call leaves it there. */
    method Dequeue(previous: V) returns (ok: bool, element: V)
      requires Valid()
      modifies this`head
      ensures Valid() && Capacity() == old(Capacity())
      ensures ok <==> old(Contents()) != []
      ensures ok ==> old(Contents()) == [element] + Contents()
      ensures !ok ==> Contents() == old(Contents()) && element == previous
    {
      var oldHead := head;
      var newHead := oldHead + 1;
      if newHead == commit {
        return false, previous;
      }
      element := pool[Index(newHead, poolSize)];
      head := newHead;
      return true, element;
    }

    method Size() returns (n: nat)
      requires Valid()
      ensures n == |Contents()|
    {
      n := tail - head - 1;
    }
  }

  /** The test "next tail meets head" answers exactly "there is no room left". */
  lemma FullExactly(head: nat, tail: nat, n: nat)
    requires n >= 2
    requires head + 1 <= tail <= head + n - 1
    ensures Index(tail + 1, n) == Index(head, n) <==> tail == head + n - 1
  {
    if tail == head + n - 1 {
      FullTurn(head, n);
    } else {
      CloseCounters(tail + 1, head, n);
    }
  }

  /** Writing the slot just past a window lengthens it and spoils none of it. */
  lemma WriteExtendsWindow<V>(pool: seq<V>, lo: nat, hi: nat, v: V)
    requires lo <= hi < lo + |pool|
    ensures Window(pool[Index(hi, |pool|) := v], lo, hi + 1) == Window(pool, lo, hi) + [v]
  {
    var n := |pool|;
    var pool' := pool[Index(hi, n) := v];
    forall i | 0 <= i < hi - lo
      ensures Window(pool', lo, hi + 1)[i] == Window(pool, lo, hi)[i]
    {
      CloseCounters(lo + i, hi, n);
    }
    assert Window(pool', lo, hi + 1)[hi - lo] == pool'[Index(hi, n)];
  }
}
