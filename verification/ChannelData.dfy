/**
 CacheBuffer, ChannelBuffer and the single-channel DataVisitor, in place.  The buffer's
 mutex is held for the whole of Fill, Fetch, Latest and FetchMulti, so each runs alone.  No
 fusion callback is set.
 */
module ChannelData {
  import opened Ring
  import Delivery

  type Msg = Delivery.Msg

  class CacheBuffer {
    var head: nat
    var tail: nat
    var capacity: nat
    var buffer: array<Msg>
    ghost var filled: seq<Msg> // every message ever filled

    /** `head` trails `tail` by at most the queue size, and every position from `head` on can
        still be read: one more than the window (head, tail] that the buffer speaks about. */
    ghost predicate Valid()
      reads this, buffer
    {
      && capacity == buffer.Length >= 1
      && tail == |filled|
      && head == (if tail <= capacity - 1 then 0 else tail - (capacity - 1))
      && forall p: nat {:trigger Index(p, capacity)} | 1 <= p && head <= p <= tail ::
           buffer[Index(p, capacity)] == filled[p - 1]
    }

    constructor (size: nat)
      ensures Valid() && filled == [] && capacity == size + 1 && fresh(buffer)
    {
      capacity := size + 1;
      buffer := new Msg[size + 1];
      head, tail, filled := 0, 0, [];
    }

    function Head(): nat
      reads this
    {
      head + 1
    }

    function Tail(): nat
      reads this
    {
      tail
    }

    function Size(): nat
      reads this
      requires head <= tail
    {
      tail - head
    }

    predicate Empty()
      reads this
    {
      tail == 0
    }

    predicate Full()
      reads this
    {
      capacity - 1 == tail - head
    }

    /** The accessors agree with "the last `size` of the messages filled". */
    lemma WindowIsLastMessages()
      requires Valid()
      ensures Tail() == |filled|
      ensures Head() == |filled| - Size() + 1
      ensures Size() == if |filled| <= capacity - 1 then |filled| else capacity - 1
      ensures forall p | Head() <= p <= Tail() :: buffer[p % capacity] == filled[p - 1]
    {
      forall p | Head() <= p <= Tail()
        ensures buffer[p % capacity] == filled[p - 1]
      {
        assert p % capacity == Index(p, capacity);
      }
    }

    /** `m` is the newest message filled at a position that shares its slot with `pos`, if
        there is one. */
    ghost predicate InSlot(pos: nat, m: Msg)
      reads this, buffer
      requires Valid()
    {
      forall q: nat {:trigger Index(q, capacity)} | 1 <= q <= tail < q + capacity ::
        Index(q, capacity) == Index(pos, capacity) ==> m == filled[q - 1]
    }

    /** Any position may be asked for; one that is not kept any more, or not filled yet, gets
        what its slot holds. */
    method At(pos: nat) returns (m: Msg)
      requires Valid()
      ensures InSlot(pos, m)
      ensures 1 <= pos && head <= pos <= tail ==> m == filled[pos - 1]
    {
      assert pos % capacity == Index(pos, capacity);
      m := buffer[pos % capacity];
    }

    method Fill(value: Msg)
      requires Valid()
      modifies this`head, this`tail, this`filled, buffer
      ensures Valid()
      ensures filled == old(filled) + [value]
    {
      ghost var slot := Index(tail + 1, capacity);
      SlotsApart(tail + 1, capacity);
      if Full() {
        FullTurn(head, capacity);
        assert head % capacity == Index(head, capacity) == slot;
        buffer[head % capacity] := value;
        head := head + 1;
        tail := tail + 1;
      } else {
        assert (tail + 1) % capacity == slot;
        buffer[(tail + 1) % capacity] := value;
        tail := tail + 1;
      }
      filled := filled + [value];
    }
  }

  /** The slot of a position differs from the slots of the `n - 1` positions before it. */
  lemma SlotsApart(p: nat, n: nat)
    requires n >= 1
    ensures forall q: nat {:trigger Index(q, n)} | q < p < q + n :: Index(q, n) != Index(p, n)
  {
    forall q: nat {:trigger Index(q, n)} | q < p < q + n
      ensures Index(q, n) != Index(p, n)
    {
      CloseCounters(q, p, n);
    }
  }

  lemma OneMore(vec: seq<Msg>, s: seq<Msg>, i: nat, j: nat)
    requires i <= j < |s|
    ensures vec + s[i..j] + [s[j]] == vec + s[i..j + 1]
  {
  }

  class ChannelBuffer {
    const buffer: CacheBuffer

    constructor (buffer: CacheBuffer)
      ensures this.buffer == buffer
    {
      this.buffer := buffer;
    }

    /** What a reader with cursor `index` sees. */
    ghost function Seen(index: nat): Delivery.View
      reads buffer
      requires buffer.capacity >= 1
    {
      Delivery.View(buffer.filled, buffer.capacity - 1, index)
    }

    /** `previous` is what the caller's message variable held.  An index past the next message
        is not refused: the caller gets what the slot holds, under that index. */
    method Fetch(index: nat, previous: Msg) returns (ok: bool, index': nat, m: Msg)
      requires buffer.Valid()
      ensures index <= buffer.tail + 1 ==>
                match Delivery.Fetch(Seen(index))
                case Nothing => !ok && index' == index && m == previous
                case Message(pos, msg) => ok && index' == pos && m == msg
      ensures index == 0 && buffer.filled != [] ==>
                ok && index' == |buffer.filled| && m == buffer.filled[|buffer.filled| - 1]
      ensures index > buffer.tail + 1 ==>
                index' == index && if buffer.filled == [] then !ok && m == previous else ok && buffer.InSlot(index, m)
    {
      if buffer.Empty() {
        return false, index, previous;
      }
      index' := index;
      if index == 0 {
        index' := buffer.Tail();
      } else if index == buffer.Tail() + 1 {
        return false, index, previous;
      } else if index < buffer.Head() {
        index' := buffer.Tail();
      }
      m := buffer.At(index');
      ok := true;
    }

    method Latest(previous: Msg) returns (ok: bool, m: Msg)
      requires buffer.Valid()
      ensures ok <==> buffer.filled != []
      ensures m == if ok then buffer.filled[|buffer.filled| - 1] else previous
    {
      if buffer.Empty() {
        return false, previous;
      }
      m := buffer.At(buffer.tail);
      ok := true;
    }

    /** Appends the last min(Size, fetchSize) messages, oldest first, to `vec`. */
    method FetchMulti(fetchSize: nat, vec: seq<Msg>) returns (ok: bool, vec': seq<Msg>)
      requires buffer.Valid()
      ensures ok <==> buffer.filled != []
      ensures !ok ==> vec' == vec
      ensures ok ==>
        var num := if buffer.Size() <= fetchSize then buffer.Size() else fetchSize;
        vec' == vec + buffer.filled[|buffer.filled| - num..]
    {
      if buffer.Empty() {
        return false, vec;
      }
      var num := if buffer.Size() <= fetchSize then buffer.Size() else fetchSize;
      vec' := vec;
      ghost var start := buffer.Tail() - num;
      var index := buffer.Tail() - num + 1;
      while index <= buffer.Tail()
        invariant start + 1 <= index <= buffer.Tail() + 1
        invariant vec' == vec + buffer.filled[start..index - 1]
      {
        var m := buffer.At(index);
        OneMore(vec, buffer.filled, start, index - 1);
        vec' := vec' + [m];
        index := index + 1;
      }
      ok := true;
    }
  }

  class DataVisitor {
    const channel: ChannelBuffer
    var nextMsgIndex: nat

    constructor (channel: ChannelBuffer)
      ensures this.channel == channel && nextMsgIndex == 0
    {
      this.channel := channel;
      nextMsgIndex := 0;
    }

    ghost predicate Valid()
      reads this, channel.buffer, channel.buffer.buffer
    {
      channel.buffer.Valid() && nextMsgIndex <= channel.buffer.tail + 1
    }

    ghost function View(): Delivery.View
      reads this, channel.buffer, channel.buffer.buffer
      requires Valid()
    {
      channel.Seen(nextMsgIndex)
    }

    /** One TryFetch of the pure model: same cursor, same message. */
    method TryFetch(previous: Msg) returns (ok: bool, m: Msg)
      requires Valid()
      modifies this`nextMsgIndex
      ensures Valid() && View() == Delivery.TryFetch(old(View()))
      ensures match Delivery.Fetch(old(View()))
              case Nothing => !ok && m == previous
              case Message(_, msg) => ok && m == msg
    {
      var index;
      ok, index, m := channel.Fetch(nextMsgIndex, previous);
      nextMsgIndex := if ok then index + 1 else index;
    }
  }
}
