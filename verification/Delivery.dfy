/**
 One reader's view of a channel, as pure data: the messages ever filled, the queue size, and
 the reader's cursor next_msg_index_.  Positions count from 1.  A buffer keeps the last
 `size` messages; Fill and TryFetch each hold the buffer's mutex, so an interleaving of the
 two is a sequence of operations.
 */
module Delivery {

  type Msg(!new, 0)

  datatype View = View(filled: seq<Msg>, size: nat, next: nat)

  datatype Outcome = Nothing | Message(pos: nat, m: Msg)

  function Tail(v: View): nat {
    |v.filled|
  }

  /** The oldest position still kept. */
  function Head(v: View): nat {
    if Tail(v) <= v.size then 1 else Tail(v) - v.size + 1
  }

  /** How many filled messages the cursor has not passed. */
  function Lag(v: View): int {
    Tail(v) + 1 - v.next
  }

  function Fetch(v: View): Outcome
    requires v.next <= Tail(v) + 1
  {
    if Tail(v) == 0 then Nothing
    else if v.next == 0 then Message(Tail(v), v.filled[Tail(v) - 1])
    else if v.next == Tail(v) + 1 then Nothing
    else if v.next < Head(v) then Message(Tail(v), v.filled[Tail(v) - 1])
    else Message(v.next, v.filled[v.next - 1])
  }

  function TryFetch(v: View): View
    requires v.next <= Tail(v) + 1
  {
    match Fetch(v)
    case Nothing => v
    case Message(pos, _) => v.(next := pos + 1)
  }

  function Fill(v: View, m: Msg): View {
    v.(filled := v.filled + [m])
  }

  datatype Op = OpFill(m: Msg) | OpTryFetch

  /** The view after some operations, and what was delivered, in order. */
  datatype Log = Log(v: View, got: seq<Outcome>)

  function Apply(log: Log, op: Op): Log
    requires log.v.next <= Tail(log.v) + 1
  {
    match op
    case OpFill(m) => log.(v := Fill(log.v, m))
    case OpTryFetch =>
      Log(TryFetch(log.v), if Fetch(log.v).Message? then log.got + [Fetch(log.v)] else log.got)
  }

  function Play(size: nat, ops: seq<Op>): (log: Log)
    ensures log.v.next <= Tail(log.v) + 1
  {
    if ops == [] then Log(View([], size, 0), [])
    else Apply(Play(size, ops[..|ops| - 1]), ops[|ops| - 1])
  }

  /** What was delivered is what was filled, in increasing positions, the last of them just
      behind the cursor. */
  ghost predicate Faithful(log: Log) {
    && (forall i | 0 <= i < |log.got| :: Genuine(log.v, log.got[i]) && log.got[i].pos < log.v.next)
    && (forall i, j | 0 <= i < j < |log.got| :: log.got[i].pos < log.got[j].pos)
    && (if log.got == [] then log.v.next == 0 else log.v.next == log.got[|log.got| - 1].pos + 1)
  }

  /** A delivery carries the message that was filled at its position. */
  ghost predicate Genuine(v: View, g: Outcome) {
    g.Message? && 1 <= g.pos <= Tail(v) && v.filled[g.pos - 1] == g.m
  }

  /** Over every interleaving: each message delivered is the one filled at its position,
      positions strictly increase, and the cursor stays at most one past the newest. */
  lemma {:induction false} DeliveryIsFaithful(size: nat, ops: seq<Op>)
    ensures Faithful(Play(size, ops)) && Play(size, ops).v.next <= Tail(Play(size, ops).v) + 1
    ensures Play(size, ops).v.size == size
  {
    if ops != [] {
      DeliveryIsFaithful(size, ops[..|ops| - 1]);
      ApplyKeepsFaithful(Play(size, ops[..|ops| - 1]), ops[|ops| - 1]);
    }
  }

  lemma ApplyKeepsFaithful(log: Log, op: Op)
    requires log.v.next <= Tail(log.v) + 1 && Faithful(log)
    ensures Faithful(Apply(log, op)) && Apply(log, op).v.size == log.v.size
  {
    var log' := Apply(log, op);
    forall i | 0 <= i < |log.got|
      ensures log'.got[i] == log.got[i] && Genuine(log'.v, log'.got[i])
    {
      assert Genuine(log.v, log.got[i]);
    }
  }

  /** The messages filled by some operations, in order. */
  function Fills(ops: seq<Op>): seq<Msg> {
    if ops == [] then []
    else
      var op := ops[|ops| - 1];
      Fills(ops[..|ops| - 1]) + if op.OpFill? then [op.m] else []
  }

  lemma {:induction false} FilledAreFills(size: nat, ops: seq<Op>)
    ensures Play(size, ops).v.filled == Fills(ops)
  {
    if ops != [] {
      FilledAreFills(size, ops[..|ops| - 1]);
    }
  }

  /** Where a fetch goes, in terms of the lag; nothing comes exactly when nothing is new. */
  lemma FetchByLag(v: View)
    requires v.next <= Tail(v) + 1
    ensures var g := Fetch(v);
      && (g.Message? && v.next > 0 ==> g.pos == if Lag(v) > v.size then Tail(v) else v.next)
      && (g.Nothing? <==> Tail(v) == 0 || v.next == Tail(v) + 1)
  {
  }

  // ---------------------------------------------------------------- what comes next

  /** The position delivered last, 0 if there was none. */
  function LastPos(got: seq<Outcome>): nat {
    if got == [] || got[|got| - 1].Nothing? then 0 else got[|got| - 1].pos
  }

  /** What a reader is due next, in terms of the messages filled and what it got so far: at first
      the newest; then the one after its last, or the newest if more than `size` are waiting. */
  function Due(size: nat, fills: seq<Msg>, got: seq<Outcome>): seq<Outcome> {
    var last := LastPos(got);
    if |fills| <= last then []
    else if got == [] || |fills| - last > size then [Message(|fills|, fills[|fills| - 1])]
    else [Message(last + 1, fills[last])]
  }

  /** Over every interleaving, the next TryFetch delivers exactly what is due. */
  lemma NextIsDue(size: nat, ops: seq<Op>)
    ensures var got := Play(size, ops).got; Play(size, ops + [OpTryFetch]).got == got + Due(size, Fills(ops), got)
  {
    DeliveryIsFaithful(size, ops);
    FilledAreFills(size, ops);
    assert (ops + [OpTryFetch])[..|ops|] == ops;
    FetchIsDue(Play(size, ops));
  }

  lemma FetchIsDue(log: Log)
    requires log.v.next <= Tail(log.v) + 1 && Faithful(log)
    ensures Apply(log, OpTryFetch).got == log.got + Due(log.v.size, log.v.filled, log.got)
  {
    if log.got != [] {
      assert Genuine(log.v, log.got[|log.got| - 1]);
    }
  }

  // ---------------------------------------------------------------- gaps

  /** Deliveries `i` and `i + 1` are neighbours, or more than the queue size apart. */
  predicate NextOrJump(got: seq<Outcome>, size: nat, i: nat)
    requires i + 1 < |got|
  {
    && got[i].Message? && got[i + 1].Message?
    && (got[i + 1].pos == got[i].pos + 1 || got[i + 1].pos > got[i].pos + size)
  }

  ghost predicate GapsAreLong(got: seq<Outcome>, size: nat) {
    forall i: nat | i + 1 < |got| :: NextOrJump(got, size, i)
  }

  lemma ApplyKeepsGapsLong(log: Log, op: Op)
    requires log.v.next <= Tail(log.v) + 1 && Faithful(log) && GapsAreLong(log.got, log.v.size)
    ensures GapsAreLong(Apply(log, op).got, log.v.size)
  {
    var got' := Apply(log, op).got;
    forall i: nat | i + 1 < |got'| ensures NextOrJump(got', log.v.size, i) {
      if i + 1 < |log.got| {
        assert NextOrJump(log.got, log.v.size, i);
      } else {
        assert Genuine(log.v, log.got[i]) && log.got[i].pos + 1 == log.v.next;
        FetchByLag(log.v);
      }
    }
  }

  /** Over every interleaving a reader skips only after lagging: two deliveries in a row are of
      neighbouring positions or of positions more than the queue size apart. */
  lemma {:induction false} SkipsOnlyWhenLagging(size: nat, ops: seq<Op>)
    ensures GapsAreLong(Play(size, ops).got, size)
  {
    if ops != [] {
      var before := ops[..|ops| - 1];
      SkipsOnlyWhenLagging(size, before);
      DeliveryIsFaithful(size, before);
      ApplyKeepsGapsLong(Play(size, before), ops[|ops| - 1]);
    }
  }

  /** At most `size` messages are waiting for a reader that has begun. */
  predicate KeepsUp(v: View) {
    v.next > 0 ==> Lag(v) <= v.size
  }

  /** Every message from the first delivery on was delivered, each once. */
  predicate Gapless(got: seq<Outcome>) {
    forall i | 0 <= i < |got| :: got[i].Message? && got[0].Message? && got[i].pos == got[0].pos + i
  }

  lemma ApplyKeepsGapless(log: Log, op: Op)
    requires log.v.next <= Tail(log.v) + 1 && Faithful(log) && Gapless(log.got)
    requires op.OpTryFetch? ==> KeepsUp(log.v)
    ensures Gapless(Apply(log, op).got)
  {
    FetchByLag(log.v);
    if log.got != [] {
      assert Genuine(log.v, log.got[|log.got| - 1]);
    }
  }

  /** At every TryFetch after the first delivery, at most `size` messages were waiting. */
  ghost predicate NeverLags(size: nat, ops: seq<Op>) {
    forall n | 0 <= n < |ops| && ops[n].OpTryFetch? :: KeepsUp(Play(size, ops[..n]).v)
  }

  /** A reader that never lags gets every message after its first one exactly once. */
  lemma {:induction false} NoGapsWithoutLag(size: nat, ops: seq<Op>)
    requires NeverLags(size, ops)
    ensures Gapless(Play(size, ops).got)
  {
    if ops != [] {
      var n := |ops| - 1;
      var before := ops[..n];
      assert forall k | 0 <= k < n :: before[..k] == ops[..k] && before[k] == ops[k];
      NoGapsWithoutLag(size, before);
      DeliveryIsFaithful(size, before);
      ApplyKeepsGapless(Play(size, before), ops[n]);
    }
  }
}
