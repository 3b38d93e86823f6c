/**
 * The channels of one connection and the scheduler (src/channel/channel.h): the full scan, and
 * the fast path that looks only at channels whose bit is set in the connection's pending mask.
 * The mask, a byte in the source, is the set of its bit positions.
 */
module Scheduling {
  import opened Bytes
  import opened Channels

  const MASK_BITS: nat := 8

  /** `r` is the first candidate of the highest priority among the channels below `n`, or -1. */
  ghost predicate IsNext(candidates: set<nat>, priorities: seq<nat>, n: nat, r: int)
    requires n <= |priorities|
  {
    if r == -1 then forall i: nat :: i < n ==> i !in candidates
    else
      0 <= r < n && r in candidates &&
      forall i: nat :: i < n && i in candidates ==>
        priorities[i] <= priorities[r] && (i < r ==> priorities[i] < priorities[r])
  }

  /** The scheduler's choice is unique. */
  lemma NextUnique(candidates: set<nat>, priorities: seq<nat>, n: nat, r: int, s: int)
    requires n <= |priorities| && IsNext(candidates, priorities, n, r) && IsNext(candidates, priorities, n, s)
    ensures r == s
  {
  }

  /** One more channel looked at. */
  lemma NextStep(candidates: set<nat>, priorities: seq<nat>, n: nat, r: int)
    requires n < |priorities| && IsNext(candidates, priorities, n, r)
    ensures IsNext(candidates, priorities, n + 1,
              if n in candidates && (r < 0 || priorities[n] > priorities[r]) then n else r)
  {
  }

  /** A mask that covers the waiting channels hides none that may send. */
  lemma CoveredMask(ready: set<nat>, nonEmpty: set<nat>, mask: set<nat>, priorities: seq<nat>, n: nat, best: int)
    requires ready <= nonEmpty && n <= |priorities| && IsNext(ready * mask, priorities, n, best)
    ensures nonEmpty <= mask ==> IsNext(ready, priorities, n, best)
    ensures nonEmpty <= mask ==> (nonEmpty <= ready * mask <==> ready == nonEmpty)
  {
    if nonEmpty <= mask {
      assert ready * mask == ready;
    }
  }

  function QueuesOf(v: seq<Sender>): (q: seq<seq<Message>>)
    ensures |q| == |v| && forall i :: 0 <= i < |q| ==> q[i] == v[i].queue
  {
    seq(|v|, i requires 0 <= i < |v| => v[i].queue)
  }

  ghost predicate Separate(channels: seq<Channel>) {
    forall i, j :: 0 <= i < j < |channels| ==>
      channels[i] != channels[j] && channels[i].queue != channels[j].queue &&
      channels[i].queue.data != channels[j].queue.data
  }

  class Connection {
    const channels: seq<Channel>
    var pendingMask: set<nat>

    constructor (channels: seq<Channel>)
      requires Separate(channels) && |channels| <= MASK_BITS
      requires forall i :: 0 <= i < |channels| ==> channels[i].Valid()
      ensures this.channels == channels && pendingMask == {} && Valid()
      ensures (forall i :: 0 <= i < |channels| ==> Queue(i) == []) ==> Covered()
    {
      this.channels := channels;
      pendingMask := {};
    }

    ghost function Parts(): set<object> {
      set i, o | 0 <= i < |channels| && o in channels[i].Parts() :: o
    }

    lemma PartOf(i: nat)
      requires i < |channels|
      ensures channels[i].Parts() <= Parts()
    {
    }

    ghost predicate Valid()
      reads Parts()
    {
      Separate(channels) && |channels| <= MASK_BITS && forall i :: 0 <= i < |channels| ==> channels[i].Valid()
    }

    ghost function Queue(i: nat): seq<Message>
      requires Valid() && i < |channels|
      reads Parts()
    {
      channels[i].View().queue
    }

    ghost function View(): (v: seq<Sender>)
      requires Valid()
      reads Parts()
      ensures |v| == |channels| && forall i :: 0 <= i < |v| ==> v[i] == channels[i].View()
    {
      seq(|channels|, i requires 0 <= i < |channels| && channels[i].Valid() reads Parts() => channels[i].View())
    }

    ghost function Ready(now: real): set<nat>
      requires Valid()
      reads Parts()
    {
      set i: nat | i < |channels| && channels[i].Pending(now)
    }

    ghost function NonEmpty(): set<nat>
      requires Valid()
      reads Parts()
    {
      set i: nat | i < |channels| && Queue(i) != []
    }

    ghost function Priorities(): (p: seq<nat>)
      ensures |p| == |channels| && forall i :: 0 <= i < |p| ==> p[i] == channels[i].priority
    {
      seq(|channels|, i requires 0 <= i < |channels| => channels[i].priority)
    }

    ghost function Queues(): (q: seq<seq<Message>>)
      requires Valid()
      reads Parts()
      ensures |q| == |channels| && forall i :: 0 <= i < |q| ==> q[i] == Queue(i)
    {
      QueuesOf(View())
    }

    /** Every channel with a queued message has its bit set. */
    ghost predicate Covered()
      requires Valid()
      reads this, Parts()
    {
      NonEmpty() <= pendingMask
    }

    ghost predicate NagleOff() {
      forall i :: 0 <= i < |channels| ==> channels[i].threshold <= 0.0
    }

    /** With the Nagle timer off, a channel may send exactly when it has something to send. */
    lemma ReadyIsNonEmpty(now: real)
      requires Valid()
      ensures Ready(now) <= NonEmpty()
      ensures NagleOff() ==> Ready(now) == NonEmpty()
    {
    }

    lemma WaitingIsNonEmpty()
      requires Valid()
      ensures NonEmpty() == Waiting(View())
    {
    }

    lemma QueuesSendable()
      requires Valid()
      ensures AllQueuesSendable(View())
    {
    }

    /** A connection that the idle fast path skips has no queued message. */
    lemma IdleHasNothingQueued()
      requires Valid() && Covered() && pendingMask == {}
      ensures forall i :: 0 <= i < |channels| ==> Queue(i) == []
    {
      forall i | 0 <= i < |channels| ensures Queue(i) == [] {
        assert i !in NonEmpty();
      }
    }

    /** The full scan over all channels. */
    method NextChannel(now: real) returns (best: int)
      requires Valid()
      ensures IsNext(Ready(now), Priorities(), |channels|, best)
    {
      ghost var ready := Ready(now);
      best := -1;
      var bestPriority := 0;
      for i := 0 to |channels|
        invariant IsNext(ready, Priorities(), i, best)
        invariant best >= 0 ==> bestPriority == channels[best].priority
      {
        NextStep(ready, Priorities(), i, best);
        var pending := channels[i].HasPending(now);
        assert pending <==> i in ready;
        if pending && (best < 0 || channels[i].priority > bestPriority) {
          best, bestPriority := i, channels[i].priority;
        }
      }
      assert Ready(now) == ready;
    }

    /** The fast path: scans the channels in the pending mask and drops the bits of those found idle. */
    method NextChannelFast(now: real) returns (best: int)
      requires Valid()
      modifies this`pendingMask
      ensures Valid() && pendingMask == Ready(now) * old(pendingMask)
      ensures IsNext(Ready(now) * old(pendingMask), Priorities(), |channels|, best)
      ensures old(Covered()) ==> IsNext(Ready(now), Priorities(), |channels|, best)
      ensures old(Covered()) ==> (Covered() <==> Ready(now) == NonEmpty())
      ensures View() == old(View())
    {
      ReadyIsNonEmpty(now);
      var newMask;
      best, newMask := ScanMask(now);
      CoveredMask(Ready(now), NonEmpty(), pendingMask, Priorities(), |channels|, best);
      StoreMask(newMask, now);
    }

    method StoreMask(mask: set<nat>, ghost now: real)
      requires Valid()
      modifies this`pendingMask
      ensures Valid() && pendingMask == mask && View() == old(View())
      ensures Ready(now) == old(Ready(now)) && NonEmpty() == old(NonEmpty())
    {
      pendingMask := mask;
      PartsKept(now);
    }

    /** The queues depend on the channels' own parts and on nothing else. */
    twostate lemma PartsKept(now: real)
      requires old(Valid()) && forall o :: o in Parts() ==> unchanged(o)
      ensures Valid() && View() == old(View())
      ensures Ready(now) == old(Ready(now)) && NonEmpty() == old(NonEmpty())
    {
    }

    method ScanMask(now: real) returns (best: int, newMask: set<nat>)
      requires Valid()
      ensures newMask == Ready(now) * pendingMask
      ensures IsNext(newMask, Priorities(), |channels|, best)
    {
      best, newMask := -1, {};
      if pendingMask == {} {
        return;
      }
      ghost var all := Ready(now);
      ghost var ready := all * pendingMask;
      var bestPriority := 0;
      var i := 0;
      while i < |channels| && i < MASK_BITS
        invariant 0 <= i <= |channels|
        invariant IsNext(ready, Priorities(), i, best)
        invariant best >= 0 ==> bestPriority == channels[best].priority
        invariant forall j: nat :: j in newMask <==> j < i && j in ready
      {
        NextStep(ready, Priorities(), i, best);
        if i in pendingMask {
          var pending := channels[i].HasPending(now);
          assert pending <==> i in all;
          if pending {
            newMask := newMask + {i};
            if best < 0 || channels[i].priority > bestPriority {
              best, bestPriority := i, channels[i].priority;
            }
          }
        }
        i := i + 1;
      }
      assert newMask == ready;
      assert Ready(now) == all;
    }

    /** Queueing for one channel (the send calls of the server). */
    method Send(ch: nat, data: seq<Byte>, flags: Flags, eid: nat, now: real) returns (ok: bool)
      requires Valid() && ch < |channels|
      modifies this`pendingMask, channels[ch], channels[ch].queue, channels[ch].queue.data
      ensures Valid()
      ensures ok <==> Accepts(old(View())[ch], data, flags, eid)
      ensures View() == old(View())[ch := Enqueue(old(View())[ch], data, flags, eid)]
      ensures pendingMask == if ok then old(pendingMask) + {ch} else old(pendingMask)
      ensures old(Covered()) ==> Covered()
      ensures channels[ch].nagleReady == (old(channels[ch].nagleReady) || (ok && (flags.noNagle || flags.noDelay)))
      ensures channels[ch].nagleTime ==
                if ok && old(channels[ch].nagleTime) == 0.0 then now else old(channels[ch].nagleTime)
    {
      ok := PutInto(ch, data, flags, eid, now);
      if ok {
        StoreMask(pendingMask + {ch}, now);
      }
      assert NonEmpty() <= old(NonEmpty()) + (if ok then {ch} else {});
    }

    method PutInto(ch: nat, data: seq<Byte>, flags: Flags, eid: nat, now: real) returns (ok: bool)
      requires Valid() && ch < |channels|
      modifies channels[ch], channels[ch].queue, channels[ch].queue.data
      ensures Valid() && (ok <==> Accepts(old(View())[ch], data, flags, eid))
      ensures View() == old(View())[ch := Enqueue(old(View())[ch], data, flags, eid)]
      ensures channels[ch].nagleReady == (old(channels[ch].nagleReady) || (ok && (flags.noNagle || flags.noDelay)))
      ensures channels[ch].nagleTime ==
                if ok && old(channels[ch].nagleTime) == 0.0 then now else old(channels[ch].nagleTime)
    {
      ok := channels[ch].QueueSend(data, flags, eid);
      if ok && channels[ch].nagleTime == 0.0 {
        channels[ch].nagleTime := now;
      }
      OneChannel(ch);
    }

    /** A change to one channel's own parts changes that entry of the view and no other. */
    twostate lemma OneChannel(ch: nat)
      requires old(Valid()) && ch < |channels| && channels[ch].Valid()
      requires forall i :: 0 <= i < |channels| && i != ch ==>
                 unchanged(channels[i]) && unchanged(channels[i].queue) && unchanged(channels[i].queue.data)
      ensures Valid() && View() == old(View())[ch := channels[ch].View()]
    {
      forall i | 0 <= i < |channels| && i != ch
        ensures channels[i].Valid() && channels[i].View() == old(channels[i].View())
      {
        assert old(channels[i].Valid());
      }
    }

    /** Takes the oldest message of a channel, if there is one. */
    method Dequeue(ch: nat) returns (m: Message, ok: bool)
      requires Valid() && ch < |channels|
      modifies channels[ch], channels[ch].queue, channels[ch].queue.data
      ensures Valid() && (ok <==> old(View())[ch].queue != [])
      ensures ok ==> m == old(View())[ch].queue[0]
      ensures View() == old(View())[ch := Tail(old(View())[ch])]
      ensures old(Covered()) ==> Covered()
    {
      m, ok := channels[ch].DequeueSend();
      OneChannel(ch);
      assert NonEmpty() <= old(NonEmpty());
    }
  }

  function Tail(s: Sender): Sender {
    if s.queue == [] then s else s.(queue := s.queue[1..])
  }

  /** While every waiting channel is in the mask, the fast path chooses as the full scan does. */
  lemma FastEqualsFull(ready: set<nat>, nonEmpty: set<nat>, mask: set<nat>, priorities: seq<nat>, n: nat, fast: int,
                       full: int)
    requires n <= |priorities| && ready <= nonEmpty <= mask
    requires IsNext(ready * mask, priorities, n, fast) && IsNext(ready, priorities, n, full)
    ensures fast == full
  {
    assert ready * mask == ready;
    NextUnique(ready, priorities, n, fast, full);
  }

  /** With the Nagle timer on the two can differ: a channel looked at too early loses its bit,
      and the fast path does not come back to it. */
  method WaitingChannelIsLost() returns (fast: int, full: int)
    ensures fast == -1 && full == 0
  {
    var conn := WaitingConnection();
    fast := conn.NextChannelFast(1.5);
    assert 0 !in conn.Ready(1.5);
    fast := conn.NextChannelFast(3.0);
    assert conn.channels[0].Pending(3.0);
    full := conn.NextChannel(3.0);
    assert 0 in conn.Ready(3.0);
  }

  /** One channel with a one-second timer and a message queued at time 1. */
  method WaitingConnection() returns (conn: Connection)
    ensures fresh(conn) && conn.Valid() && |conn.channels| == 1 && conn.Queue(0) != []
    ensures conn.channels[0].threshold == 1.0 && conn.channels[0].nagleTime == 1.0 && !conn.channels[0].nagleReady
  {
    var c := new Channel(0, false, 1.0);
    conn := new Connection([c]);
    var ok := conn.Send(0, [7], Flags(false, false, false), 0, 1.0);
    assert conn.Queue(0) == conn.View()[0].queue;
  }

  // ---------------------------------------------------------------- runs

  /** A send call, or one round of the send loop. */
  datatype Op = OpSend(ch: nat, data: seq<Byte>, flags: Flags, eid: nat, time: real) | OpTake(now: real)

  datatype Answer = Queued(ok: bool) | Idle | Took(channel: nat, message: Message)

  ghost predicate AllQueuesSendable(v: seq<Sender>) {
    forall i :: 0 <= i < |v| ==> AllSendable(v[i].queue)
  }

  function Waiting(v: seq<Sender>): set<nat> {
    set i: nat | i < |v| && v[i].queue != []
  }

  /** The full scan over the first `n` channels. */
  function Best(v: seq<Sender>, priorities: seq<nat>, n: nat): (r: int)
    requires n <= |v| == |priorities|
    ensures IsNext(Waiting(v), priorities, n, r)
  {
    if n == 0 then -1 else
      var r := Best(v, priorities, n - 1);
      NextStep(Waiting(v), priorities, n - 1, r);
      if v[n - 1].queue != [] && (r < 0 || priorities[n - 1] > priorities[r]) then n - 1 else r
  }

  /** The connection without a mask: every round scans all channels. */
  function PlainStep(v: seq<Sender>, priorities: seq<nat>, op: Op): (r: (seq<Sender>, Answer))
    requires |v| == |priorities|
    ensures |r.0| == |v|
  {
    match op
    case OpSend(ch, data, flags, eid, _) =>
      if ch >= |v| then (v, Queued(false))
      else (v[ch := Enqueue(v[ch], data, flags, eid)], Queued(Accepts(v[ch], data, flags, eid)))
    case OpTake(_) =>
      var ch := Best(v, priorities, |v|);
      if ch < 0 then (v, Idle) else (v[ch := Tail(v[ch])], Took(ch, v[ch].queue[0]))
  }

  function PlainRun(priorities: seq<nat>, ops: seq<Op>): (r: (seq<Sender>, seq<Answer>))
    ensures |r.0| == |priorities|
  {
    if ops == [] then (seq(|priorities|, _ => Sender([], 0)), []) else
      var (v, answers) := PlainRun(priorities, ops[..|ops| - 1]);
      var (u, answer) := PlainStep(v, priorities, ops[|ops| - 1]);
      (u, answers + [answer])
  }

  method NewChannels(priorities: seq<nat>) returns (channels: seq<Channel>)
    ensures |channels| == |priorities| && Separate(channels)
    ensures forall i :: 0 <= i < |channels| ==> IsNew(channels[i], priorities[i])
    ensures forall i :: 0 <= i < |channels| ==> fresh(channels[i].Parts())
  {
    channels := [];
    for k := 0 to |priorities|
      invariant |channels| == k && Separate(channels)
      invariant forall i :: 0 <= i < k ==> IsNew(channels[i], priorities[i])
      invariant forall i :: 0 <= i < k ==> fresh(channels[i].Parts())
    {
      var c := new Channel(priorities[k], false, 0.0);
      channels := channels + [c];
    }
  }

  /** A channel with nothing queued and its Nagle timer off. */
  ghost predicate IsNew(c: Channel, priority: nat)
    reads c, c.queue, c.queue.data
  {
    c.Valid() && c.priority == priority && c.threshold == 0.0 && c.View() == Sender([], 0)
  }

  /**
   * With the Nagle timer off, every history of send calls and send-loop rounds, in which a connection with an
   * empty mask is skipped and the others are scheduled by the fast path, is answered as by full scans.
   */
  method RunHistory(priorities: seq<nat>, ops: seq<Op>) returns (answers: seq<Answer>)
    requires |priorities| <= MASK_BITS
    ensures answers == PlainRun(priorities, ops).1
  {
    var channels := NewChannels(priorities);
    var conn := new Connection(channels);
    answers := [];
    assert conn.Priorities() == priorities;
    assert conn.View() == PlainRun(priorities, []).0;
    for k := 0 to |ops|
      invariant conn.Valid() && conn.Covered() && conn.NagleOff() && conn.channels == channels
      invariant fresh(conn) && fresh(conn.Parts())
      invariant (conn.View(), answers) == PlainRun(priorities, ops[..k])
    {
      assert ops[..k + 1][..k] == ops[..k];
      var answer := Round(conn, priorities, ops[k]);
      answers := answers + [answer];
    }
    assert ops[..|ops|] == ops;
  }

  method Round(conn: Connection, priorities: seq<nat>, op: Op) returns (answer: Answer)
    requires conn.Valid() && conn.Covered() && conn.NagleOff() && conn.Priorities() == priorities
    modifies conn, conn.Parts()
    ensures conn.Valid() && conn.Covered() && (conn.View(), answer) == PlainStep(old(conn.View()), priorities, op)
  {
    match op
    case OpSend(ch, data, flags, eid, time) =>
      if ch >= |conn.channels| {
        return Queued(false);
      }
      conn.PartOf(ch);
      var ok := conn.Send(ch, data, flags, eid, time);
      return Queued(ok);
    case OpTake(now) =>
      answer := TakeNext(conn, now);
  }

  /** One round of the send loop. */
  method TakeNext(conn: Connection, now: real) returns (answer: Answer)
    requires conn.Valid() && conn.Covered() && conn.NagleOff()
    modifies conn, conn.Parts()
    ensures conn.Valid() && conn.Covered()
    ensures (conn.View(), answer) == PlainStep(old(conn.View()), conn.Priorities(), OpTake(now))
  {
    var ch := Choose(conn, now);
    if ch < 0 {
      return Idle;
    }
    conn.PartOf(ch);
    var m, ok := conn.Dequeue(ch);
    return Took(ch, m);
  }

  /** The idle fast path, and the masked scan otherwise. */
  method Choose(conn: Connection, now: real) returns (ch: int)
    requires conn.Valid() && conn.Covered() && conn.NagleOff()
    modifies conn`pendingMask
    ensures conn.Valid() && conn.Covered() && conn.View() == old(conn.View())
    ensures ch == Best(conn.View(), conn.Priorities(), |conn.channels|)
  {
    if conn.pendingMask == {} {
      conn.WaitingIsNonEmpty();
      BestIs(conn.View(), conn.Priorities(), -1);
      return -1;
    }
    ch := conn.NextChannelFast(now);
    conn.ReadyIsNonEmpty(now);
    conn.WaitingIsNonEmpty();
    BestIs(conn.View(), conn.Priorities(), ch);
  }

  lemma BestIs(v: seq<Sender>, priorities: seq<nat>, ch: int)
    requires |v| == |priorities| && IsNext(Waiting(v), priorities, |v|, ch)
    ensures ch == Best(v, priorities, |v|)
  {
    NextUnique(Waiting(v), priorities, |v|, Best(v, priorities, |v|), ch);
  }
}
