/**
 * Channels (src/channel/channel.h): the send queue with latest-wins state overwrite,
 * the Nagle readiness test, and the priority scheduler with its pending-mask fast path.
 */
module Channels {
  import opened Bytes
  import opened RingBuffers
  import opened Sequences

  const MTU: nat := 1200
  const QUEUE_CAPACITY: nat := 256

  /** The bits of the flags word that the channel looks at. */
  datatype Flags = Flags(noNagle: bool, noDelay: bool, state: bool)

  datatype Message = Message(data: seq<Byte>, sequence: nat, entityId: nat, flags: Flags)

  const NO_MESSAGE := Message([], 0, 0, Flags(false, false, false))

  // ---------------------------------------------------------------- the queue as a value

  /** What the size check and the 16-bit counter guarantee of every queued message. */
  predicate Sendable(m: Message) {
    0 < |m.data| <= MTU && m.sequence < SEQUENCES
  }

  ghost predicate AllSendable(q: seq<Message>) {
    forall i :: 0 <= i < |q| ==> Sendable(q[i])
  }

  predicate IsStateFor(m: Message, eid: nat) {
    m.entityId == eid && m.flags.state
  }

  /** Position of the last pending state entry of an entity, or -1. */
  function LastState(q: seq<Message>, eid: nat): (i: int)
    ensures -1 <= i < |q|
    ensures i >= 0 ==> IsStateFor(q[i], eid)
    ensures forall j :: i < j < |q| ==> !IsStateFor(q[j], eid)
  {
    if q == [] then -1
    else if IsStateFor(q[|q| - 1], eid) then |q| - 1
    else LastState(q[..|q| - 1], eid)
  }

  datatype Sender = Sender(queue: seq<Message>, sendSeq: nat)

  function Overwrites(s: Sender, flags: Flags, eid: nat): int {
    if flags.state && eid != 0 then LastState(s.queue, eid) else -1
  }

  predicate Accepts(s: Sender, data: seq<Byte>, flags: Flags, eid: nat) {
    0 < |data| <= MTU && (Overwrites(s, flags, eid) >= 0 || |s.queue| < QUEUE_CAPACITY)
  }

  /** Queueing a message, or overwriting the pending update of the same entity. */
  function Enqueue(s: Sender, data: seq<Byte>, flags: Flags, eid: nat): Sender {
    var i := Overwrites(s, flags, eid);
    if !Accepts(s, data, flags, eid) then s
    else if i >= 0 then s.(queue := s.queue[i := s.queue[i].(data := data, flags := flags)])
    else Sender(s.queue + [Message(data, s.sendSeq, eid, flags)], (s.sendSeq + 1) % SEQUENCES)
  }

  // ---------------------------------------------------------------- the channel object

  class Channel {
    const priority: nat
    const reliable: bool
    /** Nagle threshold in seconds; zero switches the timer off. */
    const threshold: real
    const queue: FixedRingBuffer<Message>
    var sendSeq: nat
    var nagleTime: real
    var nagleReady: bool

    ghost function Parts(): set<object> {
      {this, queue, queue.data}
    }

    ghost predicate Valid()
      reads Parts()
    {
      queue.Valid() && queue.data.Length == QUEUE_CAPACITY && sendSeq < SEQUENCES && AllSendable(queue.Contents())
    }

    ghost function View(): Sender
      requires Valid()
      reads Parts()
    {
      Sender(queue.Contents(), sendSeq)
    }

    constructor (priority: nat, reliable: bool, threshold: real)
      ensures Valid() && View() == Sender([], 0) && fresh(queue) && fresh(queue.data)
      ensures this.priority == priority && this.reliable == reliable && this.threshold == threshold
      ensures !nagleReady && nagleTime == 0.0
    {
      this.priority, this.reliable, this.threshold := priority, reliable, threshold;
      queue := new FixedRingBuffer(QUEUE_CAPACITY, NO_MESSAGE);
      sendSeq, nagleTime, nagleReady := 0, 0.0, false;
    }

    method QueueSend(data: seq<Byte>, flags: Flags, eid: nat) returns (ok: bool)
      requires Valid()
      modifies this`sendSeq, this`nagleReady, queue, queue.data
      ensures Valid() && View() == Enqueue(old(View()), data, flags, eid)
      ensures ok <==> Accepts(old(View()), data, flags, eid)
      ensures nagleReady == (old(nagleReady) || (ok && (flags.noNagle || flags.noDelay)))
    {
      if |data| <= 0 || |data| > MTU {
        return false;
      }
      var i := FindPending(flags, eid);
      if i >= 0 {
        Overwrite(i, data, flags);
        return true;
      }
      if queue.size == QUEUE_CAPACITY {
        return false;
      }
      Append(data, flags, eid);
      return true;
    }

    /** The entry a state update replaces, or -1. */
    method FindPending(flags: Flags, eid: nat) returns (i: int)
      requires Valid()
      ensures i == Overwrites(View(), flags, eid)
    {
      i := -1;
      if flags.state && eid != 0 {
        i := FindState(eid);
      }
    }

    method Overwrite(i: nat, data: seq<Byte>, flags: Flags)
      requires Valid() && i < queue.size && 0 < |data| <= MTU
      modifies this`nagleReady, queue.data
      ensures Valid() && nagleReady == (old(nagleReady) || flags.noNagle || flags.noDelay)
      ensures var q := old(View()).queue;
              View() == old(View()).(queue := q[i := q[i].(data := data, flags := flags)])
    {
      var existing := queue.Get(i);
      queue.Set(i, existing.(data := data, flags := flags));
      if flags.noNagle || flags.noDelay {
        nagleReady := true;
      }
    }

    method Append(data: seq<Byte>, flags: Flags, eid: nat)
      requires Valid() && queue.size < QUEUE_CAPACITY && 0 < |data| <= MTU
      modifies this`sendSeq, this`nagleReady, queue, queue.data
      ensures Valid() && nagleReady == (old(nagleReady) || flags.noNagle || flags.noDelay)
      ensures View() == Sender(old(View()).queue + [Message(data, old(sendSeq), eid, flags)],
                               (old(sendSeq) + 1) % SEQUENCES)
    {
      var m := Message(data, sendSeq, eid, flags);
      sendSeq := (sendSeq + 1) % SEQUENCES;
      if flags.noNagle || flags.noDelay {
        nagleReady := true;
      }
      var ok := queue.PushBack(m);
    }

    /** The scan for a pending update of the same entity, newest first. */
    method FindState(eid: nat) returns (i: int)
      requires Valid()
      ensures i == LastState(queue.Contents(), eid)
    {
      ghost var q := queue.Contents();
      i := queue.size - 1;
      while i >= 0
        invariant -1 <= i < |q|
        invariant forall j :: i < j < |q| ==> !IsStateFor(q[j], eid)
      {
        var existing := queue.Get(i);
        if existing.entityId == eid && existing.flags.state {
          LastStateIs(q, eid, i);
          return i;
        }
        i := i - 1;
      }
      LastStateIs(q, eid, -1);
    }

    /** Whether a message may be sent now. */
    method HasPending(now: real) returns (r: bool)
      requires Valid()
      ensures r == Pending(now)
      ensures r <==> View().queue != [] && (nagleReady || threshold <= 0.0 || now - nagleTime >= threshold)
    {
      if queue.size == 0 {
        return false;
      }
      if nagleReady {
        return true;
      }
      if threshold <= 0.0 {
        return true;
      }
      return now - nagleTime >= threshold;
    }

    ghost predicate Pending(now: real)
      requires Valid()
      reads Parts()
    {
      queue.Contents() != [] && (nagleReady || threshold <= 0.0 || now - nagleTime >= threshold)
    }

    method DequeueSend() returns (m: Message, ok: bool)
      requires Valid()
      modifies this`nagleTime, this`nagleReady, queue, queue.data
      ensures Valid() && (ok <==> old(View()).queue != [])
      ensures ok ==> m == old(View()).queue[0] && View() == old(View()).(queue := old(View()).queue[1..])
      ensures ok ==> !nagleReady && nagleTime == 0.0
      ensures !ok ==> View() == old(View()) && nagleReady == old(nagleReady) && nagleTime == old(nagleTime)
    {
      m, ok := queue.PopFront();
      if ok {
        nagleReady := false;
        nagleTime := 0.0;
      }
    }
  }

  lemma {:induction false} LastStateIs(q: seq<Message>, eid: nat, i: int)
    requires -1 <= i < |q| && (i >= 0 ==> IsStateFor(q[i], eid))
    requires forall j :: i < j < |q| ==> !IsStateFor(q[j], eid)
    ensures LastState(q, eid) == i
  {
  }
}
