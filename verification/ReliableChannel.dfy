/**
 * The receiving half of a reliable ordered channel (src/reliability/reliable_channel.h):
 * 16-bit sequence numbers, a 64-slot buffer, in-order delivery.  The unbounded reference
 * numbers messages 0, 1, 2, ... and the channel is shown to hand out exactly the first
 * `recv` messages sent, whatever the network loses, repeats or reorders.
 */
module ReliableChannel {
  import opened Arith
  import opened Bytes
  import opened Collections
  import opened Sequences

  const SLOTS: nat := 64
  const MAX_LENGTH: nat := 1200

  datatype Received = Received(sequence: nat, data: seq<Byte>, valid: bool)

  /** A message handed to the delivery callback. */
  datatype Delivery = Delivery(data: seq<Byte>, sequence: nat)

  function Truncate(data: seq<Byte>): seq<Byte> {
    if |data| <= MAX_LENGTH then data else data[..MAX_LENGTH]
  }

  // ---------------------------------------------------------------- receiver as a value

  datatype Receiver = Receiver(recvSeq: nat, buffer: seq<Received>)

  ghost predicate Shaped(r: Receiver) {
    r.recvSeq < SEQUENCES && |r.buffer| == SLOTS
  }

  predicate InWindow(recvSeq: nat, sequence: nat) {
    0 <= Int16(sequence - recvSeq) < SLOTS
  }

  predicate Holds(r: Receiver, sequence: nat)
    requires Shaped(r)
  {
    var slot := r.buffer[sequence % SLOTS];
    slot.valid && slot.sequence == sequence
  }

  /** Buffers a message; the flag says whether it was new. */
  function Buffer(r: Receiver, sequence: nat, data: seq<Byte>): (Receiver, bool)
    requires Shaped(r)
  {
    if !InWindow(r.recvSeq, sequence) || Holds(r, sequence) then (r, false) else
      (r.(buffer := r.buffer[sequence % SLOTS := Received(sequence, Truncate(data), true)]), true)
  }

  function ValidWeight(): (nat, Received) -> nat {
    (i: nat, m: Received) => if m.valid then 1 else 0
  }

  function Pop(r: Receiver): (q: Receiver)
    requires Shaped(r) && Holds(r, r.recvSeq)
    ensures Shaped(q) && Sum(q.buffer, ValidWeight()) < Sum(r.buffer, ValidWeight())
  {
    var i := r.recvSeq % SLOTS;
    SumUpdate(r.buffer, ValidWeight(), i, r.buffer[i].(valid := false));
    Receiver((r.recvSeq + 1) % SEQUENCES, r.buffer[i := r.buffer[i].(valid := false)])
  }

  /** Delivers the contiguous run that starts at the next expected number. */
  function Deliver(r: Receiver): (d: (Receiver, seq<Delivery>))
    requires Shaped(r)
    ensures Shaped(d.0)
    decreases Sum(r.buffer, ValidWeight())
  {
    if !Holds(r, r.recvSeq) then (r, []) else
      var (q, log) := Deliver(Pop(r));
      (q, [Delivery(r.buffer[r.recvSeq % SLOTS].data, r.recvSeq)] + log)
  }

  /** One reliable frame: buffer it and, if new, deliver what has become contiguous. */
  function Arrive(r: Receiver, sequence: nat, data: seq<Byte>): (Receiver, seq<Delivery>)
    requires Shaped(r)
  {
    var (q, isNew) := Buffer(r, sequence, data);
    if isNew then Deliver(q) else (q, [])
  }

  // ---------------------------------------------------------------- the channel object

  class ReliableChannelState {
    var recvSeq: nat
    const recvBuffer: array<Received>

    ghost predicate Valid()
      reads this, recvBuffer
    {
      recvBuffer.Length == SLOTS && recvSeq < SEQUENCES
    }

    ghost function View(): (r: Receiver)
      requires Valid()
      reads this, recvBuffer
      ensures Shaped(r)
    {
      Receiver(recvSeq, recvBuffer[..])
    }

    constructor ()
      ensures Valid() && fresh(recvBuffer) && View() == Initial()
    {
      recvSeq := 0;
      recvBuffer := new Received[SLOTS](_ => Received(0, [], false));
      new;
      assert recvBuffer[..] == Initial().buffer;
    }

    method BufferReceivedOrdered(sequence: nat, data: seq<Byte>) returns (isNew: bool)
      requires Valid() && sequence < SEQUENCES
      modifies recvBuffer
      ensures Valid() && (View(), isNew) == Buffer(old(View()), sequence, data)
    {
      var diff := Int16(sequence - recvSeq);
      if diff < 0 {
        return false;
      }
      if diff >= SLOTS {
        return false;
      }
      var idx := sequence % SLOTS;
      if recvBuffer[idx].valid && recvBuffer[idx].sequence == sequence {
        return false;
      }
      recvBuffer[idx] := Received(sequence, Truncate(data), true);
      return true;
    }

    method DeliverOrdered() returns (delivered: seq<Delivery>)
      requires Valid()
      modifies this`recvSeq, recvBuffer
      ensures Valid() && (View(), delivered) == Deliver(old(View()))
    {
      delivered := [];
      ghost var all := Deliver(View());
      assert [] + all.1 == all.1;
      while true
        invariant Valid()
        invariant all == (Deliver(View()).0, delivered + Deliver(View()).1)
        decreases Sum(recvBuffer[..], ValidWeight())
      {
        ghost var r := View();
        var idx := recvSeq % SLOTS;
        if !recvBuffer[idx].valid || recvBuffer[idx].sequence != recvSeq {
          assert delivered + [] == delivered;
          break;
        }
        var next := Delivery(recvBuffer[idx].data, recvSeq);
        assert Deliver(r) == (Deliver(Pop(r)).0, [next] + Deliver(Pop(r)).1);
        assert delivered + ([next] + Deliver(Pop(r)).1) == (delivered + [next]) + Deliver(Pop(r)).1;
        delivered := delivered + [next];
        recvBuffer[idx] := recvBuffer[idx].(valid := false);
        recvSeq := (recvSeq + 1) % SEQUENCES;
        assert View() == Pop(r);
      }
    }
  }

  function Initial(): Receiver {
    Receiver(0, seq(SLOTS, _ => Received(0, [], false)))
  }

  // ---------------------------------------------------------------- unbounded message numbers

  /** The only message number in the window [recv, recv + 64) that uses slot `i`. */
  function NumberAt(i: nat, recv: nat): nat {
    recv + (i - recv) % SLOTS
  }

  lemma NumberAtUnique(u: nat, recv: nat)
    requires recv <= u < recv + SLOTS
    ensures NumberAt(u % SLOTS, recv) == u && (u % SEQUENCES) % SLOTS == u % SLOTS
  {
    SlotNumber(u);
    DivModUnique(u % SLOTS - recv, SLOTS, -(u / SLOTS), u - recv);
  }

  /** 64 divides 65536, so a sequence number and its message number use the same slot. */
  lemma SlotNumber(u: nat)
    ensures (u % SEQUENCES) % SLOTS == u % SLOTS
  {
    DivModUnique(u, SLOTS, u / SEQUENCES * 1024 + u % SEQUENCES / SLOTS, u % SEQUENCES % SLOTS);
  }

  lemma NumberAtOnly(u: nat, recv: nat, i: nat)
    requires recv <= u < recv + SLOTS && i < SLOTS
    ensures NumberAt(i, recv) == u <==> i == u % SLOTS
  {
    NumberAtUnique(u, recv);
    SlotAtNumber(i, recv);
  }

  lemma SlotAtNumber(i: nat, recv: nat)
    requires i < SLOTS
    ensures recv <= NumberAt(i, recv) < recv + SLOTS && NumberAt(i, recv) % SLOTS == i
  {
    DivModUnique(NumberAt(i, recv), SLOTS, -((i - recv) / SLOTS), i);
  }

  /** The 16-bit test looks at the distance of the unbounded numbers mod 2^16. */
  lemma WindowIff(u: nat, recv: nat)
    ensures InWindow(recv % SEQUENCES, u % SEQUENCES) <==> (u - recv) % SEQUENCES < SLOTS
    ensures recv <= u < recv + SLOTS ==> (u - recv) % SEQUENCES == u - recv
  {
    var d := (u - recv) % SEQUENCES;
    DivModUnique(u % SEQUENCES - recv % SEQUENCES, SEQUENCES,
                 (u - recv) / SEQUENCES - u / SEQUENCES + recv / SEQUENCES, d);
  }

  /** Every number less than a cycle ahead and not a whole cycle behind is in time. */
  lemma NearIsInTime(u: nat, recv: nat)
    requires recv - 65472 <= u < recv + 65536
    ensures Unambiguous(u, recv)
  {
    if u < recv {
      DivModUnique(u - recv, SEQUENCES, -1, u - recv + SEQUENCES);
    } else {
      DivModUnique(u - recv, SEQUENCES, 0, u - recv);
    }
  }

  /** Message `u` is in the window, or no frame with its 16-bit number is. */
  predicate Unambiguous(u: nat, recv: nat) {
    recv <= u < recv + 64 || (u - recv) % 65536 >= 64
  }

  /** The window test answers for the message number itself exactly when no other number of its
      cycle is in the window: a caller can tell from the distance alone. */
  lemma WindowExactIff(u: nat, recv: nat)
    ensures (InWindow(recv % SEQUENCES, u % SEQUENCES) <==> recv <= u < recv + SLOTS)
            <==> Unambiguous(u, recv)
  {
    WindowIff(u, recv);
  }

  /** A slot that is valid exactly when message `u` is held, and then holds it. */
  ghost predicate SlotTracks(slot: Received, u: nat, sent: seq<seq<Byte>>, held: set<nat>) {
    (slot.valid <==> u in held) &&
    (slot.valid ==> u < |sent| && slot == Received(u % SEQUENCES, Truncate(sent[u]), true))
  }

  /** The receiver expects message `recv` and has buffered exactly the messages `held`. */
  ghost predicate Tracks(r: Receiver, sent: seq<seq<Byte>>, recv: nat, held: set<nat>) {
    |r.buffer| == SLOTS && r.recvSeq == recv % SEQUENCES &&
    (forall u :: u in held ==> recv <= u < recv + SLOTS && u < |sent|) &&
    forall i :: 0 <= i < SLOTS ==> SlotTracks(r.buffer[i], NumberAt(i, recv), sent, held)
  }

  lemma HoldsIff(r: Receiver, sent: seq<seq<Byte>>, recv: nat, held: set<nat>, u: nat)
    requires Tracks(r, sent, recv, held) && recv <= u < recv + SLOTS
    ensures Holds(r, u % SEQUENCES) <==> u in held
    ensures u in held ==> r.buffer[(u % SEQUENCES) % SLOTS].data == Truncate(sent[u])
  {
    NumberAtUnique(u, recv);
  }

  lemma BufferTracks(r: Receiver, sent: seq<seq<Byte>>, recv: nat, held: set<nat>, u: nat)
    requires Tracks(r, sent, recv, held) && u < |sent| && Unambiguous(u, recv)
    ensures var (q, isNew) := Buffer(r, u % SEQUENCES, sent[u]);
            (isNew <==> recv <= u < recv + SLOTS && u !in held) &&
            Tracks(q, sent, recv, if isNew then held + {u} else held)
  {
    WindowIff(u, recv);
    if recv <= u < recv + SLOTS {
      HoldsIff(r, sent, recv, held, u);
      NumberAtUnique(u, recv);
      var (q, isNew) := Buffer(r, u % SEQUENCES, sent[u]);
      if isNew {
        forall i | 0 <= i < SLOTS ensures SlotTracks(q.buffer[i], NumberAt(i, recv), sent, held + {u}) {
          NumberAtOnly(u, recv, i);
          assert SlotTracks(r.buffer[i], NumberAt(i, recv), sent, held);
        }
      }
    }
  }

  /** The message of the window that a 16-bit number is taken for. */
  function TakenFor(u: nat, recv: nat): nat {
    recv + (u - recv) % SEQUENCES
  }

  lemma TakenForAlias(u: nat, recv: nat)
    ensures TakenFor(u, recv) % SEQUENCES == u % SEQUENCES
  {
    var v := TakenFor(u, recv);
    DivModUnique(v, SEQUENCES, u / SEQUENCES - (u - recv) / SEQUENCES, u % SEQUENCES);
  }

  /** Otherwise the channel is wrong: a frame of a message some whole cycles away is taken for another one of the
      window, and stored as that one if and only if that one is not held yet. */
  lemma StaleFrameTaken(r: Receiver, sent: seq<seq<Byte>>, recv: nat, held: set<nat>, u: nat, data: seq<Byte>)
    requires Tracks(r, sent, recv, held) && !Unambiguous(u, recv)
    ensures var v := TakenFor(u, recv);
            v != u && recv <= v < recv + SLOTS && (Buffer(r, u % SEQUENCES, data).1 <==> v !in held) &&
            (v !in held ==> Buffer(r, u % SEQUENCES, data) == Buffer(r, v % SEQUENCES, data))
  {
    TakenForAlias(u, recv);
    WindowIff(u, recv);
    HoldsIff(r, sent, recv, held, TakenFor(u, recv));
  }

  /** Moving the window on by one renames only the slot of the first number. */
  lemma NumberAtNext(i: nat, recv: nat)
    requires i < SLOTS
    ensures NumberAt(i, recv + 1) == if i == recv % SLOTS then recv + SLOTS else NumberAt(i, recv)
    ensures NumberAt(i, recv) == recv <==> i == recv % SLOTS
  {
    SlotAtNumber(i, recv);
    NumberAtOnly(recv, recv, i);
    var u := if i == recv % SLOTS then recv + SLOTS else NumberAt(i, recv);
    DivModUnique(u, SLOTS, u / SLOTS, u % SLOTS);
    DivModUnique(recv + SLOTS, SLOTS, recv / SLOTS + 1, recv % SLOTS);
    NumberAtUnique(u, recv + 1);
  }

  lemma PopTracks(r: Receiver, sent: seq<seq<Byte>>, recv: nat, held: set<nat>)
    requires Tracks(r, sent, recv, held) && recv in held && Holds(r, r.recvSeq)
    ensures Tracks(Pop(r), sent, recv + 1, held - {recv})
  {
    var q := Pop(r);
    NumberAtUnique(recv, recv);
    forall i | 0 <= i < SLOTS ensures SlotTracks(q.buffer[i], NumberAt(i, recv + 1), sent, held - {recv}) {
      NumberAtNext(i, recv);
      assert SlotTracks(r.buffer[i], NumberAt(i, recv), sent, held);
    }
  }

  /** The messages numbered from `from` to just below `end`, as the callback sees them. */
  function Log(sent: seq<seq<Byte>>, from: nat, end: nat): (log: seq<Delivery>)
    requires from <= end <= |sent|
    ensures |log| == end - from
    decreases end - from
  {
    if from == end then [] else [Delivery(Truncate(sent[from]), from % SEQUENCES)] + Log(sent, from + 1, end)
  }

  /** The held messages numbered `next` or more. */
  function From(held: set<nat>, next: nat): set<nat> {
    set u | u in held && next <= u
  }

  /** Delivery hands out the longest contiguous run of held messages and nothing else. */
  lemma {:induction false} DeliverTracks(r: Receiver, sent: seq<seq<Byte>>, recv: nat, held: set<nat>)
    returns (next: nat)
    requires Tracks(r, sent, recv, held) && recv <= |sent|
    ensures recv <= next <= |sent| && next !in held
    ensures forall u :: recv <= u < next ==> u in held
    ensures Tracks(Deliver(r).0, sent, next, From(held, next))
    ensures Deliver(r).1 == Log(sent, recv, next)
    decreases Sum(r.buffer, ValidWeight())
  {
    HoldsIff(r, sent, recv, held, recv);
    if recv in held {
      PopTracks(r, sent, recv, held);
      next := DeliverTracks(Pop(r), sent, recv + 1, held - {recv});
      forall u | recv <= u < next ensures u in held {
        assert u == recv || u in held - {recv};
      }
      assert From(held - {recv}, next) == From(held, next);
    } else {
      next := recv;
      assert From(held, recv) == held;
    }
  }

  // ---------------------------------------------------------------- runs over any network

  /** The channel after the frames of these message numbers have arrived, in this order. */
  function Run(sent: seq<seq<Byte>>, arrivals: seq<nat>): (r: (Receiver, seq<Delivery>))
    requires forall i :: 0 <= i < |arrivals| ==> arrivals[i] < |sent|
    ensures Shaped(r.0)
  {
    if arrivals == [] then (Initial(), []) else
      var last := |arrivals| - 1;
      var (r, log) := Run(sent, arrivals[..last]);
      var (q, more) := Arrive(r, arrivals[last] % SEQUENCES, sent[arrivals[last]]);
      (q, log + more)
  }

  /** Frame `i` arrives when its number cannot be taken for another one of the window. */
  ghost predicate OnTime(sent: seq<seq<Byte>>, arrivals: seq<nat>, i: nat)
    requires i < |arrivals| && forall i :: 0 <= i < |arrivals| ==> arrivals[i] < |sent|
  {
    Unambiguous(arrivals[i], |Run(sent, arrivals[..i]).1|)
  }

  /** Frame `i` arrives when the receiver's window has reached it. */
  ghost predicate Reached(sent: seq<seq<Byte>>, arrivals: seq<nat>, i: nat)
    requires i < |arrivals| && forall i :: 0 <= i < |arrivals| ==> arrivals[i] < |sent|
  {
    arrivals[i] < |Run(sent, arrivals[..i]).1| + 64
  }

  ghost predicate InTime(sent: seq<seq<Byte>>, arrivals: seq<nat>) {
    (forall i :: 0 <= i < |arrivals| ==> arrivals[i] < |sent|) &&
    forall i: nat {:trigger OnTime(sent, arrivals, i)} :: i < |arrivals| ==> OnTime(sent, arrivals, i)
  }

  /** The state after a run: the first messages are out, `held` are buffered, all of them arrived. */
  ghost predicate Delivered(sent: seq<seq<Byte>>, arrivals: seq<nat>, r: Receiver, log: seq<Delivery>, held: set<nat>) {
    |log| <= |sent| && log == Log(sent, 0, |log|) && Tracks(r, sent, |log|, held) && |log| !in held &&
    forall u: nat :: u < |log| || u in held ==> u in arrivals
  }

  /** No frame that arrived in reach of the window is lost: its message is out or held. */
  ghost predicate Kept(sent: seq<seq<Byte>>, arrivals: seq<nat>, out: nat, held: set<nat>)
    requires forall i :: 0 <= i < |arrivals| ==> arrivals[i] < |sent|
  {
    forall i: nat {:trigger Reached(sent, arrivals, i)} ::
      i < |arrivals| && Reached(sent, arrivals, i) ==> arrivals[i] < out || arrivals[i] in held
  }

  /** Entry `u` of the callback's log is message `u`: whole up to 1200 bytes, and else its first 1200 bytes. */
  ghost predicate IsMessage(d: Delivery, message: seq<Byte>, u: nat) {
    d.sequence == u % 65536 &&
    if |message| <= 1200 then d.data == message else d.data == message[..1200]
  }

  lemma {:induction false} LogAt(sent: seq<seq<Byte>>, from: nat, end: nat, u: nat)
    requires from <= u < end <= |sent|
    ensures IsMessage(Log(sent, from, end)[u - from], sent[u], u)
    decreases end - from
  {
    if from < u {
      LogAt(sent, from + 1, end, u);
    }
  }

  /** Whatever arrives, in time, in whatever order and however often: the callback has seen exactly
      the first messages sent, in order, once each, the next one is not in the buffer, and no message
      that arrived in reach of the window is lost. */
  lemma {:induction false} OrderedDelivery(sent: seq<seq<Byte>>, arrivals: seq<nat>)
    returns (held: set<nat>)
    requires InTime(sent, arrivals)
    ensures Delivered(sent, arrivals, Run(sent, arrivals).0, Run(sent, arrivals).1, held)
    ensures Kept(sent, arrivals, |Run(sent, arrivals).1|, held)
  {
    if arrivals == [] {
      held := {};
    } else {
      var last := |arrivals| - 1;
      InTimePrefix(sent, arrivals);
      var before := OrderedDelivery(sent, arrivals[..last]);
      var (r, log) := Run(sent, arrivals[..last]);
      held := ArriveTracks(r, sent, |log|, before, arrivals[last]);
      var (q, more) := Arrive(r, arrivals[last] % SEQUENCES, sent[arrivals[last]]);
      DeliveredStep(sent, arrivals[..last], r, log, before, arrivals[last], q, more, held);
      assert arrivals[..last] + [arrivals[last]] == arrivals;
      KeptStep(sent, arrivals, before, q, more, held);
    }
  }

  /** What the callback has seen, byte for byte: the first messages sent, in order, once each. */
  lemma DeliveredBytes(sent: seq<seq<Byte>>, arrivals: seq<nat>)
    requires InTime(sent, arrivals)
    ensures var log := Run(sent, arrivals).1;
            |log| <= |sent| && forall u :: 0 <= u < |log| ==> IsMessage(log[u], sent[u], u)
  {
    var held := OrderedDelivery(sent, arrivals);
    var log := Run(sent, arrivals).1;
    forall u | 0 <= u < |log| ensures IsMessage(log[u], sent[u], u) {
      LogAt(sent, 0, |log|, u);
    }
  }

  lemma DeliveredStep(sent: seq<seq<Byte>>, arrivals: seq<nat>, r: Receiver, log: seq<Delivery>, before: set<nat>,
                      u: nat, q: Receiver, more: seq<Delivery>, after: set<nat>)
    requires Delivered(sent, arrivals, r, log, before) && Moved(q, more, sent, |log|, Taken(before, |log|, u), after)
    ensures Delivered(sent, arrivals + [u], q, log + more, after)
  {
    LogAppend(sent, 0, |log|, |log| + |more|);
    forall v: nat | v < |log| + |more| || v in after ensures v in arrivals + [u] {
      assert v < |log| || v in Taken(before, |log|, u);
    }
  }

  lemma KeptStep(sent: seq<seq<Byte>>, arrivals: seq<nat>, before: set<nat>, q: Receiver, more: seq<Delivery>,
                 after: set<nat>)
    requires arrivals != [] && forall i :: 0 <= i < |arrivals| ==> arrivals[i] < |sent|
    requires var front := arrivals[..|arrivals| - 1];
             var recv := |Run(sent, front).1|;
             Kept(sent, front, recv, before) &&
             Moved(q, more, sent, recv, Taken(before, recv, arrivals[|arrivals| - 1]), after)
    ensures Kept(sent, arrivals, |Run(sent, arrivals[..|arrivals| - 1]).1| + |more|, after)
  {
    var last := |arrivals| - 1;
    var front := arrivals[..last];
    var recv := |Run(sent, front).1|;
    forall i: nat | i < |arrivals| && Reached(sent, arrivals, i)
      ensures arrivals[i] < recv + |more| || arrivals[i] in after
    {
      if i < last {
        assert front[..i] == arrivals[..i];
        assert Reached(sent, front, i);
      }
      assert arrivals[i] < recv || arrivals[i] in Taken(before, recv, arrivals[last]);
    }
  }

  /** The messages a receiver has after message `u` arrived. */
  function Taken(held: set<nat>, recv: nat, u: nat): set<nat> {
    if recv <= u < recv + SLOTS then held + {u} else held
  }

  /** What the arrival of message `u` does to a receiver that expects `recv` and holds `held`. */
  ghost predicate Extends(r: Receiver, sent: seq<seq<Byte>>, recv: nat, held: set<nat>, u: nat, after: set<nat>)
    requires Shaped(r) && u < |sent|
  {
    var (q, log) := Arrive(r, u % SEQUENCES, sent[u]);
    Moved(q, log, sent, recv, Taken(held, recv, u), after)
  }

  /** `log` delivered the messages from `recv` on that are in `from`, and the receiver holds the rest of them. */
  ghost predicate Moved(q: Receiver, log: seq<Delivery>, sent: seq<seq<Byte>>, recv: nat, from: set<nat>,
                        after: set<nat>) {
    recv + |log| <= |sent| && log == Log(sent, recv, recv + |log|) &&
    Tracks(q, sent, recv + |log|, after) && recv + |log| !in after &&
    (forall v: nat :: recv <= v < recv + |log| || v in after ==> v in from) &&
    forall v :: v in from ==> v < recv + |log| || v in after
  }

  lemma DeliverMoves(q: Receiver, sent: seq<seq<Byte>>, recv: nat, held: set<nat>)
    returns (after: set<nat>)
    requires Tracks(q, sent, recv, held) && recv <= |sent|
    ensures Moved(Deliver(q).0, Deliver(q).1, sent, recv, held, after)
  {
    var next := DeliverTracks(q, sent, recv, held);
    assert recv + |Deliver(q).1| == next;
    after := From(held, next);
  }

  /** One arrival, in time, extends the delivered prefix by the run it completes. */
  lemma ArriveTracks(r: Receiver, sent: seq<seq<Byte>>, recv: nat, held: set<nat>, u: nat)
    returns (after: set<nat>)
    requires Tracks(r, sent, recv, held) && recv !in held && recv <= |sent|
    requires u < |sent| && Unambiguous(u, recv)
    ensures Extends(r, sent, recv, held, u, after)
  {
    BufferTracks(r, sent, recv, held, u);
    var (q, isNew) := Buffer(r, u % SEQUENCES, sent[u]);
    if isNew {
      after := DeliverMoves(q, sent, recv, held + {u});
    } else {
      after := held;
    }
  }

  lemma InTimePrefix(sent: seq<seq<Byte>>, arrivals: seq<nat>)
    requires InTime(sent, arrivals) && arrivals != []
    ensures InTime(sent, arrivals[..|arrivals| - 1]) && OnTime(sent, arrivals, |arrivals| - 1)
  {
    var prefix := arrivals[..|arrivals| - 1];
    forall i: nat | i < |prefix| ensures OnTime(sent, prefix, i) {
      assert prefix[..i] == arrivals[..i];
      assert OnTime(sent, arrivals, i);
    }
  }

  lemma {:induction false} LogAppend(sent: seq<seq<Byte>>, a: nat, b: nat, c: nat)
    requires a <= b <= c <= |sent|
    ensures Log(sent, a, b) + Log(sent, b, c) == Log(sent, a, c)
    decreases b - a
  {
    if a < b {
      LogAppend(sent, a + 1, b, c);
      var first := [Delivery(Truncate(sent[a]), a % SEQUENCES)];
      assert first + Log(sent, a + 1, b) + Log(sent, b, c) == first + (Log(sent, a + 1, b) + Log(sent, b, c));
    } else {
      assert Log(sent, a, b) == [];
    }
  }
}
