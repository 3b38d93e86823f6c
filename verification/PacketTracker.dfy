/**
 * Packet acknowledgement (src/reliability/packet_tracker.h): the receiver keeps the newest sequence
 * number and a 32-bit field of the ones before it; the sender keeps 33 records of sent packets.
 * Numbers on the wire are 16 bits; the reference numbers packets 0, 1, 2, ...
 * The 32-bit field is written as the sequence of its bits, lowest first.
 */
module PacketTracking {
  import opened Arith
  import opened Collections
  import opened Sequences

  const BITS: nat := 32
  const WINDOW: nat := 33

  type Bits = b: seq<bool> | |b| == BITS witness seq(BITS, _ => false)

  function NoBits(): Bits {
    seq(BITS, _ => false)
  }

  /** `(bits << shift) | (1 << (shift - 1))` in 32 bits. */
  function ShiftIn(bits: Bits, shift: nat): (r: Bits)
    requires 1 <= shift
    ensures forall n :: 0 <= n < BITS ==>
              r[n] == if n >= shift then bits[n - shift] else n == shift - 1
  {
    seq(BITS, n requires 0 <= n < BITS => if n >= shift then bits[n - shift] else n == shift - 1)
  }

  // ---------------------------------------------------------------- receiving

  datatype Receiver = Receiver(any: bool, ack: nat, bits: Bits)

  /** A packet with this sequence number has arrived. */
  function Receive(r: Receiver, sequence: nat): Receiver {
    if !r.any then Receiver(true, sequence, r.bits) else
      var diff := Int16(sequence - r.ack);
      if diff > 0 then Receiver(true, sequence, if diff < 32 then ShiftIn(r.bits, diff) else NoBits())
      else if -32 < diff < 0 then r.(bits := r.bits[-diff - 1 := true])
      else r
  }

  /** The ack fields of an outgoing packet. */
  datatype Fields = Fields(ack: nat, bits: Bits)

  function Build(r: Receiver): Fields {
    Fields(r.ack, r.bits)
  }

  // ---------------------------------------------------------------- sending

  datatype Record = Record(sequence: nat, acked: bool)

  datatype Sender = Sender(next: nat, oldest: nat, sent: seq<Record>)

  ghost predicate Shaped(s: Sender) {
    s.next < SEQUENCES && s.oldest < SEQUENCES && |s.sent| == WINDOW
  }

  function Send(s: Sender): Sender
    requires |s.sent| == WINDOW
  {
    s.(next := (s.next + 1) % SEQUENCES, sent := s.sent[s.next % WINDOW := Record(s.next, false)])
  }

  /** Marks the record of a packet; the flag says whether it was newly marked. */
  function Mark(s: Sender, sequence: nat): (Sender, bool)
    requires |s.sent| == WINDOW
  {
    var r := s.sent[sequence % WINDOW];
    if r.sequence == sequence && !r.acked then
      (s.(sent := s.sent[sequence % WINDOW := r.(acked := true)]), true)
    else (s, false)
  }

  function Earlier(ack: nat, n: nat): nat {
    (ack - n - 1) % SEQUENCES
  }

  /** Marks the ack number and the packets of the first `n` bits; counts the newly marked. */
  function MarkFields(s: Sender, f: Fields, n: nat): (r: (Sender, nat))
    requires |s.sent| == WINDOW && n <= BITS
    ensures |r.0.sent| == WINDOW && r.0.next == s.next && r.0.oldest == s.oldest
    decreases n
  {
    if n == 0 then
      var (t, newly) := Mark(s, f.ack);
      (t, if newly then 1 else 0)
    else
      var (t, count) := MarkFields(s, f, n - 1);
      if !f.bits[n - 1] then (t, count) else
        var (u, newly) := Mark(t, Earlier(f.ack, n - 1));
        (u, if newly then count + 1 else count)
  }

  /** Distance from the oldest unacked number to the next one to send. */
  function Span(s: Sender): nat
    requires s.next < SEQUENCES && s.oldest < SEQUENCES
  {
    (s.next - s.oldest) % SEQUENCES
  }

  function Advance(s: Sender): (r: Sender)
    requires Shaped(s)
    ensures Shaped(r) && r.sent == s.sent && r.next == s.next
    decreases Span(s)
  {
    var r := s.sent[s.oldest % WINDOW];
    if s.oldest == s.next || !r.acked || r.sequence != s.oldest then s else
      SpanFalls(s.next, s.oldest);
      Advance(s.(oldest := (s.oldest + 1) % SEQUENCES))
  }

  /** Moving the oldest number on by one brings it one closer to the next one. */
  lemma SpanFalls(next: nat, oldest: nat)
    requires next < SEQUENCES && oldest < SEQUENCES && oldest != next
    ensures (next - (oldest + 1) % SEQUENCES) % SEQUENCES == (next - oldest) % SEQUENCES - 1
  {
    var d := (next - oldest) % SEQUENCES;
    var q := (next - oldest) / SEQUENCES;
    assert d != 0;
    DivModUnique(next - (oldest + 1) % SEQUENCES, SEQUENCES, q + (oldest + 1) / SEQUENCES, d - 1);
  }

  function ProcessAcks(s: Sender, f: Fields): (Sender, nat)
    requires Shaped(s)
  {
    var (t, count) := MarkFields(s, f, BITS);
    (Advance(t), count)
  }

  // ---------------------------------------------------------------- the tracker object

  class PacketTracker {
    var sendSequence: nat
    var oldestUnacked: nat
    var recvAck: nat
    var recvAckBits: Bits
    var receivedAny: bool
    const sent: array<Record>

    ghost predicate Valid()
      reads this
    {
      sent.Length == WINDOW && sendSequence < SEQUENCES && oldestUnacked < SEQUENCES
    }

    ghost function SendView(): Sender
      reads this, sent
    {
      Sender(sendSequence, oldestUnacked, sent[..])
    }

    ghost function ReceiveView(): Receiver
      reads this
    {
      Receiver(receivedAny, recvAck, recvAckBits)
    }

    constructor ()
      ensures Valid() && fresh(sent) && SendView() == InitialSender() && ReceiveView() == InitialReceiver()
    {
      sendSequence, oldestUnacked, recvAck, recvAckBits, receivedAny := 0, 0, 0, NoBits(), false;
      sent := new Record[WINDOW](_ => Record(0, false));
      new;
      assert sent[..] == InitialSender().sent;
    }

    method SendPacket() returns (sequence: nat)
      requires Valid()
      modifies this`sendSequence, sent
      ensures Valid() && sequence == old(sendSequence) && SendView() == Send(old(SendView()))
    {
      sequence := sendSequence;
      sendSequence := (sendSequence + 1) % SEQUENCES;
      sent[sequence % WINDOW] := Record(sequence, false);
    }

    method OnPacketReceived(sequence: nat)
      requires Valid()
      modifies this`recvAck, this`recvAckBits, this`receivedAny
      ensures Valid() && ReceiveView() == Receive(old(ReceiveView()), sequence)
    {
      if !receivedAny {
        recvAck := sequence;
        receivedAny := true;
      } else {
        var diff := Int16(sequence - recvAck);
        if diff > 0 {
          recvAckBits := if diff < 32 then ShiftIn(recvAckBits, diff) else NoBits();
          recvAck := sequence;
        } else if diff < 0 && diff > -32 {
          recvAckBits := recvAckBits[-diff - 1 := true];
        }
      }
    }

    method MarkAcked(sequence: nat) returns (newly: bool)
      requires Valid()
      modifies sent
      ensures Valid() && (SendView(), newly) == Mark(old(SendView()), sequence)
    {
      var idx := sequence % WINDOW;
      newly := sent[idx].sequence == sequence && !sent[idx].acked;
      if newly {
        sent[idx] := sent[idx].(acked := true);
      }
    }

    method ProcessAckFields(f: Fields) returns (newlyAcked: nat)
      requires Valid()
      modifies this`oldestUnacked, sent
      ensures Valid() && (SendView(), newlyAcked) == ProcessAcks(old(SendView()), f)
    {
      newlyAcked := MarkAll(f);
      AdvanceOldest();
    }

    method MarkAll(f: Fields) returns (newlyAcked: nat)
      requires Valid()
      modifies sent
      ensures Valid() && (SendView(), newlyAcked) == MarkFields(old(SendView()), f, BITS)
    {
      newlyAcked := 0;
      var newly := MarkAcked(f.ack);
      if newly {
        newlyAcked := 1;
      }
      for i := 0 to BITS
        invariant Valid() && (SendView(), newlyAcked) == MarkFields(old(SendView()), f, i)
      {
        if f.bits[i] {
          newly := MarkAcked(Earlier(f.ack, i));
          if newly {
            newlyAcked := newlyAcked + 1;
          }
        }
      }
    }

    method AdvanceOldest()
      requires Valid()
      modifies this`oldestUnacked
      ensures Valid() && SendView() == Advance(old(SendView()))
    {
      ghost var s, goal := SendView(), Advance(SendView());
      while oldestUnacked != sendSequence
        invariant Valid() && SendView() == s.(oldest := oldestUnacked) && Advance(SendView()) == goal
        decreases (sendSequence - oldestUnacked) % SEQUENCES
      {
        var idx := oldestUnacked % WINDOW;
        if !sent[idx].acked || sent[idx].sequence != oldestUnacked {
          break;
        }
        SpanFalls(sendSequence, oldestUnacked);
        oldestUnacked := (oldestUnacked + 1) % SEQUENCES;
      }
    }
  }

  function InitialSender(): Sender {
    Sender(0, 0, seq(WINDOW, _ => Record(0, false)))
  }

  function InitialReceiver(): Receiver {
    Receiver(false, 0, NoBits())
  }

  // ---------------------------------------------------------------- the ack field against all arrivals

  /** `newest` is the newest packet that arrived, and the field tells of the 31 before it; the top
      bit is set only for a packet that arrived. */
  ghost predicate FieldOk(r: Receiver, arrived: set<nat>, newest: nat) {
    if !r.any then arrived == {} && r == InitialReceiver()
    else
      newest in arrived && (forall u :: u in arrived ==> u <= newest) && r.ack == newest % SEQUENCES &&
      (forall n :: 0 <= n < 31 ==> (r.bits[n] <==> newest - n - 1 >= 0 && newest - n - 1 in arrived)) &&
      (r.bits[31] ==> newest - 32 >= 0 && newest - 32 in arrived)
  }

  /** The arrival is less than half a cycle from the newest. */
  predicate Near(u: nat, newest: nat) {
    -0x8000 <= u - newest < 0x8000
  }

  lemma NearIsExact(u: nat, newest: nat)
    requires Near(u, newest)
    ensures Int16(u % SEQUENCES - newest % SEQUENCES) == u - newest
  {
  }

  lemma NewerKeepsField(r: Receiver, arrived: set<nat>, newest: nat, u: nat)
    requires FieldOk(r, arrived, newest) && r.any && newest < u && Near(u, newest)
    ensures FieldOk(Receive(r, u % SEQUENCES), arrived + {u}, u)
  {
    NearIsExact(u, newest);
  }

  lemma OlderKeepsField(r: Receiver, arrived: set<nat>, newest: nat, u: nat)
    requires FieldOk(r, arrived, newest) && r.any && u <= newest && Near(u, newest)
    ensures FieldOk(Receive(r, u % SEQUENCES), arrived + {u}, newest)
  {
    NearIsExact(u, newest);
  }

  lemma ReceiveKeepsField(r: Receiver, arrived: set<nat>, newest: nat, u: nat)
    requires FieldOk(r, arrived, newest) && (r.any ==> Near(u, newest))
    ensures FieldOk(Receive(r, u % SEQUENCES), arrived + {u}, if r.any && u < newest then newest else u)
  {
    if r.any {
      if newest < u {
        NewerKeepsField(r, arrived, newest, u);
      } else {
        OlderKeepsField(r, arrived, newest, u);
      }
    }
  }

  /** The receiver after these packets have arrived. */
  function RunReceiver(arrivals: seq<nat>): Receiver {
    if arrivals == [] then InitialReceiver()
    else Receive(RunReceiver(arrivals[..|arrivals| - 1]), arrivals[|arrivals| - 1] % SEQUENCES)
  }

  function Newest(arrivals: seq<nat>): nat
    requires arrivals != []
  {
    var last := arrivals[|arrivals| - 1];
    if |arrivals| == 1 then last else
      var before := Newest(arrivals[..|arrivals| - 1]);
      if last < before then before else last
  }

  predicate NearAt(arrivals: seq<nat>, i: nat)
    requires 0 < i < |arrivals|
  {
    Near(arrivals[i], Newest(arrivals[..i]))
  }

  ghost predicate AllNear(arrivals: seq<nat>) {
    forall i {:trigger NearAt(arrivals, i)} :: 0 < i < |arrivals| ==> NearAt(arrivals, i)
  }

  /** Bit n of the field, for n up to 30, is set exactly when packet newest - n - 1 arrived. */
  lemma {:induction false} FieldExact(arrivals: seq<nat>)
    requires arrivals != [] && AllNear(arrivals)
    ensures RunReceiver(arrivals).any && FieldOk(RunReceiver(arrivals), Elements(arrivals), Newest(arrivals))
  {
    var last := |arrivals| - 1;
    var before := arrivals[..last];
    ElementsPush(arrivals, last);
    assert arrivals[..last + 1] == arrivals;
    if last == 0 {
      ReceiveKeepsField(InitialReceiver(), {}, 0, arrivals[0]);
    } else {
      forall i | 0 < i < last ensures NearAt(before, i) {
        assert before[..i] == arrivals[..i] && NearAt(arrivals, i);
      }
      assert NearAt(arrivals, last);
      FieldExact(before);
      ReceiveKeepsField(RunReceiver(before), Elements(before), Newest(before), arrivals[last]);
    }
  }

  // ---------------------------------------------------------------- the sender against all packets sent

  /** The record slot of packet `u`. */
  function SlotOf(u: nat): nat {
    (u % SEQUENCES) % WINDOW
  }

  /** `owner[i]` is the last packet sent that uses slot `i`, or -1; its record tells whether it is in `acked`. */
  ghost predicate RecordsOk(s: Sender, count: nat, owner: seq<int>, acked: set<nat>) {
    |s.sent| == WINDOW == |owner| && s.next == count % SEQUENCES && s.oldest < SEQUENCES &&
    (forall i :: 0 <= i < WINDOW ==> -1 <= owner[i] < count) &&
    (forall i :: 0 <= i < WINDOW && owner[i] == -1 ==>
      s.sent[i] == Record(0, false) && forall u: nat :: u < count ==> SlotOf(u) != i) &&
    (forall i :: 0 <= i < WINDOW && owner[i] >= 0 ==>
      SlotOf(owner[i]) == i && s.sent[i] == Record(owner[i] % SEQUENCES, owner[i] in acked) &&
      forall u: nat :: owner[i] < u < count ==> SlotOf(u) != i) &&
    (forall u :: u in acked ==> u < count)
  }

  /** Every slot is used by one of the last 66 packets, even where the numbers wrap. */
  lemma SlotUsedRecently(i: nat, count: nat) returns (u: nat)
    requires i < WINDOW && count >= 66
    ensures count - 66 <= u < count && SlotOf(u) == i
  {
    var last := count - 1;
    var m := last % SEQUENCES;
    var d := (m - i) % WINDOW;
    StepBack(m, i);
    if d <= m {
      u := last - d;
      SameCycle(last, d);
    } else {
      var e := (SEQUENCES - 1 - i) % WINDOW;
      StepBack(SEQUENCES - 1, i);
      SameCycle(last, m);
      u := last - m - 1 - e;
      SameCycle(last - m - 1, e);
    }
  }

  /** Going back from `m` to the nearest number that uses slot `i`. */
  lemma StepBack(m: nat, i: nat)
    requires i < WINDOW
    ensures (m - (m - i) % WINDOW) % WINDOW == i
  {
    var q := (m - i) / WINDOW;
    assert m - (m - i) % WINDOW == q * WINDOW + i;
  }

  /** Going back by less than the place in the cycle stays in the cycle; a whole cycle ends at its last number. */
  lemma SameCycle(last: nat, d: nat)
    requires d <= last % SEQUENCES
    ensures (last - d) % SEQUENCES == last % SEQUENCES - d
    ensures d == last % SEQUENCES && last >= SEQUENCES ==> (last - d - 1) % SEQUENCES == SEQUENCES - 1
  {
  }

  lemma SendKeepsRecords(s: Sender, count: nat, owner: seq<int>, acked: set<nat>)
    requires RecordsOk(s, count, owner, acked)
    ensures RecordsOk(Send(s), count + 1, owner[SlotOf(count) := count], acked)
  {
    assert s.next % WINDOW == SlotOf(count);
  }

  /** An ack for one of the last 2^16 packets can only touch the record of that very packet. */
  lemma MarkHitsItself(s: Sender, count: nat, owner: seq<int>, acked: set<nat>, v: nat)
    requires RecordsOk(s, count, owner, acked) && v < count <= v + 65536
    ensures s.sent[SlotOf(v)].sequence == v % SEQUENCES <==> owner[SlotOf(v)] == v
  {
    var i := SlotOf(v);
    if count >= 66 {
      var u := SlotUsedRecently(i, count);
      assert owner[i] >= u;
    }
  }

  lemma MarkKeepsRecords(s: Sender, count: nat, owner: seq<int>, acked: set<nat>, v: nat)
    requires RecordsOk(s, count, owner, acked) && v < count <= v + 65536
    ensures var (t, newly) := Mark(s, v % SEQUENCES);
            RecordsOk(t, count, owner, if newly then acked + {v} else acked) && (newly ==> v !in acked)
  {
    MarkHitsItself(s, count, owner, acked, v);
    var i := SlotOf(v);
    assert forall j :: 0 <= j < WINDOW && j != i && owner[j] >= 0 ==> owner[j] != v;
  }

  // ---------------------------------------------------------------- which records are marked

  /** The fields acknowledge this number: it is the ack itself, or bit n is set for ack - n - 1. */
  predicate Names(f: Fields, n: nat, sequence: nat)
    requires n <= 32
  {
    sequence == f.ack || exists k :: 0 <= k < n && f.bits[k] && sequence == (f.ack - k - 1) % 65536
  }

  /** Record `i` after the fields were processed: acked if it was, or if it is in its place and they name it. */
  ghost predicate MarkedAsNamed(s: Sender, t: Sender, f: Fields, n: nat, i: nat)
    requires i < |s.sent| == |t.sent| && n <= 32
  {
    t.sent[i].sequence == s.sent[i].sequence &&
    (t.sent[i].acked <==> s.sent[i].acked || (s.sent[i].sequence % 33 == i && Names(f, n, s.sent[i].sequence)))
  }

  lemma NamesNext(f: Fields, n: nat, sequence: nat)
    requires n < 32
    ensures Names(f, n + 1, sequence) <==>
              Names(f, n, sequence) || (f.bits[n] && sequence == (f.ack - n - 1) % 65536)
  {
    if Names(f, n, sequence) && sequence != f.ack {
      var k :| 0 <= k < n && f.bits[k] && sequence == (f.ack - k - 1) % 65536;
      assert 0 <= k < n + 1 && f.bits[k];
    }
  }

  /** The marks are exact: a record is newly acked if and only if the fields name its number. */
  lemma {:induction false} MarksExact(s: Sender, f: Fields, n: nat, i: nat)
    requires |s.sent| == 33 && n <= 32 && i < 33
    ensures MarkedAsNamed(s, MarkFields(s, f, n).0, f, n, i)
    decreases n
  {
    if n > 0 {
      MarksExact(s, f, n - 1, i);
      NamesNext(f, n - 1, s.sent[i].sequence);
    }
  }

  /** How many records differ. */
  ghost function Newly(s: Sender, t: Sender): set<nat>
    requires |s.sent| == |t.sent| == 33
  {
    set i: nat | i < 33 && t.sent[i].acked && !s.sent[i].acked
  }

  /** The count returned is the number of records newly acked. */
  lemma {:induction false} CountExact(s: Sender, f: Fields, n: nat)
    requires |s.sent| == 33 && n <= 32
    ensures |Newly(s, MarkFields(s, f, n).0)| == MarkFields(s, f, n).1
    decreases n
  {
    if n == 0 {
      CountMark(s, s, f.ack);
      assert Newly(s, s) == {};
    } else {
      CountExact(s, f, n - 1);
      var t := MarkFields(s, f, n - 1).0;
      forall i | 0 <= i < 33 && s.sent[i].acked ensures t.sent[i].acked {
        MarksExact(s, f, n - 1, i);
      }
      CountMark(s, t, Earlier(f.ack, n - 1));
    }
  }

  lemma CountMark(s: Sender, t: Sender, sequence: nat)
    requires |s.sent| == |t.sent| == 33 && forall i :: 0 <= i < 33 && s.sent[i].acked ==> t.sent[i].acked
    ensures |Newly(s, Mark(t, sequence).0)| == |Newly(s, t)| + if Mark(t, sequence).1 then 1 else 0
  {
    var (u, newly) := Mark(t, sequence);
    var i := sequence % WINDOW;
    if newly {
      assert Newly(s, u) == Newly(s, t) + {i} && i !in Newly(s, t);
    }
  }

  /** An arrival the receiver still speaks of is acknowledged: its packet, if its record is live, is acked. */
  lemma ArrivalIsAcked(s: Sender, count: nat, owner: seq<int>, acked: set<nat>, r: Receiver, arrived: set<nat>,
                       newest: nat, v: nat)
    requires Shaped(s) && RecordsOk(s, count, owner, acked) && r.any && FieldOk(r, arrived, newest)
    requires v in arrived && newest - 31 <= v && owner[SlotOf(v)] == v
    ensures ProcessAcks(s, Build(r)).0.sent[SlotOf(v)] == Record(v % 65536, true)
  {
    MarksExact(s, Build(r), 32, SlotOf(v));
    NamedArrival(r, arrived, newest, v);
  }

  lemma NamedArrival(r: Receiver, arrived: set<nat>, newest: nat, v: nat)
    requires r.any && FieldOk(r, arrived, newest) && v in arrived && newest - 31 <= v
    ensures Names(Build(r), 32, v % 65536)
  {
    if v < newest {
      var k := newest - v - 1;
      EarlierNumber(newest, k);
      assert Build(r).bits[k];
    }
  }

  lemma EarlierNumber(newest: nat, k: nat)
    requires k < newest
    ensures (newest % 65536 - k - 1) % 65536 == (newest - k - 1) % 65536
  {
    var x := newest % SEQUENCES - k - 1;
    DivModUnique(newest - k - 1, SEQUENCES, newest / SEQUENCES + x / SEQUENCES, x % SEQUENCES);
  }

  /** The packet `k` numbers after the oldest unacked one has been acked. */
  predicate DoneAt(s: Sender, k: nat)
    requires |s.sent| == 33
  {
    var sequence := (s.oldest + k) % 65536;
    s.sent[sequence % 33] == Record(sequence, true)
  }

  lemma NextThenMore(oldest: nat, k: nat)
    ensures ((oldest + 1) % SEQUENCES + k) % SEQUENCES == (oldest + k + 1) % SEQUENCES
  {
    var x := (oldest + 1) % SEQUENCES + k;
    DivModUnique(oldest + k + 1, SEQUENCES, (oldest + 1) / SEQUENCES + x / SEQUENCES, x % SEQUENCES);
  }

  lemma ShiftDone(s: Sender, k: nat)
    requires |s.sent| == 33
    ensures DoneAt(s.(oldest := (s.oldest + 1) % SEQUENCES), k) == DoneAt(s, k + 1)
  {
    NextThenMore(s.oldest, k);
  }

  /** From the oldest unacked number, `d` acked packets lead to `oldest`, and no further. */
  ghost predicate MovedBy(s: Sender, oldest: nat, d: nat)
    requires Shaped(s)
  {
    oldest == (s.oldest + d) % 65536 && d <= (s.next - s.oldest) % 65536 &&
    (forall k: nat {:trigger DoneAt(s, k)} :: k < d ==> DoneAt(s, k)) && (oldest == s.next || !DoneAt(s, d))
  }

  lemma DoneHere(s: Sender)
    requires Shaped(s)
    ensures DoneAt(s, 0) <==> s.sent[s.oldest % 33].acked && s.sent[s.oldest % 33].sequence == s.oldest
    ensures s.oldest == s.next || !DoneAt(s, 0) ==> Advance(s) == s && MovedBy(s, s.oldest, 0)
  {
    assert (s.oldest + 0) % 65536 == s.oldest;
  }

  lemma MovedNext(s: Sender, oldest: nat, d: nat)
    requires Shaped(s) && s.oldest != s.next && DoneAt(s, 0)
    requires MovedBy(s.(oldest := (s.oldest + 1) % SEQUENCES), oldest, d)
    ensures MovedBy(s, oldest, d + 1)
  {
    var t := s.(oldest := (s.oldest + 1) % SEQUENCES);
    SpanFalls(s.next, s.oldest);
    NextThenMore(s.oldest, d);
    ShiftDone(s, d);
    forall k: nat | 0 < k < d + 1 ensures DoneAt(s, k) {
      ShiftDone(s, k - 1);
      assert DoneAt(t, k - 1);
    }
  }

  /** The oldest unacked number moves over acked packets only, and as far as they reach. */
  lemma {:induction false} AdvanceExact(s: Sender) returns (d: nat)
    requires Shaped(s)
    ensures MovedBy(s, Advance(s).oldest, d)
    decreases Span(s)
  {
    DoneHere(s);
    if s.oldest == s.next || !DoneAt(s, 0) {
      d := 0;
    } else {
      SpanFalls(s.next, s.oldest);
      var more := AdvanceExact(s.(oldest := (s.oldest + 1) % SEQUENCES));
      MovedNext(s, Advance(s).oldest, more);
      d := more + 1;
    }
  }

  // ---------------------------------------------------------------- both ends

  /** The fields were built by a receiver that had heard `arrived`, `newest` being the newest. */
  ghost predicate Truthful(f: Fields, arrived: set<nat>, newest: nat) {
    newest in arrived && f.ack == newest % SEQUENCES &&
    forall n :: 0 <= n < BITS && f.bits[n] ==> newest - n - 1 >= 0 && newest - n - 1 in arrived
  }

  /** Every packet the fields speak of is among the last 2^16 sent. */
  ghost predicate Recent(f: Fields, newest: nat, count: nat) {
    count <= newest + 65536 && forall n :: 0 <= n < BITS && f.bits[n] ==> count <= newest - n - 1 + 65536
  }

  /** Processing truthful, recent fields marks packets that arrived, and counts each one once. */
  lemma {:induction false} MarkFieldsSound(s: Sender, count: nat, owner: seq<int>, acked: set<nat>,
                                           f: Fields, arrived: set<nat>, newest: nat, n: nat)
    returns (now: set<nat>)
    requires RecordsOk(s, count, owner, acked) && n <= BITS
    requires Truthful(f, arrived, newest) && Recent(f, newest, count) && forall u :: u in arrived ==> u < count
    ensures acked <= now <= acked + arrived
    ensures RecordsOk(MarkFields(s, f, n).0, count, owner, now)
    ensures |now| == |acked| + MarkFields(s, f, n).1
    decreases n
  {
    if n == 0 {
      MarkKeepsRecords(s, count, owner, acked, newest);
      now := if Mark(s, f.ack).1 then acked + {newest} else acked;
    } else {
      var before := MarkFieldsSound(s, count, owner, acked, f, arrived, newest, n - 1);
      now := MarkBit(MarkFields(s, f, n - 1).0, count, owner, before, f, arrived, newest, n - 1);
    }
  }

  /** The step for bit `n`. */
  lemma MarkBit(t: Sender, count: nat, owner: seq<int>, acked: set<nat>, f: Fields, arrived: set<nat>, newest: nat,
                n: nat)
    returns (now: set<nat>)
    requires RecordsOk(t, count, owner, acked) && n < BITS
    requires Truthful(f, arrived, newest) && Recent(f, newest, count) && forall u :: u in arrived ==> u < count
    ensures var (u, newly) := Mark(t, Earlier(f.ack, n));
            if f.bits[n] && newly then
              now == acked + {newest - n - 1} && newest - n - 1 in arrived && RecordsOk(u, count, owner, now) &&
              |now| == |acked| + 1
            else now == acked && (f.bits[n] ==> RecordsOk(u, count, owner, now))
  {
    now := acked;
    if f.bits[n] {
      var v: nat := newest - n - 1;
      assert Earlier(f.ack, n) == v % SEQUENCES;
      MarkKeepsRecords(t, count, owner, acked, v);
      if Mark(t, v % SEQUENCES).1 {
        now := acked + {v};
      }
    }
  }

  // ---------------------------------------------------------------- runs

  /** Fields on their way back, with what the receiver had heard when it built them. */
  datatype Emitted = Emitted(fields: Fields, arrived: set<nat>, newest: nat)

  /** `count` packets have been sent, those in `arrived` have arrived; `reported` adds up what the
      sender's process_acks calls have returned. */
  datatype World = World(sender: Sender, receiver: Receiver, count: nat, arrived: set<nat>, newest: nat,
                         emitted: seq<Emitted>, reported: nat)

  datatype Event = SendOne | Arrive(u: nat) | Emit | Process(k: nat)

  /** The network may lose, repeat, delay and reorder packets and acks, within these bounds. */
  ghost predicate Allowed(w: World, e: Event) {
    match e
    case SendOne => true
    case Arrive(u) => u < w.count && (w.receiver.any ==> Near(u, w.newest))
    case Emit => w.receiver.any
    case Process(k) => k < |w.emitted| && Recent(w.emitted[k].fields, w.emitted[k].newest, w.count)
  }

  function Next(w: World, e: Event): (r: World)
    requires Shaped(w.sender)
    ensures Shaped(r.sender)
  {
    match e
    case SendOne => w.(sender := Send(w.sender), count := w.count + 1)
    case Arrive(u) =>
      w.(receiver := Receive(w.receiver, u % SEQUENCES), arrived := w.arrived + {u},
         newest := if w.receiver.any && u < w.newest then w.newest else u)
    case Emit => w.(emitted := w.emitted + [Emitted(Build(w.receiver), w.arrived, w.newest)])
    case Process(k) =>
      if k >= |w.emitted| then w else
        var (s, n) := ProcessAcks(w.sender, w.emitted[k].fields);
        w.(sender := s, reported := w.reported + n)
  }

  function Run(events: seq<Event>): (w: World)
    ensures Shaped(w.sender)
  {
    if events == [] then World(InitialSender(), InitialReceiver(), 0, {}, 0, [], 0)
    else Next(Run(events[..|events| - 1]), events[|events| - 1])
  }

  ghost predicate AllAllowed(events: seq<Event>) {
    forall i :: 0 <= i < |events| ==> Allowed(Run(events[..i]), events[i])
  }

  ghost predicate EmittedOk(e: Emitted, arrived: set<nat>) {
    e.arrived <= arrived && Truthful(e.fields, e.arrived, e.newest)
  }

  ghost predicate WorldOk(w: World, owner: seq<int>, acked: set<nat>) {
    RecordsOk(w.sender, w.count, owner, acked) && FieldOk(w.receiver, w.arrived, w.newest) &&
    (forall u :: u in w.arrived ==> u < w.count) &&
    (forall k :: 0 <= k < |w.emitted| ==> EmittedOk(w.emitted[k], w.arrived)) &&
    acked <= w.arrived && w.reported == |acked|
  }

  lemma AdvanceKeepsRecords(s: Sender, count: nat, owner: seq<int>, acked: set<nat>)
    requires Shaped(s) && RecordsOk(s, count, owner, acked)
    ensures RecordsOk(Advance(s), count, owner, acked)
  {
  }

  lemma NextOk(w: World, e: Event, owner: seq<int>, acked: set<nat>) returns (owner': seq<int>, acked': set<nat>)
    requires WorldOk(w, owner, acked) && Shaped(w.sender) && Allowed(w, e)
    ensures WorldOk(Next(w, e), owner', acked')
  {
    owner', acked' := owner, acked;
    match e
    case SendOne =>
      SendKeepsRecords(w.sender, w.count, owner, acked);
      owner' := owner[SlotOf(w.count) := w.count];
    case Arrive(u) =>
      ReceiveKeepsField(w.receiver, w.arrived, w.newest, u);
      forall k | 0 <= k < |w.emitted| ensures EmittedOk(w.emitted[k], w.arrived + {u}) {
        assert EmittedOk(w.emitted[k], w.arrived);
      }
    case Emit =>
    case Process(k) =>
      var x := w.emitted[k];
      assert EmittedOk(x, w.arrived);
      acked' := MarkFieldsSound(w.sender, w.count, owner, acked, x.fields, x.arrived, x.newest, BITS);
      AdvanceKeepsRecords(MarkFields(w.sender, x.fields, BITS).0, w.count, owner, acked');
  }

  /** In every run the sender marks only packets that truly arrived, and counts each at most once. */
  lemma {:induction false} AckSoundness(events: seq<Event>) returns (owner: seq<int>, acked: set<nat>)
    requires AllAllowed(events)
    ensures WorldOk(Run(events), owner, acked)
  {
    if events == [] {
      owner, acked := seq(WINDOW, _ => -1), {};
    } else {
      var last := |events| - 1;
      forall i | 0 <= i < last ensures Allowed(Run(events[..last][..i]), events[..last][i]) {
        assert events[..last][..i] == events[..i];
      }
      owner, acked := AckSoundness(events[..last]);
      owner, acked := NextOk(Run(events[..last]), events[last], owner, acked);
    }
  }

  /** A receiver that has heard nothing still sends ack 0.  Processing it marks packet 0, which did
      not arrive, exactly when the sender's record of number 0 is there and not yet acked. */
  lemma SilentReceiverAcksZero(s: Sender)
    requires Shaped(s)
    ensures ProcessAcks(s, Build(InitialReceiver())).1 == if s.sent[0] == Record(0, false) then 1 else 0
    ensures Send(InitialSender()).sent[0] == Record(0, false)
  {
    NoBitsMarkNothing(s, Build(InitialReceiver()), BITS);
  }

  lemma {:induction false} NoBitsMarkNothing(s: Sender, f: Fields, n: nat)
    requires |s.sent| == WINDOW && n <= BITS && f.bits == NoBits()
    ensures MarkFields(s, f, n) == MarkFields(s, f, 0)
  {
    if n > 0 {
      NoBitsMarkNothing(s, f, n - 1);
    }
  }

  // ---------------------------------------------------------------- as the packet handlers call it

  /** The run as both packet handlers drive the tracker: every arrival is reported as number 0, and a peer
      sends its fields whether or not it has heard anything. */
  function WiredNext(w: World, e: Event): (r: World)
    requires Shaped(w.sender)
    ensures Shaped(r.sender)
  {
    if e.Arrive? then w.(receiver := Receive(w.receiver, 0), arrived := w.arrived + {e.u}) else Next(w, e)
  }

  function WiredRun(events: seq<Event>): (w: World)
    ensures Shaped(w.sender)
  {
    if events == [] then World(InitialSender(), InitialReceiver(), 0, {}, 0, [], 0)
    else WiredNext(WiredRun(events[..|events| - 1]), events[|events| - 1])
  }

  /** After `count` packets record 0 still says number 0: fewer than 33 packets since the last one numbered 0. */
  predicate ZeroRecorded(count: nat) {
    count == 0 || (count - 1) % SEQUENCES < WINDOW
  }

  /** The last packet sent with the 16-bit number 0. */
  function ZeroPacket(count: nat): int {
    if count == 0 then -1 else count - 1 - (count - 1) % SEQUENCES
  }

  /** The fields never say anything but "ack 0", and no record but that of number 0 is ever acked. */
  ghost predicate WiredOk(w: World) {
    Shaped(w.sender) && w.sender.next == w.count % SEQUENCES &&
    w.receiver.ack == 0 && w.receiver.bits == NoBits() &&
    (forall k :: 0 <= k < |w.emitted| ==> w.emitted[k].fields == Fields(0, NoBits())) &&
    (forall i :: 0 <= i < WINDOW && w.sender.sent[i].acked ==> i == 0 && w.sender.sent[i].sequence == 0) &&
    (w.sender.sent[0].sequence == 0 <==> ZeroRecorded(w.count))
  }

  lemma ZeroRecordedNext(count: nat)
    ensures ZeroRecorded(count + 1) <==>
              if SlotOf(count) == 0 then count % SEQUENCES == 0 else ZeroRecorded(count)
  {
    var n := count % SEQUENCES;
    if n > 0 {
      SameCycle(count, 1);
    }
  }

  /** Processing "ack 0" marks record 0 if it says number 0 and is not acked, and no other record. */
  lemma ProcessZero(s: Sender)
    requires Shaped(s)
    ensures var (t, n) := ProcessAcks(s, Fields(0, NoBits()));
            n == (if s.sent[0] == Record(0, false) then 1 else 0) && t.next == s.next &&
            t.sent == if s.sent[0] == Record(0, false) then s.sent[0 := Record(0, true)] else s.sent
  {
    NoBitsMarkNothing(s, Fields(0, NoBits()), BITS);
  }

  lemma WiredSend(w: World)
    requires WiredOk(w)
    ensures WiredOk(WiredNext(w, SendOne))
  {
    ZeroRecordedNext(w.count);
  }

  lemma WiredProcess(w: World, k: nat)
    requires WiredOk(w)
    ensures WiredOk(WiredNext(w, Process(k)))
  {
    if k < |w.emitted| {
      ProcessZero(w.sender);
    }
  }

  lemma WiredStep(w: World, e: Event)
    requires WiredOk(w)
    ensures WiredOk(WiredNext(w, e))
  {
    match e
    case SendOne => WiredSend(w);
    case Arrive(_) =>
    case Emit =>
    case Process(k) => WiredProcess(w, k);
  }

  lemma {:induction false} WiredEveryRun(events: seq<Event>)
    ensures WiredOk(WiredRun(events))
  {
    if events != [] {
      WiredEveryRun(events[..|events| - 1]);
      WiredStep(WiredRun(events[..|events| - 1]), events[|events| - 1]);
    }
  }

  /** The last of `count` packets that used record `i`, or -1. */
  function LastUser(i: nat, count: nat): int {
    if count == 0 then -1 else if SlotOf(count - 1) == i then count - 1 else LastUser(i, count - 1)
  }

  /** While record 0 says number 0 it belongs to the last packet with that number. */
  lemma {:induction false} ZeroUser(count: nat)
    requires ZeroRecorded(count)
    ensures LastUser(0, count) == ZeroPacket(count)
    decreases count
  {
    if count > 0 && (count - 1) % SEQUENCES != 0 {
      SameCycle(count - 1, 1);
      ZeroUser(count - 1);
    }
  }

  /** Processing the fields acks a record whose packet did not arrive, or that no packet has used. */
  ghost predicate FalseMark(w: World, k: nat)
    requires Shaped(w.sender) && k < |w.emitted|
  {
    var t := ProcessAcks(w.sender, w.emitted[k].fields).0;
    exists i :: 0 <= i < |t.sent| == |w.sender.sent| && t.sent[i].acked && !w.sender.sent[i].acked &&
                LastUser(i, w.count) !in w.arrived
  }

  /**
   * In every run as wired, processing a peer's fields reports one packet exactly when record 0 says number 0 and
   * is not acked, whichever packets arrived; at most the first 33 packets of a cycle leave it so.  A packet
   * that did not arrive is marked exactly when that guard holds and the last packet numbered 0 did not arrive.
   */
  lemma WiredFalseMarkIff(events: seq<Event>, k: nat)
    requires k < |WiredRun(events).emitted|
    ensures var w := WiredRun(events);
            ProcessAcks(w.sender, w.emitted[k].fields).1 == (if w.sender.sent[0] == Record(0, false) then 1 else 0) &&
            (w.sender.sent[0] == Record(0, false) ==> ZeroRecorded(w.count)) &&
            (FalseMark(w, k) <==> w.sender.sent[0] == Record(0, false) && ZeroPacket(w.count) !in w.arrived)
  {
    WiredEveryRun(events);
    var w := WiredRun(events);
    ProcessZero(w.sender);
    if w.sender.sent[0] == Record(0, false) {
      ZeroUser(w.count);
      assert ProcessAcks(w.sender, w.emitted[k].fields).0.sent[0].acked;
    }
  }

  /** Counterexample: packets 0 and 1 are sent, only packet 1 arrives, and packet 0 is marked. */
  lemma WiredMarksLostPacket()
    ensures var w := WiredRun([SendOne, SendOne, Arrive(1), Emit]);
            w.arrived == {1} && |w.emitted| == 1 && FalseMark(w, 0)
  {
    var a: seq<Event> := [SendOne];
    var b: seq<Event> := [SendOne, SendOne];
    var c := [SendOne, SendOne, Arrive(1)];
    var d := [SendOne, SendOne, Arrive(1), Emit];
    assert a[..0] == [] && b[..1] == a && c[..2] == b && d[..3] == c;
    WiredFalseMarkIff(d, 0);
  }
}
