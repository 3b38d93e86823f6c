/**
 * Packet coalescing (`server_send_pending`, `client_send_pending`): queued messages are packed
 * as frames behind the ack fields until a packet is full.  Together with the parse loop: what
 * the other end reads is what was dequeued, except at most the last message.
 */
module Coalescing {
  import opened Bytes
  import opened Collections
  import opened Channels
  import opened Frames
  import opened Packing
  import opened Scheduling

  /** A message taken from a channel's queue. */
  datatype Taken = Taken(channel: nat, message: Message)

  function FrameOf(t: Taken, reliable: seq<bool>): Frame
    requires t.channel < |reliable| <= MASK_BITS
  {
    if reliable[t.channel] then Reliable(t.channel, t.message.sequence, t.message.data)
    else Unreliable(t.channel, t.message.data)
  }

  ghost predicate Proper(taken: seq<Taken>, reliable: seq<bool>) {
    |reliable| <= MASK_BITS &&
    forall i :: 0 <= i < |taken| ==> taken[i].channel < |reliable| && Sendable(taken[i].message)
  }

  /** The frames the taken messages ask for, in order. */
  function FramesOf(taken: seq<Taken>, reliable: seq<bool>): (fs: seq<Frame>)
    requires Proper(taken, reliable)
    ensures |fs| == |taken|
  {
    if taken == [] then [] else FramesOf(taken[..|taken| - 1], reliable) + [FrameOf(taken[|taken| - 1], reliable)]
  }

  lemma {:induction false} FramesOfData(taken: seq<Taken>, reliable: seq<bool>)
    requires Proper(taken, reliable)
    ensures forall i :: 0 <= i < |taken| ==> FramesOf(taken, reliable)[i] == FrameOf(taken[i], reliable)
    ensures forall i :: 0 <= i < |taken| ==> IsData(FramesOf(taken, reliable)[i], |reliable|)
  {
    if taken != [] {
      FramesOfData(taken[..|taken| - 1], reliable);
    }
  }

  /** Everything the receiver reads from a sequence of payloads. */
  function ReadAll(packets: seq<seq<Byte>>, channels: nat, fragments: bool): seq<Frame> {
    if packets == [] then [] else
      var p := packets[|packets| - 1];
      ReadAll(packets[..|packets| - 1], channels, fragments) +
      (if |p| < ACK_SIZE then [] else Parse(p[ACK_SIZE..], channels, fragments))
  }

  /** The messages taken from channel `c`, in order. */
  function From(taken: seq<Taken>, c: nat): seq<Message> {
    if taken == [] then [] else
      From(taken[..|taken| - 1], c) +
      (if taken[|taken| - 1].channel == c then [taken[|taken| - 1].message] else [])
  }

  /** Nothing is lost or duplicated between the queues and the taken messages. */
  ghost predicate Conserved(before: seq<seq<Message>>, taken: seq<Taken>, after: seq<seq<Message>>) {
    |before| == |after| && forall c :: 0 <= c < |before| ==> before[c] == From(taken, c) + after[c]
  }

  lemma ConservedStep(before: seq<seq<Message>>, taken: seq<Taken>, after: seq<seq<Message>>, ch: nat)
    requires Conserved(before, taken, after) && ch < |after| && after[ch] != []
    ensures Conserved(before, taken + [Taken(ch, after[ch][0])], after[ch := after[ch][1..]])
  {
    var t := Taken(ch, after[ch][0]);
    assert (taken + [t])[..|taken|] == taken;
    forall c | 0 <= c < |before|
      ensures before[c] == From(taken + [t], c) + after[ch := after[ch][1..]][c]
    {
      if c == ch {
        assert after[ch] == [after[ch][0]] + after[ch][1..];
        Assoc(From(taken, c), [after[ch][0]], after[ch][1..]);
      } else {
        assert From(taken, c) + [] == From(taken, c);
      }
    }
  }

  function LengthWeight(): (nat, Sender) -> nat {
    (i: nat, s: Sender) => |s.queue|
  }

  /** `n` rounds of full scans: the channels afterwards and the messages taken. */
  function Rounds(v: seq<Sender>, priorities: seq<nat>, n: nat): (r: (seq<Sender>, seq<Taken>))
    requires |v| == |priorities|
    ensures |r.0| == |v|
  {
    if n == 0 then (v, []) else
      var (u, taken) := Rounds(v, priorities, n - 1);
      var ch := Best(u, priorities, |u|);
      if ch < 0 then (u, taken) else (u[ch := Tail(u[ch])], taken + [Taken(ch, u[ch].queue[0])])
  }

  /** All queued messages, in the order in which full scans take them. */
  function AllQueued(v: seq<Sender>, priorities: seq<nat>): seq<Taken>
    requires |v| == |priorities|
  {
    Rounds(v, priorities, Sum(v, LengthWeight())).1
  }

  /** Nothing was lost on the way from `v0` to `v`; and when `quiet`, full scans would have taken the same. */
  ghost predicate QueuesOk(v0: seq<Sender>, v: seq<Sender>, taken: seq<Taken>, priorities: seq<nat>, quiet: bool) {
    |v| == |v0| == |priorities| && Conserved(QueuesOf(v0), taken, QueuesOf(v)) &&
    (quiet ==> (v, taken) == Rounds(v0, priorities, |taken|))
  }

  lemma QueuesStart(v: seq<Sender>, priorities: seq<nat>, quiet: bool)
    requires |v| == |priorities|
    ensures QueuesOk(v, v, [], priorities, quiet)
  {
  }

  lemma QueuesStep(v0: seq<Sender>, v: seq<Sender>, taken: seq<Taken>, priorities: seq<nat>, quiet: bool, ch: nat)
    requires QueuesOk(v0, v, taken, priorities, quiet) && ch < |v| && v[ch].queue != []
    requires quiet ==> ch == Best(v, priorities, |v|)
    ensures QueuesOk(v0, v[ch := Tail(v[ch])], taken + [Taken(ch, v[ch].queue[0])], priorities, quiet)
    ensures Sum(v[ch := Tail(v[ch])], LengthWeight()) < Sum(v, LengthWeight())
  {
    ConservedStep(QueuesOf(v0), taken, QueuesOf(v), ch);
    assert QueuesOf(v[ch := Tail(v[ch])]) == QueuesOf(v)[ch := v[ch].queue[1..]];
    SumUpdate(v, LengthWeight(), ch, Tail(v[ch]));
  }

  // ---------------------------------------------------------------- one packet under construction

  /** `payload[..pos]` holds the ack fields and the frames `current`. */
  ghost predicate Packed(payload: seq<Byte>, pos: int, ack: seq<Byte>, current: seq<Frame>) {
    |ack| == ACK_SIZE && ACK_SIZE <= pos <= |payload| == MTU && payload[..pos] == ack + EncodeAll(current)
  }

  /** A finished payload reads back as its frames. */
  lemma PackedReads(payload: seq<Byte>, pos: int, ack: seq<Byte>, current: seq<Frame>, channels: nat, fragments: bool)
    requires Packed(payload, pos, ack, current)
    requires forall i :: 0 <= i < |current| ==> IsData(current[i], channels)
    ensures Parse(payload[..pos][ACK_SIZE..], channels, fragments) == current
  {
    assert payload[..pos][ACK_SIZE..] == EncodeAll(current);
    ParseUndoesWrite(current, channels, fragments);
  }

  method StartPacket(payload: array<Byte>, ack: seq<Byte>) returns (pos: nat)
    requires payload.Length == MTU && |ack| == ACK_SIZE
    modifies payload
    ensures pos == ACK_SIZE && Packed(payload[..], pos, ack, [])
  {
    CopyInto(payload, 0, ack);
    pos := ACK_SIZE;
  }

  /** Writes one frame behind the others, or returns -1 if it does not fit. */
  method AddFrame(payload: array<Byte>, pos: nat, ch: nat, reliable: bool, m: Message,
                  ghost ack: seq<Byte>, ghost current: seq<Frame>) returns (n: int)
    requires Packed(payload[..], pos, ack, current) && ch < MASK_BITS
    modifies payload
    ensures n == if Overhead(reliable) + |m.data| > MTU - pos then -1 else Overhead(reliable) + |m.data|
    ensures n == -1 ==> Packed(payload[..], pos, ack, current)
    ensures n != -1 ==>
              Packed(payload[..], pos + n, ack,
                     current + [if reliable then Reliable(ch, m.sequence, m.data) else Unreliable(ch, m.data)])
  {
    ghost var before := payload[..];
    ghost var f := if reliable then Reliable(ch, m.sequence, m.data) else Unreliable(ch, m.data);
    if reliable {
      n := WriteReliable(payload, pos, MTU - pos, ch, m.sequence, m.data);
    } else {
      n := WriteUnreliable(payload, pos, MTU - pos, ch, m.data);
    }
    if n != -1 {
      EncodeAllPush(current, f);
      Assoc(ack, EncodeAll(current), Encode(f));
      SplicePrefix(before, pos, Encode(f));
    }
  }

  function Overhead(reliable: bool): nat {
    if reliable then 6 else 4
  }

  // ---------------------------------------------------------------- the send loop

  function Kinds(channels: seq<Channel>): (r: seq<bool>)
    ensures |r| == |channels| && forall i :: 0 <= i < |r| ==> r[i] == channels[i].reliable
  {
    seq(|channels|, i requires 0 <= i < |channels| => channels[i].reliable)
  }

  ghost predicate PacketsOk(packets: seq<seq<Byte>>, ack: seq<Byte>) {
    forall i :: 0 <= i < |packets| ==> ACK_SIZE < |packets[i]| <= MTU && packets[i][..ACK_SIZE] == ack
  }

  /** The packets sent and the one under construction account for all messages taken. */
  ghost predicate Accounted(packets: seq<seq<Byte>>, current: seq<Frame>, taken: seq<Taken>,
                            kinds: seq<bool>, fragments: bool) {
    Proper(taken, kinds) && ReadAll(packets, |kinds|, fragments) + current == FramesOf(taken, kinds)
  }

  lemma CurrentIsData(packets: seq<seq<Byte>>, current: seq<Frame>, taken: seq<Taken>, kinds: seq<bool>,
                      fragments: bool)
    requires Accounted(packets, current, taken, kinds, fragments)
    ensures forall i :: 0 <= i < |current| ==> IsData(current[i], |kinds|)
  {
    var done := ReadAll(packets, |kinds|, fragments);
    FramesOfData(taken, kinds);
    forall i | 0 <= i < |current| ensures IsData(current[i], |kinds|) {
      assert current[i] == FramesOf(taken, kinds)[|done| + i];
    }
  }

  /** The bits the packets take on the wire: a prefix byte, the payload and the authentication tag. */
  function Billed(packets: seq<seq<Byte>>): nat {
    if packets == [] then 0 else Billed(packets[..|packets| - 1]) + (1 + |packets[|packets| - 1]| + 16) * 8
  }

  lemma BilledPush(packets: seq<seq<Byte>>, p: seq<Byte>)
    ensures Billed(packets + [p]) == Billed(packets) + Cost(|p|)
  {
    assert (packets + [p])[..|packets|] == packets;
  }

  /** Sending the packet under construction. */
  lemma Flushed(packets: seq<seq<Byte>>, current: seq<Frame>, taken: seq<Taken>, kinds: seq<bool>, fragments: bool,
                payload: seq<Byte>, pos: int, ack: seq<Byte>)
    requires Accounted(packets, current, taken, kinds, fragments) && Packed(payload, pos, ack, current)
    requires current != [] && PacketsOk(packets, ack)
    ensures Accounted(packets + [payload[..pos]], [], taken, kinds, fragments)
    ensures PacketsOk(packets + [payload[..pos]], ack)
  {
    CurrentIsData(packets, current, taken, kinds, fragments);
    PackedReads(payload, pos, ack, current, |kinds|, fragments);
    var sent := packets + [payload[..pos]];
    assert sent[..|packets|] == packets;
    assert EncodeAll(current) == Encode(current[0]) + EncodeAll(current[1..]);
    assert payload[..pos][..ACK_SIZE] == ack;
    assert ReadAll(sent, |kinds|, fragments) + [] == FramesOf(taken, kinds);
  }

  lemma TakeOne(packets: seq<seq<Byte>>, current: seq<Frame>, taken: seq<Taken>, kinds: seq<bool>, fragments: bool,
                t: Taken)
    requires Accounted(packets, current, taken, kinds, fragments) && t.channel < |kinds| && Sendable(t.message)
    ensures Accounted(packets, current + [FrameOf(t, kinds)], taken + [t], kinds, fragments)
  {
    assert (taken + [t])[..|taken|] == taken;
    Assoc(ReadAll(packets, |kinds|, fragments), current, [FrameOf(t, kinds)]);
  }

  function FrameSize(t: Taken, kinds: seq<bool>): nat
    requires t.channel < |kinds|
  {
    Overhead(kinds[t.channel]) + |t.message.data|
  }

  function Sizes(taken: seq<Taken>, kinds: seq<bool>): seq<nat>
    requires Proper(taken, kinds)
  {
    seq(|taken|, i requires 0 <= i < |taken| => FrameSize(taken[i], kinds))
  }

  /** The message fits a packet that has no other frame. */
  predicate FitsPacket(t: Taken, kinds: seq<bool>)
    requires t.channel < |kinds|
  {
    FrameSize(t, kinds) <= MTU - ACK_SIZE
  }

  /** Position and budget are where the messages taken leave them. */
  ghost predicate OnMeter(pos: int, bits: int, taken: seq<Taken>, kinds: seq<bool>, start: int) {
    Proper(taken, kinds) && Metered(pos, bits, Sizes(taken, kinds), start)
  }

  /** A message was lost if and only if the messages taken were more than fits and the budget affords. */
  ghost predicate LostIff(lost: bool, taken: seq<Taken>, kinds: seq<bool>, start: int) {
    Proper(taken, kinds) && (lost <==> !Affordable(Sizes(taken, kinds), start))
  }

  lemma MeterStep(pos: nat, bits: int, taken: seq<Taken>, kinds: seq<bool>, start: int, t: Taken)
    requires OnMeter(pos, bits, taken, kinds, start) && t.channel < |kinds| && Sendable(t.message)
    ensures var (r, p, b) := Meter(pos, bits, FrameSize(t, kinds));
            LostIff(!r.Placed?, taken + [t], kinds, start) && (r.Placed? ==> OnMeter(p, b, taken + [t], kinds, start))
  {
    MeterExact(pos, bits, Sizes(taken, kinds), start, FrameSize(t, kinds));
    assert Sizes(taken + [t], kinds) == Sizes(taken, kinds) + [FrameSize(t, kinds)];
  }

  /** What became of the message `t`, dequeued after `taken`. */
  ghost predicate Handled(r: Placement, packets: seq<seq<Byte>>, bits: int, current: seq<Frame>, t: Taken,
                          taken: seq<Taken>, kinds: seq<bool>, fragments: bool) {
    t.channel < |kinds| &&
    match r
    case Placed => Accounted(packets, current, taken + [t], kinds, fragments) && FitsPacket(t, kinds)
    case Exhausted => Accounted(packets, [], taken, kinds, fragments) && current == [] && bits > 0
    case TooLarge =>
      Accounted(packets, [], taken, kinds, fragments) && current == [] && !FitsPacket(t, kinds)
  }

  /** Packs one dequeued message, sending the current packet first if the message does not fit. */
  method Place(payload: array<Byte>, pos0: nat, frames0: nat, packets0: seq<seq<Byte>>, bits0: int,
               ch: nat, reliable: bool, m: Message, ack: seq<Byte>,
               ghost current0: seq<Frame>, ghost taken: seq<Taken>, ghost kinds: seq<bool>, ghost fragments: bool)
    returns (r: Placement, pos: nat, frames: nat, packets: seq<seq<Byte>>, bits: int, ghost current: seq<Frame>)
    requires Packed(payload[..], pos0, ack, current0) && frames0 == |current0|
    requires Accounted(packets0, current0, taken, kinds, fragments) && PacketsOk(packets0, ack)
    requires ch < |kinds| <= MASK_BITS && kinds[ch] == reliable && Sendable(m)
    modifies payload
    ensures Packed(payload[..], pos, ack, current) && frames == |current| && PacketsOk(packets, ack)
    ensures Handled(r, packets, bits, current, Taken(ch, m), taken, kinds, fragments)
    ensures (r, pos, bits) == Meter(pos0, bits0, Overhead(reliable) + |m.data|)
    ensures bits - Billed(packets) == bits0 - Billed(packets0)
  {
    var ok;
    var needed := Overhead(reliable) + |m.data|;
    ok, pos, frames, packets, bits, current :=
      MakeRoom(payload, pos0, frames0, packets0, bits0, needed, ack,
               current0, taken, kinds, fragments);
    if !ok {
      return Exhausted, pos, frames, packets, bits, current;
    }
    r, pos, frames, current := Pack(payload, pos, frames, packets, bits, ch, reliable, m, ack, current, taken, kinds,
                                    fragments);
  }

  /** Writes the frame of a message for which room was made. */
  method Pack(payload: array<Byte>, pos0: nat, frames0: nat, packets: seq<seq<Byte>>, ghost bits: int,
              ch: nat, reliable: bool, m: Message, ack: seq<Byte>,
              ghost current0: seq<Frame>, ghost taken: seq<Taken>, ghost kinds: seq<bool>, ghost fragments: bool)
    returns (r: Placement, pos: nat, frames: nat, ghost current: seq<Frame>)
    requires Packed(payload[..], pos0, ack, current0) && frames0 == |current0|
    requires Accounted(packets, current0, taken, kinds, fragments)
    requires ch < |kinds| <= MASK_BITS && kinds[ch] == reliable && Sendable(m)
    requires Overhead(reliable) + |m.data| <= MTU - pos0 || (current0 == [] && pos0 == ACK_SIZE)
    modifies payload
    ensures Packed(payload[..], pos, ack, current) && frames == |current|
    ensures Handled(r, packets, bits, current, Taken(ch, m), taken, kinds, fragments)
    ensures (r, pos) == Fill(pos0, Overhead(reliable) + |m.data|)
  {
    pos, frames, current := pos0, frames0, current0;
    var n := AddFrame(payload, pos, ch, reliable, m, ack, current);
    if n < 0 {
      return TooLarge, pos, frames, current;
    }
    TakeOne(packets, current, taken, kinds, fragments, Taken(ch, m));
    current := current + [FrameOf(Taken(ch, m), kinds)];
    pos, frames := pos + n, frames + 1;
    r := Placed;
  }

  /** Sends the current packet if it has frames and `needed` more bytes do not fit; fails when the budget is used up. */
  method MakeRoom(payload: array<Byte>, pos0: nat, frames0: nat, packets0: seq<seq<Byte>>, bits0: int, needed: nat,
                  ack: seq<Byte>, ghost current0: seq<Frame>, ghost taken: seq<Taken>, ghost kinds: seq<bool>,
                  ghost fragments: bool)
    returns (ok: bool, pos: nat, frames: nat, packets: seq<seq<Byte>>, bits: int, ghost current: seq<Frame>)
    requires Packed(payload[..], pos0, ack, current0) && frames0 == |current0|
    requires Accounted(packets0, current0, taken, kinds, fragments) && PacketsOk(packets0, ack)
    modifies payload
    ensures Packed(payload[..], pos, ack, current) && frames == |current| && PacketsOk(packets, ack)
    ensures Accounted(packets, current, taken, kinds, fragments)
    ensures ok ==> needed <= MTU - pos || (current == [] && pos == ACK_SIZE)
    ensures !ok ==> current == [] && bits > 0
    ensures (ok, pos, bits) == Room(pos0, bits0, needed)
    ensures bits - Billed(packets) == bits0 - Billed(packets0)
  {
    ok, pos, frames, packets, bits, current := true, pos0, frames0, packets0, bits0, current0;
    PackedEmpty(payload[..], pos, ack, current);
    if needed > MTU - pos && frames > 0 {
      bits := bits + Cost(pos);
      packets, pos := Flush(payload, pos, packets, ack, current, taken, kinds, fragments);
      frames, current := 0, [];
      ok := bits <= 0;
    }
  }

  /** Sends the packet under construction and starts a new one. */
  method Flush(payload: array<Byte>, pos0: nat, packets0: seq<seq<Byte>>, ack: seq<Byte>, ghost current: seq<Frame>,
               ghost taken: seq<Taken>, ghost kinds: seq<bool>, ghost fragments: bool)
    returns (packets: seq<seq<Byte>>, pos: nat)
    requires Packed(payload[..], pos0, ack, current) && current != []
    requires Accounted(packets0, current, taken, kinds, fragments) && PacketsOk(packets0, ack)
    modifies payload
    ensures pos == ACK_SIZE && Packed(payload[..], pos, ack, [])
    ensures Accounted(packets, [], taken, kinds, fragments) && PacketsOk(packets, ack)
    ensures Billed(packets) == Billed(packets0) + Cost(pos0)
  {
    BilledPush(packets0, payload[..pos0]);
    Flushed(packets0, current, taken, kinds, fragments, payload[..], pos0, ack);
    packets := packets0 + [payload[..pos0]];
    pos := StartPacket(payload, ack);
  }

  lemma PackedEmpty(payload: seq<Byte>, pos: int, ack: seq<Byte>, current: seq<Frame>)
    requires Packed(payload, pos, ack, current)
    ensures current == [] <==> pos == ACK_SIZE
  {
    assert |payload[..pos]| == pos;
    if current != [] {
      assert EncodeAll(current) == Encode(current[0]) + EncodeAll(current[1..]);
    }
  }

  /** Why the last message could be lost: the budget ran out, or it fits no packet. */
  ghost predicate Excused(bits: int, taken: seq<Taken>, kinds: seq<bool>) {
    taken != [] &&
    var t := taken[|taken| - 1];
    t.channel < |kinds| && (bits > 0 || !FitsPacket(t, kinds))
  }

  /** Every message but a lost one fits a packet: a message that does not is never sent. */
  ghost predicate AllFit(taken: seq<Taken>, lost: bool, kinds: seq<bool>) {
    forall i :: 0 <= i < |taken| - (if lost then 1 else 0) ==> taken[i].channel < |kinds| && FitsPacket(taken[i], kinds)
  }

  /** The packet under construction, the packets sent and the messages taken, between two rounds of the loop. */
  ghost predicate LoopOk(payload: seq<Byte>, pos: int, frames: nat, packets: seq<seq<Byte>>, ack: seq<Byte>,
                         current: seq<Frame>, taken: seq<Taken>, kinds: seq<bool>, fragments: bool) {
    Packed(payload, pos, ack, current) && frames == |current| && PacketsOk(packets, ack) &&
    Accounted(packets, current, taken, kinds, fragments) && AllFit(taken, false, kinds)
  }

  /** The loop has ended with the last message lost. */
  ghost predicate LostOk(payload: seq<Byte>, pos: int, frames: nat, packets: seq<seq<Byte>>, bits: int, ack: seq<Byte>,
                         taken: seq<Taken>, kinds: seq<bool>, fragments: bool) {
    Packed(payload, pos, ack, []) && frames == 0 && PacketsOk(packets, ack) &&
    Sent(packets, taken, true, kinds, fragments) && AllFit(taken, true, kinds) && Excused(bits, taken, kinds)
  }

  lemma RoundEnds(r: Placement, payload: seq<Byte>, pos: int, frames: nat, packets: seq<seq<Byte>>, bits: int,
                  ack: seq<Byte>,
                  current: seq<Frame>, t: Taken, taken: seq<Taken>, kinds: seq<bool>, fragments: bool)
    requires Packed(payload, pos, ack, current) && frames == |current| && PacketsOk(packets, ack)
    requires Handled(r, packets, bits, current, t, taken, kinds, fragments) && AllFit(taken, false, kinds)
    requires Sendable(t.message)
    ensures r.Placed? ==> LoopOk(payload, pos, frames, packets, ack, current, taken + [t], kinds, fragments)
    ensures !r.Placed? ==>
              current == [] && LostOk(payload, pos, frames, packets, bits, ack, taken + [t], kinds, fragments)
  {
    FitPush(taken, t, kinds);
    if !r.Placed? {
      LastLost(packets, taken, kinds, fragments, t);
      assert (taken + [t])[|taken + [t]| - 1] == t;
    }
  }

  lemma {:induction false} RoundsPrefix(v: seq<Sender>, priorities: seq<nat>, n: nat, m: nat)
    requires |v| == |priorities| && n <= m
    ensures Rounds(v, priorities, n).1 <= Rounds(v, priorities, m).1
    ensures Waiting(Rounds(v, priorities, n).0) == {} ==> Rounds(v, priorities, m) == Rounds(v, priorities, n)
    decreases m
  {
    if n < m {
      RoundsPrefix(v, priorities, n, m - 1);
    }
  }

  /** Every round with a message waiting takes one. */
  lemma {:induction false} RoundsCount(v: seq<Sender>, priorities: seq<nat>, n: nat)
    requires |v| == |priorities|
    ensures |Rounds(v, priorities, n).1| + Sum(Rounds(v, priorities, n).0, LengthWeight()) == Sum(v, LengthWeight())
    ensures |Rounds(v, priorities, n).1| < n ==> Waiting(Rounds(v, priorities, n).0) == {}
  {
    if n > 0 {
      RoundsCount(v, priorities, n - 1);
      var u := Rounds(v, priorities, n - 1).0;
      var ch := Best(u, priorities, |u|);
      if ch >= 0 {
        SumUpdate(u, LengthWeight(), ch, Tail(u[ch]));
      }
    }
  }

  lemma {:induction false} RoundsProper(v: seq<Sender>, priorities: seq<nat>, n: nat, kinds: seq<bool>)
    requires |v| == |priorities| == |kinds| <= MASK_BITS && AllQueuesSendable(v)
    ensures AllQueuesSendable(Rounds(v, priorities, n).0) && Proper(Rounds(v, priorities, n).1, kinds)
  {
    if n > 0 {
      RoundsProper(v, priorities, n - 1, kinds);
      var u := Rounds(v, priorities, n - 1).0;
      var ch := Best(u, priorities, |u|);
      if ch >= 0 {
        assert AllSendable(u[ch].queue) && ch in Waiting(u);
        assert Sendable(u[ch].queue[0]) && AllSendable(Tail(u[ch]).queue);
      }
    }
  }

  /** What is lost of the messages taken is lost of all that were queued. */
  lemma LostOfAll(v: seq<Sender>, priorities: seq<nat>, n: nat, lost: bool, kinds: seq<bool>, start: int)
    requires |v| == |priorities| == |kinds| <= MASK_BITS && AllQueuesSendable(v)
    requires |Rounds(v, priorities, n).1| == n
    requires LostIff(lost, Rounds(v, priorities, n).1, kinds, start)
    requires !lost ==> Waiting(Rounds(v, priorities, n).0) == {}
    ensures LostIff(lost, AllQueued(v, priorities), kinds, start)
  {
    var taken, all := Rounds(v, priorities, n).1, AllQueued(v, priorities);
    RoundsProper(v, priorities, Sum(v, LengthWeight()), kinds);
    RoundsCount(v, priorities, n);
    RoundsPrefix(v, priorities, n, Sum(v, LengthWeight()));
    if lost {
      assert Sizes(all, kinds)[..n] == Sizes(taken, kinds);
      if Affordable(Sizes(all, kinds), start) {
        PrefixAffordable(Sizes(all, kinds), n, start);
      }
    }
  }

  /**
   * One coalescing send.  `queuedBits` is the bandwidth budget; sending is allowed while it is not positive.
   * With the Nagle timer off and every waiting channel in the mask, messages are taken as full scans would take
   * them, and unless the last one was lost nothing is left.
   */
  method SendPending(conn: Connection, ack: seq<Byte>, now: real, queuedBits: int, ghost fragments: bool)
    returns (packets: seq<seq<Byte>>, taken: seq<Taken>, lost: bool, bits: int)
    requires conn.Valid() && |ack| == ACK_SIZE
    modifies conn, conn.Parts()
    ensures conn.Valid() && Conserved(old(conn.Queues()), taken, conn.Queues())
    ensures AllAccounted(packets, taken, lost, bits, ack, Kinds(conn.channels), fragments)
    ensures queuedBits > 0 ==> packets == [] && taken == []
    ensures bits == queuedBits + Billed(packets)
    ensures forall i :: 0 <= i < |packets| ==> 8 < |packets[i]| <= 1200 && packets[i][..8] == ack
    ensures queuedBits <= 0 ==> LostIff(lost, taken, Kinds(conn.channels), queuedBits)
    ensures conn.NagleOff() && old(conn.Covered()) && queuedBits <= 0 ==>
              LostIff(lost, AllQueued(old(conn.View()), conn.Priorities()), Kinds(conn.channels), queuedBits)
    ensures conn.NagleOff() && old(conn.Covered()) ==>
              conn.Covered() && (conn.View(), taken) == Rounds(old(conn.View()), conn.Priorities(), |taken|)
    ensures conn.NagleOff() && old(conn.Covered()) && queuedBits <= 0 && !lost ==>
              forall i :: 0 <= i < |conn.channels| ==> conn.Queue(i) == []
  {
    ghost var v, quiet := conn.View(), conn.NagleOff() && conn.Covered();
    conn.QueuesSendable();
    QueuesStart(v, conn.Priorities(), quiet);
    if queuedBits > 0 {
      AllSent([], [], Kinds(conn.channels), fragments);
      return [], [], false, queuedBits;
    }
    packets, taken, lost, bits := SendLoop(conn, ack, now, queuedBits, v, quiet, fragments);
    forall i | 0 <= i < |conn.channels| && quiet && !lost ensures conn.Queue(i) == [] {
      assert i !in Waiting(conn.View());
    }
    if quiet {
      LostOfAll(v, conn.Priorities(), |taken|, lost, Kinds(conn.channels), queuedBits);
    }
  }

  method SendLoop(conn: Connection, ack: seq<Byte>, now: real, queuedBits: int,
                  ghost v0: seq<Sender>, ghost quiet: bool, ghost fragments: bool)
    returns (packets: seq<seq<Byte>>, taken: seq<Taken>, lost: bool, bits: int)
    requires conn.Valid() && |ack| == ACK_SIZE && QueuesOk(v0, conn.View(), [], conn.Priorities(), quiet)
    requires queuedBits <= 0 && (quiet ==> conn.NagleOff() && conn.Covered())
    modifies conn, conn.Parts()
    ensures conn.Valid() && QueuesOk(v0, conn.View(), taken, conn.Priorities(), quiet)
    ensures AllAccounted(packets, taken, lost, bits, ack, Kinds(conn.channels), fragments)
    ensures quiet ==> conn.Covered() && (!lost ==> Waiting(conn.View()) == {})
    ensures LostIff(lost, taken, Kinds(conn.channels), queuedBits) && bits == queuedBits + Billed(packets)
  {
    var payload := new Byte[MTU](_ => 0);
    assert payload !in conn.Parts();
    var pos := StartPacket(payload, ack);
    conn.PartsKept(now);
    packets, taken, lost, bits := SendWith(conn, payload, pos, ack, now, queuedBits, v0, quiet, fragments);
  }

  method SendWith(conn: Connection, payload: array<Byte>, pos0: nat, ack: seq<Byte>, now: real, queuedBits: int,
                  ghost v0: seq<Sender>, ghost quiet: bool, ghost fragments: bool)
    returns (packets: seq<seq<Byte>>, taken: seq<Taken>, lost: bool, bits: int)
    requires conn.Valid() && payload !in conn.Parts() && Packed(payload[..], pos0, ack, [])
    requires QueuesOk(v0, conn.View(), [], conn.Priorities(), quiet)
    requires queuedBits <= 0 && (quiet ==> conn.NagleOff() && conn.Covered())
    modifies conn, conn.Parts(), payload
    ensures conn.Valid() && QueuesOk(v0, conn.View(), taken, conn.Priorities(), quiet)
    ensures AllAccounted(packets, taken, lost, bits, ack, Kinds(conn.channels), fragments)
    ensures quiet ==> conn.Covered() && (!lost ==> Waiting(conn.View()) == {})
    ensures LostIff(lost, taken, Kinds(conn.channels), queuedBits) && bits == queuedBits + Billed(packets)
  {
    ghost var kinds := Kinds(conn.channels);
    var pos, frames;
    ghost var current;
    packets, taken, lost, bits, pos, frames, current :=
      Drain(conn, payload, pos0, ack, now, queuedBits, v0, quiet, kinds, fragments);
    ghost var v := conn.View();
    packets, bits := FinishFor(conn, payload, pos, frames, packets, bits, ack, current, taken, lost, kinds, fragments);
    assert conn.View() == v;
  }

  method FinishFor(conn: Connection, payload: array<Byte>, pos: nat, frames: nat, packets0: seq<seq<Byte>>, bits0: int,
                   ack: seq<Byte>, ghost current: seq<Frame>, ghost taken: seq<Taken>, ghost lost: bool,
                   ghost kinds: seq<bool>, ghost fragments: bool)
    returns (packets: seq<seq<Byte>>, bits: int)
    requires conn.Valid()
    requires !lost ==> LoopOk(payload[..], pos, frames, packets0, ack, current, taken, kinds, fragments)
    requires lost ==> current == [] && LostOk(payload[..], pos, frames, packets0, bits0, ack, taken, kinds, fragments)
    ensures conn.Valid() && conn.View() == old(conn.View()) && (conn.Covered() <==> old(conn.Covered()))
    ensures AllAccounted(packets, taken, lost, bits, ack, kinds, fragments)
    ensures bits - Billed(packets) == bits0 - Billed(packets0)
  {
    packets, bits := Finish(payload, pos, frames, packets0, bits0, ack, current, taken, lost, kinds, fragments);
    conn.PartsKept(0.0);
  }

  /** What is known of the packets and messages of one send call. */
  ghost predicate AllAccounted(packets: seq<seq<Byte>>, taken: seq<Taken>, lost: bool, bits: int, ack: seq<Byte>,
                               kinds: seq<bool>, fragments: bool) {
    Sent(packets, taken, lost, kinds, fragments) && PacketsOk(packets, ack) && AllFit(taken, lost, kinds) &&
    (lost ==> Excused(bits, taken, kinds))
  }

  /** Sends the packet left over by the loop, if it has any frame. */
  method Finish(payload: array<Byte>, pos: nat, frames: nat, packets0: seq<seq<Byte>>, bits0: int, ack: seq<Byte>,
                ghost current: seq<Frame>, ghost taken: seq<Taken>, ghost lost: bool, ghost kinds: seq<bool>,
                ghost fragments: bool)
    returns (packets: seq<seq<Byte>>, bits: int)
    requires !lost ==> LoopOk(payload[..], pos, frames, packets0, ack, current, taken, kinds, fragments)
    requires lost ==> current == [] && LostOk(payload[..], pos, frames, packets0, bits0, ack, taken, kinds, fragments)
    ensures AllAccounted(packets, taken, lost, bits, ack, kinds, fragments)
    ensures bits - Billed(packets) == bits0 - Billed(packets0)
  {
    packets, bits := packets0, bits0;
    if frames > 0 {
      Flushed(packets, current, taken, kinds, fragments, payload[..], pos, ack);
      BilledPush(packets, payload[..pos]);
      packets := packets + [payload[..pos]];
      bits := bits + Cost(pos);
    }
    if !lost {
      AllSent(packets, taken, kinds, fragments);
    }
  }

  /** The loop: ends with a packet still to be sent, or with the last message lost and none. */
  method Drain(conn: Connection, payload: array<Byte>, pos0: nat, ack: seq<Byte>, now: real, queuedBits: int,
               ghost v0: seq<Sender>, ghost quiet: bool, ghost kinds: seq<bool>, ghost fragments: bool)
    returns (packets: seq<seq<Byte>>, taken: seq<Taken>, lost: bool, bits: int,
             pos: nat, frames: nat, ghost current: seq<Frame>)
    requires conn.Valid() && payload !in conn.Parts() && kinds == Kinds(conn.channels)
    requires Packed(payload[..], pos0, ack, []) && QueuesOk(v0, conn.View(), [], conn.Priorities(), quiet)
    requires queuedBits <= 0 && (quiet ==> conn.NagleOff() && conn.Covered())
    modifies conn, conn.Parts(), payload
    ensures conn.Valid() && QueuesOk(v0, conn.View(), taken, conn.Priorities(), quiet)
    ensures quiet ==> conn.Covered() && (!lost ==> Waiting(conn.View()) == {})
    ensures !lost ==> LoopOk(payload[..], pos, frames, packets, ack, current, taken, kinds, fragments)
    ensures lost ==> current == [] && LostOk(payload[..], pos, frames, packets, bits, ack, taken, kinds, fragments)
    ensures LostIff(lost, taken, kinds, queuedBits) && bits == queuedBits + Billed(packets)
  {
    packets, taken, lost, bits := [], [], false, queuedBits;
    PackedEmpty(payload[..], pos0, ack, []);
    pos, frames, current := pos0, 0, [];
    var ch := Schedule(conn, payload, now, quiet);
    while ch >= 0
      invariant conn.Valid() && (quiet ==> conn.Covered())
      invariant Scheduled(conn.View(), conn.Priorities(), ch, quiet)
      invariant QueuesOk(v0, conn.View(), taken, conn.Priorities(), quiet)
      invariant LoopOk(payload[..], pos, frames, packets, ack, current, taken, kinds, fragments)
      invariant OnMeter(pos, bits, taken, kinds, queuedBits) && bits == queuedBits + Billed(packets)
      decreases Sum(conn.View(), LengthWeight())
    {
      var m := TakeMessage(conn, payload, ch, v0, taken, quiet);
      var r;
      r, pos, frames, packets, bits, current :=
        PlaceFor(conn, payload, pos, frames, packets, bits, ch, m, ack, queuedBits, current, taken, kinds, fragments);
      taken := taken + [Taken(ch, m)];
      if !r.Placed? {
        lost := true;
        return;
      }
      ch := Schedule(conn, payload, now, quiet);
    }
  }

  /** `ch` is a channel with a message, or -1; when `quiet` it is the choice of a full scan. */
  ghost predicate Scheduled(v: seq<Sender>, priorities: seq<nat>, ch: int, quiet: bool) {
    |v| == |priorities| && ch < |v| && (ch >= 0 ==> v[ch].queue != []) &&
    (quiet ==> ch == Best(v, priorities, |v|) && (ch < 0 ==> Waiting(v) == {}))
  }

  lemma FitPush(taken: seq<Taken>, t: Taken, kinds: seq<bool>)
    requires AllFit(taken, false, kinds) && t.channel < |kinds|
    ensures AllFit(taken + [t], true, kinds) && (FitsPacket(t, kinds) ==> AllFit(taken + [t], false, kinds))
  {
  }

  lemma AllSent(packets: seq<seq<Byte>>, taken: seq<Taken>, kinds: seq<bool>, fragments: bool)
    requires Accounted(packets, [], taken, kinds, fragments)
    ensures Sent(packets, taken, false, kinds, fragments)
  {
    assert ReadAll(packets, |kinds|, fragments) + [] == ReadAll(packets, |kinds|, fragments);
  }

  lemma LastLost(packets: seq<seq<Byte>>, taken: seq<Taken>, kinds: seq<bool>, fragments: bool, t: Taken)
    requires Accounted(packets, [], taken, kinds, fragments) && t.channel < |kinds| && Sendable(t.message)
    ensures Sent(packets, taken + [t], true, kinds, fragments)
  {
    AllSent(packets, taken, kinds, fragments);
    assert (taken + [t])[..|taken + [t]| - 1] == taken;
  }

  /** The scheduler's next channel. */
  method Schedule(conn: Connection, payload: array<Byte>, now: real, ghost quiet: bool) returns (ch: int)
    requires conn.Valid() && payload !in conn.Parts() && (quiet ==> conn.NagleOff() && conn.Covered())
    modifies conn`pendingMask
    ensures conn.Valid() && conn.View() == old(conn.View()) && payload[..] == old(payload[..])
    ensures Scheduled(conn.View(), conn.Priorities(), ch, quiet) && (quiet ==> conn.Covered())
  {
    ch := conn.NextChannelFast(now);
    conn.ReadyIsNonEmpty(now);
    conn.WaitingIsNonEmpty();
    assert ch >= 0 ==> ch in Waiting(conn.View());
    if quiet {
      BestIs(conn.View(), conn.Priorities(), ch);
    }
  }

  /** What is known after a round that took the last of the messages `taken`. */
  ghost predicate RoundOk(r: Placement, payload: seq<Byte>, pos: int, frames: nat, packets: seq<seq<Byte>>, bits: int,
                          ack: seq<Byte>, current: seq<Frame>, taken: seq<Taken>, kinds: seq<bool>, fragments: bool,
                          start: int) {
    LostIff(!r.Placed?, taken, kinds, start) && bits == start + Billed(packets) &&
    if r.Placed? then
      OnMeter(pos, bits, taken, kinds, start) &&
      LoopOk(payload, pos, frames, packets, ack, current, taken, kinds, fragments)
    else current == [] && LostOk(payload, pos, frames, packets, bits, ack, taken, kinds, fragments)
  }

  /** One round of the loop: the message `m`, taken from channel `ch`, and what became of it. */
  method PlaceRound(payload: array<Byte>, pos0: nat, frames0: nat, packets0: seq<seq<Byte>>, bits0: int,
                    ch: nat, reliable: bool, m: Message, ack: seq<Byte>, ghost start: int,
                    ghost current0: seq<Frame>, ghost taken: seq<Taken>, ghost kinds: seq<bool>, ghost fragments: bool)
    returns (r: Placement, pos: nat, frames: nat, packets: seq<seq<Byte>>, bits: int, ghost current: seq<Frame>)
    requires ch < |kinds| <= MASK_BITS && kinds[ch] == reliable && Sendable(m)
    requires LoopOk(payload[..], pos0, frames0, packets0, ack, current0, taken, kinds, fragments)
    requires OnMeter(pos0, bits0, taken, kinds, start) && bits0 == start + Billed(packets0)
    modifies payload
    ensures RoundOk(r, payload[..], pos, frames, packets, bits, ack, current, taken + [Taken(ch, m)], kinds, fragments,
                    start)
  {
    r, pos, frames, packets, bits, current :=
      Place(payload, pos0, frames0, packets0, bits0, ch, reliable, m, ack, current0, taken, kinds, fragments);
    MeterStep(pos0, bits0, taken, kinds, start, Taken(ch, m));
    RoundEnds(r, payload[..], pos, frames, packets, bits, ack, current, Taken(ch, m), taken, kinds, fragments);
  }

  method PlaceFor(conn: Connection, payload: array<Byte>, pos0: nat, frames0: nat, packets0: seq<seq<Byte>>, bits0: int,
                  ch: nat, m: Message, ack: seq<Byte>, ghost start: int,
                  ghost current0: seq<Frame>, ghost taken: seq<Taken>, ghost kinds: seq<bool>, ghost fragments: bool)
    returns (r: Placement, pos: nat, frames: nat, packets: seq<seq<Byte>>, bits: int, ghost current: seq<Frame>)
    requires conn.Valid() && payload !in conn.Parts() && ch < |conn.channels| && kinds == Kinds(conn.channels)
    requires LoopOk(payload[..], pos0, frames0, packets0, ack, current0, taken, kinds, fragments) && Sendable(m)
    requires OnMeter(pos0, bits0, taken, kinds, start) && bits0 == start + Billed(packets0)
    modifies payload
    ensures conn.Valid() && conn.View() == old(conn.View()) && (old(conn.Covered()) ==> conn.Covered())
    ensures RoundOk(r, payload[..], pos, frames, packets, bits, ack, current, taken + [Taken(ch, m)], kinds, fragments,
                    start)
  {
    r, pos, frames, packets, bits, current :=
      PlaceRound(payload, pos0, frames0, packets0, bits0, ch, conn.channels[ch].reliable, m, ack, start,
                 current0, taken, kinds, fragments);
    conn.PartsKept(0.0);
  }

  /** What the receiver reads is what was taken, without the last message if that was lost. */
  ghost predicate Sent(packets: seq<seq<Byte>>, taken: seq<Taken>, lost: bool, kinds: seq<bool>, fragments: bool) {
    Proper(taken, kinds) && (lost ==> taken != []) &&
    ReadAll(packets, |kinds|, fragments) == FramesOf(if lost then taken[..|taken| - 1] else taken, kinds)
  }

  method TakeMessage(conn: Connection, payload: array<Byte>, ch: nat, ghost v0: seq<Sender>, ghost taken: seq<Taken>,
                     ghost quiet: bool)
    returns (m: Message)
    requires conn.Valid() && payload !in conn.Parts() && Scheduled(conn.View(), conn.Priorities(), ch, quiet)
    requires QueuesOk(v0, conn.View(), taken, conn.Priorities(), quiet)
    modifies conn.Parts()
    ensures conn.Valid() && Sendable(m) && (old(conn.Covered()) ==> conn.Covered())
    ensures QueuesOk(v0, conn.View(), taken + [Taken(ch, m)], conn.Priorities(), quiet)
    ensures Sum(conn.View(), LengthWeight()) < old(Sum(conn.View(), LengthWeight()))
    ensures payload[..] == old(payload[..])
  {
    QueuesStep(v0, conn.View(), taken, conn.Priorities(), quiet, ch);
    conn.PartOf(ch);
    assert Sendable(conn.View()[ch].queue[0]) by {
      assert conn.channels[ch].Valid();
    }
    var ok;
    m, ok := conn.Dequeue(ch);
  }
}
