/**
 * What every event does to connections, groups and packets, in plain terms: which requests open a connection, which
 * connections a step refreshes or closes, who is a member of a group, and where a packet goes.
 */
module ServerSteps {
  import opened Bytes
  import opened Collections
  import opened Rosters
  import opened ServerSpec
  import F = Frames

  // ---------------------------------------------------------------- addresses and packets

  /** IPv4 addresses are compared on four bytes, IPv6 addresses on sixteen, others on none. */
  lemma AddressEqualIff(a: Address, b: Address)
    ensures AddressEqual(a, b) <==>
              a.kind == b.kind && a.port == b.port &&
              (a.kind == 1 ==> forall i :: 0 <= i < 4 ==> a.data[i] == b.data[i]) &&
              (a.kind == 2 ==> a.data == b.data)
  {
    var n := AddressDataLength(a);
    assert AddressEqual(a, b) ==> forall i :: 0 <= i < n ==> a.data[i] == a.data[..n][i] == b.data[..n][i];
    assert a.data[..16] == a.data && b.data[..16] == b.data;
  }

  /** The prefix of a data packet: types 4 to 6, or the rekey prefix. */
  predicate IsDataPrefix(prefix: Byte) {
    prefix % 16 == 4 || prefix % 16 == 5 || prefix % 16 == 6 || prefix == 0x0C
  }

  /** The slot id in the packet's header names an active connection with the sender's address. */
  predicate WireNames(s: State, from: Address, packet: seq<Byte>, slot: int) {
    |packet| >= 4 && slot == packet[1] as int + 256 * packet[2] as int && slot < |s.conns| % 65536 &&
    s.conns[slot].active && AddressEqual(s.conns[slot].address, from)
  }

  /**
   * Where a packet goes, exactly.  A request has type 0 and 1078 bytes.  A data packet goes to the slot its header
   * names, if that is right, and else to the slot its address is mapped to; every other packet is dropped.
   */
  lemma DispatchExact(s: State, from: Address, packet: seq<Byte>, slot: int)
    requires packet != []
    ensures Dispatch(s, from, packet) == Request <==> packet[0] % 16 == 0 && |packet| == 1078
    ensures IsDataPrefix(packet[0]) && WireNames(s, from, packet, slot) ==> Dispatch(s, from, packet) == Data(slot)
    ensures IsDataPrefix(packet[0]) && (forall x :: !WireNames(s, from, packet, x)) ==>
              Dispatch(s, from, packet) == if from in s.addresses then Data(s.addresses[from]) else Dropped
    ensures Dispatch(s, from, packet).Data? ==> IsDataPrefix(packet[0])
  {
    if |packet| >= 4 {
      var wire := Le16(packet[1], packet[2]);
      assert wire == packet[1] as int + 256 * packet[2] as int;
      assert wire < |s.conns| % 65536 && s.conns[wire].active && AddressEqual(s.conns[wire].address, from)
        ==> WireNames(s, from, packet, wire);
    }
  }

  // ---------------------------------------------------------------- connections

  /** A request opens a connection if and only if no active connection has its client id and some slot is idle. */
  lemma ConnectExact(s: State, from: Address, clientId: nat, now: real, timeout: real, limits: Limits)
    returns (slot: int)
    requires Inv(s)
    ensures var t := Step(s, Connect(from, clientId, now, timeout), limits);
            if (forall x :: 0 <= x < |s.conns| && s.conns[x].active ==> s.conns[x].clientId != clientId) &&
               (exists x :: 0 <= x < |s.conns| && !s.conns[x].active)
            then 0 <= slot < |s.conns| && !s.conns[slot].active &&
                 t.conns == s.conns[slot := Connection(true, from, clientId, now, timeout)] &&
                 (from in s.addresses || |s.addresses| != limits.addressCapacity ==>
                   t.addresses == s.addresses[from := slot])
            else slot == -1 && t == s
  {
    forall x | 0 <= x < |s.conns| ensures !s.conns[x].active <==> x in s.free {
    }
    if ClientConnected(s, clientId) || s.free == [] {
      slot := -1;
    } else {
      slot := s.free[|s.free| - 1];
      assert slot in s.free;
    }
  }

  /** The packet is for the connection in this slot and opened. */
  predicate Opened(s: State, e: Event, slot: int) {
    e.Packet? && |e.bytes| >= 4 && e.pt.Some? && Dispatch(s, e.sender, e.bytes) == Data(slot)
  }

  /** The event ends the connection: it was silent for longer than its timeout, or it said so itself. */
  predicate Ends(s: State, e: Event, limits: Limits, slot: int)
    requires 0 <= slot < |s.conns|
  {
    (e.Tick? && e.time - s.conns[slot].lastRecv > s.conns[slot].timeout) ||
    (Opened(s, e, slot) && Disconnects(e.pt.value, limits.channels))
  }

  /**
   * What an event other than a request does to an active connection: it is closed if and only if the event ends it,
   * an opened packet for it is the last that was heard of it, and otherwise it stays as it is.
   */
  lemma ConnectionExact(s: State, e: Event, limits: Limits, slot: int)
    requires Inv(s) && InRange(e, |s.conns|) && !e.Connect? && 0 <= slot < |s.conns| && s.conns[slot].active
    ensures |Step(s, e, limits).conns| == |s.conns|
    ensures var c := s.conns[slot];
            Step(s, e, limits).conns[slot] ==
            if Ends(s, e, limits, slot) then IDLE else if Opened(s, e, slot) then c.(lastRecv := e.at) else c
  {
    StepOk(s, e, limits);
    match e
    case Packet(from, bytes, pt, now) =>
      if bytes != [] && Dispatch(s, from, bytes).Data? {
        DispatchReachesSender(s, from, bytes);
      }
    case Tick(now) => SweepExact(s, 0, now);
    case _ =>
  }

  /** Data frames and then a disconnect close the connection; data frames alone do not. */
  lemma DisconnectIsRead(ack: seq<Byte>, frames: seq<F.Frame>, reason: Byte, channels: nat)
    requires |ack| == 8 && forall i :: 0 <= i < |frames| ==> F.IsData(frames[i], channels)
    ensures Disconnects(ack + F.EncodeAll(frames) + [0x06, reason], channels)
    ensures !Disconnects(ack + F.EncodeAll(frames), channels)
  {
    var body := F.EncodeAll(frames);
    F.ParseDisconnect(frames, reason, channels, true);
    F.ParseUndoesWrite(frames, channels, true);
    Assoc(ack, body, [0x06, reason]);
    BodyDecides(ack, body + [0x06, reason], frames + [F.Disconnect(reason)], channels);
    assert frames != [] ==> F.IsData(frames[|frames| - 1], channels);
    BodyDecides(ack, body, frames, channels);
  }

  lemma BodyDecides(ack: seq<Byte>, body: seq<Byte>, frames: seq<F.Frame>, channels: nat)
    requires |ack| == 8 && F.Parse(body, channels, true) == frames
    ensures Disconnects(ack + body, channels) <==> frames != [] && frames[|frames| - 1].Disconnect?
  {
    assert (ack + body)[8..] == body;
  }

  // ---------------------------------------------------------------- groups

  predicate InUse(s: State, g: int) {
    0 <= g < |s.groups| && s.groups[g].Group?
  }

  /** The client joins: the group is in use and not full, and the client is connected. */
  predicate Joins(s: State, e: Event, limits: Limits, g: int, client: int) {
    e == Join(g, client) && InUse(s, g) && 0 <= client < |s.conns| && s.conns[client].active &&
    |s.groups[g].roster.list| < limits.groupCapacity
  }

  /**
   * Who is a member of a group after an event: whoever was and has not left, been closed or lost the group, and
   * whoever joined.
   */
  lemma MembersExact(s: State, e: Event, limits: Limits, g: int, client: int)
    requires Inv(s) && InRange(e, |s.conns|)
    ensures IsMember(Step(s, e, limits), g, client) <==>
              Joins(s, e, limits, g, client) ||
              (IsMember(s, g, client) && e != Leave(g, client) && e != Destroy(g) &&
               !(client < |s.conns| && Ends(s, e, limits, client)))
  {
    if InUse(s, g) {
      assert GroupOk(s.groups[g], s.conns);
    }
    match e
    case Connect(from, clientId, now, timeout) =>
    case Packet(from, bytes, pt, now) => PacketMembers(s, e, limits, g, client);
    case Tick(now) => TickMembers(s, 0, now, g, client);
    case Create => CreateMembers(s, g, client);
    case Destroy(h) =>
    case Join(h, c) =>
      if InUse(s, g) && 0 <= c < |s.conns| && !Has(s.groups[g].roster, c) {
        AddedOk(s.groups[g].roster, c);
      }
    case Leave(h, c) =>
      if InUse(s, g) {
        RemovedOk(s.groups[g].roster, c);
      }
  }

  lemma CreateMembers(s: State, g: int, client: int)
    requires Inv(s)
    ensures IsMember(CreateGroup(s), g, client) <==> IsMember(s, g, client)
  {
    if s.freeGroups != [] {
      assert s.freeGroups[|s.freeGroups| - 1] in s.freeGroups;
    }
  }

  lemma CloseMembers(s: State, slot: int, g: int, client: int)
    requires Inv(s) && Has(s.active, slot)
    ensures IsMember(Close(s, slot), g, client) <==> IsMember(s, g, client) && client != slot
  {
    if InUse(s, g) {
      assert GroupOk(s.groups[g], s.conns);
      RemovedOk(s.groups[g].roster, slot);
    }
  }

  lemma PacketMembers(s: State, e: Event, limits: Limits, g: int, client: int)
    requires Inv(s) && e.Packet?
    ensures IsMember(Step(s, e, limits), g, client) <==>
              IsMember(s, g, client) && !(client < |s.conns| && Ends(s, e, limits, client))
  {
    if InUse(s, g) {
      assert GroupOk(s.groups[g], s.conns);
    }
    if e.bytes != [] && Dispatch(s, e.sender, e.bytes).Data? {
      DispatchReachesSender(s, e.sender, e.bytes);
      var slot := Dispatch(s, e.sender, e.bytes).slot;
      TouchOk(s, slot, e.at);
      CloseMembers(Touch(s, slot, e.at), slot, g, client);
    }
  }

  lemma {:induction false} TickMembers(s: State, a: nat, now: real, g: int, client: int)
    requires Inv(s) && a <= |s.active.list|
    requires forall i :: 0 <= i < a ==> !TimedOut(s.conns[s.active.list[i]], now)
    ensures IsMember(Sweep(s, a, now), g, client) <==>
              IsMember(s, g, client) &&
              !(0 <= client < |s.conns| && now - s.conns[client].lastRecv > s.conns[client].timeout)
    decreases |s.active.list| - a
  {
    if InUse(s, g) {
      assert GroupOk(s.groups[g], s.conns);
    }
    if a < |s.active.list| {
      var slot := s.active.list[a];
      if TimedOut(s.conns[slot], now) {
        CloseOk(s, slot);
        CloseMembers(s, slot, g, client);
        SweptStill(s, a, now);
        TickMembers(Close(s, slot), a, now, g, client);
      } else {
        TickMembers(s, a + 1, now, g, client);
      }
    } else if IsMember(s, g, client) {
      ListIsMap(s.active, client);
    }
  }

  /** The part of the active list already swept is not touched by closing a later position. */
  lemma SweptStill(s: State, a: nat, now: real)
    requires Inv(s) && a < |s.active.list|
    requires forall i :: 0 <= i < a ==> !TimedOut(s.conns[s.active.list[i]], now)
    ensures Has(s.active, s.active.list[a])
    ensures var t := Close(s, s.active.list[a]);
            a <= |t.active.list| && forall i :: 0 <= i < a ==> !TimedOut(t.conns[t.active.list[i]], now)
  {
  }

  /** A new group is in use, has no members and was not in use before; no other group changes. */
  lemma CreateExact(s: State)
    requires Inv(s)
    ensures var t := CreateGroup(s);
            if exists g :: 0 <= g < |s.groups| && !InUse(s, g) then
              exists g :: 0 <= g < |s.groups| && !InUse(s, g) && InUse(t, g) && t.groups[g].roster.list == [] &&
                t.groups == s.groups[g := t.groups[g]]
            else t == s
  {
    if s.freeGroups != [] {
      var g := s.freeGroups[|s.freeGroups| - 1];
      assert g in s.freeGroups && !InUse(s, g);
    }
  }

  // ---------------------------------------------------------------- a connected client is heard

  ghost function RunFrom(s: State, events: seq<Event>, limits: Limits): (t: State)
    requires Inv(s) && forall i :: 0 <= i < |events| ==> InRange(events[i], |s.conns|)
    ensures Inv(t) && |t.conns| == |s.conns|
  {
    if events == [] then s else
      var before := RunFrom(s, events[..|events| - 1], limits);
      StepOk(before, events[|events| - 1], limits);
      Step(before, events[|events| - 1], limits)
  }

  /** The connection in `slot` is the only active one with the address `a`, and the map says so. */
  ghost predicate Sole(s: State, slot: int, a: Address) {
    0 <= slot < |s.conns| && s.conns[slot].active && s.conns[slot].address == a &&
    a in s.addresses && s.addresses[a] == slot &&
    forall x :: 0 <= x < |s.conns| && s.conns[x].active && x != slot ==> !AddressEqual(s.conns[x].address, a)
  }

  lemma SoleIsReached(s: State, slot: int, a: Address, packet: seq<Byte>)
    requires Sole(s, slot, a) && packet != [] && IsDataPrefix(packet[0])
    ensures Dispatch(s, a, packet) == Data(slot)
  {
    DispatchExact(s, a, packet, slot);
    if exists x :: WireNames(s, a, packet, x) {
      var x :| WireNames(s, a, packet, x);
      DispatchExact(s, a, packet, x);
    }
  }

  lemma CloseKeepsSole(s: State, slot: int, a: Address, other: int)
    requires Inv(s) && Sole(s, slot, a) && Has(s.active, other) && other != slot
    ensures Sole(Close(s, other), slot, a)
  {
    assert s.conns[other].active && !AddressEqual(s.conns[other].address, a);
  }

  lemma {:induction false} SweepKeepsSole(s: State, a: nat, now: real, slot: int, address: Address)
    requires Inv(s) && a <= |s.active.list| && Sole(s, slot, address) && !TimedOut(s.conns[slot], now)
    ensures Sole(Sweep(s, a, now), slot, address)
    decreases |s.active.list| - a
  {
    if a < |s.active.list| {
      var other := s.active.list[a];
      if TimedOut(s.conns[other], now) {
        CloseOk(s, other);
        CloseKeepsSole(s, slot, address, other);
        SweepKeepsSole(Close(s, other), a, now, slot, address);
      } else {
        SweepKeepsSole(s, a + 1, now, slot, address);
      }
    }
  }

  /** No request comes from this address. */
  predicate NotFrom(e: Event, a: Address) {
    e.Connect? ==> !AddressEqual(e.from, a)
  }

  lemma HandleKeepsSole(s: State, other: int, length: nat, pt: Option<seq<Byte>>, channels: nat, now: real,
                        slot: int, a: Address)
    requires Inv(s) && Sole(s, slot, a) && Has(s.active, other)
    ensures var t := Handle(s, other, length, pt, channels, now);
            slot < |t.conns| && (t.conns[slot].active ==> Sole(t, slot, a))
  {
    TouchOk(s, other, now);
    assert Sole(Touch(s, other, now), slot, a);
    if other != slot {
      CloseKeepsSole(Touch(s, other, now), slot, a, other);
    }
  }

  lemma StepKeepsSole(s: State, e: Event, limits: Limits, slot: int, a: Address)
    requires Inv(s) && InRange(e, |s.conns|) && Sole(s, slot, a) && NotFrom(e, a)
    requires 0 <= slot < |Step(s, e, limits).conns| && Step(s, e, limits).conns[slot].active
    ensures Sole(Step(s, e, limits), slot, a)
  {
    match e
    case Connect(from, clientId, now, timeout) =>
      if s.free != [] {
        assert s.free[|s.free| - 1] in s.free;
      }
    case Packet(from, bytes, pt, now) =>
      if bytes != [] && Dispatch(s, from, bytes).Data? {
        DispatchReachesSender(s, from, bytes);
        HandleKeepsSole(s, Dispatch(s, from, bytes).slot, |bytes|, pt, limits.channels, now, slot, a);
      }
    case Tick(now) =>
      SweepExact(s, 0, now);
      SweepKeepsSole(s, 0, now, slot, a);
    case _ =>
  }

  /** The connection is still open after `i` events. */
  ghost predicate OpenAt(s: State, events: seq<Event>, limits: Limits, slot: int, i: nat)
    requires Inv(s) && i <= |events| && 0 <= slot < |s.conns|
    requires forall i :: 0 <= i < |events| ==> InRange(events[i], |s.conns|)
  {
    RunFrom(s, events[..i], limits).conns[slot].active
  }

  lemma {:induction false} RunKeepsSole(s: State, events: seq<Event>, limits: Limits, slot: int, a: Address)
    requires Inv(s) && Sole(s, slot, a)
    requires forall i :: 0 <= i < |events| ==> InRange(events[i], |s.conns|) && NotFrom(events[i], a)
    requires forall i: nat {:trigger OpenAt(s, events, limits, slot, i)} ::
               i <= |events| ==> OpenAt(s, events, limits, slot, i)
    ensures Sole(RunFrom(s, events, limits), slot, a)
  {
    if events != [] {
      var front := events[..|events| - 1];
      forall i: nat | i <= |front| ensures OpenAt(s, front, limits, slot, i) {
        assert front[..i] == events[..i] && OpenAt(s, events, limits, slot, i);
      }
      RunKeepsSole(s, front, limits, slot, a);
      assert OpenAt(s, events, limits, slot, |events|) && events[..|events|] == events;
      StepKeepsSole(RunFrom(s, front, limits), events[|events| - 1], limits, slot, a);
    }
  }

  /**
   * A connected client is heard: once a request from an address that no connection has is accepted into a map with
   * room, in every run without another request from that address and until the connection is closed, every data
   * packet from the address goes to its slot, whatever slot id the packet carries.
   */
  lemma ConnectedIsHeard(s: State, from: Address, clientId: nat, now: real, timeout: real, limits: Limits,
                         slot: int, events: seq<Event>, packet: seq<Byte>)
    requires Inv(s) && packet != [] && IsDataPrefix(packet[0])
    requires forall x :: 0 <= x < |s.conns| && s.conns[x].active ==> !AddressEqual(s.conns[x].address, from)
    requires |s.addresses| != limits.addressCapacity
    requires var t := Step(s, Connect(from, clientId, now, timeout), limits);
             0 <= slot < |s.conns| && !s.conns[slot].active && |t.conns| == |s.conns| && t.conns[slot].active && Inv(t)
    requires forall i :: 0 <= i < |events| ==> InRange(events[i], |s.conns|) && NotFrom(events[i], from)
    requires forall i: nat
               {:trigger OpenAt(Step(s, Connect(from, clientId, now, timeout), limits), events, limits, slot, i)} ::
               i <= |events| ==>
                 OpenAt(Step(s, Connect(from, clientId, now, timeout), limits), events, limits, slot, i)
    ensures Dispatch(RunFrom(Step(s, Connect(from, clientId, now, timeout), limits), events, limits), from, packet)
            == Data(slot)
  {
    var t := Step(s, Connect(from, clientId, now, timeout), limits);
    var got := ConnectExact(s, from, clientId, now, timeout, limits);
    assert got == slot && t.conns[slot] == Connection(true, from, clientId, now, timeout);
    RunKeepsSole(t, events, limits, slot, from);
    SoleIsReached(RunFrom(t, events, limits), slot, from, packet);
  }
}
