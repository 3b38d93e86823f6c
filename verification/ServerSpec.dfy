/**
 * The server's connection lifecycle as a state machine (src/server.cpp): the
 * active list with its inverse, the free stack, the connection slots, the
 * address map and the multicast groups.
 */
module ServerSpec {
  import opened Bytes
  import opened Collections
  import F = Frames
  import opened Rosters

  /** The 16 bytes of the address union; IPv4 uses the first four. */
  type AddressData = d: seq<Byte> | |d| == 16 witness [0, 0, 0, 0, 0, 0, 0, 0, 0, 0, 0, 0, 0, 0, 0, 0]

  datatype Address = Address(kind: Byte, data: AddressData, port: int)

  function AddressDataLength(a: Address): (n: nat)
    ensures n <= 16
  {
    if a.kind == 1 then 4 else if a.kind == 2 then 16 else 0
  }

  /** `netudp_address_equal`: only the bytes that the address kind uses count. */
  predicate AddressEqual(a: Address, b: Address) {
    a.kind == b.kind && a.port == b.port && a.data[..AddressDataLength(a)] == b.data[..AddressDataLength(a)]
  }

  datatype Connection = Connection(active: bool, address: Address, clientId: nat, lastRecv: real, timeout: real)

  const NO_ADDRESS := Address(0, [0, 0, 0, 0, 0, 0, 0, 0, 0, 0, 0, 0, 0, 0, 0, 0], 0)

  const IDLE := Connection(false, NO_ADDRESS, 0, 0.0, 10.0)

  datatype Group = NoGroup | Group(roster: Roster)

  datatype State = State(
    conns: seq<Connection>,
    active: Roster,
    free: seq<int>,
    addresses: map<Address, int>,
    groups: seq<Group>,
    freeGroups: seq<int>)

  // ---------------------------------------------------------------- invariant

  /** The active list and the free stack split the slots between them. */
  ghost predicate Partition(active: Roster, free: seq<int>, n: nat) {
    |active.pos| == n && Inverse(active) && Distinct(free) && |active.list| + |free| == n &&
    (forall i :: 0 <= i < |free| ==> 0 <= free[i] < n) &&
    (forall x :: 0 <= x < n ==> (x in free <==> !Has(active, x)))
  }

  predicate SameClient(c: Connection, d: Connection) {
    c.active && d.active && c.clientId == d.clientId
  }

  /** Active slots are exactly the connections marked active, each with its own client id. */
  ghost predicate ConnectionsOk(conns: seq<Connection>, active: Roster) {
    |conns| == |active.pos| &&
    (forall x :: 0 <= x < |conns| ==> (conns[x].active <==> Has(active, x))) &&
    (forall x, y :: 0 <= x < |conns| && 0 <= y < |conns| && SameClient(conns[x], conns[y]) ==> x == y)
  }

  /** Every address entry names an active slot whose connection holds that address. */
  ghost predicate AddressesOk(addresses: map<Address, int>, conns: seq<Connection>) {
    forall a :: a in addresses ==>
      0 <= addresses[a] < |conns| && conns[addresses[a]].active && conns[addresses[a]].address == a
  }

  ghost predicate GroupOk(g: Group, conns: seq<Connection>) {
    g.Group? ==>
      |g.roster.pos| == |conns| && Inverse(g.roster) &&
      forall x :: Has(g.roster, x) ==> conns[x].active
  }

  /** Free group numbers are exactly those of the groups not in use. */
  ghost predicate FreeGroupsOk(groups: seq<Group>, freeGroups: seq<int>) {
    Distinct(freeGroups) && (forall i :: 0 <= i < |freeGroups| ==> 0 <= freeGroups[i] < |groups|) &&
    forall g :: 0 <= g < |groups| ==> (g in freeGroups <==> groups[g].NoGroup?)
  }

  ghost predicate Inv(s: State) {
    Partition(s.active, s.free, |s.conns|) &&
    ConnectionsOk(s.conns, s.active) &&
    AddressesOk(s.addresses, s.conns) &&
    (forall g :: 0 <= g < |s.groups| ==> GroupOk(s.groups[g], s.conns)) &&
    FreeGroupsOk(s.groups, s.freeGroups)
  }

  // ---------------------------------------------------------------- steps

  function Init(maxClients: nat, maxGroups: nat): State {
    State(seq(maxClients, _ => IDLE), EmptyRoster(maxClients), seq(maxClients, i => maxClients - 1 - i),
          map[], seq(maxGroups, _ => NoGroup), seq(maxGroups, i => maxGroups - 1 - i))
  }

  function Expel(g: Group, slot: int): Group
    requires g.Group? ==> Inverse(g.roster)
  {
    if g.NoGroup? then g else Group(Removed(g.roster, slot))
  }

  function ExpelAll(groups: seq<Group>, slot: int): (r: seq<Group>)
    requires forall g :: 0 <= g < |groups| && groups[g].Group? ==> Inverse(groups[g].roster)
    ensures |r| == |groups|
    ensures forall g :: 0 <= g < |groups| ==> r[g] == Expel(groups[g], slot)
  {
    seq(|groups|, g requires 0 <= g < |groups| => Expel(groups[g], slot))
  }

  /** Timeout or disconnect of an active slot. */
  function Close(s: State, slot: int): State
    requires Inv(s) && Has(s.active, slot)
  {
    State(s.conns[slot := IDLE], Removed(s.active, slot), s.free + [slot],
          s.addresses - {s.conns[slot].address}, ExpelAll(s.groups, slot), s.freeGroups)
  }

  predicate ClientConnected(s: State, clientId: nat) {
    exists x :: 0 <= x < |s.conns| && s.conns[x].active && s.conns[x].clientId == clientId
  }

  /** A validated connection request.  A full address map silently refuses the new entry. */
  function Accept(s: State, from: Address, clientId: nat, now: real, timeout: real, capacity: nat): State
    requires Inv(s)
  {
    if ClientConnected(s, clientId) || s.free == [] then s else
      var slot := s.free[|s.free| - 1];
      State(s.conns[slot := Connection(true, from, clientId, now, timeout)], Added(s.active, slot),
            s.free[..|s.free| - 1],
            if from !in s.addresses && |s.addresses| == capacity then s.addresses else s.addresses[from := slot],
            s.groups, s.freeGroups)
  }

  predicate TimedOut(c: Connection, now: real) {
    now - c.lastRecv > c.timeout
  }

  /** The timeout loop from position `a` of the active list. */
  function Sweep(s: State, a: nat, now: real): State
    requires Inv(s) && a <= |s.active.list|
    decreases |s.active.list| - a
  {
    if a == |s.active.list| then s else
      var slot := s.active.list[a];
      if TimedOut(s.conns[slot], now) then
        CloseOk(s, slot);
        Sweep(Close(s, slot), a, now)
      else Sweep(s, a + 1, now)
  }

  function CreateGroup(s: State): State
    requires Inv(s)
  {
    if s.freeGroups == [] then s else
      var top := |s.freeGroups| - 1;
      s.(groups := s.groups[s.freeGroups[top] := Group(EmptyRoster(|s.conns|))], freeGroups := s.freeGroups[..top])
  }

  function DestroyGroup(s: State, g: int): State {
    if 0 <= g < |s.groups| && s.groups[g].Group? then
      s.(groups := s.groups[g := NoGroup], freeGroups := s.freeGroups + [g])
    else s
  }

  /** `groupCapacity` is the member limit of a group. */
  function JoinGroup(s: State, g: int, slot: int, groupCapacity: nat): State
    requires Inv(s)
  {
    if 0 <= g < |s.groups| && s.groups[g].Group? && 0 <= slot < |s.conns| && s.conns[slot].active &&
       !Has(s.groups[g].roster, slot) && |s.groups[g].roster.list| < groupCapacity then
      s.(groups := s.groups[g := Group(Added(s.groups[g].roster, slot))])
    else s
  }

  /** For an index of a client slot; what an index beyond them does depends on the memory behind the group's map. */
  function LeaveGroup(s: State, g: int, slot: int): State
    requires Inv(s) && slot < |s.conns|
  {
    if 0 <= g < |s.groups| && s.groups[g].Group? then
      s.(groups := s.groups[g := Group(Removed(s.groups[g].roster, slot))])
    else s
  }

  predicate IsMember(s: State, g: int, slot: int) {
    0 <= g < |s.groups| && s.groups[g].Group? && Has(s.groups[g].roster, slot)
  }

  /** An authenticated data packet refreshes its connection. */
  function Touch(s: State, slot: int, now: real): State
    requires Has(s.active, slot) && |s.active.pos| == |s.conns|
  {
    s.(conns := s.conns[slot := s.conns[slot].(lastRecv := now)])
  }

  // ---------------------------------------------------------------- dispatch

  datatype Target = Request | Data(slot: int) | Dropped

  const REQUEST_SIZE := 1078
  const REKEY_PREFIX := 0x0C

  /** Which handler a packet reaches: the wire slot id if it checks out, else the address map. */
  function Dispatch(s: State, from: Address, packet: seq<Byte>): Target
    requires packet != []
  {
    var kind := packet[0] % 16;
    if kind == 0 && |packet| == REQUEST_SIZE then Request
    else if 4 <= kind <= 6 || packet[0] == REKEY_PREFIX then
      var wire := if |packet| >= 4 then Le16(packet[1], packet[2]) else 0;
      if |packet| >= 4 && wire < |s.conns| % 0x1_0000 && s.conns[wire].active &&
         AddressEqual(s.conns[wire].address, from) then Data(wire)
      else if from in s.addresses then Data(s.addresses[from])
      else Dropped
    else Dropped
  }

  /** Whether the frames of a plaintext, read as the parse loop reads them, end in a disconnect. */
  predicate Disconnects(pt: seq<Byte>, channels: nat) {
    |pt| >= 8 &&
    var frames := F.Parse(pt[8..], channels, true);
    frames != [] && frames[|frames| - 1].Disconnect?
  }

  /** The data handler; `pt` is the plaintext, if the packet opened.  One that did not changes nothing. */
  function Handle(s: State, slot: int, length: nat, pt: Option<seq<Byte>>, channels: nat, now: real): State
    requires Inv(s) && Has(s.active, slot)
  {
    if length < 4 || pt.None? then s
    else if Disconnects(pt.value, channels) then
      TouchOk(s, slot, now);
      Close(Touch(s, slot, now), slot)
    else Touch(s, slot, now)
  }

  // ---------------------------------------------------------------- every step keeps the invariant

  lemma TouchOk(s: State, slot: int, now: real)
    requires Inv(s) && Has(s.active, slot)
    ensures Inv(Touch(s, slot, now))
  {
    var t := Touch(s, slot, now);
    forall g | 0 <= g < |s.groups| ensures GroupOk(t.groups[g], t.conns) {
      assert GroupOk(s.groups[g], s.conns);
    }
  }

  lemma CloseOk(s: State, slot: int)
    requires Inv(s) && Has(s.active, slot)
    ensures Inv(Close(s, slot)) && |Close(s, slot).active.list| == |s.active.list| - 1
  {
    var t := Close(s, slot);
    PartitionClosed(s.active, s.free, |s.conns|, slot);
    RemovedOk(s.active, slot);
    forall g | 0 <= g < |s.groups| ensures GroupOk(t.groups[g], t.conns) {
      assert GroupOk(s.groups[g], s.conns);
      if s.groups[g].Group? {
        RemovedOk(s.groups[g].roster, slot);
      }
    }
    FreeGroupsKept(s.groups, s.freeGroups, slot);
  }

  lemma PartitionClosed(active: Roster, free: seq<int>, n: nat, slot: int)
    requires Partition(active, free, n) && Has(active, slot)
    ensures Partition(Removed(active, slot), free + [slot], n)
  {
    RemovedOk(active, slot);
    assert slot !in free;
  }

  lemma PartitionOpened(active: Roster, free: seq<int>, n: nat)
    requires Partition(active, free, n) && free != []
    ensures 0 <= free[|free| - 1] < n && !Has(active, free[|free| - 1])
    ensures Partition(Added(active, free[|free| - 1]), free[..|free| - 1], n)
  {
    var slot, rest := free[|free| - 1], free[..|free| - 1];
    assert slot in free;
    AddedOk(active, slot);
    assert forall x :: x in free <==> x in rest || x == slot;
  }

  lemma FreeGroupsKept(groups: seq<Group>, freeGroups: seq<int>, slot: int)
    requires FreeGroupsOk(groups, freeGroups)
    requires forall g :: 0 <= g < |groups| && groups[g].Group? ==> Inverse(groups[g].roster)
    ensures FreeGroupsOk(ExpelAll(groups, slot), freeGroups)
  {
  }

  lemma AcceptOk(s: State, from: Address, clientId: nat, now: real, timeout: real, capacity: nat)
    requires Inv(s)
    ensures Inv(Accept(s, from, clientId, now, timeout, capacity))
  {
    if !ClientConnected(s, clientId) && s.free != [] {
      var t := Accept(s, from, clientId, now, timeout, capacity);
      PartitionOpened(s.active, s.free, |s.conns|);
      AddedOk(s.active, s.free[|s.free| - 1]);
      ConnectionOpened(s, s.free[|s.free| - 1], t.conns[s.free[|s.free| - 1]]);
    }
  }

  /** A request that is accepted gets the top of the free stack, which was idle. */
  lemma AcceptSlot(s: State, from: Address, clientId: nat, now: real, timeout: real, capacity: nat)
    requires Inv(s) && !ClientConnected(s, clientId) && s.free != []
    ensures var slot := s.free[|s.free| - 1];
            0 <= slot < |s.conns| && !Has(s.active, slot) &&
            Has(Accept(s, from, clientId, now, timeout, capacity).active, slot)
  {
    assert s.free[|s.free| - 1] in s.free;
  }

  /** An accepted request, field by field. */
  lemma AcceptIs(s: State, t: State, slot: int, from: Address, clientId: nat, now: real, timeout: real, capacity: nat)
    requires Inv(s) && !ClientConnected(s, clientId) && s.free != [] && slot == s.free[|s.free| - 1]
    requires 0 <= slot < |s.conns| && t.conns == s.conns[slot := Connection(true, from, clientId, now, timeout)]
    requires t.active == Added(s.active, slot) && t.free == s.free[..|s.free| - 1]
    requires t.addresses ==
             if from !in s.addresses && |s.addresses| == capacity then s.addresses else s.addresses[from := slot]
    requires t.groups == s.groups && t.freeGroups == s.freeGroups
    ensures t == Accept(s, from, clientId, now, timeout, capacity)
  {
  }

  lemma ConnectionOpened(s: State, slot: int, c: Connection)
    requires Inv(s) && 0 <= slot < |s.conns| && !Has(s.active, slot) && c.active && !ClientConnected(s, c.clientId)
    ensures ConnectionsOk(s.conns[slot := c], Added(s.active, slot))
    ensures AddressesOk(s.addresses, s.conns[slot := c])
    ensures AddressesOk(s.addresses[c.address := slot], s.conns[slot := c])
    ensures forall g :: 0 <= g < |s.groups| ==> GroupOk(s.groups[g], s.conns[slot := c])
  {
    AddedOk(s.active, slot);
    forall g | 0 <= g < |s.groups| ensures GroupOk(s.groups[g], s.conns[slot := c]) {
      assert GroupOk(s.groups[g], s.conns);
    }
  }

  lemma CreateGroupOk(s: State)
    requires Inv(s)
    ensures Inv(CreateGroup(s))
  {
    if s.freeGroups != [] {
      var t := CreateGroup(s);
      var top := |s.freeGroups| - 1;
      assert forall x :: x in s.freeGroups <==> x in t.freeGroups || x == s.freeGroups[top];
      assert s.freeGroups[top] !in t.freeGroups;
      assert Inverse(EmptyRoster(|s.conns|));
    }
  }

  lemma DestroyGroupOk(s: State, g: int)
    requires Inv(s)
    ensures Inv(DestroyGroup(s, g))
  {
    assert 0 <= g < |s.groups| && s.groups[g].Group? ==> g !in s.freeGroups;
  }

  lemma JoinGroupOk(s: State, g: int, slot: int, groupCapacity: nat)
    requires Inv(s)
    ensures Inv(JoinGroup(s, g, slot, groupCapacity))
  {
    if 0 <= g < |s.groups| && s.groups[g].Group? && 0 <= slot < |s.conns| && !Has(s.groups[g].roster, slot) {
      assert GroupOk(s.groups[g], s.conns);
      AddedOk(s.groups[g].roster, slot);
    }
  }

  lemma LeaveGroupOk(s: State, g: int, slot: int)
    requires Inv(s) && slot < |s.conns|
    ensures Inv(LeaveGroup(s, g, slot))
  {
    if 0 <= g < |s.groups| && s.groups[g].Group? {
      assert GroupOk(s.groups[g], s.conns);
      RemovedOk(s.groups[g].roster, slot);
    }
  }

  lemma {:induction false} SweepOk(s: State, a: nat, now: real)
    requires Inv(s) && a <= |s.active.list|
    ensures Inv(Sweep(s, a, now))
    ensures |Sweep(s, a, now).conns| == |s.conns| && |Sweep(s, a, now).groups| == |s.groups|
    decreases |s.active.list| - a
  {
    if a < |s.active.list| {
      var slot := s.active.list[a];
      if TimedOut(s.conns[slot], now) {
        CloseOk(s, slot);
        SweepOk(Close(s, slot), a, now);
      } else {
        SweepOk(s, a + 1, now);
      }
    }
  }

  /** The connection in the slot is active and has the sender's address. */
  ghost predicate IsSenders(s: State, slot: int, from: Address) {
    Has(s.active, slot) && slot < |s.conns| && s.conns[slot].active && AddressEqual(s.conns[slot].address, from)
  }

  lemma MappedIsSenders(s: State, from: Address)
    requires Inv(s) && from in s.addresses
    ensures IsSenders(s, s.addresses[from], from)
  {
    var slot := s.addresses[from];
    assert s.conns[slot].active && s.conns[slot].address == from;
  }

  lemma ActiveIsSenders(s: State, slot: nat, from: Address)
    requires Inv(s) && slot < |s.conns| && s.conns[slot].active && AddressEqual(s.conns[slot].address, from)
    ensures IsSenders(s, slot, from)
  {
  }

  /** A data packet only ever reaches an active connection whose address is the sender's. */
  lemma DispatchReachesSender(s: State, from: Address, packet: seq<Byte>)
    requires Inv(s) && packet != []
    ensures Dispatch(s, from, packet).Data? ==> IsSenders(s, Dispatch(s, from, packet).slot, from)
  {
    var target := Dispatch(s, from, packet);
    if target.Data? {
      if from in s.addresses && target.slot == s.addresses[from] {
        MappedIsSenders(s, from);
      } else {
        ActiveIsSenders(s, target.slot, from);
      }
    }
  }

  /** The timeout loop closes exactly the connections that have timed out. */
  lemma {:induction false} SweepExact(s: State, a: nat, now: real)
    requires Inv(s) && a <= |s.active.list|
    requires forall i :: 0 <= i < a ==> !TimedOut(s.conns[s.active.list[i]], now)
    ensures |Sweep(s, a, now).conns| == |s.conns|
    ensures forall x :: 0 <= x < |s.conns| ==>
              Sweep(s, a, now).conns[x] == if s.conns[x].active && TimedOut(s.conns[x], now) then IDLE else s.conns[x]
    decreases |s.active.list| - a
  {
    if a < |s.active.list| {
      var slot := s.active.list[a];
      if TimedOut(s.conns[slot], now) {
        CloseOk(s, slot);
        SweepExact(Close(s, slot), a, now);
      } else {
        SweepExact(s, a + 1, now);
      }
    } else {
      forall x | 0 <= x < |s.conns| ensures !(s.conns[x].active && TimedOut(s.conns[x], now)) {
        ListIsMap(s.active, x);
      }
    }
  }

  // ---------------------------------------------------------------- runs

  datatype Event =
    | Connect(from: Address, clientId: nat, now: real, timeout: real)
    | Packet(sender: Address, bytes: seq<Byte>, pt: Option<seq<Byte>>, at: real)
    | Tick(time: real)
    | Create
    | Destroy(group: int)
    | Join(toGroup: int, client: int)
    | Leave(fromGroup: int, member: int)

  datatype Limits = Limits(maxClients: nat, maxGroups: nat, addressCapacity: nat, groupCapacity: nat, channels: nat)

  /** A leave call names no slot beyond the clients: the source does not refuse one that does. */
  predicate InRange(e: Event, clients: nat) {
    e.Leave? ==> e.member < clients
  }

  function Step(s: State, e: Event, limits: Limits): State
    requires Inv(s) && InRange(e, |s.conns|)
  {
    match e
    case Connect(from, clientId, now, timeout) => Accept(s, from, clientId, now, timeout, limits.addressCapacity)
    case Packet(from, bytes, pt, now) =>
      if bytes == [] || !Dispatch(s, from, bytes).Data? then s else
        DispatchReachesSender(s, from, bytes);
        Handle(s, Dispatch(s, from, bytes).slot, |bytes|, pt, limits.channels, now)
    case Tick(now) => Sweep(s, 0, now)
    case Create => CreateGroup(s)
    case Destroy(g) => DestroyGroup(s, g)
    case Join(g, slot) => JoinGroup(s, g, slot, limits.groupCapacity)
    case Leave(g, slot) => LeaveGroup(s, g, slot)
  }

  lemma HandleOk(s: State, slot: int, length: nat, pt: Option<seq<Byte>>, channels: nat, now: real)
    requires Inv(s) && Has(s.active, slot)
    ensures var t := Handle(s, slot, length, pt, channels, now);
            Inv(t) && |t.conns| == |s.conns| && |t.groups| == |s.groups|
  {
    TouchOk(s, slot, now);
    CloseOk(Touch(s, slot, now), slot);
  }

  lemma StepOk(s: State, e: Event, limits: Limits)
    requires Inv(s) && InRange(e, |s.conns|)
    ensures Inv(Step(s, e, limits))
    ensures |Step(s, e, limits).conns| == |s.conns| && |Step(s, e, limits).groups| == |s.groups|
  {
    match e
    case Connect(from, clientId, now, timeout) => AcceptOk(s, from, clientId, now, timeout, limits.addressCapacity);
    case Packet(from, bytes, pt, now) =>
      if bytes != [] && Dispatch(s, from, bytes).Data? {
        DispatchReachesSender(s, from, bytes);
        HandleOk(s, Dispatch(s, from, bytes).slot, |bytes|, pt, limits.channels, now);
      }
    case Tick(now) => SweepOk(s, 0, now);
    case Create => CreateGroupOk(s);
    case Destroy(g) => DestroyGroupOk(s, g);
    case Join(g, slot) => JoinGroupOk(s, g, slot, limits.groupCapacity);
    case Leave(g, slot) => LeaveGroupOk(s, g, slot);
  }

  lemma InitOk(maxClients: nat, maxGroups: nat)
    ensures Inv(Init(maxClients, maxGroups))
  {
    var s := Init(maxClients, maxGroups);
    forall x | 0 <= x < maxClients ensures x in s.free {
      assert s.free[maxClients - 1 - x] == x;
    }
    forall g | 0 <= g < maxGroups ensures g in s.freeGroups {
      assert s.freeGroups[maxGroups - 1 - g] == g;
    }
  }

  /** The state after a run of any events; the invariant holds in all of them. */
  ghost function Run(events: seq<Event>, limits: Limits): (s: State)
    requires forall i :: 0 <= i < |events| ==> InRange(events[i], limits.maxClients)
    ensures Inv(s) && |s.conns| == limits.maxClients && |s.groups| == limits.maxGroups
  {
    if events == [] then
      InitOk(limits.maxClients, limits.maxGroups);
      Init(limits.maxClients, limits.maxGroups)
    else
      var before := Run(events[..|events| - 1], limits);
      StepOk(before, events[|events| - 1], limits);
      Step(before, events[|events| - 1], limits)
  }

  /** In every run, a data packet only reaches an active connection whose address is the sender's. */
  lemma EveryRunDispatchesToSender(events: seq<Event>, limits: Limits, from: Address, packet: seq<Byte>)
    requires packet != [] && forall i :: 0 <= i < |events| ==> InRange(events[i], limits.maxClients)
    ensures var s := Run(events, limits);
            Dispatch(s, from, packet).Data? ==> IsSenders(s, Dispatch(s, from, packet).slot, from)
  {
    DispatchReachesSender(Run(events, limits), from, packet);
  }

  // ---------------------------------------------------------------- the converse

  /** Every active connection can be found through the address map. */
  ghost predicate AllMapped(s: State) {
    forall x :: 0 <= x < |s.conns| && s.conns[x].active ==> s.conns[x].address in s.addresses
  }

  /** Closing a slot unmaps another connection exactly when the two share an address. */
  lemma CloseKeepsMappedIff(s: State, slot: int)
    requires Inv(s) && AllMapped(s) && Has(s.active, slot)
    ensures AllMapped(Close(s, slot)) <==>
              forall x :: 0 <= x < |s.conns| && x != slot && s.conns[x].active ==>
                s.conns[x].address != s.conns[slot].address
  {
    var t := Close(s, slot);
    assert forall x :: 0 <= x < |s.conns| && x != slot ==> t.conns[x] == s.conns[x];
    assert !t.conns[slot].active;
  }

  /** A new connection is mapped exactly when the address map has room for it. */
  lemma AcceptKeepsMappedIff(s: State, from: Address, clientId: nat, now: real, timeout: real, capacity: nat)
    requires Inv(s) && AllMapped(s) && !ClientConnected(s, clientId) && s.free != []
    ensures AllMapped(Accept(s, from, clientId, now, timeout, capacity)) <==>
              from in s.addresses || |s.addresses| != capacity
  {
    var t := Accept(s, from, clientId, now, timeout, capacity);
    var slot := s.free[|s.free| - 1];
    assert t.conns[slot] == Connection(true, from, clientId, now, timeout);
    assert forall x :: 0 <= x < |s.conns| && x != slot ==> t.conns[x] == s.conns[x];
  }
}
