/**
 * The server's slot bookkeeping and connection lifecycle (src/server.cpp), as
 * arrays and counters updated in place.  Every method acts on `State()` exactly as
 * the step of the same name in ServerSpec.
 */
module Server {
  import opened Bytes
  import opened Collections
  import opened HashMap
  import opened Rosters
  import opened Groups
  import opened Frames
  import S = ServerSpec

  /** The active list, its inverse and the free stack. */
  class SlotTable {
    const n: nat
    const activeSlots: array<int>
    const freeSlots: array<int>
    const slotToActive: array<int>
    var activeCount: int
    var freeCount: int

    ghost predicate Shape()
      reads this
    {
      activeSlots != freeSlots && activeSlots != slotToActive && freeSlots != slotToActive &&
      activeSlots.Length == freeSlots.Length == slotToActive.Length == n &&
      0 <= activeCount <= n && 0 <= freeCount <= n
    }

    ghost function Active(): Roster
      requires Shape()
      reads this, activeSlots, slotToActive
    {
      Roster(activeSlots[..activeCount], slotToActive[..])
    }

    ghost function Free(): seq<int>
      requires Shape()
      reads this, freeSlots
    {
      freeSlots[..freeCount]
    }

    ghost predicate Valid()
      reads this, activeSlots, freeSlots, slotToActive
    {
      Shape() && S.Partition(Active(), Free(), n)
    }

    constructor (maxClients: nat)
      ensures Valid() && n == maxClients
      ensures fresh(activeSlots) && fresh(freeSlots) && fresh(slotToActive)
      ensures Active() == EmptyRoster(maxClients) && Free() == seq(maxClients, i => maxClients - 1 - i)
    {
      n := maxClients;
      activeSlots := new int[maxClients](_ => 0);
      freeSlots := new int[maxClients](i => maxClients - 1 - i);
      slotToActive := new int[maxClients](_ => -1);
      activeCount, freeCount := 0, maxClients;
      new;
      S.InitOk(maxClients, 0);
      assert Active() == S.Init(maxClients, 0).active;
      assert Free() == S.Init(maxClients, 0).free;
    }

    /** Pops the free stack and appends to the active list. */
    method Activate() returns (slot: int)
      requires Valid() && freeCount > 0
      modifies this`activeCount, this`freeCount, activeSlots, slotToActive
      ensures Valid() && slot == old(Free())[old(freeCount) - 1] && 0 <= slot < n
      ensures Active() == Added(old(Active()), slot) && Free() == old(Free())[..old(freeCount) - 1]
    {
      freeCount := freeCount - 1;
      slot := freeSlots[freeCount];
      assert old(Free())[freeCount] == slot;
      S.PartitionOpened(old(Active()), old(Free()), n);
      slotToActive[slot] := activeCount;
      activeSlots[activeCount] := slot;
      activeCount := activeCount + 1;
      assert Free() == old(Free())[..old(freeCount) - 1];
      assert Active().list == old(Active()).list + [slot];
      assert Active().pos == old(Active()).pos[slot := |old(Active()).list|];
    }

    method Deactivate(slot: int)
      requires Valid() && 0 <= slot < n
      modifies this`activeCount, this`freeCount, activeSlots, slotToActive, freeSlots
      ensures Valid()
      ensures Active() == Removed(old(Active()), slot)
      ensures Free() == if Has(old(Active()), slot) then old(Free()) + [slot] else old(Free())
    {
      ghost var r := Active();
      var pos := slotToActive[slot];
      if pos < 0 {
        return;
      }
      S.PartitionClosed(r, Free(), n, slot);
      assert r.list[r.pos[slot]] == slot;
      activeCount := activeCount - 1;
      var last := activeCount;
      assert r.list[last] == activeSlots[last];
      if pos < last {
        var moved := activeSlots[last];
        activeSlots[pos] := moved;
        slotToActive[moved] := pos;
      }
      slotToActive[slot] := -1;
      assert Active().list == Removed(r, slot).list;
      freeSlots[freeCount] := slot;
      freeCount := freeCount + 1;
      assert Free() == old(Free()) + [slot];
    }
  }

  class Server {
    const conns: array<S.Connection>
    const slots: SlotTable
    const addresses: FixedHashMap<S.Address, int>
    const groups: GroupTable

    ghost predicate Separate()
    {
      groups.memberPool != slots.activeSlots && groups.memberPool != slots.freeSlots &&
      groups.memberPool != slots.slotToActive &&
      groups.slotPool != slots.activeSlots && groups.slotPool != slots.freeSlots &&
      groups.slotPool != slots.slotToActive &&
      groups.freeStack != slots.activeSlots && groups.freeStack != slots.freeSlots &&
      groups.freeStack != slots.slotToActive
    }

    ghost predicate Parts()
      reads slots, slots.activeSlots, slots.freeSlots, slots.slotToActive
      reads groups, groups.records, groups.memberPool, groups.slotPool, groups.freeStack
      reads addresses, addresses.slots
    {
      Separate() && slots.Valid() && groups.Valid() && addresses.Valid() &&
      conns.Length == slots.n == groups.n
    }

    ghost function State(): S.State
      requires Parts()
      reads conns, slots, slots.activeSlots, slots.freeSlots, slots.slotToActive
      reads groups, groups.records, groups.memberPool, groups.slotPool, groups.freeStack
      reads addresses, addresses.slots
    {
      S.State(conns[..], slots.Active(), slots.Free(), addresses.Contents(), groups.Groups(), groups.Free())
    }

    ghost predicate Valid()
      reads conns, slots, slots.activeSlots, slots.freeSlots, slots.slotToActive
      reads groups, groups.records, groups.memberPool, groups.slotPool, groups.freeStack
      reads addresses, addresses.slots
    {
      Parts() && S.Inv(State())
    }

    constructor (maxClients: nat, maxGroups: nat, groupCapacity: nat, addressCapacity: nat, hash: S.Address -> nat)
      requires 0 < addressCapacity
      ensures Valid() && State() == S.Init(maxClients, maxGroups)
      ensures addresses.slots.Length == addressCapacity && groups.capacity == groupCapacity
    {
      conns := new S.Connection[maxClients](_ => S.IDLE);
      slots := new SlotTable(maxClients);
      addresses := new FixedHashMap(addressCapacity, hash, S.NO_ADDRESS, 0);
      groups := new GroupTable(maxClients, maxGroups, groupCapacity);
      new;
      S.InitOk(maxClients, maxGroups);
      assert conns[..] == S.Init(maxClients, maxGroups).conns;
      assert groups.Groups() == S.Init(maxClients, maxGroups).groups;
    }

    /** Timeout or disconnect: unmap the address, free the slot, leave all groups, reset. */
    method Close(slot: int)
      requires Valid() && Has(State().active, slot)
      modifies conns, slots, slots.activeSlots, slots.freeSlots, slots.slotToActive
      modifies groups.records, groups.memberPool, groups.slotPool, addresses, addresses.slots
      ensures Valid() && State() == S.Close(old(State()), slot)
    {
      ghost var s := State();
      S.CloseOk(s, slot);
      Release(slot);
      assert State() == S.Close(s, slot);
    }

    method Release(slot: int)
      requires Parts() && Has(slots.Active(), slot)
      modifies conns, slots, slots.activeSlots, slots.freeSlots, slots.slotToActive
      modifies groups.records, groups.memberPool, groups.slotPool, addresses, addresses.slots
      ensures Parts()
      ensures conns[..] == old(conns[..])[slot := S.IDLE]
      ensures slots.Active() == Removed(old(slots.Active()), slot) && slots.Free() == old(slots.Free()) + [slot]
      ensures addresses.Contents() == old(addresses.Contents()) - {old(conns[slot].address)}
      ensures groups.Groups() == S.ExpelAll(old(groups.Groups()), slot) && groups.Free() == old(groups.Free())
    {
      var found := addresses.Remove(conns[slot].address);
      CloseSlot(slot);
      groups.RemoveFromAll(slot);
      conns[slot] := S.IDLE;
    }

    method CloseSlot(slot: int)
      requires Parts() && Has(slots.Active(), slot)
      modifies slots, slots.activeSlots, slots.freeSlots, slots.slotToActive
      ensures Parts()
      ensures slots.Active() == Removed(old(slots.Active()), slot) && slots.Free() == old(slots.Free()) + [slot]
      ensures addresses.Contents() == old(addresses.Contents())
      ensures groups.Groups() == old(groups.Groups()) && groups.Free() == old(groups.Free())
    {
      slots.Deactivate(slot);
    }

    method FindClient(clientId: nat) returns (found: bool)
      requires Valid()
      ensures found <==> S.ClientConnected(State(), clientId)
    {
      for i := 0 to conns.Length
        invariant forall x :: 0 <= x < i ==> !(conns[x].active && conns[x].clientId == clientId)
      {
        if conns[i].active && conns[i].clientId == clientId {
          assert State().conns[i] == conns[i];
          return true;
        }
      }
      return false;
    }

    /** A connection request whose token has been validated. */
    method Accept(from: S.Address, clientId: nat, now: real, timeout: real) returns (slot: int)
      requires Valid()
      modifies conns, slots, slots.activeSlots, slots.slotToActive, addresses, addresses.slots
      ensures Valid()
      ensures State() == S.Accept(old(State()), from, clientId, now, timeout, addresses.slots.Length)
      ensures slot == -1 <==> S.ClientConnected(old(State()), clientId) || old(State()).free == []
      ensures slot != -1 ==> Has(State().active, slot) && !Has(old(State()).active, slot)
    {
      ghost var s := State();
      S.AcceptOk(s, from, clientId, now, timeout, addresses.slots.Length);
      var found := FindClient(clientId);
      if found || slots.freeCount <= 0 {
        return -1;
      }
      S.AcceptSlot(s, from, clientId, now, timeout, addresses.slots.Length);
      slot := Admit(from, clientId, now, timeout);
    }

    method Admit(from: S.Address, clientId: nat, now: real, timeout: real) returns (slot: int)
      requires Valid() && !S.ClientConnected(State(), clientId) && slots.freeCount > 0
      modifies conns, slots, slots.activeSlots, slots.slotToActive, addresses, addresses.slots
      ensures Parts() && State() == S.Accept(old(State()), from, clientId, now, timeout, addresses.slots.Length)
      ensures slot == old(slots.Free())[|old(slots.Free())| - 1]
    {
      ghost var s := State();
      slot := Occupy(from, S.Connection(true, from, clientId, now, timeout));
      S.AcceptIs(s, State(), slot, from, clientId, now, timeout, addresses.slots.Length);
    }

    method Occupy(from: S.Address, c: S.Connection) returns (slot: int)
      requires Parts() && slots.freeCount > 0
      modifies conns, slots, slots.activeSlots, slots.slotToActive, addresses, addresses.slots
      ensures Parts() && slot == old(slots.Free())[|old(slots.Free())| - 1] && 0 <= slot < conns.Length
      ensures conns[..] == old(conns[..])[slot := c]
      ensures slots.Active() == Added(old(slots.Active()), slot)
      ensures slots.Free() == old(slots.Free())[..|old(slots.Free())| - 1]
      ensures var m := old(addresses.Contents());
              addresses.Contents() == if from !in m && |m| == addresses.slots.Length then m else m[from := slot]
      ensures groups.Groups() == old(groups.Groups()) && groups.Free() == old(groups.Free())
    {
      slot := OpenSlot();
      conns[slot] := c;
      MapAddress(from, slot);
    }

    method MapAddress(from: S.Address, slot: int)
      requires Parts()
      modifies addresses, addresses.slots
      ensures Parts()
      ensures var m := old(addresses.Contents());
              addresses.Contents() == if from !in m && |m| == addresses.slots.Length then m else m[from := slot]
      ensures slots.Active() == old(slots.Active()) && slots.Free() == old(slots.Free())
      ensures groups.Groups() == old(groups.Groups()) && groups.Free() == old(groups.Free())
    {
      var p := addresses.Insert(from, slot);
    }

    method OpenSlot() returns (slot: int)
      requires Parts() && slots.freeCount > 0
      modifies slots, slots.activeSlots, slots.slotToActive
      ensures Parts() && slot == old(slots.Free())[|old(slots.Free())| - 1] && 0 <= slot < conns.Length
      ensures slots.Active() == Added(old(slots.Active()), slot)
      ensures slots.Free() == old(slots.Free())[..|old(slots.Free())| - 1]
      ensures addresses.Contents() == old(addresses.Contents())
      ensures groups.Groups() == old(groups.Groups()) && groups.Free() == old(groups.Free())
    {
      slot := slots.Activate();
    }

    /** The timeout check over the active list. */
    method CheckTimeouts(now: real)
      requires Valid()
      modifies conns, slots, slots.activeSlots, slots.freeSlots, slots.slotToActive
      modifies groups.records, groups.memberPool, groups.slotPool, addresses, addresses.slots
      ensures Valid() && State() == S.Sweep(old(State()), 0, now)
    {
      var a := 0;
      while a < slots.activeCount
        invariant Valid() && 0 <= a <= slots.activeCount
        invariant S.Sweep(State(), a, now) == S.Sweep(old(State()), 0, now)
        decreases slots.activeCount - a
      {
        a := TimeoutStep(a, now);
      }
    }

    /** One round of the timeout check: after a swap-remove the same position is looked at again. */
    method TimeoutStep(a: int, now: real) returns (next: int)
      requires Valid() && 0 <= a < slots.activeCount
      modifies conns, slots, slots.activeSlots, slots.freeSlots, slots.slotToActive
      modifies groups.records, groups.memberPool, groups.slotPool, addresses, addresses.slots
      ensures Valid() && 0 <= next <= slots.activeCount && slots.activeCount - next < old(slots.activeCount) - a
      ensures S.Sweep(State(), next, now) == S.Sweep(old(State()), a, now)
    {
      ghost var s := State();
      var slot := slots.activeSlots[a];
      assert s.active.list[a] == slot;
      if now - conns[slot].lastRecv > conns[slot].timeout {
        S.CloseOk(s, slot);
        Close(slot);
        assert slots.activeCount == |State().active.list|;
        return a;
      }
      return a + 1;
    }

    /** Finds the handler of a packet; the slot of a data packet, or -1. */
    method Dispatch(from: S.Address, packet: seq<Byte>) returns (target: S.Target)
      requires Valid() && packet != []
      ensures target == S.Dispatch(State(), from, packet)
      ensures target.Data? ==> Has(State().active, target.slot) && S.AddressEqual(conns[target.slot].address, from)
    {
      S.DispatchReachesSender(State(), from, packet);
      var prefix := packet[0];
      var kind := prefix % 16;
      if kind == 0 && |packet| == S.REQUEST_SIZE {
        return S.Request;
      }
      if !(4 <= kind <= 6) && prefix != S.REKEY_PREFIX {
        return S.Dropped;
      }
      if |packet| >= 4 {
        var wire := Le16(packet[1], packet[2]);
        if wire < conns.Length % 0x1_0000 &&
           conns[wire].active && S.AddressEqual(conns[wire].address, from) {
          return S.Data(wire);
        }
      }
      var p := addresses.Find(from);
      if p != -1 {
        return S.Data(addresses.slots[p].value);
      }
      return S.Dropped;
    }

    /** Notes when a connection was last heard of. */
    method Refresh(slot: int, now: real)
      requires Valid() && Has(State().active, slot)
      modifies conns
      ensures Valid() && State() == S.Touch(old(State()), slot, now)
    {
      ghost var s := State();
      S.TouchOk(s, slot, now);
      conns[slot] := conns[slot].(lastRecv := now);
      assert State() == S.Touch(s, slot, now);
    }

    /** Whether the parse loop ends at a disconnect frame. */
    method Leaves(pt: seq<Byte>, channels: nat) returns (b: bool)
      ensures b <==> S.Disconnects(pt, channels)
    {
      var frames := ParsePayload(pt, channels, true);
      return frames != [] && frames[|frames| - 1].Disconnect?;
    }

    /** A data packet whose plaintext, if it opened, is `pt`. */
    method HandleData(slot: int, length: nat, pt: Option<seq<Byte>>, channels: nat, now: real)
      requires Valid() && Has(State().active, slot)
      modifies conns, slots, slots.activeSlots, slots.freeSlots, slots.slotToActive
      modifies groups.records, groups.memberPool, groups.slotPool, addresses, addresses.slots
      ensures Valid() && State() == S.Handle(old(State()), slot, length, pt, channels, now)
    {
      if length < 4 || pt.None? {
        return;
      }
      var leaves := Leaves(pt.value, channels);
      Refresh(slot, now);
      if leaves {
        Close(slot);
      }
    }

    method GroupCreate() returns (idx: int)
      requires Valid()
      modifies groups, groups.records, groups.slotPool
      ensures Valid() && State() == S.CreateGroup(old(State()))
      ensures var free := old(State()).freeGroups; idx == if free == [] then -1 else free[|free| - 1]
    {
      ghost var s := State();
      S.CreateGroupOk(s);
      idx := groups.Create();
      assert State() == S.CreateGroup(s);
    }

    method GroupDestroy(g: int)
      requires Valid()
      modifies groups, groups.records, groups.slotPool, groups.freeStack
      ensures Valid() && State() == S.DestroyGroup(old(State()), g)
    {
      ghost var s := State();
      S.DestroyGroupOk(s, g);
      groups.Destroy(g);
      assert State() == S.DestroyGroup(s, g);
    }

    method GroupAdd(g: int, client: int) returns (ok: bool)
      requires Valid()
      modifies groups.records, groups.memberPool, groups.slotPool
      ensures Valid() && State() == S.JoinGroup(old(State()), g, client, groups.capacity)
      ensures ok <==> State() != old(State())
    {
      ghost var s := State();
      S.JoinGroupOk(s, g, client, groups.capacity);
      if g < 0 || g >= groups.records.Length || !groups.records[g].active {
        return false;
      }
      if client < 0 || client >= conns.Length || !conns[client].active {
        return false;
      }
      ok := groups.Add(g, client);
      assert State() == S.JoinGroup(s, g, client, groups.capacity);
    }

    /** A client index beyond the slots is not refused; it may be any that lies in the pool. */
    method GroupRemove(g: int, client: int) returns (ok: bool)
      requires Valid() && (0 <= g < groups.records.Length ==> groups.InPool(g, client))
      modifies groups.records, groups.memberPool, groups.slotPool
      ensures Valid() <==> client < conns.Length || !ok
      ensures client < conns.Length ==> State() == S.LeaveGroup(old(State()), g, client)
      ensures client < conns.Length ==> (ok <==> S.IsMember(old(State()), g, client))
      ensures client >= conns.Length && !ok ==> State() == old(State())
    {
      ghost var s := State();
      if client < conns.Length {
        S.LeaveGroupOk(s, g, client);
      }
      if g < 0 || g >= groups.records.Length || !groups.records[g].active {
        return false;
      }
      ok := groups.Remove(g, client);
      assert client < conns.Length ==> State() == S.LeaveGroup(s, g, client);
    }
  }
}
