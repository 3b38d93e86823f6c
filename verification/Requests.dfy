/**
 * Connection requests (src/server.cpp, server_handle_connection_request): the token's fingerprint binds a token to
 * the first address that used it, before the server looks for a free slot.
 */
module Requests {
  import opened HashMap
  import opened Server
  import S = ServerSpec

  /** A request whose token has been decrypted and is in date. */
  datatype Request = Request(from: S.Address, clientId: nat, fingerprint: nat, expire: nat, timeout: real)

  /** The address a token was first used from. */
  datatype Seen = Seen(address: S.Address, expire: nat)

  datatype Front = Front(state: S.State, seen: map<nat, Seen>)

  datatype Capacities = Capacities(addresses: nat, fingerprints: nat)

  /** The token was used from another address. */
  predicate Replayed(f: Front, r: Request) {
    r.fingerprint in f.seen && !S.AddressEqual(f.seen[r.fingerprint].address, r.from)
  }

  /** The fingerprint map after a request; a full map silently refuses a new entry. */
  function Noted(seen: map<nat, Seen>, r: Request, capacity: nat): map<nat, Seen> {
    if r.fingerprint !in seen && |seen| == capacity then seen else seen[r.fingerprint := Seen(r.from, r.expire)]
  }

  function Handle(f: Front, r: Request, now: real, c: Capacities): Front
    requires S.Inv(f.state)
  {
    if S.ClientConnected(f.state, r.clientId) || Replayed(f, r) then f else
      Front(S.Accept(f.state, r.from, r.clientId, now, r.timeout, c.addresses), Noted(f.seen, r, c.fingerprints))
  }

  /** The request passes the checks before the slot allocation. */
  predicate Passes(f: Front, r: Request) {
    !S.ClientConnected(f.state, r.clientId) && !Replayed(f, r)
  }

  /** The request opens a connection. */
  predicate Opens(f: Front, r: Request) {
    Passes(f, r) && f.state.free != []
  }

  // ---------------------------------------------------------------- runs

  datatype Event = Asked(request: Request, now: real) | Other(event: S.Event)

  predicate InRange(e: Event, clients: nat) {
    e.Other? ==> S.InRange(e.event, clients)
  }

  ghost predicate AllInRange(events: seq<Event>, clients: nat) {
    forall i :: 0 <= i < |events| ==> InRange(events[i], clients)
  }

  /** Connections are only opened by requests. */
  function Step(f: Front, e: Event, limits: S.Limits, c: Capacities): (g: Front)
    requires S.Inv(f.state) && InRange(e, |f.state.conns|)
    ensures S.Inv(g.state) && |g.state.conns| == |f.state.conns|
  {
    match e
    case Asked(r, now) =>
      S.AcceptOk(f.state, r.from, r.clientId, now, r.timeout, c.addresses);
      Handle(f, r, now, c)
    case Other(event) =>
      S.StepOk(f.state, event, limits);
      if event.Connect? then f else f.(state := S.Step(f.state, event, limits))
  }

  ghost function Run(f: Front, events: seq<Event>, limits: S.Limits, c: Capacities): (g: Front)
    requires S.Inv(f.state) && AllInRange(events, |f.state.conns|)
    ensures S.Inv(g.state) && |g.state.conns| == |f.state.conns|
  {
    if events == [] then f else Step(Run(f, events[..|events| - 1], limits, c), events[|events| - 1], limits, c)
  }

  /** The token is bound to the address. */
  predicate Bound(f: Front, fingerprint: nat, address: S.Address) {
    fingerprint in f.seen && S.AddressEqual(f.seen[fingerprint].address, address)
  }

  /** The token of a request that passes the checks will be bound: it is known, or the map has room for it. */
  predicate Binds(f: Front, r: Request, c: Capacities) {
    r.fingerprint in f.seen || |f.seen| != c.fingerprints
  }

  /** Whether or not a slot is free, a request that passes binds its token if and only if it is known or has room. */
  lemma BindsIff(f: Front, r: Request, now: real, c: Capacities)
    requires S.Inv(f.state) && Passes(f, r)
    ensures Bound(Handle(f, r, now, c), r.fingerprint, r.from) <==> Binds(f, r, c)
  {
  }

  /** A bound token stays bound to its address through every run. */
  lemma {:induction false} BoundForever(f: Front, events: seq<Event>, limits: S.Limits, c: Capacities,
                                        fingerprint: nat, address: S.Address)
    requires S.Inv(f.state) && Bound(f, fingerprint, address) && AllInRange(events, |f.state.conns|)
    ensures Bound(Run(f, events, limits, c), fingerprint, address)
  {
    if events != [] {
      var front := events[..|events| - 1];
      BoundForever(f, front, limits, c, fingerprint, address);
      StepKeepsBound(Run(f, front, limits, c), events[|events| - 1], limits, c, fingerprint, address);
    }
  }

  lemma StepKeepsBound(f: Front, e: Event, limits: S.Limits, c: Capacities, fingerprint: nat, address: S.Address)
    requires S.Inv(f.state) && Bound(f, fingerprint, address) && InRange(e, |f.state.conns|)
    ensures Bound(Step(f, e, limits, c), fingerprint, address)
  {
  }

  /** After the request, in every run, its token opens connections only from its address. */
  ghost predicate OneAddress(f: Front, first: Request, now: real, limits: S.Limits, c: Capacities)
    requires S.Inv(f.state)
  {
    S.AcceptOk(f.state, first.from, first.clientId, now, first.timeout, c.addresses);
    forall events: seq<Event>, second: Request
      {:trigger Opens(Run(Handle(f, first, now, c), events, limits, c), second)} ::
      AllInRange(events, |f.state.conns|) && second.fingerprint == first.fingerprint ==>
        Opens(Run(Handle(f, first, now, c), events, limits, c), second) ==> S.AddressEqual(first.from, second.from)
  }

  /** A bound token opens a connection only from its address. */
  lemma BoundTokenStays(f: Front, first: Request, now: real, events: seq<Event>, limits: S.Limits, c: Capacities,
                        second: Request)
    requires S.Inv(f.state) && Passes(f, first) && Binds(f, first, c) && second.fingerprint == first.fingerprint
    requires AllInRange(events, |f.state.conns|)
    ensures S.Inv(Handle(f, first, now, c).state)
    ensures Opens(Run(Handle(f, first, now, c), events, limits, c), second) ==> S.AddressEqual(first.from, second.from)
  {
    S.AcceptOk(f.state, first.from, first.clientId, now, first.timeout, c.addresses);
    BindsIff(f, first, now, c);
    BoundForever(Handle(f, first, now, c), events, limits, c, first.fingerprint, first.from);
  }

  /** A token the full map did not bind: once its connection has timed out, any other address can use it. */
  lemma UnboundTokenMoves(f: Front, first: Request, now: real, limits: S.Limits, c: Capacities, other: S.Address)
    requires S.Inv(f.state) && Opens(f, first) && !Binds(f, first, c)
    ensures S.Inv(Handle(f, first, now, c).state)
    ensures var late := [Other(S.Tick(now + first.timeout + 1.0))];
            Opens(Run(Handle(f, first, now, c), late, limits, c), first.(from := other))
  {
    S.AcceptOk(f.state, first.from, first.clientId, now, first.timeout, c.addresses);
    var g := Handle(f, first, now, c);
    var tick := Other(S.Tick(now + first.timeout + 1.0));
    assert [tick][..0] == [] && Run(g, [], limits, c) == g;
    S.SweepOk(g.state, 0, tick.event.time);
    S.SweepExact(g.state, 0, tick.event.time);
    var t := S.Sweep(g.state, 0, tick.event.time);
    var slot := f.state.free[|f.state.free| - 1];
    assert !t.conns[slot].active && slot in t.free;
  }

  /**
   * One token, one address: once a request has opened a connection, its token opens connections in every further
   * run only from the same address, if and only if the token was known or the map had room for it.
   */
  lemma OneAddressPerToken(f: Front, first: Request, now: real, limits: S.Limits, c: Capacities)
    requires S.Inv(f.state) && Opens(f, first)
    ensures OneAddress(f, first, now, limits, c) <==> Binds(f, first, c)
  {
    if Binds(f, first, c) {
      forall events: seq<Event>, second: Request |
          AllInRange(events, |f.state.conns|) && second.fingerprint == first.fingerprint
        ensures S.Inv(Handle(f, first, now, c).state)
        ensures Opens(Run(Handle(f, first, now, c), events, limits, c), second) ==>
                  S.AddressEqual(first.from, second.from)
      {
        BoundTokenStays(f, first, now, events, limits, c, second);
      }
    } else {
      var other := first.from.(port := if first.from.port == 0 then 1 else 0);
      UnboundTokenMoves(f, first, now, limits, c, other);
      assert !S.AddressEqual(first.from, other);
    }
  }

  /** What a request does: it opens a connection for its client and address, or changes no connection. */
  lemma RequestExact(f: Front, r: Request, now: real, c: Capacities)
    requires S.Inv(f.state)
    ensures Opens(f, r) <==>
              (forall x :: 0 <= x < |f.state.conns| && f.state.conns[x].active ==>
                f.state.conns[x].clientId != r.clientId) &&
              (r.fingerprint in f.seen ==> S.AddressEqual(f.seen[r.fingerprint].address, r.from)) &&
              exists x :: 0 <= x < |f.state.conns| && !f.state.conns[x].active
    ensures Opens(f, r) ==>
              exists x :: 0 <= x < |f.state.conns| && !f.state.conns[x].active &&
                Handle(f, r, now, c).state.conns ==
                f.state.conns[x := S.Connection(true, r.from, r.clientId, now, r.timeout)]
    ensures !Opens(f, r) ==> Handle(f, r, now, c).state == f.state
  {
    forall x | 0 <= x < |f.state.conns| ensures !f.state.conns[x].active <==> x in f.state.free {
    }
    if f.state.free != [] {
      assert f.state.free[|f.state.free| - 1] in f.state.free;
    }
  }

  // ---------------------------------------------------------------- in place

  class Listener {
    const server: Server
    const seen: FixedHashMap<nat, Seen>

    ghost predicate Apart() {
      var a: object, b: object, s: object := seen.slots, seen, server;
      a !in Footprint(server) && b !in Footprint(server) && a != s && b != s
    }

    ghost predicate Valid()
      reads server, Footprint(server), seen, seen.slots
    {
      Apart() && server.Valid() && seen.Valid()
    }

    ghost function View(): Front
      requires Valid()
      reads server, Footprint(server), seen, seen.slots
    {
      Front(server.State(), seen.Contents())
    }

    /** The fingerprint map of a server that has just been started. */
    constructor (server: Server, capacity: nat, hash: nat -> nat)
      requires server.Valid() && 0 < capacity
      ensures Valid() && this.server == server && seen.slots.Length == capacity
      ensures View() == Front(old(server.State()), map[])
    {
      this.server := server;
      seen := new FixedHashMap(capacity, hash, 0, Seen(S.NO_ADDRESS, 0));
    }

    /** The slot of the new connection, or -1. */
    method HandleRequest(r: Request, now: real) returns (slot: int)
      requires Valid()
      modifies server.conns, server.slots, server.slots.activeSlots, server.slots.slotToActive
      modifies server.addresses, server.addresses.slots, seen, seen.slots
      ensures Valid()
      ensures View() == Handle(old(View()), r, now, Capacities(server.addresses.slots.Length, seen.slots.Length))
      ensures slot == -1 <==> !Opens(old(View()), r)
    {
      var found := server.FindClient(r.clientId);
      if found {
        return -1;
      }
      var p := seen.Find(r.fingerprint);
      if p != -1 && !S.AddressEqual(seen.slots[p].value.address, r.from) {
        return -1;
      }
      Note(r);
      slot := Open(r, now);
    }

    method Note(r: Request)
      requires Valid()
      modifies seen, seen.slots
      ensures Valid() && server.State() == old(server.State())
      ensures seen.Contents() == Noted(old(seen.Contents()), r, seen.slots.Length)
    {
      var p := seen.Insert(r.fingerprint, Seen(r.from, r.expire));
    }

    method Open(r: Request, now: real) returns (slot: int)
      requires Valid()
      modifies server.conns, server.slots, server.slots.activeSlots, server.slots.slotToActive
      modifies server.addresses, server.addresses.slots
      ensures Valid() && seen.Contents() == old(seen.Contents())
      ensures server.State() ==
              S.Accept(old(server.State()), r.from, r.clientId, now, r.timeout, server.addresses.slots.Length)
      ensures slot == -1 <==> S.ClientConnected(old(server.State()), r.clientId) || old(server.State()).free == []
    {
      slot := server.Accept(r.from, r.clientId, now, r.timeout);
    }
  }

  /** Everything a server is made of. */
  ghost function Footprint(s: Server): set<object> {
    {s.conns, s.slots, s.slots.activeSlots, s.slots.freeSlots, s.slots.slotToActive, s.addresses, s.addresses.slots,
     s.groups, s.groups.records, s.groups.memberPool, s.groups.slotPool, s.groups.freeStack}
  }
}
