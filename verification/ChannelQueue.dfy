/**
 * The send queue over whole runs: message k, counting from the channel's start, keeps its
 * place and its number; an entity has at most one pending update, and it carries the last
 * payload queued for that entity since one was last sent.
 */
module ChannelQueue {
  import opened Bytes
  import opened Channels
  import opened Sequences

  datatype Op =
    | Plain(data: seq<Byte>, flags: Flags)
    | State(data: seq<Byte>, flags: Flags, eid: nat)
    | Take

  /** What the application asked to send. */
  datatype Call = Call(data: seq<Byte>, flags: Flags, eid: nat)

  /** `out` are the messages dequeued so far; `latest` maps an entity to the last payload
      accepted for it since a message of that entity was last dequeued; `calls` are the calls that stand for
      the messages queued so far, as the account below keeps them. */
  datatype History = History(sender: Sender, out: seq<Message>, latest: map<nat, seq<Byte>>, calls: seq<Call>)

  // ---------------------------------------------------------------- an account of the calls

  /** Call `k` is an update of the entity and has not been sent. */
  predicate Awaits(calls: seq<Call>, out: nat, eid: nat, k: nat) {
    out <= k < |calls| && calls[k].flags.state && calls[k].eid == eid
  }

  /** The call updates an entity of which an update is waiting. */
  predicate Updates(calls: seq<Call>, out: nat, c: Call) {
    c.flags.state && c.eid != 0 && exists k :: out <= k < |calls| && Awaits(calls, out, c.eid, k)
  }

  /** A call is accepted when its size is 1 to 1200 bytes and it updates a waiting entity or fewer than 256 wait. */
  predicate Welcome(calls: seq<Call>, out: nat, c: Call) {
    1 <= |c.data| <= 1200 && (Updates(calls, out, c) || |calls| - out < 256)
  }

  /** An accepted update takes the place of the waiting one; any other accepted call goes to the end. */
  function Account(calls: seq<Call>, out: nat, c: Call): (r: seq<Call>) {
    if !Welcome(calls, out, c) then calls
    else if Updates(calls, out, c) then
      seq(|calls|, k requires 0 <= k < |calls| => if Awaits(calls, out, c.eid, k) then c else calls[k])
    else calls + [c]
  }

  function Tickets(h: History): seq<Message> {
    h.out + h.sender.queue
  }

  function StateFlags(f: Flags): Flags {
    f.(state := true)
  }

  function Step(h: History, op: Op): History {
    match op
    case Plain(data, flags) =>
      h.(sender := Enqueue(h.sender, data, flags, 0), calls := Account(h.calls, |h.out|, Call(data, flags, 0)))
    case State(data, flags, eid) =>
      h.(sender := Enqueue(h.sender, data, StateFlags(flags), eid),
         calls := Account(h.calls, |h.out|, Call(data, flags.(state := true), eid)),
         latest :=
           if eid != 0 && Accepts(h.sender, data, StateFlags(flags), eid) then h.latest[eid := data] else h.latest)
    case Take =>
      if h.sender.queue == [] then h else
        History(h.sender.(queue := h.sender.queue[1..]), h.out + [h.sender.queue[0]],
                h.latest - {h.sender.queue[0].entityId}, h.calls)
  }

  function Run(ops: seq<Op>): History {
    if ops == [] then History(Sender([], 0), [], map[], []) else Step(Run(ops[..|ops| - 1]), ops[|ops| - 1])
  }

  // ---------------------------------------------------------------- invariant

  ghost predicate Numbered(h: History) {
    (forall k :: 0 <= k < |Tickets(h)| ==> Tickets(h)[k].sequence == k % 65536) &&
    h.sender.sendSeq == |Tickets(h)| % SEQUENCES
  }

  ghost predicate OnePerEntity(q: seq<Message>) {
    (forall i :: 0 <= i < |q| && q[i].entityId != 0 ==> q[i].flags.state) &&
    (forall i, j :: 0 <= i < j < |q| && q[i].entityId != 0 ==> q[i].entityId != q[j].entityId)
  }

  predicate HasEntity(q: seq<Message>, eid: nat) {
    exists i :: 0 <= i < |q| && q[i].entityId == eid
  }

  ghost predicate CarriesLatest(q: seq<Message>, latest: map<nat, seq<Byte>>) {
    (forall e :: e in latest <==> e != 0 && HasEntity(q, e)) &&
    (forall i :: 0 <= i < |q| && q[i].entityId != 0 ==>
      q[i].entityId in latest && q[i].data == latest[q[i].entityId])
  }

  /** Message `k` carries what call `k` asked to send. */
  predicate Carries(m: Message, c: Call) {
    m.data == c.data && m.flags == c.flags && m.entityId == c.eid
  }

  ghost predicate AllCarried(h: History) {
    |Tickets(h)| == |h.calls| && forall k :: 0 <= k < |h.calls| ==> Carries(Tickets(h)[k], h.calls[k])
  }

  ghost predicate Inv(h: History) {
    |h.sender.queue| <= 256 && Numbered(h) && AllCarried(h) &&
    OnePerEntity(h.sender.queue) && CarriesLatest(h.sender.queue, h.latest)
  }

  // ---------------------------------------------------------------- steps

  lemma NumberedAppend(h: History, m: Message)
    requires Numbered(h) && m.sequence == h.sender.sendSeq
    ensures Numbered(h.(sender := Sender(h.sender.queue + [m], (h.sender.sendSeq + 1) % SEQUENCES)))
  {
    var g := h.(sender := Sender(h.sender.queue + [m], (h.sender.sendSeq + 1) % SEQUENCES));
    assert Tickets(g) == Tickets(h) + [m];
  }

  lemma NumberedOverwrite(h: History, i: nat, m: Message)
    requires Numbered(h) && i < |h.sender.queue| && m.sequence == h.sender.queue[i].sequence
    ensures Numbered(h.(sender := h.sender.(queue := h.sender.queue[i := m])))
  {
    var g := h.(sender := h.sender.(queue := h.sender.queue[i := m]));
    assert Tickets(g) == Tickets(h)[|h.out| + i := m];
    assert Tickets(h)[|h.out| + i] == h.sender.queue[i];
  }

  lemma AppendOk(q: seq<Message>, latest: map<nat, seq<Byte>>, m: Message)
    requires OnePerEntity(q) && CarriesLatest(q, latest)
    requires m.entityId == 0 || (m.flags.state && !HasEntity(q, m.entityId))
    ensures OnePerEntity(q + [m])
    ensures CarriesLatest(q + [m], if m.entityId == 0 then latest else latest[m.entityId := m.data])
  {
    var t := q + [m];
    assert t[|q|] == m && forall i :: 0 <= i < |q| ==> t[i] == q[i];
    forall e ensures HasEntity(t, e) <==> HasEntity(q, e) || e == m.entityId {
      if HasEntity(q, e) {
        var i :| 0 <= i < |q| && q[i].entityId == e;
        assert t[i].entityId == e;
      }
    }
  }

  lemma OverwriteOk(q: seq<Message>, latest: map<nat, seq<Byte>>, i: nat, data: seq<Byte>, flags: Flags)
    requires OnePerEntity(q) && CarriesLatest(q, latest) && i < |q| && q[i].entityId != 0 && flags.state
    ensures OnePerEntity(q[i := q[i].(data := data, flags := flags)])
    ensures CarriesLatest(q[i := q[i].(data := data, flags := flags)], latest[q[i].entityId := data])
  {
    var t := q[i := q[i].(data := data, flags := flags)];
    assert forall j :: 0 <= j < |q| ==> t[j].entityId == q[j].entityId;
    forall e ensures HasEntity(t, e) <==> HasEntity(q, e) {
      if HasEntity(q, e) {
        var j :| 0 <= j < |q| && q[j].entityId == e;
        assert t[j].entityId == e;
      }
    }
  }

  lemma TakeOk(q: seq<Message>, latest: map<nat, seq<Byte>>)
    requires OnePerEntity(q) && CarriesLatest(q, latest) && q != []
    ensures OnePerEntity(q[1..]) && CarriesLatest(q[1..], latest - {q[0].entityId})
  {
    var t := q[1..];
    assert forall i :: 0 <= i < |t| ==> t[i] == q[i + 1];
    forall e ensures HasEntity(t, e) ==> HasEntity(q, e) && (e != 0 ==> e != q[0].entityId) {
      if HasEntity(t, e) {
        var i :| 0 <= i < |t| && t[i].entityId == e;
        assert q[i + 1].entityId == e;
      }
    }
    forall e | HasEntity(q, e) && e != q[0].entityId ensures HasEntity(t, e) {
      var i :| 0 <= i < |q| && q[i].entityId == e;
      assert t[i - 1].entityId == e;
    }
  }

  /** In a well-formed queue the overwrite scan finds an entry exactly when the entity is pending. */
  lemma ScanFindsEntity(q: seq<Message>, eid: nat)
    requires OnePerEntity(q) && eid != 0
    ensures LastState(q, eid) >= 0 <==> HasEntity(q, eid)
  {
  }

  /** The queue accepts a call if and only if the account does; the update it replaces is the one that awaits. */
  lemma AcceptsIff(h: History, c: Call)
    requires Inv(h)
    ensures Accepts(h.sender, c.data, c.flags, c.eid) <==> Welcome(h.calls, |h.out|, c)
    ensures Overwrites(h.sender, c.flags, c.eid) >= 0 <==> Updates(h.calls, |h.out|, c)
    ensures forall k: nat :: c.flags.state && c.eid != 0 ==>
              (Awaits(h.calls, |h.out|, c.eid, k) <==>
                0 <= k - |h.out| < |h.sender.queue| && k - |h.out| == Overwrites(h.sender, c.flags, c.eid))
  {
    var q, out := h.sender.queue, |h.out|;
    var i := Overwrites(h.sender, c.flags, c.eid);
    forall k: nat | out <= k < |h.calls| ensures Carries(q[k - out], h.calls[k]) {
      assert Tickets(h)[k] == q[k - out];
    }
    if i >= 0 {
      assert Awaits(h.calls, out, c.eid, out + i);
    }
  }

  lemma CallCarried(h: History, c: Call)
    requires Inv(h)
    ensures var g := h.(sender := Enqueue(h.sender, c.data, c.flags, c.eid), calls := Account(h.calls, |h.out|, c));
            AllCarried(g)
  {
    AcceptsIff(h, c);
    var g := h.(sender := Enqueue(h.sender, c.data, c.flags, c.eid), calls := Account(h.calls, |h.out|, c));
    var i := Overwrites(h.sender, c.flags, c.eid);
    if Welcome(h.calls, |h.out|, c) {
      if i >= 0 {
        var m := h.sender.queue[i].(data := c.data, flags := c.flags);
        assert Tickets(g) == Tickets(h)[|h.out| + i := m];
        assert m.entityId == c.eid;
      } else {
        assert Tickets(g) == Tickets(h) + [Message(c.data, h.sender.sendSeq, c.eid, c.flags)];
      }
    }
  }

  lemma StepOk(h: History, op: Op)
    requires Inv(h)
    ensures Inv(Step(h, op))
  {
    var s := h.sender;
    match op
    case Plain(data, flags) =>
      CallCarried(h, Call(data, flags, 0));
      if Accepts(s, data, flags, 0) {
        NumberedAppend(h, Message(data, s.sendSeq, 0, flags));
        AppendOk(s.queue, h.latest, Message(data, s.sendSeq, 0, flags));
      }
    case State(data, flags, eid) =>
      CallCarried(h, Call(data, StateFlags(flags), eid));
      if Accepts(s, data, StateFlags(flags), eid) {
        StateOk(h, data, flags, eid);
      }
    case Take =>
      if s.queue != [] {
        TakeOk(s.queue, h.latest);
        assert Tickets(Step(h, op)) == Tickets(h);
      }
  }

  lemma StateOk(h: History, data: seq<Byte>, flags: Flags, eid: nat)
    requires Inv(h) && Accepts(h.sender, data, StateFlags(flags), eid)
    requires AllCarried(Step(h, State(data, flags, eid)))
    ensures Inv(Step(h, State(data, flags, eid)))
  {
    var s, f := h.sender, StateFlags(flags);
    var i := Overwrites(s, f, eid);
    if i >= 0 {
      OverwriteOk(s.queue, h.latest, i, data, f);
      NumberedOverwrite(h, i, s.queue[i].(data := data, flags := f));
    } else {
      if eid != 0 {
        ScanFindsEntity(s.queue, eid);
      }
      NumberedAppend(h, Message(data, s.sendSeq, eid, f));
      AppendOk(s.queue, h.latest, Message(data, s.sendSeq, eid, f));
    }
  }

  /** Every reachable queue: consecutive numbers over everything ever queued, each message carries the data, flags
      and entity of the call that stands for it, at most one pending entry per entity, and that entry carries the
      entity's latest payload. */
  lemma {:induction false} EveryRun(ops: seq<Op>)
    ensures Inv(Run(ops))
  {
    if ops != [] {
      EveryRun(ops[..|ops| - 1]);
      StepOk(Run(ops[..|ops| - 1]), ops[|ops| - 1]);
    }
  }

  /** First in, first out: a queued message keeps its place for good, and only the payload of a
      still pending update can be replaced, by an update of the same entity. */
  lemma PlacesKept(h: History, op: Op, k: nat)
    requires Inv(h) && k < |Tickets(h)|
    ensures |Tickets(h)| <= |Tickets(Step(h, op))|
    ensures var before, after := Tickets(h)[k], Tickets(Step(h, op))[k];
            after == before ||
            (op.State? && op.eid == before.entityId != 0 && k >= |h.out| &&
             after == before.(data := op.data, flags := StateFlags(op.flags)))
  {
    if op.Take? && h.sender.queue != [] {
      assert Tickets(Step(h, op)) == Tickets(h);
    }
  }
}
