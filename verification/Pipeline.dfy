/**
 * The single-producer single-consumer packet ring between an I/O thread and the game thread
 * (src/server.cpp), as interleaved steps.  A step is one load, one field copy or one store; any
 * schedule of the two threads' steps is a run.  The release store and acquire load pairs of the
 * source are what justifies treating the steps as interleaved.
 */
module Pipeline {
  import opened Bytes

  const SIZE: nat := 4096

  datatype Packet = Packet(address: int, data: seq<Byte>, length: int)

  /** Where the producer is inside push; `next` has already been computed from `h`. */
  datatype Producer =
    | Outside
    | Loaded(item: Packet, h: nat)
    | Writing(toWrite: Packet, at: nat, fields: nat)

  /** Where the consumer is inside pop. */
  datatype Consumer =
    | Away
    | Ready(t: nat)
    | Copying(from: nat, copied: nat, copy: Packet)

  /** `pushed` and `popped` record the packets of all successful calls. */
  datatype State = State(
    ring: seq<Packet>, head: nat, tail: nat,
    producer: Producer, consumer: Consumer,
    pushed: seq<Packet>, popped: seq<Packet>)

  datatype Action =
    | PushStart(packet: Packet) | PushCheck | PushWrite | PushStore
    | PopStart | PopCheck | PopCopy | PopStore

  const NO_PACKET := Packet(0, [], 0)

  function Init(): State {
    State(seq(SIZE, _ => NO_PACKET), 0, 0, Outside, Away, [], [])
  }

  /** Copies the next field, in the order address, data, length. */
  function CopyField(dst: Packet, src: Packet, field: nat): Packet {
    if field == 0 then dst.(address := src.address)
    else if field == 1 then dst.(data := src.data)
    else dst.(length := src.length)
  }

  predicate Sized(s: State) {
    |s.ring| == SIZE && s.head < SIZE && s.tail < SIZE &&
    (s.producer.Loaded? ==> s.producer.h < SIZE) &&
    (s.producer.Writing? ==> s.producer.at < SIZE) &&
    (s.consumer.Ready? ==> s.consumer.t < SIZE) &&
    (s.consumer.Copying? ==> s.consumer.from < SIZE)
  }

  /** One step of either thread; an action that is not the thread's next one changes nothing. */
  function Step(s: State, a: Action): (r: State)
    requires Sized(s)
    ensures Sized(r)
  {
    match a
    case PushStart(item) => if s.producer.Outside? then s.(producer := Loaded(item, s.head)) else s
    case PushCheck =>
      if !s.producer.Loaded? then s
      else if (s.producer.h + 1) % SIZE == s.tail then s.(producer := Outside)
      else s.(producer := Writing(s.producer.item, s.producer.h, 0))
    case PushWrite =>
      if !(s.producer.Writing? && s.producer.fields < 3) then s else
        var p := s.producer;
        s.(ring := s.ring[p.at := CopyField(s.ring[p.at], p.toWrite, p.fields)],
           producer := p.(fields := p.fields + 1))
    case PushStore =>
      if !(s.producer.Writing? && s.producer.fields == 3) then s else
        s.(head := (s.producer.at + 1) % SIZE, producer := Outside, pushed := s.pushed + [s.producer.toWrite])
    case PopStart => if s.consumer.Away? then s.(consumer := Ready(s.tail)) else s
    case PopCheck =>
      if !s.consumer.Ready? then s
      else if s.consumer.t == s.head then s.(consumer := Away)
      else s.(consumer := Copying(s.consumer.t, 0, NO_PACKET))
    case PopCopy =>
      if !(s.consumer.Copying? && s.consumer.copied < 3) then s else
        var c := s.consumer;
        s.(consumer := c.(copy := CopyField(c.copy, s.ring[c.from], c.copied), copied := c.copied + 1))
    case PopStore =>
      if !(s.consumer.Copying? && s.consumer.copied == 3) then s else
        s.(tail := (s.consumer.from + 1) % SIZE, consumer := Away, popped := s.popped + [s.consumer.copy])
  }

  function Run(actions: seq<Action>): (s: State)
    ensures Sized(s)
  {
    if actions == [] then Init() else Step(Run(actions[..|actions| - 1]), actions[|actions| - 1])
  }

  // ---------------------------------------------------------------- invariant

  /** The first `n` fields of two packets agree. */
  predicate Agree(a: Packet, b: Packet, n: nat) {
    (n > 0 ==> a.address == b.address) && (n > 1 ==> a.data == b.data) && (n > 2 ==> a.length == b.length)
  }

  ghost predicate Counters(s: State) {
    s.popped <= s.pushed && |s.pushed| - |s.popped| < SIZE &&
    s.head == |s.pushed| % SIZE && s.tail == |s.popped| % SIZE
  }

  /** Every packet pushed and not yet popped sits whole in its slot. */
  ghost predicate Stored(s: State) {
    |s.ring| == SIZE && forall u :: |s.popped| <= u < |s.pushed| ==> s.ring[u % SIZE] == s.pushed[u]
  }

  ghost predicate ProducerOk(s: State) {
    match s.producer
    case Outside => true
    case Loaded(_, h) => h == s.head
    case Writing(item, at, fields) =>
      at == s.head && fields <= 3 && |s.pushed| - |s.popped| < SIZE - 1 &&
      |s.ring| == SIZE && at < SIZE && Agree(s.ring[at], item, fields)
  }

  ghost predicate ConsumerOk(s: State) {
    match s.consumer
    case Away => true
    case Ready(t) => t == s.tail
    case Copying(from, copied, copy) =>
      from == s.tail && copied <= 3 && |s.popped| < |s.pushed| && Agree(copy, s.pushed[|s.popped|], copied)
  }

  ghost predicate Inv(s: State) {
    Sized(s) && Counters(s) && Stored(s) && ProducerOk(s) && ConsumerOk(s)
  }

  lemma SlotsDiffer(u: nat, v: nat)
    requires u < v < u + SIZE
    ensures u % SIZE != v % SIZE
  {
  }

  /** The full test of push is about the numbers pushed and popped. */
  lemma FullIff(pushed: nat, popped: nat)
    requires popped <= pushed < popped + SIZE
    ensures (pushed % SIZE + 1) % SIZE == (pushed + 1) % SIZE
    ensures (pushed + 1) % SIZE == popped % SIZE <==> pushed - popped == SIZE - 1
  {
  }

  /** A field written into the free slot disturbs no stored packet. */
  lemma PushWriteKeeps(s: State)
    requires Inv(s) && s.producer.Writing? && s.producer.fields < 3
    ensures Inv(Step(s, PushWrite))
  {
    forall u | |s.popped| <= u < |s.pushed| ensures u % SIZE != s.head {
      SlotsDiffer(u, |s.pushed|);
    }
  }

  lemma PushStoreKeeps(s: State)
    requires Inv(s) && s.producer.Writing? && s.producer.fields == 3
    ensures Inv(Step(s, PushStore))
  {
    FullIff(|s.pushed|, |s.popped|);
    var t := Step(s, PushStore);
    assert s.ring[s.head] == s.producer.toWrite;
    forall u | |t.popped| <= u < |t.pushed| ensures t.ring[u % SIZE] == t.pushed[u] {
      assert u < |s.pushed| ==> s.ring[u % SIZE] == s.pushed[u];
    }
  }

  lemma PushStep(s: State, a: Action)
    requires Inv(s) && (a.PushStart? || a.PushCheck? || a.PushWrite? || a.PushStore?)
    ensures Inv(Step(s, a))
  {
    if a.PushWrite? && s.producer.Writing? && s.producer.fields < 3 {
      PushWriteKeeps(s);
    } else if a.PushStore? && s.producer.Writing? && s.producer.fields == 3 {
      PushStoreKeeps(s);
    } else {
      FullIff(|s.pushed|, |s.popped|);
    }
  }

  lemma PopStep(s: State, a: Action)
    requires Inv(s) && (a.PopStart? || a.PopCheck? || a.PopCopy? || a.PopStore?)
    ensures Inv(Step(s, a))
  {
    if |s.popped| < |s.pushed| {
      assert s.ring[s.tail] == s.pushed[|s.popped|];
    }
    if a.PopStore? && s.consumer.Copying? && s.consumer.copied == 3 {
      assert s.consumer.copy == s.pushed[|s.popped|];
    }
  }

  lemma StepKeeps(s: State, a: Action)
    requires Inv(s)
    ensures Inv(Step(s, a))
  {
    if a.PushStart? || a.PushCheck? || a.PushWrite? || a.PushStore? {
      PushStep(s, a);
    } else {
      PopStep(s, a);
    }
  }

  /** The invariant holds after every schedule of the two threads. */
  lemma {:induction false} EveryRun(actions: seq<Action>)
    ensures Inv(Run(actions))
  {
    if actions != [] {
      EveryRun(actions[..|actions| - 1]);
      StepKeeps(Run(actions[..|actions| - 1]), actions[|actions| - 1]);
    }
  }

  /** In every run: what has been popped is a prefix of what has been pushed, at most 4095 packets
      are held, and the slot being written is never the slot being copied. */
  lemma QueueSafety(actions: seq<Action>)
    ensures var s := Run(actions);
            s.popped <= s.pushed && |s.pushed| - |s.popped| <= 4095 &&
            (s.producer.Writing? && s.consumer.Copying? ==> s.producer.at != s.consumer.from)
  {
    EveryRun(actions);
    var s := Run(actions);
    if s.producer.Writing? && s.consumer.Copying? {
      SlotsDiffer(|s.popped|, |s.pushed|);
    }
  }

  /** Push reports a full queue exactly when 4095 packets are held, pop an empty one exactly when none is. */
  lemma ChecksExact(s: State)
    requires Inv(s)
    ensures s.producer.Loaded? ==>
              (Step(s, PushCheck).producer.Outside? <==> |s.pushed| - |s.popped| == 4095)
    ensures s.consumer.Ready? ==>
              (Step(s, PopCheck).consumer.Away? <==> |s.pushed| == |s.popped|)
  {
    if s.popped != s.pushed {
      SlotsDiffer(|s.popped|, |s.pushed|);
    }
  }
  // ---------------------------------------------------------------- two producers

  /**
   * With three or more I/O threads every worker pushes to the send queue.  `state` has the first producer's place
   * inside push, `other` the second's.
   */
  datatype Shared = Shared(state: State, other: Producer)

  /** A turn of the first producer or of the consumer, or a turn of the second producer. */
  datatype Turn = First(action: Action) | Second(action: Action)

  function Swapped(t: Shared): Shared {
    Shared(t.state.(producer := t.other), t.state.producer)
  }

  predicate SharedSized(t: Shared) {
    Sized(t.state) && Sized(Swapped(t).state)
  }

  function TakeTurn(t: Shared, turn: Turn): (r: Shared)
    requires SharedSized(t)
    ensures SharedSized(r)
  {
    match turn
    case First(a) => t.(state := Step(t.state, a))
    case Second(a) => Swapped(Swapped(t).(state := Step(Swapped(t).state, a)))
  }

  function SharedRun(turns: seq<Turn>): (t: Shared)
    ensures SharedSized(t)
  {
    if turns == [] then Shared(Init(), Outside) else TakeTurn(SharedRun(turns[..|turns| - 1]), turns[|turns| - 1])
  }

  /** No push starts while the other producer is inside one. */
  predicate Alone(t: Shared, turn: Turn) {
    turn.action.PushStart? ==> if turn.First? then t.other.Outside? else t.state.producer.Outside?
  }

  ghost predicate AloneAt(turns: seq<Turn>, i: nat)
    requires i < |turns|
  {
    Alone(SharedRun(turns[..i]), turns[i])
  }

  ghost predicate NeverOverlap(turns: seq<Turn>) {
    forall i: nat {:trigger AloneAt(turns, i)} :: i < |turns| ==> AloneAt(turns, i)
  }

  /** One producer is outside push, and the ring is sound with the other as its only producer. */
  ghost predicate SharedOk(t: Shared) {
    (t.other.Outside? && Inv(t.state)) || (t.state.producer.Outside? && Inv(Swapped(t).state))
  }

  lemma FirstKeeps(t: Shared, a: Action)
    requires SharedSized(t) && SharedOk(t) && Alone(t, First(a))
    ensures SharedOk(TakeTurn(t, First(a)))
  {
    if t.other.Outside? && Inv(t.state) {
      StepKeeps(t.state, a);
    } else if !(a.PushStart? || a.PushCheck? || a.PushWrite? || a.PushStore?) {
      StepKeeps(Swapped(t).state, a);
      assert Swapped(TakeTurn(t, First(a))).state == Step(Swapped(t).state, a);
    }
  }

  lemma TurnKeeps(t: Shared, turn: Turn)
    requires SharedSized(t) && SharedOk(t) && Alone(t, turn)
    ensures SharedOk(TakeTurn(t, turn))
  {
    if turn.First? {
      FirstKeeps(t, turn.action);
    } else {
      FirstKeeps(Swapped(t), turn.action);
    }
  }

  /** While no two pushes overlap, two producers are as safe as one. */
  lemma {:induction false} SharedSafety(turns: seq<Turn>)
    requires NeverOverlap(turns)
    ensures SharedOk(SharedRun(turns))
    ensures var s := SharedRun(turns).state; s.popped <= s.pushed && |s.pushed| - |s.popped| <= 4095
  {
    if turns != [] {
      var front := turns[..|turns| - 1];
      forall i: nat | i < |front| ensures AloneAt(front, i) {
        assert front[..i] == turns[..i] && AloneAt(turns, i);
      }
      SharedSafety(front);
      assert AloneAt(turns, |turns| - 1);
      TurnKeeps(SharedRun(front), turns[|turns| - 1]);
    }
  }

  lemma Extend(turns: seq<Turn>, turn: Turn) returns (more: seq<Turn>)
    ensures SharedRun(more) == TakeTurn(SharedRun(turns), turn)
  {
    more := turns + [turn];
    assert more[..|more| - 1] == turns;
  }

  function AfterPush(s: State): State
    requires Sized(s) && s.producer.Loaded?
  {
    var p := s.producer;
    s.(ring := s.ring[p.h := p.item], head := (p.h + 1) % SIZE, producer := Outside, pushed := s.pushed + [p.item])
  }

  function AfterPop(s: State): State
    requires Sized(s)
  {
    s.(tail := (s.tail + 1) % SIZE, popped := s.popped + [s.ring[s.tail]])
  }

  /** The rest of a push that is not refused. */
  lemma PushRest(s: State)
    requires Sized(s) && s.producer.Loaded? && (s.producer.h + 1) % SIZE != s.tail
    ensures Step(Step(Step(Step(Step(s, PushCheck), PushWrite), PushWrite), PushWrite), PushStore) == AfterPush(s)
  {
    var h, item := s.producer.h, s.producer.item;
    var t := Step(Step(Step(Step(s, PushCheck), PushWrite), PushWrite), PushWrite);
    assert t.ring[h] == item && t.producer == Writing(item, h, 3);
    assert t.ring == s.ring[h := item];
  }

  /** A pop that finds a packet. */
  lemma PopWhole(s: State)
    requires Sized(s) && s.consumer.Away? && s.tail != s.head
    ensures Step(Step(Step(Step(Step(Step(s, PopStart), PopCheck), PopCopy), PopCopy), PopCopy), PopStore) ==
            AfterPop(s)
  {
    var t := Step(Step(Step(Step(Step(s, PopStart), PopCheck), PopCopy), PopCopy), PopCopy);
    assert t.consumer == Copying(s.tail, 3, s.ring[s.tail]);
  }

  lemma ExtendPush(turns: seq<Turn>) returns (more: seq<Turn>)
    requires var s := SharedRun(turns).state; s.producer.Loaded? && (s.producer.h + 1) % SIZE != s.tail
    ensures SharedRun(more) == SharedRun(turns).(state := AfterPush(SharedRun(turns).state))
  {
    PushRest(SharedRun(turns).state);
    more := Extend(turns, First(PushCheck));
    more := Extend(more, First(PushWrite));
    more := Extend(more, First(PushWrite));
    more := Extend(more, First(PushWrite));
    more := Extend(more, First(PushStore));
  }

  lemma ExtendSecondPush(turns: seq<Turn>) returns (more: seq<Turn>)
    requires var s := Swapped(SharedRun(turns)).state; s.producer.Loaded? && (s.producer.h + 1) % SIZE != s.tail
    ensures Swapped(SharedRun(more)) ==
            Swapped(SharedRun(turns)).(state := AfterPush(Swapped(SharedRun(turns)).state))
  {
    PushRest(Swapped(SharedRun(turns)).state);
    more := Extend(turns, Second(PushCheck));
    more := Extend(more, Second(PushWrite));
    more := Extend(more, Second(PushWrite));
    more := Extend(more, Second(PushWrite));
    more := Extend(more, Second(PushStore));
  }

  lemma ExtendPop(turns: seq<Turn>) returns (more: seq<Turn>)
    requires var s := SharedRun(turns).state; s.consumer.Away? && s.tail != s.head
    ensures SharedRun(more) == SharedRun(turns).(state := AfterPop(SharedRun(turns).state))
  {
    PopWhole(SharedRun(turns).state);
    more := Extend(turns, First(PopStart));
    more := Extend(more, First(PopCheck));
    more := Extend(more, First(PopCopy));
    more := Extend(more, First(PopCopy));
    more := Extend(more, First(PopCopy));
    more := Extend(more, First(PopStore));
  }

  /** Both producers have loaded the same head. */
  lemma BothLoaded(p: Packet, q: Packet) returns (turns: seq<Turn>)
    ensures SharedRun(turns) == Shared(Init().(producer := Loaded(p, 0)), Loaded(q, 0))
  {
    turns := Extend([], First(PushStart(p)));
    turns := Extend(turns, Second(PushStart(q)));
  }

  /** Both pushes have succeeded, into the same slot. */
  lemma BothStored(p: Packet, q: Packet) returns (turns: seq<Turn>)
    ensures var s := SharedRun(turns).state;
            s.pushed == [p, q] && s.popped == [] && s.head == 1 && s.tail == 0 && s.ring[0] == q && s.consumer.Away?
  {
    turns := BothLoaded(p, q);
    turns := ExtendPush(turns);
    var s := Swapped(SharedRun(turns)).state;
    assert s.producer == Loaded(q, 0) && s.tail == 0 && s.pushed == [p];
    turns := ExtendSecondPush(turns);
    assert AfterPush(s).ring[0] == q && AfterPush(s).pushed == [p, q];
  }

  /** Counterexample: both producers load the same head, both pushes succeed, and the first packet is gone. */
  lemma OverlapLosesPacket(p: Packet, q: Packet) returns (turns: seq<Turn>)
    ensures var s := SharedRun(turns).state; s.pushed == [p, q] && s.popped == [q] && s.head == s.tail
  {
    turns := BothStored(p, q);
    turns := ExtendPop(turns);
  }
}
