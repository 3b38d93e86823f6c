/**
 * Fragmentation and reassembly (src/fragment/fragment.h) on values: a message cut into fragments
 * and put together again by trackers that share the connection's 16 reassembly slots.
 */
module FragmentSpec {
  import opened Arith
  import opened Bytes
  import opened Collections

  const MAX_FRAGMENTS: nat := 255
  const MASK_BITS: nat := 256
  const TRACKERS: nat := 16
  const TIMEOUT: real := 5.0

  // ---------------------------------------------------------------- cutting

  /** Number of fragments a message needs, or -1. */
  function FragmentCount(size: int, payload: int): int {
    if size <= 0 || payload <= 0 then -1 else
      var count := (size + payload - 1) / payload;
      if count > MAX_FRAGMENTS then -1 else count
  }

  /** Where fragment `i` ends: at a multiple of the payload size, or at the end of the message. */
  function EndOf(i: nat, size: nat, payload: nat): nat {
    if Base(i, payload) < size then Base(i, payload) else size
  }

  /** The bytes of fragment `i`. */
  function Chunk(message: seq<Byte>, payload: nat, i: nat): seq<Byte> {
    BaseGrows(i, payload);
    message[EndOf(i, |message|, payload)..EndOf(i + 1, |message|, payload)]
  }

  lemma BaseGrows(i: nat, size: nat)
    ensures Base(i + 1, size) == Base(i, size) + size
  {
  }

  /** The count is exact: the last fragment starts inside the message and ends it. */
  lemma CountExact(size: nat, payload: nat)
    requires FragmentCount(size, payload) != -1
    ensures 1 <= FragmentCount(size, payload) <= 255
    ensures Base(FragmentCount(size, payload) - 1, payload) < size <= Base(FragmentCount(size, payload), payload)
  {
    var count := FragmentCount(size, payload);
    var x := size + payload - 1;
    assert x == count * payload + x % payload;
    BaseIsProduct(count, payload);
    BaseIsProduct(count - 1, payload);
    assert (count - 1) * payload == count * payload - payload;
  }

  /** A message can be cut if and only if it is not empty and 255 fragments are enough. */
  lemma CountIff(size: int, payload: int)
    ensures FragmentCount(size, payload) != -1 <==> 0 < size && 0 < payload && size <= 255 * payload
  {
    if 0 < size && 0 < payload {
      var x := size + payload - 1;
      var count := x / payload;
      assert x == count * payload + x % payload;
      if count <= 255 {
        MulMono(count, 255, payload);
      } else {
        MulMono(256, count, payload);
      }
    }
  }

  // ---------------------------------------------------------------- one tracker

  datatype Tracker = Tracker(
    id: nat, total: nat, count: nat, mask: seq<bool>, first: real, active: bool,
    buffer: seq<Byte>, sizes: seq<nat>)

  function BitWeight(): (nat, bool) -> nat {
    (i: nat, b: bool) => if b then 1 else 0
  }

  /** The count is the number of bits set, and no bit beyond the last fragment is set. */
  ghost predicate TrackerOk(t: Tracker, capacity: nat) {
    |t.mask| == MASK_BITS && |t.sizes| == MAX_FRAGMENTS && |t.buffer| == capacity && t.total <= MAX_FRAGMENTS &&
    t.count == Sum(t.mask, BitWeight()) && forall i :: t.total <= i < MASK_BITS ==> !t.mask[i]
  }

  function Opened(t: Tracker, id: nat, total: nat, time: real): Tracker {
    Tracker(id, total, 0, seq(MASK_BITS, _ => false), time, true, Zeros(|t.buffer|), seq(MAX_FRAGMENTS, _ => 0))
  }

  /** Copies a fragment into the buffer and marks it. */
  function Stored(t: Tracker, index: nat, data: seq<Byte>, offset: nat): Tracker
    requires index < |t.sizes| && index < |t.mask| && offset + |data| <= |t.buffer|
  {
    t.(buffer := Splice(t.buffer, offset, data),
       sizes := t.sizes[index := |data|],
       mask := t.mask[index := true],
       count := if t.mask[index] then t.count else t.count + 1)
  }

  function TotalSize(sizes: seq<nat>, n: nat): nat
    requires n <= |sizes|
  {
    if n == 0 then 0 else TotalSize(sizes, n - 1) + sizes[n - 1]
  }

  lemma {:induction false} SumFalse(mask: seq<bool>)
    requires forall i :: 0 <= i < |mask| ==> !mask[i]
    ensures Sum(mask, BitWeight()) == 0
  {
    SumOfOnes(mask, BitWeight());
    assert forall i: nat :: i < |mask| ==> BitWeight()(i, mask[i]) == 0;
  }

  lemma OpenedOk(t: Tracker, id: nat, total: nat, time: real)
    requires total <= MAX_FRAGMENTS
    ensures TrackerOk(Opened(t, id, total, time), |t.buffer|)
  {
    SumFalse(Opened(t, id, total, time).mask);
  }

  lemma StoredOk(t: Tracker, index: nat, data: seq<Byte>, offset: nat)
    requires TrackerOk(t, |t.buffer|) && index < t.total && offset + |data| <= |t.buffer|
    ensures TrackerOk(Stored(t, index, data, offset), |t.buffer|)
  {
    SumUpdate(t.mask, BitWeight(), index, true);
  }

  lemma {:induction false} SumPrefix(mask: seq<bool>, n: nat)
    requires n <= |mask| && forall i :: n <= i < |mask| ==> !mask[i]
    ensures Sum(mask, BitWeight()) == Sum(mask[..n], BitWeight())
    decreases |mask|
  {
    if n < |mask| {
      var rest := mask[..|mask| - 1];
      SumPrefix(rest, n);
      assert rest[..n] == mask[..n];
    } else {
      assert mask[..n] == mask;
    }
  }

  /** The completeness test counts right: it holds exactly when every fragment is marked. */
  lemma CompleteIff(t: Tracker, capacity: nat)
    requires TrackerOk(t, capacity)
    ensures t.count == t.total <==> forall i :: 0 <= i < t.total ==> t.mask[i]
  {
    SumPrefix(t.mask, t.total);
    var m := t.mask[..t.total];
    SumOfOnes(m, BitWeight());
    assert forall i: nat :: i < |m| ==> (BitWeight()(i, m[i]) == 1 <==> t.mask[i]);
  }

  // ---------------------------------------------------------------- one message

  /** Every marked fragment of the tracker is the message's, at its place. */
  ghost predicate Holds(t: Tracker, message: seq<Byte>, payload: nat) {
    |t.mask| == MASK_BITS && |t.sizes| == MAX_FRAGMENTS && |message| <= |t.buffer| && t.total <= MAX_FRAGMENTS &&
    forall i: nat :: i < t.total && t.mask[i] ==> Placed(t, message, payload, i)
  }

  ghost predicate Placed(t: Tracker, message: seq<Byte>, payload: nat, i: nat)
    requires i < |t.sizes| && |message| <= |t.buffer|
  {
    BaseGrows(i, payload);
    t.sizes[i] == |Chunk(message, payload, i)| &&
    t.buffer[EndOf(i, |message|, payload)..EndOf(i + 1, |message|, payload)] == Chunk(message, payload, i)
  }

  /** The places of two different fragments do not meet. */
  lemma ChunksApart(message: seq<Byte>, payload: nat, i: nat, j: nat)
    requires i < j
    ensures EndOf(i + 1, |message|, payload) <= EndOf(j, |message|, payload)
  {
    BaseGrows(i, payload);
    RegionsDisjoint(i, j, payload);
  }

  lemma ChunkEnds(message: seq<Byte>, payload: nat, i: nat)
    requires Base(i, payload) <= |message|
    ensures EndOf(i, |message|, payload) == Base(i, payload)
    ensures Base(i, payload) + |Chunk(message, payload, i)| == EndOf(i + 1, |message|, payload)
  {
    BaseGrows(i, payload);
  }

  /** A new fragment disturbs none of the others. */
  lemma StoredKeeps(t: Tracker, message: seq<Byte>, payload: nat, index: nat, i: nat)
    requires |t.sizes| == MAX_FRAGMENTS && |t.mask| == MASK_BITS && |message| <= |t.buffer|
    requires i < MAX_FRAGMENTS && index < MAX_FRAGMENTS && i != index && Placed(t, message, payload, i)
    requires Base(index, payload) <= |message|
    requires Base(index, payload) + |Chunk(message, payload, index)| <= |t.buffer|
    ensures Placed(Stored(t, index, Chunk(message, payload, index), Base(index, payload)), message, payload, i)
  {
    ChunkEnds(message, payload, index);
    var data := Chunk(message, payload, index);
    var lo, hi := EndOf(i, |message|, payload), EndOf(i + 1, |message|, payload);
    BaseGrows(i, payload);
    if i < index {
      ChunksApart(message, payload, i, index);
    } else {
      ChunksApart(message, payload, index, i);
    }
    SpliceKeeps(t.buffer, Base(index, payload), data, lo, hi);
  }

  lemma StoredPlaces(t: Tracker, message: seq<Byte>, payload: nat, index: nat)
    requires |t.sizes| == MAX_FRAGMENTS && |t.mask| == MASK_BITS && |message| <= |t.buffer|
    requires index < MAX_FRAGMENTS && Base(index, payload) <= |message|
    requires Base(index, payload) + |Chunk(message, payload, index)| <= |t.buffer|
    ensures Placed(Stored(t, index, Chunk(message, payload, index), Base(index, payload)), message, payload, index)
  {
    ChunkEnds(message, payload, index);
    SpliceThere(t.buffer, Base(index, payload), Chunk(message, payload, index));
  }

  lemma StoredHolds(t: Tracker, message: seq<Byte>, payload: nat, index: nat)
    requires Holds(t, message, payload) && index < t.total && Base(index, payload) <= |message|
    ensures Base(index, payload) + |Chunk(message, payload, index)| <= |t.buffer|
    ensures Holds(Stored(t, index, Chunk(message, payload, index), Base(index, payload)), message, payload)
  {
    ChunkEnds(message, payload, index);
    StoredPlaces(t, message, payload, index);
    var u := Stored(t, index, Chunk(message, payload, index), Base(index, payload));
    forall i: nat | i < t.total && u.mask[i] ensures Placed(u, message, payload, i) {
      if i != index {
        StoredKeeps(t, message, payload, index, i);
      }
    }
  }

  /** The first `k` fragments, when all are there, are a prefix of the message. */
  lemma {:induction false} PrefixRestored(t: Tracker, message: seq<Byte>, payload: nat, k: nat)
    requires Holds(t, message, payload) && k <= t.total && forall i :: 0 <= i < k ==> t.mask[i]
    ensures TotalSize(t.sizes, k) == EndOf(k, |message|, payload)
    ensures t.buffer[..EndOf(k, |message|, payload)] == message[..EndOf(k, |message|, payload)]
    decreases k
  {
    if k > 0 {
      PrefixRestored(t, message, payload, k - 1);
      assert Placed(t, message, payload, k - 1);
      BaseGrows(k - 1, payload);
      var a, b := EndOf(k - 1, |message|, payload), EndOf(k, |message|, payload);
      assert t.buffer[..b] == t.buffer[..a] + t.buffer[a..b];
      assert message[..b] == message[..a] + message[a..b];
    }
  }

  /** A complete tracker holds the whole message, byte for byte. */
  lemma Restored(t: Tracker, message: seq<Byte>, payload: nat)
    requires Holds(t, message, payload) && TrackerOk(t, |t.buffer|) && t.count == t.total
    requires t.total == FragmentCount(|message|, payload)
    ensures TotalSize(t.sizes, t.total) == |message| && t.buffer[..|message|] == message
  {
    CompleteIff(t, |t.buffer|);
    CountExact(|message|, payload);
    PrefixRestored(t, message, payload, t.total);
  }

  // ---------------------------------------------------------------- the reassembly slots

  datatype Call = Call(id: nat, index: nat, count: nat, data: seq<Byte>, time: real)

  /** What on_fragment_received returns: nothing, or the buffer and the size of a complete message. */
  datatype Outcome = Nothing | Complete(buffer: seq<Byte>, size: nat)

  function FindTracker(ts: seq<Tracker>, id: nat): (i: int)
    ensures -1 <= i < |ts|
    ensures i >= 0 ==> ts[i].active && ts[i].id == id
    ensures forall j :: 0 <= j < (if i >= 0 then i else |ts|) ==> !(ts[j].active && ts[j].id == id)
  {
    if ts == [] then -1
    else if FindTracker(ts[..|ts| - 1], id) >= 0 then FindTracker(ts[..|ts| - 1], id)
    else if ts[|ts| - 1].active && ts[|ts| - 1].id == id then |ts| - 1 else -1
  }

  function FindFree(ts: seq<Tracker>): (i: int)
    ensures -1 <= i < |ts|
    ensures i >= 0 ==> !ts[i].active
    ensures forall j :: 0 <= j < (if i >= 0 then i else |ts|) ==> ts[j].active
  {
    if ts == [] then -1
    else if FindFree(ts[..|ts| - 1]) >= 0 then FindFree(ts[..|ts| - 1])
    else if !ts[|ts| - 1].active then |ts| - 1 else -1
  }

  /** The slot that will take the fragment: the message's own, or a free one newly opened. */
  function Claim(ts: seq<Tracker>, c: Call): (r: (seq<Tracker>, int))
    ensures |r.0| == |ts| && -1 <= r.1 < |ts|
  {
    var i, j := FindTracker(ts, c.id), FindFree(ts);
    if i >= 0 then (ts, i)
    else if j >= 0 then (ts[j := Opened(ts[j], c.id, c.count, c.time)], j)
    else (ts, -1)
  }

  /** What a slot does with a fragment of its message. */
  function Take(t: Tracker, c: Call, payload: nat): (Tracker, Outcome)
    requires |t.mask| == MASK_BITS && |t.sizes| == MAX_FRAGMENTS && c.index < c.count <= MAX_FRAGMENTS
  {
    if t.total != c.count || t.mask[c.index] || c.index * payload + |c.data| > |t.buffer| then (t, Nothing) else
      var u := Stored(t, c.index, c.data, c.index * payload);
      if u.count == u.total then (u.(active := false), Complete(u.buffer, TotalSize(u.sizes, u.total)))
      else (u, Nothing)
  }

  ghost predicate Shaped(ts: seq<Tracker>) {
    forall i :: 0 <= i < |ts| ==> |ts[i].mask| == MASK_BITS && |ts[i].sizes| == MAX_FRAGMENTS
  }

  function OnFragment(ts: seq<Tracker>, c: Call, payload: nat): (r: (seq<Tracker>, Outcome))
    requires Shaped(ts) && c.count <= MAX_FRAGMENTS
    ensures |r.0| == |ts|
  {
    if c.count == 0 || c.index >= c.count then (ts, Nothing) else
      var (claimed, slot) := Claim(ts, c);
      if slot < 0 then (ts, Nothing) else
        var (t, outcome) := Take(claimed[slot], c, payload);
        (claimed[slot := t], outcome)
  }

  /**
   * What is refused: a bad index or count, a message for which no slot is left, and in the message's slot another
   * count, a fragment that was there already, or one that would not fit.
   */
  lemma RefusedExact(ts: seq<Tracker>, c: Call, payload: nat)
    requires Shaped(ts) && c.count <= 255
    ensures c.index >= c.count ==> OnFragment(ts, c, payload) == (ts, Nothing)
    ensures c.index < c.count && (forall i :: 0 <= i < |ts| ==> ts[i].active && ts[i].id != c.id) ==>
              OnFragment(ts, c, payload) == (ts, Nothing)
    ensures c.index < c.count && FindTracker(ts, c.id) >= 0 ==>
              var t := ts[FindTracker(ts, c.id)];
              if t.total != c.count || t.mask[c.index] || c.index * payload + |c.data| > |t.buffer|
              then OnFragment(ts, c, payload) == (ts, Nothing)
              else OnFragment(ts, c, payload).0 != ts
  {
    var i := FindTracker(ts, c.id);
    if c.index < c.count && i >= 0 {
      var t := ts[i];
      assert ts[i := t] == ts;
      if !t.mask[c.index] && t.total == c.count && c.index * payload + |c.data| <= |t.buffer| {
        assert OnFragment(ts, c, payload).0[i].mask[c.index];
      }
    }
  }

  /** All slots are sound and no message has two of them. */
  ghost predicate AllOk(ts: seq<Tracker>, capacity: nat) {
    |ts| == TRACKERS && (forall i :: 0 <= i < |ts| ==> TrackerOk(ts[i], capacity)) &&
    forall i, j :: 0 <= i < j < |ts| && ts[i].active && ts[j].active ==> ts[i].id != ts[j].id
  }

  lemma ClaimOk(ts: seq<Tracker>, c: Call, capacity: nat)
    requires AllOk(ts, capacity) && c.count <= MAX_FRAGMENTS
    ensures AllOk(Claim(ts, c).0, capacity)
    ensures var (u, slot) := Claim(ts, c); slot >= 0 ==> u[slot].active && u[slot].id == c.id
  {
    var j := FindFree(ts);
    if FindTracker(ts, c.id) < 0 && j >= 0 {
      OpenedOk(ts[j], c.id, c.count, c.time);
    }
  }

  lemma TakeOk(t: Tracker, c: Call, payload: nat, capacity: nat)
    requires TrackerOk(t, capacity) && c.index < c.count <= MAX_FRAGMENTS
    ensures TrackerOk(Take(t, c, payload).0, capacity) && Take(t, c, payload).0.id == t.id
    ensures Take(t, c, payload).0.active ==> t.active
  {
    if t.total == c.count && !t.mask[c.index] && c.index * payload + |c.data| <= |t.buffer| {
      StoredOk(t, c.index, c.data, c.index * payload);
    }
  }

  /** In every slot, after every call, the count is the number of bits set. */
  lemma OnFragmentOk(ts: seq<Tracker>, c: Call, payload: nat, capacity: nat)
    requires AllOk(ts, capacity) && c.count <= MAX_FRAGMENTS
    ensures AllOk(OnFragment(ts, c, payload).0, capacity)
  {
    if c.index < c.count {
      ClaimOk(ts, c, capacity);
      var (u, slot) := Claim(ts, c);
      if slot >= 0 {
        TakeOk(u[slot], c, payload, capacity);
      }
    }
  }

  // ---------------------------------------------------------------- one message among others

  /** A message with its id and payload size. */
  datatype Sent = Sent(id: nat, message: seq<Byte>, payload: nat)

  function Count(m: Sent): int {
    FragmentCount(|m.message|, m.payload)
  }

  /** The call carries a fragment of the message. */
  ghost predicate Genuine(c: Call, m: Sent) {
    c.id == m.id && c.count == Count(m) && c.index < c.count && c.data == Chunk(m.message, m.payload, c.index)
  }

  /** A slot that has the fragments `got` of the message and no others. */
  ghost predicate Has(t: Tracker, m: Sent, got: set<int>) {
    t.active && t.id == m.id && t.total == Count(m) && Holds(t, m.message, m.payload) &&
    forall i :: 0 <= i < MASK_BITS ==> (t.mask[i] <==> i in got)
  }

  /** The fragments `got` of the message have arrived, and are in one slot if there are any. */
  ghost predicate Progress(ts: seq<Tracker>, m: Sent, got: set<int>) {
    var i := FindTracker(ts, m.id);
    (forall k :: k in got ==> 0 <= k < Count(m)) &&
    if i < 0 then got == {} else got != {} && Has(ts[i], m, got)
  }

  lemma FindUnique(ts: seq<Tracker>, capacity: nat, i: int)
    requires AllOk(ts, capacity) && 0 <= i < |ts| && ts[i].active
    ensures FindTracker(ts, ts[i].id) == i
  {
  }

  /** A slot just opened for the message has none of its fragments. */
  lemma OpenedHas(t: Tracker, m: Sent, time: real)
    requires Count(m) != -1 && |m.message| <= |t.buffer|
    ensures Has(Opened(t, m.id, Count(m), time), m, {})
  {
    CountExact(|m.message|, m.payload);
  }

  /** Storing one more fragment of the message. */
  lemma TakeGenuine(t: Tracker, c: Call, m: Sent, got: set<int>)
    requires Genuine(c, m) && Has(t, m, got) && TrackerOk(t, |t.buffer|) && Count(m) != -1
    requires exists k :: 0 <= k < Count(m) && k !in got
    requires forall k :: k in got ==> 0 <= k < Count(m)
    ensures var (u, outcome) := Take(t, c, m.payload);
            if Finishes(got + {c.index}, m) then IsMessage(outcome, m) && !u.active
            else outcome == Nothing && Has(u, m, got + {c.index})
  {
    CountExact(|m.message|, m.payload);
    BaseIsProduct(c.index, m.payload);
    if c.index < Count(m) - 1 {
      RegionsDisjoint(c.index, Count(m) - 1, m.payload);
    }
    StoredHolds(t, m.message, m.payload, c.index);
    if c.index !in got {
      var u := Stored(t, c.index, c.data, c.index * m.payload);
      StoredOk(t, c.index, c.data, c.index * m.payload);
      assert forall i :: 0 <= i < MASK_BITS ==> (u.mask[i] <==> i in got + {c.index});
      CompleteIff(u, |t.buffer|);
      assert u.count == u.total <==> Finishes(got + {c.index}, m);
      if u.count == u.total {
        Restored(u, m.message, m.payload);
      }
    } else {
      assert got + {c.index} == got;
    }
  }

  ghost predicate Finishes(got: set<int>, m: Sent) {
    forall k :: 0 <= k < Count(m) ==> k in got
  }

  /** The outcome is the message, byte for byte. */
  ghost predicate IsMessage(outcome: Outcome, m: Sent) {
    outcome.Complete? && outcome.size == |m.message| <= |outcome.buffer| &&
    outcome.buffer[..outcome.size] == m.message
  }

  /** The slot claimed for a fragment of the message has the fragments that arrived before. */
  lemma ClaimedHas(ts: seq<Tracker>, c: Call, m: Sent, got: set<int>, capacity: nat)
    requires AllOk(ts, capacity) && Progress(ts, m, got) && Genuine(c, m)
    requires Count(m) != -1 && |m.message| <= capacity && (FindTracker(ts, m.id) >= 0 || FindFree(ts) >= 0)
    ensures var (claimed, slot) := Claim(ts, c);
            slot >= 0 && Has(claimed[slot], m, got) && TrackerOk(claimed[slot], capacity)
  {
    CountExact(|m.message|, m.payload);
    ClaimOk(ts, c, capacity);
    var (claimed, slot) := Claim(ts, c);
    assert TrackerOk(claimed[slot], capacity);
    if FindTracker(ts, m.id) < 0 {
      assert TrackerOk(ts[slot], capacity);
      OpenedHas(ts[slot], m, c.time);
    }
  }

  lemma OwnCall(ts: seq<Tracker>, c: Call, m: Sent, got: set<int>, capacity: nat)
    requires AllOk(ts, capacity) && Progress(ts, m, got) && Genuine(c, m) && !Finishes(got, m)
    requires Count(m) != -1 && |m.message| <= capacity && (FindTracker(ts, m.id) >= 0 || FindFree(ts) >= 0)
    ensures c.count <= MAX_FRAGMENTS
    ensures var (us, outcome) := OnFragment(ts, c, m.payload);
            if Finishes(got + {c.index}, m) then IsMessage(outcome, m)
            else outcome == Nothing && Progress(us, m, got + {c.index})
  {
    CountExact(|m.message|, m.payload);
    ClaimedHas(ts, c, m, got, capacity);
    var (claimed, slot) := Claim(ts, c);
    TakeGenuine(claimed[slot], c, m, got);
    if !Finishes(got + {c.index}, m) {
      OnFragmentOk(ts, c, m.payload, capacity);
      FindUnique(OnFragment(ts, c, m.payload).0, capacity, slot);
    }
  }

  /** A fragment of another message leaves this one's slot alone. */
  lemma OtherCall(ts: seq<Tracker>, c: Call, m: Sent, got: set<int>, capacity: nat)
    requires AllOk(ts, capacity) && Progress(ts, m, got) && c.id != m.id && c.count <= MAX_FRAGMENTS
    ensures Progress(OnFragment(ts, c, m.payload).0, m, got)
  {
    var us := OnFragment(ts, c, m.payload).0;
    OnFragmentOk(ts, c, m.payload, capacity);
    if c.index < c.count {
      ClaimOk(ts, c, capacity);
      var (claimed, slot) := Claim(ts, c);
      if slot >= 0 {
        TakeOk(claimed[slot], c, m.payload, capacity);
        assert us[slot].id == c.id;
        assert forall i :: 0 <= i < |ts| && i != slot ==> us[i] == ts[i];
      }
    }
    var i := FindTracker(ts, m.id);
    if i >= 0 {
      FindUnique(us, capacity, i);
    }
  }

  // ---------------------------------------------------------------- runs

  ghost predicate IdsWithin(ts: seq<Tracker>, ids: set<nat>) {
    forall i :: 0 <= i < |ts| && ts[i].active ==> ts[i].id in ids
  }

  /** With at most 15 other messages there is a slot for this one. */
  lemma SlotAvailable(ts: seq<Tracker>, capacity: nat, m: Sent, others: set<nat>)
    requires AllOk(ts, capacity) && IdsWithin(ts, others + {m.id}) && |others| < TRACKERS
    ensures FindTracker(ts, m.id) >= 0 || FindFree(ts) >= 0
  {
    if FindTracker(ts, m.id) < 0 && FindFree(ts) < 0 {
      var ids := seq(|ts|, i requires 0 <= i < |ts| => ts[i].id);
      assert Distinct(ids);
      DistinctCardinality(ids);
      SubsetCardinality(Elements(ids), others);
      assert false;
    }
  }

  function Reset(t: Tracker): Tracker {
    Tracker(0, 0, 0, seq(MASK_BITS, _ => false), 0.0, false, Zeros(|t.buffer|), seq(MAX_FRAGMENTS, _ => 0))
  }

  predicate Expired(t: Tracker, now: real) {
    t.active && now - t.first > TIMEOUT
  }

  /** The slots after a sweep for messages that never completed. */
  function Cleaned(ts: seq<Tracker>, now: real): seq<Tracker> {
    seq(|ts|, i requires 0 <= i < |ts| => if Expired(ts[i], now) then Reset(ts[i]) else ts[i])
  }

  /** A sweep frees exactly the slots whose message began more than five seconds ago. */
  lemma SweepExact(ts: seq<Tracker>, now: real, i: nat)
    requires i < |ts|
    ensures var t := Cleaned(ts, now)[i];
            if ts[i].active && now - ts[i].first > 5.0 then !t.active && t.count == t.total == 0 else t == ts[i]
  {
  }

  lemma CleanedOk(ts: seq<Tracker>, now: real, capacity: nat)
    requires AllOk(ts, capacity)
    ensures AllOk(Cleaned(ts, now), capacity)
  {
    forall i | 0 <= i < |ts| ensures TrackerOk(Cleaned(ts, now)[i], capacity) {
      SumFalse(Reset(ts[i]).mask);
    }
  }

  /** The reassembler as it is initialised. */
  function Idle(capacity: nat): seq<Tracker> {
    var t := Tracker(0, 0, 0, seq(MASK_BITS, _ => false), 0.0, false, Zeros(capacity), seq(MAX_FRAGMENTS, _ => 0));
    seq(TRACKERS, _ => t)
  }

  lemma IdleOk(capacity: nat)
    ensures AllOk(Idle(capacity), capacity)
  {
    SumFalse(Idle(capacity)[0].mask);
    assert forall i :: 0 <= i < TRACKERS ==> Idle(capacity)[i] == Idle(capacity)[0];
  }

  lemma OkIsShaped(ts: seq<Tracker>, capacity: nat)
    requires AllOk(ts, capacity)
    ensures Shaped(ts)
  {
    forall i | 0 <= i < |ts| ensures |ts[i].mask| == MASK_BITS && |ts[i].sizes| == MAX_FRAGMENTS {
      assert TrackerOk(ts[i], capacity);
    }
  }

  datatype Event = Arrive(c: Call) | Sweep(now: real)

  /** The wire carries the fragment count in one byte. */
  predicate Wire(e: Event) {
    e.Arrive? ==> e.c.count <= MAX_FRAGMENTS
  }

  ghost function Step(ts: seq<Tracker>, e: Event, payload: nat, capacity: nat): (r: (seq<Tracker>, Outcome))
    requires AllOk(ts, capacity) && Wire(e)
    ensures AllOk(r.0, capacity)
  {
    OkIsShaped(ts, capacity);
    match e
    case Arrive(c) => OnFragmentOk(ts, c, payload, capacity); OnFragment(ts, c, payload)
    case Sweep(now) => CleanedOk(ts, now, capacity); (Cleaned(ts, now), Nothing)
  }

  /** The slots after these events, and what each event returned. */
  ghost function Run(events: seq<Event>, payload: nat, capacity: nat): (r: (seq<Tracker>, seq<Outcome>))
    requires forall i :: 0 <= i < |events| ==> Wire(events[i])
    ensures AllOk(r.0, capacity) && |r.1| == |events|
  {
    if events == [] then
      IdleOk(capacity);
      (Idle(capacity), [])
    else
      var (ts, outcomes) := Run(events[..|events| - 1], payload, capacity);
      var (us, outcome) := Step(ts, events[|events| - 1], payload, capacity);
      (us, outcomes + [outcome])
  }

  /** The fragment of the message an event brings, if any. */
  function Brings(e: Event, m: Sent): set<int> {
    if e.Arrive? && e.c.id == m.id then {e.c.index} else {}
  }

  /** The fragments of the message among these events. */
  function Got(events: seq<Event>, m: Sent): set<int> {
    if events == [] then {} else
      Got(events[..|events| - 1], m) + Brings(events[|events| - 1], m)
  }

  /**
   * Fragments of the message, in any order and with repeats, all arriving at `start` or later,
   * among fragments of at most 15 other messages; and no sweep more than the timeout after `start`.
   */
  ghost predicate Traffic(events: seq<Event>, m: Sent, others: set<nat>, start: real) {
    Count(m) != -1 && |others| <= 15 &&
    forall i :: 0 <= i < |events| ==> Wire(events[i]) && Belongs(events[i], m, others, start)
  }

  ghost predicate Belongs(e: Event, m: Sent, others: set<nat>, start: real) {
    match e
    case Arrive(c) => (Genuine(c, m) && c.time >= start) || (c.id != m.id && c.id in others)
    case Sweep(now) => now - start <= 5.0
  }

  /** What every event keeps about the slots while the message is incomplete. */
  ghost predicate Open(ts: seq<Tracker>, m: Sent, others: set<nat>, start: real, got: set<int>) {
    Progress(ts, m, got) && IdsWithin(ts, others + {m.id}) &&
    forall i :: 0 <= i < |ts| && ts[i].active && ts[i].id == m.id ==> ts[i].first >= start
  }

  /** Which slots a fragment touches: one, of its own message, opened now or before. */
  lemma OnFragmentFrame(ts: seq<Tracker>, c: Call, payload: nat, capacity: nat)
    requires AllOk(ts, capacity) && c.count <= MAX_FRAGMENTS
    ensures var us := OnFragment(ts, c, payload).0;
            forall i :: 0 <= i < |ts| && us[i].active ==>
              us[i] == ts[i] || (us[i].id == c.id && us[i].first == c.time) ||
              (ts[i].active && us[i].id == ts[i].id == c.id && us[i].first == ts[i].first)
  {
    if c.index < c.count {
      ClaimOk(ts, c, capacity);
    }
  }

  lemma SweepKeeps(ts: seq<Tracker>, now: real, m: Sent, others: set<nat>, start: real, got: set<int>, capacity: nat)
    requires AllOk(ts, capacity) && Open(ts, m, others, start, got) && now - start <= TIMEOUT
    ensures Open(Cleaned(ts, now), m, others, start, got)
  {
    CleanedOk(ts, now, capacity);
    var i := FindTracker(ts, m.id);
    if i >= 0 {
      assert Cleaned(ts, now)[i] == ts[i];
      FindUnique(Cleaned(ts, now), capacity, i);
    }
  }

  lemma ArriveKeeps(ts: seq<Tracker>, c: Call, m: Sent, others: set<nat>, start: real, got: set<int>, capacity: nat)
    requires AllOk(ts, capacity) && Open(ts, m, others, start, got) && !Finishes(got, m)
    requires Count(m) != -1 && |m.message| <= capacity && |others| < TRACKERS
    requires c.count <= MAX_FRAGMENTS && Belongs(Arrive(c), m, others, start)
    ensures var (us, outcome) := OnFragment(ts, c, m.payload);
            var now := if c.id == m.id then got + {c.index} else got;
            if Finishes(now, m) then IsMessage(outcome, m)
            else Open(us, m, others, start, now) && (c.id == m.id ==> outcome == Nothing)
  {
    OnFragmentFrame(ts, c, m.payload, capacity);
    if c.id == m.id {
      SlotAvailable(ts, capacity, m, others);
      OwnCall(ts, c, m, got, capacity);
    } else {
      OtherCall(ts, c, m, got, capacity);
    }
  }

  lemma StepKeeps(ts: seq<Tracker>, e: Event, m: Sent, others: set<nat>, start: real, got: set<int>, capacity: nat)
    requires AllOk(ts, capacity) && Open(ts, m, others, start, got) && !Finishes(got, m)
    requires Count(m) != -1 && |m.message| <= capacity && |others| < TRACKERS
    requires Wire(e) && Belongs(e, m, others, start)
    ensures var (us, outcome) := Step(ts, e, m.payload, capacity);
            if Finishes(got + Brings(e, m), m) then IsMessage(outcome, m)
            else Open(us, m, others, start, got + Brings(e, m)) && (Brings(e, m) != {} ==> outcome == Nothing)
  {
    match e
    case Arrive(c) =>
      assert c.id != m.id ==> got + Brings(e, m) == got;
      ArriveKeeps(ts, c, m, others, start, got, capacity);
    case Sweep(now) =>
      assert got + Brings(e, m) == got;
      SweepKeeps(ts, now, m, others, start, got, capacity);
  }

  /** No event that brought a fragment of the message returned anything. */
  ghost predicate Quiet(events: seq<Event>, outcomes: seq<Outcome>, m: Sent) {
    |outcomes| == |events| &&
    forall i :: 0 <= i < |events| && Brings(events[i], m) != {} ==> outcomes[i] == Nothing
  }

  lemma QuietPush(events: seq<Event>, outcomes: seq<Outcome>, m: Sent, e: Event, outcome: Outcome)
    requires Quiet(events, outcomes, m) && (Brings(e, m) != {} ==> outcome == Nothing)
    ensures Quiet(events + [e], outcomes + [outcome], m)
  {
  }

  lemma TrafficPrefix(events: seq<Event>, m: Sent, others: set<nat>, start: real)
    requires Traffic(events, m, others, start) && events != []
    ensures Traffic(events[..|events| - 1], m, others, start)
    ensures Wire(events[|events| - 1]) && Belongs(events[|events| - 1], m, others, start)
  {
  }

  /** Before its last missing fragment no event returns the message or loses any of its fragments. */
  lemma {:induction false} BeforeLast(events: seq<Event>, m: Sent, others: set<nat>, start: real, capacity: nat)
    requires Traffic(events, m, others, start) && |m.message| <= capacity && !Finishes(Got(events, m), m)
    ensures Open(Run(events, m.payload, capacity).0, m, others, start, Got(events, m))
    ensures Quiet(events, Run(events, m.payload, capacity).1, m)
  {
    if events != [] {
      var before, e := events[..|events| - 1], events[|events| - 1];
      TrafficPrefix(events, m, others, start);
      Incomplete(Got(before, m), Brings(e, m), m);
      BeforeLast(before, m, others, start, capacity);
      var (ts, outcomes) := Run(before, m.payload, capacity);
      StepKeeps(ts, e, m, others, start, Got(before, m), capacity);
      QuietPush(before, outcomes, m, e, Step(ts, e, m.payload, capacity).1);
      assert before + [e] == events;
    }
  }

  lemma Incomplete(got: set<int>, more: set<int>, m: Sent)
    requires !Finishes(got + more, m)
    ensures !Finishes(got, m)
  {
  }

  /**
   * Reassembly: a message cut into fragments that arrive in any order, repeated and mixed with those of up
   * to 15 other messages, is returned byte for byte by the event that brings its last missing fragment and
   * by none before it.
   */
  lemma Reassembly(events: seq<Event>, c: Call, m: Sent, others: set<nat>, start: real, capacity: nat)
    requires Traffic(events, m, others, start) && Genuine(c, m) && c.time >= start && |m.message| <= capacity
    requires c.index !in Got(events, m) && Finishes(Got(events, m) + {c.index}, m)
    ensures Wire(Arrive(c))
    ensures var (ts, outcomes) := Run(events, m.payload, capacity);
            Quiet(events, outcomes, m) && IsMessage(Step(ts, Arrive(c), m.payload, capacity).1, m)
  {
    CountExact(|m.message|, m.payload);
    BeforeLast(events, m, others, start, capacity);
    StepKeeps(Run(events, m.payload, capacity).0, Arrive(c), m, others, start, Got(events, m), capacity);
  }
}
