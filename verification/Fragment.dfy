/**
 * The reassembly slots in place (src/fragment/fragment.h): each slot keeps a 32-byte bitmask, the sizes of
 * its fragments and a buffer allocated once.  Every operation is proved against its counterpart on values.
 */
module Fragment {
  import opened Bytes
  import opened Collections
  import opened FragmentSpec

  // ---------------------------------------------------------------- bits

  function BitAt(k: nat): bv8
    requires k < 8
  {
    match k
    case 0 => 1
    case 1 => 2
    case 2 => 4
    case 3 => 8
    case 4 => 16
    case 5 => 32
    case 6 => 64
    case _ => 128
  }

  predicate HasBit(b: bv8, k: nat)
    requires k < 8
  {
    b & BitAt(k) != 0
  }

  /** Setting one bit of a byte sets that bit and no other. */
  lemma SetBit(b: bv8, k: nat, j: nat)
    requires k < 8 && j < 8
    ensures HasBit(b | BitAt(k), j) <==> j == k || HasBit(b, j)
  {
    var x, y := BitAt(k), BitAt(j);
    assert (b | x) & y == (b & y) | (x & y);
    if j == k {
      assert x & y == x && x != 0;
      OrNonZero(b & y, x);
    } else {
      BitsApart(k, j);
      assert (b & y) | 0 == b & y;
    }
  }

  lemma OrNonZero(a: bv8, b: bv8)
    requires b != 0
    ensures a | b != 0
  {
  }

  lemma BitsApart(k: nat, j: nat)
    requires k < 8 && j < 8 && k != j
    ensures BitAt(k) & BitAt(j) == 0
  {
  }

  /** The mask as 256 flags. */
  ghost function Flags(mask: seq<bv8>): (r: seq<bool>)
    requires |mask| == 32
    ensures |r| == MASK_BITS
  {
    seq(MASK_BITS, i requires 0 <= i < MASK_BITS => HasBit(mask[i / 8], i % 8))
  }

  lemma FlagsSet(mask: seq<bv8>, index: nat)
    requires |mask| == 32 && index < MASK_BITS
    ensures Flags(mask[index / 8 := mask[index / 8] | BitAt(index % 8)]) == Flags(mask)[index := true]
  {
    var after := mask[index / 8 := mask[index / 8] | BitAt(index % 8)];
    forall i | 0 <= i < MASK_BITS ensures Flags(after)[i] == Flags(mask)[index := true][i] {
      if i / 8 == index / 8 {
        SetBit(mask[index / 8], index % 8, i % 8);
      }
    }
  }

  lemma FlagsClear(mask: seq<bv8>)
    requires |mask| == 32 && forall i :: 0 <= i < 32 ==> mask[i] == 0
    ensures Flags(mask) == seq(MASK_BITS, _ => false)
  {
    forall i | 0 <= i < MASK_BITS ensures !Flags(mask)[i] {
      assert mask[i / 8] == 0;
      assert 0 & BitAt(i % 8) == 0;
    }
  }

  // ---------------------------------------------------------------- one slot

  method Fill<T>(a: array<T>, x: T)
    modifies a
    ensures a[..] == seq(a.Length, _ => x)
  {
    for i := 0 to a.Length
      invariant forall k :: 0 <= k < i ==> a[k] == x
    {
      a[i] := x;
    }
  }

  class FragmentTracker {
    var messageId: nat
    var totalFragments: nat
    var receivedCount: nat
    var firstRecvTime: real
    var active: bool
    const receivedMask: array<bv8>
    const fragmentSizes: array<nat>
    const buffer: array<Byte>

    function Parts(): set<object> {
      {this, receivedMask, fragmentSizes, buffer}
    }

    ghost predicate Valid() {
      receivedMask.Length == 32 && fragmentSizes.Length == MAX_FRAGMENTS &&
      var mask: object, sizes: object, bytes: object := receivedMask, fragmentSizes, buffer;
      mask != sizes && mask != bytes && sizes != bytes
    }

    ghost function View(): (t: Tracker)
      requires Valid()
      reads Parts()
      ensures |t.mask| == MASK_BITS && |t.sizes| == MAX_FRAGMENTS && |t.buffer| == buffer.Length
    {
      Tracker(messageId, totalFragments, receivedCount, Flags(receivedMask[..]), firstRecvTime, active,
              buffer[..], fragmentSizes[..])
    }

    constructor (capacity: nat)
      ensures Valid() && buffer.Length == capacity && fresh(Parts())
      ensures View() == Idle(capacity)[0]
    {
      messageId, totalFragments, receivedCount, firstRecvTime, active := 0, 0, 0, 0.0, false;
      receivedMask := new bv8[32](_ => 0);
      fragmentSizes := new nat[MAX_FRAGMENTS](_ => 0);
      buffer := new Byte[capacity](_ => 0);
      new;
      FlagsClear(receivedMask[..]);
      assert buffer[..] == Zeros(capacity);
      assert fragmentSizes[..] == seq(MAX_FRAGMENTS, _ => 0);
    }

    function HasFragment(index: nat): (r: bool)
      requires Valid() && index < MASK_BITS
      reads Parts()
      ensures r == View().mask[index]
    {
      HasBit(receivedMask[index / 8], index % 8)
    }

    method MarkFragment(index: nat)
      requires Valid() && index < MASK_BITS
      modifies this`receivedCount, receivedMask
      ensures View() == old(View()).(mask := old(View()).mask[index := true],
                                     count := old(View()).count + if old(View()).mask[index] then 0 else 1)
    {
      if !HasFragment(index) {
        ghost var mask := receivedMask[..];
        FlagsSet(mask, index);
        receivedMask[index / 8] := receivedMask[index / 8] | BitAt(index % 8);
        receivedCount := receivedCount + 1;
        assert receivedMask[..] == mask[index / 8 := mask[index / 8] | BitAt(index % 8)];
        assert Flags(receivedMask[..]) == old(View()).mask[index := true];
      } else {
        assert View().mask[index := true] == View().mask;
      }
    }

    /** The least fragment not yet received, or -1 when all have been. */
    method NextMissing() returns (r: int)
      requires Valid() && totalFragments <= MAX_FRAGMENTS
      ensures -1 <= r < totalFragments
      ensures r >= 0 ==> !View().mask[r]
      ensures forall i :: 0 <= i < (if r >= 0 then r else totalFragments) ==> View().mask[i]
    {
      for i := 0 to totalFragments
        invariant forall k :: 0 <= k < i ==> View().mask[k]
      {
        if !HasFragment(i) {
          return i;
        }
      }
      return -1;
    }

    method TotalMessageSize() returns (total: nat)
      requires Valid() && totalFragments <= MAX_FRAGMENTS
      ensures total == TotalSize(View().sizes, totalFragments)
    {
      total := 0;
      for i := 0 to totalFragments
        invariant total == TotalSize(fragmentSizes[..], i)
      {
        total := total + fragmentSizes[i];
      }
    }

    method Clear()
      requires Valid()
      modifies Parts()
      ensures View() == Reset(old(View()))
    {
      messageId, totalFragments, receivedCount, firstRecvTime, active := 0, 0, 0, 0.0, false;
      Fill(receivedMask, 0);
      Fill(fragmentSizes, 0);
      Fill(buffer, 0);
      FlagsClear(receivedMask[..]);
    }

    method Start(id: nat, total: nat, time: real)
      requires Valid()
      modifies Parts()
      ensures View() == Opened(old(View()), id, total, time)
    {
      Clear();
      messageId, totalFragments, firstRecvTime, active := id, total, time, true;
    }

    method Store(index: nat, data: seq<Byte>, offset: nat)
      requires Valid() && index < MAX_FRAGMENTS && offset + |data| <= buffer.Length
      modifies Parts()
      ensures View() == Stored(old(View()), index, data, offset)
    {
      CopyInto(buffer, offset, data);
      fragmentSizes[index] := |data|;
      assert View() == old(View()).(buffer := Splice(old(View()).buffer, offset, data),
                                    sizes := old(View()).sizes[index := |data|]);
      MarkFragment(index);
    }

    /** What on_fragment_received does once the slot is known. */
    method Accept(c: Call, payload: nat) returns (complete: bool, size: nat)
      requires Valid() && c.index < c.count <= MAX_FRAGMENTS
      modifies Parts()
      ensures (View(), if complete then Complete(View().buffer, size) else Nothing) == Take(old(View()), c, payload)
    {
      complete, size := false, 0;
      if totalFragments != c.count || HasFragment(c.index) || c.index * payload + |c.data| > buffer.Length {
        return;
      }
      Store(c.index, c.data, c.index * payload);
      if receivedCount == totalFragments {
        size := TotalMessageSize();
        complete, active := true, false;
      }
    }
  }

  // ---------------------------------------------------------------- the slots

  function ExpiredWeight(now: real): (nat, Tracker) -> nat {
    (i: nat, t: Tracker) => if Expired(t, now) then 1 else 0
  }

  /** The slots when the first `k` of them have been swept. */
  ghost function Swept(ts: seq<Tracker>, now: real, k: nat): seq<Tracker>
    requires k <= |ts|
  {
    Cleaned(ts, now)[..k] + ts[k..]
  }

  lemma SweptStep(ts: seq<Tracker>, now: real, k: nat)
    requires k < |ts|
    ensures var s := Swept(ts, now, k); s[k] == ts[k] && s[k := Cleaned(s, now)[k]] == Swept(ts, now, k + 1)
    ensures Sum(ts[..k + 1], ExpiredWeight(now)) ==
            Sum(ts[..k], ExpiredWeight(now)) + if Expired(ts[k], now) then 1 else 0
  {
    assert ts[..k + 1][..k] == ts[..k];
  }

  class FragmentReassembler {
    const trackers: seq<FragmentTracker>

    ghost function Parts(): set<object> {
      set i, o | 0 <= i < |trackers| && o in trackers[i].Parts() :: o
    }

    ghost predicate Valid() {
      |trackers| == TRACKERS && (forall i :: 0 <= i < |trackers| ==> trackers[i].Valid()) &&
      forall i, j :: 0 <= i < j < |trackers| ==> trackers[i].Parts() !! trackers[j].Parts()
    }

    ghost function View(): (ts: seq<Tracker>)
      requires Valid()
      reads Parts()
      ensures Shaped(ts) && |ts| == TRACKERS
    {
      seq(|trackers|, i requires 0 <= i < |trackers| reads Parts() => trackers[i].View())
    }

    constructor (capacity: nat)
      ensures Valid() && fresh(Parts()) && View() == Idle(capacity)
    {
      var made: seq<FragmentTracker> := [];
      for k := 0 to TRACKERS
        invariant |made| == k
        invariant forall i :: 0 <= i < k ==> fresh(made[i].Parts()) && made[i].Valid()
        invariant forall i :: 0 <= i < k ==> made[i].View() == Idle(capacity)[0]
        invariant forall i, j :: 0 <= i < j < k ==> made[i].Parts() !! made[j].Parts()
      {
        var t := new FragmentTracker(capacity);
        made := made + [t];
      }
      trackers := made;
    }

    /** Changing one slot changes that slot of the view and no other. */
    twostate lemma OneChanged(k: nat)
      requires Valid() && k < |trackers|
      requires forall i :: 0 <= i < |trackers| && i != k ==> trackers[i].View() == old(trackers[i].View())
      ensures View() == old(View())[k := trackers[k].View()]
    {
    }

    method FindSlot(id: nat) returns (slot: int)
      requires Valid()
      ensures slot == FindTracker(View(), id)
    {
      for i := 0 to TRACKERS
        invariant forall k :: 0 <= k < i ==> !(View()[k].active && View()[k].id == id)
      {
        assert View()[i] == trackers[i].View();
        if trackers[i].active && trackers[i].messageId == id {
          return i;
        }
      }
      return -1;
    }

    method AllocateTracker(id: nat, count: nat, time: real) returns (slot: int)
      requires Valid()
      modifies Parts()
      ensures slot == FindFree(old(View()))
      ensures View() ==
              if slot >= 0 then old(View())[slot := Opened(old(View())[slot], id, count, time)] else old(View())
    {
      for i := 0 to TRACKERS
        invariant View() == old(View())
        invariant forall k :: 0 <= k < i ==> View()[k].active
      {
        assert View()[i] == trackers[i].View();
        if !trackers[i].active {
          trackers[i].Start(id, count, time);
          OneChanged(i);
          return i;
        }
      }
      return -1;
    }

    method ClaimSlot(c: Call) returns (slot: int)
      requires Valid()
      modifies Parts()
      ensures (View(), slot) == Claim(old(View()), c)
    {
      slot := FindSlot(c.id);
      if slot < 0 {
        slot := AllocateTracker(c.id, c.count, c.time);
      }
    }

    /** The buffer and the size of the message when this fragment completes it. */
    method OnFragmentReceived(c: Call, payload: nat) returns (message: array?<Byte>, size: nat)
      requires Valid() && c.count <= MAX_FRAGMENTS
      modifies Parts()
      ensures (View(), if message != null then Complete(message[..], size) else Nothing) ==
              OnFragment(old(View()), c, payload)
    {
      message, size := null, 0;
      if c.count == 0 || c.index >= c.count {
        return;
      }
      var slot := ClaimSlot(c);
      if slot < 0 {
        return;
      }
      label claimed:
      var complete, n := trackers[slot].Accept(c, payload);
      OneChanged@claimed(slot);
      if complete {
        message, size := trackers[slot].buffer, n;
      }
    }

    method CleanSlot(i: nat, now: real) returns (expired: bool)
      requires Valid() && i < TRACKERS
      modifies Parts()
      ensures expired == Expired(old(View())[i], now)
      ensures View() == old(View())[i := Cleaned(old(View()), now)[i]]
    {
      assert View()[i] == trackers[i].View();
      expired := trackers[i].active && now - trackers[i].firstRecvTime > TIMEOUT;
      if expired {
        trackers[i].Clear();
        OneChanged(i);
      }
    }

    method CleanupTimeout(now: real) returns (cleaned: nat)
      requires Valid()
      modifies Parts()
      ensures View() == Cleaned(old(View()), now)
      ensures cleaned == Sum(old(View()), ExpiredWeight(now))
    {
      cleaned := 0;
      ghost var before := View();
      for i := 0 to TRACKERS
        invariant View() == Swept(before, now, i)
        invariant cleaned == Sum(before[..i], ExpiredWeight(now))
      {
        SweptStep(before, now, i);
        var expired := CleanSlot(i, now);
        if expired {
          cleaned := cleaned + 1;
        }
      }
      assert before[..TRACKERS] == before;
    }
  }
}
