/**
 * Multicast groups (src/group/group.h and the group API of src/server.cpp).
 * A group's member list and reverse map are regions of two pools shared by all groups.
 */
module Groups {
  import opened Arith
  import opened Collections
  import opened Rosters
  import S = ServerSpec

  /** The fields of a group; `memberBase` and `slotBase` are its pointers into the pools. */
  datatype Record = Record(active: bool, groupId: int, memberBase: int, memberCount: int, slotBase: int)

  const RESET := Record(false, -1, 0, 0, 0)

  // ---------------------------------------------------------------- regions

  /** `s` and `t` agree outside region `g`. */
  ghost predicate AgreeOutside(s: seq<int>, t: seq<int>, g: nat, size: nat) {
    |s| == |t| &&
    forall i :: 0 <= i < |s| && !(Base(g, size) <= i < Base(g, size) + size) ==> s[i] == t[i]
  }

  lemma OtherRegionKept(s: seq<int>, t: seq<int>, g: nat, h: nat, size: nat, length: nat)
    requires AgreeOutside(s, t, g, size) && g != h && length <= size && Base(h, size) + size <= |s|
    ensures s[Base(h, size)..Base(h, size) + length] == t[Base(h, size)..Base(h, size) + length]
  {
    if g < h {
      RegionsDisjoint(g, h, size);
    } else {
      RegionsDisjoint(h, g, size);
    }
  }

  // ---------------------------------------------------------------- what the pools mean

  /** Pool contents and limits; `n` is the number of client slots. */
  datatype Pools = Pools(members: seq<int>, slots: seq<int>, capacity: nat, n: nat)

  /** A group in use owns region `g` of both pools. */
  predicate Owns(r: Record, g: nat, p: Pools) {
    r.active ==>
      r.memberBase == Base(g, p.capacity) && r.slotBase == Base(g, p.n) && 0 <= r.memberCount <= p.capacity &&
      Base(g, p.capacity) + p.capacity <= |p.members| && Base(g, p.n) + p.n <= |p.slots|
  }

  function Meaning(r: Record, g: nat, p: Pools): S.Group
    requires Owns(r, g, p)
  {
    if !r.active then S.NoGroup else
      S.Group(Roster(p.members[r.memberBase..r.memberBase + r.memberCount], p.slots[r.slotBase..r.slotBase + p.n]))
  }

  ghost predicate Sound(r: Record, g: nat, p: Pools) {
    Owns(r, g, p) && (r.active ==> Inverse(Meaning(r, g, p).roster))
  }

  ghost predicate AllSound(records: seq<Record>, p: Pools) {
    forall g :: 0 <= g < |records| ==> Sound(records[g], g, p)
  }

  function View(records: seq<Record>, p: Pools): (v: seq<S.Group>)
    requires AllSound(records, p)
    ensures |v| == |records| && forall g :: 0 <= g < |records| ==> v[g] == Meaning(records[g], g, p)
  {
    seq(|records|, g requires 0 <= g < |records| => Meaning(records[g], g, p))
  }

  /** A record whose regions read as a well-formed roster is sound. */
  lemma MeaningIs(r: Record, g: nat, p: Pools, roster: Roster)
    requires Owns(r, g, p) && r.active && Inverse(roster)
    requires p.members[r.memberBase..r.memberBase + r.memberCount] == roster.list
    requires p.slots[r.slotBase..r.slotBase + p.n] == roster.pos
    ensures Sound(r, g, p) && Meaning(r, g, p) == S.Group(roster)
  {
  }

  lemma OtherMeaningKept(r: Record, g: nat, h: nat, p: Pools, q: Pools)
    requires Sound(r, h, p) && g != h && q.capacity == p.capacity && q.n == p.n
    requires AgreeOutside(p.members, q.members, g, p.capacity) && AgreeOutside(p.slots, q.slots, g, p.n)
    ensures Sound(r, h, q) && Meaning(r, h, q) == Meaning(r, h, p)
  {
    if r.active {
      OtherRegionKept(p.members, q.members, g, h, p.capacity, r.memberCount);
      OtherRegionKept(p.slots, q.slots, g, h, p.n, p.n);
      MeaningIs(r, h, q, Meaning(r, h, p).roster);
    }
  }

  /** Work confined to one group's regions changes the meaning of that group only. */
  lemma OneChanged(records: seq<Record>, p: Pools, g: nat, r: Record, q: Pools)
    requires AllSound(records, p) && g < |records| && Sound(r, g, q)
    requires q.capacity == p.capacity && q.n == p.n
    requires AgreeOutside(p.members, q.members, g, p.capacity) && AgreeOutside(p.slots, q.slots, g, p.n)
    ensures AllSound(records[g := r], q)
    ensures View(records[g := r], q) == View(records, p)[g := Meaning(r, g, q)]
  {
    forall h | 0 <= h < |records| && h != g
      ensures Sound(records[h], h, q) && Meaning(records[h], h, q) == Meaning(records[h], h, p)
    {
      OtherMeaningKept(records[h], g, h, p, q);
    }
  }

  // ---------------------------------------------------------------- writes inside one region

  lemma SliceSet(s: seq<int>, lo: int, hi: int, i: int, v: int)
    requires 0 <= lo <= i < hi <= |s|
    ensures s[i := v][lo..hi] == s[lo..hi][i - lo := v]
  {
  }

  lemma SlicePush(s: seq<int>, lo: int, hi: int, v: int)
    requires 0 <= lo <= hi < |s|
    ensures s[hi := v][lo..hi + 1] == s[lo..hi] + [v]
  {
  }

  lemma AgreeSet(s: seq<int>, g: nat, size: nat, i: int, v: int)
    requires Base(g, size) <= i < Base(g, size) + size <= |s|
    ensures AgreeOutside(s, s[i := v], g, size)
  {
  }

  /** Two writes inside region `g`. */
  lemma SetTwice(s: seq<int>, g: nat, size: nat, i: int, v: int, j: int, w: int)
    requires Base(g, size) + size <= |s| && 0 <= i < size && 0 <= j < size
    ensures var b := Base(g, size);
            s[b + i := v][b + j := w][b..b + size] == s[b..b + size][i := v][j := w] &&
            AgreeOutside(s, s[b + i := v][b + j := w], g, size)
  {
  }

  lemma AddMeaning(r: Record, g: nat, p: Pools, slot: int)
    requires Sound(r, g, p) && r.active && 0 <= slot < p.n && r.memberCount < p.capacity
    requires !Has(Meaning(r, g, p).roster, slot)
    ensures var q := p.(members := p.members[r.memberBase + r.memberCount := slot],
                        slots := p.slots[r.slotBase + slot := r.memberCount]);
            var r' := r.(memberCount := r.memberCount + 1);
            Sound(r', g, q) && Meaning(r', g, q) == S.Group(Added(Meaning(r, g, p).roster, slot)) &&
            AgreeOutside(p.members, q.members, g, p.capacity) && AgreeOutside(p.slots, q.slots, g, p.n)
  {
    var roster := Meaning(r, g, p).roster;
    AddedOk(roster, slot);
    SlicePush(p.members, r.memberBase, r.memberBase + r.memberCount, slot);
    SliceSet(p.slots, r.slotBase, r.slotBase + p.n, r.slotBase + slot, r.memberCount);
    AgreeSet(p.members, g, p.capacity, r.memberBase + r.memberCount, slot);
    AgreeSet(p.slots, g, p.n, r.slotBase + slot, r.memberCount);
    var q := p.(members := p.members[r.memberBase + r.memberCount := slot],
                slots := p.slots[r.slotBase + slot := r.memberCount]);
    MeaningIs(r.(memberCount := r.memberCount + 1), g, q, Added(roster, slot));
  }

  /** The last member is a client slot. */
  predicate LastInRange(r: Record, p: Pools) {
    0 <= r.memberBase && 0 <= r.slotBase && r.memberBase + r.memberCount <= |p.members| &&
    r.slotBase + p.n <= |p.slots| &&
    (0 < r.memberCount ==> 0 <= p.members[r.memberBase + r.memberCount - 1] < p.n)
  }

  lemma LastMember(r: Record, g: nat, p: Pools)
    requires Sound(r, g, p) && r.active
    ensures LastInRange(r, p)
  {
    if 0 < r.memberCount {
      assert 0 <= Meaning(r, g, p).roster.list[r.memberCount - 1] < p.n;
    }
  }

  /** Where a member stands and which member will replace it. */
  lemma MemberAt(r: Record, g: nat, p: Pools, slot: int)
    requires Sound(r, g, p) && r.active && Has(Meaning(r, g, p).roster, slot)
    ensures 0 < r.memberCount && 0 <= slot < p.n
    ensures p.slots[r.slotBase + slot] == Meaning(r, g, p).roster.pos[slot]
    ensures p.members[r.memberBase + r.memberCount - 1] == Meaning(r, g, p).roster.list[r.memberCount - 1]
    ensures 0 <= p.slots[r.slotBase + slot] < r.memberCount
    ensures 0 <= p.members[r.memberBase + r.memberCount - 1] < p.n
  {
    var roster := Meaning(r, g, p).roster;
    assert roster.list[roster.pos[slot]] == slot;
    assert 0 <= roster.list[r.memberCount - 1] < p.n;
  }

  /** The member pool after a swap-remove: the last member takes the place of `slot`. */
  function RemoveMembers(r: Record, p: Pools, pos: nat): seq<int>
    requires 0 <= r.memberBase && r.memberBase + r.memberCount <= |p.members|
  {
    var last := r.memberCount - 1;
    if pos < last then p.members[r.memberBase + pos := p.members[r.memberBase + last]] else p.members
  }

  /** The reverse map after it; `slot` may be beyond the group's own region. */
  function RemoveSlots(r: Record, p: Pools, pos: nat, slot: nat): seq<int>
    requires 0 <= r.memberBase && r.memberBase + r.memberCount <= |p.members|
    requires 0 <= r.slotBase && r.slotBase + p.n <= |p.slots| && r.slotBase + slot < |p.slots|
    requires 0 < r.memberCount ==> 0 <= p.members[r.memberBase + r.memberCount - 1] < p.n
  {
    var last := r.memberCount - 1;
    (if pos < last then p.slots[r.slotBase + p.members[r.memberBase + last] := pos] else p.slots)
    [r.slotBase + slot := -1]
  }

  lemma RemoveMembersOk(r: Record, g: nat, p: Pools, slot: int)
    requires Sound(r, g, p) && r.active && Has(Meaning(r, g, p).roster, slot)
    ensures var q := RemoveMembers(r, p, Meaning(r, g, p).roster.pos[slot]);
            AgreeOutside(p.members, q, g, p.capacity) &&
            q[r.memberBase..r.memberBase + r.memberCount - 1] == Removed(Meaning(r, g, p).roster, slot).list
  {
    MemberAt(r, g, p, slot);
    var last, pos := r.memberCount - 1, Meaning(r, g, p).roster.pos[slot];
    if pos < last {
      SliceSet(p.members, r.memberBase, r.memberBase + last, r.memberBase + pos, p.members[r.memberBase + last]);
      AgreeSet(p.members, g, p.capacity, r.memberBase + pos, p.members[r.memberBase + last]);
    }
  }

  lemma RemoveSlotsOk(r: Record, g: nat, p: Pools, slot: int)
    requires Sound(r, g, p) && r.active && Has(Meaning(r, g, p).roster, slot)
    ensures 0 <= p.members[r.memberBase + r.memberCount - 1] < p.n && 0 <= slot < p.n
    ensures var q := RemoveSlots(r, p, Meaning(r, g, p).roster.pos[slot], slot);
            AgreeOutside(p.slots, q, g, p.n) &&
            q[r.slotBase..r.slotBase + p.n] == Removed(Meaning(r, g, p).roster, slot).pos
  {
    MemberAt(r, g, p, slot);
    RemovedPos(Meaning(r, g, p).roster, slot);
    RemoveSlotsAt(r, g, p, p.slots[r.slotBase + slot], slot);
  }

  lemma RemoveSlotsAt(r: Record, g: nat, p: Pools, at: int, slot: int)
    requires Owns(r, g, p) && r.active && 0 <= at < r.memberCount && 0 <= slot < p.n
    requires 0 <= p.members[r.memberBase + r.memberCount - 1] < p.n
    ensures var q := RemoveSlots(r, p, at, slot);
            var pos := p.slots[r.slotBase..r.slotBase + p.n];
            var moved := p.members[r.memberBase + r.memberCount - 1];
            AgreeOutside(p.slots, q, g, p.n) &&
            q[r.slotBase..r.slotBase + p.n] == (if at < r.memberCount - 1 then pos[moved := at] else pos)[slot := -1]
  {
    SetOneOrTwo(p.slots, g, p.n, p.members[r.memberBase + r.memberCount - 1], at, slot, at < r.memberCount - 1);
  }

  /** What swap-remove does to the reverse map. */
  lemma RemovedPos(roster: Roster, slot: int)
    requires Inverse(roster) && Has(roster, slot)
    ensures roster.list != []
    ensures var last := |roster.list| - 1;
            var moved := roster.list[last];
            0 <= moved < |roster.pos| &&
            var pos := roster.pos;
            Removed(roster, slot).pos == (if pos[slot] < last then pos[moved := pos[slot]] else pos)[slot := -1]
  {
    assert roster.list[roster.pos[slot]] == slot;
  }

  lemma SetOneOrTwo(slots: seq<int>, g: nat, n: nat, moved: int, at: int, slot: int, both: bool)
    requires Base(g, n) + n <= |slots| && 0 <= moved < n && 0 <= slot < n
    ensures var b := Base(g, n);
            var q := (if both then slots[b + moved := at] else slots)[b + slot := -1];
            AgreeOutside(slots, q, g, n) &&
            q[b..b + n] == (if both then slots[b..b + n][moved := at] else slots[b..b + n])[slot := -1]
  {
    if both {
      SetTwice(slots, g, n, moved, at, slot, -1);
    } else {
      SliceSet(slots, Base(g, n), Base(g, n) + n, Base(g, n) + slot, -1);
      AgreeSet(slots, g, n, Base(g, n) + slot, -1);
    }
  }

  lemma RemoveMeaning(r: Record, g: nat, p: Pools, slot: int, q: Pools)
    requires Sound(r, g, p) && r.active && Has(Meaning(r, g, p).roster, slot)
    requires 0 <= slot < p.n && 0 <= p.members[r.memberBase + r.memberCount - 1] < p.n
    requires var pos := Meaning(r, g, p).roster.pos[slot];
             q == p.(members := RemoveMembers(r, p, pos), slots := RemoveSlots(r, p, pos, slot))
    ensures var r' := r.(memberCount := r.memberCount - 1);
            Sound(r', g, q) && Meaning(r', g, q) == S.Group(Removed(Meaning(r, g, p).roster, slot))
    ensures AgreeOutside(p.members, q.members, g, p.capacity) && AgreeOutside(p.slots, q.slots, g, p.n)
  {
    RemoveMembersOk(r, g, p, slot);
    RemoveSlotsOk(r, g, p, slot);
    RemovedOk(Meaning(r, g, p).roster, slot);
    MeaningIs(r.(memberCount := r.memberCount - 1), g, q, Removed(Meaning(r, g, p).roster, slot));
  }

  /**
   * An index beyond the group's own reverse map, which remove does not refuse: when the entry it reads there says
   * "member", the group is left with a list and a reverse map that disagree.
   */
  lemma StrayRemovalBreaks(r: Record, g: nat, p: Pools, slot: nat)
    requires Sound(r, g, p) && r.active && p.n <= slot && r.slotBase + slot < |p.slots|
    requires 0 <= p.slots[r.slotBase + slot]
    ensures LastInRange(r, p)
    ensures var pos := p.slots[r.slotBase + slot];
            var q := p.(members := RemoveMembers(r, p, pos), slots := RemoveSlots(r, p, pos, slot));
            !Sound(r.(memberCount := r.memberCount - 1), g, q)
  {
    var roster := Meaning(r, g, p).roster;
    if 0 < r.memberCount {
      var pos, last := p.slots[r.slotBase + slot], r.memberCount - 1;
      assert 0 <= roster.list[last] < p.n;
      var gone := roster.list[if pos < last then pos else last];
      assert 0 <= gone < p.n && roster.pos[gone] == if pos < last then pos else last;
      assert pos < last ==> gone != roster.list[last];
      var q := p.(members := RemoveMembers(r, p, pos), slots := RemoveSlots(r, p, pos, slot));
      assert q.slots[r.slotBase + gone] == roster.pos[gone];
      var after := r.(memberCount := last);
      assert Owns(after, g, q) && Meaning(after, g, q).roster.pos[gone] == roster.pos[gone];
    }
  }

  // ---------------------------------------------------------------- the free stack

  lemma FreePopped(before: seq<S.Group>, free: seq<int>, x: S.Group)
    requires S.FreeGroupsOk(before, free) && free != [] && x.Group?
    ensures S.FreeGroupsOk(before[free[|free| - 1] := x], free[..|free| - 1])
  {
    var rest, idx := free[..|free| - 1], free[|free| - 1];
    assert forall x :: x in free <==> x in rest || x == idx;
    assert idx !in rest;
  }

  /** There is room on the free stack for a group in use. */
  lemma FreePushed(before: seq<S.Group>, free: seq<int>, g: int)
    requires S.FreeGroupsOk(before, free) && 0 <= g < |before| && before[g].Group?
    ensures |free| < |before|
    ensures S.FreeGroupsOk(before[g := S.NoGroup], free + [g])
  {
    assert g !in free;
    DistinctBounded(free + [g], |before|);
  }

  /** The groups after the first `g` of them have lost `slot`. */
  function ExpelFirst(v: seq<S.Group>, slot: int, g: nat): (r: seq<S.Group>)
    requires g <= |v| && forall h :: 0 <= h < |v| && v[h].Group? ==> Inverse(v[h].roster)
    ensures |r| == |v|
    ensures forall h :: 0 <= h < |v| ==> r[h] == if h < g then S.Expel(v[h], slot) else v[h]
    ensures g == |v| ==> r == S.ExpelAll(v, slot)
    decreases g
  {
    if g == 0 then v else ExpelFirst(v, slot, g - 1)[g - 1 := S.Expel(v[g - 1], slot)]
  }

  // ---------------------------------------------------------------- all groups of a server

  class GroupTable {
    const n: nat
    const capacity: nat
    const records: array<Record>
    const memberPool: array<int>
    const slotPool: array<int>
    const freeStack: array<int>
    var freeCount: int

    ghost function Pool(): Pools
      reads memberPool, slotPool
    {
      Pools(memberPool[..], slotPool[..], capacity, n)
    }

    ghost function Free(): seq<int>
      requires 0 <= freeCount <= freeStack.Length
      reads this, freeStack
    {
      freeStack[..freeCount]
    }

    /** Group `g`'s reverse entry for `slot`, whosever region it is in, lies in the pool. */
    ghost predicate InPool(g: nat, slot: int) {
      Base(g, n) + slot < slotPool.Length
    }

    ghost predicate Shape()
      reads this
    {
      freeStack != memberPool && freeStack != slotPool && memberPool != slotPool &&
      freeStack.Length == records.Length && 0 <= freeCount <= freeStack.Length &&
      memberPool.Length == Base(records.Length, capacity) && slotPool.Length == Base(records.Length, n)
    }

    ghost predicate Valid()
      reads this, records, memberPool, slotPool, freeStack
    {
      Shape() && AllSound(records[..], Pool()) && S.FreeGroupsOk(View(records[..], Pool()), Free())
    }

    ghost function Groups(): seq<S.Group>
      requires Valid()
      reads this, records, memberPool, slotPool, freeStack
    {
      View(records[..], Pool())
    }

    constructor (maxClients: nat, maxGroups: nat, groupCapacity: nat)
      ensures Valid() && n == maxClients && records.Length == maxGroups && capacity == groupCapacity
      ensures fresh(records) && fresh(memberPool) && fresh(slotPool) && fresh(freeStack)
      ensures Groups() == seq(maxGroups, _ => S.NoGroup) && Free() == seq(maxGroups, i => maxGroups - 1 - i)
    {
      n, capacity := maxClients, groupCapacity;
      records := new Record[maxGroups](_ => RESET);
      BaseIsProduct(maxGroups, groupCapacity);
      BaseIsProduct(maxGroups, maxClients);
      memberPool := new int[maxGroups * groupCapacity](_ => 0);
      slotPool := new int[maxGroups * maxClients](_ => 0);
      freeStack := new int[maxGroups](i => maxGroups - 1 - i);
      freeCount := maxGroups;
      new;
      assert Free() == seq(maxGroups, i => maxGroups - 1 - i);
      S.InitOk(maxClients, maxGroups);
      assert View(records[..], Pool()) == S.Init(maxClients, maxGroups).groups;
    }

    method Add(g: int, slot: int) returns (ok: bool)
      requires Valid() && 0 <= g < records.Length && records[g].active && slot < n
      modifies records, memberPool, slotPool
      ensures Valid()
      ensures var roster := old(Groups())[g].roster;
              (ok <==> slot >= 0 && !Has(roster, slot) && |roster.list| < capacity) &&
              Groups() == if ok then old(Groups())[g := S.Group(Added(roster, slot))] else old(Groups())
    {
      ghost var p := Pool();
      var r := records[g];
      assert Sound(records[..][g], g, p);
      if slot < 0 || slotPool[r.slotBase + slot] >= 0 {
        return false;
      }
      if r.memberCount >= capacity {
        return false;
      }
      AddMeaning(r, g, p, slot);
      slotPool[r.slotBase + slot] := r.memberCount;
      memberPool[r.memberBase + r.memberCount] := slot;
      records[g] := r.(memberCount := r.memberCount + 1);
      assert Pool() == p.(members := p.members[r.memberBase + r.memberCount := slot],
                          slots := p.slots[r.slotBase + slot := r.memberCount]);
      Changed(old(records[..]), p, g);
      return true;
    }

    /** Re-establishes the invariant after one group has changed but not its being in use. */
    lemma Changed(before: seq<Record>, p: Pools, g: nat)
      requires Shape() && AllSound(before, p) && g < |before| == records.Length
      requires S.FreeGroupsOk(View(before, p), Free())
      requires records[..] == before[g := records[g]] && records[g].active && before[g].active
      requires Sound(records[g], g, Pool()) && p.capacity == capacity && p.n == n
      requires AgreeOutside(p.members, Pool().members, g, capacity) && AgreeOutside(p.slots, Pool().slots, g, n)
      ensures Valid() && Groups() == View(before, p)[g := Meaning(records[g], g, Pool())]
    {
      OneChanged(before, p, g, records[g], Pool());
    }

    /**
     * The source checks only the sign of `slot`.  An index beyond the client slots reads what else is in the pool,
     * and the groups survive exactly when that is no position.
     */
    method Remove(g: int, slot: int) returns (ok: bool)
      requires Valid() && 0 <= g < records.Length && records[g].active && InPool(g, slot)
      modifies records, memberPool, slotPool
      ensures ok <==> slot >= 0 && old(slotPool[Base(g, n) + slot]) >= 0
      ensures Valid() <==> slot < n || !ok
      ensures slot < n ==> (ok <==> Has(old(Groups())[g].roster, slot))
      ensures Valid() ==> Groups() == old(Groups())[g := S.Group(Removed(old(Groups())[g].roster, slot))]
    {
      assert Sound(records[..][g], g, Pool());
      if slot < 0 || slotPool[records[g].slotBase + slot] < 0 {
        return false;
      }
      RemoveEntry(g, slot);
      return true;
    }

    method RemoveEntry(g: int, slot: nat)
      requires Valid() && 0 <= g < records.Length && records[g].active && InPool(g, slot)
      requires slotPool[Base(g, n) + slot] >= 0
      modifies records, memberPool, slotPool
      ensures Valid() <==> slot < n
      ensures Valid() ==> Groups() == old(Groups())[g := S.Group(Removed(old(Groups())[g].roster, slot))]
    {
      ghost var p := Pool();
      var r := records[g];
      assert Sound(records[..][g], g, p);
      var pos := slotPool[r.slotBase + slot];
      LastMember(r, g, p);
      WriteRemoval(r, pos, slot);
      records[g] := r.(memberCount := r.memberCount - 1);
      if slot < n {
        MemberAt(r, g, p, slot);
        RemoveMeaning(r, g, p, slot, Pool());
        Changed(old(records[..]), p, g);
      } else {
        StrayRemovalBreaks(r, g, p, slot);
        assert !Sound(records[..][g], g, Pool());
      }
    }

    /** The pool writes of a swap-remove. */
    method WriteRemoval(r: Record, pos: nat, slot: nat)
      requires memberPool != slotPool && LastInRange(r, Pool()) && r.slotBase + slot < slotPool.Length
      modifies memberPool, slotPool
      ensures memberPool[..] == RemoveMembers(r, old(Pool()), pos)
      ensures slotPool[..] == RemoveSlots(r, old(Pool()), pos, slot)
    {
      var last := r.memberCount - 1;
      if pos < last {
        var moved := memberPool[r.memberBase + last];
        memberPool[r.memberBase + pos] := moved;
        slotPool[r.slotBase + moved] := pos;
      }
      slotPool[r.slotBase + slot] := -1;
    }

    method Expel(g: int, slot: int)
      requires Valid() && 0 <= g < records.Length && slot < n
      modifies records, memberPool, slotPool
      ensures Valid() && Groups() == old(Groups())[g := S.Expel(old(Groups())[g], slot)]
    {
      assert Sound(records[..][g], g, Pool());
      if records[g].active {
        var ok := Remove(g, slot);
      }
    }

    /** Deactivating a slot removes it from every group in use. */
    method RemoveFromAll(slot: int)
      requires Valid() && slot < n
      modifies records, memberPool, slotPool
      ensures Valid() && Groups() == S.ExpelAll(old(Groups()), slot)
    {
      ghost var v := Groups();
      for g := 0 to records.Length
        invariant Valid()
        invariant Groups() == ExpelFirst(v, slot, g)
      {
        Expel(g, slot);
      }
    }

    method Create() returns (idx: int)
      requires Valid()
      modifies this`freeCount, records, slotPool
      ensures Valid()
      ensures idx == -1 <==> old(Free()) == []
      ensures idx == -1 ==> Groups() == old(Groups()) && Free() == old(Free())
      ensures idx != -1 ==>
                idx == old(Free())[|old(Free())| - 1] && Free() == old(Free())[..|old(Free())| - 1] &&
                Groups() == old(Groups())[idx := S.Group(EmptyRoster(n))]
    {
      if freeCount <= 0 {
        return -1;
      }
      ghost var p, v := Pool(), Groups();
      idx := freeStack[freeCount - 1];
      assert Free()[freeCount - 1] == idx;
      BaseIsProduct(idx, capacity);
      BaseIsProduct(idx, n);
      RegionsDisjoint(idx, records.Length, capacity);
      ClearRegion(idx, idx * n);
      var r := Record(true, idx, idx * capacity, 0, idx * n);
      FreshRegion(r, idx, p, Pool());
      OneChanged(records[..], p, idx, r, Pool());
      FreePopped(v, Free(), S.Group(EmptyRoster(n)));
      records[idx] := r;
      assert records[..] == old(records[..])[idx := r];
      freeCount := freeCount - 1;
      assert Free() == old(Free())[..freeCount];
    }

    /** `memset(slot_to_pos, 0xFF, ...)` over one region. */
    method ClearRegion(ghost g: nat, start: nat)
      requires start == Base(g, n) && g < records.Length && slotPool.Length == Base(records.Length, n)
      modifies slotPool
      ensures start + n <= slotPool.Length && slotPool[start..start + n] == seq(n, _ => -1)
      ensures AgreeOutside(old(slotPool[..]), slotPool[..], g, n)
    {
      RegionsDisjoint(g, records.Length, n);
      for i := 0 to n
        invariant forall j :: start <= j < start + i ==> slotPool[j] == -1
        invariant AgreeOutside(old(slotPool[..]), slotPool[..], g, n)
      {
        slotPool[start + i] := -1;
      }
    }

    method Destroy(g: int)
      requires Valid()
      modifies this`freeCount, records, slotPool, freeStack
      ensures Valid()
      ensures 0 <= g < records.Length && old(records[g]).active ==>
                Groups() == old(Groups())[g := S.NoGroup] && Free() == old(Free()) + [g]
      ensures !(0 <= g < records.Length && old(records[g]).active) ==>
                Groups() == old(Groups()) && Free() == old(Free())
    {
      if g < 0 || g >= records.Length || !records[g].active {
        return;
      }
      ghost var p, v := Pool(), Groups();
      assert Sound(records[..][g], g, p);
      FreePushed(v, Free(), g);
      ClearMembers(g);
      OneChanged(records[..], p, g, RESET, Pool());
      records[g] := RESET;
      assert records[..] == old(records[..])[g := RESET];
      freeStack[freeCount] := g;
      freeCount := freeCount + 1;
      assert Free() == old(Free()) + [g];
    }

    /** Clears the reverse entry of every member. */
    method ClearMembers(g: int)
      requires Shape() && 0 <= g < records.Length && records[g].active && Sound(records[g], g, Pool())
      modifies slotPool
      ensures AgreeOutside(old(slotPool[..]), slotPool[..], g, n)
      ensures slotPool[records[g].slotBase..records[g].slotBase + n] == seq(n, _ => -1)
    {
      var r := records[g];
      ghost var roster := Meaning(r, g, Pool()).roster;
      ClearedEnds(roster);
      for i := 0 to r.memberCount
        invariant AgreeOutside(old(slotPool[..]), slotPool[..], g, n)
        invariant slotPool[..][r.slotBase..r.slotBase + n] == ClearedFirst(roster, i)
      {
        assert memberPool[r.memberBase + i] == roster.list[i];
        ghost var before, at := slotPool[..], r.slotBase + roster.list[i];
        slotPool[r.slotBase + memberPool[r.memberBase + i]] := -1;
        assert slotPool[..] == before[at := -1];
        AgreeSet(before, g, n, at, -1);
        SliceSet(before, r.slotBase, r.slotBase + n, at, -1);
        ClearedStep(roster, i);
      }
    }
  }

  /** The reverse map when the entries of the first `i` members are cleared. */
  ghost function ClearedFirst(roster: Roster, i: nat): (r: seq<int>) {
    seq(|roster.pos|, x requires 0 <= x < |roster.pos| => if 0 <= roster.pos[x] < i then -1 else roster.pos[x])
  }

  lemma ClearedEnds(roster: Roster)
    requires Inverse(roster)
    ensures ClearedFirst(roster, 0) == roster.pos
    ensures ClearedFirst(roster, |roster.list|) == seq(|roster.pos|, _ => -1)
  {
  }

  lemma ClearedStep(roster: Roster, i: nat)
    requires Inverse(roster) && i < |roster.list|
    ensures 0 <= roster.list[i] < |roster.pos|
    ensures ClearedFirst(roster, i)[roster.list[i] := -1] == ClearedFirst(roster, i + 1)
  {
  }

  lemma FreshRegion(r: Record, g: nat, p: Pools, q: Pools)
    requires r.active && r.memberCount == 0 && r.memberBase == Base(g, p.capacity) && r.slotBase == Base(g, p.n)
    requires q == p.(slots := q.slots) && AgreeOutside(p.slots, q.slots, g, p.n)
    requires Base(g, p.capacity) + p.capacity <= |p.members| && Base(g, p.n) + p.n <= |p.slots|
    requires q.slots[r.slotBase..r.slotBase + p.n] == seq(p.n, _ => -1)
    ensures Sound(r, g, q) && Meaning(r, g, q) == S.Group(EmptyRoster(p.n))
  {
    MeaningIs(r, g, q, EmptyRoster(p.n));
  }
}
