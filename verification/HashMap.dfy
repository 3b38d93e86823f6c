/**
 * The fixed-capacity hash map (src/core/hash_map.h): open addressing with
 * linear probing, and deletion by reinserting the entries that follow the hole.
 *
 * The table is an array of slots updated in place.  `Abs` reads a table as a
 * plain map; every public method is proved to act on `Contents()` exactly as
 * the corresponding operation on a map with at most `Length` keys.
 */
module HashMap {
  import opened Arith
  import opened Collections

  datatype Slot<K, V> = Slot(key: K, value: V, occupied: bool)

  // ---------------------------------------------------------------- circular indices

  /** Number of steps forward from `a` to `b` in a circle of `n`. */
  function Dist(a: nat, b: nat, n: nat): (r: nat)
    requires a < n && b < n
    ensures r < n && Wrap(a + r, n) == b
  {
    if a <= b then b - a else b - a + n
  }

  function Home<K>(hash: K -> nat, key: K, n: nat): (r: nat)
    requires 0 < n
    ensures r < n
  {
    hash(key) % n
  }

  // ---------------------------------------------------------------- sizes of a table

  function OccupiedWeight<K, V>(): (nat, Slot<K, V>) -> nat {
    (i: nat, t: Slot<K, V>) => if t.occupied then 1 else 0
  }

  /** How many slots are in use. */
  function Count<K, V>(s: seq<Slot<K, V>>): nat {
    Sum(s, OccupiedWeight())
  }

  function DisplacementWeight<K, V>(hash: K -> nat, n: nat): (nat, Slot<K, V>) -> nat {
    (i: nat, t: Slot<K, V>) =>
      if t.occupied && i < n then Dist(Home(hash, t.key, n), i, n) else 0
  }

  /** Total distance of all entries from their home slots. */
  function Displacement<K, V>(s: seq<Slot<K, V>>, hash: K -> nat): nat {
    Sum(s, DisplacementWeight(hash, |s|))
  }

  // ---------------------------------------------------------------- table invariants

  predicate Occupied<K, V>(s: seq<Slot<K, V>>, i: int) {
    0 <= i < |s| && s[i].occupied
  }

  ghost predicate UniqueKeys<K, V>(s: seq<Slot<K, V>>) {
    forall i, j :: Occupied(s, i) && Occupied(s, j) && s[i].key == s[j].key ==> i == j
  }

  /** Slot `x` lies on the probe path of `key` strictly before slot `i`. */
  predicate OnPath<K>(hash: K -> nat, key: K, x: int, i: int, n: nat) {
    0 <= x < n && 0 <= i < n &&
    Dist(Home(hash, key, n), x, n) < Dist(Home(hash, key, n), i, n)
  }

  /** No slot between an entry's home and the entry is empty, except possibly `gap`. */
  ghost predicate Reachable<K, V>(s: seq<Slot<K, V>>, hash: K -> nat, gap: int) {
    forall i, x :: Occupied(s, i) && OnPath(hash, s[i].key, x, i, |s|) ==> Occupied(s, x) || x == gap
  }

  ghost predicate TableInv<K, V>(s: seq<Slot<K, V>>, hash: K -> nat) {
    UniqueKeys(s) && Reachable(s, hash, -1)
  }

  ghost function KeySet<K, V>(s: seq<Slot<K, V>>): set<K> {
    set i | 0 <= i < |s| && Occupied(s, i) :: s[i].key
  }

  ghost function IndexOf<K, V>(s: seq<Slot<K, V>>, key: K): (i: int)
    requires key in KeySet(s)
    ensures Occupied(s, i) && s[i].key == key
  {
    var i :| Occupied(s, i) && s[i].key == key;
    i
  }

  /** The plain map a table stands for. */
  ghost function Abs<K, V>(s: seq<Slot<K, V>>): map<K, V>
    requires UniqueKeys(s)
  {
    map key | key in KeySet(s) :: s[IndexOf(s, key)].value
  }

  /** `p` is the first slot on the probe path of `key` that is empty or holds `key`. */
  ghost predicate FirstStop<K, V>(s: seq<Slot<K, V>>, hash: K -> nat, key: K, p: int) {
    0 <= p < |s| && (Occupied(s, p) ==> s[p].key == key) &&
    forall x :: OnPath(hash, key, x, p, |s|) ==> Occupied(s, x) && s[x].key != key
  }

  /** The probe path of `key` goes once round the table without stopping. */
  ghost predicate NoStop<K, V>(s: seq<Slot<K, V>>, key: K) {
    forall x :: 0 <= x < |s| ==> Occupied(s, x) && s[x].key != key
  }

  // ---------------------------------------------------------------- lemmas on tables

  lemma AbsHas<K, V>(s: seq<Slot<K, V>>, i: int)
    requires UniqueKeys(s) && Occupied(s, i)
    ensures s[i].key in Abs(s) && Abs(s)[s[i].key] == s[i].value
  {
  }

  /** A map that agrees with every entry and has no other key is the table's map. */
  lemma AbsEquals<K, V>(s: seq<Slot<K, V>>, m: map<K, V>)
    requires UniqueKeys(s)
    requires forall i :: Occupied(s, i) ==> s[i].key in m && m[s[i].key] == s[i].value
    requires forall k :: k in m ==> k in KeySet(s)
    ensures Abs(s) == m
  {
  }

  /** Adding one slot at the end of a table. */
  lemma AbsPush<K, V>(t: seq<Slot<K, V>>, x: Slot<K, V>)
    requires UniqueKeys(t + [x])
    ensures UniqueKeys(t)
    ensures x.occupied ==> x.key !in Abs(t) && Abs(t + [x]) == Abs(t)[x.key := x.value]
    ensures !x.occupied ==> Abs(t + [x]) == Abs(t)
  {
    var s := t + [x];
    assert forall i :: Occupied(t, i) ==> Occupied(s, i) && t[i] == s[i];
    assert forall i :: Occupied(s, i) ==> Occupied(t, i) || i == |t|;
    assert x.occupied ==> Occupied(s, |t|);
    forall k | k in Abs(t) ensures k in Abs(s) && Abs(s)[k] == Abs(t)[k] {
      var i :| Occupied(t, i) && t[i].key == k;
      AbsHas(s, i);
    }
    forall k | k in Abs(s) ensures k in Abs(t) || (x.occupied && k == x.key) {
      var i :| Occupied(s, i) && s[i].key == k;
    }
    if x.occupied {
      AbsHas(s, |t|);
    }
  }

  /** The number of occupied slots is the number of keys. */
  lemma {:induction false} CountIsCardinality<K, V>(s: seq<Slot<K, V>>)
    requires UniqueKeys(s)
    ensures |Abs(s)| == Count(s)
  {
    if s == [] {
      assert Abs(s) == map[];
    } else {
      var t, x := s[..|s| - 1], s[|s| - 1];
      assert s == t + [x];
      AbsPush(t, x);
      CountIsCardinality(t);
    }
  }

  lemma CountFull<K, V>(s: seq<Slot<K, V>>)
    ensures Count(s) <= |s|
    ensures Count(s) == |s| <==> forall i :: 0 <= i < |s| ==> Occupied(s, i)
  {
    SumOfOnes(s, OccupiedWeight());
    assert forall i: nat :: i < |s| ==> (Occupied(s, i) <==> OccupiedWeight<K, V>()(i, s[i]) == 1);
  }

  /** In a well-formed table a probe finds a key if and only if it is present. */
  lemma ProbeFindsKey<K, V>(s: seq<Slot<K, V>>, hash: K -> nat, key: K, p: int)
    requires TableInv(s, hash) && FirstStop(s, hash, key, p)
    ensures key in Abs(s) <==> Occupied(s, p)
    ensures Occupied(s, p) ==> Abs(s)[key] == s[p].value
  {
    if key in Abs(s) {
      var i :| Occupied(s, i) && s[i].key == key;
      assert !OnPath(hash, key, i, p, |s|);
      assert OnPath(hash, key, p, i, |s|) ==> Occupied(s, p);
    }
    if Occupied(s, p) {
      AbsHas(s, p);
    }
  }

  /** Writing an entry at the end of its probe path keeps the table well-formed. */
  lemma WriteKeepsInv<K, V>(s: seq<Slot<K, V>>, hash: K -> nat, key: K, value: V, p: int)
    requires TableInv(s, hash) && FirstStop(s, hash, key, p)
    ensures TableInv(s[p := Slot(key, value, true)], hash)
    ensures Abs(s[p := Slot(key, value, true)]) == Abs(s)[key := value]
  {
    var t := s[p := Slot(key, value, true)];
    ProbeFindsKey(s, hash, key, p);
    assert forall i :: Occupied(t, i) <==> Occupied(s, i) || i == p;
    WriteKeepsUnique(s, key, value, p);
  }

  lemma WriteKeepsUnique<K, V>(s: seq<Slot<K, V>>, key: K, value: V, p: int)
    requires UniqueKeys(s) && 0 <= p < |s|
    requires if Occupied(s, p) then s[p].key == key else key !in KeySet(s)
    ensures UniqueKeys(s[p := Slot(key, value, true)])
    ensures Abs(s[p := Slot(key, value, true)]) == Abs(s)[key := value]
  {
    var t := s[p := Slot(key, value, true)];
    assert forall i :: Occupied(t, i) <==> Occupied(s, i) || i == p;
    assert forall i :: Occupied(s, i) ==> s[i].key in KeySet(s);
    assert UniqueKeys(t);
    forall i | Occupied(t, i) && i != p
      ensures t[i].key in Abs(s) && t[i].key != key && Abs(s)[t[i].key] == t[i].value
    {
      AbsHas(s, i);
    }
    forall k | k in Abs(s) ensures k in KeySet(t) {
      var i := IndexOf(s, k);
      assert Occupied(t, i) && t[i].key == k;
    }
    assert Occupied(t, p);
    AbsEquals(t, Abs(s)[key := value]);
  }

  /** An occupied slot is where the probe for its key stops. */
  lemma OccupiedIsStop<K, V>(s: seq<Slot<K, V>>, hash: K -> nat, p: int)
    requires TableInv(s, hash) && Occupied(s, p)
    ensures FirstStop(s, hash, s[p].key, p)
  {
  }

  /** What a probe's result says about the plain map. */
  lemma ProbeOutcome<K, V>(s: seq<Slot<K, V>>, hash: K -> nat, key: K, p: int)
    requires TableInv(s, hash)
    requires if p == -1 then NoStop(s, key) else FirstStop(s, hash, key, p)
    ensures key in Abs(s) <==> p != -1 && Occupied(s, p)
    ensures key in Abs(s) ==> Abs(s)[key] == s[p].value && s[p].key == key
    ensures p == -1 <==> key !in Abs(s) && |Abs(s)| == |s|
  {
    CountFull(s);
    CountIsCardinality(s);
    if p != -1 {
      ProbeFindsKey(s, hash, key, p);
    }
  }

  lemma {:induction false} AllEmpty<K, V>(s: seq<Slot<K, V>>)
    requires forall i :: !Occupied(s, i)
    ensures UniqueKeys(s) && Abs(s) == map[] && Count(s) == 0
  {
    if s != [] {
      assert !Occupied(s, |s| - 1);
      var t := s[..|s| - 1];
      assert forall i :: Occupied(t, i) ==> Occupied(s, i);
      AllEmpty(t);
    }
  }

  // ---------------------------------------------------------------- deletion

  /**
   * State of the reinsertion loop: `gap` is the only hole that may break a probe
   * path, and the entries already visited, between `gap` and `cursor`, do not need it.
   */
  ghost predicate Repairing<K, V>(s: seq<Slot<K, V>>, hash: K -> nat, gap: int, cursor: int) {
    0 <= gap < |s| && 0 <= cursor < |s| && !s[gap].occupied &&
    UniqueKeys(s) && Reachable(s, hash, gap) &&
    forall x :: Visited(gap, x, cursor, |s|) ==> Occupied(s, x) && !OnPath(hash, s[x].key, gap, x, |s|)
  }

  /** `x` is strictly after `gap` and before `cursor`; all of the circle when they coincide again. */
  predicate Visited(gap: int, x: int, cursor: int, n: nat) {
    0 <= gap < n && 0 <= cursor < n && 0 <= x < n &&
    0 < Dist(gap, x, n) && (Dist(gap, x, n) < Dist(gap, cursor, n) || gap == cursor)
  }

  /** Taking an entry out leaves every other entry alone and opens the hole the loop starts from. */
  lemma TakeOut<K, V>(s: seq<Slot<K, V>>, hash: K -> nat, p: int, x: Slot<K, V>)
    requires TableInv(s, hash) && Occupied(s, p) && !x.occupied
    ensures var t := s[p := x];
            Repairing(t, hash, p, Wrap(p + 1, |s|)) && Abs(t) == Abs(s) - {s[p].key}
  {
    var t := s[p := x];
    assert forall i :: Occupied(t, i) <==> Occupied(s, i) && i != p;
    forall k | k in Abs(s) && k != s[p].key ensures k in Abs(t) && Abs(t)[k] == Abs(s)[k] {
      var i :| Occupied(s, i) && s[i].key == k;
      AbsHas(t, i);
    }
  }

  /** A reinserted entry goes back where it was or into the gap. */
  lemma ReinsertTarget<K, V>(s: seq<Slot<K, V>>, hash: K -> nat, gap: int, cursor: int, p: int)
    requires Repairing(s, hash, gap, cursor) && Occupied(s, cursor)
    requires FirstStop(s[cursor := s[cursor].(occupied := false)], hash, s[cursor].key, p)
    ensures p == cursor || (p == gap && OnPath(hash, s[cursor].key, gap, cursor, |s|))
    ensures p == cursor ==> !OnPath(hash, s[cursor].key, gap, cursor, |s|)
  {
    var t := s[cursor := s[cursor].(occupied := false)];
    assert forall i :: Occupied(t, i) <==> Occupied(s, i) && i != cursor;
    assert !OnPath(hash, s[cursor].key, cursor, p, |s|);
    assert OnPath(hash, s[cursor].key, p, cursor, |s|) ==> Occupied(s, p) || p == gap;
  }

  /** The entry stays: the cursor moves one slot closer to the gap. */
  lemma ReinsertStays<K, V>(s: seq<Slot<K, V>>, hash: K -> nat, gap: int, cursor: int)
    requires Repairing(s, hash, gap, cursor) && Occupied(s, cursor)
    requires !OnPath(hash, s[cursor].key, gap, cursor, |s|)
    ensures Repairing(s, hash, gap, Wrap(cursor + 1, |s|))
    ensures Dist(Wrap(cursor + 1, |s|), gap, |s|) < Dist(cursor, gap, |s|)
  {
    var next := Wrap(cursor + 1, |s|);
    forall x | Visited(gap, x, next, |s|)
      ensures Occupied(s, x) && !OnPath(hash, s[x].key, gap, x, |s|)
    {
      assert x == cursor || Visited(gap, x, cursor, |s|);
    }
  }

  /** Moving one entry to an empty slot changes no key and no value. */
  lemma MoveKeepsContents<K, V>(s: seq<Slot<K, V>>, from: int, to: int, t: seq<Slot<K, V>>)
    requires UniqueKeys(s) && Occupied(s, from) && 0 <= to < |s| && !s[to].occupied
    requires t == s[from := s[from].(occupied := false)][to := s[from]]
    ensures UniqueKeys(t) && Abs(t) == Abs(s)
  {
    assert forall i :: Occupied(t, i) <==> (Occupied(s, i) && i != from) || i == to;
    assert UniqueKeys(t);
    forall k | k in Abs(s) ensures k in Abs(t) && Abs(t)[k] == Abs(s)[k] {
      var i :| Occupied(s, i) && s[i].key == k;
      AbsHas(t, if i == from then to else i);
    }
    forall k | k in Abs(t) ensures k in Abs(s) {
      var i :| Occupied(t, i) && t[i].key == k;
      AbsHas(s, if i == to then from else i);
    }
  }

  /** The entry moves into the gap: its slot is the new gap and it is closer to its home. */
  lemma ReinsertMoves<K, V>(s: seq<Slot<K, V>>, hash: K -> nat, gap: int, cursor: int, t: seq<Slot<K, V>>)
    requires Repairing(s, hash, gap, cursor) && Occupied(s, cursor)
    requires OnPath(hash, s[cursor].key, gap, cursor, |s|)
    requires t == s[cursor := s[cursor].(occupied := false)][gap := s[cursor]]
    ensures Repairing(t, hash, cursor, Wrap(cursor + 1, |s|))
    ensures Abs(t) == Abs(s)
    ensures Displacement(t, hash) < Displacement(s, hash)
  {
    MoveKeepsContents(s, cursor, gap, t);
    assert forall i :: Occupied(t, i) <==> (Occupied(s, i) && i != cursor) || i == gap;
    var w := DisplacementWeight<K, V>(hash, |s|);
    SumUpdate(s, w, cursor, s[cursor].(occupied := false));
    SumUpdate(s[cursor := s[cursor].(occupied := false)], w, gap, s[cursor]);
  }

  /** An entry whose path crosses the gap has been visited, or its path also crosses the cursor. */
  lemma PathCrossesCursor<K>(hash: K -> nat, key: K, gap: int, cursor: int, i: int, n: nat)
    requires 0 <= gap < n && 0 <= cursor < n && 0 <= i < n
    ensures OnPath(hash, key, gap, i, n) ==>
              i == cursor || Visited(gap, i, cursor, n) || OnPath(hash, key, cursor, i, n)
  {
  }

  /** When the cursor meets an empty slot, no probe path needs the gap any more. */
  lemma RepairDone<K, V>(s: seq<Slot<K, V>>, hash: K -> nat, gap: int, cursor: int)
    requires Repairing(s, hash, gap, cursor) && !Occupied(s, cursor)
    ensures TableInv(s, hash)
  {
    forall i | Occupied(s, i)
      ensures !OnPath(hash, s[i].key, gap, i, |s|)
    {
      PathCrossesCursor(hash, s[i].key, gap, cursor, i, |s|);
    }
  }

  // ---------------------------------------------------------------- the table

  class FixedHashMap<K(==), V> {
    const hash: K -> nat
    const slots: array<Slot<K, V>>
    const emptySlot: Slot<K, V>
    var size: int

    ghost predicate Sized()
      reads this, slots
    {
      0 < slots.Length && !emptySlot.occupied && size == Count(slots[..])
    }

    ghost predicate Valid()
      reads this, slots
    {
      Sized() && TableInv(slots[..], hash)
    }

    ghost function Contents(): map<K, V>
      reads this, slots
      requires Valid()
    {
      Abs(slots[..])
    }

    constructor (capacity: nat, hash: K -> nat, emptyKey: K, emptyValue: V)
      requires 0 < capacity
      ensures Valid() && fresh(slots) && slots.Length == capacity && this.hash == hash
      ensures Contents() == map[]
    {
      this.hash := hash;
      var empty := Slot(emptyKey, emptyValue, false);
      emptySlot := empty;
      slots := new Slot<K, V>[capacity](_ => empty);
      size := 0;
      new;
      assert forall i :: !Occupied(slots[..], i);
      AllEmpty(slots[..]);
    }

    /** The probe loop shared by insert, find and remove. */
    method Probe(key: K) returns (p: int)
      requires 0 < slots.Length
      ensures p == -1 ==> NoStop(slots[..], key)
      ensures p != -1 ==> FirstStop(slots[..], hash, key, p)
    {
      var n := slots.Length;
      var home := hash(key) % n;
      for probe := 0 to n
        invariant forall x :: 0 <= x < n && Dist(home, x, n) < probe ==>
                    Occupied(slots[..], x) && slots[x].key != key
      {
        WrapIsMask(home + probe, n);
        var slot := (home + probe) % n;
        if !slots[slot].occupied || slots[slot].key == key {
          return slot;
        }
      }
      return -1;
    }

    method Insert(key: K, value: V) returns (p: int)
      requires Sized()
      modifies this`size, slots
      ensures Sized()
      ensures p == -1 ==> NoStop(old(slots[..]), key) && slots[..] == old(slots[..])
      ensures p != -1 ==>
                FirstStop(old(slots[..]), hash, key, p) &&
                slots[..] == old(slots[..])[p := Slot(key, value, true)]
      ensures old(Valid()) ==> Valid()
      ensures old(Valid()) ==> (p == -1 <==> key !in old(Contents()) && |old(Contents())| == slots.Length)
      ensures old(Valid()) ==>
                Contents() == if p == -1 then old(Contents()) else old(Contents())[key := value]
    {
      ghost var s := slots[..];
      p := Probe(key);
      if p != -1 {
        SumUpdate(s, OccupiedWeight(), p, Slot(key, value, true));
        if !slots[p].occupied {
          size := size + 1;
        }
        slots[p] := Slot(key, value, true);
        assert slots[..] == s[p := Slot(key, value, true)];
      }
      if TableInv(s, hash) {
        ProbeOutcome(s, hash, key, p);
        if p != -1 {
          WriteKeepsInv(s, hash, key, value, p);
        }
      }
    }

    /** Returns the slot that holds the key (the pointer the source returns), or -1. */
    method Find(key: K) returns (p: int)
      requires Valid()
      ensures p == -1 <==> key !in Contents()
      ensures p != -1 ==> 0 <= p < slots.Length && slots[p] == Slot(key, Contents()[key], true)
    {
      p := Probe(key);
      ProbeOutcome(slots[..], hash, key, p);
      if p != -1 && !slots[p].occupied {
        p := -1;
      }
    }

    /** A caller writing through the pointer that `Find` or `Insert` returned. */
    method Store(p: int, value: V)
      requires Valid() && Occupied(slots[..], p)
      modifies slots
      ensures Valid() && Contents() == old(Contents())[old(slots[p].key) := value]
    {
      ghost var s := slots[..];
      SumUpdate(s, OccupiedWeight(), p, Slot(s[p].key, value, true));
      OccupiedIsStop(s, hash, p);
      WriteKeepsInv(s, hash, s[p].key, value, p);
      slots[p] := Slot(slots[p].key, value, true);
      assert slots[..] == s[p := Slot(s[p].key, value, true)];
    }

    method Remove(key: K) returns (found: bool)
      requires Valid()
      modifies this`size, slots
      ensures Valid()
      ensures found <==> key in old(Contents())
      ensures Contents() == old(Contents()) - {key}
    {
      ghost var s := slots[..];
      var p := Probe(key);
      ProbeOutcome(s, hash, key, p);
      if p == -1 || !slots[p].occupied {
        return false;
      }
      SumUpdate(s, OccupiedWeight(), p, emptySlot);
      TakeOut(s, hash, p, emptySlot);
      slots[p] := emptySlot;
      assert slots[..] == s[p := emptySlot];
      size := size - 1;
      RehashAfterDelete(p);
      return true;
    }

    /** Reinserts the run of entries after a freshly emptied slot. */
    method RehashAfterDelete(deleted: int)
      requires Sized() && 0 <= deleted < slots.Length
      requires Repairing(slots[..], hash, deleted, Wrap(deleted + 1, slots.Length))
      modifies this`size, slots
      ensures Valid() && Contents() == old(Abs(slots[..]))
    {
      ghost var gap := deleted;
      var cursor := Following(deleted);
      while slots[cursor].occupied
        invariant Sized() && 0 <= cursor < slots.Length
        invariant Repairing(slots[..], hash, gap, cursor)
        invariant Abs(slots[..]) == old(Abs(slots[..]))
        decreases Displacement(slots[..], hash), Dist(cursor, gap, slots.Length)
      {
        ghost var s := slots[..];
        gap := ReinsertAt(cursor, gap);
        cursor := Following(cursor);
      }
      RepairDone(slots[..], hash, gap, cursor);
    }

    /** The next slot of the table, going round the end. */
    method Following(slot: nat) returns (r: nat)
      requires slot < slots.Length
      ensures r == Wrap(slot + 1, slots.Length)
    {
      WrapIsMask(slot + 1, slots.Length);
      r := (slot + 1) % slots.Length;
    }

    /** One round of the reinsertion loop. */
    method ReinsertAt(cursor: int, ghost gap: int) returns (ghost newGap: int)
      requires Sized() && Repairing(slots[..], hash, gap, cursor) && slots[cursor].occupied
      modifies this`size, slots
      ensures Sized() && Repairing(slots[..], hash, newGap, Wrap(cursor + 1, slots.Length))
      ensures Abs(slots[..]) == old(Abs(slots[..]))
      ensures Displacement(slots[..], hash) < old(Displacement(slots[..], hash)) ||
              (slots[..] == old(slots[..]) &&
               Dist(Wrap(cursor + 1, slots.Length), newGap, slots.Length) < Dist(cursor, gap, slots.Length))
    {
      ghost var s := slots[..];
      var key, value := slots[cursor].key, slots[cursor].value;
      SumUpdate(s, OccupiedWeight(), cursor, s[cursor].(occupied := false));
      slots[cursor] := slots[cursor].(occupied := false);
      assert slots[..] == s[cursor := s[cursor].(occupied := false)];
      size := size - 1;
      var p := Insert(key, value);
      ReinsertTarget(s, hash, gap, cursor, p);
      if p == cursor {
        newGap := gap;
        assert slots[..] == s;
        ReinsertStays(s, hash, gap, cursor);
      } else {
        newGap := cursor;
        ReinsertMoves(s, hash, gap, cursor, slots[..]);
      }
    }

    method Clear()
      requires Valid()
      modifies this`size, slots
      ensures Valid() && Contents() == map[]
    {
      var n := slots.Length;
      for i := 0 to n
        invariant forall j :: 0 <= j < i ==> slots[j] == emptySlot
      {
        slots[i] := emptySlot;
      }
      size := 0;
      assert forall i :: !Occupied(slots[..], i);
      AllEmpty(slots[..]);
    }
  }

  // ---------------------------------------------------------------- histories

  datatype Op<K, V> = OpInsert(key: K, value: V) | OpFind(key: K) | OpRemove(key: K)

  datatype Answer<V> = Stored | Full | Found(value: V) | Absent | Deleted

  /** The reference: a plain map that refuses a new key once it holds `capacity` of them. */
  function MapStep<K, V>(m: map<K, V>, op: Op<K, V>, capacity: nat): (map<K, V>, Answer<V>) {
    match op
    case OpInsert(k, v) =>
      if k !in m && |m| == capacity then (m, Full) else (m[k := v], Stored)
    case OpFind(k) => (m, if k in m then Found(m[k]) else Absent)
    case OpRemove(k) => (m - {k}, if k in m then Deleted else Absent)
  }

  function MapRun<K, V>(m: map<K, V>, ops: seq<Op<K, V>>, capacity: nat): (map<K, V>, seq<Answer<V>>) {
    if ops == [] then (m, []) else
      var (before, answers) := MapRun(m, ops[..|ops| - 1], capacity);
      var (after, answer) := MapStep(before, ops[|ops| - 1], capacity);
      (after, answers + [answer])
  }

  /** Every history of insert, find and remove is answered exactly as the bounded plain map answers it. */
  method RunHistory<K(==), V>(capacity: nat, hash: K -> nat, emptyKey: K, emptyValue: V, ops: seq<Op<K, V>>)
    returns (answers: seq<Answer<V>>, size: int)
    requires 0 < capacity
    ensures answers == MapRun(map[], ops, capacity).1
    ensures size == |MapRun(map[], ops, capacity).0|
  {
    var table := new FixedHashMap(capacity, hash, emptyKey, emptyValue);
    answers := [];
    for i := 0 to |ops|
      invariant table.Valid() && table.slots.Length == capacity && fresh(table) && fresh(table.slots)
      invariant (table.Contents(), answers) == MapRun(map[], ops[..i], capacity)
    {
      assert ops[..i + 1][..i] == ops[..i];
      match ops[i]
      case OpInsert(k, v) =>
        var p := table.Insert(k, v);
        answers := answers + [if p == -1 then Full else Stored];
      case OpFind(k) =>
        var p := table.Find(k);
        answers := answers + [if p == -1 then Absent else Found(table.slots[p].value)];
      case OpRemove(k) =>
        var found := table.Remove(k);
        answers := answers + [if found then Deleted else Absent];
    }
    assert ops[..|ops|] == ops;
    CountIsCardinality(table.slots[..]);
    size := table.size;
  }
}
