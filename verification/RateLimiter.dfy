/**
 * The per-address token bucket (src/connection/rate_limiter.h), over the hash map.
 * Times and token counts, doubles in the source, are reals here.
 */
module RateLimiting {
  import opened Collections
  import opened HashMap

  const RATE: real := 60.0
  const BURST: real := 10.0
  const EXPIRY: real := 30.0
  const MAX_EVICTIONS: nat := 64

  datatype Bucket = Bucket(tokens: real, lastRefill: real, lastActivity: real)

  function NewBucket(now: real): Bucket {
    Bucket(BURST - 1.0, now, now)
  }

  function Refill(b: Bucket, now: real): Bucket {
    if now - b.lastRefill > 0.0 then
      var t := b.tokens + RATE * (now - b.lastRefill);
      b.(tokens := if t > BURST then BURST else t, lastRefill := now)
    else b
  }

  /** One packet served by an existing bucket. */
  function Serve(b: Bucket, now: real): (Bucket, bool) {
    var r := Refill(b, now).(lastActivity := now);
    if r.tokens >= 1.0 then (r.(tokens := r.tokens - 1.0), true) else (r, false)
  }

  /** One packet served by a table that holds at most `capacity` addresses. */
  function Allow<K>(m: map<K, Bucket>, key: K, now: real, capacity: nat): (map<K, Bucket>, bool) {
    if key !in m then (if |m| == capacity then m else m[key := NewBucket(now)], true) else
      var (b, ok) := Serve(m[key], now);
      (m[key := b], ok)
  }

  function Expired<K>(m: map<K, Bucket>, now: real): set<K> {
    set k | k in m && now - m[k].lastActivity > EXPIRY
  }

  // ---------------------------------------------------------------- the limiter

  class RateLimiter<K(==)> {
    const buckets: FixedHashMap<K, Bucket>

    constructor (capacity: nat, hash: K -> nat, emptyKey: K)
      requires 0 < capacity
      ensures buckets.Valid() && fresh(buckets) && fresh(buckets.slots)
      ensures buckets.Contents() == map[] && buckets.slots.Length == capacity
    {
      buckets := new FixedHashMap(capacity, hash, emptyKey, Bucket(0.0, 0.0, 0.0));
    }

    /** Whether a packet from this address may be processed. */
    method AllowPacket(key: K, now: real) returns (ok: bool)
      requires buckets.Valid()
      modifies buckets`size, buckets.slots
      ensures buckets.Valid()
      ensures (buckets.Contents(), ok) == Allow(old(buckets.Contents()), key, now, buckets.slots.Length)
    {
      var p := buckets.Find(key);
      if p == -1 {
        var q := buckets.Insert(key, NewBucket(now));
        return true;
      }
      var bucket;
      bucket, ok := Draw(buckets.slots[p].value, now);
      buckets.Store(p, bucket);
    }

    /** Refills a bucket and takes a token if there is one. */
    static method Draw(b: Bucket, now: real) returns (bucket: Bucket, ok: bool)
      ensures (bucket, ok) == Serve(b, now)
    {
      bucket := b;
      var elapsed := now - bucket.lastRefill;
      if elapsed > 0.0 {
        bucket := bucket.(tokens := bucket.tokens + RATE * elapsed);
        if bucket.tokens > BURST {
          bucket := bucket.(tokens := BURST);
        }
        bucket := bucket.(lastRefill := now);
      }
      bucket := bucket.(lastActivity := now);
      ok := bucket.tokens >= 1.0;
      if ok {
        bucket := bucket.(tokens := bucket.tokens - 1.0);
      }
    }

    /** Evicts idle buckets, at most 64 per call: first collect, then remove. */
    method Cleanup(now: real) returns (evicted: set<K>)
      requires buckets.Valid()
      modifies buckets`size, buckets.slots
      ensures buckets.Valid()
      ensures evicted <= Expired(old(buckets.Contents()), now) && |evicted| <= 64
      ensures forall k :: k in evicted ==> now - old(buckets.Contents())[k].lastActivity > 30.0
      ensures |evicted| < 64 ==>
                forall k :: k in old(buckets.Contents()) && now - old(buckets.Contents())[k].lastActivity > 30.0 ==>
                  k in evicted
      ensures |Expired(old(buckets.Contents()), now)| <= MAX_EVICTIONS ==>
                evicted == Expired(old(buckets.Contents()), now)
      ensures buckets.Contents() == old(buckets.Contents()) - evicted
    {
      var expired := CollectExpired(now);
      evicted := Elements(expired);
      DistinctCardinality(expired);
      SubsetCardinality(evicted, Expired(buckets.Contents(), now));
      RemoveAll(expired);
    }

    method RemoveAll(keys: seq<K>)
      requires buckets.Valid()
      modifies buckets`size, buckets.slots
      ensures buckets.Valid()
      ensures buckets.Contents() == old(buckets.Contents()) - Elements(keys)
    {
      ghost var before := buckets.Contents();
      for i := 0 to |keys|
        invariant buckets.Valid()
        invariant buckets.Contents() == before - Elements(keys[..i])
      {
        MinusPush(before, keys, i);
        var found := buckets.Remove(keys[i]);
      }
      assert keys[..|keys|] == keys;
    }

    /** The collecting pass over all occupied slots. */
    method CollectExpired(now: real) returns (expired: seq<K>)
      requires buckets.Valid()
      ensures Distinct(expired)
      ensures |expired| <= MAX_EVICTIONS
      ensures Elements(expired) <= Expired(buckets.Contents(), now)
      ensures |expired| < MAX_EVICTIONS ==> Elements(expired) == Expired(buckets.Contents(), now)
    {
      expired := [];
      ghost var s := buckets.slots[..];
      for i := 0 to buckets.slots.Length
        invariant |expired| <= MAX_EVICTIONS
        invariant Distinct(expired)
        invariant forall k :: k in expired ==> k in Expired(Abs(s), now)
        invariant forall k :: k in expired ==> k in KeySet(s[..i])
        invariant |expired| < MAX_EVICTIONS ==>
                    forall x :: 0 <= x < i && Occupied(s, x) && s[x].key in Expired(Abs(s), now) ==> s[x].key in expired
      {
        var slot := buckets.slots[i];
        if slot.occupied {
          AbsHas(s, i);
          if now - slot.value.lastActivity > EXPIRY && |expired| < MAX_EVICTIONS {
            expired := expired + [slot.key];
          }
        }
        KeySetGrows(s, i);
      }
      if |expired| < MAX_EVICTIONS {
        forall k | k in Expired(Abs(s), now) ensures k in expired {
          var x := IndexOf(s, k);
          assert Occupied(s, x) && s[x].key == k;
        }
      }
    }
  }

  lemma MinusPush<K>(m: map<K, Bucket>, keys: seq<K>, i: nat)
    requires i < |keys|
    ensures m - Elements(keys[..i + 1]) == (m - Elements(keys[..i])) - {keys[i]}
  {
    ElementsPush(keys, i);
  }

  lemma KeySetGrows<K>(s: seq<Slot<K, Bucket>>, i: nat)
    requires i < |s| && UniqueKeys(s)
    ensures KeySet(s[..i]) <= KeySet(s[..i + 1])
    ensures s[i].occupied ==> s[i].key !in KeySet(s[..i]) && s[i].key in KeySet(s[..i + 1])
  {
    assert forall x :: Occupied(s[..i], x) ==> Occupied(s[..i + 1], x) && Occupied(s, x);
    assert s[i].occupied ==> Occupied(s, i) && Occupied(s[..i + 1], i);
  }

  // ---------------------------------------------------------------- runs

  /** A packet, or a clean-up that evicted these addresses. */
  datatype Event<K> = Packet(key: K, time: real) | Evict(keys: set<K>, time: real)

  ghost predicate Ordered<K>(events: seq<Event<K>>) {
    forall i, j :: 0 <= i <= j < |events| ==> events[i].time <= events[j].time
  }

  function Step<K>(m: map<K, Bucket>, e: Event<K>, capacity: nat): (map<K, Bucket>, bool) {
    match e
    case Packet(key, now) => Allow(m, key, now, capacity)
    case Evict(keys, now) => (m - keys, false)
  }

  /** The table and the answers after a run. */
  function Run<K>(events: seq<Event<K>>, capacity: nat): (r: (map<K, Bucket>, seq<bool>))
    ensures |r.1| == |events|
  {
    if events == [] then (map[], []) else
      var (m, answers) := Run(events[..|events| - 1], capacity);
      var (m', ok) := Step(m, events[|events| - 1], capacity);
      (m', answers + [ok])
  }

  /** Evictions remove only expired buckets, and no new address meets a full table. */
  ghost predicate Proper<K>(m: map<K, Bucket>, e: Event<K>, capacity: nat) {
    match e
    case Packet(key, _) => key in m || |m| < capacity
    case Evict(keys, now) => keys <= Expired(m, now)
  }

  ghost predicate ProperAt<K>(events: seq<Event<K>>, i: nat, capacity: nat)
    requires i < |events|
  {
    Proper(Run(events[..i], capacity).0, events[i], capacity)
  }

  ghost predicate ProperRun<K>(events: seq<Event<K>>, capacity: nat) {
    Ordered(events) &&
    forall i: nat {:trigger ProperAt(events, i, capacity)} :: i < |events| ==> ProperAt(events, i, capacity)
  }

  /** The reference limiter: no eviction and no bound on the number of addresses. */
  function ReferenceStep<K>(m: map<K, Bucket>, e: Event<K>): (map<K, Bucket>, bool) {
    match e
    case Packet(key, now) =>
      if key !in m then (m[key := NewBucket(now)], true) else
        var (b, ok) := Serve(m[key], now);
        (m[key := b], ok)
    case Evict(_, _) => (m, false)
  }

  function ReferenceRun<K>(events: seq<Event<K>>): (r: (map<K, Bucket>, seq<bool>))
    ensures |r.1| == |events|
  {
    if events == [] then (map[], []) else
      var (m, answers) := ReferenceRun(events[..|events| - 1]);
      var (m', ok) := ReferenceStep(m, events[|events| - 1]);
      (m', answers + [ok])
  }

  /** Every bucket of a run is within its bounds and was refilled when last used. */
  ghost predicate Sound(b: Bucket, now: real) {
    0.0 <= b.tokens <= BURST && b.lastRefill == b.lastActivity <= now
  }

  /** `kept` is `all` without buckets that have been idle long enough to be full again. */
  ghost predicate Similar<K>(all: map<K, Bucket>, kept: map<K, Bucket>, now: real) {
    (forall k :: k in all ==> Sound(all[k], now)) &&
    (forall k :: k in kept ==> k in all && all[k] == kept[k]) &&
    (forall k :: k in all && k !in kept ==> now - all[k].lastRefill > EXPIRY)
  }

  /** A bucket idle for more than 30 s serves a packet exactly as a fresh bucket does. */
  lemma IdleIsFresh(b: Bucket, now: real)
    requires Sound(b, now) && now - b.lastRefill > EXPIRY
    ensures Serve(b, now) == (NewBucket(now), true)
  {
    assert RATE * (now - b.lastRefill) > BURST;
  }

  lemma SimilarStep<K>(all: map<K, Bucket>, kept: map<K, Bucket>, e: Event<K>, before: real, capacity: nat)
    requires Similar(all, kept, before) && before <= e.time && Proper(kept, e, capacity)
    ensures Similar(ReferenceStep(all, e).0, Step(kept, e, capacity).0, e.time)
    ensures ReferenceStep(all, e).1 == Step(kept, e, capacity).1
  {
    if e.Packet? && e.key in all {
      assert Sound(Serve(all[e.key], e.time).0, e.time);
      if e.key !in kept {
        IdleIsFresh(all[e.key], e.time);
      }
    }
  }

  /** Evicting idle buckets changes no answer, compared with never evicting. */
  lemma {:induction false} EvictionUnobservable<K>(events: seq<Event<K>>, capacity: nat)
    requires ProperRun(events, capacity)
    ensures Run(events, capacity).1 == ReferenceRun(events).1
    ensures events != [] ==>
              Similar(ReferenceRun(events).0, Run(events, capacity).0, events[|events| - 1].time)
  {
    if events != [] {
      var last := |events| - 1;
      var prefix, e := events[..last], events[last];
      ProperPrefix(events, last, capacity);
      assert ProperAt(events, last, capacity);
      EvictionUnobservable(prefix, capacity);
      var before := if last == 0 then e.time else events[last - 1].time;
      SimilarStep(ReferenceRun(prefix).0, Run(prefix, capacity).0, e, before, capacity);
    }
  }

  lemma ProperPrefix<K>(events: seq<Event<K>>, n: nat, capacity: nat)
    requires ProperRun(events, capacity) && n <= |events|
    ensures ProperRun(events[..n], capacity)
  {
    var p := events[..n];
    forall i: nat | i < n ensures ProperAt(p, i, capacity) {
      assert p[..i] == events[..i];
      assert ProperAt(events, i, capacity);
    }
  }

  // ---------------------------------------------------------------- admission bound

  /** Tokens an address could draw on at time `t`. */
  function Available<K>(m: map<K, Bucket>, key: K, t: real): real {
    if key !in m then BURST else Refill(m[key], t).tokens
  }

  /** Packets of `key` admitted among the events from index `from` on. */
  function Admitted<K(==)>(events: seq<Event<K>>, answers: seq<bool>, key: K, from: nat): nat
    requires |answers| == |events|
  {
    if |events| <= from then 0 else
      var last := |events| - 1;
      Admitted(events[..last], answers[..last], key, from) +
      (if events[last].Packet? && events[last].key == key && answers[last] then 1 else 0)
  }

  ghost predicate AllSound<K>(m: map<K, Bucket>, now: real) {
    forall k :: k in m ==> Sound(m[k], now)
  }

  lemma SoundStep<K>(m: map<K, Bucket>, e: Event<K>, before: real, capacity: nat)
    requires AllSound(m, before) && before <= e.time
    ensures AllSound(Step(m, e, capacity).0, e.time)
  {
    if e.Packet? && e.key in m {
      assert Sound(Serve(m[e.key], e.time).0, e.time);
    }
  }

  lemma {:induction false} RunSound<K>(events: seq<Event<K>>, capacity: nat)
    requires Ordered(events) && events != []
    ensures AllSound(Run(events, capacity).0, events[|events| - 1].time)
  {
    var last := |events| - 1;
    if last == 0 {
      SoundStep(map[], events[0], events[0].time, capacity);
    } else {
      RunSound(events[..last], capacity);
      SoundStep(Run(events[..last], capacity).0, events[last], events[last - 1].time, capacity);
    }
  }

  function Cost<K(==)>(m: map<K, Bucket>, e: Event<K>, key: K, capacity: nat): real {
    if e.Packet? && e.key == key && Step(m, e, capacity).1 then 1.0 else 0.0
  }

  /** Serving one event spends a token for each admission and gains at most the refill. */
  lemma AvailableStep<K>(m: map<K, Bucket>, e: Event<K>, key: K, before: real, capacity: nat)
    requires AllSound(m, before) && before <= e.time && Proper(m, e, capacity)
    ensures Available(Step(m, e, capacity).0, key, e.time) + Cost(m, e, key, capacity)
            <= Available(m, key, before) + RATE * (e.time - before)
    ensures Available(Step(m, e, capacity).0, key, e.time) + Cost(m, e, key, capacity) <= BURST
  {
    if key in m {
      var b := m[key];
      assert RATE * (e.time - b.lastRefill) == RATE * (e.time - before) + RATE * (before - b.lastRefill);
      assert RATE * (e.time - before) >= 0.0;
    }
  }

  lemma RunPush<K>(events: seq<Event<K>>, from: nat, key: K, capacity: nat)
    requires from < |events|
    ensures var last := |events| - 1;
            var m := Run(events[..last], capacity).0;
            Run(events, capacity).0 == Step(m, events[last], capacity).0 &&
            Admitted(events, Run(events, capacity).1, key, from) as real ==
            Admitted(events[..last], Run(events[..last], capacity).1, key, from) as real
            + Cost(m, events[last], key, capacity)
  {
    var last := |events| - 1;
    assert Run(events, capacity).1[..last] == Run(events[..last], capacity).1;
  }

  /** Admissions since `from` plus the tokens left never exceed the burst plus the refill. */
  lemma {:induction false} AdmissionPotential<K>(events: seq<Event<K>>, from: nat, key: K, capacity: nat)
    requires ProperRun(events, capacity) && from < |events|
    ensures Admitted(events, Run(events, capacity).1, key, from) as real
            + Available(Run(events, capacity).0, key, events[|events| - 1].time)
            <= BURST + RATE * (events[|events| - 1].time - events[from].time)
  {
    var last := |events| - 1;
    var prefix := events[..last];
    RunPush(events, from, key, capacity);
    var m, before := Run(prefix, capacity).0, events[if last == 0 then 0 else last - 1].time;
    if last > 0 {
      RunSound(prefix, capacity);
    }
    assert ProperAt(events, last, capacity);
    AvailableStep(m, events[last], key, before, capacity);
    if from < last {
      ProperPrefix(events, last, capacity);
      AdmissionPotential(prefix, from, key, capacity);
    }
  }

  /** In a window that starts at event `from` and ends before event `to`, no address is admitted
      more than 10 + 60 * (length of the window in seconds) times. */
  lemma AdmissionBound<K>(events: seq<Event<K>>, from: nat, to: nat, key: K, capacity: nat)
    requires ProperRun(events, capacity) && from < to <= |events|
    ensures Admitted(events[..to], Run(events[..to], capacity).1, key, from) as real
            <= BURST + RATE * (events[to - 1].time - events[from].time)
  {
    var window := events[..to];
    ProperPrefix(events, to, capacity);
    AdmissionPotential(window, from, key, capacity);
    RunSound(window, capacity);
  }

  // ---------------------------------------------------------------- nothing is refused without cause

  /** Event `f` is a packet of the address. */
  predicate IsPacketOf<K(==)>(events: seq<Event<K>>, f: nat, key: K) {
    f < |events| && events[f].Packet? && events[f].key == key
  }

  /** Since event `f` the bucket was never capped: what it gained and gave away is all accounted for. */
  ghost predicate Uncapped<K>(events: seq<Event<K>>, answers: seq<bool>, b: Bucket, key: K, f: nat)
    requires |answers| == |events|
  {
    IsPacketOf(events, f, key) &&
    b.tokens + Admitted(events, answers, key, f) as real == 10.0 + 60.0 * (b.lastRefill - events[f].time)
  }

  lemma UncappedStep<K>(events: seq<Event<K>>, key: K, capacity: nat, f: nat) returns (g: nat)
    requires Ordered(events) && events != []
    requires var front := events[..|events| - 1];
             var (m, answers) := Run(front, capacity);
             key in m && AllSound(m, events[|events| - 1].time) && Uncapped(front, answers, m[key], key, f)
    requires key in Run(events, capacity).0
    ensures var (m, answers) := Run(events, capacity); Uncapped(events, answers, m[key], key, g)
  {
    var last := |events| - 1;
    var front, e := events[..last], events[last];
    var m := Run(front, capacity).0;
    assert Sound(m[key], e.time);
    RunPush(events, f, key, capacity);
    if e.Packet? && e.key == key && Refill(m[key], e.time).tokens == BURST {
      g := last;
      RunPush(events, last, key, capacity);
      assert Admitted(front, Run(front, capacity).1, key, last) == 0;
    } else {
      g := f;
      assert IsPacketOf(events, f, key);
      Spread(e.time, m[key].lastRefill, events[f].time);
    }
  }

  /** Every bucket of a run goes back to a packet of its address at which it was full. */
  lemma {:induction false} RunUncapped<K>(events: seq<Event<K>>, key: K, capacity: nat) returns (f: nat)
    requires Ordered(events) && key in Run(events, capacity).0
    ensures var (m, answers) := Run(events, capacity); Uncapped(events, answers, m[key], key, f)
  {
    var last := |events| - 1;
    var front := events[..last];
    if key in Run(front, capacity).0 {
      var before := RunUncapped(front, key, capacity);
      RunSound(front, capacity);
      assert events[last - 1].time <= events[last].time;
      f := UncappedStep(events, key, capacity, before);
    } else {
      f := last;
      RunPush(events, last, key, capacity);
      assert Admitted(front, Run(front, capacity).1, key, last) == 0;
    }
  }

  /** With this packet the address would exceed 10 + 60 per second since its packet `f`. */
  ghost predicate Exceeds<K>(events: seq<Event<K>>, answers: seq<bool>, key: K, now: real, f: nat)
    requires |answers| == |events|
  {
    IsPacketOf(events, f, key) &&
    Admitted(events, answers, key, f) as real + 1.0 > 10.0 + 60.0 * (now - events[f].time)
  }

  /**
   * The limiter is exact: in every proper run a packet is refused if and only if, counted from some earlier packet
   * of its address, the admitted packets and this one would be more than 10 and 60 per second.
   */
  lemma RefusedIff<K>(events: seq<Event<K>>, key: K, now: real, capacity: nat)
    requires ProperRun(events + [Packet(key, now)], capacity)
    ensures !Run(events + [Packet(key, now)], capacity).1[|events|] <==>
              exists f: nat :: Exceeds(events, Run(events, capacity).1, key, now, f)
  {
    var all := events + [Packet(key, now)];
    var (m, answers) := Run(events, capacity);
    assert all[..|events|] == events;
    ProperPrefix(all, |events|, capacity);
    if !Run(all, capacity).1[|events|] {
      RunSound(events, capacity);
      var f := RunUncapped(events, key, capacity);
      assert events[|events| - 1].time == all[|events| - 1].time <= all[|events|].time;
      Spread(now, m[key].lastRefill, events[f].time);
      assert Exceeds(events, answers, key, now, f);
    } else {
      forall f: nat | f < |events| ensures !Exceeds(events, answers, key, now, f) {
        AdmissionBound(all, f, |all|, key, capacity);
        assert all[..|all|] == all;
        RunPush(all, f, key, capacity);
      }
    }
  }

  /** Of eleven packets of a new address at one time, the first ten are admitted and the last is refused. */
  lemma BurstOfTen<K>(key: K, now: real, capacity: nat)
    requires capacity > 0
    ensures Run(seq(11, _ => Packet(key, now)), capacity).1 == seq(10, _ => true) + [false]
  {
    BurstRun(key, now, capacity, 11);
  }

  lemma {:induction false} BurstRun<K>(key: K, now: real, capacity: nat, n: nat)
    requires capacity > 0 && n <= 11
    ensures var (m, answers) := Run(seq(n, _ => Packet(key, now)), capacity);
            answers == seq(n, i => i < 10) &&
            m == if n == 0 then map[] else map[key := Bucket(if n <= 10 then (10 - n) as real else 0.0, now, now)]
  {
    if n > 0 {
      BurstRun(key, now, capacity, n - 1);
      var all := seq(n, _ => Packet(key, now));
      assert all[..n - 1] == seq(n - 1, _ => Packet(key, now));
    }
  }

  // ---------------------------------------------------------------- a full table

  /** Packets of one address admitted when they arrive at these times. */
  function Admissions<K>(m: map<K, Bucket>, key: K, times: seq<real>, capacity: nat): nat
    decreases |times|
  {
    if times == [] then 0 else
      var (m', ok) := Allow(m, key, times[0], capacity);
      (if ok then 1 else 0) + Admissions(m', key, times[1..], capacity)
  }

  ghost predicate Rising(times: seq<real>, now: real) {
    times != [] && now <= times[0] && forall i, j :: 0 <= i <= j < |times| ==> times[i] <= times[j]
  }

  /** The bound of the limiter: the burst, and the rate times the length of the window. */
  ghost predicate Bounded<K>(m: map<K, Bucket>, key: K, times: seq<real>, capacity: nat)
    requires times != []
  {
    Admissions(m, key, times, capacity) as real <= BURST + RATE * (times[|times| - 1] - times[0])
  }

  /** Serving a packet spends a token, and time adds at most the rate. */
  lemma ServeTokens(b: Bucket, now: real, later: real)
    requires Sound(b, now) && now <= later
    ensures Sound(Serve(b, now).0, now)
    ensures Refill(Serve(b, now).0, later).tokens + (if Serve(b, now).1 then 1.0 else 0.0)
            <= Refill(b, now).tokens + RATE * (later - now)
  {
    assert RATE * (later - now) >= 0.0;
  }

  lemma {:induction false} KnownBound<K>(m: map<K, Bucket>, key: K, times: seq<real>, capacity: nat)
    requires times != [] && key in m && Sound(m[key], times[0]) && Rising(times, times[0])
    ensures Admissions(m, key, times, capacity) as real
            <= Refill(m[key], times[0]).tokens + RATE * (times[|times| - 1] - times[0])
    decreases |times|
  {
    var now, rest := times[0], times[1..];
    var m' := Allow(m, key, now, capacity).0;
    if rest == [] {
      ServeTokens(m[key], now, now);
      assert Admissions(m', key, rest, capacity) == 0;
    } else {
      var later := rest[0];
      ServeTokens(m[key], now, later);
      KnownBound(m', key, rest, capacity);
      assert rest[|rest| - 1] == times[|times| - 1];
      Spread(times[|times| - 1], later, now);
    }
  }

  lemma Spread(last: real, later: real, now: real)
    ensures RATE * (last - now) == RATE * (last - later) + RATE * (later - now)
  {
  }

  lemma {:induction false} FullAdmitsAll<K>(m: map<K, Bucket>, key: K, times: seq<real>, capacity: nat)
    requires key !in m && |m| == capacity
    ensures Admissions(m, key, times, capacity) == |times|
    decreases |times|
  {
    if times != [] {
      FullAdmitsAll(m, key, times[1..], capacity);
    }
  }

  /** An address the table has room for: the new bucket starts with the rest of the burst. */
  lemma NewBound<K>(m: map<K, Bucket>, key: K, times: seq<real>, capacity: nat)
    requires times != [] && key !in m && |m| != capacity && Rising(times, times[0])
    ensures Bounded(m, key, times, capacity)
  {
    var now, rest := times[0], times[1..];
    var m' := m[key := NewBucket(now)];
    assert RATE * (times[|times| - 1] - now) >= 0.0;
    if rest != [] {
      KnownBound(m', key, rest, capacity);
      assert rest[|rest| - 1] == times[|times| - 1];
      Spread(times[|times| - 1], rest[0], now);
    }
  }

  /**
   * The insert failure the limiter ignores: for every sequence of arrivals an address stays within the burst plus
   * the rate times the window, if and only if its bucket exists or there is room for it.
   */
  lemma LimitedIffRecorded<K>(m: map<K, Bucket>, key: K, now: real, capacity: nat)
    requires AllSound(m, now)
    ensures (forall times :: Rising(times, now) ==> Bounded(m, key, times, capacity)) <==> key in m || |m| != capacity
  {
    if key !in m && |m| == capacity {
      var times := seq(11, _ => now);
      FullAdmitsAll(m, key, times, capacity);
      assert Rising(times, now) && !Bounded(m, key, times, capacity);
    } else {
      forall times | Rising(times, now) ensures Bounded(m, key, times, capacity) {
        if key in m {
          assert Sound(m[key], now);
          KnownBound(m, key, times, capacity);
        } else {
          NewBound(m, key, times, capacity);
        }
      }
    }
  }
}
