/**
 * Key epochs and rekeying (src/crypto/packet_crypto.cpp).  Key derivation and the cipher are
 * parameters: nothing is assumed about them beyond what a lemma asks for.
 */
module PacketCrypto {
  import opened Arith
  import opened Bytes
  import opened Collections
  import opened Replay

  const GRACE_PACKETS: nat := 256
  const EPOCHS: nat := 0x1_0000_0000
  const REKEY_NONCES: nat := 0x4000_0000
  const REKEY_BYTES: nat := 0x4000_0000
  const REKEY_SECONDS: real := 3600.0

  /** The fields of KeyEpoch; `K` is the type of keys. */
  datatype Epoch<K> = Epoch(tx: K, rx: K, oldRx: K, nonce: nat, bytes: nat, start: real,
                            number: nat, grace: nat, pending: bool, replay: Window)

  /** Key derivation, the all-zero key, and the cipher; `open` gives nothing when a ciphertext does not authenticate. */
  datatype Suite<!K> = Suite(
    derive: (K, nat) -> K, zero: K,
    seal: (K, nat, seq<Byte>) -> seq<Byte>, open: (K, nat, seq<Byte>) -> Option<seq<Byte>>)

  predicate ShouldRekey<K>(e: Epoch<K>, now: real) {
    e.nonce >= REKEY_NONCES || e.bytes >= REKEY_BYTES ||
    (e.start > 0.0 && now - e.start >= REKEY_SECONDS)
  }

  function Prepare<K>(e: Epoch<K>): Epoch<K> {
    e.(oldRx := e.rx, pending := true)
  }

  function Activate<K>(e: Epoch<K>, now: real, suite: Suite<K>): Epoch<K> {
    var next := (e.number + 1) % EPOCHS;
    Epoch(suite.derive(e.tx, next), suite.derive(e.rx, next), e.oldRx, 0, 0, now, next, GRACE_PACKETS, false, Fresh())
  }

  function OnReceiveRekey<K>(e: Epoch<K>, now: real, suite: Suite<K>): Epoch<K> {
    Activate(e.(oldRx := e.rx), now, suite)
  }

  /** Bookkeeping of a successful packet_encrypt. */
  function Encrypted<K>(e: Epoch<K>, length: nat): Epoch<K> {
    e.(nonce := (e.nonce + 1) % NONCES, bytes := (e.bytes + length) % NONCES)
  }

  /** packet_decrypt: the replay check, the cipher under the current key, and only then the window. */
  function Decrypt<K>(e: Epoch<K>, nonce: nat, ct: seq<Byte>, suite: Suite<K>): (Epoch<K>, Option<seq<Byte>>)
    requires |e.replay.received| == WINDOW
  {
    var pt := suite.open(e.rx, nonce, ct);
    if IsDuplicate(e.replay, nonce) || pt.None? then (e, None) else (e.(replay := Advance(e.replay, nonce)), pt)
  }

  /** packet_decrypt_grace: the cipher under the old key, while grace packets remain. */
  function DecryptGrace<K>(e: Epoch<K>, nonce: nat, ct: seq<Byte>, suite: Suite<K>): (Epoch<K>, Option<seq<Byte>>) {
    var pt := suite.open(e.oldRx, nonce, ct);
    if e.grace == 0 || pt.None? then (e, None) else
      (e.(grace := e.grace - 1, oldRx := if e.grace == 1 then suite.zero else e.oldRx), pt)
  }

  /**
   * The nonce under which the next packet is decrypted, which is not on the wire: one more than the most recent,
   * and `first` while nothing has been accepted.  The server starts at 0, the client at 1.
   */
  function Expected(w: Window, first: nat): nat
    requires |w.received| == WINDOW
  {
    if w.mostRecent == 0 && w.received[0] == EMPTY then first else (w.mostRecent + 1) % NONCES
  }

  /** The server's data handler: the expected nonce under the current key, and else under the old one. */
  function Receive<K>(e: Epoch<K>, first: nat, ct: seq<Byte>, suite: Suite<K>): (Epoch<K>, Option<seq<Byte>>)
    requires |e.replay.received| == WINDOW
  {
    var x := Expected(e.replay, first);
    if Decrypt(e, x, ct, suite).1.Some? then Decrypt(e, x, ct, suite) else DecryptGrace(e, x, ct, suite)
  }

  // ---------------------------------------------------------------- the epoch object

  class KeyEpoch<K> {
    const suite: Suite<K>
    var tx: K
    var rx: K
    var oldRx: K
    var nonce: nat
    var bytes: nat
    var start: real
    var number: nat
    var grace: nat
    var pending: bool
    const replay: ReplayProtection

    ghost predicate Valid()
      reads this, replay
    {
      replay.Valid()
    }

    ghost function View(): Epoch<K>
      reads this, replay, replay.received
    {
      Epoch(tx, rx, oldRx, nonce, bytes, start, number, grace, pending, replay.View())
    }

    constructor (suite: Suite<K>, tx: K, rx: K)
      ensures Valid() && fresh(replay) && fresh(replay.received)
      ensures this.suite == suite && View() == Started(suite, tx, rx)
    {
      this.suite, this.tx, this.rx, oldRx := suite, tx, rx, suite.zero;
      nonce, bytes, start, number, grace, pending := 0, 0, 0.0, 0, 0, false;
      replay := new ReplayProtection();
    }

    method PrepareRekey()
      requires Valid()
      modifies this`oldRx, this`pending
      ensures Valid() && View() == Prepare(old(View())) && pending && oldRx == rx
    {
      oldRx := rx;
      pending := true;
    }

    method ActivateRekey(now: real)
      requires Valid()
      modifies this, replay, replay.received
      ensures Valid() && View() == Activate(old(View()), now, suite)
      ensures !pending && grace == 256 && nonce == bytes == 0 && start == now
    {
      var next := (number + 1) % EPOCHS;
      var newTx, newRx := suite.derive(tx, next), suite.derive(rx, next);
      tx, rx := newTx, newRx;
      nonce, bytes := 0, 0;
      start, number := now, next;
      grace, pending := GRACE_PACKETS, false;
      replay.Reset();
    }

    method ReceiveRekey(now: real)
      requires Valid()
      modifies this, replay, replay.received
      ensures Valid() && View() == OnReceiveRekey(old(View()), now, suite) && oldRx == old(rx)
    {
      oldRx := rx;
      ActivateRekey(now);
    }

    /** Returns the ciphertext and the nonce used. */
    method PacketEncrypt(pt: seq<Byte>) returns (ct: seq<Byte>, used: nat)
      requires Valid()
      modifies this`nonce, this`bytes
      ensures Valid() && ct == suite.seal(old(tx), old(nonce), pt) && used == old(nonce)
      ensures View() == Encrypted(old(View()), |pt|)
    {
      ct, used := suite.seal(tx, nonce, pt), nonce;
      nonce := (nonce + 1) % NONCES;
      bytes := (bytes + |pt|) % NONCES;
    }

    method PacketDecrypt(counter: nat, ct: seq<Byte>) returns (pt: Option<seq<Byte>>)
      requires Valid()
      modifies replay, replay.received
      ensures Valid() && |old(View()).replay.received| == WINDOW
      ensures (View(), pt) == Decrypt(old(View()), counter, ct, suite)
    {
      var reject := replay.Check(counter);
      if reject {
        return None;
      }
      pt := suite.open(rx, counter, ct);
      if pt.Some? {
        replay.AdvanceTo(counter);
      }
    }

    method PacketDecryptGrace(counter: nat, ct: seq<Byte>) returns (pt: Option<seq<Byte>>)
      requires Valid()
      modifies this`grace, this`oldRx
      ensures Valid() && (View(), pt) == DecryptGrace(old(View()), counter, ct, suite)
    {
      if grace <= 0 {
        return None;
      }
      pt := suite.open(oldRx, counter, ct);
      if pt.Some? {
        grace := grace - 1;
        if grace == 0 {
          oldRx := suite.zero;
        }
      }
    }

    /** The decryption of a data packet by the server. */
    method Open(ct: seq<Byte>) returns (pt: Option<seq<Byte>>)
      requires Valid()
      modifies this`grace, this`oldRx, replay, replay.received
      ensures Valid() && |old(View()).replay.received| == WINDOW
      ensures (View(), pt) == Receive(old(View()), 0, ct, suite)
    {
      var expected := (replay.mostRecent + 1) % NONCES;
      if replay.mostRecent == 0 && replay.received[0] == EMPTY {
        expected := 0;
      }
      pt := PacketDecrypt(expected, ct);
      if pt.None? {
        pt := PacketDecryptGrace(expected, ct);
      }
    }
  }

  function Started<K>(suite: Suite<K>, tx: K, rx: K): Epoch<K> {
    Epoch(tx, rx, suite.zero, 0, 0, 0.0, 0, 0, false, Fresh())
  }

  // ---------------------------------------------------------------- two peers

  /** A peer, with its previous receive key, the (epoch, nonce) pairs it has encrypted under, and
      the grace decryptions of its current epoch. */
  datatype Peer<K> = Peer(epoch: Epoch<K>, previousRx: K, used: seq<(nat, nat)>, graces: nat)

  /** `flight` is the peer whose rekey the other has not processed yet. */
  datatype Side = A | B
  datatype Flight = Settled | From(side: Side)
  datatype Link<K> = Link(a: Peer<K>, b: Peer<K>, flight: Flight)

  datatype Event =
    | Encrypts(side: Side, length: nat)
    | Rekeys(side: Side, now: real, length: nat)
    | Processes(now: real)
    | Decrypts(side: Side, counter: nat, ct: seq<Byte>)
    | DecryptsGrace(side: Side, counter: nat, ct: seq<Byte>)

  function Get<K>(l: Link<K>, side: Side): Peer<K> {
    if side == A then l.a else l.b
  }

  function Set<K>(l: Link<K>, side: Side, p: Peer<K>): Link<K> {
    if side == A then l.(a := p) else l.(b := p)
  }

  function Other(side: Side): Side {
    if side == A then B else A
  }

  function EncryptStep<K>(p: Peer<K>, length: nat): Peer<K> {
    p.(used := p.used + [(p.epoch.number, p.epoch.nonce)], epoch := Encrypted(p.epoch, length))
  }

  /** The initiator: prepare, encrypt the flagged packet under the old key, activate. */
  function RekeyStep<K>(p: Peer<K>, now: real, length: nat, suite: Suite<K>): Peer<K> {
    var q := EncryptStep(p.(epoch := Prepare(p.epoch)), length);
    Peer(Activate(q.epoch, now, suite), p.epoch.rx, q.used, 0)
  }

  function ProcessStep<K>(p: Peer<K>, now: real, suite: Suite<K>): Peer<K> {
    Peer(OnReceiveRekey(p.epoch, now, suite), p.epoch.rx, p.used, 0)
  }

  function DecryptStep<K>(p: Peer<K>, counter: nat, ct: seq<Byte>, suite: Suite<K>): Peer<K>
    requires |p.epoch.replay.received| == WINDOW
  {
    p.(epoch := Decrypt(p.epoch, counter, ct, suite).0)
  }

  function GraceStep<K>(p: Peer<K>, counter: nat, ct: seq<Byte>, suite: Suite<K>): Peer<K> {
    var (q, pt) := DecryptGrace(p.epoch, counter, ct, suite);
    p.(epoch := q, graces := if pt.Some? then p.graces + 1 else p.graces)
  }

  predicate Starts<K>(l: Link<K>, side: Side, now: real) {
    l.flight.Settled? && ShouldRekey(Get(l, side).epoch, now)
  }

  /** One event; a rekey starts when a threshold is reached and the previous rekey has been processed. */
  function Step<K>(l: Link<K>, e: Event, suite: Suite<K>): (r: Link<K>)
    requires |l.a.epoch.replay.received| == |l.b.epoch.replay.received| == WINDOW
    ensures |r.a.epoch.replay.received| == |r.b.epoch.replay.received| == WINDOW
  {
    match e
    case Encrypts(side, length) => Set(l, side, EncryptStep(Get(l, side), length))
    case Rekeys(side, now, length) =>
      if !Starts(l, side, now) then l else
        Set(l, side, RekeyStep(Get(l, side), now, length, suite)).(flight := From(side))
    case Processes(now) =>
      if l.flight.Settled? then l else
        var side := Other(l.flight.side);
        Set(l, side, ProcessStep(Get(l, side), now, suite)).(flight := Settled)
    case Decrypts(side, counter, ct) => Set(l, side, DecryptStep(Get(l, side), counter, ct, suite))
    case DecryptsGrace(side, counter, ct) => Set(l, side, GraceStep(Get(l, side), counter, ct, suite))
  }

  /** Both peers start from the two session keys. */
  function Run<K>(events: seq<Event>, suite: Suite<K>, ab: K, ba: K): (l: Link<K>)
    ensures |l.a.epoch.replay.received| == |l.b.epoch.replay.received| == WINDOW
  {
    if events == [] then
      Link(Peer(Started(suite, ab, ba), ba, [], 0), Peer(Started(suite, ba, ab), ab, [], 0), Settled)
    else Step(Run(events[..|events| - 1], suite, ab, ba), events[|events| - 1], suite)
  }

  // ---------------------------------------------------------------- key agreement

  /** Each peer's send key is the other's receive key; during a rekey the initiator is one derivation ahead. */
  ghost predicate KeysAgree<K>(l: Link<K>, suite: Suite<K>) {
    match l.flight
    case Settled =>
      l.a.epoch.tx == l.b.epoch.rx && l.b.epoch.tx == l.a.epoch.rx && l.a.epoch.number == l.b.epoch.number
    case From(side) =>
      var x, y := Get(l, side).epoch, Get(l, Other(side)).epoch;
      x.number == (y.number + 1) % EPOCHS &&
      x.tx == suite.derive(y.rx, x.number) && x.rx == suite.derive(y.tx, x.number)
  }

  /** While grace packets remain, the old key is the previous receive key, from which the current one
      was derived; remaining and used grace packets add up to 256. */
  ghost predicate GraceOk<K>(p: Peer<K>, suite: Suite<K>) {
    (p.epoch.grace == 0 && p.graces == 0) ||
    (p.epoch.grace + p.graces == GRACE_PACKETS &&
     p.epoch.rx == suite.derive(p.previousRx, p.epoch.number) &&
     (p.epoch.grace > 0 ==> p.epoch.oldRx == p.previousRx))
  }

  ghost predicate LinkOk<K>(l: Link<K>, suite: Suite<K>) {
    KeysAgree(l, suite) && GraceOk(l.a, suite) && GraceOk(l.b, suite)
  }

  lemma RekeyOk<K>(l: Link<K>, side: Side, now: real, length: nat, suite: Suite<K>)
    requires LinkOk(l, suite) && l.flight.Settled?
    ensures LinkOk(Set(l, side, RekeyStep(Get(l, side), now, length, suite)).(flight := From(side)), suite)
  {
  }

  lemma ProcessOk<K>(l: Link<K>, now: real, suite: Suite<K>)
    requires LinkOk(l, suite) && l.flight.From?
    ensures var side := Other(l.flight.side);
            LinkOk(Set(l, side, ProcessStep(Get(l, side), now, suite)).(flight := Settled), suite)
  {
  }

  /** A step that changes no key, no epoch number and keeps the grace account keeps the link sound. */
  lemma QuietOk<K>(l: Link<K>, side: Side, p: Peer<K>, suite: Suite<K>)
    requires LinkOk(l, suite) && GraceOk(p, suite)
    requires p.epoch.tx == Get(l, side).epoch.tx && p.epoch.rx == Get(l, side).epoch.rx
    requires p.epoch.number == Get(l, side).epoch.number
    ensures LinkOk(Set(l, side, p), suite)
  {
  }

  lemma EncryptOk<K>(l: Link<K>, side: Side, length: nat, suite: Suite<K>)
    requires LinkOk(l, suite)
    ensures LinkOk(Set(l, side, EncryptStep(Get(l, side), length)), suite)
  {
    QuietOk(l, side, EncryptStep(Get(l, side), length), suite);
  }

  lemma DecryptOk<K>(l: Link<K>, side: Side, counter: nat, ct: seq<Byte>, suite: Suite<K>)
    requires LinkOk(l, suite) && |Get(l, side).epoch.replay.received| == WINDOW
    ensures LinkOk(Set(l, side, DecryptStep(Get(l, side), counter, ct, suite)), suite)
  {
    QuietOk(l, side, DecryptStep(Get(l, side), counter, ct, suite), suite);
  }

  lemma GraceDecryptOk<K>(l: Link<K>, side: Side, counter: nat, ct: seq<Byte>, suite: Suite<K>)
    requires LinkOk(l, suite)
    ensures LinkOk(Set(l, side, GraceStep(Get(l, side), counter, ct, suite)), suite)
  {
    QuietOk(l, side, GraceStep(Get(l, side), counter, ct, suite), suite);
  }

  lemma StepOk<K>(l: Link<K>, e: Event, suite: Suite<K>)
    requires |l.a.epoch.replay.received| == |l.b.epoch.replay.received| == WINDOW && LinkOk(l, suite)
    ensures LinkOk(Step(l, e, suite), suite)
  {
    match e
    case Encrypts(side, length) => EncryptOk(l, side, length, suite);
    case Rekeys(side, now, length) =>
      if Starts(l, side, now) {
        RekeyOk(l, side, now, length, suite);
      }
    case Processes(now) =>
      if l.flight.From? {
        ProcessOk(l, now, suite);
      }
    case Decrypts(side, counter, ct) => DecryptOk(l, side, counter, ct, suite);
    case DecryptsGrace(side, counter, ct) => GraceDecryptOk(l, side, counter, ct, suite);
  }

  /** Through any number of rekeys by either peer, each processed before the next starts, the keys
      agree, the old key is the previous receive key, and grace decryption succeeds at most 256 times
      per epoch. */
  lemma {:induction false} KeysAgreeInEveryRun<K>(events: seq<Event>, suite: Suite<K>, ab: K, ba: K)
    ensures LinkOk(Run(events, suite, ab, ba), suite)
    ensures Run(events, suite, ab, ba).a.graces <= 256 && Run(events, suite, ab, ba).b.graces <= 256
  {
    if events != [] {
      var before := events[..|events| - 1];
      KeysAgreeInEveryRun(before, suite, ab, ba);
      StepOk(Run(before, suite, ab, ba), events[|events| - 1], suite);
    }
  }

  // ---------------------------------------------------------------- the nonce the packet handlers expect

  /** No slot is ahead of the most recent nonce. */
  ghost predicate Sane(w: Window) {
    |w.received| == WINDOW && w.mostRecent < NONCES &&
    forall i :: 0 <= i < WINDOW ==> w.received[i] == EMPTY || w.received[i] <= w.mostRecent
  }

  lemma ExpectedRejectedIff(w: Window, first: nat)
    requires Sane(w) && first <= 1
    ensures IsDuplicate(w, Expected(w, first)) <==> w.mostRecent + WINDOW + 1 >= NONCES
    ensures IsDuplicate(w, Expected(w, first)) <==> TooOld(w.mostRecent, Expected(w, first))
  {
  }

  /** The run's counters are 64-bit. */
  predicate Wide(e: Event) {
    e.Decrypts? ==> e.counter < NONCES
  }

  lemma {:induction false} WindowsSane<K>(events: seq<Event>, suite: Suite<K>, ab: K, ba: K)
    requires forall i :: 0 <= i < |events| ==> Wide(events[i])
    ensures Sane(Run(events, suite, ab, ba).a.epoch.replay) && Sane(Run(events, suite, ab, ba).b.epoch.replay)
  {
    if events != [] {
      WindowsSane(events[..|events| - 1], suite, ab, ba);
      StepSane(Run(events[..|events| - 1], suite, ab, ba), events[|events| - 1], suite);
    }
  }

  lemma AdvanceSane(w: Window, nonce: nat)
    requires Sane(w) && nonce < NONCES
    ensures Sane(Advance(w, nonce))
  {
  }

  lemma StepSane<K>(l: Link<K>, e: Event, suite: Suite<K>)
    requires Sane(l.a.epoch.replay) && Sane(l.b.epoch.replay) && Wide(e)
    ensures Sane(Step(l, e, suite).a.epoch.replay) && Sane(Step(l, e, suite).b.epoch.replay)
  {
    assert Sane(Fresh());
    if e.Decrypts? {
      AdvanceSane(Get(l, e.side).epoch.replay, e.counter);
    }
  }

  /** The plaintext sealed under this key and nonce opens to itself under that nonce, and to nothing under another. */
  ghost predicate OpensOnly<K>(suite: Suite<K>, key: K, nonce: nat, pt: seq<Byte>) {
    forall n: nat :: suite.open(key, n, suite.seal(key, nonce, pt)) == if n == nonce then Some(pt) else None
  }

  /**
   * In every run, when no rekey is under way: the next packet a peer seals opens at the other end if and only if
   * the nonce the receiver expects is the sender's (and is not at the very end of the 64-bit range); otherwise the
   * packet is dropped and the receiver is as before.  For any cipher that opens what it sealed under the same key
   * and nonce and nothing else.
   */
  lemma NextPacketOpensIff<K>(events: seq<Event>, suite: Suite<K>, ab: K, ba: K, side: Side, first: nat, pt: seq<Byte>)
    requires forall i :: 0 <= i < |events| ==> Wide(events[i])
    requires Run(events, suite, ab, ba).flight.Settled? && first <= 1
    requires var s := Get(Run(events, suite, ab, ba), side).epoch;
             OpensOnly(suite, s.tx, s.nonce, pt)
    ensures var l := Run(events, suite, ab, ba);
            var s, r := Get(l, side).epoch, Get(l, Other(side)).epoch;
            var x := Expected(r.replay, first);
            var (after, out) := Decrypt(r, x, suite.seal(s.tx, s.nonce, pt), suite);
            if x == s.nonce && r.replay.mostRecent + 257 < 0x1_0000_0000_0000_0000
            then out == Some(pt) && Expected(after.replay, first) == x + 1
            else out == None && after == r
  {
    KeysAgreeInEveryRun(events, suite, ab, ba);
    WindowsSane(events, suite, ab, ba);
    var l := Run(events, suite, ab, ba);
    PacketOpensIff(Get(l, side).epoch, Get(l, Other(side)).epoch, suite, first, pt);
  }

  lemma PacketOpensIff<K>(s: Epoch<K>, r: Epoch<K>, suite: Suite<K>, first: nat, pt: seq<Byte>)
    requires s.tx == r.rx && Sane(r.replay) && first <= 1
    requires OpensOnly(suite, s.tx, s.nonce, pt)
    ensures var x := Expected(r.replay, first);
            var (after, out) := Decrypt(r, x, suite.seal(s.tx, s.nonce, pt), suite);
            if x == s.nonce && r.replay.mostRecent + WINDOW + 1 < NONCES
            then out == Some(pt) && Expected(after.replay, first) == x + 1
            else out == None && after == r
  {
    ExpectedRejectedIff(r.replay, first);
    if r.replay.mostRecent + WINDOW + 1 < NONCES {
      ExpectedAdvances(r.replay, first);
    }
  }

  lemma ExpectedAdvances(w: Window, first: nat)
    requires Sane(w) && first <= 1 && w.mostRecent + WINDOW + 1 < NONCES
    ensures Expected(Advance(w, Expected(w, first)), first) == Expected(w, first) + 1
  {
  }

  // ---------------------------------------------------------------- one epoch of a receiver

  /** The ciphertext opens under no nonce. */
  ghost predicate OpensNowhere<K>(suite: Suite<K>, key: K, ct: seq<Byte>) {
    forall n: nat :: suite.open(key, n, ct) == None
  }

  /** Packet `n` of the peer is `plain[n]` under nonce `n` and the receive key, and means nothing under the old key. */
  ghost predicate Genuine<K>(e: Epoch<K>, suite: Suite<K>, plain: seq<seq<Byte>>, n: nat)
    requires n < |plain|
  {
    OpensOnly(suite, e.rx, n, plain[n]) && (e.grace > 0 ==> OpensNowhere(suite, e.oldRx, suite.seal(e.rx, n, plain[n])))
  }

  ghost predicate AllGenuine<K>(e: Epoch<K>, suite: Suite<K>, plain: seq<seq<Byte>>) {
    forall n: nat :: n < |plain| ==> Genuine(e, suite, plain, n)
  }

  /** The receiver, and the plaintexts it has got, when the peer's packets arrive in this order. */
  function Accepted<K>(e: Epoch<K>, suite: Suite<K>, plain: seq<seq<Byte>>, arrivals: seq<nat>, first: nat):
    (r: (Epoch<K>, seq<seq<Byte>>))
    requires |e.replay.received| == WINDOW && forall i :: 0 <= i < |arrivals| ==> arrivals[i] < |plain|
    ensures |r.0.replay.received| == WINDOW
  {
    if arrivals == [] then (e, []) else
      var (before, got) := Accepted(e, suite, plain, arrivals[..|arrivals| - 1], first);
      var n := arrivals[|arrivals| - 1];
      var (after, pt) := Receive(before, first, suite.seal(e.rx, n, plain[n]), suite);
      (after, if pt.Some? then got + [pt.value] else got)
  }

  /** The window after the nonces from `first` on, `k` of them, have been accepted. */
  ghost predicate Filled(w: Window, k: nat, first: nat) {
    Sane(w) &&
    if k == 0 then w == Fresh() else
      w.mostRecent == first + k - 1 && (first == 0 ==> w.received[0] != EMPTY || k > 1)
  }

  predicate GotAt(got: seq<seq<Byte>>, plain: seq<seq<Byte>>, arrivals: seq<nat>, first: nat, i: nat)
    requires i < |got|
  {
    first + i < |plain| && got[i] == plain[first + i] && first + i in arrivals
  }

  lemma GotPush(got: seq<seq<Byte>>, more: seq<seq<Byte>>, plain: seq<seq<Byte>>, front: seq<nat>,
                arrivals: seq<nat>, first: nat)
    requires WithoutGap(got, plain, front, first) && arrivals != [] && arrivals[..|arrivals| - 1] == front
    requires more == got ||
             (arrivals[|front|] == first + |got| < |plain| && more == got + [plain[first + |got|]])
    ensures WithoutGap(more, plain, arrivals, first)
  {
    forall i: nat | i < |more| ensures GotAt(more, plain, arrivals, first, i) {
      if i < |got| {
        assert GotAt(got, plain, front, first, i);
      } else {
        assert arrivals[|front|] in arrivals;
      }
    }
  }

  /** What was got are the peer's packets from `first` on, in order and without a gap, and all of them arrived. */
  ghost predicate WithoutGap(got: seq<seq<Byte>>, plain: seq<seq<Byte>>, arrivals: seq<nat>, first: nat) {
    forall i: nat {:trigger GotAt(got, plain, arrivals, first, i)} ::
      i < |got| ==> GotAt(got, plain, arrivals, first, i)
  }

  /** Whatever arrives in an epoch, the packets accepted are the first ones of the peer, in order, without a gap. */
  lemma {:induction false} AcceptedConsecutive<K>(e: Epoch<K>, suite: Suite<K>, plain: seq<seq<Byte>>,
                                                  arrivals: seq<nat>, first: nat)
    requires first <= 1 && e.replay == Fresh() && forall i :: 0 <= i < |arrivals| ==> arrivals[i] < |plain|
    requires AllGenuine(e, suite, plain)
    ensures var (r, got) := Accepted(e, suite, plain, arrivals, first);
            WithoutGap(got, plain, arrivals, first) && Filled(r.replay, |got|, first) && r == e.(replay := r.replay)
  {
    if arrivals != [] {
      var front, n := arrivals[..|arrivals| - 1], arrivals[|arrivals| - 1];
      AcceptedConsecutive(e, suite, plain, front, first);
      var (r, got) := Accepted(e, suite, plain, front, first);
      assert Genuine(e, suite, plain, n);
      ReceiveFilled(r, suite, first, |got|, n, plain[n]);
      GotPush(got, Accepted(e, suite, plain, arrivals, first).1, plain, front, arrivals, first);
    }
  }

  /** The receiver takes exactly the next packet, unless it is at the very end of the 64-bit range. */
  lemma ReceiveFilled<K>(e: Epoch<K>, suite: Suite<K>, first: nat, k: nat, n: nat, pt: seq<Byte>)
    requires first <= 1 && Filled(e.replay, k, first) && OpensOnly(suite, e.rx, n, pt)
    requires e.grace > 0 ==> OpensNowhere(suite, e.oldRx, suite.seal(e.rx, n, pt))
    ensures var (after, out) := Receive(e, first, suite.seal(e.rx, n, pt), suite);
            after == e.(replay := after.replay) &&
            (if out.Some? then out.value == pt && n == first + k && Filled(after.replay, k + 1, first) else after == e)
    ensures n == first + k && k + WINDOW + 2 < NONCES ==>
              Receive(e, first, suite.seal(e.rx, n, pt), suite).1 == Some(pt)
  {
    ExpectedRejectedIff(e.replay, first);
    if e.replay.mostRecent + WINDOW + 1 < NONCES {
      FilledStep(e.replay, k, first);
    }
  }

  lemma FilledStep(w: Window, k: nat, first: nat)
    requires Filled(w, k, first) && first <= 1 && w.mostRecent + WINDOW + 1 < NONCES
    ensures Expected(w, first) == first + k && Filled(Advance(w, first + k), k + 1, first)
  {
    AdvanceSane(w, first + k);
  }

  /** So one lost packet stops decryption until the next rekey: nothing from it on is accepted. */
  lemma LostPacketStops<K>(e: Epoch<K>, suite: Suite<K>, plain: seq<seq<Byte>>, arrivals: seq<nat>, first: nat,
                           lost: nat)
    requires first <= 1 && e.replay == Fresh() && forall i :: 0 <= i < |arrivals| ==> arrivals[i] < |plain|
    requires AllGenuine(e, suite, plain)
    requires first <= lost && lost !in arrivals
    ensures first + |Accepted(e, suite, plain, arrivals, first).1| <= lost
  {
    AcceptedConsecutive(e, suite, plain, arrivals, first);
    var got := Accepted(e, suite, plain, arrivals, first).1;
    assert lost < first + |got| ==> GotAt(got, plain, arrivals, first, lost - first);
  }

  /** And without loss or reordering every packet is accepted. */
  lemma InOrderAllAccepted<K>(e: Epoch<K>, suite: Suite<K>, plain: seq<seq<Byte>>, k: nat, first: nat)
    requires first <= 1 && e.replay == Fresh() && first + k <= |plain| && k + WINDOW + 2 < NONCES
    requires AllGenuine(e, suite, plain)
    ensures Accepted(e, suite, plain, Numbers(first, k), first).1 == plain[first..first + k]
  {
    InOrderCount(e, suite, plain, k, first);
    AcceptedConsecutive(e, suite, plain, Numbers(first, k), first);
    var got := Accepted(e, suite, plain, Numbers(first, k), first).1;
    forall i | 0 <= i < k ensures got[i] == plain[first..first + k][i] {
      assert GotAt(got, plain, Numbers(first, k), first, i);
    }
  }

  lemma {:induction false} InOrderCount<K>(e: Epoch<K>, suite: Suite<K>, plain: seq<seq<Byte>>, k: nat, first: nat)
    requires first <= 1 && e.replay == Fresh() && first + k <= |plain| && k + WINDOW + 2 < NONCES
    requires AllGenuine(e, suite, plain)
    ensures |Accepted(e, suite, plain, Numbers(first, k), first).1| == k
  {
    if k > 0 {
      InOrderCount(e, suite, plain, k - 1, first);
      var all := Numbers(first, k);
      assert all[..|all| - 1] == Numbers(first, k - 1);
      NextAccepted(e, suite, plain, all, first);
    }
  }

  lemma NextAccepted<K>(e: Epoch<K>, suite: Suite<K>, plain: seq<seq<Byte>>, arrivals: seq<nat>, first: nat)
    requires first <= 1 && e.replay == Fresh() && forall i :: 0 <= i < |arrivals| ==> arrivals[i] < |plain|
    requires AllGenuine(e, suite, plain) && arrivals != []
    requires var got := Accepted(e, suite, plain, arrivals[..|arrivals| - 1], first).1;
             arrivals[|arrivals| - 1] == first + |got| && |got| + WINDOW + 2 < NONCES
    ensures |Accepted(e, suite, plain, arrivals, first).1| ==
            |Accepted(e, suite, plain, arrivals[..|arrivals| - 1], first).1| + 1
  {
    var front, n := arrivals[..|arrivals| - 1], arrivals[|arrivals| - 1];
    AcceptedConsecutive(e, suite, plain, front, first);
    var (r, got) := Accepted(e, suite, plain, front, first);
    assert Genuine(e, suite, plain, n);
    ReceiveFilled(r, suite, first, |got|, n, plain[n]);
    assert Receive(r, first, suite.seal(e.rx, n, plain[n]), suite).1 == Some(plain[n]);
  }

  function Numbers(first: nat, n: nat): (r: seq<nat>)
    ensures |r| == n && forall i :: 0 <= i < n ==> r[i] == first + i
  {
    seq(n, i requires 0 <= i => first + i)
  }

  // ---------------------------------------------------------------- packets of the previous epoch

  /**
   * In every run: a packet sealed under the previous receive key with nonce `n` is accepted if and only if grace
   * packets remain and the nonce the receiver expects in the new epoch is `n`.  The window is neither asked nor
   * changed, so whether the packet was accepted before plays no part.
   */
  lemma GraceAcceptsIff<K>(events: seq<Event>, suite: Suite<K>, ab: K, ba: K, side: Side, first: nat, n: nat,
                           pt: seq<Byte>)
    requires var p := Get(Run(events, suite, ab, ba), side);
             OpensOnly(suite, p.previousRx, n, pt) &&
             OpensNowhere(suite, p.epoch.rx, suite.seal(p.previousRx, n, pt))
    ensures var p := Get(Run(events, suite, ab, ba), side);
            var (after, out) := Receive(p.epoch, first, suite.seal(p.previousRx, n, pt), suite);
            if p.epoch.grace > 0 && Expected(p.epoch.replay, first) == n
            then out == Some(pt) && after.grace == p.epoch.grace - 1 && after.replay == p.epoch.replay
            else out == None && after == p.epoch
  {
    KeysAgreeInEveryRun(events, suite, ab, ba);
  }

  /** The same packet arriving `k` times: the receiver, and how often it was accepted. */
  function Repeated<K>(e: Epoch<K>, first: nat, ct: seq<Byte>, suite: Suite<K>, k: nat): (r: (Epoch<K>, nat))
    requires |e.replay.received| == WINDOW
    ensures |r.0.replay.received| == WINDOW
  {
    if k == 0 then (e, 0) else
      var (before, count) := Repeated(e, first, ct, suite, k - 1);
      var (after, pt) := Receive(before, first, ct, suite);
      (after, if pt.Some? then count + 1 else count)
  }

  /** A packet that opens only under the old key is accepted each time it arrives, until no grace packet is left. */
  lemma {:induction false} GraceRepeats<K>(e: Epoch<K>, first: nat, ct: seq<Byte>, suite: Suite<K>, k: nat)
    requires |e.replay.received| == WINDOW && OpensNowhere(suite, e.rx, ct)
    requires suite.open(e.oldRx, Expected(e.replay, first), ct).Some?
    ensures var (r, count) := Repeated(e, first, ct, suite, k);
            count == (if k <= e.grace then k else e.grace) && r.grace == e.grace - count &&
            r.rx == e.rx && r.replay == e.replay && (r.grace > 0 ==> r.oldRx == e.oldRx) &&
            (count > 0 && r.grace == 0 ==> r.oldRx == suite.zero)
  {
    if k > 0 {
      GraceRepeats(e, first, ct, suite, k - 1);
    }
  }

  lemma RunTwo<K>(events: seq<Event>, x: Event, y: Event, suite: Suite<K>, ab: K, ba: K)
    ensures Run(events + [x, y], suite, ab, ba) == Step(Step(Run(events, suite, ab, ba), x, suite), y, suite)
  {
    var all := events + [x, y];
    assert all[..|all| - 1] == events + [x] && (events + [x])[..|events|] == events;
  }

  lemma ProcessedReceiver<K>(l: Link<K>, suite: Suite<K>, side: Side, now: real, length: nat, later: real)
    requires |l.a.epoch.replay.received| == |l.b.epoch.replay.received| == WINDOW && Starts(l, side, now)
    ensures Get(Step(Step(l, Rekeys(side, now, length), suite), Processes(later), suite), Other(side)).epoch ==
            OnReceiveRekey(Get(l, Other(side)).epoch, later, suite)
  {
    var m := Step(l, Rekeys(side, now, length), suite);
    assert m.flight == From(side) && Get(m, Other(side)) == Get(l, Other(side));
  }

  lemma ReceiverAfter<K>(l: Link<K>, suite: Suite<K>, side: Side, now: real, length: nat, later: real)
    requires |l.a.epoch.replay.received| == |l.b.epoch.replay.received| == WINDOW && Starts(l, side, now)
    requires KeysAgree(l, suite)
    ensures var s := Get(l, side).epoch;
            var r := Get(Step(Step(l, Rekeys(side, now, length), suite), Processes(later), suite), Other(side)).epoch;
            r.oldRx == s.tx && r.rx == suite.derive(s.tx, (s.number + 1) % EPOCHS) && r.grace == GRACE_PACKETS &&
            r.replay == Fresh()
  {
    ProcessedReceiver(l, suite, side, now, length, later);
    assert Get(l, Other(side)).epoch.rx == Get(l, side).epoch.tx;
    assert Get(l, Other(side)).epoch.number == Get(l, side).epoch.number;
  }

  /** The other peer once a rekey has been processed. */
  lemma RekeyedReceiver<K>(events: seq<Event>, suite: Suite<K>, ab: K, ba: K, side: Side, now: real, length: nat,
                           later: real)
    requires Starts(Run(events, suite, ab, ba), side, now)
    ensures var s := Get(Run(events, suite, ab, ba), side).epoch;
            var r := Get(Run(events + [Rekeys(side, now, length), Processes(later)], suite, ab, ba), Other(side)).epoch;
            r.oldRx == s.tx && r.rx == suite.derive(s.tx, (s.number + 1) % EPOCHS) && r.grace == GRACE_PACKETS &&
            r.replay == Fresh()
  {
    KeysAgreeInEveryRun(events, suite, ab, ba);
    RunTwo(events, Rekeys(side, now, length), Processes(later), suite, ab, ba);
    ReceiverAfter(Run(events, suite, ab, ba), suite, side, now, length, later);
  }

  /** After a processed rekey both start over: the initiator's next packet opens at a server. */
  lemma RekeyedPacketOpens<K>(events: seq<Event>, suite: Suite<K>, ab: K, ba: K, side: Side, now: real, length: nat,
                              later: real, pt: seq<Byte>)
    requires Starts(Run(events, suite, ab, ba), side, now)
    requires var l := Run(events + [Rekeys(side, now, length), Processes(later)], suite, ab, ba);
             OpensOnly(suite, Get(l, side).epoch.tx, 0, pt)
    ensures var l := Run(events + [Rekeys(side, now, length), Processes(later)], suite, ab, ba);
            var s, r := Get(l, side).epoch, Get(l, Other(side)).epoch;
            s.nonce == 0 && Receive(r, 0, suite.seal(s.tx, s.nonce, pt), suite).1 == Some(pt)
  {
    var all := events + [Rekeys(side, now, length), Processes(later)];
    RekeyedReceiver(events, suite, ab, ba, side, now, length, later);
    RekeyedSender(events, suite, ab, ba, side, now, length, later);
    KeysAgreeInEveryRun(all, suite, ab, ba);
    var l := Run(all, suite, ab, ba);
    FreshOpens(Get(l, Other(side)).epoch, suite, Get(l, side).epoch.tx, pt);
  }

  lemma FreshOpens<K>(r: Epoch<K>, suite: Suite<K>, key: K, pt: seq<Byte>)
    requires r.rx == key && r.replay == Fresh() && OpensOnly(suite, key, 0, pt)
    ensures Receive(r, 0, suite.seal(key, 0, pt), suite).1 == Some(pt)
  {
    assert suite.open(key, 0, suite.seal(key, 0, pt)) == Some(pt);
  }

  lemma RekeyedSender<K>(events: seq<Event>, suite: Suite<K>, ab: K, ba: K, side: Side, now: real, length: nat,
                         later: real)
    requires Starts(Run(events, suite, ab, ba), side, now)
    ensures var l := Run(events + [Rekeys(side, now, length), Processes(later)], suite, ab, ba);
            l.flight == Settled && Get(l, side).epoch.nonce == 0
  {
    RunTwo(events, Rekeys(side, now, length), Processes(later), suite, ab, ba);
  }

  /**
   * A processed rekey makes the receiver expect nonce 0 again: whatever happened before it, the first packet of the
   * epoch that ended is accepted by the server, up to 256 times.
   */
  lemma RekeyReopensFirst<K>(events: seq<Event>, suite: Suite<K>, ab: K, ba: K, side: Side, now: real, length: nat,
                             later: real, pt: seq<Byte>, k: nat)
    requires var l := Run(events, suite, ab, ba);
             Starts(l, side, now) && OpensOnly(suite, Get(l, side).epoch.tx, 0, pt)
    requires var s := Get(Run(events, suite, ab, ba), side).epoch;
             OpensNowhere(suite, suite.derive(s.tx, (s.number + 1) % EPOCHS), suite.seal(s.tx, 0, pt))
    ensures var s := Get(Run(events, suite, ab, ba), side).epoch;
            var r := Get(Run(events + [Rekeys(side, now, length), Processes(later)], suite, ab, ba), Other(side)).epoch;
            Repeated(r, 0, suite.seal(s.tx, 0, pt), suite, k).1 == if k <= 256 then k else 256
  {
    RekeyedReceiver(events, suite, ab, ba, side, now, length, later);
    var s := Get(Run(events, suite, ab, ba), side).epoch;
    var r := Get(Run(events + [Rekeys(side, now, length), Processes(later)], suite, ab, ba), Other(side)).epoch;
    FirstRepeats(r, s.tx, suite, pt, k);
  }

  lemma FirstRepeats<K>(r: Epoch<K>, key: K, suite: Suite<K>, pt: seq<Byte>, k: nat)
    requires r.oldRx == key && r.grace == GRACE_PACKETS && r.replay == Fresh()
    requires OpensOnly(suite, key, 0, pt) && OpensNowhere(suite, r.rx, suite.seal(key, 0, pt))
    ensures Repeated(r, 0, suite.seal(key, 0, pt), suite, k).1 == if k <= GRACE_PACKETS then k else GRACE_PACKETS
  {
    assert suite.open(key, 0, suite.seal(key, 0, pt)) == Some(pt);
    GraceRepeats(r, 0, suite.seal(key, 0, pt), suite, k);
  }

  /** A sends `n` empty packets and B decrypts each as it comes. */
  function Exchange<K>(suite: Suite<K>, ab: K, n: nat): seq<Event> {
    if n == 0 then [] else Exchange(suite, ab, n - 1) + [Encrypts(A, 0), Decrypts(B, n - 1, suite.seal(ab, n - 1, []))]
  }

  /** `n` packets have been exchanged in the first epoch. */
  ghost predicate Exchanged<K>(l: Link<K>, ab: K, n: nat) {
    l.flight == Settled && l.a.epoch.tx == ab && l.a.epoch.nonce == n && l.a.epoch.number == 0 &&
    l.b.epoch.rx == ab && Filled(l.b.epoch.replay, n, 0)
  }

  lemma DecryptNext<K>(e: Epoch<K>, suite: Suite<K>, n: nat)
    requires Filled(e.replay, n, 0) && OpensOnly(suite, e.rx, n, []) && n + WINDOW + 2 < NONCES
    ensures var r := Decrypt(e, n, suite.seal(e.rx, n, []), suite).0;
            r.rx == e.rx && Filled(r.replay, n + 1, 0)
  {
    ExpectedRejectedIff(e.replay, 0);
    FilledStep(e.replay, n, 0);
  }

  lemma ExchangeStep<K>(l: Link<K>, suite: Suite<K>, ab: K, n: nat)
    requires |l.a.epoch.replay.received| == WINDOW && Exchanged(l, ab, n) && n + WINDOW + 2 < NONCES
    requires OpensOnly(suite, ab, n, [])
    ensures Exchanged(Step(Step(l, Encrypts(A, 0), suite), Decrypts(B, n, suite.seal(ab, n, [])), suite), ab, n + 1)
  {
    DecryptNext(l.b.epoch, suite, n);
  }

  lemma {:induction false} ExchangeState<K>(suite: Suite<K>, ab: K, ba: K, n: nat)
    requires n + WINDOW + 2 < NONCES && forall m: nat :: OpensOnly(suite, ab, m, [])
    ensures Exchanged(Run(Exchange(suite, ab, n), suite, ab, ba), ab, n)
  {
    if n > 0 {
      ExchangeState(suite, ab, ba, n - 1);
      var front := Exchange(suite, ab, n - 1);
      RunTwo(front, Encrypts(A, 0), Decrypts(B, n - 1, suite.seal(ab, n - 1, [])), suite, ab, ba);
      ExchangeStep(Run(front, suite, ab, ba), suite, ab, n - 1);
    }
  }

  /**
   * Counterexample for the packet path: 2^30 packets are exchanged in order, so that a rekey is due, the rekey is
   * processed, and the first packet, decrypted long before, is accepted again.
   */
  lemma PacketAcceptedTwice<K>(suite: Suite<K>, ab: K, ba: K, now: real)
    requires forall m: nat :: OpensOnly(suite, ab, m, [])
    requires OpensNowhere(suite, suite.derive(ab, 1), suite.seal(ab, 0, []))
    ensures var ct, exchanged := suite.seal(ab, 0, []), Exchange(suite, ab, REKEY_NONCES);
            Receive(Run([], suite, ab, ba).b.epoch, 0, ct, suite).1 == Some([]) &&
            Starts(Run(exchanged, suite, ab, ba), A, now) &&
            Receive(Run(exchanged + [Rekeys(A, now, 0), Processes(now)], suite, ab, ba).b.epoch, 0, ct, suite).1.Some?
  {
    ExchangeState(suite, ab, ba, REKEY_NONCES);
    assert OpensOnly(suite, ab, 0, []);
    var exchanged, ct := Exchange(suite, ab, REKEY_NONCES), suite.seal(ab, 0, []);
    RekeyReopensFirst(exchanged, suite, ab, ba, A, now, 0, now, [], 1);
    var r := Run(exchanged + [Rekeys(A, now, 0), Processes(now)], suite, ab, ba).b.epoch;
    assert Repeated(r, 0, ct, suite, 0) == (r, 0);
  }

  // ---------------------------------------------------------------- when a rekey is due

  /** What a peer has encrypted since its keys last changed: packets, bytes, and when that was. */
  datatype Tally = Tally(packets: nat, bytes: nat, since: real)

  /** The account after one more event. */
  function TallyNext<K>(t: Tally, l: Link<K>, e: Event, side: Side): Tally {
    match e
    case Encrypts(who, length) => if who == side then t.(packets := t.packets + 1, bytes := t.bytes + length) else t
    case Rekeys(who, now, _) => if who == side && Starts(l, side, now) then Tally(0, 0, now) else t
    case Processes(now) => if l.flight == From(Other(side)) then Tally(0, 0, now) else t
    case _ => t
  }

  function Tallied<K>(events: seq<Event>, suite: Suite<K>, ab: K, ba: K, side: Side): Tally {
    if events == [] then Tally(0, 0, 0.0) else
      var front := events[..|events| - 1];
      TallyNext(Tallied(front, suite, ab, ba, side), Run(front, suite, ab, ba), events[|events| - 1], side)
  }

  predicate Matches<K>(e: Epoch<K>, t: Tally) {
    e.nonce == t.packets % NONCES && e.bytes == t.bytes % NONCES && e.start == t.since
  }

  lemma EncryptMatches<K>(p: Peer<K>, t: Tally, length: nat)
    requires Matches(p.epoch, t)
    ensures Matches(EncryptStep(p, length).epoch, t.(packets := t.packets + 1, bytes := t.bytes + length))
  {
    ModAdd(t.packets, 1);
    ModAdd(t.bytes, length);
  }

  lemma TallyStep<K>(l: Link<K>, e: Event, suite: Suite<K>, side: Side, t: Tally)
    requires |l.a.epoch.replay.received| == |l.b.epoch.replay.received| == WINDOW && Matches(Get(l, side).epoch, t)
    ensures Matches(Get(Step(l, e, suite), side).epoch, TallyNext(t, l, e, side))
  {
    if e.Encrypts? && e.side == side {
      EncryptMatches(Get(l, side), t, e.length);
    } else if e.Decrypts? || e.DecryptsGrace? {
      var r := Get(Step(l, e, suite), side).epoch;
      assert r.nonce == Get(l, side).epoch.nonce && r.bytes == Get(l, side).epoch.bytes;
    }
  }

  lemma {:induction false} TallyExact<K>(events: seq<Event>, suite: Suite<K>, ab: K, ba: K, side: Side)
    ensures Matches(Get(Run(events, suite, ab, ba), side).epoch, Tallied(events, suite, ab, ba, side))
  {
    if events != [] {
      var front := events[..|events| - 1];
      TallyExact(front, suite, ab, ba, side);
      TallyStep(Run(front, suite, ab, ba), events[|events| - 1], suite, side, Tallied(front, suite, ab, ba, side));
    }
  }

  lemma ModAdd(x: nat, y: nat)
    ensures (x % NONCES + y) % NONCES == (x + y) % NONCES
  {
    var z := x % NONCES + y;
    DivModUnique(x + y, NONCES, x / NONCES + z / NONCES, z % NONCES);
  }

  /**
   * In every run a peer starts a rekey if and only if none is under way and since its keys last changed it has
   * encrypted 2^30 packets or 2^30 bytes, or an hour has passed (but not in the first epoch, which has no start time).
   */
  lemma RekeyDueIff<K>(events: seq<Event>, suite: Suite<K>, ab: K, ba: K, side: Side, now: real)
    ensures var t := Tallied(events, suite, ab, ba, side);
            Starts(Run(events, suite, ab, ba), side, now) <==>
              Run(events, suite, ab, ba).flight == Settled &&
              (t.packets % NONCES >= 0x4000_0000 || t.bytes % NONCES >= 0x4000_0000 ||
               (t.since > 0.0 && now - t.since >= 3600.0))
  {
    TallyExact(events, suite, ab, ba, side);
  }

  // ---------------------------------------------------------------- nonces

  predicate Less(p: (nat, nat), q: (nat, nat)) {
    p.0 < q.0 || (p.0 == q.0 && p.1 < q.1)
  }

  ghost predicate Increasing(used: seq<(nat, nat)>) {
    forall i, j :: 0 <= i < j < |used| ==> Less(used[i], used[j])
  }

  /** The pairs used strictly increase, and the next one is above them all. */
  ghost predicate NoncesOk<K>(p: Peer<K>) {
    p.epoch.nonce < NONCES && p.epoch.number < EPOCHS && Increasing(p.used) &&
    forall i :: 0 <= i < |p.used| ==> Less(p.used[i], (p.epoch.number, p.epoch.nonce))
  }

  /** The step brings no counter back to zero below a pair that was used. */
  predicate NoWrap<K>(l: Link<K>, e: Event) {
    match e
    case Encrypts(side, _) => Get(l, side).epoch.nonce + 1 < NONCES
    case Rekeys(side, now, _) => Starts(l, side, now) ==> Get(l, side).epoch.number + 1 < EPOCHS
    case Processes(_) =>
      l.flight.From? ==>
        var p := Get(l, Other(l.flight.side));
        p.epoch.number + 1 < EPOCHS || p.used == []
    case _ => true
  }

  lemma EncryptNoncesIff<K>(p: Peer<K>, length: nat)
    requires NoncesOk(p)
    ensures Increasing(EncryptStep(p, length).used)
    ensures NoncesOk(EncryptStep(p, length)) <==> p.epoch.nonce + 1 < NONCES
  {
    var q := EncryptStep(p, length);
    assert q.used[|p.used|] == (p.epoch.number, p.epoch.nonce);
  }

  lemma RekeyNoncesIff<K>(p: Peer<K>, now: real, length: nat, suite: Suite<K>)
    requires NoncesOk(p)
    ensures NoncesOk(RekeyStep(p, now, length, suite)) <==> p.epoch.number + 1 < EPOCHS
  {
    EncryptNoncesIff(p.(epoch := Prepare(p.epoch)), length);
    var q := RekeyStep(p, now, length, suite);
    assert q.used[|p.used|] == (p.epoch.number, p.epoch.nonce);
  }

  lemma ProcessNoncesIff<K>(p: Peer<K>, now: real, suite: Suite<K>)
    requires NoncesOk(p)
    ensures NoncesOk(ProcessStep(p, now, suite)) <==> p.epoch.number + 1 < EPOCHS || p.used == []
  {
    var q := ProcessStep(p, now, suite);
    if p.used != [] {
      assert q.used[0] == p.used[0];
    }
  }

  lemma NonceStepIff<K>(l: Link<K>, e: Event, suite: Suite<K>)
    requires |l.a.epoch.replay.received| == |l.b.epoch.replay.received| == WINDOW && NoncesOk(l.a) && NoncesOk(l.b)
    ensures NoncesOk(Step(l, e, suite).a) && NoncesOk(Step(l, e, suite).b) <==> NoWrap(l, e)
  {
    match e
    case Encrypts(side, length) => EncryptNoncesIff(Get(l, side), length);
    case Rekeys(side, now, length) => RekeyNoncesIff(Get(l, side), now, length, suite);
    case Processes(now) =>
      if l.flight.From? {
        ProcessNoncesIff(Get(l, Other(l.flight.side)), now, suite);
      }
    case _ =>
  }

  ghost predicate NoWrapAt<K>(events: seq<Event>, suite: Suite<K>, ab: K, ba: K, i: nat)
    requires i < |events|
  {
    NoWrap(Run(events[..i], suite, ab, ba), events[i])
  }

  ghost predicate BothOk<K>(events: seq<Event>, suite: Suite<K>, ab: K, ba: K, i: nat)
    requires i <= |events|
  {
    var l := Run(events[..i], suite, ab, ba);
    NoncesOk(l.a) && NoncesOk(l.b)
  }

  ghost predicate AlwaysOk<K>(events: seq<Event>, suite: Suite<K>, ab: K, ba: K) {
    forall i: nat {:trigger BothOk(events, suite, ab, ba, i)} :: i <= |events| ==> BothOk(events, suite, ab, ba, i)
  }

  ghost predicate NeverWraps<K>(events: seq<Event>, suite: Suite<K>, ab: K, ba: K) {
    forall i: nat {:trigger NoWrapAt(events, suite, ab, ba, i)} :: i < |events| ==> NoWrapAt(events, suite, ab, ba, i)
  }

  /** The pairs of both peers strictly increase at every moment of a run if and only if no step wraps a counter. */
  lemma NoncesIncreaseIff<K>(events: seq<Event>, suite: Suite<K>, ab: K, ba: K)
    ensures AlwaysOk(events, suite, ab, ba) <==> NeverWraps(events, suite, ab, ba)
  {
    if NeverWraps(events, suite, ab, ba) {
      forall n: nat | n <= |events| ensures BothOk(events, suite, ab, ba, n) {
        PrefixOk(events, suite, ab, ba, n);
      }
    }
    if AlwaysOk(events, suite, ab, ba) {
      forall i: nat | i < |events| ensures NoWrapAt(events, suite, ab, ba, i) {
        assert BothOk(events, suite, ab, ba, i) && BothOk(events, suite, ab, ba, i + 1);
        assert events[..i + 1][..i] == events[..i];
        NonceStepIff(Run(events[..i], suite, ab, ba), events[i], suite);
      }
    }
  }

  lemma {:induction false} PrefixOk<K>(events: seq<Event>, suite: Suite<K>, ab: K, ba: K, n: nat)
    requires n <= |events| && NeverWraps(events, suite, ab, ba)
    ensures BothOk(events, suite, ab, ba, n)
    decreases n
  {
    if n > 0 {
      PrefixOk(events, suite, ab, ba, n - 1);
      assert NoWrapAt(events, suite, ab, ba, n - 1);
      assert events[..n][..n - 1] == events[..n - 1];
      NonceStepIff(Run(events[..n - 1], suite, ab, ba), events[n - 1], suite);
    }
  }
}
