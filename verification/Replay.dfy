/**
 * Replay protection (src/crypto/replay.h): a window of 256 slots stands for the unbounded set of
 * accepted nonces.  Nonces are 64-bit and `nonce + 256` wraps, as in the source.
 */
module Replay {
  import opened Collections

  const WINDOW: nat := 256
  const NONCES: nat := 0x1_0000_0000_0000_0000
  const EMPTY: nat := 0xFFFF_FFFF_FFFF_FFFF

  datatype Window = Window(mostRecent: nat, received: seq<nat>)

  function Fresh(): Window {
    Window(0, seq(WINDOW, _ => EMPTY))
  }

  predicate TooOld(mostRecent: nat, nonce: nat) {
    mostRecent >= WINDOW && (nonce + WINDOW) % NONCES <= mostRecent
  }

  /** Whether a packet with this nonce is rejected. */
  predicate IsDuplicate(w: Window, nonce: nat)
    requires |w.received| == WINDOW
  {
    var slot := w.received[nonce % WINDOW];
    TooOld(w.mostRecent, nonce) || (slot != EMPTY && slot == nonce)
  }

  function Advance(w: Window, nonce: nat): (r: Window)
    requires |w.received| == WINDOW
    ensures |r.received| == WINDOW
  {
    Window(if nonce > w.mostRecent then nonce else w.mostRecent, w.received[nonce % WINDOW := nonce])
  }

  class ReplayProtection {
    var mostRecent: nat
    const received: array<nat>

    ghost predicate Valid() {
      received.Length == WINDOW
    }

    ghost function View(): Window
      reads this, received
    {
      Window(mostRecent, received[..])
    }

    constructor ()
      ensures Valid() && fresh(received) && View() == Fresh()
    {
      mostRecent := 0;
      received := new nat[WINDOW](_ => EMPTY);
      new;
      assert received[..] == Fresh().received;
    }

    method Check(nonce: nat) returns (reject: bool)
      requires Valid()
      ensures reject == IsDuplicate(View(), nonce)
    {
      if mostRecent >= WINDOW && (nonce + WINDOW) % NONCES <= mostRecent {
        return true;
      }
      var slot := received[nonce % WINDOW];
      return slot != EMPTY && slot == nonce;
    }

    method AdvanceTo(nonce: nat)
      requires Valid()
      modifies this`mostRecent, received
      ensures View() == Advance(old(View()), nonce)
    {
      received[nonce % WINDOW] := nonce;
      if nonce > mostRecent {
        mostRecent := nonce;
      }
    }

    method Reset()
      requires Valid()
      modifies this`mostRecent, received
      ensures View() == Fresh()
    {
      mostRecent := 0;
      for i := 0 to WINDOW
        invariant forall j :: 0 <= j < i ==> received[j] == EMPTY
        invariant mostRecent == 0
      {
        received[i] := EMPTY;
      }
      assert received[..] == Fresh().received;
    }
  }

  // ---------------------------------------------------------------- against the set of all accepted nonces

  ghost predicate WindowOk(w: Window, accepted: set<nat>) {
    |w.received| == WINDOW && w.mostRecent < NONCES &&
    (forall n :: n in accepted ==> n <= w.mostRecent) &&
    (forall n :: n in accepted ==> w.received[n % WINDOW] == n || n + WINDOW <= w.mostRecent) &&
    (forall i :: 0 <= i < WINDOW && w.received[i] != EMPTY ==>
      w.received[i] in accepted && w.received[i] % WINDOW == i)
  }

  /** An accepted nonce is rejected from then on. */
  lemma AcceptedIsRejected(w: Window, accepted: set<nat>, nonce: nat)
    requires WindowOk(w, accepted) && nonce in accepted
    ensures IsDuplicate(w, nonce)
  {
  }

  /** A nonce that was never accepted is rejected exactly when it is too old. */
  lemma RejectedIff(w: Window, accepted: set<nat>, nonce: nat)
    requires WindowOk(w, accepted) && nonce < NONCES && nonce !in accepted
    ensures IsDuplicate(w, nonce) <==> w.mostRecent >= 256 && (nonce + 256) % 0x1_0000_0000_0000_0000 <= w.mostRecent
    ensures nonce + 256 > w.mostRecent && nonce + 256 < 0x1_0000_0000_0000_0000 ==> !IsDuplicate(w, nonce)
  {
  }

  /** Two nonces of one slot are a window apart. */
  lemma SameSlotApart(n: nat, m: nat)
    requires n % WINDOW == m % WINDOW
    ensures n < m ==> n + WINDOW <= m
  {
    assert n == n / WINDOW * WINDOW + n % WINDOW && m == m / WINDOW * WINDOW + m % WINDOW;
  }

  lemma AdvanceOk(w: Window, accepted: set<nat>, nonce: nat)
    requires WindowOk(w, accepted) && nonce < NONCES && !IsDuplicate(w, nonce)
    ensures nonce !in accepted && WindowOk(Advance(w, nonce), accepted + {nonce})
  {
    if nonce in accepted {
      AcceptedIsRejected(w, accepted, nonce);
    }
    forall n | n in accepted && n % WINDOW == nonce % WINDOW
      ensures n + WINDOW <= Advance(w, nonce).mostRecent
    {
      SameSlotApart(n, nonce);
      SameSlotApart(nonce, n);
    }
  }

  /** The window and the accepted nonces after checking these nonces in turn. */
  function Run(nonces: seq<nat>): (r: (Window, seq<nat>))
    ensures |r.0.received| == WINDOW
  {
    if nonces == [] then (Fresh(), []) else
      var (w, accepted) := Run(nonces[..|nonces| - 1]);
      var nonce := nonces[|nonces| - 1];
      if IsDuplicate(w, nonce) then (w, accepted) else (Advance(w, nonce), accepted + [nonce])
  }

  /** Over every history of 64-bit nonces: no nonce is accepted twice, and the window speaks for the
      whole set of accepted nonces. */
  lemma {:induction false} NoReplay(nonces: seq<nat>)
    requires forall i :: 0 <= i < |nonces| ==> nonces[i] < NONCES
    ensures Distinct(Run(nonces).1) && WindowOk(Run(nonces).0, Elements(Run(nonces).1))
  {
    if nonces != [] {
      var before, nonce := nonces[..|nonces| - 1], nonces[|nonces| - 1];
      NoReplay(before);
      var (w, accepted) := Run(before);
      if !IsDuplicate(w, nonce) {
        AdvanceOk(w, Elements(accepted), nonce);
        assert Elements(accepted + [nonce]) == Elements(accepted) + {nonce};
      }
    }
  }
}
