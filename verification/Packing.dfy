/**
 * How the send loop fills packets and spends the budget, on frame sizes alone: which queues can be sent without
 * losing a message.
 */
module Packing {
  import opened Channels

  const ACK_SIZE: nat := 8
  const MAC_SIZE: nat := 16

  /** The payload sizes of the packets that are full, and how far the open one is filled. */
  datatype Layout = Layout(full: seq<nat>, pos: nat)

  /** Frames of these sizes packed in order: a packet is closed when the next frame does not fit behind another one. */
  function Greedy(sizes: seq<nat>): (l: Layout)
    ensures l.pos >= ACK_SIZE
  {
    if sizes == [] then Layout([], ACK_SIZE) else
      var l, x := Greedy(sizes[..|sizes| - 1]), sizes[|sizes| - 1];
      if x > MTU - l.pos && l.pos > ACK_SIZE then Layout(l.full + [l.pos], ACK_SIZE + x) else l.(pos := l.pos + x)
  }

  /** The bits a packet with this payload takes. */
  function Cost(payload: nat): nat {
    (1 + payload + MAC_SIZE) * 8
  }

  function Spent(full: seq<nat>): nat {
    if full == [] then 0 else Spent(full[..|full| - 1]) + Cost(full[|full| - 1])
  }

  /** Every frame fits a packet, and all packets but the last leave the budget (from `bits` up) at or below zero. */
  ghost predicate Affordable(sizes: seq<nat>, bits: int) {
    (forall i :: 0 <= i < |sizes| ==> sizes[i] <= 1192) && bits + Spent(Greedy(sizes).full) <= 0
  }

  lemma GreedyPush(sizes: seq<nat>, x: nat)
    ensures var l, m := Greedy(sizes), Greedy(sizes + [x]);
            if x > MTU - l.pos && l.pos > ACK_SIZE
            then m.pos == ACK_SIZE + x && Spent(m.full) == Spent(l.full) + Cost(l.pos)
            else m == l.(pos := l.pos + x)
  {
    var l := Greedy(sizes);
    assert (sizes + [x])[..|sizes|] == sizes;
    assert (l.full + [l.pos])[..|l.full|] == l.full;
  }

  /** More frames cost no less. */
  lemma {:induction false} PrefixAffordable(sizes: seq<nat>, k: nat, bits: int)
    requires k <= |sizes| && Affordable(sizes, bits)
    ensures Affordable(sizes[..k], bits)
    decreases |sizes|
  {
    if k == |sizes| {
      assert sizes[..k] == sizes;
    } else {
      var front := sizes[..|sizes| - 1];
      assert front + [sizes[|sizes| - 1]] == sizes && front[..k] == sizes[..k];
      GreedyPush(front, sizes[|sizes| - 1]);
      PrefixAffordable(front, k, bits);
    }
  }

  /** A dequeued message was packed, or lost because the budget ran out or because it is too large. */
  datatype Placement = Placed | Exhausted | TooLarge

  /** Making room for `needed` bytes: whether the budget allows it, and where position and budget are afterwards. */
  function Room(pos: nat, bits: int, needed: nat): (bool, nat, int) {
    if needed > MTU - pos && pos > ACK_SIZE then (bits + Cost(pos) <= 0, ACK_SIZE, bits + Cost(pos))
    else (true, pos, bits)
  }

  /** Writing a frame of `needed` bytes at `pos`, if it fits. */
  function Fill(pos: nat, needed: nat): (Placement, nat) {
    if needed > MTU - pos then (TooLarge, pos) else (Placed, pos + needed)
  }

  /** What happens to a frame of `needed` bytes. */
  function Meter(pos: nat, bits: int, needed: nat): (Placement, nat, int) {
    var (ok, p, b) := Room(pos, bits, needed);
    if !ok then (Exhausted, p, b) else (Fill(p, needed).0, Fill(p, needed).1, b)
  }

  /** The meter stands where these frames leave it, none of them lost. */
  ghost predicate Metered(pos: int, bits: int, sizes: seq<nat>, start: int) {
    Affordable(sizes, start) && pos == Greedy(sizes).pos && bits == start + Spent(Greedy(sizes).full)
  }

  /** The next frame is placed if and only if the frames with it are still affordable. */
  lemma MeterExact(pos: nat, bits: int, sizes: seq<nat>, start: int, needed: nat)
    requires Metered(pos, bits, sizes, start)
    ensures var (r, p, b) := Meter(pos, bits, needed);
            (r.Placed? <==> Affordable(sizes + [needed], start)) &&
            (r.Placed? ==> Metered(p, b, sizes + [needed], start))
  {
    GreedyPush(sizes, needed);
    var more := sizes + [needed];
    assert more[|sizes|] == needed && forall i :: 0 <= i < |sizes| ==> more[i] == sizes[i];
  }

  /** Two frames of 1000 bytes: with a budget of zero the second is lost, with a packet's worth of credit it is not. */
  lemma BudgetLosesSecond()
    ensures Affordable([1000], 0) && !Affordable([1000, 1000], 0) && Affordable([1000, 1000], 0 - Cost(ACK_SIZE + 1000))
  {
    assert [1000, 1000] == [1000] + [1000] && [1000] == [] + [1000];
    GreedyPush([], 1000);
    GreedyPush([1000], 1000);
    assert Greedy([1000]) == Layout([], ACK_SIZE + 1000);
  }
}
