/**
 * A compact list of slot numbers together with its reverse map, as used for the
 * server's active connections and for the members of a multicast group:
 * append to add, swap with the last entry to remove.
 */
module Rosters {
  /** `pos[x]` is the position of `x` in `list`, or -1. */
  datatype Roster = Roster(list: seq<int>, pos: seq<int>)

  ghost predicate Inverse(r: Roster) {
    (forall i :: 0 <= i < |r.list| ==> 0 <= r.list[i] < |r.pos| && r.pos[r.list[i]] == i) &&
    (forall x :: 0 <= x < |r.pos| ==> r.pos[x] == -1 || (0 <= r.pos[x] < |r.list| && r.list[r.pos[x]] == x))
  }

  predicate Has(r: Roster, x: int) {
    0 <= x < |r.pos| && r.pos[x] >= 0
  }

  function EmptyRoster(n: nat): Roster {
    Roster([], seq(n, _ => -1))
  }

  function Added(r: Roster, x: int): Roster
    requires 0 <= x < |r.pos|
  {
    Roster(r.list + [x], r.pos[x := |r.list|])
  }

  /** Swap-remove; no change when `x` is absent. */
  function Removed(r: Roster, x: int): Roster
    requires Inverse(r)
  {
    if !Has(r, x) then r else
      var last := |r.list| - 1;
      var moved := r.list[last];
      if r.pos[x] < last then
        Roster(r.list[..last][r.pos[x] := moved], r.pos[moved := r.pos[x]][x := -1])
      else Roster(r.list[..last], r.pos[x := -1])
  }

  /** In a well-formed roster the list and the reverse map agree on membership. */
  lemma ListIsMap(r: Roster, x: int)
    requires Inverse(r)
    ensures x in r.list <==> Has(r, x)
  {
    if Has(r, x) {
      assert r.list[r.pos[x]] == x;
    }
  }

  lemma AddedOk(r: Roster, x: int)
    requires Inverse(r) && 0 <= x < |r.pos| && !Has(r, x)
    ensures Inverse(Added(r, x))
    ensures forall y :: Has(Added(r, x), y) <==> Has(r, y) || y == x
  {
  }

  lemma RemovedOk(r: Roster, x: int)
    requires Inverse(r)
    ensures Inverse(Removed(r, x)) && |Removed(r, x).pos| == |r.pos|
    ensures forall y :: Has(Removed(r, x), y) <==> Has(r, y) && y != x
    ensures |Removed(r, x).list| == if Has(r, x) then |r.list| - 1 else |r.list|
  {
  }
}
