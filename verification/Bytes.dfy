/** Bytes and the little-endian integers the wire formats copy with memcpy. */
module Bytes {
  type Byte = b: int | 0 <= b < 256

  function Le16(lo: Byte, hi: Byte): (r: int)
    ensures 0 <= r < 0x1_0000
  {
    lo as int + 256 * hi as int
  }

  /** The conversion to uint16_t. */
  function Cast16(x: int): (r: int)
    ensures 0 <= r < 0x1_0000
  {
    if 0 <= x < 0x1_0000 then x else x % 0x1_0000
  }

  function Put16(v: int): (r: seq<Byte>)
    requires 0 <= v < 0x1_0000
    ensures |r| == 2 && Le16(r[0], r[1]) == v
  {
    [v % 256, v / 256]
  }

  /** `v` in `n` little-endian bytes. */
  function PutLe(v: nat, n: nat): (r: seq<Byte>)
    ensures |r| == n
    decreases n
  {
    if n == 0 then [] else [v % 256] + PutLe(v / 256, n - 1)
  }

  function GetLe(s: seq<Byte>): nat {
    if s == [] then 0 else s[0] as int + 256 * GetLe(s[1..])
  }

  function Pow256(n: nat): nat {
    if n == 0 then 1 else 256 * Pow256(n - 1)
  }

  /** `v >> 8 * i`. */
  function ShiftedDown(v: nat, i: nat): nat {
    if i == 0 then v else ShiftedDown(v / 256, i - 1)
  }

  /** Byte `i` of a little-endian integer. */
  lemma {:induction false} LeByte(v: nat, n: nat, i: nat)
    requires i < n
    ensures PutLe(v, n)[i] == ShiftedDown(v, i) % 256
    decreases n
  {
    if i > 0 {
      LeByte(v / 256, n - 1, i - 1);
    }
  }

  lemma {:induction false} LeRoundTrip(v: nat, n: nat)
    requires v < Pow256(n)
    ensures GetLe(PutLe(v, n)) == v
    decreases n
  {
    if n > 0 {
      LeRoundTrip(v / 256, n - 1);
      assert PutLe(v, n)[1..] == PutLe(v / 256, n - 1);
    }
  }

  function Zeros(n: nat): seq<Byte> {
    seq(n, _ => 0)
  }

  lemma Assoc<T>(a: seq<T>, b: seq<T>, c: seq<T>)
    ensures a + (b + c) == (a + b) + c
  {
  }

  /** `buffer` with `data` copied over it from `offset` on. */
  function Splice(buffer: seq<Byte>, offset: nat, data: seq<Byte>): (r: seq<Byte>)
    requires offset + |data| <= |buffer|
    ensures |r| == |buffer|
  {
    buffer[..offset] + data + buffer[offset + |data|..]
  }

  lemma SpliceKeeps(buffer: seq<Byte>, offset: nat, data: seq<Byte>, lo: nat, hi: nat)
    requires offset + |data| <= |buffer| && lo <= hi <= |buffer| && (hi <= offset || offset + |data| <= lo)
    ensures Splice(buffer, offset, data)[lo..hi] == buffer[lo..hi]
  {
  }

  lemma SpliceThere(buffer: seq<Byte>, offset: nat, data: seq<Byte>)
    requires offset + |data| <= |buffer|
    ensures Splice(buffer, offset, data)[offset..offset + |data|] == data
  {
  }

  lemma SplicePrefix(buffer: seq<Byte>, offset: nat, data: seq<Byte>)
    requires offset + |data| <= |buffer|
    ensures Splice(buffer, offset, data)[..offset + |data|] == buffer[..offset] + data
  {
  }

  /** memcpy into a buffer. */
  method CopyInto(a: array<Byte>, offset: nat, data: seq<Byte>)
    requires offset + |data| <= a.Length
    modifies a
    ensures a[..] == Splice(old(a[..]), offset, data)
  {
    for i := 0 to |data|
      invariant forall k :: 0 <= k < i ==> a[offset + k] == data[k]
      invariant forall k :: 0 <= k < a.Length && !(offset <= k < offset + i) ==> a[k] == old(a[k])
    {
      a[offset + i] := data[i];
    }
    assert forall k :: offset <= k < offset + |data| ==> a[k] == data[k - offset] by {
      forall k | offset <= k < offset + |data| ensures a[k] == data[k - offset] {
        assert a[offset + (k - offset)] == data[k - offset];
      }
    }
  }
}
