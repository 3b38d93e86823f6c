/** The fixed-capacity circular buffer (src/core/ring_buffer.h) as a bounded sequence. */
module RingBuffers {
  import opened Arith

  /** The `size` entries that start at `head`, going round the end. */
  function Unroll<T>(d: seq<T>, head: nat, size: nat): (r: seq<T>)
    requires head < |d| && size <= |d|
    ensures |r| == size && forall i :: 0 <= i < size ==> r[i] == d[Wrap(head + i, |d|)]
  {
    (d + d)[head..head + size]
  }

  lemma UnrollSet<T>(d: seq<T>, head: nat, size: nat, i: nat, x: T)
    requires head < |d| && i < size <= |d|
    ensures Unroll(d[Wrap(head + i, |d|) := x], head, size) == Unroll(d, head, size)[i := x]
  {
  }

  lemma UnrollPush<T>(d: seq<T>, head: nat, size: nat, x: T)
    requires head < |d| && size < |d|
    ensures Unroll(d[Wrap(head + size, |d|) := x], head, size + 1) == Unroll(d, head, size) + [x]
  {
  }

  lemma UnrollPop<T>(d: seq<T>, head: nat, size: nat, x: T)
    requires head < |d| && 0 < size <= |d|
    ensures Unroll(d[head := x], Wrap(head + 1, |d|), size - 1) == Unroll(d, head, size)[1..]
  {
  }

  class FixedRingBuffer<T> {
    const data: array<T>
    const empty: T
    var head: nat
    var size: nat

    ghost predicate Valid()
      reads this
    {
      head < data.Length && size <= data.Length
    }

    ghost function Contents(): (s: seq<T>)
      requires Valid()
      reads this, data
      ensures |s| == size
    {
      Unroll(data[..], head, size)
    }

    constructor (capacity: nat, empty: T)
      requires 0 < capacity
      ensures Valid() && fresh(data) && data.Length == capacity && Contents() == []
    {
      data := new T[capacity](_ => empty);
      this.empty := empty;
      head, size := 0, 0;
    }

    method PushBack(item: T) returns (ok: bool)
      requires Valid()
      modifies this`size, data
      ensures Valid() && (ok <==> old(size) < data.Length)
      ensures Contents() == if ok then old(Contents()) + [item] else old(Contents())
    {
      if size == data.Length {
        return false;
      }
      UnrollPush(data[..], head, size, item);
      ghost var d := data[..];
      WrapIsMask(head + size, data.Length);
      data[(head + size) % data.Length] := item;
      assert data[..] == d[Wrap(head + size, data.Length) := item];
      size := size + 1;
      return true;
    }

    method PopFront() returns (item: T, ok: bool)
      requires Valid()
      modifies this`head, this`size, data
      ensures Valid() && (ok <==> old(Contents()) != [])
      ensures ok ==> item == old(Contents())[0] && Contents() == old(Contents())[1..]
      ensures !ok ==> Contents() == old(Contents())
    {
      if size == 0 {
        return empty, false;
      }
      item := data[head];
      UnrollPop(data[..], head, size, empty);
      ghost var d := data[..];
      data[head] := empty;
      assert data[..] == d[head := empty];
      WrapIsMask(head + 1, data.Length);
      head := (head + 1) % data.Length;
      size := size - 1;
      ok := true;
    }

    method Get(i: nat) returns (item: T)
      requires Valid() && i < size
      ensures item == Contents()[i]
    {
      WrapIsMask(head + i, data.Length);
      item := data[(head + i) % data.Length];
    }

    method Set(i: nat, item: T)
      requires Valid() && i < size
      modifies data
      ensures Valid() && Contents() == old(Contents())[i := item]
    {
      UnrollSet(data[..], head, size, i, item);
      ghost var d := data[..];
      WrapIsMask(head + i, data.Length);
      data[(head + i) % data.Length] := item;
      assert data[..] == d[Wrap(head + i, data.Length) := item];
    }
  }
}
