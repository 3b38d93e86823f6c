/**
 * Property replication in place (src/replication/): the schema and entity objects, and the loops that fill and
 * read wire buffers, each proved against its counterpart on values.
 */
module Replication {
  import opened Bits
  import opened Bytes
  import opened Varint
  import Spec = ReplicationSpec

  class Schema {
    var props: seq<Spec.Prop>
    var valueBufferSize: nat

    ghost predicate Valid()
      reads this
    {
      Spec.Laid(props) && |props| <= Spec.MAX_PROPERTIES && valueBufferSize == Spec.Start(props, |props|)
    }

    constructor ()
      ensures Valid() && props == []
    {
      props, valueBufferSize := [], 0;
    }

    /** add_prop: the index of the new property, or -1 when the schema is full. */
    method AddProp(kind: Spec.Kind, flags: nat, rawSize: nat) returns (index: int)
      requires Valid() && (kind != Spec.Blob ==> rawSize == Spec.SizeOf(kind))
      modifies this
      ensures Valid()
      ensures index == if |old(props)| < 64 then |old(props)| else -1
      ensures props == old(props) + if index < 0 then [] else [Spec.Prop(kind, flags, rawSize, old(valueBufferSize))]
    {
      if |props| >= Spec.MAX_PROPERTIES {
        return -1;
      }
      index := |props|;
      var p := Spec.Prop(kind, flags, rawSize, valueBufferSize);
      Spec.AddKeepsLayout(props, p);
      props := props + [p];
      valueBufferSize := valueBufferSize + rawSize;
    }
  }

  class Entity {
    const id: nat
    const schema: seq<Spec.Prop>
    var owner: int
    var dirtyMask: nat
    var needsInitial: bool
    const values: array<Byte>

    ghost function View(): Spec.Entity
      reads this, values
    {
      Spec.Entity(id, schema, owner, dirtyMask, needsInitial, values[..])
    }

    ghost predicate Valid()
      reads this, values
    {
      Spec.EntityOk(View())
    }

    constructor (id: nat, schema: seq<Spec.Prop>, capacity: nat)
      requires id < 0x1_0000 && Spec.Laid(schema) && |schema| <= Spec.MAX_PROPERTIES
      requires Spec.Start(schema, |schema|) <= capacity
      ensures Valid() && fresh(values) && this.id == id && this.schema == schema && values.Length == capacity
      ensures needsInitial && dirtyMask == 0 && owner == -1 && forall k :: 0 <= k < capacity ==> values[k] == 0
    {
      this.id, this.schema, owner, dirtyMask, needsInitial := id, schema, -1, 0, true;
      values := new Byte[capacity](_ => 0);
    }

    /** The typed setters, with the type and the bytes as arguments. */
    method SetProp(i: int, kind: Spec.Kind, data: seq<Byte>,
                   floatEq: (seq<Byte>, seq<Byte>) -> bool) returns (changed: bool)
      requires Valid() && (kind != Spec.Blob ==> |data| == Spec.SizeOf(kind))
      modifies this`dirtyMask, values
      ensures Valid() && (View(), changed) == Spec.Assign(old(View()), i, kind, data, floatEq)
    {
      Spec.AssignOk(View(), i, kind, data, floatEq);
      if !(0 <= i < |schema|) || schema[i].kind != kind || |data| > schema[i].rawSize {
        return false;
      }
      Spec.PropInside(schema, values[..], i);
      var offset := schema[i].offset;
      var was := values[offset..offset + |data|];
      if (if kind == Spec.F32 then floatEq(was, data) else was == data) {
        return false;
      }
      CopyInto(values, offset, data);
      dirtyMask := Set(dirtyMask, i);
      return true;
    }

    /** The properties due for the target. */
    method FilterMask(target: int, initial: bool) returns (mask: nat)
      requires Valid() && Spec.InitialOk(View(), initial)
      ensures mask == Spec.Mask(View(), target, initial)
    {
      mask := if initial then Pow2(|schema|) - 1 else dirtyMask;
      for i := 0 to |schema|
        invariant Spec.Filtered(mask, schema, target, owner, initial, i) == Spec.Mask(View(), target, initial)
      {
        if !Bit(mask, i) {
          continue;
        }
        var flags := schema[i].flags;
        if Bit(flags, 2) && !initial {
          mask := Clear(mask, i);
          continue;
        }
        if Bit(flags, 0) && target != owner {
          mask := Clear(mask, i);
          continue;
        }
        if Bit(flags, 1) && target == owner {
          mask := Clear(mask, i);
          continue;
        }
      }
    }

    /** Writes the values of the properties in the mask from `start` on; -1 when they do not fit. */
    method WriteValues(c: Spec.Codec, mask: nat, out: array<Byte>, start: nat) returns (pos: int)
      requires Valid() && Spec.CodecOk(c) && out != values && start <= out.Length
      modifies out
      ensures var body := Spec.Body(c, View(), mask, 0);
              if start + |body| <= out.Length then pos == start + |body| && out[..pos] == old(out[..start]) + body
              else pos == -1
    {
      pos := start;
      ghost var e, front := View(), out[..start];
      ghost var done: seq<Byte> := [];
      assert [] + Spec.Body(c, e, mask, 0) == Spec.Body(c, e, mask, 0);
      for i := 0 to |schema|
        invariant e == View() && start <= pos == start + |done| <= out.Length && out[..pos] == front + done
        invariant done + Spec.Body(c, e, mask, i) == Spec.Body(c, e, mask, 0)
      {
        Spec.BodyStep(c, e, mask, i, done);
        if Bit(mask, i) {
          ghost var bytes := Spec.WriteProp(c, schema[i], Spec.At(schema, values[..], i));
          pos := WriteOne(c, i, out, pos);
          if pos < 0 {
            return;
          }
          Assoc(front, done, bytes);
          done := done + bytes;
        } else {
          assert done + [] == done;
        }
      }
    }

    /** Writes the value of one property, or returns -1 when it does not fit. */
    method WriteOne(c: Spec.Codec, i: nat, out: array<Byte>, at: nat) returns (pos: int)
      requires Valid() && Spec.CodecOk(c) && out != values && i < |schema| && at <= out.Length
      modifies out
      ensures var bytes := Spec.WriteProp(c, schema[i], Spec.At(schema, values[..], i));
              if at + |bytes| <= out.Length then pos == at + |bytes| && out[..pos] == old(out[..at]) + bytes
              else pos == -1
    {
      Spec.PropInside(schema, values[..], i);
      var val := values[schema[i].offset..schema[i].offset + schema[i].rawSize];
      assert val == Spec.At(schema, values[..], i);
      var bytes := Spec.WriteProp(c, schema[i], val);
      if out.Length - at < |bytes| {
        return -1;
      }
      SplicePrefix(out[..], at, bytes);
      CopyInto(out, at, bytes);
      assert out[..at + |bytes|] == out[..][..at + |bytes|];
      pos := at + |bytes|;
    }

    /** replicate_serialize: the length written, 0 when the target is due nothing, -1 when the buffer is too small. */
    method Serialize(c: Spec.Codec, out: array<Byte>, target: int, initial: bool) returns (n: int)
      requires Valid() && Spec.CodecOk(c) && out != values && Spec.InitialOk(View(), initial)
      requires var mask := Spec.Mask(View(), target, initial);
               out.Length < 2 || mask == 0 || 2 + |Encoded(mask)| <= out.Length
      modifies out
      ensures var wire := Spec.Wire(c, View(), target, initial);
              if out.Length < 2 then n == -1
              else if Spec.Mask(View(), target, initial) == 0 then n == 0
              else if |wire| > out.Length then n == -1
              else n == |wire| && out[..n] == wire
    {
      if 2 > out.Length {
        return -1;
      }
      CopyInto(out, 0, Put16(id));
      var mask := FilterMask(target, initial);
      if mask == 0 {
        return 0;
      }
      var length := VarintEncode(mask, out, 2);
      assert out[..2 + length] == Spec.Header(View(), mask);
      n := WriteValues(c, mask, out, 2 + length);
    }
  }

  /** replicate_deserialize: the bytes consumed or -1, the entity's id and the mask; the values are written in place. */
  method Deserialize(c: Spec.Codec, schema: seq<Spec.Prop>, wire: seq<Byte>, values: array<Byte>)
    returns (consumed: int, id: nat, dirty: nat)
    requires Spec.CodecOk(c) && Spec.Fits(schema, values[..])
    modifies values
    ensures var r := Spec.Deserialize(c, schema, wire, old(values[..]));
            r == if consumed < 0 then Spec.Rejected(values[..]) else Spec.Applied(id, dirty, consumed, values[..])
  {
    consumed, id, dirty := -1, 0, 0;
    if |wire| < 3 {
      return;
    }
    id := Le16(wire[0], wire[1]);
    var length, mask := VarintDecode(wire[2..]);
    if length < 0 {
      return;
    }
    dirty := mask;
    consumed := ReadValues(c, schema, mask, wire, 2 + length, values);
  }

  method ReadValues(c: Spec.Codec, schema: seq<Spec.Prop>, mask: nat, wire: seq<Byte>, start: nat, values: array<Byte>)
    returns (pos: int)
    requires Spec.CodecOk(c) && Spec.Fits(schema, values[..]) && start <= |wire|
    modifies values
    ensures Spec.Reading(values[..], pos) ==
            Spec.ReadBody(c, schema, mask, wire, 0, Spec.Reading(old(values[..]), start))
  {
    pos := start;
    ghost var target := Spec.ReadBody(c, schema, mask, wire, 0, Spec.Reading(values[..], start));
    for i := 0 to |schema|
      invariant 0 <= pos <= |wire|
      invariant Spec.ReadBody(c, schema, mask, wire, i, Spec.Reading(values[..], pos)) == target
    {
      if Bit(mask, i) {
        pos := ReadInto(c, schema, i, wire, pos, values);
        if pos < 0 {
          return;
        }
      }
    }
  }

  /** Reads one property from `at` on into its place, or returns -1 when the wire ends too soon. */
  method ReadInto(c: Spec.Codec, schema: seq<Spec.Prop>, i: nat, wire: seq<Byte>, at: nat, values: array<Byte>)
    returns (pos: int)
    requires Spec.CodecOk(c) && Spec.Fits(schema, values[..]) && i < |schema| && at <= |wire|
    modifies values
    ensures Spec.Reading(values[..], pos) ==
            if |wire| - at < Spec.WireSize(schema[i]) then Spec.Reading(old(values[..]), -1)
            else Spec.ReadOne(c, schema, wire, i, Spec.Reading(old(values[..]), at))
  {
    var size := Spec.WireSize(schema[i]);
    if |wire| - at < size {
      return -1;
    }
    var bytes := wire[at..at + size];
    Spec.SizeReceived(c, schema, i, bytes);
    Spec.PropInside(schema, values[..], i);
    CopyInto(values, schema[i].offset, Spec.ReadProp(c, schema[i], bytes));
    pos := at + size;
  }
}
