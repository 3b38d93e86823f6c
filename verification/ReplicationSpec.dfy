/**
 * Property replication on values (src/replication/): the schema's layout, what an update carries, and what
 * a replica makes of it.
 */
module ReplicationSpec {
  import opened Bits
  import opened Bytes
  import opened Varint

  const MAX_PROPERTIES: nat := 64

  datatype Kind = U8 | U16 | I32 | F32 | Vec3 | Quat | Blob

  /** `flags` holds the replication conditions: owner only (bit 0), skip owner (1), initial only (2), quantise (5). */
  datatype Prop = Prop(kind: Kind, flags: nat, rawSize: nat, offset: nat)

  function SizeOf(kind: Kind): nat {
    match kind
    case U8 => 1
    case U16 => 2
    case I32 => 4
    case F32 => 4
    case Vec3 => 12
    case Quat => 16
    case Blob => 0
  }

  // ---------------------------------------------------------------- layout

  /** Where property `i` starts; for `i` the number of properties, where the next one would. */
  function Start(schema: seq<Prop>, i: nat): nat
    requires i <= |schema|
  {
    if i == 0 then 0 else Start(schema, i - 1) + schema[i - 1].rawSize
  }

  ghost predicate LaidAt(schema: seq<Prop>, i: nat)
    requires i < |schema|
  {
    schema[i].offset == Start(schema, i) && (schema[i].kind != Blob ==> schema[i].rawSize == SizeOf(schema[i].kind))
  }

  /** The properties lie end to end in the value buffer. */
  ghost predicate Laid(schema: seq<Prop>) {
    forall i: nat {:trigger LaidAt(schema, i)} :: i < |schema| ==> LaidAt(schema, i)
  }

  lemma {:induction false} StartMonotone(schema: seq<Prop>, i: nat, j: nat)
    requires i <= j <= |schema|
    ensures Start(schema, i) <= Start(schema, j)
    decreases j
  {
    if i < j {
      StartMonotone(schema, i, j - 1);
    }
  }

  lemma {:induction false} StartPrefix(schema: seq<Prop>, p: Prop, i: nat)
    requires i <= |schema|
    ensures Start(schema + [p], i) == Start(schema, i)
    decreases i
  {
    if i > 0 {
      StartPrefix(schema, p, i - 1);
    }
  }

  /** Adding a property moves none of the others and keeps the layout. */
  lemma AddKeepsLayout(schema: seq<Prop>, p: Prop)
    requires Laid(schema) && p.offset == Start(schema, |schema|) && (p.kind != Blob ==> p.rawSize == SizeOf(p.kind))
    ensures Laid(schema + [p]) && Start(schema + [p], |schema| + 1) == p.offset + p.rawSize
  {
    var more := schema + [p];
    forall i: nat | i < |more| ensures LaidAt(more, i) {
      StartPrefix(schema, p, i);
      assert i < |schema| ==> LaidAt(schema, i);
    }
    StartPrefix(schema, p, |schema|);
  }

  /** The bytes of two properties do not meet, and all lie in the buffer. */
  lemma PropsApart(schema: seq<Prop>, i: nat, j: nat)
    requires Laid(schema) && i < j < |schema|
    ensures schema[i].offset + schema[i].rawSize <= schema[j].offset
    ensures schema[j].offset + schema[j].rawSize <= Start(schema, |schema|)
  {
    assert LaidAt(schema, i) && LaidAt(schema, j);
    StartMonotone(schema, i + 1, j);
    StartMonotone(schema, j + 1, |schema|);
  }

  // ---------------------------------------------------------------- entities

  datatype Entity = Entity(
    id: nat, schema: seq<Prop>, owner: int, dirty: nat, needsInitial: bool, values: seq<Byte>)

  ghost predicate Fits(schema: seq<Prop>, values: seq<Byte>) {
    Laid(schema) && |schema| <= MAX_PROPERTIES && Start(schema, |schema|) <= |values|
  }

  ghost predicate EntityOk(e: Entity) {
    Fits(e.schema, e.values) && e.id < 0x1_0000 && e.dirty < Pow2(|e.schema|)
  }

  lemma PropInside(schema: seq<Prop>, values: seq<Byte>, i: nat)
    requires Fits(schema, values) && i < |schema|
    ensures schema[i].offset == Start(schema, i) && schema[i].offset + schema[i].rawSize <= |values|
    ensures Start(schema, i + 1) == schema[i].offset + schema[i].rawSize
  {
    assert LaidAt(schema, i);
    StartMonotone(schema, i + 1, |schema|);
  }

  /** The bytes of property `i`. */
  function At(schema: seq<Prop>, values: seq<Byte>, i: nat): (r: seq<Byte>)
    requires Fits(schema, values) && i < |schema|
    ensures |r| == schema[i].rawSize
  {
    PropInside(schema, values, i);
    values[schema[i].offset..schema[i].offset + schema[i].rawSize]
  }

  /**
   * The typed setters: nothing happens for a wrong index or type, a blob that is too long, or an equal value.
   * Equality of floats is a parameter; the other types compare bytes.
   */
  function Assign(e: Entity, i: int, kind: Kind, data: seq<Byte>, floatEq: (seq<Byte>, seq<Byte>) -> bool): (Entity,
                  bool)
    requires Fits(e.schema, e.values) && (kind != Blob ==> |data| == SizeOf(kind))
  {
    if !(0 <= i < |e.schema|) || e.schema[i].kind != kind || |data| > e.schema[i].rawSize then (e, false) else
      PropInside(e.schema, e.values, i);
      var offset := e.schema[i].offset;
      var was := e.values[offset..offset + |data|];
      if (if kind == F32 then floatEq(was, data) else was == data) then (e, false)
      else (e.(values := Splice(e.values, offset, data), dirty := Set(e.dirty, i)), true)
  }

  lemma AssignOk(e: Entity, i: int, kind: Kind, data: seq<Byte>, floatEq: (seq<Byte>, seq<Byte>) -> bool)
    requires EntityOk(e) && (kind != Blob ==> |data| == SizeOf(kind))
    ensures EntityOk(Assign(e, i, kind, data, floatEq).0)
  {
    var f := Assign(e, i, kind, data, floatEq).0;
    if f != e {
      forall j: nat | Bit(f.dirty, j) ensures j < |e.schema| {
        BitSet(e.dirty, i, j);
        if j >= |e.schema| {
          HighBitsClear(e.dirty, |e.schema|, j);
        }
      }
      BitsBound(f.dirty, |e.schema|);
    }
  }

  /** Writing inside one property leaves the others alone. */
  lemma SpliceElsewhere(schema: seq<Prop>, values: seq<Byte>, i: nat, data: seq<Byte>, j: nat)
    requires Fits(schema, values) && i < |schema| && j < |schema| && i != j && |data| <= schema[i].rawSize
    ensures schema[i].offset + |data| <= |values|
    ensures At(schema, Splice(values, schema[i].offset, data), j) == At(schema, values, j)
  {
    PropInside(schema, values, i);
    PropInside(schema, values, j);
    PropsApart(schema, if i < j then i else j, if i < j then j else i);
    SpliceKeeps(values, schema[i].offset, data, schema[j].offset, schema[j].offset + schema[j].rawSize);
  }

  /** A property whose bytes a setter changed is marked; the others keep their bytes and their marks. */
  lemma AssignMarks(e: Entity, i: int, kind: Kind, data: seq<Byte>, floatEq: (seq<Byte>, seq<Byte>) -> bool, j: nat)
    requires EntityOk(e) && (kind != Blob ==> |data| == SizeOf(kind)) && j < |e.schema|
    ensures var (f, changed) := Assign(e, i, kind, data, floatEq);
            f.schema == e.schema && |f.values| == |e.values| &&
            (Bit(f.dirty, j) <==> Bit(e.dirty, j) || (changed && j == i)) &&
            (At(e.schema, f.values, j) != At(e.schema, e.values, j) ==> changed && j == i) &&
            (changed && j == i ==> At(e.schema, f.values, j)[..|data|] == data)
  {
    var (f, changed) := Assign(e, i, kind, data, floatEq);
    if changed {
      BitSet(e.dirty, i, j);
      PropInside(e.schema, e.values, i);
      if j != i {
        SpliceElsewhere(e.schema, e.values, i, data, j);
      } else {
        SpliceThere(e.values, e.schema[i].offset, data);
        assert At(e.schema, f.values, j)[..|data|] == f.values[e.schema[i].offset..e.schema[i].offset + |data|];
      }
    }
  }

  /** Writing the first bytes of a region. */
  lemma SpliceInside(values: seq<Byte>, offset: nat, size: nat, data: seq<Byte>)
    requires |data| <= size && offset + size <= |values|
    ensures var was := values[offset..offset + size];
            was[..|data|] == values[offset..offset + |data|] &&
            Splice(values, offset, data)[offset..offset + size] == data + was[|data|..]
  {
  }

  predicate Settable(e: Entity, i: int, kind: Kind, data: seq<Byte>) {
    0 <= i < |e.schema| && e.schema[i].kind == kind && |data| <= e.schema[i].rawSize
  }

  /**
   * What a setter does: it changes the property if and only if index, type and size are right and the value is not
   * equal to the one there; then the new bytes are there, the rest of the property stays, and it is marked.
   */
  lemma AssignExact(e: Entity, i: int, kind: Kind, data: seq<Byte>, floatEq: (seq<Byte>, seq<Byte>) -> bool)
    requires EntityOk(e) && (kind != Blob ==> |data| == SizeOf(kind))
    ensures !Settable(e, i, kind, data) ==> Assign(e, i, kind, data, floatEq) == (e, false)
    ensures Settable(e, i, kind, data) ==>
              var (f, changed) := Assign(e, i, kind, data, floatEq);
              var was := At(e.schema, e.values, i);
              (changed <==> if kind == F32 then !floatEq(was[..|data|], data) else was[..|data|] != data) &&
              if changed then Holds(e.schema, f, i, data + was[|data|..]) else f == e
  {
    if Settable(e, i, kind, data) {
      PropInside(e.schema, e.values, i);
      BitSet(e.dirty, i, i);
      SpliceInside(e.values, e.schema[i].offset, e.schema[i].rawSize, data);
    }
  }

  /** Property `i` has these bytes and is marked dirty. */
  ghost predicate Holds(schema: seq<Prop>, f: Entity, i: nat, bytes: seq<Byte>) {
    Fits(schema, f.values) && f.schema == schema && i < |schema| && Bit(f.dirty, i) && At(schema, f.values, i) == bytes
  }

  // ---------------------------------------------------------------- which properties an update carries

  predicate Selected(p: Prop, target: int, owner: int, initial: bool) {
    !(Bit(p.flags, 2) && !initial) && !(Bit(p.flags, 0) && target != owner) && !(Bit(p.flags, 1) && target == owner)
  }

  /** The filter loop, from property `i` on. */
  function Filtered(mask: nat, schema: seq<Prop>, target: int, owner: int, initial: bool, i: nat): nat
    requires i <= |schema|
    decreases |schema| - i
  {
    if i == |schema| then mask
    else if Bit(mask, i) && !Selected(schema[i], target, owner, initial)
    then Filtered(Clear(mask, i), schema, target, owner, initial, i + 1)
    else Filtered(mask, schema, target, owner, initial, i + 1)
  }

  /** The filter drops exactly the properties the target must not see. */
  lemma {:induction false} FilteredExact(mask: nat, schema: seq<Prop>, target: int, owner: int, initial: bool,
    i: nat, j: nat)
    requires i <= |schema|
    ensures Bit(Filtered(mask, schema, target, owner, initial, i), j) <==>
            Bit(mask, j) && (i <= j < |schema| ==> Selected(schema[j], target, owner, initial))
    decreases |schema| - i
  {
    if i < |schema| {
      if Bit(mask, i) && !Selected(schema[i], target, owner, initial) {
        BitClear(mask, i, j);
        FilteredExact(Clear(mask, i), schema, target, owner, initial, i + 1, j);
      } else {
        FilteredExact(mask, schema, target, owner, initial, i + 1, j);
      }
    }
  }

  function Mask(e: Entity, target: int, initial: bool): nat {
    Filtered(if initial then Ones(|e.schema|) else e.dirty, e.schema, target, e.owner, initial, 0)
  }

  /** The full mask is computed as `(1 << n) - 1` in a 64-bit word, which needs n < 64. */
  predicate InitialOk(e: Entity, initial: bool) {
    initial ==> |e.schema| < MAX_PROPERTIES
  }

  /** The update names a property exactly when it is due and the target may see it. */
  lemma MaskExact(e: Entity, target: int, initial: bool, j: nat)
    requires e.dirty < Pow2(|e.schema|)
    ensures Bit(Mask(e, target, initial), j) <==>
            j < |e.schema| && (initial || Bit(e.dirty, j)) && Selected(e.schema[j], target, e.owner, initial)
  {
    BitOnes(|e.schema|, j);
    FilteredExact(if initial then Ones(|e.schema|) else e.dirty, e.schema, target, e.owner, initial, 0, j);
    if j >= |e.schema| {
      HighBitsClear(e.dirty, |e.schema|, j);
    }
  }

  lemma MaskIsWord(e: Entity, target: int, initial: bool)
    requires e.dirty < Pow2(|e.schema|) && |e.schema| <= MAX_PROPERTIES
    ensures Mask(e, target, initial) < LIMIT
  {
    var mask := Mask(e, target, initial);
    forall j: nat | Bit(mask, j) ensures j < |e.schema| {
      MaskExact(e, target, initial, j);
    }
    BitsBound(mask, |e.schema|);
    Pow2Grows(|e.schema|, WORD);
    LimitIsPower();
  }

  // ---------------------------------------------------------------- one property on the wire

  /** The lossy encodings of floats, vectors and quaternions, of which only the sizes matter here. */
  datatype Codec = Codec(pack: (Kind, seq<Byte>) -> seq<Byte>, unpack: (Kind, seq<Byte>) -> seq<Byte>)

  function PackedSize(kind: Kind): nat {
    if kind == F32 then 2 else 4
  }

  ghost predicate CodecOk(c: Codec) {
    (forall k, x :: |c.pack(k, x)| == PackedSize(k)) && (forall k, x :: |c.unpack(k, x)| == SizeOf(k))
  }

  predicate Packs(p: Prop) {
    Bit(p.flags, 5) && (p.kind == F32 || p.kind == Vec3 || p.kind == Quat)
  }

  function WireSize(p: Prop): nat {
    if Packs(p) then PackedSize(p.kind) else p.rawSize
  }

  function WriteProp(c: Codec, p: Prop, val: seq<Byte>): seq<Byte> {
    if Packs(p) then c.pack(p.kind, val) else val
  }

  function ReadProp(c: Codec, p: Prop, wire: seq<Byte>): seq<Byte> {
    if Packs(p) then c.unpack(p.kind, wire) else wire
  }

  /** What a replica holds for a property: its bytes, or what is left of them after quantisation. */
  function Received(c: Codec, p: Prop, val: seq<Byte>): seq<Byte> {
    ReadProp(c, p, WriteProp(c, p, val))
  }

  // ---------------------------------------------------------------- an update on the wire

  /** The values of the properties in `mask`, from property `i` on. */
  ghost function Body(c: Codec, e: Entity, mask: nat, i: nat): seq<Byte>
    requires Fits(e.schema, e.values) && i <= |e.schema|
    decreases |e.schema| - i
  {
    if i == |e.schema| then [] else
      (if Bit(mask, i) then WriteProp(c, e.schema[i], At(e.schema, e.values, i)) else []) + Body(c, e, mask, i + 1)
  }

  ghost function Header(e: Entity, mask: nat): seq<Byte>
    requires e.id < 0x1_0000
  {
    Put16(e.id) + Encoded(mask)
  }

  ghost function Wire(c: Codec, e: Entity, target: int, initial: bool): seq<Byte>
    requires EntityOk(e)
  {
    var mask := Mask(e, target, initial);
    Header(e, mask) + Body(c, e, mask, 0)
  }

  datatype Reading = Reading(values: seq<Byte>, pos: int)

  /** The reading loop, from property `i` and position `pos` on; -1 when the wire ends too soon. */
  ghost function ReadBody(c: Codec, schema: seq<Prop>, mask: nat, wire: seq<Byte>, i: nat, r: Reading): (out: Reading)
    requires Fits(schema, r.values) && CodecOk(c) && i <= |schema| && 0 <= r.pos <= |wire|
    ensures |out.values| == |r.values| && -1 <= out.pos <= |wire|
    decreases |schema| - i
  {
    if i == |schema| then r
    else if !Bit(mask, i) then ReadBody(c, schema, mask, wire, i + 1, r)
    else if |wire| - r.pos < WireSize(schema[i]) then Reading(r.values, -1)
    else ReadBody(c, schema, mask, wire, i + 1, ReadOne(c, schema, wire, i, r))
  }

  /** Property `i` of the mask comes next on the wire. */
  lemma BodyStep(c: Codec, e: Entity, mask: nat, i: nat, done: seq<Byte>)
    requires Fits(e.schema, e.values) && i < |e.schema|
    ensures var bytes := if Bit(mask, i) then WriteProp(c, e.schema[i], At(e.schema, e.values, i)) else [];
            done + Body(c, e, mask, i) == (done + bytes) + Body(c, e, mask, i + 1)
  {
    var bytes := if Bit(mask, i) then WriteProp(c, e.schema[i], At(e.schema, e.values, i)) else [];
    assert done + (bytes + Body(c, e, mask, i + 1)) == (done + bytes) + Body(c, e, mask, i + 1);
  }

  lemma SizeReceived(c: Codec, schema: seq<Prop>, i: nat, bytes: seq<Byte>)
    requires CodecOk(c) && Laid(schema) && i < |schema|
    ensures |bytes| == WireSize(schema[i]) ==> |ReadProp(c, schema[i], bytes)| == schema[i].rawSize
    ensures |bytes| == schema[i].rawSize ==> |WriteProp(c, schema[i], bytes)| == WireSize(schema[i])
  {
    assert LaidAt(schema, i);
  }

  ghost function ReadOne(c: Codec, schema: seq<Prop>, wire: seq<Byte>, i: nat, r: Reading): (out: Reading)
    requires Fits(schema, r.values) && CodecOk(c) && i < |schema| && 0 <= r.pos && r.pos + WireSize(schema[i]) <= |wire|
    ensures |out.values| == |r.values| && 0 <= out.pos <= |wire|
  {
    var bytes := wire[r.pos..r.pos + WireSize(schema[i])];
    SizeReceived(c, schema, i, bytes);
    PropInside(schema, r.values, i);
    Reading(Splice(r.values, schema[i].offset, ReadProp(c, schema[i], bytes)), r.pos + WireSize(schema[i]))
  }

  datatype Update = Rejected(values: seq<Byte>) | Applied(id: nat, mask: nat, length: nat, values: seq<Byte>)

  /** replicate_deserialize: the whole update or, when the wire is cut short, what was written until then. */
  ghost function Deserialize(c: Codec, schema: seq<Prop>, wire: seq<Byte>, values: seq<Byte>): (r: Update)
    requires Fits(schema, values) && CodecOk(c)
    ensures |r.values| == |values|
  {
    if |wire| < 3 || Decode(wire[2..]).Truncated? then Rejected(values) else
      var Value(mask, n) := Decode(wire[2..]);
      var out := ReadBody(c, schema, mask, wire, 0, Reading(values, 2 + n));
      if out.pos < 0 then Rejected(out.values) else Applied(Le16(wire[0], wire[1]), mask, out.pos, out.values)
  }

  // ---------------------------------------------------------------- round trip

  /** Property `j` has what was sent of `e` if it was sent, and otherwise what it had before. */
  ghost predicate MergedAt(c: Codec, e: Entity, mask: nat, j: nat, before: seq<Byte>, after: seq<Byte>)
    requires Fits(e.schema, e.values) && Fits(e.schema, before) && |after| == |before| && j < |e.schema|
  {
    At(e.schema, after, j) ==
    if Bit(mask, j) then Received(c, e.schema[j], At(e.schema, e.values, j)) else At(e.schema, before, j)
  }

  /** Only bytes from `lo` to `hi` differ. */
  ghost predicate OnlyBetween(before: seq<Byte>, after: seq<Byte>, lo: nat, hi: nat) {
    |after| == |before| && forall k :: 0 <= k < |after| && !(lo <= k < hi) ==> after[k] == before[k]
  }

  /** From property `i` on, `after` has what was sent of `e` and otherwise what `before` had. */
  ghost predicate Merged(c: Codec, e: Entity, mask: nat, i: nat, before: seq<Byte>, after: seq<Byte>)
    requires Fits(e.schema, e.values) && Fits(e.schema, before) && i <= |e.schema|
  {
    OnlyBetween(before, after, Start(e.schema, i), Start(e.schema, |e.schema|)) &&
    forall j: nat :: i <= j < |e.schema| ==> MergedAt(c, e, mask, j, before, after)
  }

  /** A property none of whose bytes changed. */
  lemma SameAt(schema: seq<Prop>, a: seq<Byte>, b: seq<Byte>, lo: nat, hi: nat, j: nat)
    requires Fits(schema, a) && OnlyBetween(a, b, lo, hi) && j < |schema|
    requires hi <= Start(schema, j) || Start(schema, j + 1) <= lo
    ensures At(schema, a, j) == At(schema, b, j)
  {
    PropInside(schema, a, j);
  }

  lemma MergedStep(c: Codec, e: Entity, mask: nat, i: nat, before: seq<Byte>, middle: seq<Byte>, after: seq<Byte>)
    requires Fits(e.schema, e.values) && Fits(e.schema, before) && i < |e.schema|
    requires OnlyBetween(before, middle, Start(e.schema, i), Start(e.schema, i + 1))
    requires Merged(c, e, mask, i + 1, middle, after) && MergedAt(c, e, mask, i, before, middle)
    ensures Merged(c, e, mask, i, before, after)
  {
    StartMonotone(e.schema, i, i + 1);
    StartMonotone(e.schema, i + 1, |e.schema|);
    BetweenTwo(before, middle, after, Start(e.schema, i), Start(e.schema, i + 1), Start(e.schema, |e.schema|));
    SameAt(e.schema, middle, after, Start(e.schema, i + 1), Start(e.schema, |e.schema|), i);
    forall j: nat | i < j < |e.schema| ensures MergedAt(c, e, mask, j, before, after) {
      MergedLater(c, e, mask, i, j, before, middle, after);
    }
  }

  lemma BetweenTwo(before: seq<Byte>, middle: seq<Byte>, after: seq<Byte>, a: nat, b: nat, c: nat)
    requires a <= b <= c && OnlyBetween(before, middle, a, b) && OnlyBetween(middle, after, b, c)
    ensures OnlyBetween(before, after, a, c)
  {
  }

  lemma MergedLater(c: Codec, e: Entity, mask: nat, i: nat, j: nat, before: seq<Byte>, middle: seq<Byte>,
                    after: seq<Byte>)
    requires Fits(e.schema, e.values) && Fits(e.schema, before) && i < j < |e.schema| && |after| == |middle|
    requires OnlyBetween(before, middle, Start(e.schema, i), Start(e.schema, i + 1))
    requires MergedAt(c, e, mask, j, middle, after)
    ensures MergedAt(c, e, mask, j, before, after)
  {
    StartMonotone(e.schema, i + 1, j);
    SameAt(e.schema, before, middle, Start(e.schema, i), Start(e.schema, i + 1), j);
  }

  /** Reading one property of the mask gives it the value sent and touches no other byte. */
  lemma ReadOneExact(c: Codec, e: Entity, mask: nat, i: nat, front: seq<Byte>, rest: seq<Byte>, values: seq<Byte>)
    requires Fits(e.schema, e.values) && Fits(e.schema, values) && CodecOk(c) && i < |e.schema| && Bit(mask, i)
    ensures var bytes := WriteProp(c, e.schema[i], At(e.schema, e.values, i));
            |bytes| == WireSize(e.schema[i]) &&
            var out := ReadOne(c, e.schema, front + bytes + rest, i, Reading(values, |front|));
            out.pos == |front| + |bytes| && MergedAt(c, e, mask, i, values, out.values) &&
            OnlyBetween(values, out.values, Start(e.schema, i), Start(e.schema, i + 1))
  {
    var val := At(e.schema, e.values, i);
    var bytes := WriteProp(c, e.schema[i], val);
    SizeReceived(c, e.schema, i, val);
    SizeReceived(c, e.schema, i, bytes);
    assert (front + bytes + rest)[|front|..|front| + |bytes|] == bytes;
    PropInside(e.schema, values, i);
    SplicedOnce(values, e.schema[i].offset, ReadProp(c, e.schema[i], bytes));
  }

  lemma SplicedOnce(values: seq<Byte>, offset: nat, data: seq<Byte>)
    requires offset + |data| <= |values|
    ensures Splice(values, offset, data)[offset..offset + |data|] == data
    ensures OnlyBetween(values, Splice(values, offset, data), offset, offset + |data|)
  {
    SpliceThere(values, offset, data);
  }

  /** Reading the values from property `i` on fills exactly the named properties and consumes the wire. */
  ghost predicate BodyReads(c: Codec, e: Entity, mask: nat, i: nat, front: seq<Byte>, values: seq<Byte>)
    requires Fits(e.schema, e.values) && Fits(e.schema, values) && CodecOk(c) && i <= |e.schema|
  {
    var wire := front + Body(c, e, mask, i);
    var out := ReadBody(c, e.schema, mask, wire, i, Reading(values, |front|));
    out.pos == |wire| && Merged(c, e, mask, i, values, out.values)
  }

  lemma BodySkips(c: Codec, e: Entity, mask: nat, i: nat, front: seq<Byte>, values: seq<Byte>)
    requires Fits(e.schema, e.values) && Fits(e.schema, values) && CodecOk(c) && i < |e.schema| && !Bit(mask, i)
    requires BodyReads(c, e, mask, i + 1, front, values)
    ensures BodyReads(c, e, mask, i, front, values)
  {
    assert Body(c, e, mask, i) == Body(c, e, mask, i + 1);
    MergedStep(c, e, mask, i, values, values,
               ReadBody(c, e.schema, mask, front + Body(c, e, mask, i), i + 1, Reading(values, |front|)).values);
  }

  lemma BodyTakes(c: Codec, e: Entity, mask: nat, i: nat, front: seq<Byte>, values: seq<Byte>, bytes: seq<Byte>,
                  out: Reading)
    requires Fits(e.schema, e.values) && Fits(e.schema, values) && CodecOk(c) && i < |e.schema| && Bit(mask, i)
    requires bytes == WriteProp(c, e.schema[i], At(e.schema, e.values, i)) && |bytes| == WireSize(e.schema[i])
    requires out == ReadOne(c, e.schema, front + bytes + Body(c, e, mask, i + 1), i, Reading(values, |front|))
    requires OnlyBetween(values, out.values, Start(e.schema, i), Start(e.schema, i + 1))
    requires MergedAt(c, e, mask, i, values, out.values) && BodyReads(c, e, mask, i + 1, front + bytes, out.values)
    ensures BodyReads(c, e, mask, i, front, values)
  {
    var rest := Body(c, e, mask, i + 1);
    Assoc(front, bytes, rest);
    var wire := front + bytes + rest;
    assert front + Body(c, e, mask, i) == wire && out.pos == |front + bytes|;
    MergedStep(c, e, mask, i, values, out.values, ReadBody(c, e.schema, mask, wire, i + 1, out).values);
  }

  lemma {:induction false} BodyRoundTrip(c: Codec, e: Entity, mask: nat, i: nat, front: seq<Byte>, values: seq<Byte>)
    requires Fits(e.schema, e.values) && Fits(e.schema, values) && CodecOk(c) && i <= |e.schema|
    ensures BodyReads(c, e, mask, i, front, values)
    decreases |e.schema| - i
  {
    if i < |e.schema| {
      if Bit(mask, i) {
        var bytes := WriteProp(c, e.schema[i], At(e.schema, e.values, i));
        ReadOneExact(c, e, mask, i, front, Body(c, e, mask, i + 1), values);
        var out := ReadOne(c, e.schema, front + bytes + Body(c, e, mask, i + 1), i, Reading(values, |front|));
        BodyRoundTrip(c, e, mask, i + 1, front + bytes, out.values);
        BodyTakes(c, e, mask, i, front, values, bytes, out);
      } else {
        BodyRoundTrip(c, e, mask, i + 1, front, values);
        BodySkips(c, e, mask, i, front, values);
      }
    }
  }

  /**
   * Reading an update restores the entity's id and the filtered mask, consumes the whole wire, gives every
   * property in the mask its value (its bytes exactly, unless it is quantised) and leaves all other bytes alone.
   */
  lemma UpdateRoundTrip(c: Codec, e: Entity, target: int, initial: bool, values: seq<Byte>)
    requires EntityOk(e) && InitialOk(e, initial) && Fits(e.schema, values) && CodecOk(c)
    ensures var wire, mask := Wire(c, e, target, initial), Mask(e, target, initial);
            var r := Deserialize(c, e.schema, wire, values);
            r.Applied? && r.id == e.id && r.mask == mask && r.length == |wire| &&
            Merged(c, e, mask, 0, values, r.values)
  {
    var wire, mask := Wire(c, e, target, initial), Mask(e, target, initial);
    MaskIsWord(e, target, initial);
    RoundTrip(mask, Body(c, e, mask, 0));
    assert wire[2..] == Encoded(mask) + Body(c, e, mask, 0);
    BodyRoundTrip(c, e, mask, 0, Header(e, mask), values);
  }

  /** The bytes a property takes on the wire: two for a quantised float, four for a quantised vector or quaternion. */
  lemma WrittenExact(c: Codec, e: Entity, i: nat)
    requires Fits(e.schema, e.values) && CodecOk(c) && i < |e.schema|
    ensures var p := e.schema[i];
            var n := |WriteProp(c, p, At(e.schema, e.values, i))|;
            if p.flags / 32 % 2 == 1 && p.kind == F32 then n == 2
            else if p.flags / 32 % 2 == 1 && (p.kind == Vec3 || p.kind == Quat) then n == 4
            else match p.kind
                 case U8 => n == 1
                 case U16 => n == 2
                 case I32 => n == 4
                 case F32 => n == 4
                 case Vec3 => n == 12
                 case Quat => n == 16
                 case Blob => n == p.rawSize
  {
    assert LaidAt(e.schema, i);
    QuantiseBit(e.schema[i].flags);
    SizeReceived(c, e.schema, i, At(e.schema, e.values, i));
  }

  lemma QuantiseBit(flags: nat)
    ensures Bit(flags, 5) <==> flags / 32 % 2 == 1
  {
    FlagBits(flags);
    FlagBits(flags / 8);
    assert Bit(flags, 5) == Bit(flags / 2, 4) == Bit(flags / 4, 3) == Bit(flags / 8, 2);
  }

  // ---------------------------------------------------------------- who sees a property

  /** The three conditions, as bits of the flags word. */
  predicate OwnerOnly(p: Prop) {
    p.flags % 2 == 1
  }

  predicate SkipOwner(p: Prop) {
    p.flags / 2 % 2 == 1
  }

  predicate InitialOnly(p: Prop) {
    p.flags / 4 % 2 == 1
  }

  /** Property `j` is due, and its conditions let this target see it. */
  predicate Shown(e: Entity, target: int, initial: bool, j: nat)
    requires j < |e.schema|
  {
    (initial || Bit(e.dirty, j)) && (OwnerOnly(e.schema[j]) ==> target == e.owner) &&
    (SkipOwner(e.schema[j]) ==> target != e.owner) && (InitialOnly(e.schema[j]) ==> initial)
  }

  /** On the wire: reading an update gives the target every property it is shown and no byte of any other. */
  lemma UpdateShows(c: Codec, e: Entity, target: int, initial: bool, values: seq<Byte>, j: nat)
    requires EntityOk(e) && InitialOk(e, initial) && Fits(e.schema, values) && CodecOk(c) && j < |e.schema|
    ensures var r := Deserialize(c, e.schema, Wire(c, e, target, initial), values);
            r.Applied? && |r.values| == |values| &&
            At(e.schema, r.values, j) ==
            if Shown(e, target, initial, j) then Received(c, e.schema[j], At(e.schema, e.values, j))
            else At(e.schema, values, j)
  {
    var mask := Mask(e, target, initial);
    UpdateRoundTrip(c, e, target, initial, values);
    MaskExact(e, target, initial, j);
    FlagBits(e.schema[j].flags);
    assert MergedAt(c, e, mask, j, values, Deserialize(c, e.schema, Wire(c, e, target, initial), values).values);
  }

  lemma FlagBits(flags: nat)
    ensures Bit(flags, 0) <==> flags % 2 == 1
    ensures Bit(flags, 1) <==> flags / 2 % 2 == 1
    ensures Bit(flags, 2) <==> flags / 4 % 2 == 1
  {
    assert Bit(flags, 1) == Bit(flags / 2, 0) && Bit(flags, 2) == Bit(flags / 2, 1) == Bit(flags / 2 / 2, 0);
  }

  lemma {:induction false} BodySize(c: Codec, e: Entity, mask: nat, i: nat)
    requires Fits(e.schema, e.values) && CodecOk(c) && i <= |e.schema|
    ensures |Body(c, e, mask, i)| <= Start(e.schema, |e.schema|) - Start(e.schema, i)
    decreases |e.schema| - i
  {
    if i < |e.schema| {
      BodySize(c, e, mask, i + 1);
      WrittenSize(c, e, i);
      PropInside(e.schema, e.values, i);
    }
  }

  /** An encoded property is no longer than the property. */
  lemma WrittenSize(c: Codec, e: Entity, i: nat)
    requires Fits(e.schema, e.values) && CodecOk(c) && i < |e.schema|
    ensures |WriteProp(c, e.schema[i], At(e.schema, e.values, i))| <= e.schema[i].rawSize
  {
    SizeReceived(c, e.schema, i, At(e.schema, e.values, i));
    assert LaidAt(e.schema, i);
  }

  /** How an update begins: the id in two bytes, low byte first, and the mask. */
  lemma WireBegins(c: Codec, e: Entity, target: int, initial: bool)
    requires EntityOk(e)
    ensures var wire, mask := Wire(c, e, target, initial), Encoded(Mask(e, target, initial));
            |wire| >= 2 + |mask| && wire[0] == e.id % 256 && wire[1] == e.id / 256 && wire[2..2 + |mask|] == mask
  {
  }

  /** An update takes at most twelve bytes more than the values. */
  lemma WireSizeBound(c: Codec, e: Entity, target: int, initial: bool)
    requires EntityOk(e) && CodecOk(c)
    ensures |Wire(c, e, target, initial)| <= 12 + Start(e.schema, |e.schema|)
  {
    MaskIsWord(e, target, initial);
    AtMostTen(Mask(e, target, initial));
    BodySize(c, e, Mask(e, target, initial), 0);
  }

  // ---------------------------------------------------------------- a replica over a whole run

  datatype World = World(e: Entity, replica: seq<Byte>)

  datatype Event =
    | Assigned(i: int, kind: Kind, data: seq<Byte>)
    | OwnerSet(owner: int)
    | Replicated(pass: Pass)

  /**
   * What a pass meets at the target: whether it is a member of the group, whether its queue takes the update, and
   * whether the queued update is delivered, that is neither replaced in the queue by a later one nor lost.
   */
  datatype Pass = Pass(member: bool, room: bool, delivered: bool)

  predicate Typed(ev: Event) {
    ev.Assigned? && ev.kind != Blob ==> |ev.data| == SizeOf(ev.kind)
  }

  ghost predicate WorldOk(w: World) {
    EntityOk(w.e) && |w.replica| == |w.e.values| && InitialOk(w.e, w.e.needsInitial)
  }

  /** A pass has nothing to do. */
  predicate Settled(e: Entity) {
    e.dirty == 0 && !e.needsInitial
  }

  /** The update reaches the target; for that it must also fit a message of a channel. */
  ghost predicate Reaches(c: Codec, e: Entity, target: int, pass: Pass)
    requires EntityOk(e)
  {
    pass.member && pass.room && pass.delivered && |Wire(c, e, target, e.needsInitial)| <= 1200
  }

  /**
   * One pass of netudp_server_replicate over the entity, for a target that applies what it gets.  The entity is
   * cleared whether or not the update reaches the target.
   */
  ghost function Replicate(c: Codec, w: World, target: int, pass: Pass): (r: World)
    requires WorldOk(w) && CodecOk(c)
    ensures WorldOk(r) && r.e.schema == w.e.schema
  {
    if Settled(w.e) then w else
      var initial := w.e.needsInitial;
      World(w.e.(dirty := 0, needsInitial := false),
            if Mask(w.e, target, initial) == 0 || !Reaches(c, w.e, target, pass) then w.replica
            else Deserialize(c, w.e.schema, Wire(c, w.e, target, initial), w.replica).values)
  }

  ghost function Step(c: Codec, w: World, ev: Event, target: int, floatEq: (seq<Byte>, seq<Byte>) -> bool): (r: World)
    requires WorldOk(w) && CodecOk(c) && Typed(ev)
    ensures WorldOk(r) && r.e.schema == w.e.schema
  {
    match ev
    case Assigned(i, kind, data) =>
      AssignOk(w.e, i, kind, data, floatEq);
      w.(e := Assign(w.e, i, kind, data, floatEq).0)
    case OwnerSet(owner) => w.(e := w.e.(owner := owner))
    case Replicated(pass) => Replicate(c, w, target, pass)
  }

  ghost function Run(c: Codec, w: World, events: seq<Event>, target: int,
                     floatEq: (seq<Byte>, seq<Byte>) -> bool): (r: World)
    requires WorldOk(w) && CodecOk(c) && forall i :: 0 <= i < |events| ==> Typed(events[i])
    ensures WorldOk(r) && r.e.schema == w.e.schema
  {
    if events == [] then w else
      Step(c, Run(c, w, events[..|events| - 1], target, floatEq), events[|events| - 1], target, floatEq)
  }

  /** A property under no condition: REP_ALL as far as delivery goes. */
  predicate ForAll(p: Prop) {
    !Bit(p.flags, 0) && !Bit(p.flags, 1) && !Bit(p.flags, 2)
  }

  /** The replica has the current value of property `j`, as far as the encoding carries it. */
  ghost predicate AgreesAt(c: Codec, w: World, j: nat)
    requires WorldOk(w) && j < |w.e.schema|
  {
    At(w.e.schema, w.replica, j) == Received(c, w.e.schema[j], At(w.e.schema, w.e.values, j))
  }

  /** Once the snapshot is out, the replica is behind only on properties marked dirty. */
  ghost predicate Agrees(c: Codec, w: World)
    requires WorldOk(w)
  {
    !w.e.needsInitial ==>
      forall j: nat :: j < |w.e.schema| && ForAll(w.e.schema[j]) && !Bit(w.e.dirty, j) ==> AgreesAt(c, w, j)
  }

  /** The pass has something to say about property `j` to everyone. */
  predicate Due(e: Entity, j: nat)
    requires j < |e.schema|
  {
    ForAll(e.schema[j]) && (e.needsInitial || Bit(e.dirty, j))
  }

  /** The replica already has every property the pass would send. */
  ghost predicate NothingMissed(c: Codec, w: World)
    requires WorldOk(w)
  {
    forall j: nat :: j < |w.e.schema| && Due(w.e, j) ==> AgreesAt(c, w, j)
  }

  lemma ReachedAgrees(c: Codec, w: World, target: int, pass: Pass)
    requires WorldOk(w) && CodecOk(c) && Agrees(c, w) && Reaches(c, w.e, target, pass)
    ensures Agrees(c, Replicate(c, w, target, pass))
  {
    var r := Replicate(c, w, target, pass);
    var initial := w.e.needsInitial;
    var mask := Mask(w.e, target, initial);
    UpdateRoundTrip(c, w.e, target, initial, w.replica);
    forall j: nat | j < |w.e.schema| && ForAll(w.e.schema[j]) ensures AgreesAt(c, r, j) {
      BitZero(j);
      MaskExact(w.e, target, initial, j);
      if Bit(mask, j) {
        assert MergedAt(c, w.e, mask, j, w.replica, r.replica);
      } else {
        assert AgreesAt(c, w, j);
        assert r.replica != w.replica ==> MergedAt(c, w.e, mask, j, w.replica, r.replica);
      }
    }
  }

  lemma MissedAgreesIff(c: Codec, w: World, target: int, pass: Pass)
    requires WorldOk(w) && CodecOk(c) && Agrees(c, w) && !Settled(w.e) && !Reaches(c, w.e, target, pass)
    ensures Agrees(c, Replicate(c, w, target, pass)) <==> NothingMissed(c, w)
  {
    var r := Replicate(c, w, target, pass);
    forall j: nat | j < |w.e.schema| ensures !Bit(r.e.dirty, j) && (AgreesAt(c, r, j) <==> AgreesAt(c, w, j)) {
      BitZero(j);
    }
  }

  /**
   * A pass keeps the replica in step if and only if it had nothing to do, or the update reached the target, or the
   * replica had all of it already: otherwise the cleared mask forgets what was missed.
   */
  lemma ReplicateAgreesIff(c: Codec, w: World, target: int, pass: Pass)
    requires WorldOk(w) && CodecOk(c) && Agrees(c, w)
    ensures var r := Replicate(c, w, target, pass);
            r.e.dirty == 0 && !r.e.needsInitial &&
            (Agrees(c, r) <==> Settled(w.e) || Reaches(c, w.e, target, pass) || NothingMissed(c, w))
  {
    if !Settled(w.e) {
      if Reaches(c, w.e, target, pass) {
        ReachedAgrees(c, w, target, pass);
      } else {
        MissedAgreesIff(c, w, target, pass);
      }
    }
  }

  // ---------------------------------------------------------------- what a replica never sees

  /** A pass that does not show property `j` to the target leaves its bytes alone. */
  lemma PassConceals(c: Codec, w: World, target: int, pass: Pass, j: nat)
    requires WorldOk(w) && CodecOk(c) && j < |w.e.schema| && !Shown(w.e, target, w.e.needsInitial, j)
    ensures At(w.e.schema, Replicate(c, w, target, pass).replica, j) == At(w.e.schema, w.replica, j)
  {
    UpdateShows(c, w.e, target, w.e.needsInitial, w.replica, j);
  }

  /** The owner is the target throughout the run, or never. */
  ghost predicate AlwaysOwner(w: World, events: seq<Event>, target: int, always: bool) {
    (w.e.owner == target <==> always) &&
    forall i :: 0 <= i < |events| && events[i].OwnerSet? ==> (events[i].owner == target <==> always)
  }

  /**
   * Over every run: the replica of a client that never was the owner keeps its bytes of an owner-only property, and
   * so does the replica of a client that always was the owner for a property that skips the owner.
   */
  lemma {:induction false} ConcealedThroughout(
      c: Codec, w: World, events: seq<Event>, target: int, floatEq: (seq<Byte>, seq<Byte>) -> bool, j: nat,
      always: bool)
    requires WorldOk(w) && CodecOk(c) && forall i :: 0 <= i < |events| ==> Typed(events[i])
    requires j < |w.e.schema| && AlwaysOwner(w, events, target, always)
    requires if always then SkipOwner(w.e.schema[j]) else OwnerOnly(w.e.schema[j])
    ensures var r := Run(c, w, events, target, floatEq);
            (r.e.owner == target <==> always) && At(w.e.schema, r.replica, j) == At(w.e.schema, w.replica, j)
  {
    if events != [] {
      var front, last := events[..|events| - 1], events[|events| - 1];
      ConcealedThroughout(c, w, front, target, floatEq, j, always);
      if last.Replicated? {
        PassConceals(c, Run(c, w, front, target, floatEq), target, last.pass, j);
      }
    }
  }

  // ---------------------------------------------------------------- what a missed pass loses

  /** Some replica has every property under no condition. */
  lemma AgreeingReplica(c: Codec, e: Entity) returns (replica: seq<Byte>)
    requires EntityOk(e) && InitialOk(e, e.needsInitial) && CodecOk(c)
    ensures |replica| == |e.values|
    ensures forall j: nat :: j < |e.schema| && ForAll(e.schema[j]) ==> AgreesAt(c, World(e, replica), j)
  {
    var n := |e.schema|;
    var all := e.(dirty := Ones(n));
    forall j: nat | Bit(all.dirty, j) ensures j < n {
      BitOnes(n, j);
    }
    BitsBound(all.dirty, n);
    UpdateRoundTrip(c, all, e.owner, false, e.values);
    replica := Deserialize(c, e.schema, Wire(c, all, e.owner, false), e.values).values;
    forall j: nat | j < n && ForAll(e.schema[j]) ensures AgreesAt(c, World(e, replica), j) {
      BitOnes(n, j);
      MaskExact(all, e.owner, false, j);
      assert MergedAt(c, all, Mask(all, e.owner, false), j, e.values, replica);
    }
  }

  lemma ReceivedSize(c: Codec, schema: seq<Prop>, values: seq<Byte>, j: nat)
    requires CodecOk(c) && Fits(schema, values) && j < |schema|
    ensures |Received(c, schema[j], At(schema, values, j))| == schema[j].rawSize
  {
    SizeReceived(c, schema, j, At(schema, values, j));
    SizeReceived(c, schema, j, WriteProp(c, schema[j], At(schema, values, j)));
  }

  /** A replica with other bytes at property `j` and the same at all others. */
  lemma SpoiledAt(c: Codec, e: Entity, replica: seq<Byte>, j: nat) returns (other: seq<Byte>)
    requires EntityOk(e) && InitialOk(e, e.needsInitial) && CodecOk(c) && |replica| == |e.values|
    requires j < |e.schema| && e.schema[j].rawSize > 0
    ensures |other| == |replica| && !AgreesAt(c, World(e, other), j)
    ensures forall k: nat :: k < |e.schema| && k != j ==> At(e.schema, other, k) == At(e.schema, replica, k)
  {
    PropInside(e.schema, replica, j);
    ReceivedSize(c, e.schema, e.values, j);
    var offset, right := e.schema[j].offset, Received(c, e.schema[j], At(e.schema, e.values, j));
    var wrong := right[0 := if right[0] == 0 then 1 else 0];
    other := Splice(replica, offset, wrong);
    SpliceThere(replica, offset, wrong);
    assert At(e.schema, other, j)[0] != right[0];
    forall k: nat | k < |e.schema| && k != j ensures At(e.schema, other, k) == At(e.schema, replica, k) {
      SpliceElsewhere(e.schema, replica, j, wrong, k);
    }
  }

  /** A pass that misses the target loses any due property with bytes, for some replica that was in step. */
  lemma MissLoses(c: Codec, e: Entity, target: int, pass: Pass, j: nat) returns (replica: seq<Byte>)
    requires EntityOk(e) && InitialOk(e, e.needsInitial) && CodecOk(c) && !Settled(e) && !Reaches(c, e, target, pass)
    requires j < |e.schema| && Due(e, j) && e.schema[j].rawSize > 0
    ensures |replica| == |e.values|
    ensures Agrees(c, World(e, replica)) && !Agrees(c, Replicate(c, World(e, replica), target, pass))
  {
    var right := AgreeingReplica(c, e);
    replica := SpoiledAt(c, e, right, j);
    var w := World(e, replica);
    forall k: nat | k < |e.schema| && ForAll(e.schema[k]) && k != j ensures AgreesAt(c, w, k) {
      assert AgreesAt(c, World(e, right), k);
    }
    MissedAgreesIff(c, w, target, pass);
  }

  /** No property with bytes is due. */
  ghost predicate NothingDue(e: Entity) {
    forall j: nat :: j < |e.schema| && Due(e, j) ==> e.schema[j].rawSize == 0
  }

  /** The pass keeps every replica in step that was in step before it. */
  ghost predicate KeepsAll(c: Codec, e: Entity, target: int, pass: Pass)
    requires EntityOk(e) && InitialOk(e, e.needsInitial) && CodecOk(c)
  {
    forall replica: seq<Byte> :: |replica| == |e.values| ==>
      Agrees(c, World(e, replica)) ==> Agrees(c, Replicate(c, World(e, replica), target, pass))
  }

  /** What the server can tell: a pass keeps every replica in step if and only if there is nothing to send, the update
      reaches the target, or no property with bytes is due. */
  lemma PassKeepsAllIff(c: Codec, e: Entity, target: int, pass: Pass)
    requires EntityOk(e) && InitialOk(e, e.needsInitial) && CodecOk(c)
    ensures KeepsAll(c, e, target, pass) <==> Settled(e) || Reaches(c, e, target, pass) || NothingDue(e)
  {
    if Settled(e) || Reaches(c, e, target, pass) || NothingDue(e) {
      forall replica: seq<Byte> | |replica| == |e.values| && Agrees(c, World(e, replica))
        ensures Agrees(c, Replicate(c, World(e, replica), target, pass))
      {
        NothingDueMissed(c, World(e, replica));
        ReplicateAgreesIff(c, World(e, replica), target, pass);
      }
    } else {
      var j: nat :| j < |e.schema| && Due(e, j) && e.schema[j].rawSize > 0;
      var replica := MissLoses(c, e, target, pass, j);
    }
  }

  lemma NothingDueMissed(c: Codec, w: World)
    requires WorldOk(w) && CodecOk(c)
    ensures NothingDue(w.e) ==> NothingMissed(c, w)
  {
    forall j: nat | j < |w.e.schema| && Due(w.e, j) && w.e.schema[j].rawSize == 0 ensures AgreesAt(c, w, j) {
      ReceivedSize(c, w.e.schema, w.e.values, j);
    }
  }

  /** Counterexample: a byte is set, the pass finds the queue full, and no later pass sends it. */
  lemma MissedPassLoses(c: Codec, target: int, floatEq: (seq<Byte>, seq<Byte>) -> bool)
    requires CodecOk(c)
    ensures var w := World(Entity(0, [Prop(U8, 0, 1, 0)], -1, 0, false, [5]), [5]);
            var full, free := Pass(true, false, false), Pass(true, true, true);
            var events := [Assigned(0, U8, [7]), Replicated(full), Replicated(free)];
            WorldOk(w) && Agrees(c, w) &&
            var r := Run(c, w, events, target, floatEq);
            r.e.values == [7] && r.replica == [5] && Settled(r.e)
  {
    var schema := [Prop(U8, 0, 1, 0)];
    var w := World(Entity(0, schema, -1, 0, false, [5]), [5]);
    assert LaidAt(schema, 0) && Start(schema, 1) == 1;
    var full, free := Pass(true, false, false), Pass(true, true, true);
    var events := [Assigned(0, U8, [7]), Replicated(full), Replicated(free)];
    assert events[..2][..1] == [events[0]] && events[..2][..1][..0] == [];
    BitZero(5);
    assert Run(c, w, [events[0]], target, floatEq).e.values == [7];
    assert Settled(Run(c, w, events[..2], target, floatEq).e);
  }

  /** The step is no pass that misses the target. */
  ghost predicate Arrives(c: Codec, w: World, ev: Event, target: int)
    requires WorldOk(w)
  {
    ev.Replicated? ==> Settled(w.e) || Reaches(c, w.e, target, ev.pass) || NothingMissed(c, w)
  }

  lemma StepAgreesIff(c: Codec, w: World, ev: Event, target: int, floatEq: (seq<Byte>, seq<Byte>) -> bool)
    requires WorldOk(w) && CodecOk(c) && Typed(ev) && Agrees(c, w)
    ensures Agrees(c, Step(c, w, ev, target, floatEq)) <==> Arrives(c, w, ev, target)
  {
    var r := Step(c, w, ev, target, floatEq);
    match ev
    case Assigned(i, kind, data) =>
      forall j: nat | j < |w.e.schema| && ForAll(w.e.schema[j]) && !Bit(r.e.dirty, j) && !r.e.needsInitial
        ensures AgreesAt(c, r, j)
      {
        AssignMarks(w.e, i, kind, data, floatEq, j);
        assert AgreesAt(c, w, j);
      }
    case OwnerSet(owner) =>
      assert forall j: nat :: j < |w.e.schema| ==> AgreesAt(c, r, j) == AgreesAt(c, w, j);
    case Replicated(pass) => ReplicateAgreesIff(c, w, target, pass);
  }

  ghost predicate ArrivesAt(c: Codec, w: World, events: seq<Event>, target: int,
                            floatEq: (seq<Byte>, seq<Byte>) -> bool, i: nat)
    requires WorldOk(w) && CodecOk(c) && i < |events| && forall i :: 0 <= i < |events| ==> Typed(events[i])
  {
    Arrives(c, Run(c, w, events[..i], target, floatEq), events[i], target)
  }

  /** No pass of the run misses the target. */
  ghost predicate AllArrive(c: Codec, w: World, events: seq<Event>, target: int,
                            floatEq: (seq<Byte>, seq<Byte>) -> bool)
    requires WorldOk(w) && CodecOk(c) && forall i :: 0 <= i < |events| ==> Typed(events[i])
  {
    forall i: nat {:trigger ArrivesAt(c, w, events, target, floatEq, i)} ::
      i < |events| ==> ArrivesAt(c, w, events, target, floatEq, i)
  }

  lemma AllArrivePrefix(c: Codec, w: World, events: seq<Event>, target: int, floatEq: (seq<Byte>, seq<Byte>) -> bool)
    requires WorldOk(w) && CodecOk(c) && events != [] && forall i :: 0 <= i < |events| ==> Typed(events[i])
    requires AllArrive(c, w, events, target, floatEq)
    ensures AllArrive(c, w, events[..|events| - 1], target, floatEq)
    ensures Arrives(c, Run(c, w, events[..|events| - 1], target, floatEq), events[|events| - 1], target)
  {
    var front := events[..|events| - 1];
    assert ArrivesAt(c, w, events, target, floatEq, |events| - 1);
    forall i: nat | i < |front| ensures ArrivesAt(c, w, front, target, floatEq, i) {
      assert front[..i] == events[..i];
      assert ArrivesAt(c, w, events, target, floatEq, i);
    }
  }

  /**
   * Replica agreement: from an entity not yet sent and any replica, after every run of setters, changes of
   * owner and passes that do not miss the target, the replica is behind only on properties marked dirty; right
   * after a pass it equals the entity on every unquantised property under no condition.
   */
  lemma {:induction false} ReplicaAgrees(
      c: Codec, w: World, events: seq<Event>, target: int, floatEq: (seq<Byte>, seq<Byte>) -> bool)
    requires WorldOk(w) && CodecOk(c) && w.e.needsInitial && forall i :: 0 <= i < |events| ==> Typed(events[i])
    requires AllArrive(c, w, events, target, floatEq)
    ensures var r := Run(c, w, events, target, floatEq);
            Agrees(c, r) &&
            (events != [] && events[|events| - 1].Replicated? ==>
              forall j: nat :: j < |w.e.schema| && ForAll(w.e.schema[j]) && !Bit(w.e.schema[j].flags, 5) ==>
                At(w.e.schema, r.replica, j) == At(w.e.schema, r.e.values, j))
  {
    if events != [] {
      var front, last := events[..|events| - 1], events[|events| - 1];
      AllArrivePrefix(c, w, events, target, floatEq);
      ReplicaAgrees(c, w, front, target, floatEq);
      var before := Run(c, w, front, target, floatEq);
      StepAgreesIff(c, before, last, target, floatEq);
      if last.Replicated? {
        ReplicateAgreesIff(c, before, target, last.pass);
        AfterPass(c, Run(c, w, events, target, floatEq));
      }
    }
  }

  lemma AfterPass(c: Codec, r: World)
    requires WorldOk(r) && Agrees(c, r) && Settled(r.e)
    ensures forall j: nat :: j < |r.e.schema| && ForAll(r.e.schema[j]) && !Bit(r.e.schema[j].flags, 5) ==>
              At(r.e.schema, r.replica, j) == At(r.e.schema, r.e.values, j)
  {
    forall j: nat | j < |r.e.schema| && ForAll(r.e.schema[j]) && !Bit(r.e.schema[j].flags, 5)
      ensures At(r.e.schema, r.replica, j) == At(r.e.schema, r.e.values, j)
    {
      BitZero(j);
      assert AgreesAt(c, r, j);
    }
  }
}
