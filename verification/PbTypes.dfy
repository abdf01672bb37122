/**
 nanopb messages (pb.h): field descriptors, values, and the bytes that the
 Protocol Buffers Encoding specification ("Base 128 Varints",
 "Length-Delimited Records") gives them. Static fields only.
 */
module PbTypes {
  import opened Options
  import opened Coding

  /** The ltype of a field; sizes are in bytes. */
  datatype Kind =
    | Bool
    | Varint(size: nat)
    | UVarint(size: nat)
    | SVarint(size: nat)
    | Fixed32
    | Fixed64
    | ByteString(max: nat)
    | Text(max: nat)
    | Message(fields: seq<Field>)

  /** Singular is the proto3 field without a has_ flag. */
  datatype Rule = Required | Optional | Singular | Repeated(max: nat) | OneOf(group: nat)

  datatype Field = Field(tag: nat, rule: Rule, kind: Kind)

  datatype Value = Number(n: int) | Blob(bytes: Bytes) | Sub(slots: seq<Slot>)

  /** What a message struct holds for a field. */
  datatype Slot = One(value: Value) | Maybe(option: Option<Value>) | Many(values: seq<Value>)

  // ----- numbers -----

  const Two64: nat := 0x1_0000_0000_0000_0000
  const Two32: nat := 0x1_0000_0000

  /** 2 to the power of the number of bits. */
  function Bound(size: nat): nat {
    if size == 1 then 0x100 else if size == 2 then 0x1_0000 else if size == 4 then Two32 else Two64
  }

  predicate ValidSize(size: nat) { size == 1 || size == 2 || size == 4 || size == 8 }

  predicate InRange(kind: Kind, n: int) {
    match kind
    case Bool => n == 0 || n == 1
    case Varint(size) => ValidSize(size) && -(Bound(size) / 2) <= n < Bound(size) / 2
    case UVarint(size) => ValidSize(size) && 0 <= n < Bound(size)
    case SVarint(size) => ValidSize(size) && -(Bound(size) / 2) <= n < Bound(size) / 2
    case Fixed32 => 0 <= n < Two32
    case Fixed64 => 0 <= n < Two64
    case _ => false
  }

  predicate Scalar(kind: Kind) {
    kind.Bool? || kind.Varint? || kind.UVarint? || kind.SVarint? || kind.Fixed32? || kind.Fixed64?
  }

  /** The unsigned number that goes on the wire: two's complement, or zigzag. */
  function Raw(kind: Kind, n: int): (u: nat)
    requires InRange(kind, n)
    ensures u < Two64 && (kind.Fixed32? || kind.Bool? ==> u < Two32)
  {
    match kind
    case Varint(_) => if n < 0 then n + Two64 else n
    case SVarint(_) => if n < 0 then -2 * n - 1 else 2 * n
    case _ => n
  }

  /** A 64-bit number as a signed one. */
  function Signed64(u: nat): int { if u < Two64 / 2 then u else u - Two64 }

  function Signed32(u: nat): int {
    var low: int := u % Two32;
    if low < Two32 / 2 then low else low - Two32
  }

  /** pb_dec_varint, pb_dec_uvarint, pb_dec_svarint: None is "integer too large". */
  function Unraw(kind: Kind, u: nat): Option<int>
    requires Scalar(kind)
  {
    match kind
    case Bool => Some(if u != 0 then 1 else 0)
    case Varint(size) =>
      var s := if size == 8 then Signed64(u) else Signed32(u);
      if InRange(kind, s) then Some(s) else None
    case UVarint(size) => if InRange(kind, u) then Some(u) else None
    case SVarint(size) =>
      var half: int := u / 2;
      var s := if u % 2 == 1 then -half - 1 else half;
      if InRange(kind, s) then Some(s) else None
    case _ => Some(u)
  }

  lemma RawRoundTrip(kind: Kind, n: int)
    requires Scalar(kind) && InRange(kind, n)
    ensures Unraw(kind, Raw(kind, n)) == Some(n)
  {
    if kind.Varint? && kind.size != 8 && n < 0 {
      assert (n + Two64) % Two32 == n + Two32;
    }
  }

  /** The number on the wire is the value modulo 2^32, or 2^64 in an eight-byte field, or in zigzag; a value that does not fit is refused. */
  lemma UnrawMeans(kind: Kind, u: nat, n: int)
    requires Scalar(kind) && u < Two64
    ensures kind.Bool? ==> (Unraw(kind, u) == Some(n) <==> n == if u > 0 then 1 else 0)
    ensures kind.UVarint? ==> (Unraw(kind, u) == Some(n) <==> InRange(kind, n) && u == n)
    ensures kind.SVarint? ==> (Unraw(kind, u) == Some(n) <==> InRange(kind, n) && u == if n < 0 then -2 * n - 1 else 2 * n)
    ensures kind.Varint? ==> (Unraw(kind, u) == Some(n) <==> InRange(kind, n) && (u - n) % (if kind.size == 8 then 0x1_0000_0000_0000_0000 else 0x1_0000_0000) == 0)
  {
    if kind.Varint? && InRange(kind, n) { SameResidue(u, n, if kind.size == 8 then Two64 else Two32); }
    if kind.Varint? { SignedMeans(u); }
  }

  lemma SignedMeans(u: nat)
    requires u < Two64
    ensures (u - Signed32(u)) % 0x1_0000_0000 == 0 && -(Two32 / 2) <= Signed32(u) < Two32 / 2
    ensures (u - Signed64(u)) % 0x1_0000_0000_0000_0000 == 0 && -(Two64 / 2) <= Signed64(u) < Two64 / 2
  {
    var high := u / Two32;
    assert u - Signed32(u) == high * Two32 || u - Signed32(u) == (high + 1) * Two32;
    assert u - Signed64(u) == 0 || u - Signed64(u) == Two64;
  }

  lemma SameResidue(u: nat, n: int, m: nat)
    requires (m == Two32 || m == Two64) && u < Two64 && -(m / 2) <= n < m / 2
    ensures (u - n) % m == 0 <==> n == if m == Two64 then Signed64(u) else Signed32(u)
  {
    SignedMeans(u);
  }

  // ----- what the encoders below messages do -----

  /** Writing and reading numbers at the front of a stream. */
  datatype Codec = Codec(
    put: nat -> Bytes, take32: Bytes -> Option<(nat, Bytes)>, take64: Bytes -> Option<(nat, Bytes)>,
    put4: nat -> Bytes, take4: Bytes -> Option<(nat, Bytes)>,
    put8: nat -> Bytes, take8: Bytes -> Option<(nat, Bytes)>)

  /** pb_skip_varint. */
  function SkipVarint(b: Bytes): (r: Option<Bytes>)
    ensures r.Some? ==> |r.value| < |b|
  {
    if b == [] then None else if b[0] < 128 then Some(b[1..]) else SkipVarint(b[1..])
  }

  ghost predicate Consumes(c: Codec) {
    && (forall b :: c.take32(b).Some? ==> |c.take32(b).value.1| < |b|)
    && (forall b :: c.take64(b).Some? ==> |c.take64(b).value.1| < |b|)
    && (forall b :: c.take4(b).Some? ==> |c.take4(b).value.1| < |b|)
    && (forall b :: c.take8(b).Some? ==> |c.take8(b).value.1| < |b|)
  }

  ghost predicate Lawful(c: Codec) {
    && (forall v, tail: Bytes :: 0 <= v < Two32 ==> c.take32(c.put(v) + tail) == Some((v, tail)))
    && (forall v, tail: Bytes :: 0 <= v < Two64 ==> c.take64(c.put(v) + tail) == Some((v, tail)))
    && (forall v, tail: Bytes :: 0 <= v < Two32 ==> c.take4(c.put4(v) + tail) == Some((v, tail)))
    && (forall v, tail: Bytes :: 0 <= v < Two64 ==> c.take8(c.put8(v) + tail) == Some((v, tail)))
    && (forall v, tail: Bytes :: 0 <= v < Two64 ==> SkipVarint(c.put(v) + tail) == Some(tail))
    && (forall v :: 0 <= v ==> |c.put(v)| > 0)
    && (forall v :: 0 <= v ==> |c.put4(v)| == 4)
    && (forall v :: 0 <= v ==> |c.put8(v)| == 8)
    && Consumes(c)
  }

  // ----- the wire format -----

  function WireType(kind: Kind): (w: nat)
    ensures w < 8
  {
    match kind
    case Fixed32 => 5
    case Fixed64 => 1
    case ByteString(_) => 2
    case Text(_) => 2
    case Message(_) => 2
    case _ => 0
  }

  function Tag(c: Codec, tag: nat, wireType: nat): Bytes { c.put(tag * 8 + wireType) }

  function ScalarWire(c: Codec, kind: Kind, n: int): Bytes
    requires InRange(kind, n)
  {
    if kind.Fixed32? then c.put4(Raw(kind, n)) else if kind.Fixed64? then c.put8(Raw(kind, n)) else c.put(Raw(kind, n))
  }

  /** A value that its field can hold. */
  predicate Fits(kind: Kind, v: Value)
    decreases v
  {
    match kind
    case ByteString(max) => v.Blob? && |v.bytes| <= max
    case Text(max) => v.Blob? && |v.bytes| < max && (forall i :: 0 <= i < |v.bytes| ==> v.bytes[i] != 0)
    case Message(fields) => v.Sub? && AllFit(fields, v.slots)
    case _ => v.Number? && InRange(kind, v.n)
  }

  predicate SlotFits(f: Field, s: Slot)
    decreases s
  {
    match f.rule
    case Required => s.One? && Fits(f.kind, s.value)
    case Singular => s.One? && Fits(f.kind, s.value)
    case Optional => s.Maybe? && (s.option.Some? ==> Fits(f.kind, s.option.value))
    case OneOf(_) => s.Maybe? && (s.option.Some? ==> Fits(f.kind, s.option.value))
    case Repeated(max) => s.Many? && |s.values| <= max && (forall i :: 0 <= i < |s.values| ==> Fits(f.kind, s.values[i]))
  }

  predicate AllFit(fields: seq<Field>, slots: seq<Slot>)
    decreases slots
  {
    |slots| == |fields| && forall i :: 0 <= i < |fields| ==> SlotFits(fields[i], slots[i])
  }

  // ----- pb_check_proto3_default_value -----

  predicate IsDefault(kind: Kind, v: Value)
    requires Fits(kind, v)
    decreases v
  {
    match v
    case Number(n) => n == 0
    case Blob(bytes) => bytes == []
    case Sub(slots) => AllDefault(kind.fields, slots)
  }

  predicate AllDefault(fields: seq<Field>, slots: seq<Slot>)
    requires AllFit(fields, slots)
    decreases slots
  {
    forall i :: 0 <= i < |slots| ==> SlotIsDefault(fields[i], slots[i])
  }

  predicate SlotIsDefault(f: Field, s: Slot)
    requires SlotFits(f, s)
    decreases s
  {
    match f.rule
    case Required => false
    case Singular => IsDefault(f.kind, s.value)
    case Optional => s.option == None
    case OneOf(_) => s.option == None
    case Repeated(_) => s.values == []
  }

  // ----- bytes -----

  function ValueWire(c: Codec, kind: Kind, v: Value): Bytes
    requires Fits(kind, v)
    decreases v, 0
  {
    match v
    case Number(n) => ScalarWire(c, kind, n)
    case Blob(bytes) => c.put(|bytes|) + bytes
    case Sub(slots) => Delimited(c, MessageWire(c, kind.fields, slots))
  }

  /** A length-delimited record. */
  function Delimited(c: Codec, inner: Bytes): Bytes { c.put(|inner|) + inner }

  function MessageWire(c: Codec, fields: seq<Field>, slots: seq<Slot>): Bytes
    requires AllFit(fields, slots)
    decreases slots
  {
    if slots == [] then [] else SlotWire(c, fields[0], slots[0]) + MessageWire(c, fields[1..], slots[1..])
  }

  function TaggedWire(c: Codec, f: Field, v: Value): Bytes
    requires Fits(f.kind, v)
    decreases v, 1
  {
    Tag(c, f.tag, WireType(f.kind)) + ValueWire(c, f.kind, v)
  }

  function SlotWire(c: Codec, f: Field, s: Slot): Bytes
    requires SlotFits(f, s)
    decreases s
  {
    match f.rule
    case Required => TaggedWire(c, f, s.value)
    case Singular => if IsDefault(f.kind, s.value) then [] else TaggedWire(c, f, s.value)
    case Optional => if s.option == None then [] else TaggedWire(c, f, s.option.value)
    case OneOf(_) => if s.option == None then [] else TaggedWire(c, f, s.option.value)
    case Repeated(_) =>
      if s.values == [] then []
      else if Scalar(f.kind) then Tag(c, f.tag, 2) + Delimited(c, PackedWire(c, f.kind, s.values))
      else ArrayWire(c, f, s.values)
  }

  function PackedWire(c: Codec, kind: Kind, vs: seq<Value>): Bytes
    requires Scalar(kind) && forall i :: 0 <= i < |vs| ==> Fits(kind, vs[i])
  {
    if vs == [] then []
    else
      assert Fits(kind, vs[0]);
      ScalarWire(c, kind, vs[0].n) + PackedWire(c, kind, vs[1..])
  }

  function ArrayWire(c: Codec, f: Field, vs: seq<Value>): Bytes
    requires forall i :: 0 <= i < |vs| ==> Fits(f.kind, vs[i])
    decreases vs
  {
    if vs == [] then [] else TaggedWire(c, f, vs[0]) + ArrayWire(c, f, vs[1..])
  }

  // ----- which messages -----

  /** Tags are distinct, not zero, and fit in a 32-bit key; so in every submessage. */
  ghost predicate GoodFields(fields: seq<Field>)
    decreases fields
  {
    && (forall i :: 0 <= i < |fields| ==> GoodField(fields[i]))
    && (forall i, j :: 0 <= i < j < |fields| ==> fields[i].tag != fields[j].tag)
  }

  ghost predicate GoodField(f: Field)
    decreases f
  {
    0 < f.tag < 0x2000_0000 && GoodKind(f.kind)
  }

  ghost predicate GoodKind(kind: Kind)
    decreases kind
  {
    kind.Message? ==> GoodFields(kind.fields)
  }

  /** Of a oneof at most one member is set. */
  ghost predicate OneOfsOk(fields: seq<Field>, slots: seq<Slot>)
    requires AllFit(fields, slots)
  {
    forall i, j :: 0 <= i < j < |fields| && fields[i].rule.OneOf? && fields[i].rule == fields[j].rule ==>
      slots[i] == Maybe(None) || slots[j] == Maybe(None)
  }

  /** The message and all its submessages have their oneofs right. */
  ghost predicate Sound(fields: seq<Field>, slots: seq<Slot>)
    requires AllFit(fields, slots)
    decreases slots
  {
    OneOfsOk(fields, slots) && forall i :: 0 <= i < |fields| ==> SoundSlot(fields[i], slots[i])
  }

  ghost predicate SoundSlot(f: Field, s: Slot)
    requires SlotFits(f, s)
    decreases s
  {
    match s
    case One(v) => SoundValue(f.kind, v)
    case Maybe(o) => o.Some? ==> SoundValue(f.kind, o.value)
    case Many(vs) => forall i :: 0 <= i < |vs| ==> SoundValue(f.kind, vs[i])
  }

  ghost predicate SoundValue(kind: Kind, v: Value)
    requires Fits(kind, v)
    decreases v
  {
    v.Sub? ==> Sound(kind.fields, v.slots)
  }
}
