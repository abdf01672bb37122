/**
 The records of a nanopb message in the numbers of the Protocol Buffers Encoding
 specification: keys, payloads, and which fields are written at all.
 */
module PbWireLayout {
  import opened Coding
  import opened PbTypes
  import opened PbVarint
  import Layout = ByteLayout

  /** "Message Structure": varint, 64-bit, length-delimited or 32-bit. */
  function Key(f: Field): Layout.Part {
    match f.kind
    case Bool => Layout.Varint(8 * f.tag)
    case Varint(_) => Layout.Varint(8 * f.tag)
    case UVarint(_) => Layout.Varint(8 * f.tag)
    case SVarint(_) => Layout.Varint(8 * f.tag)
    case Fixed64 => Layout.Varint(8 * f.tag + 1)
    case ByteString(_) => Layout.Varint(8 * f.tag + 2)
    case Text(_) => Layout.Varint(8 * f.tag + 2)
    case Message(_) => Layout.Varint(8 * f.tag + 2)
    case Fixed32 => Layout.Varint(8 * f.tag + 5)
  }

  /** Negative numbers as ten-byte varints or in zigzag; a submessage is a string of its own records. */
  function Payload(kind: Kind, v: Value): Layout.Part
    requires Fits(kind, v)
  {
    match v
    case Blob(bytes) => Layout.Slice(bytes)
    case Sub(slots) => Layout.Slice(MessageWire(Real, kind.fields, slots))
    case Number(n) =>
      match kind
      case Varint(_) => Layout.Varint(if n < 0 then n + 0x1_0000_0000_0000_0000 else n)
      case SVarint(_) => Layout.Varint(if n < 0 then 2 * -n - 1 else 2 * n)
      case Fixed32 => Layout.Fixed(4, n)
      case Fixed64 => Layout.Fixed(8, n)
      case _ => Layout.Varint(n)
  }

  function RecordParts(f: Field, v: Value): seq<Layout.Part>
    requires Fits(f.kind, v)
  {
    [Key(f), Payload(f.kind, v)]
  }

  function PackedParts(kind: Kind, vs: seq<Value>): seq<Layout.Part>
    requires forall i :: 0 <= i < |vs| ==> Fits(kind, vs[i])
  {
    if vs == [] then [] else [Payload(kind, vs[0])] + PackedParts(kind, vs[1..])
  }

  function ArrayParts(f: Field, vs: seq<Value>): seq<Layout.Part>
    requires forall i :: 0 <= i < |vs| ==> Fits(f.kind, vs[i])
  {
    if vs == [] then [] else RecordParts(f, vs[0]) + ArrayParts(f, vs[1..])
  }

  /** Zero, the empty string, or a submessage without any records. */
  predicate Empty(kind: Kind, v: Value)
    requires Fits(kind, v)
  {
    match v
    case Number(n) => n == 0
    case Blob(bytes) => bytes == []
    case Sub(slots) => MessageWire(Real, kind.fields, slots) == []
  }

  /** A slot without presence is written unless it is empty; numbers of an array share one record. */
  function SlotParts(f: Field, s: Slot): seq<Layout.Part>
    requires SlotFits(f, s)
  {
    match s
    case One(v) => if f.rule == Singular && Empty(f.kind, v) then [] else RecordParts(f, v)
    case Maybe(o) => if o.Some? then RecordParts(f, o.value) else []
    case Many(vs) =>
      if vs == [] then []
      else if Scalar(f.kind) then [Layout.Varint(8 * f.tag + 2), Layout.Slice(PackedWire(Real, f.kind, vs))]
      else ArrayParts(f, vs)
  }

  /** In the order of the fields. */
  function MessageParts(fields: seq<Field>, slots: seq<Slot>): seq<Layout.Part>
    requires AllFit(fields, slots)
    decreases |slots|
  {
    if slots == [] then [] else SlotParts(fields[0], slots[0]) + MessageParts(fields[1..], slots[1..])
  }

  // ----- the encoder writes these records -----

  ghost predicate AllPut(parts: seq<Layout.Part>) {
    forall i :: 0 <= i < |parts| ==> Layout.Fits(parts[i])
  }

  lemma PayloadIsPut(kind: Kind, v: Value)
    requires Fits(kind, v)
    ensures Layout.Fits(Payload(kind, v)) && Layout.PutPart(Payload(kind, v)) == ValueWire(Real, kind, v)
  {
    assert Power256(4) == Two32;
    assert Power256(8) == 256 * 256 * 256 * 256 * Power256(4);
  }

  lemma RecordIsPut(f: Field, v: Value)
    requires Fits(f.kind, v)
    ensures AllPut(RecordParts(f, v)) && Layout.PutParts(RecordParts(f, v)) == TaggedWire(Real, f, v)
  {
    PayloadIsPut(f.kind, v);
    assert Layout.PutPart(Key(f)) == Tag(Real, f.tag, WireType(f.kind));
    Layout.PutTwo(Key(f), Payload(f.kind, v));
  }

  lemma {:induction false} PackedIsPut(kind: Kind, vs: seq<Value>)
    requires Scalar(kind) && forall i :: 0 <= i < |vs| ==> Fits(kind, vs[i])
    ensures AllPut(PackedParts(kind, vs)) && Layout.PutParts(PackedParts(kind, vs)) == PackedWire(Real, kind, vs)
    decreases |vs|
  {
    if vs != [] {
      PayloadIsPut(kind, vs[0]);
      PackedIsPut(kind, vs[1..]);
      Layout.PutFirst(Payload(kind, vs[0]), PackedParts(kind, vs[1..]));
    }
  }

  lemma {:induction false} ArrayIsPut(f: Field, vs: seq<Value>)
    requires forall i :: 0 <= i < |vs| ==> Fits(f.kind, vs[i])
    ensures AllPut(ArrayParts(f, vs)) && Layout.PutParts(ArrayParts(f, vs)) == ArrayWire(Real, f, vs)
    decreases |vs|
  {
    if vs != [] {
      RecordIsPut(f, vs[0]);
      ArrayIsPut(f, vs[1..]);
      Layout.PutConcat(RecordParts(f, vs[0]), ArrayParts(f, vs[1..]));
    }
  }

  lemma SlotIsPut(f: Field, s: Slot)
    requires SlotFits(f, s)
    ensures AllPut(SlotParts(f, s)) && Layout.PutParts(SlotParts(f, s)) == SlotWire(Real, f, s)
  {
    match s
    case One(v) =>
      EmptyIsDefault(f.kind, v);
      RecordIsPut(f, v);
    case Maybe(o) => if o.Some? { RecordIsPut(f, o.value); }
    case Many(vs) =>
      if Scalar(f.kind) {
        Layout.PutTwo(Layout.Varint(8 * f.tag + 2), Layout.Slice(PackedWire(Real, f.kind, vs)));
      } else {
        ArrayIsPut(f, vs);
      }
  }

  lemma {:induction false} MessageIsPut(fields: seq<Field>, slots: seq<Slot>)
    requires AllFit(fields, slots)
    ensures AllPut(MessageParts(fields, slots)) && Layout.PutParts(MessageParts(fields, slots)) == MessageWire(Real, fields, slots)
    decreases |slots|
  {
    if slots != [] {
      SlotIsPut(fields[0], slots[0]);
      MessageIsPut(fields[1..], slots[1..]);
      Layout.PutConcat(SlotParts(fields[0], slots[0]), MessageParts(fields[1..], slots[1..]));
    }
  }

  // ----- what is default is what has no records -----

  lemma EmptyIsDefault(kind: Kind, v: Value)
    requires Fits(kind, v)
    ensures Empty(kind, v) <==> IsDefault(kind, v)
  {
    if v.Sub? { SilentIsDefault(kind.fields, v.slots); }
  }

  lemma {:induction false} SilentIsDefault(fields: seq<Field>, slots: seq<Slot>)
    requires AllFit(fields, slots)
    ensures MessageWire(Real, fields, slots) == [] <==> AllDefault(fields, slots)
    decreases |slots|
  {
    if slots != [] {
      SilentIsDefault(fields[1..], slots[1..]);
      SilentSlot(fields[0], slots[0]);
      AllDefaultSplits(fields, slots);
    }
  }

  lemma AllDefaultSplits(fields: seq<Field>, slots: seq<Slot>)
    requires AllFit(fields, slots) && slots != []
    ensures AllFit(fields[1..], slots[1..])
    ensures AllDefault(fields, slots) <==> SlotIsDefault(fields[0], slots[0]) && AllDefault(fields[1..], slots[1..])
  {
    if SlotIsDefault(fields[0], slots[0]) && AllDefault(fields[1..], slots[1..]) {
      forall i | 0 <= i < |slots| ensures SlotIsDefault(fields[i], slots[i]) {
        if i > 0 { assert slots[i] == slots[1..][i - 1] && fields[i] == fields[1..][i - 1]; }
      }
    }
  }

  lemma SilentSlot(f: Field, s: Slot)
    requires SlotFits(f, s)
    ensures SlotWire(Real, f, s) == [] <==> SlotIsDefault(f, s)
  {
    match s
    case One(v) => KeyIsSomething(f.tag, WireType(f.kind), ValueWire(Real, f.kind, v));
    case Maybe(o) => if o.Some? { KeyIsSomething(f.tag, WireType(f.kind), ValueWire(Real, f.kind, o.value)); }
    case Many(vs) =>
      if vs != [] {
        if Scalar(f.kind) {
          KeyIsSomething(f.tag, 2, Delimited(Real, PackedWire(Real, f.kind, vs)));
        } else {
          KeyIsSomething(f.tag, WireType(f.kind), ValueWire(Real, f.kind, vs[0]));
          assert ArrayWire(Real, f, vs) == TaggedWire(Real, f, vs[0]) + ArrayWire(Real, f, vs[1..]);
        }
      }
  }

  lemma KeyIsSomething(tag: nat, wireType: nat, rest: Bytes)
    ensures Tag(Real, tag, wireType) + rest != []
  {
    assert |PutVarint(tag * 8 + wireType)| > 0;
  }

  // ----- the theorems -----

  /** A record is a key and a payload, and there is one way to write it. */
  lemma RecordLayout(f: Field, v: Value, b: Bytes)
    requires Fits(f.kind, v)
    ensures Layout.Laid(b, RecordParts(f, v)) <==> b == TaggedWire(Real, f, v)
  {
    RecordIsPut(f, v);
    Layout.LaidIff(b, RecordParts(f, v));
  }

  lemma PackedLayout(kind: Kind, vs: seq<Value>, b: Bytes)
    requires Scalar(kind) && forall i :: 0 <= i < |vs| ==> Fits(kind, vs[i])
    ensures Layout.Laid(b, PackedParts(kind, vs)) <==> b == PackedWire(Real, kind, vs)
  {
    PackedIsPut(kind, vs);
    Layout.LaidIff(b, PackedParts(kind, vs));
  }

  /** A message is the records of its fields, in order. */
  lemma MessageLayout(fields: seq<Field>, slots: seq<Slot>, b: Bytes)
    requires AllFit(fields, slots)
    ensures Layout.Laid(b, MessageParts(fields, slots)) <==> b == MessageWire(Real, fields, slots)
  {
    MessageIsPut(fields, slots);
    Layout.LaidIff(b, MessageParts(fields, slots));
  }
}
