/**
 The nanopb encoder (pb_encode.c): a sizing pass and a writing pass over every
 submessage and packed array. Both passes agree with the wire format.
 */
module PbEncode {
  import opened Options
  import opened Coding
  import opened PbTypes

  /** pb_ostream_t; a sizing stream has no callback and only counts. */
  datatype Stream = Stream(sizing: bool, out: Bytes, written: nat, max: nat) {
    predicate Open() { sizing || written <= max }
  }

  const Sizing: Stream := Stream(true, [], 0, 0)

  datatype Outcome = Done(stream: Stream) | StreamFull | SizeChanged

  /** pb_write. */
  function Write(s: Stream, b: Bytes): Outcome {
    if |b| > 0 && !s.sizing && s.written + |b| > s.max then StreamFull
    else Done(s.(out := if s.sizing then s.out else s.out + b, written := s.written + |b|))
  }

  function EncodeTag(c: Codec, s: Stream, tag: nat, wireType: nat): Outcome {
    Write(s, Tag(c, tag, wireType))
  }

  /** pb_encode_string. */
  function EncodeString(c: Codec, s: Stream, bytes: Bytes): Outcome {
    match Write(s, c.put(|bytes|))
    case Done(t) => Write(t, bytes)
    case error => error
  }

  function EncodeValue(c: Codec, s: Stream, kind: Kind, v: Value): Outcome
    requires Fits(kind, v)
    decreases v, 0
  {
    match v
    case Number(n) => Write(s, ScalarWire(c, kind, n))
    case Blob(bytes) => EncodeString(c, s, bytes)
    case Sub(slots) => EncodeSubmessage(c, s, kind.fields, slots)
  }

  /** pb_encode_submessage: the size first, from a sizing pass, and then the bytes, which must be as many. */
  function EncodeSubmessage(c: Codec, s: Stream, fields: seq<Field>, slots: seq<Slot>): Outcome
    requires AllFit(fields, slots)
    decreases slots, 1
  {
    match EncodeMessage(c, Sizing, fields, slots)
    case Done(sized) =>
      var size := sized.written;
      (match Write(s, c.put(size))
       case Done(t) =>
         if t.sizing then Done(t.(written := t.written + size))
         else if t.written + size > t.max then StreamFull
         else
           (match EncodeMessage(c, Stream(false, t.out, 0, size), fields, slots)
            case Done(sub) =>
              if sub.written != size then SizeChanged
              else Done(t.(out := sub.out, written := t.written + sub.written))
            case error => error)
       case error => error)
    case error => error
  }

  /** pb_encode: field after field. */
  function EncodeMessage(c: Codec, s: Stream, fields: seq<Field>, slots: seq<Slot>): Outcome
    requires AllFit(fields, slots)
    decreases slots, 0
  {
    if slots == [] then Done(s)
    else
      match EncodeField(c, s, fields[0], slots[0])
      case Done(t) => EncodeMessage(c, t, fields[1..], slots[1..])
      case error => error
  }

  function EncodeTagged(c: Codec, s: Stream, f: Field, v: Value): Outcome
    requires Fits(f.kind, v)
    decreases v, 1
  {
    match EncodeTag(c, s, f.tag, WireType(f.kind))
    case Done(t) => EncodeValue(c, t, f.kind, v)
    case error => error
  }

  /** encode_basic_field. */
  function EncodeField(c: Codec, s: Stream, f: Field, slot: Slot): Outcome
    requires SlotFits(f, slot)
    decreases slot
  {
    match f.rule
    case Required => EncodeTagged(c, s, f, slot.value)
    case Singular => if IsDefault(f.kind, slot.value) then Done(s) else EncodeTagged(c, s, f, slot.value)
    case Optional => if slot.option == None then Done(s) else EncodeTagged(c, s, f, slot.option.value)
    case OneOf(_) => if slot.option == None then Done(s) else EncodeTagged(c, s, f, slot.option.value)
    case Repeated(_) =>
      if slot.values == [] then Done(s)
      else if Scalar(f.kind) then EncodePacked(c, s, f, slot.values)
      else EncodeArray(c, s, f, slot.values)
  }

  function EncodeArray(c: Codec, s: Stream, f: Field, vs: seq<Value>): Outcome
    requires forall i :: 0 <= i < |vs| ==> Fits(f.kind, vs[i])
    decreases vs
  {
    if vs == [] then Done(s)
    else
      match EncodeTagged(c, s, f, vs[0])
      case Done(t) => EncodeArray(c, t, f, vs[1..])
      case error => error
  }

  function EncodeScalars(c: Codec, s: Stream, kind: Kind, vs: seq<Value>): Outcome
    requires Scalar(kind) && forall i :: 0 <= i < |vs| ==> Fits(kind, vs[i])
    decreases |vs|
  {
    if vs == [] then Done(s)
    else
      assert Fits(kind, vs[0]);
      match Write(s, ScalarWire(c, kind, vs[0].n))
      case Done(t) => EncodeScalars(c, t, kind, vs[1..])
      case error => error
  }

  /** The packed part of encode_array: sizes of fixed-width numbers are computed, others are measured. */
  function EncodePacked(c: Codec, s: Stream, f: Field, vs: seq<Value>): Outcome
    requires Scalar(f.kind) && forall i :: 0 <= i < |vs| ==> Fits(f.kind, vs[i])
  {
    match EncodeTag(c, s, f.tag, 2)
    case Done(t) =>
      (match PackedSize(c, f.kind, vs)
       case Done(sized) =>
         (match Write(t, c.put(sized.written))
          case Done(u) =>
            if u.sizing then Done(u.(written := u.written + sized.written))
            else EncodeScalars(c, u, f.kind, vs)
          case error => error)
       case error => error)
    case error => error
  }

  function PackedSize(c: Codec, kind: Kind, vs: seq<Value>): Outcome
    requires Scalar(kind) && forall i :: 0 <= i < |vs| ==> Fits(kind, vs[i])
  {
    if kind.Fixed32? then Done(Sizing.(written := 4 * |vs|))
    else if kind.Fixed64? then Done(Sizing.(written := 8 * |vs|))
    else EncodeScalars(c, Sizing, kind, vs)
  }

  // ----- both passes produce the wire format -----

  /** Putting bytes on a stream: counted, or appended if they fit. */
  function Emit(s: Stream, b: Bytes): Outcome {
    if s.sizing then Done(s.(written := s.written + |b|))
    else if s.written + |b| <= s.max then Done(s.(out := s.out + b, written := s.written + |b|))
    else StreamFull
  }

  lemma WriteEmits(s: Stream, b: Bytes)
    requires s.Open()
    ensures Write(s, b) == Emit(s, b)
    ensures Emit(s, b).Done? ==> Emit(s, b).stream.Open()
  {
    if b == [] { assert s.out + b == s.out; }
  }

  lemma EmitTwice(s: Stream, a: Bytes, b: Bytes)
    requires s.Open()
    ensures Emit(s, a + b) == match Emit(s, a) case Done(t) => Emit(t, b) case error => error
  {
    assert s.out + a + b == s.out + (a + b);
  }

  lemma EmitNothing(s: Stream)
    requires s.Open()
    ensures Emit(s, []) == Done(s)
  {
    assert s.out + [] == s.out;
  }

  lemma {:induction false} ScalarsEmit(c: Codec, s: Stream, kind: Kind, vs: seq<Value>)
    requires s.Open() && Scalar(kind) && forall i :: 0 <= i < |vs| ==> Fits(kind, vs[i])
    ensures EncodeScalars(c, s, kind, vs) == Emit(s, PackedWire(c, kind, vs))
    decreases |vs|
  {
    if vs == [] {
      EmitNothing(s);
    } else {
      assert Fits(kind, vs[0]);
      var first := ScalarWire(c, kind, vs[0].n);
      WriteEmits(s, first);
      EmitTwice(s, first, PackedWire(c, kind, vs[1..]));
      if Emit(s, first).Done? { ScalarsEmit(c, Emit(s, first).stream, kind, vs[1..]); }
    }
  }

  /** Fixed-width numbers take as many bytes as encode_array computes. */
  lemma {:induction false} FixedSizes(c: Codec, kind: Kind, vs: seq<Value>)
    requires Lawful(c) && (kind.Fixed32? || kind.Fixed64?) && forall i :: 0 <= i < |vs| ==> Fits(kind, vs[i])
    ensures |PackedWire(c, kind, vs)| == (if kind.Fixed32? then 4 else 8) * |vs|
    decreases |vs|
  {
    if vs != [] {
      assert Fits(kind, vs[0]);
      FixedSizes(c, kind, vs[1..]);
    }
  }

  lemma PackedSizeIsSize(c: Codec, kind: Kind, vs: seq<Value>)
    requires Lawful(c) && Scalar(kind) && forall i :: 0 <= i < |vs| ==> Fits(kind, vs[i])
    ensures PackedSize(c, kind, vs) == Done(Sizing.(written := |PackedWire(c, kind, vs)|))
  {
    if kind.Fixed32? || kind.Fixed64? { FixedSizes(c, kind, vs); } else { ScalarsEmit(c, Sizing, kind, vs); }
  }

  lemma PackedEmits(c: Codec, s: Stream, f: Field, vs: seq<Value>)
    requires Lawful(c) && s.Open() && Scalar(f.kind) && forall i :: 0 <= i < |vs| ==> Fits(f.kind, vs[i])
    ensures EncodePacked(c, s, f, vs) == Emit(s, Tag(c, f.tag, 2) + Delimited(c, PackedWire(c, f.kind, vs)))
  {
    var tag, packed := Tag(c, f.tag, 2), PackedWire(c, f.kind, vs);
    var size := c.put(|packed|);
    WriteEmits(s, tag);
    EmitTwice(s, tag, size + packed);
    PackedSizeIsSize(c, f.kind, vs);
    if Emit(s, tag).Done? {
      var t := Emit(s, tag).stream;
      WriteEmits(t, size);
      EmitTwice(t, size, packed);
      if Emit(t, size).Done? { ScalarsEmit(c, Emit(t, size).stream, f.kind, vs); }
    }
  }

  lemma StringEmits(c: Codec, s: Stream, bytes: Bytes)
    requires s.Open()
    ensures EncodeString(c, s, bytes) == Emit(s, c.put(|bytes|) + bytes)
  {
    WriteEmits(s, c.put(|bytes|));
    EmitTwice(s, c.put(|bytes|), bytes);
    if Emit(s, c.put(|bytes|)).Done? { WriteEmits(Emit(s, c.put(|bytes|)).stream, bytes); }
  }

  lemma {:induction false} ValueEmits(c: Codec, s: Stream, kind: Kind, v: Value)
    requires Lawful(c) && s.Open() && Fits(kind, v)
    ensures EncodeValue(c, s, kind, v) == Emit(s, ValueWire(c, kind, v))
    decreases v, 0
  {
    match v
    case Number(n) => WriteEmits(s, ScalarWire(c, kind, n));
    case Blob(bytes) => StringEmits(c, s, bytes);
    case Sub(slots) => SubmessageEmits(c, s, kind.fields, slots);
  }

  /** The writing pass of a submessage emits exactly as many bytes as its sizing pass counted. */
  lemma {:induction false} SubmessageEmits(c: Codec, s: Stream, fields: seq<Field>, slots: seq<Slot>)
    requires Lawful(c) && s.Open() && AllFit(fields, slots)
    ensures EncodeSubmessage(c, s, fields, slots) == Emit(s, Delimited(c, MessageWire(c, fields, slots)))
    decreases slots, 1
  {
    var inner := MessageWire(c, fields, slots);
    var size := c.put(|inner|);
    MessageEmits(c, Sizing, fields, slots);
    WriteEmits(s, size);
    EmitTwice(s, size, inner);
    if Emit(s, size).Done? {
      var t := Emit(s, size).stream;
      if !t.sizing && t.written + |inner| <= t.max {
        MessageEmits(c, Stream(false, t.out, 0, |inner|), fields, slots);
      }
    }
  }

  lemma {:induction false} TaggedEmits(c: Codec, s: Stream, f: Field, v: Value)
    requires Lawful(c) && s.Open() && Fits(f.kind, v)
    ensures EncodeTagged(c, s, f, v) == Emit(s, TaggedWire(c, f, v))
    decreases v, 1
  {
    var tag := Tag(c, f.tag, WireType(f.kind));
    WriteEmits(s, tag);
    EmitTwice(s, tag, ValueWire(c, f.kind, v));
    if Emit(s, tag).Done? { ValueEmits(c, Emit(s, tag).stream, f.kind, v); }
  }

  lemma {:induction false} ArrayEmits(c: Codec, s: Stream, f: Field, vs: seq<Value>)
    requires Lawful(c) && s.Open() && forall i :: 0 <= i < |vs| ==> Fits(f.kind, vs[i])
    ensures EncodeArray(c, s, f, vs) == Emit(s, ArrayWire(c, f, vs))
    decreases vs
  {
    if vs == [] {
      EmitNothing(s);
    } else {
      var first := TaggedWire(c, f, vs[0]);
      TaggedEmits(c, s, f, vs[0]);
      EmitTwice(s, first, ArrayWire(c, f, vs[1..]));
      if Emit(s, first).Done? { ArrayEmits(c, Emit(s, first).stream, f, vs[1..]); }
    }
  }

  lemma {:induction false} FieldEmits(c: Codec, s: Stream, f: Field, slot: Slot)
    requires Lawful(c) && s.Open() && SlotFits(f, slot)
    ensures EncodeField(c, s, f, slot) == Emit(s, SlotWire(c, f, slot))
    decreases slot
  {
    EmitNothing(s);
    match f.rule
    case Required => TaggedEmits(c, s, f, slot.value);
    case Singular => TaggedEmits(c, s, f, slot.value);
    case Optional => if slot.option.Some? { TaggedEmits(c, s, f, slot.option.value); }
    case OneOf(_) => if slot.option.Some? { TaggedEmits(c, s, f, slot.option.value); }
    case Repeated(_) =>
      if slot.values == [] {
      } else if Scalar(f.kind) {
        PackedEmits(c, s, f, slot.values);
      } else {
        ArrayEmits(c, s, f, slot.values);
      }
  }

  /**
   pb_encode on any stream: a sizing stream counts exactly the bytes of the wire
   format, a writing stream gets exactly them if they fit and is full otherwise.
   */
  lemma {:induction false} MessageEmits(c: Codec, s: Stream, fields: seq<Field>, slots: seq<Slot>)
    requires Lawful(c) && s.Open() && AllFit(fields, slots)
    ensures EncodeMessage(c, s, fields, slots) == Emit(s, MessageWire(c, fields, slots))
    decreases slots, 0
  {
    if slots == [] {
      EmitNothing(s);
    } else {
      var first := SlotWire(c, fields[0], slots[0]);
      FieldEmits(c, s, fields[0], slots[0]);
      EmitTwice(s, first, MessageWire(c, fields[1..], slots[1..]));
      if Emit(s, first).Done? { MessageEmits(c, Emit(s, first).stream, fields[1..], slots[1..]); }
    }
  }

  /** "submsg size changed" does not happen: pb_encode only fails for want of room. */
  lemma SizeNeverChanges(c: Codec, s: Stream, fields: seq<Field>, slots: seq<Slot>)
    requires Lawful(c) && s.Open() && AllFit(fields, slots)
    ensures EncodeMessage(c, s, fields, slots) != SizeChanged && EncodeSubmessage(c, s, fields, slots) != SizeChanged
    ensures EncodeMessage(c, s, fields, slots) == StreamFull <==> !s.sizing && s.max < s.written + |MessageWire(c, fields, slots)|
  {
    MessageEmits(c, s, fields, slots);
    SubmessageEmits(c, s, fields, slots);
  }

  /** pb_get_encoded_size tells how large a buffer pb_encode needs, to the byte. */
  lemma SizingPredictsWriting(c: Codec, fields: seq<Field>, slots: seq<Slot>, max: nat)
    requires Lawful(c) && AllFit(fields, slots)
    ensures EncodeMessage(c, Sizing, fields, slots).Done?
    ensures var size := EncodeMessage(c, Sizing, fields, slots).stream.written;
      EncodeMessage(c, Stream(false, [], 0, max), fields, slots)
      == if size <= max then Done(Stream(false, MessageWire(c, fields, slots), size, max)) else StreamFull
  {
    MessageEmits(c, Sizing, fields, slots);
    MessageEmits(c, Stream(false, [], 0, max), fields, slots);
    assert [] + MessageWire(c, fields, slots) == MessageWire(c, fields, slots);
  }
}
