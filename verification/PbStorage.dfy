/**
 Whatever bytes the nanopb decoder is given, what it returns fits in the message struct:
 arrays and strings within their static sizes, numbers within their width, and at most one
 member of every oneof.
 */
module PbStorage {
  import opened Options
  import opened Coding
  import opened PbTypes
  import opened PbDecode
  import opened PbVarint

  /** A descriptor that the generator emits. */
  ghost predicate Declared(fields: seq<Field>)
    decreases fields
  {
    forall i :: 0 <= i < |fields| ==> DeclaredField(fields[i])
  }

  ghost predicate DeclaredField(f: Field)
    decreases f
  {
    DeclaredKind(f.kind)
  }

  ghost predicate DeclaredKind(kind: Kind)
    decreases kind
  {
    match kind
    case Varint(size) => ValidSize(size)
    case UVarint(size) => ValidSize(size)
    case SVarint(size) => ValidSize(size)
    case Text(max) => max > 0
    case Message(fields) => Declared(fields)
    case _ => true
  }

  ghost predicate Stored(kind: Kind, v: Value)
    decreases v
  {
    match kind
    case ByteString(max) => v.Blob? && |v.bytes| <= max
    case Text(max) => v.Blob? && |v.bytes| < max
    case Message(fields) => v.Sub? && AllStored(fields, v.slots)
    case _ => v.Number? && InRange(kind, v.n)
  }

  ghost predicate SlotStored(f: Field, s: Slot)
    decreases s
  {
    match f.rule
    case Required => s.One? && Stored(f.kind, s.value)
    case Singular => s.One? && Stored(f.kind, s.value)
    case Optional => s.Maybe? && (s.option.Some? ==> Stored(f.kind, s.option.value))
    case OneOf(_) => s.Maybe? && (s.option.Some? ==> Stored(f.kind, s.option.value))
    case Repeated(max) => s.Many? && |s.values| <= max && (forall i :: 0 <= i < |s.values| ==> Stored(f.kind, s.values[i]))
  }

  ghost predicate AllStored(fields: seq<Field>, slots: seq<Slot>)
    decreases slots
  {
    && |slots| == |fields|
    && (forall i :: 0 <= i < |fields| ==> SlotStored(fields[i], slots[i]))
    && AtMostOne(fields, slots)
  }

  ghost predicate AtMostOne(fields: seq<Field>, slots: seq<Slot>)
    requires |slots| == |fields|
  {
    forall i, j :: 0 <= i < j < |fields| && fields[i].rule.OneOf? && fields[i].rule == fields[j].rule ==>
      slots[i] == Maybe(None) || slots[j] == Maybe(None)
  }

  // ----- numbers -----

  /** Fixed-width numbers have their width. */
  ghost predicate Bounded(c: Codec) {
    && (forall b :: c.take4(b).Some? ==> c.take4(b).value.0 < Two32)
    && (forall b :: c.take8(b).Some? ==> c.take8(b).value.0 < Two64)
  }

  lemma {:induction false} FixedBound(b: Bytes, n: nat)
    requires n <= |b|
    ensures GetFixed(b, n) < Power256(n)
    decreases n
  {
    if n > 0 { FixedBound(b[1..], n - 1); }
  }

  lemma RealIsBounded()
    ensures Bounded(Real)
  {
    assert Power256(4) == Two32;
    assert Power256(8) == 256 * 256 * 256 * 256 * Power256(4);
    forall b: Bytes | Real.take4(b).Some? ensures Real.take4(b).value.0 < Two32 { FixedBound(b, 4); }
    forall b: Bytes | Real.take8(b).Some? ensures Real.take8(b).value.0 < Two64 { FixedBound(b, 8); }
  }

  lemma ScalarStored(c: Codec, kind: Kind, b: Bytes)
    requires Consumes(c) && Bounded(c) && Scalar(kind)
    ensures DecodeScalar(c, kind, b).Some? ==> Stored(kind, DecodeScalar(c, kind, b).value.0)
  {
  }

  // ----- defaults -----

  lemma {:induction false} DefaultStored(kind: Kind)
    requires DeclaredKind(kind)
    ensures Stored(kind, DefaultValue(kind))
    decreases kind
  {
    if kind.Message? { DefaultsStored(kind.fields); }
  }

  lemma {:induction false} DefaultsStored(fields: seq<Field>)
    requires Declared(fields)
    ensures AllStored(fields, DefaultSlots(fields))
    decreases fields
  {
    forall i | 0 <= i < |fields| ensures DefaultSlots(fields)[i] == DefaultSlot(fields[i]) && SlotStored(fields[i], DefaultSlots(fields)[i]) {
      DefaultSlotsAt(fields, i);
      assert DeclaredField(fields[i]);
      DefaultSlotStored(fields[i]);
    }
  }

  lemma {:induction false} DefaultSlotStored(f: Field)
    requires DeclaredField(f)
    ensures SlotStored(f, DefaultSlot(f))
    decreases f
  {
    DefaultStored(f.kind);
  }

  lemma StoredIsShaped(fields: seq<Field>, slots: seq<Slot>)
    requires AllStored(fields, slots)
    ensures Shaped(fields, slots)
  {
    forall i | 0 <= i < |fields| ensures SlotShaped(fields[i], slots[i]) { assert SlotStored(fields[i], slots[i]); }
  }

  // ----- values and fields -----

  lemma {:induction false} ValueStored(c: Codec, kind: Kind, old_: Value, b: Bytes)
    requires Consumes(c) && Bounded(c) && DeclaredKind(kind) && Stored(kind, old_)
    ensures DecodeValue(c, kind, old_, b).Some? ==> Stored(kind, DecodeValue(c, kind, old_, b).value.0)
    decreases |b|, 0
  {
    if Scalar(kind) {
      ScalarStored(c, kind, b);
    } else if kind.Message? && TakeDelimited(c, b).Some? {
      StoredIsShaped(kind.fields, old_.slots);
      MessageStored(c, kind.fields, old_.slots, TakeDelimited(c, b).value.0);
    }
  }

  lemma {:induction false} PackedStored(c: Codec, kind: Kind, values: seq<Value>, b: Bytes, max: nat)
    requires Consumes(c) && Bounded(c) && Scalar(kind) && |values| <= max && forall i :: 0 <= i < |values| ==> Stored(kind, values[i])
    ensures var r := DecodePacked(c, kind, values, b, max);
      r.Some? ==> |r.value| <= max && forall i :: 0 <= i < |r.value| ==> Stored(kind, r.value[i])
    decreases |b|
  {
    if b != [] && |values| < max && DecodeScalar(c, kind, b).Some? {
      var (v, rest) := DecodeScalar(c, kind, b).value;
      ScalarStored(c, kind, b);
      PackedStored(c, kind, values + [v], rest, max);
    }
  }

  /** A slot takes the place of one that is stored. */
  lemma Placed(fields: seq<Field>, slots: seq<Slot>, i: nat, s: Slot)
    requires AllStored(fields, slots) && i < |fields| && SlotStored(fields[i], s) && !fields[i].rule.OneOf?
    ensures AllStored(fields, slots[i := s])
  {
  }

  lemma PlacedInGroup(fields: seq<Field>, slots: seq<Slot>, i: nat, s: Slot)
    requires AllStored(fields, slots) && Shaped(fields, slots) && i < |fields| && SlotStored(fields[i], s) && fields[i].rule.OneOf?
    ensures AllStored(fields, ClearGroup(fields, slots, fields[i].rule.group)[i := s])
  {
    var cleared := ClearGroup(fields, slots, fields[i].rule.group);
    forall j | 0 <= j < |fields| ensures SlotStored(fields[j], cleared[j]) { assert SlotStored(fields[j], slots[j]); }
  }

  lemma {:induction false} FieldStored(c: Codec, fields: seq<Field>, slots: seq<Slot>, i: nat, wireType: nat, b: Bytes)
    requires Consumes(c) && Bounded(c) && Declared(fields) && AllStored(fields, slots) && Shaped(fields, slots) && i < |fields|
    ensures DecodeField(c, fields, slots, i, wireType, b).Some? ==> AllStored(fields, DecodeField(c, fields, slots, i, wireType, b).value.0)
    decreases |b|, 1
  {
    var f, r := fields[i], DecodeField(c, fields, slots, i, wireType, b);
    assert DeclaredField(f) && SlotStored(f, slots[i]) && SlotShaped(f, slots[i]);
    DefaultStored(f.kind);
    if f.rule.Repeated? && wireType == 2 && Scalar(f.kind) {
      if TakeDelimited(c, b).Some? { PackedStored(c, f.kind, slots[i].values, TakeDelimited(c, b).value.0, f.rule.max); }
    } else {
      ValueStored(c, f.kind, Before(f, slots[i]), b);
    }
    if r.Some? {
      var s := r.value.0[i];
      if f.rule.OneOf? { PlacedInGroup(fields, slots, i, s); } else { Placed(fields, slots, i, s); }
    }
  }

  /** What a value is decoded over. */
  function Before(f: Field, s: Slot): Value {
    match s
    case One(v) => v
    case Maybe(o) => if o.Some? then o.value else DefaultValue(f.kind)
    case Many(_) => DefaultValue(f.kind)
  }

  // ----- messages -----

  lemma {:induction false} LoopStored(c: Codec, fields: seq<Field>, slots: seq<Slot>, seen: set<nat>, b: Bytes)
    requires Consumes(c) && Bounded(c) && Declared(fields) && AllStored(fields, slots) && Shaped(fields, slots)
    ensures DecodeLoop(c, fields, slots, seen, b).Some? ==> AllStored(fields, DecodeLoop(c, fields, slots, seen, b).value.0)
    decreases |b|, 2
  {
    if b != [] && c.take32(b).Some? {
      var (key, rest) := c.take32(b).value;
      if key > 0 {
        var wireType: nat := key % 8;
        match Find(fields, key / 8)
        case None =>
          if SkipField(c, wireType, rest).Some? { LoopStored(c, fields, slots, seen, SkipField(c, wireType, rest).value); }
        case Some(i) =>
          FieldStored(c, fields, slots, i, wireType, rest);
          var r := DecodeField(c, fields, slots, i, wireType, rest);
          if r.Some? { LoopStored(c, fields, r.value.0, seen + {i}, r.value.1); }
      }
    }
  }

  lemma {:induction false} MessageStored(c: Codec, fields: seq<Field>, slots: seq<Slot>, b: Bytes)
    requires Consumes(c) && Bounded(c) && Declared(fields) && AllStored(fields, slots) && Shaped(fields, slots)
    ensures DecodeMessage(c, fields, slots, b).Some? ==> AllStored(fields, DecodeMessage(c, fields, slots, b).value)
    decreases |b|, 3
  {
    LoopStored(c, fields, slots, {}, b);
  }

  /** For any bytes: what pb_decode accepts fits in the message struct. */
  lemma DecodedFits(fields: seq<Field>, b: Bytes)
    requires Declared(fields)
    ensures Consumes(Real)
    ensures Decode(Real, fields, b).Some? ==> AllStored(fields, Decode(Real, fields, b).value)
  {
    RealIsLawful();
    RealIsBounded();
    DefaultsAreShaped(fields);
    DefaultsStored(fields);
    MessageStored(Real, fields, DefaultSlots(fields), b);
  }
}
