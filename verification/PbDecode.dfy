/** The nanopb decoder (pb_decode.c): tags, fields, substreams, defaults and required fields. */
module PbDecode {
  import opened Options
  import opened Coding
  import opened PbTypes

  const kMaxRequiredFields: nat := 64

  // ----- pb_message_set_to_defaults -----

  function DefaultValue(kind: Kind): Value
    decreases kind
  {
    match kind
    case ByteString(_) => Blob([])
    case Text(_) => Blob([])
    case Message(fields) => Sub(DefaultSlots(fields))
    case _ => Number(0)
  }

  function DefaultSlot(f: Field): Slot
    decreases f
  {
    match f.rule
    case Required => One(DefaultValue(f.kind))
    case Singular => One(DefaultValue(f.kind))
    case Optional => Maybe(None)
    case OneOf(_) => Maybe(None)
    case Repeated(_) => Many([])
  }

  function DefaultSlots(fields: seq<Field>): (slots: seq<Slot>)
    ensures |slots| == |fields|
    decreases fields
  {
    if fields == [] then [] else [DefaultSlot(fields[0])] + DefaultSlots(fields[1..])
  }

  lemma {:induction false} DefaultSlotsAt(fields: seq<Field>, i: nat)
    requires i < |fields|
    ensures DefaultSlots(fields)[i] == DefaultSlot(fields[i])
    decreases |fields|
  {
    if i > 0 { DefaultSlotsAt(fields[1..], i - 1); }
  }

  /** A slot of the right form for its field. */
  predicate SlotShaped(f: Field, s: Slot) {
    match f.rule
    case Required => s.One?
    case Singular => s.One?
    case Optional => s.Maybe?
    case OneOf(_) => s.Maybe?
    case Repeated(_) => s.Many?
  }

  predicate Shaped(fields: seq<Field>, slots: seq<Slot>) {
    |slots| == |fields| && forall i :: 0 <= i < |fields| ==> SlotShaped(fields[i], slots[i])
  }

  lemma DefaultsAreShaped(fields: seq<Field>)
    ensures Shaped(fields, DefaultSlots(fields))
  {
    forall i | 0 <= i < |fields| ensures SlotShaped(fields[i], DefaultSlots(fields)[i]) { DefaultSlotsAt(fields, i); }
  }

  /** What a submessage is decoded into. */
  function SubSlots(fields: seq<Field>, v: Value): (slots: seq<Slot>)
    ensures Shaped(fields, slots)
  {
    DefaultsAreShaped(fields);
    if v.Sub? && Shaped(fields, v.slots) then v.slots else DefaultSlots(fields)
  }

  // ----- pb_skip_field -----

  function Skip(b: Bytes, n: nat): (r: Option<Bytes>)
    ensures r.Some? ==> |r.value| <= |b|
  {
    if |b| < n then None else Some(b[n..])
  }

  function SkipField(c: Codec, wireType: nat, b: Bytes): (r: Option<Bytes>)
    requires Consumes(c)
    ensures r.Some? ==> |r.value| <= |b|
  {
    if wireType == 0 then SkipVarint(b)
    else if wireType == 1 then Skip(b, 8)
    else if wireType == 2 then
      var size := c.take32(b);
      if size == None then None else Skip(size.value.1, size.value.0)
    else if wireType == 5 then Skip(b, 4)
    else None
  }

  // ----- one value -----

  /** A length and a substream of that length (pb_make_string_substream). */
  function TakeDelimited(c: Codec, b: Bytes): (r: Option<(Bytes, Bytes)>)
    requires Consumes(c)
    ensures r.Some? ==> |r.value.0| + |r.value.1| < |b|
  {
    match c.take32(b)
    case None => None
    case Some((size, rest)) => if 0 <= size <= |rest| then Some((rest[..size], rest[size..])) else None
  }

  function DecodeScalar(c: Codec, kind: Kind, b: Bytes): (r: Option<(Value, Bytes)>)
    requires Consumes(c) && Scalar(kind)
    ensures r.Some? ==> |r.value.1| < |b|
  {
    var u := if kind.Bool? then c.take32(b) else if kind.Fixed32? then c.take4(b) else if kind.Fixed64? then c.take8(b) else c.take64(b);
    if u == None || u.value.0 < 0 then None
    else
      var n := Unraw(kind, u.value.0);
      if n == None then None else Some((Number(n.value), u.value.1))
  }

  function DecodeValue(c: Codec, kind: Kind, old_: Value, b: Bytes): (r: Option<(Value, Bytes)>)
    requires Consumes(c)
    ensures r.Some? ==> |r.value.1| < |b|
    decreases |b|, 0
  {
    if Scalar(kind) then DecodeScalar(c, kind, b)
    else
      match TakeDelimited(c, b)
      case None => None
      case Some((inner, rest)) =>
        (match kind
         case ByteString(max) => if |inner| <= max then Some((Blob(inner), rest)) else None
         case Text(max) => if |inner| < max then Some((Blob(inner), rest)) else None
         case Message(fields) =>
           (match DecodeMessage(c, fields, SubSlots(fields, old_), inner)
            case None => None
            case Some(slots) => Some((Sub(slots), rest)))
         case _ => None)
  }

  // ----- one field -----

  /** The loop over a packed array: what does not fit is an error. */
  function DecodePacked(c: Codec, kind: Kind, values: seq<Value>, b: Bytes, max: nat): Option<seq<Value>>
    requires Consumes(c) && Scalar(kind)
    decreases |b|
  {
    if b == [] then Some(values)
    else if |values| >= max then None
    else
      match DecodeScalar(c, kind, b)
      case None => None
      case Some((v, rest)) => DecodePacked(c, kind, values + [v], rest, max)
  }

  function ClearGroup(fields: seq<Field>, slots: seq<Slot>, group: nat): (r: seq<Slot>)
    requires Shaped(fields, slots)
    ensures Shaped(fields, r)
  {
    seq(|slots|, i requires 0 <= i < |slots| => if fields[i].rule == OneOf(group) then Maybe(None) else slots[i])
  }

  /** decode_static_field. */
  function DecodeField(c: Codec, fields: seq<Field>, slots: seq<Slot>, i: nat, wireType: nat, b: Bytes): (r: Option<(seq<Slot>, Bytes)>)
    requires Consumes(c) && Shaped(fields, slots) && i < |fields|
    ensures r.Some? ==> |r.value.1| < |b| && Shaped(fields, r.value.0)
    decreases |b|, 1
  {
    var f := fields[i];
    assert SlotShaped(f, slots[i]);
    match f.rule
    case Repeated(max) =>
      if wireType == 2 && Scalar(f.kind) then
        (match TakeDelimited(c, b)
         case None => None
         case Some((inner, rest)) =>
           (match DecodePacked(c, f.kind, slots[i].values, inner, max)
            case None => None
            case Some(values) => Some((slots[i := Many(values)], rest))))
      else if |slots[i].values| >= max then None
      else
        (match DecodeValue(c, f.kind, DefaultValue(f.kind), b)
         case None => None
         case Some((v, rest)) => Some((slots[i := Many(slots[i].values + [v])], rest)))
    case OneOf(group) =>
      var old_ := if slots[i].option.Some? then slots[i].option.value else DefaultValue(f.kind);
      (match DecodeValue(c, f.kind, old_, b)
       case None => None
       case Some((v, rest)) => Some((ClearGroup(fields, slots, group)[i := Maybe(Some(v))], rest)))
    case Optional =>
      var old_ := if slots[i].option.Some? then slots[i].option.value else DefaultValue(f.kind);
      (match DecodeValue(c, f.kind, old_, b)
       case None => None
       case Some((v, rest)) => Some((slots[i := Maybe(Some(v))], rest)))
    case _ =>
      (match DecodeValue(c, f.kind, slots[i].value, b)
       case None => None
       case Some((v, rest)) => Some((slots[i := One(v)], rest)))
  }

  // ----- one message -----

  /** pb_field_iter_find. */
  function Find(fields: seq<Field>, tag: nat): (r: Option<nat>)
    ensures r.Some? ==> r.value < |fields| && fields[r.value].tag == tag
    ensures r.None? ==> forall i :: 0 <= i < |fields| ==> fields[i].tag != tag
  {
    if fields == [] then None
    else if fields[0].tag == tag then Some(0)
    else
      var r := Find(fields[1..], tag);
      if r == None then None else Some(r.value + 1)
  }

  /** How many required fields come before field `i`. */
  function RequiredBefore(fields: seq<Field>, i: nat): nat
    requires i <= |fields|
  {
    if i == 0 then 0 else RequiredBefore(fields, i - 1) + if fields[i - 1].rule == Required then 1 else 0
  }

  /** The check at the end of pb_decode_noinit: only the first 64 required fields are tracked. */
  predicate RequiredSeen(fields: seq<Field>, seen: set<nat>) {
    forall i :: 0 <= i < |fields| && fields[i].rule == Required && RequiredBefore(fields, i) < kMaxRequiredFields ==> i in seen
  }

  /** The loop of pb_decode_noinit; a zero tag ends the message. */
  function DecodeLoop(c: Codec, fields: seq<Field>, slots: seq<Slot>, seen: set<nat>, b: Bytes): (r: Option<(seq<Slot>, set<nat>)>)
    requires Consumes(c) && Shaped(fields, slots)
    ensures r.Some? ==> Shaped(fields, r.value.0)
    decreases |b|, 2
  {
    if b == [] then Some((slots, seen))
    else
      match c.take32(b)
      case None => None
      case Some((key, rest)) =>
        if key <= 0 then Some((slots, seen))
        else
          var wireType: nat := key % 8;
          (match Find(fields, key / 8)
           case None =>
             (match SkipField(c, wireType, rest)
              case None => None
              case Some(after) => DecodeLoop(c, fields, slots, seen, after))
           case Some(i) =>
             (match DecodeField(c, fields, slots, i, wireType, rest)
              case None => None
              case Some((slots', after)) => DecodeLoop(c, fields, slots', seen + {i}, after)))
  }

  /** pb_decode_noinit. */
  function DecodeMessage(c: Codec, fields: seq<Field>, slots: seq<Slot>, b: Bytes): (r: Option<seq<Slot>>)
    requires Consumes(c) && Shaped(fields, slots)
    decreases |b|, 3
  {
    match DecodeLoop(c, fields, slots, {}, b)
    case None => None
    case Some((slots', seen)) => if RequiredSeen(fields, seen) then Some(slots') else None
  }

  /** pb_decode. */
  function Decode(c: Codec, fields: seq<Field>, b: Bytes): Option<seq<Slot>>
    requires Consumes(c)
  {
    DefaultsAreShaped(fields);
    DecodeMessage(c, fields, DefaultSlots(fields), b)
  }
}
