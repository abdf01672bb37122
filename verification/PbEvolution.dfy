/**
 Reading a message with another description than it was written with: what the reader
 does not know is skipped, what the writer did not know is default, and the rest is restored.
 */
module PbEvolution {
  import opened Options
  import opened Coding
  import opened PbTypes
  import opened PbDecode

  // ----- two descriptions of a message -----

  /** A field that both know has the same rule and kind; so in every submessage. */
  ghost predicate Evolves(w: seq<Field>, r: seq<Field>)
    decreases w
  {
    forall i, j :: 0 <= i < |w| && 0 <= j < |r| && w[i].tag == r[j].tag ==> SameField(w[i], r[j])
  }

  ghost predicate SameField(f: Field, g: Field)
    decreases f
  {
    f.tag == g.tag && f.rule == g.rule && SameKind(f.kind, g.kind)
  }

  ghost predicate SameKind(k: Kind, l: Kind)
    decreases k
  {
    if k.Message? then l.Message? && Evolves(k.fields, l.fields) else l == k
  }

  // ----- what the reader gets -----

  /** The written slots that the reader knows, and defaults for the other fields. */
  ghost function Reread(w: seq<Field>, r: seq<Field>, slots: seq<Slot>): (q: seq<Slot>)
    requires AllFit(w, slots) && Evolves(w, r)
    ensures |q| == |r|
    decreases slots
  {
    seq(|r|, j requires 0 <= j < |r| =>
      match Find(w, r[j].tag) case None => DefaultSlot(r[j]) case Some(i) => RereadSlot(w[i], r[j], slots[i]))
  }

  ghost function RereadSlot(f: Field, g: Field, s: Slot): Slot
    requires SlotFits(f, s) && SameField(f, g)
    decreases s
  {
    match s
    case One(v) => One(RereadValue(f.kind, g.kind, v))
    case Maybe(o) => if o == None then s else Maybe(Some(RereadValue(f.kind, g.kind, o.value)))
    case Many(vs) => Many(RereadAll(f.kind, g.kind, vs))
  }

  ghost function RereadAll(k: Kind, l: Kind, vs: seq<Value>): (q: seq<Value>)
    requires SameKind(k, l) && forall i :: 0 <= i < |vs| ==> Fits(k, vs[i])
    ensures |q| == |vs|
    decreases vs
  {
    seq(|vs|, i requires 0 <= i < |vs| => RereadValue(k, l, vs[i]))
  }

  ghost function RereadValue(k: Kind, l: Kind, v: Value): Value
    requires Fits(k, v) && SameKind(k, l)
    decreases v
  {
    if v.Sub? then Sub(Reread(k.fields, l.fields, v.slots)) else v
  }

  // ----- when the reader accepts -----

  /** The required fields in front of field `j`. */
  ghost function RequiredInFront(r: seq<Field>, j: nat): set<nat>
    requires j <= |r|
  {
    set i: nat | i < j && r[i].rule == Required
  }

  lemma {:induction false} RequiredAreCounted(r: seq<Field>, j: nat)
    requires j <= |r|
    ensures RequiredBefore(r, j) == |RequiredInFront(r, j)|
  {
    if j > 0 {
      RequiredAreCounted(r, j - 1);
      assert RequiredInFront(r, j) == RequiredInFront(r, j - 1) + if r[j - 1].rule == Required then {j - 1} else {};
    }
  }

  /** The writer knows every required field that the reader tracks: the first 64. */
  ghost predicate RequiredKnown(w: seq<Field>, r: seq<Field>) {
    forall j :: 0 <= j < |r| && r[j].rule == Required && |RequiredInFront(r, j)| < 64 ==> Find(w, r[j].tag).Some?
  }

  /** In the message and in every submessage that is written. */
  ghost predicate Readable(w: seq<Field>, r: seq<Field>, slots: seq<Slot>)
    requires AllFit(w, slots) && Evolves(w, r)
    decreases slots
  {
    RequiredKnown(w, r) && forall i :: 0 <= i < |w| && Find(r, w[i].tag).Some? ==> SlotReadable(w[i], r[Find(r, w[i].tag).value], slots[i])
  }

  ghost predicate SlotReadable(f: Field, g: Field, s: Slot)
    requires SlotFits(f, s) && SameField(f, g)
    decreases s
  {
    match s
    case One(v) => (f.rule == Singular && IsDefault(f.kind, v)) || ValueReadable(f.kind, g.kind, v)
    case Maybe(o) => o.Some? ==> ValueReadable(f.kind, g.kind, o.value)
    case Many(vs) => AllReadable(f.kind, g.kind, vs)
  }

  ghost predicate AllReadable(k: Kind, l: Kind, vs: seq<Value>)
    requires SameKind(k, l) && forall i :: 0 <= i < |vs| ==> Fits(k, vs[i])
    decreases vs
  {
    forall i :: 0 <= i < |vs| ==> ValueReadable(k, l, vs[i])
  }

  ghost predicate ValueReadable(k: Kind, l: Kind, v: Value)
    requires Fits(k, v) && SameKind(k, l)
    decreases v
  {
    v.Sub? ==> Readable(k.fields, l.fields, v.slots)
  }

  // ----- defaults -----

  /** A default that was not written is the default of the reader. */
  lemma {:induction false} RereadDefault(k: Kind, l: Kind, v: Value)
    requires Fits(k, v) && SameKind(k, l) && IsDefault(k, v)
    ensures RereadValue(k, l, v) == DefaultValue(l)
    decreases v
  {
    if v.Sub? { RereadDefaults(k.fields, l.fields, v.slots); }
  }

  lemma {:induction false} RereadDefaults(w: seq<Field>, r: seq<Field>, slots: seq<Slot>)
    requires AllFit(w, slots) && Evolves(w, r) && AllDefault(w, slots)
    ensures Reread(w, r, slots) == DefaultSlots(r)
    decreases slots
  {
    forall j | 0 <= j < |r| ensures Reread(w, r, slots)[j] == DefaultSlots(r)[j] {
      DefaultSlotsAt(r, j);
      var i := Find(w, r[j].tag);
      if i.Some? { RereadDefaultSlot(w[i.value], r[j], slots[i.value]); }
    }
  }

  lemma {:induction false} RereadDefaultSlot(f: Field, g: Field, s: Slot)
    requires SlotFits(f, s) && SameField(f, g) && SlotIsDefault(f, s)
    ensures RereadSlot(f, g, s) == DefaultSlot(g)
    decreases s
  {
    if f.rule == Singular { RereadDefault(f.kind, g.kind, s.value); }
  }

  // ----- values -----

  lemma ScalarRoundTrip(c: Codec, kind: Kind, n: int, tail: Bytes)
    requires Lawful(c) && Scalar(kind) && InRange(kind, n)
    ensures DecodeScalar(c, kind, ScalarWire(c, kind, n) + tail) == Some((Number(n), tail))
  {
    RawRoundTrip(kind, n);
  }

  lemma DelimitedRoundTrip(c: Codec, inner: Bytes, tail: Bytes)
    requires Lawful(c) && |inner| < Two32
    ensures TakeDelimited(c, Delimited(c, inner) + tail) == Some((inner, tail))
  {
    assert Delimited(c, inner) + tail == c.put(|inner|) + (inner + tail);
    assert (inner + tail)[..|inner|] == inner && (inner + tail)[|inner|..] == tail;
  }

  lemma {:induction false} PackedRoundTrip(c: Codec, kind: Kind, before: seq<Value>, vs: seq<Value>, max: nat)
    requires Lawful(c) && Scalar(kind) && |before| + |vs| <= max && forall i :: 0 <= i < |vs| ==> Fits(kind, vs[i])
    ensures DecodePacked(c, kind, before, PackedWire(c, kind, vs), max) == Some(before + vs)
    decreases |vs|
  {
    if vs == [] {
      assert before + vs == before;
    } else {
      assert Fits(kind, vs[0]);
      ScalarRoundTrip(c, kind, vs[0].n, PackedWire(c, kind, vs[1..]));
      ScalarIsSomething(c, kind, vs[0].n);
      PackedRoundTrip(c, kind, before + [vs[0]], vs[1..], max);
      assert before + [vs[0]] + vs[1..] == before + vs;
    }
  }

  lemma ScalarIsSomething(c: Codec, kind: Kind, n: int)
    requires Lawful(c) && InRange(kind, n)
    ensures |ScalarWire(c, kind, n)| > 0
  {
  }

  /** A decoded submessage starts from defaults. */
  ghost predicate StartsDefault(kind: Kind, old_: Value) {
    kind.Message? ==> SubSlots(kind.fields, old_) == DefaultSlots(kind.fields)
  }

  lemma DefaultStarts(kind: Kind)
    ensures StartsDefault(kind, DefaultValue(kind))
  {
    if kind.Message? { DefaultsAreShaped(kind.fields); }
  }

  lemma {:induction false} ValueReread(c: Codec, k: Kind, l: Kind, v: Value, tail: Bytes)
    requires Lawful(c) && Fits(k, v) && SoundValue(k, v) && GoodKind(k) && GoodKind(l) && SameKind(k, l)
    requires |ValueWire(c, k, v)| < Two32
    ensures DecodeValue(c, l, DefaultValue(l), ValueWire(c, k, v) + tail) == if ValueReadable(k, l, v) then Some((RereadValue(k, l, v), tail)) else None
    decreases v, 0
  {
    match v
    case Number(n) => ScalarRoundTrip(c, k, n, tail);
    case Blob(bytes) => DelimitedRoundTrip(c, bytes, tail);
    case Sub(slots) =>
      DefaultStarts(l);
      DelimitedRoundTrip(c, MessageWire(c, k.fields, slots), tail);
      MessageReread(c, k.fields, l.fields, slots);
  }

  /**
   The theorem about unknown and missing fields: the reader gets what it knows, if the
   writer knew all required fields that the reader tracks, and fails otherwise.
   */
  lemma {:induction false} MessageReread(c: Codec, w: seq<Field>, r: seq<Field>, slots: seq<Slot>)
    requires Lawful(c) && AllFit(w, slots) && Sound(w, slots) && GoodFields(w) && GoodFields(r) && Evolves(w, r)
    requires |MessageWire(c, w, slots)| < Two32
    ensures Decode(c, r, MessageWire(c, w, slots)) == if Readable(w, r, slots) then Some(Reread(w, r, slots)) else None
    decreases slots, 6
  {
    var all := MessageThenTail(c, w, r, slots, []);
    assert MessageWire(c, w, slots) + [] == MessageWire(c, w, slots);
  }

  /** The message at the front of a stream: the decoder goes on behind it. */
  lemma {:induction false} MessageThenTail(c: Codec, w: seq<Field>, r: seq<Field>, slots: seq<Slot>, tail: Bytes) returns (all: set<nat>)
    requires Lawful(c) && AllFit(w, slots) && Sound(w, slots) && GoodFields(w) && GoodFields(r) && Evolves(w, r)
    requires |MessageWire(c, w, slots)| < Two32
    ensures RequiredSeen(r, all) <==> RequiredKnown(w, r)
    ensures Shaped(r, DefaultSlots(r))
    ensures var x := if RestReadable(w, r, slots, 0) then Some((Reread(w, r, slots), tail)) else None;
      (x.Some? ==> Shaped(r, x.value.0)) && DecodeLoop(c, r, DefaultSlots(r), {}, MessageWire(c, w, slots) + tail) == Resume(c, r, all, x)
    decreases slots, 5
  {
    DefaultsAreShaped(r);
    assert w[0..] == w && slots[0..] == slots;
    forall j | 0 <= j < |r| ensures DefaultSlots(r)[j] == SlotAt(w, r, slots, j, 0) { DefaultSlotsAt(r, j); }
    all := LoopReread(c, w, r, slots, DefaultSlots(r), {}, 0, tail);
    SeenIsKnown(w, r, all);
  }

  // ----- fields the reader knows -----

  lemma {:induction false} FindUnique(fields: seq<Field>, k: nat)
    requires k < |fields| && forall i, j :: 0 <= i < j < |fields| ==> fields[i].tag != fields[j].tag
    ensures Find(fields, fields[k].tag) == Some(k)
    decreases |fields|
  {
    if k > 0 { FindUnique(fields[1..], k - 1); }
  }

  /** The loop of the decoder goes on after a field, or stops if the field failed. */
  ghost function Resume(c: Codec, r: seq<Field>, seen: set<nat>, x: Option<(seq<Slot>, Bytes)>): Option<(seq<Slot>, set<nat>)>
    requires Consumes(c) && (x.Some? ==> Shaped(r, x.value.0))
  {
    if x == None then None else DecodeLoop(c, r, x.value.0, seen, x.value.1)
  }

  /** The key of a field leads the decoder to it. */
  lemma KeyStep(c: Codec, r: seq<Field>, cur: seq<Slot>, seen: set<nat>, j: nat, wireType: nat, rest: Bytes)
    requires Lawful(c) && GoodFields(r) && Shaped(r, cur) && j < |r| && wireType < 8
    ensures DecodeLoop(c, r, cur, seen, Tag(c, r[j].tag, wireType) + rest) == Resume(c, r, seen + {j}, DecodeField(c, r, cur, j, wireType, rest))
  {
    assert GoodField(r[j]);
    FindUnique(r, j);
    KeyIsTaken(c, r[j].tag, wireType, rest);
  }

  lemma KeyIsTaken(c: Codec, tag: nat, wireType: nat, rest: Bytes)
    requires Lawful(c) && 0 < tag < 0x2000_0000 && wireType < 8
    ensures var key := tag * 8 + wireType;
      && Tag(c, tag, wireType) + rest != [] && c.take32(Tag(c, tag, wireType) + rest) == Some((key, rest))
      && key > 0 && key / 8 == tag && key % 8 == wireType
  {
    var key := tag * 8 + wireType;
    assert c.take32(c.put(key) + rest) == Some((key, rest));
    assert |c.put(key)| > 0;
  }

  /** The slot of a field that is not repeated. */
  function Single(f: Field, v: Value): Slot {
    if f.rule == Required || f.rule == Singular then One(v) else Maybe(Some(v))
  }

  /** No member of the oneof of field `j` is set. */
  ghost predicate GroupClear(r: seq<Field>, cur: seq<Slot>, j: nat)
    requires |cur| == |r| && j < |r|
  {
    forall i :: 0 <= i < |r| && r[j].rule.OneOf? && r[i].rule == r[j].rule ==> cur[i] == Maybe(None)
  }

  /** A field that is not repeated takes the value that was read. */
  lemma FieldTakes(c: Codec, r: seq<Field>, cur: seq<Slot>, j: nat, rest: Bytes)
    requires Consumes(c) && Shaped(r, cur) && j < |r| && !r[j].rule.Repeated? && cur[j] == DefaultSlot(r[j]) && GroupClear(r, cur, j)
    ensures var x := DecodeValue(c, r[j].kind, DefaultValue(r[j].kind), rest);
      DecodeField(c, r, cur, j, WireType(r[j].kind), rest) == if x == None then None else Some((cur[j := Single(r[j], x.value.0)], x.value.1))
  {
    var g := r[j];
    var x := DecodeValue(c, g.kind, DefaultValue(g.kind), rest);
    if g.rule.OneOf? && x.Some? {
      var slot := Single(g, x.value.0);
      assert ClearGroup(r, cur, g.rule.group)[j := slot] == cur[j := slot];
    }
  }

  lemma TaggedParts(c: Codec, f: Field, v: Value, tail: Bytes)
    requires Fits(f.kind, v)
    ensures TaggedWire(c, f, v) + tail == Tag(c, f.tag, WireType(f.kind)) + (ValueWire(c, f.kind, v) + tail)
  {
  }

  /** One tagged value, decoded into a field that is not repeated. */
  lemma {:induction false} TaggedStep(c: Codec, f: Field, r: seq<Field>, cur: seq<Slot>, seen: set<nat>, j: nat, v: Value, tail: Bytes)
    requires Lawful(c) && GoodField(f) && GoodFields(r) && Shaped(r, cur) && j < |r| && SameField(f, r[j]) && !f.rule.Repeated?
    requires Fits(f.kind, v) && SoundValue(f.kind, v) && |ValueWire(c, f.kind, v)| < Two32
    requires cur[j] == DefaultSlot(r[j]) && GroupClear(r, cur, j)
    ensures var x := if ValueReadable(f.kind, r[j].kind, v) then Some((cur[j := Single(r[j], RereadValue(f.kind, r[j].kind, v))], tail)) else None;
      (x.Some? ==> Shaped(r, x.value.0)) && DecodeLoop(c, r, cur, seen, TaggedWire(c, f, v) + tail) == Resume(c, r, seen + {j}, x)
    decreases v, 2
  {
    var rest := ValueWire(c, f.kind, v) + tail;
    assert GoodField(r[j]);
    ValueReread(c, f.kind, r[j].kind, v, tail);
    FieldTakes(c, r, cur, j, rest);
    KeyStep(c, r, cur, seen, j, WireType(f.kind), rest);
    TaggedParts(c, f, v, tail);
  }

  /** One element of an array that is not packed. */
  lemma {:induction false} ElementStep(c: Codec, f: Field, r: seq<Field>, cur: seq<Slot>, seen: set<nat>, j: nat, v: Value, tail: Bytes, before: seq<Value>)
    requires Lawful(c) && GoodField(f) && GoodFields(r) && Shaped(r, cur) && j < |r| && SameField(f, r[j])
    requires f.rule.Repeated? && !Scalar(f.kind) && |before| < f.rule.max && cur[j] == Many(before)
    requires Fits(f.kind, v) && SoundValue(f.kind, v) && |ValueWire(c, f.kind, v)| < Two32
    ensures var x := if ValueReadable(f.kind, r[j].kind, v) then Some((cur[j := Many(before + [RereadValue(f.kind, r[j].kind, v)])], tail)) else None;
      (x.Some? ==> Shaped(r, x.value.0)) && DecodeLoop(c, r, cur, seen, TaggedWire(c, f, v) + tail) == Resume(c, r, seen + {j}, x)
    decreases v, 1
  {
    var rest := ValueWire(c, f.kind, v) + tail;
    assert GoodField(r[j]);
    ValueReread(c, f.kind, r[j].kind, v, tail);
    KeyStep(c, r, cur, seen, j, WireType(f.kind), rest);
    TaggedParts(c, f, v, tail);
  }

  /** All elements of such an array. */
  lemma {:induction false} ArrayStep(c: Codec, f: Field, r: seq<Field>, cur: seq<Slot>, seen: set<nat>, j: nat, vs: seq<Value>, tail: Bytes, before: seq<Value>) returns (seen': set<nat>)
    requires Lawful(c) && GoodField(f) && GoodFields(r) && Shaped(r, cur) && j < |r| && SameField(f, r[j])
    requires f.rule.Repeated? && !Scalar(f.kind) && |before| + |vs| <= f.rule.max && cur[j] == Many(before)
    requires forall i :: 0 <= i < |vs| ==> Fits(f.kind, vs[i]) && SoundValue(f.kind, vs[i])
    requires |ArrayWire(c, f, vs)| < Two32
    ensures seen <= seen' <= seen + {j}
    ensures var x := if AllReadable(f.kind, r[j].kind, vs) then Some((cur[j := Many(before + RereadAll(f.kind, r[j].kind, vs))], tail)) else None;
      (x.Some? ==> Shaped(r, x.value.0)) && DecodeLoop(c, r, cur, seen, ArrayWire(c, f, vs) + tail) == Resume(c, r, seen', x)
    decreases vs, 0
  {
    var k, l := f.kind, r[j].kind;
    if vs == [] {
      assert before + RereadAll(k, l, vs) == before && cur[j := Many(before)] == cur && [] + tail == tail;
      seen' := seen;
    } else {
      var v := RereadValue(k, l, vs[0]);
      ArrayUnfold(c, f, vs, tail);
      ElementStep(c, f, r, cur, seen, j, vs[0], ArrayWire(c, f, vs[1..]) + tail, before);
      if ValueReadable(k, l, vs[0]) {
        seen' := ArrayStep(c, f, r, cur[j := Many(before + [v])], seen + {j}, j, vs[1..], tail, before + [v]);
        RereadRest(k, l, vs, before);
        assert cur[j := Many(before + [v])][j := Many(before + RereadAll(k, l, vs))] == cur[j := Many(before + RereadAll(k, l, vs))];
      } else {
        seen' := seen;
      }
    }
  }

  lemma ArrayUnfold(c: Codec, f: Field, vs: seq<Value>, tail: Bytes)
    requires vs != [] && forall i :: 0 <= i < |vs| ==> Fits(f.kind, vs[i])
    ensures ArrayWire(c, f, vs) + tail == TaggedWire(c, f, vs[0]) + (ArrayWire(c, f, vs[1..]) + tail)
    ensures |ArrayWire(c, f, vs)| >= |ValueWire(c, f.kind, vs[0])| + |ArrayWire(c, f, vs[1..])|
  {
  }

  lemma RereadRest(k: Kind, l: Kind, vs: seq<Value>, before: seq<Value>)
    requires SameKind(k, l) && vs != [] && forall i :: 0 <= i < |vs| ==> Fits(k, vs[i])
    ensures before + [RereadValue(k, l, vs[0])] + RereadAll(k, l, vs[1..]) == before + RereadAll(k, l, vs)
    ensures AllReadable(k, l, vs) <==> ValueReadable(k, l, vs[0]) && AllReadable(k, l, vs[1..])
  {
    if AllReadable(k, l, vs[1..]) && ValueReadable(k, l, vs[0]) {
      forall i | 0 <= i < |vs| ensures ValueReadable(k, l, vs[i]) {
        if i > 0 { assert vs[i] == vs[1..][i - 1]; }
      }
    }
  }

  lemma PackedField(c: Codec, r: seq<Field>, cur: seq<Slot>, j: nat, vs: seq<Value>, tail: Bytes)
    requires Lawful(c) && Shaped(r, cur) && j < |r|
    requires r[j].rule.Repeated? && Scalar(r[j].kind) && |vs| <= r[j].rule.max && cur[j] == Many([])
    requires (forall i :: 0 <= i < |vs| ==> Fits(r[j].kind, vs[i])) && |PackedWire(c, r[j].kind, vs)| < Two32
    ensures DecodeField(c, r, cur, j, 2, Delimited(c, PackedWire(c, r[j].kind, vs)) + tail) == Some((cur[j := Many(vs)], tail))
  {
    DelimitedRoundTrip(c, PackedWire(c, r[j].kind, vs), tail);
    PackedRoundTrip(c, r[j].kind, [], vs, r[j].rule.max);
    assert [] + vs == vs;
  }

  lemma PackedStep(c: Codec, r: seq<Field>, cur: seq<Slot>, seen: set<nat>, j: nat, vs: seq<Value>, tail: Bytes)
    requires Lawful(c) && GoodFields(r) && Shaped(r, cur) && j < |r|
    requires r[j].rule.Repeated? && Scalar(r[j].kind) && |vs| <= r[j].rule.max && cur[j] == Many([])
    requires (forall i :: 0 <= i < |vs| ==> Fits(r[j].kind, vs[i])) && |PackedWire(c, r[j].kind, vs)| < Two32
    ensures Shaped(r, cur[j := Many(vs)])
    ensures DecodeLoop(c, r, cur, seen, Tag(c, r[j].tag, 2) + Delimited(c, PackedWire(c, r[j].kind, vs)) + tail)
         == DecodeLoop(c, r, cur[j := Many(vs)], seen + {j}, tail)
  {
    var packed := PackedWire(c, r[j].kind, vs);
    PackedField(c, r, cur, j, vs, tail);
    KeyStep(c, r, cur, seen, j, 2, Delimited(c, packed) + tail);
    assert Tag(c, r[j].tag, 2) + Delimited(c, packed) + tail == Tag(c, r[j].tag, 2) + (Delimited(c, packed) + tail);
  }

  lemma RereadNumbers(k: Kind, vs: seq<Value>)
    requires Scalar(k) && forall i :: 0 <= i < |vs| ==> Fits(k, vs[i])
    ensures AllReadable(k, k, vs) && RereadAll(k, k, vs) == vs
  {
  }

  lemma {:induction false} RepeatedStep(c: Codec, f: Field, r: seq<Field>, cur: seq<Slot>, seen: set<nat>, j: nat, vs: seq<Value>, tail: Bytes) returns (seen': set<nat>)
    requires Lawful(c) && GoodField(f) && GoodFields(r) && Shaped(r, cur) && j < |r| && SameField(f, r[j]) && f.rule.Repeated? && cur[j] == Many([])
    requires SlotFits(f, Many(vs)) && SoundSlot(f, Many(vs)) && |SlotWire(c, f, Many(vs))| < Two32
    ensures seen <= seen' <= seen + {j}
    ensures var x := if SlotReadable(f, r[j], Many(vs)) then Some((cur[j := RereadSlot(f, r[j], Many(vs))], tail)) else None;
      (x.Some? ==> Shaped(r, x.value.0)) && DecodeLoop(c, r, cur, seen, SlotWire(c, f, Many(vs)) + tail) == Resume(c, r, seen', x)
    decreases vs, 1
  {
    var q := RereadAll(f.kind, r[j].kind, vs);
    if !Scalar(f.kind) {
      seen' := ArrayStep(c, f, r, cur, seen, j, vs, tail, []);
      assert [] + q == q;
    } else {
      RereadNumbers(f.kind, vs);
      if vs == [] {
        assert cur[j := Many(vs)] == cur && [] + tail == tail;
        seen' := seen;
      } else {
        PackedStep(c, r, cur, seen, j, vs, tail);
        seen' := seen + {j};
      }
    }
  }

  /** A slot that is not written. */
  predicate Silent(f: Field, s: Slot)
    requires SlotFits(f, s)
  {
    s == Maybe(None) || (f.rule == Singular && IsDefault(f.kind, s.value))
  }

  lemma SilentStep(c: Codec, f: Field, g: Field, s: Slot)
    requires SlotFits(f, s) && SameField(f, g) && Silent(f, s)
    ensures SlotWire(c, f, s) == [] && SlotReadable(f, g, s) && RereadSlot(f, g, s) == DefaultSlot(g)
  {
    RereadDefaultSlot(f, g, s);
  }

  lemma TaggedSize(c: Codec, f: Field, v: Value)
    requires Fits(f.kind, v)
    ensures |ValueWire(c, f.kind, v)| <= |TaggedWire(c, f, v)|
  {
  }

  /** One slot that the reader knows, whatever its rule. */
  lemma {:induction false} KnownSlot(c: Codec, f: Field, r: seq<Field>, cur: seq<Slot>, seen: set<nat>, j: nat, s: Slot, tail: Bytes) returns (seen': set<nat>)
    requires Lawful(c) && GoodField(f) && GoodFields(r) && Shaped(r, cur) && j < |r| && SameField(f, r[j])
    requires SlotFits(f, s) && SoundSlot(f, s) && |SlotWire(c, f, s)| < Two32
    requires cur[j] == DefaultSlot(r[j]) && (s != Maybe(None) ==> GroupClear(r, cur, j))
    ensures seen <= seen' <= seen + {j} && (f.rule == Required ==> j in seen')
    ensures var x := if SlotReadable(f, r[j], s) then Some((cur[j := RereadSlot(f, r[j], s)], tail)) else None;
      (x.Some? ==> Shaped(r, x.value.0)) && DecodeLoop(c, r, cur, seen, SlotWire(c, f, s) + tail) == Resume(c, r, seen', x)
    decreases s, 3
  {
    if s.Many? {
      seen' := RepeatedStep(c, f, r, cur, seen, j, s.values, tail);
    } else if Silent(f, s) {
      SilentStep(c, f, r[j], s);
      assert cur[j := DefaultSlot(r[j])] == cur && [] + tail == tail;
      seen' := seen;
    } else {
      var v := if s.One? then s.value else s.option.value;
      TaggedSize(c, f, v);
      TaggedStep(c, f, r, cur, seen, j, v, tail);
      seen' := seen + {j};
    }
  }

  // ----- fields the reader does not know -----

  /** Whatever its wire type, the payload of an unknown field is skipped to the byte. */
  lemma SkipsValue(c: Codec, kind: Kind, v: Value, tail: Bytes)
    requires Lawful(c) && Fits(kind, v) && |ValueWire(c, kind, v)| < Two32
    ensures SkipField(c, WireType(kind), ValueWire(c, kind, v) + tail) == Some(tail)
  {
    match v
    case Number(n) => SkipsScalar(c, kind, n, tail);
    case Blob(bytes) => SkipsDelimited(c, bytes, tail);
    case Sub(slots) => SkipsDelimited(c, MessageWire(c, kind.fields, slots), tail);
  }

  lemma SkipsScalar(c: Codec, kind: Kind, n: int, tail: Bytes)
    requires Lawful(c) && InRange(kind, n)
    ensures SkipField(c, WireType(kind), ScalarWire(c, kind, n) + tail) == Some(tail)
  {
    var b := ScalarWire(c, kind, n);
    assert (b + tail)[|b|..] == tail;
  }

  lemma SkipsDelimited(c: Codec, inner: Bytes, tail: Bytes)
    requires Lawful(c) && |inner| < Two32
    ensures SkipField(c, 2, Delimited(c, inner) + tail) == Some(tail)
  {
    assert Delimited(c, inner) + tail == c.put(|inner|) + (inner + tail);
    assert (inner + tail)[|inner|..] == tail;
  }

  lemma UnknownKey(c: Codec, r: seq<Field>, cur: seq<Slot>, seen: set<nat>, tag: nat, wireType: nat, rest: Bytes)
    requires Lawful(c) && Shaped(r, cur) && 0 < tag < 0x2000_0000 && wireType < 8 && Find(r, tag) == None
    ensures var after := SkipField(c, wireType, rest);
      DecodeLoop(c, r, cur, seen, Tag(c, tag, wireType) + rest) == if after == None then None else DecodeLoop(c, r, cur, seen, after.value)
  {
    KeyIsTaken(c, tag, wireType, rest);
  }

  lemma TaggedSkip(c: Codec, f: Field, r: seq<Field>, cur: seq<Slot>, seen: set<nat>, v: Value, tail: Bytes)
    requires Lawful(c) && Shaped(r, cur) && GoodField(f) && Find(r, f.tag) == None && Fits(f.kind, v) && |ValueWire(c, f.kind, v)| < Two32
    ensures DecodeLoop(c, r, cur, seen, TaggedWire(c, f, v) + tail) == DecodeLoop(c, r, cur, seen, tail)
  {
    var rest := ValueWire(c, f.kind, v) + tail;
    SkipsValue(c, f.kind, v, tail);
    UnknownKey(c, r, cur, seen, f.tag, WireType(f.kind), rest);
    TaggedParts(c, f, v, tail);
  }

  lemma {:induction false} ArraySkip(c: Codec, f: Field, r: seq<Field>, cur: seq<Slot>, seen: set<nat>, vs: seq<Value>, tail: Bytes)
    requires Lawful(c) && Shaped(r, cur) && GoodField(f) && Find(r, f.tag) == None
    requires (forall i :: 0 <= i < |vs| ==> Fits(f.kind, vs[i])) && |ArrayWire(c, f, vs)| < Two32
    ensures DecodeLoop(c, r, cur, seen, ArrayWire(c, f, vs) + tail) == DecodeLoop(c, r, cur, seen, tail)
    decreases |vs|
  {
    if vs == [] {
      assert [] + tail == tail;
    } else {
      ArrayUnfold(c, f, vs, tail);
      TaggedSkip(c, f, r, cur, seen, vs[0], ArrayWire(c, f, vs[1..]) + tail);
      ArraySkip(c, f, r, cur, seen, vs[1..], tail);
    }
  }

  lemma PackedSkip(c: Codec, f: Field, r: seq<Field>, cur: seq<Slot>, seen: set<nat>, inner: Bytes, tail: Bytes)
    requires Lawful(c) && Shaped(r, cur) && GoodField(f) && Find(r, f.tag) == None && |inner| < Two32
    ensures DecodeLoop(c, r, cur, seen, Tag(c, f.tag, 2) + Delimited(c, inner) + tail) == DecodeLoop(c, r, cur, seen, tail)
  {
    SkipsDelimited(c, inner, tail);
    UnknownKey(c, r, cur, seen, f.tag, 2, Delimited(c, inner) + tail);
    assert Tag(c, f.tag, 2) + Delimited(c, inner) + tail == Tag(c, f.tag, 2) + (Delimited(c, inner) + tail);
  }

  lemma UnknownSlot(c: Codec, f: Field, r: seq<Field>, cur: seq<Slot>, seen: set<nat>, s: Slot, tail: Bytes)
    requires Lawful(c) && Shaped(r, cur) && GoodField(f) && Find(r, f.tag) == None && SlotFits(f, s) && |SlotWire(c, f, s)| < Two32
    ensures DecodeLoop(c, r, cur, seen, SlotWire(c, f, s) + tail) == DecodeLoop(c, r, cur, seen, tail)
  {
    if SlotWire(c, f, s) == [] {
      assert [] + tail == tail;
    } else if !s.Many? {
      var v := if s.One? then s.value else s.option.value;
      TaggedSize(c, f, v);
      TaggedSkip(c, f, r, cur, seen, v, tail);
    } else if Scalar(f.kind) {
      PackedSkip(c, f, r, cur, seen, PackedWire(c, f.kind, s.values), tail);
    } else {
      ArraySkip(c, f, r, cur, seen, s.values, tail);
    }
  }

  // ----- the whole message -----

  /** Slot `j` of the reader when the first `k` slots have been read. */
  ghost function SlotAt(w: seq<Field>, r: seq<Field>, slots: seq<Slot>, j: nat, k: nat): Slot
    requires AllFit(w, slots) && Evolves(w, r) && j < |r|
  {
    var i := Find(w, r[j].tag);
    if i.Some? && i.value < k then RereadSlot(w[i.value], r[j], slots[i.value]) else DefaultSlot(r[j])
  }

  ghost predicate Partly(w: seq<Field>, r: seq<Field>, slots: seq<Slot>, cur: seq<Slot>, k: nat)
    requires AllFit(w, slots) && Evolves(w, r)
  {
    |cur| == |r| && forall j :: 0 <= j < |r| ==> cur[j] == SlotAt(w, r, slots, j, k)
  }

  /** Only fields that the writer knows have been seen, and all required ones among the first `k`. */
  ghost predicate SeenPart(w: seq<Field>, r: seq<Field>, seen: set<nat>, k: nat) {
    && (forall j :: 0 <= j < |r| && j in seen ==> Find(w, r[j].tag).Some?)
    && (forall j :: 0 <= j < |r| && r[j].rule == Required && Find(w, r[j].tag).Some? && Find(w, r[j].tag).value < k ==> j in seen)
  }

  /** Nobody else of its oneof is set when a member is decoded. */
  lemma GroupIsClear(w: seq<Field>, r: seq<Field>, slots: seq<Slot>, cur: seq<Slot>, k: nat, j: nat)
    requires AllFit(w, slots) && Evolves(w, r) && OneOfsOk(w, slots) && Partly(w, r, slots, cur, k)
    requires k < |w| && j < |r| && w[k].tag == r[j].tag && slots[k] != Maybe(None)
    ensures GroupClear(r, cur, j)
  {
    assert SameField(w[k], r[j]);
    forall i | 0 <= i < |r| && r[j].rule.OneOf? && r[i].rule == r[j].rule ensures cur[i] == Maybe(None) {
      var m := Find(w, r[i].tag);
      if m.Some? && m.value < k { assert SameField(w[m.value], r[i]); }
    }
  }

  /** The slots from `k` on that the reader knows can be read. */
  ghost predicate RestReadable(w: seq<Field>, r: seq<Field>, slots: seq<Slot>, k: nat)
    requires AllFit(w, slots) && Evolves(w, r)
  {
    forall i :: k <= i < |w| && Find(r, w[i].tag).Some? ==> SlotReadable(w[i], r[Find(r, w[i].tag).value], slots[i])
  }

  lemma WireUnfold(c: Codec, fields: seq<Field>, slots: seq<Slot>, k: nat, tail: Bytes)
    requires AllFit(fields, slots) && k < |fields| && AllFit(fields[k..], slots[k..])
    ensures AllFit(fields[k + 1..], slots[k + 1..])
    ensures var first, others := SlotWire(c, fields[k], slots[k]), MessageWire(c, fields[k + 1..], slots[k + 1..]);
      |others| <= |MessageWire(c, fields[k..], slots[k..])| && |first| <= |MessageWire(c, fields[k..], slots[k..])|
      && MessageWire(c, fields[k..], slots[k..]) + tail == first + (others + tail)
  {
    assert fields[k..][1..] == fields[k + 1..] && slots[k..][1..] == slots[k + 1..];
    assert SlotWire(c, fields[k], slots[k]) + MessageWire(c, fields[k + 1..], slots[k + 1..]) + tail
        == SlotWire(c, fields[k], slots[k]) + (MessageWire(c, fields[k + 1..], slots[k + 1..]) + tail);
  }

  /** A known slot is restored in its place, and nothing else changes. */
  lemma Placed(w: seq<Field>, r: seq<Field>, slots: seq<Slot>, cur: seq<Slot>, seen: set<nat>, seen': set<nat>, k: nat, j: nat)
    requires AllFit(w, slots) && GoodFields(w) && GoodFields(r) && Evolves(w, r) && Partly(w, r, slots, cur, k) && SeenPart(w, r, seen, k)
    requires k < |w| && j < |r| && w[k].tag == r[j].tag && seen <= seen' <= seen + {j} && (w[k].rule == Required ==> j in seen')
    ensures SameField(w[k], r[j]) && Partly(w, r, slots, cur[j := RereadSlot(w[k], r[j], slots[k])], k + 1) && SeenPart(w, r, seen', k + 1)
  {
    FindUnique(w, k);
    assert SameField(w[k], r[j]);
    forall i | 0 <= i < |r| && i != j ensures SlotAt(w, r, slots, i, k) == SlotAt(w, r, slots, i, k + 1) && Find(w, r[i].tag) != Some(k) {
      OtherTag(r, i, j);
    }
  }

  lemma OtherTag(r: seq<Field>, i: nat, j: nat)
    requires GoodFields(r) && i < |r| && j < |r| && i != j
    ensures r[i].tag != r[j].tag
  {
    if i < j { assert r[i].tag != r[j].tag; } else { assert r[j].tag != r[i].tag; }
  }

  /** An unknown slot changes nothing. */
  lemma NotPlaced(w: seq<Field>, r: seq<Field>, slots: seq<Slot>, cur: seq<Slot>, seen: set<nat>, k: nat)
    requires AllFit(w, slots) && Evolves(w, r) && Partly(w, r, slots, cur, k) && SeenPart(w, r, seen, k)
    requires k < |w| && Find(r, w[k].tag) == None
    ensures Partly(w, r, slots, cur, k + 1) && SeenPart(w, r, seen, k + 1)
  {
    forall i | 0 <= i < |r| ensures SlotAt(w, r, slots, i, k) == SlotAt(w, r, slots, i, k + 1) && Find(w, r[i].tag) != Some(k) {
    }
  }

  lemma AtTheEnd(w: seq<Field>, r: seq<Field>, slots: seq<Slot>, cur: seq<Slot>, seen: set<nat>)
    requires AllFit(w, slots) && Evolves(w, r) && Partly(w, r, slots, cur, |w|) && SeenPart(w, r, seen, |w|)
    ensures cur == Reread(w, r, slots)
  {
  }

  lemma SeenIsKnown(w: seq<Field>, r: seq<Field>, seen: set<nat>)
    requires SeenPart(w, r, seen, |w|)
    ensures RequiredSeen(r, seen) <==> RequiredKnown(w, r)
  {
    forall j | 0 <= j < |r| ensures RequiredBefore(r, j) == |RequiredInFront(r, j)| { RequiredAreCounted(r, j); }
  }

  /** The whole message, slot by slot; the decoder goes on with the bytes behind it. */
  lemma {:induction false} LoopReread(c: Codec, w: seq<Field>, r: seq<Field>, slots: seq<Slot>, cur: seq<Slot>, seen: set<nat>, k: nat, tail: Bytes) returns (all: set<nat>)
    requires Lawful(c) && GoodFields(w) && GoodFields(r) && Evolves(w, r) && AllFit(w, slots) && Sound(w, slots)
    requires Shaped(r, cur) && k <= |w| && Partly(w, r, slots, cur, k) && SeenPart(w, r, seen, k)
    requires AllFit(w[k..], slots[k..]) && |MessageWire(c, w[k..], slots[k..])| < Two32
    ensures SeenPart(w, r, all, |w|)
    ensures var x := if RestReadable(w, r, slots, k) then Some((Reread(w, r, slots), tail)) else None;
      (x.Some? ==> Shaped(r, x.value.0)) && DecodeLoop(c, r, cur, seen, MessageWire(c, w[k..], slots[k..]) + tail) == Resume(c, r, all, x)
    decreases slots, 4, |w| - k
  {
    if k == |w| {
      all := seen;
      AtTheEnd(w, r, slots, cur, seen);
      assert MessageWire(c, w[k..], slots[k..]) == [] && [] + tail == tail;
    } else {
      var rest := MessageWire(c, w[k + 1..], slots[k + 1..]) + tail;
      WireUnfold(c, w, slots, k, tail);
      assert GoodField(w[k]) && SlotFits(w[k], slots[k]) && SoundSlot(w[k], slots[k]);
      match Find(r, w[k].tag)
      case None =>
        UnknownSlot(c, w[k], r, cur, seen, slots[k], rest);
        NotPlaced(w, r, slots, cur, seen, k);
        all := LoopReread(c, w, r, slots, cur, seen, k + 1, tail);
      case Some(j) =>
        FindUnique(w, k);
        assert SameField(w[k], r[j]);
        if slots[k] != Maybe(None) { GroupIsClear(w, r, slots, cur, k, j); }
        var seen' := KnownSlot(c, w[k], r, cur, seen, j, slots[k], rest);
        Placed(w, r, slots, cur, seen, seen', k, j);
        if SlotReadable(w[k], r[j], slots[k]) {
          all := LoopReread(c, w, r, slots, cur[j := RereadSlot(w[k], r[j], slots[k])], seen', k + 1, tail);
        } else {
          all := AllSeen(w, r);
        }
    }
  }

  lemma AllSeen(w: seq<Field>, r: seq<Field>) returns (all: set<nat>)
    ensures SeenPart(w, r, all, |w|)
  {
    all := set j: nat | j < |r| && Find(w, r[j].tag).Some?;
  }

  // ----- bytes behind the message -----

  /** A zero key ends the message, whatever follows. */
  lemma ZeroKeyEnds(c: Codec, w: seq<Field>, r: seq<Field>, slots: seq<Slot>, tail: Bytes)
    requires Lawful(c) && AllFit(w, slots) && Sound(w, slots) && GoodFields(w) && GoodFields(r) && Evolves(w, r)
    requires |MessageWire(c, w, slots)| < Two32 && tail != [] && c.take32(tail).Some? && c.take32(tail).value.0 == 0
    ensures Decode(c, r, MessageWire(c, w, slots) + tail) == Decode(c, r, MessageWire(c, w, slots))
  {
    var all := MessageThenTail(c, w, r, slots, tail);
    MessageReread(c, w, r, slots);
  }

  /** A group, a wire type that does not exist, or a payload cut short fails the message, also in an unknown field. */
  lemma BadFieldFails(c: Codec, w: seq<Field>, r: seq<Field>, slots: seq<Slot>, tag: nat, wireType: nat, rest: Bytes)
    requires Lawful(c) && AllFit(w, slots) && Sound(w, slots) && GoodFields(w) && GoodFields(r) && Evolves(w, r)
    requires |MessageWire(c, w, slots)| < Two32 && 0 < tag < 0x2000_0000 && Find(r, tag) == None
    requires wireType == 3 || wireType == 4 || wireType == 6 || wireType == 7 || (wireType == 1 && |rest| < 8) || (wireType == 5 && |rest| < 4)
    ensures Decode(c, r, MessageWire(c, w, slots) + (c.put(8 * tag + wireType) + rest)) == None
  {
    var tail := c.put(8 * tag + wireType) + rest;
    var all := MessageThenTail(c, w, r, slots, tail);
    KeyBytes(c, tag, wireType);
    if RestReadable(w, r, slots, 0) { BadFieldStops(c, r, Reread(w, r, slots), all, tag, wireType, rest); }
  }

  lemma KeyBytes(c: Codec, tag: nat, wireType: nat)
    ensures c.put(8 * tag + wireType) == Tag(c, tag, wireType)
  {
  }

  lemma BadFieldStops(c: Codec, r: seq<Field>, cur: seq<Slot>, seen: set<nat>, tag: nat, wireType: nat, rest: Bytes)
    requires Lawful(c) && Shaped(r, cur) && 0 < tag < 0x2000_0000 && Find(r, tag) == None
    requires wireType == 3 || wireType == 4 || wireType == 6 || wireType == 7 || (wireType == 1 && |rest| < 8) || (wireType == 5 && |rest| < 4)
    ensures DecodeLoop(c, r, cur, seen, Tag(c, tag, wireType) + rest) == None
  {
    CannotBeSkipped(c, wireType, rest);
    UnknownKey(c, r, cur, seen, tag, wireType, rest);
  }

  lemma CannotBeSkipped(c: Codec, wireType: nat, rest: Bytes)
    requires Consumes(c)
    requires wireType == 3 || wireType == 4 || wireType == 6 || wireType == 7 || (wireType == 1 && |rest| < 8) || (wireType == 5 && |rest| < 4)
    ensures SkipField(c, wireType, rest) == None
  {
  }

  // ----- the same description -----

  lemma {:induction false} SameAsItself(fields: seq<Field>)
    requires GoodFields(fields)
    ensures Evolves(fields, fields)
    decreases fields
  {
    forall i, j | 0 <= i < |fields| && 0 <= j < |fields| && fields[i].tag == fields[j].tag ensures SameField(fields[i], fields[j]) {
      assert i == j;
      assert GoodField(fields[i]);
      SameFieldAsItself(fields[i]);
    }
  }

  lemma {:induction false} SameFieldAsItself(f: Field)
    requires GoodField(f)
    ensures SameField(f, f)
    decreases f
  {
    SameKindAsItself(f.kind);
  }

  lemma {:induction false} SameKindAsItself(k: Kind)
    requires GoodKind(k)
    ensures SameKind(k, k)
    decreases k
  {
    if k.Message? { SameAsItself(k.fields); }
  }

  /** Whoever reads with the writer's description gets the message. */
  lemma {:induction false} RereadSame(fields: seq<Field>, slots: seq<Slot>)
    requires AllFit(fields, slots) && GoodFields(fields) && Evolves(fields, fields)
    ensures Readable(fields, fields, slots) && Reread(fields, fields, slots) == slots
    decreases slots, 1
  {
    forall i | 0 <= i < |fields|
      ensures Find(fields, fields[i].tag) == Some(i)
      ensures SlotReadable(fields[i], fields[i], slots[i]) && RereadSlot(fields[i], fields[i], slots[i]) == slots[i]
    {
      FindUnique(fields, i);
      assert GoodField(fields[i]) && SameField(fields[i], fields[i]);
      RereadSameSlot(fields[i], slots[i]);
    }
  }

  lemma {:induction false} RereadSameSlot(f: Field, s: Slot)
    requires SlotFits(f, s) && GoodField(f) && SameField(f, f)
    ensures SlotReadable(f, f, s) && RereadSlot(f, f, s) == s
    decreases s
  {
    match s
    case One(v) => RereadSameValue(f.kind, v);
    case Maybe(o) => if o.Some? { RereadSameValue(f.kind, o.value); }
    case Many(vs) =>
      forall i | 0 <= i < |vs| ensures ValueReadable(f.kind, f.kind, vs[i]) && RereadValue(f.kind, f.kind, vs[i]) == vs[i] {
        RereadSameValue(f.kind, vs[i]);
      }
      assert RereadAll(f.kind, f.kind, vs) == vs;
  }

  lemma {:induction false} RereadSameValue(k: Kind, v: Value)
    requires Fits(k, v) && GoodKind(k) && SameKind(k, k)
    ensures ValueReadable(k, k, v) && RereadValue(k, k, v) == v
    decreases v
  {
    if v.Sub? { RereadSame(k.fields, v.slots); }
  }

  // ----- a reader that leaves fields out -----

  /** Every field of the reader is one of the writer's; so in every submessage. */
  ghost predicate LeavesOut(w: seq<Field>, r: seq<Field>)
    requires Evolves(w, r)
    decreases w
  {
    && (forall j :: 0 <= j < |r| ==> Find(w, r[j].tag).Some?)
    && (forall i, j :: 0 <= i < |w| && 0 <= j < |r| && w[i].tag == r[j].tag ==> LeavesOutInside(w[i], r[j]))
  }

  ghost predicate LeavesOutInside(f: Field, g: Field)
    decreases f
  {
    SameField(f, g) && LeavesOutBelow(f.kind, g.kind)
  }

  ghost predicate LeavesOutBelow(k: Kind, l: Kind)
    requires SameKind(k, l)
    decreases k
  {
    k.Message? ==> LeavesOut(k.fields, l.fields)
  }

  lemma {:induction false} LeavingOutIsReadable(w: seq<Field>, r: seq<Field>, slots: seq<Slot>)
    requires AllFit(w, slots) && Evolves(w, r) && LeavesOut(w, r)
    ensures Readable(w, r, slots)
    decreases slots
  {
    forall i | 0 <= i < |w| && Find(r, w[i].tag).Some? ensures SlotReadable(w[i], r[Find(r, w[i].tag).value], slots[i]) {
      assert LeavesOutInside(w[i], r[Find(r, w[i].tag).value]);
      SlotStaysReadable(w[i], r[Find(r, w[i].tag).value], slots[i]);
    }
  }

  lemma {:induction false} SlotStaysReadable(f: Field, g: Field, s: Slot)
    requires LeavesOutInside(f, g) && SlotFits(f, s)
    ensures SlotReadable(f, g, s)
    decreases s
  {
    match s
    case One(v) => ValueStaysReadable(f.kind, g.kind, v);
    case Maybe(o) => if o.Some? { ValueStaysReadable(f.kind, g.kind, o.value); }
    case Many(vs) =>
      forall n | 0 <= n < |vs| ensures ValueReadable(f.kind, g.kind, vs[n]) { ValueStaysReadable(f.kind, g.kind, vs[n]); }
  }

  lemma {:induction false} ValueStaysReadable(k: Kind, l: Kind, v: Value)
    requires SameKind(k, l) && LeavesOutBelow(k, l) && Fits(k, v)
    ensures ValueReadable(k, l, v)
    decreases v
  {
    if v.Sub? { LeavingOutIsReadable(k.fields, l.fields, v.slots); }
  }

  /** Unknown fields change nothing: the reader gets the slots of its own fields, and those it shares unchanged are restored. */
  lemma UnknownFieldsAreSkipped(c: Codec, w: seq<Field>, r: seq<Field>, slots: seq<Slot>)
    requires Lawful(c) && AllFit(w, slots) && Sound(w, slots) && GoodFields(w) && GoodFields(r) && Evolves(w, r) && LeavesOut(w, r)
    requires |MessageWire(c, w, slots)| < Two32
    ensures Decode(c, r, MessageWire(c, w, slots)) == Some(Reread(w, r, slots))
    ensures forall i, j :: 0 <= i < |w| && 0 <= j < |r| && w[i] == r[j] ==> Reread(w, r, slots)[j] == slots[i]
  {
    LeavingOutIsReadable(w, r, slots);
    MessageReread(c, w, r, slots);
    forall i, j | 0 <= i < |w| && 0 <= j < |r| && w[i] == r[j] ensures Reread(w, r, slots)[j] == slots[i] {
      FindUnique(w, i);
      assert GoodField(w[i]) && SameField(w[i], w[i]);
      RereadSameSlot(w[i], slots[i]);
    }
  }
}
