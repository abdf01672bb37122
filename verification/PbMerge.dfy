/**
 "Last One Wins" of the Protocol Buffers Encoding specification: a submessage whose bytes
 come in two records is the one whose bytes come in one.
 */
module PbMerge {
  import opened Options
  import opened Coding
  import opened PbTypes
  import opened PbDecode
  import opened PbEvolution

  /** A record that holds these bytes. */
  function Record(c: Codec, tag: nat, inner: Bytes): Bytes { Tag(c, tag, 2) + Delimited(c, inner) }

  /** What has been seen before does not change what is decoded. */
  lemma {:induction false} SeenIsExtra(c: Codec, r: seq<Field>, slots: seq<Slot>, seen: set<nat>, more: set<nat>, b: Bytes)
    requires Consumes(c) && Shaped(r, slots)
    ensures var x, y := DecodeLoop(c, r, slots, seen, b), DecodeLoop(c, r, slots, seen + more, b);
      y == if x == None then None else Some((x.value.0, x.value.1 + more))
    decreases |b|
  {
    if b != [] && c.take32(b).Some? && c.take32(b).value.0 > 0 {
      var (key, rest) := c.take32(b).value;
      var wireType: nat := key % 8;
      match Find(r, key / 8)
      case None =>
        var after := SkipField(c, wireType, rest);
        if after.Some? { SeenIsExtra(c, r, slots, seen, more, after.value); }
      case Some(i) =>
        var x := DecodeField(c, r, slots, i, wireType, rest);
        if x.Some? {
          SeenIsExtra(c, r, x.value.0, seen + {i}, more, x.value.1);
          assert seen + {i} + more == seen + more + {i};
        }
    }
  }

  /** What a submessage in field `j` is decoded over. */
  function Inside(r: seq<Field>, slots: seq<Slot>, j: nat): (q: seq<Slot>)
    requires Shaped(r, slots) && j < |r| && r[j].kind.Message? && !r[j].rule.Repeated?
    ensures Shaped(r[j].kind.fields, q)
  {
    var f, s := r[j], slots[j];
    assert SlotShaped(f, s);
    SubSlots(f.kind.fields, if s.One? then s.value else if s.option.Some? then s.option.value else DefaultValue(f.kind))
  }

  /** The message with this submessage in field `j`, and no other member of its oneof. */
  function With(r: seq<Field>, slots: seq<Slot>, j: nat, sub: seq<Slot>): (q: seq<Slot>)
    requires Shaped(r, slots) && j < |r|
    ensures |q| == |r|
  {
    (if r[j].rule.OneOf? then ClearGroup(r, slots, r[j].rule.group) else slots)[j := Single(r[j], Sub(sub))]
  }

  lemma SubmessageTaken(c: Codec, r: seq<Field>, slots: seq<Slot>, j: nat, inner: Bytes, tail: Bytes)
    requires Lawful(c) && Shaped(r, slots) && j < |r| && r[j].kind.Message? && !r[j].rule.Repeated? && |inner| < Two32
    ensures var x := DecodeMessage(c, r[j].kind.fields, Inside(r, slots, j), inner);
      DecodeField(c, r, slots, j, 2, Delimited(c, inner) + tail) == if x == None then None else Some((With(r, slots, j, x.value), tail))
  {
    assert SlotShaped(r[j], slots[j]);
    DelimitedRoundTrip(c, inner, tail);
  }

  /** The record of a submessage. */
  lemma RecordStep(c: Codec, r: seq<Field>, slots: seq<Slot>, seen: set<nat>, j: nat, inner: Bytes, tail: Bytes)
    requires Lawful(c) && GoodFields(r) && Shaped(r, slots) && j < |r| && r[j].kind.Message? && !r[j].rule.Repeated? && |inner| < Two32
    ensures var x := DecodeMessage(c, r[j].kind.fields, Inside(r, slots, j), inner);
      var y := if x == None then None else Some((With(r, slots, j, x.value), tail));
      (y.Some? ==> Shaped(r, y.value.0)) && DecodeLoop(c, r, slots, seen, Record(c, r[j].tag, inner) + tail) == Resume(c, r, seen + {j}, y)
  {
    var rest := Delimited(c, inner) + tail;
    SubmessageTaken(c, r, slots, j, inner, tail);
    KeyStep(c, r, slots, seen, j, 2, rest);
    assert Record(c, r[j].tag, inner) + tail == Tag(c, r[j].tag, 2) + rest;
  }

  /** Decoding goes on where it stopped. */
  lemma MessageGoesOn(c: Codec, w: seq<Field>, l: seq<Field>, slots: seq<Slot>, more: Bytes)
    requires Lawful(c) && AllFit(w, slots) && Sound(w, slots) && GoodFields(w) && GoodFields(l) && Evolves(w, l)
    requires |MessageWire(c, w, slots)| < Two32 && forall i :: 0 <= i < |l| ==> l[i].rule != Required
    ensures var x := Decode(c, l, MessageWire(c, w, slots));
      (x.Some? ==> Shaped(l, x.value)) && Decode(c, l, MessageWire(c, w, slots) + more) == if x == None then None else DecodeMessage(c, l, x.value, more)
  {
    var all := MessageThenTail(c, w, l, slots, more);
    MessageReread(c, w, l, slots);
    assert Readable(w, l, slots) <==> RestReadable(w, l, slots, 0);
    if Readable(w, l, slots) { SeenIsExtra(c, l, Reread(w, l, slots), {}, all, more); assert {} + all == all; }
  }

  lemma TwiceIsOnce(r: seq<Field>, slots: seq<Slot>, j: nat, first: seq<Slot>, second: seq<Slot>)
    requires Shaped(r, slots) && j < |r| && r[j].kind.Message? && !r[j].rule.Repeated? && Shaped(r[j].kind.fields, first)
    ensures var q := With(r, slots, j, first); Shaped(r, q) && Inside(r, q, j) == first && With(r, q, j, second) == With(r, slots, j, second)
  {
    var q := With(r, slots, j, first);
    forall i | 0 <= i < |r| ensures SlotShaped(r[i], q[i]) { assert SlotShaped(r[i], slots[i]); }
    assert With(r, q, j, second) == With(r, slots, j, second);
  }

  lemma TwoRecords(c: Codec, r: seq<Field>, cur: seq<Slot>, seen: set<nat>, j: nat, first: Bytes, more: Bytes, tail: Bytes)
    requires Lawful(c) && GoodFields(r) && Shaped(r, cur) && j < |r| && r[j].kind.Message? && !r[j].rule.Repeated? && cur[j] == DefaultSlot(r[j])
    requires |first| + |more| < Two32
    requires var l := r[j].kind.fields;
      var x := Decode(c, l, first);
      (x.Some? ==> Shaped(l, x.value)) && Decode(c, l, first + more) == if x == None then None else DecodeMessage(c, l, x.value, more)
    ensures var tag := r[j].tag;
      DecodeLoop(c, r, cur, seen, Record(c, tag, first) + (Record(c, tag, more) + tail)) == DecodeLoop(c, r, cur, seen, Record(c, tag, first + more) + tail)
  {
    var l, tag := r[j].kind.fields, r[j].tag;
    DefaultStarts(r[j].kind);
    assert Inside(r, cur, j) == DefaultSlots(l);
    RecordStep(c, r, cur, seen, j, first, Record(c, tag, more) + tail);
    RecordStep(c, r, cur, seen, j, first + more, tail);
    var x := Decode(c, l, first);
    if x.Some? { SecondRecord(c, r, cur, seen, j, x.value, more, tail); }
  }

  /** A second record is decoded over the first. */
  lemma SecondRecord(c: Codec, r: seq<Field>, cur: seq<Slot>, seen: set<nat>, j: nat, sub: seq<Slot>, more: Bytes, tail: Bytes)
    requires Lawful(c) && GoodFields(r) && Shaped(r, cur) && j < |r| && r[j].kind.Message? && !r[j].rule.Repeated?
    requires Shaped(r[j].kind.fields, sub) && |more| < Two32
    ensures Shaped(r, With(r, cur, j, sub))
    ensures var y := DecodeMessage(c, r[j].kind.fields, sub, more);
      var z := if y == None then None else Some((With(r, cur, j, y.value), tail));
      (z.Some? ==> Shaped(r, z.value.0))
      && DecodeLoop(c, r, With(r, cur, j, sub), seen + {j}, Record(c, r[j].tag, more) + tail) == Resume(c, r, seen + {j}, z)
  {
    var y := DecodeMessage(c, r[j].kind.fields, sub, more);
    TwiceIsOnce(r, cur, j, sub, if y.Some? then y.value else []);
    RecordStep(c, r, With(r, cur, j, sub), seen + {j}, j, more, tail);
    assert seen + {j} + {j} == seen + {j};
  }

  /**
   A message and any bytes behind it, as two records of a submessage or as one: for a field that is not
   repeated and was not set before, of a type without required fields, the outcome is the same.
   */
  lemma SplitSubmessage(c: Codec, r: seq<Field>, cur: seq<Slot>, seen: set<nat>, j: nat, w: seq<Field>, slots: seq<Slot>, more: Bytes, tail: Bytes)
    requires Lawful(c) && GoodFields(r) && Shaped(r, cur) && j < |r| && r[j].kind.Message? && !r[j].rule.Repeated? && cur[j] == DefaultSlot(r[j])
    requires AllFit(w, slots) && Sound(w, slots) && GoodFields(w) && Evolves(w, r[j].kind.fields)
    requires |MessageWire(c, w, slots)| + |more| < Two32 && forall i :: 0 <= i < |r[j].kind.fields| ==> r[j].kind.fields[i].rule != Required
    ensures var first, tag := MessageWire(c, w, slots), r[j].tag;
      DecodeLoop(c, r, cur, seen, Record(c, tag, first) + (Record(c, tag, more) + tail)) == DecodeLoop(c, r, cur, seen, Record(c, tag, first + more) + tail)
  {
    assert GoodField(r[j]);
    assert GoodKind(r[j].kind);
    MessageGoesOn(c, w, r[j].kind.fields, slots, more);
    TwoRecords(c, r, cur, seen, j, MessageWire(c, w, slots), more, tail);
  }
}
