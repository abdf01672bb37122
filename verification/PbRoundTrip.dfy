/** Decoding what nanopb encoded restores the message. */
module PbRoundTrip {
  import opened Options
  import opened Coding
  import opened PbTypes
  import opened PbEncode
  import opened PbDecode
  import opened PbVarint
  import opened PbEvolution

  /** What is not encoded because it is the default is what decoding starts from. */
  lemma DefaultIsDefault(kind: Kind, v: Value)
    requires Fits(kind, v) && IsDefault(kind, v) && GoodKind(kind)
    ensures v == DefaultValue(kind)
  {
    SameKindAsItself(kind);
    RereadDefault(kind, kind, v);
    RereadSameValue(kind, v);
  }

  /** Read with the description it was written with, a message is restored. */
  lemma MessageRoundTrip(c: Codec, fields: seq<Field>, slots: seq<Slot>)
    requires Lawful(c) && AllFit(fields, slots) && Sound(fields, slots) && GoodFields(fields) && |MessageWire(c, fields, slots)| < Two32
    ensures Decode(c, fields, MessageWire(c, fields, slots)) == Some(slots)
  {
    SameAsItself(fields);
    RereadSame(fields, slots);
    MessageReread(c, fields, fields, slots);
  }

  /**
   The theorem about nanopb, with the real number encodings: a message written to a stream
   with room for it is read by any later or earlier description as what that one knows.
   */
  lemma EncodeThenReread(w: seq<Field>, r: seq<Field>, slots: seq<Slot>, max: nat)
    requires AllFit(w, slots) && Sound(w, slots) && GoodFields(w) && GoodFields(r) && Evolves(w, r)
    requires |MessageWire(Real, w, slots)| < Two32
    ensures Lawful(Real)
    ensures var x := EncodeMessage(Real, Stream(false, [], 0, max), w, slots);
      if |MessageWire(Real, w, slots)| > max then x == StreamFull
      else x.Done? && Decode(Real, r, x.stream.out) == if Readable(w, r, slots) then Some(Reread(w, r, slots)) else None
  {
    RealIsLawful();
    SizingPredictsWriting(Real, w, slots, max);
    MessageEmits(Real, Sizing, w, slots);
    MessageReread(Real, w, r, slots);
  }

  /** With its own description the message is restored. */
  lemma EncodeThenDecode(fields: seq<Field>, slots: seq<Slot>, max: nat)
    requires AllFit(fields, slots) && Sound(fields, slots) && GoodFields(fields)
    requires |MessageWire(Real, fields, slots)| < Two32
    ensures Lawful(Real)
    ensures var x := EncodeMessage(Real, Stream(false, [], 0, max), fields, slots);
      if |MessageWire(Real, fields, slots)| > max then x == StreamFull
      else x.Done? && Decode(Real, fields, x.stream.out) == Some(slots)
  {
    SameAsItself(fields);
    RereadSame(fields, slots);
    EncodeThenReread(fields, fields, slots, max);
  }
}
