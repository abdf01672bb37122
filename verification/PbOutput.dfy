/**
 pb_ostream_t and the encoder that writes to it, as the code has them: a stream whose
 state is updated in place, loops over fields and array elements, and substreams for
 submessages. Each method does to the stream what PbEncode says.
 */
module PbOutput {
  import opened Options
  import opened Coding
  import opened PbTypes
  import opened PbEncode

  datatype Status = Ok | Full | Changed

  /** The returned status and the stream afterwards, as the outcome has them. */
  ghost predicate Matches(status: Status, after: Stream, outcome: Outcome) {
    match outcome
    case Done(s) => status == Ok && after == s
    case StreamFull => status == Full
    case SizeChanged => status == Changed
  }

  class OStream {
    const codec: Codec
    const sizing: bool
    const max: nat
    var out: Bytes
    var written: nat

    /** PB_OSTREAM_SIZING, a buffer, or the substream of a submessage, which goes on in its parent's buffer. */
    constructor (codec: Codec, sizing: bool, out: Bytes, max: nat)
      ensures View() == Stream(sizing, out, 0, max) && this.codec == codec
    {
      this.codec, this.sizing, this.max := codec, sizing, max;
      this.out, written := out, 0;
    }

    ghost function View(): Stream
      reads this
    {
      Stream(sizing, out, written, max)
    }

    ghost predicate Valid()
      reads this
    {
      Lawful(codec) && View().Open()
    }

    method Write(b: Bytes) returns (status: Status)
      modifies this
      ensures Matches(status, View(), PbEncode.Write(old(View()), b))
    {
      if |b| > 0 && !sizing {
        if written + |b| > max {
          return Full;
        }
        out := out + b;
      }
      written := written + |b|;
      status := Ok;
      assert !sizing && b == [] ==> out + b == out;
    }

    method EncodeString(bytes: Bytes) returns (status: Status)
      modifies this
      ensures Matches(status, View(), PbEncode.EncodeString(codec, old(View()), bytes))
    {
      status := Write(codec.put(|bytes|));
      if status == Ok {
        status := Write(bytes);
      }
    }

    method EncodeValue(kind: Kind, v: Value) returns (status: Status)
      requires Valid() && Fits(kind, v)
      modifies this
      ensures Matches(status, View(), PbEncode.EncodeValue(codec, old(View()), kind, v))
      ensures status == Ok ==> Valid()
      decreases v, 0
    {
      ValueEmits(codec, View(), kind, v);
      match v {
        case Number(n) => status := Write(ScalarWire(codec, kind, n));
        case Blob(bytes) => status := EncodeString(bytes);
        case Sub(slots) => status := EncodeSubmessage(kind.fields, slots);
      }
    }

    /** The sizing pass, the size, and the writing pass; the last one is checked against the first. */
    method EncodeSubmessage(fields: seq<Field>, slots: seq<Slot>) returns (status: Status)
      requires Valid() && AllFit(fields, slots)
      modifies this
      ensures Matches(status, View(), PbEncode.EncodeSubmessage(codec, old(View()), fields, slots))
      ensures status != Changed && (status == Ok ==> Valid())
      decreases slots, 1
    {
      SubmessageEmits(codec, View(), fields, slots);
      MessageEmits(codec, Sizing, fields, slots);
      var substream := new OStream(codec, true, [], 0);
      status := substream.EncodeMessage(fields, slots);
      if status != Ok {
        return;
      }
      var size := substream.written;
      status := Write(codec.put(size));
      if status != Ok {
        return;
      }
      if sizing {
        written := written + size;
        return;
      }
      if written + size > max {
        return Full;
      }
      MessageEmits(codec, Stream(false, out, 0, size), fields, slots);
      substream := new OStream(codec, false, out, size);
      status := substream.EncodeMessage(fields, slots);
      written := written + substream.written;
      out := substream.out;
      if substream.written != size {
        status := Changed;
      }
    }

    /** pb_encode: every field in turn. */
    method EncodeMessage(fields: seq<Field>, slots: seq<Slot>) returns (status: Status)
      requires Valid() && AllFit(fields, slots)
      modifies this
      ensures Matches(status, View(), PbEncode.EncodeMessage(codec, old(View()), fields, slots))
      ensures status == Ok ==> Valid()
      decreases slots, 0
    {
      ghost var all := PbEncode.EncodeMessage(codec, View(), fields, slots);
      assert fields[0..] == fields && slots[0..] == slots;
      for i := 0 to |slots|
        invariant Valid() && AllFit(fields[i..], slots[i..])
        invariant all == PbEncode.EncodeMessage(codec, View(), fields[i..], slots[i..])
      {
        assert fields[i..][1..] == fields[i + 1..] && slots[i..][1..] == slots[i + 1..];
        status := EncodeField(fields[i], slots[i]);
        if status != Ok {
          return;
        }
      }
      status := Ok;
    }

    method EncodeTagged(f: Field, v: Value) returns (status: Status)
      requires Valid() && Fits(f.kind, v)
      modifies this
      ensures Matches(status, View(), PbEncode.EncodeTagged(codec, old(View()), f, v))
      ensures status == Ok ==> Valid()
      decreases v, 1
    {
      status := Write(Tag(codec, f.tag, WireType(f.kind)));
      if status == Ok {
        status := EncodeValue(f.kind, v);
      }
    }

    /** encode_basic_field. */
    method EncodeField(f: Field, slot: Slot) returns (status: Status)
      requires Valid() && SlotFits(f, slot)
      modifies this
      ensures Matches(status, View(), PbEncode.EncodeField(codec, old(View()), f, slot))
      ensures status == Ok ==> Valid()
      decreases slot
    {
      status := Ok;
      match f.rule {
        case Required => status := EncodeTagged(f, slot.value);
        case Singular => if !IsDefault(f.kind, slot.value) { status := EncodeTagged(f, slot.value); }
        case Optional => if slot.option.Some? { status := EncodeTagged(f, slot.option.value); }
        case OneOf(_) => if slot.option.Some? { status := EncodeTagged(f, slot.option.value); }
        case Repeated(_) =>
          if slot.values != [] {
            if Scalar(f.kind) {
              status := EncodePacked(f, slot.values);
            } else {
              status := EncodeArray(f, slot.values);
            }
          }
      }
    }

    /** The unpacked part of encode_array. */
    method EncodeArray(f: Field, vs: seq<Value>) returns (status: Status)
      requires Valid() && forall i :: 0 <= i < |vs| ==> Fits(f.kind, vs[i])
      modifies this
      ensures Matches(status, View(), PbEncode.EncodeArray(codec, old(View()), f, vs))
      ensures status == Ok ==> Valid()
      decreases vs
    {
      ghost var all := PbEncode.EncodeArray(codec, View(), f, vs);
      assert vs[0..] == vs;
      for i := 0 to |vs|
        invariant Valid() && all == PbEncode.EncodeArray(codec, View(), f, vs[i..])
      {
        assert vs[i..][1..] == vs[i + 1..];
        status := EncodeTagged(f, vs[i]);
        if status != Ok {
          return;
        }
      }
      status := Ok;
    }

    method EncodeScalars(kind: Kind, vs: seq<Value>) returns (status: Status)
      requires Valid() && Scalar(kind) && forall i :: 0 <= i < |vs| ==> Fits(kind, vs[i])
      modifies this
      ensures Matches(status, View(), PbEncode.EncodeScalars(codec, old(View()), kind, vs))
      ensures status == Ok ==> Valid()
    {
      ghost var all := PbEncode.EncodeScalars(codec, View(), kind, vs);
      assert vs[0..] == vs;
      for i := 0 to |vs|
        invariant Valid() && all == PbEncode.EncodeScalars(codec, View(), kind, vs[i..])
      {
        assert vs[i..][1..] == vs[i + 1..];
        assert Fits(kind, vs[i]);
        status := Write(ScalarWire(codec, kind, vs[i].n));
        if status != Ok {
          return;
        }
      }
      status := Ok;
    }

    /** The packed part of encode_array: a computed or measured size, and the elements. */
    method EncodePacked(f: Field, vs: seq<Value>) returns (status: Status)
      requires Valid() && Scalar(f.kind) && forall i :: 0 <= i < |vs| ==> Fits(f.kind, vs[i])
      modifies this
      ensures Matches(status, View(), PbEncode.EncodePacked(codec, old(View()), f, vs))
      ensures status == Ok ==> Valid()
    {
      status := Write(Tag(codec, f.tag, 2));
      if status != Ok {
        return;
      }
      var size := 0;
      if f.kind.Fixed32? {
        size := 4 * |vs|;
      } else if f.kind.Fixed64? {
        size := 8 * |vs|;
      } else {
        var sizestream := new OStream(codec, true, [], 0);
        status := sizestream.EncodeScalars(f.kind, vs);
        if status != Ok {
          return;
        }
        size := sizestream.written;
      }
      status := Write(codec.put(size));
      if status != Ok {
        return;
      }
      if sizing {
        written := written + size;
      } else {
        status := EncodeScalars(f.kind, vs);
      }
    }
  }
}
