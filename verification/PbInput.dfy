/**
 pb_istream_t, pb_field_iter_t and the decoder that uses them, as the code has them:
 a read position and a count of bytes left, substreams that share the buffer, a field
 iterator that goes round, and a bitmap of the required fields seen. Each method finds
 what PbDecode says.
 */
module PbInput {
  import opened Options
  import opened Coding
  import opened PbTypes
  import opened PbDecode
  import opened PbVarint
  import PbEvolution
  import PbRoundTrip
  import PbOutput

  // ----- pb_field_iter_t -----

  class FieldIter {
    const fields: seq<Field>
    var pos: nat
    var requiredIndex: nat

    ghost predicate Valid()
      reads this
    {
      (if fields == [] then pos == 0 else pos < |fields|) && requiredIndex == RequiredBefore(fields, pos)
    }

    constructor (fields: seq<Field>)
      ensures Valid() && this.fields == fields && pos == 0
    {
      this.fields := fields;
      pos, requiredIndex := 0, 0;
    }

    /** The next field; false when it has gone round to the first one. */
    method Next() returns (more: bool)
      requires Valid()
      modifies this
      ensures Valid() && more == (old(pos) + 1 < |fields|) && pos == if more then old(pos) + 1 else 0
    {
      if pos + 1 >= |fields| {
        pos, requiredIndex := 0, 0;
        more := false;
      } else {
        if fields[pos].rule == Required {
          requiredIndex := requiredIndex + 1;
        }
        pos := pos + 1;
        more := true;
      }
    }

    /** Goes round once from where it is. */
    method Find(tag: nat) returns (found: bool)
      requires Valid()
      modifies this
      ensures Valid()
      ensures found ==> fields != [] && fields[pos].tag == tag
      ensures !found ==> forall i :: 0 <= i < |fields| ==> fields[i].tag != tag
    {
      if fields == [] {
        return false;
      }
      var start := pos;
      while true
        invariant Valid()
        invariant pos < start ==> forall i :: start <= i < |fields| ==> fields[i].tag != tag
        invariant forall i :: (if pos < start then 0 else start) <= i < pos ==> fields[i].tag != tag
        decreases if pos < start then start - pos else |fields| + start - pos
      {
        if fields[pos].tag == tag {
          return true;
        }
        var more := Next();
        if pos == start {
          return false;
        }
      }
    }

    /** The number of required fields, found by going to the end from wherever the iterator is. */
    method CountRequired() returns (count: nat)
      requires Valid()
      modifies this
      ensures Valid() && count == RequiredBefore(fields, |fields|)
    {
      if fields == [] {
        return 0;
      }
      count := requiredIndex;
      var last := fields[pos].rule;
      var more := Next();
      while more
        invariant Valid()
        invariant more ==> pos > 0
        invariant !more ==> count == RequiredBefore(fields, |fields| - 1) && last == fields[|fields| - 1].rule
        decreases more, |fields| - pos
      {
        count, last := requiredIndex, fields[pos].rule;
        more := Next();
      }
      if last == Required {
        count := count + 1;
      }
    }
  }

  // ----- the bitmap of required fields -----

  type Bits = seq<bool>

  /** Bit `n` of the bitmap says whether the n-th required field was seen. */
  ghost predicate Records(words: seq<Bits>, fields: seq<Field>, seen: set<nat>) {
    && |words| == 2 && |words[0]| == |words[1]| == 32
    && (forall n :: 0 <= n < 64 && words[n / 32][n % 32] ==> n < RequiredBefore(fields, |fields|))
    && (forall i :: 0 <= i < |fields| && fields[i].rule == Required && RequiredBefore(fields, i) < 64 ==>
          (words[RequiredBefore(fields, i) / 32][RequiredBefore(fields, i) % 32] <==> i in seen))
  }

  /** Required fields are counted in order. */
  lemma {:induction false} RequiredOrder(fields: seq<Field>, i: nat, j: nat)
    requires i < j <= |fields| && fields[i].rule == Required
    ensures RequiredBefore(fields, i) < RequiredBefore(fields, j)
    decreases j
  {
    if i + 1 < j { RequiredOrder(fields, i, j - 1); }
  }

  /** Every number below the count is that of some required field. */
  lemma {:induction false} RequiredAt(fields: seq<Field>, j: nat, n: nat) returns (i: nat)
    requires j <= |fields| && n < RequiredBefore(fields, j)
    ensures i < |fields| && fields[i].rule == Required && RequiredBefore(fields, i) == n
    decreases j
  {
    if n < RequiredBefore(fields, j - 1) { i := RequiredAt(fields, j - 1, n); } else { i := j - 1; }
  }

  /** fields_seen[index >> 5] |= 1 << (index & 31). */
  function SetBit(words: seq<Bits>, n: nat): (r: seq<Bits>)
    requires |words| == 2 && |words[0]| == |words[1]| == 32 && n < 64
    ensures |r| == 2 && |r[0]| == |r[1]| == 32
    ensures forall m :: 0 <= m < 64 ==> (r[m / 32][m % 32] <==> m == n || words[m / 32][m % 32])
  {
    words[n / 32 := words[n / 32][n % 32 := true]]
  }

  lemma SeenStep(words: seq<Bits>, fields: seq<Field>, seen: set<nat>, i: nat)
    requires Records(words, fields, seen) && i < |fields|
    ensures var n := RequiredBefore(fields, i);
      Records(if fields[i].rule == Required && n < 64 then SetBit(words, n) else words, fields, seen + {i})
  {
    forall j | 0 <= j < |fields| && fields[j].rule == Required && fields[i].rule == Required && j != i
      ensures RequiredBefore(fields, i) != RequiredBefore(fields, j)
    {
      if i < j { RequiredOrder(fields, i, j); } else { RequiredOrder(fields, j, i); }
    }
    if fields[i].rule == Required { RequiredOrder(fields, i, |fields|); }
  }

  /** allbits >> (32 - r): the low `r` bits. */
  function LowBitsOf(r: nat): (w: Bits)
    ensures |w| == 32 && forall j :: 0 <= j < 32 ==> w[j] == (j < r)
  {
    seq(32, j => j < r)
  }

  ghost predicate FirstBitsSet(words: seq<Bits>, m: nat)
    requires |words| == 2 && |words[0]| == |words[1]| == 32
  {
    forall n :: 0 <= n < m && n < 64 ==> words[n / 32][n % 32]
  }

  /** Whole words are compared with all ones, the rest with the low bits. */
  method CheckSeen(words: seq<Bits>, required: nat) returns (all: bool)
    requires |words| == 2 && |words[0]| == |words[1]| == 32
    requires forall n :: 0 <= n < 64 && words[n / 32][n % 32] ==> n < required
    ensures all == FirstBitsSet(words, required)
  {
    var count := if required > kMaxRequiredFields then kMaxRequiredFields else required;
    for i := 0 to count / 32
      invariant FirstBitsSet(words, 32 * i)
    {
      if words[i] != LowBitsOf(32) {
        BadWord(words, i, 32);
        return false;
      }
      assert forall n :: 32 * i <= n < 32 * (i + 1) ==> n / 32 == i && words[i][n % 32];
    }
    if count % 32 != 0 {
      var i := count / 32;
      if words[i] != LowBitsOf(count % 32) {
        forall j | count % 32 <= j < 32 ensures !words[i][j] {
          assert (32 * i + j) / 32 == i && (32 * i + j) % 32 == j;
        }
        BadWord(words, i, count % 32);
        return false;
      }
      assert forall n :: 32 * i <= n < count ==> n / 32 == i && n % 32 < count % 32 && words[i][n % 32];
    }
    return true;
  }

  /** A word that is not the low bits, and has none above them, lacks one of them. */
  lemma BadWord(words: seq<Bits>, i: nat, r: nat)
    requires |words| == 2 && |words[0]| == |words[1]| == 32 && i < 2 && r <= 32
    requires words[i] != LowBitsOf(r) && forall j :: r <= j < 32 ==> !words[i][j]
    ensures !FirstBitsSet(words, 32 * i + r)
  {
    var j :| 0 <= j < 32 && words[i][j] != LowBitsOf(r)[j];
    assert (32 * i + j) / 32 == i && (32 * i + j) % 32 == j;
  }

  /** The bits are all set exactly when every required field that is tracked was seen. */
  lemma BitsAreSeen(words: seq<Bits>, fields: seq<Field>, seen: set<nat>)
    requires Records(words, fields, seen)
    ensures FirstBitsSet(words, RequiredBefore(fields, |fields|)) <==> RequiredSeen(fields, seen)
  {
    if RequiredSeen(fields, seen) {
      forall n | 0 <= n < RequiredBefore(fields, |fields|) && n < 64 ensures words[n / 32][n % 32] {
        var i := RequiredAt(fields, |fields|, n);
      }
    }
    forall i | 0 <= i < |fields| && fields[i].rule == Required ensures RequiredBefore(fields, i) < RequiredBefore(fields, |fields|) {
      RequiredOrder(fields, i, |fields|);
    }
  }

  /** The field that the iterator is at has been seen. */
  method MarkSeen(iter: FieldIter, words: seq<Bits>, ghost seen: set<nat>) returns (marked: seq<Bits>)
    requires iter.Valid() && iter.fields != [] && Records(words, iter.fields, seen)
    ensures Records(marked, iter.fields, seen + {iter.pos})
  {
    SeenStep(words, iter.fields, seen, iter.pos);
    if iter.fields[iter.pos].rule == Required && iter.requiredIndex < kMaxRequiredFields {
      marked := SetBit(words, iter.requiredIndex);
    } else {
      marked := words;
    }
  }

  /** The check at the end of pb_decode_noinit. */
  method AllRequiredSeen(iter: FieldIter, words: seq<Bits>, ghost seen: set<nat>) returns (all: bool)
    requires iter.Valid() && Records(words, iter.fields, seen)
    modifies iter
    ensures all == RequiredSeen(iter.fields, seen)
  {
    BitsAreSeen(words, iter.fields, seen);
    var required := iter.CountRequired();
    all := CheckSeen(words, required);
  }

  // ----- pb_istream_t -----

  class IStream {
    const buffer: Bytes
    var state: nat
    var left: nat

    constructor (buffer: Bytes, state: nat, left: nat)
      ensures this.buffer == buffer && this.state == state && this.left == left
    {
      this.buffer, this.state, this.left := buffer, state, left;
    }

    ghost predicate Valid()
      reads this
    {
      Consumes(Real) && state + left <= |buffer|
    }

    ghost function Rest(): Bytes
      requires Valid()
      reads this
    {
      buffer[state..state + left]
    }

    /** Where the stream ends, which reading does not change. */
    ghost function End(): nat
      reads this
    {
      state + left
    }

    /** pb_read. */
    method Read(count: nat) returns (data: Option<Bytes>)
      requires Valid()
      modifies this
      ensures Valid() && End() == old(End())
      ensures data == if count <= |old(Rest())| then Some(old(Rest())[..count]) else None
      ensures Rest() == if count <= |old(Rest())| then old(Rest())[count..] else old(Rest())
    {
      if left < count {
        return None;
      }
      data := Some(buffer[state..state + count]);
      assert Rest()[..count] == buffer[state..state + count];
      state, left := state + count, left - count;
    }

    method ReadByte() returns (b: Option<Byte>)
      requires Valid()
      modifies this
      ensures Valid() && End() == old(End())
      ensures b == if old(Rest()) == [] then None else Some(old(Rest())[0])
      ensures Rest() == if old(Rest()) == [] then [] else old(Rest())[1..]
    {
      if left == 0 {
        return None;
      }
      b := Some(buffer[state]);
      state, left := state + 1, left - 1;
    }

    /** What was taken, and what is left. */
    ghost predicate Took(v: Option<nat>, r: Option<(nat, Bytes)>)
      requires Valid()
      reads this
    {
      match r
      case None => v == None
      case Some((n, rest)) => v == Some(n) && Rest() == rest
    }

    /** pb_decode_varint32. */
    method Varint32() returns (v: Option<nat>)
      requires Valid()
      modifies this
      ensures Valid() && End() == old(End()) && Took(v, TakeVarint32(old(Rest())))
    {
      var b := ReadByte();
      if b == None {
        return None;
      }
      var byte: int := b.value;
      if byte < 128 {
        return Some(byte);
      }
      var bitpos: nat, result: nat := 7, byte - 128;
      while true
        invariant Valid() && End() == old(End())
        invariant TakeVarint32(old(Rest())) == More32(Rest(), bitpos, result)
        decreases left
      {
        b := ReadByte();
        if b == None {
          return None;
        }
        if Overflows32(b.value, bitpos, result) {
          return None;
        }
        result := Sum32(b.value, bitpos, result);
        if b.value < 128 {
          return Some(result);
        }
        bitpos := bitpos + 7;
      }
    }

    /** pb_decode_varint: ten bytes at most, bits above the 64th lost. */
    method Varint64() returns (v: Option<nat>)
      requires Valid()
      modifies this
      ensures Valid() && End() == old(End()) && Took(v, TakeVarint64(old(Rest())))
    {
      var r := ReadVarint(buffer[state..state + left], 10);
      if r == None {
        return None;
      }
      state, left := state + r.value.1, left - r.value.1;
      v := Some(r.value.0 % Two64);
    }

    /** pb_decode_fixed32 and pb_decode_fixed64. */
    method Fixed(n: nat) returns (v: Option<nat>)
      requires Valid() && n > 0
      modifies this
      ensures Valid() && End() == old(End()) && Took(v, TakeFixed(old(Rest()), n))
    {
      var data := Read(n);
      if data == None {
        return None;
      }
      FixedOfPrefix(old(Rest()), n);
      v := Some(GetFixed(data.value, n));
    }

    /** pb_skip_field. */
    method SkipField(wireType: nat) returns (ok: bool)
      requires Valid()
      modifies this
      ensures Valid() && End() == old(End())
      ensures ok == PbDecode.SkipField(Real, wireType, old(Rest())).Some?
      ensures ok ==> Rest() == PbDecode.SkipField(Real, wireType, old(Rest())).value
    {
      if wireType == 0 {
        ok := SkipVarint();
      } else if wireType == 2 {
        var length := Varint32();
        if length == None {
          return false;
        }
        var data := Read(length.value);
        ok := data.Some?;
      } else if wireType == 1 || wireType == 5 {
        var data := Read(if wireType == 1 then 8 else 4);
        ok := data.Some?;
      } else {
        ok := false;
      }
    }

    method SkipVarint() returns (ok: bool)
      requires Valid()
      modifies this
      ensures Valid() && End() == old(End())
      ensures ok == PbTypes.SkipVarint(old(Rest())).Some?
      ensures ok ==> Rest() == PbTypes.SkipVarint(old(Rest())).value
    {
      while true
        invariant Valid() && End() == old(End())
        invariant PbTypes.SkipVarint(old(Rest())) == PbTypes.SkipVarint(Rest())
        decreases left
      {
        var b := ReadByte();
        if b == None {
          return false;
        }
        if b.value < 128 {
          return true;
        }
      }
    }

    /**
     pb_make_string_substream: the substream starts where the stream is and may read
     `size` bytes, which the stream no longer counts as its own.
     */
    method MakeSubstream() returns (sub: Option<IStream>)
      requires Valid()
      modifies this
      ensures sub.None? <==> TakeDelimited(Real, old(Rest())) == None
      ensures sub.Some? ==> fresh(sub.value) && Opened(sub.value, TakeDelimited(Real, old(Rest())).value, old(End()))
    {
      var size := Varint32();
      if size == None || left < size.value {
        return None;
      }
      var s := new IStream(buffer, state, size.value);
      left := left - size.value;
      sub := Some(s);
      assert s.Rest() == buffer[state..][..size.value];
    }

    /** The substream holds the first part; what follows its end is the second part. */
    ghost predicate Opened(sub: IStream, parts: (Bytes, Bytes), end: nat)
      reads this, sub
    {
      && sub.Valid() && sub.buffer == buffer && sub.Rest() == parts.0
      && sub.End() + left == end <= |buffer| && buffer[sub.End()..end] == parts.1
    }

    /** pb_close_string_substream: what the substream left unread is skipped. */
    method CloseSubstream(sub: IStream, ghost parts: (Bytes, Bytes), ghost end: nat)
      requires sub != this && sub.Valid() && sub.buffer == buffer
      requires sub.End() + left == end <= |buffer| && buffer[sub.End()..end] == parts.1
      modifies this, sub
      ensures Valid() && End() == end && Rest() == parts.1
    {
      if sub.left > 0 {
        var data := sub.Read(sub.left);
      }
      state := sub.state;
    }

    method DecodeScalar(kind: Kind) returns (v: Option<Value>)
      requires Valid() && Scalar(kind)
      modifies this
      ensures Valid() && End() == old(End()) && TookValue(v, PbDecode.DecodeScalar(Real, kind, old(Rest())))
    {
      var u: Option<nat>;
      if kind.Bool? {
        u := Varint32();
      } else if kind.Fixed32? {
        u := Fixed(4);
      } else if kind.Fixed64? {
        u := Fixed(8);
      } else {
        u := Varint64();
      }
      if u == None {
        return None;
      }
      var n := Unraw(kind, u.value);
      if n == None {
        return None;
      }
      v := Some(Number(n.value));
    }

    ghost predicate TookValue(v: Option<Value>, r: Option<(Value, Bytes)>)
      requires Valid()
      reads this
    {
      match r
      case None => v == None
      case Some((x, rest)) => v == Some(x) && Rest() == rest
    }

    /** The decoder of one value; a submessage is decoded into what is there. */
    method DecodeValue(kind: Kind, old_: Value) returns (v: Option<Value>)
      requires Valid() && GoodKind(kind)
      modifies this
      ensures v.Some? ==> Valid() && End() == old(End()) && TookValue(v, PbDecode.DecodeValue(Real, kind, old_, old(Rest())))
      ensures v.None? ==> PbDecode.DecodeValue(Real, kind, old_, old(Rest())) == None
      decreases left, 0
    {
      if Scalar(kind) {
        v := DecodeScalar(kind);
        return;
      }
      if !kind.Message? {
        v := DecodeBytes(kind);
        return;
      }
      ghost var parts := TakeDelimited(Real, Rest());
      var sub := MakeSubstream();
      if sub == None {
        return None;
      }
      var slots := sub.value.DecodeMessage(kind.fields, SubSlots(kind.fields, old_));
      if slots == None {
        return None;
      }
      CloseSubstream(sub.value, parts.value, old(End()));
      v := Some(Sub(slots.value));
    }

    /** pb_dec_bytes and pb_dec_string. */
    method DecodeBytes(kind: Kind) returns (v: Option<Value>)
      requires Valid() && (kind.ByteString? || kind.Text?)
      modifies this
      ensures v.Some? ==> Valid() && End() == old(End()) && TookValue(v, PbDecode.DecodeValue(Real, kind, Number(0), old(Rest())))
      ensures v.None? ==> PbDecode.DecodeValue(Real, kind, Number(0), old(Rest())) == None
    {
      var size := Varint32();
      if size == None || (if kind.Text? then size.value >= kind.max else size.value > kind.max) {
        return None;
      }
      var data := Read(size.value);
      if data == None {
        return None;
      }
      v := Some(Blob(data.value));
    }

    /** The loop over a packed array, on its substream. */
    method DecodePacked(kind: Kind, before: seq<Value>, max: nat) returns (values: Option<seq<Value>>)
      requires Valid() && Scalar(kind)
      modifies this
      ensures Valid() && End() == old(End()) && values == PbDecode.DecodePacked(Real, kind, before, old(Rest()), max)
    {
      var found := before;
      while left > 0 && |found| < max
        invariant Valid() && End() == old(End())
        invariant PbDecode.DecodePacked(Real, kind, before, old(Rest()), max) == PbDecode.DecodePacked(Real, kind, found, Rest(), max)
        decreases left
      {
        var v := DecodeScalar(kind);
        if v == None {
          return None;
        }
        found := found + [v.value];
      }
      if left != 0 {
        return None;
      }
      values := Some(found);
    }

    /** What a field was decoded into, and what is left. */
    ghost predicate TookField(slots: Option<seq<Slot>>, r: Option<(seq<Slot>, Bytes)>)
      requires Valid()
      reads this
    {
      match r
      case None => slots == None
      case Some((x, rest)) => slots == Some(x) && Rest() == rest
    }

    /** decode_static_field. */
    method DecodeField(fields: seq<Field>, slots: seq<Slot>, i: nat, wireType: nat) returns (r: Option<seq<Slot>>)
      requires Valid() && Shaped(fields, slots) && i < |fields| && GoodFields(fields)
      modifies this
      ensures r.Some? ==> Valid() && End() == old(End()) && TookField(r, PbDecode.DecodeField(Real, fields, slots, i, wireType, old(Rest())))
      ensures r.None? ==> PbDecode.DecodeField(Real, fields, slots, i, wireType, old(Rest())) == None
      decreases left, 1
    {
      var f := fields[i];
      assert SlotShaped(f, slots[i]) && GoodField(f);
      match f.rule {
        case Repeated(max) =>
          if wireType == 2 && Scalar(f.kind) {
            ghost var parts := TakeDelimited(Real, Rest());
            var sub := MakeSubstream();
            if sub == None {
              return None;
            }
            var values := sub.value.DecodePacked(f.kind, slots[i].values, max);
            if values == None {
              return None;
            }
            CloseSubstream(sub.value, parts.value, old(End()));
            return Some(slots[i := Many(values.value)]);
          }
          if |slots[i].values| >= max {
            return None;
          }
          var v := DecodeValue(f.kind, DefaultValue(f.kind));
          r := if v == None then None else Some(slots[i := Many(slots[i].values + [v.value])]);
        case OneOf(group) =>
          var v := DecodeValue(f.kind, if slots[i].option.Some? then slots[i].option.value else DefaultValue(f.kind));
          r := if v == None then None else Some(ClearGroup(fields, slots, group)[i := Maybe(v)]);
        case Optional =>
          var v := DecodeValue(f.kind, if slots[i].option.Some? then slots[i].option.value else DefaultValue(f.kind));
          r := if v == None then None else Some(slots[i := Maybe(v)]);
        case _ =>
          var v := DecodeValue(f.kind, slots[i].value);
          r := if v == None then None else Some(slots[i := One(v.value)]);
      }
    }

    /** One turn of the loop of pb_decode_noinit: the field with this key is decoded, or skipped if there is none. */
    method DecodeKeyed(iter: FieldIter, slots: seq<Slot>, words: seq<Bits>, ghost seen: set<nat>, key: nat)
      returns (next: Option<seq<Slot>>, marked: seq<Bits>, ghost seen': set<nat>)
      requires Valid() && iter.Valid() && Shaped(iter.fields, slots) && GoodFields(iter.fields) && key > 0
      requires Records(words, iter.fields, seen)
      modifies this, iter
      ensures iter.Valid()
      ensures next.None? ==> Keyed(iter.fields, slots, seen, key, old(Rest())) == None
      ensures next.Some? ==> Valid() && End() == old(End()) && Shaped(iter.fields, next.value) && Records(marked, iter.fields, seen')
      ensures next.Some? ==> |Rest()| <= |old(Rest())| && Keyed(iter.fields, slots, seen, key, old(Rest())) == Some((next.value, seen', Rest()))
      decreases left, 2
    {
      next, marked, seen' := None, words, seen;
      var found := iter.Find(key / 8);
      if !found {
        var ok := SkipField(key % 8);
        if ok {
          next := Some(slots);
        }
      } else {
        PbEvolution.FindUnique(iter.fields, iter.pos);
        marked := MarkSeen(iter, words, seen);
        seen' := seen + {iter.pos};
        next := DecodeField(iter.fields, slots, iter.pos, key % 8);
      }
    }

    /** One turn of the loop of pb_decode_noinit; a zero key ends it. */
    method DecodeNext(iter: FieldIter, slots: seq<Slot>, words: seq<Bits>, ghost seen: set<nat>)
      returns (next: Option<seq<Slot>>, marked: seq<Bits>, ghost seen': set<nat>, more: bool)
      requires Valid() && left > 0 && iter.Valid() && Shaped(iter.fields, slots) && GoodFields(iter.fields)
      requires Records(words, iter.fields, seen)
      modifies this, iter
      ensures iter.Valid()
      ensures next.None? ==> DecodeLoop(Real, iter.fields, slots, seen, old(Rest())) == None
      ensures next.Some? ==> Valid() && End() == old(End()) && left < old(left) && Shaped(iter.fields, next.value) && Records(marked, iter.fields, seen')
      ensures next.Some? && !more ==> DecodeLoop(Real, iter.fields, slots, seen, old(Rest())) == Some((next.value, seen'))
      ensures next.Some? && more ==>
        DecodeLoop(Real, iter.fields, slots, seen, old(Rest())) == DecodeLoop(Real, iter.fields, next.value, seen', Rest())
      decreases left, 3
    {
      next, marked, seen', more := None, words, seen, true;
      var key := Varint32();
      if key == None {
        return;
      }
      if key.value == 0 {
        return Some(slots), words, seen, false;
      }
      next, marked, seen' := DecodeKeyed(iter, slots, words, seen, key.value);
    }

    /** pb_decode_noinit: the loop over the fields in the stream, and the check of the required ones. */
    method DecodeMessage(fields: seq<Field>, slots: seq<Slot>) returns (r: Option<seq<Slot>>)
      requires Valid() && Shaped(fields, slots) && GoodFields(fields)
      modifies this
      ensures r == PbDecode.DecodeMessage(Real, fields, slots, old(Rest()))
      ensures r.Some? ==> Valid() && End() == old(End())
      decreases left, 4
    {
      ghost var all, seen := DecodeLoop(Real, fields, slots, {}, Rest()), {};
      var current, words := slots, [seq(32, j => false), seq(32, j => false)];
      var iter := new FieldIter(fields);
      while left > 0
        invariant Valid() && End() == old(End()) && left <= old(left)
        invariant iter.Valid() && iter.fields == fields && fresh(iter)
        invariant Shaped(fields, current) && Records(words, fields, seen)
        invariant all == DecodeLoop(Real, fields, current, seen, Rest())
        decreases left
      {
        var next, more;
        next, words, seen, more := DecodeNext(iter, current, words, seen);
        if next == None {
          return None;
        }
        current := next.value;
        if !more {
          break;
        }
      }
      var checked := AllRequiredSeen(iter, words, seen);
      r := if checked then Some(current) else None;
    }
  }

  /** One turn of PbDecode.DecodeLoop after the key. */
  ghost function Keyed(fields: seq<Field>, slots: seq<Slot>, seen: set<nat>, key: nat, b: Bytes): Option<(seq<Slot>, set<nat>, Bytes)>
    requires Consumes(Real) && Shaped(fields, slots)
  {
    match Find(fields, key / 8)
    case None =>
      (match PbDecode.SkipField(Real, key % 8, b)
       case None => None
       case Some(after) => Some((slots, seen, after)))
    case Some(i) =>
      (match PbDecode.DecodeField(Real, fields, slots, i, key % 8, b)
       case None => None
       case Some((slots', after)) => Some((slots', seen + {i}, after)))
  }

  /** pb_decode from a buffer. */
  method DecodeBuffer(fields: seq<Field>, buffer: Bytes) returns (r: Option<seq<Slot>>)
    requires GoodFields(fields) && Consumes(Real)
    ensures r == Decode(Real, fields, buffer)
  {
    DefaultsAreShaped(fields);
    var stream := new IStream(buffer, 0, |buffer|);
    assert stream.Rest() == buffer;
    r := stream.DecodeMessage(fields, DefaultSlots(fields));
  }

  /** A message written to a buffer of `max` bytes and read back is the message, if it fits. */
  method WriteThenRead(fields: seq<Field>, slots: seq<Slot>, max: nat) returns (r: Option<seq<Slot>>)
    requires AllFit(fields, slots) && Sound(fields, slots) && GoodFields(fields) && |MessageWire(Real, fields, slots)| < Two32
    ensures r == if |MessageWire(Real, fields, slots)| <= max then Some(slots) else None
  {
    PbEvolution.SameAsItself(fields);
    PbEvolution.RereadSame(fields, slots);
    r := WriteThenReread(fields, fields, slots, max);
  }

  /** Read with another description, it is what that description knows of the message. */
  method WriteThenReread(written: seq<Field>, known: seq<Field>, slots: seq<Slot>, max: nat) returns (r: Option<seq<Slot>>)
    requires AllFit(written, slots) && Sound(written, slots) && GoodFields(written) && |MessageWire(Real, written, slots)| < Two32
    requires GoodFields(known) && PbEvolution.Evolves(written, known)
    ensures r == if |MessageWire(Real, written, slots)| <= max && PbEvolution.Readable(written, known, slots)
      then Some(PbEvolution.Reread(written, known, slots)) else None
  {
    PbRoundTrip.EncodeThenReread(written, known, slots, max);
    var stream := new PbOutput.OStream(Real, false, [], max);
    var status := stream.EncodeMessage(written, slots);
    if status != PbOutput.Ok {
      return None;
    }
    r := DecodeBuffer(known, stream.out);
  }

  lemma FixedOfPrefix(b: Bytes, n: nat)
    requires n <= |b|
    ensures GetFixed(b[..n], n) == GetFixed(b, n)
    decreases n
  {
    if n > 0 {
      assert b[..n][1..] == b[1..][..n - 1];
      FixedOfPrefix(b[1..], n - 1);
    }
  }
}
