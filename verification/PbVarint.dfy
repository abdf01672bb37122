/** The numbers of nanopb (pb_encode.c, pb_decode.c): varints and fixed-width integers, and the law messages rely on. */
module PbVarint {
  import opened Options
  import opened Coding
  import opened Numerals
  import opened PbTypes

  // ----- writing -----

  /** pb_encode_varint: all bytes with the top bit set, and then the last one without. */
  method EncodeVarint(value: nat) returns (buffer: Bytes)
    ensures buffer == PutVarint(value)
  {
    if value <= 0x7F {
      return [value];
    }
    var v := value;
    buffer := [];
    while v > 0
      invariant Marked(buffer, v, value)
      decreases v
    {
      MarkedStep(buffer, v, value);
      buffer := buffer + [v % 128 + 128];
      v := v / 128;
    }
    var last: int := buffer[|buffer| - 1];
    buffer := buffer[..|buffer| - 1] + [last - 128];
  }

  /** The bytes written so far, all with the top bit set, and what is left of the value. */
  ghost predicate Marked(buffer: Bytes, v: nat, value: nat) {
    && (v > 0 ==> PutVarint(value) == buffer + PutVarint(v))
    && (v == 0 ==> |buffer| > 0 && buffer[|buffer| - 1] >= 128 && PutVarint(value) == buffer[..|buffer| - 1] + [buffer[|buffer| - 1] as int - 128])
  }

  lemma MarkedStep(buffer: Bytes, v: nat, value: nat)
    requires Marked(buffer, v, value) && v > 0
    ensures Marked(buffer + [v % 128 + 128], v / 128, value)
  {
    var longer := buffer + [v % 128 + 128];
    assert longer[..|buffer|] == buffer;
    if v < 128 {
      assert PutVarint(v) == [v];
    } else {
      assert buffer + ([128 + v % 128] + PutVarint(v / 128)) == longer + PutVarint(v / 128);
    }
  }

  // ----- reading -----

  /** pb_decode_varint: ten bytes at most, bits above the 64th lost. */
  function TakeVarint64(b: Bytes): (r: Option<(nat, Bytes)>)
    ensures r.Some? ==> |r.value.1| < |b|
  {
    match GetVarint(b, 10)
    case None => None
    case Some((v, n)) => var low: nat := v % Two64; Some((low, b[n..]))
  }

  function Scale(bitpos: nat): nat {
    if bitpos == 7 then 0x80 else if bitpos == 14 then 0x4000 else if bitpos == 21 then 0x20_0000 else 0x1000_0000
  }

  /** pb_decode_varint32 after its first byte: sign extension is allowed above the 32nd bit, other bits are not. */
  function More32(b: Bytes, bitpos: nat, result: nat): (r: Option<(nat, Bytes)>)
    ensures r.Some? ==> |r.value.1| < |b|
    decreases |b|
  {
    if b == [] then None
    else
      if Overflows32(b[0], bitpos, result) then None
      else if b[0] >= 128 then More32(b[1..], bitpos + 7, Sum32(b[0], bitpos, result))
      else Some((Sum32(b[0], bitpos, result), b[1..]))
  }

  /** "varint overflow": bits that are lost and are not a sign extension. */
  predicate Overflows32(byte: Byte, bitpos: nat, result: nat) {
    var sign := if bitpos < 63 then 0xFF else 0x01;
    || (bitpos >= 32 && byte % 128 != 0 && (result < 0x8000_0000 || byte != sign))
    || (bitpos == 28 && 16 <= byte < 128)
  }

  /** The low seven bits of a byte, at their place. */
  function Sum32(byte: Byte, bitpos: nat, result: nat): nat {
    var low: int := byte % 128;
    if bitpos >= 32 then result else (result + low * Scale(bitpos)) % Two32
  }

  function TakeVarint32(b: Bytes): (r: Option<(nat, Bytes)>)
    ensures r.Some? ==> |r.value.1| < |b|
  {
    if b == [] then None
    else
      var byte: int := b[0];
      if byte < 128 then Some((byte, b[1..])) else More32(b[1..], 7, byte - 128)
  }

  predicate BitPosition(bitpos: nat) { bitpos == 7 || bitpos == 14 || bitpos == 21 || bitpos == 28 }

  lemma MoreLast(b: Bytes, bitpos: nat, result: nat, u: nat)
    requires BitPosition(bitpos) && |b| > 0 && b[0] == u < 128 && result + u * Scale(bitpos) < Two32
    ensures More32(b, bitpos, result) == Some((result + u * Scale(bitpos), b[1..]))
  {
    SumFits(b[0], bitpos, result, u);
    if bitpos == 28 { assert u < 16; }
  }

  lemma SumFits(byte: Byte, bitpos: nat, result: nat, low: nat)
    requires BitPosition(bitpos) && byte as int % 128 == low && result + low * Scale(bitpos) < Two32
    ensures Sum32(byte, bitpos, result) == result + low * Scale(bitpos)
  {
    var sum: nat := result + low * Scale(bitpos);
    assert sum % Two32 == sum;
  }

  lemma MoreStep(b: Bytes, bitpos: nat, result: nat, low: nat)
    requires BitPosition(bitpos) && bitpos < 28 && |b| > 0 && low < 128 && b[0] == 128 + low && result + low * Scale(bitpos) < Two32
    ensures More32(b, bitpos, result) == More32(b[1..], bitpos + 7, result + low * Scale(bitpos))
  {
    LowBits(low);
    SumFits(b[0], bitpos, result, low);
  }

  lemma LowBits(low: nat)
    requires low < 128
    ensures (128 + low) % 128 == low
  {
  }

  lemma {:induction false} MoreRoundTrip(u: nat, bitpos: nat, result: nat, tail: Bytes)
    requires BitPosition(bitpos) && result < Scale(bitpos) && result + u * Scale(bitpos) < Two32
    ensures More32(PutVarint(u) + tail, bitpos, result) == Some((result + u * Scale(bitpos), tail))
    decreases u
  {
    var b := PutVarint(u) + tail;
    if u < 128 {
      assert b[0] == u && b[1..] == tail;
      MoreLast(b, bitpos, result, u);
    } else {
      assert b[0] == 128 + u % 128 && b[1..] == PutVarint(u / 128) + tail;
      Carry(u, bitpos, result);
      MoreStep(b, bitpos, result, u % 128);
      MoreRoundTrip(u / 128, bitpos + 7, result + (u % 128) * Scale(bitpos), tail);
    }
  }

  lemma Carry(u: nat, bitpos: nat, result: nat)
    requires BitPosition(bitpos) && u >= 128 && result < Scale(bitpos) && result + u * Scale(bitpos) < Two32
    ensures bitpos < 28 && Scale(bitpos + 7) == 128 * Scale(bitpos)
    ensures result + (u % 128) * Scale(bitpos) < Scale(bitpos + 7)
    ensures result + (u % 128) * Scale(bitpos) + (u / 128) * Scale(bitpos + 7) == result + u * Scale(bitpos)
  {
  }

  lemma Varint32Law(v: nat, tail: Bytes)
    requires v < Two32
    ensures TakeVarint32(PutVarint(v) + tail) == Some((v, tail))
  {
    var b := PutVarint(v) + tail;
    if v < 128 {
      assert b[0] == v && b[1..] == tail;
    } else {
      assert b[0] == 128 + v % 128 && b[1..] == PutVarint(v / 128) + tail;
      MoreRoundTrip(v / 128, 7, v % 128, tail);
    }
  }

  lemma Varint64Law(v: nat, tail: Bytes)
    requires v < Two64
    ensures TakeVarint64(PutVarint(v) + tail) == Some((v, tail))
  {
    WordLength(v);
    VarintRoundTrip(v, tail, 10);
    TakenAs(PutVarint(v) + tail, v, |PutVarint(v)|);
    assert (PutVarint(v) + tail)[|PutVarint(v)|..] == tail;
  }

  lemma TakenAs(b: Bytes, v: nat, n: nat)
    requires GetVarint(b, 10) == Some((v, n)) && v < Two64
    ensures TakeVarint64(b) == Some((v, b[n..]))
  {
  }

  // ----- what is read, for any bytes -----

  /** A varint of up to ten bytes is read as its number without the bits above the 64th, and nothing else is read. */
  lemma Take64Means(b: Bytes, k: nat)
    ensures 0 < k <= |b| && k <= 10 && Terminated(b[..k]) ==> TakeVarint64(b) == Some((Base128(b[..k]) % Two64, b[k..]))
    ensures TakeVarint64(b).Some? ==> exists m :: 0 < m <= |b| && m <= 10 && Terminated(b[..m])
  {
    VarintMeans(b, 10, k);
  }

  /** A varint of any length is skipped to its last byte. */
  lemma {:induction false} SkipMeans(b: Bytes, k: nat)
    ensures 0 < k <= |b| && Terminated(b[..k]) ==> SkipVarint(b) == Some(b[k..])
    ensures SkipVarint(b).Some? ==> exists m :: 0 < m <= |b| && Terminated(b[..m])
    decreases |b|
  {
    if b != [] && b[0] >= 128 {
      SkipMeans(b[1..], if k > 0 then k - 1 else 0);
      if 0 < k <= |b| && Terminated(b[..k]) { TailTerminated(b, k); }
      if SkipVarint(b[1..]).Some? {
        var m :| 0 < m <= |b[1..]| && Terminated(b[1..][..m]);
        LongerNumeral(b, m);
      }
    } else if b != [] {
      assert Terminated(b[..1]);
    }
  }

  /** What a digit at this place is worth to a 32-bit number. */
  function Weight(bitpos: nat): nat { if bitpos < 32 then Scale(bitpos) else 0 }

  lemma {:induction false} More32Means(b: Bytes, bitpos: nat, result: nat) returns (k: nat)
    requires More32(b, bitpos, result).Some? && (BitPosition(bitpos) || bitpos >= 35) && result < Two32
    ensures 0 < k <= |b| && Terminated(b[..k])
    ensures More32(b, bitpos, result) == Some(((result + Weight(bitpos) * Base128(b[..k])) % Two32, b[k..]))
    decreases |b|
  {
    var sum := Sum32(b[0], bitpos, result);
    SumIs(b[0], bitpos, result);
    if b[0] < 128 {
      k := 1;
      assert b[..1] == [b[0]] + [];
      Base128Cons(b[0], []);
    } else {
      var m := More32Means(b[1..], bitpos + 7, sum);
      k := m + 1;
      Digit(b[0]);
      LongerNumeral(b, m);
      assert b[1..][m..] == b[k..];
      Carried(bitpos, result, b[0] as int - 128, Base128(b[1..][..m]), sum);
    }
  }

  lemma Digit(x: Byte)
    requires x >= 128
    ensures x as int % 128 == x as int - 128
  {
  }

  lemma SumIs(byte: Byte, bitpos: nat, result: nat)
    requires (BitPosition(bitpos) || bitpos >= 35) && result < Two32
    ensures Sum32(byte, bitpos, result) == (result + Weight(bitpos) * (byte as int % 128)) % Two32
  {
  }

  /** A digit and the number above it, without the bits above the 32nd. */
  lemma Carried(bitpos: nat, result: nat, low: nat, high: nat, sum: nat)
    requires (BitPosition(bitpos) || bitpos >= 35) && result < Two32 && sum == (result + Weight(bitpos) * low) % Two32
    ensures (sum + Weight(bitpos + 7) * high) % Two32 == (result + Weight(bitpos) * (low + 128 * high)) % Two32
  {
    Lost(result + Weight(bitpos) * low, Weight(bitpos + 7) * high, if bitpos == 28 then 8 * high else 0);
  }

  lemma Lost(a: nat, c: nat, q: nat)
    ensures (a % Two32 + c) % Two32 == (a + c + q * Two32) % Two32
  {
  }

  /** What the 32-bit reader accepts is a varint, read as its number without the bits above the 32nd. */
  lemma Take32Means(b: Bytes) returns (k: nat)
    requires TakeVarint32(b).Some?
    ensures 0 < k <= |b| && Terminated(b[..k]) && TakeVarint32(b) == Some((Base128(b[..k]) % Two32, b[k..]))
  {
    if b[0] < 128 {
      k := 1;
      assert b[..1] == [b[0]] + [];
      Base128Cons(b[0], []);
    } else {
      var m := More32Means(b[1..], 7, b[0] as int - 128);
      k := m + 1;
      LongerNumeral(b, m);
    }
  }

  // ----- fixed-width numbers, low byte first -----

  function TakeFixed(b: Bytes, n: nat): (r: Option<(nat, Bytes)>)
    requires n > 0
    ensures r.Some? ==> |r.value.1| < |b|
  {
    if |b| < n then None else Some((GetFixed(b, n), b[n..]))
  }

  lemma FixedLaw(v: nat, tail: Bytes)
    ensures v < Two32 ==> TakeFixed(PutFixed(v, 4) + tail, 4) == Some((v, tail))
    ensures v < Two64 ==> TakeFixed(PutFixed(v, 8) + tail, 8) == Some((v, tail))
  {
    assert Power256(4) == Two32;
    assert Power256(8) == 256 * 256 * 256 * 256 * Power256(4);
    if v < Two32 { FixedRoundTrip(v, 4, tail); }
    if v < Two64 { FixedRoundTrip(v, 8, tail); }
  }

  // ----- together -----

  lemma {:induction false} SkipLaw(v: nat, tail: Bytes)
    ensures SkipVarint(PutVarint(v) + tail) == Some(tail)
    decreases v
  {
    var b := PutVarint(v) + tail;
    if v < 128 {
      assert b[0] == v && b[1..] == tail;
    } else {
      assert b[0] == 128 + v % 128 && b[1..] == PutVarint(v / 128) + tail;
      SkipLaw(v / 128, tail);
    }
  }

  const Real: Codec := Codec(
    (v: nat) => PutVarint(v), (b: Bytes) => TakeVarint32(b), (b: Bytes) => TakeVarint64(b),
    (v: nat) => PutFixed(v, 4), (b: Bytes) => TakeFixed(b, 4),
    (v: nat) => PutFixed(v, 8), (b: Bytes) => TakeFixed(b, 8))

  /** The real numbers obey the law that the message theorems assume. */
  lemma RealIsLawful()
    ensures Lawful(Real)
  {
    forall v: nat, tail: Bytes | v < Two32 ensures Real.take32(Real.put(v) + tail) == Some((v, tail)) { Varint32Law(v, tail); }
    forall v: nat, tail: Bytes | v < Two64 ensures Real.take64(Real.put(v) + tail) == Some((v, tail)) { Varint64Law(v, tail); }
    forall v: nat, tail: Bytes | v < Two64 ensures SkipVarint(Real.put(v) + tail) == Some(tail) { SkipLaw(v, tail); }
    forall v: nat, tail: Bytes | v < Two32 ensures Real.take4(Real.put4(v) + tail) == Some((v, tail)) { FixedLaw(v, tail); }
    forall v: nat, tail: Bytes | v < Two64 ensures Real.take8(Real.put8(v) + tail) == Some((v, tail)) { FixedLaw(v, tail); }
  }
}
