/** Bytes, fixed-width integers and checksums (util/coding.h, util/crc32c.h). */
module Coding {
  import opened Options
  import opened Arithmetic

  type Byte = x: int | 0 <= x < 256
  type Bytes = seq<Byte>
  type Word = x: int | 0 <= x < 0x1_0000_0000

  const kMaskDelta: Word := 0xa282_ead8

  /**
   Rotate right by 15 bits and add a constant modulo 2^32. The two shifted
   halves share no bit, so their disjunction is their sum.
   */
  function Mask(crc: Word): (masked: Word) {
    var low: int, high: int := crc / 0x8000, crc % 0x8000 * 0x2_0000;
    (low + high + kMaskDelta) % 0x1_0000_0000
  }

  function Unmask(masked: Word): (crc: Word) {
    var rot: int := (masked - kMaskDelta) % 0x1_0000_0000;
    rot / 0x2_0000 + rot % 0x2_0000 * 0x8000
  }

  lemma UnmaskMask(crc: Word)
    ensures Unmask(Mask(crc)) == crc
  {
    var low: int, high: int := crc / 0x8000, crc % 0x8000;
    var rot: int := low + high * 0x2_0000;
    assert (Mask(crc) - kMaskDelta) % 0x1_0000_0000 == rot;
    assert rot / 0x2_0000 == high && rot % 0x2_0000 == low;
  }

  /** Under the constant there is the checksum rotated: shifting it back left is multiplying modulo 2^32 - 1. */
  lemma MaskIsRotated(crc: Word)
    ensures (Mask(crc) as int - 0xa282_ead8) % 0x1_0000_0000 * 0x8000 % 0xffff_ffff == crc as int % 0xffff_ffff
  {
    var low: nat, high: nat := crc / 0x8000, crc % 0x8000;
    Unmasked(crc, low, high);
    var q: nat, r: nat := crc / 0xffff_ffff, crc % 0xffff_ffff;
    Quotient((low + high * 0x2_0000) * 0x8000, 0xffff_ffff, q + high, r);
  }

  lemma Unmasked(crc: Word, low: nat, high: nat)
    requires low == crc / 0x8000 && high == crc % 0x8000
    ensures (Mask(crc) as int - 0xa282_ead8) % 0x1_0000_0000 == low + high * 0x2_0000
  {
  }

  function EncodeFixed32(v: Word): (b: Bytes)
    ensures |b| == 4 && DecodeFixed32(b) == v
  {
    var v1: int := v / 256;
    var v2: int := v1 / 256;
    [v % 256, v1 % 256, v2 % 256, v2 / 256]
  }

  function DecodeFixed32(b: Bytes): (v: Word)
    requires |b| >= 4
  {
    var b0: int, b1: int, b2: int, b3: int := b[0], b[1], b[2], b[3];
    b0 + b1 * 0x100 + b2 * 0x1_0000 + b3 * 0x100_0000
  }

  // ----- numbers of any fixed width, low byte first -----

  function PutFixed(v: nat, n: nat): (b: Bytes)
    ensures |b| == n
  {
    if n == 0 then [] else [v % 256] + PutFixed(v / 256, n - 1)
  }

  function GetFixed(b: Bytes, n: nat): nat
    requires n <= |b|
  {
    if n == 0 then 0 else
      var low: int := b[0];
      low + 256 * GetFixed(b[1..], n - 1)
  }

  function Power256(n: nat): nat {
    if n == 0 then 1 else 256 * Power256(n - 1)
  }

  lemma {:induction false} FixedRoundTrip(v: nat, n: nat, tail: Bytes)
    requires v < Power256(n)
    ensures GetFixed(PutFixed(v, n) + tail, n) == v && (PutFixed(v, n) + tail)[n..] == tail
    decreases n
  {
    if n > 0 {
      FixedRoundTrip(v / 256, n - 1, tail);
      assert (PutFixed(v, n) + tail)[1..] == PutFixed(v / 256, n - 1) + tail;
    }
  }

  // ----- varints: seven bits a byte, low bits first -----

  function PutVarint(v: nat): (b: Bytes)
    ensures |b| > 0
  {
    if v < 128 then [v] else [128 + v % 128] + PutVarint(v / 128)
  }

  /** The value at the front of `b` and its length, if it takes at most `n` bytes. */
  function GetVarint(b: Bytes, n: nat): (r: Option<(nat, nat)>)
    ensures r.Some? ==> 0 < r.value.1 <= |b|
  {
    if n == 0 || b == [] then None
    else if b[0] < 128 then Some((b[0], 1))
    else
      var byte: int := b[0];
      Scaled(byte - 128, 128, 1, GetVarint(b[1..], n - 1))
  }

  lemma {:induction false} VarintRoundTrip(v: nat, tail: Bytes, n: nat)
    requires |PutVarint(v)| <= n
    ensures GetVarint(PutVarint(v) + tail, n) == Some((v, |PutVarint(v)|))
  {
    var b := PutVarint(v);
    if v >= 128 {
      VarintRoundTrip(v / 128, tail, n - 1);
      assert (b + tail)[1..] == PutVarint(v / 128) + tail;
    }
  }

  /** 128 to the power of `n`. */
  function Power128(n: nat): nat {
    if n == 0 then 1 else 128 * Power128(n - 1)
  }

  lemma {:induction false} VarintLength(v: nat, n: nat)
    requires n > 0 && v < Power128(n)
    ensures |PutVarint(v)| <= n
  {
    if v >= 128 { VarintLength(v / 128, n - 1); }
  }

  /** A 32-bit value takes at most five bytes, a 64-bit value at most ten. */
  lemma WordLength(v: nat)
    ensures v < 0x1_0000_0000 ==> |PutVarint(v)| <= 5
    ensures v < 0x1_0000_0000_0000_0000 ==> |PutVarint(v)| <= 10
  {
    assert Power128(5) == 0x8_0000_0000;
    assert Power128(10) == Power128(5) * 0x8_0000_0000;
    if v < 0x1_0000_0000 { VarintLength(v, 5); }
    if v < 0x1_0000_0000_0000_0000 { VarintLength(v, 10); }
  }

  /** EncodeVarint32, branch by branch. */
  method EncodeVarint32(v: Word) returns (b: Bytes)
    ensures b == PutVarint(v)
  {
    var v1: int := v / 128;
    var v2: int := v1 / 128;
    var v3: int := v2 / 128;
    var v4: int := v3 / 128;
    if v < 0x80 {
      b := [v];
    } else if v < 0x4000 {
      b := [v % 128 + 128, v1];
    } else if v < 0x20_0000 {
      b := [v % 128 + 128, v1 % 128 + 128, v2];
      assert PutVarint(v1) == [v1 % 128 + 128, v2];
    } else if v < 0x1000_0000 {
      b := [v % 128 + 128, v1 % 128 + 128, v2 % 128 + 128, v3];
      assert PutVarint(v2) == [v2 % 128 + 128, v3];
      assert PutVarint(v1) == [v1 % 128 + 128] + PutVarint(v2);
    } else {
      b := [v % 128 + 128, v1 % 128 + 128, v2 % 128 + 128, v3 % 128 + 128, v4];
      assert PutVarint(v3) == [v3 % 128 + 128, v4];
      assert PutVarint(v2) == [v2 % 128 + 128] + PutVarint(v3);
      assert PutVarint(v1) == [v1 % 128 + 128] + PutVarint(v2);
    }
  }

  /** At most five bytes; bits above the 32nd are lost. */
  function GetVarint32(b: Bytes): (r: Option<(nat, nat)>)
    ensures r.Some? ==> r.value.0 < 0x1_0000_0000 && 0 < r.value.1 <= |b|
  {
    match GetVarint(b, 5)
    case None => None
    case Some((v, n)) => var low: nat := v % 0x1_0000_0000; Some((low, n))
  }

  lemma Varint32RoundTrip(v: Word, tail: Bytes)
    ensures GetVarint32(PutVarint(v) + tail) == Some((v, |PutVarint(v)|))
  {
    WordLength(v);
    VarintRoundTrip(v, tail, 5);
  }

  /** GetVarint32PtrFallback. */
  method GetVarint32Ptr(b: Bytes) returns (r: Option<(nat, nat)>)
    ensures r == GetVarint32(b)
  {
    var whole := ReadVarint(b, 5);
    match whole {
      case None => r := None;
      case Some((v, n)) => r := Some((v % 0x1_0000_0000, n));
    }
  }

  /** The loop of the varint readers: seven bits at a time, `limit` bytes at most. */
  method ReadVarint(b: Bytes, limit: nat) returns (r: Option<(nat, nat)>)
    ensures r == GetVarint(b, limit)
  {
    var p: nat, result: nat, scale: nat := 0, 0, 1;
    ghost var all := GetVarint(b, limit);
    AccumulateStart(b, limit);
    while p < limit && p < |b|
      invariant Accumulates(all, b, p, result, scale, limit)
      decreases limit - p
    {
      var byte: nat := b[p];
      AccumulateStep(all, b, p, result, scale, limit, byte);
      p := p + 1;
      if byte < 128 {
        return Some((result + scale * byte, p));
      }
      result := result + scale * (byte - 128);
      scale := scale * 128;
    }
    r := None;
  }

  function Scaled(result: nat, scale: nat, p: nat, rest: Option<(nat, nat)>): (r: Option<(nat, nat)>) {
    match rest
    case None => None
    case Some((v, n)) => var sum: nat := result + scale * v; Some((sum, p + n))
  }

  /** After `p` bytes that said that more follow, the value is what was added up and the rest, scaled. */
  ghost predicate Accumulates(all: Option<(nat, nat)>, b: Bytes, p: nat, result: nat, scale: nat, limit: nat) {
    p <= limit && p <= |b| && all == Scaled(result, scale, p, GetVarint(b[p..], limit - p))
  }

  lemma AccumulateStep(all: Option<(nat, nat)>, b: Bytes, p: nat, result: nat, scale: nat, limit: nat, byte: nat)
    requires Accumulates(all, b, p, result, scale, limit) && p < limit && p < |b| && byte == b[p]
    ensures byte < 128 ==> all == Some((result + scale * byte, p + 1))
    ensures byte >= 128 ==> Accumulates(all, b, p + 1, result + scale * (byte - 128), scale * 128, limit)
  {
    GetVarintTail(b, p, limit - p);
    StepValue(all, GetVarint(b[p..], limit - p), GetVarint(b[p + 1..], limit - (p + 1)), result, scale, p, byte);
  }

  lemma StepValue(all: Option<(nat, nat)>, rest: Option<(nat, nat)>, later: Option<(nat, nat)>, result: nat, scale: nat, p: nat, byte: nat)
    requires all == Scaled(result, scale, p, rest)
    requires rest == if byte < 128 then Some((byte, 1)) else Scaled(byte - 128, 128, 1, later)
    ensures byte < 128 ==> all == Some((result + scale * byte, p + 1))
    ensures byte >= 128 ==> all == Scaled(result + scale * (byte - 128), scale * 128, p + 1, later)
  {
    if byte >= 128 { ScaledStep(result, scale, p, byte - 128, later); }
  }

  lemma GetVarintTail(b: Bytes, p: nat, n: nat)
    requires p < |b| && n > 0
    ensures var byte: nat := b[p];
      GetVarint(b[p..], n) == if byte < 128 then Some((byte, 1)) else Scaled(byte - 128, 128, 1, GetVarint(b[p + 1..], n - 1))
  {
    assert b[p..][1..] == b[p + 1..];
  }

  lemma AccumulateStart(b: Bytes, limit: nat)
    ensures Accumulates(GetVarint(b, limit), b, 0, 0, 1, limit)
  {
    assert b[0..] == b;
  }

  lemma ScaledStep(result: nat, scale: nat, p: nat, low: nat, rest: Option<(nat, nat)>)
    ensures Scaled(result, scale, p, Scaled(low, 128, 1, rest)) == Scaled(result + scale * low, scale * 128, p + 1, rest)
  {
    if rest.Some? {
      var v: nat := rest.value.0;
      assert scale * (low + 128 * v) == scale * low + scale * 128 * v;
    }
  }
}
