/**
 What the bytes of fixed-width numbers and varints mean, digit by digit: the partner of the
 recursive readers and writers of module Coding.
 */
module Numerals {
  import opened Options
  import opened Arithmetic
  import opened Coding

  /** The number with these digits in base 256, least significant first. */
  ghost function Base256(b: Bytes): nat {
    if b == [] then 0 else
      var n := |b| - 1;
      var top: int := b[n];
      Base256(b[..n]) + top * Power256(n)
  }

  /** The same in base 128; the top bit of a byte is no part of its digit. */
  ghost function Base128(b: Bytes): nat {
    if b == [] then 0 else
      var n := |b| - 1;
      var top: int := b[n] % 128;
      Base128(b[..n]) + top * Power128(n)
  }

  /** Every byte but the last says that more follow. */
  ghost predicate Terminated(b: Bytes) {
    b != [] && b[|b| - 1] < 128 && forall i :: 0 <= i < |b| - 1 ==> b[i] >= 128
  }

  /** A varint of this value, without leading zeros. */
  ghost predicate IsVarint(b: Bytes, v: nat) {
    Terminated(b) && Base128(b) == v && (|b| > 1 ==> b[|b| - 1] > 0)
  }

  ghost predicate IsFixed(b: Bytes, n: nat, v: nat) {
    |b| == n && Base256(b) == v
  }

  // ----- digits from the front -----

  lemma {:induction false} Base256Cons(x: Byte, rest: Bytes)
    ensures Base256([x] + rest) == x + 256 * Base256(rest)
    decreases |rest|
  {
    var b := [x] + rest;
    var n := |rest| - 1;
    if rest == [] {
      assert b[..0] == [];
    } else {
      Base256Cons(x, rest[..n]);
      assert b[..|b| - 1] == [x] + rest[..n];
      Distribute(256, Base256(rest[..n]), rest[n], Power256(n));
    }
  }

  lemma {:induction false} Base128Cons(x: Byte, rest: Bytes)
    ensures Base128([x] + rest) == x % 128 + 128 * Base128(rest)
    decreases |rest|
  {
    var b := [x] + rest;
    var n := |rest| - 1;
    if rest == [] {
      assert b[..0] == [];
    } else {
      Base128Cons(x, rest[..n]);
      assert b[..|b| - 1] == [x] + rest[..n];
      Distribute(128, Base128(rest[..n]), rest[n] % 128, Power128(n));
    }
  }

  lemma Distribute(k: nat, a: nat, x: nat, p: nat)
    ensures k * (a + x * p) == k * a + x * (k * p)
  {
  }

  // ----- the writers -----

  lemma {:induction false} FixedIs(v: nat, n: nat)
    requires v < Power256(n)
    ensures IsFixed(PutFixed(v, n), n, v)
    decreases n
  {
    if n > 0 {
      FixedIs(v / 256, n - 1);
      Base256Cons(v % 256, PutFixed(v / 256, n - 1));
    }
  }

  lemma Fixed32Is(v: Word)
    ensures IsFixed(EncodeFixed32(v), 4, v)
  {
    var b := EncodeFixed32(v);
    assert b == [b[0]] + ([b[1]] + ([b[2]] + ([b[3]] + [])));
    Base256Cons(b[3], []);
    Base256Cons(b[2], [b[3]] + []);
    Base256Cons(b[1], [b[2]] + ([b[3]] + []));
    Base256Cons(b[0], [b[1]] + ([b[2]] + ([b[3]] + [])));
  }

  lemma {:induction false} VarintIs(v: nat)
    ensures IsVarint(PutVarint(v), v)
    decreases v
  {
    if v < 128 {
      assert [v] == [v] + [];
      Base128Cons(v, []);
    } else {
      VarintIs(v / 128);
      Prepended(v, PutVarint(v / 128));
    }
  }

  lemma Prepended(v: nat, rest: Bytes)
    requires v >= 128 && IsVarint(rest, v / 128)
    ensures IsVarint([128 + v % 128] + rest, v)
  {
    var b := [128 + v % 128] + rest;
    Base128Cons(128 + v % 128, rest);
    if |rest| == 1 { OneByte(rest, v / 128); }
    assert b[|b| - 1] == rest[|rest| - 1];
  }

  lemma LeadingDigit(b: Bytes)
    requires b != [] && b[|b| - 1] % 128 > 0
    ensures Base128(b) > 0
  {
    PowerPositive(|b| - 1);
    var top: int, p := b[|b| - 1] % 128, Power128(|b| - 1);
    assert top * p >= p;
  }

  lemma {:induction false} PowerPositive(n: nat)
    ensures Power128(n) > 0
  {
    if n > 0 { PowerPositive(n - 1); }
  }

  lemma VarintTail(b: Bytes, v: nat)
    requires IsVarint(b, v) && |b| > 1
    ensures IsVarint(b[1..], v / 128) && b[0] == 128 + v % 128 && v >= 128
  {
    var x: int, rest := b[0], b[1..];
    assert b == [b[0]] + rest;
    Base128Cons(b[0], rest);
    TailTerminated(b, |b|);
    assert b[..|b|] == b && rest[..|rest|] == rest && rest[|rest| - 1] == b[|b| - 1];
    LeadingDigit(rest);
    Quotient(v, 128, Base128(rest), x - 128);
  }

  lemma PutStep(v: nat, b: Bytes)
    requires v >= 128 && |b| > 0 && b[0] == 128 + v % 128 && b[1..] == PutVarint(v / 128)
    ensures b == PutVarint(v)
  {
    assert b == [b[0]] + b[1..];
  }

  lemma OneByte(b: Bytes, v: nat)
    requires IsVarint(b, v) && |b| == 1
    ensures b == [v] && v < 128
  {
    assert b == [b[0]] + [];
    Base128Cons(b[0], []);
  }

  /** There is one such varint. */
  lemma {:induction false} VarintUnique(b: Bytes, v: nat)
    requires IsVarint(b, v)
    ensures b == PutVarint(v)
    decreases |b|
  {
    if |b| == 1 {
      OneByte(b, v);
    } else {
      VarintTail(b, v);
      VarintUnique(b[1..], v / 128);
      PutStep(v, b);
    }
  }

  lemma FixedTail(b: Bytes, n: nat, v: nat)
    requires IsFixed(b, n, v) && n > 0
    ensures IsFixed(b[1..], n - 1, v / 256) && b[0] == v % 256
  {
    assert b == [b[0]] + b[1..];
    Base256Cons(b[0], b[1..]);
    Quotient(v, 256, Base256(b[1..]), b[0]);
  }

  lemma {:induction false} FixedUnique(b: Bytes, n: nat, v: nat)
    requires IsFixed(b, n, v)
    ensures b == PutFixed(v, n)
    decreases n
  {
    if n > 0 {
      FixedTail(b, n, v);
      FixedUnique(b[1..], n - 1, v / 256);
      assert b == [b[0]] + b[1..];
    }
  }

  // ----- the readers -----

  lemma {:induction false} FixedMeans(b: Bytes, n: nat)
    requires n <= |b|
    ensures GetFixed(b, n) == Base256(b[..n])
    decreases n
  {
    if n > 0 {
      FixedMeans(b[1..], n - 1);
      Base256Cons(b[0], b[1..][..n - 1]);
      assert b[..n] == [b[0]] + b[1..][..n - 1];
    }
  }

  /** Reading succeeds exactly on a terminated numeral of at most `n` bytes, and returns its value and length. */
  lemma {:induction false} VarintMeans(b: Bytes, n: nat, k: nat)
    ensures 0 < k <= |b| && k <= n && Terminated(b[..k]) ==> GetVarint(b, n) == Some((Base128(b[..k]), k))
    ensures GetVarint(b, n).Some? ==> var (v, m) := GetVarint(b, n).value; m <= n && Terminated(b[..m]) && Base128(b[..m]) == v
    decreases n
  {
    if n > 0 && b != [] {
      var x, rest := b[0], b[1..];
      if x < 128 {
        assert b[..1] == [x] + [];
        Base128Cons(x, []);
      } else {
        VarintMeans(rest, n - 1, if k > 0 then k - 1 else 0);
        if 0 < k <= |b| && k <= n && Terminated(b[..k]) { TailTerminated(b, k); }
        if GetVarint(rest, n - 1).Some? { LongerNumeral(b, GetVarint(rest, n - 1).value.1); }
        if k > 0 && k <= |b| {
          assert b[..k] == [x] + rest[..k - 1];
          Base128Cons(x, rest[..k - 1]);
        }
      }
    }
  }

  lemma TailTerminated(b: Bytes, k: nat)
    requires 0 < k <= |b| && Terminated(b[..k]) && b[0] >= 128
    ensures k > 1 && Terminated(b[1..][..k - 1])
  {
    var t, u := b[..k], b[1..][..k - 1];
    assert t[0] == b[0];
    assert forall i :: 0 <= i < |u| ==> u[i] == t[i + 1];
  }

  lemma LongerNumeral(b: Bytes, m: nat)
    requires b != [] && b[0] >= 128 && 0 < m <= |b[1..]| && Terminated(b[1..][..m])
    ensures Terminated(b[..m + 1]) && Base128(b[..m + 1]) == b[0] - 128 + 128 * Base128(b[1..][..m])
  {
    assert b[..m + 1] == [b[0]] + b[1..][..m];
    Base128Cons(b[0], b[1..][..m]);
  }
}
