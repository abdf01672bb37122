/** The bloom filter (util/bloom.cc): a key that went into a filter always matches it. */
module Bloom {
  import opened Arithmetic
  import opened Coding

  /** x & (1 << b) is not zero. */
  predicate Bit(x: nat, b: nat) {
    if b == 0 then x % 2 == 1 else Bit(x / 2, b - 1)
  }

  /** x | (1 << b). */
  function SetBit(x: nat, b: nat): nat {
    if b == 0 then x - x % 2 + 1 else 2 * SetBit(x / 2, b - 1) + x % 2
  }

  function Power2(n: nat): (p: nat)
    ensures p > 0
  {
    if n == 0 then 1 else 2 * Power2(n - 1)
  }

  lemma {:induction false} SetBitFits(x: nat, b: nat, n: nat)
    requires b < n && x < Power2(n)
    ensures SetBit(x, b) < Power2(n)
  {
    var half := Power2(n - 1);
    assert Power2(n) == 2 * half && x / 2 < half;
    if b > 0 {
      SetBitFits(x / 2, b - 1, n - 1);
      assert SetBit(x, b) == 2 * SetBit(x / 2, b - 1) + x % 2;
    } else {
      assert SetBit(x, b) == 2 * (x / 2) + 1;
    }
  }

  lemma {:induction false} SetBitSets(x: nat, b: nat, c: nat)
    ensures Bit(SetBit(x, b), c) <==> b == c || Bit(x, c)
  {
    if b > 0 && c > 0 { SetBitSets(x / 2, b - 1, c - 1); }
    if b == 0 && c > 0 { assert SetBit(x, 0) / 2 == x / 2; }
  }

  /** Bits are counted from the low end. */
  lemma {:induction false} BitIs(x: nat, b: nat)
    ensures Bit(x, b) <==> x / Power2(b) % 2 == 1
    decreases b
  {
    if b > 0 {
      BitIs(x / 2, b - 1);
      DivideTwice(x, Power2(b - 1));
    }
  }

  lemma DivideTwice(x: nat, p: nat)
    requires p > 0
    ensures x / 2 / p == x / (2 * p)
  {
    var q, r := x / 2 / p, x / 2 % p;
    assert x / 2 == q * p + r;
    Quotient(x, 2 * p, q, 2 * r + x % 2);
  }

  type Hash = Bytes -> Word

  /** The hash rotated right by 17 bits. */
  function Delta(h: Word): Word {
    var high: int, low: int := h / 0x2_0000, h % 0x2_0000;
    high + low * 0x8000
  }

  /** Rotating right by 17 bits undoes doubling 17 times, modulo 2^32 - 1. */
  lemma DeltaIsRotated(h: Word)
    ensures Delta(h) as int * 0x2_0000 % 0xffff_ffff == h as int % 0xffff_ffff
  {
    var high: int, low: int := h / 0x2_0000, h % 0x2_0000;
    assert Delta(h) as int * 0x2_0000 == h + low * 0xffff_ffff;
  }

  /** The probes are an arithmetic progression modulo 2^32. */
  lemma {:induction false} ProbeIs(h: Word, j: nat)
    ensures Probe(h, j) as int == (h as int + j * Delta(h) as int) % 0x1_0000_0000
    decreases j
  {
    if j > 0 {
      ProbeIs(h, j - 1);
      OneMore(j, Delta(h));
      AddModulo(h as int + (j - 1) * Delta(h) as int, Delta(h));
    }
  }

  lemma OneMore(j: nat, d: nat)
    requires j > 0
    ensures (j - 1) * d + d == j * d && (j - 1) * d >= 0
  {
  }

  lemma AddModulo(a: nat, b: nat)
    ensures (a % 0x1_0000_0000 + b) % 0x1_0000_0000 == (a + b) % 0x1_0000_0000
  {
  }

  /** The `j`-th probe: double hashing modulo 2^32. */
  function Probe(h: Word, j: nat): Word {
    if j == 0 then h else
      var sum: int := Probe(h, j - 1) + Delta(h);
      sum % 0x1_0000_0000
  }

  /** Bit `pos` of a sequence of bytes. */
  predicate IsSet(bytes: Bytes, pos: nat)
    requires pos < 8 * |bytes|
  {
    Bit(bytes[pos / 8], pos % 8)
  }

  /** All probes of a key hit bits that are set. */
  predicate Matches(bytes: Bytes, h: Word, k: nat)
    requires |bytes| > 0
  {
    forall j :: 0 <= j < k ==> IsSet(bytes, Probe(h, j) % (8 * |bytes|))
  }

  /** Setting a bit leaves every other bit as it was. */
  function WithBit(bytes: Bytes, pos: nat): (r: Bytes)
    requires pos < 8 * |bytes|
    ensures |r| == |bytes|
  {
    SetBitFits(bytes[pos / 8], pos % 8, 8);
    assert Power2(8) == 256;
    bytes[pos / 8 := SetBit(bytes[pos / 8], pos % 8)]
  }

  lemma WithBitSets(bytes: Bytes, pos: nat, at: nat)
    requires pos < 8 * |bytes| && at < 8 * |bytes|
    ensures IsSet(WithBit(bytes, pos), at) <==> at == pos || IsSet(bytes, at)
  {
    SetBitSets(bytes[pos / 8], pos % 8, at % 8);
  }

  /** Bits are only ever set. */
  ghost predicate Grows(a: Bytes, b: Bytes) {
    |a| == |b| && forall pos :: 0 <= pos < 8 * |a| && IsSet(a, pos) ==> IsSet(b, pos)
  }

  lemma GrowsKeepsMatch(a: Bytes, b: Bytes, h: Word, k: nat)
    requires |a| > 0 && Grows(a, b) && Matches(a, h, k)
    ensures Matches(b, h, k)
  {
  }

  /** One more probe keeps the bits of all earlier ones. */
  lemma AddProbe(start: Bytes, r: Bytes, pos: nat, h: Word, j: nat)
    requires |r| > 0 && Grows(start, r) && Matches(r, h, j) && pos == Probe(h, j) % (8 * |r|)
    ensures Grows(start, WithBit(r, pos)) && Matches(WithBit(r, pos), h, j + 1)
  {
    forall at | 0 <= at < 8 * |r| ensures IsSet(WithBit(r, pos), at) <==> at == pos || IsSet(r, at) {
      WithBitSets(r, pos, at);
    }
  }

  // ----- the filter as a value -----

  /** At most 30 probes: more are reserved for other encodings. */
  type Probes = k: nat | k <= 30

  /** The bits of `k` probes set. */
  function WithProbes(bytes: Bytes, h: Word, k: nat): (r: Bytes)
    requires |bytes| > 0
    ensures |r| == |bytes|
  {
    if k == 0 then bytes
    else
      var r := WithProbes(bytes, h, k - 1);
      WithBit(r, Probe(h, k - 1) % (8 * |r|))
  }

  /** The bits of all keys set. */
  function WithKeys(bytes: Bytes, hash: Hash, k: nat, keys: seq<Bytes>): (r: Bytes)
    requires |bytes| > 0
    ensures |r| == |bytes|
  {
    if keys == [] then bytes
    else WithProbes(WithKeys(bytes, hash, k, keys[..|keys| - 1]), hash(keys[|keys| - 1]), k)
  }

  function NoBits(bits: nat): (bytes: Bytes)
    ensures |bytes| == (bits + 7) / 8
  {
    seq((bits + 7) / 8, i => 0)
  }

  /** What CreateFilter appends. */
  function FilterBytes(bitsPerKey: nat, k: Probes, hash: Hash, keys: seq<Bytes>): Bytes {
    WithKeys(NoBits(Max(64, |keys| * bitsPerKey)), hash, k, keys) + [k]
  }

  /** What KeyMayMatch answers. */
  predicate MayMatch(hash: Hash, key: Bytes, filter: Bytes) {
    if |filter| < 2 then false
    else
      var probes := filter[|filter| - 1];
      probes > 30 || Matches(filter[..|filter| - 1], hash(key), probes)
  }

  lemma {:induction false} ProbesMatch(bytes: Bytes, h: Word, k: nat)
    requires |bytes| > 0
    ensures Grows(bytes, WithProbes(bytes, h, k)) && Matches(WithProbes(bytes, h, k), h, k)
  {
    if k > 0 {
      ProbesMatch(bytes, h, k - 1);
      var r := WithProbes(bytes, h, k - 1);
      AddProbe(bytes, r, Probe(h, k - 1) % (8 * |r|), h, k - 1);
    }
  }

  lemma {:induction false} KeysMatch(bytes: Bytes, hash: Hash, k: nat, keys: seq<Bytes>, i: nat)
    requires |bytes| > 0 && i < |keys|
    ensures Matches(WithKeys(bytes, hash, k, keys), hash(keys[i]), k)
  {
    var n := |keys| - 1;
    var before := WithKeys(bytes, hash, k, keys[..n]);
    ProbesMatch(before, hash(keys[n]), k);
    if i < n {
      KeysMatch(bytes, hash, k, keys[..n], i);
      GrowsKeepsMatch(before, WithProbes(before, hash(keys[n]), k), hash(keys[i]), k);
    }
  }

  /** No false negatives: whatever keys, parameters and hash, a stored key matches. */
  lemma FilterMatchesItsKeys(bitsPerKey: nat, k: Probes, hash: Hash, keys: seq<Bytes>, i: nat)
    requires i < |keys|
    ensures MayMatch(hash, keys[i], FilterBytes(bitsPerKey, k, hash, keys))
  {
    var none := NoBits(Max(64, |keys| * bitsPerKey));
    var filter := FilterBytes(bitsPerKey, k, hash, keys);
    assert filter[..|filter| - 1] == WithKeys(none, hash, k, keys);
    KeysMatch(none, hash, k, keys, i);
  }

  lemma AllKeysMatch(bitsPerKey: nat, k: Probes, hash: Hash, keys: seq<Bytes>)
    ensures var filter := FilterBytes(bitsPerKey, k, hash, keys);
      forall i :: 0 <= i < |keys| ==> Matches(filter[..|filter| - 1], hash(keys[i]), k)
  {
    var filter := FilterBytes(bitsPerKey, k, hash, keys);
    forall i | 0 <= i < |keys| ensures Matches(filter[..|filter| - 1], hash(keys[i]), k) {
      FilterMatchesItsKeys(bitsPerKey, k, hash, keys, i);
    }
  }

  /** Some probe of some key hits the bit. */
  ghost predicate Hit(hash: Hash, keys: seq<Bytes>, k: nat, bits: nat, pos: nat)
    requires bits > 0
  {
    exists i, j :: 0 <= i < |keys| && 0 <= j < k && pos == Probe(hash(keys[i]), j) % bits
  }

  ghost predicate HitBy(h: Word, k: nat, bits: nat, pos: nat)
    requires bits > 0
  {
    exists j :: 0 <= j < k && pos == Probe(h, j) % bits
  }

  lemma {:induction false} ProbesSet(bytes: Bytes, h: Word, k: nat, pos: nat)
    requires |bytes| > 0 && pos < 8 * |bytes|
    ensures IsSet(WithProbes(bytes, h, k), pos) <==> IsSet(bytes, pos) || HitBy(h, k, 8 * |bytes|, pos)
    decreases k
  {
    if k > 0 {
      ProbesSet(bytes, h, k - 1, pos);
      WithBitSets(WithProbes(bytes, h, k - 1), Probe(h, k - 1) % (8 * |bytes|), pos);
      if HitBy(h, k, 8 * |bytes|, pos) {
        var j :| 0 <= j < k && pos == Probe(h, j) % (8 * |bytes|);
        assert j == k - 1 || HitBy(h, k - 1, 8 * |bytes|, pos);
      }
    }
  }

  lemma HitByLast(hash: Hash, keys: seq<Bytes>, k: nat, bits: nat, pos: nat)
    requires bits > 0 && keys != []
    ensures var n := |keys| - 1; Hit(hash, keys, k, bits, pos) <==> Hit(hash, keys[..n], k, bits, pos) || HitBy(hash(keys[n]), k, bits, pos)
  {
    var n := |keys| - 1;
    if Hit(hash, keys, k, bits, pos) {
      var i, j :| 0 <= i < |keys| && 0 <= j < k && pos == Probe(hash(keys[i]), j) % bits;
      assert i < n ==> keys[..n][i] == keys[i];
    }
    if Hit(hash, keys[..n], k, bits, pos) {
      var i, j :| 0 <= i < n && 0 <= j < k && pos == Probe(hash(keys[..n][i]), j) % bits;
      assert keys[i] == keys[..n][i];
    }
  }

  /** A bit of the filter is set if and only if a probe of a key hits it. */
  lemma {:induction false} KeysSet(bytes: Bytes, hash: Hash, k: nat, keys: seq<Bytes>, pos: nat)
    requires |bytes| > 0 && pos < 8 * |bytes|
    ensures IsSet(WithKeys(bytes, hash, k, keys), pos) <==> IsSet(bytes, pos) || Hit(hash, keys, k, 8 * |bytes|, pos)
    decreases |keys|
  {
    if keys != [] {
      var n := |keys| - 1;
      KeysSet(bytes, hash, k, keys[..n], pos);
      ProbesSet(WithKeys(bytes, hash, k, keys[..n]), hash(keys[n]), k, pos);
      HitByLast(hash, keys, k, 8 * |bytes|, pos);
    }
  }

  lemma {:induction false} ZeroHasNoBits(b: nat)
    ensures !Bit(0, b)
    decreases b
  {
    if b > 0 { ZeroHasNoBits(b - 1); }
  }

  ghost predicate ExactAt(bytes: Bytes, hash: Hash, keys: seq<Bytes>, k: nat, pos: nat)
    requires pos < 8 * |bytes|
  {
    IsSet(bytes, pos) <==> Hit(hash, keys, k, 8 * |bytes|, pos)
  }

  /** The bits that are set are just those that the keys hit. */
  ghost predicate Exact(bytes: Bytes, hash: Hash, keys: seq<Bytes>, k: nat) {
    forall pos :: 0 <= pos < 8 * |bytes| ==> ExactAt(bytes, hash, keys, k, pos)
  }

  lemma FilterIsExact(bitsPerKey: nat, k: Probes, hash: Hash, keys: seq<Bytes>)
    ensures var filter := FilterBytes(bitsPerKey, k, hash, keys);
      Exact(filter[..|filter| - 1], hash, keys, k)
  {
    var none, filter := NoBits(Max(64, |keys| * bitsPerKey)), FilterBytes(bitsPerKey, k, hash, keys);
    assert filter[..|filter| - 1] == WithKeys(none, hash, k, keys);
    forall pos | 0 <= pos < 8 * |none| ensures ExactAt(WithKeys(none, hash, k, keys), hash, keys, k, pos) {
      KeysSet(none, hash, k, keys, pos);
      ZeroHasNoBits(pos % 8);
    }
  }

  function Max(a: nat, b: nat): nat { if a < b then b else a }

  class Policy {
    const bitsPerKey: nat
    const k: Probes
    const hash: Hash

    /** `k` is bitsPerKey * 0.69, cut to the range 1..30. */
    constructor (bitsPerKey: nat, hash: Hash)
      ensures this.bitsPerKey == bitsPerKey && this.hash == hash && 1 <= k
      ensures (k < 30 ==> 69 * bitsPerKey < 100 * (k + 1)) && (k > 1 ==> 100 * k <= 69 * bitsPerKey)
    {
      this.bitsPerKey, this.hash := bitsPerKey, hash;
      var probes := bitsPerKey * 69 / 100;
      if probes < 1 { probes := 1; }
      if probes > 30 { probes := 30; }
      k := probes;
    }

    /** The inner loop of CreateFilter. */
    method AddKey(bytes: Bytes, key: Bytes) returns (r: Bytes)
      requires |bytes| > 0
      ensures r == WithProbes(bytes, hash(key), k)
    {
      var h := hash(key);
      ghost var h0 := h;
      var delta := Delta(h);
      r := bytes;
      for j := 0 to k
        invariant h == Probe(h0, j) && r == WithProbes(bytes, h0, j)
      {
        var pos := h % (8 * |r|);
        r := WithBit(r, pos);
        var sum: int := h + delta;
        h := sum % 0x1_0000_0000;
      }
    }

    /** One filter for all keys: the bits and, last, the number of probes. */
    method CreateFilter(keys: seq<Bytes>) returns (filter: Bytes)
      ensures filter == FilterBytes(bitsPerKey, k, hash, keys)
      ensures |filter| == (Max(64, |keys| * bitsPerKey) + 7) / 8 + 1 && filter[|filter| - 1] == k
      ensures forall i :: 0 <= i < |keys| ==> Matches(filter[..|filter| - 1], hash(keys[i]), k)
      ensures Exact(filter[..|filter| - 1], hash, keys, k)
    {
      var bits := |keys| * bitsPerKey;
      if bits < 64 { bits := 64; }
      var bytes := NoBits(bits);
      for i := 0 to |keys|
        invariant |bytes| == (bits + 7) / 8 && bytes == WithKeys(NoBits(bits), hash, k, keys[..i])
      {
        assert keys[..i + 1][..i] == keys[..i];
        bytes := AddKey(bytes, keys[i]);
      }
      assert keys[..|keys|] == keys;
      filter := bytes + [k];
      AllKeysMatch(bitsPerKey, k, hash, keys);
      FilterIsExact(bitsPerKey, k, hash, keys);
    }

    /** Exactly the test of all probes; short filters match nothing, long probe counts everything. */
    method KeyMayMatch(key: Bytes, filter: Bytes) returns (may: bool)
      ensures may == MayMatch(hash, key, filter)
      ensures |filter| < 2 ==> !may
      ensures |filter| >= 2 && filter[|filter| - 1] > 30 ==> may
      ensures |filter| >= 2 && filter[|filter| - 1] <= 30 ==>
        may == Matches(filter[..|filter| - 1], hash(key), filter[|filter| - 1])
    {
      if |filter| < 2 { return false; }
      var probes: nat := filter[|filter| - 1];
      if probes > 30 { return true; }
      may := TestProbes(key, filter[..|filter| - 1], probes);
    }

    method TestProbes(key: Bytes, bytes: Bytes, probes: nat) returns (may: bool)
      requires |bytes| > 0
      ensures may == Matches(bytes, hash(key), probes)
    {
      var h := hash(key);
      ghost var h0 := h;
      var delta := Delta(h);
      for j := 0 to probes
        invariant h == Probe(h0, j) && Matches(bytes, h0, j)
      {
        var pos := h % (8 * |bytes|);
        if !IsSet(bytes, pos) {
          assert !IsSet(bytes, Probe(h0, j) % (8 * |bytes|));
          return false;
        }
        var sum: int := h + delta;
        h := sum % 0x1_0000_0000;
      }
      may := true;
    }
  }

  /** No false negatives: whatever keys, parameters and hash, a stored key matches. */
  method StoredKeyMatches(policy: Policy, keys: seq<Bytes>, i: nat) returns (may: bool)
    requires i < |keys|
    ensures may
  {
    var filter := policy.CreateFilter(keys);
    may := policy.KeyMayMatch(keys[i], filter);
  }
}
