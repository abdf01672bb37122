/**
 The layout of a block (table/block_builder.cc): entries with prefix-compressed
 keys, restart points, and the bytes of both.
 */
module BlockFormat {
  import opened Options
  import opened Coding
  import opened Numerals
  import opened ByteLayout

  datatype KeyValue = KeyValue(key: Bytes, value: Bytes)

  /** The length of the longest common prefix. */
  function Common(a: Bytes, b: Bytes): (n: nat)
    ensures n <= |a| && n <= |b| && a[..n] == b[..n]
    ensures n < |a| && n < |b| ==> a[n] != b[n]
  {
    if a == [] || b == [] || a[0] != b[0] then 0
    else
      var n := Common(a[1..], b[1..]);
      assert a[..n + 1] == [a[0]] + a[1..][..n] && b[..n + 1] == [b[0]] + b[1..][..n];
      n + 1
  }

  /** How much of key `i` is taken from key `i - 1`; restarts share nothing. */
  function Shared(es: seq<KeyValue>, interval: nat, i: nat): (n: nat)
    requires i < |es| && interval > 0
    ensures n <= |es[i].key| && (n > 0 ==> i > 0 && n <= |es[i - 1].key| && es[i - 1].key[..n] == es[i].key[..n])
  {
    if i % interval == 0 then 0 else Common(es[i - 1].key, es[i].key)
  }

  function EntryBytes(shared: nat, e: KeyValue): (b: Bytes)
    requires shared <= |e.key|
  {
    PutVarint(shared) + PutVarint(|e.key| - shared) + PutVarint(|e.value|) + e.key[shared..] + e.value
  }

  /** The first `n` entries as bytes. */
  function Data(es: seq<KeyValue>, interval: nat, n: nat): (b: Bytes)
    requires n <= |es| && interval > 0
  {
    if n == 0 then [] else Data(es, interval, n - 1) + EntryBytes(Shared(es, interval, n - 1), es[n - 1])
  }

  /** Where entry `i` starts. */
  function Offset(es: seq<KeyValue>, interval: nat, i: nat): nat
    requires i <= |es| && interval > 0
  {
    |Data(es, interval, i)|
  }

  /** Every interval-th entry is a restart point; an empty block has one too. */
  function RestartCount(n: nat, interval: nat): (r: nat)
    requires interval > 0
    ensures r > 0
  {
    if n == 0 then 1 else (n - 1) / interval + 1
  }

  type Encoder = Word -> Bytes

  ghost predicate FourBytes(encode: Encoder) {
    forall w :: |encode(w)| == 4
  }

  function Encoded(encode: Encoder, words: seq<Word>): (b: Bytes)
    requires FourBytes(encode)
    ensures |b| == 4 * |words|
  {
    if words == [] then [] else Encoded(encode, words[..|words| - 1]) + encode(words[|words| - 1])
  }

  lemma {:induction false} EncodedAt(encode: Encoder, words: seq<Word>, i: nat)
    requires FourBytes(encode) && i < |words|
    ensures Encoded(encode, words)[4 * i..4 * i + 4] == encode(words[i])
  {
    var n := |words| - 1;
    var front := Encoded(encode, words[..n]);
    if i < n {
      EncodedAt(encode, words[..n], i);
      SliceInFront(front, encode(words[n]), 4 * i, 4 * i + 4);
    } else {
      SliceAtEnd(front, encode(words[n]));
    }
  }

  lemma SliceInFront(a: Bytes, b: Bytes, x: nat, y: nat)
    requires x <= y <= |a|
    ensures (a + b)[x..y] == a[x..y]
  {
  }

  lemma SliceAtEnd(a: Bytes, b: Bytes)
    ensures (a + b)[|a|..|a| + |b|] == b
  {
  }

  /** The restart array: 32-bit numbers, low byte first. */
  function FixedArray(words: seq<Word>): (b: Bytes)
    ensures |b| == 4 * |words|
  {
    Encoded(EncodeFixed32, words)
  }

  // ----- reading an entry -----

  datatype Header = Header(shared: nat, nonShared: nat, valueLength: nat, size: nat)

  /** DecodeEntry on the bytes from an entry to the restart array; `size` is the length of the three numbers. */
  function DecodeEntry(b: Bytes): (h: Option<Header>)
    ensures h.Some? ==> h.value.size + h.value.nonShared + h.value.valueLength <= |b|
  {
    if |b| < 3 then None
    else if b[0] < 128 && b[1] < 128 && b[2] < 128 then Bounded(Header(b[0], b[1], b[2], 3), |b|)
    else DecodeSlow(b)
  }

  function DecodeSlow(b: Bytes): (h: Option<Header>)
    ensures h.Some? ==> h.value.size + h.value.nonShared + h.value.valueLength <= |b|
  {
    DecodeThree(GetVarint32, b)
  }

  /** Takes a number off the front of a sequence of bytes. */
  type Taker = Bytes -> Option<(nat, nat)>

  ghost predicate Bounds(take: Taker) {
    forall b :: take(b).Some? ==> take(b).value.1 <= |b|
  }

  function DecodeThree(take: Taker, b: Bytes): (h: Option<Header>)
    requires Bounds(take)
    ensures h.Some? ==> h.value.size + h.value.nonShared + h.value.valueLength <= |b|
  {
    match take(b)
    case None => None
    case Some((shared, n0)) =>
      match take(b[n0..])
      case None => None
      case Some((nonShared, n1)) =>
        match take(b[n0 + n1..])
        case None => None
        case Some((valueLength, n2)) => Bounded(Header(shared, nonShared, valueLength, n0 + n1 + n2), |b|)
  }

  /** The fast path reads what the other path would. */
  lemma FastIsSlow(b: Bytes)
    requires |b| >= 3
    ensures DecodeEntry(b) == DecodeSlow(b)
  {
    if b[0] < 128 && b[1] < 128 && b[2] < 128 {
      OneByteVarint(b);
      OneByteVarint(b[1..]);
      OneByteVarint(b[1 + 1..]);
    }
  }

  lemma OneByteVarint(b: Bytes)
    requires |b| > 0 && b[0] < 128
    ensures GetVarint32(b) == Some((b[0], 1))
  {
  }

  function Bounded(h: Header, size: nat): (r: Option<Header>)
    ensures r.Some? <==> h.size + h.nonShared + h.valueLength <= size
    ensures r.Some? ==> r.value == h
  {
    if size < h.size + h.nonShared + h.valueLength then None else Some(h)
  }

  lemma ThreeParts(take: Taker, p: Bytes, q: Bytes, r: Bytes, rest: Bytes, x: nat, y: nat, z: nat)
    requires Bounds(take) && y + z <= |rest|
    requires take(p + (q + (r + rest))) == Some((x, |p|))
    requires take(q + (r + rest)) == Some((y, |q|))
    requires take(r + rest) == Some((z, |r|))
    ensures DecodeThree(take, p + (q + (r + rest))) == Some(Header(x, y, z, |p| + |q| + |r|))
  {
    var b := p + (q + (r + rest));
    assert b[|p|..] == q + (r + rest);
    assert b[|p| + |q|..] == r + rest;
  }

  lemma ThreeVarints(x: Word, y: Word, z: Word, rest: Bytes, p: Bytes, q: Bytes, r: Bytes)
    requires y + z <= |rest| && p == PutVarint(x) && q == PutVarint(y) && r == PutVarint(z)
    ensures DecodeSlow(p + (q + (r + rest))) == Some(Header(x, y, z, |p| + |q| + |r|))
  {
    Varint32RoundTrip(x, q + (r + rest));
    Varint32RoundTrip(y, r + rest);
    Varint32RoundTrip(z, rest);
    ThreeParts(GetVarint32, p, q, r, rest, x, y, z);
  }

  lemma EntryJoined(p: Bytes, q: Bytes, r: Bytes, key: Bytes, value: Bytes, tail: Bytes)
    ensures p + q + r + key + value + tail == p + (q + (r + (key + value + tail)))
  {
  }

  lemma PartsRoundTrip(x: Word, y: Word, z: Word, rest: Bytes, p: Bytes, q: Bytes, r: Bytes, b: Bytes)
    requires y + z <= |rest| && p == PutVarint(x) && q == PutVarint(y) && r == PutVarint(z)
    requires b == p + (q + (r + rest))
    ensures DecodeEntry(b) == Some(Header(x, y, z, |p| + |q| + |r|))
  {
    ThreeVarints(x, y, z, rest, p, q, r);
    FastIsSlow(b);
  }

  /** What was written is read back, on the fast path and on the other. */
  lemma EntryRoundTrip(shared: nat, e: KeyValue, tail: Bytes)
    requires shared <= |e.key| < 0x1_0000_0000 && |e.value| < 0x1_0000_0000
    ensures DecodeEntry(EntryBytes(shared, e) + tail) == Some(Header(shared, |e.key| - shared, |e.value|, HeaderSize(shared, e)))
  {
    var p, q, r := PutVarint(shared), PutVarint(|e.key| - shared), PutVarint(|e.value|);
    EntryJoined(p, q, r, e.key[shared..], e.value, tail);
    PartsRoundTrip(shared, |e.key| - shared, |e.value|, e.key[shared..] + e.value + tail, p, q, r, EntryBytes(shared, e) + tail);
  }

  function HeaderSize(shared: nat, e: KeyValue): nat
    requires shared <= |e.key|
  {
    |PutVarint(shared)| + |PutVarint(|e.key| - shared)| + |PutVarint(|e.value|)|
  }

  // ----- where the entries are -----

  lemma OffsetStep(es: seq<KeyValue>, interval: nat, i: nat)
    requires i < |es| && interval > 0
    ensures Offset(es, interval, i) < Offset(es, interval, i + 1)
    ensures Data(es, interval, i + 1) == Data(es, interval, i) + EntryBytes(Shared(es, interval, i), es[i])
  {
  }

  lemma {:induction false} PiecesGrow(data: nat -> Bytes, i: nat, j: nat)
    requires i <= j && forall k, l :: i <= k < j && l == k + 1 ==> data(k) <= data(l)
    ensures data(i) <= data(j)
    decreases j
  {
    if i < j {
      PiecesGrow(data, i, j - 1);
      assert data(j - 1) <= data(j);
    }
  }

  lemma DataStep(es: seq<KeyValue>, interval: nat, i: nat)
    requires i < |es| && interval > 0
    ensures Data(es, interval, i) <= Data(es, interval, i + 1)
  {
  }

  lemma DataGrows(es: seq<KeyValue>, interval: nat, i: nat, j: nat)
    requires i <= j <= |es| && interval > 0
    ensures Data(es, interval, i) <= Data(es, interval, j)
  {
    var data := (k: nat) => if k <= |es| then Data(es, interval, k) else [];
    forall k, l | i <= k < j && l == k + 1 ensures data(k) <= data(l) { DataStep(es, interval, k); }
    PiecesGrow(data, i, j);
  }

  lemma OffsetsAscend(es: seq<KeyValue>, interval: nat, i: nat, j: nat)
    requires i <= j <= |es| && interval > 0
    ensures Offset(es, interval, i) <= Offset(es, interval, j)
    ensures i < j ==> Offset(es, interval, i) < Offset(es, interval, j)
    ensures Data(es, interval, i) <= Data(es, interval, j)
  {
    DataGrows(es, interval, i, j);
    if i < j {
      OffsetStep(es, interval, i);
      DataGrows(es, interval, i + 1, j);
    }
  }

  /** The bytes from entry `i` on start with it. */
  lemma EntryInPlace(es: seq<KeyValue>, interval: nat, i: nat, data: Bytes)
    requires i < |es| && interval > 0 && data == Data(es, interval, |es|)
    ensures Offset(es, interval, i + 1) <= |data|
    ensures data[Offset(es, interval, i)..Offset(es, interval, i + 1)] == EntryBytes(Shared(es, interval, i), es[i])
  {
    OffsetStep(es, interval, i);
    OffsetsAscend(es, interval, i + 1, |es|);
    PrefixTail(Data(es, interval, i), EntryBytes(Shared(es, interval, i), es[i]), data);
  }

  lemma PrefixTail(a: Bytes, b: Bytes, all: Bytes)
    requires a + b <= all
    ensures all[|a|..|a| + |b|] == b
  {
    assert (a + b)[|a|..] == b;
  }

  // ----- the layout, in numbers -----

  /** Three varints: bytes shared with the key before, other key bytes, value bytes; then those key bytes and the value. */
  function EntryParts(shared: nat, e: KeyValue): seq<Part>
    requires shared <= |e.key|
  {
    [Varint(shared), Varint(|e.key| - shared), Varint(|e.value|)] + [Raw(e.key[shared..]), Raw(e.value)]
  }

  lemma EntryIsParts(shared: nat, e: KeyValue)
    requires shared <= |e.key|
    ensures PutParts(EntryParts(shared, e)) == EntryBytes(shared, e)
  {
    var x, y, z := PutVarint(shared), PutVarint(|e.key| - shared), PutVarint(|e.value|);
    PutThree(Varint(shared), Varint(|e.key| - shared), Varint(|e.value|));
    PutTwo(Raw(e.key[shared..]), Raw(e.value));
    PutConcat([Varint(shared), Varint(|e.key| - shared), Varint(|e.value|)], [Raw(e.key[shared..]), Raw(e.value)]);
    JoinFive(x, y, z, e.key[shared..], e.value);
  }

  lemma JoinFive(x: Bytes, y: Bytes, z: Bytes, k: Bytes, v: Bytes)
    ensures x + (y + z) + (k + v) == x + y + z + k + v
  {
  }

  lemma EntryLayout(shared: nat, e: KeyValue, b: Bytes)
    requires shared <= |e.key|
    ensures b == EntryBytes(shared, e) <==> Laid(b, EntryParts(shared, e))
  {
    EntryIsParts(shared, e);
    LaidIff(b, EntryParts(shared, e));
  }

  /** What key `i` shares: at every `interval`-th entry nothing, and elsewhere as much as it has in common with the key before. */
  lemma SharedIsLongest(es: seq<KeyValue>, interval: nat, i: nat)
    requires i < |es| && interval > 0
    ensures var n := Shared(es, interval, i);
      if i % interval == 0 then n == 0
      else
        var a, b := es[i - 1].key, es[i].key;
        n <= |a| && n <= |b| && a[..n] == b[..n] && (n < |a| && n < |b| ==> a[n] != b[n])
  {
  }

  /** Four bytes for each word. */
  function WordParts(words: seq<Word>): seq<Part> {
    if words == [] then [] else WordParts(words[..|words| - 1]) + [Fixed(4, words[|words| - 1])]
  }

  lemma {:induction false} WordsAreParts(words: seq<Word>)
    ensures PutParts(WordParts(words)) == FixedArray(words)
    ensures forall i :: 0 <= i < |WordParts(words)| ==> Fits(WordParts(words)[i])
    decreases |words|
  {
    if words != [] {
      var n := |words| - 1;
      WordsAreParts(words[..n]);
      PutOne(Fixed(4, words[n]));
      PutConcat(WordParts(words[..n]), [Fixed(4, words[n])]);
      Fixed32Is(words[n]);
      FixedUnique(EncodeFixed32(words[n]), 4, words[n]);
      assert Power256(4) == 0x1_0000_0000;
    }
  }
}
