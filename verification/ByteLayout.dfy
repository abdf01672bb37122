/**
 Byte layouts as lists of parts, read off the digits of module Numerals. A layout says what
 a writer's bytes are in numbers; there is one byte string for every layout.
 */
module ByteLayout {
  import opened Coding
  import opened Numerals

  /** Bytes as they are, a varint, a fixed-width number, or a string behind its length. */
  datatype Part = Raw(bytes: Bytes) | Varint(value: nat) | Fixed(width: nat, value: nat) | Slice(bytes: Bytes)

  ghost predicate IsSlice(b: Bytes, s: Bytes) {
    exists k :: 0 <= k <= |b| && IsVarint(b[..k], |s|) && b[k..] == s
  }

  ghost predicate IsPart(b: Bytes, p: Part) {
    match p
    case Raw(bytes) => b == bytes
    case Varint(v) => IsVarint(b, v)
    case Fixed(n, v) => IsFixed(b, n, v)
    case Slice(s) => IsSlice(b, s)
  }

  /** The bytes are these parts, one after the other. */
  ghost predicate Laid(b: Bytes, parts: seq<Part>)
    decreases |parts|
  {
    if parts == [] then b == []
    else exists k :: 0 <= k <= |b| && IsPart(b[..k], parts[0]) && Laid(b[k..], parts[1..])
  }

  // ----- the one byte string -----

  ghost predicate Fits(p: Part) { p.Fixed? ==> p.value < Power256(p.width) }

  ghost function PutPart(p: Part): Bytes {
    match p
    case Raw(bytes) => bytes
    case Varint(v) => PutVarint(v)
    case Fixed(n, v) => PutFixed(v, n)
    case Slice(s) => PutVarint(|s|) + s
  }

  ghost function PutParts(parts: seq<Part>): Bytes
    decreases |parts|
  {
    if parts == [] then [] else PutPart(parts[0]) + PutParts(parts[1..])
  }

  lemma PartIs(p: Part)
    requires Fits(p)
    ensures IsPart(PutPart(p), p)
  {
    match p
    case Raw(_) =>
    case Varint(v) => VarintIs(v);
    case Fixed(n, v) => FixedIs(v, n);
    case Slice(s) =>
      VarintIs(|s|);
      var b, k := PutPart(p), |PutVarint(|s|)|;
      assert b[..k] == PutVarint(|s|) && b[k..] == s;
  }

  lemma PartUnique(b: Bytes, p: Part)
    requires IsPart(b, p)
    ensures b == PutPart(p)
  {
    match p
    case Raw(_) =>
    case Varint(v) => VarintUnique(b, v);
    case Fixed(n, v) => FixedUnique(b, n, v);
    case Slice(s) =>
      var k :| 0 <= k <= |b| && IsVarint(b[..k], |s|) && b[k..] == s;
      VarintUnique(b[..k], |s|);
      assert b == b[..k] + b[k..];
  }

  /** What is put is laid out so. */
  lemma {:induction false} PutIsLaid(parts: seq<Part>)
    requires forall i :: 0 <= i < |parts| ==> Fits(parts[i])
    ensures Laid(PutParts(parts), parts)
    decreases |parts|
  {
    if parts != [] {
      PutIsLaid(parts[1..]);
      PartIs(parts[0]);
      var b, k := PutParts(parts), |PutPart(parts[0])|;
      assert b[..k] == PutPart(parts[0]) && b[k..] == PutParts(parts[1..]);
    }
  }

  /** Nothing else is. */
  lemma {:induction false} LaidIsPut(b: Bytes, parts: seq<Part>)
    requires Laid(b, parts)
    ensures b == PutParts(parts)
    decreases |parts|
  {
    if parts != [] {
      var k :| 0 <= k <= |b| && IsPart(b[..k], parts[0]) && Laid(b[k..], parts[1..]);
      PartUnique(b[..k], parts[0]);
      LaidIsPut(b[k..], parts[1..]);
      Rejoined(b, k, PutPart(parts[0]), PutParts(parts[1..]));
    }
  }

  lemma Rejoined(b: Bytes, k: nat, x: Bytes, y: Bytes)
    requires k <= |b| && b[..k] == x && b[k..] == y
    ensures b == x + y
  {
  }

  lemma Associate(x: Bytes, y: Bytes, z: Bytes)
    ensures x + y + z == x + (y + z)
  {
  }

  lemma LaidIff(b: Bytes, parts: seq<Part>)
    requires forall i :: 0 <= i < |parts| ==> Fits(parts[i])
    ensures Laid(b, parts) <==> b == PutParts(parts)
  {
    PutIsLaid(parts);
    if Laid(b, parts) { LaidIsPut(b, parts); }
  }

  lemma PutTwo(p: Part, q: Part)
    ensures PutParts([p, q]) == PutPart(p) + PutPart(q)
  {
    PutFirst(p, [q]);
    PutOne(q);
    assert [p] + [q] == [p, q];
  }

  lemma PutThree(p: Part, q: Part, r: Part)
    ensures PutParts([p, q, r]) == PutPart(p) + (PutPart(q) + PutPart(r))
  {
    PutFirst(p, [q, r]);
    PutTwo(q, r);
    assert [p] + [q, r] == [p, q, r];
  }

  /** Layouts one after the other. */
  lemma {:induction false} PutConcat(a: seq<Part>, b: seq<Part>)
    ensures PutParts(a + b) == PutParts(a) + PutParts(b)
    decreases |a|
  {
    if a == [] {
      assert a + b == b;
    } else {
      PutConcat(a[1..], b);
      FrontOfConcat(a, b);
      Associate(PutPart(a[0]), PutParts(a[1..]), PutParts(b));
    }
  }

  lemma FrontOfConcat(a: seq<Part>, b: seq<Part>)
    requires a != []
    ensures a + b != [] && (a + b)[0] == a[0] && (a + b)[1..] == a[1..] + b
  {
  }

  lemma PutOne(p: Part)
    ensures PutParts([p]) == PutPart(p)
  {
    assert PutParts([p][1..]) == [];
  }

  /** A part in front of a layout. */
  lemma PutFirst(p: Part, rest: seq<Part>)
    ensures PutParts([p] + rest) == PutPart(p) + PutParts(rest)
  {
    assert ([p] + rest)[1..] == rest;
  }
}
