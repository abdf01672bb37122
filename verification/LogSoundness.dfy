/**
 The log reader on any file, cut, corrupted or foreign: what it takes for a fragment is one
 that lies there with its checksum, and what it takes for a record is a run of those.
 */
module LogSoundness {
  import opened Coding
  import opened ByteLayout
  import opened LogFormat
  import opened LogReader

  lemma MaskUnmask(w: Word)
    ensures Mask(Unmask(w)) == w
  {
    var rot: int := (w - kMaskDelta) % 0x1_0000_0000;
    var crc := Unmask(w);
    assert crc as int / 0x8000 == rot % 0x2_0000 && crc as int % 0x8000 == rot / 0x2_0000;
  }

  lemma WordOfFour(b: Bytes)
    requires |b| >= 4
    ensures EncodeFixed32(DecodeFixed32(b)) == b[..4]
  {
    FourDigits(EncodeFixed32(DecodeFixed32(b)), b);
  }

  lemma FourDigits(a: Bytes, b: Bytes)
    requires |a| == 4 <= |b| && DecodeFixed32(a) == DecodeFixed32(b)
    ensures a == b[..4]
  {
    var a0: int, a1: int, a2: int, a3: int := a[0], a[1], a[2], a[3];
    var b0: int, b1: int, b2: int, b3: int := b[0], b[1], b[2], b[3];
    assert a3 == b3 && a2 == b2 && a1 == b1 && a0 == b0;
  }

  /** With checksums on, a fragment is parsed exactly where it is written. */
  lemma ParsedIsPhysical(crc: Checksum, buffer: Bytes, eof: bool, f: Fragment)
    requires Extends(crc) && f.InBlock() && |buffer| >= 7 && 1 <= f.kind <= 4
    ensures ParseBuffer(Accepts(crc), true, buffer, eof) == Parsed(f.kind, f.data, 7 + |f.data|, false)
      <==> 7 + |f.data| <= |buffer| && Laid(buffer[..7 + |f.data|], PhysicalParts(crc, f))
  {
    var n := 7 + |f.data|;
    if n <= |buffer| {
      PhysicalLayout(crc, f, buffer[..n]);
      if buffer[..n] == Physical(crc, f) { WrittenIsParsed(crc, buffer, eof, f); }
      if ParseBuffer(Accepts(crc), true, buffer, eof) == Parsed(f.kind, f.data, n, false) { ParsedIsWritten(crc, buffer, eof, f); }
    }
  }

  lemma WrittenIsParsed(crc: Checksum, buffer: Bytes, eof: bool, f: Fragment)
    requires Extends(crc) && f.InBlock() && 1 <= f.kind <= 4
    requires 7 + |f.data| <= |buffer| && buffer[..7 + |f.data|] == Physical(crc, f)
    ensures ParseBuffer(Accepts(crc), true, buffer, eof) == Parsed(f.kind, f.data, 7 + |f.data|, false)
  {
    var b := buffer[..7 + |f.data|];
    HeaderRoundTrip(crc, f, b);
    ChecksumRoundTrip(crc, f, b);
    assert b[4] == buffer[4] && b[5] == buffer[5] && b[6] == buffer[6];
    assert buffer[7..7 + |f.data|] == b[7..];
  }

  lemma ParsedIsWritten(crc: Checksum, buffer: Bytes, eof: bool, f: Fragment)
    requires Extends(crc) && f.InBlock() && 1 <= f.kind <= 4 && 7 + |f.data| <= |buffer|
    requires ParseBuffer(Accepts(crc), true, buffer, eof) == Parsed(f.kind, f.data, 7 + |f.data|, false)
    ensures buffer[..7 + |f.data|] == Physical(crc, f)
  {
    var b := buffer[..7 + |f.data|];
    assert 7 + Length(buffer) == |b| && b[6] == f.kind && b[7..] == f.data;
    assert Accepts(crc)(b);
    SumIsStored(crc, b, f);
  }

  lemma SumIsStored(crc: Checksum, b: Bytes, f: Fragment)
    requires Extends(crc) && f.InBlock() && |b| == 7 + |f.data| && b[6] == f.kind && b[7..] == f.data
    requires Unmask(DecodeFixed32(b)) == crc(0, b[6..]) && b[4] as int + b[5] as int * 256 == |f.data|
    ensures b == Physical(crc, f)
  {
    assert b[6..] == [f.kind] + f.data;
    assert crc(0, [f.kind] + f.data) == crc(crc(0, [f.kind]), f.data);
    MaskUnmask(DecodeFixed32(b));
    WordOfFour(b);
    HeaderAndData(b);
    LengthBytes(b[4], b[5], |f.data|);
  }

  lemma LengthBytes(low: Byte, high: Byte, n: nat)
    requires low as int + high as int * 256 == n
    ensures n % 256 == low as int && n / 256 % 256 == high as int
  {
  }

  lemma HeaderAndData(b: Bytes)
    requires |b| >= 7
    ensures b == b[..4] + [b[4], b[5], b[6]] + b[7..]
  {
  }

  /** What the reader delivered lies there, right in front of where it goes on. */
  ghost predicate LiesThere(crc: Checksum, file: Bytes, p: PhysicalRead) {
    && 7 + |p.data| <= p.after.start <= |file| && p.kind < 256
    && Laid(file[p.after.start - 7 - |p.data|..p.after.start], PhysicalParts(crc, Fragment(0, p.kind, p.data)))
  }

  lemma FrontOfRest(file: Bytes, w: Window, n: nat)
    requires w.Inside(file) && w.start + n <= w.position
    ensures w.Rest(file)[..n] == file[w.start..w.start + n]
  {
  }

  lemma {:induction false} NextLiesThere(crc: Checksum, file: Bytes, w: Window)
    requires Extends(crc) && w.Inside(file) && w.position - w.start <= 32768
    ensures var p := NextPhysical(Accepts(crc), true, file, w);
      && p.after.position - p.after.start <= 32768
      && (1 <= p.kind <= 4 ==> LiesThere(crc, file, p) && StartOf(p) >= w.start && !p.dropped)
    decreases !w.eof, |file| - w.position
  {
    if w.position - w.start >= kHeaderSize {
      ParseLiesThere(crc, file, w);
    } else if !w.eof {
      NextLiesThere(crc, file, w.Refill(file));
    }
  }

  lemma ParseLiesThere(crc: Checksum, file: Bytes, w: Window)
    requires Extends(crc) && w.Inside(file) && 7 <= w.position - w.start <= 32768
    ensures var p := Parse(Accepts(crc), true, file, w);
      1 <= p.kind <= 4 ==> LiesThere(crc, file, p) && StartOf(p) >= w.start && !p.dropped
  {
    var buffer := w.Rest(file);
    var q := ParseBuffer(Accepts(crc), true, buffer, w.eof);
    if 1 <= q.kind <= 4 {
      var f := Fragment(0, q.kind, q.data);
      assert q == Parsed(f.kind, f.data, 7 + |f.data|, false);
      ParsedIsPhysical(crc, buffer, w.eof, f);
      FrontOfRest(file, w, 7 + |f.data|);
    }
  }

  /** For any file: every fragment that the reader delivers lies in the file with its checksum, each behind the one before. */
  lemma {:induction false} DeliveredLiesThere(crc: Checksum, file: Bytes, w: Window, m: nat)
    requires Extends(crc) && w.Inside(file) && w.position - w.start <= 32768 && m < |Stream(Accepts(crc), true, file, w)|
    ensures var p := Stream(Accepts(crc), true, file, w)[m];
      1 <= p.kind <= 4 ==> LiesThere(crc, file, p) && StartOf(p) >= w.start && (m > 0 ==> StartOf(p) >= Stream(Accepts(crc), true, file, w)[m - 1].after.start)
    decreases m
  {
    var p := NextPhysical(Accepts(crc), true, file, w);
    NextLiesThere(crc, file, w);
    if m > 0 {
      assert p.kind != kEof;
      DeliveredLiesThere(crc, file, p.after, m - 1);
      assert Stream(Accepts(crc), true, file, w)[m] == Stream(Accepts(crc), true, file, p.after)[m - 1];
    }
  }
}
