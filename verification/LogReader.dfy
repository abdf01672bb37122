/**
 db/log_reader.cc: reads records back, from a log that may have been cut
 anywhere. Readers start at offset 0, as every caller in the library does.
 */
module LogReader {
  import opened Coding
  import opened LogFormat

  const kEof: nat := 5
  const kBadRecord: nat := 6

  /** The file is what a cut left of a log with these fragments. */
  ghost predicate CutOf(image: Image, file: Bytes, frags: seq<Fragment>) {
    && Sized(image)
    && Chained(frags, 0) && Ordered(frags)
    && |file| <= EndOf(frags)
    && file == Render(image, frags)[..|file|]
  }

  function Length(header: Bytes): (n: nat)
    requires |header| >= kHeaderSize
  {
    var a: int, b: int := header[4], header[5];
    a + b * 256
  }

  /** The stored checksum of a physical record is the computed one. */
  function Accepts(crc: Checksum): Bytes -> bool {
    (b: Bytes) => |b| >= kHeaderSize && Unmask(DecodeFixed32(b)) == crc(0, b[6..])
  }

  /** A fragment that fits in a block can be read back from its image. */
  ghost predicate Framed(image: Image, accepts: Bytes -> bool) {
    forall f: Fragment :: f.InBlock() ==>
      && |image(f)| == kHeaderSize + |f.data|
      && Length(image(f)) == |f.data| && image(f)[6] == f.kind && image(f)[kHeaderSize..] == f.data
      && accepts(image(f))
  }

  lemma HeaderRoundTrip(crc: Checksum, f: Fragment, b: Bytes)
    requires f.InBlock() && b == Physical(crc, f)
    ensures Length(b) == |f.data| && b[6] == f.kind && b[kHeaderSize..] == f.data
  {
  }

  lemma ChecksumRoundTrip(crc: Checksum, f: Fragment, b: Bytes)
    requires Extends(crc) && b == Physical(crc, f)
    ensures Accepts(crc)(b)
  {
    var sum := crc(crc(0, [f.kind]), f.data);
    UnmaskMask(sum);
    assert b[..4] == EncodeFixed32(Mask(sum));
    assert b[6..] == [f.kind] + f.data;
  }

  /** What the writer emits the reader can parse, and its checksum matches. */
  lemma PhysicalIsFramed(crc: Checksum)
    requires Extends(crc)
    ensures Framed(ImageOf(crc), Accepts(crc))
  {
    forall f: Fragment | f.InBlock()
      ensures |ImageOf(crc)(f)| == kHeaderSize + |f.data|
      ensures Length(ImageOf(crc)(f)) == |f.data| && ImageOf(crc)(f)[6] == f.kind && ImageOf(crc)(f)[kHeaderSize..] == f.data
      ensures Accepts(crc)(ImageOf(crc)(f))
    {
      HeaderRoundTrip(crc, f, Physical(crc, f));
      ChecksumRoundTrip(crc, f, Physical(crc, f));
    }
  }

  lemma CutSlice(whole: Bytes, cut: nat, a: nat, b: nat, n: nat)
    requires cut <= |whole| && a + n <= cut && a + n <= b <= |whole|
    ensures whole[..cut][a..a + n] == whole[a..b][..n]
  {
  }

  /** The part of fragment `i` that the cut left. */
  lemma WhatIsLeft(image: Image, file: Bytes, frags: seq<Fragment>, i: nat, n: nat)
    requires CutOf(image, file, frags) && i < |frags|
    requires frags[i].start + n <= |file| && n <= kHeaderSize + |frags[i].data|
    ensures file[frags[i].start..frags[i].start + n] == image(frags[i])[..n]
  {
    RenderHolds(image, frags, i);
    CutSlice(Render(image, frags), |file|, frags[i].start, frags[i].End(), n);
  }

  /** What a reader holds: the bytes of the file from `start` to `position`. */
  datatype Window = Window(start: nat, position: nat, eof: bool) {
    predicate Inside(file: Bytes) { start <= position <= |file| }

    function Rest(file: Bytes): Bytes
      requires Inside(file)
    {
      file[start..position]
    }

    function Drop(n: nat): Window
      requires start + n <= position
    {
      this.(start := start + n)
    }

    /** The next read of the file: a whole block, or what is left of it. */
    function Refill(file: Bytes): (w: Window)
      requires Inside(file)
      ensures w.Inside(file) && w.start == position
      ensures !w.eof ==> w.position > position
    {
      var n := if |file| - position < kBlockSize then |file| - position else kBlockSize;
      Window(position, position + n, n < kBlockSize)
    }
  }

  /** What ReadPhysicalRecord returns, what it leaves, and whether it reported a drop. */
  datatype PhysicalRead = PhysicalRead(kind: nat, data: Bytes, after: Window, dropped: bool)

  /** What is taken off a buffer, and whether that is reported as dropped. */
  datatype Parsed = Parsed(kind: nat, data: Bytes, taken: nat, dropped: bool)

  function ParseBuffer(accepts: Bytes -> bool, checksum: bool, buffer: Bytes, eof: bool): (q: Parsed)
    requires |buffer| >= kHeaderSize
    ensures 0 < q.taken <= |buffer|
  {
    var n := kHeaderSize + Length(buffer);
    if n > |buffer| then
      if eof then Parsed(kEof, [], |buffer|, false) else Parsed(kBadRecord, [], |buffer|, true)
    else if buffer[6] == kZeroType && n == kHeaderSize then Parsed(kBadRecord, [], |buffer|, false)
    else if checksum && !accepts(buffer[..n]) then Parsed(kBadRecord, [], |buffer|, true)
    else Parsed(buffer[6], buffer[kHeaderSize..n], n, false)
  }

  /** A record is taken from a window that holds a header. */
  function Parse(accepts: Bytes -> bool, checksum: bool, file: Bytes, w: Window): (p: PhysicalRead)
    requires w.Inside(file) && w.position - w.start >= kHeaderSize
    ensures p.after.Inside(file) && p.after.start > w.start
  {
    var q := ParseBuffer(accepts, checksum, w.Rest(file), w.eof);
    PhysicalRead(q.kind, q.data, w.Drop(q.taken), q.dropped)
  }

  function NextPhysical(accepts: Bytes -> bool, checksum: bool, file: Bytes, w: Window): (p: PhysicalRead)
    requires w.Inside(file)
    ensures p.after.Inside(file) && p.after.start >= w.start
    ensures p.kind != kEof ==> p.after.start > w.start
    decreases !w.eof, |file| - w.position
  {
    if w.position - w.start >= kHeaderSize then Parse(accepts, checksum, file, w)
    else if w.eof then PhysicalRead(kEof, [], w.Drop(w.position - w.start), false)
    else NextPhysical(accepts, checksum, file, w.Refill(file))
  }

  /** All physical reads of a file, up to the end. */
  function Stream(accepts: Bytes -> bool, checksum: bool, file: Bytes, w: Window): (s: seq<PhysicalRead>)
    requires w.Inside(file)
    ensures |s| > 0
    decreases |file| - w.start
  {
    var p := NextPhysical(accepts, checksum, file, w);
    if p.kind == kEof then [p] else [p] + Stream(accepts, checksum, file, p.after)
  }

  /** in_fragmented_record, scratch and prospective_record_offset of ReadRecord. */
  datatype Assembly = Assembly(inFragmentedRecord: bool, scratch: Bytes, prospective: int)

  datatype Outcome = More | Whole | End

  function Count(dropped: bool): nat { if dropped then 1 else 0 }

  /** A physical read that delivers a fragment. */
  ghost predicate Delivers(p: PhysicalRead, f: Fragment) {
    p.kind == f.kind && p.data == f.data && p.after.start == f.End() && !p.dropped
  }

  ghost predicate AtEnd(p: PhysicalRead) {
    p.kind == kEof && !p.dropped
  }

  /** The stream delivers fragments of one record, all of them or those before the end. */
  ghost predicate Carries(stream: seq<PhysicalRead>, fs: seq<Fragment>) {
    && Marked(fs, true) && |stream| > 0
    && (forall j :: 0 <= j < |stream| && j < |fs| ==> if j == |stream| - 1 then AtEnd(stream[j]) else Delivers(stream[j], fs[j]))
    && (fs == [] ==> |stream| == 1 && AtEnd(stream[0]))
  }

  lemma JoinedStep(fs: seq<Fragment>, j: nat)
    requires j < |fs|
    ensures Joined(fs[..j + 1]) == Joined(fs[..j]) + fs[j].data
    ensures Joined(fs[..0]) == [] && Joined(fs[..|fs|]) == Joined(fs)
  {
    assert fs[..j + 1][..j] == fs[..j];
    assert fs[..|fs|] == fs;
  }

  /** The first `j` fragments of a record have been put together. */
  ghost predicate Midway(fs: seq<Fragment>, j: nat, a: Assembly) {
    && j <= |fs| && a.inFragmentedRecord == (j > 0) && a.scratch == Joined(fs[..j])
    && (j > 0 ==> a.prospective == fs[0].start)
  }

  /** One more fragment has been taken in; the last one makes the record whole. */
  ghost predicate Advances(fs: seq<Fragment>, j: nat, next: Assembly, outcome: Outcome) {
    && Midway(fs, j + 1, next)
    && if j + 1 == |fs| then outcome == Whole && next.scratch == Joined(fs) else outcome == More
  }

  // ----- for any file: records are runs of fragments -----

  /** A first fragment and middle ones, up to place `j`. */
  ghost predicate OpenAt(s: seq<PhysicalRead>, i: nat, j: nat) {
    i < j <= |s| && s[i].kind == 2 && forall m :: i < m < j ==> s[m].kind == 3
  }

  /** Physical reads `i` up to `j` make a record: a whole one, or a first, any middle ones and a last. */
  ghost predicate RecordAt(s: seq<PhysicalRead>, i: nat, j: nat) {
    && i < j <= |s|
    && if j == i + 1 then s[i].kind == 1 else OpenAt(s, i, j - 1) && s[j - 1].kind == 4
  }

  ghost predicate NoneUpTo(s: seq<PhysicalRead>, j: nat) {
    forall i: nat, m: nat :: m <= j ==> !RecordAt(s, i, m)
  }

  ghost function Data(s: seq<PhysicalRead>): Bytes {
    if s == [] then [] else Data(s[..|s| - 1]) + s[|s| - 1].data
  }

  function StartOf(p: PhysicalRead): int { p.after.start - 7 - |p.data| }

  ghost predicate NothingOpen(s: seq<PhysicalRead>, j: nat) {
    forall i: nat :: !OpenAt(s, i, j)
  }

  /** What ReadRecord holds in front of place `j`. */
  ghost predicate Holds(s: seq<PhysicalRead>, j: nat, a: Assembly) {
    && j <= |s| && NoneUpTo(s, j)
    && if a.inFragmentedRecord then exists i: nat :: i < j && HoldsFrom(s, i, j, a) else NothingOpen(s, j)
  }

  ghost predicate HoldsFrom(s: seq<PhysicalRead>, i: nat, j: nat, a: Assembly) {
    OpenAt(s, i, j) && a.scratch == Data(s[i..j]) && a.prospective == StartOf(s[i])
  }

  /** The record is the first that is complete, and ends at place `j`. */
  ghost predicate FirstRecord(s: seq<PhysicalRead>, i: nat, j: nat, record: Bytes, offset: int) {
    j > 0 && RecordAt(s, i, j) && NoneUpTo(s, j - 1) && record == Data(s[i..j]) && offset == StartOf(s[i])
  }

  ghost predicate FoundAt(s: seq<PhysicalRead>, j: nat, record: Bytes, offset: int) {
    j > 0 && exists i: nat :: FirstRecord(s, i, j, record, offset)
  }

  /** What one physical record does to the record being read. */
  function Step(a: Assembly, kind: nat, fragment: Bytes, offset: int): (Assembly, Outcome) {
    if kind == kFullType then (Assembly(true, fragment, offset), Whole)
    else if kind == kFirstType then (Assembly(true, fragment, offset), More)
    else if kind == kMiddleType then (if a.inFragmentedRecord then a.(scratch := a.scratch + fragment) else a, More)
    else if kind == kLastType then
      if a.inFragmentedRecord then (a.(scratch := a.scratch + fragment), Whole) else (a, More)
    else (a.(inFragmentedRecord := false, scratch := []), if kind == kEof then End else More)
  }

  lemma DataStep(s: seq<PhysicalRead>, i: nat, j: nat)
    requires i <= j < |s|
    ensures Data(s[i..j + 1]) == Data(s[i..j]) + s[j].data && Data(s[j..j + 1]) == s[j].data
  {
    assert s[i..j + 1][..j - i] == s[i..j];
    assert s[j..j + 1][..0] == [];
  }

  /** Only what is open can be closed or go on. */
  lemma OpenSteps(s: seq<PhysicalRead>, i: nat, j: nat)
    requires j < |s|
    ensures OpenAt(s, i, j + 1) <==> (OpenAt(s, i, j) && s[j].kind == 3) || (i == j && s[j].kind == 2)
    ensures RecordAt(s, i, j + 1) <==> (OpenAt(s, i, j) && s[j].kind == 4) || (i == j && s[j].kind == 1)
  {
  }

  lemma OpenUnique(s: seq<PhysicalRead>, h: nat, i: nat, j: nat)
    requires OpenAt(s, h, j) && OpenAt(s, i, j)
    ensures h == i
  {
  }

  lemma NothingOpens(s: seq<PhysicalRead>, j: nat, k: nat)
    requires k == j + 1 <= |s| && s[j].kind != 2 && (s[j].kind == 3 ==> NothingOpen(s, j))
    ensures NothingOpen(s, k)
  {
    forall i: nat ensures !OpenAt(s, i, k) { OpenSteps(s, i, j); }
  }

  lemma HoldsStep(s: seq<PhysicalRead>, j: nat, a: Assembly)
    requires Holds(s, j, a) && j < |s|
    ensures var (next, outcome) := Step(a, s[j].kind, s[j].data, StartOf(s[j]));
      if outcome == Whole then FoundAt(s, j + 1, next.scratch, next.prospective)
      else NoneUpTo(s, j + 1) && (outcome == More ==> Holds(s, j + 1, next))
  {
    var kind := s[j].kind;
    var (next, outcome) := Step(a, kind, s[j].data, StartOf(s[j]));
    forall i: nat ensures (OpenAt(s, i, j + 1) <==> (OpenAt(s, i, j) && kind == 3) || (i == j && kind == 2))
      && (RecordAt(s, i, j + 1) <==> (OpenAt(s, i, j) && kind == 4) || (i == j && kind == 1)) {
      OpenSteps(s, i, j);
    }
    if kind != 2 && (kind == 3 ==> NothingOpen(s, j)) { NothingOpens(s, j, j + 1); }
    if a.inFragmentedRecord {
      var i: nat :| i < j && HoldsFrom(s, i, j, a);
      DataStep(s, i, j);
      if kind == 3 { assert HoldsFrom(s, i, j + 1, next); }
      if kind == 4 { assert FirstRecord(s, i, j + 1, next.scratch, next.prospective); }
    } else {
      DataStep(s, j, j);
    }
    if kind == 1 { assert FirstRecord(s, j, j + 1, next.scratch, next.prospective); }
    if kind == 2 { assert HoldsFrom(s, j, j + 1, next); }
  }

  /** How far ReadRecord is: no record is complete yet, one just is, or there is none. */
  ghost predicate Progress(s: seq<PhysicalRead>, j: nat, a: Assembly, outcome: Outcome) {
    match outcome
    case More => Holds(s, j, a)
    case Whole => FoundAt(s, j, a.scratch, a.prospective)
    case End => j == |s| && NoneUpTo(s, j)
  }

  lemma ProgressStep(s: seq<PhysicalRead>, j: nat, a: Assembly)
    requires Holds(s, j, a) && j < |s| && (s[j].kind == kEof ==> j + 1 == |s|)
    ensures var (next, outcome) := Step(a, s[j].kind, s[j].data, StartOf(s[j])); Progress(s, j + 1, next, outcome)
  {
    HoldsStep(s, j, a);
  }

  /** Whether that is reported as a drop. */
  predicate Loses(a: Assembly, kind: nat) {
    if kind == kFullType || kind == kFirstType then a.inFragmentedRecord && a.scratch != []
    else if kind == kMiddleType || kind == kLastType then !a.inFragmentedRecord
    else if kind == kBadRecord then a.inFragmentedRecord
    else kind != kEof
  }

  /** The switch of ReadRecord: what a physical record does to the record being read. */
  method Assemble(a: Assembly, kind: nat, fragment: Bytes, offset: int) returns (next: Assembly, outcome: Outcome, dropped: bool)
    ensures (next, outcome) == Step(a, kind, fragment, offset) && dropped == Loses(a, kind)
  {
    next, outcome, dropped := a, More, false;
    if kind == kFullType {
      dropped := a.inFragmentedRecord && a.scratch != [];
      next, outcome := Assembly(true, fragment, offset), Whole;
    } else if kind == kFirstType {
      dropped := a.inFragmentedRecord && a.scratch != [];
      next := Assembly(true, fragment, offset);
    } else if kind == kMiddleType {
      if !a.inFragmentedRecord {
        dropped := true;
      } else {
        next := a.(scratch := a.scratch + fragment);
      }
    } else if kind == kLastType {
      if !a.inFragmentedRecord {
        dropped := true;
      } else {
        next, outcome := a.(scratch := a.scratch + fragment), Whole;
      }
    } else if kind == kEof {
      next, outcome := a.(inFragmentedRecord := false, scratch := []), End;
    } else if kind == kBadRecord {
      dropped := a.inFragmentedRecord;
      next := a.(inFragmentedRecord := false, scratch := []);
    } else {
      dropped := true;
      next := a.(inFragmentedRecord := false, scratch := []);
    }
  }

  /** Where ReadRecord is in a stream that carries a record, after `j` reads. */
  ghost predicate Reading(stream: seq<PhysicalRead>, fs: seq<Fragment>, j: nat, a: Assembly, outcome: Outcome) {
    match outcome
    case More => j < |stream| && Midway(fs, j, a) && (fs == [] || j < |fs|)
    case Whole => 0 < |fs| == j < |stream| && a.scratch == Joined(fs) && a.prospective == fs[0].start
    case End => fs == [] || |stream| <= |fs|
  }

  /** The next fragment of a record whose first `j` have been put together. */
  lemma Advance(fs: seq<Fragment>, j: nat, a: Assembly, p: PhysicalRead)
    requires Marked(fs, true) && Midway(fs, j, a) && j < |fs| && Delivers(p, fs[j])
    ensures var (next, outcome) := Step(a, p.kind, p.data, StartOf(p));
      Advances(fs, j, next, outcome) && !Loses(a, p.kind)
  {
    JoinedStep(fs, j);
  }

  lemma ReadingStep(stream: seq<PhysicalRead>, fs: seq<Fragment>, j: nat, a: Assembly)
    requires j < |stream| && Carries(stream, fs) && Reading(stream, fs, j, a, More)
    ensures var (next, outcome) := Step(a, stream[j].kind, stream[j].data, StartOf(stream[j]));
      Reading(stream, fs, j + 1, next, outcome) && !stream[j].dropped && !Loses(a, stream[j].kind)
  {
    if j < |stream| - 1 { Advance(fs, j, a, stream[j]); }
  }

  class Reader {
    /** Compares the stored checksum of a physical record with the computed one. */
    const accepts: Bytes -> bool
    const checksum: bool
    const file: Bytes
    /** How far the sequential file has been read; also end_of_buffer_offset_. */
    var position: nat
    var buffer: Bytes
    var eof: bool
    var lastRecordOffset: int
    /** How often the reporter was told of a dropped stretch. */
    var drops: nat

    constructor (crc: Checksum, checksum: bool, file: Bytes)
      ensures Valid() && View() == Window(0, 0, false) && drops == 0
      ensures this.accepts == Accepts(crc) && this.checksum == checksum && this.file == file
    {
      this.accepts, this.checksum, this.file := Accepts(crc), checksum, file;
      position, buffer, eof, lastRecordOffset, drops := 0, [], false, 0, 0;
    }

    ghost predicate Valid()
      reads this`position, this`buffer
    {
      |buffer| <= position <= |file| && buffer == file[position - |buffer|..position]
    }

    ghost function View(): Window
      requires |buffer| <= position
      reads this`position, this`buffer, this`eof
    {
      Window(position - |buffer|, position, eof)
    }

    method ReportCorruption(bytes: nat)
      modifies this`drops
      ensures drops == old(drops) + 1
    {
      drops := drops + 1;
    }

    /** buffer_.remove_prefix; clearing the buffer removes all of it. */
    method RemovePrefix(n: nat)
      requires Valid() && n <= |buffer|
      modifies this`buffer
      ensures Valid() && View() == old(View()).Drop(n)
    {
      buffer := buffer[n..];
    }

    method Refill()
      requires Valid()
      modifies this`position, this`buffer, this`eof
      ensures Valid() && View() == old(View()).Refill(file)
    {
      var n := if |file| - position < kBlockSize then |file| - position else kBlockSize;
      buffer := file[position..position + n];
      position := position + n;
      eof := |buffer| < kBlockSize;
    }

    method ReadPhysicalRecord() returns (kind: nat, result: Bytes)
      requires Valid()
      modifies this`position, this`buffer, this`eof, this`drops
      ensures Valid()
      ensures var p := NextPhysical(accepts, checksum, file, old(View()));
        kind == p.kind && result == p.data && View() == p.after && drops == old(drops) + Count(p.dropped)
    {
      ghost var p := NextPhysical(accepts, checksum, file, View());
      while |buffer| < kHeaderSize
        invariant Valid() && drops == old(drops)
        invariant p == NextPhysical(accepts, checksum, file, View())
        decreases !eof, |file| - position
      {
        if eof {
          RemovePrefix(|buffer|);
          return kEof, [];
        }
        Refill();
      }
      kind, result := ParsePhysicalRecord();
    }

    /** The part of ReadPhysicalRecord that finds a header in the buffer. */
    method ParsePhysicalRecord() returns (kind: nat, result: Bytes)
      requires Valid() && |buffer| >= kHeaderSize
      modifies this`buffer, this`drops
      ensures Valid()
      ensures var p := Parse(accepts, checksum, file, old(View()));
        kind == p.kind && result == p.data && View() == p.after && drops == old(drops) + Count(p.dropped)
    {
      var length := Length(buffer);
      assert View().Rest(file) == buffer;
      kind := buffer[6];
      if kHeaderSize + length > |buffer| {
        var dropSize := |buffer|;
        RemovePrefix(dropSize);
        if !eof {
          ReportCorruption(dropSize);
          return kBadRecord, [];
        }
        return kEof, [];
      }
      if kind == kZeroType && length == 0 {
        RemovePrefix(|buffer|);
        return kBadRecord, [];
      }
      if checksum && !accepts(buffer[..kHeaderSize + length]) {
        var dropSize := |buffer|;
        RemovePrefix(dropSize);
        ReportCorruption(dropSize);
        return kBadRecord, [];
      }
      result := buffer[kHeaderSize..kHeaderSize + length];
      RemovePrefix(kHeaderSize + length);
    }

    /** Takes the next physical read off the stream. */
    method TakePhysicalRecord(ghost stream: seq<PhysicalRead>) returns (kind: nat, result: Bytes, offset: int)
      requires Valid() && stream == Stream(accepts, checksum, file, View())
      modifies this`position, this`buffer, this`eof, this`drops
      ensures Valid() && kind == stream[0].kind && result == stream[0].data
      ensures offset == stream[0].after.start - kHeaderSize - |result| && drops == old(drops) + Count(stream[0].dropped)
      ensures if kind == kEof then |stream| == 1
        else |stream| > 1 && View().start > old(View().start) && stream[1..] == Stream(accepts, checksum, file, View())
    {
      kind, result := ReadPhysicalRecord();
      offset := position - |buffer| - kHeaderSize - |result|;
    }

    /** One turn of the loop of ReadRecord. */
    method ReadFragment(a: Assembly, ghost rest: seq<PhysicalRead>) returns (next: Assembly, outcome: Outcome)
      requires Valid() && rest == Stream(accepts, checksum, file, View())
      modifies this`position, this`buffer, this`eof, this`drops
      ensures Valid() && (next, outcome) == Step(a, rest[0].kind, rest[0].data, StartOf(rest[0]))
      ensures drops == old(drops) + Count(rest[0].dropped) + Count(Loses(a, rest[0].kind))
      ensures if outcome == End then |rest| == 1
        else |rest| > 1 && View().start > old(View().start) && rest[1..] == Stream(accepts, checksum, file, View())
    {
      var kind, fragment, offset := TakePhysicalRecord(rest);
      ghost var w := View();
      var dropped;
      next, outcome, dropped := Assemble(a, kind, fragment, offset);
      if dropped { ReportCorruption(|fragment| + |a.scratch|); }
      assert View() == w;
    }

    /** One turn of the loop of ReadRecord, at place `j` of a stream. */
    method ReadFragmentAt(a: Assembly, ghost stream: seq<PhysicalRead>, ghost fs: seq<Fragment>, ghost j: nat) returns (next: Assembly, outcome: Outcome)
      requires Valid() && Holds(stream, j, a) && j < |stream| && stream[j..] == Stream(accepts, checksum, file, View())
      modifies this`position, this`buffer, this`eof, this`drops
      ensures Valid() && Progress(stream, j + 1, next, outcome)
      ensures outcome != End ==> j + 1 < |stream| && View().start > old(View().start) && stream[j + 1..] == Stream(accepts, checksum, file, View())
      ensures Carries(stream, fs) && Reading(stream, fs, j, a, More) ==> drops == old(drops) && Reading(stream, fs, j + 1, next, outcome)
    {
      if Carries(stream, fs) && Reading(stream, fs, j, a, More) { ReadingStep(stream, fs, j, a); }
      assert stream[j..][1..] == stream[j + 1..];
      next, outcome := ReadFragment(a, stream[j..]);
      ProgressStep(stream, j, a);
    }

    /**
     Of any stream the first record that is complete is returned, with its offset, or there is none. Of
     one that carries a record, whole or cut, it is that record or nothing, and no drop is reported.
     */
    method ReadRecord(ghost stream: seq<PhysicalRead>, ghost fs: seq<Fragment>) returns (ok: bool, record: Bytes)
      requires Valid() && stream == Stream(accepts, checksum, file, View())
      modifies this
      ensures Valid()
      ensures ok ==> exists j: nat :: FoundAt(stream, j, record, lastRecordOffset) && j < |stream| && stream[j..] == Stream(accepts, checksum, file, View())
      ensures !ok ==> NoneUpTo(stream, |stream|)
      ensures Carries(stream, fs) ==>
        && drops == old(drops)
        && ok == (0 < |fs| < |stream|)
        && (ok ==> record == Joined(fs) && lastRecordOffset == fs[0].start)
        && (ok ==> stream[|fs|..] == Stream(accepts, checksum, file, View()))
    {
      var a, outcome;
      ghost var j;
      a, outcome, j := ReadFragments(stream, fs);
      if outcome == Whole {
        lastRecordOffset := a.prospective;
        return true, a.scratch;
      }
      return false, [];
    }

    /** The loop of ReadRecord. */
    method ReadFragments(ghost stream: seq<PhysicalRead>, ghost fs: seq<Fragment>) returns (a: Assembly, outcome: Outcome, ghost j: nat)
      requires Valid() && stream == Stream(accepts, checksum, file, View())
      modifies this`position, this`buffer, this`eof, this`drops
      ensures Valid() && outcome != More
      ensures Progress(stream, j, a, outcome)
      ensures outcome != End ==> j < |stream| && stream[j..] == Stream(accepts, checksum, file, View())
      ensures Carries(stream, fs) ==> Reading(stream, fs, j, a, outcome) && drops == old(drops)
    {
      a := Assembly(false, [], 0);
      j := 0;
      outcome := More;
      assert stream[0..] == stream;
      while outcome == More
        invariant Valid()
        invariant Progress(stream, j, a, outcome)
        invariant outcome != End ==> j < |stream| && stream[j..] == Stream(accepts, checksum, file, View())
        invariant Carries(stream, fs) ==> Reading(stream, fs, j, a, outcome) && drops == old(drops)
        decreases outcome == More, |file| - View().start
      {
        a, outcome := ReadFragmentAt(a, stream, fs, j);
        j := j + 1;
      }
    }
  }
}
