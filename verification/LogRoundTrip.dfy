/**
 The log round trip: whatever is cut off the end of a log, the reader returns
 exactly the records that are still whole, in order, and reports no drop.
 */
module LogRoundTrip {
  import opened Coding
  import opened LogFormat
  import opened LogReader
  import opened LogWriter

  /** The window is a stretch of one block; reads stop at block ends until the file ends. */
  ghost predicate InOneBlock(file: Bytes, w: Window) {
    && w.Inside(file)
    && w.start % kBlockSize + (w.position - w.start) <= kBlockSize
    && if w.eof then w.position == |file| else w.position % kBlockSize == 0
  }

  ghost predicate Survives(file: Bytes, frags: seq<Fragment>, i: nat) {
    i < |frags| && frags[i].End() <= |file|
  }

  /** Where the fragment before number `i` ends. */
  ghost function EndBefore(frags: seq<Fragment>, i: nat): nat
    requires i <= |frags|
  {
    if i == 0 then 0 else frags[i - 1].End()
  }

  /** Fragments before `i` have been read; the window starts where `i` may. */
  ghost predicate Next(frags: seq<Fragment>, i: nat, w: Window) {
    && i <= |frags|
    && (w.start == EndBefore(frags, i) || (i < |frags| && w.start == frags[i].start))
  }

  lemma StartOf(frags: seq<Fragment>, i: nat)
    requires Chained(frags, 0) && i < |frags|
    ensures frags[i].start == Align(EndBefore(frags, i))
  {
  }

  lemma RefillInOneBlock(file: Bytes, w: Window)
    requires InOneBlock(file, w) && !w.eof
    ensures InOneBlock(file, w.Refill(file))
  {
  }

  lemma DropInOneBlock(file: Bytes, w: Window, n: nat)
    requires InOneBlock(file, w) && w.start + n <= w.position
    ensures InOneBlock(file, w.Drop(n))
  {
  }

  /** Less than a header before a block end: the next header goes to that end. */
  lemma AlignAtTrailer(at: nat, end: nat)
    requires at <= end < at + kHeaderSize && end % kBlockSize == 0
    ensures Align(at) == end
  {
    var q, r := at / kBlockSize, at % kBlockSize;
    assert at == q * kBlockSize + r;
    if at < end {
      assert end == (q + 1) * kBlockSize;
    }
  }

  /** A header that fits before a block end leaves seven bytes before it. */
  lemma FitsBeforeEnd(at: nat, end: nat)
    requires at <= end < at + kHeaderSize && end % kBlockSize == 0 && at % kBlockSize + kHeaderSize <= kBlockSize
    ensures at == end
  {
  }

  /** What is left of a block when no header fits is a trailer. */
  lemma TrailerSkipped(file: Bytes, frags: seq<Fragment>, i: nat, w: Window)
    requires Chained(frags, 0) && |file| <= EndOf(frags)
    requires InOneBlock(file, w) && !w.eof && w.position - w.start < kHeaderSize && Next(frags, i, w)
    ensures Next(frags, i, w.Refill(file))
  {
    if i < |frags| {
      StartOf(frags, i);
      AlignAtTrailer(w.start, w.position);
      if w.start == frags[i].start { FitsBeforeEnd(w.start, w.position); }
    }
  }

  /** At the end of the file with less than a header left, the next fragment is lost. */
  lemma LostAtEnd(file: Bytes, frags: seq<Fragment>, i: nat, w: Window)
    requires Chained(frags, 0)
    requires InOneBlock(file, w) && w.eof && w.position - w.start < kHeaderSize && Next(frags, i, w)
    ensures !Survives(file, frags, i)
  {
    if i < |frags| { StartOf(frags, i); }
  }

  /** Where a header fits, the next fragment starts. */
  lemma HeaderStartsFragment(file: Bytes, frags: seq<Fragment>, i: nat, w: Window)
    requires Chained(frags, 0) && |file| <= EndOf(frags)
    requires InOneBlock(file, w) && w.position - w.start >= kHeaderSize && Next(frags, i, w)
    ensures i < |frags| && w.start == frags[i].start
  {
    if i < |frags| { StartOf(frags, i); }
  }

  /** A fragment never reaches beyond its block. */
  lemma WholeBlockHoldsFragment(file: Bytes, f: Fragment, w: Window)
    requires f.InBlock() && InOneBlock(file, w) && w.start == f.start < w.position < f.End()
    ensures w.eof
  {
  }

  lemma HeaderOfPrefix(a: Bytes, b: Bytes, n: nat)
    requires kHeaderSize <= n <= |a| && n <= |b| && a[..n] == b[..n]
    ensures Length(a) == Length(b) && a[6] == b[6]
  {
    assert a[4] == a[..n][4] && a[5] == a[..n][5] && a[6] == a[..n][6];
    assert b[4] == b[..n][4] && b[5] == b[..n][5] && b[6] == b[..n][6];
  }

  lemma WindowSlice(file: Bytes, w: Window, n: nat)
    requires w.Inside(file) && w.start + n <= w.position
    ensures w.Rest(file)[..n] == file[w.start..w.start + n]
  {
  }

  /** What a window holds that starts at fragment `f` and has room for a header. */
  lemma HeaderInWindow(image: Image, accepts: Bytes -> bool, file: Bytes, frags: seq<Fragment>, i: nat, w: Window)
    requires CutOf(image, file, frags) && Framed(image, accepts)
    requires w.Inside(file) && w.position - w.start >= kHeaderSize && i < |frags| && w.start == frags[i].start
    ensures var buffer := w.Rest(file);
      Length(buffer) == |frags[i].data| && buffer[6] == frags[i].kind
    ensures frags[i].End() <= w.position ==> w.Rest(file)[..kHeaderSize + |frags[i].data|] == image(frags[i])
  {
    var f, buffer := frags[i], w.Rest(file);
    var n := if f.End() <= w.position then f.End() - w.start else kHeaderSize;
    WhatIsLeft(image, file, frags, i, n);
    WindowSlice(file, w, n);
    assert buffer[..n] == image(f)[..n];
    HeaderOfPrefix(buffer, image(f), n);
  }

  /** A fragment that the cut left whole is delivered; one that it did not ends the log. */
  lemma ParseDelivers(image: Image, accepts: Bytes -> bool, checksum: bool, file: Bytes, frags: seq<Fragment>, i: nat, w: Window)
    requires CutOf(image, file, frags) && Framed(image, accepts)
    requires InOneBlock(file, w) && w.position - w.start >= kHeaderSize && Next(frags, i, w)
    ensures var p := Parse(accepts, checksum, file, w);
      if Survives(file, frags, i) then Delivers(p, frags[i]) && InOneBlock(file, p.after) && Next(frags, i + 1, p.after)
      else AtEnd(p)
  {
    HeaderStartsFragment(file, frags, i, w);
    HeaderInWindow(image, accepts, file, frags, i, w);
    var f, buffer := frags[i], w.Rest(file);
    if f.End() <= w.position {
      var n := kHeaderSize + |f.data|;
      assert buffer[kHeaderSize..n] == buffer[..n][kHeaderSize..];
      DropInOneBlock(file, w, n);
    } else {
      WholeBlockHoldsFragment(file, f, w);
    }
  }

  lemma {:induction false} PhysicalDelivers(image: Image, accepts: Bytes -> bool, checksum: bool, file: Bytes, frags: seq<Fragment>, i: nat, w: Window)
    requires CutOf(image, file, frags) && Framed(image, accepts)
    requires InOneBlock(file, w) && Next(frags, i, w)
    ensures var p := NextPhysical(accepts, checksum, file, w);
      if Survives(file, frags, i) then Delivers(p, frags[i]) && InOneBlock(file, p.after) && Next(frags, i + 1, p.after)
      else AtEnd(p)
    decreases !w.eof, |file| - w.position
  {
    if w.position - w.start >= kHeaderSize {
      ParseDelivers(image, accepts, checksum, file, frags, i, w);
    } else if w.eof {
      LostAtEnd(file, frags, i, w);
    } else {
      RefillInOneBlock(file, w);
      TrailerSkipped(file, frags, i, w);
      PhysicalDelivers(image, accepts, checksum, file, frags, i, w.Refill(file));
    }
  }

  /** The stream delivers the surviving fragments from number `i` on, and then the end. */
  ghost predicate Delivered(file: Bytes, frags: seq<Fragment>, i: nat, stream: seq<PhysicalRead>) {
    && |stream| > 0 && i + |stream| - 1 <= |frags|
    && (forall j :: i <= j < i + |stream| - 1 ==> Survives(file, frags, j) && Delivers(stream[j - i], frags[j]))
    && AtEnd(stream[|stream| - 1]) && !Survives(file, frags, i + |stream| - 1)
  }

  lemma DeliveredCons(file: Bytes, frags: seq<Fragment>, i: nat, p: PhysicalRead, rest: seq<PhysicalRead>)
    requires Survives(file, frags, i) && Delivers(p, frags[i]) && Delivered(file, frags, i + 1, rest)
    ensures Delivered(file, frags, i, [p] + rest)
  {
    var stream := [p] + rest;
    forall j | i <= j < i + |stream| - 1 ensures Survives(file, frags, j) && Delivers(stream[j - i], frags[j]) {
      assert j > i ==> stream[j - i] == rest[j - (i + 1)];
    }
  }

  lemma {:induction false} StreamDelivers(image: Image, accepts: Bytes -> bool, checksum: bool, file: Bytes, frags: seq<Fragment>, i: nat, w: Window)
    requires CutOf(image, file, frags) && Framed(image, accepts)
    requires InOneBlock(file, w) && Next(frags, i, w)
    ensures Delivered(file, frags, i, Stream(accepts, checksum, file, w))
    decreases |frags| - i
  {
    PhysicalDelivers(image, accepts, checksum, file, frags, i, w);
    if Survives(file, frags, i) {
      var p := NextPhysical(accepts, checksum, file, w);
      StreamDelivers(image, accepts, checksum, file, frags, i + 1, p.after);
      DeliveredCons(file, frags, i, p, Stream(accepts, checksum, file, p.after));
    }
  }

  /** Where the fragments of record `k` are, and what they hold. */
  ghost predicate Placed(records: seq<Bytes>, k: nat, fs: seq<Fragment>, base: nat) {
    && k < |records| && |fs| > 0
    && var frags := LogFragments(records);
    && base + |fs| <= |frags|
    && (forall i :: base <= i < base + |fs| ==> frags[i] == fs[i - base])
    && Marked(fs, true) && Joined(fs) == records[k]
    && base == |LogFragments(records[..k])| && base + |fs| == |LogFragments(records[..k + 1])|
    && EndOf(LogFragments(records[..k + 1])) == fs[|fs| - 1].End()
  }

  lemma AppendedPlace(front: seq<Fragment>, fs: seq<Fragment>, frags: seq<Fragment>)
    requires front + fs <= frags && fs != []
    ensures |front| + |fs| <= |frags| && EndOf(front + fs) == fs[|fs| - 1].End()
    ensures forall i :: |front| <= i < |front| + |fs| ==> frags[i] == fs[i - |front|]
  {
    assert (front + fs)[|front|..] == fs;
  }

  lemma PiecesOfRecord(at: nat, record: Bytes)
    ensures Marked(FragmentsOf(at, record, true), true) && Joined(FragmentsOf(at, record, true)) == record
  {
    FragmentsSplit(at, record, true);
    SplitsMarked(FragmentsOf(at, record, true), record, true);
    SplitsJoin(FragmentsOf(at, record, true), record, true);
  }

  lemma RecordIsPlaced(records: seq<Bytes>, k: nat) returns (fs: seq<Fragment>, base: nat)
    requires k < |records|
    ensures Placed(records, k, fs, base)
  {
    var front := LogFragments(records[..k]);
    fs, base := FragmentsOf(EndOf(front), records[k], true), |front|;
    RecordPlace(records, k);
    AppendedPlace(front, fs, LogFragments(records));
    PiecesOfRecord(EndOf(front), records[k]);
  }

  lemma StreamCarries(file: Bytes, frags: seq<Fragment>, fs: seq<Fragment>, base: nat, stream: seq<PhysicalRead>)
    requires |fs| > 0 && base + |fs| <= |frags| && Marked(fs, true)
    requires forall i :: base <= i < base + |fs| ==> frags[i] == fs[i - base]
    requires Delivered(file, frags, base, stream)
    ensures Carries(stream, fs)
  {
    forall j | 0 <= j < |stream| && j < |fs|
      ensures if j == |stream| - 1 then AtEnd(stream[j]) else Delivers(stream[j], fs[j])
    {
      var i := base + j;
      assert frags[i] == fs[i - base];
    }
  }

  /** A record is whole in the stream exactly when its last byte survived. */
  lemma WholeInStream(file: Bytes, records: seq<Bytes>, k: nat, fs: seq<Fragment>, base: nat, stream: seq<PhysicalRead>)
    requires Placed(records, k, fs, base) && Delivered(file, LogFragments(records), base, stream)
    ensures |fs| < |stream| <==> EndOf(LogFragments(records[..k + 1])) <= |file|
  {
    var frags, last := LogFragments(records), base + |fs| - 1;
    assert frags[last] == fs[last - base];
    if |fs| < |stream| {
      assert Survives(file, frags, last);
    } else {
      EndsAscend(frags, base + |stream| - 1, last);
    }
  }

  lemma RestDelivered(file: Bytes, frags: seq<Fragment>, i: nat, stream: seq<PhysicalRead>, n: nat, next: nat)
    requires Delivered(file, frags, i, stream) && n < |stream| && next == i + n
    ensures Delivered(file, frags, next, stream[n..])
  {
    forall j | i + n <= j < i + |stream| - 1
      ensures Survives(file, frags, j) && Delivers(stream[n..][j - (i + n)], frags[j])
    {
      assert stream[n..][j - (i + n)] == stream[j - i];
    }
  }

  lemma CutLog(crc: Checksum, file: Bytes, records: seq<Bytes>)
    requires file <= LogFile(crc, records)
    ensures CutOf(ImageOf(crc), file, LogFragments(records))
  {
    ChainedIsOrdered(LogFragments(records));
  }

  /** A fresh reader of a cut log is going to deliver all that survived. */
  lemma StreamOfCutLog(crc: Checksum, checksum: bool, file: Bytes, records: seq<Bytes>)
    requires Extends(crc) && file <= LogFile(crc, records)
    ensures Delivered(file, LogFragments(records), 0, Stream(Accepts(crc), checksum, file, Window(0, 0, false)))
  {
    var frags := LogFragments(records);
    CutLog(crc, file, records);
    PhysicalIsFramed(crc);
    StreamDelivers(ImageOf(crc), Accepts(crc), checksum, file, frags, 0, Window(0, 0, false));
  }

  /** The first `k` records survived and have been read; the stream delivers what comes after them. */
  ghost predicate HasRead(file: Bytes, records: seq<Bytes>, k: nat, stream: seq<PhysicalRead>) {
    && k <= |records|
    && EndOf(LogFragments(records[..k])) <= |file|
    && Delivered(file, LogFragments(records), |LogFragments(records[..k])|, stream)
  }

  /** The next record is whole in the stream exactly when it is whole in the file. */
  lemma NextIsWhole(file: Bytes, records: seq<Bytes>, k: nat, stream: seq<PhysicalRead>) returns (fs: seq<Fragment>)
    requires HasRead(file, records, k, stream)
    ensures Carries(stream, fs)
    ensures 0 < |fs| < |stream| <==> k < |records| && EndOf(LogFragments(records[..k + 1])) <= |file|
    ensures 0 < |fs| < |stream| ==> Joined(fs) == records[k] && HasRead(file, records, k + 1, stream[|fs|..])
  {
    if k == |records| {
      fs := [];
      NoneIsLeft(file, records, stream);
    } else {
      var base;
      fs, base := RecordIsPlaced(records, k);
      PlacedIsCarried(file, records, k, fs, base, stream);
    }
  }

  lemma NoneIsLeft(file: Bytes, records: seq<Bytes>, stream: seq<PhysicalRead>)
    requires HasRead(file, records, |records|, stream)
    ensures Carries(stream, [])
  {
    assert records[..|records|] == records;
  }

  lemma NextIsRead(file: Bytes, records: seq<Bytes>, k: nat, fs: seq<Fragment>, base: nat, stream: seq<PhysicalRead>)
    requires Placed(records, k, fs, base) && Delivered(file, LogFragments(records), base, stream)
    requires |fs| < |stream| && EndOf(LogFragments(records[..k + 1])) <= |file|
    ensures HasRead(file, records, k + 1, stream[|fs|..])
  {
    RestDelivered(file, LogFragments(records), base, stream, |fs|, |LogFragments(records[..k + 1])|);
  }

  lemma PlacedIsCarried(file: Bytes, records: seq<Bytes>, k: nat, fs: seq<Fragment>, base: nat, stream: seq<PhysicalRead>)
    requires Placed(records, k, fs, base) && Delivered(file, LogFragments(records), base, stream)
    ensures Carries(stream, fs)
    ensures |fs| < |stream| <==> EndOf(LogFragments(records[..k + 1])) <= |file|
    ensures |fs| < |stream| ==> HasRead(file, records, k + 1, stream[|fs|..])
  {
    StreamCarries(file, LogFragments(records), fs, base, stream);
    WholeInStream(file, records, k, fs, base, stream);
    if |fs| < |stream| { NextIsRead(file, records, k, fs, base, stream); }
  }

  /** The number of records that are whole in the first `size` bytes of the log. */
  ghost predicate WholeRecords(records: seq<Bytes>, size: nat, k: nat) {
    && k <= |records|
    && EndOf(LogFragments(records[..k])) <= size
    && (k < |records| ==> size < EndOf(LogFragments(records[..k + 1])))
  }

  /** The next record if it is whole in the file, and otherwise none. */
  method ReadNext(reader: Reader, ghost records: seq<Bytes>, ghost k: nat, ghost stream: seq<PhysicalRead>)
    returns (ok: bool, record: Bytes, ghost rest: seq<PhysicalRead>)
    requires reader.Valid() && stream == Stream(reader.accepts, reader.checksum, reader.file, reader.View())
    requires HasRead(reader.file, records, k, stream)
    modifies reader
    ensures reader.Valid() && reader.drops == old(reader.drops)
    ensures ok ==> k < |records| && record == records[k]
    ensures ok ==> rest == Stream(reader.accepts, reader.checksum, reader.file, reader.View()) && HasRead(reader.file, records, k + 1, rest)
    ensures !ok ==> WholeRecords(records, |reader.file|, k)
  {
    ghost var fs := NextIsWhole(reader.file, records, k, stream);
    ok, record := reader.ReadRecord(stream, fs);
    rest := if ok then stream[|fs|..] else [];
  }

  /** The loop of RecoverLogFile and VersionSet::Recover: records until there is none. */
  method ReadAll(reader: Reader, ghost records: seq<Bytes>, ghost start: seq<PhysicalRead>) returns (got: seq<Bytes>)
    requires reader.Valid() && start == Stream(reader.accepts, reader.checksum, reader.file, reader.View())
    requires HasRead(reader.file, records, 0, start)
    modifies reader
    ensures reader.drops == old(reader.drops)
    ensures got <= records && WholeRecords(records, |reader.file|, |got|)
  {
    ghost var stream, k := start, 0;
    got := [];
    var more := true;
    while more
      invariant reader.Valid() && reader.drops == old(reader.drops)
      invariant k <= |records| && got == records[..k]
      invariant more ==> stream == Stream(reader.accepts, reader.checksum, reader.file, reader.View()) && HasRead(reader.file, records, k, stream)
      invariant !more ==> WholeRecords(records, |reader.file|, k)
      decreases more, |records| - k
    {
      var record;
      more, record, stream := ReadNext(reader, records, k, stream);
      if more {
        PrefixStep(records, k);
        got, k := got + [record], k + 1;
      }
    }
  }

  lemma PrefixStep(records: seq<Bytes>, k: nat)
    requires k < |records|
    ensures records[..k] + [records[k]] == records[..k + 1]
  {
  }

  /** For every cut of every log: the records that are whole, in order, no other, and no drop. */
  method ReadLog(crc: Checksum, checksum: bool, file: Bytes, ghost records: seq<Bytes>) returns (got: seq<Bytes>, drops: nat)
    requires Extends(crc) && file <= LogFile(crc, records)
    ensures drops == 0 && got <= records
    ensures |LogFile(crc, got)| <= |file|
    ensures |got| < |records| ==> |file| < |LogFile(crc, records[..|got| + 1])|
  {
    var reader := new Reader(crc, checksum, file);
    StreamOfCutLog(crc, checksum, file, records);
    got := ReadAll(reader, records, Stream(reader.accepts, checksum, file, reader.View()));
    drops := reader.drops;
    assert got == records[..|got|];
  }

  lemma Extend(before: seq<Bytes>, records: seq<Bytes>, n: nat)
    requires n <= |records|
    ensures n == |records| ==> before + records[..n] == before + records
    ensures n < |records| ==> before + records[..n] + [records[n]] == before + records[..n + 1]
    ensures before + records[..0] == before
  {
    assert records[..|records|] == records;
  }

  /** A writer opened at the length of a file that holds whole records goes on with that log. */
  method WriteLog(crc: Checksum, file: Bytes, records: seq<Bytes>, ghost before: seq<Bytes>) returns (longer: Bytes)
    requires file == LogFile(crc, before)
    ensures longer == LogFile(crc, before + records)
  {
    var writer := new Writer(crc, file);
    Extend(before, records, 0);
    ghost var done := before + records[..0];
    for n := 0 to |records|
      invariant fresh(writer) && writer.Valid() && writer.crc == crc
      invariant done == before + records[..n] && writer.dest == LogFile(crc, done)
    {
      Extend(before, records, n);
      writer.AddRecord(records[n], done);
      done := before + records[..n + 1];
    }
    Extend(before, records, |records|);
    longer := writer.dest;
  }

  lemma EmptyLog(crc: Checksum)
    ensures LogFile(crc, []) == []
  {
  }

  lemma PrefixIsNoLonger(crc: Checksum, records: seq<Bytes>)
    ensures forall k :: 0 <= k <= |records| ==> |LogFile(crc, records[..k])| <= |LogFile(crc, records)|
  {
    forall k | 0 <= k <= |records| ensures |LogFile(crc, records[..k])| <= |LogFile(crc, records)| {
      LogFileGrows(crc, records, k);
    }
  }

  /** Two writers one after the other, any cut, and a reader. */
  method WriteCutRead(crc: Checksum, checksum: bool, first: seq<Bytes>, second: seq<Bytes>, cut: nat) returns (got: seq<Bytes>, drops: nat)
    requires Extends(crc)
    ensures drops == 0 && got <= first + second
    ensures |LogFile(crc, got)| <= cut
    ensures |got| < |first + second| ==> cut < |LogFile(crc, (first + second)[..|got| + 1])|
  {
    EmptyLog(crc);
    var file := WriteLog(crc, [], first, []);
    assert [] + first == first;
    file := WriteLog(crc, file, second, first);
    PrefixIsNoLonger(crc, first + second);
    var left := if cut < |file| then file[..cut] else file;
    got, drops := ReadLog(crc, checksum, left, first + second);
  }
}
