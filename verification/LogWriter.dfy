/** db/log_writer.cc: appends records to a log, cut at block boundaries. */
module LogWriter {
  import opened Coding
  import opened LogFormat

  /** Rendering one more fragment appends its padding and its image. */
  lemma RenderSnoc(image: Image, frags: seq<Fragment>, f: Fragment)
    requires Sized(image) && Ordered(frags) && EndOf(frags) <= f.start
    ensures Ordered(frags + [f]) && EndOf(frags + [f]) == f.End()
    ensures Render(image, frags + [f]) == PadAndAppend(Render(image, frags), f.start, image(f))
  {
    assert (frags + [f])[..|frags|] == frags;
  }

  lemma LogFragmentsSnoc(records: seq<Bytes>, slice: Bytes)
    ensures var was := LogFragments(records);
      LogFragments(records + [slice]) == was + FragmentsOf(EndOf(was), slice, true)
  {
    assert (records + [slice])[..|records|] == records;
  }

  /** The file shows the fragments `done`; what is left of the record makes up `all`. */
  ghost predicate Written(crc: Checksum, dest: Bytes, done: seq<Fragment>, all: seq<Fragment>, left: Bytes, begin: bool, more: bool) {
    && Ordered(done) && EndOf(done) == |dest|
    && dest == Render(ImageOf(crc), done)
    && all == if more then done + FragmentsOf(|dest|, left, begin) else done
  }

  lemma FragmentsUnfold(done: seq<Fragment>, at: nat, left: Bytes, begin: bool)
    ensures var f := FirstFragment(at, left, begin);
      && var rest := left[|f.data|..];
      && done + FragmentsOf(at, left, begin) == done + [f] + (if |rest| > 0 then FragmentsOf(f.End(), rest, false) else [])
      && (|rest| > 0 ==> |f.data| > 0 || (Avail(at) == 0 && Avail(f.End()) > 0))
  {
    var f := FirstFragment(at, left, begin);
    var rest := left[|f.data|..];
    if |rest| > 0 {
      var later := FragmentsOf(f.End(), rest, false);
      assert FragmentsOf(at, left, begin) == [f] + later;
      assert done + ([f] + later) == done + [f] + later;
    }
  }

  lemma WrittenStep(crc: Checksum, dest: Bytes, done: seq<Fragment>, all: seq<Fragment>, left: Bytes, begin: bool)
    requires Written(crc, dest, done, all, left, begin, true)
    ensures var f := FirstFragment(|dest|, left, begin);
      && |dest| <= f.start
      && var after := PadAndAppend(dest, f.start, Physical(crc, f));
      && var rest := left[|f.data|..];
      && Written(crc, after, done + [f], all, rest, false, |rest| > 0)
      && (|rest| > 0 ==> |f.data| > 0 || (Avail(|dest|) == 0 && Avail(|after|) > 0))
  {
    var f := FirstFragment(|dest|, left, begin);
    RenderSnoc(ImageOf(crc), done, f);
    FragmentsUnfold(done, |dest|, left, begin);
  }

  lemma SameRemainder(a: nat, b: nat, n: nat)
    requires a % kBlockSize == b % kBlockSize
    ensures (a + n) % kBlockSize == (b + n) % kBlockSize
  {
    var r := a % kBlockSize;
    var qa, qb := a / kBlockSize, b / kBlockSize;
    assert (a + n) % kBlockSize == (r + n) % kBlockSize by { assert a + n == (r + n) + kBlockSize * qa; }
    assert (b + n) % kBlockSize == (r + n) % kBlockSize by { assert b + n == (r + n) + kBlockSize * qb; }
  }

  class Writer {
    const crc: Checksum
    /** dest_: what the file holds. */
    var dest: Bytes
    var blockOffset: nat

    ghost predicate Valid()
      reads this
    {
      blockOffset <= kBlockSize && blockOffset % kBlockSize == |dest| % kBlockSize
    }

    /** Opens an empty file, or one that already holds `dest` (the second constructor of the source). */
    constructor (crc: Checksum, dest: Bytes)
      ensures Valid() && this.crc == crc && this.dest == dest
    {
      this.crc, this.dest := crc, dest;
      blockOffset := |dest| % kBlockSize;
    }

    method EmitPhysicalRecord(kind: Byte, data: Bytes)
      requires Valid() && blockOffset + kHeaderSize + |data| <= kBlockSize
      modifies this
      ensures Valid() && blockOffset == old(blockOffset) + kHeaderSize + |data|
      ensures dest == old(dest) + Physical(crc, Fragment(|old(dest)|, kind, data))
    {
      var stored := Mask(crc(crc(0, [kind]), data));
      var header: Bytes := EncodeFixed32(stored) + [|data| % 256, |data| / 256 % 256, kind];
      dest := dest + header;
      dest := dest + data;
      blockOffset := blockOffset + kHeaderSize + |data|;
      SameRemainder(old(blockOffset), |old(dest)|, kHeaderSize + |data|);
      assert dest == old(dest) + (header + data);
    }

    /** Moves to the next block when no header fits in this one. */
    method SwitchBlock()
      requires Valid()
      modifies this
      ensures Valid() && kBlockSize - blockOffset - kHeaderSize == Avail(|old(dest)|)
      ensures dest == old(dest) + Zeros(Align(|old(dest)|) - |old(dest)|)
    {
      var leftover := kBlockSize - blockOffset;
      if leftover < kHeaderSize {
        dest := dest + Zeros(leftover);
        blockOffset := 0;
      }
    }

    /** One turn of the loop of AddRecord. */
    method EmitFragment(left: Bytes, begin: bool) returns (length: nat)
      requires Valid()
      modifies this
      ensures Valid()
      ensures var f := FirstFragment(|old(dest)|, left, begin);
        length == |f.data| && dest == PadAndAppend(old(dest), f.start, Physical(crc, f))
    {
      SwitchBlock();
      var avail := kBlockSize - blockOffset - kHeaderSize;
      length := if |left| < avail then |left| else avail;
      var end := |left| == length;
      var kind := kMiddleType;
      if begin && end {
        kind := kFullType;
      } else if begin {
        kind := kFirstType;
      } else if end {
        kind := kLastType;
      }
      EmitPhysicalRecord(kind, left[..length]);
    }

    /** A log of whole records stays one, with the new record at its end. */
    method AddRecord(slice: Bytes, ghost records: seq<Bytes>)
      requires Valid() && dest == LogFile(crc, records)
      modifies this
      ensures Valid() && dest == LogFile(crc, records + [slice])
    {
      ghost var was := LogFragments(records);
      ghost var all := was + FragmentsOf(EndOf(was), slice, true);
      ghost var done := was;
      var left, begin, more := slice, true, true;
      ChainedIsOrdered(was);
      while more
        invariant Valid()
        invariant Written(crc, dest, done, all, left, begin, more)
        decreases more, |left|, Avail(|dest|) == 0
      {
        ghost var f := FirstFragment(|dest|, left, begin);
        WrittenStep(crc, dest, done, all, left, begin);
        var length := EmitFragment(left, begin);
        done := done + [f];
        left, begin := left[length..], false;
        more := |left| > 0;
      }
      LogFragmentsSnoc(records, slice);
    }
  }
}
