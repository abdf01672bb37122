/**
 The write-ahead log as a chain of fragments (db/log_format.h): what the
 writer emits and what the reader of a cut file may still rely on.
 */
module LogFormat {
  import opened Coding
  import opened Numerals
  import opened ByteLayout

  const kBlockSize: nat := 32768
  const kHeaderSize: nat := 7

  const kZeroType: Byte := 0
  const kFullType: Byte := 1
  const kFirstType: Byte := 2
  const kMiddleType: Byte := 3
  const kLastType: Byte := 4

  /** crc32c::Extend; Value(a) is Extend(0, a). */
  type Checksum = (Word, Bytes) -> Word

  /** Extending the checksum of `a` by `b` gives the checksum of `a + b`. */
  ghost predicate Extends(crc: Checksum) {
    forall a: Bytes, b: Bytes {:trigger crc(crc(0, a), b)} :: crc(crc(0, a), b) == crc(0, a + b)
  }

  function Header(crc: Checksum, kind: Byte, data: Bytes): (h: Bytes)
    ensures |h| == kHeaderSize
  {
    EncodeFixed32(Mask(crc(crc(0, [kind]), data))) + [|data| % 256, |data| / 256 % 256, kind]
  }

  /** A physical record: where its header starts, its type, its payload. */
  datatype Fragment = Fragment(start: nat, kind: Byte, data: Bytes) {
    function End(): nat { start + kHeaderSize + |data| }
    predicate InBlock() { start % kBlockSize + kHeaderSize + |data| <= kBlockSize }
  }

  /** Where the next header goes: never into the last six bytes of a block. */
  function Align(at: nat): (a: nat)
    ensures at <= a < at + kHeaderSize
    ensures a % kBlockSize + kHeaderSize <= kBlockSize
  {
    var leftover := kBlockSize - at % kBlockSize;
    if leftover < kHeaderSize then at + leftover else at
  }

  function Zeros(n: nat): (z: Bytes)
    ensures |z| == n
  {
    seq(n, i => 0)
  }

  function EndOf(frags: seq<Fragment>): nat {
    if frags == [] then 0 else frags[|frags| - 1].End()
  }

  /** Each fragment starts right after the one before, or in the next block. */
  ghost predicate Chained(frags: seq<Fragment>, at: nat) {
    && (forall i :: 0 <= i < |frags| ==> frags[i].InBlock() && kZeroType < frags[i].kind <= kLastType)
    && (frags != [] ==> frags[0].start == Align(at))
    && (forall i, j :: 0 <= i < j < |frags| && j == i + 1 ==> frags[j].start == Align(frags[i].End()))
  }

  /** Fragments one after another. */
  ghost predicate Ordered(frags: seq<Fragment>) {
    forall i, j :: 0 <= i < j < |frags| && j == i + 1 ==> frags[i].End() <= frags[j].start
  }

  /** How fragments look in a file. */
  type Image = Fragment -> Bytes

  ghost predicate Sized(image: Image) {
    forall f :: |image(f)| == kHeaderSize + |f.data|
  }

  lemma ChainedIsOrdered(frags: seq<Fragment>)
    requires Chained(frags, 0)
    ensures Ordered(frags)
  {
  }

  function Physical(crc: Checksum, f: Fragment): (b: Bytes)
    ensures |b| == kHeaderSize + |f.data|
  {
    Header(crc, f.kind, f.data) + f.data
  }

  /** A file with zeros up to `start` and then `more`. */
  function PadAndAppend(file: Bytes, start: nat, more: Bytes): (r: Bytes)
    requires |file| <= start
    ensures |r| == start + |more|
    ensures file <= r && r[start..] == more
  {
    var padded := file + Zeros(start - |file|);
    padded + more
  }

  /** The file that holds exactly these fragments. */
  function Render(image: Image, frags: seq<Fragment>): (file: Bytes)
    requires Sized(image) && Ordered(frags)
    ensures |file| == EndOf(frags)
  {
    if frags == [] then []
    else
      var n := |frags| - 1;
      PadAndAppend(Render(image, frags[..n]), frags[n].start, image(frags[n]))
  }

  /** Appending fragments moves nothing already written. */
  lemma {:induction false} RenderGrows(image: Image, frags: seq<Fragment>, m: nat)
    requires Sized(image) && Ordered(frags) && m <= |frags|
    ensures Render(image, frags[..m]) <= Render(image, frags)
  {
    var n := |frags| - 1;
    if m <= n {
      RenderGrows(image, frags[..n], m);
      assert frags[..n][..m] == frags[..m];
    } else {
      assert frags[..m] == frags;
    }
  }

  lemma TailInLonger(a: Bytes, b: Bytes, x: nat, y: nat, tail: Bytes)
    requires a <= b && x <= |a| == y && a[x..] == tail
    ensures y <= |b| && b[x..y] == tail
  {
  }

  lemma RenderLast(image: Image, frags: seq<Fragment>)
    requires Sized(image) && Ordered(frags) && frags != []
    ensures var f := frags[|frags| - 1];
      Render(image, frags)[f.start..] == image(f)
  {
  }

  /** The file right after fragment `i`. */
  lemma RenderUpTo(image: Image, frags: seq<Fragment>, i: nat) returns (file: Bytes)
    requires Sized(image) && Ordered(frags) && i < |frags|
    ensures file <= Render(image, frags) && |file| == frags[i].End() && file[frags[i].start..] == image(frags[i])
  {
    file := Render(image, frags[..i + 1]);
    RenderLast(image, frags[..i + 1]);
    RenderGrows(image, frags, i + 1);
  }

  lemma RenderHolds(image: Image, frags: seq<Fragment>, i: nat)
    requires Sized(image) && Ordered(frags) && i < |frags|
    ensures frags[i].End() <= EndOf(frags)
    ensures Render(image, frags)[frags[i].start..frags[i].End()] == image(frags[i])
  {
    var upTo := RenderUpTo(image, frags, i);
    TailInLonger(upTo, Render(image, frags), frags[i].start, frags[i].End(), image(frags[i]));
  }

  /** Room for payload after a header, when the file has length `at`. */
  function Avail(at: nat): (n: nat)
    ensures n <= kBlockSize - kHeaderSize
  {
    kBlockSize - Align(at) % kBlockSize - kHeaderSize
  }

  /** A fragment that takes all the room ends its block. */
  lemma FilledBlock(at: nat)
    ensures Avail(Align(at) + kHeaderSize + Avail(at)) > 0
  {
    var start := Align(at);
    assert start + kHeaderSize + Avail(at) == (start / kBlockSize + 1) * kBlockSize;
  }

  function KindOf(begin: bool, end: bool): (kind: Byte)
    ensures kZeroType < kind <= kLastType
  {
    if begin && end then kFullType else if begin then kFirstType else if end then kLastType else kMiddleType
  }

  function FirstFragment(at: nat, record: Bytes, begin: bool): (f: Fragment)
    ensures f.start == Align(at) && f.InBlock() && kZeroType < f.kind <= kLastType && f.data <= record
    ensures |f.data| < |record| ==> |f.data| == Avail(at) && Avail(f.End()) > 0
  {
    var avail := Avail(at);
    var length := if |record| < avail then |record| else avail;
    var end := |record| == length;
    FilledBlock(at);
    Fragment(Align(at), KindOf(begin, end), record[..length])
  }

  /** The fragments of what is left of one record when the file has length `at`. */
  function FragmentsOf(at: nat, record: Bytes, begin: bool): (frags: seq<Fragment>)
    ensures |frags| > 0
    decreases |record|, Avail(at) == 0
  {
    var f := FirstFragment(at, record, begin);
    if |f.data| == |record| then [f] else [f] + FragmentsOf(f.End(), record[|f.data|..], false)
  }

  // ----- the format, in numbers -----

  /** Four bytes of masked checksum over type and payload, two of length, one of type, and the payload. */
  function PhysicalParts(crc: Checksum, f: Fragment): seq<Part> {
    [Fixed(4, Mask(crc(0, [f.kind] + f.data))), Fixed(2, |f.data|), Fixed(1, f.kind), Raw(f.data)]
  }

  lemma OneByteFixed(v: nat)
    ensures PutFixed(v, 1) == [v % 256]
  {
    assert PutFixed(v / 256, 0) == [];
  }

  lemma TwoBytes(n: nat)
    ensures PutFixed(n, 2) == [n % 256, n / 256 % 256]
  {
    OneByteFixed(n / 256);
  }

  lemma PhysicalLayout(crc: Checksum, f: Fragment, b: Bytes)
    requires Extends(crc) && f.InBlock()
    ensures b == Physical(crc, f) <==> Laid(b, PhysicalParts(crc, f))
  {
    assert crc(crc(0, [f.kind]), f.data) == crc(0, [f.kind] + f.data);
    HeaderParts(Mask(crc(0, [f.kind] + f.data)), |f.data|, f.kind, f.data);
    assert Power256(4) == 0x1_0000_0000 && Power256(2) == 0x1_0000 && Power256(1) == 0x100;
    LaidIff(b, PhysicalParts(crc, f));
  }

  lemma HeaderParts(sum: Word, n: nat, kind: Byte, data: Bytes)
    ensures PutParts([Fixed(4, sum), Fixed(2, n), Fixed(1, kind), Raw(data)]) == EncodeFixed32(sum) + [n % 256, n / 256 % 256, kind] + data
  {
    SumAndLength(sum, n);
    TypeAndPayload(kind, data);
    PutConcat([Fixed(4, sum), Fixed(2, n)], [Fixed(1, kind), Raw(data)]);
    assert [Fixed(4, sum), Fixed(2, n)] + [Fixed(1, kind), Raw(data)] == [Fixed(4, sum), Fixed(2, n), Fixed(1, kind), Raw(data)];
    JoinHeader(EncodeFixed32(sum), [n % 256, n / 256 % 256], kind, data);
  }

  lemma SumAndLength(sum: Word, n: nat)
    ensures PutParts([Fixed(4, sum), Fixed(2, n)]) == EncodeFixed32(sum) + [n % 256, n / 256 % 256]
  {
    Fixed32Is(sum);
    FixedUnique(EncodeFixed32(sum), 4, sum);
    TwoBytes(n);
    PutTwo(Fixed(4, sum), Fixed(2, n));
  }

  lemma TypeAndPayload(kind: Byte, data: Bytes)
    ensures PutParts([Fixed(1, kind), Raw(data)]) == [kind] + data
  {
    OneByteFixed(kind);
    PutTwo(Fixed(1, kind), Raw(data));
  }

  lemma JoinHeader(a: Bytes, b: Bytes, kind: Byte, data: Bytes)
    ensures a + b + ([kind] + data) == a + (b + [kind]) + data
  {
  }

  /** Types 1 for a whole record, and 2, 3 and 4 for its first, middle and last fragments. */
  function TypeOf(i: nat, n: nat, begin: bool): nat {
    if begin && i == 0 then (if n == 1 then 1 else 2) else if i == n - 1 then 4 else 3
  }

  /** No fragment crosses a 32768-byte boundary, and all but the last end at one. */
  ghost predicate WellPlaced(frags: seq<Fragment>) {
    frags != [] ==>
      && InsideBlock(frags[0])
      && (|frags| > 1 ==> FillsBlock(frags[0]) && frags[1].start == frags[0].End() && WellPlaced(frags[1..]))
  }

  ghost predicate InsideBlock(f: Fragment) { f.start % 32768 + 7 + |f.data| <= 32768 && f.End() == f.start + 7 + |f.data| }

  ghost predicate FillsBlock(f: Fragment) { f.End() % 32768 == 0 }

  lemma WholeBlock(at: nat)
    ensures (Align(at) + 7 + Avail(at)) % 32768 == 0
  {
  }

  /** A header never starts in the last six bytes of a block. */
  lemma HeaderPlace(at: nat)
    ensures Align(at) == if at % 32768 > 32761 then (at / 32768 + 1) * 32768 else at
  {
  }

  lemma FirstFragmentForm(at: nat, record: Bytes, begin: bool)
    ensures var f := FirstFragment(at, record, begin);
      && f.start == (if at % 32768 > 32761 then (at / 32768 + 1) * 32768 else at)
      && InsideBlock(f) && (|f.data| < |record| ==> FillsBlock(f))
      && f.kind as int == if |f.data| == |record| then (if begin then 1 else 4) else if begin then 2 else 3
  {
    HeaderPlace(at);
    WholeBlock(at);
  }

  /** How a record is split, as the format documentation says. */
  lemma {:induction false} RecordForm(at: nat, record: Bytes, begin: bool)
    ensures var frags := FragmentsOf(at, record, begin);
      && WellPlaced(frags) && frags[0].start == (if at % 32768 > 32761 then (at / 32768 + 1) * 32768 else at)
      && forall i :: 0 <= i < |frags| ==> frags[i].kind as int == TypeOf(i, |frags|, begin)
    decreases |record|, Avail(at) == 0
  {
    var f := FirstFragment(at, record, begin);
    FirstFragmentForm(at, record, begin);
    if |f.data| < |record| {
      var rest := FragmentsOf(f.End(), record[|f.data|..], false);
      RecordForm(f.End(), record[|f.data|..], false);
      Prepended(f, rest);
      var frags := [f] + rest;
      forall i | 0 <= i < |frags| ensures frags[i].kind as int == TypeOf(i, |frags|, begin) {
        if i > 0 { assert frags[i] == rest[i - 1]; }
      }
    } else {
      assert WellPlaced([f]);
    }
  }

  lemma Prepended(f: Fragment, rest: seq<Fragment>)
    requires WellPlaced(rest) && rest != [] && rest[0].start == f.End() && InsideBlock(f) && FillsBlock(f)
    ensures WellPlaced([f] + rest)
  {
    assert ([f] + rest)[1..] == rest;
  }

  /** The fragments of a whole log. */
  function LogFragments(records: seq<Bytes>): (frags: seq<Fragment>)
    ensures Chained(frags, 0)
  {
    if records == [] then []
    else
      var n := |records| - 1;
      var front := LogFragments(records[..n]);
      var last := FragmentsOf(EndOf(front), records[n], true);
      FragmentsChain(EndOf(front), records[n], true);
      front + last
  }

  function ImageOf(crc: Checksum): (image: Image)
    ensures Sized(image)
  {
    f => Physical(crc, f)
  }

  /** The bytes of a log that holds exactly these records. */
  function LogFile(crc: Checksum, records: seq<Bytes>): (file: Bytes)
    ensures |file| == EndOf(LogFragments(records))
  {
    ChainedIsOrdered(LogFragments(records));
    Render(ImageOf(crc), LogFragments(records))
  }

  lemma {:induction false} FragmentsChain(at: nat, record: Bytes, begin: bool)
    ensures Chained(FragmentsOf(at, record, begin), at)
    decreases |record|, Avail(at) == 0
  {
    var f := FragmentsOf(at, record, begin)[0];
    assert f.InBlock();
    if |f.data| < |record| {
      FragmentsChain(f.End(), record[|f.data|..], false);
    }
  }

  ghost function Joined(frags: seq<Fragment>): Bytes {
    if frags == [] then [] else Joined(frags[..|frags| - 1]) + frags[|frags| - 1].data
  }

  lemma {:induction false} JoinedCons(f: Fragment, rest: seq<Fragment>)
    ensures Joined([f] + rest) == f.data + Joined(rest)
    decreases |rest|
  {
    var n := |rest|;
    if n > 0 {
      JoinedCons(f, rest[..n - 1]);
      assert ([f] + rest)[..n] == [f] + rest[..n - 1];
    }
  }

  /** The types mark the first and the last fragment of a record, and no other. */
  ghost predicate Marked(frags: seq<Fragment>, begin: bool) {
    forall i :: 0 <= i < |frags| ==>
      frags[i].kind ==
        if i == 0 && begin then (if |frags| == 1 then kFullType else kFirstType)
        else if i == |frags| - 1 then kLastType else kMiddleType
  }

  /** The fragments cut the record into pieces, in order. */
  ghost predicate Splits(frags: seq<Fragment>, record: Bytes, begin: bool) {
    && frags != []
    && var f := frags[0];
    && var end := |frags| == 1;
    && f.kind == (if begin then (if end then kFullType else kFirstType) else if end then kLastType else kMiddleType)
    && f.data <= record
    && if end then f.data == record else Splits(frags[1..], record[|f.data|..], false)
  }

  lemma {:induction false} FragmentsSplit(at: nat, record: Bytes, begin: bool)
    ensures Splits(FragmentsOf(at, record, begin), record, begin)
    decreases |record|, Avail(at) == 0
  {
    var f := FragmentsOf(at, record, begin)[0];
    if |f.data| < |record| {
      FragmentsSplit(f.End(), record[|f.data|..], false);
    }
  }

  lemma {:induction false} SplitsMarked(frags: seq<Fragment>, record: Bytes, begin: bool)
    requires Splits(frags, record, begin)
    ensures Marked(frags, begin)
  {
    if |frags| > 1 { SplitsMarked(frags[1..], record[|frags[0].data|..], false); }
  }

  /** Every byte of a record is in its fragments, in order. */
  lemma {:induction false} SplitsJoin(frags: seq<Fragment>, record: Bytes, begin: bool)
    requires Splits(frags, record, begin)
    ensures Joined(frags) == record
  {
    var f, rest := frags[0], frags[1..];
    assert frags == [f] + rest;
    JoinedCons(f, rest);
    if rest != [] { SplitsJoin(rest, record[|f.data|..], false); }
  }

  lemma LastRecord(records: seq<Bytes>)
    requires records != []
    ensures LogFragments(records[..|records| - 1]) <= LogFragments(records)
  {
  }

  lemma PrefixOf(a: seq<Fragment>, b: seq<Fragment>, c: seq<Fragment>)
    requires a <= b && b <= c
    ensures a <= c
  {
  }

  /** The fragments of the first `k` records come first. */
  lemma {:induction false} LogPrefix(records: seq<Bytes>, k: nat)
    requires k <= |records|
    ensures LogFragments(records[..k]) <= LogFragments(records)
  {
    var n := |records| - 1;
    if k <= n {
      LogPrefix(records[..n], k);
      assert records[..n][..k] == records[..k];
      LastRecord(records);
      PrefixOf(LogFragments(records[..k]), LogFragments(records[..n]), LogFragments(records));
    } else {
      assert records[..k] == records;
    }
  }

  /** Record `k` lies right after the first `k` records. */
  lemma RecordPlace(records: seq<Bytes>, k: nat)
    requires k < |records|
    ensures LogFragments(records[..k + 1])
         == LogFragments(records[..k]) + FragmentsOf(EndOf(LogFragments(records[..k])), records[k], true)
    ensures LogFragments(records[..k + 1]) <= LogFragments(records)
  {
    assert records[..k + 1][..k] == records[..k];
    LogPrefix(records, k + 1);
  }

  /** Later fragments end later. */
  lemma {:induction false} EndsAscend(frags: seq<Fragment>, i: nat, j: nat)
    requires Chained(frags, 0) && i <= j < |frags|
    ensures frags[i].End() <= frags[j].End()
    decreases j
  {
    if i < j { EndsAscend(frags, i, j - 1); }
  }

  /** Appending whole records extends the file: nothing already written moves. */
  lemma LogFileGrows(crc: Checksum, records: seq<Bytes>, k: nat)
    requires k <= |records|
    ensures LogFile(crc, records[..k]) <= LogFile(crc, records)
  {
    var frags, upTo := LogFragments(records), LogFragments(records[..k]);
    LogPrefix(records, k);
    assert frags[..|upTo|] == upTo;
    ChainedIsOrdered(frags);
    RenderGrows(ImageOf(crc), frags, |upTo|);
  }
}
