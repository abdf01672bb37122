/**
 VersionEdit::EncodeTo and DecodeFrom (db/version_edit.cc): a manifest record is
 read back as the edit that was written.
 */
module VersionEdit {
  import opened Options
  import opened Coding
  import opened ByteLayout

  const kNumLevels: nat := 7

  datatype NewFile = NewFile(level: nat, number: nat, size: nat, smallest: Bytes, largest: Bytes)

  /** `deletedFiles` is a set of pairs in ascending order. */
  datatype Edit = Edit(
    comparator: Option<Bytes>, logNumber: Option<nat>, prevLogNumber: Option<nat>, nextFileNumber: Option<nat>, lastSequence: Option<nat>,
    compactPointers: seq<(nat, Bytes)>, deletedFiles: seq<(nat, nat)>, newFiles: seq<NewFile>)

  const Empty: Edit := Edit(None, None, None, None, None, [], [], [])

  /** One tagged field of a record. */
  datatype Item =
    | Comparator(name: Bytes)
    | LogNumber(number: nat)
    | PrevLogNumber(number: nat)
    | NextFileNumber(number: nat)
    | LastSequence(number: nat)
    | CompactPointer(level: nat, key: Bytes)
    | DeletedFile(level: nat, number: nat)
    | Added(file: NewFile)

  predicate PairBefore(a: (nat, nat), b: (nat, nat)) { a.0 < b.0 || (a.0 == b.0 && a.1 < b.1) }

  /** std::set::insert. */
  function InsertPair(s: seq<(nat, nat)>, p: (nat, nat)): seq<(nat, nat)> {
    if s == [] then [p]
    else if PairBefore(p, s[0]) then [p] + s
    else if p == s[0] then s
    else [s[0]] + InsertPair(s[1..], p)
  }

  function Apply(e: Edit, item: Item): Edit {
    match item
    case Comparator(name) => e.(comparator := Some(name))
    case LogNumber(n) => e.(logNumber := Some(n))
    case PrevLogNumber(n) => e.(prevLogNumber := Some(n))
    case NextFileNumber(n) => e.(nextFileNumber := Some(n))
    case LastSequence(n) => e.(lastSequence := Some(n))
    case CompactPointer(level, key) => e.(compactPointers := e.compactPointers + [(level, key)])
    case DeletedFile(level, number) => e.(deletedFiles := InsertPair(e.deletedFiles, (level, number)))
    case Added(f) => e.(newFiles := e.newFiles + [f])
  }

  // ----- the codec below the fields -----

  /** Taking a number or a string off the front of the input. */
  datatype Codec = Codec(
    put: nat -> Bytes, word: Bytes -> Option<(nat, Bytes)>, long: Bytes -> Option<(nat, Bytes)>,
    putSlice: Bytes -> Bytes, slice: Bytes -> Option<(Bytes, Bytes)>)

  const Word32: nat := 0x1_0000_0000
  const Word64: nat := 0x1_0000_0000_0000_0000

  /** What was put is taken, and taking uses up input. */
  ghost predicate Lawful(c: Codec) {
    && (forall v, tail: Bytes :: 0 <= v < Word32 ==> c.word(c.put(v) + tail) == Some((v, tail)))
    && (forall v, tail: Bytes :: 0 <= v < Word64 ==> c.long(c.put(v) + tail) == Some((v, tail)))
    && (forall s, tail: Bytes :: |s| < Word32 ==> c.slice(c.putSlice(s) + tail) == Some((s, tail)))
    && Consumes(c)
  }

  ghost predicate Consumes(c: Codec) {
    && (forall b :: c.word(b).Some? ==> |c.word(b).value.1| < |b|)
    && (forall b :: c.long(b).Some? ==> |c.long(b).value.1| < |b|)
    && (forall b :: c.slice(b).Some? ==> |c.slice(b).value.1| < |b|)
    && c.word([]) == None
  }

  ghost predicate ItemFits(item: Item) {
    match item
    case Comparator(name) => |name| < Word32
    case LogNumber(n) => n < Word64
    case PrevLogNumber(n) => n < Word64
    case NextFileNumber(n) => n < Word64
    case LastSequence(n) => n < Word64
    case CompactPointer(level, key) => level < kNumLevels && |key| < Word32
    case DeletedFile(level, number) => level < kNumLevels && number < Word64
    case Added(f) => f.level < kNumLevels && f.number < Word64 && f.size < Word64 && |f.smallest| < Word32 && |f.largest| < Word32
  }

  /** GetLevel: a level out of range is an error. */
  function TakeLevel(c: Codec, b: Bytes): (r: Option<(nat, Bytes)>)
    requires Consumes(c)
    ensures r.Some? ==> |r.value.1| < |b|
  {
    var r := c.word(b);
    if r.Some? && r.value.0 < kNumLevels then r else None
  }

  /** The fields after a tag, as one item. */
  function TakeFields(c: Codec, tag: nat, b: Bytes): (r: Option<(Item, Bytes)>)
    requires Consumes(c)
    ensures r.Some? ==> |r.value.1| < |b|
  {
    if tag == 1 then
      var s := c.slice(b);
      if s == None then None else Some((Comparator(s.value.0), s.value.1))
    else if tag == 2 || tag == 3 || tag == 4 || tag == 9 then
      var n := c.long(b);
      if n == None then None
      else Some((if tag == 2 then LogNumber(n.value.0) else if tag == 3 then NextFileNumber(n.value.0)
                 else if tag == 4 then LastSequence(n.value.0) else PrevLogNumber(n.value.0), n.value.1))
    else if tag == 5 || tag == 6 || tag == 7 then
      var l := TakeLevel(c, b);
      if l == None then None
      else if tag == 5 then
        var s := c.slice(l.value.1);
        if s == None then None else Some((CompactPointer(l.value.0, s.value.0), s.value.1))
      else if tag == 6 then
        var n := c.long(l.value.1);
        if n == None then None else Some((DeletedFile(l.value.0, n.value.0), n.value.1))
      else TakeFile(c, l.value.0, l.value.1)
    else None
  }

  function TakeFile(c: Codec, level: nat, b: Bytes): (r: Option<(Item, Bytes)>)
    requires Consumes(c)
    ensures r.Some? ==> |r.value.1| < |b|
  {
    var number := c.long(b);
    if number == None then None else
    var size := c.long(number.value.1);
    if size == None then None else
    var smallest := c.slice(size.value.1);
    if smallest == None then None else
    var largest := c.slice(smallest.value.1);
    if largest == None then None
    else Some((Added(NewFile(level, number.value.0, size.value.0, smallest.value.0, largest.value.0)), largest.value.1))
  }

  function TagOf(item: Item): nat {
    match item
    case Comparator(_) => 1
    case LogNumber(_) => 2
    case PrevLogNumber(_) => 9
    case NextFileNumber(_) => 3
    case LastSequence(_) => 4
    case CompactPointer(_, _) => 5
    case DeletedFile(_, _) => 6
    case Added(_) => 7
  }

  function PutFields(c: Codec, item: Item): Bytes {
    match item
    case Comparator(name) => c.putSlice(name)
    case LogNumber(n) => c.put(n)
    case PrevLogNumber(n) => c.put(n)
    case NextFileNumber(n) => c.put(n)
    case LastSequence(n) => c.put(n)
    case CompactPointer(level, key) => c.put(level) + c.putSlice(key)
    case DeletedFile(level, number) => c.put(level) + c.put(number)
    case Added(f) => c.put(f.level) + (c.put(f.number) + (c.put(f.size) + (c.putSlice(f.smallest) + c.putSlice(f.largest))))
  }

  lemma FileRoundTrip(c: Codec, f: NewFile, tail: Bytes)
    requires Lawful(c) && ItemFits(Added(f))
    ensures TakeFile(c, f.level, c.put(f.number) + (c.put(f.size) + (c.putSlice(f.smallest) + c.putSlice(f.largest))) + tail) == Some((Added(f), tail))
  {
    var d := c.putSlice(f.largest) + tail;
    var s := c.putSlice(f.smallest) + d;
    var z := c.put(f.size) + s;
    assert c.put(f.number) + (c.put(f.size) + (c.putSlice(f.smallest) + c.putSlice(f.largest))) + tail == c.put(f.number) + z;
  }

  lemma PointerRoundTrip(c: Codec, level: nat, key: Bytes, tail: Bytes)
    requires Lawful(c) && level < kNumLevels && |key| < Word32
    ensures TakeFields(c, 5, c.put(level) + c.putSlice(key) + tail) == Some((CompactPointer(level, key), tail))
  {
    assert c.put(level) + c.putSlice(key) + tail == c.put(level) + (c.putSlice(key) + tail);
  }

  lemma DeletedRoundTrip(c: Codec, level: nat, number: nat, tail: Bytes)
    requires Lawful(c) && level < kNumLevels && number < Word64
    ensures TakeFields(c, 6, c.put(level) + c.put(number) + tail) == Some((DeletedFile(level, number), tail))
  {
    assert c.put(level) + c.put(number) + tail == c.put(level) + (c.put(number) + tail);
  }

  lemma AddedRoundTrip(c: Codec, f: NewFile, tail: Bytes)
    requires Lawful(c) && ItemFits(Added(f))
    ensures TakeFields(c, 7, PutFields(c, Added(f)) + tail) == Some((Added(f), tail))
  {
    var rest := c.put(f.number) + (c.put(f.size) + (c.putSlice(f.smallest) + c.putSlice(f.largest)));
    assert PutFields(c, Added(f)) + tail == c.put(f.level) + (rest + tail);
    FileRoundTrip(c, f, tail);
  }

  lemma FieldsRoundTrip(c: Codec, item: Item, tail: Bytes)
    requires Lawful(c) && ItemFits(item)
    ensures TakeFields(c, TagOf(item), PutFields(c, item) + tail) == Some((item, tail))
  {
    match item
    case CompactPointer(level, key) => PointerRoundTrip(c, level, key, tail);
    case DeletedFile(level, number) => DeletedRoundTrip(c, level, number, tail);
    case Added(f) => AddedRoundTrip(c, f, tail);
    case _ =>
  }

  function PutItem(c: Codec, item: Item): Bytes {
    c.put(TagOf(item)) + PutFields(c, item)
  }

  function PutItems(c: Codec, items: seq<Item>): Bytes {
    if items == [] then [] else PutItem(c, items[0]) + PutItems(c, items[1..])
  }

  // ----- whole records -----

  datatype Result = Ok(edit: Edit) | Corruption

  /** The loop of DecodeFrom: tag by tag, until the input is used up or makes no sense. */
  function DecodeItems(c: Codec, e: Edit, input: Bytes): Result
    requires Consumes(c)
    decreases |input|
  {
    match c.word(input)
    case None => if input == [] then Ok(e) else Corruption
    case Some((tag, b)) =>
      match TakeFields(c, tag, b)
      case None => Corruption
      case Some((item, rest)) => DecodeItems(c, Apply(e, item), rest)
  }

  function ApplyAll(e: Edit, items: seq<Item>): Edit
    decreases |items|
  {
    if items == [] then e else ApplyAll(Apply(e, items[0]), items[1..])
  }

  /** One turn of the loop on one encoded item. */
  lemma ItemStep(c: Codec, e: Edit, item: Item, tail: Bytes)
    requires Lawful(c) && ItemFits(item)
    ensures DecodeItems(c, e, PutItem(c, item) + tail) == DecodeItems(c, Apply(e, item), tail)
  {
    var fields := PutFields(c, item) + tail;
    assert PutItem(c, item) + tail == c.put(TagOf(item)) + fields;
    assert c.word(c.put(TagOf(item)) + fields) == Some((TagOf(item), fields));
    FieldsRoundTrip(c, item, tail);
  }

  /** Decoding what was encoded applies the items one by one. */
  lemma {:induction false} ItemsRoundTrip(c: Codec, e: Edit, items: seq<Item>)
    requires Lawful(c) && forall i :: 0 <= i < |items| ==> ItemFits(items[i])
    ensures DecodeItems(c, e, PutItems(c, items)) == Ok(ApplyAll(e, items))
    decreases |items|
  {
    if items != [] {
      var item, tail := items[0], PutItems(c, items[1..]);
      ItemsRoundTrip(c, Apply(e, item), items[1..]);
      ItemStep(c, e, item, tail);
    }
  }

  function OptionItem(o: Option<nat>, make: nat -> Item): seq<Item> {
    if o == None then [] else [make(o.value)]
  }

  function Pointers(ps: seq<(nat, Bytes)>): (items: seq<Item>)
    ensures |items| == |ps| && forall i :: 0 <= i < |ps| ==> items[i] == CompactPointer(ps[i].0, ps[i].1)
  {
    seq(|ps|, i requires 0 <= i < |ps| => CompactPointer(ps[i].0, ps[i].1))
  }

  function Deletions(ds: seq<(nat, nat)>): (items: seq<Item>)
    ensures |items| == |ds| && forall i :: 0 <= i < |ds| ==> items[i] == DeletedFile(ds[i].0, ds[i].1)
  {
    seq(|ds|, i requires 0 <= i < |ds| => DeletedFile(ds[i].0, ds[i].1))
  }

  function Additions(fs: seq<NewFile>): (items: seq<Item>)
    ensures |items| == |fs| && forall i :: 0 <= i < |fs| ==> items[i] == Added(fs[i])
  {
    seq(|fs|, i requires 0 <= i < |fs| => Added(fs[i]))
  }

  /** The fields of an edit in the order in which EncodeTo writes them. */
  function Scalars(e: Edit): seq<Item> {
    (if e.comparator == None then [] else [Comparator(e.comparator.value)])
    + OptionItem(e.logNumber, (n: nat) => LogNumber(n)) + OptionItem(e.prevLogNumber, (n: nat) => PrevLogNumber(n))
    + OptionItem(e.nextFileNumber, (n: nat) => NextFileNumber(n)) + OptionItem(e.lastSequence, (n: nat) => LastSequence(n))
  }

  function ItemsOf(e: Edit): seq<Item> {
    Scalars(e) + (Pointers(e.compactPointers) + (Deletions(e.deletedFiles) + Additions(e.newFiles)))
  }

  function EncodeTo(c: Codec, e: Edit): Bytes {
    PutItems(c, ItemsOf(e))
  }

  /** Clear() forgets everything but the compaction pointers. */
  function Cleared(e: Edit): Edit {
    Empty.(compactPointers := e.compactPointers)
  }

  /** DecodeFrom into an edit that may have been used before. */
  function DecodeFrom(c: Codec, prior: Edit, src: Bytes): Result
    requires Consumes(c)
  {
    DecodeItems(c, Cleared(prior), src)
  }

  ghost predicate PairsAscend(ds: seq<(nat, nat)>) {
    forall i, j :: 0 <= i < j < |ds| ==> PairBefore(ds[i], ds[j])
  }

  /** Numbers fit in 64 bits, strings in 32-bit lengths, levels are levels, and the set is a set. */
  ghost predicate Fits(e: Edit) {
    && (forall i :: 0 <= i < |ItemsOf(e)| ==> ItemFits(ItemsOf(e)[i]))
    && PairsAscend(e.deletedFiles)
  }

  lemma {:induction false} ApplyConcat(e: Edit, a: seq<Item>, b: seq<Item>)
    ensures ApplyAll(e, a + b) == ApplyAll(ApplyAll(e, a), b)
    decreases |a|
  {
    if a == [] {
      assert a + b == b;
    } else {
      ApplyConcat(Apply(e, a[0]), a[1..], b);
      assert (a + b)[1..] == a[1..] + b;
    }
  }

  lemma {:induction false} ApplyPointers(e: Edit, ps: seq<(nat, Bytes)>)
    ensures ApplyAll(e, Pointers(ps)) == e.(compactPointers := e.compactPointers + ps)
    decreases |ps|
  {
    if ps != [] {
      var next := e.(compactPointers := e.compactPointers + [(ps[0].0, ps[0].1)]);
      ApplyPointers(next, ps[1..]);
      assert Pointers(ps)[1..] == Pointers(ps[1..]);
      assert next.compactPointers + ps[1..] == e.compactPointers + ps;
    } else {
      assert e.compactPointers + ps == e.compactPointers;
    }
  }

  lemma {:induction false} ApplyAdditions(e: Edit, fs: seq<NewFile>)
    ensures ApplyAll(e, Additions(fs)) == e.(newFiles := e.newFiles + fs)
    decreases |fs|
  {
    if fs != [] {
      var next := e.(newFiles := e.newFiles + [fs[0]]);
      ApplyAdditions(next, fs[1..]);
      assert Additions(fs)[1..] == Additions(fs[1..]);
      assert next.newFiles + fs[1..] == e.newFiles + fs;
    } else {
      assert e.newFiles + fs == e.newFiles;
    }
  }

  /** Inserting pairs in ascending order appends them. */
  lemma {:induction false} InsertLast(s: seq<(nat, nat)>, p: (nat, nat))
    requires forall i :: 0 <= i < |s| ==> PairBefore(s[i], p)
    ensures InsertPair(s, p) == s + [p]
  {
    if s != [] { InsertLast(s[1..], p); }
  }

  lemma {:induction false} ApplyDeletions(e: Edit, ds: seq<(nat, nat)>)
    requires PairsAscend(e.deletedFiles + ds)
    ensures ApplyAll(e, Deletions(ds)) == e.(deletedFiles := e.deletedFiles + ds)
    decreases |ds|
  {
    if ds != [] {
      var s, p := e.deletedFiles, (ds[0].0, ds[0].1);
      assert (s + ds)[|s|] == p;
      forall i | 0 <= i < |s| ensures PairBefore(s[i], p) { assert (s + ds)[i] == s[i]; }
      InsertLast(s, p);
      assert (s + [p]) + ds[1..] == s + ds;
      ApplyDeletions(e.(deletedFiles := s + [p]), ds[1..]);
      assert Deletions(ds)[1..] == Deletions(ds[1..]);
    } else {
      assert e.deletedFiles + ds == e.deletedFiles;
    }
  }

  lemma ApplyScalars(e: Edit, prior: Edit)
    ensures ApplyAll(Cleared(prior), Scalars(e))
         == Cleared(prior).(comparator := e.comparator, logNumber := e.logNumber, prevLogNumber := e.prevLogNumber, nextFileNumber := e.nextFileNumber, lastSequence := e.lastSequence)
  {
    var a := if e.comparator == None then [] else [Comparator(e.comparator.value)];
    var b, c := OptionItem(e.logNumber, (n: nat) => LogNumber(n)), OptionItem(e.prevLogNumber, (n: nat) => PrevLogNumber(n));
    var d, f := OptionItem(e.nextFileNumber, (n: nat) => NextFileNumber(n)), OptionItem(e.lastSequence, (n: nat) => LastSequence(n));
    var e0 := Cleared(prior);
    ApplyConcat(e0, a + b + c + d, f);
    ApplyConcat(e0, a + b + c, d);
    ApplyConcat(e0, a + b, c);
    ApplyConcat(e0, a, b);
  }

  /**
   The manifest round trip: what EncodeTo writes, DecodeFrom reads back as the
   same edit, except that pointers left over in the edit decoded into stay.
   */
  lemma EditRoundTrip(c: Codec, e: Edit, prior: Edit)
    requires Lawful(c) && Fits(e)
    ensures DecodeFrom(c, prior, EncodeTo(c, e)) == Ok(e.(compactPointers := prior.compactPointers + e.compactPointers))
  {
    var e0 := Cleared(prior);
    var p, d, a := Pointers(e.compactPointers), Deletions(e.deletedFiles), Additions(e.newFiles);
    ItemsRoundTrip(c, e0, ItemsOf(e));
    ApplyConcat(e0, Scalars(e), p + (d + a));
    ApplyScalars(e, prior);
    var e1 := ApplyAll(e0, Scalars(e));
    ApplyConcat(e1, p, d + a);
    ApplyPointers(e1, e.compactPointers);
    var e2 := ApplyAll(e1, p);
    ApplyConcat(e2, d, a);
    assert e2.deletedFiles + e.deletedFiles == e.deletedFiles;
    ApplyDeletions(e2, e.deletedFiles);
    ApplyAdditions(ApplyAll(e2, d), e.newFiles);
    assert [] + e.newFiles == e.newFiles;
  }

  /** Decoding gives back exactly what was encoded if and only if the edit decoded into had no pointers. */
  lemma FreshDecodeIsExact(c: Codec, e: Edit, prior: Edit)
    requires Lawful(c) && Fits(e)
    ensures DecodeFrom(c, prior, EncodeTo(c, e)) == Ok(e) <==> prior.compactPointers == []
  {
    EditRoundTrip(c, e, prior);
    assert |prior.compactPointers + e.compactPointers| == |prior.compactPointers| + |e.compactPointers|;
    assert prior.compactPointers == [] ==> prior.compactPointers + e.compactPointers == e.compactPointers;
  }

  // ----- the real numbers and strings of a record (util/coding.cc) -----

  function TakeVarint(b: Bytes, n: nat, limit: nat): (r: Option<(nat, Bytes)>)
    requires limit > 0
    ensures r.Some? ==> |r.value.1| < |b|
  {
    match GetVarint(b, n)
    case None => None
    case Some((v, m)) => var low: nat := v % limit; Some((low, b[m..]))
  }

  function TakeWord(b: Bytes): (r: Option<(nat, Bytes)>)
    ensures r.Some? ==> |r.value.1| < |b|
  {
    TakeVarint(b, 5, Word32)
  }

  function TakeLong(b: Bytes): (r: Option<(nat, Bytes)>)
    ensures r.Some? ==> |r.value.1| < |b|
  {
    TakeVarint(b, 10, Word64)
  }

  function PutLengthPrefixedSlice(s: Bytes): Bytes { PutVarint(|s|) + s }

  function GetLengthPrefixedSlice(b: Bytes): (r: Option<(Bytes, Bytes)>)
    ensures r.Some? ==> |r.value.1| < |b|
  {
    match TakeWord(b)
    case None => None
    case Some((len, rest)) => if |rest| >= len then Some((rest[..len], rest[len..])) else None
  }

  const Varints: Codec := Codec(PutVarint, TakeWord, TakeLong, PutLengthPrefixedSlice, GetLengthPrefixedSlice)

  lemma TakePut(v: nat, tail: Bytes, n: nat, limit: nat)
    requires |PutVarint(v)| <= n && v < limit
    ensures TakeVarint(PutVarint(v) + tail, n, limit) == Some((v, tail))
  {
    VarintRoundTrip(v, tail, n);
    TakenAs(PutVarint(v) + tail, v, |PutVarint(v)|, n, limit);
    assert (PutVarint(v) + tail)[|PutVarint(v)|..] == tail;
  }

  lemma TakenAs(b: Bytes, v: nat, m: nat, n: nat, limit: nat)
    requires GetVarint(b, n) == Some((v, m)) && v < limit
    ensures TakeVarint(b, n, limit) == Some((v, b[m..]))
  {
  }

  lemma SliceRoundTrip(s: Bytes, tail: Bytes)
    requires |s| < Word32
    ensures GetLengthPrefixedSlice(PutLengthPrefixedSlice(s) + tail) == Some((s, tail))
  {
    assert PutLengthPrefixedSlice(s) + tail == PutVarint(|s|) + (s + tail);
    WordLength(|s|);
    TakePut(|s|, s + tail, 5, Word32);
  }

  lemma VarintsAreLawful()
    ensures Lawful(Varints)
  {
    forall v, tail: Bytes | 0 <= v < Word32 ensures Varints.word(Varints.put(v) + tail) == Some((v, tail)) {
      WordLength(v);
      TakePut(v, tail, 5, Word32);
    }
    forall v, tail: Bytes | 0 <= v < Word64 ensures Varints.long(Varints.put(v) + tail) == Some((v, tail)) {
      WordLength(v);
      TakePut(v, tail, 10, Word64);
    }
    forall s, tail: Bytes | |s| < Word32 ensures Varints.slice(Varints.putSlice(s) + tail) == Some((s, tail)) {
      SliceRoundTrip(s, tail);
    }
  }

  /** With the real encoding: every edit that fits, into every edit. */
  lemma ManifestRecordRoundTrip(e: Edit, prior: Edit)
    requires Fits(e)
    ensures Lawful(Varints) && DecodeFrom(Varints, prior, EncodeTo(Varints, e)) == Ok(e.(compactPointers := prior.compactPointers + e.compactPointers))
  {
    VarintsAreLawful();
    EditRoundTrip(Varints, e, prior);
  }

  /** The loop of DecodeFrom. */
  method DecodeRecord(prior: Edit, src: Bytes) returns (r: Result)
    ensures Consumes(Varints) && r == DecodeFrom(Varints, prior, src)
  {
    VarintsAreLawful();
    var e, input := Cleared(prior), src;
    while true
      invariant DecodeItems(Varints, e, input) == DecodeFrom(Varints, prior, src)
      decreases |input|
    {
      var tag := TakeWord(input);
      if tag == None {
        return if input == [] then Ok(e) else Corruption;
      }
      var fields := TakeFields(Varints, tag.value.0, tag.value.1);
      if fields == None {
        return Corruption;
      }
      e, input := Apply(e, fields.value.0), fields.value.1;
    }
  }

  // ----- the layout, in numbers -----

  /** An item is its tag and its fields; all numbers are varints. */
  function ItemParts(item: Item): seq<Part> {
    match item
    case Comparator(name) => [Varint(1), Slice(name)]
    case LogNumber(n) => [Varint(2), Varint(n)]
    case NextFileNumber(n) => [Varint(3), Varint(n)]
    case LastSequence(n) => [Varint(4), Varint(n)]
    case CompactPointer(level, key) => [Varint(5), Varint(level), Slice(key)]
    case DeletedFile(level, number) => [Varint(6), Varint(level), Varint(number)]
    case Added(f) => [Varint(7), Varint(f.level), Varint(f.number), Varint(f.size), Slice(f.smallest), Slice(f.largest)]
    case PrevLogNumber(n) => [Varint(9), Varint(n)]
  }

  lemma PutFile(f: NewFile)
    ensures PutParts(ItemParts(Added(f))) == PutItem(Varints, Added(f))
  {
    var a, b := [Varint(7), Varint(f.level), Varint(f.number)], [Varint(f.size), Slice(f.smallest), Slice(f.largest)];
    PutThree(Varint(7), Varint(f.level), Varint(f.number));
    PutThree(Varint(f.size), Slice(f.smallest), Slice(f.largest));
    PutConcat(a, b);
    assert ItemParts(Added(f)) == a + b;
    var x, y, z := PutVarint(7), PutVarint(f.level), PutVarint(f.number);
    Associate(x, y + z, PutParts(b));
    Associate(y, z, PutParts(b));
  }

  lemma PutPointer(level: nat, key: Bytes)
    ensures PutParts([Varint(5), Varint(level), Slice(key)]) == PutItem(Varints, CompactPointer(level, key))
  {
    PutThree(Varint(5), Varint(level), Slice(key));
  }

  lemma PutDeleted(level: nat, number: nat)
    ensures PutParts([Varint(6), Varint(level), Varint(number)]) == PutItem(Varints, DeletedFile(level, number))
  {
    PutThree(Varint(6), Varint(level), Varint(number));
  }

  lemma PutName(name: Bytes)
    ensures PutParts([Varint(1), Slice(name)]) == PutItem(Varints, Comparator(name))
  {
    PutTwo(Varint(1), Slice(name));
  }

  lemma PutNumber(item: Item, tag: nat, n: nat)
    requires TagOf(item) == tag && PutFields(Varints, item) == PutVarint(n)
    ensures PutParts([Varint(tag), Varint(n)]) == PutItem(Varints, item)
  {
    PutTwo(Varint(tag), Varint(n));
  }

  lemma ItemIsParts(item: Item)
    ensures PutParts(ItemParts(item)) == PutItem(Varints, item)
  {
    match item
    case Comparator(name) => PutName(name);
    case LogNumber(n) => PutNumber(item, 2, n);
    case NextFileNumber(n) => PutNumber(item, 3, n);
    case LastSequence(n) => PutNumber(item, 4, n);
    case CompactPointer(level, key) => PutPointer(level, key);
    case DeletedFile(level, number) => PutDeleted(level, number);
    case Added(f) => PutFile(f);
    case PrevLogNumber(n) => PutNumber(item, 9, n);
  }

  function AllParts(items: seq<Item>): seq<Part> {
    if items == [] then [] else ItemParts(items[0]) + AllParts(items[1..])
  }

  lemma NoneFixed(item: Item)
    ensures forall i :: 0 <= i < |ItemParts(item)| ==> !ItemParts(item)[i].Fixed?
  {
  }

  lemma {:induction false} ItemsAreParts(items: seq<Item>)
    ensures PutParts(AllParts(items)) == PutItems(Varints, items)
    ensures forall i :: 0 <= i < |AllParts(items)| ==> !AllParts(items)[i].Fixed?
    decreases |items|
  {
    if items != [] {
      ItemsAreParts(items[1..]);
      ItemIsParts(items[0]);
      NoneFixed(items[0]);
      PutConcat(ItemParts(items[0]), AllParts(items[1..]));
    }
  }

  lemma {:induction false} AllPartsConcat(a: seq<Item>, b: seq<Item>)
    ensures AllParts(a + b) == AllParts(a) + AllParts(b)
    decreases |a|
  {
    if a == [] {
      assert a + b == b;
    } else {
      AllPartsConcat(a[1..], b);
      FirstOfConcat(a, b);
      JoinParts(ItemParts(a[0]), AllParts(a[1..]), AllParts(b));
    }
  }

  lemma FirstOfConcat(a: seq<Item>, b: seq<Item>)
    requires a != []
    ensures a + b != [] && (a + b)[0] == a[0] && (a + b)[1..] == a[1..] + b
  {
  }

  lemma JoinParts(x: seq<Part>, y: seq<Part>, z: seq<Part>)
    ensures x + y + z == x + (y + z)
  {
  }

  function NumberParts(tag: nat, n: Option<nat>): seq<Part> {
    if n == None then [] else [Varint(tag), Varint(n.value)]
  }

  function PointerParts(ps: seq<(nat, Bytes)>): seq<Part> {
    if ps == [] then [] else [Varint(5), Varint(ps[0].0), Slice(ps[0].1)] + PointerParts(ps[1..])
  }

  function DeletedParts(ds: seq<(nat, nat)>): seq<Part> {
    if ds == [] then [] else [Varint(6), Varint(ds[0].0), Varint(ds[0].1)] + DeletedParts(ds[1..])
  }

  function FileParts(fs: seq<NewFile>): seq<Part> {
    if fs == [] then []
    else
      var f := fs[0];
      [Varint(7), Varint(f.level), Varint(f.number), Varint(f.size), Slice(f.smallest), Slice(f.largest)] + FileParts(fs[1..])
  }

  /** A record: comparator, log numbers, next file, last sequence, pointers, deleted files, new files. */
  function EditParts(e: Edit): seq<Part> {
    (if e.comparator == None then [] else [Varint(1), Slice(e.comparator.value)])
    + NumberParts(2, e.logNumber) + NumberParts(9, e.prevLogNumber) + NumberParts(3, e.nextFileNumber) + NumberParts(4, e.lastSequence)
    + (PointerParts(e.compactPointers) + (DeletedParts(e.deletedFiles) + FileParts(e.newFiles)))
  }

  lemma {:induction false} PointersAreParts(ps: seq<(nat, Bytes)>)
    ensures AllParts(Pointers(ps)) == PointerParts(ps)
    decreases |ps|
  {
    if ps != [] {
      PointersAreParts(ps[1..]);
      assert Pointers(ps)[1..] == Pointers(ps[1..]);
    }
  }

  lemma {:induction false} DeletionsAreParts(ds: seq<(nat, nat)>)
    ensures AllParts(Deletions(ds)) == DeletedParts(ds)
    decreases |ds|
  {
    if ds != [] {
      DeletionsAreParts(ds[1..]);
      assert Deletions(ds)[1..] == Deletions(ds[1..]);
    }
  }

  lemma {:induction false} AdditionsAreParts(fs: seq<NewFile>)
    ensures AllParts(Additions(fs)) == FileParts(fs)
    decreases |fs|
  {
    if fs != [] {
      AdditionsAreParts(fs[1..]);
      assert Additions(fs)[1..] == Additions(fs[1..]);
    }
  }

  lemma OneItem(item: Item)
    ensures AllParts([item]) == ItemParts(item) && AllParts([]) == []
  {
    assert [item][1..] == [];
    assert ItemParts(item) + [] == ItemParts(item);
  }

  lemma ScalarsAreParts(e: Edit)
    ensures AllParts(Scalars(e)) == (if e.comparator == None then [] else [Varint(1), Slice(e.comparator.value)])
      + NumberParts(2, e.logNumber) + NumberParts(9, e.prevLogNumber) + NumberParts(3, e.nextFileNumber) + NumberParts(4, e.lastSequence)
  {
    var a := if e.comparator == None then [] else [Comparator(e.comparator.value)];
    var b, c := OptionItem(e.logNumber, (n: nat) => LogNumber(n)), OptionItem(e.prevLogNumber, (n: nat) => PrevLogNumber(n));
    var d, f := OptionItem(e.nextFileNumber, (n: nat) => NextFileNumber(n)), OptionItem(e.lastSequence, (n: nat) => LastSequence(n));
    if e.comparator.Some? { OneItem(Comparator(e.comparator.value)); }
    if e.logNumber.Some? { OneItem(LogNumber(e.logNumber.value)); }
    if e.prevLogNumber.Some? { OneItem(PrevLogNumber(e.prevLogNumber.value)); }
    if e.nextFileNumber.Some? { OneItem(NextFileNumber(e.nextFileNumber.value)); }
    if e.lastSequence.Some? { OneItem(LastSequence(e.lastSequence.value)); }
    AllPartsConcat(a + b + c + d, f);
    AllPartsConcat(a + b + c, d);
    AllPartsConcat(a + b, c);
    AllPartsConcat(a, b);
  }

  /** The bytes that EncodeTo writes are these and no others. */
  lemma RecordLayout(e: Edit, b: Bytes)
    ensures b == EncodeTo(Varints, e) <==> Laid(b, EditParts(e))
  {
    var p, d, a := Pointers(e.compactPointers), Deletions(e.deletedFiles), Additions(e.newFiles);
    ScalarsAreParts(e);
    PointersAreParts(e.compactPointers);
    DeletionsAreParts(e.deletedFiles);
    AdditionsAreParts(e.newFiles);
    AllPartsConcat(d, a);
    AllPartsConcat(p, d + a);
    AllPartsConcat(Scalars(e), p + (d + a));
    ItemsAreParts(ItemsOf(e));
    LaidIff(b, EditParts(e));
  }
}
