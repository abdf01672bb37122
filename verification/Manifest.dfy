/**
 The manifest as a file (db/version_set.cc: LogAndApply, WriteSnapshot, Recover): edits
 encoded as records of a log, read back, decoded each into a fresh edit and applied in
 one builder.
 */
module Manifest {
  import opened Options
  import opened Coding
  import opened Version
  import opened VersionBuilder
  import opened LogFormat
  import Install
  import LogRoundTrip
  import Records = VersionEdit

  /** The table that a manifest entry stands for. */
  type Opener = Records.NewFile -> File

  /** What an edit does to the files of levels. */
  function FileEdit(open: Opener, e: Records.Edit): Edit {
    Edit(e.deletedFiles, seq(|e.newFiles|, i requires 0 <= i < |e.newFiles| => (e.newFiles[i].level, open(e.newFiles[i]))))
  }

  function FileEdits(open: Opener, edits: seq<Records.Edit>): seq<Edit> {
    seq(|edits|, i requires 0 <= i < |edits| => FileEdit(open, edits[i]))
  }

  function Encoded(edits: seq<Records.Edit>): seq<Bytes> {
    seq(|edits|, i requires 0 <= i < |edits| => Records.EncodeTo(Records.Varints, edits[i]))
  }

  ghost predicate AllFit(edits: seq<Records.Edit>) {
    forall i :: 0 <= i < |edits| ==> Records.Fits(edits[i])
  }

  /** No file number enters a level twice. */
  ghost predicate NumbersAreFresh(open: Opener, edits: seq<Records.Edit>) {
    forall l :: 0 <= l < NUM_LEVELS ==> NeverTwice({}, FileEdits(open, edits), l)
  }

  /** The numbers that a record sets. */
  datatype Numbers = Numbers(nextFile: Option<nat>, logNumber: Option<nat>, lastSequence: Option<nat>) {
    function Then(e: Records.Edit): Numbers {
      Numbers(if e.nextFileNumber.Some? then e.nextFileNumber else nextFile,
              if e.logNumber.Some? then e.logNumber else logNumber,
              if e.lastSequence.Some? then e.lastSequence else lastSequence)
    }

    predicate Complete() { nextFile.Some? && logNumber.Some? && lastSequence.Some? }
  }

  function NumberFields(edits: seq<Records.Edit>): seq<Numbers> {
    seq(|edits|, i requires 0 <= i < |edits| => Numbers(edits[i].nextFileNumber, edits[i].logNumber, edits[i].lastSequence))
  }

  function NextFiles(ns: seq<Numbers>): seq<Option<nat>> { seq(|ns|, i requires 0 <= i < |ns| => ns[i].nextFile) }

  function LogNumbers(ns: seq<Numbers>): seq<Option<nat>> { seq(|ns|, i requires 0 <= i < |ns| => ns[i].logNumber) }

  function LastSequences(ns: seq<Numbers>): seq<Option<nat>> { seq(|ns|, i requires 0 <= i < |ns| => ns[i].lastSequence) }

  /** Some record sets this number, and no later one sets another. */
  ghost predicate LastSet(values: seq<Option<nat>>, v: nat) {
    exists i :: 0 <= i < |values| && values[i] == Some(v) && forall j :: i < j < |values| ==> values[j] == None
  }

  ghost predicate NeverSet(values: seq<Option<nat>>) {
    forall i :: 0 <= i < |values| ==> values[i] == None
  }

  ghost predicate IsLatest(values: seq<Option<nat>>, x: Option<nat>) {
    match x
    case None => NeverSet(values)
    case Some(v) => LastSet(values, v)
  }

  /** A later number overrides an earlier one. */
  lemma LatestStep(values: seq<Option<nat>>, x: Option<nat>, y: Option<nat>)
    requires IsLatest(values, x)
    ensures IsLatest(values + [y], if y.Some? then y else x)
  {
    var longer := values + [y];
    if y.Some? {
      assert longer[|values|] == y;
    } else if x.Some? {
      var i :| 0 <= i < |values| && values[i] == x && forall j :: i < j < |values| ==> values[j] == None;
      assert longer[i] == x;
    }
  }

  lemma LastSetUnique(values: seq<Option<nat>>, v: nat, w: nat)
    requires LastSet(values, v) && LastSet(values, w)
    ensures v == w
  {
    var i :| 0 <= i < |values| && values[i] == Some(v) && forall j :: i < j < |values| ==> values[j] == None;
    var k :| 0 <= k < |values| && values[k] == Some(w) && forall j :: k < j < |values| ==> values[j] == None;
    assert i == k;
  }

  /** What has been found so far is what the last of the records so far say. */
  ghost predicate AllLatest(ns: seq<Numbers>, found: Numbers) {
    IsLatest(NextFiles(ns), found.nextFile) && IsLatest(LogNumbers(ns), found.logNumber) && IsLatest(LastSequences(ns), found.lastSequence)
  }

  lemma AllLatestStep(edits: seq<Records.Edit>, e: Records.Edit, found: Numbers)
    requires AllLatest(NumberFields(edits), found)
    ensures AllLatest(NumberFields(edits + [e]), found.Then(e))
  {
    var ns, longer := NumberFields(edits), NumberFields(edits + [e]);
    LatestStep(NextFiles(ns), found.nextFile, e.nextFileNumber);
    LatestStep(LogNumbers(ns), found.logNumber, e.logNumber);
    LatestStep(LastSequences(ns), found.lastSequence, e.lastSequence);
    assert NextFiles(longer) == NextFiles(ns) + [e.nextFileNumber];
    assert LogNumbers(longer) == LogNumbers(ns) + [e.logNumber];
    assert LastSequences(longer) == LastSequences(ns) + [e.lastSequence];
  }

  ghost predicate SameComparator(edits: seq<Records.Edit>, name: Bytes) {
    forall i :: 0 <= i < |edits| && edits[i].comparator.Some? ==> edits[i].comparator.value == name
  }

  /** `some` are the records that are whole in the first `size` bytes of a log of `records`. */
  ghost predicate WholeRecords(crc: Checksum, records: seq<Bytes>, size: nat, some: seq<Bytes>) {
    && some <= records && |LogFile(crc, some)| <= size
    && (|some| < |records| ==> size < |LogFile(crc, records[..|some| + 1])|)
  }

  /** `nextFile` is the manifest's own number; numbers are given out from the one after it. */
  datatype Recovered = Recovered(levels: Levels, nextFile: nat, logNumber: nat, lastSequence: nat)

  lemma EncodedPrefix(edits: seq<Records.Edit>, k: nat)
    requires k <= |edits|
    ensures Encoded(edits)[..k] == Encoded(edits[..k])
  {
  }

  lemma EditIsValid(open: Opener, e: Records.Edit)
    requires Records.Fits(e)
    ensures FileEdit(open, e).Valid()
  {
    var scalars, pointers := |Records.Scalars(e)|, |e.compactPointers|;
    forall i | 0 <= i < |e.deletedFiles| ensures e.deletedFiles[i].0 < NUM_LEVELS {
      assert Records.ItemsOf(e)[scalars + pointers + i] == Records.DeletedFile(e.deletedFiles[i].0, e.deletedFiles[i].1);
    }
    forall i | 0 <= i < |e.newFiles| ensures e.newFiles[i].level < NUM_LEVELS {
      assert Records.ItemsOf(e)[scalars + pointers + |e.deletedFiles| + i] == Records.Added(e.newFiles[i]);
    }
  }

  /** A manifest that was cut still adds no number twice. */
  lemma PrefixIsFresh(open: Opener, edits: seq<Records.Edit>, k: nat)
    requires k <= |edits| && AllFit(edits) && NumbersAreFresh(open, edits)
    ensures AllFit(edits[..k]) && NumbersAreFresh(open, edits[..k])
  {
    var all, some := FileEdits(open, edits), FileEdits(open, edits[..k]);
    forall l, i | 0 <= l < NUM_LEVELS && 0 <= i < |some| ensures FreshAdds({} + FoldAdded(some[..i], l), some[i], l) {
      assert NeverTwice({}, all, l) && some[..i] == all[..i] && some[i] == all[i];
    }
  }

  /** What the first `i` edits add up to. */
  ghost predicate Scanned(open: Opener, name: Bytes, edits: seq<Records.Edit>, done: seq<Edit>, numbers: Numbers) {
    && done == FileEdits(open, edits) && SameComparator(edits, name) && AllLatest(NumberFields(edits), numbers)
    && (forall j :: 0 <= j < |done| ==> done[j].Valid())
  }

  lemma ScannedStep(open: Opener, name: Bytes, edits: seq<Records.Edit>, i: nat, done: seq<Edit>, numbers: Numbers)
    requires i < |edits| && Records.Fits(edits[i]) && Scanned(open, name, edits[..i], done, numbers)
    requires edits[i].comparator.Some? ==> edits[i].comparator.value == name
    ensures Scanned(open, name, edits[..i + 1], done + [FileEdit(open, edits[i])], numbers.Then(edits[i]))
  {
    EditIsValid(open, edits[i]);
    assert edits[..i + 1] == edits[..i] + [edits[i]];
    AllLatestStep(edits[..i], edits[i], numbers);
    assert FileEdits(open, edits[..i] + [edits[i]]) == FileEdits(open, edits[..i]) + [FileEdit(open, edits[i])];
  }

  /** What recovering from these edits gives, and when it fails. */
  ghost predicate IsRecovered(r: Option<Recovered>, open: Opener, name: Bytes, edits: seq<Records.Edit>) {
    var ns := NumberFields(edits);
    && (r.Some? <==> SameComparator(edits, name) && !NeverSet(NextFiles(ns)) && !NeverSet(LogNumbers(ns)) && !NeverSet(LastSequences(ns)))
    && (r.Some? ==>
          && Holds(r.value.levels, EMPTY, FileEdits(open, edits))
          && LastSet(NextFiles(ns), r.value.nextFile) && LastSet(LogNumbers(ns), r.value.logNumber) && LastSet(LastSequences(ns), r.value.lastSequence))
  }

  /** A number that some record sets was found. */
  lemma FoundIfSet(values: seq<Option<nat>>, x: Option<nat>)
    requires IsLatest(values, x)
    ensures x.Some? <==> !NeverSet(values)
  {
  }

  /**
   VersionSet::Recover on any cut of a manifest: exactly the whole records count. It
   fails if and only if one of them names another comparator or one of the three
   numbers is in none of them. `k` is the number of records read.
   */
  method Recover(crc: Checksum, name: Bytes, file: Bytes, open: Opener, ghost edits: seq<Records.Edit>) returns (r: Option<Recovered>, k: nat)
    requires Extends(crc) && file <= LogFile(crc, Encoded(edits)) && AllFit(edits) && NumbersAreFresh(open, edits)
    ensures k <= |edits| && WholeRecords(crc, Encoded(edits), |file|, Encoded(edits[..k])) && IsRecovered(r, open, name, edits[..k])
  {
    var records := ReadRecords(crc, file, Encoded(edits));
    k := |records|;
    RecordsAreEdits(edits, records);
    PrefixIsFresh(open, edits, k);
    r := Replay(name, records, open, edits[..k]);
  }

  method ReadRecords(crc: Checksum, file: Bytes, ghost written: seq<Bytes>) returns (records: seq<Bytes>)
    requires Extends(crc) && file <= LogFile(crc, written)
    ensures WholeRecords(crc, written, |file|, records)
  {
    var drops;
    records, drops := LogRoundTrip.ReadLog(crc, true, file, written);
  }

  lemma RecordsAreEdits(edits: seq<Records.Edit>, records: seq<Bytes>)
    requires records <= Encoded(edits)
    ensures |records| <= |edits| && records == Encoded(edits[..|records|])
  {
    EncodedPrefix(edits, |records|);
  }

  /** The loop of VersionSet::Recover; a record that names another comparator ends it. */
  method Scan(name: Bytes, records: seq<Bytes>, open: Opener, ghost edits: seq<Records.Edit>) returns (ok: bool, done: seq<Edit>, numbers: Numbers)
    requires records == Encoded(edits) && AllFit(edits)
    ensures ok == SameComparator(edits, name) && (ok ==> Scanned(open, name, edits, done, numbers))
  {
    done, numbers := [], Numbers(None, None, None);
    NothingScanned(open, name, edits);
    for i := 0 to |records|
      invariant Scanned(open, name, edits[..i], done, numbers)
    {
      ok, done, numbers := ScanRecord(name, records, open, edits, i, done, numbers);
      if !ok {
        return;
      }
    }
    ok := true;
    ScannedAll(open, name, edits, done, numbers);
  }

  lemma ScannedAll(open: Opener, name: Bytes, edits: seq<Records.Edit>, done: seq<Edit>, numbers: Numbers)
    requires Scanned(open, name, edits[..|edits|], done, numbers)
    ensures Scanned(open, name, edits, done, numbers)
  {
    assert edits[..|edits|] == edits;
  }

  lemma NothingScanned(open: Opener, name: Bytes, edits: seq<Records.Edit>)
    ensures Scanned(open, name, edits[..0], [], Numbers(None, None, None))
  {
  }

  /** One turn of the loop. */
  method ScanRecord(name: Bytes, records: seq<Bytes>, open: Opener, ghost edits: seq<Records.Edit>, i: nat, done: seq<Edit>, numbers: Numbers)
    returns (ok: bool, done': seq<Edit>, numbers': Numbers)
    requires i < |records| && records == Encoded(edits) && AllFit(edits)
    requires Scanned(open, name, edits[..i], done, numbers)
    ensures ok ==> Scanned(open, name, edits[..i + 1], done', numbers')
    ensures !ok ==> !SameComparator(edits, name)
  {
    var edit := Decode(records[i], edits[i]);
    if edit.comparator.Some? && edit.comparator.value != name {
      return false, done, numbers;
    }
    ScannedStep(open, name, edits, i, done, numbers);
    return true, done + [FileEdit(open, edit)], numbers.Then(edit);
  }

  method Replay(name: Bytes, records: seq<Bytes>, open: Opener, ghost edits: seq<Records.Edit>) returns (r: Option<Recovered>)
    requires records == Encoded(edits) && AllFit(edits) && NumbersAreFresh(open, edits)
    ensures IsRecovered(r, open, name, edits)
  {
    var ok, done, numbers := Scan(name, records, open, edits);
    ghost var ns := NumberFields(edits);
    if ok {
      FoundIfSet(NextFiles(ns), numbers.nextFile);
      FoundIfSet(LogNumbers(ns), numbers.logNumber);
      FoundIfSet(LastSequences(ns), numbers.lastSequence);
    }
    if !ok || !numbers.Complete() {
      return None;
    }
    var levels := VersionBuilder.Recover(done);
    r := Some(Recovered(levels, numbers.nextFile.value, numbers.logNumber.value, numbers.lastSequence.value));
  }

  /** A record is decoded into a fresh edit. */
  method Decode(record: Bytes, ghost written: Records.Edit) returns (edit: Records.Edit)
    requires Records.Fits(written) && record == Records.EncodeTo(Records.Varints, written)
    ensures edit == written
  {
    Records.ManifestRecordRoundTrip(written, Records.Empty);
    var decoded := Records.DecodeRecord(Records.Empty, record);
    assert Records.Empty.compactPointers + written.compactPointers == written.compactPointers;
    edit := decoded.edit;
  }

  /** A new manifest: the snapshot record, and then one record for each edit that is installed. */
  method Write(crc: Checksum, snapshot: Records.Edit, edits: seq<Records.Edit>) returns (file: Bytes)
    ensures file == LogFile(crc, Encoded([snapshot] + edits))
  {
    LogRoundTrip.EmptyLog(crc);
    var records := Encoded([snapshot] + edits);
    file := LogRoundTrip.WriteLog(crc, [], records, []);
    assert [] + records == records;
  }

  /** A whole manifest: all edits count. */
  method RecoverWhole(crc: Checksum, name: Bytes, file: Bytes, open: Opener, ghost edits: seq<Records.Edit>) returns (r: Option<Recovered>)
    requires Extends(crc) && file == LogFile(crc, Encoded(edits)) && AllFit(edits) && NumbersAreFresh(open, edits)
    ensures IsRecovered(r, open, name, edits)
  {
    var k;
    r, k := Recover(crc, name, file, open, edits);
    AllEdits(crc, edits, |file|, k);
  }

  lemma AllEdits(crc: Checksum, edits: seq<Records.Edit>, size: nat, k: nat)
    requires k <= |edits| && size == |LogFile(crc, Encoded(edits))|
    requires WholeRecords(crc, Encoded(edits), size, Encoded(edits[..k]))
    ensures edits[..k] == edits
  {
    WholeIsAll(crc, Encoded(edits), Encoded(edits[..k]));
  }

  /** The edits installed one at a time, as they were when the manifest was written. */
  method InstallEdits(open: Opener, snapshot: Records.Edit, edits: seq<Records.Edit>, start: Levels) returns (installed: Levels)
    requires AllFit(edits) && NumbersAreFresh(open, [snapshot] + edits)
    requires |start| == NUM_LEVELS && IsSnapshot(FileEdit(open, snapshot), start) && forall l :: 0 <= l < NUM_LEVELS ==> Install.SortedFiles(start[l])
    ensures Holds(installed, start, FileEdits(open, edits))
  {
    SnapshotFirst(open, snapshot, edits);
    forall l | 0 <= l < NUM_LEVELS ensures Distinct(Files(start[l])) && NeverTwice(Files(start[l]), FileEdits(open, edits), l) {
      FreshAfterSnapshot(FileEdit(open, snapshot), start, FileEdits(open, edits), l);
    }
    forall i | 0 <= i < |edits| ensures FileEdits(open, edits)[i].Valid() { EditIsValid(open, edits[i]); }
    installed := InstallAll(start, FileEdits(open, edits));
  }

  lemma SnapshotFirst(open: Opener, snapshot: Records.Edit, edits: seq<Records.Edit>)
    ensures FileEdits(open, [snapshot] + edits) == [FileEdit(open, snapshot)] + FileEdits(open, edits)
  {
  }

  /**
   The edits are installed one at a time while the manifest is written; recovering from
   the file gives, level by level, the same list of files.
   */
  method WriteAndRecover(crc: Checksum, name: Bytes, open: Opener, snapshot: Records.Edit, edits: seq<Records.Edit>, start: Levels)
    returns (r: Option<Recovered>, installed: Levels)
    requires Extends(crc) && AllFit([snapshot] + edits) && NumbersAreFresh(open, [snapshot] + edits)
    requires |start| == NUM_LEVELS && IsSnapshot(FileEdit(open, snapshot), start) && forall l :: 0 <= l < NUM_LEVELS ==> Install.SortedFiles(start[l])
    ensures Holds(installed, start, FileEdits(open, edits))
    ensures IsRecovered(r, open, name, [snapshot] + edits)
    ensures r.Some? ==> r.value.levels == installed
  {
    TailFits(snapshot, edits);
    installed := InstallEdits(open, snapshot, edits, start);
    var file := Write(crc, snapshot, edits);
    r := RecoverWhole(crc, name, file, open, [snapshot] + edits);
    if r.Some? { SameAsInstalled(r.value.levels, installed, start, open, snapshot, edits); }
  }

  lemma TailFits(snapshot: Records.Edit, edits: seq<Records.Edit>)
    requires AllFit([snapshot] + edits)
    ensures AllFit(edits)
  {
    forall i | 0 <= i < |edits| ensures Records.Fits(edits[i]) { assert ([snapshot] + edits)[i + 1] == edits[i]; }
  }

  lemma SameAsInstalled(recovered: Levels, installed: Levels, start: Levels, open: Opener, snapshot: Records.Edit, edits: seq<Records.Edit>)
    requires |start| == NUM_LEVELS && IsSnapshot(FileEdit(open, snapshot), start)
    requires Holds(recovered, EMPTY, FileEdits(open, [snapshot] + edits)) && Holds(installed, start, FileEdits(open, edits))
    ensures recovered == installed
  {
    SnapshotFirst(open, snapshot, edits);
    RecoveredIsInstalled(recovered, installed, start, FileEdit(open, snapshot), FileEdits(open, edits));
  }

  /** In a whole manifest all records are whole. */
  lemma WholeIsAll(crc: Checksum, records: seq<Bytes>, some: seq<Bytes>)
    requires WholeRecords(crc, records, |LogFile(crc, records)|, some)
    ensures |some| == |records|
  {
    if |some| < |records| { LogFileGrows(crc, records, |some| + 1); }
  }
}
