/**
 Recovery (db/db_impl.cc: Recover, RecoverLogFile, DB::Open): the logs that the manifest
 does not cover are replayed into memtables and written as level-0 tables, in order.
 */
module RecoverLogs {
  import opened Options
  import opened Format
  import opened Version
  import opened Histories
  import opened Install
  import opened Engine
  import opened EngineSteps
  import opened EngineCrash
  import opened EngineRuns
  import opened EngineManifest
  import VersionBuilder
  import Coding
  import LogFormat
  import Manifest
  import Records = VersionEdit

  // ----- inserting into a memtable -----

  ghost predicate NewTo(mem: seq<Entry>, e: Entry) {
    forall i :: 0 <= i < |mem| ==> mem[i].key.sequence != e.key.sequence
  }

  /** MemTable::Add: the entry goes to its place in the order of internal keys. */
  function InsertEntry(mem: seq<Entry>, e: Entry): seq<Entry> {
    if mem == [] || Less(e.key, mem[0].key) then [e] + mem else [mem[0]] + InsertEntry(mem[1..], e)
  }

  lemma SortedCons(x: Entry, rest: seq<Entry>)
    requires Sorted(rest) && forall i :: 0 <= i < |rest| ==> Less(x.key, rest[i].key)
    ensures Sorted([x] + rest) && RunEntries([x] + rest) == {x} + RunEntries(rest)
  {
  }

  lemma SortedTail(mem: seq<Entry>)
    requires Sorted(mem) && mem != []
    ensures Sorted(mem[1..]) && RunEntries(mem) == {mem[0]} + RunEntries(mem[1..])
    ensures forall i :: 0 <= i < |mem[1..]| ==> Less(mem[0].key, mem[1..][i].key)
  {
    assert mem == [mem[0]] + mem[1..];
  }

  lemma FirstOfAll(e: Entry, mem: seq<Entry>, i: nat)
    requires Sorted(mem) && i < |mem| && Less(e.key, mem[0].key)
    ensures Less(e.key, mem[i].key)
  {
    assert i > 0 ==> Less(mem[0].key, mem[i].key);
  }

  lemma {:induction false} InsertEntryKeeps(mem: seq<Entry>, e: Entry)
    requires Sorted(mem) && NewTo(mem, e)
    ensures Sorted(InsertEntry(mem, e)) && RunEntries(InsertEntry(mem, e)) == RunEntries(mem) + {e}
    decreases |mem|
  {
    if mem == [] {
    } else if Less(e.key, mem[0].key) {
      forall i | 0 <= i < |mem| ensures Less(e.key, mem[i].key) { FirstOfAll(e, mem, i); }
      SortedCons(e, mem);
    } else {
      var rest := InsertEntry(mem[1..], e);
      SortedTail(mem);
      InsertEntryKeeps(mem[1..], e);
      assert Less(mem[0].key, e.key);
      forall i | 0 <= i < |rest| ensures Less(mem[0].key, rest[i].key) {
        assert rest[i] in RunEntries(mem[1..]) + {e};
        if rest[i] != e { var j :| 0 <= j < |mem[1..]| && mem[1..][j] == rest[i]; }
      }
      SortedCons(mem[0], rest);
    }
  }

  /** WriteBatchInternal::InsertInto: the operations go in one after the other. */
  function InsertBatch(mem: seq<Entry>, b: Batch): seq<Entry> {
    if b == [] then mem else InsertEntry(InsertBatch(mem, b[..|b| - 1]), b[|b| - 1])
  }

  lemma BatchFront(b: Batch)
    requires b != [] && BatchAscending(b)
    ensures BatchAscending(b[..|b| - 1]) && BatchEntries(b) == BatchEntries(b[..|b| - 1]) + {b[|b| - 1]}
    ensures forall x :: x in BatchEntries(b[..|b| - 1]) ==> x.key.sequence < b[|b| - 1].key.sequence
  {
    assert b == b[..|b| - 1] + [b[|b| - 1]];
  }

  lemma {:induction false} InsertBatchKeeps(mem: seq<Entry>, b: Batch)
    requires Sorted(mem) && BatchAscending(b) && WrittenAfter(BatchEntries(b), RunEntries(mem))
    ensures Sorted(InsertBatch(mem, b)) && RunEntries(InsertBatch(mem, b)) == RunEntries(mem) + BatchEntries(b)
    decreases |b|
  {
    if b != [] {
      var front, e := b[..|b| - 1], b[|b| - 1];
      BatchFront(b);
      assert e in BatchEntries(b);
      InsertBatchKeeps(mem, front);
      var r := InsertBatch(mem, front);
      forall i | 0 <= i < |r| ensures r[i].key.sequence != e.key.sequence {
        assert r[i] in RunEntries(r);
      }
      InsertEntryKeeps(r, e);
    }
  }

  // ----- the tables and the memtable so far -----

  ghost predicate NumberedIn(made: seq<File>, first: nat, next: nat) {
    && first < next && (forall i :: 0 <= i < |made| ==> first < made[i].number < next)
  }

  /** Tables, and the memtable after them, hold exactly the batches `done`. */
  ghost predicate SoFar(made: seq<File>, mem: seq<Entry>, done: seq<Batch>) {
    && ValidFiles(made) && MadeInOrder(made) && Sorted(mem)
    && FileEntries(made) + RunEntries(mem) == EntriesOf(done)
    && WrittenAfter(RunEntries(mem), FileEntries(made))
  }

  lemma BatchStep(made: seq<File>, mem: seq<Entry>, done: seq<Batch>, b: Batch)
    requires SoFar(made, mem, done) && Ascending(done + [b])
    ensures SoFar(made, InsertBatch(mem, b), done + [b])
  {
    AscendingSplit(done, [b]);
    EntriesOfConcat(done, [b]);
    EntriesOfSingle(b);
    assert [b][0] == b;
    InsertBatchKeeps(mem, b);
  }

  function TableOf(number: nat, size: nat, mem: seq<Entry>): File
    requires mem != []
  {
    File(number, size, mem[0].key, mem[|mem| - 1].key, mem)
  }

  lemma TableStep(made: seq<File>, mem: seq<Entry>, done: seq<Batch>, first: nat, next: nat, size: nat)
    requires SoFar(made, mem, done) && mem != [] && NumberedIn(made, first, next)
    ensures SoFar(made + [TableOf(next, size, mem)], [], done) && NumberedIn(made + [TableOf(next, size, mem)], first, next + 1)
  {
    var f := TableOf(next, size, mem);
    var longer := made + [f];
    assert FileEntries(longer) == FileEntries(made) + RunEntries(mem) by {
      assert f in longer && (forall g :: g in longer <==> g in made || g == f);
    }
    forall i, j | 0 <= i < j < |longer|
      ensures longer[i].number < longer[j].number && WrittenAfter(RunEntries(longer[j].entries), RunEntries(longer[i].entries))
    {
      if j == |made| {
        assert made[i] in made;
        assert RunEntries(made[i].entries) <= FileEntries(made);
      }
    }
    assert RunEntries([]) == {};
  }

  lemma LargestStep(done: seq<Batch>, b: Batch, least: nat, largest: nat, largest': nat)
    requires LargestSequence(done, least, largest) && BatchAscending(b)
    requires largest' == if b != [] && b[|b| - 1].key.sequence > largest then b[|b| - 1].key.sequence else largest
    ensures LargestSequence(done + [b], least, largest')
  {
    EntriesOfConcat(done, [b]);
    EntriesOfSingle(b);
    if b != [] { assert b[|b| - 1] in BatchEntries(b); }
    if e :| e in EntriesOf(done) && e.key.sequence == largest { assert e in EntriesOf(done + [b]); }
  }

  /** How far the recovery of the logs is. */
  datatype Progress = Progress(made: seq<File>, next: nat, largest: nat)

  ghost predicate Recovering(p: Progress, mem: seq<Entry>, done: seq<Batch>, disk: Disk) {
    && SoFar(p.made, mem, done) && NumberedIn(p.made, disk.nextFile, p.next) && LargestSequence(done, disk.lastSequence, p.largest)
  }

  /** WriteLevel0Table without a base version: a memtable without entries makes no table. */
  method WriteTable(p: Progress, mem: seq<Entry>, size: nat, ghost done: seq<Batch>, ghost disk: Disk) returns (p': Progress)
    requires Recovering(p, mem, done, disk)
    ensures Recovering(p', [], done, disk) && p'.next >= p.next
  {
    if mem == [] {
      return p.(next := p.next + 1);
    }
    TableStep(p.made, mem, done, disk.nextFile, p.next, size);
    p' := p.(made := p.made + [TableOf(p.next, size, mem)], next := p.next + 1);
  }

  method TakeBatch(p: Progress, mem: seq<Entry>, b: Batch, ghost done: seq<Batch>, ghost disk: Disk) returns (p': Progress, mem': seq<Entry>)
    requires Recovering(p, mem, done, disk) && Ascending(done + [b])
    ensures Recovering(p', mem', done + [b], disk) && p'.next == p.next
  {
    BatchStep(p.made, mem, done, b);
    assert (done + [b])[|done|] == b;
    mem' := InsertBatch(mem, b);
    p' := if b != [] && b[|b| - 1].key.sequence > p.largest then p.(largest := b[|b| - 1].key.sequence) else p;
    LargestStep(done, b, disk.lastSequence, p.largest, p'.largest);
  }

  lemma NextRecord(before: seq<Batch>, batches: seq<Batch>, i: nat)
    requires i < |batches| && Ascending(before + batches)
    ensures before + batches[..i] + [batches[i]] == before + batches[..i + 1]
    ensures Ascending(before + batches[..i + 1])
  {
    assert before + batches == before + batches[..i + 1] + batches[i + 1..];
    AscendingPrefix(before + batches[..i + 1], before + batches);
  }

  /**
   RecoverLogFile: each record goes into the memtable, which is written out when `full`
   says so and at the end; a memtable is made only when there is a record for it.
   */
  method RecoverLogFile(p: Progress, log: Log, full: seq<Entry> -> bool, size: nat, ghost before: seq<Batch>, ghost disk: Disk) returns (p': Progress)
    requires Recovering(p, [], before, disk) && Ascending(before + log.batches)
    ensures Recovering(p', [], before + log.batches, disk)
    ensures p'.next >= p.next
  {
    p' := p;
    var mem, made := [], false;
    assert before + log.batches[..0] == before;
    for i := 0 to |log.batches|
      invariant Recovering(p', mem, before + log.batches[..i], disk) && (mem != [] ==> made) && p'.next >= p.next
    {
      NextRecord(before, log.batches, i);
      p', mem := TakeBatch(p', mem, log.batches[i], before + log.batches[..i], disk);
      made := true;
      if full(mem) {
        p' := WriteTable(p', mem, size, before + log.batches[..i + 1], disk);
        mem, made := [], false;
      }
    }
    assert log.batches[..|log.batches|] == log.batches;
    if made {
      p' := WriteTable(p', mem, size, before + log.batches, disk);
    }
  }

  lemma {:induction false} ReplayPrefix(logs: seq<Log>, i: nat, min: nat)
    requires i <= |logs|
    ensures Replay(logs[..i], min) <= Replay(logs, min)
    decreases |logs|
  {
    if i < |logs| {
      var n := |logs| - 1;
      ReplayPrefix(logs[..n], i, min);
      assert logs[..n][..i] == logs[..i];
    } else {
      assert logs[..i] == logs;
    }
  }

  lemma ReplayNext(logs: seq<Log>, i: nat, min: nat)
    requires i < |logs| && Ascending(Replay(logs, min))
    ensures Replay(logs[..i + 1], min) == Replay(logs[..i], min) + if logs[i].number >= min then logs[i].batches else []
    ensures Ascending(Replay(logs[..i + 1], min))
  {
    assert logs[..i + 1][..i] == logs[..i];
    ReplayPrefix(logs, i + 1, min);
    AscendingPrefix(Replay(logs[..i + 1], min), Replay(logs, min));
  }

  /** VersionSet::MarkFileNumberUsed. */
  function MarkFileNumberUsed(p: Progress, number: nat): Progress {
    if p.next <= number then p.(next := number + 1) else p
  }

  lemma BelowNext(logs: seq<Log>, i: nat, next: nat, next': nat)
    requires i < |logs| && LogsBelow(logs[..i], next) && next <= next' && logs[i].number < next'
    ensures LogsBelow(logs[..i + 1], next')
  {
    assert forall j :: 0 <= j < i ==> logs[..i][j] == logs[j];
  }

  /** The loop body of Recover: a log that the manifest covers is skipped. */
  method RecoverOne(p: Progress, disk: Disk, i: nat, full: seq<Entry> -> bool, size: nat) returns (p': Progress)
    requires i < |disk.logs| && Ascending(Replay(disk.logs, disk.logNumber))
    requires Recovering(p, [], Replay(disk.logs[..i], disk.logNumber), disk) && LogsBelow(disk.logs[..i], p.next) && disk.logNumber < p.next
    ensures Recovering(p', [], Replay(disk.logs[..i + 1], disk.logNumber), disk) && LogsBelow(disk.logs[..i + 1], p'.next) && disk.logNumber < p'.next
  {
    ReplayNext(disk.logs, i, disk.logNumber);
    p' := p;
    if disk.logs[i].number >= disk.logNumber {
      p' := RecoverLogFile(p, disk.logs[i], full, size, Replay(disk.logs[..i], disk.logNumber), disk);
      p' := MarkFileNumberUsed(p', disk.logs[i].number);
    }
    BelowNext(disk.logs, i, p.next, p'.next);
  }

  /**
   DBImpl::Recover, from what VersionSet::Recover left, and the new log of DB::Open:
   wherever memtables are written out, the tables are what the engine's recovery step takes.
   */
  method Recover(disk: Disk, full: seq<Entry> -> bool, size: nat) returns (r: Recovery)
    requires Ascending(Replay(disk.logs, disk.logNumber))
    ensures Recovers(disk, r)
  {
    var p := MarkFileNumberUsed(Progress([], disk.nextFile + 1, disk.lastSequence), disk.logNumber);
    NothingYet(p, disk);
    for i := 0 to |disk.logs|
      invariant Recovering(p, [], Replay(disk.logs[..i], disk.logNumber), disk) && LogsBelow(disk.logs[..i], p.next) && disk.logNumber < p.next
    {
      p := RecoverOne(p, disk, i, full, size);
    }
    assert disk.logs[..|disk.logs|] == disk.logs;
    r := Recovery(p.made, p.next, p.next + 1, p.largest);
  }

  /** The recovery of the logs looks at nothing of the disk but the numbers and the logs. */
  lemma RecoversAlike(d: Disk, e: Disk, r: Recovery)
    requires Recovers(d, r) && e.logNumber == d.logNumber && e.lastSequence == d.lastSequence && e.nextFile == d.nextFile && e.logs == d.logs
    ensures Recovers(e, r)
  {
  }

  /**
   Both halves of DBImpl::Recover: from the bytes of the manifest of any run and the
   records of its logs, the version on disk and what the engine's recovery step takes.
   */
  method RecoverAll(ghost trace: seq<System>, ghost i: nat, crc: LogFormat.Checksum, name: Coding.Bytes, file: Coding.Bytes,
                    open: Manifest.Opener, ghost records: seq<Records.Edit>, logs: seq<Log>, full: seq<Entry> -> bool, size: nat)
    returns (ok: bool, levels: Levels, r: Recovery)
    requires Run(trace) && i < |trace| && logs == trace[i].disk.logs
    requires Manifest.FileEdits(open, records) == ManifestOf(trace, i) && Manifest.NumberFields(records) == NumbersOf(trace, i)
    requires LogFormat.Extends(crc) && Manifest.AllFit(records) && file == LogFormat.LogFile(crc, Manifest.Encoded(records))
    ensures ok == Manifest.SameComparator(records, name)
    ensures ok ==> levels == trace[i].disk.levels && Recovers(trace[i].disk, r)
  {
    levels, r := [], Recovery([], 0, 0, 0);
    var m := RecoverFile(trace, i, crc, name, file, open, records);
    ok := m.Some?;
    if ok {
      ReplayAscends(trace, i);
      var disk := Disk(m.value.levels, m.value.logNumber, m.value.lastSequence, m.value.nextFile, map[], logs);
      levels := m.value.levels;
      r := Recover(disk, full, size);
      RecoversAlike(disk, trace[i].disk, r);
    }
  }

  lemma ReplayAscends(trace: seq<System>, i: nat)
    requires Run(trace) && i < |trace|
    ensures Ascending(Replay(trace[i].disk.logs, trace[i].disk.logNumber))
  {
    RunKeeps(trace, i);
    AscendingSplit(trace[i].flushed, Replay(trace[i].disk.logs, trace[i].disk.logNumber));
  }

  lemma NothingYet(p: Progress, disk: Disk)
    requires p.made == [] && p.largest == disk.lastSequence && disk.nextFile < p.next
    ensures Recovering(p, [], Replay(disk.logs[..0], disk.logNumber), disk)
  {
    assert EntriesOf([]) == {} && FileEntries([]) == {} && RunEntries([]) == {};
  }

  // ----- recovery is always possible -----

  /** Any batches can be replayed into one memtable. */
  lemma {:induction false} BatchesReplay(batches: seq<Batch>, least: nat) returns (mem: seq<Entry>, largest: nat)
    requires Ascending(batches)
    ensures SoFar([], mem, batches) && LargestSequence(batches, least, largest)
    decreases |batches|
  {
    if batches == [] {
      assert EntriesOf([]) == {} && FileEntries([]) == {} && RunEntries([]) == {};
      mem, largest := [], least;
    } else {
      var front, b := batches[..|batches| - 1], batches[|batches| - 1];
      assert batches == front + [b];
      AscendingSplit(front, [b]);
      mem, largest := BatchesReplay(front, least);
      BatchStep([], mem, front, b);
      mem := InsertBatch(mem, b);
      var larger := if b != [] && b[|b| - 1].key.sequence > largest then b[|b| - 1].key.sequence else largest;
      LargestStep(front, b, least, largest, larger);
      largest := larger;
    }
  }

  lemma {:induction false} NumberAboveLogs(logs: seq<Log>, least: nat) returns (n: nat)
    ensures LogsBelow(logs, n) && least < n
    decreases |logs|
  {
    if logs == [] {
      n := least + 1;
    } else {
      n := NumberAboveLogs(logs[..|logs| - 1], least);
      if n <= logs[|logs| - 1].number { n := logs[|logs| - 1].number + 1; }
      assert forall i :: 0 <= i < |logs| - 1 ==> logs[..|logs| - 1][i] == logs[i];
    }
  }

  lemma OneTable(mem: seq<Entry>, batches: seq<Batch>, first: nat) returns (made: seq<File>)
    requires SoFar([], mem, batches)
    ensures MadeFromLogs(made, batches) && forall i :: 0 <= i < |made| ==> made[i].number == first + 1
  {
    made := [];
    assert RunEntries([]) == {};
    if mem != [] {
      TableStep([], mem, batches, first, first + 1, 0);
      made := [TableOf(first + 1, 0, mem)];
      assert [] + made == made;
    }
  }

  lemma LogsCanBeReplayed(disk: Disk) returns (r: Recovery)
    requires Ascending(Replay(disk.logs, disk.logNumber))
    ensures Recovers(disk, r)
  {
    var batches := Replay(disk.logs, disk.logNumber);
    var mem, largest := BatchesReplay(batches, disk.lastSequence);
    var n := NumberAboveLogs(disk.logs, disk.nextFile + 1);
    var made := OneTable(mem, batches, disk.nextFile);
    r := Recovery(made, n, n + 1, largest);
  }

  ghost predicate NumbersDiffer(files: seq<File>) {
    forall f, g :: f in files && g in files && f.number == g.number ==> f == g
  }

  /** Where a file goes among ordered ones. */
  lemma {:induction false} PlaceOf(files: seq<File>, f: File) returns (i: nat)
    requires SortedFiles(files) && forall g :: g in files ==> g.number != f.number
    ensures i <= |files|
    ensures forall j :: 0 <= j < i ==> BySmallest(files[j], f)
    ensures forall j :: i <= j < |files| ==> BySmallest(f, files[j])
    decreases |files|
  {
    i := 0;
    if files != [] && BySmallest(files[0], f) {
      var k := PlaceOf(files[1..], f);
      i := k + 1;
      assert forall j :: 1 <= j < |files| ==> files[j] == files[1..][j - 1];
    } else if files != [] {
      assert files[0] in files;
      forall j | 0 < j < |files| ensures BySmallest(f, files[j]) {
        VersionBuilder.OrderTransitive(f, files[0], files[j]);
      }
    }
  }

  lemma {:induction false} OrderedListing(files: seq<File>) returns (r: seq<File>)
    requires NumbersDiffer(files)
    ensures SortedFiles(r) && forall f :: f in r <==> f in files
    decreases |files|
  {
    r := [];
    if files != [] {
      var front, f := files[..|files| - 1], files[|files| - 1];
      assert files == front + [f];
      r := OrderedListing(front);
      if f !in front {
        var i := PlaceOf(r, f);
        VersionBuilder.InsertedSorted(r, f, i);
        var longer := r[..i] + [f] + r[i..];
        forall g ensures g in longer <==> g in files {
          assert g in longer <==> g in VersionBuilder.Files(longer);
        }
        r := longer;
      }
    }
  }

  lemma TopCanBeBuilt(levels: Levels, made: seq<File>) returns (levels': Levels)
    requires ValidLevels(levels) && AllNumbered(levels, made) && MadeInOrder(made)
    ensures AddedAtTop(levels, made, levels')
  {
    assert ValidLevel(0, levels[0]);
    forall f, g | f in levels[0] + made && g in levels[0] + made && f.number == g.number ensures f == g {
      NumbersAreNew(levels, made, f, g);
    }
    var top := OrderedListing(levels[0] + made);
    levels' := levels[0 := top];
  }

  lemma NumbersAreNew(levels: Levels, made: seq<File>, f: File, g: File)
    requires |levels| == NUM_LEVELS && DistinctNumbers(levels[0]) && AllNumbered(levels, made) && MadeInOrder(made)
    requires (f in levels[0] || f in made) && (g in levels[0] || g in made) && f.number == g.number
    ensures f == g
  {
    if f in made && g in made {
      MadePair(made, f, g);
    }
  }

  /** A database that is down and has replayed its logs comes up with the same history. */
  lemma OpenCompletes(s: System) returns (s': System)
    requires Inv(s) && s.up.None? && s.recovery.Some?
    ensures Step(s, s') && s'.up.Some? && s'.history == s.history && s'.risen == s.risen
  {
    var r := s.recovery.value;
    assert MadeInOrder(r.made);
    var levels := TopCanBeBuilt(s.disk.levels, r.made);
    s' := s.(
      disk := s.disk.(levels := levels, logNumber := r.newLog, lastSequence := r.lastSequence, nextFile := r.nextFile),
      up := Some(Memory(levels, r.newLog, [], None, r.newLog, r.lastSequence, r.nextFile, None, multiset{}, NotFlushing, NotCompacting)),
      recovery := None,
      flushed := s.history,
      held := s.history);
    assert InstallRecovery(s, s', levels);
  }

  lemma ReplayCompletes(s: System) returns (s': System)
    requires Inv(s) && s.up.None? && s.recovery.None?
    ensures Step(s, s') && s'.up.None? && s'.recovery.Some? && s'.history == s.history && s'.risen == s.risen
  {
    AscendingSplit(s.flushed, Replay(s.disk.logs, s.disk.logNumber));
    var r := LogsCanBeReplayed(s.disk);
    s' := s.(
      disk := s.disk.(tables := WithTables(s.disk.tables, r.made), logs := s.disk.logs + [Log(r.newLog, [])]),
      recovery := Some(r));
    assert BuildRecovery(s, s', r);
  }

  lemma RunReplays(trace: seq<System>) returns (s': System)
    requires Run(trace) && trace[|trace| - 1].up.None? && trace[|trace| - 1].recovery.None?
    ensures Run(trace + [s']) && s'.up.None? && s'.recovery.Some? && s'.history == trace[|trace| - 1].history && s'.risen == trace[|trace| - 1].risen
  {
    RunKeeps(trace, |trace| - 1);
    s' := ReplayCompletes(trace[|trace| - 1]);
    RunExtends(trace, s');
  }

  lemma RunOpens(trace: seq<System>) returns (s': System)
    requires Run(trace) && trace[|trace| - 1].up.None? && trace[|trace| - 1].recovery.Some?
    ensures Run(trace + [s']) && s'.up.Some? && s'.history == trace[|trace| - 1].history && s'.risen == trace[|trace| - 1].risen
  {
    RunKeeps(trace, |trace| - 1);
    s' := OpenCompletes(trace[|trace| - 1]);
    RunExtends(trace, s');
  }

  /** The last state of a run is up and reads like `history`. */
  ghost predicate UpWith(trace: seq<System>, history: seq<Batch>, risen: set<UserKey>)
    requires trace != []
  {
    var s := trace[|trace| - 1];
    && s.up.Some? && s.history == history
    && forall k, snapshot :: Readers(s.up.value, snapshot) && Reliable(EntriesOf(history), k, snapshot, risen) ==>
         Visible(Readable(s.up.value), k, snapshot) == Visible(EntriesOf(history), k, snapshot)
  }

  lemma OpenedReads(trace: seq<System>)
    requires Run(trace) && trace[|trace| - 1].up.Some?
    ensures UpWith(trace, trace[|trace| - 1].history, trace[|trace| - 1].risen)
  {
    var i := |trace| - 1;
    forall k, snapshot | Readers(trace[i].up.value, snapshot) && Reliable(EntriesOf(trace[i].history), k, snapshot, trace[i].risen)
      ensures Visible(Readable(trace[i].up.value), k, snapshot) == Visible(EntriesOf(trace[i].history), k, snapshot)
    {
      EveryReadSeesHistory(trace, i, k, snapshot);
    }
  }

  /**
   Wherever a run leaves the database down, it can go on and come up in at most two steps,
   with all of the history that the crash left, and reads like it.
   */
  lemma RecoveryCompletes(trace: seq<System>) returns (more: seq<System>)
    requires Run(trace) && trace[|trace| - 1].up.None?
    ensures 1 <= |more| <= 2 && Run(trace + more)
    ensures UpWith(trace + more, trace[|trace| - 1].history, trace[|trace| - 1].risen)
  {
    if trace[|trace| - 1].recovery.None? {
      var down := RunReplays(trace);
      var up := RunOpens(trace + [down]);
      more := [down, up];
      assert trace + [down] + [up] == trace + more;
    } else {
      var up := RunOpens(trace);
      more := [up];
    }
    OpenedReads(trace + more);
  }
}
