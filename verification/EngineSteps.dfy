/**
 Every step of the engine keeps its invariant.
 */
module EngineSteps {
  import opened Options
  import opened Format
  import opened Version
  import opened Histories
  import opened CompactionInputs
  import opened CompactionWork
  import opened CompactionReads
  import opened DropRules
  import opened Install
  import opened Flush
  import opened Engine

  // ----- logs -----

  lemma ReplaySnoc(front: seq<Log>, last: Log, min: nat)
    ensures Replay(front + [last], min) == Replay(front, min) + if last.number >= min then last.batches else []
  {
    assert (front + [last])[..|front|] == front;
  }

  /** Logs numbered below `min` contribute nothing. */
  lemma {:induction false} ReplayEmpty(logs: seq<Log>, min: nat)
    requires forall i :: 0 <= i < |logs| ==> logs[i].number < min
    ensures Replay(logs, min) == []
  {
    if logs != [] {
      ReplayEmpty(logs[..|logs| - 1], min);
    }
  }

  lemma {:induction false} ReplayDrop(logs: seq<Log>, first: nat, min: nat)
    requires first <= |logs| && forall i :: 0 <= i < first ==> logs[i].number < min
    ensures Replay(logs[first..], min) == Replay(logs, min)
  {
    if first == |logs| {
      ReplayEmpty(logs, min);
    } else {
      var front, last := logs[..|logs| - 1], logs[|logs| - 1];
      ReplayDrop(front, first, min);
      assert logs[first..] == front[first..] + [last] && logs == front + [last];
      ReplaySnoc(front[first..], last, min);
      ReplaySnoc(front, last, min);
    }
  }

  // ----- one version and its log number -----

  /** The logs with one more record in the newest. */
  ghost function Appended(logs: seq<Log>, b: Batch): seq<Log>
    requires logs != []
  {
    var n := |logs| - 1;
    logs[..n] + [Log(logs[n].number, logs[n].batches + [b])]
  }

  lemma BackedAppend(levels: Levels, logNumber: nat, logs: seq<Log>, history: seq<Batch>, flushed: seq<Batch>, b: Batch)
    requires logs != [] && Backed(levels, logNumber, logs, history, flushed) && logNumber <= logs[|logs| - 1].number
    ensures Backed(levels, logNumber, Appended(logs, b), history + [b], flushed)
  {
    var front, log := logs[..|logs| - 1], logs[|logs| - 1];
    assert logs == front + [log];
    ReplaySnoc(front, log, logNumber);
    ReplaySnoc(front, Log(log.number, log.batches + [b]), logNumber);
  }

  lemma BackedNewLog(levels: Levels, logNumber: nat, logs: seq<Log>, number: nat, history: seq<Batch>, flushed: seq<Batch>)
    requires Backed(levels, logNumber, logs, history, flushed)
    ensures Backed(levels, logNumber, logs + [Log(number, [])], history, flushed)
  {
    ReplaySnoc(logs, Log(number, []), logNumber);
  }

  lemma StoredMore(levels: Levels, tables: map<nat, File>, nextFile: nat, number: nat, f: File, nextFile': nat)
    requires Stored(levels, tables, nextFile) && nextFile <= number && nextFile <= nextFile'
    ensures Stored(levels, tables[number := f], nextFile')
  {
  }

  lemma {:induction false} WithTablesHas(tables: map<nat, File>, files: seq<File>)
    requires forall i, j :: 0 <= i < j < |files| ==> files[i].number != files[j].number
    ensures forall i :: 0 <= i < |files| ==> files[i].number in WithTables(tables, files) && WithTables(tables, files)[files[i].number] == files[i]
    ensures forall n :: n in tables && (forall i :: 0 <= i < |files| ==> files[i].number != n) ==>
              n in WithTables(tables, files) && WithTables(tables, files)[n] == tables[n]
  {
    if files != [] {
      WithTablesHas(tables, files[..|files| - 1]);
    }
  }

  // ----- writers -----

  lemma BeginWriteKeeps(s: System, s': System, b: Batch)
    requires Inv(s) && BeginWrite(s, s', b)
    ensures Inv(s')
  {
    AscendingSnoc(s.history, b, s.up.value.lastSequence);
    BeginWriteDisk(s, s', b);
    BeginWriteUp(s, s', b);
  }

  lemma BeginWriteDisk(s: System, s': System, b: Batch)
    requires Inv(s) && BeginWrite(s, s', b)
    ensures DiskInv(s'.disk, s'.history, s'.flushed, s'.horizon, s'.risen) && LogsBelow(s'.disk.logs, s.up.value.nextFile)
  {
    BackedAppend(s.disk.levels, s.disk.logNumber, s.disk.logs, s.history, s.flushed, b);
    AppendedLogs(s.disk.logs, s.disk.logNumber, s.disk.nextFile, s.up.value.nextFile, b);
  }

  lemma BeginWriteUp(s: System, s': System, b: Batch)
    requires Inv(s) && BeginWrite(s, s', b) && LogsBelow(s'.disk.logs, s.up.value.nextFile)
    ensures UpInv(s', s'.up.value)
  {
    var m := s.up.value;
    AscendingSnoc(s.history, b, m.lastSequence);
    BackedAppend(m.levels, m.logNumber, s.disk.logs, s.history, s.held, b);
    AppendedMemtables(s.disk.logs, s.disk.logNumber, m.mem, m.imm, m.logNumber, m.logfile, b);
    AppendedSequences(s.history, m.lastSequence, b);
  }

  lemma AppendedLogs(logs: seq<Log>, logNumber: nat, nextFile: nat, next: nat, b: Batch)
    requires logs != [] && LogsInv(logs, logNumber, nextFile) && LogsBelow(logs, next)
    ensures LogsInv(Appended(logs, b), logNumber, nextFile) && LogsBelow(Appended(logs, b), next)
  {
  }

  lemma AppendedMemtables(logs: seq<Log>, needed: nat, mem: seq<Entry>, imm: Option<seq<Entry>>, logNumber: nat, logfile: nat, b: Batch)
    requires MemtablesInv(logs, needed, mem, imm, logNumber, logfile, None)
    ensures MemtablesInv(Appended(logs, b), needed, mem, imm, logNumber, logfile, Some(b))
  {
    var n := |logs| - 1;
    var log := logs[n];
    assert (logs[..n] + [Log(log.number, log.batches + [b])])[..n] == logs[..n];
    assert (log.batches + [b])[..|log.batches|] == log.batches;
  }

  lemma AppendedSequences(history: seq<Batch>, lastSequence: nat, b: Batch)
    requires SequencesInv(history, lastSequence, None) && AllAbove(BatchEntries(b), lastSequence)
    requires AtMost(EntriesOf(history + [b]), lastSequence + |b|)
    ensures SequencesInv(history + [b], lastSequence, Some(b))
  {
    assert (history + [b])[..|history|] == history;
    EntriesOfConcat(history, [b]);
    EntriesOfSingle(b);
  }

  lemma FinishWriteKeeps(s: System, s': System, mem: seq<Entry>)
    requires Inv(s) && FinishWrite(s, s', mem)
    ensures Inv(s')
  {
    var m := s.up.value;
    InsertedMemtables(s.disk.logs, s.disk.logNumber, m.mem, m.imm, m.logNumber, m.logfile, m.writing.value, mem);
    InsertedSequences(s.history, m.lastSequence, m.writing.value);
  }

  /** The memtable takes in the last batch of its log. */
  lemma InsertedMemtables(logs: seq<Log>, needed: nat, mem: seq<Entry>, imm: Option<seq<Entry>>, logNumber: nat, logfile: nat, b: Batch, mem': seq<Entry>)
    requires MemtablesInv(logs, needed, mem, imm, logNumber, logfile, Some(b))
    requires Sorted(mem') && RunEntries(mem') == RunEntries(mem) + BatchEntries(b)
    ensures MemtablesInv(logs, needed, mem', imm, logNumber, logfile, None)
  {
    var log := logs[|logs| - 1];
    var n := |log.batches| - 1;
    assert log.batches == log.batches[..n] + [b];
    EntriesOfConcat(log.batches[..n], [b]);
    EntriesOfSingle(b);
  }

  lemma InsertedSequences(history: seq<Batch>, lastSequence: nat, b: Batch)
    requires SequencesInv(history, lastSequence, Some(b))
    ensures SequencesInv(history, lastSequence + |b|, None)
  {
    var h := |history| - 1;
    assert history == history[..h] + [b];
    EntriesOfConcat(history[..h], [b]);
    EntriesOfSingle(b);
  }

  lemma SwitchMemtableKeeps(s: System, s': System)
    requires Inv(s) && SwitchMemtable(s, s')
    ensures Inv(s')
  {
    var m := s.up.value;
    BackedNewLog(s.disk.levels, s.disk.logNumber, s.disk.logs, m.nextFile, s.history, s.flushed);
    BackedNewLog(m.levels, m.logNumber, s.disk.logs, m.nextFile, s.history, s.held);
    NewLogs(s.disk.logs, s.disk.logNumber, s.disk.nextFile, m.nextFile);
    SwitchedMemtables(s.disk.logs, s.disk.logNumber, m.mem, m.logNumber, m.logfile, m.nextFile);
  }

  lemma NewLogs(logs: seq<Log>, logNumber: nat, nextFile: nat, number: nat)
    requires LogsInv(logs, logNumber, nextFile) && LogsBelow(logs, number) && nextFile <= number
    ensures LogsInv(logs + [Log(number, [])], logNumber, nextFile) && LogsBelow(logs + [Log(number, [])], number + 1)
  {
  }

  /** The full memtable becomes the immutable one; it holds what the logs so far replay to. */
  lemma SwitchedMemtables(logs: seq<Log>, needed: nat, mem: seq<Entry>, logNumber: nat, logfile: nat, number: nat)
    requires MemtablesInv(logs, needed, mem, None, logNumber, logfile, None) && LogsBelow(logs, number)
    ensures MemtablesInv(logs + [Log(number, [])], needed, [], Some(mem), logNumber, number, None)
  {
    var n := |logs| - 1;
    var front, last := logs[..n], logs[n];
    assert (logs + [Log(number, [])])[..n + 1] == logs && logs == front + [last];
    ReplaySnoc(front, last, logNumber);
    assert [] + last.batches == last.batches;
    assert RunEntries([]) == {} && EntriesOf([]) == {};
  }

  lemma SnapshotStepKeeps(s: System, s': System, snap: nat)
    requires Inv(s) && (TakeSnapshot(s, s') || ReleaseSnapshot(s, s', snap))
    ensures Inv(s')
  {
    var m, m' := s.up.value, s'.up.value;
    if m.compacting.CompactionBuilt? { SnapshotsChange(m.snapshots, m'.snapshots, m.lastSequence, m.compacting.snap); }
    SnapshotsChange(m.snapshots, m'.snapshots, m.lastSequence, s.horizon);
  }

  /** A snapshot at the last sequence number more, or any one less. */
  lemma SnapshotsChange(before: multiset<nat>, after: multiset<nat>, lastSequence: nat, horizon: nat)
    requires SnapshotsInv(before, lastSequence, horizon) && forall s :: s in after ==> s in before || s == lastSequence
    ensures SnapshotsInv(after, lastSequence, horizon)
  {
  }
}
