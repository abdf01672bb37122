/**
 Every step of the background thread keeps the engine's invariant.
 */
module EngineBackground {
  import opened Options
  import opened Format
  import opened Version
  import opened Histories
  import opened CompactionInputs
  import opened CompactionWork
  import opened CompactionReads
  import opened DropRules
  import opened Install
  import opened Flush
  import opened Engine
  import opened EngineSteps

  // ----- flush -----

  lemma StoredNumbers(levels: Levels, tables: map<nat, File>, nextFile: nat)
    requires Stored(levels, tables, nextFile)
    ensures Numbered(levels, nextFile)
  {
  }

  lemma BuildFlushKeeps(s: System, s': System, level: nat, file: Option<File>)
    requires Inv(s) && BuildFlush(s, s', level, file)
    ensures Inv(s')
  {
    var m := s.up.value;
    if file.Some? {
      StoredMore(s.disk.levels, s.disk.tables, s.disk.nextFile, m.nextFile, file.value, s.disk.nextFile);
      StoredMore(m.levels, s.disk.tables, m.nextFile, m.nextFile, file.value, m.nextFile + 1);
      if m.compacting.CompactionBuilt? { TablesMore(m.compacting.outputs, s.disk.tables, m.nextFile, file.value); }
    }
    FlushIsBuilt(m.levels, s.disk.tables, m.nextFile, m.imm, level, file);
  }

  lemma TablesMore(files: seq<File>, tables: map<nat, File>, nextFile: nat, f: File)
    requires TablesHold(files, tables, nextFile)
    ensures TablesHold(files, tables[nextFile := f], nextFile + 1)
  {
  }

  lemma FlushIsBuilt(levels: Levels, tables: map<nat, File>, nextFile: nat, imm: Option<seq<Entry>>, level: nat, file: Option<File>)
    requires |levels| == NUM_LEVELS && Stored(levels, tables, nextFile) && imm.Some? && (file.None? <==> imm.value == [])
    requires file.Some? ==> file.value.number == nextFile && file.value.Valid() && file.value.entries == imm.value && Fits(levels, level, file.value)
    ensures BuiltFlush(levels, if file.Some? then tables[nextFile := file.value] else tables, nextFile + 1, imm, level, file)
  {
    StoredNumbers(levels, tables, nextFile);
  }

  /** The current log is the only one the manifest still needs after a flush. */
  lemma LastLogReplay(logs: seq<Log>)
    requires logs != [] && LogsAscend(logs)
    ensures Replay(logs, logs[|logs| - 1].number) == logs[|logs| - 1].batches
    ensures Replay(logs[..|logs| - 1], logs[|logs| - 1].number) == []
  {
    var n := |logs| - 1;
    ReplayEmpty(logs[..n], logs[n].number);
    assert [] + logs[n].batches == logs[n].batches;
  }

  /** What the older logs replay to was written after everything the version stands for. */
  lemma OlderLogsAreLater(logs: seq<Log>, logNumber: nat, held: seq<Batch>, history: seq<Batch>)
    requires logs != [] && Ascending(history) && history == held + Replay(logs, logNumber) && logNumber <= logs[|logs| - 1].number
    ensures var batches := Replay(logs[..|logs| - 1], logNumber);
      && history == held + batches + logs[|logs| - 1].batches
      && Ascending(held + batches) && WrittenAfter(EntriesOf(batches), EntriesOf(held))
  {
    HistoryParts(logs, logNumber, held, history);
    MiddleIsLater(held, Replay(logs[..|logs| - 1], logNumber), logs[|logs| - 1].batches);
  }

  lemma HistoryParts(logs: seq<Log>, logNumber: nat, held: seq<Batch>, history: seq<Batch>)
    requires logs != [] && history == held + Replay(logs, logNumber) && logNumber <= logs[|logs| - 1].number
    ensures history == held + Replay(logs[..|logs| - 1], logNumber) + logs[|logs| - 1].batches
  {
    var front, last := logs[..|logs| - 1], logs[|logs| - 1];
    assert logs == front + [last];
    ReplaySnoc(front, last, logNumber);
  }

  lemma MiddleIsLater(a: seq<Batch>, b: seq<Batch>, c: seq<Batch>)
    requires Ascending(a + b + c)
    ensures Ascending(a + b) && WrittenAfter(EntriesOf(b), EntriesOf(a))
  {
    AscendingSplit(a + b, c);
    AscendingSplit(a, b);
  }

  lemma FlushedTableIsLatest(levels: Levels, f: File, held: set<Entry>, later: set<Entry>)
    requires Contents(levels) <= held && WrittenAfter(later, held)
    requires RunEntries(f.entries) == later && Numbered(levels, f.number)
    ensures Latest(levels, f)
  {
    forall l, g | 0 <= l < |levels| && g in levels[l] ensures g.number < f.number {
      var i :| 0 <= i < |levels[l]| && levels[l][i] == g;
    }
  }

  /** The version with the flushed table added, if there is one. */
  ghost predicate WithFlush(levels: Levels, level: nat, file: Option<File>, levels': Levels) {
    && |levels| == NUM_LEVELS && level < NUM_LEVELS
    && (file.None? ==> levels' == levels)
    && (file.Some? ==> Added(levels, level, file.value, levels'))
  }

  ghost function TableEntries(file: Option<File>): set<Entry> {
    if file.Some? then RunEntries(file.value.entries) else {}
  }

  /** A flushed table is valid, fits its level, and is later than the version. */
  ghost predicate Flushable(levels: Levels, level: nat, file: Option<File>) {
    |levels| == NUM_LEVELS && (file.Some? ==> file.value.Valid() && Fits(levels, level, file.value) && Latest(levels, file.value))
  }

  lemma FlushAdds(levels: Levels, level: nat, file: Option<File>, levels': Levels)
    requires ValidLevels(levels) && Flushable(levels, level, file) && WithFlush(levels, level, file, levels')
    ensures ValidLevels(levels') && Contents(levels') == Contents(levels) + TableEntries(file)
  {
    if file.Some? { FlushKeepsLevels(levels, level, file.value, levels'); }
  }

  lemma IsFlushable(levels: Levels, tables: map<nat, File>, nextFile: nat, imm: Option<seq<Entry>>, level: nat, file: Option<File>,
                    held: seq<Batch>, batches: seq<Batch>)
    requires BuiltFlush(levels, tables, nextFile, imm, level, file) && Holding(imm.value, batches)
    requires Contents(levels) <= EntriesOf(held) && WrittenAfter(EntriesOf(batches), EntriesOf(held))
    ensures Flushable(levels, level, file) && TableEntries(file) == EntriesOf(batches)
  {
    if file.Some? {
      FlushedTableIsLatest(levels, file.value, EntriesOf(held), EntriesOf(batches));
    } else {
      assert RunEntries(imm.value) == {};
    }
  }

  /** The manifest's new version holds the flushed batches too, and reads like them. */
  lemma LogFlushBacked(levels: Levels, level: nat, file: Option<File>, levels': Levels, logs: seq<Log>, logNumber: nat,
                       history: seq<Batch>, held: seq<Batch>, horizon: nat, risen: set<UserKey>)
    requires logs != [] && LogsAscend(logs) && Ascending(history) && logNumber <= logs[|logs| - 1].number
    requires Backed(levels, logNumber, logs, history, held) && StandsFor(levels, held, horizon, risen)
    requires Flushable(levels, level, file) && WithFlush(levels, level, file, levels')
    requires TableEntries(file) == EntriesOf(Replay(logs[..|logs| - 1], logNumber))
    ensures var flushed := held + Replay(logs[..|logs| - 1], logNumber);
      Backed(levels', logs[|logs| - 1].number, logs, history, flushed) && StandsFor(levels', flushed, horizon, risen)
  {
    var batches := Replay(logs[..|logs| - 1], logNumber);
    OlderLogsAreLater(logs, logNumber, held, history);
    LastLogReplay(logs);
    FlushAdds(levels, level, file, levels');
    EntriesOfConcat(held, batches);
    FlushReadsAlike(Contents(levels), held, batches, horizon, risen);
  }

  lemma FlushReadsAlike(tables: set<Entry>, held: seq<Batch>, batches: seq<Batch>, horizon: nat, risen: set<UserKey>)
    requires Ascending(held + batches) && tables <= EntriesOf(held) && ReadAlike(tables, EntriesOf(held), horizon, risen)
    ensures ReadAlike(tables + EntriesOf(batches), EntriesOf(held + batches), horizon, risen)
  {
    AscendingSplit(held, batches);
    AscendingIsUnique(held + batches);
    EntriesOfConcat(held, batches);
    ReadAlikeWithNewer(tables, EntriesOf(held), EntriesOf(batches), horizon, risen);
  }

  lemma FlushedSequences(logs: seq<Log>, logNumber: nat, held: seq<Batch>, history: seq<Batch>, lastSequence: nat, writing: Option<Batch>)
    requires logs != [] && Ascending(history) && history == held + Replay(logs, logNumber) && logNumber <= logs[|logs| - 1].number
    requires SequencesInv(history, lastSequence, writing)
    requires writing.Some? ==> logs[|logs| - 1].batches != [] && logs[|logs| - 1].batches[|logs[|logs| - 1].batches| - 1] == writing.value
    ensures AtMost(EntriesOf(held + Replay(logs[..|logs| - 1], logNumber)), lastSequence)
  {
    OlderLogsAreLater(logs, logNumber, held, history);
    var flushed, last := held + Replay(logs[..|logs| - 1], logNumber), logs[|logs| - 1];
    EntriesOfConcat(flushed, last.batches);
    if writing.Some? {
      var n := |last.batches| - 1;
      assert history[..|history| - 1] == flushed + last.batches[..n];
      EntriesOfConcat(flushed, last.batches[..n]);
    }
  }

  lemma StoredAdded(levels: Levels, level: nat, file: Option<File>, levels': Levels, tables: map<nat, File>, nextFile: nat)
    requires WithFlush(levels, level, file, levels') && Stored(levels, tables, nextFile)
    requires file.Some? ==> TablesHold([file.value], tables, nextFile)
    ensures Stored(levels', tables, nextFile)
  {
    if file.Some? {
      var f := [file.value][0];
      forall l, i | 0 <= l < |levels'| && 0 <= i < |levels'[l]|
        ensures levels'[l][i].number < nextFile && levels'[l][i].number in tables && tables[levels'[l][i].number] == levels'[l][i]
      {
        var g := levels'[l][i];
        assert g in levels'[l];
        if g != f {
          assert g in levels[l];
          var j :| 0 <= j < |levels[l]| && levels[l][j] == g;
        }
      }
    }
  }

  lemma LogFlushDisk(s: System, s': System, levels: Levels)
    requires Inv(s) && LogFlush(s, s', levels)
    ensures Flushable(s.up.value.levels, s.up.value.flush.level, s.up.value.flush.file)
    ensures TableEntries(s.up.value.flush.file) == EntriesOf(Replay(s.disk.logs[..|s.disk.logs| - 1], s.up.value.logNumber))
    ensures DiskInv(s'.disk, s'.history, s'.flushed, s'.horizon, s'.risen)
  {
    var m := s.up.value;
    var batches := Replay(s.disk.logs[..|s.disk.logs| - 1], m.logNumber);
    OlderLogsAreLater(s.disk.logs, m.logNumber, s.held, s.history);
    IsFlushable(m.levels, s.disk.tables, m.nextFile, m.imm, m.flush.level, m.flush.file, s.held, batches);
    LogFlushBacked(m.levels, m.flush.level, m.flush.file, levels, s.disk.logs, m.logNumber, s.history, s.held, s.horizon, s.risen);
    FlushedSequences(s.disk.logs, m.logNumber, s.held, s.history, m.lastSequence, m.writing);
    StoredAdded(m.levels, m.flush.level, m.flush.file, levels, s.disk.tables, m.nextFile);
  }

  lemma LogFlushKeeps(s: System, s': System, levels: Levels)
    requires Inv(s) && LogFlush(s, s', levels)
    ensures Inv(s')
  {
    LogFlushDisk(s, s', levels);
    if s.up.value.compacting.CompactionBuilt? { LogFlushDuring(s, s', levels); }
  }

  lemma LogFlushDuring(s: System, s': System, levels: Levels)
    requires Inv(s) && LogFlush(s, s', levels) && s.up.value.compacting.CompactionBuilt?
    ensures var w := s.up.value.compacting; Replaceable(levels, w.c, w.outputs, w.snap, w.risen)
  {
    var m, w := s.up.value, s.up.value.compacting;
    LogFlushDisk(s, s', levels);
    FlushedIsUnique(m.levels, s.held, s.disk.logs, m.logNumber, s.history);
    FlushKeepsReplaceable(m.levels, m.flush.level, m.flush.file, levels, w.c, w.outputs, w.snap, w.risen);
  }

  lemma FlushedIsUnique(levels: Levels, held: seq<Batch>, logs: seq<Log>, logNumber: nat, history: seq<Batch>)
    requires logs != [] && Ascending(history) && logNumber <= logs[|logs| - 1].number && Backed(levels, logNumber, logs, history, held)
    ensures var later := EntriesOf(Replay(logs[..|logs| - 1], logNumber));
      UniqueSequences(Contents(levels) + later) && WrittenAfter(later, Contents(levels))
  {
    var batches := Replay(logs[..|logs| - 1], logNumber);
    OlderLogsAreLater(logs, logNumber, held, history);
    AscendingIsUnique(held + batches);
    EntriesOfConcat(held, batches);
  }

  lemma InstallFlushKeeps(s: System, s': System)
    requires Inv(s) && InstallFlush(s, s')
    ensures Inv(s')
  {
    var m := s.up.value;
    LastLogReplay(s.disk.logs);
    FlushedMemtables(s.disk.logs, s.disk.logNumber, m.mem, m.imm, m.logNumber, m.logfile, m.writing);
    StoredLater(s.disk.levels, s.disk.tables, s.disk.nextFile, m.nextFile);
  }

  lemma StoredLater(levels: Levels, tables: map<nat, File>, nextFile: nat, nextFile': nat)
    requires Stored(levels, tables, nextFile) && nextFile <= nextFile'
    ensures Stored(levels, tables, nextFile')
  {
  }

  /** The immutable memtable is gone with the logs that it held. */
  lemma FlushedMemtables(logs: seq<Log>, needed: nat, mem: seq<Entry>, imm: Option<seq<Entry>>, logNumber: nat, logfile: nat, writing: Option<Batch>)
    requires MemtablesInv(logs, needed, mem, imm, logNumber, logfile, writing) && LogsAscend(logs)
    ensures MemtablesInv(logs, needed, mem, None, logfile, logfile, writing)
  {
    LastLogReplay(logs);
  }

  // ----- a flush in the middle of a compaction -----

  /** A table that lands clear of the compaction leaves its selection closed. */
  lemma FlushKeepsClosed(levels: Levels, level: nat, f: File, levels': Levels, c: Compaction)
    requires ValidLevels(levels) && Closed(levels, c) && level < NUM_LEVELS
    requires Latest(levels, f) && Added(levels, level, f, levels')
    requires level == c.level + 1 ==> !Overlaps(f, At(c.smallest.user), At(c.largest.user))
    ensures Closed(levels', c) && !Selected(c, level, f)
  {
    forall g, h | g in levels'[c.level] && g !in c.inputs0 && h in c.inputs0 ensures Newer(g, h) {
      if g !in levels[c.level] { LatestIsNewer(levels, f, c.level, h); }
    }
    forall g ensures g in c.inputs1 <==> g in levels'[c.level + 1] && Overlaps(g, At(c.smallest.user), At(c.largest.user)) {
      assert g in c.inputs1 <==> g in levels[c.level + 1] && Overlaps(g, At(c.smallest.user), At(c.largest.user));
    }
    assert f !in levels[c.level] && f !in levels[c.level + 1];
  }

  lemma FlushedRest(levels: Levels, level: nat, f: File, levels': Levels, c: Compaction)
    requires |levels| == NUM_LEVELS && level < NUM_LEVELS && Added(levels, level, f, levels') && !Selected(c, level, f)
    ensures Rest(levels', c) == Rest(levels, c) + RunEntries(f.entries)
  {
    forall e | e in Rest(levels', c) ensures e in Rest(levels, c) + RunEntries(f.entries) {
      var l, g :| 0 <= l < |levels'| && g in levels'[l] && !Selected(c, l, g) && e in g.entries;
      if l == level && g == f { assert e in RunEntries(f.entries); } else { assert g in levels[l]; }
    }
    forall e | e in Rest(levels, c) + RunEntries(f.entries) ensures e in Rest(levels', c) {
      if e in Rest(levels, c) {
        var l, g :| 0 <= l < |levels| && g in levels[l] && !Selected(c, l, g) && e in g.entries;
        assert g in levels'[l];
      } else {
        assert f in levels'[level];
      }
    }
  }

  lemma FlushKeepsReplaceable(levels: Levels, level: nat, file: Option<File>, levels': Levels, c: Compaction, outputs: seq<File>, snap: nat, risen: set<UserKey>)
    requires ValidLevels(levels) && Flushable(levels, level, file) && WithFlush(levels, level, file, levels')
    requires Replaceable(levels, c, outputs, snap, risen) && GoodOutputs(c, outputs)
    requires file.Some? && level == c.level + 1 ==> !Overlaps(file.value, At(c.smallest.user), At(c.largest.user))
    requires UniqueSequences(Contents(levels) + TableEntries(file)) && WrittenAfter(TableEntries(file), Contents(levels))
    ensures Replaceable(levels', c, outputs, snap, risen)
  {
    if file.Some? {
      var f := file.value;
      FlushKeepsClosed(levels, level, f, levels', c);
      FlushedSets(levels, level, f, levels', c, outputs);
      LaterReadsAlike(Contents(levels), Rest(levels, c) + FileEntries(outputs), RunEntries(f.entries), snap, risen,
                      Contents(levels'), Rest(levels', c) + FileEntries(outputs));
    }
  }

  lemma FlushedSets(levels: Levels, level: nat, f: File, levels': Levels, c: Compaction, outputs: seq<File>)
    requires |levels| == NUM_LEVELS && level < NUM_LEVELS && Added(levels, level, f, levels') && !Selected(c, level, f)
    requires Closed(levels, c) && GoodOutputs(c, outputs)
    ensures Contents(levels') == Contents(levels) + RunEntries(f.entries)
    ensures Rest(levels', c) + FileEntries(outputs) == Rest(levels, c) + FileEntries(outputs) + RunEntries(f.entries)
    ensures Rest(levels, c) + FileEntries(outputs) <= Contents(levels)
  {
    AddedContents(levels, level, f, levels');
    FlushedRest(levels, level, f, levels', c);
    OutputsWithin(levels, c, outputs);
  }

  lemma LaterReadsAlike(before: set<Entry>, after: set<Entry>, later: set<Entry>, snap: nat, risen: set<UserKey>, before': set<Entry>, after': set<Entry>)
    requires ReadAlike(after, before, snap, risen) && after <= before
    requires UniqueSequences(before + later) && WrittenAfter(later, before)
    requires before' == before + later && after' == after + later
    ensures ReadAlike(after', before', snap, risen)
  {
    ReadAlikeWithNewer(after, before, later, snap, risen);
  }

  /** What replaces the inputs comes from the version. */
  lemma OutputsWithin(levels: Levels, c: Compaction, outputs: seq<File>)
    requires |levels| == NUM_LEVELS && Closed(levels, c) && GoodOutputs(c, outputs)
    ensures Rest(levels, c) + FileEntries(outputs) <= Contents(levels)
  {
    ContentsSplit(levels, c);
    forall e | e in FileEntries(outputs) ensures e in Inputs(c) {
      var f :| f in outputs && e in f.entries;
      var i :| 0 <= i < |outputs| && outputs[i] == f;
      assert MadeFrom(outputs[i], c);
    }
  }

  // ----- compaction -----

  lemma {:induction false} ConcatDisjoint(files: seq<File>)
    requires ValidFiles(files) && Sorted(Concat(files))
    ensures Disjoint(files)
  {
    if files != [] {
      var front, last := files[..|files| - 1], files[|files| - 1];
      var all := Concat(front);
      assert Concat(files) == all + last.entries;
      assert Sorted(all) by {
        assert forall i :: 0 <= i < |all| ==> all[i] == Concat(files)[i];
      }
      ConcatDisjoint(front);
      forall i | 0 <= i < |front| ensures Less(front[i].largest, last.smallest) {
        ConcatHas(front, i);
        var e := front[i].entries[|front[i].entries| - 1];
        assert e in front[i].entries && e in all;
        var p :| 0 <= p < |all| && all[p] == e;
        assert Concat(files)[p] == e && Concat(files)[|all|] == last.entries[0];
      }
    }
  }

  lemma {:induction false} ConcatHas(files: seq<File>, i: nat)
    requires i < |files|
    ensures forall e :: e in files[i].entries ==> e in Concat(files)
  {
    if i < |files| - 1 {
      ConcatHas(files[..|files| - 1], i);
    }
  }

  lemma CompactionOutputs(levels: Levels, c: Compaction, merged: seq<Entry>, outputs: seq<File>, snap: nat)
    requires Sorted(merged) && RunEntries(merged) == Inputs(c)
    requires ValidFiles(outputs) && Concat(outputs) == Kept(Base(levels, c.level), merged, snap)
    ensures GoodOutputs(c, outputs)
    ensures FileEntries(outputs) == Survivors(Inputs(c), Base(levels, c.level), snap)
  {
    var base := Base(levels, c.level);
    KeptIsSubsequence(base, merged, snap);
    KeptAreSurvivors(base, merged, snap);
    ConcatEntries(outputs);
    assert Elements(merged) == RunEntries(merged);
    assert Elements(Kept(base, merged, snap)) == RunEntries(Concat(outputs));
    ConcatDisjoint(outputs);
    forall i | 0 <= i < |outputs| ensures MadeFrom(outputs[i], c) {
      forall e | e in outputs[i].entries ensures e in Inputs(c) {
        assert outputs[i] in outputs && e in FileEntries(outputs);
      }
    }
  }

  lemma CompactionReadsAlike(levels: Levels, c: Compaction, outputs: seq<File>, snap: nat)
    requires ValidLevels(levels) && Closed(levels, c) && UniqueSequences(Contents(levels))
    requires FileEntries(outputs) == Survivors(Inputs(c), Base(levels, c.level), snap)
    ensures Replaceable(levels, c, outputs, snap, RisenKeys(levels, c, snap))
  {
    forall k, s | s >= snap && Reliable(Contents(levels), k, s, RisenKeys(levels, c, snap))
      ensures Visible(Rest(levels, c) + FileEntries(outputs), k, s) == Visible(Contents(levels), k, s)
    {
      OtherReadsUnchanged(levels, c, snap, k, s);
    }
  }

  /** The tables of a version carry distinct sequence numbers. */
  lemma ContentsAreUnique(levels: Levels, logNumber: nat, logs: seq<Log>, history: seq<Batch>, held: seq<Batch>)
    requires Backed(levels, logNumber, logs, history, held) && Ascending(history)
    ensures UniqueSequences(Contents(levels))
  {
    AscendingIsUnique(history);
    EntriesOfConcat(held, Replay(logs, logNumber));
  }

  lemma SmallestIsUsable(m: Memory, horizon: nat, snap: nat)
    requires SnapshotsInv(m.snapshots, m.lastSequence, horizon) && SmallestSnapshot(m, snap)
    ensures SnapshotsInv(m.snapshots, m.lastSequence, snap)
  {
  }

  lemma TablesWith(levels: Levels, tables: map<nat, File>, nextFile: nat, outputs: seq<File>, next: nat)
    requires Stored(levels, tables, nextFile) && nextFile <= next && forall i :: 0 <= i < |outputs| ==> outputs[i].number == next + i
    ensures Stored(levels, WithTables(tables, outputs), nextFile) && TablesHold(outputs, WithTables(tables, outputs), next + |outputs|)
  {
    WithTablesHas(tables, outputs);
  }

  lemma BuildCompactionKeeps(s: System, s': System, c: Compaction, merged: seq<Entry>, outputs: seq<File>, snap: nat)
    requires Inv(s) && BuildCompaction(s, s', c, merged, outputs, snap)
    ensures Inv(s')
  {
    var m := s.up.value;
    CompactionOutputs(m.levels, c, merged, outputs, snap);
    ContentsAreUnique(m.levels, m.logNumber, s.disk.logs, s.history, s.held);
    CompactionReadsAlike(m.levels, c, outputs, snap);
    TablesWith(s.disk.levels, s.disk.tables, s.disk.nextFile, outputs, m.nextFile);
    TablesWith(m.levels, s.disk.tables, m.nextFile, outputs, m.nextFile);
    StoredLater(m.levels, s'.disk.tables, m.nextFile, m.nextFile + |outputs|);
    SmallestIsUsable(m, s.horizon, snap);
  }

  lemma MoveReadsAlike(levels: Levels, c: Compaction, snap: nat)
    requires |levels| == NUM_LEVELS && Closed(levels, c) && c.inputs1 == []
    ensures Replaceable(levels, c, c.inputs0, snap, {})
  {
    ContentsSplit(levels, c);
    assert FileEntries(c.inputs1) == {};
    assert Rest(levels, c) + FileEntries(c.inputs0) == Contents(levels);
  }

  lemma MovedFile(levels: Levels, c: Compaction, tables: map<nat, File>, nextFile: nat)
    requires ValidLevels(levels) && Closed(levels, c) && |c.inputs0| == 1
    requires Stored(levels, tables, nextFile)
    ensures GoodOutputs(c, c.inputs0) && TablesHold(c.inputs0, tables, nextFile)
  {
    var f := c.inputs0[0];
    assert f in c.inputs0 && f in levels[c.level];
    var i :| 0 <= i < |levels[c.level]| && levels[c.level][i] == f;
    assert ValidLevel(c.level, levels[c.level]);
    assert MadeFrom(f, c);
  }

  lemma BuildMoveKeeps(s: System, s': System, c: Compaction, snap: nat)
    requires Inv(s) && BuildMove(s, s', c, snap)
    ensures Inv(s')
  {
    var m := s.up.value;
    MoveReadsAlike(m.levels, c, snap);
    MovedFile(m.levels, c, s.disk.tables, m.nextFile);
    SmallestIsUsable(m, s.horizon, snap);
  }

  lemma StoredInstalled(levels: Levels, c: Compaction, outputs: seq<File>, levels': Levels, tables: map<nat, File>, nextFile: nat)
    requires |levels| == NUM_LEVELS && c.level + 1 < NUM_LEVELS && Installed(levels, c, outputs, levels')
    requires Stored(levels, tables, nextFile) && TablesHold(outputs, tables, nextFile)
    ensures Stored(levels', tables, nextFile)
  {
    forall l, i | 0 <= l < |levels'| && 0 <= i < |levels'[l]|
      ensures levels'[l][i].number < nextFile && levels'[l][i].number in tables && tables[levels'[l][i].number] == levels'[l][i]
    {
      var g := levels'[l][i];
      assert g in levels'[l];
      if g in levels[l] {
        var j :| 0 <= j < |levels[l]| && levels[l][j] == g;
      } else {
        var j :| 0 <= j < |outputs| && outputs[j] == g;
      }
    }
  }

  /** The version with the outputs in place of the inputs holds no more than before, and reads alike but for the risen keys. */
  lemma InstalledBacked(levels: Levels, c: Compaction, outputs: seq<File>, levels': Levels, logNumber: nat, logs: seq<Log>,
                        history: seq<Batch>, held: seq<Batch>, horizon: nat, risen: set<UserKey>, snap: nat, rising: set<UserKey>, horizon': nat)
    requires Backed(levels, logNumber, logs, history, held) && StandsFor(levels, held, horizon, risen)
    requires Replaceable(levels, c, outputs, snap, rising) && GoodOutputs(c, outputs) && Installed(levels, c, outputs, levels')
    requires horizon <= horizon' && snap <= horizon'
    ensures Backed(levels', logNumber, logs, history, held) && StandsFor(levels', held, horizon', risen + rising)
  {
    InstalledKeepsLevels(levels, c, outputs, levels');
    InstalledContents(levels, c, outputs, levels');
    OutputsWithin(levels, c, outputs);
    ReadAlikeChain(Contents(levels), EntriesOf(held), Contents(levels'), horizon, snap, horizon', risen, rising);
  }

  lemma StandsForFewer(levels: Levels, batches: seq<Batch>, horizon: nat, risen: set<UserKey>, horizon': nat, risen': set<UserKey>)
    requires StandsFor(levels, batches, horizon, risen) && horizon <= horizon' && risen <= risen'
    ensures StandsFor(levels, batches, horizon', risen')
  {
  }

  lemma LaterHorizon(snapshots: multiset<nat>, lastSequence: nat, horizon: nat, snap: nat)
    requires SnapshotsInv(snapshots, lastSequence, horizon) && SnapshotsInv(snapshots, lastSequence, snap)
    ensures SnapshotsInv(snapshots, lastSequence, if horizon < snap then snap else horizon)
  {
  }

  lemma LogCompactionKeeps(s: System, s': System, levels: Levels)
    requires Inv(s) && LogCompaction(s, s', levels)
    ensures Inv(s')
  {
    var m, w := s.up.value, s.up.value.compacting;
    InstalledBacked(m.levels, w.c, w.outputs, levels, m.logNumber, s.disk.logs, s.history, s.held, s.horizon, s.risen, w.snap, w.risen, s'.horizon);
    StandsForFewer(m.levels, s.held, s.horizon, s.risen, s'.horizon, s'.risen);
    StoredInstalled(m.levels, w.c, w.outputs, levels, s.disk.tables, m.nextFile);
    LaterHorizon(m.snapshots, m.lastSequence, s.horizon, w.snap);
    LogsLater(s.disk.logs, s.disk.logNumber, s.disk.nextFile, m.nextFile);
  }

  lemma LogsLater(logs: seq<Log>, logNumber: nat, nextFile: nat, nextFile': nat)
    requires LogsInv(logs, logNumber, nextFile) && nextFile <= nextFile'
    ensures LogsInv(logs, logNumber, nextFile')
  {
  }

  lemma InstallCompactionKeeps(s: System, s': System)
    requires Inv(s) && InstallCompaction(s, s')
    ensures Inv(s')
  {
    StoredLater(s.disk.levels, s.disk.tables, s.disk.nextFile, s.up.value.nextFile);
  }

  // ----- file deletion -----

  /** Logs older than the log number are not needed. */
  lemma DropBacked(levels: Levels, logNumber: nat, logs: seq<Log>, first: nat, history: seq<Batch>, flushed: seq<Batch>)
    requires Backed(levels, logNumber, logs, history, flushed)
    requires first <= |logs| && forall i :: 0 <= i < first ==> logs[i].number < logNumber
    ensures Backed(levels, logNumber, logs[first..], history, flushed)
  {
    ReplayDrop(logs, first, logNumber);
  }

  lemma DropMemtables(logs: seq<Log>, needed: nat, mem: seq<Entry>, imm: Option<seq<Entry>>, logNumber: nat, logfile: nat, writing: Option<Batch>, first: nat)
    requires MemtablesInv(logs, needed, mem, imm, logNumber, logfile, writing)
    requires first < |logs| && forall i :: 0 <= i < first ==> logs[i].number < logNumber
    ensures MemtablesInv(logs[first..], needed, mem, imm, logNumber, logfile, writing)
  {
    var n := |logs| - 1;
    ReplayDrop(logs[..n], first, logNumber);
    assert logs[first..][..n - first] == logs[..n][first..];
  }

  lemma DropLogs(logs: seq<Log>, logNumber: nat, nextFile: nat, first: nat, next: nat)
    requires LogsInv(logs, logNumber, nextFile) && LogsBelow(logs, next) && first < |logs|
    ensures LogsInv(logs[first..], logNumber, nextFile) && LogsBelow(logs[first..], next)
  {
  }

  lemma KeptTables(levels: Levels, tables: map<nat, File>, nextFile: nat, kept: map<nat, File>)
    requires Stored(levels, tables, nextFile) && (forall n :: n in kept ==> n in tables && kept[n] == tables[n])
    requires forall l, i :: 0 <= l < |levels| && 0 <= i < |levels[l]| && levels[l][i].number in tables ==> levels[l][i].number in kept
    ensures Stored(levels, kept, nextFile)
  {
  }

  lemma DeleteObsoleteKeeps(s: System, s': System, tables: map<nat, File>, first: nat)
    requires Inv(s) && DeleteObsolete(s, s', tables, first)
    ensures Inv(s')
  {
    var m := s.up.value;
    assert first < |s.disk.logs|;
    DropBacked(m.levels, m.logNumber, s.disk.logs, first, s.history, s.held);
    DropMemtables(s.disk.logs, s.disk.logNumber, m.mem, m.imm, m.logNumber, m.logfile, m.writing, first);
    DropLogs(s.disk.logs, s.disk.logNumber, s.disk.nextFile, first, m.nextFile);
    KeptTables(s.disk.levels, s.disk.tables, s.disk.nextFile, tables);
    KeptTables(m.levels, s.disk.tables, m.nextFile, tables);
  }
}
