/**
 A run of the engine that reaches the version of module Resurrection: a put and a
 deletion of one key with a snapshot between them, a flush, a compaction whose outputs
 are cut between the two versions, and one more flush. The next compaction then makes
 the database read the deleted key again.
 */
module ResurrectionRun {
  import opened Options
  import opened Format
  import opened Version
  import opened Histories
  import opened CompactionInputs
  import opened CompactionWork
  import opened CompactionReads
  import opened DropRules
  import opened Install
  import opened Flush
  import opened Engine
  import opened EngineRuns
  import opened Resurrection

  const NONE: Levels := [[], [], [], [], [], [], []]
  const PUT_TWO: Batch := [OLD_TWO]
  const REST: Batch := [DELETE_TWO, OLD_ONE]
  const PUT_ONE: Batch := [NEW_ONE]

  /** The first memtable, flushed to level 2, and compacted into two files at level 3. */
  const SORTED: seq<Entry> := [OLD_ONE, DELETE_TWO, OLD_TWO]
  const WHOLE := File(5, 2, OLD_ONE.key, OLD_TWO.key, SORTED)
  const FLUSHED: Levels := [[], [], [WHOLE], [], [], [], []]
  const MANUAL := Compaction(2, [WHOLE], [], [], OLD_ONE.key, OLD_TWO.key)
  const SPLIT: Levels := [[], [], [], [LEFT, RIGHT], [], [], []]

  // ----- opening an empty database -----

  lemma Open(s: System) returns (s1: System, s2: System)
    requires Init(s)
    ensures Step(s, s1) && Step(s1, s2)
    ensures s2 == System(Disk(NONE, 3, 0, 4, map[], [Log(3, [])]), Some(Memory(NONE, 3, [], None, 3, 0, 4, None, multiset{}, NotFlushing, NotCompacting)), None, [], [], [], 0, {})
  {
    var r := Recovery([], 3, 4, 0);
    assert EntriesOf([]) == {} && FileEntries([]) == {};
    s1 := s.(disk := s.disk.(tables := WithTables(s.disk.tables, r.made), logs := s.disk.logs + [Log(3, [])]), recovery := Some(r));
    assert BuildRecovery(s, s1, r);
    s2 := s1.(disk := s1.disk.(levels := NONE, logNumber := 3, lastSequence := 0, nextFile := 4),
              up := Some(Memory(NONE, 3, [], None, 3, 0, 4, None, multiset{}, NotFlushing, NotCompacting)), recovery := None, flushed := [], held := []);
    assert InstallRecovery(s1, s2, NONE);
  }

  // ----- writes -----

  /** A batch is logged and inserted; `logs` and `mem` say what that makes of the current log and the memtable. */
  lemma Write(s: System, b: Batch, older: seq<Log>, log: Log, mem: seq<Entry>) returns (s1: System, s2: System)
    requires s.up.Some? && s.up.value.writing.None? && s.disk.logs == older + [log]
    requires forall i :: 0 <= i < |b| ==> b[i].key.sequence == s.up.value.lastSequence + 1 + i
    requires Sorted(mem) && RunEntries(mem) == RunEntries(s.up.value.mem) + BatchEntries(b)
    ensures Step(s, s1) && Step(s1, s2)
    ensures s2 == s.(disk := s.disk.(logs := older + [Log(log.number, log.batches + [b])]),
                     up := Some(s.up.value.(mem := mem, lastSequence := s.up.value.lastSequence + |b|)), history := s.history + [b])
  {
    s1 := s.(disk := s.disk.(logs := older + [Log(log.number, log.batches + [b])]),
             up := Some(s.up.value.(writing := Some(b))), history := s.history + [b]);
    assert s.disk.logs[..|older|] == older && s.disk.logs[|older|] == log;
    assert BeginWrite(s, s1, b);
    s2 := s1.(up := Some(s1.up.value.(mem := mem, writing := None, lastSequence := s1.up.value.lastSequence + |b|)));
    assert FinishWrite(s1, s2, mem);
  }

  // ----- flushes -----

  /** A new log and memtable. */
  lemma Switch(s: System, m: Memory) returns (s1: System)
    requires s.up == Some(m) && m.writing.None? && m.imm.None?
    ensures Step(s, s1)
    ensures s1 == s.(disk := s.disk.(logs := s.disk.logs + [Log(m.nextFile, [])]),
                     up := Some(m.(imm := Some(m.mem), mem := [], logfile := m.nextFile, nextFile := m.nextFile + 1)))
  {
    s1 := s.(disk := s.disk.(logs := s.disk.logs + [Log(m.nextFile, [])]),
             up := Some(m.(imm := Some(m.mem), mem := [], logfile := m.nextFile, nextFile := m.nextFile + 1)));
    assert SwitchMemtable(s, s1);
  }

  /** The immutable memtable becomes a table for a level that fits it. */
  lemma BuildTable(s: System, m: Memory, f: File, level: nat) returns (s1: System)
    requires s.up == Some(m) && Idle(m) && m.imm.Some? && m.imm.value != []
    requires |m.levels| == NUM_LEVELS && Fits(m.levels, level, f)
    requires f.Valid() && f.entries == m.imm.value && f.number == m.nextFile
    ensures Step(s, s1)
    ensures s1 == s.(disk := s.disk.(tables := s.disk.tables[f.number := f]),
                     up := Some(m.(flush := FlushBuilt(level, Some(f)), nextFile := m.nextFile + 1)))
  {
    s1 := s.(disk := s.disk.(tables := s.disk.tables[f.number := f]),
             up := Some(m.(flush := FlushBuilt(level, Some(f)), nextFile := m.nextFile + 1)));
    assert BuildFlush(s, s1, level, Some(f));
  }

  /** The flush is recorded and installed. */
  lemma LogTable(s: System, m: Memory, f: File, level: nat, levels: Levels, batches: seq<Batch>) returns (s1: System, s2: System)
    requires s.up == Some(m) && m.flush == FlushBuilt(level, Some(f)) && s.disk.logs != []
    requires |m.levels| == NUM_LEVELS && level < NUM_LEVELS && Added(m.levels, level, f, levels)
    requires Replay(s.disk.logs[..|s.disk.logs| - 1], m.logNumber) == batches
    ensures Step(s, s1) && Step(s1, s2)
    ensures s2 == s.(
      disk := s.disk.(levels := levels, logNumber := m.logfile, lastSequence := m.lastSequence, nextFile := m.nextFile),
      up := Some(m.(levels := levels, logNumber := m.logfile, imm := None, flush := NotFlushing)),
      flushed := s.held + batches, held := s.held + batches)
  {
    s1 := s.(disk := s.disk.(levels := levels, logNumber := m.logfile, lastSequence := m.lastSequence, nextFile := m.nextFile),
             up := Some(m.(flush := FlushLogged)), flushed := s.held + batches);
    assert LogFlush(s, s1, levels);
    s2 := s1.(up := Some(s1.up.value.(levels := levels, logNumber := m.logfile, imm := None, flush := NotFlushing)), held := s1.flushed);
    assert InstallFlush(s1, s2);
  }

  lemma AddedAt2(levels: Levels, f: File, levels': Levels)
    requires |levels| == NUM_LEVELS && levels[2] == [] && levels' == levels[2 := [f]]
    ensures Added(levels, 2, f, levels')
  {
  }

  // ----- the compaction that splits a user key between two files -----

  lemma ManualIsClosed()
    ensures ClosedSelection(FLUSHED, MANUAL) && Stragglers(FLUSHED, MANUAL) == {} && Inputs(MANUAL) == RunEntries(SORTED)
  {
    assert WHOLE in MANUAL.inputs0 && FLUSHED[2] == [WHOLE] && FLUSHED[3] == [];
    assert FileEntries(MANUAL.inputs1) == {};
    assert FileEntries(MANUAL.inputs0) == RunEntries(SORTED) by {
      assert forall e :: e in RunEntries(SORTED) ==> WHOLE in MANUAL.inputs0 && e in WHOLE.entries;
    }
  }

  /** At snapshot 1 nothing is dropped: the deletion is too new, and so is what would hide the put. */
  lemma NothingIsDropped(base: UserKey -> bool)
    ensures Kept(base, SORTED, 1) == SORTED
  {
    var one, two := SORTED[..1], SORTED[..2];
    assert one == [OLD_ONE] && two == [OLD_ONE, DELETE_TWO] && one[..0] == [] && two[..1] == one;
    assert Kept(base, one, 1) == one;
    assert Kept(base, two, 1) == two;
    assert two + [OLD_TWO] == SORTED;
  }

  lemma HalvesAreValid()
    ensures ValidFiles([LEFT, RIGHT])
  {
  }

  lemma OutputsAreSplit()
    ensures Concat([LEFT, RIGHT]) == SORTED
  {
    var both := [LEFT, RIGHT];
    assert both[..1] == [LEFT] && [LEFT][..0] == [];
    assert Concat([LEFT]) == LEFT.entries;
  }

  lemma SplitIsInstalled()
    ensures Installed(FLUSHED, MANUAL, [LEFT, RIGHT], SPLIT)
  {
    assert WHOLE in MANUAL.inputs0;
    assert BySmallest(LEFT, RIGHT);
  }

  lemma BuildSplit(s: System, m: Memory) returns (s1: System)
    requires s.up == Some(m) && Idle(m) && m.levels == FLUSHED && m.snapshots == multiset{1} && m.nextFile == 6
    ensures Step(s, s1)
    ensures s1 == s.(disk := s.disk.(tables := s.disk.tables[6 := LEFT][7 := RIGHT]),
                     up := Some(m.(compacting := CompactionBuilt(MANUAL, [LEFT, RIGHT], 1, {}), nextFile := 8)))
  {
    s1 := s.(disk := s.disk.(tables := WithTables(s.disk.tables, [LEFT, RIGHT])),
             up := Some(m.(compacting := CompactionBuilt(MANUAL, [LEFT, RIGHT], 1, {}), nextFile := 8)));
    SplitTables(s.disk.tables);
    IsSplit(s, m, s1);
  }

  lemma IsSplit(s: System, m: Memory, s1: System)
    requires s.up == Some(m) && Idle(m) && m.levels == FLUSHED && m.snapshots == multiset{1} && m.nextFile == 6
    requires s1 == s.(disk := s.disk.(tables := WithTables(s.disk.tables, [LEFT, RIGHT])),
                      up := Some(m.(compacting := CompactionBuilt(MANUAL, [LEFT, RIGHT], 1, {}), nextFile := 8)))
    ensures BuildCompaction(s, s1, MANUAL, SORTED, [LEFT, RIGHT], 1)
  {
    ManualIsClosed();
    MergedIsKept();
    NothingResurrects();
  }

  lemma MergedIsKept()
    ensures Sorted(SORTED) && RunEntries(SORTED) == Inputs(MANUAL)
    ensures ValidFiles([LEFT, RIGHT]) && Concat([LEFT, RIGHT]) == Kept(Base(FLUSHED, 2), SORTED, 1)
  {
    ManualIsClosed();
    NothingIsDropped(Base(FLUSHED, 2));
    OutputsAreSplit();
    HalvesAreValid();
  }

  lemma NothingResurrects()
    ensures RisenKeys(FLUSHED, MANUAL, 1) == {}
  {
    ManualIsClosed();
    NothingSharedIsSafe({} + Rest(FLUSHED, MANUAL), {}, Inputs(MANUAL), Base(FLUSHED, 2), 1);
  }

  lemma SplitTables(tables: map<nat, File>)
    ensures WithTables(tables, [LEFT, RIGHT]) == tables[6 := LEFT][7 := RIGHT]
  {
    var both := [LEFT, RIGHT];
    assert both[..1] == [LEFT] && [LEFT][..0] == [];
    assert WithTables(tables, [LEFT]) == tables[6 := LEFT];
  }

  lemma LogSplit(s: System, m: Memory) returns (s1: System, s2: System)
    requires s.up == Some(m) && m.flush.NotFlushing? && m.compacting == CompactionBuilt(MANUAL, [LEFT, RIGHT], 1, {}) && m.levels == FLUSHED && s.horizon == 0
    ensures Step(s, s1) && Step(s1, s2)
    ensures s2 == s.(disk := s.disk.(levels := SPLIT, lastSequence := m.lastSequence, nextFile := m.nextFile),
                     up := Some(m.(levels := SPLIT, compacting := NotCompacting)), held := s.flushed, horizon := 1)
  {
    SplitIsInstalled();
    s1 := s.(disk := s.disk.(levels := SPLIT, lastSequence := m.lastSequence, nextFile := m.nextFile),
             up := Some(m.(compacting := CompactionLogged)), horizon := 1);
    assert LogCompaction(s, s1, SPLIT);
    s2 := s1.(up := Some(s1.up.value.(levels := SPLIT, compacting := NotCompacting)), held := s1.flushed);
    assert InstallCompaction(s1, s2);
  }

  lemma Snapshots(s: System, m: Memory) returns (taken: System)
    requires s.up == Some(m)
    ensures Step(s, taken) && taken == s.(up := Some(m.(snapshots := m.snapshots + multiset{m.lastSequence})))
  {
    taken := s.(up := Some(m.(snapshots := m.snapshots + multiset{m.lastSequence})));
    assert TakeSnapshot(s, taken);
  }

  lemma Release(s: System, m: Memory) returns (released: System)
    requires s.up == Some(m) && m.snapshots == multiset{1}
    ensures Step(s, released) && released == s.(up := Some(m.(snapshots := multiset{})))
  {
    released := s.(up := Some(m.(snapshots := m.snapshots - multiset{1})));
    assert ReleaseSnapshot(s, released, 1);
  }

  // ----- the run -----

  const LOGS: seq<Log> := [Log(3, [PUT_TWO, REST]), Log(4, [])]
  const TWO: seq<Batch> := [PUT_TWO, REST]
  const THREE: seq<Batch> := [PUT_TWO, REST, PUT_ONE]

  const OPENED := System(
    Disk(NONE, 3, 0, 4, map[], [Log(3, [])]),
    Some(Memory(NONE, 3, [], None, 3, 0, 4, None, multiset{}, NotFlushing, NotCompacting)), None, [], [], [], 0, {})
  const HELD := System(
    Disk(NONE, 3, 0, 4, map[], [Log(3, [PUT_TWO])]),
    Some(Memory(NONE, 3, [OLD_TWO], None, 3, 1, 4, None, multiset{1}, NotFlushing, NotCompacting)), None, [PUT_TWO], [], [], 0, {})
  const WRITTEN := System(
    Disk(NONE, 3, 0, 4, map[], [Log(3, TWO)]),
    Some(Memory(NONE, 3, SORTED, None, 3, 3, 4, None, multiset{1}, NotFlushing, NotCompacting)), None, TWO, [], [], 0, {})
  const TABLED := System(
    Disk(NONE, 3, 0, 4, map[5 := WHOLE], LOGS),
    Some(Memory(NONE, 3, [], Some(SORTED), 4, 3, 6, None, multiset{1}, FlushBuilt(2, Some(WHOLE)), NotCompacting)), None, TWO, [], [], 0, {})
  const STORED := System(
    Disk(FLUSHED, 4, 3, 6, map[5 := WHOLE], LOGS),
    Some(Memory(FLUSHED, 4, [], None, 4, 3, 6, None, multiset{1}, NotFlushing, NotCompacting)), None, TWO, TWO, TWO, 0, {})
  const PARTED := System(
    Disk(SPLIT, 4, 3, 8, map[5 := WHOLE, 6 := LEFT, 7 := RIGHT], LOGS),
    Some(Memory(SPLIT, 4, [], None, 4, 3, 8, None, multiset{}, NotFlushing, NotCompacting)), None, TWO, TWO, TWO, 1, {})
  const FRONT: seq<Log> := [Log(3, TWO), Log(4, [PUT_ONE])]
  const GROWN := System(
    Disk(SPLIT, 4, 3, 8, map[5 := WHOLE, 6 := LEFT, 7 := RIGHT], FRONT),
    Some(Memory(SPLIT, 4, [NEW_ONE], None, 4, 4, 8, None, multiset{}, NotFlushing, NotCompacting)), None, THREE, TWO, TWO, 1, {})
  const BUILT := System(
    Disk(SPLIT, 4, 3, 8, map[5 := WHOLE, 6 := LEFT, 7 := RIGHT, 9 := TOP], [Log(3, TWO), Log(4, [PUT_ONE]), Log(8, [])]),
    Some(Memory(SPLIT, 4, [], Some([NEW_ONE]), 8, 4, 10, None, multiset{}, FlushBuilt(2, Some(TOP)), NotCompacting)), None, THREE, TWO, TWO, 1, {})
  const REACHED := System(
    Disk(LEVELS, 8, 4, 10, map[5 := WHOLE, 6 := LEFT, 7 := RIGHT, 9 := TOP], [Log(3, TWO), Log(4, [PUT_ONE]), Log(8, [])]),
    Some(Memory(LEVELS, 8, [], None, 8, 4, 10, None, multiset{}, NotFlushing, NotCompacting)), None, THREE, THREE, THREE, 1, {})

  ghost predicate Reaches(trace: seq<System>, s: System) {
    Run(trace) && trace[|trace| - 1] == s
  }

  lemma Then(trace: seq<System>, s: System, s1: System) returns (longer: seq<System>)
    requires Reaches(trace, s) && Step(s, s1)
    ensures Reaches(longer, s1)
  {
    RunExtends(trace, s1);
    longer := trace + [s1];
  }

  lemma ReachOpened() returns (trace: seq<System>)
    ensures Reaches(trace, OPENED)
  {
    var s0 := System(Disk(NONE, 0, 0, 2, map[], []), None, None, [], [], [], 0, {});
    trace := [s0];
    var s1, s2 := Open(s0);
    trace := Then(trace, s0, s1);
    trace := Then(trace, s1, s2);
  }

  lemma ReachHeld(start: seq<System>) returns (trace: seq<System>)
    requires Reaches(start, OPENED)
    ensures Reaches(trace, HELD)
  {
    assert RunEntries([OLD_TWO]) == RunEntries([]) + BatchEntries(PUT_TWO);
    assert [Log(3, [])] == [] + [Log(3, [])];
    var s1, s2 := Write(OPENED, PUT_TWO, [], Log(3, []), [OLD_TWO]);
    trace := Then(start, OPENED, s1);
    trace := Then(trace, s1, s2);
    var s3 := Snapshots(s2, s2.up.value);
    trace := Then(trace, s2, s3);
    assert [] + [PUT_TWO] == [PUT_TWO] && [] + [Log(3, [PUT_TWO])] == [Log(3, [PUT_TWO])];
    assert multiset{} + multiset{1} == multiset{1};
    assert s3 == HELD;
  }

  lemma ReachWritten(start: seq<System>) returns (trace: seq<System>)
    requires Reaches(start, HELD)
    ensures Reaches(trace, WRITTEN)
  {
    assert RunEntries(SORTED) == RunEntries([OLD_TWO]) + BatchEntries(REST);
    assert [Log(3, [PUT_TWO])] == [] + [Log(3, [PUT_TWO])];
    var s1, s2 := Write(HELD, REST, [], Log(3, [PUT_TWO]), SORTED);
    trace := Then(start, HELD, s1);
    trace := Then(trace, s1, s2);
    assert [PUT_TWO] + [REST] == TWO && [] + [Log(3, TWO)] == [Log(3, TWO)];
    assert s2 == WRITTEN;
  }

  lemma ReachTabled(start: seq<System>) returns (trace: seq<System>)
    requires Reaches(start, WRITTEN)
    ensures Reaches(trace, TABLED)
  {
    var s1 := Switch(WRITTEN, WRITTEN.up.value);
    trace := Then(start, WRITTEN, s1);
    var s2 := BuildTable(s1, s1.up.value, WHOLE, 2);
    trace := Then(trace, s1, s2);
    assert [Log(3, TWO)] + [Log(4, [])] == LOGS;
    assert s2 == TABLED;
  }

  lemma ReachStored(start: seq<System>) returns (trace: seq<System>)
    requires Reaches(start, TABLED)
    ensures Reaches(trace, STORED)
  {
    FirstReplay();
    assert LOGS[..1] == [Log(3, TWO)];
    AddedAt2(NONE, WHOLE, FLUSHED);
    var s1, s2 := LogTable(TABLED, TABLED.up.value, WHOLE, 2, FLUSHED, TWO);
    trace := Then(start, TABLED, s1);
    trace := Then(trace, s1, s2);
    assert [] + TWO == TWO;
    assert s2 == STORED;
  }

  lemma FirstReplay()
    ensures Replay([Log(3, TWO)], 3) == TWO
  {
    assert [Log(3, TWO)][..0] == [];
    assert Replay([], 3) + TWO == TWO;
  }

  lemma ReachParted(start: seq<System>) returns (trace: seq<System>)
    requires Reaches(start, STORED)
    ensures Reaches(trace, PARTED)
  {
    var s1 := BuildSplit(STORED, STORED.up.value);
    trace := Then(start, STORED, s1);
    var s2, s3 := LogSplit(s1, s1.up.value);
    trace := Then(trace, s1, s2);
    trace := Then(trace, s2, s3);
    var s4 := Release(s3, s3.up.value);
    trace := Then(trace, s3, s4);
    assert s4 == PARTED;
  }

  lemma ReachGrown(start: seq<System>) returns (trace: seq<System>)
    requires Reaches(start, PARTED)
    ensures Reaches(trace, GROWN)
  {
    assert LOGS == [Log(3, TWO)] + [Log(4, [])];
    assert RunEntries([NEW_ONE]) == RunEntries([]) + BatchEntries(PUT_ONE);
    var s1, s2 := Write(PARTED, PUT_ONE, [Log(3, TWO)], Log(4, []), [NEW_ONE]);
    trace := Then(start, PARTED, s1);
    trace := Then(trace, s1, s2);
    assert [] + [PUT_ONE] == [PUT_ONE] && [Log(3, TWO)] + [Log(4, [PUT_ONE])] == FRONT && TWO + [PUT_ONE] == THREE;
    assert s2 == GROWN;
  }

  lemma ReachBuilt(start: seq<System>) returns (trace: seq<System>)
    requires Reaches(start, GROWN)
    ensures Reaches(trace, BUILT)
  {
    var s1 := Switch(GROWN, GROWN.up.value);
    trace := Then(start, GROWN, s1);
    var s2 := BuildTable(s1, s1.up.value, TOP, 2);
    trace := Then(trace, s1, s2);
    assert FRONT + [Log(8, [])] == BUILT.disk.logs;
    assert s2 == BUILT;
  }

  lemma ReachLevels(start: seq<System>) returns (trace: seq<System>)
    requires Reaches(start, BUILT)
    ensures Reaches(trace, REACHED)
  {
    var s := LogTop();
    trace := Then(start, BUILT, s);
    trace := Then(trace, s, REACHED);
  }

  lemma LogTop() returns (s: System)
    ensures Step(BUILT, s) && Step(s, REACHED)
  {
    LastReplay();
    assert BUILT.disk.logs[..2] == FRONT;
    var last;
    AddedAt2(SPLIT, TOP, LEVELS);
    s, last := LogTable(BUILT, BUILT.up.value, TOP, 2, LEVELS, [PUT_ONE]);
    assert TWO + [PUT_ONE] == THREE;
    assert last == REACHED;
  }

  lemma LastReplay()
    ensures Replay(FRONT, 4) == [PUT_ONE]
  {
    assert FRONT[..1] == [Log(3, TWO)] && [Log(3, TWO)][..0] == [];
    assert Replay([Log(3, TWO)], 4) == [];
  }

  /**
   A database reaches the version in which the next compaction, at the last sequence
   number and with no snapshot held, brings a deleted key back.
   */
  lemma VersionIsReached() returns (trace: seq<System>, m: Memory)
    ensures Run(trace) && trace[|trace| - 1].up == Some(m)
    ensures m.levels == LEVELS && Idle(m) && SmallestSnapshot(m, SNAP) && m.lastSequence == SNAP
    ensures forall c :: ClosedSelection(m.levels, c) && c.level == 2 ==> ResurrectsKey({}, m.levels, c, SNAP, 2.0)
  {
    trace := ReachVersion();
    m := REACHED.up.value;
    forall c | ClosedSelection(LEVELS, c) && c.level == 2 ensures ResurrectsKey({}, LEVELS, c, SNAP, 2.0) {
      CompactionBringsBackADeletedKey(c);
    }
  }

  lemma ReachVersion() returns (trace: seq<System>)
    ensures Reaches(trace, REACHED)
  {
    trace := ReachOpened();
    trace := ReachHeld(trace);
    trace := ReachWritten(trace);
    trace := ReachTabled(trace);
    trace := ReachStored(trace);
    trace := ReachParted(trace);
    trace := ReachGrown(trace);
    trace := ReachBuilt(trace);
    trace := ReachLevels(trace);
  }

  // ----- the compaction that brings the deleted key back -----

  const BAD := Compaction(2, [TOP], [LEFT], [], NEW_ONE.key, NEW_ONE.key)
  const MERGED: seq<Entry> := [NEW_ONE, OLD_ONE, DELETE_TWO]
  const OUTPUT := File(10, 1, NEW_ONE.key, NEW_ONE.key, [NEW_ONE])
  const LOST: Levels := [[], [], [], [OUTPUT, RIGHT], [], [], []]

  lemma BadIsClosed()
    ensures ClosedSelection(LEVELS, BAD)
  {
    LeftIsSelected();
    assert LEVELS[2] == [TOP] && LEVELS[3] == [LEFT, RIGHT] && TOP in BAD.inputs0 && LEFT in BAD.inputs1;
    assert Overlaps(LEFT, At(1.0), At(1.0)) && !Overlaps(RIGHT, At(1.0), At(1.0));
  }

  /** An older version of a key at the smallest snapshot, and a deletion with nothing below, are dropped. */
  lemma OnlyTheNewPutIsKept()
    ensures Kept(Base(LEVELS, 2), MERGED, SNAP) == [NEW_ONE]
  {
    var base, one, two := Base(LEVELS, 2), MERGED[..1], MERGED[..2];
    assert one == [NEW_ONE] && two == [NEW_ONE, OLD_ONE] && one[..0] == [] && two[..1] == one;
    assert Kept(base, one, SNAP) == one;
    assert DropAt(base, two, 1, SNAP);
    assert Kept(base, two, SNAP) == one;
    NothingBelow();
    assert DropAt(base, MERGED, 2, SNAP);
  }

  lemma OneOutput()
    ensures ValidFiles([OUTPUT]) && Concat([OUTPUT]) == [NEW_ONE]
    ensures forall tables :: WithTables(tables, [OUTPUT]) == tables[10 := OUTPUT]
  {
    assert [OUTPUT][..0] == [];
    assert Concat([OUTPUT]) == [] + OUTPUT.entries;
  }

  lemma MergedIsSorted()
    ensures Sorted(MERGED)
  {
  }

  lemma MergedInputs()
    ensures RunEntries(MERGED) == Inputs(BAD)
  {
    BadIsClosed();
    Sets(BAD);
    assert RunEntries(MERGED) == {NEW_ONE, OLD_ONE, DELETE_TWO};
  }

  lemma LostIsInstalled()
    ensures Installed(LEVELS, BAD, [OUTPUT], LOST)
  {
    assert TOP in BAD.inputs0 && LEFT in BAD.inputs1 && RIGHT !in BAD.inputs1;
    assert BySmallest(OUTPUT, RIGHT);
  }

  const TABLES: map<nat, File> := map[5 := WHOLE, 6 := LEFT, 7 := RIGHT, 9 := TOP, 10 := OUTPUT]

  ghost const RISEN: set<UserKey> := RisenKeys(LEVELS, BAD, SNAP)
  ghost const MERGING := System(
    REACHED.disk.(tables := TABLES),
    Some(Memory(LEVELS, 8, [], None, 8, 4, 11, None, multiset{}, NotFlushing, CompactionBuilt(BAD, [OUTPUT], SNAP, RISEN))), None, THREE, THREE, THREE, 1, {})
  ghost const RECORDED := System(
    REACHED.disk.(tables := TABLES, levels := LOST, lastSequence := 4, nextFile := 11),
    Some(Memory(LEVELS, 8, [], None, 8, 4, 11, None, multiset{}, NotFlushing, CompactionLogged)), None, THREE, THREE, THREE, SNAP, RISEN)
  ghost const WRONG := System(
    RECORDED.disk,
    Some(Memory(LOST, 8, [], None, 8, 4, 11, None, multiset{}, NotFlushing, NotCompacting)), None, THREE, THREE, THREE, SNAP, RISEN)

  lemma MergeStep()
    ensures Step(REACHED, MERGING)
  {
    BadIsClosed();
    MergedIsSorted();
    MergedInputs();
    OnlyTheNewPutIsKept();
    OneOutput();
    assert REACHED.disk.tables[10 := OUTPUT] == TABLES;
    assert BuildCompaction(REACHED, MERGING, BAD, MERGED, [OUTPUT], SNAP);
  }

  lemma RecordSteps()
    ensures Step(MERGING, RECORDED) && Step(RECORDED, WRONG)
  {
    LostIsInstalled();
    assert {} + RISEN == RISEN;
    assert LogCompaction(MERGING, RECORDED, LOST);
    assert InstallCompaction(RECORDED, WRONG);
  }

  lemma KeyTwoIsBack()
    ensures Readable(WRONG.up.value) == {NEW_ONE, OLD_TWO}
    ensures Visible(Readable(WRONG.up.value), 2.0, SNAP) == Found([2])
  {
    var m := WRONG.up.value;
    assert NEW_ONE in OUTPUT.entries && OLD_TWO in RIGHT.entries && OUTPUT in LOST[3] && RIGHT in LOST[3];
    assert forall l, f :: 0 <= l < |LOST| && f in LOST[l] ==> f == OUTPUT || f == RIGHT;
    assert Contents(LOST) == {NEW_ONE, OLD_TWO};
    assert RunEntries([]) == {};
    assert Candidate(Readable(m), 2.0, SNAP, OLD_TWO);
    NewestDecides(Readable(m), 2.0, SNAP, OLD_TWO);
  }

  lemma KeyTwoWasDeleted()
    ensures Visible(EntriesOf(THREE), 2.0, SNAP) == NotFound
  {
    var all := EntriesOf(THREE);
    assert PUT_TWO in THREE && REST in THREE && PUT_ONE in THREE;
    assert forall b :: b in THREE ==> b == PUT_TWO || b == REST || b == PUT_ONE;
    assert OLD_TWO in PUT_TWO && DELETE_TWO in REST && OLD_ONE in REST && NEW_ONE in PUT_ONE;
    assert all == {NEW_ONE, OLD_ONE, DELETE_TWO, OLD_TWO};
    NewestOfAll(all);
    NewestDecides(all, 2.0, SNAP, DELETE_TWO);
  }

  lemma KeyTwoHasRisen()
    ensures 2.0 in RISEN
  {
    BadIsClosed();
    CompactionBringsBackADeletedKey(BAD);
    RisenAreResurrected(LEVELS, BAD, SNAP, 2.0);
  }

  /**
   The run goes on with that compaction and ends in a state whose read at the last sequence
   number finds a key that the history says is deleted.
   */
  lemma ADeletedKeyIsReadAgain() returns (trace: seq<System>, m: Memory)
    ensures Run(trace) && trace[|trace| - 1].up == Some(m) && Readers(m, SNAP)
    ensures Visible(Readable(m), 2.0, SNAP) == Found([2])
    ensures Visible(EntriesOf(trace[|trace| - 1].history), 2.0, SNAP) == NotFound
    ensures 2.0 in trace[|trace| - 1].risen
  {
    trace := ReachVersion();
    MergeStep();
    RecordSteps();
    trace := Then(trace, REACHED, MERGING);
    trace := Then(trace, MERGING, RECORDED);
    trace := Then(trace, RECORDED, WRONG);
    m := WRONG.up.value;
    KeyTwoIsBack();
    KeyTwoWasDeleted();
    KeyTwoHasRisen();
  }
}
