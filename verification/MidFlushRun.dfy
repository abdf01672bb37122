/**
 A run of the engine in which the code flushes a memtable into the gap between two inputs
 of a compaction, under the file that the compaction writes: two files on each of two
 levels, a manual compaction of both pairs into one file, and a key between them.
 */
module MidFlushRun {
  import opened Options
  import opened Format
  import opened Version
  import opened Histories
  import opened CompactionInputs
  import opened CompactionWork
  import opened CompactionReads
  import opened DropRules
  import opened Install
  import opened Flush
  import opened Engine
  import opened EngineSteps
  import opened EngineBackground
  import opened EngineRuns
  import opened MidFlush
  import Runs = ResurrectionRun

  const FIRST := Entry(InternalKey(1.0, 1, Value), [1])
  const SECOND := Entry(InternalKey(3.0, 2, Value), [3])
  const THIRD := Entry(InternalKey(1.0, 3, Value), [1])
  const FOURTH := Entry(InternalKey(3.0, 4, Value), [3])
  const BETWEEN := Entry(InternalKey(2.0, 5, Value), [2])

  function Single(number: nat, e: Entry): File { File(number, 1, e.key, e.key, [e]) }

  const X := Single(5, FIRST)
  const Y := Single(7, SECOND)
  const A := Single(9, THIRD)
  const B := Single(11, FOURTH)
  const OUTPUT := File(12, 1, THIRD.key, FOURTH.key, [THIRD, FOURTH])
  const GAP := Single(14, BETWEEN)

  const LEVELS: Levels := [[], [A, B], [X, Y], [], [], [], []]
  const BOTH := Compaction(1, [A, B], [X, Y], [], THIRD.key, FOURTH.key)
  const MERGED: seq<Entry> := [THIRD, FIRST, FOURTH, SECOND]

  // ----- the compaction and the flush -----

  lemma PairIsValid(l: nat, f: File, g: File)
    requires l > 0 && f.Valid() && g.Valid() && Less(f.largest, g.smallest)
    ensures ValidLevel(l, [f, g])
  {
  }

  lemma SinglesAreNewer(m: nat, d: Entry, n: nat, e: Entry)
    requires d.key.user == e.key.user ==> Tag(d.key) > Tag(e.key)
    ensures Newer(Single(m, d), Single(n, e))
  {
  }

  lemma PairIsNewer(f: File, g: File, h: File, k: File)
    requires Newer(f, h) && Newer(f, k) && Newer(g, h) && Newer(g, k)
    ensures AllNewer([f, g], [h, k])
  {
  }

  lemma SingleIsValid(n: nat, e: Entry)
    ensures Single(n, e).Valid()
  {
  }

  lemma PairsAreValid()
    ensures ValidLevel(1, [A, B]) && ValidLevel(2, [X, Y])
  {
    SingleIsValid(9, THIRD);
    SingleIsValid(11, FOURTH);
    SingleIsValid(5, FIRST);
    SingleIsValid(7, SECOND);
    PairIsValid(1, A, B);
    PairIsValid(2, X, Y);
  }

  lemma UpperPairIsNewer()
    ensures AllNewer([A, B], [X, Y])
  {
    SinglesAreNewer(9, THIRD, 5, FIRST);
    SinglesAreNewer(9, THIRD, 7, SECOND);
    SinglesAreNewer(11, FOURTH, 5, FIRST);
    SinglesAreNewer(11, FOURTH, 7, SECOND);
    PairIsNewer(A, B, X, Y);
  }

  lemma VersionIsValid()
    ensures ValidLevels(LEVELS)
  {
    PairsAreValid();
    UpperPairIsNewer();
    forall l | 0 <= l < NUM_LEVELS ensures ValidLevel(l, LEVELS[l]) {}
    forall l, m | 0 <= l < m < NUM_LEVELS ensures AllNewer(LEVELS[l], LEVELS[m]) {
      assert (l == 1 && m == 2) || LEVELS[l] == [] || LEVELS[m] == [];
    }
  }

  lemma PairIsSelected()
    ensures Select([X, Y], At(1.0), At(3.0)) == [X, Y]
  {
    assert [X, Y][..1] == [X] && [X][..0] == [];
    assert Select([X], At(1.0), At(3.0)) == [X];
  }

  lemma BothAreClosed()
    ensures ClosedSelection(LEVELS, BOTH)
  {
    PairIsSelected();
    assert A in BOTH.inputs0 && B in BOTH.inputs0 && X in BOTH.inputs1 && Y in BOTH.inputs1;
    assert LEVELS[1] == BOTH.inputs0 && LEVELS[2] == BOTH.inputs1;
  }

  /** A manual compaction of the whole level, unless its size limit is one file, takes both. */
  method ManualCompaction(limits: Limits) returns (r: OptionalCompaction)
    requires limits.maxFileSize >= 2
    ensures r.SomeCompaction? && ClosedSelection(LEVELS, r.compaction) && r.compaction.level == 1
    ensures A in r.compaction.inputs0 && B in r.compaction.inputs0
  {
    VersionIsValid();
    BothAreEnough();
    r := CompactRange(LEVELS, 1, Unbounded, Unbounded, limits);
    assert A in LEVELS[1] && Overlaps(A, Unbounded, Unbounded);
  }

  lemma BothAreEnough()
    ensures Select([A, B], Unbounded, Unbounded) == [A, B]
    ensures TotalFileSize([A, B][..0]) == 0 && TotalFileSize([A, B][..1]) == 1
  {
    assert [A, B][..1] == [A] && [A][..0] == [] && [A, B][..0] == [];
    assert Select([A], Unbounded, Unbounded) == [A];
    assert TotalFileSize([A]) == 1;
  }

  /** The level that the code picks for the key between them is the output level. */
  method PickedLevel(limits: Limits) returns (level: nat)
    ensures level == BOTH.level + 1
  {
    VersionIsValid();
    level := PickLevelForMemTableOutput(LEVELS, 2.0, 2.0, limits);
    assert Select([], At(2.0), At(2.0)) == [] && TotalFileSize([]) == 0;
    SinksToTwo(limits);
  }

  lemma SinksToTwo(limits: Limits)
    ensures NoneOverlaps(LEVELS[0], 2.0, 2.0) && Sinks(LEVELS, 0, 2.0, 2.0, limits) && Sinks(LEVELS, 1, 2.0, 2.0, limits)
  {
    assert [X, Y][..1] == [X] && [X][..0] == [];
    assert Select([X], At(2.0), At(2.0)) == [];
    assert Select([X, Y], At(2.0), At(2.0)) == [];
    assert Select([], At(2.0), At(2.0)) == [] && TotalFileSize([]) == 0;
  }

  // ----- the run -----

  /** Between flushes: everything is in the version, and the log is empty. */
  ghost predicate Quiet(s: System, m: Memory) {
    && s.up == Some(m) && s.recovery.None? && m.writing.None? && m.mem == [] && m.imm.None? && Idle(m) && m.snapshots == multiset{}
    && |m.levels| == NUM_LEVELS && LogsAscend(s.disk.logs) && LogsBelow(s.disk.logs, m.nextFile)
    && s.disk.logs != [] && s.disk.logs[|s.disk.logs| - 1] == Log(m.logNumber, []) && m.logfile == m.logNumber
  }

  /** One put, written and flushed: the steps, and what they leave. */
  lemma FlushOne(trace: seq<System>, s: System, m: Memory, e: Entry, level: nat, levels: Levels) returns (longer: seq<System>, s': System, m': Memory)
    requires Runs.Reaches(trace, s) && Quiet(s, m) && e.key.sequence == m.lastSequence + 1
    requires level < NUM_LEVELS && Fits(m.levels, level, Single(m.nextFile + 1, e)) && Added(m.levels, level, Single(m.nextFile + 1, e), levels)
    ensures Runs.Reaches(longer, s') && Quiet(s', m') && m'.levels == levels
    ensures m'.lastSequence == m.lastSequence + 1 && m'.nextFile == m.nextFile + 2
  {
    var older, log, f := s.disk.logs[..|s.disk.logs| - 1], Log(m.logNumber, []), Single(m.nextFile + 1, e);
    assert s.disk.logs == older + [log];
    var s1, s2 := WriteOne(s, m, e, older, m.logNumber);
    var s3 := Runs.Switch(s2, s2.up.value);
    var s4 := Runs.BuildTable(s3, s3.up.value, f, level);
    ReplayOne(older, log, [e], m.nextFile);
    assert s4.disk.logs == older + [Log(m.logNumber, [[e]])] + [Log(m.nextFile, [])];
    var s5, s6 := Runs.LogTable(s4, s4.up.value, f, level, levels, [[e]]);
    longer := Runs.Then(trace, s, s1);
    longer := Runs.Then(longer, s1, s2);
    longer := Runs.Then(longer, s2, s3);
    longer := Runs.Then(longer, s3, s4);
    longer := Runs.Then(longer, s4, s5);
    longer := Runs.Then(longer, s5, s6);
    s', m' := s6, s6.up.value;
  }

  lemma WriteOne(s: System, m: Memory, e: Entry, older: seq<Log>, number: nat) returns (s1: System, s2: System)
    requires s.up == Some(m) && m.writing.None? && m.mem == [] && e.key.sequence == m.lastSequence + 1
    requires s.disk.logs == older + [Log(number, [])]
    ensures Step(s, s1) && Step(s1, s2)
    ensures s2 == s.(disk := s.disk.(logs := older + [Log(number, [[e]])]),
                     up := Some(m.(mem := [e], lastSequence := m.lastSequence + 1)), history := s.history + [[e]])
  {
    OneEntry(e);
    var log: Log := Log(number, []);
    assert log.batches + [[e]] == [[e]];
    s1, s2 := Runs.Write(s, [e], older, log, [e]);
  }

  lemma OneEntry(e: Entry)
    ensures Sorted([e]) && RunEntries([e]) == RunEntries([]) + BatchEntries([e])
  {
  }

  lemma ReplayOne(older: seq<Log>, log: Log, b: Batch, next: nat)
    requires LogsAscend(older + [log]) && LogsBelow(older + [log], next) && log.batches == []
    ensures var logs := older + [Log(log.number, [b])] + [Log(next, [])];
      LogsAscend(logs) && LogsBelow(logs, next + 1) && Replay(logs[..|logs| - 1], log.number) == [b]
  {
    var logs := older + [Log(log.number, [b])] + [Log(next, [])];
    assert forall i :: 0 <= i < |older| ==> (older + [log])[i] == older[i] && logs[i] == older[i];
    assert (older + [log])[|older|] == log;
    LastLogReplay(older + [log]);
    assert (older + [log])[..|older|] == older;
    ReplaySnoc(older, Log(log.number, [b]), log.number);
    assert logs[..|logs| - 1] == older + [Log(log.number, [b])];
  }

  const ONE_PAIR: Levels := [[], [], [X, Y], [], [], [], []]

  lemma AddedPairs()
    ensures Added(Runs.NONE, 2, X, Runs.NONE[2 := [X]]) && Added(Runs.NONE[2 := [X]], 2, Y, ONE_PAIR)
    ensures Added(ONE_PAIR, 1, A, ONE_PAIR[1 := [A]]) && Added(ONE_PAIR[1 := [A]], 1, B, LEVELS)
  {
    assert BySmallest(X, Y) && BySmallest(A, B);
  }

  lemma PairsFit()
    ensures Fits(Runs.NONE, 2, X) && Fits(Runs.NONE[2 := [X]], 2, Y)
    ensures Fits(ONE_PAIR, 1, A) && Fits(ONE_PAIR[1 := [A]], 1, B)
  {
  }

  lemma ReachVersion() returns (trace: seq<System>, s: System, m: Memory)
    ensures Runs.Reaches(trace, s) && Quiet(s, m) && m.levels == LEVELS && m.lastSequence == 4 && m.nextFile == 12
  {
    trace := Runs.ReachOpened();
    s, m := Runs.OPENED, Runs.OPENED.up.value;
    PairsFit();
    AddedPairs();
    trace, s, m := FlushOne(trace, s, m, FIRST, 2, Runs.NONE[2 := [X]]);
    trace, s, m := FlushOne(trace, s, m, SECOND, 2, ONE_PAIR);
    trace, s, m := FlushOne(trace, s, m, THIRD, 1, ONE_PAIR[1 := [A]]);
    trace, s, m := FlushOne(trace, s, m, FOURTH, 1, LEVELS);
  }

  // ----- the compaction's output, and the put that comes in between -----

  lemma NewPutsAreKept()
    ensures Kept(Base(LEVELS, 1), MERGED, 4) == [THIRD, FOURTH]
  {
    KeptPairs(Base(LEVELS, 1), THIRD, FIRST, FOURTH, SECOND, 4);
  }

  lemma KeptPairs(base: UserKey -> bool, a: Entry, b: Entry, c: Entry, d: Entry, snap: nat)
    requires a.key.user == b.key.user && b.key.sequence < a.key.sequence <= snap && a.key.kind.Value?
    requires c.key.user == d.key.user && d.key.sequence < c.key.sequence <= snap && c.key.kind.Value?
    requires a.key.user != c.key.user
    ensures Kept(base, [a, b, c, d], snap) == [a, c]
  {
    KeptPair(base, [], a, b, snap);
    assert [] + [a] == [a] && [a] + [b] == [a, b];
    KeptPair(base, [a, b], c, d, snap);
    assert [a, b] + [c] + [d] == [a, b, c, d] && [a] + [c] == [a, c];
  }

  /** Two puts of one key, both at or below the smallest snapshot: the older goes. */
  lemma KeptPair(base: UserKey -> bool, front: seq<Entry>, d: Entry, e: Entry, snap: nat)
    requires d.key.user == e.key.user && e.key.sequence < d.key.sequence <= snap && d.key.kind.Value?
    requires forall i :: 0 <= i < |front| ==> front[i].key.user != d.key.user
    ensures Kept(base, front + [d] + [e], snap) == Kept(base, front, snap) + [d]
  {
    var one := front + [d];
    var two := one + [e];
    assert one[..|front|] == front && two[..|one|] == one;
    assert !DropAt(base, one, |front|, snap);
    assert DropAt(base, two, |one|, snap);
  }

  lemma OneOutput()
    ensures ValidFiles([OUTPUT]) && Concat([OUTPUT]) == [THIRD, FOURTH]
  {
    assert [OUTPUT][..0] == [];
    assert Concat([OUTPUT]) == [] + OUTPUT.entries;
  }

  lemma MergedInputs()
    ensures RunEntries(MERGED) == Inputs(BOTH)
  {
    assert A in BOTH.inputs0 && B in BOTH.inputs0 && X in BOTH.inputs1 && Y in BOTH.inputs1;
    assert THIRD in A.entries && FOURTH in B.entries && FIRST in X.entries && SECOND in Y.entries;
    assert FileEntries(BOTH.inputs0) == {THIRD, FOURTH};
    assert FileEntries(BOTH.inputs1) == {FIRST, SECOND};
    assert RunEntries(MERGED) == {THIRD, FIRST, FOURTH, SECOND};
  }

  lemma MergedIsSorted()
    ensures Sorted(MERGED)
  {
  }

  lemma MergeStep(s: System, m: Memory) returns (s': System)
    requires Quiet(s, m) && m.levels == LEVELS && m.lastSequence == 4 && m.nextFile == 12
    ensures Step(s, s')
    ensures s' == s.(disk := s.disk.(tables := WithTables(s.disk.tables, [OUTPUT])),
                     up := Some(m.(compacting := CompactionBuilt(BOTH, [OUTPUT], 4, RisenKeys(LEVELS, BOTH, 4)), nextFile := 13)))
  {
    BothAreClosed();
    MergedIsSorted();
    MergedInputs();
    NewPutsAreKept();
    OneOutput();
    s' := s.(disk := s.disk.(tables := WithTables(s.disk.tables, [OUTPUT])),
             up := Some(m.(compacting := CompactionBuilt(BOTH, [OUTPUT], 4, RisenKeys(LEVELS, BOTH, 4)), nextFile := 13)));
    assert BuildCompaction(s, s', BOTH, MERGED, [OUTPUT], 4);
  }

  lemma ReachMerging() returns (trace: seq<System>, s: System, m: Memory, older: seq<Log>)
    ensures Runs.Reaches(trace, s) && s.up == Some(m) && s.disk.logs == older + [Log(m.logNumber, [])]
    ensures m.writing.None? && m.mem == [] && m.imm.None? && m.flush.NotFlushing? && m.lastSequence == 4 && m.nextFile == 13
    ensures m.levels == LEVELS && m.compacting.CompactionBuilt? && m.compacting.c == BOTH && m.compacting.outputs == [OUTPUT]
  {
    var s0, m0;
    trace, s0, m0 := ReachVersion();
    s := MergeStep(s0, m0);
    trace := Runs.Then(trace, s0, s);
    m, older := s.up.value, s.disk.logs[..|s.disk.logs| - 1];
  }

  /**
   A run of the engine reaches a state in which the two files are being compacted into one
   and a memtable with a key between them waits to be flushed.
   */
  lemma MemtableWaits() returns (trace: seq<System>, m: Memory)
    ensures Run(trace) && trace[|trace| - 1].up == Some(m)
    ensures m.levels == LEVELS && m.compacting.CompactionBuilt? && m.compacting.c == BOTH && m.compacting.outputs == [OUTPUT]
    ensures m.imm == Some([BETWEEN]) && m.flush.NotFlushing? && m.nextFile == 14
  {
    var s, older;
    trace, s, m, older := ReachMerging();
    var s1, s2 := WriteOne(s, m, BETWEEN, older, m.logNumber);
    var s3 := Runs.Switch(s2, s2.up.value);
    trace := Runs.Then(trace, s, s1);
    trace := Runs.Then(trace, s1, s2);
    trace := Runs.Then(trace, s2, s3);
    m := s3.up.value;
  }

  /** The table that the code then writes makes two files of level 2 overlap once the compaction is installed. */
  lemma GapIsCovered(flushed: Levels, installed: Levels)
    requires Added(LEVELS, 2, GAP, flushed) && Installed(flushed, BOTH, [OUTPUT], installed)
    ensures FlushedMidway(LEVELS, BOTH, [OUTPUT], 2, GAP, flushed, installed) && !ValidLevels(installed)
  {
    VersionIsValid();
    BothAreClosed();
    OutputIsGood();
    GapIsLatest();
    MidFlushKeepsLevelsIff(LEVELS, BOTH, [OUTPUT], 2, GAP, flushed, installed);
    assert !Apart([OUTPUT][0], GAP);
  }

  lemma OutputIsGood()
    ensures GoodOutputs(BOTH, [OUTPUT])
  {
    OneOutput();
    MergedInputs();
    assert forall e :: e in OUTPUT.entries ==> e in RunEntries(MERGED);
  }

  lemma GapIsLatest()
    ensures GAP.Valid() && Fits(LEVELS, 2, GAP) && Latest(LEVELS, GAP)
  {
    assert forall l, f :: 0 <= l < |LEVELS| && f in LEVELS[l] ==> f == A || f == B || f == X || f == Y;
  }
}
