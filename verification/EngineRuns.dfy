/**
 What holds in every run of the engine, through any number of crashes.
 */
module EngineRuns {
  import opened Options
  import opened Format
  import opened Version
  import opened Histories
  import opened CompactionReads
  import opened Engine
  import opened EngineSteps
  import opened EngineBackground
  import opened EngineCrash

  lemma EmptyLevelsValid(levels: Levels)
    requires |levels| == NUM_LEVELS && forall l :: 0 <= l < NUM_LEVELS ==> levels[l] == []
    ensures ValidLevels(levels) && Contents(levels) == {}
  {
  }

  lemma InitHolds(s: System)
    requires Init(s)
    ensures Inv(s)
  {
    EmptyLevelsValid(s.disk.levels);
    assert EntriesOf([]) == {};
    assert ReadAlike({}, {}, 0, {});
  }

  lemma StepKeeps(s: System, s': System)
    requires Inv(s) && Step(s, s')
    ensures Inv(s')
  {
    if b :| BeginWrite(s, s', b) {
      BeginWriteKeeps(s, s', b);
    } else if mem :| FinishWrite(s, s', mem) {
      FinishWriteKeeps(s, s', mem);
    } else if SwitchMemtable(s, s') {
      SwitchMemtableKeeps(s, s');
    } else if level, file :| BuildFlush(s, s', level, file) {
      BuildFlushKeeps(s, s', level, file);
    } else if levels :| LogFlush(s, s', levels) {
      LogFlushKeeps(s, s', levels);
    } else if InstallFlush(s, s') {
      InstallFlushKeeps(s, s');
    } else if c, merged, outputs, snap :| BuildCompaction(s, s', c, merged, outputs, snap) {
      BuildCompactionKeeps(s, s', c, merged, outputs, snap);
    } else if c, snap :| BuildMove(s, s', c, snap) {
      BuildMoveKeeps(s, s', c, snap);
    } else {
      LaterStepKeeps(s, s');
    }
  }

  lemma LaterStepKeeps(s: System, s': System)
    requires Inv(s)
    requires
      || (exists levels :: LogCompaction(s, s', levels))
      || InstallCompaction(s, s')
      || (exists tables, first :: DeleteObsolete(s, s', tables, first))
      || TakeSnapshot(s, s')
      || (exists snap :: ReleaseSnapshot(s, s', snap))
      || (exists keep :: Crash(s, s', keep))
      || (exists r :: BuildRecovery(s, s', r))
      || (exists levels :: InstallRecovery(s, s', levels))
    ensures Inv(s')
  {
    if levels :| LogCompaction(s, s', levels) {
      LogCompactionKeeps(s, s', levels);
    } else if InstallCompaction(s, s') {
      InstallCompactionKeeps(s, s');
    } else if tables, first :| DeleteObsolete(s, s', tables, first) {
      DeleteObsoleteKeeps(s, s', tables, first);
    } else if TakeSnapshot(s, s') {
      SnapshotStepKeeps(s, s', 0);
    } else if snap :| ReleaseSnapshot(s, s', snap) {
      SnapshotStepKeeps(s, s', snap);
    } else if keep :| Crash(s, s', keep) {
      CrashKeeps(s, s', keep);
    } else if r :| BuildRecovery(s, s', r) {
      BuildRecoveryKeeps(s, s', r);
    } else {
      var levels :| InstallRecovery(s, s', levels);
      InstallRecoveryKeeps(s, s', levels);
    }
  }

  /** A finite run from an empty database. */
  ghost predicate Run(trace: seq<System>) {
    && trace != [] && Init(trace[0])
    && (forall i, j :: 0 <= i < j < |trace| && j == i + 1 ==> Step(trace[i], trace[j]))
  }

  lemma RunExtends(trace: seq<System>, s': System)
    requires Run(trace) && Step(trace[|trace| - 1], s')
    ensures Run(trace + [s'])
  {
    var longer := trace + [s'];
    forall i, j | 0 <= i < j < |longer| && j == i + 1 ensures Step(longer[i], longer[j]) {
      if j < |trace| { assert Step(trace[i], trace[j]); }
    }
  }

  lemma {:induction false} RunKeeps(trace: seq<System>, i: nat)
    requires Run(trace) && i < |trace|
    ensures Inv(trace[i])
  {
    if i == 0 {
      InitHolds(trace[0]);
    } else {
      RunKeeps(trace, i - 1);
      StepKeeps(trace[i - 1], trace[i]);
    }
  }

  // ----- reads -----

  /** Everything a reader searches: memtable, immutable memtable, tables. */
  ghost function Readable(m: Memory): set<Entry> {
    RunEntries(m.mem) + (if m.imm.Some? then RunEntries(m.imm.value) else {}) + Contents(m.levels)
  }

  /** The snapshots a reader may use. */
  ghost predicate Readers(m: Memory, snapshot: nat) {
    snapshot == m.lastSequence || snapshot in m.snapshots
  }

  /** The memtables hold exactly the batches that are not in the version and not being written. */
  lemma MemtablesHoldTheRest(logs: seq<Log>, needed: nat, m: Memory)
    requires MemtablesInv(logs, needed, m.mem, m.imm, m.logNumber, m.logfile, m.writing)
    ensures var logged := Replay(logs, m.logNumber);
            && (m.writing.None? ==> Readable(m) == Contents(m.levels) + EntriesOf(logged))
            && (m.writing.Some? ==> logged != [] && logged[|logged| - 1] == m.writing.value
                                    && Readable(m) == Contents(m.levels) + EntriesOf(logged[..|logged| - 1]))
  {
    var front, last := logs[..|logs| - 1], logs[|logs| - 1];
    assert logs == front + [last];
    ReplaySnoc(front, last, m.logNumber);
    var older := Replay(front, m.logNumber);
    EntriesOfConcat(older, Inserted(last, m.writing));
    assert EntriesOf([]) == {};
    if m.writing.Some? {
      assert (older + last.batches)[..|older + last.batches| - 1] == older + Inserted(last, m.writing);
    }
  }

  /** A batch that is still being written does not show at a usable snapshot. */
  lemma WritingIsInvisible(done: seq<Batch>, b: Batch, lastSequence: nat, k: UserKey, snapshot: nat)
    requires Ascending(done + [b]) && AllAbove(BatchEntries(b), lastSequence) && snapshot <= lastSequence
    ensures Visible(EntriesOf(done), k, snapshot) == Visible(EntriesOf(done + [b]), k, snapshot)
  {
    EntriesOfConcat(done, [b]);
    EntriesOfSingle(b);
    AscendingIsUnique(done + [b]);
    LaterWritesInvisible(EntriesOf(done), BatchEntries(b), k, snapshot);
  }

  lemma ReadsWhileWriting(levels: Levels, held: seq<Batch>, done: seq<Batch>, b: Batch, horizon: nat, risen: set<UserKey>, lastSequence: nat, k: UserKey, snapshot: nat)
    requires Ascending(held + done + [b]) && AllAbove(BatchEntries(b), lastSequence) && horizon <= snapshot <= lastSequence
    requires Reliable(EntriesOf(held + done + [b]), k, snapshot, risen)
    requires Contents(levels) <= EntriesOf(held) && StandsFor(levels, held, horizon, risen)
    ensures Visible(Contents(levels) + EntriesOf(done), k, snapshot) == Visible(EntriesOf(held + done + [b]), k, snapshot)
  {
    AscendingSplit(held + done, [b]);
    FlushReadsAlike(Contents(levels), held, done, horizon, risen);
    WritingIsInvisible(held + done, b, lastSequence, k, snapshot);
    assert Reliable(EntriesOf(held + done), k, snapshot, risen);
  }

  /** What a reader searches while no batch is being written. */
  lemma ReadsAtRest(levels: Levels, held: seq<Batch>, logged: seq<Batch>, horizon: nat, risen: set<UserKey>, k: UserKey, snapshot: nat)
    requires Ascending(held + logged) && Contents(levels) <= EntriesOf(held) && StandsFor(levels, held, horizon, risen)
    requires horizon <= snapshot && Reliable(EntriesOf(held + logged), k, snapshot, risen)
    ensures Visible(Contents(levels) + EntriesOf(logged), k, snapshot) == Visible(EntriesOf(held + logged), k, snapshot)
  {
    FlushReadsAlike(Contents(levels), held, logged, horizon, risen);
  }

  /** ... and while the last one is. */
  lemma ReadsBeforeLast(levels: Levels, held: seq<Batch>, logged: seq<Batch>, horizon: nat, risen: set<UserKey>, lastSequence: nat, k: UserKey, snapshot: nat)
    requires logged != [] && Ascending(held + logged) && Contents(levels) <= EntriesOf(held) && StandsFor(levels, held, horizon, risen)
    requires AllAbove(BatchEntries(logged[|logged| - 1]), lastSequence) && horizon <= snapshot <= lastSequence
    requires Reliable(EntriesOf(held + logged), k, snapshot, risen)
    ensures Visible(Contents(levels) + EntriesOf(logged[..|logged| - 1]), k, snapshot) == Visible(EntriesOf(held + logged), k, snapshot)
  {
    var b := logged[|logged| - 1];
    LastIsWriting(held, logged, b, held + logged);
    ReadsWhileWriting(levels, held, logged[..|logged| - 1], b, horizon, risen, lastSequence, k, snapshot);
  }

  lemma ReadsFromParts(logs: seq<Log>, needed: nat, m: Memory, held: seq<Batch>, history: seq<Batch>, horizon: nat, risen: set<UserKey>, k: UserKey, snapshot: nat)
    requires MemtablesInv(logs, needed, m.mem, m.imm, m.logNumber, m.logfile, m.writing) && SequencesInv(history, m.lastSequence, m.writing)
    requires Ascending(history) && Backed(m.levels, m.logNumber, logs, history, held) && StandsFor(m.levels, held, horizon, risen)
    requires horizon <= snapshot <= m.lastSequence && Reliable(EntriesOf(history), k, snapshot, risen)
    ensures Visible(Readable(m), k, snapshot) == Visible(EntriesOf(history), k, snapshot)
  {
    MemtablesHoldTheRest(logs, needed, m);
    if m.writing.None? {
      ReadsAtRest(m.levels, held, Replay(logs, m.logNumber), horizon, risen, k, snapshot);
    } else {
      ReadsBeforeLast(m.levels, held, Replay(logs, m.logNumber), horizon, risen, m.lastSequence, k, snapshot);
    }
  }

  lemma LastIsWriting(held: seq<Batch>, logged: seq<Batch>, b: Batch, history: seq<Batch>)
    requires history == held + logged && logged != [] && logged[|logged| - 1] == b
    ensures history == held + logged[..|logged| - 1] + [b]
  {
    assert logged == logged[..|logged| - 1] + [b];
  }

  lemma UsableSnapshot(m: Memory, horizon: nat, snapshot: nat)
    requires SnapshotsInv(m.snapshots, m.lastSequence, horizon) && Readers(m, snapshot)
    ensures horizon <= snapshot <= m.lastSequence
  {
  }

  /** A read at a usable snapshot sees exactly the newest logged write at or below it, unless that is no put and the key has risen. */
  lemma ReadsSeeHistory(s: System, m: Memory, k: UserKey, snapshot: nat)
    requires Inv(s) && s.up == Some(m) && Readers(m, snapshot) && Reliable(EntriesOf(s.history), k, snapshot, s.risen)
    ensures Visible(Readable(m), k, snapshot) == Visible(EntriesOf(s.history), k, snapshot)
  {
    UsableSnapshot(m, s.horizon, snapshot);
    ReadsFromParts(s.disk.logs, s.disk.logNumber, m, s.held, s.history, s.horizon, s.risen, k, snapshot);
  }

  /** What a hit in one place and misses in the places before it mean. */
  ghost predicate SearchResult(all: set<Entry>, k: UserKey, snapshot: nat, hit: Lookup) {
    && (hit.Hit? ==> Newest(all, k, snapshot, hit.entry))
    && (hit.Miss? ==> forall e :: !Candidate(all, k, snapshot, e))
  }

  /** A search of a newer place and then of an older one is a search of both. */
  lemma NewerPlaceFirst(newer: set<Entry>, older: set<Entry>, k: UserKey, snapshot: nat, a: Lookup, b: Lookup)
    requires WrittenAfter(newer, older) && SearchResult(newer, k, snapshot, a) && (a.Miss? ==> SearchResult(older, k, snapshot, b))
    ensures SearchResult(newer + older, k, snapshot, if a.Hit? then a else b)
  {
    forall e | Candidate(newer + older, k, snapshot, e) ensures Candidate(newer, k, snapshot, e) || Candidate(older, k, snapshot, e) {}
    if a.Hit? {
      assert Candidate(newer, k, snapshot, a.entry);
    } else if b.Hit? {
      assert Candidate(older, k, snapshot, b.entry);
      forall e | Candidate(newer + older, k, snapshot, e) ensures e.key.sequence <= b.entry.key.sequence { assert !Candidate(newer, k, snapshot, e); }
    } else {
      forall e ensures !Candidate(newer + older, k, snapshot, e) { assert !Candidate(newer, k, snapshot, e) && !Candidate(older, k, snapshot, e); }
    }
  }

  lemma SearchDecides(all: set<Entry>, k: UserKey, snapshot: nat, hit: Lookup)
    requires UniqueSequences(all) && SearchResult(all, k, snapshot, hit)
    ensures Visible(all, k, snapshot) == if hit.Hit? then Outcome(hit.entry) else NotFound
  {
    if hit.Hit? { NewestDecides(all, k, snapshot, hit.entry); } else { NoCandidateReadsNothing(all, k, snapshot); }
  }

  method SearchRun(es: seq<Entry>, k: UserKey, snapshot: nat) returns (hit: Lookup)
    requires Sorted(es)
    ensures SearchResult(RunEntries(es), k, snapshot, hit)
  {
    hit := GetInRun(es, k, snapshot);
    forall e | hit.Miss? ensures !Candidate(RunEntries(es), k, snapshot, e) {}
  }

  /** DBImpl::Get: memtable, then immutable memtable, then the version. */
  method Get(m: Memory, k: UserKey, snapshot: nat, ghost s: System) returns (r: ReadResult)
    requires Inv(s) && s.up == Some(m) && Readers(m, snapshot)
    ensures r == Visible(Readable(m), k, snapshot)
    ensures Reliable(EntriesOf(s.history), k, snapshot, s.risen) ==> r == Visible(EntriesOf(s.history), k, snapshot)
  {
    if Reliable(EntriesOf(s.history), k, snapshot, s.risen) { ReadsSeeHistory(s, m, k, snapshot); }
    UniqueReadable(s, m);
    MemtablesFirst(s.disk.logs, s.disk.logNumber, m, s.held, s.history);
    r := SearchAll(m, k, snapshot);
  }

  method SearchAll(m: Memory, k: UserKey, snapshot: nat) returns (r: ReadResult)
    requires ValidLevels(m.levels) && Sorted(m.mem) && (m.imm.Some? ==> Sorted(m.imm.value)) && UniqueSequences(Readable(m)) && InOrder(m)
    ensures r == Visible(Readable(m), k, snapshot)
  {
    ghost var imm := if m.imm.Some? then RunEntries(m.imm.value) else {};
    var first := SearchRun(m.mem, k, snapshot);
    var second, third := Miss, Miss;
    if first.Miss? && m.imm.Some? {
      second := SearchRun(m.imm.value, k, snapshot);
    }
    if first.Miss? && second.Miss? {
      third := Version.Get(m.levels, k, snapshot);
    }
    var older := if second.Hit? then second else third;
    assert first.Miss? && m.imm.None? ==> SearchResult(imm, k, snapshot, second);
    if first.Miss? { NewerPlaceFirst(imm, Contents(m.levels), k, snapshot, second, third); }
    NewerPlaceFirst(RunEntries(m.mem), imm + Contents(m.levels), k, snapshot, first, older);
    var hit := if first.Hit? then first else older;
    assert RunEntries(m.mem) + (imm + Contents(m.levels)) == Readable(m);
    SearchDecides(Readable(m), k, snapshot, hit);
    r := if hit.Hit? then Outcome(hit.entry) else NotFound;
  }

  lemma ReadableIsHistory(logs: seq<Log>, needed: nat, m: Memory, held: seq<Batch>, history: seq<Batch>)
    requires MemtablesInv(logs, needed, m.mem, m.imm, m.logNumber, m.logfile, m.writing)
    requires Contents(m.levels) <= EntriesOf(held) && history == held + Replay(logs, m.logNumber)
    ensures Readable(m) <= EntriesOf(history)
  {
    var logged := Replay(logs, m.logNumber);
    MemtablesHoldTheRest(logs, needed, m);
    EntriesOfConcat(held, logged);
    if m.writing.Some? {
      var done := logged[..|logged| - 1];
      assert logged == done + [m.writing.value];
      EntriesOfConcat(done, [m.writing.value]);
    }
  }

  lemma UniqueReadable(s: System, m: Memory)
    requires Inv(s) && s.up == Some(m)
    ensures UniqueSequences(Readable(m))
  {
    ReadableIsHistory(s.disk.logs, s.disk.logNumber, m, s.held, s.history);
    AscendingIsUnique(s.history);
    UniqueSubset(Readable(m), EntriesOf(s.history));
  }

  lemma UniqueSubset(some: set<Entry>, all: set<Entry>)
    requires some <= all && UniqueSequences(all)
    ensures UniqueSequences(some)
  {
  }

  /** The memtable was written after the immutable memtable, and both after the tables. */
  ghost predicate InOrder(m: Memory) {
    var imm := if m.imm.Some? then RunEntries(m.imm.value) else {};
    WrittenAfter(RunEntries(m.mem), imm + Contents(m.levels)) && WrittenAfter(imm, Contents(m.levels))
  }

  lemma MemtablesFirst(logs: seq<Log>, needed: nat, m: Memory, held: seq<Batch>, history: seq<Batch>)
    requires MemtablesInv(logs, needed, m.mem, m.imm, m.logNumber, m.logfile, m.writing)
    requires Ascending(history) && Backed(m.levels, m.logNumber, logs, history, held)
    ensures InOrder(m)
  {
    var older, last := Replay(logs[..|logs| - 1], m.logNumber), logs[|logs| - 1];
    HistoryParts(logs, m.logNumber, held, history);
    PartsInOrder(held, older, last.batches);
    InsertedEntries(last, m.writing);
    assert EntriesOf([]) == {};
  }

  lemma PartsInOrder(a: seq<Batch>, b: seq<Batch>, c: seq<Batch>)
    requires Ascending(a + b + c)
    ensures WrittenAfter(EntriesOf(b), EntriesOf(a)) && WrittenAfter(EntriesOf(c), EntriesOf(a) + EntriesOf(b))
  {
    AscendingSplit(a + b, c);
    AscendingSplit(a, b);
    EntriesOfConcat(a, b);
  }

  lemma InsertedEntries(log: Log, writing: Option<Batch>)
    ensures EntriesOf(Inserted(log, writing)) <= EntriesOf(log.batches)
  {
  }

  // ----- the theorems over whole runs -----

  /** The level invariant in every reachable state. */
  lemma EveryVersionIsValid(trace: seq<System>, i: nat)
    requires Run(trace) && i < |trace|
    ensures ValidLevels(trace[i].disk.levels)
    ensures trace[i].up.Some? ==> ValidLevels(trace[i].up.value.levels)
  {
    RunKeeps(trace, i);
  }

  /**
   Reads in every reachable state, after any mix of flushes, moves, compactions, crashes
   and recoveries: every put is found, and nothing else is but keys that a compaction has
   brought back.
   */
  lemma EveryReadSeesHistory(trace: seq<System>, i: nat, k: UserKey, snapshot: nat)
    requires Run(trace) && i < |trace| && trace[i].up.Some? && Readers(trace[i].up.value, snapshot)
    requires Reliable(EntriesOf(trace[i].history), k, snapshot, trace[i].risen)
    ensures Visible(Readable(trace[i].up.value), k, snapshot) == Visible(EntriesOf(trace[i].history), k, snapshot)
  {
    RunKeeps(trace, i);
    ReadsSeeHistory(trace[i], trace[i].up.value, k, snapshot);
  }

  /** Only a crash takes anything out of the history: a batch once logged stays until then. */
  lemma {:induction false} HistoryOnlyLosesToCrashes(trace: seq<System>, i: nat, j: nat)
    requires Run(trace) && i <= j < |trace|
    requires forall n, m, keep :: i <= n < m <= j && m == n + 1 ==> !Crash(trace[n], trace[m], keep)
    ensures trace[i].history <= trace[j].history
    decreases j
  {
    if i < j {
      HistoryOnlyLosesToCrashes(trace, i, j - 1);
      OtherStepsKeepHistory(trace[j - 1], trace[j]);
    }
  }

  lemma OtherStepsKeepHistory(s: System, s': System)
    requires Step(s, s') && forall keep :: !Crash(s, s', keep)
    ensures s.history <= s'.history
  {
  }

  /** The step writes the outputs of a compaction that brings `k` back. */
  ghost predicate BringsBack(s: System, s': System, k: UserKey) {
    exists c, merged, outputs, snap ::
      BuildCompaction(s, s', c, merged, outputs, snap) && k in RisenKeys(s.up.value.levels, c, snap)
  }

  /** One of the first `i` steps does. */
  ghost predicate BroughtBack(trace: seq<System>, i: nat, k: UserKey)
    requires i < |trace|
  {
    exists n, m :: 0 <= n < m <= i && m == n + 1 && BringsBack(trace[n], trace[m], k)
  }

  /** A compaction in hand is one that the last step built, or was in hand before. */
  lemma CompactionIsBuilt(s: System, s': System, k: UserKey)
    requires Step(s, s') && Raising(s', k)
    ensures BringsBack(s, s', k) || Raising(s, k)
  {
    if c, merged, outputs, snap :| BuildCompaction(s, s', c, merged, outputs, snap) {
      assert k in RisenKeys(s.up.value.levels, c, snap);
    } else if c, snap :| BuildMove(s, s', c, snap) {
    } else {
      OthersKeepCompactions(s, s');
    }
  }

  lemma OthersKeepCompactions(s: System, s': System)
    requires Step(s, s') && s'.up.Some? && s'.up.value.compacting.CompactionBuilt?
    requires forall c, merged, outputs, snap :: !BuildCompaction(s, s', c, merged, outputs, snap)
    requires forall c, snap :: !BuildMove(s, s', c, snap)
    ensures s.up.Some? && s.up.value.compacting == s'.up.value.compacting
  {
  }

  /** What holds at `i`, not at 0, and starts only with a cause, has one. */
  ghost predicate StartsByCause(trace: seq<System>, holds: System -> bool, cause: (System, System) -> bool) {
    && trace != [] && !holds(trace[0])
    && forall m, j :: 0 <= m < j < |trace| && j == m + 1 && holds(trace[j]) ==> cause(trace[m], trace[j]) || holds(trace[m])
  }

  lemma {:induction false} HasCause(trace: seq<System>, holds: System -> bool, cause: (System, System) -> bool, i: nat) returns (n: nat)
    requires StartsByCause(trace, holds, cause) && i < |trace| && holds(trace[i])
    ensures n < i && cause(trace[n], trace[n + 1])
  {
    if cause(trace[i - 1], trace[i]) { n := i - 1; } else { n := HasCause(trace, holds, cause, i - 1); }
  }

  lemma RunBuilds(trace: seq<System>, k: UserKey, holds: System -> bool, cause: (System, System) -> bool)
    requires Run(trace)
    requires (forall s :: holds(s) == Raising(s, k)) && forall s, s' :: cause(s, s') == BringsBack(s, s', k)
    ensures StartsByCause(trace, holds, cause)
  {
    StartsDown(trace, k);
    forall m, j | 0 <= m < j < |trace| && j == m + 1 && holds(trace[j]) ensures cause(trace[m], trace[j]) || holds(trace[m]) {
      CompactionIsBuilt(trace[m], trace[j], k);
    }
  }

  lemma CompactingHasCause(trace: seq<System>, i: nat, k: UserKey)
    requires Run(trace) && i < |trace| && Raising(trace[i], k)
    ensures BroughtBack(trace, i, k)
  {
    var holds, cause := (s: System) => Raising(s, k), (s: System, s': System) => BringsBack(s, s', k);
    RunBuilds(trace, k, holds, cause);
    var n := HasCause(trace, holds, cause, i);
    CauseIsBefore(trace, n, i, k);
  }

  lemma StartsDown(trace: seq<System>, k: UserKey)
    requires Run(trace)
    ensures !Raising(trace[0], k)
  {
  }

  lemma CauseIsBefore(trace: seq<System>, n: nat, i: nat, k: UserKey)
    requires n < i < |trace| && BringsBack(trace[n], trace[n + 1], k)
    ensures BroughtBack(trace, i, k)
  {
  }

  ghost predicate Raising(s: System, k: UserKey) {
    s.up.Some? && s.up.value.compacting.CompactionBuilt? && k in s.up.value.compacting.risen
  }

  lemma RisenStarts(trace: seq<System>, k: UserKey, holds: System -> bool, cause: (System, System) -> bool)
    requires Run(trace)
    requires (forall s :: holds(s) == (k in s.risen)) && forall s, s' :: cause(s, s') == Raising(s, k)
    ensures StartsByCause(trace, holds, cause)
  {
    forall m, j | 0 <= m < j < |trace| && j == m + 1 && holds(trace[j]) ensures cause(trace[m], trace[j]) || holds(trace[m]) {
      if k !in trace[m].risen { OnlyCompactionsRaise(trace[m], trace[j]); }
    }
  }

  /** Reads are given up only of keys that a compaction of this run has brought back. */
  lemma RisenHasCause(trace: seq<System>, i: nat, k: UserKey)
    requires Run(trace) && i < |trace| && k in trace[i].risen
    ensures BroughtBack(trace, i, k)
  {
    var holds, cause := (s: System) => k in s.risen, (s: System, s': System) => Raising(s, k);
    RisenStarts(trace, k, holds, cause);
    var n := HasCause(trace, holds, cause, i);
    CompactingHasCause(trace, n, k);
    BroughtBackEarlier(trace, n, i, k);
  }

  lemma BroughtBackEarlier(trace: seq<System>, n: nat, i: nat, k: UserKey)
    requires n <= i < |trace| && BroughtBack(trace, n, k)
    ensures BroughtBack(trace, i, k)
  {
  }

  /** Only a compaction that is recorded makes keys rise: those that its selection resurrects. */
  lemma OnlyCompactionsRaise(s: System, s': System)
    requires Step(s, s') && s'.risen != s.risen
    ensures s.up.Some? && s.up.value.compacting.CompactionBuilt? && s'.risen == s.risen + s.up.value.compacting.risen
  {
  }

  /** What is left after a crash: the manifest's tables and the logs it still needs. */
  ghost function Surviving(disk: Disk): set<Entry> {
    Contents(disk.levels) + EntriesOf(Replay(disk.logs, disk.logNumber))
  }

  lemma SurvivingReads(disk: Disk, history: seq<Batch>, flushed: seq<Batch>, horizon: nat, risen: set<UserKey>)
    requires Ascending(history) && DiskInv(disk, history, flushed, horizon, risen)
    ensures Surviving(disk) <= EntriesOf(history) && ReadAlike(Surviving(disk), EntriesOf(history), horizon, risen)
  {
    var replayed := Replay(disk.logs, disk.logNumber);
    EntriesOfConcat(flushed, replayed);
    FlushReadsAlike(Contents(disk.levels), flushed, replayed, horizon, risen);
  }

  /**
   Crash safety: a crash anywhere leaves a prefix of the history that holds every
   record that was not cut, every table of the version is still there, and tables and
   logs hold nothing but that prefix and read like it.
   */
  lemma EveryCrashIsSafe(trace: seq<System>, i: nat, keep: nat)
    requires Run(trace) && i + 1 < |trace| && Crash(trace[i], trace[i + 1], keep)
    ensures trace[i + 1].history <= trace[i].history
    ensures trace[i].disk.logs != [] ==>
              trace[i].history == trace[i + 1].history + trace[i].disk.logs[|trace[i].disk.logs| - 1].batches[keep..]
    ensures Stored(trace[i + 1].disk.levels, trace[i + 1].disk.tables, trace[i + 1].disk.nextFile)
    ensures Surviving(trace[i + 1].disk) <= EntriesOf(trace[i + 1].history)
    ensures ReadAlike(Surviving(trace[i + 1].disk), EntriesOf(trace[i + 1].history), trace[i + 1].horizon, trace[i + 1].risen)
  {
    RunKeeps(trace, i);
    RunKeeps(trace, i + 1);
    CrashLosesOnlyTheTail(trace[i], trace[i + 1], keep);
    var s := trace[i + 1];
    SurvivingReads(s.disk, s.history, s.flushed, s.horizon, s.risen);
  }

  lemma DownStepsOnlyCut(s: System, s': System)
    requires Inv(s) && Step(s, s') && s.up.None?
    ensures s'.history <= s.history
  {
    if keep :| Crash(s, s', keep) {
      CrashLosesOnlyTheTail(s, s', keep);
    }
  }

  lemma DownStepShrinks(trace: seq<System>, n: nat)
    requires Run(trace) && n + 1 < |trace| && trace[n].up.None?
    ensures trace[n + 1].history <= trace[n].history
  {
    RunKeeps(trace, n);
    DownStepsOnlyCut(trace[n], trace[n + 1]);
  }

  lemma PrefixOfPrefix(a: seq<Batch>, b: seq<Batch>, c: seq<Batch>)
    requires a <= b && b <= c
    ensures a <= c
  {
  }

  lemma {:induction false} HistoryShrinksWhileDown(trace: seq<System>, i: nat, j: nat)
    requires Run(trace) && i <= j < |trace|
    requires forall n :: i <= n < j ==> trace[n].up.None?
    ensures trace[j].history <= trace[i].history
    decreases j
  {
    if i < j {
      var n := j - 1;
      HistoryShrinksWhileDown(trace, i, n);
      DownStepShrinks(trace, n);
      PrefixOfPrefix(trace[n + 1].history, trace[n].history, trace[i].history);
    }
  }

  /**
   However often it crashes on the way, a database that comes up again at step `j`
   reads like a prefix of the history it had when it went down at step `i`.
   */
  lemma RecoveryReadsAPrefix(trace: seq<System>, i: nat, j: nat, k: UserKey)
    requires Run(trace) && i <= j < |trace| && trace[j].up.Some?
    requires forall n :: i <= n < j ==> trace[n].up.None?
    requires Reliable(EntriesOf(trace[j].history), k, trace[j].up.value.lastSequence, trace[j].risen)
    ensures trace[j].history <= trace[i].history
    ensures var m := trace[j].up.value;
      Visible(Readable(m), k, m.lastSequence) == Visible(EntriesOf(trace[j].history), k, m.lastSequence)
  {
    HistoryShrinksWhileDown(trace, i, j);
    EveryReadSeesHistory(trace, j, k, trace[j].up.value.lastSequence);
  }
}
