/**
 The database as a state machine: writes, memtable switches, flushes, trivial
 moves, compactions, manifest appends, file deletion, crashes and recovery
 (db/db_impl.cc, db/version_set.cc). Writers, readers and the one background thread
 interleave, and the background thread may flush a memtable in the middle of a
 compaction.
 */
module Engine {
  import opened Options
  import opened Format
  import opened Version
  import opened Histories
  import opened CompactionInputs
  import opened CompactionWork
  import opened CompactionReads
  import opened DropRules
  import opened Install
  import opened Flush

  /** A write-ahead log as the records a reader gets back from it. */
  datatype Log = Log(number: nat, batches: seq<Batch>)

  /** The records of the logs numbered `min` and above, oldest first. */
  ghost function Replay(logs: seq<Log>, min: nat): seq<Batch> {
    if logs == [] then []
    else
      var last := logs[|logs| - 1];
      Replay(logs[..|logs| - 1], min) + if last.number >= min then last.batches else []
  }

  /** What survives a crash: the state the manifest replays to, and the files. */
  datatype Disk = Disk(
    levels: Levels,
    logNumber: nat,
    lastSequence: nat,
    nextFile: nat,
    tables: map<nat, File>,
    logs: seq<Log>)

  /** How far the background thread is with a flush. */
  datatype Flushing = NotFlushing | FlushBuilt(level: nat, file: Option<File>) | FlushLogged

  /** ... and with a compaction, in the middle of which it may flush; `risen` are the keys whose reads it changes. */
  datatype Compacting =
    | NotCompacting
    | CompactionBuilt(c: Compaction, outputs: seq<File>, snap: nat, risen: set<UserKey>)
    | CompactionLogged

  /** What a crash loses. */
  datatype Memory = Memory(
    levels: Levels,
    logNumber: nat,
    mem: seq<Entry>,
    imm: Option<seq<Entry>>,
    logfile: nat,
    lastSequence: nat,
    nextFile: nat,
    writing: Option<Batch>,
    snapshots: multiset<nat>,
    flush: Flushing,
    compacting: Compacting)

  /** Tables written by a recovery that has not appended its manifest record yet. */
  datatype Recovery = Recovery(made: seq<File>, newLog: nat, nextFile: nat, lastSequence: nat)

  /**
   `history` is every batch whose log record exists, in order; `flushed` and `held`
   are the parts of it that the manifest's version and the current version stand
   for; reads below `horizon`, and reads of the keys in `risen`, are given up by
   compactions.
   */
  datatype System = System(
    disk: Disk,
    up: Option<Memory>,
    recovery: Option<Recovery>,
    history: seq<Batch>,
    flushed: seq<Batch>,
    held: seq<Batch>,
    horizon: nat,
    risen: set<UserKey>)

  // ----- invariant -----

  ghost predicate LogsAscend(logs: seq<Log>) {
    forall i, j :: 0 <= i < j < |logs| ==> logs[i].number < logs[j].number
  }

  /** Every table of the version is on disk, unchanged, with a number already given out. */
  ghost predicate Stored(levels: Levels, tables: map<nat, File>, nextFile: nat) {
    forall l, i :: 0 <= l < |levels| && 0 <= i < |levels[l]| ==>
      var f := levels[l][i];
      f.number < nextFile && f.number in tables && tables[f.number] == f
  }

  /** A version and a log number that together hold the whole history. */
  ghost predicate Backed(levels: Levels, logNumber: nat, logs: seq<Log>, history: seq<Batch>, flushed: seq<Batch>) {
    && ValidLevels(levels)
    && history == flushed + Replay(logs, logNumber)
    && Contents(levels) <= EntriesOf(flushed)
  }

  /** The tables of a version read like the batches it stands for. */
  ghost predicate StandsFor(levels: Levels, batches: seq<Batch>, horizon: nat, risen: set<UserKey>) {
    ReadAlike(Contents(levels), EntriesOf(batches), horizon, risen)
  }

  /** The manifest's version and the logs it needs hold the history; files and numbers are in order. */
  ghost predicate DiskInv(disk: Disk, history: seq<Batch>, flushed: seq<Batch>, horizon: nat, risen: set<UserKey>) {
    && Backed(disk.levels, disk.logNumber, disk.logs, history, flushed)
    && StandsFor(disk.levels, flushed, horizon, risen)
    && Stored(disk.levels, disk.tables, disk.nextFile)
    && horizon <= disk.lastSequence && AtMost(EntriesOf(flushed), disk.lastSequence)
    && LogsInv(disk.logs, disk.logNumber, disk.nextFile)
  }

  ghost predicate LogsInv(logs: seq<Log>, logNumber: nat, nextFile: nat) {
    && logNumber < nextFile && LogsAscend(logs)
    && (logs != [] ==> logs[|logs| - 1].number >= logNumber)
  }

  /** The batches of the current log that are already in the memtable. */
  ghost function Inserted(log: Log, writing: Option<Batch>): seq<Batch> {
    if writing.Some? && log.batches != [] then log.batches[..|log.batches| - 1] else log.batches
  }

  /** A memtable holds the entries of these batches. */
  ghost predicate Holding(mem: seq<Entry>, batches: seq<Batch>) {
    Sorted(mem) && RunEntries(mem) == EntriesOf(batches)
  }

  /** The memtable holds the current log but for a batch in the making, the immutable one the older logs. */
  ghost predicate MemtablesInv(logs: seq<Log>, needed: nat, mem: seq<Entry>, imm: Option<seq<Entry>>, logNumber: nat, logfile: nat, writing: Option<Batch>) {
    && logs != []
    && var front, last := logs[..|logs| - 1], logs[|logs| - 1];
    && last.number == logfile && logNumber <= logfile && needed <= logfile
    && (writing.Some? ==> last.batches != [] && last.batches[|last.batches| - 1] == writing.value)
    && Holding(mem, Inserted(last, writing))
    && (imm.None? ==> Replay(front, logNumber) == [])
    && (imm.Some? ==> Holding(imm.value, Replay(front, logNumber)))
  }

  /** Everything written is at or below the last sequence number, but for a batch in the making. */
  ghost predicate SequencesInv(history: seq<Batch>, lastSequence: nat, writing: Option<Batch>) {
    && (writing.None? ==> AtMost(EntriesOf(history), lastSequence))
    && (writing.Some? ==>
          && history != [] && history[|history| - 1] == writing.value
          && AtMost(EntriesOf(history[..|history| - 1]), lastSequence)
          && AllAbove(BatchEntries(writing.value), lastSequence)
          && AtMost(BatchEntries(writing.value), lastSequence + |writing.value|))
  }

  ghost predicate LogsBelow(logs: seq<Log>, nextFile: nat) {
    forall i :: 0 <= i < |logs| ==> logs[i].number < nextFile
  }

  ghost predicate SnapshotsInv(snapshots: multiset<nat>, lastSequence: nat, horizon: nat) {
    && horizon <= lastSequence
    && forall s :: s in snapshots ==> horizon <= s <= lastSequence
  }

  /** The manifest and the current version agree. */
  ghost predicate Agree(s: System, m: Memory) {
    s.disk.levels == m.levels && s.disk.logNumber == m.logNumber && s.flushed == s.held
  }

  ghost predicate BuiltFlush(levels: Levels, tables: map<nat, File>, nextFile: nat, imm: Option<seq<Entry>>, level: nat, file: Option<File>) {
    && |levels| == NUM_LEVELS && imm.Some?
    && (file.None? ==> imm.value == [])
    && (file.Some? ==>
          && file.value.Valid() && file.value.entries == imm.value
          && TablesHold([file.value], tables, nextFile)
          && Numbered(levels, file.value.number)
          && Fits(levels, level, file.value))
  }

  /** The number comes after every file of the version. */
  ghost predicate Numbered(levels: Levels, number: nat) {
    forall l, i :: 0 <= l < |levels| && 0 <= i < |levels[l]| ==> levels[l][i].number < number
  }

  ghost predicate TablesHold(files: seq<File>, tables: map<nat, File>, nextFile: nat) {
    forall i :: 0 <= i < |files| ==>
      files[i].number < nextFile && files[i].number in tables && tables[files[i].number] == files[i]
  }

  /** The outputs can take the place of the inputs in the version `levels`. */
  ghost predicate Replaceable(levels: Levels, c: Compaction, outputs: seq<File>, snap: nat, risen: set<UserKey>) {
    && |levels| == NUM_LEVELS && Closed(levels, c)
    && ReadAlike(Rest(levels, c) + FileEntries(outputs), Contents(levels), snap, risen)
  }

  /** A flush lands outside the key range of a running compaction at its output level. */
  ghost predicate Clear(w: Compacting, level: nat, file: Option<File>) {
    w.CompactionBuilt? && file.Some? && level == w.c.level + 1 ==>
      !Overlaps(file.value, At(w.c.smallest.user), At(w.c.largest.user))
  }

  ghost predicate FlushInv(s: System, m: Memory) {
    match m.flush
    case NotFlushing => !m.compacting.CompactionLogged? ==> Agree(s, m)
    case FlushBuilt(level, file) => Agree(s, m) && BuiltFlush(m.levels, s.disk.tables, m.nextFile, m.imm, level, file) && Clear(m.compacting, level, file)
    case FlushLogged => m.imm.Some? && s.disk.logNumber == m.logfile
  }

  ghost predicate CompactingInv(s: System, m: Memory) {
    match m.compacting
    case NotCompacting => true
    case CompactionBuilt(c, outputs, snap, risen) =>
      && Replaceable(if m.flush.FlushLogged? then s.disk.levels else m.levels, c, outputs, snap, risen)
      && GoodOutputs(c, outputs) && TablesHold(outputs, s.disk.tables, m.nextFile)
      && SnapshotsInv(m.snapshots, m.lastSequence, snap)
    case CompactionLogged => m.flush.NotFlushing? && s.disk.logNumber == m.logNumber
  }

  ghost predicate UpInv(s: System, m: Memory) {
    && Backed(m.levels, m.logNumber, s.disk.logs, s.history, s.held)
    && StandsFor(m.levels, s.held, s.horizon, s.risen)
    && Stored(m.levels, s.disk.tables, m.nextFile)
    && MemtablesInv(s.disk.logs, s.disk.logNumber, m.mem, m.imm, m.logNumber, m.logfile, m.writing)
    && SequencesInv(s.history, m.lastSequence, m.writing)
    && s.disk.nextFile <= m.nextFile && s.disk.lastSequence <= m.lastSequence && LogsBelow(s.disk.logs, m.nextFile)
    && SnapshotsInv(m.snapshots, m.lastSequence, s.horizon)
    && FlushInv(s, m)
    && CompactingInv(s, m)
  }

  /** Tables written by a recovery stand for exactly the records to be replayed. */
  ghost predicate MadeFromLogs(made: seq<File>, batches: seq<Batch>) {
    && ValidFiles(made)
    && FileEntries(made) == EntriesOf(batches)
    && (forall i, j :: 0 <= i < j < |made| ==>
          made[i].number < made[j].number && WrittenAfter(RunEntries(made[j].entries), RunEntries(made[i].entries)))
  }

  ghost predicate AllNumbered(levels: Levels, files: seq<File>) {
    forall i :: 0 <= i < |files| ==> Numbered(levels, files[i].number)
  }

  ghost predicate RecoveryInv(disk: Disk, history: seq<Batch>, r: Recovery) {
    && MadeFromLogs(r.made, Replay(disk.logs, disk.logNumber))
    && TablesHold(r.made, disk.tables, r.nextFile)
    && AllNumbered(disk.levels, r.made)
    && disk.nextFile <= r.nextFile
    && disk.logs != [] && disk.logs[|disk.logs| - 1] == Log(r.newLog, [])
    && LogsBelow(disk.logs, r.nextFile)
    && disk.lastSequence <= r.lastSequence && AtMost(EntriesOf(history), r.lastSequence)
  }

  ghost predicate Inv(s: System) {
    && Ascending(s.history)
    && DiskInv(s.disk, s.history, s.flushed, s.horizon, s.risen)
    && (s.up.Some? ==> UpInv(s, s.up.value))
    && (s.up.None? && s.recovery.Some? ==> RecoveryInv(s.disk, s.history, s.recovery.value))
  }

  // ----- steps -----

  /** A writer's batch reaches the log (log_->AddRecord). */
  ghost predicate BeginWrite(s: System, s': System, b: Batch) {
    && s.up.Some? && s.up.value.writing.None? && s.disk.logs != []
    && (forall i :: 0 <= i < |b| ==> b[i].key.sequence == s.up.value.lastSequence + 1 + i)
    && var n := |s.disk.logs| - 1;
    && var log := s.disk.logs[n];
    && s' == s.(
         disk := s.disk.(logs := s.disk.logs[..n] + [Log(log.number, log.batches + [b])]),
         up := Some(s.up.value.(writing := Some(b))),
         history := s.history + [b])
  }

  /** The batch is inserted into the memtable and published (InsertInto, SetLastSequence). */
  ghost predicate FinishWrite(s: System, s': System, mem: seq<Entry>) {
    && s.up.Some? && s.up.value.writing.Some?
    && var m := s.up.value;
    && Sorted(mem) && RunEntries(mem) == RunEntries(m.mem) + BatchEntries(m.writing.value)
    && s' == s.(up := Some(m.(mem := mem, writing := None, lastSequence := m.lastSequence + |m.writing.value|)))
  }

  /** MakeRoomForWrite starts a new log and memtable. */
  ghost predicate SwitchMemtable(s: System, s': System) {
    && s.up.Some? && s.up.value.writing.None? && s.up.value.imm.None?
    && var m := s.up.value;
    && s' == s.(
         disk := s.disk.(logs := s.disk.logs + [Log(m.nextFile, [])]),
         up := Some(m.(imm := Some(m.mem), mem := [], logfile := m.nextFile, nextFile := m.nextFile + 1)))
  }

  /**
   WriteLevel0Table builds the table and picks its level; an empty memtable makes no
   table. During a compaction it must land clear of it; module MidFlush says what happens
   when it does not.
   */
  ghost predicate BuildFlush(s: System, s': System, level: nat, file: Option<File>) {
    && s.up.Some? && s.up.value.flush.NotFlushing? && !s.up.value.compacting.CompactionLogged? && s.up.value.imm.Some?
    && var m := s.up.value;
    && |m.levels| == NUM_LEVELS && Clear(m.compacting, level, file)
    && (file.None? <==> m.imm.value == [])
    && (file.Some? ==>
          && file.value.number == m.nextFile && file.value.Valid()
          && file.value.entries == m.imm.value
          && Fits(m.levels, level, file.value))
    && s' == s.(
         disk := s.disk.(tables := if file.Some? then s.disk.tables[m.nextFile := file.value] else s.disk.tables),
         up := Some(m.(flush := FlushBuilt(level, file), nextFile := m.nextFile + 1)))
  }

  /** CompactMemTable appends its edit to the manifest: the new table, and earlier logs no longer needed. */
  ghost predicate LogFlush(s: System, s': System, levels: Levels) {
    && s.up.Some? && s.up.value.flush.FlushBuilt?
    && var m := s.up.value;
    && |m.levels| == NUM_LEVELS && m.flush.level < NUM_LEVELS
    && (m.flush.file.None? ==> levels == m.levels)
    && (m.flush.file.Some? ==> Added(m.levels, m.flush.level, m.flush.file.value, levels))
    && s.disk.logs != []
    && s' == s.(
         disk := s.disk.(levels := levels, logNumber := m.logfile, lastSequence := m.lastSequence, nextFile := m.nextFile),
         up := Some(m.(flush := FlushLogged)),
         flushed := s.held + Replay(s.disk.logs[..|s.disk.logs| - 1], m.logNumber))
  }

  /** ... and installs the version; the immutable memtable is gone. */
  ghost predicate InstallFlush(s: System, s': System) {
    && s.up.Some? && s.up.value.flush.FlushLogged?
    && s' == s.(
         up := Some(s.up.value.(levels := s.disk.levels, logNumber := s.disk.logNumber, imm := None, flush := NotFlushing)),
         held := s.flushed)
  }

  /** smallest_snapshot: the oldest live snapshot, or the last sequence. */
  ghost predicate SmallestSnapshot(m: Memory, snap: nat) {
    if m.snapshots == multiset{} then snap == m.lastSequence
    else snap in m.snapshots && forall s :: s in m.snapshots ==> snap <= s
  }

  /** The background thread has nothing in hand. */
  predicate Idle(m: Memory) { m.flush.NotFlushing? && m.compacting.NotCompacting? }

  /** A compaction's outputs are written to new tables. */
  ghost predicate BuildCompaction(s: System, s': System, c: Compaction, merged: seq<Entry>, outputs: seq<File>, snap: nat) {
    && s.up.Some? && Idle(s.up.value)
    && var m := s.up.value;
    && |m.levels| == NUM_LEVELS && ClosedSelection(m.levels, c)
    && SmallestSnapshot(m, snap)
    && Sorted(merged) && RunEntries(merged) == Inputs(c)
    && ValidFiles(outputs) && Concat(outputs) == Kept(Base(m.levels, c.level), merged, snap)
    && (forall i :: 0 <= i < |outputs| ==> outputs[i].number == m.nextFile + i)
    && s' == s.(
         disk := s.disk.(tables := WithTables(s.disk.tables, outputs)),
         up := Some(m.(compacting := CompactionBuilt(c, outputs, snap, RisenKeys(m.levels, c, snap)), nextFile := m.nextFile + |outputs|)))
  }

  ghost function WithTables(tables: map<nat, File>, files: seq<File>): map<nat, File> {
    if files == [] then tables
    else WithTables(tables, files[..|files| - 1])[files[|files| - 1].number := files[|files| - 1]]
  }

  /** A trivial move reuses the one input file. */
  ghost predicate BuildMove(s: System, s': System, c: Compaction, snap: nat) {
    && s.up.Some? && Idle(s.up.value)
    && var m := s.up.value;
    && |m.levels| == NUM_LEVELS && ClosedSelection(m.levels, c)
    && |c.inputs0| == 1 && c.inputs1 == []
    && SmallestSnapshot(m, snap)
    && s' == s.(up := Some(m.(compacting := CompactionBuilt(c, c.inputs0, snap, {}))))
  }

  ghost predicate LogCompaction(s: System, s': System, levels: Levels) {
    && s.up.Some? && s.up.value.compacting.CompactionBuilt? && s.up.value.flush.NotFlushing?
    && var m, w := s.up.value, s.up.value.compacting;
    && |m.levels| == NUM_LEVELS && w.c.level + 1 < NUM_LEVELS
    && Installed(m.levels, w.c, w.outputs, levels)
    && s' == s.(
         disk := s.disk.(levels := levels, lastSequence := m.lastSequence, nextFile := m.nextFile),
         up := Some(m.(compacting := CompactionLogged)),
         horizon := if s.horizon < w.snap then w.snap else s.horizon,
         risen := s.risen + w.risen)
  }

  ghost predicate InstallCompaction(s: System, s': System) {
    && s.up.Some? && s.up.value.compacting.CompactionLogged?
    && s' == s.(up := Some(s.up.value.(levels := s.disk.levels, compacting := NotCompacting)), held := s.flushed)
  }

  /** DeleteObsoleteFiles: tables outside the version that no compaction is writing, and logs older than its log number. */
  ghost predicate DeleteObsolete(s: System, s': System, tables: map<nat, File>, first: nat) {
    && s.up.Some? && s.up.value.flush.NotFlushing? && !s.up.value.compacting.CompactionLogged?
    && var m := s.up.value;
    && (m.compacting.CompactionBuilt? ==> forall i :: 0 <= i < |m.compacting.outputs| && m.compacting.outputs[i].number in s.disk.tables ==>
          m.compacting.outputs[i].number in tables)
    && (forall n :: n in tables ==> n in s.disk.tables && tables[n] == s.disk.tables[n])
    && (forall l, i :: 0 <= l < |m.levels| && 0 <= i < |m.levels[l]| && m.levels[l][i].number in s.disk.tables ==>
          m.levels[l][i].number in tables)
    && first <= |s.disk.logs| && (forall i :: 0 <= i < first ==> s.disk.logs[i].number < m.logNumber)
    && s' == s.(disk := s.disk.(tables := tables, logs := s.disk.logs[first..]))
  }

  ghost predicate TakeSnapshot(s: System, s': System) {
    && s.up.Some?
    && s' == s.(up := Some(s.up.value.(snapshots := s.up.value.snapshots + multiset{s.up.value.lastSequence})))
  }

  ghost predicate ReleaseSnapshot(s: System, s': System, snap: nat) {
    && s.up.Some? && snap in s.up.value.snapshots
    && s' == s.(up := Some(s.up.value.(snapshots := s.up.value.snapshots - multiset{snap})))
  }

  /** A crash keeps the first `keep` records of the newest log. */
  ghost predicate Crash(s: System, s': System, keep: nat) {
    if s.disk.logs == [] then
      s' == s.(up := None, recovery := None)
    else
      && var n := |s.disk.logs| - 1;
      && var log := s.disk.logs[n];
      && keep <= |log.batches| <= |s.history|
      && s' == s.(
           disk := s.disk.(logs := s.disk.logs[..n] + [Log(log.number, log.batches[..keep])]),
           up := None, recovery := None,
           history := s.history[..|s.history| - (|log.batches| - keep)])
  }

  /** What Recover and RecoverLogFile make of the logs; module RecoverLogs computes it. */
  ghost predicate Recovers(disk: Disk, r: Recovery) {
    && MadeFromLogs(r.made, Replay(disk.logs, disk.logNumber))
    && (forall i :: 0 <= i < |r.made| ==> disk.nextFile < r.made[i].number < r.newLog)
    && LogsBelow(disk.logs, r.newLog) && disk.nextFile < r.newLog && r.nextFile == r.newLog + 1
    && LargestSequence(Replay(disk.logs, disk.logNumber), disk.lastSequence, r.lastSequence)
  }

  /** `largest` is the largest sequence number in the batches, if that is above `least`. */
  ghost predicate LargestSequence(batches: seq<Batch>, least: nat, largest: nat) {
    && least <= largest && AtMost(EntriesOf(batches), largest)
    && (largest == least || exists e :: e in EntriesOf(batches) && e.key.sequence == largest)
  }

  /** Recover replays the logs into level-0 tables and opens a new log. */
  ghost predicate BuildRecovery(s: System, s': System, r: Recovery) {
    && s.up.None? && s.recovery.None? && Recovers(s.disk, r)
    && s' == s.(
         disk := s.disk.(tables := WithTables(s.disk.tables, r.made), logs := s.disk.logs + [Log(r.newLog, [])]),
         recovery := Some(r))
  }

  /** Open appends the recovery's edit to the manifest and starts with an empty memtable. */
  ghost predicate InstallRecovery(s: System, s': System, levels: Levels) {
    && s.up.None? && s.recovery.Some?
    && var r := s.recovery.value;
    && |s.disk.levels| == |levels| == NUM_LEVELS
    && (forall l :: 1 <= l < NUM_LEVELS ==> levels[l] == s.disk.levels[l])
    && Rebuilt(s.disk.levels[0], [], r.made, levels[0])
    && s' == s.(
         disk := s.disk.(levels := levels, logNumber := r.newLog, lastSequence := r.lastSequence, nextFile := r.nextFile),
         up := Some(Memory(levels, r.newLog, [], None, r.newLog, r.lastSequence, r.nextFile, None, multiset{}, NotFlushing, NotCompacting)),
         recovery := None,
         flushed := s.history,
         held := s.history)
  }

  ghost predicate Init(s: System) {
    s == System(Disk([[], [], [], [], [], [], []], 0, 0, 2, map[], []), None, None, [], [], [], 0, {})
  }

  ghost predicate Step(s: System, s': System) {
    || (exists b :: BeginWrite(s, s', b))
    || (exists mem :: FinishWrite(s, s', mem))
    || SwitchMemtable(s, s')
    || (exists level, file :: BuildFlush(s, s', level, file))
    || (exists levels :: LogFlush(s, s', levels))
    || InstallFlush(s, s')
    || (exists c, merged, outputs, snap :: BuildCompaction(s, s', c, merged, outputs, snap))
    || (exists c, snap :: BuildMove(s, s', c, snap))
    || (exists levels :: LogCompaction(s, s', levels))
    || InstallCompaction(s, s')
    || (exists tables, first :: DeleteObsolete(s, s', tables, first))
    || TakeSnapshot(s, s')
    || (exists snap :: ReleaseSnapshot(s, s', snap))
    || (exists keep :: Crash(s, s', keep))
    || (exists r :: BuildRecovery(s, s', r))
    || (exists levels :: InstallRecovery(s, s', levels))
  }
}
