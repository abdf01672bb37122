/**
 Crashes and recovery (db/db_impl.cc: Recover, RecoverLogFile, DB::Open;
 db/version_set.cc: LogAndApply, Recover).
 */
module EngineCrash {
  import opened Options
  import opened Format
  import opened Version
  import opened Histories
  import opened CompactionInputs
  import opened CompactionReads
  import opened Install
  import opened Flush
  import opened Engine
  import opened EngineSteps
  import opened EngineBackground

  // ----- crash -----

  /** A crash loses exactly the cut records of the newest log, from the end of the history. */
  lemma CrashLosesOnlyTheTail(s: System, s': System, keep: nat)
    requires Inv(s) && Crash(s, s', keep)
    ensures s'.history <= s.history
    ensures s.disk.logs != [] ==>
              s.history == s'.history + s.disk.logs[|s.disk.logs| - 1].batches[keep..]
    ensures s'.history == s'.flushed + Replay(s'.disk.logs, s'.disk.logNumber)
  {
    if s.disk.logs != [] {
      var n := |s.disk.logs| - 1;
      assert s.disk.logs == s.disk.logs[..n] + [s.disk.logs[n]];
      CutRecords(s.flushed, s.disk.logs[..n], s.disk.logs[n], s.disk.logNumber, keep, s.history);
    }
  }

  lemma CutRecords(flushed: seq<Batch>, front: seq<Log>, log: Log, min: nat, keep: nat, history: seq<Batch>)
    requires history == flushed + Replay(front + [log], min) && log.number >= min && keep <= |log.batches|
    ensures |log.batches| <= |history|
    ensures flushed + Replay(front + [Log(log.number, log.batches[..keep])], min) == history[..|history| - (|log.batches| - keep)]
    ensures history == history[..|history| - (|log.batches| - keep)] + log.batches[keep..]
  {
    ReplaySnoc(front, log, min);
    ReplaySnoc(front, Log(log.number, log.batches[..keep]), min);
    var kept := flushed + Replay(front, min) + log.batches[..keep];
    assert log.batches == log.batches[..keep] + log.batches[keep..];
    assert history == kept + log.batches[keep..];
  }

  lemma CrashKeeps(s: System, s': System, keep: nat)
    requires Inv(s) && Crash(s, s', keep)
    ensures Inv(s')
  {
    CrashLosesOnlyTheTail(s, s', keep);
    AscendingPrefix(s'.history, s.history);
    if s.disk.logs != [] { CutLogs(s.disk.logs, s.disk.logNumber, s.disk.nextFile, keep); }
  }

  lemma AscendingPrefix(a: seq<Batch>, b: seq<Batch>)
    requires a <= b && Ascending(b)
    ensures Ascending(a)
  {
    assert b == a + b[|a|..];
    AscendingSplit(a, b[|a|..]);
  }

  lemma CutLogs(logs: seq<Log>, logNumber: nat, nextFile: nat, keep: nat)
    requires logs != [] && LogsInv(logs, logNumber, nextFile) && keep <= |logs[|logs| - 1].batches|
    ensures var n := |logs| - 1;
      LogsInv(logs[..n] + [Log(logs[n].number, logs[n].batches[..keep])], logNumber, nextFile)
  {
  }

  // ----- recovery -----

  lemma BuildRecoveryKeeps(s: System, s': System, r: Recovery)
    requires Inv(s) && BuildRecovery(s, s', r)
    ensures Inv(s')
  {
    BackedNewLog(s.disk.levels, s.disk.logNumber, s.disk.logs, r.newLog, s.history, s.flushed);
    RecoveryTables(s.disk.levels, s.disk.tables, s.disk.nextFile, r.made, r.newLog);
    NewLogs(s.disk.logs, s.disk.logNumber, s.disk.nextFile, r.newLog);
    RecoveryIsReady(s.disk, s'.disk, s.history, s.flushed, r);
  }

  lemma RecoveryTables(levels: Levels, tables: map<nat, File>, nextFile: nat, made: seq<File>, newLog: nat)
    requires Stored(levels, tables, nextFile) && (forall i :: 0 <= i < |made| ==> nextFile < made[i].number < newLog)
    requires forall i, j :: 0 <= i < j < |made| ==> made[i].number < made[j].number
    ensures Stored(levels, WithTables(tables, made), nextFile) && TablesHold(made, WithTables(tables, made), newLog + 1)
    ensures AllNumbered(levels, made)
  {
    WithTablesHas(tables, made);
    StoredNumbers(levels, tables, nextFile);
  }

  lemma RecoveryIsReady(disk: Disk, disk': Disk, history: seq<Batch>, flushed: seq<Batch>, r: Recovery)
    requires Recovers(disk, r) && history == flushed + Replay(disk.logs, disk.logNumber) && AtMost(EntriesOf(flushed), disk.lastSequence)
    requires disk' == disk.(tables := WithTables(disk.tables, r.made), logs := disk.logs + [Log(r.newLog, [])])
    requires TablesHold(r.made, disk'.tables, r.nextFile) && AllNumbered(disk.levels, r.made)
    ensures RecoveryInv(disk', history, r)
  {
    var logs, min := disk.logs, disk.logNumber;
    ReplaySnoc(logs, Log(r.newLog, []), min);
    assert Replay(disk'.logs, min) == Replay(logs, min);
    EntriesOfConcat(flushed, Replay(logs, min));
  }

  ghost predicate AllLatest(levels: Levels, made: seq<File>) {
    forall i :: 0 <= i < |made| ==> made[i].Valid() && Latest(levels, made[i])
  }

  ghost predicate MadeInOrder(made: seq<File>) {
    forall i, j :: 0 <= i < j < |made| ==>
      made[i].number < made[j].number && WrittenAfter(RunEntries(made[j].entries), RunEntries(made[i].entries))
  }

  ghost predicate AddedAtTop(levels: Levels, made: seq<File>, levels': Levels) {
    && |levels| == |levels'| == NUM_LEVELS
    && (forall l :: 1 <= l < NUM_LEVELS ==> levels'[l] == levels[l])
    && Rebuilt(levels[0], [], made, levels'[0])
  }

  lemma LaterMadeIsNewer(made: seq<File>, i: nat, j: nat)
    requires MadeInOrder(made) && i < j < |made|
    ensures Newer(made[j], made[i])
  {
    assert WrittenAfter(RunEntries(made[j].entries), RunEntries(made[i].entries));
    forall e, e' | e in made[j].entries && e' in made[i].entries ensures Tag(e.key) > Tag(e'.key) {
      assert e in RunEntries(made[j].entries) && e' in RunEntries(made[i].entries);
    }
  }

  lemma TopLevelValid(levels: Levels, made: seq<File>, levels': Levels)
    requires ValidLevels(levels) && AddedAtTop(levels, made, levels')
    requires AllLatest(levels, made) && MadeInOrder(made)
    ensures ValidLevel(0, levels'[0])
  {
    var files, files' := levels[0], levels'[0];
    assert ValidLevel(0, files);
    forall i | 0 <= i < |files'| ensures files'[i].Valid() {
      assert files'[i] in files';
    }
    forall f, g | f in files' && g in files' ensures
      (f.number == g.number ==> f == g) && (f.number > g.number ==> Newer(f, g))
    {
      TopPair(levels, made, f, g);
    }
  }

  lemma MadePair(made: seq<File>, f: File, g: File)
    requires MadeInOrder(made) && f in made && g in made
    ensures f.number == g.number ==> f == g
    ensures f.number > g.number ==> Newer(f, g)
  {
    var i :| 0 <= i < |made| && made[i] == f;
    var j :| 0 <= j < |made| && made[j] == g;
    if j < i { LaterMadeIsNewer(made, j, i); }
  }

  lemma TopPair(levels: Levels, made: seq<File>, f: File, g: File)
    requires ValidLevels(levels) && AllLatest(levels, made) && MadeInOrder(made)
    requires (f in levels[0] || f in made) && (g in levels[0] || g in made)
    ensures f.number == g.number ==> f == g
    ensures f.number > g.number ==> Newer(f, g)
  {
    assert ValidLevel(0, levels[0]);
    if f in made && g in made {
      MadePair(made, f, g);
    } else if f in made {
      var i :| 0 <= i < |made| && made[i] == f;
      LatestIsNewer(levels, f, 0, g);
    } else if g in made {
      var j :| 0 <= j < |made| && made[j] == g;
      assert Latest(levels, made[j]);
    }
  }

  lemma RecoveredContents(levels: Levels, made: seq<File>, levels': Levels)
    requires AddedAtTop(levels, made, levels')
    ensures Contents(levels') == Contents(levels) + FileEntries(made)
  {
    forall e | e in Contents(levels') ensures e in Contents(levels) + FileEntries(made) {
      var l, g :| 0 <= l < |levels'| && g in levels'[l] && e in g.entries;
      if g in levels[l] { assert e in Contents(levels); } else { assert g in made; }
    }
    forall e | e in Contents(levels) + FileEntries(made) ensures e in Contents(levels') {
      if e in Contents(levels) {
        var l, g :| 0 <= l < |levels| && g in levels[l] && e in g.entries;
        assert g in levels'[l];
      } else {
        var g :| g in made && e in g.entries;
        assert g in levels'[0];
      }
    }
  }

  lemma RecoveryKeepsLevels(levels: Levels, made: seq<File>, levels': Levels)
    requires ValidLevels(levels) && AddedAtTop(levels, made, levels')
    requires AllLatest(levels, made) && MadeInOrder(made)
    ensures ValidLevels(levels')
  {
    TopLevelValid(levels, made, levels');
    forall l | 0 <= l < NUM_LEVELS ensures ValidLevel(l, levels'[l]) {
      if l > 0 { assert ValidLevel(l, levels[l]); }
    }
    forall l, m | 0 <= l < m < NUM_LEVELS ensures AllNewer(levels'[l], levels'[m]) {
      assert AllNewer(levels[l], levels[m]);
      forall f, g | f in levels'[l] && g in levels'[m] ensures Newer(f, g) {
        if f !in levels[l] {
          var i :| 0 <= i < |made| && made[i] == f;
          LatestIsNewer(levels, f, m, g);
        }
      }
    }
  }

  /** Recovered tables were written after everything in the manifest's version. */
  lemma MadeAreLatest(levels: Levels, made: seq<File>, flushed: seq<Batch>, replayed: seq<Batch>)
    requires Ascending(flushed + replayed) && Contents(levels) <= EntriesOf(flushed)
    requires MadeFromLogs(made, replayed) && AllNumbered(levels, made)
    ensures AllLatest(levels, made)
  {
    AscendingSplit(flushed, replayed);
    forall i | 0 <= i < |made| ensures Latest(levels, made[i]) {
      assert made[i] in made;
      assert RunEntries(made[i].entries) <= FileEntries(made);
      FlushedTableIsLatest(levels, made[i], EntriesOf(flushed), RunEntries(made[i].entries));
    }
  }

  /** The recovered version holds the whole history, and reads like it. */
  lemma RecoveredBacked(levels: Levels, logNumber: nat, logs: seq<Log>, history: seq<Batch>, flushed: seq<Batch>, horizon: nat, risen: set<UserKey>,
                        made: seq<File>, newLog: nat, levels': Levels)
    requires Ascending(history) && Backed(levels, logNumber, logs, history, flushed) && StandsFor(levels, flushed, horizon, risen)
    requires MadeFromLogs(made, Replay(logs, logNumber)) && AllNumbered(levels, made) && AddedAtTop(levels, made, levels')
    requires LogsAscend(logs) && logs != [] && logs[|logs| - 1] == Log(newLog, [])
    ensures Backed(levels', newLog, logs, history, history) && StandsFor(levels', history, horizon, risen)
  {
    var replayed := Replay(logs, logNumber);
    MadeAreLatest(levels, made, flushed, replayed);
    assert MadeInOrder(made);
    RecoveryKeepsLevels(levels, made, levels');
    RecoveredContents(levels, made, levels');
    LastLogReplay(logs);
    EntriesOfConcat(flushed, replayed);
    FlushReadsAlike(Contents(levels), flushed, replayed, horizon, risen);
    assert history + [] == history;
  }

  lemma StoredRecovered(levels: Levels, made: seq<File>, levels': Levels, tables: map<nat, File>, nextFile: nat, nextFile': nat)
    requires AddedAtTop(levels, made, levels') && Stored(levels, tables, nextFile) && TablesHold(made, tables, nextFile') && nextFile <= nextFile'
    ensures Stored(levels', tables, nextFile')
  {
    forall l, i | 0 <= l < |levels'| && 0 <= i < |levels'[l]|
      ensures levels'[l][i].number < nextFile' && levels'[l][i].number in tables && tables[levels'[l][i].number] == levels'[l][i]
    {
      var g := levels'[l][i];
      assert g in levels'[l];
      if g in levels[l] {
        var j :| 0 <= j < |levels[l]| && levels[l][j] == g;
      } else {
        var j :| 0 <= j < |made| && made[j] == g;
      }
    }
  }

  lemma InstallRecoveryKeeps(s: System, s': System, levels: Levels)
    requires Inv(s) && InstallRecovery(s, s', levels)
    ensures Inv(s')
  {
    var r := s.recovery.value;
    RecoveredBacked(s.disk.levels, s.disk.logNumber, s.disk.logs, s.history, s.flushed, s.horizon, s.risen, r.made, r.newLog, levels);
    StoredRecovered(s.disk.levels, r.made, levels, s.disk.tables, s.disk.nextFile, r.nextFile);
    EmptyMemtables(s.disk.logs, r.newLog);
  }

  lemma EmptyMemtables(logs: seq<Log>, newLog: nat)
    requires LogsAscend(logs) && logs != [] && logs[|logs| - 1] == Log(newLog, [])
    ensures MemtablesInv(logs, newLog, [], None, newLog, newLog, None)
  {
    LastLogReplay(logs);
    assert RunEntries([]) == {} && EntriesOf([]) == {};
  }
}
