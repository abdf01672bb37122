/**
 The engine's versions and the manifest (db/version_set.cc: LogAndApply, Recover;
 db/db_impl.cc: CompactMemTable, InstallCompactionResults, Recover): each change of the
 version is one edit, and in every run the edits replay to the version on disk.
 */
module EngineManifest {
  import opened Options
  import opened Format
  import opened Version
  import opened Histories
  import opened CompactionInputs
  import opened Install
  import opened Flush
  import opened VersionBuilder
  import opened Engine
  import opened EngineSteps
  import opened EngineBackground
  import opened EngineRuns
  import LogFormat
  import Coding
  import Manifest
  import Records = VersionEdit

  // ----- the edit of each step -----

  function At(level: nat, files: seq<File>): seq<(nat, File)> {
    seq(|files|, i requires 0 <= i < |files| => (level, files[i]))
  }

  function NumbersAt(level: nat, files: seq<File>): seq<(nat, nat)> {
    seq(|files|, i requires 0 <= i < |files| => (level, files[i].number))
  }

  /** WriteLevel0Table adds its table; recovery adds its tables at level 0. */
  function AddEdit(level: nat, files: seq<File>): Edit { Edit([], At(level, files)) }

  /** AddInputDeletions and InstallCompactionResults, or the edit of a trivial move. */
  function CompactionEdit(c: Compaction, outputs: seq<File>): Edit {
    Edit(NumbersAt(c.level, c.inputs0) + NumbersAt(c.level + 1, c.inputs1), At(c.level + 1, outputs))
  }

  /** The lists that LogAndApply installs for an edit. */
  ghost predicate IsAfter(levels: Levels, e: Edit, levels': Levels) {
    && |levels| == |levels'| == NUM_LEVELS
    && forall l :: 0 <= l < NUM_LEVELS ==> SortedFiles(levels'[l]) && Files(levels'[l]) == AfterEdit(Files(levels[l]), e, l)
  }

  ghost predicate AllOrdered(levels: Levels) {
    |levels| == NUM_LEVELS && forall l :: 0 <= l < NUM_LEVELS ==> SortedFiles(levels[l]) && Distinct(Files(levels[l]))
  }

  lemma AddsAt(level: nat, files: seq<File>, l: nat)
    ensures AddedAt(At(level, files), l) == if l == level then Files(files) else {}
  {
    if l == level {
      forall f | f in files ensures f in AddedAt(At(level, files), l) {
        var i :| 0 <= i < |files| && files[i] == f;
        assert At(level, files)[i] == (level, f) && (level, f) in At(level, files);
      }
    }
  }

  lemma DeletesAt(level: nat, a: seq<File>, b: seq<File>, l: nat)
    ensures DeletedAt(NumbersAt(level, a) + NumbersAt(level + 1, b), l)
         == if l == level then Numbers(Files(a)) else if l == level + 1 then Numbers(Files(b)) else {}
  {
    var all := NumbersAt(level, a) + NumbersAt(level + 1, b);
    forall i | 0 <= i < |a| ensures (level, a[i].number) in all { assert all[i] == (level, a[i].number); }
    forall i | 0 <= i < |b| ensures (level + 1, b[i].number) in all { assert all[|a| + i] == (level + 1, b[i].number); }
  }

  /** A level that no edit touches keeps its list. */
  lemma Untouched(files: seq<File>, files': seq<File>, e: Edit, l: nat)
    requires SortedFiles(files) && e.Adds(l) == {} && e.Deletes(l) == {}
    ensures SortedFiles(files') && Files(files') == AfterEdit(Files(files), e, l) <==> files' == files
  {
    assert AfterEdit(Files(files), e, l) == Files(files);
    if SortedFiles(files') && Files(files') == Files(files) { SortedUnique(files', files); }
  }

  /** A level that only gains files. */
  lemma OnlyAdds(files: seq<File>, added: seq<File>, files': seq<File>, e: Edit, l: nat)
    requires e.Adds(l) == Files(added) && e.Deletes(l) == {}
    ensures Rebuilt(files, [], added, files') <==> SortedFiles(files') && Files(files') == AfterEdit(Files(files), e, l)
  {
    assert AfterEdit(Files(files), e, l) == Files(files) + Files(added);
    if Files(files') == Files(files) + Files(added) {
      forall f ensures f in files' <==> (f in files && f !in []) || f in added { assert f in Files(files') <==> f in Files(files) + Files(added); }
    }
  }

  /** A level that loses `removed` and gains `added`, whose numbers it does not have. */
  lemma Replaces(files: seq<File>, removed: seq<File>, added: seq<File>, files': seq<File>, e: Edit, l: nat)
    requires Distinct(Files(files)) && (forall f :: f in removed ==> f in files) && Numbers(Files(files)) !! Numbers(Files(added))
    requires e.Adds(l) == Files(added) && e.Deletes(l) == Numbers(Files(removed))
    ensures Rebuilt(files, removed, added, files') <==> SortedFiles(files') && Files(files') == AfterEdit(Files(files), e, l)
  {
    forall f ensures f in AfterEdit(Files(files), e, l) <==> (f in files && f !in removed) || f in added {
      if f in files {
        assert f.number in Numbers(Files(files));
        if f.number in Numbers(Files(removed)) {
          var g :| g in Files(removed) && g.number == f.number;
          assert g == f;
        }
        assert f in removed ==> f in Files(removed);
      }
      if f in added { assert f in Files(added) && f.number in Numbers(Files(added)); }
    }
    if Rebuilt(files, removed, added, files') {
      assert Files(files') == AfterEdit(Files(files), e, l);
    }
    if Files(files') == AfterEdit(Files(files), e, l) {
      forall f ensures f in files' <==> (f in files && f !in removed) || f in added { assert f in Files(files') <==> f in AfterEdit(Files(files), e, l); }
    }
  }

  /** The version after a flush is what installing its edit gives. */
  lemma AddedIsEdit(levels: Levels, level: nat, f: File, levels': Levels)
    requires AllOrdered(levels) && level < NUM_LEVELS
    ensures Added(levels, level, f, levels') <==> IsAfter(levels, AddEdit(level, [f]), levels')
  {
    if |levels'| == NUM_LEVELS {
      var e := AddEdit(level, [f]);
      forall l | 0 <= l < NUM_LEVELS
        ensures (if l == level then Rebuilt(levels[l], [], [f], levels'[l]) else levels'[l] == levels[l])
            <==> SortedFiles(levels'[l]) && Files(levels'[l]) == AfterEdit(Files(levels[l]), e, l)
      {
        AddsAt(level, [f], l);
        if l == level { OnlyAdds(levels[l], [f], levels'[l], e, l); } else { Untouched(levels[l], levels'[l], e, l); }
      }
    }
  }

  /** What a compaction makes of level `l`. */
  ghost predicate InstalledLevel(levels: Levels, c: Compaction, outputs: seq<File>, files': seq<File>, l: nat)
    requires l < |levels|
  {
    if l == c.level then Rebuilt(levels[l], c.inputs0, [], files')
    else if l == c.level + 1 then Rebuilt(levels[l], c.inputs1, outputs, files')
    else files' == levels[l]
  }

  lemma InstalledLevelIsEdit(levels: Levels, c: Compaction, outputs: seq<File>, files': seq<File>, l: nat)
    requires AllOrdered(levels) && Closed(levels, c) && l < NUM_LEVELS
    requires Numbers(Files(levels[c.level + 1])) !! Numbers(Files(outputs))
    ensures InstalledLevel(levels, c, outputs, files', l)
      <==> SortedFiles(files') && Files(files') == AfterEdit(Files(levels[l]), CompactionEdit(c, outputs), l)
  {
    var e := CompactionEdit(c, outputs);
    AddsAt(c.level + 1, outputs, l);
    DeletesAt(c.level, c.inputs0, c.inputs1, l);
    if l == c.level {
      assert Files([]) == {};
      Replaces(levels[l], c.inputs0, [], files', e, l);
    } else if l == c.level + 1 {
      Replaces(levels[l], c.inputs1, outputs, files', e, l);
    } else {
      Untouched(levels[l], files', e, l);
    }
  }

  /** The version after a compaction or a move is what installing its edit gives. */
  lemma InstalledIsEdit(levels: Levels, c: Compaction, outputs: seq<File>, levels': Levels)
    requires AllOrdered(levels) && Closed(levels, c)
    requires Numbers(Files(levels[c.level + 1])) !! Numbers(Files(outputs))
    ensures Installed(levels, c, outputs, levels') <==> IsAfter(levels, CompactionEdit(c, outputs), levels')
  {
    if |levels'| == NUM_LEVELS {
      forall l | 0 <= l < NUM_LEVELS
        ensures InstalledLevel(levels, c, outputs, levels'[l], l)
          <==> SortedFiles(levels'[l]) && Files(levels'[l]) == AfterEdit(Files(levels[l]), CompactionEdit(c, outputs), l)
      {
        InstalledLevelIsEdit(levels, c, outputs, levels'[l], l);
      }
      assert Installed(levels, c, outputs, levels') <==> forall l :: 0 <= l < NUM_LEVELS ==> InstalledLevel(levels, c, outputs, levels'[l], l);
    }
  }

  /** The version after a recovery is what installing its edit gives. */
  lemma RecoveredIsEdit(levels: Levels, made: seq<File>, levels': Levels)
    requires AllOrdered(levels) && |levels'| == NUM_LEVELS
    requires (forall l :: 1 <= l < NUM_LEVELS ==> levels'[l] == levels[l]) && Rebuilt(levels[0], [], made, levels'[0])
    ensures IsAfter(levels, AddEdit(0, made), levels')
  {
    var e := AddEdit(0, made);
    forall l | 0 <= l < NUM_LEVELS ensures SortedFiles(levels'[l]) && Files(levels'[l]) == AfterEdit(Files(levels[l]), e, l) {
      AddsAt(0, made, l);
      if l == 0 { OnlyAdds(levels[l], made, levels'[l], e, l); } else { Untouched(levels[l], levels'[l], e, l); }
    }
  }

  // ----- what the edits so far stand for -----

  /** No file of the version was ever in a deeper level. */
  ghost predicate NeverDeeper(levels: Levels, edits: seq<Edit>) {
    forall l, f, d :: 0 <= l < d < NUM_LEVELS && l < |levels| && f in levels[l] ==> f.number !in Numbers(FoldAdded(edits, d))
  }

  /** Every number that ever entered a level was given out. */
  ghost predicate GivenOut(edits: seq<Edit>, nextFile: nat) {
    forall l, f :: 0 <= l < NUM_LEVELS && f in FoldAdded(edits, l) ==> f.number < nextFile
  }

  ghost predicate Replays(levels: Levels, nextFile: nat, edits: seq<Edit>) {
    && (forall i :: 0 <= i < |edits| ==> edits[i].Valid())
    && (forall l :: 0 <= l < NUM_LEVELS ==> NeverTwice({}, edits, l))
    && Holds(levels, EMPTY, edits)
    && NeverDeeper(levels, edits) && GivenOut(edits, nextFile)
  }

  /** Tables with distinct numbers, none of which entered a level before. */
  ghost predicate Unrecorded(files: seq<File>, edits: seq<Edit>) {
    && Distinct(Files(files))
    && forall i, l :: 0 <= i < |files| && 0 <= l < NUM_LEVELS ==> files[i].number !in Numbers(FoldAdded(edits, l))
  }

  /** The tables that the next manifest records will add are new, or the one file that moves. */
  ghost predicate PendingUp(m: Memory, edits: seq<Edit>) {
    && (m.flush.FlushBuilt? && m.flush.file.Some? ==> Unrecorded([m.flush.file.value], edits))
    && (m.compacting.CompactionBuilt? ==>
          || Unrecorded(m.compacting.outputs, edits)
          || (m.compacting.outputs == m.compacting.c.inputs0 && |m.compacting.c.inputs0| == 1 && m.compacting.c.inputs1 == []))
    && (m.flush.FlushBuilt? && m.flush.file.Some? && m.compacting.CompactionBuilt? ==>
          forall i :: 0 <= i < |m.compacting.outputs| ==> m.compacting.outputs[i].number != m.flush.file.value.number)
  }

  ghost predicate NewNumbers(files: seq<File>, nextFile: nat) {
    && (forall i :: 0 <= i < |files| ==> files[i].number > nextFile)
    && Distinct(Files(files))
  }

  ghost predicate ManifestInv(s: System, edits: seq<Edit>) {
    && Replays(s.disk.levels, s.disk.nextFile, edits)
    && (s.up.Some? ==> PendingUp(s.up.value, edits))
    && (s.up.None? && s.recovery.Some? ==> NewNumbers(s.recovery.value.made, s.disk.nextFile))
  }

  // ----- the manifest of a run -----

  function AllFiles(levels: Levels): seq<(nat, File)> {
    if levels == [] then [] else AllFiles(levels[..|levels| - 1]) + At(|levels| - 1, levels[|levels| - 1])
  }

  /** WriteSnapshot. */
  function SnapshotEdit(levels: Levels): Edit { Edit([], AllFiles(levels)) }

  function FlushEdit(level: nat, file: Option<File>): Edit { AddEdit(level, if file.Some? then [file.value] else []) }

  /** What a step writes to the manifest. */
  datatype Writing = NoRecord | OpenRecords | FlushRecord | CompactionRecord

  function WritingOf(s: System, s': System): Writing {
    if s.up.None? && s'.up.Some? && s.recovery.Some? then OpenRecords
    else if s.up.Some? && s'.up.Some? && s.up.value.flush.FlushBuilt? && s'.up.value.flush.FlushLogged? then FlushRecord
    else if s.up.Some? && s'.up.Some? && s.up.value.compacting.CompactionBuilt? && s'.up.value.compacting.CompactionLogged? then CompactionRecord
    else NoRecord
  }

  /**
   A flush or a compaction appends its edit, and opening the database starts a new
   manifest with a snapshot and the edit of the recovery.
   */
  function NextManifest(s: System, s': System, edits: seq<Edit>): seq<Edit> {
    match WritingOf(s, s')
    case OpenRecords => [SnapshotEdit(s.disk.levels), AddEdit(0, s.recovery.value.made)]
    case FlushRecord => edits + [FlushEdit(s.up.value.flush.level, s.up.value.flush.file)]
    case CompactionRecord => edits + [CompactionEdit(s.up.value.compacting.c, s.up.value.compacting.outputs)]
    case NoRecord => edits
  }

  /** NewDB writes a record without files. */
  function ManifestOf(trace: seq<System>, i: nat): seq<Edit>
    requires i < |trace|
  {
    if i == 0 then [Edit([], [])] else NextManifest(trace[i - 1], trace[i], ManifestOf(trace, i - 1))
  }

  /** LogAndApply sets the numbers of the record: a flush sets a new log number, a compaction repeats the current one, a snapshot sets none. */
  function NextNumbers(s: System, s': System, ns: seq<Manifest.Numbers>): seq<Manifest.Numbers> {
    match WritingOf(s, s')
    case OpenRecords =>
      var r := s.recovery.value;
      [Manifest.Numbers(None, None, None), Manifest.Numbers(Some(r.nextFile), Some(r.newLog), Some(r.lastSequence))]
    case FlushRecord =>
      var m := s.up.value;
      ns + [Manifest.Numbers(Some(m.nextFile), Some(m.logfile), Some(m.lastSequence))]
    case CompactionRecord =>
      var m := s.up.value;
      ns + [Manifest.Numbers(Some(m.nextFile), Some(m.logNumber), Some(m.lastSequence))]
    case NoRecord => ns
  }

  function NumbersOf(trace: seq<System>, i: nat): seq<Manifest.Numbers>
    requires i < |trace|
  {
    if i == 0 then [Manifest.Numbers(Some(2), Some(0), Some(0))] else NextNumbers(trace[i - 1], trace[i], NumbersOf(trace, i - 1))
  }

  lemma ReplaysOrdered(levels: Levels, nextFile: nat, edits: seq<Edit>)
    requires Replays(levels, nextFile, edits)
    ensures AllOrdered(levels)
    ensures forall l, f :: 0 <= l < NUM_LEVELS && f in levels[l] ==> f in FoldAdded(edits, l) && f.number < nextFile
  {
    forall l | 0 <= l < NUM_LEVELS
      ensures SortedFiles(levels[l]) && Distinct(Files(levels[l])) && forall f :: f in levels[l] ==> f in FoldAdded(edits, l)
    {
      assert Files(EMPTY[l]) == {} && edits[..|edits|] == edits;
      WithinFold({}, edits, |edits|, l);
      assert {} + FoldAdded(edits, l) == FoldAdded(edits, l);
      assert forall f :: f in levels[l] ==> f in Files(levels[l]);
    }
  }

  /** One more edit whose files are new to their levels. */
  lemma ReplaysStep(levels: Levels, nextFile: nat, edits: seq<Edit>, e: Edit, levels': Levels, nextFile': nat)
    requires Replays(levels, nextFile, edits) && e.Valid() && IsAfter(levels, e, levels')
    requires forall l :: 0 <= l < NUM_LEVELS ==> FreshAdds(FoldAdded(edits, l), e, l)
    requires NeverDeeper(levels', edits + [e]) && nextFile <= nextFile'
    requires forall l, f :: 0 <= l < NUM_LEVELS && f in e.Adds(l) ==> f.number < nextFile'
    ensures Replays(levels', nextFile', edits + [e])
  {
    var all := edits + [e];
    assert all[..|edits|] == edits;
    HoldsStep(levels, EMPTY, edits, e, levels');
    forall l | 0 <= l < NUM_LEVELS ensures NeverTwice({}, all, l) {
      forall i | 0 <= i < |all| ensures FreshAdds({} + FoldAdded(all[..i], l), all[i], l) {
        if i < |edits| {
          assert NeverTwice({}, edits, l) && all[..i] == edits[..i];
        } else {
          assert {} + FoldAdded(all[..i], l) == FoldAdded(edits, l);
        }
      }
    }
    forall l, f | 0 <= l < NUM_LEVELS && f in FoldAdded(all, l) ensures f.number < nextFile' {
      assert f in FoldAdded(edits, l) || f in e.Adds(l);
    }
  }

  /** Edits that add new tables at one level. */
  ghost predicate AddsOnly(e: Edit, level: nat, files: seq<File>) {
    e.Valid() && forall l :: 0 <= l < NUM_LEVELS ==> e.Adds(l) == if l == level then Files(files) else {}
  }

  lemma FoldSnoc(edits: seq<Edit>, e: Edit, l: nat)
    ensures FoldAdded(edits + [e], l) == FoldAdded(edits, l) + e.Adds(l)
  {
    assert (edits + [e])[..|edits|] == edits;
  }

  lemma FilesAfter(levels: Levels, e: Edit, levels': Levels, l: nat, f: File)
    requires IsAfter(levels, e, levels') && l < NUM_LEVELS && f in levels'[l]
    ensures f in levels[l] || f in e.Adds(l)
  {
    assert f in Files(levels'[l]);
  }

  lemma NewTablesStep(levels: Levels, nextFile: nat, edits: seq<Edit>, level: nat, files: seq<File>, e: Edit, levels': Levels, nextFile': nat)
    requires Replays(levels, nextFile, edits) && IsAfter(levels, e, levels') && AddsOnly(e, level, files) && Unrecorded(files, edits)
    requires nextFile <= nextFile' && forall i :: 0 <= i < |files| ==> files[i].number < nextFile'
    ensures Replays(levels', nextFile', edits + [e])
  {
    forall l | 0 <= l < NUM_LEVELS ensures FreshAdds(FoldAdded(edits, l), e, l) {
      forall f | f in e.Adds(l) ensures f.number !in Numbers(FoldAdded(edits, l)) { assert f in files; }
    }
    forall l, f, d | 0 <= l < d < NUM_LEVELS && f in levels'[l] ensures f.number !in Numbers(FoldAdded(edits + [e], d)) {
      FoldSnoc(edits, e, d);
      FilesAfter(levels, e, levels', l, f);
      NewIsNotDeeper(levels, nextFile, edits, level, files, l, f, d);
    }
    ReplaysStep(levels, nextFile, edits, e, levels', nextFile');
  }

  lemma NewIsNotDeeper(levels: Levels, nextFile: nat, edits: seq<Edit>, level: nat, files: seq<File>, l: nat, f: File, d: nat)
    requires Replays(levels, nextFile, edits) && Unrecorded(files, edits) && l < d < NUM_LEVELS
    requires f in levels[l] || (l == level && f in files)
    ensures f.number !in Numbers(FoldAdded(edits, d) + if d == level then Files(files) else {})
  {
    ReplaysOrdered(levels, nextFile, edits);
    if f in levels[l] { assert f.number in Numbers(FoldAdded(edits, l)); }
    forall g | g in FoldAdded(edits, d) + (if d == level then Files(files) else {}) ensures g.number != f.number {
      if g in FoldAdded(edits, d) {
        assert g.number in Numbers(FoldAdded(edits, d));
      } else {
        assert g in files && d == level && f in levels[l];
      }
    }
  }

  /** A file is in one level only: its own versions are not newer than themselves. */
  lemma InOneLevel(levels: Levels, f: File, l: nat, d: nat)
    requires ValidLevels(levels) && l < d < NUM_LEVELS && f in levels[l]
    ensures f !in levels[d]
  {
    assert ValidLevel(l, levels[l]);
    var i :| 0 <= i < |levels[l]| && levels[l][i] == f;
    assert f.entries[0] in f.entries;
    assert !Newer(f, f);
    assert AllNewer(levels[l], levels[d]);
  }

  lemma MoveStep(levels: Levels, nextFile: nat, edits: seq<Edit>, c: Compaction, f: File, levels': Levels, nextFile': nat, tables: map<nat, File>)
    requires Replays(levels, nextFile, edits) && ValidLevels(levels) && Closed(levels, c) && c.inputs0 == [f] && c.inputs1 == []
    requires Installed(levels, c, [f], levels') && Stored(levels, tables, nextFile') && nextFile <= nextFile'
    ensures IsAfter(levels, CompactionEdit(c, [f]), levels')
    ensures Replays(levels', nextFile', edits + [CompactionEdit(c, [f])])
  {
    var e := CompactionEdit(c, [f]);
    ReplaysOrdered(levels, nextFile, edits);
    MovedIsNew(levels, nextFile, edits, c, f);
    InstalledIsEdit(levels, c, [f], levels');
    EditAdds(c, [f]);
    MoveNeverDeeper(levels, edits, c, f, levels', tables, nextFile');
    forall l, g | 0 <= l < NUM_LEVELS && g in e.Adds(l) ensures g.number < nextFile' { assert g in [f]; }
    ReplaysStep(levels, nextFile, edits, e, levels', nextFile');
  }

  /** The level that a file moves to never had it. */
  lemma MovedIsNew(levels: Levels, nextFile: nat, edits: seq<Edit>, c: Compaction, f: File)
    requires Replays(levels, nextFile, edits) && Closed(levels, c) && c.inputs0 == [f]
    ensures f in levels[c.level] && f.number < nextFile
    ensures Numbers(Files(levels[c.level + 1])) !! Numbers(Files([f]))
    ensures forall l :: 0 <= l < NUM_LEVELS ==> FreshAdds(FoldAdded(edits, l), CompactionEdit(c, [f]), l)
  {
    ReplaysOrdered(levels, nextFile, edits);
    assert f in c.inputs0 && f in levels[c.level];
    LevelInFold(levels, nextFile, edits, c.level + 1);
    OneIsApart(levels[c.level + 1], FoldAdded(edits, c.level + 1), f);
    FreshOne(edits, c, f);
  }

  lemma LevelInFold(levels: Levels, nextFile: nat, edits: seq<Edit>, l: nat)
    requires Replays(levels, nextFile, edits) && l < NUM_LEVELS
    ensures forall g :: g in levels[l] ==> g in FoldAdded(edits, l)
  {
    assert Files(EMPTY[l]) == {} && edits[..|edits|] == edits;
    WithinFold({}, edits, |edits|, l);
    assert forall g :: g in levels[l] ==> g in Files(levels[l]);
  }

  lemma OneIsApart(files: seq<File>, all: set<File>, f: File)
    requires f.number !in Numbers(all) && forall g :: g in files ==> g in all
    ensures Numbers(Files(files)) !! Numbers(Files([f]))
  {
    forall g | g in files ensures g.number in Numbers(all) { assert g in all; }
    assert forall g :: g in Files([f]) ==> g == f;
  }

  lemma FreshOne(edits: seq<Edit>, c: Compaction, f: File)
    requires c.level + 1 < NUM_LEVELS && f.number !in Numbers(FoldAdded(edits, c.level + 1))
    ensures forall l :: 0 <= l < NUM_LEVELS ==> FreshAdds(FoldAdded(edits, l), CompactionEdit(c, [f]), l)
  {
    EditAdds(c, [f]);
    forall l | 0 <= l < NUM_LEVELS ensures FreshAdds(FoldAdded(edits, l), CompactionEdit(c, [f]), l) {
      assert forall g :: g in CompactionEdit(c, [f]).Adds(l) ==> g == f && l == c.level + 1;
    }
  }

  lemma MoveNeverDeeper(levels: Levels, edits: seq<Edit>, c: Compaction, f: File, levels': Levels, tables: map<nat, File>, nextFile': nat)
    requires ValidLevels(levels) && Closed(levels, c) && c.inputs0 == [f] && c.inputs1 == [] && NeverDeeper(levels, edits)
    requires Installed(levels, c, [f], levels') && Stored(levels, tables, nextFile')
    ensures NeverDeeper(levels', edits + [CompactionEdit(c, [f])])
  {
    var e := CompactionEdit(c, [f]);
    EditAdds(c, [f]);
    forall l, g, d | 0 <= l < d < NUM_LEVELS && g in levels'[l] ensures g.number !in Numbers(FoldAdded(edits + [e], d)) {
      FoldSnoc(edits, e, d);
      MovedIsNotDeeper(levels, edits, c, f, levels', tables, nextFile', l, g, d);
    }
  }

  lemma EditAdds(c: Compaction, outputs: seq<File>)
    requires c.level + 1 < NUM_LEVELS
    ensures AddsOnly(CompactionEdit(c, outputs), c.level + 1, outputs)
  {
    forall l | 0 <= l < NUM_LEVELS ensures CompactionEdit(c, outputs).Adds(l) == if l == c.level + 1 then Files(outputs) else {} {
      AddsAt(c.level + 1, outputs, l);
    }
  }

  lemma MovedIsNotDeeper(levels: Levels, edits: seq<Edit>, c: Compaction, f: File, levels': Levels, tables: map<nat, File>, nextFile': nat, l: nat, g: File, d: nat)
    requires ValidLevels(levels) && Closed(levels, c) && c.inputs0 == [f] && c.inputs1 == [] && NeverDeeper(levels, edits)
    requires Installed(levels, c, [f], levels') && Stored(levels, tables, nextFile')
    requires l < d < NUM_LEVELS && g in levels'[l]
    ensures g.number !in Numbers(FoldAdded(edits, d) + if d == c.level + 1 then Files([f]) else {})
  {
    assert f in c.inputs0 && f in levels[c.level];
    var from := if g in levels[l] then l else c.level;
    assert g in levels[from] && from < d;
    assert g.number !in Numbers(FoldAdded(edits, d));
    if d == c.level + 1 {
      assert g != f by {
        if l < c.level { InOneLevel(levels, g, l, c.level); }
      }
      SameNumber(levels, tables, nextFile', from, g, c.level, f);
    }
    forall h | h in FoldAdded(edits, d) + (if d == c.level + 1 then Files([f]) else {}) ensures h.number != g.number {
      assert h in FoldAdded(edits, d) ==> h.number in Numbers(FoldAdded(edits, d));
    }
  }

  lemma SameNumber(levels: Levels, tables: map<nat, File>, nextFile: nat, l: nat, f: File, d: nat, g: File)
    requires Stored(levels, tables, nextFile) && l < |levels| && d < |levels| && f in levels[l] && g in levels[d]
    ensures f.number == g.number ==> f == g
  {
    var i :| 0 <= i < |levels[l]| && levels[l][i] == f;
    var j :| 0 <= j < |levels[d]| && levels[d][j] == g;
  }

  // ----- the steps -----

  lemma AddEditAdds(level: nat, files: seq<File>)
    requires level < NUM_LEVELS
    ensures AddsOnly(AddEdit(level, files), level, files)
  {
    forall l | 0 <= l < NUM_LEVELS ensures AddEdit(level, files).Adds(l) == if l == level then Files(files) else {} {
      AddsAt(level, files, l);
    }
  }

  /** A flush of an empty memtable records no table. */
  lemma NothingIsEdit(levels: Levels, level: nat)
    requires AllOrdered(levels)
    ensures IsAfter(levels, AddEdit(level, []), levels)
  {
    forall l | 0 <= l < NUM_LEVELS ensures Files(levels[l]) == AfterEdit(Files(levels[l]), AddEdit(level, []), l) {
      AddsAt(level, [], l);
      assert Files([]) == {};
      Untouched(levels[l], levels[l], AddEdit(level, []), l);
    }
  }

  lemma NewIsUnrecorded(files: seq<File>, nextFile: nat, edits: seq<Edit>)
    requires GivenOut(edits, nextFile) && Distinct(Files(files)) && forall i :: 0 <= i < |files| ==> files[i].number >= nextFile
    ensures Unrecorded(files, edits)
  {
  }

  lemma LogFlushReplays(s: System, s': System, levels: Levels, edits: seq<Edit>)
    requires Inv(s) && ManifestInv(s, edits) && LogFlush(s, s', levels)
    ensures var e := FlushEdit(s.up.value.flush.level, s.up.value.flush.file);
      IsAfter(s.disk.levels, e, s'.disk.levels) && Replays(s'.disk.levels, s'.disk.nextFile, edits + [e])
  {
    var m := s.up.value;
    FlushReplays(m.levels, s.disk.nextFile, edits, m.flush.level, m.flush.file, levels, m.nextFile, s.disk.tables, m.imm);
  }

  lemma FlushReplays(levels: Levels, nextFile: nat, edits: seq<Edit>, level: nat, file: Option<File>, levels': Levels, nextFile': nat, tables: map<nat, File>, imm: Option<seq<Entry>>)
    requires Replays(levels, nextFile, edits) && nextFile <= nextFile' && WithFlush(levels, level, file, levels')
    requires BuiltFlush(levels, tables, nextFile', imm, level, file) && (file.Some? ==> Unrecorded([file.value], edits))
    ensures IsAfter(levels, FlushEdit(level, file), levels') && Replays(levels', nextFile', edits + [FlushEdit(level, file)])
  {
    var files := if file.Some? then [file.value] else [];
    ReplaysOrdered(levels, nextFile, edits);
    AddEditAdds(level, files);
    if file.Some? {
      AddedIsEdit(levels, level, file.value, levels');
      assert files[0] == file.value;
    } else {
      NothingIsEdit(levels, level);
    }
    NewTablesStep(levels, nextFile, edits, level, files, FlushEdit(level, file), levels', nextFile');
  }

  lemma LogCompactionReplays(s: System, s': System, levels: Levels, edits: seq<Edit>)
    requires Inv(s) && ManifestInv(s, edits) && LogCompaction(s, s', levels)
    ensures var e := CompactionEdit(s.up.value.compacting.c, s.up.value.compacting.outputs);
      IsAfter(s.disk.levels, e, s'.disk.levels) && Replays(s'.disk.levels, s'.disk.nextFile, edits + [e])
  {
    var m := s.up.value;
    CompactionReplays(m.levels, s.disk.nextFile, edits, m.compacting.c, m.compacting.outputs, levels, m.nextFile, s.disk.tables);
  }

  lemma CompactionReplays(levels: Levels, nextFile: nat, edits: seq<Edit>, c: Compaction, outputs: seq<File>, levels': Levels, nextFile': nat, tables: map<nat, File>)
    requires Replays(levels, nextFile, edits) && ValidLevels(levels) && Stored(levels, tables, nextFile') && nextFile <= nextFile'
    requires Closed(levels, c) && Installed(levels, c, outputs, levels') && TablesHold(outputs, tables, nextFile')
    requires Unrecorded(outputs, edits) || (outputs == c.inputs0 && |c.inputs0| == 1 && c.inputs1 == [])
    ensures IsAfter(levels, CompactionEdit(c, outputs), levels') && Replays(levels', nextFile', edits + [CompactionEdit(c, outputs)])
  {
    if Unrecorded(outputs, edits) {
      OutputsStep(levels, nextFile, edits, c, outputs, levels', nextFile');
    } else {
      assert outputs == [outputs[0]];
      MoveStep(levels, nextFile, edits, c, outputs[0], levels', nextFile', tables);
    }
  }

  lemma OutputsStep(levels: Levels, nextFile: nat, edits: seq<Edit>, c: Compaction, outputs: seq<File>, levels': Levels, nextFile': nat)
    requires Replays(levels, nextFile, edits) && Closed(levels, c) && Installed(levels, c, outputs, levels')
    requires Unrecorded(outputs, edits) && nextFile <= nextFile' && forall i :: 0 <= i < |outputs| ==> outputs[i].number < nextFile'
    ensures IsAfter(levels, CompactionEdit(c, outputs), levels')
    ensures Replays(levels', nextFile', edits + [CompactionEdit(c, outputs)])
  {
    ReplaysOrdered(levels, nextFile, edits);
    OutputsAreNew(levels, nextFile, edits, c, outputs);
    InstalledIsEdit(levels, c, outputs, levels');
    EditAdds(c, outputs);
    NewTablesStep(levels, nextFile, edits, c.level + 1, outputs, CompactionEdit(c, outputs), levels', nextFile');
  }

  lemma OutputsAreNew(levels: Levels, nextFile: nat, edits: seq<Edit>, c: Compaction, outputs: seq<File>)
    requires Replays(levels, nextFile, edits) && Unrecorded(outputs, edits) && c.level + 1 < NUM_LEVELS
    ensures Numbers(Files(levels[c.level + 1])) !! Numbers(Files(outputs))
  {
    ReplaysOrdered(levels, nextFile, edits);
    forall f, g | f in Files(levels[c.level + 1]) && g in Files(outputs) ensures f.number != g.number {
      assert f.number in Numbers(FoldAdded(edits, c.level + 1));
      var i :| 0 <= i < |outputs| && outputs[i] == g;
    }
  }

  // ----- a new manifest -----

  lemma {:induction false} AllFilesAt(levels: Levels, l: nat)
    ensures AddedAt(AllFiles(levels), l) == if l < |levels| then Files(levels[l]) else {}
    ensures forall i :: 0 <= i < |AllFiles(levels)| ==> AllFiles(levels)[i].0 < |levels|
    decreases |levels|
  {
    if levels != [] {
      var n := |levels| - 1;
      AllFilesAt(levels[..n], l);
      AddsAt(n, levels[n], l);
      AddedConcat(AllFiles(levels[..n]), At(n, levels[n]), l);
    }
  }

  lemma AddedConcat(a: seq<(nat, File)>, b: seq<(nat, File)>, l: nat)
    ensures AddedAt(a + b, l) == AddedAt(a, l) + AddedAt(b, l)
  {
    assert forall x :: x in a + b <==> x in a || x in b;
  }

  lemma IsSnapshotEdit(levels: Levels)
    requires |levels| == NUM_LEVELS
    ensures SnapshotEdit(levels).Valid() && IsSnapshot(SnapshotEdit(levels), levels)
  {
    forall l | 0 <= l < NUM_LEVELS ensures SnapshotEdit(levels).Adds(l) == Files(levels[l]) { AllFilesAt(levels, l); }
    AllFilesAt(levels, 0);
  }

  /** A manifest that only holds a snapshot. */
  lemma SnapshotReplays(levels: Levels, nextFile: nat, tables: map<nat, File>)
    requires AllOrdered(levels) && ValidLevels(levels) && Stored(levels, tables, nextFile)
    ensures Replays(levels, nextFile, [SnapshotEdit(levels)])
  {
    var e := SnapshotEdit(levels);
    var edits := [e];
    IsSnapshotEdit(levels);
    forall l | 0 <= l < NUM_LEVELS
      ensures FoldAdded(edits, l) == Files(levels[l]) && NeverTwice({}, edits, l) && OneAtATime(Files(EMPTY[l]), edits, l) == Files(levels[l])
    {
      assert edits[..0] == [] && Files(EMPTY[l]) == {} && [e] + [] == edits;
      SnapshotStarts(e, levels, [], l);
    }
    forall l, f, d | 0 <= l < d < NUM_LEVELS && f in levels[l] ensures f.number !in Numbers(FoldAdded(edits, d)) {
      forall g | g in levels[d] ensures g.number != f.number {
        SameNumber(levels, tables, nextFile, l, f, d, g);
        InOneLevel(levels, f, l, d);
      }
    }
    forall l, f | 0 <= l < NUM_LEVELS && f in levels[l] ensures f.number < nextFile {
      var i :| 0 <= i < |levels[l]| && levels[l][i] == f;
    }
  }

  lemma NewManifest(levels: Levels, nextFile: nat, tables: map<nat, File>, made: seq<File>, levels': Levels, nextFile': nat)
    requires AllOrdered(levels) && ValidLevels(levels) && Stored(levels, tables, nextFile) && NewNumbers(made, nextFile)
    requires |levels'| == NUM_LEVELS && (forall l :: 1 <= l < NUM_LEVELS ==> levels'[l] == levels[l]) && Rebuilt(levels[0], [], made, levels'[0])
    requires nextFile <= nextFile' && forall i :: 0 <= i < |made| ==> made[i].number < nextFile'
    ensures IsAfter(levels, AddEdit(0, made), levels') && Replays(levels', nextFile', [SnapshotEdit(levels), AddEdit(0, made)])
  {
    SnapshotReplays(levels, nextFile, tables);
    AddEditAdds(0, made);
    RecoveredIsEdit(levels, made, levels');
    NewIsUnrecorded(made, nextFile, [SnapshotEdit(levels)]);
    NewTablesStep(levels, nextFile, [SnapshotEdit(levels)], 0, made, AddEdit(0, made), levels', nextFile');
    assert [SnapshotEdit(levels)] + [AddEdit(0, made)] == [SnapshotEdit(levels), AddEdit(0, made)];
  }

  lemma InstallRecoveryReplays(s: System, s': System, levels: Levels, edits: seq<Edit>)
    requires Inv(s) && ManifestInv(s, edits) && InstallRecovery(s, s', levels)
    ensures var r := s.recovery.value;
      && IsAfter(s.disk.levels, AddEdit(0, r.made), s'.disk.levels)
      && Replays(s'.disk.levels, s'.disk.nextFile, [SnapshotEdit(s.disk.levels), AddEdit(0, r.made)])
  {
    var r := s.recovery.value;
    ReplaysOrdered(s.disk.levels, s.disk.nextFile, edits);
    NewManifest(s.disk.levels, s.disk.nextFile, s.disk.tables, r.made, levels, r.nextFile);
  }

  // ----- what is pending -----

  lemma FlushedPending(m: Memory, edits: seq<Edit>)
    requires PendingUp(m, edits) && m.flush.FlushBuilt? && m.flush.level < NUM_LEVELS
    ensures PendingUp(m.(flush := FlushLogged), edits + [FlushEdit(m.flush.level, m.flush.file)])
  {
    var level, file := m.flush.level, m.flush.file;
    var files, e := if file.Some? then [file.value] else [], FlushEdit(level, file);
    AddEditAdds(level, files);
    if m.compacting.CompactionBuilt? && Unrecorded(m.compacting.outputs, edits) {
      var outputs := m.compacting.outputs;
      forall i, l | 0 <= i < |outputs| && 0 <= l < NUM_LEVELS ensures outputs[i].number !in Numbers(FoldAdded(edits + [e], l)) {
        FoldSnoc(edits, e, l);
        assert forall f :: f in e.Adds(l) ==> f in files;
      }
    }
  }

  lemma DistinctByNumber(files: seq<File>)
    requires forall i, j :: 0 <= i < j < |files| ==> files[i].number < files[j].number
    ensures Distinct(Files(files))
  {
    forall f, g | f in Files(files) && g in Files(files) && f.number == g.number ensures f == g {
      var i :| 0 <= i < |files| && files[i] == f;
      var j :| 0 <= j < |files| && files[j] == g;
    }
  }

  /** The steps that write to a manifest. */
  ghost predicate Appends(s: System, s': System) {
    || (exists levels :: LogFlush(s, s', levels))
    || (exists levels :: LogCompaction(s, s', levels))
    || (exists levels :: InstallRecovery(s, s', levels))
  }

  ghost predicate Unwritten(s: System, s': System, edits: seq<Edit>) {
    ManifestInv(s', edits) && WritingOf(s, s').NoRecord? && SameDisk(s.disk, s'.disk)
  }

  /** The version and the numbers that a manifest records. */
  ghost predicate SameDisk(d: Disk, d': Disk) {
    d'.levels == d.levels && d'.logNumber == d.logNumber && d'.nextFile == d.nextFile && d'.lastSequence == d.lastSequence
  }

  lemma BuildFlushPending(s: System, s': System, level: nat, file: Option<File>, edits: seq<Edit>)
    requires Inv(s) && ManifestInv(s, edits) && BuildFlush(s, s', level, file)
    ensures Unwritten(s, s', edits)
  {
    if file.Some? { TableIsUnrecorded(file.value, s.disk.nextFile, edits); }
  }

  lemma TableIsUnrecorded(f: File, nextFile: nat, edits: seq<Edit>)
    requires GivenOut(edits, nextFile) && f.number >= nextFile
    ensures Unrecorded([f], edits)
  {
    DistinctByNumber([f]);
    NewIsUnrecorded([f], nextFile, edits);
  }

  lemma BuildCompactionPending(s: System, s': System, c: Compaction, merged: seq<Entry>, outputs: seq<File>, snap: nat, edits: seq<Edit>)
    requires Inv(s) && ManifestInv(s, edits) && BuildCompaction(s, s', c, merged, outputs, snap)
    ensures Unwritten(s, s', edits)
  {
    OutputsUnwritten(s, s', outputs, edits);
  }

  lemma OutputsUnwritten(s: System, s': System, outputs: seq<File>, edits: seq<Edit>)
    requires ManifestInv(s, edits) && s.up.Some? && Idle(s.up.value) && s.disk.nextFile <= s.up.value.nextFile
    requires forall i :: 0 <= i < |outputs| ==> outputs[i].number == s.up.value.nextFile + i
    requires SameDisk(s.disk, s'.disk) && s'.up.Some?
    requires var m := s'.up.value; m.flush.NotFlushing? && m.compacting.CompactionBuilt? && m.compacting.outputs == outputs
    ensures Unwritten(s, s', edits)
  {
    OutputsAreUnrecorded(s.up.value.nextFile, outputs, s.disk.nextFile, edits);
    OutputsArePending(s'.up.value, edits);
  }

  lemma OutputsAreUnrecorded(next: nat, outputs: seq<File>, nextFile: nat, edits: seq<Edit>)
    requires GivenOut(edits, nextFile) && nextFile <= next && forall i :: 0 <= i < |outputs| ==> outputs[i].number == next + i
    ensures Unrecorded(outputs, edits)
  {
    DistinctByNumber(outputs);
    NewIsUnrecorded(outputs, nextFile, edits);
  }

  lemma OutputsArePending(m: Memory, edits: seq<Edit>)
    requires m.flush.NotFlushing? && m.compacting.CompactionBuilt? && Unrecorded(m.compacting.outputs, edits)
    ensures PendingUp(m, edits)
  {
  }

  lemma BuildMovePending(s: System, s': System, c: Compaction, snap: nat, edits: seq<Edit>)
    requires ManifestInv(s, edits) && BuildMove(s, s', c, snap)
    ensures Unwritten(s, s', edits)
  {
  }

  lemma BuildRecoveryPending(s: System, s': System, r: Recovery, edits: seq<Edit>)
    requires ManifestInv(s, edits) && BuildRecovery(s, s', r)
    ensures Unwritten(s, s', edits)
  {
    DistinctByNumber(r.made);
  }

  lemma OtherStep(s: System, s': System, edits: seq<Edit>)
    requires Inv(s) && ManifestInv(s, edits) && Step(s, s') && !Appends(s, s')
    ensures Unwritten(s, s', edits)
  {
    if (exists b :: BeginWrite(s, s', b)) || (exists mem :: FinishWrite(s, s', mem)) || SwitchMemtable(s, s') || InstallFlush(s, s') {
      WriteStep(s, s', edits);
    } else if level, file :| BuildFlush(s, s', level, file) {
      BuildFlushPending(s, s', level, file, edits);
    } else if c, merged, outputs, snap :| BuildCompaction(s, s', c, merged, outputs, snap) {
      BuildCompactionPending(s, s', c, merged, outputs, snap, edits);
    } else if c, snap :| BuildMove(s, s', c, snap) {
      BuildMovePending(s, s', c, snap, edits);
    } else {
      LaterOtherStep(s, s', edits);
    }
  }

  lemma WriteStep(s: System, s': System, edits: seq<Edit>)
    requires ManifestInv(s, edits)
    requires (exists b :: BeginWrite(s, s', b)) || (exists mem :: FinishWrite(s, s', mem)) || SwitchMemtable(s, s') || InstallFlush(s, s')
    ensures Unwritten(s, s', edits)
  {
  }

  lemma LaterOtherStep(s: System, s': System, edits: seq<Edit>)
    requires ManifestInv(s, edits)
    requires
      || InstallCompaction(s, s')
      || (exists tables, first :: DeleteObsolete(s, s', tables, first))
      || TakeSnapshot(s, s')
      || (exists snap :: ReleaseSnapshot(s, s', snap))
      || (exists keep :: Crash(s, s', keep))
      || (exists r :: BuildRecovery(s, s', r))
    ensures Unwritten(s, s', edits)
  {
    if InstallCompaction(s, s') {
      assert PendingUp(s'.up.value, edits);
    } else if tables, first :| DeleteObsolete(s, s', tables, first) {
      SameWork(s, s', edits);
    } else if TakeSnapshot(s, s') {
      SameWork(s, s', edits);
    } else if snap :| ReleaseSnapshot(s, s', snap) {
      SameWork(s, s', edits);
    } else if keep :| Crash(s, s', keep) {
      CrashUnwritten(s, s', keep, edits);
    } else {
      var r :| BuildRecovery(s, s', r);
      BuildRecoveryPending(s, s', r, edits);
    }
  }

  /** A step that leaves version, numbers and the background work alone. */
  lemma SameWork(s: System, s': System, edits: seq<Edit>)
    requires ManifestInv(s, edits) && SameDisk(s.disk, s'.disk) && s.up.Some? && s'.up.Some?
    requires s'.up.value.flush == s.up.value.flush && s'.up.value.compacting == s.up.value.compacting
    ensures Unwritten(s, s', edits)
  {
  }

  lemma CrashUnwritten(s: System, s': System, keep: nat, edits: seq<Edit>)
    requires ManifestInv(s, edits) && Crash(s, s', keep)
    ensures Unwritten(s, s', edits)
  {
  }

  // ----- whole runs -----

  /** Every step appends its own edit to the manifest, starts a new one, or leaves it alone; it replays to the version on disk. */
  lemma ManifestStep(s: System, s': System, edits: seq<Edit>)
    requires Inv(s) && ManifestInv(s, edits) && Step(s, s')
    ensures ManifestInv(s', NextManifest(s, s', edits))
    ensures Appends(s, s') ==> Written(s, s', edits)
    ensures !Appends(s, s') ==> Unwritten(s, s', edits)
  {
    if Appends(s, s') { AppendStep(s, s', edits); } else { OtherStep(s, s', edits); }
  }

  lemma AppendStep(s: System, s': System, edits: seq<Edit>)
    requires Inv(s) && ManifestInv(s, edits) && Appends(s, s')
    ensures Written(s, s', edits)
  {
    if levels :| LogFlush(s, s', levels) {
      LogFlushReplays(s, s', levels, edits);
      LogFlushWrites(s, s', levels, edits);
    } else if levels :| LogCompaction(s, s', levels) {
      LogCompactionReplays(s, s', levels, edits);
      CompactionIsRecorded(s, s', levels);
      LogCompactionWrites(s, s', edits);
    } else {
      var levels :| InstallRecovery(s, s', levels);
      InstallRecoveryWrites(s, s', levels, edits);
    }
  }

  /** The last record written is what changed the version on disk. */
  ghost predicate Written(s: System, s': System, edits: seq<Edit>) {
    var edits' := NextManifest(s, s', edits);
    ManifestInv(s', edits') && edits' != [] && IsAfter(s.disk.levels, edits'[|edits'| - 1], s'.disk.levels)
  }

  lemma LogFlushWrites(s: System, s': System, levels: Levels, edits: seq<Edit>)
    requires LogFlush(s, s', levels) && PendingUp(s.up.value, edits)
    requires var e := FlushEdit(s.up.value.flush.level, s.up.value.flush.file);
      IsAfter(s.disk.levels, e, s'.disk.levels) && Replays(s'.disk.levels, s'.disk.nextFile, edits + [e])
    ensures Written(s, s', edits)
  {
    FlushedPending(s.up.value, edits);
  }

  /** What recording a compaction leaves in memory, and on disk besides the version. */
  ghost predicate CompactionRecorded(s: System, s': System) {
    && s.up.Some? && s'.up.Some?
    && s.up.value.compacting.CompactionBuilt? && s.up.value.flush.NotFlushing? && s'.up.value.compacting.CompactionLogged? && s'.up.value.flush.NotFlushing?
    && s'.disk.nextFile == s.up.value.nextFile && s'.disk.logNumber == s.disk.logNumber && s'.disk.lastSequence == s.up.value.lastSequence
  }

  lemma CompactionIsRecorded(s: System, s': System, levels: Levels)
    requires LogCompaction(s, s', levels)
    ensures CompactionRecorded(s, s')
  {
  }

  lemma LogCompactionWrites(s: System, s': System, edits: seq<Edit>)
    requires CompactionRecorded(s, s')
    requires var e := CompactionEdit(s.up.value.compacting.c, s.up.value.compacting.outputs);
      IsAfter(s.disk.levels, e, s'.disk.levels) && Replays(s'.disk.levels, s'.disk.nextFile, edits + [e])
    ensures Written(s, s', edits)
  {
  }

  lemma InstallRecoveryWrites(s: System, s': System, levels: Levels, edits: seq<Edit>)
    requires Inv(s) && ManifestInv(s, edits) && InstallRecovery(s, s', levels)
    ensures Written(s, s', edits)
  {
    InstallRecoveryReplays(s, s', levels, edits);
  }

  lemma InitReplays(s: System)
    requires Init(s)
    ensures ManifestInv(s, [Edit([], [])])
  {
    var first := Edit([], []);
    forall l | 0 <= l < NUM_LEVELS
      ensures SortedFiles(s.disk.levels[l]) && Files(s.disk.levels[l]) == OneAtATime(Files(EMPTY[l]), [first], l)
      ensures FoldAdded([first], l) == {} && NeverTwice({}, [first], l)
    {
      NothingAdded(first, l);
    }
  }

  lemma NothingAdded(e: Edit, l: nat)
    requires e == Edit([], [])
    ensures FoldAdded([e], l) == {} && OneAtATime({}, [e], l) == {} && NeverTwice({}, [e], l)
  {
    assert [e][..0] == [];
    assert e.Adds(l) == {} && e.Deletes(l) == {};
  }

  // ----- the numbers -----

  ghost predicate NumbersOnDisk(d: Disk, ns: seq<Manifest.Numbers>) {
    Manifest.LastSet(Manifest.NextFiles(ns), d.nextFile) && Manifest.LastSet(Manifest.LogNumbers(ns), d.logNumber) && Manifest.LastSet(Manifest.LastSequences(ns), d.lastSequence)
  }

  /** A record that sets all three numbers decides them. */
  lemma RecordDecides(ns: seq<Manifest.Numbers>, nextFile: nat, logNumber: nat, lastSequence: nat, d: Disk)
    requires d.nextFile == nextFile && d.logNumber == logNumber && d.lastSequence == lastSequence
    ensures NumbersOnDisk(d, ns + [Manifest.Numbers(Some(nextFile), Some(logNumber), Some(lastSequence))])
  {
    var longer := ns + [Manifest.Numbers(Some(nextFile), Some(logNumber), Some(lastSequence))];
    assert Manifest.NextFiles(longer)[|ns|] == Some(nextFile) && Manifest.LogNumbers(longer)[|ns|] == Some(logNumber) && Manifest.LastSequences(longer)[|ns|] == Some(lastSequence);
  }

  lemma FlushNumbers(s: System, s': System, levels: Levels, ns: seq<Manifest.Numbers>)
    requires LogFlush(s, s', levels)
    ensures NumbersOnDisk(s'.disk, NextNumbers(s, s', ns))
  {
    RecordDecides(ns, s.up.value.nextFile, s.up.value.logfile, s.up.value.lastSequence, s'.disk);
  }

  lemma CompactionNumbers(s: System, s': System, ns: seq<Manifest.Numbers>)
    requires CompactionRecorded(s, s') && s.disk.logNumber == s.up.value.logNumber
    ensures NumbersOnDisk(s'.disk, NextNumbers(s, s', ns))
  {
    RecordDecides(ns, s.up.value.nextFile, s.up.value.logNumber, s.up.value.lastSequence, s'.disk);
  }

  lemma OpenNumbers(s: System, s': System, levels: Levels, ns: seq<Manifest.Numbers>)
    requires InstallRecovery(s, s', levels)
    ensures NumbersOnDisk(s'.disk, NextNumbers(s, s', ns))
  {
    var r, none := s.recovery.value, Manifest.Numbers(None, None, None);
    RecordDecides([none], r.nextFile, r.newLog, r.lastSequence, s'.disk);
    assert NextNumbers(s, s', ns) == [none] + [Manifest.Numbers(Some(r.nextFile), Some(r.newLog), Some(r.lastSequence))];
  }

  lemma NumbersStep(s: System, s': System, edits: seq<Edit>, ns: seq<Manifest.Numbers>)
    requires Inv(s) && ManifestInv(s, edits) && Step(s, s') && NumbersOnDisk(s.disk, ns)
    ensures NumbersOnDisk(s'.disk, NextNumbers(s, s', ns))
  {
    if levels :| LogFlush(s, s', levels) {
      FlushNumbers(s, s', levels, ns);
    } else if levels :| LogCompaction(s, s', levels) {
      CompactionIsRecorded(s, s', levels);
      CompactionNumbers(s, s', ns);
    } else if levels :| InstallRecovery(s, s', levels) {
      OpenNumbers(s, s', levels, ns);
    } else {
      OtherStep(s, s', edits);
      SameNumbers(s, s', ns);
    }
  }

  lemma SameNumbers(s: System, s': System, ns: seq<Manifest.Numbers>)
    requires WritingOf(s, s').NoRecord? && SameDisk(s.disk, s'.disk) && NumbersOnDisk(s.disk, ns)
    ensures NumbersOnDisk(s'.disk, NextNumbers(s, s', ns))
  {
  }

  lemma NumbersGoOn(trace: seq<System>, h: nat, i: nat)
    requires Run(trace) && i == h + 1 < |trace| && ManifestInv(trace[h], ManifestOf(trace, h)) && NumbersOnDisk(trace[h].disk, NumbersOf(trace, h))
    ensures NumbersOnDisk(trace[i].disk, NumbersOf(trace, i))
  {
    RunStep(trace, h, i);
    NumbersStep(trace[h], trace[i], ManifestOf(trace, h), NumbersOf(trace, h));
  }

  lemma NumbersAtFirst(d: Disk)
    requires d.nextFile == 2 && d.logNumber == 0 && d.lastSequence == 0
    ensures NumbersOnDisk(d, [Manifest.Numbers(Some(2), Some(0), Some(0))])
  {
    RecordDecides([], 2, 0, 0, d);
    assert [] + [Manifest.Numbers(Some(2), Some(0), Some(0))] == [Manifest.Numbers(Some(2), Some(0), Some(0))];
  }

  /** In every state of every run, each number on disk is the one that the last manifest record to set it sets. */
  lemma {:induction false} NumbersAreOnDisk(trace: seq<System>, i: nat)
    requires Run(trace) && i < |trace|
    ensures NumbersOnDisk(trace[i].disk, NumbersOf(trace, i))
    decreases i
  {
    if i == 0 {
      NumbersAtFirst(trace[0].disk);
    } else {
      NumbersAreOnDisk(trace, i - 1);
      ManifestOfRun(trace, i - 1);
      NumbersGoOn(trace, i - 1, i);
    }
  }

  lemma RunStep(trace: seq<System>, h: nat, i: nat)
    requires Run(trace) && i == h + 1 < |trace|
    ensures Inv(trace[h]) && Step(trace[h], trace[i])
  {
    RunKeeps(trace, h);
  }

  lemma {:induction false} ManifestOfRun(trace: seq<System>, i: nat)
    requires Run(trace) && i < |trace|
    ensures ManifestInv(trace[i], ManifestOf(trace, i))
    decreases i
  {
    if i == 0 {
      InitReplays(trace[0]);
    } else {
      ManifestOfRun(trace, i - 1);
      ManifestGoesOn(trace, i - 1, i);
    }
  }

  lemma ManifestGoesOn(trace: seq<System>, h: nat, i: nat)
    requires Run(trace) && i == h + 1 < |trace| && ManifestInv(trace[h], ManifestOf(trace, h))
    ensures ManifestInv(trace[i], ManifestOf(trace, i))
  {
    RunStep(trace, h, i);
    ManifestStep(trace[h], trace[i], ManifestOf(trace, h));
  }

  /**
   In every state of every run, the records that the run has written to its manifest
   are valid edits in which no file number enters a level twice, and replaying them
   gives the version on disk and no other.
   */
  lemma DiskIsReplayed(trace: seq<System>, i: nat)
    requires Run(trace) && i < |trace|
    ensures var edits := ManifestOf(trace, i);
      && (forall j :: 0 <= j < |edits| ==> edits[j].Valid())
      && (forall l :: 0 <= l < NUM_LEVELS ==> NeverTwice({}, edits, l))
      && (forall levels :: Holds(levels, EMPTY, edits) <==> levels == trace[i].disk.levels)
  {
    ManifestOfRun(trace, i);
    var edits := ManifestOf(trace, i);
    forall levels | Holds(levels, EMPTY, edits) ensures levels == trace[i].disk.levels {
      HoldsIsUnique(levels, trace[i].disk.levels, EMPTY, edits);
    }
  }

  /** VersionSet::Recover, from the edits that a run has written, finds the version on disk. */
  method RecoverDisk(ghost trace: seq<System>, ghost i: nat, edits: seq<Edit>) returns (levels: Levels)
    requires Run(trace) && i < |trace| && edits == ManifestOf(trace, i)
    ensures levels == trace[i].disk.levels
  {
    DiskIsReplayed(trace, i);
    levels := Recover(edits);
  }

  /**
   The same from bytes: a manifest file whose records stand for those edits and set those
   numbers is recovered, unless one of them names another comparator, to the version and
   the numbers on disk.
   */
  method RecoverFile(ghost trace: seq<System>, ghost i: nat, crc: LogFormat.Checksum, name: Coding.Bytes, file: Coding.Bytes,
                     open: Manifest.Opener, ghost records: seq<Records.Edit>) returns (r: Option<Manifest.Recovered>)
    requires Run(trace) && i < |trace| && Manifest.FileEdits(open, records) == ManifestOf(trace, i) && Manifest.NumberFields(records) == NumbersOf(trace, i)
    requires LogFormat.Extends(crc) && Manifest.AllFit(records) && file == LogFormat.LogFile(crc, Manifest.Encoded(records))
    ensures if Manifest.SameComparator(records, name)
              then r == Some(Manifest.Recovered(trace[i].disk.levels, trace[i].disk.nextFile, trace[i].disk.logNumber, trace[i].disk.lastSequence))
              else r == None
  {
    DiskIsReplayed(trace, i);
    NumbersAreOnDisk(trace, i);
    r := Manifest.RecoverWhole(crc, name, file, open, records);
    if r.Some? { RecoversNumbers(trace[i].disk, NumbersOf(trace, i), r.value); }
  }

  lemma RecoversNumbers(d: Disk, ns: seq<Manifest.Numbers>, r: Manifest.Recovered)
    requires NumbersOnDisk(d, ns)
    requires Manifest.LastSet(Manifest.NextFiles(ns), r.nextFile) && Manifest.LastSet(Manifest.LogNumbers(ns), r.logNumber) && Manifest.LastSet(Manifest.LastSequences(ns), r.lastSequence)
    ensures r.nextFile == d.nextFile && r.logNumber == d.logNumber && r.lastSequence == d.lastSequence
  {
    Manifest.LastSetUnique(Manifest.NextFiles(ns), r.nextFile, d.nextFile);
    Manifest.LastSetUnique(Manifest.LogNumbers(ns), r.logNumber, d.logNumber);
    Manifest.LastSetUnique(Manifest.LastSequences(ns), r.lastSequence, d.lastSequence);
  }
}
