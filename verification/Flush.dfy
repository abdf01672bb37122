/**
 Writing a memtable out as a table (db/version_set.cc: SomeFileOverlapsRange,
 PickLevelForMemTableOutput; db/db_impl.cc: WriteLevel0Table).
 */
module Flush {
  import opened Format
  import opened Version
  import opened CompactionInputs
  import opened CompactionReads
  import opened Install

  const MAX_MEM_COMPACT_LEVEL := 2

  ghost predicate NoneOverlaps(files: seq<File>, small: UserKey, large: UserKey) {
    forall i :: 0 <= i < |files| ==> !Overlaps(files[i], At(small), At(large))
  }

  /** SomeFileOverlapsRange: a scan at level 0, a binary search deeper. */
  method SomeFileOverlapsRange(level: nat, files: seq<File>, small: UserKey, large: UserKey) returns (r: bool)
    requires ValidLevel(level, files)
    requires forall i :: 0 <= i < |files| ==> files[i].largest.sequence <= MAX_SEQUENCE
    ensures r <==> !NoneOverlaps(files, small, large)
  {
    if level == 0 {
      for i := 0 to |files|
        invariant NoneOverlaps(files[..i], small, large)
      {
        if small > files[i].largest.user || large < files[i].smallest.user {
        } else {
          assert Overlaps(files[i], At(small), At(large));
          return true;
        }
      }
      assert files[..|files|] == files;
      return false;
    }
    var start := InternalKey(small, MAX_SEQUENCE, Value);
    var index := FindFile(files, start);
    ValidFilesOrdered(files);
    forall i | 0 <= i < index ensures !Overlaps(files[i], At(small), At(large)) {
      assert Less(files[i].largest, start);
    }
    if index >= |files| {
      return false;
    }
    r := !(large < files[index].smallest.user);
    assert !Less(files[index].largest, start);
    if !r {
      forall i | index <= i < |files| ensures !Overlaps(files[i], At(small), At(large)) {
        assert index < i ==> Less(files[index].largest, files[i].smallest);
      }
    }
  }

  /** A new table may go from level `l` to the next: nothing overlaps it there, and not too much the level after. */
  ghost predicate Sinks(levels: Levels, l: nat, small: UserKey, large: UserKey, limits: Limits)
    requires |levels| == NUM_LEVELS && l + 1 < NUM_LEVELS
  {
    && NoneOverlaps(levels[l + 1], small, large)
    && (l + 2 < NUM_LEVELS ==> TotalFileSize(Select(levels[l + 2], At(small), At(large))) <= limits.maxGrandparentOverlap)
  }

  /** PickLevelForMemTableOutput: as deep as a table sinks from level 0, but no deeper than level 2. */
  method PickLevelForMemTableOutput(levels: Levels, small: UserKey, large: UserKey, limits: Limits) returns (level: nat)
    requires ValidLevels(levels) && small <= large
    requires forall l, i :: 0 <= l < NUM_LEVELS && 0 <= i < |levels[l]| ==> levels[l][i].largest.sequence <= MAX_SEQUENCE
    ensures level <= 2
    ensures level > 0 ==> forall l :: 0 <= l <= level ==> NoneOverlaps(levels[l], small, large)
    ensures forall l :: 0 <= l < level ==> Sinks(levels, l, small, large, limits)
    ensures level < 2 ==> !NoneOverlaps(levels[0], small, large) || !Sinks(levels, level, small, large, limits)
  {
    level := 0;
    var overlap := SomeFileOverlapsRange(0, levels[0], small, large);
    if !overlap {
      while level < MAX_MEM_COMPACT_LEVEL
        invariant level <= MAX_MEM_COMPACT_LEVEL
        invariant forall l :: 0 <= l <= level ==> NoneOverlaps(levels[l], small, large)
        invariant forall l :: 0 <= l < level ==> Sinks(levels, l, small, large, limits)
      {
        overlap := SomeFileOverlapsRange(level + 1, levels[level + 1], small, large);
        if overlap {
          break;
        }
        if level + 2 < NUM_LEVELS {
          var overlaps, _, _ := GetOverlappingInputs(level + 2, levels[level + 2], At(small), At(large));
          if TotalFileSize(overlaps) > limits.maxGrandparentOverlap {
            break;
          }
        }
        level := level + 1;
      }
    }
  }

  /** A level fits a new table: level 0, or nothing overlaps down to it. */
  ghost predicate Fits(levels: Levels, level: nat, f: File)
    requires |levels| == NUM_LEVELS
  {
    && level <= MAX_MEM_COMPACT_LEVEL
    && (level > 0 ==> forall l :: 0 <= l <= level ==> NoneOverlaps(levels[l], f.smallest.user, f.largest.user))
  }

  /** `levels'` is `levels` with the table `f` added at `level`. */
  ghost predicate Added(levels: Levels, level: nat, f: File, levels': Levels)
    requires |levels| == NUM_LEVELS && level < NUM_LEVELS
  {
    && |levels'| == NUM_LEVELS
    && (forall l :: 0 <= l < NUM_LEVELS && l != level ==> levels'[l] == levels[l])
    && Rebuilt(levels[level], [], [f], levels'[level])
  }

  /** `f` was written after, and numbered after, everything in the version. */
  ghost predicate Latest(levels: Levels, f: File) {
    && (forall l, g :: 0 <= l < |levels| && g in levels[l] ==> g.number < f.number)
    && MemNewer(RunEntries(f.entries), Contents(levels))
  }

  lemma LatestIsNewer(levels: Levels, f: File, l: nat, g: File)
    requires Latest(levels, f) && l < |levels| && g in levels[l]
    ensures Newer(f, g)
  {
    forall e, e' | e in f.entries && e' in g.entries && e.key.user == e'.key.user ensures Tag(e.key) > Tag(e'.key) {
      assert e in RunEntries(f.entries) && e' in Contents(levels);
    }
  }

  lemma NoOverlapNewer(levels: Levels, level: nat, f: File, l: nat, g: File)
    requires ValidLevels(levels) && f.Valid() && Fits(levels, level, f)
    requires l < level && g in levels[l]
    ensures Newer(g, f)
  {
    assert ValidLevel(l, levels[l]);
    assert NoneOverlaps(levels[l], f.smallest.user, f.largest.user);
    var i :| 0 <= i < |levels[l]| && levels[l][i] == g;
    forall e, e' | e in g.entries && e' in f.entries ensures e.key.user != e'.key.user {
      WithinBounds(g, e);
      WithinBounds(f, e');
    }
  }

  lemma AddedLevel(levels: Levels, level: nat, f: File, levels': Levels)
    requires ValidLevels(levels) && f.Valid() && Fits(levels, level, f) && Latest(levels, f)
    requires Added(levels, level, f, levels')
    ensures ValidLevel(level, levels'[level])
  {
    var files, files' := levels[level], levels'[level];
    assert ValidLevel(level, files);
    forall i | 0 <= i < |files'| ensures files'[i].Valid() {
      assert files'[i] in files';
    }
    if level == 0 {
      forall g, h | g in files' && h in files' && g.number > h.number ensures Newer(g, h) {
        if g == f && h in files { LatestIsNewer(levels, f, 0, h); }
      }
    } else {
      assert NoneOverlaps(files, f.smallest.user, f.largest.user);
      WithinBounds(f, f.entries[0]);
      forall g, h | g in files' && h in files' && g != h ensures Apart(g, h) {
        if g in files && h in files {
          DisjointIsApart(files, g, h);
        } else if g in files {
          FreeOfOverlap(files, g, f);
        } else {
          FreeOfOverlap(files, h, f);
        }
      }
      SortedApartIsDisjoint(files');
    }
  }

  lemma FreeOfOverlap(files: seq<File>, g: File, f: File)
    requires NoneOverlaps(files, f.smallest.user, f.largest.user) && g in files
    ensures Apart(g, f)
  {
    var i :| 0 <= i < |files| && files[i] == g;
  }

  /** A flush keeps the level invariant. */
  lemma FlushKeepsLevels(levels: Levels, level: nat, f: File, levels': Levels)
    requires ValidLevels(levels) && f.Valid() && Fits(levels, level, f) && Latest(levels, f)
    requires Added(levels, level, f, levels')
    ensures ValidLevels(levels')
    ensures Contents(levels') == Contents(levels) + RunEntries(f.entries)
  {
    AddedLevel(levels, level, f, levels');
    forall l | 0 <= l < NUM_LEVELS ensures ValidLevel(l, levels'[l]) {
      if l != level { assert ValidLevel(l, levels[l]); }
    }
    forall l, m | 0 <= l < m < NUM_LEVELS ensures AllNewer(levels'[l], levels'[m]) {
      AddedNewer(levels, level, f, levels', l, m);
    }
    AddedContents(levels, level, f, levels');
  }

  lemma AddedNewer(levels: Levels, level: nat, f: File, levels': Levels, l: nat, m: nat)
    requires ValidLevels(levels) && f.Valid() && Fits(levels, level, f) && Latest(levels, f)
    requires Added(levels, level, f, levels') && l < m < NUM_LEVELS
    ensures AllNewer(levels'[l], levels'[m])
  {
    assert AllNewer(levels[l], levels[m]);
    forall g, h | g in levels'[l] && h in levels'[m] ensures Newer(g, h) {
      if g !in levels[l] {
        LatestIsNewer(levels, f, m, h);
      } else if h !in levels[m] {
        NoOverlapNewer(levels, level, f, l, g);
      }
    }
  }

  lemma AddedContents(levels: Levels, level: nat, f: File, levels': Levels)
    requires |levels| == NUM_LEVELS && level < NUM_LEVELS && Added(levels, level, f, levels')
    ensures Contents(levels') == Contents(levels) + RunEntries(f.entries)
  {
    forall e | e in Contents(levels') ensures e in Contents(levels) + RunEntries(f.entries) {
      var l, g :| 0 <= l < |levels'| && g in levels'[l] && e in g.entries;
      if g in levels[l] { assert e in Contents(levels); } else { assert g == f; }
    }
    forall e | e in Contents(levels) + RunEntries(f.entries) ensures e in Contents(levels') {
      if e in Contents(levels) {
        var l, g :| 0 <= l < |levels| && g in levels[l] && e in g.entries;
        assert g in levels'[l];
      } else {
        assert f in levels'[level];
      }
    }
  }
}
