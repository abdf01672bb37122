/**
 A memtable flushed in the middle of a compaction (db/db_impl.cc: DoCompactionWork calls
 CompactMemTable). The level that PickLevelForMemTableOutput picks looks at the version
 only, not at the outputs being written, so the table may land in a gap between inputs
 that an output covers. This module says exactly when that breaks the levels.
 */
module MidFlush {
  import opened Format
  import opened Version
  import opened CompactionInputs
  import opened CompactionWork
  import opened CompactionReads
  import opened DropRules
  import opened Install
  import opened Flush
  import opened EngineBackground

  // ----- the exact condition -----

  /** `installed` is the version after the flush of `f` to `level` and then the compaction. */
  ghost predicate FlushedMidway(levels: Levels, c: Compaction, outputs: seq<File>, level: nat, f: File, flushed: Levels, installed: Levels) {
    && ValidLevels(levels) && Closed(levels, c) && GoodOutputs(c, outputs)
    && f.Valid() && Fits(levels, level, f) && Latest(levels, f)
    && Added(levels, level, f, flushed) && Installed(flushed, c, outputs, installed)
  }

  /** No user key of the table lies within a file of the version down to its level. */
  lemma OutsideFiles(levels: Levels, level: nat, f: File, l: nat, g: File)
    requires ValidLevels(levels) && Fits(levels, level, f) && f.Valid() && 0 < level && l <= level && g in levels[l]
    ensures Apart(f, g) && Newer(g, f)
    ensures forall e, e' :: e in f.entries && e' in g.entries ==> e.key.user != e'.key.user
  {
    var i :| 0 <= i < |levels[l]| && levels[l][i] == g;
    assert ValidLevel(l, levels[l]);
    assert g.Valid() && !Overlaps(g, At(f.smallest.user), At(f.largest.user));
    forall e, e' | e in f.entries && e' in g.entries ensures e.key.user != e'.key.user {
      WithinBounds(f, e);
      WithinBounds(g, e');
    }
  }

  /** The table is none of the outputs. */
  lemma NotAnOutput(levels: Levels, c: Compaction, level: nat, f: File, out: File)
    requires ValidLevels(levels) && Closed(levels, c) && f.Valid() && Fits(levels, level, f) && level == c.level + 1 && MadeFrom(out, c)
    ensures out != f
  {
    if out == f {
      var e := f.entries[0];
      assert e in f.entries;
      var m, g := FileOfInput(levels, c, e);
      OutsideFiles(levels, level, f, m, g);
      assert false;
    }
  }

  function Without(files: seq<File>, i: nat): seq<File>
    requires i < |files|
  {
    files[..i] + files[i + 1..]
  }

  lemma WithoutOne(files: seq<File>, i: nat)
    requires i < |files| && SortedFiles(files)
    ensures SortedFiles(Without(files, i)) && forall g :: g in Without(files, i) <==> g in files && g != files[i]
  {
    var rest := Without(files, i);
    assert files == files[..i] + [files[i]] + files[i + 1..];
    forall g | g in rest ensures g in files && g != files[i] {
      var j :| 0 <= j < |rest| && rest[j] == g;
      assert g == files[if j < i then j else j + 1];
      assert j < i ==> BySmallest(files[j], files[i]);
      assert j >= i ==> BySmallest(files[i], files[j + 1]);
    }
  }

  /** What the compaction alone would have installed. */
  lemma InstalledAlone(levels: Levels, c: Compaction, outputs: seq<File>, level: nat, f: File, flushed: Levels, installed: Levels) returns (alone: Levels)
    requires FlushedMidway(levels, c, outputs, level, f, flushed, installed) && level == c.level + 1
    ensures |alone| == NUM_LEVELS && (forall l :: 0 <= l < NUM_LEVELS && l != level ==> alone[l] == installed[l])
    ensures forall g :: g in alone[level] <==> g in installed[level] && g != f
    ensures f in installed[level] && Installed(levels, c, outputs, alone)
  {
    assert f !in levels[level];
    assert f in flushed[level] && f !in c.inputs1;
    var i :| 0 <= i < |installed[level]| && installed[level][i] == f;
    WithoutOne(installed[level], i);
    alone := installed[level := Without(installed[level], i)];
    forall out | out in outputs ensures out != f {
      var j :| 0 <= j < |outputs| && outputs[j] == out;
      NotAnOutput(levels, c, level, f, out);
    }
  }

  ghost predicate ApartFromAll(f: File, outputs: seq<File>) {
    forall i :: 0 <= i < |outputs| ==> Apart(outputs[i], f)
  }

  lemma LevelWithBoth(levels: Levels, c: Compaction, outputs: seq<File>, level: nat, f: File, flushed: Levels, installed: Levels, alone: Levels)
    requires FlushedMidway(levels, c, outputs, level, f, flushed, installed) && level == c.level + 1 && ApartFromAll(f, outputs)
    requires ValidLevels(alone) && forall g :: g in alone[level] <==> g in installed[level] && g != f
    ensures ValidLevel(level, installed[level])
  {
    var files := installed[level];
    assert ValidLevel(level, alone[level]);
    forall i | 0 <= i < |files| ensures files[i].Valid() {
      if files[i] != f {
        assert files[i] in alone[level];
      }
    }
    forall g, h | g in files && h in files && g != h ensures Apart(g, h) {
      if g != f && h != f {
        DisjointIsApart(alone[level], g, h);
      } else {
        BesideTheTable(levels, c, outputs, level, f, flushed, installed, if g == f then h else g);
      }
    }
    SortedApartIsDisjoint(files);
  }

  lemma BesideTheTable(levels: Levels, c: Compaction, outputs: seq<File>, level: nat, f: File, flushed: Levels, installed: Levels, g: File)
    requires FlushedMidway(levels, c, outputs, level, f, flushed, installed) && level == c.level + 1 && ApartFromAll(f, outputs)
    requires g in installed[level] && g != f
    ensures Apart(f, g)
  {
    if g in outputs {
      var i :| 0 <= i < |outputs| && outputs[i] == g;
    } else {
      assert g in flushed[level];
      OutsideFiles(levels, level, f, level, g);
    }
  }

  lemma AgesWithBoth(levels: Levels, c: Compaction, outputs: seq<File>, level: nat, f: File, flushed: Levels, installed: Levels, alone: Levels, l: nat, m: nat)
    requires FlushedMidway(levels, c, outputs, level, f, flushed, installed) && level == c.level + 1 && l < m < NUM_LEVELS
    requires ValidLevels(alone) && (forall g :: g in alone[level] <==> g in installed[level] && g != f)
    requires forall k :: 0 <= k < NUM_LEVELS && k != level ==> alone[k] == installed[k]
    ensures AllNewer(installed[l], installed[m])
  {
    assert AllNewer(alone[l], alone[m]);
    forall g, h | g in installed[l] && h in installed[m] ensures Newer(g, h) {
      if m == level && h == f {
        assert g in levels[l];
        OutsideFiles(levels, level, f, l, g);
      } else if l == level && g == f {
        assert h in levels[m];
        LatestIsNewer(levels, f, m, h);
      }
    }
  }

  lemma ApartKeepsLevels(levels: Levels, c: Compaction, outputs: seq<File>, level: nat, f: File, flushed: Levels, installed: Levels)
    requires FlushedMidway(levels, c, outputs, level, f, flushed, installed) && level == c.level + 1 && ApartFromAll(f, outputs)
    ensures ValidLevels(installed)
  {
    var alone := InstalledAlone(levels, c, outputs, level, f, flushed, installed);
    InstalledKeepsLevels(levels, c, outputs, alone);
    LevelWithBoth(levels, c, outputs, level, f, flushed, installed, alone);
    forall l | 0 <= l < NUM_LEVELS ensures ValidLevel(l, installed[l]) {
      if l != level { assert ValidLevel(l, alone[l]); }
    }
    forall l, m | 0 <= l < m < NUM_LEVELS ensures AllNewer(installed[l], installed[m]) {
      AgesWithBoth(levels, c, outputs, level, f, flushed, installed, alone, l, m);
    }
  }

  lemma KeptLevelsAreApart(levels: Levels, c: Compaction, outputs: seq<File>, level: nat, f: File, flushed: Levels, installed: Levels)
    requires FlushedMidway(levels, c, outputs, level, f, flushed, installed) && level == c.level + 1 && ValidLevels(installed)
    ensures ApartFromAll(f, outputs)
  {
    var alone := InstalledAlone(levels, c, outputs, level, f, flushed, installed);
    assert ValidLevel(level, installed[level]);
    forall i | 0 <= i < |outputs| ensures Apart(outputs[i], f) {
      NotAnOutput(levels, c, level, f, outputs[i]);
      assert outputs[i] in installed[level];
      DisjointIsApart(installed[level], outputs[i], f);
    }
  }

  /**
   A flush in the middle of a compaction keeps the level invariant if and only if it does
   not land at the compaction's output level on a file that the compaction writes.
   */
  lemma MidFlushKeepsLevelsIff(levels: Levels, c: Compaction, outputs: seq<File>, level: nat, f: File, flushed: Levels, installed: Levels)
    requires FlushedMidway(levels, c, outputs, level, f, flushed, installed)
    ensures ValidLevels(installed) <==> (level == c.level + 1 ==> ApartFromAll(f, outputs))
  {
    if level != c.level + 1 {
      FlushKeepsLevels(levels, level, f, flushed);
      FlushKeepsClosed(levels, level, f, flushed, c);
      InstalledKeepsLevels(flushed, c, outputs, installed);
    } else if ApartFromAll(f, outputs) {
      ApartKeepsLevels(levels, c, outputs, level, f, flushed, installed);
    } else if ValidLevels(installed) {
      KeptLevelsAreApart(levels, c, outputs, level, f, flushed, installed);
    }
  }
}
