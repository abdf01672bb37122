/**
 Installing the files a compaction makes: the level invariant survives, and the
 readable entries become exactly what the drop rules leave (db/db_impl.cc:
 InstallCompactionResults; db/version_set.cc: Builder::SaveTo).
 */
module Install {
  import opened Format
  import opened Version
  import opened CompactionInputs
  import opened CompactionReads

  /** BySmallestKey: the order a version keeps its files in. */
  predicate BySmallest(f: File, g: File) {
    Less(f.smallest, g.smallest) || (!Less(g.smallest, f.smallest) && f.number < g.number)
  }

  ghost predicate SortedFiles(files: seq<File>) {
    forall i, j :: 0 <= i < j < |files| ==> BySmallest(files[i], files[j])
  }

  /** `files'` is `files` without `removed` and with `added`, in order. */
  ghost predicate Rebuilt(files: seq<File>, removed: seq<File>, added: seq<File>, files': seq<File>) {
    && SortedFiles(files')
    && forall f :: f in files' <==> (f in files && f !in removed) || f in added
  }

  /** `levels'` replaces the inputs of `c` by `outputs` one level down. */
  ghost predicate Installed(levels: Levels, c: Compaction, outputs: seq<File>, levels': Levels)
    requires |levels| == NUM_LEVELS && c.level + 1 < NUM_LEVELS
  {
    && |levels'| == NUM_LEVELS
    && (forall l :: 0 <= l < NUM_LEVELS && l != c.level && l != c.level + 1 ==> levels'[l] == levels[l])
    && Rebuilt(levels[c.level], c.inputs0, [], levels'[c.level])
    && Rebuilt(levels[c.level + 1], c.inputs1, outputs, levels'[c.level + 1])
  }

  // ----- disjointness -----

  predicate Apart(f: File, g: File) {
    Less(f.largest, g.smallest) || Less(g.largest, f.smallest)
  }

  lemma SortedApartIsDisjoint(files: seq<File>)
    requires ValidFiles(files) && SortedFiles(files)
    requires forall f, g :: f in files && g in files && f != g ==> Apart(f, g)
    ensures Disjoint(files)
  {
    ValidFilesOrdered(files);
    forall i, j | 0 <= i < j < |files| ensures Less(files[i].largest, files[j].smallest) {
      assert BySmallest(files[i], files[j]);
      assert files[i] != files[j];
      assert Apart(files[i], files[j]);
    }
  }

  lemma DisjointIsApart(files: seq<File>, f: File, g: File)
    requires Disjoint(files) && f in files && g in files && f != g
    ensures Apart(f, g)
  {
    var i :| 0 <= i < |files| && files[i] == f;
    var j :| 0 <= j < |files| && files[j] == g;
    assert i < j || j < i;
  }

  /** A next-level file left behind lies wholly before or wholly after the inputs. */
  lemma StragglerBeside(levels: Levels, c: Compaction, h: File)
    requires ValidLevels(levels) && Closed(levels, c)
    requires h in levels[c.level + 1] && h !in c.inputs1
    ensures (forall e :: e in Inputs(c) ==> Less(h.largest, e.key)) || (forall e :: e in Inputs(c) ==> Less(e.key, h.smallest))
  {
    var files := levels[c.level + 1];
    assert ValidLevel(c.level, levels[c.level]) && ValidLevel(c.level + 1, files);
    assert !Overlaps(h, At(c.smallest.user), At(c.largest.user));
    ValidFilesOrdered(files);
    var k :| 0 <= k < |files| && files[k] == h;
    if h.largest.user < c.smallest.user {
      forall e | e in Inputs(c) ensures Less(h.largest, e.key) {
        InputBeyond(levels, c, h, e);
      }
    } else {
      forall e | e in Inputs(c) ensures Less(e.key, h.smallest) {
        InputBefore(levels, c, h, e);
      }
    }
  }

  lemma InputBeyond(levels: Levels, c: Compaction, h: File, e: Entry)
    requires ValidLevels(levels) && Closed(levels, c)
    requires h in levels[c.level + 1] && h !in c.inputs1 && !Less(h.largest, h.smallest)
    requires h.largest.user < c.smallest.user && e in Inputs(c)
    ensures Less(h.largest, e.key)
  {
    var m, g := FileOfInput(levels, c, e);
    assert ValidLevel(m, levels[m]);
    WithinBounds(g, e);
    if m == c.level + 1 {
      DisjointIsApart(levels[c.level + 1], h, g);
    }
  }

  lemma InputBefore(levels: Levels, c: Compaction, h: File, e: Entry)
    requires ValidLevels(levels) && Closed(levels, c)
    requires h in levels[c.level + 1] && h !in c.inputs1 && !Less(h.largest, h.smallest)
    requires h.smallest.user > c.largest.user && e in Inputs(c)
    ensures Less(e.key, h.smallest)
  {
    var m, g := FileOfInput(levels, c, e);
    assert ValidLevel(m, levels[m]);
    WithinBounds(g, e);
    if m == c.level + 1 {
      DisjointIsApart(levels[c.level + 1], h, g);
    }
  }

  // ----- age -----

  /** Every entry of `out` comes from the inputs. */
  ghost predicate MadeFrom(out: File, c: Compaction) {
    forall e :: e in out.entries ==> e in Inputs(c)
  }

  /** What the outputs of a compaction or of a trivial move look like. */
  ghost predicate GoodOutputs(c: Compaction, outputs: seq<File>) {
    && ValidFiles(outputs) && Disjoint(outputs)
    && forall i :: 0 <= i < |outputs| ==> MadeFrom(outputs[i], c)
  }

  lemma NewerThanOutput(levels: Levels, c: Compaction, f: File, out: File)
    requires |levels| == NUM_LEVELS && Closed(levels, c) && MadeFrom(out, c)
    requires forall g :: g in c.inputs0 || g in c.inputs1 ==> Newer(f, g)
    ensures Newer(f, out)
  {
    forall e, e' | e in f.entries && e' in out.entries && e.key.user == e'.key.user
      ensures Tag(e.key) > Tag(e'.key)
    {
      var _, g := FileOfInput(levels, c, e');
      NewerHolds(f, g, e, e');
    }
  }

  lemma OutputNewerThan(levels: Levels, c: Compaction, out: File, f: File)
    requires |levels| == NUM_LEVELS && Closed(levels, c) && MadeFrom(out, c)
    requires forall g :: g in c.inputs0 || g in c.inputs1 ==> Newer(g, f)
    ensures Newer(out, f)
  {
    forall e, e' | e in out.entries && e' in f.entries && e.key.user == e'.key.user
      ensures Tag(e.key) > Tag(e'.key)
    {
      var _, g := FileOfInput(levels, c, e);
      NewerHolds(g, f, e, e');
    }
  }

  /** Ages across levels, from the place each file had before the installation. */
  lemma UpperThanOutput(levels: Levels, c: Compaction, outputs: seq<File>, l: nat, f: File, g: File)
    requires ValidLevels(levels) && Closed(levels, c) && GoodOutputs(c, outputs)
    requires l <= c.level && f in levels[l] && !Selected(c, l, f) && g in outputs
    ensures Newer(f, g)
  {
    forall x | x in c.inputs0 || x in c.inputs1 ensures Newer(f, x) {
      UpperFileNewer(levels, c, l, f, if x in c.inputs0 then c.level else c.level + 1, x);
    }
    NewerThanOutput(levels, c, f, g);
  }

  lemma InstalledNewer(levels: Levels, c: Compaction, outputs: seq<File>, levels': Levels, l: nat, m: nat, f: File, g: File)
    requires ValidLevels(levels) && Closed(levels, c) && GoodOutputs(c, outputs)
    requires Installed(levels, c, outputs, levels')
    requires l < m < NUM_LEVELS && f in levels'[l] && g in levels'[m]
    ensures Newer(f, g)
  {
    if f in levels[l] {
      if g in levels[m] {
        assert AllNewer(levels[l], levels[m]);
      } else {
        assert m == c.level + 1 && g in outputs;
        UpperThanOutput(levels, c, outputs, l, f, g);
      }
    } else {
      assert l == c.level + 1 && f in outputs && g in levels[m];
      assert AllNewer(levels[c.level], levels[m]) && AllNewer(levels[c.level + 1], levels[m]);
      OutputNewerThan(levels, c, f, g);
    }
  }

  lemma InstalledLevelFiles(levels: Levels, c: Compaction, outputs: seq<File>, levels': Levels, l: nat)
    requires ValidLevels(levels) && Closed(levels, c) && GoodOutputs(c, outputs)
    requires Installed(levels, c, outputs, levels') && l < NUM_LEVELS
    ensures ValidFiles(levels'[l])
  {
    forall i | 0 <= i < |levels'[l]| ensures levels'[l][i].Valid() {
      var f := levels'[l][i];
      assert f in levels'[l];
      if f in levels[l] {
        assert ValidLevel(l, levels[l]);
      }
    }
  }

  lemma InstalledApart(levels: Levels, c: Compaction, outputs: seq<File>, levels': Levels, l: nat, f: File, g: File)
    requires ValidLevels(levels) && Closed(levels, c) && GoodOutputs(c, outputs)
    requires Installed(levels, c, outputs, levels') && (l == c.level || l == c.level + 1) && 0 < l
    requires f in levels'[l] && g in levels'[l] && f != g
    ensures Apart(f, g)
  {
    if f in levels[l] && g in levels[l] {
      assert ValidLevel(l, levels[l]);
      DisjointIsApart(levels[l], f, g);
    } else if f !in levels[l] && g !in levels[l] {
      DisjointIsApart(outputs, f, g);
    } else if f in levels[l] {
      OutputOfNextLevel(levels, c, outputs, levels', l, f, g);
    } else {
      OutputOfNextLevel(levels, c, outputs, levels', l, g, f);
    }
  }

  lemma OutputOfNextLevel(levels: Levels, c: Compaction, outputs: seq<File>, levels': Levels, l: nat, h: File, out: File)
    requires ValidLevels(levels) && Closed(levels, c) && GoodOutputs(c, outputs)
    requires Installed(levels, c, outputs, levels') && (l == c.level || l == c.level + 1)
    requires h in levels'[l] && out in levels'[l] && h in levels[l] && out !in levels[l]
    ensures Apart(h, out)
  {
    if h in outputs {
      DisjointIsApart(outputs, h, out);
    } else {
      OutputApart(levels, c, outputs, h, out);
    }
  }

  lemma InstalledDisjoint(levels: Levels, c: Compaction, outputs: seq<File>, levels': Levels, l: nat)
    requires ValidLevels(levels) && Closed(levels, c) && GoodOutputs(c, outputs)
    requires Installed(levels, c, outputs, levels') && 0 < l < NUM_LEVELS
    ensures Disjoint(levels'[l])
  {
    if l == c.level || l == c.level + 1 {
      InstalledLevelFiles(levels, c, outputs, levels', l);
      forall f, g | f in levels'[l] && g in levels'[l] && f != g ensures Apart(f, g) {
        InstalledApart(levels, c, outputs, levels', l, f, g);
      }
      SortedApartIsDisjoint(levels'[l]);
    } else {
      assert ValidLevel(l, levels[l]);
    }
  }

  lemma OutputApart(levels: Levels, c: Compaction, outputs: seq<File>, h: File, out: File)
    requires ValidLevels(levels) && Closed(levels, c) && GoodOutputs(c, outputs)
    requires out in outputs && h in levels[c.level + 1] && h !in c.inputs1
    ensures Apart(h, out)
  {
    StragglerBeside(levels, c, h);
    var i :| 0 <= i < |outputs| && outputs[i] == out;
    assert out.entries[0] in out.entries && out.entries[|out.entries| - 1] in out.entries;
  }

  /** The level invariant survives every installation. */
  lemma InstalledKeepsLevels(levels: Levels, c: Compaction, outputs: seq<File>, levels': Levels)
    requires ValidLevels(levels) && Closed(levels, c) && GoodOutputs(c, outputs)
    requires Installed(levels, c, outputs, levels')
    ensures ValidLevels(levels')
  {
    forall l | 0 <= l < NUM_LEVELS ensures ValidLevel(l, levels'[l]) {
      assert ValidLevel(l, levels[l]);
      InstalledLevelFiles(levels, c, outputs, levels', l);
      if l > 0 {
        InstalledDisjoint(levels, c, outputs, levels', l);
      } else {
        assert forall f :: f in levels'[0] ==> f in levels[0];
      }
    }
    forall l, m | 0 <= l < m < NUM_LEVELS ensures AllNewer(levels'[l], levels'[m]) {
      forall f, g | f in levels'[l] && g in levels'[m] ensures Newer(f, g) {
        InstalledNewer(levels, c, outputs, levels', l, m, f, g);
      }
    }
  }

  /** What can be read after the installation. */
  lemma InstalledContents(levels: Levels, c: Compaction, outputs: seq<File>, levels': Levels)
    requires |levels| == NUM_LEVELS && Closed(levels, c)
    requires Installed(levels, c, outputs, levels')
    ensures Contents(levels') == Rest(levels, c) + FileEntries(outputs)
  {
    forall e | e in Contents(levels') ensures e in Rest(levels, c) + FileEntries(outputs) {
      var l, f :| 0 <= l < |levels'| && f in levels'[l] && e in f.entries;
      if f in levels[l] && !Selected(c, l, f) {
        assert e in Rest(levels, c);
      } else {
        assert f in outputs;
      }
    }
    forall e | e in Rest(levels, c) ensures e in Contents(levels') {
      var l, f :| 0 <= l < |levels| && f in levels[l] && !Selected(c, l, f) && e in f.entries;
      assert f in levels'[l];
    }
    forall e | e in FileEntries(outputs) ensures e in Contents(levels') {
      var f :| f in outputs && e in f.entries;
      assert f in levels'[c.level + 1];
    }
  }
}
