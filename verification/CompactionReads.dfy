/**
 What a compaction does to reads. Replacing the inputs by the outputs of the drop
 loop leaves every read at or above the smallest snapshot unchanged, except when a
 dropped deletion was hiding a value in a next-level file that was not selected.
 */
module CompactionReads {
  import opened Format
  import opened Version
  import opened CompactionInputs
  import opened CompactionWork
  import opened DropRules

  lemma {:induction false} ConcatEntries(files: seq<File>)
    ensures RunEntries(Concat(files)) == FileEntries(files)
  {
    if files != [] {
      var front, last := files[..|files| - 1], files[|files| - 1];
      ConcatEntries(front);
      assert files == front + [last];
      forall e ensures e in RunEntries(Concat(files)) <==> e in FileEntries(files) {
        assert e in RunEntries(Concat(files)) <==> e in RunEntries(Concat(front)) || e in last.entries;
        if e in FileEntries(files) {
          var f :| f in files && e in f.entries;
          assert f in front || f == last;
        }
        if e in last.entries { assert last in files; }
        if e in FileEntries(front) {
          var f :| f in front && e in f.entries;
          assert f in files;
        }
      }
    }
  }

  // ----- where the other entries are -----

  predicate Selected(c: Compaction, l: int, f: File) {
    (l == c.level && f in c.inputs0) || (l == c.level + 1 && f in c.inputs1)
  }

  ghost function Inputs(c: Compaction): set<Entry> {
    FileEntries(c.inputs0) + FileEntries(c.inputs1)
  }

  ghost function Rest(levels: Levels, c: Compaction): set<Entry> {
    set l, f, e | 0 <= l < |levels| && f in levels[l] && !Selected(c, l, f) && e in f.entries :: e
  }

  /** Entries of next-level files that the selection left behind. */
  ghost function Stragglers(levels: Levels, c: Compaction): set<Entry>
    requires |levels| == NUM_LEVELS && c.level + 1 < NUM_LEVELS
  {
    set f, e | f in levels[c.level + 1] && f !in c.inputs1 && e in f.entries :: e
  }

  /** The memtables hold newer versions than every file. */
  ghost predicate MemNewer(mem: set<Entry>, files: set<Entry>) {
    forall e, e' :: e in mem && e' in files && e.key.user == e'.key.user ==> Tag(e.key) > Tag(e'.key)
  }

  lemma ContentsSplit(levels: Levels, c: Compaction)
    requires |levels| == NUM_LEVELS && Closed(levels, c)
    ensures Contents(levels) == Rest(levels, c) + Inputs(c)
    ensures Stragglers(levels, c) <= Rest(levels, c)
  {
    forall e ensures e in Contents(levels) <==> e in Rest(levels, c) + Inputs(c) {
      if e in Contents(levels) {
        var l, f :| 0 <= l < |levels| && f in levels[l] && e in f.entries;
        assert Selected(c, l, f) ==> f in c.inputs0 || f in c.inputs1;
      }
      if e in Inputs(c) {
        if e in FileEntries(c.inputs0) {
          var f :| f in c.inputs0 && e in f.entries;
          assert f in levels[c.level];
        } else {
          var f :| f in c.inputs1 && e in f.entries;
          assert f in levels[c.level + 1];
        }
      }
      if e in Rest(levels, c) {
        var l, f :| 0 <= l < |levels| && f in levels[l] && !Selected(c, l, f) && e in f.entries;
        assert e in Contents(levels);
      }
    }
    forall e | e in Stragglers(levels, c) ensures e in Rest(levels, c) {
      var f :| f in levels[c.level + 1] && f !in c.inputs1 && e in f.entries;
      assert !Selected(c, c.level + 1, f);
    }
  }

  lemma FileOfInput(levels: Levels, c: Compaction, e: Entry) returns (m: nat, g: File)
    requires |levels| == NUM_LEVELS && Closed(levels, c)
    requires e in Inputs(c)
    ensures (m == c.level && g in c.inputs0) || (m == c.level + 1 && g in c.inputs1)
    ensures g in levels[m] && e in g.entries
  {
    if e in FileEntries(c.inputs0) {
      g :| g in c.inputs0 && e in g.entries;
      m := c.level;
    } else {
      g :| g in c.inputs1 && e in g.entries;
      m := c.level + 1;
    }
  }

  /** The level invariant and the closed selection put an uncompacted file above the inputs, beside them or below. */
  lemma UpperFileNewer(levels: Levels, c: Compaction, l: nat, f: File, m: nat, g: File)
    requires ValidLevels(levels) && Closed(levels, c)
    requires l <= c.level && f in levels[l] && !Selected(c, l, f)
    requires m < NUM_LEVELS && g in levels[m] && ((m == c.level && g in c.inputs0) || (m == c.level + 1 && g in c.inputs1))
    ensures Newer(f, g)
  {
    if l < m {
      assert AllNewer(levels[l], levels[m]);
    } else {
      assert Sealed(levels[c.level], c.inputs0);
    }
  }

  lemma DeepFileBlocks(levels: Levels, c: Compaction, l: nat, f: File, e: Entry)
    requires |levels| == NUM_LEVELS && c.level + 2 <= l < NUM_LEVELS && f in levels[l]
    requires ValidFiles(levels[l]) && e in f.entries
    ensures !BaseLevel(levels, c.level, e.key.user)
  {
    var i :| 0 <= i < |levels[l]| && levels[l][i] == f;
    WithinBounds(f, e);
  }

  lemma BesideIsStraggler(levels: Levels, c: Compaction, f: File, n: Entry)
    requires |levels| == NUM_LEVELS && c.level + 1 < NUM_LEVELS
    requires f in levels[c.level + 1] && !Selected(c, c.level + 1, f) && n in f.entries
    ensures n in Stragglers(levels, c)
  {
  }

  lemma RestPlaced(levels: Levels, c: Compaction, l: nat, f: File, n: Entry, m: Entry)
    requires ValidLevels(levels) && Closed(levels, c)
    requires l < NUM_LEVELS && f in levels[l] && !Selected(c, l, f) && n in f.entries
    requires m in Inputs(c) && n.key.user == m.key.user
    ensures l <= c.level ==> Tag(n.key) > Tag(m.key)
    ensures l == c.level + 1 ==> n in Stragglers(levels, c)
    ensures l >= c.level + 2 ==> !BaseLevel(levels, c.level, n.key.user)
  {
    if l <= c.level {
      UpperEntryNewer(levels, c, l, f, n, m);
    } else if l == c.level + 1 {
      BesideIsStraggler(levels, c, f, n);
    } else {
      assert ValidLevel(l, levels[l]);
      DeepFileBlocks(levels, c, l, f, n);
    }
  }

  lemma UpperEntryNewer(levels: Levels, c: Compaction, l: nat, f: File, n: Entry, m: Entry)
    requires ValidLevels(levels) && Closed(levels, c)
    requires l <= c.level && f in levels[l] && !Selected(c, l, f)
    requires n in f.entries && m in Inputs(c) && n.key.user == m.key.user
    ensures Tag(n.key) > Tag(m.key)
  {
    var p, g := FileOfInput(levels, c, m);
    UpperFileNewer(levels, c, l, f, p, g);
    NewerHolds(f, g, n, m);
  }

  lemma LevelsPlaced(mem: set<Entry>, levels: Levels, c: Compaction)
    requires ValidLevels(levels) && Closed(levels, c)
    requires MemNewer(mem, Contents(levels)) && UniqueSequences(mem + Contents(levels))
    ensures mem + Contents(levels) == mem + Rest(levels, c) + Inputs(c)
    ensures Placed(mem + Rest(levels, c), Stragglers(levels, c), Inputs(c), Base(levels, c.level))
  {
    ContentsSplit(levels, c);
    var rest := mem + Rest(levels, c);
    assert rest + Inputs(c) == mem + Contents(levels);
    forall n, m | n in rest && m in Inputs(c) && n.key.user == m.key.user
      ensures Tag(n.key) > Tag(m.key) || n in Stragglers(levels, c) || !Base(levels, c.level)(n.key.user)
    {
      assert m in Contents(levels);
      if n !in mem {
        var l, f :| 0 <= l < |levels| && f in levels[l] && !Selected(c, l, f) && n in f.entries;
        RestPlaced(levels, c, l, f, n, m);
      }
    }
  }

  // ----- the read theorem -----

  /** Everything readable before the compaction is installed. */
  ghost function Before(mem: set<Entry>, levels: Levels): set<Entry> {
    mem + Contents(levels)
  }

  /** Everything readable afterwards: the inputs give way to what the loop keeps. */
  ghost function Afterwards(mem: set<Entry>, levels: Levels, c: Compaction, snap: nat): set<Entry> {
    mem + Rest(levels, c) + Survivors(Inputs(c), Base(levels, c.level), snap)
  }

  ghost predicate ResurrectsKey(mem: set<Entry>, levels: Levels, c: Compaction, snap: nat, k: UserKey)
    requires |levels| == NUM_LEVELS && c.level + 1 < NUM_LEVELS
  {
    Resurrects(mem + Rest(levels, c), Stragglers(levels, c), Inputs(c), Base(levels, c.level), snap, k)
  }

  lemma PlacedReadsIff(mem: set<Entry>, levels: Levels, c: Compaction, snap: nat)
    requires |levels| == NUM_LEVELS && c.level + 1 < NUM_LEVELS
    requires Placed(mem + Rest(levels, c), Stragglers(levels, c), Inputs(c), Base(levels, c.level))
    requires Before(mem, levels) == mem + Rest(levels, c) + Inputs(c)
    ensures ReadsPreserved(mem, levels, c, snap) <==> forall k :: !ResurrectsKey(mem, levels, c, snap, k)
  {
    var rest, stragglers, inputs, base := mem + Rest(levels, c), Stragglers(levels, c), Inputs(c), Base(levels, c.level);
    DropPreservesReadsIff(rest, stragglers, inputs, base, snap);
    assert forall k :: ResurrectsKey(mem, levels, c, snap, k) == Resurrects(rest, stragglers, inputs, base, snap, k);
  }

  ghost predicate ReadsPreserved(mem: set<Entry>, levels: Levels, c: Compaction, snap: nat) {
    forall k, s :: s >= snap ==> Visible(Before(mem, levels), k, s) == Visible(Afterwards(mem, levels, c, snap), k, s)
  }

  /** Exactly when a compaction preserves every read at or above the smallest snapshot. */
  lemma CompactionPreservesReadsIff(mem: set<Entry>, levels: Levels, c: Compaction, snap: nat)
    requires ValidLevels(levels) && Closed(levels, c)
    requires MemNewer(mem, Contents(levels)) && UniqueSequences(mem + Contents(levels))
    ensures ReadsPreserved(mem, levels, c, snap) <==> forall k :: !ResurrectsKey(mem, levels, c, snap, k)
  {
    LevelsPlaced(mem, levels, c);
    PlacedReadsIff(mem, levels, c, snap);
  }

  /** The keys whose reads a compaction changes. */
  ghost function RisenKeys(levels: Levels, c: Compaction, snap: nat): set<UserKey>
    requires |levels| == NUM_LEVELS && c.level + 1 < NUM_LEVELS
  {
    set e | e in Inputs(c) && ResurrectsKey({}, levels, c, snap, e.key.user) :: e.key.user
  }

  lemma RisenAreResurrected(levels: Levels, c: Compaction, snap: nat, k: UserKey)
    requires |levels| == NUM_LEVELS && c.level + 1 < NUM_LEVELS
    ensures k in RisenKeys(levels, c, snap) <==> ResurrectsKey({}, levels, c, snap, k)
  {
    if ResurrectsKey({}, levels, c, snap, k) {
      var d, x :|
        && Newest({} + Rest(levels, c) + Inputs(c), k, snap, d) && d in Inputs(c) && Obsolete(Base(levels, c.level), d, snap)
        && Newest(Stragglers(levels, c), k, snap, x) && x.key.kind.Value?;
      assert d.key.user == k;
    }
  }

  /** Key by key: every read at or above the smallest snapshot is unchanged that finds a value, or whose key does not rise. */
  lemma OtherReadsUnchanged(levels: Levels, c: Compaction, snap: nat, k: UserKey, s: nat)
    requires ValidLevels(levels) && Closed(levels, c) && UniqueSequences(Contents(levels))
    requires s >= snap && Reliable(Contents(levels), k, s, RisenKeys(levels, c, snap))
    ensures Visible(Contents(levels), k, s) == Visible(Rest(levels, c) + Survivors(Inputs(c), Base(levels, c.level), snap), k, s)
  {
    assert {} + Contents(levels) == Contents(levels) && {} + Rest(levels, c) == Rest(levels, c);
    RisenAreResurrected(levels, c, snap, k);
    LevelsPlaced({}, levels, c);
    if Visible(Contents(levels), k, s).Found? {
      PutsAreKept(Rest(levels, c), Stragglers(levels, c), Inputs(c), Base(levels, c.level), snap, k, s);
    } else {
      ReadUnchanged(Rest(levels, c), Stragglers(levels, c), Inputs(c), Base(levels, c.level), snap, k, s);
    }
  }

  /** ... and the read at the smallest snapshot of a key that rises does change. */
  lemma RisenReadsChange(levels: Levels, c: Compaction, snap: nat, k: UserKey)
    requires ValidLevels(levels) && Closed(levels, c) && UniqueSequences(Contents(levels)) && k in RisenKeys(levels, c, snap)
    ensures Visible(Contents(levels), k, snap) != Visible(Rest(levels, c) + Survivors(Inputs(c), Base(levels, c.level), snap), k, snap)
  {
    assert {} + Contents(levels) == Contents(levels) && {} + Rest(levels, c) == Rest(levels, c);
    RisenAreResurrected(levels, c, snap, k);
    LevelsPlaced({}, levels, c);
    ReadResurrected(Rest(levels, c), Stragglers(levels, c), Inputs(c), Base(levels, c.level), snap, k);
  }

  /** No unselected next-level file shares a user key with a selected file. */
  ghost predicate NoSharedKey(levels: Levels, c: Compaction)
    requires |levels| == NUM_LEVELS && c.level + 1 < NUM_LEVELS
  {
    forall e, e' :: e in Stragglers(levels, c) && e' in Inputs(c) ==> e.key.user != e'.key.user
  }

  lemma NoSharedKeyIsSafe(mem: set<Entry>, levels: Levels, c: Compaction, snap: nat)
    requires ValidLevels(levels) && Closed(levels, c) && NoSharedKey(levels, c)
    requires MemNewer(mem, Contents(levels)) && UniqueSequences(mem + Contents(levels))
    ensures ReadsPreserved(mem, levels, c, snap)
  {
    NothingSharedIsSafe(mem + Rest(levels, c), Stragglers(levels, c), Inputs(c), Base(levels, c.level), snap);
    CompactionPreservesReadsIff(mem, levels, c, snap);
  }
}
