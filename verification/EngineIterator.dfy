/**
 Iterators over the whole database (db/db_impl.cc: NewInternalIterator; db/version_set.cc:
 AddIterators): a merging iterator over the memtables, the level-0 tables and the deeper
 levels, and the user-level iterator over what it shows.
 */
module EngineIterator {
  import opened Options
  import opened Format
  import opened Version
  import opened Concatenation
  import opened TwoLevelIterator
  import opened MergingIterator
  import opened DbIterator
  import opened Histories
  import opened CompactionReads
  import opened Install
  import opened Flush
  import opened Engine
  import opened EngineRuns

  // ----- the children -----

  /** The blocks of one child iterator and the keys that separate them. */
  datatype Source = Source(blocks: Blocks, separators: seq<InternalKey>)

  function RunSource(es: seq<Entry>): Source {
    if es == [] then Source([], []) else Source([es], [es[|es| - 1].key])
  }

  /** NewConcatenatingIterator. */
  function LevelSource(files: seq<File>): Source {
    Source(seq(|files|, i requires 0 <= i < |files| => files[i].entries), seq(|files|, i requires 0 <= i < |files| => files[i].largest))
  }

  /** A level without files has no iterator. */
  function LevelSources(files: seq<File>): seq<Source> {
    if files == [] then [] else [LevelSource(files)]
  }

  function Level0Sources(files: seq<File>): seq<Source> {
    if files == [] then [] else Level0Sources(files[..|files| - 1]) + [RunSource(files[|files| - 1].entries)]
  }

  function DeepSources(levels: Levels, l: nat): seq<Source>
    requires 1 <= l <= |levels|
  {
    if l == 1 then [] else DeepSources(levels, l - 1) + LevelSources(levels[l - 1])
  }

  function ImmSources(imm: Option<seq<Entry>>): seq<Source> {
    if imm.Some? then [RunSource(imm.value)] else []
  }

  /** AddIterators. */
  function VersionSources(levels: Levels): seq<Source>
    requires |levels| == NUM_LEVELS
  {
    Level0Sources(levels[0]) + DeepSources(levels, |levels|)
  }

  function Sources(m: Memory): seq<Source>
    requires |m.levels| == NUM_LEVELS
  {
    [RunSource(m.mem)] + (ImmSources(m.imm) + VersionSources(m.levels))
  }

  // ----- sources hold what they should, and no key twice -----

  ghost function Held(s: Source): set<Entry> { RunEntries(Flat(s.blocks)) }

  /** No key is in both. */
  ghost predicate NoneShared(a: set<Entry>, b: set<Entry>) {
    forall e, e' :: e in a && e' in b ==> Less(e.key, e'.key) || Less(e'.key, e.key)
  }

  ghost function HeldByAll(sources: seq<Source>): set<Entry> {
    set c, e | 0 <= c < |sources| && e in Held(sources[c]) :: e
  }

  /** Together the sources hold exactly `all`, each key once. */
  ghost predicate Parts(sources: seq<Source>, all: set<Entry>) {
    && (forall c :: 0 <= c < |sources| ==> Separates(sources[c].blocks, sources[c].separators))
    && (forall c, d :: 0 <= c < d < |sources| ==> NoneShared(Held(sources[c]), Held(sources[d])))
    && all == HeldByAll(sources)
  }

  lemma NoParts()
    ensures Parts([], {})
  {
  }

  lemma HeldByBoth(xs: seq<Source>, ys: seq<Source>)
    ensures HeldByAll(xs + ys) == HeldByAll(xs) + HeldByAll(ys)
  {
    var zs := xs + ys;
    forall e | e in HeldByAll(xs) + HeldByAll(ys) ensures e in HeldByAll(zs) {
      if c :| 0 <= c < |xs| && e in Held(xs[c]) { assert zs[c] == xs[c]; }
      if c :| 0 <= c < |ys| && e in Held(ys[c]) { assert zs[|xs| + c] == ys[c]; }
    }
    forall e | e in HeldByAll(zs) ensures e in HeldByAll(xs) + HeldByAll(ys) {
      var c :| 0 <= c < |zs| && e in Held(zs[c]);
      if c >= |xs| { assert e in Held(ys[c - |xs|]); }
    }
  }

  lemma JoinParts(xs: seq<Source>, a: set<Entry>, ys: seq<Source>, b: set<Entry>)
    requires Parts(xs, a) && Parts(ys, b) && NoneShared(a, b)
    ensures Parts(xs + ys, a + b)
  {
    var zs := xs + ys;
    forall c, d | 0 <= c < d < |zs| ensures NoneShared(Held(zs[c]), Held(zs[d])) {
      if c < |xs| <= d { HeldInAll(xs, a, c); HeldInAll(ys, b, d - |xs|); }
    }
    HeldByBoth(xs, ys);
  }

  lemma JoinedParts(xs: seq<Source>, a: set<Entry>, ys: seq<Source>, b: set<Entry>, zs: seq<Source>, all: set<Entry>)
    requires Parts(xs, a) && Parts(ys, b) && NoneShared(a, b) && zs == xs + ys && all == a + b
    ensures Parts(zs, all)
  {
    JoinParts(xs, a, ys, b);
  }

  lemma HeldInAll(sources: seq<Source>, all: set<Entry>, c: nat)
    requires Parts(sources, all) && c < |sources|
    ensures Held(sources[c]) <= all
  {
  }

  lemma OnePart(s: Source)
    requires Separates(s.blocks, s.separators)
    ensures Parts([s], Held(s))
  {
    assert [s][0] == s;
  }

  lemma RunPart(es: seq<Entry>)
    requires Sorted(es)
    ensures Parts([RunSource(es)], RunEntries(es))
  {
    RunSeparates(es);
    RunIsFlat(es);
    OnePart(RunSource(es));
  }

  lemma RunIsFlat(es: seq<Entry>)
    ensures Flat(RunSource(es).blocks) == es
  {
    if es != [] {
      assert [es][..0] == [];
      assert Flat([es]) == Flat<Entry>([]) + es;
    }
  }

  lemma RunSeparates(es: seq<Entry>)
    requires Sorted(es)
    ensures Separates(RunSource(es).blocks, RunSource(es).separators)
  {
  }

  lemma LevelHolds(files: seq<File>)
    ensures Held(LevelSource(files)) == FileEntries(files)
  {
    var blocks := LevelSource(files).blocks;
    forall e | e in Held(LevelSource(files)) ensures e in FileEntries(files) {
      var p :| 0 <= p < |Flat(blocks)| && Flat(blocks)[p] == e;
      var b, i := PlaceOf(blocks, p);
      FlatAt(blocks, b, i);
      assert files[b] in files && e in files[b].entries;
    }
    forall e | e in FileEntries(files) ensures e in Held(LevelSource(files)) {
      var f :| f in files && e in f.entries;
      var b :| 0 <= b < |files| && files[b] == f;
      var i :| 0 <= i < |f.entries| && f.entries[i] == e;
      FlatAt(blocks, b, i);
    }
  }

  /** Disjoint files in order are separated by their largest keys. */
  lemma LevelSeparates(files: seq<File>)
    requires ValidFiles(files) && Disjoint(files)
    ensures Separates(LevelSource(files).blocks, LevelSource(files).separators)
  {
    forall b, i | 0 <= b < |files| && 0 <= i < |files[b].entries|
      ensures !Less(files[b].largest, files[b].entries[i].key) && !Less(files[b].entries[i].key, files[b].smallest)
    {
      WithinFile(files[b], i);
    }
    forall b, c | 0 <= b < c < |files| ensures Less(files[b].largest, files[c].largest) {
      assert files[c].Valid();
      assert files[c].entries != [];
      WithinFile(files[c], 0);
    }
  }

  lemma WithinFile(f: File, i: nat)
    requires f.Valid() && i < |f.entries|
    ensures !Less(f.largest, f.entries[i].key) && !Less(f.entries[i].key, f.smallest)
  {
    var n := |f.entries| - 1;
    assert i == n || Less(f.entries[i].key, f.entries[n].key);
    assert i == 0 || Less(f.entries[0].key, f.entries[i].key);
  }

  lemma LevelPart(files: seq<File>)
    requires ValidFiles(files) && Disjoint(files)
    ensures Parts(LevelSources(files), FileEntries(files))
  {
    LevelSeparates(files);
    LevelHolds(files);
    OnePart(LevelSource(files));
    if files == [] { assert FileEntries(files) == {}; NoParts(); }
  }

  lemma NewerSharesNone(f: File, g: File)
    requires Newer(f, g)
    ensures NoneShared(RunEntries(f.entries), RunEntries(g.entries)) && NoneShared(RunEntries(g.entries), RunEntries(f.entries))
  {
  }

  lemma Level0Pair(files: seq<File>, i: nat, j: nat)
    requires ValidLevel(0, files) && SortedFiles(files) && i < j < |files|
    ensures NoneShared(RunEntries(files[i].entries), RunEntries(files[j].entries))
  {
    assert BySmallest(files[i], files[j]);
    assert files[i] in files && files[j] in files;
    if files[i].number > files[j].number {
      NewerSharesNone(files[i], files[j]);
    } else {
      NewerSharesNone(files[j], files[i]);
    }
  }

  lemma FrontLevel0(files: seq<File>)
    requires ValidLevel(0, files) && SortedFiles(files) && files != []
    ensures ValidLevel(0, files[..|files| - 1]) && SortedFiles(files[..|files| - 1])
    ensures FileEntries(files) == FileEntries(files[..|files| - 1]) + RunEntries(files[|files| - 1].entries)
  {
    var n := |files| - 1;
    var front := files[..n];
    assert files == front + [files[n]];
  }

  lemma FrontSharesNone(files: seq<File>)
    requires ValidLevel(0, files) && SortedFiles(files) && files != []
    ensures NoneShared(FileEntries(files[..|files| - 1]), RunEntries(files[|files| - 1].entries))
  {
    var n := |files| - 1;
    var front := files[..n];
    forall e, e' | e in FileEntries(front) && e' in files[n].entries ensures Less(e.key, e'.key) || Less(e'.key, e.key) {
      var f :| f in front && e in f.entries;
      var i :| 0 <= i < n && front[i] == f;
      Level0Pair(files, i, n);
      assert e in RunEntries(files[i].entries) && e' in RunEntries(files[n].entries);
    }
  }

  lemma {:induction false} Level0Parts(files: seq<File>)
    requires ValidLevel(0, files) && SortedFiles(files)
    ensures Parts(Level0Sources(files), FileEntries(files))
    decreases |files|
  {
    if files == [] {
      assert FileEntries(files) == {};
      NoParts();
    } else {
      var n := |files| - 1;
      FrontLevel0(files);
      FrontSharesNone(files);
      Level0Parts(files[..n]);
      assert files[n].Valid();
      RunPart(files[n].entries);
      JoinedParts(Level0Sources(files[..n]), FileEntries(files[..n]), [RunSource(files[n].entries)], RunEntries(files[n].entries),
                  Level0Sources(files), FileEntries(files));
    }
  }

  /** The entries of levels 1 to `l - 1`. */
  ghost function Deep(levels: Levels, l: nat): set<Entry>
    requires 1 <= l <= |levels|
  {
    if l == 1 then {} else Deep(levels, l - 1) + FileEntries(levels[l - 1])
  }

  lemma {:induction false} DeepIsDeep(levels: Levels, l: nat, e: Entry)
    requires 1 <= l <= |levels|
    ensures e in Deep(levels, l) <==> exists i :: 1 <= i < l && e in FileEntries(levels[i])
    decreases l
  {
    if l > 1 { DeepIsDeep(levels, l - 1, e); }
  }

  lemma LevelsShareNone(levels: Levels, i: nat, l: nat)
    requires ValidLevels(levels) && i < l < NUM_LEVELS
    ensures NoneShared(FileEntries(levels[i]), FileEntries(levels[l]))
  {
    assert AllNewer(levels[i], levels[l]);
    forall e, e' | e in FileEntries(levels[i]) && e' in FileEntries(levels[l]) ensures Less(e.key, e'.key) || Less(e'.key, e.key) {
      var f :| f in levels[i] && e in f.entries;
      var g :| g in levels[l] && e' in g.entries;
      assert Newer(f, g);
    }
  }

  lemma DeepSharesNone(levels: Levels, l: nat)
    requires ValidLevels(levels) && 1 <= l < NUM_LEVELS
    ensures NoneShared(Deep(levels, l), FileEntries(levels[l]))
  {
    forall e, e' | e in Deep(levels, l) && e' in FileEntries(levels[l]) ensures Less(e.key, e'.key) || Less(e'.key, e.key) {
      DeepIsDeep(levels, l, e);
      var i :| 1 <= i < l && e in FileEntries(levels[i]);
      LevelsShareNone(levels, i, l);
    }
  }

  lemma AddLevel(xs: seq<Source>, a: set<Entry>, files: seq<File>, zs: seq<Source>, all: set<Entry>)
    requires Parts(xs, a) && ValidFiles(files) && Disjoint(files) && NoneShared(a, FileEntries(files))
    requires zs == xs + LevelSources(files) && all == a + FileEntries(files)
    ensures Parts(zs, all)
  {
    LevelPart(files);
    JoinedParts(xs, a, LevelSources(files), FileEntries(files), zs, all);
  }

  /** A level that can be added to those above it. */
  ghost predicate Addable(levels: Levels, l: nat)
    requires 1 <= l < |levels|
  {
    ValidFiles(levels[l]) && Disjoint(levels[l]) && NoneShared(Deep(levels, l), FileEntries(levels[l]))
  }

  lemma DeepIsAddable(levels: Levels, l: nat)
    requires ValidLevels(levels) && 1 <= l < NUM_LEVELS
    ensures Addable(levels, l)
  {
    assert ValidLevel(l, levels[l]);
    DeepSharesNone(levels, l);
  }

  lemma {:induction false} DeepParts(levels: Levels, l: nat)
    requires 1 <= l <= |levels| && forall k :: 1 <= k < l ==> Addable(levels, k)
    ensures Parts(DeepSources(levels, l), Deep(levels, l))
    decreases l
  {
    if l == 1 {
      NoParts();
    } else {
      DeepParts(levels, l - 1);
      assert Addable(levels, l - 1);
      AddLevel(DeepSources(levels, l - 1), Deep(levels, l - 1), levels[l - 1], DeepSources(levels, l), Deep(levels, l));
    }
  }

  lemma ContentsByLevel(levels: Levels, e: Entry)
    requires |levels| == NUM_LEVELS
    ensures e in Contents(levels) <==> e in FileEntries(levels[0]) + Deep(levels, |levels|)
  {
    DeepIsDeep(levels, |levels|, e);
    if e in Contents(levels) {
      var l, f :| 0 <= l < |levels| && f in levels[l] && e in f.entries;
      assert e in FileEntries(levels[l]);
    }
  }

  /** The tables of a version. */
  lemma VersionParts(levels: Levels)
    requires ValidLevels(levels) && SortedFiles(levels[0])
    ensures Parts(VersionSources(levels), Contents(levels))
  {
    assert ValidLevel(0, levels[0]);
    Level0Parts(levels[0]);
    forall k | 1 <= k < |levels| ensures Addable(levels, k) { DeepIsAddable(levels, k); }
    DeepParts(levels, |levels|);
    forall e, e' | e in FileEntries(levels[0]) && e' in Deep(levels, |levels|) ensures Less(e.key, e'.key) || Less(e'.key, e.key) {
      DeepIsDeep(levels, |levels|, e');
      var i :| 1 <= i < NUM_LEVELS && e' in FileEntries(levels[i]);
      LevelsShareNone(levels, 0, i);
    }
    JoinParts(Level0Sources(levels[0]), FileEntries(levels[0]), DeepSources(levels, |levels|), Deep(levels, |levels|));
    forall e ensures e in Contents(levels) <==> e in FileEntries(levels[0]) + Deep(levels, |levels|) { ContentsByLevel(levels, e); }
    assert Contents(levels) == FileEntries(levels[0]) + Deep(levels, |levels|);
  }

  lemma LaterSharesNone(later: set<Entry>, earlier: set<Entry>)
    requires WrittenAfter(later, earlier)
    ensures NoneShared(later, earlier)
  {
  }

  lemma JoinInOrder(xs: seq<Source>, a: set<Entry>, ys: seq<Source>, b: set<Entry>, zs: seq<Source>, c: set<Entry>)
    requires Parts(xs, a) && Parts(ys, b) && Parts(zs, c) && WrittenAfter(b, c) && WrittenAfter(a, b + c)
    ensures Parts(xs + (ys + zs), a + (b + c))
  {
    LaterSharesNone(b, c);
    JoinParts(ys, b, zs, c);
    LaterSharesNone(a, b + c);
    JoinParts(xs, a, ys + zs, b + c);
  }

  lemma ImmParts(imm: Option<seq<Entry>>)
    requires imm.Some? ==> Sorted(imm.value)
    ensures Parts(ImmSources(imm), if imm.Some? then RunEntries(imm.value) else {})
  {
    if imm.Some? { RunPart(imm.value); } else { NoParts(); }
  }

  /** What the children of the whole database's iterator hold is what reads search. */
  lemma SourcesAreReadable(m: Memory)
    requires ValidLevels(m.levels) && SortedFiles(m.levels[0]) && Sorted(m.mem) && (m.imm.Some? ==> Sorted(m.imm.value)) && InOrder(m)
    ensures Parts(Sources(m), Readable(m))
  {
    var imm := if m.imm.Some? then RunEntries(m.imm.value) else {};
    VersionParts(m.levels);
    RunPart(m.mem);
    ImmParts(m.imm);
    JoinInOrder([RunSource(m.mem)], RunEntries(m.mem), ImmSources(m.imm), imm, VersionSources(m.levels), Contents(m.levels));
    assert Readable(m) == RunEntries(m.mem) + (imm + Contents(m.levels));
  }

  // ----- building the merging iterator -----

  ghost function FlatsOf(sources: seq<Source>): Children {
    seq(|sources|, c requires 0 <= c < |sources| => Flat(sources[c].blocks))
  }

  lemma PartsAreDistinct(sources: seq<Source>, all: set<Entry>)
    requires Parts(sources, all)
    ensures DistinctKeys(FlatsOf(sources))
  {
    var children: Children := FlatsOf(sources);
    forall c, d, i, j | 0 <= c < d < |children| && 0 <= i < |children[c]| && 0 <= j < |children[d]|
      ensures Less(children[c][i].key, children[d][j].key) || Less(children[d][j].key, children[c][i].key)
    {
      assert children[c][i] in Held(sources[c]) && children[d][j] in Held(sources[d]);
      assert NoneShared(Held(sources[c]), Held(sources[d]));
    }
  }

  /** NewInternalIterator. */
  method NewInternalIterator(sources: seq<Source>, ghost all: set<Entry>) returns (iter: Merger)
    requires Parts(sources, all)
    ensures iter.Valid() && fresh(iter) && fresh(iter.iters) && iter.children == FlatsOf(sources)
  {
    var iters: seq<TwoLevel> := [];
    for i := 0 to |sources|
      invariant |iters| == i && fresh(iters)
      invariant forall c :: 0 <= c < i ==> iters[c].Valid() && !iters[c].DataValid() && iters[c].blocks == sources[c].blocks
      invariant forall c, d :: 0 <= c < d < i ==> iters[c] != iters[d]
    {
      var child := new TwoLevel(sources[i].blocks, sources[i].separators);
      iters := iters + [child];
    }
    PartsAreDistinct(sources, all);
    assert Flats(iters) == FlatsOf(sources);
    iter := new Merger(iters);
  }

  // ----- walking it -----

  /** `seen` is the union up to the key `k`, or all of it. */
  ghost predicate SeenTo(children: Children, seen: seq<Entry>, ahead: Option<InternalKey>) {
    && Sorted(seen) && (forall e :: e in seen ==> InChild(children, e))
    && (ahead.Some? ==> forall i :: 0 <= i < |seen| ==> Less(seen[i].key, ahead.value))
    && forall c, i :: 0 <= c < |children| && 0 <= i < |children[c]| ==>
         children[c][i] in seen || (ahead.Some? && !Less(children[c][i].key, ahead.value))
  }

  lemma SameEntry(children: Children, c: int, i: int, d: int, j: int)
    requires AllSorted(children) && DistinctKeys(children)
    requires 0 <= c < |children| && 0 <= i < |children[c]| && 0 <= d < |children| && 0 <= j < |children[d]|
    requires SameKey(children[c][i].key, children[d][j].key)
    ensures children[c][i] == children[d][j]
  {
  }

  lemma SeenStep(children: Children, seen: seq<Entry>, c: int, i: int, ahead: Option<InternalKey>)
    requires AllSorted(children) && DistinctKeys(children) && 0 <= c < |children| && 0 <= i < |children[c]|
    requires SeenTo(children, seen, Some(children[c][i].key))
    requires ahead.None? ==> NoneAfter(children, children[c][i].key)
    requires ahead.Some? ==> Less(children[c][i].key, ahead.value)
    requires ahead.Some? ==> forall d, j :: 0 <= d < |children| && 0 <= j < |children[d]| && Less(children[c][i].key, children[d][j].key) ==>
               !Less(children[d][j].key, ahead.value)
    ensures SeenTo(children, seen + [children[c][i]], ahead)
  {
    var e := children[c][i];
    var longer := seen + [e];
    assert InChild(children, e);
    forall d, j | 0 <= d < |children| && 0 <= j < |children[d]|
      ensures children[d][j] in longer || (ahead.Some? && !Less(children[d][j].key, ahead.value))
    {
      if children[d][j] !in seen && !Less(e.key, children[d][j].key) {
        SameEntry(children, c, i, d, j);
        assert longer[|seen|] == e;
      }
    }
  }

  lemma SeenAll(children: Children, seen: seq<Entry>)
    requires SeenTo(children, seen, None)
    ensures IsUnion(children, seen)
  {
  }

  ghost function AllOf(children: Children): set<Entry> {
    set c, i | 0 <= c < |children| && 0 <= i < |children[c]| :: children[c][i]
  }

  /** From the first key on, the merging iterator shows the sorted union. */
  method Walk(iter: Merger) returns (seen: seq<Entry>)
    requires iter.Valid()
    modifies iter, iter.iters
    ensures iter.Valid() && IsUnion(iter.children, seen)
  {
    seen := [];
    iter.SeekToFirst();
    while iter.current >= 0
      invariant iter.Valid()
      invariant SeenTo(iter.children, seen, if iter.current >= 0 then Some(iter.Key()) else None)
      decreases AllOf(iter.children) - RunEntries(seen)
    {
      ghost var c, i := iter.current, iter.places[iter.current];
      var e := iter.Entry();
      Unseen(iter.children, seen, c, i);
      iter.Next();
      SeenStep(iter.children, seen, c, i, if iter.current >= 0 then Some(iter.Key()) else None);
      seen := seen + [e];
    }
    SeenAll(iter.children, seen);
  }

  lemma Unseen(children: Children, seen: seq<Entry>, c: int, i: int)
    requires 0 <= c < |children| && 0 <= i < |children[c]| && SeenTo(children, seen, Some(children[c][i].key))
    ensures AllOf(children) - RunEntries(seen + [children[c][i]]) < AllOf(children) - RunEntries(seen)
  {
    var e := children[c][i];
    assert e in AllOf(children) && e !in RunEntries(seen);
    assert (seen + [e])[|seen|] == e;
    assert RunEntries(seen + [e]) == RunEntries(seen) + {e};
  }

  lemma UnionHolds(sources: seq<Source>, all: set<Entry>, union: seq<Entry>)
    requires Parts(sources, all) && IsUnion(FlatsOf(sources), union)
    ensures RunEntries(union) == all
  {
    var children: Children := FlatsOf(sources);
    forall e | e in RunEntries(union) ensures e in all {
      var c, i :| 0 <= c < |children| && 0 <= i < |children[c]| && children[c][i] == e;
      assert e in Held(sources[c]);
      HeldInAll(sources, all, c);
    }
    forall e | e in all ensures e in RunEntries(union) {
      var c :| 0 <= c < |sources| && e in Held(sources[c]);
      var i :| 0 <= i < |children[c]| && children[c][i] == e;
    }
  }

  // ----- the user-level iterator over it -----

  type Pair = (UserKey, Blob)

  /** What the live places before `n` show, in order. */
  ghost function LivePairs(entries: seq<Entry>, snap: nat, n: nat): seq<Pair>
    requires n <= |entries|
  {
    if n == 0 then []
    else LivePairs(entries, snap, n - 1) + if Live(entries, snap, n - 1) then [(entries[n - 1].key.user, entries[n - 1].value)] else []
  }

  lemma {:induction false} NoneLive(entries: seq<Entry>, snap: nat, from: nat, n: nat)
    requires from <= n <= |entries| && forall i :: from <= i < n ==> !Live(entries, snap, i)
    ensures LivePairs(entries, snap, n) == LivePairs(entries, snap, from)
    decreases n
  {
    if from < n { NoneLive(entries, snap, from, n - 1); }
  }

  lemma {:induction false} PairIsLive(entries: seq<Entry>, snap: nat, n: nat, p: Pair)
    requires n <= |entries|
    ensures p in LivePairs(entries, snap, n) <==>
              exists i :: 0 <= i < n && Live(entries, snap, i) && (entries[i].key.user, entries[i].value) == p
    decreases n
  {
    if n > 0 { PairIsLive(entries, snap, n - 1, p); }
  }

  ghost predicate KeysAscend(pairs: seq<Pair>) {
    forall i, j :: 0 <= i < j < |pairs| ==> pairs[i].0 < pairs[j].0
  }

  lemma LiveKeysAscend(entries: seq<Entry>, snap: nat, i: int, j: int)
    requires Sorted(entries) && Live(entries, snap, i) && Live(entries, snap, j) && i < j
    ensures entries[i].key.user < entries[j].key.user
  {
    UsersAscend(entries, i, j);
  }

  lemma {:induction false} PairsAscend(entries: seq<Entry>, snap: nat, n: nat)
    requires Sorted(entries) && n <= |entries|
    ensures KeysAscend(LivePairs(entries, snap, n))
    decreases n
  {
    if n > 0 {
      PairsAscend(entries, snap, n - 1);
      var front := LivePairs(entries, snap, n - 1);
      if Live(entries, snap, n - 1) {
        forall i | 0 <= i < |front| ensures front[i].0 < entries[n - 1].key.user {
          PairIsLive(entries, snap, n - 1, front[i]);
          var j :| 0 <= j < n - 1 && Live(entries, snap, j) && (entries[j].key.user, entries[j].value) == front[i];
          LiveKeysAscend(entries, snap, j, n - 1);
        }
      }
    }
  }

  /** SeekToFirst and Next until the end. */
  method ListAll(entries: seq<Entry>, snap: nat) returns (pairs: seq<Pair>)
    requires Sorted(entries)
    ensures pairs == LivePairs(entries, snap, |entries|)
  {
    pairs := [];
    var it := new DBIter(entries, snap);
    it.SeekToFirst();
    NoneLive(entries, snap, 0, if it.valid then it.current else |entries|);
    while it.valid
      invariant it.Valid()
      invariant pairs == LivePairs(entries, snap, if it.valid then it.current else |entries|)
      decreases |entries| - if it.valid then it.current else |entries|
    {
      pairs := pairs + [(it.Key(), it.Value())];
      ghost var was := it.current;
      it.Next();
      NoneLive(entries, snap, was + 1, if it.valid then it.current else |entries|);
    }
  }

  lemma ListedIsVisible(entries: seq<Entry>, snap: nat, p: Pair)
    requires Sorted(entries) && UniqueSequences(RunEntries(entries))
    ensures p in LivePairs(entries, snap, |entries|) <==> Visible(RunEntries(entries), p.0, snap) == Found(p.1)
  {
    PairIsLive(entries, snap, |entries|, p);
    LiveIsVisible(entries, snap, p.0);
  }

  // ----- in every reachable state -----

  /** Level 0 lists each table once, in order. */
  ghost predicate TopInOrder(s: System) {
    && |s.disk.levels| == NUM_LEVELS && SortedFiles(s.disk.levels[0])
    && (s.up.Some? ==> |s.up.value.levels| == NUM_LEVELS && SortedFiles(s.up.value.levels[0]))
  }

  lemma FlushKeepsOrder(s: System, s': System, levels: Levels)
    requires TopInOrder(s) && LogFlush(s, s', levels)
    ensures TopInOrder(s')
  {
  }

  lemma CompactionKeepsOrder(s: System, s': System, levels: Levels)
    requires TopInOrder(s) && LogCompaction(s, s', levels)
    ensures TopInOrder(s')
  {
  }

  lemma OtherStepsKeepOrder(s: System, s': System)
    requires TopInOrder(s) && SameVersions(s, s')
    ensures TopInOrder(s')
  {
  }

  ghost predicate NewVersion(s: System, s': System) {
    || (exists levels :: LogFlush(s, s', levels))
    || (exists levels :: LogCompaction(s, s', levels))
    || (exists levels :: InstallRecovery(s, s', levels))
  }

  ghost predicate SameVersions(s: System, s': System) {
    && s'.disk.levels == s.disk.levels
    && (s'.up.Some? ==> s.up.Some? && (s'.up.value.levels == s.up.value.levels || s'.up.value.levels == s.disk.levels))
  }

  lemma OthersAddNoVersion(s: System, s': System)
    requires Step(s, s') && !NewVersion(s, s')
    ensures SameVersions(s, s')
  {
    if b :| BeginWrite(s, s', b) {
    } else if mem :| FinishWrite(s, s', mem) {
    } else if level, file :| BuildFlush(s, s', level, file) {
    } else if c, merged, outputs, snap :| BuildCompaction(s, s', c, merged, outputs, snap) {
    } else if c, snap :| BuildMove(s, s', c, snap) {
    } else if tables, first :| DeleteObsolete(s, s', tables, first) {
    } else if keep :| Crash(s, s', keep) {
    } else if r :| BuildRecovery(s, s', r) {
    }
  }

  lemma StepKeepsOrder(s: System, s': System)
    requires TopInOrder(s) && Step(s, s')
    ensures TopInOrder(s')
  {
    if levels :| LogFlush(s, s', levels) {
      FlushKeepsOrder(s, s', levels);
    } else if levels :| LogCompaction(s, s', levels) {
      CompactionKeepsOrder(s, s', levels);
    } else if levels :| InstallRecovery(s, s', levels) {
      assert SortedFiles(levels[0]);
    } else {
      OthersAddNoVersion(s, s');
      OtherStepsKeepOrder(s, s');
    }
  }

  lemma {:induction false} RunKeepsOrder(trace: seq<System>, i: nat)
    requires Run(trace) && i < |trace|
    ensures TopInOrder(trace[i])
  {
    if i > 0 {
      RunKeepsOrder(trace, i - 1);
      StepKeepsOrder(trace[i - 1], trace[i]);
    }
  }

  lemma ReachedSources(trace: seq<System>, m: Memory)
    requires Run(trace) && trace[|trace| - 1].up == Some(m)
    ensures ValidLevels(m.levels) && Parts(Sources(m), Readable(m)) && UniqueSequences(Readable(m))
  {
    var s := trace[|trace| - 1];
    RunKeeps(trace, |trace| - 1);
    RunKeepsOrder(trace, |trace| - 1);
    UniqueReadable(s, m);
    MemtablesFirst(s.disk.logs, s.disk.logNumber, m, s.held, s.history);
    SourcesAreReadable(m);
  }

  /**
   A full scan at a usable snapshot of any reachable state lists, in order of keys and
   each once, every pair that the history shows there, and no other but of keys that a
   compaction has brought back.
   */
  method Scan(m: Memory, snapshot: nat, ghost trace: seq<System>) returns (pairs: seq<Pair>)
    requires Run(trace) && trace[|trace| - 1].up == Some(m) && Readers(m, snapshot)
    ensures KeysAscend(pairs)
    ensures forall p :: p in pairs <==> Visible(Readable(m), p.0, snapshot) == Found(p.1)
    ensures forall p: Pair :: Visible(EntriesOf(trace[|trace| - 1].history), p.0, snapshot) == Found(p.1) ==> p in pairs
    ensures forall p :: p in pairs && p.0 !in trace[|trace| - 1].risen ==>
              Visible(EntriesOf(trace[|trace| - 1].history), p.0, snapshot) == Found(p.1)
  {
    ReachedSources(trace, m);
    var entries := Union(Sources(m), Readable(m));
    pairs := ListAll(entries, snapshot);
    PairsAscend(entries, snapshot, |entries|);
    forall p ensures p in pairs <==> Visible(Readable(m), p.0, snapshot) == Found(p.1) { ListedIsVisible(entries, snapshot, p); }
    forall p: Pair | Reliable(EntriesOf(trace[|trace| - 1].history), p.0, snapshot, trace[|trace| - 1].risen)
      ensures Visible(Readable(m), p.0, snapshot) == Visible(EntriesOf(trace[|trace| - 1].history), p.0, snapshot)
    {
      EveryReadSeesHistory(trace, |trace| - 1, p.0, snapshot);
    }
  }

  method Union(sources: seq<Source>, ghost all: set<Entry>) returns (union: seq<Entry>)
    requires Parts(sources, all)
    ensures Sorted(union) && RunEntries(union) == all
  {
    var iter := NewInternalIterator(sources, all);
    union := Walk(iter);
    UnionHolds(sources, all, union);
  }
}
