/**
 Table files arranged in levels, and the point lookup over them
 (db/version_set.cc: FindFile, Version::Get; db/memtable.cc: Get; db/db_impl.cc: Get).
 */
module Version {
  import opened Format

  const NUM_LEVELS := 7

  /** FileMetaData together with the entries of the table it describes. */
  datatype File = File(number: nat, size: nat, smallest: InternalKey, largest: InternalKey, entries: seq<Entry>) {
    /** A table is never empty, its keys strictly ascend, and its metadata names the ends. */
    ghost predicate Valid() {
      && entries != [] && Sorted(entries)
      && smallest == entries[0].key && largest == entries[|entries| - 1].key
    }
  }

  type Levels = seq<seq<File>>

  /** For every user key the two files share, `f` holds the newer versions: the larger tags. */
  ghost predicate Newer(f: File, g: File) {
    forall e, e' :: e in f.entries && e' in g.entries && e.key.user == e'.key.user
      ==> Tag(e.key) > Tag(e'.key)
  }

  lemma NewerHolds(f: File, g: File, e: Entry, e': Entry)
    requires Newer(f, g)
    requires e in f.entries && e' in g.entries && e.key.user == e'.key.user
    ensures Tag(e.key) > Tag(e'.key) && e.key.sequence >= e'.key.sequence
  {
  }

  ghost predicate ValidFiles(files: seq<File>) {
    forall i :: 0 <= i < |files| ==> files[i].Valid()
  }

  /** Levels 1 and deeper: sorted and disjoint by internal key. */
  ghost predicate Disjoint(files: seq<File>) {
    forall i, j :: 0 <= i < j < |files| ==> Less(files[i].largest, files[j].smallest)
  }

  /** Level 0: a greater file number means newer versions. */
  ghost predicate AgeOrdered(files: seq<File>) {
    forall f, g :: f in files && g in files && f.number > g.number ==> Newer(f, g)
  }

  ghost predicate DistinctNumbers(files: seq<File>) {
    forall f, g :: f in files && g in files && f.number == g.number ==> f == g
  }

  ghost predicate AllNewer(upper: seq<File>, lower: seq<File>) {
    forall f, g :: f in upper && g in lower ==> Newer(f, g)
  }

  ghost predicate ValidLevel(l: nat, files: seq<File>) {
    && ValidFiles(files)
    && (l == 0 ==> AgeOrdered(files) && DistinctNumbers(files))
    && (l > 0 ==> Disjoint(files))
  }

  /** The shape every reachable version keeps. */
  ghost predicate ValidLevels(levels: Levels) {
    && |levels| == NUM_LEVELS
    && (forall l :: 0 <= l < NUM_LEVELS ==> ValidLevel(l, levels[l]))
    && (forall l, m :: 0 <= l < m < NUM_LEVELS ==> AllNewer(levels[l], levels[m]))
  }

  ghost function RunEntries(es: seq<Entry>): set<Entry> {
    set e | e in es
  }

  ghost function FileEntries(files: seq<File>): set<Entry> {
    set f, e | f in files && e in f.entries :: e
  }

  ghost function Contents(levels: Levels): set<Entry> {
    set l, f, e | 0 <= l < |levels| && f in levels[l] && e in f.entries :: e
  }

  // ----- seeking inside one sorted run of entries -----

  /** `i` is the place of the first entry at or after `target`. */
  predicate FirstAtOrAfter(es: seq<Entry>, target: InternalKey, i: int) {
    && 0 <= i <= |es|
    && (forall j :: 0 <= j < i ==> Less(es[j].key, target))
    && (forall j :: i <= j < |es| ==> !Less(es[j].key, target))
  }

  method Seek(es: seq<Entry>, target: InternalKey) returns (i: nat)
    requires Sorted(es)
    ensures FirstAtOrAfter(es, target, i)
  {
    i := 0;
    while i < |es| && Less(es[i].key, target)
      invariant i <= |es|
      invariant forall j :: 0 <= j < i ==> Less(es[j].key, target)
    {
      i := i + 1;
    }
  }

  /** A hit carries the entry found; a deletion is a hit too. */
  datatype Lookup = Miss | Hit(entry: Entry)

  /** MemTable::Get, and Table::InternalGet followed by SaveValue. */
  method GetInRun(es: seq<Entry>, k: UserKey, s: nat) returns (r: Lookup)
    requires Sorted(es)
    ensures r.Hit? ==> Newest(RunEntries(es), k, s, r.entry)
    ensures r.Miss? ==> forall e :: e in es ==> !(e.key.user == k && e.key.sequence <= s)
  {
    var i := Seek(es, LookupKey(k, s));
    if i < |es| && es[i].key.user == k {
      r := Hit(es[i]);
      RunNewest(es, k, s, i);
    } else {
      r := Miss;
      forall e | e in es ensures !(e.key.user == k && e.key.sequence <= s) {
        var j :| 0 <= j < |es| && es[j] == e;
        if i <= j { assert i == j || Less(es[i].key, es[j].key); }
      }
    }
  }

  lemma RunNewest(es: seq<Entry>, k: UserKey, s: nat, i: nat)
    requires Sorted(es)
    requires FirstAtOrAfter(es, LookupKey(k, s), i)
    requires i < |es| && es[i].key.user == k
    ensures Newest(RunEntries(es), k, s, es[i])
  {
    var all := RunEntries(es);
    forall e | Candidate(all, k, s, e) ensures e.key.sequence <= es[i].key.sequence {
      var j :| 0 <= j < |es| && es[j] == e;
      if j > i { assert Less(es[i].key, es[j].key); }
    }
  }

  // ----- finding the file -----

  /** FindFile: the first file whose largest key is at or after `key`. */
  method FindFile(files: seq<File>, key: InternalKey) returns (index: nat)
    requires ValidFiles(files) && Disjoint(files)
    ensures index <= |files|
    ensures forall i :: 0 <= i < index ==> Less(files[i].largest, key)
    ensures forall i :: index <= i < |files| ==> !Less(files[i].largest, key)
  {
    var left, right := 0, |files|;
    while left < right
      invariant 0 <= left <= right <= |files|
      invariant forall i :: 0 <= i < left ==> Less(files[i].largest, key)
      invariant forall i :: right <= i < |files| ==> !Less(files[i].largest, key)
    {
      var mid := (left + right) / 2;
      EndsAscend(files, mid);
      if Less(files[mid].largest, key) {
        left := mid + 1;
      } else {
        right := mid;
      }
    }
    index := right;
  }

  lemma WithinBounds(f: File, e: Entry)
    requires f.Valid() && e in f.entries
    ensures !Less(e.key, f.smallest) && !Less(f.largest, e.key)
  {
    var i :| 0 <= i < |f.entries| && f.entries[i] == e;
    assert i == 0 || Less(f.entries[0].key, f.entries[i].key);
    assert i == |f.entries| - 1 || Less(f.entries[i].key, f.entries[|f.entries| - 1].key);
  }

  lemma EndsAscend(files: seq<File>, m: nat)
    requires ValidFiles(files) && Disjoint(files) && m < |files|
    ensures forall i :: 0 <= i < m ==> Less(files[i].largest, files[m].largest)
    ensures forall i :: m < i < |files| ==> Less(files[m].largest, files[i].largest)
  {
    forall i | m <= i < |files| ensures !Less(files[i].largest, files[i].smallest) {
      WithinBounds(files[i], files[i].entries[0]);
    }
  }

  // ----- one level -----

  method FilesNewestFirst(files: seq<File>, k: UserKey) returns (tmp: seq<File>)
    requires ValidFiles(files) && DistinctNumbers(files)
    ensures NewestFirst(files, tmp, k)
  {
    tmp := [];
    for n := 0 to |files|
      invariant forall i, j :: 0 <= i < j < |tmp| ==> tmp[i].number >= tmp[j].number
      invariant forall f :: f in tmp <==> f in files[..n] && f.smallest.user <= k <= f.largest.user
    {
      var f := files[n];
      assert files[..n + 1] == files[..n] + [f];
      if f.smallest.user <= k <= f.largest.user {
        tmp := InsertByNumber(tmp, f);
      }
    }
    assert files[..|files|] == files;
  }

  /** One step of std::sort by NewestFirst. */
  method InsertByNumber(tmp: seq<File>, f: File) returns (r: seq<File>)
    requires forall i, j :: 0 <= i < j < |tmp| ==> tmp[i].number >= tmp[j].number
    ensures forall i, j :: 0 <= i < j < |r| ==> r[i].number >= r[j].number
    ensures forall g :: g in r <==> g in tmp || g == f
  {
    var i := 0;
    while i < |tmp| && tmp[i].number >= f.number
      invariant i <= |tmp|
      invariant forall j :: 0 <= j < i ==> tmp[j].number >= f.number
    {
      i := i + 1;
    }
    assert tmp == tmp[..i] + tmp[i..];
    r := tmp[..i] + [f] + tmp[i..];
  }

  /** The files that may hold `k`, newest first. */
  ghost predicate NewestFirst(files: seq<File>, tmp: seq<File>, k: UserKey) {
    && (forall i, j :: 0 <= i < j < |tmp| ==> tmp[i].number >= tmp[j].number)
    && (forall f :: f in tmp <==> f in files && f.smallest.user <= k <= f.largest.user)
  }

  ghost predicate MissedBefore(tmp: seq<File>, i: nat, k: UserKey, s: nat) {
    forall j, e :: 0 <= j < i && j < |tmp| && e in tmp[j].entries ==> !(e.key.user == k && e.key.sequence <= s)
  }

  /** A hit in file `i` is newer than whatever other files hold. */
  lemma Level0HitIsNewest(files: seq<File>, tmp: seq<File>, i: nat, k: UserKey, s: nat, hit: Entry, e: Entry)
    requires ValidFiles(files) && DistinctNumbers(files) && AgeOrdered(files)
    requires NewestFirst(files, tmp, k) && i < |tmp| && MissedBefore(tmp, i, k, s)
    requires Newest(RunEntries(tmp[i].entries), k, s, hit) && Candidate(FileEntries(files), k, s, e)
    ensures e.key.sequence <= hit.key.sequence
  {
    var g :| g in files && e in g.entries;
    WithinBounds(g, e);
    var j :| 0 <= j < |tmp| && tmp[j] == g;
    if g == tmp[i] {
      assert Candidate(RunEntries(g.entries), k, s, e);
    } else {
      NewerHolds(tmp[i], g, hit, e);
    }
  }

  method GetLevel0(files: seq<File>, k: UserKey, s: nat) returns (r: Lookup)
    requires ValidFiles(files) && DistinctNumbers(files) && AgeOrdered(files)
    ensures r.Hit? ==> Newest(FileEntries(files), k, s, r.entry)
    ensures r.Miss? ==> forall e :: !Candidate(FileEntries(files), k, s, e)
  {
    var tmp := FilesNewestFirst(files, k);
    ghost var all := FileEntries(files);
    for i := 0 to |tmp|
      invariant MissedBefore(tmp, i, k, s)
    {
      r := GetInRun(tmp[i].entries, k, s);
      if r.Hit? {
        forall e | Candidate(all, k, s, e) ensures e.key.sequence <= r.entry.key.sequence {
          Level0HitIsNewest(files, tmp, i, k, s, r.entry, e);
        }
        return;
      }
      assert forall e :: e in tmp[i].entries ==> !Candidate(RunEntries(tmp[i].entries), k, s, e);
    }
    r := Miss;
    forall e | e in all ensures !Candidate(all, k, s, e) {
      var g :| g in files && e in g.entries;
      WithinBounds(g, e);
    }
  }

  method GetDeepLevel(files: seq<File>, k: UserKey, s: nat) returns (r: Lookup)
    requires ValidFiles(files) && Disjoint(files)
    ensures r.Hit? ==> Newest(FileEntries(files), k, s, r.entry)
    ensures r.Miss? ==> forall e :: !Candidate(FileEntries(files), k, s, e)
  {
    var index := FindFile(files, LookupKey(k, s));
    r := Miss;
    if index < |files| && !(k < files[index].smallest.user) {
      r := GetInRun(files[index].entries, k, s);
    }
    ghost var all := FileEntries(files);
    forall e | Candidate(all, k, s, e)
      ensures r.Hit? && e.key.sequence <= r.entry.key.sequence
    {
      CandidateIsInFile(files, k, s, e, index);
      if r.Hit? && e !in files[index].entries {
        LaterFileOlder(files, k, s, e, index, r.entry);
      } else if r.Hit? {
        assert Candidate(RunEntries(files[index].entries), k, s, e);
      }
    }
  }

  /** No candidate lies before the file that FindFile picks, and a candidate implies that file holds one. */
  lemma CandidateIsInFile(files: seq<File>, k: UserKey, s: nat, e: Entry, index: nat)
    requires ValidFiles(files) && Disjoint(files)
    requires index <= |files|
    requires forall i :: 0 <= i < index ==> Less(files[i].largest, LookupKey(k, s))
    requires forall i :: index <= i < |files| ==> !Less(files[i].largest, LookupKey(k, s))
    requires Candidate(FileEntries(files), k, s, e)
    ensures index < |files| && !(k < files[index].smallest.user)
    ensures exists x :: x in files[index].entries && x.key.user == k && x.key.sequence <= s
  {
    var g :| g in files && e in g.entries;
    var j :| 0 <= j < |files| && files[j] == g;
    WithinBounds(g, e);
    if j > index {
      var last := files[index].entries[|files[index].entries| - 1];
      assert Less(files[index].largest, files[j].smallest);
      WithinBounds(files[index], files[index].entries[0]);
      assert last in files[index].entries && last.key.user == k && last.key.sequence <= s;
    }
  }

  lemma LaterFileOlder(files: seq<File>, k: UserKey, s: nat, e: Entry, index: nat, hit: Entry)
    requires ValidFiles(files) && Disjoint(files)
    requires index < |files|
    requires forall i :: 0 <= i < index ==> Less(files[i].largest, LookupKey(k, s))
    requires Candidate(FileEntries(files), k, s, e) && e !in files[index].entries
    requires hit in files[index].entries && hit.key.user == k
    ensures e.key.sequence <= hit.key.sequence
  {
    var g :| g in files && e in g.entries;
    var j :| 0 <= j < |files| && files[j] == g;
    WithinBounds(g, e);
    WithinBounds(files[index], hit);
    assert j > index;
    assert Less(files[index].largest, files[j].smallest);
  }

  // ----- all levels -----

  /**
   Version::Get: shallow levels first, and the first hit wins. Under the level
   invariant that entry is the newest one at or below the snapshot anywhere.
   */
  method Get(levels: Levels, k: UserKey, s: nat) returns (r: Lookup)
    requires ValidLevels(levels)
    ensures r.Hit? ==> Newest(Contents(levels), k, s, r.entry)
    ensures r.Miss? ==> forall e :: !Candidate(Contents(levels), k, s, e)
  {
    for l := 0 to NUM_LEVELS
      invariant forall m, e :: 0 <= m < l && e in FileEntries(levels[m]) ==> !(e.key.user == k && e.key.sequence <= s)
    {
      if l == 0 {
        r := GetLevel0(levels[0], k, s);
      } else {
        r := GetDeepLevel(levels[l], k, s);
      }
      if r.Hit? {
        FirstHitIsNewest(levels, k, s, l, r.entry);
        return;
      }
      assert forall e :: !Candidate(FileEntries(levels[l]), k, s, e);
      assert forall e :: e in FileEntries(levels[l]) ==>
          !Candidate(FileEntries(levels[l]), k, s, e);
    }
    r := Miss;
    forall e ensures !Candidate(Contents(levels), k, s, e) {
      if e in Contents(levels) {
        var m, f :| 0 <= m < |levels| && f in levels[m] && e in f.entries;
        assert e in FileEntries(levels[m]);
      }
    }
  }

  lemma FirstHitIsNewest(levels: Levels, k: UserKey, s: nat, l: nat, hit: Entry)
    requires ValidLevels(levels) && l < NUM_LEVELS
    requires forall m, e :: 0 <= m < l && e in FileEntries(levels[m]) ==> !(e.key.user == k && e.key.sequence <= s)
    requires Newest(FileEntries(levels[l]), k, s, hit)
    ensures Newest(Contents(levels), k, s, hit)
  {
    var f :| f in levels[l] && hit in f.entries;
    forall e | Candidate(Contents(levels), k, s, e) ensures e.key.sequence <= hit.key.sequence {
      var m, g :| 0 <= m < |levels| && g in levels[m] && e in g.entries;
      assert e in FileEntries(levels[m]);
      if m == l {
        assert Candidate(FileEntries(levels[l]), k, s, e);
      } else {
        NewerHolds(f, g, hit, e);
      }
    }
  }
}
