/**
 Applying version edits (db/version_set.cc: Builder, LogAndApply, Recover,
 WriteSnapshot). One builder fed with a whole manifest gives the same version as
 installing the edits one at a time.
 */
module VersionBuilder {
  import opened Format
  import opened Version
  import opened Install

  /** The parts of a VersionEdit that change the files of levels. */
  datatype Edit = Edit(deletedFiles: seq<(nat, nat)>, newFiles: seq<(nat, File)>) {
    ghost predicate Valid() {
      && (forall i :: 0 <= i < |deletedFiles| ==> deletedFiles[i].0 < NUM_LEVELS)
      && (forall i :: 0 <= i < |newFiles| ==> newFiles[i].0 < NUM_LEVELS)
    }

    /** The file numbers the edit deletes from level `l`. */
    ghost function Deletes(l: nat): set<nat> {
      DeletedAt(deletedFiles, l)
    }

    ghost function Adds(l: nat): set<File> {
      AddedAt(newFiles, l)
    }
  }

  ghost function DeletedAt(deletedFiles: seq<(nat, nat)>, l: nat): set<nat> {
    set d | d in deletedFiles && d.0 == l :: d.1
  }

  ghost function AddedAt(newFiles: seq<(nat, File)>, l: nat): set<File> {
    set a | a in newFiles && a.0 == l :: a.1
  }

  lemma DeletedAtSnoc(front: seq<(nat, nat)>, d: (nat, nat), l: nat)
    ensures DeletedAt(front + [d], l) == DeletedAt(front, l) + if d.0 == l then {d.1} else {}
  {
    assert forall x :: x in front + [d] <==> x in front || x == d;
  }

  lemma AddedAtSnoc(front: seq<(nat, File)>, a: (nat, File), l: nat)
    ensures AddedAt(front + [a], l) == AddedAt(front, l) + if a.0 == l then {a.1} else {}
  {
    assert forall x :: x in front + [a] <==> x in front || x == a;
  }

  ghost function Numbers(files: set<File>): set<nat> {
    set f | f in files :: f.number
  }

  ghost function Files(files: seq<File>): set<File> {
    set f | f in files
  }

  ghost predicate Distinct(files: set<File>) {
    forall f, g :: f in files && g in files && f.number == g.number ==> f == g
  }

  /** Files whose number is not deleted. */
  ghost function Live(files: set<File>, deleted: set<nat>): set<File> {
    set f | f in files && f.number !in deleted
  }

  /** One edit on one level of an installed version. */
  ghost function AfterEdit(files: set<File>, e: Edit, l: nat): set<File> {
    Live(files + e.Adds(l), e.Deletes(l) - Numbers(e.Adds(l)))
  }

  /** The edit only adds files whose numbers are not in use at the level, each once. */
  ghost predicate FreshAdds(files: set<File>, e: Edit, l: nat) {
    Numbers(e.Adds(l)) !! Numbers(files) && Distinct(e.Adds(l))
  }

  // ----- keeping files in BySmallestKey order -----

  lemma OrderTransitive(f: File, g: File, h: File)
    requires BySmallest(f, g) && BySmallest(g, h)
    ensures BySmallest(f, h)
  {
  }

  /** std::set::insert: a file that is already there is not inserted again. */
  method InsertSorted(files: seq<File>, f: File) returns (r: seq<File>)
    requires SortedFiles(files)
    requires forall i :: 0 <= i < |files| && files[i].number == f.number ==> files[i] == f
    ensures SortedFiles(r)
    ensures Files(r) == Files(files) + {f}
  {
    var i := 0;
    while i < |files| && BySmallest(files[i], f)
      invariant 0 <= i <= |files|
      invariant forall j :: 0 <= j < i ==> BySmallest(files[j], f)
    {
      i := i + 1;
    }
    if i < |files| && !BySmallest(f, files[i]) {
      assert files[i].number == f.number;
      return files;
    }
    r := files[..i] + [f] + files[i..];
    forall j | i <= j < |files| ensures BySmallest(f, files[j]) {
      if i < j {
        OrderTransitive(f, files[i], files[j]);
      }
    }
    InsertedSorted(files, f, i);
  }

  lemma InsertedSorted(files: seq<File>, f: File, i: nat)
    requires SortedFiles(files) && i <= |files|
    requires forall j :: 0 <= j < i ==> BySmallest(files[j], f)
    requires forall j :: i <= j < |files| ==> BySmallest(f, files[j])
    ensures SortedFiles(files[..i] + [f] + files[i..]) && Files(files[..i] + [f] + files[i..]) == Files(files) + {f}
  {
    var r := files[..i] + [f] + files[i..];
    assert files == files[..i] + files[i..];
    assert forall g :: g in r <==> g in files || g == f;
  }

  /** Two ordered lists of the same files are the same list. */
  lemma {:induction false} SortedUnique(a: seq<File>, b: seq<File>)
    requires SortedFiles(a) && SortedFiles(b)
    requires Files(a) == Files(b)
    ensures a == b
  {
    assert |b| > 0 ==> b[0] in Files(b);
    if a == [] {
      assert b == [];
    } else {
      assert a[0] in Files(b);
      var n, m := |a| - 1, |b| - 1;
      assert a[n] in Files(a) && b[m] in Files(b);
      LastIsSame(a, b);
      var a', b' := a[..n], b[..m];
      forall f ensures f in Files(a') <==> f in Files(b') {
        NotInFront(a, f);
        NotInFront(b, f);
      }
      SortedUnique(a', b');
      assert a == a' + [a[n]] && b == b' + [b[m]];
    }
  }

  lemma LastIsSame(a: seq<File>, b: seq<File>)
    requires SortedFiles(a) && SortedFiles(b) && a != [] && b != []
    requires Files(a) == Files(b)
    ensures a[|a| - 1] == b[|b| - 1]
  {
    assert a[|a| - 1] in Files(b) && b[|b| - 1] in Files(a);
    var i :| 0 <= i < |b| && b[i] == a[|a| - 1];
    var j :| 0 <= j < |a| && a[j] == b[|b| - 1];
    if i < |b| - 1 {
      assert BySmallest(b[i], b[|b| - 1]);
    }
    if j < |a| - 1 {
      assert BySmallest(a[j], a[|a| - 1]);
    }
  }

  lemma NotInFront(a: seq<File>, f: File)
    requires SortedFiles(a) && a != []
    ensures f in Files(a[..|a| - 1]) <==> f in Files(a) && f != a[|a| - 1]
  {
    var n := |a| - 1;
    assert a == a[..n] + [a[n]];
    if f in a[..n] {
      var i :| 0 <= i < n && a[i] == f;
      assert BySmallest(a[i], a[n]);
    }
  }

  lemma AddIsFresh(base: set<File>, added: set<File>, e: Edit, i: nat)
    requires i < |e.newFiles| && FreshAdds(base + added, e, e.newFiles[i].0)
    requires Distinct(base + added)
    ensures e.newFiles[i].1.number !in Numbers(base)
    ensures Distinct(added + AddedAt(e.newFiles[..i], e.newFiles[i].0) + {e.newFiles[i].1})
  {
    var (l, f) := e.newFiles[i];
    assert e.newFiles[i] in e.newFiles && f in e.Adds(l);
    assert forall g :: g in AddedAt(e.newFiles[..i], l) ==> g in e.Adds(l);
    assert f.number in Numbers(e.Adds(l));
    forall g | g in base + added ensures g.number !in Numbers(e.Adds(l)) {
      assert g.number in Numbers(base + added);
    }
    assert forall g :: g in e.Adds(l) ==> g.number in Numbers(e.Adds(l));
  }

  // ----- the builder -----

  class Builder {
    const base: Levels
    var deleted: seq<set<nat>>
    var added: seq<seq<File>>

    constructor (base: Levels)
      requires |base| == NUM_LEVELS
      ensures this.base == base
      ensures deleted == seq(NUM_LEVELS, _ => {}) && added == seq(NUM_LEVELS, _ => [])
    {
      this.base := base;
      deleted, added := seq(NUM_LEVELS, _ => {}), seq(NUM_LEVELS, _ => []);
    }

    ghost predicate Valid()
      reads this
    {
      && |base| == |deleted| == |added| == NUM_LEVELS
      && forall l :: 0 <= l < NUM_LEVELS ==>
           && SortedFiles(base[l]) && SortedFiles(added[l])
           && Distinct(Files(base[l]) + Files(added[l]))
           && Numbers(Files(base[l])) !! Numbers(Files(added[l]))
    }

    /** What the builder would save for level `l`. */
    ghost function Level(l: nat): set<File>
      requires l < |base| && l < |added| && l < |deleted|
      reads this
    {
      Live(Files(base[l]) + Files(added[l]), deleted[l])
    }

    method DeleteFile(level: nat, number: nat)
      requires Valid() && level < NUM_LEVELS
      modifies this`deleted
      ensures Valid()
      ensures deleted == old(deleted)[level := old(deleted[level]) + {number}]
    {
      deleted := deleted[level := deleted[level] + {number}];
    }

    method AddFile(level: nat, f: File)
      requires Valid() && level < NUM_LEVELS
      requires f.number !in Numbers(Files(base[level])) && Distinct(Files(added[level]) + {f})
      modifies this
      ensures Valid()
      ensures deleted == old(deleted)[level := old(deleted[level]) - {f.number}]
      ensures forall l :: 0 <= l < NUM_LEVELS && l != level ==> added[l] == old(added[l])
      ensures Files(added[level]) == old(Files(added[level])) + {f}
    {
      deleted := deleted[level := deleted[level] - {f.number}];
      assert forall i :: 0 <= i < |added[level]| ==> added[level][i] in Files(added[level]);
      var files := InsertSorted(added[level], f);
      added := added[level := files];
    }

    /** Builder::Apply: deletions first, then the new files. */
    method Apply(e: Edit)
      requires Valid() && e.Valid()
      requires forall l :: 0 <= l < NUM_LEVELS ==> FreshAdds(Files(base[l]) + Files(added[l]), e, l)
      modifies this
      ensures Valid()
      ensures forall l :: 0 <= l < NUM_LEVELS ==>
                deleted[l] == (old(deleted[l]) + e.Deletes(l)) - Numbers(e.Adds(l))
      ensures forall l :: 0 <= l < NUM_LEVELS ==> Files(added[l]) == old(Files(added[l])) + e.Adds(l)
    {
      ApplyDeletions(e);
      ApplyAdditions(e);
    }

    method ApplyDeletions(e: Edit)
      requires Valid() && e.Valid()
      modifies this`deleted
      ensures Valid()
      ensures forall l :: 0 <= l < NUM_LEVELS ==> deleted[l] == old(deleted[l]) + e.Deletes(l)
    {
      for i := 0 to |e.deletedFiles|
        invariant Valid()
        invariant forall l :: 0 <= l < NUM_LEVELS ==>
                    deleted[l] == old(deleted[l]) + DeletedAt(e.deletedFiles[..i], l)
      {
        var d := e.deletedFiles[i];
        assert e.deletedFiles[..i + 1] == e.deletedFiles[..i] + [d];
        forall l ensures DeletedAt(e.deletedFiles[..i + 1], l) == DeletedAt(e.deletedFiles[..i], l) + if d.0 == l then {d.1} else {} {
          DeletedAtSnoc(e.deletedFiles[..i], d, l);
        }
        DeleteFile(d.0, d.1);
      }
      assert e.deletedFiles[..|e.deletedFiles|] == e.deletedFiles;
    }

    method ApplyAdditions(e: Edit)
      requires Valid() && e.Valid()
      requires forall l :: 0 <= l < NUM_LEVELS ==> FreshAdds(Files(base[l]) + Files(added[l]), e, l)
      modifies this
      ensures Valid()
      ensures forall l :: 0 <= l < NUM_LEVELS ==> deleted[l] == old(deleted[l]) - Numbers(e.Adds(l))
      ensures forall l :: 0 <= l < NUM_LEVELS ==> Files(added[l]) == old(Files(added[l])) + e.Adds(l)
    {
      for i := 0 to |e.newFiles|
        invariant Valid()
        invariant forall l :: 0 <= l < NUM_LEVELS ==>
                    deleted[l] == old(deleted[l]) - Numbers(AddedAt(e.newFiles[..i], l))
        invariant forall l :: 0 <= l < NUM_LEVELS ==>
                    Files(added[l]) == old(Files(added[l])) + AddedAt(e.newFiles[..i], l)
      {
        var a := e.newFiles[i];
        assert e.newFiles[..i + 1] == e.newFiles[..i] + [a];
        forall l ensures AddedAt(e.newFiles[..i + 1], l) == AddedAt(e.newFiles[..i], l) + if a.0 == l then {a.1} else {} {
          AddedAtSnoc(e.newFiles[..i], a, l);
        }
        AddIsFresh(Files(base[a.0]), old(Files(added[a.0])), e, i);
        AddFile(a.0, a.1);
      }
      assert e.newFiles[..|e.newFiles|] == e.newFiles;
    }

    /** The builder has taken exactly `edits`. */
    ghost predicate Folded(edits: seq<Edit>)
      reads this
    {
      && Valid()
      && forall l :: 0 <= l < NUM_LEVELS ==>
           Files(added[l]) == FoldAdded(edits, l) && deleted[l] == FoldDeleted(edits, l)
    }

    /** Apply, seen as one more edit of a manifest. */
    method ApplyNext(ghost done: seq<Edit>, e: Edit)
      requires Folded(done) && e.Valid()
      requires forall l :: 0 <= l < NUM_LEVELS ==> FreshAdds(Files(base[l]) + FoldAdded(done, l), e, l)
      modifies this
      ensures Folded(done + [e])
    {
      Apply(e);
      assert (done + [e])[..|done|] == done;
    }

    /** Builder::SaveTo. */
    method SaveTo() returns (levels: Levels)
      requires Valid()
      ensures |levels| == NUM_LEVELS
      ensures forall l :: 0 <= l < NUM_LEVELS ==> SortedFiles(levels[l]) && Files(levels[l]) == Level(l)
    {
      levels := [];
      for l := 0 to NUM_LEVELS
        invariant |levels| == l
        invariant forall m :: 0 <= m < l ==> SortedFiles(levels[m]) && Files(levels[m]) == Level(m)
      {
        var files := SaveLevel(base[l], added[l], deleted[l]);
        levels := levels + [files];
      }
    }
  }

  // ----- merging base and added files -----

  /** Everything saved so far comes before `f`. */
  ghost predicate AllBefore(saved: seq<File>, f: File) {
    forall i :: 0 <= i < |saved| ==> BySmallest(saved[i], f)
  }

  /** MaybeAddFile: a deleted file is skipped. */
  method MaybeAddFile(saved: seq<File>, f: File, deleted: set<nat>) returns (r: seq<File>)
    requires SortedFiles(saved) && AllBefore(saved, f)
    ensures SortedFiles(r)
    ensures Files(r) == Files(saved) + Live({f}, deleted)
    ensures forall g :: AllBefore(saved, g) && BySmallest(f, g) ==> AllBefore(r, g)
  {
    if f.number in deleted {
      r := saved;
    } else {
      r := saved + [f];
      assert forall g :: g in r <==> g in saved || g == f;
    }
  }

  ghost predicate MergeProgress(base: seq<File>, added: seq<File>, b: nat, a: nat, deleted: set<nat>, r: seq<File>) {
    && b <= |base| && a <= |added|
    && SortedFiles(r)
    && Files(r) == Live(Files(base[..b]) + Files(added[..a]), deleted)
    && (forall j :: b <= j < |base| ==> AllBefore(r, base[j]))
    && (forall j :: a <= j < |added| ==> AllBefore(r, added[j]))
  }

  method SaveLevel(base: seq<File>, added: seq<File>, deleted: set<nat>) returns (r: seq<File>)
    requires SortedFiles(base) && SortedFiles(added)
    requires Numbers(Files(base)) !! Numbers(Files(added))
    ensures SortedFiles(r)
    ensures Files(r) == Live(Files(base) + Files(added), deleted)
  {
    r := [];
    var b := 0;
    for a := 0 to |added|
      invariant MergeProgress(base, added, b, a, deleted, r)
      invariant a > 0 ==> forall j :: b <= j < |base| ==> BySmallest(added[a - 1], base[j])
    {
      // base files up to upper_bound(added[a])
      while b < |base| && !BySmallest(added[a], base[b])
        invariant MergeProgress(base, added, b, a, deleted, r)
        invariant a > 0 ==> forall j :: b <= j < |base| ==> BySmallest(added[a - 1], base[j])
      {
        BaseBefore(base, added, b, a);
        r := TakeBase(base, added, b, a, deleted, r);
        b := b + 1;
      }
      forall j | b <= j < |base| ensures BySmallest(added[a], base[j]) {
        if b < j { OrderTransitive(added[a], base[b], base[j]); }
      }
      r := TakeAdded(base, added, b, a, deleted, r);
    }
    while b < |base|
      invariant MergeProgress(base, added, b, |added|, deleted, r)
    {
      r := TakeBase(base, added, b, |added|, deleted, r);
      b := b + 1;
    }
    assert base[..b] == base && added[..|added|] == added;
  }

  lemma BaseBefore(base: seq<File>, added: seq<File>, b: nat, a: nat)
    requires SortedFiles(added) && b < |base| && a < |added|
    requires Numbers(Files(base)) !! Numbers(Files(added))
    requires !BySmallest(added[a], base[b])
    ensures forall j :: a <= j < |added| ==> BySmallest(base[b], added[j])
  {
    assert base[b] in Files(base) && added[a] in Files(added);
    assert base[b].number in Numbers(Files(base)) && added[a].number in Numbers(Files(added));
    forall j | a <= j < |added| ensures BySmallest(base[b], added[j]) {
      if a < j { OrderTransitive(base[b], added[a], added[j]); }
    }
  }

  method TakeBase(base: seq<File>, added: seq<File>, b: nat, a: nat, deleted: set<nat>, r: seq<File>) returns (r': seq<File>)
    requires SortedFiles(base) && b < |base| && MergeProgress(base, added, b, a, deleted, r)
    requires forall j :: a <= j < |added| ==> BySmallest(base[b], added[j])
    ensures MergeProgress(base, added, b + 1, a, deleted, r')
  {
    r' := MaybeAddFile(r, base[b], deleted);
    assert base[..b + 1] == base[..b] + [base[b]];
    assert Files(base[..b + 1]) == Files(base[..b]) + {base[b]};
  }

  method TakeAdded(base: seq<File>, added: seq<File>, b: nat, a: nat, deleted: set<nat>, r: seq<File>) returns (r': seq<File>)
    requires SortedFiles(added) && a < |added| && MergeProgress(base, added, b, a, deleted, r)
    requires forall j :: b <= j < |base| ==> BySmallest(added[a], base[j])
    ensures MergeProgress(base, added, b, a + 1, deleted, r')
  {
    r' := MaybeAddFile(r, added[a], deleted);
    assert added[..a + 1] == added[..a] + [added[a]];
    assert Files(added[..a + 1]) == Files(added[..a]) + {added[a]};
  }

  // ----- a whole manifest -----

  /** What one builder has added, and still counts as deleted, after a run of edits. */
  ghost function FoldAdded(edits: seq<Edit>, l: nat): set<File> {
    if edits == [] then {} else FoldAdded(edits[..|edits| - 1], l) + edits[|edits| - 1].Adds(l)
  }

  ghost function FoldDeleted(edits: seq<Edit>, l: nat): set<nat> {
    if edits == [] then {}
    else
      var last := edits[|edits| - 1];
      (FoldDeleted(edits[..|edits| - 1], l) + last.Deletes(l)) - Numbers(last.Adds(l))
  }

  /** The files of level `l` when the edits are installed one at a time. */
  ghost function OneAtATime(files: set<File>, edits: seq<Edit>, l: nat): set<File> {
    if edits == [] then files else AfterEdit(OneAtATime(files, edits[..|edits| - 1], l), edits[|edits| - 1], l)
  }

  /** No file number enters level `l` twice. */
  ghost predicate NeverTwice(files: set<File>, edits: seq<Edit>, l: nat) {
    forall i :: 0 <= i < |edits| ==> FreshAdds(files + FoldAdded(edits[..i], l), edits[i], l)
  }

  /** Replaying the edits in one builder is the same as installing them one at a time. */
  lemma {:induction false} ReplayIsOneAtATime(files: set<File>, edits: seq<Edit>, l: nat)
    requires NeverTwice(files, edits, l)
    ensures Live(files + FoldAdded(edits, l), FoldDeleted(edits, l)) == OneAtATime(files, edits, l)
  {
    if edits != [] {
      var front, last := edits[..|edits| - 1], edits[|edits| - 1];
      forall i | 0 <= i < |front| ensures FreshAdds(files + FoldAdded(front[..i], l), front[i], l) {
        assert front[..i] == edits[..i] && front[i] == edits[i];
      }
      ReplayIsOneAtATime(files, front, l);
      assert edits[..|edits| - 1] == front;
      ReplayStep(files + FoldAdded(front, l), FoldDeleted(front, l), last, l);
      assert files + FoldAdded(edits, l) == files + FoldAdded(front, l) + last.Adds(l);
    }
  }

  lemma ReplayStep(files: set<File>, deleted: set<nat>, e: Edit, l: nat)
    requires FreshAdds(files, e, l)
    ensures Live(files + e.Adds(l), (deleted + e.Deletes(l)) - Numbers(e.Adds(l))) == AfterEdit(Live(files, deleted), e, l)
  {
    forall f | f in files ensures f.number !in Numbers(e.Adds(l)) {
      assert f.number in Numbers(files);
    }
    assert forall f :: f in e.Adds(l) ==> f.number in Numbers(e.Adds(l));
  }

  /** The snapshot record a new manifest starts with: every file of the version, no deletion. */
  ghost predicate IsSnapshot(e: Edit, levels: Levels)
    requires |levels| == NUM_LEVELS
  {
    e.deletedFiles == [] && forall l :: 0 <= l < NUM_LEVELS ==> e.Adds(l) == Files(levels[l])
  }

  lemma {:induction false} SnapshotStarts(snapshot: Edit, levels: Levels, edits: seq<Edit>, l: nat)
    requires |levels| == NUM_LEVELS && IsSnapshot(snapshot, levels) && l < NUM_LEVELS
    ensures OneAtATime({}, [snapshot] + edits, l) == OneAtATime(Files(levels[l]), edits, l)
  {
    if edits == [] {
      assert [snapshot] + edits == [snapshot];
      assert OneAtATime({}, [snapshot], l) == AfterEdit(OneAtATime({}, [], l), snapshot, l);
      assert AfterEdit({}, snapshot, l) == snapshot.Adds(l);
    } else {
      var front, last := edits[..|edits| - 1], edits[|edits| - 1];
      SnapshotStarts(snapshot, levels, front, l);
      assert ([snapshot] + edits)[..|edits|] == [snapshot] + front;
    }
  }

  /** A version that holds, in order, what installing the edits one at a time leaves. */
  ghost predicate Holds(levels': Levels, levels: Levels, edits: seq<Edit>) {
    && |levels'| == |levels| == NUM_LEVELS
    && forall l :: 0 <= l < NUM_LEVELS ==>
         SortedFiles(levels'[l]) && Files(levels'[l]) == OneAtATime(Files(levels[l]), edits, l)
  }

  lemma HoldsIsUnique(a: Levels, b: Levels, levels: Levels, edits: seq<Edit>)
    requires Holds(a, levels, edits) && Holds(b, levels, edits)
    ensures a == b
  {
    forall l | 0 <= l < NUM_LEVELS ensures a[l] == b[l] {
      SortedUnique(a[l], b[l]);
    }
  }

  const EMPTY: Levels := [[], [], [], [], [], [], []]

  lemma EmptyLevels()
    ensures forall l :: 0 <= l < NUM_LEVELS ==> Files(EMPTY[l]) == {}
  {
  }

  lemma NextIsFresh(edits: seq<Edit>, i: nat)
    requires i < |edits| && forall l :: 0 <= l < NUM_LEVELS ==> NeverTwice({}, edits, l)
    ensures forall l :: 0 <= l < NUM_LEVELS ==> FreshAdds(Files(EMPTY[l]) + FoldAdded(edits[..i], l), edits[i], l)
  {
    forall l | 0 <= l < NUM_LEVELS ensures FreshAdds(Files(EMPTY[l]) + FoldAdded(edits[..i], l), edits[i], l) {
      assert NeverTwice({}, edits, l);
      assert Files(EMPTY[l]) == {};
    }
  }

  /** VersionSet::Recover: all edits of the manifest in one builder over the empty version. */
  method Recover(edits: seq<Edit>) returns (levels: Levels)
    requires forall i :: 0 <= i < |edits| ==> edits[i].Valid()
    requires forall l :: 0 <= l < NUM_LEVELS ==> NeverTwice({}, edits, l)
    ensures Holds(levels, EMPTY, edits)
  {
    var builder := new Builder(EMPTY);
    for i := 0 to |edits|
      invariant fresh(builder) && builder.base == EMPTY && builder.Folded(edits[..i])
    {
      assert edits[..i + 1] == edits[..i] + [edits[i]];
      NextIsFresh(edits, i);
      builder.ApplyNext(edits[..i], edits[i]);
    }
    assert edits[..|edits|] == edits;
    EmptyLevels();
    levels := builder.SaveTo();
    forall l | 0 <= l < NUM_LEVELS ensures Files(levels[l]) == OneAtATime(Files(EMPTY[l]), edits, l) {
      ReplayIsOneAtATime({}, edits, l);
    }
  }

  /** LogAndApply: one edit in a builder over the current version. */
  method InstallEdit(levels: Levels, e: Edit) returns (levels': Levels)
    requires |levels| == NUM_LEVELS && e.Valid()
    requires forall l :: 0 <= l < NUM_LEVELS ==>
               SortedFiles(levels[l]) && Distinct(Files(levels[l])) && FreshAdds(Files(levels[l]), e, l)
    ensures |levels'| == NUM_LEVELS
    ensures forall l :: 0 <= l < NUM_LEVELS ==>
              SortedFiles(levels'[l]) && Files(levels'[l]) == AfterEdit(Files(levels[l]), e, l)
  {
    var builder := new Builder(levels);
    forall l | 0 <= l < NUM_LEVELS ensures FreshAdds(Files(builder.base[l]) + Files(builder.added[l]), e, l) {
      assert Files(builder.base[l]) + Files(builder.added[l]) == Files(levels[l]);
    }
    builder.Apply(e);
    levels' := builder.SaveTo();
  }

  /** The version recovered from a manifest is the version the edits were installed into. */
  lemma RecoveredIsInstalled(recovered: Levels, installed: Levels, start: Levels, snapshot: Edit, edits: seq<Edit>)
    requires |start| == NUM_LEVELS && IsSnapshot(snapshot, start)
    requires Holds(recovered, EMPTY, [snapshot] + edits)
    requires Holds(installed, start, edits)
    ensures recovered == installed
  {
    forall l | 0 <= l < NUM_LEVELS ensures Files(recovered[l]) == OneAtATime(Files(start[l]), edits, l) {
      SnapshotStarts(snapshot, start, edits, l);
      assert Files(EMPTY[l]) == {};
    }
    HoldsIsUnique(recovered, installed, start, edits);
  }

  /** Whatever was deleted on the way, numbers stay distinct. */
  lemma {:induction false} WithinFold(files: set<File>, edits: seq<Edit>, i: nat, l: nat)
    requires NeverTwice(files, edits, l) && Distinct(files) && i <= |edits|
    ensures OneAtATime(files, edits[..i], l) <= files + FoldAdded(edits[..i], l)
    ensures Distinct(files + FoldAdded(edits[..i], l))
  {
    if i > 0 {
      WithinFold(files, edits, i - 1, l);
      assert edits[..i][..i - 1] == edits[..i - 1];
      DistinctGrows(files + FoldAdded(edits[..i - 1], l), edits[i - 1], l);
      assert files + FoldAdded(edits[..i], l) == files + FoldAdded(edits[..i - 1], l) + edits[i - 1].Adds(l);
    }
  }

  lemma DistinctGrows(files: set<File>, e: Edit, l: nat)
    requires Distinct(files) && FreshAdds(files, e, l)
    ensures Distinct(files + e.Adds(l))
  {
    forall f, g | f in files && g in e.Adds(l) ensures f.number != g.number {
      assert f.number in Numbers(files) && g.number in Numbers(e.Adds(l));
    }
  }

  /** The next edit finds a version that it can be installed into. */
  lemma Installable(levels: Levels, start: Levels, edits: seq<Edit>, i: nat, l: nat)
    requires i < |edits| && Holds(levels, start, edits[..i]) && l < NUM_LEVELS
    requires Distinct(Files(start[l])) && NeverTwice(Files(start[l]), edits, l)
    ensures Distinct(Files(levels[l])) && FreshAdds(Files(levels[l]), edits[i], l)
  {
    WithinFold(Files(start[l]), edits, i, l);
    var all := Files(start[l]) + FoldAdded(edits[..i], l);
    assert FreshAdds(all, edits[i], l);
    assert Numbers(Files(levels[l])) <= Numbers(all);
  }

  /** LogAndApply, edit after edit. */
  method InstallAll(start: Levels, edits: seq<Edit>) returns (levels: Levels)
    requires |start| == NUM_LEVELS && forall i :: 0 <= i < |edits| ==> edits[i].Valid()
    requires forall l :: 0 <= l < NUM_LEVELS ==>
               SortedFiles(start[l]) && Distinct(Files(start[l])) && NeverTwice(Files(start[l]), edits, l)
    ensures Holds(levels, start, edits)
  {
    levels := start;
    for i := 0 to |edits|
      invariant Holds(levels, start, edits[..i])
    {
      forall l | 0 <= l < NUM_LEVELS ensures Distinct(Files(levels[l])) && FreshAdds(Files(levels[l]), edits[i], l) {
        Installable(levels, start, edits, i, l);
      }
      var next := InstallEdit(levels, edits[i]);
      HoldsStep(levels, start, edits[..i], edits[i], next);
      assert edits[..i] + [edits[i]] == edits[..i + 1];
      levels := next;
    }
    assert edits[..|edits|] == edits;
  }

  /** After the snapshot, no number enters a level of the version twice either. */
  lemma FreshAfterSnapshot(snapshot: Edit, start: Levels, edits: seq<Edit>, l: nat)
    requires |start| == NUM_LEVELS && IsSnapshot(snapshot, start) && l < NUM_LEVELS && NeverTwice({}, [snapshot] + edits, l)
    ensures Distinct(Files(start[l])) && NeverTwice(Files(start[l]), edits, l)
  {
    var all := [snapshot] + edits;
    assert all[0] == snapshot && FreshAdds({} + FoldAdded(all[..0], l), all[0], l);
    forall i | 0 <= i < |edits| ensures FreshAdds(Files(start[l]) + FoldAdded(edits[..i], l), edits[i], l) {
      assert all[i + 1] == edits[i] && all[..i + 1] == [snapshot] + edits[..i];
      FoldAfterFirst(snapshot, edits[..i], l);
      assert {} + FoldAdded(all[..i + 1], l) == Files(start[l]) + FoldAdded(edits[..i], l);
    }
  }

  lemma {:induction false} FoldAfterFirst(first: Edit, edits: seq<Edit>, l: nat)
    ensures FoldAdded([first] + edits, l) == first.Adds(l) + FoldAdded(edits, l)
  {
    if edits == [] {
      assert [first] + edits == [first];
      assert FoldAdded([first], l) == FoldAdded([], l) + first.Adds(l);
    } else {
      var n := |edits| - 1;
      FoldAfterFirst(first, edits[..n], l);
      assert ([first] + edits)[..|edits|] == [first] + edits[..n];
    }
  }

  /** Installing one more edit keeps step with the fold. */
  lemma HoldsStep(levels: Levels, start: Levels, edits: seq<Edit>, e: Edit, levels': Levels)
    requires Holds(levels, start, edits)
    requires |levels'| == NUM_LEVELS
    requires forall l :: 0 <= l < NUM_LEVELS ==>
               SortedFiles(levels'[l]) && Files(levels'[l]) == AfterEdit(Files(levels[l]), e, l)
    ensures Holds(levels', start, edits + [e])
  {
    assert (edits + [e])[..|edits|] == edits;
  }
}
