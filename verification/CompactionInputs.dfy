/**
 Choosing the inputs of a compaction (db/version_set.cc: GetOverlappingInputs,
 AddBoundaryInputs, GetRange, SetupOtherInputs, PickCompaction, CompactRange).
 */
module CompactionInputs {
  import opened Format
  import opened Version

  /** A user key range whose ends may be missing (a null Slice or InternalKey). */
  datatype Bound = Unbounded | At(key: UserKey)

  ghost predicate Ordered(files: seq<File>) {
    forall i :: 0 <= i < |files| ==> !Less(files[i].largest, files[i].smallest)
  }

  predicate FromLow(low: Bound, k: UserKey) {
    low.Unbounded? || low.key <= k
  }

  predicate ToHigh(high: Bound, k: UserKey) {
    high.Unbounded? || k <= high.key
  }

  predicate Overlaps(f: File, low: Bound, high: Bound) {
    FromLow(low, f.largest.user) && ToHigh(high, f.smallest.user)
  }

  predicate Inside(f: File, low: Bound, high: Bound) {
    FromLow(low, f.smallest.user) && ToHigh(high, f.largest.user)
  }

  /** The files that overlap the range, in file order. */
  function Select(files: seq<File>, low: Bound, high: Bound): (r: seq<File>)
    ensures forall f :: f in r <==> f in files && Overlaps(f, low, high)
  {
    if files == [] then []
    else
      var last := files[|files| - 1];
      Select(files[..|files| - 1], low, high) + if Overlaps(last, low, high) then [last] else []
  }

  /** Every file that meets the range lies inside it. */
  ghost predicate ClosedRange(files: seq<File>, low: Bound, high: Bound) {
    forall f :: f in files && Overlaps(f, low, high) ==> Inside(f, low, high)
  }

  /** The range [low, high] lies inside [low', high']. */
  predicate RangeWithin(low: Bound, high: Bound, low': Bound, high': Bound) {
    && (low'.Unbounded? || (low.At? && low'.key <= low.key))
    && (high'.Unbounded? || (high.At? && high.key <= high'.key))
  }

  /** Every closed range around [begin, end] contains [low, high]. */
  ghost predicate Minimal(files: seq<File>, begin: Bound, end: Bound, low: Bound, high: Bound) {
    && RangeWithin(begin, end, low, high)
    && forall low', high' :: ClosedRange(files, low', high') && RangeWithin(begin, end, low', high')
         ==> RangeWithin(low, high, low', high')
  }

  ghost function Below(files: seq<File>, low: Bound): set<File> {
    set f | f in files && low.At? && f.smallest.user < low.key
  }

  ghost function Above(files: seq<File>, high: Bound): set<File> {
    set f | f in files && high.At? && f.largest.user > high.key
  }

  lemma WidenLow(files: seq<File>, begin: Bound, end: Bound, low: Bound, high: Bound, f: File)
    requires Minimal(files, begin, end, low, high)
    requires f in files && Overlaps(f, low, high) && low.At? && f.smallest.user < low.key
    ensures Minimal(files, begin, end, At(f.smallest.user), high)
    ensures Below(files, At(f.smallest.user)) < Below(files, low)
  {
    assert f in Below(files, low) && f !in Below(files, At(f.smallest.user));
  }

  lemma WidenHigh(files: seq<File>, begin: Bound, end: Bound, low: Bound, high: Bound, f: File)
    requires Minimal(files, begin, end, low, high)
    requires f in files && Overlaps(f, low, high) && high.At? && f.largest.user > high.key
    ensures Minimal(files, begin, end, low, At(f.largest.user))
    ensures Above(files, At(f.largest.user)) < Above(files, high)
  {
    assert f in Above(files, high) && f !in Above(files, At(f.largest.user));
  }

  /** The first `i` files have been looked at; at level 0 none of them straddles the range. */
  ghost predicate Searched(level: nat, files: seq<File>, i: nat, begin: Bound, end: Bound, low: Bound, high: Bound, inputs: seq<File>) {
    && i <= |files| && inputs == Select(files[..i], low, high)
    && (level != 0 ==> low == begin && high == end)
    && (level == 0 ==> ClosedRange(files[..i], low, high) && Minimal(files, begin, end, low, high))
  }

  lemma SearchedStep(level: nat, files: seq<File>, i: nat, begin: Bound, end: Bound, low: Bound, high: Bound, inputs: seq<File>)
    requires Searched(level, files, i, begin, end, low, high, inputs) && i < |files|
    requires level == 0 && Overlaps(files[i], low, high) ==> Inside(files[i], low, high)
    ensures Searched(level, files, i + 1, begin, end, low, high, inputs + if Overlaps(files[i], low, high) then [files[i]] else [])
  {
    SelectStep(files, i, low, high);
    assert forall f :: f in files[..i + 1] ==> f in files[..i] || f == files[i];
  }

  /**
   GetOverlappingInputs. Level 0 restarts whenever a file widens the range; the
   range it ends with is the least one that no file straddles.
   */
  method GetOverlappingInputs(level: nat, files: seq<File>, begin: Bound, end: Bound)
    returns (inputs: seq<File>, low: Bound, high: Bound)
    ensures inputs == Select(files, low, high)
    ensures level != 0 ==> low == begin && high == end
    ensures level == 0 ==> ClosedRange(files, low, high) && Minimal(files, begin, end, low, high)
  {
    low, high, inputs := begin, end, [];
    var i := 0;
    while i < |files|
      invariant 0 <= i <= |files| && Searched(level, files, i, begin, end, low, high, inputs)
      decreases Below(files, low), Above(files, high), |files| - i
    {
      i, inputs, low, high := LookAt(level, files, i, begin, end, low, high, inputs);
    }
    SearchedAll(level, files, begin, end, low, high, inputs);
  }

  /** One turn of the loop: the file is passed, taken, or widens the range, and then the search starts again. */
  method LookAt(level: nat, files: seq<File>, i: nat, begin: Bound, end: Bound, low: Bound, high: Bound, inputs: seq<File>)
    returns (i': nat, inputs': seq<File>, low': Bound, high': Bound)
    requires i < |files| && Searched(level, files, i, begin, end, low, high, inputs)
    ensures i' <= |files| && Searched(level, files, i', begin, end, low', high', inputs')
    ensures
      || Below(files, low') < Below(files, low)
      || (low' == low && Above(files, high') < Above(files, high))
      || (low' == low && high' == high && i' > i)
  {
    var f := files[i];
    low', high', inputs', i' := low, high, inputs, i + 1;
    if (low.At? && f.largest.user < low.key) || (high.At? && f.smallest.user > high.key) {
      SearchedStep(level, files, i, begin, end, low, high, inputs);
    } else if level == 0 && low.At? && f.smallest.user < low.key {
      WidenLow(files, begin, end, low, high, f);
      low', inputs', i' := At(f.smallest.user), [], 0;
    } else if level == 0 && high.At? && f.largest.user > high.key {
      WidenHigh(files, begin, end, low, high, f);
      high', inputs', i' := At(f.largest.user), [], 0;
    } else {
      SearchedStep(level, files, i, begin, end, low, high, inputs);
      inputs' := inputs + [f];
    }
  }

  lemma SearchedAll(level: nat, files: seq<File>, begin: Bound, end: Bound, low: Bound, high: Bound, inputs: seq<File>)
    requires Searched(level, files, |files|, begin, end, low, high, inputs)
    ensures inputs == Select(files, low, high) && (level != 0 ==> low == begin && high == end)
    ensures level == 0 ==> ClosedRange(files, low, high) && Minimal(files, begin, end, low, high)
  {
    assert files[..|files|] == files;
  }

  lemma SelectStep(files: seq<File>, i: nat, low: Bound, high: Bound)
    requires i < |files|
    ensures Select(files[..i + 1], low, high) == Select(files[..i], low, high) + if Overlaps(files[i], low, high) then [files[i]] else []
  {
    assert files[..i + 1][..i] == files[..i];
  }

  lemma {:induction false} SelectWider(files: seq<File>, low: Bound, high: Bound, low': Bound, high': Bound)
    requires RangeWithin(low, high, low', high')
    ensures |Select(files, low, high)| <= |Select(files, low', high')|
    ensures |Select(files, low, high)| == |Select(files, low', high')| ==>
              Select(files, low, high) == Select(files, low', high')
  {
    if files != [] {
      SelectWider(files[..|files| - 1], low, high, low', high');
    }
  }

  /** A prefix of a selection is the selection from a prefix of the files. */
  lemma {:induction false} SelectPrefix(files: seq<File>, low: Bound, high: Bound, m: nat) returns (n: nat)
    requires m <= |Select(files, low, high)|
    ensures n <= |files|
    ensures Select(files, low, high)[..m] == Select(files[..n], low, high)
  {
    var all := Select(files, low, high);
    if m == |all| {
      n := |files|;
      assert files[..n] == files && all[..m] == all;
    } else {
      var front := files[..|files| - 1];
      n := SelectPrefix(front, low, high, m);
      assert files[..n] == front[..n];
      assert all[..m] == Select(front, low, high)[..m];
    }
  }

  // ----- key ranges of a list of files -----

  /** `smallest` and `largest` are the ends of the hull of `files`. */
  ghost predicate IsRange(files: seq<File>, smallest: InternalKey, largest: InternalKey) {
    && (exists f :: f in files && f.smallest == smallest)
    && (exists f :: f in files && f.largest == largest)
    && forall f :: f in files ==> !Less(f.smallest, smallest) && !Less(largest, f.largest)
  }

  method GetRange(files: seq<File>) returns (smallest: InternalKey, largest: InternalKey)
    requires files != []
    ensures IsRange(files, smallest, largest)
  {
    smallest, largest := files[0].smallest, files[0].largest;
    assert files[..1] == [files[0]];
    for i := 1 to |files|
      invariant IsRange(files[..i], smallest, largest)
    {
      var f := files[i];
      assert files[..i + 1] == files[..i] + [f];
      RangeExtends(files[..i], smallest, largest, f);
      if Less(f.smallest, smallest) {
        smallest := f.smallest;
      }
      if Less(largest, f.largest) {
        largest := f.largest;
      }
    }
    assert files[..|files|] == files;
  }

  lemma RangeExtends(files: seq<File>, smallest: InternalKey, largest: InternalKey, f: File)
    requires IsRange(files, smallest, largest)
    ensures IsRange(files + [f], if Less(f.smallest, smallest) then f.smallest else smallest, if Less(largest, f.largest) then f.largest else largest)
  {
    var a :| a in files && a.smallest == smallest;
    var b :| b in files && b.largest == largest;
    assert a in files + [f] && b in files + [f] && f in files + [f];
  }

  function TotalFileSize(files: seq<File>): nat {
    if files == [] then 0 else TotalFileSize(files[..|files| - 1]) + files[|files| - 1].size
  }

  // ----- boundary files -----

  /** Starts after `largest` but with the same user key. */
  predicate Boundary(f: File, largest: InternalKey) {
    Less(largest, f.smallest) && f.smallest.user == largest.user
  }

  datatype OptionalFile = NoFile | SomeFile(file: File)

  method FindSmallestBoundaryFile(files: seq<File>, largest: InternalKey) returns (r: OptionalFile)
    ensures r.NoFile? ==> forall f :: f in files ==> !Boundary(f, largest)
    ensures r.SomeFile? ==> r.file in files && Boundary(r.file, largest)
    ensures r.SomeFile? ==> forall f :: f in files && Boundary(f, largest) ==> !Less(f.smallest, r.file.smallest)
  {
    r := NoFile;
    for i := 0 to |files|
      invariant r.NoFile? ==> forall f :: f in files[..i] ==> !Boundary(f, largest)
      invariant r.SomeFile? ==> r.file in files && Boundary(r.file, largest)
      invariant r.SomeFile? ==> forall f :: f in files[..i] && Boundary(f, largest) ==> !Less(f.smallest, r.file.smallest)
    {
      var f := files[i];
      assert files[..i + 1] == files[..i] + [f];
      if Boundary(f, largest) {
        if r.NoFile? || Less(f.smallest, r.file.smallest) {
          r := SomeFile(f);
        }
      }
    }
    assert files[..|files|] == files;
  }

  /** No gap: a file between two selected ones is selected. */
  ghost predicate Convex(files: seq<File>, inputs: seq<File>) {
    forall i, j, k :: 0 <= i < j < k < |files| && files[i] in inputs && files[k] in inputs ==> files[j] in inputs
  }

  ghost predicate IsLargest(files: seq<File>, largest: InternalKey) {
    && (exists f :: f in files && f.largest == largest)
    && forall f :: f in files ==> !Less(largest, f.largest)
  }

  ghost predicate NoBoundary(files: seq<File>, largest: InternalKey) {
    forall f :: f in files ==> !Boundary(f, largest)
  }

  ghost function After(files: seq<File>, largest: InternalKey): set<File> {
    set f | f in files && Less(largest, f.smallest)
  }

  /** After `start` come only files each of which continues the last user key of those before it. */
  ghost predicate ByBoundary(start: seq<File>, inputs: seq<File>) {
    && start <= inputs
    && forall i :: |start| <= i < |inputs| ==> Continues(inputs, i)
  }

  ghost predicate Continues(inputs: seq<File>, i: nat)
    requires i < |inputs|
  {
    exists largest :: IsLargest(inputs[..i], largest) && Boundary(inputs[i], largest)
  }

  lemma ContinuesSnoc(start: seq<File>, inputs: seq<File>, f: File, largest: InternalKey)
    requires ByBoundary(start, inputs) && IsLargest(inputs, largest) && Boundary(f, largest)
    ensures ByBoundary(start, inputs + [f])
  {
    var longer := inputs + [f];
    forall i | |start| <= i < |longer| ensures Continues(longer, i) {
      if i < |inputs| {
        assert Continues(inputs, i) && longer[..i] == inputs[..i];
      } else {
        assert longer[..i] == inputs;
      }
    }
  }

  /**
   AddBoundaryInputs: keeps adding the file that continues the last user key. At
   the end no file continues it; a selection without gaps stays without gaps.
   */
  method AddBoundaryInputs(files: seq<File>, start: seq<File>) returns (inputs: seq<File>)
    requires Ordered(files)
    requires forall f :: f in start ==> f in files
    ensures ByBoundary(start, inputs) && forall f :: f in inputs ==> f in files
    ensures start == [] ==> inputs == []
    ensures start != [] ==> exists largest :: IsLargest(inputs, largest) && NoBoundary(files, largest)
    ensures Disjoint(files) && Convex(files, start) ==> Convex(files, inputs)
    ensures (forall largest :: IsLargest(start, largest) ==> NoBoundary(files, largest)) ==> inputs == start
  {
    inputs := start;
    if start == [] {
      return;
    }
    var _, largest := GetRange(start);
    ghost var first := largest;
    assert IsLargest(start, first);
    var searching := true;
    while searching
      invariant ByBoundary(start, inputs) && forall f :: f in inputs ==> f in files
      invariant IsLargest(inputs, largest)
      invariant !searching ==> NoBoundary(files, largest)
      invariant Disjoint(files) && Convex(files, start) ==> Convex(files, inputs)
      invariant (inputs == start && largest == first) || !NoBoundary(files, first)
      decreases searching, After(files, largest)
    {
      var b := FindSmallestBoundaryFile(files, largest);
      if b.SomeFile? {
        var f := b.file;
        BoundaryStep(files, inputs, largest, f);
        ContinuesSnoc(start, inputs, f, largest);
        if Disjoint(files) && Convex(files, start) {
          BoundaryIsNext(files, inputs, largest, f);
        }
        inputs := inputs + [f];
        largest := f.largest;
      } else {
        searching := false;
      }
    }
  }

  lemma BoundaryStep(files: seq<File>, inputs: seq<File>, largest: InternalKey, b: File)
    requires Ordered(files)
    requires IsLargest(inputs, largest)
    requires b in files && Boundary(b, largest)
    ensures IsLargest(inputs + [b], b.largest)
    ensures After(files, b.largest) < After(files, largest)
  {
    assert b in inputs + [b];
    assert b in After(files, largest) && b !in After(files, b.largest);
  }

  lemma BoundaryIsNext(files: seq<File>, inputs: seq<File>, largest: InternalKey, b: File)
    requires Ordered(files) && Disjoint(files) && Convex(files, inputs)
    requires IsLargest(inputs, largest)
    requires forall f :: f in inputs ==> f in files
    requires b in files && Boundary(b, largest)
    requires forall f :: f in files && Boundary(f, largest) ==> !Less(f.smallest, b.smallest)
    ensures Convex(files, inputs + [b])
  {
    forall i, j, k | 0 <= i < j < k < |files| && files[i] in inputs + [b] && files[k] in inputs + [b]
      ensures files[j] in inputs + [b]
    {
      assert Less(files[i].largest, files[j].smallest);
      assert Less(files[j].largest, files[k].smallest);
    }
  }

  // ----- the whole selection -----

  /** No unselected file of the level holds an older version of a selected user key. */
  ghost predicate Sealed(files: seq<File>, inputs: seq<File>) {
    forall f, g :: f in files && f !in inputs && g in inputs ==> Newer(f, g)
  }

  /** What the picked files of a level look like before boundary files are added. */
  ghost predicate Startable(level: nat, files: seq<File>, start: seq<File>) {
    && start != []
    && (forall f :: f in start ==> f in files)
    && (level != 0 ==> Disjoint(files) && Convex(files, start))
    && (level == 0 ==> exists low, high :: ClosedRange(files, low, high) && start == Select(files, low, high))
  }

  lemma DeepSealed(files: seq<File>, inputs: seq<File>, largest: InternalKey)
    requires ValidFiles(files) && Disjoint(files) && Convex(files, inputs)
    requires forall f :: f in inputs ==> f in files
    requires IsLargest(inputs, largest) && NoBoundary(files, largest)
    ensures Sealed(files, inputs)
  {
    forall f, g | f in files && f !in inputs && g in inputs ensures Newer(f, g) {
      var i :| 0 <= i < |files| && files[i] == f;
      assert g in files;
      var j :| 0 <= j < |files| && files[j] == g;
      if i < j {
        BeforeIsNewer(f, g);
      } else {
        LaterFileStartsAfresh(files, inputs, largest, i, j);
        ApartIsNewer(f, g);
      }
    }
  }

  /** In the order of internal keys, the newer versions of a user key come first. */
  lemma BeforeIsNewer(f: File, g: File)
    requires f.Valid() && g.Valid() && Less(f.largest, g.smallest)
    ensures Newer(f, g)
  {
    forall e, e' | e in f.entries && e' in g.entries && e.key.user == e'.key.user ensures Tag(e.key) > Tag(e'.key) {
      WithinBounds(f, e);
      WithinBounds(g, e');
    }
  }

  /** Files without a common user key. */
  lemma ApartIsNewer(f: File, g: File)
    requires f.Valid() && g.Valid() && (f.largest.user < g.smallest.user || g.largest.user < f.smallest.user)
    ensures Newer(f, g)
  {
    forall e, e' | e in f.entries && e' in g.entries ensures e.key.user != e'.key.user {
      WithinBounds(f, e);
      WithinBounds(g, e');
    }
  }

  /** A file behind a sealed gapless selection shares no user key with it. */
  lemma LaterFileStartsAfresh(files: seq<File>, inputs: seq<File>, largest: InternalKey, i: nat, j: nat)
    requires ValidFiles(files) && Disjoint(files) && Convex(files, inputs)
    requires forall f :: f in inputs ==> f in files
    requires IsLargest(inputs, largest) && NoBoundary(files, largest)
    requires i < |files| && j < |files| && files[i] !in inputs && files[j] in inputs
    ensures j < i ==> files[j].largest.user < files[i].smallest.user
  {
    if j < i {
      var m :| m in inputs && m.largest == largest;
      var p :| 0 <= p < |files| && files[p] == m;
      assert p < i;
      assert Less(files[p].largest, files[i].smallest);
      assert !Boundary(files[i], largest);
    }
  }

  lemma Level0Sealed(files: seq<File>, low: Bound, high: Bound)
    requires ValidFiles(files) && ClosedRange(files, low, high)
    ensures Sealed(files, Select(files, low, high))
  {
    var inputs := Select(files, low, high);
    forall f, g | f in files && f !in inputs && g in inputs ensures Newer(f, g) {
      var i :| 0 <= i < |files| && files[i] == f;
      var j :| 0 <= j < |files| && files[j] == g;
      OutsideIsApart(f, g, low, high);
      ApartIsNewer(f, g);
    }
  }

  lemma OutsideIsApart(f: File, g: File, low: Bound, high: Bound)
    requires !Overlaps(f, low, high) && Inside(g, low, high)
    ensures f.largest.user < g.smallest.user || g.largest.user < f.smallest.user
  {
  }

  lemma Level0NoBoundary(files: seq<File>, low: Bound, high: Bound, largest: InternalKey)
    requires Ordered(files) && ClosedRange(files, low, high)
    requires IsLargest(Select(files, low, high), largest)
    ensures NoBoundary(files, largest)
  {
    var g :| g in Select(files, low, high) && g.largest == largest;
    var j :| 0 <= j < |files| && files[j] == g;
    forall f | f in files ensures !Boundary(f, largest) {
      var i :| 0 <= i < |files| && files[i] == f;
    }
  }

  lemma ValidFilesOrdered(files: seq<File>)
    requires ValidFiles(files)
    ensures Ordered(files)
  {
    forall i | 0 <= i < |files| ensures !Less(files[i].largest, files[i].smallest) {
      WithinBounds(files[i], files[i].entries[0]);
    }
  }

  /** AddBoundaryInputs on a startable set seals it. */
  method Seal(level: nat, files: seq<File>, start: seq<File>) returns (inputs: seq<File>)
    requires ValidFiles(files) && Startable(level, files, start)
    ensures ByBoundary(start, inputs) && forall f :: f in inputs ==> f in files
    ensures Sealed(files, inputs)
  {
    ValidFilesOrdered(files);
    inputs := AddBoundaryInputs(files, start);
    if level == 0 {
      ghost var low, high :| ClosedRange(files, low, high) && start == Select(files, low, high);
      Level0Sealed(files, low, high);
      forall largest | IsLargest(start, largest) ensures NoBoundary(files, largest) {
        Level0NoBoundary(files, low, high, largest);
      }
    } else {
      ghost var largest :| IsLargest(inputs, largest) && NoBoundary(files, largest);
      DeepSealed(files, inputs, largest);
    }
  }

  /** Options that bound how far a compaction grows. */
  datatype Limits = Limits(maxGrandparentOverlap: nat, expandedCompaction: nat, maxFileSize: nat)

  datatype Compaction = Compaction(
    level: nat,
    inputs0: seq<File>,
    inputs1: seq<File>,
    grandparents: seq<File>,
    smallest: InternalKey,
    largest: InternalKey)

  /** A selection that is sealed at its own level, and takes exactly the files of the next level that meet the user keys of its own. */
  ghost predicate Closed(levels: Levels, c: Compaction)
    requires |levels| == NUM_LEVELS
  {
    && c.level + 1 < NUM_LEVELS
    && c.inputs0 != []
    && (forall f :: f in c.inputs0 ==> f in levels[c.level])
    && Sealed(levels[c.level], c.inputs0)
    && IsRange(c.inputs0, c.smallest, c.largest)
    && (forall f :: f in c.inputs1 <==> f in levels[c.level + 1] && Overlaps(f, At(c.smallest.user), At(c.largest.user)))
  }

  /** What a finished selection guarantees: it is closed, and lists the files of the next level in their order. */
  ghost predicate ClosedSelection(levels: Levels, c: Compaction)
    requires |levels| == NUM_LEVELS
  {
    && Closed(levels, c)
    && c.inputs1 == Select(levels[c.level + 1], At(c.smallest.user), At(c.largest.user))
  }

  lemma RangeStartable(level: nat, files: seq<File>, low: Bound, high: Bound)
    requires Ordered(files)
    requires level != 0 ==> Disjoint(files)
    requires level == 0 ==> ClosedRange(files, low, high)
    requires Select(files, low, high) != []
    ensures Startable(level, files, Select(files, low, high))
  {
    var inputs := Select(files, low, high);
    if level != 0 {
      forall i, j, k | 0 <= i < j < k < |files| && files[i] in inputs && files[k] in inputs
        ensures files[j] in inputs
      {
        assert Less(files[i].largest, files[j].smallest);
        assert Less(files[j].largest, files[k].smallest);
      }
    }
  }

  /**
   The files at `level` that meet the range of all inputs, at level 0 those that meet
   the least range around it that no file straddles, and their boundary files.
   */
  ghost predicate IsExpansion(level: nat, files: seq<File>, allStart: InternalKey, allLimit: InternalKey, expanded: seq<File>) {
    var begin, end := At(allStart.user), At(allLimit.user);
    exists low, high ::
      && (level != 0 ==> low == begin && high == end)
      && (level == 0 ==> ClosedRange(files, low, high) && Minimal(files, begin, end, low, high))
      && ByBoundary(Select(files, low, high), expanded)
  }

  /** More files at `level`, not too many bytes, and no file more at `level + 1`. */
  ghost predicate MayGrow(levels: Levels, c: Compaction, expanded: seq<File>, limits: Limits)
    requires |levels| == NUM_LEVELS && c.level + 1 < NUM_LEVELS
  {
    && |expanded| > |c.inputs0|
    && TotalFileSize(c.inputs1) + TotalFileSize(expanded) < limits.expandedCompaction
    && forall s, l :: IsRange(expanded, s, l) ==> |Select(levels[c.level + 1], At(s.user), At(l.user))| == |c.inputs1|
  }

  /**
   The growth step of SetupOtherInputs: a larger set of files at `level` is taken
   exactly when it is within the limit and the set at `level + 1` stays the same.
   */
  method GrowInputs(levels: Levels, c: Compaction, allStart: InternalKey, allLimit: InternalKey, limits: Limits)
    returns (d: Compaction, ghost expanded: seq<File>)
    requires ValidLevels(levels) && ClosedSelection(levels, c)
    requires !Less(c.smallest, allStart) && !Less(allLimit, c.largest)
    ensures ClosedSelection(levels, d) && d.level == c.level
    ensures d.inputs1 == c.inputs1
    ensures forall f :: f in c.inputs0 ==> f in d.inputs0
    ensures IsExpansion(c.level, levels[c.level], allStart, allLimit, expanded)
    ensures if MayGrow(levels, c, expanded, limits) then d.inputs0 == expanded else d == c
  {
    d := c;
    var expanded0 := ExpandInputs(levels[c.level], c, allStart, allLimit);
    expanded := expanded0;
    if |expanded0| > |c.inputs0| && TotalFileSize(c.inputs1) + TotalFileSize(expanded0) < limits.expandedCompaction {
      var newStart, newLimit := GetRange(expanded0);
      var expanded1, _, _ := GetOverlappingInputs(c.level + 1, levels[c.level + 1], At(newStart.user), At(newLimit.user));
      OneRange(expanded0, newStart, newLimit);
      GrownIsClosed(levels, c, expanded0, newStart, newLimit);
      if |expanded1| == |c.inputs1| {
        d := c.(inputs0 := expanded0, inputs1 := expanded1, smallest := newStart, largest := newLimit);
      }
    }
  }

  method ExpandInputs(files: seq<File>, c: Compaction, allStart: InternalKey, allLimit: InternalKey) returns (expanded: seq<File>)
    requires ValidFiles(files) && (c.level != 0 ==> Disjoint(files))
    requires c.inputs0 != [] && (forall f :: f in c.inputs0 ==> f in files) && IsRange(c.inputs0, c.smallest, c.largest)
    requires !Less(c.smallest, allStart) && !Less(allLimit, c.largest)
    ensures IsExpansion(c.level, files, allStart, allLimit, expanded)
    ensures expanded != [] && Sealed(files, expanded) && (forall f :: f in expanded ==> f in files)
    ensures forall f :: f in c.inputs0 ==> f in expanded
  {
    ValidFilesOrdered(files);
    var start, low, high := GetOverlappingInputs(c.level, files, At(allStart.user), At(allLimit.user));
    WiderRangeSelects(files, c, allStart, allLimit, low, high);
    RangeStartable(c.level, files, low, high);
    expanded := Seal(c.level, files, start);
  }

  lemma OneRange(files: seq<File>, smallest: InternalKey, largest: InternalKey)
    requires IsRange(files, smallest, largest)
    ensures forall s, l :: IsRange(files, s, l) ==> s.user == smallest.user && l.user == largest.user
  {
    forall s, l | IsRange(files, s, l) ensures s.user == smallest.user && l.user == largest.user {
      RangeGrows(files, s, l, files, smallest, largest);
      RangeGrows(files, smallest, largest, files, s, l);
    }
  }

  lemma GrownIsClosed(levels: Levels, c: Compaction, expanded: seq<File>, newStart: InternalKey, newLimit: InternalKey)
    requires |levels| == NUM_LEVELS && ClosedSelection(levels, c) && IsRange(expanded, newStart, newLimit)
    requires expanded != [] && Sealed(levels[c.level], expanded) && (forall f :: f in expanded ==> f in levels[c.level])
    requires forall f :: f in c.inputs0 ==> f in expanded
    ensures var next := Select(levels[c.level + 1], At(newStart.user), At(newLimit.user));
      |next| == |c.inputs1| ==>
        next == c.inputs1 && ClosedSelection(levels, c.(inputs0 := expanded, inputs1 := next, smallest := newStart, largest := newLimit))
  {
    RangeGrows(c.inputs0, c.smallest, c.largest, expanded, newStart, newLimit);
    SelectWider(levels[c.level + 1], At(c.smallest.user), At(c.largest.user), At(newStart.user), At(newLimit.user));
  }

  lemma WiderRangeSelects(files: seq<File>, c: Compaction, allStart: InternalKey, allLimit: InternalKey, low: Bound, high: Bound)
    requires Ordered(files)
    requires c.inputs0 != [] && forall f :: f in c.inputs0 ==> f in files
    requires IsRange(c.inputs0, c.smallest, c.largest)
    requires !Less(c.smallest, allStart) && !Less(allLimit, c.largest)
    requires RangeWithin(At(allStart.user), At(allLimit.user), low, high)
    ensures forall f :: f in c.inputs0 ==> f in Select(files, low, high)
    ensures Select(files, low, high) != []
  {
    forall f | f in c.inputs0 ensures f in Select(files, low, high) {
      var i :| 0 <= i < |files| && files[i] == f;
    }
    assert c.inputs0[0] in Select(files, low, high);
  }

  lemma RangeGrows(a: seq<File>, s: InternalKey, l: InternalKey, b: seq<File>, s': InternalKey, l': InternalKey)
    requires IsRange(a, s, l) && IsRange(b, s', l')
    requires forall f :: f in a ==> f in b
    ensures s'.user <= s.user && l.user <= l'.user
  {
    var f :| f in a && f.smallest == s;
    var g :| g in a && g.largest == l;
    assert f in b && g in b;
  }

  /** The inputs at `level`, sealed, and what they overlap at `level + 1`. */
  method FirstInputs(levels: Levels, level: nat, start: seq<File>) returns (c: Compaction)
    requires ValidLevels(levels) && level + 1 < NUM_LEVELS
    requires Startable(level, levels[level], start)
    ensures ClosedSelection(levels, c) && c.level == level
    ensures forall f :: f in start ==> f in c.inputs0
  {
    var inputs0 := Seal(level, levels[level], start);
    var smallest, largest := GetRange(inputs0);
    var inputs1, _, _ := GetOverlappingInputs(level + 1, levels[level + 1], At(smallest.user), At(largest.user));
    c := Compaction(level, inputs0, inputs1, [], smallest, largest);
  }

  /** The range of all inputs contains the range of those at `level`. */
  lemma RangeOfAll(a: seq<File>, s: InternalKey, l: InternalKey, b: seq<File>, s': InternalKey, l': InternalKey)
    requires IsRange(a, s, l) && IsRange(a + b, s', l')
    ensures !Less(s, s') && !Less(l', l)
  {
    var f :| f in a && f.smallest == s;
    var g :| g in a && g.largest == l;
    assert f in a + b && g in a + b;
  }

  /** SetupOtherInputs, from the files first picked at `level`. */
  method SetupOtherInputs(levels: Levels, level: nat, start: seq<File>, limits: Limits) returns (c: Compaction)
    requires ValidLevels(levels) && level + 1 < NUM_LEVELS
    requires Startable(level, levels[level], start)
    ensures ClosedSelection(levels, c) && c.level == level
    ensures forall f :: f in start ==> f in c.inputs0
    ensures level + 2 < NUM_LEVELS ==> AreGrandparents(levels[level + 2], c.inputs0 + c.inputs1, c.grandparents)
  {
    c := TwoLevels(levels, level, start, limits);
    if level + 2 < NUM_LEVELS {
      var grandparents := Grandparents(levels[level + 2], level + 2, c.inputs0 + c.inputs1);
      c := c.(grandparents := grandparents);
    }
  }

  /** The inputs at both levels, grown if possible. */
  method TwoLevels(levels: Levels, level: nat, start: seq<File>, limits: Limits) returns (c: Compaction)
    requires ValidLevels(levels) && level + 1 < NUM_LEVELS
    requires Startable(level, levels[level], start)
    ensures ClosedSelection(levels, c) && c.level == level
    ensures forall f :: f in start ==> f in c.inputs0
  {
    c := FirstInputs(levels, level, start);
    if c.inputs1 != [] {
      var allStart, allLimit := GetRange(c.inputs0 + c.inputs1);
      RangeOfAll(c.inputs0, c.smallest, c.largest, c.inputs1, allStart, allLimit);
      ghost var expanded;
      c, expanded := GrowInputs(levels, c, allStart, allLimit, limits);
    }
  }

  /** The files that the range of all inputs overlaps. */
  ghost predicate AreGrandparents(files: seq<File>, inputs: seq<File>, grandparents: seq<File>) {
    exists s, l :: IsRange(inputs, s, l) && grandparents == Select(files, At(s.user), At(l.user))
  }

  /** The files two levels down that the range of all inputs overlaps. */
  method Grandparents(files: seq<File>, level: nat, inputs: seq<File>) returns (grandparents: seq<File>)
    requires inputs != [] && level > 0
    ensures AreGrandparents(files, inputs, grandparents)
  {
    var allStart, allLimit := GetRange(inputs);
    var selected, _, _ := GetOverlappingInputs(level, files, At(allStart.user), At(allLimit.user));
    grandparents := selected;
  }

  datatype OptionalKey = NoKey | SomeKey(key: InternalKey)

  /** The first file that ends after the pointer, or the first of all if there is none. */
  ghost predicate IsNext(files: seq<File>, pointer: OptionalKey, i: nat) {
    && i < |files|
    && (pointer.NoKey? ==> i == 0)
    && (pointer.SomeKey? ==> forall j :: 0 <= j < i ==> !Less(pointer.key, files[j].largest))
    && (pointer.SomeKey? && !Less(pointer.key, files[i].largest) ==>
          i == 0 && forall j :: 0 <= j < |files| ==> !Less(pointer.key, files[j].largest))
  }

  /** PickCompaction for a level that is over its size: the file after the compaction pointer, else the first. */
  method PickBySize(levels: Levels, level: nat, pointer: OptionalKey, limits: Limits) returns (c: Compaction)
    requires ValidLevels(levels) && level + 1 < NUM_LEVELS
    requires levels[level] != []
    ensures ClosedSelection(levels, c) && c.level == level
    ensures exists i: nat :: IsNext(levels[level], pointer, i) && levels[level][i] in c.inputs0
  {
    var files := levels[level];
    var i := 0;
    while i < |files| && !(pointer.NoKey? || Less(pointer.key, files[i].largest))
      invariant 0 <= i <= |files| && (pointer.NoKey? ==> i == 0)
      invariant forall j :: 0 <= j < i ==> pointer.SomeKey? && !Less(pointer.key, files[j].largest)
    {
      i := i + 1;
    }
    if i == |files| {
      i := 0;
    }
    assert IsNext(files, pointer, i);
    c := PickFile(levels, level, files[i], limits);
  }

  lemma OneFileConvex(files: seq<File>, f: File)
    requires Ordered(files) && Disjoint(files)
    ensures Convex(files, [f])
  {
    forall i, k | 0 <= i < k < |files| ensures files[i] != files[k] {
      assert Less(files[i].largest, files[k].smallest);
    }
  }

  /** PickCompaction once a file is chosen, by size or by seeks. */
  method PickFile(levels: Levels, level: nat, f: File, limits: Limits) returns (c: Compaction)
    requires ValidLevels(levels) && level + 1 < NUM_LEVELS
    requires f in levels[level]
    ensures ClosedSelection(levels, c) && c.level == level
    ensures f in c.inputs0
  {
    var files := levels[level];
    ValidFilesOrdered(files);
    var start := [f];
    if level == 0 {
      var smallest, largest := GetRange(start);
      var low, high;
      start, low, high := GetOverlappingInputs(0, files, At(smallest.user), At(largest.user));
      ghost var i :| 0 <= i < |files| && files[i] == f;
      assert f in start;
      RangeStartable(level, files, low, high);
    } else {
      OneFileConvex(files, f);
    }
    c := SetupOtherInputs(levels, level, start, limits);
  }

  datatype OptionalCompaction = NoCompaction | SomeCompaction(compaction: Compaction)

  /** CompactRange: a deep level stops at the first prefix that is large enough. */
  method CompactRange(levels: Levels, level: nat, begin: Bound, end: Bound, limits: Limits) returns (r: OptionalCompaction)
    requires ValidLevels(levels) && level + 1 < NUM_LEVELS
    ensures r.SomeCompaction? ==> ClosedSelection(levels, r.compaction) && r.compaction.level == level
    ensures r.NoCompaction? ==> forall f :: f in levels[level] ==> !Overlaps(f, begin, end)
    ensures r.SomeCompaction? && level == 0 ==> forall f :: f in levels[0] && Overlaps(f, begin, end) ==> f in r.compaction.inputs0
    ensures r.SomeCompaction? && level > 0 ==> exists i ::
              && IsEnough(Select(levels[level], begin, end), limits.maxFileSize, i)
              && forall f :: f in Select(levels[level], begin, end)[..i] ==> f in r.compaction.inputs0
  {
    var files := levels[level];
    ValidFilesOrdered(files);
    var inputs, low, high := GetOverlappingInputs(level, files, begin, end);
    if inputs == [] {
      return NoCompaction;
    }
    RangeStartable(level, files, low, high);
    if level > 0 {
      var i := EnoughFiles(inputs, limits.maxFileSize);
      ghost var n := SelectPrefix(files, low, high, i);
      PrefixConvex(files, low, high, n);
      inputs := inputs[..i];
    }
    var c := SetupOtherInputs(levels, level, inputs, limits);
    r := SomeCompaction(c);
  }

  /** The first `i` files reach the limit, and fewer do not; all if they do not reach it. */
  ghost predicate IsEnough(inputs: seq<File>, limit: nat, i: int) {
    && 0 < i <= |inputs|
    && (i < |inputs| ==> TotalFileSize(inputs[..i]) >= limit)
    && forall j :: 0 < j < i ==> TotalFileSize(inputs[..j]) < limit
  }

  method EnoughFiles(inputs: seq<File>, limit: nat) returns (i: nat)
    requires inputs != []
    ensures IsEnough(inputs, limit, i)
  {
    var total := 0;
    i := 0;
    while i < |inputs|
      invariant 0 <= i <= |inputs| && total == TotalFileSize(inputs[..i])
      invariant forall j :: 0 < j <= i ==> TotalFileSize(inputs[..j]) < limit
    {
      assert inputs[..i + 1][..i] == inputs[..i];
      total := total + inputs[i].size;
      i := i + 1;
      if total >= limit {
        break;
      }
    }
  }

  lemma PrefixConvex(files: seq<File>, low: Bound, high: Bound, n: nat)
    requires Ordered(files) && Disjoint(files) && n <= |files|
    ensures Convex(files, Select(files[..n], low, high))
  {
    var inputs := Select(files[..n], low, high);
    forall i, j, k | 0 <= i < j < k < |files| && files[i] in inputs && files[k] in inputs
      ensures files[j] in inputs
    {
      var m :| 0 <= m < n && files[m] == files[k];
      assert Less(files[i].largest, files[j].smallest);
      assert Less(files[j].largest, files[k].smallest);
      assert files[j] == files[..n][j];
    }
  }
}
