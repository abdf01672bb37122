/**
 The compaction loop and what it may drop (db/db_impl.cc: DoCompactionWork;
 db/version_set.cc: IsBaseLevelForKey).
 */
module CompactionWork {
  import opened Format
  import opened Version
  import opened CompactionInputs
  import opened DropRules

  // ----- IsBaseLevelForKey -----

  /** No file deeper than the output level has `k` in its user key range. */
  ghost predicate BaseLevel(levels: Levels, level: nat, k: UserKey) {
    forall l, i :: level + 2 <= l < |levels| && 0 <= i < |levels[l]| ==>
      !(levels[l][i].smallest.user <= k <= levels[l][i].largest.user)
  }

  /** The cursors level_ptrs_ of one running compaction. */
  class BaseLevelScan {
    const levels: Levels
    const level: nat
    const ptrs: array<nat>

    constructor (levels: Levels, level: nat)
      requires |levels| == NUM_LEVELS
      ensures this.levels == levels && this.level == level
      ensures fresh(ptrs) && ptrs.Length == NUM_LEVELS
      ensures forall k :: Passed(k)
    {
      this.levels := levels;
      this.level := level;
      this.ptrs := new nat[NUM_LEVELS](_ => 0);
    }

    /** The cursors have only passed files that end before `k`. */
    ghost predicate Passed(k: UserKey)
      reads ptrs
    {
      && |levels| == NUM_LEVELS == ptrs.Length
      && (forall l :: 0 <= l < NUM_LEVELS ==> ptrs[l] <= |levels[l]|)
      && forall l, i :: 0 <= l < NUM_LEVELS && 0 <= i < ptrs[l] ==> levels[l][i].largest.user < k
    }

    /** Correct for any ascending run of keys, although the cursors never move back. */
    method IsBaseLevelForKey(k: UserKey) returns (base: bool)
      requires ValidLevels(levels)
      requires Passed(k)
      modifies ptrs
      ensures base <==> BaseLevel(levels, level, k)
      ensures forall k' :: k <= k' ==> Passed(k')
    {
      var l := level + 2;
      while l < NUM_LEVELS
        invariant level + 2 <= l
        invariant Passed(k)
        invariant forall m, i :: level + 2 <= m < l && m < NUM_LEVELS && 0 <= i < |levels[m]| ==>
                    !(levels[m][i].smallest.user <= k <= levels[m][i].largest.user)
      {
        var files := levels[l];
        ValidFilesOrdered(files);
        while ptrs[l] < |files| && k > files[ptrs[l]].largest.user
          invariant Passed(k)
          decreases |files| - ptrs[l]
        {
          ptrs[l] := ptrs[l] + 1;
        }
        if ptrs[l] < |files| && k >= files[ptrs[l]].smallest.user {
          return false;
        }
        RestIsLater(files, ptrs[l], k);
        l := l + 1;
      }
      return true;
    }
  }

  lemma RestIsLater(files: seq<File>, p: nat, k: UserKey)
    requires Ordered(files) && Disjoint(files) && p <= |files|
    requires forall i :: 0 <= i < p ==> files[i].largest.user < k
    requires p < |files| ==> k < files[p].smallest.user
    ensures forall i :: 0 <= i < |files| ==> !(files[i].smallest.user <= k <= files[i].largest.user)
  {
    forall i | p < i < |files| ensures k < files[i].smallest.user {
      assert Less(files[p].largest, files[i].smallest);
    }
  }

  // ----- the loop -----

  /** BaseLevel as a function of the key. */
  ghost function Base(levels: Levels, level: nat): UserKey -> bool {
    (k: UserKey) => BaseLevel(levels, level, k)
  }

  ghost function Concat(files: seq<File>): seq<Entry> {
    if files == [] then [] else Concat(files[..|files| - 1]) + files[|files| - 1].entries
  }

  /** The finished outputs and the open builder hold exactly what is kept of the first `i` entries. */
  ghost predicate Progress(base: UserKey -> bool, merged: seq<Entry>, i: nat, snap: nat,
                           outputs: seq<File>, builder: seq<Entry>, firstNumber: nat) {
    && i <= |merged|
    && Concat(outputs) + builder == Kept(base, merged[..i], snap)
    && ValidFiles(outputs)
    && forall j :: 0 <= j < |outputs| ==> outputs[j].number == firstNumber + j
  }

  /** The loop variables current_user_key and last_sequence_for_key after `i` entries. */
  datatype KeyState = KeyState(hasCurrent: bool, currentUser: UserKey, lastSequence: nat)

  ghost predicate Tracks(ks: KeyState, merged: seq<Entry>, i: nat) {
    && i <= |merged|
    && ks.hasCurrent == (i > 0)
    && (i > 0 ==> ks.currentUser == merged[i - 1].key.user && ks.lastSequence == merged[i - 1].key.sequence)
  }

  /**
   DoCompactionWork without errors: one pass over the merged inputs, dropping
   entries, cutting the output into files at points the size limits choose.
   */
  method DoCompactionWork(levels: Levels, level: nat, merged: seq<Entry>, snap: nat, firstNumber: nat)
    returns (outputs: seq<File>)
    requires ValidLevels(levels)
    requires Sorted(merged)
    requires snap < MAX_SEQUENCE
    ensures Concat(outputs) == Kept(Base(levels, level), merged, snap)
    ensures ValidFiles(outputs)
    ensures forall i :: 0 <= i < |outputs| ==> outputs[i].number == firstNumber + i
  {
    outputs := [];
    ghost var base := Base(levels, level);
    var scan := new BaseLevelScan(levels, level);
    var builder: seq<Entry> := [];
    var ks := KeyState(false, 0.0, MAX_SEQUENCE);
    for i := 0 to |merged|
      invariant Progress(base, merged, i, snap, outputs, builder, firstNumber)
      invariant Tracks(ks, merged, i)
      invariant scan.levels == levels && scan.level == level && fresh(scan.ptrs)
      invariant i < |merged| ==> scan.Passed(merged[i].key.user)
    {
      var shouldStopBefore := *;
      if shouldStopBefore && builder != [] {
        outputs, builder := Finish(base, merged, i, snap, outputs, builder, firstNumber);
      }
      var drop;
      drop, ks := DropEntry(scan, merged, i, snap, ks);
      if !drop {
        builder := builder + [merged[i]];
      }
      ProgressStep(base, merged, i, snap, outputs, builder, firstNumber, drop);
      var full := *;
      if full && !drop {
        outputs, builder := Finish(base, merged, i + 1, snap, outputs, builder, firstNumber);
      }
    }
    if builder != [] {
      outputs, builder := Finish(base, merged, |merged|, snap, outputs, builder, firstNumber);
    }
    assert merged[..|merged|] == merged;
  }

  /** The drop decision for one entry, with the state it carries from the entry before. */
  method DropEntry(scan: BaseLevelScan, merged: seq<Entry>, i: nat, snap: nat, ks: KeyState)
    returns (drop: bool, ks': KeyState)
    requires ValidLevels(scan.levels) && Sorted(merged) && snap < MAX_SEQUENCE
    requires i < |merged| && Tracks(ks, merged, i)
    requires scan.Passed(merged[i].key.user)
    modifies scan.ptrs
    ensures drop == DropAt(Base(scan.levels, scan.level), merged, i, snap)
    ensures Tracks(ks', merged, i + 1)
    ensures i + 1 < |merged| ==> scan.Passed(merged[i + 1].key.user)
  {
    var e := merged[i];
    assert i + 1 < |merged| ==> Less(e.key, merged[i + 1].key);
    ks' := ks;
    if !ks'.hasCurrent || e.key.user != ks'.currentUser {
      ks' := KeyState(true, e.key.user, MAX_SEQUENCE);
    }
    drop := false;
    if ks'.lastSequence <= snap {
      drop := true;
    } else if e.key.kind.Deletion? && e.key.sequence <= snap {
      drop := scan.IsBaseLevelForKey(e.key.user);
    }
    ks' := ks'.(lastSequence := e.key.sequence);
  }

  lemma ProgressStep(base: UserKey -> bool, merged: seq<Entry>, i: nat, snap: nat,
                     outputs: seq<File>, builder: seq<Entry>, firstNumber: nat, drop: bool)
    requires i < |merged| && drop == DropAt(base, merged, i, snap)
    requires !drop ==> builder != [] && builder[|builder| - 1] == merged[i]
    requires Progress(base, merged, i, snap, outputs,
                      if drop then builder else builder[..|builder| - 1], firstNumber)
    ensures Progress(base, merged, i + 1, snap, outputs, builder, firstNumber)
  {
    var next := merged[..i + 1];
    assert next[..i] == merged[..i];
    assert HiddenAt(next, i, snap) == HiddenAt(merged, i, snap);
    if !drop {
      assert Concat(outputs) + builder == Concat(outputs) + builder[..|builder| - 1] + [merged[i]];
    }
  }

  /** FinishCompactionOutputFile: the open builder becomes the next output. */
  method Finish(ghost base: UserKey -> bool, merged: seq<Entry>, i: nat, snap: nat,
                outputs: seq<File>, builder: seq<Entry>, firstNumber: nat)
    returns (outputs': seq<File>, builder': seq<Entry>)
    requires Sorted(merged) && builder != []
    requires Progress(base, merged, i, snap, outputs, builder, firstNumber)
    ensures builder' == []
    ensures Progress(base, merged, i, snap, outputs', builder', firstNumber)
  {
    KeptIsSubsequence(base, merged[..i], snap);
    var bytes: nat := *;
    SuffixSorted(Concat(outputs), builder);
    var f := File(firstNumber + |outputs|, bytes, builder[0].key, builder[|builder| - 1].key, builder);
    outputs', builder' := outputs + [f], [];
    assert outputs'[..|outputs'| - 1] == outputs;
  }

  lemma SuffixSorted(a: seq<Entry>, b: seq<Entry>)
    requires Sorted(a + b)
    ensures Sorted(b)
  {
    assert forall j :: 0 <= j < |b| ==> b[j] == (a + b)[|a| + j];
  }
}
