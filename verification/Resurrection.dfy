/**
 A version in which the compaction that the code picks brings a deleted key back.
 SetupOtherInputs adds boundary files at its own level only, so a user key may be split
 between a selected and an unselected file of the next level. Module ResurrectionRun
 shows a run that reaches this version.
 */
module Resurrection {
  import opened Format
  import opened Version
  import opened CompactionInputs
  import opened CompactionWork
  import opened CompactionReads
  import opened DropRules

  const OLD_TWO := Entry(InternalKey(2.0, 1, Value), [2])
  const DELETE_TWO := Entry(InternalKey(2.0, 2, Deletion), [])
  const OLD_ONE := Entry(InternalKey(1.0, 3, Value), [0])
  const NEW_ONE := Entry(InternalKey(1.0, 4, Value), [1])

  /** The file to compact, at level 2. */
  const TOP := File(9, 1, NEW_ONE.key, NEW_ONE.key, [NEW_ONE])
  /** Selected at level 3; it ends with the deletion of user key 2. */
  const LEFT := File(6, 1, OLD_ONE.key, DELETE_TWO.key, [OLD_ONE, DELETE_TWO])
  /** Not selected at level 3; it starts with the value the deletion hides. */
  const RIGHT := File(7, 1, OLD_TWO.key, OLD_TWO.key, [OLD_TWO])

  const LEVELS: Levels := [[], [], [TOP], [LEFT, RIGHT], [], [], []]
  /** The last sequence number, when no snapshot is held. */
  const SNAP: nat := 4

  lemma FilesAreValid()
    ensures ValidLevel(2, [TOP]) && ValidLevel(3, [LEFT, RIGHT])
  {
  }

  lemma VersionIsValid()
    ensures ValidLevels(LEVELS)
  {
    forall l | 0 <= l < NUM_LEVELS ensures ValidLevel(l, LEVELS[l]) {
      FilesAreValid();
    }
    forall l, m | 0 <= l < m < NUM_LEVELS ensures AllNewer(LEVELS[l], LEVELS[m]) {
      if l == 2 && m == 3 {
        TopIsNewer();
      } else {
        assert LEVELS[l] == [] || LEVELS[m] == [];
      }
    }
  }

  lemma TopIsNewer()
    ensures AllNewer([TOP], [LEFT, RIGHT])
  {
    assert Newer(TOP, LEFT) && Newer(TOP, RIGHT);
    assert forall f, g :: f in [TOP] && g in [LEFT, RIGHT] ==> f == TOP && (g == LEFT || g == RIGHT);
  }

  /** Whatever selection is closed at level 2, it takes the one file there and the left file below. */
  lemma SelectionIsForced(c: Compaction)
    requires ClosedSelection(LEVELS, c) && c.level == 2
    ensures TOP in c.inputs0 && (forall f :: f in c.inputs0 ==> f == TOP) && c.inputs1 == [LEFT]
  {
    OnlyTop(c.inputs0, c.smallest, c.largest);
    LeftIsSelected();
  }

  lemma OnlyTop(inputs: seq<File>, smallest: InternalKey, largest: InternalKey)
    requires inputs != [] && (forall f :: f in inputs ==> f in [TOP]) && IsRange(inputs, smallest, largest)
    ensures TOP in inputs && (forall f :: f in inputs ==> f == TOP) && smallest.user == largest.user == 1.0
  {
    assert inputs[0] in inputs;
  }

  lemma LeftIsSelected()
    ensures Select([LEFT, RIGHT], At(1.0), At(1.0)) == [LEFT]
  {
    var files := [LEFT, RIGHT];
    assert files[..1] == [LEFT] && [LEFT][..0] == [];
    assert Select([LEFT], At(1.0), At(1.0)) == [LEFT];
  }

  lemma Sets(c: Compaction)
    requires ClosedSelection(LEVELS, c) && c.level == 2
    ensures Inputs(c) == {NEW_ONE, OLD_ONE, DELETE_TWO}
    ensures Stragglers(LEVELS, c) == {OLD_TWO}
    ensures Contents(LEVELS) == {NEW_ONE, OLD_ONE, DELETE_TWO, OLD_TWO}
  {
    SelectionIsForced(c);
    assert LEFT in c.inputs1;
    assert NEW_ONE in TOP.entries && OLD_ONE in LEFT.entries && DELETE_TWO in LEFT.entries && OLD_TWO in RIGHT.entries;
    assert LEFT in LEVELS[3] && RIGHT in LEVELS[3] && TOP in LEVELS[2];
    assert forall f :: f in LEVELS[3] ==> f == LEFT || f == RIGHT;
    assert forall l, f :: 0 <= l < |LEVELS| && f in LEVELS[l] ==> f == TOP || f == LEFT || f == RIGHT;
    assert Inputs(c) == {NEW_ONE, OLD_ONE, DELETE_TWO};
    assert Stragglers(LEVELS, c) == {OLD_TWO};
  }

  /** Every read at the smallest snapshot sees the deletion, and the deletion has nothing deeper below it. */
  lemma DeletionIsDropped(c: Compaction)
    requires ClosedSelection(LEVELS, c) && c.level == 2
    ensures Newest(Before({}, LEVELS), 2.0, SNAP, DELETE_TWO)
    ensures Obsolete(Base(LEVELS, 2), DELETE_TWO, SNAP)
    ensures Newest(Stragglers(LEVELS, c), 2.0, SNAP, OLD_TWO)
  {
    Sets(c);
    NewestOfAll(Before({}, LEVELS));
    NewestLeftBehind(Stragglers(LEVELS, c));
    NothingBelow();
  }

  lemma NewestOfAll(all: set<Entry>)
    requires all == {NEW_ONE, OLD_ONE, DELETE_TWO, OLD_TWO}
    ensures Newest(all, 2.0, SNAP, DELETE_TWO) && UniqueSequences(all)
  {
    assert Candidate(all, 2.0, SNAP, DELETE_TWO);
  }

  lemma NewestLeftBehind(stragglers: set<Entry>)
    requires stragglers == {OLD_TWO}
    ensures Newest(stragglers, 2.0, SNAP, OLD_TWO)
  {
    assert Candidate(stragglers, 2.0, SNAP, OLD_TWO);
  }

  lemma NothingBelow()
    ensures Obsolete(Base(LEVELS, 2), DELETE_TWO, SNAP)
  {
    assert BaseLevel(LEVELS, 2, 2.0);
  }

  lemma Distinct(c: Compaction)
    requires ClosedSelection(LEVELS, c) && c.level == 2
    ensures UniqueSequences({} + Contents(LEVELS)) && MemNewer({}, Contents(LEVELS)) && DELETE_TWO in Inputs(c)
  {
    Sets(c);
    NewestOfAll({} + Contents(LEVELS));
  }

  lemma Resurrected(c: Compaction)
    requires |LEVELS| == NUM_LEVELS && c.level == 2 && DELETE_TWO in Inputs(c)
    requires {} + Contents(LEVELS) == {} + Rest(LEVELS, c) + Inputs(c)
    requires Newest(Before({}, LEVELS), 2.0, SNAP, DELETE_TWO) && Obsolete(Base(LEVELS, 2), DELETE_TWO, SNAP)
    requires Newest(Stragglers(LEVELS, c), 2.0, SNAP, OLD_TWO)
    ensures ResurrectsKey({}, LEVELS, c, SNAP, 2.0)
  {
  }

  /** Every compaction of level 2 of this version changes a read: a deleted key comes back. */
  lemma CompactionBringsBackADeletedKey(c: Compaction)
    requires ClosedSelection(LEVELS, c) && c.level == 2
    ensures ValidLevels(LEVELS) && ResurrectsKey({}, LEVELS, c, SNAP, 2.0)
    ensures Visible(Before({}, LEVELS), 2.0, SNAP) == NotFound
    ensures Visible(Afterwards({}, LEVELS, c, SNAP), 2.0, SNAP).Found?
  {
    VersionIsValid();
    DeletionIsDropped(c);
    Distinct(c);
    LevelsPlaced({}, LEVELS, c);
    NewestDecides(Before({}, LEVELS), 2.0, SNAP, DELETE_TWO);
    Resurrected(c);
    ReadResurrected({} + Rest(LEVELS, c), Stragglers(LEVELS, c), Inputs(c), Base(LEVELS, 2), SNAP, 2.0);
  }

  /** PickCompaction picks one, whatever the compaction pointer and the limits. */
  method PickedCompaction(pointer: OptionalKey, limits: Limits) returns (c: Compaction)
    ensures ClosedSelection(LEVELS, c) && c.level == 2 && TOP in c.inputs0 && c.inputs1 == [LEFT]
    ensures ResurrectsKey({}, LEVELS, c, SNAP, 2.0)
  {
    VersionIsValid();
    c := PickBySize(LEVELS, 2, pointer, limits);
    SelectionIsForced(c);
    CompactionBringsBackADeletedKey(c);
  }
}
