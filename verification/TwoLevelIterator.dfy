/**
 An index iterator over blocks, some of which may be empty
 (table/two_level_iterator.cc). It behaves as one cursor on the concatenation.
 */
module TwoLevelIterator {
  import opened Format
  import opened Version
  import opened Concatenation

  type Blocks = seq<seq<Entry>>

  /** Each separator is at or after its block and before every later block. */
  ghost predicate Separates(blocks: Blocks, separators: seq<InternalKey>) {
    && |separators| == |blocks|
    && (forall b :: 0 <= b < |blocks| ==> Sorted(blocks[b]))
    && (forall b, i :: 0 <= b < |blocks| && 0 <= i < |blocks[b]| ==> !Less(separators[b], blocks[b][i].key))
    && (forall b, c, i :: 0 <= b < c < |blocks| && 0 <= i < |blocks[c]| ==> Less(separators[b], blocks[c][i].key))
    && (forall b, c :: 0 <= b < c < |blocks| ==> Less(separators[b], separators[c]))
  }

  /** Blocks that separators keep apart make one sorted sequence. */
  lemma FlatIsSorted(blocks: Blocks, separators: seq<InternalKey>)
    requires Separates(blocks, separators)
    ensures Sorted(Flat(blocks))
  {
    var flat := Flat(blocks);
    forall p, q | 0 <= p < q < |flat| ensures Less(flat[p].key, flat[q].key) {
      var b, i := PlaceOf(blocks, p);
      var c, j := PlaceOf(blocks, q);
      FlatAt(blocks, b, i);
      FlatAt(blocks, c, j);
      PlacesAreOrdered(blocks, b, i, c, j);
      if b < c { assert !Less(separators[b], blocks[b][i].key) && Less(separators[b], blocks[c][j].key); }
    }
  }

  /** The index seek has picked block `b`, and the seek inside it entry `i`. */
  ghost predicate SeekPicks(blocks: Blocks, separators: seq<InternalKey>, target: InternalKey, b: nat, i: nat) {
    && Separates(blocks, separators) && b < |blocks|
    && (forall c :: 0 <= c < b ==> Less(separators[c], target))
    && !Less(separators[b], target)
    && FirstAtOrAfter(blocks[b], target, i)
  }

  lemma PlaceAroundTarget(blocks: Blocks, separators: seq<InternalKey>, target: InternalKey, b: nat, i: nat, p: nat)
    requires SeekPicks(blocks, separators, target, b, i) && p < |Flat(blocks)|
    ensures Less(Flat(blocks)[p].key, target) <==> p < Offset(blocks, b) + i
  {
    var c, j := PlaceOf(blocks, p);
    FlatAt(blocks, c, j);
    EntryAroundTarget(blocks, separators, target, b, i, c, j);
  }

  /** The block that the index seek picks decides where the target falls. */
  lemma SeekLands(blocks: Blocks, separators: seq<InternalKey>, target: InternalKey, b: nat, i: nat)
    requires SeekPicks(blocks, separators, target, b, i)
    ensures FirstAtOrAfter(Flat(blocks), target, Offset(blocks, b) + i)
  {
    PlaceBelowEnd(blocks, b);
    forall p | 0 <= p < |Flat(blocks)|
      ensures Less(Flat(blocks)[p].key, target) <==> p < Offset(blocks, b) + i
    {
      PlaceAroundTarget(blocks, separators, target, b, i, p);
    }
  }

  lemma EntryAroundTarget(blocks: Blocks, separators: seq<InternalKey>, target: InternalKey, b: nat, i: nat, c: nat, j: nat)
    requires SeekPicks(blocks, separators, target, b, i)
    requires c < |blocks| && j < |blocks[c]|
    ensures Less(blocks[c][j].key, target) <==> Offset(blocks, c) + j < Offset(blocks, b) + i
  {
    OffsetStep(blocks, b);
    OffsetStep(blocks, c);
    if c < b {
      OffsetAscends(blocks, c + 1, b);
      assert !Less(separators[c], blocks[c][j].key);
    } else if c > b {
      OffsetAscends(blocks, b + 1, c);
      assert Less(separators[b], blocks[c][j].key);
    }
  }

  lemma SeekPastEnd(blocks: Blocks, separators: seq<InternalKey>, target: InternalKey)
    requires Separates(blocks, separators)
    requires forall c :: 0 <= c < |blocks| ==> Less(separators[c], target)
    ensures FirstAtOrAfter(Flat(blocks), target, |Flat(blocks)|)
  {
    var flat := Flat(blocks);
    forall p | 0 <= p < |flat| ensures Less(flat[p].key, target) {
      var c, j := PlaceOf(blocks, p);
      FlatAt(blocks, c, j);
    }
  }

  class TwoLevel {
    const blocks: Blocks
    const separators: seq<InternalKey>
    /** index_iter_: valid when it names a block. */
    var index: int
    /** The block data_iter_ was made for, or -1 when it is null. */
    var block: int
    /** data_iter_: valid when it points into its block. */
    var at: int

    constructor (blocks: Blocks, separators: seq<InternalKey>)
      requires Separates(blocks, separators)
      ensures Valid() && !DataValid() && this.blocks == blocks && this.separators == separators
    {
      this.blocks, this.separators := blocks, separators;
      index, block, at := |blocks|, -1, -1;
    }

    predicate DataValid()
      reads this
    {
      0 <= block < |blocks| && 0 <= at < |blocks[block]|
    }

    ghost predicate Valid()
      reads this
    {
      && Separates(blocks, separators)
      && -1 <= index <= |blocks| && -1 <= block < |blocks|
      && (DataValid() ==> block == index)
    }

    /** The place in the concatenation. */
    ghost function Place(): int
      requires DataValid()
      reads this
    {
      Offset(blocks, block) + at
    }

    method InitDataBlock()
      requires -1 <= index <= |blocks| && -1 <= block < |blocks|
      modifies this`block, this`at
      ensures block == if 0 <= index < |blocks| then index else -1
    {
      if !(0 <= index < |blocks|) {
        block := -1;
      } else if block == index {
        // the data iterator is already the right one
      } else {
        block, at := index, -1;
      }
    }

    /** The data iterator is at place `t`, or its block is used up and `t` is where the next one starts. */
    ghost predicate Forwarding(t: int)
      reads this
    {
      && Separates(blocks, separators)
      && 0 <= index <= |blocks|
      && (index == |blocks| ==> block == -1 && t == |Flat(blocks)|)
      && (index < |blocks| ==> block == index)
      && (index < |blocks| && DataValid() ==> t == Place())
      && (index < |blocks| && !DataValid() ==> t == Offset(blocks, index + 1))
    }

    method SkipEmptyDataBlocksForward(ghost t: int)
      requires Forwarding(t)
      modifies this
      ensures Valid()
      ensures if DataValid() then t == Place() else t == |Flat(blocks)|
    {
      while !DataValid()
        invariant Forwarding(t)
        decreases |blocks| - index
      {
        if index == |blocks| {
          block := -1;
          return;
        }
        index := index + 1;
        InitDataBlock();
        if block >= 0 {
          at := 0;
          OffsetStep(blocks, block);
        } else {
          OffsetEnds(blocks);
        }
      }
    }

    ghost predicate Backing(t: int)
      reads this
    {
      && Separates(blocks, separators)
      && -1 <= index < |blocks|
      && (index == -1 ==> block == -1 && t == -1)
      && (index >= 0 ==> block == index)
      && (index >= 0 && DataValid() ==> t == Place())
      && (index >= 0 && !DataValid() ==> t == Offset(blocks, index) - 1)
    }

    method SkipEmptyDataBlocksBackward(ghost t: int)
      requires Backing(t)
      modifies this
      ensures Valid()
      ensures if DataValid() then t == Place() else t == -1
    {
      while !DataValid()
        invariant Backing(t)
        decreases index
      {
        if index == -1 {
          block := -1;
          return;
        }
        index := index - 1;
        InitDataBlock();
        if block >= 0 {
          at := |blocks[block]| - 1;
          OffsetStep(blocks, block);
        } else {
          OffsetEnds(blocks);
        }
      }
    }

    /** The first entry of the concatenation at or after `target`. */
    method Seek(target: InternalKey)
      requires Valid()
      modifies this
      ensures Valid()
      ensures FirstAtOrAfter(Flat(blocks), target, if DataValid() then Place() else |Flat(blocks)|)
    {
      index := 0;
      while index < |blocks| && Less(separators[index], target)
        invariant 0 <= index <= |blocks| && -1 <= block < |blocks|
        invariant forall c :: 0 <= c < index ==> Less(separators[c], target)
      {
        index := index + 1;
      }
      InitDataBlock();
      ghost var t := |Flat(blocks)|;
      if block >= 0 {
        var i := Version.Seek(blocks[block], target);
        at := i;
        OffsetStep(blocks, block);
        SeekLands(blocks, separators, target, block, i);
        t := Offset(blocks, block) + i;
      } else {
        SeekPastEnd(blocks, separators, target);
      }
      SkipEmptyDataBlocksForward(t);
    }

    method SeekToFirst()
      requires Valid()
      modifies this
      ensures Valid()
      ensures if Flat(blocks) == [] then !DataValid() else DataValid() && Place() == 0
    {
      index := 0;
      InitDataBlock();
      OffsetEnds(blocks);
      if block >= 0 {
        at := 0;
        OffsetStep(blocks, 0);
      }
      SkipEmptyDataBlocksForward(0);
      if DataValid() { FlatAt(blocks, block, at); }
    }

    method SeekToLast()
      requires Valid()
      modifies this
      ensures Valid()
      ensures if Flat(blocks) == [] then !DataValid() else DataValid() && Place() == |Flat(blocks)| - 1
    {
      index := |blocks| - 1;
      InitDataBlock();
      OffsetEnds(blocks);
      if block >= 0 {
        at := |blocks[block]| - 1;
        OffsetStep(blocks, block);
      }
      SkipEmptyDataBlocksBackward(|Flat(blocks)| - 1);
      if DataValid() { FlatAt(blocks, block, at); }
    }

    method Next()
      requires Valid() && DataValid()
      modifies this
      ensures Valid()
      ensures if DataValid() then Place() == old(Place()) + 1 else old(Place()) + 1 == |Flat(blocks)|
    {
      ghost var t := Place() + 1;
      at := at + 1;
      OffsetStep(blocks, block);
      SkipEmptyDataBlocksForward(t);
    }

    method Prev()
      requires Valid() && DataValid()
      modifies this
      ensures Valid()
      ensures if DataValid() then Place() == old(Place()) - 1 else old(Place()) == 0
    {
      ghost var t := Place() - 1;
      at := at - 1;
      SkipEmptyDataBlocksBackward(t);
    }

    /** key() and value() show the entry at the place. */
    method Current() returns (e: Entry)
      requires Valid() && DataValid()
      ensures Place() < |Flat(blocks)| && e == Flat(blocks)[Place()]
    {
      e := blocks[block][at];
      FlatAt(blocks, block, at);
    }
  }
}
