/** TableBuilder (table/table_builder.cc): the tables it makes are the ones a lookup relies on. */
module TableBuilder {
  import opened Options
  import opened Coding
  import opened Comparator
  import opened Table
  import FilterBlock

  /** While a table is being built: filters are made for all offsets but the current one. */
  ghost predicate CoveredSoFar(blocks: seq<Block>, groups: seq<seq<Bytes>>, pending: seq<Bytes>) {
    forall b: nat, i: nat :: Has(blocks, b, i) ==> InGroupSoFar(blocks[b].offset, blocks[b].entries[i].key.user, groups, pending)
  }

  ghost predicate InGroupSoFar(offset: nat, user: Bytes, groups: seq<seq<Bytes>>, pending: seq<Bytes>) {
    var g := offset / 2048;
    if g < |groups| then user in groups[g] else g == |groups| && user in pending
  }

  ghost predicate AllBefore(blocks: seq<Block>, key: InternalKey) {
    forall b: nat, i: nat :: Has(blocks, b, i) ==> Less(blocks[b].entries[i].key, key)
  }

  /** The finished blocks and the one in progress. */
  function WithCurrent(blocks: seq<Block>, offset: nat, current: seq<Entry>): seq<Block> {
    if current == [] then blocks else blocks + [Block(offset, current)]
  }

  class Builder {
    const create: FilterBlock.Create
    const filter: FilterBlock.FilterBlockBuilder
    var blocks: seq<Block>
    var dataBlock: seq<Entry>
    var index: seq<InternalKey>
    var lastKey: InternalKey
    var pendingIndexEntry: bool
    var offset: nat

    constructor (create: FilterBlock.Create)
      ensures Valid() && fresh(filter) && All() == [] && this.create == create
    {
      this.create := create;
      filter := new FilterBlock.FilterBlockBuilder(create);
      blocks, dataBlock, index, lastKey, pendingIndexEntry, offset := [], [], [], InternalKey([], 0), false, 0;
    }

    ghost function All(): seq<Block>
      reads this
    {
      WithCurrent(blocks, offset, dataBlock)
    }

    ghost predicate Valid()
      reads this, filter
    {
      && filter.Valid() && filter.create == create
      && Ascending(All()) && Indexed(All(), index) && NonEmpty(blocks)
      && |index| == |blocks| - (if pendingIndexEntry then 1 else 0)
      && (pendingIndexEntry ==> dataBlock == [] && blocks != [] && lastKey == LastKey(blocks[|blocks| - 1]))
      && (!pendingIndexEntry && blocks != [] ==> dataBlock != [])
      && (dataBlock != [] ==> lastKey == dataBlock[|dataBlock| - 1].key)
      && |filter.groups| == offset / 2048
      && CoveredSoFar(All(), filter.groups, filter.pending)
    }

    /** The index entry of the last block is made when the first key of the next one is known. */
    method Add(key: InternalKey, value: Bytes)
      requires Valid() && AllBefore(All(), key)
      modifies this, filter`keys, filter`start, filter`pending
      ensures Valid() && blocks == old(blocks) && dataBlock == old(dataBlock) + [Entry(key, value)] && offset == old(offset)
    {
      MakeIndexEntry(key);
      filter.AddKey(key.user);
      lastKey := key;
      dataBlock := dataBlock + [Entry(key, value)];
      AddedKeeps(blocks, offset, old(dataBlock), Entry(key, value), old(index), index, filter.groups, old(filter.pending));
    }

    method MakeIndexEntry(key: InternalKey)
      requires NonEmpty(blocks) && |index| == |blocks| - (if pendingIndexEntry then 1 else 0)
      requires pendingIndexEntry ==> dataBlock == [] && blocks != [] && lastKey == LastKey(blocks[|blocks| - 1])
      requires !pendingIndexEntry && blocks != [] ==> dataBlock != []
      modifies this`index, this`pendingIndexEntry
      ensures !pendingIndexEntry && NextIndex(blocks, dataBlock, key, old(index), index)
    {
      if pendingIndexEntry {
        var sep := FindInternalSeparator(lastKey, key);
        index := index + [sep];
        pendingIndexEntry := false;
      }
    }

    /** The finished table can be searched through its index and its filter. */
    method Finish(size: nat) returns (contents: Option<Bytes>)
      requires Valid() && size > 0
      modifies this, filter
      ensures blocks == old(All()) && Ascending(blocks) && Indexed(blocks, index) && |index| == |blocks|
      ensures contents.Some? ==> FilterBlock.IsFilterBlock(contents.value, create, filter.groups)
      ensures contents.Some? <==> |FilterBlock.Filters(create, filter.groups)| < 0x1_0000_0000
      ensures Covered(blocks, filter.groups)
    {
      Flush(size);
      ghost var groups, pending := filter.groups, filter.pending;
      contents := filter.Finish();
      FinishedCovers(blocks, groups, pending, filter.groups);
      FinishIndex();
    }

    /** The last block's index entry. */
    method FinishIndex()
      requires Indexed(blocks, index) && |index| == |blocks| - (if pendingIndexEntry then 1 else 0)
      requires pendingIndexEntry ==> blocks != [] && lastKey == LastKey(blocks[|blocks| - 1])
      modifies this`index, this`pendingIndexEntry
      ensures Indexed(blocks, index) && |index| == |blocks|
    {
      if pendingIndexEntry {
        var last := FindInternalSuccessor(lastKey);
        FinishedIndex(blocks, index, last);
        index := index + [last];
        pendingIndexEntry := false;
      }
    }

    /** The block in progress goes to the file; its index entry is pending. */
    method WriteBlock(size: nat)
      requires dataBlock != []
      modifies this
      ensures blocks == old(WithCurrent(blocks, offset, dataBlock)) && dataBlock == [] && offset == old(offset) + size
      ensures pendingIndexEntry && index == old(index) && lastKey == old(lastKey)
    {
      blocks := blocks + [Block(offset, dataBlock)];
      dataBlock := [];
      offset := offset + size;
      pendingIndexEntry := true;
    }

    /** The block in progress is written; `size` is its length in the file with the trailer. */
    method Flush(size: nat)
      requires Valid() && size > 0
      modifies this, filter
      ensures Valid() && All() == old(All()) && dataBlock == []
      ensures old(filter.groups) <= filter.groups
    {
      if dataBlock == [] {
        return;
      }
      ghost var all := All();
      WriteBlock(size);
      assert All() == all && blocks == all;
      DivisionGrows(old(offset), offset);
      filter.StartBlock(offset);
      StartedKeeps(blocks, old(filter.groups), old(filter.pending), filter.groups, filter.pending);
    }
  }

  lemma FinishedIndex(blocks: seq<Block>, index: seq<InternalKey>, last: InternalKey)
    requires Indexed(blocks, index) && |index| == |blocks| - 1 && !Less(last, LastKey(blocks[|index|]))
    ensures Indexed(blocks, index + [last])
  {
    forall b | 0 <= b < |index| ensures SeparatesAt(blocks, index + [last], b) {
      assert SeparatesAt(blocks, index, b);
    }
  }

  lemma FinishedCovers(blocks: seq<Block>, groups: seq<seq<Bytes>>, pending: seq<Bytes>, groups': seq<seq<Bytes>>)
    requires CoveredSoFar(blocks, groups, pending) && groups' == if pending == [] then groups else groups + [pending]
    ensures Covered(blocks, groups')
  {
    forall b: nat, i: nat | Has(blocks, b, i) ensures InGroup(blocks[b].offset, blocks[b].entries[i].key.user, groups') {
      assert InGroupSoFar(blocks[b].offset, blocks[b].entries[i].key.user, groups, pending);
    }
  }

  lemma DivisionGrows(a: nat, b: nat)
    requires a <= b
    ensures a / 2048 <= b / 2048
  {
  }

  lemma StartedKeeps(blocks: seq<Block>, groups: seq<seq<Bytes>>, pending: seq<Bytes>, groups': seq<seq<Bytes>>, pending': seq<Bytes>)
    requires CoveredSoFar(blocks, groups, pending)
    requires (groups' == groups && pending' == pending) || groups + [pending] <= groups'
    ensures CoveredSoFar(blocks, groups', pending')
  {
    forall b: nat, i: nat | Has(blocks, b, i) ensures InGroupSoFar(blocks[b].offset, blocks[b].entries[i].key.user, groups', pending') {
      assert InGroupSoFar(blocks[b].offset, blocks[b].entries[i].key.user, groups, pending);
    }
  }

  /** The index before and after the next key is known: a finished block gets its index key. */
  ghost predicate NextIndex(blocks: seq<Block>, current: seq<Entry>, key: InternalKey, index: seq<InternalKey>, index': seq<InternalKey>) {
    && NonEmpty(blocks) && |index'| == |blocks| && index <= index'
    && (|index| == |blocks| ==> blocks == [] || current != [])
    && (|index| < |blocks| ==> current == [] && |index| == |blocks| - 1 && Separator(LastKey(blocks[|index|]), key, index'[|index|]))
  }

  /** One more entry, with the index entry that it makes possible. */
  lemma AddedKeeps(blocks: seq<Block>, offset: nat, current: seq<Entry>, e: Entry, index: seq<InternalKey>, index': seq<InternalKey>, groups: seq<seq<Bytes>>, pending: seq<Bytes>)
    requires var all := WithCurrent(blocks, offset, current);
      Ascending(all) && NonEmpty(blocks) && Indexed(all, index) && AllBefore(all, e.key) && CoveredSoFar(all, groups, pending)
    requires |groups| == offset / 2048
    requires NextIndex(blocks, current, e.key, index, index')
    ensures var all := WithCurrent(blocks, offset, current + [e]);
      Ascending(all) && Indexed(all, index') && CoveredSoFar(all, groups, pending + [e.key.user])
  {
    AddedAscends(blocks, offset, current, e);
    AddedIndexed(blocks, offset, current, e, index, index');
    AddedCovered(blocks, offset, current, e, groups, pending);
  }

  lemma AddedAscends(blocks: seq<Block>, offset: nat, current: seq<Entry>, e: Entry)
    requires Ascending(WithCurrent(blocks, offset, current)) && AllBefore(WithCurrent(blocks, offset, current), e.key)
    ensures Ascending(WithCurrent(blocks, offset, current + [e]))
  {
    var old_, all := WithCurrent(blocks, offset, current), WithCurrent(blocks, offset, current + [e]);
    forall b: nat, i: nat, c: nat, j: nat | Has(all, b, i) && Has(all, c, j) && Earlier(b, i, c, j)
      ensures Less(all[b].entries[i].key, all[c].entries[j].key)
    {
      assert Has(old_, b, i) && old_[b].entries[i] == all[b].entries[i];
      assert (c == |blocks| && j == |current|) || (Has(old_, c, j) && old_[c].entries[j] == all[c].entries[j]);
    }
  }

  lemma AddedIndexed(blocks: seq<Block>, offset: nat, current: seq<Entry>, e: Entry, index: seq<InternalKey>, index': seq<InternalKey>)
    requires NonEmpty(blocks) && Indexed(WithCurrent(blocks, offset, current), index)
    requires NextIndex(blocks, current, e.key, index, index')
    ensures Indexed(WithCurrent(blocks, offset, current + [e]), index')
  {
    var old_, all := WithCurrent(blocks, offset, current), WithCurrent(blocks, offset, current + [e]);
    forall b | 0 <= b < |index'| ensures SeparatesAt(all, index', b) {
      if b < |index| && b + 1 < |old_| { assert SeparatesAt(old_, index, b); }
    }
  }

  lemma AddedCovered(blocks: seq<Block>, offset: nat, current: seq<Entry>, e: Entry, groups: seq<seq<Bytes>>, pending: seq<Bytes>)
    requires CoveredSoFar(WithCurrent(blocks, offset, current), groups, pending) && |groups| == offset / 2048
    ensures CoveredSoFar(WithCurrent(blocks, offset, current + [e]), groups, pending + [e.key.user])
  {
    var old_, all := WithCurrent(blocks, offset, current), WithCurrent(blocks, offset, current + [e]);
    forall b: nat, i: nat | Has(all, b, i) ensures InGroupSoFar(all[b].offset, all[b].entries[i].key.user, groups, pending + [e.key.user]) {
      if b < |blocks| || i < |current| {
        assert Has(old_, b, i) && old_[b].entries[i] == all[b].entries[i] && old_[b].offset == all[b].offset;
      }
    }
  }
}
