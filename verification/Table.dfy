/**
 Tables (table/table_builder.cc, table/table.cc): a lookup through shortened
 index keys and filters finds what a scan of the whole table finds.
 */
module Table {
  import opened Options
  import opened Coding
  import opened Comparator
  import FilterBlock

  datatype Entry = Entry(key: InternalKey, value: Bytes)

  /** A data block: where it starts in the file, and its entries. */
  datatype Block = Block(offset: nat, entries: seq<Entry>)

  /** Entry `i` of block `b` comes before entry `j` of block `c`. */
  predicate Earlier(b: nat, i: nat, c: nat, j: nat) {
    b < c || (b == c && i < j)
  }

  ghost predicate Has(blocks: seq<Block>, b: nat, i: nat) {
    b < |blocks| && i < |blocks[b].entries|
  }

  ghost predicate Ascending(blocks: seq<Block>) {
    forall b: nat, i: nat, c: nat, j: nat :: Has(blocks, b, i) && Has(blocks, c, j) && Earlier(b, i, c, j) ==>
      Less(blocks[b].entries[i].key, blocks[c].entries[j].key)
  }

  ghost predicate NonEmpty(blocks: seq<Block>) {
    forall b :: 0 <= b < |blocks| ==> blocks[b].entries != []
  }

  function LastKey(b: Block): InternalKey
    requires b.entries != []
  {
    b.entries[|b.entries| - 1].key
  }

  function FirstKey(b: Block): InternalKey
    requires b.entries != []
  {
    b.entries[0].key
  }

  /** Index key `b` separates block `b` from the next one; the last index key is at or after the last block. */
  ghost predicate Indexed(blocks: seq<Block>, index: seq<InternalKey>) {
    && NonEmpty(blocks) && |index| <= |blocks|
    && (forall b :: 0 <= b < |index| ==> if b + 1 < |blocks| then SeparatesAt(blocks, index, b) else !Less(index[b], LastKey(blocks[b])))
  }

  ghost predicate SeparatesAt(blocks: seq<Block>, index: seq<InternalKey>, b: nat)
    requires b < |index| && b + 1 < |blocks| && NonEmpty(blocks)
  {
    Separator(LastKey(blocks[b]), FirstKey(blocks[b + 1]), index[b])
  }

  /** Every user key of a block is in the filter of the block's offset. */
  ghost predicate Covered(blocks: seq<Block>, groups: seq<seq<Bytes>>) {
    forall b: nat, i: nat :: Has(blocks, b, i) ==> InGroup(blocks[b].offset, blocks[b].entries[i].key.user, groups)
  }

  ghost predicate InGroup(offset: nat, user: Bytes, groups: seq<seq<Bytes>>) {
    offset / 2048 < |groups| && user in groups[offset / 2048]
  }

  /** The first entry at or after `k` in the whole table. */
  ghost predicate FirstFrom(blocks: seq<Block>, k: InternalKey, b: nat, i: nat) {
    && Has(blocks, b, i) && !Less(blocks[b].entries[i].key, k)
    && (forall c: nat, j: nat :: Has(blocks, c, j) && Earlier(c, j, b, i) ==> Less(blocks[c].entries[j].key, k))
  }

  /** The index block's Seek: the first index key at or after `k`. */
  method SeekIndex(index: seq<InternalKey>, k: InternalKey) returns (b: nat)
    ensures b <= |index| && (forall c :: 0 <= c < b ==> Less(index[c], k)) && (b < |index| ==> !Less(index[b], k))
  {
    b := 0;
    while b < |index| && Less(index[b], k)
      invariant b <= |index| && forall c :: 0 <= c < b ==> Less(index[c], k)
    {
      b := b + 1;
    }
  }

  method SeekBlock(entries: seq<Entry>, k: InternalKey) returns (i: nat)
    ensures i <= |entries| && (forall j :: 0 <= j < i ==> Less(entries[j].key, k)) && (i < |entries| ==> !Less(entries[i].key, k))
  {
    i := 0;
    while i < |entries| && Less(entries[i].key, k)
      invariant i <= |entries| && forall j :: 0 <= j < i ==> Less(entries[j].key, k)
    {
      i := i + 1;
    }
  }

  /** Entries of blocks whose index key is before `k` are before `k`. */
  lemma EarlierBlocksAreBefore(blocks: seq<Block>, index: seq<InternalKey>, k: InternalKey, c: nat, j: nat)
    requires Ascending(blocks) && Indexed(blocks, index) && |index| == |blocks|
    requires Has(blocks, c, j) && Less(index[c], k)
    ensures Less(blocks[c].entries[j].key, k)
  {
    var e, last := blocks[c].entries[j].key, LastKey(blocks[c]);
    assert !Less(index[c], last) by {
      if c + 1 < |blocks| {
        assert SeparatesAt(blocks, index, c);
        LessIsTotal(last, index[c]);
      }
    }
    assert e == last || Less(e, last) by {
      assert j < |blocks[c].entries| - 1 ==> Earlier(c, j, c, |blocks[c].entries| - 1) && Has(blocks, c, |blocks[c].entries| - 1);
    }
    LessIsTotal(index[c], last);
    if Less(last, index[c]) { LessIsTransitive(last, index[c], k); }
    if Less(e, last) { LessIsTransitive(e, last, k); }
  }

  /** Between a block and a shortened index key no lookup finds its user key. */
  lemma GapHasOtherUser(blocks: seq<Block>, index: seq<InternalKey>, k: InternalKey, b: nat)
    requires Indexed(blocks, index) && b < |index| && b + 1 < |blocks|
    requires !Less(index[b], k) && Less(LastKey(blocks[b]), k)
    ensures Before(k.user, FirstKey(blocks[b + 1]).user)
  {
    assert SeparatesAt(blocks, index, b);
    var sep, first := index[b], FirstKey(blocks[b + 1]);
    LessIsTotal(sep, k);
    if k.user != sep.user { BeforeIsTransitive(k.user, sep.user, first.user); }
  }

  /** If the first entry at or after `k` has its user key, it is in the block that the index points to. */
  lemma FoundInIndexedBlock(blocks: seq<Block>, index: seq<InternalKey>, k: InternalKey, b: nat, i: nat, c: nat, j: nat)
    requires Ascending(blocks) && Indexed(blocks, index) && |index| == |blocks|
    requires b <= |index| && (forall d :: 0 <= d < b ==> Less(index[d], k)) && (b < |index| ==> !Less(index[b], k))
    requires b < |blocks| ==> i <= |blocks[b].entries| && (forall m :: 0 <= m < i ==> Less(blocks[b].entries[m].key, k))
    requires b < |blocks| && i < |blocks[b].entries| ==> !Less(blocks[b].entries[i].key, k)
    requires FirstFrom(blocks, k, c, j) && blocks[c].entries[j].key.user == k.user
    ensures b < |blocks| && c == b && j == i && i < |blocks[b].entries|
  {
    if c < b { EarlierBlocksAreBefore(blocks, index, k, c, j); }
    assert c >= b;
    if c > b {
      var last := |blocks[b].entries| - 1;
      assert Has(blocks, b, last) && Earlier(b, last, c, j);
      GapHasOtherUser(blocks, index, k, b);
      FirstOfNextIsNotAfter(blocks, b, c, j);
    }
    assert c == b;
    assert i < j ==> Has(blocks, b, i) && Earlier(b, i, c, j);
  }

  lemma FirstOfNextIsNotAfter(blocks: seq<Block>, b: nat, c: nat, j: nat)
    requires Ascending(blocks) && NonEmpty(blocks) && b + 1 <= c && Has(blocks, c, j)
    ensures !Before(blocks[c].entries[j].key.user, FirstKey(blocks[b + 1]).user)
  {
    var first, e := FirstKey(blocks[b + 1]), blocks[c].entries[j].key;
    assert Has(blocks, b + 1, 0);
    assert Earlier(b + 1, 0, c, j) ==> Less(first, e);
    BeforeIsStrict(first.user, e.user);
    BeforeIsStrict(e.user, e.user);
  }

  /** What the index and the block seek find is the first entry at or after `k`. */
  lemma SeekFindsFirst(blocks: seq<Block>, index: seq<InternalKey>, k: InternalKey, b: nat, i: nat)
    requires Ascending(blocks) && Indexed(blocks, index) && |index| == |blocks|
    requires b < |index| && (forall d :: 0 <= d < b ==> Less(index[d], k))
    requires i < |blocks[b].entries| && (forall m :: 0 <= m < i ==> Less(blocks[b].entries[m].key, k)) && !Less(blocks[b].entries[i].key, k)
    ensures FirstFrom(blocks, k, b, i)
  {
    forall c: nat, j: nat | Has(blocks, c, j) && Earlier(c, j, b, i) ensures Less(blocks[c].entries[j].key, k) {
      if c < b { EarlierBlocksAreBefore(blocks, index, k, c, j); }
    }
  }

  /**
   Table::InternalGet. An entry with the sought user key is delivered exactly
   when the first entry at or after `k` in the table has it; whatever is
   delivered is that first entry.
   */
  method InternalGet(blocks: seq<Block>, index: seq<InternalKey>, k: InternalKey,
                     ghost create: FilterBlock.Create, mayMatch: FilterBlock.MayMatch, filter: Option<Bytes>, ghost groups: seq<seq<Bytes>>)
    returns (r: Option<Entry>)
    requires Ascending(blocks) && Indexed(blocks, index) && |index| == |blocks|
    requires filter.Some? ==> FilterBlock.IsFilterBlock(filter.value, create, groups) && FilterBlock.Faithful(create, mayMatch) && Covered(blocks, groups)
    ensures forall b: nat, i: nat :: FirstFrom(blocks, k, b, i) && blocks[b].entries[i].key.user == k.user ==> r == Some(blocks[b].entries[i])
    ensures r.Some? ==> exists b: nat, i: nat :: FirstFrom(blocks, k, b, i) && r.value == blocks[b].entries[i]
  {
    r := None;
    var b := SeekIndex(index, k);
    ghost var at := 0;
    if b < |index| {
      var i := SeekBlock(blocks[b].entries, k);
      at := i;
      var rejected := false;
      if filter.Some? {
        var may := FilterBlock.StoredKeyMayMatch(filter.value, create, mayMatch, groups, blocks[b].offset, k.user);
        rejected := !may;
      }
      if !rejected && i < |blocks[b].entries| {
        SeekFindsFirst(blocks, index, k, b, i);
        r := Some(blocks[b].entries[i]);
      }
    }
    forall c: nat, j: nat | FirstFrom(blocks, k, c, j) && blocks[c].entries[j].key.user == k.user
      ensures r == Some(blocks[c].entries[j])
    {
      FoundInIndexedBlock(blocks, index, k, b, at, c, j);
      assert filter.Some? ==> InGroup(blocks[c].offset, k.user, groups);
    }
  }
}
