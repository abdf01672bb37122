/**
 A table built with the bloom policy and searched with it (table/table_builder.cc,
 table/table.cc, db/dbformat.cc, util/bloom.cc): a lookup is a linear scan.
 */
module BloomTable {
  import opened Options
  import opened Coding
  import opened Comparator
  import opened Table
  import opened Concatenation
  import opened Bloom
  import FilterBlock
  import TableBuilder

  // ----- the policy as the filter block uses it -----

  function Create(bitsPerKey: nat, k: Probes, hash: Hash): FilterBlock.Create {
    (keys: seq<Bytes>) => FilterBytes(bitsPerKey, k, hash, keys)
  }

  function Test(hash: Hash): FilterBlock.MayMatch {
    (key: Bytes, filter: Bytes) => MayMatch(hash, key, filter)
  }

  /** The bloom policy keeps the promise that filter blocks and tables rely on. */
  lemma BloomIsFaithful(bitsPerKey: nat, k: Probes, hash: Hash)
    ensures FilterBlock.Faithful(Create(bitsPerKey, k, hash), Test(hash))
  {
    forall keys: seq<Bytes>, i | 0 <= i < |keys| ensures Test(hash)(keys[i], Create(bitsPerKey, k, hash)(keys)) {
      FilterMatchesItsKeys(bitsPerKey, k, hash, keys, i);
    }
  }

  // ----- a table as one sequence of entries -----

  ghost predicate Sorted(entries: seq<Entry>) {
    forall i, j :: 0 <= i < j < |entries| ==> Less(entries[i].key, entries[j].key)
  }

  /** The first entry at or after `k`, if it has the user key of `k`. */
  function LinearScan(entries: seq<Entry>, k: InternalKey): Option<Entry> {
    if entries == [] then None
    else if Less(entries[0].key, k) then LinearScan(entries[1..], k)
    else if entries[0].key.user == k.user then Some(entries[0])
    else None
  }

  lemma {:induction false} ScanStops(entries: seq<Entry>, k: InternalKey, p: nat)
    requires p < |entries| && !Less(entries[p].key, k) && forall q :: 0 <= q < p ==> Less(entries[q].key, k)
    ensures LinearScan(entries, k) == if entries[p].key.user == k.user then Some(entries[p]) else None
    decreases |entries|
  {
    if p > 0 { ScanStops(entries[1..], k, p - 1); }
  }

  lemma {:induction false} ScanFinds(entries: seq<Entry>, k: InternalKey) returns (p: nat)
    requires LinearScan(entries, k).Some?
    ensures p < |entries| && !Less(entries[p].key, k) && forall q :: 0 <= q < p ==> Less(entries[q].key, k)
    ensures entries[p].key.user == k.user && LinearScan(entries, k) == Some(entries[p])
    decreases |entries|
  {
    p := 0;
    if Less(entries[0].key, k) {
      p := ScanFinds(entries[1..], k);
      assert forall q :: 0 < q <= p ==> entries[q] == entries[1..][q - 1];
      p := p + 1;
    }
  }

  ghost function Runs(blocks: seq<Block>): seq<seq<Entry>> {
    seq(|blocks|, b requires 0 <= b < |blocks| => blocks[b].entries)
  }

  /** Adding to the block in progress adds to the table. */
  lemma CurrentIsLast(blocks: seq<Block>, offset: nat, current: seq<Entry>)
    ensures Flat(Runs(TableBuilder.WithCurrent(blocks, offset, current))) == Flat(Runs(blocks)) + current
  {
    if current != [] {
      var all := Runs(blocks + [Block(offset, current)]);
      assert all[..|blocks|] == Runs(blocks);
    }
  }

  lemma NextIsAfterAll(blocks: seq<Block>, entries: seq<Entry>, n: nat)
    requires Sorted(entries) && n < |entries| && Flat(Runs(blocks)) == entries[..n]
    ensures TableBuilder.AllBefore(blocks, entries[n].key)
  {
    forall b: nat, i: nat | Has(blocks, b, i) ensures Less(blocks[b].entries[i].key, entries[n].key) {
      FlatAt(Runs(blocks), b, i);
    }
  }

  /** The first entry by blocks is the first in the sequence. */
  lemma FirstInPlace(blocks: seq<Block>, k: InternalKey, b: nat, i: nat)
    requires Has(blocks, b, i) && !Less(blocks[b].entries[i].key, k)
    ensures var p := Offset(Runs(blocks), b) + i;
      && p < |Flat(Runs(blocks))| && Flat(Runs(blocks))[p] == blocks[b].entries[i]
      && (FirstFrom(blocks, k, b, i) <==> forall q :: 0 <= q < p ==> Less(Flat(Runs(blocks))[q].key, k))
  {
    var runs := Runs(blocks);
    var p := Offset(runs, b) + i;
    FlatAt(runs, b, i);
    if FirstFrom(blocks, k, b, i) {
      forall q | 0 <= q < p ensures Less(Flat(runs)[q].key, k) {
        var c, j := PlaceOf(runs, q);
        FlatAt(runs, c, j);
        PlacesAreOrdered(runs, c, j, b, i);
        assert Has(blocks, c, j) && Earlier(c, j, b, i);
      }
    }
    if forall q :: 0 <= q < p ==> Less(Flat(runs)[q].key, k) {
      forall c: nat, j: nat | Has(blocks, c, j) && Earlier(c, j, b, i) ensures Less(blocks[c].entries[j].key, k) {
        FlatAt(runs, c, j);
        PlacesAreOrdered(runs, c, j, b, i);
      }
    }
  }

  // ----- building and searching -----

  datatype File = File(blocks: seq<Block>, index: seq<InternalKey>, filter: Option<Bytes>)

  /** The table holds these entries, and its index and filter can be trusted. */
  ghost predicate IsTable(t: File, entries: seq<Entry>, create: FilterBlock.Create) {
    && Flat(Runs(t.blocks)) == entries
    && Ascending(t.blocks) && Indexed(t.blocks, t.index) && |t.index| == |t.blocks|
    && (t.filter.Some? ==> exists groups :: FilterBlock.IsFilterBlock(t.filter.value, create, groups) && Covered(t.blocks, groups))
  }

  /** The builder has taken exactly these entries. */
  ghost predicate HasTaken(builder: TableBuilder.Builder, entries: seq<Entry>)
    reads builder, builder.filter
  {
    builder.Valid() && Flat(Runs(builder.All())) == entries
  }

  /** Blocks are cut after the entries whose `sizes` is not zero; that is the length the block takes in the file. */
  method Build(entries: seq<Entry>, create: FilterBlock.Create, sizes: nat -> nat, last: nat) returns (t: File)
    requires Sorted(entries) && last > 0
    ensures IsTable(t, entries, create)
  {
    var builder := new TableBuilder.Builder(create);
    for n := 0 to |entries|
      invariant fresh(builder) && fresh(builder.filter) && builder.create == create && HasTaken(builder, entries[..n])
    {
      AddEntry(builder, entries, n);
      if sizes(n) > 0 {
        builder.Flush(sizes(n));
      }
    }
    assert entries[..|entries|] == entries;
    t := Close(builder, last, entries);
  }

  method AddEntry(builder: TableBuilder.Builder, entries: seq<Entry>, n: nat)
    requires Sorted(entries) && n < |entries| && HasTaken(builder, entries[..n])
    modifies builder, builder.filter
    ensures HasTaken(builder, entries[..n + 1])
  {
    NextIsAfterAll(builder.All(), entries, n);
    ghost var blocks, offset, current := builder.blocks, builder.offset, builder.dataBlock;
    builder.Add(entries[n].key, entries[n].value);
    TakesNext(blocks, offset, current, entries, n);
  }

  lemma TakesNext(blocks: seq<Block>, offset: nat, current: seq<Entry>, entries: seq<Entry>, n: nat)
    requires n < |entries| && Flat(Runs(TableBuilder.WithCurrent(blocks, offset, current))) == entries[..n]
    ensures Flat(Runs(TableBuilder.WithCurrent(blocks, offset, current + [Entry(entries[n].key, entries[n].value)]))) == entries[..n + 1]
  {
    CurrentIsLast(blocks, offset, current);
    CurrentIsLast(blocks, offset, current + [entries[n]]);
    assert entries[..n] + [entries[n]] == entries[..n + 1];
  }

  method Close(builder: TableBuilder.Builder, last: nat, ghost entries: seq<Entry>) returns (t: File)
    requires HasTaken(builder, entries) && last > 0
    modifies builder, builder.filter
    ensures IsTable(t, entries, builder.create)
  {
    var contents := builder.Finish(last);
    t := File(builder.blocks, builder.index, contents);
  }

  /** InternalGet and the test of the user key in its callback. */
  method Lookup(t: File, k: InternalKey, ghost bitsPerKey: nat, ghost probes: Probes, hash: Hash, ghost entries: seq<Entry>) returns (r: Option<Entry>)
    requires IsTable(t, entries, Create(bitsPerKey, probes, hash))
    ensures r == LinearScan(entries, k)
  {
    BloomIsFaithful(bitsPerKey, probes, hash);
    ghost var create := Create(bitsPerKey, probes, hash);
    ghost var groups := [];
    if t.filter.Some? {
      groups :| FilterBlock.IsFilterBlock(t.filter.value, create, groups) && Covered(t.blocks, groups);
    }
    r := InternalGet(t.blocks, t.index, k, create, Test(hash), t.filter, groups);
    ScanIsGet(t.blocks, entries, k, r);
    if r.Some? && r.value.key.user != k.user {
      r := None;
    }
  }

  /** What InternalGet promises by blocks, by the sequence. */
  lemma ScanIsGet(blocks: seq<Block>, entries: seq<Entry>, k: InternalKey, r: Option<Entry>)
    requires Flat(Runs(blocks)) == entries
    requires forall b: nat, i: nat :: FirstFrom(blocks, k, b, i) && blocks[b].entries[i].key.user == k.user ==> r == Some(blocks[b].entries[i])
    requires r.Some? ==> exists b: nat, i: nat :: FirstFrom(blocks, k, b, i) && r.value == blocks[b].entries[i]
    ensures LinearScan(entries, k) == if r.Some? && r.value.key.user == k.user then r else None
  {
    if r.Some? {
      var b: nat, i: nat :| FirstFrom(blocks, k, b, i) && r.value == blocks[b].entries[i];
      FirstInPlace(blocks, k, b, i);
      ScanStops(entries, k, Offset(Runs(blocks), b) + i);
    } else if LinearScan(entries, k).Some? {
      var p := ScanFinds(entries, k);
      var b, i := PlaceOf(Runs(blocks), p);
      FlatAt(Runs(blocks), b, i);
      FirstInPlace(blocks, k, b, i);
      assert FirstFrom(blocks, k, b, i);
    }
  }

  /**
   Whatever the entries, the cuts into blocks, the parameters of the policy and the
   hash: building a table and looking a key up in it is scanning the entries.
   */
  method BuildAndGet(entries: seq<Entry>, policy: Policy, sizes: nat -> nat, last: nat, k: InternalKey) returns (r: Option<Entry>)
    requires Sorted(entries) && last > 0
    ensures r == LinearScan(entries, k)
  {
    var t := Build(entries, Create(policy.bitsPerKey, policy.k, policy.hash), sizes, last);
    r := Lookup(t, k, policy.bitsPerKey, policy.k, policy.hash, entries);
  }
}
