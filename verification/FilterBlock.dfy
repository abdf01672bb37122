/**
 The filter block (table/filter_block.cc): one filter for every 2048 bytes of
 file offset. A key added for a block is never rejected at that block's offset.
 */
module FilterBlock {
  import opened Options
  import opened Coding
  import opened BlockFormat
  import opened ByteLayout
  import BlockIterator

  const kFilterBaseLg: Byte := 11
  const kFilterBase: nat := 2048

  type Create = seq<Bytes> -> Bytes
  type MayMatch = (Bytes, Bytes) -> bool

  /** A filter matches every key it was made from. */
  ghost predicate Faithful(create: Create, mayMatch: MayMatch) {
    forall keys, i :: 0 <= i < |keys| ==> mayMatch(keys[i], create(keys))
  }

  /** GenerateFilter makes nothing for no keys. */
  function FilterOf(create: Create, keys: seq<Bytes>): Bytes {
    if keys == [] then [] else create(keys)
  }

  /** All filters one after the other. */
  function Filters(create: Create, groups: seq<seq<Bytes>>): Bytes {
    if groups == [] then [] else Filters(create, groups[..|groups| - 1]) + FilterOf(create, groups[|groups| - 1])
  }

  ghost predicate IsOffsets(create: Create, groups: seq<seq<Bytes>>, offsets: seq<nat>) {
    |offsets| == |groups| && forall i :: 0 <= i < |groups| ==> offsets[i] == |Filters(create, groups[..i])|
  }

  lemma FiltersStep(create: Create, groups: seq<seq<Bytes>>, i: nat)
    requires i < |groups|
    ensures Filters(create, groups[..i + 1]) == Filters(create, groups[..i]) + FilterOf(create, groups[i])
  {
    assert groups[..i + 1][..i] == groups[..i];
  }

  lemma {:induction false} FiltersPrefix(create: Create, groups: seq<seq<Bytes>>, i: nat)
    requires i <= |groups|
    ensures Filters(create, groups[..i]) <= Filters(create, groups)
  {
    var n := |groups| - 1;
    if i <= n {
      FiltersPrefix(create, groups[..n], i);
      assert groups[..n][..i] == groups[..i];
    } else {
      assert groups[..i] == groups;
    }
  }

  /** The filter of group `i` lies between its offset and the next. */
  lemma FilterAt(create: Create, groups: seq<seq<Bytes>>, i: nat)
    requires i < |groups|
    ensures var a, b := |Filters(create, groups[..i])|, |Filters(create, groups[..i + 1])|;
      a <= b <= |Filters(create, groups)| && Filters(create, groups)[a..b] == FilterOf(create, groups[i])
  {
    FiltersStep(create, groups, i);
    FiltersPrefix(create, groups, i + 1);
    PrefixTail(Filters(create, groups[..i]), FilterOf(create, groups[i]), Filters(create, groups));
  }

  /** Where a filter ends: where the next begins, or where the offsets begin. */
  ghost predicate IsBounds(create: Create, groups: seq<seq<Bytes>>, words: seq<Word>) {
    |words| == |groups| + 1 && forall i :: 0 <= i <= |groups| ==> words[i] == |Filters(create, groups[..i])|
  }

  /** The finished filter block. */
  ghost predicate IsFilterBlock(contents: Bytes, create: Create, groups: seq<seq<Bytes>>) {
    exists words: seq<Word> ::
      IsBounds(create, groups, words) && contents == Filters(create, groups) + FixedArray(words) + [kFilterBaseLg]
  }

  class FilterBlockBuilder {
    const create: Create
    /** The keys of the next filter, flattened, and where each starts. */
    var keys: Bytes
    var start: seq<nat>
    var result: Bytes
    var filterOffsets: seq<nat>
    ghost var groups: seq<seq<Bytes>>
    ghost var pending: seq<Bytes>

    constructor (create: Create)
      ensures Valid() && groups == [] && pending == [] && this.create == create
    {
      this.create := create;
      keys, start, result, filterOffsets := [], [], [], [];
      groups, pending := [], [];
    }

    ghost predicate Valid()
      reads this
    {
      && result == Filters(create, groups) && IsOffsets(create, groups, filterOffsets)
      && IsFlat(keys, start, pending)
    }

    method AddKey(key: Bytes)
      requires Valid()
      modifies this`keys, this`start, this`pending
      ensures Valid() && pending == old(pending) + [key]
    {
      FlatStep(keys, start, pending, key);
      start := start + [|keys|];
      keys := keys + key;
      pending := pending + [key];
    }

    method GenerateFilter()
      requires Valid()
      modifies this
      ensures Valid() && groups == old(groups) + [old(pending)] && pending == []
    {
      GroupsStep(create, groups, pending, filterOffsets);
      if |start| == 0 {
        filterOffsets := filterOffsets + [|result|];
      } else {
        var tmp := Unflatten();
        filterOffsets := filterOffsets + [|result|];
        result := result + create(tmp);
        keys, start := [], [];
      }
      groups, pending := groups + [pending], [];
    }

    /** The loop of GenerateFilter: the keys, cut out of the flattened form. */
    method Unflatten() returns (tmp: seq<Bytes>)
      requires Valid()
      ensures tmp == pending
    {
      var ends := start + [|keys|];
      tmp := [];
      for i := 0 to |start|
        invariant tmp == pending[..i] && i <= |pending|
      {
        FlatSlice(keys, start, pending, i);
        tmp := tmp + [keys[ends[i]..ends[i + 1]]];
      }
    }

    /** A block begins at this offset: keys added from now on go into filter number offset / 2048. */
    method StartBlock(offset: nat)
      requires Valid() && offset / kFilterBase >= |groups|
      modifies this
      ensures Valid() && |groups| == offset / 2048
      ensures old(|groups|) == offset / 2048 ==> groups == old(groups) && pending == old(pending)
      ensures old(|groups|) < offset / 2048 ==> old(groups) + [old(pending)] <= groups && pending == []
    {
      var filterIndex := offset / kFilterBase;
      while filterIndex > |filterOffsets|
        invariant Valid() && |groups| <= filterIndex
        invariant |groups| == old(|groups|) ==> groups == old(groups) && pending == old(pending)
        invariant |groups| > old(|groups|) ==> old(groups) + [old(pending)] <= groups && pending == []
        decreases filterIndex - |filterOffsets|
      {
        GenerateFilter();
      }
    }

    /** The finished block, or nothing when its offsets do not fit in 32 bits. */
    method Finish() returns (contents: Option<Bytes>)
      requires Valid()
      modifies this
      ensures groups == if old(pending) == [] then old(groups) else old(groups) + [old(pending)]
      ensures contents.Some? <==> |Filters(create, groups)| < 0x1_0000_0000
      ensures contents.Some? ==> IsFilterBlock(contents.value, create, groups)
    {
      if |start| > 0 {
        GenerateFilter();
      }
      if |result| >= 0x1_0000_0000 {
        return None;
      }
      var words := BoundWords(create, result, filterOffsets, groups);
      contents := Some(result + FixedArray(words) + [kFilterBaseLg]);
    }
  }

  lemma FiltersSnoc(create: Create, groups: seq<seq<Bytes>>, g: seq<Bytes>)
    ensures Filters(create, groups + [g]) == Filters(create, groups) + FilterOf(create, g)
  {
    assert (groups + [g])[..|groups|] == groups;
  }

  lemma GroupsStep(create: Create, groups: seq<seq<Bytes>>, g: seq<Bytes>, offsets: seq<nat>)
    requires IsOffsets(create, groups, offsets)
    ensures IsOffsets(create, groups + [g], offsets + [|Filters(create, groups)|])
    ensures Filters(create, groups + [g]) == Filters(create, groups) + FilterOf(create, g)
  {
    FiltersSnoc(create, groups, g);
    forall i | 0 <= i <= |groups| ensures (groups + [g])[..i] == groups[..i] { }
    assert groups[..|groups|] == groups;
  }

  /** The offsets and the end of the last filter as 32-bit numbers. */
  method BoundWords(create: Create, result: Bytes, offsets: seq<nat>, ghost groups: seq<seq<Bytes>>) returns (words: seq<Word>)
    requires result == Filters(create, groups) && IsOffsets(create, groups, offsets) && |result| < 0x1_0000_0000
    ensures IsBounds(create, groups, words)
  {
    words := [];
    for i := 0 to |offsets|
      invariant |words| == i && forall j :: 0 <= j < i ==> words[j] == |Filters(create, groups[..j])|
    {
      FiltersPrefix(create, groups, i);
      words := words + [offsets[i]];
    }
    assert groups[..|groups|] == groups;
    words := words + [|result|];
  }

  // ----- keys laid end to end -----

  ghost function Flat(ks: seq<Bytes>): Bytes {
    if ks == [] then [] else Flat(ks[..|ks| - 1]) + ks[|ks| - 1]
  }

  ghost predicate IsFlat(keys: Bytes, start: seq<nat>, ks: seq<Bytes>) {
    && keys == Flat(ks) && |start| == |ks|
    && (forall i :: 0 <= i < |ks| ==> start[i] == |Flat(ks[..i])|)
  }

  lemma FlatStep(keys: Bytes, start: seq<nat>, ks: seq<Bytes>, key: Bytes)
    requires IsFlat(keys, start, ks)
    ensures IsFlat(keys + key, start + [|keys|], ks + [key])
  {
    assert (ks + [key])[..|ks|] == ks;
    forall i | 0 <= i <= |ks| ensures (ks + [key])[..i] == ks[..i] { }
    assert ks[..|ks|] == ks;
  }

  lemma {:induction false} FlatPrefix(ks: seq<Bytes>, i: nat)
    requires i <= |ks|
    ensures Flat(ks[..i]) <= Flat(ks)
  {
    var n := |ks| - 1;
    if i <= n {
      FlatPrefix(ks[..n], i);
      assert ks[..n][..i] == ks[..i];
    } else {
      assert ks[..i] == ks;
    }
  }

  lemma FlatSlice(keys: Bytes, start: seq<nat>, ks: seq<Bytes>, i: nat)
    requires IsFlat(keys, start, ks) && i < |ks|
    ensures var ends := start + [|keys|];
      ends[i] <= ends[i + 1] <= |keys| && keys[ends[i]..ends[i + 1]] == ks[i]
  {
    assert ks[..i + 1][..i] == ks[..i] && ks[..|ks|] == ks;
    FlatPrefix(ks, i + 1);
    PrefixTail(Flat(ks[..i]), ks[i], keys);
  }

  // ----- the reader -----

  /** The 32-bit number at a place in the contents. */
  function WordAt(contents: Bytes, at: nat): Word
    requires at + 4 <= |contents|
  {
    DecodeFixed32(contents[at..at + 4])
  }

  /** Number `i` of the bounds is read back. */
  lemma BoundIsRead(contents: Bytes, data: Bytes, words: seq<Word>, i: nat)
    requires contents == data + FixedArray(words) + [kFilterBaseLg] && i < |words|
    ensures |data| + 4 * i + 4 <= |contents| && WordAt(contents, |data| + 4 * i) == words[i]
  {
    BlockIterator.PointsAreRead(contents, data, words, [kFilterBaseLg], i);
  }

  function Shift(n: nat, lg: nat): nat {
    if lg == 0 then n else Shift(n / 2, lg - 1)
  }

  lemma ShiftIsDivision(n: nat)
    ensures Shift(n, 11) == n / 2048
  {
    var a, b, c := n / 2 / 2 / 2 / 2, n / 16 / 2 / 2 / 2 / 2, n / 256 / 2 / 2 / 2;
    assert Shift(n, 11) == Shift(n / 2 / 2, 9) == Shift(a, 7);
    assert a == n / 16;
    assert Shift(a, 7) == Shift(a / 2 / 2, 5) == Shift(b, 3);
    assert b == n / 256;
    assert Shift(b, 3) == Shift(b / 2 / 2, 1) == c;
    assert c == n / 2048;
  }

  /** FilterBlockReader::FilterBlockReader: where the offsets start and how many there are. */
  datatype Layout = Layout(offset: nat, num: nat, baseLg: nat)

  method Open(contents: Bytes) returns (r: Layout)
    ensures r.offset + 4 * r.num + 5 <= |contents| || r.num == 0
    ensures |contents| >= 5 && WordAt(contents, |contents| - 5) <= |contents| - 5 ==>
      var last: nat := WordAt(contents, |contents| - 5);
      r == Layout(last, (|contents| - 5 - last) / 4, contents[|contents| - 1])
  {
    var n := |contents|;
    if n < 5 {
      return Layout(0, 0, 0);
    }
    var last: nat := WordAt(contents, n - 5);
    if last > n - 5 {
      return Layout(0, 0, contents[n - 1]);
    }
    r := Layout(last, (n - 5 - last) / 4, contents[n - 1]);
  }

  /** The contents are filters, then these bounds, then the parameter. */
  ghost predicate LaidOut(contents: Bytes, data: Bytes, words: seq<Word>) {
    contents == data + FixedArray(words) + [kFilterBaseLg] && |words| > 0 && words[|words| - 1] == |data|
  }

  /** Opening a finished block finds the offsets. */
  method OpenLaidOut(contents: Bytes, ghost data: Bytes, ghost words: seq<Word>) returns (r: Layout)
    ensures r.offset + 4 * r.num + 5 <= |contents| || r.num == 0
    ensures LaidOut(contents, data, words) ==> r == Layout(|data|, |words| - 1, kFilterBaseLg)
  {
    if LaidOut(contents, data, words) { OpensAs(contents, data, words); }
    r := Open(contents);
  }

  lemma OpensAs(contents: Bytes, data: Bytes, words: seq<Word>)
    requires LaidOut(contents, data, words)
    ensures |contents| >= 5 && WordAt(contents, |contents| - 5) == |data|
    ensures (|contents| - 5 - |data|) / 4 == |words| - 1 && contents[|contents| - 1] == kFilterBaseLg
  {
    BoundIsRead(contents, data, words, |words| - 1);
    assert |data| + 4 * (|words| - 1) == |contents| - 5;
  }

  method ReadBounds(contents: Bytes, offset: nat, index: nat, ghost data: Bytes, ghost words: seq<Word>) returns (first: nat, limit: nat)
    requires offset + 4 * index + 8 <= |contents|
    ensures LaidOut(contents, data, words) && offset == |data| && index + 1 < |words| ==> first == words[index] && limit == words[index + 1]
  {
    if LaidOut(contents, data, words) && offset == |data| && index + 1 < |words| {
      BoundIsRead(contents, data, words, index);
      BoundIsRead(contents, data, words, index + 1);
    }
    first := WordAt(contents, offset + 4 * index);
    limit := WordAt(contents, offset + 4 * (index + 1));
  }

  /** Errors are treated as matches; otherwise the filter of the offset decides. */
  method KeyMayMatch(contents: Bytes, mayMatch: MayMatch, layout: Layout, blockOffset: nat, key: Bytes, ghost data: Bytes, ghost words: seq<Word>) returns (may: bool)
    requires layout.offset + 4 * layout.num + 5 <= |contents| || layout.num == 0
    ensures Shift(blockOffset, layout.baseLg) >= layout.num ==> may
    ensures var index := Shift(blockOffset, layout.baseLg);
      LaidOut(contents, data, words) && layout.offset == |data| && index < layout.num == |words| - 1 && words[index] <= words[index + 1] <= |data| ==>
        may == mayMatch(key, data[words[index]..words[index + 1]])
  {
    var index := Shift(blockOffset, layout.baseLg);
    if index < layout.num {
      var first, limit := ReadBounds(contents, layout.offset, index, data, words);
      if first <= limit && limit <= layout.offset {
        if LaidOut(contents, data, words) && layout.offset == |data| { SliceOfPrefix(data, FixedArray(words) + [kFilterBaseLg], contents, first, limit); }
        return mayMatch(key, contents[first..limit]);
      } else if first == limit {
        return false;
      }
    }
    may := true;
  }

  lemma SliceOfPrefix(data: Bytes, rest: Bytes, contents: Bytes, a: nat, b: nat)
    requires contents == data + rest && a <= b <= |data|
    ensures contents[a..b] == data[a..b]
  {
  }

  /** A key that went into the filter of a block's offset is not rejected there. */
  method StoredKeyMayMatch(contents: Bytes, ghost create: Create, mayMatch: MayMatch, ghost groups: seq<seq<Bytes>>, blockOffset: nat, key: Bytes) returns (may: bool)
    requires IsFilterBlock(contents, create, groups) && Faithful(create, mayMatch)
    ensures blockOffset / 2048 < |groups| && key in groups[blockOffset / 2048] ==> may
  {
    ghost var words := BoundsOf(contents, create, groups);
    ghost var data := Filters(create, groups);
    var layout := OpenLaidOut(contents, data, words);
    may := KeyMayMatch(contents, mayMatch, layout, blockOffset, key, data, words);
    ShiftIsDivision(blockOffset);
    ghost var index := Shift(blockOffset, 11);
    if index < |groups| && key in groups[index] {
      FilterIsFound(create, mayMatch, groups, words, index, key);
    }
  }

  lemma BoundsOf(contents: Bytes, create: Create, groups: seq<seq<Bytes>>) returns (words: seq<Word>)
    requires IsFilterBlock(contents, create, groups)
    ensures IsBounds(create, groups, words) && LaidOut(contents, Filters(create, groups), words)
  {
    words :| IsBounds(create, groups, words) && contents == Filters(create, groups) + FixedArray(words) + [kFilterBaseLg];
    assert groups[..|groups|] == groups;
  }

  lemma FilterIsFound(create: Create, mayMatch: MayMatch, groups: seq<seq<Bytes>>, words: seq<Word>, index: nat, key: Bytes)
    requires IsBounds(create, groups, words) && Faithful(create, mayMatch) && index < |groups| && key in groups[index]
    ensures words[index] <= words[index + 1] <= |Filters(create, groups)|
    ensures mayMatch(key, Filters(create, groups)[words[index]..words[index + 1]])
  {
    FilterAt(create, groups, index);
  }

  // ----- the layout, in numbers -----

  /** The filters, four bytes for where each ends up to the start of this array, and a byte 11: one filter for 2 to that power bytes. */
  ghost predicate IsFilterLayout(contents: Bytes, create: Create, groups: seq<seq<Bytes>>) {
    exists words: seq<Word> :: IsBounds(create, groups, words) && Laid(contents, [Raw(Filters(create, groups))] + WordParts(words) + [Raw([11])])
  }

  lemma FilterParts(data: Bytes, words: seq<Word>, contents: Bytes)
    ensures contents == data + FixedArray(words) + [11] <==> Laid(contents, [Raw(data)] + WordParts(words) + [Raw([11])])
  {
    WordsAreParts(words);
    PutOne(Raw([11]));
    PutFirst(Raw(data), WordParts(words));
    PutConcat([Raw(data)] + WordParts(words), [Raw([11])]);
    LaidIff(contents, [Raw(data)] + WordParts(words) + [Raw([11])]);
  }

  lemma FilterLayout(contents: Bytes, create: Create, groups: seq<seq<Bytes>>)
    ensures IsFilterBlock(contents, create, groups) <==> IsFilterLayout(contents, create, groups)
  {
    if IsFilterBlock(contents, create, groups) {
      var words: seq<Word> :| IsBounds(create, groups, words) && contents == Filters(create, groups) + FixedArray(words) + [kFilterBaseLg];
      FilterParts(Filters(create, groups), words, contents);
    }
    if IsFilterLayout(contents, create, groups) {
      var words: seq<Word> :| IsBounds(create, groups, words) && Laid(contents, [Raw(Filters(create, groups))] + WordParts(words) + [Raw([11])]);
      FilterParts(Filters(create, groups), words, contents);
    }
  }
}
