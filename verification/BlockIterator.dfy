/** Block::Iter (table/block.cc): every movement lands on the exact entry. */
module BlockIterator {
  import opened Options
  import opened Arithmetic
  import opened Coding
  import opened BlockFormat
  import opened BlockBuilder

  type Less = (Bytes, Bytes) -> bool

  ghost predicate Transitive(less: Less) {
    forall a, b, c :: less(a, b) && less(b, c) ==> less(a, c)
  }

  ghost predicate Ascending(less: Less, es: seq<KeyValue>) {
    forall i, j :: 0 <= i < j < |es| ==> less(es[i].key, es[j].key)
  }

  ghost predicate Sized(es: seq<KeyValue>) {
    forall i :: 0 <= i < |es| ==> |es[i].key| < 0x1_0000_0000 && |es[i].value| < 0x1_0000_0000
  }

  function RestartPoint(block: Bytes, restarts: nat, r: nat): Word
    requires restarts + 4 * r + 4 <= |block|
  {
    DecodeFixed32(block[restarts + 4 * r..restarts + 4 * r + 4])
  }

  /** The block's contents as the iterator sees them. */
  ghost predicate Laid(block: Bytes, restarts: nat, count: nat, es: seq<KeyValue>, interval: nat) {
    && interval > 0 && restarts == Offset(es, interval, |es|) && count == RestartCount(|es|, interval)
    && restarts + 4 * count <= |block| && block[..restarts] == Data(es, interval, |es|)
    && (forall r :: 0 <= r < count ==> PointIs(block, restarts, r, es, interval))
  }

  ghost predicate PointIs(block: Bytes, restarts: nat, r: nat, es: seq<KeyValue>, interval: nat)
    requires restarts + 4 * r + 4 <= |block| && interval > 0
  {
    First(r, interval) <= |es| && RestartPoint(block, restarts, r) == Offset(es, interval, First(r, interval))
  }

  /** Block::Block: the number of restarts at the end tells where the restart array starts; None marks an error. */
  method OpenBlock(block: Bytes, ghost es: seq<KeyValue>, ghost interval: nat) returns (r: Option<(nat, nat)>)
    ensures IsBlock(block, es, interval) ==> r.Some? && Laid(block, r.value.0, r.value.1, es, interval)
  {
    if |block| < 4 {
      return None;
    }
    var count: nat := DecodeFixed32(block[|block| - 4..]);
    var allowed := (|block| - 4) / 4;
    if IsBlock(block, es, interval) { BlockIsLaid(block, es, interval); }
    if count > allowed {
      return None;
    }
    r := Some((|block| - (1 + count) * 4, count));
  }

  lemma ThreeSlices(a: Bytes, b: Bytes, c: Bytes, x: nat, y: nat)
    requires x <= y <= |b|
    ensures (a + b + c)[..|a|] == a && (a + b + c)[|a| + |b|..] == c
    ensures (a + b + c)[|a| + x..|a| + y] == b[x..y]
  {
  }

  lemma SliceOf(block: Bytes, a: Bytes, b: Bytes, c: Bytes, x: nat, y: nat)
    requires block == a + b + c && x <= y <= |b|
    ensures |a| + y <= |block| && block[|a| + x..|a| + y] == b[x..y]
  {
    ThreeSlices(a, b, c, x, y);
  }

  lemma WordAt(block: Bytes, restarts: nat, r: nat, w: Word)
    requires restarts + 4 * r + 4 <= |block| && block[restarts + 4 * r..restarts + 4 * r + 4] == EncodeFixed32(w)
    ensures RestartPoint(block, restarts, r) == w
  {
  }

  lemma FixedAt(words: seq<Word>, r: nat)
    requires r < |words|
    ensures FixedArray(words)[4 * r..4 * r + 4] == EncodeFixed32(words[r])
  {
    EncodedAt(EncodeFixed32, words, r);
  }

  lemma PointsAreRead(block: Bytes, data: Bytes, words: seq<Word>, last: Bytes, r: nat)
    requires block == data + FixedArray(words) + last && r < |words|
    ensures |data| + 4 * r + 4 <= |block| && RestartPoint(block, |data|, r) == words[r]
  {
    FixedAt(words, r);
    SliceOf(block, data, FixedArray(words), last, 4 * r, 4 * r + 4);
    WordAt(block, |data|, r, words[r]);
  }

  lemma CountIsRead(block: Bytes, front: Bytes, n: Word)
    requires block == front + EncodeFixed32(n)
    ensures |block| >= 4 && DecodeFixed32(block[|block| - 4..]) == n
  {
    assert block[|block| - 4..] == EncodeFixed32(n);
  }

  lemma BlockIsLaid(block: Bytes, es: seq<KeyValue>, interval: nat)
    requires IsBlock(block, es, interval)
    ensures |block| >= 4
    ensures var count := DecodeFixed32(block[|block| - 4..]);
      4 * count + 4 <= |block| && Laid(block, |block| - (1 + count) * 4, count, es, interval)
  {
    var words: seq<Word> :| IsRestarts(words, es, interval) && |words| < 0x1_0000_0000
      && block == Data(es, interval, |es|) + FixedArray(words) + EncodeFixed32(|words|);
    var data, last := Data(es, interval, |es|), EncodeFixed32(|words|);
    CountIsRead(block, data + FixedArray(words), |words|);
    WordsAreLaid(block, data, words, last, es, interval);
  }

  lemma WordsAreLaid(block: Bytes, data: Bytes, words: seq<Word>, last: Bytes, es: seq<KeyValue>, interval: nat)
    requires IsRestarts(words, es, interval) && data == Data(es, interval, |es|) && |last| == 4
    requires block == data + FixedArray(words) + last
    ensures |data| == |block| - (1 + |words|) * 4 && Laid(block, |data|, |words|, es, interval)
  {
    ThreeSlices(data, FixedArray(words), last, 0, 0);
    forall r | 0 <= r < |words| ensures |data| + 4 * r + 4 <= |block| && PointIs(block, |data|, r, es, interval) {
      PointsAreRead(block, data, words, last, r);
    }
  }

  // ----- one entry -----

  /** key_ and value_ after an entry was parsed; the value is block[start..end]. */
  datatype Parsed = Parsed(key: Bytes, start: nat, end: nat)

  function ParseAt(block: Bytes, restarts: nat, offset: nat, key: Bytes): (p: Option<Parsed>)
    requires offset <= restarts <= |block|
    ensures p.Some? ==> p.value.start <= p.value.end <= restarts
  {
    match DecodeEntry(block[offset..restarts])
    case None => None
    case Some(h) =>
      if |key| < h.shared then None
      else
        var p := offset + h.size;
        Some(Parsed(key[..h.shared] + block[p..p + h.nonShared], p + h.nonShared, p + h.nonShared + h.valueLength))
  }

  /** A key from which entry `i` can be rebuilt. */
  ghost predicate Fits(es: seq<KeyValue>, interval: nat, i: nat, key: Bytes)
    requires interval > 0
  {
    i % interval == 0 || (0 < i <= |es| && key == es[i - 1].key)
  }

  lemma EntrySlices(b: Bytes, shared: nat, e: KeyValue)
    requires shared <= |e.key| && b == EntryBytes(shared, e)
    ensures var h := HeaderSize(shared, e);
      && |b| == h + (|e.key| - shared) + |e.value|
      && b[h..h + (|e.key| - shared)] == e.key[shared..] && b[h + (|e.key| - shared)..] == e.value
  {
  }

  lemma SliceOfSlice(block: Bytes, a: nat, b: nat, x: nat, y: nat)
    requires a <= b <= |block| && x <= y <= b - a
    ensures block[a..b][x..y] == block[a + x..a + y]
  {
    forall k | 0 <= k < y - x ensures block[a..b][x..y][k] == block[a + x..a + y][k] {
      assert block[a..b][x + k] == block[a + x + k];
    }
  }

  /** Parsing where an entry starts gives its key and value. */
  lemma ParseBytes(block: Bytes, restarts: nat, a: nat, shared: nat, e: KeyValue, tail: Bytes, key: Bytes)
    requires a <= restarts <= |block| && shared <= |e.key| < 0x1_0000_0000 && |e.value| < 0x1_0000_0000
    requires block[a..restarts] == EntryBytes(shared, e) + tail
    requires shared <= |key| && key[..shared] == e.key[..shared]
    ensures DecodeEntry(block[a..restarts]).Some? && DecodeEntry(block[a..restarts]).value.shared == shared
    ensures var p := ParseAt(block, restarts, a, key);
      p.Some? && p.value.key == e.key && p.value.end == a + |EntryBytes(shared, e)| && block[p.value.start..p.value.end] == e.value
  {
    EntryRoundTrip(shared, e, tail);
    EntrySlices(EntryBytes(shared, e), shared, e);
    ParsePieces(block, restarts, a, key, EntryBytes(shared, e), tail, Header(shared, |e.key| - shared, |e.value|, HeaderSize(shared, e)), e.key[shared..], e.value);
    Rejoined(e.key, shared);
  }

  lemma ParsePieces(block: Bytes, restarts: nat, a: nat, key: Bytes, bytes: Bytes, tail: Bytes, h: Header, k: Bytes, v: Bytes)
    requires a <= restarts <= |block| && block[a..restarts] == bytes + tail && DecodeEntry(block[a..restarts]) == Some(h)
    requires h.shared <= |key| && |bytes| == h.size + h.nonShared + h.valueLength
    requires bytes[h.size..h.size + h.nonShared] == k && bytes[h.size + h.nonShared..] == v
    ensures var p := ParseAt(block, restarts, a, key);
      p.Some? && p.value.key == key[..h.shared] + k && p.value.end == a + |bytes| && block[p.value.start..p.value.end] == v
  {
    EntryPieces(block, restarts, a, bytes, tail, h.size, h.nonShared, k, v);
    ParseWith(block, restarts, a, key, h);
  }

  lemma Rejoined(key: Bytes, n: nat)
    requires n <= |key|
    ensures key[..n] + key[n..] == key
  {
  }

  lemma ParseWith(block: Bytes, restarts: nat, a: nat, key: Bytes, h: Header)
    requires a <= restarts <= |block| && DecodeEntry(block[a..restarts]) == Some(h) && h.shared <= |key|
    ensures var p := a + h.size;
      && p + h.nonShared + h.valueLength <= restarts
      && ParseAt(block, restarts, a, key)
      == Some(Parsed(key[..h.shared] + block[p..p + h.nonShared], p + h.nonShared, p + h.nonShared + h.valueLength))
  {
  }

  lemma EntryPieces(block: Bytes, restarts: nat, a: nat, bytes: Bytes, tail: Bytes, h: nat, m: nat, k: Bytes, v: Bytes)
    requires a <= restarts <= |block| && block[a..restarts] == bytes + tail && h + m <= |bytes|
    requires bytes[h..h + m] == k && bytes[h + m..] == v
    ensures block[a + h..a + h + m] == k && block[a + h + m..a + |bytes|] == v
  {
    SliceOfSlice(block, a, restarts, h, h + m);
    SliceOfSlice(block, a, restarts, h + m, |bytes|);
    assert (bytes + tail)[h..h + m] == bytes[h..h + m] && (bytes + tail)[h + m..|bytes|] == bytes[h + m..];
  }

  /** ... and leads to entry `i + 1`. */
  lemma ParseFindsEntry(block: Bytes, restarts: nat, count: nat, es: seq<KeyValue>, interval: nat, i: nat, key: Bytes)
    requires Laid(block, restarts, count, es, interval) && Sized(es) && i < |es| && Fits(es, interval, i, key)
    ensures Offset(es, interval, i) < Offset(es, interval, i + 1) <= restarts
    ensures var p := ParseAt(block, restarts, Offset(es, interval, i), key);
      p.Some? && p.value.key == es[i].key && p.value.end == Offset(es, interval, i + 1) && block[p.value.start..p.value.end] == es[i].value
    ensures var h := DecodeEntry(block[Offset(es, interval, i)..restarts]);
      h.Some? && h.value.shared == Shared(es, interval, i)
  {
    var a, b, data := Offset(es, interval, i), Offset(es, interval, i + 1), Data(es, interval, |es|);
    EntryInPlace(es, interval, i, data);
    OffsetStep(es, interval, i);
    SplitSlice(block, data, restarts, a, b);
    ParseBytes(block, restarts, a, Shared(es, interval, i), es[i], data[b..], key);
  }

  lemma SplitSlice(block: Bytes, data: Bytes, restarts: nat, a: nat, b: nat)
    requires restarts <= |block| && block[..restarts] == data && a <= b <= restarts
    ensures block[a..restarts] == data[a..b] + data[b..]
  {
  }

  // ----- the iterator -----

  /** Entry `i` lies in the part of the block that restart `r` starts; at a restart either neighbour will do. */
  ghost predicate InRegion(count: nat, interval: nat, r: nat, i: nat) {
    r < count && First(r, interval) <= i && (r + 1 < count ==> i <= First(r + 1, interval))
  }

  /** The first entry that is not before the target. */
  ghost predicate FirstFrom(less: Less, es: seq<KeyValue>, target: Bytes, i: nat) {
    && i <= |es|
    && (forall j :: 0 <= j < i ==> less(es[j].key, target))
    && (i < |es| ==> !less(es[i].key, target))
  }

  /** Where each entry starts, and where the last one ends. */
  ghost predicate IsOffsets(offsets: seq<nat>, es: seq<KeyValue>, interval: nat)
    requires interval > 0
  {
    && |offsets| == |es| + 1
    && (forall i, j :: 0 <= i < j < |offsets| ==> offsets[i] < offsets[j])
    && (forall i {:trigger Offset(es, interval, i)} :: 0 <= i <= |es| ==> offsets[i] == Offset(es, interval, i))
  }

  ghost function OffsetsOf(es: seq<KeyValue>, interval: nat): (offsets: seq<nat>)
    requires interval > 0
    ensures IsOffsets(offsets, es, interval)
  {
    var offsets := seq(|es| + 1, i requires 0 <= i <= |es| => Offset(es, interval, i));
    OffsetsAreOrdered(es, interval, offsets);
    offsets
  }

  lemma OffsetsAreOrdered(es: seq<KeyValue>, interval: nat, offsets: seq<nat>)
    requires interval > 0 && |offsets| == |es| + 1 && forall i :: 0 <= i <= |es| ==> offsets[i] == Offset(es, interval, i)
    ensures forall i, j :: 0 <= i < j < |offsets| ==> offsets[i] < offsets[j]
  {
    forall i, j | 0 <= i < j < |offsets| ensures offsets[i] < offsets[j] { OffsetsAscend(es, interval, i, j); }
  }

  class Iter {
    const block: Bytes
    const restarts: nat
    const count: nat
    const less: Less
    ghost const es: seq<KeyValue>
    ghost const interval: nat
    ghost const offsets: seq<nat>
    var current: nat
    var restartIndex: nat
    var key: Bytes
    /** value_ is block[start..end]; the next entry is at `end`. */
    var start: nat
    var end: nat

    constructor (block: Bytes, restarts: nat, count: nat, less: Less, ghost es: seq<KeyValue>, ghost interval: nat)
      requires Laid(block, restarts, count, es, interval) && Sized(es)
      ensures Okay() && Invalid()
      ensures this.es == es && this.block == block && this.less == less
    {
      this.block, this.restarts, this.count, this.less := block, restarts, count, less;
      this.es, this.interval, this.offsets := es, interval, OffsetsOf(es, interval);
      current, restartIndex, key, start, end := restarts, count, [], 0, 0;
    }

    ghost predicate Okay() {
      && Laid(block, restarts, count, es, interval) && Sized(es)
      && IsOffsets(offsets, es, interval) && restarts == offsets[|es|]
    }

    ghost predicate Invalid()
      reads this
    {
      current == restarts
    }

    /** The iterator shows entry `i`. */
    ghost predicate At(i: nat)
      reads this
    {
      && i < |es| < |offsets| && current == offsets[i] < restarts
      && key == es[i].key && start <= end <= |block| && block[start..end] == es[i].value
      && end == offsets[i + 1] && InRegion(count, interval, restartIndex, i)
    }

    /** The next entry parsed will be entry `i`. */
    ghost predicate Before(i: nat)
      reads this
    {
      && i <= |es| < |offsets| && interval > 0 && end == offsets[i] && Fits(es, interval, i, key)
      && restartIndex < count && First(restartIndex, interval) <= i
    }

    /** GetRestartPoint, compared with where entry `i` starts. */
    method GetRestartPoint(r: nat, ghost i: nat) returns (point: nat)
      requires Okay() && r < count && i <= |es|
      ensures First(r, interval) <= |es| && point == offsets[First(r, interval)]
      ensures point < offsets[i] <==> First(r, interval) < i
    {
      assert PointIs(block, restarts, r, es, interval);
      point := RestartPoint(block, restarts, r);
    }

    method SeekToRestartPoint(r: nat)
      requires Okay() && r < count
      modifies this
      ensures First(r, interval) <= |es| && Before(First(r, interval)) && restartIndex == r
    {
      key, restartIndex := [], r;
      var offset := GetRestartPoint(r, 0);
      start, end := offset, offset;
      MultipleIsRestart(r, interval);
    }

    /** The part of ParseNextKey that decodes an entry. */
    method Decode(ghost i: nat) returns (p: Option<Parsed>)
      requires Okay() && Before(i) && i < |es|
      ensures p.Some? && p.value.key == es[i].key && p.value.end == offsets[i + 1]
      ensures p.value.start <= p.value.end <= |block| && block[p.value.start..p.value.end] == es[i].value
    {
      ParseFindsEntry(block, restarts, count, es, interval, i, key);
      assert offsets[i] == Offset(es, interval, i) && offsets[i + 1] == Offset(es, interval, i + 1);
      p := ParseAt(block, restarts, end, key);
    }

    /** The loop of ParseNextKey that finds the region of the entry. */
    method AdvanceRegion(ghost i: nat)
      requires Okay() && i < |es| && current == offsets[i]
      requires restartIndex < count && First(restartIndex, interval) <= i
      modifies this`restartIndex
      ensures InRegion(count, interval, restartIndex, i)
    {
      while restartIndex + 1 < count
        invariant restartIndex < count && First(restartIndex, interval) <= i
        decreases count - restartIndex
      {
        var point := GetRestartPoint(restartIndex + 1, i);
        if point >= current {
          return;
        }
        restartIndex := restartIndex + 1;
      }
    }

    method ParseNextKey(ghost i: nat) returns (ok: bool)
      requires Okay() && Before(i)
      modifies this
      ensures ok == (i < |es|)
      ensures if ok then At(i) else Invalid()
    {
      current := end;
      if current >= restarts {
        current, restartIndex := restarts, count;
        return false;
      }
      var p := Decode(i);
      if p == None {
        assert false; // CorruptionError is not reached in a block that was built
      }
      key, start, end := p.value.key, p.value.start, p.value.end;
      AdvanceRegion(i);
      ok := true;
    }

    method Next(ghost i: nat)
      requires Okay() && At(i)
      modifies this
      ensures if i + 1 < |es| then At(i + 1) else Invalid()
    {
      var ok := ParseNextKey(i + 1);
    }

    /** key() and value(). */
    method Entry(ghost i: nat) returns (e: KeyValue)
      requires At(i)
      ensures e == es[i]
    {
      e := KeyValue(key, block[start..end]);
    }

    method SeekToFirst()
      requires Okay()
      modifies this
      ensures if |es| > 0 then At(0) else Invalid()
    {
      SeekToRestartPoint(0);
      var ok := ParseNextKey(0);
    }

    /** The last entry: scan from the last restart until the entries end. */
    method SeekToLast()
      requires Okay()
      modifies this
      ensures if |es| > 0 then At(|es| - 1) else Invalid()
    {
      SeekToRestartPoint(count - 1);
      ghost var i := First(count - 1, interval);
      RestartEntry(|es|, interval, count - 1);
      var ok := ParseNextKey(i);
      if ok { ScanToEnd(i); }
    }

    /** The loop of SeekToLast. */
    method ScanToEnd(ghost start: nat)
      requires Okay() && At(start)
      modifies this
      ensures |es| > 0 && At(|es| - 1)
    {
      ghost var i := start;
      while end < restarts
        invariant Okay() && At(i)
        decreases |es| - i
      {
        i := i + 1;
        var ok := ParseNextKey(i);
        assert ok;
      }
    }

    /** The entry before, or none: go back to a restart before it, and scan forward. */
    method Prev(ghost i: nat)
      requires Okay() && At(i)
      modifies this
      ensures if i > 0 then At(i - 1) else Invalid()
    {
      var original := current;
      var found := RestartBefore(i);
      if !found {
        current, restartIndex := restarts, count;
        return;
      }
      SeekToRestartPoint(restartIndex);
      ScanUpTo(original, First(restartIndex, interval), i);
    }

    /** Parses entries until the next one is entry `i`. */
    method ScanUpTo(original: nat, ghost from: nat, ghost i: nat)
      requires Okay() && Before(from) && from < i < |es| && original == offsets[i]
      modifies this
      ensures At(i - 1)
    {
      ghost var j := from;
      var ok := ParseNextKey(j);
      while ok && end < original
        invariant j < i && ok && At(j)
        decreases i - j
      {
        j := j + 1;
        ok := ParseNextKey(j);
      }
      assert j == i - 1;
    }

    /** Scans backwards to a restart point before the current entry. */
    method RestartBefore(ghost i: nat) returns (found: bool)
      requires Okay() && At(i)
      modifies this`restartIndex
      ensures found == (i > 0)
      ensures found ==> restartIndex < count && First(restartIndex, interval) < i
    {
      var point := GetRestartPoint(restartIndex, i);
      while point >= current
        invariant restartIndex < count && First(restartIndex, interval) <= |es|
        invariant point == offsets[First(restartIndex, interval)]
        invariant point < current <==> First(restartIndex, interval) < i
        decreases restartIndex
      {
        if restartIndex == 0 {
          return false;
        }
        restartIndex := restartIndex - 1;
        point := GetRestartPoint(restartIndex, i);
      }
      found := true;
    }

    /** The first entry that is not before the target: binary search in the restarts, then a scan. */
    method Seek(target: Bytes) returns (ghost i: nat)
      requires Okay() && Transitive(less) && Ascending(less, es)
      modifies this
      ensures FirstFrom(less, es, target, i) && if i < |es| then At(i) else Invalid()
    {
      var left := LastRestartBefore(target);
      SeekToRestartPoint(left);
      EarlierAreBefore(less, es, target, First(left, interval));
      i := ScanFrom(target, First(left, interval));
    }

    method ScanFrom(target: Bytes, ghost from: nat) returns (ghost i: nat)
      requires Okay() && Before(from) && forall j :: 0 <= j < from ==> less(es[j].key, target)
      modifies this
      ensures FirstFrom(less, es, target, i) && if i < |es| then At(i) else Invalid()
    {
      i := from;
      var ok := ParseNextKey(i);
      while ok && less(key, target)
        invariant i <= |es| && forall j :: 0 <= j < i ==> less(es[j].key, target)
        invariant ok == (i < |es|)
        invariant if ok then At(i) else Invalid()
        decreases |es| - i
      {
        i := i + 1;
        ok := ParseNextKey(i);
      }
    }

    /** The binary search: the entry at the restart found is before the target, or it is the first restart. */
    method LastRestartBefore(target: Bytes) returns (left: nat)
      requires Okay()
      ensures left < count && First(left, interval) <= |es|
      ensures left == 0 || (First(left, interval) < |es| && less(es[First(left, interval)].key, target))
    {
      left := 0;
      var right := count - 1;
      while left < right
        invariant 0 <= left <= right < count
        invariant left == 0 || (First(left, interval) < |es| && less(es[First(left, interval)].key, target))
        decreases right - left
      {
        var mid := (left + right + 1) / 2;
        var midKey := RestartKey(mid);
        if less(midKey, target) {
          left := mid;
        } else {
          right := mid - 1;
        }
      }
      RestartEntry(|es|, interval, left);
    }

    /** The key at a restart is stored in full. */
    method RestartKey(mid: nat) returns (midKey: Bytes)
      requires Okay() && 0 < mid < count
      ensures First(mid, interval) < |es| && midKey == es[First(mid, interval)].key
    {
      RestartEntry(|es|, interval, mid);
      assert |es| > 0;
      MultipleIsRestart(mid, interval);
      ParseFindsEntry(block, restarts, count, es, interval, First(mid, interval), []);
      var offset := GetRestartPoint(mid, 0);
      var p := ParseAt(block, restarts, offset, []);
      midKey := p.value.key;
    }
  }

  lemma EarlierAreBefore(less: Less, es: seq<KeyValue>, target: Bytes, i: nat)
    requires Transitive(less) && Ascending(less, es) && i <= |es|
    requires i == 0 || (i < |es| && less(es[i].key, target))
    ensures forall j :: 0 <= j < i ==> less(es[j].key, target)
  {
    forall j | 0 <= j < i ensures less(es[j].key, target) {
      assert less(es[j].key, es[i].key);
    }
  }

  lemma MultipleIsRestart(r: nat, interval: nat)
    requires interval > 0
    ensures First(r, interval) % interval == 0
  {
    FirstIsMultiple(r, interval);
    Quotient(First(r, interval), interval, r, 0);
  }

  /** A block built from the entries, unless its offsets or its restarts do not fit in 32 bits. */
  method Build(entries: seq<KeyValue>, interval: nat) returns (block: Option<Bytes>)
    requires interval >= 1
    ensures block.Some? ==> IsBlock(block.value, entries, interval)
    ensures block.Some? <==> Offset(entries, interval, |entries|) < 0x1_0000_0000 && RestartCount(|entries|, interval) < 0x1_0000_0000
  {
    var builder := new Builder(interval);
    AddAll(builder, entries);
    block := FinishIfFits(builder);
  }

  method AddAll(builder: Builder, entries: seq<KeyValue>)
    requires builder.Valid() && builder.es == []
    modifies builder
    ensures builder.Valid() && builder.es == entries
  {
    for n := 0 to |entries|
      invariant builder.Valid() && builder.es == entries[..n]
    {
      builder.Add(entries[n].key, entries[n].value);
      assert KeyValue(entries[n].key, entries[n].value) == entries[n];
    }
    assert entries[..|entries|] == entries;
  }

  method FinishIfFits(builder: Builder) returns (block: Option<Bytes>)
    requires builder.Valid()
    modifies builder
    ensures block.Some? ==> IsBlock(block.value, old(builder.es), builder.interval)
    ensures block.Some? <==> Offset(old(builder.es), builder.interval, |old(builder.es)|) < 0x1_0000_0000
                             && RestartCount(|old(builder.es)|, builder.interval) < 0x1_0000_0000
  {
    if |builder.buffer| >= 0x1_0000_0000 || |builder.restarts| >= 0x1_0000_0000 {
      return None;
    }
    var bytes := builder.Finish();
    block := Some(bytes);
  }

  /** Everything from the front, entry by entry. */
  method Collect(iter: Iter) returns (got: seq<KeyValue>)
    requires iter.Okay() && if |iter.es| > 0 then iter.At(0) else iter.Invalid()
    modifies iter
    ensures got == iter.es
  {
    got := [];
    ghost var i := 0;
    while iter.current < iter.restarts
      invariant i <= |iter.es| && got == iter.es[..i]
      invariant if i < |iter.es| then iter.At(i) else iter.Invalid()
      decreases |iter.es| - i
    {
      var e := iter.Entry(i);
      got := got + [e];
      iter.Next(i);
      i := i + 1;
    }
  }

  /** Iterating a built block from the front yields exactly what went in. */
  method ReadBack(block: Bytes, less: Less, ghost entries: seq<KeyValue>, ghost interval: nat) returns (got: seq<KeyValue>)
    requires IsBlock(block, entries, interval) && Sized(entries)
    ensures got == entries
  {
    var layout := OpenBlock(block, entries, interval);
    var iter := new Iter(block, layout.value.0, layout.value.1, less, entries, interval);
    iter.SeekToFirst();
    got := Collect(iter);
  }
}
