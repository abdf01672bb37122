/** BlockBuilder (table/block_builder.cc) and the block it finishes. */
module BlockBuilder {
  import opened Arithmetic
  import opened Coding
  import opened BlockFormat
  import opened ByteLayout

  /** The entry at restart `r`: every interval-th entry is one. */
  function First(r: nat, interval: nat): nat {
    if r == 0 then 0 else First(r - 1, interval) + interval
  }

  lemma {:induction false} FirstIsMultiple(r: nat, interval: nat)
    ensures First(r, interval) == r * interval
  {
    if r > 0 { FirstIsMultiple(r - 1, interval); }
  }

  /** The entry at a restart exists unless the block is empty. */
  lemma RestartEntry(n: nat, interval: nat, r: nat)
    requires interval > 0 && r < RestartCount(n, interval)
    ensures First(r, interval) <= n && (n > 0 ==> First(r, interval) < n)
  {
    FirstIsMultiple(r, interval);
    if n > 0 {
      var q := (n - 1) / interval;
      assert q * interval <= n - 1;
      MultiplyOrder(r, q, interval);
    }
  }

  lemma MultiplyOrder(r: nat, q: nat, d: nat)
    requires r <= q
    ensures r * d <= q * d
  {
  }

  /** The restart array holds the offsets of every interval-th entry. */
  ghost predicate IsRestarts(points: seq<nat>, es: seq<KeyValue>, interval: nat) {
    && interval > 0 && |points| == RestartCount(|es|, interval)
    && (forall r :: 0 <= r < |points| ==> IsRestart(points[r], es, interval, r))
  }

  function Words(points: seq<nat>): (w: seq<Word>)
    requires forall r :: 0 <= r < |points| ==> points[r] < 0x1_0000_0000
    ensures |w| == |points| && forall r :: 0 <= r < |w| ==> w[r] == points[r]
  {
    seq(|points|, r requires 0 <= r < |points| => points[r])
  }

  lemma {:induction false} DataAppend(es: seq<KeyValue>, e: KeyValue, interval: nat, n: nat)
    requires n <= |es| && interval > 0
    ensures Data(es + [e], interval, n) == Data(es, interval, n)
  {
    if n > 0 { DataAppend(es, e, interval, n - 1); }
  }

  /** The counter of entries since the last restart. */
  lemma CounterStep(n: nat, interval: nat)
    requires interval > 0 && n > 0
    ensures n % interval == 0 <==> (n - 1) % interval + 1 == interval
    ensures n % interval == 0 ==> RestartCount(n + 1, interval) == RestartCount(n, interval) + 1 && RestartCount(n, interval) * interval == n
    ensures n % interval != 0 ==> RestartCount(n + 1, interval) == RestartCount(n, interval) && n % interval == (n - 1) % interval + 1
  {
    var q, m := (n - 1) / interval, (n - 1) % interval;
    assert n - 1 == q * interval + m;
    if m + 1 == interval {
      assert n == (q + 1) * interval;
      Quotient(n, interval, q + 1, 0);
    } else {
      Quotient(n, interval, q, m + 1);
    }
  }

  /** Entries since the last restart, the restart included. */
  ghost function SinceRestart(n: nat, interval: nat): nat
    requires interval > 0
  {
    if n == 0 then 0 else (n - 1) % interval + 1
  }

  lemma CounterAdds(n: nat, interval: nat)
    requires interval > 0
    ensures SinceRestart(n, interval) < interval <==> !(n > 0 && n % interval == 0)
    ensures SinceRestart(n + 1, interval) == if SinceRestart(n, interval) < interval then SinceRestart(n, interval) + 1 else 1
  {
    if n > 0 { CounterStep(n, interval); }
  }

  /** The finished block: entries, restart array, number of restarts. */
  ghost predicate IsBlock(block: Bytes, es: seq<KeyValue>, interval: nat) {
    exists words: seq<Word> ::
      && IsRestarts(words, es, interval) && |words| < 0x1_0000_0000
      && block == Data(es, interval, |es|) + FixedArray(words) + EncodeFixed32(|words|)
  }

  ghost function LastKey(es: seq<KeyValue>): Bytes {
    if es == [] then [] else es[|es| - 1].key
  }

  /** The state of a builder after these entries. */
  ghost predicate Built(es: seq<KeyValue>, interval: nat, buffer: Bytes, restarts: seq<nat>, counter: nat, lastKey: Bytes) {
    && interval > 0 && buffer == Data(es, interval, |es|)
    && IsRestarts(restarts, es, interval)
    && counter == SinceRestart(|es|, interval)
    && lastKey == LastKey(es)
  }

  class Builder {
    const interval: nat
    var buffer: Bytes
    var restarts: seq<nat>
    var counter: nat
    var lastKey: Bytes
    /** What was added so far. */
    ghost var es: seq<KeyValue>

    constructor (interval: nat)
      requires interval >= 1
      ensures Valid() && es == [] && this.interval == interval
    {
      this.interval := interval;
      buffer, restarts, counter, lastKey := [], [0], 0, [];
      es := [];
    }

    ghost predicate Valid()
      reads this
    {
      Built(es, interval, buffer, restarts, counter, lastKey)
    }

    /** The block whose entries are exactly what was added; offsets are 32-bit numbers. */
    method Finish() returns (block: Bytes)
      requires Valid() && |buffer| < 0x1_0000_0000 && |restarts| < 0x1_0000_0000
      modifies this`buffer
      ensures IsBlock(block, es, interval)
    {
      PointsFit(restarts, es, interval);
      var words := Words(restarts);
      AppendWords(words);
      buffer := buffer + EncodeFixed32(|restarts|);
      block := buffer;
      assert IsRestarts(words, es, interval);
    }

    method AppendWords(words: seq<Word>)
      modifies this`buffer
      ensures buffer == old(buffer) + FixedArray(words)
    {
      for i := 0 to |words|
        invariant buffer == old(buffer) + FixedArray(words[..i])
      {
        FixedArraySnoc(words, i);
        buffer := buffer + EncodeFixed32(words[i]);
      }
      assert words[..|words|] == words;
    }

    /** The loop of Add that measures the shared prefix. */
    method SharedPrefix(key: Bytes) returns (shared: nat)
      ensures shared == Common(lastKey, key)
    {
      shared := 0;
      while shared < |lastKey| && shared < |key| && lastKey[shared] == key[shared]
        invariant shared <= |lastKey| && shared <= |key|
        invariant Common(lastKey, key) == shared + Common(lastKey[shared..], key[shared..])
      {
        assert lastKey[shared..][1..] == lastKey[shared + 1..] && key[shared..][1..] == key[shared + 1..];
        shared := shared + 1;
      }
    }

    method AppendEntry(shared: nat, key: Bytes, value: Bytes)
      requires shared <= |key|
      modifies this`buffer
      ensures buffer == old(buffer) + EntryBytes(shared, KeyValue(key, value))
    {
      var numbers := PutVarint(shared) + PutVarint(|key| - shared) + PutVarint(|value|);
      buffer := buffer + numbers;
      buffer := buffer + key[shared..];
      buffer := buffer + value;
      assert buffer == old(buffer) + (numbers + key[shared..] + value);
    }

    /** The entry is appended, compressed against the one before unless it restarts. */
    method Add(key: Bytes, value: Bytes)
      requires Valid()
      modifies this
      ensures Valid() && es == old(es) + [KeyValue(key, value)]
    {
      ghost var e := KeyValue(key, value);
      var shared := ShareOrRestart(key);
      BuiltStep(es, e, interval, buffer, old(restarts), old(counter), lastKey, shared, restarts);
      lastKey := lastKey[..shared] + key[shared..];
      counter := counter + 1;
      AppendEntry(shared, key, value);
      es := es + [e];
    }

    /** The first part of Add: a full interval starts a new restart point. */
    method ShareOrRestart(key: Bytes) returns (shared: nat)
      requires Valid()
      modifies this`restarts, this`counter
      ensures restarts == if |es| > 0 && |es| % interval == 0 then old(restarts) + [|buffer|] else old(restarts)
      ensures shared == if |es| > 0 && |es| % interval == 0 then 0 else Common(lastKey, key)
      ensures counter + 1 == SinceRestart(|es| + 1, interval)
    {
      CounterAdds(|es|, interval);
      shared := 0;
      if counter < interval {
        shared := SharedPrefix(key);
      } else {
        restarts := restarts + [|buffer|];
        counter := 0;
      }
    }
  }

  lemma PointsFit(points: seq<nat>, es: seq<KeyValue>, interval: nat)
    requires IsRestarts(points, es, interval) && Offset(es, interval, |es|) < 0x1_0000_0000
    ensures forall r :: 0 <= r < |points| ==> points[r] < 0x1_0000_0000
  {
    forall r | 0 <= r < |points| ensures points[r] < 0x1_0000_0000 {
      assert IsRestart(points[r], es, interval, r);
      OffsetsAscend(es, interval, First(r, interval), |es|);
    }
  }

  lemma FixedArraySnoc(words: seq<Word>, i: nat)
    requires i < |words|
    ensures FixedArray(words[..i + 1]) == FixedArray(words[..i]) + EncodeFixed32(words[i])
  {
    assert words[..i + 1][..i] == words[..i];
  }

  lemma AddRestarts(es: seq<KeyValue>, e: KeyValue, interval: nat, before: seq<nat>, after: seq<nat>)
    requires IsRestarts(before, es, interval)
    requires after == if |es| > 0 && |es| % interval == 0 then before + [Offset(es, interval, |es|)] else before
    ensures IsRestarts(after, es + [e], interval)
  {
    if |es| > 0 { CounterStep(|es|, interval); }
    assert |after| == RestartCount(|es| + 1, interval);
    forall r | 0 <= r < |after| ensures IsRestart(after[r], es + [e], interval, r) {
      if r < |before| {
        assert IsRestart(before[r], es, interval, r);
        RestartStays(before[r], es, e, interval, r);
      } else {
        NewRestart(es, e, interval, r);
      }
    }
  }

  lemma RestartStays(point: nat, es: seq<KeyValue>, e: KeyValue, interval: nat, r: nat)
    requires interval > 0 && IsRestart(point, es, interval, r)
    ensures IsRestart(point, es + [e], interval, r)
  {
    DataAppend(es, e, interval, First(r, interval));
  }

  lemma NewRestart(es: seq<KeyValue>, e: KeyValue, interval: nat, r: nat)
    requires interval > 0 && r * interval == |es|
    ensures IsRestart(Offset(es, interval, |es|), es + [e], interval, r)
  {
    FirstIsMultiple(r, interval);
    DataAppend(es, e, interval, |es|);
  }

  lemma AddData(es: seq<KeyValue>, e: KeyValue, interval: nat, shared: nat)
    requires interval > 0 && shared == Shared(es + [e], interval, |es|) && shared <= |e.key|
    ensures Data(es + [e], interval, |es| + 1) == Data(es, interval, |es|) + EntryBytes(shared, e)
  {
    DataAppend(es, e, interval, |es|);
  }

  lemma BuiltStep(es: seq<KeyValue>, e: KeyValue, interval: nat, buffer: Bytes, restarts: seq<nat>, counter: nat, lastKey: Bytes, shared: nat, restarts': seq<nat>)
    requires Built(es, interval, buffer, restarts, counter, lastKey)
    requires restarts' == if |es| > 0 && |es| % interval == 0 then restarts + [|buffer|] else restarts
    requires shared == if |es| > 0 && |es| % interval == 0 then 0 else Common(lastKey, e.key)
    ensures shared <= |lastKey| && shared <= |e.key| && lastKey[..shared] + e.key[shared..] == e.key
    ensures Built(es + [e], interval, buffer + EntryBytes(shared, e), restarts', SinceRestart(|es| + 1, interval), e.key)
  {
    AddRestarts(es, e, interval, restarts, restarts');
    AddShared(es, e, interval, shared, lastKey);
    AddData(es, e, interval, shared);
  }

  lemma AddShared(es: seq<KeyValue>, e: KeyValue, interval: nat, shared: nat, lastKey: Bytes)
    requires interval > 0 && lastKey == LastKey(es)
    requires shared == if |es| > 0 && |es| % interval == 0 then 0 else Common(lastKey, e.key)
    ensures shared == Shared(es + [e], interval, |es|) && shared <= |lastKey| && shared <= |e.key|
    ensures lastKey[..shared] + e.key[shared..] == e.key
  {
    assert e.key == e.key[..shared] + e.key[shared..];
    assert |es| == 0 ==> |es| % interval == 0;
  }

  // ----- the layout, in numbers -----

  /** The entries, four bytes for each restart point, four bytes for their number. */
  ghost predicate IsBlockLayout(block: Bytes, es: seq<KeyValue>, interval: nat) {
    exists words: seq<Word> ::
      && RestartsAt(words, es, interval) && |words| < 0x1_0000_0000
      && Laid(block, DataParts(es, interval, |es|) + WordParts(words) + [Fixed(4, |words|)])
  }

  /** Every `interval`-th entry is a restart point, and the start of an empty block. */
  ghost predicate RestartsAt(words: seq<Word>, es: seq<KeyValue>, interval: nat) {
    && interval > 0 && |words| == (if es == [] then 1 else (|es| - 1) / interval + 1)
    && forall r :: 0 <= r < |words| ==> RestartsWith(words[r], es, interval, r * interval)
  }

  ghost predicate RestartsWith(word: Word, es: seq<KeyValue>, interval: nat, i: nat)
    requires interval > 0
  {
    i <= |es| && word == |Data(es, interval, i)|
  }

  function DataParts(es: seq<KeyValue>, interval: nat, n: nat): seq<Part>
    requires n <= |es| && interval > 0
  {
    if n == 0 then [] else DataParts(es, interval, n - 1) + EntryParts(Shared(es, interval, n - 1), es[n - 1])
  }

  lemma {:induction false} DataIsParts(es: seq<KeyValue>, interval: nat, n: nat)
    requires n <= |es| && interval > 0
    ensures PutParts(DataParts(es, interval, n)) == Data(es, interval, n)
    ensures forall i :: 0 <= i < |DataParts(es, interval, n)| ==> Fits(DataParts(es, interval, n)[i])
    decreases n
  {
    if n > 0 {
      DataIsParts(es, interval, n - 1);
      EntryIsParts(Shared(es, interval, n - 1), es[n - 1]);
      PutConcat(DataParts(es, interval, n - 1), EntryParts(Shared(es, interval, n - 1), es[n - 1]));
    }
  }

  lemma RestartsAre(words: seq<Word>, es: seq<KeyValue>, interval: nat)
    ensures IsRestarts(words, es, interval) <==> RestartsAt(words, es, interval)
  {
    if interval > 0 {
      forall r | 0 <= r < |words|
        ensures First(r, interval) == r * interval && (RestartsWith(words[r], es, interval, r * interval) <==> IsRestart(words[r], es, interval, r))
      {
        FirstIsMultiple(r, interval);
      }
    }
  }

  ghost predicate IsRestart(point: nat, es: seq<KeyValue>, interval: nat, r: nat)
    requires interval > 0
  {
    First(r, interval) <= |es| && point == Offset(es, interval, First(r, interval))
  }

  lemma BlockParts(es: seq<KeyValue>, interval: nat, words: seq<Word>, block: Bytes)
    requires interval > 0 && |words| < 0x1_0000_0000
    ensures block == Data(es, interval, |es|) + FixedArray(words) + EncodeFixed32(|words|)
            <==> Laid(block, DataParts(es, interval, |es|) + WordParts(words) + [Fixed(4, |words|)])
  {
    var data, tail := DataParts(es, interval, |es|), WordParts(words);
    DataIsParts(es, interval, |es|);
    WordsAreParts(words);
    CountIsPart(|words|);
    PutConcat(data, tail);
    PutConcat(data + tail, [Fixed(4, |words|)]);
    LaidIff(block, data + tail + [Fixed(4, |words|)]);
  }

  lemma CountIsPart(n: Word)
    ensures PutParts([Fixed(4, n)]) == EncodeFixed32(n) && Fits(Fixed(4, n))
  {
    WordsAreParts([n]);
    assert [n][..0] == [];
    assert WordParts([n]) == [] + [Fixed(4, n)];
    assert FixedArray([n]) == [] + EncodeFixed32(n);
    assert WordParts([n])[0] == Fixed(4, n);
  }

  lemma BlockLayout(block: Bytes, es: seq<KeyValue>, interval: nat)
    requires interval > 0
    ensures IsBlock(block, es, interval) <==> IsBlockLayout(block, es, interval)
  {
    if IsBlock(block, es, interval) {
      var words: seq<Word> :| IsRestarts(words, es, interval) && |words| < 0x1_0000_0000
        && block == Data(es, interval, |es|) + FixedArray(words) + EncodeFixed32(|words|);
      RestartsAre(words, es, interval);
      BlockParts(es, interval, words, block);
    }
    if IsBlockLayout(block, es, interval) {
      var words: seq<Word> :| RestartsAt(words, es, interval) && |words| < 0x1_0000_0000
        && Laid(block, DataParts(es, interval, |es|) + WordParts(words) + [Fixed(4, |words|)]);
      RestartsAre(words, es, interval);
      BlockParts(es, interval, words, block);
    }
  }
}
