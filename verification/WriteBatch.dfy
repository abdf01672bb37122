/**
 WriteBatch (db/write_batch.cc): operations appended to a buffer with a
 sequence number and a count in front, and read back in order.
 */
module WriteBatch {
  import opened Options
  import opened Coding
  import opened ByteLayout
  import VersionEdit

  datatype Op = Put(key: Bytes, value: Bytes) | Delete(key: Bytes)

  const kHeader: nat := 12

  /** Writing and reading length-prefixed strings. */
  datatype Slices = Slices(put: Bytes -> Bytes, get: Bytes -> Option<(Bytes, Bytes)>)

  ghost predicate Lawful(c: Slices) {
    && (forall s, tail: Bytes :: |s| < VersionEdit.Word32 ==> c.get(c.put(s) + tail) == Some((s, tail)))
    && Consumes(c)
  }

  ghost predicate Consumes(c: Slices) {
    forall b :: c.get(b).Some? ==> |c.get(b).value.1| < |b|
  }

  function PutOp(c: Slices, op: Op): Bytes {
    match op
    case Put(key, value) => [1] + (c.put(key) + c.put(value))
    case Delete(key) => [0] + c.put(key)
  }

  /** Records one after the other. */
  function PutAll(put: Op -> Bytes, ops: seq<Op>): Bytes {
    if ops == [] then [] else put(ops[0]) + PutAll(put, ops[1..])
  }

  function PutOps(c: Slices, ops: seq<Op>): Bytes {
    PutAll(op => PutOp(c, op), ops)
  }

  lemma {:induction false} PutAllConcat(put: Op -> Bytes, a: seq<Op>, b: seq<Op>)
    ensures PutAll(put, a + b) == PutAll(put, a) + PutAll(put, b)
    decreases |a|
  {
    if a == [] {
      assert a + b == b;
    } else {
      PutAllConcat(put, a[1..], b);
      assert (a + b)[1..] == a[1..] + b;
    }
  }

  lemma PutAllOne(put: Op -> Bytes, op: Op)
    ensures PutAll(put, [op]) == put(op)
  {
    assert PutAll(put, [op][1..]) == [];
  }

  ghost predicate OpFits(op: Op) {
    |op.key| < VersionEdit.Word32 && (op.Put? ==> |op.value| < VersionEdit.Word32)
  }

  /** The record after its tag byte. */
  function TakeOp(c: Slices, tag: Byte, b: Bytes): (r: Option<(Op, Bytes)>)
    requires Consumes(c)
    ensures r.Some? ==> |r.value.1| < |b|
  {
    if tag > 1 then None
    else
      var key := c.get(b);
      if key == None then None
      else if tag == 0 then Some((Delete(key.value.0), key.value.1))
      else
        var value := c.get(key.value.1);
        if value == None then None else Some((Put(key.value.0, value.value.0), value.value.1))
  }

  /** What a handler of Iterate is called with, and whether all input made sense. */
  datatype Iterated = Iterated(ops: seq<Op>, ok: bool)

  function IterateOps(c: Slices, before: seq<Op>, b: Bytes): Iterated
    requires Consumes(c)
    decreases |b|
  {
    if b == [] then Iterated(before, true)
    else
      match TakeOp(c, b[0], b[1..])
      case None => Iterated(before, false)
      case Some((op, rest)) => IterateOps(c, before + [op], rest)
  }

  lemma OpRoundTrip(c: Slices, op: Op, tail: Bytes)
    requires Lawful(c) && OpFits(op)
    ensures var b := PutOp(c, op) + tail;
      TakeOp(c, b[0], b[1..]) == Some((op, tail))
  {
    var b := PutOp(c, op) + tail;
    if op.Put? {
      assert b[1..] == c.put(op.key) + (c.put(op.value) + tail);
    } else {
      assert b[1..] == c.put(op.key) + tail;
    }
  }

  /** Iterating what was appended gives the operations back, in order. */
  lemma {:induction false} OpsRoundTrip(c: Slices, before: seq<Op>, ops: seq<Op>)
    requires Lawful(c) && forall i :: 0 <= i < |ops| ==> OpFits(ops[i])
    ensures IterateOps(c, before, PutOps(c, ops)) == Iterated(before + ops, true)
    decreases |ops|
  {
    if ops == [] {
      assert before + ops == before;
    } else {
      var op, rest := ops[0], ops[1..];
      assert PutOps(c, ops) == PutOp(c, op) + PutOps(c, rest);
      OpRoundTrip(c, op, PutOps(c, rest));
      OpsRoundTrip(c, before + [op], rest);
      assert before + [op] + rest == before + ops;
    }
  }

  lemma PutOpsConcat(c: Slices, a: seq<Op>, b: seq<Op>)
    ensures PutOps(c, a + b) == PutOps(c, a) + PutOps(c, b)
  {
    PutAllConcat(op => PutOp(c, op), a, b);
  }

  lemma PutOpsSnoc(c: Slices, ops: seq<Op>, op: Op)
    ensures PutOps(c, ops + [op]) == PutOps(c, ops) + PutOp(c, op)
  {
    PutOpsConcat(c, ops, [op]);
    PutAllOne(x => PutOp(c, x), op);
  }

  /** The whole buffer of a batch. */
  ghost function Rep(c: Slices, sequence: nat, ops: seq<Op>): Bytes {
    Header(sequence, |ops|) + PutOps(c, ops)
  }

  lemma Longer(h: Bytes, a: Bytes, b: Bytes)
    ensures h + a + b == h + (a + b)
  {
  }

  const Real: Slices := Slices((s: Bytes) => VersionEdit.PutLengthPrefixedSlice(s), (b: Bytes) => VersionEdit.GetLengthPrefixedSlice(b))

  lemma RealIsLawful()
    ensures Lawful(Real)
  {
    forall s: Bytes, tail: Bytes | |s| < VersionEdit.Word32 ensures Real.get(Real.put(s) + tail) == Some((s, tail)) {
      VersionEdit.SliceRoundTrip(s, tail);
    }
  }

  // ----- the layout, in numbers -----

  /** A put is a byte 1, the key and the value, each behind its length; a deletion is a byte 0 and the key. */
  function RecordParts(op: Op): seq<Part> {
    match op
    case Put(key, value) => [Raw([1]), Slice(key), Slice(value)]
    case Delete(key) => [Raw([0]), Slice(key)]
  }

  lemma SliceIsPart(s: Bytes)
    ensures Real.put(s) == PutPart(Slice(s))
  {
  }

  lemma RecordLayout(op: Op, b: Bytes)
    ensures b == PutOp(Real, op) <==> Laid(b, RecordParts(op))
  {
    SliceIsPart(op.key);
    if op.Put? {
      SliceIsPart(op.value);
      PutThree(Raw([1]), Slice(op.key), Slice(op.value));
    } else {
      PutTwo(Raw([0]), Slice(op.key));
    }
    LaidIff(b, RecordParts(op));
  }

  /** All records in the order in which they were added. */
  function RecordsParts(ops: seq<Op>): seq<Part> {
    if ops == [] then [] else RecordParts(ops[0]) + RecordsParts(ops[1..])
  }

  lemma {:induction false} RecordsAreParts(ops: seq<Op>)
    ensures PutOps(Real, ops) == PutParts(RecordsParts(ops)) && forall i :: 0 <= i < |RecordsParts(ops)| ==> !RecordsParts(ops)[i].Fixed?
    decreases |ops|
  {
    if ops != [] {
      var op := ops[0];
      RecordsAreParts(ops[1..]);
      RecordLayout(op, PutOp(Real, op));
      LaidIsPut(PutOp(Real, op), RecordParts(op));
      PutConcat(RecordParts(op), RecordsParts(ops[1..]));
      assert PutOps(Real, ops) == PutOp(Real, op) + PutOps(Real, ops[1..]);
    }
  }

  /** Eight bytes of sequence number, four bytes of count, and the records. */
  function BatchParts(sequence: nat, ops: seq<Op>): seq<Part> {
    [Fixed(8, sequence), Fixed(4, |ops|)] + RecordsParts(ops)
  }

  lemma BatchLayout(sequence: nat, ops: seq<Op>, b: Bytes)
    requires sequence < 0x1_0000_0000_0000_0000 && |ops| < 0x1_0000_0000
    ensures b == Rep(Real, sequence, ops) <==> Laid(b, BatchParts(sequence, ops))
  {
    RecordsAreParts(ops);
    PutTwo(Fixed(8, sequence), Fixed(4, |ops|));
    PutConcat([Fixed(8, sequence), Fixed(4, |ops|)], RecordsParts(ops));
    assert Power256(4) == 0x1_0000_0000;
    assert Power256(8) == 256 * 256 * 256 * 256 * Power256(4);
    LaidIff(b, BatchParts(sequence, ops));
  }

  /** The header: an 8-byte sequence number and a 4-byte count. */
  function Header(sequence: nat, count: nat): (h: Bytes)
    ensures |h| == kHeader
  {
    PutFixed(sequence, 8) + PutFixed(count, 4)
  }

  lemma CountIsRead(sequence: nat, count: nat, body: Bytes)
    requires count < 0x1_0000_0000
    ensures GetFixed((Header(sequence, count) + body)[8..], 4) == count && (Header(sequence, count) + body)[kHeader..] == body
  {
    assert (Header(sequence, count) + body)[8..] == PutFixed(count, 4) + body;
    assert Power256(4) == 0x1_0000_0000;
    FixedRoundTrip(count, 4, body);
  }

  lemma SplitHeader(a: Bytes, b: Bytes, body: Bytes)
    ensures (a + b + body)[..|a|] == a && (a + b + body)[|a|..] == b + body && (a + b + body)[|a| + |b|..] == body
  {
  }

  /** Overwriting the sequence number. */
  lemma HeaderParts(sequence: nat, s: nat, count: nat, body: Bytes)
    ensures PutFixed(s, 8) + (Header(sequence, count) + body)[8..] == Header(s, count) + body
  {
    SplitHeader(PutFixed(sequence, 8), PutFixed(count, 4), body);
    assert PutFixed(s, 8) + (PutFixed(count, 4) + body) == PutFixed(s, 8) + PutFixed(count, 4) + body;
  }

  /** Overwriting the count. */
  lemma CountParts(sequence: nat, count: nat, n: nat, body: Bytes)
    ensures var rep := Header(sequence, count) + body;
      rep[..8] + PutFixed(n, 4) + rep[12..] == Header(sequence, n) + body
  {
    SplitHeader(PutFixed(sequence, 8), PutFixed(count, 4), body);
  }

  class Batch {
    const slices: Slices
    var rep: Bytes
    ghost var ops: seq<Op>
    ghost var sequence: nat

    constructor (slices: Slices)
      ensures Valid() && ops == [] && this.slices == slices
    {
      this.slices := slices;
      rep := Header(0, 0);
      ops, sequence := [], 0;
      new;
      assert rep == Header(0, 0) + PutOps(slices, []);
    }

    ghost predicate Valid()
      reads this
    {
      rep == Rep(slices, sequence, ops)
    }

    method SetCount(n: nat, ghost old_: nat, ghost body: Bytes)
      requires rep == Header(sequence, old_) + body
      modifies this`rep
      ensures rep == Header(sequence, n) + body
    {
      CountParts(sequence, old_, n, body);
      rep := rep[..8] + PutFixed(n, 4) + rep[12..];
    }

    method Count() returns (n: nat)
      requires Valid() && |ops| < 0x1_0000_0000
      ensures n == |ops|
    {
      CountIsRead(sequence, |ops|, PutOps(slices, ops));
      n := GetFixed(rep[8..], 4);
    }

    method SetSequence(s: nat)
      requires Valid()
      modifies this
      ensures Valid() && sequence == s && ops == old(ops)
    {
      HeaderParts(sequence, s, |ops|, PutOps(slices, ops));
      rep := PutFixed(s, 8) + rep[8..];
      sequence := s;
    }

    method Add(op: Op)
      requires Valid() && |ops| < 0xffff_ffff
      modifies this
      ensures Valid() && ops == old(ops) + [op] && sequence == old(sequence)
    {
      var n := Count();
      SetCount(n + 1, |ops|, PutOps(slices, ops));
      PutOpsSnoc(slices, ops, op);
      Longer(Header(sequence, n + 1), PutOps(slices, ops), PutOp(slices, op));
      rep := rep + PutOp(slices, op);
      ops := ops + [op];
    }

    /** WriteBatchInternal::Append: the operations of the other batch follow. */
    method Append(src: Batch)
      requires src != this && Valid() && src.Valid() && src.slices == slices && |ops| + |src.ops| < 0x1_0000_0000
      modifies this
      ensures Valid() && ops == old(ops) + src.ops && sequence == old(sequence)
    {
      var m := Count();
      var n := src.Count();
      SetCount(m + n, |ops|, PutOps(slices, ops));
      PutOpsConcat(slices, ops, src.ops);
      CountIsRead(src.sequence, |src.ops|, PutOps(slices, src.ops));
      Longer(Header(sequence, m + n), PutOps(slices, ops), PutOps(slices, src.ops));
      rep := rep + src.rep[kHeader..];
      ops := ops + src.ops;
    }

    /**
     On any buffer the handler is called with the operations up to where the input stops
     making sense, and the status says whether it all did and the count is right. A
     batch that was built calls it with exactly what was added, in order, and succeeds.
     */
    method Iterate() returns (found: seq<Op>, ok: bool)
      requires Consumes(slices)
      ensures |rep| < kHeader ==> !ok && found == []
      ensures |rep| >= kHeader ==>
        var all := IterateOps(slices, [], rep[kHeader..]);
        found == all.ops && ok == (all.ok && |found| == GetFixed(rep[8..], 4))
      ensures Valid() && Lawful(slices) && |ops| < 0x1_0000_0000 && (forall i :: 0 <= i < |ops| ==> OpFits(ops[i])) ==> ok && found == ops
    {
      BuiltIterates();
      found := [];
      if |rep| < kHeader {
        return [], false;
      }
      var input := rep[kHeader..];
      while input != []
        invariant IterateOps(slices, found, input) == IterateOps(slices, [], rep[kHeader..])
        decreases |input|
      {
        var r := TakeOp(slices, input[0], input[1..]);
        if r == None {
          return found, false;
        }
        found, input := found + [r.value.0], r.value.1;
      }
      ok := |found| == GetFixed(rep[8..], 4);
    }

    /** The buffer of a batch that was built. */
    lemma BuiltIterates()
      requires Consumes(slices)
      ensures Valid() && Lawful(slices) && |ops| < 0x1_0000_0000 && (forall i :: 0 <= i < |ops| ==> OpFits(ops[i])) ==>
        && |rep| >= kHeader && GetFixed(rep[8..], 4) == |ops|
        && IterateOps(slices, [], rep[kHeader..]) == Iterated(ops, true)
    {
      if Valid() && Lawful(slices) && |ops| < 0x1_0000_0000 && (forall i :: 0 <= i < |ops| ==> OpFits(ops[i])) {
        CountIsRead(sequence, |ops|, PutOps(slices, ops));
        OpsRoundTrip(slices, [], ops);
        assert [] + ops == ops;
      }
    }
  }
}
