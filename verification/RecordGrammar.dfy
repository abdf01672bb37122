/**
 What the decoders of manifest records and write batches accept, for any bytes: exactly the
 records of a grammar whose tokens are varints and strings behind their lengths.
 */
module RecordGrammar {
  import opened Options
  import opened Coding
  import opened Numerals
  import opened VersionEdit
  import WriteBatch

  // ----- tokens -----

  /** A varint may have leading zeros; what is above 32 or 64 bits is lost. */
  datatype Token = Octet(byte: Byte) | Word(value: nat) | Long(value: nat) | Text(bytes: Bytes)

  ghost predicate Spells(b: Bytes, t: Token) {
    match t
    case Octet(x) => b == [x]
    case Word(v) => |b| <= 5 && Terminated(b) && Base128(b) % 0x1_0000_0000 == v
    case Long(v) => |b| <= 10 && Terminated(b) && Base128(b) % 0x1_0000_0000_0000_0000 == v
    case Text(s) => exists k :: 0 <= k <= |b| && |b[..k]| <= 5 && Terminated(b[..k]) && Base128(b[..k]) % 0x1_0000_0000 == |s| && b[k..] == s
  }

  /** These tokens stand in front of `rest`. */
  ghost predicate Front(b: Bytes, ts: seq<Token>, rest: Bytes)
    decreases |ts|
  {
    if ts == [] then b == rest
    else exists k :: 0 < k <= |b| && Spells(b[..k], ts[0]) && Front(b[k..], ts[1..], rest)
  }

  // ----- readers of tokens -----

  lemma WordRead(b: Bytes, k: nat)
    ensures 0 < k <= |b| && k <= 5 && Terminated(b[..k]) ==> TakeWord(b) == Some((Base128(b[..k]) % 0x1_0000_0000, b[k..]))
    ensures TakeWord(b).Some? ==> exists m :: 0 < m <= |b| && m <= 5 && Terminated(b[..m])
  {
    VarintMeans(b, 5, k);
  }

  lemma LongRead(b: Bytes, k: nat)
    ensures 0 < k <= |b| && k <= 10 && Terminated(b[..k]) ==> TakeLong(b) == Some((Base128(b[..k]) % 0x1_0000_0000_0000_0000, b[k..]))
    ensures TakeLong(b).Some? ==> exists m :: 0 < m <= |b| && m <= 10 && Terminated(b[..m])
  {
    VarintMeans(b, 10, k);
  }

  /** The reader finds a word exactly where one is spelled, and there is only one to find. */
  lemma WordIs(b: Bytes, v: nat, k: nat)
    ensures 0 < k <= |b| && Spells(b[..k], Word(v)) ==> TakeWord(b) == Some((v, b[k..]))
    ensures TakeWord(b).Some? ==> exists m :: 0 < m <= |b| && b[m..] == TakeWord(b).value.1 && Spells(b[..m], Word(TakeWord(b).value.0))
  {
    WordRead(b, k);
    if TakeWord(b).Some? {
      var m :| 0 < m <= |b| && m <= 5 && Terminated(b[..m]);
      WordRead(b, m);
    }
  }

  lemma LongIs(b: Bytes, v: nat, k: nat)
    ensures 0 < k <= |b| && Spells(b[..k], Long(v)) ==> TakeLong(b) == Some((v, b[k..]))
    ensures TakeLong(b).Some? ==> exists m :: 0 < m <= |b| && b[m..] == TakeLong(b).value.1 && Spells(b[..m], Long(TakeLong(b).value.0))
  {
    LongRead(b, k);
    if TakeLong(b).Some? {
      var m :| 0 < m <= |b| && m <= 10 && Terminated(b[..m]);
      LongRead(b, m);
    }
  }

  lemma SlicesJoin(b: Bytes, k: nat, m: nat)
    requires k <= m <= |b|
    ensures b[..m][..k] == b[..k] && b[..m][k..] == b[k..m] && b[k..][..m - k] == b[k..m] && b[k..][m - k..] == b[m..]
  {
  }

  lemma TextFound(b: Bytes, s: Bytes, m: nat)
    requires 0 < m <= |b| && Spells(b[..m], Text(s))
    ensures GetLengthPrefixedSlice(b) == Some((s, b[m..]))
  {
    var t := b[..m];
    var k :| 0 <= k <= |t| && |t[..k]| <= 5 && Terminated(t[..k]) && Base128(t[..k]) % 0x1_0000_0000 == |s| && t[k..] == s;
    SlicesJoin(b, k, m);
    WordRead(b, k);
  }

  lemma TextIs(b: Bytes, s: Bytes, k: nat)
    ensures 0 < k <= |b| && Spells(b[..k], Text(s)) ==> GetLengthPrefixedSlice(b) == Some((s, b[k..]))
    ensures var r := GetLengthPrefixedSlice(b);
      r.Some? ==> exists m :: 0 < m <= |b| && b[m..] == r.value.1 && Spells(b[..m], Text(r.value.0))
  {
    if 0 < k <= |b| && Spells(b[..k], Text(s)) { TextFound(b, s, k); }
    var r := GetLengthPrefixedSlice(b);
    if r.Some? {
      WordRead(b, 0);
      var n :| 0 < n <= |b| && n <= 5 && Terminated(b[..n]);
      WordRead(b, n);
      var m := n + |r.value.0|;
      SlicesJoin(b, n, m);
      assert b[m..] == r.value.1 && Spells(b[..m], Text(r.value.0));
    }
  }

  // ----- tokens in a row -----

  /** What one reader takes off the front, for each kind of token. */
  function Taken(b: Bytes, t: Token): (r: Option<(Token, Bytes)>)
    ensures r.Some? ==> |r.value.1| < |b|
  {
    match t
    case Octet(_) => if b == [] then None else Some((Octet(b[0]), b[1..]))
    case Word(_) => if TakeWord(b) == None then None else Some((Word(TakeWord(b).value.0), TakeWord(b).value.1))
    case Long(_) => if TakeLong(b) == None then None else Some((Long(TakeLong(b).value.0), TakeLong(b).value.1))
    case Text(_) =>
      var r := GetLengthPrefixedSlice(b);
      if r == None then None else Some((Text(r.value.0), r.value.1))
  }

  lemma TakenIs(b: Bytes, t: Token, k: nat)
    ensures 0 < k <= |b| && Spells(b[..k], t) ==> Taken(b, t) == Some((t, b[k..]))
    ensures var r := Taken(b, t);
      r.Some? ==> exists m :: 0 < m <= |b| && b[m..] == r.value.1 && Spells(b[..m], r.value.0)
  {
    match t
    case Octet(x) => if b != [] { assert b[..1] == [b[0]]; }
    case Word(v) => WordIs(b, v, k);
    case Long(v) => LongIs(b, v, k);
    case Text(s) => TextIs(b, s, k);
  }

  /** Tokens stand in front exactly if the readers find them one after the other. */
  lemma FrontIs(b: Bytes, t: Token, ts: seq<Token>, rest: Bytes)
    ensures Front(b, [t] + ts, rest) <==> Taken(b, t).Some? && Taken(b, t).value.0 == t && Front(Taken(b, t).value.1, ts, rest)
  {
    assert ([t] + ts)[1..] == ts;
    if Front(b, [t] + ts, rest) {
      var k :| 0 < k <= |b| && Spells(b[..k], t) && Front(b[k..], ts, rest);
      TakenIs(b, t, k);
    }
    if Taken(b, t).Some? && Taken(b, t).value.0 == t && Front(Taken(b, t).value.1, ts, rest) {
      TakenIs(b, t, 0);
    }
  }

  /** The readers of these tokens, one after the other. */
  function Read(b: Bytes, ts: seq<Token>): Option<Bytes>
    decreases |ts|
  {
    if ts == [] then Some(b)
    else
      var r := Taken(b, ts[0]);
      if r.Some? && r.value.0 == ts[0] then Read(r.value.1, ts[1..]) else None
  }

  lemma {:induction false} ReadIs(b: Bytes, ts: seq<Token>, rest: Bytes)
    ensures Front(b, ts, rest) <==> Read(b, ts) == Some(rest)
    decreases |ts|
  {
    if ts != [] {
      assert [ts[0]] + ts[1..] == ts;
      FrontIs(b, ts[0], ts[1..], rest);
      if Taken(b, ts[0]).Some? { ReadIs(Taken(b, ts[0]).value.1, ts[1..], rest); }
    }
  }

  lemma ReadFirst(b: Bytes, t: Token, ts: seq<Token>)
    ensures var r := Taken(b, t);
      Read(b, [t] + ts) == if r.Some? && r.value.0 == t then Read(r.value.1, ts) else None
  {
    assert ([t] + ts)[1..] == ts;
  }

  lemma ReadOne(b: Bytes, t: Token)
    ensures Read(b, [t]) == if Taken(b, t).Some? && Taken(b, t).value.0 == t then Some(Taken(b, t).value.1) else None
  {
    ReadFirst(b, t, []);
    assert [t] + [] == [t];
  }

  /** What is left when this token is in front. */
  function After(b: Bytes, t: Token): Option<Bytes> {
    var r := Taken(b, t);
    if r.Some? && r.value.0 == t then Some(r.value.1) else None
  }

  lemma ReadTwo(b: Bytes, t: Token, u: Token)
    ensures Read(b, [t, u]) == if After(b, t) == None then None else After(After(b, t).value, u)
  {
    ReadFirst(b, t, [u]);
    assert [t] + [u] == [t, u];
    if After(b, t).Some? { ReadOne(After(b, t).value, u); }
  }

  lemma ReadThree(b: Bytes, t: Token, u: Token, v: Token)
    ensures Read(b, [t, u, v]) ==
      if After(b, t) == None then None
      else if After(After(b, t).value, u) == None then None
      else After(After(After(b, t).value, u).value, v)
  {
    ReadFirst(b, t, [u, v]);
    assert [t] + [u, v] == [t, u, v];
    if After(b, t).Some? { ReadTwo(After(b, t).value, u, v); }
  }

  // ----- manifest records (VersionEdit::DecodeFrom) -----

  /** The grammar of one field, in numbers. */
  function ItemTokens(item: Item): seq<Token> {
    match item
    case Comparator(name) => [Word(1), Text(name)]
    case LogNumber(n) => [Word(2), Long(n)]
    case NextFileNumber(n) => [Word(3), Long(n)]
    case LastSequence(n) => [Word(4), Long(n)]
    case CompactPointer(level, key) => [Word(5), Word(level), Text(key)]
    case DeletedFile(level, number) => [Word(6), Word(level), Long(number)]
    case Added(f) => [Word(7), Word(f.level)] + FileTokens(f)
    case PrevLogNumber(n) => [Word(9), Long(n)]
  }

  function FileTokens(f: NewFile): seq<Token> {
    [Long(f.number), Long(f.size), Text(f.smallest), Text(f.largest)]
  }

  /** Levels are below seven. */
  predicate LevelOk(item: Item) {
    match item
    case CompactPointer(level, _) => level < 7
    case DeletedFile(level, _) => level < 7
    case Added(f) => f.level < 7
    case _ => true
  }

  /** A tag and the fields after it. */
  function TakeItem(b: Bytes): (r: Option<(Item, Bytes)>)
    requires Consumes(Varints)
    ensures r.Some? ==> |r.value.1| < |b|
  {
    match TakeWord(b)
    case None => None
    case Some((tag, fields)) => TakeFields(Varints, tag, fields)
  }

  lemma FileIs(level: nat, f: NewFile, b: Bytes, rest: Bytes)
    requires Consumes(Varints)
    ensures TakeFile(Varints, level, b) == Some((Added(f), rest)) <==> level == f.level && Read(b, FileTokens(f)) == Some(rest)
  {
    var ts := [Long(f.size), Text(f.smallest), Text(f.largest)];
    assert FileTokens(f) == [Long(f.number)] + ts;
    ReadFirst(b, Long(f.number), ts);
    if TakeLong(b).Some? { SizeAndKeys(level, f, b, TakeLong(b).value.1, rest); }
  }

  lemma SizeAndKeys(level: nat, f: NewFile, start: Bytes, b: Bytes, rest: Bytes)
    requires Consumes(Varints) && TakeLong(start).Some? && TakeLong(start).value.1 == b
    ensures TakeFile(Varints, level, start) == Some((Added(f), rest)) <==>
      level == f.level && TakeLong(start).value.0 == f.number && Read(b, [Long(f.size), Text(f.smallest), Text(f.largest)]) == Some(rest)
  {
    ReadThree(b, Long(f.size), Text(f.smallest), Text(f.largest));
  }

  /** The decoder finds an item exactly if its tokens stand in front. */
  lemma ItemIs(b: Bytes, item: Item, rest: Bytes)
    requires Consumes(Varints)
    ensures TakeItem(b) == Some((item, rest)) <==> Front(b, ItemTokens(item), rest) && LevelOk(item)
  {
    ReadIs(b, ItemTokens(item), rest);
    var tag := Word(ItemTag(item));
    ReadFirst(b, tag, FieldTokens(item));
    assert ItemTokens(item) == [tag] + FieldTokens(item);
    if TakeWord(b).Some? { FieldsAre(item, TakeWord(b).value.0, TakeWord(b).value.1, rest); }
  }

  function ItemTag(item: Item): nat {
    match item
    case Comparator(_) => 1
    case LogNumber(_) => 2
    case NextFileNumber(_) => 3
    case LastSequence(_) => 4
    case CompactPointer(_, _) => 5
    case DeletedFile(_, _) => 6
    case Added(_) => 7
    case PrevLogNumber(_) => 9
  }

  function FieldTokens(item: Item): seq<Token> { ItemTokens(item)[1..] }

  /** What the decoder takes is an item of its tag. */
  lemma TagDecides(item: Item, tag: nat, b: Bytes, rest: Bytes)
    requires Consumes(Varints) && TakeFields(Varints, tag, b) == Some((item, rest))
    ensures tag == ItemTag(item)
  {
  }

  lemma FieldsAre(item: Item, tag: nat, b: Bytes, rest: Bytes)
    requires Consumes(Varints)
    ensures TakeFields(Varints, tag, b) == Some((item, rest)) <==> tag == ItemTag(item) && Read(b, FieldTokens(item)) == Some(rest) && LevelOk(item)
  {
    if TakeFields(Varints, tag, b) == Some((item, rest)) { TagDecides(item, tag, b, rest); }
    match item
    case CompactPointer(level, key) => PointerIs(level, key, b, rest);
    case DeletedFile(level, number) => DeletedIs(level, number, b, rest);
    case Added(f) => AddedIs(f, b, rest);
    case _ =>
      assert FieldTokens(item) == [ItemTokens(item)[1]];
      ReadOne(b, ItemTokens(item)[1]);
  }

  lemma PointerIs(level: nat, key: Bytes, b: Bytes, rest: Bytes)
    requires Consumes(Varints)
    ensures TakeFields(Varints, 5, b) == Some((CompactPointer(level, key), rest)) <==> Read(b, FieldTokens(CompactPointer(level, key))) == Some(rest) && level < 7
  {
    assert FieldTokens(CompactPointer(level, key)) == [Word(level), Text(key)];
    ReadTwo(b, Word(level), Text(key));
  }

  lemma DeletedIs(level: nat, number: nat, b: Bytes, rest: Bytes)
    requires Consumes(Varints)
    ensures TakeFields(Varints, 6, b) == Some((DeletedFile(level, number), rest)) <==> Read(b, FieldTokens(DeletedFile(level, number))) == Some(rest) && level < 7
  {
    assert FieldTokens(DeletedFile(level, number)) == [Word(level), Long(number)];
    ReadTwo(b, Word(level), Long(number));
  }

  lemma AddedIs(f: NewFile, b: Bytes, rest: Bytes)
    requires Consumes(Varints)
    ensures TakeFields(Varints, 7, b) == Some((Added(f), rest)) <==> Read(b, FieldTokens(Added(f))) == Some(rest) && f.level < 7
  {
    AddedTokens(f);
    FileTaken(Varints, b);
    ReadFirst(b, Word(f.level), FileTokens(f));
    if TakeWord(b).Some? { FileIs(TakeWord(b).value.0, f, TakeWord(b).value.1, rest); }
  }

  lemma FileTaken(c: Codec, b: Bytes)
    requires Consumes(c)
    ensures TakeFields(c, 7, b) == var level := c.word(b);
      if level == None || level.value.0 >= 7 then None else TakeFile(c, level.value.0, level.value.1)
  {
  }

  lemma AddedTokens(f: NewFile)
    ensures FieldTokens(Added(f)) == [Word(f.level)] + FileTokens(f)
  {
  }

  /** A record is these items, each with a level that exists. */
  ghost predicate IsRecord(b: Bytes, items: seq<Item>)
    decreases |items|
  {
    if items == [] then b == []
    else LevelOk(items[0]) && exists rest :: Front(b, ItemTokens(items[0]), rest) && IsRecord(rest, items[1..])
  }

  lemma {:induction false} RecordDecodes(e: Edit, b: Bytes, items: seq<Item>)
    requires Consumes(Varints) && IsRecord(b, items)
    ensures DecodeItems(Varints, e, b) == Ok(ApplyAll(e, items))
    decreases |items|
  {
    if items != [] {
      var rest :| Front(b, ItemTokens(items[0]), rest) && IsRecord(rest, items[1..]);
      ItemIs(b, items[0], rest);
      RecordDecodes(Apply(e, items[0]), rest, items[1..]);
    }
  }

  lemma {:induction false} DecodedIsRecord(e: Edit, b: Bytes) returns (items: seq<Item>)
    requires Consumes(Varints) && DecodeItems(Varints, e, b).Ok?
    ensures IsRecord(b, items) && DecodeItems(Varints, e, b).edit == ApplyAll(e, items)
    decreases |b|
  {
    if TakeWord(b) == None {
      items := [];
    } else {
      var (item, rest) := TakeItem(b).value;
      ItemIs(b, item, rest);
      var others := DecodedIsRecord(Apply(e, item), rest);
      items := [item] + others;
      assert items[1..] == others;
    }
  }

  /** For any bytes: DecodeFrom succeeds exactly on a record of the grammar, and applies its items in order. */
  lemma DecodesExactlyRecords(prior: Edit, src: Bytes, x: Edit)
    ensures Consumes(Varints)
    ensures DecodeFrom(Varints, prior, src) == Ok(x) <==> exists items :: IsRecord(src, items) && x == ApplyAll(Cleared(prior), items)
  {
    VarintsAreLawful();
    if DecodeFrom(Varints, prior, src) == Ok(x) {
      var items := DecodedIsRecord(Cleared(prior), src);
    }
    if items :| IsRecord(src, items) && x == ApplyAll(Cleared(prior), items) {
      RecordDecodes(Cleared(prior), src, items);
    }
  }

  // ----- write batches (WriteBatch::Iterate) -----

  function OpTokens(op: WriteBatch.Op): seq<Token> {
    match op
    case Put(key, value) => [Octet(1), Text(key), Text(value)]
    case Delete(key) => [Octet(0), Text(key)]
  }

  function TakeOp(b: Bytes): (r: Option<(WriteBatch.Op, Bytes)>)
    requires WriteBatch.Consumes(WriteBatch.Real)
    ensures r.Some? ==> |r.value.1| < |b|
  {
    if b == [] then None else WriteBatch.TakeOp(WriteBatch.Real, b[0], b[1..])
  }

  lemma OpIs(b: Bytes, op: WriteBatch.Op, rest: Bytes)
    requires WriteBatch.Consumes(WriteBatch.Real)
    ensures TakeOp(b) == Some((op, rest)) <==> Front(b, OpTokens(op), rest)
  {
    ReadIs(b, OpTokens(op), rest);
    if op.Put? { PutIs(b, op.key, op.value, rest); } else { DeleteIs(b, op.key, rest); }
  }

  lemma PutIs(b: Bytes, key: Bytes, value: Bytes, rest: Bytes)
    requires WriteBatch.Consumes(WriteBatch.Real)
    ensures TakeOp(b) == Some((WriteBatch.Put(key, value), rest)) <==> Read(b, [Octet(1), Text(key), Text(value)]) == Some(rest)
  {
    ReadThree(b, Octet(1), Text(key), Text(value));
  }

  lemma DeleteIs(b: Bytes, key: Bytes, rest: Bytes)
    requires WriteBatch.Consumes(WriteBatch.Real)
    ensures TakeOp(b) == Some((WriteBatch.Delete(key), rest)) <==> Read(b, [Octet(0), Text(key)]) == Some(rest)
  {
    ReadTwo(b, Octet(0), Text(key));
  }

  /** Operations one after the other, in front of `rest`. */
  ghost predicate AreOps(b: Bytes, ops: seq<WriteBatch.Op>, rest: Bytes)
    decreases |ops|
  {
    if ops == [] then b == rest
    else exists next :: Front(b, OpTokens(ops[0]), next) && AreOps(next, ops[1..], rest)
  }

  /** For any bytes: the handler gets the operations that stand in front, up to the end or to where there is none. */
  lemma {:induction false} IteratesExactlyOps(before: seq<WriteBatch.Op>, b: Bytes) returns (ops: seq<WriteBatch.Op>, rest: Bytes)
    ensures WriteBatch.Consumes(WriteBatch.Real)
    ensures AreOps(b, ops, rest) && (forall op, next :: !Front(rest, OpTokens(op), next))
    ensures WriteBatch.IterateOps(WriteBatch.Real, before, b) == WriteBatch.Iterated(before + ops, rest == [])
    decreases |b|
  {
    WriteBatch.RealIsLawful();
    var r := TakeOp(b);
    if r.Some? {
      var (op, next) := r.value;
      OpIs(b, op, next);
      var others;
      others, rest := IteratesExactlyOps(before + [op], next);
      ops := [op] + others;
      assert ops[1..] == others && before + [op] + others == before + ops;
    } else {
      ops, rest := [], b;
      assert before + [] == before;
      forall op, next ensures !Front(b, OpTokens(op), next) { OpIs(b, op, next); }
    }
  }
}
