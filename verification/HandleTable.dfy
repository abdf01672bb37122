/** The chained hash table of the cache (HandleTable in util/cache.cc) refines a map. */
module HandleTable {
  import opened Options

  /** Keys are only hashed and compared for equality. */
  type Key = int
  type Id = nat
  type Hash = Key -> nat

  /** A chain element: the key of a handle and the handle. */
  datatype Slot = Slot(key: Key, id: Id)

  /** Every mapping is in the bucket of its key, once, and nothing else is there. */
  ghost predicate Represents(list: seq<seq<Slot>>, hash: Hash, contents: map<Key, Id>) {
    && |list| > 0
    && (forall b, i :: 0 <= b < |list| && 0 <= i < |list[b]| ==> Belongs(list[b][i], b, |list|, hash, contents))
    && (forall b, i, j :: 0 <= b < |list| && 0 <= i < j < |list[b]| ==> list[b][i].key != list[b][j].key)
    && (forall k :: k in contents ==> Slot(k, contents[k]) in list[hash(k) % |list|])
  }

  ghost predicate Belongs(s: Slot, b: nat, length: nat, hash: Hash, contents: map<Key, Id>)
    requires length > 0
  {
    s.key in contents && contents[s.key] == s.id && hash(s.key) % length == b
  }

  /** Where the chain of `key` has it, or ends. */
  ghost predicate IsPointer(list: seq<seq<Slot>>, hash: Hash, key: Key, b: nat, i: nat) {
    && |list| > 0 && b == hash(key) % |list| && i <= |list[b]|
    && (forall j :: 0 <= j < i ==> list[b][j].key != key)
    && (i < |list[b]| ==> list[b][i].key == key)
  }

  lemma PointerDecides(list: seq<seq<Slot>>, hash: Hash, contents: map<Key, Id>, key: Key, b: nat, i: nat)
    requires Represents(list, hash, contents) && IsPointer(list, hash, key, b, i)
    ensures key in contents <==> i < |list[b]|
    ensures i < |list[b]| ==> list[b][i] == Slot(key, contents[key])
  {
    if i < |list[b]| { assert Belongs(list[b][i], b, |list|, hash, contents); }
  }

  /** Writing the chain's end or the slot of the key sets the mapping. */
  function Linked(chain: seq<Slot>, i: nat, s: Slot): seq<Slot>
    requires i <= |chain|
  {
    if i == |chain| then chain + [s] else chain[i := s]
  }

  lemma InsertRepresents(list: seq<seq<Slot>>, hash: Hash, contents: map<Key, Id>, key: Key, id: Id, b: nat, i: nat)
    requires Represents(list, hash, contents) && IsPointer(list, hash, key, b, i)
    ensures Represents(list[b := Linked(list[b], i, Slot(key, id))], hash, contents[key := id])
  {
    PointerDecides(list, hash, contents, key, b, i);
    var chain := Linked(list[b], i, Slot(key, id));
    var list', contents' := list[b := chain], contents[key := id];
    forall k | k in contents' ensures Slot(k, contents'[k]) in list'[hash(k) % |list'|] {
      if k == key {
        assert chain[i] == Slot(key, id);
      } else if hash(k) % |list| == b {
        var j :| 0 <= j < |list[b]| && list[b][j] == Slot(k, contents[k]);
        assert chain[j] == list[b][j];
      }
    }
    forall c, j | 0 <= c < |list'| && 0 <= j < |list'[c]| ensures Belongs(list'[c][j], c, |list'|, hash, contents') {
      assert list'[c][j] == Slot(key, id) || Belongs(list[c][j], c, |list|, hash, contents);
    }
  }

  function Unlinked(chain: seq<Slot>, i: nat): seq<Slot>
    requires i < |chain|
  {
    chain[..i] + chain[i + 1..]
  }

  lemma UnlinkedChain(chain: seq<Slot>, i: nat)
    requires i < |chain| && forall j, m :: 0 <= j < m < |chain| ==> chain[j].key != chain[m].key
    ensures forall j, m :: 0 <= j < m < |Unlinked(chain, i)| ==> Unlinked(chain, i)[j].key != Unlinked(chain, i)[m].key
    ensures forall s :: s in Unlinked(chain, i) <==> s in chain && s.key != chain[i].key
  {
    var cut := Unlinked(chain, i);
    forall j | 0 <= j < |cut| ensures cut[j] in chain && cut[j].key != chain[i].key {
      assert cut[j] == chain[if j < i then j else j + 1];
    }
    forall s | s in chain && s.key != chain[i].key ensures s in cut {
      var j :| 0 <= j < |chain| && chain[j] == s;
      assert cut[if j < i then j else j - 1] == s;
    }
  }

  lemma RemoveRepresents(list: seq<seq<Slot>>, hash: Hash, contents: map<Key, Id>, key: Key, b: nat, i: nat)
    requires Represents(list, hash, contents) && IsPointer(list, hash, key, b, i) && i < |list[b]|
    ensures Represents(list[b := Unlinked(list[b], i)], hash, contents - {key})
  {
    PointerDecides(list, hash, contents, key, b, i);
    UnlinkedChain(list[b], i);
    var list', contents' := list[b := Unlinked(list[b], i)], contents - {key};
    forall c, j | 0 <= c < |list'| && 0 <= j < |list'[c]| ensures Belongs(list'[c][j], c, |list'|, hash, contents') {
      var s := list'[c][j];
      assert s in list[c];
      var m :| 0 <= m < |list[c]| && list[c][m] == s;
      assert Belongs(list[c][m], c, |list|, hash, contents);
    }
    forall k | k in contents' ensures Slot(k, contents'[k]) in list'[hash(k) % |list'|] {
      assert Slot(k, contents[k]) in list[hash(k) % |list|];
    }
  }

  lemma PushRepresents(list: seq<seq<Slot>>, hash: Hash, contents: map<Key, Id>, s: Slot)
    requires Represents(list, hash, contents) && s.key !in contents
    ensures var b := hash(s.key) % |list|;
      Represents(list[b := [s] + list[b]], hash, contents[s.key := s.id])
  {
    var b := hash(s.key) % |list|;
    var list', contents' := list[b := [s] + list[b]], contents[s.key := s.id];
    forall c, j | 0 <= c < |list'| && 0 <= j < |list'[c]| ensures Belongs(list'[c][j], c, |list'|, hash, contents') {
      var m := if c == b then j - 1 else j;
      assert (c == b && j == 0) || Belongs(list[c][m], c, |list|, hash, contents);
    }
    forall c, j, m | 0 <= c < |list'| && 0 <= j < m < |list'[c]| ensures list'[c][j].key != list'[c][m].key {
      if c == b && j == 0 { assert Belongs(list[b][m - 1], b, |list|, hash, contents); }
    }
    forall k | k in contents' ensures Slot(k, contents'[k]) in list'[hash(k) % |list'|] {
      if k == s.key { assert list'[b][0] == s; } else { assert Slot(k, contents[k]) in list[hash(k) % |list|]; }
    }
  }

  /** Key `k` is in the buckets before `i` or the first `j` slots of bucket `i`. */
  ghost predicate Moved(list: seq<seq<Slot>>, i: nat, j: nat, k: Key) {
    exists b, m :: 0 <= b < |list| && 0 <= m < |list[b]| && (b < i || (b == i && m < j)) && list[b][m].key == k
  }

  lemma MovedNext(list: seq<seq<Slot>>, hash: Hash, contents: map<Key, Id>, i: nat, j: nat, k: Key)
    requires Represents(list, hash, contents) && i < |list| && j < |list[i]|
    ensures Moved(list, i, j + 1, k) <==> Moved(list, i, j, k) || k == list[i][j].key
    ensures !Moved(list, i, j, list[i][j].key)
  {
    assert Belongs(list[i][j], i, |list|, hash, contents);
  }

  lemma MovedAll(list: seq<seq<Slot>>, hash: Hash, contents: map<Key, Id>, k: Key)
    requires Represents(list, hash, contents)
    ensures Moved(list, |list|, 0, k) <==> k in contents
  {
    if k in contents {
      var b := hash(k) % |list|;
      var m :| 0 <= m < |list[b]| && list[b][m] == Slot(k, contents[k]);
    }
  }

  /** The mappings of the slots moved so far. */
  ghost predicate IsMoved(list: seq<seq<Slot>>, contents: map<Key, Id>, done: map<Key, Id>, i: nat, j: nat) {
    && (forall k :: k in done <==> Moved(list, i, j, k))
    && (forall k :: k in done ==> k in contents && done[k] == contents[k])
  }

  lemma IsMovedNext(list: seq<seq<Slot>>, hash: Hash, contents: map<Key, Id>, done: map<Key, Id>, i: nat, j: nat)
    requires Represents(list, hash, contents) && i < |list| && j < |list[i]| && IsMoved(list, contents, done, i, j)
    ensures list[i][j].key !in done && IsMoved(list, contents, done[list[i][j].key := list[i][j].id], i, j + 1)
  {
    assert Belongs(list[i][j], i, |list|, hash, contents);
    forall k ensures (Moved(list, i, j + 1, k) <==> Moved(list, i, j, k) || k == list[i][j].key) && !Moved(list, i, j, list[i][j].key) {
      MovedNext(list, hash, contents, i, j, k);
    }
  }

  lemma IsMovedRow(list: seq<seq<Slot>>, contents: map<Key, Id>, done: map<Key, Id>, i: nat)
    requires i < |list| && IsMoved(list, contents, done, i, |list[i]|)
    ensures IsMoved(list, contents, done, i + 1, 0)
  {
  }

  lemma AllAreMoved(list: seq<seq<Slot>>, hash: Hash, contents: map<Key, Id>, done: map<Key, Id>)
    requires Represents(list, hash, contents) && IsMoved(list, contents, done, |list|, 0)
    ensures done == contents
  {
    forall k: Key ensures k in done <==> k in contents { MovedAll(list, hash, contents, k); }
    assert forall k :: k in done <==> k in contents;
    assert forall k :: k in done ==> done[k] == contents[k];
    assert done == contents;
  }

  /** The loops of Resize: every slot is pushed in front of its new chain. */
  method Rehash(list: seq<seq<Slot>>, hash: Hash, newLength: nat, ghost contents: map<Key, Id>) returns (newList: seq<seq<Slot>>, count: nat)
    requires Represents(list, hash, contents) && newLength > 0
    ensures |newList| == newLength && Represents(newList, hash, contents) && count == |contents|
  {
    newList := seq(newLength, i => []);
    count := 0;
    ghost var done: map<Key, Id> := map[];
    for i := 0 to |list|
      invariant |newList| == newLength && Represents(newList, hash, done) && count == |done|
      invariant IsMoved(list, contents, done, i, 0)
    {
      for j := 0 to |list[i]|
        invariant |newList| == newLength && Represents(newList, hash, done) && count == |done|
        invariant IsMoved(list, contents, done, i, j)
      {
        var h := list[i][j];
        IsMovedNext(list, hash, contents, done, i, j);
        PushRepresents(newList, hash, done, h);
        var b := hash(h.key) % newLength;
        newList := newList[b := [h] + newList[b]];
        done := done[h.key := h.id];
        count := count + 1;
      }
      IsMovedRow(list, contents, done, i);
    }
    AllAreMoved(list, hash, contents, done);
  }

  class Table {
    const hash: Hash
    var list: seq<seq<Slot>>
    var elems: nat
    ghost var contents: map<Key, Id>

    ghost predicate Valid()
      reads this
    {
      Represents(list, hash, contents) && elems == |contents|
    }

    /** The table starts with four empty buckets, which the first Resize makes. */
    constructor (hash: Hash)
      ensures Valid() && contents == map[] && this.hash == hash
    {
      this.hash := hash;
      list := seq(4, i => []);
      elems := 0;
      contents := map[];
    }

    method FindPointer(key: Key) returns (b: nat, i: nat)
      requires Valid()
      ensures IsPointer(list, hash, key, b, i)
    {
      b := hash(key) % |list|;
      i := 0;
      while i < |list[b]| && list[b][i].key != key
        invariant i <= |list[b]|
        invariant forall j :: 0 <= j < i ==> list[b][j].key != key
      {
        i := i + 1;
      }
    }

    method Lookup(key: Key) returns (id: Option<Id>)
      requires Valid()
      ensures id == if key in contents then Some(contents[key]) else None
    {
      var b, i := FindPointer(key);
      PointerDecides(list, hash, contents, key, b, i);
      id := if i < |list[b]| then Some(list[b][i].id) else None;
    }

    /** The mapping that was replaced is returned. */
    method Insert(key: Key, id: Id) returns (old_: Option<Id>)
      requires Valid()
      modifies this
      ensures Valid() && contents == old(contents)[key := id]
      ensures old_ == if key in old(contents) then Some(old(contents)[key]) else None
    {
      var b, i := FindPointer(key);
      PointerDecides(list, hash, contents, key, b, i);
      InsertRepresents(list, hash, contents, key, id, b, i);
      old_ := if i < |list[b]| then Some(list[b][i].id) else None;
      list := list[b := Linked(list[b], i, Slot(key, id))];
      contents := contents[key := id];
      if old_ == None {
        elems := elems + 1;
        if elems > |list| {
          Resize();
        }
      }
    }

    method Remove(key: Key) returns (result: Option<Id>)
      requires Valid()
      modifies this
      ensures Valid() && contents == old(contents) - {key}
      ensures result == if key in old(contents) then Some(old(contents)[key]) else None
    {
      var b, i := FindPointer(key);
      PointerDecides(list, hash, contents, key, b, i);
      result := None;
      if i < |list[b]| {
        RemoveRepresents(list, hash, contents, key, b, i);
        result := Some(list[b][i].id);
        CardinalityMinus(contents, key);
        list := list[b := Unlinked(list[b], i)];
        elems := elems - 1;
        contents := contents - {key};
      }
    }

    /** The mapping stays; no chain is longer than one on average. */
    method Resize()
      requires Valid()
      modifies this`list
      ensures Valid() && elems <= |list| && |list| >= 4
    {
      var newLength := 4;
      while newLength < elems
        invariant newLength >= 4
      {
        newLength := newLength * 2;
      }
      var count;
      list, count := Rehash(list, hash, newLength, contents);
      assert elems == count;
    }
  }

  lemma CardinalityMinus(m: map<Key, Id>, key: Key)
    requires key in m
    ensures |m - {key}| == |m| - 1
  {
    assert (m - {key}).Keys == m.Keys - {key};
    assert |m| == |m.Keys| && |m - {key}| == |(m - {key}).Keys|;
  }
}
