/**
 One shard of the cache (LRUCache in util/cache.cc): reference counts, the two
 lists, the charge in use and the calls of the deleter.
 */
module LruCache {
  import opened Options
  import opened Counting
  import opened HandleTable

  datatype Info = Info(key: Key, value: int, charge: nat)

  /**
   Handle `id` is `info[id]`; `refs` has the handles that are not freed, `cached`
   those with in_cache set. The lists are oldest first. `deleted` records the
   calls of the deleter.
   */
  datatype Shard = Shard(
    info: seq<Info>, refs: map<Id, nat>, cached: set<Id>, lru: seq<Id>, inUse: seq<Id>,
    usage: int, deleted: seq<Id>, table: map<Key, Id>)

  // ----- what the operations do -----

  function Unref(s: Shard, e: Id): (r: Shard)
    requires e in s.refs && s.refs[e] > 0
    ensures r.info == s.info && r.table == s.table && r.cached == s.cached
  {
    if s.refs[e] == 1 then s.(refs := s.refs - {e}, deleted := s.deleted + [e])
    else
      var t := s.(refs := s.refs[e := s.refs[e] - 1]);
      if e in s.cached && t.refs[e] == 1
      then t.(lru := RemoveOne(s.lru, e) + [e], inUse := RemoveOne(s.inUse, e))
      else t
  }

  function Ref(s: Shard, e: Id): Shard
    requires e in s.refs
  {
    var t := if s.refs[e] == 1 && e in s.cached then s.(lru := RemoveOne(s.lru, e), inUse := RemoveOne(s.inUse, e) + [e]) else s;
    t.(refs := s.refs[e := s.refs[e] + 1])
  }

  /** The entry has left the table already. */
  function FinishErase(s: Shard, e: Id): (r: Shard)
    ensures r.info == s.info && r.table == s.table
  {
    if e !in s.refs || s.refs[e] == 0 || e >= |s.info| then s
    else Unref(s.(lru := RemoveOne(s.lru, e), inUse := RemoveOne(s.inUse, e), cached := s.cached - {e}, usage := s.usage - s.info[e].charge), e)
  }

  // ----- what they keep -----

  ghost function Charges(info: seq<Info>, q: seq<Id>): nat {
    if q == [] then 0
    else Charges(info, q[..|q| - 1]) + if q[|q| - 1] < |info| then info[q[|q| - 1]].charge else 0
  }

  /**
   A handle is referenced by its clients and, while cached, by the cache. It is
   in the one list that its reference count says, and the deleter ran exactly
   when nothing references it any more. `loose` is an entry on its way out.
   */
  ghost predicate HandleInv(s: Shard, held: multiset<Id>, loose: Option<Id>, id: Id) {
    var live, cached := id in s.refs, id in s.cached;
    && (live ==> id < |s.info| && s.refs[id] > 0 && s.refs[id] == held[id] + if cached then 1 else 0)
    && (!live ==> held[id] == 0 && !cached)
    && CountIn(s.lru, id) == (if cached && s.refs[id] == 1 then 1 else 0)
    && CountIn(s.inUse, id) == (if cached && s.refs[id] > 1 then 1 else 0)
    && CountIn(s.deleted, id) == (if id < |s.info| && !live then 1 else 0)
    && (cached && loose != Some(id) ==> s.info[id].key in s.table && s.table[s.info[id].key] == id)
  }

  ghost predicate TableInv(s: Shard, loose: Option<Id>) {
    forall k :: k in s.table ==> s.table[k] in s.cached && s.table[k] < |s.info| && s.info[s.table[k]].key == k && loose != Some(s.table[k])
  }

  ghost predicate UsageInv(s: Shard) {
    s.usage == Charges(s.info, s.lru) + Charges(s.info, s.inUse)
  }

  ghost predicate Inv(s: Shard, held: multiset<Id>, loose: Option<Id>) {
    && (forall id :: HandleInv(s, held, loose, id))
    && TableInv(s, loose) && UsageInv(s)
  }

  lemma ChargesAppend(info: seq<Info>, q: seq<Id>, e: Id)
    ensures Charges(info, q + [e]) == Charges(info, q) + if e < |info| then info[e].charge else 0
  {
    assert (q + [e])[..|q|] == q;
  }

  lemma {:induction false} ChargesRemove(info: seq<Info>, q: seq<Id>, e: Id)
    ensures Charges(info, RemoveOne(q, e)) == Charges(info, q) - if CountIn(q, e) > 0 && e < |info| then info[e].charge else 0
  {
    if q != [] {
      var n := |q| - 1;
      ChargesRemove(info, q[..n], e);
      ChargesAppend(info, RemoveOne(q[..n], e), q[n]);
    }
  }

  // ----- FinishErase -----

  lemma FinishEraseHandle(s: Shard, held: multiset<Id>, e: Id, id: Id)
    requires HandleInv(s, held, Some(e), e) && HandleInv(s, held, Some(e), id) && e in s.cached && e in s.refs && s.refs[e] > 0 && e < |s.info|
    ensures HandleInv(FinishErase(s, e), held, None, id)
  {
    CountRemoveOne(s.lru, e, id);
    CountRemoveOne(s.inUse, e, id);
    CountAppend(s.deleted, e, id);
  }

  /** An entry taken out of the table gives up its place in the lists and its charge. */
  lemma FinishEraseKeeps(s: Shard, held: multiset<Id>, e: Id)
    requires Inv(s, held, Some(e)) && e in s.cached
    ensures e in s.refs && s.refs[e] > 0 && e < |s.info| && Inv(FinishErase(s, e), held, None)
  {
    assert HandleInv(s, held, Some(e), e);
    forall id ensures HandleInv(FinishErase(s, e), held, None, id) {
      assert HandleInv(s, held, Some(e), id);
      FinishEraseHandle(s, held, e, id);
    }
    ChargesRemove(s.info, s.lru, e);
    ChargesRemove(s.info, s.inUse, e);
  }

  // ----- references of clients -----

  lemma RefHandle(s: Shard, held: multiset<Id>, e: Id, id: Id)
    requires HandleInv(s, held, None, e) && HandleInv(s, held, None, id) && e in s.refs
    ensures HandleInv(Ref(s, e), held + multiset{e}, None, id)
  {
    CountRemoveOne(s.lru, e, id);
    CountRemoveOne(s.inUse, e, id);
    CountAppend(RemoveOne(s.inUse, e), e, id);
  }

  lemma RefKeeps(s: Shard, held: multiset<Id>, e: Id)
    requires Inv(s, held, None) && e in s.refs
    ensures Inv(Ref(s, e), held + multiset{e}, None)
  {
    assert HandleInv(s, held, None, e);
    forall id ensures HandleInv(Ref(s, e), held + multiset{e}, None, id) {
      assert HandleInv(s, held, None, id);
      RefHandle(s, held, e, id);
    }
    ChargesRemove(s.info, s.lru, e);
    ChargesRemove(s.info, s.inUse, e);
    ChargesAppend(s.info, RemoveOne(s.inUse, e), e);
  }

  lemma UnrefHandle(s: Shard, held: multiset<Id>, e: Id, id: Id)
    requires HandleInv(s, held, None, e) && HandleInv(s, held, None, id) && e in s.refs && s.refs[e] > 0 && held[e] > 0
    ensures HandleInv(Unref(s, e), held - multiset{e}, None, id)
  {
    CountRemoveOne(s.lru, e, id);
    CountRemoveOne(s.inUse, e, id);
    CountAppend(RemoveOne(s.lru, e), e, id);
    CountAppend(s.deleted, e, id);
  }

  lemma UnrefKeeps(s: Shard, held: multiset<Id>, e: Id)
    requires Inv(s, held, None) && held[e] > 0
    ensures e in s.refs && s.refs[e] > 0 && Inv(Unref(s, e), held - multiset{e}, None)
  {
    assert HandleInv(s, held, None, e);
    forall id ensures HandleInv(Unref(s, e), held - multiset{e}, None, id) {
      assert HandleInv(s, held, None, id);
      UnrefHandle(s, held, e, id);
    }
    ChargesRemove(s.info, s.lru, e);
    ChargesRemove(s.info, s.inUse, e);
    ChargesAppend(s.info, RemoveOne(s.lru, e), e);
  }

  // ----- Insert -----

  /** A new entry is in use by its client and, if there is room at all, cached under its key. */
  function Added(s: Shard, x: Info, capacity: nat): Shard {
    var e := |s.info|;
    if capacity == 0 then s.(info := s.info + [x], refs := s.refs[e := 1])
    else s.(info := s.info + [x], refs := s.refs[e := 2], cached := s.cached + {e}, inUse := s.inUse + [e],
            usage := s.usage + x.charge, table := s.table[x.key := e])
  }

  function Get(table: map<Key, Id>, key: Key): Option<Id> { if key in table then Some(table[key]) else None }

  lemma {:induction false} ChargesGrow(info: seq<Info>, x: Info, q: seq<Id>)
    requires CountIn<Id>(q, |info|) == 0
    ensures Charges(info + [x], q) == Charges(info, q)
  {
    if q != [] { ChargesGrow(info, x, q[..|q| - 1]); }
  }

  lemma AddedHandle(s: Shard, held: multiset<Id>, x: Info, capacity: nat, id: Id)
    requires HandleInv(s, held, None, id) && HandleInv(s, held, None, |s.info|) && TableInv(s, None)
    ensures HandleInv(Added(s, x, capacity), held + multiset{|s.info|}, if capacity > 0 then Get(s.table, x.key) else None, id)
  {
    CountAppend(s.inUse, |s.info|, id);
  }

  lemma AddedKeeps(s: Shard, held: multiset<Id>, x: Info, capacity: nat)
    requires Inv(s, held, None)
    ensures Inv(Added(s, x, capacity), held + multiset{|s.info|}, if capacity > 0 then Get(s.table, x.key) else None)
  {
    var e: Id := |s.info|;
    var loose := if capacity > 0 then Get(s.table, x.key) else None;
    assert HandleInv(s, held, None, e);
    forall id ensures HandleInv(Added(s, x, capacity), held + multiset{e}, loose, id) {
      assert HandleInv(s, held, None, id);
      AddedHandle(s, held, x, capacity, id);
    }
    AddedUsage(s, held, x, capacity);
    AddedTable(s, held, x, capacity);
  }

  lemma AddedUsage(s: Shard, held: multiset<Id>, x: Info, capacity: nat)
    requires HandleInv(s, held, None, |s.info|) && UsageInv(s)
    ensures UsageInv(Added(s, x, capacity))
  {
    ChargesGrow(s.info, x, s.lru);
    ChargesGrow(s.info, x, s.inUse);
    ChargesAppend(s.info + [x], s.inUse, |s.info|);
  }

  lemma AddedTable(s: Shard, held: multiset<Id>, x: Info, capacity: nat)
    requires Inv(s, held, None)
    ensures TableInv(Added(s, x, capacity), if capacity > 0 then Get(s.table, x.key) else None)
  {
    var e, t := |s.info|, Added(s, x, capacity);
    forall k | k in t.table ensures t.table[k] in t.cached && t.table[k] < |t.info| && t.info[t.table[k]].key == k {
      if k in s.table { assert HandleInv(s, held, None, s.table[k]); }
    }
  }

  // ----- Erase -----

  /** Out of the table: the entry is loose. */
  lemma LooseKeeps(s: Shard, held: multiset<Id>, key: Key)
    requires Inv(s, held, None) && key in s.table
    ensures Inv(s.(table := s.table - {key}), held, Some(s.table[key]))
  {
    var e, t := s.table[key], s.(table := s.table - {key});
    forall id ensures HandleInv(t, held, Some(e), id) {
      assert HandleInv(s, held, None, id);
    }
  }

  /** The oldest entry that nobody uses. */
  lemma OldestIsEvictable(s: Shard, held: multiset<Id>)
    requires Inv(s, held, None) && s.lru != []
    ensures var old_: Id := s.lru[0];
      && old_ in s.cached && old_ in s.refs && s.refs[old_] == 1 && held[old_] == 0 && old_ < |s.info|
      && s.info[old_].key in s.table && s.table[s.info[old_].key] == old_
      && RemoveOne(s.lru, old_) == s.lru[1..] && RemoveOne(s.inUse, old_) == s.inUse
  {
    var e: Id := s.lru[0];
    assert HandleInv(s, held, None, e);
    CountMember<Id>(s.lru, e);
    RemoveOneIsTail<Id>(s.lru);
    RemoveNothing(s.inUse, e);
  }

  lemma {:induction false} RemoveNothing(q: seq<Id>, x: Id)
    requires CountIn(q, x) == 0
    ensures RemoveOne(q, x) == q
  {
    if q != [] { RemoveNothing(q[..|q| - 1], x); }
  }

  /** Erase: the key is unmapped, and its entry leaves the cache. */
  function Erased(s: Shard, key: Key): Shard {
    if key in s.table then FinishErase(s.(table := s.table - {key}), s.table[key]) else s
  }

  lemma ErasedKeeps(s: Shard, held: multiset<Id>, key: Key)
    requires Inv(s, held, None)
    ensures Inv(Erased(s, key), held, None)
    ensures key in s.table ==> s.table[key] in s.refs && s.refs[s.table[key]] > 0 && s.table[key] < |s.info|
  {
    if key in s.table {
      LooseKeeps(s, held, key);
      FinishEraseKeeps(s.(table := s.table - {key}), held, s.table[key]);
    }
  }

  /** The oldest entry that nobody uses is deleted; everything else stays. */
  lemma EvictedIsOldest(s: Shard, held: multiset<Id>)
    requires Inv(s, held, None) && s.lru != [] && s.lru[0] < |s.info|
    ensures var e, t := s.lru[0], Erased(s, s.info[s.lru[0]].key);
      && t.lru == s.lru[1..] && t.inUse == s.inUse && t.info == s.info
      && t.deleted == s.deleted + [e] && t.usage == s.usage - s.info[e].charge
      && s.info[e].key in s.table && s.table[s.info[e].key] == e && t.table == s.table - {s.info[e].key}
  {
    OldestIsEvictable(s, held);
  }

  /** Insert, before anything is evicted. */
  function Inserted(s: Shard, x: Info, capacity: nat): Shard {
    var t := Added(s, x, capacity);
    if capacity > 0 && x.key in s.table then FinishErase(t, s.table[x.key]) else t
  }

  lemma InsertedKeeps(s: Shard, held: multiset<Id>, x: Info, capacity: nat)
    requires Inv(s, held, None)
    ensures Inv(Inserted(s, x, capacity), held + multiset{|s.info|}, None)
    ensures capacity > 0 && x.key in s.table ==>
      var e := s.table[x.key]; e in s.refs && s.refs[e] > 0 && e < |s.info|
  {
    AddedKeeps(s, held, x, capacity);
    assert HandleInv(s, held, None, |s.info|);
    if capacity > 0 && x.key in s.table {
      assert HandleInv(s, held, None, s.table[x.key]);
      FinishEraseKeeps(Added(s, x, capacity), held + multiset{|s.info|}, s.table[x.key]);
    }
  }

  /** An insertion charges its entry, if it is cached, and frees what it replaces; an erasure frees the entry. */
  lemma UsageIsCharged(s: Shard, held: multiset<Id>, x: Info, capacity: nat)
    requires Inv(s, held, None)
    ensures x.key in s.table ==> s.table[x.key] < |s.info| && Erased(s, x.key).usage == s.usage - s.info[s.table[x.key]].charge
    ensures Inserted(s, x, capacity).usage ==
      if capacity == 0 then s.usage
      else if x.key in s.table then s.usage + x.charge - s.info[s.table[x.key]].charge
      else s.usage + x.charge
  {
    if x.key in s.table {
      assert HandleInv(s, held, None, s.table[x.key]);
      assert HandleInv(s, held, None, |s.info|);
    }
  }

  lemma InsertedFacts(s: Shard, held: multiset<Id>, x: Info, capacity: nat)
    requires Inv(s, held, None) && Inv(Inserted(s, x, capacity), held + multiset{|s.info|}, None)
    ensures |s.info| !in Inserted(s, x, capacity).lru
    ensures Inserted(s, x, capacity).info == s.info + [x]
    ensures capacity > 0 ==> Inserted(s, x, capacity).table == s.table[x.key := |s.info|]
    ensures capacity == 0 ==> |s.info| !in Inserted(s, x, capacity).cached
  {
    var e: Id, t := |s.info|, Inserted(s, x, capacity);
    assert HandleInv(s, held, None, e);
    assert HandleInv(t, held + multiset{e}, None, e);
    NewIsNotIdle(t, held + multiset{e}, e);
  }

  lemma NewIsNotIdle(t: Shard, held: multiset<Id>, e: Id)
    requires HandleInv(t, held, None, e) && held[e] > 0
    ensures e !in t.lru
  {
    CountMember<Id>(t.lru, e);
  }

  // ----- what the invariant says of every reachable cache -----

  /** A cached entry is in exactly one list, by its reference count; no other entry is in any. */
  lemma OneList(s: Shard, held: multiset<Id>, id: Id)
    requires Inv(s, held, None)
    ensures CountIn(s.lru, id) + CountIn(s.inUse, id) == if id in s.cached then 1 else 0
    ensures id in s.lru <==> id in s.cached && held[id] == 0
    ensures id in s.inUse <==> id in s.cached && held[id] > 0
  {
    assert HandleInv(s, held, None, id);
    CountMember(s.lru, id);
    CountMember(s.inUse, id);
  }

  /** The deleter runs once for each entry, exactly when neither the cache nor a client refers to it any more. */
  lemma DeletedOnce(s: Shard, held: multiset<Id>, id: Id)
    requires Inv(s, held, None)
    ensures CountIn(s.deleted, id) <= 1
    ensures id in s.deleted <==> id < |s.info| && held[id] == 0 && id !in s.cached
  {
    assert HandleInv(s, held, None, id);
    CountMember(s.deleted, id);
  }

  /** The table maps keys to the cached entries, one to one. */
  lemma MappedIsCached(s: Shard, held: multiset<Id>, id: Id)
    requires Inv(s, held, None)
    ensures id in s.cached <==> id < |s.info| && s.info[id].key in s.table && s.table[s.info[id].key] == id
  {
    assert HandleInv(s, held, None, id);
  }

  // ----- the order of the unused entries -----

  /** The list is in the order in which clients last released its entries, all before `now`. */
  ghost predicate ByRelease(lru: seq<Id>, released: map<Id, nat>, now: nat) {
    && (forall i :: 0 <= i < |lru| ==> lru[i] in released && released[lru[i]] < now)
    && (forall i, j :: 0 <= i < j < |lru| ==> released[lru[i]] < released[lru[j]])
  }

  lemma ByReleaseWithout(lru: seq<Id>, e: Id, released: map<Id, nat>, now: nat)
    requires ByRelease(lru, released, now)
    ensures ByRelease(RemoveOne(lru, e), released, now)
  {
    if e in lru {
      var k := RemoveOnePlace(lru, e);
      assert forall i :: 0 <= i < |Without(lru, k)| ==> Without(lru, k)[i] == lru[if i < k then i else i + 1];
    } else {
      CountMember(lru, e);
      RemoveNothing(lru, e);
    }
  }

  lemma ByReleaseTail(lru: seq<Id>, n: nat, released: map<Id, nat>, now: nat)
    requires ByRelease(lru, released, now) && n <= |lru|
    ensures ByRelease(lru[n..], released, now)
    ensures forall x, y :: x in lru && x !in lru[n..] && y in lru[n..] ==> released[x] < released[y]
  {
    forall x, y | x in lru && x !in lru[n..] && y in lru[n..] ensures released[x] < released[y] {
      var i :| 0 <= i < |lru| && lru[i] == x;
      var j :| 0 <= j < |lru[n..]| && lru[n..][j] == y;
      assert i < n;
    }
  }

  /** An entry that is released now goes to the end. */
  lemma ByReleaseLast(lru: seq<Id>, e: Id, released: map<Id, nat>, now: nat)
    requires ByRelease(lru, released, now) && e !in lru
    ensures ByRelease(lru, released[e := now], now + 1) && ByRelease(lru + [e], released[e := now], now + 1)
  {
  }

  /** A release puts an entry that nobody uses any more at the new end, and moves nothing else. */
  lemma ReleasedOrder(s: Shard, held: multiset<Id>, e: Id, released: map<Id, nat>, now: nat)
    requires Inv(s, held, None) && ByRelease(s.lru, released, now) && held[e] > 0
    ensures e in s.refs && s.refs[e] > 0
    ensures Unref(s, e).lru == if held[e] == 1 && e in s.cached then s.lru + [e] else s.lru
    ensures ByRelease(Unref(s, e).lru, released[e := now], now + 1)
    ensures Unref(s, e).deleted == (if held[e] == 1 && e !in s.cached then s.deleted + [e] else s.deleted) && Unref(s, e).usage == s.usage
  {
    assert HandleInv(s, held, None, e);
    CountMember(s.lru, e);
    RemoveNothing(s.lru, e);
    ByReleaseLast(s.lru, e, released, now);
  }

  lemma WithoutOne(q: seq<Id>, e: Id, x: Id)
    requires CountIn(q, e) <= 1
    ensures x in RemoveOne(q, e) <==> x in q && x != e
  {
    CountRemoveOne(q, e, x);
    CountMember(q, x);
    CountMember(q, e);
    CountMember(RemoveOne(q, e), x);
  }

  /** A lookup takes the entry out of the unused ones and leaves the order of the others. */
  lemma ReferredOrder(s: Shard, held: multiset<Id>, e: Id, released: map<Id, nat>, now: nat)
    requires Inv(s, held, None) && ByRelease(s.lru, released, now) && e in s.refs
    ensures ByRelease(Ref(s, e).lru, released, now) && forall x :: x in Ref(s, e).lru <==> x in s.lru && x != e
    ensures Ref(s, e).deleted == s.deleted && Ref(s, e).usage == s.usage && Ref(s, e).cached == s.cached
  {
    assert HandleInv(s, held, None, e);
    CountMember(s.lru, e);
    ByReleaseWithout(s.lru, e, released, now);
    forall x ensures x in RemoveOne(s.lru, e) <==> x in s.lru && x != e { WithoutOne(s.lru, e, x); }
  }

  lemma ErasedOrder(s: Shard, key: Key, released: map<Id, nat>, now: nat)
    requires ByRelease(s.lru, released, now)
    ensures ByRelease(Erased(s, key).lru, released, now) && Erased(s, key).cached <= s.cached
  {
    if key in s.table { ByReleaseWithout(s.lru, s.table[key], released, now); }
  }

  lemma IdleIsKnown(s: Shard, held: multiset<Id>, id: Id)
    requires Inv(s, held, None) && id in s.lru
    ensures id < |s.info| && id in s.cached
  {
    OneList(s, held, id);
    assert HandleInv(s, held, None, id);
  }

  /** Of the unused entries an insertion takes away the one it replaces, and no other. */
  lemma InsertedOrder(s: Shard, held: multiset<Id>, x: Info, capacity: nat, released: map<Id, nat>, now: nat)
    requires Inv(s, held, None) && ByRelease(s.lru, released, now)
    ensures ByRelease(Inserted(s, x, capacity).lru, released, now)
    ensures forall id :: id in s.lru ==> id < |s.info| && (s.info[id].key != x.key ==> id in Inserted(s, x, capacity).lru)
    ensures capacity == 0 ==> Inserted(s, x, capacity).cached == s.cached
  {
    if capacity > 0 && x.key in s.table {
      var e := s.table[x.key];
      assert HandleInv(s, held, None, e);
      ByReleaseWithout(s.lru, e, released, now);
      forall id | id in s.lru ensures id < |s.info| && (s.info[id].key != x.key ==> id in RemoveOne(s.lru, e)) {
        IdleIsKnown(s, held, id);
        WithoutOne(s.lru, e, id);
      }
    } else {
      forall id | id in s.lru ensures id < |s.info| { IdleIsKnown(s, held, id); }
    }
  }

  // ----- the whole state -----

  ghost predicate Good(s: Shard, held: multiset<Id>, released: map<Id, nat>, now: nat, capacity: nat) {
    Inv(s, held, None) && ByRelease(s.lru, released, now) && (capacity == 0 ==> s.cached == {})
  }

  lemma ReleasedGood(s: Shard, held: multiset<Id>, e: Id, released: map<Id, nat>, now: nat, capacity: nat)
    requires Good(s, held, released, now, capacity) && held[e] > 0
    ensures e in s.refs && s.refs[e] > 0 && Good(Unref(s, e), held - multiset{e}, released[e := now], now + 1, capacity)
  {
    UnrefKeeps(s, held, e);
    ReleasedOrder(s, held, e, released, now);
  }

  lemma ReferredGood(s: Shard, held: multiset<Id>, e: Id, released: map<Id, nat>, now: nat, capacity: nat)
    requires Good(s, held, released, now, capacity) && e in s.refs
    ensures Good(Ref(s, e), held + multiset{e}, released, now, capacity)
  {
    RefKeeps(s, held, e);
    ReferredOrder(s, held, e, released, now);
  }

  lemma ErasedGood(s: Shard, held: multiset<Id>, key: Key, released: map<Id, nat>, now: nat, capacity: nat)
    requires Good(s, held, released, now, capacity)
    ensures Good(Erased(s, key), held, released, now, capacity)
    ensures key in s.table ==> s.table[key] in s.refs && s.refs[s.table[key]] > 0 && s.table[key] < |s.info|
  {
    ErasedKeeps(s, held, key);
    ErasedOrder(s, key, released, now);
  }

  lemma InsertedGood(s: Shard, held: multiset<Id>, x: Info, released: map<Id, nat>, now: nat, capacity: nat)
    requires Good(s, held, released, now, capacity)
    ensures Good(Inserted(s, x, capacity), held + multiset{|s.info|}, released, now, capacity)
    ensures |s.info| !in Inserted(s, x, capacity).lru && Inserted(s, x, capacity).info == s.info + [x]
    ensures capacity > 0 ==> Inserted(s, x, capacity).table == s.table[x.key := |s.info|]
    ensures capacity > 0 && x.key in s.table ==>
      var e := s.table[x.key]; e in s.refs && s.refs[e] > 0 && e < |s.info|
  {
    InsertedKeeps(s, held, x, capacity);
    InsertedFacts(s, held, x, capacity);
    InsertedOrder(s, held, x, capacity, released, now);
  }

  class Cache {
    const capacity: nat
    const table: Table
    var info: seq<Info>
    var refs: map<Id, nat>
    var cached: set<Id>
    var lru: seq<Id>
    var inUse: seq<Id>
    var usage: int
    var deleted: seq<Id>
    /** The references that clients hold, when each entry was last released, and the time. */
    ghost var held: multiset<Id>
    ghost var released: map<Id, nat>
    ghost var now: nat

    constructor (capacity: nat, hash: Hash)
      ensures Valid() && fresh(table) && this.capacity == capacity && info == [] && held == multiset{}
    {
      this.capacity := capacity;
      table := new Table(hash);
      info, refs, cached, lru, inUse, usage, deleted := [], map[], {}, [], [], 0, [];
      held, released, now := multiset{}, map[], 0;
    }

    ghost function View(): Shard
      reads this, table
    {
      Shard(info, refs, cached, lru, inUse, usage, deleted, table.contents)
    }

    ghost predicate Valid()
      reads this, table
    {
      table.Valid() && Good(View(), held, released, now, capacity)
    }

    method UnrefEntry(e: Id)
      requires e in refs && refs[e] > 0
      modifies this`refs, this`lru, this`inUse, this`deleted
      ensures View() == Unref(old(View()), e)
    {
      refs := refs[e := refs[e] - 1];
      if refs[e] == 0 {
        deleted := deleted + [e];
        refs := refs - {e};
        assert refs == old(refs) - {e};
      } else if e in cached && refs[e] == 1 {
        lru, inUse := RemoveOne(lru, e), RemoveOne(inUse, e);
        lru := lru + [e];
      }
    }

    method RefEntry(e: Id)
      requires e in refs
      modifies this`refs, this`lru, this`inUse
      ensures View() == Ref(old(View()), e)
    {
      if refs[e] == 1 && e in cached {
        lru, inUse := RemoveOne(lru, e), RemoveOne(inUse, e);
        inUse := inUse + [e];
      }
      refs := refs[e := refs[e] + 1];
    }

    method FinishEraseEntry(e: Id)
      requires e in refs && refs[e] > 0 && e < |info|
      modifies this`refs, this`lru, this`inUse, this`deleted, this`cached, this`usage
      ensures View() == FinishErase(old(View()), e)
    {
      lru, inUse := RemoveOne(lru, e), RemoveOne(inUse, e);
      cached := cached - {e};
      usage := usage - info[e].charge;
      ghost var s := old(View());
      assert View() == s.(lru := RemoveOne(s.lru, e), inUse := RemoveOne(s.inUse, e), cached := s.cached - {e}, usage := s.usage - s.info[e].charge);
      UnrefEntry(e);
    }

    /** The client gets one more reference to the entry under `key`, if there is one. */
    method Lookup(key: Key) returns (e: Option<Id>)
      requires Valid()
      modifies this
      ensures Valid() && e == Get(table.contents, key)
      ensures held == if e.Some? then old(held) + multiset{e.value} else old(held)
      ensures info == old(info) && deleted == old(deleted) && cached == old(cached) && usage == old(usage)
      ensures released == old(released) && now == old(now)
      ensures forall x :: x in lru <==> x in old(lru) && e != Some(x)
    {
      e := table.Lookup(key);
      if e.Some? {
        assert HandleInv(View(), held, None, e.value);
        ReferredOrder(View(), held, e.value, released, now);
        ReferredGood(View(), held, e.value, released, now, capacity);
        RefEntry(e.value);
        held := held + multiset{e.value};
      }
    }

    /** A reference goes back; the deleter runs if it was the last and the entry is not cached. */
    method Release(e: Id)
      requires Valid() && held[e] > 0
      modifies this`refs, this`lru, this`inUse, this`deleted, this`held, this`released, this`now
      ensures Valid() && held == old(held) - multiset{e}
      ensures deleted == if held[e] == 0 && e !in cached then old(deleted) + [e] else old(deleted)
      ensures lru == if held[e] == 0 && e in cached then old(lru) + [e] else old(lru)
      ensures released == old(released)[e := old(now)] && now == old(now) + 1
    {
      ghost var s, before, since, at := View(), held, released, now;
      assert e in refs && refs[e] > 0 by { ReleasedGood(s, before, e, since, at, capacity); }
      held, released, now := held - multiset{e}, released[e := now], now + 1;
      UnrefEntry(e);
      assert Valid() by { ReleasedGood(s, before, e, since, at, capacity); }
      assert held[e] == before[e] - 1;
      ReleasedOrder(s, before, e, since, at);
    }

    /** The key is unmapped; its entry is deleted unless a client still uses it. */
    method Erase(key: Key)
      requires Valid()
      modifies this, table
      ensures Valid() && held == old(held) && View() == Erased(old(View()), key)
      ensures released == old(released) && now == old(now)
    {
      ErasedGood(View(), held, key, released, now, capacity);
      var e := table.Remove(key);
      if e.Some? {
        FinishEraseEntry(e.value);
      } else {
        assert table.contents == old(table.contents);
      }
    }

    /** Takes out the oldest entry that nobody uses, and deletes it. */
    method EvictOldest()
      requires Valid() && lru != []
      modifies this, table
      ensures Valid() && held == old(held)
      ensures Evictions(old(View()), View(), 1) && released == old(released) && now == old(now)
      ensures old(lru)[0] < |info| && usage == old(usage) - info[old(lru)[0]].charge
    {
      EvictedAtOldEnd(View(), held);
      Erase(info[lru[0]].key);
    }

    /** One more of the evictions that started from `s`. */
    method EvictNext(ghost s: Shard, ghost n: nat)
      requires Valid() && lru != [] && Evictions(s, View(), n)
      modifies this, table
      ensures Valid() && held == old(held) && |lru| < |old(lru)| && Evictions(s, View(), n + 1)
      ensures released == old(released) && now == old(now)
      ensures s.lru[n] < |info| && usage == old(usage) - info[s.lru[n]].charge
    {
      ghost var t := View();
      EvictOldest();
      EvictionsStep(s, t, View(), n);
    }

    /** Drops everything that nobody uses. */
    method Prune()
      requires Valid()
      modifies this, table
      ensures Valid() && held == old(held)
      ensures lru == [] && Evictions(old(View()), View(), |old(lru)|) && released == old(released) && now == old(now)
    {
      ghost var n := 0;
      while lru != []
        invariant Valid() && held == old(held) && released == old(released) && now == old(now)
        invariant Evictions(old(View()), View(), n)
        decreases |lru|
      {
        EvictNext(old(View()), n);
        n := n + 1;
      }
    }

    /** The loop of Insert: the oldest entries go, and no more of them than needed. */
    method EvictToCapacity() returns (ghost n: nat)
      requires Valid()
      modifies this, table
      ensures Valid() && held == old(held)
      ensures usage <= capacity || lru == []
      ensures Evictions(old(View()), View(), n)
      ensures WasNeeded(old(View()), View(), n, capacity)
      ensures released == old(released) && now == old(now)
      ensures forall x, y :: x in old(lru) && x !in lru && y in lru ==> released[x] < released[y]
    {
      ghost var s := View();
      ghost var was, at := released, now;
      n := 0;
      while usage > capacity && lru != []
        invariant Valid() && held == old(held) && released == was && now == at
        invariant Evictions(s, View(), n)
        invariant WasNeeded(s, View(), n, capacity)
        decreases |lru|
      {
        EvictNext(s, n);
        n := n + 1;
      }
      assert forall x, y :: x in s.lru && x !in lru && y in lru ==> released[x] < released[y] by {
        ByReleaseTail(s.lru, n, was, at);
      }
    }

    /** The new entry replaces what its key was mapped to; afterwards the cache is within its capacity or everything in it is in use. */
    method Insert(key: Key, value: int, charge: nat) returns (e: Id)
      requires Valid()
      modifies this, table
      ensures Valid() && e == |old(info)| && info == old(info) + [Info(key, value, charge)]
      ensures held == old(held) + multiset{e}
      ensures usage <= capacity || lru == []
      ensures capacity > 0 ==> key in table.contents && table.contents[key] == e
      ensures exists n :: Evictions(Inserted(old(View()), Info(key, value, charge), capacity), View(), n)
      ensures released == old(released) && now == old(now)
      ensures forall x, y :: x in old(lru) && x !in lru && x < |info| && info[x].key != key && y in lru ==> released[x] < released[y]
    {
      e := AddEntry(key, value, charge);
      ghost var s := View();
      ghost var n := EvictToCapacity();
      assert Evictions(s, View(), n);
    }

    method AddEntry(key: Key, value: int, charge: nat) returns (e: Id)
      requires Valid()
      modifies this, table
      ensures Valid() && e == |old(info)| && held == old(held) + multiset{e}
      ensures View() == Inserted(old(View()), Info(key, value, charge), capacity)
      ensures info == old(info) + [Info(key, value, charge)] && e !in lru
      ensures capacity > 0 ==> table.contents == old(table.contents)[key := e]
      ensures released == old(released) && now == old(now)
      ensures forall x :: x in old(lru) ==> x < |old(info)| && (old(info)[x].key != key ==> x in lru)
    {
      InsertedOrder(View(), held, Info(key, value, charge), capacity, released, now);
      InsertedGood(View(), held, Info(key, value, charge), released, now, capacity);
      var old_;
      e, old_ := Attach(key, value, charge);
      if old_.Some? {
        FinishEraseEntry(old_.value);
      }
      held := held + multiset{e};
    }

    /** The new entry is in use, cached, charged and mapped, or not cached at all. */
    method Attach(key: Key, value: int, charge: nat) returns (e: Id, old_: Option<Id>)
      requires table.Valid()
      modifies this`info, this`refs, this`cached, this`inUse, this`usage, table
      ensures table.Valid() && e == |old(info)|
      ensures View() == Added(old(View()), Info(key, value, charge), capacity)
      ensures old_ == if capacity > 0 then Get(old(table.contents), key) else None
    {
      e, old_ := |info|, None;
      info := info + [Info(key, value, charge)];
      if capacity > 0 {
        refs := refs[e := 2];
        cached := cached + {e};
        inUse := inUse + [e];
        usage := usage + charge;
        old_ := table.Insert(key, e);
      } else {
        refs := refs[e := 1];
      }
    }
  }

  /** The `n` oldest entries that nobody uses were deleted, oldest first; the rest is as it was. */
  ghost predicate Evictions(s: Shard, t: Shard, n: nat) {
    && n <= |s.lru| && t.lru == s.lru[n..] && t.deleted == s.deleted + s.lru[..n]
    && t.inUse == s.inUse && t.info == s.info
    && (forall k :: k in t.table ==> k in s.table && t.table[k] == s.table[k])
    && (forall k :: k in s.table && s.table[k] !in s.lru[..n] ==> k in t.table)
  }

  /** Without the last eviction the cache would be over its capacity. */
  ghost predicate WasNeeded(s: Shard, t: Shard, n: nat, capacity: nat) {
    0 < n <= |s.lru| ==> s.lru[n - 1] < |t.info| && t.usage + t.info[s.lru[n - 1]].charge > capacity
  }

  lemma EvictedAtOldEnd(s: Shard, held: multiset<Id>)
    requires Inv(s, held, None) && s.lru != []
    ensures s.lru[0] < |s.info|
    ensures var t := Erased(s, s.info[s.lru[0]].key); Evictions(s, t, 1) && t.usage == s.usage - s.info[s.lru[0]].charge
  {
    OldestIsEvictable(s, held);
    EvictedIsOldest(s, held);
  }

  lemma EvictionsStep(s: Shard, t: Shard, u: Shard, n: nat)
    requires Evictions(s, t, n) && Evictions(t, u, 1)
    ensures Evictions(s, u, n + 1) && s.lru[n] == t.lru[0]
  {
    assert s.lru[..n + 1] == s.lru[..n] + [s.lru[n]];
    assert t.lru[..1] == [s.lru[n]];
  }
}
