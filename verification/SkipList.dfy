/**
 The skip list (db/skiplist.h). Readers take no lock: they follow links while an
 insertion publishes a node level by level, one pointer store at a time.
 */
module SkipList {
  import opened Options

  const kMaxHeight: nat := 12
  const Null: int := -1

  /** Keys are compared only, by a total order. */
  type Key = real

  datatype Node = Node(key: Key, next: seq<int>)

  /** Node 0 is head_. */
  datatype List = List(nodes: seq<Node>, maxHeight: nat)

  predicate Linked(list: List, l: nat, n: int) {
    0 <= n < |list.nodes| && l < |list.nodes[n].next|
  }

  function Next(list: List, n: int, l: nat): int
    requires Linked(list, l, n)
  {
    list.nodes[n].next[l]
  }

  /** One store to one pointer. */
  function SetNext(list: List, n: int, l: nat, m: int): (r: List)
    requires Linked(list, l, n)
    ensures |r.nodes| == |list.nodes| && r.maxHeight == list.maxHeight
    ensures forall k :: 0 <= k < |r.nodes| ==> r.nodes[k].key == list.nodes[k].key && |r.nodes[k].next| == |list.nodes[k].next|
    ensures forall k, h :: Linked(list, h, k) ==> Next(r, k, h) == if k == n && h == l then m else Next(list, k, h)
  {
    list.(nodes := list.nodes[n := list.nodes[n].(next := list.nodes[n].next[l := m])])
  }

  /** The nodes met when following level `l` from the head, in order. */
  ghost predicate IsChain(list: List, l: nat, c: seq<nat>) {
    && |c| > 0 && c[0] == 0
    && (forall i :: 0 <= i < |c| ==> Linked(list, l, c[i]))
    && (forall i, j :: 0 <= i < j < |c| && j == i + 1 ==> Next(list, c[i], l) == c[j])
    && Next(list, c[|c| - 1], l) == Null
    && Ascending(list, c)
  }

  ghost predicate Ascending(list: List, c: seq<nat>) {
    && (forall i :: 0 <= i < |c| ==> c[i] < |list.nodes|)
    && (forall i :: 1 <= i < |c| ==> c[i] != 0)
    && (forall i, j :: 1 <= i < j < |c| ==> list.nodes[c[i]].key < list.nodes[c[j]].key)
  }

  /** Each level is sorted, and a sublist of the level below. */
  ghost predicate Valid(list: List, chains: seq<seq<nat>>) {
    && |chains| == kMaxHeight && 1 <= list.maxHeight <= kMaxHeight
    && (forall l :: 0 <= l < kMaxHeight ==> IsChain(list, l, chains[l]))
    && (forall l, m :: 0 <= l < m < kMaxHeight && m == l + 1 ==> Within(chains[m], chains[l]))
    && (forall l :: list.maxHeight <= l < kMaxHeight ==> chains[l] == [0])
  }

  ghost predicate Within(a: seq<nat>, b: seq<nat>) {
    forall n :: n in a ==> n in b
  }

  /** KeyIsAfterNode; without a bound every node is passed, as in FindLast. */
  predicate IsAfter(list: List, bound: Option<Key>, n: int)
    requires n < |list.nodes|
  {
    n >= 0 && (bound.Some? ==> list.nodes[n].key < bound.value)
  }

  /** Place `i` of chain `c` is the last one before the bound. */
  ghost predicate LastBefore(list: List, c: seq<nat>, bound: Option<Key>, i: nat) {
    && Ascending(list, c) && i < |c|
    && (forall k :: 1 <= k <= i ==> IsAfter(list, bound, c[k]))
    && (forall k :: i < k < |c| ==> !IsAfter(list, bound, c[k]))
  }

  function Following(c: seq<nat>, i: nat): int { if i + 1 < |c| then c[i + 1] else Null }

  /** `at` and `next` enclose the bound on chain `c`. */
  ghost predicate Encloses(list: List, c: seq<nat>, bound: Option<Key>, at: int, next: int) {
    exists i: nat :: LastBefore(list, c, bound, i) && c[i] == at && Following(c, i) == next
  }

  /** Node `n` is the last one before the bound on level `l`. */
  ghost predicate IsPrev(list: List, c: seq<nat>, bound: Option<Key>, l: nat, n: nat) {
    exists i: nat :: LastBefore(list, c, bound, i) && c[i] == n
  }

  /** A node at which a search may be: on its level, the head or before the bound. */
  ghost predicate Reached(list: List, chains: seq<seq<nat>>, bound: Option<Key>, at: int, level: nat) {
    && level < |chains| && 0 <= at < |list.nodes| && at in chains[level]
    && (at == 0 || IsAfter(list, bound, at))
  }

  /** One load of one pointer keeps a search on track. */
  lemma ReachedNext(list: List, chains: seq<seq<nat>>, bound: Option<Key>, at: int, level: nat)
    requires Valid(list, chains) && Reached(list, chains, bound, at, level)
    ensures Linked(list, level, at) && Next(list, at, level) < |list.nodes|
    ensures IsAfter(list, bound, Next(list, at, level)) ==> Reached(list, chains, bound, Next(list, at, level), level)
    ensures !IsAfter(list, bound, Next(list, at, level)) ==> Encloses(list, chains[level], bound, at, Next(list, at, level))
  {
    var c := chains[level];
    assert IsChain(list, level, c);
    var i :| 0 <= i < |c| && c[i] == at;
    if i + 1 < |c| {
      assert Next(list, c[i], level) == c[i + 1];
    }
    if !IsAfter(list, bound, Next(list, at, level)) {
      assert LastBefore(list, c, bound, i);
    }
  }

  lemma ReachedBelow(list: List, chains: seq<seq<nat>>, bound: Option<Key>, at: int, level: nat)
    requires Valid(list, chains) && Reached(list, chains, bound, at, level) && level > 0
    ensures Reached(list, chains, bound, at, level - 1)
  {
    assert Within(chains[level], chains[level - 1]);
  }

  // ----- searching a list that nobody changes -----

  /** A search is at place `i` of its level. */
  ghost predicate Searching(list: List, chains: seq<seq<nat>>, bound: Option<Key>, at: int, level: nat, i: nat) {
    Reached(list, chains, bound, at, level) && i < |chains[level]| && chains[level][i] == at
  }

  lemma SearchNext(list: List, chains: seq<seq<nat>>, bound: Option<Key>, at: int, level: nat, i: nat)
    requires Valid(list, chains) && level < kMaxHeight && Searching(list, chains, bound, at, level, i)
    ensures Linked(list, level, at) && Next(list, at, level) < |list.nodes|
    ensures IsAfter(list, bound, Next(list, at, level)) ==> Searching(list, chains, bound, Next(list, at, level), level, i + 1)
    ensures !IsAfter(list, bound, Next(list, at, level)) ==>
              Encloses(list, chains[level], bound, at, Next(list, at, level)) && IsPrev(list, chains[level], bound, level, at)
  {
    ReachedNext(list, chains, bound, at, level);
    assert IsChain(list, level, chains[level]);
  }

  lemma SearchBelow(list: List, chains: seq<seq<nat>>, bound: Option<Key>, at: int, level: nat, i: nat) returns (j: nat)
    requires Valid(list, chains) && 0 < level < kMaxHeight && Searching(list, chains, bound, at, level, i)
    ensures Searching(list, chains, bound, at, level - 1, j)
  {
    ReachedBelow(list, chains, bound, at, level);
    j :| 0 <= j < |chains[level - 1]| && chains[level - 1][j] == at;
  }

  /** FindGreaterOrEqual returns `next`, FindLessThan and FindLast return `at`; `prev` is filled level by level. */
  method Find(list: List, bound: Option<Key>, ghost chains: seq<seq<nat>>) returns (at: int, next: int, prev: seq<nat>)
    requires Valid(list, chains)
    ensures Encloses(list, chains[0], bound, at, next)
    ensures |prev| == list.maxHeight
    ensures forall l :: 0 <= l < |prev| ==> IsPrev(list, chains[l], bound, l, prev[l])
  {
    at := 0;
    var level := list.maxHeight - 1;
    prev := seq(list.maxHeight, i => 0);
    ghost var i := 0;
    while true
      invariant 0 <= level < list.maxHeight && |prev| == list.maxHeight
      invariant Searching(list, chains, bound, at, level, i)
      invariant forall l :: level < l < |prev| ==> IsPrev(list, chains[l], bound, l, prev[l])
      decreases level, |chains[level]| - i
    {
      SearchNext(list, chains, bound, at, level, i);
      next := Next(list, at, level);
      if IsAfter(list, bound, next) {
        at, i := next, i + 1;
      } else {
        prev := prev[level := at];
        if level == 0 {
          return;
        }
        i := SearchBelow(list, chains, bound, at, level, i);
        level := level - 1;
      }
    }
  }

  // ----- inserting, one store at a time -----

  /** Insert has made node `x` and linked it on the levels below `level`; `own` says that x->next_[level] is set. */
  datatype Insertion = Insertion(x: nat, height: nat, prev: seq<nat>, level: nat, own: bool)

  ghost predicate Fresh(list: List, key: Key, c: seq<nat>) {
    forall i :: 1 <= i < |c| ==> c[i] < |list.nodes| && list.nodes[c[i]].key != key
  }

  /** What holds between any two stores of an insertion. */
  ghost predicate InsertInv(list: List, chains: seq<seq<nat>>, ins: Insertion) {
    && Valid(list, chains)
    && 0 < ins.x < |list.nodes| && |list.nodes[ins.x].next| == ins.height <= |ins.prev|
    && ins.level <= ins.height <= list.maxHeight
    && (forall l :: 0 <= l < ins.level ==> ins.x in chains[l])
    && (forall l :: ins.level <= l < kMaxHeight ==> ins.x !in chains[l])
    && (forall l :: 0 <= l < kMaxHeight && ins.x !in chains[l] ==> Fresh(list, list.nodes[ins.x].key, chains[l]))
    && (forall l :: ins.level <= l < ins.height ==> IsPrev(list, chains[l], Some(list.nodes[ins.x].key), l, ins.prev[l]))
    && (ins.own ==>
      && ins.level < ins.height && Linked(list, ins.level, ins.prev[ins.level])
      && Next(list, ins.x, ins.level) == Next(list, ins.prev[ins.level], ins.level))
  }

  /** x->NoBarrier_SetNext(i, prev[i]->NoBarrier_Next(i)). */
  ghost predicate StoreOwn(list: List, ins: Insertion, list': List, ins': Insertion) {
    && ins.level < ins.height <= |ins.prev| && !ins.own
    && Linked(list, ins.level, ins.x) && Linked(list, ins.level, ins.prev[ins.level])
    && list' == SetNext(list, ins.x, ins.level, Next(list, ins.prev[ins.level], ins.level))
    && ins' == ins.(own := true)
  }

  /** prev[i]->SetNext(i, x): the node becomes part of level i. */
  ghost predicate StorePrev(list: List, ins: Insertion, list': List, ins': Insertion) {
    && ins.level < ins.height <= |ins.prev| && ins.own
    && Linked(list, ins.level, ins.prev[ins.level])
    && list' == SetNext(list, ins.prev[ins.level], ins.level, ins.x)
    && ins' == ins.(level := ins.level + 1, own := false)
  }

  ghost function WithNode(c: seq<nat>, i: nat, x: nat): seq<nat>
    requires i < |c|
  {
    c[..i + 1] + [x] + c[i + 1..]
  }

  /** A store to a link that is not on a chain leaves the chain as it is. */
  lemma ChainStays(list: List, l: nat, c: seq<nat>, n: int, h: nat, m: int)
    requires IsChain(list, l, c) && Linked(list, h, n) && (h != l || n !in c)
    ensures IsChain(SetNext(list, n, h, m), l, c)
  {
  }

  lemma PrevStays(list: List, list': List, c: seq<nat>, bound: Option<Key>, l: nat, n: nat)
    requires IsPrev(list, c, bound, l, n) && |list'.nodes| == |list.nodes|
    requires forall k :: 0 <= k < |list.nodes| ==> list'.nodes[k].key == list.nodes[k].key
    ensures IsPrev(list', c, bound, l, n)
  {
    var i: nat :| LastBefore(list, c, bound, i) && c[i] == n;
    assert LastBefore(list', c, bound, i);
  }

  lemma StoreOwnValid(list: List, chains: seq<seq<nat>>, x: nat, h: nat, m: int)
    requires Valid(list, chains) && Linked(list, h, x) && (h < kMaxHeight ==> x !in chains[h])
    ensures Valid(SetNext(list, x, h, m), chains)
  {
    forall l | 0 <= l < kMaxHeight ensures IsChain(SetNext(list, x, h, m), l, chains[l]) {
      ChainStays(list, l, chains[l], x, h, m);
    }
  }

  lemma StoreOwnKeeps(list: List, chains: seq<seq<nat>>, ins: Insertion, list': List, ins': Insertion)
    requires InsertInv(list, chains, ins) && StoreOwn(list, ins, list', ins')
    ensures InsertInv(list', chains, ins')
  {
    StoreOwnValid(list, chains, ins.x, ins.level, Next(list, ins.prev[ins.level], ins.level));
    forall l | ins.level <= l < ins.height ensures IsPrev(list', chains[l], Some(list'.nodes[ins.x].key), l, ins.prev[l]) {
      PrevStays(list, list', chains[l], Some(list.nodes[ins.x].key), l, ins.prev[l]);
    }
  }

  lemma WithNodeAt(c: seq<nat>, i: nat, x: nat, k: nat)
    requires i < |c| && k <= |c|
    ensures |WithNode(c, i, x)| == |c| + 1
    ensures WithNode(c, i, x)[k] == if k <= i then c[k] else if k == i + 1 then x else c[k - 1]
  {
  }

  lemma WithNodeAscends(list: List, c: seq<nat>, i: nat, x: nat)
    requires Ascending(list, c) && 0 < x < |list.nodes|
    requires LastBefore(list, c, Some(list.nodes[x].key), i) && Fresh(list, list.nodes[x].key, c)
    ensures Ascending(list, WithNode(c, i, x))
  {
    var d := WithNode(c, i, x);
    forall k | 0 <= k < |d| ensures d[k] < |list.nodes| && (k >= 1 ==> d[k] != 0) {
      WithNodeAt(c, i, x, k);
    }
    forall k, m | 1 <= k < m < |d| ensures list.nodes[d[k]].key < list.nodes[d[m]].key {
      WithNodeAt(c, i, x, k);
      WithNodeAt(c, i, x, m);
    }
  }

  /** The store to prev[l] turns the chain into one with the node in its place. */
  lemma ChainGrows(list: List, l: nat, c: seq<nat>, i: nat, x: nat)
    requires IsChain(list, l, c) && 0 < x && x !in c && Linked(list, l, x)
    requires LastBefore(list, c, Some(list.nodes[x].key), i) && Fresh(list, list.nodes[x].key, c)
    requires Next(list, x, l) == Following(c, i)
    ensures IsChain(SetNext(list, c[i], l, x), l, WithNode(c, i, x))
  {
    var list', d := SetNext(list, c[i], l, x), WithNode(c, i, x);
    WithNodeAscends(list, c, i, x);
    DistinctNodes(list, c);
    forall k | 0 <= k < |d| ensures Linked(list', l, d[k]) { WithNodeAt(c, i, x, k); }
    forall k, m | 0 <= k < m < |d| && m == k + 1 ensures Next(list', d[k], l) == d[m] {
      WithNodeAt(c, i, x, k);
      WithNodeAt(c, i, x, m);
    }
    WithNodeAt(c, i, x, |d| - 1);
  }

  lemma DistinctNodes(list: List, c: seq<nat>)
    requires Ascending(list, c)
    ensures forall i, j :: 1 <= i < j < |c| ==> c[i] != c[j]
  {
  }

  lemma StorePrevKeeps(list: List, chains: seq<seq<nat>>, ins: Insertion, list': List, ins': Insertion, i: nat)
    requires InsertInv(list, chains, ins) && StorePrev(list, ins, list', ins')
    requires LastBefore(list, chains[ins.level], Some(list.nodes[ins.x].key), i) && chains[ins.level][i] == ins.prev[ins.level]
    ensures InsertInv(list', chains[ins.level := WithNode(chains[ins.level], i, ins.x)], ins')
  {
    var l, key := ins.level, list.nodes[ins.x].key;
    var c := chains[l];
    assert IsChain(list, l, c);
    FollowingIsNext(list, l, c, i);
    ChainGrows(list, l, c, i, ins.x);
    StorePrevValid(list, chains, list', ins, i);
    StorePrevRest(list, chains, ins, list', ins', i);
  }

  lemma FollowingIsNext(list: List, l: nat, c: seq<nat>, i: nat)
    requires IsChain(list, l, c) && i < |c|
    ensures Next(list, c[i], l) == Following(c, i)
  {
    if i + 1 < |c| { assert Next(list, c[i], l) == c[i + 1]; }
  }

  lemma WithNodeMembers(c: seq<nat>, i: nat, x: nat, n: nat)
    requires i < |c|
    ensures n in WithNode(c, i, x) <==> n in c || n == x
  {
    assert c == c[..i + 1] + c[i + 1..];
  }

  lemma StorePrevValid(list: List, chains: seq<seq<nat>>, list': List, ins: Insertion, i: nat)
    requires InsertInv(list, chains, ins) && ins.level < ins.height && i < |chains[ins.level]|
    requires Linked(list, ins.level, ins.prev[ins.level]) && list' == SetNext(list, ins.prev[ins.level], ins.level, ins.x)
    requires IsChain(list', ins.level, WithNode(chains[ins.level], i, ins.x))
    ensures Valid(list', chains[ins.level := WithNode(chains[ins.level], i, ins.x)])
  {
    var h := ins.level;
    var d := WithNode(chains[h], i, ins.x);
    var chains' := chains[h := d];
    forall l | 0 <= l < kMaxHeight ensures IsChain(list', l, chains'[l]) {
      if l != h { ChainStays(list, l, chains[l], ins.prev[h], h, ins.x); }
    }
    forall l, m | 0 <= l < m < kMaxHeight && m == l + 1 ensures Within(chains'[m], chains'[l]) {
      assert Within(chains[m], chains[l]);
      StaysWithin(chains, h, i, ins.x, l, m);
    }
  }

  lemma StaysWithin(chains: seq<seq<nat>>, h: nat, i: nat, x: nat, l: nat, m: nat)
    requires h < |chains| && i < |chains[h]| && m == l + 1 < |chains| && Within(chains[m], chains[l])
    requires m == h ==> x in chains[l]
    ensures var chains' := chains[h := WithNode(chains[h], i, x)]; Within(chains'[m], chains'[l])
  {
    var chains' := chains[h := WithNode(chains[h], i, x)];
    forall n | n in chains'[m] ensures n in chains'[l] {
      WithNodeMembers(chains[h], i, x, n);
    }
  }

  lemma FreshStays(list: List, list': List, key: Key, c: seq<nat>)
    requires Fresh(list, key, c) && |list'.nodes| == |list.nodes|
    requires forall n :: 0 <= n < |list.nodes| ==> list'.nodes[n].key == list.nodes[n].key
    ensures Fresh(list', key, c)
  {
  }

  lemma StorePrevRest(list: List, chains: seq<seq<nat>>, ins: Insertion, list': List, ins': Insertion, i: nat)
    requires InsertInv(list, chains, ins) && StorePrev(list, ins, list', ins') && i < |chains[ins.level]|
    requires Valid(list', chains[ins.level := WithNode(chains[ins.level], i, ins.x)])
    ensures InsertInv(list', chains[ins.level := WithNode(chains[ins.level], i, ins.x)], ins')
  {
    WithNodeMembers(chains[ins.level], i, ins.x, ins.x);
    forall l | 0 <= l < kMaxHeight && l != ins.level && ins.x !in chains[l] ensures Fresh(list', list'.nodes[ins.x].key, chains[l]) {
      FreshStays(list, list', list.nodes[ins.x].key, chains[l]);
    }
    forall l | ins'.level <= l < ins.height ensures IsPrev(list', chains[l], Some(list'.nodes[ins.x].key), l, ins.prev[l]) {
      PrevStays(list, list', chains[l], Some(list.nodes[ins.x].key), l, ins.prev[l]);
    }
  }
}
