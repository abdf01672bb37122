/**
 Searches of a skip list that run while nodes are being inserted, and the list
 as an object.
 */
module SkipListRuns {
  import opened Options
  import opened SkipList

  /** A search between two loads. */
  datatype Search = Search(bound: Option<Key>, at: int, level: nat)

  /** What a search returned: FindGreaterOrEqual `next`, FindLessThan and FindLast `at`. */
  datatype Result = Result(bound: Option<Key>, at: int, next: int)

  /** `chains` are the nodes of each level in order, which the list determines. */
  datatype State = State(list: List, chains: seq<seq<nat>>, ins: Option<Insertion>, search: Option<Search>, result: Option<Result>)

  ghost predicate Keys(list: List, c: seq<nat>, k: Key) {
    exists i :: 1 <= i < |c| && c[i] < |list.nodes| && list.nodes[c[i]].key == k
  }

  /** Insert has found its place, raised max_height_ and made the node. */
  ghost predicate Begins(list: List, chains: seq<seq<nat>>, list': List, ins: Insertion, key: Key) {
    && |chains| == kMaxHeight && 1 <= ins.height <= kMaxHeight && |ins.prev| >= ins.height
    && Fresh(list, key, chains[0])
    && (forall l :: 0 <= l < ins.height ==> IsPrev(list, chains[l], Some(key), l, ins.prev[l]))
    && list' == List(list.nodes + [Node(key, seq(ins.height, i => Null))], if ins.height > list.maxHeight then ins.height else list.maxHeight)
    && ins.x == |list.nodes| && ins.level == 0 && !ins.own
  }

  ghost predicate BeginInsert(s: State, s': State, key: Key) {
    && s.ins == None && s'.ins.Some?
    && Begins(s.list, s.chains, s'.list, s'.ins.value, key)
    && s' == s.(list := s'.list, ins := s'.ins)
  }

  ghost predicate Own(s: State, s': State) {
    && s.ins.Some? && s'.ins.Some? && StoreOwn(s.list, s.ins.value, s'.list, s'.ins.value)
    && s' == s.(list := s'.list, ins := s'.ins)
  }

  ghost predicate Publish(s: State, s': State, i: nat) {
    && s.ins.Some? && s'.ins.Some? && StorePrev(s.list, s.ins.value, s'.list, s'.ins.value)
    && var Insertion(x, _, prev, level, _) := s.ins.value;
    && level < |s.chains| && x < |s.list.nodes|
    && LastBefore(s.list, s.chains[level], Some(s.list.nodes[x].key), i) && s.chains[level][i] == prev[level]
    && s' == s.(list := s'.list, ins := s'.ins, chains := s.chains[level := WithNode(s.chains[level], i, x)])
  }

  ghost predicate EndInsert(s: State, s': State) {
    s.ins.Some? && s.ins.value.level == s.ins.value.height && s' == s.(ins := None)
  }

  /** A search starts at the top as it read max_height_, which may be out of date. */
  ghost predicate StartSearch(s: State, s': State, bound: Option<Key>, level: nat) {
    level < kMaxHeight && s' == s.(search := Some(Search(bound, 0, level)), result := None)
  }

  /** One load: the search moves on, goes down or returns. */
  ghost predicate Load(s: State, s': State) {
    && s.search.Some?
    && var Search(bound, at, level) := s.search.value;
    && Linked(s.list, level, at) && Next(s.list, at, level) < |s.list.nodes|
    && var next := Next(s.list, at, level);
    && s' == if IsAfter(s.list, bound, next) then s.(search := Some(Search(bound, next, level)))
             else if level > 0 then s.(search := Some(Search(bound, at, level - 1)))
             else s.(search := None, result := Some(Result(bound, at, next)))
  }

  ghost predicate Step(s: State, s': State) {
    || (exists key :: BeginInsert(s, s', key)) || Own(s, s') || (exists i :: Publish(s, s', i)) || EndInsert(s, s')
    || (exists bound, level :: StartSearch(s, s', bound, level)) || Load(s, s')
  }

  ghost predicate Init(s: State) {
    s == State(List([Node(0.0, seq(kMaxHeight, i => Null))], 1), seq(kMaxHeight, l => [0]), None, None, None)
  }

  ghost predicate SearchInv(s: State) {
    s.search.Some? ==> Reached(s.list, s.chains, s.search.value.bound, s.search.value.at, s.search.value.level)
  }

  ghost predicate Inv(s: State) {
    && Valid(s.list, s.chains)
    && (s.ins.Some? ==> InsertInv(s.list, s.chains, s.ins.value))
    && SearchInv(s)
  }

  lemma BeginKeepsValid(list: List, chains: seq<seq<nat>>, list': List, ins: Insertion, key: Key)
    requires Valid(list, chains) && Begins(list, chains, list', ins, key)
    ensures Valid(list', chains)
  {
    forall l | 0 <= l < kMaxHeight ensures IsChain(list', l, chains[l]) {
      assert IsChain(list, l, chains[l]);
    }
  }

  lemma {:induction false} FreshAbove(list: List, chains: seq<seq<nat>>, key: Key, l: nat)
    requires Valid(list, chains) && Fresh(list, key, chains[0]) && l < kMaxHeight
    ensures Fresh(list, key, chains[l])
  {
    if l > 0 {
      FreshAbove(list, chains, key, l - 1);
      var c, below := chains[l], chains[l - 1];
      assert Within(c, below) && IsChain(list, l, c);
      forall i | 1 <= i < |c| ensures list.nodes[c[i]].key != key {
        assert c[i] in c && c[i] in below;
        var j :| 0 <= j < |below| && below[j] == c[i];
      }
    }
  }

  lemma BeginKeeps(list: List, chains: seq<seq<nat>>, list': List, ins: Insertion, key: Key)
    requires Valid(list, chains) && Begins(list, chains, list', ins, key)
    ensures InsertInv(list', chains, ins)
  {
    BeginKeepsValid(list, chains, list', ins, key);
    forall l | 0 <= l < kMaxHeight
      ensures ins.x !in chains[l] && Fresh(list', key, chains[l])
    {
      FreshAbove(list, chains, key, l);
      assert IsChain(list, l, chains[l]);
    }
    forall l | 0 <= l < ins.height ensures IsPrev(list', chains[l], Some(key), l, ins.prev[l]) {
      var i: nat :| LastBefore(list, chains[l], Some(key), i) && chains[l][i] == ins.prev[l];
      assert LastBefore(list', chains[l], Some(key), i);
    }
  }

  /** A search is not put off its track when the list grows under it. */
  lemma ReachedStays(s: State, s': State)
    requires SearchInv(s) && s'.search == s.search && |s.chains| == |s'.chains|
    requires |s.list.nodes| <= |s'.list.nodes|
    requires forall k :: 0 <= k < |s.list.nodes| ==> s'.list.nodes[k].key == s.list.nodes[k].key
    requires forall l :: 0 <= l < |s.chains| ==> Within(s.chains[l], s'.chains[l])
    ensures SearchInv(s')
  {
  }

  lemma PublishKeeps(s: State, s': State, i: nat)
    requires Inv(s) && Publish(s, s', i)
    ensures Inv(s')
  {
    var ins := s.ins.value;
    StorePrevKeeps(s.list, s.chains, ins, s'.list, s'.ins.value, i);
    forall l | 0 <= l < |s.chains| ensures Within(s.chains[l], s'.chains[l]) {
      forall n | n in s.chains[l] ensures n in s'.chains[l] {
        WithNodeMembers(s.chains[ins.level], i, ins.x, n);
      }
    }
    ReachedStays(s, s');
  }

  lemma LoadKeeps(s: State, s': State)
    requires Inv(s) && Load(s, s')
    ensures Inv(s')
  {
    var Search(bound, at, level) := s.search.value;
    ReachedNext(s.list, s.chains, bound, at, level);
    if level > 0 { ReachedBelow(s.list, s.chains, bound, at, level); }
  }

  lemma InitInv(s: State)
    requires Init(s)
    ensures Inv(s)
  {
    forall l | 0 <= l < kMaxHeight ensures IsChain(s.list, l, s.chains[l]) {
      assert s.chains[l] == [0];
    }
  }

  lemma StepKeeps(s: State, s': State)
    requires Inv(s) && Step(s, s')
    ensures Inv(s')
  {
    if key :| BeginInsert(s, s', key) {
      BeginKeeps(s.list, s.chains, s'.list, s'.ins.value, key);
      ReachedStays(s, s');
    } else if Own(s, s') {
      StoreOwnKeeps(s.list, s.chains, s.ins.value, s'.list, s'.ins.value);
      ReachedStays(s, s');
    } else if i :| Publish(s, s', i) {
      PublishKeeps(s, s', i);
    } else if EndInsert(s, s') {
    } else if bound: Option<Key>, level: nat :| StartSearch(s, s', bound, level) {
      assert IsChain(s.list, level, s.chains[level]);
    } else {
      LoadKeeps(s, s');
    }
  }

  ghost predicate Run(states: seq<State>) {
    && states != [] && Init(states[0])
    && (forall i, j :: 0 <= i < j < |states| && j == i + 1 ==> Step(states[i], states[j]))
  }

  /** After every store each level is sorted and a sublist of the level below. */
  lemma {:induction false} RunKeeps(states: seq<State>, n: nat)
    requires Run(states) && n < |states|
    ensures Inv(states[n]) && Valid(states[n].list, states[n].chains)
    decreases n
  {
    if n == 0 {
      InitInv(states[0]);
    } else {
      RunKeeps(states, n - 1);
      assert Step(states[n - 1], states[n]);
      StepKeeps(states[n - 1], states[n]);
    }
  }

  /** The least key at or after the bound, among those on chain `c`. */
  ghost predicate LeastFrom(list: List, c: seq<nat>, bound: Option<Key>, next: int) {
    && (next != Null ==> next in c && next > 0 && next < |list.nodes| && !IsAfter(list, bound, next))
    && (forall k :: Keys(list, c, k) && bound.Some? && k >= bound.value ==> next != Null && 0 <= next < |list.nodes| && list.nodes[next].key <= k)
  }

  /** The greatest key before the bound, or the head. */
  ghost predicate GreatestBefore(list: List, c: seq<nat>, bound: Option<Key>, at: int) {
    && 0 <= at < |list.nodes| && at in c && (at != 0 ==> IsAfter(list, bound, at))
    && (forall k :: Keys(list, c, k) && (bound.Some? ==> k < bound.value) ==> at != 0 && k <= list.nodes[at].key)
  }

  lemma EnclosesDecides(list: List, c: seq<nat>, bound: Option<Key>, at: int, next: int)
    requires Encloses(list, c, bound, at, next) && |c| > 0 && c[0] == 0
    ensures LeastFrom(list, c, bound, next) && GreatestBefore(list, c, bound, at)
  {
    var i: nat :| LastBefore(list, c, bound, i) && c[i] == at && Following(c, i) == next;
    forall k | Keys(list, c, k) && bound.Some? && k >= bound.value
      ensures next != Null && 0 <= next < |list.nodes| && list.nodes[next].key <= k
    {
      var j :| 1 <= j < |c| && c[j] < |list.nodes| && list.nodes[c[j]].key == k;
      assert j > i;
    }
    forall k | Keys(list, c, k) && (bound.Some? ==> k < bound.value) ensures at != 0 && k <= list.nodes[at].key {
      var j :| 1 <= j < |c| && c[j] < |list.nodes| && list.nodes[c[j]].key == k;
      assert j <= i;
    }
  }

  /**
   Whatever was stored in between: a search that returns has found the right
   neighbours of its bound among the keys on level 0 at its last load.
   */
  lemma SearchesAreExact(states: seq<State>, n: nat)
    requires Run(states) && n + 1 < |states|
    requires Load(states[n], states[n + 1]) && states[n + 1].search == None
    ensures states[n + 1].result.Some?
    ensures var s, r := states[n], states[n + 1].result.value;
      |s.chains| > 0 && LeastFrom(s.list, s.chains[0], r.bound, r.next) && GreatestBefore(s.list, s.chains[0], r.bound, r.at)
  {
    RunKeeps(states, n);
    var s := states[n];
    var Search(bound, at, level) := s.search.value;
    ReachedNext(s.list, s.chains, bound, at, level);
    assert IsChain(s.list, 0, s.chains[0]);
    EnclosesDecides(s.list, s.chains[0], bound, at, Next(s.list, at, level));
  }

  /** A key is in the list from the store that links its node on level 0; no other step changes the keys. */
  lemma KeysChange(s: State, s': State, k: Key)
    requires Inv(s) && Step(s, s')
    ensures |s'.chains| > 0 && Keys(s'.list, s'.chains[0], k) <==>
      || Keys(s.list, s.chains[0], k)
      || (s.ins.Some? && s.ins.value.level == 0 && s'.ins.Some? && s'.ins.value.level == 1 && s.list.nodes[s.ins.value.x].key == k)
  {
    if i :| Publish(s, s', i) {
      PublishKeys(s, s', i, k);
    } else {
      OtherStepsKeepNodes(s, s');
      assert IsChain(s.list, 0, s.chains[0]);
      SameKeys(s.list, s'.list, s.chains[0], k);
    }
  }

  lemma OtherStepsKeepNodes(s: State, s': State)
    requires Step(s, s') && forall i :: !Publish(s, s', i)
    ensures s'.chains == s.chains && |s.list.nodes| <= |s'.list.nodes|
    ensures forall n :: 0 <= n < |s.list.nodes| ==> s'.list.nodes[n].key == s.list.nodes[n].key
    ensures !(s.ins.Some? && s.ins.value.level == 0 && s'.ins.Some? && s'.ins.value.level == 1)
  {
  }

  lemma PublishKeys(s: State, s': State, i: nat, k: Key)
    requires Inv(s) && Publish(s, s', i)
    ensures Keys(s'.list, s'.chains[0], k) <==>
      Keys(s.list, s.chains[0], k) || (s.ins.value.level == 0 && s.list.nodes[s.ins.value.x].key == k)
  {
    assert IsChain(s.list, 0, s.chains[0]);
    if s.ins.value.level == 0 {
      KeysWithNode(s.list, s'.list, s.chains[0], i, s.ins.value.x, k);
    } else {
      SameKeys(s.list, s'.list, s.chains[0], k);
    }
  }

  lemma SameKeys(list: List, list': List, c: seq<nat>, k: Key)
    requires |list.nodes| <= |list'.nodes| && Ascending(list, c)
    requires forall n :: 0 <= n < |list.nodes| ==> list'.nodes[n].key == list.nodes[n].key
    ensures Keys(list', c, k) <==> Keys(list, c, k)
  {
  }

  lemma KeysWithNode(list: List, list': List, c: seq<nat>, i: nat, x: nat, k: Key)
    requires |list.nodes| == |list'.nodes| && Ascending(list, c) && i < |c| && x < |list.nodes|
    requires forall n :: 0 <= n < |list.nodes| ==> list'.nodes[n].key == list.nodes[n].key
    ensures Keys(list', WithNode(c, i, x), k) <==> Keys(list, c, k) || list.nodes[x].key == k
  {
    var d := WithNode(c, i, x);
    if Keys(list, c, k) {
      var j :| 1 <= j < |c| && c[j] < |list.nodes| && list.nodes[c[j]].key == k;
      WithNodeAt(c, i, x, if j <= i then j else j + 1);
      assert d[if j <= i then j else j + 1] == c[j];
    } else if list.nodes[x].key == k {
      WithNodeAt(c, i, x, i + 1);
      assert d[i + 1] == x;
    } else if Keys(list', d, k) {
      var j :| 1 <= j < |d| && d[j] < |list'.nodes| && list'.nodes[d[j]].key == k;
      WithNodeAt(c, i, x, j);
    }
  }

  /** The list as its single writer sees it. */
  class SkipListObject {
    var list: List
    ghost var chains: seq<seq<nat>>

    constructor ()
      ensures Okay() && forall k :: !Holds(k)
    {
      list := List([Node(0.0, seq(kMaxHeight, i => Null))], 1);
      chains := seq(kMaxHeight, l => [0]);
      new;
      InitInv(State(list, chains, None, None, None));
    }

    ghost predicate Okay()
      reads this
    {
      Valid(list, chains)
    }

    ghost predicate Holds(k: Key)
      reads this
    {
      |chains| > 0 && Keys(list, chains[0], k)
    }

    method Contains(key: Key) returns (found: bool)
      requires Okay()
      ensures found == Holds(key)
    {
      var at, x, prev := Find(list, Some(key), chains);
      assert IsChain(list, 0, chains[0]);
      EnclosesDecides(list, chains[0], Some(key), at, x);
      found := x != Null && list.nodes[x].key == key;
      if found {
        ghost var i :| 0 <= i < |chains[0]| && chains[0][i] == x;
      }
    }

    /** `height` is what RandomHeight returns. */
    method Insert(key: Key, height: nat)
      requires Okay() && !Holds(key) && 1 <= height <= kMaxHeight
      modifies this
      ensures Okay() && forall k :: Holds(k) <==> old(Holds(k)) || k == key
    {
      var _, _, prev := Find(list, Some(key), chains);
      if height > list.maxHeight {
        prev := prev + seq(height - list.maxHeight, i => 0);
      }
      ghost var was := list;
      PrevForAll(list, chains, key, height, prev);
      list := List(list.nodes + [Node(key, seq(height, i => Null))], if height > list.maxHeight then height else list.maxHeight);
      var ins := Insertion(|list.nodes| - 1, height, prev, 0, false);
      BeginKeeps(was, chains, list, ins, key);
      while ins.level < height
        invariant InsertInv(list, chains, ins) && !ins.own && ins.height == height && ins.prev == prev
        invariant ins.x == |was.nodes| && ins.x < |list.nodes| && list.nodes[ins.x].key == key
        invariant forall k :: Keys(list, chains[0], k) <==> old(Holds(k)) || (ins.level > 0 && k == key)
        decreases height - ins.level
      {
        list, ins, chains := LinkLevel(list, ins, chains);
      }
    }
  }

  /** The two stores of one turn of Insert's loop. */
  method LinkLevel(list: List, ins: Insertion, ghost chains: seq<seq<nat>>) returns (list': List, ins': Insertion, ghost chains': seq<seq<nat>>)
    requires InsertInv(list, chains, ins) && !ins.own && ins.level < ins.height
    ensures InsertInv(list', chains', ins') && ins' == ins.(level := ins.level + 1)
    ensures |list'.nodes| == |list.nodes| && list'.nodes[ins.x].key == list.nodes[ins.x].key
    ensures forall k :: Keys(list', chains'[0], k) <==> Keys(list, chains[0], k) || (ins.level == 0 && k == list.nodes[ins.x].key)
  {
    var l, p := ins.level, ins.prev[ins.level];
    ghost var i := LinkPlace(list, ins, chains);
    var own := SetNext(list, ins.x, l, Next(list, p, l));
    list' := SetNext(own, p, l, ins.x);
    ins' := ins.(level := l + 1);
    chains' := chains[l := WithNode(chains[l], i, ins.x)];
    LinkKeeps(list, ins, chains, i, own, list');
    forall k ensures Keys(list', chains'[0], k) <==> Keys(list, chains[0], k) || (l == 0 && k == list.nodes[ins.x].key) {
      LinkKeys(list, list', chains, chains', l, i, ins.x, k);
    }
  }

  lemma LinkPlace(list: List, ins: Insertion, chains: seq<seq<nat>>) returns (i: nat)
    requires InsertInv(list, chains, ins) && ins.level < ins.height
    ensures LastBefore(list, chains[ins.level], Some(list.nodes[ins.x].key), i) && chains[ins.level][i] == ins.prev[ins.level]
    ensures Linked(list, ins.level, ins.prev[ins.level])
  {
    var l := ins.level;
    assert IsPrev(list, chains[l], Some(list.nodes[ins.x].key), l, ins.prev[l]) && IsChain(list, l, chains[l]);
    i :| LastBefore(list, chains[l], Some(list.nodes[ins.x].key), i) && chains[l][i] == ins.prev[l];
  }

  lemma LinkKeeps(list: List, ins: Insertion, chains: seq<seq<nat>>, i: nat, own: List, list': List)
    requires InsertInv(list, chains, ins) && !ins.own && ins.level < ins.height
    requires LastBefore(list, chains[ins.level], Some(list.nodes[ins.x].key), i) && chains[ins.level][i] == ins.prev[ins.level]
    requires Linked(list, ins.level, ins.prev[ins.level])
    requires own == SetNext(list, ins.x, ins.level, Next(list, ins.prev[ins.level], ins.level))
    requires Linked(own, ins.level, ins.prev[ins.level]) && list' == SetNext(own, ins.prev[ins.level], ins.level, ins.x)
    ensures InsertInv(list', chains[ins.level := WithNode(chains[ins.level], i, ins.x)], ins.(level := ins.level + 1))
  {
    StoreOwnKeeps(list, chains, ins, own, ins.(own := true));
    assert LastBefore(own, chains[ins.level], Some(list.nodes[ins.x].key), i);
    StorePrevKeeps(own, chains, ins.(own := true), list', ins.(level := ins.level + 1), i);
  }

  lemma LinkKeys(list: List, list': List, chains: seq<seq<nat>>, chains': seq<seq<nat>>, l: nat, i: nat, x: nat, k: Key)
    requires Valid(list, chains) && l < kMaxHeight && i < |chains[l]| && x < |list.nodes| == |list'.nodes|
    requires chains' == chains[l := WithNode(chains[l], i, x)]
    requires forall n :: 0 <= n < |list.nodes| ==> list'.nodes[n].key == list.nodes[n].key
    ensures Keys(list', chains'[0], k) <==> Keys(list, chains[0], k) || (l == 0 && k == list.nodes[x].key)
  {
    assert IsChain(list, 0, chains[0]);
    if l == 0 {
      KeysWithNode(list, list', chains[0], i, x, k);
    } else {
      SameKeys(list, list', chains[0], k);
    }
  }

  /** Above max_height_ the head is the place to insert after. */
  lemma PrevForAll(list: List, chains: seq<seq<nat>>, key: Key, height: nat, prev: seq<nat>)
    requires Valid(list, chains) && height <= kMaxHeight && |prev| >= height
    requires forall l :: 0 <= l < list.maxHeight && l < |prev| ==> IsPrev(list, chains[l], Some(key), l, prev[l])
    requires forall l :: list.maxHeight <= l < |prev| ==> prev[l] == 0
    ensures forall l :: 0 <= l < height ==> IsPrev(list, chains[l], Some(key), l, prev[l])
  {
    forall l | list.maxHeight <= l < height ensures IsPrev(list, chains[l], Some(key), l, prev[l]) {
      assert IsChain(list, l, chains[l]);
      assert LastBefore(list, chains[l], Some(key), 0);
    }
  }
}
