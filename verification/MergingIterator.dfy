/**
 Merging sorted children with direction switching (table/merger.cc). The children are
 two-level iterators, with or without empty blocks; with pairwise distinct keys the
 merging iterator behaves, after any run of moves, as one cursor on the sorted union.
 */
module MergingIterator {
  import opened Format
  import opened Version
  import opened Concatenation
  import opened TwoLevelIterator

  datatype Direction = Forward | Reverse

  type Children = seq<seq<Entry>>

  /** What the children iterate over. */
  ghost function Flats(iters: seq<TwoLevel>): Children {
    seq(|iters|, c requires 0 <= c < |iters| => Flat(iters[c].blocks))
  }

  /** The comparator returns 0. */
  predicate SameKey(a: InternalKey, b: InternalKey) {
    !Less(a, b) && !Less(b, a)
  }

  ghost predicate AllSorted(children: Children) {
    forall c :: 0 <= c < |children| ==> Sorted(children[c])
  }

  /** No key occurs in two children. */
  ghost predicate DistinctKeys(children: Children) {
    forall c, d, i, j :: 0 <= c < d < |children| && 0 <= i < |children[c]| && 0 <= j < |children[d]| ==>
      Less(children[c][i].key, children[d][j].key) || Less(children[d][j].key, children[c][i].key)
  }

  /** `p` is the place in `es` of its first key after `k`. */
  ghost predicate FirstAfter(es: seq<Entry>, k: InternalKey, p: int) {
    && 0 <= p <= |es|
    && (forall j :: 0 <= j < p ==> !Less(k, es[j].key))
    && (forall j :: p <= j < |es| ==> Less(k, es[j].key))
  }

  /** `p` is the place in `es` of its last key before `k`, or -1. */
  ghost predicate LastBefore(es: seq<Entry>, k: InternalKey, p: int) {
    && -1 <= p < |es|
    && (forall j :: 0 <= j <= p ==> Less(es[j].key, k))
    && (forall j :: p < j < |es| ==> !Less(es[j].key, k))
  }

  /** Entry `i` of child `c` has the least key in the union after `k`. */
  ghost predicate LeastAfter(children: Children, k: InternalKey, c: int, i: int) {
    && 0 <= c < |children| && 0 <= i < |children[c]| && Less(k, children[c][i].key)
    && forall d, j :: 0 <= d < |children| && 0 <= j < |children[d]| && Less(k, children[d][j].key) ==>
         !Less(children[d][j].key, children[c][i].key)
  }

  ghost predicate GreatestBefore(children: Children, k: InternalKey, c: int, i: int) {
    && 0 <= c < |children| && 0 <= i < |children[c]| && Less(children[c][i].key, k)
    && forall d, j :: 0 <= d < |children| && 0 <= j < |children[d]| && Less(children[d][j].key, k) ==>
         !Less(children[c][i].key, children[d][j].key)
  }

  ghost predicate NoneAfter(children: Children, k: InternalKey) {
    forall d, j :: 0 <= d < |children| && 0 <= j < |children[d]| ==> !Less(k, children[d][j].key)
  }

  ghost predicate NoneBefore(children: Children, k: InternalKey) {
    forall d, j :: 0 <= d < |children| && 0 <= j < |children[d]| ==> !Less(children[d][j].key, k)
  }

  /** Nothing but the entries at or past the children's places remains ahead. */
  ghost predicate Ahead(children: Children, pos: seq<int>) {
    && |pos| == |children|
    && forall c :: 0 <= c < |children| ==> 0 <= pos[c] <= |children[c]|
  }

  ghost predicate Behind(children: Children, pos: seq<int>) {
    && |pos| == |children|
    && forall c :: 0 <= c < |children| ==> -1 <= pos[c] < |children[c]|
  }

  /** Child `c` is at the smallest key among the children's places. */
  ghost predicate Smallest(children: Children, pos: seq<int>, c: int)
    requires Ahead(children, pos)
  {
    && 0 <= c < |children| && pos[c] < |children[c]|
    && forall d :: 0 <= d < |children| && pos[d] < |children[d]| ==> !Less(children[d][pos[d]].key, children[c][pos[c]].key)
  }

  ghost predicate Largest(children: Children, pos: seq<int>, c: int)
    requires Behind(children, pos)
  {
    && 0 <= c < |children| && pos[c] >= 0
    && forall d :: 0 <= d < |children| && pos[d] >= 0 ==> !Less(children[c][pos[c]].key, children[d][pos[d]].key)
  }

  /** In the forward direction every other child is at its first key after the current one. */
  ghost predicate ForwardInv(children: Children, pos: seq<int>, current: int) {
    && Ahead(children, pos) && 0 <= current < |children| && pos[current] < |children[current]|
    && forall c :: 0 <= c < |children| && c != current ==> FirstAfter(children[c], children[current][pos[current]].key, pos[c])
  }

  ghost predicate ReverseInv(children: Children, pos: seq<int>, current: int) {
    && Behind(children, pos) && 0 <= current < |children| && pos[current] >= 0
    && forall c :: 0 <= c < |children| && c != current ==> LastBefore(children[c], children[current][pos[current]].key, pos[c])
  }

  // ----- what picking the smallest or largest child gives -----

  lemma SmallestIsForward(children: Children, pos: seq<int>, c: int)
    requires AllSorted(children) && DistinctKeys(children) && Ahead(children, pos) && Smallest(children, pos, c)
    requires forall d, j :: 0 <= d < |children| && 0 <= j < pos[d] ==> Less(children[d][j].key, children[c][pos[c]].key)
    ensures ForwardInv(children, pos, c)
  {
    var k := children[c][pos[c]].key;
    forall d | 0 <= d < |children| && d != c ensures FirstAfter(children[d], k, pos[d]) {
      DistinctFrom(children, c, pos[c], d);
      forall j | pos[d] <= j < |children[d]| ensures Less(k, children[d][j].key) {
        assert j == pos[d] || Less(children[d][pos[d]].key, children[d][j].key);
      }
    }
  }

  lemma LargestIsReverse(children: Children, pos: seq<int>, c: int)
    requires AllSorted(children) && DistinctKeys(children) && Behind(children, pos) && Largest(children, pos, c)
    requires forall d, j :: 0 <= d < |children| && pos[d] < j < |children[d]| ==> Less(children[c][pos[c]].key, children[d][j].key)
    ensures ReverseInv(children, pos, c)
  {
    var k := children[c][pos[c]].key;
    forall d | 0 <= d < |children| && d != c ensures LastBefore(children[d], k, pos[d]) {
      DistinctFrom(children, c, pos[c], d);
      forall j | 0 <= j <= pos[d] ensures Less(children[d][j].key, k) {
        assert j == pos[d] || Less(children[d][j].key, children[d][pos[d]].key);
      }
    }
  }

  lemma SmallestIsLeast(children: Children, pos: seq<int>, c: int, d: int, j: int)
    requires AllSorted(children) && Ahead(children, pos) && Smallest(children, pos, c)
    requires 0 <= d < |children| && pos[d] <= j < |children[d]|
    ensures !Less(children[d][j].key, children[c][pos[c]].key)
  {
    assert j == pos[d] || Less(children[d][pos[d]].key, children[d][j].key);
  }

  lemma LargestIsGreatest(children: Children, pos: seq<int>, c: int, d: int, j: int)
    requires AllSorted(children) && Behind(children, pos) && Largest(children, pos, c)
    requires 0 <= d < |children| && 0 <= j <= pos[d]
    ensures !Less(children[c][pos[c]].key, children[d][j].key)
  {
    assert j == pos[d] || Less(children[d][j].key, children[d][pos[d]].key);
  }

  // ----- the iterator -----

  class Merger {
    const iters: seq<TwoLevel>
    /** What each child iterates over, and where it stands: -1 before the start, its length past the end. */
    ghost const children: Children
    ghost var places: seq<int>
    var current: int
    var direction: Direction

    constructor (iters: seq<TwoLevel>)
      requires forall c :: 0 <= c < |iters| ==> iters[c].Valid() && !iters[c].DataValid()
      requires forall c, d :: 0 <= c < d < |iters| ==> iters[c] != iters[d]
      requires DistinctKeys(Flats(iters))
      ensures Valid() && current == -1 && this.iters == iters && children == Flats(iters)
    {
      this.iters := iters;
      children := Flats(iters);
      places := seq(|iters|, c => -1);
      current, direction := -1, Forward;
      forall c | 0 <= c < |iters| ensures Sorted(Flats(iters)[c]) { FlatIsSorted(iters[c].blocks, iters[c].separators); }
    }

    /** Child `c` stands at its place. */
    ghost predicate Stands(c: int)
      requires 0 <= c < |iters| && |places| == |children| == |iters|
      reads this`places, iters
    {
      && iters[c].Valid() && Flat(iters[c].blocks) == children[c]
      && -1 <= places[c] <= |children[c]|
      && (iters[c].DataValid() <==> 0 <= places[c] < |children[c]|)
      && (iters[c].DataValid() ==> iters[c].Place() == places[c])
    }

    ghost predicate Standing()
      reads this`places, iters
    {
      && |places| == |children| == |iters| && AllSorted(children) && DistinctKeys(children)
      && (forall c, d :: 0 <= c < d < |iters| ==> iters[c] != iters[d])
      && (forall c :: 0 <= c < |iters| ==> Stands(c))
    }

    ghost predicate Valid()
      reads this, iters
    {
      && Standing() && -1 <= current < |children|
      && (current >= 0 && direction.Forward? ==> ForwardInv(children, places, current))
      && (current >= 0 && direction.Reverse? ==> ReverseInv(children, places, current))
    }

    ghost function Key(): InternalKey
      requires Valid() && current >= 0
      reads this, iters
    {
      children[current][places[current]].key
    }

    /** key() and value() of a child. */
    method EntryOf(c: int) returns (e: Entry)
      requires Standing() && 0 <= c < |iters| && Stands(c) && iters[c].DataValid()
      ensures e == children[c][places[c]]
    {
      assert Stands(c);
      e := iters[c].Current();
    }

    /** key() and value(). */
    method Entry() returns (e: Entry)
      requires Valid() && current >= 0
      ensures e == children[current][places[current]] && e.key == Key()
    {
      assert Stands(current);
      e := EntryOf(current);
    }

    method FindSmallest()
      requires Standing() && Ahead(children, places)
      modifies this`current
      ensures Standing() && -1 <= current < |children|
      ensures current >= 0 ==> Smallest(children, places, current)
      ensures current < 0 ==> forall c :: 0 <= c < |children| ==> places[c] == |children[c]|
    {
      var smallest, key := -1, InternalKey(0.0, 0, Deletion);
      for i := 0 to |iters|
        invariant Standing() && -1 <= smallest < i
        invariant smallest < 0 ==> forall c :: 0 <= c < i ==> places[c] == |children[c]|
        invariant smallest >= 0 ==> places[smallest] < |children[smallest]| && key == children[smallest][places[smallest]].key
        invariant smallest >= 0 ==> forall d :: 0 <= d < i && places[d] < |children[d]| ==>
                    !Less(children[d][places[d]].key, key)
      {
        assert Stands(i);
        if iters[i].DataValid() {
          var e := EntryOf(i);
          if smallest < 0 || Less(e.key, key) {
            smallest, key := i, e.key;
          }
        }
      }
      current := smallest;
    }

    method FindLargest()
      requires Standing() && Behind(children, places)
      modifies this`current
      ensures Standing() && -1 <= current < |children|
      ensures current >= 0 ==> Largest(children, places, current)
      ensures current < 0 ==> forall c :: 0 <= c < |children| ==> places[c] == -1
    {
      var largest, key := -1, InternalKey(0.0, 0, Deletion);
      for i := |iters| downto 0
        invariant Standing() && (largest == -1 || i <= largest < |iters|)
        invariant largest < 0 ==> forall c :: i <= c < |children| ==> places[c] == -1
        invariant largest >= 0 ==> places[largest] >= 0 && key == children[largest][places[largest]].key
        invariant largest >= 0 ==> forall d :: i <= d < |children| && places[d] >= 0 ==>
                    !Less(key, children[d][places[d]].key)
      {
        assert Stands(i);
        if iters[i].DataValid() {
          var e := EntryOf(i);
          if largest < 0 || Less(key, e.key) {
            largest, key := i, e.key;
          }
        }
      }
      current := largest;
    }

    // ----- moves of one child, which leave the others where they are -----

    method First(i: int)
      requires Standing() && 0 <= i < |iters|
      modifies this`places, iters[i]
      ensures Standing() && places == old(places)[i := 0]
    {
      assert Stands(i);
      iters[i].SeekToFirst();
      places := places[i := 0];
      forall c | 0 <= c < |iters| ensures Stands(c) { assert old(Stands(c)) && (c != i ==> iters[c] != iters[i]); }
    }

    method Last(i: int)
      requires Standing() && 0 <= i < |iters|
      modifies this`places, iters[i]
      ensures Standing() && places == old(places)[i := |children[i]| - 1]
    {
      assert Stands(i);
      iters[i].SeekToLast();
      places := places[i := |children[i]| - 1];
      forall c | 0 <= c < |iters| ensures Stands(c) { assert old(Stands(c)) && (c != i ==> iters[c] != iters[i]); }
    }

    method SeekIn(i: int, target: InternalKey)
      requires Standing() && 0 <= i < |iters|
      modifies this`places, iters[i]
      ensures Standing() && places == old(places)[i := places[i]] && FirstAtOrAfter(children[i], target, places[i])
    {
      assert Stands(i);
      iters[i].Seek(target);
      if iters[i].DataValid() {
        FlatAt(iters[i].blocks, iters[i].block, iters[i].at);
        places := places[i := iters[i].Place()];
      } else {
        places := places[i := |children[i]|];
      }
      forall c | 0 <= c < |iters| ensures Stands(c) { assert old(Stands(c)) && (c != i ==> iters[c] != iters[i]); }
    }

    method Step(i: int)
      requires Standing() && 0 <= i < |iters| && iters[i].DataValid()
      modifies this`places, iters[i]
      ensures Standing() && places == old(places)[i := old(places[i]) + 1]
    {
      assert Stands(i);
      iters[i].Next();
      if iters[i].DataValid() { FlatAt(iters[i].blocks, iters[i].block, iters[i].at); }
      places := places[i := places[i] + 1];
      forall c | 0 <= c < |iters| ensures Stands(c) { assert old(Stands(c)) && (c != i ==> iters[c] != iters[i]); }
    }

    /** Steps over an entry with this key. */
    method StepIfSame(i: int, key: InternalKey)
      requires Standing() && 0 <= i < |iters| && FirstAtOrAfter(children[i], key, places[i])
      modifies this`places, iters[i]
      ensures Standing() && places == old(places)[i := places[i]]
      ensures places[i] == old(places[i]) +
                if old(places[i]) < |children[i]| && SameKey(key, children[i][old(places[i])].key) then 1 else 0
    {
      assert Stands(i);
      if iters[i].DataValid() {
        var f := EntryOf(i);
        if SameKey(key, f.key) {
          Step(i);
        }
      }
    }

    method StepBack(i: int)
      requires Standing() && 0 <= i < |iters| && iters[i].DataValid()
      modifies this`places, iters[i]
      ensures Standing() && places == old(places)[i := old(places[i]) - 1]
    {
      assert Stands(i);
      iters[i].Prev();
      if iters[i].DataValid() { FlatAt(iters[i].blocks, iters[i].block, iters[i].at); }
      places := places[i := places[i] - 1];
      forall c | 0 <= c < |iters| ensures Stands(c) { assert old(Stands(c)) && (c != i ==> iters[c] != iters[i]); }
    }

    // ----- moves of the whole -----

    method SeekToFirst()
      requires Valid()
      modifies this, iters
      ensures Valid()
      ensures current < 0 ==> forall c :: 0 <= c < |children| ==> children[c] == []
      ensures current >= 0 ==> NoneBefore(children, Key())
    {
      for i := 0 to |iters|
        invariant Standing() && forall c :: 0 <= c < i ==> places[c] == 0
      {
        First(i);
      }
      FindSmallest();
      direction := Forward;
      if current >= 0 {
        SmallestIsForward(children, places, current);
        forall d, j | 0 <= d < |children| && 0 <= j < |children[d]| ensures !Less(children[d][j].key, Key()) {
          SmallestIsLeast(children, places, current, d, j);
        }
      }
    }

    method SeekToLast()
      requires Valid()
      modifies this, iters
      ensures Valid()
      ensures current < 0 ==> forall c :: 0 <= c < |children| ==> children[c] == []
      ensures current >= 0 ==> NoneAfter(children, Key())
    {
      for i := 0 to |iters|
        invariant Standing() && forall c :: 0 <= c < i ==> places[c] == |children[c]| - 1
      {
        Last(i);
      }
      FindLargest();
      direction := Reverse;
      if current >= 0 {
        LargestIsReverse(children, places, current);
        forall d, j | 0 <= d < |children| && 0 <= j < |children[d]| ensures !Less(Key(), children[d][j].key) {
          LargestIsGreatest(children, places, current, d, j);
        }
      }
    }

    /** The least key of the union at or after `target`. */
    method Seek(target: InternalKey)
      requires Valid()
      modifies this, iters
      ensures Valid()
      ensures current < 0 ==> forall d, j :: 0 <= d < |children| && 0 <= j < |children[d]| ==> Less(children[d][j].key, target)
      ensures current >= 0 ==> !Less(Key(), target)
      ensures current >= 0 ==> forall d, j :: 0 <= d < |children| && 0 <= j < |children[d]| && !Less(children[d][j].key, target) ==>
                !Less(children[d][j].key, Key())
    {
      for i := 0 to |iters|
        invariant Standing() && forall c :: 0 <= c < i ==> FirstAtOrAfter(children[c], target, places[c])
      {
        SeekIn(i, target);
      }
      FindSmallest();
      direction := Forward;
      SeekIsForward(children, places, target, current);
    }

    /** The least key of the union after the current one. */
    method Next()
      requires Valid() && current >= 0
      modifies this, iters
      ensures Valid()
      ensures current < 0 ==> NoneAfter(children, old(Key()))
      ensures current >= 0 ==> LeastAfter(children, old(Key()), current, places[current])
    {
      ghost var k := Key();
      if direction.Reverse? {
        TurnForward();
      }
      assert Stands(current);
      Step(current);
      assert FirstAfter(children[current], k, places[current]);
      assert forall c :: 0 <= c < |children| ==> FirstAfter(children[c], k, places[c]);
      FindSmallest();
      if current >= 0 {
        NextIsForward(children, places, k, current);
      } else {
        forall d, j | 0 <= d < |children| && 0 <= j < |children[d]| ensures !Less(k, children[d][j].key) {
          assert FirstAfter(children[d], k, places[d]);
        }
      }
    }

    /** Positions every other child at its first key after the current one. */
    method TurnForward()
      requires Valid() && current >= 0 && direction.Reverse?
      modifies this`direction, this`places, iters
      ensures Standing() && direction.Forward? && ForwardInv(children, places, current)
      ensures places[current] == old(places[current])
    {
      var e := Entry();
      for i := 0 to |iters|
        invariant Standing() && places[current] == old(places)[current]
        invariant forall c :: 0 <= c < i && c != current ==> FirstAfter(children[c], e.key, places[c])
      {
        if i != current {
          SeekIn(i, e.key);
          StepIfSame(i, e.key);
          DistinctFrom(children, current, old(places)[current], i);
        }
      }
      direction := Forward;
    }

    /** The greatest key of the union before the current one. */
    method Prev()
      requires Valid() && current >= 0
      modifies this, iters
      ensures Valid()
      ensures current < 0 ==> NoneBefore(children, old(Key()))
      ensures current >= 0 ==> GreatestBefore(children, old(Key()), current, places[current])
    {
      ghost var k := Key();
      if direction.Forward? {
        TurnReverse();
      }
      assert Stands(current);
      StepBack(current);
      assert LastBefore(children[current], k, places[current]);
      assert forall c :: 0 <= c < |children| ==> LastBefore(children[c], k, places[c]);
      FindLargest();
      if current >= 0 {
        PrevIsReverse(children, places, k, current);
      } else {
        forall d, j | 0 <= d < |children| && 0 <= j < |children[d]| ensures !Less(children[d][j].key, k) {
          assert LastBefore(children[d], k, places[d]);
        }
      }
    }

    /** Positions every other child at its last key before the current one. */
    method TurnReverse()
      requires Valid() && current >= 0 && direction.Forward?
      modifies this`direction, this`places, iters
      ensures Standing() && direction.Reverse? && ReverseInv(children, places, current)
      ensures places[current] == old(places[current])
    {
      var e := Entry();
      for i := 0 to |iters|
        invariant Standing() && places[current] == old(places)[current]
        invariant forall c :: 0 <= c < i && c != current ==> LastBefore(children[c], e.key, places[c])
      {
        if i != current {
          SeekIn(i, e.key);
          assert Stands(i);
          if iters[i].DataValid() {
            StepBack(i);
          } else {
            Last(i);
          }
          assert LastBefore(children[i], e.key, places[i]);
        }
      }
      direction := Reverse;
    }
  }

  lemma SeekIsForward(children: Children, pos: seq<int>, target: InternalKey, c: int)
    requires AllSorted(children) && DistinctKeys(children) && Ahead(children, pos) && -1 <= c < |children|
    requires forall d :: 0 <= d < |children| ==> FirstAtOrAfter(children[d], target, pos[d])
    requires c >= 0 ==> Smallest(children, pos, c)
    requires c < 0 ==> forall d :: 0 <= d < |children| ==> pos[d] == |children[d]|
    ensures c >= 0 ==> ForwardInv(children, pos, c) && !Less(children[c][pos[c]].key, target)
    ensures c >= 0 ==> forall d, j :: 0 <= d < |children| && 0 <= j < |children[d]| && !Less(children[d][j].key, target) ==>
              !Less(children[d][j].key, children[c][pos[c]].key)
    ensures c < 0 ==> forall d, j :: 0 <= d < |children| && 0 <= j < |children[d]| ==> Less(children[d][j].key, target)
  {
    if c >= 0 {
      assert FirstAtOrAfter(children[c], target, pos[c]);
      forall d, j | 0 <= d < |children| && 0 <= j < pos[d] ensures Less(children[d][j].key, children[c][pos[c]].key) {
        assert FirstAtOrAfter(children[d], target, pos[d]);
      }
      SmallestIsForward(children, pos, c);
    }
    forall d, j | 0 <= d < |children| && 0 <= j < |children[d]|
      ensures c < 0 ==> Less(children[d][j].key, target)
      ensures c >= 0 && !Less(children[d][j].key, target) ==> !Less(children[d][j].key, children[c][pos[c]].key)
    {
      assert FirstAtOrAfter(children[d], target, pos[d]);
      if c >= 0 && pos[d] <= j { SmallestIsLeast(children, pos, c, d, j); }
    }
  }

  lemma DistinctFrom(children: Children, c: int, i: int, d: int)
    requires DistinctKeys(children) && 0 <= c < |children| && 0 <= d < |children| && c != d && 0 <= i < |children[c]|
    ensures forall j :: 0 <= j < |children[d]| ==>
              Less(children[c][i].key, children[d][j].key) || Less(children[d][j].key, children[c][i].key)
  {
  }

  lemma NextIsForward(children: Children, pos: seq<int>, k: InternalKey, c: int)
    requires AllSorted(children) && DistinctKeys(children) && Ahead(children, pos) && Smallest(children, pos, c)
    requires forall d :: 0 <= d < |children| ==> FirstAfter(children[d], k, pos[d])
    ensures ForwardInv(children, pos, c)
    ensures LeastAfter(children, k, c, pos[c])
  {
    assert FirstAfter(children[c], k, pos[c]);
    forall d, j | 0 <= d < |children| && 0 <= j < pos[d] ensures Less(children[d][j].key, children[c][pos[c]].key) {
      assert FirstAfter(children[d], k, pos[d]);
    }
    SmallestIsForward(children, pos, c);
    forall d, j | 0 <= d < |children| && 0 <= j < |children[d]| && Less(k, children[d][j].key)
      ensures !Less(children[d][j].key, children[c][pos[c]].key)
    {
      assert FirstAfter(children[d], k, pos[d]);
      SmallestIsLeast(children, pos, c, d, j);
    }
  }

  lemma PrevIsReverse(children: Children, pos: seq<int>, k: InternalKey, c: int)
    requires AllSorted(children) && DistinctKeys(children) && Behind(children, pos) && Largest(children, pos, c)
    requires forall d :: 0 <= d < |children| ==> LastBefore(children[d], k, pos[d])
    ensures ReverseInv(children, pos, c)
    ensures GreatestBefore(children, k, c, pos[c])
  {
    assert LastBefore(children[c], k, pos[c]);
    forall d, j | 0 <= d < |children| && pos[d] < j < |children[d]| ensures Less(children[c][pos[c]].key, children[d][j].key) {
      assert LastBefore(children[d], k, pos[d]);
    }
    LargestIsReverse(children, pos, c);
    forall d, j | 0 <= d < |children| && 0 <= j < |children[d]| && Less(children[d][j].key, k)
      ensures !Less(children[c][pos[c]].key, children[d][j].key)
    {
      assert LastBefore(children[d], k, pos[d]);
      LargestIsGreatest(children, pos, c, d, j);
    }
  }

  // ----- the sorted union as one sequence -----

  /** `union` is sorted and holds exactly the entries of the children. */
  ghost predicate IsUnion(children: Children, union: seq<Entry>) {
    && Sorted(union)
    && (forall c, i :: 0 <= c < |children| && 0 <= i < |children[c]| ==> children[c][i] in union)
    && (forall e :: e in union ==> InChild(children, e))
  }

  ghost predicate InChild(children: Children, e: Entry) {
    exists c, i :: 0 <= c < |children| && 0 <= i < |children[c]| && children[c][i] == e
  }

  /** Moving to the least key after the current one is moving to the next place; there is none after the last. */
  lemma NextInUnion(children: Children, union: seq<Entry>, p: nat)
    requires IsUnion(children, union) && p < |union|
    ensures NoneAfter(children, union[p].key) <==> p + 1 == |union|
    ensures forall c, i :: LeastAfter(children, union[p].key, c, i) ==> p + 1 < |union| && children[c][i] == union[p + 1]
  {
    if p + 1 < |union| {
      assert union[p + 1] in union;
      var c, i :| 0 <= c < |children| && 0 <= i < |children[c]| && children[c][i] == union[p + 1];
      assert Less(union[p].key, children[c][i].key);
    }
    forall c, i | 0 <= c < |children| && 0 <= i < |children[c]| && Less(union[p].key, children[c][i].key)
      ensures p + 1 < |union|
    {
      var q :| 0 <= q < |union| && union[q] == children[c][i];
    }
    forall c, i | LeastAfter(children, union[p].key, c, i) ensures p + 1 < |union| && children[c][i] == union[p + 1] {
      var q :| 0 <= q < |union| && union[q] == children[c][i];
      assert union[p + 1] in union;
      var d, j :| 0 <= d < |children| && 0 <= j < |children[d]| && children[d][j] == union[p + 1];
    }
  }

  /** The least key at or after the target is at the place of the target; none means that all are before it. */
  lemma SeekInUnion(children: Children, union: seq<Entry>, target: InternalKey, p: nat)
    requires IsUnion(children, union) && p <= |union|
    requires p < |union| ==> !Less(union[p].key, target)
    requires forall d, j :: 0 <= d < |children| && 0 <= j < |children[d]| && !Less(children[d][j].key, target) ==>
               p < |union| && !Less(children[d][j].key, union[p].key)
    ensures FirstAtOrAfter(union, target, p)
  {
    forall q | 0 <= q < p ensures Less(union[q].key, target) {
      assert union[q] in union;
      var d, j :| 0 <= d < |children| && 0 <= j < |children[d]| && children[d][j] == union[q];
    }
  }

  lemma PrevInUnion(children: Children, union: seq<Entry>, p: nat)
    requires IsUnion(children, union) && p < |union|
    ensures NoneBefore(children, union[p].key) <==> p == 0
    ensures forall c, i :: GreatestBefore(children, union[p].key, c, i) ==> p > 0 && children[c][i] == union[p - 1]
  {
    if p > 0 {
      assert union[p - 1] in union;
      var c, i :| 0 <= c < |children| && 0 <= i < |children[c]| && children[c][i] == union[p - 1];
      assert Less(children[c][i].key, union[p].key);
    }
    forall c, i | 0 <= c < |children| && 0 <= i < |children[c]| && Less(children[c][i].key, union[p].key)
      ensures p > 0
    {
      var q :| 0 <= q < |union| && union[q] == children[c][i];
    }
    forall c, i | GreatestBefore(children, union[p].key, c, i) ensures p > 0 && children[c][i] == union[p - 1] {
      var q :| 0 <= q < |union| && union[q] == children[c][i];
      assert union[p - 1] in union;
      var d, j :| 0 <= d < |children| && 0 <= j < |children[d]| && children[d][j] == union[p - 1];
    }
  }
}
