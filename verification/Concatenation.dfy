/** Blocks one after another as one sequence, and the places in it. */
module Concatenation {
  ghost function Flat<T>(blocks: seq<seq<T>>): seq<T> {
    if blocks == [] then [] else Flat(blocks[..|blocks| - 1]) + blocks[|blocks| - 1]
  }

  /** The place in the concatenation where block `b` starts. */
  ghost function Offset<T>(blocks: seq<seq<T>>, b: nat): nat
    requires b <= |blocks|
  {
    |Flat(blocks[..b])|
  }

  lemma OffsetStep<T>(blocks: seq<seq<T>>, b: nat)
    requires b < |blocks|
    ensures Offset(blocks, b + 1) == Offset(blocks, b) + |blocks[b]|
  {
    assert blocks[..b + 1][..b] == blocks[..b];
  }

  lemma OffsetEnds<T>(blocks: seq<seq<T>>)
    ensures Offset(blocks, 0) == 0 && Offset(blocks, |blocks|) == |Flat(blocks)|
  {
    assert blocks[..|blocks|] == blocks;
  }

  lemma {:induction false} FlatAt<T>(blocks: seq<seq<T>>, b: nat, i: nat)
    requires b < |blocks| && i < |blocks[b]|
    ensures Offset(blocks, b) + i < |Flat(blocks)|
    ensures Flat(blocks)[Offset(blocks, b) + i] == blocks[b][i]
  {
    var n := |blocks| - 1;
    var front := blocks[..n];
    if b < n {
      FlatAt(front, b, i);
      assert front[..b] == blocks[..b];
    } else {
      assert blocks[..b] == front;
    }
  }

  /** Every place of the concatenation is a place in some block. */
  lemma {:induction false} PlaceOf<T>(blocks: seq<seq<T>>, p: nat) returns (b: nat, i: nat)
    requires p < |Flat(blocks)|
    ensures b < |blocks| && i < |blocks[b]| && p == Offset(blocks, b) + i
  {
    var n := |blocks| - 1;
    var front := blocks[..n];
    if p < |Flat(front)| {
      b, i := PlaceOf(front, p);
      assert front[..b] == blocks[..b];
    } else {
      b, i := n, p - |Flat(front)|;
    }
  }

  lemma {:induction false} OffsetAscends<T>(blocks: seq<seq<T>>, b: nat, c: nat)
    requires b <= c <= |blocks|
    ensures Offset(blocks, b) <= Offset(blocks, c)
    decreases c
  {
    if b < c {
      OffsetAscends(blocks, b, c - 1);
      OffsetStep(blocks, c - 1);
    }
  }

  lemma PlaceBelowEnd<T>(blocks: seq<seq<T>>, b: nat)
    requires b < |blocks|
    ensures Offset(blocks, b) + |blocks[b]| <= |Flat(blocks)|
  {
    OffsetStep(blocks, b);
    OffsetAscends(blocks, b + 1, |blocks|);
    OffsetEnds(blocks);
  }

  /** Places follow the order of blocks, and of entries within a block. */
  lemma PlacesAreOrdered<T>(blocks: seq<seq<T>>, b: nat, i: nat, c: nat, j: nat)
    requires b < |blocks| && i < |blocks[b]| && c < |blocks| && j < |blocks[c]|
    ensures Offset(blocks, b) + i < Offset(blocks, c) + j <==> b < c || (b == c && i < j)
  {
    OffsetStep(blocks, b);
    OffsetStep(blocks, c);
    if b < c { OffsetAscends(blocks, b + 1, c); }
    if c < b { OffsetAscends(blocks, c + 1, b); }
  }
}
