/** How often something occurs in a sequence. */
module Counting {

  function Without<T(==)>(q: seq<T>, i: nat): seq<T>
    requires i < |q|
  {
    q[..i] + q[i + 1..]
  }

  function CountIn<T(==)>(q: seq<T>, x: T): nat {
    if q == [] then 0 else CountIn(q[..|q| - 1], x) + if q[|q| - 1] == x then 1 else 0
  }

  lemma CountAppend<T>(q: seq<T>, y: T, x: T)
    ensures CountIn(q + [y], x) == CountIn(q, x) + if y == x then 1 else 0
  {
    assert (q + [y])[..|q|] == q;
  }

  lemma {:induction false} CountWithout<T>(q: seq<T>, i: nat, x: T)
    requires i < |q|
    ensures CountIn(q, x) == CountIn(Without(q, i), x) + if q[i] == x then 1 else 0
  {
    var n := |q| - 1;
    if i < n {
      CountWithout(q[..n], i, x);
      assert Without(q, i)[..n - 1] == Without(q[..n], i);
    } else {
      assert Without(q, i) == q[..n];
    }
  }

  lemma CountTail<T>(q: seq<T>, x: T)
    requires q != []
    ensures CountIn(q, x) == CountIn(q[1..], x) + if q[0] == x then 1 else 0
  {
    CountWithout(q, 0, x);
    assert Without(q, 0) == q[1..];
  }

  lemma {:induction false} CountMember<T>(q: seq<T>, x: T)
    ensures CountIn(q, x) > 0 <==> x in q
  {
    if q != [] { CountMember(q[..|q| - 1], x); }
  }

  /** The sequence without one occurrence of `x`. */
  function RemoveOne<T(==)>(q: seq<T>, x: T): (r: seq<T>)
    ensures |r| <= |q|
  {
    if q == [] then []
    else if q[|q| - 1] == x then q[..|q| - 1]
    else RemoveOne(q[..|q| - 1], x) + [q[|q| - 1]]
  }

  lemma {:induction false} CountRemoveOne<T>(q: seq<T>, x: T, y: T)
    ensures CountIn(RemoveOne(q, x), y) == if x == y && CountIn(q, x) > 0 then CountIn(q, x) - 1 else CountIn(q, y)
  {
    if q != [] {
      var n := |q| - 1;
      CountRemoveOne(q[..n], x, y);
      CountAppend(RemoveOne(q[..n], x), q[n], y);
      if x != y { CountRemoveOne(q[..n], x, x); }
    }
  }

  lemma {:induction false} RemoveOnePlace<T>(q: seq<T>, x: T) returns (i: nat)
    requires x in q
    ensures i < |q| && q[i] == x && RemoveOne(q, x) == Without(q, i)
    decreases |q|
  {
    var n := |q| - 1;
    if q[n] == x {
      i := n;
    } else {
      i := RemoveOnePlace(q[..n], x);
    }
  }

  lemma {:induction false} RemoveOneIsTail<T>(q: seq<T>)
    requires q != [] && CountIn(q, q[0]) == 1
    ensures RemoveOne(q, q[0]) == q[1..]
  {
    var n := |q| - 1;
    if n > 0 {
      CountMember(q[..n], q[0]);
      RemoveOneIsTail(q[..n]);
    }
  }
}
