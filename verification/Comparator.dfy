/**
 The bytewise comparator and the internal key comparator on real bytes
 (util/comparator.cc, db/dbformat.cc): order, separators and successors.
 */
module Comparator {
  import opened Coding

  /** Slice::compare: byte by byte, a proper prefix first. */
  predicate Before(a: Bytes, b: Bytes) {
    b != [] && (a == [] || a[0] < b[0] || (a[0] == b[0] && Before(a[1..], b[1..])))
  }

  lemma {:induction false} BeforeIsStrict(a: Bytes, b: Bytes)
    ensures !(Before(a, b) && Before(b, a)) && !Before(a, a)
  {
    if a != [] && b != [] { BeforeIsStrict(a[1..], b[1..]); }
    if a != [] { BeforeIsStrict(a[1..], a[1..]); }
  }

  lemma {:induction false} BeforeIsTotal(a: Bytes, b: Bytes)
    ensures Before(a, b) || a == b || Before(b, a)
  {
    if a != [] && b != [] {
      BeforeIsTotal(a[1..], b[1..]);
      assert a == [a[0]] + a[1..] && b == [b[0]] + b[1..];
    }
  }

  lemma {:induction false} BeforeIsTransitive(a: Bytes, b: Bytes, c: Bytes)
    requires Before(a, b) && Before(b, c)
    ensures Before(a, c)
  {
    if a != [] && a[0] == b[0] == c[0] { BeforeIsTransitive(a[1..], b[1..], c[1..]); }
  }

  /** The first byte that differs decides. */
  lemma {:induction false} DifferenceDecides(a: Bytes, b: Bytes, n: nat)
    requires n < |a| && n < |b| && a[..n] == b[..n] && a[n] < b[n]
    ensures Before(a, b)
  {
    if n > 0 {
      assert a[..n][0] == b[..n][0];
      assert a[1..][..n - 1] == a[..n][1..] && b[1..][..n - 1] == b[..n][1..];
      DifferenceDecides(a[1..], b[1..], n - 1);
    }
  }

  /** The first byte that differs is at `d`, and the one in `start` can be incremented and stay below the other. */
  predicate Shortens(start: Bytes, limit: Bytes, d: nat) {
    && d < |start| && d < |limit| && start[..d] == limit[..d] && start[d] != limit[d]
    && start[d] < 0xff && start[d] as int + 1 < limit[d] as int
  }

  /** `key` cut after byte `d`, which is incremented. */
  function CutAt(key: Bytes, d: nat): Bytes
    requires d < |key| && key[d] < 0xff
  {
    key[..d] + [key[d] + 1]
  }

  /** A key at or after `start` and before `limit`, as short as incrementing the first different byte allows. */
  method FindShortestSeparator(start: Bytes, limit: Bytes) returns (r: Bytes)
    ensures |r| <= |start|
    ensures r == start || (Before(start, r) && Before(r, limit))
    ensures forall d: nat :: Shortens(start, limit, d) ==> r == CutAt(start, d)
    ensures r == start || exists d: nat :: Shortens(start, limit, d)
  {
    var diff := 0;
    while diff < |start| && diff < |limit| && start[diff] == limit[diff]
      invariant diff <= |start| && diff <= |limit| && start[..diff] == limit[..diff]
    {
      diff := diff + 1;
    }
    r := start;
    forall d: nat | Shortens(start, limit, d) ensures d == diff { OneDifference(start, limit, d, diff); }
    if diff < |start| && diff < |limit| {
      var byte: int := start[diff];
      if byte < 0xff && byte + 1 < limit[diff] {
        r := start[..diff] + [byte + 1];
        assert Shortens(start, limit, diff);
        assert r[..diff] == start[..diff];
        DifferenceDecides(start, r, diff);
        DifferenceDecides(r, limit, diff);
      }
    }
  }

  /** Two strings begin to differ at one place. */
  lemma OneDifference(a: Bytes, b: Bytes, d: nat, n: nat)
    requires d < |a| && d < |b| && a[..d] == b[..d] && a[d] != b[d]
    requires n <= |a| && n <= |b| && a[..n] == b[..n] && (n < |a| && n < |b| ==> a[n] != b[n])
    ensures d == n
  {
  }

  /** A key at or after `key`, cut after the first byte that can be incremented; a run of 0xff stays. */
  method FindShortSuccessor(key: Bytes) returns (r: Bytes)
    ensures |r| <= |key|
    ensures r == key || Before(key, r)
    ensures r == key ==> forall i :: 0 <= i < |key| ==> key[i] == 0xff
    ensures forall d :: 0 <= d < |key| && key[d] != 0xff && (forall i :: 0 <= i < d ==> key[i] == 0xff) ==> r == CutAt(key, d)
  {
    for i := 0 to |key|
      invariant forall j :: 0 <= j < i ==> key[j] == 0xff
    {
      var byte: int := key[i];
      if byte != 0xff {
        r := key[..i] + [byte + 1];
        assert r[i] == byte + 1 && r[..i] == key[..i];
        DifferenceDecides(key, r, i);
        return;
      }
    }
    r := key;
  }

  /** An internal key: the user key, and sequence number and type packed into a tag. */
  datatype InternalKey = InternalKey(user: Bytes, tag: nat)

  /** PackSequenceAndType(kMaxSequenceNumber, kValueTypeForSeek). */
  const MaxTag: nat := 0xff_ffff_ffff_ffff * 256 + 1

  predicate Less(a: InternalKey, b: InternalKey) {
    Before(a.user, b.user) || (a.user == b.user && a.tag > b.tag)
  }

  lemma LessIsTransitive(a: InternalKey, b: InternalKey, c: InternalKey)
    requires Less(a, b) && Less(b, c)
    ensures Less(a, c)
  {
    if Before(a.user, b.user) && Before(b.user, c.user) { BeforeIsTransitive(a.user, b.user, c.user); }
  }

  lemma LessIsTotal(a: InternalKey, b: InternalKey)
    ensures Less(a, b) || a == b || Less(b, a)
    ensures !(Less(a, b) && Less(b, a)) && !Less(a, a)
  {
    BeforeIsTotal(a.user, b.user);
    BeforeIsStrict(a.user, b.user);
    BeforeIsStrict(a.user, a.user);
  }

  /** A separator is the key itself, or has a user key strictly between the two user keys. */
  ghost predicate Separator(start: InternalKey, limit: InternalKey, r: InternalKey) {
    r == start || (Before(start.user, r.user) && Before(r.user, limit.user) && r.tag == 0xff_ffff_ffff_ffff_01)
  }

  /** InternalKeyComparator::FindShortestSeparator. */
  method FindInternalSeparator(start: InternalKey, limit: InternalKey) returns (r: InternalKey)
    ensures Separator(start, limit, r) && (r == start || |r.user| < |start.user|)
    ensures forall d: nat :: Shortens(start.user, limit.user, d) && d + 1 < |start.user| ==> r == InternalKey(CutAt(start.user, d), 0xff_ffff_ffff_ffff_01)
    ensures Less(start, limit) ==> Less(r, limit) && !Less(r, start)
  {
    var tmp := FindShortestSeparator(start.user, limit.user);
    r := start;
    if |tmp| < |start.user| && Before(start.user, tmp) {
      r := InternalKey(tmp, MaxTag);
    }
    LessIsTotal(start, r);
  }

  /** InternalKeyComparator::FindShortSuccessor. */
  method FindInternalSuccessor(key: InternalKey) returns (r: InternalKey)
    ensures r == key || (Before(key.user, r.user) && r.tag == 0xff_ffff_ffff_ffff_01 && |r.user| < |key.user|)
    ensures !Less(r, key)
  {
    var tmp := FindShortSuccessor(key.user);
    r := key;
    if |tmp| < |key.user| && Before(key.user, tmp) {
      r := InternalKey(tmp, MaxTag);
    }
    LessIsTotal(key, r);
  }
}
