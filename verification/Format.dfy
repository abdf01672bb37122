/**
 Internal keys, entries and the flat specification of a read (db/dbformat).

 The engine touches a user key only through the user comparator, a total order.
 A user key is therefore represented by its place in that order: a `real`, into
 which every countable total order embeds. The comparators that look at bytes are
 modelled separately, in module Comparator.
 */
module Format {

  type UserKey = real
  type Blob = seq<bv8>

  datatype ValueType = Deletion | Value

  /** A user key with the sequence number and type that leveldb packs after it. */
  datatype InternalKey = InternalKey(user: UserKey, sequence: nat, kind: ValueType)

  datatype Entry = Entry(key: InternalKey, value: Blob)

  /** kMaxSequenceNumber: eight bits are left for the type. */
  const MAX_SEQUENCE: nat := 0xff_ffff_ffff_ffff

  function Tag(k: InternalKey): nat {
    k.sequence * 256 + if k.kind.Value? then 1 else 0
  }

  /** InternalKeyComparator: ascending user key, then descending tag. */
  predicate Less(a: InternalKey, b: InternalKey) {
    a.user < b.user || (a.user == b.user && Tag(a) > Tag(b))
  }

  /** The internal key a read at snapshot `s` seeks to (kValueTypeForSeek). */
  function LookupKey(k: UserKey, s: nat): InternalKey {
    InternalKey(k, s, Value)
  }

  predicate Sorted(es: seq<Entry>) {
    forall i, j :: 0 <= i < j < |es| ==> Less(es[i].key, es[j].key)
  }

  // ----- what a read means: the newest entry at or below the snapshot -----

  datatype ReadResult = NotFound | Found(value: Blob)

  function Outcome(e: Entry): ReadResult {
    if e.key.kind.Value? then Found(e.value) else NotFound
  }

  ghost predicate Candidate(all: set<Entry>, k: UserKey, s: nat, e: Entry) {
    e in all && e.key.user == k && e.key.sequence <= s
  }

  ghost predicate Newest(all: set<Entry>, k: UserKey, s: nat, e: Entry) {
    && Candidate(all, k, s, e)
    && forall e' :: Candidate(all, k, s, e') ==> e'.key.sequence <= e.key.sequence
  }

  /** The flat specification: deletions read like missing keys. */
  ghost function Visible(all: set<Entry>, k: UserKey, s: nat): ReadResult {
    if exists e :: Newest(all, k, s, e) then
      var e :| Newest(all, k, s, e);
      Outcome(e)
    else
      NotFound
  }

  /** The key is not in `risen`, or there is a value for it to read. */
  ghost predicate Reliable(all: set<Entry>, k: UserKey, s: nat, risen: set<UserKey>) {
    k in risen ==> Visible(all, k, s).Found?
  }

  /** Every operation gets its own sequence number. */
  ghost predicate UniqueSequences(all: set<Entry>) {
    forall e, e' :: e in all && e' in all && e.key.sequence == e'.key.sequence ==> e == e'
  }

  lemma NewestDecides(all: set<Entry>, k: UserKey, s: nat, e: Entry)
    requires UniqueSequences(all)
    requires Newest(all, k, s, e)
    ensures Visible(all, k, s) == Outcome(e)
  {
    var m :| Newest(all, k, s, m) && Visible(all, k, s) == Outcome(m);
    assert Newest(all, k, s, m);
    assert Candidate(all, k, s, m);
    assert m == e;
  }

  lemma NoCandidateReadsNothing(all: set<Entry>, k: UserKey, s: nat)
    requires forall e :: !Candidate(all, k, s, e)
    ensures Visible(all, k, s) == NotFound
  {
    forall e ensures !Newest(all, k, s, e) {
      assert !Candidate(all, k, s, e);
    }
  }

  /** A finite set with a candidate has a newest one. */
  lemma {:induction false} NewestExists(all: set<Entry>, k: UserKey, s: nat, e: Entry) returns (m: Entry)
    requires Candidate(all, k, s, e)
    ensures Newest(all, k, s, m)
    decreases |all|
  {
    if e' :| Candidate(all, k, s, e') && e'.key.sequence > e.key.sequence {
      var rest := all - {e};
      assert Candidate(rest, k, s, e');
      m := NewestExists(rest, k, s, e');
      forall x | Candidate(all, k, s, x) ensures x.key.sequence <= m.key.sequence {
        if x == e {
          assert Candidate(rest, k, s, e');
        } else {
          assert Candidate(rest, k, s, x);
        }
      }
    } else {
      m := e;
    }
  }
}
