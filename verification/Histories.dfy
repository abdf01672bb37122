/**
 Committed batches in order, and when two sets of entries read alike.
 */
module Histories {
  import opened Format

  /** The operations of one write, in sequence order. */
  type Batch = seq<Entry>

  ghost function EntriesOf(h: seq<Batch>): set<Entry> {
    set b, e | b in h && e in b :: e
  }

  ghost function BatchEntries(b: Batch): set<Entry> {
    set e | e in b
  }

  lemma EntriesOfConcat(a: seq<Batch>, b: seq<Batch>)
    ensures EntriesOf(a + b) == EntriesOf(a) + EntriesOf(b)
  {
    assert forall x :: x in a + b <==> x in a || x in b;
  }

  lemma EntriesOfSingle(b: Batch)
    ensures EntriesOf([b]) == BatchEntries(b)
  {
    assert b in [b];
  }

  ghost predicate BatchAscending(b: Batch) {
    forall i, j :: 0 <= i < j < |b| ==> b[i].key.sequence < b[j].key.sequence
  }

  ghost predicate BatchBefore(a: Batch, b: Batch) {
    forall e, e' :: e in a && e' in b ==> e.key.sequence < e'.key.sequence
  }

  /** Sequence numbers strictly ascend through the whole history. */
  ghost predicate Ascending(h: seq<Batch>) {
    && (forall i :: 0 <= i < |h| ==> BatchAscending(h[i]))
    && (forall i, j :: 0 <= i < j < |h| ==> BatchBefore(h[i], h[j]))
  }

  ghost predicate AtMost(all: set<Entry>, s: nat) {
    forall e :: e in all ==> e.key.sequence <= s
  }

  ghost predicate AllAbove(all: set<Entry>, s: nat) {
    forall e :: e in all ==> e.key.sequence > s
  }

  /** Every entry of `later` was written after every entry of `earlier`. */
  ghost predicate WrittenAfter(later: set<Entry>, earlier: set<Entry>) {
    forall e, e' :: e in later && e' in earlier ==> e.key.sequence > e'.key.sequence
  }

  lemma AscendingIsUnique(h: seq<Batch>)
    requires Ascending(h)
    ensures UniqueSequences(EntriesOf(h))
  {
    forall e, e' | e in EntriesOf(h) && e' in EntriesOf(h) && e.key.sequence == e'.key.sequence ensures e == e' {
      var i := BatchOf(h, e);
      var j := BatchOf(h, e');
      assert i == j by {
        assert i < j ==> BatchBefore(h[i], h[j]);
        assert j < i ==> BatchBefore(h[j], h[i]);
      }
      SameInBatch(h[i], e, e');
    }
  }

  lemma BatchOf(h: seq<Batch>, e: Entry) returns (i: nat)
    requires e in EntriesOf(h)
    ensures i < |h| && e in h[i]
  {
    var b :| b in h && e in b;
    i :| 0 <= i < |h| && h[i] == b;
  }

  lemma SameInBatch(b: Batch, e: Entry, e': Entry)
    requires BatchAscending(b) && e in b && e' in b && e.key.sequence == e'.key.sequence
    ensures e == e'
  {
    var p :| 0 <= p < |b| && b[p] == e;
    var q :| 0 <= q < |b| && b[q] == e';
    assert p == q;
  }

  lemma AscendingSplit(a: seq<Batch>, b: seq<Batch>)
    requires Ascending(a + b)
    ensures Ascending(a) && Ascending(b)
    ensures WrittenAfter(EntriesOf(b), EntriesOf(a))
  {
    var h := a + b;
    assert forall i :: 0 <= i < |a| ==> a[i] == h[i];
    assert forall i :: 0 <= i < |b| ==> b[i] == h[|a| + i];
    forall e, e' | e in EntriesOf(b) && e' in EntriesOf(a) ensures e.key.sequence > e'.key.sequence {
      var j := BatchOf(b, e);
      var i := BatchOf(a, e');
      assert BatchBefore(h[i], h[|a| + j]);
    }
  }

  /** Batches numbered from `last + 1` extend the history. */
  lemma AscendingSnoc(h: seq<Batch>, b: Batch, last: nat)
    requires Ascending(h) && AtMost(EntriesOf(h), last)
    requires forall i :: 0 <= i < |b| ==> b[i].key.sequence == last + 1 + i
    ensures Ascending(h + [b])
    ensures AtMost(EntriesOf(h + [b]), last + |b|)
    ensures AllAbove(BatchEntries(b), last)
  {
    forall i | 0 <= i < |h| ensures BatchBefore(h[i], b) {
      assert forall e :: e in h[i] ==> e in EntriesOf(h);
    }
    EntriesOfConcat(h, [b]);
    EntriesOfSingle(b);
  }

  // ----- reading alike -----

  /** `a` answers like `b` to every read at or above `horizon`, except that keys in `risen` may be found in it that `b` does not have. */
  ghost predicate ReadAlike(a: set<Entry>, b: set<Entry>, horizon: nat, risen: set<UserKey>) {
    forall k, s :: s >= horizon && Reliable(b, k, s, risen) ==> Visible(a, k, s) == Visible(b, k, s)
  }

  lemma ReadAlikeChain(a: set<Entry>, b: set<Entry>, c: set<Entry>, h: nat, g: nat, horizon: nat, r: set<UserKey>, q: set<UserKey>)
    requires ReadAlike(a, b, h, r) && ReadAlike(c, a, g, q) && h <= horizon && g <= horizon
    ensures ReadAlike(c, b, horizon, r + q)
  {
    forall k, s | s >= horizon && Reliable(b, k, s, r + q) ensures Visible(c, k, s) == Visible(b, k, s) {
      assert Reliable(b, k, s, r);
      assert Reliable(a, k, s, q);
    }
  }

  lemma VisibleWithNewer(a: set<Entry>, m: set<Entry>, k: UserKey, s: nat, e: Entry)
    requires UniqueSequences(a + m) && WrittenAfter(m, a)
    requires Newest(m, k, s, e)
    ensures Visible(a + m, k, s) == Outcome(e)
  {
    forall x | Candidate(a + m, k, s, x) ensures x.key.sequence <= e.key.sequence {
      if x in m { assert Candidate(m, k, s, x); }
    }
    assert Newest(a + m, k, s, e);
    NewestDecides(a + m, k, s, e);
  }

  lemma VisibleWithoutCandidates(a: set<Entry>, m: set<Entry>, k: UserKey, s: nat)
    requires UniqueSequences(a + m)
    requires forall e :: !Candidate(m, k, s, e)
    ensures Visible(a + m, k, s) == Visible(a, k, s)
  {
    if e :| Candidate(a, k, s, e) {
      var n := NewestExists(a, k, s, e);
      NewestDecides(a, k, s, n);
      forall x | Candidate(a + m, k, s, x) ensures x.key.sequence <= n.key.sequence {
        assert !Candidate(m, k, s, x);
        assert Candidate(a, k, s, x);
      }
      assert Newest(a + m, k, s, n);
      NewestDecides(a + m, k, s, n);
    } else {
      forall x ensures !Candidate(a + m, k, s, x) {
        assert !Candidate(m, k, s, x) && !Candidate(a, k, s, x);
      }
      NoCandidateReadsNothing(a, k, s);
      NoCandidateReadsNothing(a + m, k, s);
    }
  }

  /** Adding the same later writes to both sides changes nothing. */
  lemma ReadAlikeWithNewer(a: set<Entry>, b: set<Entry>, m: set<Entry>, horizon: nat, risen: set<UserKey>)
    requires ReadAlike(a, b, horizon, risen)
    requires UniqueSequences(a + m) && UniqueSequences(b + m)
    requires WrittenAfter(m, a) && WrittenAfter(m, b)
    ensures ReadAlike(a + m, b + m, horizon, risen)
  {
    forall k, s | s >= horizon && Reliable(b + m, k, s, risen) ensures Visible(a + m, k, s) == Visible(b + m, k, s) {
      if e :| Candidate(m, k, s, e) {
        var n := NewestExists(m, k, s, e);
        VisibleWithNewer(a, m, k, s, n);
        VisibleWithNewer(b, m, k, s, n);
      } else {
        VisibleWithoutCandidates(a, m, k, s);
        VisibleWithoutCandidates(b, m, k, s);
        assert Reliable(b, k, s, risen);
      }
    }
  }

  /** Writes above the snapshot are invisible to it. */
  lemma LaterWritesInvisible(a: set<Entry>, m: set<Entry>, k: UserKey, s: nat)
    requires UniqueSequences(a + m) && AllAbove(m, s)
    ensures Visible(a + m, k, s) == Visible(a, k, s)
  {
    forall e ensures !Candidate(m, k, s, e) {}
    VisibleWithoutCandidates(a, m, k, s);
  }
}
