/**
 What the two drop rules of a compaction do to reads, said of sets of entries.
 `rest` is everything the compaction does not touch, `stragglers` the part of it
 left behind at the output level, and `base` says for which user keys no deeper
 level can hold data.
 */
module DropRules {
  import opened Format

  /** Rule (A): some newer input for the same user key is visible to every snapshot. */
  ghost predicate Hidden(inputs: set<Entry>, e: Entry, snap: nat) {
    exists e' :: e' in inputs && e'.key.user == e.key.user && e'.key.sequence <= snap && Tag(e'.key) > Tag(e.key)
  }

  /** The second rule: a deletion that every snapshot sees and that has nothing below it. */
  ghost predicate Obsolete(base: UserKey -> bool, e: Entry, snap: nat) {
    e.key.kind.Deletion? && e.key.sequence <= snap && base(e.key.user)
  }

  ghost function Survivors(inputs: set<Entry>, base: UserKey -> bool, snap: nat): set<Entry> {
    set e | e in inputs && !Hidden(inputs, e, snap) && !Obsolete(base, e, snap)
  }

  /** For a user key of the inputs, the rest is newer, or left behind, or below a key that is not at its base level. */
  ghost predicate Placed(rest: set<Entry>, stragglers: set<Entry>, inputs: set<Entry>, base: UserKey -> bool) {
    && stragglers <= rest
    && UniqueSequences(rest + inputs)
    && forall n, m :: n in rest && m in inputs && n.key.user == m.key.user ==>
         Tag(n.key) > Tag(m.key) || n in stragglers || !base(n.key.user)
  }

  /**
   The one way a read can change: at the smallest snapshot the key is deleted by a
   marker among the inputs that the loop drops, and the newest version left behind
   at the output level is a value.
   */
  ghost predicate Resurrects(rest: set<Entry>, stragglers: set<Entry>, inputs: set<Entry>, base: UserKey -> bool, snap: nat, k: UserKey) {
    exists d, x ::
      && Newest(rest + inputs, k, snap, d) && d in inputs && Obsolete(base, d, snap)
      && Newest(stragglers, k, snap, x) && x.key.kind.Value?
  }

  /** Nothing is kept without need: of what every snapshot sees, one version of a key survives, and no deletion at its base level. */
  lemma NothingSuperfluous(inputs: set<Entry>, base: UserKey -> bool, snap: nat, e: Entry, e': Entry)
    requires UniqueSequences(inputs) && e in Survivors(inputs, base, snap) && e' in Survivors(inputs, base, snap)
    requires e.key.user == e'.key.user && e.key.sequence <= snap && e'.key.sequence <= snap
    ensures e == e' && (base(e.key.user) ==> e.key.kind.Value?)
  {
    assert !Hidden(inputs, e, snap) && !Hidden(inputs, e', snap);
  }

  lemma DroppedNewestIsObsolete(rest: set<Entry>, inputs: set<Entry>, base: UserKey -> bool, snap: nat, k: UserKey, s: nat, m: Entry)
    requires UniqueSequences(rest + inputs) && s >= snap
    requires Newest(rest + inputs, k, s, m)
    requires m !in rest + Survivors(inputs, base, snap)
    ensures m in inputs && Obsolete(base, m, snap)
  {
    assert forall h :: h in inputs && h.key.user == k && h.key.sequence <= snap ==> Candidate(rest + inputs, k, s, h);
  }

  /** What is left of a key after its newest version is dropped was left behind at the output level. */
  lemma LeftoverIsStraggler(rest: set<Entry>, stragglers: set<Entry>, inputs: set<Entry>, base: UserKey -> bool,
                            snap: nat, k: UserKey, s: nat, m: Entry, n: Entry)
    requires Placed(rest, stragglers, inputs, base) && s >= snap
    requires Newest(rest + inputs, k, s, m) && m in inputs && Obsolete(base, m, snap)
    requires Candidate(rest + Survivors(inputs, base, snap), k, s, n)
    ensures n in stragglers
  {
    assert Candidate(rest + inputs, k, s, n);
    assert n.key.sequence != m.key.sequence ==> Hidden(inputs, n, snap);
  }

  lemma NewestOfSubset(all: set<Entry>, some: set<Entry>, k: UserKey, s: nat, m: Entry)
    requires some <= all && m in some && Newest(all, k, s, m)
    ensures Newest(some, k, s, m)
  {
    forall e | Candidate(some, k, s, e) ensures e.key.sequence <= m.key.sequence {
      assert Candidate(all, k, s, e);
    }
  }

  lemma StragglerDecides(rest: set<Entry>, stragglers: set<Entry>, inputs: set<Entry>, base: UserKey -> bool,
                         snap: nat, k: UserKey, s: nat, m: Entry, n: Entry)
    requires Placed(rest, stragglers, inputs, base) && s >= snap
    requires !Resurrects(rest, stragglers, inputs, base, snap, k)
    requires Newest(rest + inputs, k, s, m) && m in inputs && Obsolete(base, m, snap)
    requires Newest(rest + Survivors(inputs, base, snap), k, s, n) && n in stragglers
    ensures n.key.kind.Deletion?
  {
    forall e | Candidate(rest + inputs, k, snap, e) ensures e.key.sequence <= m.key.sequence {
      assert Candidate(rest + inputs, k, s, e);
    }
    assert Candidate(rest + inputs, k, s, n);
    forall e | Candidate(stragglers, k, snap, e) ensures e.key.sequence <= n.key.sequence {
      assert Candidate(rest + Survivors(inputs, base, snap), k, s, e);
    }
    assert Newest(stragglers, k, snap, n);
  }

  lemma ReadUnchanged(rest: set<Entry>, stragglers: set<Entry>, inputs: set<Entry>, base: UserKey -> bool,
                      snap: nat, k: UserKey, s: nat)
    requires Placed(rest, stragglers, inputs, base) && s >= snap
    requires !Resurrects(rest, stragglers, inputs, base, snap, k)
    ensures Visible(rest + inputs, k, s) == Visible(rest + Survivors(inputs, base, snap), k, s)
  {
    var before, after := rest + inputs, rest + Survivors(inputs, base, snap);
    assert after <= before;
    if e :| Candidate(before, k, s, e) {
      var m := NewestExists(before, k, s, e);
      NewestDecides(before, k, s, m);
      if m in after {
        NewestOfSubset(before, after, k, s, m);
        NewestDecides(after, k, s, m);
      } else {
        DroppedNewestIsObsolete(rest, inputs, base, snap, k, s, m);
        if n0 :| Candidate(after, k, s, n0) {
          var n := NewestExists(after, k, s, n0);
          LeftoverIsStraggler(rest, stragglers, inputs, base, snap, k, s, m, n);
          StragglerDecides(rest, stragglers, inputs, base, snap, k, s, m, n);
          NewestDecides(after, k, s, n);
        } else {
          NoCandidateReadsNothing(after, k, s);
        }
      }
    } else {
      forall e ensures !Candidate(after, k, s, e) {
        assert !Candidate(before, k, s, e);
      }
      NoCandidateReadsNothing(before, k, s);
      NoCandidateReadsNothing(after, k, s);
    }
  }

  /** A put that a read from the smallest snapshot up finds is never dropped. */
  lemma PutsAreKept(rest: set<Entry>, stragglers: set<Entry>, inputs: set<Entry>, base: UserKey -> bool, snap: nat, k: UserKey, s: nat)
    requires Placed(rest, stragglers, inputs, base) && s >= snap && Visible(rest + inputs, k, s).Found?
    ensures Visible(rest + inputs, k, s) == Visible(rest + Survivors(inputs, base, snap), k, s)
  {
    var before, after := rest + inputs, rest + Survivors(inputs, base, snap);
    var m :| Newest(before, k, s, m) && Visible(before, k, s) == Outcome(m);
    if m !in after { DroppedNewestIsObsolete(rest, inputs, base, snap, k, s, m); }
    NewestOfSubset(before, after, k, s, m);
    NewestDecides(after, k, s, m);
  }

  lemma ReadResurrected(rest: set<Entry>, stragglers: set<Entry>, inputs: set<Entry>, base: UserKey -> bool, snap: nat, k: UserKey)
    requires Placed(rest, stragglers, inputs, base)
    requires Resurrects(rest, stragglers, inputs, base, snap, k)
    ensures Visible(rest + inputs, k, snap) != Visible(rest + Survivors(inputs, base, snap), k, snap)
  {
    var before, after := rest + inputs, rest + Survivors(inputs, base, snap);
    var d, x :|
      && Newest(before, k, snap, d) && d in inputs && Obsolete(base, d, snap)
      && Newest(stragglers, k, snap, x) && x.key.kind.Value?;
    NewestDecides(before, k, snap, d);
    assert after <= before;
    forall e | Candidate(after, k, snap, e) ensures e.key.sequence <= x.key.sequence {
      LeftoverIsStraggler(rest, stragglers, inputs, base, snap, k, snap, d, e);
      assert Candidate(stragglers, k, snap, e);
    }
    assert Candidate(after, k, snap, x);
    NewestDecides(after, k, snap, x);
  }

  /** Exactly when dropping preserves every read at or above the smallest snapshot. */
  lemma DropPreservesReadsIff(rest: set<Entry>, stragglers: set<Entry>, inputs: set<Entry>, base: UserKey -> bool, snap: nat)
    requires Placed(rest, stragglers, inputs, base)
    ensures (forall k, s :: s >= snap ==>
               Visible(rest + inputs, k, s) == Visible(rest + Survivors(inputs, base, snap), k, s))
            <==> (forall k :: !Resurrects(rest, stragglers, inputs, base, snap, k))
  {
    if forall k :: !Resurrects(rest, stragglers, inputs, base, snap, k) {
      forall k, s | s >= snap
        ensures Visible(rest + inputs, k, s) == Visible(rest + Survivors(inputs, base, snap), k, s)
      {
        ReadUnchanged(rest, stragglers, inputs, base, snap, k, s);
      }
    } else {
      var k :| Resurrects(rest, stragglers, inputs, base, snap, k);
      ReadResurrected(rest, stragglers, inputs, base, snap, k);
    }
  }

  /** No key of the inputs was left behind: then nothing can resurrect. */
  lemma NothingSharedIsSafe(rest: set<Entry>, stragglers: set<Entry>, inputs: set<Entry>, base: UserKey -> bool, snap: nat)
    requires forall e, e' :: e in stragglers && e' in inputs ==> e.key.user != e'.key.user
    ensures forall k :: !Resurrects(rest, stragglers, inputs, base, snap, k)
  {
    forall k, d, x | d in inputs && Newest(rest + inputs, k, snap, d)
      ensures !Newest(stragglers, k, snap, x)
    {
      assert !Candidate(stragglers, k, snap, x);
    }
  }

  // ----- the rules as the loop applies them, entry by entry -----

  ghost function Elements(es: seq<Entry>): set<Entry> {
    set e | e in es
  }

  /** The entry before it has the same user key and is already visible to every snapshot. */
  predicate HiddenAt(merged: seq<Entry>, i: nat, snap: nat)
    requires i < |merged|
  {
    i > 0 && merged[i - 1].key.user == merged[i].key.user && merged[i - 1].key.sequence <= snap
  }

  ghost predicate DropAt(base: UserKey -> bool, merged: seq<Entry>, i: nat, snap: nat)
    requires i < |merged|
  {
    HiddenAt(merged, i, snap) || Obsolete(base, merged[i], snap)
  }

  ghost function Kept(base: UserKey -> bool, merged: seq<Entry>, snap: nat): seq<Entry> {
    if merged == [] then []
    else
      var n := |merged| - 1;
      Kept(base, merged[..n], snap) + if DropAt(base, merged, n, snap) then [] else [merged[n]]
  }

  ghost predicate KeptFrom(base: UserKey -> bool, merged: seq<Entry>, snap: nat, e: Entry) {
    exists i :: 0 <= i < |merged| && merged[i] == e && !DropAt(base, merged, i, snap)
  }

  lemma DropsOfFront(base: UserKey -> bool, merged: seq<Entry>, snap: nat, i: nat)
    requires i < |merged| - 1
    ensures DropAt(base, merged[..|merged| - 1], i, snap) == DropAt(base, merged, i, snap)
  {
  }

  lemma KeptFromFront(base: UserKey -> bool, merged: seq<Entry>, snap: nat, e: Entry)
    requires merged != []
    ensures var n := |merged| - 1;
      KeptFrom(base, merged, snap, e) <==> KeptFrom(base, merged[..n], snap, e) || (e == merged[n] && !DropAt(base, merged, n, snap))
  {
    var n := |merged| - 1;
    forall i | 0 <= i < n ensures DropAt(base, merged[..n], i, snap) == DropAt(base, merged, i, snap) { DropsOfFront(base, merged, snap, i); }
    if KeptFrom(base, merged[..n], snap, e) {
      var i :| 0 <= i < n && merged[..n][i] == e && !DropAt(base, merged[..n], i, snap);
      assert merged[i] == e;
    }
    if KeptFrom(base, merged, snap, e) {
      var i :| 0 <= i < |merged| && merged[i] == e && !DropAt(base, merged, i, snap);
      assert i < n ==> merged[..n][i] == e;
    }
  }

  lemma {:induction false} KeptIsSubsequence(base: UserKey -> bool, merged: seq<Entry>, snap: nat)
    requires Sorted(merged)
    ensures Sorted(Kept(base, merged, snap))
    ensures forall e :: e in Kept(base, merged, snap) <==> KeptFrom(base, merged, snap, e)
  {
    if merged != [] {
      var n := |merged| - 1;
      KeptIsSubsequence(base, merged[..n], snap);
      var kept := Kept(base, merged[..n], snap);
      forall i | 0 <= i < |kept| ensures Less(kept[i].key, merged[n].key) {
        assert kept[i] in kept;
      }
      forall e ensures e in Kept(base, merged, snap) <==> KeptFrom(base, merged, snap, e) {
        KeptFromFront(base, merged, snap, e);
      }
    }
  }

  lemma HiddenByNeighbour(merged: seq<Entry>, i: nat, snap: nat)
    requires Sorted(merged) && i < |merged|
    ensures HiddenAt(merged, i, snap) <==> Hidden(Elements(merged), merged[i], snap)
  {
    var all := Elements(merged);
    if HiddenAt(merged, i, snap) {
      assert merged[i - 1] in all && Less(merged[i - 1].key, merged[i].key);
    }
    if Hidden(all, merged[i], snap) {
      var e' :| e' in all && e'.key.user == merged[i].key.user && e'.key.sequence <= snap && Tag(e'.key) > Tag(merged[i].key);
      var j :| 0 <= j < |merged| && merged[j] == e';
      assert i < j ==> Less(merged[i].key, merged[j].key);
      assert j < i - 1 ==> Less(merged[j].key, merged[i - 1].key);
      assert Less(merged[i - 1].key, merged[i].key);
    }
  }

  /** The loop keeps exactly the survivors. */
  lemma KeptAreSurvivors(base: UserKey -> bool, merged: seq<Entry>, snap: nat)
    requires Sorted(merged)
    ensures Elements(Kept(base, merged, snap)) == Survivors(Elements(merged), base, snap)
  {
    KeptIsSubsequence(base, merged, snap);
    forall i | 0 <= i < |merged|
      ensures DropAt(base, merged, i, snap) <==> merged[i] !in Survivors(Elements(merged), base, snap)
    {
      HiddenByNeighbour(merged, i, snap);
    }
  }
}
