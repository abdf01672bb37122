/**
 The user-level iterator (db/db_iter.cc). It walks an internal iterator, here a
 cursor over the sorted entries, and shows for each user key the newest entry at or
 below its snapshot, hiding deleted keys. Whatever the mix of moves and direction
 changes, it sits at a place in the sequence of live entries.
 */
module DbIterator {
  import opened Format
  import opened Version

  predicate Seen(entries: seq<Entry>, snap: nat, i: int)
    requires 0 <= i < |entries|
  {
    entries[i].key.sequence <= snap
  }

  /** Entry `i` is what a read of its user key at the snapshot returns. */
  ghost predicate Live(entries: seq<Entry>, snap: nat, i: int) {
    && 0 <= i < |entries| && Seen(entries, snap, i) && entries[i].key.kind.Value?
    && forall j :: 0 <= j < i && entries[j].key.user == entries[i].key.user ==> !Seen(entries, snap, j)
  }

  /** `r` is the first live place at or after `from`, or the end. */
  ghost predicate FirstLive(entries: seq<Entry>, snap: nat, from: int, r: int) {
    && from <= r <= |entries| && (r < |entries| ==> Live(entries, snap, r))
    && forall i :: from <= i < r ==> !Live(entries, snap, i)
  }

  /** `r` is the last live place at or before `to`, or -1. */
  ghost predicate LastLive(entries: seq<Entry>, snap: nat, to: int, r: int) {
    && -1 <= r <= to && (r >= 0 ==> Live(entries, snap, r))
    && forall i :: r < i <= to ==> !Live(entries, snap, i)
  }

  lemma UsersAscend(entries: seq<Entry>, i: int, j: int)
    requires Sorted(entries) && 0 <= i <= j < |entries|
    ensures entries[i].key.user <= entries[j].key.user
  {
    assert i == j || Less(entries[i].key, entries[j].key);
  }

  datatype Direction = Forward | Reverse

  class DBIter {
    const entries: seq<Entry>
    const snap: nat
    /** The internal iterator: valid when it points at an entry. */
    var pos: int
    var direction: Direction
    var valid: bool
    var savedKey: UserKey
    var savedValue: Blob
    /** The place among the entries that key() and value() show. */
    ghost var current: int

    constructor (entries: seq<Entry>, snap: nat)
      requires Sorted(entries)
      ensures Valid() && !valid && this.entries == entries && this.snap == snap
    {
      this.entries, this.snap := entries, snap;
      pos, direction, valid, savedKey, savedValue := |entries|, Forward, false, 0.0, [];
      current := -1;
    }

    ghost predicate Valid()
      reads this
    {
      && Sorted(entries)
      && -1 <= pos <= |entries|
      && (valid ==> Live(entries, snap, current))
      && (valid && direction.Forward? ==> pos == current)
      && (valid && direction.Reverse? ==> ReverseInv())
    }

    /** Moving backwards, the internal iterator rests before every seen entry of the current key. */
    ghost predicate ReverseInv()
      requires 0 <= current < |entries|
      reads this
    {
      && savedKey == entries[current].key.user && savedValue == entries[current].value
      && -1 <= pos < current
      && (pos >= 0 ==> entries[pos].key.user < savedKey)
      && forall j :: pos < j < current ==> !Seen(entries, snap, j)
    }

    function Key(): (k: UserKey)
      requires Valid() && valid
      reads this
      ensures k == entries[current].key.user
    {
      if direction.Forward? then entries[pos].key.user else savedKey
    }

    function Value(): (v: Blob)
      requires Valid() && valid
      reads this
      ensures v == entries[current].value
    {
      if direction.Forward? then entries[pos].value else savedValue
    }

    method FindNextUserEntry(startSkipping: bool, startSkip: UserKey)
      requires Resumable(entries, snap, pos, startSkipping, startSkip) && direction.Forward?
      modifies this
      ensures Valid() && direction.Forward?
      ensures valid ==> old(pos) <= current && (startSkipping ==> startSkip < entries[current].key.user)
      ensures forall i :: old(pos) <= i < (if valid then current else |entries|) && Live(entries, snap, i) ==>
                startSkipping && entries[i].key.user <= startSkip
    {
      var skipping, skip := startSkipping, startSkip;
      ghost var hider := -1;  // the deletion that set `skip`, if one did
      while pos < |entries|
        invariant old(pos) <= pos <= |entries| && direction.Forward?
        invariant startSkipping ==> skipping && startSkip <= skip
        invariant pos < |entries| ==> Resumable(entries, snap, pos, skipping, skip)
        invariant Hides(entries, snap, pos, hider, skipping, skip, startSkipping, startSkip)
        invariant Passed(entries, snap, old(pos), pos, startSkipping, startSkip)
      {
        var e := entries[pos];
        ghost var skipping0, skip0 := skipping, skip;
        if e.key.sequence <= snap {
          if e.key.kind.Deletion? {
            skip, skipping, hider := e.key.user, true, pos;
          } else if skipping && e.key.user <= skip {
            HiddenIsNotLive(entries, snap, pos, hider, skipping, skip, startSkipping, startSkip);
          } else {
            valid, current := true, pos;
            return;
          }
        }
        if pos + 1 < |entries| {
          ResumableStep(entries, snap, pos, skipping0, skip0, skipping, skip);
        }
        PassedStep(entries, snap, old(pos), pos, startSkipping, startSkip);
        pos := pos + 1;
      }
      valid, current := false, -1;
    }

    method FindPrevUserEntry()
      requires Sorted(entries) && -1 <= pos < |entries| && direction.Reverse?
      modifies this
      ensures Valid()
      ensures LastLive(entries, snap, old(pos), if valid then current else -1)
      ensures valid ==> direction.Reverse?
    {
      var start := pos;
      var kind := Deletion;
      ghost var v := -1;  // the last seen entry, when it is a value
      while pos >= 0
        invariant -1 <= pos <= start && direction.Reverse?
        invariant kind.Value? ==> Pending(entries, snap, pos, start, v) && savedKey == entries[v].key.user && savedValue == entries[v].value
        invariant forall i :: pos < i <= start && Live(entries, snap, i) ==> kind.Value? && i == v
      {
        var e := entries[pos];
        if e.key.sequence <= snap {
          if kind.Value? && e.key.user < savedKey {
            break;
          }
          if kind.Value? {
            UsersAscend(entries, pos, v);
          }
          kind := e.key.kind;
          if kind.Value? {
            savedKey, savedValue, v := e.key.user, e.value, pos;
          }
        }
        pos := pos - 1;
      }
      if kind.Deletion? {
        valid, current := false, -1;
        direction := Forward;
      } else {
        PendingIsLive(entries, snap, pos, start, v);
        valid, current := true, v;
      }
    }

    method SeekToFirst()
      requires Valid()
      modifies this
      ensures Valid()
      ensures FirstLive(entries, snap, 0, if valid then current else |entries|)
    {
      direction := Forward;
      pos := 0;
      if pos < |entries| {
        FindNextUserEntry(false, savedKey);
      } else {
        valid := false;
      }
    }

    method SeekToLast()
      requires Valid()
      modifies this
      ensures Valid()
      ensures LastLive(entries, snap, |entries| - 1, if valid then current else -1)
    {
      direction := Reverse;
      pos := |entries| - 1;
      FindPrevUserEntry();
    }

    /** The first live key at or after `target`. */
    method Seek(target: UserKey)
      requires Valid()
      modifies this
      ensures Valid()
      ensures valid ==> entries[current].key.user >= target
      ensures forall i :: 0 <= i < (if valid then current else |entries|) && Live(entries, snap, i) ==> entries[i].key.user < target
    {
      direction := Forward;
      var p := Version.Seek(entries, LookupKey(target, snap));
      pos := p;
      if pos < |entries| {
        SeekResumable(entries, snap, pos, target);
        FindNextUserEntry(false, savedKey);
        if valid { UsersAscend(entries, p, current); }
      } else {
        valid := false;
      }
      assert forall i :: 0 <= i < p && Live(entries, snap, i) ==> Less(entries[i].key, LookupKey(target, snap));
    }

    method Next()
      requires Valid() && valid
      modifies this
      ensures Valid()
      ensures FirstLive(entries, snap, old(current) + 1, if valid then current else |entries|)
    {
      ghost var was := current;
      NextResumable(entries, snap, if direction.Reverse? then pos + 1 else pos, current);
      if direction.Reverse? {
        direction := Forward;
        pos := if pos < 0 then 0 else pos + 1;
      } else {
        savedKey := entries[pos].key.user;
      }
      ghost var start := pos;
      FindNextUserEntry(true, savedKey);
      AfterNext(entries, snap, was, start, if valid then current else |entries|);
    }

    method Prev()
      requires Valid() && valid
      modifies this
      ensures Valid()
      ensures LastLive(entries, snap, old(current) - 1, if valid then current else -1)
    {
      ghost var was := current;
      if direction.Forward? {
        savedKey := entries[pos].key.user;
        pos := pos - 1;
        while pos >= 0 && !(entries[pos].key.user < savedKey)
          invariant -1 <= pos < was && direction.Forward? && savedKey == entries[was].key.user
          invariant forall j :: pos < j < was ==> entries[j].key.user == savedKey
        {
          UsersAscend(entries, pos, was);
          pos := pos - 1;
        }
        SameUserNotLive(entries, snap, pos, was);
        if pos < 0 {
          valid, current := false, -1;
          return;
        }
        direction := Reverse;
      } else {
        assert forall j :: pos < j < was ==> !Live(entries, snap, j);
      }
      FindPrevUserEntry();
    }
  }

  // ----- why the scans are right -----

  /**
   What FindNextUserEntry may rely on at its start: entries already passed cannot
   make a later one stale unless `skipping` hides it.
   */
  ghost predicate Resumable(entries: seq<Entry>, snap: nat, pos: int, skipping: bool, skip: UserKey) {
    && Sorted(entries) && 0 <= pos < |entries|
    && (forall j :: 0 <= j < pos && Seen(entries, snap, j) ==>
          (skipping && entries[j].key.user <= skip) || entries[j].key.user < entries[pos].key.user)
    && (skipping ==> forall j :: pos <= j < |entries| && Seen(entries, snap, j) ==> skip <= entries[j].key.user)
  }

  /** Either nothing has been hidden yet, or the deletion at `hider` hides its key. */
  ghost predicate Hides(entries: seq<Entry>, snap: nat, pos: int, hider: int, skipping: bool, skip: UserKey, startSkipping: bool, startSkip: UserKey) {
    if hider < 0 then skipping == startSkipping && skip == startSkip
    else hider < pos <= |entries| && Seen(entries, snap, hider) && entries[hider].key.user == skip && skipping
  }

  /** From `from` on, nothing live was passed but what the start skips. */
  ghost predicate Passed(entries: seq<Entry>, snap: nat, from: int, pos: int, startSkipping: bool, startSkip: UserKey) {
    forall i :: from <= i < pos && Live(entries, snap, i) ==> startSkipping && entries[i].key.user <= startSkip
  }

  lemma PassedStep(entries: seq<Entry>, snap: nat, from: int, pos: int, startSkipping: bool, startSkip: UserKey)
    requires Passed(entries, snap, from, pos, startSkipping, startSkip)
    requires Live(entries, snap, pos) ==> startSkipping && entries[pos].key.user <= startSkip
    ensures Passed(entries, snap, from, pos + 1, startSkipping, startSkip)
  {
  }

  lemma HiddenIsNotLive(entries: seq<Entry>, snap: nat, pos: int, hider: int, skipping: bool, skip: UserKey, startSkipping: bool, startSkip: UserKey)
    requires Sorted(entries) && 0 <= pos < |entries| && skipping && entries[pos].key.user <= skip
    requires Hides(entries, snap, pos, hider, skipping, skip, startSkipping, startSkip)
    ensures Live(entries, snap, pos) ==> startSkipping && entries[pos].key.user <= startSkip
  {
    if hider >= 0 { UsersAscend(entries, hider, pos); }
  }

  lemma ResumableStep(entries: seq<Entry>, snap: nat, pos: int, skipping: bool, skip: UserKey, skipping': bool, skip': UserKey)
    requires Resumable(entries, snap, pos, skipping, skip) && pos + 1 < |entries|
    requires Seen(entries, snap, pos) && entries[pos].key.kind.Deletion? ==> skipping' && skip' == entries[pos].key.user
    requires !(Seen(entries, snap, pos) && entries[pos].key.kind.Deletion?) ==> skipping' == skipping && skip' == skip
    requires Seen(entries, snap, pos) && entries[pos].key.kind.Value? ==> skipping && entries[pos].key.user <= skip
    ensures Resumable(entries, snap, pos + 1, skipping', skip')
  {
    UsersAscend(entries, pos, pos + 1);
    if Seen(entries, snap, pos) && entries[pos].key.kind.Deletion? {
      forall j | pos < j < |entries| ensures skip' <= entries[j].key.user {
        UsersAscend(entries, pos, j);
      }
    }
  }

  lemma SeekResumable(entries: seq<Entry>, snap: nat, pos: int, target: UserKey)
    requires Sorted(entries) && FirstAtOrAfter(entries, LookupKey(target, snap), pos) && pos < |entries|
    ensures Resumable(entries, snap, pos, false, target)
  {
    forall j | 0 <= j < pos && Seen(entries, snap, j) ensures entries[j].key.user < entries[pos].key.user {
      assert Less(entries[j].key, LookupKey(target, snap)) && !Less(entries[pos].key, LookupKey(target, snap));
    }
  }

  /** From anywhere between the previous seen key and the current entry, skipping the current key is right. */
  lemma NextResumable(entries: seq<Entry>, snap: nat, pos: int, current: int)
    requires Sorted(entries) && Live(entries, snap, current) && 0 <= pos <= current
    requires forall j :: pos <= j < current ==> !Seen(entries, snap, j)
    ensures Resumable(entries, snap, pos, true, entries[current].key.user)
  {
    forall j | 0 <= j < |entries| ensures
      (j <= current ==> entries[j].key.user <= entries[current].key.user) && (current <= j ==> entries[current].key.user <= entries[j].key.user)
    {
      if j <= current { UsersAscend(entries, j, current); } else { UsersAscend(entries, current, j); }
    }
  }

  lemma AfterNext(entries: seq<Entry>, snap: nat, was: int, start: int, r: int)
    requires Sorted(entries) && Live(entries, snap, was) && 0 <= start <= was && start <= r <= |entries|
    requires r < |entries| ==> Live(entries, snap, r) && entries[was].key.user < entries[r].key.user
    requires forall i :: start <= i < r && Live(entries, snap, i) ==> entries[i].key.user <= entries[was].key.user
    ensures FirstLive(entries, snap, was + 1, r)
  {
    if r < |entries| && r <= was {
      UsersAscend(entries, r, was);
    }
    forall i | was < i < r ensures !Live(entries, snap, i) {
      UsersAscend(entries, was, i);
    }
  }

  /** The last value seen while scanning back; nothing seen lies between it and the scan. */
  ghost predicate Pending(entries: seq<Entry>, snap: nat, pos: int, start: int, v: int) {
    && -1 <= pos < v <= start < |entries|
    && Seen(entries, snap, v) && entries[v].key.kind.Value?
    && forall j :: pos < j < v ==> !Seen(entries, snap, j)
  }

  lemma PendingIsLive(entries: seq<Entry>, snap: nat, pos: int, start: int, v: int)
    requires Sorted(entries) && Pending(entries, snap, pos, start, v)
    requires pos >= 0 ==> entries[pos].key.user < entries[v].key.user
    ensures Live(entries, snap, v)
  {
    forall j | 0 <= j < v && entries[j].key.user == entries[v].key.user ensures !Seen(entries, snap, j) {
      if j <= pos { UsersAscend(entries, j, pos); }
    }
  }

  lemma SameUserNotLive(entries: seq<Entry>, snap: nat, pos: int, was: int)
    requires Sorted(entries) && Live(entries, snap, was) && -1 <= pos < was
    requires forall j :: pos < j < was ==> entries[j].key.user == entries[was].key.user
    ensures forall j :: pos < j < was ==> !Live(entries, snap, j)
  {
  }

  /** Live places are exactly what reads at the snapshot return, one for each key that is there. */
  lemma LiveIsVisible(entries: seq<Entry>, snap: nat, k: UserKey)
    requires Sorted(entries) && UniqueSequences(RunEntries(entries))
    ensures forall i :: Live(entries, snap, i) && entries[i].key.user == k ==>
              Visible(RunEntries(entries), k, snap) == Found(entries[i].value)
    ensures Visible(RunEntries(entries), k, snap).Found? ==> exists i :: Live(entries, snap, i) && entries[i].key.user == k
  {
    var all := RunEntries(entries);
    forall i | Live(entries, snap, i) && entries[i].key.user == k
      ensures Visible(all, k, snap) == Found(entries[i].value)
    {
      forall e | Candidate(all, k, snap, e) ensures e.key.sequence <= entries[i].key.sequence {
        var j :| 0 <= j < |entries| && entries[j] == e;
        assert i < j ==> Less(entries[i].key, entries[j].key);
      }
      assert Newest(all, k, snap, entries[i]);
      NewestDecides(all, k, snap, entries[i]);
    }
    if Visible(all, k, snap).Found? {
      var e :| Newest(all, k, snap, e) && Visible(all, k, snap) == Outcome(e);
      var i :| 0 <= i < |entries| && entries[i] == e;
      forall j | 0 <= j < i && entries[j].key.user == k ensures !Seen(entries, snap, j) {
        assert Less(entries[j].key, entries[i].key);
        assert entries[j].key.sequence <= snap ==> Candidate(all, k, snap, entries[j]);
      }
      assert Live(entries, snap, i);
    }
  }
}
