/** Every step of group commit keeps its invariant; what whole runs promise. */
module GroupCommitProofs {
  import opened Options
  import opened Format
  import opened GroupCommit
  import opened GroupCommitRuns

  lemma NumberedConcat(first: nat, a: seq<Op>, b: seq<Op>)
    ensures Numbered(first, a + b, |a + b|) == Numbered(first, a, |a|) + Numbered(first + |a|, b, |b|)
  {
    var all, left, right := Numbered(first, a + b, |a + b|), Numbered(first, a, |a|), Numbered(first + |a|, b, |b|);
    forall e | e in left ensures e in all {
      var i :| 0 <= i < |a| && e == EntryOf(a[i], first + i);
      assert (a + b)[i] == a[i];
    }
    forall e | e in right ensures e in all {
      var i :| 0 <= i < |b| && e == EntryOf(b[i], first + |a| + i);
      assert (a + b)[|a| + i] == b[i];
    }
    forall e | e in all ensures e in left + right {
      var i :| 0 <= i < |a + b| && e == EntryOf((a + b)[i], first + i);
      assert i >= |a| ==> e == EntryOf(b[i - |a|], first + |a| + (i - |a|));
    }
  }

  lemma {:induction false} LeavingAt(queue: seq<Writer>, n: nat, ok: bool, first: nat, i: nat)
    requires i < n <= |queue|
    ensures Leaving(queue, n, ok, first)[i] == LastLeaving(queue, i + 1, ok, first)
  {
    if i < n - 1 { LeavingAt(queue, n - 1, ok, first, i); }
  }

  lemma LeavingWriters(queue: seq<Writer>, n: nat, ok: bool, first: nat)
    requires n <= |queue|
    ensures Writers(Leaving(queue, n, ok, first)) == queue[..n]
  {
    forall i | 0 <= i < n ensures Leaving(queue, n, ok, first)[i].writer == queue[i] { LeavingAt(queue, n, ok, first, i); }
  }

  lemma TakenSnoc(ds: seq<Departure>, d: Departure)
    ensures Taken(ds + [d]) == Taken(ds) + if d.numbered then |d.writer.Ops()| else 0
  {
    assert (ds + [d])[..|ds|] == ds;
  }

  lemma CommittedSnoc(ds: seq<Departure>, d: Departure)
    ensures Committed(ds + [d]) == Committed(ds) + EntriesOf(d)
  {
    assert (ds + [d])[..|ds|] == ds;
  }

  lemma {:induction false} TakenConcat(a: seq<Departure>, b: seq<Departure>)
    ensures Taken(a + b) == Taken(a) + Taken(b)
  {
    if b == [] {
      assert a + b == a;
    } else {
      var n := |b| - 1;
      TakenConcat(a, b[..n]);
      assert (a + b)[..|a| + n] == a + b[..n];
    }
  }

  lemma {:induction false} CommittedConcat(a: seq<Departure>, b: seq<Departure>)
    ensures Committed(a + b) == Committed(a) + Committed(b)
  {
    if b == [] {
      assert a + b == a;
    } else {
      var n := |b| - 1;
      CommittedConcat(a, b[..n]);
      assert (a + b)[..|a| + n] == a + b[..n];
    }
  }

  /** A group takes as many numbers as its joined batch has operations. */
  lemma {:induction false} LeavingTaken(queue: seq<Writer>, n: nat, ok: bool, first: nat)
    requires n <= |queue|
    ensures Taken(Leaving(queue, n, ok, first)) == |Joined(queue[..n])|
  {
    if n > 0 {
      LeavingTaken(queue, n - 1, ok, first);
      TakenSnoc(Leaving(queue, n - 1, ok, first), LastLeaving(queue, n, ok, first));
      JoinedStep(queue, n - 1);
    }
  }

  ghost function Added(first: nat, ops: seq<Op>, ok: bool): set<Entry> {
    if ok then Numbered(first, ops, |ops|) else {}
  }

  lemma AddedStep(first: nat, joined: seq<Op>, d: Departure, ok: bool)
    requires d.numbered && d.ok == ok && d.first == first + |joined|
    ensures Added(first, joined, ok) + EntriesOf(d) == Added(first, joined + d.writer.Ops(), ok)
  {
    NumberedConcat(first, joined, d.writer.Ops());
  }

  /** The batches of a group get, one after another, the numbers of the joined batch. */
  lemma {:induction false} LeavingCommitted(queue: seq<Writer>, n: nat, ok: bool, first: nat)
    requires n <= |queue|
    ensures Committed(Leaving(queue, n, ok, first)) == Added(first, Joined(queue[..n]), ok)
  {
    if n > 0 {
      var d := LastLeaving(queue, n, ok, first);
      LeavingCommitted(queue, n - 1, ok, first);
      CommittedSnoc(Leaving(queue, n - 1, ok, first), d);
      JoinedStep(queue, n - 1);
      AddedStep(first, Joined(queue[..n - 1]), d, ok);
    }
  }

  lemma {:induction false} EntriesCommitted(ds: seq<Departure>, i: nat)
    requires i < |ds|
    ensures EntriesOf(ds[i]) <= Committed(ds)
  {
    if i < |ds| - 1 { EntriesCommitted(ds[..|ds| - 1], i); }
  }

  /** When the group of a sync writer is durable, so is every batch in it; no sync writer is in another's group. */
  lemma LeavingKept(queue: seq<Writer>, n: nat, ok: bool, first: nat, durable: set<Entry>)
    requires 0 < n <= |queue| && forall i :: 0 <= i < n ==> queue[i].sync ==> queue[0].sync
    requires ok && queue[0].sync ==> Numbered(first, Joined(queue[..n]), |Joined(queue[..n])|) <= durable
    ensures forall i :: 0 <= i < n ==> Kept(Leaving(queue, n, ok, first)[i], durable)
  {
    var leaving := Leaving(queue, n, ok, first);
    forall i | 0 <= i < n ensures Kept(leaving[i], durable) {
      LeavingAt(queue, n, ok, first, i);
      if ok && queue[i].sync {
        EntriesCommitted(leaving, i);
        LeavingCommitted(queue, n, ok, first);
      }
    }
  }

  // ----- steps that leave the queue's front alone -----

  lemma EnqueueKeeps(s: State, s': State, w: Writer)
    requires Inv(s) && Enqueue(s, s', w)
    ensures Inv(s')
  {
    EnqueueOrder(s, s', w);
    EnqueueWork(s, s', w);
    EnqueueWaiting(s, s', w);
  }

  lemma EnqueueOrder(s: State, s': State, w: Writer)
    requires OrderInv(s) && Enqueue(s, s', w)
    ensures OrderInv(s')
  {
  }

  lemma EnqueueWork(s: State, s': State, w: Writer)
    requires WorkInv(s) && Enqueue(s, s', w)
    ensures WorkInv(s')
  {
    if s.phase.Working? {
      assert s'.queue[..s.phase.count] == s.queue[..s.phase.count];
    }
  }

  lemma EnqueueWaiting(s: State, s': State, w: Writer)
    requires WaitingInv(s) && Enqueue(s, s', w)
    ensures WaitingInv(s')
  {
    forall id | id in s'.waiting ensures Behind(s'.queue, id) {
      if id in s.waiting {
        var i :| 1 <= i < |s.queue| && s.queue[i].id == id;
        assert s'.queue[i] == s.queue[i];
      } else {
        assert s'.queue[|s.queue|] == w;
      }
    }
  }

  lemma LeadKeeps(s: State, s': State)
    requires Inv(s) && Lead(s, s')
    ensures Inv(s')
  {
  }

  lemma BeginKeeps(s: State, s': State, n: nat)
    requires Inv(s) && Begin(s, s', n)
    ensures Inv(s')
  {
    forall i | 0 <= i < n ensures s.queue[i].sync ==> s.queue[0].sync {
      assert i > 0 ==> MayRide(s.queue, i);
    }
  }

  lemma AddRecordKeeps(s: State, s': State, ok: bool)
    requires Inv(s) && AddRecord(s, s', ok)
    ensures Inv(s')
  {
  }

  lemma SyncKeeps(s: State, s': State, ok: bool)
    requires Inv(s) && Sync(s, s', ok)
    ensures Inv(s')
  {
  }

  lemma NumberedNext(first: nat, ops: seq<Op>, k: nat)
    requires k < |ops|
    ensures Numbered(first, ops, k + 1) == Numbered(first, ops, k) + {EntryOf(ops[k], first + k)}
    ensures EntryOf(ops[k], first + k) in Numbered(first, ops, |ops|)
  {
  }

  lemma InsertApplied(s: State, s': State)
    requires AppliedInv(s) && LogInv(s) && Insert(s, s')
    ensures AppliedInv(s') && LogInv(s')
  {
    NumberedNext(s.lastSequence + 1, s.phase.ops, s.phase.stage.applied);
  }

  lemma InsertKeeps(s: State, s': State)
    requires Inv(s) && Insert(s, s')
    ensures Inv(s')
  {
    InsertApplied(s, s');
  }

  // ----- steps in which writers leave -----

  lemma PoppedOrder(s: State, s': State, n: nat, leaving: seq<Departure>)
    requires OrderInv(s) && n <= |s.queue| && Popped(s, s', n, leaving) && Writers(leaving) == s.queue[..n]
    ensures OrderInv(s')
  {
    assert Writers(s.departed + leaving) == Writers(s.departed) + Writers(leaving);
    assert s.queue == s.queue[..n] + s.queue[n..];
  }

  lemma InIds(queue: seq<Writer>, n: nat, i: nat)
    requires n <= |queue|
    ensures i < n ==> queue[i].id in Ids(queue, n)
  {
  }

  lemma PoppedWaiting(s: State, s': State, n: nat, leaving: seq<Departure>)
    requires WaitingInv(s) && 0 < n <= |s.queue| && Popped(s, s', n, leaving)
    ensures WaitingInv(s')
  {
    forall id | id in s'.waiting ensures Behind(s'.queue, id) {
      var i :| 1 <= i < |s.queue| && s.queue[i].id == id;
      InIds(s.queue, if n < |s.queue| then n + 1 else n, i);
      assert s'.queue[i - n].id == id;
    }
  }

  lemma OneWriter(d: Departure, queue: seq<Writer>)
    requires queue != [] && d.writer == queue[0]
    ensures Writers([d]) == queue[..1]
  {
  }

  lemma LeaveAloneKeeps(s: State, s': State)
    requires Inv(s) && (LeaveWithoutRoom(s, s') || LeaveWithoutBatch(s, s'))
    ensures Inv(s')
  {
    var d := Departure(s.queue[0], LeaveWithoutBatch(s, s'), false, 0);
    OneWriter(d, s.queue);
    PoppedOrder(s, s', 1, [d]);
    PoppedWaiting(s, s', 1, [d]);
    AloneKept(s, s', d);
  }

  /** A departure without numbers adds nothing. */
  lemma AloneKept(s: State, s': State, d: Departure)
    requires NumbersInv(s) && AppliedInv(s) && DepartedInv(s) && !d.numbered && (d.ok ==> d.writer.batch == None)
    requires InProgress(s.phase, s.lastSequence + 1) == InProgress(s'.phase, s'.lastSequence + 1) == {}
    requires s'.departed == s.departed + [d] && s'.lastSequence == s.lastSequence && s'.applied == s.applied && s'.durable == s.durable
    ensures NumbersInv(s') && AppliedInv(s') && DepartedInv(s')
  {
    TakenSnoc(s.departed, d);
    CommittedSnoc(s.departed, d);
    ConsecutiveSnoc(s.departed, d, 0);
  }

  lemma ConsecutiveSnoc(ds: seq<Departure>, d: Departure, base: nat)
    requires Consecutive(ds, base) && (d.numbered ==> d.first == base + Taken(ds) + 1)
    ensures Consecutive(ds + [d], base)
  {
    assert (ds + [d])[..|ds|] == ds;
  }

  lemma {:induction false} ConsecutiveConcat(a: seq<Departure>, b: seq<Departure>)
    requires Consecutive(a, 0) && Consecutive(b, Taken(a))
    ensures Consecutive(a + b, 0)
  {
    if b == [] {
      assert a + b == a;
    } else {
      var n := |b| - 1;
      ConsecutiveConcat(a, b[..n]);
      TakenConcat(a, b[..n]);
      assert (a + b)[..|a| + n] == a + b[..n];
    }
  }

  lemma {:induction false} ConsecutiveAt(ds: seq<Departure>, i: nat)
    requires Consecutive(ds, 0) && i < |ds|
    ensures ds[i].numbered ==> ds[i].first == Taken(ds[..i]) + 1
  {
    var n := |ds| - 1;
    if i < n {
      ConsecutiveAt(ds[..n], i);
      assert ds[..n][..i] == ds[..i];
    }
  }

  /** The batches of a group take consecutive numbers. */
  lemma {:induction false} LeavingNumbers(queue: seq<Writer>, n: nat, ok: bool, base: nat)
    requires n <= |queue|
    ensures Consecutive(Leaving(queue, n, ok, base + 1), base)
  {
    if n > 0 {
      LeavingNumbers(queue, n - 1, ok, base);
      LeavingTaken(queue, n - 1, ok, base + 1);
      ConsecutiveSnoc(Leaving(queue, n - 1, ok, base + 1), LastLeaving(queue, n, ok, base + 1), base);
    }
  }

  /** What a commit does to the departures. */
  ghost predicate GroupLeft(s: State, s': State, n: nat, ok: bool) {
    && 0 < n <= |s.queue| && s'.departed == s.departed + Leaving(s.queue, n, ok, s.lastSequence + 1)
    && s'.lastSequence == s.lastSequence + |Joined(s.queue[..n])|
  }

  lemma CommitNumbers(s: State, s': State, n: nat, ok: bool)
    requires NumbersInv(s) && GroupLeft(s, s', n, ok)
    ensures NumbersInv(s')
  {
    LeavingNumbers(s.queue, n, ok, s.lastSequence);
    LeavingTaken(s.queue, n, ok, s.lastSequence + 1);
    ConsecutiveConcat(s.departed, Leaving(s.queue, n, ok, s.lastSequence + 1));
    TakenConcat(s.departed, Leaving(s.queue, n, ok, s.lastSequence + 1));
  }

  lemma AllInProgress(phase: Phase, first: nat)
    requires phase.Working? && (phase.stage.Failed? || (phase.stage.Inserting? && phase.stage.applied == |phase.ops|))
    ensures InProgress(phase, first) == Added(first, phase.ops, !phase.stage.Failed?)
  {
  }

  lemma CommitApplied(s: State, s': State, n: nat, ok: bool)
    requires AppliedInv(s) && GroupLeft(s, s', n, ok) && s'.applied == s.applied && s'.phase == Free
    requires InProgress(s.phase, s.lastSequence + 1) == Added(s.lastSequence + 1, Joined(s.queue[..n]), ok)
    ensures AppliedInv(s')
  {
    LeavingCommitted(s.queue, n, ok, s.lastSequence + 1);
    CommittedConcat(s.departed, Leaving(s.queue, n, ok, s.lastSequence + 1));
    assert InProgress(s'.phase, s'.lastSequence + 1) == {};
  }

  lemma CommitKeeps(s: State, s': State)
    requires Inv(s) && Commit(s, s')
    ensures Inv(s')
  {
    var n, ok, first := s.phase.count, !s.phase.stage.Failed?, s.lastSequence + 1;
    var leaving := Leaving(s.queue, n, ok, first);
    LeavingWriters(s.queue, n, ok, first);
    LeavingKept(s.queue, n, ok, first, s.durable);
    PoppedOrder(s, s', n, leaving);
    PoppedWaiting(s, s', n, leaving);
    CommitNumbers(s, s', n, ok);
    AllInProgress(s.phase, first);
    CommitApplied(s, s', n, ok);
    assert DepartedInv(s');
  }

  // ----- whole runs -----

  lemma StepKeeps(s: State, s': State)
    requires Inv(s) && Step(s, s')
    ensures Inv(s')
  {
    if w :| Enqueue(s, s', w) {
      EnqueueKeeps(s, s', w);
    } else if Lead(s, s') {
      LeadKeeps(s, s');
    } else if LeaveWithoutRoom(s, s') || LeaveWithoutBatch(s, s') {
      LeaveAloneKeeps(s, s');
    } else if n :| Begin(s, s', n) {
      BeginKeeps(s, s', n);
    } else if ok :| AddRecord(s, s', ok) {
      AddRecordKeeps(s, s', ok);
    } else if ok :| Sync(s, s', ok) {
      SyncKeeps(s, s', ok);
    } else if Insert(s, s') {
      InsertKeeps(s, s');
    } else {
      CommitKeeps(s, s');
    }
  }

  ghost predicate Run(states: seq<State>) {
    && states != [] && Init(states[0])
    && (forall i, j :: 0 <= i < j < |states| && j == i + 1 ==> Step(states[i], states[j]))
  }

  lemma {:induction false} RunKeeps(states: seq<State>, n: nat)
    requires Run(states) && n < |states|
    ensures Inv(states[n])
    decreases n
  {
    if n > 0 {
      RunKeeps(states, n - 1);
      assert Step(states[n - 1], states[n]);
      StepKeeps(states[n - 1], states[n]);
    }
  }

  /** Departures are only added, and what is applied later has later numbers. */
  lemma {:induction false} DeparturesGrow(states: seq<State>, m: nat, n: nat)
    requires Run(states) && m <= n < |states|
    ensures states[m].departed <= states[n].departed && states[m].arrived <= states[n].arrived
    decreases n
  {
    if m < n {
      DeparturesGrow(states, m, n - 1);
      assert Step(states[n - 1], states[n]);
    }
  }

  /**
   Every writer leaves the queue once, with one status, in order of arrival:
   the writers that left and the queue make up the arrivals, all different.
   */
  lemma EveryWriterLeavesOnce(states: seq<State>, n: nat)
    requires Run(states) && n < |states|
    ensures Writers(states[n].departed) + states[n].queue == states[n].arrived
    ensures forall i, j :: 0 <= i < j < |states[n].departed| ==> states[n].departed[i].writer.id != states[n].departed[j].writer.id
    ensures forall i :: 0 <= i < |states[n].departed| ==> states[n].departed[i].writer.id !in states[n].waiting
  {
    RunKeeps(states, n);
    var s := states[n];
    assert forall i :: 0 <= i < |s.departed| ==> s.arrived[i] == s.departed[i].writer;
    assert forall i :: 0 <= i < |s.queue| ==> s.arrived[|s.departed| + i] == s.queue[i];
  }

  /** The batches written have consecutive, disjoint ranges of numbers in queue order. */
  lemma RangesAreConsecutive(states: seq<State>, n: nat, i: nat, j: nat)
    requires Run(states) && n < |states| && i < j < |states[n].departed|
    requires states[n].departed[i].numbered && states[n].departed[j].numbered
    ensures var a, b := states[n].departed[i], states[n].departed[j];
      && a.first + |a.writer.Ops()| <= b.first
      && b.first + |b.writer.Ops()| <= states[n].lastSequence + 1
      && (j == i + 1 ==> b.first == a.first + |a.writer.Ops()|)
  {
    RunKeeps(states, n);
    var ds := states[n].departed;
    ConsecutiveAt(ds, i);
    ConsecutiveAt(ds, j);
    TakenStep(ds, i);
    TakenStep(ds, j);
    TakenGrows(ds, i + 1, j);
    TakenGrows(ds, j + 1, |ds|);
    assert ds[..|ds|] == ds;
  }

  lemma TakenStep(ds: seq<Departure>, i: nat)
    requires i < |ds|
    ensures Taken(ds[..i + 1]) == Taken(ds[..i]) + if ds[i].numbered then |ds[i].writer.Ops()| else 0
  {
    assert ds[..i + 1][..i] == ds[..i];
  }

  lemma {:induction false} TakenGrows(ds: seq<Departure>, i: nat, j: nat)
    requires i <= j <= |ds|
    ensures Taken(ds[..i]) <= Taken(ds[..j])
    decreases j
  {
    if i < j {
      TakenGrows(ds, i, j - 1);
      TakenStep(ds, j - 1);
    }
  }

  /**
   A sync write reported as successful is in the log as it was when last synced: from
   the moment its writer leaves, whatever happens later.
   */
  lemma SyncWritesAreSynced(states: seq<State>, n: nat, i: nat)
    requires Run(states) && n < |states| && i < |states[n].departed|
    ensures var d := states[n].departed[i];
      d.ok && d.writer.sync && d.writer.batch.Some? ==>
        Numbered(d.first, d.writer.Ops(), |d.writer.Ops()|) <= states[n].durable
  {
    RunKeeps(states, n);
    assert Kept(states[n].departed[i], states[n].durable);
  }

  /** Nothing becomes durable but by a sync of the log that succeeds. */
  lemma OnlySyncMakesDurable(s: State, s': State)
    requires Inv(s) && Step(s, s')
    ensures s.durable <= s'.durable <= s'.logged
    ensures s'.durable != s.durable ==> Sync(s, s', true)
  {
    StepKeeps(s, s');
  }

  lemma CommittedStepAt(ds: seq<Departure>, k: nat, e: Entry)
    requires k < |ds|
    ensures e in Committed(ds[..k + 1]) <==> e in Committed(ds[..k]) || e in EntriesOf(ds[k])
  {
    assert ds[..k + 1] == ds[..k] + [ds[k]];
    CommittedSnoc(ds[..k], ds[k]);
  }

  lemma EntryBounds(ds: seq<Departure>, k: nat, e: Entry)
    requires Consecutive(ds, 0) && k < |ds|
    ensures e in EntriesOf(ds[k]) ==> Taken(ds[..k]) < e.key.sequence <= Taken(ds[..k + 1])
  {
    ConsecutiveAt(ds, k);
    TakenStep(ds, k);
    EntryNumber(ds[k], e);
  }

  lemma EntryNumber(d: Departure, e: Entry)
    ensures e in EntriesOf(d) ==> d.numbered && d.first <= e.key.sequence < d.first + |d.writer.Ops()|
  {
  }

  lemma {:induction false} CommittedBelow(ds: seq<Departure>, k: nat, e: Entry)
    requires Consecutive(ds, 0) && k <= |ds| && e in Committed(ds[..k])
    ensures e.key.sequence <= Taken(ds[..k])
  {
    if k > 0 {
      CommittedStepAt(ds, k - 1, e);
      EntryBounds(ds, k - 1, e);
      TakenStep(ds, k - 1);
      if e in Committed(ds[..k - 1]) { CommittedBelow(ds, k - 1, e); }
    }
  }

  lemma LaterIsAbove(ds: seq<Departure>, m: nat, k: nat, e: Entry)
    requires Consecutive(ds, 0) && m <= k < |ds|
    ensures e in Committed(ds[..k + 1]) && e.key.sequence <= Taken(ds[..m]) <==> e in Committed(ds[..k]) && e.key.sequence <= Taken(ds[..m])
  {
    CommittedStepAt(ds, k, e);
    EntryBounds(ds, k, e);
    TakenGrows(ds, m, k);
  }

  /** Numbers tell which batches were committed by the time `m` writers had left. */
  lemma {:induction false} CommittedByNumber(ds: seq<Departure>, m: nat, k: nat, e: Entry)
    requires Consecutive(ds, 0) && m <= k <= |ds|
    ensures e in Committed(ds[..k]) && e.key.sequence <= Taken(ds[..m]) <==> e in Committed(ds[..m])
    decreases k
  {
    if m == k {
      if e in Committed(ds[..m]) { CommittedBelow(ds, m, e); }
    } else {
      CommittedByNumber(ds, m, k - 1, e);
      LaterIsAbove(ds, m, k - 1, e);
    }
  }

  /** What a read at LastSequence may see, then and later: the batches reported as written, each of them whole, and nothing else. */
  lemma ReadsSeeWholeBatches(states: seq<State>, m: nat, n: nat, e: Entry)
    requires Run(states) && m <= n < |states|
    ensures e in states[n].applied && e.key.sequence <= states[m].lastSequence <==> e in Committed(states[m].departed)
  {
    RunKeeps(states, m);
    RunKeeps(states, n);
    DeparturesGrow(states, m, n);
    var s, s' := states[m], states[n];
    var k, ds := |s.departed|, s'.departed;
    assert ds[..k] == s.departed && ds[..|ds|] == ds;
    CommittedByNumber(ds, k, |ds|, e);
    TakenGrows(ds, k, |ds|);
    InProgressAbove(s'.phase, s'.lastSequence + 1, e);
  }

  lemma InProgressAbove(phase: Phase, first: nat, e: Entry)
    ensures e in InProgress(phase, first) ==> e.key.sequence >= first
  {
  }
}
