/**
 The thread pool leaves no work behind that a sleeping thread could run: what
 each region takes, what is due, and the threads that are on their way to it.
 */
module ThreadPoolProgress {
  import opened Options
  import opened Counting
  import opened ThreadPool
  import opened ThreadPoolRuns
  import opened ThreadPoolProofs

  // What a worker takes

  /** The work in the main queue that is not slow, in order. */
  function Items(q: seq<Entry>): seq<Work> {
    if q == [] then []
    else Items(q[..|q| - 1]) + if q[|q| - 1] == Marker then [] else [q[|q| - 1].work]
  }

  lemma ItemsAppend(q: seq<Entry>, e: Entry)
    ensures Items(q + [e]) == Items(q) + if e == Marker then [] else [e.work]
  {
    assert (q + [e])[..|q|] == q;
  }

  lemma {:induction false} ItemsTail(q: seq<Entry>)
    requires q != []
    ensures Items(q) == (if q[0] == Marker then [] else [q[0].work]) + Items(q[1..])
  {
    var n := |q| - 1;
    if n > 0 {
      ItemsTail(q[..n]);
      assert q[..n][1..] == q[1..][..n - 1];
    }
  }

  /**
   A worker takes the oldest slow work if the marker is in front, there is slow
   work and fewer than (nthreads + 1) / 2 threads run such work; otherwise the
   oldest of the other work; and it waits only if there is none and the slow
   work, if any, has its (nthreads + 1) / 2 threads.
   */
  ghost predicate TakesWhatIsDue(p: Pool, t: Taken, nthreads: nat) {
    match t
    case Wait(q) =>
      && Items(p.wq) == Items(q.wq) == [] && q.slow == p.slow && q.slowRunning == p.slowRunning
      && (p.slow != [] ==> p.slowRunning >= (nthreads + 1) / 2)
    case Got(q, w, isSlow, signal) =>
      if isSlow then
        && p.wq != [] && p.wq[0] == Marker && p.slowRunning < (nthreads + 1) / 2
        && p.slow != [] && w == p.slow[0] && q.slow == p.slow[1..] && Items(q.wq) == Items(p.wq) && q.slowRunning == p.slowRunning + 1
        && (signal <==> q.slow != []) && (Marker in q.wq <==> q.slow != [])
      else
        && p.wq != [] && (p.wq[0] == Marker && p.slow != [] ==> p.slowRunning >= (nthreads + 1) / 2)
        && Items(p.wq) != [] && w == Items(p.wq)[0] && Items(q.wq) == Items(p.wq)[1..] && q.slow == p.slow && q.slowRunning == p.slowRunning
        && !signal && (Marker in q.wq ==> Marker in p.wq)
  }

  lemma {:induction false} TakeIsDue(p: Pool, nthreads: nat)
    requires QueuesInv(p)
    ensures TakesWhatIsDue(p, Take(p, nthreads), nthreads)
    decreases |p.wq|, p.wq != [] && p.wq[0] == Marker
  {
    if NothingToDo(p, nthreads) {
      WaitIsDue(p, nthreads);
    } else if p.wq[0] != Marker {
      ItemIsDue(p, nthreads);
    } else if p.slowRunning < Threshold(nthreads) && p.slow != [] {
      SlowIsDue(p, nthreads);
    } else {
      var q := AfterMarker(p, nthreads);
      AfterMarkerQueues(p, nthreads);
      AfterMarkerTakes(p, nthreads);
      TakeIsDue(q, nthreads);
      DueAfterMarker(p, q, Take(q, nthreads), nthreads);
    }
  }

  /** The queues that the loop goes on with when nothing can be done for the marker. */
  function AfterMarker(p: Pool, nthreads: nat): Pool
    requires p.wq != []
  {
    p.(wq := if p.slowRunning >= Threshold(nthreads) then p.wq[1..] + [Marker] else p.wq[1..])
  }

  lemma AfterMarkerQueues(p: Pool, nthreads: nat)
    requires QueuesInv(p) && !NothingToDo(p, nthreads) && p.wq[0] == Marker
    requires p.slow == [] || p.slowRunning >= Threshold(nthreads)
    ensures var q := AfterMarker(p, nthreads);
      QueuesInv(q) && Items(q.wq) == Items(p.wq)
  {
    MarkerTurns(p.wq);
  }

  lemma AfterMarkerTakes(p: Pool, nthreads: nat)
    requires OneMarker(p.wq) && !NothingToDo(p, nthreads) && p.wq[0] == Marker
    requires p.slow == [] || p.slowRunning >= Threshold(nthreads)
    requires OneMarker(AfterMarker(p, nthreads).wq)
    ensures var q := AfterMarker(p, nthreads);
      && Take(p, nthreads) == Take(q, nthreads)
      && |q.wq| <= |p.wq| && (|q.wq| == |p.wq| ==> q.wq[0] != Marker)
  {
    if p.slowRunning >= Threshold(nthreads) { RequeueTurns(p.wq); }
  }

  /** A marker for which nothing can be done does not count. */
  lemma DueAfterMarker(p: Pool, q: Pool, t: Taken, nthreads: nat)
    requires TakesWhatIsDue(q, t, nthreads) && Items(p.wq) == Items(q.wq) && p.slow == q.slow && p.slowRunning == q.slowRunning
    requires p.wq != [] && p.wq[0] == Marker && (p.slow == [] || p.slowRunning >= Threshold(nthreads))
    ensures TakesWhatIsDue(p, t, nthreads)
  {
  }

  /** The marker taken from the front, and put back at the end. */
  lemma MarkerTurns(wq: seq<Entry>)
    requires OneMarker(wq) && wq != [] && wq[0] == Marker
    ensures Items(wq[1..]) == Items(wq[1..] + [Marker]) == Items(wq)
    ensures OneMarker(wq[1..]) && Marker !in wq[1..]
    ensures OneMarker(wq[1..] + [Marker]) && Marker in wq[1..] + [Marker]
  {
    ItemsTail(wq);
    MarkerLeft(wq);
    ItemsAppend(wq[1..], Marker);
  }

  lemma WaitIsDue(p: Pool, nthreads: nat)
    requires QueuesInv(p) && NothingToDo(p, nthreads)
    ensures TakesWhatIsDue(p, Wait(p), nthreads)
  {
    if p.wq != [] { MarkerTurns(p.wq); }
  }

  lemma ItemIsDue(p: Pool, nthreads: nat)
    requires QueuesInv(p) && p.wq != [] && p.wq[0] != Marker
    ensures TakesWhatIsDue(p, Take(p, nthreads), nthreads)
  {
    MarkerLeft(p.wq);
    ItemsTail(p.wq);
  }

  lemma SlowIsDue(p: Pool, nthreads: nat)
    requires QueuesInv(p) && p.wq != [] && p.wq[0] == Marker && p.slowRunning < Threshold(nthreads) && p.slow != []
    ensures TakesWhatIsDue(p, Take(p, nthreads), nthreads)
  {
    MarkerTurns(p.wq);
  }

  /** New work is queued last, and slow work has its marker. */
  lemma PostQueues(p: Pool, w: Work, isSlow: bool)
    requires QueuesInv(p)
    ensures var (q, signal) := Post(p, w, isSlow);
      && q.slowRunning == p.slowRunning
      && (isSlow ==> q.slow == p.slow + [w] && Items(q.wq) == Items(p.wq) && Marker in q.wq && signal == (Marker !in p.wq))
      && (!isSlow ==> q.slow == p.slow && Items(q.wq) == Items(p.wq) + [w] && (Marker in q.wq <==> Marker in p.wq) && signal)
  {
    ItemsAppend(p.wq, Marker);
    ItemsAppend(p.wq, Item(w));
    assert (p.wq + [Marker])[|p.wq|] == Marker;
  }

  // What is due, and who comes for it

  /** What the threads could take up now: every item, and slow work if there is room for it. */
  function Due(p: Pool, nthreads: nat): nat {
    |Items(p.wq)| + if Marker in p.wq && p.slowRunning < (nthreads + 1) / 2 then 1 else 0
  }

  /** A thread that will look at the queues before it sleeps. One that ran slow work brings its own place with it. */
  function ReadyWeight(x: Worker): nat {
    if x.Fresh? || x.Woken? || (x.Done? && !x.isSlow) then 1 else 0
  }

  ghost predicate Covered(s: State) {
    SomeAsleep(s.threads) ==> Due(s.pool, |s.threads|) <= Total(s.threads, ReadyWeight)
  }

  lemma PostDue(p: Pool, w: Work, isSlow: bool, nthreads: nat)
    requires QueuesInv(p)
    ensures Due(Post(p, w, isSlow).0, nthreads) <= Due(p, nthreads) + if Post(p, w, isSlow).1 then 1 else 0
  {
    PostQueues(p, w, isSlow);
  }

  lemma TakeDue(p: Pool, nthreads: nat)
    requires QueuesInv(p)
    ensures var t := Take(p, nthreads);
      if t.Wait? then Due(t.pool, nthreads) == 0
      else Due(t.pool, nthreads) + 1 <= Due(p, nthreads) + if t.signal then 1 else 0
  {
    TakeIsDue(p, nthreads);
    TakeTakes(p, nthreads);
  }

  /** A signal makes one more thread ready, if any sleeps. */
  lemma SignalReadies(signal: bool, before: seq<Worker>, after: seq<Worker>)
    requires MaybeSignalled(signal, before, after) && SomeAsleep(after)
    ensures SomeAsleep(before)
    ensures Total(after, ReadyWeight) == Total(before, ReadyWeight) + if signal then 1 else 0
  {
    if signal && SomeAsleep(before) {
      var t :| 0 <= t < |before| && before[t] == Asleep && after == before[t := Woken];
      TotalUpdate(before, t, Woken, ReadyWeight);
    }
  }

  lemma SubmitCovers(s: State, s': State, w: Work, isSlow: bool)
    requires Inv(s) && Covered(s) && Submit(s, s', w, isSlow)
    ensures Covered(s')
  {
    if SomeAsleep(s'.threads) {
      var (_, signal) := Post(s.pool, w, isSlow);
      SignalReadies(signal && s.idle > 0, s.threads, s'.threads);
      SleepersAreIdle(s);
      PostDue(s.pool, w, isSlow, |s.threads|);
    }
  }

  lemma SleepersAreIdle(s: State)
    requires CountersInv(s) && SomeAsleep(s.threads)
    ensures s.idle > 0
  {
    var t :| 0 <= t < |s.threads| && s.threads[t] == Asleep;
    TotalAtLeast(s.threads, t, IdleWeight);
  }

  lemma EnterCovers(s: State, s': State, t: nat)
    requires Inv(s) && Inv(s') && Covered(s) && Enter(s, s', t)
    ensures Covered(s')
  {
    var (pool, idle) := Entered(s.threads[t], s.pool, s.idle);
    TakeDue(pool, |s.threads|);
    match Take(pool, |s.threads|)
    case Wait(_) =>
    case Got(_, w, isSlow, signal) =>
      if SomeAsleep(s'.threads) {
        var x := Running(w, isSlow);
        SleepersAreIdle(s');
        TotalUpdate(s.threads, t, x, ReadyWeight);
        SignalReadies(signal && idle > 0, s.threads[t := x], s'.threads);
        var u :| 0 <= u < |s.threads| && s.threads[t := x][u] == Asleep;
        assert s.threads[u] == Asleep;
      }
  }

  lemma {:induction false} ItemsWithout(q: seq<Entry>, i: nat)
    requires i < |q|
    ensures |Items(Without(q, i))| <= |Items(q)|
    ensures Marker in Without(q, i) ==> Marker in q
  {
    var n := |q| - 1;
    if i < n {
      ItemsWithout(q[..n], i);
      assert Without(q, i) == Without(q[..n], i) + [q[n]];
      ItemsAppend(Without(q[..n], i), q[n]);
    } else {
      assert Without(q, i) == q[..n];
    }
  }

  lemma CancelCovers(s: State, s': State, w: Work)
    requires Covered(s) && Cancel(s, s', w)
    ensures Covered(s')
  {
    if s' != s {
      var mid :| Unlinked(s, mid, w) && s' == mid.(hand := Some(w), work := s.work[w := Cancelled]);
      var queue, i :| UnlinkedAt(s, mid, w, queue, i);
      if queue == MainQueue { ItemsWithout(s.pool.wq, i); }
    }
  }

  lemma ThreadCovers(s: State, s': State, t: nat)
    requires Covered(s) && (WakeUp(s, s', t) || Finish(s, s', t))
    ensures Covered(s')
  {
    TotalUpdate(s.threads, t, s'.threads[t], ReadyWeight);
    if SomeAsleep(s'.threads) {
      var u :| 0 <= u < |s.threads| && s'.threads[u] == Asleep;
      assert s.threads[u] == Asleep;
    }
  }

  lemma StepCovers(s: State, s': State)
    requires Inv(s) && Covered(s) && Step(s, s')
    ensures Covered(s')
  {
    StepKeeps(s, s');
    if w, isSlow :| Submit(s, s', w, isSlow) {
      SubmitCovers(s, s', w, isSlow);
    } else if t :| WakeUp(s, s', t) || Finish(s, s', t) {
      ThreadCovers(s, s', t);
    } else if t :| Enter(s, s', t) {
      EnterCovers(s, s', t);
    } else if w :| Cancel(s, s', w) {
      CancelCovers(s, s', w);
    }
  }

  // Whole runs

  /** While any thread sleeps, whatever could be taken up has a thread on its way to it. */
  lemma {:induction false} DueIsCovered(states: seq<State>, nthreads: nat, n: nat)
    requires Run(states, nthreads) && n < |states|
    ensures Covered(states[n])
    decreases n
  {
    if n > 0 {
      var s, s' := states[n - 1], states[n];
      DueIsCovered(states, nthreads, n - 1);
      RunKeeps(states, nthreads, n - 1);
      assert Step(s, s');
      StepCovers(s, s');
    }
  }

  /** Every thread sleeps or runs a callback. */
  ghost predicate Settled(threads: seq<Worker>) {
    forall t :: 0 <= t < |threads| ==> threads[t].Asleep? || threads[t].Running?
  }

  lemma {:induction false} SettledIsNotReady(threads: seq<Worker>)
    requires Settled(threads)
    ensures Total(threads, ReadyWeight) == 0
  {
    if threads != [] { SettledIsNotReady(threads[..|threads| - 1]); }
  }

  lemma RunsSlowWork(s: State, t: nat)
    requires AllWorkInv(s) && t < |s.threads| && s.threads[t].Running? && s.threads[t].isSlow
    ensures s.threads[t].work in s.slowWorks
  {
    var w := s.threads[t].work;
    assert WorkInvAt(s, w);
    TotalAtLeast(s.threads, t, Runs(w, true));
  }

  lemma {:induction false} SlowThreadsAreAll(s: State, n: nat)
    requires n <= |s.threads| && AllWorkInv(s) && Settled(s.threads)
    ensures |SlowThreads(s, n)| >= Total(s.threads[..n], SlowWeight)
  {
    if n > 0 {
      var t := n - 1;
      SlowThreadsAreAll(s, t);
      assert s.threads[..n][..t] == s.threads[..t];
      var before := SlowThreads(s, t);
      if s.threads[t].Running? && s.threads[t].isSlow { RunsSlowWork(s, t); }
      assert SlowThreads(s, n) == if t in SlowThreads(s, n) then before + {t} else before;
    }
  }

  /**
   When every thread sleeps or runs a callback and some thread sleeps, the main
   queue holds no other work, and pending slow work means that exactly
   (nthreads + 1) / 2 threads are running slow work.
   */
  lemma NoThreadSleepsInVain(states: seq<State>, nthreads: nat, n: nat)
    requires Run(states, nthreads) && n < |states| && Settled(states[n].threads) && SomeAsleep(states[n].threads)
    ensures |states[n].threads| == nthreads && Items(states[n].pool.wq) == []
    ensures states[n].pool.slow != [] ==> |SlowThreads(states[n], nthreads)| == (nthreads + 1) / 2
  {
    var s := states[n];
    RunKeeps(states, nthreads, n);
    DueIsCovered(states, nthreads, n);
    SettledIsNotReady(s.threads);
    SlowThreadsAreAll(s, nthreads);
    SlowWorkIsBounded(states, nthreads, n);
    assert s.threads[..nthreads] == s.threads;
  }

  /** Without a sleeping thread slow work may wait although none is running: other work holds every thread. */
  lemma OtherWorkHoldsEveryThread() returns (states: seq<State>)
    ensures Run(states, 1) && |states| == 4 && |states[3].threads| == 1 && Settled(states[3].threads)
    ensures states[3].pool.slow != [] && Marker in states[3].pool.wq && |SlowThreads(states[3], 1)| == 0 < (1 + 1) / 2
  {
    var s0 := State([Fresh], Pool([], [], 0), 0, map[], {}, [], [], None, [], []);
    var s1 := s0.(pool := Pool([Item(0)], [], 0), work := map[0 := Callback]);
    var s2 := s1.(pool := Pool([], [], 0), threads := [Running(0, false)], started := [0]);
    var s3 := s2.(pool := Pool([Marker], [1], 0), work := map[0 := Callback, 1 := Callback], slowWorks := {1});
    states := [s0, s1, s2, s3];
    assert s0.threads == seq(1, i => Fresh);
    assert Submit(s0, s1, 0, false);
    assert Enter(s1, s2, 0) by {
      assert s1.threads[0 := Running(0, false)] == s2.threads;
      assert Take(s1.pool, 1) == Got(Pool([], [], 0), 0, false, false);
    }
    assert Submit(s2, s3, 1, true);
    assert SlowThreads(s3, 1) == {};
  }
}
