/** Every step of the thread pool keeps its invariant. */
module ThreadPoolProofs {
  import opened Options
  import opened Counting
  import opened ThreadPool
  import opened ThreadPoolRuns

  /** The threads differ only in who sleeps and who has been woken. */
  ghost predicate OnlyWoken(before: seq<Worker>, after: seq<Worker>) {
    && |after| == |before|
    && Total(after, IdleWeight) == Total(before, IdleWeight)
    && Total(after, SlowWeight) == Total(before, SlowWeight)
    && (forall w, isSlow :: Total(after, Runs(w, isSlow)) == Total(before, Runs(w, isSlow)))
  }

  lemma WokenKeeps(before: seq<Worker>, t: nat)
    requires t < |before| && before[t] == Asleep
    ensures OnlyWoken(before, before[t := Woken])
  {
    TotalUpdate(before, t, Woken, IdleWeight);
    TotalUpdate(before, t, Woken, SlowWeight);
    forall w, isSlow ensures Total(before[t := Woken], Runs(w, isSlow)) == Total(before, Runs(w, isSlow)) {
      TotalUpdate(before, t, Woken, Runs(w, isSlow));
    }
  }

  lemma SignalKeeps(signal: bool, before: seq<Worker>, after: seq<Worker>)
    requires MaybeSignalled(signal, before, after)
    ensures OnlyWoken(before, after)
    ensures SomeAwake(before) || (signal && before != []) ==> SomeAwake(after)
  {
    if signal && SomeAsleep(before) {
      var t :| 0 <= t < |before| && before[t] == Asleep && after == before[t := Woken];
      WokenKeeps(before, t);
      assert after[t] != Asleep;
    } else if before != [] {
      assert signal ==> before[0] != Asleep;
    }
  }

  /** Nobody idle means that nobody sleeps. */
  lemma {:induction false} NoIdleNoneAsleep(threads: seq<Worker>, t: nat)
    requires Total(threads, IdleWeight) == 0 && t < |threads|
    ensures threads[t] != Asleep
  {
    var n := |threads| - 1;
    if t < n { NoIdleNoneAsleep(threads[..n], t); }
  }

  ghost predicate SameItems(q: seq<Entry>, r: seq<Entry>) {
    forall w: Work :: CountIn(q, Item(w)) == CountIn(r, Item(w))
  }

  /** `r` holds `x` once more than `q`, and otherwise the same. */
  ghost predicate OneItemMore(q: seq<Entry>, r: seq<Entry>, x: Work) {
    forall w: Work :: CountIn(r, Item(w)) == CountIn(q, Item(w)) + if w == x then 1 else 0
  }

  /** What the mutex-held part of worker() does to the queues. */
  ghost predicate TakesFrom(p: Pool, t: Taken, nthreads: nat) {
    && QueuesInv(t.pool)
    && match t
       case Wait(q) =>
         && SameItems(p.wq, q.wq) && q.slow == p.slow && q.slowRunning == p.slowRunning
         && NothingToDo(q, nthreads)
       case Got(q, w, isSlow, _) =>
         if isSlow then
           && SameItems(p.wq, q.wq) && p.slow != [] && w == p.slow[0] && q.slow == p.slow[1..]
           && q.slowRunning == p.slowRunning + 1 <= Threshold(nthreads)
         else
           && OneItemMore(q.wq, p.wq, w) && q.slow == p.slow && q.slowRunning == p.slowRunning
  }

  lemma ItemsHead(wq: seq<Entry>)
    requires wq != []
    ensures if wq[0] == Marker then SameItems(wq, wq[1..]) && SameItems(wq, wq[1..] + [Marker]) else OneItemMore(wq[1..], wq, wq[0].work)
  {
    forall w: Work
      ensures CountIn(wq, Item(w)) == CountIn(wq[1..], Item(w)) + if wq[0] == Item(w) then 1 else 0
      ensures CountIn(wq[1..] + [Marker], Item(w)) == CountIn(wq[1..], Item(w))
    {
      CountTail(wq, Item(w));
      CountAppend(wq[1..], Marker, Item(w));
    }
  }

  lemma MarkerLeft(wq: seq<Entry>)
    requires OneMarker(wq) && wq != []
    ensures OneMarker(wq[1..])
    ensures wq[0] == Marker ==> Marker !in wq[1..] && OneMarker(wq[1..] + [Marker]) && Marker in wq[1..] + [Marker]
    ensures wq[0] != Marker ==> (Marker in wq <==> Marker in wq[1..])
  {
    var rest := wq[1..];
    if wq[0] == Marker {
      forall i | 0 <= i < |rest| ensures rest[i] != Marker { assert rest[i] == wq[i + 1]; }
      assert (rest + [Marker])[|rest|] == Marker;
    } else if Marker in wq {
      var i :| 0 <= i < |wq| && wq[i] == Marker;
      assert rest[i - 1] == Marker;
    }
  }

  lemma TakeItem(p: Pool, nthreads: nat)
    requires QueuesInv(p) && p.wq != [] && p.wq[0] != Marker
    ensures TakesFrom(p, Take(p, nthreads), nthreads)
  {
    ItemsHead(p.wq);
    MarkerLeft(p.wq);
  }

  lemma TakeSlow(p: Pool, nthreads: nat)
    requires QueuesInv(p) && p.wq != [] && p.wq[0] == Marker && p.slowRunning < Threshold(nthreads) && p.slow != []
    ensures TakesFrom(p, Take(p, nthreads), nthreads)
  {
    ItemsHead(p.wq);
    MarkerLeft(p.wq);
  }

  lemma TakesFromSame(p: Pool, q: Pool, t: Taken, nthreads: nat)
    requires TakesFrom(q, t, nthreads) && SameItems(p.wq, q.wq) && p.slow == q.slow && p.slowRunning == q.slowRunning
    ensures TakesFrom(p, t, nthreads)
  {
  }

  lemma {:induction false} TakeTakes(p: Pool, nthreads: nat)
    requires QueuesInv(p)
    ensures TakesFrom(p, Take(p, nthreads), nthreads)
    decreases |p.wq|, p.wq != [] && p.wq[0] == Marker
  {
    if !NothingToDo(p, nthreads) {
      if p.wq[0] != Marker {
        TakeItem(p, nthreads);
      } else if p.slowRunning >= Threshold(nthreads) {
        var turned := p.(wq := p.wq[1..] + [Marker]);
        RequeueTurns(p.wq);
        ItemsHead(p.wq);
        MarkerLeft(p.wq);
        TakeTakes(turned, nthreads);
        TakesFromSame(p, turned, Take(turned, nthreads), nthreads);
      } else if p.slow == [] {
        var rest := p.(wq := p.wq[1..]);
        ItemsHead(p.wq);
        MarkerLeft(p.wq);
        TakeTakes(rest, nthreads);
        TakesFromSame(p, rest, Take(rest, nthreads), nthreads);
      } else {
        TakeSlow(p, nthreads);
      }
    }
  }

  /** What uv__work_submit does to the queues. */
  ghost predicate PostsTo(p: Pool, q: Pool, w: Work, isSlow: bool) {
    && QueuesInv(q) && q.slowRunning == p.slowRunning
    && (if isSlow then SameItems(p.wq, q.wq) && q.slow == p.slow + [w]
        else OneItemMore(p.wq, q.wq, w) && q.slow == p.slow)
  }

  lemma PostPosts(p: Pool, w: Work, isSlow: bool)
    requires QueuesInv(p)
    ensures var (q, signal) := Post(p, w, isSlow); PostsTo(p, q, w, isSlow) && (!signal ==> p.wq != [])
  {
    var q := Post(p, w, isSlow).0;
    forall v: Work ensures CountIn(p.wq + [Marker], Item(v)) == CountIn(p.wq, Item(v)) {
      CountAppend(p.wq, Marker, Item(v));
    }
    forall v: Work ensures CountIn(p.wq + [Item(w)], Item(v)) == CountIn(p.wq, Item(v)) + if v == w then 1 else 0 {
      CountAppend(p.wq, Item(w), Item(v));
    }
    if |q.wq| > |p.wq| {
      assert q.wq[..|p.wq|] == p.wq;
      if Marker in p.wq {
        var i :| 0 <= i < |p.wq| && p.wq[i] == Marker;
        assert q.wq[i] == Marker;
      }
      assert isSlow ==> q.wq[|p.wq|] == Marker;
    }
  }

  // Submit

  lemma SubmitKeeps(s: State, s': State, w: Work, isSlow: bool)
    requires Inv(s) && Submit(s, s', w, isSlow)
    ensures Inv(s')
  {
    SubmitPosts(s, s', w, isSlow);
    SubmitAwake(s, s', w, isSlow);
    assert CountersInv(s');
    forall v ensures WorkInvAt(s', v) {
      assert WorkInvAt(s, v);
      SubmitCounts(s, s', w, isSlow, v);
      SubmitWork(s, s', w, isSlow, v);
    }
  }

  lemma SubmitAwake(s: State, s': State, w: Work, isSlow: bool)
    requires QueuesInv(s.pool) && CountersInv(s) && NobodyStranded(s) && Submit(s, s', w, isSlow)
    ensures NobodyStranded(s')
  {
    PostPosts(s.pool, w, isSlow);
    SignalKeeps(Post(s.pool, w, isSlow).1 && s.idle > 0, s.threads, s'.threads);
    if s.idle == 0 { NoIdleNoneAsleep(s.threads, 0); }
  }

  lemma SubmitPosts(s: State, s': State, w: Work, isSlow: bool)
    requires QueuesInv(s.pool) && Submit(s, s', w, isSlow)
    ensures PostsTo(s.pool, s'.pool, w, isSlow) && OnlyWoken(s.threads, s'.threads)
    ensures s' == s.(threads := s'.threads, pool := s'.pool, work := s'.work, slowWorks := s'.slowWorks)
    ensures NewWork(s, s', w, isSlow)
  {
    PostPosts(s.pool, w, isSlow);
    SignalKeeps(Post(s.pool, w, isSlow).1 && s.idle > 0, s.threads, s'.threads);
  }

  lemma SubmitCounts(s: State, s': State, w: Work, isSlow: bool, v: Work)
    requires PostsTo(s.pool, s'.pool, w, isSlow) && OnlyWoken(s.threads, s'.threads)
    requires s' == s.(threads := s'.threads, pool := s'.pool, work := s'.work, slowWorks := s'.slowWorks)
    ensures Posted(CountsOf(s, v), CountsOf(s', v), v == w, isSlow)
  {
    CountAppend(s.pool.slow, w, v);
    PostedCounts(CountsOf(s, v), CountsOf(s', v), v == w, isSlow);
  }

  /** The new work is in its queue; no other work moves. */
  ghost predicate Posted(c: Counts, d: Counts, it: bool, isSlow: bool) {
    d == if !it then c else if isSlow then c.(slow := c.slow + 1) else c.(queued := c.queued + 1)
  }

  lemma PostedCounts(c: Counts, d: Counts, it: bool, isSlow: bool)
    requires d.(queued := c.queued, slow := c.slow) == c
    requires d.queued == c.queued + (if it && !isSlow then 1 else 0) && d.slow == c.slow + (if it && isSlow then 1 else 0)
    ensures Posted(c, d, it, isSlow)
  {
  }

  ghost predicate NewWork(s: State, s': State, w: Work, isSlow: bool) {
    && w !in s.work && s'.work == s.work[w := Callback]
    && s'.slowWorks == if isSlow then s.slowWorks + {w} else s.slowWorks
  }

  lemma SubmitWork(s: State, s': State, w: Work, isSlow: bool, v: Work)
    requires WorkInvAt(s, v) && NewWork(s, s', w, isSlow) && Posted(CountsOf(s, v), CountsOf(s', v), v == w, isSlow)
    ensures WorkInvAt(s', v)
  {
    if v == w { PostedWork(CountsOf(s, w), CountsOf(s', w), w in s.slowWorks, isSlow); }
  }

  lemma PostedWork(c: Counts, d: Counts, was: bool, isSlow: bool)
    requires WorkInv(c, false, Callback, was) && Posted(c, d, true, isSlow)
    ensures WorkInv(d, true, Callback, isSlow) && !was
  {
  }

  // WakeUp

  lemma WakeUpKeeps(s: State, s': State, t: nat)
    requires Inv(s) && WakeUp(s, s', t)
    ensures Inv(s')
  {
    WokenKeeps(s.threads, t);
    assert s'.threads[t] != Asleep;
    forall v ensures WorkInvAt(s', v) { assert WorkInvAt(s, v); }
  }

  // Enter

  /** A thread without work has entered with these queues and leaves with what it took. */
  ghost predicate Passing(s: State, s': State, t: nat, pool: Pool, idle: nat, taken: Taken) {
    && t < |s.threads| && s.threads[t] != Asleep && !s.threads[t].Running?
    && (pool, idle) == Entered(s.threads[t], s.pool, s.idle)
    && Leave(s, s', t, idle, taken) && TakesFrom(pool, taken, |s.threads|)
  }

  lemma EnterKeeps(s: State, s': State, t: nat)
    requires Inv(s) && Enter(s, s', t)
    ensures Inv(s')
  {
    var (pool, idle) := Entered(s.threads[t], s.pool, s.idle);
    TakeTakes(pool, |s.threads|);
    PassingKeeps(s, s', t, pool, idle, Take(pool, |s.threads|));
  }

  lemma PassingKeeps(s: State, s': State, t: nat, pool: Pool, idle: nat, taken: Taken)
    requires Inv(s) && Passing(s, s', t, pool, idle, taken)
    ensures Inv(s')
  {
    PassingCounters(s, s', t, pool, idle, taken);
    PassingAwake(s, s', t, pool, idle, taken);
    forall v ensures WorkInvAt(s', v) {
      assert WorkInvAt(s, v);
      PassingWork(s, s', t, pool, idle, taken, v);
    }
  }

  lemma PassingWork(s: State, s': State, t: nat, pool: Pool, idle: nat, taken: Taken, v: Work)
    requires WorkInvAt(s, v) && Passing(s, s', t, pool, idle, taken)
    ensures WorkInvAt(s', v)
  {
    if taken.Wait? {
      WaitCounts(s, s', t, pool, idle, taken, v);
    } else {
      GotCounts(s, s', t, pool, idle, taken, v);
      TakenUpWork(CountsOf(s, v), CountsOf(s', v), v in s.work, if v in s.work then s.work[v] else Callback, v in s.slowWorks, taken.work == v, taken.isSlow);
    }
  }

  lemma TakenUpWork(c: Counts, d: Counts, submitted: bool, pointer: Pointer, isSlow: bool, it: bool, takenSlow: bool)
    requires WorkInv(c, submitted, pointer, isSlow) && TakenUp(c, d, it, takenSlow)
    ensures WorkInv(d, submitted, pointer, isSlow)
  {
  }

  lemma PassingCounters(s: State, s': State, t: nat, pool: Pool, idle: nat, taken: Taken)
    requires Inv(s) && Passing(s, s', t, pool, idle, taken)
    ensures CountersInv(s')
  {
    var x := if taken.Wait? then Asleep else Running(taken.work, taken.isSlow);
    TotalUpdate(s.threads, t, x, IdleWeight);
    TotalUpdate(s.threads, t, x, SlowWeight);
    TotalAtLeast(s.threads, t, IdleWeight);
    TotalAtLeast(s.threads, t, SlowWeight);
    if taken.Got? { SignalKeeps(taken.signal && idle > 0, s.threads[t := x], s'.threads); }
  }

  lemma {:induction false} TotalAtLeast(threads: seq<Worker>, t: nat, weight: Worker -> nat)
    requires t < |threads|
    ensures Total(threads, weight) >= weight(threads[t])
  {
    var n := |threads| - 1;
    if t < n { TotalAtLeast(threads[..n], t, weight); }
  }

  /** A thread that goes to sleep on pending slow work leaves threads that run slow work behind. */
  lemma PassingAwake(s: State, s': State, t: nat, pool: Pool, idle: nat, taken: Taken)
    requires Inv(s) && Passing(s, s', t, pool, idle, taken) && CountersInv(s')
    ensures NobodyStranded(s')
  {
    if taken.Got? {
      var threads := s.threads[t := Running(taken.work, taken.isSlow)];
      assert threads[t] != Asleep;
      SignalKeeps(taken.signal && idle > 0, threads, s'.threads);
    } else if s'.pool.wq != [] {
      var u := TotalPositive(s'.threads, SlowWeight);
      assert s'.threads[u] != Asleep;
    }
  }

  /** Replacing a thread that runs nothing. */
  lemma RunsUpdate(threads: seq<Worker>, t: nat, x: Worker, v: Work)
    requires t < |threads| && !threads[t].Running?
    ensures Total(threads[t := x], Runs(v, false)) == Total(threads, Runs(v, false)) + if x == Running(v, false) then 1 else 0
    ensures Total(threads[t := x], Runs(v, true)) == Total(threads, Runs(v, true)) + if x == Running(v, true) then 1 else 0
  {
    TotalUpdate(threads, t, x, Runs(v, false));
    TotalUpdate(threads, t, x, Runs(v, true));
  }

  lemma WaitCounts(s: State, s': State, t: nat, pool: Pool, idle: nat, taken: Taken, v: Work)
    requires Passing(s, s', t, pool, idle, taken) && taken.Wait?
    ensures CountsOf(s', v) == CountsOf(s, v)
  {
    RunsUpdate(s.threads, t, Asleep, v);
  }

  lemma GotThreads(threads: seq<Worker>, t: nat, x: Worker, signal: bool, after: seq<Worker>, v: Work)
    requires t < |threads| && !threads[t].Running? && MaybeSignalled(signal, threads[t := x], after)
    ensures Total(after, Runs(v, false)) == Total(threads, Runs(v, false)) + if x == Running(v, false) then 1 else 0
    ensures Total(after, Runs(v, true)) == Total(threads, Runs(v, true)) + if x == Running(v, true) then 1 else 0
  {
    RunsUpdate(threads, t, x, v);
    SignalKeeps(signal, threads[t := x], after);
  }

  lemma TakenCounts(p: Pool, taken: Taken, nthreads: nat, v: Work)
    requires TakesFrom(p, taken, nthreads) && taken.Got?
    ensures CountIn(p.wq, Item(v)) == CountIn(taken.pool.wq, Item(v)) + if taken.work == v && !taken.isSlow then 1 else 0
    ensures CountIn(p.slow, v) == CountIn(taken.pool.slow, v) + if taken.work == v && taken.isSlow then 1 else 0
  {
    if taken.isSlow { CountTail(p.slow, v); }
  }

  ghost predicate TakenUp(c: Counts, d: Counts, it: bool, isSlow: bool) {
    if !it then d == c
    else if isSlow then c.slow > 0 && d == c.(slow := c.slow - 1, slowRun := c.slowRun + 1, started := c.started + 1)
    else c.queued > 0 && d == c.(queued := c.queued - 1, fastRun := c.fastRun + 1, started := c.started + 1)
  }

  /** The work taken moves from its queue to the thread; no other work moves. */
  lemma GotCounts(s: State, s': State, t: nat, pool: Pool, idle: nat, taken: Taken, v: Work)
    requires Passing(s, s', t, pool, idle, taken) && taken.Got?
    ensures TakenUp(CountsOf(s, v), CountsOf(s', v), taken.work == v, taken.isSlow)
  {
    GotThreads(s.threads, t, Running(taken.work, taken.isSlow), taken.signal && idle > 0, s'.threads, v);
    CountAppend(s.started, taken.work, v);
    TakenCounts(pool, taken, |s.threads|, v);
    MovedCounts(CountsOf(s, v), CountsOf(s', v), taken.work == v, taken.isSlow);
  }

  lemma MovedCounts(c: Counts, d: Counts, it: bool, isSlow: bool)
    requires d.(queued := c.queued, slow := c.slow, fastRun := c.fastRun, slowRun := c.slowRun, started := c.started) == c
    requires c.queued == d.queued + (if it && !isSlow then 1 else 0) && c.slow == d.slow + (if it && isSlow then 1 else 0)
    requires d.fastRun == c.fastRun + (if it && !isSlow then 1 else 0) && d.slowRun == c.slowRun + (if it && isSlow then 1 else 0)
    requires d.started == c.started + if it then 1 else 0
    ensures TakenUp(c, d, it, isSlow)
  {
  }

  // Finish

  lemma FinishKeeps(s: State, s': State, t: nat)
    requires Inv(s) && Finish(s, s', t)
    ensures Inv(s')
  {
    FinishCounters(s, s', t);
    FinishAwake(s, s', t);
    forall v ensures WorkInvAt(s', v) {
      assert WorkInvAt(s, v);
      FinishWork(s, s', t, v);
    }
  }

  lemma FinishCounters(s: State, s': State, t: nat)
    requires CountersInv(s) && Finish(s, s', t)
    ensures CountersInv(s')
  {
    var x := Done(s.threads[t].isSlow);
    TotalUpdate(s.threads, t, x, IdleWeight);
    TotalUpdate(s.threads, t, x, SlowWeight);
  }

  lemma FinishAwake(s: State, s': State, t: nat)
    requires Finish(s, s', t)
    ensures NobodyStranded(s')
  {
    assert s'.threads[t] != Asleep;
  }

  lemma DoneThread(threads: seq<Worker>, t: nat, v: Work, isSlow: bool)
    requires t < |threads| && threads[t].Running?
    ensures var n := if threads[t] == Running(v, isSlow) then 1 else 0;
      Total(threads, Runs(v, isSlow)) >= n && Total(threads[t := Done(threads[t].isSlow)], Runs(v, isSlow)) == Total(threads, Runs(v, isSlow)) - n
  {
    TotalUpdate(threads, t, Done(threads[t].isSlow), Runs(v, isSlow));
    TotalAtLeast(threads, t, Runs(v, isSlow));
  }

  /** The work that a thread has run goes to the loop's queue; no other work moves. */
  ghost predicate Returned(c: Counts, d: Counts, it: bool, isSlow: bool) {
    if !it then d == c
    else if isSlow then c.slowRun > 0 && d == c.(slowRun := c.slowRun - 1, pending := c.pending + 1)
    else c.fastRun > 0 && d == c.(fastRun := c.fastRun - 1, pending := c.pending + 1)
  }

  lemma FinishCounts(s: State, s': State, t: nat, v: Work)
    requires Finish(s, s', t)
    ensures Returned(CountsOf(s, v), CountsOf(s', v), s.threads[t].work == v, s.threads[t].isSlow)
  {
    DoneThread(s.threads, t, v, false);
    DoneThread(s.threads, t, v, true);
    CountAppend(s.pending, s.threads[t].work, v);
    ReturnedCounts(CountsOf(s, v), CountsOf(s', v), s.threads[t].work == v, s.threads[t].isSlow);
  }

  lemma ReturnedCounts(c: Counts, d: Counts, it: bool, isSlow: bool)
    requires d.(fastRun := c.fastRun, slowRun := c.slowRun, pending := c.pending) == c
    requires c.fastRun == d.fastRun + (if it && !isSlow then 1 else 0) && c.slowRun == d.slowRun + (if it && isSlow then 1 else 0)
    requires d.pending == c.pending + if it then 1 else 0
    ensures Returned(c, d, it, isSlow)
  {
  }

  lemma ReturnedWork(c: Counts, d: Counts, submitted: bool, pointer: Pointer, isSlow: bool, ranSlow: bool)
    requires WorkInv(c, submitted, pointer, isSlow) && Returned(c, d, true, ranSlow)
    ensures WorkInv(d, true, Null, isSlow)
  {
  }

  lemma FinishWork(s: State, s': State, t: nat, v: Work)
    requires WorkInvAt(s, v) && Finish(s, s', t)
    ensures WorkInvAt(s', v)
  {
    var w, ranSlow := s.threads[t].work, s.threads[t].isSlow;
    FinishCounts(s, s', t, v);
    if v == w {
      ReturnedWork(CountsOf(s, v), CountsOf(s', v), v in s.work, if v in s.work then s.work[v] else Callback, v in s.slowWorks, ranSlow);
    }
  }

  // Cancel

  lemma CancelKeeps(s: State, s': State, w: Work)
    requires Inv(s) && Cancel(s, s', w)
    ensures Inv(s')
  {
    if s' != s {
      var mid :| Unlinked(s, mid, w) && s' == mid.(hand := Some(w), work := s.work[w := Cancelled]);
      var queue, i :| UnlinkedAt(s, mid, w, queue, i);
      UnlinkedQueues(s, mid, w, queue, i);
      forall v ensures WorkInvAt(s', v) { CancelWork(s, mid, s', w, queue, i, v); }
    }
  }

  lemma CancelWork(s: State, mid: State, s': State, w: Work, queue: Queue, i: nat, v: Work)
    requires Inv(s) && UnlinkedAt(s, mid, w, queue, i) && s.hand == None && w in s.work && s.work[w] != Null && !Executing(s, w)
    requires s' == mid.(hand := Some(w), work := s.work[w := Cancelled])
    ensures WorkInvAt(s', v)
  {
    assert WorkInvAt(s, v);
    UnlinkedCounts(s, mid, w, queue, i, v);
    if v == w {
      NotExecuting(s, w);
      CancelledWork(CountsOf(s, w), CountsOf(mid, w), s.work[w], w in s.slowWorks);
      assert CountsOf(s', w) == CountsOf(mid, w).(hand := 1);
    } else {
      assert CountsOf(s', v) == CountsOf(mid, v);
    }
  }

  lemma CancelledWork(c: Counts, d: Counts, pointer: Pointer, isSlow: bool)
    requires WorkInv(c, true, pointer, isSlow) && pointer != Null
    requires c.fastRun == c.slowRun == c.hand == 0 && OneLess(c, d, true)
    requires c.ran == c.cancelled == 0
    ensures WorkInv(d.(hand := 1), true, Cancelled, isSlow)
  {
  }

  lemma NotExecuting(s: State, w: Work)
    requires !Executing(s, w)
    ensures Total(s.threads, Runs(w, false)) == 0 && Total(s.threads, Runs(w, true)) == 0
  {
    if Total(s.threads, Runs(w, false)) > 0 {
      var t := TotalPositive(s.threads, Runs(w, false));
    }
    if Total(s.threads, Runs(w, true)) > 0 {
      var t := TotalPositive(s.threads, Runs(w, true));
    }
  }

  /** One linked occurrence is gone, and nothing else changed. */
  ghost predicate OneLess(c: Counts, d: Counts, it: bool) {
    if !it then c == d
    else
      || (c.queued > 0 && d == c.(queued := c.queued - 1))
      || (c.slow > 0 && d == c.(slow := c.slow - 1))
      || (c.pending > 0 && d == c.(pending := c.pending - 1))
      || (c.batch > 0 && d == c.(batch := c.batch - 1))
  }

  lemma UnlinkedCounts(s: State, mid: State, w: Work, queue: Queue, i: nat, v: Work)
    requires UnlinkedAt(s, mid, w, queue, i)
    ensures OneLess(CountsOf(s, v), CountsOf(mid, v), v == w)
    ensures mid.hand == s.hand && mid.work == s.work && mid.slowWorks == s.slowWorks
  {
    match queue
    case MainQueue => CountWithout(s.pool.wq, i, Item(v));
    case SlowQueue => CountWithout(s.pool.slow, i, v);
    case LoopQueue => CountWithout(s.pending, i, v);
    case BatchQueue => CountWithout(s.batch, i, v);
  }

  lemma UnlinkedQueues(s: State, mid: State, w: Work, queue: Queue, i: nat)
    requires QueuesInv(s.pool) && NobodyStranded(s) && UnlinkedAt(s, mid, w, queue, i)
    ensures QueuesInv(mid.pool) && NobodyStranded(mid)
    ensures mid.threads == s.threads && mid.idle == s.idle && mid.pool.slowRunning == s.pool.slowRunning
  {
    if queue == MainQueue { MarkerStays(s.pool.wq, i); }
  }

  lemma MarkerStays(wq: seq<Entry>, i: nat)
    requires OneMarker(wq) && i < |wq| && wq[i] != Marker
    ensures OneMarker(Without(wq, i)) && (Marker in wq ==> Marker in Without(wq, i))
  {
    var q := Without(wq, i);
    forall j, k | 0 <= j < k < |q| ensures q[j] != Marker || q[k] != Marker {
      assert q[j] == wq[if j < i then j else j + 1] && q[k] == wq[if k < i then k else k + 1];
    }
    if Marker in wq {
      var j :| 0 <= j < |wq| && wq[j] == Marker;
      assert q[if j < i then j else j - 1] == Marker;
    }
  }

  // Delivery

  lemma SamePoolKeeps(s: State, s': State)
    requires QueuesInv(s.pool) && CountersInv(s) && NobodyStranded(s)
    requires s'.pool == s.pool && s'.threads == s.threads && s'.idle == s.idle
    ensures QueuesInv(s'.pool) && CountersInv(s') && NobodyStranded(s')
  {
  }

  lemma CancellingKeeps(s: State, s': State)
    requires Inv(s) && Cancelling(s, s')
    ensures Inv(s')
  {
    SamePoolKeeps(s, s');
    forall v ensures WorkInvAt(s', v) {
      assert WorkInvAt(s, v);
      CancellingWork(s, s', v);
    }
  }

  lemma CancellingWork(s: State, s': State, v: Work)
    requires WorkInvAt(s, v) && Cancelling(s, s')
    ensures WorkInvAt(s', v)
  {
    CancellingCounts(s, s', v);
    HandedOver(CountsOf(s, v), CountsOf(s', v), v in s.work, if v in s.work then s.work[v] else Callback, v in s.slowWorks);
  }

  lemma CancellingCounts(s: State, s': State, v: Work)
    requires Cancelling(s, s')
    ensures var c := CountsOf(s, v);
      CountsOf(s', v) == if c.hand > 0 then c.(hand := c.hand - 1, pending := c.pending + 1) else c
  {
    CountAppend(s.pending, s.hand.value, v);
  }

  lemma HandedOver(c: Counts, d: Counts, submitted: bool, pointer: Pointer, isSlow: bool)
    requires WorkInv(c, submitted, pointer, isSlow)
    requires d == if c.hand > 0 then c.(hand := c.hand - 1, pending := c.pending + 1) else c
    ensures WorkInv(d, submitted, pointer, isSlow)
  {
  }

  lemma TakeBatchKeeps(s: State, s': State)
    requires Inv(s) && TakeBatch(s, s')
    ensures Inv(s')
  {
    SamePoolKeeps(s, s');
    forall v ensures WorkInvAt(s', v) {
      assert WorkInvAt(s, v);
      TakeBatchWork(s, s', v);
    }
  }

  lemma TakeBatchWork(s: State, s': State, v: Work)
    requires WorkInvAt(s, v) && TakeBatch(s, s')
    ensures WorkInvAt(s', v)
  {
    assert CountsOf(s', v) == CountsOf(s, v).(batch := CountsOf(s, v).pending, pending := 0);
    BatchedWork(CountsOf(s, v), CountsOf(s', v), v in s.work, if v in s.work then s.work[v] else Callback, v in s.slowWorks);
  }

  lemma BatchedWork(c: Counts, d: Counts, submitted: bool, pointer: Pointer, isSlow: bool)
    requires WorkInv(c, submitted, pointer, isSlow) && c.batch == 0 && d == c.(batch := c.pending, pending := 0)
    ensures WorkInv(d, submitted, pointer, isSlow)
  {
  }

  lemma DeliverKeeps(s: State, s': State)
    requires Inv(s) && Deliver(s, s')
    ensures Inv(s')
  {
    SamePoolKeeps(s, s');
    forall v ensures WorkInvAt(s', v) {
      assert WorkInvAt(s, v);
      DeliverWork(s, s', v);
    }
  }

  lemma DeliverWork(s: State, s': State, v: Work)
    requires WorkInvAt(s, v) && Deliver(s, s')
    ensures WorkInvAt(s', v)
  {
    DeliverCounts(s, s', v);
    DeliveredWork(CountsOf(s, v), CountsOf(s', v), v in s.work, if v in s.work then s.work[v] else Callback, v in s.slowWorks, v == s.batch[0]);
  }

  /** One piece of work leaves the batch and is delivered, as cancelled if its pointer says so. */
  ghost predicate HandedBack(c: Counts, d: Counts, pointer: Pointer, it: bool) {
    if !it then d == c
    else c.batch > 0 && if pointer == Cancelled then d == c.(batch := c.batch - 1, cancelled := c.cancelled + 1)
                        else d == c.(batch := c.batch - 1, ran := c.ran + 1)
  }

  lemma DeliverCounts(s: State, s': State, v: Work)
    requires Deliver(s, s')
    ensures HandedBack(CountsOf(s, v), CountsOf(s', v), if v in s.work then s.work[v] else Callback, v == s.batch[0])
  {
    var d := s'.delivered[|s.delivered|];
    CountTail(s.batch, v);
    CountAppend(s.delivered, d, Delivery(v, false));
    CountAppend(s.delivered, d, Delivery(v, true));
  }

  lemma DeliveredWork(c: Counts, d: Counts, submitted: bool, pointer: Pointer, isSlow: bool, it: bool)
    requires WorkInv(c, submitted, pointer, isSlow) && HandedBack(c, d, pointer, it)
    ensures WorkInv(d, submitted, pointer, isSlow)
  {
  }

  // Whole runs

  lemma StepKeeps(s: State, s': State)
    requires Inv(s) && Step(s, s')
    ensures Inv(s')
  {
    if w, isSlow :| Submit(s, s', w, isSlow) {
      SubmitKeeps(s, s', w, isSlow);
    } else if t :| WakeUp(s, s', t) {
      WakeUpKeeps(s, s', t);
    } else if t :| Enter(s, s', t) {
      EnterKeeps(s, s', t);
    } else if t :| Finish(s, s', t) {
      FinishKeeps(s, s', t);
    } else if w :| Cancel(s, s', w) {
      CancelKeeps(s, s', w);
    } else if Cancelling(s, s') {
      CancellingKeeps(s, s');
    } else if TakeBatch(s, s') {
      TakeBatchKeeps(s, s');
    } else {
      DeliverKeeps(s, s');
    }
  }

  ghost predicate Run(states: seq<State>, nthreads: nat) {
    && states != [] && Init(states[0], nthreads)
    && (forall i, j :: 0 <= i < j < |states| && j == i + 1 ==> Step(states[i], states[j]))
  }

  lemma {:induction false} FreshCounts(nthreads: nat, weight: Worker -> nat)
    requires weight(Fresh) == 0
    ensures Total(seq(nthreads, i => Fresh), weight) == 0
  {
    if nthreads > 0 {
      FreshCounts(nthreads - 1, weight);
      assert seq(nthreads, i => Fresh)[..nthreads - 1] == seq(nthreads - 1, i => Fresh);
    }
  }

  lemma InitInv(s: State, nthreads: nat)
    requires Init(s, nthreads)
    ensures Inv(s)
  {
    FreshCounts(nthreads, IdleWeight);
    FreshCounts(nthreads, SlowWeight);
    forall v ensures WorkInvAt(s, v) {
      FreshCounts(nthreads, Runs(v, false));
      FreshCounts(nthreads, Runs(v, true));
    }
  }

  lemma {:induction false} RunKeeps(states: seq<State>, nthreads: nat, n: nat)
    requires Run(states, nthreads) && n < |states|
    ensures Inv(states[n]) && |states[n].threads| == nthreads
    decreases n
  {
    if n == 0 {
      InitInv(states[0], nthreads);
    } else {
      RunKeeps(states, nthreads, n - 1);
      assert Step(states[n - 1], states[n]);
      StepKeeps(states[n - 1], states[n]);
      ThreadsStay(states[n - 1], states[n]);
    }
  }

  lemma ThreadsStay(s: State, s': State)
    requires Step(s, s')
    ensures |s'.threads| == |s.threads| && s.delivered <= s'.delivered
  {
  }

  /** The threads that run slow work. */
  ghost function SlowThreads(s: State, n: nat): set<nat>
    requires n <= |s.threads|
  {
    set t: nat | t < n && s.threads[t].Running? && s.threads[t].work in s.slowWorks
  }

  lemma SlowRunsAsSlow(s: State, t: nat)
    requires AllWorkInv(s) && t < |s.threads| && s.threads[t].Running? && s.threads[t].work in s.slowWorks
    ensures s.threads[t].isSlow
  {
    var w := s.threads[t].work;
    assert WorkInvAt(s, w);
    TotalAtLeast(s.threads, t, Runs(w, false));
  }

  lemma {:induction false} SlowThreadsCounted(s: State, n: nat)
    requires n <= |s.threads| && AllWorkInv(s)
    ensures |SlowThreads(s, n)| <= Total(s.threads[..n], SlowWeight)
  {
    if n > 0 {
      var t := n - 1;
      SlowThreadsCounted(s, t);
      assert s.threads[..n][..t] == s.threads[..t];
      var before := SlowThreads(s, t);
      if t in SlowThreads(s, n) {
        SlowRunsAsSlow(s, t);
        assert SlowThreads(s, n) == before + {t};
      } else {
        assert SlowThreads(s, n) == before;
      }
    }
  }

  /** At most (nthreads + 1) / 2 threads run slow work, in every state of every run. */
  lemma SlowWorkIsBounded(states: seq<State>, nthreads: nat, n: nat)
    requires Run(states, nthreads) && n < |states|
    ensures |states[n].threads| == nthreads && |SlowThreads(states[n], nthreads)| <= (nthreads + 1) / 2
  {
    RunKeeps(states, nthreads, n);
    SlowThreadsCounted(states[n], nthreads);
    assert states[n].threads[..nthreads] == states[n].threads;
  }

  /**
   Whenever the mutex is free: pending slow work has its marker in the main
   queue, and pending work of any kind has a thread that is not asleep.
   */
  lemma PendingWorkIsServed(states: seq<State>, nthreads: nat, n: nat)
    requires Run(states, nthreads) && n < |states|
    ensures states[n].pool.slow != [] ==> Marker in states[n].pool.wq
    ensures states[n].pool.slow != [] || states[n].pool.wq != [] ==> SomeAwake(states[n].threads)
  {
    RunKeeps(states, nthreads, n);
  }

  /** No callback is entered twice, and none of cancelled work ever is. */
  lemma StartedAtMostOnce(states: seq<State>, nthreads: nat, n: nat, w: Work)
    requires Run(states, nthreads) && n < |states|
    ensures CountIn(states[n].started, w) <= 1
    ensures w in states[n].work && states[n].work[w] == Cancelled ==> w !in states[n].started
  {
    RunKeeps(states, nthreads, n);
    assert WorkInvAt(states[n], w);
    CountMember(states[n].started, w);
  }

  /** Each piece of work is delivered at most once, as run or as cancelled, and that is what happened to it. */
  lemma DeliveredOnce(states: seq<State>, nthreads: nat, n: nat, w: Work)
    requires Run(states, nthreads) && n < |states|
    ensures CountIn(states[n].delivered, Delivery(w, true)) + CountIn(states[n].delivered, Delivery(w, false)) <= 1
    ensures Delivery(w, true) in states[n].delivered ==> w !in states[n].started
    ensures Delivery(w, false) in states[n].delivered ==> CountIn(states[n].started, w) == 1
  {
    RunKeeps(states, nthreads, n);
    assert WorkInvAt(states[n], w);
    CountMember(states[n].started, w);
    CountMember(states[n].delivered, Delivery(w, true));
    CountMember(states[n].delivered, Delivery(w, false));
  }

  /** Nothing is lost: when nothing is queued, running or on its way, all that was submitted has been delivered. */
  lemma AllDelivered(states: seq<State>, nthreads: nat, n: nat, w: Work)
    requires Run(states, nthreads) && n < |states|
    requires var s := states[n];
      && Item(w) !in s.pool.wq && w !in s.pool.slow && !Executing(s, w)
      && w !in s.pending && w !in s.batch && s.hand == None
    ensures w in states[n].work <==> Delivery(w, true) in states[n].delivered || Delivery(w, false) in states[n].delivered
  {
    var s := states[n];
    RunKeeps(states, nthreads, n);
    assert WorkInvAt(s, w);
    NotExecuting(s, w);
    CountMember(s.pool.wq, Item(w));
    CountMember(s.pool.slow, w);
    CountMember(s.pending, w);
    CountMember(s.batch, w);
    CountMember(s.delivered, Delivery(w, true));
    CountMember(s.delivered, Delivery(w, false));
  }
}
