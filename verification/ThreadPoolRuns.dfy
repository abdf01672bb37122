/**
 Every interleaving of submissions, workers, cancellation and delivery in the
 libuv thread pool. A step is one mutex-held region, or what a thread does
 between two of them.
 */
module ThreadPoolRuns {
  import opened Options
  import opened Counting
  import opened ThreadPool

  /** Where a thread is. `Woken` has left the wait but does not hold the mutex yet. */
  datatype Worker = Fresh | Asleep | Woken | Running(work: Work, isSlow: bool) | Done(isSlow: bool)

  /** w->work: the callback, NULL once it has run, or uv__cancelled. */
  datatype Pointer = Callback | Null | Cancelled

  datatype Delivery = Delivery(work: Work, cancelled: bool)

  /**
   `pending` is the loop's own queue, `batch` the local queue of
   uv__work_done, `hand` the work between the two regions of uv__work_cancel.
   `started` records which callbacks have been entered, `slowWorks` which work
   was submitted as slow.
   */
  datatype State = State(
    threads: seq<Worker>, pool: Pool, idle: nat,
    work: map<Work, Pointer>, slowWorks: set<Work>,
    pending: seq<Work>, batch: seq<Work>, hand: Option<Work>,
    started: seq<Work>, delivered: seq<Delivery>)

  // Counting over threads

  function Total(threads: seq<Worker>, weight: Worker -> nat): nat {
    if threads == [] then 0 else Total(threads[..|threads| - 1], weight) + weight(threads[|threads| - 1])
  }

  lemma {:induction false} TotalUpdate(threads: seq<Worker>, t: nat, x: Worker, weight: Worker -> nat)
    requires t < |threads|
    ensures Total(threads[t := x], weight) == Total(threads, weight) - weight(threads[t]) + weight(x)
  {
    var n := |threads| - 1;
    if t < n {
      TotalUpdate(threads[..n], t, x, weight);
      assert threads[t := x][..n] == threads[..n][t := x];
    } else {
      assert threads[t := x][..n] == threads[..n];
    }
  }

  lemma {:induction false} TotalPositive(threads: seq<Worker>, weight: Worker -> nat) returns (t: nat)
    requires Total(threads, weight) > 0
    ensures t < |threads| && weight(threads[t]) > 0
  {
    var n := |threads| - 1;
    if weight(threads[n]) > 0 {
      t := n;
    } else {
      t := TotalPositive(threads[..n], weight);
    }
  }

  function IdleWeight(x: Worker): nat { if x.Asleep? || x.Woken? then 1 else 0 }

  function SlowWeight(x: Worker): nat { if (x.Running? || x.Done?) && x.isSlow then 1 else 0 }

  /** One for a thread that runs this work, as slow work or not. */
  function Runs(w: Work, isSlow: bool): Worker -> nat {
    x => if x == Running(w, isSlow) then 1 else 0
  }

  // The regions

  ghost predicate SomeAsleep(threads: seq<Worker>) {
    exists t :: 0 <= t < |threads| && threads[t] == Asleep
  }

  ghost predicate SomeAwake(threads: seq<Worker>) {
    exists t :: 0 <= t < |threads| && threads[t] != Asleep
  }

  /** uv_cond_signal wakes one of the sleeping threads, if there is any. */
  ghost predicate Signalled(before: seq<Worker>, after: seq<Worker>) {
    if SomeAsleep(before) then exists t :: 0 <= t < |before| && before[t] == Asleep && after == before[t := Woken]
    else after == before
  }

  ghost predicate MaybeSignalled(signal: bool, before: seq<Worker>, after: seq<Worker>) {
    if signal then Signalled(before, after) else after == before
  }

  /** uv__work_submit. */
  ghost predicate Submit(s: State, s': State, w: Work, isSlow: bool) {
    && w !in s.work
    && var (pool, signal) := Post(s.pool, w, isSlow);
    && MaybeSignalled(signal && s.idle > 0, s.threads, s'.threads)
    && s' == s.(threads := s'.threads, pool := pool, work := s.work[w := Callback],
                slowWorks := if isSlow then s.slowWorks + {w} else s.slowWorks)
  }

  /** A thread may leave the wait without a signal. */
  ghost predicate WakeUp(s: State, s': State, t: nat) {
    t < |s.threads| && s.threads[t] == Asleep && s' == s.(threads := s.threads[t := Woken])
  }

  /** What a thread first does with the mutex: it leaves the wait, or the slow work it ran. */
  function Entered(x: Worker, pool: Pool, idle: nat): (Pool, nat) {
    (if x.Done? && x.isSlow && pool.slowRunning > 0 then pool.(slowRunning := pool.slowRunning - 1) else pool,
     if x == Woken && idle > 0 then idle - 1 else idle)
  }

  /** A worker holds the mutex until it waits or unlocks with work in hand. */
  ghost predicate Enter(s: State, s': State, t: nat) {
    && t < |s.threads| && s.threads[t] != Asleep && !s.threads[t].Running?
    && var (pool, idle) := Entered(s.threads[t], s.pool, s.idle);
    && OneMarker(pool.wq)
    && Leave(s, s', t, idle, Take(pool, |s.threads|))
  }

  ghost predicate Leave(s: State, s': State, t: nat, idle: nat, taken: Taken)
    requires t < |s.threads|
  {
    match taken
    case Wait(after) => s' == s.(threads := s.threads[t := Asleep], pool := after, idle := idle + 1)
    case Got(after, w, isSlow, signal) =>
      && MaybeSignalled(signal && idle > 0, s.threads[t := Running(w, isSlow)], s'.threads)
      && s' == s.(threads := s'.threads, pool := after, idle := idle, started := s.started + [w])
  }

  /** The callback has returned: the loop's queue gets the work. */
  ghost predicate Finish(s: State, s': State, t: nat) {
    && t < |s.threads| && s.threads[t].Running?
    && var Running(w, isSlow) := s.threads[t];
    && s' == s.(threads := s.threads[t := Done(isSlow)], work := s.work[w := Null], pending := s.pending + [w])
  }

  datatype Queue = MainQueue | SlowQueue | LoopQueue | BatchQueue

  /** QUEUE_REMOVE(&w->wq) at place `i` of the queue it is linked in. */
  ghost predicate UnlinkedAt(s: State, s': State, w: Work, queue: Queue, i: nat) {
    match queue
    case MainQueue => i < |s.pool.wq| && s.pool.wq[i] == Item(w) && s' == s.(pool := s.pool.(wq := Without(s.pool.wq, i)))
    case SlowQueue => i < |s.pool.slow| && s.pool.slow[i] == w && s' == s.(pool := s.pool.(slow := Without(s.pool.slow, i)))
    case LoopQueue => i < |s.pending| && s.pending[i] == w && s' == s.(pending := Without(s.pending, i))
    case BatchQueue => i < |s.batch| && s.batch[i] == w && s' == s.(batch := Without(s.batch, i))
  }

  ghost predicate Unlinked(s: State, s': State, w: Work) {
    exists queue, i :: UnlinkedAt(s, s', w, queue, i)
  }

  ghost predicate Executing(s: State, w: Work) {
    exists t :: 0 <= t < |s.threads| && s.threads[t].Running? && s.threads[t].work == w
  }

  /** The first region of uv__work_cancel, on the loop's thread; nothing changes when it returns UV_EBUSY. */
  ghost predicate Cancel(s: State, s': State, w: Work) {
    && s.hand == None && w in s.work
    && Delivery(w, true) !in s.delivered && Delivery(w, false) !in s.delivered
    && if Executing(s, w) || s.work[w] == Null then s' == s
       else exists mid :: Unlinked(s, mid, w) && s' == mid.(hand := Some(w), work := s.work[w := Cancelled])
  }

  /** Its second region. */
  ghost predicate Cancelling(s: State, s': State) {
    s.hand.Some? && s' == s.(hand := None, pending := s.pending + [s.hand.value])
  }

  /** uv__work_done takes over the loop's queue. */
  ghost predicate TakeBatch(s: State, s': State) {
    s.hand == None && s.batch == [] && s' == s.(batch := s.pending, pending := [])
  }

  /** It calls one done callback. */
  ghost predicate Deliver(s: State, s': State) {
    && s.hand == None && s.batch != [] && s.batch[0] in s.work
    && var w := s.batch[0];
    && s' == s.(batch := s.batch[1..], delivered := s.delivered + [Delivery(w, s.work[w] == Cancelled)])
  }

  ghost predicate Step(s: State, s': State) {
    || (exists w, isSlow :: Submit(s, s', w, isSlow))
    || (exists t :: WakeUp(s, s', t))
    || (exists t :: Enter(s, s', t))
    || (exists t :: Finish(s, s', t))
    || (exists w :: Cancel(s, s', w))
    || Cancelling(s, s') || TakeBatch(s, s') || Deliver(s, s')
  }

  ghost predicate Init(s: State, nthreads: nat) {
    && nthreads > 0
    && s == State(seq(nthreads, i => Fresh), Pool([], [], 0), 0, map[], {}, [], [], None, [], [])
  }

  // What every step keeps

  /** The queues: one marker, and it is there whenever slow work is pending. */
  ghost predicate QueuesInv(p: Pool) {
    OneMarker(p.wq) && (p.slow != [] ==> Marker in p.wq)
  }

  /** The counters count, and at most half of the threads run slow work. */
  ghost predicate CountersInv(s: State) {
    && |s.threads| > 0
    && s.idle == Total(s.threads, IdleWeight)
    && s.pool.slowRunning == Total(s.threads, SlowWeight) <= Threshold(|s.threads|)
  }

  /** Work in the queue never waits for threads that all sleep. */
  ghost predicate NobodyStranded(s: State) {
    s.pool.wq != [] ==> SomeAwake(s.threads)
  }

  /** How often a piece of work is in each place, and how often its callback was entered. */
  datatype Counts = Counts(queued: nat, slow: nat, fastRun: nat, slowRun: nat, pending: nat, batch: nat, hand: nat, ran: nat, cancelled: nat, started: nat) {
    function Everywhere(): nat { queued + slow + fastRun + slowRun + pending + batch + hand + ran + cancelled }
  }

  ghost function CountsOf(s: State, w: Work): Counts {
    Counts(CountIn(s.pool.wq, Item(w)), CountIn(s.pool.slow, w),
           Total(s.threads, Runs(w, false)), Total(s.threads, Runs(w, true)),
           CountIn(s.pending, w), CountIn(s.batch, w), if s.hand == Some(w) then 1 else 0,
           CountIn(s.delivered, Delivery(w, false)), CountIn(s.delivered, Delivery(w, true)),
           CountIn(s.started, w))
  }

  /**
   Submitted work is in exactly one place. Its pointer tells where that can be
   and whether the callback was entered; slow work goes through the slow queue.
   */
  ghost predicate WorkInv(c: Counts, submitted: bool, pointer: Pointer, isSlow: bool) {
    && (!submitted ==> c.Everywhere() == 0 && c.started == 0 && !isSlow)
    && (submitted ==> c.Everywhere() == 1)
    && (submitted && pointer == Callback ==> c.queued + c.slow + c.fastRun + c.slowRun == 1 && c.started == c.fastRun + c.slowRun)
    && (submitted && pointer == Null ==> c.pending + c.batch + c.ran == 1 && c.started == 1)
    && (submitted && pointer == Cancelled ==> c.pending + c.batch + c.hand + c.cancelled == 1 && c.started == 0)
    && (isSlow ==> c.queued == 0 && c.fastRun == 0)
    && (!isSlow ==> c.slow == 0 && c.slowRun == 0)
  }

  ghost predicate WorkInvAt(s: State, w: Work) {
    WorkInv(CountsOf(s, w), w in s.work, if w in s.work then s.work[w] else Callback, w in s.slowWorks)
  }

  ghost predicate AllWorkInv(s: State) {
    forall w :: WorkInvAt(s, w)
  }

  ghost predicate Inv(s: State) {
    QueuesInv(s.pool) && CountersInv(s) && NobodyStranded(s) && AllWorkInv(s)
  }
}
