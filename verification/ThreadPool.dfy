/**
 The libuv thread pool (src/threadpool.c): what each mutex-held region does to
 the queues. `wq` is the main queue, `slow` the queue of pending slow I/O; the
 marker in `wq` stands for run_slow_work_message.
 */
module ThreadPool {
  type Work = nat

  datatype Entry = Item(work: Work) | Marker

  /** What the global mutex protects. */
  datatype Pool = Pool(wq: seq<Entry>, slow: seq<Work>, slowRunning: nat)

  function Threshold(nthreads: nat): nat { (nthreads + 1) / 2 }

  /** The marker is one object: it is linked at most once. */
  ghost predicate OneMarker(wq: seq<Entry>) {
    forall i, j :: 0 <= i < j < |wq| ==> wq[i] != Marker || wq[j] != Marker
  }

  /** post(): where new work goes, and whether a sleeping thread is signalled. */
  function Post(p: Pool, w: Work, isSlow: bool): (r: (Pool, bool)) {
    if isSlow then
      var q := p.(slow := p.slow + [w]);
      if Marker in p.wq then (q, false) else (q.(wq := p.wq + [Marker]), true)
    else (p.(wq := p.wq + [Item(w)]), true)
  }

  datatype Taken =
    | Wait(pool: Pool)
    | Got(pool: Pool, work: Work, isSlow: bool, signal: bool)

  predicate NothingToDo(p: Pool, nthreads: nat) {
    p.wq == [] || (p.wq == [Marker] && p.slowRunning >= Threshold(nthreads))
  }

  /** The mutex-held part of worker(): waits, or leaves with work to run. */
  function Take(p: Pool, nthreads: nat): (t: Taken)
    requires OneMarker(p.wq)
    decreases |p.wq|, p.wq != [] && p.wq[0] == Marker
  {
    if NothingToDo(p, nthreads) then Wait(p)
    else
      var rest := p.(wq := p.wq[1..]);
      match p.wq[0]
      case Item(w) => Got(rest, w, false, false)
      case Marker =>
        if p.slowRunning >= Threshold(nthreads) then
          RequeueTurns(p.wq);
          Take(rest.(wq := rest.wq + [Marker]), nthreads)
        else if p.slow == [] then Take(rest, nthreads)
        else
          var left := rest.(slow := p.slow[1..], slowRunning := p.slowRunning + 1);
          if left.slow == [] then Got(left, p.slow[0], true, false)
          else Got(left.(wq := left.wq + [Marker]), p.slow[0], true, true)
  }

  lemma RequeueTurns(wq: seq<Entry>)
    requires OneMarker(wq) && wq != [] && wq[0] == Marker && wq != [Marker]
    ensures OneMarker(wq[1..] + [Marker]) && wq[1] != Marker
  {
    var turned := wq[1..] + [Marker];
    forall i, j | 0 <= i < j < |turned| ensures turned[i] != Marker || turned[j] != Marker {
      assert turned[i] == wq[i + 1];
    }
  }

  /** The mutex-protected globals of the source, changed in place. */
  class Queues {
    const nthreads: nat
    var wq: seq<Entry>
    var slow: seq<Work>
    var slowRunning: nat
    var idle: nat

    constructor (nthreads: nat)
      ensures this.nthreads == nthreads && View() == Pool([], [], 0) && idle == 0
    {
      this.nthreads := nthreads;
      wq, slow, slowRunning, idle := [], [], 0, 0;
    }

    ghost function View(): Pool
      reads this
    {
      Pool(wq, slow, slowRunning)
    }

    /** `signal` says whether uv_cond_signal is called. */
    method PostWork(w: Work, isSlow: bool) returns (signal: bool)
      modifies this
      ensures View() == Post(old(View()), w, isSlow).0 && idle == old(idle)
      ensures signal == (Post(old(View()), w, isSlow).1 && idle > 0)
    {
      var entry := Item(w);
      if isSlow {
        slow := slow + [w];
        if Marker in wq {
          return false;
        }
        entry := Marker;
      }
      wq := wq + [entry];
      signal := idle > 0;
    }

    /** From the top of the worker's loop to the unlock or the wait; `waits` says which. */
    method TakeWork() returns (waits: bool, w: Work, isSlow: bool, signal: bool)
      requires OneMarker(wq)
      modifies this
      ensures var t := Take(old(View()), nthreads);
        && View() == t.pool && waits == t.Wait?
        && idle == old(idle) + (if waits then 1 else 0)
        && (!waits ==> w == t.work && isSlow == t.isSlow && signal == (t.signal && idle > 0))
    {
      w, isSlow, signal := 0, false, false;
      while true
        invariant OneMarker(wq) && idle == old(idle)
        invariant Take(View(), nthreads) == Take(old(View()), nthreads)
        decreases |wq|, wq != [] && wq[0] == Marker
      {
        if wq == [] || (wq[0] == Marker && |wq| == 1 && slowRunning >= Threshold(nthreads)) {
          idle := idle + 1;
          return true, 0, false, false;
        }
        var q := wq[0];
        if q != Marker {
          wq := wq[1..];
          return false, q.work, false, false;
        }
        if slowRunning >= Threshold(nthreads) {
          RequeueTurns(wq);
          wq := wq[1..] + [q];
        } else {
          wq := wq[1..];
          if slow != [] {
            slowRunning := slowRunning + 1;
            w := slow[0];
            slow := slow[1..];
            if slow != [] {
              wq := wq + [Marker];
              signal := idle > 0;
            }
            return false, w, true, signal;
          }
        }
      }
    }
  }
}
