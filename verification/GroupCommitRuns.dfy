/**
 Every interleaving of writers, the unlocked work of the writer in front, and
 readers that take LastSequence as their snapshot.
 */
module GroupCommitRuns {
  import opened Options
  import opened Format
  import opened GroupCommit

  /** What the front writer is doing outside the mutex. */
  datatype Stage = Adding | Syncing | Inserting(applied: nat) | Failed(syncError: bool)

  datatype Phase =
    | Free
    | MakingRoom
    | Working(count: nat, ops: seq<Op>, stage: Stage)

  /**
   A writer that has been told its status. `first` is the first sequence number
   of its batch when numbers were given out.
   */
  datatype Departure = Departure(writer: Writer, ok: bool, numbered: bool, first: nat)

  /**
   `applied` is all that was ever inserted into a memtable, `logged` all that the
   records added to the log hold, and `durable` what of it was in the log when the log
   was last synced. `waiting` are the writers blocked
   on their condition variable; `arrived` are all writers in order of arrival.
   */
  datatype State = State(
    arrived: seq<Writer>, queue: seq<Writer>, waiting: set<nat>, phase: Phase,
    lastSequence: nat, applied: set<Entry>, logged: set<Entry>, durable: set<Entry>,
    departed: seq<Departure>, bgError: bool)

  ghost predicate NewId(s: State, w: Writer) {
    forall i :: 0 <= i < |s.arrived| ==> s.arrived[i].id != w.id
  }

  /** Write() enters the queue and waits unless it is in front. */
  ghost predicate Enqueue(s: State, s': State, w: Writer) {
    && NewId(s, w)
    && s' == s.(arrived := s.arrived + [w], queue := s.queue + [w],
                waiting := if s.queue == [] then s.waiting else s.waiting + {w.id})
  }

  /** The front writer goes on to MakeRoomForWrite, which may release the mutex. */
  ghost predicate Lead(s: State, s': State) {
    && s.phase == Free && s.queue != [] && s.queue[0].id !in s.waiting
    && s' == s.(phase := MakingRoom)
  }

  ghost function Ids(queue: seq<Writer>, n: nat): set<nat>
    requires n <= |queue|
  {
    set i | 0 <= i < n :: queue[i].id
  }

  /** The writers told of their status and the new front writer are signalled. */
  ghost predicate Popped(s: State, s': State, n: nat, leaving: seq<Departure>)
    requires n <= |s.queue|
  {
    && s'.queue == s.queue[n..] && s'.departed == s.departed + leaving && s'.phase == Free
    && s'.waiting == s.waiting - Ids(s.queue, if n < |s.queue| then n + 1 else n)
    && s'.arrived == s.arrived
  }

  /** No room, or a background error: the front writer leaves alone. */
  ghost predicate LeaveWithoutRoom(s: State, s': State) {
    && s.phase == MakingRoom && s.queue != []
    && Popped(s, s', 1, [Departure(s.queue[0], false, false, 0)])
    && s' == s.(queue := s'.queue, departed := s'.departed, phase := Free, waiting := s'.waiting)
  }

  /** A writer without a batch is done when there is room. */
  ghost predicate LeaveWithoutBatch(s: State, s': State) {
    && s.phase == MakingRoom && !s.bgError && s.queue != [] && s.queue[0].batch == None
    && Popped(s, s', 1, [Departure(s.queue[0], true, false, 0)])
    && s' == s.(queue := s'.queue, departed := s'.departed, phase := Free, waiting := s'.waiting)
  }

  /** BuildBatchGroup; the mutex is released after it. */
  ghost predicate Begin(s: State, s': State, n: nat) {
    && s.phase == MakingRoom && !s.bgError && IsGroup(s.queue, n)
    && s' == s.(phase := Working(n, Joined(s.queue[..n]), Adding))
  }

  ghost predicate AddRecord(s: State, s': State, ok: bool) {
    && s.phase.Working? && s.phase.stage == Adding && s.queue != []
    && s' == if !ok then s.(phase := s.phase.(stage := Failed(false)))
             else s.(phase := s.phase.(stage := if s.queue[0].sync then Syncing else Inserting(0)),
                     logged := s.logged + Numbered(s.lastSequence + 1, s.phase.ops, |s.phase.ops|))
  }

  /** logfile_->Sync(): only this makes logged entries durable. */
  ghost predicate Sync(s: State, s': State, ok: bool) {
    && s.phase.Working? && s.phase.stage == Syncing
    && s' == if !ok then s.(phase := s.phase.(stage := Failed(true)))
             else s.(phase := s.phase.(stage := Inserting(0)), durable := s.logged)
  }

  /** One operation goes into the memtable, visible to readers at once. */
  ghost predicate Insert(s: State, s': State) {
    && s.phase.Working? && s.phase.stage.Inserting? && s.phase.stage.applied < |s.phase.ops|
    && var k := s.phase.stage.applied;
    && s' == s.(phase := s.phase.(stage := Inserting(k + 1)),
                applied := s.applied + {EntryOf(s.phase.ops[k], s.lastSequence + 1 + k)})
  }

  function LastLeaving(queue: seq<Writer>, n: nat, ok: bool, first: nat): Departure
    requires 0 < n <= |queue|
  {
    Departure(queue[n - 1], ok, true, first + |Joined(queue[..n - 1])|)
  }

  /** The departures of a group: batches take their numbers in queue order. */
  function Leaving(queue: seq<Writer>, n: nat, ok: bool, first: nat): (ds: seq<Departure>)
    requires n <= |queue|
    ensures |ds| == n
  {
    if n == 0 then [] else Leaving(queue, n - 1, ok, first) + [LastLeaving(queue, n, ok, first)]
  }

  /** Back under the mutex: LastSequence moves, also when the group failed. */
  ghost predicate Commit(s: State, s': State) {
    && s.phase.Working? && s.queue != [] && s.phase.count <= |s.queue|
    && (s.phase.stage.Failed? || (s.phase.stage.Inserting? && s.phase.stage.applied == |s.phase.ops|))
    && var n, ok := s.phase.count, !s.phase.stage.Failed?;
    && Popped(s, s', n, Leaving(s.queue, n, ok, s.lastSequence + 1))
    && s' == s.(queue := s'.queue, departed := s'.departed, phase := Free, waiting := s'.waiting,
                lastSequence := s.lastSequence + |s.phase.ops|,
                bgError := s.bgError || (s.phase.stage.Failed? && s.phase.stage.syncError))
  }

  ghost predicate Step(s: State, s': State) {
    || (exists w :: Enqueue(s, s', w)) || Lead(s, s') || LeaveWithoutRoom(s, s') || LeaveWithoutBatch(s, s')
    || (exists n :: Begin(s, s', n)) || (exists ok :: AddRecord(s, s', ok)) || (exists ok :: Sync(s, s', ok))
    || Insert(s, s') || Commit(s, s')
  }

  ghost predicate Init(s: State) {
    s == State([], [], {}, Free, 0, {}, {}, {}, [], false)
  }

  // ----- what every step keeps -----

  ghost function Writers(ds: seq<Departure>): seq<Writer> {
    seq(|ds|, i requires 0 <= i < |ds| => ds[i].writer)
  }

  ghost function EntriesOf(d: Departure): set<Entry> {
    if d.ok && d.numbered then Numbered(d.first, d.writer.Ops(), |d.writer.Ops()|) else {}
  }

  /** The entries of the batches reported as written. */
  ghost function Committed(ds: seq<Departure>): set<Entry> {
    if ds == [] then {} else Committed(ds[..|ds| - 1]) + EntriesOf(ds[|ds| - 1])
  }

  /** How many sequence numbers the departures took, which is where the next starts. */
  function Taken(ds: seq<Departure>): nat {
    if ds == [] then 0
    else Taken(ds[..|ds| - 1]) + if ds[|ds| - 1].numbered then |ds[|ds| - 1].writer.Ops()| else 0
  }

  /** Every arrival is queued or has departed, once, and in order of arrival. */
  ghost predicate OrderInv(s: State) {
    && s.arrived == Writers(s.departed) + s.queue
    && (forall i, j :: 0 <= i < j < |s.arrived| ==> s.arrived[i].id != s.arrived[j].id)
  }

  /** The numbers given out are consecutive, in order of departure. */
  ghost predicate NumbersInv(s: State) {
    s.lastSequence == Taken(s.departed) && Consecutive(s.departed, 0)
  }

  ghost predicate Consecutive(ds: seq<Departure>, base: nat) {
    if ds == [] then true
    else
      var front, last := ds[..|ds| - 1], ds[|ds| - 1];
      Consecutive(front, base) && (last.numbered ==> last.first == base + Taken(front) + 1)
  }

  ghost predicate WorkInv(s: State) {
    && (s.phase != Free ==> s.queue != [])
    && (s.phase.Working? ==>
      && 0 < s.phase.count <= |s.queue| && s.phase.ops == Joined(s.queue[..s.phase.count])
      && (forall i :: 0 <= i < s.phase.count ==> s.queue[i].sync ==> s.queue[0].sync)
      && (s.phase.stage.Inserting? ==> s.phase.stage.applied <= |s.phase.ops|))
  }

  /** The memtables hold the committed batches and part of the group in progress. */
  ghost predicate AppliedInv(s: State) {
    s.applied == Committed(s.departed) + InProgress(s.phase, s.lastSequence + 1)
  }

  /** What of the group in progress is already in the memtable. */
  ghost function InProgress(phase: Phase, first: nat): set<Entry> {
    if phase.Working? && phase.stage.Inserting? && phase.stage.applied <= |phase.ops|
    then Numbered(first, phase.ops, phase.stage.applied) else {}
  }

  /** Write-ahead: what is in a memtable is in the log; what a sync writer's group inserts is durable first. */
  ghost predicate LogInv(s: State) {
    && s.applied <= s.logged && s.durable <= s.logged
    && (s.phase.Working? && s.phase.stage.Inserting? && s.queue != [] && s.queue[0].sync ==>
      Numbered(s.lastSequence + 1, s.phase.ops, |s.phase.ops|) <= s.durable)
    && (s.phase.Working? && (s.phase.stage == Syncing || s.phase.stage.Inserting?) ==>
      Numbered(s.lastSequence + 1, s.phase.ops, |s.phase.ops|) <= s.logged)
  }

  /** A batch reported as written has its numbers, and that of a sync writer is durable. */
  ghost predicate Kept(d: Departure, durable: set<Entry>) {
    && (d.ok && d.writer.batch.Some? ==> d.numbered)
    && (d.ok && d.writer.sync ==> EntriesOf(d) <= durable)
  }

  ghost predicate DepartedInv(s: State) {
    forall i :: 0 <= i < |s.departed| ==> Kept(s.departed[i], s.durable)
  }

  /** Only writers behind the front one are blocked. */
  ghost predicate WaitingInv(s: State) {
    forall id :: id in s.waiting ==> Behind(s.queue, id)
  }

  ghost predicate Behind(queue: seq<Writer>, id: nat) {
    exists i :: 1 <= i < |queue| && queue[i].id == id
  }

  ghost predicate Inv(s: State) {
    OrderInv(s) && NumbersInv(s) && WorkInv(s) && AppliedInv(s) && LogInv(s) && DepartedInv(s) && WaitingInv(s)
  }
}
