/**
 Group commit (DBImpl::Write and BuildBatchGroup, db/db_impl.cc). Writers queue
 up; the one in front numbers, logs and applies a group of batches, without the
 mutex, on behalf of all of them.
 */
module GroupCommit {
  import opened Options
  import opened Format

  datatype Op = Op(user: UserKey, kind: ValueType, value: Blob)

  /** A writer without a batch only asks for a memtable switch. `size` is ByteSize of its batch. */
  datatype Writer = Writer(id: nat, batch: Option<seq<Op>>, sync: bool, size: nat) {
    function Ops(): seq<Op> { if batch.Some? then batch.value else [] }
    function Size(): nat { if batch.Some? then size else 0 }
  }

  function EntryOf(op: Op, sequence: nat): Entry {
    Entry(InternalKey(op.user, sequence, op.kind), op.value)
  }

  /** MemTableInserter: the first `n` operations of a batch, with consecutive sequence numbers. */
  ghost function Numbered(first: nat, ops: seq<Op>, n: nat): set<Entry>
    requires n <= |ops|
  {
    set i | 0 <= i < n :: EntryOf(ops[i], first + i)
  }

  // ----- which writers form a group -----

  function Sizes(ws: seq<Writer>): nat {
    if ws == [] then 0 else Sizes(ws[..|ws| - 1]) + ws[|ws| - 1].Size()
  }

  function Joined(ws: seq<Writer>): seq<Op> {
    if ws == [] then [] else Joined(ws[..|ws| - 1]) + ws[|ws| - 1].Ops()
  }

  /** A small first batch keeps its group small. */
  function MaxSize(first: nat): nat {
    if first <= 0x2_0000 then first + 0x2_0000 else 0x10_0000
  }

  /** Writer `i` may ride on the writer in front. */
  ghost predicate MayRide(queue: seq<Writer>, i: nat)
    requires i < |queue|
  {
    && (queue[i].sync ==> queue[0].sync)
    && (queue[i].batch.Some? ==>
        Sizes(queue[..i + 1]) <= if queue[0].size <= 0x2_0000 then queue[0].size + 0x2_0000 else 0x10_0000)
  }

  /** The first `n` writers, and no more, form the group. */
  ghost predicate IsGroup(queue: seq<Writer>, n: nat) {
    && 0 < n <= |queue| && queue[0].batch.Some?
    && (forall i :: 1 <= i < n ==> MayRide(queue, i))
    && (n < |queue| ==> !MayRide(queue, n))
  }

  lemma JoinedStep(queue: seq<Writer>, i: nat)
    requires i < |queue|
    ensures Sizes(queue[..i + 1]) == Sizes(queue[..i]) + queue[i].Size()
    ensures Joined(queue[..i + 1]) == Joined(queue[..i]) + queue[i].Ops()
  {
    assert queue[..i + 1][..i] == queue[..i];
  }

  lemma RideBySize(queue: seq<Writer>, n: nat, size: nat)
    requires n < |queue| && size == Sizes(queue[..n])
    ensures MayRide(queue, n) <==>
              (queue[n].sync ==> queue[0].sync) && (queue[n].batch.Some? ==> size + queue[n].size <= MaxSize(queue[0].size))
  {
    JoinedStep(queue, n);
  }

  /** The first `n` writers may go together; `size` and `result` are theirs. */
  ghost predicate Grouped(queue: seq<Writer>, n: nat, size: nat, result: seq<Op>) {
    && 0 < n <= |queue| && (forall i :: 1 <= i < n ==> MayRide(queue, i))
    && size == Sizes(queue[..n]) && result == Joined(queue[..n])
  }

  lemma FirstIsGrouped(queue: seq<Writer>)
    requires queue != [] && queue[0].batch.Some?
    ensures Grouped(queue, 1, queue[0].size, queue[0].batch.value)
  {
    JoinedStep(queue, 0);
  }

  lemma GroupedStep(queue: seq<Writer>, n: nat, size: nat, result: seq<Op>)
    requires n < |queue| && Grouped(queue, n, size, result) && MayRide(queue, n)
    ensures Grouped(queue, n + 1, size + queue[n].Size(), result + queue[n].Ops())
  {
    JoinedStep(queue, n);
  }

  /** `n` is one past the place of *last_writer; `result` is the batch that gets logged. */
  method BuildBatchGroup(queue: seq<Writer>) returns (n: nat, result: seq<Op>)
    requires queue != [] && queue[0].batch.Some?
    ensures IsGroup(queue, n) && result == Joined(queue[..n])
  {
    var first := queue[0];
    result := first.batch.value;
    var size: nat := first.size;
    var maxSize := 0x10_0000;
    if size <= 0x2_0000 {
      maxSize := size + 0x2_0000;
    }
    assert maxSize == MaxSize(first.size);
    FirstIsGrouped(queue);
    n := 1;
    while n < |queue|
      invariant Grouped(queue, n, size, result)
    {
      var rides, more, joined := AddWriter(queue, n, size, maxSize, result);
      if !rides {
        break;
      }
      n, size, result := n + 1, more, joined;
    }
  }

  /** The loop body of BuildBatchGroup: a writer joins unless it is the first that may not. */
  method AddWriter(queue: seq<Writer>, n: nat, size: nat, maxSize: nat, result: seq<Op>) returns (rides: bool, size': nat, result': seq<Op>)
    requires n < |queue| && Grouped(queue, n, size, result) && maxSize == MaxSize(queue[0].size)
    ensures rides == MayRide(queue, n)
    ensures rides ==> Grouped(queue, n + 1, size', result')
  {
    var w := queue[n];
    size', result' := size, result;
    RideBySize(queue, n, size);
    if w.sync && !queue[0].sync {
      return false, size', result';
    }
    if w.batch.Some? {
      size' := size + w.size;
      if size' > maxSize {
        return false, size', result';
      }
      result' := result + w.batch.value;
    }
    GroupedStep(queue, n, size, result);
    return true, size', result';
  }
}
