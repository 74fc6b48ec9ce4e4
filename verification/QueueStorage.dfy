/**
 The queue backend: a fetch hands out everything stored for the topic and forgets it. Its runs
 are compared with the log backend read through one cursor.
 */
module QueueStorage {
  import opened Bytes
  import opened ArrowStream
  import opened Records
  import opened Sequences
  import opened ZeroFraming
  import opened LogStorage

  /** The records of a queue, oldest first. New records enter at the front of `queue`. */
  function Fifo(queue: seq<StoredRecord>): seq<StoredRecord> {
    if queue == [] then [] else [queue[|queue| - 1]] + Fifo(queue[..|queue| - 1])
  }

  function Payloads(rs: seq<StoredRecord>): (payloads: seq<seq<Byte>>)
    ensures |payloads| == |rs|
  {
    seq(|rs|, i requires 0 <= i < |rs| => Payload(rs[i]))
  }

  /** What a fetch returns: the payloads of the records joined by zero bytes, oldest first. */
  function QueueBytes(queue: seq<StoredRecord>): seq<Byte> {
    Join(Payloads(Fifo(queue)))
  }

  class InMemoryQueue {
    var topics: map<Text, seq<StoredRecord>>

    function Stored(topic: Text): seq<StoredRecord>
      reads this
    {
      Lookup(topics, topic)
    }

    constructor ()
      ensures forall topic :: Stored(topic) == []
    {
      topics := map[];
    }

    method Add(topic: Text, record: StoredRecord)
      modifies this
      ensures forall t :: Stored(t) == (if t == topic then [record] else []) + old(Stored(t))
    {
      topics := topics[topic := [record] + Lookup(topics, topic)];
    }

    method Fetch(topic: Text, fetchOffset: int) returns (records: seq<Byte>)
      modifies this
      ensures records == QueueBytes(old(Stored(topic)))
      ensures forall t :: Stored(t) == if t == topic then [] else old(Stored(t))
    {
      var queue := Lookup(topics, topic);
      records := [];
      while queue != []
        invariant topics == old(topics)
        invariant records + QueueBytes(queue) == QueueBytes(old(Stored(topic)))
      {
        PopStep(records, queue);
        var storedRecord := queue[|queue| - 1];
        queue := queue[..|queue| - 1];
        records := records + Payload(storedRecord);
        if queue != [] {
          records := records + [ZERO];
        } else {
          assert records + [] == records;
        }
      }
      assert records + [] == records;
      topics := topics[topic := queue];
    }
  }

  lemma PopStep(records: seq<Byte>, queue: seq<StoredRecord>)
    requires queue != []
    ensures var last, front := queue[|queue| - 1], queue[..|queue| - 1];
            var popped := records + Payload(last) + (if front != [] then [ZERO] else []);
            records + QueueBytes(queue) == popped + QueueBytes(front)
  {
    var last, front := queue[|queue| - 1], queue[..|queue| - 1];
    var payloads := Payloads(Fifo(queue));
    assert Fifo(queue)[1..] == Fifo(front);
    assert payloads == [Payload(last)] + Payloads(Fifo(front));
    if front == [] {
      assert payloads == [Payload(last)];
      assert QueueBytes(front) == [];
    } else {
      assert Fifo(front) != [];
      assert payloads[1..] == Payloads(Fifo(front));
      ConcatAssociates(records, Payload(last) + [ZERO], QueueBytes(front));
      ConcatAssociates(records, Payload(last), [ZERO]);
    }
  }

  /** The oldest record comes first, raw bytes as they are, a batch as a stream of its own; zero bytes part them. */
  lemma OldestFirst(queue: seq<StoredRecord>, oldest: StoredRecord)
    ensures QueueBytes(queue + [oldest])
         == (match oldest
             case Raw(bytes) => bytes
             case Batched(batch) => EncodeStream(batch.schema, [batch]))
            + (if queue == [] then [] else [0] + QueueBytes(queue))
  {
    PopStep([], queue + [oldest]);
    assert (queue + [oldest])[..|queue|] == queue;
    ConcatAssociates(Payload(oldest), [0], QueueBytes(queue));
    assert forall s: seq<Byte> :: [] + s == s;
  }

  // ---------- Runs of the queue, beside the log read through one cursor ----------

  datatype Op = Add(bytes: seq<Byte>) | Fetch

  /** One topic, all raw: the queue, the log fed the same records, and the cursor into the log. */
  datatype State = State(
    queue: seq<StoredRecord>,
    log: seq<StoredRecord>,
    cursor: nat,
    delivered: seq<seq<Byte>>)

  const EMPTY := State([], [], 0, [])

  function Step(s: State, op: Op): State {
    match op
    case Add(bytes) => s.(queue := [Raw(bytes)] + s.queue, log := s.log + [Raw(bytes)])
    case Fetch =>
      var parts := Parts(QueueBytes(s.queue));
      s.(queue := [], cursor := s.cursor + |parts|, delivered := s.delivered + parts)
  }

  function Run(ops: seq<Op>): State {
    if ops == [] then EMPTY else Step(Run(ops[..|ops| - 1]), ops[|ops| - 1])
  }

  /** The records the run adds are neither empty nor hold a zero byte. */
  predicate Frameable(ops: seq<Op>) {
    forall i | 0 <= i < |ops| && ops[i].Add? :: ops[i].bytes != [] && ZERO !in ops[i].bytes
  }

  function Added(ops: seq<Op>): seq<seq<Byte>> {
    if ops == [] then []
    else
      Added(ops[..|ops| - 1]) + (match ops[|ops| - 1] case Add(bytes) => [bytes] case Fetch => [])
  }

  function Raws(parts: seq<seq<Byte>>): (rs: seq<StoredRecord>)
    ensures |rs| == |parts| && AllRaw(rs)
  {
    seq(|parts|, i requires 0 <= i < |parts| => Raw(parts[i]))
  }

  ghost predicate Refines(s: State, added: seq<seq<Byte>>) {
    && s.log == Raws(added)
    && s.cursor <= |added|
    && Fifo(s.queue) == Raws(added[s.cursor..])
    && s.delivered == added[..s.cursor]
  }

  lemma {:induction false} FifoPush(queue: seq<StoredRecord>, r: StoredRecord)
    ensures Fifo([r] + queue) == Fifo(queue) + [r]
  {
    if queue != [] {
      var n := |queue|;
      assert ([r] + queue)[..n] == [r] + queue[..n - 1];
      FifoPush(queue[..n - 1], r);
    } else {
      assert ([r] + queue)[..0] == [];
    }
  }

  lemma OfRaws(parts: seq<seq<Byte>>)
    ensures Payloads(Raws(parts)) == RawBytes(Raws(parts)) == parts
  {
  }

  lemma PartsOfJoin(parts: seq<seq<Byte>>)
    requires ZeroFree(parts) && NonEmptyParts(parts)
    ensures Parts(Join(parts)) == parts
  {
    PartsExact(parts);
    assert parts != [] ==> parts[0] != [];
  }

  /** The queue hands out the very bytes the log returns at the cursor. */
  lemma FetchAgrees(s: State, added: seq<seq<Byte>>)
    requires Refines(s, added)
    ensures QueueBytes(s.queue) == FetchSpec(s.log, s.cursor) == Join(added[s.cursor..])
  {
    var left := added[s.cursor..];
    DropRowsOfRaw(s.log, s.cursor);
    assert s.log[s.cursor..] == Raws(left);
    OfRaws(left);
    RenderOfRaw(Raws(left));
  }

  lemma AddRefines(s: State, bytes: seq<Byte>, added: seq<seq<Byte>>)
    requires Refines(s, added)
    ensures Refines(Step(s, Add(bytes)), added + [bytes])
  {
    FifoPush(s.queue, Raw(bytes));
    DropConcat(added, [bytes], s.cursor);
    assert (added + [bytes])[..s.cursor] == added[..s.cursor];
  }

  lemma FetchRefines(s: State, added: seq<seq<Byte>>)
    requires Refines(s, added) && ZeroFree(added) && NonEmptyParts(added)
    ensures Refines(Step(s, Fetch), added)
  {
    FetchAgrees(s, added);
    PartsOfJoin(added[s.cursor..]);
    TakeDrop(added, s.cursor);
    var s' := Step(s, Fetch);
    assert s' == State([], s.log, |added|, added);
    assert added[|added|..] == [] && added[..|added|] == added;
  }

  lemma {:induction false} AddedFrameable(ops: seq<Op>)
    requires Frameable(ops)
    ensures ZeroFree(Added(ops)) && NonEmptyParts(Added(ops))
  {
    if ops != [] {
      AddedFrameable(ops[..|ops| - 1]);
    }
  }

  lemma {:induction false} RunRefines(ops: seq<Op>)
    requires Frameable(ops)
    ensures Refines(Run(ops), Added(ops))
  {
    if ops != [] {
      var front, last := ops[..|ops| - 1], ops[|ops| - 1];
      RunRefines(front);
      match last {
        case Add(bytes) => AddRefines(Run(front), bytes, Added(front));
        case Fetch =>
          AddedFrameable(front);
          FetchRefines(Run(front), Added(front));
          assert Added(front) + [] == Added(front);
      }
    }
  }

  lemma NothingLost(s: State, added: seq<seq<Byte>>)
    requires Refines(s, added)
    ensures s.delivered + Payloads(Fifo(s.queue)) == added
    ensures s.cursor == |s.delivered|
  {
    OfRaws(added[s.cursor..]);
  }

  /**
   Over every run, what was delivered and what is still queued are the records added: in order,
   each once. The next fetch is the fetch of the log at the number of records delivered.
   */
  lemma QueueRefinesLog(ops: seq<Op>)
    requires Frameable(ops)
    ensures var s := Run(ops);
            && s.delivered + Payloads(Fifo(s.queue)) == Added(ops)
            && s.log == Raws(Added(ops))
            && QueueBytes(s.queue) == FetchSpec(s.log, |s.delivered|)
  {
    RunRefines(ops);
    FetchAgrees(Run(ops), Added(ops));
    NothingLost(Run(ops), Added(ops));
  }
}
