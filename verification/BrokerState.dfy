/**
 The broker's state between calls, and what each call of `TopicManager` does to it. The write-ahead
 log is the sequence of entries written so far, of which the first `synced` are in the file and
 the rest still in the `BufWriter`, which holds `WRITER_CAPACITY` bytes; a crash keeps the file only.
 */
module BrokerState {
  import opened Wrappers
  import opened Bytes
  import opened ArrowStream
  import opened Records
  import opened Sequences
  import opened WalFormat
  import opened TopicRules

  datatype Broker = Broker(
    wal: seq<Entry>,
    synced: nat,
    buffer: seq<Entry>,
    published: seq<Entry>,
    metadata: Metadata)

  const FRESH := Broker([], 0, [], [], map[])

  /** The bytes in the log file. */
  function Durable(s: Broker): seq<Byte>
    requires s.synced <= |s.wal|
  {
    SerializeAll(s.wal[..s.synced])
  }

  /** The bytes waiting in the `BufWriter`. */
  function Pending(s: Broker): seq<Byte>
    requires s.synced <= |s.wal|
  {
    SerializeAll(s.wal[s.synced..])
  }

  function CreateSpec(s: Broker, topic: Text, schema: Option<Schema>): (Broker, Result<(), Error>) {
    if topic in s.metadata then (s, Failure(TopicAlreadyExists))
    else (s.(metadata := s.metadata[topic := TopicMetadata(topic, schema)]), Success(()))
  }

  /**
   How many entries are in the file once `e` has been written: the writer empties itself first when `e` does not fit,
   and keeps nothing of an entry that fills it.
   */
  function SyncedAfter(s: Broker, e: Entry): nat
    requires s.synced <= |s.wal|
  {
    var size := |SerializeEntry(e)|;
    if size >= WRITER_CAPACITY then |s.wal| + 1
    else if |Pending(s)| + size > WRITER_CAPACITY then |s.wal|
    else s.synced
  }

  /** A write of one entry to the log. */
  function WriteSpec(s: Broker, e: Entry): Broker
    requires s.synced <= |s.wal|
  {
    s.(wal := s.wal + [e], synced := SyncedAfter(s, e))
  }

  /** `WriteAheadLog::add`. */
  function Append(s: Broker, e: Entry): Broker
    requires s.synced <= |s.wal|
  {
    WriteSpec(s, e).(buffer := s.buffer + [e])
  }

  /** `WriteAheadLog::flush`. */
  function FlushSpec(s: Broker): Broker {
    s.(synced := |s.wal|, published := s.published + s.buffer, buffer := [])
  }

  /** Entries reach the file early, as a writer that empties itself at other moments would have it. */
  function SpillTo(s: Broker, k: nat): Broker {
    s.(synced := k)
  }

  /** `TopicManager::add`, with `n` for `num_uncommitted_messages`. */
  function AddSpec(s: Broker, n: nat, topic: Text, record: seq<Byte>): (Broker, Result<(), Error>)
    requires s.synced <= |s.wal|
  {
    match Classify(s.metadata, topic, record)
    case Failure(e) => (s, Failure(e))
    case Success(stored) =>
      var s' := Append(s, Entry(topic, stored));
      (if |s'.buffer| >= n then FlushSpec(s') else s', Success(()))
  }

  /** A new process over the file: what `TopicManager::recover` rebuilds from its bytes. */
  function Restart(file: seq<Byte>): Broker {
    var es := ParseLog(file).entries;
    Broker(es, |es|, [], es, ReplayMetadata(map[], es))
  }

  /** The most entries that may be accepted but not published between calls. */
  function Slack(n: nat): nat {
    if n == 0 then 0 else n - 1
  }

  /** The most entries the writer has room for. */
  const MOST_PENDING: nat := WRITER_CAPACITY / SMALLEST_ENTRY

  /** `m`, or what the writer has room for if that is less. */
  function Capped(m: nat): nat {
    if m <= MOST_PENDING then m else MOST_PENDING
  }

  /** The writer holds no more than it has room for. */
  predicate WriterHolds(s: Broker) {
    s.synced <= |s.wal| && |Pending(s)| <= WRITER_CAPACITY
  }

  /** What holds between calls: the log is what was published and then the buffer; what was published is in the file. */
  ghost predicate Inv(s: Broker, n: nat) {
    && s.wal == s.published + s.buffer
    && |s.published| <= s.synced
    && WriterHolds(s)
    && |s.buffer| <= Slack(n)
    && AllFit(s.wal)
    && TopicsOrdered(s.wal, s.metadata)
  }

  // ---------- The bytes of file and writer ----------

  /** The bytes for each of the three ways the writer may take an entry. */
  lemma WrittenBytes(s: Broker, e: Entry)
    requires s.synced <= |s.wal|
    ensures var s' := WriteSpec(s, e);
            var size := |SerializeEntry(e)|;
            && s.synced <= s'.synced <= |s'.wal|
            && (if size >= WRITER_CAPACITY then
                  Durable(s') == Durable(s) + Pending(s) + SerializeEntry(e) && Pending(s') == []
                else if |Pending(s)| + size > WRITER_CAPACITY then
                  Durable(s') == Durable(s) + Pending(s) && Pending(s') == SerializeEntry(e)
                else
                  Durable(s') == Durable(s) && Pending(s') == Pending(s) + SerializeEntry(e))
  {
    var size := |SerializeEntry(e)|;
    if size < WRITER_CAPACITY && |Pending(s)| + size <= WRITER_CAPACITY {
      AppendedAt(s.wal, e, s.synced);
    } else {
      SerializeSplit(s.wal, s.synced);
      AppendedAfter(s.wal, e);
    }
  }

  lemma AppendedAfter(es: seq<Entry>, e: Entry)
    ensures SerializeAll((es + [e])[..|es|]) == SerializeAll(es)
    ensures SerializeAll((es + [e])[|es|..]) == SerializeEntry(e)
    ensures SerializeAll((es + [e])[..|es| + 1]) == SerializeAll(es) + SerializeEntry(e)
    ensures SerializeAll((es + [e])[|es| + 1..]) == []
  {
    SnocSlices(es, e);
    SerializeSnoc(es, e);
    SerializeOne(e);
  }

  lemma AppendedAt(es: seq<Entry>, e: Entry, k: nat)
    requires k <= |es|
    ensures SerializeAll((es + [e])[..k]) == SerializeAll(es[..k])
    ensures SerializeAll((es + [e])[k..]) == SerializeAll(es[k..]) + SerializeEntry(e)
  {
    assert (es + [e])[..k] == es[..k];
    DropConcat(es, [e], k);
    SerializeSnoc(es[k..], e);
  }

  /** However entries are written, the writer never holds more than it has room for. */
  lemma WriterKeepsRoom(s: Broker, e: Entry)
    requires WriterHolds(s)
    ensures WriterHolds(WriteSpec(s, e)) && s.synced <= WriteSpec(s, e).synced
  {
    WrittenBytes(s, e);
  }

  lemma SpillKeepsRoom(s: Broker, k: nat)
    requires WriterHolds(s) && s.synced <= k <= |s.wal|
    ensures WriterHolds(SpillTo(s, k))
  {
    SerializeTail(s.wal, s.synced, k);
  }

  lemma NothingPending(s: Broker)
    requires s.synced == |s.wal|
    ensures Pending(s) == [] && WriterHolds(s)
  {
  }

  /** So it holds a bounded number of entries, whatever the threshold. */
  lemma PendingBounded(s: Broker)
    requires WriterHolds(s)
    ensures |s.wal| - s.synced <= MOST_PENDING == 1365
  {
    EntriesTakeSpace(s.wal[s.synced..]);
  }

  /**
   A topic created with a schema stores the first batch of a stream of that schema, and refuses one of another; one
   created without stores every record as it came. Records for other topics are treated as before.
   */
  lemma CreatedTopic(s: Broker, topic: Text, schema: Option<Schema>, record: seq<Byte>, other: Text)
    requires topic !in s.metadata
    ensures var s' := CreateSpec(s, topic, schema).0;
            && (schema == None ==> Classify(s'.metadata, topic, record) == Success(Raw(record)))
            && (other != topic ==> Classify(s'.metadata, other, record) == Classify(s.metadata, other, record))
  {
  }

  lemma CreatedWithSchema(s: Broker, topic: Text, schema: Schema, produced: Schema, batches: seq<Batch>)
    requires topic !in s.metadata && OneSchema(batches, produced) && batches != []
    ensures Classify(CreateSpec(s, topic, Some(schema)).0.metadata, topic, EncodeStream(produced, batches))
         == if produced == schema then Success(Batched(batches[0])) else Failure(SchemaError)
  {
    ProducedStream(CreateSpec(s, topic, Some(schema)).0.metadata, topic, produced, batches);
  }

  lemma CreateKeepsInv(s: Broker, n: nat, topic: Text, schema: Option<Schema>)
    requires Inv(s, n)
    ensures Inv(CreateSpec(s, topic, schema).0, n)
  {
    if topic !in s.metadata {
      CreateKeepsOrder(s.wal, s.metadata, topic, schema);
    }
  }

  /**
   An accepted record is the next entry of the log, and visible at once if it fills the buffer;
   a refused one changes nothing.
   */
  lemma AddKeepsInv(s: Broker, n: nat, topic: Text, record: seq<Byte>)
    requires Inv(s, n)
    requires Classify(s.metadata, topic, record).Success? ==>
               Fits(Entry(topic, Classify(s.metadata, topic, record).value))
    ensures Inv(AddSpec(s, n, topic, record).0, n)
    ensures match Classify(s.metadata, topic, record)
            case Failure(e) => AddSpec(s, n, topic, record) == (s, Failure(e))
            case Success(stored) =>
              var (s', r) := AddSpec(s, n, topic, record);
              && r == Success(())
              && s'.wal == s.wal + [Entry(topic, stored)]
              && s'.metadata == s.metadata
              && s'.published == if |s.buffer| + 1 >= n then s'.wal else s.published
  {
    if Classify(s.metadata, topic, record).Success? {
      var e := Entry(topic, Classify(s.metadata, topic, record).value);
      ClassifiedConforms(s.metadata, topic, record);
      AppendKeepsOrder(s.wal, s.metadata, e);
      WriterKeepsRoom(s, e);
      assert Pending(Append(s, e)) == Pending(WriteSpec(s, e));
      assert s.wal + [e] == s.published + (s.buffer + [e]);
      NothingPending(FlushSpec(Append(s, e)));
    }
  }

  lemma SpillKeepsInv(s: Broker, n: nat, k: nat)
    requires Inv(s, n) && s.synced <= k <= |s.wal|
    ensures Inv(SpillTo(s, k), n)
  {
    SpillKeepsRoom(s, k);
  }

  /**
   The crash theorem: recovery succeeds and gives the entries the file held, which lie between
   what was published and what was accepted, short of the latter by no more than buffer and writer have room for.
   */
  lemma CrashRecovers(s: Broker, n: nat)
    requires Inv(s, n)
    ensures var s' := Restart(Durable(s));
            && ParseLog(Durable(s)) == Replay(s.wal[..s.synced], None)
            && s'.published == s.wal[..s.synced]
            && s.published <= s'.published <= s.wal
            && |s.wal| - |s'.published| <= Capped(Slack(n))
            && s'.metadata == WithBatches(s.metadata, s'.published)
            && Inv(s', n)
            && Restart(Durable(s')) == s'
  {
    var es := s.wal[..s.synced];
    assert AllFit(es);
    LogRoundTrip(es);
    PrefixKeepsOrder(s.wal, s.metadata, s.synced);
    RecoveredMetadata(es, s.metadata);
    RecoveryKeepsOrder(es, s.metadata);
    PendingBounded(s);
    NothingPending(Restart(Durable(s)));
    assert es == es + [] == es[..|es|];
  }

  /** What recovery gives back of any log, exactly: all entries in the file, if and only if these fit the format. */
  lemma RecoveredExact(s: Broker)
    requires s.synced <= |s.wal|
    ensures ParseLog(Durable(s)) == Replay(s.wal[..s.synced], None) <==> AllFit(s.wal[..s.synced])
  {
    LogRoundTripExact(s.wal[..s.synced]);
  }

  /**
   A crash while `e` is added, in the middle of a write or between two: the file may end anywhere in what the writer
   held and the bytes of `e`, however the writer takes them. Recovery then gives the complete entries, among them all
   that was published, and misses no more accepted ones than buffer and writer have room for; the server starts just
   when the file ends between two entries.
   */
  lemma TornCrash(s: Broker, n: nat, e: Entry, file: seq<Byte>) returns (k: nat)
    requires Inv(s, n) && Fits(e)
    requires Durable(s) <= file <= Durable(s) + Pending(s) + SerializeEntry(e)
    ensures CompleteEntries(s.wal + [e], |file|, k)
    ensures ReplaysFirst(s.wal + [e], file, k)
    ensures s.synced <= k && s.published <= (s.wal + [e])[..k]
    ensures |s.wal| - k <= Capped(Slack(n))
  {
    SerializeOne(e);
    k := TornBehind(s.wal, s.synced, [e], file);
    PendingBounded(s);
    PrefixOfTaken(s.published, s.wal, [e], k);
  }
}
