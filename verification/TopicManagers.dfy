/** The topic manager of `src/topic_manager.rs`, proved against the broker's state and its steps. */
module TopicManagers {
  import opened Wrappers
  import opened Bytes
  import opened ArrowStream
  import opened Records
  import opened WalFormat
  import opened Sequences
  import opened LogStorage
  import opened TopicRules
  import opened WriteAheadLogs
  import opened BrokerState

  class TopicManager {
    const backend: InMemoryLog
    const wal: WriteAheadLog
    var topicMetadatas: Metadata

    /** `contents` is what the log file holds when the process starts. */
    constructor (contents: seq<Byte>, limit: nat)
      ensures fresh(backend) && fresh(wal) && fresh(wal.file)
      ensures backend.Valid() && forall t :: backend.Stored(t) == []
      ensures wal.file.durable == contents && wal.file.pending == [] && wal.file.capacity == WRITER_CAPACITY
      ensures wal.buffer == [] && wal.limit == limit
      ensures topicMetadatas == map[]
    {
      backend := new InMemoryLog();
      wal := new WriteAheadLog(contents, limit);
      topicMetadatas := map[];
    }

    /** The objects hold the state `s`: bytes in the file and in the writer, buffer, backend and metadata. */
    ghost predicate Represents(s: Broker)
      reads this, backend, wal, wal.file
    {
      && WriterHolds(s)
      && wal.file.capacity == WRITER_CAPACITY
      && backend.Valid()
      && wal.file.durable == Durable(s)
      && wal.file.pending == Pending(s)
      && wal.buffer == s.buffer
      && backend.Holds(s.published)
      && topicMetadatas == s.metadata
    }

    method Exists(topic: Text) returns (found: bool)
      ensures found <==> topic in topicMetadatas
    {
      found := topic in topicMetadatas;
    }

    method Create(topic: Text, schema: Option<Schema>, ghost s: Broker) returns (r: Result<(), Error>)
      requires Represents(s)
      modifies this
      ensures Represents(CreateSpec(s, topic, schema).0) && r == CreateSpec(s, topic, schema).1
      ensures if topic in old(topicMetadatas) then
                r == Failure(TopicAlreadyExists) && topicMetadatas == old(topicMetadatas)
              else
                r == Success(()) && topicMetadatas == old(topicMetadatas)[topic := TopicMetadata(topic, schema)]
    {
      if topic in topicMetadatas {
        return Failure(TopicAlreadyExists);
      }
      topicMetadatas := topicMetadatas[topic := TopicMetadata(topic, schema)];
      r := Success(());
    }

    /** A refused record changes nothing; one for a topic without a schema is logged, and visible at the threshold. */
    method Add(topic: Text, record: seq<Byte>, ghost s: Broker) returns (r: Result<(), Error>)
      requires Represents(s)
      modifies this, backend, wal, wal.file
      ensures Represents(AddSpec(s, wal.limit, topic, record).0) && r == AddSpec(s, wal.limit, topic, record).1
      ensures topicMetadatas == old(topicMetadatas)
      ensures r.Failure? ==>
                && wal.file.durable == old(wal.file.durable) && wal.file.pending == old(wal.file.pending)
                && wal.buffer == old(wal.buffer) && forall t :: backend.Stored(t) == old(backend.Stored(t))
      ensures topic in topicMetadatas && topicMetadatas[topic].schema.Some? && ValidUtf8(record) ==> r.Failure?
      ensures (topic in topicMetadatas ==> topicMetadatas[topic].schema == None) ==>
                && r == Success(())
                && wal.file.durable + wal.file.pending
                == old(wal.file.durable + wal.file.pending) + SerializeEntry(Entry(topic, Raw(record)))
                && var logged := old(wal.buffer) + [Entry(topic, Raw(record))];
                   if |logged| < wal.limit then
                     wal.buffer == logged && forall t :: backend.Stored(t) == old(backend.Stored(t))
                   else
                     && wal.buffer == [] && wal.file.pending == []
                     && forall t :: backend.Stored(t) == old(backend.Stored(t)) + RecordsOf(logged, t)
    {
      var storedRecord: StoredRecord;
      var stored := ToStore(topic, record);
      match stored {
        case Success(accepted) => storedRecord := accepted;
        case Failure(e) => return Failure(e);
      }
      Accept(topic, storedRecord, s);
      r := Success(());
    }

    /** The record is logged, and published with all that was logged before if the buffer has reached the threshold. */
    method Accept(topic: Text, record: StoredRecord, ghost s: Broker)
      requires Represents(s)
      modifies backend, wal, wal.file
      ensures var s' := Append(s, Entry(topic, record));
              Represents(if |s'.buffer| >= wal.limit then FlushSpec(s') else s')
      ensures wal.file.durable + wal.file.pending
           == old(wal.file.durable + wal.file.pending) + SerializeEntry(Entry(topic, record))
      ensures var logged := old(wal.buffer) + [Entry(topic, record)];
              if |logged| < wal.limit then
                wal.buffer == logged && forall t :: backend.Stored(t) == old(backend.Stored(t))
              else
                && wal.buffer == [] && wal.file.pending == []
                && forall t :: backend.Stored(t) == old(backend.Stored(t)) + RecordsOf(logged, t)
    {
      Log(topic, record, s);
      var needed := wal.NeedToFlush();
      if needed {
        Publish(Append(s, Entry(topic, record)));
        assert wal.file.durable + [] == wal.file.durable;
      }
    }

    /** The form in which a record is stored, or its refusal. */
    method ToStore(topic: Text, record: seq<Byte>) returns (r: Result<StoredRecord, Error>)
      ensures r == Classify(topicMetadatas, topic, record)
      ensures topic in topicMetadatas && topicMetadatas[topic].schema.Some? && ValidUtf8(record) ==> r.Failure?
      ensures (topic in topicMetadatas ==> topicMetadatas[topic].schema == None) ==> r == Success(Raw(record))
    {
      if topic in topicMetadatas && topicMetadatas[topic].schema.Some? {
        if ValidUtf8(record) {
          TextRefused(topicMetadatas, topic, record);
        }
        match ParseRecordBatch(record, topicMetadatas[topic].schema.value) {
          case Success(batch) => r := Success(Batched(batch));
          case Failure(e) => r := Failure(e);
        }
      } else {
        r := Success(Raw(record));
      }
    }

    /** `self.wal.add`, seen from the broker's state. */
    method Log(topic: Text, record: StoredRecord, ghost s: Broker)
      requires Represents(s)
      modifies wal, wal.file
      ensures Represents(Append(s, Entry(topic, record)))
      ensures wal.file.durable + wal.file.pending
           == old(wal.file.durable + wal.file.pending) + SerializeEntry(Entry(topic, record))
      ensures wal.buffer == old(wal.buffer) + [Entry(topic, record)]
    {
      ghost var e := Entry(topic, record);
      WrittenBytes(s, e);
      WriterKeepsRoom(s, e);
      wal.Add(topic, record);
      AppendedAs(s, e, wal.file.durable, wal.file.pending);
    }

    /** `self.wal.flush`, seen from the broker's state. */
    method Publish(ghost s: Broker)
      requires Represents(s)
      modifies wal, wal.file, backend
      ensures Represents(FlushSpec(s))
      ensures wal.file.durable == old(wal.file.durable + wal.file.pending) && wal.file.pending == [] && wal.buffer == []
      ensures forall t :: backend.Stored(t) == old(backend.Stored(t)) + RecordsOf(old(wal.buffer), t)
    {
      wal.Flush(backend);
      ghost var s' := FlushSpec(s);
      FlushedBytes(s);
      forall t ensures RecordsOf(s'.published, t) == RecordsOf(s.published, t) + RecordsOf(s.buffer, t) {
        RecordsOfConcat(s.published, s.buffer, t);
      }
    }

    method Fetch(topic: Text, fetchOffset: int, ghost s: Broker) returns (records: seq<Byte>)
      requires Represents(s)
      modifies backend
      ensures Represents(s)
      ensures records == FetchSpec(RecordsOf(s.published, topic), fetchOffset)
    {
      records := backend.Fetch(topic, fetchOffset);
    }

    /** Replays the file into backend and metadata, as far as it parses. */
    method Recover() returns (r: Result<(), Error>)
      requires backend.Valid()
      modifies this, backend
      ensures backend.Valid()
      ensures var replay := ParseLog(wal.file.durable);
              && r == (if replay.error == None then Success(()) else Failure(replay.error.value))
              && topicMetadatas == ReplayMetadata(old(topicMetadatas), replay.entries)
              && forall t :: backend.Stored(t) == old(backend.Stored(t)) + RecordsOf(replay.entries, t)
      ensures forall es: seq<Entry> | AllFit(es) && wal.file.durable <= SerializeAll(es) ::
                RecoversFirst(es, wal.file.durable, r)
    {
      forall es: seq<Entry> | AllFit(es) && wal.file.durable <= SerializeAll(es)
        ensures RecoversFirst(es, wal.file.durable, Outcome(ParseLog(wal.file.durable)))
      {
        var k := PrefixRecovery(es, wal.file.durable);
      }
      var reader := wal.file.durable;
      ghost var whole := ParseLog(reader);
      ghost var replayed: seq<Entry> := [];
      assert forall t :: old(backend.Stored(t)) + [] == old(backend.Stored(t));
      while true
        invariant backend.Valid()
        invariant StillToReplay(whole, replayed, ParseLog(reader))
        invariant topicMetadatas == ReplayMetadata(old(topicMetadatas), replayed)
        invariant forall t :: backend.Stored(t) == old(backend.Stored(t)) + RecordsOf(replayed, t)
        decreases |reader|
      {
        NothingReplayed(replayed);
        var parsed := ReadEntry(reader);
        match parsed {
          case Finished => return Success(());
          case Broken(e) => return Failure(e);
          case Skipped(rest) => reader := rest;
          case Replayed(entry, rest) =>
            ConcatAssociates(replayed, [entry], ParseLog(rest).entries);
            forall t ensures old(backend.Stored(t)) + RecordsOf(replayed + [entry], t)
                          == backend.Stored(t) + (if t == entry.topic then [entry.record] else []) {
              RecordsOfSnoc(replayed, entry, t);
              ConcatAssociates(
                old(backend.Stored(t)), RecordsOf(replayed, t), if t == entry.topic then [entry.record] else []);
            }
            ReplaySnoc(old(topicMetadatas), replayed, entry);
            Restore(entry);
            replayed := replayed + [entry];
            reader := rest;
        }
      }
    }

    /** What the recovery loop does with an entry it has read. */
    method Restore(entry: Entry)
      requires backend.Valid()
      modifies this, backend
      ensures backend.Valid()
      ensures topicMetadatas == Note(old(topicMetadatas), entry)
      ensures forall t ::
                backend.Stored(t) == old(backend.Stored(t)) + (if t == entry.topic then [entry.record] else [])
    {
      if entry.record.Batched? {
        // An unknown topic is created with the schema of its first batch.
        var known := Exists(entry.topic);
        if !known {
          topicMetadatas :=
            topicMetadatas[entry.topic := TopicMetadata(entry.topic, Some(entry.record.batch.schema))];
        }
      }
      backend.Add(entry.topic, entry.record);
    }

    /** The reads of one iteration of the recovery loop. */
    static method ReadEntry(reader: seq<Byte>) returns (parsed: Parsed)
      ensures parsed == ParseEntry(reader)
    {
      if reader == [] {
        return Finished;
      }
      var (topic, rest) := ReadLine(reader);
      if !ValidUtf8(topic) {
        return Broken(FromUtf8);
      }
      if |rest| < 5 {
        return Broken(UnexpectedEof);
      }
      var indicator, size := rest[0], DecodeU32(rest[1..]);
      rest := rest[5..];
      if indicator != RAW_INDICATOR && indicator != BATCH_INDICATOR {
        return Broken(IndicatorError(indicator as int));
      }
      if |rest| < size {
        return Broken(UnexpectedEof);
      }
      var buf := rest[..size];
      rest := rest[size..];
      if indicator == RAW_INDICATOR {
        return Replayed(Entry(topic, Raw(buf)), rest);
      }
      match OpenStream(buf) {
        case Torn => parsed := Broken(ArrowError);
        case Got(schema, messages) =>
          match NextMessage(schema, messages) {
            case EndOfStream => parsed := Skipped(rest);
            case Malformed => parsed := Broken(ArrowError);
            case NextBatch(batch, _) => parsed := Replayed(Entry(topic, Batched(batch)), rest);
          }
      }
    }
  }

  /** The start of the server, up to the recovery of topics: over a log that ends between entries it succeeds. */
  method StartUp(contents: seq<Byte>, limit: nat) returns (tm: TopicManager, r: Result<(), Error>)
    ensures fresh(tm) && fresh(tm.backend) && fresh(tm.wal) && fresh(tm.wal.file) && tm.wal.limit == limit
    ensures r.Success? <==> ParseLog(contents).error == None
    ensures forall es | AllFit(es) && contents == SerializeAll(es) ::
              r.Success? && Restart(contents).wal == es && tm.Represents(Restart(contents))
  {
    tm := new TopicManager(contents, limit);
    r := tm.Recover();
    forall es | AllFit(es) && contents == SerializeAll(es)
      ensures r.Success? && Restart(contents).wal == es && tm.Represents(Restart(contents))
    {
      LogRoundTrip(es);
      assert es[..|es|] == es && es[|es|..] == [];
      assert forall t :: [] + RecordsOf(es, t) == RecordsOf(es, t);
    }
  }

  function Outcome(replay: Replay): Result<(), Error> {
    if replay.error == None then Success(()) else Failure(replay.error.value)
  }

  /**
   The file is the beginning of a log: recovery succeeds just when it ends between two entries, and otherwise reports
   the end of the input, or a topic that is no text when the cut is within a character of it.
   */
  ghost predicate RecoversFirst(es: seq<Entry>, file: seq<Byte>, r: Result<(), Error>) {
    exists k :: CompleteEntries(es, |file|, k) && EndsWith(es, k, file, r)
  }

  ghost predicate EndsWith(es: seq<Entry>, k: nat, file: seq<Byte>, r: Result<(), Error>) {
    && k <= |es| && SerializeAll(es[..k]) <= file
    && var torn := file[|SerializeAll(es[..k])|..];
       if torn == [] then r == Success(())
       else
         k < |es|
         && r == Failure(
                   if |torn| <= |es[k].topic| && !ValidUtf8(torn[..|torn| - 1]) then FromUtf8 else UnexpectedEof)
  }

  ghost predicate StillToReplay(whole: Replay, replayed: seq<Entry>, left: Replay) {
    whole == Replay(replayed + left.entries, left.error)
  }

  lemma NothingReplayed(replayed: seq<Entry>)
    ensures replayed + [] == replayed
  {
  }

  /** Bytes that join as the writer joins them, and end as it ends, are those of the log with `e` written. */
  lemma AppendedAs(s: Broker, e: Entry, durable: seq<Byte>, pending: seq<Byte>)
    requires WriterHolds(s)
    requires durable + pending == Durable(s) + Pending(s) + SerializeEntry(e)
    requires var bytes := SerializeEntry(e);
             pending == (if |bytes| >= WRITER_CAPACITY then []
                         else if |Pending(s)| + |bytes| > WRITER_CAPACITY then bytes
                         else Pending(s) + bytes)
    ensures var s' := Append(s, e);
            WriterHolds(s') && Durable(s') == durable && Pending(s') == pending
  {
    var s' := WriteSpec(s, e);
    WrittenBytes(s, e);
    WriterKeepsRoom(s, e);
    assert Durable(s') + Pending(s') == durable + pending by {
      ConcatAssociates(Durable(s), Pending(s), SerializeEntry(e));
      assert pending == [] ==> durable + pending == durable;
    }
    SameTail(Durable(s'), durable, pending);
    assert Durable(Append(s, e)) == Durable(s') && Pending(Append(s, e)) == Pending(s');
  }

  lemma FlushedBytes(s: Broker)
    requires s.synced <= |s.wal|
    ensures Durable(FlushSpec(s)) == Durable(s) + Pending(s) && Pending(FlushSpec(s)) == []
  {
    SerializeSplit(s.wal, s.synced);
    assert s.wal[..|s.wal|] == s.wal && s.wal[|s.wal|..] == [];
  }
}
