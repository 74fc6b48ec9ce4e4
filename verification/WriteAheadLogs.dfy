/** The write-ahead log of `src/wal.rs`, over a buffered writer to a file. */
module WriteAheadLogs {
  import opened Bytes
  import opened ArrowStream
  import opened Records
  import opened WalFormat
  import opened Sequences
  import opened LogStorage

  /**
   Rust's `BufWriter<File>` over a file opened for appending, with writes to the file that take everything: data that
   does not fit empties the writer first, and data that would fill it goes straight to the file.
   */
  class BufWriter {
    /** What the file holds. */
    var durable: seq<Byte>
    /** What the writer still buffers. */
    var pending: seq<Byte>
    const capacity: nat

    constructor (contents: seq<Byte>, capacity: nat)
      ensures durable == contents && pending == [] && this.capacity == capacity
    {
      durable, pending, this.capacity := contents, [], capacity;
    }

    method Write(data: seq<Byte>)
      modifies this
      ensures durable + pending == old(durable + pending) + data
      ensures old(|pending|) <= capacity ==> |pending| <= capacity
      ensures pending == if |data| >= capacity then []
                         else if old(|pending|) + |data| > capacity then data
                         else old(pending) + data
    {
      if |pending| + |data| < capacity {
        ConcatAssociates(durable, pending, data);
        pending := pending + data;
      } else {
        if |pending| + |data| > capacity {
          durable, pending := durable + pending, [];
        }
        if |data| >= capacity {
          assert pending == [] ==> durable + pending == durable;
          durable := durable + pending + data;
          pending := [];
        } else {
          ConcatAssociates(durable, pending, data);
          assert pending == [] ==> pending + data == data;
          pending := pending + data;
        }
      }
    }

    method Flush()
      modifies this
      ensures durable == old(durable + pending) && pending == []
    {
      durable, pending := durable + pending, [];
    }
  }

  class WriteAheadLog {
    const file: BufWriter
    var buffer: seq<Entry>
    /** `num_uncommitted_messages` of the configuration. */
    const limit: nat

    constructor (contents: seq<Byte>, limit: nat)
      ensures fresh(file) && file.durable == contents && file.pending == [] && file.capacity == 8192
      ensures buffer == [] && this.limit == limit
    {
      file := new BufWriter(contents, WRITER_CAPACITY);
      buffer, this.limit := [], limit;
    }

    method Add(topic: Text, records: StoredRecord)
      modifies this, file
      ensures var bytes := SerializeEntry(Entry(topic, records));
              && file.durable + file.pending == old(file.durable + file.pending) + bytes
              && file.pending == if |bytes| >= file.capacity then []
                                 else if old(|file.pending|) + |bytes| > file.capacity then bytes
                                 else old(file.pending) + bytes
      ensures buffer == old(buffer) + [Entry(topic, records)]
    {
      var bytes := Serialize(topic, records);
      file.Write(bytes);
      buffer := buffer + [Entry(topic, records)];
    }

    method Serialize(topic: Text, records: StoredRecord) returns (bytes: seq<Byte>)
      ensures bytes == SerializeEntry(Entry(topic, records))
      ensures match records
              case Raw(raw) => LaidOut(bytes, topic, 0, raw)
              case Batched(batch) => LaidOut(bytes, topic, 1, EncodeStream(batch.schema, [batch]))
    {
      EntryLaidOut(Entry(topic, records));
      bytes := topic;
      bytes := bytes + [NEWLINE];
      var payload: seq<Byte>;
      match records {
        case Raw(raw) =>
          bytes := bytes + [RAW_INDICATOR];
          payload := raw;
        case Batched(batch) =>
          bytes := bytes + [BATCH_INDICATOR];
          payload := EncodeStream(batch.schema, [batch]);
      }
      bytes := bytes + EncodeU32(|payload|);
      bytes := bytes + payload;
      assert payload == Payload(records);
      SerializedInSteps(topic, records);
    }

    /** First the file, then the backend: the moment records become visible. */
    method Flush(backend: InMemoryLog)
      requires backend.Valid()
      modifies this, file, backend
      ensures backend.Valid()
      ensures file.durable == old(file.durable + file.pending) && file.pending == []
      ensures buffer == []
      ensures forall t :: backend.Stored(t) == old(backend.Stored(t)) + RecordsOf(old(buffer), t)
    {
      file.Flush();
      ghost var drained: seq<Entry> := [];
      assert forall t :: old(backend.Stored(t)) + [] == old(backend.Stored(t));
      while buffer != []
        invariant backend.Valid()
        invariant old(buffer) == drained + buffer
        invariant file.durable == old(file.durable + file.pending) && file.pending == []
        invariant forall t :: backend.Stored(t) == old(backend.Stored(t)) + RecordsOf(drained, t)
        decreases |buffer|
      {
        var entry := buffer[0];
        forall t ensures RecordsOf(drained + [entry], t)
                      == RecordsOf(drained, t) + (if entry.topic == t then [entry.record] else []) {
          RecordsOfSnoc(drained, entry, t);
        }
        backend.Add(entry.topic, entry.record);
        buffer := buffer[1..];
        drained := drained + [entry];
      }
      assert drained + [] == drained;
    }

    method NeedToFlush() returns (needed: bool)
      ensures needed <==> |buffer| >= limit
    {
      needed := |buffer| >= limit;
    }
  }

  lemma SerializedInSteps(topic: Text, records: StoredRecord)
    ensures topic + [NEWLINE] + [Indicator(records)] + EncodeU32(|Payload(records)|) + Payload(records)
         == SerializeEntry(Entry(topic, records))
  {
    var size, payload := EncodeU32(|Payload(records)|), Payload(records);
    ConcatAssociates(topic, [NEWLINE], [Indicator(records)] + (size + payload));
    ConcatAssociates(topic + [NEWLINE], [Indicator(records)], size + payload);
    ConcatAssociates(topic + [NEWLINE] + [Indicator(records)], size, payload);
  }
}
