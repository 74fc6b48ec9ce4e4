/** The consumer protocol of `src/client.rs`: fetch the committed offset, fetch from there, advance, commit. */
module Clients {
  import opened Wrappers
  import opened Bytes
  import opened ArrowStream
  import opened Records
  import opened Sequences
  import opened ZeroFraming
  import opened OffsetStore
  import opened BrokerState
  import opened TopicManagers
  import opened Consumers

  /** The commit of a call: the group's offset becomes the one fetched from plus the rows, in memory and in the file. */
  ghost predicate Committed(
    offsets: map<Key, int>, key: Key, start: int, numRows: nat, offsets': map<Key, int>, file': Option<map<Text, int>>)
  {
    && offsets' == offsets[key := start + numRows]
    && file'.Some? && Collected(offsets', file'.value)
  }

  /** What a call leaves of the committed offsets, given the response it got to its fetch from `start`. */
  ghost predicate OffsetsFollow(
    call: Call, response: seq<Byte>, key: Key, start: int,
    offsets: map<Key, int>, file: Option<map<Text, int>>, offsets': map<Key, int>, file': Option<map<Text, int>>)
  {
    if Commits(call, response) then Committed(offsets, key, start, |Handed(call, response)|, offsets', file')
    else offsets' == offsets && file' == file
  }

  /** The first two exchanges of a consume: the committed offset, and the records from there. */
  method Request(tm: TopicManager, om: OffsetManager, topic: Text, consumerGroup: Text, ghost s: Broker)
    returns (initialOffset: int, records: seq<Byte>)
    requires tm.Represents(s)
    modifies tm.backend
    ensures tm.Represents(s)
    ensures initialOffset == OffsetOf(om.offsets, (consumerGroup, topic))
    ensures records == Response(s.published, topic, initialOffset)
  {
    initialOffset := om.GetOffset(consumerGroup, topic);
    records := tm.Fetch(topic, initialOffset, s);
  }

  method Consume(tm: TopicManager, om: OffsetManager, topic: Text, consumerGroup: Text, ghost s: Broker)
    returns (parts: seq<seq<Byte>>)
    requires tm.Represents(s)
    modifies tm.backend, om
    ensures tm.Represents(s)
    ensures var key := (consumerGroup, topic);
            var start := OffsetOf(old(om.offsets), key);
            var response := Response(s.published, topic, start);
            && parts == Parts(response)
            && OffsetsFollow(ConsumeText, response, key, start, old(om.offsets), old(om.file), om.offsets, om.file)
    ensures parts == [] ==> om.offsets == old(om.offsets) && om.file == old(om.file)
    ensures parts != [] ==>
              om.offsets[(consumerGroup, topic)] == OffsetOf(old(om.offsets), (consumerGroup, topic)) + |parts|
  {
    var initialOffset, records := Request(tm, om, topic, consumerGroup, s);
    if records == [] {
      return [];
    }
    parts := Split(records);
    Commit(om, topic, consumerGroup, initialOffset, |parts|);
  }

  method ConsumeRecordBatches(tm: TopicManager, om: OffsetManager, topic: Text, consumerGroup: Text, ghost s: Broker)
    returns (r: Result<seq<Batch>, Error>)
    requires tm.Represents(s)
    modifies tm.backend, om
    ensures tm.Represents(s)
    ensures var key := (consumerGroup, topic);
            var start := OffsetOf(old(om.offsets), key);
            var response := Response(s.published, topic, start);
            && r == (if response == [] then Success([]) else DecodeStream(response))
            && OffsetsFollow(ConsumeBatches, response, key, start, old(om.offsets), old(om.file), om.offsets, om.file)
            && (response != [] && response[0] != 0xFF ==> r == Failure(ArrowError))
    ensures TextNext(RecordsOf(s.published, topic), OffsetOf(old(om.offsets), (consumerGroup, topic))) ==>
              r == Failure(ArrowError)
    ensures r.Failure? ==> om.offsets == old(om.offsets) && om.file == old(om.file)
    ensures r.Success? && r.value != [] ==>
              om.offsets[(consumerGroup, topic)]
              == OffsetOf(old(om.offsets), (consumerGroup, topic)) + |RowsOfBatches(r.value)|
  {
    var initialOffset, records := Request(tm, om, topic, consumerGroup, s);
    if TextNext(RecordsOf(s.published, topic), initialOffset) {
      TextIsNoBatch(RecordsOf(s.published, topic), initialOffset);
    }
    if records == [] {
      return Success([]);
    }
    if records[0] != 0xFF {
      NoStreamFails(records);
    }
    var numRows: nat;
    r, numRows := ReadStream(records);
    if r.Failure? {
      return;
    }
    Commit(om, topic, consumerGroup, initialOffset, numRows);
  }

  /** One round of the loop of `consume_continuos`, from the offset its client has reached. */
  method ConsumeRound(
    tm: TopicManager, om: OffsetManager, topic: Text, consumerGroup: Text, start: int, ghost s: Broker)
    returns (r: Result<(), Error>, offset: int)
    requires tm.Represents(s)
    modifies tm.backend, om
    ensures tm.Represents(s)
    ensures var response := Response(s.published, topic, start);
            && r == (if response == [] || DecodeAny(response).Success? then Success(())
                     else Failure(DecodeAny(response).error))
            && offset == start + |Handed(ConsumeContinuously, response)|
            && OffsetsFollow(
                 ConsumeContinuously, response, (consumerGroup, topic), start,
                 old(om.offsets), old(om.file), om.offsets, om.file)
            && (response != [] && response[0] != 0xFF && !LooksLikeArrow(response) && !AllUtf8(Split(response)) ==>
                  r == Failure(FromUtf8))
    ensures r.Failure? ==> offset == start && om.offsets == old(om.offsets) && om.file == old(om.file)
  {
    offset := start;
    var records := tm.Fetch(topic, offset, s);
    if records == [] {
      return Success(()), offset;
    }
    var numRows: nat;
    r, numRows := ReadAny(records);
    if r.Failure? {
      return;
    }
    Commit(om, topic, consumerGroup, offset, numRows);
    offset := offset + numRows;
  }

  /** Batches or text, as the first bytes have it. */
  method ReadAny(records: seq<Byte>) returns (r: Result<(), Error>, numRows: nat)
    ensures DecodeAny(records).Failure? ==> r == Failure(DecodeAny(records).error)
    ensures DecodeAny(records).Success? ==> r == Success(()) && numRows == |DecodeAny(records).value|
  {
    if LooksLikeArrow(records) {
      var batches;
      batches, numRows := ReadStream(records);
      r := if batches.Failure? then Failure(batches.error) else Success(());
    } else {
      var parts := Split(records);
      r := CheckTexts(parts);
      numRows := |parts|;
    }
  }

  /** Turns part after part into a string. */
  method CheckTexts(parts: seq<seq<Byte>>) returns (r: Result<(), Error>)
    ensures r == if AllUtf8(parts) then Success(()) else Failure(FromUtf8)
  {
    for i := 0 to |parts|
      invariant AllUtf8(parts[..i])
    {
      if !ValidUtf8(parts[i]) {
        return Failure(FromUtf8);
      }
    }
    assert parts[..|parts|] == parts;
    r := Success(());
  }

  /** The last exchange of a call. */
  method Commit(om: OffsetManager, topic: Text, consumerGroup: Text, initialOffset: int, numRows: nat)
    modifies om
    ensures Committed(old(om.offsets), (consumerGroup, topic), initialOffset, numRows, om.offsets, om.file)
  {
    var offset := initialOffset;
    offset := offset + numRows;
    om.SetOffset(consumerGroup, topic, offset);
  }

  /** Reads batch after batch, and counts their rows. */
  method ReadStream(records: seq<Byte>) returns (r: Result<seq<Batch>, Error>, numRows: nat)
    ensures r == DecodeStream(records)
    ensures r.Success? ==> numRows == |RowsOfBatches(r.value)|
  {
    numRows := 0;
    match OpenStream(records) {
      case Torn => r := Failure(ArrowError);
      case Got(schema, messages) =>
        var batches: seq<Batch> := [];
        var reader := messages;
        PrependNone(ReadBatches(schema, messages));
        while true
          invariant numRows == |RowsOfBatches(batches)|
          invariant ReadBatches(schema, messages) == Prepend(batches, ReadBatches(schema, reader))
          decreases |reader|
        {
          match NextMessage(schema, reader) {
            case EndOfStream =>
              assert batches + [] == batches;
              return Success(batches), numRows;
            case Malformed =>
              return Failure(ArrowError), numRows;
            case NextBatch(batch, rest) =>
              PrependOne(batches, batch, ReadBatches(schema, rest));
              RowsOfBatchesSnoc(batches, batch);
              batches := batches + [batch];
              numRows := numRows + |batch.rows|;
              reader := rest;
          }
        }
    }
  }

  lemma PrependOne(batches: seq<Batch>, batch: Batch, later: Result<seq<Batch>, Error>)
    ensures Prepend(batches, Prepend([batch], later)) == Prepend(batches + [batch], later)
  {
    if later.Success? {
      ConcatAssociates(batches, [batch], later.value);
    }
  }

  lemma {:induction false} RowsOfBatchesSnoc(batches: seq<Batch>, batch: Batch)
    ensures RowsOfBatches(batches + [batch]) == RowsOfBatches(batches) + BatchRows(batch)
  {
    if batches == [] {
      assert [batch][1..] == [];
      assert [] + [batch] == [batch];
    } else {
      ConcatCons(batches, [batch]);
      RowsOfBatchesSnoc(batches[1..], batch);
      ConcatAssociates(BatchRows(batches[0]), RowsOfBatches(batches[1..]), BatchRows(batch));
    }
  }
}
