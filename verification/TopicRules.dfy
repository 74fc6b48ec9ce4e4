/**
 Topic metadata: how it decides whether a record is stored raw or as a batch, how recovery
 infers it from the log, and what order of records it therefore enforces.
 */
module TopicRules {
  import opened Wrappers
  import opened Bytes
  import opened ArrowStream
  import opened Records
  import opened Sequences
  import opened LogStorage
  import opened ZeroFraming

  datatype TopicMetadata = TopicMetadata(name: Text, schema: Option<Schema>)

  type Metadata = map<Text, TopicMetadata>

  const FILE_MAGIC: seq<Byte> := [0x41, 0x52, 0x52, 0x4F, 0x57, 0x31]

  /** `parse_record_batch_from_bytes`: only the first batch of the stream is taken. */
  function ParseRecordBatch(record: seq<Byte>, expected: Schema): Result<Batch, Error> {
    if |record| < 8 then Failure(InvalidArrowIpc)
    else if record[..6] != FILE_MAGIC && record[..4] != CONTINUATION then Failure(InvalidArrowIpc)
    else
      match OpenStream(record)
      case Torn => Failure(ArrowError)
      case Got(schema, rest) =>
        match NextMessage(schema, rest)
        case EndOfStream => Failure(InvalidArrowIpc)
        case Malformed => Failure(ArrowError)
        case NextBatch(batch, _) =>
          if batch.schema != expected then Failure(SchemaError) else Success(batch)
  }

  /** The form in which `TopicManager::add` stores a record. */
  function Classify(metadata: Metadata, topic: Text, record: seq<Byte>): Result<StoredRecord, Error> {
    if topic in metadata && metadata[topic].schema.Some? then
      match ParseRecordBatch(record, metadata[topic].schema.value)
      case Failure(e) => Failure(e)
      case Success(batch) => Success(Batched(batch))
    else Success(Raw(record))
  }

  /**
   A stream of batches produced to a topic with a schema: its first batch is stored if the schema
   is the topic's, and refused otherwise. Further batches are dropped without an error.
   */
  lemma ProducedStream(metadata: Metadata, topic: Text, schema: Schema, batches: seq<Batch>)
    requires topic in metadata && metadata[topic].schema.Some? && OneSchema(batches, schema)
    ensures Classify(metadata, topic, EncodeStream(schema, batches))
         == if batches == [] then Failure(InvalidArrowIpc)
            else if schema != metadata[topic].schema.value then Failure(SchemaError)
            else Success(Batched(batches[0]))
  {
    var record := EncodeStream(schema, batches);
    assert |END_OF_STREAM| == 8 && record[..4] == CONTINUATION;
    OpenRoundTrip(schema, BatchMessages(batches) + END_OF_STREAM);
    FirstOfStream(schema, batches);
  }

  lemma FirstOfStream(schema: Schema, batches: seq<Batch>)
    requires OneSchema(batches, schema)
    ensures var first := NextMessage(schema, BatchMessages(batches) + END_OF_STREAM);
            if batches == [] then first == EndOfStream else first.NextBatch? && first.batch == batches[0]
  {
    var messages := BatchMessages(batches) + END_OF_STREAM;
    if batches == [] {
      assert messages == END_OF_STREAM;
      assert END_OF_STREAM[..8] == END_OF_STREAM;
    } else {
      var rest := BatchMessages(batches[1..]) + END_OF_STREAM;
      assert messages == BatchMessage(batches[0].rows) + rest;
      NextRoundTrip(schema, batches[0].rows, rest);
      assert batches[0] == Batch(schema, batches[0].rows);
    }
  }

  /**
   A topic with a schema refuses what does not begin as a stream: text, above all. Only what begins like an Arrow
   file is tried, and then found to be no stream.
   */
  lemma NoStreamRefused(metadata: Metadata, topic: Text, record: seq<Byte>)
    requires topic in metadata && metadata[topic].schema.Some?
    requires |record| < 8 || record[..4] != [0xFF, 0xFF, 0xFF, 0xFF]
    ensures Classify(metadata, topic, record)
         == Failure(if |record| >= 8 && record[..6] == [0x41, 0x52, 0x52, 0x4F, 0x57, 0x31] then ArrowError
                    else InvalidArrowIpc)
  {
  }

  lemma TextRefused(metadata: Metadata, topic: Text, record: seq<Byte>)
    requires topic in metadata && metadata[topic].schema.Some? && ValidUtf8(record)
    ensures Classify(metadata, topic, record).Failure?
  {
    if record != [] {
      assert SequenceLength(record) > 0;
      assert |record| >= 4 ==> record[..4][0] == record[0];
    }
    NoStreamRefused(metadata, topic, record);
  }

  /** A stream cut before the end of its first batch is refused as well, as empty if the batch is missing whole. */
  lemma CutStreamRefused(metadata: Metadata, topic: Text, batch: Batch, head: seq<Byte>, tail: seq<Byte>)
    requires topic in metadata && metadata[topic].schema.Some?
    requires head + tail == EncodeStream(batch.schema, [batch]) && |tail| > |END_OF_STREAM|
    ensures var size := |SchemaMessage(batch.schema)|;
            Classify(metadata, topic, head)
            == Failure(if |head| < 8 || size <= |head| < size + 4 then InvalidArrowIpc else ArrowError)
  {
    CutStream(batch, head, tail);
    assert |head| >= 4 ==> head[..4] == EncodeStream(batch.schema, [batch])[..4] == CONTINUATION;
  }

  /** A record is stored raw, and then as it came, exactly if its topic is unknown or was created without a schema. */
  lemma StoredAsItCame(metadata: Metadata, topic: Text, record: seq<Byte>)
    ensures (topic in metadata ==> metadata[topic].schema == None) ==>
              Classify(metadata, topic, record) == Success(Raw(record))
    ensures topic in metadata && metadata[topic].schema.Some? ==>
              Classify(metadata, topic, record).Failure? || Classify(metadata, topic, record).value.Batched?
  {
  }

  // ---------- The order the rules enforce ----------

  /** The metadata allows the entry to be appended. */
  ghost predicate Conforms(metadata: Metadata, e: Entry) {
    match e.record
    case Raw(_) => e.topic in metadata ==> metadata[e.topic].schema == None
    case Batched(batch) => e.topic in metadata && metadata[e.topic].schema == Some(batch.schema)
  }

  lemma ClassifiedConforms(metadata: Metadata, topic: Text, record: seq<Byte>)
    requires Classify(metadata, topic, record).Success?
    ensures Conforms(metadata, Entry(topic, Classify(metadata, topic, record).value))
  {
  }

  /** Every batch has the schema its topic's metadata names. */
  ghost predicate BatchesTyped(es: seq<Entry>, metadata: Metadata) {
    forall i | 0 <= i < |es| && es[i].record.Batched? :: Conforms(metadata, es[i])
  }

  ghost predicate NoRawAfterBatch(es: seq<Entry>) {
    forall i, j | 0 <= i < j < |es| && es[i].topic == es[j].topic && es[i].record.Batched? :: es[j].record.Batched?
  }

  ghost predicate WellNamed(metadata: Metadata) {
    forall topic | topic in metadata :: metadata[topic].name == topic
  }

  ghost predicate TopicsOrdered(es: seq<Entry>, metadata: Metadata) {
    BatchesTyped(es, metadata) && NoRawAfterBatch(es) && WellNamed(metadata)
  }

  lemma AppendKeepsOrder(es: seq<Entry>, metadata: Metadata, e: Entry)
    requires TopicsOrdered(es, metadata) && Conforms(metadata, e)
    ensures TopicsOrdered(es + [e], metadata)
  {
    var es' := es + [e];
    forall i, j | 0 <= i < j < |es'| && es'[i].topic == es'[j].topic && es'[i].record.Batched?
      ensures es'[j].record.Batched?
    {
      assert es'[i] == es[i] && Conforms(metadata, es[i]);
    }
  }

  lemma CreateKeepsOrder(es: seq<Entry>, metadata: Metadata, topic: Text, schema: Option<Schema>)
    requires TopicsOrdered(es, metadata) && topic !in metadata
    ensures TopicsOrdered(es, metadata[topic := TopicMetadata(topic, schema)])
  {
    var metadata' := metadata[topic := TopicMetadata(topic, schema)];
    forall i | 0 <= i < |es| && es[i].record.Batched? ensures Conforms(metadata', es[i]) {
      assert Conforms(metadata, es[i]);
    }
  }

  lemma PrefixKeepsOrder(es: seq<Entry>, metadata: Metadata, k: nat)
    requires TopicsOrdered(es, metadata) && k <= |es|
    ensures TopicsOrdered(es[..k], metadata)
  {
  }

  /** In an ordered log the records of a topic are raw records followed by batches of the one schema in the metadata. */
  lemma StoredRawThenBatches(es: seq<Entry>, metadata: Metadata, topic: Text)
    returns (raws: seq<StoredRecord>, batched: seq<StoredRecord>)
    requires TopicsOrdered(es, metadata)
    ensures RecordsOf(es, topic) == raws + batched
    ensures AllRaw(raws)
    ensures batched != [] ==>
              topic in metadata && metadata[topic].schema.Some? && BatchedAs(batched, metadata[topic].schema.value)
  {
    var rs := RecordsOf(es, topic);
    var m := 0;
    while m < |rs| && rs[m].Raw?
      invariant m <= |rs| && forall i | 0 <= i < m :: rs[i].Raw?
    {
      m := m + 1;
    }
    raws, batched := rs[..m], rs[m..];
    forall i | 0 <= i < |batched|
      ensures batched[i].Batched? && topic in metadata && metadata[topic].schema == Some(batched[i].batch.schema)
    {
      BatchAfterBatch(es, metadata, topic, m, m + i);
    }
  }

  lemma BatchAfterBatch(es: seq<Entry>, metadata: Metadata, topic: Text, j: nat, k: nat)
    requires TopicsOrdered(es, metadata)
    requires j <= k < |RecordsOf(es, topic)| && RecordsOf(es, topic)[j].Batched?
    ensures RecordsOf(es, topic)[k].Batched? && topic in metadata
    ensures metadata[topic].schema == Some(RecordsOf(es, topic)[k].batch.schema)
  {
    var a, b := OriginsInOrder(es, topic, j, k);
    assert Conforms(metadata, es[b]);
  }

  lemma OriginsInOrder(es: seq<Entry>, topic: Text, j: nat, k: nat) returns (a: nat, b: nat)
    requires j <= k < |RecordsOf(es, topic)|
    ensures a <= b < |es| && es[a].topic == topic && es[b].topic == topic
    ensures es[a].record == RecordsOf(es, topic)[j] && es[b].record == RecordsOf(es, topic)[k]
  {
    a := RecordOrigin(es, topic, j);
    b := a;
    if j < k {
      b := RecordOrigin(es, topic, k);
      if b < a {
        RecordsOfMonotone(es, topic, b, a);
      }
    }
  }

  lemma RecordsOfMonotone(es: seq<Entry>, topic: Text, b: nat, a: nat)
    requires b <= a <= |es|
    ensures |RecordsOf(es[..b], topic)| <= |RecordsOf(es[..a], topic)|
  {
    assert es[..a] == es[..b] + es[b..a];
    RecordsOfConcat(es[..b], es[b..a], topic);
  }

  lemma {:induction false} DropOrdered(raws: seq<StoredRecord>, batched: seq<StoredRecord>, k: nat)
    requires AllRaw(raws) && AllBatched(batched)
    ensures AllBatched(DropRows(batched, if k <= |raws| then 0 else k - |raws|))
    ensures DropRows(raws + batched, k)
         == if k < |raws| then raws[k..] + batched else DropRows(batched, k - |raws|)
  {
    DropKeepsBatched(batched, if k <= |raws| then 0 else k - |raws|);
    if raws == [] {
      assert raws + batched == batched;
    } else if k == 0 {
      ConcatCons(raws, batched);
      assert DropFrom(raws[0], 0) == raws[0];
    } else {
      ConcatCons(raws, batched);
      DropOrdered(raws[1..], batched, k - 1);
      assert k < |raws| ==> raws[1..][k - 1..] == raws[k..];
    }
  }

  lemma {:induction false} DropKeepsBatched(batched: seq<StoredRecord>, k: nat)
    requires AllBatched(batched)
    ensures AllBatched(DropRows(batched, k))
  {
    if batched != [] && NumRows(batched[0]) <= k {
      DropKeepsBatched(batched[1..], k - NumRows(batched[0]));
    }
  }

  /**
   What a fetch returns from a topic in this order: the raw records from `k` on joined by zero bytes, a zero
   byte, and the batches as one stream; or the batches alone, the first of them cut where the offset falls.
   */
  lemma FetchOrdered(raws: seq<StoredRecord>, batched: seq<StoredRecord>, k: nat)
    requires AllRaw(raws) && AllBatched(batched)
    ensures FetchSpec(raws + batched, k)
         == if k < |raws| then
              Join(RawBytes(raws[k..])) + (if batched != [] then [ZERO] else []) + RenderBatches(BatchesOf(batched))
            else
              RenderBatches(BatchesOf(DropRows(batched, k - |raws|)))
  {
    DropOrdered(raws, batched, k);
    if k < |raws| {
      RenderOrdered(raws[k..], batched);
    } else {
      var left := DropRows(batched, k - |raws|);
      BatchesOfBatched(left);
      assert [] + RenderBatches(BatchesOf(left)) == RenderBatches(BatchesOf(left));
    }
  }

  // ---------- What recovery infers ----------

  /** A replayed batch creates its topic if it is missing; a replayed raw record creates nothing. */
  function Note(metadata: Metadata, e: Entry): Metadata {
    if e.record.Batched? && e.topic !in metadata then
      metadata[e.topic := TopicMetadata(e.topic, Some(e.record.batch.schema))]
    else metadata
  }

  function ReplayMetadata(metadata: Metadata, es: seq<Entry>): Metadata {
    if es == [] then metadata else Note(ReplayMetadata(metadata, es[..|es| - 1]), es[|es| - 1])
  }

  lemma ReplaySnoc(metadata: Metadata, es: seq<Entry>, e: Entry)
    ensures ReplayMetadata(metadata, es + [e]) == Note(ReplayMetadata(metadata, es), e)
  {
    assert (es + [e])[..|es|] == es;
  }

  predicate HasBatch(es: seq<Entry>, topic: Text) {
    exists i | 0 <= i < |es| :: es[i].topic == topic && es[i].record.Batched?
  }

  function WithBatches(metadata: Metadata, es: seq<Entry>): Metadata {
    map topic | topic in metadata && HasBatch(es, topic) :: metadata[topic]
  }

  /** Recovered metadata is the live metadata restricted to the topics with a batch among the recovered entries. */
  lemma {:induction false} RecoveredMetadata(es: seq<Entry>, metadata: Metadata)
    requires TopicsOrdered(es, metadata)
    ensures ReplayMetadata(map[], es) == WithBatches(metadata, es)
  {
    if es != [] {
      var front, e := es[..|es| - 1], es[|es| - 1];
      PrefixKeepsOrder(es, metadata, |front|);
      RecoveredMetadata(front, metadata);
      assert e.record.Batched? ==> Conforms(metadata, e);
      forall topic ensures HasBatch(es, topic) <==> HasBatch(front, topic) || (e.record.Batched? && e.topic == topic) {
        HasBatchSnoc(es, topic);
      }
    }
  }

  lemma HasBatchSnoc(es: seq<Entry>, topic: Text)
    requires es != []
    ensures HasBatch(es, topic)
       <==> HasBatch(es[..|es| - 1], topic) || (es[|es| - 1].record.Batched? && es[|es| - 1].topic == topic)
  {
    var front := es[..|es| - 1];
    if HasBatch(front, topic) {
      var i :| 0 <= i < |front| && front[i].topic == topic && front[i].record.Batched?;
      assert es[i] == front[i];
    }
    if HasBatch(es, topic) {
      var i :| 0 <= i < |es| && es[i].topic == topic && es[i].record.Batched?;
      assert i < |front| ==> front[i] == es[i];
    }
  }

  lemma RecoveryKeepsOrder(es: seq<Entry>, metadata: Metadata)
    requires TopicsOrdered(es, metadata)
    ensures TopicsOrdered(es, ReplayMetadata(map[], es))
  {
    RecoveredMetadata(es, metadata);
    forall i | 0 <= i < |es| && es[i].record.Batched?
      ensures Conforms(WithBatches(metadata, es), es[i])
    {
      assert Conforms(metadata, es[i]) && HasBatch(es, es[i].topic);
    }
  }
}
