/** Stored records, log entries, and the flat sequence of rows that offsets count. */
module Records {
  import opened Bytes
  import opened ArrowStream
  import opened Sequences

  datatype StoredRecord = Raw(bytes: seq<Byte>) | Batched(batch: Batch)

  /** A record together with the topic it was added to: one entry of the write-ahead log. */
  datatype Entry = Entry(topic: Text, record: StoredRecord)

  /** The bytes of one record: raw bytes as they are, a batch as a stream of its own. */
  function Payload(r: StoredRecord): seq<Byte> {
    match r
    case Raw(bytes) => bytes
    case Batched(batch) => EncodeStream(batch.schema, [batch])
  }

  /** What one offset denotes: a raw record, or a single row of a batch. */
  datatype Row = RawRow(bytes: seq<Byte>) | BatchRow(schema: Schema, cells: Cells)

  function BatchRows(b: Batch): (rows: seq<Row>)
    ensures |rows| == |b.rows|
  {
    seq(|b.rows|, i requires 0 <= i < |b.rows| => BatchRow(b.schema, b.rows[i]))
  }

  function RowsOf(r: StoredRecord): seq<Row> {
    match r
    case Raw(bytes) => [RawRow(bytes)]
    case Batched(batch) => BatchRows(batch)
  }

  function NumRows(r: StoredRecord): nat {
    |RowsOf(r)|
  }

  /** The simple view of a topic: all its rows, one after the other. */
  function Flatten(rs: seq<StoredRecord>): seq<Row> {
    if rs == [] then [] else RowsOf(rs[0]) + Flatten(rs[1..])
  }

  /** The records of one topic, in log order. */
  function RecordsOf(es: seq<Entry>, topic: Text): seq<StoredRecord> {
    if es == [] then []
    else (if es[0].topic == topic then [es[0].record] else []) + RecordsOf(es[1..], topic)
  }

  /** The flat view of one topic in a log of entries. */
  function TopicRows(es: seq<Entry>, topic: Text): seq<Row> {
    Flatten(RecordsOf(es, topic))
  }

  lemma FlattenCons(r: StoredRecord, rs: seq<StoredRecord>)
    ensures Flatten([r] + rs) == RowsOf(r) + Flatten(rs)
  {
    ConcatCons([r], rs);
    assert [] + rs == rs;
  }

  lemma {:induction false} FlattenConcat(a: seq<StoredRecord>, b: seq<StoredRecord>)
    ensures Flatten(a + b) == Flatten(a) + Flatten(b)
  {
    if a == [] {
      assert a + b == b;
    } else {
      ConcatCons(a, b);
      FlattenConcat(a[1..], b);
      ConcatAssociates(RowsOf(a[0]), Flatten(a[1..]), Flatten(b));
    }
  }

  lemma FlattenSnoc(rs: seq<StoredRecord>, r: StoredRecord)
    ensures Flatten(rs + [r]) == Flatten(rs) + RowsOf(r)
  {
    FlattenConcat(rs, [r]);
    FlattenCons(r, []);
    assert [r] + [] == [r];
    assert RowsOf(r) + Flatten([]) == RowsOf(r);
  }

  lemma {:induction false} RecordsOfConcat(a: seq<Entry>, b: seq<Entry>, topic: Text)
    ensures RecordsOf(a + b, topic) == RecordsOf(a, topic) + RecordsOf(b, topic)
  {
    if a == [] {
      assert a + b == b;
    } else {
      ConcatCons(a, b);
      RecordsOfConcat(a[1..], b, topic);
      var head := if a[0].topic == topic then [a[0].record] else [];
      ConcatAssociates(head, RecordsOf(a[1..], topic), RecordsOf(b, topic));
    }
  }

  lemma RecordsOfSnoc(es: seq<Entry>, e: Entry, topic: Text)
    ensures RecordsOf(es + [e], topic) == RecordsOf(es, topic) + (if e.topic == topic then [e.record] else [])
  {
    RecordsOfConcat(es, [e], topic);
    assert RecordsOf([e][1..], topic) == [];
  }

  lemma RecordsOfPrefix(a: seq<Entry>, b: seq<Entry>, topic: Text)
    requires a <= b
    ensures RecordsOf(b, topic) == RecordsOf(a, topic) + RecordsOf(b[|a|..], topic)
  {
    assert b == a + b[|a|..];
    RecordsOfConcat(a, b[|a|..], topic);
  }

  /** A longer log has a longer flat view: rows keep their offsets. */
  lemma TopicRowsPrefix(a: seq<Entry>, b: seq<Entry>, topic: Text)
    requires a <= b
    ensures TopicRows(a, topic) <= TopicRows(b, topic)
  {
    RecordsOfPrefix(a, b, topic);
    FlattenConcat(RecordsOf(a, topic), RecordsOf(b[|a|..], topic));
  }

  /** Every record of a topic comes from an entry of that topic, and the entries keep their order. */
  lemma {:induction false} RecordOrigin(es: seq<Entry>, topic: Text, k: nat) returns (i: nat)
    requires k < |RecordsOf(es, topic)|
    ensures i < |es| && es[i].topic == topic && es[i].record == RecordsOf(es, topic)[k]
    ensures |RecordsOf(es[..i], topic)| == k
  {
    if es[0].topic == topic && k == 0 {
      i := 0;
    } else {
      var here := if es[0].topic == topic then 1 else 0;
      var j := RecordOrigin(es[1..], topic, k - here);
      i := j + 1;
      assert es[..i] == [es[0]] + es[1..][..j];
      assert es[..i][1..] == es[1..][..j];
    }
  }

  predicate AllRaw(rs: seq<StoredRecord>) {
    forall i | 0 <= i < |rs| :: rs[i].Raw?
  }

  predicate AllBatched(rs: seq<StoredRecord>) {
    forall i | 0 <= i < |rs| :: rs[i].Batched?
  }

  /** Batches only, and all of one schema. */
  predicate BatchedAs(rs: seq<StoredRecord>, schema: Schema) {
    forall i | 0 <= i < |rs| :: rs[i].Batched? && rs[i].batch.schema == schema
  }

  function RawBytes(rs: seq<StoredRecord>): (parts: seq<seq<Byte>>)
    requires AllRaw(rs)
    ensures |parts| == |rs|
    ensures forall i | 0 <= i < |rs| :: parts[i] == rs[i].bytes
  {
    seq(|rs|, i requires 0 <= i < |rs| => rs[i].bytes)
  }

  /** The batches among `rs`, in order. */
  function BatchesOf(rs: seq<StoredRecord>): seq<Batch> {
    if rs == [] then []
    else (if rs[0].Batched? then [rs[0].batch] else []) + BatchesOf(rs[1..])
  }
}
