/**
 A small stand-in for the Arrow IPC streaming format: a schema message, one message per
 record batch, and an end-of-stream marker. Messages open with the continuation marker
 0xFFFFFFFF, as the real ones do. Lengths are unbounded, so every batch has an encoding.
 */
module ArrowStream {
  import opened Wrappers
  import opened Bytes
  import opened Sequences

  datatype Schema = Schema(description: seq<Byte>)

  /** The cells of one row, as bytes. */
  type Cells = seq<Byte>

  datatype Batch = Batch(schema: Schema, rows: seq<Cells>) {
    /** `RecordBatch::slice`, which panics outside the bounds required here. */
    function Slice(offset: nat, length: nat): Batch
      requires offset + length <= |rows|
    {
      Batch(schema, rows[offset..offset + length])
    }
  }

  datatype Read<+T> = Got(value: T, rest: seq<Byte>) | Torn

  const CONTINUATION: seq<Byte> := [0xFF, 0xFF, 0xFF, 0xFF]
  const SCHEMA_TAG: Byte := 1
  const BATCH_TAG: Byte := 2
  const END_OF_STREAM: seq<Byte> := [0xFF, 0xFF, 0xFF, 0xFF, 0, 0, 0, 0]

  // ---------- Self-delimiting numbers, byte strings and row lists ----------

  function EncodeNat(n: nat): seq<Byte> {
    if n < 0x80 then [n as Byte] else [(0x80 + n % 0x80) as Byte] + EncodeNat(n / 0x80)
  }

  function DecodeNat(s: seq<Byte>): (r: Read<nat>)
    ensures r.Got? ==> |r.rest| < |s|
  {
    if s == [] then Torn
    else if s[0] < 0x80 then Got(s[0] as nat, s[1..])
    else
      match DecodeNat(s[1..])
      case Torn => Torn
      case Got(high, rest) => Got(0x80 * high + (s[0] as nat - 0x80), rest)
  }

  function EncodeBytes(b: seq<Byte>): seq<Byte> {
    EncodeNat(|b|) + b
  }

  function DecodeBytes(s: seq<Byte>): (r: Read<seq<Byte>>)
    ensures r.Got? ==> |r.rest| < |s|
  {
    match DecodeNat(s)
    case Torn => Torn
    case Got(n, rest) => if |rest| < n then Torn else Got(rest[..n], rest[n..])
  }

  function EncodeRows(rows: seq<Cells>): seq<Byte> {
    if rows == [] then [] else EncodeBytes(rows[0]) + EncodeRows(rows[1..])
  }

  function DecodeRows(count: nat, s: seq<Byte>): (r: Read<seq<Cells>>)
    ensures r.Got? ==> |r.rest| <= |s|
  {
    if count == 0 then Got([], s)
    else
      match DecodeBytes(s)
      case Torn => Torn
      case Got(row, rest) =>
        match DecodeRows(count - 1, rest)
        case Torn => Torn
        case Got(rows, rest') => Got([row] + rows, rest')
  }

  lemma {:induction false} NatRoundTrip(n: nat, rest: seq<Byte>)
    ensures DecodeNat(EncodeNat(n) + rest) == Got(n, rest)
  {
    var s := EncodeNat(n) + rest;
    if n < 0x80 {
      assert s[1..] == rest;
    } else {
      assert s[1..] == EncodeNat(n / 0x80) + rest;
      NatRoundTrip(n / 0x80, rest);
    }
  }

  lemma {:induction false} NatExtends(s: seq<Byte>, more: seq<Byte>)
    requires DecodeNat(s).Got?
    ensures DecodeNat(s + more) == Got(DecodeNat(s).value, DecodeNat(s).rest + more)
  {
    assert (s + more)[1..] == s[1..] + more;
    if s[0] >= 0x80 {
      NatExtends(s[1..], more);
    }
  }

  lemma BytesRoundTrip(b: seq<Byte>, rest: seq<Byte>)
    ensures DecodeBytes(EncodeBytes(b) + rest) == Got(b, rest)
  {
    assert EncodeBytes(b) + rest == EncodeNat(|b|) + (b + rest);
    NatRoundTrip(|b|, b + rest);
  }

  lemma BytesExtends(s: seq<Byte>, more: seq<Byte>)
    requires DecodeBytes(s).Got?
    ensures DecodeBytes(s + more) == Got(DecodeBytes(s).value, DecodeBytes(s).rest + more)
  {
    NatExtends(s, more);
    var n, rest := DecodeNat(s).value, DecodeNat(s).rest;
    assert (rest + more)[..n] == rest[..n] && (rest + more)[n..] == rest[n..] + more;
  }

  lemma {:induction false} RowsRoundTrip(rows: seq<Cells>, rest: seq<Byte>)
    ensures DecodeRows(|rows|, EncodeRows(rows) + rest) == Got(rows, rest)
  {
    if rows == [] {
      assert EncodeRows(rows) + rest == rest;
    } else {
      assert EncodeRows(rows) + rest == EncodeBytes(rows[0]) + (EncodeRows(rows[1..]) + rest);
      BytesRoundTrip(rows[0], EncodeRows(rows[1..]) + rest);
      RowsRoundTrip(rows[1..], rest);
      assert [rows[0]] + rows[1..] == rows;
    }
  }

  lemma {:induction false} RowsExtends(count: nat, s: seq<Byte>, more: seq<Byte>)
    requires DecodeRows(count, s).Got?
    ensures DecodeRows(count, s + more) == Got(DecodeRows(count, s).value, DecodeRows(count, s).rest + more)
  {
    if count > 0 {
      BytesExtends(s, more);
      RowsExtends(count - 1, DecodeBytes(s).rest, more);
    }
  }

  // ---------- Streams ----------

  function SchemaMessage(schema: Schema): seq<Byte> {
    CONTINUATION + [SCHEMA_TAG] + EncodeBytes(schema.description)
  }

  function BatchMessage(rows: seq<Cells>): seq<Byte> {
    CONTINUATION + [BATCH_TAG] + (EncodeNat(|rows|) + EncodeRows(rows))
  }

  function BatchMessages(batches: seq<Batch>): seq<Byte> {
    if batches == [] then [] else BatchMessage(batches[0].rows) + BatchMessages(batches[1..])
  }

  /** A `StreamWriter` over `schema`, a `write` per batch, `finish`. The schemas of the batches are not looked at. */
  function EncodeStream(schema: Schema, batches: seq<Batch>): seq<Byte> {
    SchemaMessage(schema) + (BatchMessages(batches) + END_OF_STREAM)
  }

  /** `StreamReader::try_new`: reads the schema message. */
  function OpenStream(s: seq<Byte>): (r: Read<Schema>)
    ensures r.Got? ==> |r.rest| < |s|
  {
    if |s| < 5 || s[..4] != CONTINUATION || s[4] != SCHEMA_TAG then Torn
    else
      match DecodeBytes(s[5..])
      case Torn => Torn
      case Got(description, rest) => Got(Schema(description), rest)
  }

  datatype Next = NextBatch(batch: Batch, rest: seq<Byte>) | EndOfStream | Malformed

  /** `StreamReader::next`. Running out of input in place of a marker ends the stream, as in Arrow. */
  function NextMessage(schema: Schema, s: seq<Byte>): (r: Next)
    ensures r.NextBatch? ==> |r.rest| < |s| && r.batch.schema == schema
  {
    if |s| < 4 || (|s| >= 8 && s[..8] == END_OF_STREAM) then EndOfStream
    else if |s| < 5 || s[..4] != CONTINUATION || s[4] != BATCH_TAG then Malformed
    else
      match DecodeNat(s[5..])
      case Torn => Malformed
      case Got(count, rest) =>
        match DecodeRows(count, rest)
        case Torn => Malformed
        case Got(rows, rest') => NextBatch(Batch(schema, rows), rest')
  }

  /** The batches a client collects from an opened stream, or an error. */
  function ReadBatches(schema: Schema, s: seq<Byte>): Result<seq<Batch>, Error>
    decreases |s|
  {
    match NextMessage(schema, s)
    case EndOfStream => Success([])
    case Malformed => Failure(ArrowError)
    case NextBatch(batch, rest) =>
      match ReadBatches(schema, rest)
      case Failure(e) => Failure(e)
      case Success(batches) => Success([batch] + batches)
  }

  function DecodeStream(s: seq<Byte>): Result<seq<Batch>, Error> {
    match OpenStream(s)
    case Torn => Failure(ArrowError)
    case Got(schema, rest) => ReadBatches(schema, rest)
  }

  ghost predicate OneSchema(batches: seq<Batch>, schema: Schema) {
    forall i | 0 <= i < |batches| :: batches[i].schema == schema
  }

  lemma OpenRoundTrip(schema: Schema, rest: seq<Byte>)
    ensures OpenStream(SchemaMessage(schema) + rest) == Got(schema, rest)
  {
    var s := SchemaMessage(schema) + rest;
    assert s[..4] == CONTINUATION && s[4] == SCHEMA_TAG;
    assert s[5..] == EncodeBytes(schema.description) + rest;
    BytesRoundTrip(schema.description, rest);
  }

  lemma OpenExtends(s: seq<Byte>, more: seq<Byte>)
    requires OpenStream(s).Got?
    ensures OpenStream(s + more) == Got(OpenStream(s).value, OpenStream(s).rest + more)
  {
    assert (s + more)[..4] == s[..4] && (s + more)[4] == s[4] && (s + more)[5..] == s[5..] + more;
    BytesExtends(s[5..], more);
  }

  lemma NextRoundTrip(schema: Schema, rows: seq<Cells>, rest: seq<Byte>)
    ensures NextMessage(schema, BatchMessage(rows) + rest) == NextBatch(Batch(schema, rows), rest)
  {
    var s := BatchMessage(rows) + rest;
    assert s[..4] == CONTINUATION && s[4] == BATCH_TAG;
    assert s[5..] == EncodeNat(|rows|) + (EncodeRows(rows) + rest);
    assert |s| >= 8 ==> s[..8][4] != END_OF_STREAM[4];
    NatRoundTrip(|rows|, EncodeRows(rows) + rest);
    RowsRoundTrip(rows, rest);
  }

  lemma NextExtends(schema: Schema, s: seq<Byte>, more: seq<Byte>)
    requires NextMessage(schema, s).NextBatch?
    ensures NextMessage(schema, s + more)
         == NextBatch(NextMessage(schema, s).batch, NextMessage(schema, s).rest + more)
  {
    var t := s + more;
    assert t[..4] == s[..4] && t[4] == s[4] && t[5..] == s[5..] + more;
    assert |t| >= 8 ==> t[..8][4] == BATCH_TAG;
    NatExtends(s[5..], more);
    RowsExtends(DecodeNat(s[5..]).value, DecodeNat(s[5..]).rest, more);
  }

  /** Bytes that do not begin as a message does are no stream. */
  lemma NoStream(s: seq<Byte>)
    requires s == [] || s[0] != 0xFF
    ensures OpenStream(s) == Torn && DecodeStream(s) == Failure(ArrowError)
  {
    assert |s| >= 4 ==> s[..4][0] == s[0];
  }

  function Prepend(batches: seq<Batch>, later: Result<seq<Batch>, Error>): Result<seq<Batch>, Error> {
    match later
    case Failure(e) => Failure(e)
    case Success(more) => Success(batches + more)
  }

  lemma {:induction false} ReadThrough(schema: Schema, batches: seq<Batch>, tail: seq<Byte>)
    requires OneSchema(batches, schema)
    ensures ReadBatches(schema, BatchMessages(batches) + tail) == Prepend(batches, ReadBatches(schema, tail))
  {
    if batches == [] {
      assert BatchMessages(batches) + tail == tail;
      PrependNone(ReadBatches(schema, tail));
    } else {
      var rest := BatchMessages(batches[1..]) + tail;
      assert BatchMessages(batches) + tail == BatchMessage(batches[0].rows) + rest;
      NextRoundTrip(schema, batches[0].rows, rest);
      assert batches[0] == Batch(schema, batches[0].rows);
      ReadThrough(schema, batches[1..], tail);
      PrependHead(batches, ReadBatches(schema, tail));
    }
  }

  lemma PrependNone(later: Result<seq<Batch>, Error>)
    ensures Prepend([], later) == later
  {
    if later.Success? {
      assert [] + later.value == later.value;
    }
  }

  lemma PrependHead(batches: seq<Batch>, later: Result<seq<Batch>, Error>)
    requires batches != []
    ensures Prepend(batches, later) == Prepend([batches[0]], Prepend(batches[1..], later))
  {
    if later.Success? {
      assert batches + later.value == [batches[0]] + (batches[1..] + later.value);
    }
  }

  /**
   What a client reads of batches that are followed by anything: the end marker ends the stream and nothing behind it is
   looked at, so does the end of the input, and anything else that is no message is an error for the whole call.
   */
  lemma StreamThen(schema: Schema, batches: seq<Batch>, tail: seq<Byte>)
    requires OneSchema(batches, schema)
    ensures var read := DecodeStream(SchemaMessage(schema) + (BatchMessages(batches) + tail));
            && (|tail| < 4 || END_OF_STREAM <= tail ==> read == Success(batches))
            && (|tail| >= 4 && tail[0] != 0xFF ==> read == Failure(ArrowError))
  {
    OpenRoundTrip(schema, BatchMessages(batches) + tail);
    ReadThrough(schema, batches, tail);
    assert batches + [] == batches;
    assert |tail| >= 8 ==> tail[..8][0] == tail[0];
    assert |tail| >= 4 ==> tail[..4][0] == tail[0];
    assert END_OF_STREAM <= tail ==> tail[..8] == END_OF_STREAM;
  }

  /** What a reader makes of a stream of one batch that is cut somewhere in its schema or in its batch. */
  lemma CutStream(batch: Batch, head: seq<Byte>, tail: seq<Byte>)
    requires head + tail == EncodeStream(batch.schema, [batch]) && |tail| > |END_OF_STREAM|
    ensures var start, size := OpenStream(head), |SchemaMessage(batch.schema)|;
            if |head| < size then start == Torn
            else
              && start.Got? && start.value == batch.schema
              && NextMessage(start.value, start.rest) == (if |head| < size + 4 then EndOfStream else Malformed)
              && (|head| < size + 4 ==> tail[0] == 0xFF)
  {
    if |head| >= |SchemaMessage(batch.schema)| {
      OneBatch(batch);
      var rest := CutBehind(SchemaMessage(batch.schema), BatchMessage(batch.rows) + END_OF_STREAM, head, tail);
      OpenRoundTrip(batch.schema, rest);
      CutMessage(batch, rest, tail);
    }
    if OpenStream(head).Got? {
      OpenedWhole(batch, head, tail);
    }
  }

  lemma OneBatch(batch: Batch)
    ensures EncodeStream(batch.schema, [batch])
         == SchemaMessage(batch.schema) + (BatchMessage(batch.rows) + END_OF_STREAM)
  {
    assert BatchMessages([batch]) == BatchMessage(batch.rows) + BatchMessages([batch][1..]);
    assert BatchMessages([batch]) == BatchMessage(batch.rows);
  }

  lemma CutBehind(first: seq<Byte>, second: seq<Byte>, head: seq<Byte>, tail: seq<Byte>) returns (rest: seq<Byte>)
    requires head + tail == first + second && |head| >= |first|
    ensures head == first + rest && rest + tail == second
  {
    assert head == (first + second)[..|head|];
    rest := SplitPrefix(head, first, second);
    assert first + (rest + tail) == first + second;
    SameHead(first, rest + tail, second);
  }

  lemma OpenedWhole(batch: Batch, head: seq<Byte>, tail: seq<Byte>)
    requires head + tail == EncodeStream(batch.schema, [batch]) && OpenStream(head).Got?
    ensures |head| >= |SchemaMessage(batch.schema)|
  {
    var messages := BatchMessages([batch]) + END_OF_STREAM;
    OpenRoundTrip(batch.schema, messages);
    OpenExtends(head, tail);
    assert |OpenStream(head).rest| + |tail| == |messages|;
  }

  lemma CutMessage(batch: Batch, rest: seq<Byte>, tail: seq<Byte>)
    requires rest + tail == BatchMessage(batch.rows) + END_OF_STREAM && |tail| > |END_OF_STREAM|
    ensures NextMessage(batch.schema, rest) == if |rest| < 4 then EndOfStream else Malformed
    ensures |rest| < 4 ==> tail[0] == 0xFF
  {
    NextRoundTrip(batch.schema, batch.rows, END_OF_STREAM);
    MarkerCut(batch.rows, rest, tail);
    if NextMessage(batch.schema, rest).NextBatch? {
      NextExtends(batch.schema, rest, tail);
    }
  }

  lemma MarkerCut(rows: seq<Cells>, rest: seq<Byte>, tail: seq<Byte>)
    requires rest + tail == BatchMessage(rows) + END_OF_STREAM
    ensures |rest| < 4 ==> tail != [] && tail[0] == 0xFF
    ensures |rest| >= 8 ==> rest[..8] != END_OF_STREAM
  {
    var all := BatchMessage(rows) + END_OF_STREAM;
    assert all[0] == 0xFF && all[1] == 0xFF && all[2] == 0xFF && all[3] == 0xFF && all[4] == BATCH_TAG;
    if |rest| < 4 {
      assert tail[0] == all[|rest|];
    } else if |rest| >= 8 {
      assert rest[..8][4] == all[4];
    }
  }

  /** Writing batches of one schema to a stream and reading the stream back gives the batches. */
  lemma StreamRoundTrip(schema: Schema, batches: seq<Batch>)
    requires OneSchema(batches, schema)
    ensures DecodeStream(EncodeStream(schema, batches)) == Success(batches)
  {
    StreamThen(schema, batches, END_OF_STREAM);
  }
}
