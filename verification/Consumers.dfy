/** What a client makes of a fetch response, and when it has understood it. */
module Consumers {
  import opened Wrappers
  import opened Bytes
  import opened ArrowStream
  import opened Records
  import opened Sequences
  import opened ZeroFraming
  import opened LogStorage
  import opened TopicRules

  /** The response to a fetch at an offset. */
  function Response(published: seq<Entry>, topic: Text, offset: int): seq<Byte> {
    FetchSpec(RecordsOf(published, topic), offset)
  }

  function RawRows(parts: seq<seq<Byte>>): (rows: seq<Row>)
    ensures |rows| == |parts|
  {
    seq(|parts|, i requires 0 <= i < |parts| => RawRow(parts[i]))
  }

  /** The rows of batches one after the other; their number is the client's `num_rows`. */
  function RowsOfBatches(batches: seq<Batch>): seq<Row> {
    if batches == [] then [] else BatchRows(batches[0]) + RowsOfBatches(batches[1..])
  }

  // ---------- The three calls ----------

  predicate AllUtf8(parts: seq<seq<Byte>>) {
    forall i | 0 <= i < |parts| :: ValidUtf8(parts[i])
  }

  predicate LooksLikeArrow(records: seq<Byte>) {
    |records| >= 8 && (records[..6] == FILE_MAGIC || records[..4] == CONTINUATION)
  }

  function RowsOfStream(records: seq<Byte>): Result<seq<Row>, Error> {
    match DecodeStream(records)
    case Failure(e) => Failure(e)
    case Success(batches) => Success(RowsOfBatches(batches))
  }

  /** One response inside `consume_continuos`: the rows it prints, whose number it adds to its offset. */
  function DecodeAny(records: seq<Byte>): Result<seq<Row>, Error> {
    if LooksLikeArrow(records) then RowsOfStream(records)
    else if AllUtf8(Split(records)) then Success(RawRows(Split(records)))
    else Failure(FromUtf8)
  }

  /** `consume`, `consume_record_batches`, and a round of the loop of `consume_continuos`. */
  datatype Call = ConsumeText | ConsumeBatches | ConsumeContinuously

  /** The rows a call takes from a response that is not empty, to advance the offset by their number, or its error. */
  function Decode(call: Call, records: seq<Byte>): Result<seq<Row>, Error> {
    match call
    case ConsumeText => Success(RawRows(Split(records)))
    case ConsumeBatches => RowsOfStream(records)
    case ConsumeContinuously => DecodeAny(records)
  }

  /** The call goes on to commit an offset. */
  predicate Commits(call: Call, records: seq<Byte>) {
    records != [] && Decode(call, records).Success?
  }

  /** The rows the call hands over: none when there is no data or it ends with an error. */
  function Handed(call: Call, records: seq<Byte>): seq<Row> {
    if Commits(call, records) then Decode(call, records).value else []
  }

  /** What does not begin as a stream gives `consume_record_batches` an error, and it commits nothing. */
  lemma NoStreamFails(records: seq<Byte>)
    requires records != [] && records[0] != 0xFF
    ensures Decode(ConsumeBatches, records) == Failure(ArrowError)
    ensures !Commits(ConsumeBatches, records) && Handed(ConsumeBatches, records) == []
  {
    NoStream(records);
  }

  /** The response begins like an Arrow file. */
  predicate BeginsLikeFile(records: seq<Byte>) {
    |records| >= 8 && records[..6] == [0x41, 0x52, 0x52, 0x4F, 0x57, 0x31]
  }

  lemma NotSniffed(records: seq<Byte>)
    requires !(|records| >= 8 && records[..4] == [0xFF, 0xFF, 0xFF, 0xFF])
    ensures LooksLikeArrow(records) <==> BeginsLikeFile(records)
    ensures BeginsLikeFile(records) ==> DecodeStream(records) == Failure(ArrowError)
  {
    if BeginsLikeFile(records) {
      assert records[..6][0] == records[0];
      NoStream(records);
    }
  }

  /** Nor does `consume_continuos` when the response begins like an Arrow file, or when a part is no text. */
  lemma NoTextFails(records: seq<Byte>)
    requires !(|records| >= 8 && records[..4] == [0xFF, 0xFF, 0xFF, 0xFF])
    ensures BeginsLikeFile(records) ==> Decode(ConsumeContinuously, records) == Failure(ArrowError)
    ensures !BeginsLikeFile(records) && AllUtf8(Split(records)) ==>
              Decode(ConsumeContinuously, records) == Success(RawRows(Split(records)))
    ensures !BeginsLikeFile(records) && !AllUtf8(Split(records)) ==>
              Decode(ConsumeContinuously, records) == Failure(FromUtf8)
  {
    NotSniffed(records);
    if !BeginsLikeFile(records) {
      TakenAsText(records);
    }
  }

  lemma TakenAsText(records: seq<Byte>)
    requires !LooksLikeArrow(records)
    ensures AllUtf8(Split(records)) ==> DecodeAny(records) == Success(RawRows(Split(records)))
    ensures !AllUtf8(Split(records)) ==> DecodeAny(records) == Failure(FromUtf8)
  {
  }

  /** A response begins with the next record, if that is raw and not empty. */
  lemma ResponseBegins(left: seq<StoredRecord>)
    requires left != [] && left[0].Raw? && left[0].bytes != []
    ensures Render(left) != [] && Render(left)[0] == left[0].bytes[0]
  {
  }

  lemma TextBegins(bytes: seq<Byte>)
    requires bytes != [] && ValidUtf8(bytes)
    ensures bytes[0] != 0xFF
  {
    assert SequenceLength(bytes) > 0;
  }

  /** From this offset on the next record is text, and not empty. */
  predicate TextNext(rs: seq<StoredRecord>, offset: int) {
    && 0 <= offset
    && var left := DropRows(rs, offset);
       left != [] && left[0].Raw? && left[0].bytes != [] && ValidUtf8(left[0].bytes)
  }

  /** Where the next record is text, consuming batches is an error and commits nothing, whatever follows it. */
  lemma TextIsNoBatch(rs: seq<StoredRecord>, offset: int)
    requires TextNext(rs, offset)
    ensures var response := FetchSpec(rs, offset);
            && response != [] && response[0] != 0xFF
            && Decode(ConsumeBatches, response) == Failure(ArrowError) && !Commits(ConsumeBatches, response)
  {
    var left := DropRows(rs, offset);
    ResponseBegins(left);
    TextBegins(left[0].bytes);
    NoStreamFails(FetchSpec(rs, offset));
  }

  /** Where zero-free raw records are left and one is no text, a round of `consume_continuos` commits nothing. */
  lemma BadTextFails(rs: seq<StoredRecord>, k: nat)
    requires AllRaw(DropRows(rs, k)) && ZeroFree(RawBytes(DropRows(rs, k))) && !AllUtf8(RawBytes(DropRows(rs, k)))
    requires var response := FetchSpec(rs, k); !(|response| >= 8 && response[..4] == [0xFF, 0xFF, 0xFF, 0xFF])
    ensures var response := FetchSpec(rs, k);
            && Decode(ConsumeContinuously, response)
               == Failure(if BeginsLikeFile(response) then ArrowError else FromUtf8)
            && !Commits(ConsumeContinuously, response)
  {
    var parts := RawBytes(DropRows(rs, k));
    RenderOfRaw(DropRows(rs, k));
    SplitJoin(parts);
    NoTextFails(FetchSpec(rs, k));
  }

  // ---------- What a call must find in order to understand it ----------

  /** Zero-free raw records, and not just an empty one. */
  predicate TextLeft(left: seq<StoredRecord>) {
    AllRaw(left) && ZeroFree(RawBytes(left)) && left != [Raw([])]
  }

  /** What a call needs the records from its offset on to be. */
  predicate Understands(call: Call, left: seq<StoredRecord>) {
    match call
    case ConsumeText => TextLeft(left)
    case ConsumeBatches => AllBatched(left)
    case ConsumeContinuously =>
      if LooksLikeArrow(Render(left)) then AllBatched(left) else TextLeft(left) && AllUtf8(RawBytes(left))
  }

  /** All batches among the records have one schema. */
  ghost predicate OneSchemaAmong(rs: seq<StoredRecord>) {
    forall i, j | 0 <= i < |rs| && 0 <= j < |rs| && rs[i].Batched? && rs[j].Batched? ::
      rs[i].batch.schema == rs[j].batch.schema
  }

  lemma {:induction false} FlattenOfRaw(rs: seq<StoredRecord>)
    requires AllRaw(rs)
    ensures Flatten(rs) == RawRows(RawBytes(rs))
  {
    if rs != [] {
      FlattenOfRaw(rs[1..]);
      assert RawRows(RawBytes(rs)) == [RawRow(rs[0].bytes)] + RawRows(RawBytes(rs[1..]));
    }
  }

  lemma {:induction false} FlattenOfBatched(rs: seq<StoredRecord>)
    requires AllBatched(rs)
    ensures Flatten(rs) == RowsOfBatches(BatchesOf(rs))
  {
    if rs != [] {
      FlattenOfBatched(rs[1..]);
      ConcatCons([rs[0].batch], BatchesOf(rs[1..]));
      assert [] + BatchesOf(rs[1..]) == BatchesOf(rs[1..]);
    }
  }

  lemma {:induction false} DropKeepsSchema(rs: seq<StoredRecord>, k: nat)
    requires OneSchemaAmong(rs)
    ensures OneSchemaAmong(DropRows(rs, k))
  {
    if rs != [] && NumRows(rs[0]) <= k {
      DropKeepsSchema(rs[1..], k - NumRows(rs[0]));
    }
  }

  // ---------- Rows are of the kind of their records ----------

  /** A raw record contributes a raw row. */
  lemma {:induction false} RawRecordShows(rs: seq<StoredRecord>, i: nat) returns (k: nat)
    requires i < |rs| && rs[i].Raw?
    ensures k < |Flatten(rs)| && Flatten(rs)[k].RawRow?
  {
    if i == 0 {
      k := 0;
    } else {
      var j := RawRecordShows(rs[1..], i - 1);
      k := NumRows(rs[0]) + j;
    }
  }

  lemma {:induction false} BatchesGiveBatchRows(batches: seq<Batch>)
    ensures forall i | 0 <= i < |RowsOfBatches(batches)| :: RowsOfBatches(batches)[i].BatchRow?
  {
    if batches != [] {
      BatchesGiveBatchRows(batches[1..]);
    }
  }

  function CountRaw(rs: seq<StoredRecord>): nat {
    if rs == [] then 0 else (if rs[0].Raw? then 1 else 0) + CountRaw(rs[1..])
  }

  /** Where all rows are raw, the batches have no rows. */
  lemma {:induction false} RawRowsCounted(rs: seq<StoredRecord>)
    requires forall i | 0 <= i < |Flatten(rs)| :: Flatten(rs)[i].RawRow?
    ensures |Flatten(rs)| == CountRaw(rs)
  {
    if rs != [] {
      var head, tail := RowsOf(rs[0]), Flatten(rs[1..]);
      forall i | 0 <= i < |tail| ensures tail[i].RawRow? {
        assert Flatten(rs)[|head| + i] == tail[i];
      }
      RawRowsCounted(rs[1..]);
      if rs[0].Batched? && head != [] {
        assert (head + tail)[0] == head[0];
      }
    }
  }

  lemma {:induction false} ZerosRendered(rs: seq<StoredRecord>)
    ensures Zeros(RenderRaw(rs)) + 1 >= CountRaw(rs)
  {
    if rs != [] {
      ZerosRendered(rs[1..]);
      match rs[0] {
        case Raw(bytes) =>
          ZerosConcat(bytes + [ZERO], RenderRaw(rs[1..]));
          ZerosConcat(bytes, [ZERO]);
          assert Zeros([ZERO]) == 1 + Zeros([ZERO][1..]);
          assert |rs| == 1 ==> CountRaw(rs[1..]) == 0;
        case Batched(_) =>
          assert [] + RenderRaw(rs[1..]) == RenderRaw(rs[1..]);
      }
    }
  }

  lemma ZerosOfStream(schema: Schema, batches: seq<Batch>)
    ensures Zeros(EncodeStream(schema, batches)) >= 1
  {
    ZerosConcat(SchemaMessage(schema), BatchMessages(batches) + END_OF_STREAM);
    ZerosConcat(BatchMessages(batches), END_OF_STREAM);
    ZerosConcat(END_OF_STREAM[..4], END_OF_STREAM[4..]);
    assert END_OF_STREAM == END_OF_STREAM[..4] + END_OF_STREAM[4..];
    assert END_OF_STREAM[4..][0] == ZERO;
  }

  lemma {:induction false} SomeBatch(rs: seq<StoredRecord>)
    requires !AllRaw(rs)
    ensures BatchesOf(rs) != []
  {
    if rs[0].Raw? {
      SomeBatch(rs[1..]);
    }
  }

  /** Where there is a batch left, splitting the response on zero bytes gives something else than the rows. */
  lemma BatchesAreNoText(left: seq<StoredRecord>)
    requires !AllRaw(left)
    ensures RawRows(Split(Render(left))) != Flatten(left)
  {
    var parts, batches := Split(Render(left)), BatchesOf(left);
    if RawRows(parts) == Flatten(left) {
      forall i | 0 <= i < |Flatten(left)| ensures Flatten(left)[i].RawRow? {
        assert RawRows(parts)[i].RawRow?;
      }
      RawRowsCounted(left);
      SplitCount(Render(left));
      ZerosConcat(RenderRaw(left), RenderBatches(batches));
      ZerosRendered(left);
      SomeBatch(left);
      ZerosOfStream(batches[0].schema, batches);
    }
  }

  // ---------- When a call understands ----------

  lemma RawRowsSame(a: seq<seq<Byte>>, b: seq<seq<Byte>>)
    ensures RawRows(a) == RawRows(b) <==> a == b
  {
    if RawRows(a) == RawRows(b) {
      forall i | 0 <= i < |a| ensures a[i] == b[i] {
        assert RawRows(a)[i] == RawRow(a[i]) && RawRows(b)[i] == RawRow(b[i]);
      }
    }
  }

  lemma PartsAreRows(left: seq<StoredRecord>)
    ensures RawRows(Parts(Render(left))) == Flatten(left) <==> TextLeft(left)
  {
    if AllRaw(left) {
      RenderOfRaw(left);
      FlattenOfRaw(left);
      PartsExact(RawBytes(left));
      RawRowsSame(Parts(Render(left)), RawBytes(left));
      assert RawBytes(left) == [[]] <==> left == [Raw([])];
    } else {
      SomeBatch(left);
      BatchesAreNoText(left);
    }
  }

  /** A stream gives batch rows only, so that it cannot stand for raw records. */
  lemma StreamIsNoRaw(response: seq<Byte>, left: seq<StoredRecord>)
    requires !AllBatched(left)
    ensures Flatten(left) != [] && Handed(ConsumeBatches, response) != Flatten(left)
  {
    var i :| 0 <= i < |left| && left[i].Raw?;
    var k := RawRecordShows(left, i);
    if Commits(ConsumeBatches, response) {
      BatchesGiveBatchRows(DecodeStream(response).value);
    }
  }

  lemma BatchesDecoded(left: seq<StoredRecord>)
    requires OneSchemaAmong(left) && AllBatched(left) && left != []
    ensures LooksLikeArrow(Render(left)) && DecodeStream(Render(left)) == Success(BatchesOf(left))
  {
    var schema := left[0].batch.schema;
    RenderOfBatched(left);
    assert |END_OF_STREAM| == 8;
    assert EncodeStream(schema, BatchesOf(left))[..4] == CONTINUATION;
    StreamRoundTrip(schema, BatchesOf(left));
  }

  lemma BatchesAreRows(left: seq<StoredRecord>)
    requires OneSchemaAmong(left)
    ensures Handed(ConsumeBatches, Render(left)) == Flatten(left) <==> AllBatched(left)
  {
    if !AllBatched(left) {
      StreamIsNoRaw(Render(left), left);
    } else if left != [] {
      BatchesDecoded(left);
      FlattenOfBatched(left);
    }
  }

  lemma SniffsOneOrTheOther(response: seq<Byte>)
    ensures Handed(ConsumeContinuously, response)
         == if LooksLikeArrow(response) then Handed(ConsumeBatches, response)
            else if AllUtf8(Parts(response)) then RawRows(Parts(response))
            else []
  {
  }

  lemma TextSniffed(left: seq<StoredRecord>)
    requires OneSchemaAmong(left) && !LooksLikeArrow(Render(left))
    ensures Handed(ConsumeContinuously, Render(left)) == Flatten(left) <==> TextLeft(left) && AllUtf8(RawBytes(left))
  {
    var response := Render(left);
    SniffsOneOrTheOther(response);
    PartsAreRows(left);
    if left != [] {
      assert !AllBatched(left) by {
        if AllBatched(left) {
          BatchesDecoded(left);
        }
      }
      StreamIsNoRaw(response, left);
    }
    if TextLeft(left) {
      RenderOfRaw(left);
      PartsExact(RawBytes(left));
    }
  }

  lemma SniffedRows(left: seq<StoredRecord>)
    requires OneSchemaAmong(left)
    ensures Handed(ConsumeContinuously, Render(left)) == Flatten(left) <==> Understands(ConsumeContinuously, left)
  {
    if LooksLikeArrow(Render(left)) {
      SniffsOneOrTheOther(Render(left));
      BatchesAreRows(left);
    } else {
      TextSniffed(left);
    }
  }

  /**
   For any topic, offset and call: the rows handed over are those from the offset to the end of the log
   exactly when the records left are of the kind the call understands.
   */
  lemma HandedExact(call: Call, rs: seq<StoredRecord>, k: nat)
    requires OneSchemaAmong(rs) && k <= |Flatten(rs)|
    ensures Handed(call, FetchSpec(rs, k)) == Flatten(rs)[k..] <==> Understands(call, DropRows(rs, k))
  {
    var left := DropRows(rs, k);
    DropRowsFlat(rs, k);
    DropKeepsSchema(rs, k);
    match call {
      case ConsumeText => PartsAreRows(left);
      case ConsumeBatches => BatchesAreRows(left);
      case ConsumeContinuously => SniffedRows(left);
    }
  }

  /** So the offset `consume` commits stays within the log exactly when they are zero-free. */
  lemma RawCommitWithinLog(rs: seq<StoredRecord>, k: nat)
    requires AllRaw(DropRows(rs, k)) && k <= |Flatten(rs)|
    ensures k + |Handed(ConsumeText, FetchSpec(rs, k))| <= |Flatten(rs)| <==> ZeroFree(RawBytes(DropRows(rs, k)))
  {
    var left := DropRows(rs, k);
    ZeroFreeCounted(RawBytes(left));
    if FetchSpec(rs, k) == [] {
      EmptyFetchExact(rs, k);
      DropRowsBeyond(rs, k);
    } else {
      RawConsumeAdvance(rs, k);
    }
  }

  /** The call at `k` is handed all rows from there on. */
  ghost predicate HandsOver(call: Call, rs: seq<StoredRecord>, k: nat) {
    Handed(call, FetchSpec(rs, k)) == Flatten(DropRows(rs, k))
  }

  lemma HandedRest(call: Call, rs: seq<StoredRecord>, k: nat)
    requires OneSchemaAmong(rs) && k <= |Flatten(rs)| && Understands(call, DropRows(rs, k))
    ensures HandsOver(call, rs, k)
  {
    HandedExact(call, rs, k);
    DropRowsFlat(rs, k);
  }

  /** Each zero byte inside the remaining raw records moves `consume` one offset past the end of the log it saw. */
  lemma RawConsumeAdvance(rs: seq<StoredRecord>, k: nat)
    requires AllRaw(DropRows(rs, k)) && k <= |Flatten(rs)| && FetchSpec(rs, k) != []
    ensures k + |Handed(ConsumeText, FetchSpec(rs, k))| == |Flatten(rs)| + TotalZeros(RawBytes(DropRows(rs, k)))
  {
    var left := DropRows(rs, k);
    DropRowsFlat(rs, k);
    RenderOfRaw(left);
    FlattenOfRaw(left);
    PartsOvershoot(RawBytes(left));
  }

  /**
   What a call understands at `k`, and then at the offset it has reached, in a log that may have grown, is what one
   call at `k` understands of the grown log.
   */
  lemma CallsCompose(call: Call, rs: seq<StoredRecord>, later: seq<StoredRecord>, k: nat)
    requires rs <= later && OneSchemaAmong(later) && k <= |Flatten(rs)|
    requires Understands(call, DropRows(rs, k))
    requires Understands(call, DropRows(later, k)) && Understands(call, DropRows(later, |Flatten(rs)|))
    ensures var got := Handed(call, FetchSpec(rs, k));
            && k + |got| == |Flatten(rs)|
            && Handed(call, FetchSpec(later, k)) == got + Handed(call, FetchSpec(later, |Flatten(rs)|))
  {
    var reached := |Flatten(rs)|;
    EarlierHasOneSchema(rs, later);
    FlattenPrefix(rs, later);
    HandedRest(call, rs, k);
    HandedRest(call, later, k);
    HandedRest(call, later, reached);
    RestsCompose(call, rs, later, k);
  }

  lemma RestsCompose(call: Call, rs: seq<StoredRecord>, later: seq<StoredRecord>, k: nat)
    requires rs <= later && k <= |Flatten(rs)|
    requires HandsOver(call, rs, k) && HandsOver(call, later, k) && HandsOver(call, later, |Flatten(rs)|)
    ensures var got := Handed(call, FetchSpec(rs, k));
            && k + |got| == |Flatten(rs)|
            && Handed(call, FetchSpec(later, k)) == got + Handed(call, FetchSpec(later, |Flatten(rs)|))
  {
    FetchesCompose(rs, later, k);
  }

  lemma EarlierHasOneSchema(rs: seq<StoredRecord>, later: seq<StoredRecord>)
    requires rs <= later && OneSchemaAmong(later)
    ensures OneSchemaAmong(rs)
  {
  }

  // ---------- Telling the two kinds of response apart ----------

  /** Text records are recognized exactly when the response does not begin like an Arrow file. */
  lemma SniffText(parts: seq<seq<Byte>>)
    requires parts != [] && ZeroFree(parts) && AllUtf8(parts)
    ensures DecodeAny(Join(parts)) == Success(RawRows(parts))
       <==> !(|Join(parts)| >= 8 && Join(parts)[..6] == [0x41, 0x52, 0x52, 0x4F, 0x57, 0x31])
  {
    SplitJoin(parts);
    if |Join(parts)| >= 8 {
      FirstByteOfText(parts);
      FirstByteOfStream(Join(parts));
    }
  }

  lemma FirstByteOfStream(records: seq<Byte>)
    requires |records| >= 8 && records[0] != 0xFF
    ensures records[..4] != CONTINUATION && OpenStream(records) == Torn
  {
    assert records[..4][0] == records[0];
  }

  lemma FirstByteOfText(parts: seq<seq<Byte>>)
    requires parts != [] && AllUtf8(parts) && Join(parts) != []
    ensures Join(parts)[0] != 0xFF
  {
    assert ValidUtf8(parts[0]);
    if parts[0] != [] {
      assert SequenceLength(parts[0]) > 0;
    }
  }

  /** Streams of batches are always recognized, and read back whole. */
  lemma SniffBatches(schema: Schema, batches: seq<Batch>)
    requires OneSchema(batches, schema)
    ensures DecodeAny(EncodeStream(schema, batches)) == Success(RowsOfBatches(batches))
  {
    var records := EncodeStream(schema, batches);
    assert |END_OF_STREAM| == 8;
    assert records[..4] == CONTINUATION;
    StreamRoundTrip(schema, batches);
  }
}
