/**
 The byte format of the write-ahead log: an entry is the topic, a newline, an indicator byte,
 the payload length as a little-endian u32, and the payload. The parser is the loop of
 `TopicManager::recover`, one iteration at a time.
 */
module WalFormat {
  import opened Wrappers
  import opened Bytes
  import opened ArrowStream
  import opened Records
  import opened Sequences

  const RAW_INDICATOR: Byte := 0
  const BATCH_INDICATOR: Byte := 1

  /** The buffer of a `BufWriter::new`, in bytes. */
  const WRITER_CAPACITY: nat := 8192
  /** An entry has at least a newline, an indicator and a length. */
  const SMALLEST_ENTRY: nat := 6

  function Indicator(r: StoredRecord): Byte {
    if r.Raw? then RAW_INDICATOR else BATCH_INDICATOR
  }

  /** An entry with `tail` for its payload and whatever follows. */
  function Layout(topic: Text, indicator: Byte, size: nat, tail: seq<Byte>): seq<Byte> {
    topic + ([NEWLINE] + ([indicator] + (EncodeU32(size) + tail)))
  }

  function SerializeEntry(e: Entry): (bytes: seq<Byte>)
    ensures |bytes| > 0
  {
    Layout(e.topic, Indicator(e.record), |Payload(e.record)|, Payload(e.record))
  }

  function SerializeAll(es: seq<Entry>): seq<Byte> {
    if es == [] then [] else SerializeEntry(es[0]) + SerializeAll(es[1..])
  }

  /** Rust's `&str` is always valid UTF-8. */
  predicate TopicFits(topic: Text) {
    ValidUtf8(topic) && NEWLINE !in topic
  }

  /** The entries the format can hold. */
  predicate Fits(e: Entry) {
    TopicFits(e.topic) && |Payload(e.record)| < U32_LIMIT
  }

  predicate AllFit(es: seq<Entry>) {
    forall i | 0 <= i < |es| :: Fits(es[i])
  }

  // ---------- Parser ----------

  /** One iteration of the recovery loop. A stream without a batch is read past and stores nothing. */
  datatype Parsed =
    | Finished
    | Replayed(entry: Entry, rest: seq<Byte>)
    | Skipped(rest: seq<Byte>)
    | Broken(error: Error)

  /** `read_until(b'\n')` followed by `pop`: the last byte goes even when it is no newline. */
  function ReadLine(s: seq<Byte>): (r: (seq<Byte>, seq<Byte>))
    requires s != []
    ensures |r.1| < |s|
  {
    var i := IndexOf(s, NEWLINE);
    if i < |s| then (s[..i], s[i + 1..]) else (s[..|s| - 1], [])
  }

  /** The record held by a payload; `None` for a stream that ends before its first batch. */
  function ReadRecord(indicator: Byte, payload: seq<Byte>): Result<Option<StoredRecord>, Error> {
    if indicator == RAW_INDICATOR then Success(Some(Raw(payload)))
    else
      match OpenStream(payload)
      case Torn => Failure(ArrowError)
      case Got(schema, rest) =>
        match NextMessage(schema, rest)
        case EndOfStream => Success(None)
        case Malformed => Failure(ArrowError)
        case NextBatch(batch, _) => Success(Some(Batched(batch)))
  }

  function ParseEntry(s: seq<Byte>): (r: Parsed)
    ensures r.Replayed? || r.Skipped? ==> |r.rest| < |s|
    ensures r.Finished? <==> s == []
  {
    if s == [] then Finished
    else
      var (topic, afterTopic) := ReadLine(s);
      if !ValidUtf8(topic) then Broken(FromUtf8)
      else if |afterTopic| < 5 then Broken(UnexpectedEof)
      else ParseBody(topic, afterTopic[0], DecodeU32(afterTopic[1..]), afterTopic[5..])
  }

  function ParseBody(topic: Text, indicator: Byte, size: nat, body: seq<Byte>): (r: Parsed)
    ensures r.Replayed? || r.Skipped? ==> |r.rest| <= |body|
    ensures !r.Finished?
  {
    if indicator > BATCH_INDICATOR then Broken(IndicatorError(indicator as int))
    else if |body| < size then Broken(UnexpectedEof)
    else
      match ReadRecord(indicator, body[..size])
      case Failure(e) => Broken(e)
      case Success(None) => Skipped(body[size..])
      case Success(Some(record)) => Replayed(Entry(topic, record), body[size..])
  }

  /** The entries replayed before the loop stopped, and the error that stopped it, if any. */
  datatype Replay = Replay(entries: seq<Entry>, error: Option<Error>)

  function ParseLog(s: seq<Byte>): Replay
    decreases |s|
  {
    match ParseEntry(s)
    case Finished => Replay([], None)
    case Broken(e) => Replay([], Some(e))
    case Skipped(rest) => ParseLog(rest)
    case Replayed(entry, rest) =>
      var later := ParseLog(rest);
      Replay([entry] + later.entries, later.error)
  }

  // ---------- One entry ----------

  lemma PayloadReadsBack(r: StoredRecord)
    ensures ReadRecord(Indicator(r), Payload(r)) == Success(Some(r))
  {
    if r.Batched? {
      var b := r.batch;
      assert BatchMessages([b]) == BatchMessage(b.rows) + BatchMessages([b][1..]);
      assert BatchMessages([b]) + END_OF_STREAM == BatchMessage(b.rows) + END_OF_STREAM;
      OpenRoundTrip(b.schema, BatchMessages([b]) + END_OF_STREAM);
      NextRoundTrip(b.schema, b.rows, END_OF_STREAM);
      assert b == Batch(b.schema, b.rows);
    }
  }

  lemma LineLayout(topic: Text, after: seq<Byte>)
    requires NEWLINE !in topic
    ensures ReadLine(topic + ([NEWLINE] + after)) == (topic, after)
  {
    var s := topic + ([NEWLINE] + after);
    IndexOfUnique(s, NEWLINE, |topic|);
    assert s[..|topic|] == topic && s[|topic| + 1..] == after;
  }

  lemma BodyLayout(indicator: Byte, size: nat, tail: seq<Byte>)
    ensures var after := [indicator] + (EncodeU32(size) + tail);
            && |after| >= 5 && after[0] == indicator
            && DecodeU32(after[1..]) == size % U32_LIMIT
            && after[5..] == tail
  {
    var after := [indicator] + (EncodeU32(size) + tail);
    assert after[1..] == EncodeU32(size) + tail;
    U32RoundTrip(size, tail);
    assert after[5..] == tail;
  }

  /** How an entry looks to the parser when its topic holds no newline. */
  lemma ParseLayout(topic: Text, indicator: Byte, size: nat, tail: seq<Byte>)
    requires NEWLINE !in topic
    ensures ParseEntry(Layout(topic, indicator, size, tail))
         == if ValidUtf8(topic) then ParseBody(topic, indicator, size % U32_LIMIT, tail) else Broken(FromUtf8)
  {
    LineLayout(topic, [indicator] + (EncodeU32(size) + tail));
    BodyLayout(indicator, size, tail);
  }

  lemma LayoutThen(topic: Text, indicator: Byte, size: nat, payload: seq<Byte>, rest: seq<Byte>)
    ensures Layout(topic, indicator, size, payload) + rest == Layout(topic, indicator, size, payload + rest)
  {
  }

  lemma EntryRoundTrip(e: Entry, rest: seq<Byte>)
    requires Fits(e)
    ensures ParseEntry(SerializeEntry(e) + rest) == Replayed(e, rest)
  {
    var indicator, payload := Indicator(e.record), Payload(e.record);
    LayoutThen(e.topic, indicator, |payload|, payload, rest);
    ParseLayout(e.topic, indicator, |payload|, payload + rest);
    RemainderShrinks(|payload|);
    BodyRoundTrip(e, rest);
  }

  lemma BodyRoundTrip(e: Entry, rest: seq<Byte>)
    ensures ParseBody(e.topic, Indicator(e.record), |Payload(e.record)|, Payload(e.record) + rest) == Replayed(e, rest)
  {
    var payload := Payload(e.record);
    assert (payload + rest)[..|payload|] == payload && (payload + rest)[|payload|..] == rest;
    PayloadReadsBack(e.record);
  }

  /** The format holds an entry exactly when it fits: otherwise the loop breaks, misreads it, or loses its place. */
  lemma EntryRoundTripExact(e: Entry, rest: seq<Byte>)
    ensures ParseEntry(SerializeEntry(e) + rest) == Replayed(e, rest) <==> Fits(e)
  {
    if Fits(e) {
      EntryRoundTrip(e, rest);
    } else if NEWLINE in e.topic {
      var s := SerializeEntry(e) + rest;
      var i := IndexOf(e.topic, NEWLINE);
      IndexOfUnique(s, NEWLINE, i);
      assert |ReadLine(s).0| < |e.topic|;
    } else {
      var indicator, payload := Indicator(e.record), Payload(e.record);
      LayoutThen(e.topic, indicator, |payload|, payload, rest);
      ParseLayout(e.topic, indicator, |payload|, payload + rest);
      RemainderShrinks(|payload|);
    }
  }

  lemma RemainderShrinks(n: nat)
    ensures if n < U32_LIMIT then n % U32_LIMIT == n else n % U32_LIMIT < n
  {
  }

  /** Position by position: topic, newline, kind, the four digits of the payload's length, and the payload. */
  ghost predicate LaidOut(bytes: seq<Byte>, topic: Text, kind: Byte, payload: seq<Byte>) {
    var n, size := |topic|, |payload|;
    && |bytes| == n + 6 + size
    && bytes[..n] == topic && bytes[n] == 0x0A && bytes[n + 1] == kind
    && bytes[n + 2] as nat == size % 256
    && bytes[n + 3] as nat == size / 256 % 256
    && bytes[n + 4] as nat == size / 65536 % 256
    && bytes[n + 5] as nat == size / 16777216 % 256
    && bytes[n + 6..] == payload
  }

  lemma LayoutLaidOut(topic: Text, kind: Byte, payload: seq<Byte>)
    ensures LaidOut(Layout(topic, kind, |payload|, payload), topic, kind, payload)
  {
    var digits, n := EncodeU32(|payload|), |topic|;
    var bytes := Layout(topic, kind, |payload|, payload);
    U32Digits(|payload|);
    assert forall i | 0 <= i < 4 :: bytes[n + 2 + i] == digits[i];
    assert bytes[n + 2] == digits[0] && bytes[n + 3] == digits[1];
    assert bytes[n + 4] == digits[2] && bytes[n + 5] == digits[3];
    assert bytes[n + 6..] == payload;
  }

  /** A raw record is written as kind 0 and as it is, a batch as kind 1 and as a stream of its own. */
  lemma EntryLaidOut(e: Entry)
    ensures match e.record
            case Raw(bytes) => LaidOut(SerializeEntry(e), e.topic, 0, bytes)
            case Batched(batch) => LaidOut(SerializeEntry(e), e.topic, 1, EncodeStream(batch.schema, [batch]))
  {
    LayoutLaidOut(e.topic, Indicator(e.record), Payload(e.record));
  }

  /** A successful parse does not look past the entry it consumed. */
  lemma ParseExtends(s: seq<Byte>, more: seq<Byte>)
    requires ParseEntry(s).Replayed? || ParseEntry(s).Skipped?
    ensures ParseEntry(s).Replayed? ==>
              ParseEntry(s + more) == Replayed(ParseEntry(s).entry, ParseEntry(s).rest + more)
    ensures ParseEntry(s).Skipped? ==> ParseEntry(s + more) == Skipped(ParseEntry(s).rest + more)
  {
    var (topic, after) := ReadLine(s);
    ReadLineExtends(s, more);
    HeaderExtends(after, more);
    ParseBodyExtends(topic, after[0], DecodeU32(after[1..]), after[5..], more);
    ParseEntryAs(s + more, topic, after + more);
  }

  lemma ParseEntryAs(s: seq<Byte>, topic: Text, after: seq<Byte>)
    requires s != [] && ReadLine(s) == (topic, after) && ValidUtf8(topic) && |after| >= 5
    ensures ParseEntry(s) == ParseBody(topic, after[0], DecodeU32(after[1..]), after[5..])
  {
  }

  lemma HeaderExtends(after: seq<Byte>, more: seq<Byte>)
    requires |after| >= 5
    ensures (after + more)[0] == after[0]
    ensures DecodeU32((after + more)[1..]) == DecodeU32(after[1..])
    ensures (after + more)[5..] == after[5..] + more
  {
    assert (after + more)[1..] == after[1..] + more;
  }

  lemma ReadLineExtends(s: seq<Byte>, more: seq<Byte>)
    requires s != [] && ReadLine(s).1 != []
    ensures ReadLine(s + more) == (ReadLine(s).0, ReadLine(s).1 + more)
  {
    var i := IndexOf(s, NEWLINE);
    IndexOfUnique(s + more, NEWLINE, i);
    assert (s + more)[..i] == s[..i] && (s + more)[i + 1..] == s[i + 1..] + more;
  }

  lemma ParseBodyExtends(topic: Text, indicator: Byte, size: nat, body: seq<Byte>, more: seq<Byte>)
    ensures var r := ParseBody(topic, indicator, size, body);
            var r' := ParseBody(topic, indicator, size, body + more);
            && (r.Replayed? ==> r' == Replayed(r.entry, r.rest + more))
            && (r.Skipped? ==> r' == Skipped(r.rest + more))
  {
    if size <= |body| {
      assert (body + more)[..size] == body[..size];
      assert (body + more)[size..] == body[size..] + more;
    }
  }

  /** What stops the loop at an entry cut short: a cut within the topic can also cut a character. */
  function TornError(topic: Text, torn: seq<Byte>): Error {
    if 0 < |torn| <= |topic| && !ValidUtf8(torn[..|torn| - 1]) then FromUtf8 else UnexpectedEof
  }

  /** No strict prefix of a serialized entry parses as anything: a torn tail is an error, and it is known which. */
  lemma TornEntry(e: Entry, p: seq<Byte>)
    requires Fits(e) && p < SerializeEntry(e) && p != []
    ensures ParseEntry(p) == Broken(TornError(e.topic, p))
  {
    if |p| <= |e.topic| {
      TornTopic(e.topic, p);
    } else {
      var payload := Payload(e.record);
      var after := p[|e.topic| + 1..];
      var whole := [Indicator(e.record)] + (EncodeU32(|payload|) + payload);
      assert SerializeEntry(e) == e.topic + ([NEWLINE] + whole);
      assert after == whole[..|after|] && p == e.topic + ([NEWLINE] + after);
      LineLayout(e.topic, after);
      if |after| >= 5 {
        TornPayload(e, after);
      }
    }
  }

  lemma TornTopic(topic: Text, p: seq<Byte>)
    requires NEWLINE !in topic && p <= topic && p != []
    ensures ParseEntry(p) == Broken(TornError(topic, p))
  {
    assert forall i | 0 <= i < |p| :: p[i] == topic[i];
    IndexOfUnique(p, NEWLINE, |p|);
    assert ReadLine(p) == (p[..|p| - 1], []);
  }

  lemma TornPayload(e: Entry, after: seq<Byte>)
    requires Fits(e) && |after| >= 5
    requires var payload := Payload(e.record); after < [Indicator(e.record)] + (EncodeU32(|payload|) + payload)
    ensures ParseBody(e.topic, after[0], DecodeU32(after[1..]), after[5..]) == Broken(UnexpectedEof)
  {
    var payload, digits := Payload(e.record), EncodeU32(|Payload(e.record)|);
    var whole := [Indicator(e.record)] + (digits + payload);
    assert after == whole[..|after|] && whole[1..5] == digits;
    assert after[1..] == digits + after[5..];
    U32RoundTrip(|payload|, after[5..]);
    RemainderShrinks(|payload|);
  }

  // ---------- Whole logs ----------

  lemma SerializeCons(e: Entry, es: seq<Entry>)
    ensures SerializeAll([e] + es) == SerializeEntry(e) + SerializeAll(es)
  {
    assert ([e] + es)[1..] == es;
  }

  lemma {:induction false} SerializeConcat(a: seq<Entry>, b: seq<Entry>)
    ensures SerializeAll(a + b) == SerializeAll(a) + SerializeAll(b)
  {
    if a == [] {
      assert a + b == b;
    } else {
      ConcatCons(a, b);
      SerializeConcat(a[1..], b);
      ConcatAssociates(SerializeEntry(a[0]), SerializeAll(a[1..]), SerializeAll(b));
    }
  }

  lemma SerializeSplit(es: seq<Entry>, k: nat)
    requires k <= |es|
    ensures SerializeAll(es) == SerializeAll(es[..k]) + SerializeAll(es[k..])
  {
    TakeDrop(es, k);
    SerializeConcat(es[..k], es[k..]);
  }

  lemma SerializeMonotone(es: seq<Entry>, i: nat, j: nat)
    requires i <= j <= |es|
    ensures |SerializeAll(es[..i])| <= |SerializeAll(es[..j])|
  {
    SerializeSplit(es[..j], i);
    assert es[..j][..i] == es[..i];
  }

  lemma SerializeTail(es: seq<Entry>, i: nat, j: nat)
    requires i <= j <= |es|
    ensures |SerializeAll(es[j..])| <= |SerializeAll(es[i..])|
  {
    SerializeSplit(es[i..], j - i);
    assert es[i..][j - i..] == es[j..];
  }

  lemma SerializeOne(e: Entry)
    ensures SerializeAll([e]) == SerializeEntry(e)
  {
    assert [e][1..] == [];
  }

  lemma SerializeSnoc(es: seq<Entry>, e: Entry)
    ensures SerializeAll(es + [e]) == SerializeAll(es) + SerializeEntry(e)
  {
    SerializeConcat(es, [e]);
    SerializeOne(e);
  }

  lemma ParseLogCons(e: Entry, rest: seq<Byte>)
    requires Fits(e)
    ensures ParseLog(SerializeEntry(e) + rest) == Replay([e] + ParseLog(rest).entries, ParseLog(rest).error)
  {
    EntryRoundTrip(e, rest);
  }

  /** Recovery replays a serialized prefix of the log and goes on with whatever follows. */
  lemma {:induction false} ReplayThen(es: seq<Entry>, tail: seq<Byte>)
    requires AllFit(es)
    ensures ParseLog(SerializeAll(es) + tail) == Replay(es + ParseLog(tail).entries, ParseLog(tail).error)
  {
    if es == [] {
      assert SerializeAll(es) + tail == tail;
      assert es + ParseLog(tail).entries == ParseLog(tail).entries;
    } else {
      ReplayThen(es[1..], tail);
      ReplayStep(es[0], es[1..], tail, ParseLog(tail));
      assert [es[0]] + es[1..] == es;
    }
  }

  lemma ReplayStep(e: Entry, es: seq<Entry>, tail: seq<Byte>, later: Replay)
    requires Fits(e) && ParseLog(SerializeAll(es) + tail) == Replay(es + later.entries, later.error)
    ensures ParseLog(SerializeAll([e] + es) + tail) == Replay([e] + es + later.entries, later.error)
  {
    SerializeConsThen(e, es, tail);
    ParseLogCons(e, SerializeAll(es) + tail);
    ConcatAssociates([e], es, later.entries);
  }

  lemma SerializeConsThen(e: Entry, es: seq<Entry>, tail: seq<Byte>)
    ensures SerializeAll([e] + es) + tail == SerializeEntry(e) + (SerializeAll(es) + tail)
  {
    SerializeCons(e, es);
  }

  lemma {:induction false} EntriesTakeSpace(es: seq<Entry>)
    ensures |SerializeAll(es)| >= SMALLEST_ENTRY * |es|
  {
    if es != [] {
      EntriesTakeSpace(es[1..]);
    }
  }

  /** Recovery inverts serialization, whatever bytes the payloads hold. */
  lemma LogRoundTrip(es: seq<Entry>)
    requires AllFit(es)
    ensures ParseLog(SerializeAll(es)) == Replay(es, None)
  {
    ReplayThen(es, []);
    assert SerializeAll(es) + [] == SerializeAll(es) && es + [] == es;
  }

  /** Whatever the bytes, what is replayed is for topics the format can hold. */
  lemma {:induction false} ReplayedTopicsFit(s: seq<Byte>)
    ensures forall i | 0 <= i < |ParseLog(s).entries| :: TopicFits(ParseLog(s).entries[i].topic)
    decreases |s|
  {
    match ParseEntry(s) {
      case Replayed(e, rest) =>
        assert ReadLine(s).0 == e.topic;
        ReplayedTopicsFit(rest);
      case Skipped(rest) => ReplayedTopicsFit(rest);
      case _ =>
    }
  }

  lemma NoTextAhead(s: seq<Byte>)
    requires |s| > 1 && s[0] == 0xFF
    ensures ParseEntry(s) == Broken(FromUtf8)
  {
    var topic := ReadLine(s).0;
    assert topic != [] && topic[0] == 0xFF;
  }

  /** An entry that is too long is replayed with a shorter record, or the loop breaks. */
  lemma TooLongMisread(e: Entry, rest: seq<Byte>)
    requires TopicFits(e.topic) && |Payload(e.record)| >= U32_LIMIT
    ensures var replay := ParseLog(SerializeEntry(e) + rest);
            replay.error != None || (replay.entries != [] && replay.entries[0] != e)
  {
    var payload := Payload(e.record);
    var size := |payload| % U32_LIMIT;
    TooLongRead(e, rest);
    if e.record.Batched? {
      LongTail(|payload|);
      CutBatchMisread(e.record.batch, size, rest);
    }
  }

  /** Of an entry that is too long the parser sees the first bytes only. */
  lemma TooLongRead(e: Entry, rest: seq<Byte>)
    requires TopicFits(e.topic) && |Payload(e.record)| >= U32_LIMIT
    ensures var payload := Payload(e.record);
            var size := |payload| % U32_LIMIT;
            ParseEntry(SerializeEntry(e) + rest)
            == match ReadRecord(Indicator(e.record), payload[..size])
               case Failure(error) => Broken(error)
               case Success(None) => Skipped((payload + rest)[size..])
               case Success(Some(record)) => Replayed(Entry(e.topic, record), (payload + rest)[size..])
  {
    var indicator, payload := Indicator(e.record), Payload(e.record);
    LayoutThen(e.topic, indicator, |payload|, payload, rest);
    ParseLayout(e.topic, indicator, |payload|, payload + rest);
    RemainderShrinks(|payload|);
    assert (payload + rest)[..|payload| % U32_LIMIT] == payload[..|payload| % U32_LIMIT];
  }

  lemma LongTail(n: nat)
    requires n >= U32_LIMIT
    ensures n - n % U32_LIMIT >= U32_LIMIT
  {
  }

  /** Of a batch that is cut short nothing is replayed, and the loop breaks there or at once after it. */
  lemma CutBatchMisread(batch: Batch, size: nat, rest: seq<Byte>)
    requires size + |END_OF_STREAM| < |Payload(Batched(batch))|
    ensures var payload := Payload(Batched(batch));
            var read := ReadRecord(BATCH_INDICATOR, payload[..size]);
            read.Failure? || (read == Success(None) && ParseEntry((payload + rest)[size..]) == Broken(FromUtf8))
  {
    var payload := Payload(Batched(batch));
    var head, tail := payload[..size], payload[size..];
    CutStream(batch, head, tail);
    if ReadRecord(BATCH_INDICATOR, head).Success? {
      assert (payload + rest)[size..] == tail + rest;
      NoTextAhead(tail + rest);
    }
  }

  lemma {:induction false} UnfitMisread(es: seq<Entry>)
    requires !AllFit(es)
    ensures ParseLog(SerializeAll(es)) != Replay(es, None)
  {
    assert es == [es[0]] + es[1..];
    if Fits(es[0]) {
      UnfitMisread(es[1..]);
      StillMisread(es[0], SerializeAll(es[1..]), es[1..]);
    } else {
      HeadMisread(es[0], SerializeAll(es[1..]), es[1..]);
    }
  }

  lemma StillMisread(e: Entry, later: seq<Byte>, es: seq<Entry>)
    requires Fits(e) && ParseLog(later) != Replay(es, None)
    ensures ParseLog(SerializeEntry(e) + later) != Replay([e] + es, None)
  {
    ParseLogCons(e, later);
    SameHead([e], ParseLog(later).entries, es);
  }

  lemma HeadMisread(e: Entry, rest: seq<Byte>, es: seq<Entry>)
    requires !Fits(e)
    ensures ParseLog(SerializeEntry(e) + rest) != Replay([e] + es, None)
  {
    var replay := ParseLog(SerializeEntry(e) + rest);
    if TopicFits(e.topic) {
      TooLongMisread(e, rest);
    } else {
      ReplayedTopicsFit(SerializeEntry(e) + rest);
    }
    assert ([e] + es)[0] == e;
  }

  /** Recovery gives back the entries of a log, and succeeds, exactly if all of them fit the format. */
  lemma LogRoundTripExact(es: seq<Entry>)
    ensures ParseLog(SerializeAll(es)) == Replay(es, None) <==> AllFit(es)
  {
    if AllFit(es) {
      LogRoundTrip(es);
    } else {
      UnfitMisread(es);
    }
  }

  lemma StopsAt(es: seq<Entry>, bad: seq<Byte>, error: Error)
    requires AllFit(es) && ParseEntry(bad) == Broken(error)
    ensures ParseLog(SerializeAll(es) + bad) == Replay(es, Some(error))
  {
    ReplayThen(es, bad);
    assert es + [] == es;
  }

  /** A line and what follows it, as the loop reads them. */
  lemma LineParsed(topic: Text, after: seq<Byte>)
    requires 0x0A !in topic
    ensures var parsed := ParseEntry(topic + ([0x0A] + after));
            if !ValidUtf8(topic) then parsed == Broken(FromUtf8)
            else if |after| < 5 then parsed == Broken(UnexpectedEof)
            else if after[0] > 1 then parsed == Broken(IndicatorError(after[0] as int))
            else
              var size :=
                after[1] as nat + 256 * after[2] as nat + 65536 * after[3] as nat + 16777216 * after[4] as nat;
              if |after| - 5 < size then parsed == Broken(UnexpectedEof)
              else
                var payload, rest := after[5..5 + size], after[5 + size..];
                && (after[0] == 0 ==> parsed == Replayed(Entry(topic, Raw(payload)), rest))
                && (after[0] == 1 && (payload == [] || payload[0] != 0xFF) ==> parsed == Broken(ArrowError))
  {
    LineLayout(topic, after);
    if ValidUtf8(topic) && |after| >= 5 && after[0] <= 1 {
      var size := DecodeU32(after[1..]);
      if size <= |after| - 5 {
        assert after[5..][..size] == after[5..5 + size] && after[5..][size..] == after[5 + size..];
        if after[0] == 1 && (after[5..][..size] == [] || after[5..][..size][0] != 0xFF) {
          NoStream(after[5..][..size]);
        }
      }
    }
  }

  /** The first thing wrong with what follows a line, and its error. */
  predicate StopsWith(topic: Text, after: seq<Byte>, error: Error) {
    if !ValidUtf8(topic) then error == FromUtf8
    else if |after| < 5 then error == UnexpectedEof
    else if after[0] > 1 then error == IndicatorError(after[0] as int)
    else
      var size := after[1] as nat + 256 * after[2] as nat + 65536 * after[3] as nat + 16777216 * after[4] as nat;
      if |after| - 5 < size then error == UnexpectedEof
      else error == ArrowError && after[0] == 1 && (size == 0 || after[5] != 0xFF)
  }

  /**
   What stops recovery behind entries that fit, and with which error, in the order in which the loop looks: a topic that
   is no text, a header cut short, an unknown kind, a payload cut short, a batch that is no stream.
   */
  lemma WhatStopsRecovery(es: seq<Entry>, topic: Text, after: seq<Byte>, error: Error)
    requires AllFit(es) && 0x0A !in topic && StopsWith(topic, after, error)
    ensures ParseLog(SerializeAll(es) + (topic + ([0x0A] + after))) == Replay(es, Some(error))
  {
    LineParsed(topic, after);
    StopsAt(es, topic + ([0x0A] + after), error);
  }

  /** A batch whose stream opens and then holds no message stops recovery too. */
  lemma BadBatchStops(es: seq<Entry>, topic: Text, schema: Schema, junk: seq<Byte>, later: seq<Byte>)
    requires AllFit(es) && TopicFits(topic) && |junk| >= 4 && junk[0] != 0xFF
    requires |SchemaMessage(schema) + junk| < U32_LIMIT
    ensures var payload := SchemaMessage(schema) + junk;
            ParseLog(SerializeAll(es) + (Layout(topic, 1, |payload|, payload) + later))
            == Replay(es, Some(ArrowError))
  {
    var payload := SchemaMessage(schema) + junk;
    LayoutThen(topic, 1, |payload|, payload, later);
    ParseLayout(topic, 1, |payload|, payload + later);
    RemainderShrinks(|payload|);
    assert (payload + later)[..|payload|] == payload;
    JunkIsNoBatch(schema, junk);
    StopsAt(es, Layout(topic, 1, |payload|, payload) + later, ArrowError);
  }

  lemma JunkIsNoBatch(schema: Schema, junk: seq<Byte>)
    requires |junk| >= 4 && junk[0] != 0xFF
    ensures ReadRecord(BATCH_INDICATOR, SchemaMessage(schema) + junk) == Failure(ArrowError)
  {
    OpenRoundTrip(schema, junk);
    assert junk[..4][0] == junk[0] && (|junk| >= 8 ==> junk[..8][0] == junk[0]);
  }

  /** A stream without a batch is read past, and the loop goes on behind it. */
  lemma EmptyStreamSkipped(es: seq<Entry>, topic: Text, schema: Schema, later: seq<Byte>)
    requires AllFit(es) && TopicFits(topic) && |EncodeStream(schema, [])| < U32_LIMIT
    ensures var payload := EncodeStream(schema, []);
            ParseLog(SerializeAll(es) + (Layout(topic, 1, |payload|, payload) + later))
            == Replay(es + ParseLog(later).entries, ParseLog(later).error)
  {
    var payload := EncodeStream(schema, []);
    LayoutThen(topic, 1, |payload|, payload, later);
    ParseLayout(topic, 1, |payload|, payload + later);
    RemainderShrinks(|payload|);
    assert (payload + later)[..|payload|] == payload && (payload + later)[|payload|..] == later;
    OpenRoundTrip(schema, BatchMessages([]) + END_OF_STREAM);
    assert BatchMessages([]) + END_OF_STREAM == END_OF_STREAM && END_OF_STREAM[..8] == END_OF_STREAM;
    ReplayThen(es, Layout(topic, 1, |payload|, payload) + later);
  }

  /** One record sent to a topic named by a newline makes the whole log unrecoverable. */
  lemma NewlineTopicBreaksRecovery(es: seq<Entry>, later: seq<Byte>)
    requires AllFit(es)
    ensures ParseLog(SerializeAll(es) + (SerializeEntry(Entry([NEWLINE], Raw([]))) + later))
         == Replay(es, Some(IndicatorError(10)))
  {
    var s := SerializeEntry(Entry([NEWLINE], Raw([]))) + later;
    ReplayThen(es, s);
    assert s[0] == NEWLINE && s[1] == NEWLINE;
    IndexOfUnique(s, NEWLINE, 0);
    assert s[..0] == [] && s[1..][0] == NEWLINE;
    assert ParseLog(s) == Replay([], Some(IndicatorError(10)));
    assert es + [] == es;
  }

  /** The first `k` entries of `es`, and not one more, lie completely within the first `n` bytes. */
  ghost predicate CompleteEntries(es: seq<Entry>, n: nat, k: nat) {
    && k <= |es|
    && |SerializeAll(es[..k])| <= n
    && (k < |es| ==> n < |SerializeAll(es[..k + 1])|)
  }

  /**
   Recovery from `p` replays the first `k` entries, and succeeds just when `p` ends with the last of them. Otherwise it
   stops with the error of the entry that is cut.
   */
  ghost predicate ReplaysFirst(es: seq<Entry>, p: seq<Byte>, k: nat) {
    && k <= |es|
    && ParseLog(p).entries == es[..k]
    && SerializeAll(es[..k]) <= p
    && (ParseLog(p).error == None <==> p == SerializeAll(es[..k]))
    && (ParseLog(p).error != None ==>
          k < |es| && ParseLog(p).error == Some(TornError(es[k].topic, p[|SerializeAll(es[..k])|..])))
  }

  /** Cutting a log anywhere: recovery replays the complete entries, and succeeds just at a cut between entries. */
  lemma {:induction false} PrefixRecovery(es: seq<Entry>, p: seq<Byte>) returns (k: nat)
    requires AllFit(es) && p <= SerializeAll(es)
    ensures CompleteEntries(es, |p|, k)
    ensures ReplaysFirst(es, p, k)
  {
    if es == [] {
      assert p == [];
      k := 0;
    } else {
      var e, later := es[0], es[1..];
      assert es == [e] + later;
      SerializeCons(e, later);
      if |p| < |SerializeEntry(e)| {
        TornHead(e, later, p);
        k := 0;
      } else {
        var rest := SplitPrefix(p, SerializeEntry(e), SerializeAll(later));
        k := PrefixRecovery(later, rest);
        CompleteStep(e, later, |rest|, k);
        PrefixStep(e, later, rest, k);
        k := k + 1;
      }
    }
  }

  /** A file that ends anywhere beyond its first `synced` entries keeps at least those. */
  lemma TornTail(es: seq<Entry>, synced: nat, file: seq<Byte>) returns (k: nat)
    requires AllFit(es) && synced <= |es|
    requires SerializeAll(es[..synced]) <= file <= SerializeAll(es)
    ensures synced <= k
    ensures CompleteEntries(es, |file|, k)
    ensures ReplaysFirst(es, file, k)
  {
    k := PrefixRecovery(es, file);
    if k < synced {
      SerializeMonotone(es, k + 1, synced);
    }
  }

  /** The same while `more` is written behind a log of which the first `synced` entries are in the file. */
  lemma TornBehind(es: seq<Entry>, synced: nat, more: seq<Entry>, file: seq<Byte>) returns (k: nat)
    requires AllFit(es) && AllFit(more) && synced <= |es|
    requires SerializeAll(es[..synced]) <= file
    requires file <= SerializeAll(es[..synced]) + SerializeAll(es[synced..]) + SerializeAll(more)
    ensures synced <= k
    ensures CompleteEntries(es + more, |file|, k)
    ensures ReplaysFirst(es + more, file, k)
  {
    SerializeSplit(es, synced);
    SerializeConcat(es, more);
    assert (es + more)[..synced] == es[..synced];
    k := TornTail(es + more, synced, file);
  }

  lemma TornHead(e: Entry, later: seq<Entry>, p: seq<Byte>)
    requires Fits(e) && p <= SerializeEntry(e) + SerializeAll(later) && |p| < |SerializeEntry(e)|
    ensures CompleteEntries([e] + later, |p|, 0)
    ensures ReplaysFirst([e] + later, p, 0)
  {
    assert p == SerializeEntry(e)[..|p|];
    assert ([e] + later)[..0] == [] && SerializeAll([]) == [];
    assert ([e] + later)[..1] == [e] + [];
    SerializeCons(e, []);
    if p != [] {
      TornEntry(e, p);
    }
  }

  lemma CompleteStep(e: Entry, es: seq<Entry>, n: nat, k: nat)
    requires CompleteEntries(es, n, k)
    ensures CompleteEntries([e] + es, |SerializeEntry(e)| + n, k + 1)
  {
    assert ([e] + es)[..k + 1] == [e] + es[..k];
    SerializeCons(e, es[..k]);
    if k < |es| {
      assert ([e] + es)[..k + 2] == [e] + es[..k + 1];
      SerializeCons(e, es[..k + 1]);
    }
  }

  lemma PrefixStep(e: Entry, es: seq<Entry>, rest: seq<Byte>, k: nat)
    requires Fits(e) && ReplaysFirst(es, rest, k)
    ensures ReplaysFirst([e] + es, SerializeEntry(e) + rest, k + 1)
  {
    assert ([e] + es)[..k + 1] == [e] + es[..k];
    ParseLogCons(e, rest);
    SerializeCons(e, es[..k]);
    SameHead(SerializeEntry(e), rest, SerializeAll(es[..k]));
    PrefixUnder(SerializeEntry(e), SerializeAll(es[..k]), rest);
    assert k < |es| ==> ([e] + es)[k + 1] == es[k];
  }
}
