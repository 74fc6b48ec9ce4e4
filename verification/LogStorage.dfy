/**
 The log backend: each topic keeps its stored records, and beside them an index with one
 (record, row) position per offset. The simple view it speeds up is `Flatten`.
 */
module LogStorage {
  import opened Bytes
  import opened ArrowStream
  import opened Records
  import opened Sequences
  import opened ZeroFraming

  datatype RecordOffset = RecordOffset(batchIndex: nat, rowOffset: nat)

  // ---------- The index ----------

  function RecordIndex(b: nat, n: nat): seq<RecordOffset> {
    seq(n, r requires 0 <= r < n => RecordOffset(b, r))
  }

  /** The index `add` builds for a topic that received `rs` one after the other. */
  function BuildIndex(rs: seq<StoredRecord>): seq<RecordOffset> {
    if rs == [] then []
    else BuildIndex(rs[..|rs| - 1]) + RecordIndex(|rs| - 1, NumRows(rs[|rs| - 1]))
  }

  function RowsBefore(rs: seq<StoredRecord>, b: nat): nat
    requires b <= |rs|
  {
    |Flatten(rs[..b])|
  }

  /** `(b, r)` names the row at offset `k`. */
  ghost predicate Locates(rs: seq<StoredRecord>, b: nat, r: nat, k: nat) {
    b < |rs| && r < NumRows(rs[b]) && RowsBefore(rs, b) + r == k
  }

  lemma FlattenLast(rs: seq<StoredRecord>)
    requires rs != []
    ensures Flatten(rs) == Flatten(rs[..|rs| - 1]) + RowsOf(rs[|rs| - 1])
  {
    assert rs == rs[..|rs| - 1] + [rs[|rs| - 1]];
    FlattenSnoc(rs[..|rs| - 1], rs[|rs| - 1]);
  }

  lemma {:induction false} RowsBeforeMonotone(rs: seq<StoredRecord>, b: nat, c: nat)
    requires b < c <= |rs|
    ensures RowsBefore(rs, b) + NumRows(rs[b]) <= RowsBefore(rs, c)
  {
    FlattenLast(rs[..c]);
    assert rs[..c][..c - 1] == rs[..c - 1];
    if b < c - 1 {
      RowsBeforeMonotone(rs, b, c - 1);
    }
  }

  lemma {:induction false} IndexEntries(rs: seq<StoredRecord>)
    ensures |BuildIndex(rs)| == |Flatten(rs)|
    ensures forall k | 0 <= k < |BuildIndex(rs)| ::
              Locates(rs, BuildIndex(rs)[k].batchIndex, BuildIndex(rs)[k].rowOffset, k)
  {
    if rs != [] {
      var n := |rs| - 1;
      var front := rs[..n];
      IndexEntries(front);
      FlattenLast(rs);
      forall k | 0 <= k < |BuildIndex(rs)|
        ensures Locates(rs, BuildIndex(rs)[k].batchIndex, BuildIndex(rs)[k].rowOffset, k)
      {
        var o := BuildIndex(rs)[k];
        if k < |BuildIndex(front)| {
          assert o == BuildIndex(front)[k];
          assert front[..o.batchIndex] == rs[..o.batchIndex];
        } else {
          assert o == RecordOffset(n, k - |BuildIndex(front)|);
        }
      }
    }
  }

  lemma IndexEntry(rs: seq<StoredRecord>, k: nat)
    requires k < |BuildIndex(rs)|
    ensures |BuildIndex(rs)| == |Flatten(rs)|
    ensures Locates(rs, BuildIndex(rs)[k].batchIndex, BuildIndex(rs)[k].rowOffset, k)
  {
    IndexEntries(rs);
  }

  lemma LocationUnique(rs: seq<StoredRecord>, b: nat, r: nat, b': nat, r': nat, k: nat)
    requires Locates(rs, b, r, k) && Locates(rs, b', r', k)
    ensures b == b' && r == r'
  {
    if b < b' {
      RowsBeforeMonotone(rs, b, b');
    } else if b' < b {
      RowsBeforeMonotone(rs, b', b);
    }
  }

  /** The index is exact: it has an entry per row, and entry `k` is `(b, r)` exactly when that is where row `k` lies. */
  lemma IndexExact(rs: seq<StoredRecord>, b: nat, r: nat, k: nat)
    ensures |BuildIndex(rs)| == |Flatten(rs)|
    ensures k < |BuildIndex(rs)| && BuildIndex(rs)[k] == RecordOffset(b, r) <==> Locates(rs, b, r, k)
  {
    IndexEntries(rs);
    if Locates(rs, b, r, k) {
      RowsBeforeMonotone(rs, b, |rs|);
      assert rs[..|rs|] == rs;
      LocationUnique(rs, b, r, BuildIndex(rs)[k].batchIndex, BuildIndex(rs)[k].rowOffset, k);
    }
  }

  /** Index entries increase strictly, record first and row second. */
  lemma IndexIncreases(rs: seq<StoredRecord>, j: nat, k: nat)
    requires j < k < |BuildIndex(rs)|
    ensures var a, b := BuildIndex(rs)[j], BuildIndex(rs)[k];
            a.batchIndex < b.batchIndex || (a.batchIndex == b.batchIndex && a.rowOffset < b.rowOffset)
  {
    IndexEntries(rs);
    var a, b := BuildIndex(rs)[j], BuildIndex(rs)[k];
    if b.batchIndex < a.batchIndex {
      RowsBeforeMonotone(rs, b.batchIndex, a.batchIndex);
    }
  }

  /** The row an index entry points at is the row the flat view has at that offset. */
  lemma IndexPointsAtRow(rs: seq<StoredRecord>, k: nat)
    requires k < |BuildIndex(rs)|
    ensures var o := BuildIndex(rs)[k];
            && k < |Flatten(rs)| && o.batchIndex < |rs| && o.rowOffset < NumRows(rs[o.batchIndex])
            && Flatten(rs)[k] == RowsOf(rs[o.batchIndex])[o.rowOffset]
  {
    var o := BuildIndex(rs)[k];
    IndexEntry(rs, k);
    RowAt(rs, o.batchIndex, o.rowOffset, k);
  }

  lemma RowAt(rs: seq<StoredRecord>, b: nat, r: nat, k: nat)
    requires Locates(rs, b, r, k)
    ensures k < |Flatten(rs)| && Flatten(rs)[k] == RowsOf(rs[b])[r]
  {
    assert rs == rs[..b] + rs[b..];
    FlattenConcat(rs[..b], rs[b..]);
    RowOfFirst(rs[b..], r);
  }

  lemma RowOfFirst(rs: seq<StoredRecord>, r: nat)
    requires rs != [] && r < NumRows(rs[0])
    ensures r < |Flatten(rs)| && Flatten(rs)[r] == RowsOf(rs[0])[r]
  {
  }

  // ---------- What a fetch returns ----------

  function DropFrom(record: StoredRecord, k: nat): StoredRecord
    requires k < NumRows(record)
  {
    match record
    case Raw(_) => record
    case Batched(batch) => Batched(batch.Slice(k, |batch.rows| - k))
  }

  /** The records that remain when the first `k` rows are dropped. */
  function DropRows(rs: seq<StoredRecord>, k: nat): seq<StoredRecord> {
    if rs == [] then []
    else if NumRows(rs[0]) <= k then DropRows(rs[1..], k - NumRows(rs[0]))
    else [DropFrom(rs[0], k)] + rs[1..]
  }

  /** The raw records in order, each followed by a zero byte unless it is the last stored record. */
  function RenderRaw(rs: seq<StoredRecord>): seq<Byte> {
    if rs == [] then []
    else
      (match rs[0]
       case Raw(bytes) => bytes + (if |rs| > 1 then [ZERO] else [])
       case Batched(_) => [])
      + RenderRaw(rs[1..])
  }

  function RenderBatches(batches: seq<Batch>): seq<Byte> {
    if batches == [] then [] else EncodeStream(batches[0].schema, batches)
  }

  function Render(rs: seq<StoredRecord>): seq<Byte> {
    RenderRaw(rs) + RenderBatches(BatchesOf(rs))
  }

  /** `fetch_offset as usize` on an `i64`: a negative offset becomes a huge one. */
  function AsUsize(offset: int): int {
    if offset < 0 then offset + 0x1_0000_0000_0000_0000 else offset
  }

  function FetchSpec(rs: seq<StoredRecord>, offset: int): seq<Byte> {
    if AsUsize(offset) < 0 then [] else Render(DropRows(rs, AsUsize(offset)))
  }

  /** Dropping `k` rows from the stored records drops `k` rows from the flat view. */
  lemma {:induction false} DropRowsFlat(rs: seq<StoredRecord>, k: nat)
    ensures Flatten(DropRows(rs, k)) == if k <= |Flatten(rs)| then Flatten(rs)[k..] else []
  {
    if rs == [] {
    } else if NumRows(rs[0]) <= k {
      DropRowsFlat(rs[1..], k - NumRows(rs[0]));
      if k <= |Flatten(rs)| {
        DropPast(RowsOf(rs[0]), Flatten(rs[1..]), k);
      }
    } else {
      DropFromRows(rs[0], k);
      DropConcat(RowsOf(rs[0]), Flatten(rs[1..]), k);
      FlattenCons(DropFrom(rs[0], k), rs[1..]);
    }
  }

  lemma DropFromRows(record: StoredRecord, k: nat)
    requires k < NumRows(record)
    ensures RowsOf(DropFrom(record, k)) == RowsOf(record)[k..]
  {
  }

  lemma {:induction false} DropRowsBeyond(rs: seq<StoredRecord>, k: nat)
    ensures DropRows(rs, k) == [] <==> k >= |Flatten(rs)|
  {
    if rs != [] && NumRows(rs[0]) <= k {
      DropRowsBeyond(rs[1..], k - NumRows(rs[0]));
    }
  }

  lemma {:induction false} DropRowsAt(rs: seq<StoredRecord>, b: nat, r: nat, k: nat)
    requires Locates(rs, b, r, k)
    ensures DropRows(rs, k) == [DropFrom(rs[b], r)] + rs[b + 1..]
  {
    if b == 0 {
      assert rs[..0] == [];
    } else {
      assert rs[..b][1..] == rs[1..][..b - 1];
      DropRowsAt(rs[1..], b - 1, r, k - NumRows(rs[0]));
    }
  }

  lemma {:induction false} DropRowsOfRaw(rs: seq<StoredRecord>, k: nat)
    requires AllRaw(rs) && k <= |rs|
    ensures DropRows(rs, k) == rs[k..]
  {
    if rs == [] {
    } else if k == 0 {
      assert DropFrom(rs[0], 0) == rs[0];
    } else {
      DropRowsOfRaw(rs[1..], k - 1);
      assert rs[1..][k - 1..] == rs[k..];
    }
  }

  /** A negative offset, an offset past the end and an unknown topic all give empty bytes. */
  lemma FetchOutOfRange(rs: seq<StoredRecord>, offset: int)
    requires |Flatten(rs)| <= 0x8000_0000_0000_0000 && -0x8000_0000_0000_0000 <= offset
    requires offset < 0 || offset >= |Flatten(rs)|
    ensures FetchSpec(rs, offset) == []
  {
    FetchMiss(rs, offset);
  }

  /** A response is empty in one more case: when all that remains is one empty raw record. */
  lemma EmptyFetchExact(rs: seq<StoredRecord>, k: nat)
    ensures FetchSpec(rs, k) == [] <==> k >= |Flatten(rs)| || DropRows(rs, k) == [Raw([])]
  {
    DropRowsBeyond(rs, k);
    var left := DropRows(rs, k);
    if left != [] && Render(left) == [] {
      assert RenderBatches(BatchesOf(left)) == [];
      assert left[0].Raw? && |left| == 1;
      assert left == [Raw([])];
    } else if left == [Raw([])] {
      RenderOfRaw(left);
    }
  }

  lemma {:induction false} BatchesOfConcat(a: seq<StoredRecord>, b: seq<StoredRecord>)
    ensures BatchesOf(a + b) == BatchesOf(a) + BatchesOf(b)
  {
    if a == [] {
      assert a + b == b;
    } else {
      ConcatCons(a, b);
      BatchesOfConcat(a[1..], b);
    }
  }

  lemma {:induction false} BatchesOfRaw(rs: seq<StoredRecord>)
    requires AllRaw(rs)
    ensures BatchesOf(rs) == []
  {
    if rs != [] {
      BatchesOfRaw(rs[1..]);
    }
  }

  lemma {:induction false} BatchesOfBatched(rs: seq<StoredRecord>)
    requires AllBatched(rs)
    ensures RenderRaw(rs) == []
    ensures |BatchesOf(rs)| == |rs| && forall i | 0 <= i < |rs| :: BatchesOf(rs)[i] == rs[i].batch
  {
    if rs != [] {
      BatchesOfBatched(rs[1..]);
    }
  }

  lemma {:induction false} RenderRawOrdered(raws: seq<StoredRecord>, batched: seq<StoredRecord>)
    requires AllRaw(raws) && AllBatched(batched)
    ensures RenderRaw(raws + batched)
         == Join(RawBytes(raws)) + (if raws != [] && batched != [] then [ZERO] else [])
  {
    if raws == [] {
      assert raws + batched == batched;
      BatchesOfBatched(batched);
    } else {
      assert (raws + batched)[1..] == raws[1..] + batched;
      RenderRawOrdered(raws[1..], batched);
      assert RawBytes(raws)[1..] == RawBytes(raws[1..]);
    }
  }

  /** Raw records, then batches: the raw records joined by zero bytes, a zero byte, and the batches as one stream. */
  lemma RenderOrdered(raws: seq<StoredRecord>, batched: seq<StoredRecord>)
    requires AllRaw(raws) && AllBatched(batched)
    ensures Render(raws + batched)
         == Join(RawBytes(raws)) + (if raws != [] && batched != [] then [ZERO] else [])
            + RenderBatches(BatchesOf(batched))
  {
    BatchesOfConcat(raws, batched);
    BatchesOfRaw(raws);
    RenderRawOrdered(raws, batched);
    assert [] + BatchesOf(batched) == BatchesOf(batched);
  }

  /** In any topic a raw record comes as it is, followed by a zero byte unless it is the last record. */
  lemma RawFirst(bytes: seq<Byte>, later: seq<StoredRecord>)
    ensures Render([Raw(bytes)] + later) == bytes + (if later == [] then [] else [0]) + Render(later)
  {
    var rs := [Raw(bytes)] + later;
    assert rs[1..] == later;
    assert [] + BatchesOf(later) == BatchesOf(later);
    ConcatAssociates(bytes + (if later == [] then [] else [0]), RenderRaw(later), RenderBatches(BatchesOf(later)));
  }

  lemma RenderOfRaw(rs: seq<StoredRecord>)
    requires AllRaw(rs)
    ensures Render(rs) == Join(RawBytes(rs))
  {
    RenderOrdered(rs, []);
    assert rs + [] == rs;
  }

  lemma RenderOfBatched(rs: seq<StoredRecord>)
    requires AllBatched(rs) && rs != []
    ensures |BatchesOf(rs)| == |rs| && forall i | 0 <= i < |rs| :: BatchesOf(rs)[i] == rs[i].batch
    ensures Render(rs) == EncodeStream(rs[0].batch.schema, BatchesOf(rs))
  {
    RenderOrdered([], rs);
    BatchesOfBatched(rs);
    assert [] + rs == rs;
  }

  lemma FlattenPrefix(rs: seq<StoredRecord>, later: seq<StoredRecord>)
    requires rs <= later
    ensures Flatten(later) == Flatten(rs) + Flatten(later[|rs|..])
  {
    assert later == rs + later[|rs|..];
    FlattenConcat(rs, later[|rs|..]);
  }

  /** The rows from `k` on, and then from the offset reached, are the rows from `k` on in the log as it is later. */
  lemma FetchesCompose(rs: seq<StoredRecord>, later: seq<StoredRecord>, k: nat)
    requires rs <= later && k <= |Flatten(rs)|
    ensures var got := Flatten(DropRows(rs, k));
            && k + |got| == |Flatten(rs)|
            && Flatten(DropRows(later, k)) == got + Flatten(DropRows(later, |Flatten(rs)|))
  {
    FlattenPrefix(rs, later);
    DropRowsFlat(rs, k);
    DropRowsFlat(later, k);
    DropRowsFlat(later, |Flatten(rs)|);
    SplitSuffix(Flatten(rs), Flatten(later[|rs|..]), k);
  }

  // ---------- The backend ----------

  /** `map.entry(topic).or_insert(VecDeque::new())`, read. */
  function Lookup<T>(m: map<Text, seq<T>>, topic: Text): seq<T> {
    if topic in m then m[topic] else []
  }

  /** The index of the topic is the one its records call for. */
  ghost predicate IndexAgrees(
    topics: map<Text, seq<StoredRecord>>, offsets: map<Text, seq<RecordOffset>>, topic: Text) {
    Lookup(offsets, topic) == BuildIndex(Lookup(topics, topic))
  }

  lemma IndexesAgreeAfterAdd(
    topics: map<Text, seq<StoredRecord>>, offsets: map<Text, seq<RecordOffset>>, topic: Text, record: StoredRecord)
    requires forall t :: IndexAgrees(topics, offsets, t)
    ensures var queue := Lookup(topics, topic);
            var topics' := topics[topic := queue + [record]];
            var offsets' := offsets[topic := Lookup(offsets, topic) + RecordIndex(|queue|, NumRows(record))];
            forall t :: IndexAgrees(topics', offsets', t)
  {
    var queue := Lookup(topics, topic);
    var topics' := topics[topic := queue + [record]];
    var offsets' := offsets[topic := Lookup(offsets, topic) + RecordIndex(|queue|, NumRows(record))];
    forall t ensures IndexAgrees(topics', offsets', t) {
      assert IndexAgrees(topics, offsets, t);
      if t == topic {
        BuildIndexSnoc(queue, record);
      }
    }
  }

  lemma IndexesAgreeAfterFetch(
    topics: map<Text, seq<StoredRecord>>, offsets: map<Text, seq<RecordOffset>>, topic: Text)
    requires forall t :: IndexAgrees(topics, offsets, t)
    ensures var topics' := topics[topic := Lookup(topics, topic)];
            var offsets' := offsets[topic := Lookup(offsets, topic)];
            forall t :: IndexAgrees(topics, offsets', t) && IndexAgrees(topics', offsets', t)
  {
    var topics' := topics[topic := Lookup(topics, topic)];
    var offsets' := offsets[topic := Lookup(offsets, topic)];
    forall t ensures IndexAgrees(topics, offsets', t) && IndexAgrees(topics', offsets', t) {
      assert IndexAgrees(topics, offsets, t);
    }
  }

  lemma BuildIndexSnoc(rs: seq<StoredRecord>, record: StoredRecord)
    ensures BuildIndex(rs + [record]) == BuildIndex(rs) + RecordIndex(|rs|, NumRows(record))
  {
    assert (rs + [record])[..|rs|] == rs;
  }

  class InMemoryLog {
    var topics: map<Text, seq<StoredRecord>>
    var offsets: map<Text, seq<RecordOffset>>

    function Stored(topic: Text): seq<StoredRecord>
      reads this
    {
      Lookup(topics, topic)
    }

    ghost predicate Valid()
      reads this
    {
      forall topic :: IndexAgrees(topics, offsets, topic)
    }

    /** The backend's history is `es`. */
    ghost predicate Holds(es: seq<Entry>)
      reads this
    {
      forall topic :: Stored(topic) == RecordsOf(es, topic)
    }

    constructor ()
      ensures Valid()
      ensures forall topic :: Stored(topic) == []
    {
      topics, offsets := map[], map[];
    }

    method Add(topic: Text, record: StoredRecord)
      requires Valid()
      modifies this
      ensures Valid()
      ensures forall t :: Stored(t) == old(Stored(t)) + (if t == topic then [record] else [])
    {
      var queue := Lookup(topics, topic);
      var offsetQueue := Lookup(offsets, topic);
      var batchIndex := |queue|;
      match record {
        case Raw(_) =>
          offsetQueue := offsetQueue + [RecordOffset(batchIndex, 0)];
        case Batched(batch) =>
          var numRows := |batch.rows|;
          for rowOffset := 0 to numRows
            invariant offsetQueue == Lookup(offsets, topic) + RecordIndex(batchIndex, rowOffset)
          {
            offsetQueue := offsetQueue + [RecordOffset(batchIndex, rowOffset)];
          }
      }
      assert offsetQueue == Lookup(offsets, topic) + RecordIndex(batchIndex, NumRows(record));
      IndexesAgreeAfterAdd(topics, offsets, topic, record);
      offsets := offsets[topic := offsetQueue];
      topics := topics[topic := queue + [record]];
    }

    /** Entries for unknown topics are created on the way, which no caller can see. */
    method Fetch(topic: Text, fetchOffset: int) returns (bytes: seq<Byte>)
      requires Valid()
      modifies this
      ensures Valid()
      ensures forall t :: Stored(t) == old(Stored(t))
      ensures bytes == FetchSpec(Stored(topic), fetchOffset)
    {
      var offsetQueue := Lookup(offsets, topic);
      var queue := Lookup(topics, topic);
      assert IndexAgrees(topics, offsets, topic);
      IndexEntries(queue);
      IndexesAgreeAfterFetch(topics, offsets, topic);
      offsets := offsets[topic := offsetQueue];
      var position := AsUsize(fetchOffset);
      if !(0 <= position < |offsetQueue|) {
        FetchMiss(queue, fetchOffset);
        return [];
      }
      topics := topics[topic := queue];
      var records, batches := Collect(queue, offsetQueue[position], position);
      if |batches| > 0 {
        records := records + EncodeStream(batches[0].schema, batches);
      }
      bytes := records;
    }

    /** The loop of `fetch`, from a position of the queue to its end. */
    static method Collect(queue: seq<StoredRecord>, recordOffset: RecordOffset, ghost position: nat)
      returns (records: seq<Byte>, batches: seq<Batch>)
      requires Locates(queue, recordOffset.batchIndex, recordOffset.rowOffset, position)
      ensures records == RenderRaw(DropRows(queue, position))
      ensures batches == BatchesOf(DropRows(queue, position))
    {
      records, batches := [], [];
      DropRowsAt(queue, recordOffset.batchIndex, recordOffset.rowOffset, position);
      ghost var wanted := DropRows(queue, position);
      ghost var left := wanted;
      NothingCollected(wanted);

      var i := recordOffset.batchIndex;
      while i < |queue|
        invariant recordOffset.batchIndex <= i <= |queue|
        invariant left == LeftFrom(queue, recordOffset, i)
        invariant i == recordOffset.batchIndex ==> batches == []
        invariant i > recordOffset.batchIndex && batches == [] ==> recordOffset.rowOffset == 0
        invariant CollectedUpTo(records, batches, left, wanted)
      {
        LeftStep(queue, recordOffset, i);
        CollectStep(records, batches, left, wanted);
        match queue[i] {
          case Raw(bytes) =>
            records := records + bytes;
            if i + 1 < |queue| {
              records := records + [ZERO];
            } else {
              assert records + [] == records;
            }
          case Batched(batch) =>
            // Only the first batch can begin in the middle.
            if batches == [] {
              WholeSlice(batch);
              batches := batches + [batch.Slice(recordOffset.rowOffset, |batch.rows| - recordOffset.rowOffset)];
            } else {
              batches := batches + [batch];
            }
        }
        i, left := i + 1, left[1..];
      }
      assert left == [] && records + [] == records && batches + [] == batches;
    }
  }

  lemma WholeSlice(batch: Batch)
    ensures batch.Slice(0, |batch.rows|) == batch
  {
  }

  lemma FetchMiss(rs: seq<StoredRecord>, offset: int)
    requires !(0 <= AsUsize(offset) < |Flatten(rs)|)
    ensures FetchSpec(rs, offset) == []
  {
    if 0 <= AsUsize(offset) {
      DropRowsBeyond(rs, AsUsize(offset));
    }
  }

  /** What a fetch from a position works on when it has come to record `i`: only the first can begin in the middle. */
  function LeftFrom(queue: seq<StoredRecord>, from: RecordOffset, i: nat): seq<StoredRecord>
    requires from.batchIndex < |queue| && from.rowOffset < NumRows(queue[from.batchIndex])
    requires from.batchIndex <= i <= |queue|
  {
    if i == from.batchIndex then [DropFrom(queue[i], from.rowOffset)] + queue[i + 1..] else queue[i..]
  }

  lemma LeftStep(queue: seq<StoredRecord>, from: RecordOffset, i: nat)
    requires from.batchIndex < |queue| && from.rowOffset < NumRows(queue[from.batchIndex])
    requires from.batchIndex <= i < |queue|
    ensures var left := LeftFrom(queue, from, i);
            && |left| == |queue| - i
            && left[0] == (if i == from.batchIndex then DropFrom(queue[i], from.rowOffset) else queue[i])
            && left[1..] == LeftFrom(queue, from, i + 1)
  {
  }

  /** What has been collected, with what is left, gives what is wanted. */
  ghost predicate CollectedUpTo(
    records: seq<Byte>, batches: seq<Batch>, left: seq<StoredRecord>, wanted: seq<StoredRecord>) {
    && records + RenderRaw(left) == RenderRaw(wanted)
    && batches + BatchesOf(left) == BatchesOf(wanted)
  }

  lemma NothingCollected(wanted: seq<StoredRecord>)
    ensures CollectedUpTo([], [], wanted, wanted)
  {
    assert [] + RenderRaw(wanted) == RenderRaw(wanted);
    assert [] + BatchesOf(wanted) == BatchesOf(wanted);
  }

  /** Moving the head of the remaining records to what has been collected. */
  lemma CollectStep(records: seq<Byte>, batches: seq<Batch>, left: seq<StoredRecord>, wanted: seq<StoredRecord>)
    requires left != [] && CollectedUpTo(records, batches, left, wanted)
    ensures left[0].Raw? ==>
              CollectedUpTo(
                records + left[0].bytes + (if |left| > 1 then [ZERO] else []), batches, left[1..], wanted)
    ensures left[0].Batched? ==> CollectedUpTo(records, batches + [left[0].batch], left[1..], wanted)
  {
    match left[0] {
      case Raw(bytes) =>
        var separator: seq<Byte> := if |left| > 1 then [ZERO] else [];
        ConcatAssociates(records, bytes + separator, RenderRaw(left[1..]));
        ConcatAssociates(records, bytes, separator);
        assert [] + BatchesOf(left[1..]) == BatchesOf(left[1..]);
      case Batched(batch) =>
        ConcatAssociates(batches, [batch], BatchesOf(left[1..]));
        assert [] + RenderRaw(left[1..]) == RenderRaw(left[1..]);
    }
  }
}
