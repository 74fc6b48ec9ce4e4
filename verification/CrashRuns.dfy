/**
 Whole runs of the broker and its consumers, each request atomic, with any number of crashes: what
 every run keeps of the log.
 */
module CrashRuns {
  import opened Wrappers
  import opened Bytes
  import opened ArrowStream
  import opened Records
  import opened Sequences
  import opened ZeroFraming
  import opened WalFormat
  import opened LogStorage
  import opened OffsetStore
  import opened TopicRules
  import opened BrokerState
  import opened Consumers

  /**
   A connection of a client inside a call, whose requests are handled in the order they are sent: the next one asks
   for the records from an offset on, or commits the end of the rows that the client was handed from there.
   */
  datatype Connection =
    | Fetching(key: Key, call: Call, from: int)
    | Committing(key: Key, call: Call, from: int, rows: seq<Row>)

  /**
   Broker, committed offsets and their file, and the connections; and two histories: `received` joins
   all rows a group was handed for a topic at the offsets they came from, `acknowledged` appends the
   rows whose commit has arrived.
   */
  datatype System = System(
    broker: Broker,
    offsets: map<Key, int>,
    file: Option<map<Text, int>>,
    connections: seq<Connection>,
    received: map<Key, seq<Row>>,
    acknowledged: map<Key, seq<Row>>)

  const INITIAL := System(FRESH, map[], None, [], map[], map[])

  /**
   The requests of a call are `Ask`, for the committed offset, `Fetch`, for the records, and `Commit`; with `Leave` a
   client is gone. `Spill` is for a writer that empties itself at other moments than the one of the standard library.
   */
  datatype Event =
    | Create(topic: Text, schema: Option<Schema>)
    | Add(topic: Text, record: seq<Byte>)
    | Spill(k: nat)
    | Ask(key: Key, call: Call)
    | Fetch(i: nat)
    | Commit(i: nat, file: map<Text, int>)
    | Leave(i: nat)
    | Crash

  function RowsFor(m: map<Key, seq<Row>>, key: Key): seq<Row> {
    if key in m then m[key] else []
  }

  /** The log of a topic, as consumers see it. */
  function Log(s: System, topic: Text): seq<Row> {
    TopicRows(s.broker.published, topic)
  }

  /** The records from an offset on. */
  function Left(s: System, topic: Text, from: int): seq<StoredRecord> {
    if from < 0 then [] else DropRows(RecordsOf(s.broker.published, topic), from)
  }

  function ResponseTo(s: System, c: Connection): seq<Byte> {
    Response(s.broker.published, c.key.1, c.from)
  }

  /** The rows received, once `rows` from `start` on have come in as well. */
  function Overlay(received: seq<Row>, start: int, rows: seq<Row>): seq<Row> {
    if 0 <= start <= |received| && start + |rows| > |received| then received[..start] + rows else received
  }

  function Without<T>(xs: seq<T>, i: nat): seq<T>
    requires i < |xs|
  {
    xs[..i] + xs[i + 1..]
  }

  /** The fetch leads to a commit. */
  predicate LeadsToCommit(s: System, c: Connection) {
    Commits(c.call, ResponseTo(s, c))
  }

  function RowsHanded(s: System, c: Connection): seq<Row> {
    Handed(c.call, ResponseTo(s, c))
  }

  /** Without data `consume_continuos` asks again, and the other calls are over; so are all after an error. */
  function AfterFetch(s: System, i: nat): System
    requires i < |s.connections|
  {
    var c := s.connections[i];
    if LeadsToCommit(s, c) then
      s.(connections := s.connections[i := Committing(c.key, c.call, c.from, RowsHanded(s, c))],
         received := s.received[c.key := Overlay(RowsFor(s.received, c.key), c.from, RowsHanded(s, c))])
    else if c.call.ConsumeContinuously? && ResponseTo(s, c) == [] then s
    else s.(connections := Without(s.connections, i))
  }

  function OffsetsAfter(s: System, i: nat): map<Key, int>
    requires i < |s.connections| && s.connections[i].Committing?
  {
    var c := s.connections[i];
    s.offsets[c.key := c.from + |c.rows|]
  }

  /** After its commit `consume_continuos` goes on from there. */
  function AfterCommit(s: System, i: nat, file: map<Text, int>): System
    requires i < |s.connections| && s.connections[i].Committing?
  {
    var c := s.connections[i];
    s.(offsets := OffsetsAfter(s, i),
       file := Some(file),
       connections := if c.call.ConsumeContinuously?
                      then s.connections[i := Fetching(c.key, c.call, c.from + |c.rows|)]
                      else Without(s.connections, i),
       acknowledged := s.acknowledged[c.key := RowsFor(s.acknowledged, c.key) + c.rows])
  }

  /** `OffsetManager::recover`; without a file there is nothing to restore. */
  function RestoredOffsets(s: System): map<Key, int> {
    if s.file.Some? && Splittable(s.file.value) then SplitAll(s.file.value) else map[]
  }

  /** The process dies and a new one recovers from the two files; the clients' connections are gone. */
  function AfterCrash(s: System): System
    requires s.broker.synced <= |s.broker.wal|
  {
    RestartedOver(s, Durable(s.broker))
  }

  function RestartedOver(s: System, file: seq<Byte>): System {
    s.(broker := Restart(file), offsets := RestoredOffsets(s), connections := [])
  }

  /** Both files can be read, so that a new process starts. */
  predicate Recoverable(s: System)
    requires s.broker.synced <= |s.broker.wal|
  {
    ParseLog(Durable(s.broker)).error == None && (s.file.Some? ==> Splittable(s.file.value))
  }

  /** When a step can be taken at all; what the code itself rejects is part of the step. */
  ghost predicate Enabled(s: System, ev: Event) {
    && s.broker.synced <= |s.broker.wal|
    && match ev
       case Create(_, _) => true
       case Add(_, _) => true
       case Spill(k) => s.broker.synced <= k <= |s.broker.wal|
       case Ask(_, _) => true
       case Fetch(i) => i < |s.connections| && s.connections[i].Fetching?
       case Commit(i, file) =>
         i < |s.connections| && s.connections[i].Committing? && Collected(OffsetsAfter(s, i), file)
       case Leave(i) => i < |s.connections|
       case Crash => Recoverable(s)
  }

  function Apply(s: System, n: nat, ev: Event): System
    requires s.broker.synced <= |s.broker.wal|
    requires ev.Fetch? || ev.Commit? || ev.Leave? ==> ev.i < |s.connections|
    requires ev.Commit? ==> s.connections[ev.i].Committing?
  {
    match ev
    case Create(topic, schema) => s.(broker := CreateSpec(s.broker, topic, schema).0)
    case Add(topic, record) => s.(broker := AddSpec(s.broker, n, topic, record).0)
    case Spill(k) => s.(broker := SpillTo(s.broker, k))
    case Ask(key, call) => s.(connections := s.connections + [Fetching(key, call, OffsetOf(s.offsets, key))])
    case Fetch(i) => AfterFetch(s, i)
    case Commit(i, file) => AfterCommit(s, i, file)
    case Leave(i) => s.(connections := Without(s.connections, i))
    case Crash => AfterCrash(s)
  }

  ghost predicate Step(n: nat, s: System, ev: Event, s': System) {
    Enabled(s, ev) && s' == Apply(s, n, ev)
  }

  /** A run from an empty disk: `states[i + 1]` follows from `states[i]` by `events[i]`. */
  ghost predicate IsRun(n: nat, states: seq<System>, events: seq<Event>) {
    && |states| == |events| + 1
    && states[0] == INITIAL
    && forall i | 0 <= i < |events| :: Step(n, states[i], events[i], states[i + 1])
  }

  /** If the record is accepted, the log format can hold it. */
  predicate AddFits(b: Broker, topic: Text, record: seq<Byte>) {
    Classify(b.metadata, topic, record).Success? ==> Fits(Entry(topic, Classify(b.metadata, topic, record).value))
  }

  /** Every record accepted in the run fits the log format. */
  ghost predicate AddsFit(states: seq<System>, events: seq<Event>)
    requires |states| == |events| + 1
  {
    forall i | 0 <= i < |events| && events[i].Add? :: AddFits(states[i].broker, events[i].topic, events[i].record)
  }

  /** Consumers change nothing in the broker. */
  lemma ConsumerStep(n: nat, s: System, ev: Event, s': System)
    requires Step(n, s, ev, s') && (ev.Ask? || ev.Fetch? || ev.Commit? || ev.Leave?)
    ensures s'.broker == s.broker
  {
  }

  lemma StepKeepsBroker(n: nat, s: System, ev: Event, s': System)
    requires Inv(s.broker, n) && Step(n, s, ev, s')
    requires ev.Add? ==> AddFits(s.broker, ev.topic, ev.record)
    ensures Inv(s'.broker, n)
    ensures s.broker.published <= s'.broker.published
  {
    match ev {
      case Create(topic, schema) => CreateKeepsInv(s.broker, n, topic, schema);
      case Add(topic, record) => AddKeepsInv(s.broker, n, topic, record);
      case Spill(k) => SpillKeepsInv(s.broker, n, k);
      case Crash => CrashRecovers(s.broker, n);
      case _ => ConsumerStep(n, s, ev, s');
    }
  }

  lemma {:induction false} RunKeepsBroker(n: nat, states: seq<System>, events: seq<Event>, i: nat)
    requires IsRun(n, states, events) && AddsFit(states, events) && i < |states|
    ensures Inv(states[i].broker, n)
  {
    if i > 0 {
      RunKeepsBroker(n, states, events, i - 1);
      StepKeepsBroker(n, states[i - 1], events[i - 1], states[i]);
    }
  }

  // ---------- What every run promises of the log ----------

  /**
   After any run a crash and a recovery succeed, and give the entries in the file: all that
   was published, and all that was accepted but for the last entries, of which there are fewer than the threshold
   and no more than the writer has room for. The metadata recovered is that of the topics with a batch among them, and
   recovering once more changes nothing.
   */
  lemma RunsSurviveCrashes(n: nat, states: seq<System>, events: seq<Event>, i: nat)
    requires IsRun(n, states, events) && AddsFit(states, events) && i < |states|
    ensures states[i].broker.synced <= |states[i].broker.wal|
    ensures var s, s' := states[i].broker, Restart(Durable(states[i].broker));
            && ParseLog(Durable(s)) == Replay(s'.published, None)
            && s.published <= s'.published <= s.wal
            && |s.wal| - |s'.published| <= Capped(Slack(n))
            && s'.metadata == WithBatches(s.metadata, s'.published)
            && Restart(Durable(s')) == s'
  {
    RunKeepsBroker(n, states, events, i);
    CrashRecovers(states[i].broker, n);
  }

  /** The writer empties itself only for want of room, as part of an add. */
  ghost predicate NoSpill(events: seq<Event>) {
    forall i | 0 <= i < |events| :: !events[i].Spill?
  }

  /** A run of records that fit, with the writer of the standard library, and its last state. */
  ghost predicate EndsAt(n: nat, states: seq<System>, events: seq<Event>, s: System) {
    IsRun(n, states, events) && AddsFit(states, events) && NoSpill(events) && states[|events|] == s
  }

  lemma Extend(n: nat, states: seq<System>, events: seq<Event>, s: System, ev: Event)
    returns (states': seq<System>, events': seq<Event>)
    requires EndsAt(n, states, events, s) && Enabled(s, ev) && !ev.Spill?
    requires ev.Add? ==> AddFits(s.broker, ev.topic, ev.record)
    ensures EndsAt(n, states', events', Apply(s, n, ev))
    ensures states' == states + [Apply(s, n, ev)] && events' == events + [ev]
  {
    states', events' := ExtendRun(n, states, events, ev);
  }

  lemma ExtendRun(n: nat, states: seq<System>, events: seq<Event>, ev: Event)
    returns (states': seq<System>, events': seq<Event>)
    requires IsRun(n, states, events) && AddsFit(states, events) && Enabled(states[|events|], ev)
    requires ev.Add? ==> AddFits(states[|events|].broker, ev.topic, ev.record)
    ensures IsRun(n, states', events') && AddsFit(states', events')
    ensures states' == states + [Apply(states[|events|], n, ev)] && events' == events + [ev]
  {
    var next := Apply(states[|events|], n, ev);
    states', events' := states + [next], events + [ev];
    StepsSnoc(states, events, (s, ev, s') => Step(n, s, ev, s'), ev, next);
    AddsFitSnoc(states, events, ev, next);
  }

  lemma AddsFitSnoc(states: seq<System>, events: seq<Event>, ev: Event, next: System)
    requires |states| == |events| + 1 && AddsFit(states, events)
    requires ev.Add? ==> AddFits(states[|events|].broker, ev.topic, ev.record)
    ensures AddsFit(states + [next], events + [ev])
  {
    var fits := (s: System, ev: Event) => ev.Add? ==> AddFits(s.broker, ev.topic, ev.record);
    RelatedSnoc(states, events, fits, next, ev);
    assert forall i | 0 <= i < |events| + 1 :: fits((states + [next])[i], (events + [ev])[i]);
  }

  /** Adding `m` empty records to an empty broker, short of the threshold and of the writer's room, stays in memory. */
  lemma {:induction false} AddsInMemory(n: nat, m: nat)
    returns (states: seq<System>, events: seq<Event>, s: System)
    requires m <= Capped(Slack(n))
    ensures EndsAt(n, states, events, s)
    ensures var b := s.broker; |b.wal| == m && |b.buffer| == m && b.synced == 0 && b.metadata == map[]
    ensures |Pending(s.broker)| == m * SMALLEST_ENTRY
  {
    if m == 0 {
      states, events, s := [INITIAL], [], INITIAL;
      NothingPending(FRESH);
    } else {
      states, events, s := AddsInMemory(n, m - 1);
      assert ValidUtf8([]);
      WrittenBytes(s.broker, Entry([], Raw([])));
      states, events := Extend(n, states, events, s, Add([], []));
      s := Apply(s, n, Add([], []));
    }
  }

  /** The bound is attained for every threshold: some run loses as many accepted entries in one crash. */
  lemma LossReachesBound(n: nat) returns (states: seq<System>, events: seq<Event>, s: System)
    ensures EndsAt(n, states, events, s)
    ensures s.broker.synced <= |s.broker.wal|
    ensures |s.broker.wal| - |Restart(Durable(s.broker)).published| == Capped(Slack(n))
  {
    states, events, s := AddsInMemory(n, Capped(Slack(n)));
    LogRoundTrip([]);
    assert s.broker.wal[..0] == [] && SerializeAll([]) == [];
  }

  /** The entry that adding the record would write. */
  function EntryToAdd(b: Broker, topic: Text, record: seq<Byte>): Entry
    requires Classify(b.metadata, topic, record).Success?
  {
    Entry(topic, Classify(b.metadata, topic, record).value)
  }

  /** What the file can hold when the process dies within an add: of what may be written, any number of bytes. */
  ghost predicate TornFile(b: Broker, topic: Text, record: seq<Byte>, file: seq<Byte>) {
    && b.synced <= |b.wal|
    && Classify(b.metadata, topic, record).Success?
    && Durable(b) <= file <= Durable(b) + Pending(b) + SerializeEntry(EntryToAdd(b, topic, record))
  }

  /**
   A crash within an add, after any run: the complete entries are replayed, nothing published is lost and no more
   of the accepted records than in a crash between calls, whether or not the server then starts.
   */
  lemma RunsSurviveTornWrites(
    n: nat, states: seq<System>, events: seq<Event>, i: nat, topic: Text, record: seq<Byte>, file: seq<Byte>)
    returns (k: nat)
    requires IsRun(n, states, events) && AddsFit(states, events) && i < |states|
    requires AddFits(states[i].broker, topic, record) && TornFile(states[i].broker, topic, record, file)
    ensures var b := states[i].broker;
            var log := b.wal + [EntryToAdd(b, topic, record)];
            && CompleteEntries(log, |file|, k) && ReplaysFirst(log, file, k)
            && b.published <= log[..k]
            && |b.wal| - k <= Capped(Slack(n))
  {
    var b := states[i].broker;
    RunKeepsBroker(n, states, events, i);
    k := TornCrash(b, n, EntryToAdd(b, topic, record), file);
  }

  /** The offset file can always be read. */
  lemma {:induction false} RunKeepsFile(n: nat, states: seq<System>, events: seq<Event>, i: nat)
    requires IsRun(n, states, events) && i < |states|
    ensures states[i].file.Some? ==> Splittable(states[i].file.value)
  {
    if i > 0 {
      RunKeepsFile(n, states, events, i - 1);
      assert Step(n, states[i - 1], events[i - 1], states[i]);
      StepKeepsFile(n, states[i - 1], events[i - 1], states[i]);
    }
  }

  lemma StepKeepsFile(n: nat, s: System, ev: Event, s': System)
    requires Step(n, s, ev, s') && (s.file.Some? ==> Splittable(s.file.value))
    ensures s'.file.Some? ==> Splittable(s'.file.value)
  {
    if ev.Commit? {
      FlushRecoverExact(OffsetsAfter(s, ev.i), ev.file);
    }
  }

  /** The process dies with the first `k` entries in the file. */
  lemma SpillAndCrash(n: nat, states: seq<System>, events: seq<Event>, k: nat)
    returns (states': seq<System>, events': seq<Event>)
    requires IsRun(n, states, events) && AddsFit(states, events)
    requires states[|events|].broker.synced <= k <= |states[|events|].broker.wal|
    ensures IsRun(n, states', events') && AddsFit(states', events') && states <= states' && events <= events'
    ensures var s := states[|events|];
            states'[|events'|] == RestartedOver(s, SerializeAll(s.broker.wal[..k]))
  {
    var s := states[|events|];
    states', events' := ExtendRun(n, states, events, Spill(k));
    assert states'[|events'|] == s.(broker := SpillTo(s.broker, k));
    states', events' := CrashNow(n, states', events');
  }

  /** A run can always go on with a crash. */
  lemma CrashNow(n: nat, states: seq<System>, events: seq<Event>) returns (states': seq<System>, events': seq<Event>)
    requires IsRun(n, states, events) && AddsFit(states, events)
    ensures IsRun(n, states', events') && AddsFit(states', events') && states <= states' && events <= events'
    ensures var s := states[|events|];
            s.broker.synced <= |s.broker.wal| && states'[|events'|] == RestartedOver(s, Durable(s.broker))
  {
    RunKeepsBroker(n, states, events, |events|);
    RunKeepsFile(n, states, events, |events|);
    CrashRecovers(states[|events|].broker, n);
    states', events' := ExtendRun(n, states, events, Crash);
  }

  /** The add is done, and then the process dies with everything in the file. */
  lemma AddAndCrash(n: nat, states: seq<System>, events: seq<Event>, topic: Text, record: seq<Byte>)
    returns (states': seq<System>, events': seq<Event>)
    requires IsRun(n, states, events) && AddsFit(states, events)
    requires var b := states[|events|].broker;
             AddFits(b, topic, record) && Classify(b.metadata, topic, record).Success? && b.synced <= |b.wal|
    ensures IsRun(n, states', events') && AddsFit(states', events') && states <= states' && events <= events'
    ensures var s := states[|events|];
            states'[|events'|]
            == RestartedOver(s, SerializeAll(s.broker.wal + [EntryToAdd(s.broker, topic, record)]))
  {
    var s := states[|events|];
    var log := s.broker.wal + [EntryToAdd(s.broker, topic, record)];
    RunKeepsBroker(n, states, events, |events|);
    AddKeepsInv(s.broker, n, topic, record);
    states', events' := ExtendRun(n, states, events, Add(topic, record));
    var added := AddSpec(s.broker, n, topic, record).0;
    assert states'[|events'|] == s.(broker := added) && added.wal == log && log[..|log|] == log;
    states', events' := SpillAndCrash(n, states', events', |log|);
  }

  /** Where the server starts from a torn file, the run goes on, with all that is said of runs. */
  lemma TornCrashesAreRuns(
    n: nat, states: seq<System>, events: seq<Event>, topic: Text, record: seq<Byte>, file: seq<Byte>)
    returns (states': seq<System>, events': seq<Event>)
    requires IsRun(n, states, events) && AddsFit(states, events)
    requires var b := states[|events|].broker; AddFits(b, topic, record) && TornFile(b, topic, record, file)
    requires ParseLog(file).error == None
    ensures IsRun(n, states', events') && AddsFit(states', events') && states <= states' && events <= events'
    ensures states'[|events'|] == RestartedOver(states[|events|], file)
  {
    var b := states[|events|].broker;
    var log, k := TornAt(n, states, events, topic, record, file);
    if k <= |b.wal| {
      assert log[..k] == b.wal[..k];
      states', events' := SpillAndCrash(n, states, events, k);
    } else {
      assert log[..k] == log;
      states', events' := AddAndCrash(n, states, events, topic, record);
    }
  }

  /** Such a file holds whole entries. */
  lemma TornAt(n: nat, states: seq<System>, events: seq<Event>, topic: Text, record: seq<Byte>, file: seq<Byte>)
    returns (log: seq<Entry>, k: nat)
    requires IsRun(n, states, events) && AddsFit(states, events)
    requires var b := states[|events|].broker; AddFits(b, topic, record) && TornFile(b, topic, record, file)
    requires ParseLog(file).error == None
    ensures var b := states[|events|].broker; log == b.wal + [EntryToAdd(b, topic, record)] && b.synced <= k
    ensures k <= |log| && file == SerializeAll(log[..k])
  {
    var b := states[|events|].broker;
    log := b.wal + [EntryToAdd(b, topic, record)];
    RunKeepsBroker(n, states, events, |events|);
    k := TornCrash(b, n, EntryToAdd(b, topic, record), file);
  }

  /** Between calls the buffer holds fewer entries than the configured number, and none when that is zero. */
  lemma RunsBoundTheBuffer(n: nat, states: seq<System>, events: seq<Event>, i: nat)
    requires IsRun(n, states, events) && AddsFit(states, events) && i < |states|
    ensures states[i].broker.buffer == [] || |states[i].broker.buffer| < n
  {
    RunKeepsBroker(n, states, events, i);
  }

  lemma PublishedOnlyGrows(n: nat, states: seq<System>, events: seq<Event>, i: nat, j: nat)
    requires IsRun(n, states, events) && AddsFit(states, events) && i <= j < |states|
    ensures states[i].broker.published <= states[j].broker.published
  {
    var logs := seq(|states|, k requires 0 <= k < |states| => states[k].broker.published);
    forall k | 0 <= k < |logs| - 1 ensures logs[k] <= logs[k + 1] {
      RunKeepsBroker(n, states, events, k);
      StepKeepsBroker(n, states[k], events[k], states[k + 1]);
    }
    ChainGrows(logs, i, j);
  }

  /** An offset that denotes a row denotes that row forever, through later calls and crashes. */
  lemma RowsKeepTheirOffsets(
    n: nat, states: seq<System>, events: seq<Event>, i: nat, j: nat, topic: Text)
    requires IsRun(n, states, events) && AddsFit(states, events) && i <= j < |states|
    ensures Log(states[i], topic) <= Log(states[j], topic)
  {
    PublishedOnlyGrows(n, states, events, i, j);
    TopicRowsPrefix(states[i].broker.published, states[j].broker.published, topic);
  }

  /** In every run each topic stores raw records first and then batches, all of the schema its metadata names. */
  lemma RunsOrderTopics(n: nat, states: seq<System>, events: seq<Event>, i: nat, topic: Text)
    returns (raws: seq<StoredRecord>, batched: seq<StoredRecord>)
    requires IsRun(n, states, events) && AddsFit(states, events) && i < |states|
    ensures var s := states[i].broker;
            && RecordsOf(s.wal, topic) == raws + batched
            && AllRaw(raws)
            && (batched != [] ==>
                  topic in s.metadata && s.metadata[topic].schema.Some?
                  && BatchedAs(batched, s.metadata[topic].schema.value))
  {
    RunKeepsBroker(n, states, events, i);
    raws, batched := StoredRawThenBatches(states[i].broker.wal, states[i].broker.metadata, topic);
  }

  lemma TopicHasOneSchema(b: Broker, n: nat, topic: Text)
    requires Inv(b, n)
    ensures OneSchemaAmong(RecordsOf(b.published, topic))
  {
    PrefixKeepsOrder(b.wal, b.metadata, |b.published|);
    assert b.wal[..|b.published|] == b.published;
    var rs := RecordsOf(b.published, topic);
    forall i, j | 0 <= i < |rs| && 0 <= j < |rs| && rs[i].Batched? && rs[j].Batched?
      ensures rs[i].batch.schema == rs[j].batch.schema
    {
      BatchAfterBatch(b.published, b.metadata, topic, i, i);
      BatchAfterBatch(b.published, b.metadata, topic, j, j);
    }
  }

  /**
   At any moment of any run, whatever was done before: a call at `k` is handed exactly the rows from `k` to the end of
   the log if and only if the records left from there are of the kind it understands.
   */
  lemma HandedInRuns(
    n: nat, states: seq<System>, events: seq<Event>, i: nat, topic: Text, k: nat, call: Call)
    requires IsRun(n, states, events) && AddsFit(states, events) && i < |states| && k <= |Log(states[i], topic)|
    ensures Handed(call, Response(states[i].broker.published, topic, k)) == Log(states[i], topic)[k..]
       <==> Understands(call, Left(states[i], topic, k))
  {
    RunKeepsBroker(n, states, events, i);
    TopicHasOneSchema(states[i].broker, n, topic);
    HandedExact(call, RecordsOf(states[i].broker.published, topic), k);
  }

  /** Where raw records are left, the offset `consume` commits stays within the log exactly if they are zero-free. */
  lemma RawCommitsInRuns(n: nat, states: seq<System>, events: seq<Event>, i: nat, topic: Text, k: nat)
    requires IsRun(n, states, events) && AddsFit(states, events) && i < |states| && k <= |Log(states[i], topic)|
    requires AllRaw(Left(states[i], topic, k))
    ensures k + |Handed(ConsumeText, Response(states[i].broker.published, topic, k))| <= |Log(states[i], topic)|
       <==> ZeroFree(RawBytes(Left(states[i], topic, k)))
  {
    RawCommitWithinLog(RecordsOf(states[i].broker.published, topic), k);
  }

  /** What is handed out at `k`, and later from the offset then reached, is what one later call at `k` is handed. */
  lemma CallsComposeOverRuns(
    n: nat, states: seq<System>, events: seq<Event>, i: nat, j: nat, topic: Text, k: nat, call: Call)
    requires IsRun(n, states, events) && AddsFit(states, events) && i <= j < |states|
    requires k <= |Log(states[i], topic)|
    requires Understands(call, Left(states[i], topic, k)) && Understands(call, Left(states[j], topic, k))
    requires Understands(call, Left(states[j], topic, |Log(states[i], topic)|))
    ensures var earlier, later := states[i].broker.published, states[j].broker.published;
            var got, reached := Handed(call, Response(earlier, topic, k)), |Log(states[i], topic)|;
            && k + |got| == reached
            && Handed(call, Response(later, topic, k)) == got + Handed(call, Response(later, topic, reached))
  {
    var earlier, later := states[i].broker.published, states[j].broker.published;
    PublishedOnlyGrows(n, states, events, i, j);
    RecordsOfPrefix(earlier, later, topic);
    RunKeepsBroker(n, states, events, j);
    TopicHasOneSchema(states[j].broker, n, topic);
    CallsCompose(call, RecordsOf(earlier, topic), RecordsOf(later, topic), k);
  }
}
