/**
 What the runs of `CrashRuns` promise to a consumer group and a topic, when those of its own calls that
 commit an offset have understood the records they were handed; and what becomes of the offset otherwise.
 */
module ConsumerRuns {
  import opened Wrappers
  import opened Bytes
  import opened ArrowStream
  import opened Records
  import opened Sequences
  import opened ZeroFraming
  import opened WalFormat
  import opened LogStorage
  import opened OffsetStore
  import opened BrokerState
  import opened Consumers
  import opened CrashRuns

  /** A client that goes on to commit has understood the records it fetches. */
  predicate UnderstoodBy(c: Connection, s: System) {
    LeadsToCommit(s, c) ==> Understands(c.call, Left(s, c.key.1, c.from))
  }

  predicate FetchUnderstood(s: System, ev: Event, key: Key) {
    ev.Fetch? && ev.i < |s.connections| && s.connections[ev.i].key == key ==> UnderstoodBy(s.connections[ev.i], s)
  }

  /** Whenever a client of this group and topic commits, it has understood the records it fetched. */
  ghost predicate CommitsUnderstood(states: seq<System>, events: seq<Event>, key: Key)
    requires |states| == |events| + 1
  {
    forall i | 0 <= i < |events| :: FetchUnderstood(states[i], events[i], key)
  }

  /** The group has no colon in its name, and no other group and topic of the run join to the same text. */
  ghost predicate KeyApart(events: seq<Event>, key: Key) {
    && COLON !in key.0
    && forall i | 0 <= i < |events| && events[i].Ask? :: !Rival(events[i].key, key)
  }

  /** What is asked of a run: readable files, a key of its own, and calls of this group that understand. */
  ghost predicate GoodRun(n: nat, states: seq<System>, events: seq<Event>, key: Key) {
    && IsRun(n, states, events) && AddsFit(states, events)
    && KeyApart(events, key) && CommitsUnderstood(states, events, key)
  }

  // ---------- The offset file ----------

  /** The file restores the offset of this key, and will after the commits to come. */
  ghost predicate OffsetsSaved(s: System, key: Key) {
    && COLON !in key.0 && NoRival(s.offsets, key)
    && (if s.file == None then s.offsets == map[] else Collected(s.offsets, s.file.value))
    && (forall i | 0 <= i < |s.connections| :: !Rival(s.connections[i].key, key))
  }

  /**
   A new process always starts. A crash loses the commits on their way, and not the committed offset of this key; nor
   any other offset, when no group has a colon in its name.
   */
  lemma CrashKeepsOffsets(s: System, n: nat, key: Key)
    requires Inv(s.broker, n) && OffsetsSaved(s, key)
    ensures Recoverable(s)
    ensures OffsetOf(AfterCrash(s).offsets, key) == OffsetOf(s.offsets, key) && OffsetsSaved(AfterCrash(s), key)
    ensures ColonFreeGroups(s.offsets) ==> AfterCrash(s).offsets == s.offsets
    ensures s.broker.published <= AfterCrash(s).broker.published
  {
    CrashRecovers(s.broker, n);
    if s.file.Some? {
      FlushRecoverExact(s.offsets, s.file.value);
      KeyKept(s.offsets, s.file.value, key);
      CollectedAgain(s.file.value);
    }
  }

  lemma OthersKeepTheirKeys(connections: seq<Connection>, i: nat, key: Key)
    requires i < |connections| && forall j | 0 <= j < |connections| :: !Rival(connections[j].key, key)
    ensures forall j | 0 <= j < |Without(connections, i)| :: !Rival(Without(connections, i)[j].key, key)
  {
    forall j | 0 <= j < |Without(connections, i)| ensures !Rival(Without(connections, i)[j].key, key) {
      assert Without(connections, i)[j] == if j < i then connections[j] else connections[j + 1];
    }
  }

  lemma FetchKeepsOffsetsSaved(s: System, i: nat, key: Key)
    requires OffsetsSaved(s, key) && i < |s.connections|
    ensures OffsetsSaved(AfterFetch(s, i), key)
  {
    OthersKeepTheirKeys(s.connections, i, key);
  }

  lemma CommitKeepsOffsetsSaved(s: System, i: nat, file: map<Text, int>, key: Key)
    requires OffsetsSaved(s, key) && i < |s.connections| && s.connections[i].Committing?
    requires Collected(OffsetsAfter(s, i), file)
    ensures OffsetsSaved(AfterCommit(s, i, file), key)
  {
    OthersKeepTheirKeys(s.connections, i, key);
  }

  /** Steps of the broker alone. */
  lemma BrokerStep(n: nat, s: System, ev: Event, s': System)
    requires Step(n, s, ev, s') && (ev.Create? || ev.Add? || ev.Spill?)
    ensures s' == s.(broker := s'.broker)
  {
  }

  // ---------- The invariant ----------

  /** What the group received is a prefix of the log, and what it committed it has received. */
  ghost predicate ReceivedPrefix(s: System, key: Key) {
    && RowsFor(s.received, key) <= Log(s, key.1)
    && 0 <= OffsetOf(s.offsets, key) <= |RowsFor(s.received, key)|
  }

  /** A client fetches from an offset its group has received all rows before, and commits rows it has received. */
  ghost predicate Sound(received: map<Key, seq<Row>>, c: Connection) {
    var rows := RowsFor(received, c.key);
    && 0 <= c.from <= |rows|
    && (c.Committing? ==> c.from + |c.rows| <= |rows| && c.rows == rows[c.from..c.from + |c.rows|])
  }

  ghost predicate AllSound(received: map<Key, seq<Row>>, key: Key, connections: seq<Connection>) {
    forall i | 0 <= i < |connections| && connections[i].key == key :: Sound(received, connections[i])
  }

  ghost predicate GroupInv(s: System, n: nat, key: Key) {
    && Inv(s.broker, n)
    && OffsetsSaved(s, key)
    && ReceivedPrefix(s, key)
    && AllSound(s.received, key, s.connections)
  }

  /** A client that goes on to commit was handed the log from its offset to the end. */
  lemma FetchedToTheEnd(s: System, n: nat, i: nat)
    requires i < |s.connections| && GroupInv(s, n, s.connections[i].key) && UnderstoodBy(s.connections[i], s)
    ensures var c := s.connections[i];
            && 0 <= c.from <= |Log(s, c.key.1)|
            && (LeadsToCommit(s, c) ==> RowsHanded(s, c) == Log(s, c.key.1)[c.from..])
  {
    var c := s.connections[i];
    assert Sound(s.received, c);
    TopicHasOneSchema(s.broker, n, c.key.1);
    HandedExact(c.call, RecordsOf(s.broker.published, c.key.1), c.from);
  }

  /** Receiving more leaves all connections sound. */
  lemma StaysSound(
    received: map<Key, seq<Row>>, received': map<Key, seq<Row>>, key: Key, connections: seq<Connection>)
    requires AllSound(received, key, connections) && RowsFor(received, key) <= RowsFor(received', key)
    ensures AllSound(received', key, connections)
  {
    forall i | 0 <= i < |connections| && connections[i].key == key ensures Sound(received', connections[i]) {
      assert Sound(received, connections[i]);
    }
  }

  lemma WithoutSound(received: map<Key, seq<Row>>, key: Key, connections: seq<Connection>, i: nat)
    requires AllSound(received, key, connections) && i < |connections|
    ensures AllSound(received, key, Without(connections, i))
  {
    var left := Without(connections, i);
    forall j | 0 <= j < |left| && left[j].key == key ensures Sound(received, left[j]) {
      assert left[j] == if j < i then connections[j] else connections[j + 1];
    }
  }

  lemma UpdateSound(received: map<Key, seq<Row>>, key: Key, connections: seq<Connection>, i: nat, c: Connection)
    requires AllSound(received, key, connections) && i < |connections| && (c.key == key ==> Sound(received, c))
    ensures AllSound(received, key, connections[i := c])
  {
  }

  /** Nothing has moved for the group but the log. */
  ghost predicate OnlyLogGrew(s: System, s': System, key: Key) {
    && s.broker.published <= s'.broker.published
    && OffsetOf(s'.offsets, key) == OffsetOf(s.offsets, key)
    && RowsFor(s'.received, key) == RowsFor(s.received, key)
  }

  lemma QuietStep(s: System, n: nat, s': System, key: Key)
    requires GroupInv(s, n, key) && Inv(s'.broker, n) && OffsetsSaved(s', key) && OnlyLogGrew(s, s', key)
    requires AllSound(s.received, key, s'.connections)
    ensures GroupInv(s', n, key)
  {
    TopicRowsPrefix(s.broker.published, s'.broker.published, key.1);
    StaysSound(s.received, s'.received, key, s'.connections);
  }

  lemma AskSound(s: System, key: Key, c: Connection)
    requires ReceivedPrefix(s, key) && AllSound(s.received, key, s.connections)
    requires c.Fetching? && c.from == OffsetOf(s.offsets, c.key)
    ensures AllSound(s.received, key, s.connections + [c])
  {
    assert c.key == key ==> Sound(s.received, c);
  }

  lemma OverlayReachesEnd(received: seq<Row>, start: int, log: seq<Row>)
    requires received <= log && 0 <= start <= |received|
    ensures Overlay(received, start, log[start..]) == log
  {
    if |log| > |received| {
      assert received[..start] == log[..start];
    }
  }

  /** A fetch of this group that leads to a commit: the rows complete what the group has received. */
  lemma CommittingFetch(s: System, n: nat, i: nat)
    requires i < |s.connections| && GroupInv(s, n, s.connections[i].key) && UnderstoodBy(s.connections[i], s)
    requires LeadsToCommit(s, s.connections[i]) && OffsetsSaved(AfterFetch(s, i), s.connections[i].key)
    ensures GroupInv(AfterFetch(s, i), n, s.connections[i].key)
    ensures RowsFor(AfterFetch(s, i).received, s.connections[i].key) == Log(s, s.connections[i].key.1)
  {
    var c, s' := s.connections[i], AfterFetch(s, i);
    assert Sound(s.received, c);
    FetchedToTheEnd(s, n, i);
    assert AfterFetch(s, i).broker == s.broker && AfterFetch(s, i).offsets == s.offsets;
    RowsArrive(s.received, s'.received, Log(s, c.key.1), c, RowsHanded(s, c));
    StaysSound(s.received, s'.received, c.key, s.connections);
    UpdateSound(s'.received, c.key, s.connections, i, Committing(c.key, c.call, c.from, RowsHanded(s, c)));
  }

  lemma RowsArrive(
    received: map<Key, seq<Row>>, received': map<Key, seq<Row>>, log: seq<Row>, c: Connection, rows: seq<Row>)
    requires RowsFor(received, c.key) <= log && Sound(received, c)
    requires c.from <= |log| && rows == log[c.from..]
    requires received' == received[c.key := Overlay(RowsFor(received, c.key), c.from, rows)]
    ensures RowsFor(received', c.key) == log && Sound(received', Committing(c.key, c.call, c.from, rows))
  {
    OverlayReachesEnd(RowsFor(received, c.key), c.from, log);
  }

  /** A fetch of another group, or one that leads to no commit. */
  lemma QuietFetch(s: System, n: nat, i: nat, key: Key)
    requires i < |s.connections| && GroupInv(s, n, key) && OffsetsSaved(AfterFetch(s, i), key)
    requires s.connections[i].key == key ==> !LeadsToCommit(s, s.connections[i])
    ensures GroupInv(AfterFetch(s, i), n, key)
  {
    var c, s' := s.connections[i], AfterFetch(s, i);
    WithoutSound(s.received, key, s.connections, i);
    if LeadsToCommit(s, c) {
      UpdateSound(s.received, key, s.connections, i, Committing(c.key, c.call, c.from, RowsHanded(s, c)));
    }
    QuietStep(s, n, s', key);
  }

  lemma CommitSound(s: System, i: nat, file: map<Text, int>, key: Key)
    requires AllSound(s.received, key, s.connections) && i < |s.connections| && s.connections[i].Committing?
    ensures AllSound(s.received, key, AfterCommit(s, i, file).connections)
  {
    var c := s.connections[i];
    assert c.key == key ==> Sound(s.received, c);
    WithoutSound(s.received, key, s.connections, i);
    UpdateSound(s.received, key, s.connections, i,
                if c.key == key then Fetching(c.key, c.call, c.from + |c.rows|) else c);
  }

  lemma CommitKeepsInv(s: System, n: nat, i: nat, file: map<Text, int>, key: Key)
    requires GroupInv(s, n, key) && i < |s.connections| && s.connections[i].Committing?
    requires OffsetsSaved(AfterCommit(s, i, file), key)
    ensures GroupInv(AfterCommit(s, i, file), n, key)
  {
    CommitSound(s, i, file, key);
    assert s.connections[i].key == key ==> Sound(s.received, s.connections[i]);
  }

  lemma FetchKeepsInv(s: System, n: nat, i: nat, key: Key)
    requires GroupInv(s, n, key) && i < |s.connections|
    requires s.connections[i].key == key ==> UnderstoodBy(s.connections[i], s)
    ensures GroupInv(AfterFetch(s, i), n, key)
  {
    FetchKeepsOffsetsSaved(s, i, key);
    if s.connections[i].key == key && LeadsToCommit(s, s.connections[i]) {
      CommittingFetch(s, n, i);
    } else {
      QuietFetch(s, n, i, key);
    }
  }

  lemma AskKeepsInv(s: System, n: nat, k: Key, call: Call, key: Key)
    requires GroupInv(s, n, key) && !Rival(k, key)
    ensures GroupInv(s.(connections := s.connections + [Fetching(k, call, OffsetOf(s.offsets, k))]), n, key)
  {
    var c := Fetching(k, call, OffsetOf(s.offsets, k));
    AskSound(s, key, c);
    QuietStep(s, n, s.(connections := s.connections + [c]), key);
  }

  lemma LeaveKeepsInv(s: System, n: nat, i: nat, key: Key)
    requires GroupInv(s, n, key) && i < |s.connections|
    ensures GroupInv(s.(connections := Without(s.connections, i)), n, key)
  {
    OthersKeepTheirKeys(s.connections, i, key);
    WithoutSound(s.received, key, s.connections, i);
    QuietStep(s, n, s.(connections := Without(s.connections, i)), key);
  }

  lemma StepKeepsInv(s: System, n: nat, ev: Event, s': System, key: Key)
    requires GroupInv(s, n, key) && Step(n, s, ev, s')
    requires ev.Add? ==> AddFits(s.broker, ev.topic, ev.record)
    requires ev.Ask? ==> !Rival(ev.key, key)
    requires FetchUnderstood(s, ev, key)
    ensures GroupInv(s', n, key)
  {
    match ev {
      case Ask(k, call) => AskKeepsInv(s, n, k, call, key);
      case Fetch(i) => FetchKeepsInv(s, n, i, key);
      case Commit(i, file) =>
        CommitKeepsOffsetsSaved(s, i, file, key);
        CommitKeepsInv(s, n, i, file, key);
      case Leave(i) => LeaveKeepsInv(s, n, i, key);
      case Crash =>
        StepKeepsBroker(n, s, ev, s');
        CrashKeepsOffsets(s, n, key);
        QuietStep(s, n, s', key);
      case _ =>
        StepKeepsBroker(n, s, ev, s');
        BrokerStep(n, s, ev, s');
        QuietStep(s, n, s', key);
    }
  }

  lemma {:induction false} RunKeepsInv(n: nat, states: seq<System>, events: seq<Event>, i: nat, key: Key)
    requires GoodRun(n, states, events, key) && i < |states|
    ensures GroupInv(states[i], n, key)
  {
    if i > 0 {
      RunKeepsInv(n, states, events, i - 1, key);
      assert Step(n, states[i - 1], events[i - 1], states[i]);
      assert FetchUnderstood(states[i - 1], events[i - 1], key);
      StepKeepsInv(states[i - 1], n, events[i - 1], states[i], key);
    } else {
      NothingPending(FRESH);
      assert TopicRows([], []) == [];
    }
  }

  // ---------- What consumers are promised ----------

  /** The persisted offset never exceeds the rows a crash would leave of its topic, and a crash keeps it. */
  lemma OffsetsNeverRunAhead(n: nat, states: seq<System>, events: seq<Event>, i: nat, key: Key)
    requires GoodRun(n, states, events, key) && i < |states|
    ensures states[i].broker.synced <= |states[i].broker.wal| && Recoverable(states[i])
    ensures var s, s' := states[i], AfterCrash(states[i]);
            && OffsetOf(s'.offsets, key) == OffsetOf(s.offsets, key)
            && (ColonFreeGroups(s.offsets) ==> s'.offsets == s.offsets)
            && 0 <= OffsetOf(s'.offsets, key) <= |Log(s, key.1)| <= |Log(s', key.1)|
  {
    RunKeepsInv(n, states, events, i, key);
    var s, s' := states[i], AfterCrash(states[i]);
    CrashKeepsOffsets(s, n, key);
    TopicRowsPrefix(s.broker.published, s'.broker.published, key.1);
  }

  /**
   No gaps, whatever the number of consumers, whatever crashes, and however requests of different clients mix:
   a client that commits was handed the log from an offset the group's earlier rows already reach, so
   that the rows received always are a prefix of the log; rows may come twice, never not at all.
   */
  lemma ConsumersSeeNoGap(n: nat, states: seq<System>, events: seq<Event>, i: nat, key: Key)
    requires GoodRun(n, states, events, key) && i < |states|
    ensures 0 <= OffsetOf(states[i].offsets, key) <= |RowsFor(states[i].received, key)|
    ensures RowsFor(states[i].received, key) <= Log(states[i], key.1)
    ensures i < |events| && events[i].Fetch? && events[i].i < |states[i].connections|
            && states[i].connections[events[i].i].key == key ==>
              var s, c := states[i], states[i].connections[events[i].i];
              && 0 <= c.from <= |RowsFor(s.received, key)| <= |Log(s, key.1)|
              && (LeadsToCommit(s, c) ==>
                    && RowsHanded(s, c) == Log(s, key.1)[c.from..]
                    && RowsFor(states[i + 1].received, key) == Log(s, key.1))
  {
    RunKeepsInv(n, states, events, i, key);
    if i < |events| && events[i].Fetch? && events[i].i < |states[i].connections|
       && states[i].connections[events[i].i].key == key {
      var s, c := states[i], states[i].connections[events[i].i];
      assert Step(n, s, events[i], states[i + 1]) && FetchUnderstood(s, events[i], key) && Sound(s.received, c);
      FetchedToTheEnd(s, n, events[i].i);
      RunKeepsInv(n, states, events, i + 1, key);
      if LeadsToCommit(s, c) {
        CommittingFetch(s, n, events[i].i);
      }
    }
  }

  // ---------- Exactly once ----------

  /** The completed calls delivered exactly the rows up to the committed offset, each once and in order. */
  ghost predicate AcknowledgedLog(s: System, key: Key) {
    FirstRows(Log(s, key.1), OffsetOf(s.offsets, key), RowsFor(s.acknowledged, key))
  }

  predicate FirstRows(log: seq<Row>, committed: int, rows: seq<Row>) {
    0 <= committed <= |log| && rows == log[..committed]
  }

  ghost predicate ExactlyOnce(states: seq<System>, key: Key) {
    forall i | 0 <= i < |states| :: AcknowledgedLog(states[i], key)
  }

  /** If the step is a commit of this group, the rows it speaks of begin at the offset committed before. */
  predicate InTurn(s: System, ev: Event, key: Key) {
    ev.Commit? && ev.i < |s.connections| && s.connections[ev.i].key == key ==>
      s.connections[ev.i].from == OffsetOf(s.offsets, key)
  }

  ghost predicate CommitsInTurn(states: seq<System>, events: seq<Event>, key: Key)
    requires |states| == |events| + 1
  {
    forall i | 0 <= i < |events| :: InTurn(states[i], events[i], key)
  }

  /** Rows of the log, put after the first `committed` rows of it, go on with it just when they begin there. */
  lemma Continues(log: seq<Row>, received: seq<Row>, committed: int, from: int, rows: seq<Row>, before: seq<Row>)
    requires FirstRows(log, committed, before) && received <= log && 0 <= from && from + |rows| <= |received|
    requires rows == received[from..from + |rows|]
    ensures FirstRows(log, from + |rows|, before + rows) <==> from == committed
  {
    assert |log[..from + |rows|]| == from + |rows|;
    if from == committed {
      assert log[..from] + rows == log[..from + |rows|];
    }
  }

  lemma OwnCommit(s: System, i: nat, file: map<Text, int>)
    requires i < |s.connections| && s.connections[i].Committing?
    ensures var c, s' := s.connections[i], AfterCommit(s, i, file);
            && s'.broker == s.broker
            && OffsetOf(s'.offsets, c.key) == c.from + |c.rows|
            && RowsFor(s'.acknowledged, c.key) == RowsFor(s.acknowledged, c.key) + c.rows
  {
  }

  lemma CommitAcknowledged(s: System, n: nat, i: nat, file: map<Text, int>, key: Key)
    requires GroupInv(s, n, key) && AcknowledgedLog(s, key) && i < |s.connections| && s.connections[i].Committing?
    ensures AcknowledgedLog(AfterCommit(s, i, file), key)
       <==> (s.connections[i].key == key ==> s.connections[i].from == OffsetOf(s.offsets, key))
  {
    var c := s.connections[i];
    OwnCommit(s, i, file);
    if c.key == key {
      assert Sound(s.received, c);
      Continues(Log(s, key.1), RowsFor(s.received, key), OffsetOf(s.offsets, key), c.from, c.rows,
                RowsFor(s.acknowledged, key));
    } else {
      OtherCommit(s, i, file, key);
    }
  }

  lemma OtherCommit(s: System, i: nat, file: map<Text, int>, key: Key)
    requires i < |s.connections| && s.connections[i].Committing? && s.connections[i].key != key
    ensures var s' := AfterCommit(s, i, file);
            && OffsetOf(s'.offsets, key) == OffsetOf(s.offsets, key)
            && RowsFor(s'.acknowledged, key) == RowsFor(s.acknowledged, key)
  {
  }

  lemma QuietAcknowledged(s: System, s': System, key: Key)
    requires AcknowledgedLog(s, key) && s.broker.published <= s'.broker.published
    requires OffsetOf(s'.offsets, key) == OffsetOf(s.offsets, key) && s'.acknowledged == s.acknowledged
    ensures AcknowledgedLog(s', key)
  {
    TopicRowsPrefix(s.broker.published, s'.broker.published, key.1);
  }

  /** From a state where it holds, one step keeps it exactly when the step is in turn. */
  lemma StepAcknowledged(s: System, n: nat, ev: Event, s': System, key: Key)
    requires GroupInv(s, n, key) && AcknowledgedLog(s, key) && Step(n, s, ev, s')
    requires ev.Add? ==> AddFits(s.broker, ev.topic, ev.record)
    ensures AcknowledgedLog(s', key) <==> InTurn(s, ev, key)
  {
    if ev.Commit? {
      CommitAcknowledged(s, n, ev.i, ev.file, key);
    } else {
      StepKeepsBroker(n, s, ev, s');
      StepKeepsOffset(s, n, ev, s', key);
      QuietAcknowledged(s, s', key);
    }
  }

  lemma FetchKeepsOffsets(s: System, i: nat)
    requires i < |s.connections|
    ensures AfterFetch(s, i).offsets == s.offsets && AfterFetch(s, i).acknowledged == s.acknowledged
  {
  }

  lemma StepKeepsOffset(s: System, n: nat, ev: Event, s': System, key: Key)
    requires GroupInv(s, n, key) && Step(n, s, ev, s') && !ev.Commit?
    ensures OffsetOf(s'.offsets, key) == OffsetOf(s.offsets, key) && s'.acknowledged == s.acknowledged
  {
    match ev {
      case Ask(_, _) =>
      case Fetch(i) => FetchKeepsOffsets(s, i);
      case Leave(_) =>
      case Crash => CrashKeepsOffsets(s, n, key);
      case _ => BrokerStep(n, s, ev, s');
    }
  }

  lemma RunStepAcknowledged(n: nat, states: seq<System>, events: seq<Event>, i: nat, key: Key)
    requires GoodRun(n, states, events, key) && i < |events| && AcknowledgedLog(states[i], key)
    ensures AcknowledgedLog(states[i + 1], key) <==> InTurn(states[i], events[i], key)
  {
    RunKeepsInv(n, states, events, i, key);
    assert Step(n, states[i], events[i], states[i + 1]);
    StepAcknowledged(states[i], n, events[i], states[i + 1], key);
  }

  /** In turn, the completed calls delivered exactly the first `committed` rows. */
  lemma {:induction false} CompletedConsumesAreTheLog(
    n: nat, states: seq<System>, events: seq<Event>, i: nat, key: Key)
    requires GoodRun(n, states, events, key) && CommitsInTurn(states, events, key) && i < |states|
    ensures 0 <= OffsetOf(states[i].offsets, key) <= |Log(states[i], key.1)|
    ensures RowsFor(states[i].acknowledged, key) == Log(states[i], key.1)[..OffsetOf(states[i].offsets, key)]
  {
    if i == 0 {
      assert TopicRows([], []) == [];
    } else {
      CompletedConsumesAreTheLog(n, states, events, i - 1, key);
      assert InTurn(states[i - 1], events[i - 1], key);
      RunStepAcknowledged(n, states, events, i - 1, key);
    }
  }

  /** Exactly once, exactly when every commit lands on the offset its rows begin at. */
  lemma ExactlyOnceIffInTurn(n: nat, states: seq<System>, events: seq<Event>, key: Key)
    requires GoodRun(n, states, events, key)
    ensures ExactlyOnce(states, key) <==> CommitsInTurn(states, events, key)
  {
    if CommitsInTurn(states, events, key) {
      forall i | 0 <= i < |states| ensures AcknowledgedLog(states[i], key) {
        CompletedConsumesAreTheLog(n, states, events, i, key);
      }
    }
    if ExactlyOnce(states, key) {
      forall i | 0 <= i < |events| ensures InTurn(states[i], events[i], key) {
        assert AcknowledgedLog(states[i], key) && AcknowledgedLog(states[i + 1], key);
        RunStepAcknowledged(n, states, events, i, key);
      }
    }
  }

  // ---------- Two ways for a group to keep its commits in turn ----------

  /** The committed offset is where this group's clients go on from, as far as `c` is one. */
  predicate GoesOnFromCommitted(s: System, c: Connection, key: Key) {
    c.key == key ==> c.from == OffsetOf(s.offsets, key)
  }

  ghost predicate CommitsGoOn(s: System, key: Key) {
    && (forall i | 0 <= i < |s.connections| && s.connections[i].Committing? ::
          GoesOnFromCommitted(s, s.connections[i], key))
    && (forall i, j | 0 <= i < j < |s.connections| && s.connections[i].Committing? && s.connections[j].Committing? ::
          s.connections[i].key == key ==> s.connections[j].key != key)
  }

  predicate UpToDate(s: System, c: Connection) {
    && c.from == OffsetOf(s.offsets, c.key)
    && (forall j | 0 <= j < |s.connections| && s.connections[j].Committing? :: s.connections[j].key != c.key)
  }

  predicate FetchUpToDate(s: System, ev: Event, key: Key) {
    ev.Fetch? && ev.i < |s.connections| && s.connections[ev.i].key == key ==> UpToDate(s, s.connections[ev.i])
  }

  /**
   First, nobody of this group and topic fetches from another offset than the committed one, or while a commit for
   them is on its way.
   */
  ghost predicate CommitsLandFirst(states: seq<System>, events: seq<Event>, key: Key)
    requires |states| == |events| + 1
  {
    forall i | 0 <= i < |events| :: FetchUpToDate(states[i], events[i], key)
  }

  lemma WithoutGoesOn(s: System, s': System, i: nat, key: Key)
    requires CommitsGoOn(s, key) && i < |s.connections| && s'.connections == Without(s.connections, i)
    requires OffsetOf(s'.offsets, key) == OffsetOf(s.offsets, key)
             || (s.connections[i].Committing? && s.connections[i].key == key)
    ensures CommitsGoOn(s', key)
  {
    forall j | 0 <= j < |s'.connections|
      ensures s'.connections[j] == if j < i then s.connections[j] else s.connections[j + 1]
    {
    }
  }

  lemma CommitGoesOn(s: System, i: nat, file: map<Text, int>, key: Key)
    requires CommitsGoOn(s, key) && i < |s.connections| && s.connections[i].Committing?
    ensures CommitsGoOn(AfterCommit(s, i, file), key)
  {
    if !s.connections[i].call.ConsumeContinuously? {
      WithoutGoesOn(s, AfterCommit(s, i, file), i, key);
    }
  }

  lemma FetchGoesOn(s: System, i: nat, key: Key)
    requires CommitsGoOn(s, key) && i < |s.connections| && s.connections[i].Fetching?
    requires s.connections[i].key == key ==> UpToDate(s, s.connections[i])
    ensures CommitsGoOn(AfterFetch(s, i), key)
  {
    var s' := AfterFetch(s, i);
    if s'.connections == Without(s.connections, i) && |s'.connections| != |s.connections| {
      WithoutGoesOn(s, s', i, key);
    }
  }

  lemma StepGoesOn(n: nat, s: System, ev: Event, s': System, key: Key)
    requires GroupInv(s, n, key) && CommitsGoOn(s, key) && Step(n, s, ev, s') && FetchUpToDate(s, ev, key)
    ensures CommitsGoOn(s', key)
  {
    match ev {
      case Ask(_, _) =>
      case Fetch(i) => FetchGoesOn(s, i, key);
      case Commit(i, file) => CommitGoesOn(s, i, file, key);
      case Leave(i) => WithoutGoesOn(s, s', i, key);
      case Crash =>
      case _ => BrokerStep(n, s, ev, s');
    }
  }

  lemma RunStepGoesOn(n: nat, states: seq<System>, events: seq<Event>, i: nat, key: Key)
    requires IsRun(n, states, events) && i < |events| && FetchUpToDate(states[i], events[i], key)
    requires GroupInv(states[i], n, key) && CommitsGoOn(states[i], key)
    ensures CommitsGoOn(states[i + 1], key)
  {
    assert Step(n, states[i], events[i], states[i + 1]);
    StepGoesOn(n, states[i], events[i], states[i + 1], key);
  }

  lemma {:induction false} RunGoesOn(n: nat, states: seq<System>, events: seq<Event>, i: nat, key: Key)
    requires GoodRun(n, states, events, key) && CommitsLandFirst(states, events, key) && i < |states|
    ensures CommitsGoOn(states[i], key)
  {
    if i > 0 {
      RunGoesOn(n, states, events, i - 1, key);
      RunKeepsInv(n, states, events, i - 1, key);
      RunStepGoesOn(n, states, events, i - 1, key);
    }
  }

  /** Where commits land first they land in turn. */
  lemma LandingFirstIsInTurn(n: nat, states: seq<System>, events: seq<Event>, key: Key)
    requires GoodRun(n, states, events, key) && CommitsLandFirst(states, events, key)
    ensures CommitsInTurn(states, events, key) && ExactlyOnce(states, key)
  {
    forall i | 0 <= i < |events| ensures InTurn(states[i], events[i], key) {
      RunGoesOn(n, states, events, i, key);
      assert Step(n, states[i], events[i], states[i + 1]);
    }
    ExactlyOnceIffInTurn(n, states, events, key);
  }

  /** Second, the group has one client for the topic in the life of a server: a crash lies between any two. */
  ghost predicate OneClient(events: seq<Event>, key: Key) {
    forall i, j | 0 <= i < j < |events| && IsAsk(events[i], key) && IsAsk(events[j], key) ::
      exists k | i < k < j :: events[k].Crash?
  }

  predicate IsAsk(ev: Event, key: Key) {
    ev.Ask? && ev.key == key
  }

  /** The only connection of the group, if any, goes on from the committed offset, and came with an earlier `Ask`. */
  ghost predicate Alone(s: System, key: Key) {
    && (forall i | 0 <= i < |s.connections| :: GoesOnFromCommitted(s, s.connections[i], key))
    && (forall i, j | 0 <= i < j < |s.connections| :: s.connections[i].key == key ==> s.connections[j].key != key)
  }

  ghost predicate AskedBefore(events: seq<Event>, i: nat, key: Key)
    requires i <= |events|
  {
    exists j | 0 <= j < i :: IsAsk(events[j], key) && forall k | j < k < i :: !events[k].Crash?
  }

  predicate NoConnection(s: System, key: Key) {
    forall i | 0 <= i < |s.connections| :: s.connections[i].key != key
  }

  lemma WithoutAlone(s: System, s': System, i: nat, key: Key)
    requires Alone(s, key) && i < |s.connections| && s'.connections == Without(s.connections, i)
    requires OffsetOf(s'.offsets, key) == OffsetOf(s.offsets, key) || s.connections[i].key == key
    ensures Alone(s', key)
    ensures NoConnection(s, key) ==> NoConnection(s', key)
  {
    forall j | 0 <= j < |s'.connections|
      ensures s'.connections[j] == if j < i then s.connections[j] else s.connections[j + 1]
    {
    }
  }

  lemma FetchAlone(s: System, i: nat, key: Key)
    requires Alone(s, key) && i < |s.connections|
    ensures Alone(AfterFetch(s, i), key)
    ensures NoConnection(s, key) ==> NoConnection(AfterFetch(s, i), key)
  {
    var s' := AfterFetch(s, i);
    if |s'.connections| != |s.connections| {
      WithoutAlone(s, s', i, key);
    }
  }

  lemma CommitAlone(s: System, i: nat, file: map<Text, int>, key: Key)
    requires Alone(s, key) && i < |s.connections| && s.connections[i].Committing?
    ensures Alone(AfterCommit(s, i, file), key)
    ensures NoConnection(s, key) ==> NoConnection(AfterCommit(s, i, file), key)
  {
    if !s.connections[i].call.ConsumeContinuously? {
      WithoutAlone(s, AfterCommit(s, i, file), i, key);
    }
  }

  lemma StepAlone(n: nat, s: System, ev: Event, s': System, key: Key)
    requires Alone(s, key) && Step(n, s, ev, s') && (IsAsk(ev, key) ==> NoConnection(s, key))
    ensures Alone(s', key)
    ensures ev.Crash? || (NoConnection(s, key) && !IsAsk(ev, key)) ==> NoConnection(s', key)
  {
    match ev {
      case Ask(_, _) =>
      case Fetch(i) => FetchAlone(s, i, key);
      case Commit(i, file) => CommitAlone(s, i, file, key);
      case Leave(i) => WithoutAlone(s, s', i, key);
      case Crash =>
      case _ => BrokerStep(n, s, ev, s');
    }
  }

  lemma {:induction false} RunAlone(n: nat, states: seq<System>, events: seq<Event>, i: nat, key: Key)
    requires IsRun(n, states, events) && OneClient(events, key) && i < |states|
    ensures Alone(states[i], key)
    ensures NoConnection(states[i], key) || AskedBefore(events, i, key)
  {
    if i > 0 {
      var ev := events[i - 1];
      RunAlone(n, states, events, i - 1, key);
      assert Step(n, states[i - 1], ev, states[i]);
      StepAlone(n, states[i - 1], ev, states[i], key);
      if !ev.Crash? && (IsAsk(ev, key) || AskedBefore(events, i - 1, key)) {
        StillAsked(events, i, key);
      }
    }
  }

  lemma StillAsked(events: seq<Event>, i: nat, key: Key)
    requires 0 < i <= |events| && !events[i - 1].Crash?
    requires IsAsk(events[i - 1], key) || AskedBefore(events, i - 1, key)
    ensures AskedBefore(events, i, key)
  {
    if !IsAsk(events[i - 1], key) {
      var j :| 0 <= j < i - 1 && IsAsk(events[j], key) && forall k | j < k < i - 1 :: !events[k].Crash?;
      assert forall k | j < k < i :: !events[k].Crash?;
    }
  }

  /** One client alone, as a `consume_continuos` that nobody joins, commits in turn, and so is served exactly once. */
  lemma OneClientIsInTurn(n: nat, states: seq<System>, events: seq<Event>, key: Key)
    requires GoodRun(n, states, events, key) && OneClient(events, key)
    ensures CommitsInTurn(states, events, key) && ExactlyOnce(states, key)
  {
    forall i | 0 <= i < |events| ensures InTurn(states[i], events[i], key) {
      RunAlone(n, states, events, i, key);
      assert Step(n, states[i], events[i], states[i + 1]);
    }
    ExactlyOnceIffInTurn(n, states, events, key);
  }

  // ---------- What becomes of the offsets otherwise ----------

  /** All is in the file and published, and of this topic one raw record. */
  ghost predicate Shows(b: Broker, topic: Text, record: seq<Byte>) {
    && b.published == b.wal && b.synced == |b.wal|
    && RecordsOf(b.published, topic) == [Raw(record)]
  }

  lemma ShownToConsumers(b: Broker, topic: Text, record: seq<Byte>)
    requires Shows(b, topic, record)
    ensures TopicRows(b.published, topic) == [RawRow(record)] && Response(b.published, topic, 0) == record
  {
    FlattenCons(Raw(record), []);
    assert [Raw(record)] + [] == [Raw(record)];
    DropRowsOfRaw([Raw(record)], 0);
    RenderOfRaw([Raw(record)]);
  }

  function OtherTopic(topic: Text): (other: Text)
    ensures other != topic && Fits(Entry(other, Raw([])))
  {
    if topic == [] then [0x61] else []
  }

  /** No consumer has come yet, and the log is all in memory but for what its writer had no room for. */
  ghost predicate Buffered(s: System, topic: Text, record: seq<Byte>) {
    && s == INITIAL.(broker := s.broker)
    && s.broker.metadata == map[] && s.broker.published == []
    && s.broker.synced <= |s.broker.wal| && s.broker.buffer == s.broker.wal
    && RecordsOf(s.broker.wal, topic) == [Raw(record)]
  }

  ghost predicate Quiet(events: seq<Event>) {
    forall i | 0 <= i < |events| :: !events[i].Fetch? && !events[i].Ask?
  }

  lemma AddRaw(b: Broker, n: nat, topic: Text, record: seq<Byte>)
    requires b.metadata == map[] && b.published == [] && b.synced <= |b.wal| && b.buffer == b.wal
    ensures var b', e := AddSpec(b, n, topic, record).0, Entry(topic, Raw(record));
            && b'.wal == b.wal + [e] && b'.metadata == map[] && b'.synced <= |b'.wal|
            && (if |b'.wal| >= n then b'.published == b'.wal && b'.synced == |b'.wal|
                else b'.published == [] && b'.buffer == b'.wal)
  {
    WrittenBytes(b, Entry(topic, Raw(record)));
  }

  /** Records for another topic fill the buffer, so that all is published. */
  lemma {:induction false} FillBuffer(
    n: nat, states: seq<System>, events: seq<Event>, s: System, topic: Text, record: seq<Byte>)
    returns (states': seq<System>, events': seq<Event>, s': System)
    requires EndsAt(n, states, events, s) && Quiet(events) && Buffered(s, topic, record) && |s.broker.wal| < n
    ensures EndsAt(n, states', events', s') && Quiet(events')
    ensures s' == INITIAL.(broker := s'.broker) && Shows(s'.broker, topic, record)
    decreases n - |s.broker.wal|
  {
    var other := OtherTopic(topic);
    AddRaw(s.broker, n, other, []);
    RecordsOfSnoc(s.broker.wal, Entry(other, Raw([])), topic);
    states', events' := Extend(n, states, events, s, Add(other, []));
    s' := s.(broker := AddSpec(s.broker, n, other, []).0);
    if |s'.broker.wal| < n {
      states', events', s' := FillBuffer(n, states', events', s', topic, record);
    }
  }

  /** For every threshold, one raw record is added and published. */
  lemma OneRecord(n: nat, topic: Text, record: seq<Byte>)
    returns (states: seq<System>, events: seq<Event>, s: System)
    requires Fits(Entry(topic, Raw(record)))
    ensures EndsAt(n, states, events, s) && Quiet(events)
    ensures s == INITIAL.(broker := s.broker) && Shows(s.broker, topic, record)
  {
    AddRaw(FRESH, n, topic, record);
    RecordsOfSnoc([], Entry(topic, Raw(record)), topic);
    states, events := Extend(n, [INITIAL], [], INITIAL, Add(topic, record));
    s := INITIAL.(broker := AddSpec(FRESH, n, topic, record).0);
    if |s.broker.wal| < n {
      states, events, s := FillBuffer(n, states, events, s, topic, record);
    }
  }

  /** The process dies with everything in the file. */
  lemma CrashShows(n: nat, states: seq<System>, events: seq<Event>, s: System, topic: Text, record: seq<Byte>)
    returns (states': seq<System>, events': seq<Event>, s': System)
    requires EndsAt(n, states, events, s) && Shows(s.broker, topic, record)
    requires s.file.Some? ==> Splittable(s.file.value)
    ensures EndsAt(n, states', events', s')
    ensures Shows(s'.broker, topic, record) && s'.offsets == RestoredOffsets(s)
  {
    RunKeepsBroker(n, states, events, |events|);
    CrashRecovers(s.broker, n);
    assert s.broker.wal[..|s.broker.wal|] == s.broker.wal;
    s' := AfterCrash(s);
    states', events' := Extend(n, states, events, s, Crash);
  }

  lemma ExtendGood(n: nat, states: seq<System>, events: seq<Event>, s: System, ev: Event, key: Key)
    returns (states': seq<System>, events': seq<Event>)
    requires EndsAt(n, states, events, s) && Enabled(s, ev) && !ev.Add? && !ev.Spill?
    ensures EndsAt(n, states', events', Apply(s, n, ev))
    ensures GoodRun(n, states, events, key) && FetchUnderstood(s, ev, key) && (ev.Ask? ==> ev.key == key) ==>
              GoodRun(n, states', events', key)
  {
    states', events' := Extend(n, states, events, s, ev);
    if GoodRun(n, states, events, key) && FetchUnderstood(s, ev, key) {
      RelatedSnoc(states, events, (s, ev) => FetchUnderstood(s, ev, key), Apply(s, n, ev), ev);
    }
  }

  /** A client asks for its offset and fetches. */
  lemma AskAndFetch(n: nat, states: seq<System>, events: seq<Event>, s: System, key: Key, call: Call)
    returns (states': seq<System>, events': seq<Event>, s': System)
    requires EndsAt(n, states, events, s) && s.broker.synced <= |s.broker.wal|
    requires Commits(call, Response(s.broker.published, key.1, OffsetOf(s.offsets, key)))
    ensures EndsAt(n, states', events', s')
    ensures var start := OffsetOf(s.offsets, key);
            var c := Committing(key, call, start, Handed(call, Response(s.broker.published, key.1, start)));
            s' == s.(connections := s.connections + [c], received := s'.received)
    ensures GoodRun(n, states, events, key) && UnderstoodBy(Fetching(key, call, OffsetOf(s.offsets, key)), s) ==>
              GoodRun(n, states', events', key)
  {
    var i, c := |s.connections|, Fetching(key, call, OffsetOf(s.offsets, key));
    var asked := s.(connections := s.connections + [c]);
    states', events' := ExtendGood(n, states, events, s, Ask(key, call), key);
    s' := AfterFetch(asked, i);
    states', events' := ExtendGood(n, states', events', asked, Fetch(i), key);
  }

  lemma SomeFile(offsets: map<Key, int>, key: Key) returns (file: map<Text, int>)
    requires key in offsets && ColonFreeGroups(offsets)
    ensures Collected(offsets, file) && Splittable(file) && SplitAll(file) == offsets
  {
    file := CollectWinner(offsets, key);
    FlushRecoverExact(offsets, file);
  }

  /** The commit of the first connection arrives. */
  lemma FirstCommit(n: nat, states: seq<System>, events: seq<Event>, s: System)
    returns (states': seq<System>, events': seq<Event>, s': System)
    requires EndsAt(n, states, events, s) && s.broker.synced <= |s.broker.wal|
    requires s.connections != [] && s.connections[0].Committing?
    requires ColonFreeGroups(s.offsets) && COLON !in s.connections[0].key.0
    ensures EndsAt(n, states', events', s') && ColonFreeGroups(s'.offsets)
    ensures s'.file.Some? && Splittable(s'.file.value) && SplitAll(s'.file.value) == s'.offsets == OffsetsAfter(s, 0)
    ensures var c := s.connections[0];
            && s'.broker == s.broker
            && (!c.call.ConsumeContinuously? ==> s'.connections == s.connections[1..])
            && s'.acknowledged == s.acknowledged[c.key := RowsFor(s.acknowledged, c.key) + c.rows]
    ensures GoodRun(n, states, events, s.connections[0].key) ==> GoodRun(n, states', events', s.connections[0].key)
  {
    var file := SomeFile(OffsetsAfter(s, 0), s.connections[0].key);
    s' := AfterCommit(s, 0, file);
    states', events' := ExtendGood(n, states, events, s, Commit(0, file), s.connections[0].key);
    assert Without(s.connections, 0) == s.connections[1..];
  }

  /** After one call over a topic of one raw record, and a restart, the offset is what the call made of the record. */
  lemma OneCall(n: nat, key: Key, record: seq<Byte>, call: Call)
    returns (states: seq<System>, events: seq<Event>, s: System)
    requires Commits(call, record) && COLON !in key.0 && Fits(Entry(key.1, Raw(record)))
    ensures EndsAt(n, states, events, s)
    ensures |Log(s, key.1)| == 1 && OffsetOf(s.offsets, key) == |Handed(call, record)|
  {
    states, events, s := OneRecord(n, key.1, record);
    ShownToConsumers(s.broker, key.1, record);
    states, events, s := AskAndFetch(n, states, events, s, key, call);
    states, events, s := FirstCommit(n, states, events, s);
    states, events, s := CrashShows(n, states, events, s, key.1, record);
    ShownToConsumers(s.broker, key.1, record);
  }

  /**
   Produced to a topic without metadata, a batch is stored as one raw record and is one row of the log. Consuming it
   as batches commits as many rows as it has, and a restart keeps that offset.
   */
  lemma BatchOffsetRunsAhead(n: nat, key: Key, batch: Batch, call: Call)
    returns (states: seq<System>, events: seq<Event>, s: System)
    requires !call.ConsumeText? && COLON !in key.0
    requires Fits(Entry(key.1, Raw(EncodeStream(batch.schema, [batch]))))
    ensures EndsAt(n, states, events, s)
    ensures |Log(s, key.1)| == 1 && OffsetOf(s.offsets, key) == |batch.rows|
  {
    var record := EncodeStream(batch.schema, [batch]);
    StreamRoundTrip(batch.schema, [batch]);
    SniffBatches(batch.schema, [batch]);
    assert [batch][1..] == [] && RowsOfBatches([batch]) == BatchRows(batch) + [];
    assert record != [];
    states, events, s := OneCall(n, key, record, call);
  }

  /** Every zero byte of a raw record takes the committed offset of `consume` one further past the log. */
  lemma ZeroBytesRunAhead(n: nat, key: Key, record: seq<Byte>)
    returns (states: seq<System>, events: seq<Event>, s: System)
    requires record != [] && COLON !in key.0 && Fits(Entry(key.1, Raw(record)))
    ensures EndsAt(n, states, events, s)
    ensures |Log(s, key.1)| == 1 && OffsetOf(s.offsets, key) == 1 + Zeros(record)
  {
    SplitCount(record);
    states, events, s := OneCall(n, key, record, ConsumeText);
  }

  lemma ZeroFreeUnderstood(s: System, key: Key, record: seq<Byte>)
    requires Shows(s.broker, key.1, record) && record != [] && ZERO !in record
    ensures UnderstoodBy(Fetching(key, ConsumeText, 0), s)
    ensures Handed(ConsumeText, Response(s.broker.published, key.1, 0)) == [RawRow(record)]
    ensures Commits(ConsumeText, Response(s.broker.published, key.1, 0))
  {
    ShownToConsumers(s.broker, key.1, record);
    DropRowsOfRaw([Raw(record)], 0);
    SplitOfPart(record);
  }

  /** Two calls of one client, both of which fetch before a commit has landed. */
  lemma FetchTwice(n: nat, key: Key, record: seq<Byte>)
    returns (states: seq<System>, events: seq<Event>, s: System)
    requires record != [] && ZERO !in record && COLON !in key.0 && Fits(Entry(key.1, Raw(record)))
    ensures EndsAt(n, states, events, s) && GoodRun(n, states, events, key)
    ensures Shows(s.broker, key.1, record) && s.offsets == map[] && s.acknowledged == map[]
    ensures var c := Committing(key, ConsumeText, 0, [RawRow(record)]); s.connections == [c, c]
  {
    states, events, s := OneRecord(n, key.1, record);
    ZeroFreeUnderstood(s, key, record);
    states, events, s := AskAndFetch(n, states, events, s, key, ConsumeText);
    ZeroFreeUnderstood(s, key, record);
    states, events, s := AskAndFetch(n, states, events, s, key, ConsumeText);
  }

  lemma CommitTwice(n: nat, states: seq<System>, events: seq<Event>, s: System, c: Connection)
    returns (states': seq<System>, events': seq<Event>, s': System)
    requires EndsAt(n, states, events, s) && GoodRun(n, states, events, c.key)
    requires s.broker.synced <= |s.broker.wal| && COLON !in c.key.0
    requires c.Committing? && !c.call.ConsumeContinuously?
    requires s.connections == [c, c] && s.offsets == map[] && s.acknowledged == map[]
    ensures EndsAt(n, states', events', s') && GoodRun(n, states', events', c.key)
    ensures s'.broker == s.broker && OffsetOf(s'.offsets, c.key) == c.from + |c.rows|
    ensures RowsFor(s'.acknowledged, c.key) == c.rows + c.rows
  {
    states', events', s' := FirstCommit(n, states, events, s);
    assert s'.connections == [c];
    assert [] + c.rows == c.rows;
    states', events', s' := FirstCommit(n, states', events', s');
  }

  /** A client that calls again before its commit has landed is handed the rows again, and commits them again. */
  lemma PendingCommitRepeats(n: nat, key: Key, record: seq<Byte>)
    returns (states: seq<System>, events: seq<Event>, s: System)
    requires record != [] && ZERO !in record && COLON !in key.0 && Fits(Entry(key.1, Raw(record)))
    ensures EndsAt(n, states, events, s) && GoodRun(n, states, events, key)
    ensures Log(s, key.1) == [RawRow(record)] && OffsetOf(s.offsets, key) == 1
    ensures RowsFor(s.acknowledged, key) == [RawRow(record), RawRow(record)]
  {
    states, events, s := FetchTwice(n, key, record);
    states, events, s := CommitTwice(n, states, events, s, Committing(key, ConsumeText, 0, [RawRow(record)]));
    ShownToConsumers(s.broker, key.1, record);
  }
}
