/**
 The broker under concurrency: any number of threads inside `TopicManager::add`, interleaved at
 every taking and releasing of a lock, with topic creation, spilling and crashes in between. A call
 of the backend is one step. The read lock on the metadata is held from the classification of
 a record to the end of the call, so a topic can be created only while no thread is inside.
 */
module LockSteps {
  import opened Wrappers
  import opened Bytes
  import opened ArrowStream
  import opened Records
  import opened Sequences
  import opened WalFormat
  import opened TopicRules
  import opened BrokerState

  /** A call of `WriteAheadLog::flush`: when it flushed the file, and when it locked the buffer to drain it. */
  datatype FlushCall = FlushCall(flushedAt: nat, drainedAt: nat)

  /** Where a thread is inside `TopicManager::add`. */
  datatype Phase =
    | Idle
    | Classified(entry: Entry)
    | FileLocked(entry: Entry)
    | Written(entry: Entry)
    | Pushed
    | Unlocked
    | MustFlush
    | FlushLocked
    | Flushed(at: nat)
    | Window(at: nat)
    | Draining(call: FlushCall)

  /**
   The broker, the threads and the two mutexes; and three histories beside it: when each entry of
   the log was written, when each entry was pushed to the buffer, and which call published it.
   */
  datatype State = State(
    broker: Broker,
    threads: map<nat, Phase>,
    fileLock: Option<nat>,
    bufferLock: Option<nat>,
    clock: nat,
    writtenAt: seq<nat>,
    pushedAt: seq<nat>,
    publishedBy: seq<FlushCall>)

  const START := State(FRESH, map[], None, None, 0, [], [], [])

  datatype Action =
    | Begin(thread: nat, topic: Text, record: seq<Byte>)
    | LockFile(thread: nat)
    | Write(thread: nat)
    | Push(thread: nat)
    | UnlockFile(thread: nat)
    | Check(thread: nat)
    | LockFileToFlush(thread: nat)
    | FlushFile(thread: nat)
    | UnlockFlushedFile(thread: nat)
    | LockBuffer(thread: nat)
    | PublishOne(thread: nat)
    | FinishDrain(thread: nat)
    | Create(topic: Text, schema: Option<Schema>)
    | Spill(k: nat)
    | Crash

  function PhaseOf(s: State, t: nat): Phase {
    if t in s.threads then s.threads[t] else Idle
  }

  predicate HoldsFile(p: Phase) {
    p.FileLocked? || p.Written? || p.Pushed? || p.FlushLocked? || p.Flushed?
  }

  predicate Allowed(s: State, a: Action) {
    match a
    case Begin(t, topic, record) =>
      && PhaseOf(s, t).Idle?
      && var stored := Classify(s.broker.metadata, topic, record);
         stored.Success? && Fits(Entry(topic, stored.value))
    case LockFile(t) => PhaseOf(s, t).Classified? && s.fileLock == None
    case Write(t) => PhaseOf(s, t).FileLocked? && s.broker.synced <= |s.broker.wal|
    case Push(t) => PhaseOf(s, t).Written? && s.bufferLock == None
    case UnlockFile(t) => PhaseOf(s, t).Pushed?
    case Check(t) => PhaseOf(s, t).Unlocked? && s.bufferLock == None
    case LockFileToFlush(t) => PhaseOf(s, t).MustFlush? && s.fileLock == None
    case FlushFile(t) => PhaseOf(s, t).FlushLocked?
    case UnlockFlushedFile(t) => PhaseOf(s, t).Flushed?
    case LockBuffer(t) => PhaseOf(s, t).Window? && s.bufferLock == None
    case PublishOne(t) => PhaseOf(s, t).Draining? && s.broker.buffer != []
    case FinishDrain(t) => PhaseOf(s, t).Draining? && s.broker.buffer == []
    case Create(_, _) => forall t | t in s.threads :: s.threads[t].Idle?
    case Spill(k) => s.broker.synced <= k <= |s.broker.wal|
    case Crash => s.broker.synced <= |s.broker.wal| && s.broker.synced <= |s.writtenAt|
  }

  function Enter(s: State, t: nat, p: Phase): State {
    s.(threads := s.threads[t := p], clock := s.clock + 1)
  }

  function WriteEntry(s: State, e: Entry): State
    requires s.broker.synced <= |s.broker.wal|
  {
    s.(broker := WriteSpec(s.broker, e), writtenAt := s.writtenAt + [s.clock])
  }

  function PushEntry(s: State, e: Entry): State {
    s.(broker := s.broker.(buffer := s.broker.buffer + [e]), pushedAt := s.pushedAt + [s.clock])
  }

  function PublishHead(s: State, call: FlushCall): State
    requires s.broker.buffer != []
  {
    var b := s.broker;
    s.(broker := b.(published := b.published + [b.buffer[0]], buffer := b.buffer[1..]),
       publishedBy := s.publishedBy + [call])
  }

  /** Everything in memory is gone, the entries in the file are published again. */
  function AfterCrash(s: State): State
    requires s.broker.synced <= |s.broker.wal| && s.broker.synced <= |s.writtenAt|
  {
    var k := s.broker.synced;
    State(Restart(Durable(s.broker)), map[], None, None, s.clock + 1,
          s.writtenAt[..k], s.writtenAt[..k], seq(k, _ => FlushCall(0, 0)))
  }

  function Next(n: nat, s: State, a: Action): State
    requires Allowed(s, a)
  {
    match a
    case Begin(t, topic, record) =>
      Enter(s, t, Classified(Entry(topic, Classify(s.broker.metadata, topic, record).value)))
    case LockFile(t) => Enter(s, t, FileLocked(PhaseOf(s, t).entry)).(fileLock := Some(t))
    case Write(t) => Enter(WriteEntry(s, PhaseOf(s, t).entry), t, Written(PhaseOf(s, t).entry))
    case Push(t) => Enter(PushEntry(s, PhaseOf(s, t).entry), t, Pushed)
    case UnlockFile(t) => Enter(s, t, Unlocked).(fileLock := None)
    case Check(t) => Enter(s, t, if |s.broker.buffer| >= n then MustFlush else Idle)
    case LockFileToFlush(t) => Enter(s, t, FlushLocked).(fileLock := Some(t))
    case FlushFile(t) => Enter(s, t, Flushed(s.clock)).(broker := SpillTo(s.broker, |s.broker.wal|))
    case UnlockFlushedFile(t) => Enter(s, t, Window(PhaseOf(s, t).at)).(fileLock := None)
    case LockBuffer(t) => Enter(s, t, Draining(FlushCall(PhaseOf(s, t).at, s.clock))).(bufferLock := Some(t))
    case PublishOne(t) => Enter(PublishHead(s, PhaseOf(s, t).call), t, PhaseOf(s, t))
    case FinishDrain(t) => Enter(s, t, Idle).(bufferLock := None)
    case Create(topic, schema) => s.(broker := CreateSpec(s.broker, topic, schema).0, clock := s.clock + 1)
    case Spill(k) => s.(broker := SpillTo(s.broker, k), clock := s.clock + 1)
    case Crash => AfterCrash(s)
  }

  ghost predicate Step(n: nat, s: State, a: Action, s': State) {
    Allowed(s, a) && s' == Next(n, s, a)
  }

  ghost predicate IsRun(n: nat, states: seq<State>, actions: seq<Action>) {
    && |states| == |actions| + 1
    && states[0] == START
    && forall i | 0 <= i < |actions| :: Step(n, states[i], actions[i], states[i + 1])
  }

  // ---------- The locks ----------

  ghost predicate LocksMatch(s: State, t: nat) {
    && (HoldsFile(PhaseOf(s, t)) <==> s.fileLock == Some(t))
    && (PhaseOf(s, t).Draining? <==> s.bufferLock == Some(t))
  }

  ghost predicate Locks(s: State) {
    forall t :: LocksMatch(s, t)
  }

  lemma StepKeepsLocks(n: nat, s: State, a: Action, s': State)
    requires Locks(s) && Step(n, s, a, s')
    ensures Locks(s')
  {
    forall t ensures LocksMatch(s', t) {
      assert LocksMatch(s, t);
      if !a.Create? && !a.Spill? && !a.Crash? {
        assert LocksMatch(s, a.thread);
      }
    }
  }

  // ---------- The order of the log ----------

  /** The entry that is written but not pushed: at most one, its writer holds the file lock. */
  function InFlight(s: State): seq<Entry> {
    if s.fileLock.Some? && PhaseOf(s, s.fileLock.value).Written? then [PhaseOf(s, s.fileLock.value).entry] else []
  }

  predicate HasEntry(p: Phase) {
    p.Classified? || p.FileLocked? || p.Written?
  }

  ghost predicate EntryFits(p: Phase) {
    HasEntry(p) ==> Fits(p.entry)
  }

  /** The log holds what is published, then what is buffered, then the entry in flight. */
  ghost predicate LogOrder(s: State) {
    var b := s.broker;
    && b.wal == b.published + b.buffer + InFlight(s)
    && b.synced <= |b.wal|
    && AllFit(b.wal)
    && forall t :: EntryFits(PhaseOf(s, t))
  }

  lemma EntryKept(n: nat, s: State, a: Action, s': State, t: nat)
    requires Step(n, s, a, s') && !(a.Begin? && a.thread == t)
    ensures HasEntry(PhaseOf(s', t)) ==> HasEntry(PhaseOf(s, t)) && PhaseOf(s', t).entry == PhaseOf(s, t).entry
  {
  }

  lemma StepKeepsFits(n: nat, s: State, a: Action, s': State)
    requires Step(n, s, a, s') && forall t :: EntryFits(PhaseOf(s, t))
    ensures forall t :: EntryFits(PhaseOf(s', t))
  {
    forall t ensures EntryFits(PhaseOf(s', t)) {
      if !(a.Begin? && a.thread == t) {
        assert EntryFits(PhaseOf(s, t));
        EntryKept(n, s, a, s', t);
      }
    }
  }

  lemma StepKeepsLogOrder(n: nat, s: State, a: Action, s': State)
    requires Locks(s) && Locks(s') && LogOrder(s) && Step(n, s, a, s')
    ensures LogOrder(s')
  {
    StepKeepsFits(n, s, a, s');
    if !a.Create? && !a.Spill? && !a.Crash? {
      assert LocksMatch(s, a.thread) && LocksMatch(s', a.thread);
    }
    match a {
      case Write(t) => WriteKeepsLogOrder(s, s', t);
      case Push(t) => PushKeepsLogOrder(s, s', t);
      case PublishOne(t) => PublishKeepsLogOrder(s, s');
      case Crash => CrashKeepsLogOrder(s);
      case _ => assert InFlight(s') == InFlight(s);
    }
  }

  lemma WriteKeepsLogOrder(s: State, s': State, t: nat)
    requires LogOrder(s) && InFlight(s) == [] && PhaseOf(s, t).FileLocked?
    requires s'.broker == WriteEntry(s, PhaseOf(s, t).entry).broker && InFlight(s') == [PhaseOf(s, t).entry]
    requires forall t' :: EntryFits(PhaseOf(s', t'))
    ensures LogOrder(s')
  {
    var b := s.broker;
    assert EntryFits(PhaseOf(s, t));
    assert b.published + b.buffer + [] == b.published + b.buffer;
  }

  lemma PushKeepsLogOrder(s: State, s': State, t: nat)
    requires LogOrder(s) && PhaseOf(s, t).Written? && InFlight(s) == [PhaseOf(s, t).entry]
    requires s'.broker == PushEntry(s, PhaseOf(s, t).entry).broker && InFlight(s') == []
    requires forall t' :: EntryFits(PhaseOf(s', t'))
    ensures LogOrder(s')
  {
    var b, e := s.broker, PhaseOf(s, t).entry;
    ConcatAssociates(b.published, b.buffer, [e]);
    assert b.published + (b.buffer + [e]) + [] == b.published + (b.buffer + [e]);
  }

  lemma PublishKeepsLogOrder(s: State, s': State)
    requires LogOrder(s) && s.broker.buffer != []
    requires s'.broker == PublishHead(s, FlushCall(0, 0)).broker && InFlight(s') == InFlight(s)
    requires forall t' :: EntryFits(PhaseOf(s', t'))
    ensures LogOrder(s')
  {
    var b := s.broker;
    TakeDrop(b.buffer, 1);
    assert b.buffer[..1] == [b.buffer[0]];
    ConcatAssociates(b.published, [b.buffer[0]], b.buffer[1..]);
  }

  lemma CrashKeepsLogOrder(s: State)
    requires LogOrder(s) && s.broker.synced <= |s.writtenAt|
    ensures LogOrder(AfterCrash(s))
  {
    var es := s.broker.wal[..s.broker.synced];
    LogRoundTrip(es);
    assert es + [] + [] == es;
  }

  // ---------- The order within topics ----------

  ghost predicate EntryConforms(metadata: Metadata, p: Phase) {
    p.Classified? || p.FileLocked? ==> Conforms(metadata, p.entry)
  }

  /** What was classified still conforms when it is written: its thread keeps the metadata from changing. */
  ghost predicate TopicOrder(s: State) {
    && TopicsOrdered(s.broker.wal, s.broker.metadata)
    && forall t :: EntryConforms(s.broker.metadata, PhaseOf(s, t))
  }

  lemma StepKeepsConforming(n: nat, s: State, a: Action, s': State)
    requires TopicOrder(s) && Step(n, s, a, s')
    ensures forall t :: EntryConforms(s'.broker.metadata, PhaseOf(s', t))
  {
    forall t ensures EntryConforms(s'.broker.metadata, PhaseOf(s', t)) {
      assert EntryConforms(s.broker.metadata, PhaseOf(s, t));
      if a.Begin? {
        ClassifiedConforms(s.broker.metadata, a.topic, a.record);
      }
    }
  }

  lemma StepKeepsTopicOrder(n: nat, s: State, a: Action, s': State)
    requires LogOrder(s) && TopicOrder(s) && Step(n, s, a, s')
    ensures TopicOrder(s')
  {
    var b := s.broker;
    StepKeepsConforming(n, s, a, s');
    match a {
      case Write(t) =>
        assert EntryConforms(b.metadata, PhaseOf(s, t));
        AppendKeepsOrder(b.wal, b.metadata, PhaseOf(s, t).entry);
      case Create(topic, schema) =>
        if topic !in b.metadata {
          CreateKeepsOrder(b.wal, b.metadata, topic, schema);
        }
      case Crash =>
        LogRoundTrip(b.wal[..b.synced]);
        PrefixKeepsOrder(b.wal, b.metadata, b.synced);
        RecoveryKeepsOrder(b.wal[..b.synced], b.metadata);
      case _ =>
    }
  }

  // ---------- When entries are written, pushed and published ----------

  /** Entry `i` was written, and then pushed, after the call flushed the file and before it drained the buffer. */
  ghost predicate InWindow(s: State, i: nat, call: FlushCall)
    requires i < |s.writtenAt| && i < |s.pushedAt|
  {
    call.flushedAt < s.writtenAt[i] < s.pushedAt[i] < call.drainedAt
  }

  /** Each history has a time for each of its entries. */
  predicate CountsMatch(s: State) {
    var b := s.broker;
    && |s.writtenAt| == |b.wal|
    && |s.pushedAt| == |b.published| + |b.buffer|
    && |s.publishedBy| == |b.published|
    && |s.pushedAt| <= |s.writtenAt|
  }

  ghost predicate HistoriesMatch(s: State) {
    && CountsMatch(s)
    && (forall i | 0 <= i < |s.writtenAt| :: s.writtenAt[i] < s.clock)
    && (forall i | 0 <= i < |s.pushedAt| :: s.pushedAt[i] < s.clock)
  }

  /** The time of the thread's file flush, if it is between that flush and the end of its drain. */
  function FlushTime(p: Phase): Option<nat> {
    match p
    case Flushed(at) => Some(at)
    case Window(at) => Some(at)
    case Draining(call) => Some(call.flushedAt)
    case _ => None
  }

  /** Entries not in the file were written after every flush still under way; none is pushed while a call drains. */
  ghost predicate FlushTimes(s: State, t: nat) {
    var p := PhaseOf(s, t);
    && (FlushTime(p).Some? ==> FlushTime(p).value < s.clock)
    && (FlushTime(p).Some? ==> forall i | s.broker.synced <= i < |s.writtenAt| :: FlushTime(p).value < s.writtenAt[i])
    && (p.Draining? ==> forall i | 0 <= i < |s.pushedAt| :: s.pushedAt[i] < p.call.drainedAt)
  }

  ghost predicate PublishedTimes(s: State) {
    && HistoriesMatch(s)
    && (forall i | s.broker.synced <= i < |s.pushedAt| :: s.writtenAt[i] < s.pushedAt[i])
    && (forall i | s.broker.synced <= i < |s.publishedBy| :: InWindow(s, i, s.publishedBy[i]))
  }

  /** The log only grows, at its end and at this moment, and the file with it. */
  ghost predicate HistoriesGrow(s: State, s': State) {
    && s.clock < s'.clock && s.broker.synced <= s'.broker.synced
    && (s'.writtenAt == s.writtenAt || s'.writtenAt == s.writtenAt + [s.clock])
    && (s'.pushedAt == s.pushedAt || (s'.pushedAt == s.pushedAt + [s.clock] && s'.writtenAt == s.writtenAt))
  }

  lemma StepGrows(n: nat, s: State, a: Action, s': State)
    requires Step(n, s, a, s') && !a.Crash? && LogOrder(s)
    ensures HistoriesGrow(s, s')
    ensures s'.pushedAt == s.pushedAt || s.bufferLock == None
    ensures a.PublishOne? || s'.publishedBy == s.publishedBy
  {
  }

  lemma StepKeepsHistories(n: nat, s: State, a: Action, s': State)
    requires LogOrder(s) && LogOrder(s') && HistoriesMatch(s) && Step(n, s, a, s')
    ensures HistoriesMatch(s')
  {
    if a.Crash? {
      CrashTimes(s);
    } else {
      StepKeepsTimes(n, s, a, s');
    }
  }

  lemma StepKeepsTimes(n: nat, s: State, a: Action, s': State)
    requires LogOrder(s) && LogOrder(s') && HistoriesMatch(s) && Step(n, s, a, s') && !a.Crash?
    ensures HistoriesMatch(s')
  {
    StepGrows(n, s, a, s');
    StepKeepsCounts(n, s, a, s');
    TimesStay(s, s');
  }

  lemma StepKeepsCounts(n: nat, s: State, a: Action, s': State)
    requires LogOrder(s) && LogOrder(s') && CountsMatch(s) && Step(n, s, a, s') && !a.Crash?
    ensures CountsMatch(s')
  {
  }

  lemma TimesStay(s: State, s': State)
    requires HistoriesMatch(s) && HistoriesGrow(s, s') && CountsMatch(s')
    ensures HistoriesMatch(s')
  {
  }

  /** After a crash everything in the log counts as published, and all of it is in the file. */
  lemma CrashTimes(s: State)
    requires LogOrder(s) && HistoriesMatch(s)
    ensures var s' := AfterCrash(s);
            && HistoriesMatch(s')
            && s'.broker.synced == |s'.writtenAt| == |s'.pushedAt| == |s'.publishedBy|
  {
    var b := s.broker;
    LogRoundTrip(b.wal[..b.synced]);
  }

  lemma FlushTimesStay(s: State, s': State, t: nat)
    requires FlushTimes(s, t) && HistoriesMatch(s) && HistoriesGrow(s, s')
    requires var p, p' := PhaseOf(s, t), PhaseOf(s', t);
             && (FlushTime(p') == FlushTime(p) || FlushTime(p') == None
                 || (FlushTime(p') == Some(s.clock) && s'.broker.synced == |s'.writtenAt|))
             && (p'.Draining? ==> s'.pushedAt == s.pushedAt && (p' == p || p'.call.drainedAt == s.clock))
    ensures FlushTimes(s', t)
  {
  }

  lemma OwnFlushTimes(n: nat, s: State, a: Action, s': State)
    requires !a.Create? && !a.Spill? && !a.Crash?
    requires HistoriesMatch(s) && LogOrder(s) && Step(n, s, a, s') && FlushTimes(s, a.thread)
    ensures FlushTimes(s', a.thread)
  {
    StepGrows(n, s, a, s');
    FlushTimesStay(s, s', a.thread);
  }

  lemma OthersStay(n: nat, s: State, a: Action, s': State, t: nat)
    requires Step(n, s, a, s') && !a.Crash? && (a.Create? || a.Spill? || t != a.thread)
    ensures PhaseOf(s', t) == PhaseOf(s, t)
  {
  }

  lemma OtherFlushTimes(s: State, s': State, t: nat)
    requires HistoriesMatch(s) && LocksMatch(s, t) && FlushTimes(s, t) && HistoriesGrow(s, s')
    requires PhaseOf(s', t) == PhaseOf(s, t) && (s'.pushedAt == s.pushedAt || s.bufferLock == None)
    ensures FlushTimes(s', t)
  {
    FlushTimesStay(s, s', t);
  }

  lemma StepKeepsFlushTimes(n: nat, s: State, a: Action, s': State)
    requires Locks(s) && HistoriesMatch(s) && LogOrder(s) && Step(n, s, a, s')
    requires forall t :: FlushTimes(s, t)
    ensures forall t :: FlushTimes(s', t)
  {
    forall t ensures FlushTimes(s', t) {
      assert FlushTimes(s, t) && LocksMatch(s, t);
      if a.Crash? {
      } else if !a.Create? && !a.Spill? && t == a.thread {
        OwnFlushTimes(n, s, a, s');
      } else {
        StepGrows(n, s, a, s');
        OthersStay(n, s, a, s', t);
        OtherFlushTimes(s, s', t);
      }
    }
  }

  lemma PublishedTimesStay(s: State, s': State)
    requires PublishedTimes(s) && HistoriesMatch(s') && HistoriesGrow(s, s') && s'.publishedBy == s.publishedBy
    ensures PublishedTimes(s')
  {
  }

  /** What a call publishes was written after its file flush, if it is not in the file, and pushed before its drain. */
  lemma PublishKeepsTimes(n: nat, s: State, s': State, t: nat)
    requires LogOrder(s) && PublishedTimes(s) && HistoriesMatch(s') && FlushTimes(s, t)
    requires Step(n, s, PublishOne(t), s')
    ensures PublishedTimes(s')
  {
  }

  lemma StepKeepsPublishedTimes(n: nat, s: State, a: Action, s': State)
    requires LogOrder(s) && LogOrder(s') && PublishedTimes(s) && Step(n, s, a, s')
    requires forall t :: FlushTimes(s, t)
    ensures PublishedTimes(s')
  {
    StepKeepsHistories(n, s, a, s');
    if a.PublishOne? {
      assert FlushTimes(s, a.thread);
      PublishKeepsTimes(n, s, s', a.thread);
    } else if a.Crash? {
      CrashTimes(s);
    } else {
      StepGrows(n, s, a, s');
      PublishedTimesStay(s, s');
    }
  }

  // ---------- How far the buffer grows ----------

  /** The thread has pushed its entry, and neither found the buffer short nor finished draining it. */
  predicate PastPush(p: Phase) {
    p.Pushed? || p.Unlocked? || p.MustFlush? || p.FlushLocked? || p.Flushed? || p.Window? || p.Draining?
  }

  /** The threads whose phase is of a kind. */
  function ThreadsAt(threads: map<nat, Phase>, kind: Phase -> bool): set<nat> {
    set t | t in threads && kind(threads[t])
  }

  lemma ThreadsAtAfter(threads: map<nat, Phase>, t: nat, p: Phase, kind: Phase -> bool)
    ensures |ThreadsAt(threads[t := p], kind)|
         == |ThreadsAt(threads, kind)| + (if kind(p) then 1 else 0) - (if t in ThreadsAt(threads, kind) then 1 else 0)
  {
    var before, after := ThreadsAt(threads, kind), ThreadsAt(threads[t := p], kind);
    if kind(p) {
      SetWith(before, t);
      assert after == before + {t};
    } else {
      SetWith(before - {t}, t);
      assert t in before ==> before - {t} + {t} == before;
      assert t !in before ==> before - {t} == before;
      assert after == before - {t};
    }
  }

  lemma SetWith(s: set<nat>, t: nat)
    ensures |s + {t}| == |s| + (if t in s then 0 else 1)
  {
    if t in s {
      assert s + {t} == s;
    }
  }

  lemma ThreadsAtMove(s: State, s': State, t: nat, kind: Phase -> bool)
    requires t in s'.threads && s'.threads == s.threads[t := s'.threads[t]] && !kind(Idle)
    ensures |ThreadsAt(s'.threads, kind)|
         == |ThreadsAt(s.threads, kind)|
            + (if kind(s'.threads[t]) then 1 else 0) - (if kind(PhaseOf(s, t)) then 1 else 0)
  {
    ThreadsAtAfter(s.threads, t, s'.threads[t], kind);
  }

  ghost predicate BufferBounded(n: nat, s: State) {
    |s.broker.buffer| <= Slack(n) + |ThreadsAt(s.threads, PastPush)|
  }

  lemma StepKeepsBufferBounded(n: nat, s: State, a: Action, s': State)
    requires BufferBounded(n, s) && Step(n, s, a, s')
    ensures BufferBounded(n, s')
  {
    if !a.Create? && !a.Spill? && !a.Crash? {
      ThreadsAtMove(s, s', a.thread, PastPush);
    }
  }

  // ---------- Every interleaving ----------

  ghost predicate StateInv(n: nat, s: State) {
    && Locks(s)
    && LogOrder(s)
    && TopicOrder(s)
    && PublishedTimes(s)
    && (forall t :: FlushTimes(s, t))
    && BufferBounded(n, s)
  }

  lemma StartInv(n: nat)
    ensures StateInv(n, START)
  {
    assert forall t :: LocksMatch(START, t);
    assert forall t :: EntryFits(PhaseOf(START, t));
    assert forall t :: EntryConforms(START.broker.metadata, PhaseOf(START, t));
    assert forall t :: FlushTimes(START, t);
  }

  lemma StepKeepsInv(n: nat, s: State, a: Action, s': State)
    requires StateInv(n, s) && Step(n, s, a, s')
    ensures StateInv(n, s')
  {
    StepKeepsLocks(n, s, a, s');
    StepKeepsLogOrder(n, s, a, s');
    StepKeepsTopicOrder(n, s, a, s');
    StepKeepsFlushTimes(n, s, a, s');
    StepKeepsPublishedTimes(n, s, a, s');
    StepKeepsBufferBounded(n, s, a, s');
  }

  lemma {:induction false} RunKeepsInv(n: nat, states: seq<State>, actions: seq<Action>, i: nat)
    requires IsRun(n, states, actions) && i < |states|
    ensures StateInv(n, states[i])
  {
    if i == 0 {
      StartInv(n);
    } else {
      RunKeepsInv(n, states, actions, i - 1);
      RunStepKeepsInv(n, states, actions, i - 1);
    }
  }

  lemma RunStepKeepsInv(n: nat, states: seq<State>, actions: seq<Action>, i: nat)
    requires IsRun(n, states, actions) && i < |actions| && StateInv(n, states[i])
    ensures StateInv(n, states[i + 1])
  {
    assert Step(n, states[i], actions[i], states[i + 1]);
    StepKeepsInv(n, states[i], actions[i], states[i + 1]);
  }

  /**
   Under every interleaving the order of the log's bytes is the order of publication: file and writer
   together parse to what is published, what is buffered, and at most one entry whose writer holds
   the file lock. A crash at any moment leaves a log that recovers, to a prefix of those.
   */
  lemma LogOrderIsPublicationOrder(n: nat, states: seq<State>, actions: seq<Action>, i: nat)
    requires IsRun(n, states, actions) && i < |states|
    ensures LogParses(states[i])
    ensures WritersHoldTheLock(states[i])
  {
    RunKeepsInv(n, states, actions, i);
    OrderedLogParses(states[i]);
    WritersLocked(states[i]);
  }

  /** An entry that is written and not pushed is the one in flight, and its writer holds the file lock. */
  ghost predicate WritersHoldTheLock(s: State) {
    forall t: nat :: PhaseOf(s, t).Written? ==> s.fileLock == Some(t) && InFlight(s) == [PhaseOf(s, t).entry]
  }

  lemma WritersLocked(s: State)
    requires Locks(s)
    ensures WritersHoldTheLock(s)
  {
    forall t: nat ensures PhaseOf(s, t).Written? ==> s.fileLock == Some(t) && InFlight(s) == [PhaseOf(s, t).entry] {
      assert LocksMatch(s, t);
    }
  }

  /** File and writer together, and the file alone, parse to the entries in the order of publication. */
  ghost predicate LogParses(s: State) {
    var b := s.broker;
    var entries := b.published + b.buffer + InFlight(s);
    && b.synced <= |b.wal| && b.synced <= |entries|
    && ParseLog(Durable(b) + Pending(b)) == Replay(entries, None)
    && ParseLog(Durable(b)) == Replay(entries[..b.synced], None)
  }

  lemma OrderedLogParses(s: State)
    requires LogOrder(s)
    ensures LogParses(s)
  {
    var b := s.broker;
    SerializeSplit(b.wal, b.synced);
    LogRoundTrip(b.wal);
    LogRoundTrip(b.wal[..b.synced]);
  }

  /** The entry whose writer is about to write it, or in the middle of it. */
  function InWrite(s: State): seq<Entry> {
    if s.fileLock.Some? && PhaseOf(s, s.fileLock.value).FileLocked? then [PhaseOf(s, s.fileLock.value).entry] else []
  }

  /**
   A crash in the middle of a write or of a flush, under every interleaving: the complete entries are replayed, all
   that were in the file among them, and so all that was published unless it was ahead of the file.
   */
  lemma TornWrite(n: nat, states: seq<State>, actions: seq<Action>, i: nat, file: seq<Byte>) returns (k: nat)
    requires IsRun(n, states, actions) && i < |states|
    requires var s := states[i];
             && s.broker.synced <= |s.broker.wal|
             && Durable(s.broker) <= file <= Durable(s.broker) + Pending(s.broker) + SerializeAll(InWrite(s))
    ensures var b, log := states[i].broker, states[i].broker.wal + InWrite(states[i]);
            && CompleteEntries(log, |file|, k) && ReplaysFirst(log, file, k) && b.synced <= k
            && (|b.published| <= b.synced ==> b.published <= log[..k])
  {
    var s, b := states[i], states[i].broker;
    RunKeepsInv(n, states, actions, i);
    InWriteFits(s);
    k := TornBehind(b.wal, b.synced, InWrite(s), file);
    if |b.published| <= b.synced {
      PublishedFirst(s);
      PrefixOfTaken(b.published, b.wal, InWrite(s), k);
    }
  }

  lemma InWriteFits(s: State)
    requires LogOrder(s)
    ensures AllFit(InWrite(s))
  {
    assert s.fileLock.Some? ==> EntryFits(PhaseOf(s, s.fileLock.value));
  }

  lemma PublishedFirst(s: State)
    requires LogOrder(s)
    ensures s.broker.published <= s.broker.wal
  {
    ConcatAssociates(s.broker.published, s.broker.buffer, InFlight(s));
  }

  /**
   Under every interleaving an entry that is published but not in the file was written and pushed
   between the file flush and the buffer drain of the very call that published it.
   */
  lemma UnsyncedWasAddedInWindow(n: nat, states: seq<State>, actions: seq<Action>, i: nat, k: nat)
    requires IsRun(n, states, actions) && i < |states|
    requires states[i].broker.synced <= k < |states[i].broker.published|
    ensures k < |states[i].writtenAt| && k < |states[i].pushedAt| && k < |states[i].publishedBy|
    ensures InWindow(states[i], k, states[i].publishedBy[k])
  {
    RunKeepsInv(n, states, actions, i);
  }

  /** Under every interleaving each topic stores raw records first and then batches of the schema its metadata names. */
  lemma InterleavingsOrderTopics(n: nat, states: seq<State>, actions: seq<Action>, i: nat, topic: Text)
    returns (raws: seq<StoredRecord>, batched: seq<StoredRecord>)
    requires IsRun(n, states, actions) && i < |states|
    ensures var b := states[i].broker;
            && RecordsOf(b.published, topic) == raws + batched
            && AllRaw(raws)
            && (batched != [] ==>
                  topic in b.metadata && b.metadata[topic].schema.Some?
                  && BatchedAs(batched, b.metadata[topic].schema.value))
  {
    RunKeepsInv(n, states, actions, i);
    var b := states[i].broker;
    PrefixKeepsOrder(b.wal, b.metadata, |b.published|);
    assert b.wal[..|b.published|] == b.published;
    raws, batched := StoredRawThenBatches(b.published, b.metadata, topic);
  }

  /** Under every interleaving the buffer exceeds its sequential bound by at most the threads between push and end. */
  lemma BufferBound(n: nat, states: seq<State>, actions: seq<Action>, i: nat)
    requires IsRun(n, states, actions) && i < |states|
    ensures |states[i].broker.buffer| <= Slack(n) + |ThreadsAt(states[i].threads, PastPush)|
  {
    RunKeepsInv(n, states, actions, i);
  }

  // ---------- Strict write-ahead ----------

  /** No entry is pushed while a thread is between flushing the file and draining the buffer. */
  ghost predicate NoPushInWindow(states: seq<State>, actions: seq<Action>)
    requires |states| == |actions| + 1
  {
    forall i | 0 <= i < |actions| && actions[i].Push? ::
      forall t | t in states[i].threads :: !states[i].threads[t].Window?
  }

  /** What is published is in the file, and what a flush under way will publish is in the file as well. */
  ghost predicate WriteAhead(s: State) {
    && |s.broker.published| <= s.broker.synced
    && forall t | t in s.threads && FlushTime(s.threads[t]).Some? ::
         |s.broker.published| + |s.broker.buffer| <= s.broker.synced
  }

  lemma StepKeepsWriteAhead(n: nat, s: State, a: Action, s': State)
    requires StateInv(n, s) && StateInv(n, s') && WriteAhead(s) && Step(n, s, a, s')
    requires a.Push? ==> forall t | t in s.threads :: !s.threads[t].Window?
    ensures WriteAhead(s')
  {
    if !a.Create? && !a.Spill? && !a.Crash? {
      assert LocksMatch(s, a.thread);
    }
    if a.Crash? {
      LogRoundTrip(s.broker.wal[..s.broker.synced]);
    } else {
      forall t | t in s'.threads && FlushTime(s'.threads[t]).Some?
        ensures |s'.broker.published| + |s'.broker.buffer| <= s'.broker.synced
      {
        assert LocksMatch(s, t);
      }
    }
  }

  lemma {:induction false} RunKeepsWriteAhead(n: nat, states: seq<State>, actions: seq<Action>, i: nat)
    requires IsRun(n, states, actions) && NoPushInWindow(states, actions) && i < |states|
    ensures WriteAhead(states[i])
  {
    if i > 0 {
      RunKeepsWriteAhead(n, states, actions, i - 1);
      RunStepKeepsWriteAhead(n, states, actions, i - 1);
    }
  }

  lemma RunStepKeepsWriteAhead(n: nat, states: seq<State>, actions: seq<Action>, i: nat)
    requires IsRun(n, states, actions) && NoPushInWindow(states, actions) && i < |actions|
    requires WriteAhead(states[i])
    ensures WriteAhead(states[i + 1])
  {
    RunKeepsInv(n, states, actions, i);
    RunStepKeepsInv(n, states, actions, i);
    assert Step(n, states[i], actions[i], states[i + 1]);
    StepKeepsWriteAhead(n, states[i], actions[i], states[i + 1]);
  }

  /** When no push falls in such a window, everything published is in the file, so that a crash unpublishes nothing. */
  lemma WriteAheadOutsideWindows(n: nat, states: seq<State>, actions: seq<Action>, i: nat)
    requires IsRun(n, states, actions) && NoPushInWindow(states, actions) && i < |states|
    ensures |states[i].broker.published| <= states[i].broker.synced <= |states[i].broker.wal|
    ensures states[i].broker.published <= Restart(Durable(states[i].broker)).published
  {
    RunKeepsWriteAhead(n, states, actions, i);
    RunKeepsInv(n, states, actions, i);
    OrderedLogParses(states[i]);
  }
}
