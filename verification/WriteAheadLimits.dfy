/**
 By how many records what is published can be ahead of the file, in the number of threads that
 call `TopicManager::add`. `WriteAheadRuns` shows that the bound is sharp.
 */
module WriteAheadLimits {
  import opened WalFormat
  import opened BrokerState
  import opened LockSteps

  /** Only threads of `T` begin calls. */
  ghost predicate BeginsIn(actions: seq<Action>, T: set<nat>) {
    forall i | 0 <= i < |actions| && actions[i].Begin? :: actions[i].thread in T
  }

  ghost predicate BusyIn(s: State, T: set<nat>) {
    forall t | t in s.threads && !s.threads[t].Idle? :: t in T
  }

  // ---------- How many entries may be published and not in the file ----------

  /** The published entries that are not in the file, and the buffered ones. */
  function Unsynced(b: Broker): nat {
    if |b.published| > b.synced then |b.published| - b.synced else 0
  }

  function UnsyncedBuffer(b: Broker): nat {
    if |b.published| >= b.synced then |b.buffer|
    else if |b.published| + |b.buffer| > b.synced then |b.published| + |b.buffer| - b.synced
    else 0
  }

  /** The thread has pushed its entry and not flushed the file since. */
  predicate IsWaiting(p: Phase) {
    p.Pushed? || p.Unlocked? || p.MustFlush? || p.FlushLocked?
  }

  /** The thread has flushed the file and not locked the buffer since. */
  predicate IsAhead(p: Phase) {
    p.Flushed? || p.Window?
  }

  /** The thread has flushed the file and not finished draining. */
  predicate IsPublishing(p: Phase) {
    IsAhead(p) || p.Draining?
  }

  ghost predicate BufferCovered(n: nat, s: State) {
    UnsyncedBuffer(s.broker) <= Slack(n) + |ThreadsAt(s.threads, IsWaiting)|
  }

  lemma StepKeepsBufferCovered(n: nat, s: State, a: Action, s': State)
    requires LogOrder(s) && BufferCovered(n, s) && Step(n, s, a, s')
    ensures BufferCovered(n, s')
  {
    if !a.Create? && !a.Spill? && !a.Crash? {
      ThreadsAtMove(s, s', a.thread, IsWaiting);
    }
  }

  /**
   What `m` drains may publish that is not in the file, with `k` threads and no file flush in between: while `m` threads
   are yet to drain, the others can fill the buffer beyond its threshold by one entry each.
   */
  function Reserve(n: nat, k: nat, m: nat): nat {
    if m == 0 then 0 else Reserve(n, k, m - 1) + Slack(n) + (if m <= k then k - m else 0)
  }

  /** The most entries that can be published and not in the file, with `k` threads. */
  function Excess(n: nat, k: nat): nat {
    if k == 0 then 0 else if n == 0 then k - 1 else Reserve(n, k, k - 1)
  }

  /**
   While all of `T` are publishing, nobody can push, and all that is pushed is in the file. Otherwise what the
   drains still to come before the next file flush may publish is reserved.
   */
  ghost predicate Reserved(n: nat, T: set<nat>, s: State) {
    var b := s.broker;
    if T <= ThreadsAt(s.threads, IsPublishing) then |b.published| + |b.buffer| <= b.synced
    else
      Unsynced(b) + Reserve(n, |T|, |ThreadsAt(s.threads, IsAhead)|)
        + (if s.bufferLock.Some? then UnsyncedBuffer(b) else 0)
      <= Reserve(n, |T|, |T| - 1)
  }

  lemma {:induction false} ReserveGrows(n: nat, k: nat, m: nat, m': nat)
    requires m <= m'
    ensures Reserve(n, k, m) <= Reserve(n, k, m')
  {
    if m < m' {
      ReserveGrows(n, k, m, m' - 1);
    }
  }

  lemma {:induction false} ReserveInNumbers(n: nat, k: nat, m: nat)
    requires m <= k
    ensures 2 * Reserve(n, k, m) == m * (2 * Slack(n) + 2 * k - m - 1)
  {
    if m > 0 {
      var c := 2 * Slack(n) + 2 * k;
      ReserveInNumbers(n, k, m - 1);
      assert m * (c - m - 1) == (m - 1) * (c - (m - 1) - 1) + (c - 2 * m);
    }
  }

  /** The bound, written out: `(k - 1) * (n - 1)`, and `k * (k - 1) / 2` besides; or `k - 1` without a threshold. */
  lemma ExcessInNumbers(n: nat, k: nat)
    requires k > 0
    ensures 2 * Excess(n, k) == (k - 1) * (if n == 0 then 2 else 2 * (n - 1) + k)
  {
    ReserveInNumbers(n, k, k - 1);
  }

  lemma FewerThan(A: set<nat>, T: set<nat>, t: nat)
    requires A <= T && t in T && t !in A
    ensures |A| <= |T| - 1
  {
    assert A <= T - {t};
    SubsetSize(A, T - {t});
  }

  lemma TwoKinds(A: set<nat>, B: set<nat>, T: set<nat>)
    requires A <= T && B <= T && A !! B
    ensures |A| + |B| <= |T|
  {
    assert |A + B| == |A| + |B|;
    SubsetSize(A + B, T);
  }

  lemma {:induction false} SubsetSize(A: set<nat>, B: set<nat>)
    requires A <= B
    ensures |A| <= |B|
  {
    if A != {} {
      var x :| x in A;
      SubsetSize(A - {x}, B - {x});
    }
  }

  lemma KindIn(s: State, T: set<nat>, kind: Phase -> bool)
    requires BusyIn(s, T) && !kind(Idle)
    ensures ThreadsAt(s.threads, kind) <= T
  {
  }

  lemma StepKeepsBusyIn(n: nat, s: State, a: Action, s': State, T: set<nat>)
    requires BusyIn(s, T) && Step(n, s, a, s') && (a.Begin? ==> a.thread in T)
    ensures BusyIn(s', T)
  {
  }

  /** The state as far as the bound is concerned, and the three moves that matter to it. */
  ghost predicate Bounded(n: nat, T: set<nat>, s: State) {
    Locks(s) && LogOrder(s) && BusyIn(s, T) && BufferCovered(n, s) && Reserved(n, T, s)
  }

  /** A file flush clears all debts, and there is room to reserve a share for every thread ahead. */
  lemma FlushReserves(n: nat, T: set<nat>, s: State, s': State)
    requires LogOrder(s) && s'.broker == SpillTo(s.broker, |s.broker.wal|) && BusyIn(s', T)
    ensures Reserved(n, T, s')
  {
    var ahead, publishing := ThreadsAt(s'.threads, IsAhead), ThreadsAt(s'.threads, IsPublishing);
    assert Unsynced(s'.broker) == 0 && UnsyncedBuffer(s'.broker) == 0;
    if !(T <= publishing) {
      var u :| u in T && u !in publishing;
      KindIn(s', T, IsAhead);
      FewerThan(ahead, T, u);
      ReserveGrows(n, |T|, |ahead|, |T| - 1);
    }
  }

  /** A drain begins: what was reserved for it covers what the buffer holds beyond the file. */
  lemma LockBufferReserves(n: nat, T: set<nat>, s: State, s': State, t: nat)
    requires Bounded(n, T, s) && Step(n, s, LockBuffer(t), s')
    ensures Reserved(n, T, s')
  {
    ThreadsAtMove(s, s', t, IsAhead);
    assert t in s.threads && t in T;
    assert ThreadsAt(s'.threads, IsPublishing) == ThreadsAt(s.threads, IsPublishing);
    KindIn(s, T, IsWaiting);
    KindIn(s, T, IsAhead);
    TwoKinds(ThreadsAt(s.threads, IsWaiting), ThreadsAt(s.threads, IsAhead), T);
  }

  /** A drain ends: if all threads were publishing nothing was owed. */
  lemma FinishDrainReserves(n: nat, T: set<nat>, s: State, s': State, t: nat)
    requires Bounded(n, T, s) && Step(n, s, FinishDrain(t), s')
    requires BusyIn(s', T)
    ensures Reserved(n, T, s')
  {
    ThreadsAtMove(s, s', t, IsAhead);
    assert LocksMatch(s, t);
    assert t in s.threads && t in T && t !in ThreadsAt(s'.threads, IsPublishing);
    KindIn(s', T, IsAhead);
    FewerThan(ThreadsAt(s'.threads, IsAhead), T, t);
    ReserveGrows(n, |T|, |ThreadsAt(s'.threads, IsAhead)|, |T| - 1);
  }

  /** A push adds to the debt of nobody who is draining, for draining locks the buffer. */
  lemma PushReserves(n: nat, T: set<nat>, s: State, s': State, t: nat)
    requires Bounded(n, T, s) && Step(n, s, Push(t), s')
    ensures Reserved(n, T, s')
  {
    ThreadsAtMove(s, s', t, IsAhead);
    assert t in T && t !in ThreadsAt(s.threads, IsPublishing);
    assert ThreadsAt(s'.threads, IsPublishing) == ThreadsAt(s.threads, IsPublishing);
  }

  /** A drain turns what the buffer holds beyond the file into what is published beyond it. */
  lemma PublishReserves(n: nat, T: set<nat>, s: State, s': State, t: nat)
    requires Bounded(n, T, s) && Step(n, s, PublishOne(t), s')
    ensures Reserved(n, T, s')
  {
    ThreadsAtMove(s, s', t, IsAhead);
    assert LocksMatch(s, t);
    assert ThreadsAt(s'.threads, IsPublishing) == ThreadsAt(s.threads, IsPublishing);
  }

  /** The thread moves on, and nothing that the reserve depends on does. */
  lemma MoveReserves(n: nat, T: set<nat>, s: State, s': State, t: nat)
    requires Reserved(n, T, s) && s'.broker == s.broker && s'.bufferLock == s.bufferLock
    requires t in s'.threads && s'.threads == s.threads[t := s'.threads[t]]
    requires IsAhead(s'.threads[t]) == IsAhead(PhaseOf(s, t))
    requires IsPublishing(s'.threads[t]) == IsPublishing(PhaseOf(s, t))
    ensures Reserved(n, T, s')
  {
    ThreadsAtMove(s, s', t, IsAhead);
    assert ThreadsAt(s'.threads, IsPublishing) == ThreadsAt(s.threads, IsPublishing);
  }

  /** The more is in the file, the less is owed. */
  lemma MoreInFile(n: nat, T: set<nat>, s: State, s': State)
    requires Reserved(n, T, s) && s'.threads == s.threads && s'.bufferLock == s.bufferLock
    requires s'.broker.published == s.broker.published && s'.broker.buffer == s.broker.buffer
    requires s.broker.synced <= s'.broker.synced
    ensures Reserved(n, T, s')
  {
  }

  /** The other moves of a thread leave the log alone, and whether the thread is publishing. */
  lemma OtherMovesReserve(n: nat, T: set<nat>, s: State, a: Action, s': State)
    requires Bounded(n, T, s) && Step(n, s, a, s')
    requires a.Begin? || a.LockFile? || a.Write? || a.UnlockFile? || a.Check? || a.LockFileToFlush?
             || a.UnlockFlushedFile?
    ensures Reserved(n, T, s')
  {
    if a.Write? {
      var b := WriteSpec(s.broker, PhaseOf(s, a.thread).entry);
      MoreInFile(n, T, s, s.(broker := b));
      MoveReserves(n, T, s.(broker := b), s', a.thread);
    } else {
      MoveReserves(n, T, s, s', a.thread);
    }
  }

  lemma StepKeepsReserved(n: nat, T: set<nat>, s: State, a: Action, s': State)
    requires Bounded(n, T, s) && Step(n, s, a, s') && (a.Begin? ==> a.thread in T)
    requires Locks(s') && LogOrder(s') && BusyIn(s', T)
    ensures Reserved(n, T, s')
  {
    match a {
      case Push(t) => PushReserves(n, T, s, s', t);
      case PublishOne(t) => PublishReserves(n, T, s, s', t);
      case FlushFile(_) => FlushReserves(n, T, s, s');
      case LockBuffer(t) => LockBufferReserves(n, T, s, s', t);
      case FinishDrain(t) => FinishDrainReserves(n, T, s, s', t);
      case Create(_, _) =>
      case Spill(_) =>
      case Crash => CrashReserves(n, T, s);
      case _ => OtherMovesReserve(n, T, s, a, s');
    }
  }

  lemma CrashReserves(n: nat, T: set<nat>, s: State)
    requires LogOrder(s) && s.broker.synced <= |s.writtenAt|
    ensures Reserved(n, T, AfterCrash(s))
  {
    LogRoundTrip(s.broker.wal[..s.broker.synced]);
    assert ThreadsAt(AfterCrash(s).threads, IsAhead) == {};
  }

  lemma {:induction false} RunStaysBounded(n: nat, T: set<nat>, states: seq<State>, actions: seq<Action>, i: nat)
    requires IsRun(n, states, actions) && BeginsIn(actions, T) && i < |states|
    ensures Bounded(n, T, states[i])
  {
    RunKeepsInv(n, states, actions, i);
    if i == 0 {
      assert ThreadsAt(START.threads, IsAhead) == {};
    } else {
      RunStaysBounded(n, T, states, actions, i - 1);
      BoundedStep(n, T, states, actions, i - 1);
    }
  }

  lemma BoundedStep(n: nat, T: set<nat>, states: seq<State>, actions: seq<Action>, i: nat)
    requires IsRun(n, states, actions) && BeginsIn(actions, T) && i < |actions|
    requires Bounded(n, T, states[i]) && Locks(states[i + 1]) && LogOrder(states[i + 1])
    ensures Bounded(n, T, states[i + 1])
  {
    var s, a, s' := states[i], actions[i], states[i + 1];
    assert Step(n, s, a, s');
    StepKeepsBusyIn(n, s, a, s', T);
    StepKeepsBufferCovered(n, s, a, s');
    StepKeepsReserved(n, T, s, a, s');
  }

  // Without a threshold every call flushes, so that a thread cannot come back before its entry is in the file.

  /** The thread has written its entry and not flushed the file since. */
  predicate IsUnflushed(p: Phase) {
    p.Written? || IsWaiting(p)
  }

  ghost predicate OneEach(T: set<nat>, s: State) {
    && |s.broker.wal| <= s.broker.synced + |ThreadsAt(s.threads, IsUnflushed)|
    && Unsynced(s.broker) <= Excess(0, |T|)
  }

  /** Whoever publishes has flushed the file, so that the entries not in the file belong to the others. */
  lemma PublishOneEach(T: set<nat>, s: State, s': State, t: nat)
    requires Locks(s) && LogOrder(s) && BusyIn(s, T) && OneEach(T, s) && Step(0, s, PublishOne(t), s')
    ensures OneEach(T, s')
  {
    ThreadsAtMove(s, s', t, IsUnflushed);
    assert t in s.threads && t in T;
    KindIn(s, T, IsUnflushed);
    FewerThan(ThreadsAt(s.threads, IsUnflushed), T, t);
  }

  lemma WriteOneEach(T: set<nat>, s: State, s': State, t: nat)
    requires LogOrder(s) && OneEach(T, s) && Step(0, s, Write(t), s')
    ensures OneEach(T, s')
  {
    ThreadsAtMove(s, s', t, IsUnflushed);
  }

  lemma CrashOneEach(T: set<nat>, s: State)
    requires LogOrder(s) && s.broker.synced <= |s.writtenAt|
    ensures OneEach(T, AfterCrash(s))
  {
    LogRoundTrip(s.broker.wal[..s.broker.synced]);
  }

  /** The other moves of a thread change neither the log nor whether its entry is flushed. */
  lemma OtherMovesOneEach(T: set<nat>, s: State, a: Action, s': State)
    requires OneEach(T, s) && Step(0, s, a, s')
    requires !a.Create? && !a.Spill? && !a.Crash? && !a.PublishOne? && !a.Write? && !a.FlushFile?
    ensures OneEach(T, s')
  {
    var t := a.thread;
    assert s'.broker.wal == s.broker.wal && s'.broker.published == s.broker.published;
    assert s'.broker.synced == s.broker.synced;
    assert IsUnflushed(s'.threads[t]) == IsUnflushed(PhaseOf(s, t));
    ThreadsAtMove(s, s', t, IsUnflushed);
  }

  lemma StepKeepsOneEach(T: set<nat>, s: State, a: Action, s': State)
    requires Locks(s) && LogOrder(s) && BusyIn(s, T) && OneEach(T, s) && Step(0, s, a, s')
    ensures OneEach(T, s')
  {
    match a {
      case Create(_, _) =>
      case Spill(_) =>
      case Crash => CrashOneEach(T, s);
      case PublishOne(t) => PublishOneEach(T, s, s', t);
      case Write(t) => WriteOneEach(T, s, s', t);
      case FlushFile(_) =>
      case _ => OtherMovesOneEach(T, s, a, s');
    }
  }

  lemma OneEachStep(T: set<nat>, states: seq<State>, actions: seq<Action>, i: nat)
    requires IsRun(0, states, actions) && i < |actions| && Bounded(0, T, states[i]) && OneEach(T, states[i])
    ensures OneEach(T, states[i + 1])
  {
    assert Step(0, states[i], actions[i], states[i + 1]);
    StepKeepsOneEach(T, states[i], actions[i], states[i + 1]);
  }

  lemma {:induction false} RunKeepsOneEach(T: set<nat>, states: seq<State>, actions: seq<Action>, i: nat)
    requires IsRun(0, states, actions) && BeginsIn(actions, T) && i < |states|
    ensures OneEach(T, states[i])
  {
    if i > 0 {
      RunKeepsOneEach(T, states, actions, i - 1);
      RunStaysBounded(0, T, states, actions, i - 1);
      OneEachStep(T, states, actions, i - 1);
    }
  }

  // The writer has room for so many entries only.

  lemma StepKeepsRoom(n: nat, s: State, a: Action, s': State)
    requires Step(n, s, a, s') && WriterHolds(s.broker)
    ensures WriterHolds(s'.broker)
  {
    match a {
      case Write(t) => WriterKeepsRoom(s.broker, PhaseOf(s, t).entry);
      case FlushFile(_) => NothingPending(s'.broker);
      case Spill(k) => SpillKeepsRoom(s.broker, k);
      case Crash => NothingPending(s'.broker);
      case _ => assert s'.broker.wal == s.broker.wal && s'.broker.synced == s.broker.synced;
    }
  }

  lemma {:induction false} RunKeepsRoom(n: nat, states: seq<State>, actions: seq<Action>, i: nat)
    requires IsRun(n, states, actions) && i < |states|
    ensures WriterHolds(states[i].broker)
  {
    if i == 0 {
      NothingPending(FRESH);
    } else {
      RunKeepsRoom(n, states, actions, i - 1);
      assert Step(n, states[i - 1], actions[i - 1], states[i]);
      StepKeepsRoom(n, states[i - 1], actions[i - 1], states[i]);
    }
  }

  /**
   Under every interleaving of calls by the threads of `T`, at most `Excess(n, |T|)` entries are published and
   not in the file, and no more than the writer has room for: the most a reader can have seen that a crash takes back.
   */
  lemma UnsyncedBound(n: nat, T: set<nat>, states: seq<State>, actions: seq<Action>, i: nat)
    requires IsRun(n, states, actions) && BeginsIn(actions, T) && i < |states|
    ensures |states[i].broker.published| <= states[i].broker.synced + Capped(Excess(n, |T|))
  {
    RunKeepsInv(n, states, actions, i);
    RunKeepsRoom(n, states, actions, i);
    PendingBounded(states[i].broker);
    if n == 0 {
      RunKeepsOneEach(T, states, actions, i);
    } else {
      RunStaysBounded(n, T, states, actions, i);
    }
  }
}
