/**
 Runs in which published records are not in the file, as many as `WriteAheadLimits` allows, with the
 writer of the standard library; and so the exact condition under which there are none.
 */
module WriteAheadRuns {
  import opened Wrappers
  import opened Bytes
  import opened Records
  import opened Sequences
  import opened WalFormat
  import opened BrokerState
  import opened LockSteps
  import opened WriteAheadLimits

  /** The writer empties itself only for want of room, as part of a write. */
  ghost predicate NoSpill(actions: seq<Action>) {
    forall i | 0 <= i < |actions| :: !actions[i].Spill?
  }

  /** An entry of the runs below: an empty record for the topic named by the empty string. */
  const EMPTY_RECORD := Entry([], Raw([]))

  /** The step adds nothing but such records, and lets the writer alone. */
  predicate Plain(a: Action) {
    !a.Spill? && !a.Create? && (a.Begin? ==> a.topic == [] && a.record == [])
  }

  /** A run of calls by threads of `T`, with its last state. */
  ghost predicate EndsAt(n: nat, T: set<nat>, states: seq<State>, actions: seq<Action>, s: State) {
    && IsRun(n, states, actions) && BeginsIn(actions, T) && states[|actions|] == s
    && forall i | 0 <= i < |actions| :: Plain(actions[i])
  }

  lemma Extend(n: nat, T: set<nat>, states: seq<State>, actions: seq<Action>, s: State, a: Action)
    returns (states': seq<State>, actions': seq<Action>)
    requires EndsAt(n, T, states, actions, s) && Allowed(s, a) && (a.Begin? ==> a.thread in T) && Plain(a)
    ensures EndsAt(n, T, states', actions', Next(n, s, a))
  {
    states', actions' := states + [Next(n, s, a)], actions + [a];
    StepsSnoc(states, actions, (s, a, s') => Step(n, s, a, s'), a, Next(n, s, a));
  }

  /** Nobody holds a lock, and the topic of the empty records has no metadata. */
  predicate NothingLocked(s: State) {
    s.fileLock == None && s.bufferLock == None && [] !in s.broker.metadata && s.broker.synced <= |s.broker.wal|
  }

  /** `m` empty records are written; as long as they fit the writer keeps them. */
  ghost predicate Takes(b: Broker, b': Broker, m: nat) {
    && b.synced <= |b.wal| && b'.synced <= |b'.wal|
    && |b'.wal| == |b.wal| + m
    && b'.published == b.published
    && (|Pending(b)| + m * SMALLEST_ENTRY <= WRITER_CAPACITY ==>
          b'.synced == b.synced && |Pending(b')| == |Pending(b)| + m * SMALLEST_ENTRY)
  }

  lemma TakesOne(b: Broker)
    requires b.synced <= |b.wal|
    ensures Takes(b, Append(b, EMPTY_RECORD), 1)
  {
    WrittenBytes(b, EMPTY_RECORD);
    assert |SerializeEntry(EMPTY_RECORD)| == SMALLEST_ENTRY;
    assert Pending(Append(b, EMPTY_RECORD)) == Pending(WriteSpec(b, EMPTY_RECORD));
  }

  lemma TakesMore(b: Broker, b1: Broker, b2: Broker, m: nat, m': nat)
    requires Takes(b, b1, m) && Takes(b1, b2, m')
    ensures Takes(b, b2, m + m')
  {
  }

  /** The other threads are where they were. */
  ghost predicate OnlyMoved(s: State, s': State, t: nat) {
    forall t': nat | t' != t :: PhaseOf(s', t') == PhaseOf(s, t')
  }

  /** A thread that finds nobody in its way takes an empty record through its push and lets go of the file. */
  lemma RunToPush(n: nat, T: set<nat>, states: seq<State>, actions: seq<Action>, s: State, t: nat)
    returns (states': seq<State>, actions': seq<Action>, s': State)
    requires EndsAt(n, T, states, actions, s) && t in T && PhaseOf(s, t).Idle? && NothingLocked(s)
    ensures EndsAt(n, T, states', actions', s')
    ensures Takes(s.broker, s'.broker, 1) && |s'.broker.buffer| == |s.broker.buffer| + 1
    ensures PhaseOf(s', t).Unlocked? && OnlyMoved(s, s', t) && NothingLocked(s')
  {
    assert ValidUtf8([]);
    TakesOne(s.broker);
    var s1 := Next(n, s, Begin(t, [], []));
    states', actions' := Extend(n, T, states, actions, s, Begin(t, [], []));
    var s2 := Next(n, s1, LockFile(t));
    states', actions' := Extend(n, T, states', actions', s1, LockFile(t));
    var s3 := Next(n, s2, Write(t));
    states', actions' := Extend(n, T, states', actions', s2, Write(t));
    var s4 := Next(n, s3, Push(t));
    states', actions' := Extend(n, T, states', actions', s3, Push(t));
    s' := Next(n, s4, UnlockFile(t));
    states', actions' := Extend(n, T, states', actions', s4, UnlockFile(t));
  }

  /** With the buffer at the threshold it goes on to the moment between file flush and buffer drain. */
  lemma RunToWindow(n: nat, T: set<nat>, states: seq<State>, actions: seq<Action>, s: State, t: nat)
    returns (states': seq<State>, actions': seq<Action>, s': State)
    requires EndsAt(n, T, states, actions, s) && PhaseOf(s, t).Unlocked? && NothingLocked(s)
    requires |s.broker.buffer| >= n
    ensures EndsAt(n, T, states', actions', s')
    ensures s'.broker == s.broker.(synced := |s.broker.wal|)
    ensures PhaseOf(s', t).Window? && OnlyMoved(s, s', t) && NothingLocked(s')
  {
    var s1 := Next(n, s, Check(t));
    states', actions' := Extend(n, T, states, actions, s, Check(t));
    var s2 := Next(n, s1, LockFileToFlush(t));
    states', actions' := Extend(n, T, states', actions', s1, LockFileToFlush(t));
    var s3 := Next(n, s2, FlushFile(t));
    states', actions' := Extend(n, T, states', actions', s2, FlushFile(t));
    s' := Next(n, s3, UnlockFlushedFile(t));
    states', actions' := Extend(n, T, states', actions', s3, UnlockFlushedFile(t));
  }

  /** From there it publishes the whole buffer and ends its call. */
  lemma RunToEnd(n: nat, T: set<nat>, states: seq<State>, actions: seq<Action>, s: State, t: nat)
    returns (states': seq<State>, actions': seq<Action>, s': State)
    requires EndsAt(n, T, states, actions, s) && PhaseOf(s, t).Window? && NothingLocked(s)
    ensures EndsAt(n, T, states', actions', s')
    ensures s'.broker == s.broker.(published := s.broker.published + s.broker.buffer, buffer := [])
    ensures PhaseOf(s', t).Idle? && OnlyMoved(s, s', t) && NothingLocked(s')
  {
    var s1 := Next(n, s, LockBuffer(t));
    states', actions' := Extend(n, T, states, actions, s, LockBuffer(t));
    var s2;
    states', actions', s2 := Drain(n, T, states', actions', s1, t);
    s' := Next(n, s2, FinishDrain(t));
    states', actions' := Extend(n, T, states', actions', s2, FinishDrain(t));
    assert OnlyMoved(s, s1, t) && OnlyMoved(s1, s2, t) && OnlyMoved(s2, s', t);
    MovesAgain(s, s1, s2, t);
    MovesAgain(s, s2, s', t);
  }

  lemma MovesAgain(s: State, s': State, s'': State, t: nat)
    requires OnlyMoved(s, s', t) && OnlyMoved(s', s'', t)
    ensures OnlyMoved(s, s'', t)
  {
    forall t': nat | t' != t ensures PhaseOf(s'', t') == PhaseOf(s, t') {
      assert PhaseOf(s', t') == PhaseOf(s, t');
    }
  }

  lemma {:induction false} Drain(n: nat, T: set<nat>, states: seq<State>, actions: seq<Action>, s: State, t: nat)
    returns (states': seq<State>, actions': seq<Action>, s': State)
    requires EndsAt(n, T, states, actions, s) && PhaseOf(s, t).Draining?
    ensures EndsAt(n, T, states', actions', s')
    ensures s'.broker == s.broker.(published := s.broker.published + s.broker.buffer, buffer := [])
    ensures PhaseOf(s', t) == PhaseOf(s, t) && OnlyMoved(s, s', t)
    ensures s'.fileLock == s.fileLock && s'.bufferLock == s.bufferLock
    decreases |s.broker.buffer|
  {
    var b := s.broker;
    if b.buffer == [] {
      assert b.published + b.buffer == b.published;
      states', actions', s' := states, actions, s;
    } else {
      var s1 := Next(n, s, PublishOne(t));
      states', actions' := Extend(n, T, states, actions, s, PublishOne(t));
      states', actions', s' := Drain(n, T, states', actions', s1, t);
      ConcatAssociates(b.published, [b.buffer[0]], b.buffer[1..]);
      assert [b.buffer[0]] + b.buffer[1..] == b.buffer;
    }
  }

  /** `m` calls one after the other, none of which fills the buffer. */
  lemma {:induction false} RunShort(
    n: nat, T: set<nat>, states: seq<State>, actions: seq<Action>, s: State, t: nat, m: nat)
    returns (states': seq<State>, actions': seq<Action>, s': State)
    requires EndsAt(n, T, states, actions, s) && t in T && PhaseOf(s, t).Idle? && NothingLocked(s)
    requires s.broker.buffer == [] && m <= Slack(n)
    ensures EndsAt(n, T, states', actions', s')
    ensures Takes(s.broker, s'.broker, m) && |s'.broker.buffer| == m
    ensures PhaseOf(s', t).Idle? && OnlyMoved(s, s', t) && NothingLocked(s')
  {
    if m == 0 {
      states', actions', s' := states, actions, s;
    } else {
      var s1, s2;
      states', actions', s1 := RunShort(n, T, states, actions, s, t, m - 1);
      states', actions', s2 := RunToPush(n, T, states', actions', s1, t);
      TakesMore(s.broker, s1.broker, s2.broker, m - 1, 1);
      s' := Next(n, s2, Check(t));
      states', actions' := Extend(n, T, states', actions', s2, Check(t));
    }
  }

  // The same for sets of threads, one after the other.

  ghost predicate AllIdle(s: State, U: set<nat>) {
    forall t | t in U :: PhaseOf(s, t).Idle?
  }

  ghost predicate AllUnlocked(s: State, U: set<nat>) {
    forall t | t in U :: PhaseOf(s, t).Unlocked?
  }

  ghost predicate AllInWindow(s: State, U: set<nat>) {
    forall t | t in U :: PhaseOf(s, t).Window?
  }

  ghost predicate OthersStay(s: State, s': State, U: set<nat>) {
    forall t: nat | t !in U :: PhaseOf(s', t) == PhaseOf(s, t)
  }

  lemma OneMore(s: State, s': State, s'': State, U: set<nat>, t: nat)
    requires t in U && OthersStay(s, s', U - {t}) && OnlyMoved(s', s'', t)
    ensures OthersStay(s, s'', U)
    ensures forall u | u in U - {t} :: PhaseOf(s'', u) == PhaseOf(s', u)
  {
    forall u: nat | u !in U ensures PhaseOf(s'', u) == PhaseOf(s, u) {
      assert PhaseOf(s', u) == PhaseOf(s, u);
    }
  }

  lemma {:induction false} AllPush(
    n: nat, T: set<nat>, states: seq<State>, actions: seq<Action>, s: State, U: set<nat>)
    returns (states': seq<State>, actions': seq<Action>, s': State)
    requires EndsAt(n, T, states, actions, s) && U <= T && AllIdle(s, U) && NothingLocked(s)
    ensures EndsAt(n, T, states', actions', s')
    ensures Takes(s.broker, s'.broker, |U|) && |s'.broker.buffer| == |s.broker.buffer| + |U|
    ensures AllUnlocked(s', U) && OthersStay(s, s', U) && NothingLocked(s')
  {
    if U == {} {
      states', actions', s' := states, actions, s;
    } else {
      var t :| t in U;
      var s1;
      states', actions', s1 := AllPush(n, T, states, actions, s, U - {t});
      states', actions', s' := RunToPush(n, T, states', actions', s1, t);
      TakesMore(s.broker, s1.broker, s'.broker, |U - {t}|, 1);
      OneMore(s, s1, s', U, t);
    }
  }

  lemma {:induction false} AllToWindow(
    n: nat, T: set<nat>, states: seq<State>, actions: seq<Action>, s: State, U: set<nat>)
    returns (states': seq<State>, actions': seq<Action>, s': State)
    requires EndsAt(n, T, states, actions, s) && U <= T && AllIdle(s, U) && NothingLocked(s)
    requires |s.broker.buffer| >= Slack(n)
    ensures EndsAt(n, T, states', actions', s')
    ensures |s'.broker.buffer| == |s.broker.buffer| + |U| && s'.broker.published == s.broker.published
    ensures U != {} ==> s'.broker.synced == |s'.broker.wal|
    ensures AllInWindow(s', U) && OthersStay(s, s', U) && NothingLocked(s')
  {
    if U == {} {
      states', actions', s' := states, actions, s;
    } else {
      var t :| t in U;
      var s1, s2;
      states', actions', s1 := AllToWindow(n, T, states, actions, s, U - {t});
      states', actions', s2 := RunToPush(n, T, states', actions', s1, t);
      states', actions', s' := RunToWindow(n, T, states', actions', s2, t);
      MovesAgain(s1, s2, s', t);
      OneMore(s, s1, s', U, t);
    }
  }

  /** After a drain the threads that pushed find the buffer below the threshold, and return. */
  lemma {:induction false} AllReturn(
    n: nat, T: set<nat>, states: seq<State>, actions: seq<Action>, s: State, U: set<nat>)
    returns (states': seq<State>, actions': seq<Action>, s': State)
    requires EndsAt(n, T, states, actions, s) && AllUnlocked(s, U) && NothingLocked(s)
    requires n > 0 && s.broker.buffer == []
    ensures EndsAt(n, T, states', actions', s') && s'.broker == s.broker
    ensures AllIdle(s', U) && OthersStay(s, s', U) && NothingLocked(s')
  {
    if U == {} {
      states', actions', s' := states, actions, s;
    } else {
      var t :| t in U;
      var s1;
      states', actions', s1 := AllReturn(n, T, states, actions, s, U - {t});
      s' := Next(n, s1, Check(t));
      states', actions' := Extend(n, T, states', actions', s1, Check(t));
      OneMore(s, s1, s', U, t);
    }
  }

  lemma {:induction false} SomeOf(F: set<nat>, m: nat) returns (U: set<nat>)
    requires m <= |F|
    ensures U <= F && |U| == m
  {
    if m == |F| {
      U := F;
    } else {
      var t :| t in F;
      U := SomeOf(F - {t}, m);
    }
  }

  /** Of the idle threads one fills the buffer and others push one entry more, `m` in all, and `a` publishes them. */
  lemma Refill(
    n: nat, T: set<nat>, states: seq<State>, actions: seq<Action>, s: State, F: set<nat>, a: nat, m: nat)
    returns (states': seq<State>, actions': seq<Action>, s': State)
    requires EndsAt(n, T, states, actions, s) && NothingLocked(s) && n > 0 && s.broker.buffer == []
    requires F <= T && F != {} && AllIdle(s, F) && a !in F && PhaseOf(s, a).Window?
    requires m <= Slack(n) + |F| && |Pending(s.broker)| + m * SMALLEST_ENTRY <= WRITER_CAPACITY
    ensures EndsAt(n, T, states', actions', s')
    ensures |s'.broker.published| == |s.broker.published| + m
    ensures s'.broker.synced == s.broker.synced && s'.broker.buffer == [] && NothingLocked(s')
    ensures |Pending(s'.broker)| == |Pending(s.broker)| + m * SMALLEST_ENTRY
    ensures AllIdle(s', F + {a}) && OthersStay(s, s', F + {a})
  {
    var u :| u in F;
    var short := if m <= Slack(n) then m else Slack(n);
    var U := SomeOf(F, m - short);
    var s1, s2, s3;
    states', actions', s1 := RunShort(n, T, states, actions, s, u, short);
    states', actions', s2 := AllPush(n, T, states', actions', s1, U);
    TakesMore(s.broker, s1.broker, s2.broker, short, |U|);
    states', actions', s3 := RunToEnd(n, T, states', actions', s2, a);
    states', actions', s' := AllReturn(n, T, states', actions', s3, U);
    assert Pending(s'.broker) == Pending(s2.broker);
    FourMoves(s, s1, s2, s3, s', U, F, a, u);
  }

  lemma FourMoves(
    s: State, s1: State, s2: State, s3: State, s': State, U: set<nat>, F: set<nat>, a: nat, u: nat)
    requires u in F && U <= F && a !in F && AllIdle(s, F) && PhaseOf(s1, u).Idle? && PhaseOf(s3, a).Idle?
    requires OnlyMoved(s, s1, u) && OthersStay(s1, s2, U) && OnlyMoved(s2, s3, a) && OthersStay(s3, s', U)
    requires AllIdle(s', U)
    ensures OthersStay(s, s', F + {a}) && AllIdle(s', F + {a})
  {
    forall t: nat | t !in U + {a, u} ensures PhaseOf(s', t) == PhaseOf(s, t) {
      assert PhaseOf(s1, t) == PhaseOf(s, t) && PhaseOf(s2, t) == PhaseOf(s1, t) && PhaseOf(s3, t) == PhaseOf(s2, t);
    }
    assert u !in U ==> PhaseOf(s', u) == PhaseOf(s1, u);
    assert PhaseOf(s', a) == PhaseOf(s3, a);
  }

  /** The threads of `F` are idle, those of `A` are yet to drain, and the writer has room for `c` empty records. */
  ghost predicate ToDrain(s: State, F: set<nat>, A: set<nat>, c: nat) {
    && NothingLocked(s) && s.broker.buffer == []
    && F != {} && F !! A && AllIdle(s, F) && AllInWindow(s, A)
    && |Pending(s.broker)| + c * SMALLEST_ENTRY <= WRITER_CAPACITY
  }

  lemma OneDrain(
    n: nat, T: set<nat>, states: seq<State>, actions: seq<Action>, s: State,
    F: set<nat>, A: set<nat>, a: nat, m: nat, c: nat)
    returns (states': seq<State>, actions': seq<Action>, s': State)
    requires EndsAt(n, T, states, actions, s) && ToDrain(s, F, A, c) && n > 0
    requires F <= T && a in A && m <= c && m <= Slack(n) + |F|
    ensures EndsAt(n, T, states', actions', s') && ToDrain(s', F + {a}, A - {a}, c - m)
    ensures s'.broker.synced == s.broker.synced
    ensures |s'.broker.published| == |s.broker.published| + m
  {
    states', actions', s' := Refill(n, T, states, actions, s, F, a, m);
    assert forall t | t in A - {a} :: PhaseOf(s', t) == PhaseOf(s, t);
  }

  lemma TwoParts(F: set<nat>, A: set<nat>, T: set<nat>, a: nat)
    requires F !! A && F + A == T && a in A
    ensures |T| == |F| + |A| && |A - {a}| == |A| - 1 && (F + {a}) + (A - {a}) == T
  {
    assert |F + A| == |F| + |A|;
  }

  lemma SomeoneLeft(n: nat, k: nat, A: set<nat>, c: nat)
    requires 0 < c <= Reserve(n, k, |A|)
    ensures A != {}
  {
  }

  lemma ReserveLeft(n: nat, k: nat, m: nat, c: nat)
    requires 0 < m <= k && c <= Reserve(n, k, m)
    ensures c <= Slack(n) + k - m || c - (Slack(n) + k - m) <= Reserve(n, k, m - 1)
  {
  }

  /** Who drains next, and how much of `c` that publishes. */
  lemma NextDrain(n: nat, F: set<nat>, A: set<nat>, T: set<nat>, c: nat) returns (a: nat, m: nat)
    requires F !! A && F + A == T && 0 < c <= Reserve(n, |T|, |A|)
    ensures a in A && m <= c && m <= Slack(n) + |F|
    ensures (F + {a}) + (A - {a}) == T && c - m <= Reserve(n, |T|, |A - {a}|)
  {
    SomeoneLeft(n, |T|, A, c);
    a :| a in A;
    TwoParts(F, A, T, a);
    ReserveLeft(n, |T|, |A|, c);
    m := if c <= Slack(n) + |F| then c else Slack(n) + |F|;
  }

  /** The drains still to come publish as much as is reserved for them, or any `c` less. */
  lemma {:induction false} DrainsInTurn(
    n: nat, T: set<nat>, states: seq<State>, actions: seq<Action>, s: State, F: set<nat>, A: set<nat>, c: nat)
    returns (states': seq<State>, actions': seq<Action>, s': State)
    requires EndsAt(n, T, states, actions, s) && ToDrain(s, F, A, c) && n > 0
    requires F + A == T && c <= Reserve(n, |T|, |A|)
    ensures EndsAt(n, T, states', actions', s')
    ensures s'.broker.synced == s.broker.synced
    ensures |s'.broker.published| == |s.broker.published| + c
    decreases |A|
  {
    if c == 0 {
      states', actions', s' := states, actions, s;
    } else {
      var a, m := NextDrain(n, F, A, T, c);
      states', actions', s' := OneDrain(n, T, states, actions, s, F, A, a, m, c);
      states', actions', s' := DrainsInTurn(n, T, states', actions', s', F + {a}, A - {a}, c - m);
    }
  }

  /** All threads come to stand in the window, and one drains: nothing is owed, and the others are yet to drain. */
  lemma AllStandInWindow(n: nat, T: set<nat>, u: nat)
    returns (states: seq<State>, actions: seq<Action>, s: State)
    requires u in T
    ensures EndsAt(n, T, states, actions, s)
    ensures |s.broker.published| == s.broker.synced == |s.broker.wal|
    ensures ToDrain(s, {u}, T - {u}, MOST_PENDING) && |s.broker.published| >= |T|
  {
    states, actions, s := [START], [], START;
    states, actions, s := RunShort(n, T, states, actions, s, u, Slack(n));
    states, actions, s := AllToWindow(n, T, states, actions, s, T);
    RunKeepsInv(n, states, actions, |actions|);
    states, actions, s := RunToEnd(n, T, states, actions, s, u);
    NothingPending(s.broker);
  }

  /** Every threshold but zero: then the drains follow each other. */
  lemma ExcessReached(n: nat, T: set<nat>)
    returns (states: seq<State>, actions: seq<Action>, s: State)
    requires T != {} && n > 0
    ensures EndsAt(n, T, states, actions, s)
    ensures |s.broker.published| == s.broker.synced + Capped(Excess(n, |T|)) && |s.broker.published| >= |T|
  {
    var u :| u in T;
    states, actions, s := AllStandInWindow(n, T, u);
    states, actions, s := DrainsInTurn(n, T, states, actions, s, {u}, T - {u}, Capped(Excess(n, |T|)));
  }

  /** Threshold zero: one thread comes to stand in the window, others push, and it publishes their entries. */
  lemma ExcessReachedAtZero(T: set<nat>)
    returns (states: seq<State>, actions: seq<Action>, s: State)
    requires T != {}
    ensures EndsAt(0, T, states, actions, s)
    ensures |s.broker.published| == s.broker.synced + Capped(Excess(0, |T|))
    ensures |T| > 1 ==> |s.broker.published| > 1
  {
    var u :| u in T;
    var U := SomeOf(T - {u}, Capped(Excess(0, |T|)));
    var s1, s2;
    states, actions, s := [START], [], START;
    states, actions, s1 := AllToWindow(0, T, states, actions, s, {u});
    NothingPending(s1.broker);
    RunKeepsInv(0, states, actions, |actions|);
    states, actions, s2 := AllPush(0, T, states, actions, s1, U);
    states, actions, s := RunToEnd(0, T, states, actions, s2, u);
    RunKeepsInv(0, states, actions, |actions|);
  }

  /**
   Strict write-ahead fails as soon as two threads add: for every threshold and any threads some run attains
   the bound, and a crash takes exactly those records back.
   */
  lemma StrictWriteAheadFails(n: nat, T: set<nat>)
    returns (states: seq<State>, actions: seq<Action>, s: State)
    requires T != {}
    ensures EndsAt(n, T, states, actions, s)
    ensures s.broker.synced <= |s.broker.wal|
    ensures |s.broker.published| == s.broker.synced + Capped(Excess(n, |T|))
    ensures |s.broker.published| == |Restart(Durable(s.broker)).published| + Capped(Excess(n, |T|))
    ensures |T| > 1 ==> Capped(Excess(n, |T|)) > 0 && |s.broker.published| > 1
  {
    if n == 0 {
      states, actions, s := ExcessReachedAtZero(T);
    } else {
      states, actions, s := ExcessReached(n, T);
    }
    RunKeepsInv(n, states, actions, |actions|);
    OrderedLogParses(s);
  }

  // ---------- The exact condition ----------

  /** In every run of calls by threads of `T`, published records are in the file at every moment. */
  ghost predicate AlwaysWriteAhead(n: nat, T: set<nat>) {
    forall states: seq<State>, actions: seq<Action>
      | IsRun(n, states, actions) && BeginsIn(actions, T) && NoSpill(actions) ::
      forall i | 0 <= i < |states| :: |states[i].broker.published| <= states[i].broker.synced
  }

  /** Strict write-ahead is a guarantee exactly while at most one thread adds, whatever the threshold. */
  lemma WriteAheadIffOneThread(n: nat, T: set<nat>)
    ensures AlwaysWriteAhead(n, T) <==> |T| <= 1
  {
    if |T| <= 1 {
      forall states: seq<State>, actions: seq<Action>, i
        | IsRun(n, states, actions) && BeginsIn(actions, T) && NoSpill(actions) && 0 <= i < |states|
        ensures |states[i].broker.published| <= states[i].broker.synced
      {
        UnsyncedBound(n, T, states, actions, i);
      }
    } else {
      var states, actions, s := StrictWriteAheadFails(n, T);
      assert NoSpill(actions) && states[|actions|] == s;
    }
  }
}
