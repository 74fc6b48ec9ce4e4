/**
 What becomes of committed offsets when the process dies while threads add: the exact condition under
 which the log always holds the rows before them.
 */
module OffsetsUnderThreads {
  import opened Bytes
  import opened Records
  import opened Sequences
  import opened WalFormat
  import opened LogStorage
  import opened TopicRules
  import opened BrokerState
  import opened Consumers
  import opened LockSteps
  import opened WriteAheadLimits
  import opened WriteAheadRuns

  /**
   A call that fetches from `k`, understands the records and commits where it has got to, while `b` is the broker: a
   crash of the broker `b'` leaves a log that holds all rows before that offset.
   */
  ghost predicate CommitSurvives(b: Broker, b': Broker, topic: Text, call: Call, k: nat) {
    b'.synced <= |b'.wal|
    && (k <= |TopicRows(b.published, topic)| && Understands(call, DropRows(RecordsOf(b.published, topic), k)) ==>
          k + |Handed(call, Response(b.published, topic, k))|
          <= |TopicRows(Restart(Durable(b')).published, topic)|)
  }

  ghost predicate CommitsSurvive(b: Broker, b': Broker) {
    forall topic, call, k: nat :: CommitSurvives(b, b', topic, call, k)
  }

  /** In every run of calls by threads of `T`: whenever the offset was committed, and whenever the process then dies. */
  ghost predicate OffsetsSurvive(n: nat, T: set<nat>) {
    forall states: seq<State>, actions: seq<Action>
      | IsRun(n, states, actions) && BeginsIn(actions, T) && NoSpill(actions) ::
      forall j, i | 0 <= j <= i < |states| :: CommitsSurvive(states[j].broker, states[i].broker)
  }

  // ---------- One thread ----------

  lemma TopicHasOneSchema(s: State, topic: Text)
    requires LogOrder(s) && TopicOrder(s)
    ensures OneSchemaAmong(RecordsOf(s.broker.published, topic))
  {
    var published, metadata := s.broker.published, s.broker.metadata;
    PublishedFirst(s);
    PrefixKeepsOrder(s.broker.wal, metadata, |published|);
    assert s.broker.wal[..|published|] == published;
    var rs := RecordsOf(published, topic);
    forall i, j | 0 <= i < |rs| && 0 <= j < |rs| && rs[i].Batched? && rs[j].Batched?
      ensures rs[i].batch.schema == rs[j].batch.schema
    {
      BatchAfterBatch(published, metadata, topic, i, i);
      BatchAfterBatch(published, metadata, topic, j, j);
    }
  }

  /** What a crash leaves: the entries in the file, which begin with those published if these are in the file. */
  lemma CrashLeaves(s: State)
    requires LogOrder(s)
    ensures Restart(Durable(s.broker)).published == s.broker.wal[..s.broker.synced]
    ensures |s.broker.published| <= s.broker.synced ==> s.broker.published <= Restart(Durable(s.broker)).published
  {
    LogRoundTrip(s.broker.wal[..s.broker.synced]);
    PublishedFirst(s);
  }

  /** While published records are in the file, nothing published is ever taken back. */
  lemma PublishedGrowsByStep(n: nat, s: State, a: Action, s': State)
    requires LogOrder(s) && Step(n, s, a, s') && |s.broker.published| <= s.broker.synced
    ensures s.broker.published <= s'.broker.published
  {
    if a.Crash? {
      CrashPublishes(s);
    } else {
      PublishedMoves(n, s, a, s');
    }
  }

  lemma CrashPublishes(s: State)
    requires LogOrder(s) && |s.broker.published| <= s.broker.synced <= |s.writtenAt|
    ensures s.broker.published <= AfterCrash(s).broker.published
  {
    CrashLeaves(s);
  }

  lemma PublishedMoves(n: nat, s: State, a: Action, s': State)
    requires Step(n, s, a, s') && !a.Crash?
    ensures s.broker.published <= s'.broker.published
  {
  }

  lemma PublishedGrows(n: nat, T: set<nat>, states: seq<State>, actions: seq<Action>, j: nat, i: nat)
    requires IsRun(n, states, actions) && BeginsIn(actions, T) && |T| <= 1 && j <= i < |states|
    ensures states[j].broker.published <= states[i].broker.published
  {
    var logs := seq(|states|, k requires 0 <= k < |states| => states[k].broker.published);
    forall k | 0 <= k < |logs| - 1 ensures logs[k] <= logs[k + 1] {
      RunKeepsInv(n, states, actions, k);
      UnsyncedBound(n, T, states, actions, k);
      assert Step(n, states[k], actions[k], states[k + 1]);
      PublishedGrowsByStep(n, states[k], actions[k], states[k + 1]);
    }
    ChainGrows(logs, j, i);
  }

  lemma CommitHolds(s: State, s': State, topic: Text, call: Call, k: nat)
    requires LogOrder(s) && TopicOrder(s) && LogOrder(s') && s.broker.published <= s'.broker.published
    requires |s'.broker.published| <= s'.broker.synced
    ensures CommitSurvives(s.broker, s'.broker, topic, call, k)
  {
    var rs := RecordsOf(s.broker.published, topic);
    if k <= |Flatten(rs)| && Understands(call, DropRows(rs, k)) {
      TopicHasOneSchema(s, topic);
      HandedExact(call, rs, k);
      CrashLeaves(s');
      TopicRowsPrefix(s.broker.published, Restart(Durable(s'.broker)).published, topic);
    }
  }

  // ---------- Two threads ----------

  /** Nothing but empty records is anywhere. */
  ghost predicate OnlyEmpty(s: State) {
    && s.broker.metadata == map[]
    && (forall i | 0 <= i < |s.broker.wal| :: s.broker.wal[i] == EMPTY_RECORD)
    && (forall t :: EmptyIn(PhaseOf(s, t)))
  }

  predicate EmptyIn(p: Phase) {
    HasEntry(p) ==> p.entry == EMPTY_RECORD
  }

  lemma {:induction false} RawsNoteNothing(es: seq<Entry>)
    requires forall i | 0 <= i < |es| :: es[i].record.Raw?
    ensures ReplayMetadata(map[], es) == map[]
  {
    if es != [] {
      RawsNoteNothing(es[..|es| - 1]);
    }
  }

  lemma StepKeepsOnlyEmpty(n: nat, s: State, a: Action, s': State)
    requires LogOrder(s) && OnlyEmpty(s) && Step(n, s, a, s') && Plain(a)
    ensures OnlyEmpty(s')
  {
    forall t ensures EmptyIn(PhaseOf(s', t)) {
      if !(a.Begin? && a.thread == t) {
        assert EmptyIn(PhaseOf(s, t));
        EntryKept(n, s, a, s', t);
      }
    }
    if a.Crash? {
      CrashKeepsOnlyEmpty(s);
    } else if a.Write? {
      assert EmptyIn(PhaseOf(s, a.thread));
      assert s'.broker.wal == s.broker.wal + [EMPTY_RECORD];
    } else {
      LogStays(n, s, a, s');
    }
  }

  lemma CrashKeepsOnlyEmpty(s: State)
    requires LogOrder(s) && OnlyEmpty(s) && s.broker.synced <= |s.writtenAt|
    ensures OnlyEmpty(AfterCrash(s))
  {
    LogRoundTrip(s.broker.wal[..s.broker.synced]);
    RawsNoteNothing(s.broker.wal[..s.broker.synced]);
  }

  lemma LogStays(n: nat, s: State, a: Action, s': State)
    requires Step(n, s, a, s') && Plain(a) && !a.Crash? && !a.Write?
    ensures s'.broker.wal == s.broker.wal && s'.broker.metadata == s.broker.metadata
  {
  }

  lemma {:induction false} RunKeepsOnlyEmpty(n: nat, states: seq<State>, actions: seq<Action>, i: nat)
    requires IsRun(n, states, actions) && (forall k | 0 <= k < |actions| :: Plain(actions[k])) && i < |states|
    ensures OnlyEmpty(states[i])
  {
    if i > 0 {
      RunKeepsOnlyEmpty(n, states, actions, i - 1);
      RunKeepsInv(n, states, actions, i - 1);
      assert Step(n, states[i - 1], actions[i - 1], states[i]);
      StepKeepsOnlyEmpty(n, states[i - 1], actions[i - 1], states[i]);
    }
  }

  lemma {:induction false} EmptyRecordsOf(es: seq<Entry>)
    requires forall i | 0 <= i < |es| :: es[i] == EMPTY_RECORD
    ensures RecordsOf(es, []) == seq(|es|, _ => Raw([]))
    ensures |TopicRows(es, [])| == |es|
  {
    if es != [] {
      EmptyRecordsOf(es[1..]);
      FlattenCons(Raw([]), RecordsOf(es[1..], []));
    }
  }

  /** A group that consumes two empty records or more is handed all of them. */
  lemma EmptyRecordsHanded(es: seq<Entry>)
    requires |es| > 1 && forall i | 0 <= i < |es| :: es[i] == EMPTY_RECORD
    ensures Understands(ConsumeText, DropRows(RecordsOf(es, []), 0))
    ensures |Handed(ConsumeText, Response(es, [], 0))| == |es|
  {
    var rs := RecordsOf(es, []);
    EmptyRecordsOf(es);
    DropRowsOfRaw(rs, 0);
    HandedExact(ConsumeText, rs, 0);
  }

  /** The rows a group has been handed and committed, and a crash takes back. */
  lemma CommitLost(n: nat, T: set<nat>) returns (states: seq<State>, actions: seq<Action>, s: State)
    requires |T| > 1
    ensures EndsAt(n, T, states, actions, s)
    ensures !CommitSurvives(s.broker, s.broker, [], ConsumeText, 0)
  {
    states, actions, s := StrictWriteAheadFails(n, T);
    RunKeepsInv(n, states, actions, |actions|);
    RunKeepsOnlyEmpty(n, states, actions, |actions|);
    CrashLeaves(s);
    PublishedFirst(s);
    EmptyRecordsHanded(s.broker.published);
    EmptyRecordsOf(s.broker.wal[..s.broker.synced]);
  }

  // ---------- The exact condition ----------

  /**
   Every offset committed by a call that understands is within the log that any later crash leaves, under every
   interleaving of calls by the threads of `T`, exactly while at most one thread adds.
   */
  lemma OffsetsSurviveIffOneThread(n: nat, T: set<nat>)
    ensures OffsetsSurvive(n, T) <==> |T| <= 1
  {
    if |T| <= 1 {
      forall states: seq<State>, actions: seq<Action>, j, i
        | IsRun(n, states, actions) && BeginsIn(actions, T) && NoSpill(actions) && 0 <= j <= i < |states|
        ensures CommitsSurvive(states[j].broker, states[i].broker)
      {
        OneThreadKeepsCommits(n, T, states, actions, j, i);
      }
    } else {
      var states, actions, s := CommitLost(n, T);
      assert NoSpill(actions) && states[|actions|] == s;
      assert !CommitsSurvive(states[|actions|].broker, states[|actions|].broker);
    }
  }

  lemma OneThreadKeepsCommits(n: nat, T: set<nat>, states: seq<State>, actions: seq<Action>, j: nat, i: nat)
    requires IsRun(n, states, actions) && BeginsIn(actions, T) && |T| <= 1 && j <= i < |states|
    ensures CommitsSurvive(states[j].broker, states[i].broker)
  {
    RunKeepsInv(n, states, actions, j);
    RunKeepsInv(n, states, actions, i);
    UnsyncedBound(n, T, states, actions, i);
    PublishedGrows(n, T, states, actions, j, i);
    forall topic, call, k: nat ensures CommitSurvives(states[j].broker, states[i].broker, topic, call, k) {
      CommitHolds(states[j], states[i], topic, call, k);
    }
  }
}
