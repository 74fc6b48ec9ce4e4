/**
 Committed offsets: a map from (consumer group, topic) to an offset, written to a file under
 keys of the form `group:topic`.
 */
module OffsetStore {
  import opened Wrappers
  import opened Bytes

  /** A consumer group and a topic. */
  type Key = (Text, Text)

  function JoinKey(key: Key): Text {
    key.0 + [COLON] + key.1
  }

  /** `split_once(':')`. */
  function SplitKey(joined: Text): Option<Key> {
    var i := IndexOf(joined, COLON);
    if i < |joined| then Some((joined[..i], joined[i + 1..])) else None
  }

  /** Splitting undoes joining exactly for groups without a colon; topics are free to contain one. */
  lemma SplitJoinKey(key: Key)
    ensures SplitKey(JoinKey(key)) == Some(key) <==> COLON !in key.0
  {
    var joined := JoinKey(key);
    var i := IndexOf(key.0, COLON);
    IndexOfUnique(joined, COLON, i);
    if i == |key.0| {
      assert joined[..i] == key.0 && joined[i + 1..] == key.1;
    } else {
      assert |joined[..i]| < |key.0|;
    }
  }

  lemma JoinSplitKey(joined: Text)
    requires SplitKey(joined).Some?
    ensures JoinKey(SplitKey(joined).value) == joined
    ensures COLON !in SplitKey(joined).value.0
  {
    var i := IndexOf(joined, COLON);
    assert joined == joined[..i] + [COLON] + joined[i + 1..];
  }

  /** A joined map that collecting `offsets` can give. When two keys join alike, either offset may win. */
  ghost predicate Collected(offsets: map<Key, int>, file: map<Text, int>) {
    && (forall key | key in offsets :: JoinKey(key) in file)
    && (forall joined | joined in file :: CollectedFrom(offsets, joined, file[joined]))
  }

  ghost predicate CollectedFrom(offsets: map<Key, int>, joined: Text, offset: int) {
    exists key | key in offsets :: JoinKey(key) == joined && offsets[key] == offset
  }

  predicate Splittable(file: map<Text, int>) {
    forall joined | joined in file :: SplitKey(joined).Some?
  }

  /** The map `recover` collects: no two keys of the file split alike, since joining them again tells them apart. */
  function SplitAll(file: map<Text, int>): (offsets: map<Key, int>)
    requires Splittable(file)
    ensures forall joined | joined in file ::
              SplitKey(joined).value in offsets && offsets[SplitKey(joined).value] == file[joined]
    ensures forall key | key in offsets :: SplitFrom(file, key)
  {
    SplitInjective(file);
    var keys := set joined | joined in file :: SplitKey(joined).value;
    assert forall key | key in keys :: SplitFrom(file, key);
    map key | key in keys :: file[JoinKey(key)]
  }

  /** `key` stands in the file, under its joined form. */
  ghost predicate SplitFrom(file: map<Text, int>, key: Key) {
    JoinKey(key) in file && SplitKey(JoinKey(key)) == Some(key)
  }

  lemma SplitInjective(file: map<Text, int>)
    requires Splittable(file)
    ensures forall joined | joined in file :: JoinKey(SplitKey(joined).value) == joined
  {
    forall joined | joined in file
      ensures JoinKey(SplitKey(joined).value) == joined
    {
      JoinSplitKey(joined);
    }
  }

  predicate ColonFreeGroups(offsets: map<Key, int>) {
    forall key | key in offsets :: COLON !in key.0
  }

  /** What the file held after a flush is restored exactly when no group name contains a colon. */
  lemma FlushRecoverExact(offsets: map<Key, int>, file: map<Text, int>)
    requires Collected(offsets, file)
    ensures Splittable(file)
    ensures SplitAll(file) == offsets <==> ColonFreeGroups(offsets)
  {
    forall joined | joined in file ensures SplitKey(joined).Some? {
      assert CollectedFrom(offsets, joined, file[joined]);
      var key :| key in offsets && JoinKey(key) == joined;
      assert joined[|key.0|] == COLON;
    }
    if ColonFreeGroups(offsets) {
      RestoredWhenColonFree(offsets, file);
    }
    forall joined | joined in file ensures COLON !in SplitKey(joined).value.0 {
      JoinSplitKey(joined);
    }
  }

  lemma RestoredWhenColonFree(offsets: map<Key, int>, file: map<Text, int>)
    requires Collected(offsets, file) && Splittable(file) && ColonFreeGroups(offsets)
    ensures SplitAll(file) == offsets
  {
    var restored := SplitAll(file);
    forall key | key in offsets ensures key in restored && restored[key] == offsets[key] {
      SplitJoinKey(key);
      CollectedKey(offsets, file, key);
    }
    forall key | key in restored ensures key in offsets {
      assert SplitFrom(file, key);
      CollectedKey(offsets, file, key);
    }
  }

  lemma CollectedKey(offsets: map<Key, int>, file: map<Text, int>, key: Key)
    requires Collected(offsets, file) && ColonFreeGroups(offsets)
    requires JoinKey(key) in file && SplitKey(JoinKey(key)) == Some(key)
    ensures key in offsets && offsets[key] == file[JoinKey(key)]
  {
    assert CollectedFrom(offsets, JoinKey(key), file[JoinKey(key)]);
    var key' :| key' in offsets && JoinKey(key') == JoinKey(key) && offsets[key'] == file[JoinKey(key)];
    SplitJoinKey(key');
  }

  lemma CollectOne(done: map<Key, int>, joined: map<Text, int>, key: Key, offset: int)
    requires Collected(done, joined) && key !in done
    ensures Collected(done[key := offset], joined[JoinKey(key) := offset])
  {
    var done', joined' := done[key := offset], joined[JoinKey(key) := offset];
    forall j | j in joined' ensures CollectedFrom(done', j, joined'[j]) {
      if j == JoinKey(key) {
        assert key in done';
      } else {
        assert CollectedFrom(done, j, joined[j]);
        var k :| k in done && JoinKey(k) == j && done[k] == joined[j];
        assert k in done' && done'[k] == done[k];
      }
    }
  }

  /** Some file collects the offsets with the one of `winner` in it, whichever key that is. */
  lemma {:induction false} CollectWinner(offsets: map<Key, int>, winner: Key) returns (file: map<Text, int>)
    requires winner in offsets
    ensures Collected(offsets, file) && file[JoinKey(winner)] == offsets[winner]
    decreases |offsets|
  {
    var others := offsets - {winner};
    var rest: map<Text, int> := map[];
    if others != map[] {
      var other :| other in others;
      rest := CollectWinner(others, other);
    }
    CollectOne(others, rest, winner, offsets[winner]);
    assert others[winner := offsets[winner]] == offsets;
    file := rest[JoinKey(winner) := offsets[winner]];
  }

  /** The key comes back with its offset, whichever file the offsets were collected into. */
  ghost predicate AlwaysRestored(offsets: map<Key, int>, key: Key) {
    forall file: map<Text, int> | Collected(offsets, file) :: RestoredFrom(offsets, file, key)
  }

  ghost predicate RestoredFrom(offsets: map<Key, int>, file: map<Text, int>, key: Key) {
    key in offsets && Splittable(file) && key in SplitAll(file) && SplitAll(file)[key] == offsets[key]
  }

  /** No committed key joins to the same text with another offset. */
  predicate Unrivalled(offsets: map<Key, int>, key: Key)
    requires key in offsets
  {
    forall other | other in offsets && JoinKey(other) == JoinKey(key) :: offsets[other] == offsets[key]
  }

  /** A committed offset is safe exactly when its group has no colon and no rival joins alike with another offset. */
  lemma KeyRestoredExact(offsets: map<Key, int>, key: Key)
    requires key in offsets
    ensures AlwaysRestored(offsets, key) <==> COLON !in key.0 && Unrivalled(offsets, key)
  {
    if COLON !in key.0 && Unrivalled(offsets, key) {
      forall file: map<Text, int> | Collected(offsets, file) ensures RestoredFrom(offsets, file, key) {
        UnrivalledRestored(offsets, file, key);
      }
    }
    if AlwaysRestored(offsets, key) {
      forall other | other in offsets && JoinKey(other) == JoinKey(key)
        ensures COLON !in key.0 && offsets[other] == offsets[key]
      {
        var file := CollectWinner(offsets, other);
        assert RestoredFrom(offsets, file, key) && SplitFrom(file, key);
        SplitJoinKey(key);
      }
    }
  }

  lemma UnrivalledRestored(offsets: map<Key, int>, file: map<Text, int>, key: Key)
    requires Collected(offsets, file) && key in offsets && COLON !in key.0 && Unrivalled(offsets, key)
    ensures RestoredFrom(offsets, file, key)
  {
    FlushRecoverExact(offsets, file);
    SplitJoinKey(key);
    assert CollectedFrom(offsets, JoinKey(key), file[JoinKey(key)]);
  }

  function OffsetOf(offsets: map<Key, int>, key: Key): int {
    if key in offsets then offsets[key] else 0
  }

  /** Another key that joins to the same text. */
  predicate Rival(other: Key, key: Key) {
    other != key && JoinKey(other) == JoinKey(key)
  }

  predicate NoRival(offsets: map<Key, int>, key: Key) {
    forall other | other in offsets :: !Rival(other, key)
  }

  /** What is restored would be written to the same file again. */
  lemma CollectedAgain(file: map<Text, int>)
    requires Splittable(file)
    ensures Collected(SplitAll(file), file)
  {
    var offsets := SplitAll(file);
    forall key | key in offsets ensures JoinKey(key) in file {
      assert SplitFrom(file, key);
    }
    forall joined | joined in file ensures CollectedFrom(offsets, joined, file[joined]) {
      JoinSplitKey(joined);
      assert SplitKey(joined).value in offsets;
    }
  }

  /** Where a colon-free key has no rival, it keeps its offset or its lack of one, whatever becomes of other keys. */
  lemma KeyKept(offsets: map<Key, int>, file: map<Text, int>, key: Key)
    requires Collected(offsets, file) && COLON !in key.0 && NoRival(offsets, key)
    ensures Splittable(file)
    ensures OffsetOf(SplitAll(file), key) == OffsetOf(offsets, key) && NoRival(SplitAll(file), key)
  {
    FlushRecoverExact(offsets, file);
    SplitJoinKey(key);
    var restored := SplitAll(file);
    forall other | other in restored ensures !Rival(other, key) {
      assert SplitFrom(file, other);
    }
    if key in restored {
      assert SplitFrom(file, key) && CollectedFrom(offsets, JoinKey(key), file[JoinKey(key)]);
      var other :| other in offsets && JoinKey(other) == JoinKey(key);
      assert !Rival(other, key);
    }
    if key in offsets {
      assert Unrivalled(offsets, key);
      UnrivalledRestored(offsets, file, key);
    }
  }

  class OffsetManager {
    var offsets: map<Key, int>
    /** The contents of the offset file, once there is one. */
    var file: Option<map<Text, int>>

    constructor (file: Option<map<Text, int>>)
      ensures this.file == file && offsets == map[]
    {
      this.file, offsets := file, map[];
    }

    method GetOffset(consumerGroup: Text, topic: Text) returns (offset: int)
      ensures offset == OffsetOf(offsets, (consumerGroup, topic))
      ensures (consumerGroup, topic) !in offsets ==> offset == 0
    {
      offset := if (consumerGroup, topic) in offsets then offsets[(consumerGroup, topic)] else 0;
    }

    method SetOffset(consumerGroup: Text, topic: Text, offset: int)
      modifies this
      ensures offsets == old(offsets)[(consumerGroup, topic) := offset]
      ensures file.Some? && Collected(offsets, file.value)
    {
      offsets := offsets[(consumerGroup, topic) := offset];
      Flush();
    }

    method Flush()
      modifies this`file
      ensures file.Some? && Collected(offsets, file.value)
      ensures forall key | key in offsets :: key.0 + [0x3A] + key.1 in file.value
    {
      var joined: map<Text, int> := map[];
      var done: map<Key, int> := map[];
      var left := offsets.Keys;
      while left != {}
        invariant left <= offsets.Keys && done.Keys == offsets.Keys - left
        invariant forall key | key in done :: done[key] == offsets[key]
        invariant Collected(done, joined)
      {
        var key :| key in left;
        CollectOne(done, joined, key, offsets[key]);
        joined := joined[JoinKey(key) := offsets[key]];
        done := done[key := offsets[key]];
        left := left - {key};
      }
      assert done == offsets;
      file := Some(joined);
    }

    method Recover() returns (r: Result<(), Error>)
      modifies this`offsets
      ensures file == None ==> r == Failure(NoOffsetFileFound) && offsets == old(offsets)
      ensures file.Some? && !Splittable(file.value) ==> r == Failure(Panic) && offsets == old(offsets)
      ensures file.Some? && Splittable(file.value) ==> r == Success(()) && offsets == SplitAll(file.value)
    {
      if file == None {
        return Failure(NoOffsetFileFound);
      }
      if !Splittable(file.value) {
        return Failure(Panic);
      }
      offsets := SplitAll(file.value);
      r := Success(());
    }
  }
}
