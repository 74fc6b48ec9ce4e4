/** Facts about sequences that the solver is better told than left to find. */
module Sequences {

  lemma ConcatAssociates<T>(a: seq<T>, b: seq<T>, c: seq<T>)
    ensures a + (b + c) == a + b + c
  {
  }

  lemma ConcatCons<T>(a: seq<T>, b: seq<T>)
    requires a != []
    ensures a + b != [] && (a + b)[0] == a[0] && (a + b)[1..] == a[1..] + b
  {
  }

  lemma TakeDrop<T>(a: seq<T>, k: nat)
    requires k <= |a|
    ensures a[..k] + a[k..] == a
  {
  }

  lemma SnocSlices<T>(a: seq<T>, x: T)
    ensures (a + [x])[..|a|] == a && (a + [x])[|a|..] == [x]
    ensures (a + [x])[..|a| + 1] == a + [x] && (a + [x])[|a| + 1..] == []
  {
  }

  lemma DropConcat<T>(a: seq<T>, b: seq<T>, k: nat)
    requires k <= |a|
    ensures (a + b)[k..] == a[k..] + b
  {
  }

  lemma DropPast<T>(a: seq<T>, b: seq<T>, k: nat)
    requires |a| <= k <= |a| + |b|
    ensures (a + b)[k..] == b[k - |a|..]
  {
  }

  lemma SplitSuffix<T>(a: seq<T>, b: seq<T>, k: nat)
    requires k <= |a|
    ensures (a + b)[k..] == a[k..] + (a + b)[|a|..]
  {
  }

  lemma SplitPrefix<T>(p: seq<T>, head: seq<T>, tail: seq<T>) returns (rest: seq<T>)
    requires p <= head + tail && |p| >= |head|
    ensures p == head + rest && rest <= tail
  {
    rest := p[|head|..];
    assert p[..|head|] == head;
    assert rest == tail[..|rest|];
  }

  lemma SameHead<T>(head: seq<T>, a: seq<T>, b: seq<T>)
    ensures head + a == head + b <==> a == b
  {
    if head + a == head + b {
      assert a == (head + a)[|head|..];
    }
  }

  lemma PrefixUnder<T>(head: seq<T>, a: seq<T>, b: seq<T>)
    requires a <= b
    ensures head + a <= head + b && (head + b)[|head + a|..] == b[|a|..]
  {
  }

  lemma SameTail<T>(a: seq<T>, b: seq<T>, tail: seq<T>)
    requires a + tail == b + tail
    ensures a == b
  {
    assert |a| == |b|;
    assert a == (a + tail)[..|a|] == (b + tail)[..|b|] == b;
  }

  /** A run of steps, and one step more. */
  lemma StepsSnoc<A, B>(states: seq<A>, events: seq<B>, step: (A, B, A) -> bool, event: B, next: A)
    requires |states| == |events| + 1 && step(states[|events|], event, next)
    requires forall i | 0 <= i < |events| :: step(states[i], events[i], states[i + 1])
    ensures var states', events' := states + [next], events + [event];
            forall i | 0 <= i < |events'| :: step(states'[i], events'[i], states'[i + 1])
  {
    var states', events' := states + [next], events + [event];
    forall i | 0 <= i < |events'| ensures step(states'[i], events'[i], states'[i + 1]) {
      if i < |events| {
        assert step(states[i], events[i], states[i + 1]);
      }
    }
  }

  /** A relation between states and the events that leave them, carried over one more event. */
  lemma RelatedSnoc<A, B>(states: seq<A>, events: seq<B>, related: (A, B) -> bool, next: A, event: B)
    requires |states| == |events| + 1 && related(states[|events|], event)
    requires forall i | 0 <= i < |events| :: related(states[i], events[i])
    ensures forall i | 0 <= i < |events| + 1 :: related((states + [next])[i], (events + [event])[i])
  {
    forall i | 0 <= i < |events| + 1 ensures related((states + [next])[i], (events + [event])[i]) {
      if i < |events| {
        assert related(states[i], events[i]);
      }
    }
  }

  lemma PrefixOfTaken<T>(a: seq<T>, b: seq<T>, c: seq<T>, k: nat)
    requires a <= b && |a| <= k <= |b + c|
    ensures a <= (b + c)[..k]
  {
    assert a == (b + c)[..k][..|a|];
  }

  /** In a chain of sequences each extending the last, every later one extends every earlier one. */
  lemma {:induction false} ChainGrows<T>(chain: seq<seq<T>>, i: nat, j: nat)
    requires forall k | 0 <= k < |chain| - 1 :: chain[k] <= chain[k + 1]
    requires i <= j < |chain|
    ensures chain[i] <= chain[j]
  {
    if i < j {
      ChainGrows(chain, i, j - 1);
      assert chain[j - 1] <= chain[j - 1 + 1];
    }
  }
}
