/**
 Raw records travel joined by zero bytes. The backends join, the client splits; this module
 says exactly when the split gives the records back.
 */
module ZeroFraming {
  import opened Bytes

  function Join(parts: seq<seq<Byte>>): seq<Byte> {
    if |parts| == 0 then []
    else if |parts| == 1 then parts[0]
    else parts[0] + [ZERO] + Join(parts[1..])
  }

  /** `bytes.split(|b| *b == 0)`: there is always at least one part. */
  function Split(s: seq<Byte>): (parts: seq<seq<Byte>>)
    ensures |parts| > 0
    ensures Join(parts) == s
    ensures ZeroFree(parts)
  {
    if s == [] then [[]]
    else
      var later := Split(s[1..]);
      if s[0] == ZERO then
        var parts := [[]] + later;
        assert parts[1..] == later;
        parts
      else
        var parts := [[s[0]] + later[0]] + later[1..];
        assert parts[1..] == later[1..];
        assert forall i | 1 <= i < |parts| :: parts[i] == later[i];
        parts
  }

  /** The records a client takes from a fetch response: none when the response is empty. */
  function Parts(s: seq<Byte>): seq<seq<Byte>> {
    if s == [] then [] else Split(s)
  }

  predicate ZeroFree(parts: seq<seq<Byte>>) {
    forall i | 0 <= i < |parts| :: ZERO !in parts[i]
  }

  predicate NonEmptyParts(parts: seq<seq<Byte>>) {
    forall i | 0 <= i < |parts| :: parts[i] != []
  }

  lemma {:induction false} SplitOfPart(part: seq<Byte>)
    requires ZERO !in part
    ensures Split(part) == [part]
  {
    if part != [] {
      SplitOfPart(part[1..]);
      assert [part[0]] + part[1..] == part;
    }
  }

  lemma {:induction false} SplitAfterPart(part: seq<Byte>, rest: seq<Byte>)
    requires ZERO !in part
    ensures Split(part + [ZERO] + rest) == [part] + Split(rest)
  {
    var s := part + [ZERO] + rest;
    if part == [] {
      assert s[1..] == rest;
    } else {
      assert s[1..] == part[1..] + [ZERO] + rest;
      SplitAfterPart(part[1..], rest);
      assert [part[0]] + part[1..] == part;
    }
  }

  lemma {:induction false} SplitJoin(parts: seq<seq<Byte>>)
    requires parts != [] && ZeroFree(parts)
    ensures Split(Join(parts)) == parts
  {
    if |parts| == 1 {
      SplitOfPart(parts[0]);
    } else {
      SplitJoin(parts[1..]);
      SplitAfterPart(parts[0], Join(parts[1..]));
      assert [parts[0]] + parts[1..] == parts;
    }
  }

  /** A client recovers the joined records exactly when none holds a zero byte and they are not a lone empty record. */
  lemma PartsExact(parts: seq<seq<Byte>>)
    ensures Parts(Join(parts)) == parts <==> ZeroFree(parts) && parts != [[]]
  {
    assert Split([]) == [[]];
    if ZeroFree(parts) && parts != [] {
      SplitJoin(parts);
    }
  }

  function Zeros(s: seq<Byte>): nat {
    if s == [] then 0 else (if s[0] == ZERO then 1 else 0) + Zeros(s[1..])
  }

  lemma {:induction false} SplitCount(s: seq<Byte>)
    ensures |Split(s)| == 1 + Zeros(s)
  {
    if s != [] {
      SplitCount(s[1..]);
    }
  }

  lemma {:induction false} ZerosConcat(a: seq<Byte>, b: seq<Byte>)
    ensures Zeros(a + b) == Zeros(a) + Zeros(b)
  {
    if a == [] {
      assert a + b == b;
    } else {
      assert (a + b)[1..] == a[1..] + b;
      ZerosConcat(a[1..], b);
    }
  }

  function TotalZeros(parts: seq<seq<Byte>>): nat {
    if parts == [] then 0 else Zeros(parts[0]) + TotalZeros(parts[1..])
  }

  lemma {:induction false} ZerosFound(s: seq<Byte>)
    ensures Zeros(s) == 0 <==> ZERO !in s
  {
    if s != [] {
      ZerosFound(s[1..]);
      assert s == [s[0]] + s[1..];
    }
  }

  lemma {:induction false} ZeroFreeCounted(parts: seq<seq<Byte>>)
    ensures TotalZeros(parts) == 0 <==> ZeroFree(parts)
  {
    if parts != [] {
      ZerosFound(parts[0]);
      ZeroFreeCounted(parts[1..]);
      assert forall i | 1 <= i < |parts| :: parts[i] == parts[1..][i - 1];
    }
  }

  /** Each zero byte inside a record makes the client advance one offset too far. */
  lemma {:induction false} PartsOvershoot(parts: seq<seq<Byte>>)
    requires Join(parts) != []
    ensures |Parts(Join(parts))| == |parts| + TotalZeros(parts)
  {
    SplitCount(Join(parts));
    ZerosOfJoin(parts);
  }

  lemma {:induction false} ZerosOfJoin(parts: seq<seq<Byte>>)
    requires parts != []
    ensures Zeros(Join(parts)) + 1 == |parts| + TotalZeros(parts)
  {
    if |parts| == 1 {
      assert parts[1..] == [];
    } else {
      ZerosOfJoin(parts[1..]);
      ZerosConcat(parts[0] + [ZERO], Join(parts[1..]));
      ZerosConcat(parts[0], [ZERO]);
      assert Zeros([ZERO]) == 1 + Zeros([ZERO][1..]);
    }
  }
}
