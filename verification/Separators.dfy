/**
  Splitting bytes at a separator, and joining them again.
 */
module Separators {
  import opened Bytes

  function JoinedBy(parts: seq<seq<Byte>>, x: Byte): seq<Byte> {
    if parts == [] then [] else if |parts| == 1 then parts[0] else parts[0] + [x] + JoinedBy(parts[1..], x)
  }

  lemma {:induction false} FindBehind(a: seq<Byte>, x: Byte, b: seq<Byte>)
    requires x !in a
    ensures Find(a + [x] + b, x) == |a|
  {
    var line := a + [x] + b;
    if a != [] {
      assert a[0] in a && line[1..] == a[1..] + [x] + b;
      FindBehind(a[1..], x, b);
    }
  }

  lemma JoinedUnfolds(p: seq<Byte>, rest: seq<seq<Byte>>, x: Byte)
    requires rest != []
    ensures JoinedBy([p] + rest, x) == p + [x] + JoinedBy(rest, x)
  {
    assert ([p] + rest)[1..] == rest;
  }

  lemma SplitUnfolds(b: seq<Byte>, x: Byte)
    ensures var k := Find(b, x);
            Split(b, x) == if k == |b| then [b] else [b[..k]] + Split(b[k + 1..], x)
  {
    hide Find;
  }

  lemma SplitAt(p: seq<Byte>, x: Byte, rest: seq<Byte>)
    requires x !in p
    ensures Split(p + [x] + rest, x) == [p] + Split(rest, x)
  {
    var b := p + [x] + rest;
    FindBehind(p, x, rest);
    SplitUnfolds(b, x);
    hide Split, Find;
    assert b[..|p|] == p && b[|p| + 1..] == rest;
  }

  // Splitting is the way back from joining ...
  lemma {:induction false} SplitOfJoined(parts: seq<seq<Byte>>, x: Byte)
    requires parts != [] && forall i :: 0 <= i < |parts| ==> x !in parts[i]
    ensures Split(JoinedBy(parts, x), x) == parts
    decreases |parts|
  {
    if |parts| == 1 {
      assert parts == [parts[0]] && Find(parts[0], x) == |parts[0]|;
    } else {
      hide Split;
      assert parts == [parts[0]] + parts[1..];
      JoinedUnfolds(parts[0], parts[1..], x);
      SplitAt(parts[0], x, JoinedBy(parts[1..], x));
      SplitOfJoined(parts[1..], x);
    }
  }

  // ... and the other way round, with parts free of the separator.
  lemma {:induction false} JoinedOfSplit(b: seq<Byte>, x: Byte)
    ensures JoinedBy(Split(b, x), x) == b
    decreases |b|
  {
    var k := Find(b, x);
    SplitUnfolds(b, x);
    hide Find, Split;
    if k < |b| {
      hide JoinedBy;
      JoinedOfSplit(b[k + 1..], x);
      JoinedUnfolds(b[..k], Split(b[k + 1..], x), x);
      assert b == b[..k] + [x] + b[k + 1..];
    }
  }

  lemma {:induction false} PartsAreFree(b: seq<Byte>, x: Byte, n: nat)
    requires n < |Split(b, x)|
    ensures x !in Split(b, x)[n]
    decreases |b|
  {
    var k := Find(b, x);
    SplitUnfolds(b, x);
    hide Split, Find;
    if k < |b| && n > 0 {
      PartsAreFree(b[k + 1..], x, n - 1);
    } else if k == |b| {
      assert b == b[..k];
    }
  }

  lemma SplitInTwo(a: seq<Byte>, b: seq<Byte>, x: Byte)
    requires x !in a && x !in b
    ensures Split(a + [x] + b, x) == [a, b]
  {
    SplitAt(a, x, b);
    SplitOfJoined([b], x);
    hide Split;
  }

  // A text of three fields.
  lemma ThreeFields(text: seq<Byte>, a: seq<Byte>, b: seq<Byte>, c: seq<Byte>, x: Byte)
    ensures Split(text, x) == [a, b, c] <==>
              x !in a && x !in b && x !in c && text == a + [x] + b + [x] + c
  {
    if Split(text, x) == [a, b, c] {
      PartsAreFree(text, x, 0);
      PartsAreFree(text, x, 1);
      PartsAreFree(text, x, 2);
      JoinedOfSplit(text, x);
      JoinedThree(a, b, c, x);
    }
    if x !in a && x !in b && x !in c {
      SplitOfJoined([a, b, c], x);
      JoinedThree(a, b, c, x);
    }
    hide Split, JoinedBy;
  }

  lemma JoinedThree(a: seq<Byte>, b: seq<Byte>, c: seq<Byte>, x: Byte)
    ensures JoinedBy([a, b, c], x) == a + [x] + b + [x] + c
  {
    JoinedUnfolds(a, [b, c], x);
    JoinedUnfolds(b, [c], x);
    assert [a] + [b, c] == [a, b, c] && [b] + [c] == [b, c];
    assert a + [x] + (b + [x] + c) == a + [x] + b + [x] + c;
  }
}
