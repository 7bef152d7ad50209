/** Byte strings and the few operations on them that the wire formats need. */
module Bytes {
  type Byte = x: int | 0 <= x < 256

  const NUL: Byte := 0
  const LF: Byte := 10
  const SPACE: Byte := 32
  const SLASH: Byte := 47
  const EQUALS: Byte := 61
  const ZERO: Byte := 48

  // The bytes of an ASCII literal.
  function Ascii(s: string): (b: seq<Byte>)
    ensures |b| == |s|
  {
    seq(|s|, i requires 0 <= i < |s| => s[i] as int % 256)
  }

  predicate IsAscii(b: seq<Byte>) {
    forall i :: 0 <= i < |b| ==> b[i] < 128
  }

  predicate StartsWith(b: seq<Byte>, prefix: seq<Byte>) {
    prefix <= b
  }

  predicate EndsWith(b: seq<Byte>, suffix: seq<Byte>) {
    |suffix| <= |b| && b[|b| - |suffix|..] == suffix
  }

  predicate Contains(b: seq<Byte>, part: seq<Byte>) {
    part <= b || (b != [] && Contains(b[1..], part))
  }

  // The position of the first `x`, or the length.
  function Find(b: seq<Byte>, x: Byte): (k: nat)
    ensures k <= |b| && x !in b[..k] && (k < |b| ==> b[k] == x)
    ensures k < |b| <==> x in b
  {
    if b == [] || b[0] == x then 0
    else
      var k := 1 + Find(b[1..], x);
      assert b[..k] == [b[0]] + b[1..][..k - 1];
      k
  }

  // b.split(x)
  function Split(b: seq<Byte>, x: Byte): (parts: seq<seq<Byte>>)
    ensures parts != []
    decreases |b|
  {
    var k := Find(b, x);
    if k == |b| then [b] else [b[..k]] + Split(b[k + 1..], x)
  }

  function Flatten(parts: seq<seq<Byte>>): seq<Byte> {
    if parts == [] then [] else parts[0] + Flatten(parts[1..])
  }

  lemma {:induction false} FlattenConcat(a: seq<seq<Byte>>, b: seq<seq<Byte>>)
    ensures Flatten(a + b) == Flatten(a) + Flatten(b)
  {
    if a == [] {
      assert a + b == b;
    } else {
      assert (a + b)[0] == a[0] && (a + b)[1..] == a[1..] + b;
      FlattenConcat(a[1..], b);
    }
  }

  lemma FlattenOne(a: seq<Byte>)
    ensures Flatten([a]) == a
  {
    assert Flatten([a]) == a + Flatten([]);
  }
}
