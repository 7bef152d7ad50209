/**
  How large an advertisement may be (src/agent_container/git_protocol.py:9-11, 51-86,
  126-176): it is fetched up to 4 MiB, and read within the limits of a section.
 */
module AdvertisementSize {
  import opened Wrappers
  import opened Bytes
  import opened PktLine
  import opened ReceivePackGate
  import opened Separators
  import opened ReceivePackAdvertisement
  import opened ChunkStream

  const MAX_RECEIVE_PACK_ADVERTISEMENT_BYTES: nat := 4 * 1024 * 1024

  // ---- Sections ----

  // A section that follows the grammar is read exactly when it is within the limits
  // of the parser, and what is read goes through the chunk stream; the 4 MiB up to
  // which an advertisement is fetched never come into play.
  lemma AdvertisementLimit(discovery: seq<Byte>, packets: seq<seq<Byte>>)
    requires Encodes(discovery, packets)
    ensures Parse(discovery, 0, 0, LIMITS).Ok? <==> Fits(packets, |discovery|, LIMITS)
    ensures Parse(discovery, 0, 0, LIMITS).Ok? ==> ChunkOk(discovery)
  {
    hide Encodes, Parse;
    assert discovery[..|discovery|] == discovery;
    DecodesExactlyTheGrammar(discovery, packets, |discovery|, LIMITS);
    if Parse(discovery, 0, 0, LIMITS).Ok? {
      ParseIsSound(discovery, 0, 0, LIMITS);
      var section := Parse(discovery, 0, 0, LIMITS).value;
      EncodingIsPrefixFree(discovery, packets, section.packets, section.consumed);
      EncodingIsNotEmpty(discovery, packets);
    }
  }

  // Where one encoding ends no other goes on.
  lemma {:induction false} EncodingIsPrefixFree(b: seq<Byte>, packets: seq<seq<Byte>>, others: seq<seq<Byte>>, n: nat)
    requires n <= |b| && Encodes(b, packets) && Encodes(b[..n], others)
    ensures n == |b| && packets == others
    decreases |packets|
  {
    hide Encodes;
    EmptyAlike(b, packets, n, others);
    if packets != [] {
      var k := |packets[0]| + 4;
      OneHeader(b, packets, n, others);
      EncodesUnfolds(b, packets);
      EncodesUnfolds(b[..n], others);
      RestOfPrefix(b, n, k);
      EncodingIsPrefixFree(b[k..], packets[1..], others[1..], n - k);
      assert packets == [packets[0]] + packets[1..] && others == [others[0]] + others[1..];
    }
  }

  lemma EmptyAlike(b: seq<Byte>, packets: seq<seq<Byte>>, n: nat, others: seq<seq<Byte>>)
    requires n <= |b| && Encodes(b, packets) && Encodes(b[..n], others)
    ensures (packets == [] <==> others == []) && (packets == [] ==> n == |b|)
  {
    hide HeaderValue;
    assert b[..n][..4] == b[..4];
  }

  lemma OneHeader(b: seq<Byte>, packets: seq<seq<Byte>>, n: nat, others: seq<seq<Byte>>)
    requires n <= |b| && packets != [] && others != [] && Encodes(b, packets) && Encodes(b[..n], others)
    ensures |packets[0]| == |others[0]| && |packets[0]| + 4 <= n
  {
    hide HeaderValue;
    assert b[..n][..4] == b[..4];
  }

  lemma RestOfPrefix(b: seq<Byte>, n: nat, k: nat)
    requires 4 <= k <= n <= |b|
    ensures b[..n][k..] == b[k..][..n - k] && b[..n][4..k] == b[4..k]
  {
  }

  lemma EncodingIsNotEmpty(b: seq<Byte>, packets: seq<seq<Byte>>)
    requires Encodes(b, packets)
    ensures b != []
  {
  }

  // ---- Advertisements ----

  // Two fields have the length of the line but for the space between them.
  lemma TwoFields(line: seq<Byte>)
    requires |Split(line, SPACE)| == 2
    ensures |line| == |Split(line, SPACE)[0]| + 1 + |Split(line, SPACE)[1]|
  {
    var k := Find(line, SPACE);
    var rest := line[k + 1..];
    assert Split(line, SPACE) == [line[..k]] + Split(rest, SPACE);
    assert Find(rest, SPACE) == |rest|;
  }

  // No line but the first is long.
  lemma LineIsShort(packets: seq<seq<Byte>>, i: nat, f: Format)
    requires 0 < i < |packets| && RefLineOk(packets, i, f)
    ensures |packets[i]| <= 578
  {
    TwoFields(StripLf(packets[i]));
    hide Split;
  }

  lemma {:induction false} LengthOf(b: seq<Byte>, packets: seq<seq<Byte>>)
    requires Encodes(b, packets) && |packets| > 0 && forall i :: 0 < i < |packets| ==> |packets[i]| <= 578
    ensures |b| <= |packets[0]| + 8 + 582 * (|packets| - 1)
    decreases |packets|
  {
    EncodesUnfolds(b, packets);
    var n, rest := |packets[0]| + 4, packets[1..];
    if rest != [] {
      assert forall i :: 0 < i < |rest| ==> rest[i] == packets[i + 1];
      assert rest[0] == packets[1];
      LengthOf(b[n..], rest);
    }
  }

  // An advertisement is accepted exactly when it has at most 1,024 lines and a first
  // line, with its capabilities, of at most 65,516 bytes: then it is within all limits.
  lemma AdvertisementIsRead(discovery: seq<Byte>, packets: seq<seq<Byte>>, f: Format)
    requires Encodes(discovery, packets) && IsAdvertisement(packets, f)
    ensures Readable(discovery) <==> Fits(packets, |discovery|, LIMITS)
    ensures Readable(discovery) <==> |packets| <= 1_024 && |packets[0]| <= 65_516
  {
    hide Encodes, Parse, RefLineOk, CapabilitiesOk, Selects, Capabilities, RawCapabilities, SameAdvertised;
    AdvertisementLimit(discovery, packets);
    assert discovery[..|discovery|] == discovery;
    DecodesExactlyTheGrammar(discovery, packets, |discovery|, LIMITS);
    forall i | 0 < i < |packets| ensures |packets[i]| <= 578 {
      LineIsShort(packets, i, f);
    }
    LengthOf(discovery, packets);
  }

  // ---- An advertisement that is too large ----

  // The object and the name of ref number `i`.
  function SomeOid(): Oid {
    seq(40, _ => 97)
  }

  function SomeRef(i: nat): Ref {
    Ascii("refs/heads/") + [97 + i / 256 % 16, 97 + i / 16 % 16, 97 + i % 16]
  }

  function SomeLine(i: nat): seq<Byte> {
    SomeOid() + [SPACE] + SomeRef(i)
  }

  // The lines of a remote with `n` branches and no capabilities.
  function SomePackets(n: nat): seq<seq<Byte>> {
    seq(n, i requires 0 <= i < n => if i == 0 then SomeLine(0) + [NUL] else SomeLine(i))
  }

  lemma Digits(i: nat)
    requires i < 4096
    ensures i == 256 * (i / 256 % 16) + 16 * (i / 16 % 16) + i % 16
  {
    assert i / 256 == i / 16 / 16 && i / 256 % 16 == i / 256;
  }

  lemma SomeRefsDiffer(i: nat, j: nat)
    requires i < j < 4096
    ensures SomeRef(i) != SomeRef(j)
  {
    var a, b := SomeRef(i), SomeRef(j);
    Digits(i);
    Digits(j);
    assert a[11] == 97 + i / 256 % 16 && a[12] == 97 + i / 16 % 16 && a[13] == 97 + i % 16;
    assert b[11] == 97 + j / 256 % 16 && b[12] == 97 + j / 16 % 16 && b[13] == 97 + j % 16;
  }

  lemma Prefix()
    ensures Ascii("refs/heads/") == [114, 101, 102, 115, 47, 104, 101, 97, 100, 115, 47]
    ensures Ascii("refs/") == [114, 101, 102, 115, 47] && Ascii("._/{}-")[2] == 47
    ensures |EMPTY| == 15 && |Ascii("HEAD")| == 4
  {
  }

  lemma SomeRefIsOk(i: nat)
    ensures IsAscii(SomeRef(i)) && AdvertisedRefOk(SomeRef(i)) && SomeRef(i) != EMPTY
    ensures SPACE !in SomeRef(i) && NUL !in SomeRef(i) && LF !in SomeRef(i)
  {
    var ref := SomeRef(i);
    Prefix();
    assert forall k :: 0 <= k < |ref| ==> 97 <= ref[k] <= 115 || ref[k] == 47;
    hide Ascii;
    assert ref[..5] == Ascii("refs/");
    assert 47 in Ascii("._/{}-");
    assert ref[0] == 114;
  }

  lemma SomeOidIsOk()
    ensures ValidOid(SomeOid(), Sha1) && SPACE !in SomeOid() && NUL !in SomeOid()
  {
  }

  lemma SomeFields(n: nat, i: nat)
    requires i < n
    ensures RefLine(SomePackets(n), i) == Some((SomeOid(), SomeRef(i)))
    ensures i == 0 ==> NUL in StripLf(SomePackets(n)[0]) && RawCapabilities(SomePackets(n)) == []
  {
    hide Split, ValidOid, AdvertisedRefOk;
    var packets, line := SomePackets(n), SomeLine(i);
    SomeOidIsOk();
    SomeRefIsOk(i);
    hide SomeOid, SomeRef;
    SplitInTwo(SomeOid(), SomeRef(i), SPACE);
    assert NUL !in line;
    if i == 0 {
      var first := line + [NUL];
      assert StripLf(first) == first && first[|line|] == NUL;
      FindBehind(line, NUL, []);
      assert line + [NUL] + [] == first;
      assert first[..|line|] == line && first[|line| + 1..] == [];
    } else {
      SomeRefEnds(i);
      assert StripLf(line) == line;
    }
  }

  lemma SomeRefEnds(i: nat)
    ensures var line := SomeLine(i); line != [] && line[|line| - 1] != LF
  {
  }

  lemma SomeAdvertisement(n: nat)
    requires 0 < n < 4096
    ensures IsAdvertisement(SomePackets(n), Sha1)
  {
    hide RefLine, RawCapabilities, SomePackets, SomeOid, SomeRef, ValidOid, AdvertisedRefOk, EMPTY;
    var packets := SomePackets(n);
    SomeLength(n);
    SomeFields(n, 0);
    SomeOidIsOk();
    forall i | 0 <= i < n ensures RefLineOk(packets, i, Sha1) {
      SomeFields(n, i);
      SomeRefIsOk(i);
    }
    forall i, j | 0 <= i < j < n ensures !SameAdvertised(packets, i, j) {
      SomeFields(n, i);
      SomeFields(n, j);
      SomeRefsDiffer(i, j);
    }
  }

  lemma SomeLength(n: nat)
    ensures |SomePackets(n)| == n
  {
  }

  // A remote with 1,025 branches: its advertisement is fetched, and refused.
  lemma LargeAdvertisementIsRefused()
    ensures exists discovery: seq<Byte>, packets ::
              && Encodes(discovery, packets) && IsAdvertisement(packets, Sha1)
              && |discovery| <= MAX_RECEIVE_PACK_ADVERTISEMENT_BYTES && !Readable(discovery)
  {
    var packets := SomePackets(1025);
    SomeAdvertisement(1025);
    assert forall i :: 0 <= i < 1025 ==> |packets[i]| <= 56;
    hide IsAdvertisement, Encodes, Readable, Encode, SomePackets;
    EncodeEncodes(packets);
    LengthOf(Encode(packets), packets);
    AdvertisementIsRead(Encode(packets), packets, Sha1);
  }
}
