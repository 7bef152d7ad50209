/**
  pkt-line sections, as in "pkt-line format" of gitprotocol-common(5)
  (src/agent_container/git_protocol.py:51-86).
 */
module PktLine {
  import opened Wrappers
  import opened Bytes

  datatype Limits = Limits(packet: nat, section: nat, packets: nat)

  const LIMITS := Limits(65_520, 1_048_576, 1_024)

  predicate IsHexDigit(b: Byte) {
    48 <= b <= 57 || 97 <= b <= 102 || 65 <= b <= 70
  }

  function HexValue(b: Byte): (n: nat)
    requires IsHexDigit(b)
    ensures n < 16
  {
    if b <= 57 then b - 48 else if b <= 70 then b - 55 else b - 87
  }

  predicate IsHeader(h: seq<Byte>) {
    |h| == 4 && IsHexDigit(h[0]) && IsHexDigit(h[1]) && IsHexDigit(h[2]) && IsHexDigit(h[3])
  }

  // int(header, 16)
  function HeaderValue(h: seq<Byte>): (n: nat)
    requires IsHeader(h)
    ensures n < 0x1_0000
  {
    HexValue(h[0]) * 4096 + HexValue(h[1]) * 256 + HexValue(h[2]) * 16 + HexValue(h[3])
  }

  // ---- The grammar ----

  // `b` is these packets, each behind its length in hexadecimal, and a flush.
  predicate Encodes(b: seq<Byte>, packets: seq<seq<Byte>>)
    decreases |packets|
  {
    && |b| >= 4 && IsHeader(b[..4])
    && if packets == [] then |b| == 4 && HeaderValue(b) == 0
       else
         var n := |packets[0]| + 4;
         && HeaderValue(b[..4]) == n && n <= |b| && b[4..n] == packets[0]
         && Encodes(b[n..], packets[1..])
  }

  predicate Fits(packets: seq<seq<Byte>>, length: nat, limits: Limits) {
    && length <= limits.section && |packets| <= limits.packets
    && forall i :: 0 <= i < |packets| ==> |packets[i]| + 4 <= limits.packet
  }

  // ---- The parser ----

  datatype Section = Section(packets: seq<seq<Byte>>, consumed: nat)

  // The rest of a section, of which `count` packets and `offset` bytes are read.
  function Parse(rest: seq<Byte>, offset: nat, count: nat, limits: Limits): Result<Section>
    decreases |rest|
  {
    if |rest| < 4 || !IsHeader(rest[..4]) then Refused
    else
      var length := HeaderValue(rest[..4]);
      if length == 0 then
        if offset + 4 > limits.section then Refused else Ok(Section([], offset + 4))
      else if length < 4 || length > limits.packet || length > |rest| || offset + length > limits.section
              || count >= limits.packets
      then Refused
      else
        match Parse(rest[length..], offset + length, count + 1, limits)
        case Refused => Refused
        case Ok(s) => Ok(Section([rest[4..length]] + s.packets, s.consumed))
  }

  // `decode_pkt_line_section`.
  method DecodeSection(data: seq<Byte>, limits: Limits) returns (r: Result<Section>)
    ensures r == Parse(data, 0, 0, limits)
  {
    var packets: seq<seq<Byte>> := [];
    var offset := 0;
    hide HeaderValue, IsHeader;
    assert data[0..] == data;
    NoPrefix(Parse(data, 0, 0, limits));
    ghost var whole := Parse(data, 0, 0, limits);
    while true
      invariant 0 <= offset <= |data|
      invariant Prefixed(packets, Parse(data[offset..], offset, |packets|, limits)) == whole
      decreases |data| - offset
    {
      if offset + 4 > |data| {
        return Refused;
      }
      var header := data[offset..offset + 4];
      assert data[offset..][..4] == header;
      if !IsHeader(header) {
        return Refused;
      }
      var length := HeaderValue(header);
      if length == 0 {
        var consumed := offset + 4;
        if consumed > limits.section {
          return Refused;
        }
        assert packets + [] == packets;
        return Ok(Section(packets, consumed));
      }
      if length < 4 {
        return Refused;
      }
      if length > limits.packet {
        return Refused;
      }
      var end := offset + length;
      if end > |data| {
        return Refused;
      }
      if end > limits.section {
        return Refused;
      }
      if |packets| >= limits.packets {
        return Refused;
      }
      ghost var before := packets;
      assert data[offset..][4..length] == data[offset + 4..end];
      assert data[offset..][length..] == data[end..];
      packets := packets + [data[offset + 4..end]];
      Prefixing(before, data[offset + 4..end], Parse(data[end..], end, |packets|, limits));
      offset := end;
    }
  }

  function Prefixed(packets: seq<seq<Byte>>, r: Result<Section>): Result<Section> {
    match r
    case Refused => Refused
    case Ok(s) => Ok(Section(packets + s.packets, s.consumed))
  }

  lemma NoPrefix(r: Result<Section>)
    ensures Prefixed([], r) == r
  {
    if r.Ok? {
      assert [] + r.value.packets == r.value.packets;
    }
  }

  lemma Prefixing(packets: seq<seq<Byte>>, x: seq<Byte>, r: Result<Section>)
    ensures Prefixed(packets + [x], r) == Prefixed(packets, Prefixed([x], r))
  {
    if r.Ok? {
      assert packets + [x] + r.value.packets == packets + ([x] + r.value.packets);
    }
  }

  // ---- The parser accepts exactly the grammar ----

  lemma SliceOfPrefix(s: seq<Byte>, end: nat, i: nat, j: nat)
    requires i <= j <= end <= |s|
    ensures s[..end][i..j] == s[i..j] && (i == 0 ==> s[..end][..j] == s[..j])
            && (j == end ==> s[..end][i..] == s[i..end])
  {
    assert forall k :: 0 <= k < j - i ==> s[..end][i..j][k] == s[i + k] == s[i..j][k];
  }

  lemma EncodesOneMore(rest: seq<Byte>, length: nat, end: nat, packets: seq<seq<Byte>>)
    requires 4 <= length <= end <= |rest| && IsHeader(rest[..4]) && HeaderValue(rest[..4]) == length
    requires Encodes(rest[length..end], packets)
    ensures Encodes(rest[..end], [rest[4..length]] + packets)
  {
    var b := rest[..end];
    hide Encodes, HeaderValue;
    SliceOfPrefix(rest, end, 0, 4);
    SliceOfPrefix(rest, end, 4, length);
    SliceOfPrefix(rest, end, length, end);
    assert ([rest[4..length]] + packets)[1..] == packets;
    EncodesUnfolds(b, [rest[4..length]] + packets);
  }

  lemma EncodesUnfolds(b: seq<Byte>, packets: seq<seq<Byte>>)
    requires packets != [] && |b| >= |packets[0]| + 4
    ensures Encodes(b, packets) <==>
              var n := |packets[0]| + 4;
              IsHeader(b[..4]) && HeaderValue(b[..4]) == n && b[4..n] == packets[0] && Encodes(b[n..], packets[1..])
  {
  }

  predicate PacketsFit(packets: seq<seq<Byte>>, limits: Limits) {
    forall i :: 0 <= i < |packets| ==> |packets[i]| + 4 <= limits.packet
  }

  lemma {:induction false} ParseIsSound(rest: seq<Byte>, offset: nat, count: nat, limits: Limits)
    requires Parse(rest, offset, count, limits).Ok?
    ensures var s := Parse(rest, offset, count, limits).value;
            && offset + 4 <= s.consumed <= offset + |rest| && s.consumed <= limits.section
            && Encodes(rest[..s.consumed - offset], s.packets)
            && (s.packets != [] ==> count + |s.packets| <= limits.packets)
            && PacketsFit(s.packets, limits)
    decreases |rest|
  {
    hide HeaderValue, Encodes;
    var s := Parse(rest, offset, count, limits).value;
    var length := HeaderValue(rest[..4]);
    if length == 0 {
      FlushEncodes(rest[..4]);
    } else {
      ParseIsSound(rest[length..], offset + length, count + 1, limits);
      var inner := Parse(rest[length..], offset + length, count + 1, limits).value;
      assert rest[length..][..inner.consumed - offset - length] == rest[length..s.consumed - offset];
      EncodesOneMore(rest, length, s.consumed - offset, inner.packets);
    }
  }

  lemma FlushEncodes(b: seq<Byte>)
    requires IsHeader(b) && HeaderValue(b) == 0
    ensures Encodes(b, [])
  {
    assert b[..4] == b;
  }

  lemma {:induction false} ParseIsComplete(b: seq<Byte>, tail: seq<Byte>, packets: seq<seq<Byte>>,
                                           offset: nat, count: nat, limits: Limits)
    requires Encodes(b, packets) && offset + |b| <= limits.section
    requires count + |packets| <= limits.packets || packets == []
    requires forall i :: 0 <= i < |packets| ==> |packets[i]| + 4 <= limits.packet
    ensures Parse(b + tail, offset, count, limits) == Ok(Section(packets, offset + |b|))
    decreases |packets|
  {
    hide HeaderValue;
    var rest := b + tail;
    assert rest[..4] == b[..4];
    if packets == [] {
      assert b[..4] == b;
    } else {
      var n := |packets[0]| + 4;
      EncodesUnfolds(b, packets);
      hide Encodes;
      assert rest[n..] == b[n..] + tail && rest[4..n] == b[4..n];
      ParseIsComplete(b[n..], tail, packets[1..], offset + n, count + 1, limits);
      assert [packets[0]] + packets[1..] == packets;
    }
  }

  // Decoding succeeds exactly on a section of the grammar within the limits,
  // with exactly its packets; what follows the section plays no role.
  lemma DecodesExactlyTheGrammar(data: seq<Byte>, packets: seq<seq<Byte>>, consumed: nat, limits: Limits)
    ensures Parse(data, 0, 0, limits) == Ok(Section(packets, consumed)) <==>
              consumed <= |data| && Encodes(data[..consumed], packets) && Fits(packets, consumed, limits)
  {
    hide Parse, Encodes;
    if Parse(data, 0, 0, limits) == Ok(Section(packets, consumed)) {
      ParseIsSound(data, 0, 0, limits);
    }
    if consumed <= |data| && Encodes(data[..consumed], packets) && Fits(packets, consumed, limits) {
      ParseIsComplete(data[..consumed], data[consumed..], packets, 0, 0, limits);
      assert data[..consumed] + data[consumed..] == data;
    }
  }

  // Wider limits never change what was read.
  lemma {:induction false} WiderLimits(rest: seq<Byte>, offset: nat, count: nat, a: Limits, b: Limits)
    requires Parse(rest, offset, count, a).Ok? && Parse(rest, offset, count, b).Ok?
    ensures Parse(rest, offset, count, a) == Parse(rest, offset, count, b)
    decreases |rest|
  {
    var length := HeaderValue(rest[..4]);
    if length != 0 {
      WiderLimits(rest[length..], offset + length, count + 1, a, b);
    }
  }

  // ---- Writing a section ----

  function HexDigit(n: nat): Byte
    requires n < 16
  {
    if n < 10 then 48 + n else 87 + n
  }

  lemma HexDigits(n: nat)
    requires n < 16
    ensures IsHexDigit(HexDigit(n)) && HexValue(HexDigit(n)) == n
  {
  }

  function Header(n: nat): (h: seq<Byte>)
    requires n < 0x1_0000
    ensures IsHeader(h) && HeaderValue(h) == n
  {
    var q := n / 16;
    var r := q / 16;
    var h := [HexDigit(r / 16), HexDigit(r % 16), HexDigit(q % 16), HexDigit(n % 16)];
    HexDigits(r / 16);
    HexDigits(r % 16);
    HexDigits(q % 16);
    HexDigits(n % 16);
    h
  }

  function Encode(packets: seq<seq<Byte>>): seq<Byte>
    requires forall i :: 0 <= i < |packets| ==> |packets[i]| + 4 < 0x1_0000
  {
    if packets == [] then Header(0)
    else Header(|packets[0]| + 4) + packets[0] + Encode(packets[1..])
  }

  lemma {:induction false} EncodeEncodes(packets: seq<seq<Byte>>)
    requires forall i :: 0 <= i < |packets| ==> |packets[i]| + 4 < 0x1_0000
    ensures Encodes(Encode(packets), packets)
    decreases |packets|
  {
    if packets == [] {
      assert Encode(packets)[..4] == Header(0);
    } else {
      var b := Encode(packets);
      var n := |packets[0]| + 4;
      assert b[..4] == Header(n) && b[4..n] == packets[0] && b[n..] == Encode(packets[1..]);
      EncodeEncodes(packets[1..]);
    }
  }

  lemma RoundTrip(packets: seq<seq<Byte>>, tail: seq<Byte>, limits: Limits)
    requires limits.packet < 0x1_0000
    requires forall i :: 0 <= i < |packets| ==> |packets[i]| + 4 < 0x1_0000
    ensures Fits(packets, |Encode(packets)|, limits) <==>
              Parse(Encode(packets) + tail, 0, 0, limits) == Ok(Section(packets, |Encode(packets)|))
  {
    EncodeEncodes(packets);
    var b := Encode(packets);
    DecodesExactlyTheGrammar(b + tail, packets, |b|, limits);
    assert (b + tail)[..|b|] == b;
  }
}
