/**
  The forms of headers, stateless requests and deletions, in their bytes
  (src/agent_container/git_protocol.py:57-66, git_remote_helper.py:63-140).
 */
module WireForms {
  import opened Wrappers
  import opened Bytes
  import opened PktLine
  import opened ReceivePackGate
  import opened DeleteOnlyPush
  import opened UploadPack
  import opened Separators

  // ---- Headers ----

  // A hexadecimal digit of this value, in either case.
  ghost predicate IsDigit(b: Byte, v: int) {
    0 <= v < 16 && (b == "0123456789abcdef"[v] as int || b == "0123456789ABCDEF"[v] as int)
  }

  ghost predicate IsHeaderOf(h: seq<Byte>, n: int) {
    |h| == 4 && exists a, b, c, d ::
      IsDigit(h[0], a) && IsDigit(h[1], b) && IsDigit(h[2], c) && IsDigit(h[3], d)
      && n == a * 4096 + b * 256 + c * 16 + d
  }

  lemma DigitIs(b: Byte, v: int)
    ensures IsDigit(b, v) <==> IsHexDigit(b) && HexValue(b) == v
  {
  }

  lemma HeaderIs(h: seq<Byte>, n: int)
    ensures IsHeader(h) && HeaderValue(h) == n <==> IsHeaderOf(h, n)
  {
    if |h| == 4 {
      forall i: nat, v: int | i < 4 ensures IsDigit(h[i], v) <==> IsHexDigit(h[i]) && HexValue(h[i]) == v {
        DigitIs(h[i], v);
      }
      hide IsHexDigit, HexValue, IsDigit;
      if IsHeader(h) {
        assert IsDigit(h[0], HexValue(h[0])) && IsDigit(h[1], HexValue(h[1]))
            && IsDigit(h[2], HexValue(h[2])) && IsDigit(h[3], HexValue(h[3]));
      }
    }
  }

  // ---- Stateless requests ----

  // A packet behind its length, or a delimiter, which has no content.
  ghost predicate IsPiece(p: seq<Byte>) {
    && 4 <= |p| <= 65_520
    && (IsHeaderOf(p[..4], |p|) || (|p| == 4 && IsHeaderOf(p, 1)))
  }

  // Pieces and a flush.
  ghost predicate IsRequest(b: seq<Byte>, pieces: seq<seq<Byte>>)
    decreases |pieces|
  {
    if pieces == [] then IsHeaderOf(b, 0)
    else IsPiece(pieces[0]) && pieces[0] <= b && IsRequest(b[|pieces[0]|..], pieces[1..])
  }

  lemma PieceIs(p: seq<Byte>)
    requires 4 <= |p| <= 65_520
    ensures IsPiece(p) <==>
              IsHeader(p[..4]) && (HeaderValue(p[..4]) == |p| || (HeaderValue(p[..4]) == 1 && |p| == 4))
  {
    HeaderIs(p[..4], |p|);
    HeaderIs(p[..4], 1);
    if |p| == 4 {
      assert p[..4] == p;
    }
    hide IsHeader, HeaderValue, IsHeaderOf;
  }

  lemma {:induction false} ReadIsARequest(input: seq<Byte>, output: nat, packets: nat) returns (pieces: seq<seq<Byte>>)
    requires RequestEnd(input, output, packets).Some? && packets <= 65_536
    ensures var n := RequestEnd(input, output, packets).value;
            && n <= |input| && IsRequest(input[..n], pieces)
            && packets + |pieces| <= 65_536 && output + n <= 16_777_216
    decreases |input|
  {
    hide *;
    var size := SizeOf(input, output, packets);
    if size == 0 {
      pieces := [];
      FlushIsARequest(input[..4]);
    } else {
      var rest := ReadIsARequest(input[size..], output + size, packets + 1);
      var n := RequestEnd(input[size..], output + size, packets + 1).value;
      pieces := [input[..size]] + rest;
      PieceInFront(input, size, n, rest);
    }
  }

  lemma FlushIsARequest(h: seq<Byte>)
    ensures IsRequest(h, []) <==> IsHeader(h) && HeaderValue(h) == 0
  {
    HeaderIs(h, 0);
    hide IsHeader, HeaderValue, IsHeaderOf;
  }

  // How much a request takes in front of its rest; a flush is all of it.
  lemma SizeOf(input: seq<Byte>, output: nat, packets: nat) returns (size: nat)
    requires RequestEnd(input, output, packets).Some? && packets <= 65_536
    ensures |input| >= 4 && IsHeader(input[..4])
    ensures var length := HeaderValue(input[..4]);
            && (size == 0 <==> length == 0) && (size == 0 || size == length || (size == 4 && length == 1))
    ensures size == 0 ==> RequestEnd(input, output, packets) == Some(4) && output + 4 <= 16_777_216
    ensures size != 0 ==>
              && 4 <= size <= 65_520 && size <= |input| && packets < 65_536
              && var rest := RequestEnd(input[size..], output + size, packets + 1);
                 rest.Some? && RequestEnd(input, output, packets).value == size + rest.value
  {
    RequestStep(input, output, packets);
    hide RequestEnd, HeaderValue, IsHeader;
    var length := HeaderValue(input[..4]);
    size := if length == 1 then 4 else length;
  }

  lemma EndFolds(input: seq<Byte>, size: nat, n: nat, output: nat, packets: nat)
    requires 4 <= size <= 65_520 && size <= |input| && IsHeader(input[..4])
    requires HeaderValue(input[..4]) == size || (HeaderValue(input[..4]) == 1 && size == 4)
    requires packets < 65_536 && output + size <= 16_777_216
    requires RequestEnd(input[size..], output + size, packets + 1) == Some(n)
    ensures RequestEnd(input, output, packets) == Some(size + n)
  {
    RequestStep(input, output, packets);
    hide RequestEnd, HeaderValue, IsHeader;
  }

  lemma PieceInFront(input: seq<Byte>, size: nat, n: nat, rest: seq<seq<Byte>>)
    requires 4 <= size <= 65_520 && size + n <= |input| && IsHeader(input[..4])
    requires HeaderValue(input[..4]) == size || (HeaderValue(input[..4]) == 1 && size == 4)
    requires IsRequest(input[size..][..n], rest)
    ensures IsRequest(input[..size + n], [input[..size]] + rest)
  {
    var p := input[..size];
    assert p[..4] == input[..4];
    PieceIs(p);
    hide IsHeader, HeaderValue, IsHeaderOf, IsPiece;
    assert input[..size + n][size..] == input[size..][..n];
    assert ([p] + rest)[1..] == rest;
  }

  lemma {:induction false} RequestIsRead(input: seq<Byte>, n: nat, pieces: seq<seq<Byte>>, output: nat, packets: nat)
    requires n <= |input| && IsRequest(input[..n], pieces)
    requires packets + |pieces| <= 65_536 && output + n <= 16_777_216
    ensures RequestEnd(input, output, packets) == Some(n)
    decreases |pieces|
  {
    hide *;
    if pieces == [] {
      FlushIsARequest(input[..n]);
      FourBytes(input[..n]);
      assert input[..n] == input[..4];
      FlushEnds(input, output, packets);
    } else {
      var size := |pieces[0]|;
      Pieces(input[..n], pieces);
      assert input[..n][..size] == input[..size] && input[..size][..4] == input[..4];
      assert input[..n][size..] == input[size..][..n - size];
      RequestIsRead(input[size..], n - size, pieces[1..], output + size, packets + 1);
      EndFolds(input, size, n - size, output, packets);
    }
  }

  lemma FlushEnds(input: seq<Byte>, output: nat, packets: nat)
    requires |input| >= 4 && IsHeader(input[..4]) && HeaderValue(input[..4]) == 0 && output + 4 <= 16_777_216
    ensures RequestEnd(input, output, packets) == Some(4)
  {
  }

  lemma FourBytes(h: seq<Byte>)
    requires IsHeader(h)
    ensures |h| == 4
  {
  }

  lemma Pieces(b: seq<Byte>, pieces: seq<seq<Byte>>)
    requires pieces != [] && IsRequest(b, pieces)
    ensures var size := |pieces[0]|;
            && 4 <= size <= 65_520 && size <= |b| && IsHeader(b[..size][..4])
            && (HeaderValue(b[..size][..4]) == size || (HeaderValue(b[..size][..4]) == 1 && size == 4))
            && IsRequest(b[size..], pieces[1..])
  {
    PieceIs(pieces[0]);
    assert b[..|pieces[0]|] == pieces[0];
    hide IsHeader, HeaderValue, IsHeaderOf;
  }

  // Exactly the requests of at most 65,536 pieces and 16 MiB are read.
  lemma RequestIs(input: seq<Byte>, n: nat)
    ensures RequestEnd(input, 0, 0) == Some(n)
            <==> n <= |input| && n <= 16_777_216
                 && exists pieces :: IsRequest(input[..n], pieces) && |pieces| <= 65_536
  {
    hide RequestEnd, IsRequest;
    if RequestEnd(input, 0, 0) == Some(n) {
      var pieces := ReadIsARequest(input, 0, 0);
      assert IsRequest(input[..n], pieces);
    }
    if n <= |input| && n <= 16_777_216 {
      forall pieces | IsRequest(input[..n], pieces) && |pieces| <= 65_536 ensures RequestEnd(input, 0, 0) == Some(n) {
        RequestIsRead(input, n, pieces, 0, 0);
      }
    }
  }

  // ---- Deletions ----

  // An object id other than zero, the zero id of the same length and a ref, with single
  // spaces between them.
  ghost predicate IsDeletion(text: seq<Byte>, n: int, ref: Ref) {
    exists old_oid, new_oid ::
      && OidsOk(old_oid, new_oid, n) && text == old_oid + [32] + new_oid + [32] + ref
      && [114, 101, 102, 115, 47] <= ref && 32 !in ref
  }

  ghost predicate OidsOk(old_oid: seq<Byte>, new_oid: seq<Byte>, n: int) {
    && (n == 40 || n == 64) && |old_oid| == n == |new_oid|
    && (forall i :: 0 <= i < n ==> IsHexDigit(old_oid[i]) && new_oid[i] == 48)
    && (exists i :: 0 <= i < n && old_oid[i] != 48)
  }

  // What a packet deletes: the first one has capabilities behind a zero byte, no other
  // has one, and a line feed at the end does not count.
  lemma DeletionIs(packet: seq<Byte>, first: bool, n: nat, ref: Ref)
    ensures var line := if packet != [] && packet[|packet| - 1] == 10 then packet[..|packet| - 1] else packet;
            Deletes(packet, first) == Some(Deletion(n, ref)) <==>
              if first then exists text, raw ::
                              0 !in text && 0 !in raw && line == text + [0] + raw && IsDeletion(text, n, ref)
              else 0 !in line && IsDeletion(line, n, ref)
  {
    var line := StripLf(packet);
    hide Split, Find, IsDeletion;
    if first {
      if Deletes(packet, first).Some? {
        var k := Find(line, NUL);
        FieldsDelete(line[..k], n, ref);
        assert line == line[..k] + [0] + line[k + 1..];
      }
      forall text, raw | 0 !in text && 0 !in raw && line == text + [0] + raw
        ensures Deletes(packet, first) == DeletedBy(Split(text, SPACE))
        ensures DeletedBy(Split(text, SPACE)) == Some(Deletion(n, ref)) <==> IsDeletion(text, n, ref)
      {
        FirstDeletes(packet, line, text, raw);
        FieldsDelete(text, n, ref);
      }
    } else {
      FieldsDelete(line, n, ref);
    }
  }

  lemma FirstDeletes(packet: seq<Byte>, line: seq<Byte>, text: seq<Byte>, raw: seq<Byte>)
    requires line == StripLf(packet) == text + [0] + raw && 0 !in text && 0 !in raw
    ensures Deletes(packet, true) == DeletedBy(Split(text, SPACE))
  {
    FindBehind(text, NUL, raw);
    hide Split, Find, StripLf;
    assert line[|text|] == 0 && line[..|text|] == text && line[|text| + 1..] == raw;
  }

  function DeletedBy(parts: seq<seq<Byte>>): Option<Deletion> {
    if |parts| != 3 || |parts[0]| !in {40, 64} then None
    else if |parts[1]| != |parts[0]| || !IsHex(parts[0]) || !IsHex(parts[1])
      || parts[0] == Zeros(|parts[0]|) then None
    else if parts[1] != Zeros(|parts[1]|) || !StartsWith(parts[2], Ascii("refs/")) then None
    else Some(Deletion(|parts[0]|, parts[2]))
  }

  lemma FieldsDelete(text: seq<Byte>, n: nat, ref: Ref)
    ensures DeletedBy(Split(text, SPACE)) == Some(Deletion(n, ref)) <==> IsDeletion(text, n, ref)
  {
    var parts := Split(text, SPACE);
    hide Split, IsDeletion, DeletedBy;
    if DeletedBy(parts) == Some(Deletion(n, ref)) {
      DeletedFields(parts, n, ref);
      ThreeFields(text, parts[0], parts[1], ref, SPACE);
      DeletionOf(text, n, parts[0], parts[1], ref);
    }
    if IsDeletion(text, n, ref) {
      var old_oid, new_oid := OidsOf(text, n, ref);
      ThreeFields(text, old_oid, new_oid, ref, SPACE);
      FieldsDeleted([old_oid, new_oid, ref], n, ref);
    }
  }

  lemma DeletedFields(parts: seq<seq<Byte>>, n: nat, ref: Ref)
    requires DeletedBy(parts) == Some(Deletion(n, ref))
    ensures parts == [parts[0], parts[1], ref] && OidsOk(parts[0], parts[1], n)
    ensures [114, 101, 102, 115, 47] <= ref
  {
    assert Ascii("refs/") == [114, 101, 102, 115, 47];
    hide Ascii, IsHexDigit;
    SomeDigit(parts[0]);
  }

  lemma SomeDigit(oid: seq<Byte>)
    ensures oid == Zeros(|oid|) || exists i :: 0 <= i < |oid| && oid[i] != 48
  {
  }

  lemma FieldsDeleted(parts: seq<seq<Byte>>, n: nat, ref: Ref)
    requires |parts| == 3 && parts[2] == ref && OidsOk(parts[0], parts[1], n) && [114, 101, 102, 115, 47] <= ref
    ensures DeletedBy(parts) == Some(Deletion(n, ref))
  {
    assert Ascii("refs/") == [114, 101, 102, 115, 47];
    hide Ascii;
    assert parts[1] == Zeros(n);
    assert forall i :: 0 <= i < n ==> IsHexDigit(parts[1][i]);
    hide IsHexDigit;
  }

  lemma OidsOf(text: seq<Byte>, n: nat, ref: Ref) returns (old_oid: seq<Byte>, new_oid: seq<Byte>)
    requires IsDeletion(text, n, ref)
    ensures OidsOk(old_oid, new_oid, n) && text == old_oid + [32] + new_oid + [32] + ref
    ensures SPACE !in old_oid && SPACE !in new_oid && SPACE !in ref && [114, 101, 102, 115, 47] <= ref
  {
    old_oid, new_oid :|
      && OidsOk(old_oid, new_oid, n) && text == old_oid + [32] + new_oid + [32] + ref
      && [114, 101, 102, 115, 47] <= ref && 32 !in ref;
  }

  lemma DeletionOf(text: seq<Byte>, n: nat, old_oid: seq<Byte>, new_oid: seq<Byte>, ref: Ref)
    requires OidsOk(old_oid, new_oid, n) && text == old_oid + [32] + new_oid + [32] + ref
    requires SPACE !in ref && [114, 101, 102, 115, 47] <= ref
    ensures IsDeletion(text, n, ref)
  {
    hide OidsOk;
  }

  // ---- Commands that only delete ----

  lemma {:induction false} EncodedFits(b: seq<Byte>, packets: seq<seq<Byte>>)
    requires Encodes(b, packets)
    ensures |packets| < |b| && forall i :: 0 <= i < |packets| ==> |packets[i]| + 4 <= 65_535
    decreases |packets|
  {
    hide HeaderValue, IsHeader;
    if packets != [] {
      EncodedFits(b[|packets[0]| + 4..], packets[1..]);
      assert forall i :: 0 < i < |packets| ==> packets[i] == packets[1..][i - 1];
    }
  }

  // A single section of deletions, at least one, of distinct refs and under object ids
  // of one length.
  lemma DeleteOnlyIs(commands: seq<Byte>)
    ensures DeleteOnly(commands)
            <==> exists packets, n ::
                   && Encodes(commands, packets) && packets != [] && DeletedAs(packets, n)
                   && forall i, j :: 0 <= i < j < |packets| ==>
                                       Deletes(packets[i], i == 0) != Deletes(packets[j], j == 0)
  {
    hide Parse, Encodes, Deletes;
    assert commands[..|commands|] == commands;
    var parsed := Parse(commands, 0, 0, Unlimited(commands));
    if DeleteOnly(commands) {
      var packets := parsed.value.packets;
      DecodesExactlyTheGrammar(commands, packets, |commands|, Unlimited(commands));
      OneLength(packets);
    }
    forall packets, n: nat |
      && Encodes(commands, packets) && packets != [] && DeletedAs(packets, n)
      && forall i, j :: 0 <= i < j < |packets| ==> Deletes(packets[i], i == 0) != Deletes(packets[j], j == 0)
      ensures DeleteOnly(commands)
    {
      EncodedFits(commands, packets);
      DecodesExactlyTheGrammar(commands, packets, |commands|, Unlimited(commands));
      AllDelete(packets, n);
    }
  }

  ghost predicate DeletedAs(packets: seq<seq<Byte>>, n: nat) {
    forall i :: 0 <= i < |packets| ==> exists ref :: Deletes(packets[i], i == 0) == Some(Deletion(n, ref))
  }

  lemma OneLength(packets: seq<seq<Byte>>)
    requires DeletesAll(packets) && packets != []
    ensures Deletes(packets[0], true).Some? && DeletedAs(packets, Deletes(packets[0], true).value.oidLength)
    ensures forall i, j :: 0 <= i < j < |packets| ==> Deletes(packets[i], i == 0) != Deletes(packets[j], j == 0)
  {
    hide Deletes;
    assert DeletesAt(packets, 0);
    var n := Deletes(packets[0], true).value.oidLength;
    forall i | 0 <= i < |packets| ensures exists ref :: Deletes(packets[i], i == 0) == Some(Deletion(n, ref)) {
      assert DeletesAt(packets, i);
      assert Deletes(packets[i], i == 0) == Some(Deletion(n, Deletes(packets[i], i == 0).value.ref));
    }
    forall i, j | 0 <= i < j < |packets| ensures Deletes(packets[i], i == 0) != Deletes(packets[j], j == 0) {
      assert DeletesAt(packets, i) && DeletesAt(packets, j) && !SameDeletion(packets, i, j);
    }
  }

  lemma AllDelete(packets: seq<seq<Byte>>, n: nat)
    requires DeletedAs(packets, n) && packets != []
    requires forall i, j :: 0 <= i < j < |packets| ==> Deletes(packets[i], i == 0) != Deletes(packets[j], j == 0)
    ensures DeletesAll(packets)
  {
    hide Deletes;
    var first: Ref :| Deletes(packets[0], 0 == 0) == Some(Deletion(n, first));
    forall i | 0 <= i < |packets| ensures DeletesAt(packets, i) {
      var ref: Ref :| Deletes(packets[i], i == 0) == Some(Deletion(n, ref));
    }
    forall i, j | 0 <= i < j < |packets| ensures !SameDeletion(packets, i, j) {
      var a: Ref :| Deletes(packets[i], i == 0) == Some(Deletion(n, a));
      var b: Ref :| Deletes(packets[j], j == 0) == Some(Deletion(n, b));
    }
  }
}
