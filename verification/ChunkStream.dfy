/**
  Length-prefixed chunk streams over connections that read and write in pieces
  (src/agent_container/broker/frame.py:121-212, github_broker_protocol.py:192-215).
 */
module ByteStreams {
  import opened Wrappers
  import opened Bytes

  // The reading end: the bytes the peer will have sent before it closes.
  class Source {
    var unread: seq<Byte>
    const faulty: bool

    constructor (bytes: seq<Byte>, faulty: bool)
      ensures unread == bytes && this.faulty == faulty
    {
      unread := bytes;
      this.faulty := faulty;
    }

    // At least one byte and at most `size`, unless the stream has ended or failed.
    method Read(size: nat) returns (r: Result<seq<Byte>>)
      requires size > 0
      modifies this
      ensures r.Ok? ==> |r.value| <= size && old(unread) == r.value + unread && (r.value == [] ==> unread == [])
      ensures r.Refused? ==> faulty && unread == old(unread)
    {
      var fails: bool := *;
      if faulty && fails {
        return Refused;
      }
      if unread == [] {
        return Ok([]);
      }
      var k: nat :| 1 <= k <= size && k <= |unread|;
      r := Ok(unread[..k]);
      unread := unread[k..];
    }
  }

  // The writing end: the bytes that have gone out.
  class Sink {
    var written: seq<Byte>
    const faulty: bool

    constructor (faulty: bool)
      ensures written == [] && this.faulty == faulty
    {
      written := [];
      this.faulty := faulty;
    }

    // Takes at least one byte, but perhaps not all.
    method Write(bytes: seq<Byte>) returns (r: Result<nat>)
      requires bytes != []
      modifies this
      ensures r.Ok? ==> 1 <= r.value <= |bytes| && written == old(written) + bytes[..r.value]
      ensures r.Refused? ==> faulty && written == old(written)
    {
      var fails: bool := *;
      if faulty && fails {
        return Refused;
      }
      var k: nat :| 1 <= k <= |bytes|;
      written := written + bytes[..k];
      return Ok(k);
    }
  }
}

module ChunkStream {
  import opened Wrappers
  import opened Bytes
  import opened ByteStreams

  const HEADER_BYTES := 4
  const MAX_STREAM_CHUNK_BYTES: nat := 1_048_576

  // ---- The format ----

  function Be32(n: nat): (h: seq<Byte>)
    ensures |h| == HEADER_BYTES
  {
    [n / 0x100_0000 % 256, n / 0x1_0000 % 256, n / 0x100 % 256, n % 256]
  }

  function FromBe32(h: seq<Byte>): nat
    requires |h| == HEADER_BYTES
  {
    h[0] as int * 0x100_0000 + h[1] as int * 0x1_0000 + h[2] as int * 0x100 + h[3] as int
  }

  // Four bytes, the most significant one first.
  lemma Be32Is(n: nat)
    requires n < 0x1_0000_0000
    ensures var h := Be32(n);
            |h| == 4 && h[0] as int * 16_777_216 + h[1] as int * 65_536 + h[2] as int * 256 + h[3] as int == n
  {
    Be32RoundTrip(n);
  }

  lemma Be32RoundTrip(n: nat)
    requires n < 0x1_0000_0000
    ensures FromBe32(Be32(n)) == n
  {
    var a, b := n / 0x100, n / 0x1_0000;
    assert n == 0x100 * a + n % 0x100;
    assert a == 0x100 * (a / 0x100) + a % 0x100 && a / 0x100 == b;
    assert b == 0x100 * (b / 0x100) + b % 0x100 && b / 0x100 == n / 0x100_0000;
  }

  function Framed(chunks: seq<seq<Byte>>): seq<Byte> {
    if chunks == [] then [] else Be32(|chunks[0]|) + chunks[0] + Framed(chunks[1..])
  }

  // The chunks, then an empty one to end the stream.
  function EncodeChunks(chunks: seq<seq<Byte>>): seq<Byte> {
    Framed(chunks) + Be32(0)
  }

  predicate ChunkOk(chunk: seq<Byte>) {
    1 <= |chunk| <= MAX_STREAM_CHUNK_BYTES
  }

  predicate ChunksOk(chunks: seq<seq<Byte>>) {
    forall i :: 0 <= i < |chunks| ==> ChunkOk(chunks[i])
  }

  datatype Decoded = Decoded(chunks: seq<seq<Byte>>, rest: seq<Byte>)

  // What a reader that has already accepted `transferred` bytes makes of `b`.
  function DecodeChunks(b: seq<Byte>, transferred: nat, maximum: nat, initialEof: bool): Result<Decoded>
    decreases |b|
  {
    if b == [] && initialEof && transferred == 0 then Ok(Decoded([], []))
    else if |b| < HEADER_BYTES then Refused
    else
      var length := FromBe32(b[..HEADER_BYTES]);
      if length == 0 then Ok(Decoded([], b[HEADER_BYTES..]))
      else if length > MAX_STREAM_CHUNK_BYTES || transferred + length > maximum
        || |b| - HEADER_BYTES < length then Refused
      else
        match DecodeChunks(b[HEADER_BYTES + length..], transferred + length, maximum, initialEof)
        case Refused => Refused
        case Ok(d) => Ok(Decoded([b[HEADER_BYTES..HEADER_BYTES + length]] + d.chunks, d.rest))
  }

  // ---- What the format promises ----

  // One chunk is read exactly when it has at most 1 MiB and stays within the maximum.
  lemma OneChunk(chunk: seq<Byte>, tail: seq<Byte>, transferred: nat, maximum: nat, initialEof: bool)
    requires 0 < |chunk| < 0x1_0000_0000
    ensures DecodeChunks(Be32(|chunk|) + chunk + tail, transferred, maximum, initialEof)
            == if |chunk| > 1_048_576 || transferred + |chunk| > maximum then Refused
               else match DecodeChunks(tail, transferred + |chunk|, maximum, initialEof)
                    case Refused => Refused
                    case Ok(d) => Ok(Decoded([chunk] + d.chunks, d.rest))
  {
    var b := Be32(|chunk|) + chunk + tail;
    Be32RoundTrip(|chunk|);
    hide FromBe32, Be32;
    assert b[..HEADER_BYTES] == Be32(|chunk|);
    assert b[HEADER_BYTES..HEADER_BYTES + |chunk|] == chunk && b[HEADER_BYTES + |chunk|..] == tail;
  }

  // A stream is read back exactly when every chunk is acceptable and they fit together.
  lemma {:induction false} RoundTrip(chunks: seq<seq<Byte>>, tail: seq<Byte>, transferred: nat, maximum: nat,
                                     initialEof: bool)
    requires ChunksOk(chunks)
    ensures DecodeChunks(EncodeChunks(chunks) + tail, transferred, maximum, initialEof)
            == if transferred + |Flatten(chunks)| <= maximum || chunks == [] then Ok(Decoded(chunks, tail)) else Refused
    decreases |chunks|
  {
    var b := EncodeChunks(chunks) + tail;
    hide FromBe32, Be32;
    if chunks == [] {
      assert b[..HEADER_BYTES] == Be32(0) && b[HEADER_BYTES..] == tail;
      Be32RoundTrip(0);
    } else {
      var n := |chunks[0]|;
      assert ChunkOk(chunks[0]);
      Be32RoundTrip(n);
      assert b[..HEADER_BYTES] == Be32(n);
      assert b[HEADER_BYTES..HEADER_BYTES + n] == chunks[0];
      assert b[HEADER_BYTES + n..] == EncodeChunks(chunks[1..]) + tail;
      RoundTrip(chunks[1..], tail, transferred + n, maximum, initialEof);
      assert chunks == [chunks[0]] + chunks[1..];
      if chunks[1..] == [] {
        assert Flatten(chunks[1..]) == [];
      }
    }
  }

  // Whatever is read back is what those chunks are written as.
  lemma {:induction false} DecodesOnlyEncodings(b: seq<Byte>, transferred: nat, maximum: nat, initialEof: bool)
    requires DecodeChunks(b, transferred, maximum, initialEof).Ok?
    ensures var d := DecodeChunks(b, transferred, maximum, initialEof).value;
            && ChunksOk(d.chunks) && (d.chunks == [] || transferred + |Flatten(d.chunks)| <= maximum)
            && (b == EncodeChunks(d.chunks) + d.rest
               || (b == [] && initialEof && transferred == 0 && d == Decoded([], [])))
    decreases |b|
  {
    hide FromBe32, Be32, EncodeChunks, Flatten;
    NoBytes();
    if |b| >= HEADER_BYTES {
      var length := FromBe32(b[..HEADER_BYTES]);
      ToBe32(b[..HEADER_BYTES]);
      if length != 0 {
        var rest := b[HEADER_BYTES + length..];
        DecodesOnlyEncodings(rest, transferred + length, maximum, initialEof);
        var d := DecodeChunks(rest, transferred + length, maximum, initialEof).value;
        OneMoreChunk(b, length, d);
      } else {
        NoChunk(b);
      }
    }
  }

  lemma OneMoreChunk(b: seq<Byte>, length: nat, d: Decoded)
    requires HEADER_BYTES + length <= |b| && b[..HEADER_BYTES] == Be32(length)
    requires b[HEADER_BYTES + length..] == EncodeChunks(d.chunks) + d.rest
    ensures var chunks := [b[HEADER_BYTES..HEADER_BYTES + length]] + d.chunks;
            b == EncodeChunks(chunks) + d.rest && |Flatten(chunks)| == length + |Flatten(d.chunks)|
  {
    hide Be32;
    var chunk := b[HEADER_BYTES..HEADER_BYTES + length];
    var chunks := [chunk] + d.chunks;
    assert chunks[1..] == d.chunks;
    assert b == b[..HEADER_BYTES] + chunk + b[HEADER_BYTES + length..];
  }

  lemma NoChunk(b: seq<Byte>)
    requires HEADER_BYTES <= |b| && b[..HEADER_BYTES] == Be32(0)
    ensures b == EncodeChunks([]) + b[HEADER_BYTES..] && Flatten([]) == []
  {
  }

  lemma NoBytes()
    ensures Flatten([]) == []
  {
  }

  lemma ToBe32(h: seq<Byte>)
    requires |h| == HEADER_BYTES
    ensures Be32(FromBe32(h)) == h && FromBe32(h) < 0x1_0000_0000
  {
    var n := FromBe32(h);
    var a := h[0] as int * 0x1_0000 + h[1] as int * 0x100 + h[2] as int;
    var b := h[0] as int * 0x100 + h[1] as int;
    assert n == 0x100 * a + h[3] && n / 0x100 == a && n % 0x100 == h[3];
    assert a == 0x100 * b + h[2] && n / 0x1_0000 == b && a % 0x100 == h[2];
    assert n / 0x100_0000 == h[0] && b % 0x100 == h[1];
  }

  // A stream that was cut short anywhere is never taken for a whole one.
  lemma {:induction false} CutStreamsAreRefused(chunks: seq<seq<Byte>>, k: nat, transferred: nat, maximum: nat,
                                                initialEof: bool)
    requires ChunksOk(chunks) && k < |EncodeChunks(chunks)|
    requires k == 0 ==> !(initialEof && transferred == 0)
    ensures DecodeChunks(EncodeChunks(chunks)[..k], transferred, maximum, initialEof).Refused?
    decreases |chunks|
  {
    var b := EncodeChunks(chunks)[..k];
    hide FromBe32, Be32;
    if k >= HEADER_BYTES {
      assert chunks != [];
      var n := |chunks[0]|;
      assert ChunkOk(chunks[0]);
      Be32RoundTrip(n);
      assert b[..HEADER_BYTES] == Be32(n);
      if HEADER_BYTES + n <= k {
        assert EncodeChunks(chunks)[HEADER_BYTES + n..] == EncodeChunks(chunks[1..]);
        assert b[HEADER_BYTES + n..] == EncodeChunks(chunks[1..])[..k - HEADER_BYTES - n];
        CutStreamsAreRefused(chunks[1..], k - HEADER_BYTES - n, transferred + n, maximum, initialEof);
      }
    }
  }

  // ---- The writer ----

  // `_write_fully`.
  method WriteFully(stream: Sink, frame: seq<Byte>) returns (ok: bool, ghost sent: seq<Byte>)
    modifies stream
    ensures stream.written == old(stream.written) + sent && sent <= frame
    ensures ok <==> sent == frame
    ensures !ok ==> stream.faulty
  {
    var offset := 0;
    while offset < |frame|
      invariant 0 <= offset <= |frame|
      invariant stream.written == old(stream.written) + frame[..offset]
    {
      var written := stream.Write(frame[offset..]);
      if written.Refused? {
        return false, frame[..offset];
      }
      assert frame[..offset] + frame[offset..][..written.value] == frame[..offset + written.value];
      offset := offset + written.value;
    }
    assert frame[..offset] == frame;
    return true, frame;
  }

  lemma {:induction false} FramedConcat(a: seq<seq<Byte>>, b: seq<seq<Byte>>)
    ensures Framed(a + b) == Framed(a) + Framed(b)
  {
    hide Be32;
    if a == [] {
      assert a + b == b;
    } else {
      assert (a + b)[1..] == a[1..] + b;
      FramedConcat(a[1..], b);
    }
  }

  lemma FramedNext(chunks: seq<seq<Byte>>, i: nat)
    requires i < |chunks|
    ensures Framed(chunks[..i + 1]) == Framed(chunks[..i]) + Be32(|chunks[i]|) + chunks[i]
    ensures Flatten(chunks[..i + 1]) == Flatten(chunks[..i]) + chunks[i]
    ensures Framed(chunks[..i + 1]) <= Framed(chunks)
  {
    hide Be32;
    assert chunks[..i + 1] == chunks[..i] + [chunks[i]];
    FramedConcat(chunks[..i], [chunks[i]]);
    FlattenConcat(chunks[..i], [chunks[i]]);
    FlattenOne(chunks[i]);
    assert Framed([chunks[i]]) == Be32(|chunks[i]|) + chunks[i];
    assert chunks == chunks[..i + 1] + chunks[i + 1..];
    FramedConcat(chunks[..i + 1], chunks[i + 1..]);
  }

  // `sent` is the start of a stream that was cut off before its end.
  ghost predicate Cut(chunks: seq<seq<Byte>>, sent: seq<Byte>) {
    exists good: seq<seq<Byte>> :: good <= chunks && ChunksOk(good) && sent < EncodeChunks(good)
  }

  lemma CutBetween(chunks: seq<seq<Byte>>, i: nat, part: seq<Byte>)
    requires i <= |chunks| && ChunksOk(chunks[..i])
    requires part == [] || (part < Be32(0))
             || (i < |chunks| && ChunkOk(chunks[i]) && part <= Be32(|chunks[i]|) + chunks[i])
    ensures Cut(chunks, Framed(chunks[..i]) + part)
  {
    hide Be32, Framed;
    if part == [] || part < Be32(0) {
      assert Framed(chunks[..i]) + part < EncodeChunks(chunks[..i]);
    } else {
      FramedNext(chunks, i);
      var whole := Be32(|chunks[i]|) + chunks[i];
      assert Framed(chunks[..i]) + whole == Framed(chunks[..i + 1]);
      assert whole == part + whole[|part|..];
      assert Framed(chunks[..i + 1]) == (Framed(chunks[..i]) + part) + whole[|part|..];
      assert Framed(chunks[..i]) + part < EncodeChunks(chunks[..i + 1]);
    }
  }

  // `write_chunk_stream`.  `whole` says that the iterator of chunks ended
  // without raising an exception.
  method WriteChunkStream(stream: Sink, chunks: seq<seq<Byte>>, whole: bool) returns (r: Result<nat>)
    modifies stream
    ensures r.Ok? ==>
              && whole && ChunksOk(chunks) && r.value == |Flatten(chunks)|
              && stream.written == old(stream.written) + EncodeChunks(chunks)
    ensures r.Refused? ==>
              exists sent :: stream.written == old(stream.written) + sent && Cut(chunks, sent)
    ensures !stream.faulty && whole && ChunksOk(chunks) ==> r.Ok?
  {
    hide Be32, Flatten, Framed, Cut, EncodeChunks;
    var transferred := 0;
    ghost var before := stream.written;
    var ok: bool;
    ghost var sent: seq<Byte>;
    assert chunks[..0] == [];
    NothingFramed();
    for i := 0 to |chunks|
      invariant transferred == |Flatten(chunks[..i])| && ChunksOk(chunks[..i])
      invariant stream.written == before + Framed(chunks[..i])
    {
      var chunk := chunks[i];
      ghost var done := Framed(chunks[..i]);
      FramedNext(chunks, i);
      if !ChunkOk(chunk) {
        CutBetween(chunks, i, []);
        assert stream.written == before + (done + []);
        return Refused;
      }
      ok, sent := WriteFully(stream, Be32(|chunk|));
      if !ok {
        CutBetween(chunks, i, sent);
        assert stream.written == before + (done + sent);
        return Refused;
      }
      ok, sent := WriteFully(stream, chunk);
      if !ok {
        CutBetween(chunks, i, Be32(|chunk|) + sent);
        assert stream.written == before + (done + (Be32(|chunk|) + sent));
        return Refused;
      }
      assert stream.written == before + (done + Be32(|chunk|) + chunk);
      transferred := transferred + |chunk|;
    }
    assert chunks[..|chunks|] == chunks;
    if !whole {
      CutBetween(chunks, |chunks|, []);
      assert stream.written == before + (Framed(chunks) + []);
      return Refused;
    }
    ok, sent := WriteFully(stream, Be32(0));
    if !ok {
      CutBetween(chunks, |chunks|, sent);
      assert stream.written == before + (Framed(chunks) + sent);
      return Refused;
    }
    assert stream.written == before + EncodeChunks(chunks) by {
      Ending(chunks);
      assert stream.written == before + (Framed(chunks) + Be32(0));
    }
    return Ok(transferred);
  }

  lemma NothingFramed()
    ensures Framed([]) == [] && Flatten([]) == []
  {
  }

  lemma Ending(chunks: seq<seq<Byte>>)
    ensures EncodeChunks(chunks) == Framed(chunks) + Be32(0)
  {
  }

  // ---- The reader ----

  // `read_exact`.
  method ReadExact(stream: Source, size: nat, initialEof: bool) returns (r: Result<seq<Byte>>)
    modifies stream
    ensures r.Ok? ==> old(stream.unread) == r.value + stream.unread
    ensures r.Ok? ==> |r.value| == size || (r.value == [] && initialEof && stream.unread == [])
    ensures !stream.faulty ==> (r.Ok? <==> size <= |old(stream.unread)| || (initialEof && old(stream.unread) == []))
  {
    var output: seq<Byte> := [];
    while |output| < size
      invariant |output| <= size && old(stream.unread) == output + stream.unread
    {
      var chunk := stream.Read(size - |output|);
      if chunk.Refused? {
        return Refused;
      }
      if chunk.value == [] {
        if initialEof && output == [] {
          return Ok([]);
        }
        return Refused;
      }
      output := output + chunk.value;
    }
    return Ok(output);
  }

  // `iter_chunk_stream`, with the chunks it yields before it ends or raises.
  method IterChunkStream(stream: Source, maximum: nat, initialEof: bool) returns (chunks: seq<seq<Byte>>, ok: bool)
    modifies stream
    ensures ok ==> DecodeChunks(old(stream.unread), 0, maximum, initialEof) == Ok(Decoded(chunks, stream.unread))
    ensures !ok ==> Framed(chunks) <= old(stream.unread)
    ensures ChunksOk(chunks) && (chunks == [] || |Flatten(chunks)| <= maximum)
    ensures !stream.faulty ==> (ok <==> DecodeChunks(old(stream.unread), 0, maximum, initialEof).Ok?)
  {
    hide Be32, FromBe32, Flatten, Framed;
    var transferred := 0;
    chunks := [];
    ghost var all := stream.unread;
    NothingFramed();
    BehindNothing(DecodeChunks(all, 0, maximum, initialEof));
    while true
      invariant ChunksOk(chunks) && transferred == |Flatten(chunks)| && (chunks == [] || transferred <= maximum)
      invariant all == Framed(chunks) + stream.unread
      invariant DecodeChunks(all, 0, maximum, initialEof)
                == Behind(chunks, DecodeChunks(stream.unread, transferred, maximum, initialEof))
      decreases |stream.unread|
    {
      ghost var before := stream.unread;
      var header := ReadExact(stream, HEADER_BYTES, initialEof && transferred == 0);
      if header.Refused? {
        FramedPrefix(chunks, before);
        return chunks, false;
      }
      if header.value == [] {
        assert before == [] && chunks + [] == chunks;
        return chunks, true;
      }
      assert before[..HEADER_BYTES] == header.value && before[HEADER_BYTES..] == stream.unread;
      var length := FromBe32(header.value);
      if length == 0 {
        assert chunks + [] == chunks;
        return chunks, true;
      }
      if length > MAX_STREAM_CHUNK_BYTES {
        FramedPrefix(chunks, before);
        return chunks, false;
      }
      transferred := transferred + length;
      if transferred > maximum {
        FramedPrefix(chunks, before);
        return chunks, false;
      }
      var chunk := ReadExact(stream, length, false);
      if chunk.Refused? {
        FramedPrefix(chunks, before);
        return chunks, false;
      }
      ReadOne(chunks, before, header.value, chunk.value, stream.unread, transferred, maximum, initialEof);
      chunks := chunks + [chunk.value];
    }
  }

  function Behind(chunks: seq<seq<Byte>>, r: Result<Decoded>): Result<Decoded> {
    match r
    case Refused => Refused
    case Ok(d) => Ok(Decoded(chunks + d.chunks, d.rest))
  }

  lemma FramedPrefix(chunks: seq<seq<Byte>>, rest: seq<Byte>)
    ensures Framed(chunks) <= Framed(chunks) + rest
  {
    hide Framed;
  }

  lemma BehindNothing(r: Result<Decoded>)
    ensures Behind([], r) == r
  {
    if r.Ok? {
      assert [] + r.value.chunks == r.value.chunks;
    }
  }

  lemma ReadOne(chunks: seq<seq<Byte>>, before: seq<Byte>, header: seq<Byte>, chunk: seq<Byte>, rest: seq<Byte>,
                transferred: nat, maximum: nat, initialEof: bool)
    requires |header| == HEADER_BYTES && FromBe32(header) == |chunk| && ChunkOk(chunk)
    requires before == header + (chunk + rest) && |chunk| <= transferred <= maximum
    ensures Framed(chunks + [chunk]) + rest == Framed(chunks) + before
    ensures |Flatten(chunks + [chunk])| == |Flatten(chunks)| + |chunk|
    ensures Behind(chunks, DecodeChunks(before, transferred - |chunk|, maximum, initialEof))
            == Behind(chunks + [chunk], DecodeChunks(rest, transferred, maximum, initialEof))
  {
    hide Be32, FromBe32, Framed, Flatten, DecodeChunks, Behind;
    ToBe32(header);
    FramedConcat(chunks, [chunk]);
    FramedOne(chunk);
    FlattenConcat(chunks, [chunk]);
    FlattenOne(chunk);
    assert Framed(chunks) + (header + chunk) + rest == Framed(chunks) + (header + (chunk + rest));
    DecodeOne(before, header, chunk, rest, transferred, maximum, initialEof);
    BehindOneMore(chunks, chunk, DecodeChunks(rest, transferred, maximum, initialEof));
  }

  lemma FramedOne(chunk: seq<Byte>)
    ensures Framed([chunk]) == Be32(|chunk|) + chunk
  {
    hide Be32;
    assert Framed([chunk]) == Be32(|chunk|) + chunk + Framed([]);
  }

  lemma DecodeOne(before: seq<Byte>, header: seq<Byte>, chunk: seq<Byte>, rest: seq<Byte>,
                  transferred: nat, maximum: nat, initialEof: bool)
    requires |header| == HEADER_BYTES && FromBe32(header) == |chunk| && ChunkOk(chunk)
    requires before == header + (chunk + rest) && |chunk| <= transferred <= maximum
    ensures DecodeChunks(before, transferred - |chunk|, maximum, initialEof)
            == Behind([chunk], DecodeChunks(rest, transferred, maximum, initialEof))
  {
    hide FromBe32;
    assert before[..HEADER_BYTES] == header && before[HEADER_BYTES..HEADER_BYTES + |chunk|] == chunk;
    assert before[HEADER_BYTES + |chunk|..] == rest;
  }

  lemma BehindOneMore(chunks: seq<seq<Byte>>, chunk: seq<Byte>, r: Result<Decoded>)
    ensures Behind(chunks, Behind([chunk], r)) == Behind(chunks + [chunk], r)
  {
    if r.Ok? {
      assert chunks + [chunk] + r.value.chunks == chunks + ([chunk] + r.value.chunks);
    }
  }
}
