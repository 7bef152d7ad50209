/**
  A fetch through the broker: the request on its way to the remote, and the reply
  on its way back (src/agent_container/git_remote_helper.py:51-93, 156-201,
  github_git_transport.py:160-205, github_broker_transport.py:121-134, 248-271).
 */
module UploadPack {
  import opened Wrappers
  import opened Bytes
  import opened ByteStreams
  import opened PktLine
  import opened ChunkStream

  const MAX_STATELESS_REQUEST_BYTES: nat := 16 * 1024 * 1024
  const MAX_STATELESS_PACKETS: nat := 65_536
  const MAX_UPLOAD_PACK_RESPONSE_BYTES: nat := 8 * 1024 * 1024 * 1024
  const READ_CHUNK_BYTES: nat := 65_536

  const FLUSH: seq<Byte> := [48, 48, 48, 48]
  const RESPONSE_END: seq<Byte> := [48, 48, 48, 50]

  // ---- Reading the request from Git ----

  // What `read_stateless_request` makes of the input behind `output` bytes and
  // `packets` packets: how many bytes the rest of the request takes.
  function RequestEnd(input: seq<Byte>, output: nat, packets: nat): Option<nat>
    decreases |input|
  {
    if |input| < 4 || !IsHeader(input[..4]) || output + 4 > MAX_STATELESS_REQUEST_BYTES then None
    else
      var length := HeaderValue(input[..4]);
      if length == 0 then Some(4)
      else
        var size := if length == 1 then 4 else length;
        if size < 4 || size > 65_520 || |input| < size || output + size > MAX_STATELESS_REQUEST_BYTES
           || packets >= MAX_STATELESS_PACKETS
        then None
        else
          match RequestEnd(input[size..], output + size, packets + 1)
          case None => None
          case Some(n) => Some(size + n)
  }

  // `read_stateless_request`; `None` inside `Ok` is a clean end of input.
  method ReadStatelessRequest(stream: Source) returns (r: Result<Option<seq<Byte>>>)
    modifies stream
    ensures r.Ok? && r.value.Some? ==>
              && RequestEnd(old(stream.unread), 0, 0) == Some(|r.value.value|)
              && old(stream.unread) == r.value.value + stream.unread
    ensures r.Ok? && r.value.None? ==> old(stream.unread) == []
    ensures !stream.faulty && old(stream.unread) == [] ==> r == Ok(None)
    ensures !stream.faulty && old(stream.unread) != [] ==> (r.Ok? <==> RequestEnd(old(stream.unread), 0, 0).Some?)
  {
    hide HeaderValue, IsHeader, RequestEnd;
    var output: seq<Byte> := [];
    var packets := 0;
    ghost var all := stream.unread;
    ghost var whole := RequestEnd(all, 0, 0);
    while true
      invariant all == output + stream.unread && |output| <= MAX_STATELESS_REQUEST_BYTES
                && packets <= MAX_STATELESS_PACKETS
      invariant whole == Plus(|output|, RequestEnd(stream.unread, |output|, packets))
      decreases |stream.unread|
    {
      ghost var before := stream.unread;
      RequestStep(before, |output|, packets);
      var header := ReadExact(stream, 4, output == []);
      if header.Refused? {
        return Refused;
      }
      if header.value == [] {
        return Ok(None);
      }
      assert before[..4] == header.value && before[4..] == stream.unread;
      if !IsHeader(header.value) {
        return Refused;
      }
      var length := HeaderValue(header.value);
      output := output + header.value;
      if |output| > MAX_STATELESS_REQUEST_BYTES {
        return Refused;
      }
      if length == 0 {
        return Ok(Some(output));
      }
      if length == 1 {
        packets := packets + 1;
        if packets > MAX_STATELESS_PACKETS {
          return Refused;
        }
        continue;
      }
      if length < 4 {
        return Refused;
      }
      if length > 65_520 {
        return Refused;
      }
      var payload := ReadExact(stream, length - 4, false);
      if payload.Refused? {
        return Refused;
      }
      assert before[length..] == stream.unread;
      output := output + payload.value;
      if |output| > MAX_STATELESS_REQUEST_BYTES {
        return Refused;
      }
      packets := packets + 1;
      if packets > MAX_STATELESS_PACKETS {
        return Refused;
      }
    }
  }

  lemma RequestStep(input: seq<Byte>, output: nat, packets: nat)
    ensures |input| < 4 || !IsHeader(input[..4]) || output + 4 > MAX_STATELESS_REQUEST_BYTES ==>
              RequestEnd(input, output, packets).None?
    ensures |input| >= 4 && IsHeader(input[..4]) && output + 4 <= MAX_STATELESS_REQUEST_BYTES ==>
              var length := HeaderValue(input[..4]);
              var size := if length == 1 then 4 else length;
              && (length == 0 ==> RequestEnd(input, output, packets) == Some(4))
              && (length in {2, 3} || length > 65_520 ==> RequestEnd(input, output, packets).None?)
              && (length != 0 && (|input| < size || output + size > MAX_STATELESS_REQUEST_BYTES
                                  || packets >= MAX_STATELESS_PACKETS) ==>
                    RequestEnd(input, output, packets).None?)
              && (4 <= size <= 65_520 && size <= |input| && output + size <= MAX_STATELESS_REQUEST_BYTES
                  && packets < MAX_STATELESS_PACKETS ==>
                    RequestEnd(input, output, packets)
                      == Plus(size, RequestEnd(input[size..], output + size, packets + 1)))
  {
    hide HeaderValue, IsHeader;
  }

  function Plus(n: nat, r: Option<nat>): Option<nat> {
    match r
    case None => None
    case Some(m) => Some(n + m)
  }

  // Every request ends in a flush packet, so the transport accepts it.
  lemma {:induction false} RequestsEndInFlush(input: seq<Byte>, output: nat, packets: nat)
    requires RequestEnd(input, output, packets).Some?
    ensures var n := RequestEnd(input, output, packets).value;
            4 <= n <= |input| && output + n <= MAX_STATELESS_REQUEST_BYTES && EndsWith(input[..n], FLUSH)
    decreases |input|
  {
    hide HeaderValue, IsHeader, EndsWith;
    var length := HeaderValue(input[..4]);
    if length == 0 {
      OnlyZeros(input[..4]);
    } else {
      var size := if length == 1 then 4 else length;
      RequestsEndInFlush(input[size..], output + size, packets + 1);
      var n := RequestEnd(input[size..], output + size, packets + 1).value;
      SameEnd(input, size, n);
    }
  }

  lemma SameEnd(input: seq<Byte>, size: nat, n: nat)
    requires size + n <= |input| && n >= 4 && EndsWith(input[size..][..n], FLUSH)
    ensures EndsWith(input[..size + n], FLUSH)
  {
    assert input[..size + n][size + n - 4..] == input[size..][..n][n - 4..];
  }

  lemma OnlyZeros(h: seq<Byte>)
    requires IsHeader(h) && HeaderValue(h) == 0
    ensures h == FLUSH && EndsWith(h, FLUSH)
  {
    assert HexValue(h[0]) == HexValue(h[1]) == HexValue(h[2]) == HexValue(h[3]) == 0;
  }

  // ---- The request on its way to the remote ----

  // The client's slices of at most a chunk.
  function Slices(request: seq<Byte>): (chunks: seq<seq<Byte>>)
    ensures ChunksOk(chunks) && Flatten(chunks) == request
    decreases |request|
  {
    if request == [] then []
    else
      var n := if |request| < MAX_STREAM_CHUNK_BYTES then |request| else MAX_STREAM_CHUNK_BYTES;
      assert request == request[..n] + request[n..];
      [request[..n]] + Slices(request[n..])
  }

  // From Git's output to the broker's call of `rpc`: what arrives is what was
  // read, whole, and `rpc` takes it.
  method CarryRequest(stdin: Source, faulty: bool) returns (arrived: Option<seq<Byte>>)
    modifies stdin
    ensures arrived.Some? ==>
              && RequestEnd(old(stdin.unread), 0, 0) == Some(|arrived.value|)
              && arrived.value <= old(stdin.unread)
              // which is what `rpc` takes: a flush packet at the end, and no more than 16 MiB
              && 4 <= |arrived.value| <= 16_777_216
              && arrived.value[|arrived.value| - 4..] == [48, 48, 48, 48]
    ensures !stdin.faulty && !faulty ==> (arrived.Some? <==> RequestEnd(old(stdin.unread), 0, 0).Some?)
  {
    hide RequestEnd, Flatten, EncodeChunks, DecodeChunks, EndsWith;
    ghost var all := stdin.unread;
    RequestStep(all, 0, 0);
    var request := ReadStatelessRequest(stdin);
    if request.Refused? || request.value.None? {
      return None;
    }
    var bytes := request.value.value;
    RequestsEndInFlush(all, 0, 0);
    assert bytes == all[..|bytes|];
    EndsInFlush(bytes);
    var connection := new Sink(faulty);
    var chunks := Slices(bytes);
    var sent := WriteChunkStream(connection, chunks, true);
    assert [] + connection.written == connection.written;
    if sent.Ok? {
      ChunkStream.RoundTrip(chunks, [], 0, MAX_STATELESS_REQUEST_BYTES, true);
      assert EncodeChunks(chunks) + [] == EncodeChunks(chunks);
      assert connection.written == EncodeChunks(chunks);
    } else {
      CutStream(chunks, connection.written, MAX_STATELESS_REQUEST_BYTES, true);
    }
    var broker := new Source(connection.written, faulty);
    var received, ok := IterChunkStream(broker, MAX_STATELESS_REQUEST_BYTES, true);
    if !ok || Flatten(received) == [] {
      return None;
    }
    return Some(Flatten(received));
  }

  lemma EndsInFlush(body: seq<Byte>)
    ensures EndsWith(body, FLUSH) <==> |body| >= 4 && body[|body| - 4..] == [48, 48, 48, 48]
  {
  }

  lemma EndsInResponseEnd(body: seq<Byte>)
    ensures EndsWith(body, RESPONSE_END) <==> |body| >= 4 && body[|body| - 4..] == [48, 48, 48, 50]
  {
  }

  // What a reader makes of a stream that was cut off: nothing.
  lemma CutStream(chunks: seq<seq<Byte>>, sent: seq<Byte>, maximum: nat, initialEof: bool)
    requires exists part :: sent == [] + part && Cut(chunks, part)
    ensures var r := DecodeChunks(sent, 0, maximum, initialEof);
            r.Refused? || (initialEof && r == Ok(Decoded([], [])) && Flatten(r.value.chunks) == [])
  {
    var part :| sent == [] + part && Cut(chunks, part);
    assert sent == part;
    var good: seq<seq<Byte>> :| good <= chunks && ChunksOk(good) && part < EncodeChunks(good);
    assert sent == EncodeChunks(good)[..|sent|];
    if sent != [] || !initialEof {
      CutStreamsAreRefused(good, |sent|, 0, maximum, initialEof);
    }
  }

  // ---- The reply on its way back ----

  function LastFour(b: seq<Byte>): (head: nat)
    ensures head <= |b| && |b| - head <= 4
  {
    if |b| > 4 then |b| - 4 else 0
  }

  // Both ends pass on all but the last four bytes they hold.
  function Kept(combined: seq<Byte>): seq<Byte> {
    combined[LastFour(combined)..]
  }

  function PassedOn(out: seq<seq<Byte>>, combined: seq<Byte>): seq<seq<Byte>> {
    if |combined| > 4 then out + [combined[..LastFour(combined)]] else out
  }

  // What was passed on and what is held back: `all`, and four bytes are held once
  // anything was passed on.
  ghost predicate Holds(out: seq<seq<Byte>>, held: seq<Byte>, all: seq<Byte>) {
    Flatten(out) + held == all && |held| <= 4 && (|held| < 4 ==> Flatten(out) == [])
  }

  lemma PassOn(out: seq<seq<Byte>>, held: seq<Byte>, all: seq<Byte>, chunk: seq<Byte>)
    requires Holds(out, held, all) && chunk != []
    ensures Holds(PassedOn(out, held + chunk), Kept(held + chunk), all + chunk)
  {
    hide Flatten;
    var combined := held + chunk;
    var head := combined[..LastFour(combined)];
    FlattenConcat(out, [head]);
    FlattenOne(head);
    assert combined == head + Kept(combined);
    assert Flatten(out) + head + Kept(combined) == Flatten(out) + (held + chunk) == (Flatten(out) + held) + chunk;
  }

  lemma Keeping(out: seq<seq<Byte>>, combined: seq<Byte>)
    ensures |combined| <= 4 ==> PassedOn(out, combined) == out && Kept(combined) == combined
    ensures |combined| > 4 ==> PassedOn(out, combined) == out + [combined[..|combined| - 4]]
                               && Kept(combined) == combined[|combined| - 4..]
  {
  }

  lemma HoldsNothing()
    ensures Holds([], [], [])
  {
  }

  // The last four bytes replaced by `marker`.
  lemma Ends(out: seq<seq<Byte>>, held: seq<Byte>, all: seq<Byte>, wanted: seq<Byte>, marker: seq<Byte>)
    requires Holds(out, held, all) && |wanted| == 4
    ensures held == wanted <==> EndsWith(all, wanted)
    ensures held == wanted ==> Flatten(out + [marker]) == all[..|all| - 4] + marker
    ensures Flatten(out) <= all
  {
    hide Flatten;
    if |held| == 4 {
      assert all[|all| - 4..] == held && all[..|all| - 4] == Flatten(out);
    }
    FlattenConcat(out, [marker]);
    FlattenOne(marker);
  }

  // `rpc` once the remote has answered, with the chunks it yields before it ends
  // or raises.
  method Rpc(response: Source) returns (chunks: seq<seq<Byte>>, ok: bool)
    modifies response
    ensures forall i :: 0 <= i < |chunks| ==> 1 <= |chunks[i]| <= 65_536
    ensures var body := old(response.unread);
            var whole := 4 <= |body| <= 8_589_934_592 && body[|body| - 4..] == [48, 48, 48, 48];
            && (ok ==> whole && Flatten(chunks) == body[..|body| - 4] + [48, 48, 48, 50])
            && (!ok ==> Flatten(chunks) <= body)
            && (!response.faulty ==> (ok <==> whole))
  {
    ghost var body := response.unread;
    chunks, ok := PassReply(response);
    EndsInFlush(body);
    hide Flatten, EndsWith;
  }

  // The loop behind it.
  method PassReply(response: Source) returns (chunks: seq<seq<Byte>>, ok: bool)
    modifies response
    ensures forall i :: 0 <= i < |chunks| ==> 1 <= |chunks[i]| <= READ_CHUNK_BYTES
    ensures ok ==>
              var body := old(response.unread);
              && EndsWith(body, FLUSH) && |body| <= MAX_UPLOAD_PACK_RESPONSE_BYTES
              && Flatten(chunks) == body[..|body| - 4] + RESPONSE_END
    ensures !ok ==> Flatten(chunks) <= old(response.unread)
    ensures var body := old(response.unread);
            !response.faulty && EndsWith(body, FLUSH) && |body| <= MAX_UPLOAD_PACK_RESPONSE_BYTES ==> ok
  {
    hide Flatten, Holds, EndsWith, Kept, PassedOn;
    chunks := [];
    var transferred := 0;
    var pending: seq<Byte> := [];
    ghost var body := response.unread;
    ghost var read: seq<Byte> := [];
    HoldsNothing();
    while true
      invariant forall i :: 0 <= i < |chunks| ==> 1 <= |chunks[i]| <= READ_CHUNK_BYTES
      invariant |pending| <= 4
      invariant Holds(chunks, pending, read) && body == read + response.unread
      invariant transferred == |read| <= MAX_UPLOAD_PACK_RESPONSE_BYTES
      decreases |response.unread|
    {
      var chunk := response.Read(READ_CHUNK_BYTES);
      Ends(chunks, pending, read, FLUSH, RESPONSE_END);
      if chunk.Refused? {
        return chunks, false;
      }
      if chunk.value == [] {
        break;
      }
      transferred := transferred + |chunk.value|;
      if transferred > MAX_UPLOAD_PACK_RESPONSE_BYTES {
        return chunks, false;
      }
      var buffered := pending + chunk.value;
      PassOn(chunks, pending, read, chunk.value);
      Keeping(chunks, buffered);
      read := read + chunk.value;
      if |buffered| > 4 {
        chunks := chunks + [buffered[..|buffered| - 4]];
        pending := buffered[|buffered| - 4..];
      } else {
        pending := buffered;
      }
    }
    assert body == read;
    if pending != FLUSH {
      return chunks, false;
    }
    return chunks + [RESPONSE_END], true;
  }

  // `_connect_response`, over an iterator that ended without an exception when
  // `whole`.
  method ConnectResponse(chunks: seq<seq<Byte>>, whole: bool) returns (out: seq<seq<Byte>>, ok: bool)
    ensures ok <==> whole && (forall i :: 0 <= i < |chunks| ==> chunks[i] != [])
                    && |Flatten(chunks)| >= 4 && Flatten(chunks)[|Flatten(chunks)| - 4..] == [48, 48, 48, 50]
    ensures ok ==> Flatten(out) == Flatten(chunks)[..|Flatten(chunks)| - 4] + [48, 48, 48, 48]
    ensures forall i :: 0 <= i < |out| ==> out[i] != []
  {
    EndsInResponseEnd(Flatten(chunks));
    hide Flatten, Holds, EndsWith;
    out := [];
    var tail: seq<Byte> := [];
    assert chunks[..0] == [];
    NothingFramed();
    HoldsNothing();
    for i := 0 to |chunks|
      invariant Holds(out, tail, Flatten(chunks[..i])) && |tail| <= 4
      invariant forall j :: 0 <= j < |out| ==> out[j] != []
      invariant forall j :: 0 <= j < i ==> chunks[j] != []
    {
      if chunks[i] == [] {
        return out, false;
      }
      FlattenNext(chunks, i);
      PassOn(out, tail, Flatten(chunks[..i]), chunks[i]);
      var combined := tail + chunks[i];
      if |combined| > 4 {
        out := out + [combined[..|combined| - 4]];
        tail := combined[|combined| - 4..];
      } else {
        tail := combined;
      }
    }
    assert chunks[..|chunks|] == chunks;
    Ends(out, tail, Flatten(chunks), RESPONSE_END, FLUSH);
    if !whole {
      return out, false;
    }
    if tail != RESPONSE_END {
      return out, false;
    }
    return out + [FLUSH], true;
  }

  lemma FlattenNext(chunks: seq<seq<Byte>>, i: nat)
    requires i < |chunks|
    ensures Flatten(chunks[..i + 1]) == Flatten(chunks[..i]) + chunks[i]
  {
    hide Flatten;
    assert chunks[..i + 1] == chunks[..i] + [chunks[i]];
    FlattenConcat(chunks[..i], [chunks[i]]);
    FlattenOne(chunks[i]);
  }

  // The whole way back: `rpc`, the chunk stream, its reader, `_connect_response`.
  // However the reply, the writes and the reads are split, Git either gets the
  // remote's bytes exactly or is told that they failed; without a failing stream
  // that depends on the reply alone, so no later limit trips where the first
  // did not.
  method CarryReply(response: Source, faulty: bool) returns (out: seq<seq<Byte>>, ok: bool)
    modifies response
    ensures ok ==> Flatten(out) == old(response.unread)
    ensures var body := old(response.unread);
            var whole := 4 <= |body| <= 8_589_934_592 && body[|body| - 4..] == [48, 48, 48, 48];
            (ok ==> whole) && (!response.faulty && !faulty ==> (ok <==> whole))
    ensures forall i :: 0 <= i < |out| ==> out[i] != []
  {
    hide Flatten, EncodeChunks, DecodeChunks;
    ghost var body := response.unread;
    var yielded, whole := Rpc(response);
    var connection := new Sink(faulty);
    PiecesAreChunks(yielded);
    var sent := WriteChunkStream(connection, yielded, whole);
    assert [] + connection.written == connection.written;
    ghost var x := if whole then body[..|body| - 4] else [];
    if sent.Ok? {
      assert |x + RESPONSE_END| == |body|;
      ChunkStream.RoundTrip(yielded, [], 0, MAX_UPLOAD_PACK_RESPONSE_BYTES, false);
      assert EncodeChunks(yielded) + [] == [] + EncodeChunks(yielded) == connection.written;
      assert DecodeChunks(connection.written, 0, MAX_UPLOAD_PACK_RESPONSE_BYTES, false) == Ok(Decoded(yielded, []));
    } else {
      CutStream(yielded, connection.written, MAX_UPLOAD_PACK_RESPONSE_BYTES, false);
    }
    var client := new Source(connection.written, faulty);
    var received, complete := IterChunkStream(client, MAX_UPLOAD_PACK_RESPONSE_BYTES, false);
    out, ok := ConnectResponse(received, complete);
    if complete {
      assert received == yielded;
      assert (x + RESPONSE_END)[..|x|] == x && (x + RESPONSE_END)[|x|..] == RESPONSE_END;
      assert body == x + FLUSH;
    }
  }

  lemma PiecesAreChunks(chunks: seq<seq<Byte>>)
    requires forall i :: 0 <= i < |chunks| ==> 1 <= |chunks[i]| <= 65_536
    ensures ChunksOk(chunks)
  {
    forall i | 0 <= i < |chunks| ensures ChunkOk(chunks[i]) {
    }
  }
}
