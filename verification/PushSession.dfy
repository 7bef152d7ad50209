/**
  A push through the broker, from Git's output to the bytes that are forwarded
  (src/agent_container/git_remote_helper.py:143-153, github_broker_transport.py:
  188-201, 305-366).
 */
module PushSession {
  import opened Wrappers
  import opened Bytes
  import opened ByteStreams
  import opened PktLine
  import opened ReceivePackGate
  import opened ReceivePackAdvertisement
  import opened DeleteOnlyPush
  import opened ChunkStream
  import opened UploadPack

  const MAX_RECEIVE_PACK_REQUEST_BYTES: nat := 256 * 1024 * 1024

  // The body of a push: the commands alone when they only delete, all the input
  // otherwise.
  function PushRequest(input: seq<Byte>): Option<seq<Byte>> {
    match RequestEnd(input, 0, 0)
    case None => None
    case Some(n) =>
      if n <= |input| && DeleteOnly(input[..n]) then Some(input[..n])
      else if |input| <= MAX_RECEIVE_PACK_REQUEST_BYTES then Some(input) else None
  }

  // `stream.read(size)`, which waits for all of it or the end.
  method ReadUpTo(stream: Source, size: nat) returns (r: Result<seq<Byte>>)
    modifies stream
    ensures r.Ok? ==>
              && old(stream.unread) == r.value + stream.unread && |r.value| <= size
              && (|r.value| < size ==> stream.unread == [])
    ensures !stream.faulty ==> r.Ok?
  {
    var output: seq<Byte> := [];
    while |output| < size
      invariant |output| <= size && old(stream.unread) == output + stream.unread
    {
      var chunk := stream.Read(size - |output|);
      if chunk.Refused? {
        return Refused;
      }
      if chunk.value == [] {
        return Ok(output);
      }
      output := output + chunk.value;
    }
    return Ok(output);
  }

  // `read_receive_pack_request`.
  method ReadReceivePackRequest(stdin: Source) returns (r: Option<seq<Byte>>)
    modifies stdin
    ensures var input, end := old(stdin.unread), RequestEnd(old(stdin.unread), 0, 0);
            var deletes := end.Some? && end.value <= |input| && DeleteOnly(input[..end.value]);
            && (r.Some? ==>
                  && end.Some? && r.value == (if deletes then input[..end.value] else input)
                  && 0 < |r.value| <= 268_435_456)
            && (!stdin.faulty ==> (r.Some? <==> end.Some? && (deletes || |input| <= 268_435_456)))
    ensures r.Some? || !stdin.faulty ==> r == PushRequest(old(stdin.unread))
  {
    hide RequestEnd, DeleteOnly, EndsWith;
    ghost var input := stdin.unread;
    RequestStep(input, 0, 0);
    var commands := ReadStatelessRequest(stdin);
    if commands.Refused? || commands.value.None? {
      return None;
    }
    var bytes := commands.value.value;
    assert input[..|bytes|] == bytes;
    RequestsEndInFlush(input, 0, 0);
    var deletes := IsDeleteOnly(bytes);
    if deletes {
      return Some(bytes);
    }
    var rest := ReadUpTo(stdin, MAX_RECEIVE_PACK_REQUEST_BYTES - |bytes| + 1);
    if rest.Refused? {
      return None;
    }
    var body := bytes + rest.value;
    assert input == body + stdin.unread;
    if |body| > MAX_RECEIVE_PACK_REQUEST_BYTES {
      return None;
    }
    assert stdin.unread == [] ==> body == input;
    return Some(body);
  }

  // The client's `push` and the broker's reading of it.
  method CarryBody(request: seq<Byte>, faulty: bool) returns (arrived: Option<seq<Byte>>)
    ensures arrived.Some? ==> arrived.value == request
    ensures !faulty && |request| <= MAX_RECEIVE_PACK_REQUEST_BYTES ==> arrived.Some?
  {
    hide Flatten, EncodeChunks, DecodeChunks;
    var connection := new Sink(faulty);
    var chunks := Slices(request);
    var sent := WriteChunkStream(connection, chunks, true);
    if sent.Ok? {
      ChunkStream.RoundTrip(chunks, [], 0, MAX_RECEIVE_PACK_REQUEST_BYTES, false);
      assert EncodeChunks(chunks) + [] == [] + EncodeChunks(chunks) == connection.written;
    } else {
      assert [] + connection.written == connection.written;
      CutStream(chunks, connection.written, MAX_RECEIVE_PACK_REQUEST_BYTES, false);
    }
    var broker := new Source(connection.written, faulty);
    var received, ok := IterChunkStream(broker, MAX_RECEIVE_PACK_REQUEST_BYTES, false);
    if !ok {
      return None;
    }
    return Some(Flatten(received));
  }

  // `advertisement` is what `discovery` says: its refs, its capabilities and its
  // object format.
  ghost predicate Announces(discovery: seq<Byte>, advertisement: Advertisement) {
    && Parse(discovery, 0, 0, LIMITS).Ok?
    && var section := Parse(discovery, 0, 0, LIMITS).value;
       && IsAdvertisement(section.packets, advertisement.format)
       && RefsAre(section.packets, |section.packets|, advertisement.refs)
       && advertisement.capabilities == Capabilities(RawCapabilities(section.packets))
       && advertisement.consumed == section.consumed
  }

  // It says one thing only.
  lemma AnnouncesOne(discovery: seq<Byte>, a: Advertisement, b: Advertisement)
    requires Announces(discovery, a) && Announces(discovery, b)
    ensures a == b
  {
    hide Parse, Capabilities, RawCapabilities, IsAdvertisement, RefsAre;
    var packets := Parse(discovery, 0, 0, LIMITS).value.packets;
    OneFormatOnly(packets, a.format, b.format);
    SameRefs(packets, a.refs, b.refs);
  }

  lemma OneFormatOnly(packets: seq<seq<Byte>>, f: Format, g: Format)
    requires IsAdvertisement(packets, f) && IsAdvertisement(packets, g)
    ensures f == g
  {
    hide Capabilities, RawCapabilities, NameOf, Selects, ObjectFormat;
    var items := Capabilities(RawCapabilities(packets));
    CapabilityNames(RawCapabilities(packets));
    ObjectFormatSelects(items, f);
    ObjectFormatSelects(items, g);
  }

  lemma SameRefs(packets: seq<seq<Byte>>, a: map<Ref, Oid>, b: map<Ref, Oid>)
    requires RefsAre(packets, |packets|, a) && RefsAre(packets, |packets|, b)
    ensures a == b
  {
    RefsWithin(packets, a, b);
    RefsWithin(packets, b, a);
  }

  lemma RefsWithin(packets: seq<seq<Byte>>, a: map<Ref, Oid>, b: map<Ref, Oid>)
    requires RefsAre(packets, |packets|, a) && RefsAre(packets, |packets|, b)
    ensures forall ref :: ref in a ==> ref in b && a[ref] == b[ref]
  {
    hide RefLine;
    forall ref | ref in a ensures ref in b && a[ref] == b[ref] {
      assert Named(packets, |packets|, ref);
      var i: nat :| i < |packets| && LineNames(packets, i, ref);
      assert LineHeld(packets, i, a) && LineHeld(packets, i, b);
    }
  }

  // What a forwarded body is held to: the gate let it through against exactly
  // what the remote advertised.
  ghost predicate Gated(discovery: seq<Byte>, body: seq<Byte>, policy: Policy, advertisement: Advertisement,
                        updates: seq<RefUpdate>) {
    Announces(discovery, advertisement) && Accepted(body, advertisement, policy, updates)
  }

  // Why a push stops when no stream fails: there is no request, or nothing that can
  // be announced, or the announcement does not go through the chunk stream, or the
  // gate refuses the body against what was announced.
  ghost predicate Stopped(discovery: seq<Byte>, request: Option<seq<Byte>>, policy: Policy,
                          advertisement: Advertisement) {
    || request.None? || !ChunkOk(discovery)
    || (forall a :: !Announces(discovery, a))
    || (&& Announces(discovery, advertisement)
        && var body := Parse(request.value, 0, 0, LIMITS);
           body.Refused? || !CreateOnly(body.value.packets, advertisement, policy))
  }

  // Nothing is both forwarded and stopped: what stops a push is a reason to.
  lemma StoppedIsNotGated(discovery: seq<Byte>, body: seq<Byte>, policy: Policy,
                          a: Advertisement, b: Advertisement, updates: seq<RefUpdate>)
    requires ChunkOk(discovery) && Stopped(discovery, Some(body), policy, a)
    ensures !Gated(discovery, body, policy, b, updates)
  {
    hide Parse, CreateOnly, Announces, Command;
    if Gated(discovery, body, policy, b, updates) {
      if Announces(discovery, a) {
        AnnouncesOne(discovery, a, b);
      }
    }
  }

  // `handle_receive_pack_connection` behind its discovery, with the client on the
  // other end.  What is forwarded is what Git wrote, and the very bytes the gate
  // examined; a push that only deletes goes nowhere.
  method CarryPush(stdin: Source, discovery: seq<Byte>, policy: Policy, faulty: bool)
    returns (forwarded: Option<seq<Byte>>, ghost advertisement: Advertisement, ghost updates: seq<RefUpdate>)
    modifies stdin
    ensures forwarded.Some? ==>
              && forwarded == PushRequest(old(stdin.unread))
              && Gated(discovery, forwarded.value, policy, advertisement, updates)
              && !DeleteOnly(forwarded.value)
    ensures forwarded.None? && !stdin.faulty && !faulty ==>
              Stopped(discovery, PushRequest(old(stdin.unread)), policy, advertisement)
  {
    hide RequestEnd, DeleteOnly, Parse, CreateOnly, IsAdvertisement, RefsAre, Command, PushRequest, EncodeChunks,
         Capabilities, RawCapabilities;
    advertisement, updates := Advertisement(map[], [], Sha1, 0), [];
    var parsed := ParseAdvertisement(discovery);
    if parsed.Refused? {
      return None, advertisement, updates;
    }
    advertisement := parsed.value;
    var announced := new Sink(faulty);
    var sent := WriteChunkStream(announced, [discovery], true);
    if sent.Refused? {
      return None, advertisement, updates;
    }
    var request := ReadReceivePackRequest(stdin);
    if request.None? {
      return None, advertisement, updates;
    }
    var body := CarryBody(request.value, faulty);
    if body.None? {
      return None, advertisement, updates;
    }
    var gated := Gate(body.value, parsed.value, policy);
    if gated.Refused? {
      return None, advertisement, updates;
    }
    updates := gated.value.updates;
    AcceptedIsNotDeleteOnly(body.value, advertisement, policy, updates);
    return body, advertisement, updates;
  }
}
