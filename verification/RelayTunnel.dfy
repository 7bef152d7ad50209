/**
  The relay between a client and its upstream: two byte streams, one buffered
  chunk each, back-pressure and half-close (src/agent_container/egress_gateway.py:133-232).
 */
module RelayTunnel {
  import opened Bytes

  datatype RelayLimits = RelayLimits(maximumBytes: int, idleTimeout: real, lifetime: real, chunkBytes: int)

  predicate ValidLimits(l: RelayLimits) {
    l.maximumBytes >= 0 && l.idleTimeout > 0.0 && l.lifetime > 0.0 && 1 <= l.chunkBytes <= 65_536
  }

  /** A non-blocking socket, with everything that went through it and whether it failed. */
  class Peer {
    var received: seq<Byte>
    var eof: bool
    var sent: seq<Byte>
    var shutdowns: nat
    var failed: bool

    constructor ()
      ensures received == [] && !eof && sent == [] && shutdowns == 0 && !failed
    {
      received, eof, sent, shutdowns, failed := [], false, [], 0, false;
    }

    // At most `n` bytes; none at the end of the stream; or an error.
    method Recv(n: nat) returns (ok: bool, body: seq<Byte>)
      modifies this`received, this`eof, this`failed
      ensures failed == (old(failed) || !ok)
      ensures |body| <= n && received == old(received) + body
      ensures !ok ==> body == []
      ensures eof == (old(eof) || (ok && body == []))
    {
      ok := *;
      failed := failed || !ok;
      body := [];
      if ok {
        var b: seq<Byte> :| |b| <= n;
        body := b;
        received := received + body;
        if body == [] {
          eof := true;
        }
      }
    }

    // Some leading part of the data, or an error; to take nothing is a failure, too.
    method Send(data: seq<Byte>) returns (ok: bool, count: nat)
      modifies this`sent, this`failed
      ensures failed == (old(failed) || !ok || count == 0)
      ensures count <= |data| && sent == old(sent) + data[..count]
      ensures !ok ==> count == 0
    {
      ok := *;
      count := 0;
      if ok {
        count :| count <= |data|;
        sent := sent + data[..count];
      }
      failed := failed || !ok || count == 0;
    }

    // shutdown(SHUT_WR)
    method Shutdown() returns (ok: bool)
      modifies this`shutdowns, this`failed
      ensures shutdowns == old(shutdowns) + (if ok then 1 else 0) && failed == (old(failed) || !ok)
    {
      ok := *;
      failed := failed || !ok;
      if ok {
        shutdowns := shutdowns + 1;
      }
    }
  }

  datatype Interest = Interest(read: bool, write: bool)

  datatype Side = Client | Upstream

  datatype Ready = Ready(side: Side, events: Interest)

  predicate Reports(ready: Ready, client: Interest, upstream: Interest) {
    var interest := if ready.side.Client? then client else upstream;
    && (ready.events.read || ready.events.write)
    && (ready.events.read ==> interest.read) && (ready.events.write ==> interest.write)
  }

  /** The clock and the selector, and whether the time was over. */
  class Waiting {
    var over: bool

    constructor ()
      ensures !over
    {
      over := false;
    }

    // The time that is left of both timeouts, at an arbitrary moment.
    method Remaining(limits: RelayLimits, started: real, activity: real) returns (timeout: real)
      modifies this
      ensures over == (old(over) || timeout <= 0.0)
    {
      var now: real := *;
      var idleRemaining := limits.idleTimeout - (now - activity);
      var lifetimeRemaining := limits.lifetime - (now - started);
      timeout := if idleRemaining < lifetimeRemaining then idleRemaining else lifetimeRemaining;
      over := over || timeout <= 0.0;
    }

    // Waits for a registered event; nothing when the time is over.  Waiting for
    // no event at all would be waiting in vain and is never done.
    method Select(client: Interest, upstream: Interest, timeout: real) returns (ready: seq<Ready>)
      requires client.read || client.write || upstream.read || upstream.write
      requires timeout > 0.0
      modifies this
      ensures over == (old(over) || ready == [])
      ensures |ready| <= 2 && (|ready| == 2 ==> ready[0].side != ready[1].side)
      ensures forall i :: 0 <= i < |ready| ==> Reports(ready[i], client, upstream)
    {
      ready := [];
      if * {
        if client.read || client.write {
          ready := [Ready(Client, client)];
          if * {
            ready := [Ready(Client, if client.read then Interest(true, false) else client)];
          }
        }
      }
      if * {
        if upstream.read || upstream.write {
          var r := Ready(Upstream, upstream);
          if * {
            ready := ready + [r];
          } else {
            ready := [r] + ready;
          }
        }
      }
      over := over || ready == [];
    }
  }

  // One direction: what was read from one peer and not yet written to the other.
  datatype Pipe = Pipe(open: bool, buffer: seq<Byte>, count: nat, shut: bool)

  // Nothing is lost, reordered or duplicated on the way, and the limits hold.
  ghost predicate Faithful(source: Peer, target: Peer, pipe: Pipe, limits: RelayLimits)
    reads source`received, source`eof, target`sent, target`shutdowns
  {
    && source.received == target.sent + pipe.buffer
    && pipe.count == |source.received| && pipe.count <= limits.maximumBytes
    && pipe.open == !source.eof
    && |pipe.buffer| <= limits.chunkBytes
    && target.shutdowns == (if pipe.shut then 1 else 0)
    && (pipe.shut ==> !pipe.open && pipe.buffer == [])
  }

  // What holds of a direction at every exit, also after an error.
  ghost predicate Delivered(source: Peer, target: Peer, limits: RelayLimits)
    reads source`received, source`eof, target`sent, target`shutdowns
  {
    && target.sent <= source.received && |target.sent| <= limits.maximumBytes
    && target.shutdowns <= 1
    && (target.shutdowns == 1 ==> source.eof && target.sent == source.received)
  }

  // Work that is left in a direction; every reported event reduces it.
  function Work(pipe: Pipe, limits: RelayLimits): int {
    2 * (limits.maximumBytes - pipe.count) + |pipe.buffer| + if pipe.open then 1 else 0
  }

  // A socket that failed, or sent more than is allowed.
  predicate Stopped(peer: Peer, limits: RelayLimits)
    reads peer`failed, peer`received
  {
    peer.failed || |peer.received| > limits.maximumBytes
  }

  method Receive(source: Peer, target: Peer, pipe: Pipe, limits: RelayLimits) returns (ok: bool, p: Pipe)
    requires source != target && ValidLimits(limits) && Faithful(source, target, pipe, limits)
    requires pipe.open && pipe.buffer == [] && !pipe.shut
    modifies source`received, source`eof, source`failed
    ensures !ok ==> source.failed || |source.received| > limits.maximumBytes
    ensures ok ==> Faithful(source, target, p, limits) && Work(p, limits) < Work(pipe, limits) && !p.shut
    ensures Delivered(source, target, limits)
  {
    var body;
    p := pipe;
    ok, body := source.Recv(limits.chunkBytes);
    if !ok {
      return;
    }
    if body != [] {
      p := p.(count := p.count + |body|);
      if p.count > limits.maximumBytes {
        return false, p;
      }
      p := p.(buffer := p.buffer + body);
    } else {
      p := p.(open := false);
    }
  }

  method Forward(source: Peer, target: Peer, pipe: Pipe, limits: RelayLimits) returns (ok: bool, p: Pipe)
    requires source != target && ValidLimits(limits) && Faithful(source, target, pipe, limits)
    requires pipe.buffer != []
    modifies target`sent, target`failed
    ensures !ok ==> target.failed
    ensures ok ==> Faithful(source, target, p, limits) && Work(p, limits) < Work(pipe, limits)
    ensures ok ==> |p.buffer| < |pipe.buffer| && p.open == pipe.open
    ensures Delivered(source, target, limits)
  {
    var count;
    p := pipe;
    ok, count := target.Send(pipe.buffer);
    assert pipe.buffer == pipe.buffer[..count] + pipe.buffer[count..];
    if !ok || count <= 0 {
      return false, p;
    }
    p := p.(buffer := p.buffer[count..]);
  }

  // The write side is shut once, when everything that was read has been written.
  method HalfClose(source: Peer, target: Peer, pipe: Pipe, limits: RelayLimits) returns (ok: bool, p: Pipe)
    requires source != target && ValidLimits(limits) && Faithful(source, target, pipe, limits)
    modifies target`shutdowns, target`failed
    ensures !ok ==> target.failed
    ensures ok ==> Faithful(source, target, p, limits) && p == pipe.(shut := !pipe.open && pipe.buffer == [])
    ensures Delivered(source, target, limits)
  {
    ok, p := true, pipe;
    if !pipe.open && pipe.buffer == [] && !pipe.shut {
      ok := target.Shutdown();
      p := p.(shut := true);
    }
  }

  // Serves one ready peer: `out` carries what it says, `back` what it is told.
  method Serve(self: Peer, other: Peer, out: Pipe, back: Pipe, events: Interest, limits: RelayLimits)
    returns (ok: bool, o: Pipe, b: Pipe)
    requires self != other && ValidLimits(limits)
    requires Faithful(self, other, out, limits) && Faithful(other, self, back, limits)
    requires events.read || events.write
    requires events.read ==> out.open && out.buffer == [] && !out.shut
    requires events.write ==> back.buffer != []
    modifies self`received, self`eof, self`sent, self`failed
    ensures !ok ==> self.failed || |self.received| > limits.maximumBytes
    ensures ok ==> Faithful(self, other, o, limits) && Faithful(other, self, b, limits)
    ensures ok ==> Work(o, limits) + Work(b, limits) < Work(out, limits) + Work(back, limits)
    ensures ok ==> o.shut == out.shut && b.shut == back.shut && b.open == back.open
    ensures ok && back.buffer == [] ==> b.buffer == []
    ensures ok && out.buffer != [] ==> o == out
    ensures Delivered(self, other, limits) && Delivered(other, self, limits)
  {
    ok, o, b := true, out, back;
    FaithfulDelivers(self, other, out, limits);
    FaithfulDelivers(other, self, back, limits);
    if events.read {
      ok, o := Receive(self, other, out, limits);
      if !ok { return; }
    }
    if events.write && back.buffer != [] {
      ok, b := Forward(other, self, back, limits);
    }
  }

  lemma FaithfulDelivers(source: Peer, target: Peer, pipe: Pipe, limits: RelayLimits)
    requires Faithful(source, target, pipe, limits)
    ensures Delivered(source, target, limits)
  {
  }

  // What the peers were registered for still applies to a peer not served yet.
  predicate Due(out: Pipe, back: Pipe, interest: Interest) {
    && (interest.read ==> out.open && out.buffer == [] && !out.shut)
    && (interest.write ==> back.buffer != [])
  }

  method ServeReady(client: Peer, upstream: Peer, up0: Pipe, down0: Pipe, ready: seq<Ready>,
                    clientEvents: Interest, upstreamEvents: Interest, limits: RelayLimits)
    returns (ok: bool, up: Pipe, down: Pipe)
    requires client != upstream && ValidLimits(limits)
    requires Faithful(client, upstream, up0, limits) && Faithful(upstream, client, down0, limits)
    requires Due(up0, down0, clientEvents) && Due(down0, up0, upstreamEvents)
    requires 1 <= |ready| <= 2 && (|ready| == 2 ==> ready[0].side != ready[1].side)
    requires forall i :: 0 <= i < |ready| ==> Reports(ready[i], clientEvents, upstreamEvents)
    modifies client`received, client`eof, client`sent, client`failed
    modifies upstream`received, upstream`eof, upstream`sent, upstream`failed
    ensures !ok ==> Stopped(client, limits) || Stopped(upstream, limits)
    ensures ok ==> Faithful(client, upstream, up, limits) && Faithful(upstream, client, down, limits)
    ensures ok ==> up.shut == up0.shut && down.shut == down0.shut
    ensures ok ==> Work(up, limits) + Work(down, limits) < Work(up0, limits) + Work(down0, limits)
    ensures Delivered(client, upstream, limits) && Delivered(upstream, client, limits)
  {
    hide Faithful, Delivered, ValidLimits, Work;
    ok, up, down := true, up0, down0;
    FaithfulDelivers(client, upstream, up, limits);
    FaithfulDelivers(upstream, client, down, limits);
    var i := 0;
    while i < |ready|
      invariant 0 <= i <= |ready| && ok
      invariant Faithful(client, upstream, up, limits) && Faithful(upstream, client, down, limits)
      invariant up.shut == up0.shut && down.shut == down0.shut
      invariant Work(up, limits) + Work(down, limits) + i <= Work(up0, limits) + Work(down0, limits)
      invariant i == 0 ==> up == up0 && down == down0
      invariant i == 1 ==> if ready[0].side.Client? then Due(down, up, upstreamEvents) else Due(up, down, clientEvents)
      invariant Delivered(client, upstream, limits) && Delivered(upstream, client, limits)
    {
      assert Reports(ready[i], clientEvents, upstreamEvents);
      if ready[i].side.Client? {
        ok, up, down := Serve(client, upstream, up, down, ready[i].events, limits);
      } else {
        ok, down, up := Serve(upstream, client, down, up, ready[i].events, limits);
      }
      if !ok { return; }
      i := i + 1;
    }
  }

  datatype RelayResult = Relayed(fromClient: nat, fromUpstream: nat) | Refused

  // The write side is shut exactly when the stream ended and everything was written.
  predicate Settled(pipe: Pipe) {
    pipe.shut == (!pipe.open && pipe.buffer == [])
  }

  predicate Busy(up: Pipe, down: Pipe) {
    up.open || down.open || down.buffer != [] || up.buffer != []
  }

  // One turn of the loop.  The clock is arbitrary: the relay may time out before any wait.
  method Turn(client: Peer, upstream: Peer, waiting: Waiting, up0: Pipe, down0: Pipe, limits: RelayLimits,
              started: real, activity: real)
    returns (ok: bool, up: Pipe, down: Pipe, lastActivity: real)
    requires client != upstream && ValidLimits(limits) && Busy(up0, down0)
    requires Faithful(client, upstream, up0, limits) && Faithful(upstream, client, down0, limits)
    requires Settled(up0) && Settled(down0)
    modifies client, upstream, waiting
    ensures !ok ==> waiting.over || Stopped(client, limits) || Stopped(upstream, limits)
    ensures ok ==> Faithful(client, upstream, up, limits) && Faithful(upstream, client, down, limits)
    ensures ok ==> Settled(up) && Settled(down)
    ensures ok ==> 0 <= Work(up, limits) + Work(down, limits) < Work(up0, limits) + Work(down0, limits)
    ensures Delivered(client, upstream, limits) && Delivered(upstream, client, limits)
  {
    up, down, lastActivity := up0, down0, activity;
    hide Faithful, Delivered, Work, Stopped;
    FaithfulDelivers(client, upstream, up, limits);
    FaithfulDelivers(upstream, client, down, limits);
    var clientEvents := Interest(up.open && up.buffer == [], down.buffer != []);
    var upstreamEvents := Interest(down.open && down.buffer == [], up.buffer != []);
    var timeout := waiting.Remaining(limits, started, lastActivity);
    if timeout <= 0.0 {
      return false, up, down, lastActivity;
    }
    var ready := waiting.Select(clientEvents, upstreamEvents, timeout);
    if ready == [] {
      return false, up, down, lastActivity;
    }
    ok, up, down := ServeReady(client, upstream, up, down, ready, clientEvents, upstreamEvents, limits);
    if !ok { return; }
    lastActivity := *;
    ok, up, down := HalfCloseBoth(client, upstream, up, down, limits);
  }

  method HalfCloseBoth(client: Peer, upstream: Peer, up0: Pipe, down0: Pipe, limits: RelayLimits)
    returns (ok: bool, up: Pipe, down: Pipe)
    requires client != upstream && ValidLimits(limits)
    requires Faithful(client, upstream, up0, limits) && Faithful(upstream, client, down0, limits)
    modifies client`shutdowns, upstream`shutdowns, client`failed, upstream`failed
    ensures !ok ==> Stopped(client, limits) || Stopped(upstream, limits)
    ensures ok ==> Faithful(client, upstream, up, limits) && Faithful(upstream, client, down, limits)
    ensures ok ==> Settled(up) && Settled(down)
    ensures ok ==> 0 <= Work(up, limits) + Work(down, limits) == Work(up0, limits) + Work(down0, limits)
    ensures Delivered(client, upstream, limits) && Delivered(upstream, client, limits)
  {
    ok, up, down := true, up0, down0;
    FaithfulDelivers(upstream, client, down, limits);
    ok, up := HalfClose(client, upstream, up, limits);
    if !ok { return; }
    ok, down := HalfClose(upstream, client, down, limits);
  }

  // What ends a relay early is named: a socket, the clock or the limit.
  method Relay(client: Peer, upstream: Peer, waiting: Waiting, limits: RelayLimits) returns (r: RelayResult)
    requires client != upstream
    requires client.received == [] && client.sent == [] && !client.eof && client.shutdowns == 0
    requires upstream.received == [] && upstream.sent == [] && !upstream.eof && upstream.shutdowns == 0
    requires !waiting.over && !client.failed && !upstream.failed
    modifies client, upstream, waiting
    ensures var valid := && limits.maximumBytes >= 0 && limits.idleTimeout > 0.0 && limits.lifetime > 0.0
                         && 1 <= limits.chunkBytes <= 65_536;
            && (!valid ==> r.Refused? && unchanged(client, upstream))
            && (valid && r.Refused? ==>
                  || waiting.over || client.failed || upstream.failed
                  || |client.received| > limits.maximumBytes || |upstream.received| > limits.maximumBytes)
    // at every exit each side got a prefix of what the other sent, within the limit, and
    // its write side was shut at most once and only behind all of it
    ensures upstream.sent <= client.received && client.sent <= upstream.received
    ensures limits.maximumBytes >= 0 ==>
              |upstream.sent| <= limits.maximumBytes && |client.sent| <= limits.maximumBytes
    ensures upstream.shutdowns <= 1 && (upstream.shutdowns == 1 ==> client.eof && upstream.sent == client.received)
    ensures client.shutdowns <= 1 && (client.shutdowns == 1 ==> upstream.eof && client.sent == upstream.received)
    ensures r.Relayed? ==>
              && client.eof && upstream.eof
              && upstream.sent == client.received && client.sent == upstream.received
              && upstream.shutdowns == 1 && client.shutdowns == 1
              && r.fromClient == |client.received| && r.fromUpstream == |upstream.received|
  {
    if !ValidLimits(limits) {
      return Refused;
    }
    var started: real := *;
    var lastActivity := started;
    var up := Pipe(true, [], 0, false);    // client to upstream
    var down := Pipe(true, [], 0, false);  // upstream to client
    while Busy(up, down)
      invariant Faithful(client, upstream, up, limits) && Faithful(upstream, client, down, limits)
      invariant Settled(up) && Settled(down)
      decreases Work(up, limits) + Work(down, limits)
    {
      var ok;
      ok, up, down, lastActivity := Turn(client, upstream, waiting, up, down, limits, started, lastActivity);
      if !ok {
        return Refused;
      }
    }
    return Relayed(up.count, down.count);
  }
}
