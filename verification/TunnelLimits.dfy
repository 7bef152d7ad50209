/**
  The two coupled limits of the egress broker: tunnels open at the same time and
  tunnels created in its lifetime (src/agent_container/egress_broker_runtime.py:94-126, 151-205).
 */
module TunnelLimits {
  import opened Wrappers

  const MAX_ACTIVE_TUNNELS := 32
  const MAX_CREATED_TUNNELS := 128

  datatype Limits = Limits(next: nat, active: set<nat>, created: set<nat>, createdTunnels: nat)

  predicate WithinLimits(l: Limits) {
    && l.created <= l.active && |l.active| <= MAX_ACTIVE_TUNNELS
    && l.createdTunnels + |l.active - l.created| <= MAX_CREATED_TUNNELS
    && forall r :: r in l.active ==> r < l.next
  }

  // Room for one more tunnel under both limits.
  predicate HasRoom(l: Limits) {
    |l.active| < MAX_ACTIVE_TUNNELS && l.createdTunnels + |l.active - l.created| < MAX_CREATED_TUNNELS
  }

  predicate Markable(l: Limits, r: nat) {
    r in l.active && r !in l.created && l.createdTunnels < MAX_CREATED_TUNNELS
  }

  class EgressBrokerRuntime {
    var nextReservation: nat
    var activeReservations: set<nat>
    var createdReservations: set<nat>
    var createdTunnels: nat

    ghost function State(): Limits
      reads this
    {
      Limits(nextReservation, activeReservations, createdReservations, createdTunnels)
    }

    constructor ()
      ensures State() == Limits(1, {}, {}, 0)
    {
      nextReservation, activeReservations, createdReservations, createdTunnels := 1, {}, {}, 0;
    }

    method ReserveTunnel() returns (r: Option<nat>)
      modifies this
      ensures r == Reserve(old(State())).0 && State() == Reserve(old(State())).1
      // granted exactly while less than 32 are open and less than 128 created or to be
      ensures r.Some? <==>
                && |old(activeReservations)| < 32
                && old(createdTunnels) + |old(activeReservations - createdReservations)| < 128
      ensures createdReservations == old(createdReservations) && createdTunnels == old(createdTunnels)
      ensures r.None? ==> activeReservations == old(activeReservations) && nextReservation == old(nextReservation)
      ensures r.Some? ==>
                && r.value == old(nextReservation) && nextReservation == r.value + 1
                && activeReservations == old(activeReservations) + {r.value}
    {
      var pendingCreations := |activeReservations - createdReservations|;
      if |activeReservations| >= MAX_ACTIVE_TUNNELS || createdTunnels + pendingCreations >= MAX_CREATED_TUNNELS {
        return None;
      }
      var reservation := nextReservation;
      nextReservation := nextReservation + 1;
      activeReservations := activeReservations + {reservation};
      return Some(reservation);
    }

    method MarkTunnelCreated(reservation: nat) returns (ok: bool)
      modifies this
      ensures State() == Mark(old(State()), reservation)
      ensures ok <==>
                && reservation in old(activeReservations) && reservation !in old(createdReservations)
                && old(createdTunnels) < 128
      ensures nextReservation == old(nextReservation) && activeReservations == old(activeReservations)
      ensures createdReservations == old(createdReservations) + (if ok then {reservation} else {})
      ensures createdTunnels == old(createdTunnels) + if ok then 1 else 0
    {
      if reservation !in activeReservations || reservation in createdReservations
         || createdTunnels >= MAX_CREATED_TUNNELS
      {
        return false;
      }
      createdReservations := createdReservations + {reservation};
      createdTunnels := createdTunnels + 1;
      return true;
    }

    method ReleaseTunnel(reservation: nat) returns (ok: bool)
      modifies this
      ensures ok <==> reservation in old(activeReservations)
      ensures State() == Free(old(State()), reservation)
      ensures nextReservation == old(nextReservation) && createdTunnels == old(createdTunnels)
      ensures activeReservations == old(activeReservations) - {reservation}
      ensures createdReservations == old(createdReservations) - if ok then {reservation} else {}
    {
      if reservation !in activeReservations {
        return false;
      }
      activeReservations := activeReservations - {reservation};
      createdReservations := createdReservations - {reservation};
      return true;
    }
  }

  function Reserve(l: Limits): (Option<nat>, Limits) {
    if HasRoom(l) then (Some(l.next), l.(next := l.next + 1, active := l.active + {l.next})) else (None, l)
  }

  function Mark(l: Limits, r: nat): Limits {
    if Markable(l, r) then l.(created := l.created + {r}, createdTunnels := l.createdTunnels + 1) else l
  }

  function Free(l: Limits, r: nat): Limits {
    if r in l.active then l.(active := l.active - {r}, created := l.created - {r}) else l
  }

  // ---- Handlers of concurrent connections ----

  // `_handle_client`: reserve, resolve and connect, mark, relay, release.
  datatype Handler = Waiting | Reserved(reservation: nat) | Relaying(reservation: nat) | Ended

  datatype System = System(limits: Limits, handlers: map<nat, Handler>)

  datatype Step =
    | Connect(h: nat)           // a new connection
    | TryReserve(h: nat)        // refused connections end
    | TryMark(h: nat)           // the upstream is connected
    | Close(h: nat)             // at any point after the reservation: the `finally` clause

  predicate Holding(c: Handler) {
    c.Reserved? || c.Relaying?
  }

  predicate Enabled(s: System, a: Step) {
    match a
    case Connect(h) => h !in s.handlers
    case TryReserve(h) => h in s.handlers && s.handlers[h].Waiting?
    case TryMark(h) => h in s.handlers && s.handlers[h].Reserved?
    case Close(h) => h in s.handlers && Holding(s.handlers[h])
  }

  function Exec(s: System, a: Step): System
    requires Enabled(s, a)
  {
    match a
    case Connect(h) => s.(handlers := s.handlers[h := Waiting])
    case TryReserve(h) =>
      var (r, l) := Reserve(s.limits);
      System(l, s.handlers[h := if r.Some? then Reserved(r.value) else Ended])
    case TryMark(h) =>
      var r := s.handlers[h].reservation;
      System(Mark(s.limits, r), s.handlers[h := if Markable(s.limits, r) then Relaying(r) else Reserved(r)])
    case Close(h) => System(Free(s.limits, s.handlers[h].reservation), s.handlers[h := Ended])
  }

  ghost predicate Run(s: System, steps: seq<Step>, t: System)
    decreases |steps|
  {
    if steps == [] then s == t else Enabled(s, steps[0]) && Run(Exec(s, steps[0]), steps[1..], t)
  }

  const INITIAL := System(Limits(1, {}, {}, 0), map[])

  function Holders(s: System): set<nat> {
    set h | h in s.handlers && Holding(s.handlers[h])
  }

  // The reservations are exactly what the handlers hold, one each, and a tunnel
  // is created exactly when its handler has marked it.
  ghost predicate Inv(s: System) {
    && WithinLimits(s.limits)
    && (forall h :: h in Holders(s) ==>
          s.handlers[h].reservation in s.limits.active
          && (s.handlers[h].Relaying? <==> s.handlers[h].reservation in s.limits.created))
    && (forall h, k :: h in Holders(s) && k in Holders(s) && h != k ==>
          s.handlers[h].reservation != s.handlers[k].reservation)
    && |s.limits.active| == |Holders(s)|
  }

  lemma ReserveKeepsLimits(l: Limits)
    requires WithinLimits(l)
    ensures WithinLimits(Reserve(l).1)
  {
    assert l.active + {l.next} - l.created == (l.active - l.created) + {l.next};
  }

  lemma MarkKeepsLimits(l: Limits, r: nat)
    requires WithinLimits(l)
    ensures WithinLimits(Mark(l, r))
    ensures r in l.active && r !in l.created ==> Markable(l, r)
  {
    if r in l.active && r !in l.created {
      assert l.active - l.created == (l.active - (l.created + {r})) + {r};
    }
  }

  lemma FreeKeepsLimits(l: Limits, r: nat)
    requires WithinLimits(l)
    ensures WithinLimits(Free(l, r))
    ensures r in l.active ==> |Free(l, r).active| == |l.active| - 1
  {
    if r in l.active {
      assert l.active == (l.active - {r}) + {r};
      var f := Free(l, r);
      assert f.active - f.created <= l.active - l.created;
      assert l.active - l.created == (f.active - f.created) + ((l.active - l.created) - (f.active - f.created));
    }
  }

  lemma ConnectStep(s: System, h: nat)
    requires Inv(s) && Enabled(s, Connect(h))
    ensures Inv(Exec(s, Connect(h)))
  {
    assert Holders(Exec(s, Connect(h))) == Holders(s);
  }

  lemma ReserveStep(s: System, h: nat)
    requires Inv(s) && Enabled(s, TryReserve(h))
    ensures Inv(Exec(s, TryReserve(h)))
  {
    if HasRoom(s.limits) {
      GrantedStep(s, h);
    } else {
      hide WithinLimits, HasRoom;
      assert Holders(Exec(s, TryReserve(h))) == Holders(s);
    }
  }

  lemma GrantedStep(s: System, h: nat)
    requires Inv(s) && Enabled(s, TryReserve(h)) && HasRoom(s.limits)
    ensures Inv(Exec(s, TryReserve(h)))
  {
    var t := Exec(s, TryReserve(h));
    var r := s.limits.next;
    assert t == System(Reserve(s.limits).1, s.handlers[h := Reserved(r)]);
    ReserveKeepsLimits(s.limits);
    NewReservation(s.limits);
    hide WithinLimits, HasRoom;
    NewHolder(s, t.limits, h, r);
    assert h !in Holders(s);
    assert t.limits.active == s.limits.active + {r} && t.limits.created == s.limits.created;
    forall k | k in Holders(t) ensures k == h || (k in Holders(s) && t.handlers[k] == s.handlers[k]) {
    }
    assert forall k :: k in Holders(s) ==> s.handlers[k].reservation != r;
  }

  lemma NewHolder(s: System, l: Limits, h: nat, r: nat)
    requires h in s.handlers && s.handlers[h].Waiting?
    ensures Holders(System(l, s.handlers[h := Reserved(r)])) == Holders(s) + {h}
  {
  }

  lemma NewReservation(l: Limits)
    requires WithinLimits(l)
    ensures forall r :: r in l.active ==> r < l.next
    ensures l.next !in l.created && |l.active + {l.next}| == |l.active| + 1
  {
  }

  lemma MarkStep(s: System, h: nat)
    requires Inv(s) && Enabled(s, TryMark(h))
    ensures Inv(Exec(s, TryMark(h)))
  {
    MarkKeepsLimits(s.limits, s.handlers[h].reservation);
    hide WithinLimits;
    assert h in Holders(s);
    assert Holders(Exec(s, TryMark(h))) == Holders(s);
  }

  lemma CloseStep(s: System, h: nat)
    requires Inv(s) && Enabled(s, Close(h))
    ensures Inv(Exec(s, Close(h)))
  {
    FreeKeepsLimits(s.limits, s.handlers[h].reservation);
    hide WithinLimits;
    assert h in Holders(s);
    assert Holders(s) == Holders(Exec(s, Close(h))) + {h};
  }

  lemma StepKeepsInv(s: System, a: Step)
    requires Inv(s) && Enabled(s, a)
    ensures Inv(Exec(s, a))
  {
    hide Inv;
    match a {
      case Connect(h) => ConnectStep(s, h);
      case TryReserve(h) => ReserveStep(s, h);
      case TryMark(h) => MarkStep(s, h);
      case Close(h) => CloseStep(s, h);
    }
  }

  lemma {:induction false} RunKeepsInv(s: System, steps: seq<Step>, t: System)
    requires Inv(s) && Run(s, steps, t)
    ensures Inv(t)
    decreases |steps|
  {
    if steps != [] {
      StepKeepsInv(s, steps[0]);
      RunKeepsInv(Exec(s, steps[0]), steps[1..], t);
    }
  }

  // Under any interleaving of any number of connections.
  lemma LimitsAlwaysHold(steps: seq<Step>, s: System)
    requires Run(INITIAL, steps, s)
    ensures |s.limits.active| <= MAX_ACTIVE_TUNNELS && s.limits.created <= s.limits.active
    ensures s.limits.createdTunnels + |s.limits.active - s.limits.created| <= MAX_CREATED_TUNNELS
    ensures |s.limits.active| == |Holders(s)|
  {
    assert Holders(INITIAL) == {};
    RunKeepsInv(INITIAL, steps, s);
  }

  // A handler that obtained a reservation can always mark it once and always release it.
  lemma ReservationIsGood(steps: seq<Step>, s: System, h: nat)
    requires Run(INITIAL, steps, s) && h in Holders(s)
    ensures s.handlers[h].reservation in s.limits.active
    ensures Markable(s.limits, s.handlers[h].reservation) <==> s.handlers[h].Reserved?
  {
    assert Holders(INITIAL) == {};
    RunKeepsInv(INITIAL, steps, s);
    MarkKeepsLimits(s.limits, s.handlers[h].reservation);
  }

  // Created tunnels are only ever counted up, once per successful mark.
  lemma {:induction false} LifetimeCount(s: System, steps: seq<Step>, t: System)
    requires Inv(s) && Run(s, steps, t)
    ensures t.limits.createdTunnels == s.limits.createdTunnels + Marks(steps)
    decreases |steps|
  {
    if steps != [] {
      StepKeepsInv(s, steps[0]);
      if steps[0].TryMark? {
        assert steps[0].h in Holders(s);
        MarkKeepsLimits(s.limits, s.handlers[steps[0].h].reservation);
      }
      LifetimeCount(Exec(s, steps[0]), steps[1..], t);
    }
  }

  function Marks(steps: seq<Step>): nat {
    if steps == [] then 0 else (if steps[0].TryMark? then 1 else 0) + Marks(steps[1..])
  }

  // ---- When a tunnel is granted ----

  function Relayers(s: System): set<nat> {
    set h | h in s.handlers && s.handlers[h].Relaying?
  }

  // The handlers that have a reservation and no tunnel yet.
  function Preparing(s: System): set<nat> {
    set h | h in s.handlers && s.handlers[h].Reserved?
  }

  ghost predicate Counted(s: System) {
    |s.limits.created| == |Relayers(s)|
  }

  lemma SameRelayers(s: System, l: Limits, h: nat, c: Handler)
    requires Counted(s) && l.created == s.limits.created && !c.Relaying? && h !in Relayers(s)
    ensures Counted(System(l, s.handlers[h := c]))
  {
    assert Relayers(System(l, s.handlers[h := c])) == Relayers(s);
  }

  lemma MarkKeepsCount(s: System, h: nat)
    requires Inv(s) && Counted(s) && Enabled(s, TryMark(h))
    ensures Counted(Exec(s, TryMark(h)))
  {
    var r, t := s.handlers[h].reservation, Exec(s, TryMark(h));
    assert h in Holders(s);
    MarkKeepsLimits(s.limits, r);
    hide WithinLimits;
    assert Relayers(t) == Relayers(s) + {h};
  }

  lemma CloseKeepsCount(s: System, h: nat)
    requires Inv(s) && Counted(s) && Enabled(s, Close(h))
    ensures Counted(Exec(s, Close(h)))
  {
    var r, t := s.handlers[h].reservation, Exec(s, Close(h));
    assert h in Holders(s);
    hide WithinLimits, Inv;
    assert Relayers(t) == Relayers(s) - {h};
    assert t.limits.created == s.limits.created - {r};
    CloseInv(s, h);
  }

  lemma CloseInv(s: System, h: nat)
    requires Inv(s) && Enabled(s, Close(h))
    ensures s.handlers[h].reservation in s.limits.active
    ensures s.handlers[h].reservation in s.limits.created <==> h in Relayers(s)
  {
    hide WithinLimits;
    assert h in Holders(s);
  }

  lemma StepKeepsCount(s: System, a: Step)
    requires Inv(s) && Counted(s) && Enabled(s, a)
    ensures Counted(Exec(s, a))
  {
    hide Inv, Counted;
    match a {
      case Connect(h) => SameRelayers(s, s.limits, h, Waiting);
      case TryReserve(h) =>
        var (r, l) := Reserve(s.limits);
        SameRelayers(s, l, h, if r.Some? then Reserved(r.value) else Ended);
      case TryMark(h) => MarkKeepsCount(s, h);
      case Close(h) => CloseKeepsCount(s, h);
    }
  }

  lemma {:induction false} RunKeepsCount(s: System, steps: seq<Step>, t: System)
    requires Inv(s) && Counted(s) && Run(s, steps, t)
    ensures Counted(t)
    decreases |steps|
  {
    if steps != [] {
      StepKeepsInv(s, steps[0]);
      StepKeepsCount(s, steps[0]);
      RunKeepsCount(Exec(s, steps[0]), steps[1..], t);
    }
  }

  // In every interleaving a waiting handler is granted a reservation exactly while less
  // than 32 handlers hold one and the tunnels ever created, with those being prepared,
  // are less than 128.
  lemma GrantedWhileThereIsRoom(steps: seq<Step>, s: System, h: nat)
    requires Run(INITIAL, steps, s) && Enabled(s, TryReserve(h))
    ensures Exec(s, TryReserve(h)).handlers[h].Reserved? <==>
              |Holders(s)| < 32 && Marks(steps) + |Preparing(s)| < 128
  {
    assert Holders(INITIAL) == {} && Relayers(INITIAL) == {};
    RunKeepsInv(INITIAL, steps, s);
    RunKeepsCount(INITIAL, steps, s);
    LifetimeCount(INITIAL, steps, s);
    hide Run;
    HandlersSplit(s);
    hide Holders, Relayers, Preparing, Holding;
    assert s.limits.active == s.limits.created + (s.limits.active - s.limits.created);
  }

  lemma HandlersSplit(s: System)
    ensures |Holders(s)| == |Relayers(s)| + |Preparing(s)|
  {
    assert Holders(s) == Relayers(s) + Preparing(s) && Relayers(s) !! Preparing(s);
  }
}
