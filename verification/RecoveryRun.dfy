/**
  The sweep as a run of the approval protocol: whatever crashes led to, a
  process that then runs recovery without interruption reaches a clean store.
 */
module RecoveryRun {
  import opened Wrappers
  import opened PendingRecord
  import opened ApprovalProtocol
  import opened ApprovalInvariant
  import opened ApprovalTheorems
  import opened PendingRecovery

  lemma {:induction false} RunConcat(w: World, a: seq<Action>, u: World, b: seq<Action>, v: World)
    requires Run(w, a, u) && Run(u, b, v)
    ensures Run(w, a + b, v)
    decreases |a|
  {
    if a == [] {
      assert a + b == b;
    } else {
      RunFirst(w, a, u);
      hide Run, Enabled, Exec;
      RunConcat(Exec(w, a[0]), a[1..], u, b, v);
      RunBefore(w, a[0], a[1..] + b, v);
      assert [a[0]] + (a[1..] + b) == a + b;
    }
  }

  lemma RunFirst(w: World, a: seq<Action>, u: World)
    requires a != [] && Run(w, a, u)
    ensures Enabled(w, a[0]) && Run(Exec(w, a[0]), a[1..], u)
  {
    hide Enabled, Exec;
  }

  lemma RunBefore(w: World, x: Action, rest: seq<Action>, v: World)
    requires Enabled(w, x) && Run(Exec(w, x), rest, v)
    ensures Run(w, [x] + rest, v)
  {
    hide Enabled, Exec;
    assert ([x] + rest)[1..] == rest;
  }

  lemma RunOne(w: World, a: Action)
    requires Enabled(w, a)
    ensures Run(w, [a], Exec(w, a))
  {
    hide Enabled, Exec;
    assert [a][1..] == [];
    assert Run(Exec(w, a), [], Exec(w, a));
  }

  // Process `p` is sweeping and about to work on the first record of its list.
  predicate Visiting(w: World, p: Proc, todo: seq<string>, now: nat) {
    && p in w.pcs && w.pcs[p] == Held(Sweep(todo, now), Ready) && w.lock == Some(p)
    && forall i :: 0 <= i < |todo| ==> todo[i] in w.records
  }

  // Only the record `id`, the log and the histories moved on.
  predicate Stage(w: World, v: World, id: string, r: Request, events: seq<Event>) {
    && v.records == w.records[id := r] && v.audit == w.audit + events
    && v.pcs == w.pcs && v.lock == w.lock && v.project == w.project && v.binding == w.binding
  }

  lemma DrainRun(w: World, p: Proc, todo: seq<string>, now: nat) returns (acts: seq<Action>, v: World)
    requires Visiting(w, p, todo, now) && todo != [] && w.records[todo[0]].auditEvent.Some?
    ensures Run(w, acts, v)
    ensures Stage(w, v, todo[0], Cleared(w.records[todo[0]]), [w.records[todo[0]].auditEvent.value])
  {
    var u := Exec(w, AppendMarker(p));
    v := Exec(u, ClearMarker(p));
    RunOne(w, AppendMarker(p));
    RunOne(u, ClearMarker(p));
    RunConcat(w, [AppendMarker(p)], u, [ClearMarker(p)], v);
    acts := [AppendMarker(p)] + [ClearMarker(p)];
    assert v.pcs == w.pcs;
  }

  lemma MigrateRun(w: World, p: Proc, todo: seq<string>, now: nat) returns (acts: seq<Action>, v: World)
    requires Visiting(w, p, todo, now) && todo != []
    ensures Run(w, acts, v)
    ensures Stage(w, v, todo[0], AfterMigration(w.records[todo[0]], now), [])
  {
    if w.records[todo[0]].recoveryAuditPending {
      v := Exec(w, Migrate(p));
      RunOne(w, Migrate(p));
      acts := [Migrate(p)];
      assert v.pcs == w.pcs;
    } else {
      acts, v := [], w;
      assert w.records[todo[0] := w.records[todo[0]]] == w.records;
    }
  }

  lemma ChangeRun(w: World, p: Proc, todo: seq<string>, now: nat, c: Change) returns (acts: seq<Action>, v: World)
    requires Visiting(w, p, todo, now) && todo != []
    requires !w.records[todo[0]].recoveryAuditPending && w.records[todo[0]].auditEvent.None?
    requires SweepChange(w.records[todo[0]], now) == Some(c)
    ensures Run(w, acts, v)
    ensures Stage(w, v, todo[0], Cleared(Changed(w.records[todo[0]], c)), [c.event])
  {
    var first := Replace(p, Clock(now));
    var u := Exec(w, first);
    RunOne(w, first);
    assert u.pcs == w.pcs && u.records == w.records[todo[0] := Changed(w.records[todo[0]], c)];
    assert u.records[todo[0]].auditEvent == Some(c.event);
    var rest;
    rest, v := DrainRun(u, p, todo, now);
    RunConcat(w, [first], u, rest, v);
    acts := [first] + rest;
    assert u.records[todo[0] := Cleared(u.records[todo[0]])]
        == w.records[todo[0] := Cleared(Changed(w.records[todo[0]], c))];
  }

  lemma VisitRun(w: World, p: Proc, todo: seq<string>, now: nat) returns (acts: seq<Action>, v: World)
    requires Visiting(w, p, todo, now) && todo != []
    ensures Run(w, acts, v)
    ensures Stage(w, v, todo[0], Visited(w.records[todo[0]], now), VisitEvents(w.records[todo[0]], now))
  {
    hide Run;
    var id := todo[0];
    var r := w.records[id];
    var u, b;
    acts, u := MigrateRun(w, p, todo, now);
    v := u;
    if u.records[id].auditEvent.Some? {
      b, v := DrainRun(u, p, todo, now);
      RunConcat(w, acts, u, b, v);
      acts := acts + b;
    }
    assert v.records == w.records[id := AfterDrain(r, now)];
    var c := SweepChange(AfterDrain(r, now), now);
    if c.Some? {
      u := v;
      b, v := ChangeRun(u, p, todo, now, c.value);
      RunConcat(w, acts, u, b, v);
      acts := acts + b;
    }
  }

  lemma {:induction false} SweepRun(w: World, p: Proc, todo: seq<string>, now: nat)
    returns (acts: seq<Action>, v: World)
    requires Visiting(w, p, todo, now)
    requires forall id :: id in w.records ==> ValidRequest(w.records[id])
    ensures Run(w, acts, v) && Visiting(v, p, [], now)
    ensures v.records == SweptRecords(w.records, todo, now)
    ensures v.audit == w.audit + SweepEvents(w.records, todo, now)
    ensures v.pcs.Keys == w.pcs.Keys && v.project == w.project && v.binding == w.binding
    decreases |todo|
  {
    hide Run, ValidRequest, Visited, VisitEvents;
    if todo == [] {
      assert Run(w, [], w) by { RunNothing(w); }
      return [], w;
    }
    var id := todo[0];
    VisitCleans(w.records[id], now);
    VisitIsValid(w.records[id], now);
    var u, b, x;
    acts, u := VisitRun(w, p, todo, now);
    x := AdvanceRun(u, p, todo, now);
    RunConcat(w, acts, u, [Advance(p)], x);
    acts := acts + [Advance(p)];
    b, v := SweepRun(x, p, todo[1..], now);
    RunConcat(w, acts, x, b, v);
    acts := acts + b;
  }

  lemma RunNothing(w: World)
    ensures Run(w, [], w)
  {
  }

  lemma AdvanceRun(u: World, p: Proc, todo: seq<string>, now: nat) returns (x: World)
    requires Visiting(u, p, todo, now) && todo != [] && Clean(u.records[todo[0]], now)
    ensures Run(u, [Advance(p)], x) && x == Take(u, p, Sweep(todo[1..], now), Ready)
    ensures Visiting(x, p, todo[1..], now)
  {
    RunOne(u, Advance(p));
    x := Exec(u, Advance(p));
  }

  // From every reachable state in which the lock is free, recovery that is not
  // interrupted ends with a clean store and the lock free again.
  lemma RecoveryConverges(w: World, p: Proc, todo: seq<string>, now: nat)
    returns (acts: seq<Action>, v: World)
    requires Reachable(w) && Idle(w, p) && Lists(todo, w.records)
    ensures Run(w, acts, v) && v.lock.None? && p !in v.pcs
    ensures v.records == SweptRecords(w.records, todo, now) && v.audit == w.audit + SweepEvents(w.records, todo, now)
    ensures v.records.Keys == w.records.Keys
    ensures forall id :: id in w.records ==>
              Clean(v.records[id], now) && RecoveredFrom(w.records[id], v.records[id], now)
  {
    hide *;
    ReachableValid(w);
    var u, b, x;
    u := StartRun(w, p, todo, now);
    b, x := SweepRun(u, p, todo, now);
    v := EndRun(x, p, now);
    acts := [LockSweep(p, todo, now)] + b;
    RunConcat(w, [LockSweep(p, todo, now)], u, b, x);
    RunConcat(w, acts, x, [Finish(p)], v);
    acts := acts + [Finish(p)];
    SweepCovers(w.records, todo, now);
  }

  lemma StartRun(w: World, p: Proc, todo: seq<string>, now: nat) returns (u: World)
    requires Idle(w, p) && Lists(todo, w.records)
    ensures Run(w, [LockSweep(p, todo, now)], u) && Visiting(u, p, todo, now)
    ensures u.records == w.records && u.audit == w.audit
    ensures forall i :: 0 <= i < |todo| ==> todo[i] in w.records
  {
    RunOne(w, LockSweep(p, todo, now));
    u := Exec(w, LockSweep(p, todo, now));
  }

  lemma EndRun(x: World, p: Proc, now: nat) returns (v: World)
    requires Visiting(x, p, [], now)
    ensures Run(x, [Finish(p)], v) && v.lock.None? && p !in v.pcs && v.records == x.records && v.audit == x.audit
  {
    RunOne(x, Finish(p));
    v := Exec(x, Finish(p));
  }

  lemma SweepCovers(records: map<string, Request>, todo: seq<string>, now: nat)
    requires Lists(todo, records) && forall id :: id in records ==> ValidRequest(records[id])
    ensures forall i :: 0 <= i < |todo| ==> todo[i] in records
    ensures var swept := SweptRecords(records, todo, now);
            && swept.Keys == records.Keys
            && forall id :: id in records ==> Clean(swept[id], now) && RecoveredFrom(records[id], swept[id], now)
  {
    SweepCleans(records, todo, now);
  }

  lemma ReachableValid(w: World)
    requires Reachable(w)
    ensures forall id :: id in w.records ==> ValidRequest(w.records[id])
  {
    ReachableInv(w);
    AllValid(w);
  }

  lemma AllValid(w: World)
    requires Inv(w)
    ensures forall id :: id in w.records ==> ValidRequest(w.records[id])
  {
    forall id | id in w.records ensures ValidRequest(w.records[id]) {
      RecordOk(w, id);
    }
  }
}
