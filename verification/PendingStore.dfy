/**
  The durable store and the procedures that change it under its lock
  (src/agent_container/family_pending.py).  An operation that reports failure
  stands for an exception; the durable state is then where the steps up to the
  exception left it.
 */
module PendingStore {
  import opened Wrappers
  import opened PendingRecord
  import opened ApprovalProtocol
  import opened PendingRecovery
  import opened Utf8

  class Store {
    var records: map<string, Request>
    var audit: seq<Event>
    const failing: bool

    // An empty store; on one that is not `failing` no write raises an exception.
    constructor (failing: bool)
      ensures records == map[] && audit == [] && this.failing == failing
    {
      records := map[];
      audit := [];
      this.failing := failing;
    }

    // `_atomic_replace` seen from outside: the old record or the new one, and
    // after an exception either of them.
    method AtomicReplace(id: string, changed: Request) returns (ok: bool)
      modifies this`records
      ensures ok ==> records == old(records)[id := changed]
      ensures !ok ==> failing && (records == old(records) || records == old(records)[id := changed])
    {
      var written: bool, raised: bool := *, *;
      if written || !failing {
        records := records[id := changed];
      }
      return !failing || (written && !raised);
    }

    // `_publish_new` for a name that is free.
    method PublishNew(id: string, record: Request) returns (ok: bool)
      requires id !in records
      modifies this`records
      ensures ok ==> records == old(records)[id := record]
      ensures !ok ==> failing && (records == old(records) || records == old(records)[id := record])
    {
      ok := AtomicReplace(id, record);
    }

    // `append_family_audit`: one whole entry or, unless its rollback fails too, none.
    method AppendAudit(e: Event) returns (ok: bool)
      modifies this`audit
      ensures ok ==> audit == old(audit) + [e]
      ensures !ok ==> failing && (audit == old(audit) || audit == old(audit) + [e])
    {
      var written: bool, raised: bool := *, *;
      if written || !failing {
        audit := audit + [e];
      }
      return !failing || (written && !raised);
    }
  }

  /** A validated record whose lock is held: `LockedPending`. */
  class LockedPending {
    const store: Store
    const id: string
    var active: bool
    var request: Request

    ghost predicate Valid()
      reads this, store
    {
      active && id in store.records && store.records[id] == request && ValidRequest(request) && request.id == id
    }

    constructor (store: Store, id: string)
      requires id in store.records && ValidRequest(store.records[id]) && store.records[id].id == id
      ensures Valid() && this.store == store && this.id == id && request == store.records[id]
    {
      this.store := store;
      this.id := id;
      active := true;
      request := store.records[id];
    }

    // `_transition_pending`: refused unless the audit of the record is complete
    // and the table allows the transition; otherwise one replacement.
    method TransitionPending(c: Change) returns (ok: bool)
      requires Valid() && Target(c.event) == Some(c.target) && c.event.project == request.project
      requires c.event.request == id && !c.event.operation.Intake?
      requires (c.target.Created? <==> c.number.Some?) && (c.target.Created? <==> c.url.Some?)
      requires c.target.Created? ==> ValidUrl(c.url.value, c.number.value)
      modifies this`request, store`records
      ensures ok ==>
                && old(!request.recoveryAuditPending && request.auditEvent.None? && Allowed(request.state, c.target))
                && Valid() && request == Changed(old(request), c)
                && store.records == old(store.records)[id := Changed(old(request), c)]
      ensures !ok ==> store.records == old(store.records)
                      || store.records == old(store.records)[id := Changed(old(request), c)]
      ensures old(request.recoveryAuditPending || request.auditEvent.Some? || !Allowed(request.state, c.target)) ==>
                !ok && store.records == old(store.records) && request == old(request)
      ensures !store.failing ==>
                (ok <==> old(!request.recoveryAuditPending && request.auditEvent.None?
                  && Allowed(request.state, c.target)))
    {
      if request.recoveryAuditPending || request.auditEvent.Some? {
        return false;
      }
      if !Allowed(request.state, c.target) {
        return false;
      }
      var changed := Changed(request, c);
      ChangedIsValid(request, c);
      ok := store.AtomicReplace(id, changed);
      if ok {
        request := changed;
      }
    }

    // `_replace_audit_metadata`.
    method ReplaceAuditMetadata(marker: Option<Event>) returns (ok: bool)
      requires Valid()
      requires marker.Some? ==> marker.value.project == request.project && marker.value.request == id
      modifies this`request, store`records
      ensures var changed := old(request).(recoveryAuditPending := false, auditEvent := marker);
              && (ok ==> Valid() && request == changed && store.records == old(store.records)[id := changed])
              && (!ok ==> store.failing)
              && (!ok ==> store.records == old(store.records) || store.records == old(store.records)[id := changed])
    {
      var changed := request.(recoveryAuditPending := false, auditEvent := marker);
      ok := store.AtomicReplace(id, changed);
      if ok {
        request := changed;
      }
    }

    // `_migrate_recovery_audit_pending`.
    method MigrateRecoveryAuditPending(timestamp: nat) returns (ok: bool)
      requires Valid()
      modifies this`request, store`records
      ensures ok ==> old(request.recoveryAuditPending) && Valid() && request == Migrated(old(request), timestamp)
                     && store.records == old(store.records)[id := Migrated(old(request), timestamp)]
      ensures !ok ==> store.records == old(store.records)
                      || store.records == old(store.records)[id := Migrated(old(request), timestamp)]
      ensures !store.failing ==> (ok <==> old(request.recoveryAuditPending))
    {
      if !request.state.Unknown? || !request.recoveryAuditPending || request.auditEvent.Some? {
        return false;
      }
      ok := ReplaceAuditMetadata(Some(RecoverEvent(request, timestamp)));
    }

    // `_drain_audit_event`: append, then clear, in this order.
    method DrainAuditEvent() returns (ok: bool)
      requires Valid()
      modifies this`request, store`records, store`audit
      ensures ok ==> && old(request.auditEvent.Some?) && Valid() && request == Cleared(old(request))
                     && store.records == old(store.records)[id := Cleared(old(request))]
                     && store.audit == old(store.audit) + [old(request).auditEvent.value]
      ensures !ok ==>
                || (store.records == old(store.records) && store.audit == old(store.audit))
                || (old(request.auditEvent.Some?) && store.records == old(store.records)
                    && store.audit == old(store.audit) + [old(request).auditEvent.value])
                || (old(request.auditEvent.Some?) && store.records == old(store.records)[id := Cleared(old(request))]
                    && store.audit == old(store.audit) + [old(request).auditEvent.value])
      ensures !store.failing ==> (ok <==> old(request.auditEvent.Some?))
    {
      if request.auditEvent.None? {
        return false;
      }
      ok := store.AppendAudit(request.auditEvent.value);
      if ok {
        ok := ReplaceAuditMetadata(None);
      }
    }

    // `transition_pending_audited` either completes or stops after one of its
    // durable steps: nothing, replaced, appended, or cleared.
    method TransitionAudited(c: Change) returns (ok: bool, ghost steps: nat)
      requires Valid() && Target(c.event) == Some(c.target) && c.event.project == request.project
      requires c.event.request == id && !c.event.operation.Intake?
      requires (c.target.Created? <==> c.number.Some?) && (c.target.Created? <==> c.url.Some?)
      requires c.target.Created? ==> ValidUrl(c.url.value, c.number.value)
      modifies this`request, store`records, store`audit
      ensures steps <= 3 && (steps > 0
              ==> old(!request.recoveryAuditPending && request.auditEvent.None? && Allowed(request.state, c.target)))
      ensures store.records == (if steps == 0 then old(store.records)
                                else if steps <= 2 then old(store.records)[id := Changed(old(request), c)]
                                else old(store.records)[id := Cleared(Changed(old(request), c))])
      ensures store.audit == old(store.audit) + (if steps <= 1 then [] else [c.event])
      ensures ok ==> steps == 3 && Valid() && request == Cleared(Changed(old(request), c))
      ensures !store.failing ==>
                (ok <==> old(!request.recoveryAuditPending && request.auditEvent.None?
                  && Allowed(request.state, c.target)))
    {
      label start:
      steps := 0;
      ok := TransitionPending(c);
      if !ok {
        steps := if store.records == old(store.records) then 0 else 1;
        return;
      }
      label replaced:
      ok := DrainAuditEvent();
      assert old@replaced(store.records)[id := Cleared(Changed(old(request), c))]
          == old(store.records)[id := Cleared(Changed(old(request), c))];
      if ok || store.records != old@replaced(store.records) {
        steps := 3;
      } else {
        steps := if store.audit == old(store.audit) then 1 else 2;
      }
    }
  }

  // A visit in the fields of the record.
  lemma VisitInFields(r: Request, now: nat)
    requires ValidRequest(r)
    ensures var late := r.state.Pending? && now >= r.expiresAt;
            var recovery := Event(now, r.project, r.id, Operation.Recover, Reached(State.Unknown), AtReconcile);
            var expiry := Event(now, r.project, r.id, Operation.Expire, Reached(State.Expired), AtCleanup);
            var state := if r.state.Sending? then State.Unknown else if late then State.Expired else r.state;
            && Visited(r, now) == r.(state := state, issue := if late then None else r.issue,
                                     recoveryAuditPending := false, auditEvent := None)
            && VisitEvents(r, now)
               == (if r.recoveryAuditPending then [recovery]
                   else if r.auditEvent.Some? then [r.auditEvent.value] else [])
                  + (if r.state.Sending? then [recovery] else if late then [expiry] else [])
  {
    hide ValidIssue, ValidUrl, IsSlug, IsRequestId;
  }

  // Wherever a visit is interrupted, the record has moved as far as a visit may move it,
  // and its event and that of the move are in the log or still stored with it.
  lemma StageInFields(r: Request, now: nat, s: Request, events: seq<Event>)
    requires ValidRequest(r) && VisitStage(r, now, s, events)
    ensures var late := r.state.Pending? && now >= r.expiresAt;
            var recovery := Event(now, r.project, r.id, Operation.Recover, Reached(State.Unknown), AtReconcile);
            var expiry := Event(now, r.project, r.id, Operation.Expire, Reached(State.Expired), AtCleanup);
            var owed := if r.recoveryAuditPending then Some(recovery) else r.auditEvent;
            && s.(state := r.state, issue := r.issue, recoveryAuditPending := r.recoveryAuditPending,
                  auditEvent := r.auditEvent) == r
            && (s.state == r.state || (r.state.Sending? && s.state.Unknown?) || (late && s.state.Expired?))
            && s.issue == (if s.state == r.state || s.state.Unknown? then r.issue else None)
            && (owed.Some? ==> s == r || s.auditEvent == owed || (events != [] && events[0] == owed.value))
            && (s.state != r.state ==>
                  var e := if s.state.Unknown? then recovery else expiry;
                  s.auditEvent == Some(e) || (events != [] && events[|events| - 1] == e))
  {
    hide ValidIssue, ValidUrl, IsSlug, IsRequestId;
  }

  // One turn of the loop of `initialize_pending_store`, also made by `create_pending`.
  method VisitLocked(locked: LockedPending, timestamp: nat) returns (ok: bool)
    requires locked.Valid()
    modifies locked`request, locked.store`records, locked.store`audit
    ensures locked.id in locked.store.records
    ensures locked.store.records == old(locked.store.records)[locked.id := locked.store.records[locked.id]]
    ensures ok ==>
              && locked.store.records[locked.id] == Visited(old(locked.request), timestamp)
              && locked.store.audit == old(locked.store.audit) + VisitEvents(old(locked.request), timestamp)
    // in the fields: a stranded SENDING becomes UNKNOWN, a PENDING out of time EXPIRED, and
    // the marker, or the legacy bit as a recovery, is logged before that
    ensures ok ==>
              var r, told := old(locked.request), old(locked.store.audit);
              var late := r.state.Pending? && timestamp >= r.expiresAt;
              var recovery := Event(timestamp, r.project, r.id, Operation.Recover, Reached(State.Unknown), AtReconcile);
              var expiry := Event(timestamp, r.project, r.id, Operation.Expire, Reached(State.Expired), AtCleanup);
              var state := if r.state.Sending? then State.Unknown else if late then State.Expired else r.state;
              && locked.store.records[locked.id]
                 == r.(state := state, issue := if late then None else r.issue,
                       recoveryAuditPending := false, auditEvent := None)
              && locked.store.audit
                 == told + (if r.recoveryAuditPending then [recovery]
                            else if r.auditEvent.Some? then [r.auditEvent.value] else [])
                         + (if r.state.Sending? then [recovery] else if late then [expiry] else [])
    ensures !locked.store.failing ==> ok
    // also after an exception: record and log are at some stage of the visit
    ensures old(locked.store.audit) <= locked.store.audit
    ensures VisitStage(old(locked.request), timestamp, locked.store.records[locked.id],
                       locked.store.audit[|old(locked.store.audit)|..])
  {
    hide ValidIssue, ValidUrl, IsSlug, IsRequestId;
    var store := locked.store;
    ghost var r, records, audit := locked.request, store.records, store.audit;
    assert records[locked.id := r] == records && audit + [] == audit;
    VisitInFields(r, timestamp);
    if locked.request.recoveryAuditPending {
      ok := locked.MigrateRecoveryAuditPending(timestamp);
      if !ok { return; }
    }
    assert locked.request == AfterMigration(r, timestamp);
    if locked.request.auditEvent.Some? {
      ok := locked.DrainAuditEvent();
      assert store.audit == audit || store.audit == audit + FoundEvents(r, timestamp);
      if !ok { return; }
    }
    assert locked.request == AfterDrain(r, timestamp) && store.audit == audit + FoundEvents(r, timestamp);
    ok := ChangeLocked(locked, timestamp, r, audit);
  }

  // The transition of a visit, if it makes one.  `r` and `audit` are what the visit
  // began with.
  method ChangeLocked(locked: LockedPending, timestamp: nat, ghost r: Request, ghost audit: seq<Event>)
    returns (ok: bool)
    requires locked.Valid() && locked.request == AfterDrain(r, timestamp)
    requires locked.store.audit == audit + FoundEvents(r, timestamp)
    modifies locked`request, locked.store`records, locked.store`audit
    ensures locked.id in locked.store.records
    ensures locked.store.records == old(locked.store.records)[locked.id := locked.store.records[locked.id]]
    ensures ok ==>
              && locked.store.records[locked.id] == Visited(r, timestamp)
              && locked.store.audit == audit + VisitEvents(r, timestamp)
    ensures !locked.store.failing ==> ok
    ensures audit <= locked.store.audit
    ensures VisitStage(r, timestamp, locked.store.records[locked.id], locked.store.audit[|audit|..])
  {
    hide ValidIssue, ValidUrl, IsSlug, IsRequestId;
    ghost var steps;
    ghost var first := FoundEvents(r, timestamp);
    assert locked.store.records[locked.id := locked.request] == locked.store.records;
    assert first + [] == first;
    if locked.request.state.Sending? {
      var c := RecoverChange(locked.request, timestamp);
      ok, steps := locked.TransitionAudited(c);
      assert (audit + first) + [c.event] == audit + (first + [c.event]);
    } else if locked.request.state.Pending? && timestamp >= locked.request.expiresAt {
      var c := ExpireChange(locked.request, timestamp);
      ok, steps := locked.TransitionAudited(c);
      assert (audit + first) + [c.event] == audit + (first + [c.event]);
    } else {
      ok := true;
    }
  }

  ghost predicate WellFormed(records: map<string, Request>) {
    forall id :: id in records ==> ValidRequest(records[id]) && records[id].id == id
  }

  lemma VisitKeepsForm(records: map<string, Request>, id: string, now: nat)
    requires WellFormed(records) && id in records
    ensures WellFormed(records[id := Visited(records[id], now)])
  {
    VisitIsValid(records[id], now);
  }

  lemma FormOf(records: map<string, Request>, id: string)
    requires WellFormed(records) && id in records
    ensures ValidRequest(records[id]) && records[id].id == id
  {
  }

  // A visit of the next record, seen from the start of the sweep.
  lemma NextVisit(records: map<string, Request>, ids: seq<string>, now: nat, i: nat)
    requires Lists(ids, records) && i < |ids|
    ensures ids[i] in SweptRecords(records, ids[..i], now)
    ensures var mid := SweptRecords(records, ids[..i], now);
            && SweptRecords(records, ids[..i + 1], now) == mid[ids[i] := Visited(mid[ids[i]], now)]
            && SweepEvents(records, ids[..i + 1], now) == SweepEvents(records, ids[..i], now)
               + VisitEvents(mid[ids[i]], now)
            && RecoveredIds(records, ids[..i + 1], now)
               == RecoveredIds(records, ids[..i], now) + if WasRecovery(mid[ids[i]]) then [ids[i]] else []
  {
    hide SweptRecords, SweepEvents, RecoveredIds, WasRecovery, Visited, VisitEvents;
    assert ids[..i + 1] == ids[..i] + [ids[i]];
    SweepOneMore(records, ids[..i], now, ids[i]);
  }

  lemma StoppedAt(records: map<string, Request>, ids: seq<string>, now: nat, i: nat,
                  after: map<string, Request>, visit: seq<Event>, audit: seq<Event>, log: seq<Event>)
    requires Lists(ids, records) && i < |ids| && ids[i] in after
    requires var mid := SweptRecords(records, ids[..i], now);
             && ids[i] in mid && after == mid[ids[i] := after[ids[i]]]
                && VisitStage(mid[ids[i]], now, after[ids[i]], visit)
    requires log == audit + SweepEvents(records, ids[..i], now) + visit
    ensures audit <= log && SweepStage(records, ids, now, after, log[|audit|..])
  {
    hide SweptRecords, SweepEvents, VisitStage;
    var told := SweepEvents(records, ids[..i], now);
    assert log[|audit|..] == told + visit && (told + visit)[|told|..] == visit;
    assert StageAt(records, ids, now, i, after, log[|audit|..]);
  }

  predicate SameProjects(records: map<string, Request>, after: map<string, Request>) {
    after.Keys == records.Keys && forall id :: id in records ==> after[id].project == records[id].project
  }

  lemma VisitKeepsProject(r: Request, now: nat)
    ensures Visited(r, now).project == r.project
  {
  }

  lemma NotVisited(r: Request, now: nat)
    ensures VisitStage(r, now, r, [])
  {
  }

  lemma NothingSwept(records: map<string, Request>, now: nat)
    ensures SweptRecords(records, [], now) == records && SweepEvents(records, [], now) == []
    ensures RecoveredIds(records, [], now) == []
  {
  }

  // `initialize_pending_store`.  `ids` is the inventory; the result lists the
  // requests whose interrupted send was recovered.
  method InitializePendingStore(store: Store, project: string, ids: seq<string>, timestamp: nat)
    returns (ok: bool, recovered: seq<string>)
    requires WellFormed(store.records) && Lists(ids, store.records)
    modifies store
    ensures store.records.Keys == old(store.records.Keys)
    ensures var own := forall id :: id in old(store.records) ==> old(store.records)[id].project == project;
            (ok ==> own) && (!store.failing ==> (ok <==> own))
    ensures ok ==>
              && store.records == SweptRecords(old(store.records), ids, timestamp)
              && store.audit == old(store.audit) + SweepEvents(old(store.records), ids, timestamp)
              && recovered == RecoveredIds(old(store.records), ids, timestamp)
    // a record of another project ends the sweep in front of it
    ensures !ok && !store.failing ==>
              exists k: nat ::
                && k < |ids| && old(store.records)[ids[k]].project != project
                && store.records == SweptRecords(old(store.records), ids[..k], timestamp)
                && store.audit == old(store.audit) + SweepEvents(old(store.records), ids[..k], timestamp)
    // after an exception the sweep has got as far as some stage of some visit
    ensures old(store.audit) <= store.audit
    ensures !ok ==> SweepStage(old(store.records), ids, timestamp, store.records, store.audit[|old(store.audit)|..])
  {
    hide ValidRequest, Visited, VisitEvents, WellFormed, SweptRecords, SweepEvents, RecoveredIds, WasRecovery,
         VisitStage, SweepStage;
    recovered := [];
    ok := true;
    var i := 0;
    assert ids[..0] == [];
    NothingSwept(store.records, timestamp);
    while i < |ids|
      invariant 0 <= i <= |ids|
      invariant ok && WellFormed(store.records) && store.records.Keys == old(store.records.Keys)
      invariant store.records == SweptRecords(old(store.records), ids[..i], timestamp)
      invariant store.audit == old(store.audit) + SweepEvents(old(store.records), ids[..i], timestamp)
      invariant recovered == RecoveredIds(old(store.records), ids[..i], timestamp)
      invariant SameProjects(old(store.records), store.records)
      invariant forall j :: 0 <= j < i ==> old(store.records)[ids[j]].project == project
    {
      ghost var before, audit := store.records, store.audit;
      NextVisit(old(store.records), ids, timestamp, i);
      FormOf(before, ids[i]);
      if store.records[ids[i]].project != project {
        NotVisited(before[ids[i]], timestamp);
        assert before == before[ids[i] := before[ids[i]]];
        StoppedAt(old(store.records), ids, timestamp, i, before, [], old(store.audit), audit);
        return false, [];
      }
      var locked := new LockedPending(store, ids[i]);
      var wasRecovery := WasRecovery(locked.request);
      ok := VisitLocked(locked, timestamp);
      if !ok {
        assert store.records.Keys == before.Keys;
        assert store.audit == audit + store.audit[|audit|..];
        StoppedAt(old(store.records), ids, timestamp, i, store.records, store.audit[|audit|..], old(store.audit),
          store.audit);
        return;
      }
      assert store.records == before[ids[i] := Visited(before[ids[i]], timestamp)];
      VisitKeepsForm(before, ids[i], timestamp);
      VisitKeepsProject(before[ids[i]], timestamp);
      if wasRecovery {
        recovered := recovered + [ids[i]];
      }
      i := i + 1;
    }
    assert ids[..i] == ids;
  }

  // ---- Intake ----

  const ID_ATTEMPTS := 32

  datatype Intake = Taken(request: Request) | AtCapacity | Refusal

  // Where an exception may leave an intake: in the sweep, or with the sweep done and
  // perhaps a new record, with or without its event in the log and its marker.
  ghost predicate IntakeStage(records: map<string, Request>, ids: seq<string>, project: string, issue: Issue, now: nat,
                              after: map<string, Request>, events: seq<Event>)
    requires Lists(ids, records)
  {
    || SweepStage(records, ids, now, after, events)
    || (after == SweptRecords(records, ids, now) && events == SweepEvents(records, ids, now))
    || (exists id :: id !in records && PublishStage(records, ids, id, project, issue, now, after, events))
  }

  predicate PublishStage(records: map<string, Request>, ids: seq<string>, id: string, project: string, issue: Issue,
                         now: nat, after: map<string, Request>, events: seq<Event>)
    requires Lists(ids, records)
  {
    var swept, told, r := SweptRecords(records, ids, now), SweepEvents(records, ids, now),
        NewRequest(project, id, now, issue);
    || (after == swept[id := r] && (events == told || events == told + [r.auditEvent.value]))
    || (after == swept[id := Cleared(r)] && events == told + [r.auditEvent.value])
  }

  // A publication that is interrupted has stored the whole record and no other change,
  // and its event is in the log or still stored with it.
  lemma PublishedInFields(records: map<string, Request>, ids: seq<string>, id: string, project: string, issue: Issue,
                          now: nat, after: map<string, Request>, events: seq<Event>)
    requires Lists(ids, records) && PublishStage(records, ids, id, project, issue, now, after, events)
    ensures var e := Event(now, project, id, Operation.Intake, Reached(State.Pending), AtIntake);
            var r := Request(id, project, now, now + 86_400, State.Pending, Some(issue), None, None, false, None);
            var swept, told := SweptRecords(records, ids, now), SweepEvents(records, ids, now);
            && (after == swept[id := r] || after == swept[id := r.(auditEvent := Some(e))])
            && (events == told || events == told + [e])
            && (events == told + [e] || after[id].auditEvent == Some(e))
  {
    hide SweptRecords, SweepEvents;
  }

  // A new record is published, and its event appended and its marker cleared.
  method PublishAudited(store: Store, id: string, record: Request) returns (ok: bool)
    requires id !in store.records && ValidRequest(record) && record.id == id && record.auditEvent.Some?
    modifies store
    ensures var e := record.auditEvent.value;
            && (store.audit == old(store.audit) || store.audit == old(store.audit) + [e])
            && (ok ==> store.records == old(store.records)[id := Cleared(record)]
                       && store.audit == old(store.audit) + [e])
            && (!ok ==>
                  || (store.records == old(store.records) && store.audit == old(store.audit))
                  || store.records == old(store.records)[id := record]
                  || (store.records == old(store.records)[id := Cleared(record)]
                     && store.audit == old(store.audit) + [e]))
    ensures !store.failing ==> ok
  {
    ghost var before := store.records;
    ok := store.PublishNew(id, record);
    if !ok {
      return;
    }
    var locked := new LockedPending(store, id);
    ok := locked.DrainAuditEvent();
    assert before[id := record][id := Cleared(record)] == before[id := Cleared(record)];
  }

  // The requests that hold content after a sweep, as the store has them before it.
  lemma UnfinishedAfterSweep(records: map<string, Request>, ids: seq<string>, now: nat)
    requires WellFormed(records) && Lists(ids, records)
    ensures SweptRecords(records, ids, now).Keys == records.Keys
    ensures Unfinished(SweptRecords(records, ids, now))
            == set id | id in records &&
                 (records[id].state.Sending? || records[id].state.Unknown?
                  || (records[id].state.Pending? && now < records[id].expiresAt))
  {
    SweepCleans(records, ids, now);
    hide SweptRecords, ValidRequest;
  }

  lemma OneMoreUnfinished(records: map<string, Request>, id: string, after: map<string, Request>)
    requires id !in records && id in after && after == records[id := after[id]] && after[id].state.Pending?
    ensures |Unfinished(after)| == |Unfinished(records)| + 1
    ensures Unfinished(after)
            == set x | x in after && after[x].state in {State.Pending, State.Sending, State.Unknown}
  {
    assert Unfinished(after) == Unfinished(records) + {id};
  }

  // `create_pending`: the sweep, the limit on unfinished requests, and a record
  // under a name nobody has.  `random` are the identifiers drawn.
  method CreatePending(store: Store, ids: seq<string>, project: string, issue: Issue, now: nat, random: seq<string>)
    returns (r: Intake)
    requires WellFormed(store.records) && Lists(ids, store.records) && IsSlug(project)
    requires forall i :: 0 <= i < |random| ==> IsRequestId(random[i])
    modifies store
    // which of the three it is: by the issue, the projects, the number of requests that
    // are not finished at this time, and the identifiers
    ensures var records := old(store.records);
            var issueOk := && 1 <= |issue.title| && Utf8Length(issue.title) <= 256
                           && 1 <= |issue.body| && Utf8Length(issue.body) <= 65_536;
            var own := forall id :: id in records ==> records[id].project == project;
            var unfinished := set id | id in records &&
                                (records[id].state.Sending? || records[id].state.Unknown?
                                 || (records[id].state.Pending? && now < records[id].expiresAt));
            var free := exists i :: 0 <= i < |random| && i < 32 && random[i] !in records;
            && (r.Taken? ==> issueOk && own && |unfinished| < 10 && free)
            && (r.AtCapacity? ==> issueOk && own && |unfinished| >= 10)
            && (!store.failing ==> (r.AtCapacity? <==> issueOk && own && |unfinished| >= 10))
            && (!store.failing ==> (r.Taken? <==> issueOk && own && |unfinished| < 10 && free))
            && (!issueOk ==> store.records == records && store.audit == old(store.audit))
    // a request that is taken in: a day of time, its content, the first free identifier,
    // one entry in the log, and never more than ten with content
    ensures r.Taken? ==>
              var id := r.request.id;
              && r.request == Request(id, project, now, now + 86_400, State.Pending, Some(issue), None, None, false,
                 None)
              && (exists i :: 0 <= i < |random| && i < 32 && random[i] == id && id !in old(store.records)
                              && forall j :: 0 <= j < i ==> random[j] in old(store.records))
              && store.records == SweptRecords(old(store.records), ids, now)[id := r.request]
              && store.audit == old(store.audit) + SweepEvents(old(store.records), ids, now)
                                + [Event(now, project, id, Operation.Intake, Reached(State.Pending), AtIntake)]
              && |set x | x in store.records
                         && store.records[x].state in {State.Pending, State.Sending, State.Unknown}| <= 10
    ensures r.AtCapacity? ==>
              && store.records == SweptRecords(old(store.records), ids, now)
              && store.audit == old(store.audit) + SweepEvents(old(store.records), ids, now)
    ensures old(store.audit) <= store.audit
    ensures r.Refusal? && ValidIssue(issue) ==>
              IntakeStage(old(store.records), ids, project, issue, now, store.records,
                store.audit[|old(store.audit)|..])
  {
    hide SweepStage, WellFormed, SweptRecords, SweepEvents, RecoveredIds, Visited, VisitEvents, IsSlug, IsRequestId;
    if !ValidIssue(issue) {
      return Refusal;
    }
    UnfinishedAfterSweep(store.records, ids, now);
    // the sweep has seen every project, so that the second look at them finds no other
    var ok, _ := InitializePendingStore(store, project, ids, now);
    if !ok {
      return Refusal;
    }
    if |Unfinished(store.records)| >= MAX_UNFINISHED {
      return AtCapacity;
    }
    ghost var swept, told := store.records, store.audit;
    ghost var records, audit := old(store.records), old(store.audit);
    assert forall e :: (told + [e])[|audit|..] == told[|audit|..] + [e];
    assert told[|audit|..] == SweepEvents(records, ids, now);
    var attempt := 0;
    while attempt < ID_ATTEMPTS && attempt < |random|
      invariant 0 <= attempt <= ID_ATTEMPTS && attempt <= |random|
      invariant store.records == swept && store.audit == told
      invariant forall j :: 0 <= j < attempt ==> random[j] in records
    {
      var id := random[attempt];
      if id !in store.records {
        var record := NewRequest(project, id, now, issue);
        ok := PublishAudited(store, id, record);
        if !ok {
          assert store.records != swept ==>
                   PublishStage(records, ids, id, project, issue, now, store.records, store.audit[|audit|..]);
          return Refusal;
        }
        OneMoreUnfinished(swept, id, store.records);
        return Taken(Cleared(record));
      }
      attempt := attempt + 1;
    }
    return Refusal;
  }
}
