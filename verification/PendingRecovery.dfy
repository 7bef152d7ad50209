/**
  What a recovery sweep does to the store, and that it converges
  (src/agent_container/family_pending.py:1000-1112, and the same sweep at the
  start of an intake, 747-782).
 */
module PendingRecovery {
  import opened Wrappers
  import opened PendingRecord
  import opened ApprovalProtocol

  // ---- One record ----

  function AfterMigration(r: Request, now: nat): Request {
    if r.recoveryAuditPending then Migrated(r, now) else r
  }

  // The record once the markers it was found with are drained.
  function AfterDrain(r: Request, now: nat): Request {
    Cleared(AfterMigration(r, now))
  }

  function Visited(r: Request, now: nat): Request {
    var d := AfterDrain(r, now);
    match SweepChange(d, now)
    case None => d
    case Some(c) => Cleared(Changed(d, c))
  }

  // The events of the marker a record was found with.
  function FoundEvents(r: Request, now: nat): seq<Event> {
    var m := AfterMigration(r, now);
    if m.auditEvent.Some? then [m.auditEvent.value] else []
  }

  function VisitEvents(r: Request, now: nat): seq<Event> {
    FoundEvents(r, now)
    + (match SweepChange(AfterDrain(r, now), now) case None => [] case Some(c) => [c.event])
  }

  // ---- The store ----

  function SweptRecords(records: map<string, Request>, todo: seq<string>, now: nat): map<string, Request>
    requires forall i :: 0 <= i < |todo| ==> todo[i] in records
  {
    if todo == [] then records
    else SweptRecords(records[todo[0] := Visited(records[todo[0]], now)], todo[1..], now)
  }

  function SweepEvents(records: map<string, Request>, todo: seq<string>, now: nat): seq<Event>
    requires forall i :: 0 <= i < |todo| ==> todo[i] in records
  {
    if todo == [] then []
    else VisitEvents(records[todo[0]], now)
         + SweepEvents(records[todo[0] := Visited(records[todo[0]], now)], todo[1..], now)
  }

  // A request whose send was interrupted, now or before an earlier crash.
  predicate WasRecovery(r: Request) {
    r.state.Sending? || r.recoveryAuditPending || (r.auditEvent.Some? && r.auditEvent.value.operation.Recover?)
  }

  function RecoveredIds(records: map<string, Request>, todo: seq<string>, now: nat): seq<string>
    requires forall i :: 0 <= i < |todo| ==> todo[i] in records
  {
    if todo == [] then []
    else (if WasRecovery(records[todo[0]]) then [todo[0]] else [])
         + RecoveredIds(records[todo[0] := Visited(records[todo[0]], now)], todo[1..], now)
  }

  // ---- Convergence ----

  // Nothing is left for recovery to do.
  predicate Clean(r: Request, now: nat) {
    && !r.recoveryAuditPending && r.auditEvent.None? && !r.state.Sending?
    && (r.state.Pending? ==> now < r.expiresAt)
  }

  // What a visit may do to the state: a stranded SENDING becomes UNKNOWN, an
  // outdated PENDING becomes EXPIRED, and nothing else changes.
  predicate RecoveredFrom(r: Request, v: Request, now: nat) {
    && v.id == r.id && v.project == r.project && v.createdAt == r.createdAt && v.expiresAt == r.expiresAt
    && v.number == r.number && v.url == r.url
    && v.state == (if r.state.Sending? then State.Unknown
                   else if r.state.Pending? && now >= r.expiresAt then State.Expired else r.state)
    && v.issue == (if v.state.Expired? then None else r.issue)
  }

  lemma VisitCleans(r: Request, now: nat)
    requires ValidRequest(r)
    ensures Clean(Visited(r, now), now) && RecoveredFrom(r, Visited(r, now), now)
    ensures Clean(r, now) <==> Visited(r, now) == r && VisitEvents(r, now) == []
  {
  }

  // For a store visited completely: every record is clean and what it was
  // recovered from is what was there.
  lemma {:induction false} SweepCleans(records: map<string, Request>, todo: seq<string>, now: nat)
    requires forall i :: 0 <= i < |todo| ==> todo[i] in records
    requires forall id :: id in records ==> ValidRequest(records[id])
    requires forall id :: id in records ==> id in todo || Clean(records[id], now)
    ensures var swept := SweptRecords(records, todo, now);
            && swept.Keys == records.Keys
            && forall id :: id in records ==>
                 Clean(swept[id], now) && RecoveredFrom(records[id], swept[id], now)
    decreases |todo|
  {
    if todo == [] {
      forall id | id in records ensures RecoveredFrom(records[id], records[id], now) {
        VisitCleans(records[id], now);
      }
    } else {
      var next := records[todo[0] := Visited(records[todo[0]], now)];
      VisitCleans(records[todo[0]], now);
      VisitIsValid(records[todo[0]], now);
      SweepCleans(next, todo[1..], now);
    }
  }

  lemma VisitIsValid(r: Request, now: nat)
    requires ValidRequest(r)
    ensures ValidRequest(Visited(r, now))
  {
  }

  // A sweep of a clean store changes nothing and appends nothing.
  lemma {:induction false} CleanSweepIsIdle(records: map<string, Request>, todo: seq<string>, now: nat)
    requires forall i :: 0 <= i < |todo| ==> todo[i] in records && Clean(records[todo[i]], now)
    ensures SweptRecords(records, todo, now) == records && SweepEvents(records, todo, now) == []
    decreases |todo|
  {
    if todo != [] {
      var r := records[todo[0]];
      assert Visited(r, now) == r && VisitEvents(r, now) == [];
      assert records[todo[0] := r] == records;
      CleanSweepIsIdle(records, todo[1..], now);
    }
  }

  // So a second recovery at the same time, in whatever order, finds nothing.
  lemma SweepTwiceIsSweepOnce(records: map<string, Request>, todo: seq<string>, again: seq<string>, now: nat)
    requires Lists(todo, records) && Lists(again, records)
    requires forall id :: id in records ==> ValidRequest(records[id])
    ensures var swept := SweptRecords(records, todo, now);
            && swept.Keys == records.Keys
            && SweptRecords(swept, again, now) == swept && SweepEvents(swept, again, now) == []
  {
    SweepCleans(records, todo, now);
    CleanSweepIsIdle(SweptRecords(records, todo, now), again, now);
  }

  // The sweep reports exactly the interrupted sends.
  lemma {:induction false} SweepReports(records: map<string, Request>, todo: seq<string>, now: nat, id: string)
    requires forall i :: 0 <= i < |todo| ==> todo[i] in records
    ensures id in RecoveredIds(records, todo, now) <==>
              && id in todo
              && (|| records[id].state.Sending? || records[id].recoveryAuditPending
                  || (records[id].auditEvent.Some? && records[id].auditEvent.value.operation.Recover?))
    decreases |todo|
  {
    if todo != [] {
      var r := records[todo[0]];
      var next := records[todo[0] := Visited(r, now)];
      SweepReports(next, todo[1..], now, id);
      assert !WasRecovery(Visited(r, now));
    }
  }

  // ---- Interrupted sweeps ----

  // `s` and `events` are what a visit of `r` has made of it and appended after some
  // number of its durable steps: migrate, append, clear, replace, append, clear.
  predicate VisitStage(r: Request, now: nat, s: Request, events: seq<Event>) {
    var m, d, first := AfterMigration(r, now), AfterDrain(r, now), FoundEvents(r, now);
    || (s == r && events == [])
    || (s == m && (events == [] || events == first))
    || (s == d && events == first)
    || match SweepChange(d, now)
       case None => false
       case Some(c) =>
         || (s == Changed(d, c) && (events == first || events == first + [c.event]))
         || (s == Cleared(Changed(d, c)) && events == first + [c.event])
  }

  // The last stage is the visit, and a clean record has no other.
  lemma VisitIsAStage(r: Request, now: nat, s: Request, events: seq<Event>)
    requires ValidRequest(r)
    ensures VisitStage(r, now, Visited(r, now), VisitEvents(r, now))
    ensures Clean(r, now) && VisitStage(r, now, s, events) ==> s == r && events == []
  {
    hide ValidIssue, ValidUrl, IsSlug, IsRequestId;
    if SweepChange(AfterDrain(r, now), now).None? {
      assert FoundEvents(r, now) + [] == FoundEvents(r, now);
    }
  }

  // A sweep that has visited the first `k` of `todo` and is at some stage of the next.
  predicate StageAt(records: map<string, Request>, todo: seq<string>, now: nat, k: nat,
                    after: map<string, Request>, events: seq<Event>)
    requires k < |todo| && forall i :: 0 <= i < |todo| ==> todo[i] in records
  {
    InRecords(records, todo[..k], now);
    var mid, told := SweptRecords(records, todo[..k], now), SweepEvents(records, todo[..k], now);
    && todo[k] in after && after == mid[todo[k] := after[todo[k]]] && told <= events
    && VisitStage(mid[todo[k]], now, after[todo[k]], events[|told|..])
  }

  ghost predicate SweepStage(records: map<string, Request>, todo: seq<string>, now: nat,
                             after: map<string, Request>, events: seq<Event>)
    requires forall i :: 0 <= i < |todo| ==> todo[i] in records
  {
    exists k: nat :: k < |todo| && StageAt(records, todo, now, k, after, events)
  }

  lemma {:induction false} InRecords(records: map<string, Request>, todo: seq<string>, now: nat)
    requires forall i :: 0 <= i < |todo| ==> todo[i] in records
    ensures SweptRecords(records, todo, now).Keys == records.Keys
    decreases |todo|
  {
    hide Visited;
    if todo != [] {
      InRecords(records[todo[0] := Visited(records[todo[0]], now)], todo[1..], now);
    }
  }

  // One more visit at the end of a sweep.
  lemma {:induction false} SweepOneMore(records: map<string, Request>, todo: seq<string>, now: nat, id: string)
    requires (forall i :: 0 <= i < |todo| ==> todo[i] in records) && id in records
    ensures id in SweptRecords(records, todo, now)
    ensures forall i :: 0 <= i < |todo + [id]| ==> (todo + [id])[i] in records
    ensures var mid := SweptRecords(records, todo, now);
            && SweptRecords(records, todo + [id], now) == mid[id := Visited(mid[id], now)]
            && SweepEvents(records, todo + [id], now) == SweepEvents(records, todo, now) + VisitEvents(mid[id], now)
            && RecoveredIds(records, todo + [id], now)
               == RecoveredIds(records, todo, now) + if WasRecovery(mid[id]) then [id] else []
    decreases |todo|
  {
    hide Visited, VisitEvents, WasRecovery;
    InRecords(records, todo, now);
    if todo == [] {
      assert todo + [id] == [id] && [id][1..] == [];
    } else {
      var next := records[todo[0] := Visited(records[todo[0]], now)];
      assert (todo + [id])[0] == todo[0] && (todo + [id])[1..] == todo[1..] + [id];
      SweepOneMore(next, todo[1..], now, id);
    }
  }

  // ---- What an interrupted sweep leaves ----

  // Every record is at a stage of its own visit: none is lost, none is made up, and
  // no other change is begun.
  lemma SweepStageKeeps(records: map<string, Request>, todo: seq<string>, now: nat,
                        after: map<string, Request>, events: seq<Event>, id: string)
    requires forall i :: 0 <= i < |todo| ==> todo[i] in records
    requires (forall x :: x in records ==> ValidRequest(records[x])) && id in records
    requires SweepStage(records, todo, now, after, events)
    ensures after.Keys == records.Keys && exists told :: VisitStage(records[id], now, after[id], told)
  {
    hide Visited, VisitEvents, VisitStage, SweptRecords, SweepEvents, ValidRequest;
    var k: nat :| k < |todo| && StageAt(records, todo, now, k, after, events);
    var mid := SweptRecords(records, todo[..k], now);
    InRecords(records, todo[..k], now);
    OldOrVisited(records, todo[..k], now, id);
    VisitIsAStage(records[id], now, records[id], []);
    FirstStage(records[id], now);
    if id == todo[k] {
      if mid[id] != records[id] {
        VisitCleans(records[id], now);
        VisitIsValid(records[id], now);
        VisitIsAStage(mid[id], now, after[id], events[|SweepEvents(records, todo[..k], now)|..]);
        assert after[id] == mid[id];
      }
    } else {
      assert after[id] == mid[id];
    }
  }

  lemma FirstStage(r: Request, now: nat)
    ensures VisitStage(r, now, r, [])
  {
  }

  lemma {:induction false} OldOrVisited(records: map<string, Request>, todo: seq<string>, now: nat, id: string)
    requires forall i :: 0 <= i < |todo| ==> todo[i] in records
    requires (forall x :: x in records ==> ValidRequest(records[x])) && id in records
    ensures SweptRecords(records, todo, now).Keys == records.Keys
    ensures var s := SweptRecords(records, todo, now)[id]; s == records[id] || s == Visited(records[id], now)
    decreases |todo|
  {
    hide Visited, ValidRequest;
    InRecords(records, todo, now);
    if todo != [] {
      var x := todo[0];
      var next := records[x := Visited(records[x], now)];
      VisitIsValid(records[x], now);
      OldOrVisited(next, todo[1..], now, id);
      if id == x {
        VisitCleans(records[id], now);
        VisitIsValid(records[id], now);
        VisitCleans(next[id], now);
      }
    }
  }
}
