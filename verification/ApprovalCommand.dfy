/**
  The approve command under the lock, step by step
  (src/agent_container/family_cli.py:499-642).
 */
module ApprovalCommand {
  import opened Wrappers
  import opened PendingRecord
  import opened AuditTrail
  import opened IssueSend
  import opened IssueCreate
  import opened ApprovalProtocol
  import opened PendingStore
  import opened Utf8

  // What the command meets between the lock and the POST.
  datatype Preflight = Preflight(shown: Binding, first: Binding, provider: bool, verified: bool, second: Binding)

  datatype Ending = Halted(stage: Stage) | Outdated | Settled(result: SendResult) | AuditFailed

  // Where the checks before the POST stop the command.
  function Refuses(f: Preflight): Option<Stage> {
    if f.first != f.shown then Some(AtBinding)
    else if !f.provider then Some(AtToken)
    else if !f.verified then Some(AtInventory)
    else if f.second != f.shown then Some(AtBinding)
    else None
  }

  function SendChange(r: Request, now: nat): Change {
    Change(Sending, ApproveEvent(r, now, Reached(Sending), AtSend), None, None)
  }

  function Complete(r: Request, c: Change): Request {
    Cleared(Changed(r, c))
  }

  function Slug(b: Binding): string {
    b.owner + "/" + b.name
  }

  // The POST, and the transition that settles what came of it: CREATED with the number
  // and URL of an acceptable reply, PENDING again where surely nothing was started, and
  // UNKNOWN otherwise.
  method Send(locked: LockedPending, f: Preflight, now: nat, validInput: bool, tokenOk: bool, connection: Connection,
              remote: Remote)
    returns (result: SendResult, ok: bool, begun: bool)
    requires locked.Valid() && ValidBinding(f.shown) && locked.request.issue.Some?
    requires SendingDurably(locked.store.records, locked.store.audit, locked.id)
    modifies locked`request, locked.store`records, locked.store`audit, remote
    ensures var r, told, slug := old(locked.request), old(locked.store.audit), f.shown.owner + "/" + f.shown.name;
            remote.posts
            == old(remote.posts) + if begun then [Posting(r.issue.value, slug, r, told)] else []
    ensures begun <==> validInput && tokenOk && !connection.requestRefused && connection.connectFails.None?
    ensures var r, id := old(locked.request), locked.id;
            var records, told := old(locked.store.records), old(locked.store.audit);
            var prefix := "https://github.com/" + f.shown.owner + "/" + f.shown.name + "/issues/";
            var reply := connection.reply;
            var created := && begun && connection.sendFails.None? && connection.responseFails.None?
                           && reply.wellFormed && reply.status == 201 && 1 <= reply.number <= 2_147_483_647
                           && reply.url == prefix + Decimal(reply.number);
            var notStarted := validInput && !begun && (tokenOk ==> !connection.requestRefused);
            var answered := begun && connection.sendFails.None?;
            var stored := if created
                          then r.(state := Created, issue := None, number := Some(reply.number), url := Some(reply.url))
                          else if notStarted then r.(state := State.Pending) else r.(state := State.Unknown);
            var e := Event(now, r.project, r.id, Operation.Approve,
                           if created then Reached(Created) else if notStarted then Errored else Reached(State.Unknown),
                           if created then AtCleanup
                           else if notStarted then if tokenOk then AtSend else AtToken
                           else if answered then AtResponse else AtSend);
            && (result.SendReturned? <==> created) && (result.SendNotStarted? <==> notStarted)
            && (created ==> result == SendReturned(reply.number, reply.url))
            && (ok ==> locked.store.records == records[id := stored] && locked.store.audit == told + [e])
            // and an exception leaves a stage of that one transition
            && (|| (locked.store.records == records && locked.store.audit == told)
                || (&& locked.store.records == records[id := stored.(auditEvent := Some(e))]
                    && (locked.store.audit == told || locked.store.audit == told + [e]))
                || (locked.store.records == records[id := stored] && locked.store.audit == told + [e]))
    ensures !locked.store.failing ==> ok
  {
    result, begun := Create(Slug(f.shown), validInput, tokenOk, connection, remote, locked.store, locked.id,
      locked.request.issue.value);
    hide AcceptableReply;
    var c := Settlement(f.shown, locked.request, now, result);
    SettlementFits(f.shown, locked.request, now, result);
    ghost var steps;
    ok, steps := locked.TransitionAudited(c);
  }

  // `approve_family_issue` once the lock is held on the record that was shown.  The
  // remote takes a body only from a store that is durably and auditedly SENDING.
  method Approve(locked: LockedPending, f: Preflight, now: nat, validInput: bool, tokenOk: bool,
                 connection: Connection, remote: Remote)
    returns (r: Ending, begun: bool)
    requires locked.Valid() && locked.request.state.Pending? && ValidBinding(f.shown)
    requires !locked.request.recoveryAuditPending && locked.request.auditEvent.None?
    modifies locked`request, locked.store`records, locked.store`audit, remote
    // at most one body: the record's own content for the repository that was shown,
    // while the record was SENDING and the log ended in its event
    ensures var was, told, slug := old(locked.request), old(locked.store.audit), f.shown.owner + "/" + f.shown.name;
            var sent := Event(now, was.project, was.id, Operation.Approve, Reached(State.Sending), AtSend);
            remote.posts == old(remote.posts) +
              if begun then [Posting(was.issue.value, slug, was.(state := State.Sending), told + [sent])] else []
    ensures var passes := f.first == f.shown && f.provider && f.verified && f.second == f.shown;
            var may := && passes && now < old(locked.request).expiresAt && validInput && tokenOk
                       && !connection.requestRefused && connection.connectFails.None?;
            && (begun ==> may) && (!locked.store.failing ==> (begun <==> may))
    // a check that fails is noted with its own stage, in this order, and changes nothing else
    ensures var was, told := old(locked.request), old(locked.store.audit);
            var stage := if f.first != f.shown then Some(AtBinding)
                         else if !f.provider then Some(AtToken)
                         else if !f.verified then Some(AtInventory)
                         else if f.second != f.shown then Some(AtBinding) else None;
            && (r.Halted? ==> stage.Some?)
            && (stage.Some? ==>
                  var note := Event(now, was.project, was.id, Operation.Approve, Denied, stage.value);
                  && locked.store.records == old(locked.store.records)
                  && (r == Halted(stage.value) || (r.AuditFailed? && locked.store.failing))
                  && (locked.store.audit == told + [note] || (r.AuditFailed? && locked.store.audit == told)))
    // a request that is out of time becomes EXPIRED
    ensures var was, told, records := old(locked.request), old(locked.store.audit), old(locked.store.records);
            var late := && f.first == f.shown && f.provider && f.verified && f.second == f.shown
                        && now >= was.expiresAt;
            var expired := was.(state := State.Expired, issue := None);
            var e := Event(now, was.project, was.id, Operation.Expire, Reached(State.Expired), AtCleanup);
            && (r.Outdated? ==>
                  late && locked.store.records == records[locked.id := expired] && locked.store.audit == told + [e])
            && (late ==>
                  && (r.Outdated? || (r.AuditFailed? && locked.store.failing))
                  && (|| (locked.store.records == records && locked.store.audit == told)
                      || (&& locked.store.records == records[locked.id := expired.(auditEvent := Some(e))]
                          && (locked.store.audit == told || locked.store.audit == told + [e]))
                      || (locked.store.records == records[locked.id := expired] && locked.store.audit == told + [e])))
    // an outcome is reported only once it is stored and audited, as what came of the body;
    // an exception leaves a stage of the transition to SENDING, before any POST, or of
    // the one that settles that outcome
    ensures var was, told, records := old(locked.request), old(locked.store.audit), old(locked.store.records);
            var prefix := "https://github.com/" + f.shown.owner + "/" + f.shown.name + "/issues/";
            var reply := connection.reply;
            var sending := was.(state := State.Sending);
            var sent := Event(now, was.project, was.id, Operation.Approve, Reached(State.Sending), AtSend);
            var created := && begun && connection.sendFails.None? && connection.responseFails.None?
                           && reply.wellFormed && reply.status == 201 && 1 <= reply.number <= 2_147_483_647
                           && reply.url == prefix + Decimal(reply.number);
            var notStarted := validInput && !begun && (tokenOk ==> !connection.requestRefused);
            var answered := begun && connection.sendFails.None?;
            var stored := if created
                          then was.(state := Created, issue := None, number := Some(reply.number),
                                    url := Some(reply.url))
                          else if notStarted then was else was.(state := State.Unknown);
            var e := Event(now, was.project, was.id, Operation.Approve,
                           if created then Reached(Created) else if notStarted then Errored else Reached(State.Unknown),
                           if created then AtCleanup
                           else if notStarted then if tokenOk then AtSend else AtToken
                           else if answered then AtResponse else AtSend);
            && (r.Settled? ==>
                  && f.first == f.shown && f.provider && f.verified && f.second == f.shown && now < was.expiresAt
                  && (r.result.SendReturned? <==> created) && (r.result.SendNotStarted? <==> notStarted)
                  && (created ==> r.result == SendReturned(reply.number, reply.url))
                  && locked.store.records == records[locked.id := stored] && locked.store.audit == told + [sent, e])
            && (f.first == f.shown && f.provider && f.verified && f.second == f.shown && now < was.expiresAt ==>
                  && (r.Settled? || (r.AuditFailed? && locked.store.failing))
                  && (|| (!begun && locked.store.records == records && locked.store.audit == told)
                      || (&& !begun && locked.store.records == records[locked.id := sending.(auditEvent := Some(sent))]
                          && (locked.store.audit == told || locked.store.audit == told + [sent]))
                      || (locked.store.records == records[locked.id := sending] && locked.store.audit == told + [sent])
                      || (&& locked.store.records == records[locked.id := stored.(auditEvent := Some(e))]
                          && (locked.store.audit == told + [sent] || locked.store.audit == told + [sent, e]))
                      || (locked.store.records == records[locked.id := stored]
                         && locked.store.audit == told + [sent, e])))
  {
    begun := false;
    var store := locked.store;
    ghost var request, records, audit := locked.request, store.records, store.audit;
    ghost var steps;
    hide AcceptableReply;
    var ok;
    var refused := Refuses(f);
    if refused.Some? {
      ok := store.AppendAudit(DeniedEvent(locked.request, now, refused.value));
      return if ok then Halted(refused.value) else AuditFailed, false;
    }
    if now >= locked.request.expiresAt {
      ok, steps := locked.TransitionAudited(ExpireChange(locked.request, now));
      return if ok then Outdated else AuditFailed, false;
    }
    ok, steps := locked.TransitionAudited(SendChange(locked.request, now));
    if !ok {
      return AuditFailed, false;
    }
    ghost var sending := Complete(request, SendChange(request, now));
    assert locked.request == sending && store.records == records[locked.id := sending];
    SendingIsTold(audit, locked.id, request, now);
    var result;
    result, ok, begun := Send(locked, f, now, validInput, tokenOk, connection, remote);
    Overwritten(records, locked.id, sending);
    return if ok then Settled(result) else AuditFailed, begun;
  }

  lemma Overwritten(records: map<string, Request>, id: string, x: Request)
    ensures forall y: Request {:trigger records[id := x][id := y]} :: records[id := x][id := y] == records[id := y]
  {
  }

  function DeniedEvent(r: Request, now: nat, stage: Stage): Event {
    Event(now, r.project, r.id, Operation.Approve, Denied, stage)
  }

  lemma SendingIsTold(audit: seq<Event>, id: string, r: Request, now: nat)
    requires r.id == id
    ensures var told := Trail(audit + [SendChange(r, now).event], id); told != [] && IsSend(told[|told| - 1])
  {
    var e := SendChange(r, now).event;
    assert (audit + [e])[..|audit|] == audit && (audit + [e])[|audit|] == e;
  }

  lemma SettlementFits(shown: Binding, r: Request, now: nat, result: SendResult)
    requires ValidBinding(shown) && r.state.Sending?
    ensures var c := Settlement(shown, r, now, result);
            && Allowed(r.state, c.target) && Target(c.event) == Some(c.target)
            && (c.target.Created? <==> c.number.Some?) && (c.target.Created? <==> c.url.Some?)
            && (c.target.Created? ==> ValidUrl(c.url.value, c.number.value))
  {
    hide IsSlug;
  }
}
