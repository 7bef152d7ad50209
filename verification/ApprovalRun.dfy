/**
  The approve command as a run of the approval protocol, to each of its endings
  (src/agent_container/family_cli.py:475-642).
 */
module ApprovalRun {
  import opened Wrappers
  import opened PendingRecord
  import opened IssueSend
  import opened ApprovalProtocol
  import opened ApprovalTheorems
  import opened RecoveryRun
  import opened ApprovalCommand

  // Process `p` approves `id` and is in `phase`; its record is `r`.
  predicate Approving(w: World, p: Proc, id: string, phase: Phase, r: Request) {
    && Holds(w, p) && w.pcs[p].task.Approval? && w.pcs[p].task.id == id && w.pcs[p].phase == phase
    && id in w.records && w.records[id] == r
  }

  // From `w` to `v` only the record `id`, the log, the histories, the POSTs and the
  // phase of `p` have moved on.
  predicate Moved(w: World, v: World, p: Proc, id: string, r: Request, events: seq<Event>, phase: Phase) {
    && v.records == w.records[id := r] && v.audit == w.audit + events && v.lock == Some(p)
    && p in w.pcs && w.pcs[p].Held? && v.pcs == w.pcs[p := Held(w.pcs[p].task, phase)]
  }

  // One audited transition: replace, append, clear.
  lemma TransitionRun(w: World, p: Proc, id: string, phase: Phase, r: Request, input: Input, c: Change)
    returns (acts: seq<Action>, v: World)
    requires Approving(w, p, id, phase, r) && w.lock == Some(p) && !r.recoveryAuditPending && r.auditEvent.None?
    requires Plan(w.pcs[p].task, phase, r, input) == Some(c)
    ensures Run(w, acts, v) && v.posts == w.posts
    ensures Moved(w, v, p, id, Complete(r, c), [c.event],
                  if c.target.Sending? then Calling(c.event.timestamp, false) else Done)
  {
    hide Run, Plan, Changed;
    var u, b;
    u := ReplaceRun(w, p, id, phase, r, input, c);
    b, v := AuditRun(u, p, id, w.pcs[p].task, r, c);
    RunConcat(w, [Replace(p, input)], u, b, v);
    acts := [Replace(p, input)] + b;
    assert v.records == w.records[id := Complete(r, c)];
    assert v.pcs == w.pcs[p := v.pcs[p]];
  }

  lemma ReplaceRun(w: World, p: Proc, id: string, phase: Phase, r: Request, input: Input, c: Change) returns (u: World)
    requires Approving(w, p, id, phase, r) && w.lock == Some(p) && !r.recoveryAuditPending && r.auditEvent.None?
    requires Plan(w.pcs[p].task, phase, r, input) == Some(c)
    ensures Run(w, [Replace(p, input)], u) && u.posts == w.posts && u.lock == w.lock && u.audit == w.audit
    ensures u.records == w.records[id := Changed(r, c)] && u.pcs == w.pcs[p := Held(w.pcs[p].task, Ready)]
  {
    hide Plan, Changed, Run;
    u := Exec(w, Replace(p, input));
    RunOne(w, Replace(p, input));
  }

  lemma AuditRun(u: World, p: Proc, id: string, task: Task, r: Request, c: Change) returns (acts: seq<Action>, v: World)
    requires task.Approval? && task.id == id && p in u.pcs && u.pcs[p] == Held(task, Ready) && u.lock == Some(p)
    requires id in u.records && u.records[id] == Changed(r, c)
    ensures Run(u, acts, v) && v.posts == u.posts && v.lock == u.lock && v.audit == u.audit + [c.event]
    ensures v.records == u.records[id := Complete(r, c)]
    ensures v.pcs == u.pcs[p := Held(task, if c.target.Sending? then Calling(c.event.timestamp, false) else Done)]
  {
    hide Run;
    var x := Exec(u, AppendMarker(p));
    RunOne(u, AppendMarker(p));
    v := Exec(x, ClearMarker(p));
    RunOne(x, ClearMarker(p));
    RunConcat(u, [AppendMarker(p)], x, [ClearMarker(p)], v);
    acts := [AppendMarker(p)] + [ClearMarker(p)];
  }

  // The POST of the content the process was shown, to the repository it was shown.
  function PostOf(w: World, p: Proc, at: nat): Post
    requires Holds(w, p) && w.pcs[p].task.Approval? && w.pcs[p].task.snapshot.issue.Some?
  {
    var task := w.pcs[p].task;
    Post(p, task.id, task.snapshot.issue.value, task.shown, at)
  }

  // Approved before it expired: whatever the POST came to, the protocol has a run
  // with exactly the record and the log entries of the command, and that POST if its
  // body was begun.
  lemma ApproveRun(w: World, p: Proc, id: string, r: Request, now: nat, begun: bool, result: SendResult)
    returns (acts: seq<Action>, v: World)
    requires Approving(w, p, id, Ready, r) && w.lock == Some(p) && w.pcs[p].task.snapshot.issue.Some?
    requires r.state.Pending? && !r.recoveryAuditPending && r.auditEvent.None? && now < r.expiresAt
    requires MayResult(begun, result)
    ensures Run(w, acts, v) && v.lock.None? && p !in v.pcs
    ensures var sending := Complete(r, SendChange(r, now));
            var c := Settlement(w.pcs[p].task.shown, sending, now, result);
            && v.records == w.records[id := Complete(sending, c)]
            && v.audit == w.audit + [SendChange(r, now).event, c.event]
            && v.posts == w.posts + if begun then [PostOf(w, p, |w.audit| + 1)] else []
  {
    hide Run, Settlement, Changed;
    var sending := Complete(r, SendChange(r, now));
    var shown := w.pcs[p].task.shown;
    var c := Settlement(shown, sending, now, result);
    SendingFields(r, now);
    SettlementLeavesSending(shown, sending, now, result);
    var u, b, x, y;
    acts, u := TransitionRun(w, p, id, Ready, r, Clock(now), SendChange(r, now));
    b, x := BeginPostRun(u, p, id, sending, now, begun);
    RunConcat(w, acts, u, b, x);
    acts := acts + b;
    b, y := TransitionRun(x, p, id, Calling(now, begun), sending, Outcome(result), c);
    RunConcat(w, acts, x, b, y);
    acts := acts + b;
    assert y.records == w.records[id := Complete(sending, c)];
    v := Exec(y, Finish(p));
    RunOne(y, Finish(p));
    RunConcat(w, acts, y, [Finish(p)], v);
    acts := acts + [Finish(p)];
  }

  lemma SendingFields(r: Request, now: nat)
    requires r.state.Pending? && now < r.expiresAt
    ensures var sending := Complete(r, SendChange(r, now));
            sending.state.Sending? && !sending.recoveryAuditPending && sending.auditEvent.None?
  {
  }

  lemma SettlementLeavesSending(shown: Binding, r: Request, now: nat, result: SendResult)
    ensures !Settlement(shown, r, now, result).target.Sending?
  {
  }

  lemma BeginPostRun(u: World, p: Proc, id: string, r: Request, now: nat, begun: bool)
    returns (acts: seq<Action>, x: World)
    requires Approving(u, p, id, Calling(now, false), r) && u.lock == Some(p) && u.pcs[p].task.snapshot.issue.Some?
    ensures Run(u, acts, x) && Moved(u, x, p, id, r, [], Calling(now, begun))
    ensures x.posts == u.posts + if begun then [PostOf(u, p, |u.audit|)] else []
  {
    if begun {
      acts, x := [BeginPost(p)], Exec(u, BeginPost(p));
      RunOne(u, BeginPost(p));
    } else {
      acts, x := [], u;
    }
    assert u.records[id := r] == u.records;
    assert x.pcs == u.pcs[p := Held(u.pcs[p].task, Calling(now, begun))];
  }

  // ---- The endings before the POST, and the beginning ----

  // Approved too late: a run that expires the request.
  lemma ExpiredRun(w: World, p: Proc, id: string, r: Request, now: nat) returns (acts: seq<Action>, v: World)
    requires Approving(w, p, id, Ready, r) && w.lock == Some(p)
    requires r.state.Pending? && !r.recoveryAuditPending && r.auditEvent.None? && now >= r.expiresAt
    ensures Run(w, acts, v) && v.lock.None? && p !in v.pcs && v.posts == w.posts
    ensures v.records == w.records[id := Complete(r, ExpireChange(r, now))]
    ensures v.audit == w.audit + [ExpireChange(r, now).event]
  {
    hide Run, Changed;
    var y;
    acts, y := TransitionRun(w, p, id, Ready, r, Clock(now), ExpireChange(r, now));
    v := Exec(y, Finish(p));
    RunOne(y, Finish(p));
    RunConcat(w, acts, y, [Finish(p)], v);
    acts := acts + [Finish(p)];
  }

  // Stopped by one of the checks: the refusal is noted, and nothing else changes.
  lemma HaltedRun(w: World, p: Proc, id: string, phase: Phase, r: Request, now: nat, stage: Stage)
    returns (acts: seq<Action>, v: World)
    requires Approving(w, p, id, phase, r) && w.lock == Some(p)
    ensures Run(w, acts, v) && v.lock.None? && p !in v.pcs && v.posts == w.posts
    ensures v.records == w.records && v.audit == w.audit + [DeniedEvent(r, now, stage)]
  {
    hide Run;
    var note := Note(DeniedEvent(r, now, stage));
    var u := Exec(w, note);
    RunOne(w, note);
    v := Exec(u, Abandon(p));
    RunOne(u, Abandon(p));
    RunConcat(w, [note], u, [Abandon(p)], v);
    acts := [note] + [Abandon(p)];
  }

  lemma AppendRun(u: World, p: Proc, id: string, task: Task, r: Request, c: Change) returns (x: World)
    requires task.Approval? && task.id == id && p in u.pcs && u.pcs[p] == Held(task, Ready) && u.lock == Some(p)
    requires id in u.records && u.records[id] == Changed(r, c)
    ensures Run(u, [AppendMarker(p)], x) && x.posts == u.posts && x.lock == u.lock && x.audit == u.audit + [c.event]
    ensures x.records == u.records && p in x.pcs
  {
    hide Run;
    x := Exec(u, AppendMarker(p));
    RunOne(u, AppendMarker(p));
  }

  // An audited transition that is interrupted after any of its durable steps: what
  // `TransitionAudited` may leave is what a run that is abandoned there leaves.
  lemma InterruptedRun(w: World, p: Proc, id: string, phase: Phase, r: Request, input: Input, c: Change, steps: nat)
    returns (acts: seq<Action>, v: World)
    requires Approving(w, p, id, phase, r) && w.lock == Some(p) && !r.recoveryAuditPending && r.auditEvent.None?
    requires Plan(w.pcs[p].task, phase, r, input) == Some(c) && steps <= 3
    ensures Run(w, acts, v) && v.lock.None? && p !in v.pcs && v.posts == w.posts
    ensures v.records == (if steps == 0 then w.records
                          else if steps <= 2 then w.records[id := Changed(r, c)]
                          else w.records[id := Complete(r, c)])
    ensures v.audit == w.audit + if steps <= 1 then [] else [c.event]
  {
    hide Run, Plan, Changed;
    var u, b := w, [];
    acts := [];
    RunNothing(w);
    if steps > 0 {
      u := ReplaceRun(w, p, id, phase, r, input, c);
      acts := [Replace(p, input)];
    }
    if steps == 2 {
      var x := AppendRun(u, p, id, w.pcs[p].task, r, c);
      RunConcat(w, acts, u, [AppendMarker(p)], x);
      acts, u := acts + [AppendMarker(p)], x;
    }
    if steps == 3 {
      var x;
      b, x := AuditRun(u, p, id, w.pcs[p].task, r, c);
      RunConcat(w, acts, u, b, x);
      acts, u := acts + b, x;
    }
    assert w.records[id := Changed(r, c)][id := Complete(r, c)] == w.records[id := Complete(r, c)];
    v := Exec(u, Abandon(p));
    RunOne(u, Abandon(p));
    RunConcat(w, acts, u, [Abandon(p)], v);
    acts := acts + [Abandon(p)];
  }

  // From the answered prompt: lock, compare the record and twice the binding.
  lemma ConfirmedRun(w: World, p: Proc) returns (acts: seq<Action>, u: World)
    requires CanLockApproval(w, p)
    ensures var pc := w.pcs[p];
            && Run(w, acts, u) && Approving(u, p, pc.id, Ready, pc.snapshot) && u.lock == Some(p)
            && u.pcs[p].task == Approval(pc.id, pc.snapshot, w.binding)
            && u.records == w.records && u.audit == w.audit && u.posts == w.posts
  {
    hide Run;
    var x := Exec(w, LockApproval(p));
    RunOne(w, LockApproval(p));
    u := Exec(x, Recheck(p));
    RunOne(x, Recheck(p));
    RunConcat(w, [LockApproval(p)], x, [Recheck(p)], u);
    acts := [LockApproval(p)] + [Recheck(p)];
  }

  // The whole command behind the prompt, in the protocol.
  lemma ApproveFromPrompt(w: World, p: Proc, now: nat, begun: bool, result: SendResult)
    returns (acts: seq<Action>, v: World)
    requires CanLockApproval(w, p) && w.pcs[p].snapshot.issue.Some? && MayResult(begun, result)
    ensures Run(w, acts, v) && v.lock.None? && p !in v.pcs
    ensures var r := w.pcs[p].snapshot;
            var sending := Complete(r, SendChange(r, now));
            var c := Settlement(w.binding, sending, now, result);
            var post := Post(p, w.pcs[p].id, r.issue.value, w.binding, |w.audit| + 1);
            if now < r.expiresAt
            then && v.records == w.records[w.pcs[p].id := Complete(sending, c)]
                 && v.audit == w.audit + [SendChange(r, now).event, c.event]
                 && v.posts == w.posts + if begun then [post] else []
            else && v.records == w.records[w.pcs[p].id := Complete(r, ExpireChange(r, now))]
                 && v.audit == w.audit + [ExpireChange(r, now).event] && v.posts == w.posts
  {
    hide Run, Settlement, Changed, Approving;
    var u, b;
    acts, u := ConfirmedRun(w, p);
    TaskOfConfirmed(u, p, w.pcs[p].id, w.pcs[p].snapshot);
    if now < w.pcs[p].snapshot.expiresAt {
      b, v := ApproveRun(u, p, w.pcs[p].id, w.pcs[p].snapshot, now, begun, result);
    } else {
      b, v := ExpiredRun(u, p, w.pcs[p].id, w.pcs[p].snapshot, now);
    }
    RunConcat(w, acts, u, b, v);
    acts := acts + b;
  }

  lemma TaskOfConfirmed(u: World, p: Proc, id: string, r: Request)
    requires Approving(u, p, id, Ready, r)
    ensures p in u.pcs && u.pcs[p].Held?
  {
  }
}
