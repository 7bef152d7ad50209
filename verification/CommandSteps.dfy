/**
  What the commands store, in the fields of the record, and the order in which the
  events of a request can follow each other in any run
  (src/agent_container/family_cli.py:475-840, family_pending.py:100-119, 1037-1112).
 */
module CommandSteps {
  import opened Wrappers
  import opened PendingRecord
  import opened AuditTrail
  import opened IssueSend
  import opened ApprovalProtocol
  import opened ApprovalInvariant
  import opened ApprovalSteps
  import opened ApprovalTheorems
  import opened Utf8

  // The record a process is working on, where no marker is left.
  lemma CurrentIs(w: World, p: Proc)
    requires Inv(w) && Working(w, p)
    ensures var id, r := Subject(w.pcs[p].task).value, Current(w, p);
            && r.id == id && (!r.state.Created? ==> r.number.None? && r.url.None?)
            && id in w.history && w.history[id] != []
            && (!r.recoveryAuditPending ==> Target(w.history[id][|w.history[id]| - 1]) == Some(r.state))
            && (r.recoveryAuditPending ==> Target(w.history[id][|w.history[id]| - 1]) == Some(Sending))
  {
    RecordOk(w, Subject(w.pcs[p].task).value);
    hide Inv, IsSlug, ValidIssue, IsRequestId, ValidUrl;
  }

  lemma CallingIsSending(w: World, p: Proc)
    requires Inv(w) && Working(w, p) && w.pcs[p].phase.Calling?
    ensures w.pcs[p].task.Approval? && Current(w, p).state.Sending?
  {
    assert PcOk(w, p, w.pcs[p]);
    hide Inv, IsSlug;
  }

  // ---- Rejecting and resolving ----

  lemma RejectionStores(w: World, p: Proc, input: Input)
    requires Inv(w) && CanReplace(w, p, input) && w.pcs[p].task.Rejection?
    ensures input.Clock? && Current(w, p).state.Pending?
    ensures var r, now := Current(w, p), input.now;
            var late := now >= r.expiresAt;
            var e := if late then Event(now, r.project, r.id, Operation.Expire, Reached(State.Expired), AtCleanup)
                     else Event(now, r.project, r.id, Operation.Reject, Reached(State.Rejected), AtCleanup);
            Replaced(w, p, input).records
            == w.records[r.id := r.(state := if late then State.Expired else State.Rejected, issue := None,
                                    auditEvent := Some(e))]
  {
    hide Inv, ValidRequest, IsSlug, Enabled, Settlement;
    CurrentIs(w, p);
  }

  lemma ReconciliationStores(w: World, p: Proc, input: Input)
    requires Inv(w) && CanReplace(w, p, input) && w.pcs[p].task.Reconciliation?
    ensures input.Verified? && Current(w, p).state.Unknown?
    ensures var against, r := w.pcs[p].task.against, Current(w, p);
            var e := Event(input.now, r.project, r.id, Operation.ResolveCreated, Reached(State.Created), AtCleanup);
            && 1 <= input.number <= 2_147_483_647
            && input.url == "https://github.com/" + against.owner + "/" + against.name + "/issues/"
                            + Decimal(input.number)
            && Replaced(w, p, input).records
               == w.records[r.id := r.(state := State.Created, issue := None, number := Some(input.number),
                                       url := Some(input.url), auditEvent := Some(e))]
  {
    hide Inv, ValidRequest, IsSlug, Enabled, Settlement;
    CurrentIs(w, p);
  }

  lemma ReleaseStores(w: World, p: Proc, input: Input)
    requires Inv(w) && CanReplace(w, p, input) && w.pcs[p].task.Release?
    ensures input.Clock? && Current(w, p).state.Unknown?
    ensures var r := Current(w, p);
            var e := Event(input.now, r.project, r.id, Operation.ResolveNotCreated, Reached(State.Pending),
                           AtReconcile);
            Replaced(w, p, input).records
            == w.records[r.id := r.(state := State.Pending, auditEvent := Some(e))]
  {
    hide Inv, ValidRequest, IsSlug, Enabled, Settlement;
    CurrentIs(w, p);
  }

  // ---- The order of events ----

  // What an event can follow: a request is taken in, sent, rejected or expired while it
  // is pending, settled or recovered while it is being sent, and resolved while its
  // outcome is unknown.
  predicate FollowsOn(a: Event, b: Event) {
    var before, after := (a.operation, a.status), (b.operation, b.status);
    || (&& before in {(Operation.Intake, Reached(State.Pending)), (Operation.Approve, Errored),
                      (Operation.ResolveNotCreated, Reached(State.Pending))}
        && after in {(Operation.Approve, Reached(State.Sending)), (Operation.Reject, Reached(State.Rejected)),
                     (Operation.Expire, Reached(State.Expired))})
    || (&& before == (Operation.Approve, Reached(State.Sending))
        && after in {(Operation.Approve, Reached(State.Created)), (Operation.Approve, Reached(State.Unknown)),
                     (Operation.Approve, Errored), (Operation.Recover, Reached(State.Unknown))})
    || (&& before in {(Operation.Approve, Reached(State.Unknown)), (Operation.Recover, Reached(State.Unknown))}
        && after in {(Operation.ResolveCreated, Reached(State.Created)),
                     (Operation.ResolveNotCreated, Reached(State.Pending))})
  }

  predicate InOrder(h: seq<Event>) {
    && h != [] && h[0].operation.Intake? && h[0].status == Reached(State.Pending)
    && forall i :: 0 < i < |h| ==> FollowsOn(h[i - 1], h[i])
  }

  ghost predicate AllInOrder(w: World) {
    forall id :: id in w.history ==> InOrder(w.history[id])
  }

  lemma OneMore(h: seq<Event>, e: Event)
    requires InOrder(h) && FollowsOn(h[|h| - 1], e)
    ensures InOrder(h + [e])
  {
  }

  // Which events reach a state.
  lemma Reaches(e: Event, s: State)
    requires Target(e) == Some(s)
    ensures s.Pending? ==> (e.operation, e.status) in {(Operation.Intake, Reached(State.Pending)),
                             (Operation.Approve, Errored), (Operation.ResolveNotCreated, Reached(State.Pending))}
    ensures s.Sending? ==> e.operation.Approve? && e.status == Reached(State.Sending)
    ensures s.Unknown? ==> (e.operation, e.status) in {(Operation.Approve, Reached(State.Unknown)),
                             (Operation.Recover, Reached(State.Unknown))}
  {
  }

  lemma ReplaceFollowsOn(w: World, p: Proc, input: Input)
    requires Inv(w) && CanReplace(w, p, input)
    ensures var id := Subject(w.pcs[p].task).value;
            var c := Plan(w.pcs[p].task, w.pcs[p].phase, w.records[id], input).value;
            && id in w.history && w.history[id] != []
            && FollowsOn(w.history[id][|w.history[id]| - 1], c.event)
  {
    var id := Subject(w.pcs[p].task).value;
    var r := w.records[id];
    CurrentIs(w, p);
    Reaches(w.history[id][|w.history[id]| - 1], r.state);
    if w.pcs[p].phase.Calling? {
      CallingIsSending(w, p);
    }
    hide Inv, InOrder, Target, FollowsOn;
    PlanFollowsOn(w.pcs[p].task, w.pcs[p].phase, r, input, w.history[id][|w.history[id]| - 1]);
  }

  lemma PlanFollowsOn(task: Task, phase: Phase, r: Request, input: Input, last: Event)
    requires Plan(task, phase, r, input).Some? && (phase.Calling? ==> r.state.Sending?)
    requires r.state.Pending? ==> (last.operation, last.status) in {(Operation.Intake, Reached(State.Pending)),
                                    (Operation.Approve, Errored), (Operation.ResolveNotCreated, Reached(State.Pending))}
    requires r.state.Sending? ==> last.operation.Approve? && last.status == Reached(State.Sending)
    requires r.state.Unknown? ==> (last.operation, last.status) in {(Operation.Approve, Reached(State.Unknown)),
                                    (Operation.Recover, Reached(State.Unknown))}
    ensures FollowsOn(last, Plan(task, phase, r, input).value.event)
  {
    hide AcceptableCreated, MayResult;
  }

  lemma ReplaceKeepsOrder(w: World, p: Proc, input: Input)
    requires Inv(w) && AllInOrder(w) && CanReplace(w, p, input)
    ensures AllInOrder(Replaced(w, p, input))
  {
    hide Inv, Plan, FollowsOn, InOrder;
    ReplaceFollowsOn(w, p, input);
    ReplacedFields(w, p, input);
    var id := Subject(w.pcs[p].task).value;
    var c := Plan(w.pcs[p].task, w.pcs[p].phase, w.records[id], input).value;
    OneMore(w.history[id], c.event);
    hide Replaced;
  }

  lemma MigrateKeepsOrder(w: World, p: Proc)
    requires Inv(w) && AllInOrder(w) && CanMigrate(w, p)
    ensures AllInOrder(BitMigrated(w, p))
  {
    hide Inv, InOrder;
    CurrentIs(w, p);
    var id := Subject(w.pcs[p].task).value;
    Reaches(w.history[id][|w.history[id]| - 1], Sending);
    OneMore(w.history[id], RecoverEvent(w.records[id], w.pcs[p].task.now));
  }

  lemma PublishKeepsOrder(w: World, p: Proc, id: string)
    requires AllInOrder(w) && CanPublish(w, p, id)
    ensures AllInOrder(Published(w, p, id))
  {
  }

  lemma StepKeepsOrder(w: World, a: Action)
    requires Inv(w) && AllInOrder(w) && Enabled(w, a)
    ensures AllInOrder(Exec(w, a))
  {
    hide Inv, AllInOrder, Replaced, BitMigrated, Published, CanReplace, CanMigrate, CanPublish;
    match a {
      case Replace(p, input) => ReplaceKeepsOrder(w, p, input);
      case Migrate(p) => MigrateKeepsOrder(w, p);
      case Publish(p, id) => PublishKeepsOrder(w, p, id);
      case _ => OtherStepsKeepHistory(w, a);
    }
  }

  lemma OtherStepsKeepHistory(w: World, a: Action)
    requires Enabled(w, a) && AllInOrder(w) && !(a.Replace? || a.Migrate? || a.Publish?)
    ensures AllInOrder(Exec(w, a))
  {
    hide InOrder;
    assert Exec(w, a).history == w.history;
  }

  lemma {:induction false} RunKeepsOrder(w: World, acts: seq<Action>, v: World)
    requires Inv(w) && AllInOrder(w) && Run(w, acts, v)
    ensures AllInOrder(v)
    decreases |acts|
  {
    if acts != [] {
      hide Inv, AllInOrder, Enabled, Exec;
      StepKeepsInv(w, acts[0]);
      StepKeepsOrder(w, acts[0]);
      RunKeepsOrder(Exec(w, acts[0]), acts[1..], v);
    }
  }

  // In every run the events of a request follow each other only in this order, and what
  // the log tells of it are these events or all but the last.
  lemma EventsAreInOrder(v: World, id: string)
    requires Reachable(v) && id in v.records
    ensures id in v.history && InOrder(v.history[id])
    ensures var told := Told(v.audit, id); told == [] || InOrder(told)
  {
    var w, acts :| Init(w) && Run(w, acts, v);
    InitInv(w);
    RunKeepsOrder(w, acts, v);
    AuditTellsHistory(v, id);
    hide Reachable, Run;
    var h := v.history[id];
    assert |h| > 1 ==> InOrder(h[..|h| - 1]);
  }
}
