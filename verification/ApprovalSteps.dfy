/**
  The durable steps keep the invariant: replacing a record, appending to the
  log, publishing a record and beginning a POST.
 */
module ApprovalSteps {
  import opened Wrappers
  import opened PendingRecord
  import opened AuditTrail
  import opened IssueSend
  import opened ApprovalProtocol
  import opened ApprovalInvariant

  lemma UnfinishedShrinks(records: map<string, Request>, id: string, r: Request)
    requires id in records && (HasContent(r.state) ==> HasContent(records[id].state))
    ensures |Unfinished(records[id := r])| <= |Unfinished(records)|
  {
    var a := Unfinished(records[id := r]);
    var b := Unfinished(records);
    assert a <= b;
    assert b == a + (b - a);
  }

  predicate Grown(w: World, v: World) {
    && w.project == v.project && w.prompts == v.prompts && w.binding == v.binding && w.lock == v.lock
    && (forall id :: id in w.submitted ==> id in v.submitted && v.submitted[id] == w.submitted[id])
    && (forall id :: id in w.records ==> id in v.records)
  }

  // The processes that do not hold the lock know only what was submitted and shown.
  lemma PcsStay(w: World, v: World, p: Proc)
    requires LockOk(w) && PcsOk(w) && Holds(w, p) && Grown(w, v)
    requires p in v.pcs && v.pcs == w.pcs[p := v.pcs[p]] && PcOk(v, p, v.pcs[p])
    ensures PcsOk(v)
  {
    hide TaskOk;
    forall q | q in v.pcs ensures PcOk(v, q, v.pcs[q]) {
      if q != p {
        assert PcOk(w, q, w.pcs[q]) && !w.pcs[q].Held?;
      }
    }
  }

  lemma LockStays(w: World, v: World, p: Proc)
    requires LockOk(w) && LockHeld(w) && Holds(w, p) && w.lock == v.lock
    requires p in v.pcs && v.pcs == w.pcs[p := v.pcs[p]] && v.pcs[p].Held?
    ensures LockOk(v) && LockHeld(v)
  {
  }

  lemma PostsStay(w: World, v: World)
    requires PostsOk(w) && Grown(w, v) && w.audit == v.audit && w.posts == v.posts
    ensures PostsOk(v)
  {
    hide PostOk;
    forall i | 0 <= i < |v.posts| ensures PostOk(v, v.posts[i]) {
      PostFrame(w, v, w.posts[i]);
    }
  }

  lemma AuditStays(w: World, v: World)
    requires AuditOk(w) && Grown(w, v) && w.audit == v.audit
    ensures AuditOk(v)
  {
    hide Target;
  }

  predicate Stores(w: World, v: World, p: Proc, id: string) {
    && id in w.records && id in v.records && id in w.history && id in v.history && p in v.pcs
    && v == w.(records := w.records[id := v.records[id]], history := w.history[id := v.history[id]],
               pcs := w.pcs[p := v.pcs[p]])
  }

  lemma IdsStay(w: World, v: World, p: Proc, id: string)
    requires IdsOk(w) && Stores(w, v, p, id) && id in v.submitted && IdOk(v, id)
    ensures IdsOk(v)
  {
    hide RequestOk;
    assert v.records.Keys == w.records.Keys;
    forall x | x in v.records ensures IdOk(v, x) {
      assert IdOk(w, x);
    }
  }

  // The holder of the lock replaces one record and perhaps extends its history.
  lemma StoreKeepsInv(w: World, v: World, p: Proc, id: string)
    requires Inv(w) && Holds(w, p) && Stores(w, v, p, id)
    requires HasContent(v.records[id].state) ==> HasContent(w.records[id].state)
    requires id in v.submitted && IdOk(v, id)
    requires v.pcs[p].Held? && PcOk(v, p, v.pcs[p])
    ensures Inv(v)
  {
    hide IdsOk, IdOk, PcsOk, PcOk, PostsOk, AuditOk, IsSlug, LockOk, LockHeld;
    UnfinishedShrinks(w.records, id, v.records[id]);
    LockStays(w, v, p);
    IdsStay(w, v, p, id);
    PcsStay(w, v, p);
    PostsStay(w, v);
    AuditStays(w, v);
  }

  lemma PostFrame(w: World, v: World, x: Post)
    requires PostOk(w, x) && w.audit == v.audit && w.prompts == v.prompts
    requires forall id :: id in w.submitted ==> id in v.submitted && v.submitted[id] == w.submitted[id]
    ensures PostOk(v, x)
  {
  }

  // ---- A transition ----

  lemma SettlementIsValid(shown: Binding, r: Request, now: nat, result: SendResult)
    requires ValidRequest(r) && r.state.Sending? && ValidBinding(shown)
    ensures ValidChange(r, Settlement(shown, r, now, result))
  {
  }

  lemma SweepChangeIsValid(r: Request, now: nat)
    requires SweepChange(r, now).Some?
    ensures ValidChange(r, SweepChange(r, now).value)
    ensures !IsRelease(SweepChange(r, now).value.event)
  {
  }

  // Whatever a program decides is a transition the table allows.
  lemma PlanIsValid(task: Task, phase: Phase, r: Request, input: Input)
    requires ValidRequest(r) && (task.Approval? ==> ValidBinding(task.shown))
    requires task.Reconciliation? ==> ValidBinding(task.against)
    requires phase.Calling? ==> r.state.Sending?
    requires Plan(task, phase, r, input).Some?
    ensures ValidChange(r, Plan(task, phase, r, input).value)
  {
    match (task, phase, input) {
      case (Approval(_, _, shown), Calling(now, begun), Outcome(result)) =>
        SettlementIsValid(shown, r, now, result);
      case (Sweep(_, now), Ready, Clock(t)) => SweepChangeIsValid(r, now);
      case (IntakeSweep(_, now, _), Ready, Clock(t)) => SweepChangeIsValid(r, now);
      case _ =>
    }
  }

  lemma HistoryGrows(r: Request, h: seq<Event>, c: Change)
    requires ValidChange(r, c) && HistoryOk(h, r) && !r.recoveryAuditPending
    ensures HistoryOk(h + [c.event], Changed(r, c))
    ensures Tells(c.event, r.id)
  {
    LawfulGrows(h, c.event);
  }

  lemma LawfulGrows(h: seq<Event>, e: Event)
    requires Lawful(h) && !e.operation.Intake?
    requires LastTarget(h).Some? && Target(e).Some? && Allowed(LastTarget(h).value, Target(e).value)
    ensures Lawful(h + [e]) && LastTarget(h + [e]) == Target(e)
  {
    var g := h + [e];
    forall i | 0 < i < |g| ensures Follows(g, i) {
      if i < |h| {
        assert Follows(h, i);
      }
    }
  }

  // A new last event leaves the log one event behind.
  lemma TrailFallsBehind(told: seq<Event>, h: seq<Event>, e: Event)
    requires TrailOk(told, h, None)
    ensures TrailOk(told, h + [e], Some(e))
  {
    assert (h + [e])[..|h|] == h;
  }

  // How many POSTs an approval may still have used before a transition.
  lemma PlanSpends(task: Task, phase: Phase, r: Request, input: Input)
    requires Plan(task, phase, r, input).Some?
    requires phase.Calling? ==> r.state.Sending?
    ensures var c := Plan(task, phase, r, input).value;
            && (Allowance(c.target) < Allowance(r.state) ==>
                  IsRelease(c.event) || (phase.Calling? && !phase.begun))
            && (c.target.Sending? ==> r.state.Pending?)
            && (IsRelease(c.event) ==> r.state.Unknown?)
  {
    if Plan(task, phase, r, input).Some? && IsSweep(task) {
      SweepChangeIsValid(r, task.now);
    }
  }

  lemma ChangedRequestOk(w: World, p: Proc, input: Input)
    requires Inv(w) && CanReplace(w, p, input)
    ensures var id := Subject(w.pcs[p].task).value;
            var c := Plan(w.pcs[p].task, w.pcs[p].phase, Current(w, p), input).value;
            && ValidChange(w.records[id], c)
            && RequestOk(w.project, id, Changed(w.records[id], c), w.history[id] + [c.event], w.submitted[id],
                         Told(w.audit, id), PostsFor(w.posts, id))
            && (c.target.Sending? ==> PostsFor(w.posts, id) <= Releases(w.history[id]))
  {
    hide Inv, Plan, Told, HistoryOk, TrailOk, ValidIssue, ValidBinding, IsSlug;
    var task := w.pcs[p].task;
    var phase := w.pcs[p].phase;
    var id := Subject(task).value;
    ProcessOk(w, p);
    RecordOk(w, id);
    var r := w.records[id];
    var h := w.history[id];
    var c := Plan(task, phase, r, input).value;
    PlanIsValid(task, phase, r, input);
    ChangedIsValid(r, c);
    HistoryGrows(r, h, c);
    TrailFallsBehind(Told(w.audit, id), h, c.event);
    PlanSpends(task, phase, r, input);
    ReleasesAppend(h, c.event);
  }

  lemma ReplaceStep(w: World, p: Proc, input: Input)
    requires Inv(w) && CanReplace(w, p, input)
    ensures Inv(Replaced(w, p, input))
  {
    hide RequestOk, PostOk, IsSlug, ValidChange;
    var task := w.pcs[p].task;
    var id := Subject(task).value;
    var c := Plan(task, w.pcs[p].phase, Current(w, p), input).value;
    var v := Replaced(w, p, input);
    ChangedRequestOk(w, p, input);
    assert PcOk(w, p, w.pcs[p]);
    ReplacedPcOk(w, v, p, id, c);
    StoreKeepsInv(w, v, p, id);
  }

  lemma ReplacedPcOk(w: World, v: World, p: Proc, id: string, c: Change)
    requires Holds(w, p) && PcOk(w, p, w.pcs[p]) && id in w.records && id in w.history
    requires Subject(w.pcs[p].task) == Some(id)
    requires !(IsSweep(w.pcs[p].task) && w.pcs[p].phase.Calling?)
    requires c.target.Sending? ==> PostsFor(w.posts, id) <= Releases(w.history[id])
    requires v == Remember(Store(w, p, id, Changed(w.records[id], c), w.pcs[p].task, Ready), id, c.event)
    ensures PcOk(v, p, v.pcs[p])
  {
    hide IsSlug;
    ReleasesAppend(w.history[id], c.event);
  }

  // ---- The marker ----

  lemma ClearMarkerStep(w: World, p: Proc)
    requires Inv(w) && CanClear(w, p)
    ensures Inv(MarkerCleared(w, p))
  {
    hide Inv, RequestOk, PostOk, PcOk, IdOk, IsSlug;
    var task := w.pcs[p].task;
    ProcessOk(w, p);
    SubjectKnown(w, p);
    var id := Subject(task).value;
    var v := MarkerCleared(w, p);
    RecordOk(w, id);
    ClearedPcOk(w, v, p, id);
    ClearedIdOk(w, v, p, id);
    assert w.history[id := w.history[id]] == w.history;
    StoreKeepsInv(w, v, p, id);
  }

  lemma SubjectKnown(w: World, p: Proc)
    requires Holds(w, p) && PcOk(w, p, w.pcs[p]) && w.pcs[p].phase.Logged?
    ensures Subject(w.pcs[p].task).Some? && Subject(w.pcs[p].task).value in w.records
  {
    hide TaskOk;
  }

  lemma ClearedPcOk(w: World, v: World, p: Proc, id: string)
    requires Holds(w, p) && PcOk(w, p, w.pcs[p]) && id in w.records && id in w.history && id in w.submitted
             && IdOk(w, id)
    requires Subject(w.pcs[p].task) == Some(id) && w.pcs[p].phase.Logged?
    requires v == Store(w, p, id, Cleared(w.records[id]), w.pcs[p].task, NextPhase(w.pcs[p].task, w.records[id]))
    ensures PcOk(v, p, v.pcs[p])
  {
    hide IsSlug;
  }

  lemma ClearedIdOk(w: World, v: World, p: Proc, id: string)
    requires Holds(w, p) && PcOk(w, p, w.pcs[p]) && id in w.records && id in w.history && id in w.submitted
             && IdOk(w, id)
    requires Subject(w.pcs[p].task) == Some(id) && w.pcs[p].phase.Logged?
    requires v == Store(w, p, id, Cleared(w.records[id]), w.pcs[p].task, NextPhase(w.pcs[p].task, w.records[id]))
    ensures IdOk(v, id)
  {
    hide IsSlug, TaskOk;
  }

  lemma MigrateStep(w: World, p: Proc)
    requires Inv(w) && CanMigrate(w, p)
    ensures Inv(BitMigrated(w, p))
  {
    hide Inv, RequestOk, PostOk, IdOk, IsSlug, ValidIssue;
    var task := w.pcs[p].task;
    ProcessOk(w, p);
    var id := Subject(task).value;
    var v := BitMigrated(w, p);
    RecordOk(w, id);
    MigratedIdOk(w, v, p, id);
    StoreKeepsInv(w, v, p, id);
  }

  lemma MigratedIdOk(w: World, v: World, p: Proc, id: string)
    requires id in w.records && id in w.history && id in w.submitted && IdOk(w, id)
    requires Holds(w, p) && IsSweep(w.pcs[p].task) && w.records[id].recoveryAuditPending
    requires v == Remember(Store(w, p, id, Migrated(w.records[id], w.pcs[p].task.now), w.pcs[p].task, Ready), id,
                           RecoverEvent(w.records[id], w.pcs[p].task.now))
    ensures IdOk(v, id)
  {
    hide IsSlug;
    var h := w.history[id];
    var e := RecoverEvent(w.records[id], w.pcs[p].task.now);
    LawfulGrows(h, e);
    TrailFallsBehind(Told(w.audit, id), h, e);
    ReleasesAppend(h, e);
  }

  lemma LegacyMarkStep(w: World, p: Proc)
    requires Inv(w) && CanLegacyMark(w, p)
    ensures Inv(LegacyMarked(w, p))
  {
    hide Inv, IdOk, IsSlug;
    var id := Subject(w.pcs[p].task).value;
    var v := LegacyMarked(w, p);
    ProcessOk(w, p);
    RecordOk(w, id);
    LegacyIdOk(w, v, p, id);
    assert w.history[id := w.history[id]] == w.history;
    StoreKeepsInv(w, v, p, id);
  }

  lemma LegacyIdOk(w: World, v: World, p: Proc, id: string)
    requires id in w.records && id in w.history && id in w.submitted && IdOk(w, id)
    requires Holds(w, p) && w.records[id].state.Sending? && w.records[id].auditEvent.None?
    requires v == Store(w, p, id, w.records[id].(state := Unknown, recoveryAuditPending := true), w.pcs[p].task, Ready)
    ensures IdOk(v, id)
  {
    hide IsSlug;
  }

  // ---- The audit log ----

  lemma PostsSurviveAppend(w: World, v: World, e: Event)
    requires PostsOk(w) && Grown(w, v) && v.audit == w.audit + [e] && v.posts == w.posts
    ensures PostsOk(v)
  {
    forall i | 0 <= i < |v.posts| ensures PostOk(v, v.posts[i]) {
      assert PostOk(w, w.posts[i]);
      assert v.audit[..w.posts[i].at] == w.audit[..w.posts[i].at];
    }
  }

  lemma AuditSurvivesAppend(w: World, v: World, e: Event)
    requires AuditOk(w) && Grown(w, v) && v.audit == w.audit + [e]
    requires Target(e).Some? ==> e.request in v.records
    ensures AuditOk(v)
  {
    hide Target;
  }

  // An entry that announces no transition changes what the log tells of no request.
  lemma NoteStep(w: World, e: Event)
    requires Inv(w) && Target(e).None?
    ensures Inv(w.(audit := w.audit + [e]))
  {
    hide IdsOk, PcsOk, PostsOk, AuditOk, IsSlug, Told, Target, LockOk, LockHeld;
    var v := w.(audit := w.audit + [e]);
    NotesTellNothing(w, e);
    IdsSurviveNote(w, v);
    PcsSurviveNote(w, v);
    PostsSurviveAppend(w, v, e);
    AuditSurvivesAppend(w, v, e);
    assert LockOk(v) && LockHeld(v) by {
      LockOnlyPcs(w, v);
    }
  }

  lemma LockOnlyPcs(w: World, v: World)
    requires LockOk(w) && LockHeld(w) && w.pcs == v.pcs && w.lock == v.lock
    ensures LockOk(v) && LockHeld(v)
  {
  }

  lemma NotesTellNothing(w: World, e: Event)
    requires Target(e).None?
    ensures forall id :: Told(w.audit + [e], id) == Told(w.audit, id)
  {
    forall id ensures Told(w.audit + [e], id) == Told(w.audit, id) {
      ToldAppend(w.audit, e, id);
    }
  }

  lemma IdsSurviveNote(w: World, v: World)
    requires IdsOk(w) && v == w.(audit := v.audit)
    requires forall id :: Told(v.audit, id) == Told(w.audit, id)
    ensures IdsOk(v)
  {
    hide RequestOk, Told;
    forall id | id in v.records ensures IdOk(v, id) {
      assert IdOk(w, id);
    }
  }

  lemma PcsSurviveNote(w: World, v: World)
    requires PcsOk(w) && v == w.(audit := v.audit)
    requires forall id :: Told(v.audit, id) == Told(w.audit, id)
    ensures PcsOk(v)
  {
    hide Told;
    forall p | p in v.pcs ensures PcOk(v, p, v.pcs[p]) {
      assert PcOk(w, p, w.pcs[p]);
    }
  }

  // What the invariant says of one request and of one process.
  lemma PcFact(w: World, p: Proc)
    requires Inv(w) && p in w.pcs
    ensures PcOk(w, p, w.pcs[p])
    ensures w.pcs[p].Held? && w.pcs[p].task.Approval? ==>
              w.pcs[p].task.id in w.records && w.pcs[p].task.id in w.history && w.pcs[p].task.id in w.submitted
  {
  }

  // Appending the stored event brings the log up to date, whether or not an
  // interrupted drain had appended it before.
  lemma MarkerCatchesUp(told: seq<Event>, h: seq<Event>, e: Event)
    requires Lawful(h) && TrailOk(told, h, Some(e))
    ensures Join(told, e) == h
  {
    if told != h {
      var n := |h| - 1;
      assert h == h[..n] + [e];
      if n > 0 {
        LawfulNeverRepeats(h, n);
      }
    }
  }

  lemma AppendMarkerStep(w: World, p: Proc)
    requires Inv(w) && CanAppend(w, p)
    ensures Inv(Appended(w, p))
  {
    hide IdsOk, PcsOk, PostsOk, AuditOk, IsSlug, RequestOk, Told, Target, LockOk, LockHeld, TaskOk, PcOk;
    var v := Appended(w, p);
    var id := Subject(w.pcs[p].task).value;
    var e := w.records[id].auditEvent.value;
    RecordOk(w, id);
    PcFact(w, p);
    CaughtUpIdOk(w, v, p, id, e);
    HolderHasLock(w, p);
    LockStays(w, v, p);
    AppendIds(w, v, id, e);
    PcsStay(w, v, p);
    PostsSurviveAppend(w, v, e);
    AuditSurvivesAppend(w, v, e);
  }

  lemma HolderHasLock(w: World, p: Proc)
    requires LockOk(w) && Holds(w, p)
    ensures w.lock == Some(p)
  {
  }

  lemma CaughtUpIdOk(w: World, v: World, p: Proc, id: string, e: Event)
    requires id in w.records && id in w.history && id in w.submitted && IdOk(w, id)
    requires Holds(w, p) && PcOk(w, p, w.pcs[p]) && Subject(w.pcs[p].task) == Some(id) && w.pcs[p].phase.Ready?
    requires w.records[id].auditEvent == Some(e)
    requires v == Take(w, p, w.pcs[p].task, Logged).(audit := w.audit + [e])
    ensures Tells(e, id) && IdOk(v, id) && PcOk(v, p, v.pcs[p])
  {
    hide IsSlug;
    assert Target(e).Some?;
    MarkerCatchesUp(Told(w.audit, id), w.history[id], e);
    ToldAppend(w.audit, e, id);
  }

  lemma AppendIds(w: World, v: World, id: string, e: Event)
    requires IdsOk(w) && v.audit == w.audit + [e] && w.records == v.records && w.history == v.history
    requires w.project == v.project && w.submitted == v.submitted && w.posts == v.posts && e.request == id
    requires id in v.records && id in v.history && id in v.submitted && IdOk(v, id)
    ensures IdsOk(v)
  {
    forall x | x != id ensures Told(v.audit, x) == Told(w.audit, x) {
      ToldAppend(w.audit, e, x);
    }
    hide RequestOk, Told;
    forall x | x in v.records ensures IdOk(v, x) {
      assert IdOk(w, x);
    }
  }

  // ---- A new record ----

  lemma UnfinishedAdds(records: map<string, Request>, id: string, r: Request)
    requires id !in records && HasContent(r.state)
    ensures |Unfinished(records[id := r])| == |Unfinished(records)| + 1
  {
    assert Unfinished(records[id := r]) == Unfinished(records) + {id};
  }

  lemma NoPostsBefore(w: World, posts: seq<Post>, id: string)
    requires id !in w.submitted && forall i :: 0 <= i < |posts| ==> PostOk(w, posts[i])
    ensures PostsFor(posts, id) == 0
  {
    if posts != [] {
      assert PostOk(w, posts[|posts| - 1]);
      NoPostsBefore(w, posts[..|posts| - 1], id);
    }
  }

  lemma NewRequestOk(project: string, id: string, now: nat, issue: Issue)
    requires IsSlug(project) && IsRequestId(id) && ValidIssue(issue)
    ensures var r := NewRequest(project, id, now, issue);
            RequestOk(project, id, r, [r.auditEvent.value], issue, [], 0)
  {
    var h := [NewRequest(project, id, now, issue).auditEvent.value];
    hide IsSlug, IsRequestId, ValidIssue;
    assert h[..0] == [];
  }

  lemma PublishedRequestOk(w: World, p: Proc, id: string)
    requires Inv(w) && CanPublish(w, p, id)
    ensures var task := w.pcs[p].task;
            var r := IntakeRequest(w, id, task.now, task.issue);
            RequestOk(w.project, id, r, [r.auditEvent.value], task.issue, Told(w.audit, id), PostsFor(w.posts, id))
  {
    hide RequestOk, IsSlug, IsRequestId, ValidIssue, ValidBinding;
    assert PcOk(w, p, w.pcs[p]);
    ToldNothing(w.audit, id);
    NoPostsBefore(w, w.posts, id);
    NewRequestOk(w.project, id, w.pcs[p].task.now, w.pcs[p].task.issue);
  }

  lemma PublishIds(w: World, v: World, id: string)
    requires IdsOk(w) && id !in w.records && id in v.records && id in v.history && id in v.submitted
    requires v.records == w.records[id := v.records[id]] && v.history == w.history[id := v.history[id]]
    requires v.submitted == w.submitted[id := v.submitted[id]]
    requires w.project == v.project && w.audit == v.audit && w.posts == v.posts && IdOk(v, id)
    ensures IdsOk(v)
  {
    hide RequestOk;
    forall x | x in v.records ensures IdOk(v, x) {
      if x != id {
        assert IdOk(w, x);
      }
    }
  }

  lemma PublishStep(w: World, p: Proc, id: string)
    requires Inv(w) && CanPublish(w, p, id)
    ensures Inv(Published(w, p, id))
  {
    hide IdsOk, PcsOk, PostsOk, AuditOk, IsSlug, RequestOk, LockOk, LockHeld;
    var v := Published(w, p, id);
    UnfinishedAdds(w.records, id, v.records[id]);
    PublishedRequestOk(w, p, id);
    NotSubmittedBefore(w, id);
    LockStays(w, v, p);
    PublishIds(w, v, id);
    PcsStay(w, v, p);
    PostsStay(w, v);
    AuditStays(w, v);
  }

  lemma NotSubmittedBefore(w: World, id: string)
    requires IdsOk(w) && id !in w.records
    ensures id !in w.submitted && id !in w.history
  {
  }

  // ---- The POST ----

  lemma BeginPostStep(w: World, p: Proc)
    requires Inv(w) && CanPost(w, p)
    ensures Inv(Posted(w, p))
  {
    hide IdsOk, PcsOk, AuditOk, IsSlug, RequestOk, LockOk, LockHeld, PostOk, TaskOk, PcOk;
    var v := Posted(w, p);
    var id := w.pcs[p].task.id;
    var x := v.posts[|w.posts|];
    PcFact(w, p);
    RecordOk(w, id);
    BegunOk(w, v, p, x);
    HolderHasLock(w, p);
    LockStays(w, v, p);
    PostIds(w, v, x);
    PcsStay(w, v, p);
    forall i | 0 <= i < |v.posts| ensures PostOk(v, v.posts[i]) {
      if i < |w.posts| {
        PostFrame(w, v, w.posts[i]);
      }
    }
    AuditStays(w, v);
  }

  lemma BegunOk(w: World, v: World, p: Proc, x: Post)
    requires Holds(w, p) && PcOk(w, p, w.pcs[p]) && w.pcs[p].task.Approval? && w.pcs[p].phase.Calling?
             && !w.pcs[p].phase.begun
    requires var id := w.pcs[p].task.id; id in w.submitted && id in w.records && id in w.history && IdOk(w, id)
    requires w.pcs[p].task.snapshot.issue.Some?
    requires x == Post(p, w.pcs[p].task.id, w.pcs[p].task.snapshot.issue.value, w.pcs[p].task.shown, |w.audit|)
    requires v == Take(w, p, w.pcs[p].task, Calling(w.pcs[p].phase.now, true)).(posts := w.posts + [x])
    ensures PostOk(v, x) && IdOk(v, w.pcs[p].task.id) && PcOk(v, p, v.pcs[p])
  {
    hide IsSlug;
    var id := w.pcs[p].task.id;
    assert w.audit[..|w.audit|] == w.audit;
    SendingIsTold(w.history[id], w.records[id]);
    PostsForAppend(w.posts, x, id);
  }

  lemma PostIds(w: World, v: World, x: Post)
    requires IdsOk(w) && v.posts == w.posts + [x] && w.records == v.records && w.history == v.history
    requires w.project == v.project && w.submitted == v.submitted && w.audit == v.audit
    requires x.request in v.records && x.request in v.history && x.request in v.submitted && IdOk(v, x.request)
    ensures IdsOk(v)
  {
    forall y | y != x.request ensures PostsFor(v.posts, y) == PostsFor(w.posts, y) {
      PostsForAppend(w.posts, x, y);
    }
    hide RequestOk;
    forall y | y in v.records ensures IdOk(v, y) {
      assert IdOk(w, y);
    }
  }

  // Only the approval of a request announces that it is being sent.
  lemma SendingIsTold(h: seq<Event>, r: Request)
    requires HistoryOk(h, r) && r.state.Sending? && !r.recoveryAuditPending
    ensures IsSend(h[|h| - 1])
  {
  }

  // ---- Every step ----

  lemma StepKeepsInv(w: World, a: Action)
    requires Inv(w) && Enabled(w, a)
    ensures Inv(Exec(w, a))
  {
    hide Inv, Shown, Replaced, Appended, MarkerCleared, BitMigrated, LegacyMarked, Published, Posted;
    match a {
      case BeginApproval(p, id) => BeginApprovalStep(w, p, id);
      case ShowPrompt(p) => ShowPromptStep(w, p);
      case LockApproval(p) => LockApprovalStep(w, p);
      case Recheck(p) => RecheckStep(w, p);
      case LockRejection(p, id) => LockStep(w, p, Rejection(id), Ready);
      case LockReconciliation(p, id) => 
        BindingOk(w);
        LockStep(w, p, Reconciliation(id, w.binding), Preflight);
      case BeginRelease(p, id) => BeginReleaseStep(w, p, id);
      case LockRelease(p) => LockStep(w, p, Release(w.pcs[p].id), Ready);
      case LockSweep(p, todo, now) => LockStep(w, p, Sweep(todo, now), Ready);
      case LockIntake(p, todo, now, issue) => LockStep(w, p, IntakeSweep(todo, now, issue), Ready);
      case Advance(p) => AdvanceStep(w, p);
      case Replace(p, input) => ReplaceStep(w, p, input);
      case AppendMarker(p) => AppendMarkerStep(w, p);
      case ClearMarker(p) => ClearMarkerStep(w, p);
      case Migrate(p) => MigrateStep(w, p);
      case LegacyMark(p) => LegacyMarkStep(w, p);
      case Publish(p, id) => PublishStep(w, p, id);
      case BeginPost(p) => BeginPostStep(w, p);
      case Finish(p) => LeaveKeepsInv(w, p);
      case Abandon(p) => LeaveKeepsInv(w, p);
      case Note(e) => NoteStep(w, e);
      case Rebind(b) => RebindStep(w, b);
    }
  }
}
