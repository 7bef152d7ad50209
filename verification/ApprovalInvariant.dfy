/**
  The invariant of the approval protocol, kept by every step of every process
  including crashes.
 */
module ApprovalInvariant {
  import opened Wrappers
  import opened PendingRecord
  import opened AuditTrail
  import opened ApprovalProtocol

  function PostsFor(posts: seq<Post>, id: string): nat {
    if posts == [] then 0
    else PostsFor(posts[..|posts| - 1], id) + if posts[|posts| - 1].request == id then 1 else 0
  }

  lemma PostsForAppend(posts: seq<Post>, x: Post, id: string)
    ensures PostsFor(posts + [x], id) == PostsFor(posts, id) + if x.request == id then 1 else 0
  {
    assert (posts + [x])[..|posts|] == posts;
  }

  // ---- One request ----

  // The log tells the whole history, or all but the event the record still stores.
  predicate TrailOk(told: seq<Event>, h: seq<Event>, marker: Option<Event>) {
    && h != []
    && match marker
       case None => told == h
       case Some(e) => h[|h| - 1] == e && (told == h || told == h[..|h| - 1])
  }

  // The history ends in the recorded state; only the legacy bit stands for a
  // transition that has not been written down yet.
  predicate HistoryOk(h: seq<Event>, r: Request) {
    && Lawful(h)
    && LastTarget(h) == Some(if r.recoveryAuditPending then Sending else r.state)
  }

  function Allowance(s: State): nat {
    if s.Sending? || s.Unknown? || s.Created? then 1 else 0
  }

  ghost predicate RequestOk(project: string, id: string, r: Request, h: seq<Event>, issue: Issue,
                            told: seq<Event>, posts: nat)
  {
    && ValidRequest(r) && r.id == id && r.project == project
    && r.issue == (if HasContent(r.state) then Some(issue) else None)
    && HistoryOk(h, r)
    && TrailOk(told, h, r.auditEvent)
    && posts <= Releases(h) + Allowance(r.state)
  }

  ghost predicate IdOk(w: World, id: string)
    requires id in w.records && id in w.history && id in w.submitted
  {
    RequestOk(w.project, id, w.records[id], w.history[id], w.submitted[id], Told(w.audit, id), PostsFor(w.posts, id))
  }

  // ---- One process ----

  predicate SnapshotOk(w: World, id: string, snapshot: Request) {
    id in w.submitted && snapshot.id == id && snapshot.issue == Some(w.submitted[id])
  }

  // An approval that has not begun its POST has an unused permission to do so.
  ghost predicate ApprovalOk(w: World, id: string, phase: Phase)
    requires id in w.records && id in w.history
  {
    && (phase.Calling? ==> w.records[id].state.Sending? && Openable(w, id))
    && (w.records[id].state.Sending? && !(phase.Calling? && phase.begun) ==>
          PostsFor(w.posts, id) <= Releases(w.history[id]))
  }

  ghost predicate TaskOk(w: World, p: Proc, task: Task, phase: Phase) {
    match task
    case Approval(id, snapshot, shown) =>
      && SnapshotOk(w, id, snapshot) && ValidBinding(shown)
      && Prompt(p, id, w.submitted[id], shown) in w.prompts
      && id in w.records && id in w.history && ApprovalOk(w, id, phase)
    case Sweep(todo, _) => phase != Done && !phase.Calling? && forall i :: 0 <= i < |todo| ==> todo[i] in w.records
    case IntakeSweep(todo, _, issue) =>
      phase != Done && !phase.Calling? && ValidIssue(issue) && forall i :: 0 <= i < |todo| ==> todo[i] in w.records
    case Reconciliation(id, against) => id in w.records && !phase.Calling? && ValidBinding(against)
    case _ => task.id in w.records && !phase.Calling?
  }

  ghost predicate PcOk(w: World, p: Proc, pc: Pc) {
    match pc
    case Prompting(id, snapshot, shown) =>
      && SnapshotOk(w, id, snapshot)
      && (shown.Some? ==> ValidBinding(shown.value) && Prompt(p, id, w.submitted[id], shown.value) in w.prompts)
    case Confirming(_, _) => true
    case Held(task, phase) =>
      && TaskOk(w, p, task, phase)
      && (phase.Logged? ==>
            Subject(task).Some? && Subject(task).value in w.records && Subject(task).value in w.history
            && w.records[Subject(task).value].auditEvent.Some?
            && Told(w.audit, Subject(task).value) == w.history[Subject(task).value])
  }

  // ---- Everything ----

  predicate LockOk(w: World) {
    forall p :: p in w.pcs && w.pcs[p].Held? ==> w.lock == Some(p)
  }

  predicate LockHeld(w: World) {
    w.lock.Some? ==> Holds(w, w.lock.value)
  }

  // A begun POST had a durable, audited SENDING before it and sent what was shown.
  predicate PostOk(w: World, x: Post) {
    && x.request in w.submitted && x.issue == w.submitted[x.request]
    && Prompt(x.p, x.request, x.issue, x.binding) in w.prompts
    && x.at <= |w.audit|
    && var told := Told(w.audit[..x.at], x.request); told != [] && IsSend(told[|told| - 1])
  }

  ghost predicate IdsOk(w: World) {
    && w.records.Keys == w.history.Keys == w.submitted.Keys
    && forall id :: id in w.records ==> IdOk(w, id)
  }

  ghost predicate PcsOk(w: World) {
    forall p :: p in w.pcs ==> PcOk(w, p, w.pcs[p])
  }

  predicate PostsOk(w: World) {
    forall i :: 0 <= i < |w.posts| ==> PostOk(w, w.posts[i])
  }

  // Only requests that were taken in have transitions in the log.
  predicate AuditOk(w: World) {
    forall i :: 0 <= i < |w.audit| && Target(w.audit[i]).Some? ==> w.audit[i].request in w.records
  }

  ghost predicate Inv(w: World) {
    && IsSlug(w.project) && ValidBinding(w.binding)
    && LockOk(w) && LockHeld(w)
    && IdsOk(w) && PcsOk(w) && PostsOk(w) && AuditOk(w)
    && |Unfinished(w.records)| <= MAX_UNFINISHED
  }

  lemma InitInv(w: World)
    requires Init(w)
    ensures Inv(w)
  {
    assert Unfinished(w.records) == {};
  }

  // ---- Steps that change no record, history, log or POST ----

  predicate SameFacts(w: World, v: World) {
    && w.project == v.project && w.records == v.records && w.audit == v.audit && w.history == v.history
    && w.submitted == v.submitted && w.posts == v.posts && w.prompts <= v.prompts
  }

  lemma FactsFrame(w: World, v: World)
    requires Inv(w) && SameFacts(w, v) && ValidBinding(v.binding)
    requires LockOk(v) && LockHeld(v)
    requires forall p :: p in v.pcs ==> PcOk(v, p, v.pcs[p])
    ensures Inv(v)
  {
    forall id | id in v.records ensures IdOk(v, id) {
      assert IdOk(w, id);
    }
    forall i | 0 <= i < |v.posts| ensures PostOk(v, v.posts[i]) {
      assert PostOk(w, w.posts[i]);
    }
  }

  lemma PcFrame(w: World, v: World, p: Proc, pc: Pc)
    requires PcOk(w, p, pc) && SameFacts(w, v)
    ensures PcOk(v, p, pc)
  {
  }

  // One process moves; records, log, histories and POSTs stay.
  lemma EnterKeepsInv(w: World, p: Proc, pc: Pc, lock: Option<Proc>, shown: set<Prompt>)
    requires Inv(w)
    requires var v := w.(lock := lock, pcs := w.pcs[p := pc], prompts := w.prompts + shown);
             LockOk(v) && LockHeld(v) && PcOk(v, p, pc)
    ensures Inv(w.(lock := lock, pcs := w.pcs[p := pc], prompts := w.prompts + shown))
  {
    hide IdsOk, PostsOk, AuditOk, IsSlug, ValidBinding, PcOk, LockOk, LockHeld;
    var v := w.(lock := lock, pcs := w.pcs[p := pc], prompts := w.prompts + shown);
    forall q | q in v.pcs ensures PcOk(v, q, v.pcs[q]) {
      if q != p {
        PcFrame(w, v, q, w.pcs[q]);
      }
    }
    FactsFrame(w, v);
  }

  lemma TakeKeepsInv(w: World, p: Proc, task: Task, phase: Phase)
    requires Inv(w) && (w.lock.None? || w.lock == Some(p))
    requires PcOk(Take(w, p, task, phase), p, Held(task, phase))
    ensures Inv(Take(w, p, task, phase))
  {
    hide PcOk, IdsOk, PcsOk, PostsOk, AuditOk, IsSlug, ValidBinding;
    assert w.prompts + {} == w.prompts;
    assert Take(w, p, task, phase)
           == w.(lock := Some(p), pcs := w.pcs[p := Held(task, phase)], prompts := w.prompts + {});
    EnterKeepsInv(w, p, Held(task, phase), Some(p), {});
  }

  lemma EnterFreeKeepsInv(w: World, p: Proc, pc: Pc, shown: set<Prompt>)
    requires Inv(w) && !Holds(w, p) && !pc.Held?
    requires PcOk(Enter(w, p, pc).(prompts := w.prompts + shown), p, pc)
    ensures Inv(Enter(w, p, pc).(prompts := w.prompts + shown))
  {
    hide PcOk, IdsOk, PcsOk, PostsOk, AuditOk, IsSlug, ValidBinding;
    EnterKeepsInv(w, p, pc, w.lock, shown);
  }

  lemma LeaveKeepsInv(w: World, p: Proc)
    requires Inv(w) && p in w.pcs
    ensures Inv(Leave(w, p))
  {
    var v := Leave(w, p);
    forall q | q in v.pcs ensures PcOk(v, q, v.pcs[q]) {
      PcFrame(w, v, q, w.pcs[q]);
    }
    FactsFrame(w, v);
  }

  lemma BeginApprovalStep(w: World, p: Proc, id: string)
    requires Inv(w) && CanOpen(w, p, id, State.Pending)
    ensures Inv(Enter(w, p, Prompting(id, w.records[id], None)))
  {
    assert IdOk(w, id);
    assert w.prompts + {} == w.prompts;
    var pc := Prompting(id, w.records[id], None);
    EnterFreeKeepsInv(w, p, pc, {});
    assert Enter(w, p, pc).(prompts := w.prompts + {}) == Enter(w, p, pc);
  }

  lemma BeginReleaseStep(w: World, p: Proc, id: string)
    requires Inv(w) && CanOpen(w, p, id, State.Unknown)
    ensures Inv(Enter(w, p, Confirming(id, w.records[id])))
  {
    hide Inv;
    assert w.prompts + {} == w.prompts;
    var pc := Confirming(id, w.records[id]);
    EnterFreeKeepsInv(w, p, pc, {});
    assert Enter(w, p, pc).(prompts := w.prompts + {}) == Enter(w, p, pc);
  }

  lemma ShowPromptStep(w: World, p: Proc)
    requires Inv(w) && CanShow(w, p)
    ensures Inv(Shown(w, p))
  {
    var pc := w.pcs[p];
    assert PcOk(w, p, pc);
    EnterFreeKeepsInv(w, p, pc.(shown := Some(w.binding)), {Prompt(p, pc.id, pc.snapshot.issue.value, w.binding)});
  }

  lemma ProcessOk(w: World, p: Proc)
    requires Inv(w) && p in w.pcs
    ensures PcOk(w, p, w.pcs[p])
  {
    hide PcOk, IdOk, PostOk, IsSlug;
  }

  lemma RecordOk(w: World, id: string)
    requires Inv(w) && id in w.records
    ensures id in w.history && id in w.submitted && IdOk(w, id)
  {
    hide PcOk, IdOk, PostOk, IsSlug;
  }

  lemma LockApprovalStep(w: World, p: Proc)
    requires Inv(w) && CanLockApproval(w, p)
    ensures Inv(Take(w, p, Approval(w.pcs[p].id, w.pcs[p].snapshot, w.binding), Preflight))
  {
    hide Inv, PcOk, ValidRequest, ValidIssue, ValidBinding, Unfinished;
    var pc := w.pcs[p];
    BindingOk(w);
    ProcessOk(w, p);
    RecordOk(w, pc.id);
    ConfirmedOk(w, Take(w, p, Approval(pc.id, pc.snapshot, w.binding), Preflight), p, pc, w.binding);
    hide IdOk, CanLockApproval;
    TakeKeepsInv(w, p, Approval(pc.id, pc.snapshot, w.binding), Preflight);
  }

  // A prompt that was answered for the record as it is.
  lemma ConfirmedOk(w: World, v: World, p: Proc, pc: Pc, binding: Binding)
    requires SameFacts(w, v) && pc.Prompting? && PcOk(w, p, pc) && pc.shown == Some(binding) && ValidBinding(binding)
    requires pc.id in w.records && pc.id in w.history && w.records[pc.id].state.Pending?
    ensures PcOk(v, p, Held(Approval(pc.id, pc.snapshot, binding), Preflight))
  {
    hide ValidBinding, IsSlug;
  }

  lemma HolderHasLock(w: World, p: Proc)
    requires Inv(w) && Holds(w, p)
    ensures w.lock == Some(p)
  {
    hide IdsOk, PcsOk, PostsOk, AuditOk, IsSlug, ValidBinding;
  }

  lemma BindingOk(w: World)
    requires Inv(w)
    ensures ValidBinding(w.binding)
  {
    hide IdsOk, PcsOk, PostsOk, AuditOk, IsSlug, ValidBinding;
  }

  lemma RecheckStep(w: World, p: Proc)
    requires Inv(w) && CanRecheck(w, p)
    ensures Inv(Take(w, p, w.pcs[p].task, Ready))
  {
    hide Inv, IsSlug, ValidIssue;
    ProcessOk(w, p);
    HolderHasLock(w, p);
    TakeKeepsInv(w, p, w.pcs[p].task, Ready);
  }

  lemma AdvanceStep(w: World, p: Proc)
    requires Inv(w) && CanAdvance(w, p)
    ensures Inv(Take(w, p, Rest(w.pcs[p].task), Ready))
  {
    hide Inv, PcOk, Rest;
    ProcessOk(w, p);
    HolderHasLock(w, p);
    RestOk(w, Take(w, p, Rest(w.pcs[p].task), Ready), p, w.pcs[p].task, w.pcs[p].phase);
    TakeKeepsInv(w, p, Rest(w.pcs[p].task), Ready);
  }

  lemma RestOk(w: World, v: World, p: Proc, task: Task, phase: Phase)
    requires w.records == v.records && IsSweep(task) && task.todo != [] && PcOk(w, p, Held(task, phase))
    ensures PcOk(v, p, Held(Rest(task), Ready))
  {
    hide ValidIssue;
    var rest := task.todo[1..];
    assert forall i :: 0 <= i < |rest| ==> rest[i] == task.todo[i + 1];
  }

  // The commands that take the lock without a prompt before them.
  lemma LockStep(w: World, p: Proc, task: Task, phase: Phase)
    requires Inv(w) && w.lock.None? && (p in w.pcs ==> !w.pcs[p].Held?)
    requires phase.Ready? || phase.Preflight?
    requires match task
             case Rejection(id) => id in w.records
             case Reconciliation(id, against) => id in w.records && ValidBinding(against)
             case Release(id) => id in w.records
             case Sweep(todo, _) => Lists(todo, w.records)
             case IntakeSweep(todo, _, issue) => Lists(todo, w.records) && ValidIssue(issue)
             case _ => false
    ensures Inv(Take(w, p, task, phase))
  {
    hide Inv, ValidBinding;
    assert TaskOk(Take(w, p, task, phase), p, task, phase);
    TakeKeepsInv(w, p, task, phase);
  }

  lemma RebindStep(w: World, binding: Binding)
    requires Inv(w) && ValidBinding(binding)
    ensures Inv(w.(binding := binding))
  {
    var v := w.(binding := binding);
    forall q | q in v.pcs ensures PcOk(v, q, v.pcs[q]) {
      PcFrame(w, v, q, w.pcs[q]);
    }
    FactsFrame(w, v);
  }
}
