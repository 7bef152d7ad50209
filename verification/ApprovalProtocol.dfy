/**
  The approval of Issue requests as a state machine over durable steps.

  Every process that works on the store - the operator's approve, reject and
  resolve commands (src/agent_container/family_cli.py), intake and recovery
  (src/agent_container/family_pending.py) - is a program counter; a step is one
  durable write, one lock operation, or one boundary of the external POST.
  Between any two steps any other process may run, and any process may crash.
 */
module ApprovalProtocol {
  import opened Wrappers
  import opened PendingRecord
  import opened IssueSend

  type Proc = nat

  // The repository the Issues go to.
  datatype Binding = Binding(owner: string, name: string, repositoryId: nat)

  predicate ValidBinding(b: Binding) {
    IsSlug(b.owner) && IsSlug(b.name)
  }

  // What an operator was shown, and a POST whose body began to leave the host
  // when the audit log had `at` entries.
  datatype Prompt = Prompt(p: Proc, request: string, issue: Issue, binding: Binding)
  datatype Post = Post(p: Proc, request: string, issue: Issue, binding: Binding, at: nat)

  datatype Task =
    | Approval(id: string, snapshot: Request, shown: Binding)
    | Rejection(id: string)
    | Reconciliation(id: string, against: Binding)
    | Release(id: string)
    | Sweep(todo: seq<string>, now: nat)
    | IntakeSweep(todo: seq<string>, now: nat, issue: Issue)
    | IntakeDrain(id: string)

  datatype Phase = Preflight | Ready | Logged | Calling(now: nat, begun: bool) | Done

  datatype Pc =
    | Prompting(id: string, snapshot: Request, shown: Option<Binding>)
    | Confirming(id: string, snapshot: Request)
    | Held(task: Task, phase: Phase)

  // `records`, `audit`, `binding` and `lock` are the shared state; `history`,
  // `submitted`, `prompts` and `posts` only record what happened.
  datatype World = World(
    project: string,
    records: map<string, Request>,
    audit: seq<Event>,
    binding: Binding,
    lock: Option<Proc>,
    pcs: map<Proc, Pc>,
    history: map<string, seq<Event>>,
    submitted: map<string, Issue>,
    prompts: set<Prompt>,
    posts: seq<Post>)

  predicate Init(w: World) {
    && IsSlug(w.project) && ValidBinding(w.binding)
    && w.records == map[] && w.audit == [] && w.lock.None? && w.pcs == map[]
    && w.history == map[] && w.submitted == map[] && w.prompts == {} && w.posts == []
  }

  function Unfinished(records: map<string, Request>): set<string> {
    set id | id in records && HasContent(records[id].state)
  }

  // ---- The decisions of the programs ----

  datatype Input = Clock(now: nat) | Outcome(result: SendResult) | Verified(now: nat, number: int, url: string)

  predicate AcceptableCreated(b: Binding, number: int, url: string) {
    1 <= number <= MAX_ISSUE_NUMBER && url == IssueUrl(b.owner, b.name, number)
  }

  function ApproveEvent(r: Request, now: nat, status: Status, stage: Stage): Event {
    Event(now, r.project, r.id, Approve, status, stage)
  }

  // How an approval settles the record once the POST has an outcome.
  function Settlement(shown: Binding, r: Request, now: nat, result: SendResult): Change {
    match result
    case SendNotStarted(stage) =>
      Change(Pending, ApproveEvent(r, now, Errored, stage), None, None)
    case SendOutcomeUnknown(stage) =>
      Change(Unknown, ApproveEvent(r, now, Reached(Unknown), stage), None, None)
    case SendFailed =>
      Change(Unknown, ApproveEvent(r, now, Reached(Unknown), AtSend), None, None)
    case SendReturned(number, url) =>
      if AcceptableCreated(shown, number, url)
      then Change(Created, ApproveEvent(r, now, Reached(Created), AtCleanup), Some(number), Some(url))
      else Change(Unknown, ApproveEvent(r, now, Reached(Unknown), AtResponse), None, None)
  }

  // The transition a recovery sweep makes on a record without a marker.
  function SweepChange(r: Request, now: nat): Option<Change> {
    if r.state.Sending? then Some(RecoverChange(r, now))
    else if r.state.Pending? && now >= r.expiresAt then Some(ExpireChange(r, now))
    else None
  }

  // The transition a process that holds the store makes next on its record.
  function Plan(task: Task, phase: Phase, r: Request, input: Input): Option<Change> {
    match (task, phase, input)
    case (Approval(_, _, _), Ready, Clock(now)) =>
      if !r.state.Pending? then None
      else if now >= r.expiresAt then Some(ExpireChange(r, now))
      else Some(Change(Sending, ApproveEvent(r, now, Reached(Sending), AtSend), None, None))
    case (Approval(_, _, shown), Calling(now, begun), Outcome(result)) =>
      if MayResult(begun, result) then Some(Settlement(shown, r, now, result)) else None
    case (Rejection(_), Ready, Clock(now)) =>
      if !r.state.Pending? then None
      else if now >= r.expiresAt then Some(ExpireChange(r, now))
      else Some(Change(Rejected, Event(now, r.project, r.id, Reject, Reached(Rejected), AtCleanup), None, None))
    case (Reconciliation(_, against), Ready, Verified(now, number, url)) =>
      if r.state.Unknown? && AcceptableCreated(against, number, url)
      then Some(Change(Created, Event(now, r.project, r.id, ResolveCreated, Reached(Created), AtCleanup),
                       Some(number), Some(url)))
      else None
    case (Release(_), Ready, Clock(now)) =>
      if r.state.Unknown?
      then Some(Change(Pending, Event(now, r.project, r.id, ResolveNotCreated, Reached(Pending), AtReconcile),
                       None, None))
      else None
    case (Sweep(_, now), Ready, Clock(t)) => if t == now then SweepChange(r, now) else None
    case (IntakeSweep(_, now, _), Ready, Clock(t)) => if t == now then SweepChange(r, now) else None
    case _ => None
  }

  predicate IsSweep(task: Task) {
    task.Sweep? || task.IntakeSweep?
  }

  // The record a task is working on.
  function Subject(task: Task): Option<string> {
    match task
    case Sweep(todo, _) => if todo == [] then None else Some(todo[0])
    case IntakeSweep(todo, _, _) => if todo == [] then None else Some(todo[0])
    case _ => Some(task.id)
  }

  function NextPhase(task: Task, r: Request): Phase {
    if task.Approval? && r.state.Sending? && r.auditEvent.Some? then Calling(r.auditEvent.value.timestamp, false)
    else if IsSweep(task) then Ready
    else Done
  }

  predicate SweptClean(r: Request, now: nat) {
    !r.recoveryAuditPending && r.auditEvent.None? && SweepChange(r, now).None?
  }

  function IntakeRequest(w: World, id: string, now: nat, issue: Issue): Request {
    NewRequest(w.project, id, now, issue)
  }

  // ---- Steps ----

  datatype Action =
    | BeginApproval(p: Proc, id: string)        // snapshot under the lock, released again
    | ShowPrompt(p: Proc)                       // the binding is read and everything displayed
    | LockApproval(p: Proc)                     // confirmed: lock, compare snapshot and binding
    | Recheck(p: Proc)                          // the second comparison of the binding
    | LockRejection(p: Proc, id: string)
    | LockReconciliation(p: Proc, id: string)   // the binding is read behind the lock
    | BeginRelease(p: Proc, id: string)
    | LockRelease(p: Proc)
    | LockSweep(p: Proc, todo: seq<string>, now: nat)
    | LockIntake(p: Proc, todo: seq<string>, now: nat, issue: Issue)
    | Advance(p: Proc)                          // a sweep is done with its current record
    | Replace(p: Proc, input: Input)            // the atomic replacement of a transition
    | AppendMarker(p: Proc)                     // the stored event reaches the audit log
    | ClearMarker(p: Proc)                      // the second replacement
    | Migrate(p: Proc)                          // legacy bit to ordinary marker
    | LegacyMark(p: Proc)                       // recovery as an earlier release did it
    | Publish(p: Proc, id: string)              // a new record
    | BeginPost(p: Proc)                        // the body of the POST starts to leave
    | Finish(p: Proc)                           // the lock is released at the end
    | Abandon(p: Proc)                          // crash, or an exception up to the release
    | Note(event: Event)                        // an audit entry that announces no transition
    | Rebind(binding: Binding)

  predicate Idle(w: World, p: Proc) {
    w.lock.None? && p !in w.pcs
  }

  // A record the ordinary commands may open: they refuse one whose audit is incomplete.
  predicate Openable(w: World, id: string) {
    id in w.records && !w.records[id].recoveryAuditPending && w.records[id].auditEvent.None?
  }

  predicate Holds(w: World, p: Proc) {
    p in w.pcs && w.pcs[p].Held?
  }

  predicate Working(w: World, p: Proc) {
    Holds(w, p) && Subject(w.pcs[p].task).Some? && Subject(w.pcs[p].task).value in w.records
  }

  function Current(w: World, p: Proc): Request
    requires Working(w, p)
  {
    w.records[Subject(w.pcs[p].task).value]
  }

  predicate Lists(todo: seq<string>, records: map<string, Request>) {
    (forall i :: 0 <= i < |todo| ==> todo[i] in records) && (forall id :: id in records ==> id in todo)
  }

  // -- guards --

  predicate CanShow(w: World, p: Proc) {
    p in w.pcs && w.pcs[p].Prompting? && w.pcs[p].shown.None? && w.pcs[p].snapshot.issue.Some?
  }

  predicate CanLockApproval(w: World, p: Proc) {
    && w.lock.None? && p in w.pcs && w.pcs[p].Prompting? && w.pcs[p].shown == Some(w.binding)
    && Openable(w, w.pcs[p].id) && w.records[w.pcs[p].id] == w.pcs[p].snapshot
    && w.pcs[p].snapshot.state.Pending?
  }

  predicate CanRecheck(w: World, p: Proc) {
    && Holds(w, p) && w.pcs[p].phase.Preflight?
    && match w.pcs[p].task
       case Approval(_, _, shown) => shown == w.binding
       case Reconciliation(_, against) => against == w.binding
       case _ => false
  }

  // REJECT opens a PENDING record, the two ways to resolve an UNKNOWN one.
  predicate CanOpen(w: World, p: Proc, id: string, s: State) {
    Idle(w, p) && Openable(w, id) && w.records[id].state == s
  }

  predicate CanLockRelease(w: World, p: Proc) {
    && w.lock.None? && p in w.pcs && w.pcs[p].Confirming?
    && Openable(w, w.pcs[p].id) && w.records[w.pcs[p].id] == w.pcs[p].snapshot
    && w.pcs[p].snapshot.state.Unknown?
  }

  predicate CanSweep(w: World, p: Proc, todo: seq<string>) {
    Idle(w, p) && Lists(todo, w.records)
  }

  predicate Sweeping(w: World, p: Proc) {
    Working(w, p) && IsSweep(w.pcs[p].task) && w.pcs[p].phase.Ready?
  }

  predicate CanAdvance(w: World, p: Proc) {
    Sweeping(w, p) && SweptClean(Current(w, p), w.pcs[p].task.now)
  }

  predicate CanReplace(w: World, p: Proc, input: Input) {
    && Working(w, p) && !Current(w, p).recoveryAuditPending && Current(w, p).auditEvent.None?
    && Plan(w.pcs[p].task, w.pcs[p].phase, Current(w, p), input).Some?
  }

  predicate CanAppend(w: World, p: Proc) {
    Working(w, p) && w.pcs[p].phase.Ready? && Current(w, p).auditEvent.Some?
  }

  predicate CanClear(w: World, p: Proc) {
    Working(w, p) && w.pcs[p].phase.Logged? && Current(w, p).auditEvent.Some?
  }

  predicate CanMigrate(w: World, p: Proc) {
    Sweeping(w, p) && Current(w, p).recoveryAuditPending
  }

  predicate CanLegacyMark(w: World, p: Proc) {
    Sweeping(w, p) && Current(w, p).auditEvent.None? && Current(w, p).state.Sending?
  }

  predicate CanPublish(w: World, p: Proc, id: string) {
    && Holds(w, p) && w.pcs[p].task.IntakeSweep? && w.pcs[p].task.todo == [] && w.pcs[p].phase.Ready?
    && id !in w.records && IsRequestId(id) && |Unfinished(w.records)| < MAX_UNFINISHED
  }

  predicate CanPost(w: World, p: Proc) {
    && Holds(w, p) && w.pcs[p].task.Approval? && w.pcs[p].phase.Calling? && !w.pcs[p].phase.begun
    && w.pcs[p].task.snapshot.issue.Some?
  }

  predicate CanFinish(w: World, p: Proc) {
    Holds(w, p) && (w.pcs[p].phase.Done? || (w.pcs[p].task.Sweep? && w.pcs[p].task.todo == [] && w.pcs[p].phase.Ready?))
  }

  ghost predicate Enabled(w: World, a: Action) {
    match a
    case BeginApproval(p, id) => CanOpen(w, p, id, State.Pending)
    case ShowPrompt(p) => CanShow(w, p)
    case LockApproval(p) => CanLockApproval(w, p)
    case Recheck(p) => CanRecheck(w, p)
    case LockRejection(p, id) => CanOpen(w, p, id, State.Pending)
    case LockReconciliation(p, id) => CanOpen(w, p, id, State.Unknown)
    case BeginRelease(p, id) => CanOpen(w, p, id, State.Unknown)
    case LockRelease(p) => CanLockRelease(w, p)
    case LockSweep(p, todo, now) => CanSweep(w, p, todo)
    case LockIntake(p, todo, now, issue) => CanSweep(w, p, todo) && ValidIssue(issue)
    case Advance(p) => CanAdvance(w, p)
    case Replace(p, input) => CanReplace(w, p, input)
    case AppendMarker(p) => CanAppend(w, p)
    case ClearMarker(p) => CanClear(w, p)
    case Migrate(p) => CanMigrate(w, p)
    case LegacyMark(p) => CanLegacyMark(w, p)
    case Publish(p, id) => CanPublish(w, p, id)
    case BeginPost(p) => CanPost(w, p)
    case Finish(p) => CanFinish(w, p)
    case Abandon(p) => p in w.pcs
    case Note(event) => Target(event).None?
    case Rebind(binding) => ValidBinding(binding)
  }

  // -- effects --

  function Enter(w: World, p: Proc, pc: Pc): World {
    w.(pcs := w.pcs[p := pc])
  }

  function Take(w: World, p: Proc, task: Task, phase: Phase): World {
    w.(lock := Some(p), pcs := w.pcs[p := Held(task, phase)])
  }

  function Leave(w: World, p: Proc): World {
    w.(lock := if w.lock == Some(p) then None else w.lock, pcs := w.pcs - {p})
  }

  // Process `p` durably replaces the record of request `id`.
  function Store(w: World, p: Proc, id: string, r: Request, task: Task, phase: Phase): World {
    w.(records := w.records[id := r], pcs := w.pcs[p := Held(task, phase)])
  }

  function Remember(w: World, id: string, e: Event): World {
    w.(history := w.history[id := (if id in w.history then w.history[id] else []) + [e]])
  }

  function Rest(task: Task): Task
    requires IsSweep(task) && task.todo != []
  {
    task.(todo := task.todo[1..])
  }

  function Shown(w: World, p: Proc): World
    requires CanShow(w, p)
  {
    var pc := w.pcs[p];
    Enter(w, p, pc.(shown := Some(w.binding)))
      .(prompts := w.prompts + {Prompt(p, pc.id, pc.snapshot.issue.value, w.binding)})
  }

  function Replaced(w: World, p: Proc, input: Input): World
    requires CanReplace(w, p, input)
  {
    var task := w.pcs[p].task;
    var id := Subject(task).value;
    var c := Plan(task, w.pcs[p].phase, w.records[id], input).value;
    Remember(Store(w, p, id, Changed(w.records[id], c), task, Ready), id, c.event)
  }

  function Appended(w: World, p: Proc): World
    requires CanAppend(w, p)
  {
    Take(w, p, w.pcs[p].task, Logged).(audit := w.audit + [Current(w, p).auditEvent.value])
  }

  function MarkerCleared(w: World, p: Proc): World
    requires CanClear(w, p)
  {
    var task := w.pcs[p].task;
    var id := Subject(task).value;
    Store(w, p, id, Cleared(w.records[id]), task, NextPhase(task, w.records[id]))
  }

  function BitMigrated(w: World, p: Proc): World
    requires CanMigrate(w, p)
  {
    var task := w.pcs[p].task;
    var id := Subject(task).value;
    Remember(Store(w, p, id, Migrated(w.records[id], task.now), task, Ready), id, RecoverEvent(w.records[id], task.now))
  }

  function LegacyMarked(w: World, p: Proc): World
    requires CanLegacyMark(w, p)
  {
    var task := w.pcs[p].task;
    var id := Subject(task).value;
    Store(w, p, id, w.records[id].(state := Unknown, recoveryAuditPending := true), task, Ready)
  }

  function Published(w: World, p: Proc, id: string): World
    requires CanPublish(w, p, id)
  {
    var task := w.pcs[p].task;
    var r := IntakeRequest(w, id, task.now, task.issue);
    Store(w, p, id, r, IntakeDrain(id), Ready)
      .(history := w.history[id := [r.auditEvent.value]], submitted := w.submitted[id := task.issue])
  }

  function Posted(w: World, p: Proc): World
    requires CanPost(w, p)
  {
    var task := w.pcs[p].task;
    Take(w, p, task, Calling(w.pcs[p].phase.now, true))
      .(posts := w.posts + [Post(p, task.id, task.snapshot.issue.value, task.shown, |w.audit|)])
  }

  ghost function Exec(w: World, a: Action): World
    requires Enabled(w, a)
  {
    match a
    case BeginApproval(p, id) => Enter(w, p, Prompting(id, w.records[id], None))
    case ShowPrompt(p) => Shown(w, p)
    case LockApproval(p) => Take(w, p, Approval(w.pcs[p].id, w.pcs[p].snapshot, w.binding), Preflight)
    case Recheck(p) => Take(w, p, w.pcs[p].task, Ready)
    case LockRejection(p, id) => Take(w, p, Rejection(id), Ready)
    case LockReconciliation(p, id) => Take(w, p, Reconciliation(id, w.binding), Preflight)
    case BeginRelease(p, id) => Enter(w, p, Confirming(id, w.records[id]))
    case LockRelease(p) => Take(w, p, Release(w.pcs[p].id), Ready)
    case LockSweep(p, todo, now) => Take(w, p, Sweep(todo, now), Ready)
    case LockIntake(p, todo, now, issue) => Take(w, p, IntakeSweep(todo, now, issue), Ready)
    case Advance(p) => Take(w, p, Rest(w.pcs[p].task), Ready)
    case Replace(p, input) => Replaced(w, p, input)
    case AppendMarker(p) => Appended(w, p)
    case ClearMarker(p) => MarkerCleared(w, p)
    case Migrate(p) => BitMigrated(w, p)
    case LegacyMark(p) => LegacyMarked(w, p)
    case Publish(p, id) => Published(w, p, id)
    case BeginPost(p) => Posted(w, p)
    case Finish(p) => Leave(w, p)
    case Abandon(p) => Leave(w, p)
    case Note(event) => w.(audit := w.audit + [event])
    case Rebind(binding) => w.(binding := binding)
  }
}
