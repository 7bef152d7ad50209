/**
  The durable record of one Issue request and the transitions it may make
  (src/agent_container/family_pending.py).
 */
module PendingRecord {
  import opened Wrappers
  import opened Utf8

  const TTL_SECONDS := 24 * 60 * 60
  const MAX_UNFINISHED := 10
  const TITLE_BYTES := 256
  const MAX_CANONICAL_BODY_BYTES := 64 * 1024
  const MAX_ISSUE_NUMBER := 2_147_483_647

  datatype State = Pending | Sending | Created | Rejected | Expired | Unknown

  // States whose record still holds the title and body.
  predicate HasContent(s: State) {
    s.Pending? || s.Sending? || s.Unknown?
  }

  // The table of permitted transitions.
  predicate Allowed(s: State, t: State) {
    match s
    case Pending => t.Sending? || t.Rejected? || t.Expired?
    case Sending => t.Pending? || t.Created? || t.Unknown?
    case Unknown => t.Pending? || t.Created?
    case _ => false
  }

  datatype Issue = Issue(title: string, body: string)

  datatype Operation =
    Intake | Preview | Approve | Reject | Expire | ResolveCreated | ResolveNotCreated | Recover

  // An audit status is the name of a state, "denied" or "error".
  datatype Status = Reached(state: State) | Denied | Errored

  datatype Stage =
    AtIntake | AtValidation | AtBinding | AtToken | AtInventory | AtSend | AtResponse | AtCleanup | AtReconcile

  datatype Event = Event(timestamp: nat, project: string, request: string,
                         operation: Operation, status: Status, stage: Stage)

  // The state an event announces when it is the event of a transition; every
  // other event ("denied", a preview, a failed reconciliation) announces none.
  function Target(e: Event): Option<State> {
    match (e.operation, e.status)
    case (Intake, Reached(Pending)) => Some(Pending)
    case (Approve, Reached(Sending)) => Some(Sending)
    case (Approve, Reached(Unknown)) => Some(Unknown)
    case (Approve, Reached(Created)) => Some(Created)
    case (Approve, Errored) => Some(Pending)
    case (Reject, Reached(Rejected)) => Some(Rejected)
    case (Expire, Reached(Expired)) => Some(Expired)
    case (ResolveCreated, Reached(Created)) => Some(Created)
    case (ResolveNotCreated, Reached(Pending)) => Some(Pending)
    case (Recover, Reached(Unknown)) => Some(Unknown)
    case _ => None
  }

  datatype Request = Request(id: string, project: string, createdAt: nat, expiresAt: nat,
                             state: State, issue: Option<Issue>,
                             number: Option<int>, url: Option<string>,
                             recoveryAuditPending: bool, auditEvent: Option<Event>)

  predicate IsRequestId(s: string) {
    |s| == 32 && forall i :: 0 <= i < |s| ==> '0' <= s[i] <= '9' || 'a' <= s[i] <= 'f'
  }

  predicate IsSlugChar(c: char) {
    'A' <= c <= 'Z' || 'a' <= c <= 'z' || '0' <= c <= '9' || c == '.' || c == '_' || c == '-'
  }

  // A project identifier, an owner or a repository name.
  predicate IsSlug(s: string) {
    && 1 <= |s| <= 100
    && (forall i :: 0 <= i < |s| ==> IsSlugChar(s[i]))
    && s[0] != '.' && s[0] != '_' && s[0] != '-'
  }

  predicate ValidIssue(issue: Issue) {
    && 1 <= |issue.title| && Utf8Length(issue.title) <= TITLE_BYTES
    && 1 <= |issue.body| && Utf8Length(issue.body) <= MAX_CANONICAL_BODY_BYTES
  }

  function IssueUrl(owner: string, name: string, number: nat): string {
    "https://github.com/" + owner + "/" + name + "/issues/" + Decimal(number)
  }

  ghost predicate ValidUrl(url: string, number: int) {
    && 1 <= number <= MAX_ISSUE_NUMBER
    && exists owner, name :: IsSlug(owner) && IsSlug(name) && url == IssueUrl(owner, name, number)
  }

  // What every encoded and every decoded record satisfies.
  ghost predicate ValidRequest(r: Request) {
    && IsRequestId(r.id)
    && IsSlug(r.project)
    && r.expiresAt == r.createdAt + TTL_SECONDS
    && (r.recoveryAuditPending ==> r.state.Unknown? && r.auditEvent.None?)
    && (r.auditEvent.Some? ==> r.auditEvent.value.project == r.project && r.auditEvent.value.request == r.id)
    && (HasContent(r.state) <==> r.issue.Some?)
    && (r.issue.Some? ==> ValidIssue(r.issue.value))
    && (r.state.Created? <==> r.number.Some?)
    && (r.state.Created? <==> r.url.Some?)
    && (r.state.Created? ==> ValidUrl(r.url.value, r.number.value))
  }

  // A transition: the target state, the event that announces it, and for
  // CREATED the number and URL of the Issue.
  datatype Change = Change(target: State, event: Event, number: Option<int>, url: Option<string>)

  ghost predicate ValidChange(r: Request, c: Change) {
    && Allowed(r.state, c.target)
    && Target(c.event) == Some(c.target)
    && !c.event.operation.Intake?
    && c.event.project == r.project && c.event.request == r.id
    && (c.target.Created? <==> c.number.Some?)
    && (c.target.Created? <==> c.url.Some?)
    && (c.target.Created? ==> ValidUrl(c.url.value, c.number.value))
  }

  // One atomic replacement publishes the state, drops the content of a
  // terminal request and stores the event that is still to be audited.
  function Changed(r: Request, c: Change): Request {
    r.(state := c.target,
       issue := if HasContent(c.target) then r.issue else None,
       number := c.number, url := c.url,
       recoveryAuditPending := false, auditEvent := Some(c.event))
  }

  // What intake publishes: a PENDING record with the event that announces it.
  function NewRequest(project: string, id: string, now: nat, issue: Issue): Request {
    Request(id, project, now, now + TTL_SECONDS, Pending, Some(issue), None, None, false,
            Some(Event(now, project, id, Intake, Reached(Pending), AtIntake)))
  }

  function Cleared(r: Request): Request {
    r.(recoveryAuditPending := false, auditEvent := None)
  }

  function RecoverEvent(r: Request, now: nat): Event {
    Event(now, r.project, r.id, Recover, Reached(Unknown), AtReconcile)
  }

  function ExpireEvent(r: Request, now: nat): Event {
    Event(now, r.project, r.id, Expire, Reached(Expired), AtCleanup)
  }

  function RecoverChange(r: Request, now: nat): Change {
    Change(Unknown, RecoverEvent(r, now), None, None)
  }

  function ExpireChange(r: Request, now: nat): Change {
    Change(Expired, ExpireEvent(r, now), None, None)
  }

  // The legacy recovery bit becomes the ordinary marker.
  function Migrated(r: Request, now: nat): Request {
    r.(recoveryAuditPending := false, auditEvent := Some(RecoverEvent(r, now)))
  }

  lemma ChangedIsValid(r: Request, c: Change)
    requires ValidRequest(r) && ValidChange(r, c)
    ensures ValidRequest(Changed(r, c))
    ensures ValidRequest(Cleared(Changed(r, c)))
  {
  }
}
