/**
  A pending record as a JSON object and back, and the size of its text
  (src/agent_container/family_pending.py:225-475, 1359-1411).  Strings are written
  as in section 7 of RFC 8259.
 */
module RecordCodec {
  import opened Wrappers
  import opened PendingRecord

  // ---- JSON values, as the decoder sees them ----

  datatype Key =
    AuditEvent | Body | CreatedAt | ExpiresAt | IssueNumber | IssueUrlKey | OperationKey | ProjectId |
    RecoveryAuditPending | RequestId | StageKey | StateKey | StatusKey | Timestamp | Title | OtherKey(name: string)

  datatype Scalar = Null | Bool(b: bool) | Int(n: int) | Text(s: string) | OtherValue

  datatype Json = Plain(value: Scalar) | Object(fields: map<Key, Scalar>)

  // ---- Names ----

  function StateName(s: State): string {
    match s
    case Pending => "pending"
    case Sending => "sending"
    case Created => "created"
    case Rejected => "rejected"
    case Expired => "expired"
    case Unknown => "unknown"
  }

  function OperationName(o: Operation): string {
    match o
    case Intake => "intake"
    case Preview => "preview"
    case Approve => "approve"
    case Reject => "reject"
    case Expire => "expire"
    case ResolveCreated => "resolve-created"
    case ResolveNotCreated => "resolve-not-created"
    case Recover => "recover"
  }

  function StatusName(s: Status): string {
    match s
    case Reached(state) => StateName(state)
    case Denied => "denied"
    case Errored => "error"
  }

  function StageName(s: Stage): string {
    match s
    case AtIntake => "intake"
    case AtValidation => "validation"
    case AtBinding => "binding"
    case AtToken => "token"
    case AtInventory => "inventory"
    case AtSend => "send"
    case AtResponse => "response"
    case AtCleanup => "cleanup"
    case AtReconcile => "reconcile"
  }

  // The first value with this name.
  function Named<T>(values: seq<T>, name: T -> string, text: string): (r: Option<T>)
    ensures r.Some? ==> name(r.value) == text
  {
    if values == [] then None
    else if name(values[0]) == text then Some(values[0])
    else Named(values[1..], name, text)
  }

  const STATES := [Pending, Sending, Created, Rejected, Expired, Unknown]
  const OPERATIONS := [Intake, Preview, Approve, Reject, Expire, ResolveCreated, ResolveNotCreated, Recover]
  const STATUSES := [Reached(Pending), Reached(Sending), Reached(Created), Reached(Rejected), Reached(Expired),
                     Reached(Unknown), Denied, Errored]
  const STAGES := [AtIntake, AtValidation, AtBinding, AtToken, AtInventory, AtSend, AtResponse, AtCleanup, AtReconcile]

  lemma {:induction false} NamedFinds<T>(values: seq<T>, name: T -> string, x: T)
    requires x in values
    requires forall i, j :: 0 <= i < j < |values| ==> name(values[i]) != name(values[j])
    ensures Named(values, name, name(x)) == Some(x)
  {
    if values[0] != x {
      var k :| 0 < k < |values| && values[k] == x;
      assert name(values[0]) != name(values[k]);
      NamedFinds(values[1..], name, x);
    }
  }

  lemma StateNames(s: State)
    ensures Named(STATES, StateName, StateName(s)) == Some(s)
  {
    assert s in STATES;
    NamedFinds(STATES, StateName, s);
  }

  lemma OperationNames(o: Operation)
    ensures Named(OPERATIONS, OperationName, OperationName(o)) == Some(o)
  {
    assert o in OPERATIONS;
    NamedFinds(OPERATIONS, OperationName, o);
  }

  lemma StatusNames(s: Status)
    ensures Named(STATUSES, StatusName, StatusName(s)) == Some(s)
  {
    assert s == STATUSES[match s
                         case Denied => 6
                         case Errored => 7
                         case Reached(Pending) => 0
                         case Reached(Sending) => 1
                         case Reached(Created) => 2
                         case Reached(Rejected) => 3
                         case Reached(Expired) => 4
                         case Reached(Unknown) => 5];
    NamedFinds(STATUSES, StatusName, s);
  }

  lemma StageNames(s: Stage)
    ensures Named(STAGES, StageName, StageName(s)) == Some(s)
  {
    assert s in STAGES;
    NamedFinds(STAGES, StageName, s);
  }

  // ---- Encoding ----

  const COMMON := {CreatedAt, ExpiresAt, ProjectId, RequestId, StateKey}
  const MARKER := {OperationKey, ProjectId, RequestId, StageKey, StatusKey, Timestamp}

  function EventPayload(e: Event): map<Key, Scalar> {
    map[OperationKey := Text(OperationName(e.operation)),
        ProjectId := Text(e.project),
        RequestId := Text(e.request),
        StageKey := Text(StageName(e.stage)),
        StatusKey := Text(StatusName(e.status)),
        Timestamp := Int(e.timestamp)]
  }

  function CommonPayload(r: Request): map<Key, Json> {
    map[CreatedAt := Plain(Int(r.createdAt)),
        ExpiresAt := Plain(Int(r.expiresAt)),
        ProjectId := Plain(Text(r.project)),
        RequestId := Plain(Text(r.id)),
        StateKey := Plain(Text(StateName(r.state)))]
  }

  function OptionalPayload(r: Request): map<Key, Json> {
    (if r.issue.Some? then map[Body := Plain(Text(r.issue.value.body)), Title := Plain(Text(r.issue.value.title))]
     else map[])
    + (if r.number.Some? then map[IssueNumber := Plain(Int(r.number.value))] else map[])
    + (if r.url.Some? then map[IssueUrlKey := Plain(Text(r.url.value))] else map[])
    + (if r.recoveryAuditPending then map[RecoveryAuditPending := Plain(Bool(true))] else map[])
    + (if r.auditEvent.Some? then map[AuditEvent := Object(EventPayload(r.auditEvent.value))] else map[])
  }

  // `_request_payload`.
  function Payload(r: Request): map<Key, Json> {
    CommonPayload(r) + OptionalPayload(r)
  }

  // ---- Decoding ----

  function AsText(m: map<Key, Json>, k: Key): Option<string> {
    if k in m && m[k].Plain? && m[k].value.Text? then Some(m[k].value.s) else None
  }

  function AsNat(m: map<Key, Json>, k: Key): Option<nat> {
    if k in m && m[k].Plain? && m[k].value.Int? && m[k].value.n >= 0 then Some(m[k].value.n) else None
  }

  function Lift(fields: map<Key, Scalar>): map<Key, Json> {
    map k | k in fields :: Plain(fields[k])
  }

  function DecodeEvent(fields: map<Key, Scalar>): Option<Event> {
    if fields.Keys != MARKER then None
    else
      var m := Lift(fields);
      match (AsNat(m, Timestamp), AsText(m, ProjectId), AsText(m, RequestId),
             AsText(m, OperationKey), AsText(m, StatusKey), AsText(m, StageKey))
      case (Some(timestamp), Some(project), Some(request), Some(operation), Some(status), Some(stage)) =>
        (match (Named(OPERATIONS, OperationName, operation), Named(STATUSES, StatusName, status),
          Named(STAGES, StageName, stage))
         case (Some(o), Some(s), Some(g)) =>
           if IsSlug(project) && IsRequestId(request) then Some(Event(timestamp, project, request, o, s, g)) else None
         case _ => None)
      case _ => None
  }

  // The stored event: absent, or an object that decodes.  `Some(None)` is absent.
  function DecodeMarker(m: map<Key, Json>): Option<Option<Event>> {
    if AuditEvent !in m || m[AuditEvent] == Plain(Null) then Some(None)
    else if m[AuditEvent].Plain? then None
    else
      match DecodeEvent(m[AuditEvent].fields)
      case None => None
      case Some(e) => Some(Some(e))
  }

  function Allowance(state: State, marker: Option<Event>): set<Key> {
    COMMON
    + (if marker.Some? then {AuditEvent} else {})
    + (if HasContent(state) then {Body, Title} else if state.Created? then {IssueNumber, IssueUrlKey} else {})
  }

  // Whether the legacy recovery bit is set; it may only be stored as `true`, in
  // UNKNOWN and without a marker.
  function DecodeRecovery(m: map<Key, Json>, state: State, marker: Option<Event>): Option<bool> {
    if state.Unknown? && marker.None? && m.Keys == Allowance(state, marker) + {RecoveryAuditPending}
       && m[RecoveryAuditPending] == Plain(Bool(true))
    then Some(true)
    else if m.Keys == Allowance(state, marker) then Some(false) else None
  }

  // `_decode_request`.
  ghost function Decode(m: map<Key, Json>): Result<Request> {
    match AsText(m, StateKey)
    case None => Refused
    case Some(name) =>
      match (Named(STATES, StateName, name), DecodeMarker(m))
      case (Some(state), Some(marker)) =>
        (match (DecodeRecovery(m, state, marker), AsText(m, RequestId), AsText(m, ProjectId), AsNat(m, CreatedAt),
          AsNat(m, ExpiresAt))
         case (Some(recovery), Some(id), Some(project), Some(createdAt), Some(expiresAt)) =>
           Validated(m, Request(id, project, createdAt, expiresAt, state, None, None, None, recovery, marker))
         case _ => Refused)
      case _ => Refused
  }

  // The fields that depend on the state, and the record as a whole.
  ghost function Validated(m: map<Key, Json>, base: Request): Result<Request> {
    if HasContent(base.state) then
      match (AsText(m, Title), AsText(m, Body))
      case (Some(title), Some(body)) => Accept(base.(issue := Some(Issue(title, body))))
      case _ => Refused
    else if base.state.Created? then
      match (AsNat(m, IssueNumber), AsText(m, IssueUrlKey))
      case (Some(number), Some(url)) => Accept(base.(number := Some(number), url := Some(url)))
      case _ => Refused
    else Accept(base)
  }

  ghost function Accept(r: Request): Result<Request> {
    if ValidRequest(r) then Ok(r) else Refused
  }

  // ---- Each undoes the other ----

  lemma EventRoundTrip(e: Event)
    requires IsSlug(e.project) && IsRequestId(e.request)
    ensures DecodeEvent(EventPayload(e)) == Some(e)
  {
    hide IsSlug, IsRequestId, Named, OperationName, StatusName, StageName;
    OperationNames(e.operation);
    StatusNames(e.status);
    StageNames(e.stage);
    assert EventPayload(e).Keys == MARKER;
  }

  lemma OnlyItsPayload(fields: map<Key, Scalar>)
    requires DecodeEvent(fields).Some?
    ensures EventPayload(DecodeEvent(fields).value) == fields
  {
    hide IsSlug, IsRequestId, OperationName, StatusName, StageName;
    var e := DecodeEvent(fields).value;
    assert EventPayload(e).Keys == MARKER == fields.Keys;
  }

  lemma PayloadKeys(r: Request)
    requires ValidRequest(r)
    ensures Payload(r).Keys == Allowance(r.state, r.auditEvent)
            + if r.recoveryAuditPending then {RecoveryAuditPending} else {}
  {
    hide IsSlug, IsRequestId, ValidUrl, ValidIssue, EventPayload;
  }

  lemma PayloadFields(r: Request)
    requires ValidRequest(r)
    ensures var m := Payload(r);
            && AsText(m, StateKey) == Some(StateName(r.state)) && AsText(m, RequestId) == Some(r.id)
            && AsText(m, ProjectId) == Some(r.project)
            && AsNat(m, CreatedAt) == Some(r.createdAt) && AsNat(m, ExpiresAt) == Some(r.expiresAt)
            && (r.issue.Some? ==> AsText(m, Title) == Some(r.issue.value.title)
                                  && AsText(m, Body) == Some(r.issue.value.body))
            && (r.number.Some? ==> r.number.value >= 0 && AsNat(m, IssueNumber) == Some(r.number.value))
            && (r.url.Some? ==> AsText(m, IssueUrlKey) == Some(r.url.value))
            && (r.recoveryAuditPending ==> RecoveryAuditPending in m && m[RecoveryAuditPending] == Plain(Bool(true)))
  {
    hide ValidRequest, StateName, Payload, AsText, AsNat;
    NumberIsPositive(r);
    CommonFields(r);
    ContentFields(r);
    CreatedFields(r);
  }

  lemma CommonFields(r: Request)
    ensures var m := Payload(r);
            && AsText(m, StateKey) == Some(StateName(r.state)) && AsText(m, RequestId) == Some(r.id)
            && AsText(m, ProjectId) == Some(r.project)
            && AsNat(m, CreatedAt) == Some(r.createdAt) && AsNat(m, ExpiresAt) == Some(r.expiresAt)
  {
    hide StateName, OptionalPayload;
    NotCommon(r);
  }

  lemma NotCommon(r: Request)
    ensures OptionalPayload(r).Keys !! COMMON
  {
    hide EventPayload;
  }

  lemma ContentFields(r: Request)
    ensures var m := Payload(r);
            && (r.issue.Some? ==> AsText(m, Title) == Some(r.issue.value.title)
                                  && AsText(m, Body) == Some(r.issue.value.body))
            && (r.recoveryAuditPending ==> RecoveryAuditPending in m && m[RecoveryAuditPending] == Plain(Bool(true)))
  {
    hide EventPayload, CommonPayload;
  }

  lemma CreatedFields(r: Request)
    ensures var m := Payload(r);
            && (r.number.Some? && r.number.value >= 0 ==> AsNat(m, IssueNumber) == Some(r.number.value))
            && (r.url.Some? ==> AsText(m, IssueUrlKey) == Some(r.url.value))
  {
    hide EventPayload, CommonPayload;
  }

  lemma NumberIsPositive(r: Request)
    requires ValidRequest(r)
    ensures r.number.Some? ==> r.number.value > 0
  {
    hide IsSlug, IsRequestId, ValidIssue;
  }

  // Every valid record decodes from its payload.
  lemma DecodeEncoded(r: Request)
    requires ValidRequest(r)
    ensures Decode(Payload(r)) == Ok(r)
  {
    hide IsSlug, IsRequestId, ValidUrl, ValidIssue, Named, StateName, Allowance, Payload, AsText, AsNat, DecodeMarker;
    PayloadFields(r);
    PayloadKeys(r);
    StateNames(r.state);
    MarkerEncoded(r);
    var m := Payload(r);
    AllowanceHasNoRecovery(r.state, r.auditEvent);
    assert DecodeRecovery(m, r.state, r.auditEvent) == Some(r.recoveryAuditPending);
    var base := Request(r.id, r.project, r.createdAt, r.expiresAt, r.state, None, None, None, r.recoveryAuditPending,
        r.auditEvent);
    assert Decode(m) == Validated(m, base);
    assert Validated(m, base) == Accept(r);
  }

  lemma AllowanceHasNoRecovery(state: State, marker: Option<Event>)
    ensures RecoveryAuditPending !in Allowance(state, marker)
  {
  }

  lemma MarkerEncoded(r: Request)
    requires ValidRequest(r)
    ensures DecodeMarker(Payload(r)) == Some(r.auditEvent)
  {
    hide IsSlug, IsRequestId, ValidUrl, ValidIssue, EventPayload, DecodeEvent;
    if r.auditEvent.Some? {
      EventRoundTrip(r.auditEvent.value);
    }
  }

  lemma MarkerDecoded(m: map<Key, Json>)
    requires DecodeMarker(m).Some? && DecodeMarker(m).value.Some?
    ensures AuditEvent in m && m[AuditEvent] == Object(EventPayload(DecodeMarker(m).value.value))
  {
    hide EventPayload, DecodeEvent;
    OnlyItsPayload(m[AuditEvent].fields);
  }

  // The parts of a record that decoded, as its map holds them.
  lemma DecodedFields(m: map<Key, Json>)
    requires Decode(m).Ok?
    ensures var r := Decode(m).value;
            && ValidRequest(r)
            && DecodeMarker(m) == Some(r.auditEvent)
               && DecodeRecovery(m, r.state, r.auditEvent) == Some(r.recoveryAuditPending)
            && AsText(m, StateKey) == Some(StateName(r.state)) && AsText(m, RequestId) == Some(r.id)
            && AsText(m, ProjectId) == Some(r.project)
            && AsNat(m, CreatedAt) == Some(r.createdAt) && AsNat(m, ExpiresAt) == Some(r.expiresAt)
            && (r.issue.Some? ==> AsText(m, Title) == Some(r.issue.value.title)
                                  && AsText(m, Body) == Some(r.issue.value.body))
            && (r.number.Some? ==> r.number.value >= 0 && AsNat(m, IssueNumber) == Some(r.number.value))
            && (r.url.Some? ==> AsText(m, IssueUrlKey) == Some(r.url.value))
  {
    hide ValidRequest, DecodeRecovery, DecodeMarker, AsText, AsNat, StateName;
  }

  // Nothing but its payload decodes to a record, and only valid records result.
  lemma DecodesOnlyPayloads(m: map<Key, Json>)
    requires Decode(m).Ok?
    ensures ValidRequest(Decode(m).value) && Payload(Decode(m).value) == m
  {
    hide IsSlug, IsRequestId, ValidUrl, ValidIssue, EventPayload, DecodeMarker, StateName, Decode, Payload, Allowance,
         AsText, AsNat, DecodeRecovery;
    var r := Decode(m).value;
    DecodedFields(m);
    PayloadFields(r);
    PayloadKeys(r);
    if r.auditEvent.Some? {
      MarkerDecoded(m);
      MarkerEncoded(r);
      MarkerDecoded(Payload(r));
    }
    RecoveryDecoded(m, r);
    SamePayload(Payload(r), m, r);
  }

  lemma RecoveryDecoded(m: map<Key, Json>, r: Request)
    requires DecodeRecovery(m, r.state, r.auditEvent) == Some(r.recoveryAuditPending)
    ensures m.Keys == Allowance(r.state, r.auditEvent) + if r.recoveryAuditPending then {RecoveryAuditPending} else {}
    ensures r.recoveryAuditPending ==> RecoveryAuditPending in m && m[RecoveryAuditPending] == Plain(Bool(true))
  {
    hide Allowance;
  }

  predicate SameText(a: map<Key, Json>, b: map<Key, Json>, k: Key) {
    AsText(a, k).Some? && AsText(a, k) == AsText(b, k)
  }

  predicate SameNat(a: map<Key, Json>, b: map<Key, Json>, k: Key) {
    AsNat(a, k).Some? && AsNat(a, k) == AsNat(b, k)
  }

  lemma SamePayload(a: map<Key, Json>, b: map<Key, Json>, r: Request)
    requires a.Keys == b.Keys == Allowance(r.state, r.auditEvent)
             + if r.recoveryAuditPending then {RecoveryAuditPending} else {}
    requires SameText(a, b, StateKey) && SameText(a, b, RequestId) && SameText(a, b, ProjectId)
    requires SameNat(a, b, CreatedAt) && SameNat(a, b, ExpiresAt)
    requires HasContent(r.state) ==> SameText(a, b, Title) && SameText(a, b, Body)
    requires r.state.Created? ==> SameNat(a, b, IssueNumber) && SameText(a, b, IssueUrlKey)
    requires r.recoveryAuditPending ==> a[RecoveryAuditPending] == b[RecoveryAuditPending]
    requires r.auditEvent.Some? ==> a[AuditEvent] == b[AuditEvent]
    ensures a == b
  {
    forall k | k in a ensures a[k] == b[k] {
      assert SameText(a, b, k) || SameNat(a, b, k) || k == AuditEvent || k == RecoveryAuditPending;
    }
  }
}
