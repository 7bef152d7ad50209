/**
  The JSON text of a record: what a reader of section 7 of RFC 8259 makes of its strings,
  and its members by name and order (src/agent_container/family_pending.py:269-303,
  377-387, 478-501).
 */
module JsonText {
  import opened Wrappers
  import opened Utf8
  import opened PendingRecord
  import opened RecordCodec
  import opened RecordSize

  // ---- Reading a string ----

  // The value of a hexadecimal digit in either case.
  function HexOf(c: char): Option<nat> {
    if '0' <= c <= '9' then Some((c - '0') as nat)
    else if 'a' <= c <= 'f' then Some((c - 'a') as nat + 10)
    else if 'A' <= c <= 'F' then Some((c - 'A') as nat + 10)
    else None
  }

  // The code unit of \uXXXX.
  function UnitAt(t: string): (r: Option<nat>)
    ensures r.Some? ==> |t| >= 6 && r.value < 0x1_0000
  {
    if |t| >= 6 && t[0] == '\\' && t[1] == 'u' then
      match (HexOf(t[2]), HexOf(t[3]), HexOf(t[4]), HexOf(t[5]))
      case (Some(a), Some(b), Some(c), Some(d)) =>
        if a < 16 && b < 16 && c < 16 && d < 16 then Some(a * 4096 + b * 256 + c * 16 + d) else None
      case _ => None
    else None
  }

  // The first character of the text of a string, and how many characters it takes:
  // itself, an escape, or two escapes for a surrogate pair.
  function CharAt(t: string): (r: Option<(char, nat)>)
    ensures r.Some? ==> 0 < r.value.1 <= |t| && t[0] != '"'
  {
    if t == [] || t[0] == '"' || t[0] < ' ' then None
    else if t[0] != '\\' then Some((t[0], 1))
    else if |t| == 1 then None
    else if t[1] == '"' || t[1] == '\\' || t[1] == '/' then Some((t[1], 2))
    else if t[1] == 'b' then Some((8 as char, 2))
    else if t[1] == 'f' then Some((12 as char, 2))
    else if t[1] == 'n' then Some(('\n', 2))
    else if t[1] == 'r' then Some(('\r', 2))
    else if t[1] == 't' then Some(('\t', 2))
    else
      match UnitAt(t)
      case None => None
      case Some(u) =>
        if u < 0xD800 || u >= 0xE000 then Some((u as char, 6))
        else
          match UnitAt(t[6..])
          case Some(v) =>
            if u < 0xDC00 <= v < 0xE000 then Some(((0x1_0000 + (u - 0xD800) * 1024 + (v - 0xDC00)) as char, 12))
            else None
          case None => None
  }

  // The string up to the closing quotation mark, and what stands behind that.
  function StringIn(t: string): Option<(string, string)>
    decreases |t|
  {
    if t != [] && t[0] == '"' then Some(([], t[1..]))
    else
      match CharAt(t)
      case None => None
      case Some((c, n)) =>
        match StringIn(t[n..])
        case None => None
        case Some((s, rest)) => Some(([c] + s, rest))
  }

  lemma HexDigitIs(n: nat)
    requires n < 16
    ensures HexOf(HexDigit(n)) == Some(n)
  {
  }

  lemma UnitIs(n: nat, rest: string)
    requires n < 0x1_0000
    ensures UnitAt(UnicodeEscape(n) + rest) == Some(n)
  {
    HexDigitIs(n / 4096);
    HexDigitIs(n / 256 % 16);
    HexDigitIs(n / 16 % 16);
    HexDigitIs(n % 16);
    Digits16(n);
    hide HexDigit, HexOf;
  }

  lemma Digits16(n: nat)
    requires n < 0x1_0000
    ensures n == n / 4096 * 4096 + n / 256 % 16 * 256 + n / 16 % 16 * 16 + n % 16
  {
    var a, b := n / 16, n / 256;
    assert n == 16 * a + n % 16;
    assert a == 16 * (a / 16) + a % 16 && a / 16 == b;
    assert b == 16 * (b / 16) + b % 16 && b / 16 == n / 4096;
  }

  predicate IsShort(c: char) {
    || c == '"' || c == '\\' || c == '\n' || c == '\r' || c == '\t' || c as int == 8 || c as int == 12
    || ' ' <= c <= '~'
  }

  lemma ShortReadsBack(c: char, rest: string)
    requires IsShort(c)
    ensures CharAt(JsonChar(c) + rest) == Some((c, |JsonChar(c)|))
  {
    hide UnicodeEscape, UnitAt;
  }

  lemma UnitReadsBack(c: char, rest: string)
    requires !IsShort(c) && c as int < 0x1_0000
    ensures CharAt(JsonChar(c) + rest) == Some((c, |JsonChar(c)|))
  {
    UnitIs(c as int, rest);
    EscapeStarts(c as int);
    hide UnicodeEscape, UnitAt;
  }

  lemma EscapeStarts(n: nat)
    requires n < 0x1_0000
    ensures UnicodeEscape(n)[0] == '\\' && UnicodeEscape(n)[1] == 'u'
  {
  }

  lemma PairIs(u: nat, w: nat, rest: string)
    requires 0xD800 <= u < 0xDC00 <= w < 0xE000
    ensures CharAt(UnicodeEscape(u) + UnicodeEscape(w) + rest)
            == Some(((0x1_0000 + (u - 0xD800) * 1024 + (w - 0xDC00)) as char, 12))
  {
    var high, low := UnicodeEscape(u), UnicodeEscape(w);
    UnitIs(u, low + rest);
    UnitIs(w, rest);
    EscapeStarts(u);
    hide UnicodeEscape, UnitAt;
    assert high + low + rest == high + (low + rest);
    assert (high + (low + rest))[6..] == low + rest;
  }

  lemma PairReadsBack(c: char, rest: string)
    requires c as int >= 0x1_0000
    ensures CharAt(JsonChar(c) + rest) == Some((c, |JsonChar(c)|))
  {
    var v := c as int - 0x1_0000;
    Halves(v);
    var u, w := 0xD800 + v / 1024, 0xDC00 + v % 1024;
    PairText(c);
    hide UnicodeEscape, CharAt, JsonChar;
    assert 0x1_0000 + (u - 0xD800) * 1024 + (w - 0xDC00) == c as int;
    PairIs(u, w, rest);
  }

  lemma PairText(c: char)
    requires c as int >= 0x1_0000
    ensures var v := c as int - 0x1_0000;
            JsonChar(c) == UnicodeEscape(0xD800 + v / 1024) + UnicodeEscape(0xDC00 + v % 1024)
  {
    hide UnicodeEscape;
  }

  lemma Halves(v: nat)
    requires v < 0x10_0000
    ensures 0 <= v / 1024 < 1024 && 0 <= v % 1024 < 1024 && v == v / 1024 * 1024 + v % 1024
  {
  }

  lemma CharReadsBack(c: char, rest: string)
    ensures CharAt(JsonChar(c) + rest) == Some((c, |JsonChar(c)|))
  {
    hide JsonChar, CharAt;
    if IsShort(c) {
      ShortReadsBack(c, rest);
    } else if c as int < 0x1_0000 {
      UnitReadsBack(c, rest);
    } else {
      PairReadsBack(c, rest);
    }
  }

  lemma OneMore(s: string, rest: string)
    requires s != []
    requires var t := JsonChars(s[1..]) + "\"" + rest;
             && StringIn(t) == Some((s[1..], rest)) && CharAt(JsonChar(s[0]) + t) == Some((s[0], |JsonChar(s[0])|))
    ensures StringIn(JsonChars(s) + "\"" + rest) == Some((s, rest))
  {
    hide JsonChar, CharAt;
    var t := JsonChars(s[1..]) + "\"" + rest;
    assert JsonChars(s) + "\"" + rest == JsonChar(s[0]) + t;
    hide JsonChars;
    assert (JsonChar(s[0]) + t)[|JsonChar(s[0])|..] == t;
    assert [s[0]] + s[1..] == s;
  }

  // Every string is read back from its JSON text.
  lemma {:induction false} StringReadsBack(s: string, rest: string)
    ensures StringIn(JsonChars(s) + "\"" + rest) == Some((s, rest))
  {
    if s == [] {
      assert JsonChars(s) + "\"" + rest == "\"" + rest;
    } else {
      var tail := JsonChars(s[1..]) + "\"" + rest;
      StringReadsBack(s[1..], rest);
      CharReadsBack(s[0], tail);
      hide JsonChar, CharAt;
      hide JsonChars, StringIn;
      OneMore(s, rest);
    }
  }

  // ---- The members of an object ----

  // Names and texts, in the form of an object.
  function ObjectOf(members: seq<(string, string)>): string {
    "{" + Joined(members) + "}"
  }

  function Joined(members: seq<(string, string)>): string {
    if members == [] then []
    else "\"" + members[0].0 + "\":" + members[0].1 + if |members| == 1 then [] else "," + Joined(members[1..])
  }

  function Member(texts: map<Key, string>, k: Key): seq<(string, string)> {
    if k in texts then [(KeyName(k), texts[k])] else []
  }

  function Present(texts: map<Key, string>, keys: seq<Key>): seq<(string, string)> {
    if keys == [] then [] else Member(texts, keys[0]) + Present(texts, keys[1..])
  }

  lemma {:induction false} MembersAreJoined(texts: map<Key, string>, keys: seq<Key>, first: bool)
    ensures var parts := Present(texts, keys);
            Members(texts, keys, first) == (if first || parts == [] then [] else ",") + Joined(parts)
  {
    hide KeyName;
    if keys != [] {
      if keys[0] in texts {
        MembersAreJoined(texts, keys[1..], false);
        PresentFirst(texts, keys);
        hide Present, Members, Joined, Member;
        MembersUnfold(texts, keys, first);
      } else {
        MembersAreJoined(texts, keys[1..], first);
        assert Present(texts, keys) == Present(texts, keys[1..]);
      }
    }
  }

  lemma PresentFirst(texts: map<Key, string>, keys: seq<Key>)
    requires keys != [] && keys[0] in texts
    ensures var parts, rest := Present(texts, keys), Present(texts, keys[1..]);
            parts != [] && Joined(parts)
            == "\"" + KeyName(keys[0]) + "\":" + texts[keys[0]] + if rest == [] then [] else "," + Joined(rest)
  {
    hide KeyName;
    var parts, rest := Present(texts, keys), Present(texts, keys[1..]);
    assert parts == [(KeyName(keys[0]), texts[keys[0]])] + rest;
    assert parts[1..] == rest;
  }

  lemma MembersUnfold(texts: map<Key, string>, keys: seq<Key>, first: bool)
    requires keys != [] && keys[0] in texts
    ensures Members(texts, keys, first)
            == (if first then [] else ",")
               + ("\"" + KeyName(keys[0]) + "\":" + texts[keys[0]] + Members(texts, keys[1..], false))
  {
    hide KeyName;
  }

  // From key `i` on.
  function PresentFrom(texts: map<Key, string>, i: nat): seq<(string, string)>
    requires i <= |KEYS|
    decreases |KEYS| - i
  {
    if i == |KEYS| then [] else Member(texts, KEYS[i]) + PresentFrom(texts, i + 1)
  }

  lemma {:induction false} PresentIsFrom(texts: map<Key, string>, i: nat)
    requires i <= |KEYS|
    ensures Present(texts, KEYS[i..]) == PresentFrom(texts, i)
    decreases |KEYS| - i
  {
    hide Present, PresentFrom, Member;
    if i < |KEYS| {
      PresentIsFrom(texts, i + 1);
      PresentStep(texts, KEYS, i);
      FromStep(texts, i);
    } else {
      assert KEYS[i..] == [];
      Nothing(texts);
    }
  }

  lemma FromStep(texts: map<Key, string>, i: nat)
    requires i < |KEYS|
    ensures PresentFrom(texts, i) == Member(texts, KEYS[i]) + PresentFrom(texts, i + 1)
  {
    hide Member;
  }

  lemma Nothing(texts: map<Key, string>)
    ensures PresentFrom(texts, |KEYS|) == [] == Present(texts, [])
  {
  }

  lemma PresentStep(texts: map<Key, string>, keys: seq<Key>, i: nat)
    requires i < |keys|
    ensures Present(texts, keys[i..]) == Member(texts, keys[i]) + Present(texts, keys[i + 1..])
  {
    hide Member;
    assert keys[i..][1..] == keys[i + 1..];
  }

  lemma There(texts: map<Key, string>, i: nat, k: Key)
    requires i < |KEYS| && KEYS[i] == k && k in texts
    ensures PresentFrom(texts, i) == [(KeyName(k), texts[k])] + PresentFrom(texts, i + 1)
  {
  }

  lemma NotThere(texts: map<Key, string>, i: nat, k: Key)
    requires i < |KEYS| && KEYS[i] == k && k !in texts
    ensures PresentFrom(texts, i) == PresentFrom(texts, i + 1)
  {
  }

  lemma ObjectTextIs(texts: map<Key, string>)
    ensures ObjectText(texts) == ObjectOf(PresentFrom(texts, 0))
  {
    hide Members, Joined, Present, PresentFrom;
    PresentIsFrom(texts, 0);
    assert KEYS[0..] == KEYS;
    MembersAreJoined(texts, KEYS, true);
  }

  lemma KeyOrder()
    ensures |KEYS| == 15
    ensures KEYS[0] == AuditEvent && KEYS[1] == Body && KEYS[2] == CreatedAt && KEYS[3] == ExpiresAt
    ensures KEYS[4] == IssueNumber && KEYS[5] == IssueUrlKey && KEYS[6] == OperationKey && KEYS[7] == ProjectId
    ensures KEYS[8] == RecoveryAuditPending && KEYS[9] == RequestId && KEYS[10] == StageKey && KEYS[11] == StateKey
    ensures KEYS[12] == StatusKey && KEYS[13] == Timestamp && KEYS[14] == Title
  {
  }

  lemma EventTail(texts: map<Key, string>)
    requires texts.Keys == MARKER
    ensures PresentFrom(texts, 8)
            == [("request_id", texts[RequestId]), ("stage", texts[StageKey]), ("status", texts[StatusKey]),
                ("timestamp", texts[Timestamp])]
  {
    KeyOrder();
    hide PresentFrom;
    NotThere(texts, 8, RecoveryAuditPending);
    There(texts, 9, RequestId);
    There(texts, 10, StageKey);
    NotThere(texts, 11, StateKey);
    There(texts, 12, StatusKey);
    There(texts, 13, Timestamp);
    NotThere(texts, 14, Title);
    Behind(texts);
  }

  lemma EventMembers(texts: map<Key, string>)
    requires texts.Keys == MARKER
    ensures PresentFrom(texts, 0)
            == [("operation", texts[OperationKey]), ("project_id", texts[ProjectId]), ("request_id", texts[RequestId]),
                ("stage", texts[StageKey]), ("status", texts[StatusKey]), ("timestamp", texts[Timestamp])]
  {
    KeyOrder();
    hide PresentFrom;
    NotThere(texts, 0, AuditEvent);
    NotThere(texts, 1, Body);
    NotThere(texts, 2, CreatedAt);
    NotThere(texts, 3, ExpiresAt);
    NotThere(texts, 4, IssueNumber);
    NotThere(texts, 5, IssueUrlKey);
    There(texts, 6, OperationKey);
    There(texts, 7, ProjectId);
    EventTail(texts);
  }

  lemma Behind(texts: map<Key, string>)
    ensures PresentFrom(texts, 15) == []
  {
  }

  // ---- The text of events and records ----

  lemma EventTextIs(e: Event)
    ensures ValueText(Object(EventPayload(e)))
            == ObjectOf([("operation", JsonString(match e.operation
                                                  case Intake => "intake"
                                                  case Preview => "preview"
                                                  case Approve => "approve"
                                                  case Reject => "reject"
                                                  case Expire => "expire"
                                                  case ResolveCreated => "resolve-created"
                                                  case ResolveNotCreated => "resolve-not-created"
                                                  case Recover => "recover")),
                         ("project_id", JsonString(e.project)), ("request_id", JsonString(e.request)),
                         ("stage", JsonString(match e.stage
                                              case AtIntake => "intake"
                                              case AtValidation => "validation"
                                              case AtBinding => "binding"
                                              case AtToken => "token"
                                              case AtInventory => "inventory"
                                              case AtSend => "send"
                                              case AtResponse => "response"
                                              case AtCleanup => "cleanup"
                                              case AtReconcile => "reconcile")),
                         ("status", JsonString(match e.status
                                               case Reached(Pending) => "pending"
                                               case Reached(Sending) => "sending"
                                               case Reached(Created) => "created"
                                               case Reached(Rejected) => "rejected"
                                               case Reached(Expired) => "expired"
                                               case Reached(Unknown) => "unknown"
                                               case Denied => "denied"
                                               case Errored => "error")),
                         ("timestamp", Decimal(e.timestamp))])
  {
    var fields := EventPayload(e);
    hide JsonString, Decimal, PresentFrom, ObjectOf, ObjectText, EventPayload;
    EventFields(e);
    var texts := map k | k in fields :: ScalarText(fields[k]);
    ObjectTextIs(texts);
    EventMembers(texts);
    hide ScalarText, StateName, KeyName;
  }

  lemma EventFields(e: Event)
    ensures var fields := EventPayload(e);
            && fields.Keys == MARKER
            && ScalarText(fields[OperationKey]) == JsonString(OperationName(e.operation))
            && ScalarText(fields[ProjectId]) == JsonString(e.project)
            && ScalarText(fields[RequestId]) == JsonString(e.request)
            && ScalarText(fields[StageKey]) == JsonString(StageName(e.stage))
            && ScalarText(fields[StatusKey]) == JsonString(StatusName(e.status))
            && ScalarText(fields[Timestamp]) == Decimal(e.timestamp)
  {
    hide JsonString, Decimal, OperationName, StageName, StatusName;
  }

  // A member that may be missing.
  function Optional(name: string, text: Option<string>): seq<(string, string)> {
    if text.Some? then [(name, text.value)] else []
  }

  lemma ThereOrNot(texts: map<Key, string>, i: nat, k: Key, text: Option<string>)
    requires i < |KEYS| && KEYS[i] == k
    requires k in texts <==> text.Some?
    requires text.Some? ==> text.value == texts[k]
    ensures PresentFrom(texts, i) == Optional(KeyName(k), text) + PresentFrom(texts, i + 1)
  {
  }

  function TextAt(texts: map<Key, string>, k: Key): Option<string> {
    if k in texts then Some(texts[k]) else None
  }

  predicate IsRecord(texts: map<Key, string>) {
    && COMMON <= texts.Keys
    && texts.Keys <= COMMON + {AuditEvent, Body, IssueNumber, IssueUrlKey, RecoveryAuditPending, Title}
  }

  lemma RecordTail(texts: map<Key, string>)
    requires IsRecord(texts)
    ensures PresentFrom(texts, 8)
            == Optional("recovery_audit_pending", TextAt(texts, RecoveryAuditPending))
               + ([("request_id", texts[RequestId]), ("state", texts[StateKey])]
                  + Optional("title", TextAt(texts, Title)))
  {
    KeyOrder();
    hide PresentFrom, Optional;
    ThereOrNot(texts, 8, RecoveryAuditPending, TextAt(texts, RecoveryAuditPending));
    There(texts, 9, RequestId);
    NotThere(texts, 10, StageKey);
    There(texts, 11, StateKey);
    RecordEnd(texts);
  }

  lemma RecordEnd(texts: map<Key, string>)
    requires IsRecord(texts)
    ensures PresentFrom(texts, 12) == Optional("title", TextAt(texts, Title))
  {
    KeyOrder();
    hide PresentFrom, Optional;
    NotThere(texts, 12, StatusKey);
    NotThere(texts, 13, Timestamp);
    ThereOrNot(texts, 14, Title, TextAt(texts, Title));
    Behind(texts);
  }

  lemma RecordMiddle(texts: map<Key, string>)
    requires IsRecord(texts)
    ensures PresentFrom(texts, 4)
            == Optional("issue_number", TextAt(texts, IssueNumber))
               + (Optional("issue_url", TextAt(texts, IssueUrlKey))
                  + ([("project_id", texts[ProjectId])] + PresentFrom(texts, 8)))
  {
    KeyOrder();
    hide PresentFrom, Optional;
    ThereOrNot(texts, 4, IssueNumber, TextAt(texts, IssueNumber));
    ThereOrNot(texts, 5, IssueUrlKey, TextAt(texts, IssueUrlKey));
    NotThere(texts, 6, OperationKey);
    There(texts, 7, ProjectId);
  }

  lemma RecordHead(texts: map<Key, string>)
    requires IsRecord(texts)
    ensures PresentFrom(texts, 0)
            == Optional("audit_event", TextAt(texts, AuditEvent))
               + (Optional("body", TextAt(texts, Body))
                  + ([("created_at", texts[CreatedAt]), ("expires_at", texts[ExpiresAt])] + PresentFrom(texts, 4)))
  {
    KeyOrder();
    hide PresentFrom, Optional;
    ThereOrNot(texts, 0, AuditEvent, TextAt(texts, AuditEvent));
    ThereOrNot(texts, 1, Body, TextAt(texts, Body));
    There(texts, 2, CreatedAt);
    There(texts, 3, ExpiresAt);
  }

  lemma RecordFields(r: Request)
    requires ValidRequest(r)
    ensures var m := Payload(r);
            && COMMON <= m.Keys
            && m.Keys <= COMMON + {AuditEvent, Body, IssueNumber, IssueUrlKey, RecoveryAuditPending, Title}
            && ValueText(m[CreatedAt]) == Decimal(r.createdAt) && ValueText(m[ExpiresAt]) == Decimal(r.expiresAt)
            && ValueText(m[ProjectId]) == JsonString(r.project) && ValueText(m[RequestId]) == JsonString(r.id)
            && ValueText(m[StateKey]) == JsonString(StateName(r.state))
            && (Body in m <==> r.issue.Some?) && (Title in m <==> r.issue.Some?)
            && (r.issue.Some? ==> ValueText(m[Body]) == JsonString(r.issue.value.body))
            && (r.issue.Some? ==> ValueText(m[Title]) == JsonString(r.issue.value.title))
            && (IssueNumber in m <==> r.number.Some?)
            && (r.number.Some? ==> ValueText(m[IssueNumber]) == Decimal(r.number.value))
            && (IssueUrlKey in m <==> r.url.Some?)
            && (r.url.Some? ==> ValueText(m[IssueUrlKey]) == JsonString(r.url.value))
            && (RecoveryAuditPending in m <==> r.recoveryAuditPending)
            && (r.recoveryAuditPending ==> ValueText(m[RecoveryAuditPending]) == "true")
            && (AuditEvent in m <==> r.auditEvent.Some?)
            && (r.auditEvent.Some? ==> m[AuditEvent] == Object(EventPayload(r.auditEvent.value)))
  {
    PayloadFields(r);
    WhichFields(r);
    var m := Payload(r);
    TextField(m, ProjectId);
    TextField(m, RequestId);
    TextField(m, StateKey);
    TextField(m, Body);
    TextField(m, Title);
    TextField(m, IssueUrlKey);
    NumberField(m, CreatedAt);
    NumberField(m, ExpiresAt);
    NumberField(m, IssueNumber);
    MarkerField(r);
    hide JsonString, Decimal, StateName, ValidRequest, Payload, AsText, AsNat, ObjectText;
  }

  lemma WhichFields(r: Request)
    requires ValidRequest(r)
    ensures var keys := Payload(r).Keys;
            && COMMON <= keys
            && keys <= COMMON + {AuditEvent, Body, IssueNumber, IssueUrlKey, RecoveryAuditPending, Title}
            && (Body in keys <==> r.issue.Some?) && (Title in keys <==> r.issue.Some?)
            && (IssueNumber in keys <==> r.number.Some?) && (IssueUrlKey in keys <==> r.url.Some?)
            && (RecoveryAuditPending in keys <==> r.recoveryAuditPending)
            && (AuditEvent in keys <==> r.auditEvent.Some?)
  {
    PayloadKeys(r);
    AllowedKeys(r.state, r.auditEvent, r.recoveryAuditPending);
    hide Payload, Allowance, IsSlug, IsRequestId, ValidUrl, ValidIssue;
  }

  lemma AllowedKeys(state: State, marker: Option<Event>, recovery: bool)
    ensures var keys := Allowance(state, marker) + if recovery then {RecoveryAuditPending} else {};
            && COMMON <= keys
            && keys <= COMMON + {AuditEvent, Body, IssueNumber, IssueUrlKey, RecoveryAuditPending, Title}
            && (Body in keys <==> HasContent(state)) && (Title in keys <==> HasContent(state))
            && (IssueNumber in keys <==> state.Created?) && (IssueUrlKey in keys <==> state.Created?)
            && (RecoveryAuditPending in keys <==> recovery) && (AuditEvent in keys <==> marker.Some?)
  {
  }

  lemma TextField(m: map<Key, Json>, k: Key)
    ensures AsText(m, k).Some? ==> ValueText(m[k]) == JsonString(AsText(m, k).value)
  {
  }

  lemma NumberField(m: map<Key, Json>, k: Key)
    ensures AsNat(m, k).Some? ==> ValueText(m[k]) == Decimal(AsNat(m, k).value)
  {
  }

  lemma MarkerField(r: Request)
    ensures r.auditEvent.Some? ==>
              AuditEvent in Payload(r) && Payload(r)[AuditEvent] == Object(EventPayload(r.auditEvent.value))
  {
    hide EventPayload, CommonPayload;
  }

  // The text of a record: these members in this order, and a line feed.
  lemma RecordTextIs(r: Request)
    requires ValidRequest(r)
    ensures RecordText(Payload(r))
            == ObjectOf(
                 Optional("audit_event", if r.auditEvent.None? then None
                                         else Some(ValueText(Object(EventPayload(r.auditEvent.value)))))
                 + (Optional("body", if r.issue.None? then None else Some(JsonString(r.issue.value.body)))
                    + ([("created_at", Decimal(r.createdAt)), ("expires_at", Decimal(r.expiresAt))]
                       + (Optional("issue_number", if r.number.None? then None else Some(Decimal(r.number.value)))
                          + (Optional("issue_url", if r.url.None? then None else Some(JsonString(r.url.value)))
                             + ([("project_id", JsonString(r.project))]
                                + (Optional("recovery_audit_pending",
                                            if r.recoveryAuditPending then Some("true") else None)
                                   + ([("request_id", JsonString(r.id)),
                                       ("state", JsonString(match r.state
                                                            case Pending => "pending"
                                                            case Sending => "sending"
                                                            case Created => "created"
                                                            case Rejected => "rejected"
                                                            case Expired => "expired"
                                                            case Unknown => "unknown"))]
                                      + Optional("title", if r.issue.None? then None
                                                          else Some(JsonString(r.issue.value.title)))))))))))
               + "\n"
  {
    var m := Payload(r);
    hide JsonString, Decimal, PresentFrom, ObjectOf, ObjectText, EventPayload, Payload, ValueText, Optional;
    RecordFields(r);
    var texts := map k | k in m :: ValueText(m[k]);
    ObjectTextIs(texts);
    RecordHead(texts);
    RecordMiddle(texts);
    RecordTail(texts);
  }
}
