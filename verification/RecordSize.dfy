/**
  The text of a record and its size (src/agent_container/family_pending.py:37-38,
  251-266, 377-387, 478-493).
 */
module RecordSize {
  import opened Wrappers
  import opened Utf8
  import opened PendingRecord
  import opened MarkdownLiteral
  import opened IssueRendering
  import opened IssueSize
  import opened RecordCodec

  const MAX_RECORD_BYTES := 128 * 1024
  const TIMESTAMP_LIMIT := 0x8000_0000_0000_0000

  // ---- The text ----

  function HexDigit(n: nat): char
    requires n < 16
  {
    if n < 10 then '0' + n as char else 'a' + (n - 10) as char
  }

  function UnicodeEscape(n: nat): (s: string)
    requires n < 0x10000
    ensures |s| == 6
  {
    ['\\', 'u', HexDigit(n / 4096), HexDigit(n / 256 % 16), HexDigit(n / 16 % 16), HexDigit(n % 16)]
  }

  // A character of an ASCII-only JSON string.
  function JsonChar(c: char): string {
    if c == '"' || c == '\\' then ['\\', c]
    else if c == '\n' then "\\n"
    else if c == '\r' then "\\r"
    else if c == '\t' then "\\t"
    else if c as int == 8 then "\\b"
    else if c as int == 12 then "\\f"
    else if ' ' <= c <= '~' then [c]
    else if c as int < 0x10000 then UnicodeEscape(c as int)
    else
      var v := c as int - 0x10000;
      UnicodeEscape(0xD800 + v / 1024) + UnicodeEscape(0xDC00 + v % 1024)
  }

  function JsonChars(s: string): string {
    if s == [] then [] else JsonChar(s[0]) + JsonChars(s[1..])
  }

  function JsonString(s: string): string {
    "\"" + JsonChars(s) + "\""
  }

  function ScalarText(v: Scalar): string {
    match v
    case Null => "null"
    case Bool(b) => if b then "true" else "false"
    case Int(n) => if n < 0 then "-" + Decimal(-n) else Decimal(n)
    case Text(s) => JsonString(s)
    case OtherValue => []
  }

  function KeyName(k: Key): string {
    match k
    case AuditEvent => "audit_event"
    case Body => "body"
    case CreatedAt => "created_at"
    case ExpiresAt => "expires_at"
    case IssueNumber => "issue_number"
    case IssueUrlKey => "issue_url"
    case OperationKey => "operation"
    case ProjectId => "project_id"
    case RecoveryAuditPending => "recovery_audit_pending"
    case RequestId => "request_id"
    case StageKey => "stage"
    case StateKey => "state"
    case StatusKey => "status"
    case Timestamp => "timestamp"
    case Title => "title"
    case OtherKey(name) => name
  }

  // The record's keys in the order they are written.
  const KEYS := [AuditEvent, Body, CreatedAt, ExpiresAt, IssueNumber, IssueUrlKey, OperationKey, ProjectId,
                 RecoveryAuditPending, RequestId, StageKey, StateKey, StatusKey, Timestamp, Title]

  function Members(texts: map<Key, string>, keys: seq<Key>, first: bool): string {
    if keys == [] then []
    else if keys[0] !in texts then Members(texts, keys[1..], first)
    else
      (if first then "" else ",") + "\"" + KeyName(keys[0]) + "\":" + texts[keys[0]] + Members(texts, keys[1..], false)
  }

  function ObjectText(texts: map<Key, string>): string {
    "{" + Members(texts, KEYS, true) + "}"
  }

  function ValueText(v: Json): string {
    match v
    case Plain(s) => ScalarText(s)
    case Object(fields) => ObjectText(map k | k in fields :: ScalarText(fields[k]))
  }

  // `_encode_request`: one byte a character, as everything written is ASCII.
  function RecordText(m: map<Key, Json>): string {
    ObjectText(map k | k in m :: ValueText(m[k])) + "\n"
  }

  // ---- Sizes ----

  // Text without control characters but line feeds.
  predicate Printable(s: string) {
    forall c :: c in s ==> c == '\n' || !ForbiddenChar(c)
  }

  lemma JsonCharTriples(c: char)
    requires c == '\n' || !ForbiddenChar(c)
    ensures |JsonChar(c)| <= 3 * CharBytes(c)
  {
  }

  // JSON's escapes at most triple the UTF-8 size of such text.
  lemma {:induction false} JsonTriples(s: string)
    requires Printable(s)
    ensures |JsonChars(s)| <= 3 * Utf8Length(s)
  {
    hide JsonChar, CharBytes, ForbiddenChar;
    if s != [] {
      assert s[0] in s;
      JsonCharTriples(s[0]);
      assert forall c :: c in s[1..] ==> c in s;
      JsonTriples(s[1..]);
    }
  }

  // Names are written as they are.
  lemma {:induction false} PlainJson(s: string)
    requires forall i :: 0 <= i < |s| ==> ' ' <= s[i] <= '~' && s[i] != '"' && s[i] != '\\'
    ensures |JsonChars(s)| == |s|
  {
    if s != [] {
      PlainJson(s[1..]);
    }
  }

  function Power10(k: nat): nat {
    if k == 0 then 1 else 10 * Power10(k - 1)
  }

  lemma {:induction false} DecimalDigits(n: nat, k: nat)
    requires k > 0 && n < Power10(k)
    ensures |Decimal(n)| <= k
  {
    if n >= 10 {
      assert Power10(k) == 10 * Power10(k - 1);
      DecimalDigits(n / 10, k - 1);
    }
  }

  lemma TimestampDigits(n: nat)
    requires n < TIMESTAMP_LIMIT + TTL_SECONDS
    ensures |Decimal(n)| <= 19
  {
    assert Power10(4) == 10_000;
    assert Power10(8) == 10_000 * Power10(4) == 100_000_000;
    assert Power10(12) == 10_000 * Power10(8) == 1_000_000_000_000;
    assert Power10(16) == 10_000 * Power10(12) == 10_000_000_000_000_000;
    assert Power10(19) == 1_000 * Power10(16);
    DecimalDigits(n, 19);
  }

  // The longest text a field of a record or of its marker takes.
  function ValueLimit(k: Key): nat {
    match k
    case AuditEvent => 360
    case Body => 2 + 3 * CANONICAL_BYTES
    case CreatedAt => 19
    case ExpiresAt => 19
    case IssueNumber => 10
    case IssueUrlKey => 245
    case OperationKey => 21
    case ProjectId => 102
    case RecoveryAuditPending => 4
    case RequestId => 34
    case StageKey => 12
    case StateKey => 10
    case StatusKey => 10
    case Timestamp => 19
    case Title => 2 + 3 * TITLE_BYTES
    case OtherKey(_) => 0
  }

  const LONGEST_KEY := 22

  function Bound(present: set<Key>, keys: seq<Key>): nat {
    if keys == [] then 0
    else (if keys[0] in present then LONGEST_KEY + 4 + ValueLimit(keys[0]) else 0) + Bound(present, keys[1..])
  }

  predicate WithinLimits(texts: map<Key, string>) {
    forall k :: k in texts ==> |texts[k]| <= ValueLimit(k)
  }

  lemma {:induction false} MembersFit(texts: map<Key, string>, keys: seq<Key>, first: bool)
    requires WithinLimits(texts) && forall k :: k in keys ==> !k.OtherKey?
    ensures |Members(texts, keys, first)| <= Bound(texts.Keys, keys)
  {
    if keys != [] {
      assert keys[0] in keys && forall k :: k in keys[1..] ==> k in keys;
      KeyNameFits(keys[0]);
      hide KeyName, ValueLimit;
      MembersFit(texts, keys[1..], if keys[0] in texts then false else first);
    }
  }

  lemma KeyNameFits(k: Key)
    requires !k.OtherKey?
    ensures |KeyName(k)| <= LONGEST_KEY
  {
  }

  function BoundOf(present: set<Key>, k: Key): nat {
    if k in present then LONGEST_KEY + 4 + ValueLimit(k) else 0
  }

  lemma BoundStep(present: set<Key>, k: Key, rest: seq<Key>)
    ensures Bound(present, [k] + rest) == BoundOf(present, k) + Bound(present, rest)
  {
    hide ValueLimit;
    assert ([k] + rest)[1..] == rest;
  }

  lemma {:induction false} BoundConcat(present: set<Key>, a: seq<Key>, b: seq<Key>)
    ensures Bound(present, a + b) == Bound(present, a) + Bound(present, b)
  {
    hide ValueLimit;
    if a == [] {
      assert a + b == b;
    } else {
      assert (a + b)[1..] == a[1..] + b;
      BoundConcat(present, a[1..], b);
    }
  }

  lemma BoundOfThree(present: set<Key>, a: Key, b: Key, c: Key)
    ensures Bound(present, [a, b, c]) == BoundOf(present, a) + BoundOf(present, b) + BoundOf(present, c)
  {
    hide ValueLimit;
    assert [a, b, c] == [a] + ([b] + ([c] + []));
    BoundStep(present, c, []);
    BoundStep(present, b, [c] + []);
    BoundStep(present, a, [b] + ([c] + []));
  }

  lemma BoundOfKeys(present: set<Key>)
    ensures Bound(present, KEYS)
            == Bound(present, [AuditEvent, Body, CreatedAt]) + Bound(present, [ExpiresAt, IssueNumber, IssueUrlKey])
               + Bound(present, [OperationKey, ProjectId, RecoveryAuditPending])
                 + Bound(present, [RequestId, StageKey, StateKey])
               + Bound(present, [StatusKey, Timestamp, Title])
  {
    hide ValueLimit, Bound;
    var a, b, c := [AuditEvent, Body, CreatedAt], [ExpiresAt, IssueNumber, IssueUrlKey],
        [OperationKey, ProjectId, RecoveryAuditPending];
    var d, e := [RequestId, StageKey, StateKey], [StatusKey, Timestamp, Title];
    assert KEYS == a + b + c + d + e;
    BoundConcat(present, a + b + c + d, e);
    BoundConcat(present, a + b + c, d);
    BoundConcat(present, a + b, c);
    BoundConcat(present, a, b);
  }

  // Three keys take no more than their limits, and nothing where they are absent.
  lemma ThreeAtMost(present: set<Key>, a: Key, b: Key, c: Key)
    ensures var n := LONGEST_KEY + 4;
            Bound(present, [a, b, c]) <= 3 * n + ValueLimit(a) + ValueLimit(b) + ValueLimit(c)
    ensures a !in present && b !in present ==> Bound(present, [a, b, c]) == BoundOf(present, c)
    ensures a !in present && c !in present ==> Bound(present, [a, b, c]) == BoundOf(present, b)
    ensures c !in present ==> Bound(present, [a, b, c]) == BoundOf(present, a) + BoundOf(present, b)
  {
    hide Bound, ValueLimit;
    BoundOfThree(present, a, b, c);
  }

  lemma RecordBound(present: set<Key>)
    ensures Bound(present, KEYS) <= 101_100
  {
    hide Bound;
    BoundOfKeys(present);
    ThreeAtMost(present, AuditEvent, Body, CreatedAt);
    ThreeAtMost(present, ExpiresAt, IssueNumber, IssueUrlKey);
    ThreeAtMost(present, OperationKey, ProjectId, RecoveryAuditPending);
    ThreeAtMost(present, RequestId, StageKey, StateKey);
    ThreeAtMost(present, StatusKey, Timestamp, Title);
  }

  lemma MarkerBound()
    ensures Bound(MARKER, KEYS) <= 354
  {
    hide Bound;
    BoundOfKeys(MARKER);
    ThreeAtMost(MARKER, AuditEvent, Body, CreatedAt);
    ThreeAtMost(MARKER, ExpiresAt, IssueNumber, IssueUrlKey);
    ThreeAtMost(MARKER, OperationKey, ProjectId, RecoveryAuditPending);
    ThreeAtMost(MARKER, RequestId, StageKey, StateKey);
    ThreeAtMost(MARKER, StatusKey, Timestamp, Title);
    assert AuditEvent !in MARKER && Body !in MARKER && CreatedAt !in MARKER;
  }

  // ---- The fields of a record of an accepted draft ----

  // What its title and body are known to be.
  predicate Modest(issue: Issue) {
    && Printable(issue.title) && Utf8Length(issue.title) <= TITLE_BYTES
    && Printable(issue.body) && Utf8Length(issue.body) <= CANONICAL_BYTES
  }

  lemma SlugFits(s: string)
    requires IsSlug(s)
    ensures |JsonString(s)| <= 102
  {
    PlainJson(s);
  }

  lemma IdFits(s: string)
    requires IsRequestId(s)
    ensures |JsonString(s)| == 34
  {
    PlainJson(s);
  }

  lemma StateFits(s: State)
    ensures |JsonString(StateName(s))| <= 10
  {
    PlainJson(StateName(s));
  }

  lemma OperationFits(o: Operation)
    ensures |JsonString(OperationName(o))| <= 21
  {
    PlainJson(OperationName(o));
  }

  lemma StatusFits(s: Status)
    ensures |JsonString(StatusName(s))| <= 10
  {
    if s.Reached? {
      StateFits(s.state);
    } else {
      PlainJson(StatusName(s));
    }
  }

  lemma StageFits(g: Stage)
    ensures |JsonString(StageName(g))| <= 12
  {
    PlainJson(StageName(g));
  }

  lemma TextFits(s: string, n: nat)
    requires Printable(s) && Utf8Length(s) <= n
    ensures |JsonString(s)| <= 2 + 3 * n
  {
    JsonTriples(s);
  }

  lemma {:induction false} DecimalIsDigits(n: nat, i: nat)
    requires i < |Decimal(n)|
    ensures '0' <= Decimal(n)[i] <= '9'
    decreases n
  {
    if n >= 10 && i < |Decimal(n / 10)| {
      DecimalIsDigits(n / 10, i);
    }
  }

  lemma UrlFits(url: string, number: int)
    requires ValidUrl(url, number)
    ensures |JsonString(url)| <= 245 && 1 <= number && |Decimal(number)| <= 10
  {
    var owner, name :| IsSlug(owner) && IsSlug(name) && url == IssueUrl(owner, name, number);
    assert Power10(4) == 10_000 && Power10(8) == 10_000 * Power10(4) && Power10(10) == 100 * Power10(8);
    DecimalDigits(number, 10);
    forall i | 0 <= i < |Decimal(number)| ensures '0' <= Decimal(number)[i] <= '9' {
      DecimalIsDigits(number, i);
    }
    hide Decimal, Power10;
    PlainJson(url);
  }

  predicate EventModest(e: Event) {
    IsSlug(e.project) && IsRequestId(e.request) && e.timestamp < TIMESTAMP_LIMIT
  }

  function EventTexts(e: Event): map<Key, string> {
    map k | k in EventPayload(e) :: ScalarText(EventPayload(e)[k])
  }

  lemma EventFieldFits(e: Event, k: Key)
    requires EventModest(e) && k in EventPayload(e)
    ensures |ScalarText(EventPayload(e)[k])| <= ValueLimit(k)
  {
    SlugFits(e.project);
    IdFits(e.request);
    OperationFits(e.operation);
    StatusFits(e.status);
    StageFits(e.stage);
    TimestampDigits(e.timestamp);
    hide JsonString, IsSlug, IsRequestId, OperationName, StatusName, StageName, Decimal;
  }

  lemma EventFits(e: Event)
    requires EventModest(e)
    ensures |ValueText(Object(EventPayload(e)))| <= ValueLimit(AuditEvent)
  {
    hide ScalarText, EventModest, Members, Bound, KeyName, OperationName, StatusName, StageName;
    var texts := EventTexts(e);
    assert texts.Keys == MARKER;
    hide EventPayload;
    forall k | k in texts ensures |texts[k]| <= ValueLimit(k) {
      EventFieldFits(e, k);
    }
    MembersFit(texts, KEYS, true);
    MarkerBound();
  }

  function RecordTexts(r: Request): map<Key, string> {
    map k | k in Payload(r) :: ValueText(Payload(r)[k])
  }

  // Timestamps as a 64-bit clock gives them, and content from an accepted draft.
  ghost predicate RecordModest(r: Request) {
    && ValidRequest(r) && r.createdAt < TIMESTAMP_LIMIT
    && (r.auditEvent.Some? ==> r.auditEvent.value.timestamp < TIMESTAMP_LIMIT)
    && (r.issue.Some? ==> Modest(r.issue.value))
  }

  lemma CommonFits(r: Request, k: Key)
    requires RecordModest(r) && k in CommonPayload(r)
    ensures |ValueText(CommonPayload(r)[k])| <= ValueLimit(k)
  {
    SlugFits(r.project);
    IdFits(r.id);
    StateFits(r.state);
    TimestampDigits(r.createdAt);
    TimestampDigits(r.expiresAt);
    hide JsonString, IsSlug, IsRequestId, StateName, Decimal, ValidIssue, ValidUrl, Modest;
  }

  lemma OptionalFits(r: Request, k: Key)
    requires RecordModest(r) && k in OptionalPayload(r)
    ensures |ValueText(OptionalPayload(r)[k])| <= ValueLimit(k)
  {
    hide JsonString, IsSlug, IsRequestId, Decimal, ValidIssue, ValidUrl, ObjectText, EventPayload, Printable,
         Utf8Length;
    if r.issue.Some? {
      TextFits(r.issue.value.title, TITLE_BYTES);
      TextFits(r.issue.value.body, CANONICAL_BYTES);
    }
    if r.state.Created? {
      UrlFits(r.url.value, r.number.value);
    }
    if r.auditEvent.Some? {
      EventFits(r.auditEvent.value);
    }
    hide Modest, ValidRequest;
  }

  // Such a record can be written and read back: its text is within the limit of
  // the reader, and decodes to it.
  lemma RecordFits(r: Request)
    requires RecordModest(r)
    ensures |RecordText(Payload(r))| <= MAX_RECORD_BYTES && Decode(Payload(r)) == Ok(r)
  {
    hide ValidRequest, ValueText, ValueLimit, Modest, CommonPayload, OptionalPayload, Members, Bound, Decode;
    DecodeEncoded(r);
    var texts := RecordTexts(r);
    forall k | k in texts ensures |texts[k]| <= ValueLimit(k) {
      if k in OptionalPayload(r) {
        OptionalFits(r, k);
      } else {
        CommonFits(r, k);
      }
    }
    MembersFit(texts, KEYS, true);
    RecordBound(texts.Keys);
  }

  // ---- From the draft to the record ----

  lemma PrintableConcat(a: string, b: string)
    requires Printable(a) && Printable(b)
    ensures Printable(a + b)
  {
    hide ForbiddenChar;
  }

  lemma EscapeIsPrintable(value: string, inline: Inline, maximum: nat)
    requires TextOk(value, maximum)
    ensures Printable(Escape(value, inline(value)))
  {
    var positions := BlockPositions(value) + inline(value);
    hide EscapeFrom, BlockPositions;
    assert value[0..] == value;
    assert forall c :: c in value ==> !ForbiddenChar(c);
    forall c | c in Escape(value, inline(value)) ensures !ForbiddenChar(c) {
      EscapeAddsBackslashes(value, 0, positions, c);
    }
  }

  lemma {:induction false} BulletsArePrintable(criteria: seq<string>, inline: Inline)
    requires forall i :: 0 <= i < |criteria| ==> TextOk(criteria[i], CRITERION_BYTES)
    ensures Printable(Bullets(criteria, inline))
  {
    hide Escape, TextOk, Printable;
    if criteria != [] {
      EscapeIsPrintable(criteria[0], inline, CRITERION_BYTES);
      BulletsArePrintable(criteria[1..], inline);
      var text := Escape(criteria[0], inline(criteria[0]));
      LayoutIsPrintable();
      PrintableConcat("- ", text);
      PrintableConcat("- " + text, "\n");
      PrintableConcat("- " + text + "\n", Bullets(criteria[1..], inline));
    } else {
      LayoutIsPrintable();
    }
  }

  lemma LayoutIsPrintable()
    ensures Printable("") && Printable("- ") && Printable("\n") && Printable("\n\n")
    ensures Printable(SUMMARY) && Printable(CONTEXT) && Printable(CRITERIA)
  {
  }

  lemma SectionIsPrintable(heading: string, text: string)
    requires Printable(heading) && Printable(text)
    ensures Printable(Section(heading, text))
  {
    hide Printable;
    LayoutIsPrintable();
    PrintableConcat(heading, "\n\n");
    PrintableConcat(heading + "\n\n", text);
    PrintableConcat(heading + "\n\n" + text, "\n\n");
  }

  lemma RenderIsPrintable(d: Draft, inline: Inline)
    requires DraftOk(d)
    ensures Printable(Render(d, inline))
  {
    hide Printable, Escape, Section, Bullets, TextOk;
    var summary, context := Escape(d.summary, inline(d.summary)), Escape(d.context, inline(d.context));
    LayoutIsPrintable();
    EscapeIsPrintable(d.summary, inline, SUMMARY_BYTES);
    EscapeIsPrintable(d.context, inline, CONTEXT_BYTES);
    SectionIsPrintable(SUMMARY, summary);
    SectionIsPrintable(CONTEXT, context);
    BulletsArePrintable(d.criteria, inline);
    PrintableConcat(Section(SUMMARY, summary), Section(CONTEXT, context));
    PrintableConcat(Section(SUMMARY, summary) + Section(CONTEXT, context), CRITERIA);
    PrintableConcat(Section(SUMMARY, summary) + Section(CONTEXT, context) + CRITERIA, "\n\n");
    PrintableConcat(Section(SUMMARY, summary) + Section(CONTEXT, context) + CRITERIA + "\n\n",
      Bullets(d.criteria, inline));
  }

  lemma FooterIsPrintable(a: Author)
    requires IsSlug(a.repository)
    ensures Printable(Footer(a))
  {
    assert Printable(a.repository);
  }

  lemma CanonicalIsModest(d: Draft, author: Option<Author>, inline: Inline)
    requires Canonical(d, author, inline).Ok?
    ensures Modest(Canonical(d, author, inline).value)
  {
    hide Render, Footer, IsSlug, Utf8Length;
    CanonicalFits(d, author, inline);
    RenderIsPrintable(d, inline);
    if author.Some? {
      FooterIsPrintable(author.value);
      PrintableConcat(Render(d, inline), Footer(author.value));
    }
  }

  // Whatever becomes of a request made from an accepted draft, its record can be
  // read back: it never outgrows what the reader takes.
  lemma AcceptedDraftsCanBeStored(d: Draft, author: Option<Author>, inline: Inline, r: Request)
    requires Canonical(d, author, inline).Ok?
    requires ValidRequest(r) && (r.issue.Some? ==> r.issue.value == Canonical(d, author, inline).value)
    requires r.createdAt < TIMESTAMP_LIMIT && (r.auditEvent.Some? ==> r.auditEvent.value.timestamp < TIMESTAMP_LIMIT)
    ensures |RecordText(Payload(r))| <= MAX_RECORD_BYTES && Decode(Payload(r)) == Ok(r)
  {
    hide Modest, ValidRequest, Canonical, Decode, RecordText;
    CanonicalIsModest(d, author, inline);
    RecordFits(r);
  }
}
