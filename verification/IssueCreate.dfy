/**
  Creating an Issue on GitHub, and the POST in it
  (src/agent_container/family_issue_create.py:293-366, 400-422, 503-554).
 */
module IssueCreate {
  import opened Wrappers
  import opened PendingRecord
  import opened AuditTrail
  import opened IssueSend
  import opened PendingStore
  import Utf8

  // ---- The remote end ----

  // A body that began to leave this host, and the record and the log at that moment.
  datatype Posting = Posting(issue: Issue, slug: string, record: Request, log: seq<Event>)

  // The record is durably SENDING, with nothing left to audit, and the last thing
  // the log tells of it is that.
  predicate SendingDurably(records: map<string, Request>, audit: seq<Event>, id: string) {
    && id in records && records[id].state.Sending?
    && records[id].auditEvent.None? && !records[id].recoveryAuditPending
    && var told := Trail(audit, id); told != [] && IsSend(told[|told| - 1])
  }

  class Remote {
    var posts: seq<Posting>

    constructor ()
      ensures posts == []
    {
      posts := [];
    }

    // `connection.send(body)`: may only be called in a store that says so, with the
    // content the record holds.
    method BeginBody(store: Store, id: string, issue: Issue, slug: string)
      requires SendingDurably(store.records, store.audit, id) && store.records[id].issue == Some(issue)
      modifies this
      ensures posts == old(posts) + [Posting(issue, slug, store.records[id], store.audit)]
    {
      posts := posts + [Posting(issue, slug, store.records[id], store.audit)];
    }
  }

  // ---- One POST ----

  datatype Reply = Reply(status: int, number: int, url: string, wellFormed: bool)

  datatype TransportResult = Response(reply: Reply) | Raised(failure: Failure)

  predicate IsClean(f: Failure, expected: Failure) {
    f == expected
  }

  // The steps of one POST, any of which may raise any exception; the check of
  // the request itself comes before all of them.
  datatype Connection = Connection(requestRefused: bool, connectFails: Option<Failure>, sendFails: Option<Failure>,
                                   responseFails: Option<Failure>, reply: Reply)

  // Whether the body is begun once the transport is called.
  predicate Begins(connection: Connection) {
    !connection.requestRefused && connection.connectFails.None?
  }

  // `family_issue_transport`.  `begun` is its flag, set immediately before the body
  // is handed over.
  method PostTransport(connection: Connection, remote: Remote, store: Store, id: string, issue: Issue, slug: string)
    returns (r: TransportResult, begun: bool)
    requires SendingDurably(store.records, store.audit, id) && store.records[id].issue == Some(issue)
    modifies remote
    ensures remote.posts == old(remote.posts)
            + if begun then [Posting(issue, slug, store.records[id], store.audit)] else []
    ensures begun <==> Begins(connection)
    ensures r.Response? <==> begun && connection.sendFails.None? && connection.responseFails.None?
    ensures r.Response? ==> r.reply == connection.reply
    ensures !begun ==> r == Raised(if connection.requestRefused then Other else NotStarted(AtSend, true))
    ensures begun && connection.sendFails.Some? ==> r == Raised(OutcomeUnknown(AtSend, true))
    ensures begun && connection.sendFails.None? && connection.responseFails.Some? ==>
              r == Raised(OutcomeUnknown(AtResponse, true))
  {
    begun := false;
    if connection.requestRefused {
      return Raised(Other), false;
    }
    var responsePhase := false;
    var failure: Option<Failure> := connection.connectFails;
    if failure.None? {
      begun := true;
      remote.BeginBody(store, id, issue, slug);
      failure := connection.sendFails;
      if failure.None? {
        responsePhase := true;
        failure := connection.responseFails;
      }
    }
    if failure.None? {
      r := Response(connection.reply);
    } else if !begun {
      if IsClean(failure.value, NotStarted(AtSend, true)) {
        r := Raised(failure.value);
      } else {
        r := Raised(NotStarted(AtSend, true));
      }
    } else {
      var stage := if responsePhase then AtResponse else AtSend;
      if IsClean(failure.value, OutcomeUnknown(stage, true)) {
        r := Raised(failure.value);
      } else {
        r := Raised(OutcomeUnknown(stage, true));
      }
    }
  }

  predicate AcceptableReply(slug: string, reply: Reply) {
    && reply.wellFormed && reply.status == 201
    && 1 <= reply.number <= MAX_ISSUE_NUMBER
    && reply.url == "https://github.com/" + slug + "/issues/" + DecimalOf(reply.number)
  }

  function DecimalOf(n: int): string {
    if n < 0 then "-" else Utf8.Decimal(n)
  }

  // `FamilyIssueCreator.create`.  `validInput` and `tokenOk` are the checks that run
  // before the transport.
  method Create(slug: string, validInput: bool, tokenOk: bool, connection: Connection,
                remote: Remote, store: Store, id: string, issue: Issue)
    returns (r: SendResult, begun: bool)
    requires SendingDurably(store.records, store.audit, id) && store.records[id].issue == Some(issue)
    modifies remote
    ensures remote.posts == old(remote.posts)
            + if begun then [Posting(issue, slug, store.records[id], store.audit)] else []
    ensures MayResult(begun, r)
    ensures r.SendReturned? <==>
              begun && connection.sendFails.None? && connection.responseFails.None?
                && AcceptableReply(slug, connection.reply)
    ensures r.SendReturned? ==> r == SendReturned(connection.reply.number, connection.reply.url)
    ensures begun <==> validInput && tokenOk && Begins(connection)
    ensures r.SendNotStarted? <==> validInput && !begun && (tokenOk ==> !connection.requestRefused)
    ensures r.SendNotStarted? ==> r.stage == if tokenOk then AtSend else AtToken
    ensures r.SendFailed? <==> !validInput
    ensures r.SendOutcomeUnknown? ==> r.stage == if begun && connection.sendFails.None? then AtResponse else AtSend
  {
    begun := false;
    if !validInput {
      return SendFailed, false;
    }
    if !tokenOk {
      return SendNotStarted(AtToken), false;
    }
    var t;
    t, begun := PostTransport(connection, remote, store, id, issue, slug);
    match t {
      case Raised(f) =>
        if IsClean(f, NotStarted(AtSend, true)) {
          r := SendNotStarted(AtSend);
        } else if IsClean(f, OutcomeUnknown(AtSend, true)) || IsClean(f, OutcomeUnknown(AtResponse, true)) {
          r := SendOutcomeUnknown(f.stage);
        } else {
          r := SendOutcomeUnknown(AtSend);
        }
      case Response(reply) =>
        if AcceptableReply(slug, reply) {
          r := SendReturned(reply.number, reply.url);
        } else {
          r := SendOutcomeUnknown(AtResponse);
        }
    }
  }
}
