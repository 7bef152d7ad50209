/**
  How the one external effect, creating an Issue on GitHub, can end.  What matters
  to the caller is whether the body of the request may have left this host
  (src/agent_container/family_issue_create.py:45-76, 503-554).
 */
module IssueSend {
  import opened PendingRecord

  // An exception as the classifier sees it: one of the two domain errors, with
  // its stage and whether it carries no cause or context, or anything else.
  datatype Failure =
    | NotStarted(stage: Stage, clean: bool)
    | OutcomeUnknown(stage: Stage, clean: bool)
    | Other

  // What `FamilyIssueCreator.create` can do to its caller.
  datatype SendResult =
    | SendNotStarted(stage: Stage)
    | SendOutcomeUnknown(stage: Stage)
    | SendFailed
    | SendReturned(number: int, url: string)

  // Which results are possible once it is known whether transmission of the
  // body began: the error that promises "not started" is only raised when it
  // did not, and a result is only returned when it did.
  predicate MayResult(begun: bool, r: SendResult) {
    match r
    case SendNotStarted(stage) => !begun && (stage.AtToken? || stage.AtSend?)
    case SendOutcomeUnknown(stage) => stage.AtSend? || stage.AtResponse?
    case SendFailed => !begun
    case SendReturned(_, _) => begun
  }
}
