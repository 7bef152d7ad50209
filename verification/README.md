# Agent container brokers, verified

A Dafny 4.11 model of the parts of the agent container that guard durable state and
wire traffic, with proofs of what they promise. `dafny verify dfyconfig.toml` checks all of it.

**Approval of family Issues.** `ApprovalProtocol` is the state machine of the
operator's approve, reject and resolve commands, of intake and of recovery: every
process is a program counter, every step is one durable write, one lock operation
or one boundary of the external POST, and any process may crash between any two
steps. `ApprovalInvariant` and `ApprovalSteps` prove an invariant of every step and
`ApprovalTheorems` what follows for every run: what the audit log tells, how many
POSTs can begin, who may touch a record that is being sent, which content is kept;
`CommandSteps` adds what the other commands store and in which order events can follow.
`PendingStore`, `IssueCreate` and `ApprovalCommand` hold the procedures under the lock in
imperative form, the sweep specified by the functions of `PendingRecovery`; `ApprovalRun` and
`RecoveryRun` show that approving and recovering are runs of the protocol, and that
recovery converges from every reachable state. `RecordReplacement` goes
below the atomic replacement, to names, inodes, bytes and syncs: a fixed world says which
operation fails and what an intruder does, and a trace of operations records it.

**Records and Issue texts.** `MarkdownLiteral` is the escaping for any choice of inline
positions, `InlinePatterns` the choice the program makes, `MarkdownBlocks` the blocks that
Markdown still sees in the result and `LiteralBlocks` exactly which texts have them;
`LineStarts` and `InlineMatches` say in positions what the program looks for and escapes.
`IssueRendering` is the canonical body with its inverse, `IssueSize`, `RecordCodec` and
`RecordSize` follow a draft through both encodings to the size of the record, and
`JsonText` gives the text of a record and reads its strings back. `IntakeSession`
decides who may submit a draft and that a run submits one.

**Egress.** `ReplayWindow` relates the bit mask of accepted sequence numbers to a set,
`TunnelLimits` the two coupled limits to the handlers that hold reservations, and
`RelayTunnel` is the relay loop over two byte streams.

**Git.** `PktLine`, `ReceivePackAdvertisement`, `ReceivePackGate` and `DeleteOnlyPush`
read sections, advertisements and commands; `ChunkStream` is the framing between
client and broker over streams that read and write in pieces; `UploadPack` and
`PushSession` compose them from Git's output to the forwarded bytes and back.
`CreateBatches`, `AdvertisementForm` and `WireForms` characterise, in bytes, the batches
the gate accepts, the advertisements and the requests that are read, and
`AdvertisementSize` says which advertisements come through.

**Runtime.** `BrokerRuntime` starts and stops the threads of a broker.

Ghost state of the protocol (`history`, `submitted`, `prompts`, `posts`) records what
happened and decides nothing. Names with `Run` speak of whole executions.

Where the code differs from what one would expect of it:

- The escaping covers the forms of a block that the code looks for at the start of a
  line, and Markdown has more. With less than four spaces before it, an escaped text is
  still a block quote exactly when no blank stands behind the `>`
  (`LiteralBlocks.LiteralQuotes`, with the text `>x`), an HTML block exactly when it starts
  with the beginning of one and no pattern for HTML or images matches there
  (`LiteralHtmlBlocks`, with `<!-- x`), and fenced code exactly when it starts with three
  tildes and no pattern closes that run (`LiteralFences`, with `~~~ x`); after the last two
  of these texts as a summary, the headings that follow are part of the block. With four
  spaces it is indented code (`LiteralIndentedCode`).
- A criterion that is two dashes becomes a thematic break, and no item of the list, and
  no other criterion does (`LiteralBreaks`, `DashesBreakTheList`).
- The patterns for links end the text of a link at its first closing bracket, and the first
  opening bracket of a text is escaped exactly when a link or reference of that form starts
  there (`InlinePatterns.FirstBracketEscaped`). `[a [b] c](d)` is written as it is and stays a
  link (`LiteralBlocks.NestedBracketsStayALink`).
- A receive-pack advertisement may have 4 MiB where it is fetched, but it is read exactly
  when it has at most 1,024 lines and a first line of at most 65,516 bytes
  (`AdvertisementSize.AdvertisementIsRead`): nothing can be pushed to a remote with 1,025
  branches (`LargeAdvertisementIsRefused`).

## Model

| member | source | states |
|---|---|---|
| `PendingRecord.ChangedIsValid` | src/agent_container/family_pending.py:1163-1176 | A transition of a valid record, before and after its marker is cleared, is a valid record again: content only in PENDING, SENDING and UNKNOWN, number and URL only in CREATED |
| `IssueCreate.PostTransport` | src/agent_container/family_issue_create.py:293-366 | The body is begun exactly when the request is accepted and the connection stands; an accepted request whose body was not begun ends in "not started", a refused one in another exception, and the stage is the phase that failed |
| `IssueCreate.Create` | src/agent_container/family_issue_create.py:510-554 | "Not started" is never reported once the body was begun, a result only after a 201 with the expected number and URL, and every other outcome as unknown; at most one body is sent |
| `IssueCreate.Remote.BeginBody` | src/agent_container/family_issue_create.py:323-325 | The only way to send a body: it requires the record to be SENDING without a marker, SENDING to be the last thing the log tells of it, and the content to be the record's |
| `AuditTrail.ToldAppend` | src/agent_container/family_pending.py:1271-1288 | Appending an entry extends what the log tells of a request by that transition, or by nothing if it repeats the last one |
| `AuditTrail.LawfulNeverRepeats` | src/agent_container/family_pending.py:106-119 | A history along the transition table never has the same event twice in a row, so collapsing repeats loses nothing of it |
| `ApprovalInvariant.InitInv` | src/agent_container/family_pending.py:1037-1053 | The invariant holds of an empty store |
| `ApprovalSteps.StepKeepsInv` | src/agent_container/family_cli.py:475-840 | Every step of approve, reject, resolve, intake and recovery, every crash and every change of the binding keeps the invariant |
| `ApprovalTheorems.RunKeepsInv` | src/agent_container/family_cli.py:475-840 | So does every interleaving of any number of processes |
| `ApprovalTheorems.AuditTellsHistory` | src/agent_container/family_pending.py:1115-1185 | In every reachable state the log, collapsed, is exactly the history of each request, or lacks only its last event, and that event is the marker the record stores |
| `ApprovalTheorems.AuditInventsNothing` | src/agent_container/family_pending.py:1259-1320 | The log tells no transition of a request that was never taken in |
| `ApprovalTheorems.StepIsRecorded` | src/agent_container/family_pending.py:106-119 | Every step changes the state of a record only along the transition table and writes down that very event, or changes no state, content or number |
| `ApprovalTheorems.TerminalForever` | src/agent_container/family_pending.py:100-119 | A created, rejected or expired request keeps its state, number and URL and has no content, in every continuation |
| `ApprovalTheorems.PostsAreBounded` | src/agent_container/family_cli.py:565-642 | Issue POSTs whose body was begun number at most one plus the completed resolve-not-created transitions, and no more than those in PENDING, REJECTED and EXPIRED |
| `ApprovalTheorems.PostsWereAuditedAndShown` | src/agent_container/family_cli.py:393-446 | Every POST had an audited SENDING before it and sent, to the repository shown to the posting process itself at its prompt, the title and body shown there, which are those intake stored |
| `ApprovalTheorems.PostNeedsSending` | src/agent_container/family_cli.py:565-580 | A POST can begin only while its record is durably SENDING with no marker left and still holds the content of the snapshot |
| `ApprovalTheorems.OnlyTheSenderMoves` | src/agent_container/family_cli.py:499-642 | No step of another process changes a record that a living process is sending, nor that process, nor the POSTs |
| `ApprovalTheorems.RecoveryFindsNoSender` | src/agent_container/family_pending.py:1014-1034 | Whatever step of another process takes a record out of SENDING, the legacy mark included, no living process was sending it |
| `ApprovalTheorems.ContentIsBoundedAndFixed` | src/agent_container/family_pending.py:783-793 | At most 10 records hold content; a record that is pending, sending or unknown holds exactly what intake stored, any other none |
| `ApprovalTheorems.SubmissionIsFinal` | src/agent_container/family_pending.py:783-820 | What intake stored for a request never changes afterwards |
| `CommandSteps.EventsAreInOrder` | src/agent_container/family_pending.py:100-119 | In every run the events of a request, and what the log tells of it, follow each other only so: taken in first; sent, rejected or expired while pending; created, unknown, failed or recovered while being sent; resolved while unknown |
| `CommandSteps.RejectionStores` | src/agent_container/family_cli.py:650-679 | Rejecting a pending request stores it as REJECTED without content and with that event, or as EXPIRED when it is late |
| `CommandSteps.ReconciliationStores` | src/agent_container/family_cli.py:682-768 | Resolving an unknown request as created stores the number and the URL that belongs to it in the repository of the command, drops the content and announces that |
| `CommandSteps.ReleaseStores` | src/agent_container/family_cli.py:771-840 | Resolving it as not created stores it as PENDING again, with its content and that event |
| `PendingRecovery.VisitCleans` | src/agent_container/family_pending.py:1059-1096 | A visit leaves no marker, no SENDING and no expired PENDING, changes exactly those, and is idle exactly on records that were clean |
| `PendingRecovery.SweepCleans` | src/agent_container/family_pending.py:1053-1099 | A whole sweep does this to every record and loses or adds none |
| `PendingRecovery.CleanSweepIsIdle` | src/agent_container/family_pending.py:1053-1099 | A sweep of clean records changes nothing and appends nothing |
| `PendingRecovery.SweepTwiceIsSweepOnce` | src/agent_container/family_pending.py:1037-1112 | A second recovery at the same time, in any order, changes nothing and appends nothing |
| `PendingRecovery.SweepReports` | src/agent_container/family_pending.py:1065-1104 | The sweep reports exactly the requests whose send was interrupted |
| `PendingRecovery.VisitIsAStage` | src/agent_container/family_pending.py:1056-1096 | The last stage of a visit is the visit function, and a record that was clean has no other stage than itself |
| `PendingRecovery.SweepStageKeeps` | src/agent_container/family_pending.py:1053-1099 | Wherever a sweep stops, it has the same requests, and every record is at a stage of its own visit |
| `PendingStore.Store.AtomicReplace` | src/agent_container/family_pending.py:643-711 | Seen from the store: the old record or the new one, and either after an exception |
| `PendingStore.LockedPending.TransitionPending` | src/agent_container/family_pending.py:1115-1185 | Refuses when the audit is incomplete or the table forbids the change, and otherwise replaces the whole record once |
| `PendingStore.LockedPending.ReplaceAuditMetadata` | src/agent_container/family_pending.py:1188-1230 | Replaces the marker and clears the legacy bit, and nothing else of the record |
| `PendingStore.LockedPending.MigrateRecoveryAuditPending` | src/agent_container/family_pending.py:1233-1256 | Turns the legacy bit into a marker for the recovery event; refuses without it |
| `PendingStore.LockedPending.DrainAuditEvent` | src/agent_container/family_pending.py:1271-1288 | Appends the stored event and then clears it: the marker never goes before its entry is in the log |
| `PendingStore.LockedPending.TransitionAudited` | src/agent_container/family_pending.py:1291-1320 | Exactly four outcomes: nothing, replaced, appended, complete; success is the last |
| `PendingStore.VisitLocked` | src/agent_container/family_pending.py:1056-1096 | One turn of the sweep is the visit function on record and log; when a write fails, record and log are one of the stages in between and no other record changes |
| `PendingStore.ChangeLocked` | src/agent_container/family_pending.py:1065-1096 | The second half of a turn, with the same stages on failure |
| `PendingStore.InitializePendingStore` | src/agent_container/family_pending.py:1037-1112 | The loop is the sweep function on store, log and report, never adds or removes a record, and on a store that does not fail it succeeds exactly when every record belongs to the project, a foreign one ending the sweep in front of it; when a write fails, store and log are a stage of the sweep, and the log has only grown |
| `PendingStore.VisitInFields` | src/agent_container/family_pending.py:1056-1096 | A visit in the fields of the record: an interrupted send becomes UNKNOWN with the recovery event, a late PENDING becomes EXPIRED without content, and nothing else changes |
| `PendingStore.StageInFields` | src/agent_container/family_pending.py:1056-1096 | Wherever a visit is interrupted, the record has moved as far as a visit may move it and nothing else of it has changed, and the event it owed and the event of the move are in the log or still stored with it |
| `PendingStore.UnfinishedAfterSweep` | src/agent_container/family_pending.py:783-793 | What a sweep leaves unfinished are exactly the requests that were sending or unknown and the pending ones whose time is not over |
| `PendingStore.PublishAudited` | src/agent_container/family_pending.py:820-850 | Publishes one record and appends its event; an exception leaves the store as it was, or with the record and its marker, or complete |
| `PendingStore.PublishedInFields` | src/agent_container/family_pending.py:820-850 | A publication that is interrupted has stored the whole record and no other change, and its event is in the log or still stored with it |
| `PendingStore.CreatePending` | src/agent_container/family_pending.py:714-850 | Sweeps, and then, by the number of unfinished records the old store leaves, their projects and the free identifiers: refuses at 10, and otherwise adds exactly one record, PENDING with the content and an expiry a day later, under the first free identifier of 32, and appends its event; never more than 10 are unfinished; every other record is as the sweep left it; after an exception the store is a stage of the sweep or of that publication |
| `ApprovalCommand.Send` | src/agent_container/family_cli.py:573-642 | On a begun body and an acceptable reply, and only then, CREATED is stored with the number and URL of the reply; PENDING with its content and "error" exactly when nothing was started; UNKNOWN with its content otherwise; status and stage of the log entry in each case; an exception leaves a stage of that one transition |
| `ApprovalCommand.Approve` | src/agent_container/family_cli.py:499-642 | A body is begun only when binding, provider, inventory and the second look at the binding all hold, in time and over a standing connection, and on a store that does not fail exactly then: the content and repository that were shown, while the record is SENDING and the log ends in its event; the first check that fails is noted with its stage and changes nothing else; a late request becomes EXPIRED; what is reported is stored and audited as what came of the body; an exception leaves a stage of the one transition it struck |
| `ApprovalCommand.SettlementFits` | src/agent_container/family_cli.py:565-642 | Every way an approval settles a request is along the transition table and announced by its own event |
| `ApprovalRun.TransitionRun` | src/agent_container/family_pending.py:1291-1320 | An uninterrupted audited transition of an approval is a run of the protocol |
| `ApprovalRun.ApproveRun` | src/agent_container/family_cli.py:562-642 | So is the approval behind its checks, with the same record, the same two log entries and, exactly if its body was begun, a POST of the content and to the repository the process was shown |
| `ApprovalRun.ExpiredRun` | src/agent_container/family_cli.py:561-564 | So is an approval that comes too late |
| `ApprovalRun.HaltedRun` | src/agent_container/family_cli.py:516-560 | So is one that a check stops, which leaves its note in the log and nothing else |
| `ApprovalRun.InterruptedRun` | src/agent_container/family_pending.py:1291-1320 | So is an audited transition interrupted after any of its durable steps |
| `ApprovalRun.ConfirmedRun` | src/agent_container/family_cli.py:499-516 | So is the way from the answered prompt through the lock and both comparisons |
| `ApprovalRun.ApproveFromPrompt` | src/agent_container/family_cli.py:499-642 | The whole command from the answered prompt is a run, with its record, its log entries and that POST, whether in time or too late |
| `RecoveryRun.DrainRun` | src/agent_container/family_pending.py:1271-1288 | Draining a marker is a run of the protocol with that effect |
| `RecoveryRun.ChangeRun` | src/agent_container/family_pending.py:1291-1320 | So is an uninterrupted audited transition of the sweep |
| `RecoveryRun.SweepRun` | src/agent_container/family_pending.py:1053-1099 | So is a whole sweep, with the records and log entries of the sweep functions |
| `RecoveryRun.RecoveryConverges` | src/agent_container/family_pending.py:1037-1112 | From every state that crashes can lead to, an uninterrupted recovery reaches a store without SENDING, markers or expired PENDING, alters nothing else and frees the lock |
| `RecordReplacement.WriteAndSync` | src/agent_container/family_state.py:271-277 | Short writes add up to the whole body, synced; meanwhile nothing but the new inode changes |
| `RecordReplacement.Directory.Do` | src/agent_container/family_state.py:271-337 | An operation succeeds unless the world fails it or it is impossible, has its effect or none, and is recorded in the trace either way |
| `RecordReplacement.SwapIn` | src/agent_container/family_pending.py:677-683 | At every step the record name shows all of the old or all of the new bytes from a synced inode, or the very inode the recorded intruder put there; what came out is put back unless it is the expected record, and where looking at it or putting it back is recorded as failed the exchange stands |
| `RecordReplacement.ExchangeRecord` | src/agent_container/family_pending.py:667-704 | On success the temporary is gone and the old inode has no name left; before publication every name is as it was; where no operation fails and nobody intrudes it succeeds exactly when the record is the expected one and has no other name |
| `RecordReplacement.AtomicReplace` | src/agent_container/family_pending.py:643-711 | The same for the whole replacement, wherever a crash or an exception strikes: only what the trace records as intruded is ever shown besides old and new bytes; once published, the temporary stays only where its removal is recorded as failed, and before that only where that or the way back is; other names and all old bytes are untouched |
| `RecordReplacement.PublishNew` | src/agent_container/family_pending.py:595-640 | A new record appears whole and synced or not at all, and never over an existing name; published or not, the temporary stays only where its removal is recorded as failed; where nothing fails it succeeds exactly when both names were free |
| `ReplayWindow.ShlBit` | src/agent_container/egress_broker.py:144-161 | A shift moves every bit by its distance and leaves zeros |
| `ReplayWindow.MaskBit` | src/agent_container/egress_broker.py:37-38 | The mask keeps exactly the bits below the window |
| `ReplayWindow.AdvanceRepresents` | src/agent_container/egress_broker.py:144-152 | A number above the highest is fresh, and shifting, masking and large jumps keep bit i set exactly when highest - i was accepted |
| `ReplayWindow.MarkRepresents` | src/agent_container/egress_broker.py:153-161 | Setting the bit of an older number adds exactly that number |
| `ReplayWindow.EgressBrokerSession.Authorize` | src/agent_container/egress_broker.py:132-166 | Exactly the authentic requests with a fresh number in the window are judged: "connect" to port 443 of a listed domain is authorized, anything else denied by the policy, and either way the number is taken; any other request is refused and changes nothing |
| `ReplayWindow.EgressBrokerSession.AuthorizeEach` | src/agent_container/egress_broker.py:132-171 | Over any run of requests: no domain outside the list is ever authorized, no number twice, and nothing after the session was deactivated |
| `ReplayWindow.EgressBrokerSession.Deactivate` | src/agent_container/egress_broker.py:168-171 | Closes the session and forgets the capability |
| `ReplayWindow.RunRepresents` | src/agent_container/egress_broker.py:144-161 | After any sequence of numbers the pair of highest and mask stands for exactly the accepted ones inside the window |
| `ReplayWindow.NeverTwice` | src/agent_container/egress_broker.py:153-161 | No number is accepted twice in any sequence |
| `ReplayWindow.FirstInTime` | src/agent_container/egress_broker.py:144-161 | A number that arrives first, with every earlier one less than the window above it, is accepted |
| `ReplayWindow.EgressSequence.Next` | src/agent_container/egress_adapter.py:49-58 | Numbers count up by one from 1 and stop at the maximum |
| `ReplayWindow.Issue` | src/agent_container/egress_adapter.py:49-58 | The first n calls give 1 to n |
| `ReplayWindow.EachAcceptedOnce` | src/agent_container/egress_adapter.py:49-58 | Delivered in any order and with repeats, but in time, exactly the first delivery of each number is accepted |
| `TunnelLimits.EgressBrokerRuntime.ReserveTunnel` | src/agent_container/egress_broker_runtime.py:94-108 | Grants the next reservation exactly while fewer than 32 are active and the tunnels ever created, with those being prepared, are fewer than 128 |
| `TunnelLimits.EgressBrokerRuntime.MarkTunnelCreated` | src/agent_container/egress_broker_runtime.py:110-119 | Counts a reservation as created once |
| `TunnelLimits.EgressBrokerRuntime.ReleaseTunnel` | src/agent_container/egress_broker_runtime.py:121-127 | Gives back a reservation and its creation mark |
| `TunnelLimits.LimitsAlwaysHold` | src/agent_container/egress_broker_runtime.py:94-127 | In every interleaving active is at most 32, created within active, lifetime plus not yet created at most 128, and active equals the handlers that hold one |
| `TunnelLimits.ReservationIsGood` | src/agent_container/egress_broker_runtime.py:151-205 | A handler that got a reservation can always mark it, exactly once |
| `TunnelLimits.GrantedWhileThereIsRoom` | src/agent_container/egress_broker_runtime.py:94-127 | In every interleaving a waiting handler is granted a reservation exactly while fewer than 32 handlers hold one and the marks so far with the handlers still preparing are fewer than 128 |
| `TunnelLimits.LifetimeCount` | src/agent_container/egress_broker_runtime.py:110-119 | The lifetime counter is the number of marks, in every run |
| `RelayTunnel.Waiting.Select` | src/agent_container/egress_gateway.py:165-190 | The relay never waits on empty interests: that some are not empty is what this call requires |
| `RelayTunnel.Turn` | src/agent_container/egress_gateway.py:165-229 | One iteration keeps both directions faithful and strictly reduces twice the remaining allowance plus the buffered bytes plus the open flags |
| `RelayTunnel.Relay` | src/agent_container/egress_gateway.py:133-232 | At every exit each side got a prefix of what the other sent, within the limit, and its write side was shut at most once and only after everything; a normal return means both streams were delivered whole, and an early end has a cause: a socket that failed, the clock or the limit |
| `PktLine.DecodeSection` | src/agent_container/git_protocol.py:51-86 | The loop computes the recursive reading of a section |
| `PktLine.DecodesExactlyTheGrammar` | src/agent_container/git_protocol.py:51-86 | It succeeds exactly on a section of the pkt-line grammar within the limits, with exactly its packets, whatever follows |
| `PktLine.WiderLimits` | src/agent_container/git_protocol.py:9-11 | Limits decide only whether a section is read, never what is read |
| `PktLine.RoundTrip` | src/agent_container/git_protocol.py:51-86 | Written packets are read back exactly when they fit the limits |
| `WireForms.HeaderIs` | src/agent_container/git_protocol.py:57-66 | A header is four hexadecimal digits in either case, and its value is theirs, the first digit counting most |
| `ReceivePackAdvertisement.ObjectFormatSelects` | src/agent_container/git_protocol.py:113-123 | The object format is the only one the capabilities are consistent with, and SHA-1 without any |
| `ReceivePackAdvertisement.ParseAdvertisement` | src/agent_container/git_protocol.py:142-176 | Accepts exactly well-formed advertisements, and the refs are exactly those of its lines with their objects; `AdvertisementForm` says in bytes which these are |
| `AdvertisementForm.AdvertisementIs` | src/agent_container/git_protocol.py:93-176 | A section is an advertisement exactly when its lines are an object id of the format, a space and a name that may be advertised, no name twice, the placeholder alone and with the zero id, and the capabilities behind the first line are a list with no other object format |
| `AdvertisementForm.RefsAreOfLines` | src/agent_container/git_protocol.py:155-176 | The refs that are read are exactly those of the lines, each with its object, but for the placeholder |
| `ReceivePackGate.Gate` | src/agent_container/git_protocol.py:203-261 | Accepts exactly the batches of at most 8 creations of distinct, well-named, unprotected branches that the remote does not have, and returns them; `CreateBatches` says in bytes which these are |
| `ReceivePackGate.CreatesOnlyAdd` | src/agent_container/git_protocol.py:234-256 | Applying creations one by one only adds their refs |
| `ReceivePackGate.AcceptedBatchOnlyCreates` | src/agent_container/git_protocol.py:203-261 | Applied to the advertised refs, an accepted batch keeps each of them and its object and adds exactly its own, at most 8, distinct, under refs/heads/, not protected, with non-zero objects |
| `CreateBatches.BranchesAreComponents` | src/agent_container/github_broker_policy.py:29-46 | A branch name is accepted exactly when it is 1 to 200 bytes, starts alphanumeric, does not start with refs/ or end in a dot, and is components over letters, digits, dot, underscore and hyphen joined by single slashes, none empty, a dot alone, with two dots in a row or ending in .lock |
| `CreateBatches.CapabilityIs` | src/agent_container/git_protocol.py:178-200 | A client may ask for six fixed capabilities, the object format of the remote and an agent, each only if the remote advertises the name |
| `CreateBatches.ListIs` | src/agent_container/git_protocol.py:100-110 | A list of capabilities is accepted exactly when it is ASCII, joined by single spaces and without two of the same name |
| `CreateBatches.BatchIsAccepted` | src/agent_container/git_protocol.py:203-261 | Every batch of 1 to 8 commands that each create another such branch, under capabilities the client may ask for, is accepted, whatever stands behind it |
| `CreateBatches.AcceptedInFields` | src/agent_container/git_protocol.py:203-261 | And an accepted batch is such a batch, in the fields of its commands |
| `CreateBatches.CreatedCanBeAdvertised` | src/agent_container/git_protocol.py:133-140 | A branch the gate lets a client create has a name that can be advertised |
| `DeleteOnlyPush.IsDeleteOnly` | src/agent_container/git_remote_helper.py:96-140 | The loop recognises exactly a single whole section of at least one deletion |
| `WireForms.DeleteOnlyIs` | src/agent_container/git_remote_helper.py:96-140 | These are the single sections of at least one deletion, of distinct refs and under object ids of one length |
| `WireForms.DeletionIs` | src/agent_container/git_remote_helper.py:108-137 | A packet deletes a ref exactly when it is a non-zero object id, the zero id of the same length and a name under refs/ with single spaces between them, with capabilities behind one zero byte in the first packet and no zero byte in any other |
| `DeleteOnlyPush.DeleteOnlyIsRefused` | src/agent_container/git_remote_helper.py:143-148 | The gate refuses such a section, followed by anything, under every advertisement and policy |
| `DeleteOnlyPush.AcceptedIsNotDeleteOnly` | src/agent_container/git_remote_helper.py:96-140 | No body is both accepted by the gate and delete-only |
| `ChunkStream.RoundTrip` | src/agent_container/broker/frame.py:174-212 | A stream of acceptable chunks is read back exactly, and refused exactly when its total is above the maximum |
| `ChunkStream.Be32Is` | src/agent_container/broker/frame.py:174-186 | A length below 2^32 is written as four bytes, the most significant one first |
| `ChunkStream.OneChunk` | src/agent_container/broker/frame.py:189-212 | A chunk in front of a stream is read exactly when it has at most 1,048,576 bytes, stays within the maximum and the rest is read |
| `ChunkStream.DecodesOnlyEncodings` | src/agent_container/broker/frame.py:189-212 | Whatever is read back is what those chunks are written as |
| `ChunkStream.CutStreamsAreRefused` | src/agent_container/broker/frame.py:189-212 | A stream cut off anywhere before its end is never taken for a whole one, except at its very start where an end is allowed |
| `ChunkStream.WriteFully` | src/agent_container/broker/frame.py:154-165 | Short writes add up to the frame, or to a proper prefix of it |
| `ChunkStream.WriteChunkStream` | src/agent_container/broker/frame.py:174-186 | Writes the whole encoding and returns the number of bytes, or leaves a stream that was cut off |
| `ChunkStream.ReadExact` | src/agent_container/broker/frame.py:121-139 | Short reads add up to exactly the size asked for |
| `ChunkStream.IterChunkStream` | src/agent_container/broker/frame.py:189-212 | Yields exactly the chunks of the decoded stream; before an error only whole, acceptable chunks the stream begins with |
| `UploadPack.ReadStatelessRequest` | src/agent_container/git_remote_helper.py:63-93 | Takes exactly one request from the input and leaves the rest; a clean end of input is no request and no error |
| `WireForms.RequestIs` | src/agent_container/git_remote_helper.py:63-93 | A request is read exactly when the input starts with at most 65,536 packets of at most 65,520 bytes or delimiters and a flush, 16 MiB in all, and it ends there |
| `UploadPack.RequestsEndInFlush` | src/agent_container/git_remote_helper.py:74-77 | Every request read ends in a flush packet and is at most 16 MiB |
| `UploadPack.CarryRequest` | src/agent_container/github_broker_transport.py:121-134 | What the broker hands to `rpc` is the request Git wrote, whole, with a flush at its end and within 16 MiB, so that `rpc` never refuses it |
| `UploadPack.Rpc` | src/agent_container/github_git_transport.py:178-205 | For every split into reads: all but the last four bytes pass, which must be a flush and become a response-end; every piece has 1 to 65,536 bytes |
| `UploadPack.ConnectResponse` | src/agent_container/git_remote_helper.py:156-169 | The inverse rewriting, which succeeds exactly on non-empty chunks that end in a response-end |
| `UploadPack.CarryReply` | src/agent_container/github_git_transport.py:160-205 | Transport, chunk stream, reader and `_connect_response` together deliver exactly the bytes of the remote or report failure, however anything is split; without a failing stream they succeed exactly on a reply that ends in a flush and has at most 8 GiB |
| `PushSession.ReadReceivePackRequest` | src/agent_container/git_remote_helper.py:143-153 | The body is the commands alone when they only delete, and otherwise all of the input up to 256 MiB |
| `PushSession.CarryBody` | src/agent_container/github_broker_transport.py:188-201 | The broker receives exactly the body the client sent |
| `PushSession.CarryPush` | src/agent_container/github_broker_transport.py:305-366 | What is forwarded is what Git wrote and the very bytes the gate accepted against the refs and capabilities the discovery announces, never a deletion; and exactly why a push stops when no stream fails |
| `PushSession.AnnouncesOne` | src/agent_container/git_protocol.py:142-176 | A discovery announces one advertisement only |
| `PushSession.StoppedIsNotGated` | src/agent_container/github_broker_transport.py:305-366 | No push is both stopped and forwarded |
| `AdvertisementSize.AdvertisementLimit` | src/agent_container/git_protocol.py:51-86 | A section of the grammar is read exactly when it is within the limits of the parser, and what is read fits one chunk of the stream to the client |
| `AdvertisementSize.AdvertisementIsRead` | src/agent_container/git_protocol.py:126-176 | A well-formed advertisement is accepted exactly when it is within those limits, which is exactly when it has at most 1,024 lines and a first one of at most 65,516 bytes |
| `AdvertisementSize.LargeAdvertisementIsRefused` | src/agent_container/git_protocol.py:9-11 | There is a well-formed advertisement, of 1,025 branches and within the 4 MiB of the fetch, that is refused |
| `MarkdownLiteral.UnescapeEscape` | src/agent_container/family_issue.py:82-144 | Unescaping returns the text whatever positions were chosen, and under the escapes of CommonMark too if they are punctuation |
| `MarkdownLiteral.BlockPositionsArePunctuation` | src/agent_container/family_issue.py:83-118 | The positions chosen for what starts a line are punctuation |
| `MarkdownLiteral.BlocksAreEscaped` | src/agent_container/family_issue.py:89-118 | Each construct recognised at the start of a line has the position that gives it away escaped |
| `LineStarts.PositionsAre` | src/agent_container/family_issue.py:83-118 | At the start of a line exactly these positions are escaped: the brackets of a task item, the brackets and colon of a definition, the mark of a heading, quotation or list item, the mark behind the number of an item, and every mark of a thematic break that is no list item; each form said by positions |
| `MarkdownLiteral.EscapedTextOpensNoBlock` | src/agent_container/family_issue.py:82-144 | At the start of a line, escaped text starts no heading, quotation, list or task item or thematic break in the forms the program looks for, after any indentation and whatever the inline patterns match |
| `MarkdownLiteral.EscapedTextDefinesNoLink` | src/agent_container/family_issue.py:90-96 | Nor a link definition of Markdown, where the first closing bracket is escaped only with the first opening one |
| `MarkdownBlocks.FencesOfTildesRemain` | src/agent_container/family_issue.py:83-118 | It opens a fenced code block exactly when it starts, with less than four spaces before them, with three tildes that no inline match reaches |
| `MarkdownBlocks.QuotesRemain` | src/agent_container/family_issue.py:99-100 | It opens a block quote exactly when the text starts, with less than four spaces before it, with an unreached mark that no blank follows |
| `MarkdownBlocks.HtmlBlocksRemain` | src/agent_container/family_issue.py:83-118 | It opens an HTML block exactly when the text starts with the beginning of one, with less than four spaces before it, that no inline match reaches |
| `MarkdownBlocks.IndentedCodeRemains` | src/agent_container/family_issue.py:84-88 | It is indented code exactly when the text is |
| `MarkdownBlocks.CriterionBreaks` | src/agent_container/family_issue.py:168-177 | Behind the bullet of a criterion it makes a thematic break exactly when the text is two dashes that no inline match reaches |
| `InlinePatterns.InlineHolds` | src/agent_container/family_issue.py:120-137 | What the inline patterns escape is an exclamation mark in front of a bracket, a bracket, a parenthesis, an emphasis delimiter or an angle bracket, a closing one only behind its escaped opening one |
| `InlinePatterns.InlinePairsBrackets` | src/agent_container/family_issue.py:120-129 | In a text of one line they escape the first closing bracket only with the first opening one |
| `InlinePatterns.LiteralReadsBack` | src/agent_container/family_issue.py:82-144 | With the program's patterns, undoing the backslash escapes of Markdown in the escaped text returns the text |
| `InlinePatterns.LiteralDefinesNoLink` | src/agent_container/family_issue.py:82-144 | With them, an escaped text of one line starts no link definition |
| `InlinePatterns.FirstBracketEscaped` | src/agent_container/family_issue.py:120-129 | They escape the first opening bracket exactly when a link or reference starts there whose text ends at the next closing bracket |
| `InlineMatches.LinkIs` | src/agent_container/family_issue.py:28-29 | The patterns for links match exactly two pairs of brackets behind each other in one line, the first around at least one character, with or without an exclamation mark in front |
| `InlineMatches.LinksAreEscaped` | src/agent_container/family_issue.py:120-129 | Every link or reference begins inside one of which all four brackets are escaped, with an exclamation mark in front of it |
| `InlineMatches.HtmlIs` | src/agent_container/family_issue.py:30-32 | The pattern for HTML matches exactly a comment up to its last end in the line, or, where there is none, an autolink, an address or a tag up to its first closing bracket |
| `InlineMatches.HtmlIsEscaped` | src/agent_container/family_issue.py:130-132 | Every one of these begins inside one of which both angle brackets are escaped |
| `InlineMatches.EmphasisIs` | src/agent_container/family_issue.py:33 | The pattern for emphasis matches the longest delimiter of one to three asterisks or underscores or at least two tildes that is closed again, up to the first place where it is, around text of one line without a space at either end and with no backslash in front |
| `InlineMatches.EmphasisIsEscaped` | src/agent_container/family_issue.py:133-137 | Every delimiter that is closed again begins inside an emphasis of which both delimiters are escaped |
| `LiteralBlocks.LiteralQuotes` | src/agent_container/family_issue.py:82-144 | With them, the escaped text opens a block quote exactly when the text does and no blank follows the mark |
| `LiteralBlocks.LiteralHtmlBlocks` | src/agent_container/family_issue.py:30-32 | It opens an HTML block of the first six kinds exactly when the text starts with the beginning of one and no pattern matches there, for HTML or, right behind, for an image |
| `LiteralBlocks.LiteralHasNoTag` | src/agent_container/family_issue.py:30-32 | A text of one line that starts with a tag which is closed again does not start with an angle bracket any more, so it opens no HTML block of the seventh kind |
| `LiteralBlocks.LiteralFences` | src/agent_container/family_issue.py:33 | It opens a fenced code block exactly when the text starts with three tildes and its run of tildes is not a delimiter that is closed again |
| `LiteralBlocks.LiteralIndentedCode` | src/agent_container/family_issue.py:84-88 | It is indented code exactly when the text is |
| `LiteralBlocks.LiteralBreaks` | src/agent_container/family_issue.py:168-177 | A criterion becomes a thematic break exactly when it is two dashes |
| `LiteralBlocks.MarkOpensAQuote` | src/agent_container/family_issue.py:99-100 | `>x` stays as it is and opens a block quote |
| `LiteralBlocks.CommentOpensAnHtmlBlock` | src/agent_container/family_issue.py:30-32 | `<!-- x` stays as it is and opens an HTML block |
| `LiteralBlocks.TildesOpenAFence` | src/agent_container/family_issue.py:33 | `~~~ x` stays as it is and opens a fenced code block |
| `LiteralBlocks.SpacesMakeCode` | src/agent_container/family_issue.py:84-88 | `x` behind four spaces stays as it is and is indented code |
| `LiteralBlocks.DashesBreakTheList` | src/agent_container/family_issue.py:168-177 | `--` stays as it is and makes a thematic break of its criterion |
| `LiteralBlocks.NestedBracketsStayALink` | src/agent_container/family_issue.py:28-29 | `[a [b] c](d)` stays as it is and is a link |
| `IssueRendering.RenderIsLines` | src/agent_container/family_issue.py:164-178 | The rendered body is its headings, texts and bullets line by line |
| `IssueRendering.BodyReadsBack` | src/agent_container/family_issue.py:164-204 | Read by lines, a body gives back exactly the summary, context, criteria and signature, whatever the inline patterns match |
| `IssueRendering.MarkdownReadsTheBody` | src/agent_container/family_issue.py:82-204 | With the program's patterns it does when Markdown's backslash escapes are undone in the texts |
| `IssueRendering.CanonicalIsInjective` | src/agent_container/family_issue.py:181-204 | A title and body stand for one draft and one author only |
| `IssueRendering.CanonicalIs` | src/agent_container/family_issue.py:147-204 | Exactly the drafts within the limits on length, characters and number are accepted, and title and body are these, with their headings, bullets and signature, letter by letter |
| `IssueSize.EscapeAtMostDoubles` | src/agent_container/family_issue.py:139-144 | Escaping at most doubles the UTF-8 size |
| `IssueSize.CanonicalFits` | src/agent_container/family_issue.py:181-204 | Exactly the valid drafts are accepted, and their bodies have at most 33,000 bytes, inside the 65,536 of a record |
| `RecordCodec.DecodeEncoded` | src/agent_container/family_pending.py:269-303 | Every valid record decodes from its payload |
| `RecordCodec.DecodesOnlyPayloads` | src/agent_container/family_pending.py:390-475 | Only the payload of a valid record decodes, and to that record: no missing, extra, null or false field is accepted |
| `RecordCodec.EventRoundTrip` | src/agent_container/family_pending.py:1359-1411 | An event decodes from its payload |
| `IssueUrlCheck.UrlOkIsValidUrl` | src/agent_container/family_pending.py:251-266 | The prefix, suffix and split check accepts exactly the URLs of an Issue of some repository |
| `IssueUrlCheck.UrlsAre` | src/agent_container/family_pending.py:251-266 | Those URLs in full: the prefix, an owner and a name of one to 100 characters each, and the number without leading zeros |
| `IssueUrlCheck.RecordsAre` | src/agent_container/family_pending.py:390-475 | The valid records in full: which fields each state has, their sizes and their forms, and an expiry a day after the creation |
| `RecordSize.JsonTriples` | src/agent_container/family_pending.py:377-387 | ASCII JSON escapes at most triple the UTF-8 size of text without control characters |
| `RecordSize.RecordFits` | src/agent_container/family_pending.py:478-501 | A record with such content is at most 131,072 bytes of JSON and decodes to itself |
| `RecordSize.AcceptedDraftsCanBeStored` | src/agent_container/family_pending.py:377-501 | Every record of a request made from an accepted draft, in every state and with every marker, can be read back |
| `JsonText.StringReadsBack` | src/agent_container/family_pending.py:377-387 | Every string is read back from its JSON text, escapes and surrogate pairs included |
| `JsonText.EventTextIs` | src/agent_container/family_pending.py:269-303 | The text of an event: its members by name in their order, with the names of operation, status and stage |
| `JsonText.RecordTextIs` | src/agent_container/family_pending.py:269-303 | The text of every valid record: its members by name in their order, the optional ones exactly when they are there, the name of the state, and a line feed |
| `IntakeSession.NoRepeats` | src/agent_container/family_intake_broker.py:226-243 | While processes do not change, a chain of parents that ends at the root visits no process twice |
| `IntakeSession.FamilyIntakeSession.RegisterRuntime` | src/agent_container/family_intake_broker.py:196-211 | The root is registered exactly when a process of the owner is seen twice the same, on the first attempt of an active session that was not used |
| `IntakeSession.FamilyIntakeSession.ValidatePeer` | src/agent_container/family_intake_broker.py:213-246 | Whoever is let in has a chain of at most 64 parents of the owner that ends at the registered root, each seen the same twice, around one moment; while processes do not change everybody with such a chain is let in |
| `IntakeSession.FamilyIntakeSession.Handle` | src/agent_container/family_intake_broker.py:248-305 | At most one Issue is ever handed to the store, the canonical form of the draft signed by this session; the capability is spent first, whatever becomes of it |
| `BrokerRuntime.SocketBrokerRuntime.CloseSession` | src/agent_container/egress_broker.py:230-245 | Closing a session is complete exactly when its listener and its files are gone, and what is missing is left to a later call |
| `BrokerRuntime.SocketBrokerRuntime.Start` | src/agent_container/broker/runtime.py:187-220 | Starts once; a failed start closes what it opened and exits exactly when the session gave everything up |
| `BrokerRuntime.SocketBrokerRuntime.RegisterWorker` | src/agent_container/broker/runtime.py:253-261 | A worker is registered before it runs |
| `BrokerRuntime.SocketBrokerRuntime.WorkerEnds` | src/agent_container/broker/runtime.py:270-282 | An ended worker is forgotten, and an unexpected error stops the broker |
| `BrokerRuntime.SocketBrokerRuntime.Stop` | src/agent_container/broker/runtime.py:309-353 | Exits exactly when the accept thread and all workers have ended, deactivation succeeded and the session gave everything up, and then the listener is closed whoever closed it; otherwise a later call goes on |
| `BrokerRuntime.SocketBrokerRuntime.StopAgain` | src/agent_container/broker/runtime.py:309-353 | A stop that meets no failure ends the runtime and closes everything however an earlier one went |

## Left out

- HTTP, TLS, DNS, signing and tokens: a POST is an action with the outcomes "not begun", "unknown" and "created".
- JSON text parsing: decoded JSON is a map of fields; the text that is written is modelled, with its size, and only its strings are read back.
- Setext underlines and tables: each needs a second line, which a text does not have.
- Inline Markdown: that everything the program's patterns match begins inside an escaped match is proved (`InlineMatches`); which other links, emphasis and raw HTML Markdown still sees inside an escaped text is stated for the first bracket only.
- MarkdownLiteral.EscapedTextDefinesNoLink: requires `BracketsPaired` of the inline positions because they are arbitrary there; `InlinePairsBrackets` proves it of the program's own, for the texts of one line that drafts consist of.
- Lone surrogates: a `char` is a Unicode scalar value, so the encoding errors they cause cannot arise.
- File ownership, modes, symbolic links and path checks: the file system has names, inodes, bytes, links and syncs only.
- The comparison of inode numbers when a snapshot is taken up again: the model compares records, a weaker guard, because inode numbers can be used again.
- Exceptions of the commands up to the release of the lock and crashes are one action, `Abandon`.
- A crash inside a record replacement can leave a temporary name, which the next inventory refuses: `RecordReplacement` covers what such a crash shows, while `RecoveryConverges` speaks of crashes between the steps of the protocol.
- Other processes acting on the directory inside one replacement: one intruder before the exchange.
- Torn audit lines, replacement of the audit file and its 4 MiB limit: failure outcomes, without a claim.
- PendingStore.InitializePendingStore: speaks of inventories of at most 4096 records; a larger one is refused by the code.
- PendingStore.CreatePending: the same, and it does not claim that the store stays within 4096 records, because a record is published before the inventory that would see it.
- The per-request lock file: the store lock is held throughout every command and alone decides.
- PendingStore.LockedPending.DrainAuditEvent: does not say which entries an append whose rollback also fails leaves beyond the whole entry.
- RelayTunnel.Waiting.Select: reports only events that were asked for, so that an entry without events, as after a hang-up, which makes a turn without progress that only the clock ends, is not modelled; the clock and the timeouts are arbitrary.
- PushSession.CarryPush: the reply of the remote to the push is not followed back to Git.
- UploadPack.Rpc: begins when the remote has answered with status 200 and the right content type.
- PushSession: an error while the client still sends is a failing stream.
- Threads: `BrokerRuntime` has flags for ended threads and callback outcomes; the readiness gate and peer admission of the accept loop are parameters.
- Handover, pull request and Issue sessions, binding files, list, preview and doctor commands, argument parsing and terminal input.
- JSON frames of the broker protocols: their length prefix is that of `ChunkStream`, their fields are not modelled.
