/**
  What holds of every run of the approval protocol, in every interleaving and
  with a crash of any process between any two steps.
 */
module ApprovalTheorems {
  import opened Wrappers
  import opened PendingRecord
  import opened AuditTrail
  import opened ApprovalProtocol
  import opened ApprovalInvariant
  import opened ApprovalSteps

  // `acts` leads from world `w` to world `v`.
  ghost predicate Run(w: World, acts: seq<Action>, v: World)
    decreases |acts|
  {
    if acts == [] then v == w
    else Enabled(w, acts[0]) && Run(Exec(w, acts[0]), acts[1..], v)
  }

  lemma {:induction false} RunKeepsInv(w: World, acts: seq<Action>, v: World)
    requires Inv(w) && Run(w, acts, v)
    ensures Inv(v)
    decreases |acts|
  {
    if acts != [] {
      hide Inv, Enabled, Exec;
      StepKeepsInv(w, acts[0]);
      RunKeepsInv(Exec(w, acts[0]), acts[1..], v);
    }
  }

  ghost predicate Reachable(v: World) {
    exists w, acts :: Init(w) && Run(w, acts, v)
  }

  lemma ReachableInv(v: World)
    requires Reachable(v)
    ensures Inv(v)
  {
    var w, acts :| Init(w) && Run(w, acts, v);
    InitInv(w);
    RunKeepsInv(w, acts, v);
  }

  // ---- The audit log tells what happened ----

  // Collapsed, the log holds exactly the transitions of a request, in order; if
  // one is missing it is the last one, and the record stores it.
  lemma AuditTellsHistory(v: World, id: string)
    requires Reachable(v) && id in v.records
    ensures id in v.history && Lawful(v.history[id])
    ensures var h := v.history[id];
            var r := v.records[id];
            && LastTarget(h) == Some(if r.recoveryAuditPending then Sending else r.state)
            && (r.auditEvent.None? ==> Told(v.audit, id) == h)
            && (r.auditEvent.Some? ==>
                  h[|h| - 1] == r.auditEvent.value && (Told(v.audit, id) == h || Told(v.audit, id) == h[..|h| - 1]))
  {
    ReachableInv(v);
    RecordOk(v, id);
  }

  // A request nobody took in is not mentioned.
  lemma AuditInventsNothing(v: World, id: string)
    requires Reachable(v) && id !in v.records
    ensures Told(v.audit, id) == []
  {
    ReachableInv(v);
    ToldNothing(v.audit, id);
  }

  predicate Transitions(before: Request, after: Request, h: seq<Event>, g: seq<Event>) {
    && Allowed(before.state, after.state)
    && if after.recoveryAuditPending then g == h
       else && g != [] && g[..|g| - 1] == h && Target(g[|g| - 1]) == Some(after.state)
            && after.auditEvent == Some(g[|g| - 1])
  }

  predicate SameTransition(before: Request, after: Request, h: seq<Event>, g: seq<Event>) {
    && before.state == after.state && before.issue == after.issue
    && before.number == after.number && before.url == after.url
    && (h == g || (before.recoveryAuditPending && g != [] && g[..|g| - 1] == h && after.auditEvent == Some(g[|g| - 1])))
  }

  predicate SameIdentity(before: Request, after: Request) {
    before.id == after.id && before.project == after.project
    && before.createdAt == after.createdAt && before.expiresAt == after.expiresAt
  }

  // From `w` to `v` the record of `id` changed its state along the table and wrote
  // down the event it stores, or kept its state, content and number.
  predicate Recorded(w: World, v: World, id: string)
    requires id in w.records
  {
    && id in v.records && id in v.history && id in w.history && SameIdentity(w.records[id], v.records[id])
    && if v.records[id].state != w.records[id].state
       then Transitions(w.records[id], v.records[id], w.history[id], v.history[id])
       else SameTransition(w.records[id], v.records[id], w.history[id], v.history[id])
  }

  // The history is honest: a step changes the state of a record exactly along
  // the transition table, and writes down the event it stores in the record.
  lemma StepIsRecorded(w: World, a: Action, id: string)
    requires Inv(w) && Enabled(w, a) && id in w.records
    ensures Recorded(w, Exec(w, a), id)
  {
    hide Inv, IsSlug, IdOk, Recorded, Enabled, Exec;
    RecordOk(w, id);
    match a {
      case Replace(p, input) => ReplaceStepIsRecorded(w, p, input, id);
      case Migrate(p) => MigrateStepIsRecorded(w, p, id);
      case ClearMarker(p) => PlainIsRecorded(w, a, id);
      case LegacyMark(p) => PlainIsRecorded(w, a, id);
      case Publish(p, x) => PublishIsRecorded(w, p, x, id);
      case _ => UnchangedIsRecorded(w, a, id);
    }
  }

  lemma UnchangedIsRecorded(w: World, a: Action, id: string)
    requires Enabled(w, a) && id in w.records && id in w.history
    requires !(a.Replace? || a.Migrate? || a.ClearMarker? || a.LegacyMark? || a.Publish?)
    ensures Recorded(w, Exec(w, a), id)
  {
    hide Enabled, Exec;
    OtherStepsKeepRecords(w, a);
  }

  lemma ReplaceStepIsRecorded(w: World, p: Proc, input: Input, id: string)
    requires Inv(w) && Enabled(w, Replace(p, input)) && id in w.records && id in w.history
    ensures Recorded(w, Exec(w, Replace(p, input)), id)
  {
    hide Inv, Recorded, Replaced, Plan;
    ReplaceIsRecorded(w, p, input, id);
  }

  lemma MigrateStepIsRecorded(w: World, p: Proc, id: string)
    requires Inv(w) && Enabled(w, Migrate(p)) && id in w.records && id in w.history
    ensures Recorded(w, Exec(w, Migrate(p)), id)
  {
    hide Inv, Recorded, BitMigrated;
    MigrateIsRecorded(w, p, id);
  }

  lemma PlainIsRecorded(w: World, a: Action, id: string)
    requires Enabled(w, a) && (a.ClearMarker? || a.LegacyMark?) && id in w.records && id in w.history
    ensures Recorded(w, Exec(w, a), id)
  {
    hide IsSlug;
  }

  lemma PublishIsRecorded(w: World, p: Proc, x: string, id: string)
    requires Enabled(w, Publish(p, x)) && id in w.records && id in w.history
    ensures Recorded(w, Exec(w, Publish(p, x)), id)
  {
    hide IsSlug;
  }

  lemma OtherStepsKeepRecords(w: World, a: Action)
    requires Enabled(w, a)
    requires !(a.Replace? || a.Migrate? || a.ClearMarker? || a.LegacyMark? || a.Publish?)
    ensures Exec(w, a).records == w.records && Exec(w, a).history == w.history
  {
  }

  lemma ReplaceIsRecorded(w: World, p: Proc, input: Input, id: string)
    requires Inv(w) && CanReplace(w, p, input) && id in w.records && id in w.history
    ensures Recorded(w, Replaced(w, p, input), id)
  {
    hide Inv, IsSlug, Plan, Replaced;
    ReplaceMakesChange(w, p, input);
    ReplacedFields(w, p, input);
    var x := Subject(w.pcs[p].task).value;
    if id == x {
      KnownHistory(w, id);
      var g := Replaced(w, p, input).history[id];
      assert g[..|g| - 1] == w.history[id];
    }
  }

  lemma KnownHistory(w: World, id: string)
    requires Inv(w) && id in w.records
    ensures id in w.history
  {
  }

  lemma ReplacedFields(w: World, p: Proc, input: Input)
    requires CanReplace(w, p, input)
    ensures var x := Subject(w.pcs[p].task).value;
            var c := Plan(w.pcs[p].task, w.pcs[p].phase, w.records[x], input).value;
            var v := Replaced(w, p, input);
            && v.records == w.records[x := Changed(w.records[x], c)]
            && v.history == w.history[x := (if x in w.history then w.history[x] else []) + [c.event]]
  {
  }

  lemma ReplaceMakesChange(w: World, p: Proc, input: Input)
    requires Inv(w) && CanReplace(w, p, input)
    ensures var x := Subject(w.pcs[p].task).value;
            var c := Plan(w.pcs[p].task, w.pcs[p].phase, w.records[x], input).value;
            && Allowed(w.records[x].state, c.target) && Target(c.event) == Some(c.target)
            && w.records[x].state != c.target
  {
    ChangedRequestOk(w, p, input);
  }

  lemma MigrateIsRecorded(w: World, p: Proc, id: string)
    requires CanMigrate(w, p) && id in w.records && id in w.history
    ensures Recorded(w, BitMigrated(w, p), id)
  {
    var v := BitMigrated(w, p);
    var x := Subject(w.pcs[p].task).value;
    if id == x {
      var g := v.history[id];
      assert g[..|g| - 1] == w.history[id];
    }
  }

  lemma TerminalStays(w: World, v: World, id: string)
    requires id in w.records && Recorded(w, v, id) && !HasContent(w.records[id].state)
    ensures id in v.records && v.records[id].state == w.records[id].state
    ensures v.records[id].number == w.records[id].number && v.records[id].url == w.records[id].url
  {
  }

  lemma NoContentLeft(w: World, id: string)
    requires Inv(w) && id in w.records && !HasContent(w.records[id].state)
    ensures w.records[id].issue.None?
  {
    hide Inv, IsSlug, TrailOk, HistoryOk;
    RecordOk(w, id);
  }

  // A request that was created, rejected or expired stays so, without content.
  lemma {:induction false} TerminalForever(w: World, acts: seq<Action>, v: World, id: string)
    requires Inv(w) && Run(w, acts, v) && id in w.records && !HasContent(w.records[id].state)
    ensures id in v.records && v.records[id].state == w.records[id].state && v.records[id].issue.None?
    ensures v.records[id].number == w.records[id].number && v.records[id].url == w.records[id].url
    decreases |acts|
  {
    hide Inv, Enabled, Exec, Recorded;
    NoContentLeft(w, id);
    if acts != [] {
      StepIsRecorded(w, acts[0], id);
      TerminalStays(w, Exec(w, acts[0]), id);
      StepKeepsInv(w, acts[0]);
      TerminalForever(Exec(w, acts[0]), acts[1..], v, id);
    }
  }

  // ---- At most one POST, unless an operator says there was none ----

  lemma PostsAreBounded(v: World, id: string)
    requires Reachable(v) && id in v.records
    ensures id in v.history
    ensures var h := v.history[id];
            var begun := set i | 0 <= i < |v.posts| && v.posts[i].request == id;
            var released := set i | 0 <= i < |h| && h[i].operation.ResolveNotCreated?
                                    && h[i].status == Reached(State.Pending);
            && |begun| <= 1 + |released|
            && (v.records[id].state in {State.Pending, State.Rejected, State.Expired} ==> |begun| <= |released|)
  {
    ReachableInv(v);
    RecordOk(v, id);
    hide Reachable, Inv, Releases, PostsFor;
    PostsCountedAll(v.posts, id);
    ReleasesCountedAll(v.history[id]);
  }

  lemma {:induction false} PostsCounted(posts: seq<Post>, id: string, n: nat)
    requires n <= |posts|
    ensures PostsFor(posts[..n], id) == |set i | 0 <= i < n && posts[i].request == id|
  {
    var begun := set i | 0 <= i < n && posts[i].request == id;
    if n == 0 {
      assert begun == {};
    } else {
      PostsCounted(posts, id, n - 1);
      PostsForAppend(posts[..n - 1], posts[n - 1], id);
      hide PostsFor;
      assert posts[..n] == posts[..n - 1] + [posts[n - 1]];
      var earlier := set i | 0 <= i < n - 1 && posts[i].request == id;
      OneMoreIndex(earlier, begun, n - 1, posts[n - 1].request == id);
    }
  }

  lemma {:induction false} ReleasesCounted(h: seq<Event>, n: nat)
    requires n <= |h|
    ensures Releases(h[..n]) == |set i | 0 <= i < n && h[i].operation.ResolveNotCreated?
                                         && h[i].status == Reached(State.Pending)|
  {
    var released := set i | 0 <= i < n && h[i].operation.ResolveNotCreated? && h[i].status == Reached(State.Pending);
    if n == 0 {
      assert released == {};
    } else {
      ReleasesCounted(h, n - 1);
      ReleasesAppend(h[..n - 1], h[n - 1]);
      hide Releases;
      assert h[..n] == h[..n - 1] + [h[n - 1]];
      var earlier := set i | 0 <= i < n - 1 && h[i].operation.ResolveNotCreated?
                             && h[i].status == Reached(State.Pending);
      OneMoreIndex(earlier, released, n - 1, IsRelease(h[n - 1]));
    }
  }

  lemma PostsCountedAll(posts: seq<Post>, id: string)
    ensures PostsFor(posts, id) == |set i | 0 <= i < |posts| && posts[i].request == id|
  {
    PostsCounted(posts, id, |posts|);
    assert posts[..|posts|] == posts;
  }

  lemma ReleasesCountedAll(h: seq<Event>)
    ensures Releases(h) == |set i | 0 <= i < |h| && h[i].operation.ResolveNotCreated?
                                    && h[i].status == Reached(State.Pending)|
  {
    ReleasesCounted(h, |h|);
    assert h[..|h|] == h;
  }

  lemma OneMoreIndex(some: set<int>, more: set<int>, n: int, there: bool)
    requires forall i :: i in some ==> i < n
    requires forall i :: i in more <==> (i in some || (there && i == n))
    ensures |more| == |some| + if there then 1 else 0
  {
    if there {
      forall i ensures i in more <==> i in some + {n} {
      }
      assert more == some + {n};
    } else {
      forall i ensures i in more <==> i in some {
      }
      assert more == some;
    }
  }

  // Every POST had an audited SENDING before it, and sent to the displayed
  // repository the displayed content, which is what intake had stored.
  lemma PostsWereAuditedAndShown(v: World, i: nat)
    requires Reachable(v) && i < |v.posts|
    ensures var x := v.posts[i];
            && x.request in v.submitted && x.issue == v.submitted[x.request]
            && Prompt(x.p, x.request, x.issue, x.binding) in v.prompts
            && x.at <= |v.audit|
            && var told := Told(v.audit[..x.at], x.request);
               && told != [] && told[|told| - 1].operation.Approve?
               && told[|told| - 1].status == Reached(State.Sending)
  {
    hide *;
    ReachableInv(v);
    PostFact(v, i);
  }

  lemma PostFact(v: World, i: nat)
    requires Inv(v) && i < |v.posts|
    ensures var x := v.posts[i];
            && x.request in v.submitted && x.issue == v.submitted[x.request]
            && Prompt(x.p, x.request, x.issue, x.binding) in v.prompts
            && x.at <= |v.audit|
            && var told := Told(v.audit[..x.at], x.request);
               && told != [] && told[|told| - 1].operation.Approve?
               && told[|told| - 1].status == Reached(State.Sending)
  {
    hide IdsOk, PcsOk, AuditOk, IsSlug, LockOk, LockHeld, Told;
    assert PostOk(v, v.posts[i]);
    hide PostsOk, Inv;
  }

  // A POST begins only while its record is durably SENDING with a complete audit.
  lemma PostNeedsSending(w: World, p: Proc)
    requires Reachable(w) && CanPost(w, p)
    ensures var id := w.pcs[p].task.id;
            && id in w.records && w.records[id].state.Sending? && w.records[id].auditEvent.None?
            && w.records[id].issue == w.pcs[p].task.snapshot.issue
  {
    ReachableInv(w);
    PcFact(w, p);
    RecordOk(w, w.pcs[p].task.id);
  }

  // ---- A live sender owns its record ----

  predicate LiveSender(w: World, p: Proc, id: string) {
    && Holds(w, p) && w.pcs[p].task.Approval? && w.pcs[p].task.id == id
    && id in w.records && w.records[id].state.Sending?
  }

  function Actor(a: Action): Option<Proc> {
    match a
    case Note(_) => None
    case Rebind(_) => None
    case _ => Some(a.p)
  }

  // No step of anybody else touches a record that a living process is sending.
  lemma OnlyTheSenderMoves(w: World, a: Action, p: Proc, id: string)
    requires Reachable(w) && Enabled(w, a) && LiveSender(w, p, id) && Actor(a) != Some(p)
    ensures var v := Exec(w, a);
            LiveSender(v, p, id) && v.records[id] == w.records[id] && v.pcs[p] == w.pcs[p] && v.posts == w.posts
  {
    ReachableInv(w);
    hide IdsOk, PcsOk, PostsOk, AuditOk, IsSlug, Plan;
    if Actor(a).Some? {
      OthersWait(w, a, p, id);
    }
  }

  lemma OthersWait(w: World, a: Action, p: Proc, id: string)
    requires LockOk(w) && Enabled(w, a) && Holds(w, p) && Actor(a).Some? && Actor(a) != Some(p)
    ensures var v := Exec(w, a);
            v.records == w.records && p in v.pcs && v.pcs[p] == w.pcs[p] && v.posts == w.posts && v.lock == w.lock
  {
    hide Plan;
    assert w.lock == Some(p);
    assert !Holds(w, Actor(a).value);
  }

  // So whatever but an approval changes a SENDING record - recovery, as it is or as
  // an earlier release did it, intake, or any other command - finds its sender gone.
  lemma RecoveryFindsNoSender(w: World, a: Action, q: Proc, p: Proc, id: string)
    requires Reachable(w) && Enabled(w, a) && Actor(a) == Some(q) && id in w.records && w.records[id].state.Sending?
    requires id !in Exec(w, a).records || Exec(w, a).records[id] != w.records[id]
    requires Holds(w, q) ==> !w.pcs[q].task.Approval?
    ensures !LiveSender(w, p, id)
  {
    hide Reachable, Enabled, Exec;
    if LiveSender(w, p, id) {
      OnlyTheSenderMoves(w, a, p, id);
    }
  }

  // ---- Content ----

  lemma ContentIsBoundedAndFixed(v: World, id: string)
    requires Reachable(v) && id in v.records
    ensures |set x | x in v.records && v.records[x].issue.Some?| <= 10
    ensures id in v.submitted
    ensures v.records[id].issue
            == if v.records[id].state in {State.Pending, State.Sending, State.Unknown} then Some(v.submitted[id])
               else None
  {
    ReachableInv(v);
    hide Reachable, Inv;
    UnfinishedInInv(v);
    forall x | x in v.records ensures ContentOk(v, x) {
      ContentOf(v, x);
    }
    assert (set x | x in v.records && v.records[x].issue.Some?) == Unfinished(v.records);
  }

  // A record holds what was submitted in the three states that need it, and only there.
  predicate ContentOk(v: World, x: string)
    requires x in v.records
  {
    && x in v.submitted
    && (x in Unfinished(v.records) <==> v.records[x].state in {State.Pending, State.Sending, State.Unknown})
    && v.records[x].issue == if x in Unfinished(v.records) then Some(v.submitted[x]) else None
  }

  lemma ContentOf(v: World, x: string)
    requires Inv(v) && x in v.records
    ensures ContentOk(v, x)
  {
    RecordOk(v, x);
    hide Inv, HistoryOk, TrailOk, Told;
  }

  lemma UnfinishedInInv(v: World)
    requires Inv(v)
    ensures |Unfinished(v.records)| <= 10
  {
    hide IdsOk, PcsOk, PostsOk, AuditOk;
  }

  // What intake stored for a request never changes afterwards.
  lemma {:induction false} SubmissionIsFinal(w: World, acts: seq<Action>, v: World, id: string)
    requires Inv(w) && Run(w, acts, v) && id in w.submitted
    ensures id in v.submitted && v.submitted[id] == w.submitted[id]
    decreases |acts|
  {
    if acts != [] {
      SubmissionsGrow(w, acts[0], id);
      hide Inv, Enabled, Exec;
      StepKeepsInv(w, acts[0]);
      SubmissionIsFinal(Exec(w, acts[0]), acts[1..], v, id);
    }
  }

  lemma SubmissionsGrow(w: World, a: Action, id: string)
    requires Inv(w) && Enabled(w, a) && id in w.submitted
    ensures id in Exec(w, a).submitted && Exec(w, a).submitted[id] == w.submitted[id]
  {
    hide Inv, Enabled, Exec;
    SubmittedIsRecorded(w, id);
    match a {
      case Publish(p, x) => PublishKeepsSubmissions(w, p, x, id);
      case _ => OtherStepsKeepSubmissions(w, a);
    }
  }

  lemma PublishKeepsSubmissions(w: World, p: Proc, x: string, id: string)
    requires Enabled(w, Publish(p, x)) && id in w.records && id in w.submitted
    ensures id in Exec(w, Publish(p, x)).submitted && Exec(w, Publish(p, x)).submitted[id] == w.submitted[id]
  {
    hide IsSlug;
  }

  lemma SubmittedIsRecorded(w: World, id: string)
    requires Inv(w) && id in w.submitted
    ensures id in w.records
  {
    hide PcsOk, PostsOk, AuditOk, IsSlug, IdOk;
  }

  lemma OtherStepsKeepSubmissions(w: World, a: Action)
    requires Enabled(w, a) && !a.Publish?
    ensures Exec(w, a).submitted == w.submitted
  {
    hide Plan, IsSlug;
  }
}
