/**
  One intake run: who may call it, and what a call may do
  (src/agent_container/family_intake_broker.py:26-27, 100-309).
 */
module IntakeSession {
  import opened Wrappers
  import opened PendingRecord
  import opened IssueRendering

  const MAX_PROCESS_DEPTH := 64

  datatype Identity = Identity(parent: int, start: int, uid: int)

  // What reading a process gives at each moment; `None` when it cannot be read.
  type Observations = (nat, int) -> Option<Identity>

  predicate IdentityOk(p: Identity) {
    p.parent >= 0 && p.start > 0 && p.uid >= 0
  }

  datatype Root = Root(pid: int, start: int)

  // ---- The chain of parents ----

  // One step of the walk: `p` belongs to the owner, and is the root or has a
  // parent to go on with.
  predicate StepOk(pid: int, p: Identity, root: Root, owner: int) {
    && IdentityOk(p) && p.uid == owner
    && if pid == root.pid then p.start == root.start else p.parent > 0 && p.parent != pid
  }

  // `path` leads from `pid` along the parents in `seen` to the root.
  predicate Chain(path: seq<int>, seen: seq<Identity>, pid: int, root: Root, owner: int) {
    && 1 <= |path| == |seen| <= MAX_PROCESS_DEPTH
    && path[0] == pid && path[|path| - 1] == root.pid
    && (forall i :: 0 <= i < |path| ==> StepOk(path[i], seen[i], root, owner))
    && (forall i :: 0 <= i < |path| - 1 ==> path[i] != root.pid && path[i + 1] == seen[i].parent)
  }

  // `seen` is what `observe` shows of `path` at one moment after the other from `start`.
  predicate SeenFrom(observe: Observations, start: nat, path: seq<int>, seen: seq<Identity>)
    requires |path| == |seen|
  {
    forall i :: 0 <= i < |path| ==> observe(start + i, path[i]) == Some(seen[i])
  }

  // The process table does not change.
  ghost predicate Stable(observe: Observations) {
    forall n: nat, m: nat, pid :: observe(n, pid) == observe(m, pid)
  }

  // Under a stable table a chain that ends at the root visits no process twice:
  // a repeat would go round for ever.
  lemma {:induction false} NoRepeats(observe: Observations, path: seq<int>, seen: seq<Identity>, pid: int, root: Root,
                                     owner: int, i: nat, j: nat)
    requires Stable(observe) && Chain(path, seen, pid, root, owner) && SeenFrom(observe, 0, path, seen)
    requires i < j < |path|
    ensures path[i] != path[j]
    decreases |path| - j
  {
    if path[i] == path[j] && j < |path| - 1 {
      assert observe(0 + i, path[i]) == observe(0 + j, path[j]);
      assert seen[i] == seen[j];
      NoRepeats(observe, path, seen, pid, root, owner, i + 1, j + 1);
    }
  }

  // ---- Sessions ----

  // A reader of processes, and how often it has been asked.
  class ProcessReader {
    const observe: Observations
    var calls: nat

    constructor (observe: Observations)
      ensures this.observe == observe && calls == 0
    {
      this.observe := observe;
      calls := 0;
    }

    // `_read_process`; `None` denies.
    method Read(pid: int) returns (r: Option<Identity>)
      modifies this
      ensures calls == old(calls) + 1
      ensures r == match observe(old(calls), pid)
                   case Some(p) => if IdentityOk(p) then Some(p) else None
                   case None => None
    {
      r := observe(calls, pid);
      calls := calls + 1;
      if r.Some? && !IdentityOk(r.value) {
        r := None;
      }
    }
  }

  datatype IntakeRequest = IntakeRequest(version: int, operation: string, capability: string, encodes: bool,
      draft: Option<Draft>)

  // How `create_pending` ends.
  datatype Persisted = Stored(id: string, expiresAt: nat) | AtCapacity | Failed

  datatype Response = Granted(id: string, expiresAt: nat) | Rebuffed | InternalError

  // What a request's draft becomes before the session looks at anything else.
  function CanonicalOf(request: IntakeRequest, author: Author, inline: Inline): Result<Issue> {
    if !request.encodes || request.draft.None? then Refused
    else Canonical(request.draft.value, Some(author), inline)
  }

  class FamilyIntakeSession {
    const expiresAt: nat
    const author: Author
    const owner: int
    var capability: string
    var consumed: bool
    var active: bool
    var failed: bool
    var registrationAttempted: bool
    var runtimeRoot: Option<Root>
    ghost var attempts: seq<Issue>

    // At most one Issue is ever handed to the store, and only by consuming the
    // capability; a failed session is closed, and a closed one has none.
    ghost predicate Valid()
      reads this
    {
      && |attempts| <= 1 && (attempts != [] ==> consumed)
      && (failed ==> !active) && (!active ==> capability == "")
      && (runtimeRoot.Some? ==> registrationAttempted && runtimeRoot.value.pid > 0)
    }

    constructor (capability: string, expiresAt: nat, author: Author, owner: nat)
      ensures Valid() && active && !consumed && !failed && attempts == [] && runtimeRoot.None?
      ensures this.capability == capability && this.expiresAt == expiresAt && this.author == author
              && this.owner == owner
    {
      this.capability := capability;
      this.expiresAt := expiresAt;
      this.author := author;
      this.owner := owner;
      consumed, active, failed, registrationAttempted := false, true, false, false;
      runtimeRoot := None;
      attempts := [];
    }

    // `register_runtime`: once, by a process seen twice the same.
    method RegisterRuntime(pid: int, reader: ProcessReader) returns (ok: bool)
      requires Valid()
      modifies this`registrationAttempted, this`runtimeRoot, reader
      ensures Valid()
      ensures var first, second := reader.observe(old(reader.calls), pid), reader.observe(old(reader.calls) + 1, pid);
              && (ok <==>
                    && active && !consumed && !old(registrationAttempted) && pid > 0
                    && first.Some? && first == second
                    && first.value.parent >= 0 && first.value.start > 0 && first.value.uid == owner >= 0)
              && (ok ==> runtimeRoot == Some(Root(pid, first.value.start)))
      ensures !ok ==> runtimeRoot == old(runtimeRoot)
      ensures registrationAttempted == (old(registrationAttempted) || (active && !consumed && pid > 0))
    {
      if !active || consumed || registrationAttempted || pid <= 0 {
        return false;
      }
      registrationAttempted := true;
      var first := reader.Read(pid);
      if first.None? {
        return false;
      }
      var second := reader.Read(pid);
      if second.None? || first != second || first.value.uid != owner {
        return false;
      }
      runtimeRoot := Some(Root(pid, first.value.start));
      return true;
    }

    // `handle`.  `bound` says that the binding loads and `persisted` how
    // `create_pending` would end.  The capability is spent before the first attempt
    // to persist, so no second one follows, whatever became of it; what is persisted
    // is the canonical form of the request's own draft, signed by this session.
    method Handle(request: IntakeRequest, now: int, bound: bool, persisted: Persisted, inline: Inline)
      returns (r: Response)
      requires Valid()
      modifies this`consumed, this`failed, this`active, this`capability, this`attempts
      ensures Valid()
      ensures var issue := if request.encodes && request.draft.Some?
                           then Canonical(request.draft.value, Some(author), inline) else Refused;
              var attempt := issue.Ok? && now >= 0 && bound
                             && old(active) && runtimeRoot.Some? && !old(consumed) && now < expiresAt
                             && request.version == 1 && request.operation == "issue_create_request"
                             && request.capability == old(capability);
              && attempts == (if attempt then old(attempts) + [issue.value] else old(attempts))
              && consumed == (old(consumed) || attempt)
              && failed == (old(failed) || (issue.Ok? && (now < 0 || (attempt && persisted.Failed?))))
              && active == (old(active) && !(issue.Ok? && (now < 0 || (attempt && persisted.Failed?))))
              && capability == (if old(active) && !active then "" else old(capability))
              && r == (if issue.Refused? then Rebuffed
                       else if now < 0 then InternalError
                       else if !attempt || persisted.AtCapacity? then Rebuffed
                       else if persisted.Failed? then InternalError
                       else Granted(persisted.id, persisted.expiresAt))
    {
      hide Canonical;
      var issue := CanonicalOf(request, author, inline);
      if issue.Refused? {
        return Rebuffed;
      }
      if now < 0 {
        failed, active, capability := true, false, "";
        return InternalError;
      }
      if !active || runtimeRoot.None? || consumed || now >= expiresAt || request.version != 1
         || request.operation != "issue_create_request" || request.capability != capability
      {
        return Rebuffed;
      }
      if !bound {
        return Rebuffed;
      }
      consumed := true;
      attempts := attempts + [issue.value];
      match persisted {
        case AtCapacity =>
          return Rebuffed;
        case Failed =>
          failed, active, capability := true, false, "";
          return InternalError;
        case Stored(id, expires) =>
          return Granted(id, expires);
      }
    }

    // `deactivate`.
    method Deactivate()
      requires Valid()
      modifies this`active, this`capability
      ensures Valid() && !active
    {
      active, capability := false, "";
    }

    // `validate_peer`.  A peer that is let in was linked to the registered root by
    // processes each of which was seen the same before and after one moment.
    // While processes do not change, exactly the peers with such a chain get in.
    method ValidatePeer(pid: int, uid: int, reader: ProcessReader)
      returns (ok: bool, ghost path: seq<int>, ghost seen: seq<Identity>)
      requires Valid()
      modifies reader
      ensures ok ==>
                && active && runtimeRoot.Some? && uid == owner && 1 <= |path| == |seen| <= 64 && path[0] == pid
                && Root(path[|path| - 1], seen[|path| - 1].start) == runtimeRoot.value
                && (forall i :: 0 <= i < |path| ==> reader.observe(old(reader.calls) + i, path[i]) == Some(seen[i]))
                && (forall i :: 0 <= i < |path| ==>
                      reader.observe(old(reader.calls) + |path| + i, path[i]) == Some(seen[i]))
                && (forall i :: 0 <= i < |path| ==>
                      seen[i].parent >= 0 && seen[i].start > 0 && seen[i].uid == owner >= 0)
                && (forall i :: 0 <= i < |path| - 1 ==>
                      path[i] != runtimeRoot.value.pid && path[i] != path[i + 1] == seen[i].parent > 0)
      ensures forall chain: seq<int>, shown: seq<Identity> ::
                && Stable(reader.observe) && active && runtimeRoot.Some? && uid == owner && pid > 0
                && 1 <= |chain| == |shown| <= 64 && chain[0] == pid
                && Root(chain[|chain| - 1], shown[|chain| - 1].start) == runtimeRoot.value
                && (forall i :: 0 <= i < |chain| ==>
                      && reader.observe(0, chain[i]) == Some(shown[i])
                      && shown[i].parent >= 0 && shown[i].start > 0 && shown[i].uid == owner >= 0)
                && (forall i :: 0 <= i < |chain| - 1 ==>
                      chain[i] != runtimeRoot.value.pid && chain[i] != chain[i + 1] == shown[i].parent > 0)
                ==> ok
    {
      hide *;
      path, seen := [], [];
      if !active || runtimeRoot.None? || pid <= 0 || uid != owner {
        return false, path, seen;
      }
      ok, path, seen := FollowParents(pid, runtimeRoot.value, owner, reader);
      if ok {
        ChainInFields(reader.observe, old(reader.calls), path, seen, pid, runtimeRoot.value, owner);
        return;
      }
      AllAreAdmitted(reader.observe, pid, runtimeRoot.value, owner, ok);
    }
  }

  // The walk along the parents and the second look.
  method FollowParents(pid: int, root: Root, owner: int, reader: ProcessReader)
    returns (ok: bool, ghost path: seq<int>, ghost seen: seq<Identity>)
    modifies reader
    ensures ok ==>
              && Chain(path, seen, pid, root, owner)
              && SeenFrom(reader.observe, old(reader.calls), path, seen)
              && SeenFrom(reader.observe, old(reader.calls) + |path|, path, seen)
    ensures Stable(reader.observe) ==> (ok <==> Reaches(reader.observe, pid, root, owner))
  {
    path, seen := [], [];
    hide Chain, Stable, Reaches, Walk, Recorded, Guide, SeenFrom;
    var snapshots: map<int, Identity> := map[];
    var order: seq<int> := [];
    var current := pid;
    var found := false;
    ghost var start, observe := reader.calls, reader.observe;
    ghost var chain, shown := GuideOf(observe, pid, root, owner);
    ghost var expected := chain != [];
    StartWalk(observe, start, pid, root, owner);
    while |order| < MAX_PROCESS_DEPTH && !found
      invariant |order| == |seen| <= MAX_PROCESS_DEPTH && reader.calls == start + |order|
      invariant Recorded(snapshots, order, seen)
      invariant Walk(observe, start, order, seen, pid, root, owner, current, found)
      invariant expected ==> Guide(observe, order, chain, shown, pid, root, owner, current, found)
      decreases MAX_PROCESS_DEPTH - |order|
    {
      if expected {
        GuideStep(observe, order, seen, snapshots, chain, shown, pid, root, owner, current, reader.calls);
      }
      if current in snapshots {
        return false, path, seen;
      }
      var identity := reader.Read(current);
      if identity.None? || identity.value.uid != owner {
        return false, path, seen;
      }
      var p := identity.value;
      if (current == root.pid && p.start != root.start)
        || (current != root.pid && (p.parent <= 0 || p.parent == current)) {
        return false, path, seen;
      }
      RecordOne(snapshots, order, seen, current, p);
      WalkOn(observe, start, order, seen, pid, root, owner, current, p);
      snapshots := snapshots[current := p];
      order, seen := order + [current], seen + [p];
      if current == root.pid {
        found := true;
      } else {
        current := p.parent;
      }
    }
    if !found {
      if expected {
        GuideGoesOn(observe, order, chain, shown, pid, root, owner, current);
      }
      return false, path, seen;
    }
    WalkEnds(observe, start, order, seen, pid, root, owner, current);
    ok := SameAgain(order, snapshots, seen, reader);
    ReachesIfStable(observe, start, order, seen, pid, root, owner);
    if expected {
      StillSeenAll(observe, start, order, seen, start + |order|, pid, root, owner);
    }
    return ok, order, seen;
  }

  lemma ChainInFields(observe: Observations, start: nat, path: seq<int>, seen: seq<Identity>, pid: int, root: Root,
                      owner: int)
    requires Chain(path, seen, pid, root, owner)
    requires SeenFrom(observe, start, path, seen) && SeenFrom(observe, start + |path|, path, seen)
    ensures 1 <= |path| == |seen| <= 64 && path[0] == pid
    ensures Root(path[|path| - 1], seen[|path| - 1].start) == root
    ensures forall i :: 0 <= i < |path| ==> observe(start + i, path[i]) == Some(seen[i])
    ensures forall i :: 0 <= i < |path| ==> observe(start + |path| + i, path[i]) == Some(seen[i])
    ensures forall i :: 0 <= i < |path| ==> seen[i].parent >= 0 && seen[i].start > 0 && seen[i].uid == owner >= 0
    ensures forall i :: 0 <= i < |path| - 1 ==> path[i] != root.pid && path[i] != path[i + 1] == seen[i].parent > 0
  {
    assert StepOk(path[|path| - 1], seen[|path| - 1], root, owner);
  }

  lemma AllAreAdmitted(observe: Observations, pid: int, root: Root, owner: int, ok: bool)
    requires Stable(observe) ==> (ok <==> Reaches(observe, pid, root, owner))
    ensures forall chain: seq<int>, shown: seq<Identity> ::
              && Stable(observe) && 1 <= |chain| == |shown| <= 64 && chain[0] == pid
              && Root(chain[|chain| - 1], shown[|chain| - 1].start) == root
              && (forall i :: 0 <= i < |chain| ==>
                    && observe(0, chain[i]) == Some(shown[i])
                    && shown[i].parent >= 0 && shown[i].start > 0 && shown[i].uid == owner >= 0)
              && (forall i :: 0 <= i < |chain| - 1 ==>
                    chain[i] != root.pid && chain[i] != chain[i + 1] == shown[i].parent > 0)
              ==> ok
  {
    forall chain: seq<int>, shown: seq<Identity> |
      && Stable(observe) && 1 <= |chain| == |shown| <= 64 && chain[0] == pid
      && Root(chain[|chain| - 1], shown[|chain| - 1].start) == root
      && (forall i :: 0 <= i < |chain| ==>
            && observe(0, chain[i]) == Some(shown[i])
            && shown[i].parent >= 0 && shown[i].start > 0 && shown[i].uid == owner >= 0)
      && (forall i :: 0 <= i < |chain| - 1 ==>
            chain[i] != root.pid && chain[i] != chain[i + 1] == shown[i].parent > 0)
      ensures ok
    {
      ReachesBy(observe, chain, shown, pid, root, owner);
    }
  }

  lemma ReachesBy(observe: Observations, path: seq<int>, seen: seq<Identity>, pid: int, root: Root, owner: int)
    requires Stable(observe) && 1 <= |path| == |seen| <= 64 && path[0] == pid
    requires Root(path[|path| - 1], seen[|path| - 1].start) == root
    requires forall i :: 0 <= i < |path| ==>
               && observe(0, path[i]) == Some(seen[i])
               && seen[i].parent >= 0 && seen[i].start > 0 && seen[i].uid == owner >= 0
    requires forall i :: 0 <= i < |path| - 1 ==> path[i] != root.pid && path[i] != path[i + 1] == seen[i].parent > 0
    ensures Reaches(observe, pid, root, owner)
  {
    forall i: nat | i < |path| ensures observe(0 + i, path[i]) == Some(seen[i]) {
      assert observe(0 + i, path[i]) == observe(0, path[i]);
    }
    forall i | 0 <= i < |path| ensures StepOk(path[i], seen[i], root, owner) {
      if i < |path| - 1 {
        assert path[i] != path[i + 1];
      }
    }
    assert SeenFrom(observe, 0, path, seen) && Chain(path, seen, pid, root, owner);
  }

  lemma ReachesIfStable(observe: Observations, start: nat, order: seq<int>, seen: seq<Identity>, pid: int, root: Root,
                        owner: int)
    requires Chain(order, seen, pid, root, owner) && SeenFrom(observe, start, order, seen)
    ensures Stable(observe) ==> Reaches(observe, pid, root, owner)
  {
    if Stable(observe) {
      forall i: nat | i < |order| ensures observe(0 + i, order[i]) == Some(seen[i]) {
        assert observe(start + i, order[i]) == observe(0 + i, order[i]);
      }
      assert SeenFrom(observe, 0, order, seen);
    }
  }

  // The second look at every process on the way.
  method SameAgain(order: seq<int>, snapshots: map<int, Identity>, ghost seen: seq<Identity>, reader: ProcessReader)
    returns (ok: bool)
    requires Recorded(snapshots, order, seen)
    modifies reader
    ensures ok ==> SeenFrom(reader.observe, old(reader.calls), order, seen)
    ensures !ok ==> exists i: nat :: i < |order| && !SeenAt(reader.observe, old(reader.calls) + i, order[i], seen[i])
  {
    for i := 0 to |order|
      invariant reader.calls == old(reader.calls) + i
      invariant forall k :: 0 <= k < i ==> reader.observe(old(reader.calls) + k, order[k]) == Some(seen[k])
    {
      var again := reader.Read(order[i]);
      if again != Some(snapshots[order[i]]) {
        assert !SeenAt(reader.observe, old(reader.calls) + i, order[i], seen[i]);
        return false;
      }
    }
    return true;
  }

  predicate SeenAt(observe: Observations, now: nat, pid: int, p: Identity) {
    observe(now, pid) == Some(p) && IdentityOk(p)
  }

  // ---- The walk, step by step ----

  // `order` and `seen` so far, and the process to look at next unless the root is
  // `found`.
  ghost predicate Walk(observe: Observations, start: nat, order: seq<int>, seen: seq<Identity>, pid: int, root: Root,
                       owner: int,
                       current: int, found: bool)
  {
    && |order| == |seen| && SeenFrom(observe, start, order, seen)
    && (forall i :: 0 <= i < |order| ==> StepOk(order[i], seen[i], root, owner))
    && (order == [] ==> current == pid && !found) && (order != [] ==> order[0] == pid)
    && (forall i :: 0 <= i < |order| - 1 ==> order[i] != root.pid && order[i + 1] == seen[i].parent)
    && (found ==> order[|order| - 1] == root.pid)
    && (!found && order != [] ==> order[|order| - 1] != root.pid && current == seen[|order| - 1].parent)
  }

  lemma StartWalk(observe: Observations, start: nat, pid: int, root: Root, owner: int)
    ensures Walk(observe, start, [], [], pid, root, owner, pid, false) && Recorded(map[], [], [])
  {
  }

  lemma WalkOn(observe: Observations, start: nat, order: seq<int>, seen: seq<Identity>, pid: int, root: Root,
               owner: int,
               current: int, p: Identity)
    requires Walk(observe, start, order, seen, pid, root, owner, current, false)
    requires observe(start + |order|, current) == Some(p) && StepOk(current, p, root, owner)
    ensures Walk(observe, start, order + [current], seen + [p], pid, root, owner,
                 if current == root.pid then current else p.parent, current == root.pid)
  {
    hide StepOk;
  }

  lemma WalkEnds(observe: Observations, start: nat, order: seq<int>, seen: seq<Identity>, pid: int, root: Root,
                 owner: int, current: int)
    requires Walk(observe, start, order, seen, pid, root, owner, current, true) && |order| <= MAX_PROCESS_DEPTH
    ensures Chain(order, seen, pid, root, owner) && SeenFrom(observe, start, order, seen)
  {
  }

  // The snapshots hold what was seen of each process on the way.
  ghost predicate Recorded(snapshots: map<int, Identity>, order: seq<int>, seen: seq<Identity>) {
    && |order| == |seen|
    && (forall i :: 0 <= i < |order| ==> order[i] in snapshots && snapshots[order[i]] == seen[i])
    && (forall pid :: pid in snapshots ==> pid in order)
  }

  lemma RecordOne(snapshots: map<int, Identity>, order: seq<int>, seen: seq<Identity>, current: int, p: Identity)
    requires Recorded(snapshots, order, seen) && current !in snapshots
    ensures Recorded(snapshots[current := p], order + [current], seen + [p])
  {
    assert (order + [current])[|order|] == current;
    forall pid | pid in snapshots[current := p] ensures pid in order + [current] {
      assert pid == current || pid in order;
    }
  }

  lemma StillSeenAll(observe: Observations, start: nat, order: seq<int>, seen: seq<Identity>, now: nat,
                     pid: int, root: Root, owner: int)
    requires Stable(observe) && Chain(order, seen, pid, root, owner) && SeenFrom(observe, start, order, seen)
    ensures forall i: nat :: i < |order| ==> SeenAt(observe, now + i, order[i], seen[i])
  {
    forall i: nat | i < |order| ensures SeenAt(observe, now + i, order[i], seen[i]) {
      assert observe(start + i, order[i]) == observe(now + i, order[i]);
      assert StepOk(order[i], seen[i], root, owner);
    }
  }

  // ---- Why a chain is found ----

  // The walk so far has followed a chain that exists.
  ghost predicate Guide(observe: Observations, order: seq<int>, chain: seq<int>, shown: seq<Identity>,
                        pid: int, root: Root, owner: int, current: int, found: bool)
  {
    && Stable(observe) && Chain(chain, shown, pid, root, owner) && SeenFrom(observe, 0, chain, shown)
    && order <= chain && (found <==> order == chain) && (!found ==> current == chain[|order|])
  }

  lemma GuideOf(observe: Observations, pid: int, root: Root, owner: int) returns (chain: seq<int>, shown: seq<Identity>)
    ensures chain != [] <==> Stable(observe) && Reaches(observe, pid, root, owner)
    ensures chain != [] ==> Guide(observe, [], chain, shown, pid, root, owner, pid, false)
  {
    chain, shown := [], [];
    if Stable(observe) && Reaches(observe, pid, root, owner) {
      chain, shown :| Chain(chain, shown, pid, root, owner) && SeenFrom(observe, 0, chain, shown);
    }
  }

  lemma GuideStep(observe: Observations, order: seq<int>, seen: seq<Identity>, snapshots: map<int, Identity>,
                  chain: seq<int>, shown: seq<Identity>, pid: int, root: Root, owner: int, current: int, now: nat)
    requires Guide(observe, order, chain, shown, pid, root, owner, current, false) && Recorded(snapshots, order, seen)
    ensures Stable(observe) && current !in snapshots
    ensures observe(now, current).Some? && StepOk(current, observe(now, current).value, root, owner)
    ensures var p := observe(now, current).value;
            Guide(observe, order + [current], chain, shown, pid, root, owner,
                  if current == root.pid then current else p.parent, current == root.pid)
  {
    var k := |order|;
    assert order != chain && order == chain[..k] && k < |chain|;
    if current in snapshots {
      var i :| 0 <= i < k && order[i] == current;
      NoRepeats(observe, chain, shown, pid, root, owner, i, k);
    }
    StepOfChain(observe, chain, shown, pid, root, owner, k, now);
    assert order + [current] == chain[..k + 1];
    if k + 1 == |chain| {
      assert chain[..k + 1] == chain;
    }
  }

  lemma GuideGoesOn(observe: Observations, order: seq<int>, chain: seq<int>, shown: seq<Identity>,
                    pid: int, root: Root, owner: int, current: int)
    requires Guide(observe, order, chain, shown, pid, root, owner, current, false)
    ensures |order| < MAX_PROCESS_DEPTH
  {
    assert order != chain && order == chain[..|order|];
  }

  lemma StepOfChain(observe: Observations, path: seq<int>, seen: seq<Identity>, pid: int, root: Root, owner: int,
                    k: nat, now: nat)
    requires Stable(observe) && Chain(path, seen, pid, root, owner) && SeenFrom(observe, 0, path, seen) && k < |path|
    ensures observe(now, path[k]) == Some(seen[k]) && StepOk(path[k], seen[k], root, owner)
    ensures path[k] == root.pid <==> k == |path| - 1
  {
    assert observe(0 + k, path[k]) == observe(now, path[k]);
  }

  // A chain from `pid` to the root exists, in a table that does not change.
  ghost predicate Reaches(observe: Observations, pid: int, root: Root, owner: int) {
    exists path, seen :: Chain(path, seen, pid, root, owner) && SeenFrom(observe, 0, path, seen)
  }
}
