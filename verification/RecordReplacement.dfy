/**
  How a record file is created and replaced, one filesystem operation at a time
  (src/agent_container/family_pending.py:595-711, family_state.py:271-337).
  Every operation may fail, and a crash may follow any of them: `seen` keeps the
  state of the directory after each.
 */
module RecordReplacement {
  import opened Wrappers
  import opened Bytes

  type Inode = nat

  // Names of the directory, contents of the inodes, and the inodes whose
  // contents have reached the disk.
  datatype Fs = Fs(names: map<string, Inode>, bytes: map<Inode, seq<Byte>>, synced: set<Inode>)

  predicate Sane(f: Fs) {
    forall n :: n in f.names ==> f.names[n] in f.bytes
  }

  // ---- Operations ----

  // One system call, with the inode it gets or the bytes it takes; `Inspect` reads
  // only, and `Intrude` is somebody else who ignores the lock.
  datatype Op =
    | Create(name: string, inode: Inode)            // O_CREAT | O_EXCL
    | Append(inode: Inode, part: seq<Byte>)         // os.write
    | Sync(inode: Inode)                            // os.fsync
    | Exchange(a: string, b: string)                // renameat2(RENAME_EXCHANGE)
    | Link(source: string, target: string)          // link(2)
    | Unlink(name: string, inode: Inode)            // `_unlink_owned`: only while it is that inode
    | Inspect
    | Intrude(name: string, inode: Inode, content: seq<Byte>)

  predicate Possible(f: Fs, op: Op) {
    match op
    case Create(name, inode) => name !in f.names && inode !in f.bytes
    case Append(inode, part) => inode in f.bytes && inode !in f.synced && part != []
    case Sync(inode) => inode in f.bytes
    case Exchange(a, b) => a in f.names && b in f.names
    case Link(source, target) => source in f.names && target !in f.names
    case Unlink(_, _) => true
    case Inspect => true
    case Intrude(name, inode, _) => name in f.names && inode !in f.bytes
  }

  function Effect(f: Fs, op: Op): Fs
    requires Possible(f, op)
  {
    match op
    case Create(name, inode) =>
      f.(names := f.names[name := inode], bytes := f.bytes[inode := []], synced := f.synced - {inode})
    case Append(inode, part) => f.(bytes := f.bytes[inode := f.bytes[inode] + part])
    case Sync(inode) => f.(synced := f.synced + {inode})
    case Exchange(a, b) => f.(names := f.names[a := f.names[b]][b := f.names[a]])
    case Link(source, target) => f.(names := f.names[target := f.names[source]])
    case Unlink(name, inode) =>
      if name in f.names && f.names[name] == inode then f.(names := f.names - {name}) else f
    case Inspect => f
    case Intrude(name, inode, content) =>
      f.(names := f.names[name := inode], bytes := f.bytes[inode := content], synced := f.synced - {inode})
  }

  // ---- What happened in a directory ----

  datatype Step = Step(op: Op, ok: bool)

  // The surroundings decide which system calls fail, and when somebody puts a file
  // with which contents under a name.
  datatype World = World(fails: nat -> bool, intrudes: nat -> Option<seq<Byte>>)

  predicate Happens(w: World, k: nat, f: Fs, op: Op) {
    Possible(f, op) && if op.Intrude? then w.intrudes(k) == Some(op.content) else !w.fails(k)
  }

  // Step number `k` leads from `f` to `g`, and it is as the surroundings decide.
  predicate Legal(w: World, k: nat, f: Fs, s: Step, g: Fs) {
    s.ok == Happens(w, k, f, s.op) && g == if s.ok then Effect(f, s.op) else f
  }

  // `seen` are the states before, between and after these steps.
  ghost predicate Traced(w: World, seen: seq<Fs>, steps: seq<Step>) {
    |seen| == |steps| + 1 && forall k: nat :: k < |steps| ==> Legal(w, k, seen[k], steps[k], seen[k + 1])
  }

  lemma TracedMore(w: World, seen: seq<Fs>, steps: seq<Step>, s: Step, g: Fs)
    requires Traced(w, seen, steps) && Legal(w, |steps|, seen[|steps|], s, g)
    ensures Traced(w, seen + [g], steps + [s])
  {
  }

  class Directory {
    const world: World
    var fs: Fs
    var count: nat
    ghost var seen: seq<Fs>
    ghost var steps: seq<Step>

    ghost predicate Valid()
      reads this
    {
      && Sane(fs) && Traced(world, seen, steps)
      && count == |steps| && |seen| == count + 1 && seen[count] == fs
    }

    constructor (names: map<string, Inode>, bytes: map<Inode, seq<Byte>>, world: World)
      requires forall n :: n in names ==> names[n] in bytes
      ensures Valid() && fs == Fs(names, bytes, bytes.Keys) && this.world == world
    {
      this.world := world;
      fs := Fs(names, bytes, bytes.Keys);
      count := 0;
      seen, steps := [Fs(names, bytes, bytes.Keys)], [];
    }

    // One operation, as the surroundings decide.
    method Do(op: Op) returns (ok: bool)
      requires Valid()
      modifies this
      ensures Valid() && steps == old(steps) + [Step(op, ok)] && seen == old(seen) + [fs] && count == old(count) + 1
      ensures ok == Happens(world, old(count), old(fs), op)
      ensures fs == if ok then Effect(old(fs), op) else old(fs)
    {
      ok := Possible(fs, op) && if op.Intrude? then world.intrudes(count) == Some(op.content) else !world.fails(count);
      var after := if ok then Effect(fs, op) else fs;
      TracedMore(world, seen, steps, Step(op, ok), after);
      fs := after;
      seen, steps := seen + [fs], steps + [Step(op, ok)];
      count := count + 1;
    }

    method CreateExclusive(name: string) returns (inode: Option<Inode>)
      requires Valid()
      modifies this
      ensures Valid() && |steps| == |old(steps)| + 1 && steps[..|old(steps)|] == old(steps) && seen == old(seen) + [fs]
      ensures steps[|old(steps)|].op.Create? && count == old(count) + 1
      ensures inode.Some? <==> name !in old(fs).names && !world.fails(old(count))
      ensures inode.None? ==> fs == old(fs)
      ensures inode.Some? ==>
                inode.value !in old(fs).bytes && fs == Effect(old(fs), Create(name, inode.value))
    {
      var i := FreshInode(fs.bytes.Keys);
      var ok := Do(Create(name, i));
      return if ok then Some(i) else None;
    }

    // One `os.write`: any part of what remains, or an error.
    method Write(inode: Inode, remaining: seq<Byte>) returns (written: nat)
      requires Valid() && inode in fs.bytes && inode !in fs.synced && remaining != []
      modifies this
      ensures Valid() && |steps| == |old(steps)| + 1 && steps[..|old(steps)|] == old(steps) && seen == old(seen) + [fs]
      ensures steps[|old(steps)|].op.Append? && count == old(count) + 1
      ensures written <= |remaining| && (written == 0 <==> world.fails(old(count)))
      ensures fs == old(fs).(bytes := old(fs).bytes[inode := old(fs).bytes[inode] + remaining[..written]])
    {
      var n: nat :| 1 <= n <= |remaining|;
      var ok := Do(Append(inode, remaining[..n]));
      written := if ok then n else 0;
      assert old(fs).bytes[inode] + [] == old(fs).bytes[inode];
      assert old(fs).bytes[inode := old(fs).bytes[inode]] == old(fs).bytes;
    }

    // Somebody may put another file under the name.
    method Disturb(name: string) returns (ghost intruder: Option<Inode>)
      requires Valid() && name in fs.names
      modifies this
      ensures Valid() && |steps| == |old(steps)| + 1 && steps[..|old(steps)|] == old(steps) && seen == old(seen) + [fs]
      ensures steps[|old(steps)|].op.Intrude? && count == old(count) + 1
      ensures intruder == if steps[|old(steps)|].ok then Some(steps[|old(steps)|].op.inode) else None
      ensures intruder.Some? <==> world.intrudes(old(count)).Some?
      ensures intruder.None? ==> fs == old(fs)
      ensures intruder.Some? ==>
                && intruder.value !in old(fs).bytes
                && fs == Effect(old(fs), Intrude(name, intruder.value, world.intrudes(old(count)).value))
    {
      var i := FreshInode(fs.bytes.Keys);
      var content := if world.intrudes(count).Some? then world.intrudes(count).value else [];
      var ok := Do(Intrude(name, i, content));
      intruder := if ok then Some(i) else None;
    }
  }

  method FreshInode(used: set<Inode>) returns (i: Inode)
    ensures i !in used
  {
    i := 0;
    var rest := used;
    while i in used
      invariant forall j :: 0 <= j < i ==> j in used
      invariant rest == set j | j in used && i <= j
      decreases |rest|
    {
      rest := rest - {i};
      i := i + 1;
    }
  }

  // ---- What a run of steps may be excused by ----

  // `intruder` is the inode somebody else put into the directory from step `from` on.
  ghost predicate Intruded(steps: seq<Step>, from: nat, intruder: Option<Inode>) {
    && (forall k: nat :: from <= k < |steps| && Intrusion(steps[k]) ==> intruder == Some(steps[k].op.inode))
    && (intruder.Some? ==> exists k: nat :: from <= k < |steps| && Intrusion(steps[k]))
  }

  predicate Intrusion(s: Step) {
    s.ok && s.op.Intrude?
  }

  // From step `from` on, removing the temporary failed.
  ghost predicate RemovalFailed(steps: seq<Step>, from: nat, temporary: string) {
    exists k: nat :: from <= k < |steps| && FailsToRemove(steps[k], temporary)
  }

  predicate FailsToRemove(s: Step, temporary: string) {
    !s.ok && s.op.Unlink? && s.op.name == temporary
  }

  predicate Swaps(op: Op, temporary: string) {
    op.Exchange? && op.a == temporary
  }

  // The temporary was exchanged, and then looking at what came out of it failed, or
  // exchanging it back.
  ghost predicate ReturnFailed(steps: seq<Step>, from: nat, temporary: string) {
    exists j: nat, k: nat :: from <= j < k < |steps| && FailsToReturn(steps, j, k, temporary)
  }

  predicate FailsToReturn(steps: seq<Step>, j: nat, k: nat, temporary: string)
    requires j < k < |steps|
  {
    && steps[j].ok && Swaps(steps[j].op, temporary) && !steps[k].ok
    && (Swaps(steps[k].op, temporary) || (steps[k].op.Inspect? && k == j + 1))
  }

  ghost predicate CleanupFailed(steps: seq<Step>, from: nat, temporary: string) {
    RemovalFailed(steps, from, temporary) || ReturnFailed(steps, from, temporary)
  }

  // Steps after which nothing has to be excused.
  predicate Quiet(s: Step) {
    s.op.Create? || s.op.Append? || s.op.Sync? || s.op.Inspect? || s.op.Link?
  }

  ghost predicate AllQuiet(steps: seq<Step>, from: nat) {
    forall k: nat :: from <= k < |steps| ==> Quiet(steps[k])
  }

  lemma IntrudedMore(steps: seq<Step>, from: nat, intruder: Option<Inode>, s: Step)
    requires Intruded(steps, from, intruder) && !Intrusion(s)
    ensures Intruded(steps + [s], from, intruder)
  {
    if intruder.Some? {
      var k: nat :| from <= k < |steps| && Intrusion(steps[k]);
      assert (steps + [s])[k] == steps[k];
    }
  }

  lemma IntrudedOnce(steps: seq<Step>, s: Step)
    ensures Intruded(steps + [s], |steps|, if Intrusion(s) then Some(s.op.inode) else None)
  {
    assert (steps + [s])[|steps|] == s;
  }

  // Quiet steps before change no excuse.
  lemma IntrudedSince(steps: seq<Step>, from: nat, mid: nat, intruder: Option<Inode>)
    requires from <= mid <= |steps| && AllQuiet(steps[..mid], from) && Intruded(steps, mid, intruder)
    ensures Intruded(steps, from, intruder)
  {
    forall k: nat | from <= k < |steps| && Intrusion(steps[k]) ensures intruder == Some(steps[k].op.inode) {
      assert k < mid ==> Quiet(steps[..mid][k]);
    }
  }

  lemma NobodyIntruded(steps: seq<Step>, from: nat)
    requires AllQuiet(steps, from)
    ensures Intruded(steps, from, None)
  {
    assert forall k: nat :: from <= k < |steps| ==> Quiet(steps[k]);
  }

  lemma CleanupFailedSince(steps: seq<Step>, from: nat, mid: nat, temporary: string)
    requires from <= mid
    ensures RemovalFailed(steps, mid, temporary) ==> RemovalFailed(steps, from, temporary)
    ensures CleanupFailed(steps, mid, temporary) ==> CleanupFailed(steps, from, temporary)
  {
  }

  lemma CleanupFailedMore(steps: seq<Step>, from: nat, temporary: string, s: Step)
    requires CleanupFailed(steps, from, temporary)
    ensures CleanupFailed(steps + [s], from, temporary)
  {
    var more := steps + [s];
    if RemovalFailed(steps, from, temporary) {
      var k: nat :| from <= k < |steps| && FailsToRemove(steps[k], temporary);
      assert more[k] == steps[k];
    } else {
      var j: nat, k: nat :| from <= j < k < |steps| && FailsToReturn(steps, j, k, temporary);
      assert more[j] == steps[j] && more[k] == steps[k];
      assert FailsToReturn(more, j, k, temporary);
    }
  }

  lemma UnlinkFailed(steps: seq<Step>, from: nat, temporary: string, inode: Inode)
    requires from <= |steps|
    ensures RemovalFailed(steps + [Step(Unlink(temporary, inode), false)], from, temporary)
  {
    assert (steps + [Step(Unlink(temporary, inode), false)])[|steps|] == Step(Unlink(temporary, inode), false);
  }

  lemma BackFailed(steps: seq<Step>, from: nat, j: nat, temporary: string, s: Step)
    requires from <= j < |steps| && steps[j].ok && Swaps(steps[j].op, temporary) && !s.ok
    requires Swaps(s.op, temporary) || (s.op.Inspect? && |steps| == j + 1)
    ensures ReturnFailed(steps + [s], from, temporary)
  {
    var more := steps + [s];
    assert more[|steps|] == s && more[j] == steps[j];
    assert FailsToReturn(more, j, |steps|, temporary);
  }

  // Nobody intrudes and nothing fails.
  ghost predicate Reliable(w: World) {
    forall k: nat :: !w.fails(k) && w.intrudes(k).None?
  }

  // What the record's name shows is whole and on disk: all of the old contents
  // or all of the new, unless an intruder has been put there.
  predicate Whole(f: Fs, record: string, before: seq<Byte>, after: seq<Byte>, intruder: Option<Inode>) {
    && record in f.names && f.names[record] in f.bytes
    && (intruder == Some(f.names[record])
        || (f.names[record] in f.synced && (f.bytes[f.names[record]] == before || f.bytes[f.names[record]] == after)))
  }

  // Between two states nothing but the record's name and the temporary changed.
  predicate OnlyTouches(f: Fs, base: Fs, record: string, temporary: string) {
    && f.names - {record, temporary} == base.names - {record, temporary}
    && forall i :: i in base.bytes ==> i in f.bytes && f.bytes[i] == base.bytes[i]
  }

  // `_write_all` and the fsync after it.
  method WriteAndSync(d: Directory, inode: Inode, body: seq<Byte>) returns (ok: bool)
    requires d.Valid() && inode in d.fs.bytes && d.fs.bytes[inode] == [] && inode !in d.fs.synced
    modifies d
    ensures d.Valid() && old(d.seen) <= d.seen
    ensures d.fs.names == old(d.fs).names && d.fs.bytes.Keys == old(d.fs).bytes.Keys
    ensures forall i :: i in old(d.fs).bytes && i != inode ==> d.fs.bytes[i] == old(d.fs).bytes[i]
    ensures d.fs.synced - {inode} == old(d.fs).synced
    ensures ok ==> d.fs.bytes[inode] == body && inode in d.fs.synced
    ensures forall k :: |old(d.seen)| <= k < |d.seen| ==> SameButFor(d.seen[k], old(d.fs), inode)
    ensures SameButFor(d.fs, old(d.fs), inode)
    ensures old(d.steps) <= d.steps && AllQuiet(d.steps, |old(d.steps)|)
    ensures Reliable(d.world) ==> ok
  {
    hide Traced, Legal;
    var remaining := body;
    ghost var done: seq<Byte> := [];
    while remaining != []
      invariant d.Valid() && old(d.seen) <= d.seen
      invariant d.fs.names == old(d.fs).names && d.fs.synced == old(d.fs).synced
      invariant inode in d.fs.bytes && d.fs.bytes == old(d.fs).bytes[inode := done]
      invariant done + remaining == body
      invariant old(d.steps) <= d.steps && AllQuiet(d.steps, |old(d.steps)|)
      invariant forall k :: |old(d.seen)| <= k < |d.seen| ==> SameButFor(d.seen[k], old(d.fs), inode)
      decreases |remaining|
    {
      var written := d.Write(inode, remaining);
      if written == 0 {
        return false;
      }
      done := done + remaining[..written];
      remaining := remaining[written..];
    }
    ok := d.Do(Sync(inode));
  }

  predicate SameButFor(f: Fs, base: Fs, inode: Inode) {
    && f.names == base.names && f.synced - {inode} == base.synced - {inode}
    && f.bytes.Keys == base.bytes.Keys
    && forall i :: i in base.bytes && i != inode ==> f.bytes[i] == base.bytes[i]
  }

  // Every state from number `from` on shows a whole record and touches nothing else.
  ghost predicate AllWhole(seen: seq<Fs>, from: nat, base: Fs, record: string, temporary: string,
                           before: seq<Byte>, after: seq<Byte>, intruder: Option<Inode>)
  {
    forall k :: from <= k < |seen| ==> Harmless(seen[k], base, record, temporary, before, after, intruder)
  }

  predicate Harmless(f: Fs, base: Fs, record: string, temporary: string,
                     before: seq<Byte>, after: seq<Byte>, intruder: Option<Inode>)
  {
    Whole(f, record, before, after, intruder) && OnlyTouches(f, base, record, temporary)
  }

  lemma OneMore(seen: seq<Fs>, f: Fs, from: nat, base: Fs, record: string, temporary: string,
                before: seq<Byte>, after: seq<Byte>, earlier: Option<Inode>, intruder: Option<Inode>)
    requires AllWhole(seen, from, base, record, temporary, before, after, earlier)
    requires earlier.None? || earlier == intruder
    requires Harmless(f, base, record, temporary, before, after, intruder)
    ensures AllWhole(seen + [f], from, base, record, temporary, before, after, intruder)
  {
  }

  // The contents and sync state of `f` are those of `base`, up to a new inode.
  predicate Carries(f: Fs, base: Fs) {
    && (forall i :: i in base.bytes ==> i in f.bytes && f.bytes[i] == base.bytes[i])
    && (forall i :: i in base.bytes && i in base.synced ==> i in f.synced)
  }

  lemma HarmlessNames(f: Fs, base: Fs, record: string, temporary: string, inode: Inode, x: Inode,
                      intruder: Option<Inode>)
    requires Sane(base) && Carries(f, base) && record in base.names && base.names[record] in base.synced
    requires inode in base.bytes && inode in base.synced
    requires x == base.names[record] || (intruder == Some(x) && x in f.bytes)
    requires record in f.names && f.names[record] in {x, inode}
    requires f.names - {record, temporary} == base.names - {record, temporary}
    ensures Harmless(f, base, record, temporary, base.bytes[base.names[record]], base.bytes[inode], intruder)
  {
  }

  // The exchange, and the exchange back when something else than the expected
  // record came out of it.  `stuck` says that this could not be seen or not be undone,
  // so that the exchange stands.
  method SwapIn(d: Directory, temporary: string, record: string, inode: Inode, expected: Inode)
    returns (published: bool, ghost intruder: Option<Inode>, ghost stuck: bool)
    requires d.Valid() && temporary != record && record in d.fs.names && temporary in d.fs.names
    requires d.fs.names[temporary] == inode && d.fs.names[record] != inode && expected == d.fs.names[record]
    requires d.fs.names[record] in d.fs.synced && inode in d.fs.synced
    modifies d
    ensures d.Valid() && old(d.seen) <= d.seen && |old(d.seen)| < |d.seen| && old(d.steps) <= d.steps
    ensures AllWhole(d.seen, |old(d.seen)|, old(d.fs), record, temporary,
                     old(d.fs.bytes[d.fs.names[record]]), old(d.fs.bytes[inode]), intruder)
    ensures Intruded(d.steps, |old(d.steps)|, intruder)
    ensures published ==>
              && intruder.None? && d.fs.bytes == old(d.fs.bytes) && d.fs.synced == old(d.fs.synced)
              && d.fs.names == old(d.fs).names[temporary := expected][record := inode]
    ensures stuck ==> !published && ReturnFailed(d.steps, |old(d.steps)|, temporary)
    ensures stuck ==>
              var x := if intruder.Some? then intruder.value else expected;
              d.fs.names == old(d.fs.names)[temporary := x][record := inode]
    ensures !published && !stuck ==>
              d.fs.names == old(d.fs.names)[record := if intruder.Some? then intruder.value else expected]
    ensures stuck ==> temporary in d.fs.names && d.fs.names[temporary] != inode
    ensures Reliable(d.world) ==> published
  {
    hide Whole, OnlyTouches, Harmless, AllWhole, Traced, Intruded, ReturnFailed, Happens, Reliable;
    published, stuck := false, false;
    ghost var base, t, from := d.fs, d.steps, |d.seen|;
    ghost var before, after := base.bytes[base.names[record]], base.bytes[inode];
    var ok;
    ghost var x;
    ok, intruder, x := ExchangeIn(d, temporary, record, inode);
    if !ok {
      return;
    }
    ghost var s, y := d.seen, d.steps;
    var looked := d.Do(Inspect);
    InspectSucceeds(d.world, |y|, d.fs);
    IntrudedMore(y, |t|, intruder, Step(Inspect, looked));
    HarmlessNames(d.fs, base, record, temporary, inode, x, intruder);
    OneMore(s, d.fs, from, base, record, temporary, before, after, intruder, intruder);
    if !looked {
      stuck := true;
      BackFailed(y, |t|, |t| + 1, temporary, Step(Inspect, looked));
      return;
    }
    if d.fs.names[temporary] != expected {
      s, y := d.seen, d.steps;
      var back := d.Do(Exchange(temporary, record));
      IntrudedMore(y, |t|, intruder, Step(Exchange(temporary, record), back));
      stuck := !back;
      if stuck {
        BackFailed(y, |t|, |t| + 1, temporary, Step(Exchange(temporary, record), back));
      }
      assert back ==> d.fs.names == base.names[record := x];
      HarmlessNames(d.fs, base, record, temporary, inode, x, intruder);
      OneMore(s, d.fs, from, base, record, temporary, before, after, intruder, intruder);
      return;
    }
    published := true;
  }

  lemma InspectSucceeds(w: World, k: nat, f: Fs)
    ensures Reliable(w) ==> Happens(w, k, f, Inspect)
  {
  }

  // An intruder perhaps, and the exchange; `x` is what the record was by then.
  method ExchangeIn(d: Directory, temporary: string, record: string, inode: Inode)
    returns (ok: bool, ghost intruder: Option<Inode>, ghost x: Inode)
    requires d.Valid() && temporary != record && record in d.fs.names && temporary in d.fs.names
    requires d.fs.names[temporary] == inode && d.fs.names[record] != inode
    requires d.fs.names[record] in d.fs.synced && inode in d.fs.synced
    modifies d
    ensures d.Valid() && old(d.seen) <= d.seen && |old(d.seen)| < |d.seen| && old(d.steps) <= d.steps
    ensures AllWhole(d.seen, |old(d.seen)|, old(d.fs), record, temporary,
                     old(d.fs.bytes[d.fs.names[record]]), old(d.fs.bytes[inode]), intruder)
    ensures Intruded(d.steps, |old(d.steps)|, intruder)
    ensures |d.steps| == |old(d.steps)| + 2 && d.steps[|old(d.steps)| + 1] == Step(Exchange(temporary, record), ok)
    ensures x == if intruder.Some? then intruder.value else old(d.fs.names[record])
    ensures Carries(d.fs, old(d.fs)) && x in d.fs.bytes && (intruder.Some? ==> x !in old(d.fs.bytes))
    ensures intruder.None? ==> d.fs.bytes == old(d.fs.bytes) && d.fs.synced == old(d.fs.synced)
    ensures d.fs.names == if ok then old(d.fs.names)[temporary := x][record := inode] else old(d.fs.names)[record := x]
    ensures Reliable(d.world) ==> ok && intruder.None?
  {
    ghost var base, s, t := d.fs, d.seen, d.steps;
    ghost var names, from := d.fs.names, |d.seen|;
    ghost var before, after := base.bytes[names[record]], base.bytes[inode];
    assert names[record := names[record]] == names;
    Nothing(s, base, record, temporary, before, after);
    hide Whole, OnlyTouches, Harmless, AllWhole, Traced, Intruded;
    intruder := d.Disturb(record);
    IntrudedOnce(t, d.steps[|t|]);
    assert d.steps == t + [d.steps[|t|]];
    x := d.fs.names[record];
    HarmlessNames(d.fs, base, record, temporary, inode, x, intruder);
    OneMore(s, d.fs, from, base, record, temporary, before, after, None, intruder);
    s := d.seen;
    ghost var u := d.steps;
    ok := d.Do(Exchange(temporary, record));
    IntrudedMore(u, |t|, intruder, Step(Exchange(temporary, record), ok));
    HarmlessNames(d.fs, base, record, temporary, inode, x, intruder);
    OneMore(s, d.fs, from, base, record, temporary, before, after, intruder, intruder);
  }

  // The steps of `_atomic_replace` once the temporary is written and synced.
  method ExchangeRecord(d: Directory, temporary: string, record: string, inode: Inode, expected: Inode)
    returns (ok: bool, published: bool, ghost intruder: Option<Inode>, ghost stuck: bool)
    requires d.Valid() && temporary != record && record in d.fs.names && temporary in d.fs.names
    requires d.fs.names[temporary] == inode && d.fs.names[record] != inode
    requires d.fs.names[record] in d.fs.synced && inode in d.fs.synced
    modifies d
    ensures d.Valid() && old(d.seen) <= d.seen && old(d.steps) <= d.steps
    ensures AllWhole(d.seen, |old(d.seen)|, old(d.fs), record, temporary,
                     old(d.fs.bytes[d.fs.names[record]]), old(d.fs.bytes[inode]), intruder)
    ensures Intruded(d.steps, |old(d.steps)|, intruder)
    ensures ok ==>
              && published && expected == old(d.fs.names[record]) && expected !in d.fs.names.Values
              && d.fs.names == old(d.fs.names)[record := inode] - {temporary} && inode in d.fs.synced
    ensures published ==> intruder.None? && record in d.fs.names && d.fs.names[record] == inode
                          && d.fs.bytes == old(d.fs.bytes)
    ensures published && temporary in d.fs.names ==> RemovalFailed(d.steps, |old(d.steps)|, temporary)
    ensures stuck ==> !published && CleanupFailed(d.steps, |old(d.steps)|, temporary)
    ensures stuck ==>
              var x := if intruder.Some? then intruder.value else old(d.fs.names[record]);
              d.fs.names == old(d.fs.names)[temporary := x][record := inode]
    ensures !published && !stuck ==>
              d.fs.names == old(d.fs.names)[record
                := if intruder.Some? then intruder.value else old(d.fs.names[record])]
    ensures stuck ==> temporary in d.fs.names && d.fs.names[temporary] != inode
    ensures Reliable(d.world) ==>
              (ok <==> expected == old(d.fs.names[record])
                       && expected !in (old(d.fs.names)[record := inode] - {temporary}).Values)
  {
    ok, published, intruder, stuck := false, false, None, false;
    ghost var base, from, t := d.fs, |d.seen|, d.steps;
    ghost var names, before, after := base.names, base.bytes[base.names[record]], base.bytes[inode];
    assert names[record := names[record]] == names;
    Nothing(d.seen, base, record, temporary, before, after);
    NobodyIntruded(t, |t|);
    Untouched(base, record, temporary, after);
    hide Whole, OnlyTouches, Harmless, AllWhole, Traced, Intruded, RemovalFailed, ReturnFailed;
    if d.fs.names[record] != expected {
      return;
    }
    // the record is opened and the directory synced
    ghost var s := d.seen;
    ok := d.Do(Inspect);
    OneMore(s, d.fs, from, base, record, temporary, before, after, None, None);
    IntrudedMore(t, |t|, None, Step(Inspect, ok));
    if !ok {
      return;
    }
    s := d.seen;
    ghost var u := d.steps;
    published, intruder, stuck := SwapIn(d, temporary, record, inode, expected);
    MoreOf(s, d.seen, from, base, base, record, temporary, before, after, intruder);
    AfterInspect(t, d.steps, ok, intruder, temporary);
    assert ok;
    if !published {
      ok := false;
      return;
    }
    assert d.fs.names - {temporary} == names[record := inode] - {temporary};
    ok := Finish(d, temporary, record, inode, expected, from, base, before, |t|);
  }

  lemma Untouched(f: Fs, record: string, temporary: string, after: seq<Byte>)
    requires Sane(f) && record in f.names && f.names[record] in f.synced
    ensures Harmless(f, f, record, temporary, f.bytes[f.names[record]], after, None)
            && OnlyTouches(f, f, record, temporary)
  {
  }

  lemma AfterInspect(t: seq<Step>, steps: seq<Step>, ok: bool, intruder: Option<Inode>, temporary: string)
    requires t + [Step(Inspect, ok)] <= steps && Intruded(steps, |t| + 1, intruder)
    ensures Intruded(steps, |t|, intruder)
    ensures RemovalFailed(steps, |t| + 1, temporary) ==> RemovalFailed(steps, |t|, temporary)
    ensures CleanupFailed(steps, |t| + 1, temporary) ==> CleanupFailed(steps, |t|, temporary)
  {
    assert steps[..|t| + 1] == t + [Step(Inspect, ok)];
    IntrudedSince(steps, |t|, |t| + 1, intruder);
    CleanupFailedSince(steps, |t|, |t| + 1, temporary);
  }

  lemma Nothing(seen: seq<Fs>, base: Fs, record: string, temporary: string, before: seq<Byte>, after: seq<Byte>)
    ensures AllWhole(seen, |seen|, base, record, temporary, before, after, None)
  {
  }

  lemma HarmlessTouches(f: Fs, base: Fs, record: string, temporary: string,
                        before: seq<Byte>, after: seq<Byte>, intruder: Option<Inode>)
    requires Harmless(f, base, record, temporary, before, after, intruder)
    ensures OnlyTouches(f, base, record, temporary)
  {
  }

  // Once published: the displaced inode loses its name, and `_prove_cleanup` finds
  // that it has no link left and the temporary is gone.  `from`, `base` and `begun`
  // say when the replacement began.
  method Finish(d: Directory, temporary: string, record: string, inode: Inode, expected: Inode,
                ghost from: nat, ghost base: Fs, ghost before: seq<Byte>, ghost begun: nat)
    returns (ok: bool)
    requires d.Valid() && temporary != record && from < |d.seen| && record in d.fs.names && inode in d.fs.bytes
    requires temporary in d.fs.names && d.fs.names[temporary] == expected && d.fs.names[record] == inode != expected
    requires AllWhole(d.seen, from, base, record, temporary, before, d.fs.bytes[inode], None)
    requires begun <= |d.steps| && Intruded(d.steps, begun, None)
    modifies d
    ensures d.Valid() && old(d.seen) <= d.seen && old(d.steps) <= d.steps
    ensures temporary in d.fs.names ==> RemovalFailed(d.steps, begun, temporary)
    ensures AllWhole(d.seen, from, base, record, temporary, before, old(d.fs.bytes[inode]), None)
    ensures Intruded(d.steps, begun, None)
    ensures d.fs.bytes == old(d.fs.bytes) && d.fs.synced == old(d.fs.synced)
    ensures record in d.fs.names && d.fs.names[record] == inode
    ensures ok ==> expected !in d.fs.names.Values && d.fs.names == old(d.fs.names) - {temporary}
    ensures Reliable(d.world) ==> (ok <==> expected !in (old(d.fs.names) - {temporary}).Values)
  {
    hide Whole, OnlyTouches, Harmless, AllWhole, Traced, Intruded, RemovalFailed;
    ghost var s, t, after := d.seen, d.steps, d.fs.bytes[inode];
    ok := d.Do(Unlink(temporary, expected));
    Unlinked(s, d.fs, from, base, record, temporary, before, after, None);
    IntrudedMore(t, begun, None, Step(Unlink(temporary, expected), ok));
    if !ok {
      UnlinkFailed(t, begun, temporary, expected);
      return;
    }
    s, t := d.seen, d.steps;
    ok := d.Do(Inspect);
    Unlinked(s, d.fs, from, base, record, temporary, before, after, None);
    IntrudedMore(t, begun, None, Step(Inspect, ok));
    ok := ok && temporary !in d.fs.names && expected !in d.fs.names.Values && d.fs.names[record] == inode;
  }

  // The temporary is created, written and synced under a name of its own.
  method WriteTemporary(d: Directory, temporary: string, ghost record: string, body: seq<Byte>)
    returns (inode: Option<Inode>, ok: bool)
    requires d.Valid() && temporary != record && record in d.fs.names && d.fs.names[record] in d.fs.synced
    modifies d
    ensures d.Valid() && old(d.seen) <= d.seen && |old(d.seen)| < |d.seen|
    ensures AllWhole(d.seen, |old(d.seen)|, old(d.fs), record, temporary,
                     old(d.fs.bytes[d.fs.names[record]]), body, None)
    ensures OnlyTouches(d.fs, old(d.fs), record, temporary)
    ensures inode.None? ==> !ok && d.fs == old(d.fs)
    ensures inode.Some? ==>
              && temporary !in old(d.fs.names) && inode.value !in old(d.fs.bytes) && inode.value in d.fs.bytes
              && d.fs.names == old(d.fs.names)[temporary := inode.value]
    ensures ok ==> d.fs.bytes[inode.value] == body && inode.value in d.fs.synced && d.fs.names[record] in d.fs.synced
    ensures old(d.steps) <= d.steps && AllQuiet(d.steps, |old(d.steps)|)
    ensures Reliable(d.world) ==> (ok <==> temporary !in old(d.fs.names))
  {
    hide Traced;
    ghost var base, from := d.fs, |d.seen|;
    inode := d.CreateExclusive(temporary);
    if inode.None? {
      return inode, false;
    }
    ghost var started := d.fs;
    ok := WriteAndSync(d, inode.value, body);
    assert base.names[record] in started.synced;
    forall k | from <= k < |d.seen|
      ensures Harmless(d.seen[k], base, record, temporary, base.bytes[base.names[record]], body, None)
    {
      if k == from {
        assert d.seen[k] == started;
      } else {
        assert SameButFor(d.seen[k], started, inode.value);
      }
      Unwritten(d.seen[k], started, base, record, temporary, inode.value, body);
    }
    HarmlessTouches(d.fs, base, record, temporary, base.bytes[base.names[record]], body, None);
  }

  // `_atomic_replace` in terms of the trace.  `intruder` is the inode somebody else put
  // under the name meanwhile, and `stuck` says that undoing failed: both are what the
  // steps show.
  method Replace(d: Directory, temporary: string, record: string, expected: Inode, body: seq<Byte>)
    returns (ok: bool, published: bool, ghost intruder: Option<Inode>, ghost stuck: bool)
    requires d.Valid() && temporary != record && record in d.fs.names && d.fs.names[record] in d.fs.synced
    modifies d
    ensures d.Valid() && old(d.seen) <= d.seen && old(d.steps) <= d.steps
    ensures Intruded(d.steps, |old(d.steps)|, intruder)
    // the temporary stays only where removing it, or the way back, is seen to have failed
    ensures stuck ==> !published && CleanupFailed(d.steps, |old(d.steps)|, temporary)
    ensures published && temporary in d.fs.names ==> RemovalFailed(d.steps, |old(d.steps)|, temporary)
    // whatever happens, and wherever a crash strikes
    ensures AllWhole(d.seen, |old(d.seen)|, old(d.fs), record, temporary,
                     old(d.fs.bytes[d.fs.names[record]]), body, intruder)
    // success: the new contents, on disk; the old inode and the temporary are gone
    ensures ok ==>
              && published && temporary !in old(d.fs.names) && expected == old(d.fs.names[record])
              && record in d.fs.names && d.fs.names == old(d.fs.names)[record := d.fs.names[record]]
              && d.fs.names[record] !in old(d.fs.bytes) && d.fs.names[record] in d.fs.synced
              && expected !in d.fs.names.Values
    ensures published ==> intruder.None? && record in d.fs.names && d.fs.names[record] in d.fs.bytes
                          && d.fs.bytes[d.fs.names[record]] == body
    // an exception before publication undoes everything; what an intruder put there stays
    ensures !published && !stuck ==>
              d.fs.names == old(d.fs.names)[record
                := if intruder.Some? then intruder.value else old(d.fs.names[record])]
    // without failures and intruders it succeeds on the expected record, if that has no other name
    ensures Reliable(d.world) ==>
              (ok <==> temporary !in old(d.fs.names) && expected == old(d.fs.names[record])
                       && expected !in (old(d.fs.names) - {record}).Values)
  {
    ok, published, intruder, stuck := false, false, None, false;
    ghost var base, from, t := d.fs, |d.seen|, d.steps;
    ghost var names, before := d.fs.names, d.fs.bytes[d.fs.names[record]];
    assert names[record := names[record]] == names;
    hide Whole, OnlyTouches, Harmless, AllWhole, Traced, Intruded, RemovalFailed, ReturnFailed, AllQuiet, Reliable,
         Effect, Possible;
    var inode;
    inode, ok := WriteTemporary(d, temporary, record, body);
    NobodyIntruded(d.steps, |t|);
    if inode.None? {
      return;
    }
    assert names[temporary := inode.value] - {temporary} == names;
    if ok {
      ok, published, intruder, stuck := Attempt(d, temporary, record, inode.value, expected, body, from, base, |t|);
    }
    if !published {
      stuck := Undo(d, temporary, record, inode.value, from, base, before, body, |t|, intruder, stuck);
    }
  }

  // The same once the temporary is there, in terms of the state before.
  method Attempt(d: Directory, temporary: string, record: string, inode: Inode, expected: Inode, body: seq<Byte>,
                 ghost from: nat, ghost base: Fs, ghost begun: nat)
    returns (ok: bool, published: bool, ghost intruder: Option<Inode>, ghost stuck: bool)
    requires d.Valid() && temporary != record && temporary !in base.names && record in base.names && Sane(base)
    requires d.fs.names == base.names[temporary := inode] && inode !in base.bytes && inode in d.fs.bytes
    requires base.names[record] in d.fs.synced && inode in d.fs.synced && d.fs.bytes[inode] == body
    requires OnlyTouches(d.fs, base, record, temporary) && AllQuiet(d.steps, begun) && begun <= |d.steps|
    requires AllWhole(d.seen, from, base, record, temporary, base.bytes[base.names[record]], body, None)
    modifies d
    ensures d.Valid() && old(d.seen) <= d.seen && old(d.steps) <= d.steps
    ensures AllWhole(d.seen, from, base, record, temporary, base.bytes[base.names[record]], body, intruder)
    ensures Intruded(d.steps, begun, intruder)
    ensures stuck ==> !published && CleanupFailed(d.steps, begun, temporary)
    ensures published && temporary in d.fs.names ==> RemovalFailed(d.steps, begun, temporary)
    ensures ok ==>
              && published && expected == base.names[record] && expected !in d.fs.names.Values
              && d.fs.names == base.names[record := inode] && inode in d.fs.synced
    ensures published ==> intruder.None? && record in d.fs.names && d.fs.names[record] == inode
                          && inode in d.fs.bytes && d.fs.bytes[inode] == body
    ensures !published && !stuck ==>
              d.fs.names == base.names[temporary := inode][record
                := if intruder.Some? then intruder.value else base.names[record]]
    ensures Reliable(d.world)
            ==> (ok <==> expected == base.names[record] && expected !in (base.names - {record}).Values)
  {
    Contents(d.fs, base, record, temporary);
    hide Whole, OnlyTouches, Harmless, AllWhole, Traced, Intruded, RemovalFailed, ReturnFailed, AllQuiet, Reliable,
         Sane, Effect, Possible;
    ghost var mid, ready, u := d.seen, d.fs, d.steps;
    ok, published, intruder, stuck := ExchangeRecord(d, temporary, record, inode, expected);
    MoreOf(mid, d.seen, from, ready, base, record, temporary, base.bytes[base.names[record]], body, intruder);
    Later(u, d.steps, begun, intruder, temporary);
    if expected == base.names[record] {
      OtherNames(base.names, temporary, record, inode, expected);
    }
  }

  lemma Contents(f: Fs, base: Fs, record: string, temporary: string)
    requires OnlyTouches(f, base, record, temporary) && Sane(base) && record in base.names
    ensures base.names[record] in base.bytes && base.names[record] in f.bytes
    ensures f.bytes[base.names[record]] == base.bytes[base.names[record]]
  {
  }

  // The `finally` clause of a replacement that was not published.
  method Undo(d: Directory, temporary: string, ghost record: string, inode: Inode, ghost from: nat, ghost base: Fs,
              ghost before: seq<Byte>, ghost body: seq<Byte>, ghost begun: nat, ghost intruder: Option<Inode>,
              ghost stuck: bool)
    returns (ghost failed: bool)
    requires d.Valid() && from < |d.seen| && begun <= |d.steps| && record != temporary
    requires AllWhole(d.seen, from, base, record, temporary, before, body, intruder)
    requires Intruded(d.steps, begun, intruder) && (stuck ==> CleanupFailed(d.steps, begun, temporary))
    modifies d
    ensures d.Valid() && old(d.seen) <= d.seen && old(d.steps) <= d.steps
    ensures AllWhole(d.seen, from, base, record, temporary, before, body, intruder)
    ensures Intruded(d.steps, begun, intruder) && (failed ==> CleanupFailed(d.steps, begun, temporary))
    ensures !failed ==> !stuck
    ensures !failed && temporary in old(d.fs.names) && old(d.fs.names[temporary]) == inode ==>
              d.fs.names == old(d.fs.names) - {temporary}
  {
    hide Whole, OnlyTouches, Harmless, AllWhole, Traced, Intruded, CleanupFailed;
    ghost var known, y := d.seen, d.steps;
    var cleaned := d.Do(Unlink(temporary, inode));
    Unlinked(known, d.fs, from, base, record, temporary, before, body, intruder);
    Cleaned(y, begun, intruder, temporary, inode, cleaned, stuck);
    failed := stuck || !cleaned;
  }

  lemma OtherNames(names: map<string, Inode>, temporary: string, record: string, inode: Inode, expected: Inode)
    requires temporary !in names && record in names && inode != expected
    ensures names[temporary := inode][record := inode] - {temporary} == names[record := inode]
    ensures expected in names[record := inode].Values <==> expected in (names - {record}).Values
  {
    var a, b := names[record := inode], names - {record};
    assert forall n :: n in b ==> n in a && a[n] == b[n];
    assert forall n :: n in a && n != record ==> n in b && a[n] == b[n];
  }

  // What the steps after the quiet ones show, all of them show.
  lemma Later(u: seq<Step>, steps: seq<Step>, from: nat, intruder: Option<Inode>, temporary: string)
    requires u <= steps && from <= |u| && AllQuiet(u, from) && Intruded(steps, |u|, intruder)
    ensures Intruded(steps, from, intruder)
    ensures RemovalFailed(steps, |u|, temporary) ==> RemovalFailed(steps, from, temporary)
    ensures CleanupFailed(steps, |u|, temporary) ==> CleanupFailed(steps, from, temporary)
  {
    assert steps[..|u|] == u;
    IntrudedSince(steps, from, |u|, intruder);
    CleanupFailedSince(steps, from, |u|, temporary);
  }

  lemma Cleaned(y: seq<Step>, from: nat, intruder: Option<Inode>, temporary: string, inode: Inode, ok: bool,
                stuck: bool)
    requires from <= |y| && Intruded(y, from, intruder) && (stuck ==> CleanupFailed(y, from, temporary))
    ensures var steps := y + [Step(Unlink(temporary, inode), ok)];
            Intruded(steps, from, intruder) && (stuck || !ok ==> CleanupFailed(steps, from, temporary))
  {
    var s := Step(Unlink(temporary, inode), ok);
    IntrudedMore(y, from, intruder, s);
    if stuck {
      CleanupFailedMore(y, from, temporary, s);
    } else if !ok {
      UnlinkFailed(y, from, temporary, inode);
    }
  }

  lemma MoreOf(s: seq<Fs>, t: seq<Fs>, from: nat, ready: Fs, base: Fs, record: string, temporary: string,
               before: seq<Byte>, body: seq<Byte>, intruder: Option<Inode>)
    requires s <= t && AllWhole(s, from, base, record, temporary, before, body, None)
    requires AllWhole(t, |s|, ready, record, temporary, before, body, intruder)
    requires OnlyTouches(ready, base, record, temporary)
    ensures AllWhole(t, from, base, record, temporary, before, body, intruder)
  {
    hide Whole, OnlyTouches;
    forall k | from <= k < |t| ensures Harmless(t[k], base, record, temporary, before, body, intruder) {
      if k >= |s| {
        HarmlessSince(t[k], ready, base, record, temporary, before, body, intruder);
      } else {
        assert Harmless(s[k], base, record, temporary, before, body, None);
        Excused(s[k], base, record, temporary, before, body, intruder);
      }
    }
  }

  lemma Excused(f: Fs, base: Fs, record: string, temporary: string,
                before: seq<Byte>, body: seq<Byte>, intruder: Option<Inode>)
    requires Harmless(f, base, record, temporary, before, body, None)
    ensures Harmless(f, base, record, temporary, before, body, intruder)
  {
  }

  lemma Unlinked(known: seq<Fs>, f: Fs, from: nat, base: Fs, record: string, temporary: string,
                 before: seq<Byte>, body: seq<Byte>, intruder: Option<Inode>)
    requires known != [] && from < |known| && record != temporary
    requires AllWhole(known, from, base, record, temporary, before, body, intruder)
    requires var last := known[|known| - 1]; f == last || f == last.(names := last.names - {temporary})
    ensures AllWhole(known + [f], from, base, record, temporary, before, body, intruder)
  {
    var last := known[|known| - 1];
    assert Harmless(last, base, record, temporary, before, body, intruder);
    OneMore(known, f, from, base, record, temporary, before, body, intruder, intruder);
  }

  // While the temporary is being written the record is what it was.
  lemma Unwritten(f: Fs, started: Fs, base: Fs, record: string, temporary: string, inode: Inode, body: seq<Byte>)
    requires Sane(base) && temporary != record && record in base.names && base.names[record] in base.synced
    requires inode !in base.bytes && temporary !in base.names
    requires started == base.(names := base.names[temporary := inode], bytes := base.bytes[inode := []],
                            synced := base.synced - {inode})
    requires f == started || SameButFor(f, started, inode)
    ensures Harmless(f, base, record, temporary, base.bytes[base.names[record]], body, None)
  {
    assert base.names[record] in f.synced - {inode};
  }

  lemma HarmlessSince(f: Fs, ready: Fs, base: Fs, record: string, temporary: string,
                      before: seq<Byte>, body: seq<Byte>, intruder: Option<Inode>)
    requires Harmless(f, ready, record, temporary, before, body, intruder)
    requires OnlyTouches(ready, base, record, temporary)
    ensures Harmless(f, base, record, temporary, before, body, intruder)
  {
  }

  // ---- A record that is new ----

  // The name is as it was, or it is new and shows the whole contents from the disk.
  predicate NewOrOld(f: Fs, base: Fs, record: string, temporary: string, body: seq<Byte>) {
    && f.names - {record, temporary} == base.names - {record, temporary}
    && (forall i :: i in base.bytes ==> i in f.bytes && f.bytes[i] == base.bytes[i])
    && if record in base.names then record in f.names && f.names[record] == base.names[record]
       else record in f.names ==>
              f.names[record] in f.bytes && f.bytes[f.names[record]] == body && f.names[record] in f.synced
  }

  ghost predicate AllNewOrOld(seen: seq<Fs>, from: nat, base: Fs, record: string, temporary: string, body: seq<Byte>) {
    forall k :: from <= k < |seen| ==> NewOrOld(seen[k], base, record, temporary, body)
  }

  method WriteNewTemporary(d: Directory, temporary: string, ghost record: string, body: seq<Byte>)
    returns (inode: Option<Inode>, ok: bool)
    requires d.Valid() && temporary != record
    modifies d
    ensures d.Valid() && old(d.seen) <= d.seen
    ensures AllNewOrOld(d.seen, |old(d.seen)|, old(d.fs), record, temporary, body)
    ensures inode.None? ==> !ok && d.fs == old(d.fs)
    ensures inode.Some? ==>
              && temporary !in old(d.fs.names) && inode.value !in old(d.fs.bytes) && inode.value in d.fs.bytes
              && d.fs.names == old(d.fs.names)[temporary := inode.value]
              && forall i :: i in old(d.fs.bytes) ==> i in d.fs.bytes && d.fs.bytes[i] == old(d.fs.bytes)[i]
    ensures ok ==> inode.Some? && d.fs.bytes[inode.value] == body && inode.value in d.fs.synced
    ensures old(d.steps) <= d.steps && AllQuiet(d.steps, |old(d.steps)|)
    ensures Reliable(d.world) ==> (ok <==> temporary !in old(d.fs.names))
  {
    hide Traced;
    ghost var base, from := d.fs, |d.seen|;
    inode := d.CreateExclusive(temporary);
    if inode.None? {
      return inode, false;
    }
    ghost var started := d.fs;
    ok := WriteAndSync(d, inode.value, body);
    WritingHidesNothing(d.seen, from, started, base, record, temporary, inode.value, body);
  }

  // `_publish_new` likewise.  `stuck` says that removing the temporary failed, as the steps
  // show.
  method Publish(d: Directory, temporary: string, record: string, body: seq<Byte>)
    returns (ok: bool, published: bool, ghost stuck: bool)
    requires d.Valid() && temporary != record
    modifies d
    ensures d.Valid() && old(d.seen) <= d.seen && old(d.steps) <= d.steps
    ensures stuck ==> !published && RemovalFailed(d.steps, |old(d.steps)|, temporary)
    ensures published && temporary in d.fs.names ==> RemovalFailed(d.steps, |old(d.steps)|, temporary)
    ensures AllNewOrOld(d.seen, |old(d.seen)|, old(d.fs), record, temporary, body)
    ensures record in old(d.fs.names) ==> !published
    ensures ok ==>
              && published && temporary !in old(d.fs.names) && record in d.fs.names
              && d.fs.names == old(d.fs.names)[record := d.fs.names[record]]
              && d.fs.names[record] !in old(d.fs.bytes) && d.fs.names[record] in d.fs.synced
              && d.fs.bytes[d.fs.names[record]] == body
    ensures !published && !stuck ==> d.fs.names == old(d.fs.names)
    ensures Reliable(d.world) ==> (ok <==> temporary !in old(d.fs.names) && record !in old(d.fs.names))
  {
    hide NewOrOld, AllNewOrOld, Traced, RemovalFailed, AllQuiet;
    ok, published, stuck := false, false, false;
    ghost var base, from, t := d.fs, |d.seen|, d.steps;
    var created;
    created, ok := WriteNewTemporary(d, temporary, record, body);
    if created.None? {
      return;
    }
    var inode := created.value;
    ghost var s := d.seen;
    if ok {
      ok := d.Do(Link(temporary, record));
      published := ok;
      assert ok ==> d.fs.names == base.names[record := inode][temporary := inode];
      OneMoreNew(s, d.fs, from, base, record, temporary, body, inode);
      if ok {
        ok := Unnamed(d, temporary, record, inode, from, base, body, |t|);
      }
    }
    if !published {
      stuck := RemoveTemporary(d, temporary, record, inode, from, base, body, |t|);
    }
  }

  // The `finally` clause of a publication that did not happen.
  method RemoveTemporary(d: Directory, temporary: string, record: string, inode: Inode,
                         ghost from: nat, ghost base: Fs, ghost body: seq<Byte>, ghost begun: nat)
    returns (stuck: bool)
    requires begun <= |d.steps| && d.Valid() && AllNewOrOld(d.seen, from, base, record, temporary, body)
    requires temporary != record && temporary !in base.names && d.fs.names == base.names[temporary := inode]
    requires forall i :: i in base.bytes ==> i in d.fs.bytes && d.fs.bytes[i] == base.bytes[i]
    modifies d
    ensures d.Valid() && old(d.seen) <= d.seen && old(d.steps) <= d.steps
    ensures AllNewOrOld(d.seen, from, base, record, temporary, body)
    ensures if stuck then RemovalFailed(d.steps, begun, temporary) else d.fs.names == base.names
  {
    hide NewOrOld, AllNewOrOld, Traced, RemovalFailed;
    ghost var s, t := d.seen, d.steps;
    var cleaned := d.Do(Unlink(temporary, inode));
    if !cleaned {
      UnlinkFailed(t, begun, temporary, inode);
    }
    assert cleaned ==> d.fs.names == base.names;
    OneMoreNew(s, d.fs, from, base, record, temporary, body, inode);
    stuck := !cleaned;
  }

  // Once published: the temporary loses its name, the inode has the record's only.
  method Unnamed(d: Directory, temporary: string, record: string, inode: Inode,
                 ghost from: nat, ghost base: Fs, ghost body: seq<Byte>, ghost begun: nat)
    returns (ok: bool)
    requires begun <= |d.steps|
    requires d.Valid() && AllNewOrOld(d.seen, from, base, record, temporary, body)
    requires temporary != record && temporary !in base.names && record !in base.names && inode !in base.bytes
             && Sane(base)
    requires d.fs.names == base.names[record := inode][temporary := inode]
    requires inode in d.fs.bytes && d.fs.bytes[inode] == body && inode in d.fs.synced
    requires forall i :: i in base.bytes ==> i in d.fs.bytes && d.fs.bytes[i] == base.bytes[i]
    modifies d
    ensures d.Valid() && old(d.seen) <= d.seen && old(d.steps) <= d.steps
    ensures AllNewOrOld(d.seen, from, base, record, temporary, body)
    ensures ok ==> d.fs.names == base.names[record := inode]
    ensures temporary in d.fs.names ==> RemovalFailed(d.steps, begun, temporary)
    ensures d.fs.bytes == old(d.fs.bytes) && d.fs.synced == old(d.fs.synced)
    ensures Reliable(d.world) ==> ok
  {
    hide NewOrOld, AllNewOrOld, Traced, RemovalFailed;
    ghost var s, t := d.seen, d.steps;
    ok := d.Do(Unlink(temporary, inode));
    assert ok ==> d.fs.names == base.names[record := inode];
    OneMoreNew(s, d.fs, from, base, record, temporary, body, inode);
    if !ok {
      UnlinkFailed(t, begun, temporary, inode);
      return;
    }
    s := d.seen;
    ok := d.Do(Inspect);
    OneMoreNew(s, d.fs, from, base, record, temporary, body, inode);
    ok := ok && temporary !in d.fs.names && forall n :: n in d.fs.names && d.fs.names[n] == inode ==> n == record;
  }

  lemma OneMoreNew(seen: seq<Fs>, f: Fs, from: nat, base: Fs, record: string, temporary: string, body: seq<Byte>,
                   inode: Inode)
    requires AllNewOrOld(seen, from, base, record, temporary, body)
    requires temporary != record && temporary !in base.names
    requires var linked := base.names[record := inode];
             || f.names == base.names || f.names == base.names[temporary := inode]
             || (record !in base.names && (f.names == linked || f.names == linked[temporary := inode])
                 && inode in f.bytes && f.bytes[inode] == body && inode in f.synced)
    requires forall i :: i in base.bytes ==> i in f.bytes && f.bytes[i] == base.bytes[i]
    ensures AllNewOrOld(seen + [f], from, base, record, temporary, body)
  {
  }

  lemma WritingHidesNothing(seen: seq<Fs>, from: nat, started: Fs, base: Fs, record: string, temporary: string,
                            inode: Inode, body: seq<Byte>)
    requires temporary != record && inode !in base.bytes && temporary !in base.names
    requires started == base.(names := base.names[temporary := inode], bytes := base.bytes[inode := []],
                              synced := base.synced - {inode})
    requires from < |seen| && seen[from] == started
    requires forall k :: from < k < |seen| ==> SameButFor(seen[k], started, inode)
    ensures AllNewOrOld(seen, from, base, record, temporary, body)
  {
    forall k | from <= k < |seen| ensures NewOrOld(seen[k], base, record, temporary, body) {
      assert k == from || SameButFor(seen[k], started, inode);
    }
  }

  // ---- Both in full ----

  // `_atomic_replace`, with what every state in between shows and what excuses what is
  // left in full.
  method AtomicReplace(d: Directory, temporary: string, record: string, expected: Inode, body: seq<Byte>)
    returns (ok: bool, published: bool, ghost intruder: Option<Inode>, ghost stuck: bool)
    requires d.Valid() && temporary != record && record in d.fs.names && d.fs.names[record] in d.fs.synced
    modifies d
    ensures d.Valid() && old(d.seen) <= d.seen && old(d.steps) <= d.steps
    // wherever a crash strikes: the record's name shows all of the old or all of the new
    // bytes, from the disk, or the inode an intruder put there, and nothing else changed
    ensures var before := old(d.fs.bytes[d.fs.names[record]]);
            forall k :: |old(d.seen)| <= k < |d.seen| ==>
              var f := d.seen[k];
              && record in f.names && f.names[record] in f.bytes
              && (|| intruder == Some(f.names[record])
                  || (&& f.names[record] in f.synced
                      && (f.bytes[f.names[record]] == before || f.bytes[f.names[record]] == body)))
              && f.names - {record, temporary} == old(d.fs.names) - {record, temporary}
              && forall i :: i in old(d.fs.bytes) ==> i in f.bytes && f.bytes[i] == old(d.fs.bytes)[i]
    ensures intruder.Some? ==>
              exists k: nat :: |old(d.steps)| <= k < |d.steps|
                               && d.steps[k].ok && d.steps[k].op.Intrude? && d.steps[k].op.inode == intruder.value
    // the temporary stays only where removing it, looking at what came out of the
    // exchange, or exchanging it back is seen to have failed
    ensures published && temporary in d.fs.names ==>
              exists k: nat :: |old(d.steps)| <= k < |d.steps|
                               && !d.steps[k].ok && d.steps[k].op.Unlink? && d.steps[k].op.name == temporary
    ensures stuck ==>
              && !published
              && (|| (exists k: nat :: |old(d.steps)| <= k < |d.steps|
                                       && !d.steps[k].ok && d.steps[k].op.Unlink? && d.steps[k].op.name == temporary)
                  || (exists j: nat, k: nat :: |old(d.steps)| <= j < k < |d.steps|
                        && d.steps[j].ok && d.steps[j].op.Exchange? && d.steps[j].op.a == temporary
                        && !d.steps[k].ok
                        && (|| (d.steps[k].op.Exchange? && d.steps[k].op.a == temporary)
                            || (d.steps[k].op.Inspect? && k == j + 1))))
    ensures ok ==>
              && published && temporary !in old(d.fs.names) && expected == old(d.fs.names[record])
              && record in d.fs.names && d.fs.names == old(d.fs.names)[record := d.fs.names[record]]
              && d.fs.names[record] !in old(d.fs.bytes) && d.fs.names[record] in d.fs.synced
              && expected !in d.fs.names.Values
    ensures published ==> intruder.None? && record in d.fs.names && d.fs.names[record] in d.fs.bytes
                          && d.fs.bytes[d.fs.names[record]] == body
    ensures !published && !stuck ==>
              d.fs.names == old(d.fs.names)[record
                := if intruder.Some? then intruder.value else old(d.fs.names[record])]
    ensures (forall k: nat :: !d.world.fails(k) && d.world.intrudes(k).None?) ==>
              (ok <==> temporary !in old(d.fs.names) && expected == old(d.fs.names[record])
                       && expected !in (old(d.fs.names) - {record}).Values)
  {
    ghost var from := |d.steps|;
    hide Traced;
    ok, published, intruder, stuck := Replace(d, temporary, record, expected, body);
    if intruder.Some? {
      var k: nat :| from <= k < |d.steps| && Intrusion(d.steps[k]);
    }
  }

  // And `_publish_new`.
  method PublishNew(d: Directory, temporary: string, record: string, body: seq<Byte>)
    returns (ok: bool, published: bool, ghost stuck: bool)
    requires d.Valid() && temporary != record
    modifies d
    ensures d.Valid() && old(d.seen) <= d.seen && old(d.steps) <= d.steps
    // the name is as it was, or it is new and shows the whole contents from the disk
    ensures forall k :: |old(d.seen)| <= k < |d.seen| ==>
              var f := d.seen[k];
              && f.names - {record, temporary} == old(d.fs.names) - {record, temporary}
              && (forall i :: i in old(d.fs.bytes) ==> i in f.bytes && f.bytes[i] == old(d.fs.bytes)[i])
              && if record in old(d.fs.names) then record in f.names && f.names[record] == old(d.fs.names)[record]
                 else record in f.names ==>
                        f.names[record] in f.bytes && f.bytes[f.names[record]] == body && f.names[record] in f.synced
    ensures stuck || (published && temporary in d.fs.names) ==>
              exists k: nat :: |old(d.steps)| <= k < |d.steps|
                               && !d.steps[k].ok && d.steps[k].op.Unlink? && d.steps[k].op.name == temporary
    ensures (stuck || record in old(d.fs.names)) ==> !published
    ensures ok ==>
              && published && temporary !in old(d.fs.names) && record in d.fs.names
              && d.fs.names == old(d.fs.names)[record := d.fs.names[record]]
              && d.fs.names[record] !in old(d.fs.bytes) && d.fs.names[record] in d.fs.synced
              && d.fs.bytes[d.fs.names[record]] == body
    ensures !published && !stuck ==> d.fs.names == old(d.fs.names)
    ensures (forall k: nat :: !d.world.fails(k) && d.world.intrudes(k).None?) ==>
              (ok <==> temporary !in old(d.fs.names) && record !in old(d.fs.names))
  {
    hide Traced;
    ok, published, stuck := Publish(d, temporary, record, body);
  }
}
