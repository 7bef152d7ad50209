/**
  The create-only gate in front of receive-pack, as in "Reference Update
  Request" of gitprotocol-pack(5) (src/agent_container/git_protocol.py:89-262,
  github_broker_policy.py:29-44, 146-160, git_remote_helper.py:96-140,
  github_broker_transport.py:288-384).
 */
module ReceivePackGate {
  import opened Wrappers
  import opened Bytes
  import opened PktLine

  const MAX_REF_UPDATES := 8

  type Ref = seq<Byte>
  type Oid = seq<Byte>

  datatype Format = Sha1 | Sha256

  function OidLength(f: Format): nat {
    if f.Sha1? then 40 else 64
  }

  function Zeros(n: nat): seq<Byte> {
    seq(n, _ => ZERO)
  }

  function ZeroOid(f: Format): Oid {
    Zeros(OidLength(f))
  }

  predicate ValidOid(b: seq<Byte>, f: Format) {
    |b| == OidLength(f) && forall i :: 0 <= i < |b| ==> 48 <= b[i] <= 57 || 97 <= b[i] <= 102
  }

  // ---- Lines ----

  function StripLf(line: seq<Byte>): seq<Byte> {
    if line != [] && line[|line| - 1] == LF then line[..|line| - 1] else line
  }

  // The fields of line `i`; the capabilities of line 0 are cut off behind a NUL.
  function Fields(packets: seq<seq<Byte>>, i: nat): Option<seq<seq<Byte>>>
    requires i < |packets|
  {
    var line := StripLf(packets[i]);
    if i == 0 then
      if NUL in line then Some(Split(line[..Find(line, NUL)], SPACE)) else None
    else if NUL in line then None else Some(Split(line, SPACE))
  }

  function RawCapabilities(packets: seq<seq<Byte>>): seq<Byte>
    requires packets != [] && NUL in StripLf(packets[0])
  {
    var line := StripLf(packets[0]);
    line[Find(line, NUL) + 1..]
  }

  // ---- Capabilities ----

  function NameOf(capability: seq<Byte>): seq<Byte> {
    capability[..Find(capability, EQUALS)]
  }

  predicate CapabilitiesOk(raw: seq<Byte>) {
    && IsAscii(raw)
    && var items := Capabilities(raw);
       && (forall i :: 0 <= i < |items| ==> items[i] != [])
       && (forall i, j :: 0 <= i < j < |items| ==> NameOf(items[i]) != NameOf(items[j]))
  }

  function Capabilities(raw: seq<Byte>): seq<seq<Byte>> {
    if raw == [] then [] else Split(raw, SPACE)
  }

  function FormatCapability(f: Format): seq<Byte> {
    Ascii("object-format=") + if f.Sha1? then Ascii("sha1") else Ascii("sha256")
  }

  predicate IsFormat(capability: seq<Byte>) {
    StartsWith(capability, Ascii("object-format="))
  }

  // The object format a list of capabilities selects.
  predicate Selects(items: seq<seq<Byte>>, f: Format) {
    && (forall i :: 0 <= i < |items| && IsFormat(items[i]) ==> items[i] == FormatCapability(f))
    && (f.Sha256? ==> FormatCapability(f) in items)
  }

  predicate IsAlphanumeric(b: Byte) {
    65 <= b <= 90 || 97 <= b <= 122 || 48 <= b <= 57
  }

  // agent=[A-Za-z0-9][A-Za-z0-9._/+~-]{0,127}
  predicate IsAgent(capability: seq<Byte>) {
    && StartsWith(capability, Ascii("agent="))
    && var value := capability[6..];
       && 1 <= |value| <= 128 && IsAlphanumeric(value[0])
       && forall i :: 0 <= i < |value| ==> IsAlphanumeric(value[i]) || value[i] in Ascii("._/+~-")
  }

  predicate IsFixedCapability(capability: seq<Byte>) {
    || capability == Ascii("report-status") || capability == Ascii("report-status-v2")
    || capability == Ascii("side-band-64k") || capability == Ascii("quiet")
    || capability == Ascii("atomic") || capability == Ascii("ofs-delta")
  }

  datatype Advertisement = Advertisement(refs: map<Ref, Oid>, capabilities: seq<seq<Byte>>, format: Format,
      consumed: nat)

  predicate Advertises(advertisement: Advertisement, name: seq<Byte>) {
    exists i :: 0 <= i < |advertisement.capabilities| && NameOf(advertisement.capabilities[i]) == name
  }

  predicate ClientCapability(capability: seq<Byte>, advertisement: Advertisement) {
    && Advertises(advertisement, NameOf(capability))
    && (IsFormat(capability) ==> capability == FormatCapability(advertisement.format))
    && (IsFixedCapability(capability) || capability == FormatCapability(advertisement.format) || IsAgent(capability))
  }

  function WithoutSpace(raw: seq<Byte>): seq<Byte> {
    if raw != [] && raw[0] == SPACE then raw[1..] else raw
  }

  // ---- Policy ----

  datatype Policy = Policy(protectedBranches: set<seq<Byte>>)

  // A branch name: one to 200 characters of a small alphabet, and none of the
  // forms Git gives a meaning to.  ("@{" cannot occur in the alphabet.)
  predicate ValidBranch(b: seq<Byte>) {
    && 1 <= |b| <= 200 && IsAlphanumeric(b[0])
    && (forall i :: 0 <= i < |b| ==> IsAlphanumeric(b[i]) || b[i] in Ascii("._/-"))
    && !StartsWith(b, Ascii("refs/"))
    && !EndsWith(b, Ascii("/")) && !EndsWith(b, Ascii("."))
    && !Contains(b, Ascii("//")) && !Contains(b, Ascii(".."))
    && var parts := Split(b, SLASH);
       forall i :: 0 <= i < |parts| ==>
         parts[i] != [] && parts[i] != Ascii(".") && parts[i] != Ascii("..") && !EndsWith(parts[i], Ascii(".lock"))
  }

  const HEADS := Ascii("refs/heads/")

  predicate PushRefOk(policy: Policy, ref: Ref) {
    && StartsWith(ref, HEADS)
    && ValidBranch(ref[|HEADS|..]) && ref[|HEADS|..] !in policy.protectedBranches
  }

  // ---- The gate ----

  datatype RefUpdate = RefUpdate(old_oid: Oid, new_oid: Oid, ref: Ref)

  datatype Gated = Gated(updates: seq<RefUpdate>, capabilities: seq<seq<Byte>>, consumed: nat)

  function Command(packets: seq<seq<Byte>>, i: nat): Option<RefUpdate>
    requires i < |packets|
  {
    match Fields(packets, i)
    case None => None
    case Some(parts) => if |parts| == 3 then Some(RefUpdate(parts[0], parts[1], parts[2])) else None
  }

  // A ref that does not exist yet, inside the policy, with an object.
  predicate Creates(u: RefUpdate, advertisement: Advertisement, policy: Policy) {
    var zero := ZeroOid(advertisement.format);
    && ValidOid(u.old_oid, advertisement.format) && ValidOid(u.new_oid, advertisement.format)
    && IsAscii(u.ref) && PushRefOk(policy, u.ref)
    && u.new_oid != zero && u.ref !in advertisement.refs && u.old_oid == zero
  }

  predicate CreateCommand(packets: seq<seq<Byte>>, i: nat, advertisement: Advertisement, policy: Policy)
    requires i < |packets|
  {
    Command(packets, i).Some? && Creates(Command(packets, i).value, advertisement, policy)
  }

  predicate ClientCapabilitiesOk(raw: seq<Byte>, advertisement: Advertisement) {
    && CapabilitiesOk(raw)
    && forall c :: c in Capabilities(raw) ==> ClientCapability(c, advertisement)
  }

  // The batches the gate lets through.
  predicate CreateOnly(packets: seq<seq<Byte>>, advertisement: Advertisement, policy: Policy) {
    && 1 <= |packets| <= MAX_REF_UPDATES
    && NUL in StripLf(packets[0])
    && ClientCapabilitiesOk(WithoutSpace(RawCapabilities(packets)), advertisement)
    && (forall i :: 0 <= i < |packets| ==> CreateCommand(packets, i, advertisement, policy))
    && (forall i, j :: 0 <= i < j < |packets| ==> !SameRef(packets, i, j))
  }

  predicate SameRef(packets: seq<seq<Byte>>, i: nat, j: nat)
    requires i < |packets| && j < |packets|
  {
    match (Command(packets, i), Command(packets, j))
    case (Some(u), Some(v)) => u.ref == v.ref
    case _ => false
  }

  // `gate_receive_pack_commands`.
  method Gate(data: seq<Byte>, advertisement: Advertisement, policy: Policy) returns (r: Result<Gated>)
    ensures r.Ok? <==> Parse(data, 0, 0, LIMITS).Ok?
                       && CreateOnly(Parse(data, 0, 0, LIMITS).value.packets, advertisement, policy)
    ensures r.Ok? ==>
              var section := Parse(data, 0, 0, LIMITS).value;
              && |r.value.updates| == |section.packets| && r.value.consumed == section.consumed
              && r.value.capabilities == Capabilities(WithoutSpace(RawCapabilities(section.packets)))
              && forall i :: 0 <= i < |section.packets| ==> Command(section.packets, i) == Some(r.value.updates[i])
  {
    hide Parse, ClientCapabilitiesOk, ClientCapability, Capabilities, PushRefOk, Fields, RawCapabilities, WithoutSpace;
    var decoded := DecodeSection(data, LIMITS);
    if decoded.Refused? {
      return Refused;
    }
    var packets := decoded.value.packets;
    if |packets| == 0 || |packets| > MAX_REF_UPDATES {
      return Refused;
    }
    var updates: seq<RefUpdate> := [];
    var seen: set<Ref> := {};
    var capabilities: seq<seq<Byte>> := [];
    var zero := ZeroOid(advertisement.format);
    for index := 0 to |packets|
      invariant |updates| == index
      invariant index > 0 ==>
                  && NUL in StripLf(packets[0])
                  && ClientCapabilitiesOk(WithoutSpace(RawCapabilities(packets)), advertisement)
                  && capabilities == Capabilities(WithoutSpace(RawCapabilities(packets)))
      invariant forall i :: 0 <= i < index ==>
                  CreateCommand(packets, i, advertisement, policy) && Command(packets, i) == Some(updates[i])
                  && updates[i].ref in seen
      invariant forall ref :: ref in seen ==> exists i :: 0 <= i < index && updates[i].ref == ref
      invariant forall i, j :: 0 <= i < j < index ==> updates[i].ref != updates[j].ref
    {
      if index == 0 {
        if NUL !in StripLf(packets[0]) {
          return Refused;
        }
        var raw := WithoutSpace(RawCapabilities(packets));
        if !ClientCapabilitiesOk(raw, advertisement) {
          return Refused;
        }
        capabilities := Capabilities(raw);
      }
      var command := Command(packets, index);
      if command.None? {
        assert !CreateCommand(packets, index, advertisement, policy);
        return Refused;
      }
      var u := command.value;
      if !ValidOid(u.old_oid, advertisement.format) || !ValidOid(u.new_oid, advertisement.format) || !IsAscii(u.ref)
         || !PushRefOk(policy, u.ref)
      {
        assert !CreateCommand(packets, index, advertisement, policy);
        return Refused;
      }
      if u.ref in seen {
        var i :| 0 <= i < index && updates[i].ref == u.ref;
        assert SameRef(packets, i, index);
        return Refused;
      }
      if u.new_oid == zero || u.ref in advertisement.refs || u.old_oid != zero {
        assert !CreateCommand(packets, index, advertisement, policy);
        return Refused;
      }
      seen := seen + {u.ref};
      updates := updates + [u];
    }
    return Ok(Gated(updates, capabilities, decoded.value.consumed));
  }

  // ---- What an accepted batch does to the repository ----

  // A server's reading of the commands: the zero object deletes a ref.
  function Apply(refs: map<Ref, Oid>, updates: seq<RefUpdate>, zero: Oid): map<Ref, Oid> {
    if updates == [] then refs
    else
      var u := updates[|updates| - 1];
      var before := Apply(refs, updates[..|updates| - 1], zero);
      if u.new_oid == zero then before - {u.ref} else before[u.ref := u.new_oid]
  }

  ghost predicate Accepted(data: seq<Byte>, advertisement: Advertisement, policy: Policy, updates: seq<RefUpdate>) {
    && Parse(data, 0, 0, LIMITS).Ok?
    && var packets := Parse(data, 0, 0, LIMITS).value.packets;
       && CreateOnly(packets, advertisement, policy) && |updates| == |packets|
       && forall i :: 0 <= i < |packets| ==> Command(packets, i) == Some(updates[i])
  }

  predicate AllCreate(updates: seq<RefUpdate>, advertisement: Advertisement, policy: Policy) {
    && (forall i :: 0 <= i < |updates| ==> Creates(updates[i], advertisement, policy))
    && (forall i, j :: 0 <= i < j < |updates| ==> updates[i].ref != updates[j].ref)
  }

  lemma AcceptedCreates(data: seq<Byte>, advertisement: Advertisement, policy: Policy, updates: seq<RefUpdate>)
    requires Accepted(data, advertisement, policy, updates)
    ensures AllCreate(updates, advertisement, policy) && 1 <= |updates| <= MAX_REF_UPDATES
  {
    hide Parse, ClientCapabilitiesOk, Creates, Command;
    var packets := Parse(data, 0, 0, LIMITS).value.packets;
    forall i | 0 <= i < |updates| ensures Creates(updates[i], advertisement, policy) {
      assert CreateCommand(packets, i, advertisement, policy);
    }
    forall i, j | 0 <= i < j < |updates| ensures updates[i].ref != updates[j].ref {
      assert !SameRef(packets, i, j);
    }
  }

  function RefsOf(updates: seq<RefUpdate>): set<Ref> {
    set i | 0 <= i < |updates| :: updates[i].ref
  }

  // `after` keeps every ref of `refs`, and its object.
  predicate Keeps(refs: map<Ref, Oid>, after: map<Ref, Oid>) {
    forall ref :: ref in refs ==> ref in after && after[ref] == refs[ref]
  }

  // The refs of `updates` are new, and `after` holds their objects.
  predicate Holds(refs: map<Ref, Oid>, updates: seq<RefUpdate>, after: map<Ref, Oid>) {
    forall i :: 0 <= i < |updates| ==> HoldsOne(refs, updates[i], after)
  }

  predicate HoldsOne(refs: map<Ref, Oid>, u: RefUpdate, after: map<Ref, Oid>) {
    u.ref !in refs && u.ref in after && after[u.ref] == u.new_oid
  }

  // `after` is `refs` with exactly these refs added.
  predicate Added(refs: map<Ref, Oid>, updates: seq<RefUpdate>, after: map<Ref, Oid>) {
    && after.Keys == refs.Keys + RefsOf(updates) && |after| == |refs| + |updates|
    && Keeps(refs, after) && Holds(refs, updates, after)
  }

  lemma RefsGrow(updates: seq<RefUpdate>, u: RefUpdate)
    ensures RefsOf(updates + [u]) == RefsOf(updates) + {u.ref}
  {
    var all := updates + [u];
    assert all[|updates|].ref == u.ref;
    forall i | 0 <= i < |updates| ensures all[i].ref == updates[i].ref {
    }
    assert forall ref :: ref in RefsOf(updates) ==> exists i :: 0 <= i < |updates| && all[i].ref == ref;
  }

  lemma NewKey<K, V>(m: map<K, V>, k: K, v: V)
    requires k !in m
    ensures m[k := v].Keys == m.Keys + {k} && |m[k := v]| == |m| + 1
  {
    assert m[k := v].Keys == m.Keys + {k};
  }

  lemma AddOne(refs: map<Ref, Oid>, updates: seq<RefUpdate>, u: RefUpdate, mid: map<Ref, Oid>)
    requires Added(refs, updates, mid) && u.ref !in refs && u.ref !in RefsOf(updates)
    ensures Added(refs, updates + [u], mid[u.ref := u.new_oid])
  {
    hide RefsOf, Keeps, Holds;
    RefsGrow(updates, u);
    NewKey(mid, u.ref, u.new_oid);
    KeepsMore(refs, mid, u);
    HoldsMore(refs, updates, u, mid);
  }

  lemma KeepsMore(refs: map<Ref, Oid>, mid: map<Ref, Oid>, u: RefUpdate)
    requires Keeps(refs, mid) && u.ref !in refs
    ensures Keeps(refs, mid[u.ref := u.new_oid])
  {
  }

  lemma HoldsMore(refs: map<Ref, Oid>, updates: seq<RefUpdate>, u: RefUpdate, mid: map<Ref, Oid>)
    requires Holds(refs, updates, mid) && u.ref !in refs && u.ref !in RefsOf(updates)
    ensures Holds(refs, updates + [u], mid[u.ref := u.new_oid])
  {
    hide RefsOf;
    var all := updates + [u];
    forall i: nat | i < |all| ensures HoldsOne(refs, all[i], mid[u.ref := u.new_oid]) {
      if i < |updates| {
        OtherRef(updates, i, u.ref);
        assert HoldsOne(refs, updates[i], mid);
      }
    }
  }

  lemma OtherRef(updates: seq<RefUpdate>, i: nat, ref: Ref)
    requires i < |updates| && ref !in RefsOf(updates)
    ensures updates[i].ref in RefsOf(updates) && updates[i].ref != ref
  {
  }

  // Creating distinct refs that do not exist: nothing else moves.
  lemma {:induction false} CreatesOnlyAdd(updates: seq<RefUpdate>, advertisement: Advertisement, policy: Policy)
    requires AllCreate(updates, advertisement, policy)
    ensures Added(advertisement.refs, updates, Apply(advertisement.refs, updates, ZeroOid(advertisement.format)))
    decreases |updates|
  {
    hide Creates, ZeroOid, Added;
    if updates == [] {
      NothingAdded(advertisement.refs);
    } else {
      var n := |updates| - 1;
      CreatesOnlyAdd(updates[..n], advertisement, policy);
      assert updates[..n] + [updates[n]] == updates;
      assert Creates(updates[n], advertisement, policy);
      CreatesNew(updates[n], advertisement, policy);
      AddOne(advertisement.refs, updates[..n], updates[n],
             Apply(advertisement.refs, updates[..n], ZeroOid(advertisement.format)));
    }
  }

  lemma NothingAdded(refs: map<Ref, Oid>)
    ensures Added(refs, [], refs)
  {
    assert RefsOf([]) == {};
  }

  lemma CreatesNew(u: RefUpdate, advertisement: Advertisement, policy: Policy)
    requires Creates(u, advertisement, policy)
    ensures u.ref !in advertisement.refs && u.new_oid != ZeroOid(advertisement.format)
    ensures StartsWith(u.ref, HEADS) && ValidBranch(u.ref[|HEADS|..]) && u.ref[|HEADS|..] !in policy.protectedBranches
  {
  }

  // Every accepted batch leaves each existing ref alone and adds exactly its own
  // refs: at most eight, distinct, under refs/heads/, not protected, with objects.
  lemma AcceptedBatchOnlyCreates(data: seq<Byte>, advertisement: Advertisement, policy: Policy, updates: seq<RefUpdate>)
    requires Accepted(data, advertisement, policy, updates)
    ensures var refs := advertisement.refs;
            var after := Apply(refs, updates, ZeroOid(advertisement.format));
            && (forall ref :: ref in refs ==> ref in after && after[ref] == refs[ref])
            && (forall i :: 0 <= i < |updates| ==>
                  updates[i].ref !in refs && updates[i].ref in after && after[updates[i].ref] == updates[i].new_oid)
            && 1 <= |after| - |refs| == |updates| <= 8
    ensures forall i :: 0 <= i < |updates| ==> FreshBranch(updates[i], advertisement, policy)
  {
    AcceptedCreates(data, advertisement, policy, updates);
    hide Accepted, Apply, ZeroOid, Creates;
    CreatesOnlyAdd(updates, advertisement, policy);
    var after := Apply(advertisement.refs, updates, ZeroOid(advertisement.format));
    forall i | 0 <= i < |updates|
      ensures updates[i].ref !in advertisement.refs && updates[i].ref in after
              && after[updates[i].ref] == updates[i].new_oid
    {
      assert HoldsOne(advertisement.refs, updates[i], after);
    }
    hide Holds, RefsOf;
    forall i | 0 <= i < |updates| ensures FreshBranch(updates[i], advertisement, policy) {
      CreatesNew(updates[i], advertisement, policy);
    }
  }

  // A well-named, unprotected branch that did not exist, and an object for it.
  predicate FreshBranch(u: RefUpdate, advertisement: Advertisement, policy: Policy) {
    && u.ref !in advertisement.refs && u.new_oid != ZeroOid(advertisement.format)
    && StartsWith(u.ref, HEADS) && ValidBranch(u.ref[|HEADS|..]) && u.ref[|HEADS|..] !in policy.protectedBranches
  }
}
