/**
  The client's classification of a push that only deletes refs
  (src/agent_container/git_remote_helper.py:96-140), and its relation to the gate.
 */
module DeleteOnlyPush {
  import opened Wrappers
  import opened Bytes
  import opened PktLine
  import opened ReceivePackGate

  // The client reads a section under no limit but its length.
  function Unlimited(commands: seq<Byte>): Limits {
    Limits(65_535, |commands|, |commands|)
  }

  predicate IsHex(b: seq<Byte>) {
    b != [] && forall i :: 0 <= i < |b| ==> IsHexDigit(b[i])
  }

  datatype Deletion = Deletion(oidLength: nat, ref: Ref)

  // What a line deletes, if it deletes one.
  function Deletes(packet: seq<Byte>, first: bool): Option<Deletion> {
    var line := StripLf(packet);
    if first && (NUL !in line || NUL in line[Find(line, NUL) + 1..]) then None
    else if !first && NUL in line then None
    else
      var parts := Split(if first then line[..Find(line, NUL)] else line, SPACE);
      if |parts| != 3 || |parts[0]| !in {40, 64} then None
      else if |parts[1]| != |parts[0]| || !IsHex(parts[0]) || !IsHex(parts[1])
        || parts[0] == Zeros(|parts[0]|) then None
      else if parts[1] != Zeros(|parts[1]|) || !StartsWith(parts[2], Ascii("refs/")) then None
      else Some(Deletion(|parts[0]|, parts[2]))
  }

  // Packet `i` deletes a ref, under object ids as long as those of the first.
  predicate DeletesAt(packets: seq<seq<Byte>>, i: nat)
    requires i < |packets|
  {
    && Deletes(packets[i], i == 0).Some? && Deletes(packets[0], true).Some?
    && Deletes(packets[i], i == 0).value.oidLength == Deletes(packets[0], true).value.oidLength
  }

  predicate SameDeletion(packets: seq<seq<Byte>>, i: nat, j: nat)
    requires i < |packets| && j < |packets|
  {
    match (Deletes(packets[i], i == 0), Deletes(packets[j], j == 0))
    case (Some(u), Some(v)) => u.ref == v.ref
    case _ => false
  }

  predicate DeletesAll(packets: seq<seq<Byte>>) {
    && (forall i :: 0 <= i < |packets| ==> DeletesAt(packets, i))
    && (forall i, j :: 0 <= i < j < |packets| ==> !SameDeletion(packets, i, j))
  }

  // One whole section of at least one deletion, and nothing behind it.
  predicate DeleteOnly(commands: seq<Byte>) {
    var parsed := Parse(commands, 0, 0, Unlimited(commands));
    parsed.Ok? && parsed.value.consumed == |commands| && parsed.value.packets != [] && DeletesAll(parsed.value.packets)
  }

  // `_is_delete_only_receive_pack`.
  method IsDeleteOnly(commands: seq<Byte>) returns (r: bool)
    ensures r == DeleteOnly(commands)
  {
    hide HeaderValue, IsHeader, Deletes, Parse, DeletesAll;
    ghost var limits := Unlimited(commands);
    ghost var whole := Parse(commands, 0, 0, limits);
    var offset := 0;
    var updates := 0;
    var oidLength: Option<nat> := None;
    var refs: set<Ref> := {};
    ghost var packets: seq<seq<Byte>> := [];
    assert commands[0..] == commands;
    NoPrefix(whole);
    NothingDeleted();
    while offset < |commands|
      invariant 0 <= offset <= |commands| && |packets| == updates && 4 * updates <= offset
      invariant Prefixed(packets, Parse(commands[offset..], offset, updates, limits)) == whole
      invariant DeletesAll(packets)
      invariant updates == 0 <==> oidLength == None
      invariant updates > 0 ==> Deletes(packets[0], true).Some?
                                && oidLength == Some(Deletes(packets[0], true).value.oidLength)
      invariant refs == Deleted(packets)
    {
      var rest := commands[offset..];
      ParseStep(rest, offset, updates, limits);
      var header := commands[offset..if offset + 4 <= |commands| then offset + 4 else |commands|];
      assert |rest| >= 4 ==> rest[..4] == header;
      if |header| != 4 || !IsHeader(header) {
        return false;
      }
      var length := HeaderValue(header);
      if length == 0 {
        assert packets + [] == packets;
        return updates > 0 && offset + 4 == |commands|;
      }
      if length < 4 || offset + length > |commands| {
        return false;
      }
      var packet := commands[offset + 4..offset + length];
      TailSlices(commands, offset, length);
      ghost var tail := Parse(commands[offset + length..], offset + length, updates + 1, limits);
      Prefixing(packets, packet, tail);
      var deletion := Deletes(packet, updates == 0);
      OneMoreDeletion(packets, packet);
      if deletion.None? || (oidLength.Some? && oidLength.value != deletion.value.oidLength)
        || deletion.value.ref in refs {
        RefusedBy(packets, packet, whole, tail);
        return false;
      }
      oidLength := Some(deletion.value.oidLength);
      refs := refs + {deletion.value.ref};
      packets := packets + [packet];
      updates := updates + 1;
      offset := offset + length;
    }
    ParseStep(commands[offset..], offset, updates, limits);
    return false;
  }

  lemma NothingDeleted()
    ensures DeletesAll([]) && Deleted([]) == {}
  {
  }

  lemma TailSlices(b: seq<Byte>, offset: nat, length: nat)
    requires 4 <= length && offset + length <= |b|
    ensures b[offset..][4..length] == b[offset + 4..offset + length] && b[offset..][length..] == b[offset + length..]
  {
  }

  function Deleted(packets: seq<seq<Byte>>): set<Ref> {
    set i: nat | i < |packets| && Deletes(packets[i], i == 0).Some? :: Deletes(packets[i], i == 0).value.ref
  }

  lemma ParseStep(rest: seq<Byte>, offset: nat, count: nat, limits: Limits)
    requires offset + |rest| == limits.section && limits.packet == 65_535 && 4 * count <= offset
             && limits.packets == limits.section
    ensures |rest| < 4 || !IsHeader(rest[..4]) ==> Parse(rest, offset, count, limits).Refused?
    ensures |rest| >= 4 && IsHeader(rest[..4]) ==>
              var length := HeaderValue(rest[..4]);
              && (length == 0 ==> Parse(rest, offset, count, limits) == Ok(Section([], offset + 4)))
              && (0 < length < 4 || length > |rest| ==> Parse(rest, offset, count, limits).Refused?)
              && (4 <= length <= |rest| ==>
                    Parse(rest, offset, count, limits) ==
                    Prefixed([rest[4..length]], Parse(rest[length..], offset + length, count + 1, limits)))
  {
    hide HeaderValue;
  }

  lemma RefusedBy(packets: seq<seq<Byte>>, packet: seq<Byte>, whole: Result<Section>, tail: Result<Section>)
    requires whole == Prefixed(packets + [packet], tail)
    requires !DeletesAll(packets + [packet])
    ensures whole.Ok? ==> !DeletesAll(whole.value.packets)
  {
    hide Deletes;
    if whole.Ok? && DeletesAll(whole.value.packets) {
      var seen := packets + [packet];
      var all := whole.value.packets;
      assert all[..|seen|] == seen;
      forall i | 0 <= i < |seen| ensures DeletesAt(seen, i) {
        assert DeletesAt(all, i) && all[i] == seen[i] && all[0] == seen[0];
      }
      forall i, j | 0 <= i < j < |seen| ensures !SameDeletion(seen, i, j) {
        assert !SameDeletion(all, i, j) && all[i] == seen[i] && all[j] == seen[j];
      }
    }
  }

  lemma OneMoreDeletion(packets: seq<seq<Byte>>, packet: seq<Byte>)
    requires DeletesAll(packets)
    ensures var deletion := Deletes(packet, packets == []);
            DeletesAll(packets + [packet]) <==>
              && deletion.Some? && deletion.value.ref !in Deleted(packets)
              && (packets != [] ==> DeletesAt(packets, 0)
                                    && deletion.value.oidLength == Deletes(packets[0], true).value.oidLength)
    ensures Deletes(packet, packets == []).Some? ==>
              Deleted(packets + [packet]) == Deleted(packets) + {Deletes(packet, packets == []).value.ref}
  {
    hide Deletes;
    var all := packets + [packet];
    var n := |packets|;
    forall i | 0 <= i < n ensures all[i] == packets[i] && DeletesAt(packets, i) && DeletesAt(all, i) {
      assert DeletesAt(packets, i);
    }
    var deletion := Deletes(packet, packets == []);
    forall i, j | 0 <= i < j < n ensures !SameDeletion(all, i, j) {
      assert !SameDeletion(packets, i, j);
    }
    assert Deletes(all[n], n == 0) == deletion;
    if DeletesAll(all) {
      assert DeletesAt(all, n);
      forall i: nat | i < n ensures Deletes(packets[i], i == 0).value.ref != deletion.value.ref {
        assert !SameDeletion(all, i, n);
      }
    }
    if deletion.Some? {
      assert forall i: nat :: i < n ==> Deletes(all[i], i == 0) == Deletes(packets[i], i == 0);
      if deletion.value.ref !in Deleted(packets) {
        forall i: nat | i < n ensures !SameDeletion(all, i, n) {
          assert Deletes(packets[i], i == 0).value.ref in Deleted(packets);
        }
      }
    }
  }

  // ---- The client's verdict against the gate's ----

  // A deletion asks for the zero object; the gate creates no such ref.
  lemma DeletionIsNoCreation(packets: seq<seq<Byte>>, advertisement: Advertisement, policy: Policy)
    requires packets != [] && Deletes(packets[0], true).Some?
    ensures !CreateCommand(packets, 0, advertisement, policy)
  {
    hide PushRefOk, IsHex, Split, Find, StartsWith;
  }

  // Whatever follows a section classified as delete-only, and whatever refs the
  // remote advertises and the policy allows, the gate refuses it.
  lemma DeleteOnlyIsRefused(commands: seq<Byte>, tail: seq<Byte>, advertisement: Advertisement, policy: Policy)
    requires DeleteOnly(commands)
    ensures var parsed := Parse(commands + tail, 0, 0, LIMITS);
            !(parsed.Ok? && CreateOnly(parsed.value.packets, advertisement, policy))
  {
    hide Parse, Encodes, Deletes, CreateCommand, ClientCapabilitiesOk;
    var packets := Parse(commands, 0, 0, Unlimited(commands)).value.packets;
    var all := commands + tail;
    DecodesExactlyTheGrammar(commands, packets, |commands|, Unlimited(commands));
    assert all[..|commands|] == commands[..|commands|];
    DecodesExactlyTheGrammar(all, packets, |commands|, Unlimited(commands));
    if Parse(all, 0, 0, LIMITS).Ok? {
      WiderLimits(all, 0, 0, LIMITS, Unlimited(commands));
      assert DeletesAt(packets, 0);
      DeletionIsNoCreation(packets, advertisement, policy);
    }
  }

  // No batch is both deleting and accepted.
  lemma AcceptedIsNotDeleteOnly(data: seq<Byte>, advertisement: Advertisement, policy: Policy, updates: seq<RefUpdate>)
    requires Accepted(data, advertisement, policy, updates)
    ensures !DeleteOnly(data)
  {
    hide Parse, DeleteOnly, CreateOnly, Command;
    assert data + [] == data;
    if DeleteOnly(data) {
      DeleteOnlyIsRefused(data, [], advertisement, policy);
    }
  }
}
