/**
  Which batches the create-only gate lets through, in the fields of their commands
  (src/agent_container/git_protocol.py:178-262, github_broker_policy.py:29-46, 146-160).
 */
module CreateBatches {
  import opened Wrappers
  import opened Bytes
  import opened PktLine
  import opened ReceivePackGate
  import opened Separators
  import opened ReceivePackAdvertisement
  import opened AdvertisementSize

  const DOT: Byte := 46

  // ---- Branch names ----

  // A letter, a digit, a dot, an underscore or a hyphen.
  predicate InComponent(c: Byte) {
    48 <= c <= 57 || 65 <= c <= 90 || 97 <= c <= 122 || c == 46 || c == 95 || c == 45
  }

  predicate NoPair(b: seq<Byte>, x: Byte) {
    forall i :: 0 <= i < |b| - 1 ==> b[i] != x || b[i + 1] != x
  }

  // One component of a branch name: not empty, not a dot alone, without two dots in a
  // row, and not ending in ".lock".
  predicate IsComponent(p: seq<Byte>) {
    && p != [] && (forall i :: 0 <= i < |p| ==> InComponent(p[i])) && p != [DOT] && NoPair(p, DOT)
    && !(|p| >= 5 && p[|p| - 5..] == [46, 108, 111, 99, 107])
  }

  // Components joined by single slashes: 1 to 200 bytes that start with a letter or a
  // digit, do not end in a dot and do not start with "refs/".
  ghost predicate IsBranch(b: seq<Byte>) {
    && 1 <= |b| <= 200 && (48 <= b[0] <= 57 || 65 <= b[0] <= 90 || 97 <= b[0] <= 122)
    && b[|b| - 1] != DOT && !([114, 101, 102, 115, 47] <= b)
    && exists parts :: Components(parts) && b == JoinedBy(parts, 47)
  }

  predicate Components(parts: seq<seq<Byte>>) {
    parts != [] && forall i :: 0 <= i < |parts| ==> IsComponent(parts[i])
  }

  lemma Literals()
    ensures Ascii("refs/") == [114, 101, 102, 115, 47] && Ascii(".lock") == [46, 108, 111, 99, 107]
    ensures Ascii("/") == [47] && Ascii(".") == [46] && Ascii("//") == [47, 47] && Ascii("..") == [46, 46]
    ensures Ascii("._/-") == [46, 95, 47, 45]
  {
  }

  lemma {:induction false} ContainsPair(b: seq<Byte>, x: Byte)
    ensures Contains(b, [x, x]) <==> !NoPair(b, x)
  {
    if b == [] {
      assert !([x, x] <= b);
    } else {
      ContainsPair(b[1..], x);
      assert [x, x] <= b <==> |b| >= 2 && b[0] == x && b[1] == x by {
        if |b| >= 2 {
          assert b[..2] == [b[0], b[1]];
        }
      }
      NoPairTail(b, x);
    }
  }

  lemma NoPairTail(b: seq<Byte>, x: Byte)
    requires b != []
    ensures NoPair(b, x) <==> NoPair(b[1..], x) && !(|b| >= 2 && b[0] == x && b[1] == x)
  {
    var t := b[1..];
    assert forall i :: 0 <= i < |t| ==> t[i] == b[i + 1];
    if NoPair(t, x) && !(|b| >= 2 && b[0] == x && b[1] == x) {
      forall i | 0 <= i < |b| - 1 ensures b[i] != x || b[i + 1] != x {
        if i > 0 {
          assert t[i - 1] == b[i] && t[i] == b[i + 1];
        }
      }
    }
  }

  // A part without a separator.
  predicate IsPart(b: seq<Byte>, part: seq<Byte>, i: nat, j: nat) {
    i <= j <= |b| && part == b[i..j] && forall m :: i <= m < j ==> b[m] != SLASH
  }

  lemma {:induction false} PartIsSlice(b: seq<Byte>, n: nat) returns (i: nat, j: nat)
    requires n < |Split(b, SLASH)|
    ensures IsPart(b, Split(b, SLASH)[n], i, j)
    decreases |b|
  {
    hide Split, Find;
    var k := Find(b, SLASH);
    SplitUnfolds(b, SLASH);
    if n == 0 {
      assert b[0..k] == b[..k];
      i, j := 0, k;
    } else {
      var u, v := PartIsSlice(b[k + 1..], n - 1);
      i, j := k + 1 + u, k + 1 + v;
      PartBehind(b, k + 1, Split(b, SLASH)[n], u, v);
    }
  }

  lemma PartBehind(b: seq<Byte>, k: nat, part: seq<Byte>, u: nat, v: nat)
    requires k <= |b| && IsPart(b[k..], part, u, v)
    ensures IsPart(b, part, k + u, k + v)
  {
    assert b[k..][u..v] == b[k + u..k + v];
    forall m | k + u <= m < k + v ensures b[m] != SLASH {
      assert b[m] == b[k..][m - k];
    }
  }

  lemma PartsAreComponents(b: seq<Byte>, n: nat)
    requires ValidBranch(b) && n < |Split(b, SLASH)|
    ensures IsComponent(Split(b, SLASH)[n])
  {
    Literals();
    ContainsPair(b, DOT);
    hide Ascii, Contains, Split;
    var i, j := PartIsSlice(b, n);
    SliceIsComponentLike(b, i, j);
  }

  lemma SliceIsComponentLike(b: seq<Byte>, i: nat, j: nat)
    requires i <= j <= |b| && NoPair(b, DOT) && forall m :: i <= m < j ==> b[m] != SLASH
    requires forall k :: 0 <= k < |b| ==> InComponent(b[k]) || b[k] == SLASH
    ensures NoPair(b[i..j], DOT) && forall k :: 0 <= k < j - i ==> InComponent(b[i..j][k])
  {
    var p := b[i..j];
    assert forall k :: 0 <= k < |p| ==> p[k] == b[i + k];
    forall k | 0 <= k < |p| ensures InComponent(p[k]) {
      assert p[k] in p;
    }
  }

  lemma {:induction false} JoinedChars(parts: seq<seq<Byte>>)
    requires Components(parts)
    ensures var b := JoinedBy(parts, SLASH);
            && b != [] && b[0] == parts[0][0] && b[|b| - 1] != SLASH && b[0] != SLASH
            && NoPair(b, DOT) && NoPair(b, SLASH)
            && forall i :: 0 <= i < |b| ==> InComponent(b[i]) || b[i] == SLASH
    decreases |parts|
  {
    assert IsComponent(parts[0]);
    if |parts| > 1 {
      var rest := parts[1..];
      assert forall i :: 0 <= i < |rest| ==> rest[i] == parts[i + 1];
      JoinedChars(rest);
      PairsAcross(parts[0], JoinedBy(rest, SLASH));
    }
  }

  lemma PairsAcross(p: seq<Byte>, q: seq<Byte>)
    requires IsComponent(p) && q != [] && q[0] != SLASH && q[|q| - 1] != SLASH && NoPair(q, DOT) && NoPair(q, SLASH)
    requires forall i :: 0 <= i < |q| ==> InComponent(q[i]) || q[i] == SLASH
    ensures var b := p + [SLASH] + q;
            && b[0] == p[0] && b[|b| - 1] != SLASH && b[0] != SLASH && NoPair(b, DOT) && NoPair(b, SLASH)
            && forall i :: 0 <= i < |b| ==> InComponent(b[i]) || b[i] == SLASH
  {
    var b := p + [SLASH] + q;
    forall i | 0 <= i < |b| - 1
      ensures (b[i] != DOT || b[i + 1] != DOT) && (b[i] != SLASH || b[i + 1] != SLASH)
    {
      if i > |p| {
        assert b[i] == q[i - |p| - 1] && b[i + 1] == q[i - |p|];
      }
    }
  }

  // The names the policy accepts are exactly these.
  lemma BranchesAreComponents(b: seq<Byte>)
    ensures ValidBranch(b) <==> IsBranch(b)
  {
    if ValidBranch(b) {
      BranchHasComponents(b);
    }
    if IsBranch(b) {
      ComponentsAreABranch(b);
    }
  }

  lemma BranchHasComponents(b: seq<Byte>)
    requires ValidBranch(b)
    ensures IsBranch(b)
  {
    var parts := Split(b, SLASH);
    forall n | 0 <= n < |parts| ensures IsComponent(parts[n]) {
      PartsAreComponents(b, n);
    }
    JoinedOfSplit(b, SLASH);
    Literals();
    hide Ascii, Contains, Split, IsComponent;
    assert Components(parts) && b == JoinedBy(parts, SLASH);
    assert b[|b| - 1..] == [b[|b| - 1]];
  }

  lemma ComponentsAreABranch(b: seq<Byte>)
    requires IsBranch(b)
    ensures ValidBranch(b)
  {
    hide Ascii, Contains, Split, NoPair, IsComponent, Components, JoinedBy;
    var parts :| Components(parts) && b == JoinedBy(parts, SLASH);
    JoinedIsAllowed(b, parts);
    Literals();
    assert b[|b| - 1..] == [b[|b| - 1]];
    forall i | 0 <= i < |parts| ensures PartOk(parts[i]) {
      ComponentOf(parts, i);
      ComponentIsAPart(parts[i]);
    }
  }

  lemma ComponentOf(parts: seq<seq<Byte>>, i: nat)
    requires Components(parts) && i < |parts|
    ensures IsComponent(parts[i]) && SLASH !in parts[i]
  {
  }

  lemma JoinedIsAllowed(b: seq<Byte>, parts: seq<seq<Byte>>)
    requires Components(parts) && b == JoinedBy(parts, SLASH)
    ensures Split(b, SLASH) == parts && b != [] && b[|b| - 1] != SLASH
    ensures !Contains(b, [SLASH, SLASH]) && !Contains(b, [DOT, DOT])
    ensures forall i :: 0 <= i < |b| ==> InComponent(b[i]) || b[i] == SLASH
  {
    hide Contains, Split;
    JoinedChars(parts);
    forall i | 0 <= i < |parts| ensures SLASH !in parts[i] {
      ComponentOf(parts, i);
    }
    SplitOfJoined(parts, SLASH);
    ContainsPair(b, DOT);
    ContainsPair(b, SLASH);
  }

  predicate PartOk(p: seq<Byte>) {
    p != [] && p != Ascii(".") && p != Ascii("..") && !EndsWith(p, Ascii(".lock"))
  }

  lemma ComponentIsAPart(p: seq<Byte>)
    requires IsComponent(p)
    ensures PartOk(p)
  {
    Literals();
    assert [DOT, DOT][0] == DOT && [DOT, DOT][1] == DOT;
    assert !NoPair([DOT, DOT], DOT);
    hide Ascii;
  }

  // ---- Commands ----

  // A command that creates a branch: the zero object for the old one, an object that is
  // not zero, and an unprotected branch that is not advertised.
  ghost predicate CreatesBranch(u: RefUpdate, advertisement: Advertisement, policy: Policy) {
    var n := if advertisement.format.Sha1? then 40 else 64;
    && |u.old_oid| == n && (forall i :: 0 <= i < n ==> u.old_oid[i] == 48)
    && |u.new_oid| == n && (forall i :: 0 <= i < n ==> 48 <= u.new_oid[i] <= 57 || 97 <= u.new_oid[i] <= 102)
    && (exists i :: 0 <= i < n && u.new_oid[i] != 48)
    && |u.ref| > 11 && u.ref[..11] == [114, 101, 102, 115, 47, 104, 101, 97, 100, 115, 47]
    && IsBranch(u.ref[11..]) && u.ref[11..] !in policy.protectedBranches && u.ref !in advertisement.refs
  }

  lemma BranchIsAscii(b: seq<Byte>)
    requires IsBranch(b)
    ensures IsAscii(b) && SPACE !in b && NUL !in b && LF !in b
  {
    var parts :| Components(parts) && b == JoinedBy(parts, SLASH);
    JoinedChars(parts);
  }

  lemma HeadsAre()
    ensures HEADS == [114, 101, 102, 115, 47, 104, 101, 97, 100, 115, 47]
  {
  }

  lemma CreatesIs(u: RefUpdate, advertisement: Advertisement, policy: Policy)
    ensures Creates(u, advertisement, policy) <==> CreatesBranch(u, advertisement, policy)
  {
    hide ValidBranch, IsBranch, HEADS, Ascii;
    HeadsAre();
    if |u.ref| >= 11 {
      BranchesAreComponents(u.ref[11..]);
      assert HEADS <= u.ref <==> u.ref[..11] == HEADS;
      if IsBranch(u.ref[11..]) && u.ref[..11] == HEADS {
        BranchIsAscii(u.ref[11..]);
        BranchIsNotEmpty(u.ref[11..]);
        AsciiRef(u.ref);
      }
    }
    ZeroOidIs(u.old_oid, advertisement.format);
    ZeroOidIs(u.new_oid, advertisement.format);
  }

  lemma BranchIsNotEmpty(b: seq<Byte>)
    requires IsBranch(b)
    ensures b != []
  {
  }

  lemma AsciiRef(ref: Ref)
    requires |ref| >= 11 && ref[..11] == [114, 101, 102, 115, 47, 104, 101, 97, 100, 115, 47] && IsAscii(ref[11..])
    ensures IsAscii(ref)
  {
    assert ref == ref[..11] + ref[11..];
  }

  lemma ZeroOidIs(oid: Oid, f: Format)
    ensures oid == ZeroOid(f) <==>
              |oid| == (if f.Sha1? then 40 else 64) && forall i :: 0 <= i < |oid| ==> oid[i] == 48
  {
  }

  // ---- Capabilities ----

  // The remote advertises this name, with or without a value.
  predicate Names(advertisement: Advertisement, name: seq<Byte>) {
    exists i :: 0 <= i < |advertisement.capabilities| && HasName(advertisement.capabilities[i], name)
  }

  predicate HasName(capability: seq<Byte>, name: seq<Byte>) {
    capability == name || name + [61] <= capability
  }

  lemma NameIs(capability: seq<Byte>, name: seq<Byte>)
    requires EQUALS !in name
    ensures NameOf(capability) == name <==> HasName(capability, name)
  {
    var k := Find(capability, EQUALS);
    if NameOf(capability) == name {
      if k < |capability| {
        assert capability[..k + 1] == name + [EQUALS];
      } else {
        assert capability[..k] == capability;
      }
    }
    if capability == name {
      assert capability[..|capability|] == capability;
    }
    if name + [EQUALS] <= capability {
      var rest := capability[|name| + 1..];
      assert capability == name + [EQUALS] + rest;
      FindBehind(name, EQUALS, rest);
      assert capability[..|name|] == name;
    }
  }

  lemma NamedByOne(advertisement: Advertisement, name: seq<Byte>)
    requires EQUALS !in name
    ensures Advertises(advertisement, name) <==> Names(advertisement, name)
  {
    hide NameOf, HasName;
    forall i | 0 <= i < |advertisement.capabilities|
      ensures NameOf(advertisement.capabilities[i]) == name <==> HasName(advertisement.capabilities[i], name)
    {
      NameIs(advertisement.capabilities[i], name);
    }
  }

  predicate IsAgentValue(value: seq<Byte>) {
    && 1 <= |value| <= 128 && (48 <= value[0] <= 57 || 65 <= value[0] <= 90 || 97 <= value[0] <= 122)
    && forall i :: 0 <= i < |value| ==>
         InComponent(value[i]) || value[i] == 47 || value[i] == 43 || value[i] == 126
  }

  predicate IsFixed(c: seq<Byte>) {
    || c == Ascii("report-status") || c == Ascii("report-status-v2") || c == Ascii("side-band-64k")
    || c == Ascii("quiet") || c == Ascii("atomic") || c == Ascii("ofs-delta")
  }

  // What a client may ask for: six fixed capabilities, the object format of the remote,
  // and an agent, each only if the remote advertises its name.
  predicate MayAsk(c: seq<Byte>, advertisement: Advertisement) {
    || (IsFixed(c) && Names(advertisement, c))
    || (&& c == (if advertisement.format.Sha1? then Ascii("object-format=sha1") else Ascii("object-format=sha256"))
        && Names(advertisement, Ascii("object-format")))
    || (&& Ascii("agent=") <= c && IsAgentValue(c[6..]) && Names(advertisement, Ascii("agent")))
  }

  lemma CapabilityLiterals()
    ensures Ascii("agent") + [EQUALS] == Ascii("agent=") && Ascii("object-format") + [EQUALS] == Ascii("object-format=")
    ensures Ascii("object-format=") + Ascii("sha1") == Ascii("object-format=sha1")
    ensures Ascii("object-format=") + Ascii("sha256") == Ascii("object-format=sha256")
    ensures EQUALS !in Ascii("agent") && EQUALS !in Ascii("object-format")
    ensures Ascii("._/+~-") == [46, 95, 47, 43, 126, 45]
  {
  }

  lemma FixedHasNoValue(c: seq<Byte>)
    requires IsFixed(c)
    ensures EQUALS !in c
  {
  }

  lemma PrefixAt(c: seq<Byte>, prefix: seq<Byte>, k: nat)
    requires prefix <= c && k < |prefix|
    ensures c[k] == prefix[k] && prefix[k] in c
  {
    assert c[k] == c[..|prefix|][k];
  }

  lemma FixedIsNoFormat(c: seq<Byte>)
    requires EQUALS !in c
    ensures !IsFormat(c)
  {
    if IsFormat(c) {
      PrefixAt(c, Ascii("object-format="), 13);
    }
  }

  lemma AgentIsNoFormat(c: seq<Byte>)
    requires Ascii("agent=") <= c
    ensures !IsFormat(c)
  {
    PrefixAt(c, Ascii("agent="), 0);
    if IsFormat(c) {
      PrefixAt(c, Ascii("object-format="), 0);
    }
  }

  lemma FormatHasName(f: Format)
    ensures HasName(FormatCapability(f), Ascii("object-format")) && IsFormat(FormatCapability(f))
  {
    CapabilityLiterals();
    hide Ascii;
  }

  // What the gate lets a client ask for is exactly this.
  lemma CapabilityIs(c: seq<Byte>, advertisement: Advertisement)
    ensures ClientCapability(c, advertisement) <==> MayAsk(c, advertisement)
  {
    CapabilityLiterals();
    var f := FormatCapability(advertisement.format);
    NamedByOne(advertisement, Ascii("agent"));
    NamedByOne(advertisement, Ascii("object-format"));
    NameIs(c, Ascii("agent"));
    NameIs(c, Ascii("object-format"));
    FormatHasName(advertisement.format);
    AgentIs(c);
    if IsFixed(c) {
      FixedHasNoValue(c);
      FixedIsNoFormat(c);
      NamedByOne(advertisement, c);
      NameIs(c, c);
    }
    if Ascii("agent=") <= c {
      AgentIsNoFormat(c);
    }
    assert IsFixedCapability(c) <==> IsFixed(c);
    hide Ascii, Names, NameOf, IsAgent, IsAgentValue, Advertises, IsFixedCapability, IsFormat;
  }

  lemma AgentIs(c: seq<Byte>)
    ensures IsAgent(c) <==> Ascii("agent=") <= c && IsAgentValue(c[6..])
  {
    CapabilityLiterals();
    hide Ascii;
  }

  // ---- Lists of capabilities ----

  ghost predicate SameName(a: seq<Byte>, b: seq<Byte>) {
    exists name: seq<Byte> :: 61 !in name && HasName(a, name) && HasName(b, name)
  }

  lemma SameNameIs(a: seq<Byte>, b: seq<Byte>)
    ensures SameName(a, b) <==> NameOf(a) == NameOf(b)
  {
    assert EQUALS !in NameOf(a);
    hide HasName, Find, NameOf;
    forall name: seq<Byte> | 61 !in name
      ensures HasName(a, name) <==> NameOf(a) == name
      ensures HasName(b, name) <==> NameOf(b) == name
    {
      NameIs(a, name);
      NameIs(b, name);
    }
  }

  // Printed in ASCII, joined by single spaces, and no two of the same name.
  ghost predicate IsList(raw: seq<Byte>, items: seq<seq<Byte>>) {
    && items != [] && raw == JoinedBy(items, 32)
    && (forall i :: 0 <= i < |items| ==> items[i] != [] && 32 !in items[i])
    && (forall i :: 0 <= i < |raw| ==> raw[i] < 128)
    && forall i, j :: 0 <= i < j < |items| ==> !SameName(items[i], items[j])
  }

  lemma ListIs(raw: seq<Byte>)
    requires raw != []
    ensures CapabilitiesOk(raw) <==> exists items :: IsList(raw, items)
    ensures forall items :: IsList(raw, items) ==> Capabilities(raw) == items
  {
    hide SameName, NameOf, Split, JoinedBy;
    forall a, b ensures SameName(a, b) <==> NameOf(a) == NameOf(b) {
      SameNameIs(a, b);
    }
    forall items | IsList(raw, items) ensures Capabilities(raw) == items {
      SplitOfJoined(items, SPACE);
    }
    var items := Split(raw, SPACE);
    JoinedOfSplit(raw, SPACE);
    forall i | 0 <= i < |items| ensures SPACE !in items[i] {
      PartsAreFree(raw, SPACE, i);
    }
    if CapabilitiesOk(raw) {
      assert items == Capabilities(raw);
      assert forall i :: 0 <= i < |items| ==> items[i] != [] && 32 !in items[i];
      assert forall i, j :: 0 <= i < j < |items| ==> !SameName(items[i], items[j]);
      assert IsList(raw, items);
    }
  }

  // ---- Whole batches ----

  function Line(u: RefUpdate): seq<Byte> {
    u.old_oid + [32] + u.new_oid + [32] + u.ref
  }

  // The section that asks for these updates, with the capabilities behind the first.
  function Lines(updates: seq<RefUpdate>, raw: seq<Byte>): seq<seq<Byte>> {
    seq(|updates|, i requires 0 <= i < |updates| =>
      if i == 0 then Line(updates[0]) + [0] + raw else Line(updates[i]))
  }

  lemma SplitAtSpaces(a: seq<Byte>, b: seq<Byte>, c: seq<Byte>)
    requires SPACE !in a && SPACE !in b && SPACE !in c
    ensures Split(a + [SPACE] + b + [SPACE] + c, SPACE) == [a, b, c]
  {
    ThreeFields(a + [SPACE] + b + [SPACE] + c, a, b, c, SPACE);
    hide Split;
  }

  lemma OidChars(oid: Oid)
    requires forall i :: 0 <= i < |oid| ==> 48 <= oid[i] <= 57 || 97 <= oid[i] <= 102
    ensures SPACE !in oid && NUL !in oid && LF !in oid
  {
  }

  lemma RefChars(ref: Ref)
    requires |ref| > 11 && ref[..11] == [114, 101, 102, 115, 47, 104, 101, 97, 100, 115, 47] && IsBranch(ref[11..])
    ensures SPACE !in ref && NUL !in ref && ref[|ref| - 1] != LF && |ref| <= 211
  {
    BranchIsAscii(ref[11..]);
    hide IsBranch;
    assert ref == ref[..11] + ref[11..] && ref[|ref| - 1] in ref[11..];
    BranchLength(ref[11..]);
  }

  lemma BranchLength(b: seq<Byte>)
    requires IsBranch(b)
    ensures |b| <= 200
  {
  }

  lemma LineOf(u: RefUpdate, advertisement: Advertisement, policy: Policy)
    requires CreatesBranch(u, advertisement, policy)
    ensures var line := Line(u);
            && NUL !in line && line != [] && line[|line| - 1] != LF && |line| <= 341
            && Split(line, SPACE) == [u.old_oid, u.new_oid, u.ref]
  {
    OidChars(u.old_oid);
    OidChars(u.new_oid);
    RefChars(u.ref);
    hide IsBranch, Split;
    SplitAtSpaces(u.old_oid, u.new_oid, u.ref);
  }

  lemma FirstCommand(u: RefUpdate, updates: seq<RefUpdate>, raw: seq<Byte>, advertisement: Advertisement,
                     policy: Policy)
    requires updates != [] && u == updates[0] && CreatesBranch(u, advertisement, policy)
    requires raw == [] || raw[|raw| - 1] != LF
    ensures var packets := Lines(updates, raw);
            && NUL in StripLf(packets[0]) && RawCapabilities(packets) == raw && Command(packets, 0) == Some(u)
  {
    LineOf(u, advertisement, policy);
    FirstLine(Line(u), raw);
    hide Split, CreatesBranch, Line, Find, StripLf;
    assert Lines(updates, raw)[0] == Line(u) + [NUL] + raw;
  }

  lemma FirstLine(line: seq<Byte>, raw: seq<Byte>)
    requires NUL !in line && (raw == [] || raw[|raw| - 1] != LF)
    ensures var first := line + [NUL] + raw;
            && StripLf(first) == first && NUL in first && Find(first, NUL) == |line|
            && first[..|line|] == line && first[|line| + 1..] == raw
  {
    var first := line + [NUL] + raw;
    FindBehind(line, NUL, raw);
    hide Find;
    assert first[|line|] == NUL;
  }

  lemma LaterCommand(updates: seq<RefUpdate>, i: nat, raw: seq<Byte>, advertisement: Advertisement, policy: Policy)
    requires 0 < i < |updates| && CreatesBranch(updates[i], advertisement, policy)
    ensures Command(Lines(updates, raw), i) == Some(updates[i])
  {
    LineOf(updates[i], advertisement, policy);
    hide Split, CreatesBranch, Line;
    assert StripLf(Line(updates[i])) == Line(updates[i]);
  }

  // What a client may write behind the first command: capabilities it may ask for, each
  // under another name.
  ghost predicate MayAskAll(raw: seq<Byte>, advertisement: Advertisement) {
    var text := if raw != [] && raw[0] == 32 then raw[1..] else raw;
    || text == []
    || exists items :: IsList(text, items) && forall i :: 0 <= i < |items| ==> MayAsk(items[i], advertisement)
  }

  lemma AskingIs(raw: seq<Byte>, advertisement: Advertisement)
    ensures ClientCapabilitiesOk(WithoutSpace(raw), advertisement) <==> MayAskAll(raw, advertisement)
  {
    var text := WithoutSpace(raw);
    if text != [] {
      hide MayAsk, ClientCapability, Capabilities, CapabilitiesOk, IsList;
      ListIs(text);
      forall c: seq<Byte> ensures ClientCapability(c, advertisement) <==> MayAsk(c, advertisement) {
        CapabilityIs(c, advertisement);
      }
    }
  }

  // A batch of one to eight commands that each create another branch goes through the
  // gate, whole and as it was written, whatever stands behind it.
  lemma BatchIsAccepted(updates: seq<RefUpdate>, raw: seq<Byte>, tail: seq<Byte>,
                        advertisement: Advertisement, policy: Policy)
    requires 1 <= |updates| <= 8 && |raw| <= 65_000 && (raw == [] || raw[|raw| - 1] != 10)
    requires forall i :: 0 <= i < |updates| ==> CreatesBranch(updates[i], advertisement, policy)
    requires forall i, j :: 0 <= i < j < |updates| ==> updates[i].ref != updates[j].ref
    requires MayAskAll(raw, advertisement)
    ensures forall i :: 0 <= i < |updates| ==> |Lines(updates, raw)[i]| + 4 < 0x1_0000
    ensures Accepted(Encode(Lines(updates, raw)) + tail, advertisement, policy, updates)
  {
    var packets := Lines(updates, raw);
    LinesAreACreateBatch(updates, raw, advertisement, policy);
    LinesFit(updates, raw, advertisement, policy);
    hide Lines, CreatesBranch, MayAskAll, CreateOnly, Command, Encode, Parse;
    RoundTrip(packets, tail, LIMITS);
  }

  lemma LinesAreACreateBatch(updates: seq<RefUpdate>, raw: seq<Byte>, advertisement: Advertisement, policy: Policy)
    requires 1 <= |updates| <= 8 && (raw == [] || raw[|raw| - 1] != LF)
    requires forall i :: 0 <= i < |updates| ==> CreatesBranch(updates[i], advertisement, policy)
    requires forall i, j :: 0 <= i < j < |updates| ==> updates[i].ref != updates[j].ref
    requires MayAskAll(raw, advertisement)
    ensures var packets := Lines(updates, raw);
            && |packets| == |updates| && CreateOnly(packets, advertisement, policy)
            && forall i :: 0 <= i < |packets| ==> Command(packets, i) == Some(updates[i])
  {
    var packets := Lines(updates, raw);
    hide CreatesBranch, Command, RawCapabilities, Creates, MayAskAll, ClientCapabilitiesOk, WithoutSpace;
    FirstCommand(updates[0], updates, raw, advertisement, policy);
    forall i | 0 <= i < |updates| ensures Command(packets, i) == Some(updates[i]) {
      if i > 0 {
        LaterCommand(updates, i, raw, advertisement, policy);
      }
    }
    forall i | 0 <= i < |updates| ensures Creates(updates[i], advertisement, policy) {
      CreatesIs(updates[i], advertisement, policy);
    }
    AskingIs(raw, advertisement);
    hide Lines;
  }

  lemma LinesFit(updates: seq<RefUpdate>, raw: seq<Byte>, advertisement: Advertisement, policy: Policy)
    requires 1 <= |updates| <= 8 && |raw| <= 65_000
    requires forall i :: 0 <= i < |updates| ==> CreatesBranch(updates[i], advertisement, policy)
    ensures var packets := Lines(updates, raw);
            && (forall i :: 0 <= i < |packets| ==> |packets[i]| + 4 < 0x1_0000)
            && Fits(packets, |Encode(packets)|, LIMITS)
  {
    hide CreatesBranch, Encode, Line;
    var packets := Lines(updates, raw);
    forall i | 0 <= i < |packets| ensures |packets[i]| <= if i == 0 then |raw| + 342 else 341 {
      LineOf(updates[i], advertisement, policy);
    }
    EncodeEncodes(packets);
    assert forall i :: 0 < i < |packets| ==> |packets[i]| <= 578;
    LengthOf(Encode(packets), packets);
  }

  // And nothing else does: the updates of an accepted batch, in their fields.
  lemma AcceptedInFields(data: seq<Byte>, advertisement: Advertisement, policy: Policy, updates: seq<RefUpdate>)
    requires Accepted(data, advertisement, policy, updates)
    ensures 1 <= |updates| <= 8
    ensures forall i :: 0 <= i < |updates| ==> CreatesBranch(updates[i], advertisement, policy)
    ensures forall i, j :: 0 <= i < j < |updates| ==> updates[i].ref != updates[j].ref
    ensures var packets := Parse(data, 0, 0, LIMITS).value.packets;
            && (forall i :: 0 <= i < |packets| ==> Command(packets, i) == Some(updates[i]))
            && MayAskAll(RawCapabilities(packets), advertisement)
  {
    AcceptedCreates(data, advertisement, policy, updates);
    hide CreatesBranch, Creates, Parse, Command, MayAskAll, ClientCapabilitiesOk, WithoutSpace, RawCapabilities;
    forall i | 0 <= i < |updates| ensures CreatesBranch(updates[i], advertisement, policy) {
      CreatesIs(updates[i], advertisement, policy);
    }
    AskingIs(RawCapabilities(Parse(data, 0, 0, LIMITS).value.packets), advertisement);
  }

  // ---- Advertised refs ----

  // The names a remote may advertise, in their bytes.
  predicate IsAdvertised(b: seq<Byte>) {
    || b == Ascii("HEAD") || b == Ascii("capabilities^{}")
    || (&& [114, 101, 102, 115, 47] <= b && |b| <= 512
        && forall i :: 0 <= i < |b| ==> InComponent(b[i]) || b[i] == 47 || b[i] == 123 || b[i] == 125)
  }

  lemma AdvertisedIs(b: seq<Byte>)
    ensures AdvertisedRefOk(b) <==> IsAdvertised(b)
  {
    Literals();
    assert Ascii("._/{}-") == [46, 95, 47, 123, 125, 45];
    hide Ascii;
    if [114, 101, 102, 115, 47] <= b {
      assert b[0] == b[..5][0];
    }
  }

  lemma BranchChars(u: RefUpdate, advertisement: Advertisement, policy: Policy)
    requires CreatesBranch(u, advertisement, policy)
    ensures 12 <= |u.ref| <= 211 && u.ref[..11] == [114, 101, 102, 115, 47, 104, 101, 97, 100, 115, 47]
    ensures forall i :: 11 <= i < |u.ref| ==> InComponent(u.ref[i]) || u.ref[i] == 47
  {
    var name := u.ref[11..];
    hide InComponent, Components, JoinedBy, ZeroOid, ValidOid;
    assert IsBranch(name);
    var parts :| Components(parts) && name == JoinedBy(parts, SLASH);
    JoinedChars(parts);
    assert forall i :: 11 <= i < |u.ref| ==> u.ref[i] == name[i - 11];
  }

  lemma RefIsAdvertised(ref: seq<Byte>)
    requires 12 <= |ref| <= 211 && ref[..11] == [114, 101, 102, 115, 47, 104, 101, 97, 100, 115, 47]
    requires forall i :: 11 <= i < |ref| ==> InComponent(ref[i]) || ref[i] == 47
    ensures IsAdvertised(ref)
  {
    assert ref[..5] == ref[..11][..5] == [114, 101, 102, 115, 47];
    assert forall i :: 0 <= i < 11 ==> ref[i] == ref[..11][i];
    hide Ascii;
  }

  // A branch the gate lets a client create can be advertised from then on.
  lemma CreatedCanBeAdvertised(u: RefUpdate, advertisement: Advertisement, policy: Policy)
    requires CreatesBranch(u, advertisement, policy)
    ensures AdvertisedRefOk(u.ref)
  {
    hide *;
    AdvertisedIs(u.ref);
    BranchChars(u, advertisement, policy);
    RefIsAdvertised(u.ref);
  }
}
