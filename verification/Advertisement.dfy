/**
  What the remote says it has, and the push handler that gates on it
  (src/agent_container/git_protocol.py:100-176, github_broker_transport.py:305-366).
 */
module ReceivePackAdvertisement {
  import opened Wrappers
  import opened Bytes
  import opened PktLine
  import opened ReceivePackGate

  const EMPTY := Ascii("capabilities^{}")

  // [A-Za-z0-9][A-Za-z0-9._/{}/-]{0,511} under refs/, or one of two names.
  predicate AdvertisedRefOk(b: seq<Byte>) {
    || b == Ascii("HEAD") || b == EMPTY
    || (&& 1 <= |b| <= 512 && IsAlphanumeric(b[0])
        && (forall i :: 0 <= i < |b| ==> IsAlphanumeric(b[i]) || b[i] in Ascii("._/{}-"))
        && StartsWith(b, Ascii("refs/")))
  }

  // `_object_format`.
  function Formats(items: seq<seq<Byte>>): seq<seq<Byte>> {
    if items == [] then []
    else if IsFormat(items[0]) then [items[0]] + Formats(items[1..])
    else Formats(items[1..])
  }

  function ObjectFormat(items: seq<seq<Byte>>): Result<Format> {
    var formats := Formats(items);
    if formats == [] then Ok(Sha1)
    else if |formats| != 1 then Refused
    else if formats[0] == FormatCapability(Sha1) then Ok(Sha1)
    else if formats[0] == FormatCapability(Sha256) then Ok(Sha256)
    else Refused
  }

  lemma {:induction false} FormatsAreTheFormats(items: seq<seq<Byte>>, x: seq<Byte>)
    ensures x in Formats(items) <==> x in items && IsFormat(x)
  {
    if items != [] {
      FormatsAreTheFormats(items[1..], x);
      assert items == [items[0]] + items[1..];
    }
  }

  // A capability list without repeats has at most one format item.
  lemma {:induction false} OneFormat(items: seq<seq<Byte>>)
    requires forall i, j :: 0 <= i < j < |items| ==> NameOf(items[i]) != NameOf(items[j])
    ensures |Formats(items)| <= 1
  {
    hide NameOf, IsFormat;
    if items != [] {
      var rest := items[1..];
      forall i, j | 0 <= i < j < |rest| ensures NameOf(rest[i]) != NameOf(rest[j]) {
        assert rest[i] == items[i + 1] && rest[j] == items[j + 1];
      }
      OneFormat(rest);
      if IsFormat(items[0]) && Formats(rest) != [] {
        var x := Formats(rest)[0];
        FormatsAreTheFormats(rest, x);
        var j :| 0 <= j < |rest| && rest[j] == x;
        FormatName(items[0]);
        FormatName(items[j + 1]);
      }
    }
  }

  lemma FormatName(capability: seq<Byte>)
    requires IsFormat(capability)
    ensures NameOf(capability) == Ascii("object-format")
  {
    var prefix := Ascii("object-format=");
    var k := Find(capability, EQUALS);
    assert capability[..14] == prefix;
    assert prefix[13] == EQUALS && capability[13] == prefix[13];
    assert forall i :: 0 <= i < 13 ==> prefix[i] != EQUALS && capability[i] == prefix[i];
    assert k == 13;
    assert capability[..13] == Ascii("object-format");
  }

  // The selected format is the only one the capabilities are consistent with.
  lemma ObjectFormatSelects(items: seq<seq<Byte>>, f: Format)
    requires forall i, j :: 0 <= i < j < |items| ==> NameOf(items[i]) != NameOf(items[j])
    ensures ObjectFormat(items) == Ok(f) <==> Selects(items, f)
  {
    hide NameOf, IsFormat, FormatCapability;
    OneFormat(items);
    FormatIsFormat();
    var formats := Formats(items);
    forall x: seq<Byte> ensures x in formats <==> x in items && IsFormat(x) {
      FormatsAreTheFormats(items, x);
    }
    if formats != [] {
      assert formats[0] in formats;
      assert forall x :: x in formats ==> x == formats[0];
    }
    assert forall x :: x in items && IsFormat(x) ==> x in formats;
  }

  lemma FormatIsFormat()
    ensures IsFormat(FormatCapability(Sha1)) && IsFormat(FormatCapability(Sha256))
    ensures FormatCapability(Sha1) != FormatCapability(Sha256)
  {
    assert |FormatCapability(Sha1)| == 18 && |FormatCapability(Sha256)| == 20;
  }

  // ---- Lines ----

  // The fields of line `i`; the capabilities of line 0 are cut off behind a NUL.
  function RefLine(packets: seq<seq<Byte>>, i: nat): Option<(Oid, Ref)>
    requires i < |packets|
  {
    match Fields(packets, i)
    case None => None
    case Some(parts) => if |parts| == 2 then Some((parts[0], parts[1])) else None
  }

  predicate RefLineOk(packets: seq<seq<Byte>>, i: nat, f: Format)
    requires i < |packets|
  {
    && RefLine(packets, i).Some?
    && var (oid, ref) := RefLine(packets, i).value;
       && ValidOid(oid, f) && IsAscii(ref) && AdvertisedRefOk(ref)
       && (ref == EMPTY ==> oid == ZeroOid(f) && |packets| == 1)
  }

  predicate SameAdvertised(packets: seq<seq<Byte>>, i: nat, j: nat)
    requires i < |packets| && j < |packets|
  {
    match (RefLine(packets, i), RefLine(packets, j))
    case (Some(a), Some(b)) => a.1 == b.1
    case _ => false
  }

  // The sections that are an advertisement under object format `f`.
  predicate IsAdvertisement(packets: seq<seq<Byte>>, f: Format) {
    && packets != [] && NUL in StripLf(packets[0])
    && CapabilitiesOk(RawCapabilities(packets)) && Selects(Capabilities(RawCapabilities(packets)), f)
    && (forall i :: 0 <= i < |packets| ==> RefLineOk(packets, i, f))
    && (forall i, j :: 0 <= i < j < |packets| ==> !SameAdvertised(packets, i, j))
  }

  // The refs the first `n` lines name, each with its object.
  predicate RefsAre(packets: seq<seq<Byte>>, n: nat, refs: map<Ref, Oid>)
    requires n <= |packets|
  {
    && (forall i: nat :: i < n ==> LineHeld(packets, i, refs))
    && (forall ref :: ref in refs ==> Named(packets, n, ref))
  }

  predicate Named(packets: seq<seq<Byte>>, n: nat, ref: Ref)
    requires n <= |packets|
  {
    exists i: nat :: i < n && LineNames(packets, i, ref)
  }

  predicate LineHeld(packets: seq<seq<Byte>>, i: nat, refs: map<Ref, Oid>)
    requires i < |packets|
  {
    match RefLine(packets, i)
    case None => true
    case Some((oid, ref)) => if ref == EMPTY then ref !in refs else ref in refs && refs[ref] == oid
  }

  predicate LineNames(packets: seq<seq<Byte>>, i: nat, ref: Ref)
    requires i < |packets|
  {
    RefLine(packets, i).Some? && RefLine(packets, i).value.1 == ref
  }

  // A section within the limits that is an advertisement.
  ghost predicate Readable(data: seq<Byte>) {
    && Parse(data, 0, 0, LIMITS).Ok?
    && exists f :: IsAdvertisement(Parse(data, 0, 0, LIMITS).value.packets, f)
  }

  // `parse_receive_pack_advertisement`.
  method ParseAdvertisement(data: seq<Byte>) returns (r: Result<Advertisement>)
    ensures r.Ok? <==> Readable(data)
    ensures r.Ok? ==>
              var section := Parse(data, 0, 0, LIMITS).value;
              && IsAdvertisement(section.packets, r.value.format)
              && r.value.capabilities == Capabilities(RawCapabilities(section.packets))
              && RefsAre(section.packets, |section.packets|, r.value.refs)
              && r.value.consumed == section.consumed
  {
    hide Parse, CapabilitiesOk, Capabilities, RawCapabilities, Selects, ObjectFormat, RefLine, ValidOid,
         AdvertisedRefOk, ZeroOid, NameOf;
    var decoded := DecodeSection(data, LIMITS);
    if decoded.Refused? {
      return Refused;
    }
    var packets := decoded.value.packets;
    if packets == [] || NUL !in StripLf(packets[0]) {
      return Refused;
    }
    var raw := RawCapabilities(packets);
    if !CapabilitiesOk(raw) {
      return Refused;
    }
    var capabilities := Capabilities(raw);
    CapabilityNames(raw);
    var format := ObjectFormat(capabilities);
    forall f ensures format == Ok(f) <==> Selects(capabilities, f) {
      ObjectFormatSelects(capabilities, f);
    }
    if format.Refused? {
      return Refused;
    }
    var f := format.value;
    var refs: map<Ref, Oid> := map[];
    for index := 0 to |packets|
      invariant RefsAre(packets, index, refs)
      invariant forall i :: 0 <= i < index ==> RefLineOk(packets, i, f)
      invariant forall i, j :: 0 <= i < j < index ==> !SameAdvertised(packets, i, j)
    {
      var line := RefLine(packets, index);
      if line.None? {
        assert !RefLineOk(packets, index, f);
        return Refused;
      }
      var (oid, ref) := line.value;
      if !ValidOid(oid, f) || !IsAscii(ref) || !AdvertisedRefOk(ref) {
        assert !RefLineOk(packets, index, f);
        return Refused;
      }
      if ref == EMPTY {
        if oid != ZeroOid(f) || |packets| != 1 {
          assert !RefLineOk(packets, index, f);
          return Refused;
        }
        continue;
      }
      if ref in refs {
        assert Named(packets, index, ref);
        var i: nat :| i < index && LineNames(packets, i, ref);
        assert SameAdvertised(packets, i, index);
        return Refused;
      }
      OneMoreRef(packets, index, refs);
      refs := refs[ref := oid];
    }
    assert IsAdvertisement(packets, f);
    return Ok(Advertisement(refs, capabilities, f, decoded.value.consumed));
  }

  lemma CapabilityNames(raw: seq<Byte>)
    requires CapabilitiesOk(raw)
    ensures var items := Capabilities(raw);
            forall i, j :: 0 <= i < j < |items| ==> NameOf(items[i]) != NameOf(items[j])
  {
    hide NameOf, Capabilities;
  }

  lemma OneMoreRef(packets: seq<seq<Byte>>, n: nat, refs: map<Ref, Oid>)
    requires n < |packets| && RefsAre(packets, n, refs) && RefLine(packets, n).Some?
    requires var ref := RefLine(packets, n).value.1; ref !in refs && ref != EMPTY
    ensures var (oid, ref) := RefLine(packets, n).value; RefsAre(packets, n + 1, refs[ref := oid])
    ensures forall i :: 0 <= i < n ==> !SameAdvertised(packets, i, n)
  {
    hide RefLine;
    var (oid, ref) := RefLine(packets, n).value;
    var after := refs[ref := oid];
    forall i: nat | i < n ensures LineHeld(packets, i, after) && !SameAdvertised(packets, i, n) {
      assert LineHeld(packets, i, refs);
    }
    assert LineNames(packets, n, ref) && LineHeld(packets, n, after);
    forall r | r in after ensures Named(packets, n + 1, r) {
      if r != ref {
        assert Named(packets, n, r);
      }
    }
  }
}
