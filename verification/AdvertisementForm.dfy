/**
  Which sections are an advertisement, in the bytes of their lines
  (src/agent_container/git_protocol.py:93-176).
 */
module AdvertisementForm {
  import opened Wrappers
  import opened Bytes
  import opened ReceivePackGate
  import opened ReceivePackAdvertisement
  import opened Separators
  import opened CreateBatches

  // ---- Lines ----

  // An object id and a ref with a space between them; a line feed at the end does not
  // count, and behind a zero byte the first line has the capabilities.
  ghost predicate IsLine(packets: seq<seq<Byte>>, i: nat, oid: Oid, ref: Ref, raw: seq<Byte>)
    requires i < |packets|
  {
    var p := packets[i];
    var line := if p != [] && p[|p| - 1] == 10 then p[..|p| - 1] else p;
    var text := oid + [32] + ref;
    0 !in text && 32 !in oid && 32 !in ref && line == if i == 0 then text + [0] + raw else text
  }

  lemma TwoFields(text: seq<Byte>, a: seq<Byte>, b: seq<Byte>, x: Byte)
    ensures Split(text, x) == [a, b] <==> x !in a && x !in b && text == a + [x] + b
  {
    if Split(text, x) == [a, b] {
      PartsAreFree(text, x, 0);
      PartsAreFree(text, x, 1);
      JoinedOfSplit(text, x);
      JoinedTwo(a, b, x);
    }
    if x !in a && x !in b {
      SplitInTwo(a, b, x);
    }
    hide Split, JoinedBy;
  }

  lemma JoinedTwo(a: seq<Byte>, b: seq<Byte>, x: Byte)
    ensures JoinedBy([a, b], x) == a + [x] + b
  {
    JoinedUnfolds(a, [b], x);
    assert [a] + [b] == [a, b];
  }

  lemma FirstLineIs(packets: seq<seq<Byte>>, oid: Oid, ref: Ref, raw: seq<Byte>)
    requires packets != []
    ensures && NUL in StripLf(packets[0]) && RawCapabilities(packets) == raw
            && RefLine(packets, 0) == Some((oid, ref))
            <==> IsLine(packets, 0, oid, ref, raw)
  {
    var line := StripLf(packets[0]);
    var text := oid + [32] + ref;
    assert IsLine(packets, 0, oid, ref, raw)
      <==> 0 !in text && 32 !in oid && 32 !in ref && line == text + [0] + raw;
    hide IsLine, RefLine, StripLf, RawCapabilities;
    if NUL in line {
      FirstFields(packets, line);
      var k := Find(line, NUL);
      hide Find, Split;
      TwoFields(line[..k], oid, ref, SPACE);
      Rejoined(line, k);
    }
    if 0 !in text && line == text + [0] + raw {
      CutAtZero(line, text, raw);
    }
  }

  lemma FirstFields(packets: seq<seq<Byte>>, line: seq<Byte>)
    requires packets != [] && line == StripLf(packets[0]) && NUL in line
    ensures var k := Find(line, NUL);
            && k < |line| && line[k] == 0 && 0 !in line[..k] && RawCapabilities(packets) == line[k + 1..]
            && forall oid, ref ::
                 RefLine(packets, 0) == Some((oid, ref)) <==> Split(line[..k], SPACE) == [oid, ref]
  {
    hide Find, Split, StripLf;
  }

  lemma Rejoined(line: seq<Byte>, k: nat)
    requires k < |line| && line[k] == 0
    ensures line == line[..k] + [0] + line[k + 1..]
  {
  }

  lemma CutAtZero(line: seq<Byte>, text: seq<Byte>, raw: seq<Byte>)
    requires 0 !in text && line == text + [0] + raw
    ensures NUL in line && Find(line, NUL) == |text| && line[..|text|] == text && line[|text| + 1..] == raw
  {
    FindBehind(text, NUL, raw);
    hide Find;
    assert line[|text|] == 0;
  }

  lemma LaterLineIs(packets: seq<seq<Byte>>, i: nat, oid: Oid, ref: Ref, raw: seq<Byte>)
    requires 0 < i < |packets|
    ensures RefLine(packets, i) == Some((oid, ref)) <==> IsLine(packets, i, oid, ref, raw)
  {
    TwoFields(StripLf(packets[i]), oid, ref, SPACE);
    hide Split;
  }

  // ---- Sections ----

  // The id of an object under this format, and a name that may be advertised; the one
  // that stands for no refs is alone and has the zero id.
  ghost predicate IsAdvertisedLine(oid: Oid, ref: Ref, f: Format, lines: nat) {
    && |oid| == (if f.Sha1? then 40 else 64)
    && (forall i :: 0 <= i < |oid| ==> 48 <= oid[i] <= 57 || 97 <= oid[i] <= 102)
    && IsAdvertised(ref)
    && (ref == Ascii("capabilities^{}") ==> lines == 1 && forall i :: 0 <= i < |oid| ==> oid[i] == 48)
  }

  // A list of capabilities with no other object format than this one, which SHA-256
  // needs.
  ghost predicate Gives(raw: seq<Byte>, f: Format) {
    (raw == [] && f.Sha1?) || exists items :: IsList(raw, items) && GivesFormat(items, f)
  }

  ghost predicate GivesFormat(items: seq<seq<Byte>>, f: Format) {
    var format := if f.Sha1? then Ascii("object-format=sha1") else Ascii("object-format=sha256");
    && (f.Sha256? ==> format in items)
    && forall i :: 0 <= i < |items| && Ascii("object-format=") <= items[i] ==> items[i] == format
  }

  ghost predicate HasLines(packets: seq<seq<Byte>>, lines: seq<(Oid, Ref)>, raw: seq<Byte>, f: Format) {
    && |lines| == |packets|
    && (forall i :: 0 <= i < |lines| ==>
          && IsLine(packets, i, lines[i].0, lines[i].1, raw)
          && IsAdvertisedLine(lines[i].0, lines[i].1, f, |packets|))
    && forall i, j :: 0 <= i < j < |lines| ==> lines[i].1 != lines[j].1
  }

  lemma LineOkIs(packets: seq<seq<Byte>>, i: nat, f: Format, oid: Oid, ref: Ref)
    requires i < |packets| && RefLine(packets, i) == Some((oid, ref))
    ensures RefLineOk(packets, i, f) <==> IsAdvertisedLine(oid, ref, f, |packets|)
  {
    AdvertisedIs(ref);
    ZeroOidIs(oid, f);
    AdvertisedIsAscii(ref);
    hide RefLine, IsAdvertised, AdvertisedRefOk, Ascii;
  }

  lemma AdvertisedIsAscii(ref: Ref)
    ensures IsAdvertised(ref) ==> IsAscii(ref)
  {
  }

  lemma GivesIs(raw: seq<Byte>, f: Format)
    ensures CapabilitiesOk(raw) && Selects(Capabilities(raw), f) <==> Gives(raw, f)
  {
    hide IsList, CapabilitiesOk, Capabilities, Selects, GivesFormat;
    if raw == [] {
      NoCapabilities(f);
    } else {
      ListIs(raw);
      SelectsIs(Capabilities(raw), f);
      assert CapabilitiesOk(raw) ==> IsList(raw, Capabilities(raw));
    }
  }

  lemma NoCapabilities(f: Format)
    ensures CapabilitiesOk([]) && (Selects(Capabilities([]), f) <==> f.Sha1?)
    ensures forall items :: !IsList([], items)
  {
    forall items: seq<seq<Byte>> | items != [] && items[0] != [] ensures JoinedBy(items, 32) != [] {
      if |items| > 1 {
        assert JoinedBy(items, 32)[0] == items[0][0];
      }
    }
    hide JoinedBy;
  }

  lemma SelectsIs(items: seq<seq<Byte>>, f: Format)
    ensures Selects(items, f) <==> GivesFormat(items, f)
  {
    FormatTexts();
    hide Ascii;
  }

  lemma FormatTexts()
    ensures FormatCapability(Sha1) == Ascii("object-format=sha1")
    ensures FormatCapability(Sha256) == Ascii("object-format=sha256")
  {
  }

  // Exactly these sections are advertisements.
  lemma AdvertisementIs(packets: seq<seq<Byte>>, f: Format)
    ensures IsAdvertisement(packets, f)
            <==> packets != [] && exists raw, lines :: HasLines(packets, lines, raw, f) && Gives(raw, f)
  {
    hide HasLines, Gives, RefLineOk, SameAdvertised, CapabilitiesOk, Capabilities, Selects;
    if IsAdvertisement(packets, f) {
      var raw := RawCapabilities(packets);
      GivesIs(raw, f);
      var lines := LinesOf(packets, f);
      assert HasLines(packets, lines, raw, f);
    }
    if packets != [] {
      forall raw, lines | HasLines(packets, lines, raw, f) && Gives(raw, f) ensures IsAdvertisement(packets, f) {
        GivesIs(raw, f);
        LinesAdvertise(packets, lines, raw, f);
      }
    }
  }

  lemma LinesOf(packets: seq<seq<Byte>>, f: Format) returns (lines: seq<(Oid, Ref)>)
    requires packets != [] && NUL in StripLf(packets[0])
    requires forall i :: 0 <= i < |packets| ==> RefLineOk(packets, i, f)
    requires forall i, j :: 0 <= i < j < |packets| ==> !SameAdvertised(packets, i, j)
    ensures HasLines(packets, lines, RawCapabilities(packets), f)
  {
    hide RefLine, IsLine, IsAdvertisedLine, StripLf, RawCapabilities;
    var raw := RawCapabilities(packets);
    forall i: nat | i < |packets| ensures RefLine(packets, i).Some? {
      assert RefLineOk(packets, i, f);
    }
    lines := seq(|packets|, i requires 0 <= i < |packets| => RefLine(packets, i).value);
    forall i: nat | i < |packets|
      ensures IsLine(packets, i, lines[i].0, lines[i].1, raw)
      ensures IsAdvertisedLine(lines[i].0, lines[i].1, f, |packets|)
    {
      assert RefLine(packets, i) == Some((lines[i].0, lines[i].1));
      if i == 0 {
        FirstLineIs(packets, lines[0].0, lines[0].1, raw);
      } else {
        LaterLineIs(packets, i, lines[i].0, lines[i].1, raw);
      }
      LineOkIs(packets, i, f, lines[i].0, lines[i].1);
    }
    forall i: nat, j: nat | i < j < |lines| ensures lines[i].1 != lines[j].1 {
      assert !SameAdvertised(packets, i, j);
    }
  }

  lemma LinesAdvertise(packets: seq<seq<Byte>>, lines: seq<(Oid, Ref)>, raw: seq<Byte>, f: Format)
    requires packets != [] && HasLines(packets, lines, raw, f)
    ensures NUL in StripLf(packets[0]) && RawCapabilities(packets) == raw
    ensures forall i :: 0 <= i < |packets| ==> RefLineOk(packets, i, f)
    ensures forall i, j :: 0 <= i < j < |packets| ==> !SameAdvertised(packets, i, j)
    ensures forall i :: 0 <= i < |packets| ==> RefLine(packets, i) == Some(lines[i])
  {
    hide RefLine, IsLine, IsAdvertisedLine, StripLf, RawCapabilities, RefLineOk;
    FirstLineIs(packets, lines[0].0, lines[0].1, raw);
    forall i: nat | i < |packets| ensures RefLine(packets, i) == Some(lines[i]) && RefLineOk(packets, i, f) {
      if i > 0 {
        LaterLineIs(packets, i, lines[i].0, lines[i].1, raw);
      }
      LineOkIs(packets, i, f, lines[i].0, lines[i].1);
    }
  }

  // Those of the lines, each with its object, but for the name that stands for none.
  ghost predicate TheRefs(lines: seq<(Oid, Ref)>, refs: map<Ref, Oid>) {
    forall ref: Ref, oid: Oid ::
      (ref in refs && refs[ref] == oid) <==> (oid, ref) in lines && ref != Ascii("capabilities^{}")
  }

  // They are the refs that are read.
  lemma RefsAreOfLines(packets: seq<seq<Byte>>, lines: seq<(Oid, Ref)>, raw: seq<Byte>, f: Format,
                       refs: map<Ref, Oid>)
    requires packets != [] && HasLines(packets, lines, raw, f)
    ensures RefsAre(packets, |packets|, refs) <==> TheRefs(lines, refs)
  {
    LinesAdvertise(packets, lines, raw, f);
    assert |lines| == |packets|;
    hide HasLines, RefLine, Ascii;
    if RefsAre(packets, |packets|, refs) {
      forall ref: Ref, oid: Oid
        ensures (ref in refs && refs[ref] == oid) <==> (oid, ref) in lines && ref != Ascii("capabilities^{}")
      {
        HeldAre(packets, lines, refs, oid, ref);
      }
    }
    if TheRefs(lines, refs) {
      AreHeld(packets, lines, refs);
    }
  }

  lemma HeldAre(packets: seq<seq<Byte>>, lines: seq<(Oid, Ref)>, refs: map<Ref, Oid>, oid: Oid, ref: Ref)
    requires |lines| == |packets| && RefsAre(packets, |packets|, refs)
    requires forall i :: 0 <= i < |packets| ==> RefLine(packets, i) == Some(lines[i])
    ensures (ref in refs && refs[ref] == oid) <==> (oid, ref) in lines && ref != Ascii("capabilities^{}")
  {
    hide RefLine, Ascii;
    if ref in refs && refs[ref] == oid {
      assert Named(packets, |packets|, ref);
      var i: nat :| i < |packets| && LineNames(packets, i, ref);
      assert LineHeld(packets, i, refs) && lines[i] == (oid, ref);
    }
    if (oid, ref) in lines && ref != Ascii("capabilities^{}") {
      var i :| 0 <= i < |lines| && lines[i] == (oid, ref);
      assert LineHeld(packets, i, refs);
    }
  }

  lemma AreHeld(packets: seq<seq<Byte>>, lines: seq<(Oid, Ref)>, refs: map<Ref, Oid>)
    requires |lines| == |packets| && TheRefs(lines, refs)
    requires forall i :: 0 <= i < |packets| ==> RefLine(packets, i) == Some(lines[i])
    ensures RefsAre(packets, |packets|, refs)
  {
    hide RefLine, Ascii;
    forall i: nat | i < |packets| ensures LineHeld(packets, i, refs) {
      var (oid, ref) := lines[i];
      assert (oid, ref) in lines;
      assert (ref in refs && refs[ref] == oid) <==> ref != EMPTY;
      if ref in refs {
        var held := refs[ref];
        assert (ref in refs && refs[ref] == held) <==> (held, ref) in lines && ref != EMPTY;
      }
    }
    forall ref | ref in refs ensures Named(packets, |packets|, ref) {
      assert (refs[ref], ref) in lines;
      var i :| 0 <= i < |lines| && lines[i] == (refs[ref], ref);
      assert LineNames(packets, i, ref);
    }
  }
}
