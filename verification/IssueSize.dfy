/**
  The size of a canonical Issue (src/agent_container/family_issue.py:10-14,
  82-204; family_pending.py:37, 344-349).
 */
module IssueSize {
  import opened Wrappers
  import opened Utf8
  import opened PendingRecord
  import opened MarkdownLiteral
  import opened IssueRendering

  const CANONICAL_BYTES := 33_000

  lemma {:induction false} AsciiLength(s: string)
    requires forall i :: 0 <= i < |s| ==> s[i] as int < 0x80
    ensures Utf8Length(s) == |s|
  {
    if s != [] {
      AsciiLength(s[1..]);
    }
  }

  // A backslash is one byte, a character at least one.
  lemma {:induction false} EscapeAtMostDoubles(value: string, from: nat, positions: set<int>)
    requires from <= |value|
    ensures Utf8Length(EscapeFrom(value, from, positions)) <= 2 * Utf8Length(value[from..])
    decreases |value| - from
  {
    if from < |value| {
      EscapeAtMostDoubles(value, from + 1, positions);
      EscapeUnfolds(value, from, positions);
      var one := EscapeOne(value[from], from in positions);
      Utf8LengthConcat(one, EscapeFrom(value, from + 1, positions));
      Utf8LengthConcat([value[from]], value[from + 1..]);
      OneAtMostDoubles(value[from], from in positions);
    }
  }

  lemma OneAtMostDoubles(c: char, escaped: bool)
    ensures Utf8Length(EscapeOne(c, escaped)) <= 2 * Utf8Length([c])
  {
    var one := EscapeOne(c, escaped);
    assert Utf8Length([c]) == CharBytes(c) + Utf8Length([]);
    if |one| == 2 {
      assert one[1..] == [c];
    }
  }

  lemma EscapedBytes(value: string, inline: Inline, maximum: nat)
    requires TextOk(value, maximum)
    ensures Utf8Length(Escape(value, inline(value))) <= 2 * maximum
  {
    EscapeAtMostDoubles(value, 0, BlockPositions(value) + inline(value));
    assert value[0..] == value;
  }

  lemma {:induction false} BulletsBytes(criteria: seq<string>, inline: Inline)
    requires forall i :: 0 <= i < |criteria| ==> TextOk(criteria[i], CRITERION_BYTES)
    ensures Utf8Length(Bullets(criteria, inline)) <= |criteria| * (2 * CRITERION_BYTES + 3)
  {
    hide Escape, TextOk;
    if criteria != [] {
      EscapedBytes(criteria[0], inline, CRITERION_BYTES);
      BulletsBytes(criteria[1..], inline);
      var text := Escape(criteria[0], inline(criteria[0]));
      AsciiLength("- ");
      AsciiLength("\n");
      Utf8LengthConcat("- ", text);
      Utf8LengthConcat("- " + text, "\n");
      Utf8LengthConcat("- " + text + "\n", Bullets(criteria[1..], inline));
    }
  }

  lemma SectionBytes(heading: string, text: string)
    requires forall i :: 0 <= i < |heading| ==> heading[i] as int < 0x80
    ensures Utf8Length(Section(heading, text)) == |heading| + Utf8Length(text) + 4
  {
    AsciiLength(heading);
    AsciiLength("\n\n");
    Utf8LengthConcat(heading, "\n\n");
    Utf8LengthConcat(heading + "\n\n", text);
    Utf8LengthConcat(heading + "\n\n" + text, "\n\n");
  }

  lemma RenderBytes(d: Draft, inline: Inline)
    requires DraftOk(d)
    ensures Utf8Length(Render(d, inline)) <= 32_880
  {
    hide Escape, Section, Bullets, TextOk, Utf8Length;
    var summary, context := Escape(d.summary, inline(d.summary)), Escape(d.context, inline(d.context));
    EscapedBytes(d.summary, inline, SUMMARY_BYTES);
    EscapedBytes(d.context, inline, CONTEXT_BYTES);
    BulletsBytes(d.criteria, inline);
    SectionBytes(SUMMARY, summary);
    SectionBytes(CONTEXT, context);
    AsciiLength(CRITERIA);
    AsciiLength("\n\n");
    Utf8LengthConcat(Section(SUMMARY, summary), Section(CONTEXT, context));
    Utf8LengthConcat(Section(SUMMARY, summary) + Section(CONTEXT, context), CRITERIA);
    Utf8LengthConcat(Section(SUMMARY, summary) + Section(CONTEXT, context) + CRITERIA, "\n\n");
    Utf8LengthConcat(Section(SUMMARY, summary) + Section(CONTEXT, context) + CRITERIA + "\n\n",
      Bullets(d.criteria, inline));
  }

  lemma FooterBytes(a: Author)
    requires IsSlug(a.repository)
    ensures Utf8Length(Footer(a)) <= 120
  {
    var s := Signature(a);
    var rest := " " + Label(a.agent) + " (" + a.repository + ")";
    assert s == ['\U{2014}'] + rest;
    AsciiLength(rest);
    Utf8LengthConcat(['\U{2014}'], rest);
    assert Utf8Length(['\U{2014}']) == 3 + Utf8Length([]);
    AsciiLength("\n---\n\n");
    AsciiLength("\n");
    Utf8LengthConcat("\n---\n\n", s);
    Utf8LengthConcat("\n---\n\n" + s, "\n");
  }

  // Every accepted draft has a canonical form a record may hold, with room to spare.
  lemma CanonicalFits(d: Draft, author: Option<Author>, inline: Inline)
    ensures var r := Canonical(d, author, inline);
            && (r.Ok? <==> DraftOk(d) && (author.Some? ==> IsSlug(author.value.repository)))
            && (r.Ok? ==> ValidIssue(r.value) && Utf8Length(r.value.body) <= CANONICAL_BYTES)
  {
    var r := Canonical(d, author, inline);
    if r.Ok? {
      hide Footer, IsSlug, Utf8Length, TextOk, Render;
      RenderBytes(d, inline);
      if author.Some? {
        FooterBytes(author.value);
        Utf8LengthConcat(Render(d, inline), Footer(author.value));
      }
      NonEmpty(d, inline);
    }
  }

  lemma NonEmpty(d: Draft, inline: Inline)
    requires DraftOk(d)
    ensures |Render(d, inline)| > 0 && |d.title| > 0 && Utf8Length(d.title) <= TITLE_BYTES
  {
    assert |SUMMARY| > 0;
  }
}
