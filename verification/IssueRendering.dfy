/**
  The canonical Issue body (src/agent_container/family_issue.py:10-79, 164-204).
 */
module IssueRendering {
  import opened Wrappers
  import opened Utf8
  import opened PendingRecord
  import opened MarkdownLiteral
  import InlinePatterns

  const SUMMARY_BYTES := 2 * 1024
  const CONTEXT_BYTES := 4 * 1024
  const CRITERION_BYTES := 512
  const MAX_CRITERIA := 20

  // ---- Drafts ----

  predicate ForbiddenChar(c: char) {
    || c as int <= 0x1F || 0x7F <= c as int <= 0x9F
    || 0x202A <= c as int < 0x202F || 0x2066 <= c as int < 0x206A
  }

  predicate TextOk(value: string, maximum: nat) {
    value != [] && Utf8Length(value) <= maximum && forall i :: 0 <= i < |value| ==> !ForbiddenChar(value[i])
  }

  datatype Draft = Draft(title: string, summary: string, context: string, criteria: seq<string>)

  predicate DraftOk(d: Draft) {
    && TextOk(d.title, TITLE_BYTES) && TextOk(d.summary, SUMMARY_BYTES) && TextOk(d.context, CONTEXT_BYTES)
    && 1 <= |d.criteria| <= MAX_CRITERIA
    && forall i :: 0 <= i < |d.criteria| ==> TextOk(d.criteria[i], CRITERION_BYTES)
  }

  // ---- Rendering ----

  // Where the inline patterns match in each text.
  type Inline = string -> set<int>

  const SUMMARY := "## Summary"
  const CONTEXT := "## Context"
  const CRITERIA := "## Acceptance criteria"

  function Section(heading: string, text: string): string {
    heading + "\n\n" + text + "\n\n"
  }

  function Bullets(criteria: seq<string>, inline: Inline): string {
    if criteria == [] then []
    else "- " + Escape(criteria[0], inline(criteria[0])) + "\n" + Bullets(criteria[1..], inline)
  }

  // `render_family_issue_body`.
  function Render(d: Draft, inline: Inline): string {
    Section(SUMMARY, Escape(d.summary, inline(d.summary)))
    + Section(CONTEXT, Escape(d.context, inline(d.context)))
    + CRITERIA + "\n\n" + Bullets(d.criteria, inline)
  }

  datatype Agent = Claude | Codex

  datatype Author = Author(agent: Agent, repository: string)

  function Label(a: Agent): string {
    match a
    case Claude => "Claude"
    case Codex => "Codex"
  }

  function Signature(a: Author): string {
    "\U{2014} " + Label(a.agent) + " (" + a.repository + ")"
  }

  function Footer(a: Author): string {
    "\n---\n\n" + Signature(a) + "\n"
  }

  // `canonicalize_family_issue`, of a draft and the agent it is signed by, if any.
  function Canonical(d: Draft, author: Option<Author>, inline: Inline): Result<Issue> {
    if !DraftOk(d) then Refused
    else
      match author
      case None => Ok(Issue(d.title, Render(d, inline)))
      case Some(a) =>
        if !IsSlug(a.repository) then Refused
        else Ok(Issue(d.title, Render(d, inline) + Footer(a)))
  }

  // ---- Reading a body back, line by line ----

  function LineEnd(s: string): (k: nat)
    ensures k <= |s|
  {
    if s == [] || s[0] == '\n' then 0 else 1 + LineEnd(s[1..])
  }

  // s.split("\n")
  function Lines(s: string): (lines: seq<string>)
    ensures lines != []
    decreases |s|
  {
    var k := LineEnd(s);
    if k == |s| then [s] else [s[..k]] + Lines(s[k + 1..])
  }

  // The criteria are the lines that start a bullet, up to the first that does not.
  function ReadBullets(lines: seq<string>, markdown: bool): seq<string> {
    if lines == [] || !("- " <= lines[0]) then []
    else [Unescape(lines[0][2..], markdown)] + ReadBullets(lines[1..], markdown)
  }

  datatype Reading = Reading(summary: string, context: string, criteria: seq<string>, signature: Option<string>)

  // A reader that knows only the layout: the third and seventh lines are the
  // texts, bullets follow the eleventh, and a signature is the line behind a rule.
  function Read(body: string, markdown: bool): Option<Reading> {
    var lines := Lines(body);
    if |lines| < 10 then None
    else
      var criteria := ReadBullets(lines[10..], markdown);
      var rest := if 10 + |criteria| <= |lines| then lines[10 + |criteria|..] else [];
      Some(Reading(Unescape(lines[2], markdown), Unescape(lines[6], markdown), criteria,
                   if |rest| > 3 then Some(rest[3]) else None))
  }

  // ---- The layout is lines ----

  predicate OneLine(s: string) {
    '\n' !in s
  }

  predicate OneLineEach(lines: seq<string>) {
    forall i :: 0 <= i < |lines| ==> OneLine(lines[i])
  }

  function Joined(lines: seq<string>): string {
    if lines == [] then [] else lines[0] + "\n" + Joined(lines[1..])
  }

  lemma JoinedUnfolds(line: string, rest: seq<string>)
    ensures Joined([line] + rest) == line + "\n" + Joined(rest)
  {
    assert ([line] + rest)[1..] == rest;
  }

  lemma {:induction false} JoinedConcat(a: seq<string>, b: seq<string>)
    ensures Joined(a + b) == Joined(a) + Joined(b)
  {
    if a == [] {
      assert a + b == b;
    } else {
      hide Joined;
      assert a == [a[0]] + a[1..] && a + b == [a[0]] + (a[1..] + b);
      JoinedUnfolds(a[0], a[1..]);
      JoinedUnfolds(a[0], a[1..] + b);
      JoinedConcat(a[1..], b);
    }
  }

  lemma {:induction false} LineEndOf(line: string, rest: string)
    requires OneLine(line)
    ensures LineEnd(line + "\n" + rest) == |line|
  {
    var s := line + "\n" + rest;
    if line != [] {
      assert line[0] in line && s[1..] == line[1..] + "\n" + rest;
      LineEndOf(line[1..], rest);
    }
  }

  lemma FirstLine(line: string, rest: string)
    requires OneLine(line)
    ensures Lines(line + "\n" + rest) == [line] + Lines(rest)
  {
    var s := line + "\n" + rest;
    LineEndOf(line, rest);
    hide LineEnd;
    assert s[..|line|] == line && s[|line| + 1..] == rest;
  }

  lemma {:induction false} LinesOfJoined(lines: seq<string>)
    requires OneLineEach(lines)
    ensures Lines(Joined(lines)) == lines + [""]
  {
    if lines == [] {
      assert Lines("") == [""];
    } else {
      hide Joined, Lines;
      assert lines == [lines[0]] + lines[1..];
      JoinedUnfolds(lines[0], lines[1..]);
      FirstLine(lines[0], Joined(lines[1..]));
      LinesOfJoined(lines[1..]);
    }
  }

  function BulletLines(criteria: seq<string>, inline: Inline): (lines: seq<string>)
    ensures |lines| == |criteria|
  {
    if criteria == [] then []
    else ["- " + Escape(criteria[0], inline(criteria[0]))] + BulletLines(criteria[1..], inline)
  }

  lemma {:induction false} BulletsAreLines(criteria: seq<string>, inline: Inline)
    ensures Bullets(criteria, inline) == Joined(BulletLines(criteria, inline))
  {
    hide Escape;
    if criteria != [] {
      BulletsAreLines(criteria[1..], inline);
      var lines := BulletLines(criteria, inline);
      assert lines[1..] == BulletLines(criteria[1..], inline);
    }
  }

  function Head(d: Draft, inline: Inline): seq<string> {
    [SUMMARY, "", Escape(d.summary, inline(d.summary)), "",
     CONTEXT, "", Escape(d.context, inline(d.context)), "",
     CRITERIA, ""]
  }

  function Tail(author: Option<Author>): seq<string> {
    if author.None? then [] else ["", "---", "", Signature(author.value)]
  }

  lemma JoinedTwo(a: string, b: string, rest: seq<string>)
    ensures Joined([a, b] + rest) == a + "\n" + b + "\n" + Joined(rest)
  {
    assert ([a, b] + rest)[1..] == [b] + rest && ([b] + rest)[1..] == rest;
  }

  lemma JoinedHeading(heading: string, rest: seq<string>)
    ensures Joined([heading, ""] + rest) == heading + "\n\n" + Joined(rest)
  {
    JoinedTwo(heading, "", rest);
    hide Joined;
    assert heading + "\n" + "" + "\n" == heading + "\n\n";
  }

  lemma JoinedSection(heading: string, text: string, rest: seq<string>)
    ensures Joined([heading, "", text, ""] + rest) == Section(heading, text) + Joined(rest)
  {
    hide Joined;
    assert [heading, "", text, ""] + rest == [heading, ""] + ([text, ""] + rest);
    JoinedHeading(heading, [text, ""] + rest);
    JoinedHeading(text, rest);
    assert heading + "\n\n" + (text + "\n\n" + Joined(rest)) == Section(heading, text) + Joined(rest);
  }

  lemma RenderIsLines(d: Draft, inline: Inline)
    ensures Render(d, inline) == Joined(Head(d, inline) + BulletLines(d.criteria, inline))
  {
    hide Escape, Bullets, BulletLines, Joined, Section;
    BulletsAreLines(d.criteria, inline);
    var bullets := BulletLines(d.criteria, inline);
    var summary, context := Escape(d.summary, inline(d.summary)), Escape(d.context, inline(d.context));
    JoinedHeading(CRITERIA, bullets);
    var last := [CRITERIA, ""] + bullets;
    JoinedSection(CONTEXT, context, last);
    var middle := [CONTEXT, "", context, ""] + last;
    JoinedSection(SUMMARY, summary, middle);
    assert Head(d, inline) + bullets == [SUMMARY, "", summary, ""] + middle;
  }

  lemma FooterIsLines(a: Author)
    ensures Footer(a) == Joined(Tail(Some(a)))
  {
    hide Joined, Signature;
    var sig := Signature(a);
    assert Tail(Some(a)) == ["", "---"] + (["", sig] + []);
    JoinedTwo("", "---", ["", sig] + []);
    JoinedTwo("", sig, []);
    NothingJoined();
  }

  lemma NothingJoined()
    ensures Joined([]) == []
  {
  }

  // ---- Reading back ----

  // The lines of a signed or unsigned body.
  function Layout(d: Draft, author: Option<Author>, inline: Inline): seq<string> {
    Head(d, inline) + BulletLines(d.criteria, inline) + Tail(author)
  }

  // Inline matches lie on punctuation: brackets, parentheses, angle brackets,
  // exclamation marks and emphasis delimiters.
  ghost predicate InlineOk(inline: Inline) {
    forall value: string :: OnPunctuation(value, inline(value))
  }

  lemma EscapeIsOneLine(value: string, inline: Inline, maximum: nat)
    requires TextOk(value, maximum)
    ensures OneLine(Escape(value, inline(value)))
  {
    var positions := BlockPositions(value) + inline(value);
    hide EscapeFrom, BlockPositions;
    assert value[0..] == value;
    assert forall c :: c in value ==> !ForbiddenChar(c);
    if '\n' in Escape(value, inline(value)) {
      EscapeAddsBackslashes(value, 0, positions, '\n');
    }
  }

  lemma UnescapeField(value: string, inline: Inline, markdown: bool)
    requires markdown ==> OnPunctuation(value, inline(value))
    ensures Unescape(Escape(value, inline(value)), markdown) == value
  {
    BlockPositionsArePunctuation(value);
    var positions := BlockPositions(value) + inline(value);
    hide EscapeFrom, BlockPositions, Unescape;
    UnescapeEscape(value, 0, positions, markdown);
    assert value[0..] == value;
  }

  lemma {:induction false} BulletsReadBack(criteria: seq<string>, inline: Inline, rest: seq<string>, markdown: bool)
    requires markdown ==> forall i :: 0 <= i < |criteria| ==> OnPunctuation(criteria[i], inline(criteria[i]))
    requires rest != [] && rest[0] == ""
    ensures ReadBullets(BulletLines(criteria, inline) + rest, markdown) == criteria
  {
    hide Escape, Unescape, OnPunctuation;
    var lines := BulletLines(criteria, inline) + rest;
    if criteria == [] {
      assert lines == rest;
    } else {
      assert lines[1..] == BulletLines(criteria[1..], inline) + rest;
      UnescapeField(criteria[0], inline, markdown);
      assert lines[0][2..] == Escape(criteria[0], inline(criteria[0]));
      BulletsReadBack(criteria[1..], inline, rest, markdown);
    }
  }

  lemma LayoutIsOneLineEach(d: Draft, author: Option<Author>, inline: Inline)
    requires DraftOk(d) && (author.Some? ==> IsSlug(author.value.repository))
    ensures OneLineEach(Layout(d, author, inline))
  {
    hide Escape, TextOk, BulletLines, Signature, OneLineEach, Head, Tail, OneLine;
    EscapeIsOneLine(d.summary, inline, SUMMARY_BYTES);
    EscapeIsOneLine(d.context, inline, CONTEXT_BYTES);
    BulletsAreOneLineEach(d.criteria, inline);
    HeadIsOneLineEach(d, inline);
    TailIsOneLineEach(author);
    OneLineEachConcat(Head(d, inline), BulletLines(d.criteria, inline));
    OneLineEachConcat(Head(d, inline) + BulletLines(d.criteria, inline), Tail(author));
  }

  lemma OneLineEachConcat(a: seq<string>, b: seq<string>)
    requires OneLineEach(a) && OneLineEach(b)
    ensures OneLineEach(a + b)
  {
    hide OneLine;
  }

  lemma HeadIsOneLineEach(d: Draft, inline: Inline)
    requires OneLine(Escape(d.summary, inline(d.summary))) && OneLine(Escape(d.context, inline(d.context)))
    ensures OneLineEach(Head(d, inline))
  {
    hide Escape;
    HeadingsAreOneLine();
    hide OneLine;
  }

  lemma HeadingsAreOneLine()
    ensures OneLine(SUMMARY) && OneLine(CONTEXT) && OneLine(CRITERIA) && OneLine("") && OneLine("---")
  {
  }

  lemma TailIsOneLineEach(author: Option<Author>)
    requires author.Some? ==> IsSlug(author.value.repository)
    ensures OneLineEach(Tail(author))
  {
    hide Signature, IsSlug;
    HeadingsAreOneLine();
    if author.Some? {
      SignatureIsOneLine(author.value);
    }
    hide OneLine;
  }

  lemma {:induction false} BulletsAreOneLineEach(criteria: seq<string>, inline: Inline)
    requires forall i :: 0 <= i < |criteria| ==> TextOk(criteria[i], CRITERION_BYTES)
    ensures OneLineEach(BulletLines(criteria, inline))
  {
    hide Escape, TextOk;
    if criteria != [] {
      EscapeIsOneLine(criteria[0], inline, CRITERION_BYTES);
      assert OneLine("- " + Escape(criteria[0], inline(criteria[0])));
      BulletsAreOneLineEach(criteria[1..], inline);
    }
  }

  lemma SignatureIsOneLine(a: Author)
    requires IsSlug(a.repository)
    ensures OneLine(Signature(a))
  {
  }

  // The body a signature may follow.
  function Body(d: Draft, author: Option<Author>, inline: Inline): string {
    Render(d, inline) + if author.Some? then Footer(author.value) else []
  }

  lemma BodyIsLines(d: Draft, author: Option<Author>, inline: Inline)
    ensures Body(d, author, inline) == Joined(Layout(d, author, inline))
  {
    hide Render, Footer, Head, BulletLines, Joined, Tail;
    RenderIsLines(d, inline);
    JoinedConcat(Head(d, inline) + BulletLines(d.criteria, inline), Tail(author));
    if author.Some? {
      FooterIsLines(author.value);
    } else {
      NoTail();
      NothingJoined();
    }
  }

  lemma NoTail()
    ensures Tail(None) == []
  {
  }

  // Whatever the inline patterns match, the body of an accepted draft reads back
  // as exactly its texts, its criteria and its signature; under Markdown's own
  // escapes it does if they match punctuation.
  lemma BodyReadsBack(d: Draft, author: Option<Author>, inline: Inline, markdown: bool)
    requires DraftOk(d) && (author.Some? ==> IsSlug(author.value.repository)) && (markdown ==> InlineOk(inline))
    ensures Read(Body(d, author, inline), markdown)
            == Some(Reading(d.summary, d.context, d.criteria,
              if author.Some? then Some(Signature(author.value)) else None))
  {
    hide Escape, BulletLines, Lines, ReadBullets, OnPunctuation, Signature, DraftOk, Body, Joined, IsSlug, Unescape;
    var lines := Layout(d, author, inline);
    BodyIsLines(d, author, inline);
    LayoutIsOneLineEach(d, author, inline);
    LinesOfJoined(lines);
    var all := lines + [""];
    UnescapeField(d.summary, inline, markdown);
    UnescapeField(d.context, inline, markdown);
    var rest := Tail(author) + [""];
    assert all[10..] == BulletLines(d.criteria, inline) + rest;
    BulletsReadBack(d.criteria, inline, rest, markdown);
    assert all[10 + |d.criteria|..] == rest;
    assert all[2] == Escape(d.summary, inline(d.summary)) && all[6] == Escape(d.context, inline(d.context));
  }

  // With the program's own patterns, Markdown reads them back without condition.
  lemma MarkdownReadsTheBody(d: Draft, author: Option<Author>)
    requires DraftOk(d) && (author.Some? ==> IsSlug(author.value.repository))
    ensures Read(Body(d, author, InlinePatterns.Inline), true)
            == Some(Reading(d.summary, d.context, d.criteria,
              if author.Some? then Some(Signature(author.value)) else None))
  {
    hide Read, Body, Signature, DraftOk, IsSlug;
    forall value: string ensures OnPunctuation(value, InlinePatterns.Inline(value)) {
      InlinePatterns.InlineIsPunctuation(value);
    }
    BodyReadsBack(d, author, InlinePatterns.Inline, true);
  }

  // So a title and body stand for one draft and one author only.
  lemma CanonicalIsInjective(d: Draft, a: Option<Author>, e: Draft, b: Option<Author>, inline: Inline, other: Inline)
    requires Canonical(d, a, inline).Ok? && Canonical(d, a, inline) == Canonical(e, b, other)
    ensures d == e && a == b
  {
    hide Render, Footer, DraftOk, Read, Signature, IsSlug;
    BodyReadsBack(d, a, inline, false);
    BodyReadsBack(e, b, other, false);
    assert Render(d, inline) + [] == Render(d, inline) && Render(e, other) + [] == Render(e, other);
    if a.Some? && b.Some? {
      SignatureIsInjective(a.value, b.value);
    }
  }

  lemma SignatureIsInjective(a: Author, b: Author)
    requires Signature(a) == Signature(b)
    ensures a == b
  {
    var s, t := Signature(a), Signature(b);
    assert s[3] == if a.agent.Claude? then 'l' else 'o';
    assert t[3] == if b.agent.Claude? then 'l' else 'o';
    var skip := 2 + |Label(a.agent)| + 2;
    assert s[skip..|s| - 1] == a.repository && t[skip..|t| - 1] == b.repository;
  }

  // ---- The canonical form, letter by letter ----

  // Text of at most `maximum` bytes without control characters and overrides of the
  // writing direction.
  predicate IsText(value: string, maximum: nat) {
    && 1 <= |value| && Utf8Length(value) <= maximum
    && forall i :: 0 <= i < |value| ==>
         var n := value[i] as int;
         0x20 <= n && n != 0x7F && !(0x80 <= n <= 0x9F) && !(0x202A <= n <= 0x202E) && !(0x2066 <= n <= 0x2069)
  }

  lemma TextIs(value: string, maximum: nat)
    ensures TextOk(value, maximum) <==> IsText(value, maximum)
  {
    hide Utf8Length;
    if IsText(value, maximum) {
      forall i | 0 <= i < |value| ensures !ForbiddenChar(value[i]) {
        assert 0x20 <= value[i] as int;
      }
    }
  }

  // Which drafts are accepted, and the title and body they become.
  lemma CanonicalIs(d: Draft, author: Option<Author>, inline: Inline)
    ensures Canonical(d, author, inline).Ok? <==>
              && IsText(d.title, 256) && IsText(d.summary, 2_048) && IsText(d.context, 4_096)
              && 1 <= |d.criteria| <= 20 && (forall i :: 0 <= i < |d.criteria| ==> IsText(d.criteria[i], 512))
              && (author.Some? ==> IsSlug(author.value.repository))
    ensures Canonical(d, author, inline).Ok? ==>
              var issue := Canonical(d, author, inline).value;
              var name := if author.Some? && author.value.agent.Claude? then "Claude" else "Codex";
              && issue.title == d.title
              && issue.body
                 == "## Summary\n\n" + Escape(d.summary, inline(d.summary)) + "\n\n"
                    + "## Context\n\n" + Escape(d.context, inline(d.context)) + "\n\n"
                    + "## Acceptance criteria\n\n" + Bullets(d.criteria, inline)
                    + if author.None? then "" else "\n---\n\n\U{2014} " + name + " (" + author.value.repository + ")\n"
  {
    hide Escape, Bullets, IsText, TextOk, IsSlug;
    TextIs(d.title, 256);
    TextIs(d.summary, 2_048);
    TextIs(d.context, 4_096);
    forall i | 0 <= i < |d.criteria| ensures TextOk(d.criteria[i], 512) <==> IsText(d.criteria[i], 512) {
      TextIs(d.criteria[i], 512);
    }
    RenderIs(d, inline);
    if author.Some? {
      FooterIs(author.value);
    }
    hide Render, Footer;
    assert Render(d, inline) + "" == Render(d, inline);
  }

  lemma RenderIs(d: Draft, inline: Inline)
    ensures Render(d, inline)
            == "## Summary\n\n" + Escape(d.summary, inline(d.summary)) + "\n\n"
               + "## Context\n\n" + Escape(d.context, inline(d.context)) + "\n\n"
               + "## Acceptance criteria\n\n" + Bullets(d.criteria, inline)
  {
    hide Escape, Bullets;
    assert "## Summary" + "\n\n" == "## Summary\n\n" && "## Context" + "\n\n" == "## Context\n\n";
    assert "## Acceptance criteria" + "\n\n" == "## Acceptance criteria\n\n";
  }

  lemma FooterIs(a: Author)
    ensures Footer(a)
            == "\n---\n\n\U{2014} " + (if a.agent.Claude? then "Claude" else "Codex") + " (" + a.repository + ")\n"
  {
    assert "\n---\n\n" + "\U{2014} " == "\n---\n\n\U{2014} " && ")" + "\n" == ")\n";
  }
}
