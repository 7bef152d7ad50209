/**
  The Markdown blocks an escaped text can still open: what the rules of
  src/agent_container/family_issue.py:83-118 do not look for.  The blocks are those of
  sections 4.4 to 4.6 and 5.1 of CommonMark 0.31.2.
 */
module MarkdownBlocks {
  import opened MarkdownLiteral

  // ---- Beginnings that escaping keeps ----

  predicate Plain(p: string) {
    forall i :: 0 <= i < |p| ==> !AlwaysEscaped(p[i])
  }

  // `p` stands at `k`, and no position from `from` on reaches it.
  predicate Bare(value: string, from: nat, k: nat, p: string, positions: set<int>) {
    && k + |p| <= |value| && p == value[k..k + |p|]
    && forall i :: i in positions ==> !(from <= i < k + |p|)
  }

  lemma {:induction false} BareIsKept(value: string, from: nat, p: string, positions: set<int>)
    requires from <= |value| && Plain(p) && Bare(value, from, from, p, positions)
    ensures p <= EscapeFrom(value, from, positions)
    decreases |p|
  {
    if p != [] {
      var tail := p[1..];
      assert value[from] == value[from..from + |p|][0] == p[0];
      assert tail == value[from + 1..from + 1 + |tail|];
      BareIsKept(value, from + 1, tail, positions);
      EscapeUnfolds(value, from, positions);
      hide EscapeFrom;
      assert p == [p[0]] + tail;
    }
  }

  // Escaped text starts with a plain text exactly where the text does and no
  // position reaches it.
  lemma PrefixHere(value: string, from: nat, p: string, positions: set<int>)
    requires from <= |value| && Plain(p)
    ensures var f := EscapeFrom(value, from, positions);
            && (p <= f <==> Bare(value, from, from, p, positions))
            && (p <= f ==> (|p| == |f| <==> from + |p| == |value|))
  {
    hide EscapeFrom;
    var f := EscapeFrom(value, from, positions);
    if p <= f {
      assert f[..|p|] == p;
      Copies(value, from, positions, |p|);
      FirstChar(value, from + |p|, positions);
      assert f[|p|..] == [] <==> |p| == |f|;
    }
    if Bare(value, from, from, p, positions) {
      BareIsKept(value, from, p, positions);
    }
  }

  // The same behind the indentation, which is then kept.
  predicate StartsAlike(value: string, from: nat, p: string, positions: set<int>, f: string)
    requires from <= |value|
  {
    var k, block := from + LeadingSpaces(value[from..]), Block(f);
    && (p <= block <==> Bare(value, from, k, p, positions))
    && (p <= block ==> (|p| == |block| <==> k + |p| == |value|))
    && (p <= block ==> LeadingSpaces(f) == LeadingSpaces(value[from..]))
  }

  lemma {:induction false} PrefixFrom(value: string, from: nat, p: string, positions: set<int>)
    requires from <= |value| && Plain(p) && p != [] && p[0] != ' '
    ensures StartsAlike(value, from, p, positions, EscapeFrom(value, from, positions))
    decreases |value| - from
  {
    hide EscapeFrom, LeadingSpaces, Block, Plain, Bare;
    var f := EscapeFrom(value, from, positions);
    FirstChar(value, from, positions);
    if from == |value| || value[from] != ' ' {
      NoSpace(f);
      NoSpace(value[from..]);
      PrefixHere(value, from, p, positions);
    } else if from in positions {
      NoSpace(f);
      PlainStarts(p);
      ReachedIsNotBare(value, from, p, positions);
    } else {
      EscapeUnfolds(value, from, positions);
      SpaceBefore(EscapeFrom(value, from + 1, positions));
      SpaceBefore(value[from + 1..]);
      PrefixFrom(value, from + 1, p, positions);
      BareFurther(value, from, from + 1 + LeadingSpaces(value[from + 1..]), p, positions);
    }
  }

  lemma PlainStarts(p: string)
    requires Plain(p) && p != []
    ensures p[0] != '\\'
  {
  }

  lemma ReachedIsNotBare(value: string, from: nat, p: string, positions: set<int>)
    requires from <= |value| && from in positions && p != []
    ensures !Bare(value, from, from + LeadingSpaces(value[from..]), p, positions)
  {
  }

  lemma BareFurther(value: string, from: nat, k: nat, p: string, positions: set<int>)
    requires from !in positions
    ensures Bare(value, from, k, p, positions) <==> Bare(value, from + 1, k, p, positions)
  {
  }

  // For a whole text whose first character the block rules leave alone.
  lemma PrefixOfEscape(value: string, inline: set<int>, p: string)
    requires Plain(p) && p != [] && p[0] != ' '
    requires var b := Block(value); b != [] && b[0] == p[0] ==> BlockPositions(value) == {}
    ensures StartsAlike(value, 0, p, inline, Escape(value, inline))
  {
    hide EscapeFrom, BlockPositions, LeadingSpaces, Plain;
    var positions := BlockPositions(value) + inline;
    assert value[0..] == value;
    PrefixFrom(value, 0, p, positions);
    if Bare(value, 0, LeadingSpaces(value), p, inline) || Bare(value, 0, LeadingSpaces(value), p, positions) {
      BareStarts(value, p, inline);
      assert positions == inline;
    }
  }

  lemma BareStarts(value: string, p: string, positions: set<int>)
    requires p != []
    requires var k := LeadingSpaces(value); k + |p| <= |value| && p == value[k..k + |p|]
    ensures Block(value) != [] && Block(value)[0] == p[0]
  {
  }

  // ---- Fenced code ----

  // Three backticks or tildes (section 4.5), like every block below with less than
  // four spaces before them.
  predicate OpensFence(s: string) {
    LeadingSpaces(s) < 4 && ("~~~" <= Block(s) || "```" <= Block(s))
  }

  // The program escapes every backtick but has no rule for tildes: an escaped text
  // opens a fenced code block exactly when it starts with three tildes that no inline
  // match reaches.
  lemma FencesOfTildesRemain(value: string, inline: set<int>)
    ensures OpensFence(Escape(value, inline)) <==>
              LeadingSpaces(value) < 4 && Bare(value, 0, LeadingSpaces(value), "~~~", inline)
  {
    hide BlockPositions, EscapeFrom, Bare, LeadingSpaces;
    NoRuleFor(value);
    PrefixOfEscape(value, inline, "~~~");
    BlockOfEscape(value, 0, BlockPositions(value) + inline);
    assert value[0..] == value;
    FirstChar(value, LeadingSpaces(value), BlockPositions(value) + inline);
  }

  lemma NoRuleFor(value: string)
    ensures var b := Block(value);
            b != [] && (b[0] == '~' || b[0] == '<' || (b[0] == '>' && !IsQuote(b))) ==> BlockPositions(value) == {}
  {
    var b := value[LeadingSpaces(value)..];
    if b != [] && (b[0] == '~' || b[0] == '<' || b[0] == '>') {
      assert !IsTask(b) && !IsDefinition(b) && !IsHeading(b) && !IsBullet(b) && !IsThematicBreak(b) && !IsOrdered(b);
    }
  }

  // ---- Block quotes ----

  // The blank behind the mark is optional (section 5.1).
  predicate OpensQuote(s: string) {
    LeadingSpaces(s) < 4 && ">" <= Block(s)
  }

  // An escaped text opens a block quote exactly when it starts with the mark and no
  // blank stands behind it, as the program only looks for a mark with a blank.
  lemma QuotesRemain(value: string, inline: set<int>)
    ensures OpensQuote(Escape(value, inline)) <==>
              LeadingSpaces(value) < 4 && Bare(value, 0, LeadingSpaces(value), ">", inline) && !IsQuote(Block(value))
  {
    hide BlockPositions, EscapeFrom, LeadingSpaces, IsQuote;
    if IsQuote(Block(value)) {
      QuoteGoesOn(value, inline);
    } else {
      NoRuleFor(value);
      PrefixOfEscape(value, inline, ">");
    }
  }

  // Where the mark with a blank was, a backslash is.
  lemma QuoteGoesOn(value: string, inline: set<int>)
    requires IsQuote(Block(value))
    ensures !(">" <= Block(Escape(value, inline)))
  {
    hide BlockPositions, EscapeFrom, IsQuote, IsTask, IsDefinition, IsHeading, IsBullet, IsThematicBreak, IsOrdered;
    BlocksAreEscaped(value);
    BlockOfEscape(value, 0, BlockPositions(value) + inline);
    assert value[0..] == value;
    FirstChar(value, LeadingSpaces(value), BlockPositions(value) + inline);
  }

  // ---- HTML blocks ----

  predicate IsLetter(c: char) {
    'a' <= c <= 'z' || 'A' <= c <= 'Z'
  }

  predicate InName(c: char) {
    IsLetter(c) || '0' <= c <= '9'
  }

  function Lower(c: char): char {
    if 'A' <= c <= 'Z' then (c as int + 32) as char else c
  }

  function Lowered(s: string): string {
    seq(|s|, i requires 0 <= i < |s| => Lower(s[i]))
  }

  const RAW_TAGS := {"pre", "script", "style", "textarea"}

  const BLOCK_TAGS := {
    "address", "article", "aside", "base", "basefont", "blockquote", "body", "caption", "center", "col", "colgroup",
    "dd", "details", "dialog", "dir", "div", "dl", "dt", "fieldset", "figcaption", "figure", "footer", "form",
    "frame", "frameset", "h1", "h2", "h3", "h4", "h5", "h6", "head", "header", "hr", "html", "iframe", "legend",
    "li", "link", "main", "menu", "menuitem", "nav", "noframes", "ol", "optgroup", "option", "p", "param", "search",
    "section", "summary", "table", "tbody", "td", "tfoot", "th", "thead", "title", "tr", "track", "ul"
  }

  predicate IsRawTag(name: string) {
    name in RAW_TAGS
  }

  predicate IsBlockTag(name: string) {
    name in BLOCK_TAGS
  }

  // Start conditions 1 and 6 of section 4.6: how long the opening is, or 0.
  function TagOpener(b: string): (n: nat)
    ensures n <= |b|
  {
    if !("<" <= b) then 0
    else
      var k := if "</" <= b then 2 else 1;
      var end := k + RunOf(b[k..], InName);
      var name := Lowered(b[k..end]);
      if end == k || (!IsBlockTag(name) && (k == 2 || !IsRawTag(name))) then 0
      else if end == |b| then end
      else if b[end] in " \t>" then end + 1
      else if IsBlockTag(name) && "/>" <= b[end..] then end + 2
      else 0
  }

  // Start conditions 2 to 5, and those of tags.
  function HtmlOpener(b: string): (n: nat)
    ensures n <= |b|
  {
    if "<!--" <= b then 4
    else if "<?" <= b then 2
    else if "<![CDATA[" <= b then 9
    else if "<!" <= b && |b| > 2 && IsLetter(b[2]) then 3
    else TagOpener(b)
  }

  lemma TagOpenerIsPlain(b: string)
    requires TagOpener(b) > 0
    ensures var n := TagOpener(b); n >= 2 && b[0] == '<' && Plain(b[..n]) && b[1] != '!' && b[1] != '?'
  {
    hide IsRawTag, IsBlockTag;
    var k := if "</" <= b then 2 else 1;
    var run := RunOf(b[k..], InName);
    RunIs(b[k..], InName, run);
    assert forall i :: k <= i < k + run ==> b[i] == b[k..][i - k];
  }

  lemma InsideTag(b: string, i: nat)
    requires TagOpener(b) > 0 && 0 < i < TagOpener(b)
    ensures b[i] == '/' || InName(b[i]) || b[i] in " \t>"
  {
    hide IsRawTag, IsBlockTag;
    var k := if "</" <= b then 2 else 1;
    var run := RunOf(b[k..], InName);
    RunIs(b[k..], InName, run);
    if k <= i < k + run {
      assert InName(b[k..][i - k]);
    } else if i > k + run {
      assert b[k + run..][1] == '>';
    }
  }

  lemma OpenerIsPlain(b: string)
    requires HtmlOpener(b) > 0
    ensures var n := HtmlOpener(b); n >= 2 && b[0] == '<' && Plain(b[..n])
  {
    hide TagOpener;
    if TagOpener(b) > 0 {
      TagOpenerIsPlain(b);
    }
  }

  // Whether a block opens depends on that beginning and on what ends there.
  lemma TagOpenerDepends(b: string, f: string)
    requires var n := TagOpener(b); n > 0 && b[..n] <= f && (n == |b| <==> n == |f|)
    ensures TagOpener(f) == TagOpener(b)
  {
    hide IsRawTag, IsBlockTag, Lowered;
    var n := TagOpener(b);
    TagOpenerIsPlain(b);
    SamePrefix(b, f, n);
    var k := if "</" <= b then 2 else 1;
    var run := RunOf(b[k..], InName);
    RunIs(b[k..], InName, run);
    assert "</" <= f <==> "</" <= b;
    SameRun(b, f, k, run);
    assert b[k..k + run] == f[k..k + run];
    if k + run < |b| && b[k + run] !in " \t>" {
      assert b[k + run..][..2] == "/>" == f[k + run..][..2];
    }
  }

  lemma SamePrefix(b: string, f: string, n: nat)
    requires n <= |b| && b[..n] <= f
    ensures n <= |f| && b[..n] == f[..n] && forall i :: 0 <= i < n ==> f[i] == b[i]
  {
    assert forall i :: 0 <= i < n ==> f[i] == f[..n][i] == b[..n][i] == b[i];
  }

  lemma SameRun(b: string, f: string, k: nat, run: nat)
    requires k + run <= |b| && k + run <= |f| && run == RunOf(b[k..], InName)
    requires forall i :: 0 <= i < k + run ==> f[i] == b[i]
    requires k + run == |f| || (k + run < |f| && !InName(f[k + run]))
    ensures RunOf(f[k..], InName) == run
  {
    RunIs(b[k..], InName, run);
    assert forall i :: 0 <= i < run ==> f[k..][i] == b[k..][i];
    RunIs(f[k..], InName, run);
  }

  // The second and third characters tell the four beginnings apart.
  lemma Marks(b: string)
    ensures "<!--" <= b ==> |b| > 2 && b[1] == '!' && b[2] == '-'
    ensures "<?" <= b ==> |b| > 1 && b[1] == '?'
    ensures "<![CDATA[" <= b ==> |b| > 2 && b[1] == '!' && b[2] == '['
    ensures "<!" <= b ==> |b| > 1 && b[1] == '!'
  {
  }

  lemma OpenerDepends(b: string, f: string)
    requires var n := HtmlOpener(b); n > 0 && b[..n] <= f && (n == |b| <==> n == |f|)
    ensures HtmlOpener(f) == HtmlOpener(b)
  {
    hide TagOpener;
    var n := HtmlOpener(b);
    OpenerIsPlain(b);
    SamePrefix(b, f, n);
    Marks(b);
    Marks(f);
    if "<!--" <= b {
      assert f[..4] == "<!--";
    } else if "<?" <= b {
      assert f[..2] == "<?";
    } else if "<![CDATA[" <= b {
      assert f[..9] == "<![CDATA[";
    } else if "<!" <= b && |b| > 2 && IsLetter(b[2]) {
      assert f[..2] == "<!" && f[2] == b[2];
    } else {
      TagOpenerIsPlain(b);
      TagOpenerDepends(b, f);
    }
  }

  predicate OpensHtml(s: string) {
    LeadingSpaces(s) < 4 && HtmlOpener(Block(s)) > 0
  }

  // An escaped text opens an HTML block exactly when it starts with the beginning of
  // one that no inline match reaches.
  lemma HtmlBlocksRemain(value: string, inline: set<int>)
    ensures OpensHtml(Escape(value, inline)) <==>
              OpensHtml(value) && Bare(value, 0, LeadingSpaces(value), Block(value)[..HtmlOpener(Block(value))], inline)
  {
    hide HtmlOpener, Escape, EscapeFrom, BlockPositions, LeadingSpaces, Plain;
    var lead, b, e := LeadingSpaces(value), Block(value), Escape(value, inline);
    var f := Block(e);
    assert value[0..] == value;
    NoRuleFor(value);
    if HtmlOpener(f) > 0 {
      var n := HtmlOpener(f);
      OpenerIsPlain(f);
      PrefixOfEscape(value, inline, f[..n]);
      assert b[..n] == value[lead..lead + n];
      OpenerDepends(f, b);
    }
    var n := HtmlOpener(b);
    if n > 0 && Bare(value, 0, lead, b[..n], inline) {
      OpenerIsPlain(b);
      PrefixOfEscape(value, inline, b[..n]);
      OpenerDepends(b, f);
    }
  }

  // ---- Indented code ----

  // Four spaces and then some text (section 4.4).
  predicate OpensIndentedCode(s: string) {
    4 <= LeadingSpaces(s) < |s|
  }

  lemma {:induction false} IndentationIsKept(value: string, from: nat, positions: set<int>)
    requires from <= |value| && OnPunctuation(value, positions)
    ensures var f := EscapeFrom(value, from, positions);
            && LeadingSpaces(f) == LeadingSpaces(value[from..])
            && (LeadingSpaces(f) < |f| <==> from + LeadingSpaces(value[from..]) < |value|)
    decreases |value| - from
  {
    hide EscapeFrom, LeadingSpaces;
    FirstChar(value, from, positions);
    if from < |value| && value[from] == ' ' {
      EscapeUnfolds(value, from, positions);
      SpaceBefore(EscapeFrom(value, from + 1, positions));
      SpaceBefore(value[from + 1..]);
      IndentationIsKept(value, from + 1, positions);
    } else {
      NoSpace(EscapeFrom(value, from, positions));
      NoSpace(value[from..]);
    }
  }

  // The program keeps indentation, so a text indented by four is code.
  lemma IndentedCodeRemains(value: string, inline: set<int>)
    requires OnPunctuation(value, inline)
    ensures OpensIndentedCode(Escape(value, inline)) <==> OpensIndentedCode(value)
  {
    hide EscapeFrom, BlockPositions, LeadingSpaces;
    BlockPositionsArePunctuation(value);
    assert value[0..] == value;
    IndentationIsKept(value, 0, BlockPositions(value) + inline);
  }

  // ---- The line of a criterion ----

  lemma {:induction false} CountSplit(s: string, k: nat, c: char)
    requires k <= |s|
    ensures Count(s, c) == Count(s[..k], c) + Count(s[k..], c)
  {
    if k == 0 {
      assert s[..0] == [] && s[0..] == s;
    } else {
      assert s[..k][1..] == s[1..][..k - 1] && s[k..] == s[1..][k - 1..];
      CountSplit(s[1..], k - 1, c);
    }
  }

  lemma {:induction false} CountOfSpaces(s: string, c: char)
    requires c != ' '
    ensures Count(s, c) == 0 && (forall i :: 0 <= i < |s| ==> s[i] == c || s[i] == ' ') <==>
              forall i :: 0 <= i < |s| ==> s[i] == ' '
  {
    if s != [] {
      CountOfSpaces(s[1..], c);
      assert forall i :: 1 <= i < |s| ==> s[i] == s[1..][i - 1];
      assert forall i :: 0 <= i < |s| - 1 ==> s[1..][i] == s[i + 1];
    }
  }

  // Two dashes and nothing else.
  predicate TwoDashes(b: string) {
    "--" <= b && forall i :: 2 <= i < |b| ==> b[i] == ' '
  }

  lemma {:induction false} LeadingAreSpaces(s: string)
    ensures forall i :: 0 <= i < LeadingSpaces(s) ==> s[i] == ' '
    ensures LeadingSpaces(s) < |s| ==> s[LeadingSpaces(s)] != ' '
  {
    if s != [] && s[0] == ' ' {
      LeadingAreSpaces(s[1..]);
      assert forall i :: 1 <= i < |s| ==> s[i] == s[1..][i - 1];
    }
  }

  predicate DashesOnly(s: string) {
    forall i :: 0 <= i < |s| ==> s[i] == '-' || s[i] == ' '
  }

  lemma CountBehindLead(s: string)
    ensures Count(s, '-') == Count(Block(s), '-') && (DashesOnly(s) <==> DashesOnly(Block(s)))
  {
    var k := LeadingSpaces(s);
    LeadingAreSpaces(s);
    CountSplit(s, k, '-');
    CountOfSpaces(s[..k], '-');
    assert forall i :: 0 <= i < |s| - k ==> s[k..][i] == s[k + i];
    assert forall i :: k <= i < |s| ==> s[i] == s[k..][i - k];
  }

  // Exactly two dashes are neither a bullet nor a thematic break and yet one more
  // makes a thematic break of them.
  lemma TwoDashesAre(b: string)
    requires b == [] || b[0] != ' '
    ensures TwoDashes(b) <==> DashesOnly(b) && Count(b, '-') >= 2 && !IsBullet(b) && !IsThematicBreak(b)
  {
    if |b| >= 2 {
      CountSplit(b, 2, '-');
      CountOfSpaces(b[2..], '-');
      assert b[..2] == [b[0], b[1]] && b[..2][1..] == [b[1]];
      assert Count(b[..2], '-') == (if b[0] == '-' then 1 else 0) + (if b[1] == '-' then 1 else 0);
      assert forall i :: 0 <= i < |b| - 2 ==> b[2..][i] == b[i + 2];
      assert forall i :: 2 <= i < |b| ==> b[i] == b[2..][i - 2];
    } else if |b| == 1 {
      assert b[1..] == [];
    }
  }

  lemma BulletBreaks(e: string)
    ensures IsThematicBreak("- " + e) <==> DashesOnly(e) && Count(e, '-') >= 2
  {
    var b := "- " + e;
    assert b[1..] == " " + e && (" " + e)[1..] == e;
    assert Count(b, '-') == 1 + Count(e, '-');
    assert forall i :: 2 <= i < |b| ==> b[i] == e[i - 2];
    assert forall i :: 0 <= i < |e| ==> e[i] == b[i + 2];
  }

  // The line of a criterion, its bullet with the escaped text, is a thematic break and
  // no item exactly when the criterion is two dashes that no inline match reaches.
  lemma CriterionBreaks(value: string, inline: set<int>)
    ensures IsThematicBreak("- " + Escape(value, inline)) <==>
              TwoDashes(Block(value)) && forall i :: i in inline ==> !(0 <= i < |value|)
  {
    hide EscapeFrom, BlockPositions, IsThematicBreak, IsBullet, TwoDashes, Count;
    var positions := BlockPositions(value) + inline;
    var e, b := Escape(value, inline), Block(value);
    BulletBreaks(e);
    CountBehindLead(value);
    LeadingAreSpaces(value);
    TwoDashesAre(b);
    if DashesOnly(e) && Count(e, '-') >= 2 {
      assert e[..|e|] == e;
      Copies(value, 0, positions, |e|);
      FirstChar(value, |e|, positions);
      assert e[|e|..] == [] && value[0..|e|] == value;
      BlocksAreEscaped(value);
      CountOfNothing(b);
    }
    if TwoDashes(b) && forall i :: i in inline ==> !(0 <= i < |value|) {
      DashesHaveNoRule(value);
      assert DashesOnly(value);
      assert value[0..|value|] == value;
      BareIsKept(value, 0, value, positions);
      PrefixHere(value, 0, value, positions);
      assert e == value;
    }
  }

  lemma CountOfNothing(b: string)
    ensures Count(b, '-') >= 2 ==> b != []
  {
  }

  lemma DashesHaveNoRule(value: string)
    requires TwoDashes(Block(value))
    ensures BlockPositions(value) == {}
  {
    var b := value[LeadingSpaces(value)..];
    assert b[0] == '-' && b[1] == '-';
    TwoDashesAre(b);
  }
}
