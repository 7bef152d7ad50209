/**
  The blocks that the escaped form of a text, as the program writes it, still opens,
  each with its exact condition, and texts that Markdown reads otherwise than they
  stand (src/agent_container/family_issue.py:82-144, 164-178).  The sections are those of
  CommonMark 0.31.2.
 */
module LiteralBlocks {
  import opened MarkdownLiteral
  import opened MarkdownBlocks
  import opened InlinePatterns

  // ---- Block quotes and HTML ----

  lemma {:induction false} Indentation(value: string, i: nat)
    requires i < LeadingSpaces(value)
    ensures value[i] == ' '
  {
    if i > 0 {
      Indentation(value[1..], i - 1);
    }
  }

  // No match reaches into the indentation.
  lemma NoneInIndentation(value: string, i: int)
    requires i in Inline(value)
    ensures i >= LeadingSpaces(value)
  {
    hide Inline, LeadingSpaces;
    InlineHolds(value, i);
    if i < LeadingSpaces(value) {
      Indentation(value, i);
    }
  }

  // The literal form opens a block quote exactly when the text does and no blank
  // stands behind the mark.
  lemma LiteralQuotes(value: string)
    ensures OpensQuote(Literal(value)) <==> OpensQuote(value) && !IsQuote(Block(value))
  {
    hide Inline, LeadingSpaces, IsQuote, BlockPositions, EscapeFrom;
    QuotesRemain(value, Inline(value));
    var lead := LeadingSpaces(value);
    if ">" <= Block(value) {
      assert value[lead] == '>' && value[lead..lead + 1] == ">";
      forall i | i in Inline(value) ensures i > lead {
        NoneInIndentation(value, i);
        InlineHolds(value, i);
        if i == lead {
          var s :| 0 <= s < i && s in Inline(value) && value[s] == '<';
          Indentation(value, s);
        }
      }
    }
  }

  // It is indented code exactly when the text is.
  lemma LiteralIndentedCode(value: string)
    ensures OpensIndentedCode(Literal(value)) <==> OpensIndentedCode(value)
  {
    hide Inline, OpensIndentedCode;
    InlineIsPunctuation(value);
    IndentedCodeRemains(value, Inline(value));
  }

  // Behind its bullet it is a thematic break exactly when the text is two dashes.
  lemma LiteralBreaks(value: string)
    ensures IsThematicBreak("- " + Literal(value)) <==> TwoDashes(Block(value))
  {
    hide Inline, IsThematicBreak;
    CriterionBreaks(value, Inline(value));
    if TwoDashes(Block(value)) {
      CountBehindLead(value);
      TwoDashesAre(Block(value));
      LeadingAreSpaces(value);
      forall i | i in Inline(value) ensures !(0 <= i < |value|) {
        InlineHolds(value, i);
      }
    }
  }

  lemma {:induction false} HtmlAtLead(value: string, from: nat)
    requires from <= LeadingSpaces(value) < |value|
    ensures LeadingSpaces(value) in Html(value, from) <==> HtmlAt(value, LeadingSpaces(value)).Some?
    decreases |value| - from
  {
    hide LeadingSpaces;
    var lead := LeadingSpaces(value);
    if from < lead {
      Indentation(value, from);
      HtmlAtLead(value, from + 1);
    } else if lead in Html(value, lead + 1) {
      hide HtmlAt;
      HtmlHolds(value, lead + 1, lead);
    }
  }

  // The opening bracket is escaped exactly when a pattern matches there.
  lemma AngleAtLead(value: string)
    requires LeadingSpaces(value) < |value| && value[LeadingSpaces(value)] == '<'
    ensures LeadingSpaces(value) in Inline(value) <==> HtmlAt(value, LeadingSpaces(value)).Some?
  {
    hide LeadingSpaces, HtmlAt, Links, Html, Delimiters;
    var lead := LeadingSpaces(value);
    HtmlAtLead(value, 0);
    if lead in Inline(value) && lead !in Html(value, 0) {
      if lead in Links(value, 0, '(', ')') {
        LinksHold(value, 0, '(', ')', lead);
      } else if lead in Links(value, 0, '[', ']') {
        LinksHold(value, 0, '[', ']', lead);
      } else {
        DelimitersHold(value, 0, lead);
      }
    }
  }

  // A bracket that is escaped for a link, and no closing one before it, starts one.
  lemma {:induction false} LinksStart(value: string, from: nat, open: char, close: char, i: int)
    requires from <= |value| && IsOpening(open, close) && i in Links(value, from, open, close)
    ensures 0 <= i < |value|
    ensures value[i] == '!' ==> LinkAt(value, i, open, close).Some?
    ensures value[i] == '[' && (i > 0 ==> value[i - 1] != ']') ==> BracketsAt(value, i, open, close).Some?
    decreases |value| - from
  {
    hide LinkPositions, BracketsAt, SkipTo;
    match LinkAt(value, from, open, close)
    case None => LinksStart(value, from + 1, open, close, i);
    case Some(end) =>
      if i in LinkPositions(value, from, end) {
        LinkStarts(value, from, open, close, i);
      } else {
        LinksStart(value, end, open, close, i);
      }
  }

  lemma LinkStarts(value: string, from: nat, open: char, close: char, i: int)
    requires from < |value| && IsOpening(open, close) && LinkAt(value, from, open, close).Some?
    requires i in LinkPositions(value, from, LinkAt(value, from, open, close).value)
    ensures 0 <= i < |value|
    ensures value[i] == '!' ==> LinkAt(value, i, open, close).Some?
    ensures value[i] == '[' && (i > 0 ==> value[i - 1] != ']') ==> BracketsAt(value, i, open, close).Some?
  {
    MatchOfLink(value, from, open, close);
    hide BracketsAt, SkipTo;
  }

  lemma NoLinkAt(value: string, i: nat, open: char, close: char)
    requires i < |value| && value[i] != '[' && value[i] != '!'
    ensures LinkAt(value, i, open, close).None?
  {
  }

  // An exclamation mark in front of a link is escaped, where no match reaches it.
  lemma {:induction false} ImageIsEscaped(value: string, from: nat, i: nat, open: char, close: char)
    requires from <= i < |value| && LinkAt(value, i, open, close).Some?
    requires forall k :: from <= k < i ==> value[k] != '[' && value[k] != '!'
    ensures i in Links(value, from, open, close)
    decreases i - from
  {
    hide LinkAt;
    if from < i {
      NoLinkAt(value, from, open, close);
      ImageIsEscaped(value, from + 1, i, open, close);
    }
  }

  // Whether a pattern for HTML matches at `i`, or one for images right behind.
  predicate MatchesAt(value: string, i: nat)
    requires i < |value|
  {
    || HtmlAt(value, i).Some?
    || (i + 1 < |value| && (LinkAt(value, i + 1, '(', ')').Some? || LinkAt(value, i + 1, '[', ']').Some?))
  }

  // The literal form opens an HTML block exactly when the text starts with the
  // beginning of one and no pattern for HTML, or for images right behind, matches there.
  lemma LiteralHtmlBlocks(value: string)
    ensures OpensHtml(Literal(value)) <==>
              OpensHtml(value) && !(LeadingSpaces(value) < |value| && MatchesAt(value, LeadingSpaces(value)))
  {
    hide Inline, LeadingSpaces, MatchesAt, BlockPositions, EscapeFrom, HtmlOpener;
    HtmlBlocksRemain(value, Inline(value));
    var lead, b := LeadingSpaces(value), Block(value);
    var n := HtmlOpener(b);
    if n > 0 {
      OpenerIsPlain(b);
      assert value[lead..lead + n] == b[..n];
      if MatchesAt(value, lead) {
        MatchIsReached(value);
      } else {
        forall i | i in Inline(value) ensures !(0 <= i < lead + n) {
          NoneInOpener(value, n, i);
        }
      }
    }
  }

  lemma MatchIsReached(value: string)
    requires HtmlOpener(Block(value)) > 0 && MatchesAt(value, LeadingSpaces(value))
    ensures exists i :: i in Inline(value) && 0 <= i < LeadingSpaces(value) + HtmlOpener(Block(value))
  {
    hide LeadingSpaces, HtmlAt, Links, Html, Delimiters, LinkAt, HtmlOpener;
    var lead := LeadingSpaces(value);
    OpenerIsPlain(Block(value));
    if HtmlAt(value, lead).Some? {
      AngleAtLead(value);
    } else {
      LeadingAreSpaces(value);
      if LinkAt(value, lead + 1, '(', ')').Some? {
        ImageIsEscaped(value, 0, lead + 1, '(', ')');
      } else {
        ImageIsEscaped(value, 0, lead + 1, '[', ']');
      }
      assert lead + 1 in Inline(value);
    }
  }

  // What an inline match could escape in the beginning of an HTML block.
  lemma InsideOpener(b: string, i: nat)
    requires 0 < i < HtmlOpener(b)
    ensures b[i] in "![]()<>*_~" ==> b[i] == '>' || (b[i] == '!' && i == 1) || (b[i] == '[' && "<![CDATA[" <= b)
    ensures b[i] != '<' && ("<![CDATA[" <= b ==> HtmlOpener(b) == 9)
  {
    Marks(b);
    if TagOpener(b) > 0 {
      InsideTag(b, i);
    }
  }

  lemma NoneInOpener(value: string, n: nat, i: int)
    requires i in Inline(value) && n == HtmlOpener(Block(value)) > 0 && !MatchesAt(value, LeadingSpaces(value))
    ensures i >= LeadingSpaces(value) + n
  {
    hide Inline, LeadingSpaces, HtmlOpener, MatchesAt;
    var lead, b := LeadingSpaces(value), Block(value);
    OpenerIsPlain(b);
    NoneInIndentation(value, i);
    InlineHolds(value, i);
    LeadIsKept(value);
    if lead < i < lead + n {
      InsideOpener(b, i - lead);
      assert b[i - lead] == value[i];
      if value[i] == '>' {
        var s :| 0 <= s < i && s in Inline(value) && value[s] == '<';
        NoneInIndentation(value, s);
        InsideOpener(b, s - lead);
      } else {
        ImageIsNeeded(value, i);
      }
    }
  }

  lemma LeadIsKept(value: string)
    requires LeadingSpaces(value) < |value| && value[LeadingSpaces(value)] == '<'
    requires !MatchesAt(value, LeadingSpaces(value))
    ensures LeadingSpaces(value) !in Inline(value)
  {
    hide LeadingSpaces, Inline, HtmlAt;
    AngleAtLead(value);
  }

  // The mark and the brackets of <![CDATA[ are escaped only for an image at the mark.
  lemma ImageIsNeeded(value: string, i: int)
    requires i in Inline(value)
    requires LeadingSpaces(value) < i < LeadingSpaces(value) + HtmlOpener(Block(value)) && value[i] in "!["
    ensures MatchesAt(value, LeadingSpaces(value))
  {
    hide LeadingSpaces, HtmlAt, Links, Html, Delimiters, LinkAt, HtmlOpener, MatchesAt;
    var lead, b := LeadingSpaces(value), Block(value);
    InsideOpener(b, i - lead);
    assert b[i - lead] == value[i];
    if i in Links(value, 0, '(', ')') {
      OnlyAnImage(value, lead, i, '(', ')');
    } else if i in Links(value, 0, '[', ']') {
      OnlyAnImage(value, lead, i, '[', ']');
    } else if i in Html(value, 0) {
      HtmlHolds(value, 0, i);
    } else {
      DelimitersHold(value, 0, i);
    }
    ImageMatches(value, lead);
  }

  lemma ImageMatches(value: string, lead: nat)
    requires lead + 1 < |value|
    requires LinkAt(value, lead + 1, '(', ')').Some? || LinkAt(value, lead + 1, '[', ']').Some?
    ensures MatchesAt(value, lead)
  {
    hide LinkAt, HtmlAt;
  }

  lemma OnlyAnImage(value: string, lead: nat, i: int, open: char, close: char)
    requires IsOpening(open, close) && i in Links(value, 0, open, close) && lead < i < |value|
    requires value[i] == '!' ==> i == lead + 1
    requires value[i] == '[' ==> "<![CDATA[" <= value[lead..] && i < lead + 9
    requires value[i] == '!' || value[i] == '['
    ensures lead + 1 < |value| && LinkAt(value, lead + 1, open, close).Some?
  {
    hide LinkAt, BracketsAt, Links, SkipTo;
    LinksStart(value, 0, open, close, i);
    if value[i] == '[' {
      MarkOfCdata(value, lead);
      assert i == lead + 2 || i == lead + 8;
      if i == lead + 8 {
        SameStopBefore(value, lead + 2, lead + 8);
        SameBrackets(value, lead + 2, lead + 8, open, close);
      }
      ImageOfBrackets(value, lead + 1, open, close);
    }
  }

  lemma MarkOfCdata(value: string, lead: nat)
    requires lead <= |value| && "<![CDATA[" <= value[lead..]
    ensures lead + 9 <= |value| && value[lead] == '<' && value[lead + 1] == '!'
    ensures forall k :: lead <= k < lead + 9 ==> value[k] !in "]\n"
    ensures forall k :: lead <= k < lead + 9 ==> (value[k] == '[' <==> k == lead + 2 || k == lead + 8)
  {
    var b := value[lead..];
    assert b[..9] == "<![CDATA[";
    assert forall k :: lead <= k < lead + 9 ==> value[k] == b[..9][k - lead];
  }

  lemma ImageOfBrackets(value: string, i: nat, open: char, close: char)
    requires i < |value| && value[i] == '!' && BracketsAt(value, i + 1, open, close).Some?
    ensures LinkAt(value, i, open, close).Some?
  {
    hide BracketsAt;
  }

  lemma {:induction false} SameStopBefore(value: string, o: nat, start: nat)
    requires o <= start < |value| && forall k :: o < k <= start ==> value[k] !in "]\n"
    ensures SkipTo(value, o + 1, "]\n") == SkipTo(value, start + 1, "]\n")
    decreases start - o
  {
    if o < start {
      SameStopBefore(value, o + 1, start);
    }
  }

  // The beginning of an opening or closing tag, with the end of one further on, as an
  // HTML block of the seventh kind needs it.
  predicate HasTag(b: string) {
    && "<" <= b && '>' in b
    && var letter := if "</" <= b then 2 else 1; letter < |b| && IsLetter(b[letter])
  }

  lemma TagIsMatched(value: string, i: nat)
    requires i <= |value| && HasTag(value[i..]) && '\n' !in value
    ensures HtmlAt(value, i).Some?
  {
    hide CommentAt, UrlEnd, AddressEnd;
    var b := value[i..];
    assert b[0] == b[..1][0] == '<' && value[i] == b[0];
    var letter := if "</" <= b then 2 else 1;
    assert b[1] == value[i + 1];
    if b[1] == '/' {
      assert b[..2] == "</";
    }
    assert letter == 2 ==> b[1] == b[..2][1] == '/';
    assert value[i + letter] == b[letter];
    var k: nat :| k < |b| && b[k] == '>';
    assert value[i + k] == '>' && k > letter;
    var stop := SkipTo(value, i + letter + 1, ">\n");
    hide SkipTo;
    assert stop <= i + k && value[stop] != '\n';
  }

  // The literal form of a text of one line with such a tag does not start with an
  // angle bracket, so it opens no HTML block of the seventh kind either.
  lemma LiteralHasNoTag(value: string)
    requires '\n' !in value && HasTag(Block(value))
    ensures !("<" <= Block(Literal(value)))
  {
    hide Inline, LeadingSpaces, HtmlAt, BlockPositions, EscapeFrom;
    var lead, b := LeadingSpaces(value), Block(value);
    TagIsMatched(value, lead);
    assert b[0] == b[..1][0] == '<' && value[lead] == b[0];
    AngleAtLead(value);
    NoRuleFor(value);
    PrefixOfEscape(value, Inline(value), "<");
  }

  // ---- Fences of tildes ----

  // A second delimiter further on is one for an earlier beginning, too.
  lemma ClosesEarlier(value: string, j: nat, c: char, length: nat)
    requires 0 < j < |value| && value[j - 1] != '\n' && ClosingAt(value, j + 1, c, length).Some?
    ensures ClosingAt(value, j, c, length).Some?
  {
  }

  // Some delimiter of these lengths at `i` is closed again.
  predicate Closes(value: string, i: nat, length: nat) {
    && i + length < |value| && !IsSpace(value[i + length])
    && ClosingAt(value, i + length + 1, value[i], length).Some?
  }

  lemma {:induction false} EmphasisIsFound(value: string, i: nat, length: nat, least: nat)
    requires i < |value| && 0 < least && length <= RunAt(value, i, value[i])
    ensures EmphasisOf(value, i, length, least).Emphasis? <==>
              exists l: nat :: least <= l <= length && Closes(value, i, l)
    decreases length
  {
    if length >= least && !Closes(value, i, length) {
      EmphasisIsFound(value, i, length - 1, least);
    }
  }

  lemma ClosesForFirst(value: string, i: nat, l: nat)
    requires i + 1 < |value| && value[i] == '~' == value[i + 1] && l > 0 && Closes(value, i + 1, l)
    requires value[i + l] == '~'
    ensures Closes(value, i, l)
  {
    hide ClosingAt;
    ClosesEarlier(value, i + l + 1, '~', l);
  }

  lemma EmphasisOfTildes(value: string, i: nat)
    requires i < |value| && value[i] == '~' && (i > 0 ==> value[i - 1] != '\\')
    ensures EmphasisAt(value, i).Emphasis? <==> exists l: nat :: 2 <= l <= RunAt(value, i, '~') && Closes(value, i, l)
  {
    hide EmphasisOf, RunAt, Closes;
    EmphasisIsFound(value, i, RunAt(value, i, '~'), 2);
  }

  // What the tildes behind the first could begin, the first could.
  lemma EarlierTildes(value: string, i: nat)
    requires i + 1 < |value| && value[i] == '~' == value[i + 1] && EmphasisAt(value, i + 1).Emphasis?
    requires i > 0 ==> value[i - 1] != '\\'
    ensures EmphasisAt(value, i).Emphasis?
  {
    hide EmphasisAt, Closes;
    assert RunAt(value, i, '~') == RunAt(value, i + 1, '~') + 1;
    EmphasisOfTildes(value, i);
    EmphasisOfTildes(value, i + 1);
    hide RunAt;
    var l: nat :| 2 <= l <= RunAt(value, i + 1, '~') && Closes(value, i + 1, l);
    assert value[i + l] == '~';
    ClosesForFirst(value, i, l);
  }

  lemma {:induction false} DelimitersAtLead(value: string, from: nat)
    requires from <= LeadingSpaces(value) < |value|
    ensures var lead := LeadingSpaces(value);
            if EmphasisAt(value, lead).Emphasis? then lead in Delimiters(value, from)
            else Delimiters(value, from) == Delimiters(value, lead + 1)
    decreases |value| - from
  {
    hide LeadingSpaces, EmphasisAt;
    var lead := LeadingSpaces(value);
    if from < lead {
      Indentation(value, from);
      NoEmphasisOfSpaces(value, from);
      DelimitersAtLead(value, from + 1);
    }
  }

  lemma NoEmphasisOfSpaces(value: string, i: nat)
    requires i < |value| && value[i] !in "*_~"
    ensures EmphasisAt(value, i).NoEmphasis?
  {
  }

  // The literal form opens a fenced code block exactly when the text starts with
  // three tildes and its run of tildes is not a delimiter that is closed again.
  lemma LiteralFences(value: string)
    ensures OpensFence(Literal(value)) <==>
              LeadingSpaces(value) < 4 && "~~~" <= Block(value)
              && EmphasisAt(value, LeadingSpaces(value)).NoEmphasis?
  {
    hide Inline, LeadingSpaces, EmphasisAt, BlockPositions, EscapeFrom;
    FencesOfTildesRemain(value, Inline(value));
    var lead, b := LeadingSpaces(value), Block(value);
    BareIsPrefix(value, "~~~", Inline(value));
    if "~~~" <= b {
      assert b[..3] == "~~~" == value[lead..lead + 3];
      assert value[lead] == b[..3][0] && value[lead + 1] == b[..3][1] && value[lead + 2] == b[..3][2];
      DelimitersAtLead(value, 0);
      if EmphasisAt(value, lead).Emphasis? {
        DelimitersAreInline(value, lead);
      } else {
        forall i | i in Inline(value) ensures !(0 <= i < lead + 3) {
          NoneInTildes(value, i);
        }
      }
    }
  }

  lemma BareIsPrefix(value: string, p: string, positions: set<int>)
    ensures Bare(value, 0, LeadingSpaces(value), p, positions) ==> p <= Block(value)
  {
    if Bare(value, 0, LeadingSpaces(value), p, positions) {
      assert Block(value)[..|p|] == value[LeadingSpaces(value)..LeadingSpaces(value) + |p|];
    }
  }

  lemma DelimitersAreInline(value: string, i: int)
    requires i in Delimiters(value, 0)
    ensures i in Inline(value)
  {
    hide Links, Html, Delimiters;
  }

  predicate TildesAt(value: string, i: nat) {
    i + 3 <= |value| && value[i] == value[i + 1] == value[i + 2] == '~'
  }

  lemma NoneInTildes(value: string, i: int)
    requires i in Inline(value) && TildesAt(value, LeadingSpaces(value))
    requires EmphasisAt(value, LeadingSpaces(value)).NoEmphasis?
    ensures i >= LeadingSpaces(value) + 3
  {
    hide LeadingSpaces, EmphasisAt, Links, Html, Delimiters;
    var lead := LeadingSpaces(value);
    NoneInIndentation(value, i);
    if i < lead + 3 {
      assert i == lead || i == lead + 1 || i == lead + 2;
      if i in Links(value, 0, '(', ')') {
        LinksHold(value, 0, '(', ')', i);
      } else if i in Links(value, 0, '[', ']') {
        LinksHold(value, 0, '[', ']', i);
      } else if i in Html(value, 0) {
        HtmlHolds(value, 0, i);
      } else {
        DelimitersBehind(value);
        DelimitersHold(value, lead + 3, i);
      }
      assert false;
    }
  }

  lemma DelimitersBehind(value: string)
    requires TildesAt(value, LeadingSpaces(value))
    requires EmphasisAt(value, LeadingSpaces(value)).NoEmphasis?
    ensures Delimiters(value, 0) == Delimiters(value, LeadingSpaces(value) + 3)
  {
    hide LeadingSpaces, EmphasisAt;
    var lead := LeadingSpaces(value);
    DelimitersAtLead(value, 0);
    if lead > 0 {
      Indentation(value, lead - 1);
    }
    if EmphasisAt(value, lead + 1).Emphasis? {
      EarlierTildes(value, lead);
    }
    if EmphasisAt(value, lead + 2).Emphasis? {
      EarlierTildes(value, lead + 1);
    }
  }

  // ---- Texts that stay as they are and are read otherwise ----

  // A text no pattern matches in and no rule for lines looks for stays as it is.
  lemma {:induction false} Untouched(value: string, from: nat)
    requires from <= |value| && Plain(value)
    ensures EscapeFrom(value, from, {}) == value[from..]
    decreases |value| - from
  {
    if from < |value| {
      EscapeUnfolds(value, from, {});
      Untouched(value, from + 1);
    }
  }

  lemma StaysAsItIs(value: string)
    requires Plain(value) && BlockPositions(value) == {} && Inline(value) == {}
    ensures Literal(value) == value
  {
    hide Inline, BlockPositions, EscapeFrom;
    assert BlockPositions(value) + Inline(value) == {};
    Untouched(value, 0);
    assert value[0..] == value;
  }

  lemma StartsAtOnce(value: string)
    requires value != [] && value[0] != ' '
    ensures LeadingSpaces(value) == 0 && Block(value) == value
  {
    assert value[0..] == value;
  }

  // Without a character of theirs, no pattern matches; nor with one that does not match.
  lemma NothingMatches(value: string, except: set<int>)
    requires forall i :: 0 <= i < |value| && i !in except ==> value[i] !in "![]()<>*_~"
    requires forall i :: i in except ==> i !in Inline(value)
    ensures Inline(value) == {}
  {
    hide Inline;
    forall i | i in Inline(value) ensures false {
      InlineHolds(value, i);
    }
  }

  // A mark without a blank opens a block quote.
  lemma MarkOpensAQuote()
    ensures Literal(">x") == ">x" && OpensQuote(Literal(">x"))
  {
    hide Inline, BlockPositions, EscapeFrom, Literal, LeadingSpaces;
    var value := ">x";
    if 0 in Inline(value) {
      InlineHolds(value, 0);
      assert false;
    }
    NothingMatches(value, {0});
    StartsAtOnce(value);
    NoRuleFor(value);
    StaysAsItIs(value);
  }

  // A comment that is not closed opens an HTML block, which the rest of the body
  // belongs to.
  lemma CommentOpensAnHtmlBlock()
    ensures Literal("<!-- x") == "<!-- x" && OpensHtml(Literal("<!-- x"))
  {
    hide Inline, BlockPositions, EscapeFrom, Literal, LeadingSpaces, HtmlAt, TagOpener;
    var value := "<!-- x";
    StartsAtOnce(value);
    AngleAtLead(value);
    NoComment(value);
    if 1 in Inline(value) {
      InlineHolds(value, 1);
      assert false;
    }
    NothingMatches(value, {0, 1});
    NoRuleFor(value);
    StaysAsItIs(value);
  }

  lemma NoComment(value: string)
    requires value == "<!-- x"
    ensures HtmlAt(value, 0).None?
  {
    assert CommentEnd(value, 4).None?;
    assert value[1..][0] == '!';
    assert UrlEnd(value, 0).None?;
    assert SkipTo(value, 3, " <>@\n") == 4;
    assert SkipTo(value, 1, " <>@\n") == SkipTo(value, 2, " <>@\n") == 4;
    assert AddressEnd(value, 0).None?;
  }

  // Three tildes open a fenced code block, which the rest of the body belongs to.
  lemma TildesOpenAFence()
    ensures Literal("~~~ x") == "~~~ x" && OpensFence(Literal("~~~ x"))
  {
    hide Inline, BlockPositions, EscapeFrom, Literal, LeadingSpaces, EmphasisAt;
    var value := "~~~ x";
    StartsAtOnce(value);
    NoEmphasisInTildes(value);
    forall i | i in {0, 1, 2} ensures i !in Inline(value) {
      NoneInTildesAt(value, i);
    }
    NothingMatches(value, {0, 1, 2});
    NoRuleFor(value);
    StaysAsItIs(value);
    assert value[..3] == "~~~";
  }

  lemma NoneInTildesAt(value: string, i: int)
    requires value == "~~~ x" && i in {0, 1, 2} && EmphasisAt(value, 0).NoEmphasis?
    ensures i !in Inline(value)
  {
    hide EmphasisAt, Inline;
    StartsAtOnce(value);
    if i in Inline(value) {
      NoneInTildes(value, i);
      assert false;
    }
  }

  lemma NoEmphasisInTildes(value: string)
    requires value == "~~~ x"
    ensures EmphasisAt(value, 0).NoEmphasis?
  {
    assert RunAt(value, 3, '~') == RunAt(value, 4, '~') == RunAt(value, 5, '~') == 0;
    assert RunAt(value, 0, '~') == 1 + RunAt(value, 1, '~') == 2 + RunAt(value, 2, '~') == 3;
    assert ClosingAt(value, 5, '~', 2).None?;
    assert ClosingAt(value, 4, '~', 2).None?;
    assert ClosingAt(value, 3, '~', 2).None?;
    assert EmphasisOf(value, 0, 1, 2).NoEmphasis?;
    assert EmphasisOf(value, 0, 2, 2).NoEmphasis?;
    assert EmphasisOf(value, 0, 3, 2).NoEmphasis?;
  }

  // Four spaces make code of a text.
  lemma SpacesMakeCode()
    ensures Literal("    x") == "    x" && OpensIndentedCode(Literal("    x"))
  {
    hide Inline, EscapeFrom, Literal;
    var value := "    x";
    NothingMatches(value, {});
    assert value[1..] == "   x" && value[1..][1..] == "  x" && value[1..][1..][1..] == " x";
    assert LeadingSpaces("  x") == 2;
    assert LeadingSpaces(value) == 4;
    NoRuleForLetter(value);
    StaysAsItIs(value);
  }

  lemma NoRuleForLetter(value: string)
    requires Block(value) != [] && IsLetter(Block(value)[0])
    ensures BlockPositions(value) == {}
  {
    assert value[LeadingSpaces(value)..][0] == Block(value)[0];
  }

  // A criterion of two dashes becomes a thematic break instead of an item.
  lemma DashesBreakTheList()
    ensures Literal("--") == "--" && IsThematicBreak("- " + Literal("--"))
  {
    hide Inline, BlockPositions, EscapeFrom, LeadingSpaces, IsThematicBreak;
    var value := "--";
    NothingMatches(value, {});
    StartsAtOnce(value);
    LiteralBreaks(value);
    DashesHaveNoRule(value);
    StaysAsItIs(value);
  }

  // ---- Inline links ----

  // Where `depth` open brackets are closed, from `k` on: those in the text of a link may
  // be nested (section 6.3).
  function TextEnd(s: string, k: nat, depth: nat): (end: nat)
    requires k <= |s|
    ensures k <= end <= |s|
    decreases |s| - k
  {
    if k == |s| || (s[k] == ']' && depth <= 1) then k
    else if s[k] == '\\' && k + 1 < |s| then TextEnd(s, k + 2, depth)
    else TextEnd(s, k + 1, if s[k] == '[' then depth + 1 else if s[k] == ']' then depth - 1 else depth)
  }

  function WordEnd(s: string, k: nat): (end: nat)
    requires k <= |s|
    ensures k <= end <= |s|
    decreases |s| - k
  {
    if k == |s| || !InName(s[k]) then k else WordEnd(s, k + 1)
  }

  // A link to one word, at the start.
  predicate OpensLink(s: string) {
    && s != [] && s[0] == '['
    && var k := TextEnd(s, 1, 1);
       && k + 1 < |s| && s[k] == ']' && s[k + 1] == '('
       && var end := WordEnd(s, k + 2); k + 2 < end < |s| && s[end] == ')'
  }

  // A link with brackets in its text stays a link.
  lemma NestedBracketsStayALink()
    ensures Literal("[a [b] c](d)") == "[a [b] c](d)" && OpensLink(Literal("[a [b] c](d)"))
  {
    var value := "[a [b] c](d)";
    NestedIsUntouched(value);
    NestedIsALink(value);
  }

  lemma NestedIsALink(value: string)
    requires value == "[a [b] c](d)"
    ensures OpensLink(value)
  {
    assert TextEnd(value, 6, 1) == TextEnd(value, 7, 1) == TextEnd(value, 8, 1) == 8;
    assert TextEnd(value, 4, 2) == TextEnd(value, 5, 2) == 8;
    assert TextEnd(value, 1, 1) == TextEnd(value, 2, 1) == TextEnd(value, 3, 1) == 8;
    assert WordEnd(value, 10) == WordEnd(value, 11) == 11;
  }

  lemma {:induction false} NoLinks(value: string, from: nat, open: char, close: char)
    requires from <= |value| && forall i :: from <= i < |value| ==> LinkAt(value, i, open, close).None?
    ensures Links(value, from, open, close) == {}
    decreases |value| - from
  {
    hide LinkAt;
    if from < |value| {
      NoLinks(value, from + 1, open, close);
    }
  }

  lemma NestedHasNoLink(value: string, i: nat, open: char, close: char)
    requires value == "[a [b] c](d)" && IsOpening(open, close) && i < |value|
    ensures LinkAt(value, i, open, close).None?
  {
    if value[i] == '[' {
      assert SkipTo(value, 4, "]\n") == 5;
      assert SkipTo(value, 3, "]\n") == 5;
      assert SkipTo(value, 2, "]\n") == 5;
      assert SkipTo(value, 1, "]\n") == 5;
      assert i == 0 || i == 3;
    }
  }

  lemma NestedIsUntouched(value: string)
    requires value == "[a [b] c](d)"
    ensures Literal(value) == value
  {
    hide Links, Html, Delimiters, LinkAt, BlockPositions, EscapeFrom, Literal;
    forall i | 0 <= i < |value| ensures LinkAt(value, i, '(', ')').None? && LinkAt(value, i, '[', ']').None? {
      NestedHasNoLink(value, i, '(', ')');
      NestedHasNoLink(value, i, '[', ']');
    }
    NoLinks(value, 0, '(', ')');
    NoLinks(value, 0, '[', ']');
    forall i | i in Inline(value) ensures false {
      if i in Html(value, 0) {
        HtmlHolds(value, 0, i);
      } else {
        DelimitersHold(value, 0, i);
      }
    }
    assert Inline(value) == {};
    hide Inline;
    StartsAtOnce(value);
    NestedHasNoRule(value);
    StaysAsItIs(value);
  }

  lemma NestedHasNoRule(value: string)
    requires value == "[a [b] c](d)"
    ensures BlockPositions(value) == {}
  {
    StartsAtOnce(value);
    FirstCloseIs(value, 5);
    hide CloseOf;
    assert !IsTask(value) && !IsDefinition(value);
    BracketRules(value);
  }

  lemma BracketRules(value: string)
    requires value != [] && value[0] == '[' && !IsTask(value) && !IsDefinition(value)
    ensures BlockPositions(value) == {}
  {
    StartsAtOnce(value);
    BracketStartsNoRule(value);
    hide IsTask, IsDefinition, IsHeading, IsQuote, IsBullet, IsThematicBreak, IsOrdered;
  }

  lemma BracketStartsNoRule(b: string)
    requires b != [] && b[0] == '['
    ensures !IsHeading(b) && !IsQuote(b) && !IsBullet(b) && !IsThematicBreak(b) && !IsOrdered(b)
  {
  }

  lemma FirstCloseIs(value: string, k: nat)
    requires k < |value| && value[k] == ']' && forall i :: 0 <= i < k ==> value[i] != ']'
    ensures CloseOf(value) == k
  {
    FirstClose(value, k);
    FirstCloseIsFirst(value);
  }
}
