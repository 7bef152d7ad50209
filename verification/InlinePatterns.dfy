/**
  Where the patterns for links, HTML and emphasis match in a text of one line
  (src/agent_container/family_issue.py:28-33, 120-137), and what that makes of the
  escaping.  A search goes from the left and goes on behind each match.
 */
module InlinePatterns {
  import opened Wrappers
  import opened MarkdownLiteral
  import opened MarkdownBlocks

  // What `\s` matches.
  predicate IsSpace(c: char) {
    var n := c as int;
    || 0x09 <= n <= 0x0D || 0x1C <= n <= 0x20 || n == 0x85 || n == 0xA0 || n == 0x1680 || 0x2000 <= n <= 0x200A
    || n == 0x2028 || n == 0x2029 || n == 0x202F || n == 0x205F || n == 0x3000
  }

  // The first position from `from` on that holds one of `stops`, or the end.
  function SkipTo(value: string, from: nat, stops: string): (k: nat)
    requires from <= |value|
    ensures from <= k <= |value| && (k < |value| ==> value[k] in stops)
    ensures forall i :: from <= i < k ==> value[i] !in stops
    decreases |value| - from
  {
    if from == |value| || value[from] in stops then from else SkipTo(value, from + 1, stops)
  }

  // At least one character other than `stops`, and then `last`: the position of that.
  function Body(value: string, from: nat, stops: string, last: char): Option<nat>
    requires from <= |value|
  {
    var k := SkipTo(value, from, stops);
    if from < k < |value| && value[k] == last then Some(k) else None
  }

  // ---- Links ----

  // \[[^\]\n]+\] and then \([^)\n]*\) or \[[^\]\n]*\], as the brackets given say: the
  // end of the match.
  function BracketsAt(value: string, i: nat, open: char, close: char): (r: Option<nat>)
    requires i <= |value|
    ensures r.Some? ==> i < r.value <= |value|
  {
    if i < |value| && value[i] == '[' then
      var c := Body(value, i + 1, "]\n", ']');
      if c.Some? && c.value + 1 < |value| && value[c.value + 1] == open then
        var e := SkipTo(value, c.value + 2, [close, '\n']);
        if e < |value| && value[e] == close then Some(e + 1) else None
      else None
    else None
  }

  // With the !? in front.
  function LinkAt(value: string, i: nat, open: char, close: char): (r: Option<nat>)
    requires i < |value|
    ensures r.Some? ==> i < r.value <= |value|
  {
    BracketsAt(value, if value[i] == '!' then i + 1 else i, open, close)
  }

  // The positions escaped for a link that starts at `i`.
  function LinkPositions(value: string, i: nat, end: nat): set<int>
    requires i < |value|
  {
    var start := if value[i] == '!' then i + 1 else i;
    var firstClose := if start <= |value| then SkipTo(value, start, "]") else start;
    {i, start, firstClose, firstClose + 1, end - 1}
  }

  function Links(value: string, from: nat, open: char, close: char): set<int>
    requires from <= |value|
    decreases |value| - from
  {
    if from == |value| then {}
    else
      match LinkAt(value, from, open, close)
      case None => Links(value, from + 1, open, close)
      case Some(end) => LinkPositions(value, from, end) + Links(value, end, open, close)
  }

  // ---- HTML and autolinks ----

  // The end of the last --> from `from` on.
  function CommentEnd(value: string, from: nat): (r: Option<nat>)
    requires from <= |value|
    ensures r.Some? ==> from + 3 <= r.value <= |value|
    decreases |value| - from
  {
    if |value| < from + 3 || value[from] == '\n' then None
    else
      var later := CommentEnd(value, from + 1);
      if later.Some? then later
      else if "-->" <= value[from..] then Some(from + 3)
      else None
  }

  // [^ <>\n]+> behind a scheme.
  function SchemeEnd(value: string, i: nat, scheme: string): (r: Option<nat>)
    requires i < |value|
    ensures r.Some? ==> i + 1 < r.value <= |value|
  {
    if scheme <= value[i + 1..] then
      var k := Body(value, i + 1 + |scheme|, " <>\n", '>');
      if k.Some? then Some(k.value + 1) else None
    else None
  }

  // [^ <>@\n]+@[^ <>@\n]+>
  function AddressEnd(value: string, i: nat): (r: Option<nat>)
    requires i < |value|
    ensures r.Some? ==> i + 1 < r.value <= |value|
  {
    var at := Body(value, i + 1, " <>@\n", '@');
    if at.Some? then
      var k := Body(value, at.value + 1, " <>@\n", '>');
      if k.Some? then Some(k.value + 1) else None
    else None
  }

  // /?[A-Za-z][^>\n]*>
  function TagEnd(value: string, i: nat): (r: Option<nat>)
    requires i < |value|
    ensures r.Some? ==> i + 1 < r.value <= |value|
  {
    var letter := if i + 1 < |value| && value[i + 1] == '/' then i + 2 else i + 1;
    if letter < |value| && IsLetter(value[letter]) then
      var k := SkipTo(value, letter + 1, ">\n");
      if k < |value| && value[k] == '>' then Some(k + 1) else None
    else None
  }

  // <!--[^\n]*-->
  function CommentAt(value: string, i: nat): (r: Option<nat>)
    requires i < |value|
    ensures r.Some? ==> i + 1 < r.value <= |value|
  {
    if "<!--" <= value[i..] then CommentEnd(value, i + 4) else None
  }

  function UrlEnd(value: string, i: nat): (r: Option<nat>)
    requires i < |value|
    ensures r.Some? ==> i + 1 < r.value <= |value|
  {
    var secure, plain := SchemeEnd(value, i, "https:"), SchemeEnd(value, i, "http:");
    if secure.Some? then secure else if plain.Some? then plain else SchemeEnd(value, i, "mailto:")
  }

  // The first of these that matches.
  function HtmlAt(value: string, i: nat): (r: Option<nat>)
    requires i < |value|
    ensures r.Some? ==> i + 1 < r.value <= |value|
  {
    if value[i] != '<' then None
    else
      var comment, url, address := CommentAt(value, i), UrlEnd(value, i), AddressEnd(value, i);
      if comment.Some? then comment else if url.Some? then url else if address.Some? then address else TagEnd(value, i)
  }

  function Html(value: string, from: nat): set<int>
    requires from <= |value|
    decreases |value| - from
  {
    if from == |value| then {}
    else
      match HtmlAt(value, from)
      case None => Html(value, from + 1)
      case Some(end) => {from, end - 1} + Html(value, end)
  }

  // ---- Emphasis ----

  // How often `c` stands from `i` on.
  function RunAt(value: string, i: nat, c: char): (n: nat)
    requires i <= |value|
    ensures i + n <= |value| && forall k :: i <= k < i + n ==> value[k] == c
    decreases |value| - i
  {
    if i == |value| || value[i] != c then 0 else 1 + RunAt(value, i + 1, c)
  }

  // (.+?)(?<=\S)\1 for a delimiter of `length` times `c`, with `j` the earliest place
  // for the second one.
  function ClosingAt(value: string, j: nat, c: char, length: nat): (r: Option<nat>)
    requires 0 < j <= |value|
    ensures r.Some? ==> j <= r.value <= |value| && length <= RunAt(value, r.value, c)
    decreases |value| - j
  {
    if value[j - 1] == '\n' then None
    else if !IsSpace(value[j - 1]) && length <= RunAt(value, j, c) then Some(j)
    else if j == |value| then None
    else ClosingAt(value, j + 1, c, length)
  }

  datatype Emphasis = NoEmphasis | Emphasis(length: nat, second: nat)

  // Two delimiters of the same kind, apart from each other.
  predicate Delimits(value: string, i: nat, length: nat, second: nat)
    requires i < |value|
  {
    && 0 < length && i + length < second && second + length <= |value|
    && (forall k :: i <= k < i + length ==> value[k] == value[i])
    && forall k :: second <= k < second + length ==> value[k] == value[i]
  }

  // The longest delimiter of at most `length` and at least `least` characters that
  // is closed again.
  function EmphasisOf(value: string, i: nat, length: nat, least: nat): (r: Emphasis)
    requires i < |value| && 0 < least && length <= RunAt(value, i, value[i])
    ensures r.Emphasis? ==> Delimits(value, i, r.length, r.second)
    decreases length
  {
    if length < least then NoEmphasis
    else
      var inner := i + length;
      var second := if inner < |value| && !IsSpace(value[inner]) then ClosingAt(value, inner + 1, value[i], length)
                    else None;
      if second.Some? then Emphasis(length, second.value) else EmphasisOf(value, i, length - 1, least)
  }

  // (?<!\\)(\*{1,3}|_{1,3}|~{2,})(?=\S) and so on.
  function EmphasisAt(value: string, i: nat): (r: Emphasis)
    requires i < |value|
    ensures r.Emphasis? ==> value[i] in "*_~" && Delimits(value, i, r.length, r.second)
  {
    var run := RunAt(value, i, value[i]);
    if i > 0 && value[i - 1] == '\\' then NoEmphasis
    else if value[i] == '*' || value[i] == '_' then EmphasisOf(value, i, if run < 3 then run else 3, 1)
    else if value[i] == '~' then EmphasisOf(value, i, run, 2)
    else NoEmphasis
  }

  function Range(from: nat, end: nat): (r: set<int>)
    ensures forall i :: i in r <==> from <= i < end
    decreases end - from
  {
    if from >= end then {} else {from} + Range(from + 1, end)
  }

  function Delimiters(value: string, from: nat): set<int>
    requires from <= |value|
    decreases |value| - from
  {
    if from == |value| then {}
    else
      match EmphasisAt(value, from)
      case NoEmphasis => Delimiters(value, from + 1)
      case Emphasis(length, second) =>
        Range(from, from + length) + Range(second, second + length) + Delimiters(value, second + length)
  }

  // ---- All of them ----

  function Inline(value: string): set<int> {
    Links(value, 0, '(', ')') + Links(value, 0, '[', ']') + Html(value, 0) + Delimiters(value, 0)
  }

  // `_escape_markdown_literal`.
  function Literal(value: string): string {
    Escape(value, Inline(value))
  }

  // ---- What the positions hold ----

  lemma MatchOfLink(value: string, i: nat, open: char, close: char)
    requires i < |value| && LinkAt(value, i, open, close).Some?
    ensures var start := if value[i] == '!' then i + 1 else i;
            var end := LinkAt(value, i, open, close).value;
            var c := SkipTo(value, start, "]");
            && start + 1 < c < end - 1 && end <= |value| && value[start] == '[' && value[c] == ']'
            && value[c + 1] == open && value[end - 1] == close
            && '\n' !in value[start + 1..c] && c + 1 < end - 1
  {
    var start := if value[i] == '!' then i + 1 else i;
    SameStop(value, start);
    hide SkipTo;
  }

  // The search for the end of the match and the one of the escaping meet.
  lemma SameStop(value: string, start: nat)
    requires start < |value| && value[start] == '['
    requires var c := SkipTo(value, start + 1, "]\n"); c < |value| && value[c] == ']'
    ensures SkipTo(value, start + 1, "]\n") == SkipTo(value, start, "]")
  {
    var c, d := SkipTo(value, start + 1, "]\n"), SkipTo(value, start, "]");
    hide SkipTo;
    assert value[d] == ']';
    assert c <= d;
  }

  lemma {:induction false} CommentEnds(value: string, from: nat)
    requires from <= |value| && CommentEnd(value, from).Some?
    ensures value[CommentEnd(value, from).value - 1] == '>'
    decreases |value| - from
  {
    if CommentEnd(value, from + 1).Some? {
      CommentEnds(value, from + 1);
    } else {
      assert value[from..][..3] == "-->";
      assert value[from + 2] == value[from..][..3][2];
    }
  }

  lemma UrlEnds(value: string, i: nat)
    requires i < |value| && UrlEnd(value, i).Some?
    ensures value[UrlEnd(value, i).value - 1] == '>'
  {
    hide SkipTo;
  }

  // A match for HTML goes from an opening angle bracket to a closing one.
  lemma MatchOfHtml(value: string, i: nat)
    requires i < |value| && HtmlAt(value, i).Some?
    ensures value[i] == '<' && value[HtmlAt(value, i).value - 1] == '>'
  {
    hide SkipTo, CommentEnd, UrlEnd;
    if CommentAt(value, i).Some? {
      CommentEnds(value, i + 4);
    } else if UrlEnd(value, i).Some? {
      UrlEnds(value, i);
    }
  }

  predicate IsOpening(open: char, close: char) {
    (open == '(' && close == ')') || (open == '[' && close == ']')
  }

  // What a position escaped for an inline match holds: an exclamation mark in front
  // of a bracket, or a closing angle bracket behind its escaped opening one, or ...
  predicate Holds(value: string, i: int, positions: set<int>) {
    && 0 <= i < |value| && value[i] in "![]()<>*_~"
    && (value[i] == '!' ==> i + 1 < |value| && value[i + 1] == '[')
    && (value[i] == '>' ==> exists s :: 0 <= s < i && s in positions && value[s] == '<')
  }

  lemma LinkHolds(value: string, from: nat, open: char, close: char, i: int)
    requires from < |value| && IsOpening(open, close) && LinkAt(value, from, open, close).Some?
    requires i in LinkPositions(value, from, LinkAt(value, from, open, close).value)
    ensures from <= i && Holds(value, i, {}) && value[i] in "![]()"
  {
    MatchOfLink(value, from, open, close);
    hide LinkAt, SkipTo;
    assert value[from] == '!' || value[from] == '[';
  }

  lemma {:induction false} LinksHold(value: string, from: nat, open: char, close: char, i: int)
    requires from <= |value| && IsOpening(open, close) && i in Links(value, from, open, close)
    ensures from <= i && Holds(value, i, {}) && value[i] in "![]()"
    decreases |value| - from
  {
    hide LinkAt, LinkPositions, Holds, IsOpening;
    match LinkAt(value, from, open, close)
    case None => LinksHold(value, from + 1, open, close, i);
    case Some(end) =>
      if i in LinkPositions(value, from, end) {
        LinkHolds(value, from, open, close, i);
      } else {
        LinksHold(value, end, open, close, i);
      }
  }

  lemma {:induction false} HtmlHolds(value: string, from: nat, i: int)
    requires from <= |value| && i in Html(value, from)
    ensures from <= i && Holds(value, i, Html(value, from)) && (value[i] == '<' || value[i] == '>')
    decreases |value| - from
  {
    hide HtmlAt;
    match HtmlAt(value, from)
    case None => HtmlHolds(value, from + 1, i);
    case Some(end) =>
      MatchOfHtml(value, from);
      if i != from && i != end - 1 {
        HtmlHolds(value, end, i);
      }
  }

  lemma {:induction false} DelimitersHold(value: string, from: nat, i: int)
    requires from <= |value| && i in Delimiters(value, from)
    ensures from <= i && Holds(value, i, {}) && value[i] in "*_~"
    decreases |value| - from
  {
    hide EmphasisAt;
    match EmphasisAt(value, from)
    case NoEmphasis => DelimitersHold(value, from + 1, i);
    case Emphasis(length, second) =>
      if !(from <= i < from + length || second <= i < second + length) {
        DelimitersHold(value, second + length, i);
      }
  }

  lemma InlineHolds(value: string, i: int)
    requires i in Inline(value)
    ensures Holds(value, i, Inline(value))
  {
    hide Links, Html, Delimiters;
    if i in Links(value, 0, '(', ')') {
      LinksHold(value, 0, '(', ')', i);
    } else if i in Links(value, 0, '[', ']') {
      LinksHold(value, 0, '[', ']', i);
    } else if i in Html(value, 0) {
      HtmlHolds(value, 0, i);
    } else {
      DelimitersHold(value, 0, i);
    }
  }

  lemma InlineIsPunctuation(value: string)
    ensures OnPunctuation(value, Inline(value))
  {
    hide Inline;
    forall i | i in Inline(value) && 0 <= i < |value| ensures IsPunctuation(value[i]) {
      InlineHolds(value, i);
    }
  }

  // Undoing Markdown's backslash escapes in the literal form gives back the text.
  lemma LiteralReadsBack(value: string)
    ensures Unescape(Literal(value), true) == value
  {
    hide Inline, BlockPositions;
    InlineIsPunctuation(value);
    BlockPositionsArePunctuation(value);
    UnescapeEscape(value, 0, BlockPositions(value) + Inline(value), true);
    assert value[0..] == value;
  }

  // ---- Link definitions ----

  lemma {:induction false} FirstOpen(value: string)
    ensures forall i :: 0 <= i < OpenOf(value) ==> value[i] != '['
  {
    if value != [] && value[0] != '[' {
      FirstOpen(value[1..]);
      assert forall i :: 1 <= i < OpenOf(value) ==> value[i] == value[1..][i - 1];
    }
  }

  // A match that ends its first brackets at the first closing one of the text could
  // have started at any opening one before that.
  lemma CouldStartAt(value: string, o: nat, i: nat, open: char, close: char)
    requires o < i < |value| && value[o] == '[' && '\n' !in value && IsOpening(open, close)
    requires LinkAt(value, i, open, close).Some?
    requires CloseOf(value) in LinkPositions(value, i, LinkAt(value, i, open, close).value)
    ensures CloseOf(value) > o ==> BracketsAt(value, o, open, close).Some?
  {
    hide SkipTo, BracketsAt, CloseOf;
    MatchOfLink(value, i, open, close);
    var start := if value[i] == '!' then i + 1 else i;
    var c := SkipTo(value, start, "]");
    FirstClose(value, c);
    assert CloseOf(value) == c;
    if c > o {
      FirstCloseIsFirst(value);
      StopsAtClose(value, o, c);
      StopsAtClose(value, start, c);
      SameBrackets(value, o, start, open, close);
    }
  }

  lemma StopsAtClose(value: string, o: nat, c: nat)
    requires o < c < |value| && value[c] == ']' && '\n' !in value && forall i :: o < i < c ==> value[i] != ']'
    ensures SkipTo(value, o + 1, "]\n") == c
  {
    var k := SkipTo(value, o + 1, "]\n");
    hide SkipTo;
    assert k < |value| ==> value[k] == ']';
  }

  lemma SameBrackets(value: string, o: nat, start: nat, open: char, close: char)
    requires o < start < |value| && value[o] == '[' == value[start]
    requires SkipTo(value, o + 1, "]\n") == SkipTo(value, start + 1, "]\n")
    requires BracketsAt(value, start, open, close).Some?
    ensures BracketsAt(value, o, open, close).Some?
  {
    hide SkipTo;
  }

  lemma {:induction false} FirstCloseIsFirst(value: string)
    ensures forall i :: 0 <= i < CloseOf(value) ==> value[i] != ']'
  {
    if value != [] && value[0] != ']' {
      FirstCloseIsFirst(value[1..]);
      assert forall i :: 1 <= i < CloseOf(value) ==> value[i] == value[1..][i - 1];
    }
  }

  // So a search that has passed the first opening bracket escapes no first closing one.
  lemma {:induction false} PassedBy(value: string, o: nat, from: nat, open: char, close: char)
    requires o < from <= |value| && value[o] == '[' && '\n' !in value && IsOpening(open, close)
    requires BracketsAt(value, o, open, close).None?
    ensures CloseOf(value) !in Links(value, from, open, close)
    decreases |value| - from
  {
    if CloseOf(value) in Links(value, from, open, close) {
      LinksHold(value, from, open, close, CloseOf(value));
      hide LinkAt, BracketsAt, LinkPositions;
      match LinkAt(value, from, open, close)
      case None => PassedBy(value, o, from + 1, open, close);
      case Some(end) =>
        if CloseOf(value) in LinkPositions(value, from, end) {
          CouldStartAt(value, o, from, open, close);
        } else {
          PassedBy(value, o, end, open, close);
        }
    }
  }

  lemma StartsAtOpen(value: string, from: nat, open: char, close: char)
    requires from <= OpenOf(value) && from < |value|
    ensures var r := LinkAt(value, from, open, close);
            && (r.Some? ==> OpenOf(value) in LinkPositions(value, from, r.value))
            && (r.None? && from == OpenOf(value) ==> BracketsAt(value, from, open, close).None?)
  {
    hide SkipTo, OpenOf;
    FirstOpen(value);
    if LinkAt(value, from, open, close).Some? {
      MatchOfLink(value, from, open, close);
    }
  }

  lemma {:induction false} FirstLink(value: string, from: nat, open: char, close: char)
    requires from <= OpenOf(value) && '\n' !in value && IsOpening(open, close)
    requires CloseOf(value) < |value| && CloseOf(value) in Links(value, from, open, close)
    ensures OpenOf(value) in Links(value, from, open, close)
    decreases |value| - from
  {
    hide LinkAt, BracketsAt, LinkPositions, CloseOf, OpenOf, IsOpening;
    StartsAtOpen(value, from, open, close);
    if LinkAt(value, from, open, close).None? {
      if from == OpenOf(value) {
        PassedBy(value, from, from + 1, open, close);
        assert false;
      } else {
        FirstLink(value, from + 1, open, close);
      }
    }
  }

  lemma InlinePairsBrackets(value: string)
    requires '\n' !in value
    ensures BracketsPaired(value, Inline(value))
  {
    hide Links, Html, Delimiters, CloseOf;
    var c := CloseOf(value);
    if c < |value| && c in Inline(value) {
      if c in Links(value, 0, '(', ')') {
        FirstLink(value, 0, '(', ')');
      } else if c in Links(value, 0, '[', ']') {
        FirstLink(value, 0, '[', ']');
      } else if c in Html(value, 0) {
        HtmlHolds(value, 0, c);
      } else {
        DelimitersHold(value, 0, c);
      }
    }
  }

  // The literal form of a text of one line starts no link definition.
  lemma LiteralDefinesNoLink(value: string)
    requires '\n' !in value
    ensures !OpensDefinition(Block(Literal(value)))
  {
    InlinePairsBrackets(value);
    EscapedTextDefinesNoLink(value, Inline(value));
  }

  // The first opening bracket of a text of one line is escaped exactly when a link or
  // a reference without further brackets to close starts there.
  lemma FirstBracketEscaped(value: string)
    requires OpenOf(value) < |value|
    ensures OpenOf(value) in Inline(value) <==>
              || BracketsAt(value, OpenOf(value), '(', ')').Some?
              || BracketsAt(value, OpenOf(value), '[', ']').Some?
  {
    hide Links, Html, Delimiters, BracketsAt, OpenOf;
    var o := OpenOf(value);
    FirstBracketFound(value, 0, '(', ')');
    FirstBracketFound(value, 0, '[', ']');
    if o in Html(value, 0) {
      HtmlHolds(value, 0, o);
      assert false;
    }
    if o in Delimiters(value, 0) {
      DelimitersHold(value, 0, o);
      assert false;
    }
  }

  lemma {:induction false} FirstBracketFound(value: string, from: nat, open: char, close: char)
    requires from <= OpenOf(value) < |value| && IsOpening(open, close)
    ensures OpenOf(value) in Links(value, from, open, close) <==> BracketsAt(value, OpenOf(value), open, close).Some?
    decreases |value| - from
  {
    hide LinkAt, BracketsAt, LinkPositions, OpenOf, IsOpening;
    var o := OpenOf(value);
    FirstSearched(value, from, open, close);
    if from == o && LinkAt(value, from, open, close).None? {
      if o in Links(value, from + 1, open, close) {
        LinksHold(value, from + 1, open, close, o);
      }
    } else if LinkAt(value, from, open, close).None? {
      FirstBracketFound(value, from + 1, open, close);
    }
  }

  lemma FirstSearched(value: string, from: nat, open: char, close: char)
    requires from <= OpenOf(value) < |value|
    ensures var r, o := LinkAt(value, from, open, close), OpenOf(value);
            && (r.Some? ==> o in LinkPositions(value, from, r.value) && BracketsAt(value, o, open, close).Some?)
            && (r.None? && from == o ==> BracketsAt(value, o, open, close).None?)
  {
    hide SkipTo, OpenOf;
    FirstOpen(value);
    StartsAtOpen(value, from, open, close);
    hide BracketsAt;
  }
}
