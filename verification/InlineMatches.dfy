/**
  What the patterns for links, HTML and emphasis match, said by positions instead of
  searches, and that each construct they describe begins inside an escaped one
  (src/agent_container/family_issue.py:28-33, 120-137).
 */
module InlineMatches {
  import opened Wrappers
  import opened InlinePatterns

  // ---- Links ----

  // Brackets around a text of at least one character, closed at `c`, and right behind
  // them a second pair up to `end`, all in one line.
  ghost predicate IsLink(value: string, i: nat, open: char, close: char, c: int, end: int) {
    && i + 1 < c && c + 2 < end <= |value|
    && value[i] == '[' && value[c] == ']' && value[c + 1] == open && value[end - 1] == close
    && (forall k :: i < k < c ==> value[k] != ']' && value[k] != '\n')
    && forall k :: c + 1 < k < end - 1 ==> value[k] != close && value[k] != '\n'
  }

  ghost predicate EndsLink(value: string, i: nat, open: char, close: char, end: int) {
    exists c :: IsLink(value, i, open, close, c, end)
  }

  lemma StopsAt(value: string, from: nat, stops: string, k: nat)
    requires from <= k < |value| && value[k] in stops && forall i :: from <= i < k ==> value[i] !in stops
    ensures SkipTo(value, from, stops) == k
  {
    var found := SkipTo(value, from, stops);
    hide SkipTo;
    assert found <= k;
  }

  lemma LinkIsFound(value: string, i: nat, open: char, close: char, c: int, end: int)
    requires IsLink(value, i, open, close, c, end)
    ensures BracketsAt(value, i, open, close) == Some(end)
  {
    StopsAt(value, i + 1, "]\n", c);
    StopsAt(value, c + 2, [close, '\n'], end - 1);
    hide SkipTo;
  }

  lemma FoundIsLink(value: string, i: nat, open: char, close: char)
    requires i <= |value| && BracketsAt(value, i, open, close).Some?
    ensures IsLink(value, i, open, close, SkipTo(value, i + 1, "]\n"), BracketsAt(value, i, open, close).value)
  {
    hide SkipTo;
  }

  // The pattern matches a link with or without an exclamation mark in front, and
  // nothing else.
  lemma LinkIs(value: string, i: nat, open: char, close: char, end: nat)
    requires i < |value|
    ensures LinkAt(value, i, open, close) == Some(end)
            <==> EndsLink(value, if value[i] == '!' then i + 1 else i, open, close, end)
  {
    hide BracketsAt, IsLink, SkipTo;
    var start := if value[i] == '!' then i + 1 else i;
    if LinkAt(value, i, open, close) == Some(end) {
      FoundIsLink(value, start, open, close);
    }
    forall c | IsLink(value, start, open, close, c, end) ensures LinkAt(value, i, open, close) == Some(end) {
      LinkIsFound(value, start, open, close, c, end);
    }
  }

  // Every link begins inside one of which the brackets are escaped, together with an
  // exclamation mark in front.
  ghost predicate LinkEscaped(value: string, i: nat, open: char, close: char, from: nat, escaped: set<int>) {
    exists s: nat, c, end ::
      && IsLink(value, s, open, close, c, end) && from <= s <= i < end && {s, c, c + 1, end - 1} <= escaped
      && (s > 0 && value[s - 1] == '!' ==> s - 1 in escaped)
  }

  lemma MatchEscaped(value: string, m: nat, open: char, close: char, i: nat, escaped: set<int>)
    requires m < |value| && LinkAt(value, m, open, close).Some? && IsOpening(open, close)
    requires m <= i < LinkAt(value, m, open, close).value && value[i] == '['
    requires LinkPositions(value, m, LinkAt(value, m, open, close).value) <= escaped
    requires m == 0 || value[m - 1] != '!' || value[m] == '!'
    ensures LinkEscaped(value, i, open, close, m, escaped)
  {
    var s := if value[m] == '!' then m + 1 else m;
    var end := LinkAt(value, m, open, close).value;
    var c := SkipTo(value, s + 1, "]\n");
    FoundIsLink(value, s, open, close);
    SameStop(value, s);
    hide SkipTo, BracketsAt, IsOpening;
    assert IsLink(value, s, open, close, c, end) && {s, c, c + 1, end - 1} <= escaped;
  }

  lemma {:induction false} LinksCover(value: string, from: nat, i: nat, open: char, close: char)
    requires from <= i < |value| && IsOpening(open, close) && value[i] == '[' && LinkAt(value, i, open, close).Some?
    requires from == 0 || value[from - 1] != '!' || BracketsAt(value, from, open, close).None?
    ensures LinkEscaped(value, i, open, close, from, Links(value, from, open, close))
    decreases |value| - from
  {
    hide BracketsAt, LinkPositions, IsOpening, IsLink;
    match LinkAt(value, from, open, close)
    case None => LinksCover(value, from + 1, i, open, close);
    case Some(end) =>
      if i < end {
        MatchEscaped(value, from, open, close, i, Links(value, from, open, close));
      } else {
        EndsInBracket(value, from, open, close);
        LinksCover(value, end, i, open, close);
      }
  }

  lemma EndsInBracket(value: string, i: nat, open: char, close: char)
    requires i < |value| && LinkAt(value, i, open, close).Some? && IsOpening(open, close)
    ensures value[LinkAt(value, i, open, close).value - 1] != '!'
  {
    MatchOfLink(value, i, open, close);
  }

  lemma LinksAreEscaped(value: string, i: nat, open: char, close: char, c: int, end: int)
    requires (open == '(' && close == ')') || (open == '[' && close == ']')
    requires IsLink(value, i, open, close, c, end)
    ensures LinkEscaped(value, i, open, close, 0, Inline(value))
  {
    LinkIsFound(value, i, open, close, c, end);
    assert value[i] == '[' && i < |value|;
    hide IsLink, BracketsAt, Links, Html, Delimiters;
    LinksCover(value, 0, i, open, close);
    assert Links(value, 0, open, close) <= Inline(value);
    EscapedByMore(value, i, open, close, Links(value, 0, open, close), Inline(value));
  }

  lemma EscapedByMore(value: string, i: nat, open: char, close: char, some: set<int>, more: set<int>)
    requires LinkEscaped(value, i, open, close, 0, some) && some <= more
    ensures LinkEscaped(value, i, open, close, 0, more)
  {
    hide IsLink;
  }

  // ---- HTML and autolinks ----

  ghost predicate Spells(value: string, i: nat, word: string) {
    i + |word| <= |value| && value[i..i + |word|] == word
  }

  ghost predicate IsComment(value: string, i: nat, end: nat) {
    && Spells(value, i, "<!--") && i + 7 <= end <= |value| && Spells(value, end - 3, "-->")
    && '\n' !in value[i + 4..end - 3]
  }

  // From `from` on up to the angle bracket at `end - 1` there is something, and none
  // of these characters.
  ghost predicate Free(value: string, from: nat, end: nat, stops: string) {
    from + 1 < end <= |value| && value[end - 1] == '>' && forall k :: from <= k < end - 1 ==> value[k] !in stops
  }

  ghost predicate IsUrl(value: string, i: nat, end: nat) {
    || (Spells(value, i, "<https:") && Free(value, i + 7, end, " <>\n"))
    || (Spells(value, i, "<http:") && Free(value, i + 6, end, " <>\n"))
    || (Spells(value, i, "<mailto:") && Free(value, i + 8, end, " <>\n"))
  }

  ghost predicate IsAddress(value: string, i: nat, end: nat) {
    && Spells(value, i, "<")
    && exists at: nat ::
         && i + 1 < at < |value| && value[at] == '@' && Free(value, at + 1, end, " <>@\n")
         && forall k :: i < k < at ==> value[k] !in " <>@\n"
  }

  ghost predicate IsTag(value: string, i: nat, end: nat) {
    var letter := if Spells(value, i, "</") then i + 2 else i + 1;
    && Spells(value, i, "<") && letter + 1 < end <= |value| && value[end - 1] == '>'
    && ('a' <= value[letter] <= 'z' || 'A' <= value[letter] <= 'Z')
    && forall k :: letter < k < end - 1 ==> value[k] != '>' && value[k] != '\n'
  }

  lemma Start(value: string, i: nat, word: string)
    requires Spells(value, i, word) && word != []
    ensures i < |value| && value[i] == word[0]
  {
    assert value[i] == value[i..i + |word|][0];
  }

  lemma SpellsAt(value: string, i: nat, word: string)
    requires i < |value| && value[i] == '<' && word != [] && word[0] == '<'
    ensures Spells(value, i, word) <==> word[1..] <= value[i + 1..]
  {
    if Spells(value, i, word) {
      assert value[i + 1..][..|word| - 1] == value[i..i + |word|][1..];
    }
    if word[1..] <= value[i + 1..] {
      assert value[i..i + |word|] == [value[i]] + value[i + 1..][..|word| - 1];
    }
  }

  lemma SchemeIs(value: string, i: nat, scheme: string, end: nat)
    requires i < |value| && value[i] == '<'
    ensures SchemeEnd(value, i, scheme) == Some(end)
            <==> Spells(value, i, ['<'] + scheme) && Free(value, i + 1 + |scheme|, end, " <>\n")
    ensures SchemeEnd(value, i, scheme).Some? ==> Spells(value, i, ['<'] + scheme)
  {
    SpellsAt(value, i, ['<'] + scheme);
    assert (['<'] + scheme)[1..] == scheme;
    if Spells(value, i, ['<'] + scheme) && Free(value, i + 1 + |scheme|, end, " <>\n") {
      StopsAt(value, i + 1 + |scheme|, " <>\n", end - 1);
    }
    hide SkipTo;
  }

  lemma UrlIs(value: string, i: nat, end: nat)
    requires i < |value| && value[i] == '<'
    ensures UrlEnd(value, i) == Some(end) <==> IsUrl(value, i, end)
  {
    hide SchemeEnd, Free;
    SchemeIs(value, i, "https:", end);
    SchemeIs(value, i, "http:", end);
    SchemeIs(value, i, "mailto:", end);
    OneScheme(value, i);
    hide Spells;
  }

  lemma OneScheme(value: string, i: nat)
    ensures Spells(value, i, "<https:") ==> !Spells(value, i, "<http:") && !Spells(value, i, "<mailto:")
    ensures Spells(value, i, "<http:") ==> !Spells(value, i, "<mailto:")
  {
    if Spells(value, i, "<https:") {
      assert value[i + 1] == value[i..i + 7][1] == 'h' && value[i + 5] == value[i..i + 7][5] == 's';
    }
    if Spells(value, i, "<http:") {
      assert value[i + 1] == value[i..i + 6][1] == 'h' && value[i + 5] == value[i..i + 6][5] == ':';
    }
    if Spells(value, i, "<mailto:") {
      assert value[i + 1] == value[i..i + 8][1] == 'm';
    }
  }

  lemma AddressIs(value: string, i: nat, end: nat)
    requires i < |value| && value[i] == '<'
    ensures AddressEnd(value, i) == Some(end) <==> IsAddress(value, i, end)
  {
    hide SkipTo, Free;
    if AddressEnd(value, i) == Some(end) {
      AddressFound(value, i);
    }
    if IsAddress(value, i, end) {
      var at: nat :| && i + 1 < at < |value| && value[at] == '@' && Free(value, at + 1, end, " <>@\n")
                     && forall k :: i < k < at ==> value[k] !in " <>@\n";
      FreeEnds(value, at + 1, end);
      StopsAt(value, i + 1, " <>@\n", at);
    }
  }

  lemma FreeEnds(value: string, from: nat, end: nat)
    requires from <= |value| && Free(value, from, end, " <>@\n")
    ensures Body(value, from, " <>@\n", '>') == Some(end - 1)
  {
    StopsAt(value, from, " <>@\n", end - 1);
    hide SkipTo;
  }

  lemma AddressFound(value: string, i: nat)
    requires i < |value| && value[i] == '<' && AddressEnd(value, i).Some?
    ensures IsAddress(value, i, AddressEnd(value, i).value)
  {
    var at := Body(value, i + 1, " <>@\n", '@').value;
    hide SkipTo;
    assert Free(value, at + 1, AddressEnd(value, i).value, " <>@\n");
    assert forall k :: i < k < at ==> value[k] !in " <>@\n";
  }

  lemma TagIs(value: string, i: nat, end: nat)
    requires i < |value| && value[i] == '<'
    ensures TagEnd(value, i) == Some(end) <==> IsTag(value, i, end)
  {
    var letter := if i + 1 < |value| && value[i + 1] == '/' then i + 2 else i + 1;
    SpellsAt(value, i, "</");
    assert Spells(value, i, "</") <==> letter == i + 2;
    if IsTag(value, i, end) {
      StopsAt(value, letter + 1, ">\n", end - 1);
    }
    hide SkipTo;
  }

  ghost predicate EndsComment(value: string, from: nat, end: nat) {
    from + 3 <= end <= |value| && Spells(value, end - 3, "-->") && '\n' !in value[from..end - 3]
  }

  lemma EndsBehind(value: string, from: nat, end: nat)
    requires EndsComment(value, from, end)
    ensures value[from] != '\n'
  {
    if end == from + 3 {
      Start(value, from, "-->");
    } else {
      assert value[from] in value[from..end - 3];
    }
  }

  lemma {:induction false} LastCommentEnd(value: string, from: nat)
    requires from <= |value|
    ensures CommentEnd(value, from).Some? ==> EndsComment(value, from, CommentEnd(value, from).value)
    ensures forall e: nat :: EndsComment(value, from, e) ==>
                               CommentEnd(value, from).Some? && e <= CommentEnd(value, from).value
    decreases |value| - from
  {
    if from + 3 <= |value| && value[from] != '\n' {
      LastCommentEnd(value, from + 1);
      assert "-->" <= value[from..] <==> Spells(value, from, "-->") by {
        assert value[from..][..3] == value[from..from + 3];
      }
      hide Spells, CommentEnd;
      forall e: nat | from + 3 < e <= |value| ensures EndsComment(value, from + 1, e) <==> EndsComment(value, from, e) {
        assert value[from..e - 3] == [value[from]] + value[from + 1..e - 3];
      }
    } else {
      forall e: nat ensures !EndsComment(value, from, e) {
        if EndsComment(value, from, e) {
          EndsBehind(value, from, e);
          assert false;
        }
      }
    }
  }

  lemma CommentIs(value: string, i: nat, end: nat)
    requires i < |value| && value[i] == '<'
    ensures CommentAt(value, i) == Some(end)
            <==> IsComment(value, i, end) && forall e: nat :: IsComment(value, i, e) ==> e <= end
    ensures forall e: nat :: IsComment(value, i, e) ==> CommentAt(value, i).Some?
  {
    assert "<!--" <= value[i..] <==> Spells(value, i, "<!--") by {
      if i + 4 <= |value| {
        assert value[i..][..4] == value[i..i + 4];
      }
    }
    if Spells(value, i, "<!--") {
      LastCommentEnd(value, i + 4);
      hide Spells, CommentEnd;
      var last := CommentAt(value, i);
      assert last.Some? ==> EndsComment(value, i + 4, last.value) && IsComment(value, i, last.value);
      forall e: nat | IsComment(value, i, e) ensures last.Some? && e <= last.value {
        assert EndsComment(value, i + 4, e);
      }
    }
  }

  // ---- HTML as a whole ----

  // The constructs other than comments end in the first closing bracket.
  lemma UrlEndsFirst(value: string, i: nat, end: nat)
    requires IsUrl(value, i, end)
    ensures Spells(value, i, "<") && EndsFirst(value, i, end)
  {
    if Spells(value, i, "<https:") {
      assert forall k :: i <= k < i + 7 ==> value[k] == "<https:"[k - i];
    } else if Spells(value, i, "<http:") {
      assert forall k :: i <= k < i + 6 ==> value[k] == "<http:"[k - i];
    } else {
      assert forall k :: i <= k < i + 8 ==> value[k] == "<mailto:"[k - i];
    }
  }

  ghost predicate EndsFirst(value: string, i: nat, end: nat) {
    i + 1 < end <= |value| && value[end - 1] == '>' && forall k :: i <= k < end - 1 ==> value[k] != '>'
  }

  ghost predicate IsAngled(value: string, i: nat, end: nat) {
    IsUrl(value, i, end) || IsAddress(value, i, end) || IsTag(value, i, end)
  }

  lemma AngledEndsFirst(value: string, i: nat, end: nat)
    requires IsAngled(value, i, end)
    ensures Spells(value, i, "<") && EndsFirst(value, i, end)
  {
    if IsUrl(value, i, end) {
      UrlEndsFirst(value, i, end);
    } else if IsTag(value, i, end) {
      if Spells(value, i, "</") {
        assert value[i + 1] == value[i..i + 2][1];
      }
    }
  }

  // The pattern matches a comment up to its last possible end and, where there is
  // none, an autolink, an address or a tag.
  lemma HtmlIs(value: string, i: nat, end: nat)
    requires i < |value|
    ensures HtmlAt(value, i) == Some(end)
            <==> if exists e: nat :: IsComment(value, i, e)
                 then IsComment(value, i, end) && forall e: nat :: IsComment(value, i, e) ==> e <= end
                 else IsUrl(value, i, end) || IsAddress(value, i, end) || IsTag(value, i, end)
  {
    hide SkipTo, CommentAt, UrlEnd, AddressEnd, TagEnd, IsComment, IsUrl, IsAddress, IsTag;
    if value[i] == '<' {
      var last := CommentAt(value, i);
      CommentIs(value, i, end);
      CommentIs(value, i, if last.Some? then last.value else 0);
      AngledIs(value, i, end);
    } else {
      NoHtml(value, i);
      assert !IsAngled(value, i, end);
    }
  }

  lemma OpensAngle(value: string, i: nat, end: nat)
    requires IsComment(value, i, end) || IsAngled(value, i, end)
    ensures i < |value| && value[i] == '<'
  {
    if IsComment(value, i, end) {
      Start(value, i, "<!--");
    } else {
      AngledEndsFirst(value, i, end);
      Start(value, i, "<");
    }
  }

  lemma NoHtml(value: string, i: nat)
    requires i < |value|
    ensures value[i] != '<' ==> forall e: nat :: !IsComment(value, i, e) && !IsAngled(value, i, e)
  {
    hide IsComment, IsAngled;
    forall e: nat ensures IsComment(value, i, e) || IsAngled(value, i, e) ==> value[i] == '<' {
      if IsComment(value, i, e) || IsAngled(value, i, e) {
        OpensAngle(value, i, e);
      }
    }
  }

  lemma AngledIs(value: string, i: nat, end: nat)
    requires i < |value| && value[i] == '<'
    ensures IsAngled(value, i, end) <==>
              var url, address := UrlEnd(value, i), AddressEnd(value, i);
              (if url.Some? then url else if address.Some? then address else TagEnd(value, i)) == Some(end)
  {
    hide UrlEnd, AddressEnd, TagEnd, IsUrl, IsAddress, IsTag;
    forall e: nat
      ensures UrlEnd(value, i) == Some(e) ==> IsAngled(value, i, e) && EndsFirst(value, i, e)
      ensures AddressEnd(value, i) == Some(e) ==> IsAngled(value, i, e) && EndsFirst(value, i, e)
      ensures TagEnd(value, i) == Some(e) ==> IsAngled(value, i, e) && EndsFirst(value, i, e)
    {
      UrlIs(value, i, e);
      AddressIs(value, i, e);
      TagIs(value, i, e);
      if IsAngled(value, i, e) {
        AngledEndsFirst(value, i, e);
      }
    }
    UrlIs(value, i, end);
    AddressIs(value, i, end);
    TagIs(value, i, end);
    if IsAngled(value, i, end) {
      AngledEndsFirst(value, i, end);
    }
  }

  // Every one of them begins inside one of which both angle brackets are escaped.
  ghost predicate HtmlEscaped(value: string, i: nat, from: nat, escaped: set<int>) {
    exists s: nat, e: nat ::
      && (IsComment(value, s, e) || IsAngled(value, s, e)) && from <= s <= i < e && s in escaped && e - 1 in escaped
  }

  lemma {:induction false} HtmlCovers(value: string, from: nat, i: nat)
    requires from <= i < |value| && HtmlAt(value, i).Some?
    ensures HtmlEscaped(value, i, from, Html(value, from))
    decreases |value| - from
  {
    hide HtmlAt, IsComment, IsAngled;
    match HtmlAt(value, from)
    case None => HtmlCovers(value, from + 1, i);
    case Some(end) =>
      if i < end {
        HtmlShape(value, from, end);
      } else {
        HtmlCovers(value, end, i);
      }
  }

  lemma HtmlShape(value: string, i: nat, end: nat)
    requires i < |value| && HtmlAt(value, i) == Some(end)
    ensures IsComment(value, i, end) || IsAngled(value, i, end)
  {
    HtmlIs(value, i, end);
    hide IsComment, IsUrl, IsAddress, IsTag;
  }

  lemma ShapeIsHtml(value: string, i: nat, end: nat)
    requires IsComment(value, i, end) || IsAngled(value, i, end)
    ensures i < |value| && HtmlAt(value, i).Some?
  {
    OpensAngle(value, i, end);
    if IsComment(value, i, end) {
      CommentIs(value, i, end);
    } else {
      AngledIs(value, i, end);
    }
    hide CommentAt, UrlEnd, AddressEnd, TagEnd;
  }

  lemma HtmlIsEscaped(value: string, i: nat, end: nat)
    requires IsComment(value, i, end) || IsUrl(value, i, end) || IsAddress(value, i, end) || IsTag(value, i, end)
    ensures HtmlEscaped(value, i, 0, Inline(value))
  {
    hide IsComment, IsUrl, IsAddress, IsTag, Links, Html, Delimiters;
    ShapeIsHtml(value, i, end);
    HtmlCovers(value, 0, i);
  }

  // ---- Emphasis ----

  // What counts as a space: 29 characters.
  lemma SpaceIs(c: char)
    ensures IsSpace(c) <==>
              c in "\t\n\U{B}\U{C}\r\U{1C}\U{1D}\U{1E}\U{1F} \U{85}\U{A0}\U{1680}\U{2000}\U{2001}\U{2002}\U{2003}"
                   + "\U{2004}\U{2005}\U{2006}\U{2007}\U{2008}\U{2009}\U{200A}\U{2028}\U{2029}\U{202F}\U{205F}\U{3000}"
  {
  }

  // Two delimiters of `length` characters around a text of one line that neither
  // begins nor ends in a space.
  ghost predicate IsEmphasis(value: string, i: nat, length: nat, second: nat) {
    && 0 < length && i + length < second && second + length <= |value|
    && (forall k :: i <= k < i + length ==> value[k] == value[i])
    && (forall k :: second <= k < second + length ==> value[k] == value[i])
    && !IsSpace(value[i + length]) && !IsSpace(value[second - 1])
    && forall k :: i + length <= k < second ==> value[k] != '\n'
  }

  // One to three asterisks or underscores, or at least two tildes, without a backslash
  // in front.
  ghost predicate IsEmphasised(value: string, i: nat, length: nat, second: nat)
    requires i < |value|
  {
    && IsEmphasis(value, i, length, second) && (i > 0 ==> value[i - 1] != '\\')
    && (((value[i] == '*' || value[i] == '_') && length <= 3) || (value[i] == '~' && length >= 2))
  }

  lemma {:induction false} RunReaches(value: string, i: nat, c: char, n: nat)
    requires i <= |value|
    ensures n <= RunAt(value, i, c) <==> i + n <= |value| && forall k :: i <= k < i + n ==> value[k] == c
    decreases n
  {
    if n > 0 && i < |value| && value[i] == c {
      RunReaches(value, i + 1, c, n - 1);
    }
  }

  ghost predicate Closes(value: string, j: nat, c: char, length: nat, second: nat)
    requires 0 < j <= |value|
  {
    && j <= second && second + length <= |value| && !IsSpace(value[second - 1])
    && (forall k :: second <= k < second + length ==> value[k] == c)
    && forall k :: j - 1 <= k < second ==> value[k] != '\n'
  }

  lemma {:induction false} FirstClosing(value: string, j: nat, c: char, length: nat)
    requires 0 < j <= |value|
    ensures var r := ClosingAt(value, j, c, length);
            && (r.Some? ==> Closes(value, j, c, length, r.value))
            && forall s: nat :: Closes(value, j, c, length, s) ==> r.Some? && r.value <= s
    decreases |value| - j
  {
    hide RunAt, IsSpace;
    RunReaches(value, j, c, length);
    if value[j - 1] != '\n' && j < |value| {
      FirstClosing(value, j + 1, c, length);
      hide ClosingAt;
      assert forall s: nat :: s > j ==> (Closes(value, j, c, length, s) <==> Closes(value, j + 1, c, length, s));
    }
  }

  // A longer delimiter, or the same one closed earlier.
  ghost predicate Preferred(r: Emphasis, length: nat, second: nat) {
    r.Emphasis? && (length < r.length || (length == r.length && r.second <= second))
  }

  // Where a delimiter of that length is closed again.
  ghost function SecondOf(value: string, i: nat, length: nat): Option<nat>
    requires i + length <= |value| && i < |value|
  {
    var inner := i + length;
    if inner < |value| && !IsSpace(value[inner]) then ClosingAt(value, inner + 1, value[i], length) else None
  }

  lemma SecondIs(value: string, i: nat, length: nat)
    requires i < |value| && 0 < length <= RunAt(value, i, value[i])
    ensures var second := SecondOf(value, i, length);
            && (second.Some? ==> IsEmphasis(value, i, length, second.value))
            && forall s: nat :: IsEmphasis(value, i, length, s) ==> second.Some? && second.value <= s
  {
    hide RunAt, IsSpace, ClosingAt;
    var inner := i + length;
    if inner < |value| {
      FirstClosing(value, inner + 1, value[i], length);
    }
    forall s: nat
      ensures IsEmphasis(value, i, length, s)
              <==> inner < |value| && !IsSpace(value[inner]) && Closes(value, inner + 1, value[i], length, s)
    {
      EmphasisCloses(value, i, length, s);
    }
    hide IsEmphasis, Closes;
  }

  lemma {:induction false} LongestEmphasis(value: string, i: nat, length: nat, least: nat)
    requires i < |value| && 0 < least && length <= RunAt(value, i, value[i])
    ensures var r := EmphasisOf(value, i, length, least);
            && (r.Emphasis? ==> IsEmphasis(value, i, r.length, r.second) && least <= r.length <= length)
            && forall n: nat, s: nat | IsEmphasis(value, i, n, s) && least <= n <= length :: Preferred(r, n, s)
    decreases length
  {
    if least <= length {
      LongestEmphasis(value, i, length - 1, least);
      SecondIs(value, i, length);
      EmphasisUnfolds(value, i, length, least);
      hide RunAt, IsSpace, IsEmphasis, SecondOf, EmphasisOf;
    }
  }

  lemma EmphasisUnfolds(value: string, i: nat, length: nat, least: nat)
    requires i < |value| && 0 < least <= length <= RunAt(value, i, value[i])
    ensures var second := SecondOf(value, i, length);
            EmphasisOf(value, i, length, least)
            == if second.Some? then Emphasis(length, second.value) else EmphasisOf(value, i, length - 1, least)
  {
    hide RunAt, IsSpace, ClosingAt;
  }

  lemma EmphasisCloses(value: string, i: nat, length: nat, second: nat)
    requires i < |value| && 0 < length <= RunAt(value, i, value[i])
    ensures var inner := i + length;
            IsEmphasis(value, i, length, second)
            <==> inner < |value| && !IsSpace(value[inner]) && Closes(value, inner + 1, value[i], length, second)
  {
    hide IsSpace;
    RunReaches(value, i, value[i], length);
  }

  lemma EmphasisWithinRun(value: string, i: nat, length: nat, second: nat)
    requires i < |value| && IsEmphasis(value, i, length, second)
    ensures 0 < length <= RunAt(value, i, value[i])
  {
    RunReaches(value, i, value[i], length);
  }

  // The pattern matches the longest delimiter that is closed again, up to the first
  // place where it is.
  lemma EmphasisIs(value: string, i: nat)
    requires i < |value|
    ensures var r := EmphasisAt(value, i);
            && (r.Emphasis? ==> IsEmphasised(value, i, r.length, r.second))
            && forall n: nat, s: nat | IsEmphasised(value, i, n, s) :: Preferred(r, n, s)
  {
    hide RunAt, EmphasisOf, IsEmphasis;
    var run := RunAt(value, i, value[i]);
    LongestEmphasis(value, i, if run < 3 then run else 3, 1);
    LongestEmphasis(value, i, run, 2);
    forall n: nat, s: nat | IsEmphasis(value, i, n, s) ensures 0 < n <= run {
      EmphasisWithinRun(value, i, n, s);
    }
  }

  // Every emphasis begins inside one of which both delimiters are escaped.
  ghost predicate EmphasisEscaped(value: string, i: nat, from: nat, escaped: set<int>)
    requires i < |value|
  {
    exists s: nat, n: nat, second: nat ::
      && from <= s <= i && IsEmphasised(value, s, n, second) && i < second + n
      && (forall k :: s <= k < s + n || second <= k < second + n ==> k in escaped)
  }

  lemma {:induction false} EmphasisCovers(value: string, from: nat, i: nat)
    requires from <= i < |value| && EmphasisAt(value, i).Emphasis?
    ensures EmphasisEscaped(value, i, from, Delimiters(value, from))
    decreases |value| - from
  {
    hide EmphasisAt, IsEmphasised;
    match EmphasisAt(value, from)
    case NoEmphasis => EmphasisCovers(value, from + 1, i);
    case Emphasis(length, second) =>
      if i < second + length {
        EmphasisIs(value, from);
      } else {
        EmphasisCovers(value, second + length, i);
      }
  }

  lemma EmphasisIsEscaped(value: string, i: nat, length: nat, second: nat)
    requires i < |value| && IsEmphasised(value, i, length, second)
    ensures EmphasisEscaped(value, i, 0, Inline(value))
  {
    hide IsEmphasised, Links, Html, Delimiters, EmphasisAt;
    EmphasisIs(value, i);
    assert Preferred(EmphasisAt(value, i), length, second);
    EmphasisCovers(value, 0, i);
  }

  // So the first one of a text is escaped.
  lemma FirstEmphasisIsEscaped(value: string, i: nat, length: nat, second: nat)
    requires i < |value| && IsEmphasised(value, i, length, second)
    requires forall j: nat, n: nat, s: nat :: j < i ==> !IsEmphasised(value, j, n, s)
    ensures i in Inline(value)
  {
    hide IsSpace, Links, Html, Delimiters;
    EmphasisIsEscaped(value, i, length, second);
  }
}
