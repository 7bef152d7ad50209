/**
  Writing user text so that Markdown shows it literally
  (src/agent_container/family_issue.py:82-144).  Backslash escapes are those of
  section 2.4 of CommonMark 0.31.2.
 */
module MarkdownLiteral {

  // ---- Escaping ----

  predicate AlwaysEscaped(c: char) {
    c == '\\' || c == '`' || c == '&'
  }

  function EscapeOne(c: char, escaped: bool): string {
    if escaped || AlwaysEscaped(c) then ['\\', c] else [c]
  }

  // The text from position `from` on, with a backslash before the characters at
  // `positions` and before the three that always get one.
  function EscapeFrom(value: string, from: nat, positions: set<int>): string
    requires from <= |value|
    decreases |value| - from
  {
    if from == |value| then []
    else EscapeOne(value[from], from in positions) + EscapeFrom(value, from + 1, positions)
  }

  predicate IsPunctuation(c: char) {
    '!' <= c <= '/' || ':' <= c <= '@' || '[' <= c <= '`' || '{' <= c <= '~'
  }

  // Backslash escapes undone: before any character, or as Markdown does it only
  // before ASCII punctuation.
  function Unescape(s: string, markdown: bool): string {
    if s == [] then []
    else if s[0] == '\\' && |s| > 1 && (markdown ==> IsPunctuation(s[1])) then [s[1]] + Unescape(s[2..], markdown)
    else [s[0]] + Unescape(s[1..], markdown)
  }

  predicate OnPunctuation(value: string, positions: set<int>) {
    forall i :: i in positions && 0 <= i < |value| ==> IsPunctuation(value[i])
  }

  lemma EscapeUnfolds(value: string, from: nat, positions: set<int>)
    requires from < |value|
    ensures EscapeFrom(value, from, positions)
            == EscapeOne(value[from], from in positions) + EscapeFrom(value, from + 1, positions)
    ensures value[from..] == [value[from]] + value[from + 1..]
  {
  }

  // Unescaping returns the text, whatever positions were chosen; Markdown's own
  // reading does too if they were positions of punctuation.
  lemma {:induction false} UnescapeEscape(value: string, from: nat, positions: set<int>, markdown: bool)
    requires from <= |value| && (markdown ==> OnPunctuation(value, positions))
    ensures Unescape(EscapeFrom(value, from, positions), markdown) == value[from..]
    decreases |value| - from
  {
    if from < |value| {
      EscapeUnfolds(value, from, positions);
      UnescapeEscape(value, from + 1, positions, markdown);
      hide EscapeFrom;
      UnescapeOne(value[from], from in positions, EscapeFrom(value, from + 1, positions), markdown);
    } else {
      assert EscapeFrom(value, from, positions) == [] && value[from..] == [];
    }
  }

  lemma UnescapeOne(c: char, escaped: bool, rest: string, markdown: bool)
    requires markdown && escaped ==> IsPunctuation(c)
    ensures Unescape(EscapeOne(c, escaped) + rest, markdown) == [c] + Unescape(rest, markdown)
  {
    var s := EscapeOne(c, escaped) + rest;
    if escaped || AlwaysEscaped(c) {
      assert s[0] == '\\' && s[1] == c && s[2..] == rest;
    } else {
      assert s[0] == c && s[1..] == rest;
    }
  }

  // Escaping adds a character to each position at most, and none of them new but
  // backslashes.
  lemma {:induction false} EscapeAddsBackslashes(value: string, from: nat, positions: set<int>, c: char)
    requires from <= |value| && c in EscapeFrom(value, from, positions)
    ensures c == '\\' || c in value[from..]
    decreases |value| - from
  {
    if from < |value| {
      var one := EscapeOne(value[from], from in positions);
      var rest := EscapeFrom(value, from + 1, positions);
      assert EscapeFrom(value, from, positions) == one + rest;
      assert value[from..] == [value[from]] + value[from + 1..];
      if c !in one {
        EscapeAddsBackslashes(value, from + 1, positions, c);
      }
    }
  }

  // ---- Block constructs at the start of a line ----

  function LeadingSpaces(value: string): (n: nat)
    ensures n <= |value|
  {
    if value == [] || value[0] != ' ' then 0 else 1 + LeadingSpaces(value[1..])
  }

  // What is left behind the indentation.
  function Block(value: string): string {
    value[LeadingSpaces(value)..]
  }

  // How long a run of characters satisfying a test the text starts with.
  function RunOf(value: string, test: char -> bool): (n: nat)
    ensures n <= |value|
  {
    if value == [] || !test(value[0]) then 0 else 1 + RunOf(value[1..], test)
  }

  // A space, or the end of the text.
  predicate BlankAt(value: string, k: nat) {
    k == |value| || (k < |value| && value[k] == ' ')
  }

  // \[(?: |x|X)\](?: |$)
  predicate IsTask(b: string) {
    |b| >= 3 && b[0] == '[' && b[1] in " xX" && b[2] == ']' && BlankAt(b, 3)
  }

  // b.find("]"), or the length.
  function CloseOf(b: string): (k: nat)
    ensures k <= |b| && (k < |b| ==> b[k] == ']')
  {
    if b == [] || b[0] == ']' then 0 else 1 + CloseOf(b[1..])
  }

  // \[[^\]]+\]:
  predicate IsDefinition(b: string) {
    b != [] && b[0] == '[' && var k := CloseOf(b); 2 <= k && k + 1 < |b| && b[k + 1] == ':'
  }

  // #{1,6}(?: |$)
  predicate IsHeading(b: string) {
    var n := RunOf(b, c => c == '#'); 1 <= n <= 6 && BlankAt(b, n)
  }

  // >(?: |$)
  predicate IsQuote(b: string) {
    b != [] && b[0] == '>' && BlankAt(b, 1)
  }

  // [-+*](?: |$)
  predicate IsBullet(b: string) {
    b != [] && b[0] in "-+*" && BlankAt(b, 1)
  }

  function Count(b: string, c: char): nat {
    if b == [] then 0 else (if b[0] == c then 1 else 0) + Count(b[1..], c)
  }

  // (?P<marker>[-*_])(?: *(?P=marker)){2,} *$
  predicate IsThematicBreak(b: string) {
    && b != [] && b[0] in "-*_" && Count(b, b[0]) >= 3
    && forall i :: 0 <= i < |b| ==> b[i] == b[0] || b[i] == ' '
  }

  function Digits(b: string): nat {
    RunOf(b, c => '0' <= c <= '9')
  }

  // [0-9]{1,9}([.)])(?: |$)
  predicate IsOrdered(b: string) {
    var n := Digits(b); 1 <= n <= 9 && n < |b| && b[n] in ".)" && BlankAt(b, n + 1)
  }

  function CharsAt(value: string, lead: nat, markers: string): set<int> {
    set i | lead <= i < |value| && value[i] in markers
  }

  // The positions escaped because of what the line starts with.
  function BlockPositions(value: string): set<int> {
    var lead := LeadingSpaces(value);
    var b := value[lead..];
    (if IsTask(b) then {lead, lead + 2} else {})
    + (if IsDefinition(b) then {lead, lead + CloseOf(b), lead + CloseOf(b) + 1} else {})
    + (if IsHeading(b) || IsQuote(b) then {lead}
       else if IsBullet(b) then
         {lead} + if "---" <= b || "***" <= b then CharsAt(value, lead, "-*") else {}
       else if IsThematicBreak(b) then CharsAt(value, lead, "-*_")
       else if IsOrdered(b) then {lead + Digits(b)}
       else {})
  }

  // `_escape_markdown_literal`.  `inline` is where the patterns for links, HTML
  // and emphasis matched.
  function Escape(value: string, inline: set<int>): string {
    EscapeFrom(value, 0, BlockPositions(value) + inline)
  }

  lemma BlockPositionsArePunctuation(value: string)
    ensures OnPunctuation(value, BlockPositions(value))
  {
    var lead := LeadingSpaces(value);
    var b := value[lead..];
    forall i | i in BlockPositions(value) && 0 <= i < |value| ensures IsPunctuation(value[i]) {
      assert i >= lead && value[i] == b[i - lead];
      if IsHeading(b) {
        assert b[0] == '#';
      }
    }
  }

  // ---- What escaping achieves at the start of a line ----

  // The first `k` characters of the escaped text are those of the text.
  predicate Copied(value: string, from: nat, positions: set<int>, k: nat)
    requires from <= |value|
  {
    var f := EscapeFrom(value, from, positions);
    && from + k <= |value| && k <= |f|
    && f[..k] == value[from..from + k] && f[k..] == EscapeFrom(value, from + k, positions)
    && forall i :: from <= i < from + k ==> i !in positions
  }

  // Up to its first backslash, escaped text is the text.
  lemma {:induction false} Copies(value: string, from: nat, positions: set<int>, k: nat)
    requires from <= |value|
    requires var f := EscapeFrom(value, from, positions); k <= |f| && '\\' !in f[..k]
    ensures Copied(value, from, positions, k)
    decreases k
  {
    hide EscapeFrom, EscapeOne;
    var f := EscapeFrom(value, from, positions);
    if k == 0 {
      assert f[0..] == f;
    } else {
      FirstChar(value, from, positions);
      EscapeUnfolds(value, from, positions);
      NotEscaped(value, from, positions, k, EscapeFrom(value, from + 1, positions));
      hide Copied;
      Copies(value, from + 1, positions, k - 1);
      OneMoreCopied(value, from, positions, k);
    }
  }

  lemma OneMoreCopied(value: string, from: nat, positions: set<int>, k: nat)
    requires from < |value| && k > 0 && from !in positions && Copied(value, from + 1, positions, k - 1)
    requires EscapeFrom(value, from, positions) == [value[from]] + EscapeFrom(value, from + 1, positions)
    ensures Copied(value, from, positions, k)
  {
    hide EscapeFrom;
    var rest := EscapeFrom(value, from + 1, positions);
    ConsSlices(value[from], rest, k);
    ConsRange(value, from, k);
  }

  lemma NotEscaped(value: string, from: nat, positions: set<int>, k: nat, rest: string)
    requires from < |value| && k > 0
    requires var f := EscapeOne(value[from], from in positions) + rest; k <= |f| && '\\' !in f[..k]
    ensures EscapeOne(value[from], from in positions) == [value[from]] && from !in positions
    ensures k - 1 <= |rest| && '\\' !in rest[..k - 1]
  {
    var f := EscapeOne(value[from], from in positions) + rest;
    assert f[0] in f[..k];
    assert forall i :: 0 <= i < k - 1 && k - 1 <= |rest| ==> rest[..k - 1][i] == rest[i];
    if '\\' in rest[..k - 1] {
      ConsSlices(value[from], rest, k);
    }
  }

  lemma ConsSlices(c: char, rest: string, k: nat)
    requires 1 <= k <= 1 + |rest|
    ensures ([c] + rest)[..k] == [c] + rest[..k - 1] && ([c] + rest)[k..] == rest[k - 1..]
  {
  }

  lemma ConsRange(value: string, from: nat, k: nat)
    requires k > 0 && from + k <= |value|
    ensures value[from..from + k] == [value[from]] + value[from + 1..from + k]
  {
  }

  lemma FirstChar(value: string, from: nat, positions: set<int>)
    requires from <= |value|
    ensures var f := EscapeFrom(value, from, positions);
            && (f == [] <==> from == |value|)
            && (f != [] ==> f[0] == if from in positions || AlwaysEscaped(value[from]) then '\\' else value[from])
  {
  }

  // The block of the escaped text: the escaped block, or one that starts with a
  // backslash.
  lemma {:induction false} BlockOfEscape(value: string, from: nat, positions: set<int>)
    requires from <= |value|
    ensures var block := Block(EscapeFrom(value, from, positions));
            || (block != [] && block[0] == '\\')
            || block == EscapeFrom(value, from + LeadingSpaces(value[from..]), positions)
    decreases |value| - from
  {
    hide EscapeFrom, LeadingSpaces, Block;
    FirstChar(value, from, positions);
    if from == |value| || value[from] != ' ' {
      NoSpace(EscapeFrom(value, from, positions));
      NoSpace(value[from..]);
    } else if from in positions {
      NoSpace(EscapeFrom(value, from, positions));
    } else {
      EscapeUnfolds(value, from, positions);
      SpaceBefore(EscapeFrom(value, from + 1, positions));
      SpaceBefore(value[from + 1..]);
      BlockOfEscape(value, from + 1, positions);
    }
  }

  lemma SpaceBefore(rest: string)
    ensures LeadingSpaces([' '] + rest) == 1 + LeadingSpaces(rest) && Block([' '] + rest) == Block(rest)
  {
    assert ([' '] + rest)[1..] == rest;
    hide LeadingSpaces;
    ConsSlices(' ', rest, 1 + LeadingSpaces(rest));
  }

  lemma NoSpace(s: string)
    requires s == [] || s[0] != ' '
    ensures LeadingSpaces(s) == 0 && Block(s) == s
  {
    assert s[0..] == s;
  }

  // The constructs the program looks for at the start of a line, but for link
  // definitions.
  predicate OpensPlainBlock(b: string) {
    IsTask(b) || IsHeading(b) || IsQuote(b) || IsBullet(b) || IsThematicBreak(b) || IsOrdered(b)
  }

  // Where the escaped block starts without a backslash, so does the block, with
  // the same characters, and what is blank behind them is blank there.
  lemma SameStart(value: string, lead: nat, positions: set<int>, k: nat)
    requires lead <= |value|
    requires var f := EscapeFrom(value, lead, positions); k <= |f| && '\\' !in f[..k]
    ensures var f, b := EscapeFrom(value, lead, positions), value[lead..];
            && k <= |b| && b[..k] == f[..k] && (BlankAt(f, k) ==> BlankAt(b, k))
            && (k < |f| && f[k] != '\\' ==> k < |b| && b[k] == f[k])
            && (k == |f| ==> k == |b|)
    ensures forall i :: lead <= i < lead + k ==> i !in positions
  {
    Copies(value, lead, positions, k);
    FirstChar(value, lead + k, positions);
    var f, b := EscapeFrom(value, lead, positions), value[lead..];
    assert b[..k] == value[lead..lead + k];
    if k < |f| {
      assert f[k] == f[k..][0];
    }
  }

  lemma {:induction false} RunIs(b: string, test: char -> bool, n: nat)
    requires n <= |b|
    ensures RunOf(b, test) == n <==> (forall i :: 0 <= i < n ==> test(b[i])) && (n < |b| ==> !test(b[n]))
    decreases n
  {
    if n > 0 {
      var rest := b[1..];
      RunIs(rest, test, n - 1);
      assert forall i :: 0 <= i < n - 1 ==> rest[i] == b[i + 1];
      if RunOf(b, test) == n {
        forall i | 0 <= i < n ensures test(b[i]) {
          assert i == 0 || b[i] == rest[i - 1];
        }
      }
      if forall i :: 0 <= i < n ==> test(b[i]) {
        assert test(b[0]);
      }
    }
  }

  // Each construct at the start of escaped text was at the start of the text, and
  // the position that gives it away was not escaped.
  lemma MarkerWasThere(value: string, lead: nat, positions: set<int>)
    requires lead <= |value|
    requires var f := EscapeFrom(value, lead, positions); IsHeading(f) || IsQuote(f) || IsBullet(f)
    ensures var b := value[lead..]; IsHeading(b) || IsQuote(b) || IsBullet(b)
    ensures lead !in positions
  {
    var f, b := EscapeFrom(value, lead, positions), value[lead..];
    if IsHeading(f) {
      var n := RunOf(f, c => c == '#');
      RunIs(f, c => c == '#', n);
      SameStart(value, lead, positions, n);
      assert forall i :: 0 <= i < n ==> b[i] == b[..n][i] == f[..n][i] == f[i];
      RunIs(b, c => c == '#', n);
    } else {
      assert f[..1] == [f[0]];
      SameStart(value, lead, positions, 1);
      assert b[0] == b[..1][0];
    }
  }

  lemma TaskWasThere(value: string, lead: nat, positions: set<int>)
    requires lead <= |value| && IsTask(EscapeFrom(value, lead, positions))
    ensures IsTask(value[lead..]) && lead !in positions
  {
    var f, b := EscapeFrom(value, lead, positions), value[lead..];
    assert f[..3] == [f[0], f[1], f[2]];
    SameStart(value, lead, positions, 3);
    assert b[..3] == [b[0], b[1], b[2]];
  }

  lemma ThematicBreakWasThere(value: string, lead: nat, positions: set<int>)
    requires lead <= |value| && IsThematicBreak(EscapeFrom(value, lead, positions))
    ensures IsThematicBreak(value[lead..]) && lead !in positions
  {
    var f, b := EscapeFrom(value, lead, positions), value[lead..];
    assert f[..|f|] == f;
    SameStart(value, lead, positions, |f|);
    assert b == f;
  }

  lemma OrderedWasThere(value: string, lead: nat, positions: set<int>)
    requires lead <= |value| && IsOrdered(EscapeFrom(value, lead, positions))
    ensures IsOrdered(value[lead..]) && lead + Digits(value[lead..]) !in positions
  {
    hide EscapeFrom;
    var f, b := EscapeFrom(value, lead, positions), value[lead..];
    var n := Digits(f);
    RunIs(f, c => '0' <= c <= '9', n);
    assert f[..n + 1] == f[..n] + [f[n]];
    SameStart(value, lead, positions, n + 1);
    hide RunOf;
    assert forall i :: 0 <= i < n + 1 ==> b[i] == b[..n + 1][i] == f[..n + 1][i] == f[i];
    RunIs(b, c => '0' <= c <= '9', n);
    assert Digits(b) == n;
  }

  // The program escapes the position that gives each construct away.
  lemma BlocksAreEscaped(value: string)
    ensures var lead := LeadingSpaces(value);
            var b := value[lead..];
            && (IsTask(b) || IsHeading(b) || IsQuote(b) || IsBullet(b) || IsThematicBreak(b) || IsDefinition(b) ==>
                  lead in BlockPositions(value))
            && (IsOrdered(b) ==> lead + Digits(b) in BlockPositions(value))
  {
    var lead := LeadingSpaces(value);
    var b := value[lead..];
    if IsThematicBreak(b) {
      assert lead in CharsAt(value, lead, "-*_");
    }
    if IsOrdered(b) {
      assert '0' <= b[0] <= '9';
      assert !IsHeading(b) && !IsQuote(b) && !IsBullet(b) && !IsThematicBreak(b);
    }
  }

  // However the inline patterns match, an escaped text does not start a heading,
  // a quotation, a list or task item or a thematic break, after any indentation.
  lemma EscapedTextOpensNoBlock(value: string, inline: set<int>)
    ensures var e := Escape(value, inline); !OpensPlainBlock(Block(e))
  {
    hide BlockPositions, IsTask, IsHeading, IsQuote, IsBullet, IsThematicBreak, IsOrdered;
    var positions := BlockPositions(value) + inline;
    var e := Escape(value, inline);
    var block := Block(e);
    var lead := LeadingSpaces(value);
    BlockOfEscape(value, 0, positions);
    assert value[0..] == value;
    BlocksAreEscaped(value);
    if block != [] && block[0] == '\\' {
      BackslashOpensNothing(block);
    } else if IsTask(block) {
      TaskWasThere(value, lead, positions);
    } else if IsHeading(block) || IsQuote(block) || IsBullet(block) {
      MarkerWasThere(value, lead, positions);
    } else if IsThematicBreak(block) {
      ThematicBreakWasThere(value, lead, positions);
    } else if IsOrdered(block) {
      OrderedWasThere(value, lead, positions);
    }
  }

  lemma BackslashOpensNothing(b: string)
    requires b != [] && b[0] == '\\'
    ensures !OpensPlainBlock(b)
  {
  }

  // ---- Link definitions ----

  function OpenOf(b: string): (k: nat)
    ensures k <= |b| && (k < |b| ==> b[k] == '[')
  {
    if b == [] || b[0] == '[' then 0 else 1 + OpenOf(b[1..])
  }

  // Where a link label that starts in front of `s` ends, at the first bracket no
  // backslash stands before (section 4.7 of CommonMark 0.31.2).
  function LabelEnd(s: string): (k: nat)
    ensures k <= |s| && (k < |s| ==> s[k] == '[' || s[k] == ']')
  {
    if s == [] || s[0] == '[' || s[0] == ']' then 0
    else if s[0] == '\\' && |s| > 1 then 2 + LabelEnd(s[2..])
    else 1 + LabelEnd(s[1..])
  }

  predicate OpensDefinition(b: string) {
    && b != [] && b[0] == '['
    && var k := LabelEnd(b[1..]); 1 <= k && k + 1 < |b[1..]| && b[1..][k] == ']' && b[1..][k + 1] == ':'
  }

  // Where the first closing bracket is escaped, the first opening one is.  A match
  // of a link pattern escapes the bracket it starts with, and a search from the left
  // cannot pass an opening bracket by and end at the closing bracket that follows it.
  predicate BracketsPaired(value: string, inline: set<int>) {
    CloseOf(value) < |value| && CloseOf(value) in inline ==> OpenOf(value) in inline
  }

  predicate IsBracket(c: char) {
    c == '[' || c == ']'
  }

  // The first bracket from `from` on that is not escaped.
  function FirstBare(value: string, from: nat, positions: set<int>): (k: nat)
    requires from <= |value|
    ensures from <= k <= |value| && (k < |value| ==> IsBracket(value[k]) && k !in positions)
    ensures forall i :: from <= i < k ==> !IsBracket(value[i]) || i in positions
    decreases |value| - from
  {
    if from == |value| || (IsBracket(value[from]) && from !in positions) then from
    else FirstBare(value, from + 1, positions)
  }

  // The label ends at the same bracket, and the escape goes on there.
  lemma {:induction false} LabelOfEscape(value: string, from: nat, positions: set<int>)
    requires from <= |value|
    ensures var f, k := EscapeFrom(value, from, positions), FirstBare(value, from, positions);
            && f[LabelEnd(f)..] == EscapeFrom(value, k, positions) && (LabelEnd(f) == 0 ==> k == from)
    decreases |value| - from
  {
    var f := EscapeFrom(value, from, positions);
    FirstChar(value, from, positions);
    if from == |value| || (IsBracket(value[from]) && from !in positions) {
      assert LabelEnd(f) == 0 && f[0..] == f;
    } else {
      EscapeUnfolds(value, from, positions);
      LabelOfEscape(value, from + 1, positions);
      hide EscapeFrom;
      LabelGoesOn(value[from], from in positions, EscapeFrom(value, from + 1, positions));
    }
  }

  lemma LabelGoesOn(c: char, escaped: bool, rest: string)
    requires IsBracket(c) ==> escaped
    ensures var one := EscapeOne(c, escaped);
            && LabelEnd(one + rest) == |one| + LabelEnd(rest) && one != []
            && (one + rest)[|one| + LabelEnd(rest)..] == rest[LabelEnd(rest)..]
  {
    var one := EscapeOne(c, escaped);
    assert (one + rest)[|one|..] == rest;
    assert (one + rest)[|one| + LabelEnd(rest)..] == rest[LabelEnd(rest)..];
  }

  // Escaped text starts no link definition, in the words of Markdown.
  lemma EscapedTextDefinesNoLink(value: string, inline: set<int>)
    requires BracketsPaired(value, inline)
    ensures var e := Escape(value, inline); !OpensDefinition(Block(e))
  {
    hide BlockPositions, OpensDefinition, BracketsPaired;
    var positions := BlockPositions(value) + inline;
    var block := Block(Escape(value, inline));
    var lead := LeadingSpaces(value);
    BlockOfEscape(value, 0, positions);
    assert value[0..] == value;
    if OpensDefinition(block) {
      DefinitionStarts(block);
      assert block == EscapeFrom(value, lead, positions);
      FirstChar(value, lead, positions);
      BracketOpensNoBlock(value);
      assert positions == inline;
      DefinitionWasThere(value, inline);
      BlocksAreEscaped(value);
      assert false;
    }
  }

  lemma DefinitionStarts(b: string)
    requires OpensDefinition(b)
    ensures b != [] && b[0] == '['
  {
  }

  lemma BracketOpensNoBlock(value: string)
    requires LeadingSpaces(value) < |value| && value[LeadingSpaces(value)] == '['
    requires LeadingSpaces(value) !in BlockPositions(value)
    ensures BlockPositions(value) == {}
  {
    assert value[LeadingSpaces(value)..][0] == '[';
  }

  lemma DefinitionWasThere(value: string, inline: set<int>)
    requires BracketsPaired(value, inline) && LeadingSpaces(value) !in inline
    requires OpensDefinition(EscapeFrom(value, LeadingSpaces(value), inline))
    ensures IsDefinition(value[LeadingSpaces(value)..])
  {
    hide EscapeFrom, BracketsPaired, LabelEnd;
    var lead := LeadingSpaces(value);
    var f := EscapeFrom(value, lead, inline);
    FirstChar(value, lead, inline);
    EscapeUnfolds(value, lead, inline);
    assert f[1..] == EscapeFrom(value, lead + 1, inline);
    LabelOfEscape(value, lead + 1, inline);
    var k := FirstBare(value, lead + 1, inline);
    var g := f[1..][LabelEnd(f[1..])..];
    assert g[0] == ']' && g[1] == ':' && k > lead + 1;
    BehindBracket(value, k, inline);
    FirstBrackets(value, inline, k);
  }

  // The first closing bracket of a text that starts with an opening one is escaped
  // only with that, so it is the one that ends the label.
  lemma FirstBrackets(value: string, inline: set<int>, k: nat)
    requires BracketsPaired(value, inline)
    requires var lead := LeadingSpaces(value);
             && lead !in inline && lead + 1 < k < |value| - 1 && value[lead] == '[' && value[k] == ']'
             && value[k + 1] == ':' && k == FirstBare(value, lead + 1, inline)
    ensures IsDefinition(value[LeadingSpaces(value)..])
  {
    var lead := LeadingSpaces(value);
    var b := value[lead..];
    IndentedBrackets(value);
    FirstClose(value, k);
    var c := CloseOf(value);
    assert c == k;
    assert b[CloseOf(b)] == value[c] && b[CloseOf(b) + 1] == value[c + 1];
  }

  lemma {:induction false} FirstClose(value: string, k: nat)
    requires k < |value| && value[k] == ']'
    ensures CloseOf(value) <= k
  {
    if value[0] != ']' {
      FirstClose(value[1..], k - 1);
    }
  }

  lemma {:induction false} IndentedBrackets(value: string)
    requires LeadingSpaces(value) < |value| && value[LeadingSpaces(value)] == '['
    ensures OpenOf(value) == LeadingSpaces(value)
    ensures CloseOf(value) == LeadingSpaces(value) + CloseOf(value[LeadingSpaces(value)..]) > LeadingSpaces(value)
  {
    if value[0] == ' ' {
      var rest := value[1..];
      IndentedBrackets(rest);
      assert value[LeadingSpaces(value)..] == rest[LeadingSpaces(rest)..];
    } else {
      assert value[0..] == value;
    }
  }

  // The character behind an unescaped closing bracket.
  lemma BehindBracket(value: string, close: nat, positions: set<int>)
    requires close <= |value|
    requires var g := EscapeFrom(value, close, positions); |g| > 1 && g[0] == ']' && g[1] == ':'
    ensures close + 1 < |value| && value[close] == ']' && value[close + 1] == ':'
  {
    hide EscapeFrom;
    FirstChar(value, close, positions);
    EscapeUnfolds(value, close, positions);
    FirstChar(value, close + 1, positions);
  }
}
