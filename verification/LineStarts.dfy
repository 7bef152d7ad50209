/**
  The forms at the start of a line for which the escaping looks, said by positions, and
  exactly which positions it chooses for them
  (src/agent_container/family_issue.py:34, 83-118).
 */
module LineStarts {
  import opened MarkdownLiteral

  ghost predicate EndsIn(b: string, k: int)
    requires 0 <= k {
    k == |b| || (k < |b| && b[k] == ' ')
  }

  ghost predicate Task(b: string) {
    |b| >= 3 && b[0] == '[' && (b[1] == ' ' || b[1] == 'x' || b[1] == 'X') && b[2] == ']' && EndsIn(b, 3)
  }

  // A label without brackets to close, in brackets, and a colon behind the one at `k`.
  ghost predicate Definition(b: string, k: int) {
    2 <= k < |b| - 1 && b[0] == '[' && b[k] == ']' && b[k + 1] == ':' && forall i :: 0 < i < k ==> b[i] != ']'
  }

  // One to six number signs.
  ghost predicate Heading(b: string, n: int) {
    1 <= n <= 6 && n <= |b| && EndsIn(b, n) && forall i :: 0 <= i < n ==> b[i] == '#'
  }

  ghost predicate Quote(b: string) {
    b != [] && b[0] == '>' && EndsIn(b, 1)
  }

  ghost predicate Bullet(b: string) {
    b != [] && (b[0] == '-' || b[0] == '+' || b[0] == '*') && EndsIn(b, 1)
  }

  // A mark, the same mark at two more places, and otherwise spaces.
  ghost predicate Break(b: string) {
    && b != [] && (b[0] == '-' || b[0] == '*' || b[0] == '_')
    && (forall i :: 0 <= i < |b| ==> b[i] == b[0] || b[i] == ' ')
    && exists j, k :: 0 < j < k < |b| && b[j] == b[0] && b[k] == b[0]
  }

  // One to nine digits up to a full stop or a parenthesis at `n`.
  ghost predicate Ordered(b: string, n: int) {
    && 1 <= n <= 9 && n < |b| && (forall i :: 0 <= i < n ==> '0' <= b[i] <= '9')
    && (b[n] == '.' || b[n] == ')') && EndsIn(b, n + 1)
  }

  lemma {:induction false} RunIs(b: string, test: char -> bool)
    ensures var n := RunOf(b, test);
            && (forall i :: 0 <= i < n ==> test(b[i])) && (n < |b| ==> !test(b[n]))
  {
    if b != [] && test(b[0]) {
      RunIs(b[1..], test);
    }
  }

  lemma HeadingIs(b: string)
    ensures IsHeading(b) <==> exists n :: Heading(b, n)
  {
    RunIs(b, c => c == '#');
    hide RunOf;
    assert IsHeading(b) ==> Heading(b, RunOf(b, c => c == '#'));
  }

  lemma OrderedIs(b: string, n: int)
    ensures IsOrdered(b) && n == Digits(b) <==> Ordered(b, n)
  {
    RunIs(b, c => '0' <= c <= '9');
    hide RunOf;
  }

  lemma {:induction false} CloseIs(b: string)
    ensures forall i :: 0 <= i < CloseOf(b) ==> b[i] != ']'
  {
    if b != [] && b[0] != ']' {
      CloseIs(b[1..]);
    }
  }

  lemma DefinitionIs(b: string, k: int)
    ensures IsDefinition(b) && k == CloseOf(b) <==> Definition(b, k)
  {
    CloseIs(b);
    hide CloseOf;
    if Definition(b, k) {
      assert CloseOf(b) >= k;
    }
  }

  lemma {:induction false} CountIs(b: string, c: char)
    ensures Count(b, c) >= 1 <==> exists i :: 0 <= i < |b| && b[i] == c
    ensures Count(b, c) >= 2 <==> exists i, j :: 0 <= i < j < |b| && b[i] == c && b[j] == c
  {
    if b != [] {
      CountIs(b[1..], c);
      assert forall i :: 0 < i < |b| ==> b[i] == b[1..][i - 1];
    }
  }

  lemma BreakIs(b: string)
    ensures IsThematicBreak(b) <==> Break(b)
  {
    if b != [] {
      CountIs(b[1..], b[0]);
      assert forall i :: 0 < i < |b| ==> b[i] == b[1..][i - 1];
    }
  }

  // The positions that are chosen for what a line starts with, behind `lead` spaces.
  lemma PositionsAre(value: string, lead: nat, i: int)
    requires lead <= |value| && (forall j :: 0 <= j < lead ==> value[j] == ' ')
    requires lead == |value| || value[lead] != ' '
    ensures var b := value[lead..];
            i in BlockPositions(value) <==>
              || (Task(b) && (i == lead || i == lead + 2))
              || ((exists k :: Definition(b, k)) && i == lead)
              || Definition(b, i - lead) || Definition(b, i - lead - 1)
              || ((Quote(b) || Bullet(b) || exists n :: Heading(b, n)) && i == lead)
              || (Break(b) && !Bullet(b) && lead <= i < |value| && value[i] != ' ')
              || Ordered(b, i - lead)
  {
    LeadIs(value, lead);
    var b := value[lead..];
    FormsAre(b);
    ChosenFor(value, lead, i);
    hide IsTask, IsQuote, IsBullet, IsHeading, IsOrdered, IsThematicBreak, IsDefinition, Digits, CloseOf,
         BlockPositions, Task, Quote, Bullet, Heading, Ordered, Definition, Break;
    assert Definition(b, CloseOf(b)) <==> IsDefinition(b);
    assert lead <= i < |value| ==> value[i] == b[i - lead];
  }

  lemma ChosenFor(value: string, lead: nat, i: int)
    requires LeadingSpaces(value) == lead
    ensures var b := value[lead..];
            i in BlockPositions(value) <==>
              || (IsTask(b) && (i == lead || i == lead + 2))
              || (IsDefinition(b) && (i == lead || i == lead + CloseOf(b) || i == lead + CloseOf(b) + 1))
              || ((IsHeading(b) || IsQuote(b) || IsBullet(b)) && i == lead)
              || (IsThematicBreak(b) && !IsBullet(b) && lead <= i < |value| && value[i] in "-*_")
              || (IsOrdered(b) && i == lead + Digits(b))
  {
    hide *;
    BlockUnfolds(value, lead);
    RuleFor(value, lead, i);
  }

  // What is chosen for the rules of which at most one applies.
  ghost function RulePositions(value: string, lead: nat): set<int>
    requires lead <= |value|
  {
    var b := value[lead..];
    if IsHeading(b) || IsQuote(b) then {lead}
    else if IsBullet(b) then {lead} + if "---" <= b || "***" <= b then CharsAt(value, lead, "-*") else {}
    else if IsThematicBreak(b) then CharsAt(value, lead, "-*_")
    else if IsOrdered(b) then {lead + Digits(b)}
    else {}
  }

  lemma BlockUnfolds(value: string, lead: nat)
    requires LeadingSpaces(value) == lead
    ensures var b := value[lead..];
            BlockPositions(value)
            == (if IsTask(b) then {lead, lead + 2} else {})
               + (if IsDefinition(b) then {lead, lead + CloseOf(b), lead + CloseOf(b) + 1} else {})
               + RulePositions(value, lead)
  {
    hide LeadingSpaces, IsTask, IsQuote, IsBullet, IsHeading, IsOrdered, IsThematicBreak, IsDefinition, Digits, CloseOf,
         CharsAt;
  }

  lemma RuleFor(value: string, lead: nat, i: int)
    requires lead <= |value|
    ensures var b := value[lead..];
            i in RulePositions(value, lead) <==>
              || ((IsHeading(b) || IsQuote(b) || IsBullet(b)) && i == lead)
              || (IsThematicBreak(b) && !IsBullet(b) && lead <= i < |value| && value[i] in "-*_")
              || (IsOrdered(b) && i == lead + Digits(b))
  {
    AtMostOne(value[lead..]);
    hide IsQuote, IsBullet, IsHeading, IsOrdered, IsThematicBreak, Digits;
  }

  lemma FormsAre(b: string)
    ensures IsTask(b) <==> Task(b)
    ensures IsQuote(b) <==> Quote(b)
    ensures IsBullet(b) <==> Bullet(b)
    ensures IsHeading(b) <==> exists n :: Heading(b, n)
    ensures IsThematicBreak(b) <==> Break(b)
    ensures forall k :: Definition(b, k) <==> IsDefinition(b) && k == CloseOf(b)
    ensures forall n :: Ordered(b, n) <==> IsOrdered(b) && n == Digits(b)
    ensures Break(b) && !Bullet(b) ==> forall i :: 0 <= i < |b| ==> (b[i] in "-*_" <==> b[i] != ' ')
  {
    HeadingIs(b);
    BreakIs(b);
    forall n { OrderedIs(b, n); }
    forall k { DefinitionIs(b, k); }
    hide RunOf, Count, CloseOf;
  }

  lemma AtMostOne(b: string)
    ensures IsOrdered(b) ==> !IsHeading(b) && !IsQuote(b) && !IsBullet(b) && !IsThematicBreak(b)
    ensures IsThematicBreak(b) ==> !IsHeading(b) && !IsQuote(b)
    ensures IsBullet(b) ==> !IsHeading(b) && !IsQuote(b) && !("---" <= b) && !("***" <= b)
  {
    RunIs(b, c => c == '#');
    RunIs(b, c => '0' <= c <= '9');
    hide RunOf, Count, CloseOf;
    if "---" <= b || "***" <= b {
      assert b[..3][1] == b[1];
    }
  }

  lemma {:induction false} LeadIs(value: string, lead: nat)
    requires lead <= |value| && (forall j :: 0 <= j < lead ==> value[j] == ' ')
    requires lead == |value| || value[lead] != ' '
    ensures LeadingSpaces(value) == lead
  {
    if lead > 0 {
      LeadIs(value[1..], lead - 1);
    }
  }
}
