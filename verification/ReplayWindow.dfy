/**
  The replay window of the egress broker: a highest number and a bit mask that
  stand for the set of all numbers accepted so far
  (src/agent_container/egress_broker.py:37-38, 132-171; egress_adapter.py:48-58).
 */
module ReplayWindow {
  import opened Wrappers

  const MAX_SEQUENCE := 0x7fff_ffff_ffff_ffff

  // ---- Bit operations on unbounded integers ----

  function Bit(m: nat, i: nat): bool {
    if i == 0 then m % 2 == 1 else Bit(m / 2, i - 1)
  }

  function Shl(m: nat, a: nat): nat {
    if a == 0 then m else 2 * Shl(m, a - 1)
  }

  function BitOr(a: nat, b: nat): nat
    decreases a + b
  {
    if a == 0 then b else if b == 0 then a
    else 2 * BitOr(a / 2, b / 2) + if a % 2 == 1 || b % 2 == 1 then 1 else 0
  }

  function BitAnd(a: nat, b: nat): nat
    decreases a + b
  {
    if a == 0 || b == 0 then 0
    else 2 * BitAnd(a / 2, b / 2) + if a % 2 == 1 && b % 2 == 1 then 1 else 0
  }

  // (1 << window) - 1
  function Mask(window: nat): nat {
    if window == 0 then 0 else 2 * Mask(window - 1) + 1
  }

  lemma {:induction false} ZeroBit(i: nat)
    ensures !Bit(0, i)
  {
    if i > 0 {
      ZeroBit(i - 1);
    }
  }

  lemma {:induction false} ShlBit(m: nat, a: nat, i: nat)
    ensures Bit(Shl(m, a), i) <==> i >= a && Bit(m, i - a)
    decreases a
  {
    if a > 0 && i > 0 {
      assert Shl(m, a) / 2 == Shl(m, a - 1);
      ShlBit(m, a - 1, i - 1);
    }
  }

  lemma {:induction false} OneBit(k: nat, i: nat)
    ensures Bit(Shl(1, k), i) <==> i == k
  {
    ShlBit(1, k, i);
    if i > k {
      ZeroBit(i - k - 1);
    }
  }

  lemma HalfAndRest(q: nat, odd: bool)
    ensures var n := 2 * q + if odd then 1 else 0; n / 2 == q && (n % 2 == 1 <==> odd)
  {
  }

  lemma {:induction false} OrBit(a: nat, b: nat, i: nat)
    ensures Bit(BitOr(a, b), i) <==> Bit(a, i) || Bit(b, i)
    decreases i
  {
    if a == 0 || b == 0 {
      ZeroBit(i);
    } else {
      HalfAndRest(BitOr(a / 2, b / 2), a % 2 == 1 || b % 2 == 1);
    }
    if a != 0 && b != 0 && i > 0 {
      OrBit(a / 2, b / 2, i - 1);
    }
  }

  lemma {:induction false} AndBit(a: nat, b: nat, i: nat)
    ensures Bit(BitAnd(a, b), i) <==> Bit(a, i) && Bit(b, i)
    decreases i
  {
    if a == 0 || b == 0 {
      ZeroBit(i);
    } else {
      HalfAndRest(BitAnd(a / 2, b / 2), a % 2 == 1 && b % 2 == 1);
    }
    if a != 0 && b != 0 && i > 0 {
      AndBit(a / 2, b / 2, i - 1);
    }
  }

  lemma {:induction false} MaskBit(window: nat, i: nat)
    ensures Bit(Mask(window), i) <==> i < window
    decreases i
  {
    if window == 0 {
      ZeroBit(i);
    } else if i > 0 {
      assert Mask(window) / 2 == Mask(window - 1);
      MaskBit(window - 1, i - 1);
    }
  }

  // A number with a set bit is not zero, and the only other number is zero.
  lemma {:induction false} TestBit(m: nat, k: nat)
    ensures BitAnd(m, Shl(1, k)) != 0 <==> Bit(m, k)
  {
    if Bit(m, k) {
      AndBit(m, Shl(1, k), k);
      OneBit(k, k);
      ZeroBit(k);
    } else {
      forall i: nat ensures !Bit(BitAnd(m, Shl(1, k)), i) {
        AndBit(m, Shl(1, k), i);
        OneBit(k, i);
      }
      NoBits(BitAnd(m, Shl(1, k)));
    }
  }

  lemma {:induction false} NoBits(m: nat)
    requires forall i: nat :: !Bit(m, i)
    ensures m == 0
  {
    if m != 0 {
      assert !Bit(m, 0);
      forall i: nat ensures !Bit(m / 2, i) {
        assert !Bit(m, i + 1);
      }
      NoBits(m / 2);
    }
  }

  // ---- The window and the set it stands for ----

  // Exactly the numbers at most `window - 1` below the highest are remembered.
  ghost predicate Represents(window: nat, highest: nat, seen: nat, accepted: set<int>) {
    && (forall s :: s in accepted ==> 1 <= s <= highest)
    && (highest > 0 ==> highest in accepted)
    && (forall i: nat :: Bit(seen, i) <==> i < window && i < highest && highest - i in accepted)
  }

  // A number the plain set accepts: not seen before, and not too far behind.
  predicate Fresh(window: nat, highest: nat, accepted: set<int>, s: nat) {
    s !in accepted && highest < s + window
  }

  function Advanced(window: nat, seen: nat, advance: nat): nat {
    if advance >= window then 1 else BitAnd(BitOr(Shl(seen, advance), 1), Mask(window))
  }

  lemma AdvancedBit(window: nat, seen: nat, advance: nat, i: nat)
    requires advance > 0 && window > 0
    ensures Bit(Advanced(window, seen, advance), i) <==>
              i == 0 || (advance < window && i < window && i >= advance && Bit(seen, i - advance))
  {
    OneBit(0, i);
    if advance < window {
      AndBit(BitOr(Shl(seen, advance), 1), Mask(window), i);
      OrBit(Shl(seen, advance), 1, i);
      ShlBit(seen, advance, i);
      MaskBit(window, i);
    }
  }

  // A number above the highest shifts the window, however far it jumps.
  lemma AdvanceRepresents(window: nat, highest: nat, seen: nat, accepted: set<int>, s: nat)
    requires window > 0 && Represents(window, highest, seen, accepted) && s > highest
    ensures Fresh(window, highest, accepted, s)
    ensures Represents(window, s, Advanced(window, seen, s - highest), accepted + {s})
  {
    var m := Advanced(window, seen, s - highest);
    forall i: nat ensures Bit(m, i) <==> i < window && i < s && s - i in accepted + {s}
    {
      AdvancedBit(window, seen, s - highest, i);
    }
  }

  lemma MarkRepresents(window: nat, highest: nat, seen: nat, accepted: set<int>, s: nat)
    requires Represents(window, highest, seen, accepted) && 1 <= s <= highest && highest - s < window
    ensures Represents(window, highest, BitOr(seen, Shl(1, highest - s)), accepted + {s})
  {
    var m := BitOr(seen, Shl(1, highest - s));
    forall i: nat ensures Bit(m, i) <==> i < window && i < highest && highest - i in accepted + {s}
    {
      OrBit(seen, Shl(1, highest - s), i);
      OneBit(highest - s, i);
    }
  }

  // ---- The session ----

  datatype Request = Request(version: int, capability: string, project: string, sequence: int,
                             operation: string, domain: string, port: int)

  datatype Verdict = Authorized(domain: string) | PolicyDenied | AuthenticationDenied

  class EgressBrokerSession {
    const window: nat
    const ownerUid: int
    const project: string
    const allowedDomains: set<string>
    var capability: string
    var highestSequence: nat
    var seenSequences: nat
    var closed: bool
    ghost var accepted: set<int>

    ghost predicate Valid()
      reads this
    {
      window > 0 && Represents(window, highestSequence, seenSequences, accepted)
    }

    constructor (window: nat, ownerUid: int, project: string, allowedDomains: set<string>, capability: string)
      requires window > 0
      ensures Valid() && accepted == {} && highestSequence == 0 && !closed
      ensures this.window == window && this.ownerUid == ownerUid && this.project == project
      ensures this.allowedDomains == allowedDomains && this.capability == capability
    {
      this.window, this.ownerUid, this.project := window, ownerUid, project;
      this.allowedDomains, this.capability := allowedDomains, capability;
      highestSequence, seenSequences, closed, accepted := 0, 0, false, {};
      new;
      forall i: nat ensures !Bit(0, i) {
        ZeroBit(i);
      }
    }

    // The number is taken exactly when the request is authentic, its number in range,
    // new and less than the window below the highest, whatever the policy says then.
    method Authorize(request: Request, peerUid: int) returns (r: Verdict)
      requires Valid()
      modifies this`highestSequence, this`seenSequences, this`accepted
      ensures Valid()
      ensures var s := request.sequence;
              var taken := && !closed && peerUid == ownerUid && request.version == 1
                           && request.capability == capability && request.project == project
                           && 1 <= s <= 0x7fff_ffff_ffff_ffff
                           && s !in old(accepted) && old(highestSequence) < s + window;
              && (r.AuthenticationDenied? <==> !taken)
              && (r.Authorized? <==>
                    taken && request.operation == "connect" && request.port == 443 && request.domain in allowedDomains)
              && (r.Authorized? ==> r.domain == request.domain)
              && accepted == old(accepted) + (if taken then {s} else {})
              && highestSequence == (if taken && s > old(highestSequence) then s else old(highestSequence))
              && (!taken ==> seenSequences == old(seenSequences))
      ensures !closed && peerUid == ownerUid && request.version == 1 && request.capability == capability
              && request.project == project && 1 <= request.sequence <= MAX_SEQUENCE ==>
                (Window(highestSequence, seenSequences), !r.AuthenticationDenied?)
                == Offer(window, Window(old(highestSequence), old(seenSequences)), request.sequence)
    {
      if closed || peerUid != ownerUid || request.version != 1 || request.capability != capability
         || request.project != project
      {
        return AuthenticationDenied;
      }
      var sequence := request.sequence;
      if !(1 <= sequence <= MAX_SEQUENCE) {
        return AuthenticationDenied;
      }
      if sequence > highestSequence {
        var advance := sequence - highestSequence;
        AdvanceRepresents(window, highestSequence, seenSequences, accepted, sequence);
        seenSequences := if advance >= window then 1 else BitAnd(BitOr(Shl(seenSequences, advance), 1), Mask(window));
        highestSequence := sequence;
      } else {
        var age := highestSequence - sequence;
        TestBit(seenSequences, age);
        if age >= window || BitAnd(seenSequences, Shl(1, age)) != 0 {
          return AuthenticationDenied;
        }
        MarkRepresents(window, highestSequence, seenSequences, accepted, sequence);
        seenSequences := BitOr(seenSequences, Shl(1, age));
      }
      accepted := accepted + {sequence};
      if request.operation != "connect" || request.port != 443 {
        return PolicyDenied;
      }
      if request.domain !in allowedDomains {
        return PolicyDenied;
      }
      return Authorized(request.domain);
    }

    method Deactivate()
      modifies this`closed, this`capability
      ensures closed && capability == ""
    {
      closed := true;
      capability := "";
    }

    // Any run of requests, with a deactivation before the one numbered `end`: whatever
    // is authorized is on the list, no number is taken twice, and nothing after the end.
    method AuthorizeEach(requests: seq<Request>, peers: seq<int>, end: nat) returns (verdicts: seq<Verdict>)
      requires Valid() && |peers| == |requests|
      modifies this`highestSequence, this`seenSequences, this`accepted, this`closed, this`capability
      ensures Valid() && |verdicts| == |requests|
      ensures forall i :: 0 <= i < |verdicts| && verdicts[i].Authorized? ==>
                && verdicts[i].domain == requests[i].domain && requests[i].domain in allowedDomains
                && requests[i].port == 443 && requests[i].operation == "connect" && peers[i] == ownerUid
      ensures forall i, j :: 0 <= i < j < |verdicts| && requests[i].sequence == requests[j].sequence ==>
                verdicts[i].AuthenticationDenied? || verdicts[j].AuthenticationDenied?
      ensures forall i :: end <= i < |verdicts| ==> verdicts[i].AuthenticationDenied?
    {
      verdicts := [];
      for k := 0 to |requests|
        invariant Valid() && |verdicts| == k
        invariant forall i :: 0 <= i < k && verdicts[i].Authorized? ==>
                    && verdicts[i].domain == requests[i].domain && requests[i].domain in allowedDomains
                    && requests[i].port == 443 && requests[i].operation == "connect" && peers[i] == ownerUid
        invariant forall i :: 0 <= i < k && !verdicts[i].AuthenticationDenied? ==> requests[i].sequence in accepted
        invariant forall i, j :: 0 <= i < j < k && requests[i].sequence == requests[j].sequence ==>
                    verdicts[i].AuthenticationDenied? || verdicts[j].AuthenticationDenied?
        invariant k > end ==> closed
        invariant forall i :: end <= i < k ==> verdicts[i].AuthenticationDenied?
      {
        if k == end {
          Deactivate();
        }
        var verdict := Authorize(requests[k], peers[k]);
        verdicts := verdicts + [verdict];
      }
    }
  }

  // ---- Whole runs: any sequence of authenticated numbers ----

  datatype Window = Window(highest: nat, seen: nat)

  // One authenticated number offered to the window, as `Authorize` treats it.
  function Offer(window: nat, w: Window, s: nat): (Window, bool) {
    if s > w.highest then (Window(s, Advanced(window, w.seen, s - w.highest)), true)
    else
      var age := w.highest - s;
      if age >= window || BitAnd(w.seen, Shl(1, age)) != 0 then (w, false)
      else (Window(w.highest, BitOr(w.seen, Shl(1, age))), true)
  }

  function After(window: nat, numbers: seq<nat>): Window {
    if numbers == [] then Window(0, 0)
    else Offer(window, After(window, numbers[..|numbers| - 1]), numbers[|numbers| - 1]).0
  }

  // Whether the k-th number of the run was accepted.
  predicate WasAccepted(window: nat, numbers: seq<nat>, k: nat)
    requires k < |numbers|
  {
    Offer(window, After(window, numbers[..k]), numbers[k]).1
  }

  ghost function AcceptedIn(window: nat, numbers: seq<nat>): set<int> {
    set k | 0 <= k < |numbers| && WasAccepted(window, numbers, k) :: numbers[k]
  }

  lemma AcceptedInGrows(window: nat, numbers: seq<nat>)
    requires numbers != []
    ensures var n := |numbers| - 1;
            AcceptedIn(window, numbers)
            == AcceptedIn(window, numbers[..n]) + if WasAccepted(window, numbers, n) then {numbers[n]} else {}
  {
    var n := |numbers| - 1;
    var before := numbers[..n];
    forall k | 0 <= k < n ensures WasAccepted(window, before, k) == WasAccepted(window, numbers, k) {
      assert before[..k] == numbers[..k];
    }
  }

  // The mask refines the set: over any run it accepts exactly the fresh numbers.
  lemma {:induction false} RunRepresents(window: nat, numbers: seq<nat>)
    requires window > 0 && forall k :: 0 <= k < |numbers| ==> numbers[k] >= 1
    ensures var w := After(window, numbers);
            Represents(window, w.highest, w.seen, AcceptedIn(window, numbers))
    decreases |numbers|
  {
    if numbers == [] {
      forall i: nat ensures !Bit(0, i) {
        ZeroBit(i);
      }
    } else {
      var before := numbers[..|numbers| - 1];
      var s := numbers[|numbers| - 1];
      RunRepresents(window, before);
      AcceptedInGrows(window, numbers);
      OfferRepresents(window, After(window, before), AcceptedIn(window, before), s);
    }
  }

  lemma OfferRepresents(window: nat, w: Window, accepted: set<int>, s: nat)
    requires window > 0 && s >= 1 && Represents(window, w.highest, w.seen, accepted)
    ensures var (v, ok) := Offer(window, w, s);
            && (ok <==> Fresh(window, w.highest, accepted, s))
            && Represents(window, v.highest, v.seen, accepted + if ok then {s} else {})
  {
    if s > w.highest {
      AdvanceRepresents(window, w.highest, w.seen, accepted, s);
    } else {
      TestBit(w.seen, w.highest - s);
      if w.highest - s < window {
        MarkRepresents(window, w.highest, w.seen, accepted, s);
      }
      assert accepted + {} == accepted;
    }
  }

  // No number is ever accepted twice.
  lemma NeverTwice(window: nat, numbers: seq<nat>, i: nat, j: nat)
    requires window > 0 && forall k :: 0 <= k < |numbers| ==> numbers[k] >= 1
    requires i < j < |numbers| && WasAccepted(window, numbers, i) && numbers[i] == numbers[j]
    ensures !WasAccepted(window, numbers, j)
  {
    var before := numbers[..j];
    RunRepresents(window, before);
    assert before[..i] == numbers[..i];
    assert WasAccepted(window, before, i) && before[i] == numbers[j];
    var w := After(window, before);
    OfferRepresents(window, w, AcceptedIn(window, before), numbers[j]);
  }

  // A number that arrives for the first time while the highest accepted number
  // is less than `window` above it is accepted.
  lemma FirstInTime(window: nat, numbers: seq<nat>, k: nat)
    requires window > 0 && (forall i :: 0 <= i < |numbers| ==> numbers[i] >= 1) && k < |numbers|
    requires forall i :: 0 <= i < k ==> numbers[i] != numbers[k] && numbers[i] < numbers[k] + window
    ensures WasAccepted(window, numbers, k)
  {
    var before := numbers[..k];
    RunRepresents(window, before);
    var w := After(window, before);
    var accepted := AcceptedIn(window, before);
    assert forall s :: s in accepted ==> s in before;
    OfferRepresents(window, w, accepted, numbers[k]);
  }

  // ---- The adapter's numbers ----

  class EgressSequence {
    var value: nat

    constructor ()
      ensures value == 0
    {
      value := 0;
    }

    method Next() returns (r: Option<nat>)
      modifies this
      ensures if old(value) >= MAX_SEQUENCE then r.None? && value == old(value)
              else value == old(value) + 1 && r == Some(value)
    {
      if value >= MAX_SEQUENCE {
        return None;
      }
      value := value + 1;
      return Some(value);
    }
  }

  // The numbers of the first `n` calls.
  method Issue(sequence: EgressSequence, n: nat) returns (issued: seq<nat>)
    requires sequence.value == 0 && n <= MAX_SEQUENCE
    modifies sequence
    ensures |issued| == n && forall k :: 0 <= k < n ==> issued[k] == k + 1
  {
    issued := [];
    while |issued| < n
      invariant |issued| <= n && sequence.value == |issued|
      invariant forall k :: 0 <= k < |issued| ==> issued[k] == k + 1
    {
      var s := sequence.Next();
      issued := issued + [s.value];
    }
  }

  function FirstIndex(numbers: seq<nat>, s: nat): (k: nat)
    requires s in numbers
    ensures k < |numbers| && numbers[k] == s && forall i :: 0 <= i < k ==> numbers[i] != s
  {
    if numbers[0] == s then 0 else 1 + FirstIndex(numbers[1..], s)
  }

  // Every number arrives for the first time before the window leaves it behind.
  predicate InTime(window: nat, delivered: seq<nat>) {
    forall i, k :: 0 <= i < k < |delivered| && FirstIndex(delivered, delivered[k]) == k ==>
      delivered[i] < delivered[k] + window
  }

  // Deliver numbers of one adapter in any order, with any repeats, but each for
  // the first time before the window has left it behind: exactly one delivery
  // of each number is accepted, the first.
  lemma EachAcceptedOnce(window: nat, delivered: seq<nat>, s: nat, j: nat)
    requires window > 0 && forall i :: 0 <= i < |delivered| ==> delivered[i] >= 1
    requires InTime(window, delivered) && s in delivered && j < |delivered| && delivered[j] == s
    ensures WasAccepted(window, delivered, j) <==> j == FirstIndex(delivered, s)
  {
    var k := FirstIndex(delivered, s);
    FirstInTime(window, delivered, k);
    if j != k {
      NeverTwice(window, delivered, k, j);
    }
  }
}
