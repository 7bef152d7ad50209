/**
  What the append-only audit log says about one request: the transition events
  that name it, adjacent repeats collapsed.  Recovery appends an event again when
  a crash separated the append from the clearing of the marker, so repeats are
  part of the design (src/agent_container/family_pending.py:1044-1049).
 */
module AuditTrail {
  import opened Wrappers
  import opened PendingRecord

  predicate Tells(e: Event, id: string) {
    e.request == id && Target(e).Some?
  }

  // The transition events of request `id`, repeats included.
  function Trail(audit: seq<Event>, id: string): seq<Event> {
    if audit == [] then []
    else
      var e := audit[|audit| - 1];
      var t := Trail(audit[..|audit| - 1], id);
      if Tells(e, id) then t + [e] else t
  }

  function Collapse(t: seq<Event>): seq<Event> {
    if t == [] then [] else Join(Collapse(t[..|t| - 1]), t[|t| - 1])
  }

  function Join(c: seq<Event>, e: Event): seq<Event> {
    if c != [] && c[|c| - 1] == e then c else c + [e]
  }

  function Told(audit: seq<Event>, id: string): seq<Event> {
    Collapse(Trail(audit, id))
  }

  lemma {:induction false} ToldAppend(audit: seq<Event>, e: Event, id: string)
    ensures Told(audit + [e], id) == if Tells(e, id) then Join(Told(audit, id), e) else Told(audit, id)
  {
    assert (audit + [e])[..|audit|] == audit;
    var t := Trail(audit, id);
    if Tells(e, id) {
      assert Trail(audit + [e], id) == t + [e];
      assert (t + [e])[..|t|] == t;
    }
  }

  // A request no event names has no trail.
  lemma {:induction false} ToldNothing(audit: seq<Event>, id: string)
    requires forall i :: 0 <= i < |audit| ==> !Tells(audit[i], id)
    ensures Told(audit, id) == []
  {
    if audit != [] {
      ToldNothing(audit[..|audit| - 1], id);
      assert !Tells(audit[|audit| - 1], id);
      TrailOfToldNothing(audit[..|audit| - 1], id);
    }
  }

  lemma TrailOfToldNothing(audit: seq<Event>, id: string)
    requires Told(audit, id) == []
    ensures Trail(audit, id) == []
  {
  }

  // ---- Histories: the transitions a request really made ----

  // A request is taken in once and then follows the transition table.
  predicate Lawful(h: seq<Event>) {
    && h != [] && h[0].operation.Intake? && Target(h[0]) == Some(Pending)
    && forall i :: 0 < i < |h| ==> Follows(h, i)
  }

  predicate Follows(h: seq<Event>, i: int)
    requires 0 < i < |h|
  {
    && !h[i].operation.Intake? && Target(h[i - 1]).Some? && Target(h[i]).Some?
    && Allowed(Target(h[i - 1]).value, Target(h[i]).value)
  }

  function LastTarget(h: seq<Event>): Option<State>
    requires h != []
  {
    Target(h[|h| - 1])
  }

  // Adjacent transitions reach different states, so collapsing repeats of a
  // history would lose nothing.
  lemma LawfulNeverRepeats(h: seq<Event>, i: int)
    requires Lawful(h) && 0 < i < |h|
    ensures h[i - 1] != h[i]
  {
    assert Follows(h, i);
  }

  predicate IsRelease(e: Event) {
    e.operation.ResolveNotCreated? && e.status == Reached(Pending)
  }

  predicate IsSend(e: Event) {
    e.operation.Approve? && e.status == Reached(Sending)
  }

  // How often an operator declared that no Issue had been created.
  function Releases(h: seq<Event>): nat {
    if h == [] then 0
    else Releases(h[..|h| - 1]) + if IsRelease(h[|h| - 1]) then 1 else 0
  }

  lemma ReleasesAppend(h: seq<Event>, e: Event)
    ensures Releases(h + [e]) == Releases(h) + if IsRelease(e) then 1 else 0
  {
    assert (h + [e])[..|h|] == h;
  }
}
