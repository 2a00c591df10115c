/** The record of moderators' decisions, over every run. */
module TrailLaws {
  import opened Wrappers
  import opened Text
  import opened Platform
  import opened ReviewLaws

  /** The rows a step adds to the record. */
  function RowsOf(s: State, e: TimedEvent): seq<Decision> {
    match e.event
    case Moderate(u, id, action, note) =>
      if id in s.reviews && Decides(s, e, id) then [Decision(id, u, action, s.reviews[id].status, note)] else []
    case _ => []
  }

  /** The record after a run. */
  function Trail(start: State, events: seq<TimedEvent>): seq<Decision> {
    if events == [] then []
    else
      var front := events[..|events| - 1];
      Trail(start, front) + RowsOf(Run(start, front), events[|events| - 1])
  }

  /** Whatever happens after, edits, deletions and closures included, the record keeps its rows. */
  lemma {:induction false} TrailGrows(start: State, events: seq<TimedEvent>, k: nat)
    requires k <= |events|
    ensures Trail(start, events[..k]) <= Trail(start, events)
  {
    if k == |events| {
      assert events[..k] == events;
    } else {
      var front := events[..|events| - 1];
      assert front[..k] == events[..k];
      TrailGrows(start, front, k);
    }
  }

  // ------------------------------------------------------- every row is true

  /** The row tells what an administrator decided, of which review, and gives a reason for a refusal. */
  ghost predicate Truthful(s: State, e: TimedEvent, d: Decision) {
    && e.event.Moderate? && e.event.review == d.review && e.event.user == d.moderator
    && e.event.action == d.action && e.event.note == d.note
    && d.review in s.reviews && s.reviews[d.review].status == d.previous
    && Acting(s.users, d.moderator) && IsAdmin(s.users, d.moderator)
    && d.review in Step(s, e).0.reviews && Action(d.action) == Some(Step(s, e).0.reviews[d.review].status)
    && (d.action == "approve" || Strip(d.note.GetOr("")) != "")
  }

  lemma RowIsTruthful(s: State, e: TimedEvent, d: Decision)
    requires d in RowsOf(s, e)
    ensures Truthful(s, e, d)
  {
  }

  ghost predicate TruthfulAt(start: State, events: seq<TimedEvent>, k: nat, d: Decision) {
    k < |events| && Truthful(Run(start, events[..k]), events[k], d)
  }

  lemma {:induction false} RowsAreTruthful(start: State, events: seq<TimedEvent>, i: nat) returns (k: nat)
    requires i < |Trail(start, events)|
    ensures TruthfulAt(start, events, k, Trail(start, events)[i])
  {
    var front, last := events[..|events| - 1], events[|events| - 1];
    var before, rows := Trail(start, front), RowsOf(Run(start, front), last);
    if i < |before| {
      k := RowsAreTruthful(start, front, i);
      assert front[..k] == events[..k] && front[k] == events[k];
    } else {
      k := |front|;
      RowIsTruthful(Run(start, front), last, rows[i - |before|]);
    }
  }

  // -------------------------------------------- every status is accounted for

  /** The last row about a review. */
  function LastRow(trail: seq<Decision>, id: nat): Option<Decision> {
    if trail == [] then None
    else if trail[|trail| - 1].review == id then Some(trail[|trail| - 1])
    else LastRow(trail[..|trail| - 1], id)
  }

  lemma LastRowMore(trail: seq<Decision>, d: Decision, id: nat)
    ensures LastRow(trail + [d], id) == if d.review == id then Some(d) else LastRow(trail, id)
  {
    assert (trail + [d])[..|trail|] == trail;
  }

  /** The review has the status the last decision on it gave, unless its author has acted since. */
  predicate Accounted(trail: seq<Decision>, id: nat, status: Status) {
    match status
    case Approved => LastRow(trail, id).Some? && LastRow(trail, id).value.action == "approve"
    case NeedsEdits => LastRow(trail, id).Some? && LastRow(trail, id).value.action == "request_edits"
    case _ => true
  }

  /** A step either adds a row about the review, telling its new status, or makes it neither public nor bounced. */
  lemma StepAccounted(s: State, e: TimedEvent, id: nat)
    requires IdsBelow(s) && id in Step(s, e).0.reviews
    ensures var q := Step(s, e).0.reviews[id];
            if Decides(s, e, id) then
              |RowsOf(s, e)| == 1 && RowsOf(s, e)[0].review == id && Action(RowsOf(s, e)[0].action) == Some(q.status)
            else
              q.status !in {Approved, NeedsEdits} || (id in s.reviews && s.reviews[id].status == q.status)
  {
    match e.event
    case Moderate(_, _, _, _) => ModerateAccounted(s, e, id);
    case Submit(_, _, _) => SubmitAccounted(s, e, id);
    case Edit(_, _, _, _) => EditAccounted(s, e, id);
    case Delete(_, _) => DeleteAccounted(s, e, id);
    case Reply(_, _, _, _) => ReplyAccounted(s, e, id);
    case CloseAccount(_, _, _, _) => CloseAccounted(s, e, id);
    case _ => OthersAccounted(s, e);
  }

  lemma ModerateAccounted(s: State, e: TimedEvent, id: nat)
    requires e.event.Moderate? && id in Step(s, e).0.reviews
    ensures Decides(s, e, id) ==>
              id in s.reviews && Action(e.event.action) == Some(Step(s, e).0.reviews[id].status)
    ensures !Decides(s, e, id) ==> id in s.reviews && Step(s, e).0.reviews[id] == s.reviews[id]
  {
  }

  lemma SubmitAccounted(s: State, e: TimedEvent, id: nat)
    requires IdsBelow(s) && e.event.Submit? && id in Step(s, e).0.reviews
    ensures var q := Step(s, e).0.reviews[id];
            q.status !in {Approved, NeedsEdits} || (id in s.reviews && s.reviews[id].status == q.status)
  {
  }

  lemma EditAccounted(s: State, e: TimedEvent, id: nat)
    requires e.event.Edit? && id in Step(s, e).0.reviews
    ensures var q := Step(s, e).0.reviews[id];
            q.status !in {Approved, NeedsEdits} || (id in s.reviews && s.reviews[id].status == q.status)
  {
    if Step(s, e).1 == Done {
      var q := EditReplaces(s, e);
    } else {
      EditRefused(s, e);
    }
  }

  lemma DeleteAccounted(s: State, e: TimedEvent, id: nat)
    requires e.event.Delete? && id in Step(s, e).0.reviews
    ensures id in s.reviews && s.reviews[id].status == Step(s, e).0.reviews[id].status
  {
  }

  lemma ReplyAccounted(s: State, e: TimedEvent, id: nat)
    requires e.event.Reply? && id in Step(s, e).0.reviews
    ensures id in s.reviews && s.reviews[id].status == Step(s, e).0.reviews[id].status
  {
  }

  lemma CloseAccounted(s: State, e: TimedEvent, id: nat)
    requires e.event.CloseAccount? && id in Step(s, e).0.reviews
    ensures var q := Step(s, e).0.reviews[id];
            q.status == Rejected || (id in s.reviews && s.reviews[id].status == q.status)
  {
  }

  lemma OthersAccounted(s: State, e: TimedEvent)
    requires e.event.SignIn? || e.event.ChangePhone? || e.event.ClaimProfile? || e.event.DecideClaim?
    ensures Step(s, e).0.reviews == s.reviews
  {
  }

  lemma AccountedMore(trail: seq<Decision>, rows: seq<Decision>, id: nat, before: Option<Status>, status: Status)
    requires |rows| <= 1
    requires if rows != [] && rows[0].review == id then Action(rows[0].action) == Some(status)
             else status !in {Approved, NeedsEdits} || before == Some(status)
    requires before.Some? ==> Accounted(trail, id, before.value)
    ensures Accounted(trail + rows, id, status)
  {
    if rows == [] {
      assert trail + rows == trail;
    } else {
      assert trail + rows == trail + [rows[0]];
      LastRowMore(trail, rows[0], id);
    }
  }

  lemma RowsAbout(s: State, e: TimedEvent, id: nat)
    ensures |RowsOf(s, e)| <= 1
    ensures RowsOf(s, e) != [] && RowsOf(s, e)[0].review == id ==> Decides(s, e, id)
  {
  }

  /** In every reachable state, the record tells who made each review public, or sent it back, and why. */
  lemma {:induction false} PublicHasRow(start: State, events: seq<TimedEvent>, id: nat)
    requires Initial(start) && id in Run(start, events).reviews
    ensures Accounted(Trail(start, events), id, Run(start, events).reviews[id].status)
  {
    if events != [] {
      var front, e := events[..|events| - 1], events[|events| - 1];
      var s := Run(start, front);
      var before := if id in s.reviews then Some(s.reviews[id].status) else None;
      RunIds(start, front);
      StepAccounted(s, e, id);
      RowsAbout(s, e, id);
      if id in s.reviews {
        PublicHasRow(start, front, id);
      }
      AccountedMore(Trail(start, front), RowsOf(s, e), id, before, Run(start, events).reviews[id].status);
    }
  }
}
