/** What readers, authors and landlords can rely on, over every run of the platform. */
module ReviewLaws {
  import opened Wrappers
  import opened Text
  import opened Platform

  // --------------------------------------------------- what a step can change

  /** Who wrote it, about what, and when never change. */
  predicate SameOrigin(r: Review, q: Review) {
    r.property == q.property && r.owner == q.owner && r.agent == q.agent
    && r.createdAt == q.createdAt && r.createdOn == q.createdOn && r.verified == q.verified
    && r.tenancyStart == q.tenancyStart
  }

  predicate AmendsOwn(s: State, e: TimedEvent, id: nat) {
    && ((e.event.Edit? || e.event.Delete?) && e.event.review == id)
    && Acting(s.users, e.event.user)
    && Editable(s, e.event.user, id, e.clock.now) == Done
  }

  /** A moderator's approval that takes effect. */
  predicate ApprovesReview(s: State, e: TimedEvent, id: nat) {
    && e.event.Moderate? && e.event.review == id && e.event.action == "approve" && id in s.reviews
    && Acting(s.users, e.event.user) && IsAdmin(s.users, e.event.user)
  }

  /** A moderator's decision on the review that takes effect. */
  predicate Decides(s: State, e: TimedEvent, id: nat) {
    e.event.Moderate? && e.event.review == id && Step(s, e).1 == Done
  }

  predicate Repliable(s: State, e: TimedEvent, id: nat) {
    && e.event.Reply? && e.event.review == id && id in s.reviews
    && s.reviews[id].status == Approved && s.reviews[id].reply.GetOr("") == ""
    && Acting(s.users, e.event.user) && MayReply(s, e.event.user, s.reviews[id])
  }

  ghost predicate IdsBelow(s: State) {
    forall id | id in s.reviews :: id < s.nextReview
  }

  /**
   All that can happen to a review: its words change or it goes only by its author's
   hand, inside the window, before any reply; it becomes public only by a moderator's;
   its reply changes only while the public review has none, by someone entitled to.
   */
  ghost predicate Governed(s: State, e: TimedEvent, t: State, id: nat) {
    if id in s.reviews then
      && (id !in t.reviews ==> e.event.Delete? && AmendsOwn(s, e, id))
      && (id in t.reviews ==>
            var r, q := s.reviews[id], t.reviews[id];
            && SameOrigin(r, q)
            && (q.content != r.content ==> e.event.Edit? && AmendsOwn(s, e, id) && q.status in {Pending, Flagged})
            && (q.status == Approved ==> r.status == Approved || ApprovesReview(s, e, id))
            && ((q.reply, q.replyFrom) != (r.reply, r.replyFrom) ==> Repliable(s, e, id) && q.reply.Some?))
    else id in t.reviews ==> t.reviews[id].status in {Pending, Flagged} && t.reviews[id].reply.None?
  }

  lemma StepGoverned(s: State, e: TimedEvent, id: nat)
    requires IdsBelow(s)
    ensures Governed(s, e, Step(s, e).0, id) && IdsBelow(Step(s, e).0)
  {
    match e.event
    case Submit(u, sub, n) => SubmitGoverned(s, e, id);
    case Edit(u, r, a, n) => EditGoverned(s, e, id);
    case Delete(u, r) => DeleteGoverned(s, e, id);
    case Moderate(u, r, action, note) => ModerateGoverned(s, e, id);
    case Reply(u, r, role, text) => ReplyGoverned(s, e, id);
    case CloseAccount(_, _, _, _) => CloseGoverned(s, e, id);
    case _ => OthersGoverned(s, e, id);
  }

  lemma SubmitGoverned(s: State, e: TimedEvent, id: nat)
    requires IdsBelow(s) && e.event.Submit?
    ensures Governed(s, e, Step(s, e).0, id) && IdsBelow(Step(s, e).0)
  {
  }

  /** The step puts q in place of one review. */
  ghost predicate Replaces(s: State, t: State, id: nat, q: Review) {
    id in s.reviews && t.reviews == s.reviews[id := q] && t.nextReview == s.nextReview
  }

  lemma EditReplaces(s: State, e: TimedEvent) returns (q: Review)
    requires e.event.Edit? && Step(s, e).1 == Done
    ensures var id := e.event.review;
            && Replaces(s, Step(s, e).0, id, q) && AmendsOwn(s, e, id) && SameOrigin(s.reviews[id], q)
            && q.status in {Pending, Flagged}
            && (q.reply, q.replyFrom) == (s.reviews[id].reply, s.reviews[id].replyFrom)
  {
    q := Step(s, e).0.reviews[e.event.review];
  }

  lemma EditGoverned(s: State, e: TimedEvent, id: nat)
    requires IdsBelow(s) && e.event.Edit?
    ensures Governed(s, e, Step(s, e).0, id) && IdsBelow(Step(s, e).0)
  {
    if Step(s, e).1 == Done {
      var q := EditReplaces(s, e);
    } else {
      EditRefused(s, e);
    }
  }

  lemma EditRefused(s: State, e: TimedEvent)
    requires e.event.Edit? && Step(s, e).1 != Done
    ensures Step(s, e).0 == s
  {
  }

  lemma DeleteGoverned(s: State, e: TimedEvent, id: nat)
    requires IdsBelow(s) && e.event.Delete?
    ensures Governed(s, e, Step(s, e).0, id) && IdsBelow(Step(s, e).0)
  {
  }

  lemma ModerateReplaces(s: State, e: TimedEvent) returns (q: Review)
    requires e.event.Moderate? && Step(s, e).1 == Done
    ensures var id := e.event.review;
            && Replaces(s, Step(s, e).0, id, q) && q == s.reviews[id].(status := q.status)
            && (q.status == Approved ==> ApprovesReview(s, e, id))
  {
    q := Step(s, e).0.reviews[e.event.review];
    assert Action(e.event.action) == Some(Approved) ==> e.event.action == "approve";
  }

  lemma ModerateRefused(s: State, e: TimedEvent)
    requires e.event.Moderate? && Step(s, e).1 != Done
    ensures Step(s, e).0 == s
  {
  }

  lemma ModerateGoverned(s: State, e: TimedEvent, id: nat)
    requires IdsBelow(s) && e.event.Moderate?
    ensures Governed(s, e, Step(s, e).0, id) && IdsBelow(Step(s, e).0)
  {
    if Step(s, e).1 == Done {
      var q := ModerateReplaces(s, e);
    } else {
      ModerateRefused(s, e);
    }
  }

  lemma ReplyGoverned(s: State, e: TimedEvent, id: nat)
    requires IdsBelow(s) && e.event.Reply?
    ensures Governed(s, e, Step(s, e).0, id) && IdsBelow(Step(s, e).0)
  {
  }

  lemma CloseGoverned(s: State, e: TimedEvent, id: nat)
    requires IdsBelow(s) && e.event.CloseAccount?
    ensures Governed(s, e, Step(s, e).0, id) && IdsBelow(Step(s, e).0)
  {
  }

  lemma OthersGoverned(s: State, e: TimedEvent, id: nat)
    requires IdsBelow(s)
    requires e.event.SignIn? || e.event.ChangePhone? || e.event.ClaimProfile? || e.event.DecideClaim?
    ensures Governed(s, e, Step(s, e).0, id) && IdsBelow(Step(s, e).0)
  {
    assert Step(s, e).0.reviews == s.reviews && Step(s, e).0.nextReview == s.nextReview;
  }

  lemma {:induction false} RunIds(start: State, events: seq<TimedEvent>)
    requires Initial(start)
    ensures IdsBelow(Run(start, events))
  {
    if events != [] {
      RunIds(start, events[..|events| - 1]);
      StepGoverned(Run(start, events[..|events| - 1]), events[|events| - 1], 0);
    }
  }

  /** The step an event takes in a run. */
  lemma RunGoverned(start: State, events: seq<TimedEvent>, id: nat)
    requires Initial(start) && events != []
    ensures Governed(Run(start, events[..|events| - 1]), events[|events| - 1], Run(start, events), id)
  {
    RunIds(start, events[..|events| - 1]);
    StepGoverned(Run(start, events[..|events| - 1]), events[|events| - 1], id);
  }

  // ----------------------------------------------------- published is approved

  /** What the review said when a moderator last approved it. */
  function ApprovedContent(start: State, events: seq<TimedEvent>, id: nat): Option<Content> {
    if events == [] then None
    else
      var s := Run(start, events[..|events| - 1]);
      if ApprovesReview(s, events[|events| - 1], id) then Some(s.reviews[id].content)
      else ApprovedContent(start, events[..|events| - 1], id)
  }

  /** In every reachable state, whatever is public or has a reply says what was last approved. */
  lemma {:induction false} PublishedIsApproved(start: State, events: seq<TimedEvent>, id: nat)
    requires Initial(start) && id in Run(start, events).reviews
    ensures var r := Run(start, events).reviews[id];
            r.status == Approved || r.reply.Some? ==> ApprovedContent(start, events, id) == Some(r.content)
  {
    if events != [] {
      var front, e := events[..|events| - 1], events[|events| - 1];
      RunGoverned(start, events, id);
      if id in Run(start, front).reviews {
        PublishedIsApproved(start, front, id);
      }
    }
  }

  /** Anyone sees what is approved; authors also see their own while it waits or is sent back to them. */
  lemma VisibleIff(r: Review, viewer: Option<nat>)
    ensures Visible(r, viewer)
            <==> r.status == Approved || (viewer == Some(r.owner) && r.status in {Pending, Flagged, NeedsEdits})
  {
  }

  /** What anyone but its author can see of a review is what a moderator last approved. */
  lemma StrangersSeeApproved(start: State, events: seq<TimedEvent>, id: nat, viewer: Option<nat>)
    requires Initial(start) && id in Run(start, events).reviews
    requires Visible(Run(start, events).reviews[id], viewer) && viewer != Some(Run(start, events).reviews[id].owner)
    ensures ApprovedContent(start, events, id) == Some(Run(start, events).reviews[id].content)
  {
    PublishedIsApproved(start, events, id);
  }

  // --------------------------------------------------------- a reply freezes

  /** Once answered, a review stays, and never says anything else. */
  lemma {:induction false} ReplyFreezes(start: State, events: seq<TimedEvent>, k: nat, id: nat)
    requires Initial(start) && k <= |events|
    requires id in Run(start, events[..k]).reviews && Run(start, events[..k]).reviews[id].reply.Some?
    ensures id in Run(start, events).reviews
    ensures var r, q := Run(start, events[..k]).reviews[id], Run(start, events).reviews[id];
            && q.content == r.content && q.reply.Some?
            && (r.reply.value != "" ==> q.reply == r.reply && q.replyFrom == r.replyFrom)
  {
    if k == |events| {
      assert events[..k] == events;
    } else {
      var front := events[..|events| - 1];
      assert front[..k] == events[..k];
      ReplyFreezes(start, front, k, id);
      RunGoverned(start, events, id);
    }
  }

  /**
   Is a reply the last word? Exactly when something is left of it once stripped: a reply
   of blanks is stored as an empty text, which the next reply replaces.
   */
  lemma ReplyIsFinalIff(s: State, u: nat, id: nat, role: string, text: string,
                        v: nat, nextRole: string, nextText: string)
    requires ReplyStep(s, u, id, role, text).1 == Done
    requires var t := ReplyStep(s, u, id, role, text).0;
             Acting(t.users, v) && MayReply(t, v, t.reviews[id])
    requires 20 <= |nextText| <= MAX_REPLY_CHARS && nextRole in {"landlord", "agent"}
    ensures var next := ReplyStep(ReplyStep(s, u, id, role, text).0, v, id, nextRole, nextText);
            && (next.1 == Conflict(AlreadyReplied) <==> Strip(text) != "")
            && (next.1 == Done <==> Strip(text) == "")
            && (next.1 == Done ==> next.0.reviews[id].reply == Some(Strip(nextText)))
  {
  }

  lemma {:induction false} BlanksStrip(text: string)
    requires forall i | 0 <= i < |text| :: IsSpace(text[i])
    ensures Strip(text) == ""
  {
    if text != [] {
      BlanksStrip(text[1..]);
    }
  }

  /** A blank reply is accepted and can be replaced: the promise of one reply fails for it. */
  lemma BlankReplyIsReplaced(s: State, admin: nat, id: nat, text: string)
    requires Acting(s.users, admin) && IsAdmin(s.users, admin)
    requires id in s.reviews && s.reviews[id].status == Approved && s.reviews[id].reply.None?
    requires 20 <= |text| <= MAX_REPLY_CHARS
    ensures var blank := seq(20, _ => ' ');
            var first := ReplyStep(s, admin, id, "landlord", blank);
            var second := ReplyStep(first.0, admin, id, "landlord", text);
            first.1 == Done && second.1 == Done && second.0.reviews[id].reply == Some(Strip(text))
  {
    BlanksStrip(seq(20, _ => ' '));
  }

  // ------------------------------------------------------------ the edit window

  ghost predicate InOrder(events: seq<TimedEvent>) {
    forall i, j | 0 <= i < j < |events| :: events[i].clock.now <= events[j].clock.now
  }

  /** It is there, with those words and that origin. */
  predicate StandsAs(s: State, id: nat, r: Review) {
    id in s.reviews && s.reviews[id].content == r.content && SameOrigin(r, s.reviews[id])
  }

  lemma StepAfterWindow(s: State, e: TimedEvent, t: State, id: nat, r: Review)
    requires Governed(s, e, t, id) && StandsAs(s, id, r) && Remaining(r, e.clock.now) <= 0.0
    ensures StandsAs(t, id, r)
  {
  }

  /** Forty-eight hours after posting, a review is there to stay, as it is. */
  lemma {:induction false} WindowCloses(start: State, events: seq<TimedEvent>, k: nat, id: nat)
    requires Initial(start) && InOrder(events) && k <= |events|
    requires id in Run(start, events[..k]).reviews
    requires k < |events| ==> Remaining(Run(start, events[..k]).reviews[id], events[k].clock.now) <= 0.0
    ensures StandsAs(Run(start, events), id, Run(start, events[..k]).reviews[id])
  {
    if k == |events| {
      assert events[..k] == events;
    } else {
      var front, last := events[..|events| - 1], events[|events| - 1];
      assert front[..k] == events[..k];
      WindowCloses(start, front, k, id);
      RunGoverned(start, events, id);
      assert events[k].clock.now <= last.clock.now;
      StepAfterWindow(Run(start, front), last, Run(start, events), id, Run(start, events[..k]).reviews[id]);
    }
  }

  // -------------------------------------------------- leaving public view

  /** An administrator's decision against publishing, with a reason given. */
  predicate DeclinesReview(s: State, e: TimedEvent, id: nat) {
    && e.event.Moderate? && e.event.review == id && e.event.action in {"reject", "request_edits"}
    && Strip(e.event.note.GetOr("")) != ""
    && Acting(s.users, e.event.user) && IsAdmin(s.users, e.event.user)
  }

  /** The author leaves the service and takes the reviews along. */
  predicate LeavesWith(s: State, e: TimedEvent, owner: nat) {
    e.event.CloseAccount? && e.event.user == owner && e.event.removeReviews && Acting(s.users, owner)
  }

  /**
   A public review leaves public view only by its author's hand, inside the window and
   before any reply or with the whole account, or by a moderator who says why.
   */
  lemma UnpublishingExplained(s: State, e: TimedEvent, id: nat)
    requires IdsBelow(s) && id in s.reviews && s.reviews[id].status == Approved
    ensures var t := Step(s, e).0;
            id !in t.reviews || t.reviews[id].status != Approved
            ==> AmendsOwn(s, e, id) || LeavesWith(s, e, s.reviews[id].owner) || DeclinesReview(s, e, id)
  {
    match e.event
    case Moderate(u, r, action, note) => DecisionExplained(s, e, id);
    case CloseAccount(_, _, _, _) => LeavingExplained(s, e, id);
    case Submit(_, _, _) => StepGoverned(s, e, id); KeptBySubmit(s, e, id);
    case _ =>
  }

  lemma DecisionExplained(s: State, e: TimedEvent, id: nat)
    requires e.event.Moderate? && id in s.reviews && s.reviews[id].status == Approved
    ensures var t := Step(s, e).0;
            id in t.reviews && (t.reviews[id].status == Approved || DeclinesReview(s, e, id))
  {
  }

  lemma LeavingExplained(s: State, e: TimedEvent, id: nat)
    requires e.event.CloseAccount? && id in s.reviews && s.reviews[id].status == Approved
    ensures var t := Step(s, e).0;
            id in t.reviews && (t.reviews[id].status == Approved || LeavesWith(s, e, s.reviews[id].owner))
  {
  }

  lemma KeptBySubmit(s: State, e: TimedEvent, id: nat)
    requires e.event.Submit? && IdsBelow(s) && id in s.reviews
    ensures id in Step(s, e).0.reviews && Step(s, e).0.reviews[id] == s.reviews[id]
  {
  }

  /** An account that was closed. */
  predicate Closed(s: State, u: nat) {
    u < |s.users| && !s.users[u].active
  }

  lemma ClosedStays(s: State, e: TimedEvent, u: nat)
    requires Closed(s, u)
    ensures Closed(Step(s, e).0, u) && Step(s, e).0.users[u] == s.users[u]
  {
    match e.event
    case SignIn(_) =>
    case ChangePhone(_, _) =>
    case CloseAccount(_, _, _, _) =>
    case Submit(_, _, _) => ClosedNotSubmitting(s, e, u);
    case Edit(_, _, _, _) =>
    case Delete(_, _) =>
    case Moderate(_, _, _, _) =>
    case Reply(_, _, _, _) =>
    case ClaimProfile(_, _, _) =>
    case DecideClaim(_, _, _) =>
  }

  lemma ClosedNotSubmitting(s: State, e: TimedEvent, u: nat)
    requires Closed(s, u) && e.event.Submit?
    ensures Closed(Step(s, e).0, u) && Step(s, e).0.users[u] == s.users[u]
  {
  }

  /** The record a closed account leaves behind stays, word for word, whatever happens after. */
  lemma {:induction false} ClosedRecordStands(start: State, events: seq<TimedEvent>, k: nat, id: nat)
    requires Initial(start) && k <= |events| && id in Run(start, events[..k]).reviews
    requires Closed(Run(start, events[..k]), Run(start, events[..k]).reviews[id].owner)
    ensures id in Run(start, events).reviews
    ensures var s, t := Run(start, events[..k]), Run(start, events);
            var r, q := s.reviews[id], t.reviews[id];
            q.content == r.content && SameOrigin(r, q) && Closed(t, r.owner) && t.users[r.owner] == s.users[r.owner]
  {
    if k == |events| {
      assert events[..k] == events;
    } else {
      var front, e := events[..|events| - 1], events[|events| - 1];
      assert front[..k] == events[..k];
      ClosedRecordStands(start, front, k, id);
      RunGoverned(start, events, id);
      ClosedStays(Run(start, front), e, Run(start, front).reviews[id].owner);
    }
  }

  // ------------------------------------------------------------- review counts

  function Owned(s: State, u: nat): set<nat> {
    set id | id in s.reviews && s.reviews[id].owner == u
  }

  ghost predicate CountsOk(s: State) {
    && (forall u | 0 <= u < |s.users| :: s.users[u].reviewCount == |Owned(s, u)|)
    && (forall id | id in s.reviews :: s.reviews[id].owner < |s.users|)
    && IdsBelow(s)
  }

  /** One more review, one more on its author's count. */
  predicate AddsReview(s: State, t: State, u: nat) {
    && u < |s.users| == |t.users|
    && t.nextReview == s.nextReview + 1 && s.nextReview in t.reviews && t.reviews[s.nextReview].owner == u
    && t.reviews == s.reviews[s.nextReview := t.reviews[s.nextReview]]
    && t.users == s.users[u := s.users[u].(reviewCount := s.users[u].reviewCount + 1)]
  }

  lemma SubmitAdds(s: State, u: nat, sub: Submission, needsHuman: bool, c: Clock)
    ensures SubmitStep(s, u, sub, needsHuman, c).0 == s || AddsReview(s, SubmitStep(s, u, sub, needsHuman, c).0, u)
  {
  }

  lemma AddedOwned(s: State, t: State, u: nat, v: nat)
    requires IdsBelow(s) && AddsReview(s, t, u)
    ensures |Owned(t, v)| == |Owned(s, v)| + if v == u then 1 else 0
  {
    assert s.nextReview !in Owned(s, v);
    if v == u {
      assert Owned(t, v) == Owned(s, v) + {s.nextReview};
    } else {
      assert Owned(t, v) == Owned(s, v);
    }
  }

  lemma AddedCounts(s: State, t: State, u: nat)
    requires CountsOk(s) && AddsReview(s, t, u)
    ensures CountsOk(t)
  {
    forall v | 0 <= v < |t.users| ensures t.users[v].reviewCount == |Owned(t, v)| {
      AddedOwned(s, t, u, v);
      assert s.users[v].reviewCount == |Owned(s, v)|;
    }
  }

  lemma DeleteCounts(s: State, u: nat, id: nat, c: Clock)
    requires CountsOk(s)
    ensures CountsOk(DeleteStep(s, u, id, c).0)
  {
    var t := DeleteStep(s, u, id, c).0;
    if t != s {
      assert id in Owned(s, u);
      forall v | 0 <= v < |t.users| ensures t.users[v].reviewCount == |Owned(t, v)| {
        assert Owned(t, v) == if v == u then Owned(s, v) - {id} else Owned(s, v);
      }
    }
  }

  /** Owners stay, and the counts are not touched. */
  lemma OthersCount(s: State, e: TimedEvent)
    requires CountsOk(s) && !e.event.Submit? && !e.event.Delete? && !e.event.SignIn?
    ensures CountsOk(Step(s, e).0)
  {
    var t := Step(s, e).0;
    SameOwners(s, e);
    forall v | 0 <= v < |t.users| ensures t.users[v].reviewCount == |Owned(t, v)| {
      assert Owned(t, v) == Owned(s, v);
    }
  }

  ghost predicate OwnersKept(s: State, t: State) {
    && t.reviews.Keys == s.reviews.Keys && (forall id | id in s.reviews :: t.reviews[id].owner == s.reviews[id].owner)
    && |t.users| == |s.users| && (forall v | 0 <= v < |s.users| :: t.users[v].reviewCount == s.users[v].reviewCount)
    && t.nextReview == s.nextReview
  }

  lemma SameOwners(s: State, e: TimedEvent)
    requires !e.event.Submit? && !e.event.Delete? && !e.event.SignIn?
    ensures OwnersKept(s, Step(s, e).0)
  {
    match e.event
    case ChangePhone(_, _) =>
    case CloseAccount(u, confirm, remove, token) => CloseOwners(s, u, confirm, remove, token);
    case Edit(u, id, a, n) => EditOwners(s, u, id, a, n, e.clock);
    case Moderate(_, _, _, _) => ModerateOwners(s, e);
    case Reply(u, id, role, text) => ReplyOwners(s, u, id, role, text);
    case ClaimProfile(_, _, _) =>
    case DecideClaim(_, _, _) =>
  }

  lemma ModerateOwners(s: State, e: TimedEvent)
    requires e.event.Moderate?
    ensures OwnersKept(s, Step(s, e).0)
  {
  }

  lemma ReplyOwners(s: State, u: nat, id: nat, role: string, text: string)
    ensures OwnersKept(s, ReplyStep(s, u, id, role, text).0)
  {
  }

  lemma CloseOwners(s: State, u: nat, confirm: string, remove: bool, token: string)
    ensures OwnersKept(s, CloseStep(s, u, confirm, remove, token).0)
  {
  }

  lemma EditOwners(s: State, u: nat, id: nat, a: Amendment, needsHuman: bool, c: Clock)
    ensures OwnersKept(s, EditStep(s, u, id, a, needsHuman, c).0)
  {
  }

  lemma SignInCounts(s: State, hash: string)
    requires CountsOk(s)
    ensures CountsOk(SignInStep(s, hash).0)
  {
    var t := SignInStep(s, hash).0;
    forall v | 0 <= v < |t.users| ensures t.users[v].reviewCount == |Owned(t, v)| {
      assert Owned(t, v) == Owned(s, v);
      assert v == |s.users| ==> Owned(s, v) == {};
    }
  }

  /** In every reachable state an account's count is the number of reviews it owns. */
  lemma {:induction false} ReviewCountIsOwned(start: State, events: seq<TimedEvent>)
    requires Initial(start)
    ensures CountsOk(Run(start, events))
  {
    if events == [] {
      forall u | 0 <= u < |start.users| ensures start.users[u].reviewCount == |Owned(start, u)| {
        assert Owned(start, u) == {};
      }
    } else {
      var front, e := Run(start, events[..|events| - 1]), events[|events| - 1];
      ReviewCountIsOwned(start, events[..|events| - 1]);
      match e.event
      case Submit(u, sub, n) =>
        SubmitAdds(front, u, sub, n, e.clock);
        if Run(start, events) != front {
          AddedCounts(front, Run(start, events), u);
        }
      case Delete(u, id) => DeleteCounts(front, u, id, e.clock);
      case SignIn(hash) => SignInCounts(front, hash);
      case _ => OthersCount(front, e);
    }
  }
}
