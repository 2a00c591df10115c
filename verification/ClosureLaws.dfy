/** What closing an account does to its reviews, in every later run. */
module ClosureLaws {
  import opened Wrappers
  import opened Text
  import opened Scoring
  import opened Platform
  import opened ReviewLaws
  import opened CacheLaws

  // ------------------------------------------------- one step, after a closure

  /** How the author is shown. */
  predicate SameFace(r: Review, q: Review) {
    q.anonymous == r.anonymous && q.displayName == r.displayName
  }

  /** The status after a step, as far as moderators alone set it. */
  function StatusAfter(s: State, e: TimedEvent, id: nat, status: Status): Status {
    if Decides(s, e, id) then Action(e.event.action).GetOr(status) else status
  }

  /** The review of a closed account shows the same face, and only moderators change its status. */
  ghost predicate LeftAlone(s: State, e: TimedEvent, id: nat) {
    && id in s.reviews && id in Step(s, e).0.reviews
    && SameFace(s.reviews[id], Step(s, e).0.reviews[id])
    && Step(s, e).0.reviews[id].status == StatusAfter(s, e, id, s.reviews[id].status)
  }

  lemma ClosedLeftAlone(s: State, e: TimedEvent, id: nat)
    requires IdsBelow(s) && id in s.reviews && Closed(s, s.reviews[id].owner)
    ensures LeftAlone(s, e, id)
  {
    match e.event
    case Submit(_, _, _) => KeptBySubmit(s, e, id);
    case Edit(_, _, _, _) => EditLeavesAlone(s, e, id);
    case Delete(_, _) => DeleteLeavesAlone(s, e, id);
    case Moderate(_, _, _, _) => ModerateLeavesAlone(s, e, id);
    case Reply(_, _, _, _) => ReplyLeavesAlone(s, e, id);
    case CloseAccount(_, _, _, _) => CloseLeavesAlone(s, e, id);
    case _ => SameReviews(s, e);
  }

  lemma SameReviews(s: State, e: TimedEvent)
    requires e.event.SignIn? || e.event.ChangePhone? || e.event.ClaimProfile? || e.event.DecideClaim?
    ensures Step(s, e).0.reviews == s.reviews
  {
  }

  lemma EditLeavesAlone(s: State, e: TimedEvent, id: nat)
    requires e.event.Edit? && id in s.reviews && Closed(s, s.reviews[id].owner)
    ensures LeftAlone(s, e, id)
  {
    if Step(s, e).1 == Done {
      var q := EditReplaces(s, e);
    } else {
      EditRefused(s, e);
    }
  }

  lemma DeleteLeavesAlone(s: State, e: TimedEvent, id: nat)
    requires e.event.Delete? && id in s.reviews && Closed(s, s.reviews[id].owner)
    ensures LeftAlone(s, e, id)
  {
  }

  lemma ModerateLeavesAlone(s: State, e: TimedEvent, id: nat)
    requires e.event.Moderate? && id in s.reviews
    ensures LeftAlone(s, e, id)
  {
    if Step(s, e).1 == Done {
      var q := ModerateReplaces(s, e);
      ModerateSets(s, e);
    } else {
      ModerateRefused(s, e);
    }
  }

  lemma ModerateSets(s: State, e: TimedEvent)
    requires e.event.Moderate? && Step(s, e).1 == Done
    ensures var id := e.event.review;
            id in Step(s, e).0.reviews && Action(e.event.action) == Some(Step(s, e).0.reviews[id].status)
  {
  }

  lemma ReplyLeavesAlone(s: State, e: TimedEvent, id: nat)
    requires e.event.Reply? && id in s.reviews
    ensures LeftAlone(s, e, id)
  {
  }

  lemma CloseLeavesAlone(s: State, e: TimedEvent, id: nat)
    requires e.event.CloseAccount? && id in s.reviews && Closed(s, s.reviews[id].owner)
    ensures LeftAlone(s, e, id)
  {
  }

  // --------------------------------------------------------- over every run

  /** The last decision on the review since the k-th event, or the status it had then. */
  function StatusSince(start: State, events: seq<TimedEvent>, k: nat, id: nat, status: Status): Status {
    if |events| <= k then status
    else
      var front := events[..|events| - 1];
      StatusAfter(Run(start, front), events[|events| - 1], id, StatusSince(start, front, k, id, status))
  }

  /** A closed account's review stays, with its face, and its status is what moderators last decided. */
  lemma {:induction false} ClosedReview(start: State, events: seq<TimedEvent>, k: nat, id: nat)
    requires Initial(start) && k <= |events| && id in Run(start, events[..k]).reviews
    requires Closed(Run(start, events[..k]), Run(start, events[..k]).reviews[id].owner)
    ensures id in Run(start, events).reviews
    ensures var r, q := Run(start, events[..k]).reviews[id], Run(start, events).reviews[id];
            && q.content == r.content && q.owner == r.owner && SameFace(r, q)
            && q.status == StatusSince(start, events, k, id, r.status)
  {
    if k == |events| {
      assert events[..k] == events;
    } else {
      var front, e := events[..|events| - 1], events[|events| - 1];
      assert front[..k] == events[..k];
      ClosedReview(start, front, k, id);
      ClosedRecordStands(start, front, k, id);
      ClosedRecordStands(start, events, k, id);
      RunIds(start, front);
      ClosedLeftAlone(Run(start, front), e, id);
    }
  }

  /** The account closes at the k-th event, with or without its reviews, of which this is one. */
  ghost predicate ClosesAt(start: State, events: seq<TimedEvent>, k: nat, id: nat, removed: bool) {
    && k < |events| && events[k].event.CloseAccount? && events[k].event.removeReviews == removed
    && Step(Run(start, events[..k]), events[k]).1 == Done
    && id in Run(start, events[..k]).reviews
    && Run(start, events[..k]).reviews[id].owner == events[k].event.user
  }

  lemma ClosingStep(s: State, e: TimedEvent, id: nat)
    requires e.event.CloseAccount? && Step(s, e).1 == Done && id in s.reviews
    requires s.reviews[id].owner == e.event.user
    ensures var t := Step(s, e).0;
            && id in t.reviews && Closed(t, s.reviews[id].owner)
            && t.reviews[id] == if e.event.removeReviews then Withdrawn(s.reviews[id]) else Anonymised(s.reviews[id])
  {
  }

  /** What the closing of the account made of the review, and how things stand after any run since. */
  lemma AfterClosing(start: State, events: seq<TimedEvent>, k: nat, id: nat, removed: bool)
    requires Initial(start) && ClosesAt(start, events, k, id, removed)
    ensures id in Run(start, events).reviews
    ensures var r := Run(start, events[..k]).reviews[id];
            var left, q := if removed then Withdrawn(r) else Anonymised(r), Run(start, events).reviews[id];
            && q.content == r.content && SameFace(left, q)
            && q.status == StatusSince(start, events, k + 1, id, left.status)
  {
    assert events[..k + 1][..k] == events[..k] && events[..k + 1][k] == events[k];
    ClosingStep(Run(start, events[..k]), events[k], id);
    ClosedReview(start, events, k + 1, id);
  }

  /**
   Whoever closes an account and leaves the reviews is "Former tenant", and anonymous, in
   every later state, whatever moderators and landlords do.
   */
  lemma FormerTenantStays(start: State, events: seq<TimedEvent>, k: nat, id: nat)
    requires Initial(start) && ClosesAt(start, events, k, id, false)
    ensures id in Run(start, events).reviews
    ensures var q := Run(start, events).reviews[id];
            && q.anonymous && q.displayName == Some("Former tenant")
            && q.content == Run(start, events[..k]).reviews[id].content
  {
    AfterClosing(start, events, k, id, false);
  }

  // -------------------------------------------------- withdrawn, and public again

  /**
   A withdrawn review is public exactly when the last decision on it since the withdrawal
   was to approve it; it shows the name it showed before.
   */
  lemma WithdrawnPublicIff(start: State, events: seq<TimedEvent>, k: nat, id: nat)
    requires Initial(start) && ClosesAt(start, events, k, id, true)
    ensures id in Run(start, events).reviews
    ensures var r, q := Run(start, events[..k]).reviews[id], Run(start, events).reviews[id];
            && (q.status == Approved <==> StatusSince(start, events, k + 1, id, Rejected) == Approved)
            && SameFace(r, q) && q.content == r.content
  {
    AfterClosing(start, events, k, id, true);
  }

  ghost predicate PublicAt(start: State, events: seq<TimedEvent>, m: nat, id: nat) {
    m <= |events| && id in Run(start, events[..m]).reviews && Run(start, events[..m]).reviews[id].status == Approved
  }

  ghost predicate ApprovedAt(start: State, events: seq<TimedEvent>, m: nat, id: nat) {
    m < |events| && ApprovesReview(Run(start, events[..m]), events[m], id)
  }

  lemma RunOneMore(start: State, events: seq<TimedEvent>, m: nat)
    requires m < |events|
    ensures Run(start, events[..m + 1]) == Step(Run(start, events[..m]), events[m]).0
  {
    assert events[..m + 1][..m] == events[..m];
  }

  lemma PublicOnceApproved(start: State, events: seq<TimedEvent>, m: nat, id: nat)
    requires ApprovedAt(start, events, m, id)
    ensures PublicAt(start, events, m + 1, id)
  {
    RunOneMore(start, events, m);
    ApprovalApproves(Run(start, events[..m]), events[m], id);
  }

  lemma ApprovalApproves(s: State, e: TimedEvent, id: nat)
    requires ApprovesReview(s, e, id)
    ensures id in Step(s, e).0.reviews && Step(s, e).0.reviews[id].status == Approved
  {
  }

  lemma ClosesInPrefix(start: State, events: seq<TimedEvent>, k: nat, id: nat, n: nat)
    requires ClosesAt(start, events, k, id, true) && k < n <= |events|
    ensures ClosesAt(start, events[..n], k, id, true)
  {
    assert events[..n][..k] == events[..k] && events[..n][k] == events[k];
  }

  lemma NotPublicAtOnce(start: State, events: seq<TimedEvent>, k: nat, id: nat)
    requires Initial(start) && ClosesAt(start, events, k, id, true)
    ensures !PublicAt(start, events, k + 1, id)
  {
    ClosesInPrefix(start, events, k, id, k + 1);
    AfterClosing(start, events[..k + 1], k, id, true);
  }

  lemma StillThere(start: State, events: seq<TimedEvent>, k: nat, id: nat, n: nat)
    requires Initial(start) && ClosesAt(start, events, k, id, true) && k < n <= |events|
    ensures id in Run(start, events[..n]).reviews
  {
    ClosesInPrefix(start, events, k, id, n);
    AfterClosing(start, events[..n], k, id, true);
  }

  lemma GovernedPublic(s: State, e: TimedEvent, id: nat)
    requires IdsBelow(s) && id in s.reviews
    requires id in Step(s, e).0.reviews && Step(s, e).0.reviews[id].status == Approved
    ensures s.reviews[id].status == Approved || ApprovesReview(s, e, id)
  {
    StepGoverned(s, e, id);
  }

  lemma PublicStep(start: State, events: seq<TimedEvent>, k: nat, id: nat, m: nat)
    requires Initial(start) && ClosesAt(start, events, k, id, true) && k < m && PublicAt(start, events, m + 1, id)
    ensures PublicAt(start, events, m, id) || ApprovedAt(start, events, m, id)
  {
    StillThere(start, events, k, id, m);
    RunOneMore(start, events, m);
    RunIds(start, events[..m]);
    GovernedPublic(Run(start, events[..m]), events[m], id);
  }

  /** What is not so at first and is later came about at some step. */
  lemma {:induction false} CameAbout(holds: nat -> bool, happens: nat -> bool, low: nat, n: nat) returns (m: nat)
    requires low <= n && holds(n) && !holds(low)
    requires forall j: nat | low <= j < n && holds(j + 1) :: holds(j) || happens(j)
    ensures low <= m < n && happens(m)
  {
    assert holds(n - 1 + 1);
    if happens(n - 1) {
      m := n - 1;
    } else {
      m := CameAbout(holds, happens, low, n - 1);
    }
  }

  lemma PublicCameAbout(start: State, events: seq<TimedEvent>, low: nat, id: nat, n: nat) returns (m: nat)
    requires low <= n && PublicAt(start, events, n, id) && !PublicAt(start, events, low, id)
    requires forall j: nat | low <= j < n && PublicAt(start, events, j + 1, id) ::
               PublicAt(start, events, j, id) || ApprovedAt(start, events, j, id)
    ensures low <= m < n && ApprovedAt(start, events, m, id)
  {
    m := CameAbout((j: nat) => PublicAt(start, events, j, id), (j: nat) => ApprovedAt(start, events, j, id), low, n);
  }

  /** Some moderator approved it since, if it is public. */
  lemma PublicHasApproval(start: State, events: seq<TimedEvent>, k: nat, id: nat, n: nat) returns (m: nat)
    requires Initial(start) && ClosesAt(start, events, k, id, true) && k < n && PublicAt(start, events, n, id)
    ensures k < m < n && ApprovedAt(start, events, m, id)
  {
    NotPublicAtOnce(start, events, k, id);
    forall j: nat | k + 1 <= j < n && PublicAt(start, events, j + 1, id)
      ensures PublicAt(start, events, j, id) || ApprovedAt(start, events, j, id)
    {
      PublicStep(start, events, k, id, j);
    }
    m := PublicCameAbout(start, events, k + 1, id, n);
  }

  /** It ever becomes public again exactly when some moderator approves it later. */
  lemma PublicAgainIff(start: State, events: seq<TimedEvent>, k: nat, id: nat)
    requires Initial(start) && ClosesAt(start, events, k, id, true)
    ensures (exists n: nat :: k < n && PublicAt(start, events, n, id))
            <==> (exists m: nat :: k < m && ApprovedAt(start, events, m, id))
  {
    if n: nat :| k < n && PublicAt(start, events, n, id) {
      var m := PublicHasApproval(start, events, k, id, n);
    }
    if m: nat :| k < m && ApprovedAt(start, events, m, id) {
      PublicOnceApproved(start, events, m, id);
      assert PublicAt(start, events, m + 1, id);
    }
  }

  // ------------------------------------------------------ a cache left behind

  /** A tenant who can review a known property, an administrator, and a token nobody holds. */
  predicate Ready(s: State, admin: nat, tenant: nat, sub: Submission, token: string) {
    && Acting(s.users, admin) && IsAdmin(s.users, admin) && Acting(s.users, tenant) && admin != tenant
    && ValidRatings(sub.content.ratings) && FindProperty(s.properties, Upper(sub.code), 0).Some?
    && !Taken(s.users, "deleted:" + token)
  }

  function SubmitEvent(tenant: nat, sub: Submission, c: Clock): TimedEvent {
    TimedEvent(c, Submit(tenant, sub, false))
  }

  function ApproveEvent(admin: nat, id: nat, c: Clock): TimedEvent {
    TimedEvent(c, Moderate(admin, id, "approve", None))
  }

  function LeaveEvent(tenant: nat, token: string, c: Clock): TimedEvent {
    TimedEvent(c, CloseAccount(tenant, "DELETE", true, token))
  }

  /** The tenant's review of the property has that status; nothing has happened to either account. */
  ghost predicate Reviewed(s: State, admin: nat, tenant: nat, id: nat, p: nat, status: Status, token: string) {
    && Acting(s.users, admin) && IsAdmin(s.users, admin) && Acting(s.users, tenant) && admin != tenant
    && id in s.reviews && s.reviews[id].owner == tenant && s.reviews[id].property == p && p < |s.properties|
    && s.reviews[id].status == status && !Taken(s.users, "deleted:" + token)
  }

  lemma Submitted(s: State, admin: nat, tenant: nat, sub: Submission, token: string, c: Clock)
    requires Ready(s, admin, tenant, sub, token)
    ensures Reviewed(Step(s, SubmitEvent(tenant, sub, c)).0, admin, tenant, s.nextReview,
                     FindProperty(s.properties, Upper(sub.code), 0).value, Pending, token)
  {
  }

  lemma ApprovedNow(s: State, admin: nat, tenant: nat, id: nat, p: nat, status: Status, token: string, c: Clock)
    requires Reviewed(s, admin, tenant, id, p, status, token)
    ensures Reviewed(Step(s, ApproveEvent(admin, id, c)).0, admin, tenant, id, p, Approved, token)
  {
  }

  lemma LeftNow(s: State, admin: nat, tenant: nat, id: nat, p: nat, token: string, c: Clock)
    requires Reviewed(s, admin, tenant, id, p, Approved, token)
    ensures var e := LeaveEvent(tenant, token, c);
            && Step(s, e).1 == Done && Touched(s, e) == None && HasStake(s, tenant, p)
  {
    assert HasApproved(s, tenant, p, id);
  }

  /**
   The property's cache counts a review that is no longer public: a tenant's review is
   approved, and the tenant closes the account and withdraws it.
   */
  lemma LeavingMakesStale(s: State, admin: nat, tenant: nat, sub: Submission, token: string, c: Clock)
    requires Initial(s) && Ready(s, admin, tenant, sub, token)
    ensures var p := FindProperty(s.properties, Upper(sub.code), 0).value;
            var run := [SubmitEvent(tenant, sub, c), ApproveEvent(admin, 0, c), LeaveEvent(tenant, token, c)];
            && Stale(s, run, p) && |Run(s, run).properties| == |s.properties|
            && !Agrees(Run(s, run), p, LastRecompute(s, run, p))
  {
    var p := FindProperty(s.properties, Upper(sub.code), 0).value;
    var a, b, d := SubmitEvent(tenant, sub, c), ApproveEvent(admin, 0, c), LeaveEvent(tenant, token, c);
    RunOfOne(s, a);
    RunOfTwo(s, a, b);
    Submitted(s, admin, tenant, sub, token, c);
    ApprovedNow(Run(s, [a]), admin, tenant, 0, p, Pending, token, c);
    LeftNow(Run(s, [a, b]), admin, tenant, 0, p, token, c);
    StaleAfterLeaving(s, [a, b], d, p);
    assert [a, b] + [d] == [a, b, d];
    CacheIsAggregateIff(s, [a, b, d], p);
  }

  lemma FirstFace(s: State, tenant: nat, sub: Submission, c: Clock, t: State)
    requires Acting(s.users, tenant) && ValidRatings(sub.content.ratings)
    requires FindProperty(s.properties, Upper(sub.code), 0).Some? && t == Step(s, SubmitEvent(tenant, sub, c)).0
    ensures s.nextReview in t.reviews && t.reviews[s.nextReview].anonymous == sub.anonymous
    ensures t.reviews[s.nextReview].displayName == s.users[tenant].displayName
  {
  }

  lemma AdminStays(s: State, admin: nat, tenant: nat, id: nat, p: nat, token: string, c: Clock)
    requires Reviewed(s, admin, tenant, id, p, Approved, token)
    ensures var t := Step(s, LeaveEvent(tenant, token, c)).0;
            && Acting(t.users, admin) && IsAdmin(t.users, admin) && Closed(t, tenant)
            && id in t.reviews && t.reviews[id].status == Rejected && SameFace(s.reviews[id], t.reviews[id])
  {
  }

  lemma ApprovedFace(s: State, admin: nat, id: nat, c: Clock)
    requires Acting(s.users, admin) && IsAdmin(s.users, admin) && id in s.reviews
    ensures var t := Step(s, ApproveEvent(admin, id, c)).0;
            id in t.reviews && t.reviews[id].status == Approved && SameFace(s.reviews[id], t.reviews[id])
            && t.users == s.users
  {
  }

  lemma RunOfOne(s: State, a: TimedEvent)
    ensures Run(s, [a]) == Step(s, a).0
  {
    assert [a][..0] == [];
  }

  lemma RunOfTwo(s: State, a: TimedEvent, b: TimedEvent)
    ensures Run(s, [a, b]) == Step(Run(s, [a]), b).0
  {
    assert [a, b][..1] == [a];
  }

  lemma LastOfThree(s: State, a: TimedEvent, b: TimedEvent, d: TimedEvent)
    ensures Run(s, [a, b, d]) == Step(Run(s, [a, b]), d).0
  {
    assert [a, b, d][..2] == [a, b];
  }

  lemma RunOfThree(s: State, a: TimedEvent, b: TimedEvent, d: TimedEvent)
    ensures Run(s, [a, b, d]) == Step(Step(Step(s, a).0, b).0, d).0
  {
    RunOfOne(s, a);
    RunOfTwo(s, a, b);
    LastOfThree(s, a, b, d);
  }

  lemma LeavingKeepsFace(s: State, admin: nat, tenant: nat, sub: Submission, token: string, c: Clock, t: State)
    requires Ready(s, admin, tenant, sub, token)
    requires var submitted := Step(s, SubmitEvent(tenant, sub, c)).0;
             var approved := Step(submitted, ApproveEvent(admin, s.nextReview, c)).0;
             t == Step(approved, LeaveEvent(tenant, token, c)).0
    ensures Acting(t.users, admin) && IsAdmin(t.users, admin) && Closed(t, tenant) && s.nextReview in t.reviews
    ensures t.reviews[s.nextReview].anonymous == sub.anonymous
    ensures t.reviews[s.nextReview].displayName == s.users[tenant].displayName
  {
    var p := FindProperty(s.properties, Upper(sub.code), 0).value;
    var submitted := Step(s, SubmitEvent(tenant, sub, c)).0;
    var approved := Step(submitted, ApproveEvent(admin, s.nextReview, c)).0;
    Submitted(s, admin, tenant, sub, token, c);
    FirstFace(s, tenant, sub, c, submitted);
    ApprovedNow(submitted, admin, tenant, s.nextReview, p, Pending, token, c);
    ApprovedFace(submitted, admin, s.nextReview, c);
    AdminStays(approved, admin, tenant, s.nextReview, p, token, c);
  }

  /**
   The promise of the withdrawal fails: approved once more, the review is public again
   under the name its author had, though the account is closed.
   */
  lemma OldNameIsBack(s: State, admin: nat, tenant: nat, sub: Submission, token: string, c: Clock)
    requires Initial(s) && Ready(s, admin, tenant, sub, token)
    ensures var run := [SubmitEvent(tenant, sub, c), ApproveEvent(admin, 0, c), LeaveEvent(tenant, token, c)];
            var t := Run(s, run + [ApproveEvent(admin, 0, c)]);
            && Closed(t, tenant) && 0 in t.reviews && t.reviews[0].status == Approved
            && t.reviews[0].anonymous == sub.anonymous && t.reviews[0].displayName == s.users[tenant].displayName
  {
    var run := [SubmitEvent(tenant, sub, c), ApproveEvent(admin, 0, c), LeaveEvent(tenant, token, c)];
    RunOfThree(s, run[0], run[1], run[2]);
    LeavingKeepsFace(s, admin, tenant, sub, token, c, Run(s, run));
    RunOf(s, run, ApproveEvent(admin, 0, c));
    ApprovedFace(Run(s, run), admin, 0, c);
  }

  lemma RunOf(start: State, events: seq<TimedEvent>, e: TimedEvent)
    ensures Run(start, events + [e]) == Step(Run(start, events), e).0
  {
    assert (events + [e])[..|events|] == events;
  }

  lemma StaleAfterLeaving(start: State, events: seq<TimedEvent>, e: TimedEvent, p: nat)
    requires var s := Run(start, events);
             Step(s, e).1 == Done && Touched(s, e) == None && WithdrawsReviews(e) && HasStake(s, e.event.user, p)
    ensures Stale(start, events + [e], p)
  {
    assert (events + [e])[..|events|] == events;
  }

  /** Such a start: one administrator, one tenant, one property. */
  lemma SomeoneIsReady() returns (s: State, sub: Submission)
    ensures Initial(s) && Ready(s, 0, 1, sub, "x") && |s.properties| == 1
  {
    var ratings := map d | d in DIMENSIONS :: 4;
    DimensionsListed();
    sub := Submission("P-1", Content(ratings, None, None, None, None), Date(2024, 1, 1), false, None);
    s := State([User("a", None, true, true, 0), User("b", Some("Tunde"), false, true, 0)], [], [], map[], 0,
               [PropertyRow("P-1", NO_CACHE, None)]);
    UpperNothing("P-1");
    assert s.users[0].phoneHash != s.users[1].phoneHash && |"deleted:" + "x"| == 9;
  }

  /** There the cache does go stale. */
  lemma SomeCacheGoesStale(c: Clock) returns (start: State, run: seq<TimedEvent>)
    ensures Initial(start) && |start.properties| == |Run(start, run).properties| == 1
    ensures Stale(start, run, 0) && !Agrees(Run(start, run), 0, LastRecompute(start, run, 0))
  {
    var sub;
    start, sub := SomeoneIsReady();
    LeavingMakesStale(start, 0, 1, sub, "x", c);
    run := [SubmitEvent(1, sub, c), ApproveEvent(0, 0, c), LeaveEvent(1, "x", c)];
  }
}
