/** The cached scores of a property against its approved reviews, over every run. */
module CacheLaws {
  import opened Wrappers
  import opened Text
  import opened Scoring
  import opened ScoringLaws
  import opened Platform
  import opened ReviewLaws

  /** What a review contributes to a property's score. */
  function Contribution(reviews: map<nat, Review>, id: nat, property: nat): seq<ReviewScore> {
    if id in reviews && Counted(reviews[id], property) then [ScoreOf(reviews[id])] else []
  }

  lemma {:induction false} SameContributions(a: map<nat, Review>, b: map<nat, Review>, n: nat, property: nat)
    requires forall id: nat | id < n :: Contribution(a, id, property) == Contribution(b, id, property)
    ensures ApprovedScores(a, n, property) == ApprovedScores(b, n, property)
  {
    if n != 0 {
      SameContributions(a, b, n - 1, property);
      assert Contribution(a, n - 1, property) == Contribution(b, n - 1, property);
    }
  }

  /** As many scores as approved reviews. */
  lemma {:induction false} FewerContributions(a: map<nat, Review>, b: map<nat, Review>, n: nat, property: nat)
    requires forall id: nat | id < n ::
               Contribution(b, id, property) == Contribution(a, id, property) || Contribution(b, id, property) == []
    ensures |ApprovedScores(b, n, property)| <= |ApprovedScores(a, n, property)|
    ensures (exists id: nat :: id < n && Contribution(a, id, property) != Contribution(b, id, property))
            ==> |ApprovedScores(b, n, property)| < |ApprovedScores(a, n, property)|
  {
    if n != 0 {
      FewerContributions(a, b, n - 1, property);
      var x, y := Contribution(a, n - 1, property), Contribution(b, n - 1, property);
      assert y == x || y == [];
      if exists id: nat :: id < n && Contribution(a, id, property) != Contribution(b, id, property) {
        var id: nat :| id < n && Contribution(a, id, property) != Contribution(b, id, property);
        assert id < n - 1 ==>
                 exists i: nat :: i < n - 1 && Contribution(a, i, property) != Contribution(b, i, property);
      }
    }
  }

  /** Which property's scores an accepted event recomputes. */
  function Touched(s: State, e: TimedEvent): Option<nat> {
    if Step(s, e).1 != Done then None
    else
      match e.event
      case Submit(_, _, _) =>
        if s.nextReview in Step(s, e).0.reviews then Some(Step(s, e).0.reviews[s.nextReview].property) else None
      case Edit(_, id, _, _) => if id in s.reviews then Some(s.reviews[id].property) else None
      case Delete(_, id) => if id in s.reviews then Some(s.reviews[id].property) else None
      case Moderate(_, id, _, _) => if id in s.reviews then Some(s.reviews[id].property) else None
      case _ => None
  }

  /** The day of a property's last recompute. */
  function LastRecompute(start: State, events: seq<TimedEvent>, property: nat): Option<Date> {
    if events == [] then None
    else
      var s, e := Run(start, events[..|events| - 1]), events[|events| - 1];
      if Touched(s, e) == Some(property) then Some(e.clock.today)
      else LastRecompute(start, events[..|events| - 1], property)
  }

  function ScoresOf(s: State, property: nat): seq<ReviewScore> {
    ApprovedScores(s.reviews, s.nextReview, property)
  }

  /** The cache is what the scores give, as of the given day. */
  predicate UpToDate(cache: Cache, scores: seq<ReviewScore>, day: Option<Date>) {
    match day
    case None => scores == [] && cache == NO_CACHE
    case Some(d) => cache == CacheOf(scores, d)
  }

  /** The cache is the aggregate of the approved reviews, as of the given day. */
  predicate Agrees(s: State, property: nat, day: Option<Date>)
    requires property < |s.properties|
  {
    UpToDate(s.properties[property].cache, ScoresOf(s, property), day)
  }

  ghost predicate PropertiesExist(s: State) {
    IdsBelow(s) && forall id | id in s.reviews :: s.reviews[id].property < |s.properties|
  }

  /** Steps that change one review, or add or remove it, do not disturb other properties. */
  ghost predicate OnlyReview(s: State, t: State, id: nat, property: nat) {
    && (forall k: nat | k != id ::
          && (k in s.reviews <==> k in t.reviews)
          && (k in s.reviews ==> s.reviews[k] == t.reviews[k]))
    && (id in s.reviews ==> s.reviews[id].property == property)
    && (id in t.reviews ==> t.reviews[id].property == property)
  }

  lemma OthersUndisturbed(s: State, t: State, id: nat, property: nat, other: nat, n: nat)
    requires OnlyReview(s, t, id, property) && other != property
    ensures ApprovedScores(t.reviews, n, other) == ApprovedScores(s.reviews, n, other)
  {
    forall k: nat | k < n ensures Contribution(s.reviews, k, other) == Contribution(t.reviews, k, other) {
      assert k != id ==> (k in s.reviews <==> k in t.reviews);
    }
    SameContributions(s.reviews, t.reviews, n, other);
  }

  lemma {:induction false} BeyondNothing(reviews: map<nat, Review>, n: nat, property: nat)
    requires n !in reviews || !Counted(reviews[n], property)
    ensures ApprovedScores(reviews, n + 1, property) == ApprovedScores(reviews, n, property)
  {
    assert ApprovedScores(reviews, n, property) + [] == ApprovedScores(reviews, n, property);
  }

  /** The shape of every step that recomputes: one review of the property changes, then its cache. */
  ghost predicate RecomputesAfter(s: State, t: State, id: nat, property: nat, today: Date) {
    && property < |s.properties| == |t.properties|
    && OnlyReview(s, t, id, property)
    && (t.nextReview == s.nextReview
        || (t.nextReview == s.nextReview + 1 && s.nextReview !in s.reviews && id == s.nextReview))
    && t.properties[property].cache == CacheOf(ApprovedScores(t.reviews, t.nextReview, property), today)
    && t.properties[property].rent
       == RentAfter(s.properties[property].rent, LatestRented(t.reviews, t.nextReview, property))
    && (forall p | 0 <= p < |s.properties| && p != property :: t.properties[p] == s.properties[p])
  }

  /** The cache agrees, or counts more reviews than are still approved. */
  ghost predicate Holds(cache: Cache, scores: seq<ReviewScore>, day: Option<Date>, stale: bool) {
    if stale then cache.total > |scores| else UpToDate(cache, scores, day)
  }

  ghost predicate Standing(s: State, property: nat, day: Option<Date>, stale: bool)
    requires property < |s.properties|
  {
    Holds(s.properties[property].cache, ScoresOf(s, property), day, stale)
  }

  /** With fewer reviews than before, a cache that agreed counts too many. */
  lemma FewerHold(cache: Cache, before: seq<ReviewScore>, after: seq<ReviewScore>, day: Option<Date>,
                  stale: bool, fewer: bool)
    requires Holds(cache, before, day, stale) && if fewer then |after| < |before| else after == before
    ensures Holds(cache, after, day, stale || fewer)
  {
  }

  lemma ScoresElsewhere(s: State, t: State, id: nat, property: nat, today: Date, p: nat)
    requires RecomputesAfter(s, t, id, property, today) && p != property
    ensures ScoresOf(t, p) == ScoresOf(s, p)
  {
    OthersUndisturbed(s, t, id, property, p, t.nextReview);
    if t.nextReview != s.nextReview {
      BeyondNothing(s.reviews, s.nextReview, p);
    }
  }

  lemma RecomputesKeep(s: State, t: State, id: nat, property: nat, today: Date, p: nat, day: Option<Date>, stale: bool)
    requires RecomputesAfter(s, t, id, property, today) && p < |s.properties| && Standing(s, p, day, stale)
    ensures Standing(t, p, if p == property then Some(today) else day, stale && p != property)
  {
    if p != property {
      ScoresElsewhere(s, t, id, property, today, p);
    }
  }

  /** A recompute on top of a change to one review of the property. */
  lemma RecomputedAfter(s: State, mid: State, id: nat, property: nat, today: Date)
    requires property < |s.properties| && mid.properties == s.properties && OnlyReview(s, mid, id, property)
    requires mid.nextReview == s.nextReview
             || (mid.nextReview == s.nextReview + 1 && s.nextReview !in s.reviews && id == s.nextReview)
    requires PropertiesExist(mid)
    ensures PropertiesExist(Recomputed(mid, property, today))
    ensures RecomputesAfter(s, Recomputed(mid, property, today), id, property, today)
  {
  }

  lemma WithReviewExists(s: State, property: nat, user: nat, sub: Submission, needsHuman: bool, c: Clock)
    requires PropertiesExist(s) && user < |s.users| && property < |s.properties|
    ensures var mid := WithReview(s, property, user, sub, needsHuman, c);
            && PropertiesExist(mid) && OnlyReview(s, mid, s.nextReview, property) && mid.properties == s.properties
            && mid.nextReview == s.nextReview + 1 && s.nextReview !in s.reviews
            && s.nextReview in mid.reviews && mid.reviews[s.nextReview].property == property
  {
  }

  lemma SubmitRecomputes(s: State, e: TimedEvent)
    requires PropertiesExist(s) && e.event.Submit? && Step(s, e).1 == Done
    ensures var t := Step(s, e).0;
            && PropertiesExist(t) && Touched(s, e).Some?
            && RecomputesAfter(s, t, s.nextReview, Touched(s, e).value, e.clock.today)
  {
    var sub, n := e.event.submission, e.event.needsHuman;
    var property := FindProperty(s.properties, Upper(sub.code), 0).value;
    WithReviewExists(s, property, e.event.user, sub, n, e.clock);
    RecomputedAfter(s, WithReview(s, property, e.event.user, sub, n, e.clock), s.nextReview, property, e.clock.today);
  }

  lemma EditIsRecompute(s: State, e: TimedEvent) returns (mid: State)
    requires e.event.Edit? && Step(s, e).1 == Done
    ensures var id := e.event.review;
            && id in s.reviews && id in mid.reviews && mid == s.(reviews := s.reviews[id := mid.reviews[id]])
            && mid.reviews[id].property == s.reviews[id].property
            && Step(s, e).0 == Recomputed(mid, s.reviews[id].property, e.clock.today)
  {
    mid := s.(reviews := Step(s, e).0.reviews);
  }

  lemma EditRecomputes(s: State, e: TimedEvent)
    requires PropertiesExist(s) && e.event.Edit? && Step(s, e).1 == Done
    ensures var t := Step(s, e).0;
            && PropertiesExist(t) && Touched(s, e).Some?
            && RecomputesAfter(s, t, e.event.review, Touched(s, e).value, e.clock.today)
  {
    var mid := EditIsRecompute(s, e);
    RecomputedAfter(s, mid, e.event.review, s.reviews[e.event.review].property, e.clock.today);
  }

  lemma DeleteRecomputes(s: State, e: TimedEvent)
    requires PropertiesExist(s) && e.event.Delete? && Step(s, e).1 == Done
    ensures var t := Step(s, e).0;
            && PropertiesExist(t) && Touched(s, e).Some?
            && RecomputesAfter(s, t, e.event.review, Touched(s, e).value, e.clock.today)
  {
  }

  lemma ModerateRecomputes(s: State, e: TimedEvent)
    requires PropertiesExist(s) && e.event.Moderate? && Step(s, e).1 == Done
    ensures var t := Step(s, e).0;
            && PropertiesExist(t) && Touched(s, e).Some?
            && RecomputesAfter(s, t, e.event.review, Touched(s, e).value, e.clock.today)
  {
  }

  predicate WithdrawsReviews(e: TimedEvent) {
    e.event.CloseAccount? && e.event.removeReviews
  }

  /** Steps that recompute nothing leave every contribution and every cache as they were. */
  ghost predicate ScoresKept(s: State, t: State) {
    && t.properties == s.properties && t.nextReview == s.nextReview
    && (forall id: nat, p: nat :: Contribution(t.reviews, id, p) == Contribution(s.reviews, id, p))
  }

  lemma KeptStanding(s: State, t: State, p: nat, day: Option<Date>, stale: bool)
    requires ScoresKept(s, t) && p < |s.properties| && Standing(s, p, day, stale)
    ensures Standing(t, p, day, stale)
  {
    SameContributions(s.reviews, t.reviews, s.nextReview, p);
  }

  lemma CloseKeeps(s: State, e: TimedEvent)
    requires PropertiesExist(s) && e.event.CloseAccount? && !WithdrawsReviews(e)
    ensures PropertiesExist(Step(s, e).0) && ScoresKept(s, Step(s, e).0)
  {
  }

  lemma ReplyKeeps(s: State, e: TimedEvent)
    requires PropertiesExist(s) && e.event.Reply?
    ensures PropertiesExist(Step(s, e).0) && ScoresKept(s, Step(s, e).0)
  {
  }

  predicate Recomputes(event: Event) {
    event.Submit? || event.Edit? || event.Delete? || event.Moderate?
  }

  lemma OthersKeep(s: State, e: TimedEvent)
    requires PropertiesExist(s) && !Recomputes(e.event) && !e.event.CloseAccount? && !e.event.Reply?
    ensures PropertiesExist(Step(s, e).0) && ScoresKept(s, Step(s, e).0)
  {
    var t := Step(s, e).0;
    assert t.reviews == s.reviews;
  }

  lemma RefusedKeeps(s: State, e: TimedEvent)
    requires Recomputes(e.event) && Step(s, e).1 != Done
    ensures Step(s, e).0 == s
  {
  }

  // ------------------------------------------------- withdrawing on the way out

  predicate HasApproved(s: State, u: nat, p: nat, id: nat) {
    id in s.reviews && s.reviews[id].owner == u && Counted(s.reviews[id], p)
  }

  /** Has the account an approved review of the property? */
  ghost predicate HasStake(s: State, u: nat, p: nat) {
    exists id: nat :: HasApproved(s, u, p, id)
  }

  ghost predicate StaleAfter(s: State, e: TimedEvent, p: nat, stale: bool) {
    if Touched(s, e) == Some(p) then false
    else stale || (WithdrawsReviews(e) && Step(s, e).1 == Done && HasStake(s, e.event.user, p))
  }

  lemma LeftContributions(s: State, u: nat, p: nat, id: nat)
    ensures Contribution(Left(s.reviews, u, true), id, p)
            == if HasApproved(s, u, p, id) then [] else Contribution(s.reviews, id, p)
  {
  }

  /** Withdrawing takes away exactly the account's own approved reviews. */
  lemma WithdrawnScores(s: State, u: nat, p: nat)
    requires IdsBelow(s)
    ensures var before := ApprovedScores(s.reviews, s.nextReview, p);
            var after := ApprovedScores(Left(s.reviews, u, true), s.nextReview, p);
            if HasStake(s, u, p) then |after| < |before| else after == before
  {
    var n, after := s.nextReview, Left(s.reviews, u, true);
    forall id: nat
      ensures Contribution(after, id, p) == if HasApproved(s, u, p, id) then [] else Contribution(s.reviews, id, p)
    {
      LeftContributions(s, u, p, id);
    }
    FewerContributions(s.reviews, after, n, p);
    if HasStake(s, u, p) {
      var id: nat :| HasApproved(s, u, p, id);
      assert id < n && Contribution(s.reviews, id, p) != Contribution(after, id, p);
    } else {
      SameContributions(s.reviews, after, n, p);
    }
  }

  /** The state in which reviews are withdrawn: nothing is recomputed. */
  lemma WithdrawalStep(s: State, e: TimedEvent)
    requires PropertiesExist(s) && WithdrawsReviews(e)
    ensures var (t, res) := Step(s, e);
            && PropertiesExist(t) && t.properties == s.properties && t.nextReview == s.nextReview
            && t.reviews == if res == Done then Left(s.reviews, e.event.user, true) else s.reviews
    ensures Touched(s, e) == None
  {
  }

  lemma WithdrawalStands(s: State, e: TimedEvent, p: nat, day: Option<Date>, stale: bool)
    requires PropertiesExist(s) && p < |s.properties| && Standing(s, p, day, stale) && WithdrawsReviews(e)
    ensures var t := Step(s, e).0;
            && PropertiesExist(t) && |t.properties| == |s.properties|
            && Standing(t, p, day, StaleAfter(s, e, p, stale))
  {
    WithdrawalStep(s, e);
    var t, fewer := Step(s, e).0, Step(s, e).1 == Done && HasStake(s, e.event.user, p);
    if Step(s, e).1 == Done {
      WithdrawnScores(s, e.event.user, p);
    }
    FewerHold(s.properties[p].cache, ScoresOf(s, p), ScoresOf(t, p), day, stale, fewer);
  }

  lemma StepStands(s: State, e: TimedEvent, p: nat, day: Option<Date>, stale: bool)
    requires PropertiesExist(s) && p < |s.properties| && Standing(s, p, day, stale)
    ensures var t := Step(s, e).0;
            && PropertiesExist(t) && |t.properties| == |s.properties|
            && Standing(t, p, if Touched(s, e) == Some(p) then Some(e.clock.today) else day, StaleAfter(s, e, p, stale))
  {
    var t := Step(s, e).0;
    if Recomputes(e.event) {
      if Step(s, e).1 != Done {
        RefusedKeeps(s, e);
      } else {
        var id := if e.event.Submit? then s.nextReview else e.event.review;
        AcceptedRecomputes(s, e, id);
        RecomputesKeep(s, t, id, Touched(s, e).value, e.clock.today, p, day, stale);
      }
    } else if WithdrawsReviews(e) {
      WithdrawalStands(s, e, p, day, stale);
    } else {
      if e.event.CloseAccount? {
        CloseKeeps(s, e);
      } else if e.event.Reply? {
        ReplyKeeps(s, e);
      } else {
        OthersKeep(s, e);
      }
      KeptStanding(s, t, p, day, stale);
    }
  }

  lemma AcceptedRecomputes(s: State, e: TimedEvent, id: nat)
    requires PropertiesExist(s) && Recomputes(e.event) && Step(s, e).1 == Done
    requires id == if e.event.Submit? then s.nextReview else e.event.review
    ensures var t := Step(s, e).0;
            && PropertiesExist(t) && Touched(s, e).Some?
            && RecomputesAfter(s, t, id, Touched(s, e).value, e.clock.today)
  {
    match e.event
    case Submit(_, _, _) => SubmitRecomputes(s, e);
    case Edit(_, _, _, _) => EditRecomputes(s, e);
    case Delete(_, _) => DeleteRecomputes(s, e);
    case Moderate(_, _, _, _) => ModerateRecomputes(s, e);
  }

  // ------------------------------------------------------------- over every run

  /** Since the property's last recompute, an account with an approved review of it withdrew its reviews. */
  ghost predicate Stale(start: State, events: seq<TimedEvent>, p: nat) {
    events != []
    && StaleAfter(Run(start, events[..|events| - 1]), events[|events| - 1], p, Stale(start, events[..|events| - 1], p))
  }

  lemma {:induction false} RunStands(start: State, events: seq<TimedEvent>, p: nat)
    requires Initial(start) && p < |start.properties|
    ensures PropertiesExist(Run(start, events)) && |Run(start, events).properties| == |start.properties|
    ensures Standing(Run(start, events), p, LastRecompute(start, events, p), Stale(start, events, p))
  {
    if events != [] {
      var front, e := events[..|events| - 1], events[|events| - 1];
      RunStands(start, front, p);
      StepStands(Run(start, front), e, p, LastRecompute(start, front, p), Stale(start, front, p));
    }
  }

  /**
   After any run, a property's cache is the aggregate of its approved reviews as of its
   last recompute, exactly when no account closed since then took approved reviews of the
   property with it: closing an account recomputes nothing.
   */
  lemma CacheIsAggregateIff(start: State, events: seq<TimedEvent>, p: nat)
    requires Initial(start) && p < |start.properties|
    ensures |Run(start, events).properties| == |start.properties|
    ensures Agrees(Run(start, events), p, LastRecompute(start, events, p)) <==> !Stale(start, events, p)
  {
    RunStands(start, events, p);
  }

  /** What the property's last recompute counted. */
  function LastScores(start: State, events: seq<TimedEvent>, p: nat): seq<ReviewScore> {
    if events == [] then []
    else if Touched(Run(start, events[..|events| - 1]), events[|events| - 1]) == Some(p) then
      ScoresOf(Run(start, events), p)
    else LastScores(start, events[..|events| - 1], p)
  }

  /** What a recompute writes for the property. */
  function RecomputedRow(row: PropertyRow, t: State, property: nat, today: Date): PropertyRow {
    row.(cache := CacheOf(ScoresOf(t, property), today),
         rent := RentAfter(row.rent, LatestRented(t.reviews, t.nextReview, property)))
  }

  /** One step writes the cache and rent it recomputes, and no other. */
  lemma CacheStep(s: State, e: TimedEvent, p: nat)
    requires PropertiesExist(s) && p < |s.properties|
    ensures var t := Step(s, e).0;
            && |t.properties| == |s.properties|
            && (Touched(s, e) == Some(p) ==>
                  var row := RecomputedRow(s.properties[p], t, p, e.clock.today);
                  t.properties[p].cache == row.cache && t.properties[p].rent == row.rent)
            && (Touched(s, e) != Some(p) ==> t.properties[p] == s.properties[p])
  {
    if Recomputes(e.event) {
      if Step(s, e).1 != Done {
        RefusedKeeps(s, e);
      } else {
        AcceptedRecomputes(s, e, if e.event.Submit? then s.nextReview else e.event.review);
      }
    } else if WithdrawsReviews(e) {
      WithdrawalStep(s, e);
    } else if e.event.CloseAccount? {
      CloseKeeps(s, e);
    } else if e.event.Reply? {
      ReplyKeeps(s, e);
    } else {
      OthersKeep(s, e);
    }
  }

  /**
   In every run, whoever has left since: a property's cache is the aggregate of the reviews
   that were approved right after its last recompute, as of that day.
   */
  lemma {:induction false} CacheIsLastAggregate(start: State, events: seq<TimedEvent>, p: nat)
    requires Initial(start) && p < |start.properties|
    ensures p < |Run(start, events).properties|
    ensures UpToDate(Run(start, events).properties[p].cache, LastScores(start, events, p),
                     LastRecompute(start, events, p))
  {
    if events != [] {
      var front := events[..|events| - 1];
      CacheIsLastAggregate(start, front, p);
      RunStands(start, front, p);
      CacheStep(Run(start, front), events[|events| - 1], p);
    }
  }

  /** So it always is, over runs in which no closing account withdraws its reviews. */
  lemma {:induction false} NeverStale(start: State, events: seq<TimedEvent>, p: nat)
    requires forall i | 0 <= i < |events| :: !WithdrawsReviews(events[i])
    ensures !Stale(start, events, p)
  {
    if events != [] {
      NeverStale(start, events[..|events| - 1], p);
    }
  }

  // ------------------------------------------------------------- the latest rent

  predicate RentedAt(reviews: map<nat, Review>, id: nat, p: nat) {
    && id in reviews && reviews[id].property == p && reviews[id].status == Approved
    && reviews[id].content.rent.Some? && reviews[id].content.rent.value > 0
  }

  /** Review id reports the rent, and those with smaller ids that do started earlier. */
  ghost predicate FirstOfDay(reviews: map<nat, Review>, n: nat, p: nat, id: nat, r: Review) {
    && id < n && RentedAt(reviews, id, p) && reviews[id] == r
    && forall k: nat | k < id && RentedAt(reviews, k, p) :: reviews[k].tenancyStart.Before(r.tenancyStart)
  }

  lemma BeforeTotal(a: Date, b: Date, c: Date)
    ensures a.Before(b) ==> !b.Before(a)
    ensures !b.Before(a) && b.Before(c) ==> a.Before(c)
  {
  }

  /** No approved review with a rent among the first n started later. */
  ghost predicate NoneLater(reviews: map<nat, Review>, n: nat, p: nat, r: Review) {
    forall id: nat | id < n && RentedAt(reviews, id, p) :: !r.tenancyStart.Before(reviews[id].tenancyStart)
  }

  /**
   The review whose rent is taken is approved, reports one, and has the latest tenancy of
   all that do; of those that started that day it is the first posted.
   */
  lemma {:induction false} LatestRentedIs(reviews: map<nat, Review>, n: nat, p: nat)
    ensures var latest := LatestRented(reviews, n, p);
            && (latest.None? <==> forall id: nat | id < n :: !RentedAt(reviews, id, p))
            && (latest.Some? ==>
                  && (exists id: nat :: FirstOfDay(reviews, n, p, id, latest.value))
                  && NoneLater(reviews, n, p, latest.value))
  {
    if n != 0 {
      LatestRentedIs(reviews, n - 1, p);
      var before := LatestRented(reviews, n - 1, p);
      assert RentedAt(reviews, n - 1, p) <==> n - 1 in reviews && ReportsRent(reviews[n - 1], p);
      if RentedAt(reviews, n - 1, p) && Later(before, reviews[n - 1]) {
        LaterIsFirst(reviews, n, p, before);
      } else if before.Some? {
        var id: nat :| FirstOfDay(reviews, n - 1, p, id, before.value);
        assert FirstOfDay(reviews, n, p, id, before.value);
      }
    }
  }

  lemma LaterIsFirst(reviews: map<nat, Review>, n: nat, p: nat, before: Option<Review>)
    requires n != 0 && RentedAt(reviews, n - 1, p) && Later(before, reviews[n - 1])
    requires before.None? ==> forall id: nat | id < n - 1 :: !RentedAt(reviews, id, p)
    requires before.Some? ==> NoneLater(reviews, n - 1, p, before.value)
    ensures FirstOfDay(reviews, n, p, n - 1, reviews[n - 1]) && NoneLater(reviews, n, p, reviews[n - 1])
  {
    var r := reviews[n - 1];
    forall k: nat | k < n - 1 && RentedAt(reviews, k, p)
      ensures reviews[k].tenancyStart.Before(r.tenancyStart) && !r.tenancyStart.Before(reviews[k].tenancyStart)
    {
      BeforeTotal(reviews[k].tenancyStart, before.value.tenancyStart, r.tenancyStart);
      BeforeTotal(reviews[k].tenancyStart, r.tenancyStart, r.tenancyStart);
    }
  }

  function LastRent(start: State, events: seq<TimedEvent>, p: nat): Option<nat> {
    if events == [] then None
    else
      var front, t := events[..|events| - 1], Run(start, events);
      var latest := LatestRented(t.reviews, t.nextReview, p);
      if Touched(Run(start, front), events[|events| - 1]) == Some(p) && latest.Some? then latest.value.content.rent
      else LastRent(start, front, p)
  }

  /** In every run, a property shows that rent: one is kept when no approved review reports any. */
  lemma {:induction false} RentIsLast(start: State, events: seq<TimedEvent>, p: nat)
    requires Initial(start) && p < |start.properties|
    ensures p < |Run(start, events).properties|
    ensures Run(start, events).properties[p].rent == LastRent(start, events, p)
  {
    if events != [] {
      var front := events[..|events| - 1];
      RentIsLast(start, front, p);
      RunStands(start, front, p);
      CacheStep(Run(start, front), events[|events| - 1], p);
    }
  }

  // --------------------------------------------------------- what readers are shown

  ghost predicate RatingsValid(s: State) {
    forall id | id in s.reviews :: ValidRatings(s.reviews[id].content.ratings)
  }

  lemma {:induction false} RunRatingsValid(start: State, events: seq<TimedEvent>)
    requires Initial(start)
    ensures RatingsValid(Run(start, events))
  {
    if events != [] {
      var front, e := events[..|events| - 1], events[|events| - 1];
      RunRatingsValid(start, front);
      RunIds(start, front);
      var s, t := Run(start, front), Run(start, events);
      forall id | id in t.reviews ensures ValidRatings(t.reviews[id].content.ratings) {
        StepGoverned(s, e, id);
        NewRatingsValid(s, e, id);
      }
    }
  }

  /** Ratings only enter through the two checked requests. */
  lemma NewRatingsValid(s: State, e: TimedEvent, id: nat)
    requires RatingsValid(s) && IdsBelow(s) && id in Step(s, e).0.reviews
    requires e.event.Edit? || e.event.Submit? || Governed(s, e, Step(s, e).0, id)
    ensures ValidRatings(Step(s, e).0.reviews[id].content.ratings)
  {
    match e.event
    case Submit(_, _, _) => SubmittedRatings(s, e, id);
    case Edit(_, _, _, _) => EditedRatings(s, e, id);
    case _ => OldRatings(s, e, id);
  }

  lemma SubmittedRatings(s: State, e: TimedEvent, id: nat)
    requires RatingsValid(s) && id in Step(s, e).0.reviews && e.event.Submit?
    ensures ValidRatings(Step(s, e).0.reviews[id].content.ratings)
  {
  }

  lemma EditedRatings(s: State, e: TimedEvent, id: nat)
    requires RatingsValid(s) && id in Step(s, e).0.reviews && e.event.Edit?
    ensures ValidRatings(Step(s, e).0.reviews[id].content.ratings)
  {
  }

  lemma OldRatings(s: State, e: TimedEvent, id: nat)
    requires RatingsValid(s) && IdsBelow(s) && id in Step(s, e).0.reviews
    requires !e.event.Edit? && !e.event.Submit? && Governed(s, e, Step(s, e).0, id)
    ensures ValidRatings(Step(s, e).0.reviews[id].content.ratings)
  {
    KeysShrink(s, e);
  }

  lemma KeysShrink(s: State, e: TimedEvent)
    requires !e.event.Submit? && IdsBelow(s)
    ensures Step(s, e).0.reviews.Keys <= s.reviews.Keys
  {
    if e.event.Delete? {
      DeleteShrinks(s, e);
    } else if !e.event.SignIn? {
      SameOwners(s, e);
    }
  }

  lemma DeleteShrinks(s: State, e: TimedEvent)
    requires e.event.Delete?
    ensures Step(s, e).0.reviews.Keys <= s.reviews.Keys
  {
  }

  lemma {:induction false} ScoresComplete(reviews: map<nat, Review>, n: nat, p: nat)
    requires forall id | id in reviews :: ValidRatings(reviews[id].content.ratings)
    ensures forall r | r in ApprovedScores(reviews, n, p) :: Complete(r) && OnScale(r)
  {
    if n != 0 {
      ScoresComplete(reviews, n - 1, p);
    }
  }

  lemma {:induction false} NoCutoff(rs: seq<ReviewScore>)
    ensures Included(rs, None) == rs
  {
    if rs != [] {
      NoCutoff(rs[..|rs| - 1]);
    }
  }

  /** The figures of a cache made from complete scores. */
  ghost predicate FiguresAgree(cache: Cache) {
    && (cache.avg.None? <==> cache.total == 0)
    && (forall d | d in DIMENSIONS :: d in cache.breakdown)
    && (cache.avg.Some? ==>
          && 1.0 <= cache.avg.value <= 5.0
          && -0.01 <= cache.avg.value - Bars(cache.breakdown, DIMENSIONS) / 10.0 <= 0.01)
  }

  lemma CompleteFiguresAgree(scores: seq<ReviewScore>, day: Date)
    requires forall r | r in scores :: Complete(r) && OnScale(r)
    ensures FiguresAgree(CacheOf(scores, day))
  {
    NoCutoff(scores);
    ScoresOnScale(scores, day, None);
    forall r | r in scores ensures r.ratings != map[] {
      assert Complete(r) && Landlord in r.ratings;
    }
    if scores != [] {
      HeadlineAgreesWithBreakdown(scores, day, None);
      SameBars(Aggregate(scores, day, None).perDimension, DIMENSIONS, DIMENSIONS);
    }
  }

  lemma {:induction false} LastScoresComplete(start: State, events: seq<TimedEvent>, p: nat)
    requires Initial(start)
    ensures forall r | r in LastScores(start, events, p) :: Complete(r) && OnScale(r)
  {
    if events != [] {
      LastScoresComplete(start, events[..|events| - 1], p);
      var t := Run(start, events);
      RunRatingsValid(start, events);
      ScoresComplete(t.reviews, t.nextReview, p);
    }
  }

  /**
   In every run, withdrawals or not: once a property's scores have been computed, the
   headline it shows lies in [1, 5], is missing exactly when no review was counted, and is
   within 0.01 of the mean of the ten bars shown beside it.
   */
  lemma ShownScoresAgree(start: State, events: seq<TimedEvent>, p: nat)
    requires Initial(start) && p < |start.properties|
    requires LastRecompute(start, events, p).Some?
    ensures p < |Run(start, events).properties|
    ensures FiguresAgree(Run(start, events).properties[p].cache)
  {
    CacheIsLastAggregate(start, events, p);
    LastScoresComplete(start, events, p);
    CompleteFiguresAgree(LastScores(start, events, p), LastRecompute(start, events, p).value);
  }

  lemma {:induction false} SameBars(perDimension: map<Dimension, real>, all: seq<Dimension>, dims: seq<Dimension>)
    requires forall d | d in dims :: d in all
    requires forall d | d in all :: d in perDimension
    ensures Bars(FullBreakdown(perDimension, all), dims) == Bars(perDimension, dims)
  {
    if dims != [] {
      SameBars(perDimension, all, dims[1..]);
    }
  }

  // ------------------------------------------------ what is counted, review by review

  /** The scores are those of the property's approved reviews, in the order of their ids. */
  ghost predicate ListsApproved(at: seq<nat>, scores: seq<ReviewScore>, reviews: map<nat, Review>, n: nat, p: nat) {
    && |at| == |scores|
    && (forall i, j | 0 <= i < j < |at| :: at[i] < at[j])
    && (forall i | 0 <= i < |at| ::
          && at[i] in reviews
          && scores[i].ratings == reviews[at[i]].content.ratings
          && scores[i].createdAt == reviews[at[i]].createdOn
          && scores[i].verified == reviews[at[i]].verified)
    && (forall id: nat ::
          id in at <==> id < n && id in reviews && reviews[id].property == p && reviews[id].status == Approved)
  }

  lemma {:induction false} ScoresListed(reviews: map<nat, Review>, n: nat, p: nat) returns (at: seq<nat>)
    ensures ListsApproved(at, ApprovedScores(reviews, n, p), reviews, n, p)
  {
    if n == 0 {
      at := [];
    } else {
      at := ScoresListed(reviews, n - 1, p);
      if n - 1 in reviews && Counted(reviews[n - 1], p) {
        OneMoreListed(at, reviews, n, p);
        at := at + [n - 1];
      }
    }
  }

  lemma OneMoreListed(at: seq<nat>, reviews: map<nat, Review>, n: nat, p: nat)
    requires n != 0 && n - 1 in reviews && Counted(reviews[n - 1], p)
    requires ListsApproved(at, ApprovedScores(reviews, n - 1, p), reviews, n - 1, p)
    ensures ListsApproved(at + [n - 1], ApprovedScores(reviews, n, p), reviews, n, p)
  {
    forall i | 0 <= i < |at| ensures at[i] < n - 1 {
      assert at[i] in at;
    }
    assert ApprovedScores(reviews, n, p) == ApprovedScores(reviews, n - 1, p) + [ScoreOf(reviews[n - 1])];
  }

  ghost function ApprovedIds(reviews: map<nat, Review>, n: nat, p: nat): set<nat> {
    set id: nat | id < n && id in reviews && reviews[id].property == p && reviews[id].status == Approved
  }

  ghost function VerifiedIds(reviews: map<nat, Review>, n: nat, p: nat): set<nat> {
    set id | id in ApprovedIds(reviews, n, p) && reviews[id].verified
  }

  lemma ApprovedGrow(reviews: map<nat, Review>, n: nat, p: nat)
    ensures |ApprovedIds(reviews, n + 1, p)|
            == |ApprovedIds(reviews, n, p)| + if n in reviews && Counted(reviews[n], p) then 1 else 0
  {
    OneMore(ApprovedIds(reviews, n, p), n, ApprovedIds(reviews, n + 1, p));
  }

  lemma VerifiedGrow(reviews: map<nat, Review>, n: nat, p: nat)
    ensures |VerifiedIds(reviews, n + 1, p)|
            == |VerifiedIds(reviews, n, p)|
               + if n in reviews && Counted(reviews[n], p) && reviews[n].verified then 1 else 0
  {
    OneMore(VerifiedIds(reviews, n, p), n, VerifiedIds(reviews, n + 1, p));
  }

  lemma OneMore(before: set<nat>, n: nat, after: set<nat>)
    requires n !in before && forall k: nat | k != n :: k in after <==> k in before
    ensures |after| == |before| + if n in after then 1 else 0
  {
    assert after == if n in after then before + {n} else before;
  }

  lemma CountVerifiedMore(scores: seq<ReviewScore>, r: ReviewScore)
    ensures CountVerified(scores + [r]) == CountVerified(scores) + if r.verified then 1 else 0
  {
    assert (scores + [r])[..|scores|] == scores;
  }

  lemma ScoresMore(reviews: map<nat, Review>, n: nat, p: nat)
    ensures var more := n in reviews && Counted(reviews[n], p);
            && |ApprovedScores(reviews, n + 1, p)| == |ApprovedScores(reviews, n, p)| + (if more then 1 else 0)
            && CountVerified(ApprovedScores(reviews, n + 1, p))
               == CountVerified(ApprovedScores(reviews, n, p)) + (if more && reviews[n].verified then 1 else 0)
  {
    if n in reviews && Counted(reviews[n], p) {
      CountVerifiedMore(ApprovedScores(reviews, n, p), ScoreOf(reviews[n]));
    } else {
      assert ApprovedScores(reviews, n + 1, p) == ApprovedScores(reviews, n, p);
    }
  }

  lemma NoneCounted(reviews: map<nat, Review>, p: nat)
    ensures |ApprovedScores(reviews, 0, p)| == 0 == |ApprovedIds(reviews, 0, p)|
    ensures CountVerified(ApprovedScores(reviews, 0, p)) == 0 == |VerifiedIds(reviews, 0, p)|
  {
    assert ApprovedIds(reviews, 0, p) == {} && VerifiedIds(reviews, 0, p) == {};
  }

  lemma {:induction false} CountsAre(reviews: map<nat, Review>, n: nat, p: nat)
    ensures |ApprovedScores(reviews, n, p)| == |ApprovedIds(reviews, n, p)|
    ensures CountVerified(ApprovedScores(reviews, n, p)) == |VerifiedIds(reviews, n, p)|
  {
    if n == 0 {
      NoneCounted(reviews, p);
    } else {
      CountsAre(reviews, n - 1, p);
      CountsNext(reviews, n - 1, p);
    }
  }

  lemma CountsNext(reviews: map<nat, Review>, n: nat, p: nat)
    requires |ApprovedScores(reviews, n, p)| == |ApprovedIds(reviews, n, p)|
    requires CountVerified(ApprovedScores(reviews, n, p)) == |VerifiedIds(reviews, n, p)|
    ensures |ApprovedScores(reviews, n + 1, p)| == |ApprovedIds(reviews, n + 1, p)|
    ensures CountVerified(ApprovedScores(reviews, n + 1, p)) == |VerifiedIds(reviews, n + 1, p)|
  {
    ApprovedGrow(reviews, n, p);
    VerifiedGrow(reviews, n, p);
    ScoresMore(reviews, n, p);
  }

  /**
   The numbers shown: how many approved reviews there are and how many of them are verified,
   the headline, and a bar for every dimension, 0.0 when nobody rates it.
   */
  lemma FiguresCount(reviews: map<nat, Review>, n: nat, p: nat, today: Date)
    ensures var scores := ApprovedScores(reviews, n, p);
            var cache, result := CacheOf(scores, today), Aggregate(scores, today, None);
            && cache.total == |ApprovedIds(reviews, n, p)| && cache.verified == |VerifiedIds(reviews, n, p)|
            && cache.avg == result.overall
            && (forall d: Dimension ::
                  && d in cache.breakdown
                  && cache.breakdown[d] == if d in result.perDimension then result.perDimension[d] else 0.0)
  {
    CountsAre(reviews, n, p);
    DimensionsListed();
  }
}
