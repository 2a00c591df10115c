/**
 Accounts, reviews, moderation, replies, profile claims and cached property scores:
 the tables and the steps that change them (app/services/reviews.py, app/api/v1/reviews.py,
 admin.py, responses.py, agents.py, users.py, the account part of app/services/auth.py).

 A step is one transaction. The verdict of the text checks and random tokens are
 parameters of the step; so is the clock.
 */
module Platform {
  import opened Wrappers
  import opened Text
  import opened Scoring

  // ---------------------------------------------------------------- the tables

  datatype User = User(phoneHash: string, displayName: Option<string>, admin: bool, active: bool, reviewCount: int)

  datatype Agent = Agent(
    name: string, normalised: string, slug: Option<string>,
    phoneHash: Option<string>, claimed: bool, lasrera: Option<string>)

  datatype ClaimStatus = ClaimPending | ClaimApproved | ClaimRejected

  datatype Claim = Claim(agent: nat, user: nat, lasrera: Option<string>, status: ClaimStatus)

  datatype Status = Pending | Flagged | Approved | Rejected | NeedsEdits

  /** What the author says. */
  datatype Content = Content(
    ratings: Ratings, positives: Option<string>, warnings: Option<string>, tips: Option<string>, rent: Option<nat>)

  datatype Review = Review(
    property: nat, owner: nat, agent: Option<nat>, content: Content, verified: bool,
    anonymous: bool, displayName: Option<string>, status: Status,
    reply: Option<string>, replyFrom: Option<string>,
    createdAt: real, createdOn: Date, editedAt: Option<real>, tenancyStart: Date)

  datatype Cache = Cache(avg: Option<real>, breakdown: map<Dimension, real>, total: nat, verified: nat)

  const NO_CACHE := Cache(None, map[], 0, 0)

  /** A property, its cached scores and the latest rent reported for it. */
  datatype PropertyRow = PropertyRow(code: string, cache: Cache, rent: Option<nat>)

  /** A row of the moderators' record. */
  datatype Decision = Decision(review: nat, moderator: nat, action: string, previous: Status, note: Option<string>)

  /** Rows are numbered by their primary keys; a key is never used again. */
  datatype State = State(
    users: seq<User>, agents: seq<Agent>, claims: seq<Claim>,
    reviews: map<nat, Review>, nextReview: nat, properties: seq<PropertyRow>)

  // ------------------------------------------------------------------ requests

  datatype Submission = Submission(
    code: string, content: Content, tenancyStart: Date, anonymous: bool, agentName: Option<string>)

  /** Only what changed is sent. */
  datatype Amendment = Amendment(
    ratings: Option<Ratings>, positives: Option<string>, warnings: Option<string>, tips: Option<string>,
    rent: Option<nat>, anonymous: Option<bool>)

  datatype Event =
    | SignIn(phoneHash: string)
    | ChangePhone(user: nat, newHash: string)
    | CloseAccount(user: nat, confirm: string, removeReviews: bool, token: string)
    | Submit(user: nat, submission: Submission, needsHuman: bool)
    | Edit(user: nat, review: nat, amendment: Amendment, needsHuman: bool)
    | Delete(user: nat, review: nat)
    | Moderate(user: nat, review: nat, action: string, note: Option<string>)
    | Reply(user: nat, review: nat, role: string, text: string)
    | ClaimProfile(user: nat, slug: string, lasrera: Option<string>)
    | DecideClaim(user: nat, claim: nat, action: string)

  datatype Clock = Clock(now: real, today: Date)

  datatype Why = WindowClosed | HasReply | AlreadyReplied | AlreadyClaimed | Declined | AlreadyDecided | NumberTaken

  datatype Outcome = Done | Unauthorized | Forbidden | NotFound | Unprocessable | Conflict(why: Why) | Fault

  // ------------------------------------------------------------------ accounts

  predicate Acting(users: seq<User>, user: nat) {
    user < |users| && users[user].active
  }

  predicate IsAdmin(users: seq<User>, user: nat)
    requires Acting(users, user)
  {
    users[user].admin
  }

  predicate Taken(users: seq<User>, hash: string) {
    exists i | 0 <= i < |users| :: users[i].phoneHash == hash
  }

  predicate TakenByOther(users: seq<User>, hash: string, user: nat) {
    exists i | 0 <= i < |users| :: i != user && users[i].phoneHash == hash
  }

  /** A verified code signs in, creating the account on first use of a number. */
  function SignInStep(s: State, hash: string): (State, Outcome) {
    if Taken(s.users, hash) then (s, Done)
    else (s.(users := s.users + [User(hash, None, false, true, 0)]), Done)
  }

  /** `confirm_phone_change`, after its guess was accepted. */
  function ChangePhoneStep(s: State, user: nat, newHash: string): (State, Outcome) {
    if !Acting(s.users, user) then (s, Unauthorized)
    else if TakenByOther(s.users, newHash, user) then (s, Conflict(NumberTaken))
    else (s.(users := s.users[user := s.users[user].(phoneHash := newHash)]), Done)
  }

  function Anonymised(r: Review): Review {
    r.(anonymous := true, displayName := Some("Former tenant"))
  }

  function Withdrawn(r: Review): Review {
    r.(status := Rejected)
  }

  function Left(reviews: map<nat, Review>, user: nat, removeReviews: bool): map<nat, Review> {
    map id | id in reviews ::
      if reviews[id].owner != user then reviews[id]
      else if removeReviews then Withdrawn(reviews[id]) else Anonymised(reviews[id])
  }

  /** `delete_my_account`. The unique constraint refuses a token in use. */
  function CloseStep(s: State, user: nat, confirm: string, removeReviews: bool, token: string): (State, Outcome) {
    if !Acting(s.users, user) then (s, Unauthorized)
    else if confirm != "DELETE" then (s, Unprocessable)
    else
      var hash := "deleted:" + token;
      if TakenByOther(s.users, hash, user) then (s, Fault)
      else
        var u := s.users[user].(active := false, displayName := None, phoneHash := hash);
        (s.(users := s.users[user := u], reviews := Left(s.reviews, user, removeReviews)), Done)
  }

  // ------------------------------------------------------------------- scores

  predicate Counted(r: Review, property: nat) {
    r.property == property && r.status == Approved
  }

  function ScoreOf(r: Review): ReviewScore {
    ReviewScore(r.content.ratings, r.createdOn, r.verified)
  }

  /** The approved reviews of a property among the first n ids. */
  function ApprovedScores(reviews: map<nat, Review>, n: nat, property: nat): seq<ReviewScore> {
    if n == 0 then []
    else
      ApprovedScores(reviews, n - 1, property)
      + if n - 1 in reviews && Counted(reviews[n - 1], property) then [ScoreOf(reviews[n - 1])] else []
  }

  function CountVerified(scores: seq<ReviewScore>): nat {
    if scores == [] then 0
    else CountVerified(scores[..|scores| - 1]) + if scores[|scores| - 1].verified then 1 else 0
  }

  /** Every dimension, 0.0 where no review rates it. */
  function FullBreakdown(perDimension: map<Dimension, real>, dims: seq<Dimension>): map<Dimension, real> {
    map d | d in dims :: if d in perDimension then perDimension[d] else 0.0
  }

  function CacheOf(scores: seq<ReviewScore>, today: Date): Cache {
    var result := Aggregate(scores, today, None);
    Cache(result.overall, FullBreakdown(result.perDimension, DIMENSIONS), |scores|, CountVerified(scores))
  }

  predicate ReportsRent(r: Review, property: nat) {
    Counted(r, property) && r.content.rent.GetOr(0) != 0
  }

  /** Of the approved reviews with a rent, among the first n ids, the first with the latest tenancy. */
  function LatestRented(reviews: map<nat, Review>, n: nat, property: nat): Option<Review> {
    if n == 0 then None
    else
      var best := LatestRented(reviews, n - 1, property);
      if n - 1 in reviews && ReportsRent(reviews[n - 1], property) && Later(best, reviews[n - 1])
      then Some(reviews[n - 1]) else best
  }

  predicate Later(best: Option<Review>, r: Review) {
    best.None? || best.value.tenancyStart.Before(r.tenancyStart)
  }

  /** No rent reported leaves the one shown so far. */
  function RentAfter(shown: Option<nat>, latest: Option<Review>): Option<nat> {
    if latest.Some? then latest.value.content.rent else shown
  }

  /** `recompute_property_scores`. */
  function Recomputed(s: State, property: nat, today: Date): State {
    if property >= |s.properties| then s
    else
      var cache := CacheOf(ApprovedScores(s.reviews, s.nextReview, property), today);
      var rent := RentAfter(s.properties[property].rent, LatestRented(s.reviews, s.nextReview, property));
      s.(properties := s.properties[property := s.properties[property].(cache := cache, rent := rent)])
  }

  // ------------------------------------------------------------------ reviews

  /** All ten dimensions, each 1 to 5. */
  predicate ValidRatings(ratings: Ratings) {
    forall d: Dimension :: d in ratings && 1 <= ratings[d] <= 5
  }

  /** The first property at or after i with the given code. */
  function FindProperty(properties: seq<PropertyRow>, code: string, i: nat): (r: Option<nat>)
    requires i <= |properties|
    ensures r.Some? ==> r.value < |properties| && properties[r.value].code == code
    ensures r.None? ==> forall k | i <= k < |properties| :: properties[k].code != code
    decreases |properties| - i
  {
    if i == |properties| then None
    else if properties[i].code == code then Some(i)
    else FindProperty(properties, code, i + 1)
  }

  function FindAgent(agents: seq<Agent>, normalised: string, i: nat): (r: Option<nat>)
    requires i <= |agents|
    ensures r.Some? ==> r.value < |agents| && agents[r.value].normalised == normalised
    ensures r.None? ==> forall k | i <= k < |agents| :: agents[k].normalised != normalised
    decreases |agents| - i
  {
    if i == |agents| then None
    else if agents[i].normalised == normalised then Some(i)
    else FindAgent(agents, normalised, i + 1)
  }

  /** The named agent, created unclaimed when new. */
  function ResolveAgent(agents: seq<Agent>, name: Option<string>): (seq<Agent>, Option<nat>) {
    if name.None? || name.value == "" then (agents, None)
    else
      var norm := Lower(Strip(name.value));
      match FindAgent(agents, norm, 0)
      case Some(id) => (agents, Some(id))
      case None => (agents + [Agent.Agent(Strip(name.value), norm, None, None, false, None)], Some(|agents|))
  }

  function Queued(needsHuman: bool): Status {
    if needsHuman then Flagged else Pending
  }

  /** Python's `x or d` on numbers. */
  function OrElse(x: int, d: int): int {
    if x == 0 then d else x
  }

  function NewReview(property: nat, u: User, user: nat, agent: Option<nat>, sub: Submission, needsHuman: bool, c: Clock)
    : Review
  {
    Review(property, user, agent, sub.content, false, sub.anonymous, u.displayName, Queued(needsHuman),
           None, None, c.now, c.today, None, sub.tenancyStart)
  }

  /** The tables with the new review, before its property's scores are recomputed. */
  function WithReview(s: State, property: nat, user: nat, sub: Submission, needsHuman: bool, c: Clock): State
    requires user < |s.users|
  {
    var u := s.users[user];
    var (agents, agent) := ResolveAgent(s.agents, sub.agentName);
    var r := NewReview(property, u, user, agent, sub, needsHuman, c);
    s.(
      agents := agents, reviews := s.reviews[s.nextReview := r], nextReview := s.nextReview + 1,
      users := s.users[user := u.(reviewCount := OrElse(u.reviewCount, 0) + 1)])
  }

  function SubmitStep(s: State, user: nat, sub: Submission, needsHuman: bool, c: Clock): (State, Outcome) {
    if !Acting(s.users, user) then (s, Unauthorized)
    else if !ValidRatings(sub.content.ratings) then (s, Unprocessable)
    else
      match FindProperty(s.properties, Upper(sub.code), 0)
      case None => (s, NotFound)
      case Some(property) => (Recomputed(WithReview(s, property, user, sub, needsHuman, c), property, c.today), Done)
  }

  const EDIT_WINDOW: real := 172800.0

  /** `edit_window_remaining`. */
  function Remaining(r: Review, now: real): real {
    r.createdAt + EDIT_WINDOW - now
  }

  /** `_own_editable_review`: why not, or Done. */
  function Editable(s: State, user: nat, id: nat, now: real): Outcome {
    if id !in s.reviews || s.reviews[id].owner != user then NotFound
    else if Remaining(s.reviews[id], now) <= 0.0 then Conflict(WindowClosed)
    else if s.reviews[id].reply.Some? then Conflict(HasReply)
    else Done
  }

  function Pick<T>(given: Option<T>, current: Option<T>): Option<T> {
    if given.Some? then given else current
  }

  function Amended(c: Content, a: Amendment): Content {
    Content(a.ratings.GetOr(c.ratings), Pick(a.positives, c.positives), Pick(a.warnings, c.warnings),
            Pick(a.tips, c.tips), Pick(a.rent, c.rent))
  }

  function EditStep(s: State, user: nat, id: nat, a: Amendment, needsHuman: bool, c: Clock): (State, Outcome) {
    if !Acting(s.users, user) then (s, Unauthorized)
    else if a.ratings.Some? && !ValidRatings(a.ratings.value) then (s, Unprocessable)
    else if Editable(s, user, id, c.now) != Done then (s, Editable(s, user, id, c.now))
    else
      var r := s.reviews[id];
      var amended := r.(content := Amended(r.content, a), anonymous := a.anonymous.GetOr(r.anonymous),
                        status := Queued(needsHuman), editedAt := Some(c.now));
      (Recomputed(s.(reviews := s.reviews[id := amended]), r.property, c.today), Done)
  }

  function DeleteStep(s: State, user: nat, id: nat, c: Clock): (State, Outcome) {
    if !Acting(s.users, user) then (s, Unauthorized)
    else if Editable(s, user, id, c.now) != Done then (s, Editable(s, user, id, c.now))
    else
      var u := s.users[user];
      var count := OrElse(u.reviewCount, 1) - 1;
      var left := s.(
        reviews := s.reviews - {id},
        users := s.users[user := u.(reviewCount := if count < 0 then 0 else count)]);
      (Recomputed(left, s.reviews[id].property, c.today), Done)
  }

  // --------------------------------------------------------------- moderation

  function Action(action: string): Option<Status> {
    if action == "approve" then Some(Approved)
    else if action == "reject" then Some(Rejected)
    else if action == "request_edits" then Some(NeedsEdits)
    else None
  }

  function ModerateStep(s: State, user: nat, id: nat, action: string, note: Option<string>, c: Clock)
    : (State, Outcome)
  {
    if !Acting(s.users, user) then (s, Unauthorized)
    else if !IsAdmin(s.users, user) then (s, Forbidden)
    else if Action(action).None? then (s, Unprocessable)
    else if action != "approve" && Strip(note.GetOr("")) == "" then (s, Unprocessable)
    else if id !in s.reviews then (s, NotFound)
    else
      var r := s.reviews[id];
      var decided := s.(reviews := s.reviews[id := r.(status := Action(action).value)]);
      (Recomputed(decided, r.property, c.today), Done)
  }

  // ------------------------------------------------------------ right of reply

  /** A claimed agent's number, when the review names one. */
  predicate SpeaksFor(s: State, user: nat, r: Review)
    requires Acting(s.users, user)
  {
    && r.agent.Some? && r.agent.value < |s.agents|
    && var a := s.agents[r.agent.value];
       a.claimed && a.phoneHash.Some? && a.phoneHash.value != "" && a.phoneHash.value == s.users[user].phoneHash
  }

  predicate MayReply(s: State, user: nat, r: Review)
    requires Acting(s.users, user)
  {
    IsAdmin(s.users, user) || SpeaksFor(s, user, r)
  }

  const MAX_REPLY_CHARS: nat := 800

  function ReplyStep(s: State, user: nat, id: nat, role: string, text: string): (State, Outcome) {
    if !Acting(s.users, user) then (s, Unauthorized)
    else if !(20 <= |text| <= MAX_REPLY_CHARS) || (role != "landlord" && role != "agent") then (s, Unprocessable)
    else if id !in s.reviews || s.reviews[id].status != Approved then (s, NotFound)
    else if !MayReply(s, user, s.reviews[id]) then (s, Forbidden)
    else if s.reviews[id].reply.GetOr("") != "" then (s, Conflict(AlreadyReplied))
    else
      var r := s.reviews[id].(reply := Some(Strip(text)), replyFrom := Some(role));
      (s.(reviews := s.reviews[id := r]), Done)
  }

  // ----------------------------------------------------------- profile claims

  function FindSlug(agents: seq<Agent>, slug: string, i: nat): (r: Option<nat>)
    requires i <= |agents|
    ensures r.Some? ==> r.value < |agents| && agents[r.value].slug == Some(slug)
    ensures r.None? ==> forall k | i <= k < |agents| :: agents[k].slug != Some(slug)
    decreases |agents| - i
  {
    if i == |agents| then None
    else if agents[i].slug == Some(slug) then Some(i)
    else FindSlug(agents, slug, i + 1)
  }

  function FindClaim(claims: seq<Claim>, agent: nat, user: nat, i: nat): (r: Option<nat>)
    requires i <= |claims|
    ensures r.Some? ==> r.value < |claims| && claims[r.value].agent == agent && claims[r.value].user == user
    ensures r.None? ==> forall k | i <= k < |claims| :: claims[k].agent != agent || claims[k].user != user
    decreases |claims| - i
  {
    if i == |claims| then None
    else if claims[i].agent == agent && claims[i].user == user then Some(i)
    else FindClaim(claims, agent, user, i + 1)
  }

  function ClaimProfileStep(s: State, user: nat, slug: string, lasrera: Option<string>): (State, Outcome) {
    if !Acting(s.users, user) then (s, Unauthorized)
    else
      match FindSlug(s.agents, slug, 0)
      case None => (s, NotFound)
      case Some(agent) =>
        if s.agents[agent].claimed then (s, Conflict(AlreadyClaimed))
        else
          match FindClaim(s.claims, agent, user, 0)
          case None => (s.(claims := s.claims + [Claim(agent, user, lasrera, ClaimPending)]), Done)
          case Some(id) =>
            if s.claims[id].status == ClaimRejected then (s, Conflict(Declined))
            else (s.(claims := s.claims[id := s.claims[id].(lasrera := lasrera, status := ClaimPending)]), Done)
  }

  /** The agent, bound to the claimant's number. */
  function Bound(a: Agent, hash: string, lasrera: Option<string>): Agent {
    a.(claimed := true, phoneHash := Some(hash),
       lasrera := if lasrera.GetOr("") != "" then lasrera else a.lasrera)
  }

  /** A claim without its agent or claimant does not occur: foreign keys forbid it. */
  function DecideClaimStep(s: State, user: nat, id: nat, action: string): (State, Outcome) {
    if !Acting(s.users, user) then (s, Unauthorized)
    else if !IsAdmin(s.users, user) then (s, Forbidden)
    else if action != "approve" && action != "reject" then (s, Unprocessable)
    else if id >= |s.claims| || s.claims[id].agent >= |s.agents| then (s, NotFound)
    else
      var claim := s.claims[id];
      if claim.status != ClaimPending then (s, Conflict(AlreadyDecided))
      else if action == "reject" then (s.(claims := s.claims[id := claim.(status := ClaimRejected)]), Done)
      else if s.agents[claim.agent].claimed then (s, Conflict(AlreadyClaimed))
      else if claim.user >= |s.users| then (s, Fault)
      else
        var agent := Bound(s.agents[claim.agent], s.users[claim.user].phoneHash, claim.lasrera);
        (s.(agents := s.agents[claim.agent := agent], claims := s.claims[id := claim.(status := ClaimApproved)]), Done)
  }

  // ----------------------------------------------------------------- the runs

  datatype TimedEvent = TimedEvent(clock: Clock, event: Event)

  function Step(s: State, e: TimedEvent): (State, Outcome) {
    match e.event
    case SignIn(hash) => SignInStep(s, hash)
    case ChangePhone(u, hash) => ChangePhoneStep(s, u, hash)
    case CloseAccount(u, confirm, remove, token) => CloseStep(s, u, confirm, remove, token)
    case Submit(u, sub, needsHuman) => SubmitStep(s, u, sub, needsHuman, e.clock)
    case Edit(u, id, a, needsHuman) => EditStep(s, u, id, a, needsHuman, e.clock)
    case Delete(u, id) => DeleteStep(s, u, id, e.clock)
    case Moderate(u, id, action, note) => ModerateStep(s, u, id, action, note, e.clock)
    case Reply(u, id, role, text) => ReplyStep(s, u, id, role, text)
    case ClaimProfile(u, slug, lasrera) => ClaimProfileStep(s, u, slug, lasrera)
    case DecideClaim(u, id, action) => DecideClaimStep(s, u, id, action)
  }

  function Run(start: State, events: seq<TimedEvent>): State {
    if events == [] then start else Step(Run(start, events[..|events| - 1]), events[|events| - 1]).0
  }

  /** No reviews or claims yet; accounts, agents and properties may be known but are untouched. */
  ghost predicate Initial(s: State) {
    && (forall i | 0 <= i < |s.users| :: s.users[i].reviewCount == 0)
    && (forall i, j | 0 <= i < j < |s.users| :: s.users[i].phoneHash != s.users[j].phoneHash)
    && s.claims == [] && s.reviews == map[] && s.nextReview == 0
    && (forall i | 0 <= i < |s.agents| :: !s.agents[i].claimed)
    && (forall i | 0 <= i < |s.properties| :: s.properties[i].cache == NO_CACHE && s.properties[i].rent == None)
  }

  // --------------------------------------------------------------- what is seen

  /** The filter of the public listing: anyone sees approved reviews, authors also their own. */
  predicate Visible(r: Review, viewer: Option<nat>) {
    r.status == Approved || (viewer == Some(r.owner) && r.status != Rejected)
  }
}
