/** The platform's operations as methods that update the tables, each proved to be its step. */
module PlatformService {
  import opened Wrappers
  import opened Text
  import opened Scoring
  import opened Platform

  /** Properties nobody has reviewed. */
  function Untouched(codes: seq<string>): seq<PropertyRow> {
    seq(|codes|, i requires 0 <= i < |codes| => PropertyRow(codes[i], NO_CACHE, None))
  }

  /** The rows of every other account. */
  function Others(rows: map<nat, nat>, user: nat): map<nat, nat> {
    map id | id in rows && rows[id] != user :: rows[id]
  }

  function OthersSaved(saved: set<(nat, nat)>, user: nat): set<(nat, nat)> {
    set row | row in saved && row.0 != user
  }

  class Tables {
    var users: seq<User>
    var agents: seq<Agent>
    var claims: seq<Claim>
    var reviews: map<nat, Review>
    var nextReview: nat
    var properties: seq<PropertyRow>
    /** What moderators decided, in order. */
    var trail: seq<Decision>
    /** Photos and area watches by the account they belong to; the properties an account saved. */
    var photos: map<nat, nat>
    var watches: map<nat, nat>
    var saved: set<(nat, nat)>

    constructor (knownUsers: seq<User>, knownAgents: seq<Agent>, codes: seq<string>)
      ensures State() == Platform.State(knownUsers, knownAgents, [], map[], 0, Untouched(codes))
      ensures |properties| == |codes|
      ensures forall i | 0 <= i < |codes| :: properties[i] == PropertyRow(codes[i], Cache(None, map[], 0, 0), None)
      ensures trail == [] && photos == map[] && watches == map[] && saved == {}
    {
      trail, photos, watches, saved := [], map[], map[], {};
      users, agents, claims, reviews, nextReview := knownUsers, knownAgents, [], map[], 0;
      properties := Untouched(codes);
    }

    function State(): Platform.State
      reads this
    {
      Platform.State(users, agents, claims, reviews, nextReview, properties)
    }

    // ---------------------------------------------------------------- accounts

    method SignIn(hash: string) returns (outcome: Outcome)
      modifies this`users
      ensures (State(), outcome) == SignInStep(old(State()), hash)
    {
      if !Taken(users, hash) {
        users := users + [User.User(hash, None, false, true, 0)];
      }
      outcome := Done;
    }

    method ConfirmPhoneChange(user: nat, newHash: string) returns (outcome: Outcome)
      modifies this`users
      ensures (State(), outcome) == ChangePhoneStep(old(State()), user, newHash)
    {
      if !Acting(users, user) {
        return Unauthorized;
      }
      if TakenByOther(users, newHash, user) {
        return Conflict(NumberTaken);
      }
      users := users[user := users[user].(phoneHash := newHash)];
      outcome := Done;
    }

    method DeleteMyAccount(user: nat, confirm: string, removeReviews: bool, token: string) returns (outcome: Outcome)
      modifies this`users, this`reviews, this`photos, this`watches, this`saved
      ensures (State(), outcome) == CloseStep(old(State()), user, confirm, removeReviews, token)
      ensures photos == if outcome == Done then Others(old(photos), user) else old(photos)
      ensures watches == if outcome == Done then Others(old(watches), user) else old(watches)
      ensures saved == if outcome == Done then OthersSaved(old(saved), user) else old(saved)
      ensures outcome == Done ==>
                && (forall id :: id in photos <==> id in old(photos) && old(photos)[id] != user)
                && (forall id | id in photos :: photos[id] == old(photos)[id])
                && (forall id :: id in watches <==> id in old(watches) && old(watches)[id] != user)
                && (forall id | id in watches :: watches[id] == old(watches)[id])
                && (forall row :: row in saved <==> row in old(saved) && row.0 != user)
    {
      if !Acting(users, user) {
        return Unauthorized;
      }
      if confirm != "DELETE" {
        return Unprocessable;
      }
      if TakenByOther(users, "deleted:" + token, user) {
        return Fault;
      }
      WithdrawAll(user, removeReviews);
      DeletePhotos(user);
      saved := OthersSaved(saved, user);
      watches := Others(watches, user);
      var u := users[user].(active := false);
      u := u.(displayName := None);
      u := u.(phoneHash := "deleted:" + token);
      users := users[user := u];
      outcome := Done;
    }

    /** The loop over the reviews of an account being closed. */
    method WithdrawAll(user: nat, removeReviews: bool)
      modifies this`reviews
      ensures reviews == Left(old(reviews), user, removeReviews)
    {
      var todo := reviews.Keys;
      while todo != {}
        invariant todo <= reviews.Keys == old(reviews).Keys
        invariant forall id | id in reviews ::
                    reviews[id] == if id in todo then old(reviews)[id] else Left(old(reviews), user, removeReviews)[id]
      {
        var id :| id in todo;
        todo := todo - {id};
        if reviews[id].owner == user {
          if removeReviews {
            reviews := reviews[id := reviews[id].(status := Rejected)];
          } else {
            reviews := reviews[id := reviews[id].(anonymous := true, displayName := Some("Former tenant"))];
          }
        }
      }
    }

    /** The loop over the photos the account uploaded. */
    method DeletePhotos(user: nat)
      modifies this`photos
      ensures photos == Others(old(photos), user)
      ensures forall id :: id in photos <==> id in old(photos) && old(photos)[id] != user
      ensures forall id | id in photos :: photos[id] == old(photos)[id]
    {
      var todo := set id | id in photos && photos[id] == user;
      while todo != {}
        invariant forall id | id in todo :: id in photos && photos[id] == user
        invariant forall id | id in photos :: id in old(photos) && photos[id] == old(photos)[id]
        invariant forall id | id in old(photos) && id !in photos :: old(photos)[id] == user
        invariant forall id | id in photos && photos[id] == user :: id in todo
      {
        var id :| id in todo;
        todo := todo - {id};
        photos := photos - {id};
      }
    }

    // ----------------------------------------------------------------- reviews

    method RecomputePropertyScores(property: nat, today: Date)
      modifies this`properties
      ensures State() == Recomputed(old(State()), property, today)
    {
      if property >= |properties| {
        return;
      }
      var rows: seq<ReviewScore> := [];
      var verified: nat := 0;
      var latest: Option<Review> := None;
      for id := 0 to nextReview
        invariant properties == old(properties)
        invariant rows == ApprovedScores(reviews, id, property)
        invariant verified == CountVerified(rows)
        invariant latest == LatestRented(reviews, id, property)
      {
        if id in reviews && Counted(reviews[id], property) {
          CountVerifiedAppend(rows, ScoreOf(reviews[id]));
          verified := verified + if reviews[id].verified then 1 else 0;
          rows := rows + [ScoreOf(reviews[id])];
          if reviews[id].content.rent.GetOr(0) != 0 && Later(latest, reviews[id]) {
            latest := Some(reviews[id]);
          }
        } else {
          assert rows + [] == rows;
        }
      }
      var result := AggregateProperty(rows, today, None);
      var cache := Cache(result.overall, FullBreakdown(result.perDimension, DIMENSIONS), |rows|, verified);
      var row := properties[property].(cache := cache);
      if latest.Some? {
        row := row.(rent := latest.value.content.rent);
      }
      properties := properties[property := row];
    }

    method SubmitReview(user: nat, sub: Submission, needsHuman: bool, c: Clock) returns (outcome: Outcome)
      modifies this`users, this`agents, this`reviews, this`nextReview, this`properties
      ensures (State(), outcome) == SubmitStep(old(State()), user, sub, needsHuman, c)
    {
      if !Acting(users, user) {
        return Unauthorized;
      }
      if !ValidRatings(sub.content.ratings) {
        return Unprocessable;
      }
      var property := FindProperty(properties, Upper(sub.code), 0);
      if property.None? {
        return NotFound;
      }
      var resolved := ResolveAgent(agents, sub.agentName);
      agents := resolved.0;
      var u := users[user];
      reviews := reviews[nextReview := NewReview(property.value, u, user, resolved.1, sub, needsHuman, c)];
      nextReview := nextReview + 1;
      users := users[user := u.(reviewCount := OrElse(u.reviewCount, 0) + 1)];
      assert State() == WithReview(old(State()), property.value, user, sub, needsHuman, c);
      RecomputePropertyScores(property.value, c.today);
      outcome := Done;
    }

    method EditMyReview(user: nat, id: nat, a: Amendment, needsHuman: bool, c: Clock) returns (outcome: Outcome)
      modifies this`reviews, this`properties
      ensures (State(), outcome) == EditStep(old(State()), user, id, a, needsHuman, c)
    {
      if !Acting(users, user) {
        return Unauthorized;
      }
      if a.ratings.Some? && !ValidRatings(a.ratings.value) {
        return Unprocessable;
      }
      outcome := OwnEditableReview(user, id, c.now);
      if outcome != Done {
        return;
      }
      UpdateReview(id, a, needsHuman, c);
    }

    method OwnEditableReview(user: nat, id: nat, now: real) returns (outcome: Outcome)
      ensures outcome == Editable(State(), user, id, now)
    {
      if id !in reviews || reviews[id].owner != user {
        return NotFound;
      }
      if Remaining(reviews[id], now) <= 0.0 {
        return Conflict(WindowClosed);
      }
      if reviews[id].reply.Some? {
        return Conflict(HasReply);
      }
      outcome := Done;
    }

    method AmendContent(current: Content, a: Amendment) returns (content: Content)
      ensures content == Amended(current, a)
    {
      content := current;
      if a.ratings.Some? {
        content := content.(ratings := a.ratings.value);
      }
      if a.positives.Some? {
        content := content.(positives := a.positives);
      }
      if a.warnings.Some? {
        content := content.(warnings := a.warnings);
      }
      if a.tips.Some? {
        content := content.(tips := a.tips);
      }
      if a.rent.Some? {
        content := content.(rent := a.rent);
      }
    }

    method UpdateReview(id: nat, a: Amendment, needsHuman: bool, c: Clock)
      requires id in reviews
      modifies this`reviews, this`properties
      ensures var r := old(reviews)[id];
              var amended := r.(content := Amended(r.content, a), anonymous := a.anonymous.GetOr(r.anonymous),
                                status := Queued(needsHuman), editedAt := Some(c.now));
              State() == Recomputed(old(State()).(reviews := old(reviews)[id := amended]), r.property, c.today)
    {
      var r := reviews[id];
      var content := AmendContent(r.content, a);
      r := r.(content := content);
      if a.anonymous.Some? {
        r := r.(anonymous := a.anonymous.value);
      }
      reviews := reviews[id := r.(status := if needsHuman then Flagged else Pending, editedAt := Some(c.now))];
      RecomputePropertyScores(r.property, c.today);
    }

    method DeleteMyReview(user: nat, id: nat, c: Clock) returns (outcome: Outcome)
      modifies this`users, this`reviews, this`properties
      ensures (State(), outcome) == DeleteStep(old(State()), user, id, c)
    {
      if !Acting(users, user) {
        return Unauthorized;
      }
      outcome := OwnEditableReview(user, id, c.now);
      if outcome != Done {
        return;
      }
      var property := reviews[id].property;
      reviews := reviews - {id};
      var count := OrElse(users[user].reviewCount, 1) - 1;
      users := users[user := users[user].(reviewCount := if count < 0 then 0 else count)];
      RecomputePropertyScores(property, c.today);
    }

    method ModerateReview(user: nat, id: nat, action: string, note: Option<string>, c: Clock) returns (outcome: Outcome)
      modifies this`reviews, this`properties, this`trail
      ensures (State(), outcome) == ModerateStep(old(State()), user, id, action, note, c)
      ensures outcome != Done ==> trail == old(trail)
      ensures outcome == Done ==>
                id in old(reviews) && trail == old(trail) + [Decision(id, user, action, old(reviews)[id].status, note)]
    {
      if !Acting(users, user) {
        return Unauthorized;
      }
      if !users[user].admin {
        return Forbidden;
      }
      var status := Action(action);
      if status.None? || (action != "approve" && Strip(note.GetOr("")) == "") {
        return Unprocessable;
      }
      if id !in reviews {
        return NotFound;
      }
      var previous := reviews[id].status;
      reviews := reviews[id := reviews[id].(status := status.value)];
      trail := trail + [Decision(id, user, action, previous, note)];
      RecomputePropertyScores(reviews[id].property, c.today);
      outcome := Done;
    }

    method AddOwnerResponse(user: nat, id: nat, role: string, text: string) returns (outcome: Outcome)
      modifies this`reviews
      ensures (State(), outcome) == ReplyStep(old(State()), user, id, role, text)
    {
      if !Acting(users, user) {
        return Unauthorized;
      }
      if !(20 <= |text| <= MAX_REPLY_CHARS) || (role != "landlord" && role != "agent") {
        return Unprocessable;
      }
      if id !in reviews || reviews[id].status != Approved {
        return NotFound;
      }
      var allowed := users[user].admin;
      if !allowed {
        allowed := SpeaksFor(State(), user, reviews[id]);
      }
      if !allowed {
        return Forbidden;
      }
      if reviews[id].reply.Some? && reviews[id].reply.value != "" {
        return Conflict(AlreadyReplied);
      }
      var r := reviews[id].(reply := Some(Strip(text)));
      r := r.(replyFrom := Some(role));
      reviews := reviews[id := r];
      outcome := Done;
    }

    // ------------------------------------------------------------------ claims

    method ClaimProfile(user: nat, slug: string, lasrera: Option<string>) returns (outcome: Outcome)
      modifies this`claims
      ensures (State(), outcome) == ClaimProfileStep(old(State()), user, slug, lasrera)
    {
      if !Acting(users, user) {
        return Unauthorized;
      }
      var agent := FindSlug(agents, slug, 0);
      if agent.None? {
        return NotFound;
      }
      if agents[agent.value].claimed {
        return Conflict(AlreadyClaimed);
      }
      var existing := FindClaim(claims, agent.value, user, 0);
      if existing.Some? {
        var id := existing.value;
        if claims[id].status == ClaimRejected {
          return Conflict(Declined);
        }
        var claim := claims[id].(lasrera := lasrera);
        claim := claim.(status := ClaimPending);
        claims := claims[id := claim];
      } else {
        claims := claims + [Claim.Claim(agent.value, user, lasrera, ClaimPending)];
      }
      outcome := Done;
    }

    method DecideClaim(user: nat, id: nat, action: string) returns (outcome: Outcome)
      modifies this`agents, this`claims
      ensures (State(), outcome) == DecideClaimStep(old(State()), user, id, action)
    {
      if !Acting(users, user) {
        return Unauthorized;
      }
      if !users[user].admin {
        return Forbidden;
      }
      if action != "approve" && action != "reject" {
        return Unprocessable;
      }
      if id >= |claims| || claims[id].agent >= |agents| {
        return NotFound;
      }
      var claim := claims[id];
      if claim.status != ClaimPending {
        return Conflict(AlreadyDecided);
      }
      if action == "approve" {
        if agents[claim.agent].claimed {
          return Conflict(AlreadyClaimed);
        }
        if claim.user >= |users| {
          return Fault;
        }
        var agent := agents[claim.agent].(claimed := true, phoneHash := Some(users[claim.user].phoneHash));
        if claim.lasrera.Some? && claim.lasrera.value != "" {
          agent := agent.(lasrera := claim.lasrera);
        }
        agents := agents[claim.agent := agent];
        claims := claims[id := claim.(status := ClaimApproved)];
      } else {
        claims := claims[id := claim.(status := ClaimRejected)];
      }
      outcome := Done;
    }
  }

  lemma CountVerifiedAppend(scores: seq<ReviewScore>, s: ReviewScore)
    ensures CountVerified(scores + [s]) == CountVerified(scores) + if s.verified then 1 else 0
  {
    assert (scores + [s])[..|scores|] == scores;
  }
}
