/**
 What each accepted request leaves in the tables, field by field, and what follows over
 every run: who is an administrator, and that a review says what its author last sent.
 */
module StepLaws {
  import opened Wrappers
  import opened Text
  import opened Scoring
  import opened Platform
  import ReviewLaws

  predicate Open(s: State, u: nat) {
    u < |s.users| && s.users[u].active
  }

  ghost predicate AdminHere(s: State, u: nat) {
    Open(s, u) && s.users[u].admin
  }

  // ------------------------------------------------------------------ accounts

  ghost predicate Known(s: State, hash: string) {
    exists i :: 0 <= i < |s.users| && s.users[i].phoneHash == hash
  }

  ghost predicate HeldByOther(s: State, hash: string, u: nat) {
    exists i :: 0 <= i < |s.users| && i != u && s.users[i].phoneHash == hash
  }

  /** Every account but u is as it was, and none came or went. */
  ghost predicate OthersSame(s: State, t: State, u: nat) {
    |t.users| == |s.users| && forall v | 0 <= v < |s.users| && v != u :: t.users[v] == s.users[v]
  }

  /** A known number changes nothing; an unknown one opens a tenant's account with nothing in it. */
  lemma SignInIs(s: State, hash: string)
    ensures var (t, outcome) := SignInStep(s, hash);
            && outcome == Done
            && (Known(s, hash) ==> t == s)
            && (!Known(s, hash) ==>
                  && t == s.(users := t.users)
                  && |t.users| == |s.users| + 1 && t.users[..|s.users|] == s.users
                  && var u := t.users[|s.users|];
                     u.phoneHash == hash && u.displayName == None && !u.admin && u.active && u.reviewCount == 0)
  {
  }

  /** Only the number of an open account changes, and only to one nobody else holds. */
  lemma ChangePhoneIs(s: State, u: nat, newHash: string)
    ensures var (t, outcome) := ChangePhoneStep(s, u, newHash);
            && (outcome == Unauthorized <==> !Open(s, u))
            && (outcome == Conflict(NumberTaken) <==> Open(s, u) && HeldByOther(s, newHash, u))
            && (outcome == Done <==> Open(s, u) && !HeldByOther(s, newHash, u))
            && (outcome != Done ==> t == s)
            && (outcome == Done ==>
                  && t == s.(users := t.users) && OthersSame(s, t, u)
                  && t.users[u].phoneHash == newHash
                  && s.users[u] == t.users[u].(phoneHash := s.users[u].phoneHash))
  {
  }

  /**
   The account is closed without a name or its number; its reviews are rejected, or stay as
   they are but anonymous and by "Former tenant"; nothing else changes.
   */
  lemma CloseIs(s: State, u: nat, confirm: string, removeReviews: bool, token: string)
    ensures var (t, outcome) := CloseStep(s, u, confirm, removeReviews, token);
            && (outcome == Unauthorized <==> !Open(s, u))
            && (outcome == Unprocessable <==> Open(s, u) && confirm != "DELETE")
            && (outcome == Fault <==> Open(s, u) && confirm == "DELETE" && HeldByOther(s, "deleted:" + token, u))
            && (outcome == Done <==> Open(s, u) && confirm == "DELETE" && !HeldByOther(s, "deleted:" + token, u))
            && (outcome != Done ==> t == s)
            && (outcome == Done ==>
                  && t == s.(users := t.users, reviews := t.reviews) && OthersSame(s, t, u)
                  && !t.users[u].active && t.users[u].displayName == None
                  && t.users[u].phoneHash == "deleted:" + token
                  && t.users[u].admin == s.users[u].admin && t.users[u].reviewCount == s.users[u].reviewCount
                  && LeavesReviews(s, t, u, removeReviews))
  {
  }

  ghost predicate LeavesReviews(s: State, t: State, u: nat, removeReviews: bool) {
    && t.reviews.Keys == s.reviews.Keys
    && forall id | id in s.reviews ::
         var r, q := s.reviews[id], t.reviews[id];
         if r.owner != u then q == r
         else if removeReviews then q.status == Rejected && r == q.(status := r.status)
         else
           && q.anonymous && q.displayName == Some("Former tenant")
           && r == q.(anonymous := r.anonymous, displayName := r.displayName)
  }

  // ------------------------------------------------------------------- reviews

  /** At most the scores and the rent shown for property p differ. */
  ghost predicate OnlyFigures(s: State, t: State, p: nat) {
    && |t.properties| == |s.properties|
    && forall q | 0 <= q < |s.properties| ::
         t.properties[q].code == s.properties[q].code && (q != p ==> t.properties[q] == s.properties[q])
  }

  /** The tables differ at most in what review id says and the figures of its property. */
  ghost predicate OnlyReviewAndFigures(s: State, t: State, id: nat) {
    && id in s.reviews && id in t.reviews && t.reviews == s.reviews[id := t.reviews[id]]
    && t == s.(reviews := t.reviews, properties := t.properties)
    && OnlyFigures(s, t, s.reviews[id].property)
  }

  ghost predicate FullRatings(ratings: Ratings) {
    forall d: Dimension :: d in ratings && 1 <= ratings[d] <= 5
  }

  /** Theirs, less than 172,800 seconds old, and without a reply. */
  ghost predicate MayAmend(s: State, u: nat, id: nat, now: real) {
    && id in s.reviews && s.reviews[id].owner == u
    && now - s.reviews[id].createdAt < 172800.0 && s.reviews[id].reply == None
  }

  /** Why an open account may not amend a review. */
  ghost predicate Refused(s: State, u: nat, id: nat, now: real, outcome: Outcome) {
    match outcome
    case NotFound => id !in s.reviews || s.reviews[id].owner != u
    case Conflict(WindowClosed) =>
      id in s.reviews && s.reviews[id].owner == u && now - s.reviews[id].createdAt >= 172800.0
    case Conflict(HasReply) =>
      && id in s.reviews && s.reviews[id].owner == u && now - s.reviews[id].createdAt < 172800.0
      && s.reviews[id].reply.Some?
    case _ => false
  }

  lemma EditableIs(s: State, u: nat, id: nat, now: real)
    ensures Editable(s, u, id, now) == Done <==> MayAmend(s, u, id, now)
    ensures Editable(s, u, id, now) != Done ==> Refused(s, u, id, now, Editable(s, u, id, now))
  {
  }

  /** Each part says what was sent for it, or what it said. */
  ghost predicate SaysWhatWasSent(r: Review, a: Amendment, q: Review) {
    && q.content.ratings == (if a.ratings.Some? then a.ratings.value else r.content.ratings)
    && q.content.positives == (if a.positives.Some? then a.positives else r.content.positives)
    && q.content.warnings == (if a.warnings.Some? then a.warnings else r.content.warnings)
    && q.content.tips == (if a.tips.Some? then a.tips else r.content.tips)
    && q.content.rent == (if a.rent.Some? then a.rent else r.content.rent)
    && q.anonymous == (if a.anonymous.Some? then a.anonymous.value else r.anonymous)
  }

  /** What an accepted edit leaves: what was sent, back in the queue, and nothing else changed. */
  ghost predicate EditLeaves(s: State, t: State, id: nat, a: Amendment, needsHuman: bool, now: real) {
    && OnlyReviewAndFigures(s, t, id)
    && var r, q := s.reviews[id], t.reviews[id];
       && SaysWhatWasSent(r, a, q)
       && q.status == (if needsHuman then Flagged else Pending)
       && q.editedAt == Some(now)
       && r == q.(content := r.content, anonymous := r.anonymous, status := r.status, editedAt := r.editedAt)
  }

  lemma EditAmends(s: State, u: nat, id: nat, a: Amendment, needsHuman: bool, c: Clock)
    requires EditStep(s, u, id, a, needsHuman, c).1 == Done
    ensures EditLeaves(s, EditStep(s, u, id, a, needsHuman, c).0, id, a, needsHuman, c.now)
  {
  }

  lemma EditOutcome(s: State, u: nat, id: nat, a: Amendment, needsHuman: bool, c: Clock)
    ensures var (t, outcome) := EditStep(s, u, id, a, needsHuman, c);
            && (outcome == Unauthorized <==> !Open(s, u))
            && (outcome == Unprocessable <==> Open(s, u) && a.ratings.Some? && !FullRatings(a.ratings.value))
            && (outcome == Done <==>
                  && Open(s, u) && (a.ratings.Some? ==> FullRatings(a.ratings.value))
                  && MayAmend(s, u, id, c.now))
            && (outcome !in {Done, Unauthorized, Unprocessable} ==> Refused(s, u, id, c.now, outcome))
            && (outcome != Done ==> t == s)
  {
    EditableIs(s, u, id, c.now);
  }

  /** Which edits are accepted, and what they leave. */
  lemma EditIs(s: State, u: nat, id: nat, a: Amendment, needsHuman: bool, c: Clock)
    ensures var (t, outcome) := EditStep(s, u, id, a, needsHuman, c);
            && (outcome == Done <==>
                  && Open(s, u) && (a.ratings.Some? ==> FullRatings(a.ratings.value))
                  && MayAmend(s, u, id, c.now))
            && if outcome == Done then EditLeaves(s, t, id, a, needsHuman, c.now) else t == s
  {
    EditOutcome(s, u, id, a, needsHuman, c);
    if EditStep(s, u, id, a, needsHuman, c).1 == Done {
      EditAmends(s, u, id, a, needsHuman, c);
    }
  }

  /** The agent a submission names: none without a name, else one of that name, new if there was none. */
  ghost predicate NamesAgent(s: State, t: State, name: Option<string>, agent: Option<nat>) {
    && s.agents <= t.agents
    && if name == None || name == Some("") then agent == None && t.agents == s.agents
       else
         && agent.Some? && agent.value < |t.agents|
         && t.agents[agent.value].normalised == Lower(Strip(name.value))
         && if agent.value < |s.agents| then t.agents == s.agents
            else
              && (forall i | 0 <= i < |s.agents| :: s.agents[i].normalised != Lower(Strip(name.value)))
              && agent.value == |s.agents| && |t.agents| == |s.agents| + 1
              && var a := t.agents[|s.agents|];
                 a.name == Strip(name.value) && !a.claimed && a.phoneHash == None && a.slug == None
                 && a.lasrera == None
  }

  /** It carries what was sent under its author's name and waits for a moderator. */
  ghost predicate NewlySubmitted(r: Review, s: State, u: nat, p: nat, sub: Submission, needsHuman: bool, c: Clock)
    requires u < |s.users|
  {
    && r.property == p && r.owner == u && r.content == sub.content && r.tenancyStart == sub.tenancyStart
    && r.anonymous == sub.anonymous && r.displayName == s.users[u].displayName
    && r.status == (if needsHuman then Flagged else Pending)
    && !r.verified && r.reply == None && r.replyFrom == None && r.editedAt == None
    && r.createdAt == c.now && r.createdOn == c.today
  }

  ghost predicate HasCode(s: State, p: nat, code: string) {
    p < |s.properties| && s.properties[p].code == code
  }

  /** The step adds a review of property p and the agent it names, and counts it for its author. */
  ghost predicate Adds(s: State, t: State, u: nat, p: nat, sub: Submission, needsHuman: bool, c: Clock)
    requires u < |s.users|
  {
    && s.nextReview in t.reviews && t.reviews == s.reviews[s.nextReview := t.reviews[s.nextReview]]
    && t.nextReview == s.nextReview + 1 && t.claims == s.claims
    && NewlySubmitted(t.reviews[s.nextReview], s, u, p, sub, needsHuman, c)
    && NamesAgent(s, t, sub.agentName, t.reviews[s.nextReview].agent)
    && OthersSame(s, t, u) && t.users[u].reviewCount == s.users[u].reviewCount + 1
    && s.users[u] == t.users[u].(reviewCount := s.users[u].reviewCount)
    && OnlyFigures(s, t, p)
  }

  lemma ResolveNames(s: State, t: State, name: Option<string>, agents: seq<Agent>, agent: Option<nat>)
    requires (agents, agent) == ResolveAgent(s.agents, name) && t.agents == agents
    ensures NamesAgent(s, t, name, agent)
  {
  }

  /** A submission is accepted exactly for an open account, ten ratings and a known property. */
  lemma SubmitIs(s: State, u: nat, sub: Submission, needsHuman: bool, c: Clock)
    ensures var (t, outcome) := SubmitStep(s, u, sub, needsHuman, c);
            && (outcome == Unauthorized <==> !Open(s, u))
            && (outcome == Unprocessable <==> Open(s, u) && !FullRatings(sub.content.ratings))
            && (outcome == NotFound <==>
                  Open(s, u) && FullRatings(sub.content.ratings) && forall p :: !HasCode(s, p, Upper(sub.code)))
            && (outcome == Done <==>
                  Open(s, u) && FullRatings(sub.content.ratings) && exists p :: HasCode(s, p, Upper(sub.code)))
            && (outcome != Done ==> t == s)
            && (outcome == Done ==>
                  exists p :: HasCode(s, p, Upper(sub.code)) && Adds(s, t, u, p, sub, needsHuman, c))
  {
    var (t, outcome) := SubmitStep(s, u, sub, needsHuman, c);
    var found := FindProperty(s.properties, Upper(sub.code), 0);
    assert found.None? ==> forall p :: !HasCode(s, p, Upper(sub.code));
    if outcome == Done {
      var p := found.value;
      SubmitAdds(s, u, p, sub, needsHuman, c);
      assert HasCode(s, p, Upper(sub.code));
    }
  }

  lemma SubmitAdds(s: State, u: nat, p: nat, sub: Submission, needsHuman: bool, c: Clock)
    requires u < |s.users| && p < |s.properties|
    ensures Adds(s, Recomputed(WithReview(s, p, u, sub, needsHuman, c), p, c.today), u, p, sub, needsHuman, c)
  {
    var t := Recomputed(WithReview(s, p, u, sub, needsHuman, c), p, c.today);
    var (agents, agent) := ResolveAgent(s.agents, sub.agentName);
    ResolveNames(s, t, sub.agentName, agents, agent);
  }

  /** An accepted deletion: the review is gone, and its author's count falls unless it is zero. */
  lemma DeleteIs(s: State, u: nat, id: nat, c: Clock)
    requires Open(s, u) ==> s.users[u].reviewCount >= 0
    ensures var (t, outcome) := DeleteStep(s, u, id, c);
            && (outcome == Unauthorized <==> !Open(s, u))
            && (outcome == Done <==> Open(s, u) && MayAmend(s, u, id, c.now))
            && (outcome !in {Done, Unauthorized} ==> Refused(s, u, id, c.now, outcome))
            && (outcome != Done ==> t == s)
            && (outcome == Done ==>
                  && t == s.(reviews := s.reviews - {id}, users := t.users, properties := t.properties)
                  && OnlyFigures(s, t, s.reviews[id].property) && OthersSame(s, t, u)
                  && t.users[u].reviewCount == (if s.users[u].reviewCount > 0 then s.users[u].reviewCount - 1 else 0)
                  && s.users[u] == t.users[u].(reviewCount := s.users[u].reviewCount))
  {
    EditableIs(s, u, id, c.now);
  }

  /** An administrator's decision sets the status it names, and nothing else of the review. */
  lemma ModerateIs(s: State, u: nat, id: nat, action: string, note: Option<string>, c: Clock)
    ensures var (t, outcome) := ModerateStep(s, u, id, action, note, c);
            var bare := note == None || Strip(note.value) == "";
            var sound := action == "approve" || (action in {"reject", "request_edits"} && !bare);
            && (outcome == Unauthorized <==> !Open(s, u))
            && (outcome == Forbidden <==> Open(s, u) && !AdminHere(s, u))
            && (outcome == Unprocessable <==> AdminHere(s, u) && !sound)
            && (outcome == NotFound <==> AdminHere(s, u) && sound && id !in s.reviews)
            && (outcome == Done <==> AdminHere(s, u) && sound && id in s.reviews)
            && (outcome != Done ==> t == s)
            && (outcome == Done ==>
                  && OnlyReviewAndFigures(s, t, id)
                  && s.reviews[id] == t.reviews[id].(status := s.reviews[id].status)
                  && t.reviews[id].status
                     == if action == "approve" then Approved else if action == "reject" then Rejected else NeedsEdits)
  {
    assert Strip("") == "";
  }

  /** The claimed agent the review is about holds the account's number. */
  ghost predicate AgentHere(s: State, u: nat, r: Review) {
    && u < |s.users| && r.agent.Some? && r.agent.value < |s.agents|
    && var a := s.agents[r.agent.value];
       a.claimed && a.phoneHash == Some(s.users[u].phoneHash) && s.users[u].phoneHash != ""
  }

  /** A reply by an administrator or that agent, stored stripped, to a public review without one. */
  lemma ReplyIs(s: State, u: nat, id: nat, role: string, text: string)
    ensures var (t, outcome) := ReplyStep(s, u, id, role, text);
            var sound := 20 <= |text| <= 800 && role in {"landlord", "agent"};
            var public := id in s.reviews && s.reviews[id].status == Approved;
            var entitled := public && (AdminHere(s, u) || AgentHere(s, u, s.reviews[id]));
            var free := public && (s.reviews[id].reply == None || s.reviews[id].reply == Some(""));
            && (outcome == Unauthorized <==> !Open(s, u))
            && (outcome == Unprocessable <==> Open(s, u) && !sound)
            && (outcome == NotFound <==> Open(s, u) && sound && !public)
            && (outcome == Forbidden <==> Open(s, u) && sound && public && !entitled)
            && (outcome == Conflict(AlreadyReplied) <==> Open(s, u) && sound && entitled && !free)
            && (outcome == Done <==> Open(s, u) && sound && entitled && free)
            && (outcome != Done ==> t == s)
            && (outcome == Done ==>
                  && id in t.reviews && t == s.(reviews := s.reviews[id := t.reviews[id]])
                  && t.reviews[id].reply == Some(Strip(text)) && t.reviews[id].replyFrom == Some(role)
                  && s.reviews[id]
                     == t.reviews[id].(reply := s.reviews[id].reply, replyFrom := s.reviews[id].replyFrom))
  {
  }

  // ----------------------------------------------------------- profile claims

  ghost predicate HasSlug(s: State, agent: nat, slug: string) {
    agent < |s.agents| && s.agents[agent].slug == Some(slug)
  }

  ghost predicate Claims(s: State, id: nat, agent: nat, u: nat) {
    id < |s.claims| && s.claims[id].agent == agent && s.claims[id].user == u
  }

  /** Claim id of the account on the agent now waits for a decision, and nothing else differs. */
  ghost predicate Waits(s: State, t: State, id: nat, agent: nat, u: nat, lasrera: Option<string>) {
    && id < |t.claims| && t == s.(claims := t.claims)
    && t.claims[id] == Claim(agent, u, lasrera, ClaimPending)
    && if id < |s.claims| then t.claims == s.claims[id := t.claims[id]] else t.claims == s.claims + [t.claims[id]]
  }

  /** A claim on an agent: new if there was none, else rewritten unless it was declined. */
  ghost predicate ClaimAnswer(s: State, t: State, outcome: Outcome, agent: nat, u: nat, lasrera: Option<string>)
    requires agent < |s.agents|
  {
    if s.agents[agent].claimed then outcome == Conflict(AlreadyClaimed) && t == s
    else if forall id: nat :: !Claims(s, id, agent, u) then
      outcome == Done && Waits(s, t, |s.claims|, agent, u, lasrera)
    else
      exists id: nat ::
        && Claims(s, id, agent, u)
        && if s.claims[id].status == ClaimRejected then outcome == Conflict(Declined) && t == s
           else outcome == Done && Waits(s, t, id, agent, u, lasrera)
  }

  lemma ClaimProfileIs(s: State, u: nat, slug: string, lasrera: Option<string>)
    ensures var (t, outcome) := ClaimProfileStep(s, u, slug, lasrera);
            && (outcome == Unauthorized <==> !Open(s, u))
            && (outcome == NotFound <==> Open(s, u) && forall agent :: !HasSlug(s, agent, slug))
            && (outcome in {Unauthorized, NotFound} ==> t == s)
            && (Open(s, u) && outcome != NotFound ==>
                  exists agent :: HasSlug(s, agent, slug) && ClaimAnswer(s, t, outcome, agent, u, lasrera))
  {
    var (t, outcome) := ClaimProfileStep(s, u, slug, lasrera);
    var found := FindSlug(s.agents, slug, 0);
    assert found.None? ==> forall agent :: !HasSlug(s, agent, slug);
    if Open(s, u) && found.Some? {
      ClaimAnswered(s, found.value, u, slug, lasrera);
      assert HasSlug(s, found.value, slug);
    }
  }

  lemma ClaimAnswered(s: State, agent: nat, u: nat, slug: string, lasrera: Option<string>)
    requires Open(s, u) && FindSlug(s.agents, slug, 0) == Some(agent)
    ensures var (t, outcome) := ClaimProfileStep(s, u, slug, lasrera);
            ClaimAnswer(s, t, outcome, agent, u, lasrera)
  {
    var found := FindClaim(s.claims, agent, u, 0);
    if found.None? {
      forall id: nat ensures !Claims(s, id, agent, u) {
      }
    } else {
      assert Claims(s, found.value, agent, u);
    }
  }

  /** Approved: the agent is bound to the number its claimant has now, and keeps all else. */
  ghost predicate Binds(s: State, t: State, id: nat) {
    && id < |s.claims| && s.claims[id].agent < |s.agents| && s.claims[id].user < |s.users|
    && |t.agents| == |s.agents| && |t.claims| == |s.claims|
    && t == s.(agents := t.agents, claims := t.claims)
    && t.claims == s.claims[id := s.claims[id].(status := ClaimApproved)]
    && (forall a | 0 <= a < |s.agents| && a != s.claims[id].agent :: t.agents[a] == s.agents[a])
    && var was, a := s.agents[s.claims[id].agent], t.agents[s.claims[id].agent];
       && a.claimed && a.phoneHash == Some(s.users[s.claims[id].user].phoneHash)
       && a.lasrera == (if s.claims[id].lasrera.GetOr("") != "" then s.claims[id].lasrera else was.lasrera)
       && a.name == was.name && a.normalised == was.normalised && a.slug == was.slug
  }

  /** A pending claim on an agent, decided by an administrator. */
  lemma DecideClaimIs(s: State, u: nat, id: nat, action: string)
    ensures var (t, outcome) := DecideClaimStep(s, u, id, action);
            var sound := action in {"approve", "reject"};
            var there := id < |s.claims| && s.claims[id].agent < |s.agents|;
            && (outcome == Unauthorized <==> !Open(s, u))
            && (outcome == Forbidden <==> Open(s, u) && !AdminHere(s, u))
            && (outcome == Unprocessable <==> AdminHere(s, u) && !sound)
            && (outcome == NotFound <==> AdminHere(s, u) && sound && !there)
            && (outcome == Conflict(AlreadyDecided) <==>
                  AdminHere(s, u) && sound && there && s.claims[id].status != ClaimPending)
            && (outcome == Conflict(AlreadyClaimed) <==>
                  && AdminHere(s, u) && action == "approve" && there && s.claims[id].status == ClaimPending
                  && s.agents[s.claims[id].agent].claimed)
            && (outcome == Fault <==>
                  && AdminHere(s, u) && action == "approve" && there && s.claims[id].status == ClaimPending
                  && !s.agents[s.claims[id].agent].claimed && s.claims[id].user >= |s.users|)
            && (outcome != Done ==> t == s)
            && (outcome == Done ==>
                  if action == "approve" then Binds(s, t, id)
                  else t == s.(claims := s.claims[id := s.claims[id].(status := ClaimRejected)]))
  {
  }

  // --------------------------------------------------------- over every run

  ghost predicate Admin(s: State, u: nat) {
    u < |s.users| && s.users[u].admin
  }

  lemma StepAdmins(s: State, e: TimedEvent, u: nat)
    ensures Admin(Step(s, e).0, u) <==> Admin(s, u)
  {
    match e.event
    case SignIn(hash) => SignInIs(s, hash);
    case ChangePhone(v, hash) => ChangePhoneIs(s, v, hash);
    case CloseAccount(v, confirm, remove, token) => CloseIs(s, v, confirm, remove, token);
    case Submit(v, sub, n) => SubmitIs(s, v, sub, n, e.clock);
    case _ => RestAdmins(s, e);
  }

  lemma RestAdmins(s: State, e: TimedEvent)
    requires !e.event.SignIn? && !e.event.ChangePhone? && !e.event.CloseAccount? && !e.event.Submit?
    ensures |Step(s, e).0.users| == |s.users|
    ensures forall u | 0 <= u < |s.users| :: Step(s, e).0.users[u].admin == s.users[u].admin
  {
  }

  /** No run makes or unmakes an administrator. */
  lemma {:induction false} AdminsFromStart(start: State, events: seq<TimedEvent>, u: nat)
    ensures Admin(Run(start, events), u) <==> u < |start.users| && start.users[u].admin
  {
    if events != [] {
      AdminsFromStart(start, events[..|events| - 1], u);
      StepAdmins(Run(start, events[..|events| - 1]), events[|events| - 1], u);
    }
  }

  /** The event was accepted, and submits review id or amends it. */
  ghost predicate Writes(s: State, e: TimedEvent, id: nat) {
    && Step(s, e).1 == Done
    && ((e.event.Submit? && s.nextReview == id) || (e.event.Edit? && e.event.review == id))
  }

  function RatingsSent(e: Event): Option<Ratings> {
    match e
    case Submit(_, sub, _) => Some(sub.content.ratings)
    case Edit(_, _, a, _) => a.ratings
    case _ => None
  }

  function PositivesSent(e: Event): Option<string> {
    match e
    case Submit(_, sub, _) => sub.content.positives
    case Edit(_, _, a, _) => a.positives
    case _ => None
  }

  function WarningsSent(e: Event): Option<string> {
    match e
    case Submit(_, sub, _) => sub.content.warnings
    case Edit(_, _, a, _) => a.warnings
    case _ => None
  }

  function TipsSent(e: Event): Option<string> {
    match e
    case Submit(_, sub, _) => sub.content.tips
    case Edit(_, _, a, _) => a.tips
    case _ => None
  }

  function RentSent(e: Event): Option<nat> {
    match e
    case Submit(_, sub, _) => sub.content.rent
    case Edit(_, _, a, _) => a.rent
    case _ => None
  }

  /** What was last sent for one part of a review, by its submission or an accepted edit. */
  ghost function LastSent<T>(start: State, events: seq<TimedEvent>, id: nat, sent: Event -> Option<T>): Option<T> {
    if events == [] then None
    else
      var e := events[|events| - 1];
      if Writes(Run(start, events[..|events| - 1]), e, id) && sent(e.event).Some? then sent(e.event)
      else LastSent(start, events[..|events| - 1], id, sent)
  }

  lemma NumbersRise(s: State, e: TimedEvent)
    ensures s.nextReview <= Step(s, e).0.nextReview
  {
  }

  lemma {:induction false} NothingSent<T>(start: State, events: seq<TimedEvent>, id: nat, sent: Event -> Option<T>)
    requires Initial(start) && Run(start, events).nextReview <= id
    ensures LastSent(start, events, id, sent) == None
  {
    if events != [] {
      var front, e := events[..|events| - 1], events[|events| - 1];
      NumbersRise(Run(start, front), e);
      NothingSent(start, front, id, sent);
      NotWritten(start, front, e, id);
    }
  }

  lemma NotWritten(start: State, front: seq<TimedEvent>, e: TimedEvent, id: nat)
    requires Initial(start) && Step(Run(start, front), e).0.nextReview <= id
    ensures !Writes(Run(start, front), e, id)
  {
    ReviewLaws.RunIds(start, front);
    var s := Run(start, front);
    match e.event
    case Submit(u, sub, n) => SubmitIs(s, u, sub, n, e.clock);
    case Edit(u, r, a, n) => EditIs(s, u, r, a, n, e.clock);
    case _ =>
  }

  lemma UnwrittenKept(s: State, e: TimedEvent, id: nat)
    requires id in Step(s, e).0.reviews && !Writes(s, e, id)
    ensures id in s.reviews && Step(s, e).0.reviews[id].content == s.reviews[id].content
  {
    match e.event
    case Submit(u, sub, n) => SubmitIs(s, u, sub, n, e.clock);
    case Edit(u, r, a, n) => EditIs(s, u, r, a, n, e.clock);
    case CloseAccount(v, confirm, remove, token) => CloseIs(s, v, confirm, remove, token);
    case Delete(u, r) => DeletedKept(s, u, r, e.clock, id);
    case Moderate(u, r, action, note) => ModerateIs(s, u, r, action, note, e.clock);
    case Reply(u, r, role, text) => ReplyIs(s, u, r, role, text);
    case _ => OthersKept(s, e);
  }

  lemma OthersKept(s: State, e: TimedEvent)
    requires e.event.SignIn? || e.event.ChangePhone? || e.event.ClaimProfile? || e.event.DecideClaim?
    ensures Step(s, e).0.reviews == s.reviews
  {
  }

  lemma DeletedKept(s: State, u: nat, r: nat, c: Clock, id: nat)
    requires id in DeleteStep(s, u, r, c).0.reviews
    ensures id in s.reviews && DeleteStep(s, u, r, c).0.reviews[id] == s.reviews[id]
  {
  }

  /** Every part of the review is what was last sent for it. */
  ghost predicate SaysLastSent(start: State, events: seq<TimedEvent>, id: nat, c: Content) {
    && LastSent(start, events, id, RatingsSent) == Some(c.ratings)
    && LastSent(start, events, id, PositivesSent) == c.positives
    && LastSent(start, events, id, WarningsSent) == c.warnings
    && LastSent(start, events, id, TipsSent) == c.tips
    && LastSent(start, events, id, RentSent) == c.rent
  }

  lemma NothingSaid(start: State, events: seq<TimedEvent>, id: nat)
    requires Initial(start) && Run(start, events).nextReview <= id
    ensures LastSent(start, events, id, PositivesSent) == LastSent(start, events, id, WarningsSent)
            == LastSent(start, events, id, TipsSent) == None
    ensures LastSent(start, events, id, RentSent) == None
  {
    NothingSent(start, events, id, PositivesSent);
    NothingSent(start, events, id, WarningsSent);
    NothingSent(start, events, id, TipsSent);
    NothingSent(start, events, id, RentSent);
  }

  lemma SubmittedSays(start: State, events: seq<TimedEvent>, id: nat)
    requires Initial(start) && events != []
    requires events[|events| - 1].event.Submit? && Writes(Run(start, events[..|events| - 1]), events[|events| - 1], id)
    ensures id in Run(start, events).reviews && SaysLastSent(start, events, id, Run(start, events).reviews[id].content)
  {
    var s, e := Run(start, events[..|events| - 1]), events[|events| - 1];
    NothingSaid(start, events[..|events| - 1], id);
    SubmitIs(s, e.event.user, e.event.submission, e.event.needsHuman, e.clock);
  }

  lemma EditedSays(start: State, events: seq<TimedEvent>, id: nat, c: Content)
    requires events != []
    requires events[|events| - 1].event.Edit? && Writes(Run(start, events[..|events| - 1]), events[|events| - 1], id)
    requires id in Run(start, events[..|events| - 1]).reviews
    requires c == Run(start, events[..|events| - 1]).reviews[id].content
    requires SaysLastSent(start, events[..|events| - 1], id, c)
    ensures id in Run(start, events).reviews && SaysLastSent(start, events, id, Run(start, events).reviews[id].content)
  {
    var s, e := Run(start, events[..|events| - 1]), events[|events| - 1];
    EditAmends(s, e.event.user, id, e.event.amendment, e.event.needsHuman, e.clock);
  }

  /** Over every run, each part of a review is what its author last sent for it. */
  lemma {:induction false} ReviewSaysLastSent(start: State, events: seq<TimedEvent>, id: nat)
    requires Initial(start) && id in Run(start, events).reviews
    ensures SaysLastSent(start, events, id, Run(start, events).reviews[id].content)
  {
    if events != [] {
      var front, e := events[..|events| - 1], events[|events| - 1];
      var s := Run(start, front);
      if !Writes(s, e, id) {
        UnwrittenKept(s, e, id);
        ReviewSaysLastSent(start, front, id);
      } else if e.event.Submit? {
        SubmittedSays(start, events, id);
      } else {
        EditIs(s, e.event.user, id, e.event.amendment, e.event.needsHuman, e.clock);
        ReviewSaysLastSent(start, front, id);
        EditedSays(start, events, id, s.reviews[id].content);
      }
    }
  }
}
