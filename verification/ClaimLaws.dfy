/** The life of profile claims, over every run of the platform. */
module ClaimLaws {
  import opened Wrappers
  import opened Text
  import opened Platform

  predicate ApprovedOn(c: Claim, agent: nat) {
    c.agent == agent && c.status == ClaimApproved
  }

  /** The approved claims on an agent. */
  function ApprovedFor(s: State, agent: nat): set<nat> {
    set c | 0 <= c < |s.claims| && ApprovedOn(s.claims[c], agent)
  }

  /** Claims name agents and accounts that exist, and no two the same pair. */
  ghost predicate ClaimsProper(s: State) {
    && (forall c | 0 <= c < |s.claims| :: s.claims[c].agent < |s.agents| && s.claims[c].user < |s.users|)
    && (forall c, d | 0 <= c < d < |s.claims| ::
          s.claims[c].agent != s.claims[d].agent || s.claims[c].user != s.claims[d].user)
  }

  ghost predicate ClaimsOk(s: State) {
    ClaimsProper(s) && forall a | 0 <= a < |s.agents| :: OneApproval(s, a)
  }

  /** A claimed agent has an approved claim and no second one; an unclaimed agent has none. */
  ghost predicate OneApproval(s: State, a: nat)
    requires a < |s.agents|
  {
    && (s.agents[a].claimed ==> exists c: nat :: c < |s.claims| && ApprovedOn(s.claims[c], a))
    && (forall c | 0 <= c < |s.claims| && ApprovedOn(s.claims[c], a) :: s.agents[a].claimed)
    && (forall c, d | 0 <= c < d < |s.claims| && ApprovedOn(s.claims[c], a) :: !ApprovedOn(s.claims[d], a))
  }

  /** Claims are where they were, and agents too, but for new unclaimed ones. */
  ghost predicate Extended(s: State, t: State) {
    && t.claims == s.claims && |s.users| <= |t.users|
    && |s.agents| <= |t.agents| && t.agents[..|s.agents|] == s.agents
    && (forall a | |s.agents| <= a < |t.agents| :: !t.agents[a].claimed)
  }

  lemma OthersExtend(s: State, e: TimedEvent)
    requires !e.event.ClaimProfile? && !e.event.DecideClaim?
    ensures Extended(s, Step(s, e).0)
  {
    assert s.agents[..|s.agents|] == s.agents;
    match e.event
    case Submit(u, sub, n) => SubmitExtends(s, u, sub, n, e.clock);
    case SignIn(_) =>
    case ChangePhone(_, _) =>
    case CloseAccount(_, _, _, _) =>
    case Edit(_, _, _, _) =>
    case Delete(_, _) =>
    case Moderate(_, _, _, _) =>
    case Reply(_, _, _, _) =>
  }

  lemma SubmitExtends(s: State, u: nat, sub: Submission, needsHuman: bool, c: Clock)
    ensures Extended(s, SubmitStep(s, u, sub, needsHuman, c).0)
  {
    var (agents, agent) := ResolveAgent(s.agents, sub.agentName);
    assert agents[..|s.agents|] == s.agents;
  }

  lemma ExtendedOk(s: State, t: State)
    requires ClaimsOk(s) && Extended(s, t)
    ensures ClaimsOk(t)
  {
    forall a | 0 <= a < |t.agents| ensures OneApproval(t, a) {
      if a < |s.agents| {
        assert t.agents[a] == t.agents[..|s.agents|][a];
        assert OneApproval(s, a);
      }
    }
  }

  /** A step that decides nothing: claims are unchanged, or pending and not yet approved. */
  ghost predicate PendingOnly(s: State, t: State) {
    && t.agents == s.agents && |s.users| <= |t.users| && |s.claims| <= |t.claims|
    && (forall c | 0 <= c < |s.claims| && s.claims[c].status == ClaimApproved :: t.claims[c] == s.claims[c])
    && (forall c | 0 <= c < |t.claims| && t.claims[c].status == ClaimApproved ::
          c < |s.claims| && t.claims[c] == s.claims[c])
  }

  lemma PendingKeepsApproval(s: State, t: State, a: nat)
    requires PendingOnly(s, t) && a < |s.agents| && OneApproval(s, a)
    ensures OneApproval(t, a)
  {
    if s.agents[a].claimed {
      var c: nat :| c < |s.claims| && ApprovedOn(s.claims[c], a);
      assert ApprovedOn(t.claims[c], a);
    }
  }

  lemma ClaimProfilePends(s: State, u: nat, slug: string, lasrera: Option<string>)
    requires ClaimsOk(s)
    ensures PendingOnly(s, ClaimProfileStep(s, u, slug, lasrera).0)
  {
    var t := ClaimProfileStep(s, u, slug, lasrera).0;
    if t != s {
      var agent := FindSlug(s.agents, slug, 0).value;
      assert OneApproval(s, agent);
    }
  }

  lemma ClaimProfileProper(s: State, u: nat, slug: string, lasrera: Option<string>)
    requires ClaimsOk(s)
    ensures ClaimsProper(ClaimProfileStep(s, u, slug, lasrera).0)
  {
  }

  lemma ClaimProfileOk(s: State, u: nat, slug: string, lasrera: Option<string>)
    requires ClaimsOk(s)
    ensures ClaimsOk(ClaimProfileStep(s, u, slug, lasrera).0)
  {
    var t := ClaimProfileStep(s, u, slug, lasrera).0;
    ClaimProfilePends(s, u, slug, lasrera);
    ClaimProfileProper(s, u, slug, lasrera);
    forall a | 0 <= a < |t.agents| ensures OneApproval(t, a) {
      assert OneApproval(s, a);
      PendingKeepsApproval(s, t, a);
    }
  }

  lemma DecideOk(s: State, u: nat, id: nat, action: string)
    requires ClaimsOk(s)
    ensures ClaimsOk(DecideClaimStep(s, u, id, action).0)
  {
    var t := DecideClaimStep(s, u, id, action).0;
    if t != s {
      var agent := s.claims[id].agent;
      forall a | 0 <= a < |t.agents| ensures OneApproval(t, a) {
        assert OneApproval(s, a);
        if s.agents[a].claimed {
          var c: nat :| c < |s.claims| && ApprovedOn(s.claims[c], a);
          assert t.claims[c] == s.claims[c];
        }
        forall c | 0 <= c < |t.claims| && ApprovedOn(t.claims[c], a)
          ensures (c == id && a == agent && !s.agents[a].claimed && t.agents[a].claimed) || ApprovedOn(s.claims[c], a)
        {
        }
        assert t.agents[a].claimed && !s.agents[a].claimed ==> ApprovedOn(t.claims[id], a);
      }
    }
  }

  lemma StepOk(s: State, e: TimedEvent)
    requires ClaimsOk(s)
    ensures ClaimsOk(Step(s, e).0)
  {
    match e.event
    case ClaimProfile(u, slug, lasrera) => ClaimProfileOk(s, u, slug, lasrera);
    case DecideClaim(u, id, action) => DecideOk(s, u, id, action);
    case _ =>
      OthersExtend(s, e);
      ExtendedOk(s, Step(s, e).0);
  }

  lemma {:induction false} RunOk(start: State, events: seq<TimedEvent>)
    requires Initial(start)
    ensures ClaimsOk(Run(start, events))
  {
    if events != [] {
      RunOk(start, events[..|events| - 1]);
      StepOk(Run(start, events[..|events| - 1]), events[|events| - 1]);
    }
  }

  /**
   In every reachable state an agent is claimed exactly when one of its claims is
   approved, never two, and nobody has two claims on one agent.
   */
  lemma ClaimedIffOneApproved(start: State, events: seq<TimedEvent>, agent: nat)
    requires Initial(start) && agent < |Run(start, events).agents|
    ensures var s := Run(start, events);
            && |ApprovedFor(s, agent)| == (if s.agents[agent].claimed then 1 else 0)
            && forall c, d | 0 <= c < |s.claims| && 0 <= d < |s.claims| ::
                 s.claims[c].agent == s.claims[d].agent && s.claims[c].user == s.claims[d].user ==> c == d
  {
    RunOk(start, events);
    ApprovalsCounted(Run(start, events), agent);
    PairsDiffer(Run(start, events));
  }

  lemma ApprovalsCounted(s: State, agent: nat)
    requires agent < |s.agents| && OneApproval(s, agent)
    ensures |ApprovedFor(s, agent)| == if s.agents[agent].claimed then 1 else 0
  {
    if s.agents[agent].claimed {
      var c: nat :| c < |s.claims| && ApprovedOn(s.claims[c], agent);
      assert ApprovedFor(s, agent) == {c};
    } else {
      assert ApprovedFor(s, agent) == {};
    }
  }

  lemma PairsDiffer(s: State)
    requires ClaimsProper(s)
    ensures forall c, d | 0 <= c < |s.claims| && 0 <= d < |s.claims| ::
              s.claims[c].agent == s.claims[d].agent && s.claims[c].user == s.claims[d].user ==> c == d
  {
  }

  // --------------------------------------------------------- decisions are final

  /** Decided claims keep their status, and claims their parties; claimed agents keep their number. */
  ghost predicate Kept(s: State, t: State) {
    && |s.claims| <= |t.claims| && |s.agents| <= |t.agents|
    && (forall c | 0 <= c < |s.claims| ::
          && t.claims[c].agent == s.claims[c].agent && t.claims[c].user == s.claims[c].user
          && (s.claims[c].status != ClaimPending ==> t.claims[c] == s.claims[c]))
    && (forall a | 0 <= a < |s.agents| && s.agents[a].claimed ::
          t.agents[a].claimed && t.agents[a].phoneHash == s.agents[a].phoneHash)
  }

  lemma ClaimProfileKeeps(s: State, u: nat, slug: string, lasrera: Option<string>)
    requires ClaimsOk(s)
    ensures Kept(s, ClaimProfileStep(s, u, slug, lasrera).0)
  {
    var t := ClaimProfileStep(s, u, slug, lasrera).0;
    forall c | 0 <= c < |s.claims| && s.claims[c].status != ClaimPending ensures t.claims[c] == s.claims[c] {
      assert OneApproval(s, s.claims[c].agent);
      assert s.claims[c].status == ClaimApproved ==> ApprovedOn(s.claims[c], s.claims[c].agent);
    }
  }

  lemma DecideKeeps(s: State, u: nat, id: nat, action: string)
    requires ClaimsOk(s)
    ensures Kept(s, DecideClaimStep(s, u, id, action).0)
  {
  }

  lemma ExtendedKeeps(s: State, t: State)
    requires Extended(s, t)
    ensures Kept(s, t)
  {
    forall a | 0 <= a < |s.agents| ensures t.agents[a] == s.agents[a] {
      assert t.agents[a] == t.agents[..|s.agents|][a];
    }
  }

  lemma StepKeeps(s: State, e: TimedEvent)
    requires ClaimsOk(s)
    ensures Kept(s, Step(s, e).0)
  {
    match e.event
    case ClaimProfile(u, slug, lasrera) => ClaimProfileKeeps(s, u, slug, lasrera);
    case DecideClaim(u, id, action) => DecideKeeps(s, u, id, action);
    case _ =>
      OthersExtend(s, e);
      ExtendedKeeps(s, Step(s, e).0);
  }

  /** Whatever happens after, a decision on a claim stands, and so does the number it bound. */
  lemma {:induction false} DecisionsAreFinal(start: State, events: seq<TimedEvent>, k: nat)
    requires Initial(start) && k <= |events|
    ensures Kept(Run(start, events[..k]), Run(start, events))
  {
    if k == |events| {
      assert events[..k] == events;
    } else {
      var front := events[..|events| - 1];
      DecisionsAreFinal(start, front, k);
      assert front[..k] == events[..k];
      RunOk(start, front);
      StepKeeps(Run(start, front), events[|events| - 1]);
    }
  }

  // ----------------------------------------------------- whose number is bound

  predicate Approves(s: State, e: TimedEvent, agent: nat) {
    && e.event.DecideClaim? && e.event.action == "approve" && Step(s, e).1 == Done
    && e.event.claim < |s.claims| && s.claims[e.event.claim].agent == agent
  }

  /** The number of the claimant when the agent's claim was last approved. */
  function BoundNumber(start: State, events: seq<TimedEvent>, agent: nat): Option<string> {
    if events == [] then None
    else
      var s, e := Run(start, events[..|events| - 1]), events[|events| - 1];
      if Approves(s, e, agent) && s.claims[e.event.claim].user < |s.users|
      then Some(s.users[s.claims[e.event.claim].user].phoneHash)
      else BoundNumber(start, events[..|events| - 1], agent)
  }

  /** Either the step approves a claim on the agent, or the agent was claimed before and keeps its number. */
  ghost predicate NumberOk(s: State, e: TimedEvent, t: State, agent: nat)
    requires ClaimsOk(s) && agent < |t.agents|
  {
    if Approves(s, e, agent) then
      t.agents[agent].phoneHash == Some(s.users[s.claims[e.event.claim].user].phoneHash)
    else agent < |s.agents| && s.agents[agent].claimed && t.agents[agent].phoneHash == s.agents[agent].phoneHash
  }

  lemma DecideNumber(s: State, e: TimedEvent, agent: nat)
    requires ClaimsOk(s) && e.event.DecideClaim?
    requires agent < |Step(s, e).0.agents| && Step(s, e).0.agents[agent].claimed
    ensures NumberOk(s, e, Step(s, e).0, agent)
  {
  }

  lemma NumberStep(s: State, e: TimedEvent, agent: nat)
    requires ClaimsOk(s) && agent < |Step(s, e).0.agents| && Step(s, e).0.agents[agent].claimed
    ensures NumberOk(s, e, Step(s, e).0, agent)
  {
    match e.event
    case ClaimProfile(_, _, _) =>
    case DecideClaim(_, _, _) => DecideNumber(s, e, agent);
    case _ =>
      var t := Step(s, e).0;
      OthersExtend(s, e);
      assert agent < |s.agents| ==> t.agents[agent] == t.agents[..|s.agents|][agent];
  }

  /** A claimed agent's number is the one its claimant had when the claim was approved. */
  lemma {:induction false} ClaimedNumberIsClaimants(start: State, events: seq<TimedEvent>, agent: nat)
    requires Initial(start) && agent < |Run(start, events).agents| && Run(start, events).agents[agent].claimed
    ensures BoundNumber(start, events, agent).Some?
    ensures Run(start, events).agents[agent].phoneHash == BoundNumber(start, events, agent)
  {
    if events != [] {
      var front, e := events[..|events| - 1], events[|events| - 1];
      RunOk(start, front);
      NumberStep(Run(start, front), e, agent);
      if !Approves(Run(start, front), e, agent) {
        ClaimedNumberIsClaimants(start, front, agent);
      }
    }
  }

  // ------------------------------------------------------------ who may reply

  ghost predicate NumbersDiffer(users: seq<User>) {
    forall i, j | 0 <= i < j < |users| :: users[i].phoneHash != users[j].phoneHash
  }

  lemma {:induction false} RunNumbersDiffer(start: State, events: seq<TimedEvent>)
    requires Initial(start)
    ensures NumbersDiffer(Run(start, events).users)
  {
    if events != [] {
      RunNumbersDiffer(start, events[..|events| - 1]);
      StepNumbersDiffer(Run(start, events[..|events| - 1]), events[|events| - 1]);
    }
  }

  lemma StepNumbersDiffer(s: State, e: TimedEvent)
    requires NumbersDiffer(s.users)
    ensures NumbersDiffer(Step(s, e).0.users)
  {
    match e.event
    case SignIn(hash) =>
    case ChangePhone(_, _) =>
    case CloseAccount(u, confirm, remove, token) => CloseNumbersDiffer(s, u, confirm, remove, token);
    case Submit(_, _, _) => SameNumbers(s, e);
    case Delete(_, _) => SameNumbers(s, e);
    case _ => SameUsers(s, e);
  }

  lemma CloseNumbersDiffer(s: State, u: nat, confirm: string, remove: bool, token: string)
    requires NumbersDiffer(s.users)
    ensures NumbersDiffer(CloseStep(s, u, confirm, remove, token).0.users)
  {
  }

  lemma SameUsers(s: State, e: TimedEvent)
    requires e.event.Edit? || e.event.Moderate? || e.event.Reply? || e.event.ClaimProfile? || e.event.DecideClaim?
    ensures Step(s, e).0.users == s.users
  {
  }

  lemma SameNumbers(s: State, e: TimedEvent)
    requires e.event.Submit? || e.event.Delete?
    ensures var t := Step(s, e).0;
            |t.users| == |s.users| && forall i | 0 <= i < |s.users| :: t.users[i].phoneHash == s.users[i].phoneHash
  {
  }

  /**
   Besides administrators, at most one account can answer a review: the one that now
   holds the number its agent's claimant had at approval.
   */
  lemma OneVoicePerReview(start: State, events: seq<TimedEvent>, id: nat, u: nat, v: nat)
    requires Initial(start)
    requires var s := Run(start, events);
             && id in s.reviews && Acting(s.users, u) && Acting(s.users, v)
             && SpeaksFor(s, u, s.reviews[id]) && SpeaksFor(s, v, s.reviews[id])
    ensures u == v
    ensures var s := Run(start, events);
            BoundNumber(start, events, s.reviews[id].agent.value) == Some(s.users[u].phoneHash)
  {
    var s := Run(start, events);
    RunNumbersDiffer(start, events);
    ClaimedNumberIsClaimants(start, events, s.reviews[id].agent.value);
  }

  /** An approval that takes effect claims the agent, for the number its claimant has. */
  lemma ApprovalBinds(s: State, e: TimedEvent, agent: nat)
    requires ClaimsOk(s) && Approves(s, e, agent)
    ensures s.claims[e.event.claim].user < |s.users|
    ensures agent < |Step(s, e).0.agents| && Step(s, e).0.agents[agent].claimed
  {
  }

  /** A number is bound exactly to the agents that are claimed. */
  lemma {:induction false} BoundIffClaimed(start: State, events: seq<TimedEvent>, agent: nat)
    requires Initial(start)
    ensures BoundNumber(start, events, agent).Some?
            <==> agent < |Run(start, events).agents| && Run(start, events).agents[agent].claimed
  {
    if events != [] {
      var front, e := events[..|events| - 1], events[|events| - 1];
      BoundIffClaimed(start, front, agent);
      RunOk(start, front);
      StepKeeps(Run(start, front), e);
      if Approves(Run(start, front), e, agent) {
        ApprovalBinds(Run(start, front), e, agent);
      } else if agent < |Run(start, events).agents| && Run(start, events).agents[agent].claimed {
        NumberStep(Run(start, front), e, agent);
      }
    }
  }

  /** A number once bound stays bound, in every later run. */
  lemma BoundStays(start: State, events: seq<TimedEvent>, k: nat, agent: nat)
    requires Initial(start) && k <= |events| && BoundNumber(start, events[..k], agent).Some?
    ensures BoundNumber(start, events, agent) == BoundNumber(start, events[..k], agent)
  {
    BoundIffClaimed(start, events[..k], agent);
    ClaimedNumberIsClaimants(start, events[..k], agent);
    DecisionsAreFinal(start, events, k);
    ClaimedNumberIsClaimants(start, events, agent);
  }

  /** Who speaks for the agent of a review: whoever now holds the number bound to it. */
  lemma VoiceIff(start: State, events: seq<TimedEvent>, id: nat, u: nat)
    requires Initial(start) && id in Run(start, events).reviews && Acting(Run(start, events).users, u)
    ensures var s := Run(start, events);
            SpeaksFor(s, u, s.reviews[id])
            <==> s.users[u].phoneHash != "" && s.reviews[id].agent.Some?
                 && BoundNumber(start, events, s.reviews[id].agent.value) == Some(s.users[u].phoneHash)
  {
    var s := Run(start, events);
    if s.reviews[id].agent.Some? {
      BoundIffClaimed(start, events, s.reviews[id].agent.value);
      if BoundNumber(start, events, s.reviews[id].agent.value).Some? {
        ClaimedNumberIsClaimants(start, events, s.reviews[id].agent.value);
      }
    }
  }

  ghost predicate SomeoneSpeaks(s: State, id: nat)
    requires id in s.reviews
  {
    exists u: nat :: Acting(s.users, u) && SpeaksFor(s, u, s.reviews[id])
  }

  predicate HoldsNumber(s: State, u: nat, hash: string) {
    Acting(s.users, u) && s.users[u].phoneHash == hash
  }

  /**
   The voice goes with the number, not the person: from the moment a claim binds it, in
   every later run an account speaks for the agent exactly when it holds that number, so
   nobody does while no open account holds it.
   */
  lemma VoicePasses(start: State, events: seq<TimedEvent>, k: nat, id: nat, hash: string)
    requires Initial(start) && k <= |events| && id in Run(start, events).reviews
    requires hash != "" && Run(start, events).reviews[id].agent.Some?
    requires BoundNumber(start, events[..k], Run(start, events).reviews[id].agent.value) == Some(hash)
    ensures var s := Run(start, events);
            && (forall u: nat | Acting(s.users, u) :: SpeaksFor(s, u, s.reviews[id]) <==> HoldsNumber(s, u, hash))
            && (SomeoneSpeaks(s, id) <==> exists u: nat :: HoldsNumber(s, u, hash))
  {
    var s := Run(start, events);
    BoundStays(start, events, k, s.reviews[id].agent.value);
    forall u: nat | Acting(s.users, u) ensures SpeaksFor(s, u, s.reviews[id]) <==> HoldsNumber(s, u, hash) {
      VoiceIff(start, events, id, u);
    }
    VoiceCounted(s, id, hash);
  }

  lemma VoiceCounted(s: State, id: nat, hash: string)
    requires id in s.reviews
    requires forall u: nat | Acting(s.users, u) :: SpeaksFor(s, u, s.reviews[id]) <==> HoldsNumber(s, u, hash)
    ensures SomeoneSpeaks(s, id) <==> exists u: nat :: HoldsNumber(s, u, hash)
  {
    if u: nat :| Acting(s.users, u) && SpeaksFor(s, u, s.reviews[id]) {
      assert HoldsNumber(s, u, hash);
    }
  }

  // --------------------------------------------------------- agents by name

  ghost predicate NamesDiffer(agents: seq<Agent>) {
    forall i, j | 0 <= i < j < |agents| :: agents[i].normalised != agents[j].normalised
  }

  /** The agent a review names: found by its name, whatever case and margins, or made for it. */
  lemma ResolveFinds(agents: seq<Agent>, name: string)
    requires NamesDiffer(agents) && name != ""
    ensures var (after, id) := ResolveAgent(agents, Some(name));
            && NamesDiffer(after) && agents <= after && |after| <= |agents| + 1
            && id.Some? && id.value < |after| && after[id.value].normalised == Lower(Strip(name))
            && (id.value == |agents| <==> forall i | 0 <= i < |agents| :: agents[i].normalised != Lower(Strip(name)))
  {
  }

  lemma StepNamesDiffer(s: State, e: TimedEvent)
    requires NamesDiffer(s.agents)
    ensures NamesDiffer(Step(s, e).0.agents)
  {
    match e.event
    case Submit(_, sub, _) =>
      if sub.agentName.Some? && sub.agentName.value != "" {
        ResolveFinds(s.agents, sub.agentName.value);
      }
    case DecideClaim(u, id, action) => DecideNamesDiffer(s, u, id, action);
    case _ => SameAgents(s, e);
  }

  lemma DecideNamesDiffer(s: State, u: nat, id: nat, action: string)
    requires NamesDiffer(s.agents)
    ensures NamesDiffer(DecideClaimStep(s, u, id, action).0.agents)
  {
  }

  lemma SameAgents(s: State, e: TimedEvent)
    requires !e.event.Submit? && !e.event.DecideClaim?
    ensures Step(s, e).0.agents == s.agents
  {
  }

  /** A name never finds two agents: no run makes a second one of the same normalised name. */
  lemma {:induction false} NamesStayDistinct(start: State, events: seq<TimedEvent>)
    requires NamesDiffer(start.agents)
    ensures NamesDiffer(Run(start, events).agents)
  {
    if events != [] {
      NamesStayDistinct(start, events[..|events| - 1]);
      StepNamesDiffer(Run(start, events[..|events| - 1]), events[|events| - 1]);
    }
  }
}
