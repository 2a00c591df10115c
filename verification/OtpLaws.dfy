/**
 What holds over every run of requests, guesses and time passing, read off the log of
 events and answers alone.
 */
module OtpLaws {
  import opened Wrappers
  import opened Windows
  import opened TtlStore
  import opened Otp
  import opened OtpLedger

  /** The last message sent to a phone. */
  datatype Message = Message(code: string, at: real)

  predicate SendsTo(entry: Logged, phone: string) {
    entry.event.Request? && entry.event.phone == phone && entry.outcome == Sent
  }

  predicate GuessesAt(entry: Logged, phone: string) {
    entry.event.Verify? && entry.event.phone == phone
  }

  function Latest(log: seq<Logged>, phone: string): Option<Message> {
    if log == [] then None
    else
      var e := log[|log| - 1];
      if SendsTo(e, phone) then Some(Message(e.event.codeHash, e.time)) else Latest(log[..|log| - 1], phone)
  }

  /** Wrong guesses since the last message, by either consumer. */
  function WrongSince(log: seq<Logged>, phone: string): nat {
    if log == [] || SendsTo(log[|log| - 1], phone) then 0
    else
      var e := log[|log| - 1];
      WrongSince(log[..|log| - 1], phone) + if GuessesAt(e, phone) && e.outcome in {WrongCode, Burned} then 1 else 0
  }

  /** Guesses accepted since the last message, by either consumer. */
  function RightSince(log: seq<Logged>, phone: string): nat {
    if log == [] || SendsTo(log[|log| - 1], phone) then 0
    else
      var e := log[|log| - 1];
      RightSince(log[..|log| - 1], phone) + if GuessesAt(e, phone) && e.outcome == Verified then 1 else 0
  }

  /** A limit of zero or less still lets one guess through. */
  function Cap(cfg: Config): nat {
    if cfg.maxAttempts < 1 then 1 else cfg.maxAttempts
  }

  predicate Spent(log: seq<Logged>, cfg: Config, phone: string) {
    RightSince(log, phone) > 0 || WrongSince(log, phone) >= Cap(cfg)
  }

  /** What the records say is what the log says. */
  ghost predicate Tells(l: Ledger, log: seq<Logged>, cfg: Config, phone: string) {
    var m := Latest(log, phone);
    && WrongSince(log, phone) <= Cap(cfg) && RightSince(log, phone) <= 1
    && (phone in l.sent <==> m.Some?) && (m.Some? ==> l.sent[phone] == m.value.at)
    && (phone in l.issues <==> m.Some? && !Spent(log, cfg, phone))
    && (phone in l.issues ==> l.issues[phone] == Issue(m.value.code, m.value.at, WrongSince(log, phone)))
  }

  lemma {:induction false} LedgerTellsLog(cfg: Config, events: seq<TimedEvent>, phone: string)
    ensures Tells(LedgerRun(cfg, events).0, LedgerRun(cfg, events).1, cfg, phone)
  {
    if events != [] {
      var k := |events| - 1;
      LedgerTellsLog(cfg, events[..k], phone);
      var before := LedgerRun(cfg, events[..k]);
      TellsStep(before.0, before.1, cfg, events[k], phone);
    }
  }

  lemma TellsStep(l: Ledger, log: seq<Logged>, cfg: Config, e: TimedEvent, phone: string)
    requires Tells(l, log, cfg, phone)
    ensures var step := LedgerStep(l, cfg, e);
            Tells(step.0, log + [Logged(e.time, e.event, step.1)], cfg, phone)
  {
    var step := LedgerStep(l, cfg, e);
    var entry := Logged(e.time, e.event, step.1);
    LogStep(log, entry, phone);
    match e.event
    case Request(p, ip, codeHash) => ChargeAllKeepsIssues(l, cfg, p, ip, e.time);
    case Verify(_, p, _) =>
  }

  lemma LogStep(log: seq<Logged>, e: Logged, phone: string)
    ensures Latest(log + [e], phone)
            == if SendsTo(e, phone) then Some(Message(e.event.codeHash, e.time)) else Latest(log, phone)
    ensures WrongSince(log + [e], phone)
            == if SendsTo(e, phone) then 0
               else WrongSince(log, phone) + if GuessesAt(e, phone) && e.outcome in {WrongCode, Burned} then 1 else 0
    ensures RightSince(log + [e], phone)
            == if SendsTo(e, phone) then 0
               else RightSince(log, phone) + if GuessesAt(e, phone) && e.outcome == Verified then 1 else 0
  {
    assert (log + [e])[..|log|] == log;
  }

  // ------------------------------------------------------------ attempt cap

  /**
   Each code meets at most the configured number of wrong guesses and at most one
   success, across both consumers together, over every run.
   */
  lemma AttemptCap(cfg: Config, events: seq<TimedEvent>, phone: string)
    requires Sensible(events)
    ensures WrongSince(StoreRun(cfg, events).1, phone) <= Cap(cfg)
    ensures RightSince(StoreRun(cfg, events).1, phone) <= 1
  {
    StoreRefinesLedger(cfg, events);
    LedgerTellsLog(cfg, events, phone);
  }

  /** Is the message's code one that a guess at this moment is compared with? */
  predicate Usable(log: seq<Logged>, cfg: Config, phone: string, now: real) {
    var m := Latest(log, phone);
    m.Some? && now <= m.value.at + 300.0 && !Spent(log, cfg, phone)
  }

  predicate WrongGuess(log: seq<Logged>, cfg: Config, phone: string, guess: string, now: real) {
    Usable(log, cfg, phone, now) && Latest(log, phone).value.code != guess
  }

  /**
   A guess is accepted exactly when it is the code last sent to that phone, no more than
   five minutes ago, not accepted before and not guessed wrong too often; a wrong guess at
   such a code burns it exactly when it is the last one allowed.
   */
  lemma VerifiedIff(cfg: Config, events: seq<TimedEvent>, e: TimedEvent)
    requires Sensible(events + [e]) && e.event.Verify?
    ensures var run, phone, guess := StoreRun(cfg, events), e.event.phone, e.event.guessHash;
            var outcome := Step(run.0, cfg, e).1;
            && (outcome == Verified <==> Usable(run.1, cfg, phone, e.time) && Latest(run.1, phone).value.code == guess)
            && (outcome == NoCode <==> !Usable(run.1, cfg, phone, e.time))
            && (outcome == Burned
                <==> WrongGuess(run.1, cfg, phone, guess, e.time) && WrongSince(run.1, phone) == Cap(cfg) - 1)
            && (outcome == WrongCode
                <==> WrongGuess(run.1, cfg, phone, guess, e.time) && WrongSince(run.1, phone) < Cap(cfg) - 1)
  {
    var events1 := events + [e];
    assert events1[..|events|] == events;
    assert events1[|events|] == e;
    forall i | 0 <= i < |events| ensures events[i] == events1[i] {}
    assert Sensible(events);
    StoreRefinesLedger(cfg, events);
    LedgerTellsLog(cfg, events, e.event.phone);
    assert events != [] ==> events[|events| - 1].time <= e.time;
    VerifyRefines(StoreRun(cfg, events).0, LedgerRun(cfg, events).0, cfg, e.event.phone, e.event.guessHash, e.time);
  }

  /** No run makes the store fault: counters only ever hold numbers. */
  lemma {:induction false} NeverFaults(cfg: Config, events: seq<TimedEvent>)
    requires Sensible(events)
    ensures forall i | 0 <= i < |StoreRun(cfg, events).1| :: StoreRun(cfg, events).1[i].outcome != Fault
  {
    StoreRefinesLedger(cfg, events);
    LedgerNeverFaults(cfg, events);
  }

  lemma {:induction false} LedgerNeverFaults(cfg: Config, events: seq<TimedEvent>)
    ensures forall i | 0 <= i < |LedgerRun(cfg, events).1| :: LedgerRun(cfg, events).1[i].outcome != Fault
  {
    if events != [] {
      LedgerNeverFaults(cfg, events[..|events| - 1]);
    }
  }

  // --------------------------------------------------------- resend cooldown

  /** A log records its events, one entry each. */
  ghost predicate Records(log: seq<Logged>, events: seq<TimedEvent>) {
    |log| == |events| && forall i | 0 <= i < |log| :: log[i].time == events[i].time && log[i].event == events[i].event
  }

  lemma RecordsLast(log: seq<Logged>, events: seq<TimedEvent>, entry: Logged)
    requires events != [] && Records(log, events[..|events| - 1])
    requires entry.time == events[|events| - 1].time && entry.event == events[|events| - 1].event
    ensures Records(log + [entry], events)
  {
  }

  lemma LogLast(cfg: Config, events: seq<TimedEvent>) returns (entry: Logged)
    requires events != []
    ensures LedgerRun(cfg, events).1 == LedgerRun(cfg, events[..|events| - 1]).1 + [entry]
    ensures entry.time == events[|events| - 1].time && entry.event == events[|events| - 1].event
    ensures entry.outcome == LedgerStep(LedgerRun(cfg, events[..|events| - 1]).0, cfg, events[|events| - 1]).1
  {
    var e := events[|events| - 1];
    entry := Logged(e.time, e.event, LedgerStep(LedgerRun(cfg, events[..|events| - 1]).0, cfg, e).1);
  }

  lemma {:induction false} LogIsEvents(cfg: Config, events: seq<TimedEvent>)
    ensures Records(LedgerRun(cfg, events).1, events)
  {
    if events != [] {
      LogIsEvents(cfg, events[..|events| - 1]);
      var entry := LogLast(cfg, events);
      RecordsLast(LedgerRun(cfg, events[..|events| - 1]).1, events, entry);
    }
  }

  lemma {:induction false} LatestIsLast(log: seq<Logged>, phone: string, i: nat)
    requires i < |log| && SendsTo(log[i], phone)
    requires forall a, b | 0 <= a < b < |log| :: log[a].time <= log[b].time
    ensures Latest(log, phone).Some? && Latest(log, phone).value.at >= log[i].time
  {
    if !SendsTo(log[|log| - 1], phone) {
      LatestIsLast(log[..|log| - 1], phone, i);
    }
  }

  /** Messages to the phone are more than the gap apart. */
  ghost predicate Spaced(log: seq<Logged>, phone: string, gap: real) {
    forall i, j | 0 <= i < j < |log| && SendsTo(log[i], phone) && SendsTo(log[j], phone) ::
      log[j].time > log[i].time + gap
  }

  lemma SpacedLast(log: seq<Logged>, phone: string, gap: real, entry: Logged)
    requires Spaced(log, phone, gap)
    requires SendsTo(entry, phone) ==>
               forall i | 0 <= i < |log| && SendsTo(log[i], phone) :: entry.time > log[i].time + gap
    ensures Spaced(log + [entry], phone, gap)
  {
  }

  /** Two messages to one phone are more than the cooldown apart. */
  lemma CooldownSpacing(cfg: Config, events: seq<TimedEvent>, phone: string, i: nat, j: nat)
    requires Sensible(events) && i < j < |StoreRun(cfg, events).1|
    requires SendsTo(StoreRun(cfg, events).1[i], phone) && SendsTo(StoreRun(cfg, events).1[j], phone)
    ensures StoreRun(cfg, events).1[j].time > StoreRun(cfg, events).1[i].time + cfg.resendCooldown as real
  {
    StoreRefinesLedger(cfg, events);
    LedgerSpacing(cfg, events, phone);
  }

  /** A message goes out only once the phone's last one has cooled down. */
  lemma SpacedFromLatest(l: Ledger, log: seq<Logged>, cfg: Config, e: TimedEvent, phone: string, earlier: real)
    requires Tells(l, log, cfg, phone) && Latest(log, phone).Some? && Latest(log, phone).value.at >= earlier
    requires e.event.Request? && e.event.phone == phone && LedgerStep(l, cfg, e).1 == Sent
    ensures e.time > earlier + cfg.resendCooldown as real
  {
    assert !CoolingDown(l, cfg, phone, e.time);
  }

  lemma {:induction false} LedgerSpacing(cfg: Config, events: seq<TimedEvent>, phone: string)
    requires Sensible(events)
    ensures Spaced(LedgerRun(cfg, events).1, phone, cfg.resendCooldown as real)
  {
    if events != [] {
      var k := |events| - 1;
      var (l, log) := LedgerRun(cfg, events[..k]);
      var gap := cfg.resendCooldown as real;
      var entry := LogLast(cfg, events);
      LedgerSpacing(cfg, events[..k], phone);
      LogIsEvents(cfg, events[..k]);
      LedgerTellsLog(cfg, events[..k], phone);
      forall i | 0 <= i < |log| && SendsTo(log[i], phone) && SendsTo(entry, phone)
        ensures entry.time > log[i].time + gap
      {
        LatestIsLast(log, phone, i);
        SpacedFromLatest(l, log, cfg, events[k], phone, log[i].time);
      }
      SpacedLast(log, phone, gap, entry);
    }
  }

  // ------------------------------------------------------------------ quotas

  /** Which counters a request is charged to. */
  predicate ChargedTo(event: Event, key: Key) {
    && event.Request?
    && (key == Quota(Hour, ByPhone, event.phone) || key == Quota(Day, ByPhone, event.phone)
        || (Present(event.clientIp) && key == Quota(Hour, ByAddress, event.clientIp.value)))
  }

  function LimitOf(cfg: Config, key: Key): int
    requires key.Quota?
  {
    match (key.period, key.scope)
    case (Hour, ByPhone) => cfg.perHour
    case (Day, ByPhone) => cfg.perDay
    case (_, ByAddress) => cfg.perHour * 5
  }

  /** When messages charged to the key were sent. */
  function SentOn(log: seq<Logged>, key: Key): seq<real> {
    if log == [] then []
    else
      var e := log[|log| - 1];
      SentOn(log[..|log| - 1], key) + if e.outcome == Sent && ChargedTo(e.event, key) then [e.time] else []
  }

  /** The same, with the place of each in its window. */
  function SentRanks(cfg: Config, events: seq<TimedEvent>, key: Key): seq<Stamp>
    requires key.Quota?
  {
    if events == [] then []
    else
      var k := |events| - 1;
      var l := LedgerRun(cfg, events[..k]).0;
      SentRanks(cfg, events[..k], key)
      + if LedgerStep(l, cfg, events[k]).1 == Sent && ChargedTo(events[k].event, key)
        then [Rank(l, key, events[k].time)] else []
  }

  lemma StepCharges(l: Ledger, cfg: Config, e: TimedEvent, key: Key)
    requires key.Quota?
    ensures var step := LedgerStep(l, cfg, e);
            && (Charges(step.0, key) == Charges(l, key) || Charges(step.0, key) == Charges(l, key) + [e.time])
            && (step.1 == Sent && ChargedTo(e.event, key) ==>
                  Charges(step.0, key) == Charges(l, key) + [e.time] && Rank(l, key, e.time).count <= LimitOf(cfg, key))
  {
    if e.event.Request? && !CoolingDown(l, cfg, e.event.phone, e.time) {
      var phone, ip := e.event.phone, e.event.clientIp;
      ChargeEffect(l, Quota(Hour, ByPhone, phone), cfg.perHour, PhoneHourly, e.time, key);
      var h1 := Charge(l, Quota(Hour, ByPhone, phone), cfg.perHour, PhoneHourly, e.time);
      ChargeEffect(h1.data, Quota(Day, ByPhone, phone), cfg.perDay, PhoneDaily, e.time, key);
      var h2 := Charge(h1.data, Quota(Day, ByPhone, phone), cfg.perDay, PhoneDaily, e.time);
      if Present(ip) {
        ChargeEffect(h2.data, Quota(Hour, ByAddress, ip.value), cfg.perHour * 5, NetworkHourly, e.time, key);
      }
    }
  }

  lemma ChargeEffect(l: Ledger, charged: Key, limit: int, reason: Throttle, now: real, key: Key)
    requires charged.Quota? && key.Quota?
    ensures var g := Charge(l, charged, limit, reason, now);
            && Charges(g.data, key) == (if key == charged then Charges(l, key) + [now] else Charges(l, key))
            && (g.Pass? ==> Rank(l, charged, now).count <= limit)
            && (g.Stop? ==> g.outcome != Sent)
  {
  }

  ghost predicate NoneAfter(times: seq<real>, now: real) {
    forall i | 0 <= i < |times| :: times[i] <= now
  }

  /** The ranks of the sent messages are a selection of the charges, none past the limit. */
  ghost predicate RanksOk(ranks: seq<Stamp>, charges: seq<real>, ttl: real, limit: int, now: real) {
    && NonDecreasing(charges) && NoneAfter(charges, now)
    && Chain(ranks, ttl)
    && (forall i | 0 <= i < |ranks| :: ranks[i] in Stamps(charges, ttl) && ranks[i].count <= limit)
  }

  /** A new charge comes after every charge before it. */
  lemma NewFollows(charges: seq<real>, now: real, ttl: real)
    requires NonDecreasing(charges) && NoneAfter(charges, now) && ttl >= 0.0
    ensures var s := Next(Stamps(charges, ttl), now, ttl);
            && Placed(s, ttl) && NonDecreasing(charges + [now])
            && Stamps(charges + [now], ttl) == Stamps(charges, ttl) + [s]
            && (forall t | t in Stamps(charges, ttl) :: Follows(t, s, ttl))
  {
    StampsChain(charges + [now], ttl);
    StampsAppend(charges, now, ttl);
    var all := Stamps(charges + [now], ttl);
    forall t | t in Stamps(charges, ttl) ensures Follows(t, all[|charges|], ttl) {
      var i: nat :| i < |charges| && Stamps(charges, ttl)[i] == t;
      assert all[i] == t;
    }
  }

  lemma RanksLater(ranks: seq<Stamp>, charges: seq<real>, ttl: real, limit: int, before: real, now: real)
    requires RanksOk(ranks, charges, ttl, limit, before) && before <= now
    ensures RanksOk(ranks, charges, ttl, limit, now)
  {
  }

  /** A charge that sends nothing. */
  lemma RanksCharged(ranks: seq<Stamp>, charges: seq<real>, ttl: real, limit: int, now: real)
    requires RanksOk(ranks, charges, ttl, limit, now) && ttl >= 0.0
    ensures RanksOk(ranks, charges + [now], ttl, limit, now)
  {
    NewFollows(charges, now, ttl);
  }

  lemma ChainAppend(ranks: seq<Stamp>, s: Stamp, ttl: real)
    requires Chain(ranks, ttl) && Placed(s, ttl) && forall r | r in ranks :: Follows(r, s, ttl)
    ensures Chain(ranks + [s], ttl)
  {
  }

  /** A charge that sends a message. */
  lemma RanksSent(ranks: seq<Stamp>, charges: seq<real>, ttl: real, limit: int, now: real, s: Stamp)
    requires RanksOk(ranks, charges, ttl, limit, now) && ttl >= 0.0
    requires s == Next(Stamps(charges, ttl), now, ttl) && s.count <= limit
    ensures RanksOk(ranks + [s], charges + [now], ttl, limit, now)
  {
    NewFollows(charges, now, ttl);
    forall r | r in ranks ensures r in Stamps(charges, ttl) {
      var i :| 0 <= i < |ranks| && ranks[i] == r;
    }
    ChainAppend(ranks, s, ttl);
  }

  lemma RanksStep(ranks: seq<Stamp>, charges: seq<real>, charges': seq<real>, ttl: real, limit: int, now: real,
                  sent: bool, s: Stamp)
    requires RanksOk(ranks, charges, ttl, limit, now) && ttl >= 0.0
    requires charges' == charges || charges' == charges + [now]
    requires sent ==> charges' == charges + [now] && s == Next(Stamps(charges, ttl), now, ttl) && s.count <= limit
    ensures RanksOk(ranks + if sent then [s] else [], charges', ttl, limit, now)
  {
    assert ranks + [] == ranks;
    if sent {
      RanksSent(ranks, charges, ttl, limit, now, s);
    } else if charges' != charges {
      RanksCharged(ranks, charges, ttl, limit, now);
    }
  }

  lemma {:induction false} SentRanksOk(cfg: Config, events: seq<TimedEvent>, key: Key, now: real)
    requires Sensible(events) && key.Quota?
    requires events != [] ==> events[|events| - 1].time <= now
    ensures RanksOk(SentRanks(cfg, events, key), Charges(LedgerRun(cfg, events).0, key),
                    Ttl(key), LimitOf(cfg, key), now)
  {
    if events != [] {
      var k := |events| - 1;
      var e, l := events[k], LedgerRun(cfg, events[..k]).0;
      SentRanksOk(cfg, events[..k], key, e.time);
      StepCharges(l, cfg, e, key);
      var step := LedgerStep(l, cfg, e);
      RanksStep(SentRanks(cfg, events[..k], key), Charges(l, key), Charges(step.0, key), Ttl(key), LimitOf(cfg, key),
                e.time, step.1 == Sent && ChargedTo(e.event, key), Rank(l, key, e.time));
      RanksLater(SentRanks(cfg, events, key), Charges(step.0, key), Ttl(key), LimitOf(cfg, key), e.time, now);
    }
  }

  lemma {:induction false} SentOnTimes(cfg: Config, events: seq<TimedEvent>, key: Key)
    requires key.Quota?
    ensures var on, ranks := SentOn(LedgerRun(cfg, events).1, key), SentRanks(cfg, events, key);
            |on| == |ranks| && forall i | 0 <= i < |on| :: on[i] == ranks[i].time
  {
    if events != [] {
      SentOnTimes(cfg, events[..|events| - 1], key);
      var before := LedgerRun(cfg, events[..|events| - 1]).1;
      assert LedgerRun(cfg, events).1[..|before|] == before;
    }
  }

  /**
   For every quota, the phone's hourly and daily ones and the network's: any stretch of
   time no longer than its window sees at most 2 * limit - 1 messages charged to it.
   */
  lemma QuotaBound(cfg: Config, events: seq<TimedEvent>, key: Key, i: nat, j: nat)
    requires Sensible(events) && key.Quota?
    requires i <= j < |SentOn(StoreRun(cfg, events).1, key)|
    requires SentOn(StoreRun(cfg, events).1, key)[j] - SentOn(StoreRun(cfg, events).1, key)[i] <= Ttl(key)
    ensures j - i + 1 <= 2 * LimitOf(cfg, key) - 1
  {
    StoreRefinesLedger(cfg, events);
    SentRanksOk(cfg, events, key, events[|events| - 1].time);
    SentOnTimes(cfg, events, key);
    var ranks := SentRanks(cfg, events, key);
    assert 1 <= ranks[i].count <= LimitOf(cfg, key);
    IntervalBound(ranks, Ttl(key), LimitOf(cfg, key), i, j);
  }

  /**
   The settings in use: five wrong guesses per code, more than a minute between messages,
   and in any hour or day at most 5 and 19 messages to a phone and 29 from one network.
   */
  lemma PublishedLimits(events: seq<TimedEvent>, phone: string, ip: string, i: nat, j: nat)
    requires Sensible(events)
    ensures WrongSince(StoreRun(DEFAULTS, events).1, phone) <= 5
    ensures var log := StoreRun(DEFAULTS, events).1;
            i < j < |log| && SendsTo(log[i], phone) && SendsTo(log[j], phone) ==> log[j].time > log[i].time + 60.0
    ensures AtMost(SentOn(StoreRun(DEFAULTS, events).1, Quota(Hour, ByPhone, phone)), i, j, 3600.0, 5)
    ensures AtMost(SentOn(StoreRun(DEFAULTS, events).1, Quota(Day, ByPhone, phone)), i, j, 86400.0, 19)
    ensures AtMost(SentOn(StoreRun(DEFAULTS, events).1, Quota(Hour, ByAddress, ip)), i, j, 3600.0, 29)
  {
    AttemptCap(DEFAULTS, events, phone);
    var log := StoreRun(DEFAULTS, events).1;
    if i < j < |log| && SendsTo(log[i], phone) && SendsTo(log[j], phone) {
      CooldownSpacing(DEFAULTS, events, phone, i, j);
    }
    QuotaAtMost(DEFAULTS, events, Quota(Hour, ByPhone, phone), i, j);
    QuotaAtMost(DEFAULTS, events, Quota(Day, ByPhone, phone), i, j);
    QuotaAtMost(DEFAULTS, events, Quota(Hour, ByAddress, ip), i, j);
  }

  /** If the i-th to j-th moments fit in the window, there are at most n of them. */
  predicate AtMost(times: seq<real>, i: nat, j: nat, window: real, n: int) {
    i <= j < |times| && times[j] - times[i] <= window ==> j - i + 1 <= n
  }

  lemma QuotaAtMost(cfg: Config, events: seq<TimedEvent>, key: Key, i: nat, j: nat)
    requires Sensible(events) && key.Quota?
    ensures AtMost(SentOn(StoreRun(cfg, events).1, key), i, j, Ttl(key), 2 * LimitOf(cfg, key) - 1)
  {
    var times := SentOn(StoreRun(cfg, events).1, key);
    if i <= j < |times| && times[j] - times[i] <= Ttl(key) {
      QuotaBound(cfg, events, key, i, j);
    }
  }
}
