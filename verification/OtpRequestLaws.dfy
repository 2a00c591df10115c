/** Which requests for a code are answered with a message, and why the others are not. */
module OtpRequestLaws {
  import opened Wrappers
  import opened Windows
  import opened TtlStore
  import opened Otp
  import opened OtpLedger
  import opened OtpLaws

  /** The request got as far as being counted on the key; the checks come in one order. */
  predicate CountedOn(e: Logged, key: Key)
    requires key.Quota?
  {
    && e.event.Request? && e.outcome != Throttled(Cooldown)
    && match (key.period, key.scope)
       case (Hour, ByPhone) => e.event.phone == key.ident
       case (Day, ByPhone) => e.event.phone == key.ident && e.outcome != Throttled(PhoneHourly)
       case (Hour, ByAddress) =>
         && e.event.clientIp == Some(key.ident) && key.ident != ""
         && e.outcome !in {Throttled(PhoneHourly), Throttled(PhoneDaily)}
       case (Day, ByAddress) => false
  }

  /** When requests were counted on the key. */
  function CountsOn(log: seq<Logged>, key: Key): seq<real>
    requires key.Quota?
  {
    if log == [] then []
    else
      var e := log[|log| - 1];
      CountsOn(log[..|log| - 1], key) + if CountedOn(e, key) then [e.time] else []
  }

  lemma CountsMore(log: seq<Logged>, e: Logged, key: Key)
    requires key.Quota?
    ensures CountsOn(log + [e], key) == CountsOn(log, key) + if CountedOn(e, key) then [e.time] else []
  {
    assert (log + [e])[..|log|] == log;
  }

  /** The ledger's charges are the requests counted. */
  lemma {:induction false} ChargesAreCounts(cfg: Config, events: seq<TimedEvent>, key: Key)
    requires key.Quota?
    ensures Charges(LedgerRun(cfg, events).0, key) == CountsOn(LedgerRun(cfg, events).1, key)
  {
    if events != [] {
      var k := |events| - 1;
      var (l, log) := LedgerRun(cfg, events[..k]);
      var step := LedgerStep(l, cfg, events[k]);
      ChargesAreCounts(cfg, events[..k], key);
      StepCounts(l, cfg, events[k], key);
      CountsMore(log, Logged(events[k].time, events[k].event, step.1), key);
    }
  }

  /** Charges on a key after one more, if the step makes it. */
  ghost predicate ChargesIf(l: Ledger, m: Ledger, key: Key, charged: bool, now: real) {
    Charges(m, key) == Charges(l, key) + if charged then [now] else []
  }

  lemma StepCounts(l: Ledger, cfg: Config, e: TimedEvent, key: Key)
    requires key.Quota?
    ensures var step := LedgerStep(l, cfg, e);
            ChargesIf(l, step.0, key, CountedOn(Logged(e.time, e.event, step.1), key), e.time)
  {
    if e.event.Request? && !CoolingDown(l, cfg, e.event.phone, e.time) {
      var g := ChargeAll(l, cfg, e.event.phone, e.event.clientIp, e.time);
      GateCounts(l, cfg, e.event, e.event.phone, e.event.clientIp, e.time, key);
      assert g.Pass? ==> Charges(Issued(g.data, e.event.phone, e.event.codeHash, e.time), key) == Charges(g.data, key);
    }
  }

  /** The gate charges the key exactly when its outcome says the request got that far. */
  lemma GateCounts(l: Ledger, cfg: Config, event: Event, phone: string, ip: Option<string>, now: real, key: Key)
    requires key.Quota? && event.Request? && event.phone == phone && event.clientIp == ip
    ensures var g := ChargeAll(l, cfg, phone, ip, now);
            ChargesIf(l, g.data, key, CountedOn(Logged(now, event, if g.Pass? then Sent else g.outcome), key), now)
  {
    ChargeEffect(l, Quota(Hour, ByPhone, phone), cfg.perHour, PhoneHourly, now, key);
    var h1 := Charge(l, Quota(Hour, ByPhone, phone), cfg.perHour, PhoneHourly, now);
    if h1.Pass? {
      ChargeEffect(h1.data, Quota(Day, ByPhone, phone), cfg.perDay, PhoneDaily, now, key);
      var h2 := Charge(h1.data, Quota(Day, ByPhone, phone), cfg.perDay, PhoneDaily, now);
      if h2.Pass? && Present(ip) {
        ChargeEffect(h2.data, Quota(Hour, ByAddress, ip.value), cfg.perHour * 5, NetworkHourly, now, key);
      }
    }
  }

  /** The place a request now would take in the key's window, an hour or a day from the first counted. */
  function PlaceOn(log: seq<Logged>, key: Key, now: real): nat
    requires key.Quota?
  {
    var window := if key.period == Hour then 3600.0 else 86400.0;
    Next(Stamps(CountsOn(log, key), window), now, window).count
  }

  /** A message was sent to the phone and its cooldown still runs. */
  predicate CooldownRuns(log: seq<Logged>, cfg: Config, phone: string, now: real) {
    var last := Latest(log, phone);
    last.Some? && now <= last.value.at + cfg.resendCooldown as real
  }

  /** Which quota refuses a request made now, or that a message is sent. */
  function QuotaAnswer(log: seq<Logged>, cfg: Config, phone: string, ip: Option<string>, now: real): Outcome {
    if PlaceOn(log, Quota(Hour, ByPhone, phone), now) > cfg.perHour then Throttled(PhoneHourly)
    else if PlaceOn(log, Quota(Day, ByPhone, phone), now) > cfg.perDay then Throttled(PhoneDaily)
    else if ip.Some? && ip.value != "" && PlaceOn(log, Quota(Hour, ByAddress, ip.value), now) > 5 * cfg.perHour
    then Throttled(NetworkHourly)
    else Sent
  }

  /** Why a request made now is refused, or that a message is sent. */
  function Answer(log: seq<Logged>, cfg: Config, phone: string, ip: Option<string>, now: real): Outcome {
    if CooldownRuns(log, cfg, phone, now) then Throttled(Cooldown) else QuotaAnswer(log, cfg, phone, ip, now)
  }

  ghost predicate SamePlace(l: Ledger, log: seq<Logged>, key: Key, now: real)
    requires key.Quota?
  {
    Rank(l, key, now).count == PlaceOn(log, key, now)
  }

  lemma PlacesAreRanks(cfg: Config, events: seq<TimedEvent>, key: Key, now: real)
    requires key.Quota?
    ensures var run := LedgerRun(cfg, events); SamePlace(run.0, run.1, key, now)
  {
    ChargesAreCounts(cfg, events, key);
  }

  lemma ChargedElsewhere(l: Ledger, charged: Key, limit: int, reason: Throttle, now: real, key: Key)
    requires charged.Quota? && key.Quota? && key != charged
    ensures var g := Charge(l, charged, limit, reason, now); Rank(g.data, key, now) == Rank(l, key, now)
  {
    ChargeEffect(l, charged, limit, reason, now, key);
  }

  lemma GateIs(l: Ledger, cfg: Config, phone: string, ip: Option<string>, now: real)
    ensures var g := ChargeAll(l, cfg, phone, ip, now);
            var hour, day := Rank(l, Quota(Hour, ByPhone, phone), now), Rank(l, Quota(Day, ByPhone, phone), now);
            if hour.count > cfg.perHour then g.Stop? && g.outcome == Throttled(PhoneHourly)
            else if day.count > cfg.perDay then g.Stop? && g.outcome == Throttled(PhoneDaily)
            else if Present(ip) && Rank(l, Quota(Hour, ByAddress, ip.value), now).count > cfg.perHour * 5
            then g.Stop? && g.outcome == Throttled(NetworkHourly)
            else g.Pass?
  {
    var h1 := Charge(l, Quota(Hour, ByPhone, phone), cfg.perHour, PhoneHourly, now);
    ChargedElsewhere(l, Quota(Hour, ByPhone, phone), cfg.perHour, PhoneHourly, now, Quota(Day, ByPhone, phone));
    if Present(ip) {
      var key := Quota(Hour, ByAddress, ip.value);
      ChargedElsewhere(l, Quota(Hour, ByPhone, phone), cfg.perHour, PhoneHourly, now, key);
      ChargedElsewhere(h1.data, Quota(Day, ByPhone, phone), cfg.perDay, PhoneDaily, now, key);
    }
  }

  /**
   Over every run: a request is answered from the log alone. It is refused within the
   cooldown of the last message, else when it is one too many in the phone's hour, the
   phone's day or the network's hour, in this order, and otherwise a message is sent.
   */
  lemma RequestIff(cfg: Config, events: seq<TimedEvent>, e: TimedEvent)
    requires Sensible(events + [e]) && e.event.Request?
    ensures var run := StoreRun(cfg, events);
            Step(run.0, cfg, e).1 == Answer(run.1, cfg, e.event.phone, e.event.clientIp, e.time)
  {
    StoreAnswersAsLedger(cfg, events, e);
    LedgerAnswers(cfg, events, e.event.phone, e.event.clientIp, e.event.codeHash, e.time);
  }

  lemma StoreAnswersAsLedger(cfg: Config, events: seq<TimedEvent>, e: TimedEvent)
    requires Sensible(events + [e]) && e.event.Request?
    ensures StoreRun(cfg, events).1 == LedgerRun(cfg, events).1
    ensures Step(StoreRun(cfg, events).0, cfg, e).1
            == RequestStep(LedgerRun(cfg, events).0, cfg, e.event.phone, e.event.clientIp, e.event.codeHash, e.time).1
  {
    SensibleFront(events, e);
    StoreRefinesLedger(cfg, events);
    RequestRefines(StoreRun(cfg, events).0, LedgerRun(cfg, events).0, cfg, e.event.phone, e.event.clientIp,
                   e.event.codeHash, e.time);
  }

  lemma LedgerAnswers(cfg: Config, events: seq<TimedEvent>, phone: string, ip: Option<string>, codeHash: string,
                      now: real)
    ensures var run := LedgerRun(cfg, events);
            RequestStep(run.0, cfg, phone, ip, codeHash, now).1 == Answer(run.1, cfg, phone, ip, now)
  {
    var (l, log) := LedgerRun(cfg, events);
    CoolingIs(cfg, events, phone, now);
    PlacesAreRanks(cfg, events, Quota(Hour, ByPhone, phone), now);
    PlacesAreRanks(cfg, events, Quota(Day, ByPhone, phone), now);
    if Present(ip) {
      PlacesAreRanks(cfg, events, Quota(Hour, ByAddress, ip.value), now);
    }
    GateAnswers(l, log, cfg, phone, ip, now);
    StepAnswers(l, cfg, phone, ip, codeHash, now);
  }

  lemma CoolingIs(cfg: Config, events: seq<TimedEvent>, phone: string, now: real)
    ensures var run := LedgerRun(cfg, events);
            CoolingDown(run.0, cfg, phone, now) == CooldownRuns(run.1, cfg, phone, now)
  {
    LedgerTellsLog(cfg, events, phone);
  }

  /** The quota checks answer by the places that requests take in the log. */
  lemma GateAnswers(l: Ledger, log: seq<Logged>, cfg: Config, phone: string, ip: Option<string>, now: real)
    requires SamePlace(l, log, Quota(Hour, ByPhone, phone), now) && SamePlace(l, log, Quota(Day, ByPhone, phone), now)
    requires Present(ip) ==> SamePlace(l, log, Quota(Hour, ByAddress, ip.value), now)
    ensures GateOutcome(ChargeAll(l, cfg, phone, ip, now)) == QuotaAnswer(log, cfg, phone, ip, now)
  {
    GateIs(l, cfg, phone, ip, now);
  }

  function GateOutcome(g: Gate<Ledger>): Outcome {
    if g.Pass? then Sent else g.outcome
  }

  lemma StepAnswers(l: Ledger, cfg: Config, phone: string, ip: Option<string>, codeHash: string, now: real)
    ensures RequestStep(l, cfg, phone, ip, codeHash, now).1
            == if CoolingDown(l, cfg, phone, now) then Throttled(Cooldown)
               else GateOutcome(ChargeAll(l, cfg, phone, ip, now))
  {
  }

  lemma SensibleFront(events: seq<TimedEvent>, e: TimedEvent)
    requires Sensible(events + [e])
    ensures Sensible(events) && (events != [] ==> events[|events| - 1].time <= e.time)
    ensures e.event.Request? ==> e.event.codeHash != ""
  {
    var all := events + [e];
    assert all[|events|] == e;
    forall i | 0 <= i < |events| ensures events[i] == all[i] {
    }
  }
}
