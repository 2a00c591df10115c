/**
 What the code protocol should do, without a store: one record per phone for the code
 in force, one for the last message, and a list of charges per quota. The store, with
 its separate expiring entries, gives the same answers over every run.
 */
module OtpLedger {
  import opened Wrappers
  import opened Windows
  import opened TtlStore
  import opened Otp

  /** A code in force, and the wrong guesses made at it. */
  datatype Issue = Issue(code: string, at: real, wrong: nat)

  datatype Ledger = Ledger(issues: map<string, Issue>, sent: map<string, real>, charges: map<Key, seq<real>>)

  const EMPTY := Ledger(map[], map[], map[])

  function Charges(l: Ledger, key: Key): seq<real> {
    if key in l.charges then l.charges[key] else []
  }

  predicate InForce(l: Ledger, phone: string, now: real) {
    phone in l.issues && now <= l.issues[phone].at + OTP_TTL_SECONDS
  }

  predicate CoolingDown(l: Ledger, cfg: Config, phone: string, now: real) {
    phone in l.sent && now <= l.sent[phone] + cfg.resendCooldown as real
  }

  /** The place a charge takes among those of its key. */
  function Rank(l: Ledger, key: Key, now: real): Stamp
    requires key.Quota?
  {
    Next(Stamps(Charges(l, key), Ttl(key)), now, Ttl(key))
  }

  function Charged(l: Ledger, key: Key, now: real): Ledger {
    l.(charges := l.charges[key := Charges(l, key) + [now]])
  }

  function Charge(l: Ledger, key: Key, limit: int, reason: Throttle, now: real): Gate<Ledger>
    requires key.Quota?
  {
    if Rank(l, key, now).count > limit then Stop(Charged(l, key, now), Throttled(reason))
    else Pass(Charged(l, key, now))
  }

  function ChargeAll(l: Ledger, cfg: Config, phone: string, ip: Option<string>, now: real): Gate<Ledger> {
    match Charge(l, Quota(Hour, ByPhone, phone), cfg.perHour, PhoneHourly, now)
    case Stop(d, o) => Stop(d, o)
    case Pass(l1) =>
      match Charge(l1, Quota(Day, ByPhone, phone), cfg.perDay, PhoneDaily, now)
      case Stop(d, o) => Stop(d, o)
      case Pass(l2) =>
        if Present(ip) then Charge(l2, Quota(Hour, ByAddress, ip.value), cfg.perHour * 5, NetworkHourly, now)
        else Pass(l2)
  }

  function Issued(l: Ledger, phone: string, codeHash: string, now: real): Ledger {
    l.(issues := l.issues[phone := Issue(codeHash, now, 0)], sent := l.sent[phone := now])
  }

  function Withdrawn(l: Ledger, phone: string): Ledger {
    l.(issues := l.issues - {phone})
  }

  function RequestStep(l: Ledger, cfg: Config, phone: string, ip: Option<string>, codeHash: string, now: real)
    : (Ledger, Outcome)
  {
    if CoolingDown(l, cfg, phone, now) then (l, Throttled(Cooldown))
    else
      match ChargeAll(l, cfg, phone, ip, now)
      case Stop(d, o) => (d, o)
      case Pass(d) => (Issued(d, phone, codeHash, now), Sent)
  }

  function VerifyStep(l: Ledger, cfg: Config, phone: string, guess: string, now: real): (Ledger, Outcome) {
    if !InForce(l, phone, now) then (l, NoCode)
    else
      var i := l.issues[phone];
      if i.code == guess then (Withdrawn(l, phone), Verified)
      else if i.wrong + 1 >= cfg.maxAttempts then (Withdrawn(l, phone), Burned)
      else (l.(issues := l.issues[phone := i.(wrong := i.wrong + 1)]), WrongCode)
  }

  function LedgerStep(l: Ledger, cfg: Config, e: TimedEvent): (Ledger, Outcome) {
    match e.event
    case Request(phone, ip, codeHash) => RequestStep(l, cfg, phone, ip, codeHash, e.time)
    case Verify(_, phone, guess) => VerifyStep(l, cfg, phone, guess, e.time)
  }

  // ----------------------------------------------------------------- the runs

  datatype Logged = Logged(time: real, event: Event, outcome: Outcome)

  /** The store and its answers after a run from empty. */
  function StoreRun(cfg: Config, events: seq<TimedEvent>): (Data, seq<Logged>) {
    if events == [] then (map[], [])
    else
      var e := events[|events| - 1];
      var before := StoreRun(cfg, events[..|events| - 1]);
      var step := Step(before.0, cfg, e);
      (step.0, before.1 + [Logged(e.time, e.event, step.1)])
  }

  function LedgerRun(cfg: Config, events: seq<TimedEvent>): (Ledger, seq<Logged>) {
    if events == [] then (EMPTY, [])
    else
      var e := events[|events| - 1];
      var before := LedgerRun(cfg, events[..|events| - 1]);
      var step := LedgerStep(before.0, cfg, e);
      (step.0, before.1 + [Logged(e.time, e.event, step.1)])
  }

  /** Events in time order; a hash of a code is never empty. */
  ghost predicate Sensible(events: seq<TimedEvent>) {
    && (forall i, j | 0 <= i < j < |events| :: events[i].time <= events[j].time)
    && (forall i | 0 <= i < |events| :: events[i].event.Request? ==> events[i].event.codeHash != "")
  }

  // -------------------------------------------------------------- the relation

  /** Two entries, the code and its failed attempts, stand for one record. */
  predicate CodeOk(data: Data, l: Ledger, p: string, now: real) {
    if InForce(l, p, now) then
      var i := l.issues[p];
      && OtpCode(p) in data && data[OtpCode(p)] == Entry(Text(i.code), i.at + OTP_TTL_SECONDS)
      && i.code != ""
      && AttemptsOk(data, i, p)
    else Live(data, OtpCode(p), now).None?
  }

  /** The count of failed attempts outlives the code it protects. */
  predicate AttemptsOk(data: Data, i: Issue, p: string) {
    if i.wrong == 0 then OtpAttempts(p) !in data
    else
      && OtpAttempts(p) in data && data[OtpAttempts(p)].value == Count(i.wrong)
      && data[OtpAttempts(p)].expires >= i.at + OTP_TTL_SECONDS
  }

  predicate CooldownOk(data: Data, l: Ledger, cfg: Config, p: string, now: real) {
    if CoolingDown(l, cfg, p, now) then
      OtpCooldown(p) in data
      && data[OtpCooldown(p)] == Entry(Text("1"), l.sent[p] + cfg.resendCooldown as real)
    else Live(data, OtpCooldown(p), now).None?
  }

  predicate ChargesOk(data: Data, l: Ledger, key: Key, now: real) {
    key.Quota? ==> Shows(data, key, Stamps(Charges(l, key), Ttl(key)), Ttl(key), now)
  }

  ghost predicate PhoneOk(data: Data, l: Ledger, cfg: Config, p: string, now: real) {
    CodeOk(data, l, p, now) && CooldownOk(data, l, cfg, p, now)
  }

  ghost predicate Related(data: Data, l: Ledger, cfg: Config, now: real) {
    && (forall p: string :: PhoneOk(data, l, cfg, p, now))
    && (forall k: Key :: ChargesOk(data, l, k, now))
  }

  /** Time alone does not break the relation: entries lapse exactly when records do. */
  lemma TimePasses(data: Data, l: Ledger, cfg: Config, now: real, later: real)
    requires Related(data, l, cfg, now) && now <= later
    ensures Related(data, l, cfg, later)
  {
    forall p: string ensures PhoneOk(data, l, cfg, p, later) {
      assert PhoneOk(data, l, cfg, p, now);
    }
    forall k: Key ensures ChargesOk(data, l, k, later) {
      assert ChargesOk(data, l, k, now);
    }
  }

  /** Same entry, or absent from both. */
  predicate Same(d: Data, e: Data, key: Key) {
    if key in d then key in e && d[key] == e[key] else key !in e
  }

  /** The keys and records of one phone are untouched. */
  predicate PhoneKept(d: Data, e: Data, l: Ledger, m: Ledger, p: string) {
    && Same(d, e, OtpCode(p)) && Same(d, e, OtpAttempts(p)) && Same(d, e, OtpCooldown(p))
    && (if p in l.issues then p in m.issues && l.issues[p] == m.issues[p] else p !in m.issues)
    && (if p in l.sent then p in m.sent && l.sent[p] == m.sent[p] else p !in m.sent)
  }

  lemma KeptPhoneOk(d: Data, e: Data, l: Ledger, m: Ledger, cfg: Config, p: string, now: real)
    requires PhoneKept(d, e, l, m, p) && PhoneOk(d, l, cfg, p, now)
    ensures PhoneOk(e, m, cfg, p, now)
  {
  }

  predicate ChargesKept(d: Data, e: Data, l: Ledger, m: Ledger, k: Key) {
    k.Quota? ==> Same(d, e, k) && Charges(l, k) == Charges(m, k)
  }

  lemma KeptChargesOk(d: Data, e: Data, l: Ledger, m: Ledger, k: Key, now: real)
    requires ChargesKept(d, e, l, m, k) && ChargesOk(d, l, k, now)
    ensures ChargesOk(e, m, k, now)
  {
  }

  /** What the step leaves alone stays related; p and key are where it does something. */
  lemma Framed(d: Data, e: Data, l: Ledger, m: Ledger, cfg: Config, phones: set<string>, keys: set<Key>, now: real)
    requires Related(d, l, cfg, now)
    requires forall p | p !in phones :: PhoneKept(d, e, l, m, p)
    requires forall p | p in phones :: PhoneOk(e, m, cfg, p, now)
    requires forall k | k !in keys :: ChargesKept(d, e, l, m, k)
    requires forall k | k in keys :: ChargesOk(e, m, k, now)
    ensures Related(e, m, cfg, now)
  {
    forall p: string ensures PhoneOk(e, m, cfg, p, now) {
      if p !in phones {
        KeptPhoneOk(d, e, l, m, cfg, p, now);
      }
    }
    forall k: Key ensures ChargesOk(e, m, k, now) {
      if k !in keys {
        KeptChargesOk(d, e, l, m, k, now);
      }
    }
  }

  lemma IncrKeeps(data: Data, key: Key, ttl: real, now: real, other: Key)
    requires other != key
    ensures Same(data, AfterIncr(data, key, ttl, now), other)
  {
  }

  lemma ChargeRelated(data: Data, l: Ledger, cfg: Config, key: Key, now: real)
    requires Related(data, l, cfg, now) && key.Quota?
    ensures Related(AfterIncr(data, key, Ttl(key), now), Charged(l, key, now), cfg, now)
  {
    var d, m := AfterIncr(data, key, Ttl(key), now), Charged(l, key, now);
    forall p: string ensures PhoneKept(data, d, l, m, p) {
      IncrKeeps(data, key, Ttl(key), now, OtpCode(p));
      IncrKeeps(data, key, Ttl(key), now, OtpAttempts(p));
      IncrKeeps(data, key, Ttl(key), now, OtpCooldown(p));
    }
    forall k: Key | k != key ensures ChargesKept(data, d, l, m, k) {
      IncrKeeps(data, key, Ttl(key), now, k);
    }
    assert ChargesOk(data, l, key, now);
    ChargedOk(data, l, key, now);
    Framed(data, d, l, m, cfg, {}, {key}, now);
  }

  lemma ChargedOk(data: Data, l: Ledger, key: Key, now: real)
    requires ChargesOk(data, l, key, now) && key.Quota?
    ensures ChargesOk(AfterIncr(data, key, Ttl(key), now), Charged(l, key, now), key, now)
    ensures Incremented(data, key, now) == Some(Rank(l, key, now).count)
  {
    CounterStep(data, Timed(now, IncrOp(key, Ttl(key))), key, Charges(l, key), Ttl(key));
    ShownCount(data, key, Stamps(Charges(l, key), Ttl(key)), Ttl(key), now);
  }

  /** The two machines make the same decision, and stay related. */
  ghost predicate SameGate(g: Gate<Data>, h: Gate<Ledger>, cfg: Config, now: real) {
    && Related(g.data, h.data, cfg, now)
    && (g.Pass? <==> h.Pass?) && (g.Stop? && h.Stop? ==> g.outcome == h.outcome)
  }

  lemma ChargeRefines(data: Data, l: Ledger, cfg: Config, key: Key, limit: int, reason: Throttle, now: real)
    requires Related(data, l, cfg, now) && key.Quota?
    ensures SameGate(QuotaGate(data, key, limit, reason, now), Charge(l, key, limit, reason, now), cfg, now)
  {
    assert ChargesOk(data, l, key, now);
    ChargedOk(data, l, key, now);
    ChargeRelated(data, l, cfg, key, now);
  }

  lemma ChargeAllRefines(data: Data, l: Ledger, cfg: Config, phone: string, ip: Option<string>, now: real)
    requires Related(data, l, cfg, now)
    ensures SameGate(QuotasGate(data, cfg, phone, ip, now), ChargeAll(l, cfg, phone, ip, now), cfg, now)
  {
    var g1 := QuotaGate(data, Quota(Hour, ByPhone, phone), cfg.perHour, PhoneHourly, now);
    var h1 := Charge(l, Quota(Hour, ByPhone, phone), cfg.perHour, PhoneHourly, now);
    ChargeRefines(data, l, cfg, Quota(Hour, ByPhone, phone), cfg.perHour, PhoneHourly, now);
    if g1.Pass? {
      var g2 := QuotaGate(g1.data, Quota(Day, ByPhone, phone), cfg.perDay, PhoneDaily, now);
      var h2 := Charge(h1.data, Quota(Day, ByPhone, phone), cfg.perDay, PhoneDaily, now);
      ChargeRefines(g1.data, h1.data, cfg, Quota(Day, ByPhone, phone), cfg.perDay, PhoneDaily, now);
      if g2.Pass? && Present(ip) {
        ChargeRefines(g2.data, h2.data, cfg, Quota(Hour, ByAddress, ip.value), cfg.perHour * 5, NetworkHourly, now);
      }
    }
  }

  /** Lazy removal of an expired entry. */
  lemma PurgeRelated(data: Data, l: Ledger, cfg: Config, key: Key, phone: string, now: real)
    requires Related(data, l, cfg, now) && key in {OtpCode(phone), OtpCooldown(phone)}
    ensures Related(Purged(data, key, now), l, cfg, now)
  {
    var d := Purged(data, key, now);
    assert PhoneOk(data, l, cfg, phone, now);
    assert PhoneOk(d, l, cfg, phone, now);
    Framed(data, d, l, l, cfg, {phone}, {}, now);
  }

  lemma IssueRelated(data: Data, l: Ledger, cfg: Config, phone: string, codeHash: string, now: real)
    requires Related(data, l, cfg, now) && codeHash != ""
    ensures Related(Saved(data, cfg, phone, codeHash, now), Issued(l, phone, codeHash, now), cfg, now)
  {
    var d, m := Saved(data, cfg, phone, codeHash, now), Issued(l, phone, codeHash, now);
    assert PhoneOk(d, m, cfg, phone, now);
    Framed(data, d, l, m, cfg, {phone}, {}, now);
  }

  lemma RequestRefines(data: Data, l: Ledger, cfg: Config, phone: string, ip: Option<string>,
                       codeHash: string, now: real)
    requires Related(data, l, cfg, now) && codeHash != ""
    ensures var g, h := RequestSpec(data, cfg, phone, ip, codeHash, now), RequestStep(l, cfg, phone, ip, codeHash, now);
            Related(g.0, h.0, cfg, now) && g.1 == h.1
  {
    var d := Purged(data, OtpCooldown(phone), now);
    assert PhoneOk(data, l, cfg, phone, now);
    PurgeRelated(data, l, cfg, OtpCooldown(phone), phone, now);
    assert CoolingDown(l, cfg, phone, now) <==> CooldownGate(data, phone, now).Stop?;
    if CoolingDown(l, cfg, phone, now) {
    } else {
      var g, h := QuotasGate(d, cfg, phone, ip, now), ChargeAll(l, cfg, phone, ip, now);
      ChargeAllRefines(d, l, cfg, phone, ip, now);
      assert SameGate(g, h, cfg, now);
      if g.Pass? {
        IssueRelated(g.data, h.data, cfg, phone, codeHash, now);
      }
    }
  }

  lemma WithdrawRelated(data: Data, l: Ledger, cfg: Config, phone: string, now: real)
    requires Related(data, l, cfg, now)
    ensures Related(Cleared(data, phone), Withdrawn(l, phone), cfg, now)
  {
    var d, m := Cleared(data, phone), Withdrawn(l, phone);
    assert PhoneOk(data, l, cfg, phone, now);
    assert PhoneOk(d, m, cfg, phone, now);
    Framed(data, d, l, m, cfg, {phone}, {}, now);
  }

  /** A wrong guess, counted next to a code still in force. */
  lemma WrongGuessRefines(data: Data, l: Ledger, cfg: Config, phone: string, now: real)
    requires Related(data, l, cfg, now) && InForce(l, phone, now) && l.issues[phone].at <= now
    ensures var after, i := AfterIncr(data, OtpAttempts(phone), OTP_TTL_SECONDS, now), l.issues[phone];
            && Incremented(data, OtpAttempts(phone), now) == Some(i.wrong + 1)
            && Related(after, l.(issues := l.issues[phone := i.(wrong := i.wrong + 1)]), cfg, now)
  {
    var i := l.issues[phone];
    var d := AfterIncr(data, OtpAttempts(phone), OTP_TTL_SECONDS, now);
    var m := l.(issues := l.issues[phone := i.(wrong := i.wrong + 1)]);
    assert PhoneOk(data, l, cfg, phone, now);
    assert CodeOk(d, m, phone, now);
    assert CooldownOk(d, m, cfg, phone, now);
    forall k | k != OtpAttempts(phone) ensures Same(data, d, k) {
      IncrKeeps(data, OtpAttempts(phone), OTP_TTL_SECONDS, now, k);
    }
    Framed(data, d, l, m, cfg, {phone}, {}, now);
  }

  ghost predicate IssuedBefore(l: Ledger, now: real) {
    forall p | p in l.issues :: l.issues[p].at <= now
  }

  lemma VerifyRefines(data: Data, l: Ledger, cfg: Config, phone: string, guess: string, now: real)
    requires Related(data, l, cfg, now) && IssuedBefore(l, now)
    ensures var g, h := VerifySpec(data, cfg, phone, guess, now), VerifyStep(l, cfg, phone, guess, now);
            Related(g.0, h.0, cfg, now) && g.1 == h.1
  {
    var d := Purged(data, OtpCode(phone), now);
    assert PhoneOk(data, l, cfg, phone, now);
    PurgeRelated(data, l, cfg, OtpCode(phone), phone, now);
    if InForce(l, phone, now) {
      var i := l.issues[phone];
      if i.code == guess {
        WithdrawRelated(d, l, cfg, phone, now);
      } else {
        WrongGuessRefines(d, l, cfg, phone, now);
        var m := l.(issues := l.issues[phone := i.(wrong := i.wrong + 1)]);
        WithdrawRelated(AfterIncr(d, OtpAttempts(phone), OTP_TTL_SECONDS, now), m, cfg, phone, now);
        assert Withdrawn(m, phone) == Withdrawn(l, phone);
      }
    }
  }

  lemma ChargeKeepsIssues(l: Ledger, key: Key, limit: int, reason: Throttle, now: real)
    requires key.Quota?
    ensures Charge(l, key, limit, reason, now).data.issues == l.issues
    ensures Charge(l, key, limit, reason, now).data.sent == l.sent
  {
  }

  lemma ChargeAllKeepsIssues(l: Ledger, cfg: Config, phone: string, ip: Option<string>, now: real)
    ensures ChargeAll(l, cfg, phone, ip, now).data.issues == l.issues
    ensures ChargeAll(l, cfg, phone, ip, now).data.sent == l.sent
  {
    var hourly := Charge(l, Quota(Hour, ByPhone, phone), cfg.perHour, PhoneHourly, now);
    var daily := Charge(hourly.data, Quota(Day, ByPhone, phone), cfg.perDay, PhoneDaily, now);
    ChargeKeepsIssues(l, Quota(Hour, ByPhone, phone), cfg.perHour, PhoneHourly, now);
    ChargeKeepsIssues(hourly.data, Quota(Day, ByPhone, phone), cfg.perDay, PhoneDaily, now);
    if Present(ip) {
      ChargeKeepsIssues(daily.data, Quota(Hour, ByAddress, ip.value), cfg.perHour * 5, NetworkHourly, now);
    }
  }

  /** Over every run, the store with its expiring entries answers as the records do. */
  lemma {:induction false} StoreRefinesLedger(cfg: Config, events: seq<TimedEvent>)
    requires Sensible(events)
    ensures StoreRun(cfg, events).1 == LedgerRun(cfg, events).1
    ensures forall now: real | events == [] || events[|events| - 1].time <= now ::
              && Related(StoreRun(cfg, events).0, LedgerRun(cfg, events).0, cfg, now)
              && IssuedBefore(LedgerRun(cfg, events).0, now)
  {
    if events == [] {
    } else {
      var k := |events| - 1;
      var e := events[k];
      StoreRefinesLedger(cfg, events[..k]);
      var data, l := StoreRun(cfg, events[..k]).0, LedgerRun(cfg, events[..k]).0;
      assert Related(data, l, cfg, e.time);
      StepRefines(data, l, cfg, e);
      forall now: real | e.time <= now
        ensures Related(StoreRun(cfg, events).0, LedgerRun(cfg, events).0, cfg, now)
                && IssuedBefore(LedgerRun(cfg, events).0, now)
      {
        TimePasses(StoreRun(cfg, events).0, LedgerRun(cfg, events).0, cfg, e.time, now);
      }
    }
  }

  lemma StepRefines(data: Data, l: Ledger, cfg: Config, e: TimedEvent)
    requires Related(data, l, cfg, e.time) && IssuedBefore(l, e.time)
    requires e.event.Request? ==> e.event.codeHash != ""
    ensures var g, h := Step(data, cfg, e), LedgerStep(l, cfg, e);
            Related(g.0, h.0, cfg, e.time) && g.1 == h.1 && IssuedBefore(h.0, e.time)
  {
    match e.event
    case Request(phone, ip, codeHash) =>
      RequestRefines(data, l, cfg, phone, ip, codeHash, e.time);
      ChargeAllKeepsIssues(l, cfg, phone, ip, e.time);
    case Verify(_, phone, guess) =>
      VerifyRefines(data, l, cfg, phone, guess, e.time);
  }
}
