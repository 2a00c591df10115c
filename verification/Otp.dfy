/**
 One-time codes (app/services/otp_store.py, the request and verify steps of
 app/services/auth.py, and the phone-change confirmation of app/api/v1/users.py,
 which consumes the same codes). Hashes are opaque texts.
 */
module Otp {
  import opened Wrappers
  import opened TtlStore

  const OTP_TTL_SECONDS: real := 300.0

  datatype Config = Config(perHour: int, perDay: int, resendCooldown: int, maxAttempts: int)

  const DEFAULTS := Config(3, 10, 60, 5)

  datatype Throttle = Cooldown | PhoneHourly | PhoneDaily | NetworkHourly

  datatype Outcome =
    | Sent | Throttled(reason: Throttle)
    | Verified | WrongCode | Burned | NoCode
    | Fault

  /** Both consumers of a code: signing in, and moving an account to a new number. */
  datatype Consumer = SignIn | PhoneChange

  datatype Event =
    | Request(phone: string, clientIp: Option<string>, codeHash: string)
    | Verify(consumer: Consumer, phone: string, guessHash: string)

  datatype TimedEvent = TimedEvent(time: real, event: Event)

  /** Python truth of a value read from the store. */
  predicate Truthy(v: Option<Value>) {
    v.Some? && (v.value.Text? ==> v.value.text != "")
  }

  /** A check either passes, or stops the request with an outcome. */
  datatype Gate<D> = Pass(data: D) | Stop(data: D, outcome: Outcome)

  function CooldownGate(data: Data, phone: string, now: real): Gate<Data> {
    var purged := Purged(data, OtpCooldown(phone), now);
    if Truthy(Live(data, OtpCooldown(phone), now)) then Stop(purged, Throttled(Cooldown)) else Pass(purged)
  }

  function QuotaGate(data: Data, key: Key, limit: int, reason: Throttle, now: real): Gate<Data>
    requires key.Quota?
  {
    var after := AfterIncr(data, key, Ttl(key), now);
    match Incremented(data, key, now)
    case None => Stop(after, Fault)
    case Some(n) => if n > limit then Stop(after, Throttled(reason)) else Pass(after)
  }

  /** How long a quota counter lives. */
  function Ttl(key: Key): real
    requires key.Quota?
  {
    match key.period
    case Hour => 3600.0
    case Day => 86400.0
  }

  function QuotasGate(data: Data, cfg: Config, phone: string, ip: Option<string>, now: real): Gate<Data> {
    match QuotaGate(data, Quota(Hour, ByPhone, phone), cfg.perHour, PhoneHourly, now)
    case Stop(d, o) => Stop(d, o)
    case Pass(d1) =>
      match QuotaGate(d1, Quota(Day, ByPhone, phone), cfg.perDay, PhoneDaily, now)
      case Stop(d, o) => Stop(d, o)
      case Pass(d2) =>
        if Present(ip) then QuotaGate(d2, Quota(Hour, ByAddress, ip.value), cfg.perHour * 5, NetworkHourly, now)
        else Pass(d2)
  }

  /** `check_request_quota`. */
  function RequestGate(data: Data, cfg: Config, phone: string, ip: Option<string>, now: real): Gate<Data> {
    match CooldownGate(data, phone, now)
    case Stop(d, o) => Stop(d, o)
    case Pass(d) => QuotasGate(d, cfg, phone, ip, now)
  }

  /** `save_otp`. */
  function Saved(data: Data, cfg: Config, phone: string, codeHash: string, now: real): Data {
    var coded := AfterSet(data, OtpCode(phone), Text(codeHash), OTP_TTL_SECONDS, now);
    AfterSet(coded - {OtpAttempts(phone)}, OtpCooldown(phone), Text("1"), cfg.resendCooldown as real, now)
  }

  function RequestSpec(data: Data, cfg: Config, phone: string, ip: Option<string>, codeHash: string, now: real)
    : (Data, Outcome)
  {
    match RequestGate(data, cfg, phone, ip, now)
    case Stop(d, o) => (d, o)
    case Pass(d) => (Saved(d, cfg, phone, codeHash, now), Sent)
  }

  /** `clear_otp`. */
  function Cleared(data: Data, phone: string): Data {
    data - {OtpCode(phone)} - {OtpAttempts(phone)}
  }

  /** `register_failed_attempt`. */
  function FailedSpec(data: Data, cfg: Config, phone: string, now: real): (Data, Outcome) {
    var after := AfterIncr(data, OtpAttempts(phone), OTP_TTL_SECONDS, now);
    match Incremented(data, OtpAttempts(phone), now)
    case None => (after, Fault)
    case Some(n) => if n >= cfg.maxAttempts then (Cleared(after, phone), Burned) else (after, WrongCode)
  }

  /** The check both consumers make. */
  function VerifySpec(data: Data, cfg: Config, phone: string, guessHash: string, now: real): (Data, Outcome) {
    var stored := Live(data, OtpCode(phone), now);
    var purged := Purged(data, OtpCode(phone), now);
    if !Truthy(stored) then (purged, NoCode)
    else if stored.value == Text(guessHash) then (Cleared(purged, phone), Verified)
    else FailedSpec(purged, cfg, phone, now)
  }

  function Step(data: Data, cfg: Config, e: TimedEvent): (Data, Outcome) {
    match e.event
    case Request(phone, ip, codeHash) => RequestSpec(data, cfg, phone, ip, codeHash, e.time)
    case Verify(_, phone, guessHash) => VerifySpec(data, cfg, phone, guessHash, e.time)
  }

  // ------------------------------------------------------------- the service

  class OtpService {
    const store: MemoryStore
    const cfg: Config

    constructor (s: MemoryStore, c: Config)
      ensures store == s && cfg == c
    {
      store, cfg := s, c;
    }

    /** Passing returns Sent; anything else is the exception raised. */
    method CheckRequestQuota(phone: string, clientIp: Option<string>, now: real) returns (outcome: Outcome)
      modifies store
      ensures match RequestGate(old(store.data), cfg, phone, clientIp, now)
              case Pass(d) => outcome == Sent && store.data == d
              case Stop(d, o) => outcome == o && store.data == d
    {
      var cooling := store.Get(OtpCooldown(phone), now);
      if Truthy(cooling) {
        return Throttled(Cooldown);
      }
      outcome := Charge(Quota(Hour, ByPhone, phone), cfg.perHour, PhoneHourly, now);
      if outcome != Sent {
        return;
      }
      outcome := Charge(Quota(Day, ByPhone, phone), cfg.perDay, PhoneDaily, now);
      if outcome != Sent {
        return;
      }
      if clientIp.Some? && clientIp.value != "" {
        // Five times the phone's allowance.
        outcome := Charge(Quota(Hour, ByAddress, clientIp.value), cfg.perHour * 5, NetworkHourly, now);
      }
    }

    /** Increment one quota counter and compare. */
    method Charge(key: Key, limit: int, reason: Throttle, now: real) returns (outcome: Outcome)
      requires key.Quota?
      modifies store
      ensures match QuotaGate(old(store.data), key, limit, reason, now)
              case Pass(d) => outcome == Sent && store.data == d
              case Stop(d, o) => outcome == o && o != Sent && store.data == d
    {
      var used := store.Incr(key, Ttl(key), now);
      match used
      case None => outcome := Fault;
      case Some(n) => outcome := if n > limit then Throttled(reason) else Sent;
    }

    method SaveOtp(phone: string, codeHash: string, now: real)
      modifies store
      ensures store.data == Saved(old(store.data), cfg, phone, codeHash, now)
    {
      store.Set(OtpCode(phone), Text(codeHash), OTP_TTL_SECONDS, now);
      store.Delete(OtpAttempts(phone));
      store.Set(OtpCooldown(phone), Text("1"), cfg.resendCooldown as real, now);
    }

    method ClearOtp(phone: string)
      modifies store
      ensures store.data == Cleared(old(store.data), phone)
    {
      store.Delete(OtpCode(phone));
      store.Delete(OtpAttempts(phone));
    }

    method RegisterFailedAttempt(phone: string, now: real) returns (outcome: Outcome)
      modifies store
      ensures (store.data, outcome) == FailedSpec(old(store.data), cfg, phone, now)
    {
      var attempts := store.Incr(OtpAttempts(phone), OTP_TTL_SECONDS, now);
      match attempts
      case None => outcome := Fault;
      case Some(n) =>
        if n >= cfg.maxAttempts {
          ClearOtp(phone);
          return Burned;
        }
        outcome := WrongCode;
    }

    method RequestOtp(phone: string, clientIp: Option<string>, codeHash: string, now: real) returns (outcome: Outcome)
      modifies store
      ensures (store.data, outcome) == RequestSpec(old(store.data), cfg, phone, clientIp, codeHash, now)
    {
      outcome := CheckRequestQuota(phone, clientIp, now);
      PassNotSent(old(store.data), cfg, phone, clientIp, now);
      if outcome != Sent {
        return;
      }
      SaveOtp(phone, codeHash, now);
    }

    method VerifyOtp(phone: string, guessHash: string, now: real) returns (outcome: Outcome)
      modifies store
      ensures (store.data, outcome) == VerifySpec(old(store.data), cfg, phone, guessHash, now)
    {
      var stored := store.Get(OtpCode(phone), now);
      if !Truthy(stored) {
        return NoCode;
      }
      if stored.value != Text(guessHash) {
        outcome := RegisterFailedAttempt(phone, now);
        return;
      }
      ClearOtp(phone);
      outcome := Verified;
    }
  }

  /** A stopped request is never reported as sent. */
  lemma PassNotSent(data: Data, cfg: Config, phone: string, ip: Option<string>, now: real)
    ensures RequestGate(data, cfg, phone, ip, now).Stop? ==> RequestGate(data, cfg, phone, ip, now).outcome != Sent
  {
  }
}
