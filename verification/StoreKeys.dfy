/** The texts the application uses as store keys (app/services/otp_store.py,
 app/services/opendata.py, app/services/routing.py, app/api/ratelimit.py, app/main.py). */
module StoreKeys {
  import opened Decimal
  import opened TtlStore

  function Tagged(tag: string, rest: string): string {
    tag + ":" + rest
  }

  function PeriodText(p: Period): string {
    match p
    case Hour => "1h"
    case Day => "24h"
  }

  function ScopeText(s: Scope): string {
    match s
    case ByPhone => "phone"
    case ByAddress => "ip"
  }

  function NumberText(n: int): string {
    if n < 0 then "-" + Plain(-n) else Plain(n)
  }

  function Family(k: Key): string {
    match k
    case OtpCode(_) => "otp"
    case OtpAttempts(_) => "otp"
    case OtpCooldown(_) => "otp"
    case Quota(_, _, _) => "otp"
    case RateBucket(_, _, _) => "rl"
    case Slot(_, _) => "ratelimit"
    case RouteMinutes(_, _, _) => "route"
    case HealthProbe => "health"
  }

  function Detail(k: Key): string {
    match k
    case OtpCode(phone) => phone
    case OtpAttempts(phone) => Tagged("attempts", phone)
    case OtpCooldown(phone) => Tagged("cooldown", phone)
    case Quota(period, scope, ident) => Tagged("quota", Tagged(PeriodText(period), Tagged(ScopeText(scope), ident)))
    case RateBucket(name, windowS, client) => Tagged(name, Tagged(Plain(windowS), client))
    case Slot(name, number) => Tagged(name, NumberText(number))
    case RouteMinutes(origin, dest, kind) => Tagged(origin, Tagged(dest, kind))
    case HealthProbe => "probe"
  }

  /** The text of a key. */
  function Render(k: Key): string {
    Tagged(Family(k), Detail(k))
  }

  predicate NoColon(s: string) {
    forall i | 0 <= i < |s| :: s[i] != ':'
  }

  /**
   What keeps the keys apart: phone hashes (hexadecimal), the fixed names given to
   limiters and the formatted coordinates of a route hold no colon. Client addresses may.
   */
  predicate WellNamed(k: Key) {
    match k
    case OtpCode(phone) => NoColon(phone)
    case RateBucket(name, _, _) => NoColon(name)
    case Slot(name, _) => NoColon(name)
    case RouteMinutes(origin, dest, _) => NoColon(origin) && NoColon(dest)
    case _ => true
  }

  lemma TaggedAt(a: string, b: string)
    ensures Tagged(a, b)[|a|] == ':'
    ensures forall i | 0 <= i < |a| :: Tagged(a, b)[i] == a[i]
  {
  }

  lemma TaggedInjective(a: string, b: string, c: string, d: string)
    requires NoColon(a) && NoColon(c) && Tagged(a, b) == Tagged(c, d)
    ensures a == c && b == d
  {
    TaggedAt(a, b);
    TaggedAt(c, d);
    assert Tagged(a, b)[..|a|] == a && Tagged(c, d)[..|c|] == c;
    assert Tagged(a, b)[|a| + 1..] == b && Tagged(c, d)[|c| + 1..] == d;
  }

  lemma TaggedHasColon(a: string, b: string)
    ensures !NoColon(Tagged(a, b))
  {
    assert Tagged(a, b)[|a|] == ':';
  }

  lemma PlainInjective(m: nat, n: nat)
    requires Plain(m) == Plain(n)
    ensures m == n
  {
    PlainRoundTrip(m);
    PlainRoundTrip(n);
  }

  lemma PlainNoColon(n: nat)
    ensures NoColon(Plain(n))
  {
    forall i | 0 <= i < |Plain(n)| ensures Plain(n)[i] != ':' {
      assert IsDigit(Plain(n)[i]);
    }
  }

  lemma NumberInjective(m: int, n: int)
    requires NumberText(m) == NumberText(n)
    ensures m == n
  {
    assert m >= 0 ==> IsDigit(NumberText(m)[0]);
    assert n >= 0 ==> IsDigit(NumberText(n)[0]);
    assert m < 0 ==> NumberText(m)[1..] == Plain(-m);
    assert n < 0 ==> NumberText(n)[1..] == Plain(-n);
    if m < 0 {
      PlainInjective(-m, -n);
    } else {
      PlainInjective(m, n);
    }
  }

  predicate IsOtp(k: Key) {
    k.OtpCode? || k.OtpAttempts? || k.OtpCooldown? || k.Quota?
  }

  lemma QuotaInjective(a: Key, b: Key)
    requires a.Quota? && b.Quota? && Detail(a) == Detail(b)
    ensures a == b
  {
    TaggedInjective("quota", Detail(a)[6..], "quota", Detail(b)[6..]);
    var da, db := Tagged(ScopeText(a.scope), a.ident), Tagged(ScopeText(b.scope), b.ident);
    assert Detail(a)[6..] == Tagged(PeriodText(a.period), da);
    assert Detail(b)[6..] == Tagged(PeriodText(b.period), db);
    TaggedInjective(PeriodText(a.period), da, PeriodText(b.period), db);
    TaggedInjective(ScopeText(a.scope), a.ident, ScopeText(b.scope), b.ident);
  }

  /** The word after `otp:`, for the keys that have one. */
  function Word(k: Key): string
    requires IsOtp(k) && !k.OtpCode?
  {
    match k
    case OtpAttempts(_) => "attempts"
    case OtpCooldown(_) => "cooldown"
    case Quota(_, _, _) => "quota"
  }

  function AfterWord(k: Key): string
    requires IsOtp(k) && !k.OtpCode?
  {
    match k
    case OtpAttempts(phone) => phone
    case OtpCooldown(phone) => phone
    case Quota(period, scope, ident) => Tagged(PeriodText(period), Tagged(ScopeText(scope), ident))
  }

  lemma OtpInjective(a: Key, b: Key)
    requires IsOtp(a) && IsOtp(b) && WellNamed(a) && WellNamed(b) && Detail(a) == Detail(b)
    ensures a == b
  {
    if a.OtpCode? || b.OtpCode? {
      assert !a.OtpCode? ==> Detail(a) == Tagged(Word(a), AfterWord(a));
      assert !b.OtpCode? ==> Detail(b) == Tagged(Word(b), AfterWord(b));
      if !a.OtpCode? {
        TaggedHasColon(Word(a), AfterWord(a));
      }
      if !b.OtpCode? {
        TaggedHasColon(Word(b), AfterWord(b));
      }
    } else {
      TaggedInjective(Word(a), AfterWord(a), Word(b), AfterWord(b));
      assert Word(a)[0] == Word(b)[0];
      if a.Quota? {
        QuotaInjective(a, b);
      }
    }
  }

  lemma SlotInjective(a: Key, b: Key)
    requires a.Slot? && b.Slot? && WellNamed(a) && WellNamed(b) && Detail(a) == Detail(b)
    ensures a == b
  {
    TaggedInjective(a.name, NumberText(a.number), b.name, NumberText(b.number));
    NumberInjective(a.number, b.number);
  }

  lemma BucketInjective(a: Key, b: Key)
    requires a.RateBucket? && b.RateBucket? && WellNamed(a) && WellNamed(b) && Detail(a) == Detail(b)
    ensures a == b
  {
    var da, db := Tagged(Plain(a.windowS), a.client), Tagged(Plain(b.windowS), b.client);
    TaggedInjective(a.name, da, b.name, db);
    PlainNoColon(a.windowS);
    PlainNoColon(b.windowS);
    TaggedInjective(Plain(a.windowS), a.client, Plain(b.windowS), b.client);
    PlainInjective(a.windowS, b.windowS);
  }

  lemma RouteInjective(a: Key, b: Key)
    requires a.RouteMinutes? && b.RouteMinutes? && WellNamed(a) && WellNamed(b) && Detail(a) == Detail(b)
    ensures a == b
  {
    TaggedInjective(a.origin, Tagged(a.dest, a.kind), b.origin, Tagged(b.dest, b.kind));
    TaggedInjective(a.dest, a.kind, b.dest, b.kind);
  }

  lemma FamiliesDiffer(a: Key, b: Key)
    requires Family(a) == Family(b)
    ensures IsOtp(a) == IsOtp(b) && a.Slot? == b.Slot? && a.RateBucket? == b.RateBucket?
    ensures a.RouteMinutes? == b.RouteMinutes? && a.HealthProbe? == b.HealthProbe?
  {
    assert |Family(a)| == |Family(b)|;
  }

  /** No two keys share a text, so they may be modelled as a datatype. */
  lemma RenderInjective(a: Key, b: Key)
    requires WellNamed(a) && WellNamed(b) && Render(a) == Render(b)
    ensures a == b
  {
    TaggedInjective(Family(a), Detail(a), Family(b), Detail(b));
    FamiliesDiffer(a, b);
    if IsOtp(a) {
      OtpInjective(a, b);
    } else if a.Slot? {
      SlotInjective(a, b);
    } else if a.RateBucket? {
      BucketInjective(a, b);
    } else if a.RouteMinutes? {
      RouteInjective(a, b);
    }
  }

  /** A phone hash with a colon could be taken for another key: the condition is needed. */
  lemma ColonsCollide(phone: string)
    ensures Render(OtpCode(Tagged("attempts", phone))) == Render(OtpAttempts(phone))
  {
  }

  lemma Fields(a: string, b: string, c: string, d: string, e: string)
    ensures Tagged(a, b) == a + ":" + b
    ensures Tagged(a, Tagged(b, c)) == a + ":" + b + ":" + c
    ensures Tagged(a, Tagged(b, Tagged(c, d))) == a + ":" + b + ":" + c + ":" + d
    ensures Tagged(a, Tagged(b, Tagged(c, Tagged(d, e)))) == a + ":" + b + ":" + c + ":" + d + ":" + e
  {
  }

  /** The texts, field by field. */
  lemma Texts(phone: string, ident: string, name: string, n: nat, client: string, origin: string, dest: string,
              kind: string)
    ensures Render(OtpCode(phone)) == "otp" + ":" + phone
    ensures Render(OtpAttempts(phone)) == "otp" + ":" + "attempts" + ":" + phone
    ensures Render(OtpCooldown(phone)) == "otp" + ":" + "cooldown" + ":" + phone
    ensures Render(Quota(Hour, ByPhone, ident)) == "otp" + ":" + "quota" + ":" + "1h" + ":" + "phone" + ":" + ident
    ensures Render(Quota(Day, ByPhone, ident)) == "otp" + ":" + "quota" + ":" + "24h" + ":" + "phone" + ":" + ident
    ensures Render(Quota(Hour, ByAddress, ident)) == "otp" + ":" + "quota" + ":" + "1h" + ":" + "ip" + ":" + ident
    ensures Render(RateBucket(name, n, client)) == "rl" + ":" + name + ":" + Plain(n) + ":" + client
    ensures Render(Slot(name, n)) == "ratelimit" + ":" + name + ":" + Plain(n)
    ensures Render(RouteMinutes(origin, dest, kind)) == "route" + ":" + origin + ":" + dest + ":" + kind
    ensures Render(HealthProbe) == "health" + ":" + "probe"
  {
    Fields("otp", phone, "", "", "");
    Fields("otp", "attempts", phone, "", "");
    Fields("otp", "cooldown", phone, "", "");
    Fields("otp", "quota", "1h", "phone", ident);
    Fields("otp", "quota", "24h", "phone", ident);
    Fields("otp", "quota", "1h", "ip", ident);
    Fields("rl", name, Plain(n), client, "");
    Fields("ratelimit", name, Plain(n), "", "");
    Fields("route", origin, dest, kind, "");
    Fields("health", "probe", "", "", "");
  }
}
