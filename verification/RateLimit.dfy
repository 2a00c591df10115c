/** Per-client rate limiting (app/api/ratelimit.py) over the shared store. */
module RateLimit {
  import opened Wrappers
  import opened Text
  import opened Tokens
  import opened Windows
  import opened TtlStore

  datatype Rule = Rule(name: string, limit: int, windowS: nat)

  const REGISTRATION_LIMIT := Rule("identify", 10, 3600)
  const SEARCH_LIMIT := Rule("places", 60, 3600)

  function BucketKey(rule: Rule, client: string): Key {
    RateBucket(rule.name, rule.windowS, client)
  }

  /** What a request does to the store. */
  function Request(rule: Rule, client: string, now: real): Timed {
    Timed(now, IncrOp(BucketKey(rule, client), rule.windowS as real))
  }

  /** May the request at this moment proceed? None when the counter is not a number. */
  function Verdict(data: Data, rule: Rule, client: string, now: real): Option<bool> {
    match Incremented(data, BucketKey(rule, client), now)
    case None => None
    case Some(used) => Some(used <= rule.limit)
  }

  method Check(store: MemoryStore, rule: Rule, client: string, now: real) returns (allowed: Option<bool>)
    modifies store
    ensures allowed == Verdict(old(store.data), rule, client, now)
    ensures store.data == AfterIncr(old(store.data), BucketKey(rule, client), rule.windowS as real, now)
  {
    var used := store.Incr(BucketKey(rule, client), rule.windowS as real, now);
    match used
    case None => allowed := None;
    case Some(n) => allowed := Some(!(n > rule.limit));
  }

  // ------------------------------------------------------- bounds over a run

  /** Was the operation an increment of the key that came back within the limit? */
  predicate LetThrough(data: Data, t: Timed, key: Key, ttl: real, limit: int) {
    && t.op == IncrOp(key, ttl)
    && Incremented(data, key, t.time).Some? && Incremented(data, key, t.time).value <= limit
  }

  function AdmittedOn(ops: seq<Timed>, key: Key, ttl: real, limit: int): seq<real> {
    if ops == [] then []
    else
      var front, last := ops[..|ops| - 1], ops[|ops| - 1];
      AdmittedOn(front, key, ttl, limit)
      + if LetThrough(Run(front), last, key, ttl, limit) then [last.time] else []
  }

  /** When requests of the client were let through, in a run of arbitrary store traffic. */
  function Admitted(ops: seq<Timed>, rule: Rule, client: string): seq<real> {
    AdmittedOn(ops, BucketKey(rule, client), rule.windowS as real, rule.limit)
  }

  function LowRanked(st: seq<Stamp>, limit: int): seq<Stamp> {
    if st == [] then []
    else LowRanked(st[..|st| - 1], limit) + if st[|st| - 1].count <= limit then [st[|st| - 1]] else []
  }

  lemma LowRankedAppend(st: seq<Stamp>, s: Stamp, limit: int)
    ensures LowRanked(st + [s], limit) == LowRanked(st, limit) + if s.count <= limit then [s] else []
  {
    assert (st + [s])[..|st|] == st;
  }

  lemma {:induction false} LowRankedFrom(st: seq<Stamp>, limit: int, p: nat) returns (i: nat)
    requires p < |LowRanked(st, limit)|
    ensures i < |st| && st[i] == LowRanked(st, limit)[p] && st[i].count <= limit
  {
    if p < |LowRanked(st[..|st| - 1], limit)| {
      i := LowRankedFrom(st[..|st| - 1], limit, p);
    } else {
      i := |st| - 1;
    }
  }

  /** A selection of a chain is a chain. */
  lemma {:induction false} LowRankedChain(st: seq<Stamp>, limit: int, window: real)
    requires Chain(st, window)
    ensures Chain(LowRanked(st, limit), window)
    ensures forall p | 0 <= p < |LowRanked(st, limit)| :: LowRanked(st, limit)[p].count <= limit
  {
    if st != [] {
      var k := |st| - 1;
      LowRankedChain(st[..k], limit, window);
      var front := LowRanked(st[..k], limit);
      forall p | 0 <= p < |front|
        ensures Follows(front[p], st[k], window)
      {
        var i := LowRankedFrom(st[..k], limit, p);
        assert Follows(st[i], st[k], window);
      }
    }
  }

  /** The times of the low-ranked hits. */
  function TimesOf(st: seq<Stamp>): seq<real> {
    if st == [] then [] else TimesOf(st[..|st| - 1]) + [st[|st| - 1].time]
  }

  lemma {:induction false} TimesOfAt(st: seq<Stamp>)
    ensures |TimesOf(st)| == |st| && forall p | 0 <= p < |st| :: TimesOf(st)[p] == st[p].time
  {
    if st != [] {
      TimesOfAt(st[..|st| - 1]);
    }
  }

  lemma TimesOfAppend(st: seq<Stamp>, s: Stamp)
    ensures TimesOf(st + [s]) == TimesOf(st) + [s.time]
  {
    assert (st + [s])[..|st|] == st;
  }

  lemma AdmittedLast(ops: seq<Timed>, t: Timed, key: Key, w: real, limit: int)
    ensures AdmittedOn(ops + [t], key, w, limit)
            == if LetThrough(Run(ops), t, key, w, limit) then AdmittedOn(ops, key, w, limit) + [t.time]
               else AdmittedOn(ops, key, w, limit)
  {
    assert (ops + [t])[..|ops|] == ops;
  }

  lemma HitsLast(ops: seq<Timed>, t: Timed, key: Key, w: real)
    ensures Hits(ops + [t], key, w)
            == if t.op == IncrOp(key, w) then Hits(ops, key, w) + [t.time] else Hits(ops, key, w)
  {
    assert (ops + [t])[..|ops|] == ops;
  }

  /** The times of the hits whose rank is within the limit. */
  function LowTimes(times: seq<real>, w: real, limit: int): seq<real> {
    TimesOf(LowRanked(Stamps(times, w), limit))
  }

  lemma LowTimesAppend(times: seq<real>, t: real, w: real, limit: int)
    ensures LowTimes(times + [t], w, limit)
            == if Next(Stamps(times, w), t, w).count <= limit then LowTimes(times, w, limit) + [t]
               else LowTimes(times, w, limit)
  {
    var next := Next(Stamps(times, w), t, w);
    StampsAppend(times, t, w);
    LowRankedAppend(Stamps(times, w), next, limit);
    if next.count <= limit {
      TimesOfAppend(LowRanked(Stamps(times, w), limit), next);
    } else {
      assert LowRanked(Stamps(times, w), limit) + [] == LowRanked(Stamps(times, w), limit);
    }
  }

  lemma {:induction false} AdmittedAreLowRanks(ops: seq<Timed>, key: Key, w: real, limit: int)
    requires InTimeOrder(ops) && IsCounter(ops, key, w)
    ensures AdmittedOn(ops, key, w, limit) == LowTimes(Hits(ops, key, w), w, limit)
  {
    if ops != [] {
      var front, last := ops[..|ops| - 1], ops[|ops| - 1];
      AdmittedAreLowRanks(front, key, w, limit);
      assert front + [last] == ops;
      AdmittedLast(front, last, key, w, limit);
      HitsLast(front, last, key, w);
      if last.op == IncrOp(key, w) {
        IncrementReturnsRank(front, key, w, last.time);
        LowTimesAppend(Hits(front, key, w), last.time, w, limit);
      }
    }
  }

  /** A request joins those admitted exactly when the check lets it through. */
  lemma AdmittedIffVerdict(ops: seq<Timed>, rule: Rule, client: string, now: real)
    ensures Admitted(ops + [Request(rule, client, now)], rule, client)
            == if Verdict(Run(ops), rule, client, now) == Some(true) then Admitted(ops, rule, client) + [now]
               else Admitted(ops, rule, client)
  {
    AdmittedLast(ops, Request(rule, client, now), BucketKey(rule, client), rule.windowS as real, rule.limit);
  }

  /** Where the admitted requests stand in their windows. */
  lemma AdmittedRanks(ops: seq<Timed>, rule: Rule, client: string) returns (st: seq<Stamp>)
    requires InTimeOrder(ops) && IsCounter(ops, BucketKey(rule, client), rule.windowS as real)
    ensures |st| == |Admitted(ops, rule, client)| && Chain(st, rule.windowS as real)
    ensures forall i | 0 <= i < |st| :: st[i].time == Admitted(ops, rule, client)[i] && st[i].count <= rule.limit
  {
    var w := rule.windowS as real;
    var hits := Hits(ops, BucketKey(rule, client), w);
    HitsInOrder(ops, BucketKey(rule, client), w);
    StampsChain(hits, w);
    LowRankedChain(Stamps(hits, w), rule.limit, w);
    AdmittedAreLowRanks(ops, BucketKey(rule, client), w, rule.limit);
    st := LowRanked(Stamps(hits, w), rule.limit);
    TimesOfAt(st);
  }

  /**
   Over any run of the shared store: any stretch of time no longer than the window holds
   at most 2 * limit - 1 admitted requests of one client.
   */
  lemma SlidingWindowBound(ops: seq<Timed>, rule: Rule, client: string, i: nat, j: nat)
    requires InTimeOrder(ops) && IsCounter(ops, BucketKey(rule, client), rule.windowS as real)
    requires i <= j < |Admitted(ops, rule, client)|
    requires Admitted(ops, rule, client)[j] - Admitted(ops, rule, client)[i] <= rule.windowS as real
    ensures j - i + 1 <= 2 * rule.limit - 1
    ensures rule.windowS == 0 ==> j - i + 1 <= rule.limit
  {
    var st := AdmittedRanks(ops, rule, client);
    assert Placed(st[i], rule.windowS as real) && Placed(st[j], rule.windowS as real);
    assert i < j ==> Follows(st[i], st[j], rule.windowS as real);
    IntervalBound(st, rule.windowS as real, rule.limit, i, j);
  }

  /** A client's first `limit` requests of a window are let through and the rest are not. */
  lemma AdmittedIffLowRank(ops: seq<Timed>, rule: Rule, client: string, now: real)
    requires InTimeOrder(ops) && IsCounter(ops, BucketKey(rule, client), rule.windowS as real)
    requires ops != [] ==> ops[|ops| - 1].time <= now
    ensures var w := rule.windowS as real;
            var next := Next(Stamps(Hits(ops, BucketKey(rule, client), w), w), now, w);
            Verdict(Run(ops), rule, client, now) == Some(next.count <= rule.limit)
  {
    IncrementReturnsRank(ops, BucketKey(rule, client), rule.windowS as real, now);
  }

  // ------------------------------------------------ limits in sliding windows

  /** Requests of one client at the given times. */
  function Requests(rule: Rule, client: string, times: seq<real>): (ops: seq<Timed>)
    ensures |ops| == |times| && forall i | 0 <= i < |ops| :: ops[i] == Request(rule, client, times[i])
  {
    seq(|times|, i requires 0 <= i < |times| => Request(rule, client, times[i]))
  }

  lemma {:induction false} RequestHits(rule: Rule, client: string, times: seq<real>)
    ensures Hits(Requests(rule, client, times), BucketKey(rule, client), rule.windowS as real) == times
  {
    if times != [] {
      var k := |times| - 1;
      RequestHits(rule, client, times[..k]);
      assert Requests(rule, client, times)[..k] == Requests(rule, client, times[..k]);
      assert times[..k] + [times[k]] == times;
    }
  }

  lemma {:induction false} AllLow(times: seq<real>, w: real, limit: int)
    requires forall i | 0 <= i < |times| :: Stamps(times, w)[i].count <= limit
    ensures LowTimes(times, w, limit) == times
  {
    if times != [] {
      var k := |times| - 1;
      assert times[..k] + [times[k]] == times;
      StampsAppend(times[..k], times[k], w);
      LowTimesAppend(times[..k], times[k], w, limit);
      forall i | 0 <= i < k ensures Stamps(times[..k], w)[i].count <= limit {
        assert Stamps(times, w)[i] == Stamps(times[..k], w)[i];
      }
      AllLow(times[..k], w, limit);
    }
  }

  lemma RequestsAdmitted(rule: Rule, client: string, times: seq<real>)
    requires NonDecreasing(times)
    ensures var ops := Requests(rule, client, times);
            && InTimeOrder(ops) && IsCounter(ops, BucketKey(rule, client), rule.windowS as real)
            && Admitted(ops, rule, client) == LowTimes(times, rule.windowS as real, rule.limit)
  {
    var ops := Requests(rule, client, times);
    assert InTimeOrder(ops);
    RequestHits(rule, client, times);
    AdmittedAreLowRanks(ops, BucketKey(rule, client), rule.windowS as real, rule.limit);
  }

  /** A run in which 2 * limit - 1 requests within half a window are all let through. */
  lemma BurstIsAdmitted(rule: Rule, client: string) returns (ops: seq<Timed>)
    requires rule.limit >= 1 && rule.windowS > 0
    ensures InTimeOrder(ops) && IsCounter(ops, BucketKey(rule, client), rule.windowS as real)
    ensures var a := Admitted(ops, rule, client);
            |a| == 2 * rule.limit && a[|a| - 1] - a[1] <= rule.windowS as real
  {
    var w, times := rule.windowS as real, Burst(rule.limit, rule.windowS as real);
    ops := Requests(rule, client, times);
    BoundIsAttained(rule.limit, w);
    assert Stamps(times, w)[2 * rule.limit - 1].time == times[2 * rule.limit - 1];
    assert Stamps(times, w)[1].time == times[1];
    BurstRanks(rule.limit, w);
    RequestsAdmitted(rule, client, times);
    AllLow(times, w, rule.limit);
  }

  lemma BurstRanks(limit: nat, window: real)
    requires limit >= 1 && window > 0.0
    ensures forall i | 0 <= i < 2 * limit :: Stamps(Burst(limit, window), window)[i].count <= limit
  {
    BoundIsAttained(limit, window);
    BurstStamps(limit, window, 2 * limit);
    assert Burst(limit, window)[..2 * limit] == Burst(limit, window);
  }

  /** In every run, any stretch no longer than the window admits at most limit requests. */
  ghost predicate LimitInEveryStretch(rule: Rule, client: string) {
    forall ops: seq<Timed>, i: nat, j: nat |
      && InTimeOrder(ops) && IsCounter(ops, BucketKey(rule, client), rule.windowS as real)
      && i <= j < |Admitted(ops, rule, client)|
      && Admitted(ops, rule, client)[j] - Admitted(ops, rule, client)[i] <= rule.windowS as real ::
      j - i + 1 <= rule.limit
  }

  /** "limit requests per window" holds of sliding windows exactly when the limit is one, or the window nothing. */
  lemma LimitInEveryStretchIff(rule: Rule, client: string)
    ensures LimitInEveryStretch(rule, client) <==> rule.limit <= 1 || rule.windowS == 0
  {
    if rule.limit <= 1 || rule.windowS == 0 {
      forall ops: seq<Timed>, i: nat, j: nat |
        && InTimeOrder(ops) && IsCounter(ops, BucketKey(rule, client), rule.windowS as real)
        && i <= j < |Admitted(ops, rule, client)|
        && Admitted(ops, rule, client)[j] - Admitted(ops, rule, client)[i] <= rule.windowS as real
        ensures j - i + 1 <= rule.limit
      {
        SlidingWindowBound(ops, rule, client, i, j);
      }
    } else {
      var ops := BurstIsAdmitted(rule, client);
      var n := |Admitted(ops, rule, client)|;
      assert n - 1 - 1 + 1 > rule.limit;
    }
  }

  /** Any hour holds at most n admitted requests, from the i-th to the j-th. */
  ghost predicate HourHolds(ops: seq<Timed>, rule: Rule, client: string, i: nat, j: nat, n: int) {
    IsCounter(ops, BucketKey(rule, client), 3600.0) && i <= j < |Admitted(ops, rule, client)|
    && Admitted(ops, rule, client)[j] - Admitted(ops, rule, client)[i] <= 3600.0
    ==> j - i + 1 <= n
  }

  /** The two limits in use: at most 19 registrations and 119 searches in any hour. */
  lemma PublishedBounds(ops: seq<Timed>, client: string, i: nat, j: nat)
    requires InTimeOrder(ops)
    ensures HourHolds(ops, REGISTRATION_LIMIT, client, i, j, 19)
    ensures HourHolds(ops, SEARCH_LIMIT, client, i, j, 119)
  {
    HourlyLimit(ops, REGISTRATION_LIMIT, client, i, j);
    HourlyLimit(ops, SEARCH_LIMIT, client, i, j);
  }

  lemma HourlyLimit(ops: seq<Timed>, rule: Rule, client: string, i: nat, j: nat)
    requires InTimeOrder(ops) && rule.windowS == 3600
    ensures HourHolds(ops, rule, client, i, j, 2 * rule.limit - 1)
  {
    if IsCounter(ops, BucketKey(rule, client), 3600.0) && i <= j < |Admitted(ops, rule, client)|
       && Admitted(ops, rule, client)[j] - Admitted(ops, rule, client)[i] <= 3600.0
    {
      SlidingWindowBound(ops, rule, client, i, j);
    }
  }

  // ------------------------------------------------------- who is the client

  function IsComma(c: char): bool { c == ',' }

  /** The stripped, non-empty entries of an `X-Forwarded-For` header. */
  function Entries(header: string): seq<string> {
    NonEmpty(MapAll(Split(header, IsComma), Strip))
  }

  /** The entry hops places from the end of a chain, or its first. */
  function FromEnd(socketIp: string, hops: nat, chain: seq<string>): string
    requires hops >= 1
  {
    if chain == [] then socketIp
    else
      var index := if |chain| - hops < 0 then 0 else |chain| - hops;
      chain[index]
  }

  /** The caller's address, believing the header only as far as our own proxies wrote it. */
  function ClientIp(socketIp: string, hops: int, forwarded: Option<string>): string {
    if hops <= 0 || forwarded.None? || forwarded.value == [] then socketIp
    else FromEnd(socketIp, hops, Entries(forwarded.value))
  }

  lemma FrontIgnored(socketIp: string, hops: nat, front: seq<string>, back: seq<string>)
    requires 1 <= hops <= |back|
    ensures FromEnd(socketIp, hops, front + back) == back[|back| - hops]
  {
  }

  lemma EntriesConcat(x: string, y: string)
    ensures Entries(x + [','] + y) == Entries(x) + Entries(y)
  {
    SplitConcat(x, ',', y, IsComma);
    MapAllAppend(Split(x, IsComma), Split(y, IsComma), Strip);
    NonEmptyAppend(MapAll(Split(x, IsComma), Strip), MapAll(Split(y, IsComma), Strip));
  }

  /**
   What a caller writes into the header cannot change who they are taken for: with at
   least `hops` entries appended by trusted proxies, the address is one of those.
   */
  lemma ForgedHeaderIgnored(socketIp: string, hops: nat, forged: string, trusted: string)
    requires 1 <= hops <= |Entries(trusted)|
    ensures ClientIp(socketIp, hops, Some(forged + [','] + trusted))
            == Entries(trusted)[|Entries(trusted)| - hops]
  {
    EntriesConcat(forged, trusted);
    FrontIgnored(socketIp, hops, Entries(forged), Entries(trusted));
  }

  /** An entry between two commas counts stripped, unless nothing is left of it. */
  lemma EntriesOfOne(part: string)
    requires ',' !in part
    ensures Entries(part) == if Strip(part) == "" then [] else [Strip(part)]
  {
    RunUntil(part, [], IsComma);
    assert part + [] == part;
    assert Split(part, IsComma) == [part] && [part][1..] == [];
    assert MapAll([part], Strip) == [Strip(part)];
    NonEmptyCons(Strip(part), []);
  }

  /** Without trusted proxies or entries, the socket's address; else the entry so far from the end, or the first. */
  lemma ClientIpIs(socketIp: string, hops: int, forwarded: Option<string>)
    ensures var entries := if forwarded.Some? then Entries(forwarded.value) else [];
            var ip := ClientIp(socketIp, hops, forwarded);
            if hops <= 0 || entries == [] then ip == socketIp
            else ip == if hops <= |entries| then entries[|entries| - hops] else entries[0]
  {
    EntriesOfOne("");
  }
}
