/**
 The courtesy limiter of app/services/opendata.py: an in-process interval, then a
 fleet-wide slot that workers race for in the shared store. A worker reads the clock to
 name a slot and increments that slot's counter a little later; `lag` bounds how much.
 */
module SlotLimiter {
  import opened Wrappers
  import opened Windows
  import opened TtlStore

  const SHARED_SLOT_MAX_WAIT_S: real := 5.0

  /** `int(reading / interval)`, for a clock that is not negative. */
  function SlotOf(reading: real, interval: real): int
    requires interval > 0.0
  {
    (reading / interval).Floor
  }

  /** `max(2, int(interval * 2) + 1)`. */
  function SlotTtl(interval: real): real {
    var twice := (interval * 2.0).Floor + 1;
    if twice < 2 then 2.0 else twice as real
  }

  /** The counter outlives its slot by more than another interval. */
  lemma TtlOutlivesSlot(interval: real)
    requires interval > 0.0
    ensures SlotTtl(interval) > interval + interval
  {
  }

  /** It is the least whole number of seconds above twice the interval, but at least two. */
  lemma TtlIs(interval: real, n: int)
    requires interval > 0.0
    ensures SlotTtl(interval).Floor as real == SlotTtl(interval)
    ensures SlotTtl(interval) <= n as real <==> n >= 2 && n as real > interval * 2.0
  {
    var m := (interval * 2.0).Floor + 1;
    AboveFloor(interval * 2.0, n);
    NumbersCompare(m, n);
    assert SlotTtl(interval) == (if m < 2 then 2 else m) as real;
  }

  lemma AboveFloor(x: real, n: int)
    ensures n as real > x <==> n >= x.Floor + 1
  {
  }

  lemma NumbersCompare(m: int, n: int)
    ensures m as real <= n as real <==> m <= n
  {
  }

  function ClaimKey(name: string, reading: real, interval: real): Key
    requires interval > 0.0
  {
    Slot(name, SlotOf(reading, interval))
  }

  /** The answer to a claim: a store that fails never blocks the caller. */
  function Wins(data: Data, key: Key, now: real): bool {
    match Incremented(data, key, now)
    case None => true
    case Some(used) => used <= 1
  }

  /** A claim is lost exactly when the counter already shows a number above zero. */
  lemma LostIff(data: Data, key: Key, now: real)
    ensures !Wins(data, key, now)
            <==> key in data && now <= data[key].expires && data[key].value.Count? && data[key].value.n > 0
  {
  }

  function AfterClaim(data: Data, key: Key, interval: real, now: real): Data {
    AfterIncr(data, key, SlotTtl(interval), now)
  }

  // ----------------------------------------------------------- the limiter

  class AsyncRateLimiter {
    const minInterval: real
    const sharedKey: Option<string>
    var nextAllowed: real

    constructor (interval: real, key: Option<string>)
      ensures minInterval == interval && sharedKey == key && nextAllowed == 0.0
    {
      minInterval, sharedKey, nextAllowed := interval, key, 0.0;
    }

    /** The clock is read for the slot's number, and again by the store. */
    method ClaimSharedSlot(store: MemoryStore, reading: real, now: real) returns (won: bool)
      requires minInterval > 0.0
      modifies store
      ensures sharedKey.None? ==> won && store.data == old(store.data)
      ensures sharedKey.Some? ==>
                var key := ClaimKey(sharedKey.value, reading, minInterval);
                && won == Wins(old(store.data), key, now)
                && store.data == AfterClaim(old(store.data), key, minInterval, now)
    {
      if sharedKey.None? {
        return true;
      }
      var used := store.Incr(ClaimKey(sharedKey.value, reading, minInterval), SlotTtl(minInterval), now);
      match used
      case None => won := true;
      case Some(n) => won := n <= 1;
    }

    /** The locked section; a sleep may last longer than asked for, but not less long. */
    method PassLock(entered: real, overshoot: real) returns (left: real)
      modifies this
      ensures left == Leaves(old(nextAllowed), entered, overshoot)
      ensures nextAllowed == left + minInterval
    {
      left := entered;
      var wait := nextAllowed - left;
      if wait > 0.0 {
        left := left + wait;
      }
      left := left + overshoot;
      nextAllowed := left + minInterval;
    }

    /**
     The wait for a slot: claim, give up after the deadline, sleep a quarter interval.
     times gives the clock around the k-th claim, others what the rest of the fleet does
     in the store between the k-th claim and the next.
     */
    method WaitForSlot(store: MemoryStore, start: real, times: nat -> Try, others: nat -> seq<Timed>)
      returns (granted: bool, claims: nat)
      requires minInterval > 0.0 && sharedKey.Some?
      requires Paced(start, times, minInterval / 4.0)
      modifies store
      ensures Waited(old(store.data), store.data, Waiter(sharedKey.value, minInterval, times, others), granted, claims)
      ensures claims <= MaxClaims(minInterval)
      ensures forall k: nat | k < claims - 1 :: times(k).checked <= start + 5.0
      ensures !granted ==> times(claims - 1).checked > start + 5.0
    {
      ghost var w := Waiter(sharedKey.value, minInterval, times, others);
      var deadline := start + SHARED_SLOT_MAX_WAIT_S;
      granted := ClaimSharedSlot(store, times(0).read, times(0).claimed);
      claims := 1;
      while !granted
        invariant Waited(old(store.data), store.data, w, granted, claims)
        invariant claims <= MaxClaims(minInterval)
        invariant CheckedBy(times, claims - 1, deadline)
        decreases MaxClaims(minInterval) - claims, !granted
      {
        if times(claims - 1).checked > deadline {
          return;
        }
        ClaimsInTime(start, times, minInterval, claims - 1);
        WaitedGrows(old(store.data), store.data, w, claims);
        Serve(store, others(claims - 1));
        granted := ClaimSharedSlot(store, times(claims).read, times(claims).claimed);
        claims := claims + 1;
      }
    }
  }

  /** The checks before the n-th claim found the deadline not past. */
  ghost predicate CheckedBy(times: nat -> Try, n: int, deadline: real) {
    forall k: nat | k < n :: times(k).checked <= deadline
  }

  /** What other workers do in the store meanwhile. */
  method Serve(store: MemoryStore, ops: seq<Timed>)
    modifies store
    ensures store.data == ApplyAll(old(store.data), ops)
  {
    for i := 0 to |ops|
      invariant store.data == ApplyAll(old(store.data), ops[..i])
    {
      var t := ops[i];
      match t.op {
        case GetOp(k) => var _ := store.Get(k, t.time);
        case SetOp(k, v, ttl) => store.Set(k, v, ttl, t.time);
        case DeleteOp(k) => store.Delete(k);
        case IncrOp(k, ttl) => var _ := store.Incr(k, ttl, t.time);
      }
      assert ops[..i + 1][..i] == ops[..i];
    }
    assert ops[..|ops|] == ops;
  }

  function ApplyAll(data: Data, ops: seq<Timed>): Data {
    if ops == [] then data else Apply(ApplyAll(data, ops[..|ops| - 1]), ops[|ops| - 1])
  }

  /** When the clock was read for a claim, the claim reached the store, and the deadline was checked. */
  datatype Try = Try(read: real, claimed: real, checked: real)

  datatype Waiter = Waiter(name: string, interval: real, times: nat -> Try, others: nat -> seq<Timed>)

  /** The most claims a waiter makes before giving up. */
  function MaxClaims(interval: real): (n: int)
    requires interval > 0.0
    ensures n >= 2
  {
    (20.0 / interval).Floor + 2
  }

  function KeyAt(w: Waiter, k: nat): Key
    requires w.interval > 0.0
  {
    ClaimKey(w.name, w.times(k).read, w.interval)
  }

  /** The store the k-th claim finds. */
  function Seen(before: Data, w: Waiter, k: nat): Data
    requires w.interval > 0.0
    decreases k, 0
  {
    if k == 0 then before else ApplyAll(AfterTry(before, w, k - 1), w.others(k - 1))
  }

  /** The store the k-th claim leaves. */
  function AfterTry(before: Data, w: Waiter, k: nat): Data
    requires w.interval > 0.0
    decreases k, 1
  {
    AfterClaim(Seen(before, w, k), KeyAt(w, k), w.interval, w.times(k).claimed)
  }

  function WinsAt(before: Data, w: Waiter, k: nat): bool
    requires w.interval > 0.0
  {
    Wins(Seen(before, w, k), KeyAt(w, k), w.times(k).claimed)
  }

  /** All claims but the last were lost, and the last decided. */
  ghost predicate Waited(before: Data, after: Data, w: Waiter, granted: bool, claims: nat)
    requires w.interval > 0.0
  {
    && claims >= 1
    && after == AfterTry(before, w, claims - 1)
    && (forall k: nat | k < claims - 1 :: !WinsAt(before, w, k))
    && granted == WinsAt(before, w, claims - 1)
  }

  lemma WaitedGrows(before: Data, after: Data, w: Waiter, claims: nat)
    requires w.interval > 0.0 && Waited(before, after, w, false, claims)
    ensures var seen := ApplyAll(after, w.others(claims - 1));
            Waited(before, AfterClaim(seen, KeyAt(w, claims), w.interval, w.times(claims).claimed), w,
                   Wins(seen, KeyAt(w, claims), w.times(claims).claimed), claims + 1)
  {
  }

  /** The clock never runs back, and each claim follows a sleep of a quarter interval. */
  ghost predicate Paced(start: real, times: nat -> Try, quarter: real) {
    times(0).read >= start && forall k: nat :: PacedAt(times, quarter, k)
  }

  predicate PacedAt(times: nat -> Try, quarter: real, k: nat) {
    times(k).read <= times(k).claimed <= times(k).checked && times(k + 1).read >= times(k).checked + quarter
  }

  lemma {:induction false} ClaimsAreSpaced(start: real, times: nat -> Try, quarter: real, k: nat)
    requires Paced(start, times, quarter)
    ensures times(k).read >= start + Intervals(k, quarter)
  {
    if k > 0 {
      ClaimsAreSpaced(start, times, quarter, k - 1);
      assert PacedAt(times, quarter, k - 1);
    }
  }

  /** A check within the deadline bounds how many claims were made. */
  lemma ClaimsInTime(start: real, times: nat -> Try, interval: real, k: nat)
    requires interval > 0.0 && Paced(start, times, interval / 4.0)
    requires times(k).checked <= start + SHARED_SLOT_MAX_WAIT_S
    ensures k + 2 <= MaxClaims(interval)
  {
    ClaimsAreSpaced(start, times, interval / 4.0, k);
    assert PacedAt(times, interval / 4.0, k);
    IntervalsIs(k, interval / 4.0);
    FloorBound(k, interval);
  }

  lemma FloorBound(k: nat, interval: real)
    requires interval > 0.0 && k as real * (interval / 4.0) <= 5.0
    ensures k <= (20.0 / interval).Floor
  {
    var q, x := 20.0 / interval, k as real;
    assert q * interval == 20.0;
    assert x * (interval / 4.0) * 4.0 == x * interval;
    if q < x {
      ScaleStrict(q, x, interval);
    }
  }

  /** So many claims are made at most as leave, but for two, a quarter interval each within five seconds. */
  lemma MaxClaimsIs(interval: real, n: int)
    requires interval > 0.0
    ensures n <= MaxClaims(interval) <==> (n - 2) as real * (interval / 4.0) <= 5.0
  {
    QuarterFits((n - 2) as real, interval, 20.0 / interval);
    BelowFloor(20.0 / interval, n - 2);
  }

  lemma QuarterFits(m: real, interval: real, q: real)
    requires interval > 0.0 && q == 20.0 / interval
    ensures m <= q <==> m * (interval / 4.0) <= 5.0
  {
    assert q * interval == 20.0;
    if m <= q {
      assert (q - m) * interval >= 0.0;
    } else {
      assert (m - q) * interval > 0.0;
    }
  }

  lemma BelowFloor(x: real, m: int)
    ensures m <= x.Floor <==> m as real <= x
  {
  }

  /** The length of k intervals. */
  function Intervals(k: int, interval: real): real
    decreases if k < 0 then -k else k
  {
    if k == 0 then 0.0
    else if k > 0 then Intervals(k - 1, interval) + interval
    else Intervals(k + 1, interval) - interval
  }

  lemma {:induction false} IntervalsIs(k: int, interval: real)
    ensures Intervals(k, interval) == k as real * interval
    decreases if k < 0 then -k else k
  {
    if k > 0 {
      IntervalsIs(k - 1, interval);
    } else if k < 0 {
      IntervalsIs(k + 1, interval);
    }
  }

  lemma {:induction false} IntervalsAdd(a: int, d: int, interval: real)
    ensures Intervals(a + d, interval) == Intervals(a, interval) + Intervals(d, interval)
    decreases if d < 0 then -d else d
  {
    if d > 0 {
      IntervalsAdd(a, d - 1, interval);
    } else if d < 0 {
      IntervalsAdd(a, d + 1, interval);
    }
  }

  lemma {:induction false} IntervalsSign(k: int, interval: real)
    requires interval > 0.0
    ensures Intervals(k, interval) >= 0.0 <==> k >= 0
    ensures Intervals(k, interval) > 0.0 <==> k > 0
    decreases if k < 0 then -k else k
  {
    if k > 0 {
      IntervalsSign(k - 1, interval);
    } else if k < 0 {
      IntervalsSign(k + 1, interval);
    }
  }

  // ----------------------------------------------------- successive callers

  /** When a caller who enters leaves, if the section is ready at `ready`. */
  function Leaves(ready: real, entered: real, overshoot: real): real {
    (if ready > entered then ready else entered) + overshoot
  }

  datatype Pass = Pass(entered: real, overshoot: real)

  /** When successive callers leave. */
  function Exits(ready: real, interval: real, passes: seq<Pass>): (exits: seq<real>)
    ensures |exits| == |passes|
    decreases |passes|
  {
    if passes == [] then []
    else
      var left := Leaves(ready, passes[0].entered, passes[0].overshoot);
      [left] + Exits(left + interval, interval, passes[1..])
  }

  /** Each leaves on entering or once the section is ready, whichever is later, but for oversleeping. */
  lemma {:induction false} ExitsAre(ready: real, interval: real, passes: seq<Pass>, j: nat)
    requires j < |passes|
    ensures var exits := Exits(ready, interval, passes);
            var free := if j == 0 then ready else exits[j - 1] + interval;
            exits[j] == (if free > passes[j].entered then free else passes[j].entered) + passes[j].overshoot
    decreases j
  {
    if j > 0 {
      ExitsAre(Leaves(ready, passes[0].entered, passes[0].overshoot) + interval, interval, passes[1..], j - 1);
    }
  }

  lemma {:induction false} ExitsAfter(ready: real, interval: real, passes: seq<Pass>, j: nat)
    requires interval >= 0.0 && j < |passes| && forall p | p in passes :: p.overshoot >= 0.0
    ensures Exits(ready, interval, passes)[j] >= ready + Intervals(j, interval)
    ensures Exits(ready, interval, passes)[j] >= passes[j].entered
    decreases j
  {
    assert passes[0] in passes;
    if j > 0 {
      var left := Leaves(ready, passes[0].entered, passes[0].overshoot);
      ExitsAfter(left + interval, interval, passes[1..], j - 1);
    }
  }

  /** Callers leave the locked section at least one interval apart. */
  lemma {:induction false} ExitsAreSpaced(ready: real, interval: real, passes: seq<Pass>, i: nat, k: nat)
    requires interval >= 0.0 && i + k < |passes| && forall p | p in passes :: p.overshoot >= 0.0
    ensures var exits := Exits(ready, interval, passes);
            exits[i + k] >= exits[i] + Intervals(k, interval)
    decreases i
  {
    var left := Leaves(ready, passes[0].entered, passes[0].overshoot);
    if i > 0 {
      ExitsAreSpaced(left + interval, interval, passes[1..], i - 1, k);
    } else if k > 0 {
      ExitsAfter(left + interval, interval, passes[1..], k - 1);
    }
  }

  // ---------------------------------------------------------- the whole fleet

  /** The slot was named from a reading of the clock at most lag before. */
  predicate ReadFor(reading: real, time: real, n: int, interval: real, lag: real)
    requires interval > 0.0
  {
    SlotOf(reading, interval) == n && reading <= time <= reading + lag
  }

  ghost predicate Timely(time: real, n: int, interval: real, lag: real)
    requires interval > 0.0
  {
    exists reading: real :: ReadFor(reading, time, n, interval, lag)
  }

  /** Slot keys of this name are only ever claimed, each from a recent reading of the clock. */
  ghost predicate SlotDiscipline(ops: seq<Timed>, name: string, interval: real, lag: real)
    requires interval > 0.0
  {
    forall i | 0 <= i < |ops| && ops[i].op.key.Slot? && ops[i].op.key.name == name ::
      ops[i].op == IncrOp(ops[i].op.key, SlotTtl(interval))
      && Timely(ops[i].time, ops[i].op.key.number, interval, lag)
  }

  lemma SlotBounds(t: real, interval: real)
    requires interval > 0.0
    ensures Intervals(SlotOf(t, interval), interval) <= t < Intervals(SlotOf(t, interval), interval) + interval
  {
    var n := SlotOf(t, interval);
    QuotientBetween(t, interval, n as real, (n + 1) as real);
    IntervalsIs(n, interval);
    IntervalsIs(n + 1, interval);
    IntervalsAdd(n, 1, interval);
  }

  lemma QuotientBetween(t: real, k: real, lo: real, hi: real)
    requires k > 0.0 && lo <= t / k < hi
    ensures lo * k <= t < hi * k
  {
    var q := t / k;
    assert q * k == t;
    Scale(lo, q, k);
    ScaleStrict(q, hi, k);
  }

  lemma Scale(x: real, y: real, k: real)
    requires k > 0.0 && x <= y
    ensures x * k <= y * k
  {
  }

  lemma ScaleStrict(x: real, y: real, k: real)
    requires k > 0.0 && x < y
    ensures x * k < y * k
  {
  }

  lemma SlotIs(t: real, interval: real, n: int)
    requires interval > 0.0 && Intervals(n, interval) <= t < Intervals(n, interval) + interval
    ensures SlotOf(t, interval) == n
  {
    SlotBounds(t, interval);
    if SlotOf(t, interval) > n {
      StartsApart(n, SlotOf(t, interval), 1, interval);
    } else if SlotOf(t, interval) < n {
      StartsApart(SlotOf(t, interval), n, 1, interval);
    }
  }

  /** A claim on a slot falls in the slot or at most lag behind it. */
  lemma Reach(time: real, n: int, interval: real, lag: real)
    requires interval > 0.0 && Timely(time, n, interval, lag)
    ensures Intervals(n, interval) <= time < Intervals(n, interval) + interval + lag
  {
    var reading: real :| ReadFor(reading, time, n, interval, lag);
    SlotBounds(reading, interval);
  }

  /** Conversely every such moment is one at which the slot may be claimed. */
  lemma Reachable(time: real, n: int, interval: real, lag: real)
    requires interval > 0.0 && lag >= 0.0
    requires Intervals(n, interval) <= time < Intervals(n, interval) + interval + lag
    ensures Timely(time, n, interval, lag)
  {
    var begin := Intervals(n, interval);
    var reading := if time - lag > begin then time - lag else begin;
    SlotIs(reading, interval, n);
    assert ReadFor(reading, time, n, interval, lag);
  }

  /** Hits closer together than the window are all in one window. */
  lemma {:induction false} OneWindow(times: seq<real>, window: real)
    requires forall i, j | 0 <= i < |times| && 0 <= j < |times| :: times[j] - times[i] <= window
    ensures forall i | 0 <= i < |times| :: Stamps(times, window)[i].count == i + 1
    ensures times != [] ==> Stamps(times, window)[|times| - 1].start == times[0]
  {
    if times != [] {
      OneWindow(times[..|times| - 1], window);
    }
  }

  /** When the slot was claimed so far. */
  function Claims(ops: seq<Timed>, name: string, interval: real, n: int): seq<real> {
    Hits(ops, Slot(name, n), SlotTtl(interval))
  }

  lemma {:induction false} ClaimsTimely(ops: seq<Timed>, name: string, interval: real, lag: real, n: int)
    requires interval > 0.0 && SlotDiscipline(ops, name, interval, lag)
    ensures forall i | 0 <= i < |Claims(ops, name, interval, n)| ::
              Timely(Claims(ops, name, interval, n)[i], n, interval, lag)
  {
    if ops != [] {
      var front, last := ops[..|ops| - 1], ops[|ops| - 1];
      ClaimsTimely(front, name, interval, lag, n);
      if last.op == IncrOp(Slot(name, n), SlotTtl(interval)) {
        assert Claims(ops, name, interval, n) == Claims(front, name, interval, n) + [last.time];
        assert Timely(last.time, last.op.key.number, interval, lag);
      } else {
        assert Claims(ops, name, interval, n) == Claims(front, name, interval, n);
      }
    }
  }

  lemma SlotIsCounter(ops: seq<Timed>, name: string, interval: real, lag: real, n: int)
    requires interval > 0.0 && SlotDiscipline(ops, name, interval, lag)
    ensures IsCounter(ops, Slot(name, n), SlotTtl(interval))
  {
  }

  /** The next claim on a slot is ranked after all earlier ones. */
  lemma RankOfClaim(times: seq<real>, now: real, n: int, interval: real, lag: real)
    requires interval > 0.0 && interval + lag <= SlotTtl(interval) && Timely(now, n, interval, lag)
    requires forall i | 0 <= i < |times| :: Timely(times[i], n, interval, lag)
    ensures Next(Stamps(times, SlotTtl(interval)), now, SlotTtl(interval)).count == |times| + 1
  {
    Reach(now, n, interval, lag);
    forall i | 0 <= i < |times|
      ensures Intervals(n, interval) <= times[i] < Intervals(n, interval) + interval + lag
    {
      Reach(times[i], n, interval, lag);
    }
    OneWindow(times, SlotTtl(interval));
  }

  /**
   Over every interleaving of the fleet on the shared store, with claims reaching it up to
   lag after the clock was read: a claim wins exactly when it is the first on its slot.
   */
  lemma FirstClaimWins(ops: seq<Timed>, name: string, interval: real, lag: real, n: int, now: real)
    requires interval > 0.0 && interval + lag <= SlotTtl(interval)
    requires InTimeOrder(ops) && SlotDiscipline(ops, name, interval, lag)
    requires (ops != [] ==> ops[|ops| - 1].time <= now) && Timely(now, n, interval, lag)
    ensures Wins(Run(ops), Slot(name, n), now) <==> Claims(ops, name, interval, n) == []
  {
    SlotIsCounter(ops, name, interval, lag, n);
    IncrementReturnsRank(ops, Slot(name, n), SlotTtl(interval), now);
    ClaimsTimely(ops, name, interval, lag, n);
    RankOfClaim(Claims(ops, name, interval, n), now, n, interval, lag);
  }

  // ----------------------------------------------------- a waiter in the fleet

  /** Everything done in the store before a waiter's k-th claim. */
  function Trace(w: Waiter, k: nat): seq<Timed>
    requires w.interval > 0.0
  {
    if k == 0 then []
    else
      Trace(w, k - 1)
      + [ClaimOf(w, k - 1)]
      + w.others(k - 1)
  }

  lemma {:induction false} RunThen(ops: seq<Timed>, more: seq<Timed>)
    ensures Run(ops + more) == ApplyAll(Run(ops), more)
  {
    if more == [] {
      assert ops + more == ops;
    } else {
      RunThen(ops, more[..|more| - 1]);
      assert (ops + more)[..|ops + more| - 1] == ops + more[..|more| - 1];
    }
  }

  lemma RunOne(ops: seq<Timed>, op: Timed)
    ensures Run(ops + [op]) == Apply(Run(ops), op)
  {
    assert (ops + [op])[..|ops|] == ops;
  }

  function ClaimOf(w: Waiter, k: nat): Timed
    requires w.interval > 0.0
  {
    Timed(w.times(k).claimed, IncrOp(KeyAt(w, k), SlotTtl(w.interval)))
  }

  lemma TryIsRun(ops: seq<Timed>, before: seq<Timed>, w: Waiter, k: nat)
    requires w.interval > 0.0 && Seen(Run(ops), w, k) == Run(before)
    ensures AfterTry(Run(ops), w, k) == Run(before + [ClaimOf(w, k)])
  {
    RunOne(before, ClaimOf(w, k));
  }

  lemma SeenStep(ops: seq<Timed>, before: seq<Timed>, w: Waiter, k: nat)
    requires w.interval > 0.0 && Seen(Run(ops), w, k) == Run(before)
    ensures Seen(Run(ops), w, k + 1) == Run(before + [ClaimOf(w, k)] + w.others(k))
  {
    TryIsRun(ops, before, w, k);
    RunThen(before + [ClaimOf(w, k)], w.others(k));
  }

  lemma TraceStep(ops: seq<Timed>, w: Waiter, k: nat)
    requires w.interval > 0.0
    ensures ops + Trace(w, k + 1) == ops + Trace(w, k) + [ClaimOf(w, k)] + w.others(k)
  {
  }

  lemma {:induction false} SeenIsRun(ops: seq<Timed>, w: Waiter, k: nat)
    requires w.interval > 0.0
    ensures Seen(Run(ops), w, k) == Run(ops + Trace(w, k))
  {
    if k == 0 {
      assert ops + [] == ops;
    } else {
      SeenIsRun(ops, w, k - 1);
      SeenStep(ops, ops + Trace(w, k - 1), w, k - 1);
      TraceStep(ops, w, k - 1);
    }
  }

  /** A waiter gets a slot exactly when nobody, itself included, had claimed that slot before. */
  lemma WaiterWinsIff(ops: seq<Timed>, w: Waiter, lag: real, k: nat)
    requires w.interval > 0.0 && w.interval + lag <= SlotTtl(w.interval)
    requires var all := ops + Trace(w, k);
             && InTimeOrder(all) && SlotDiscipline(all, w.name, w.interval, lag)
             && (all != [] ==> all[|all| - 1].time <= w.times(k).claimed)
    requires w.times(k).read <= w.times(k).claimed <= w.times(k).read + lag
    ensures WinsAt(Run(ops), w, k)
            <==> Claims(ops + Trace(w, k), w.name, w.interval, SlotOf(w.times(k).read, w.interval)) == []
  {
    var n := SlotOf(w.times(k).read, w.interval);
    SeenIsRun(ops, w, k);
    assert ReadFor(w.times(k).read, w.times(k).claimed, n, w.interval, lag);
    FirstClaimWins(ops + Trace(w, k), w.name, w.interval, lag, n, w.times(k).claimed);
  }

  // ------------------------------------------------------------------ the wins

  datatype Win = Win(slot: int, time: real)

  predicate IsClaim(t: Timed, name: string) {
    t.op.IncrOp? && t.op.key.Slot? && t.op.key.name == name
  }

  /** The claims under this name that won, in a run of the fleet. */
  function Won(ops: seq<Timed>, name: string): seq<Win> {
    if ops == [] then []
    else
      var front, last := ops[..|ops| - 1], ops[|ops| - 1];
      Won(front, name)
      + if IsClaim(last, name) && Wins(Run(front), last.op.key, last.time)
        then [Win(last.op.key.number, last.time)] else []
  }

  lemma {:induction false} WonAreClaims(ops: seq<Timed>, name: string, interval: real, lag: real, p: nat)
    requires interval > 0.0 && InTimeOrder(ops) && SlotDiscipline(ops, name, interval, lag) && p < |Won(ops, name)|
    ensures var w := Won(ops, name)[p];
            && w.time in Claims(ops, name, interval, w.slot) && w.time <= ops[|ops| - 1].time
            && Timely(w.time, w.slot, interval, lag)
  {
    var front := ops[..|ops| - 1];
    if p < |Won(front, name)| {
      WonAreClaims(front, name, interval, lag, p);
    }
  }

  lemma {:induction false} WonInOrder(ops: seq<Timed>, name: string, interval: real, lag: real, i: nat, j: nat)
    requires interval > 0.0 && InTimeOrder(ops) && SlotDiscipline(ops, name, interval, lag) && i <= j < |Won(ops, name)|
    ensures Won(ops, name)[i].time <= Won(ops, name)[j].time
  {
    var front := ops[..|ops| - 1];
    if j < |Won(front, name)| {
      WonInOrder(front, name, interval, lag, i, j);
    } else if i < j {
      WonAreClaims(front, name, interval, lag, i);
    }
  }

  /** No slot has two winners. */
  lemma {:induction false} WinnersInDifferentSlots(ops: seq<Timed>, name: string, interval: real, lag: real, i: nat,
                                                   j: nat)
    requires interval > 0.0 && interval + lag <= SlotTtl(interval)
    requires InTimeOrder(ops) && SlotDiscipline(ops, name, interval, lag)
    requires i < j < |Won(ops, name)|
    ensures Won(ops, name)[i].slot != Won(ops, name)[j].slot
  {
    var front, last := ops[..|ops| - 1], ops[|ops| - 1];
    if j < |Won(front, name)| {
      WinnersInDifferentSlots(front, name, interval, lag, i, j);
    } else {
      WonAreClaims(front, name, interval, lag, i);
      FirstClaimWins(front, name, interval, lag, last.op.key.number, last.time);
    }
  }

  // ----------------------------------------------------- how close wins can be

  /** So many different numbers do not fit in so short a range. */
  lemma {:induction false} DistinctFit(slots: seq<int>, low: int, k: nat)
    requires forall i, j | 0 <= i < j < |slots| :: slots[i] != slots[j]
    requires forall i | 0 <= i < |slots| :: low <= slots[i] < low + k
    ensures |slots| <= k
    decreases |slots|
  {
    if slots != [] {
      var last := slots[|slots| - 1];
      var rest := seq(|slots| - 1,
                      i requires 0 <= i < |slots| - 1 => if slots[i] > last then slots[i] - 1 else slots[i]);
      DistinctFit(rest, low, k - 1);
    }
  }

  /** Where the least of some numbers is. */
  lemma {:induction false} Least(slots: seq<int>) returns (q: nat)
    requires slots != []
    ensures q < |slots| && forall i | 0 <= i < |slots| :: slots[q] <= slots[i]
  {
    if |slots| == 1 {
      q := 0;
    } else {
      q := Least(slots[..|slots| - 1]);
      if slots[|slots| - 1] < slots[q] {
        q := |slots| - 1;
      }
    }
  }

  /** Among k + 1 different numbers two are at least k apart. */
  lemma WideApart(slots: seq<int>, k: nat) returns (q: nat, p: nat)
    requires |slots| == k + 1 && forall i, j | 0 <= i < j < |slots| :: slots[i] != slots[j]
    ensures q < |slots| && p < |slots| && slots[p] - slots[q] >= k
  {
    q := Least(slots);
    if forall i | 0 <= i < |slots| :: slots[i] < slots[q] + k {
      DistinctFit(slots, slots[q], k);
    }
    p :| 0 <= p < |slots| && slots[p] >= slots[q] + k;
  }

  /** Claims of slots d apart, in time: the later slot's comes more than d - 1 intervals less lag later. */
  lemma ReachApart(s: real, a: int, t: real, b: int, d: int, interval: real, lag: real)
    requires interval > 0.0 && Timely(s, a, interval, lag) && Timely(t, b, interval, lag) && b - a >= d
    ensures t - s > Intervals(d - 1, interval) - lag
  {
    Reach(s, a, interval, lag);
    Reach(t, b, interval, lag);
    StartsApart(a, b, d, interval);
  }

  lemma StartsApart(a: int, b: int, d: int, interval: real)
    requires interval > 0.0 && b - a >= d
    ensures Intervals(b, interval) >= Intervals(a, interval) + interval + Intervals(d - 1, interval)
  {
    IntervalsAdd(a, b - a, interval);
    IntervalsAdd(d, b - a - d, interval);
    IntervalsSign(b - a - d, interval);
    IntervalsAdd(d - 1, 1, interval);
  }

  /**
   Across the fleet, k + 1 wins span more than k - 1 intervals, less the lag with which
   claims reach the store.
   */
  lemma WinsAreSpread(ops: seq<Timed>, name: string, interval: real, lag: real, i: nat, k: nat)
    requires interval > 0.0 && interval + lag <= SlotTtl(interval)
    requires InTimeOrder(ops) && SlotDiscipline(ops, name, interval, lag)
    requires i + k < |Won(ops, name)|
    ensures Won(ops, name)[i + k].time - Won(ops, name)[i].time > Intervals(k - 1, interval) - lag
  {
    var won := Won(ops, name);
    var slots := seq(k + 1, m requires 0 <= m <= k => won[i + m].slot);
    forall m, n | 0 <= m < n < |slots| ensures slots[m] != slots[n] {
      WinnersInDifferentSlots(ops, name, interval, lag, i + m, i + n);
    }
    var q, p := WideApart(slots, k);
    WonAreClaims(ops, name, interval, lag, i + q);
    WonAreClaims(ops, name, interval, lag, i + p);
    ReachApart(won[i + q].time, slots[q], won[i + p].time, slots[p], k, interval, lag);
    WonInOrder(ops, name, interval, lag, i, i + q);
    WonInOrder(ops, name, interval, lag, i + p, i + k);
  }

  // ---------------------------------------------------------- exact conditions

  /** Two claims in time order, from an empty store. */
  function TwoClaims(name: string, interval: real, a: int, s: real, b: int, t: real): seq<Timed> {
    [Timed(s, IncrOp(Slot(name, a), SlotTtl(interval))), Timed(t, IncrOp(Slot(name, b), SlotTtl(interval)))]
  }

  /** Both win when the slots differ, or the first has lapsed. */
  lemma TwoWin(name: string, interval: real, lag: real, a: int, s: real, b: int, t: real)
    requires interval > 0.0 && s <= t && Timely(s, a, interval, lag) && Timely(t, b, interval, lag)
    requires a != b || t > s + SlotTtl(interval)
    ensures var ops := TwoClaims(name, interval, a, s, b, t);
            InTimeOrder(ops) && SlotDiscipline(ops, name, interval, lag) && Won(ops, name) == [Win(a, s), Win(b, t)]
  {
    var ops := TwoClaims(name, interval, a, s, b, t);
    assert ops[..1] == [ops[0]] && ops[..1][..0] == [];
    assert Run(ops[..1][..0]) == map[];
    assert Run(ops[..1]) == map[Slot(name, a) := Entry(Count(1), s + SlotTtl(interval))];
    assert Won(ops[..1], name) == [Win(a, s)];
  }

  /** In every run with that lag, no slot has two winners. */
  ghost predicate OneWinnerPerSlot(name: string, interval: real, lag: real)
    requires interval > 0.0
  {
    forall ops: seq<Timed>, i: nat, j: nat |
      InTimeOrder(ops) && SlotDiscipline(ops, name, interval, lag) && i < j < |Won(ops, name)| ::
      Won(ops, name)[i].slot != Won(ops, name)[j].slot
  }

  /**
   How late a claim may reach the store: one winner per slot holds in every run exactly
   when lag and interval together do not exceed the counter's life. A lag of a whole
   interval is always allowed.
   */
  lemma OneWinnerIff(name: string, interval: real, lag: real)
    requires interval > 0.0 && lag >= 0.0
    ensures OneWinnerPerSlot(name, interval, lag) <==> interval + lag <= SlotTtl(interval)
    ensures lag <= interval ==> OneWinnerPerSlot(name, interval, lag)
  {
    TtlOutlivesSlot(interval);
    if interval + lag <= SlotTtl(interval) {
      forall ops: seq<Timed>, i: nat, j: nat |
        InTimeOrder(ops) && SlotDiscipline(ops, name, interval, lag) && i < j < |Won(ops, name)|
        ensures Won(ops, name)[i].slot != Won(ops, name)[j].slot
      {
        WinnersInDifferentSlots(ops, name, interval, lag, i, j);
      }
    } else {
      var ops := SecondWinner(name, interval, lag);
      assert Won(ops, name)[0].slot == Won(ops, name)[1].slot;
    }
  }

  /** A claim that comes after its slot's counter has lapsed wins a second time. */
  lemma SecondWinner(name: string, interval: real, lag: real) returns (ops: seq<Timed>)
    requires interval > 0.0 && lag >= 0.0 && interval + lag > SlotTtl(interval)
    ensures InTimeOrder(ops) && SlotDiscipline(ops, name, interval, lag)
    ensures |Won(ops, name)| == 2 && Won(ops, name)[0].slot == Won(ops, name)[1].slot == 0
  {
    var late := (SlotTtl(interval) + interval + lag) / 2.0;
    Reachable(0.0, 0, interval, lag);
    Reachable(late, 0, interval, lag);
    TwoWin(name, interval, lag, 0, 0.0, 0, late);
    ops := TwoClaims(name, interval, 0, 0.0, 0, late);
  }

  /** In every run with that lag, wins of slots a and b are an interval apart. */
  ghost predicate AlwaysApart(name: string, interval: real, lag: real, a: int, b: int)
    requires interval > 0.0
  {
    forall ops: seq<Timed>, i: nat, j: nat |
      && InTimeOrder(ops) && SlotDiscipline(ops, name, interval, lag) && i < j < |Won(ops, name)|
      && Won(ops, name)[i].slot == a && Won(ops, name)[j].slot == b ::
      Won(ops, name)[j].time - Won(ops, name)[i].time >= interval
  }

  /**
   One win per slot is not one per interval: wins of a slot and a later one are always an
   interval apart exactly when the lag fits in the slots between them; without lag, when
   at least one slot lies between.
   */
  lemma SlotsApartIff(name: string, interval: real, lag: real, a: int, b: int)
    requires interval > 0.0 && lag >= 0.0 && a < b
    ensures AlwaysApart(name, interval, lag, a, b) <==> lag <= Intervals(b - a - 2, interval)
    ensures lag == 0.0 ==> (AlwaysApart(name, interval, lag, a, b) <==> b - a >= 2)
  {
    IntervalsSign(b - a - 2, interval);
    if lag <= Intervals(b - a - 2, interval) {
      forall ops: seq<Timed>, i: nat, j: nat |
        && InTimeOrder(ops) && SlotDiscipline(ops, name, interval, lag) && i < j < |Won(ops, name)|
        && Won(ops, name)[i].slot == a && Won(ops, name)[j].slot == b
        ensures Won(ops, name)[j].time - Won(ops, name)[i].time >= interval
      {
        FarWins(ops, name, interval, lag, i, j);
      }
    } else {
      var ops := CloseWins(name, interval, lag, a, b);
      assert Won(ops, name)[1].time - Won(ops, name)[0].time < interval;
    }
  }

  lemma FarWins(ops: seq<Timed>, name: string, interval: real, lag: real, i: nat, j: nat)
    requires interval > 0.0 && InTimeOrder(ops) && SlotDiscipline(ops, name, interval, lag) && i < j < |Won(ops, name)|
    requires lag <= Intervals(Won(ops, name)[j].slot - Won(ops, name)[i].slot - 2, interval)
    ensures Won(ops, name)[j].time - Won(ops, name)[i].time >= interval
  {
    var v, w := Won(ops, name)[i], Won(ops, name)[j];
    WonAreClaims(ops, name, interval, lag, i);
    WonAreClaims(ops, name, interval, lag, j);
    FarReach(v.time, v.slot, w.time, w.slot, interval, lag);
  }

  lemma FarReach(s: real, a: int, t: real, b: int, interval: real, lag: real)
    requires interval > 0.0 && Timely(s, a, interval, lag) && Timely(t, b, interval, lag)
    requires lag <= Intervals(b - a - 2, interval)
    ensures t - s >= interval
  {
    Reach(s, a, interval, lag);
    Reach(t, b, interval, lag);
    TwoMore(a, b, interval);
  }

  lemma TwoMore(a: int, b: int, interval: real)
    ensures Intervals(b, interval) == Intervals(a, interval) + interval + interval + Intervals(b - a - 2, interval)
  {
    IntervalsAdd(a, b - a, interval);
    IntervalsAdd(b - a - 2, 2, interval);
    assert Intervals(2, interval) == Intervals(1, interval) + interval;
  }

  /** The first slot's claim comes as late, the second's as early as it can. */
  lemma CloseWins(name: string, interval: real, lag: real, a: int, b: int) returns (ops: seq<Timed>)
    requires interval > 0.0 && lag >= 0.0 && a < b && lag > Intervals(b - a - 2, interval)
    ensures InTimeOrder(ops) && SlotDiscipline(ops, name, interval, lag) && |Won(ops, name)| == 2
    ensures Won(ops, name)[0].slot == a && Won(ops, name)[1].slot == b
    ensures Won(ops, name)[1].time - Won(ops, name)[0].time < interval
  {
    var x, y := Intervals(a, interval), Intervals(b, interval);
    TwoMore(a, b, interval);
    StartsApart(a, b, 1, interval);
    var s := (y - interval + x + interval + lag) / 2.0;
    var t := if s > y then s else y;
    Reachable(s, a, interval, lag);
    Reachable(t, b, interval, lag);
    TwoWin(name, interval, lag, a, s, b, t);
    ops := TwoClaims(name, interval, a, s, b, t);
  }
}
