/**
 Request counters and latency histograms (`Metrics` in app/core/observability.py): the
 per-bucket counters stand for a full log of what was observed.
 */
module Metrics {

  /** Upper edges, in seconds. */
  const BUCKETS: seq<real> := [0.01, 0.05, 0.1, 0.25, 0.5, 1.0, 2.5, 5.0, 10.0]

  datatype Route = Route(verb: string, path: string)

  datatype Series = Series(route: Route, status: int)

  datatype Observation = Observation(route: Route, status: int, seconds: real)

  ghost predicate Ascending(edges: seq<real>) {
    forall i, j | 0 <= i < j < |edges| :: edges[i] < edges[j]
  }

  lemma BucketsAscend()
    ensures Ascending(BUCKETS)
  {
    assert |BUCKETS| == 9;
  }

  /** The first bucket, from i on, whose edge is not exceeded; the overflow bucket if none. */
  function BucketFrom(edges: seq<real>, seconds: real, i: nat): (b: nat)
    requires i <= |edges|
    ensures i <= b <= |edges|
    ensures b < |edges| ==> seconds <= edges[b]
    ensures forall k | i <= k < b :: seconds > edges[k]
    decreases |edges| - i
  {
    if i == |edges| || seconds <= edges[i] then i else BucketFrom(edges, seconds, i + 1)
  }

  function BucketOf(edges: seq<real>, seconds: real): (b: nat)
    ensures b <= |edges|
  {
    BucketFrom(edges, seconds, 0)
  }

  /** What may be asked of a log. */
  datatype Query =
    | Requests(series: Series)
    | Calls(route: Route)
    | AtMost(route: Route, bound: real)
    | InBucket(route: Route, bucket: nat)
    | UpToBucket(route: Route, bucket: nat)
  {
    predicate Matches(o: Observation, edges: seq<real>) {
      match this
      case Requests(s) => o.route == s.route && o.status == s.status
      case Calls(r) => o.route == r
      case AtMost(r, bound) => o.route == r && o.seconds <= bound
      case InBucket(r, b) => o.route == r && BucketOf(edges, o.seconds) == b
      case UpToBucket(r, b) => o.route == r && BucketOf(edges, o.seconds) <= b
    }
  }

  function Count(log: seq<Observation>, q: Query, edges: seq<real>): nat {
    if log == [] then 0
    else Count(log[..|log| - 1], q, edges) + if q.Matches(log[|log| - 1], edges) then 1 else 0
  }

  function TotalSeconds(log: seq<Observation>, route: Route): real {
    if log == [] then 0.0
    else TotalSeconds(log[..|log| - 1], route) + if log[|log| - 1].route == route then log[|log| - 1].seconds else 0.0
  }

  lemma CountAppend(log: seq<Observation>, o: Observation, q: Query, edges: seq<real>)
    ensures Count(log + [o], q, edges) == Count(log, q, edges) + if q.Matches(o, edges) then 1 else 0
  {
    assert (log + [o])[..|log|] == log;
  }

  lemma TotalAppend(log: seq<Observation>, o: Observation, route: Route)
    ensures TotalSeconds([], route) == 0.0
    ensures TotalSeconds(log + [o], route) == TotalSeconds(log, route) + if o.route == route then o.seconds else 0.0
  {
    assert (log + [o])[..|log|] == log;
  }

  /** A missing counter is zero. */
  function Get<K>(counters: map<K, nat>, key: K): nat {
    if key in counters then counters[key] else 0
  }

  function SumOf(sums: map<Route, real>, route: Route): real {
    if route in sums then sums[route] else 0.0
  }

  /** A route's buckets, all zero before its first call. */
  function Buckets(latency: map<Route, seq<nat>>, route: Route, n: nat): seq<nat> {
    if route in latency then latency[route] else seq(n, _ => 0)
  }

  /** The route's buckets count what was observed in each. */
  ghost predicate BucketsOk(latency: map<Route, seq<nat>>, log: seq<Observation>, edges: seq<real>, r: Route) {
    && |Buckets(latency, r, |edges| + 1)| == |edges| + 1
    && (forall b: nat | b <= |edges| :: Count(log, InBucket(r, b), edges) == Buckets(latency, r, |edges| + 1)[b])
  }

  ghost predicate RequestsCount(requests: map<Series, nat>, log: seq<Observation>, edges: seq<real>) {
    forall s: Series :: Get(requests, s) == Count(log, Requests(s), edges)
  }

  ghost predicate LatencyCounts(latency: map<Route, seq<nat>>, log: seq<Observation>, edges: seq<real>) {
    forall r: Route :: BucketsOk(latency, log, edges, r)
  }

  ghost predicate SecondsSum(sums: map<Route, real>, log: seq<Observation>) {
    forall r: Route :: SumOf(sums, r) == TotalSeconds(log, r)
  }

  // The three tables, one observation later.

  lemma RequestsStep(
    before: map<Series, nat>, after: map<Series, nat>, log: seq<Observation>, o: Observation, edges: seq<real>)
    requires RequestsCount(before, log, edges)
    requires after == before[Series(o.route, o.status) := Get(before, Series(o.route, o.status)) + 1]
    ensures RequestsCount(after, log + [o], edges)
  {
    forall s: Series ensures Get(after, s) == Count(log + [o], Requests(s), edges) {
      CountAppend(log, o, Requests(s), edges);
    }
  }

  lemma SumsStep(before: map<Route, real>, after: map<Route, real>, log: seq<Observation>, o: Observation)
    requires SecondsSum(before, log) && after == before[o.route := SumOf(before, o.route) + o.seconds]
    ensures SecondsSum(after, log + [o])
  {
    forall r: Route ensures SumOf(after, r) == TotalSeconds(log + [o], r) {
      TotalAppend(log, o, r);
    }
  }

  lemma RouteBucketsStep(before: map<Route, seq<nat>>, after: map<Route, seq<nat>>, log: seq<Observation>,
                         o: Observation, edges: seq<real>, r: Route)
    requires BucketsOk(before, log, edges, r) && |Buckets(before, o.route, |edges| + 1)| == |edges| + 1
    requires var current, b := Buckets(before, o.route, |edges| + 1), BucketOf(edges, o.seconds);
             after == before[o.route := current[b := current[b] + 1]]
    ensures BucketsOk(after, log + [o], edges, r)
  {
    forall b: nat | b <= |edges|
      ensures Count(log + [o], InBucket(r, b), edges) == Buckets(after, r, |edges| + 1)[b]
    {
      CountAppend(log, o, InBucket(r, b), edges);
    }
  }

  lemma BucketsStep(before: map<Route, seq<nat>>, after: map<Route, seq<nat>>, log: seq<Observation>,
                    o: Observation, edges: seq<real>)
    requires LatencyCounts(before, log, edges)
    requires var current, b := Buckets(before, o.route, |edges| + 1), BucketOf(edges, o.seconds);
             |current| == |edges| + 1 && after == before[o.route := current[b := current[b] + 1]]
    ensures LatencyCounts(after, log + [o], edges)
  {
    forall r: Route ensures BucketsOk(after, log + [o], edges, r) {
      assert BucketsOk(before, log, edges, r);
      RouteBucketsStep(before, after, log, o, edges, r);
    }
  }

  class Metrics {
    const edges: seq<real>
    var requests: map<Series, nat>
    var latency: map<Route, seq<nat>>
    var latencySum: map<Route, real>
    ghost var log: seq<Observation>

    constructor ()
      ensures edges == BUCKETS && log == [] && Valid()
    {
      BucketsAscend();
      edges := BUCKETS;
      requests, latency, latencySum, log := map[], map[], map[], [];
    }

    /** Every counter is the count its name says, over everything observed so far. */
    ghost predicate Valid()
      reads this
    {
      && Ascending(edges)
      && RequestsCount(requests, log, edges)
      && LatencyCounts(latency, log, edges)
      && SecondsSum(latencySum, log)
    }

    method Observe(route: Route, status: int, seconds: real)
      requires Valid()
      modifies this
      ensures Valid() && log == old(log) + [Observation(route, status, seconds)]
    {
      ghost var o := Observation(route, status, seconds);
      requests := requests[Series(route, status) := Get(requests, Series(route, status)) + 1];
      assert BucketsOk(latency, log, edges, route);
      var buckets := Place(Buckets(latency, route, |edges| + 1), seconds);
      latency := latency[route := buckets];
      latencySum := latencySum[route := SumOf(latencySum, route) + seconds];
      RequestsStep(old(requests), requests, log, o, edges);
      SumsStep(old(latencySum), latencySum, log, o);
      BucketsStep(old(latency), latency, log, o, edges);
      log := log + [o];
    }

    /** One more in the first bucket whose edge is not exceeded, else in the last. */
    method Place(current: seq<nat>, seconds: real) returns (buckets: seq<nat>)
      requires |current| == |edges| + 1
      ensures var b := BucketOf(edges, seconds);
              buckets == current[b := current[b] + 1]
    {
      buckets := current;
      for i := 0 to |edges|
        invariant buckets == current && BucketOf(edges, seconds) == BucketFrom(edges, seconds, i)
      {
        if seconds <= edges[i] {
          buckets := buckets[i := buckets[i] + 1];
          return;
        }
      }
      buckets := buckets[|edges| := buckets[|edges|] + 1];
    }

    /** The counting in `render`: one running total per edge, and one for everything. */
    method Cumulative(route: Route) returns (totals: seq<nat>)
      requires Valid() && route in latency
      ensures |totals| == |edges| + 1
      ensures forall i | 0 <= i < |edges| :: totals[i] == Count(log, AtMost(route, edges[i]), edges)
      ensures totals[|edges|] == Count(log, Calls(route), edges)
    {
      assert BucketsOk(latency, log, edges, route);
      var buckets := latency[route];
      var cumulative := 0;
      totals := [];
      for i := 0 to |edges|
        invariant |totals| == i
        invariant cumulative == if i == 0 then 0 else Count(log, UpToBucket(route, i - 1), edges)
        invariant forall k | 0 <= k < i :: totals[k] == Count(log, AtMost(route, edges[k]), edges)
      {
        assert Count(log, InBucket(route, i), edges) == buckets[i];
        NextBucket(log, route, i, edges);
        cumulative := cumulative + buckets[i];
        UpToIsAtMost(log, route, i, edges);
        totals := totals + [cumulative];
      }
      assert Count(log, InBucket(route, |edges|), edges) == buckets[|edges|];
      NextBucket(log, route, |edges|, edges);
      cumulative := cumulative + buckets[|edges|];
      UpToAll(log, route, edges);
      totals := totals + [cumulative];
    }

    /** The request counters of a route, over any listing of its statuses, add up to its calls. */
    lemma RequestsAddUp(route: Route, statuses: seq<int>)
      requires Valid()
      requires forall i, j | 0 <= i < j < |statuses| :: statuses[i] != statuses[j]
      requires forall o | o in log && o.route == route :: o.status in statuses
      ensures SumRequests(requests, route, statuses) == Count(log, Calls(route), edges)
    {
      RequestsAreCounts(requests, log, route, statuses, edges);
      StatusesCover(log, route, statuses, edges);
    }
  }

  // ------------------------------------------------------------ adding buckets

  lemma {:induction false} NextBucket(log: seq<Observation>, route: Route, b: nat, edges: seq<real>)
    ensures Count(log, UpToBucket(route, b), edges)
            == (if b == 0 then 0 else Count(log, UpToBucket(route, b - 1), edges))
               + Count(log, InBucket(route, b), edges)
  {
    if log != [] {
      NextBucket(log[..|log| - 1], route, b, edges);
    }
  }

  lemma UpToIffAtMost(edges: seq<real>, seconds: real, b: nat)
    requires Ascending(edges) && b < |edges|
    ensures BucketOf(edges, seconds) <= b <==> seconds <= edges[b]
  {
    var k := BucketOf(edges, seconds);
    assert k < b ==> edges[k] < edges[b];
  }

  lemma {:induction false} UpToIsAtMost(log: seq<Observation>, route: Route, b: nat, edges: seq<real>)
    requires Ascending(edges) && b < |edges|
    ensures Count(log, UpToBucket(route, b), edges) == Count(log, AtMost(route, edges[b]), edges)
  {
    if log != [] {
      UpToIsAtMost(log[..|log| - 1], route, b, edges);
      UpToIffAtMost(edges, log[|log| - 1].seconds, b);
    }
  }

  lemma {:induction false} UpToAll(log: seq<Observation>, route: Route, edges: seq<real>)
    ensures Count(log, UpToBucket(route, |edges|), edges) == Count(log, Calls(route), edges)
  {
    if log != [] {
      UpToAll(log[..|log| - 1], route, edges);
    }
  }

  /** The rendered totals never fall from one edge to the next. */
  lemma {:induction false} TotalsRise(log: seq<Observation>, route: Route, low: real, high: real, edges: seq<real>)
    requires low <= high
    ensures Count(log, AtMost(route, low), edges) <= Count(log, AtMost(route, high), edges)
    ensures Count(log, AtMost(route, high), edges) <= Count(log, Calls(route), edges)
  {
    if log != [] {
      TotalsRise(log[..|log| - 1], route, low, high, edges);
    }
  }

  // ----------------------------------------------------------- adding statuses

  function SumRequests(requests: map<Series, nat>, route: Route, statuses: seq<int>): nat {
    if statuses == [] then 0
    else Get(requests, Series(route, statuses[0])) + SumRequests(requests, route, statuses[1..])
  }

  function SumCounts(log: seq<Observation>, route: Route, statuses: seq<int>, edges: seq<real>): nat {
    if statuses == [] then 0
    else Count(log, Requests(Series(route, statuses[0])), edges) + SumCounts(log, route, statuses[1..], edges)
  }

  lemma {:induction false} RequestsAreCounts(
    requests: map<Series, nat>, log: seq<Observation>, route: Route, statuses: seq<int>, edges: seq<real>)
    requires forall s: Series :: Get(requests, s) == Count(log, Requests(s), edges)
    ensures SumRequests(requests, route, statuses) == SumCounts(log, route, statuses, edges)
  {
    if statuses != [] {
      RequestsAreCounts(requests, log, route, statuses[1..], edges);
    }
  }

  /** One observation adds one to exactly one of the listed counts, if its status is listed. */
  lemma {:induction false} SumCountsStep(
    log: seq<Observation>, o: Observation, route: Route, statuses: seq<int>, edges: seq<real>)
    requires forall i, j | 0 <= i < j < |statuses| :: statuses[i] != statuses[j]
    ensures SumCounts(log + [o], route, statuses, edges)
            == SumCounts(log, route, statuses, edges) + if o.route == route && o.status in statuses then 1 else 0
  {
    if statuses != [] {
      CountAppend(log, o, Requests(Series(route, statuses[0])), edges);
      SumCountsStep(log, o, route, statuses[1..], edges);
      assert statuses == [statuses[0]] + statuses[1..];
    }
  }

  lemma {:induction false} NothingCounted(route: Route, statuses: seq<int>, edges: seq<real>)
    ensures SumCounts([], route, statuses, edges) == 0
  {
    if statuses != [] {
      NothingCounted(route, statuses[1..], edges);
    }
  }

  lemma {:induction false} StatusesCover(log: seq<Observation>, route: Route, statuses: seq<int>, edges: seq<real>)
    requires forall i, j | 0 <= i < j < |statuses| :: statuses[i] != statuses[j]
    requires forall o | o in log && o.route == route :: o.status in statuses
    ensures SumCounts(log, route, statuses, edges) == Count(log, Calls(route), edges)
  {
    if log == [] {
      NothingCounted(route, statuses, edges);
    } else {
      var front, o := log[..|log| - 1], log[|log| - 1];
      StatusesCover(front, route, statuses, edges);
      SumCountsStep(front, o, route, statuses, edges);
      assert front + [o] == log;
    }
  }

  // -------------------------------------------------------- what is counted

  ghost function Places(log: seq<Observation>, q: Query, edges: seq<real>): set<nat> {
    set i: nat | i < |log| && q.Matches(log[i], edges)
  }

  lemma PlacesMore(log: seq<Observation>, o: Observation, q: Query, edges: seq<real>)
    ensures |Places(log + [o], q, edges)| == |Places(log, q, edges)| + if q.Matches(o, edges) then 1 else 0
  {
    OneMore(Places(log, q, edges), |log|, Places(log + [o], q, edges));
  }

  lemma OneMore(before: set<nat>, n: nat, after: set<nat>)
    requires n !in before && forall k: nat | k != n :: k in after <==> k in before
    ensures |after| == |before| + if n in after then 1 else 0
  {
    assert after == if n in after then before + {n} else before;
  }

  lemma {:induction false} CountIsPlaces(log: seq<Observation>, q: Query, edges: seq<real>)
    ensures Count(log, q, edges) == |Places(log, q, edges)|
  {
    if log == [] {
      assert Places(log, q, edges) == {};
    } else {
      var front, o := log[..|log| - 1], log[|log| - 1];
      CountIsPlaces(front, q, edges);
      PlacesMore(front, o, q, edges);
      assert log == front + [o];
    }
  }

  /** The counts are numbers of observations: with that status, of that route, and that fast. */
  lemma CountsAre(log: seq<Observation>, r: Route, status: int, bound: real, edges: seq<real>)
    ensures Count(log, Requests(Series(r, status)), edges)
            == |set i: nat | i < |log| && log[i].route == r && log[i].status == status|
    ensures Count(log, Calls(r), edges) == |set i: nat | i < |log| && log[i].route == r|
    ensures Count(log, AtMost(r, bound), edges)
            == |set i: nat | i < |log| && log[i].route == r && log[i].seconds <= bound|
  {
    CountIsPlaces(log, Requests(Series(r, status)), edges);
    CountIsPlaces(log, Calls(r), edges);
    CountIsPlaces(log, AtMost(r, bound), edges);
    assert Places(log, Requests(Series(r, status)), edges)
           == set i: nat | i < |log| && log[i].route == r && log[i].status == status;
    assert Places(log, Calls(r), edges) == set i: nat | i < |log| && log[i].route == r;
    assert Places(log, AtMost(r, bound), edges)
           == set i: nat | i < |log| && log[i].route == r && log[i].seconds <= bound;
  }
}
