/**
 Fixed-window counting: what a counter that starts a window on its first hit, keeps
 that window's expiry, and starts over after it lapses, says about each hit.
 */
module Windows {

  /** A hit: when, when its window started, and its rank in that window. */
  datatype Stamp = Stamp(time: real, start: real, count: nat)

  /** The hit at time t that follows the hits so far. */
  function Next(earlier: seq<Stamp>, t: real, window: real): Stamp {
    if earlier != [] && t <= earlier[|earlier| - 1].start + window then
      var last := earlier[|earlier| - 1];
      Stamp(t, last.start, last.count + 1)
    else Stamp(t, t, 1)
  }

  function Stamps(times: seq<real>, window: real): (r: seq<Stamp>)
    ensures |r| == |times|
    ensures forall i | 0 <= i < |r| :: r[i].time == times[i]
  {
    if times == [] then []
    else
      var earlier := Stamps(times[..|times| - 1], window);
      earlier + [Next(earlier, times[|times| - 1], window)]
  }

  lemma StampsAppend(times: seq<real>, t: real, window: real)
    ensures Stamps(times + [t], window) == Stamps(times, window) + [Next(Stamps(times, window), t, window)]
  {
    assert (times + [t])[..|times|] == times;
  }

  ghost predicate NonDecreasing(times: seq<real>) {
    forall i, j :: 0 <= i < j < |times| ==> times[i] <= times[j]
  }

  /** A hit inside its window; the first of a window starts it. */
  predicate Placed(s: Stamp, window: real) {
    s.start <= s.time <= s.start + window && 1 <= s.count && (s.count == 1 ==> s.time == s.start)
  }

  /** t comes after s: later in the same window, or in a window that starts once that of s has lapsed. */
  predicate Follows(s: Stamp, t: Stamp, window: real) {
    if s.start == t.start then s.count < t.count else t.start > s.start + window
  }

  /** Hits in order, each in its window: any selection of the hits of one counter. */
  ghost predicate Chain(st: seq<Stamp>, window: real) {
    && (forall i | 0 <= i < |st| :: Placed(st[i], window))
    && (forall i, j | 0 <= i < j < |st| :: Follows(st[i], st[j], window))
  }

  /** A counter's hits form a chain: no window slides, the next starts only after the last lapses. */
  lemma {:induction false} StampsChain(times: seq<real>, window: real)
    requires window >= 0.0 && NonDecreasing(times)
    ensures Chain(Stamps(times, window), window)
  {
    if times != [] {
      var k := |times| - 1;
      StampsChain(times[..k], window);
      var earlier := Stamps(times[..k], window);
      var next := Next(earlier, times[k], window);
      if earlier != [] {
        var last := earlier[k - 1];
        assert last.time <= times[k];
        forall i | 0 <= i < k ensures Follows(earlier[i], next, window) {
          assert i < k - 1 ==> Follows(earlier[i], last, window);
        }
      }
    }
  }

  /** Hits of one window are at least as far apart in rank as in the selection. */
  lemma {:induction false} RankGrows(st: seq<Stamp>, window: real, i: nat, j: nat)
    requires Chain(st, window) && window >= 0.0 && i <= j < |st| && st[i].start == st[j].start
    ensures st[j].count - st[i].count >= j - i
  {
    if i < j {
      assert Follows(st[i], st[j - 1], window) || i == j - 1;
      assert Follows(st[j - 1], st[j], window);
      assert st[j - 1].start == st[i].start;
      RankGrows(st, window, i, j - 1);
    }
  }

  /** The first hit of the window of hit j among those from i on. */
  lemma {:induction false} WindowFirst(st: seq<Stamp>, window: real, i: nat, j: nat) returns (f: nat)
    requires Chain(st, window) && window >= 0.0 && i < j < |st| && st[i].start != st[j].start
    ensures i < f <= j && st[f].start == st[j].start && st[f - 1].start != st[j].start
  {
    if st[j - 1].start == st[j].start {
      f := WindowFirst(st, window, i, j - 1);
    } else {
      f := j;
    }
  }

  /**
   Hits of rank at most limit within any interval no longer than the window: at most
   limit in one window, at most 2 * limit - 1 in all.
   */
  lemma IntervalBound(st: seq<Stamp>, window: real, limit: nat, i: nat, j: nat)
    requires Chain(st, window) && window >= 0.0 && i <= j < |st|
    requires forall m | i <= m <= j :: st[m].count <= limit
    requires st[j].time - st[i].time <= window
    ensures j - i + 1 <= 2 * limit - 1
    ensures st[i].start == st[j].start ==> j - i + 1 <= limit
  {
    if st[i].start == st[j].start {
      RankGrows(st, window, i, j);
    } else {
      var f := WindowFirst(st, window, i, j);
      RankGrows(st, window, f, j);
      assert Follows(st[f - 1], st[f], window);
      assert i < f - 1 ==> Follows(st[i], st[f - 1], window);
      // A window between the two would make the interval too long.
      assert st[f - 1].start == st[i].start;
      RankGrows(st, window, i, f - 1);
      assert st[i].count >= 2;
    }
  }

  // ---------------------------------------------------------- it is attained

  /** One hit, then limit - 1 as the window lapses, then limit in the next window. */
  function Burst(limit: nat, window: real): (r: seq<real>)
    requires limit >= 1
    ensures |r| == 2 * limit
  {
    [0.0] + seq(limit - 1, _ => window) + seq(limit, _ => 1.5 * window)
  }

  lemma {:induction false} BurstStamps(limit: nat, window: real, k: nat)
    requires limit >= 1 && window > 0.0 && k <= 2 * limit
    ensures forall m | 0 <= m < k ::
              Stamps(Burst(limit, window)[..k], window)[m]
              == if m < limit then Stamp(Burst(limit, window)[m], 0.0, m + 1)
                 else Stamp(1.5 * window, 1.5 * window, m - limit + 1)
  {
    if k != 0 {
      BurstStamps(limit, window, k - 1);
      assert Burst(limit, window)[..k][..k - 1] == Burst(limit, window)[..k - 1];
    }
  }

  /** The bound is the best possible: some counter admits 2 * limit - 1 hits within half a window. */
  lemma BoundIsAttained(limit: nat, window: real)
    requires limit >= 1 && window > 0.0
    ensures NonDecreasing(Burst(limit, window))
    ensures var st := Stamps(Burst(limit, window), window);
            && st[2 * limit - 1].time - st[1].time <= window
            && forall m | 1 <= m < 2 * limit :: st[m].count <= limit
  {
    BurstStamps(limit, window, 2 * limit);
    assert Burst(limit, window)[..2 * limit] == Burst(limit, window);
  }
}
