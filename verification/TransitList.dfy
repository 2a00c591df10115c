/**
 The list of stops from the map elements alone: which stop each element makes, in what
 order, and which of them are kept.
 */
module TransitList {
  import opened Wrappers
  import opened Rounding
  import opened Text
  import opened Sequences
  import opened Sorting
  import opened Transit

  /** The name made up for a stop without one. */
  function NoName(kind: Kind): string {
    match kind
    case Ferry => "Unnamed ferry stop"
    case Rail => "Unnamed rail stop"
    case Bus => "Unnamed bus stop"
  }

  lemma MadeUpNames(kind: Kind)
    ensures MadeUpName(kind) == NoName(kind)
  {
  }

  /** Kind by its tags, a name of its own or one made up, and the distance to the nearest metre. */
  ghost predicate IsStopOf(s: Stop, e: Element, origin: Point, dist: Distance) {
    && e.at == Some(s.at)
    && s.kind == (if e.amenity == Some("ferry_terminal") then Ferry
                  else if e.railway == Some("station") then Rail else Bus)
    && s.name == (if e.name == None || e.name == Some("") then NoName(s.kind) else e.name.value)
    && -0.5 <= s.distanceM as real - dist(origin, s.at) <= 0.5
    && (s.distanceM as real - dist(origin, s.at) in {-0.5, 0.5} ==> s.distanceM % 2 == 0)
  }

  /** One stop for each element with a position, in their order. */
  ghost predicate StopsOf(elements: seq<Element>, origin: Point, dist: Distance, stops: seq<Stop>, at: seq<nat>) {
    && |at| == |stops|
    && (forall i, j | 0 <= i < j < |at| :: at[i] < at[j])
    && (forall i | 0 <= i < |at| :: at[i] < |elements| && IsStopOf(stops[i], elements[at[i]], origin, dist))
    && (forall n: nat | n < |elements| :: n in at <==> elements[n].at.Some?)
  }

  /** The same stops, nearest first, equally near ones in their order. */
  ghost predicate NearestFirst(stops: seq<Stop>, sorted: seq<Stop>, order: seq<nat>) {
    && |order| == |sorted| == |stops|
    && (forall i | 0 <= i < |order| :: order[i] < |stops| && sorted[i] == stops[order[i]])
    && (forall i, j | 0 <= i < j < |order| :: order[i] != order[j])
    && (forall i, j | 0 <= i < j < |order| ::
          && sorted[i].distanceM <= sorted[j].distanceM
          && (sorted[i].distanceM == sorted[j].distanceM ==> order[i] < order[j]))
  }

  /** The same name whatever its case and margins, or the same kind less than 120 m away. */
  ghost predicate SameStop(d: Stop, s: Stop, dist: Distance) {
    Lower(Strip(d.name)) == Lower(Strip(s.name)) || (d.kind == s.kind && dist(d.at, s.at) < 120.0)
  }

  /** A stop is kept exactly when no stop kept before it is the same. */
  ghost predicate KeptOf(sorted: seq<Stop>, shown: seq<Stop>, dist: Distance, kept: seq<nat>) {
    && |kept| == |shown|
    && (forall i, j | 0 <= i < j < |kept| :: kept[i] < kept[j])
    && (forall i | 0 <= i < |kept| :: kept[i] < |sorted| && shown[i] == sorted[kept[i]])
    && (forall n: nat | n < |sorted| ::
          n in kept <==> forall m | m in kept && m < n :: !SameStop(sorted[m], sorted[n], dist))
  }

  lemma StopIs(e: Element, origin: Point, dist: Distance)
    requires e.at.Some?
    ensures IsStopOf(Stop(KindOf(e), NameOf(e), e.at.value, RoundHalfEven(dist(origin, e.at.value))), e, origin, dist)
  {
    MadeUpNames(KindOf(e));
    RoundNear(dist(origin, e.at.value));
  }

  lemma MoreStops(front: seq<Element>, e: Element, origin: Point, dist: Distance, stops: seq<Stop>, at: seq<nat>,
                  s: Stop)
    requires StopsOf(front, origin, dist, stops, at)
    ensures e.at.None? ==> StopsOf(front + [e], origin, dist, stops, at)
    ensures IsStopOf(s, e, origin, dist) ==> StopsOf(front + [e], origin, dist, stops + [s], at + [|front|])
  {
    forall i | 0 <= i < |at| ensures at[i] < |front| && (front + [e])[at[i]] == front[at[i]] {
    }
    forall n: nat | n < |front| ensures (front + [e])[n] == front[n] {
    }
  }

  lemma {:induction false} StopsAre(elements: seq<Element>, origin: Point, dist: Distance) returns (at: seq<nat>)
    ensures StopsOf(elements, origin, dist, Stops(elements, origin, dist), at)
  {
    if elements == [] {
      at := [];
    } else {
      var front, e := elements[..|elements| - 1], elements[|elements| - 1];
      var stops := Stops(front, origin, dist);
      at := StopsAre(front, origin, dist);
      assert elements == front + [e];
      if e.at.None? {
        MoreStops(front, e, origin, dist, stops, at, Stop(Bus, "", origin, 0));
        assert Stops(elements, origin, dist) == stops;
      } else {
        var s := Stop(KindOf(e), NameOf(e), e.at.value, RoundHalfEven(dist(origin, e.at.value)));
        StopIs(e, origin, dist);
        MoreStops(front, e, origin, dist, stops, at, s);
        at := at + [|front|];
      }
    }
  }

  lemma SortedIs(stops: seq<Stop>) returns (order: seq<nat>)
    ensures NearestFirst(stops, Sort(stops, ByDistance), order)
  {
    order := SortPlaces(stops, ByDistance);
    var sorted := Sort(stops, ByDistance);
    forall i, j | 0 <= i < j < |order|
      ensures sorted[i].distanceM <= sorted[j].distanceM
      ensures sorted[i].distanceM == sorted[j].distanceM ==> order[i] < order[j]
    {
      assert ByDistance(sorted[i]) <= ByDistance(sorted[j]);
    }
  }

  lemma RepeatedIff(front: seq<Stop>, s: Stop, shown: seq<Stop>, dist: Distance, kept: seq<nat>)
    requires KeptOf(front, shown, dist, kept)
    ensures Repeated(shown, s, dist) <==> exists m :: m in kept && SameStop(front[m], s, dist)
  {
    forall i | 0 <= i < |kept| ensures kept[i] in kept && shown[i] == front[kept[i]] {
    }
    if m :| m in kept && SameStop(front[m], s, dist) {
      var i: nat :| i < |kept| && kept[i] == m;
      assert Repeats(shown[i], s, dist);
    }
    if Repeated(shown, s, dist) {
      var i :| 0 <= i < |shown| && Repeats(shown[i], s, dist);
      assert SameStop(front[kept[i]], s, dist);
    }
  }

  /** Below n the test is the one of the shorter list. */
  lemma SameBelow(front: seq<Stop>, s: Stop, kept: seq<nat>, more: seq<nat>, dist: Distance, n: nat)
    requires n < |front| && forall m | m in kept :: m < |front|
    requires more == kept || more == kept + [|front|]
    ensures n in more <==> n in kept
    ensures (forall m | m in more && m < n :: !SameStop((front + [s])[m], (front + [s])[n], dist))
            <==> forall m | m in kept && m < n :: !SameStop(front[m], front[n], dist)
  {
    forall m: nat | m < n ensures m in more <==> m in kept {
    }
    forall m: nat | m < |front| ensures (front + [s])[m] == front[m] {
    }
  }

  /** Each place is kept exactly when no kept place before it has the same stop. */
  ghost predicate KeptRightly(all: seq<Stop>, dist: Distance, kept: seq<nat>, n: nat)
    requires n < |all| && forall m | m in kept :: m < |all|
  {
    n in kept <==> forall m | m in kept && m < n :: !SameStop(all[m], all[n], dist)
  }

  lemma MoreRightly(front: seq<Stop>, s: Stop, shown: seq<Stop>, dist: Distance, kept: seq<nat>, more: seq<nat>,
                    n: nat)
    requires KeptOf(front, shown, dist, kept) && n <= |front|
    requires more == if Repeated(shown, s, dist) then kept else kept + [|front|]
    ensures forall m | m in more :: m < |front + [s]|
    ensures KeptRightly(front + [s], dist, more, n)
  {
    KeptBelow(front, s, shown, dist, kept);
    if n < |front| {
      SameBelow(front, s, kept, more, dist, n);
    } else {
      RepeatedIff(front, s, shown, dist, kept);
      LastKept(front, s, dist, kept, more, Repeated(shown, s, dist));
    }
  }

  lemma SameKept(all: seq<Stop>, front: seq<Stop>, s: Stop, shown: seq<Stop>, dist: Distance, kept: seq<nat>)
    requires all == front + [s] && KeptOf(front, shown, dist, kept) && Repeated(shown, s, dist)
    ensures KeptOf(all, shown, dist, kept)
  {
    KeptBelow(front, s, shown, dist, kept);
    AllRightly(front, s, shown, dist, kept, kept);
    RightlyKept(all, shown, dist, kept);
  }

  lemma OneKeptMore(all: seq<Stop>, front: seq<Stop>, s: Stop, shown: seq<Stop>, dist: Distance, kept: seq<nat>,
                    list: seq<Stop>, more: seq<nat>)
    requires all == front + [s] && KeptOf(front, shown, dist, kept) && !Repeated(shown, s, dist)
    requires list == shown + [s] && more == kept + [|front|]
    ensures KeptOf(all, list, dist, more)
  {
    AllRightly(front, s, shown, dist, kept, more);
    ListedMore(all, front, s, shown, dist, kept, list, more);
    RightlyKept(all, list, dist, more);
  }

  lemma ListedMore(all: seq<Stop>, front: seq<Stop>, s: Stop, shown: seq<Stop>, dist: Distance, kept: seq<nat>,
                   list: seq<Stop>, more: seq<nat>)
    requires all == front + [s] && KeptOf(front, shown, dist, kept)
    requires list == shown + [s] && more == kept + [|front|]
    ensures |more| == |list| && forall i, j | 0 <= i < j < |more| :: more[i] < more[j]
    ensures forall i | 0 <= i < |more| :: more[i] < |all| && list[i] == all[more[i]]
  {
    forall i | 0 <= i < |more| ensures more[i] < |all| && list[i] == all[more[i]] {
      assert i < |kept| ==> more[i] == kept[i] && list[i] == shown[i];
    }
  }

  lemma AllRightly(front: seq<Stop>, s: Stop, shown: seq<Stop>, dist: Distance, kept: seq<nat>, more: seq<nat>)
    requires KeptOf(front, shown, dist, kept)
    requires more == if Repeated(shown, s, dist) then kept else kept + [|front|]
    ensures forall m | m in more :: m < |front + [s]|
    ensures forall n: nat | n < |front + [s]| :: KeptRightly(front + [s], dist, more, n)
  {
    KeptBelow(front, s, shown, dist, kept);
    forall n: nat | n < |front + [s]| ensures KeptRightly(front + [s], dist, more, n) {
      MoreRightly(front, s, shown, dist, kept, more, n);
    }
  }

  lemma RightlyKept(all: seq<Stop>, shown: seq<Stop>, dist: Distance, kept: seq<nat>)
    requires |kept| == |shown| && forall i, j | 0 <= i < j < |kept| :: kept[i] < kept[j]
    requires forall i | 0 <= i < |kept| :: kept[i] < |all| && shown[i] == all[kept[i]]
    requires forall m | m in kept :: m < |all|
    requires forall n: nat | n < |all| :: KeptRightly(all, dist, kept, n)
    ensures KeptOf(all, shown, dist, kept)
  {
    forall n: nat | n < |all|
      ensures n in kept <==> forall m | m in kept && m < n :: !SameStop(all[m], all[n], dist)
    {
      assert KeptRightly(all, dist, kept, n);
    }
  }

  lemma KeptBelow(front: seq<Stop>, s: Stop, shown: seq<Stop>, dist: Distance, kept: seq<nat>)
    requires KeptOf(front, shown, dist, kept)
    ensures forall m | m in kept :: m < |front|
    ensures forall i | 0 <= i < |kept| :: shown[i] == (front + [s])[kept[i]]
  {
    forall m | m in kept ensures m < |front| {
      var i: nat :| i < |kept| && kept[i] == m;
    }
  }

  lemma LastKept(front: seq<Stop>, s: Stop, dist: Distance, kept: seq<nat>, more: seq<nat>, repeated: bool)
    requires forall m | m in kept :: m < |front|
    requires repeated <==> exists m :: m in kept && SameStop(front[m], s, dist)
    requires more == if repeated then kept else kept + [|front|]
    ensures |front| in more
            <==> forall m | m in more && m < |front| :: !SameStop((front + [s])[m], (front + [s])[|front|], dist)
  {
    assert (front + [s])[|front|] == s;
    forall m: nat | m < |front| ensures (front + [s])[m] == front[m] && (m in more <==> m in kept) {
    }
  }

  lemma DedupedMore(all: seq<Stop>, front: seq<Stop>, s: Stop, dist: Distance, shown: seq<Stop>)
    requires all == front + [s] && shown == Deduped(front, dist)
    ensures Deduped(all, dist) == if Repeated(shown, s, dist) then shown else shown + [s]
  {
    assert all[..|front|] == front;
  }

  lemma {:induction false} KeptAre(sorted: seq<Stop>, dist: Distance) returns (kept: seq<nat>)
    ensures KeptOf(sorted, Deduped(sorted, dist), dist, kept)
    decreases |sorted|
  {
    if sorted == [] {
      kept := NoneKept(dist);
    } else {
      var front, s := Parted(sorted);
      kept := KeptAre(front, dist);
      kept := NextKept(sorted, front, s, dist, Deduped(front, dist), kept);
    }
  }

  lemma NoneKept(dist: Distance) returns (kept: seq<nat>)
    ensures KeptOf([], Deduped([], dist), dist, kept)
  {
    kept := [];
  }

  lemma NextKept(all: seq<Stop>, front: seq<Stop>, s: Stop, dist: Distance, shown: seq<Stop>, kept: seq<nat>)
    returns (more: seq<nat>)
    requires all == front + [s] && shown == Deduped(front, dist) && KeptOf(front, shown, dist, kept)
    ensures KeptOf(all, Deduped(all, dist), dist, more)
  {
    DedupedMore(all, front, s, dist, shown);
    if Repeated(shown, s, dist) {
      more := kept;
      SameKept(all, front, s, shown, dist, kept);
    } else {
      more := kept + [|front|];
      OneKeptMore(all, front, s, shown, dist, kept, Deduped(all, dist), more);
    }
  }

  /** The list shown, from the elements: their stops, nearest first, each unless an earlier one kept is the same. */
  lemma ListIs(elements: seq<Element>, origin: Point, dist: Distance)
    returns (stops: seq<Stop>, at: seq<nat>, sorted: seq<Stop>, order: seq<nat>, kept: seq<nat>)
    ensures StopsOf(elements, origin, dist, stops, at)
    ensures NearestFirst(stops, sorted, order)
    ensures KeptOf(sorted, Deduped(Sort(Stops(elements, origin, dist), ByDistance), dist), dist, kept)
  {
    stops := Stops(elements, origin, dist);
    sorted := Sort(stops, ByDistance);
    at := StopsAre(elements, origin, dist);
    order := SortedIs(stops);
    kept := KeptAre(sorted, dist);
  }
}
