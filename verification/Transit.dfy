/** Public transport near a point (`transit_near` in app/services/opendata.py). */
module Transit {
  import opened Wrappers
  import opened Rounding
  import opened Text
  import opened Sorting
  import Search

  type Point = Search.Point
  type Distance = Search.Distance

  /** A map node; one without a position is skipped. */
  datatype Element = Element(at: Option<Point>, name: Option<string>, amenity: Option<string>, railway: Option<string>)

  datatype Kind = Ferry | Rail | Bus

  datatype Stop = Stop(kind: Kind, name: string, at: Point, distanceM: int)

  const SAME_STOP_M: real := 120.0

  function KindOf(e: Element): Kind {
    if e.amenity == Some("ferry_terminal") then Ferry
    else if e.railway == Some("station") then Rail
    else Bus
  }

  function KindText(k: Kind): string {
    match k
    case Ferry => "ferry"
    case Rail => "rail"
    case Bus => "bus"
  }

  /** What a stop without a name is called. */
  function MadeUpName(kind: Kind): string {
    "Unnamed " + KindText(kind) + " stop"
  }

  function NameOf(e: Element): string {
    if e.name.GetOr("") != "" then e.name.value else MadeUpName(KindOf(e))
  }

  function Stops(elements: seq<Element>, origin: Point, dist: Distance): seq<Stop> {
    if elements == [] then []
    else
      var e := elements[|elements| - 1];
      Stops(elements[..|elements| - 1], origin, dist)
      + if e.at.None? then []
        else [Stop(KindOf(e), NameOf(e), e.at.value, RoundHalfEven(dist(origin, e.at.value)))]
  }

  function ByDistance(s: Stop): real { s.distanceM as real }

  function NameKey(s: Stop): string {
    Lower(Strip(s.name))
  }

  /** The same kind of stop, practically in the same place. */
  predicate OnTop(d: Stop, s: Stop, dist: Distance) {
    d.kind == s.kind && dist(d.at, s.at) < SAME_STOP_M
  }

  predicate Repeats(d: Stop, s: Stop, dist: Distance) {
    NameKey(d) == NameKey(s) || OnTop(d, s, dist)
  }

  predicate Repeated(kept: seq<Stop>, s: Stop, dist: Distance) {
    exists i | 0 <= i < |kept| :: Repeats(kept[i], s, dist)
  }

  /** Keep a stop unless one kept before repeats it. */
  function Deduped(stops: seq<Stop>, dist: Distance): seq<Stop> {
    if stops == [] then []
    else
      var kept, s := Deduped(stops[..|stops| - 1], dist), stops[|stops| - 1];
      kept + if Repeated(kept, s, dist) then [] else [s]
  }

  method TransitNear(elements: seq<Element>, origin: Point, dist: Distance) returns (deduped: seq<Stop>)
    ensures deduped == Deduped(Sort(Stops(elements, origin, dist), ByDistance), dist)
  {
    var out: seq<Stop> := [];
    for i := 0 to |elements|
      invariant out == Stops(elements[..i], origin, dist)
    {
      var e := elements[i];
      assert elements[..i + 1][..i] == elements[..i];
      if e.at.Some? {
        out := out + [Stop(KindOf(e), NameOf(e), e.at.value, RoundHalfEven(dist(origin, e.at.value)))];
      } else {
        assert out + [] == out;
      }
    }
    assert elements[..|elements|] == elements;
    out := Sort(out, ByDistance);
    deduped := Dedupe(out, dist);
  }

  predicate SameNameIn(kept: seq<Stop>, s: Stop) {
    exists k | 0 <= k < |kept| :: NameKey(kept[k]) == NameKey(s)
  }

  predicate OnTopIn(kept: seq<Stop>, s: Stop, dist: Distance) {
    exists k | 0 <= k < |kept| :: OnTop(kept[k], s, dist)
  }

  lemma RepeatedEither(kept: seq<Stop>, s: Stop, dist: Distance)
    ensures Repeated(kept, s, dist) <==> SameNameIn(kept, s) || OnTopIn(kept, s, dist)
  {
    if SameNameIn(kept, s) {
      var k :| 0 <= k < |kept| && NameKey(kept[k]) == NameKey(s);
      assert Repeats(kept[k], s, dist);
    }
    if OnTopIn(kept, s, dist) {
      var k :| 0 <= k < |kept| && OnTop(kept[k], s, dist);
      assert Repeats(kept[k], s, dist);
    }
  }

  lemma DedupedTake(stops: seq<Stop>, i: nat, dist: Distance)
    requires i < |stops|
    ensures Deduped(stops[..i + 1], dist)
            == (var kept := Deduped(stops[..i], dist);
                if Repeated(kept, stops[i], dist) then kept else kept + [stops[i]])
  {
    assert stops[..i + 1][..i] == stops[..i];
  }

  method Dedupe(out: seq<Stop>, dist: Distance) returns (deduped: seq<Stop>)
    ensures deduped == Deduped(out, dist)
  {
    deduped := [];
    for i := 0 to |out|
      invariant deduped == Deduped(out[..i], dist)
    {
      var item := out[i];
      DedupedTake(out, i, dist);
      RepeatedEither(deduped, item, dist);
      if SameNameIn(deduped, item) {
        continue;
      }
      if OnTopIn(deduped, item, dist) {
        continue;
      }
      deduped := deduped + [item];
    }
    assert out[..|out|] == out;
  }

  // ------------------------------------------------------------- what is shown

  /** Nearest first, no name twice, stops of one kind apart. */
  ghost predicate Spread(kept: seq<Stop>, dist: Distance) {
    forall i, j | 0 <= i < j < |kept| ::
      && kept[i].distanceM <= kept[j].distanceM
      && NameKey(kept[i]) != NameKey(kept[j])
      && (kept[i].kind == kept[j].kind ==> dist(kept[i].at, kept[j].at) >= SAME_STOP_M)
  }

  /** A kept stop, no farther away, stands for this one. */
  ghost predicate StoodFor(kept: seq<Stop>, s: Stop, dist: Distance) {
    exists i: nat :: i < |kept| && kept[i].distanceM <= s.distanceM && (kept[i] == s || Repeats(kept[i], s, dist))
  }

  lemma {:induction false} DedupedFrom(stops: seq<Stop>, dist: Distance)
    ensures forall d | d in Deduped(stops, dist) :: d in stops
  {
    if stops != [] {
      DedupedFrom(stops[..|stops| - 1], dist);
    }
  }

  lemma {:induction false} DedupedSpread(stops: seq<Stop>, dist: Distance)
    requires Ascending(stops, ByDistance)
    ensures Spread(Deduped(stops, dist), dist)
  {
    if stops != [] {
      var front, s := stops[..|stops| - 1], stops[|stops| - 1];
      var kept := Deduped(front, dist);
      DedupedSpread(front, dist);
      DedupedFrom(front, dist);
      forall i | 0 <= i < |kept| ensures kept[i].distanceM <= s.distanceM {
        assert kept[i] in front;
        var k: nat :| k < |front| && front[k] == kept[i];
        assert ByDistance(stops[k]) <= ByDistance(s);
      }
      assert !Repeated(kept, s, dist) ==> forall i | 0 <= i < |kept| :: !Repeats(kept[i], s, dist);
    }
  }

  lemma StoodForMore(kept: seq<Stop>, more: seq<Stop>, s: Stop, dist: Distance)
    requires StoodFor(kept, s, dist)
    ensures StoodFor(kept + more, s, dist)
  {
    var i: nat :| i < |kept| && kept[i].distanceM <= s.distanceM && (kept[i] == s || Repeats(kept[i], s, dist));
    assert (kept + more)[i] == kept[i];
  }

  lemma {:induction false} DedupedCovers(stops: seq<Stop>, s: Stop, dist: Distance)
    requires Ascending(stops, ByDistance) && s in stops
    ensures StoodFor(Deduped(stops, dist), s, dist)
  {
    var front, last := stops[..|stops| - 1], stops[|stops| - 1];
    var kept := Deduped(front, dist);
    if s in front {
      DedupedCovers(front, s, dist);
      StoodForMore(kept, if Repeated(kept, last, dist) then [] else [last], s, dist);
    } else if Repeated(kept, last, dist) {
      var i: nat :| i < |kept| && Repeats(kept[i], last, dist);
      DedupedFrom(front, dist);
      assert kept[i] in front;
      var k: nat :| k < |front| && front[k] == kept[i];
      assert ByDistance(stops[k]) <= ByDistance(last);
      assert Deduped(stops, dist)[i] == kept[i];
    } else {
      assert Deduped(stops, dist)[|kept|] == s;
    }
  }

  /** What the list shows, and why anything mapped is missing from it. */
  lemma TransitCharacterised(elements: seq<Element>, origin: Point, dist: Distance)
    ensures var stops := Stops(elements, origin, dist);
            var shown := Deduped(Sort(stops, ByDistance), dist);
            && (forall s | s in shown :: s in stops)
            && Spread(shown, dist)
            && (forall s | s in stops :: StoodFor(shown, s, dist))
  {
    var stops := Stops(elements, origin, dist);
    var sorted := Sort(stops, ByDistance);
    SortSorts(stops, ByDistance);
    SameMembers(stops, sorted);
    DedupedFrom(sorted, dist);
    DedupedSpread(sorted, dist);
    forall s | s in stops ensures StoodFor(Deduped(sorted, dist), s, dist) {
      DedupedCovers(sorted, s, dist);
    }
  }

  lemma SameMembers(a: seq<Stop>, b: seq<Stop>)
    requires multiset(a) == multiset(b)
    ensures forall s :: s in a <==> s in b
  {
    forall s ensures s in a <==> s in b {
      assert s in a <==> s in multiset(a);
    }
  }

  /** All unnamed stops of a kind share one made-up name, so at most one of them is shown. */
  lemma OneUnnamedPerKind(elements: seq<Element>, origin: Point, dist: Distance, i: nat, j: nat, kind: Kind)
    requires var shown := Deduped(Sort(Stops(elements, origin, dist), ByDistance), dist);
             && i < |shown| && j < |shown|
             && shown[i].name == shown[j].name == MadeUpName(kind)
    ensures i == j
  {
    TransitCharacterised(elements, origin, dist);
  }
}
