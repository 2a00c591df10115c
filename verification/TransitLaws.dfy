/** When every name's nearest stop is listed, and what is lost when not. */
module TransitLaws {
  import opened Wrappers
  import opened Text
  import opened Sequences
  import opened Sorting
  import opened Transit
  import Search

  /** The first stop of every name: the nearest, in a list sorted by distance. */
  function Nearest(stops: seq<Stop>): seq<Stop> {
    if stops == [] then []
    else
      var kept, s := Nearest(stops[..|stops| - 1]), stops[|stops| - 1];
      kept + if SameNameIn(kept, s) then [] else [s]
  }

  /** No stop is on top of one listed before it. */
  ghost predicate Apart(kept: seq<Stop>, dist: Distance) {
    forall i, j | 0 <= i < j < |kept| :: !OnTop(kept[i], kept[j], dist)
  }

  ghost predicate AllIn(some: seq<Stop>, all: seq<Stop>) {
    forall s | s in some :: s in all
  }

  // -------------------------------------------------------------- one step

  lemma NearestLast(stops: seq<Stop>)
    requires stops != []
    ensures var kept, s := Nearest(stops[..|stops| - 1]), stops[|stops| - 1];
            Nearest(stops) == if SameNameIn(kept, s) then kept else kept + [s]
  {
  }

  lemma DedupedLast(stops: seq<Stop>, dist: Distance)
    requires stops != []
    ensures var kept, s := Deduped(stops[..|stops| - 1], dist), stops[|stops| - 1];
            Deduped(stops, dist) == if Repeated(kept, s, dist) then kept else kept + [s]
  {
  }

  lemma ApartLast(kept: seq<Stop>, s: Stop, dist: Distance)
    ensures Apart(kept + [s], dist) <==> Apart(kept, dist) && !OnTopIn(kept, s, dist)
  {
    var all := kept + [s];
    if Apart(all, dist) {
      forall i, j | 0 <= i < j < |kept| ensures !OnTop(kept[i], kept[j], dist) {
        assert !OnTop(all[i], all[j], dist);
      }
      forall i | 0 <= i < |kept| ensures !OnTop(kept[i], s, dist) {
        assert !OnTop(all[i], all[|kept|], dist);
      }
    }
  }

  lemma SameNameOf(kept: seq<Stop>, s: Stop)
    requires s in kept
    ensures SameNameIn(kept, s)
  {
    var i :| 0 <= i < |kept| && kept[i] == s;
  }

  /** What the list leaves out is repeated by something it keeps. */
  lemma {:induction false} LeftOutIsRepeated(stops: seq<Stop>, s: Stop, dist: Distance)
    requires s in stops && s !in Deduped(stops, dist)
    ensures Repeated(Deduped(stops, dist), s, dist)
  {
    var front, last := stops[..|stops| - 1], stops[|stops| - 1];
    DedupedLast(stops, dist);
    if s != last {
      LeftOutIsRepeated(front, s, dist);
      RepeatedMore(Deduped(front, dist), last, s, dist);
    }
  }

  lemma RepeatedMore(kept: seq<Stop>, last: Stop, s: Stop, dist: Distance)
    requires Repeated(kept, s, dist)
    ensures Repeated(kept + [last], s, dist)
  {
    var i :| 0 <= i < |kept| && Repeats(kept[i], s, dist);
    assert (kept + [last])[i] == kept[i];
  }

  // ------------------------------------------------------ the exact condition

  /** Where no nearest stop is on top of another, the list is the nearest of each name. */
  lemma {:induction false} ApartShowsNearest(stops: seq<Stop>, dist: Distance)
    requires Apart(Nearest(stops), dist)
    ensures Deduped(stops, dist) == Nearest(stops)
  {
    if stops != [] {
      var front, s := stops[..|stops| - 1], stops[|stops| - 1];
      var kept := Nearest(front);
      NearestLast(stops);
      ApartLast(kept, s, dist);
      ApartShowsNearest(front, dist);
      DedupedLast(stops, dist);
      RepeatedEither(kept, s, dist);
    }
  }

  lemma {:induction false} NearestFrom(stops: seq<Stop>)
    ensures AllIn(Nearest(stops), stops)
  {
    if stops != [] {
      NearestFrom(stops[..|stops| - 1]);
    }
  }

  /** What is listed in the end and was mapped before the last stop was listed before it. */
  lemma ListedBefore(stops: seq<Stop>, s: Stop, dist: Distance)
    requires stops != [] && s in stops[..|stops| - 1] && s in Deduped(stops, dist)
    ensures s in Deduped(stops[..|stops| - 1], dist)
  {
    var front := stops[..|stops| - 1];
    DedupedLast(stops, dist);
    if s !in Deduped(front, dist) {
      LeftOutIsRepeated(front, s, dist);
    }
  }

  /** Where every nearest stop is listed, none is on top of another. */
  lemma {:induction false} ShownIsApart(stops: seq<Stop>, dist: Distance)
    requires AllIn(Nearest(stops), Deduped(stops, dist))
    ensures Apart(Nearest(stops), dist)
  {
    if stops != [] {
      var front, s := stops[..|stops| - 1], stops[|stops| - 1];
      var kept := Nearest(front);
      NearestLast(stops);
      NearestFrom(front);
      forall n | n in kept ensures n in Deduped(front, dist) {
        assert n in Nearest(stops);
        ListedBefore(stops, n, dist);
      }
      ShownIsApart(front, dist);
      ApartShowsNearest(front, dist);
      if !SameNameIn(kept, s) {
        assert s in Nearest(stops);
        LastShown(stops, kept, s, dist);
        ApartLast(kept, s, dist);
      }
    }
  }

  lemma LastShown(stops: seq<Stop>, kept: seq<Stop>, s: Stop, dist: Distance)
    requires stops != [] && s == stops[|stops| - 1] && kept == Deduped(stops[..|stops| - 1], dist)
    requires s in Deduped(stops, dist) && !SameNameIn(kept, s)
    ensures !OnTopIn(kept, s, dist)
  {
    DedupedLast(stops, dist);
    RepeatedEither(kept, s, dist);
    if s in kept {
      SameNameOf(kept, s);
    }
  }

  /**
   Every name's nearest stop is listed, and then nothing else is, exactly when none
   of them lies within 120 m of a nearer one of its kind.
   */
  lemma NearestKeptIff(elements: seq<Element>, origin: Point, dist: Distance)
    ensures var sorted := Sort(Stops(elements, origin, dist), ByDistance);
            var shown, nearest := Deduped(sorted, dist), Nearest(sorted);
            && (AllIn(nearest, shown) <==> Apart(nearest, dist))
            && (shown == nearest <==> Apart(nearest, dist))
  {
    var sorted := Sort(Stops(elements, origin, dist), ByDistance);
    if Apart(Nearest(sorted), dist) {
      ApartShowsNearest(sorted, dist);
    }
    if AllIn(Nearest(sorted), Deduped(sorted, dist)) {
      ShownIsApart(sorted, dist);
    }
  }

  // --------------------------------------------------------- what that means

  /** The stop at i is the first of its name. */
  ghost predicate FirstOfName(stops: seq<Stop>, i: nat) {
    i < |stops| && forall j | 0 <= j < i :: NameKey(stops[j]) != NameKey(stops[i])
  }

  ghost predicate IsFirstOfName(stops: seq<Stop>, s: Stop) {
    exists i: nat :: FirstOfName(stops, i) && stops[i] == s
  }

  lemma {:induction false} NamesCovered(stops: seq<Stop>, s: Stop)
    ensures SameNameIn(Nearest(stops), s) <==> SameNameIn(stops, s)
  {
    if stops != [] {
      var front, last := stops[..|stops| - 1], stops[|stops| - 1];
      NamesCovered(front, s);
      NearestLast(stops);
      FrontAndLast(stops);
      SameNameLast(front, last, s);
      if SameNameIn(Nearest(front), last) {
        if NameKey(last) == NameKey(s) {
          SameNameSwaps(Nearest(front), last, s);
        }
      } else {
        SameNameLast(Nearest(front), last, s);
      }
    }
  }

  lemma SameNameLast(kept: seq<Stop>, last: Stop, s: Stop)
    ensures SameNameIn(kept + [last], s) <==> SameNameIn(kept, s) || NameKey(last) == NameKey(s)
  {
    var all := kept + [last];
    if SameNameIn(kept, s) {
      var k :| 0 <= k < |kept| && NameKey(kept[k]) == NameKey(s);
      assert all[k] == kept[k];
    }
    assert all[|kept|] == last;
    if SameNameIn(all, s) {
      var k :| 0 <= k < |all| && NameKey(all[k]) == NameKey(s);
      assert k < |kept| ==> all[k] == kept[k];
    }
  }

  lemma SameNameSwaps(kept: seq<Stop>, a: Stop, b: Stop)
    requires SameNameIn(kept, a) && NameKey(a) == NameKey(b)
    ensures SameNameIn(kept, b)
  {
  }

  lemma NearestMember(stops: seq<Stop>, s: Stop)
    requires stops != []
    ensures var front, last := stops[..|stops| - 1], stops[|stops| - 1];
            s in Nearest(stops) <==> s in Nearest(front) || (s == last && !SameNameIn(front, last))
  {
    NearestLast(stops);
    NamesCovered(stops[..|stops| - 1], stops[|stops| - 1]);
  }

  lemma FirstMember(stops: seq<Stop>, s: Stop)
    requires stops != []
    ensures var front, last := stops[..|stops| - 1], stops[|stops| - 1];
            IsFirstOfName(stops, s) <==> IsFirstOfName(front, s) || (s == last && !SameNameIn(front, last))
  {
    var front, last := stops[..|stops| - 1], stops[|stops| - 1];
    FirstLast(front, last, s);
    FrontAndLast(stops);
  }

  lemma {:induction false} NearestIffFirst(stops: seq<Stop>, s: Stop)
    ensures s in Nearest(stops) <==> IsFirstOfName(stops, s)
  {
    if stops != [] {
      NearestIffFirst(stops[..|stops| - 1], s);
      NearestMember(stops, s);
      FirstMember(stops, s);
    }
  }

  lemma FirstLast(front: seq<Stop>, last: Stop, s: Stop)
    ensures IsFirstOfName(front + [last], s) <==> IsFirstOfName(front, s) || (s == last && !SameNameIn(front, last))
  {
    if IsFirstOfName(front, s) {
      var i: nat :| FirstOfName(front, i) && front[i] == s;
      FirstIn(front, last, i);
    }
    FirstAtEnd(front, last);
    if IsFirstOfName(front + [last], s) {
      var i: nat :| FirstOfName(front + [last], i) && (front + [last])[i] == s;
      if i < |front| {
        FirstIn(front, last, i);
      }
    }
  }

  lemma FirstIn(front: seq<Stop>, last: Stop, i: nat)
    requires i < |front|
    ensures FirstOfName(front + [last], i) <==> FirstOfName(front, i)
  {
    var all := front + [last];
    assert all[i] == front[i] && forall j | 0 <= j < i :: all[j] == front[j];
  }

  lemma FirstAtEnd(front: seq<Stop>, last: Stop)
    ensures FirstOfName(front + [last], |front|) <==> !SameNameIn(front, last)
    ensures (front + [last])[|front|] == last
  {
    var all := front + [last];
    assert forall j | 0 <= j < |front| :: all[j] == front[j];
  }

  /** No mapped stop bears the name made up for stops without one. */
  ghost predicate Genuine(stops: seq<Stop>) {
    forall s, k | s in stops && NameKey(s) == Key(MadeUpName(k)) :: Unnamed(s, k)
  }

  predicate Unnamed(s: Stop, k: Kind) {
    s.kind == k && s.name == MadeUpName(k)
  }

  function Key(name: string): string {
    Lower(Strip(name))
  }

  /** Nobody without a name, of that kind, comes before it. */
  ghost predicate NearestUnnamed(stops: seq<Stop>, s: Stop, k: Kind) {
    exists i: nat :: i < |stops| && stops[i] == s && Unnamed(s, k) && forall j | 0 <= j < i :: !Unnamed(stops[j], k)
  }

  /**
   So where none is on top of another, an unnamed stop is listed exactly when it is the
   nearest unnamed one of its kind: the others are lost wherever they are.
   */
  lemma UnnamedListedIff(elements: seq<Element>, origin: Point, dist: Distance, s: Stop, k: Kind)
    requires var sorted := Sort(Stops(elements, origin, dist), ByDistance);
             Apart(Nearest(sorted), dist) && Genuine(sorted) && Unnamed(s, k)
    ensures var sorted := Sort(Stops(elements, origin, dist), ByDistance);
            s in Deduped(sorted, dist) <==> NearestUnnamed(sorted, s, k)
  {
    var sorted := Sort(Stops(elements, origin, dist), ByDistance);
    ApartShowsNearest(sorted, dist);
    NearestIffFirst(sorted, s);
    if IsFirstOfName(sorted, s) {
      var i: nat :| FirstOfName(sorted, i) && sorted[i] == s;
      forall j | 0 <= j < i ensures !Unnamed(sorted[j], k) {
        assert NameKey(sorted[j]) != NameKey(s);
      }
    }
    if NearestUnnamed(sorted, s, k) {
      var i: nat :| i < |sorted| && sorted[i] == s && forall j | 0 <= j < i :: !Unnamed(sorted[j], k);
      forall j | 0 <= j < i ensures NameKey(sorted[j]) != NameKey(s) {
        assert sorted[j] in sorted;
      }
      assert FirstOfName(sorted, i);
    }
  }

  // -------------------------------------------------------------- two inputs

  function Gap(a: Point, b: Point): real {
    if a.lat < b.lat then b.lat - a.lat else a.lat - b.lat
  }

  const HERE := Search.Point(0.0, 0.0)

  function BusStop(metres: real, name: Option<string>): Element {
    Element(Some(Search.Point(metres, 0.0)), name, None, None)
  }

  function ListOf(elements: seq<Element>): seq<Stop> {
    Deduped(Sort(Stops(elements, HERE, Gap), ByDistance), Gap)
  }

  function StopAt(metres: int, name: string): Stop {
    Stop(Bus, name, Search.Point(metres as real, 0.0), metres)
  }

  lemma TwoStops(a: int, b: int, x: Option<string>, y: Option<string>)
    requires 0 <= a < b
    ensures var p := StopAt(a, NameOf(BusStop(a as real, x)));
            var q := StopAt(b, NameOf(BusStop(b as real, y)));
            && Sort(Stops([BusStop(a as real, x), BusStop(b as real, y)], HERE, Gap), ByDistance) == [p, q]
            && ListOf([BusStop(a as real, x), BusStop(b as real, y)]) == if Repeats(p, q, Gap) then [p] else [p, q]
  {
    var e, f := BusStop(a as real, x), BusStop(b as real, y);
    var p, q := StopAt(a, NameOf(e)), StopAt(b, NameOf(f));
    assert [e, f][..1] == [e] && [e][..0] == [];
    assert Stops([e], HERE, Gap) == [p];
    assert Stops([e, f], HERE, Gap) == [p, q];
    SortFixed([p, q], ByDistance);
    PairDeduped(p, q, Gap);
  }

  lemma PairDeduped(p: Stop, q: Stop, dist: Distance)
    ensures Deduped([p, q], dist) == if Repeats(p, q, dist) then [p] else [p, q]
  {
    assert [p, q][..1] == [p] && [p][..0] == [];
    assert Deduped([], dist) == [];
    assert Deduped([p], dist) == [p];
    assert Repeated([p], q, dist) <==> Repeats([p][0], q, dist);
  }

  /** A named stop is lost to a nearer one without a name. */
  lemma NamedStopLost()
    ensures ListOf([BusStop(10.0, None), BusStop(20.0, Some("A"))]) == [StopAt(10, MadeUpName(Bus))]
  {
    TwoStops(10, 20, None, Some("A"));
  }

  /** Of two stops without a name, 490 m apart and with no other mapped, the farther is lost. */
  lemma UnnamedStopLost()
    ensures ListOf([BusStop(10.0, None), BusStop(500.0, None)]) == [StopAt(10, MadeUpName(Bus))]
  {
    TwoStops(10, 500, None, None);
  }
}
