/**
 The figures of the aggregate as formulas over the reviews given: weighted sums, with
 weights told from anniversaries and verification.
 */
module AggregateLaws {
  import opened Wrappers
  import opened Rounding
  import opened Scoring
  import opened ScoringLaws

  /** The sum of a figure over all reviews. */
  function Over(rs: seq<ReviewScore>, f: ReviewScore -> real): real {
    if rs == [] then 0.0 else Over(rs[..|rs| - 1], f) + f(rs[|rs| - 1])
  }

  /** Dates of the calendar, by their day. */
  predicate OnCalendar(d: Date) {
    1 <= d.month <= 12 && 1 <= d.day <= 31
  }

  function DayNumber(d: Date): int {
    (d.year * 12 + d.month) * 31 + d.day
  }

  lemma BeforeIff(a: Date, b: Date)
    requires OnCalendar(a) && OnCalendar(b)
    ensures a.Before(b) <==> DayNumber(a) < DayNumber(b)
  {
  }

  /** Not from before the management changed. */
  predicate Current(r: ReviewScore, cutoff: Option<Date>) {
    cutoff.None? || DayNumber(r.createdAt) >= DayNumber(cutoff.value)
  }

  /** The weight of a review: by the anniversaries passed, half as much again when verified. */
  function Weighs(r: ReviewScore, asOf: Date): real {
    var posted, today := r.createdAt, DayNumber(asOf);
    var plain := if today < DayNumber(Advance(posted, 13)) then 1.0
                 else if today < DayNumber(Advance(posted, 25)) then 0.75
                 else if today < DayNumber(Advance(posted, 37)) then 0.5
                 else 0.25;
    if r.verified then 1.5 * plain else plain
  }

  function RatingOr0(ratings: Ratings, d: Dimension): int {
    if d in ratings then ratings[d] else 0
  }

  /** The mean of the ratings a review gives. */
  function MeanRating(ratings: Ratings): real {
    var total := RatingOr0(ratings, Landlord) + RatingOr0(ratings, Agent) + RatingOr0(ratings, Property)
                 + RatingOr0(ratings, Water) + RatingOr0(ratings, Power) + RatingOr0(ratings, Security)
                 + RatingOr0(ratings, Noise) + RatingOr0(ratings, Flooding) + RatingOr0(ratings, Neighbourhood)
                 + RatingOr0(ratings, Value);
    if |ratings| == 0 then 0.0 else total as real / |ratings| as real
  }

  lemma {:induction false} OverIncluded(rs: seq<ReviewScore>, cutoff: Option<Date>, asOf: Date, t: Term,
                                        f: ReviewScore -> real)
    requires forall r | r in rs :: f(r) == if Counts(r, cutoff) then t.Of(r, asOf) else 0.0
    ensures Over(rs, f) == Sum(Included(rs, cutoff), asOf, t)
  {
    if rs != [] {
      var front, last := rs[..|rs| - 1], rs[|rs| - 1];
      OverIncluded(front, cutoff, asOf, t, f);
      assert last in rs;
      SumOneMore(Included(front, cutoff), last, asOf, t);
    }
  }

  lemma SumOneMore(rs: seq<ReviewScore>, r: ReviewScore, asOf: Date, t: Term)
    ensures Sum(rs + [r], asOf, t) == Sum(rs, asOf, t) + t.Of(r, asOf)
  {
    assert (rs + [r])[..|rs|] == rs;
  }

  // ------------------------------------------------------ weights and means

  lemma AdvanceStays(d: Date, m: nat)
    requires OnCalendar(d)
    ensures OnCalendar(Advance(d, m))
  {
  }

  lemma WeighsIs(r: ReviewScore, asOf: Date)
    requires OnCalendar(r.createdAt) && OnCalendar(asOf)
    ensures Weighs(r, asOf) == ReviewWeight(r, asOf)
  {
    WeightByAnniversary(r, asOf);
    AnniversaryOrder(r, asOf, 13);
    AnniversaryOrder(r, asOf, 25);
    AnniversaryOrder(r, asOf, 37);
  }

  lemma AnniversaryOrder(r: ReviewScore, asOf: Date, m: nat)
    requires OnCalendar(r.createdAt) && OnCalendar(asOf)
    ensures asOf.Before(Advance(r.createdAt, m)) <==> DayNumber(asOf) < DayNumber(Advance(r.createdAt, m))
  {
    AdvanceStays(r.createdAt, m);
    BeforeIff(asOf, Advance(r.createdAt, m));
  }

  function TotalRating(ratings: Ratings, dims: seq<Dimension>): int {
    if dims == [] then 0 else RatingOr0(ratings, dims[0]) + TotalRating(ratings, dims[1..])
  }

  lemma {:induction false} PresentTotal(ratings: Ratings, dims: seq<Dimension>)
    ensures SumInts(PresentValues(ratings, dims)) == TotalRating(ratings, dims)
  {
    if dims != [] {
      PresentTotal(ratings, dims[1..]);
      if dims[0] in ratings {
        assert ([ratings[dims[0]]] + PresentValues(ratings, dims[1..]))[1..] == PresentValues(ratings, dims[1..]);
      } else {
        assert PresentValues(ratings, dims) == PresentValues(ratings, dims[1..]);
      }
    }
  }

  function Given(ratings: Ratings, dims: seq<Dimension>): set<Dimension> {
    set d | d in dims && d in ratings
  }

  lemma GivenStep(ratings: Ratings, d: Dimension, rest: seq<Dimension>)
    requires d !in rest
    ensures |Given(ratings, [d] + rest)| == |Given(ratings, rest)| + if d in ratings then 1 else 0
  {
    assert Given(ratings, [d] + rest) == Given(ratings, rest) + if d in ratings then {d} else {};
  }

  lemma PresentStep(ratings: Ratings, d: Dimension, rest: seq<Dimension>)
    ensures |PresentValues(ratings, [d] + rest)| == |PresentValues(ratings, rest)| + if d in ratings then 1 else 0
  {
    assert ([d] + rest)[1..] == rest;
  }

  lemma {:induction false} PresentCount(ratings: Ratings, dims: seq<Dimension>)
    requires forall i, j | 0 <= i < j < |dims| :: dims[i] != dims[j]
    ensures |PresentValues(ratings, dims)| == |Given(ratings, dims)|
  {
    if dims == [] {
      assert Given(ratings, dims) == {};
    } else {
      var d, rest := dims[0], dims[1..];
      assert dims == [d] + rest && d !in rest;
      PresentCount(ratings, rest);
      PresentStep(ratings, d, rest);
      GivenStep(ratings, d, rest);
    }
  }

  lemma TotalStep(ratings: Ratings, d: Dimension, rest: seq<Dimension>)
    ensures TotalRating(ratings, [d] + rest) == RatingOr0(ratings, d) + TotalRating(ratings, rest)
  {
    assert ([d] + rest)[1..] == rest;
  }

  lemma TotalOfFive(ratings: Ratings, a: Dimension, b: Dimension, c: Dimension, d: Dimension, e: Dimension,
                    rest: seq<Dimension>)
    ensures TotalRating(ratings, [a, b, c, d, e] + rest)
            == RatingOr0(ratings, a) + RatingOr0(ratings, b) + RatingOr0(ratings, c) + RatingOr0(ratings, d)
               + RatingOr0(ratings, e) + TotalRating(ratings, rest)
  {
    TotalStep(ratings, e, rest);
    TotalStep(ratings, d, [e] + rest);
    TotalStep(ratings, c, [d] + ([e] + rest));
    TotalStep(ratings, b, [c] + ([d] + ([e] + rest)));
    TotalStep(ratings, a, [b] + ([c] + ([d] + ([e] + rest))));
    assert [a] + ([b] + ([c] + ([d] + ([e] + rest)))) == [a, b, c, d, e] + rest;
  }

  lemma TotalOfTen(ratings: Ratings)
    ensures TotalRating(ratings, DIMENSIONS)
            == RatingOr0(ratings, Landlord) + RatingOr0(ratings, Agent) + RatingOr0(ratings, Property)
               + RatingOr0(ratings, Water) + RatingOr0(ratings, Power) + RatingOr0(ratings, Security)
               + RatingOr0(ratings, Noise) + RatingOr0(ratings, Flooding) + RatingOr0(ratings, Neighbourhood)
               + RatingOr0(ratings, Value)
  {
    var last := [Security, Noise, Flooding, Neighbourhood, Value];
    TotalOfFive(ratings, Landlord, Agent, Property, Water, Power, last);
    TotalOfFive(ratings, Security, Noise, Flooding, Neighbourhood, Value, []);
    assert last + [] == last;
    assert DIMENSIONS == [Landlord, Agent, Property, Water, Power] + last;
  }

  lemma CountOfTen(ratings: Ratings)
    ensures |PresentValues(ratings, DIMENSIONS)| == |ratings|
  {
    DimensionsListed();
    PresentCount(ratings, DIMENSIONS);
    assert Given(ratings, DIMENSIONS) == ratings.Keys;
  }

  lemma MeanIs(ratings: Ratings)
    ensures MeanRating(ratings) == ReviewAggregate(ratings)
  {
    PresentTotal(ratings, DIMENSIONS);
    TotalOfTen(ratings);
    CountOfTen(ratings);
  }

  // ------------------------------------------------------------- the formulas

  ghost predicate AllOnCalendar(rs: seq<ReviewScore>, asOf: Date, cutoff: Option<Date>) {
    && OnCalendar(asOf) && (cutoff.Some? ==> OnCalendar(cutoff.value))
    && forall r | r in rs :: OnCalendar(r.createdAt)
  }

  lemma CurrentIff(r: ReviewScore, cutoff: Option<Date>)
    requires OnCalendar(r.createdAt) && (cutoff.Some? ==> OnCalendar(cutoff.value))
    ensures Current(r, cutoff) <==> Counts(r, cutoff)
  {
    if cutoff.Some? {
      BeforeIff(r.createdAt, cutoff.value);
    }
  }

  function Times(w: real, x: real): real {
    w * x
  }

  function WeightIn(asOf: Date, cutoff: Option<Date>): ReviewScore -> real {
    r => if Current(r, cutoff) then Weighs(r, asOf) else 0.0
  }

  function MeanIn(asOf: Date, cutoff: Option<Date>): ReviewScore -> real {
    r => if Current(r, cutoff) then Times(Weighs(r, asOf), MeanRating(r.ratings)) else 0.0
  }

  function RatedIn(asOf: Date, cutoff: Option<Date>, d: Dimension): ReviewScore -> real {
    r => if Current(r, cutoff) && d in r.ratings then Weighs(r, asOf) else 0.0
  }

  function RatingIn(asOf: Date, cutoff: Option<Date>, d: Dimension): ReviewScore -> real {
    r => if Current(r, cutoff) && d in r.ratings then Times(Weighs(r, asOf), r.ratings[d] as real) else 0.0
  }

  lemma WeightAt(r: ReviewScore, asOf: Date, cutoff: Option<Date>)
    requires OnCalendar(r.createdAt) && OnCalendar(asOf) && (cutoff.Some? ==> OnCalendar(cutoff.value))
    ensures WeightIn(asOf, cutoff)(r) == if Counts(r, cutoff) then Weight.Of(r, asOf) else 0.0
  {
    CurrentIff(r, cutoff);
    WeighsIs(r, asOf);
  }

  lemma WeightSum(rs: seq<ReviewScore>, asOf: Date, cutoff: Option<Date>)
    requires AllOnCalendar(rs, asOf, cutoff)
    ensures Over(rs, WeightIn(asOf, cutoff)) == Sum(Included(rs, cutoff), asOf, Weight)
  {
    forall r | r in rs
      ensures WeightIn(asOf, cutoff)(r) == if Counts(r, cutoff) then Weight.Of(r, asOf) else 0.0
    {
      WeightAt(r, asOf, cutoff);
    }
    OverIncluded(rs, cutoff, asOf, Weight, WeightIn(asOf, cutoff));
  }

  lemma MeanTerm(r: ReviewScore, asOf: Date)
    requires OnCalendar(r.createdAt) && OnCalendar(asOf)
    ensures Times(Weighs(r, asOf), MeanRating(r.ratings)) == Mean.Of(r, asOf)
  {
    WeighsIs(r, asOf);
    MeanIs(r.ratings);
    TermIs(r, asOf, Weighs(r, asOf), MeanRating(r.ratings));
  }

  lemma TermIs(r: ReviewScore, asOf: Date, w: real, m: real)
    requires w == ReviewWeight(r, asOf) && m == ReviewAggregate(r.ratings)
    ensures Times(w, m) == Mean.Of(r, asOf)
  {
  }

  lemma MeanAt(r: ReviewScore, asOf: Date, cutoff: Option<Date>)
    requires OnCalendar(r.createdAt) && OnCalendar(asOf) && (cutoff.Some? ==> OnCalendar(cutoff.value))
    ensures MeanIn(asOf, cutoff)(r) == if Counts(r, cutoff) then Mean.Of(r, asOf) else 0.0
  {
    CurrentIff(r, cutoff);
    MeanTerm(r, asOf);
  }

  lemma MeanSum(rs: seq<ReviewScore>, asOf: Date, cutoff: Option<Date>)
    requires AllOnCalendar(rs, asOf, cutoff)
    ensures Over(rs, MeanIn(asOf, cutoff)) == Sum(Included(rs, cutoff), asOf, Mean)
  {
    forall r | r in rs
      ensures MeanIn(asOf, cutoff)(r) == if Counts(r, cutoff) then Mean.Of(r, asOf) else 0.0
    {
      MeanAt(r, asOf, cutoff);
    }
    OverIncluded(rs, cutoff, asOf, Mean, MeanIn(asOf, cutoff));
  }

  lemma RatedAt(r: ReviewScore, asOf: Date, cutoff: Option<Date>, d: Dimension)
    requires OnCalendar(r.createdAt) && OnCalendar(asOf) && (cutoff.Some? ==> OnCalendar(cutoff.value))
    ensures RatedIn(asOf, cutoff, d)(r) == if Counts(r, cutoff) then Rated(d).Of(r, asOf) else 0.0
  {
    CurrentIff(r, cutoff);
    WeighsIs(r, asOf);
  }

  lemma RatedSum(rs: seq<ReviewScore>, asOf: Date, cutoff: Option<Date>, d: Dimension)
    requires AllOnCalendar(rs, asOf, cutoff)
    ensures Over(rs, RatedIn(asOf, cutoff, d)) == Sum(Included(rs, cutoff), asOf, Rated(d))
  {
    forall r | r in rs
      ensures RatedIn(asOf, cutoff, d)(r) == if Counts(r, cutoff) then Rated(d).Of(r, asOf) else 0.0
    {
      RatedAt(r, asOf, cutoff, d);
    }
    OverIncluded(rs, cutoff, asOf, Rated(d), RatedIn(asOf, cutoff, d));
  }

  lemma RatingAt(r: ReviewScore, asOf: Date, cutoff: Option<Date>, d: Dimension)
    requires OnCalendar(r.createdAt) && OnCalendar(asOf) && (cutoff.Some? ==> OnCalendar(cutoff.value))
    ensures RatingIn(asOf, cutoff, d)(r) == if Counts(r, cutoff) then Mass(d).Of(r, asOf) else 0.0
  {
    CurrentIff(r, cutoff);
    WeighsIs(r, asOf);
  }

  lemma RatingSum(rs: seq<ReviewScore>, asOf: Date, cutoff: Option<Date>, d: Dimension)
    requires AllOnCalendar(rs, asOf, cutoff)
    ensures Over(rs, RatingIn(asOf, cutoff, d)) == Sum(Included(rs, cutoff), asOf, Mass(d))
  {
    forall r | r in rs
      ensures RatingIn(asOf, cutoff, d)(r) == if Counts(r, cutoff) then Mass(d).Of(r, asOf) else 0.0
    {
      RatingAt(r, asOf, cutoff, d);
    }
    OverIncluded(rs, cutoff, asOf, Mass(d), RatingIn(asOf, cutoff, d));
  }

  ghost function CurrentPlaces(rs: seq<ReviewScore>, cutoff: Option<Date>): set<nat> {
    set i: nat | i < |rs| && Current(rs[i], cutoff)
  }

  lemma {:induction false} IncludedAre(rs: seq<ReviewScore>, cutoff: Option<Date>)
    requires (cutoff.Some? ==> OnCalendar(cutoff.value)) && forall r | r in rs :: OnCalendar(r.createdAt)
    ensures |Included(rs, cutoff)| == |CurrentPlaces(rs, cutoff)|
  {
    if rs == [] {
      assert CurrentPlaces(rs, cutoff) == {};
    } else {
      var k := |rs| - 1;
      IncludedAre(rs[..k], cutoff);
      assert rs[k] in rs;
      CurrentIff(rs[k], cutoff);
      PlacesGrow(rs, k, cutoff);
    }
  }

  lemma PlacesGrow(rs: seq<ReviewScore>, k: nat, cutoff: Option<Date>)
    requires k + 1 == |rs|
    ensures |CurrentPlaces(rs, cutoff)| == |CurrentPlaces(rs[..k], cutoff)| + if Current(rs[k], cutoff) then 1 else 0
  {
    assert CurrentPlaces(rs, cutoff) == CurrentPlaces(rs[..k], cutoff) + if Current(rs[k], cutoff) then {k} else {};
  }

  /**
   The headline is the mean of the reviews' own means, weighted, to two decimals; there is
   none exactly when no review is current.
   */
  lemma HeadlineIs(rs: seq<ReviewScore>, asOf: Date, cutoff: Option<Date>)
    requires AllOnCalendar(rs, asOf, cutoff)
    ensures var result, counted := Aggregate(rs, asOf, cutoff), |CurrentPlaces(rs, cutoff)|;
            && result.counted == counted && result.excludedPriorMgmt == |rs| - counted
            && if counted == 0 then result.overall == None
               else
                 && Over(rs, WeightIn(asOf, cutoff)) > 0.0
                 && result.overall
                    == Some(Round2(Over(rs, MeanIn(asOf, cutoff)) / Over(rs, WeightIn(asOf, cutoff))))
  {
    IncludedAre(rs, cutoff);
    WeightSum(rs, asOf, cutoff);
    MeanSum(rs, asOf, cutoff);
    if Included(rs, cutoff) != [] {
      WeightsArePositive(Included(rs, cutoff), asOf);
    }
  }

  /** A bar is the weighted mean of the ratings given for it, to two decimals. */
  lemma BarIs(rs: seq<ReviewScore>, asOf: Date, cutoff: Option<Date>, d: Dimension)
    requires AllOnCalendar(rs, asOf, cutoff)
    ensures var bars := Aggregate(rs, asOf, cutoff).perDimension;
            && (d in bars <==> exists i :: 0 <= i < |rs| && Current(rs[i], cutoff) && d in rs[i].ratings)
            && (d in bars ==>
                  && Over(rs, RatedIn(asOf, cutoff, d)) > 0.0
                  && bars[d] == Round2(Over(rs, RatingIn(asOf, cutoff, d)) / Over(rs, RatedIn(asOf, cutoff, d))))
  {
    RatedSum(rs, asOf, cutoff, d);
    RatingSum(rs, asOf, cutoff, d);
    BarsShown(rs, asOf, cutoff, d);
    CurrentRated(rs, cutoff, d);
  }

  lemma {:induction false} CurrentRated(rs: seq<ReviewScore>, cutoff: Option<Date>, d: Dimension)
    requires (cutoff.Some? ==> OnCalendar(cutoff.value)) && forall r | r in rs :: OnCalendar(r.createdAt)
    ensures (exists r :: r in Included(rs, cutoff) && d in r.ratings)
            <==> exists i :: 0 <= i < |rs| && Current(rs[i], cutoff) && d in rs[i].ratings
  {
    if rs != [] {
      var k := |rs| - 1;
      CurrentRated(rs[..k], cutoff, d);
      assert rs[k] in rs;
      CurrentIff(rs[k], cutoff);
    }
  }
}
