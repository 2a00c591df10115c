/**
 What the aggregate of app/core/scoring.py promises: the headline agrees with the
 breakdown, order does not matter, scores stay on the 1-5 scale, and raising a
 rating never lowers a score.
 */
module ScoringLaws {
  import opened Wrappers
  import opened Rounding
  import opened Scoring

  predicate OnScale(r: ReviewScore) {
    forall d | d in r.ratings :: 1 <= r.ratings[d] <= 5
  }

  predicate Complete(r: ReviewScore) {
    forall d: Dimension :: d in r.ratings
  }

  // ------------------------------------------------------------------ weights

  /** The same day of the month, m months on. */
  function Advance(d: Date, m: nat): Date {
    var n := d.month - 1 + m;
    Date(d.year + n / 12, n % 12 + 1, d.day)
  }

  /** An age of m months: the m-th monthly anniversary has come and the next has not. */
  lemma MonthsBetweenCountsAnniversaries(earlier: Date, later: Date, m: nat)
    requires 1 <= earlier.month <= 12 && 1 <= later.month <= 12
    requires !later.Before(earlier)
    ensures MonthsBetween(earlier, later) == m
            <==> !later.Before(Advance(earlier, m)) && later.Before(Advance(earlier, m + 1))
  {
    var a, b := Advance(earlier, m), Advance(earlier, m + 1);
    assert a.year * 12 + a.month == earlier.year * 12 + earlier.month + m;
    assert b.year * 12 + b.month == earlier.year * 12 + earlier.month + m + 1;
  }

  /** A date still to come is no months old. */
  lemma YetToCome(earlier: Date, later: Date)
    requires 1 <= earlier.month <= 12 && 1 <= later.month <= 12 && later.Before(earlier)
    ensures MonthsBetween(earlier, later) == 0
  {
  }

  lemma AgeAtMost(earlier: Date, later: Date, m: nat)
    requires 1 <= earlier.month <= 12 && 1 <= later.month <= 12
    ensures MonthsBetween(earlier, later) <= m <==> later.Before(Advance(earlier, m + 1))
  {
    var b := Advance(earlier, m + 1);
    assert b.year * 12 + b.month == earlier.year * 12 + earlier.month + m + 1;
  }

  /**
   A review weighs 1 until thirteen months have passed, 0.75 until twenty-five, 0.5 until
   thirty-seven and 0.25 from then on; half as much again when the tenancy is verified.
   */
  lemma WeightByAnniversary(r: ReviewScore, asOf: Date)
    requires 1 <= r.createdAt.month <= 12 && 1 <= asOf.month <= 12
    ensures var plain := if asOf.Before(Advance(r.createdAt, 13)) then 1.0
                         else if asOf.Before(Advance(r.createdAt, 25)) then 0.75
                         else if asOf.Before(Advance(r.createdAt, 37)) then 0.5
                         else 0.25;
            ReviewWeight(r, asOf) == if r.verified then 1.5 * plain else plain
  {
    AgeAtMost(r.createdAt, asOf, 12);
    AgeAtMost(r.createdAt, asOf, 24);
    AgeAtMost(r.createdAt, asOf, 36);
  }

  /** Age never adds weight, and a verified tenancy multiplies it by 1.5 at any age. */
  lemma WeightFallsWithAge(r: ReviewScore, s: ReviewScore, asOf: Date)
    requires MonthsBetween(r.createdAt, asOf) <= MonthsBetween(s.createdAt, asOf)
    ensures r.verified == s.verified ==> ReviewWeight(r, asOf) >= ReviewWeight(s, asOf)
    ensures r.createdAt == s.createdAt && r.verified && !s.verified
            ==> ReviewWeight(r, asOf) == 1.5 * ReviewWeight(s, asOf)
  {
  }

  // ------------------------------------- the headline and the breakdown agree

  /** Sum over dims of the per-dimension weighted sums. */
  function Across(rs: seq<ReviewScore>, asOf: Date, dims: seq<Dimension>): real {
    if dims == [] then 0.0 else Sum(rs, asOf, Mass(dims[0])) + Across(rs, asOf, dims[1..])
  }

  lemma {:induction false} AcrossStep(rs: seq<ReviewScore>, asOf: Date, dims: seq<Dimension>)
    requires rs != [] && Complete(rs[|rs| - 1])
    ensures |PresentValues(rs[|rs| - 1].ratings, dims)| == |dims|
    ensures var r := rs[|rs| - 1];
            Across(rs, asOf, dims)
            == Across(rs[..|rs| - 1], asOf, dims)
               + ReviewWeight(r, asOf) * SumInts(PresentValues(r.ratings, dims)) as real
  {
    if dims != [] {
      AcrossStep(rs, asOf, dims[1..]);
      var r := rs[|rs| - 1];
      var w, v := ReviewWeight(r, asOf), r.ratings[dims[0]];
      var rest := SumInts(PresentValues(r.ratings, dims[1..]));
      assert PresentValues(r.ratings, dims)[1..] == PresentValues(r.ratings, dims[1..]);
      assert w * (v + rest) as real == w * v as real + w * rest as real;
    }
  }

  lemma {:induction false} AcrossNothing(asOf: Date, dims: seq<Dimension>)
    ensures Across([], asOf, dims) == 0.0
  {
    if dims != [] {
      AcrossNothing(asOf, dims[1..]);
    }
  }

  /** The exchange of the two sums: by dimension then review, or by review then dimension. */
  lemma {:induction false} Exchange(rs: seq<ReviewScore>, asOf: Date)
    requires forall r | r in rs :: Complete(r)
    ensures Across(rs, asOf, DIMENSIONS) == 10.0 * Sum(rs, asOf, Mean)
  {
    if rs == [] {
      AcrossNothing(asOf, DIMENSIONS);
    } else {
      var r := rs[|rs| - 1];
      AcrossStep(rs, asOf, DIMENSIONS);
      Exchange(rs[..|rs| - 1], asOf);
      MeanTimesTen(ReviewWeight(r, asOf), SumInts(PresentValues(r.ratings, DIMENSIONS)) as real);
    }
  }

  lemma MeanTimesTen(w: real, s: real)
    ensures 10.0 * (w * (s / 10.0)) == w * s
  {
    assert s / 10.0 * 10.0 == s;
  }

  /** When everyone rates everything, each dimension is weighed by the same total. */
  lemma {:induction false} CompleteWeights(rs: seq<ReviewScore>, asOf: Date, d: Dimension)
    requires forall r | r in rs :: Complete(r)
    ensures Sum(rs, asOf, Rated(d)) == Sum(rs, asOf, Weight)
  {
    if rs != [] {
      CompleteWeights(rs[..|rs| - 1], asOf, d);
      assert Complete(rs[|rs| - 1]);
    }
  }

  /** Sum of the published per-dimension figures. */
  function Bars(perDimension: map<Dimension, real>, dims: seq<Dimension>): real
    requires forall d | d in dims :: d in perDimension
  {
    if dims == [] then 0.0 else perDimension[dims[0]] + Bars(perDimension, dims[1..])
  }

  lemma {:induction false} BarsNearMass(rs: seq<ReviewScore>, asOf: Date, dims: seq<Dimension>)
    requires rs != [] && forall r | r in rs :: Complete(r)
    ensures Sum(rs, asOf, Weight) > 0.0 && forall d | d in dims :: d in Breakdown(rs, asOf)
    ensures var mean := Across(rs, asOf, dims) / Sum(rs, asOf, Weight);
            -0.005 * |dims| as real <= Bars(Breakdown(rs, asOf), dims) - mean <= 0.005 * |dims| as real
  {
    WeightsArePositive(rs, asOf);
    forall d: Dimension ensures d in Breakdown(rs, asOf) { CompleteWeights(rs, asOf, d); }
    if dims != [] {
      BarsNearMass(rs, asOf, dims[1..]);
      CompleteWeights(rs, asOf, dims[0]);
      Round2Near(RawDimension(rs, asOf, dims[0]));
      QuotientSum(Sum(rs, asOf, Mass(dims[0])), Across(rs, asOf, dims[1..]), Sum(rs, asOf, Weight));
    }
  }

  lemma HeadlineNear(headline: real, mean: real, bars: real, total: real)
    requires -0.005 <= headline - mean <= 0.005 && -0.05 <= bars - total <= 0.05 && total == 10.0 * mean
    ensures -0.01 <= headline - bars / 10.0 <= 0.01
  {
  }

  lemma HeadlineAgrees(inc: seq<ReviewScore>, asOf: Date)
    requires inc != [] && forall r | r in inc :: Complete(r)
    ensures Sum(inc, asOf, Weight) > 0.0 && forall d | d in DIMENSIONS :: d in Breakdown(inc, asOf)
    ensures -0.01 <= Round2(RawOverall(inc, asOf)) - Bars(Breakdown(inc, asOf), DIMENSIONS) / 10.0 <= 0.01
  {
    WeightsArePositive(inc, asOf);
    BarsNearMass(inc, asOf, DIMENSIONS);
    Exchange(inc, asOf);
    Round2Near(RawOverall(inc, asOf));
    TenfoldQuotient(Sum(inc, asOf, Mean), Sum(inc, asOf, Weight));
    HeadlineNear(Round2(RawOverall(inc, asOf)), RawOverall(inc, asOf), Bars(Breakdown(inc, asOf), DIMENSIONS),
                 Across(inc, asOf, DIMENSIONS) / Sum(inc, asOf, Weight));
  }

  /**
   When every counted review rates all ten dimensions, the headline score and the
   mean of the ten published dimension scores differ by rounding alone.
   */
  lemma HeadlineAgreesWithBreakdown(reviews: seq<ReviewScore>, asOf: Date, cutoff: Option<Date>)
    requires forall r | r in Included(reviews, cutoff) :: Complete(r)
    requires Included(reviews, cutoff) != []
    ensures var res := Aggregate(reviews, asOf, cutoff);
            && res.overall.Some?
            && (forall d | d in DIMENSIONS :: d in res.perDimension)
            && -0.01 <= res.overall.value - Bars(res.perDimension, DIMENSIONS) / 10.0 <= 0.01
  {
    HeadlineAgrees(Included(reviews, cutoff), asOf);
  }

  lemma QuotientSum(x: real, y: real, w: real)
    requires w > 0.0
    ensures (x + y) / w == x / w + y / w
  {
  }

  lemma TenfoldQuotient(x: real, w: real)
    requires w > 0.0
    ensures 10.0 * x / w == 10.0 * (x / w)
  {
  }

  /** The unrounded headline is exactly the mean of the unrounded dimension scores. */
  lemma UnroundedHeadlineIsMean(rs: seq<ReviewScore>, asOf: Date)
    requires rs != [] && forall r | r in rs :: Complete(r)
    ensures Sum(rs, asOf, Weight) > 0.0
    ensures forall d: Dimension :: Sum(rs, asOf, Rated(d)) == Sum(rs, asOf, Weight)
    ensures 10.0 * RawOverall(rs, asOf) == RawBars(rs, asOf, DIMENSIONS)
  {
    WeightsArePositive(rs, asOf);
    forall d: Dimension ensures Sum(rs, asOf, Rated(d)) == Sum(rs, asOf, Weight) {
      CompleteWeights(rs, asOf, d);
    }
    RawBarsQuotient(rs, asOf, DIMENSIONS);
    Exchange(rs, asOf);
    TenfoldQuotient(Sum(rs, asOf, Mean), Sum(rs, asOf, Weight));
  }

  function RawBars(rs: seq<ReviewScore>, asOf: Date, dims: seq<Dimension>): real
    requires forall d | d in dims :: Sum(rs, asOf, Rated(d)) > 0.0
  {
    if dims == [] then 0.0 else RawDimension(rs, asOf, dims[0]) + RawBars(rs, asOf, dims[1..])
  }

  lemma {:induction false} RawBarsQuotient(rs: seq<ReviewScore>, asOf: Date, dims: seq<Dimension>)
    requires Sum(rs, asOf, Weight) > 0.0
    requires forall d: Dimension :: Sum(rs, asOf, Rated(d)) == Sum(rs, asOf, Weight)
    ensures RawBars(rs, asOf, dims) == Across(rs, asOf, dims) / Sum(rs, asOf, Weight)
  {
    if dims != [] {
      RawBarsQuotient(rs, asOf, dims[1..]);
      QuotientSum(Sum(rs, asOf, Mass(dims[0])), Across(rs, asOf, dims[1..]), Sum(rs, asOf, Weight));
    }
  }

  // -------------------------------------------------------- order is irrelevant

  lemma {:induction false} IncludedCount(rs: seq<ReviewScore>, cutoff: Option<Date>, x: ReviewScore)
    ensures multiset(Included(rs, cutoff))[x] == if Counts(x, cutoff) then multiset(rs)[x] else 0
  {
    if rs != [] {
      IncludedCount(rs[..|rs| - 1], cutoff, x);
      assert rs == rs[..|rs| - 1] + [rs[|rs| - 1]];
    }
  }

  lemma IncludedPermutes(a: seq<ReviewScore>, b: seq<ReviewScore>, cutoff: Option<Date>)
    requires multiset(a) == multiset(b)
    ensures |a| == |b| && multiset(Included(a, cutoff)) == multiset(Included(b, cutoff))
    ensures |Included(a, cutoff)| == |Included(b, cutoff)|
  {
    var p, q := Included(a, cutoff), Included(b, cutoff);
    forall x: ReviewScore
      ensures multiset(p)[x] == multiset(q)[x]
    {
      IncludedCount(a, cutoff, x);
      IncludedCount(b, cutoff, x);
    }
    assert multiset(p) == multiset(q);
    assert |a| == |multiset(a)| == |multiset(b)| == |b|;
    assert |p| == |multiset(p)| == |multiset(q)| == |q|;
  }

  lemma BreakdownPermutes(p: seq<ReviewScore>, q: seq<ReviewScore>, asOf: Date)
    requires multiset(p) == multiset(q)
    ensures Breakdown(p, asOf) == Breakdown(q, asOf)
  {
    forall d: Dimension
      ensures Sum(p, asOf, Rated(d)) == Sum(q, asOf, Rated(d))
      ensures Sum(p, asOf, Mass(d)) == Sum(q, asOf, Mass(d))
    {
      SumPermutation(p, q, asOf, Rated(d));
      SumPermutation(p, q, asOf, Mass(d));
    }
  }

  /** The same reviews in any order give the same result. */
  lemma OrderIrrelevant(a: seq<ReviewScore>, b: seq<ReviewScore>, asOf: Date, cutoff: Option<Date>)
    requires multiset(a) == multiset(b)
    ensures Aggregate(a, asOf, cutoff) == Aggregate(b, asOf, cutoff)
  {
    var p, q := Included(a, cutoff), Included(b, cutoff);
    IncludedPermutes(a, b, cutoff);
    SumPermutation(p, q, asOf, Weight);
    SumPermutation(p, q, asOf, Mean);
    BreakdownPermutes(p, q, asOf);
    assert p == [] <==> q == [];
  }

  /** A bar is shown for exactly the dimensions some counted review rates. */
  lemma BarsShown(reviews: seq<ReviewScore>, asOf: Date, cutoff: Option<Date>, d: Dimension)
    ensures d in Aggregate(reviews, asOf, cutoff).perDimension
            <==> exists r :: r in Included(reviews, cutoff) && d in r.ratings
  {
    var inc := Included(reviews, cutoff);
    RatedPositive(inc, asOf, d);
    if r :| r in inc && d in r.ratings {
      var i :| 0 <= i < |inc| && inc[i] == r;
    }
    if i :| 0 <= i < |inc| && d in inc[i].ratings {
      assert inc[i] in inc;
    }
  }

  // ------------------------------------------------------- bounds and monotony

  /** If one weighted sum is at most another review by review, it is in total. */
  lemma {:induction false} SumMonotone(a: seq<ReviewScore>, b: seq<ReviewScore>, asOf: Date, t: Term)
    requires |a| == |b|
    requires forall i | 0 <= i < |a| :: t.Of(a[i], asOf) <= t.Of(b[i], asOf)
    ensures Sum(a, asOf, t) <= Sum(b, asOf, t)
  {
    if a != [] {
      SumMonotone(a[..|a| - 1], b[..|b| - 1], asOf, t);
    }
  }

  /** From one to five times as much. */
  predicate OneToFive(w: real, m: real) {
    w <= m <= 5.0 * w
  }

  lemma OneToFiveAdds(w: real, m: real, w': real, m': real)
    requires OneToFive(w, m) && OneToFive(w', m')
    ensures OneToFive(w + w', m + m')
  {
  }

  lemma {:induction false} SumBetween(rs: seq<ReviewScore>, asOf: Date, w: Term, m: Term)
    requires forall r | r in rs :: OneToFive(w.Of(r, asOf), m.Of(r, asOf))
    ensures OneToFive(Sum(rs, asOf, w), Sum(rs, asOf, m))
  {
    if rs != [] {
      var front, last := rs[..|rs| - 1], rs[|rs| - 1];
      SumBetween(front, asOf, w, m);
      assert last in rs;
      OneToFiveAdds(Sum(front, asOf, w), Sum(front, asOf, m), w.Of(last, asOf), m.Of(last, asOf));
    }
  }

  lemma {:induction false} PresentBounds(ratings: Ratings, dims: seq<Dimension>)
    requires forall d | d in ratings :: 1 <= ratings[d] <= 5
    ensures var vals := PresentValues(ratings, dims);
            |vals| <= SumInts(vals) <= 5 * |vals|
    ensures PresentValues(ratings, dims) == [] <==> forall d | d in dims :: d !in ratings
  {
    if dims != [] {
      PresentBounds(ratings, dims[1..]);
      var vals, rest := PresentValues(ratings, dims), PresentValues(ratings, dims[1..]);
      if dims[0] in ratings {
        assert vals[1..] == rest;
      } else {
        assert vals == rest;
      }
    }
  }

  lemma MeanOfOnScale(ratings: Ratings, dims: seq<Dimension>)
    requires forall d | d in ratings :: 1 <= ratings[d] <= 5
    requires exists d :: d in dims && d in ratings
    ensures 1.0 <= MeanOf(ratings, dims) <= 5.0
  {
    PresentBounds(ratings, dims);
    var vals := PresentValues(ratings, dims);
    QuotientBounds(1.0, SumInts(vals) as real, 5.0, |vals| as real);
  }

  /** A review's own mean is on the scale as soon as it rates anything. */
  lemma ReviewAggregateOnScale(r: ReviewScore)
    requires OnScale(r) && r.ratings != map[]
    ensures 1.0 <= ReviewAggregate(r.ratings) <= 5.0
  {
    DimensionsListed();
    MeanOfOnScale(r.ratings, DIMENSIONS);
  }

  lemma QuotientBounds(lo: real, x: real, hi: real, w: real)
    requires w > 0.0 && lo * w <= x <= hi * w
    ensures lo <= x / w <= hi
  {
    var q := x / w;
    assert q * w == x;
    if q < lo {
      ProductStrict(q, lo, w);
    } else if q > hi {
      ProductStrict(hi, q, w);
    }
  }

  lemma ProductStrict(x: real, y: real, w: real)
    requires w > 0.0 && x < y
    ensures x * w < y * w
  {
  }

  lemma Round2OnScale(x: real)
    requires 1.0 <= x <= 5.0
    ensures 1.0 <= Round2(x) <= 5.0
  {
    Round2Exact(100);
    Round2Exact(500);
    Round2Monotone(1.0, x);
    Round2Monotone(x, 5.0);
  }

  lemma WeightedMeanOnScale(w: real, m: real)
    requires w > 0.0 && 1.0 <= m <= 5.0
    ensures OneToFive(w, w * m)
  {
  }

  /** A quotient of the two is on the scale, and rounding keeps it there. */
  lemma QuotientOnScale(w: real, m: real)
    requires w > 0.0 && OneToFive(w, m)
    ensures 1.0 <= Round2(m / w) <= 5.0
  {
    QuotientBounds(1.0, m, 5.0, w);
    Round2OnScale(m / w);
  }

  /** Headline and dimension scores lie in [1, 5] when every counted review rates something. */
  lemma ScoresOnScale(reviews: seq<ReviewScore>, asOf: Date, cutoff: Option<Date>)
    requires forall r | r in Included(reviews, cutoff) :: OnScale(r)
    ensures var res := Aggregate(reviews, asOf, cutoff);
            forall d | d in res.perDimension :: 1.0 <= res.perDimension[d] <= 5.0
    ensures var res := Aggregate(reviews, asOf, cutoff);
            res.overall.None? <==> Included(reviews, cutoff) == []
    ensures var res := Aggregate(reviews, asOf, cutoff);
            res.overall.Some? && (forall r | r in Included(reviews, cutoff) :: r.ratings != map[])
            ==> 1.0 <= res.overall.value <= 5.0
  {
    var inc := Included(reviews, cutoff);
    if inc != [] {
      WeightsArePositive(inc, asOf);
      if forall r | r in inc :: r.ratings != map[] {
        OverallOnScale(inc, asOf);
      }
      forall d: Dimension | Sum(inc, asOf, Rated(d)) > 0.0
        ensures 1.0 <= Round2(RawDimension(inc, asOf, d)) <= 5.0
      {
        DimensionOnScale(inc, asOf, d);
      }
    }
  }

  lemma HeadlineOnScale(r: ReviewScore, asOf: Date)
    requires OnScale(r) && r.ratings != map[]
    ensures OneToFive(Weight.Of(r, asOf), Mean.Of(r, asOf))
  {
    ReviewAggregateOnScale(r);
    WeightedMeanOnScale(ReviewWeight(r, asOf), ReviewAggregate(r.ratings));
  }

  lemma OverallOnScale(rs: seq<ReviewScore>, asOf: Date)
    requires rs != [] && forall r | r in rs :: OnScale(r) && r.ratings != map[]
    ensures Sum(rs, asOf, Weight) > 0.0
    ensures 1.0 <= Round2(RawOverall(rs, asOf)) <= 5.0
  {
    forall r | r in rs ensures OneToFive(Weight.Of(r, asOf), Mean.Of(r, asOf)) {
      HeadlineOnScale(r, asOf);
    }
    WeightsArePositive(rs, asOf);
    SumBetween(rs, asOf, Weight, Mean);
    QuotientOnScale(Sum(rs, asOf, Weight), Sum(rs, asOf, Mean));
  }

  lemma MassOnScale(r: ReviewScore, asOf: Date, d: Dimension)
    requires OnScale(r)
    ensures OneToFive(Rated(d).Of(r, asOf), Mass(d).Of(r, asOf))
  {
    if d in r.ratings {
      WeightedMeanOnScale(ReviewWeight(r, asOf), r.ratings[d] as real);
    }
  }

  lemma DimensionOnScale(rs: seq<ReviewScore>, asOf: Date, d: Dimension)
    requires forall r | r in rs :: OnScale(r)
    requires Sum(rs, asOf, Rated(d)) > 0.0
    ensures 1.0 <= Round2(RawDimension(rs, asOf, d)) <= 5.0
  {
    forall r | r in rs ensures OneToFive(Rated(d).Of(r, asOf), Mass(d).Of(r, asOf)) {
      MassOnScale(r, asOf, d);
    }
    SumBetween(rs, asOf, Rated(d), Mass(d));
    QuotientOnScale(Sum(rs, asOf, Rated(d)), Sum(rs, asOf, Mass(d)));
  }

  /** s is r with some of its ratings raised. */
  predicate Raised(r: ReviewScore, s: ReviewScore) {
    && r.createdAt == s.createdAt && r.verified == s.verified
    && r.ratings.Keys == s.ratings.Keys
    && forall d | d in r.ratings :: r.ratings[d] <= s.ratings[d]
  }

  lemma {:induction false} PresentRaised(a: Ratings, b: Ratings, dims: seq<Dimension>)
    requires a.Keys == b.Keys && forall d | d in a :: a[d] <= b[d]
    ensures |PresentValues(a, dims)| == |PresentValues(b, dims)|
    ensures SumInts(PresentValues(a, dims)) <= SumInts(PresentValues(b, dims))
  {
    if dims != [] {
      PresentRaised(a, b, dims[1..]);
      if dims[0] in a {
        assert PresentValues(a, dims)[1..] == PresentValues(a, dims[1..]);
        assert PresentValues(b, dims)[1..] == PresentValues(b, dims[1..]);
      } else {
        assert dims[0] !in b.Keys;
        assert PresentValues(a, dims) == PresentValues(a, dims[1..]);
        assert PresentValues(b, dims) == PresentValues(b, dims[1..]);
      }
    }
  }

  lemma QuotientMonotone(x: real, y: real, w: real)
    requires w > 0.0 && x <= y
    ensures x / w <= y / w
  {
  }

  lemma ProductMonotone(w: real, x: real, y: real)
    requires w > 0.0 && x <= y
    ensures w * x <= w * y
  {
  }

  lemma {:induction false} MeanOfRaised(a: Ratings, b: Ratings, dims: seq<Dimension>)
    requires a.Keys == b.Keys && forall d | d in a :: a[d] <= b[d]
    ensures MeanOf(a, dims) <= MeanOf(b, dims)
  {
    PresentRaised(a, b, dims);
    var p, q := PresentValues(a, dims), PresentValues(b, dims);
    if p != [] {
      QuotientMonotone(SumInts(p) as real, SumInts(q) as real, |p| as real);
    }
  }

  lemma MeanRaised(r: ReviewScore, s: ReviewScore, asOf: Date)
    requires Raised(r, s)
    ensures Mean.Of(r, asOf) <= Mean.Of(s, asOf)
  {
    MeanOfRaised(r.ratings, s.ratings, DIMENSIONS);
    ProductMonotone(ReviewWeight(r, asOf), ReviewAggregate(r.ratings), ReviewAggregate(s.ratings));
  }

  lemma DimensionRaised(r: ReviewScore, s: ReviewScore, asOf: Date, d: Dimension)
    requires Raised(r, s)
    ensures Rated(d).Of(r, asOf) == Rated(d).Of(s, asOf)
    ensures Mass(d).Of(r, asOf) <= Mass(d).Of(s, asOf)
  {
    assert d in r.ratings.Keys <==> d in s.ratings.Keys;
    if d in r.ratings {
      ProductMonotone(ReviewWeight(r, asOf), r.ratings[d] as real, s.ratings[d] as real);
    }
  }

  lemma {:induction false} IncludedRaised(a: seq<ReviewScore>, b: seq<ReviewScore>, cutoff: Option<Date>)
    requires |a| == |b| && forall i | 0 <= i < |a| :: Raised(a[i], b[i])
    ensures |Included(a, cutoff)| == |Included(b, cutoff)|
    ensures forall i | 0 <= i < |Included(a, cutoff)| :: Raised(Included(a, cutoff)[i], Included(b, cutoff)[i])
  {
    if a != [] {
      IncludedRaised(a[..|a| - 1], b[..|b| - 1], cutoff);
      assert Raised(a[|a| - 1], b[|b| - 1]);
    }
  }

  lemma HeadlineSumsRaised(a: seq<ReviewScore>, b: seq<ReviewScore>, asOf: Date)
    requires |a| == |b| && forall i | 0 <= i < |a| :: Raised(a[i], b[i])
    ensures Sum(a, asOf, Weight) == Sum(b, asOf, Weight)
    ensures Sum(a, asOf, Mean) <= Sum(b, asOf, Mean)
  {
    forall i | 0 <= i < |a|
      ensures Mean.Of(a[i], asOf) <= Mean.Of(b[i], asOf)
    {
      MeanRaised(a[i], b[i], asOf);
    }
    SumMonotone(a, b, asOf, Weight);
    SumMonotone(b, a, asOf, Weight);
    SumMonotone(a, b, asOf, Mean);
  }

  lemma DimensionSumsRaised(a: seq<ReviewScore>, b: seq<ReviewScore>, asOf: Date, d: Dimension)
    requires |a| == |b| && forall i | 0 <= i < |a| :: Raised(a[i], b[i])
    ensures Sum(a, asOf, Rated(d)) == Sum(b, asOf, Rated(d))
    ensures Sum(a, asOf, Mass(d)) <= Sum(b, asOf, Mass(d))
  {
    forall i | 0 <= i < |a|
      ensures Rated(d).Of(a[i], asOf) == Rated(d).Of(b[i], asOf)
      ensures Mass(d).Of(a[i], asOf) <= Mass(d).Of(b[i], asOf)
    {
      DimensionRaised(a[i], b[i], asOf, d);
    }
    SumMonotone(a, b, asOf, Rated(d));
    SumMonotone(b, a, asOf, Rated(d));
    SumMonotone(a, b, asOf, Mass(d));
  }

  lemma DimensionScoreRaised(p: seq<ReviewScore>, q: seq<ReviewScore>, asOf: Date, d: Dimension)
    requires |p| == |q| && forall i | 0 <= i < |p| :: Raised(p[i], q[i])
    ensures Sum(p, asOf, Rated(d)) == Sum(q, asOf, Rated(d))
    ensures Sum(p, asOf, Rated(d)) > 0.0
            ==> Round2(RawDimension(p, asOf, d)) <= Round2(RawDimension(q, asOf, d))
  {
    DimensionSumsRaised(p, q, asOf, d);
    if Sum(p, asOf, Rated(d)) > 0.0 {
      QuotientMonotone(Sum(p, asOf, Mass(d)), Sum(q, asOf, Mass(d)), Sum(p, asOf, Rated(d)));
      Round2Monotone(RawDimension(p, asOf, d), RawDimension(q, asOf, d));
    }
  }

  /** Raising ratings never lowers the headline or any dimension, and changes no count. */
  lemma RaisingNeverLowers(a: seq<ReviewScore>, b: seq<ReviewScore>, asOf: Date, cutoff: Option<Date>)
    requires |a| == |b| && forall i | 0 <= i < |a| :: Raised(a[i], b[i])
    ensures var p, q := Aggregate(a, asOf, cutoff), Aggregate(b, asOf, cutoff);
            && p.counted == q.counted && p.excludedPriorMgmt == q.excludedPriorMgmt
            && p.perDimension.Keys == q.perDimension.Keys
            && (forall d | d in p.perDimension :: p.perDimension[d] <= q.perDimension[d])
            && (p.overall.Some? <==> q.overall.Some?)
            && (p.overall.Some? ==> p.overall.value <= q.overall.value)
  {
    IncludedRaised(a, b, cutoff);
    var p, q := Included(a, cutoff), Included(b, cutoff);
    if p != [] {
      HeadlineRaised(p, q, asOf);
      BreakdownRaised(p, q, asOf);
    }
  }

  lemma HeadlineRaised(p: seq<ReviewScore>, q: seq<ReviewScore>, asOf: Date)
    requires p != [] && |p| == |q| && forall i | 0 <= i < |p| :: Raised(p[i], q[i])
    ensures Sum(p, asOf, Weight) > 0.0 && Sum(q, asOf, Weight) > 0.0
    ensures Round2(RawOverall(p, asOf)) <= Round2(RawOverall(q, asOf))
  {
    WeightsArePositive(p, asOf);
    HeadlineSumsRaised(p, q, asOf);
    QuotientMonotone(Sum(p, asOf, Mean), Sum(q, asOf, Mean), Sum(p, asOf, Weight));
    Round2Monotone(RawOverall(p, asOf), RawOverall(q, asOf));
  }

  lemma BreakdownRaised(p: seq<ReviewScore>, q: seq<ReviewScore>, asOf: Date)
    requires |p| == |q| && forall i | 0 <= i < |p| :: Raised(p[i], q[i])
    ensures Breakdown(p, asOf).Keys == Breakdown(q, asOf).Keys
    ensures forall d | d in Breakdown(p, asOf) :: Breakdown(p, asOf)[d] <= Breakdown(q, asOf)[d]
  {
    forall d: Dimension
      ensures Sum(p, asOf, Rated(d)) == Sum(q, asOf, Rated(d))
      ensures Sum(p, asOf, Rated(d)) > 0.0
              ==> Round2(RawDimension(p, asOf, d)) <= Round2(RawDimension(q, asOf, d))
    {
      DimensionScoreRaised(p, q, asOf, d);
    }
  }

  // --------------------------------------- why the conditions above are needed

  /**
   With partial ratings the headline and the bars can part ways: each dimension is
   averaged over the reviews that rate it, the headline over all of them. Here the
   bars are 3.0 and 5.0, yet the headline is 3.0.
   */
  lemma PartialRatingsDisagree(day: Date)
    ensures var rs := [Partial(5, Some(5), day), Partial(1, None, day)];
            && Sum(rs, day, Weight) > 0.0 && RawOverall(rs, day) == 3.0
            && Sum(rs, day, Rated(Landlord)) > 0.0 && RawDimension(rs, day, Landlord) == 3.0
            && Sum(rs, day, Rated(Agent)) > 0.0 && RawDimension(rs, day, Agent) == 5.0
  {
    var a, b := Partial(5, Some(5), day), Partial(1, None, day);
    PartialTerms(5, Some(5), day);
    PartialTerms(1, None, day);
    SumOfTwo(a, b, day, Weight);
    SumOfTwo(a, b, day, Mean);
    SumOfTwo(a, b, day, Rated(Landlord));
    SumOfTwo(a, b, day, Mass(Landlord));
    SumOfTwo(a, b, day, Rated(Agent));
    SumOfTwo(a, b, day, Mass(Agent));
  }

  /** A fresh unverified review of the landlord and perhaps the agent. */
  function Partial(landlord: int, agent: Option<int>, day: Date): ReviewScore {
    ReviewScore(if agent.Some? then map[Landlord := landlord, Agent := agent.value]
                else map[Landlord := landlord], day, false)
  }

  lemma PartialTerms(landlord: int, agent: Option<int>, day: Date)
    ensures var r := Partial(landlord, agent, day);
            && Weight.Of(r, day) == 1.0
            && Mean.Of(r, day) == (if agent.Some? then (landlord + agent.value) as real / 2.0 else landlord as real)
            && Rated(Landlord).Of(r, day) == 1.0 && Mass(Landlord).Of(r, day) == landlord as real
            && Rated(Agent).Of(r, day) == (if agent.Some? then 1.0 else 0.0)
            && Mass(Agent).Of(r, day) == (if agent.Some? then agent.value as real else 0.0)
  {
    MeanOfFirstTwo(Partial(landlord, agent, day).ratings);
  }

  lemma SumOfTwo(a: ReviewScore, b: ReviewScore, day: Date, t: Term)
    ensures Sum([a, b], day, t) == t.Of(a, day) + t.Of(b, day)
  {
    var s, u := [a, b], [a];
    assert s[..|s| - 1] == u && u[..|u| - 1] == [];
    assert Sum(u, day, t) == t.Of(a, day);
  }

  lemma MeanOfFirstTwo(ratings: Ratings)
    requires ratings.Keys <= {Landlord, Agent} && Landlord in ratings
    ensures ReviewAggregate(ratings)
            == if Agent in ratings then (ratings[Landlord] + ratings[Agent]) as real / 2.0
               else ratings[Landlord] as real
  {
    FirstTwoOnly(ratings);
    var vals := PresentValues(ratings, DIMENSIONS);
    if Agent in ratings {
      assert vals == [ratings[Landlord], ratings[Agent]];
      var rest := vals[1..];
      assert rest == [ratings[Agent]] && rest[1..] == [];
      assert SumInts(vals) == ratings[Landlord] + SumInts(rest);
    } else {
      assert vals == [ratings[Landlord]] && vals[1..] == [];
      assert SumInts(vals) == ratings[Landlord];
    }
  }

  lemma FirstTwoOnly(ratings: Ratings)
    requires ratings.Keys <= {Landlord, Agent}
    ensures PresentValues(ratings, DIMENSIONS)
            == (if Landlord in ratings then [ratings[Landlord]] else [])
               + (if Agent in ratings then [ratings[Agent]] else [])
  {
    PresentNone(ratings, DIMENSIONS[2..]);
    assert DIMENSIONS[1..][1..] == DIMENSIONS[2..];
  }

  lemma {:induction false} PresentNone(ratings: Ratings, dims: seq<Dimension>)
    requires forall d | d in dims :: d !in ratings
    ensures PresentValues(ratings, dims) == []
  {
    if dims != [] {
      PresentNone(ratings, dims[1..]);
    }
  }
}
