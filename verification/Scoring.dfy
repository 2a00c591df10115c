/**
 Property score aggregation (app/core/scoring.py).

 `Aggregate` states the weighted means as sums over the included reviews;
 `AggregateProperty` is the accumulator loop, proved equal to it.
 */
module Scoring {
  import opened Wrappers
  import opened Rounding
  import opened Sequences

  datatype Dimension =
    | Landlord | Agent | Property | Water | Power
    | Security | Noise | Flooding | Neighbourhood | Value

  /** The ten dimensions in display order. */
  const DIMENSIONS: seq<Dimension> :=
    [Landlord, Agent, Property, Water, Power, Security, Noise, Flooding, Neighbourhood, Value]

  const VERIFIED_MULTIPLIER: real := 1.5

  datatype Date = Date(year: int, month: int, day: int) {
    predicate Before(other: Date) {
      || year < other.year
      || (year == other.year && month < other.month)
      || (year == other.year && month == other.month && day < other.day)
    }
  }

  /** Ratings by dimension; a dimension without a rating is not a key. */
  type Ratings = map<Dimension, int>

  datatype ReviewScore = ReviewScore(ratings: Ratings, createdAt: Date, verified: bool)

  datatype AggregateResult = AggregateResult(
    overall: Option<real>,
    perDimension: map<Dimension, real>,
    counted: nat,
    excludedPriorMgmt: nat)

  function RecencyWeight(ageMonths: int): real {
    if ageMonths <= 12 then 1.0
    else if ageMonths <= 24 then 0.75
    else if ageMonths <= 36 then 0.5
    else 0.25
  }

  /** Age in completed months; 0 for a date still to come. */
  function MonthsBetween(earlier: Date, later: Date): nat {
    var months := (later.year - earlier.year) * 12 + (later.month - earlier.month);
    var whole := if later.day < earlier.day then months - 1 else months;
    if whole < 0 then 0 else whole
  }

  function ReviewWeight(r: ReviewScore, asOf: Date): real {
    var w := RecencyWeight(MonthsBetween(r.createdAt, asOf));
    if r.verified then w * VERIFIED_MULTIPLIER else w
  }

  /** The ratings present, in display order. */
  function PresentValues(ratings: Ratings, dims: seq<Dimension>): seq<int> {
    if dims == [] then []
    else (if dims[0] in ratings then [ratings[dims[0]]] else []) + PresentValues(ratings, dims[1..])
  }

  function SumInts(vals: seq<int>): int {
    if vals == [] then 0 else vals[0] + SumInts(vals[1..])
  }

  /** Mean of the given dimensions that are present; 0.0 when none is. */
  function MeanOf(ratings: Ratings, dims: seq<Dimension>): real {
    var vals := PresentValues(ratings, dims);
    if vals == [] then 0.0 else SumInts(vals) as real / |vals| as real
  }

  function ReviewAggregate(ratings: Ratings): real {
    MeanOf(ratings, DIMENSIONS)
  }

  // ---------------------------------------------------------------- sums

  /** What one review adds to each of the four weighted sums. */
  datatype Term = Weight | Mean | Mass(d: Dimension) | Rated(d: Dimension) {
    function Of(r: ReviewScore, asOf: Date): real {
      var w := ReviewWeight(r, asOf);
      match this
      case Weight => w
      case Mean => w * ReviewAggregate(r.ratings)
      case Mass(d) => if d in r.ratings then w * r.ratings[d] as real else 0.0
      case Rated(d) => if d in r.ratings then w else 0.0
    }
  }

  function Sum(rs: seq<ReviewScore>, asOf: Date, t: Term): real {
    if rs == [] then 0.0 else Sum(rs[..|rs| - 1], asOf, t) + t.Of(rs[|rs| - 1], asOf)
  }

  /** A review is dropped when it predates the management change. */
  predicate Counts(r: ReviewScore, cutoff: Option<Date>) {
    !(cutoff.Some? && r.createdAt.Before(cutoff.value))
  }

  function Included(rs: seq<ReviewScore>, cutoff: Option<Date>): seq<ReviewScore> {
    if rs == [] then []
    else
      var front := Included(rs[..|rs| - 1], cutoff);
      if Counts(rs[|rs| - 1], cutoff) then front + [rs[|rs| - 1]] else front
  }

  // ------------------------------------------------- the aggregate, as sums

  function RawOverall(rs: seq<ReviewScore>, asOf: Date): real
    requires Sum(rs, asOf, Weight) > 0.0
  {
    Sum(rs, asOf, Mean) / Sum(rs, asOf, Weight)
  }

  function RawDimension(rs: seq<ReviewScore>, asOf: Date, d: Dimension): real
    requires Sum(rs, asOf, Rated(d)) > 0.0
  {
    Sum(rs, asOf, Mass(d)) / Sum(rs, asOf, Rated(d))
  }

  function Breakdown(rs: seq<ReviewScore>, asOf: Date): map<Dimension, real> {
    map d: Dimension | Sum(rs, asOf, Rated(d)) > 0.0 :: Round2(RawDimension(rs, asOf, d))
  }

  function Aggregate(reviews: seq<ReviewScore>, asOf: Date, cutoff: Option<Date>): AggregateResult {
    var inc := Included(reviews, cutoff);
    IncludedLength(reviews, cutoff);
    var excluded := |reviews| - |inc|;
    if inc == [] then AggregateResult(None, map[], 0, excluded)
    else
      AggregateResult(
        if Sum(inc, asOf, Weight) > 0.0 then Some(Round2(RawOverall(inc, asOf))) else None,
        Breakdown(inc, asOf), |inc|, excluded)
  }

  lemma IncludedLength(rs: seq<ReviewScore>, cutoff: Option<Date>)
    ensures |Included(rs, cutoff)| <= |rs|
  {
  }

  // ------------------------------------------------------ the loop itself

  method AggregateProperty(reviews: seq<ReviewScore>, asOf: Date, managementChange: Option<Date>)
    returns (result: AggregateResult)
    ensures result == Aggregate(reviews, asOf, managementChange)
  {
    var included, excluded := SelectIncluded(reviews, managementChange);
    if included == [] {
      return AggregateResult(None, map[], 0, excluded);
    }
    DimensionsListed();
    var overall, perDimension := WeightedMeans(included, asOf, DIMENSIONS);
    WeightsArePositive(included, asOf);
    result := AggregateResult(overall, perDimension, |included|, excluded);
  }

  /** The weighted means, each rounded to two decimals. */
  method WeightedMeans(included: seq<ReviewScore>, asOf: Date, dims: seq<Dimension>)
    returns (overall: Option<real>, perDimension: map<Dimension, real>)
    requires Listing(dims) && included != []
    ensures Sum(included, asOf, Weight) > 0.0 && overall == Some(Round2(RawOverall(included, asOf)))
    ensures perDimension == Breakdown(included, asOf)
  {
    var totalW, overallAcc, dimAcc, dimW := Accumulate(included, asOf, dims);
    WeightsArePositive(included, asOf);
    overall := if totalW != 0.0 then Some(Round2(overallAcc / totalW)) else None;
    perDimension := map d | d in dims && dimW[d] > 0.0 :: Round2(dimAcc[d] / dimW[d]);
  }

  /** Drop the reviews that predate the management change. */
  method SelectIncluded(reviews: seq<ReviewScore>, managementChange: Option<Date>)
    returns (included: seq<ReviewScore>, excluded: nat)
    ensures included == Included(reviews, managementChange)
    ensures excluded == |reviews| - |included|
  {
    excluded := 0;
    included := [];
    for i := 0 to |reviews|
      invariant included == Included(reviews[..i], managementChange)
      invariant excluded == i - |included|
    {
      assert reviews[..i + 1][..i] == reviews[..i];
      if managementChange.Some? && reviews[i].createdAt.Before(managementChange.value) {
        excluded := excluded + 1;
      } else {
        included := included + [reviews[i]];
      }
    }
    assert reviews[..|reviews|] == reviews;
  }

  /** The two maps of the main pass hold the sums over rs of every dimension. */
  ghost predicate Tallied(acc: map<Dimension, real>, ws: map<Dimension, real>, rs: seq<ReviewScore>, asOf: Date) {
    && (forall d: Dimension :: d in acc && acc[d] == Sum(rs, asOf, Mass(d)))
    && (forall d: Dimension :: d in ws && ws[d] == Sum(rs, asOf, Rated(d)))
  }

  /** One review's terms are added to both maps. */
  ghost predicate Added(acc: map<Dimension, real>, ws: map<Dimension, real>,
                        acc': map<Dimension, real>, ws': map<Dimension, real>, r: ReviewScore, asOf: Date)
  {
    && (forall d: Dimension :: d in acc && d in acc' && acc'[d] == acc[d] + Mass(d).Of(r, asOf))
    && (forall d: Dimension :: d in ws && d in ws' && ws'[d] == ws[d] + Rated(d).Of(r, asOf))
  }

  lemma SumTake(rs: seq<ReviewScore>, i: nat, asOf: Date, t: Term)
    requires i < |rs|
    ensures Sum(rs[..i + 1], asOf, t) == Sum(rs[..i], asOf, t) + t.Of(rs[i], asOf)
  {
    assert rs[..i + 1][..i] == rs[..i];
  }

  lemma TalliedTake(acc: map<Dimension, real>, ws: map<Dimension, real>,
                    acc': map<Dimension, real>, ws': map<Dimension, real>,
                    rs: seq<ReviewScore>, i: nat, asOf: Date)
    requires i < |rs| && Tallied(acc, ws, rs[..i], asOf) && Added(acc, ws, acc', ws', rs[i], asOf)
    ensures Tallied(acc', ws', rs[..i + 1], asOf)
  {
    forall d: Dimension
      ensures d in acc' && acc'[d] == Sum(rs[..i + 1], asOf, Mass(d))
      ensures d in ws' && ws'[d] == Sum(rs[..i + 1], asOf, Rated(d))
    {
      SumTake(rs, i, asOf, Mass(d));
      SumTake(rs, i, asOf, Rated(d));
    }
  }

  /** The main pass: four accumulators, one per weighted sum. */
  method Accumulate(included: seq<ReviewScore>, asOf: Date, dims: seq<Dimension>)
    returns (totalW: real, overallAcc: real, dimAcc: map<Dimension, real>, dimW: map<Dimension, real>)
    requires Listing(dims)
    ensures totalW == Sum(included, asOf, Weight)
    ensures overallAcc == Sum(included, asOf, Mean)
    ensures Tallied(dimAcc, dimW, included, asOf)
  {
    totalW, overallAcc := 0.0, 0.0;
    dimAcc := map d | d in dims :: 0.0;
    dimW := map d | d in dims :: 0.0;
    for i := 0 to |included|
      invariant totalW == Sum(included[..i], asOf, Weight)
      invariant overallAcc == Sum(included[..i], asOf, Mean)
      invariant Tallied(dimAcc, dimW, included[..i], asOf)
    {
      var r := included[i];
      var w := ReviewWeight(r, asOf);
      totalW, overallAcc := AddMeans(r, asOf, w, totalW, overallAcc);
      SumTake(included, i, asOf, Weight);
      SumTake(included, i, asOf, Mean);
      var acc, ws := AddRatings(r, asOf, w, dims, dimAcc, dimW);
      TalliedTake(dimAcc, dimW, acc, ws, included, i, asOf);
      dimAcc, dimW := acc, ws;
    }
    assert included[..|included|] == included;
  }

  /** What one review adds to the two headline accumulators. */
  method AddMeans(r: ReviewScore, asOf: Date, w: real, totalW: real, overallAcc: real)
    returns (totalW': real, overallAcc': real)
    requires w == ReviewWeight(r, asOf)
    ensures totalW' == totalW + Weight.Of(r, asOf) && overallAcc' == overallAcc + Mean.Of(r, asOf)
  {
    totalW', overallAcc' := totalW + w, overallAcc + w * ReviewAggregate(r.ratings);
  }

  /** The inner loop over the ten dimensions. */
  method AddRatings(r: ReviewScore, asOf: Date, w: real, dims: seq<Dimension>,
                    acc: map<Dimension, real>, ws: map<Dimension, real>)
    returns (acc': map<Dimension, real>, ws': map<Dimension, real>)
    requires Listing(dims)
    requires w == ReviewWeight(r, asOf)
    requires forall d: Dimension :: d in acc && d in ws
    ensures Added(acc, ws, acc', ws', r, asOf)
  {
    acc', ws' := acc, ws;
    for k := 0 to |dims|
      invariant forall d: Dimension :: d in acc' && d in ws'
      invariant forall d: Dimension :: acc'[d] == acc[d] + if d in dims[..k] then Mass(d).Of(r, asOf) else 0.0
      invariant forall d: Dimension :: ws'[d] == ws[d] + if d in dims[..k] then Rated(d).Of(r, asOf) else 0.0
    {
      var d := dims[k];
      assert dims[..k + 1] == dims[..k] + [d];
      var mass, rated := RatingTerms(r, asOf, w, d);
      acc' := acc'[d := acc'[d] + mass];
      ws' := ws'[d := ws'[d] + rated];
    }
    assert dims[..|dims|] == dims;
  }

  /** What one rating adds, nothing when it is missing. */
  method RatingTerms(r: ReviewScore, asOf: Date, w: real, d: Dimension) returns (mass: real, rated: real)
    requires w == ReviewWeight(r, asOf)
    ensures mass == Mass(d).Of(r, asOf) && rated == Rated(d).Of(r, asOf)
  {
    if d in r.ratings {
      mass, rated := w * r.ratings[d] as real, w;
    } else {
      mass, rated := 0.0, 0.0;
    }
  }

  /** Every dimension, once. */
  ghost predicate Listing(dims: seq<Dimension>) {
    && (forall d: Dimension :: d in dims)
    && (forall i, j :: 0 <= i < j < |dims| ==> dims[i] != dims[j])
  }

  lemma DimensionsListed()
    ensures Listing(DIMENSIONS)
  {
    forall d: Dimension ensures d in DIMENSIONS {
      match d
      case Landlord => assert DIMENSIONS[0] == d;
      case Agent => assert DIMENSIONS[1] == d;
      case Property => assert DIMENSIONS[2] == d;
      case Water => assert DIMENSIONS[3] == d;
      case Power => assert DIMENSIONS[4] == d;
      case Security => assert DIMENSIONS[5] == d;
      case Noise => assert DIMENSIONS[6] == d;
      case Flooding => assert DIMENSIONS[7] == d;
      case Neighbourhood => assert DIMENSIONS[8] == d;
      case Value => assert DIMENSIONS[9] == d;
    }
  }

  // ------------------------------------------------------- facts about sums

  lemma {:induction false} SumAppend(a: seq<ReviewScore>, b: seq<ReviewScore>, asOf: Date, t: Term)
    ensures Sum(a + b, asOf, t) == Sum(a, asOf, t) + Sum(b, asOf, t)
  {
    if b == [] {
      assert a + b == a;
    } else {
      assert (a + b)[..|a + b| - 1] == a + b[..|b| - 1];
      SumAppend(a, b[..|b| - 1], asOf, t);
    }
  }

  lemma SumWithout(rs: seq<ReviewScore>, i: nat, asOf: Date, t: Term)
    requires i < |rs|
    ensures Sum(rs, asOf, t) == Sum(Without(rs, i), asOf, t) + t.Of(rs[i], asOf)
  {
    var left, right := rs[..i], rs[i + 1..];
    assert rs == rs[..i + 1] + right;
    assert rs[..i + 1][..i] == left;
    SumAppend(rs[..i + 1], right, asOf, t);
    SumAppend(left, right, asOf, t);
  }

  function Without(rs: seq<ReviewScore>, i: nat): (r: seq<ReviewScore>)
    requires i < |rs|
    ensures |r| == |rs| - 1
  {
    rs[..i] + rs[i + 1..]
  }

  /** The same term can be taken out of both. */
  lemma SameWithout(a: seq<ReviewScore>, b: seq<ReviewScore>) returns (i: nat)
    requires a != [] && multiset(a) == multiset(b)
    ensures i < |b| && b[i] == a[0]
    ensures multiset(Without(a, 0)) == multiset(Without(b, i))
  {
    assert a[0] in multiset(b);
    i :| 0 <= i < |b| && b[i] == a[0];
    MultisetWithout(a, 0);
    MultisetWithout(b, i);
  }

  /** A sum does not depend on the order of its terms. */
  lemma {:induction false} SumPermutation(a: seq<ReviewScore>, b: seq<ReviewScore>, asOf: Date, t: Term)
    requires multiset(a) == multiset(b)
    ensures Sum(a, asOf, t) == Sum(b, asOf, t)
    decreases |a|
  {
    if a == [] {
      assert |multiset(b)| == 0;
    } else {
      var i := SameWithout(a, b);
      SumWithout(a, 0, asOf, t);
      SumWithout(b, i, asOf, t);
      SumPermutation(Without(a, 0), Without(b, i), asOf, t);
    }
  }

  lemma {:induction false} WeightsArePositive(rs: seq<ReviewScore>, asOf: Date)
    requires rs != []
    ensures Sum(rs, asOf, Weight) > 0.0
  {
    var front := rs[..|rs| - 1];
    if front != [] {
      WeightsArePositive(front, asOf);
    }
  }

  /** A dimension carries weight exactly when some review rates it. */
  lemma {:induction false} RatedPositive(rs: seq<ReviewScore>, asOf: Date, d: Dimension)
    ensures Sum(rs, asOf, Rated(d)) >= 0.0
    ensures Sum(rs, asOf, Rated(d)) > 0.0 <==> exists i :: 0 <= i < |rs| && d in rs[i].ratings
  {
    if rs != [] {
      var front := rs[..|rs| - 1];
      RatedPositive(front, asOf, d);
      if i :| 0 <= i < |rs| && d in rs[i].ratings {
        assert i < |front| ==> d in front[i].ratings;
      }
      if j :| 0 <= j < |front| && d in front[j].ratings {
        assert d in rs[j].ratings;
      }
    }
  }
}
