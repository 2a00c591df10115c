/**
 When the headline agrees with the bars although reviews rate only some dimensions: the
 exact condition on who rates what, whatever the ratings themselves are. All sums are
 over the counted reviews, before rounding.
 */
module PartialLaws {
  import opened Scoring
  import opened ScoringLaws

  /** How many dimensions a review rates. */
  function Breadth(r: ReviewScore): nat {
    |PresentValues(r.ratings, DIMENSIONS)|
  }

  /** How many of the dimensions have a bar. */
  function Shown(rs: seq<ReviewScore>, asOf: Date, dims: seq<Dimension>): nat {
    if dims == [] then 0
    else (if Sum(rs, asOf, Rated(dims[0])) > 0.0 then 1 else 0) + Shown(rs, asOf, dims[1..])
  }

  /** The bar of a dimension, nothing when it has none. */
  function BarOf(rs: seq<ReviewScore>, asOf: Date, d: Dimension): real {
    if Sum(rs, asOf, Rated(d)) > 0.0 then RawDimension(rs, asOf, d) else 0.0
  }

  function BarTotal(rs: seq<ReviewScore>, asOf: Date, dims: seq<Dimension>): real {
    if dims == [] then 0.0
    else
      BarOf(rs, asOf, dims[0]) + BarTotal(rs, asOf, dims[1..])
  }

  /** The headline is the mean of the bars. */
  predicate HeadlineIsMean(rs: seq<ReviewScore>, asOf: Date) {
    && Sum(rs, asOf, Weight) > 0.0 && Shown(rs, asOf, DIMENSIONS) > 0
    && RawOverall(rs, asOf) == BarTotal(rs, asOf, DIMENSIONS) / Shown(rs, asOf, DIMENSIONS) as real
  }

  /** The same reviews but for the ratings given: the same dates, tenancies and dimensions rated. */
  ghost predicate SamePattern(rs: seq<ReviewScore>, qs: seq<ReviewScore>) {
    |rs| == |qs| && forall i | 0 <= i < |rs| :: SameShape(rs[i], qs[i])
  }

  predicate SameShape(r: ReviewScore, q: ReviewScore) {
    r.createdAt == q.createdAt && r.verified == q.verified && r.ratings.Keys == q.ratings.Keys
  }

  /**
   For each rating, the share its review gives to it in the headline is the share its
   dimension gives to the review in the bars.
   */
  predicate Balanced(rs: seq<ReviewScore>, asOf: Date) {
    forall i | 0 <= i < |rs| :: ReviewBalanced(rs, asOf, rs[i])
  }

  predicate ReviewBalanced(rs: seq<ReviewScore>, asOf: Date, r: ReviewScore) {
    forall d: Dimension | d in r.ratings :: DimensionBalanced(rs, asOf, r, d)
  }

  predicate DimensionBalanced(rs: seq<ReviewScore>, asOf: Date, r: ReviewScore, d: Dimension) {
    Alike(Breadth(r) as real, Sum(rs, asOf, Weight), Shown(rs, asOf, DIMENSIONS) as real, Sum(rs, asOf, Rated(d)))
  }

  predicate Alike(a: real, b: real, x: real, y: real) {
    a * b == x * y
  }

  // ------------------------------------------------------------- the same shape

  lemma SameOf(r: ReviewScore, q: ReviewScore, asOf: Date, d: Dimension)
    requires SameShape(r, q)
    ensures ReviewWeight(r, asOf) == ReviewWeight(q, asOf)
    ensures Rated(d).Of(r, asOf) == Rated(d).Of(q, asOf)
  {
    assert d in r.ratings <==> d in q.ratings;
  }

  lemma {:induction false} SameSums(rs: seq<ReviewScore>, qs: seq<ReviewScore>, asOf: Date, d: Dimension)
    requires SamePattern(rs, qs)
    ensures Sum(rs, asOf, Weight) == Sum(qs, asOf, Weight)
    ensures Sum(rs, asOf, Rated(d)) == Sum(qs, asOf, Rated(d))
  {
    if rs != [] {
      var k := |rs| - 1;
      SameSums(rs[..k], qs[..k], asOf, d);
      SameOf(rs[k], qs[k], asOf, d);
    }
  }

  lemma {:induction false} SameShown(rs: seq<ReviewScore>, qs: seq<ReviewScore>, asOf: Date, dims: seq<Dimension>)
    requires SamePattern(rs, qs)
    ensures Shown(rs, asOf, dims) == Shown(qs, asOf, dims)
  {
    if dims != [] {
      SameSums(rs, qs, asOf, dims[0]);
      SameShown(rs, qs, asOf, dims[1..]);
    }
  }

  lemma {:induction false} SameCount(r: ReviewScore, q: ReviewScore, dims: seq<Dimension>)
    requires SameShape(r, q)
    ensures |PresentValues(r.ratings, dims)| == |PresentValues(q.ratings, dims)|
  {
    if dims != [] {
      assert dims[0] in r.ratings <==> dims[0] in q.ratings;
      SameCount(r, q, dims[1..]);
    }
  }

  // --------------------------------------------- the gap, as a sum over reviews

  /** How the bars weigh each dimension: total weight over the dimension's weight. */
  type Factors = map<Dimension, real>

  predicate FactorsOf(f: Factors, rs: seq<ReviewScore>, asOf: Date) {
    Full(f) && forall d: Dimension :: FactorIs(f[d], Sum(rs, asOf, Weight), Sum(rs, asOf, Rated(d)))
  }

  predicate FactorIs(f: real, total: real, rated: real) {
    f == if rated > 0.0 then total / rated else 0.0
  }

  /** A figure for every dimension. */
  type Sums = map<Dimension, real>

  predicate Full(sums: Sums) {
    forall d: Dimension :: d in sums
  }

  function MassOf(r: ReviewScore, asOf: Date): Sums {
    map d: Dimension | true :: Mass(d).Of(r, asOf)
  }

  function MassSums(rs: seq<ReviewScore>, asOf: Date): Sums {
    map d: Dimension | true :: Sum(rs, asOf, Mass(d))
  }

  function RatedSums(rs: seq<ReviewScore>, asOf: Date): Sums {
    map d: Dimension | true :: Sum(rs, asOf, Rated(d))
  }

  function FactorTotal(masses: Sums, f: Factors, dims: seq<Dimension>): real
    requires Full(masses) && Full(f)
  {
    if dims == [] then 0.0 else f[dims[0]] * masses[dims[0]] + FactorTotal(masses, f, dims[1..])
  }

  /** What one review adds to the bars, scaled by the total weight. */
  function Fold(r: ReviewScore, asOf: Date, f: Factors, dims: seq<Dimension>): real
    requires Full(f)
  {
    FactorTotal(MassOf(r, asOf), f, dims)
  }

  function DimTotal(rs: seq<ReviewScore>, asOf: Date, f: Factors, dims: seq<Dimension>): real
    requires Full(f)
  {
    FactorTotal(MassSums(rs, asOf), f, dims)
  }

  lemma Distributes(f: real, s: real, m: real, total: real)
    requires total == s + m
    ensures f * total == f * s + f * m
  {
  }

  lemma {:induction false} FactorTotalAdds(a: Sums, b: Sums, c: Sums, f: Factors, dims: seq<Dimension>)
    requires Full(a) && Full(b) && Full(c) && Full(f) && forall d: Dimension :: c[d] == a[d] + b[d]
    ensures FactorTotal(c, f, dims) == FactorTotal(a, f, dims) + FactorTotal(b, f, dims)
  {
    if dims != [] {
      FactorTotalAdds(a, b, c, f, dims[1..]);
      Distributes(f[dims[0]], a[dims[0]], b[dims[0]], c[dims[0]]);
    }
  }

  lemma {:induction false} FactorTotalNothing(masses: Sums, f: Factors, dims: seq<Dimension>)
    requires Full(masses) && Full(f) && forall d: Dimension :: masses[d] == 0.0
    ensures FactorTotal(masses, f, dims) == 0.0
  {
    if dims != [] {
      FactorTotalNothing(masses, f, dims[1..]);
    }
  }

  lemma DimTotalStep(rs: seq<ReviewScore>, asOf: Date, f: Factors, dims: seq<Dimension>)
    requires rs != [] && Full(f)
    ensures DimTotal(rs, asOf, f, dims) == DimTotal(rs[..|rs| - 1], asOf, f, dims) + Fold(rs[|rs| - 1], asOf, f, dims)
  {
    FactorTotalAdds(MassSums(rs[..|rs| - 1], asOf), MassOf(rs[|rs| - 1], asOf), MassSums(rs, asOf), f, dims);
  }

  // ------------------------------------------------------- totals of plain numbers

  function Tot(xs: seq<real>): real {
    if xs == [] then 0.0 else Tot(xs[..|xs| - 1]) + xs[|xs| - 1]
  }

  predicate GapIs(gap: real, shown: real, mean: real, fold: real) {
    gap == shown * mean - fold
  }

  /** What each review adds to the headline's sum. */
  function Means(rs: seq<ReviewScore>, asOf: Date): (xs: seq<real>)
    ensures |xs| == |rs|
  {
    seq(|rs|, i requires 0 <= i < |rs| => Mean.Of(rs[i], asOf))
  }

  /** What each review adds to the scaled bars. */
  function Folds(rs: seq<ReviewScore>, asOf: Date, f: Factors): (xs: seq<real>)
    requires Full(f)
    ensures |xs| == |rs|
  {
    seq(|rs|, i requires 0 <= i < |rs| => Fold(rs[i], asOf, f, DIMENSIONS))
  }

  lemma {:induction false} SumIsTot(rs: seq<ReviewScore>, asOf: Date)
    ensures Sum(rs, asOf, Mean) == Tot(Means(rs, asOf))
  {
    if rs != [] {
      var k := |rs| - 1;
      SumIsTot(rs[..k], asOf);
      assert Means(rs, asOf)[..k] == Means(rs[..k], asOf);
    }
  }

  lemma {:induction false} DimTotalIsTot(rs: seq<ReviewScore>, asOf: Date, f: Factors)
    requires Full(f)
    ensures DimTotal(rs, asOf, f, DIMENSIONS) == Tot(Folds(rs, asOf, f))
  {
    if rs == [] {
      FactorTotalNothing(MassSums(rs, asOf), f, DIMENSIONS);
    } else {
      var k := |rs| - 1;
      DimTotalIsTot(rs[..k], asOf, f);
      DimTotalStep(rs, asOf, f, DIMENSIONS);
      assert Folds(rs, asOf, f)[..k] == Folds(rs[..k], asOf, f);
    }
  }

  lemma {:induction false} TotGaps(gaps: seq<real>, means: seq<real>, folds: seq<real>, shown: real)
    requires |gaps| == |means| == |folds| && forall i | 0 <= i < |gaps| :: GapIs(gaps[i], shown, means[i], folds[i])
    ensures GapIs(Tot(gaps), shown, Tot(means), Tot(folds))
  {
    if gaps != [] {
      var k := |gaps| - 1;
      TotGaps(gaps[..k], means[..k], folds[..k], shown);
      Distributes(shown, Tot(means[..k]), means[k], Tot(means));
    }
  }

  function Quotient(mass: real, rated: real): real {
    if rated > 0.0 then mass / rated else 0.0
  }

  function QuotientTotal(masses: Sums, rateds: Sums, dims: seq<Dimension>): real
    requires Full(masses) && Full(rateds)
  {
    if dims == [] then 0.0 else Quotient(masses[dims[0]], rateds[dims[0]]) + QuotientTotal(masses, rateds, dims[1..])
  }

  predicate IsProduct(x: real, total: real, y: real) {
    x == total * y
  }

  lemma QuotientScaled(total: real, rated: real, mass: real, f: real)
    requires FactorIs(f, total, rated)
    ensures IsProduct(f * mass, total, Quotient(mass, rated))
  {
    if rated > 0.0 {
      var bar := mass / rated;
      assert bar * rated == mass;
      assert f * rated == total;
      assert f * (bar * rated) == bar * (f * rated);
    }
  }

  lemma ScaledSum(x: real, y: real, total: real, bar: real, rest: real)
    requires IsProduct(x, total, bar) && IsProduct(y, total, rest)
    ensures IsProduct(x + y, total, bar + rest)
  {
  }

  lemma {:induction false} FactorsScale(masses: Sums, rateds: Sums, f: Factors, dims: seq<Dimension>, total: real)
    requires Full(masses) && Full(rateds) && Full(f) && forall d: Dimension :: FactorIs(f[d], total, rateds[d])
    ensures IsProduct(FactorTotal(masses, f, dims), total, QuotientTotal(masses, rateds, dims))
  {
    if dims != [] {
      var d := dims[0];
      FactorsScale(masses, rateds, f, dims[1..], total);
      QuotientScaled(total, rateds[d], masses[d], f[d]);
      ScaledSum(f[d] * masses[d], FactorTotal(masses, f, dims[1..]), total,
                Quotient(masses[d], rateds[d]), QuotientTotal(masses, rateds, dims[1..]));
    }
  }

  lemma {:induction false} BarsAreQuotients(rs: seq<ReviewScore>, asOf: Date, dims: seq<Dimension>)
    ensures BarTotal(rs, asOf, dims) == QuotientTotal(MassSums(rs, asOf), RatedSums(rs, asOf), dims)
  {
    if dims != [] {
      BarsAreQuotients(rs, asOf, dims[1..]);
    }
  }

  lemma BarsScaled(rs: seq<ReviewScore>, asOf: Date, f: Factors, total: real)
    requires FactorsOf(f, rs, asOf) && total == Sum(rs, asOf, Weight)
    ensures IsProduct(DimTotal(rs, asOf, f, DIMENSIONS), total, BarTotal(rs, asOf, DIMENSIONS))
  {
    BarsAreQuotients(rs, asOf, DIMENSIONS);
    FactorsScale(MassSums(rs, asOf), RatedSums(rs, asOf), f, DIMENSIONS, total);
  }

  lemma NoZeroDivisor(p: real, z: real)
    requires p > 0.0
    ensures p * z == 0.0 <==> z == 0.0
  {
  }

  /** Two quotients agree when the cross products do. */
  lemma CrossMultiplied(m: real, w: real, b: real, k: real, folds: real, gap: real)
    requires w > 0.0 && k > 0.0 && GapIs(gap, k, m, folds) && IsProduct(folds, w, b)
    ensures m / w == b / k <==> gap == 0.0
  {
    var x, y := m / w, b / k;
    assert x * w == m && y * k == b;
    assert k * m == k * w * x;
    assert w * b == k * w * y;
    assert gap == k * w * (x - y);
    NoZeroDivisor(k * w, x - y);
  }

  /** What each review adds to the headline less what it adds to the bars, both scaled. */
  predicate GapsOf(gaps: seq<real>, rs: seq<ReviewScore>, asOf: Date, f: Factors, shown: real)
    requires Full(f)
  {
    |gaps| == |rs| && forall i | 0 <= i < |rs| :: GapIs(gaps[i], shown, Means(rs, asOf)[i], Folds(rs, asOf, f)[i])
  }

  /** Agreement is the absence of a gap in total. */
  lemma AgreesIffNoGap(rs: seq<ReviewScore>, asOf: Date, f: Factors, shown: real, gaps: seq<real>)
    requires FactorsOf(f, rs, asOf) && Sum(rs, asOf, Weight) > 0.0 && Shown(rs, asOf, DIMENSIONS) > 0
    requires shown == Shown(rs, asOf, DIMENSIONS) as real && GapsOf(gaps, rs, asOf, f, shown)
    ensures HeadlineIsMean(rs, asOf) <==> Tot(gaps) == 0.0
  {
    TotGaps(gaps, Means(rs, asOf), Folds(rs, asOf, f), shown);
    SumIsTot(rs, asOf);
    DimTotalIsTot(rs, asOf, f);
    BarsScaled(rs, asOf, f, Sum(rs, asOf, Weight));
    CrossMultiplied(Sum(rs, asOf, Mean), Sum(rs, asOf, Weight), BarTotal(rs, asOf, DIMENSIONS), shown,
                    Tot(Folds(rs, asOf, f)), Tot(gaps));
  }

  // ------------------------------------------------------ the gap of one review

  function FoldOf(ratings: Ratings, w: real, f: Factors, dims: seq<Dimension>): real
    requires Full(f)
  {
    if dims == [] then 0.0
    else TermOf(ratings, w, f, dims[0]) + FoldOf(ratings, w, f, dims[1..])
  }

  function TermOf(ratings: Ratings, w: real, f: Factors, d: Dimension): real
    requires Full(f)
  {
    if d in ratings then f[d] * (w * ratings[d] as real) else 0.0
  }

  lemma TermIsMass(r: ReviewScore, asOf: Date, f: Factors, d: Dimension)
    requires Full(f)
    ensures f[d] * MassOf(r, asOf)[d] == TermOf(r.ratings, ReviewWeight(r, asOf), f, d)
  {
  }

  lemma {:induction false} FoldIs(r: ReviewScore, asOf: Date, f: Factors, dims: seq<Dimension>)
    requires Full(f)
    ensures Fold(r, asOf, f, dims) == FoldOf(r.ratings, ReviewWeight(r, asOf), f, dims)
  {
    if dims != [] {
      TermIsMass(r, asOf, f, dims[0]);
      FoldIs(r, asOf, f, dims[1..]);
    }
  }

  predicate Shares(share: real, f: real, w: real) {
    share == f * w
  }

  /** One term, by the share the dimension gives. */
  lemma TermIs(ratings: Ratings, w: real, f: Factors, d: Dimension, share: real)
    requires Full(f) && (d in ratings ==> Shares(share, f[d], w))
    ensures IsProduct(TermOf(ratings, w, f, d), share, if d in ratings then ratings[d] as real else 0.0)
  {
    if d in ratings {
      assert f[d] * (w * ratings[d] as real) == f[d] * w * ratings[d] as real;
    }
  }

  /** A review whose dimensions all give it the same share. */
  lemma {:induction false} EvenFold(ratings: Ratings, w: real, f: Factors, dims: seq<Dimension>, share: real)
    requires Full(f) && forall d: Dimension | d in ratings :: Shares(share, f[d], w)
    ensures IsProduct(FoldOf(ratings, w, f, dims), share, SumInts(PresentValues(ratings, dims)) as real)
  {
    if dims != [] {
      EvenFold(ratings, w, f, dims[1..], share);
      TermIs(ratings, w, f, dims[0], share);
      PresentStep(ratings, dims);
      ScaledSum(TermOf(ratings, w, f, dims[0]), FoldOf(ratings, w, f, dims[1..]), share,
                if dims[0] in ratings then ratings[dims[0]] as real else 0.0,
                SumInts(PresentValues(ratings, dims[1..])) as real);
    }
  }

  /** One rating one higher. */
  function Bumped(ratings: Ratings, d: Dimension): Ratings
    requires d in ratings
  {
    ratings[d := ratings[d] + 1]
  }

  ghost predicate NoneTwice(dims: seq<Dimension>) {
    forall i, j | 0 <= i < j < |dims| :: dims[i] != dims[j]
  }

  lemma TermBumped(ratings: Ratings, w: real, f: Factors, e: Dimension, d: Dimension, share: real)
    requires Full(f) && d in ratings && Shares(share, f[d], w)
    ensures TermOf(Bumped(ratings, d), w, f, e) == TermOf(ratings, w, f, e) + if e == d then share else 0.0
  {
    if e == d {
      var x := ratings[d] as real;
      assert f[d] * (w * (x + 1.0)) == f[d] * (w * x) + f[d] * w;
    }
  }

  lemma {:induction false} FoldBumped(ratings: Ratings, w: real, f: Factors, dims: seq<Dimension>, d: Dimension,
                                      share: real)
    requires Full(f) && NoneTwice(dims) && d in ratings && Shares(share, f[d], w)
    ensures FoldOf(Bumped(ratings, d), w, f, dims) == FoldOf(ratings, w, f, dims) + if d in dims then share else 0.0
  {
    if dims != [] {
      FoldBumped(ratings, w, f, dims[1..], d, share);
      assert dims == [dims[0]] + dims[1..];
      TermBumped(ratings, w, f, dims[0], d, share);
    }
  }

  lemma {:induction false} PresentBumped(ratings: Ratings, dims: seq<Dimension>, d: Dimension)
    requires NoneTwice(dims) && d in ratings
    ensures |PresentValues(Bumped(ratings, d), dims)| == |PresentValues(ratings, dims)|
    ensures SumInts(PresentValues(Bumped(ratings, d), dims))
            == SumInts(PresentValues(ratings, dims)) + if d in dims then 1 else 0
    ensures d in dims ==> PresentValues(ratings, dims) != []
  {
    if dims != [] {
      PresentBumped(ratings, dims[1..], d);
      assert dims == [dims[0]] + dims[1..];
      PresentStep(ratings, dims);
      PresentStep(Bumped(ratings, d), dims);
    }
  }

  lemma PresentStep(ratings: Ratings, dims: seq<Dimension>)
    requires dims != []
    ensures var rest := PresentValues(ratings, dims[1..]);
            && |PresentValues(ratings, dims)| == |rest| + (if dims[0] in ratings then 1 else 0)
            && SumInts(PresentValues(ratings, dims))
               == SumInts(rest) + if dims[0] in ratings then ratings[dims[0]] else 0
  {
    if dims[0] in ratings {
      assert PresentValues(ratings, dims)[1..] == PresentValues(ratings, dims[1..]);
    } else {
      assert PresentValues(ratings, dims) == PresentValues(ratings, dims[1..]);
    }
  }

  /** The headline's part of one review: its weight times the mean of its n ratings. */
  predicate MeanIs(mean: real, w: real, sum: real, n: real) {
    if n > 0.0 then mean == w * (sum / n) else mean == 0.0
  }

  lemma MeanOfReview(r: ReviewScore, asOf: Date)
    ensures MeanIs(Mean.Of(r, asOf), ReviewWeight(r, asOf),
                   SumInts(PresentValues(r.ratings, DIMENSIONS)) as real, Breadth(r) as real)
  {
  }

  /** An even share that matches the headline's leaves no gap. */
  lemma EvenGap(gap: real, shown: real, mean: real, w: real, sum: real, n: real, fold: real, share: real)
    requires GapIs(gap, shown, mean, fold) && MeanIs(mean, w, sum, n) && IsProduct(fold, share, sum)
    requires n > 0.0 && Alike(share, n, shown, w)
    ensures gap == 0.0
  {
    var x := sum / n;
    assert x * n == sum;
    assert shown * (w * x) == share * n * x;
    assert share * sum == share * (x * n);
  }

  /** One rating more moves the gap by the headline's share less the bar's. */
  lemma GapMoves(gap: real, gap': real, shown: real, mean: real, mean': real, w: real, sum: real, n: real, fold: real,
                 share: real)
    requires GapIs(gap, shown, mean, fold) && GapIs(gap', shown, mean', fold + share)
    requires MeanIs(mean, w, sum, n) && MeanIs(mean', w, sum + 1.0, n) && n > 0.0
    ensures gap == gap' <==> Alike(share, n, shown, w)
  {
    var x, y := sum / n, (sum + 1.0) / n;
    assert x * n == sum && y * n == sum + 1.0;
    assert (y - x) * n == 1.0;
    var moved := shown * (w * (y - x)) - share;
    assert gap' - gap == moved;
    assert moved * n == shown * w * ((y - x) * n) - share * n;
    NoZeroDivisor(n, moved);
  }

  // --------------------------------------------------------------- the condition

  lemma {:induction false} TotZero(gaps: seq<real>)
    requires forall i | 0 <= i < |gaps| :: gaps[i] == 0.0
    ensures Tot(gaps) == 0.0
  {
    if gaps != [] {
      TotZero(gaps[..|gaps| - 1]);
    }
  }

  lemma {:induction false} TotUpdate(gaps: seq<real>, i: nat, gap: real)
    requires i < |gaps|
    ensures Tot(gaps[i := gap]) == Tot(gaps) - gaps[i] + gap
  {
    var k := |gaps| - 1;
    if i < k {
      TotUpdate(gaps[..k], i, gap);
      assert gaps[i := gap][..k] == gaps[..k][i := gap];
    } else {
      assert gaps[i := gap][..k] == gaps[..k];
    }
  }

  function GapAt(rs: seq<ReviewScore>, asOf: Date, f: Factors, shown: real, i: nat): (gap: real)
    requires Full(f) && i < |rs|
    ensures GapIs(gap, shown, Means(rs, asOf)[i], Folds(rs, asOf, f)[i])
  {
    shown * Means(rs, asOf)[i] - Folds(rs, asOf, f)[i]
  }

  function GapsFor(rs: seq<ReviewScore>, asOf: Date, f: Factors, shown: real): (gaps: seq<real>)
    requires Full(f)
    ensures GapsOf(gaps, rs, asOf, f, shown)
  {
    seq(|rs|, i requires 0 <= i < |rs| => GapAt(rs, asOf, f, shown, i))
  }

  /** The balance of one rating, in terms of the shares. */
  lemma BalanceOfShares(n: real, total: real, shown: real, rated: real, f: real, w: real, share: real)
    requires w > 0.0 && rated > 0.0 && FactorIs(f, total, rated) && Shares(share, f, w)
    ensures Alike(n, total, shown, rated) <==> Alike(share, n, shown, w)
  {
    assert f * rated == total;
    var gap := f * n - shown;
    assert n * total - shown * rated == rated * gap;
    assert share * n - shown * w == w * gap;
    NoZeroDivisor(rated, gap);
    NoZeroDivisor(w, gap);
  }

  lemma RatedByOne(rs: seq<ReviewScore>, asOf: Date, i: nat, d: Dimension)
    requires i < |rs| && d in rs[i].ratings
    ensures Sum(rs, asOf, Rated(d)) > 0.0 && ReviewWeight(rs[i], asOf) > 0.0
  {
    RatedPositive(rs, asOf, d);
  }

  /** Every balanced review has no gap, whatever its ratings. */
  lemma BalancedNoGap(rs: seq<ReviewScore>, asOf: Date, f: Factors, shown: real, i: nat)
    requires FactorsOf(f, rs, asOf) && i < |rs| && ReviewBalanced(rs, asOf, rs[i])
    requires shown == Shown(rs, asOf, DIMENSIONS) as real
    ensures GapAt(rs, asOf, f, shown, i) == 0.0
  {
    var r, w := rs[i], ReviewWeight(rs[i], asOf);
    MeanOfReview(r, asOf);
    FoldIs(r, asOf, f, DIMENSIONS);
    if d: Dimension :| d in r.ratings {
      var share := ShareOfReview(rs, asOf, f, shown, i, d);
      EvenFold(r.ratings, w, f, DIMENSIONS, share);
      PresentSome(r.ratings, d);
      EvenGap(GapAt(rs, asOf, f, shown, i), shown, Means(rs, asOf)[i], w,
              SumInts(PresentValues(r.ratings, DIMENSIONS)) as real,
              Breadth(r) as real, Folds(rs, asOf, f)[i], share);
    } else {
      NothingPresent(r.ratings, DIMENSIONS);
      EvenFold(r.ratings, w, f, DIMENSIONS, 0.0);
    }
  }

  /** The share that all dimensions of a balanced review give it. */
  lemma ShareOfReview(rs: seq<ReviewScore>, asOf: Date, f: Factors, shown: real, i: nat,
                      d: Dimension) returns (share: real)
    requires FactorsOf(f, rs, asOf) && i < |rs| && ReviewBalanced(rs, asOf, rs[i]) && d in rs[i].ratings
    requires shown == Shown(rs, asOf, DIMENSIONS) as real
    ensures Alike(share, Breadth(rs[i]) as real, shown, ReviewWeight(rs[i], asOf))
    ensures forall e: Dimension | e in rs[i].ratings :: Shares(share, f[e], ReviewWeight(rs[i], asOf))
  {
    var w := ReviewWeight(rs[i], asOf);
    share := f[d] * w;
    assert DimensionBalanced(rs, asOf, rs[i], d);
    ShareOf(rs, asOf, f, shown, i, d, share);
    PresentSome(rs[i].ratings, d);
    forall e: Dimension | e in rs[i].ratings ensures Shares(share, f[e], w) {
      var other := f[e] * w;
      assert DimensionBalanced(rs, asOf, rs[i], e);
      ShareOf(rs, asOf, f, shown, i, e, other);
      SameQuotient(share, other, Breadth(rs[i]) as real, shown, w);
    }
  }

  lemma ShareOf(rs: seq<ReviewScore>, asOf: Date, f: Factors, shown: real, i: nat, d: Dimension, share: real)
    requires FactorsOf(f, rs, asOf) && i < |rs| && d in rs[i].ratings && shown == Shown(rs, asOf, DIMENSIONS) as real
    requires Shares(share, f[d], ReviewWeight(rs[i], asOf))
    ensures DimensionBalanced(rs, asOf, rs[i], d)
            <==> Alike(share, Breadth(rs[i]) as real, shown, ReviewWeight(rs[i], asOf))
  {
    RatedByOne(rs, asOf, i, d);
    BalanceOfShares(Breadth(rs[i]) as real, Sum(rs, asOf, Weight), shown, Sum(rs, asOf, Rated(d)), f[d],
                    ReviewWeight(rs[i], asOf), share);
  }

  lemma SameQuotient(x: real, y: real, n: real, a: real, b: real)
    requires n > 0.0 && Alike(x, n, a, b) && Alike(y, n, a, b)
    ensures x == y
  {
    NoZeroDivisor(n, x - y);
  }

  lemma PresentSome(ratings: Ratings, d: Dimension)
    requires d in ratings
    ensures |PresentValues(ratings, DIMENSIONS)| > 0
  {
    DimensionsListed();
    PresentBumped(ratings, DIMENSIONS, d);
  }

  lemma {:induction false} NothingPresent(ratings: Ratings, dims: seq<Dimension>)
    requires forall d: Dimension :: d !in ratings
    ensures PresentValues(ratings, dims) == []
  {
    if dims != [] {
      NothingPresent(ratings, dims[1..]);
    }
  }

  function FactorsFor(rs: seq<ReviewScore>, asOf: Date): (f: Factors)
    ensures FactorsOf(f, rs, asOf)
  {
    map d: Dimension | true :: Quotient(Sum(rs, asOf, Weight), Sum(rs, asOf, Rated(d)))
  }

  lemma SameBalance(rs: seq<ReviewScore>, qs: seq<ReviewScore>, asOf: Date, i: nat, d: Dimension)
    requires SamePattern(rs, qs) && i < |rs|
    ensures DimensionBalanced(rs, asOf, rs[i], d) <==> DimensionBalanced(qs, asOf, qs[i], d)
  {
    SameSums(rs, qs, asOf, d);
    SameShown(rs, qs, asOf, DIMENSIONS);
    SameCount(rs[i], qs[i], DIMENSIONS);
  }

  lemma BalancedAgrees(rs: seq<ReviewScore>, qs: seq<ReviewScore>, asOf: Date)
    requires rs != [] && Shown(rs, asOf, DIMENSIONS) > 0 && SamePattern(rs, qs) && Balanced(rs, asOf)
    ensures HeadlineIsMean(qs, asOf)
  {
    var f, shown := FactorsFor(qs, asOf), Shown(qs, asOf, DIMENSIONS) as real;
    SameShown(rs, qs, asOf, DIMENSIONS);
    WeightsArePositive(qs, asOf);
    forall i: nat | i < |qs| ensures GapAt(qs, asOf, f, shown, i) == 0.0 {
      assert ReviewBalanced(rs, asOf, rs[i]);
      forall d: Dimension | d in qs[i].ratings ensures DimensionBalanced(qs, asOf, qs[i], d) {
        assert d in rs[i].ratings;
        SameBalance(rs, qs, asOf, i, d);
      }
      BalancedNoGap(qs, asOf, f, shown, i);
    }
    TotZero(GapsFor(qs, asOf, f, shown));
    AgreesIffNoGap(qs, asOf, f, shown, GapsFor(qs, asOf, f, shown));
  }

  /** The reviews with every rating they give a 1. */
  function Ones(rs: seq<ReviewScore>): (qs: seq<ReviewScore>)
    ensures SamePattern(rs, qs) && forall q | q in qs :: OnScale(q)
  {
    seq(|rs|, i requires 0 <= i < |rs| => rs[i].(ratings := map d | d in rs[i].ratings :: 1))
  }

  /** One rating of one review raised by one. */
  function Raise(qs: seq<ReviewScore>, i: nat, d: Dimension): (r: seq<ReviewScore>)
    requires i < |qs| && d in qs[i].ratings
    ensures SamePattern(qs, r)
  {
    qs[i := qs[i].(ratings := Bumped(qs[i].ratings, d))]
  }

  lemma SameFactors(qs: seq<ReviewScore>, r: seq<ReviewScore>, asOf: Date, f: Factors)
    requires SamePattern(qs, r) && FactorsOf(f, qs, asOf)
    ensures FactorsOf(f, r, asOf)
  {
    forall d: Dimension ensures FactorIs(f[d], Sum(r, asOf, Weight), Sum(r, asOf, Rated(d))) {
      SameSums(qs, r, asOf, d);
    }
  }

  /** Where only one rating was raised, only that review's gap can have moved. */
  lemma RaisedGaps(qs: seq<ReviewScore>, i: nat, d: Dimension, asOf: Date, f: Factors, shown: real)
    requires i < |qs| && d in qs[i].ratings && Full(f)
    ensures GapsOf(GapsFor(qs, asOf, f, shown)[i := GapAt(Raise(qs, i, d), asOf, f, shown, i)],
                   Raise(qs, i, d), asOf, f, shown)
  {
    var r := Raise(qs, i, d);
    forall j | 0 <= j < |qs| && j != i
      ensures Means(r, asOf)[j] == Means(qs, asOf)[j] && Folds(r, asOf, f)[j] == Folds(qs, asOf, f)[j]
    {
      assert r[j] == qs[j];
    }
  }

  lemma RaisedFoldOver(q: ReviewScore, d: Dimension, asOf: Date, f: Factors, share: real, dims: seq<Dimension>)
    requires Full(f) && d in q.ratings && Shares(share, f[d], ReviewWeight(q, asOf)) && NoneTwice(dims) && d in dims
    ensures Fold(q.(ratings := Bumped(q.ratings, d)), asOf, f, dims) == Fold(q, asOf, f, dims) + share
  {
    FoldIs(q, asOf, f, dims);
    FoldIs(q.(ratings := Bumped(q.ratings, d)), asOf, f, dims);
    FoldBumped(q.ratings, ReviewWeight(q, asOf), f, dims, d, share);
  }

  lemma RaisedFold(q: ReviewScore, d: Dimension, asOf: Date, f: Factors, share: real)
    requires Full(f) && d in q.ratings && Shares(share, f[d], ReviewWeight(q, asOf))
    ensures Fold(q.(ratings := Bumped(q.ratings, d)), asOf, f, DIMENSIONS) == Fold(q, asOf, f, DIMENSIONS) + share
  {
    DimensionsListed();
    RaisedFoldOver(q, d, asOf, f, share, DIMENSIONS);
  }

  lemma RaisedMean(q: ReviewScore, d: Dimension, asOf: Date, w: real, sum: real, n: real)
    requires d in q.ratings && w == ReviewWeight(q, asOf)
    requires sum == SumInts(PresentValues(q.ratings, DIMENSIONS)) as real && n == Breadth(q) as real
    ensures n > 0.0 && MeanIs(Mean.Of(q, asOf), w, sum, n)
    ensures MeanIs(Mean.Of(q.(ratings := Bumped(q.ratings, d)), asOf), w, sum + 1.0, n)
  {
    DimensionsListed();
    PresentSome(q.ratings, d);
    PresentBumped(q.ratings, DIMENSIONS, d);
    MeanOfReview(q, asOf);
    MeanOfReview(q.(ratings := Bumped(q.ratings, d)), asOf);
  }

  /** And it stays where it was exactly when the shares are alike. */
  lemma ReviewGapMoves(q: ReviewScore, d: Dimension, asOf: Date, f: Factors, shown: real, share: real,
                       gap: real, gap': real)
    requires Full(f) && d in q.ratings && Shares(share, f[d], ReviewWeight(q, asOf))
    requires GapIs(gap, shown, Mean.Of(q, asOf), Fold(q, asOf, f, DIMENSIONS))
    requires var r := q.(ratings := Bumped(q.ratings, d));
             GapIs(gap', shown, Mean.Of(r, asOf), Fold(r, asOf, f, DIMENSIONS))
    ensures gap == gap' <==> Alike(share, Breadth(q) as real, shown, ReviewWeight(q, asOf))
  {
    var r, w := q.(ratings := Bumped(q.ratings, d)), ReviewWeight(q, asOf);
    var sum, n := SumInts(PresentValues(q.ratings, DIMENSIONS)) as real, Breadth(q) as real;
    RaisedFold(q, d, asOf, f, share);
    RaisedMean(q, d, asOf, w, sum, n);
    GapMoves(gap, gap', shown, Mean.Of(q, asOf), Mean.Of(r, asOf), w, sum, n, Fold(q, asOf, f, DIMENSIONS), share);
  }

  lemma RaisedGapMoves(qs: seq<ReviewScore>, i: nat, d: Dimension, asOf: Date, f: Factors, shown: real)
    requires i < |qs| && d in qs[i].ratings && FactorsOf(f, qs, asOf) && shown == Shown(qs, asOf, DIMENSIONS) as real
    ensures GapAt(Raise(qs, i, d), asOf, f, shown, i) == GapAt(qs, asOf, f, shown, i)
            <==> DimensionBalanced(qs, asOf, qs[i], d)
  {
    var share := f[d] * ReviewWeight(qs[i], asOf);
    ShareOf(qs, asOf, f, shown, i, d, share);
    ReviewGapMoves(qs[i], d, asOf, f, shown, share, GapAt(qs, asOf, f, shown, i),
                   GapAt(Raise(qs, i, d), asOf, f, shown, i));
  }

  lemma AgreementBalances(rs: seq<ReviewScore>, asOf: Date, i: nat, d: Dimension)
    requires rs != [] && Shown(rs, asOf, DIMENSIONS) > 0 && i < |rs| && d in rs[i].ratings
    requires HeadlineIsMean(Ones(rs), asOf) && HeadlineIsMean(Raise(Ones(rs), i, d), asOf)
    ensures DimensionBalanced(rs, asOf, rs[i], d)
  {
    var qs := Ones(rs);
    var r, f, shown := Raise(qs, i, d), FactorsFor(qs, asOf), Shown(qs, asOf, DIMENSIONS) as real;
    var gaps := GapsFor(qs, asOf, f, shown);
    SameFactors(qs, r, asOf, f);
    SameShown(qs, r, asOf, DIMENSIONS);
    AgreesIffNoGap(qs, asOf, f, shown, gaps);
    RaisedGaps(qs, i, d, asOf, f, shown);
    AgreesIffNoGap(r, asOf, f, shown, gaps[i := GapAt(r, asOf, f, shown, i)]);
    TotUpdate(gaps, i, GapAt(r, asOf, f, shown, i));
    RaisedGapMoves(qs, i, d, asOf, f, shown);
    SameBalance(rs, qs, asOf, i, d);
  }

  /** Whatever ratings from 1 to 5 are given, by these reviews to these dimensions. */
  ghost predicate AlwaysAgrees(rs: seq<ReviewScore>, asOf: Date) {
    forall qs: seq<ReviewScore> | SamePattern(rs, qs) && (forall q | q in qs :: OnScale(q)) :: HeadlineIsMean(qs, asOf)
  }

  /**
   The headline is the mean of the bars for every choice of ratings exactly when the
   pattern is balanced: for each review and each dimension it rates, as many dimensions as
   it rates times the total weight is as many bars as are shown times the dimension's
   weight. All of that can be read off before any rating is.
   */
  lemma AlwaysAgreesIffBalanced(rs: seq<ReviewScore>, asOf: Date)
    requires rs != [] && Shown(rs, asOf, DIMENSIONS) > 0
    ensures AlwaysAgrees(rs, asOf) <==> Balanced(rs, asOf)
  {
    if Balanced(rs, asOf) {
      forall qs: seq<ReviewScore> | SamePattern(rs, qs) && (forall q | q in qs :: OnScale(q))
        ensures HeadlineIsMean(qs, asOf)
      {
        BalancedAgrees(rs, qs, asOf);
      }
    }
    if AlwaysAgrees(rs, asOf) {
      forall i: nat, d: Dimension | i < |rs| && d in rs[i].ratings ensures DimensionBalanced(rs, asOf, rs[i], d) {
        RaisedOnScale(rs, i, d);
        AgreementBalances(rs, asOf, i, d);
      }
    }
  }

  lemma RaisedOnScale(rs: seq<ReviewScore>, i: nat, d: Dimension)
    requires i < |rs| && d in rs[i].ratings
    ensures SamePattern(rs, Raise(Ones(rs), i, d)) && forall q | q in Raise(Ones(rs), i, d) :: OnScale(q)
  {
    var qs := Ones(rs);
    assert OnScale(qs[i]) by { assert qs[i] in qs; }
    assert forall e | e in qs[i].ratings :: qs[i].ratings[e] == 1;
  }

  // ---------------------------------------------------------- the plainest case

  lemma {:induction false} EvenlyRated(rs: seq<ReviewScore>, asOf: Date, d: Dimension, rated: bool)
    requires forall r | r in rs :: d in r.ratings <==> rated
    ensures Sum(rs, asOf, Rated(d)) == if rated then Sum(rs, asOf, Weight) else 0.0
  {
    if rs != [] {
      EvenlyRated(rs[..|rs| - 1], asOf, d, rated);
      assert rs[|rs| - 1] in rs;
    }
  }

  lemma {:induction false} EvenlyShown(rs: seq<ReviewScore>, asOf: Date, dims: seq<Dimension>, r: ReviewScore)
    requires r in rs && forall q | q in rs :: q.ratings.Keys == r.ratings.Keys
    ensures Shown(rs, asOf, dims) == |PresentValues(r.ratings, dims)|
  {
    if dims != [] {
      EvenlyShown(rs, asOf, dims[1..], r);
      forall q | q in rs ensures dims[0] in q.ratings <==> dims[0] in r.ratings {
        assert dims[0] in q.ratings.Keys <==> dims[0] in r.ratings.Keys;
      }
      WeightsArePositive(rs, asOf);
      EvenlyRated(rs, asOf, dims[0], dims[0] in r.ratings);
      PresentStep(r.ratings, dims);
    }
  }

  lemma {:induction false} CountOfKeys(a: ReviewScore, b: ReviewScore, dims: seq<Dimension>)
    requires a.ratings.Keys == b.ratings.Keys
    ensures |PresentValues(a.ratings, dims)| == |PresentValues(b.ratings, dims)|
  {
    if dims != [] {
      CountOfKeys(a, b, dims[1..]);
      assert dims[0] in a.ratings.Keys <==> dims[0] in b.ratings.Keys;
      PresentStep(a.ratings, dims);
      PresentStep(b.ratings, dims);
    }
  }

  ghost predicate RateAlike(rs: seq<ReviewScore>, r: ReviewScore) {
    forall q | q in rs :: q.ratings.Keys == r.ratings.Keys
  }

  lemma AlikeFigures(rs: seq<ReviewScore>, asOf: Date, r: ReviewScore, i: nat, d: Dimension)
    requires RateAlike(rs, r) && r in rs && i < |rs| && d in rs[i].ratings
    ensures Breadth(rs[i]) == Shown(rs, asOf, DIMENSIONS) && Sum(rs, asOf, Rated(d)) == Sum(rs, asOf, Weight)
  {
    assert rs[i] in rs;
    EvenlyShown(rs, asOf, DIMENSIONS, r);
    CountOfKeys(rs[i], r, DIMENSIONS);
    forall q | q in rs ensures d in q.ratings {
      assert d in q.ratings.Keys <==> d in rs[i].ratings.Keys;
    }
    EvenlyRated(rs, asOf, d, true);
  }

  lemma AlikeBoth(a: real, b: real, x: real, y: real)
    requires a == x && b == y
    ensures Alike(a, b, x, y)
  {
  }

  lemma AlikeBalanced(rs: seq<ReviewScore>, asOf: Date, r: ReviewScore, i: nat, d: Dimension)
    requires RateAlike(rs, r) && r in rs && i < |rs| && d in rs[i].ratings
    ensures DimensionBalanced(rs, asOf, rs[i], d)
  {
    AlikeFigures(rs, asOf, r, i, d);
    AlikeBoth(Breadth(rs[i]) as real, Sum(rs, asOf, Weight), Shown(rs, asOf, DIMENSIONS) as real,
              Sum(rs, asOf, Rated(d)));
  }

  /** Reviews that all rate the same dimensions, ten or fewer, are balanced. */
  lemma SameDimensionsAgree(rs: seq<ReviewScore>, asOf: Date)
    requires rs != [] && rs[0].ratings != map[] && RateAlike(rs, rs[0])
    ensures Shown(rs, asOf, DIMENSIONS) > 0 && Balanced(rs, asOf) && AlwaysAgrees(rs, asOf)
  {
    var e :| e in rs[0].ratings;
    PresentSome(rs[0].ratings, e);
    EvenlyShown(rs, asOf, DIMENSIONS, rs[0]);
    forall i: nat, d: Dimension | i < |rs| && d in rs[i].ratings ensures DimensionBalanced(rs, asOf, rs[i], d) {
      AlikeBalanced(rs, asOf, rs[0], i, d);
    }
    AlwaysAgreesIffBalanced(rs, asOf);
  }
}
