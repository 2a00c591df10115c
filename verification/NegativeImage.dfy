/**
 What lighting does not cover: with the contrast reversed, every bit after the first flips
 but for the coefficients that are the median. With the cosine basis some photo and its
 negative are therefore not the same building.
 */
module NegativeImage {
  import opened Wrappers
  import opened Bits
  import opened PerceptualHash
  import opened HashLaws
  import opened CosineBasis
  import Phash

  // ------------------------------------------------------------ the median

  predicate Negates(s: seq<real>, t: seq<real>) {
    |s| == |t| && forall i | 0 <= i < |s| :: t[i] == -s[i]
  }

  lemma {:induction false} CountOpposite(s: seq<real>, t: seq<real>, p: real -> bool, q: real -> bool)
    requires |s| == |t| && forall i | 0 <= i < |s| :: q(t[i]) == !p(s[i])
    ensures CountIf(s, p) + CountIf(t, q) == |s|
  {
    if s != [] {
      CountOpposite(s[..|s| - 1], t[..|t| - 1], p, q);
    }
  }

  lemma {:induction false} CountWider(s: seq<real>, p: real -> bool, q: real -> bool)
    requires forall x :: p(x) ==> q(x)
    ensures CountIf(s, p) <= CountIf(s, q)
  {
    if s != [] {
      CountWider(s[..|s| - 1], p, q);
    }
  }

  lemma RankUnique(s: seq<real>, x: real, y: real, r: nat)
    requires Ranks(s, x, r) && Ranks(s, y, r)
    ensures x == y
  {
    if x < y {
      CountWider(s, z => z <= x, z => z < y);
    } else if y < x {
      CountWider(s, z => z <= y, z => z < x);
    }
  }

  lemma RankNegated(s: seq<real>, t: seq<real>, y: real, r: nat)
    requires Negates(s, t) && |s| == 2 * r + 1 && Ranks(t, y, r)
    ensures Ranks(s, -y, r)
  {
    CountOpposite(s, t, z => z <= -y, z => z < y);
    CountOpposite(s, t, z => z < -y, z => z <= y);
  }

  lemma MedianNegated(s: seq<real>, t: seq<real>)
    requires Negates(s, t) && |s| % 2 == 1
    ensures Median(t) == -Median(s)
  {
    MedianRanks(s);
    MedianRanks(t);
    RankNegated(s, t, Median(t), |s| / 2);
    RankUnique(s, Median(s), -Median(t), |s| / 2);
  }

  // --------------------------------------------------------- the flags

  /** With a contrast of -1, coefficients after the first change sign. */
  lemma BlockNegated(p: Matrix, q: Matrix, basis: Matrix, c: real)
    requires IsSquare(p, |basis|) && IsSquare(q, |basis|) && IsSquare(basis, |basis|)
    requires ZeroSumRows(basis) && 8 <= |basis|
    requires forall y | 0 <= y < |basis| :: Affine(p[y], q[y], -1.0, c)
    ensures Negates(Corner(Transform(p, basis), 8, 8)[1..], Corner(Transform(q, basis), 8, 8)[1..])
  {
    var s, t := Transform(p, basis), Transform(q, basis);
    forall x, y | 0 <= x < |basis| && 0 <= y < |basis| && (x, y) != (0, 0)
      ensures ScaledBy(s[x][y], t[x][y], -1.0)
    {
      CoefficientScaled(p, q, basis, -1.0, c, x, y);
    }
    CornerScaled(s, t, -1.0, 8, 8);
    var a, b := Corner(s, 8, 8), Corner(t, 8, 8);
    forall i | 1 <= i < 64 ensures b[i] == -a[i] {
      assert ScaledBy(a[i], b[i], -1.0);
    }
  }

  predicate Opposite(block: seq<real>, m: real, f: seq<bool>, g: seq<bool>) {
    |f| == |g| == |block| && forall i | 1 <= i < |block| :: f[i] != g[i] <==> block[i] != m
  }

  lemma FlagsOpposite(p: Matrix, q: Matrix, basis: Matrix, c: real, block: seq<real>)
    requires IsSquare(p, |basis|) && IsSquare(q, |basis|) && IsSquare(basis, |basis|)
    requires ZeroSumRows(basis) && 8 <= |basis|
    requires forall y | 0 <= y < |basis| :: Affine(p[y], q[y], -1.0, c)
    requires block == Corner(Transform(p, basis), 8, 8)
    ensures Opposite(block, Median(block[1..]), HashFlags(p, basis, 8), HashFlags(q, basis, 8))
  {
    var other := Corner(Transform(q, basis), 8, 8);
    BlockNegated(p, q, basis, c);
    MedianNegated(block[1..], other[1..]);
    forall i | 1 <= i < 64 ensures other[i] == -block[i] {
      assert other[1..][i - 1] == -block[1..][i - 1];
    }
  }

  /** Reversing the contrast flips exactly the bits after the first whose coefficient is not the median. */
  lemma NegativeFlips(p: Matrix, q: Matrix, basis: Matrix, c: real)
    requires IsSquare(p, |basis|) && IsSquare(q, |basis|) && IsSquare(basis, |basis|)
    requires ZeroSumRows(basis) && 8 <= |basis|
    requires forall y | 0 <= y < |basis| :: Affine(p[y], q[y], -1.0, c)
    ensures exists m ::
              && IsMedian(p, basis, 8, m)
              && forall i | 1 <= i < 64 ::
                   HashFlags(p, basis, 8)[i] != HashFlags(q, basis, 8)[i] <==> Coefficient(p, basis, 8, i) != m
  {
    var block := Corner(Transform(p, basis), 8, 8);
    BlockMedian(p, basis, 8, block[1..]);
    FlagsOpposite(p, q, basis, c, block);
    forall i: nat | i < 64 ensures block[i] == Coefficient(p, basis, 8, i) {
      BlockAt(p, basis, 8, i);
    }
  }

  // ------------------------------------------------------- a lit corner

  /** White in one corner, black elsewhere. */
  function LitCorner(n: nat): (m: Matrix)
    ensures IsSquare(m, n)
  {
    seq(n, y requires 0 <= y < n => seq(n, x requires 0 <= x < n => if x == 0 && y == 0 then 255.0 else 0.0))
  }

  function Negative(p: Matrix, n: nat): (m: Matrix)
    requires IsSquare(p, n)
    ensures IsSquare(m, n)
  {
    seq(n, y requires 0 <= y < n => seq(n, x requires 0 <= x < n => 255.0 - p[y][x]))
  }

  lemma {:induction false} LitRow(basis: Matrix, u: nat, v: nat, y: nat, k: nat)
    requires IsSquare(basis, |basis|) && u < |basis| && v < |basis| && y < |basis| && k <= |basis|
    ensures RowTotal(LitCorner(|basis|), basis, u, v, y, k)
            == if y == 0 && k > 0 then 255.0 * basis[u][0] * basis[v][0] else 0.0
  {
    if k != 0 {
      LitRow(basis, u, v, y, k - 1);
    }
  }

  lemma {:induction false} LitTotal(basis: Matrix, u: nat, v: nat, m: nat)
    requires IsSquare(basis, |basis|) && u < |basis| && v < |basis| && m <= |basis|
    ensures Total(LitCorner(|basis|), basis, u, v, m) == if m > 0 then 255.0 * basis[u][0] * basis[v][0] else 0.0
  {
    if m != 0 {
      LitTotal(basis, u, v, m - 1);
      LitRow(basis, u, v, m - 1, |basis|);
    }
  }

  predicate Holds(s: seq<real>, p: real -> bool, i: nat) {
    i < |s| && p(s[i])
  }

  /** At most one entry of the row passes. */
  ghost predicate AtMostOne(s: seq<real>, p: real -> bool) {
    forall i: nat, j: nat | Holds(s, p, i) && Holds(s, p, j) :: i == j
  }

  lemma {:induction false} CountAtMostOne(s: seq<real>, p: real -> bool)
    requires AtMostOne(s, p)
    ensures CountIf(s, p) <= 1
  {
    if s != [] {
      var k := |s| - 1;
      if p(s[k]) {
        forall i | 0 <= i < k ensures !p(s[i]) {
          assert Holds(s, p, k) && Holds(s, p, i) ==> i == k;
        }
        CountIfNone(s[..k], p);
      } else {
        forall i: nat, j: nat | Holds(s[..k], p, i) && Holds(s[..k], p, j) ensures i == j {
          assert Holds(s, p, i) && Holds(s, p, j);
        }
        CountAtMostOne(s[..k], p);
      }
    }
  }

  lemma {:induction false} CountByRows(dct: Matrix, k: nat, p: real -> bool)
    requires 8 <= |dct| && k <= 8 && IsSquare(dct, |dct|)
    requires forall y: nat | y < 8 :: AtMostOne(CornerRow(dct, 8, y), p)
    ensures CountIf(Corner(dct, 8, k), p) <= k
  {
    if k != 0 {
      CountByRows(dct, k - 1, p);
      CountIfAppend(Corner(dct, 8, k - 1), CornerRow(dct, 8, k - 1), p);
      CountAtMostOne(CornerRow(dct, 8, k - 1), p);
    }
  }

  lemma {:induction false} DifferencesAtLeast(f: seq<bool>, g: seq<bool>, s: seq<real>, p: real -> bool)
    requires |f| == |g| == |s| && forall i | 1 <= i < |s| :: p(s[i]) || f[i] != g[i]
    ensures Differences(f, g) + CountIf(s, p) + 1 >= |s|
  {
    if |s| > 1 {
      var k := |s| - 1;
      DifferencesAtLeast(f[..k], g[..k], s[..k], p);
    }
  }

  // -------------------------------------------------- with the cosine basis

  predicate SineProduct(t: Trigonometry, a: real, b: real) {
    2.0 * t.sin(a) * t.sin(b) == t.cos(b - a) - t.cos(b + a)
  }

  predicate PositiveCosine(t: Trigonometry, a: real) {
    0.0 <= a < t.pi / 2.0 ==> t.cos(a) > 0.0
  }

  /** Two more laws of trigonometry. */
  ghost predicate MoreLawful(t: Trigonometry) {
    && Lawful(t)
    && (forall a: real, b: real :: SineProduct(t, a, b))
    && (forall a: real :: PositiveCosine(t, a))
  }

  lemma CosineFalls(t: Trigonometry, x: real, y: real)
    requires MoreLawful(t) && 0.0 <= x < y < t.pi / 2.0
    ensures t.cos(x) > t.cos(y)
  {
    var a, b := (y - x) / 2.0, (x + y) / 2.0;
    assert SineProduct(t, a, b) && PositiveEarly(t, a) && PositiveEarly(t, b);
    Positive(t.sin(a), t.sin(b));
    assert b - a == x && b + a == y;
  }

  lemma Positive(a: real, b: real)
    requires a > 0.0 && b > 0.0
    ensures 2.0 * a * b > 0.0
  {
    assert a * b > 0.0;
  }

  /** The first entry of row k. */
  lemma FirstEntry(t: Trigonometry, n: nat, k: nat)
    requires k < n && t.pi > 0.0
    ensures DctBasis(t, n)[k][0] == t.cos(Multiple(k, t.pi / n as real) / 2.0)
    ensures 0.0 <= Multiple(k, t.pi / n as real) / 2.0 < t.pi / 2.0
  {
    var factor := t.pi / n as real;
    RowSteps(t, n, k, factor);
    assert StepAt(t, DctBasis(t, n)[k][0], 0, Multiple(k, factor));
    if k > 0 {
      StepInRange(t.pi, n, k, factor);
    }
  }

  lemma {:induction false} MultipleRises(j: nat, k: nat, x: real)
    requires x > 0.0 && j < k
    ensures Multiple(j, x) < Multiple(k, x)
  {
    if j < k - 1 {
      MultipleRises(j, k - 1, x);
    }
  }

  lemma FirstEntriesFall(t: Trigonometry, n: nat, j: nat, k: nat)
    requires j < k < n && MoreLawful(t)
    ensures DctBasis(t, n)[j][0] > DctBasis(t, n)[k][0] > 0.0
  {
    FirstEntry(t, n, j);
    FirstEntry(t, n, k);
    FirstEntryPositive(t, n, k);
    assert t.pi / n as real > 0.0;
    MultipleRises(j, k, t.pi / n as real);
    CosineFalls(t, Multiple(j, t.pi / n as real) / 2.0, Multiple(k, t.pi / n as real) / 2.0);
  }

  lemma FirstEntryPositive(t: Trigonometry, n: nat, k: nat)
    requires k < n && MoreLawful(t)
    ensures DctBasis(t, n)[k][0] > 0.0
  {
    FirstEntry(t, n, k);
    assert PositiveCosine(t, Multiple(k, t.pi / n as real) / 2.0);
  }

  lemma LitEntry(basis: Matrix, x: nat, y: nat)
    requires IsSquare(basis, |basis|) && 8 <= |basis| && x < 8 && y < 8
    ensures CornerRow(Transform(LitCorner(|basis|), basis), 8, y)[x] == 255.0 * basis[x][0] * basis[y][0]
  {
    TransformAt(LitCorner(|basis|), basis, x, y);
    LitTotal(basis, x, y, |basis|);
  }

  lemma ProductsDiffer(a: real, b: real, c: real)
    requires a > b > 0.0 && c > 0.0
    ensures 255.0 * a * c > 255.0 * b * c
  {
    assert (a - b) * c > 0.0;
  }

  /** No value occurs twice in a row of the corner. */
  lemma LitEntriesDiffer(t: Trigonometry, n: nat, x: nat, x': nat, y: nat)
    requires MoreLawful(t) && 8 <= n && x < x' < 8 && y < 8
    ensures var row := CornerRow(Transform(LitCorner(n), DctBasis(t, n)), 8, y);
            row[x] > row[x']
  {
    var basis := DctBasis(t, n);
    LitEntry(basis, x, y);
    LitEntry(basis, x', y);
    FirstEntriesFall(t, n, x, x');
    FirstEntryPositive(t, n, y);
    ProductsDiffer(basis[x][0], basis[x'][0], basis[y][0]);
  }

  lemma LitRowTies(t: Trigonometry, n: nat, y: nat, m: real)
    requires MoreLawful(t) && 8 <= n && y < 8
    ensures AtMostOne(CornerRow(Transform(LitCorner(n), DctBasis(t, n)), 8, y), z => z == m)
  {
    var row := CornerRow(Transform(LitCorner(n), DctBasis(t, n)), 8, y);
    var p: real -> bool := z => z == m;
    forall i: nat, j: nat | Holds(row, p, i) && Holds(row, p, j) ensures i == j {
      if i < j {
        LitEntriesDiffer(t, n, i, j, y);
      } else if j < i {
        LitEntriesDiffer(t, n, j, i, y);
      }
    }
  }

  lemma NegativeIsAffine(p: Matrix, n: nat)
    requires IsSquare(p, n)
    ensures forall y | 0 <= y < n :: Affine(p[y], Negative(p, n)[y], -1.0, 255.0)
  {
    forall y, x | 0 <= y < n && 0 <= x < n ensures Moves(p[y][x], Negative(p, n)[y][x], -1.0, 255.0) {
      assert Negative(p, n)[y][x] == 255.0 - p[y][x];
    }
  }

  /** At least 55 of the 64 bits differ. */
  lemma LitFlagsDiffer(t: Trigonometry, n: nat)
    requires MoreLawful(t) && 8 <= n
    ensures var p, basis := LitCorner(n), DctBasis(t, n);
            Differences(HashFlags(p, basis, 8), HashFlags(Negative(p, n), basis, 8)) >= 55
  {
    var p, basis := LitCorner(n), DctBasis(t, n);
    var dct := Transform(p, basis);
    var block := Corner(dct, 8, 8);
    var m := Median(block[1..]);
    RowsSumToZero(t, n);
    NegativeIsAffine(p, n);
    FlagsOpposite(p, Negative(p, n), basis, 255.0, block);
    forall y: nat | y < 8 ensures AtMostOne(CornerRow(dct, 8, y), z => z == m) {
      LitRowTies(t, n, y, m);
    }
    CountByRows(dct, 8, z => z == m);
    DifferencesAtLeast(HashFlags(p, basis, 8), HashFlags(Negative(p, n), basis, 8), block, z => z == m);
  }

  /** A photo white in one corner and its negative: more than ten bits apart, so two buildings. */
  lemma NegativeIsAnotherBuilding(t: Trigonometry, n: nat)
    requires MoreLawful(t) && 8 <= n
    ensures var a, b := Hash(LitCorner(n), DctBasis(t, n), 8), Hash(Negative(LitCorner(n), n), DctBasis(t, n), 8);
            && (exists d :: Phash.HammingDistance(a, b) == Ok(d) && d >= 55)
            && Phash.IsSameBuilding(a, b, Phash.DEFAULT_HAMMING_THRESHOLD) == Ok(false)
  {
    var f := HashFlags(LitCorner(n), DctBasis(t, n), 8);
    var g := HashFlags(Negative(LitCorner(n), n), DctBasis(t, n), 8);
    LitFlagsDiffer(t, n);
    HashTextWidth(f);
    HashTextWidth(g);
    Phash.DistanceOfFormatted(ToNat(f), ToNat(g), 16);
    XorCountsDifferences(f, g);
  }
}
