/**
 The cosine basis of app/services/media.py. Sine and cosine are any functions that obey a
 few laws of trigonometry; from these the rows after the first sum to zero, which is what
 the photo hash owes its tolerance of lighting to.
 */
module CosineBasis {
  import opened Wrappers
  import opened PerceptualHash
  import Phash

  datatype Trigonometry = Trigonometry(pi: real, sin: real -> real, cos: real -> real)

  predicate ProductToSum(t: Trigonometry, a: real, b: real) {
    2.0 * t.sin(a) * t.cos(b) == t.sin(b + a) - t.sin(b - a)
  }

  predicate Vanishes(t: Trigonometry, k: nat) {
    t.sin(Multiple(k, t.pi)) == 0.0
  }

  predicate PositiveEarly(t: Trigonometry, a: real) {
    0.0 < a < t.pi / 2.0 ==> t.sin(a) > 0.0
  }

  /** Product to sum, the zeros of the sine, and its sign on the first quarter. */
  ghost predicate Lawful(t: Trigonometry) {
    && t.pi > 0.0
    && (forall a: real, b: real :: ProductToSum(t, a, b))
    && (forall k: nat :: Vanishes(t, k))
    && (forall a: real :: PositiveEarly(t, a))
  }

  /** k times x. */
  function Multiple(k: nat, x: real): real {
    if k == 0 then 0.0 else Multiple(k - 1, x) + x
  }

  lemma {:induction false} MultipleIs(k: nat, x: real)
    ensures Multiple(k, x) == k as real * x
  {
    if k > 0 {
      MultipleIs(k - 1, x);
    }
  }

  function Angle(i: nat, k: nat, factor: real): real {
    (i as real + 0.5) * k as real * factor
  }

  /** `_dct_basis`. */
  function DctBasis(t: Trigonometry, n: nat): (basis: Matrix)
    requires n > 0
    ensures IsSquare(basis, n) && |basis| == n
  {
    var factor := t.pi / n as real;
    seq(n, k requires 0 <= k < n => seq(n, i requires 0 <= i < n => t.cos(Angle(i, k, factor))))
  }

  /** Entry i of row k is the cosine of (2 * i + 1) * k quarter turns over n. */
  lemma BasisEntry(t: Trigonometry, n: nat, k: nat, i: nat)
    requires k < n && i < n
    ensures DctBasis(t, n)[k][i] == t.cos((2.0 * i as real + 1.0) * k as real * t.pi / (2.0 * n as real))
  {
    SameAngle(i as real, k as real, t.pi, n as real);
    var factor := t.pi / n as real;
    assert DctBasis(t, n)[k][i] == t.cos(Angle(i, k, factor));
    assert Angle(i, k, factor) == (2.0 * i as real + 1.0) * k as real * t.pi / (2.0 * n as real);
  }

  lemma SameAngle(i: real, k: real, pi: real, n: real)
    requires n > 0.0
    ensures (i + 0.5) * k * (pi / n) == (2.0 * i + 1.0) * k * pi / (2.0 * n)
  {
    var x, y := (i + 0.5) * k, pi / n;
    assert (2.0 * i + 1.0) * k == 2.0 * x;
    Halved(x, y, pi, n);
  }

  lemma Halved(x: real, y: real, pi: real, n: real)
    requires n > 0.0 && y == pi / n
    ensures x * y == 2.0 * x * pi / (2.0 * n)
  {
    assert y * n == pi;
    assert 2.0 * x * pi == x * y * (2.0 * n);
  }

  /** One row, by its angular step: cosines half a step apart from its multiples. */
  predicate StepAt(t: Trigonometry, c: real, i: nat, step: real) {
    c == t.cos(Multiple(i, step) + step / 2.0)
  }

  ghost predicate Steps(t: Trigonometry, row: seq<real>, step: real) {
    forall i: nat | i < |row| :: StepAt(t, row[i], i, step)
  }

  lemma HalfMore(x: real, y: real, product: real)
    requires product == x * y
    ensures (x + 0.5) * y == product + y / 2.0
  {
  }

  lemma Regrouped(a: real, k: real, factor: real, y: real)
    requires y == k * factor
    ensures a * k * factor == a * y
  {
  }

  lemma AngleOf(i: nat, k: nat, factor: real, y: real, product: real)
    requires y == k as real * factor && product == i as real * y
    ensures Angle(i, k, factor) == product + y / 2.0
  {
    Regrouped(i as real + 0.5, k as real, factor, y);
    HalfMore(i as real, y, product);
  }

  lemma AngleIs(i: nat, k: nat, factor: real)
    ensures Angle(i, k, factor) == Multiple(i, Multiple(k, factor)) + Multiple(k, factor) / 2.0
  {
    var y := Multiple(k, factor);
    MultipleIs(i, y);
    MultipleIs(k, factor);
    AngleOf(i, k, factor, y, Multiple(i, y));
  }

  lemma RowSteps(t: Trigonometry, n: nat, k: nat, factor: real)
    requires k < n && factor == t.pi / n as real
    ensures Steps(t, DctBasis(t, n)[k], Multiple(k, factor))
  {
    forall i: nat | i < n ensures StepAt(t, DctBasis(t, n)[k][i], i, Multiple(k, factor)) {
      AngleIs(i, k, factor);
      assert DctBasis(t, n)[k][i] == t.cos(Angle(i, k, factor));
    }
  }

  /** One term, times twice the sine of half a step. */
  lemma Term(t: Trigonometry, c: real, i: nat, step: real, p: real)
    requires Lawful(t) && StepAt(t, c, i, step) && p == 2.0 * t.sin(step / 2.0)
    ensures p * c == t.sin(Multiple(i + 1, step)) - t.sin(Multiple(i, step))
  {
    var half := step / 2.0;
    var b := Multiple(i, step) + half;
    assert ProductToSum(t, half, b);
    assert b + half == Multiple(i + 1, step) && b - half == Multiple(i, step);
  }

  /** Times that factor, the sum of a row telescopes. */
  lemma {:induction false} Telescopes(t: Trigonometry, row: seq<real>, step: real, m: nat, p: real)
    requires Lawful(t) && Steps(t, row, step) && m <= |row| && p == 2.0 * t.sin(step / 2.0)
    ensures Shift(row, m, p) == t.sin(Multiple(m, step)) - t.sin(0.0)
  {
    if m > 0 {
      Telescopes(t, row, step, m - 1, p);
      Term(t, row[m - 1], m - 1, step, p);
    }
  }

  lemma StepInRange(pi: real, n: nat, k: nat, factor: real)
    requires pi > 0.0 && 0 < k < n && factor == pi / n as real
    ensures 0.0 < Multiple(k, factor) / 2.0 < pi / 2.0
    ensures Multiple(n, Multiple(k, factor)) == Multiple(k, pi)
  {
    MultipleIs(k, factor);
    MultipleIs(k, pi);
    MultipleIs(n, Multiple(k, factor));
    Fractions(pi, n as real, k as real, factor);
  }

  lemma Fractions(pi: real, n: real, k: real, factor: real)
    requires pi > 0.0 && 0.0 < k < n && factor == pi / n
    ensures 0.0 < k * factor < pi && n * (k * factor) == k * pi
  {
    assert factor * n == pi;
    assert factor > 0.0;
    assert k * factor > 0.0 && (n - k) * factor > 0.0;
    assert n * factor - k * factor == (n - k) * factor;
    assert n * (k * factor) == k * (factor * n);
  }

  /** Every row of the basis but the first sums to zero. */
  lemma RowsSumToZero(t: Trigonometry, n: nat)
    requires n > 0 && Lawful(t)
    ensures ZeroSumRows(DctBasis(t, n))
  {
    forall k | 1 <= k < n ensures RowSum(DctBasis(t, n)[k], n) == 0.0 {
      RowSumsToZero(t, n, k);
    }
  }

  lemma RowSumsToZero(t: Trigonometry, n: nat, k: nat)
    requires 0 < k < n && Lawful(t)
    ensures RowSum(DctBasis(t, n)[k], n) == 0.0
  {
    var factor := t.pi / n as real;
    var row, step := DctBasis(t, n)[k], Multiple(k, factor);
    RowSteps(t, n, k, factor);
    StepInRange(t.pi, n, k, factor);
    assert Vanishes(t, k) && Vanishes(t, 0) && PositiveEarly(t, step / 2.0);
    StepsSumToZero(t, row, step, 2.0 * t.sin(step / 2.0));
  }

  lemma StepsSumToZero(t: Trigonometry, row: seq<real>, step: real, p: real)
    requires Lawful(t) && Steps(t, row, step) && p == 2.0 * t.sin(step / 2.0) > 0.0
    requires t.sin(Multiple(|row|, step)) == t.sin(0.0)
    ensures RowSum(row, |row|) == 0.0
  {
    Telescopes(t, row, step, |row|, p);
    ShiftIsProduct(row, |row|, p);
    ZeroFactor(p, RowSum(row, |row|));
  }

  lemma ZeroFactor(p: real, r: real)
    requires p > 0.0 && p * r == 0.0
    ensures r == 0.0
  {
  }

  /** With that basis, brightness and contrast leave every flag but the first. */
  lemma LightingKeepsFlags(t: Trigonometry, p: Matrix, q: Matrix, n: nat, a: real, c: real, low: nat)
    requires Lawful(t) && 2 <= low <= n && IsSquare(p, n) && IsSquare(q, n)
    requires a > 0.0 && forall y | 0 <= y < n :: Affine(p[y], q[y], a, c)
    ensures forall i | 1 <= i < low * low ::
              HashFlags(q, DctBasis(t, n), low)[i] == HashFlags(p, DctBasis(t, n), low)[i]
  {
    RowsSumToZero(t, n);
    BrightnessKeepsFlags(p, q, DctBasis(t, n), a, c, low);
  }

  /**
   The promise on the published texts, with the basis the hash really uses: brighter,
   darker or with more or less contrast, still the same building.
   */
  lemma LightingInvariance(t: Trigonometry, p: Matrix, q: Matrix, n: nat, a: real, c: real)
    requires Lawful(t) && 8 <= n && IsSquare(p, n) && IsSquare(q, n)
    requires a > 0.0 && forall y | 0 <= y < n :: Affine(p[y], q[y], a, c)
    ensures var basis := DctBasis(t, n);
            && |Hash(p, basis, 8)| == |Hash(q, basis, 8)| == 16
            && (exists d :: Phash.HammingDistance(Hash(p, basis, 8), Hash(q, basis, 8)) == Ok(d) && d <= 1)
            && Phash.IsSameBuilding(Hash(p, basis, 8), Hash(q, basis, 8), Phash.DEFAULT_HAMMING_THRESHOLD) == Ok(true)
  {
    RowsSumToZero(t, n);
    BrightnessInvariance(p, q, DctBasis(t, n), a, c);
  }
}
