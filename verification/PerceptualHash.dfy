/**
 The 64-bit perceptual hash of app/services/media.py, on a square matrix of pixel
 values and exact reals. The cosine table is a parameter.
 */
module PerceptualHash {
  import opened Wrappers
  import opened Bits
  import opened Sorting
  import Phash

  type Matrix = seq<seq<real>>

  predicate IsSquare(m: Matrix, n: nat) {
    |m| == n && forall i | 0 <= i < n :: |m[i]| == n
  }

  /** The first k terms of the inner product. */
  function Dot(v: seq<real>, row: seq<real>, k: nat): real
    requires k <= |v| && k <= |row|
  {
    if k == 0 then 0.0 else Dot(v, row, k - 1) + v[k - 1] * row[k - 1]
  }

  /** The transform of a vector: its inner product with every basis row. */
  function Dct(v: seq<real>, basis: Matrix): (r: seq<real>)
    requires IsSquare(basis, |v|)
    ensures |r| == |v|
  {
    seq(|v|, k requires 0 <= k < |v| => Dot(v, basis[k], |v|))
  }

  method Dct1D(vector: seq<real>, basis: Matrix) returns (out: seq<real>)
    requires IsSquare(basis, |vector|)
    ensures out == Dct(vector, basis)
  {
    out := [];
    for k := 0 to |basis|
      invariant |out| == k
      invariant forall j | 0 <= j < k :: out[j] == Dot(vector, basis[j], |vector|)
    {
      var row, total := basis[k], 0.0;
      for i := 0 to |vector|
        invariant total == Dot(vector, row, i)
      {
        total := total + vector[i] * row[i];
      }
      out := out + [total];
    }
  }

  /** The row pass. */
  function RowPass(pixels: Matrix, basis: Matrix): (r: Matrix)
    requires IsSquare(pixels, |basis|) && IsSquare(basis, |basis|)
    ensures IsSquare(r, |basis|)
  {
    seq(|basis|, y requires 0 <= y < |basis| => Dct(pixels[y], basis))
  }

  function Column(m: Matrix, n: nat, x: nat): (c: seq<real>)
    requires IsSquare(m, n) && x < n
    ensures |c| == n
  {
    seq(n, y requires 0 <= y < n => m[y][x])
  }

  /** The two-dimensional transform, indexed [x][y]. */
  function Transform(pixels: Matrix, basis: Matrix): (r: Matrix)
    requires IsSquare(pixels, |basis|) && IsSquare(basis, |basis|)
    ensures IsSquare(r, |basis|)
  {
    var rows := RowPass(pixels, basis);
    seq(|basis|, x requires 0 <= x < |basis| => Dct(Column(rows, |basis|, x), basis))
  }

  /** Row y of the low-frequency corner. */
  function CornerRow(dct: Matrix, low: nat, y: nat): (r: seq<real>)
    requires low <= |dct| && y < |dct| && IsSquare(dct, |dct|)
    ensures |r| == low
  {
    seq(low, x requires 0 <= x < low => dct[x][y])
  }

  /** The first k rows of the corner, flattened. */
  function Corner(dct: Matrix, low: nat, k: nat): (r: seq<real>)
    requires low <= |dct| && k <= |dct| && IsSquare(dct, |dct|)
    ensures |r| == k * low
  {
    if k == 0 then [] else Corner(dct, low, k - 1) + CornerRow(dct, low, k - 1)
  }

  function Itself(x: real): real { x }

  function Median(s: seq<real>): real
    requires s != []
  {
    SortLength(s);
    var ordered := Sort(s, Itself);
    var mid := |ordered| / 2;
    if |ordered| % 2 == 1 then ordered[mid] else (ordered[mid - 1] + ordered[mid]) / 2.0
  }

  /** One flag per coefficient: above the median of all but the first? */
  function Flags(block: seq<real>): (r: seq<bool>)
    requires |block| >= 2
    ensures |r| == |block|
  {
    AboveFlags(block, Median(block[1..]))
  }

  function AboveFlags(block: seq<real>, m: real): (r: seq<bool>)
    ensures |r| == |block|
  {
    seq(|block|, i requires 0 <= i < |block| => block[i] > m)
  }

  function HashFlags(pixels: Matrix, basis: Matrix, low: nat): (r: seq<bool>)
    requires IsSquare(pixels, |basis|) && IsSquare(basis, |basis|)
    requires 2 <= low <= |basis|
    ensures |r| == low * low
  {
    assert low * low >= 2 * 2;
    Flags(Corner(Transform(pixels, basis), low, low))
  }

  function Hash(pixels: Matrix, basis: Matrix, low: nat): string
    requires IsSquare(pixels, |basis|) && IsSquare(basis, |basis|)
    requires 2 <= low <= |basis|
  {
    ToHex(ToNat(HashFlags(pixels, basis, low)), 16)
  }

  /** Row pass, column pass, corner, median threshold and bit packing. */
  method ComputeHash(pixels: Matrix, basis: Matrix, low: nat) returns (hash: string)
    requires IsSquare(pixels, |basis|) && IsSquare(basis, |basis|)
    requires 2 <= low <= |basis|
    ensures hash == Hash(pixels, basis, low)
  {
    var n := |basis|;
    var dctRows: Matrix := [];
    for y := 0 to n
      invariant |dctRows| == y
      invariant forall j | 0 <= j < y :: dctRows[j] == Dct(pixels[j], basis)
    {
      var row := Dct1D(pixels[y], basis);
      dctRows := dctRows + [row];
    }
    assert dctRows == RowPass(pixels, basis);
    var dct: Matrix := [];
    for x := 0 to n
      invariant |dct| == x
      invariant forall j | 0 <= j < x :: dct[j] == Dct(Column(dctRows, n, j), basis)
    {
      var col := Dct1D(Column(dctRows, n, x), basis);
      dct := dct + [col];
    }
    assert dct == Transform(pixels, basis);
    var block := Corner(dct, low, low);
    assert low * low >= 2 * 2;
    var bits := PackBits(block, Median(block[1..]));
    hash := ToHex(bits, 16);
  }

  /** Set bit |block| - 1 - i for each coefficient i above the median. */
  method PackBits(block: seq<real>, median: real) returns (bits: nat)
    ensures bits == ToNat(AboveFlags(block, median))
  {
    ghost var flags := AboveFlags(block, median);
    bits := 0;
    for i := 0 to |block|
      invariant bits == ToNat(flags[..i]) * Pow2(|block| - i)
    {
      ShiftIn(flags, i);
      // The bit is still clear, so setting it adds its value.
      if block[i] > median {
        bits := bits + Pow2(|block| - 1 - i);
      }
    }
    assert flags[..|block|] == flags;
  }

  lemma ShiftIn(flags: seq<bool>, i: nat)
    requires i < |flags|
    ensures ToNat(flags[..i + 1]) * Pow2(|flags| - i - 1)
            == ToNat(flags[..i]) * Pow2(|flags| - i) + if flags[i] then Pow2(|flags| - i - 1) else 0
  {
    assert flags[..i + 1][..i] == flags[..i];
    var high, p := ToNat(flags[..i]), Pow2(|flags| - 1 - i);
    assert Pow2(|flags| - i) == 2 * p;
    assert high * (2 * p) == 2 * high * p;
    assert (2 * high + 1) * p == 2 * high * p + p;
  }

  // ------------------------------------------------ brightness and contrast

  function RowSum(row: seq<real>, k: nat): real
    requires k <= |row|
  {
    if k == 0 then 0.0 else RowSum(row, k - 1) + row[k - 1]
  }

  /** Every basis row but the first sums to zero, as the cosine rows do. */
  predicate ZeroSumRows(basis: Matrix) {
    forall k | 1 <= k < |basis| :: RowSum(basis[k], |basis[k]|) == 0.0
  }

  predicate Moves(x: real, y: real, a: real, c: real) {
    y == a * x + c
  }

  /** Every entry of w is a times the one of v, plus c. */
  predicate Affine(v: seq<real>, w: seq<real>, a: real, c: real) {
    |v| == |w| && forall i | 0 <= i < |v| :: Moves(v[i], w[i], a, c)
  }

  /** What adding c everywhere adds to the product with a row: c times its sum. */
  function Shift(row: seq<real>, k: nat, c: real): real
    requires k <= |row|
  {
    if k == 0 then 0.0 else Shift(row, k - 1, c) + c * row[k - 1]
  }

  lemma {:induction false} ShiftIsProduct(row: seq<real>, k: nat, c: real)
    requires k <= |row|
    ensures Shift(row, k, c) == c * RowSum(row, k)
  {
    if k != 0 {
      ShiftIsProduct(row, k - 1, c);
    }
  }

  lemma NoShift(row: seq<real>, k: nat, c: real)
    requires k <= |row| && (c == 0.0 || RowSum(row, k) == 0.0)
    ensures Shift(row, k, c) == 0.0
  {
    ShiftIsProduct(row, k, c);
  }

  lemma {:induction false} DotAffine(v: seq<real>, w: seq<real>, row: seq<real>, a: real, c: real, k: nat)
    requires Affine(v, w, a, c) && k <= |v| && k <= |row|
    ensures Moves(Dot(v, row, k), Dot(w, row, k), a, Shift(row, k, c))
  {
    if k != 0 {
      DotAffine(v, w, row, a, c, k - 1);
      Distribute(v[k - 1], row[k - 1], Dot(v, row, k - 1), Shift(row, k - 1, c), a, c);
    }
  }

  lemma Distribute(v: real, r: real, d: real, s: real, a: real, c: real)
    ensures (a * d + s) + (a * v + c) * r == a * (d + v * r) + (s + c * r)
  {
    calc {
      a * (d + v * r) + (s + c * r);
      a * d + a * (v * r) + (s + c * r);
      a * d + a * v * r + (s + c * r);
    }
  }

  /** Column x of the row pass moves by one constant. */
  lemma ColumnAffine(p: Matrix, q: Matrix, basis: Matrix, a: real, c: real, x: nat)
    requires IsSquare(p, |basis|) && IsSquare(q, |basis|) && IsSquare(basis, |basis|) && x < |basis|
    requires forall y | 0 <= y < |basis| :: Affine(p[y], q[y], a, c)
    ensures Affine(Column(RowPass(p, basis), |basis|, x), Column(RowPass(q, basis), |basis|, x), a,
                   Shift(basis[x], |basis|, c))
  {
    forall y | 0 <= y < |basis|
      ensures Moves(RowPass(p, basis)[y][x], RowPass(q, basis)[y][x], a, Shift(basis[x], |basis|, c))
    {
      DotAffine(p[y], q[y], basis[x], a, c, |basis|);
      RowPassEntry(p, q, basis, a, x, y, Shift(basis[x], |basis|, c));
    }
  }

  lemma RowPassEntry(p: Matrix, q: Matrix, basis: Matrix, a: real, x: nat, y: nat, shift: real)
    requires IsSquare(p, |basis|) && IsSquare(q, |basis|) && IsSquare(basis, |basis|)
    requires x < |basis| && y < |basis|
    requires Moves(Dot(p[y], basis[x], |basis|), Dot(q[y], basis[x], |basis|), a, shift)
    ensures Moves(RowPass(p, basis)[y][x], RowPass(q, basis)[y][x], a, shift)
  {
    RowPassAt(p, basis, x, y);
    RowPassAt(q, basis, x, y);
  }

  lemma RowPassAt(p: Matrix, basis: Matrix, x: nat, y: nat)
    requires IsSquare(p, |basis|) && IsSquare(basis, |basis|) && x < |basis| && y < |basis|
    ensures RowPass(p, basis)[y][x] == Dot(p[y], basis[x], |basis|)
  {
    assert RowPass(p, basis)[y] == Dct(p[y], basis);
  }

  predicate ScaledBy(x: real, y: real, a: real) {
    y == a * x
  }

  lemma UnmovedIsScaled(x: real, y: real, a: real, s: real)
    requires Moves(x, y, a, s) && s == 0.0
    ensures ScaledBy(x, y, a)
  {
  }

  /** Every coefficient but the first is scaled by a, whatever c is. */
  lemma CoefficientScaled(p: Matrix, q: Matrix, basis: Matrix, a: real, c: real, x: nat, y: nat)
    requires IsSquare(p, |basis|) && IsSquare(q, |basis|) && IsSquare(basis, |basis|)
    requires ZeroSumRows(basis)
    requires forall y | 0 <= y < |basis| :: Affine(p[y], q[y], a, c)
    requires x < |basis| && y < |basis| && (x, y) != (0, 0)
    ensures ScaledBy(Transform(p, basis)[x][y], Transform(q, basis)[x][y], a)
  {
    var n := |basis|;
    var shift := Shift(basis[x], n, c);
    if x != 0 {
      NoShift(basis[x], n, c);
    }
    ColumnAffine(p, q, basis, a, c, x);
    DotAffine(Column(RowPass(p, basis), n, x), Column(RowPass(q, basis), n, x), basis[y], a, shift, n);
    NoShift(basis[y], n, shift);
    UnmovedIsScaled(Transform(p, basis)[x][y], Transform(q, basis)[x][y], a, Shift(basis[y], n, shift));
  }

  /** t is s scaled by a, from index k on. */
  predicate Scaled(s: seq<real>, t: seq<real>, a: real, k: nat) {
    |s| == |t| && forall i | k <= i < |s| :: ScaledBy(s[i], t[i], a)
  }

  lemma {:induction false} CornerScaled(s: Matrix, t: Matrix, a: real, low: nat, k: nat)
    requires IsSquare(s, |s|) && IsSquare(t, |s|) && 1 <= low <= |s| && k <= |s|
    requires forall x, y | 0 <= x < |s| && 0 <= y < |s| && (x, y) != (0, 0) :: ScaledBy(s[x][y], t[x][y], a)
    ensures Scaled(Corner(s, low, k), Corner(t, low, k), a, 1)
  {
    if k != 0 {
      CornerScaled(s, t, a, low, k - 1);
      if k > 1 {
        RowsBefore(low, k);
      }
    }
  }

  lemma RowsBefore(low: nat, k: nat)
    requires low >= 1 && k > 1
    ensures (k - 1) * low >= 1
  {
  }

  lemma ScaleKeepsOrder(a: real, x: real, y: real)
    requires a > 0.0
    ensures a * x <= a * y <==> x <= y
  {
    if x <= y {
      assert a * (y - x) >= 0.0;
    } else {
      assert a * (x - y) > 0.0;
    }
  }

  /** g keeps the order of the reals and of its values alike. */
  ghost predicate OrderEmbedding(g: real -> real) {
    forall x, y :: g(x) <= g(y) <==> x <= y
  }

  predicate Mapped(s: seq<real>, t: seq<real>, g: real -> real) {
    |s| == |t| && forall i | 0 <= i < |s| :: t[i] == g(s[i])
  }

  lemma {:induction false} InsertMapped(x: real, s: seq<real>, t: seq<real>, g: real -> real)
    requires OrderEmbedding(g) && Mapped(s, t, g)
    ensures Mapped(Insert(x, s, Itself), Insert(g(x), t, Itself), g)
  {
    if s != [] && s[0] < x {
      assert !(g(x) <= g(s[0]));
      InsertMapped(x, s[1..], t[1..], g);
    }
  }

  /** Sorting commutes with an order embedding. */
  lemma {:induction false} SortMapped(s: seq<real>, t: seq<real>, g: real -> real)
    requires OrderEmbedding(g) && Mapped(s, t, g)
    ensures Mapped(Sort(s, Itself), Sort(t, Itself), g)
  {
    if s != [] {
      SortMapped(s[1..], t[1..], g);
      InsertMapped(s[0], Sort(s[1..], Itself), Sort(t[1..], Itself), g);
    }
  }

  lemma SortScaled(s: seq<real>, t: seq<real>, a: real)
    requires a > 0.0 && Scaled(s, t, a, 0)
    ensures Scaled(Sort(s, Itself), Sort(t, Itself), a, 0)
  {
    var g: real -> real := x => a * x;
    forall x, y
      ensures g(x) <= g(y) <==> x <= y
    {
      ScaleKeepsOrder(a, x, y);
    }
    SortMapped(s, t, g);
  }

  lemma HalfScaled(a: real, x: real, y: real)
    ensures (a * x + a * y) / 2.0 == a * ((x + y) / 2.0)
  {
  }

  /** The median of scaled values is the scaled median. */
  lemma MedianScaled(s: seq<real>, t: seq<real>, a: real)
    requires a > 0.0 && s != [] && Scaled(s, t, a, 0)
    ensures ScaledBy(Median(s), Median(t), a)
  {
    SortScaled(s, t, a);
    SortLength(s);
    var p, q := Sort(s, Itself), Sort(t, Itself);
    var mid := |p| / 2;
    if |p| % 2 == 0 {
      HalfScaled(a, p[mid - 1], p[mid]);
    }
  }

  lemma SortLength(s: seq<real>)
    ensures |Sort(s, Itself)| == |s|
  {
    SortSorts(s, Itself);
    assert |Sort(s, Itself)| == |multiset(Sort(s, Itself))| == |multiset(s)|;
  }

  /** Flags of a block scaled everywhere but at the first place agree everywhere but there. */
  lemma FlagsScaled(s: seq<real>, t: seq<real>, a: real)
    requires a > 0.0 && |s| >= 2 && Scaled(s, t, a, 1)
    ensures forall i | 1 <= i < |s| :: Flags(t)[i] == Flags(s)[i]
  {
    MedianScaled(s[1..], t[1..], a);
    forall i | 1 <= i < |s|
      ensures Flags(t)[i] == Flags(s)[i]
    {
      ScaleKeepsOrder(a, s[i], Median(s[1..]));
    }
  }

  lemma {:induction false} DifferencesAtFirst(f: seq<bool>, g: seq<bool>)
    requires |f| == |g| >= 1 && forall i | 1 <= i < |f| :: f[i] == g[i]
    ensures Differences(f, g) == if f[0] == g[0] then 0 else 1
  {
    if |f| > 1 {
      DifferencesAtFirst(f[..|f| - 1], g[..|g| - 1]);
    } else {
      assert Differences(f[..0], g[..0]) == 0;
    }
  }

  /**
   Brightness and contrast: with a > 0, the image a * p + c has the flags of p
   everywhere but possibly at the first (overall brightness) coefficient.
   */
  lemma BrightnessKeepsFlags(p: Matrix, q: Matrix, basis: Matrix, a: real, c: real, low: nat)
    requires IsSquare(p, |basis|) && IsSquare(q, |basis|) && IsSquare(basis, |basis|)
    requires ZeroSumRows(basis) && 2 <= low <= |basis|
    requires a > 0.0 && forall y | 0 <= y < |basis| :: Affine(p[y], q[y], a, c)
    ensures forall i | 1 <= i < low * low :: HashFlags(q, basis, low)[i] == HashFlags(p, basis, low)[i]
    ensures Differences(HashFlags(p, basis, low), HashFlags(q, basis, low)) <= 1
  {
    var s, t := Transform(p, basis), Transform(q, basis);
    forall x, y | 0 <= x < |basis| && 0 <= y < |basis| && (x, y) != (0, 0)
      ensures ScaledBy(s[x][y], t[x][y], a)
    {
      CoefficientScaled(p, q, basis, a, c, x, y);
    }
    CornerScaled(s, t, a, low, low);
    assert low * low >= 2 * 2;
    FlagsScaled(Corner(s, low, low), Corner(t, low, low), a);
    DifferencesAtFirst(HashFlags(p, basis, low), HashFlags(q, basis, low));
  }

  /** The promise itself, on the published 16-digit texts: still the same building. */
  lemma BrightnessInvariance(p: Matrix, q: Matrix, basis: Matrix, a: real, c: real)
    requires IsSquare(p, |basis|) && IsSquare(q, |basis|) && IsSquare(basis, |basis|)
    requires ZeroSumRows(basis) && 8 <= |basis|
    requires a > 0.0 && forall y | 0 <= y < |basis| :: Affine(p[y], q[y], a, c)
    ensures |Hash(p, basis, 8)| == |Hash(q, basis, 8)| == 16
    ensures exists d :: Phash.HammingDistance(Hash(p, basis, 8), Hash(q, basis, 8)) == Ok(d) && d <= 1
    ensures Phash.IsSameBuilding(Hash(p, basis, 8), Hash(q, basis, 8), Phash.DEFAULT_HAMMING_THRESHOLD)
            == Ok(true)
  {
    var f, g := HashFlags(p, basis, 8), HashFlags(q, basis, 8);
    BrightnessKeepsFlags(p, q, basis, a, c, 8);
    HashTextWidth(f);
    HashTextWidth(g);
    Phash.DistanceOfFormatted(ToNat(f), ToNat(g), 16);
    XorCountsDifferences(f, g);
  }

  lemma HashTextWidth(flags: seq<bool>)
    requires |flags| == 64
    ensures |ToHex(ToNat(flags), 16)| == 16
  {
    ToNatBound(flags);
    HexWidth(ToNat(flags), 16);
  }

  // ------------------------------------------------------ at most half are set

  function Above(s: seq<real>, m: real): nat {
    if s == [] then 0 else Above(s[1..], m) + if s[0] > m then 1 else 0
  }

  lemma {:induction false} AboveAppend(s: seq<real>, x: real, m: real)
    ensures Above(s + [x], m) == Above(s, m) + if x > m then 1 else 0
  {
    if s == [] {
      assert Above([x][1..], m) == 0;
    } else {
      AboveAppend(s[1..], x, m);
      assert (s + [x])[1..] == s[1..] + [x];
    }
  }

  lemma {:induction false} AboveInsert(x: real, s: seq<real>, m: real)
    ensures Above(Insert(x, s, Itself), m) == Above(s, m) + if x > m then 1 else 0
  {
    if s == [] || x <= s[0] {
      assert ([x] + s)[1..] == s;
    } else {
      AboveInsert(x, s[1..], m);
      assert ([s[0]] + Insert(x, s[1..], Itself))[1..] == Insert(x, s[1..], Itself);
    }
  }

  lemma {:induction false} AboveSort(s: seq<real>, m: real)
    ensures Above(Sort(s, Itself), m) == Above(s, m)
  {
    if s != [] {
      AboveSort(s[1..], m);
      AboveInsert(s[0], Sort(s[1..], Itself), m);
    }
  }

  lemma {:induction false} AboveTail(s: seq<real>, m: real, k: nat)
    requires k <= |s| && forall i | 0 <= i < k :: s[i] <= m
    ensures Above(s, m) <= |s| - k
  {
    if s != [] {
      AboveTail(s[1..], m, if k == 0 then 0 else k - 1);
    }
  }

  /** The lower half of the sorted values does not exceed the median. */
  lemma MedianCoversLowerHalf(ordered: seq<real>, i: nat)
    requires Ascending(ordered, Itself) && i < (|ordered| + 1) / 2
    ensures |ordered| % 2 == 1 ==> ordered[i] <= ordered[|ordered| / 2]
    ensures |ordered| % 2 == 0 ==> ordered[i] <= (ordered[|ordered| / 2 - 1] + ordered[|ordered| / 2]) / 2.0
  {
    var mid := |ordered| / 2;
    assert i < mid ==> Itself(ordered[i]) <= Itself(ordered[mid]);
    if |ordered| % 2 == 0 {
      assert Itself(ordered[mid - 1]) <= Itself(ordered[mid]);
      assert i < mid - 1 ==> Itself(ordered[i]) <= Itself(ordered[mid - 1]);
    }
  }

  /** At most half of the values exceed their median. */
  lemma AboveMedian(s: seq<real>)
    requires s != []
    ensures Above(s, Median(s)) <= |s| / 2
  {
    SortSorts(s, Itself);
    SortLength(s);
    var ordered := Sort(s, Itself);
    forall i | 0 <= i < (|s| + 1) / 2
      ensures ordered[i] <= Median(s)
    {
      MedianCoversLowerHalf(ordered, i);
    }
    AboveSort(s, Median(s));
    AboveTail(ordered, Median(s), (|s| + 1) / 2);
  }

  lemma {:induction false} CountTrueIsAbove(flags: seq<bool>, s: seq<real>, m: real)
    requires |flags| == |s| && forall i | 0 <= i < |s| :: flags[i] == (s[i] > m)
    ensures CountTrue(flags) == Above(s, m)
  {
    if s != [] {
      var n := |s| - 1;
      CountTrueIsAbove(flags[..n], s[..n], m);
      assert s == s[..n] + [s[n]];
      AboveAppend(s[..n], s[n], m);
    }
  }

  /** At most half of the bits after the first are set, so at most 32 of 64. */
  lemma AtMostHalfSet(pixels: Matrix, basis: Matrix, low: nat)
    requires IsSquare(pixels, |basis|) && IsSquare(basis, |basis|)
    requires 2 <= low <= |basis|
    ensures BitCount(ToNat(HashFlags(pixels, basis, low))) <= (low * low - 1) / 2 + 1
    ensures low == 8 ==> BitCount(ToNat(HashFlags(pixels, basis, low))) <= 32
    ensures FromHex(Hash(pixels, basis, low)) == Some(ToNat(HashFlags(pixels, basis, low)))
  {
    assert low * low >= 2 * 2;
    var block := Corner(Transform(pixels, basis), low, low);
    var m := Median(block[1..]);
    CountTrueIsAbove(Flags(block), block, m);
    BitCountIsCountTrue(Flags(block));
    AboveMedian(block[1..]);
    HexRoundTrip(ToNat(Flags(block)), 16);
  }
}
