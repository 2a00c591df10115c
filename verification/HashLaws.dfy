/** Which bits of the photo hash are set, said of the pixels and the basis alone. */
module HashLaws {
  import opened Bits
  import opened Sorting
  import opened PerceptualHash

  // ------------------------------------------------------- the coefficients

  /** The first k pixels of row y, each times an entry of basis row u and the y-th of basis row v. */
  function RowTotal(pixels: Matrix, basis: Matrix, u: nat, v: nat, y: nat, k: nat): real
    requires IsSquare(pixels, |basis|) && IsSquare(basis, |basis|)
    requires u < |basis| && v < |basis| && y < |basis| && k <= |basis|
  {
    if k == 0 then 0.0
    else RowTotal(pixels, basis, u, v, y, k - 1) + pixels[y][k - 1] * basis[u][k - 1] * basis[v][y]
  }

  /** The double sum over the first m rows. */
  function Total(pixels: Matrix, basis: Matrix, u: nat, v: nat, m: nat): real
    requires IsSquare(pixels, |basis|) && IsSquare(basis, |basis|)
    requires u < |basis| && v < |basis| && m <= |basis|
  {
    if m == 0 then 0.0
    else Total(pixels, basis, u, v, m - 1) + RowTotal(pixels, basis, u, v, m - 1, |basis|)
  }

  /** The i-th coefficient of the low-frequency corner. */
  function Coefficient(pixels: Matrix, basis: Matrix, low: nat, i: nat): real
    requires IsSquare(pixels, |basis|) && IsSquare(basis, |basis|)
    requires 2 <= low <= |basis| && i < low * low
  {
    InCorner(low, i);
    Total(pixels, basis, i % low, i / low, |basis|)
  }

  lemma InCorner(low: nat, i: nat)
    requires low >= 1 && i < low * low
    ensures i / low < low
  {
  }

  lemma ThreeFactors(s: real, p: real, b: real, c: real, scaled: real)
    requires scaled == s * c
    ensures scaled + p * b * c == (s + p * b) * c
  {
  }

  lemma {:induction false} RowTotalIsDot(pixels: Matrix, basis: Matrix, u: nat, v: nat, y: nat, k: nat)
    requires IsSquare(pixels, |basis|) && IsSquare(basis, |basis|)
    requires u < |basis| && v < |basis| && y < |basis| && k <= |basis|
    ensures RowTotal(pixels, basis, u, v, y, k) == Dot(pixels[y], basis[u], k) * basis[v][y]
  {
    if k != 0 {
      RowTotalIsDot(pixels, basis, u, v, y, k - 1);
      ThreeFactors(Dot(pixels[y], basis[u], k - 1), pixels[y][k - 1], basis[u][k - 1], basis[v][y],
                   RowTotal(pixels, basis, u, v, y, k - 1));
    }
  }

  lemma {:induction false} TotalIsDot(pixels: Matrix, basis: Matrix, u: nat, v: nat, m: nat)
    requires IsSquare(pixels, |basis|) && IsSquare(basis, |basis|)
    requires u < |basis| && v < |basis| && m <= |basis|
    ensures Total(pixels, basis, u, v, m) == Dot(Column(RowPass(pixels, basis), |basis|, u), basis[v], m)
  {
    if m != 0 {
      TotalIsDot(pixels, basis, u, v, m - 1);
      RowTotalIsDot(pixels, basis, u, v, m - 1, |basis|);
      RowPassAt(pixels, basis, u, m - 1);
    }
  }

  lemma TransformAt(pixels: Matrix, basis: Matrix, u: nat, v: nat)
    requires IsSquare(pixels, |basis|) && IsSquare(basis, |basis|) && u < |basis| && v < |basis|
    ensures Transform(pixels, basis)[u][v] == Total(pixels, basis, u, v, |basis|)
  {
    TotalIsDot(pixels, basis, u, v, |basis|);
    assert Transform(pixels, basis)[u] == Dct(Column(RowPass(pixels, basis), |basis|, u), basis);
  }

  lemma {:induction false} CornerAt(dct: Matrix, low: nat, k: nat, i: nat)
    requires 1 <= low <= |dct| && k <= |dct| && IsSquare(dct, |dct|) && i < k * low
    ensures i / low < k && Corner(dct, low, k)[i] == dct[i % low][i / low]
  {
    RowOf(low, k, i);
    if i / low < k - 1 {
      BeforeRow(low, k - 1, i);
      CornerAt(dct, low, k - 1, i);
    } else {
      LastRow(low, k, i);
    }
  }

  lemma RowOf(low: nat, k: nat, i: nat)
    requires low >= 1 && i < k * low
    ensures i / low < k
  {
  }

  lemma BeforeRow(low: nat, k: nat, i: nat)
    requires low >= 1 && i / low < k
    ensures i < k * low
  {
    var q, r := i / low, i % low;
    assert i == q * low + r;
    assert (q + 1) * low <= k * low;
  }

  lemma LastRow(low: nat, k: nat, i: nat)
    requires low >= 1 && k >= 1 && i / low == k - 1
    ensures i == (k - 1) * low + i % low
  {
  }

  /** Every coefficient of the block the method thresholds is the double sum. */
  lemma BlockAt(pixels: Matrix, basis: Matrix, low: nat, i: nat)
    requires IsSquare(pixels, |basis|) && IsSquare(basis, |basis|) && 2 <= low <= |basis| && i < low * low
    ensures Corner(Transform(pixels, basis), low, low)[i] == Coefficient(pixels, basis, low, i)
  {
    CornerAt(Transform(pixels, basis), low, low, i);
    InCorner(low, i);
    TransformAt(pixels, basis, i % low, i / low);
  }

  // ------------------------------------------------------------ the median

  function CountIf(s: seq<real>, p: real -> bool): nat {
    if s == [] then 0 else CountIf(s[..|s| - 1], p) + if p(s[|s| - 1]) then 1 else 0
  }

  ghost function After(s: seq<real>, p: real -> bool): set<nat> {
    set i: nat | 1 <= i < |s| && p(s[i])
  }

  lemma AfterGrows(front: seq<real>, x: real, p: real -> bool)
    requires |front| >= 1
    ensures |After(front + [x], p)| == |After(front, p)| + if p(x) then 1 else 0
  {
    var all := After(front + [x], p);
    assert (front + [x])[|front|] == x;
    forall i: nat ensures i in all <==> i in After(front, p) || (i == |front| && p(x)) {
      assert i < |front| ==> (front + [x])[i] == front[i];
    }
    assert all == After(front, p) + if p(x) then {|front|} else {};
  }

  lemma {:induction false} CountAfterFirst(s: seq<real>, p: real -> bool)
    requires |s| >= 1
    ensures CountIf(s[1..], p) == |After(s, p)|
  {
    if |s| == 1 {
      assert After(s, p) == {};
    } else {
      var k := |s| - 1;
      CountAfterFirst(s[..k], p);
      AfterGrows(s[..k], s[k], p);
      assert s == s[..k] + [s[k]];
      assert s[1..][..k - 1] == s[..k][1..];
    }
  }

  lemma {:induction false} CountIfAppend(a: seq<real>, b: seq<real>, p: real -> bool)
    ensures CountIf(a + b, p) == CountIf(a, p) + CountIf(b, p)
  {
    if b == [] {
      assert a + b == a;
    } else {
      var k := |b| - 1;
      CountIfAppend(a, b[..k], p);
      assert (a + b)[..|a + b| - 1] == a + b[..k];
    }
  }

  lemma {:induction false} CountIfInsert(x: real, s: seq<real>, p: real -> bool)
    ensures CountIf(Insert(x, s, Itself), p) == CountIf(s, p) + if p(x) then 1 else 0
  {
    if s == [] || x <= s[0] {
      CountIfAppend([x], s, p);
      CountIfOne(x, p);
    } else {
      CountIfInsert(x, s[1..], p);
      CountIfAppend([s[0]], Insert(x, s[1..], Itself), p);
      CountIfAppend([s[0]], s[1..], p);
      assert [s[0]] + s[1..] == s;
    }
  }

  lemma CountIfOne(x: real, p: real -> bool)
    ensures CountIf([x], p) == if p(x) then 1 else 0
  {
    assert [x][..0] == [];
  }

  lemma {:induction false} CountIfSort(s: seq<real>, p: real -> bool)
    ensures CountIf(Sort(s, Itself), p) == CountIf(s, p)
  {
    if s != [] {
      CountIfSort(s[1..], p);
      CountIfInsert(s[0], Sort(s[1..], Itself), p);
      CountIfAppend([s[0]], s[1..], p);
      CountIfOne(s[0], p);
      assert [s[0]] + s[1..] == s;
    }
  }

  lemma {:induction false} CountIfNone(s: seq<real>, p: real -> bool)
    requires forall i | 0 <= i < |s| :: !p(s[i])
    ensures CountIf(s, p) == 0
  {
    if s != [] {
      CountIfNone(s[..|s| - 1], p);
    }
  }

  lemma {:induction false} CountIfAll(s: seq<real>, p: real -> bool)
    requires forall i | 0 <= i < |s| :: p(s[i])
    ensures CountIf(s, p) == |s|
  {
    if s != [] {
      CountIfAll(s[..|s| - 1], p);
    }
  }

  lemma CountIfAtMost(s: seq<real>, p: real -> bool)
    ensures CountIf(s, p) <= |s|
  {
    if s != [] {
      CountIfAtMost(s[..|s| - 1], p);
    }
  }

  /** At most r of the values are smaller than x, and more than r are not greater. */
  ghost predicate Ranks(s: seq<real>, x: real, r: nat) {
    CountIf(s, y => y < x) <= r < CountIf(s, y => y <= x)
  }

  lemma SortedRanks(ordered: seq<real>, r: nat)
    requires Ascending(ordered, Itself) && r < |ordered|
    ensures Ranks(ordered, ordered[r], r)
  {
    var x := ordered[r];
    assert ordered == ordered[..r] + ordered[r..] == ordered[..r + 1] + ordered[r + 1..];
    forall i | r <= i < |ordered| ensures !(ordered[i] < x) {
      assert i == r || Itself(ordered[r]) <= Itself(ordered[i]);
    }
    forall i | 0 <= i <= r ensures ordered[i] <= x {
      assert i == r || Itself(ordered[i]) <= Itself(ordered[r]);
    }
    CountIfAppend(ordered[..r], ordered[r..], y => y < x);
    CountIfNone(ordered[r..], y => y < x);
    CountIfAtMost(ordered[..r], y => y < x);
    CountIfAppend(ordered[..r + 1], ordered[r + 1..], y => y <= x);
    CountIfAll(ordered[..r + 1], y => y <= x);
  }

  lemma RanksUnsorted(s: seq<real>, x: real, r: nat)
    requires Ranks(Sort(s, Itself), x, r)
    ensures Ranks(s, x, r)
  {
    CountIfSort(s, y => y < x);
    CountIfSort(s, y => y <= x);
  }

  predicate IsMean(a: real, b: real, m: real) {
    m == (a + b) / 2.0
  }

  lemma MedianRanks(s: seq<real>)
    requires s != []
    ensures |s| % 2 == 1 ==> Ranks(s, Median(s), |s| / 2)
    ensures |s| % 2 == 0 ==>
              exists a, b :: IsMean(a, b, Median(s)) && Ranks(s, a, |s| / 2 - 1) && Ranks(s, b, |s| / 2)
  {
    SortSorts(s, Itself);
    SortLength(s);
    var ordered, mid := Sort(s, Itself), |s| / 2;
    SortedRanks(ordered, mid);
    RanksUnsorted(s, ordered[mid], mid);
    if |s| % 2 == 0 {
      SortedRanks(ordered, mid - 1);
      RanksUnsorted(s, ordered[mid - 1], mid - 1);
      assert IsMean(ordered[mid - 1], ordered[mid], Median(s));
    }
  }

  /** Of the coefficients after the first, at most r are smaller than x and more than r are not greater. */
  ghost predicate HasRank(pixels: Matrix, basis: Matrix, low: nat, x: real, r: nat)
    requires IsSquare(pixels, |basis|) && IsSquare(basis, |basis|) && 2 <= low <= |basis|
  {
    |set i: nat | 1 <= i < low * low && Coefficient(pixels, basis, low, i) < x| <= r
    < |set i: nat | 1 <= i < low * low && Coefficient(pixels, basis, low, i) <= x|
  }

  /** The value of the middle rank among the coefficients after the first, or the mean of the two. */
  ghost predicate IsMedian(pixels: Matrix, basis: Matrix, low: nat, m: real)
    requires IsSquare(pixels, |basis|) && IsSquare(basis, |basis|) && 2 <= low <= |basis|
  {
    if low % 2 == 0 then HasRank(pixels, basis, low, m, MiddleRank(low))
    else
      exists a, b ::
        && IsMean(a, b, m)
        && HasRank(pixels, basis, low, a, MiddleRank(low) - 1) && HasRank(pixels, basis, low, b, MiddleRank(low))
  }

  function MiddleRank(low: nat): (r: nat)
    requires low >= 2
    ensures r >= 1
  {
    assert low * low >= 2 * 2;
    (low * low - 1) / 2
  }

  lemma RanksOfBlock(pixels: Matrix, basis: Matrix, low: nat, x: real, r: nat)
    requires IsSquare(pixels, |basis|) && IsSquare(basis, |basis|) && 2 <= low <= |basis|
    requires low * low >= 1 && Ranks(Corner(Transform(pixels, basis), low, low)[1..], x, r)
    ensures HasRank(pixels, basis, low, x, r)
  {
    var block := Corner(Transform(pixels, basis), low, low);
    CountAfterFirst(block, y => y < x);
    CountAfterFirst(block, y => y <= x);
    forall i: nat | i < low * low ensures block[i] == Coefficient(pixels, basis, low, i) {
      BlockAt(pixels, basis, low, i);
    }
    assert After(block, y => y < x) == set i: nat | 1 <= i < low * low && Coefficient(pixels, basis, low, i) < x;
    assert After(block, y => y <= x) == set i: nat | 1 <= i < low * low && Coefficient(pixels, basis, low, i) <= x;
  }

  lemma Parity(low: nat)
    requires low >= 2
    ensures low * low >= 4 && (low * low - 1) % 2 == (low + 1) % 2
  {
    if low % 2 == 0 {
      assert low * low == 2 * (low / 2 * low);
    } else {
      assert low == 2 * (low / 2) + 1;
      assert low * low == 2 * (low / 2 * low) + low;
    }
  }

  lemma MiddleIs(low: nat)
    requires low >= 2
    ensures low * low - 1 == if low % 2 == 0 then 2 * MiddleRank(low) + 1 else 2 * MiddleRank(low)
  {
    Parity(low);
    Halved(low * low - 1, low);
  }

  lemma Halved(n: nat, low: nat)
    requires n % 2 == (low + 1) % 2
    ensures n == if low % 2 == 0 then 2 * (n / 2) + 1 else 2 * (n / 2)
  {
  }

  lemma BlockMedian(pixels: Matrix, basis: Matrix, low: nat, rest: seq<real>)
    requires IsSquare(pixels, |basis|) && IsSquare(basis, |basis|) && 2 <= low <= |basis| && low * low >= 4
    requires rest == Corner(Transform(pixels, basis), low, low)[1..]
    ensures IsMedian(pixels, basis, low, Median(rest))
  {
    MiddleIs(low);
    if low % 2 == 0 {
      OddMedian(pixels, basis, low, rest, MiddleRank(low));
    } else {
      EvenMedian(pixels, basis, low, rest, MiddleRank(low));
    }
  }

  lemma OddMedian(pixels: Matrix, basis: Matrix, low: nat, rest: seq<real>, r: nat)
    requires IsSquare(pixels, |basis|) && IsSquare(basis, |basis|) && 2 <= low <= |basis| && low * low >= 1
    requires rest == Corner(Transform(pixels, basis), low, low)[1..] && |rest| == 2 * r + 1
    ensures HasRank(pixels, basis, low, Median(rest), r)
  {
    var m := Middle(rest, r);
    RanksOfBlock(pixels, basis, low, m, r);
  }

  lemma Middle(s: seq<real>, r: nat) returns (m: real)
    requires |s| == 2 * r + 1
    ensures m == Median(s) && Ranks(s, m, r)
  {
    MedianRanks(s);
    m := Median(s);
  }

  lemma EvenMedian(pixels: Matrix, basis: Matrix, low: nat, rest: seq<real>, r: nat)
    requires IsSquare(pixels, |basis|) && IsSquare(basis, |basis|) && 2 <= low <= |basis| && low * low >= 1
    requires rest == Corner(Transform(pixels, basis), low, low)[1..] && |rest| == 2 * r && r >= 1
    ensures exists a, b ::
              && IsMean(a, b, Median(rest))
              && HasRank(pixels, basis, low, a, r - 1) && HasRank(pixels, basis, low, b, r)
  {
    var a, b := MiddleTwo(rest, r);
    RanksOfBlock(pixels, basis, low, a, r - 1);
    RanksOfBlock(pixels, basis, low, b, r);
  }

  lemma MiddleTwo(s: seq<real>, r: nat) returns (a: real, b: real)
    requires |s| == 2 * r && r >= 1
    ensures IsMean(a, b, Median(s)) && Ranks(s, a, r - 1) && Ranks(s, b, r)
  {
    MedianRanks(s);
    a, b :| IsMean(a, b, Median(s)) && Ranks(s, a, |s| / 2 - 1) && Ranks(s, b, |s| / 2);
  }

  // -------------------------------------------------------------- the text

  lemma HalfFirst(n: nat, p: nat)
    requires p > 0
    ensures n / (2 * p) == n / 2 / p
  {
    var q, r := n / 2 / p, n / 2 % p;
    assert n / 2 == q * p + r;
    assert n == q * (2 * p) + (2 * r + n % 2);
    QuotientIs(n, 2 * p, q, 2 * r + n % 2);
  }

  lemma QuotientIs(n: nat, d: nat, q: nat, r: nat)
    requires n == q * d + r && r < d
    ensures n / d == q
  {
    var e := n / d;
    assert e * d + n % d == n;
    SmallMultiple(e - q, d);
    assert (e - q) * d == e * d - q * d;
  }

  lemma SmallMultiple(e: int, d: int)
    requires d > 0
    ensures -d < e * d < d ==> e == 0
  {
    assert e > 0 ==> (e - 1) * d >= 0;
    assert e < 0 ==> (-e - 1) * d >= 0;
  }

  lemma {:induction false} BitOf(flags: seq<bool>, i: nat)
    requires i < |flags|
    ensures ToNat(flags) / Pow2(|flags| - 1 - i) % 2 == if flags[i] then 1 else 0
  {
    var front := flags[..|flags| - 1];
    if i < |flags| - 1 {
      BitOf(front, i);
      HalfOf(front, flags[|flags| - 1], flags);
      HalfFirst(ToNat(flags), Pow2(|front| - 1 - i));
    } else {
      HalfOf(front, flags[i], flags);
    }
  }

  lemma HalfOf(front: seq<bool>, last: bool, flags: seq<bool>)
    requires flags != [] && front == flags[..|flags| - 1] && last == flags[|flags| - 1]
    ensures ToNat(flags) / 2 == ToNat(front) && ToNat(flags) % 2 == if last then 1 else 0
  {
  }

  /** Each digit of the text spells four flags. */
  predicate Spells(text: string, flags: seq<bool>) {
    && |flags| == 4 * |text|
    && forall j | 0 <= j < |text| ::
         text[j] == HexDigit(Four(flags[4 * j], flags[4 * j + 1], flags[4 * j + 2], flags[4 * j + 3]))
  }

  function Four(a: bool, b: bool, c: bool, d: bool): (n: nat)
    ensures n < 16
  {
    (if a then 8 else 0) + (if b then 4 else 0) + (if c then 2 else 0) + if d then 1 else 0
  }

  lemma OneMore(front: seq<bool>, b: bool)
    ensures ToNat(front + [b]) == 2 * ToNat(front) + if b then 1 else 0
  {
    assert (front + [b])[..|front|] == front;
  }

  lemma FourMore(front: seq<bool>, a: bool, b: bool, c: bool, d: bool)
    ensures ToNat(front + [a, b, c, d]) == 16 * ToNat(front) + Four(a, b, c, d)
  {
    TwoMore(front, a, b);
    TwoMore(front + [a, b], c, d);
    assert front + [a, b] + [c, d] == front + [a, b, c, d];
  }

  lemma TwoMore(front: seq<bool>, a: bool, b: bool)
    ensures ToNat(front + [a, b]) == 4 * ToNat(front) + (if a then 2 else 0) + if b then 1 else 0
  {
    OneMore(front, a);
    OneMore(front + [a], b);
    assert front + [a] + [b] == front + [a, b];
  }

  lemma SpellsMore(text: string, front: seq<bool>, last: seq<bool>)
    requires Spells(text, front) && |last| == 4
    ensures Spells(text + [HexDigit(Four(last[0], last[1], last[2], last[3]))], front + last)
  {
  }

  lemma {:induction false} TextSpells(flags: seq<bool>, width: nat)
    requires |flags| == 4 * width && width >= 1
    ensures Spells(ToHex(ToNat(flags), width), flags)
  {
    var front, last := flags[..|flags| - 4], flags[|flags| - 4..];
    assert flags == front + last;
    if width > 1 {
      TextSpells(front, width - 1);
      MoreSpelled(front, last, width);
    } else {
      OneSpelled(front, last);
    }
  }

  lemma MoreSpelled(front: seq<bool>, last: seq<bool>, width: nat)
    requires width > 1 && |last| == 4 && Spells(ToHex(ToNat(front), width - 1), front)
    ensures Spells(ToHex(ToNat(front + last), width), front + last)
  {
    FourAtEnd(front, last);
    SpellsMore(ToHex(ToNat(front), width - 1), front, last);
    TextStep(ToNat(front), Four(last[0], last[1], last[2], last[3]), width);
  }

  lemma OneSpelled(front: seq<bool>, last: seq<bool>)
    requires front == [] && |last| == 4
    ensures Spells(ToHex(ToNat(front + last), 1), front + last)
  {
    FourAtEnd(front, last);
  }

  lemma FourAtEnd(front: seq<bool>, last: seq<bool>)
    requires |last| == 4
    ensures ToNat(front + last) == 16 * ToNat(front) + Four(last[0], last[1], last[2], last[3])
  {
    FourMore(front, last[0], last[1], last[2], last[3]);
    assert last == [last[0], last[1], last[2], last[3]];
  }

  lemma TextStep(high: nat, digit: nat, width: nat)
    requires width > 1 && digit < 16
    ensures ToHex(16 * high + digit, width) == ToHex(high, width - 1) + [HexDigit(digit)]
  {
    var n := 16 * high + digit;
    assert n / 16 == high && n % 16 == digit;
    assert ToHex(n, width) == ToHex(n / 16, width - 1) + [HexDigit(n % 16)];
  }

  ghost predicate IsAbove(pixels: Matrix, basis: Matrix, low: nat, m: real, i: nat)
    requires IsSquare(pixels, |basis|) && IsSquare(basis, |basis|) && 2 <= low <= |basis| && i < low * low
  {
    Coefficient(pixels, basis, low, i) > m
  }

  lemma FlagsAre(pixels: Matrix, basis: Matrix, low: nat, m: real, i: nat)
    requires IsSquare(pixels, |basis|) && IsSquare(basis, |basis|) && 2 <= low <= |basis|
    requires low * low >= 4 && m == Median(Corner(Transform(pixels, basis), low, low)[1..]) && i < low * low
    ensures HashFlags(pixels, basis, low)[i] <==> IsAbove(pixels, basis, low, m, i)
  {
    BlockAt(pixels, basis, low, i);
  }

  /** Digit j of the text has a bit for each of the coefficients 4 * j to 4 * j + 3 above m. */
  ghost predicate DigitsSay(text: string, pixels: Matrix, basis: Matrix, m: real)
    requires IsSquare(pixels, |basis|) && IsSquare(basis, |basis|) && 8 <= |basis|
  {
    && |text| == 16
    && forall j | 0 <= j < 16 ::
         text[j] == "0123456789abcdef"[(if IsAbove(pixels, basis, 8, m, 4 * j) then 8 else 0)
                                       + (if IsAbove(pixels, basis, 8, m, 4 * j + 1) then 4 else 0)
                                       + (if IsAbove(pixels, basis, 8, m, 4 * j + 2) then 2 else 0)
                                       + if IsAbove(pixels, basis, 8, m, 4 * j + 3) then 1 else 0]
  }

  /** The sixteen digits, from the pixels and the basis: one bit for each coefficient above the median. */
  lemma DigitsOfHash(pixels: Matrix, basis: Matrix)
    requires IsSquare(pixels, |basis|) && IsSquare(basis, |basis|) && 8 <= |basis|
    ensures exists m :: IsMedian(pixels, basis, 8, m) && DigitsSay(Hash(pixels, basis, 8), pixels, basis, m)
  {
    var rest := Corner(Transform(pixels, basis), 8, 8)[1..];
    BlockMedian(pixels, basis, 8, rest);
    var flags := HashFlags(pixels, basis, 8);
    forall i: nat | i < 64 ensures flags[i] == IsAbove(pixels, basis, 8, Median(rest), i) {
      FlagsAre(pixels, basis, 8, Median(rest), i);
    }
    TextSpells(flags, 16);
  }

  /** Bit k of a number. */
  predicate BitSet(n: nat, k: nat) {
    n / Pow2(k) % 2 == 1
  }

  /** The same for a corner of any size, of the number the text is. */
  lemma BitsOfHash(pixels: Matrix, basis: Matrix, low: nat)
    requires IsSquare(pixels, |basis|) && IsSquare(basis, |basis|) && 2 <= low <= |basis|
    ensures FromHex(Hash(pixels, basis, low)).Some?
    ensures exists m ::
              && IsMedian(pixels, basis, low, m)
              && forall i: nat | i < low * low ::
                   BitSet(FromHex(Hash(pixels, basis, low)).value, low * low - 1 - i)
                   <==> IsAbove(pixels, basis, low, m, i)
  {
    Parity(low);
    var rest, flags := Corner(Transform(pixels, basis), low, low)[1..], HashFlags(pixels, basis, low);
    BlockMedian(pixels, basis, low, rest);
    HexRoundTrip(ToNat(flags), 16);
    forall i: nat | i < low * low
      ensures BitSet(ToNat(flags), low * low - 1 - i) <==> IsAbove(pixels, basis, low, Median(rest), i)
    {
      BitIsFlag(pixels, basis, low, Median(rest), i);
    }
  }

  lemma BitIsFlag(pixels: Matrix, basis: Matrix, low: nat, m: real, i: nat)
    requires IsSquare(pixels, |basis|) && IsSquare(basis, |basis|) && 2 <= low <= |basis|
    requires low * low >= 4 && m == Median(Corner(Transform(pixels, basis), low, low)[1..]) && i < low * low
    ensures BitSet(ToNat(HashFlags(pixels, basis, low)), low * low - 1 - i) <==> IsAbove(pixels, basis, low, m, i)
  {
    FlagsAre(pixels, basis, low, m, i);
    BitOf(HashFlags(pixels, basis, low), i);
  }
}
