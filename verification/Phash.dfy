/** Comparison of perceptual hashes (app/core/phash.py). */
module Phash {
  import opened Wrappers
  import opened Bits
  import opened Sequences
  import opened Text

  const DEFAULT_HAMMING_THRESHOLD: nat := 10

  datatype HashError = LengthMismatch | NotHexadecimal

  function HammingDistance(hashA: string, hashB: string): Result<nat, HashError> {
    var a, b := Lower(Strip(hashA)), Lower(Strip(hashB));
    if |a| != |b| then Err(LengthMismatch)
    else
      match (FromHex(a), FromHex(b))
      case (Some(x), Some(y)) => Ok(BitCount(Xor(x, y)))
      case _ => Err(NotHexadecimal)
  }

  function IsSameBuilding(hashA: string, hashB: string, threshold: nat): Result<bool, HashError> {
    match HammingDistance(hashA, hashB)
    case Ok(d) => Ok(d <= threshold)
    case Err(e) => Err(e)
  }

  /** Text the hasher writes is already stripped and lower-case. */
  lemma HexTextUnchanged(s: string)
    requires s != [] && IsHexText(s)
    ensures Lower(Strip(s)) == s
  {
    assert s[0] in s && s[|s| - 1] in s;
    forall i | 0 <= i < |s| ensures LowerChar(s[i]) == s[i] { assert s[i] in s; }
  }

  /** On formatted numbers of equal width the distance is that of the numbers. */
  lemma DistanceOfFormatted(x: nat, y: nat, width: nat)
    requires |ToHex(x, width)| == |ToHex(y, width)|
    ensures HammingDistance(ToHex(x, width), ToHex(y, width)) == Ok(BitCount(Xor(x, y)))
  {
    HexRoundTrip(x, width);
    HexRoundTrip(y, width);
    HexTextUnchanged(ToHex(x, width));
    HexTextUnchanged(ToHex(y, width));
  }

  /**
   Distance is symmetric, zero exactly between texts of the same number, and obeys
   the triangle inequality, wherever it is defined.
   */
  lemma DistanceIsMetric(a: string, b: string, c: string)
    ensures HammingDistance(a, b) == HammingDistance(b, a)
    ensures HammingDistance(a, b).Ok? ==>
              (HammingDistance(a, b).value == 0 <==> FromHex(Lower(Strip(a))) == FromHex(Lower(Strip(b))))
    ensures HammingDistance(a, b).Ok? && HammingDistance(b, c).Ok? ==>
              && HammingDistance(a, c).Ok?
              && HammingDistance(a, c).value <= HammingDistance(a, b).value + HammingDistance(b, c).value
  {
    var p, q, r := FromHex(Lower(Strip(a))), FromHex(Lower(Strip(b))), FromHex(Lower(Strip(c)));
    if p.Some? && q.Some? {
      XorSymmetric(p.value, q.value);
      XorZero(p.value, q.value);
      if r.Some? {
        XorTriangle(p.value, q.value, r.value);
      }
    }
  }

  lemma {:induction false} HexIff(s: string)
    ensures FromHex(s).Some? <==> s != "" && forall c | c in s :: c in "0123456789abcdef"
    decreases |s|
  {
    if s != "" {
      var front, last := Parted(s);
      HexIff(front);
      HexEnds(front, last);
      HexCharIff(last);
      assert forall c :: c in s <==> c in front || c == last;
    }
  }

  lemma HexEnds(front: string, last: char)
    ensures FromHex(front + [last]).Some? <==> HexValue(last).Some? && (front == "" || FromHex(front).Some?)
  {
    assert (front + [last])[..|front|] == front;
  }

  lemma HexCharIff(c: char)
    ensures HexValue(c).Some? <==> c in "0123456789abcdef"
    ensures forall d: nat | d < 16 :: HexValue("0123456789abcdef"[d]) == Some(d)
  {
    forall d: nat | d < 16 ensures HexValue("0123456789abcdef"[d]) == Some(d) {
      HexDigitValue(d);
    }
    if HexValue(c).Some? {
      assert HexDigit(HexValue(c).value) == c;
      assert "0123456789abcdef"[HexValue(c).value] == c;
    }
  }

  /** Two hashes can be compared exactly when they are as long as each other and all hexadecimal digits. */
  lemma ComparableIff(hashA: string, hashB: string)
    ensures var a, b, res := Lower(Strip(hashA)), Lower(Strip(hashB)), HammingDistance(hashA, hashB);
            && (res == Err(LengthMismatch) <==> |a| != |b|)
            && (res.Ok? <==> |a| == |b| > 0 && forall c | c in a + b :: c in "0123456789abcdef")
  {
    var a, b := Lower(Strip(hashA)), Lower(Strip(hashB));
    HexIff(a);
    HexIff(b);
  }

  /** In how many of their four bits two digits differ. */
  function BitsApart(v: nat, w: nat): nat {
    (if v % 2 != w % 2 then 1 else 0) + (if v / 2 % 2 != w / 2 % 2 then 1 else 0)
    + (if v / 4 % 2 != w / 4 % 2 then 1 else 0) + (if v / 8 % 2 != w / 8 % 2 then 1 else 0)
  }

  /** And in how many bits two texts of digits do. */
  function DigitsApart(a: string, b: string): nat
    requires |a| == |b|
  {
    if a == [] then 0
    else
      DigitsApart(a[..|a| - 1], b[..|b| - 1])
      + BitsApart(HexValue(a[|a| - 1]).GetOr(0), HexValue(b[|b| - 1]).GetOr(0))
  }

  lemma HexValueFits(c: char)
    ensures HexValue(c).Some? ==> HexValue(c).value < 16
  {
  }

  lemma BitAdds(p: nat, q: nat, x: nat, y: nat, a: nat, b: nat)
    requires p == 2 * x + a && q == 2 * y + b && a < 2 && b < 2
    ensures BitCount(Xor(p, q)) == BitCount(Xor(x, y)) + if a != b then 1 else 0
  {
    HalfIs(p, x, a);
    HalfIs(q, y, b);
    BitCountOfXor(p, q);
  }

  lemma HalfIs(p: nat, x: nat, a: nat)
    requires p == 2 * x + a && a < 2
    ensures p / 2 == x && p % 2 == a
  {
  }

  lemma BitsOf(v: nat)
    requires v < 16
    ensures v == 8 * (v / 8 % 2) + 4 * (v / 4 % 2) + 2 * (v / 2 % 2) + v % 2
  {
  }

  lemma DigitAdds(x: nat, v: nat, y: nat, w: nat)
    requires v < 16 && w < 16
    ensures BitCount(Xor(16 * x + v, 16 * y + w)) == BitCount(Xor(x, y)) + BitsApart(v, w)
  {
    BitsOf(v);
    BitsOf(w);
    FourAdd(x, v / 8 % 2, v / 4 % 2, v / 2 % 2, v % 2, y, w / 8 % 2, w / 4 % 2, w / 2 % 2, w % 2);
  }

  lemma FourAdd(x: nat, a: nat, b: nat, c: nat, d: nat, y: nat, e: nat, f: nat, g: nat, h: nat)
    requires a < 2 && b < 2 && c < 2 && d < 2 && e < 2 && f < 2 && g < 2 && h < 2
    ensures BitCount(Xor(16 * x + 8 * a + 4 * b + 2 * c + d, 16 * y + 8 * e + 4 * f + 2 * g + h))
            == BitCount(Xor(x, y)) + (if a != e then 1 else 0) + (if b != f then 1 else 0)
               + (if c != g then 1 else 0) + (if d != h then 1 else 0)
  {
    TwoAdd(4 * x + 2 * a + b, 4 * y + 2 * e + f, x, a, b, y, e, f);
    TwoAdd(16 * x + 8 * a + 4 * b + 2 * c + d, 16 * y + 8 * e + 4 * f + 2 * g + h,
           4 * x + 2 * a + b, c, d, 4 * y + 2 * e + f, g, h);
  }

  lemma TwoAdd(p: nat, q: nat, x: nat, a: nat, b: nat, y: nat, c: nat, d: nat)
    requires p == 4 * x + 2 * a + b && q == 4 * y + 2 * c + d && a < 2 && b < 2 && c < 2 && d < 2
    ensures BitCount(Xor(p, q))
            == BitCount(Xor(x, y)) + (if a != c then 1 else 0) + (if b != d then 1 else 0)
  {
    var s, t := 2 * x + a, 2 * y + c;
    BitAdds(s, t, x, y, a, c);
    BitAdds(p, q, s, t, b, d);
  }

  /** The two texts write numbers whose bits differ in as many places. */
  ghost predicate ApartBy(a: string, b: string, x: nat, y: nat, n: nat) {
    |a| == |b| && FromHex(a) == Some(x) && FromHex(b) == Some(y) && BitCount(Xor(x, y)) == n == DigitsApart(a, b)
  }

  lemma MoreDigits(a: string, c: char, b: string, d: char, x: nat, y: nat, v: nat, w: nat, n: nat)
    requires a != "" && ApartBy(a, b, x, y, n)
    requires HexValue(c) == Some(v) && HexValue(d) == Some(w) && v < 16 && w < 16
    ensures ApartBy(a + [c], b + [d], 16 * x + v, 16 * y + w, n + BitsApart(v, w))
  {
    HexMore(a, c);
    HexMore(b, d);
    ApartMore(a, c, b, d);
    DigitAdds(x, v, y, w);
  }

  lemma HexMore(s: string, c: char)
    requires s != "" && FromHex(s).Some? && HexValue(c).Some?
    ensures HexValue(c).value < 16 && FromHex(s + [c]) == Some(16 * FromHex(s).value + HexValue(c).value)
  {
    HexValueFits(c);
    assert (s + [c])[..|s|] == s;
  }

  lemma ApartMore(a: string, c: char, b: string, d: char)
    requires |a| == |b| && HexValue(c).Some? && HexValue(d).Some?
    ensures DigitsApart(a + [c], b + [d]) == DigitsApart(a, b) + BitsApart(HexValue(c).value, HexValue(d).value)
  {
    assert (a + [c])[..|a|] == a && (b + [d])[..|b|] == b;
  }

  lemma {:induction false} NumbersApart(a: string, b: string) returns (x: nat, y: nat)
    requires |a| == |b| > 0 && IsHexText(a) && IsHexText(b)
    ensures ApartBy(a, b, x, y, DigitsApart(a, b))
    decreases |a|
  {
    var front, c := Parted(a);
    var other, d := Parted(b);
    assert c in a && d in b && (forall e | e in front :: e in a) && forall e | e in other :: e in b;
    if front == "" {
      x, y := FirstDigits(c, d);
    } else {
      x, y := NumbersApart(front, other);
      x, y := DigitsMore(front, c, other, d, x, y);
    }
  }

  lemma FirstDigits(c: char, d: char) returns (x: nat, y: nat)
    requires HexValue(c).Some? && HexValue(d).Some?
    ensures ApartBy([c], [d], x, y, DigitsApart([c], [d]))
  {
    x, y := HexValue(c).value, HexValue(d).value;
    HexValueFits(c);
    HexValueFits(d);
    OneDigitApart(x, y);
  }

  lemma DigitsMore(a: string, c: char, b: string, d: char, x: nat, y: nat) returns (p: nat, q: nat)
    requires a != "" && |a| == |b| && HexValue(c).Some? && HexValue(d).Some?
    requires ApartBy(a, b, x, y, DigitsApart(a, b))
    ensures ApartBy(a + [c], b + [d], p, q, DigitsApart(a + [c], b + [d]))
  {
    HexValueFits(c);
    HexValueFits(d);
    MoreDigits(a, c, b, d, x, y, HexValue(c).value, HexValue(d).value, DigitsApart(a, b));
    p, q := 16 * x + HexValue(c).value, 16 * y + HexValue(d).value;
  }

  lemma OneDigitApart(v: nat, w: nat)
    requires v < 16 && w < 16
    ensures BitCount(Xor(v, w)) == BitsApart(v, w)
  {
    DigitAdds(0, v, 0, w);
    assert BitCount(Xor(0, 0)) == 0;
  }

  /** Texts of digits are of the same building exactly when at most so many of their bits differ. */
  lemma SameBuildingIff(a: string, b: string, threshold: nat)
    requires |a| == |b| > 0 && IsHexText(a) && IsHexText(b)
    ensures HammingDistance(a, b) == Ok(DigitsApart(a, b))
    ensures IsSameBuilding(a, b, threshold) == Ok(DigitsApart(a, b) <= threshold)
  {
    HexTextUnchanged(a);
    HexTextUnchanged(b);
    var x, y := NumbersApart(a, b);
  }
}
