/** Bit strings, hexadecimal text, exclusive or and population count on naturals. */
module Bits {
  import opened Wrappers

  function Pow2(n: nat): (p: nat)
    ensures p > 0
  {
    if n == 0 then 1 else 2 * Pow2(n - 1)
  }

  /** The number whose binary digits are the flags, most significant first. */
  function ToNat(flags: seq<bool>): nat {
    if flags == [] then 0
    else 2 * ToNat(flags[..|flags| - 1]) + if flags[|flags| - 1] then 1 else 0
  }

  lemma {:induction false} ToNatBound(flags: seq<bool>)
    ensures ToNat(flags) < Pow2(|flags|)
  {
    if flags != [] {
      ToNatBound(flags[..|flags| - 1]);
    }
  }

  function Xor(a: nat, b: nat): nat
    decreases a + b
  {
    if a == 0 && b == 0 then 0
    else 2 * Xor(a / 2, b / 2) + if a % 2 != b % 2 then 1 else 0
  }

  function BitCount(n: nat): nat {
    if n == 0 then 0 else n % 2 + BitCount(n / 2)
  }

  /** How many positions differ. */
  function Differences(a: seq<bool>, b: seq<bool>): nat
    requires |a| == |b|
  {
    if a == [] then 0
    else Differences(a[..|a| - 1], b[..|b| - 1]) + if a[|a| - 1] != b[|b| - 1] then 1 else 0
  }

  /** It is the number of positions that differ. */
  lemma {:induction false} DifferencesAre(a: seq<bool>, b: seq<bool>)
    requires |a| == |b|
    ensures Differences(a, b) == |set i | 0 <= i < |a| && a[i] != b[i]|
  {
    if a != [] {
      var k := |a| - 1;
      DifferencesAre(a[..k], b[..k]);
      var front, all := set i | 0 <= i < k && a[..k][i] != b[..k][i], set i | 0 <= i < |a| && a[i] != b[i];
      assert all == front + if a[k] != b[k] then {k} else {};
    }
  }

  /** The population count of the exclusive or counts the positions that differ. */
  lemma {:induction false} XorCountsDifferences(a: seq<bool>, b: seq<bool>)
    requires |a| == |b|
    ensures BitCount(Xor(ToNat(a), ToNat(b))) == Differences(a, b)
  {
    if a != [] {
      var a', b' := a[..|a| - 1], b[..|b| - 1];
      XorCountsDifferences(a', b');
      var x, y := ToNat(a), ToNat(b);
      assert x / 2 == ToNat(a') && y / 2 == ToNat(b');
      assert Xor(x, y) == 2 * Xor(x / 2, y / 2) + if x % 2 != y % 2 then 1 else 0;
      assert Xor(x, y) / 2 == Xor(x / 2, y / 2);
    }
  }

  function CountTrue(flags: seq<bool>): nat {
    if flags == [] then 0
    else CountTrue(flags[..|flags| - 1]) + if flags[|flags| - 1] then 1 else 0
  }

  lemma {:induction false} BitCountIsCountTrue(flags: seq<bool>)
    ensures BitCount(ToNat(flags)) == CountTrue(flags)
  {
    if flags != [] {
      BitCountIsCountTrue(flags[..|flags| - 1]);
      assert ToNat(flags) / 2 == ToNat(flags[..|flags| - 1]);
    }
  }

  // The exclusive-or distance is a metric.

  lemma {:induction false} XorSymmetric(a: nat, b: nat)
    ensures Xor(a, b) == Xor(b, a)
    decreases a + b
  {
    if a != 0 || b != 0 {
      XorSymmetric(a / 2, b / 2);
    }
  }

  lemma {:induction false} XorZero(a: nat, b: nat)
    ensures BitCount(Xor(a, b)) == 0 <==> a == b
    decreases a + b
  {
    if a != 0 || b != 0 {
      XorZero(a / 2, b / 2);
      BitCountOfXor(a, b);
    }
  }

  lemma BitCountOfXor(a: nat, b: nat)
    ensures BitCount(Xor(a, b)) == BitCount(Xor(a / 2, b / 2)) + if a % 2 != b % 2 then 1 else 0
  {
    var h := Xor(a / 2, b / 2);
    assert Xor(a, b) == 2 * h + if a % 2 != b % 2 then 1 else 0;
    assert Xor(a, b) / 2 == h;
  }

  lemma {:induction false} XorTriangle(a: nat, b: nat, c: nat)
    ensures BitCount(Xor(a, c)) <= BitCount(Xor(a, b)) + BitCount(Xor(b, c))
    decreases a + b + c
  {
    if a != 0 || b != 0 || c != 0 {
      XorTriangle(a / 2, b / 2, c / 2);
      BitCountOfXor(a, b);
      BitCountOfXor(b, c);
      BitCountOfXor(a, c);
    }
  }

  // ------------------------------------------------------------- hexadecimal

  const HEX_DIGITS: string := "0123456789abcdef"

  function HexDigit(d: nat): char
    requires d < 16
  {
    HEX_DIGITS[d]
  }

  function HexValue(c: char): Option<nat> {
    if '0' <= c <= '9' then Some((c - '0') as nat)
    else if 'a' <= c <= 'f' then Some((c - 'a') as nat + 10)
    else None
  }

  lemma HexDigitValue(d: nat)
    requires d < 16
    ensures HexValue(HexDigit(d)) == Some(d)
  {
  }

  /** `f"{n:0{width}x}"`: lower-case, at least width digits and at least one. */
  function ToHex(n: nat, width: nat): string {
    if n < 16 && width <= 1 then [HexDigit(n)]
    else ToHex(n / 16, if width == 0 then 0 else width - 1) + [HexDigit(n % 16)]
  }

  /** `int(s, 16)` on plain lower-case digits. */
  function FromHex(s: string): Option<nat> {
    if s == [] then None
    else if |s| == 1 then HexValue(s[0])
    else
      match (FromHex(s[..|s| - 1]), HexValue(s[|s| - 1]))
      case (Some(high), Some(low)) => Some(16 * high + low)
      case _ => None
  }

  predicate IsHexText(s: string) {
    forall c | c in s :: HexValue(c).Some?
  }

  lemma FromHexAppend(s: string, high: nat, d: nat)
    requires d < 16 && s != [] && FromHex(s) == Some(high)
    ensures FromHex(s + [HexDigit(d)]) == Some(16 * high + d)
  {
    HexDigitValue(d);
    var t := s + [HexDigit(d)];
    assert t[..|t| - 1] == s;
  }

  lemma HexTextAppend(s: string, d: nat)
    requires d < 16 && IsHexText(s)
    ensures IsHexText(s + [HexDigit(d)])
  {
    HexDigitValue(d);
  }

  /** Parsing undoes formatting, and the text is all digits. */
  lemma {:induction false} HexRoundTrip(n: nat, width: nat)
    ensures ToHex(n, width) != [] && FromHex(ToHex(n, width)) == Some(n)
    ensures IsHexText(ToHex(n, width))
    decreases n, width
  {
    if n < 16 && width <= 1 {
      HexDigitValue(n);
    } else {
      var w := if width == 0 then 0 else width - 1;
      var front := ToHex(n / 16, w);
      HexRoundTrip(n / 16, w);
      FromHexAppend(front, n / 16, n % 16);
      HexTextAppend(front, n % 16);
      assert ToHex(n, width) == front + [HexDigit(n % 16)];
    }
  }

  /** A number that fits in 4 * width bits is padded to exactly width digits. */
  lemma {:induction false} HexWidth(n: nat, width: nat)
    requires width >= 1 && n < Pow2(4 * width)
    ensures |ToHex(n, width)| == width
  {
    assert Pow2(4) == 16;
    if width == 1 {
      assert Pow2(4 * width) == 16;
    } else {
      Pow2Four(width);
      HexWidth(n / 16, width - 1);
    }
  }

  lemma Pow2Four(width: nat)
    requires width >= 1
    ensures Pow2(4 * width) == 16 * Pow2(4 * (width - 1))
  {
    var k := 4 * (width - 1);
    assert Pow2(k + 4) == 2 * Pow2(k + 3);
    assert Pow2(k + 3) == 2 * Pow2(k + 2);
    assert Pow2(k + 2) == 2 * Pow2(k + 1);
  }
}
