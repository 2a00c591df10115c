/**
 What a geohash means: the points with a given code are exactly those of its cell,
 cells have the advertised size, decoding inverts encoding, and prefixes are
 coarser cells.
 */
module GeohashLaws {
  import opened Wrappers
  import opened Bits
  import opened Sequences
  import opened Text
  import opened Geohash

  // ------------------------------------------------------ bits and their cell

  predicate Proper(c: Cell) {
    -90.0 <= c.latLo < c.latHi <= 90.0 && -180.0 <= c.lngLo < c.lngHi <= 180.0
  }

  lemma {:induction false} NarrowIsProper(bits: seq<bool>)
    ensures Proper(Narrow(bits))
  {
    if bits != [] {
      NarrowIsProper(bits[..|bits| - 1]);
    }
  }

  /** A point on the map lies in exactly one half of its cell, the one its bit names. */
  lemma HalfContains(c: Cell, even: bool, bit: bool, lat: real, lng: real)
    requires Proper(c)
    ensures c.Half(even, bit).Contains(lat, lng)
            <==> c.Contains(lat, lng) && c.UpperHalf(even, lat, lng) == bit
  {
  }

  /** One more bit agrees exactly when the bits before it do and the point is in the half it names. */
  lemma NextBitIff(lat: real, lng: real, front: seq<bool>, bit: bool)
    ensures PointBits(lat, lng, |front| + 1) == front + [bit]
            <==> PointBits(lat, lng, |front|) == front && Narrow(front).UpperHalf(Even(front), lat, lng) == bit
  {
    var before := PointBits(lat, lng, |front|);
    LastDiffers(before, Narrow(before).UpperHalf(Even(before), lat, lng), front, bit);
  }

  lemma LastDiffers(a: seq<bool>, x: bool, b: seq<bool>, y: bool)
    requires |a| == |b|
    ensures a + [x] == b + [y] <==> a == b && x == y
  {
    if a + [x] == b + [y] {
      assert (a + [x])[..|a|] == (b + [y])[..|b|];
      assert (a + [x])[|a|] == (b + [y])[|b|];
    }
  }

  /** The points with the bits b are exactly the points of the cell of b. */
  lemma {:induction false} BitsIffInCell(lat: real, lng: real, b: seq<bool>)
    requires OnMap(lat, lng)
    ensures PointBits(lat, lng, |b|) == b <==> Narrow(b).Contains(lat, lng)
  {
    if b != [] {
      var front, bit := b[..|b| - 1], b[|b| - 1];
      BitsIffInCell(lat, lng, front);
      NextBitIff(lat, lng, front, bit);
      InHalfIff(lat, lng, front, bit);
      assert b == front + [bit];
    }
  }

  lemma InHalfIff(lat: real, lng: real, front: seq<bool>, bit: bool)
    ensures Narrow(front + [bit]).Contains(lat, lng)
            <==> Narrow(front).Contains(lat, lng) && Narrow(front).UpperHalf(Even(front), lat, lng) == bit
  {
    NarrowIsProper(front);
    NarrowStep(front, bit);
    HalfContains(Narrow(front), Even(front), bit, lat, lng);
  }

  lemma PointBitsGrow(lat: real, lng: real, k: nat)
    ensures GrowsAt(n => PointBits(lat, lng, n), k)
  {
  }

  lemma PointBitsPrefix(lat: real, lng: real, m: nat, n: nat)
    requires m <= n
    ensures PointBits(lat, lng, n)[..m] == PointBits(lat, lng, m)
  {
    var f := n => PointBits(lat, lng, n);
    forall k: nat ensures GrowsAt(f, k) {
      PointBitsGrow(lat, lng, k);
    }
    GrownPrefix(f, m, n);
  }

  // ------------------------------------------------------- letters and values

  /** The n low binary digits of v, most significant first. */
  function Binary(v: nat, n: nat): (r: seq<bool>)
    ensures |r| == n
  {
    if n == 0 then [] else Binary(v / 2, n - 1) + [v % 2 == 1]
  }

  lemma {:induction false} BinaryAt(v: nat, n: nat, i: nat)
    requires i < n
    ensures Binary(v, n)[i] == BitAt(v, n - 1 - i)
  {
    if i < n - 1 {
      BinaryAt(v / 2, n - 1, i);
    }
  }

  lemma HalfBelow(v: nat, n: nat)
    requires n != 0 && v < Pow2(n)
    ensures v / 2 < Pow2(n - 1)
  {
  }

  lemma BinaryStep(v: nat, n: nat)
    requires n != 0 && ToNat(Binary(v / 2, n - 1)) == v / 2
    ensures ToNat(Binary(v, n)) == v
  {
    ToNatAppend(Binary(v / 2, n - 1), v % 2 == 1);
  }

  lemma {:induction false} BinaryToNat(v: nat, n: nat)
    requires v < Pow2(n)
    ensures ToNat(Binary(v, n)) == v
  {
    if n != 0 {
      HalfBelow(v, n);
      BinaryToNat(v / 2, n - 1);
      BinaryStep(v, n);
    }
  }

  lemma FiveBitsToNat(v: nat)
    requires v < 32
    ensures ToNat(FiveBits(v)) == v
  {
    forall i | 0 <= i < 5 ensures FiveBits(v)[i] == Binary(v, 5)[i] {
      BinaryAt(v, 5, i);
    }
    assert FiveBits(v) == Binary(v, 5);
    assert Pow2(5) == 32;
    BinaryToNat(v, 5);
  }

  lemma {:induction false} ToNatInjective(a: seq<bool>, b: seq<bool>)
    requires |a| == |b| && ToNat(a) == ToNat(b)
    ensures a == b
  {
    if a != [] {
      ToNatInjective(a[..|a| - 1], b[..|b| - 1]);
      assert a == a[..|a| - 1] + [a[|a| - 1]];
      assert b == b[..|b| - 1] + [b[|b| - 1]];
    }
  }

  lemma FiveBitsOfLetter(five: seq<bool>)
    requires |five| == 5
    ensures Index(Letter(five)).Some? && FiveBits(Index(Letter(five)).value) == five
    ensures LowerChar(Letter(five)) == Letter(five)
  {
    ToNatBound(five);
    assert Pow2(5) == 32;
    SymbolIndex(ToNat(five), '0');
    FiveBitsToNat(ToNat(five));
    ToNatInjective(FiveBits(ToNat(five)), five);
  }

  lemma LettersStep(bits: seq<bool>, k: nat)
    requires |bits| == 5 * k && k >= 1
    ensures Letters(bits, k) == Letters(bits[..5 * (k - 1)], k - 1) + [Letter(bits[5 * (k - 1)..])]
    ensures bits == bits[..5 * (k - 1)] + bits[5 * (k - 1)..]
  {
    LettersPrefix(bits, bits[..5 * (k - 1)], k - 1);
    assert bits[5 * (k - 1)..5 * k] == bits[5 * (k - 1)..];
  }

  lemma AllBitsAppend(s: string, c: char)
    requires Index(c).Some?
    ensures AllBits(s + [c]) == AllBits(s) + FiveBits(Index(c).value)
  {
    assert (s + [c])[..|s|] == s;
  }

  /** Reading the characters back gives the bits they were written from. */
  lemma {:induction false} AllBitsOfLetters(bits: seq<bool>, k: nat)
    requires |bits| == 5 * k
    ensures AllBits(Letters(bits, k)) == bits
  {
    if k != 0 {
      AllBitsOfLetters(bits[..5 * (k - 1)], k - 1);
      LettersStep(bits, k);
      FiveBitsOfLetter(bits[5 * (k - 1)..]);
      AllBitsAppend(Letters(bits[..5 * (k - 1)], k - 1), Letter(bits[5 * (k - 1)..]));
    }
  }

  lemma {:induction false} LettersAreLowerCase(bits: seq<bool>, k: nat)
    requires 5 * k <= |bits|
    ensures Alphabetic(Letters(bits, k))
    ensures Lower(Letters(bits, k)) == Letters(bits, k)
  {
    if k != 0 {
      LettersAreLowerCase(bits, k - 1);
      FiveBitsOfLetter(bits[5 * (k - 1)..5 * k]);
      var front := Letters(bits, k - 1);
      assert Lower(front + [Letter(bits[5 * (k - 1)..5 * k])]) == Lower(front) + [Letter(bits[5 * (k - 1)..5 * k])];
    }
  }

  /** Writing the bits of a geohash gives the geohash. */
  lemma {:induction false} LettersOfAllBits(s: string)
    requires Alphabetic(s)
    ensures Letters(AllBits(s), |s|) == s
  {
    if s != [] {
      var k := |s| - 1;
      var front, v := s[..k], Index(s[k]).value;
      LettersOfAllBits(front);
      FiveBitsToNat(v);
      LettersAppend(AllBits(front), FiveBits(v), k);
      SymbolIndex(v, s[k]);
      assert s == front + [s[k]];
    }
  }

  // ------------------------------------------------------------ main results

  /** The cell of a geohash. */
  function CellOf(geohash: string): Cell {
    Narrow(AllBits(geohash))
  }

  /** A point has the code g exactly when it lies in the cell of g. */
  lemma CodeIffInCell(lat: real, lng: real, g: string)
    requires OnMap(lat, lng) && Alphabetic(g)
    ensures Code(lat, lng, |g|) == g <==> CellOf(g).Contains(lat, lng)
  {
    BitsIffInCell(lat, lng, AllBits(g));
    AllBitsOfLetters(PointBits(lat, lng, 5 * |g|), |g|);
    LettersOfAllBits(g);
  }

  lemma CentreInside(c: Cell)
    requires Proper(c)
    ensures c.Contains(c.Centre().0, c.Centre().1) && OnMap(c.Centre().0, c.Centre().1)
  {
  }

  /** encode(decode(g), len(g)) is g, in lower case. */
  lemma EncodeInvertsDecode(g: string)
    requires g != [] && Alphabetic(Lower(g))
    ensures DecodeSpec(g).Ok?
    ensures var (lat, lng) := DecodeSpec(g).value; EncodeSpec(lat, lng, |g|) == Ok(Lower(g))
  {
    var low := Lower(g);
    NarrowIsProper(AllBits(low));
    CentreInside(CellOf(low));
    var (lat, lng) := CellOf(low).Centre();
    CodeIffInCell(lat, lng, low);
  }

  /** Decoding fails exactly on characters outside the published alphabet, whatever their case. */
  lemma DecodeFailsIff(g: string)
    ensures DecodeSpec(g).Err? <==> exists i :: 0 <= i < |g| && LowerChar(g[i]) !in BASE32
  {
    if i :| 0 <= i < |g| && LowerChar(g[i]) !in BASE32 {
      IndexedIffInAlphabet(LowerChar(g[i]));
      assert Index(Lower(g)[i]).None?;
    }
    if j :| 0 <= j < |Lower(g)| && Index(Lower(g)[j]).None? {
      IndexedIffInAlphabet(LowerChar(g[j]));
      assert LowerChar(g[j]) !in BASE32;
    }
  }

  /** Powers of two as reals. */
  function Power(n: nat): real {
    Pow2(n) as real
  }

  /** Height of a cell of n bits: halved by every odd bit. */
  function Height(n: nat): real {
    if n == 0 then 180.0 else if (n - 1) % 2 == 0 then Height(n - 1) else Height(n - 1) / 2.0
  }

  /** Width of a cell of n bits: halved by every even bit. */
  function Width(n: nat): real {
    if n == 0 then 360.0 else if (n - 1) % 2 == 0 then Width(n - 1) / 2.0 else Width(n - 1)
  }

  lemma {:induction false} CellSize(bits: seq<bool>)
    ensures Narrow(bits).latHi - Narrow(bits).latLo == Height(|bits|)
    ensures Narrow(bits).lngHi - Narrow(bits).lngLo == Width(|bits|)
  {
    if bits != [] {
      CellSize(bits[..|bits| - 1]);
    }
  }

  lemma HalfTimesDouble(w: real, p: real)
    ensures w / 2.0 * (2.0 * p) == w * p
  {
  }

  /** A cell of n bits is 180 / 2^(n/2) degrees high. */
  lemma {:induction false} HeightIs(n: nat)
    ensures Height(n) * Power(n / 2) == 180.0
  {
    if n != 0 {
      HeightIs(n - 1);
      if (n - 1) % 2 == 1 {
        assert n / 2 == (n - 1) / 2 + 1;
        HalfTimesDouble(Height(n - 1), Power((n - 1) / 2));
      }
    }
  }

  /** A cell of n bits is 360 / 2^((n+1)/2) degrees wide. */
  lemma {:induction false} WidthIs(n: nat)
    ensures Width(n) * Power((n + 1) / 2) == 360.0
  {
    if n != 0 {
      WidthIs(n - 1);
      if (n - 1) % 2 == 0 {
        assert (n + 1) / 2 == n / 2 + 1;
        HalfTimesDouble(Width(n - 1), Power(n / 2));
      }
    }
  }

  lemma QuotientIs(w: real, p: real, size: real)
    requires p > 0.0 && w * p == size
    ensures w == size / p
    ensures w / 2.0 == size / 2.0 / p
  {
    assert w / 2.0 * p == size / 2.0;
  }

  lemma HeightQuotient(n: nat)
    ensures Height(n) == 180.0 / Power(n / 2) && Height(n) / 2.0 == 90.0 / Power(n / 2)
  {
    HeightIs(n);
    QuotientIs(Height(n), Power(n / 2), 180.0);
  }

  lemma WidthQuotient(n: nat)
    ensures Width(n) == 360.0 / Power((n + 1) / 2) && Width(n) / 2.0 == 180.0 / Power((n + 1) / 2)
  {
    WidthIs(n);
    QuotientIs(Width(n), Power((n + 1) / 2), 360.0);
  }

  lemma DecodeOfCode(lat: real, lng: real, p: nat)
    ensures DecodeSpec(Code(lat, lng, p)) == Ok(Narrow(PointBits(lat, lng, 5 * p)).Centre())
  {
    AllBitsOfLetters(PointBits(lat, lng, 5 * p), p);
    LettersAreLowerCase(PointBits(lat, lng, 5 * p), p);
  }

  predicate Within(x: real, y: real, bound: real) {
    -bound <= x - y <= bound
  }

  lemma CentreIsClose(lat: real, lng: real, n: nat)
    requires OnMap(lat, lng)
    ensures Within(Narrow(PointBits(lat, lng, n)).Centre().0, lat, 90.0 / Power(n / 2))
    ensures Within(Narrow(PointBits(lat, lng, n)).Centre().1, lng, 180.0 / Power((n + 1) / 2))
  {
    BitsIffInCell(lat, lng, PointBits(lat, lng, n));
    CellSize(PointBits(lat, lng, n));
    HeightQuotient(n);
    WidthQuotient(n);
  }

  /**
   Decoding what was encoded at precision p is off by at most half a cell:
   90 / 2^(5p/2) degrees of latitude and 180 / 2^((5p+1)/2) of longitude.
   */
  lemma DecodeError(lat: real, lng: real, p: nat)
    requires OnMap(lat, lng) && p >= 1
    ensures EncodeSpec(lat, lng, p) == Ok(Code(lat, lng, p)) && DecodeSpec(Code(lat, lng, p)).Ok?
    ensures Within(DecodeSpec(Code(lat, lng, p)).value.0, lat, 90.0 / Power(5 * p / 2))
    ensures Within(DecodeSpec(Code(lat, lng, p)).value.1, lng, 180.0 / Power((5 * p + 1) / 2))
  {
    DecodeOfCode(lat, lng, p);
    CentreIsClose(lat, lng, 5 * p);
  }

  lemma CodeGrows(lat: real, lng: real, k: nat)
    ensures GrowsAt(n => Code(lat, lng, n), k)
  {
    var long, short := PointBits(lat, lng, 5 * (k + 1)), PointBits(lat, lng, 5 * k);
    PointBitsPrefix(lat, lng, 5 * k, 5 * (k + 1));
    LettersPrefix(long, short, k);
    LettersGrow(long, k);
  }

  lemma LettersGrow(bits: seq<bool>, k: nat)
    requires 5 * (k + 1) <= |bits|
    ensures Letters(bits, k + 1)[..k] == Letters(bits, k)
  {
  }

  /** A shorter code of a point is a prefix of its longer ones. */
  lemma PrefixCoherence(lat: real, lng: real, p: nat, q: nat)
    requires q <= p
    ensures Code(lat, lng, p)[..q] == Code(lat, lng, q)
  {
    var f := n => Code(lat, lng, n);
    forall k: nat ensures GrowsAt(f, k) {
      CodeGrows(lat, lng, k);
    }
    GrownPrefix(f, q, p);
  }

  /** `geohash_7` is the precision-7 cell, and the PropertyID hash the precision-6 one. */
  lemma PairIsCoherent(lat: real, lng: real)
    requires OnMap(lat, lng)
    ensures EncodePair(lat, lng) == Ok((Code(lat, lng, 8), Code(lat, lng, 7)))
    ensures GpsHash(lat, lng) == Ok(Upper(Code(lat, lng, 6)))
  {
    PrefixCoherence(lat, lng, 8, 7);
    PrefixCoherence(lat, lng, 8, 6);
  }

  lemma UpperUndone(s: string)
    requires Alphabetic(s) && Lower(s) == s
    ensures Lower(Upper(s)) == s
  {
    forall i | 0 <= i < |s| ensures LowerChar(UpperChar(s[i])) == s[i] {
      assert Lower(s)[i] == s[i];
    }
  }

  /** Two points with the same n bits are within one cell of each other. */
  lemma SameBitsMeansClose(lat: real, lng: real, lat': real, lng': real, n: nat)
    requires OnMap(lat, lng) && OnMap(lat', lng')
    requires PointBits(lat, lng, n) == PointBits(lat', lng', n)
    ensures Within(lat, lat', 180.0 / Power(n / 2))
    ensures Within(lng, lng', 360.0 / Power((n + 1) / 2))
  {
    BitsIffInCell(lat, lng, PointBits(lat, lng, n));
    BitsIffInCell(lat', lng', PointBits(lat, lng, n));
    CellSize(PointBits(lat, lng, n));
    HeightQuotient(n);
    WidthQuotient(n);
  }

  lemma SameGpsHashMeansSameBits(lat: real, lng: real, lat': real, lng': real)
    requires OnMap(lat, lng) && OnMap(lat', lng')
    requires GpsHash(lat, lng) == GpsHash(lat', lng')
    ensures PointBits(lat, lng, 30) == PointBits(lat', lng', 30)
  {
    PairIsCoherent(lat, lng);
    PairIsCoherent(lat', lng');
    var bits, bits' := PointBits(lat, lng, 30), PointBits(lat', lng', 30);
    LettersAreLowerCase(bits, 6);
    LettersAreLowerCase(bits', 6);
    UpperUndone(Letters(bits, 6));
    UpperUndone(Letters(bits', 6));
    AllBitsOfLetters(bits, 6);
    AllBitsOfLetters(bits', 6);
  }

  /** Two pins have one GPS hash exactly when they lie in one precision-6 cell. */
  lemma SameGpsHashIff(lat: real, lng: real, lat': real, lng': real)
    requires OnMap(lat, lng) && OnMap(lat', lng')
    ensures GpsHash(lat, lng) == GpsHash(lat', lng') <==> CellOf(Code(lat, lng, 6)).Contains(lat', lng')
  {
    var bits := PointBits(lat, lng, 30);
    AllBitsOfLetters(bits, 6);
    BitsIffInCell(lat', lng', bits);
    if GpsHash(lat, lng) == GpsHash(lat', lng') {
      SameGpsHashMeansSameBits(lat, lng, lat', lng');
    } else {
      PairIsCoherent(lat, lng);
      PairIsCoherent(lat', lng');
    }
  }

  /**
   Pins of one precision-8 cell share a GPS hash, but not only they: every precision-6 cell
   holds pins with its hash and different precision-8 codes.
   */
  lemma GpsHashIsCoarser(lat: real, lng: real, lat': real, lng': real)
    requires OnMap(lat, lng) && OnMap(lat', lng')
    ensures Code(lat, lng, 8) == Code(lat', lng', 8) ==> GpsHash(lat, lng) == GpsHash(lat', lng')
    ensures exists x, y, x', y' ::
              && OnMap(x, y) && OnMap(x', y') && GpsHash(x, y) == GpsHash(x', y') == GpsHash(lat, lng)
              && Code(x, y, 8) != Code(x', y', 8)
  {
    PairIsCoherent(lat, lng);
    PairIsCoherent(lat', lng');
    PrefixCoherence(lat, lng, 8, 6);
    PrefixCoherence(lat', lng', 8, 6);
    var c := CellOf(Code(lat, lng, 6));
    CornerAndCentre(lat, lng);
    SameGpsHashIff(lat, lng, c.latLo, c.lngLo);
    SameGpsHashIff(lat, lng, c.Centre().0, c.Centre().1);
  }

  lemma CornerAndCentre(lat: real, lng: real)
    requires OnMap(lat, lng)
    ensures var c := CellOf(Code(lat, lng, 6));
            && c.Contains(c.latLo, c.lngLo) && OnMap(c.latLo, c.lngLo)
            && c.Contains(c.Centre().0, c.Centre().1) && OnMap(c.Centre().0, c.Centre().1)
            && Code(c.latLo, c.lngLo, 8) != Code(c.Centre().0, c.Centre().1, 8)
  {
    var bits := PointBits(lat, lng, 30);
    AllBitsOfLetters(bits, 6);
    NarrowIsProper(bits);
    CentreInside(Narrow(bits));
    TallCell(bits);
    FarCodesDiffer(Narrow(bits).latLo, Narrow(bits).lngLo, Narrow(bits).Centre().0, Narrow(bits).Centre().1);
  }

  lemma TallCell(bits: seq<bool>)
    requires |bits| == 30
    ensures Narrow(bits).latHi - Narrow(bits).latLo == 180.0 / 32768.0
  {
    CellSize(bits);
    HeightQuotient(30);
    PowersUsed();
  }

  lemma PowersUsed()
    ensures Pow2(15) == 32768 && Pow2(20) == 1048576
  {
    assert Pow2(10) == 1024;
    assert Pow2(15) == 32768;
    assert Pow2(17) == 4 * Pow2(15);
    assert Pow2(19) == 4 * Pow2(17);
  }

  /** Pins farther apart than a precision-8 cell is high have different precision-8 codes. */
  lemma FarCodesDiffer(lat: real, lng: real, lat': real, lng': real)
    requires OnMap(lat, lng) && OnMap(lat', lng') && !Within(lat, lat', 180.0 / 1048576.0)
    ensures Code(lat, lng, 8) != Code(lat', lng', 8)
  {
    if Code(lat, lng, 8) == Code(lat', lng', 8) {
      SameCodeSameBits(lat, lng, lat', lng');
      PowersUsed();
      SameBitsMeansClose(lat, lng, lat', lng', 40);
    }
  }

  lemma SameCodeSameBits(lat: real, lng: real, lat': real, lng': real)
    requires Code(lat, lng, 8) == Code(lat', lng', 8)
    ensures PointBits(lat, lng, 40) == PointBits(lat', lng', 40)
  {
    AllBitsOfLetters(PointBits(lat, lng, 40), 8);
    AllBitsOfLetters(PointBits(lat', lng', 40), 8);
  }

  /** Two pins with one GPS hash are within one precision-6 cell of each other on each axis. */
  lemma SameGpsHashMeansClose(lat: real, lng: real, lat': real, lng': real)
    requires OnMap(lat, lng) && OnMap(lat', lng')
    requires GpsHash(lat, lng) == GpsHash(lat', lng')
    ensures Within(lat, lat', 180.0 / Power(15)) && Within(lng, lng', 360.0 / Power(15))
  {
    SameGpsHashMeansSameBits(lat, lng, lat', lng');
    SameBitsMeansClose(lat, lng, lat', lng', 30);
  }
}
