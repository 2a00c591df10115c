/**
 The digits of a geohash, from the coordinates alone: bits of the numbers of the strips of
 longitude and latitude a point lies in, taken in turn, five to a character.
 */
module GeohashDigits {
  import opened Bits
  import opened Geohash
  import opened GeohashLaws

  /** Which of 2^k equal parts of a range the value lies in; the top edge belongs to the last. */
  function Place(x: real, low: real, span: real, k: nat): int
    requires span > 0.0
  {
    Part((x - low) / span * Pow2(k) as real, Pow2(k))
  }

  function Part(parts: real, all: nat): int {
    if parts.Floor == all then all - 1 else parts.Floor
  }

  /** Bit b of a point: the last binary digit of its strip of longitude or, at odd places, latitude. */
  predicate BitOfPoint(lat: real, lng: real, b: nat) {
    if b % 2 == 0 then Place(lng, -180.0, 360.0, b / 2 + 1) % 2 == 1
    else Place(lat, -90.0, 180.0, (b + 1) / 2) % 2 == 1
  }

  // ------------------------------------------------- the strips of the cells

  /** The number written by the bits at even places. */
  function LngNumber(bits: seq<bool>): nat {
    if bits == [] then 0
    else
      var front, bit := bits[..|bits| - 1], bits[|bits| - 1];
      if Even(front) then 2 * LngNumber(front) + (if bit then 1 else 0) else LngNumber(front)
  }

  /** The number written by the bits at odd places. */
  function LatNumber(bits: seq<bool>): nat {
    if bits == [] then 0
    else
      var front, bit := bits[..|bits| - 1], bits[|bits| - 1];
      if Even(front) then LatNumber(front) else 2 * LatNumber(front) + (if bit then 1 else 0)
  }

  lemma {:induction false} NumbersFit(bits: seq<bool>)
    ensures LngNumber(bits) < Pow2((|bits| + 1) / 2) && LatNumber(bits) < Pow2(|bits| / 2)
  {
    if bits != [] {
      NumbersFit(bits[..|bits| - 1]);
    }
  }

  predicate Times(a: real, b: real, c: real) {
    c == a * b
  }

  lemma HalvedStart(number: real, size: real, start: real)
    requires Times(number, size, start)
    ensures Times(2.0 * number, size / 2.0, start)
    ensures Times(2.0 * number + 1.0, size / 2.0, start + size / 2.0)
  {
  }

  /** The cell starts so many of its widths and heights from the corner of the map. */
  lemma {:induction false} CellStarts(bits: seq<bool>)
    ensures Times(LngNumber(bits) as real, Width(|bits|), Narrow(bits).lngLo - -180.0)
    ensures Times(LatNumber(bits) as real, Height(|bits|), Narrow(bits).latLo - -90.0)
  {
    if bits == [] {
      assert Times(0.0, Width(0), 0.0) && Times(0.0, Height(0), 0.0);
    } else {
      var front := bits[..|bits| - 1];
      CellStarts(front);
      CellSize(front);
      HalvedStart(LngNumber(front) as real, Width(|front|), Narrow(front).lngLo - -180.0);
      HalvedStart(LatNumber(front) as real, Height(|front|), Narrow(front).latLo - -90.0);
    }
  }

  lemma Share(d: real, span: real, p: real, size: real)
    requires span > 0.0 && Times(size, p, span)
    ensures Times(d / span * p, size, d)
  {
    var share := d / span;
    assert share * span == d;
    assert share * p * size == share * (size * p);
  }

  lemma SmallerFactor(a: real, b: real, size: real, x: real, y: real)
    requires size > 0.0 && Times(a, size, x) && Times(b, size, y)
    ensures x < y <==> a < b
  {
    if a < b {
      assert (b - a) * size > 0.0;
    } else {
      assert (a - b) * size >= 0.0;
    }
  }

  lemma PositiveSize(p: real, size: real, span: real)
    requires p > 0.0 && Times(size, p, span) && span > 0.0
    ensures size > 0.0
  {
  }

  lemma Next(number: real, size: real, x: real)
    requires Times(number, size, x)
    ensures Times(number + 1.0, size, x + size)
  {
  }

  lemma Swapped(a: real, b: real, c: real)
    requires Times(a, b, c)
    ensures Times(b, a, c)
  {
  }

  /** q parts make d, so many whole ones start: d lies in the next, or is the top of the last. */
  lemma PartIs(q: real, number: nat, all: nat, size: real, d: real, start: real, span: real)
    requires size > 0.0 && number < all
    requires Times(q, size, d) && Times(number as real, size, start) && Times(all as real, size, span)
    requires start <= d && (d < start + size || d == start + size == span)
    ensures Part(q, all) == number
  {
    Next(number as real, size, start);
    SmallerFactor(q, number as real, size, d, start);
    SmallerFactor(q, number as real + 1.0, size, d, start + size);
    SmallerFactor(number as real + 1.0, q, size, start + size, d);
    SmallerFactor(q, all as real, size, d, span);
    SmallerFactor(all as real, q, size, span, d);
  }

  lemma ShareIs(d: real, span: real, p: real, size: real, q: real)
    requires span > 0.0 && Times(size, p, span) && q == d / span * p
    ensures Times(q, size, d)
  {
    Share(d, span, p, size);
  }

  /** A value in a strip, or at the top of the last, has the strip's number for its place. */
  lemma PlaceInStrip(x: real, low: real, span: real, k: nat, number: nat, size: real, start: real)
    requires span > 0.0 && Times(size, Pow2(k) as real, span) && number < Pow2(k)
    requires Times(number as real, size, start - low)
    requires start <= x && (x < start + size || x == start + size == low + span)
    ensures Place(x, low, span, k) == number
  {
    var d, q := x - low, (x - low) / span * Pow2(k) as real;
    ShareIs(d, span, Pow2(k) as real, size, q);
    PartOf(q, number, Pow2(k), size, d, start - low, span);
  }

  lemma PartOf(q: real, number: nat, all: nat, size: real, d: real, start: real, span: real)
    requires span > 0.0 && all > 0 && number < all && Times(size, all as real, span)
    requires Times(q, size, d) && Times(number as real, size, start)
    requires start <= d && (d < start + size || d == start + size == span)
    ensures Part(q, all) == number
  {
    PositiveSize(all as real, size, span);
    Swapped(size, all as real, span);
    PartIs(q, number, all, size, d, start, span);
  }

  lemma WidthTimes(n: nat, k: nat)
    requires k == (n + 1) / 2
    ensures Times(Width(n), Pow2(k) as real, 360.0)
  {
    WidthIs(n);
  }

  lemma HeightTimes(n: nat, k: nat)
    requires k == n / 2
    ensures Times(Height(n), Pow2(k) as real, 180.0)
  {
    HeightIs(n);
  }

  /** Where the point is in the cell. */
  lemma InsideCell(lat: real, lng: real, bits: seq<bool>, c: Cell)
    requires c == Narrow(bits) && c.Contains(lat, lng)
    ensures c.lngLo <= lng && (lng < c.lngLo + Width(|bits|) || lng == c.lngLo + Width(|bits|) == 180.0)
    ensures c.latLo <= lat && (lat < c.latLo + Height(|bits|) || lat == c.latLo + Height(|bits|) == 90.0)
  {
    CellSize(bits);
  }

  /** The strip of longitude of a cell: its width, and where it starts. */
  lemma LngStrip(lat: real, lng: real, bits: seq<bool>, k: nat) returns (size: real, start: real)
    requires Narrow(bits).Contains(lat, lng) && k == (|bits| + 1) / 2
    ensures Times(LngNumber(bits) as real, size, start - -180.0)
    ensures Times(size, Pow2(k) as real, 360.0) && LngNumber(bits) < Pow2(k)
    ensures start <= lng && (lng < start + size || lng == start + size == 180.0)
  {
    size, start := Width(|bits|), Narrow(bits).lngLo;
    NumbersFit(bits);
    WidthTimes(|bits|, k);
    CellStarts(bits);
    InsideCell(lat, lng, bits, Narrow(bits));
  }

  lemma LatStrip(lat: real, lng: real, bits: seq<bool>, k: nat) returns (size: real, start: real)
    requires Narrow(bits).Contains(lat, lng) && k == |bits| / 2
    ensures Times(LatNumber(bits) as real, size, start - -90.0)
    ensures Times(size, Pow2(k) as real, 180.0) && LatNumber(bits) < Pow2(k)
    ensures start <= lat && (lat < start + size || lat == start + size == 90.0)
  {
    size, start := Height(|bits|), Narrow(bits).latLo;
    NumbersFit(bits);
    HeightTimes(|bits|, k);
    CellStarts(bits);
    InsideCell(lat, lng, bits, Narrow(bits));
  }

  /** The even bits of a cell write the place in longitude of its points. */
  lemma LngPlace(lat: real, lng: real, bits: seq<bool>, k: nat)
    requires Narrow(bits).Contains(lat, lng) && k == (|bits| + 1) / 2
    ensures Place(lng, -180.0, 360.0, k) == LngNumber(bits)
  {
    var size, start := LngStrip(lat, lng, bits, k);
    PlaceInStrip(lng, -180.0, 360.0, k, LngNumber(bits), size, start);
  }

  /** The odd bits write the place in latitude. */
  lemma LatPlace(lat: real, lng: real, bits: seq<bool>, k: nat)
    requires Narrow(bits).Contains(lat, lng) && k == |bits| / 2
    ensures Place(lat, -90.0, 180.0, k) == LatNumber(bits)
  {
    var size, start := LatStrip(lat, lng, bits, k);
    PlaceInStrip(lat, -90.0, 180.0, k, LatNumber(bits), size, start);
  }

  lemma LngDigit(bits: seq<bool>, b: nat)
    requires |bits| == b + 1
    ensures b % 2 == 0 ==> (bits[b] <==> LngNumber(bits) % 2 == 1)
    ensures b % 2 == 1 ==> (bits[b] <==> LatNumber(bits) % 2 == 1)
  {
  }

  lemma BitsArePoints(lat: real, lng: real, b: nat)
    requires OnMap(lat, lng)
    ensures PointBits(lat, lng, b + 1)[b] <==> BitOfPoint(lat, lng, b)
  {
    var bits := PointBits(lat, lng, b + 1);
    BitsIffInCell(lat, lng, bits);
    LngDigit(bits, b);
    if b % 2 == 0 {
      LngPlace(lat, lng, bits, b / 2 + 1);
    } else {
      LatPlace(lat, lng, bits, (b + 1) / 2);
    }
  }

  // ----------------------------------------------------------- the characters

  lemma {:induction false} LetterOf(bits: seq<bool>, k: nat, i: nat)
    requires i < k && 5 * k <= |bits|
    ensures Letters(bits, k)[i] == Letter(bits[5 * i..5 * (i + 1)])
  {
    if i < k - 1 {
      LetterOf(bits, k - 1, i);
    }
  }

  /** One more binary digit. */
  function Digit(bit: bool): (d: nat)
    ensures d <= 1
  {
    if bit then 1 else 0
  }

  /** The number written by five binary digits. */
  function Five(a: bool, b: bool, c: bool, d: bool, e: bool): (v: nat)
    ensures v < 32
  {
    16 * Digit(a) + 8 * Digit(b) + 4 * Digit(c) + 2 * Digit(d) + Digit(e)
  }

  lemma LetterIs(a: bool, b: bool, c: bool, d: bool, e: bool)
    ensures Letter([a, b, c, d, e]) == BASE32[Five(a, b, c, d, e)]
  {
    FiveOf(a, b, c, d, e);
    SymbolsOfAlphabet(Five(a, b, c, d, e));
  }

  lemma FiveOf(a: bool, b: bool, c: bool, d: bool, e: bool)
    ensures ToNat([a, b, c, d, e]) == Five(a, b, c, d, e)
  {
    ThreeOf(a, b, c);
    ToNatAppend([a, b, c], d);
    assert [a, b, c] + [d] == [a, b, c, d];
    ToNatAppend([a, b, c, d], e);
    assert [a, b, c, d] + [e] == [a, b, c, d, e];
  }

  lemma ThreeOf(a: bool, b: bool, c: bool)
    ensures ToNat([a, b, c]) == 4 * Digit(a) + 2 * Digit(b) + Digit(c)
  {
    ToNatAppend([], a);
    assert [] + [a] == [a];
    ToNatAppend([a], b);
    assert [a] + [b] == [a, b];
    ToNatAppend([a, b], c);
    assert [a, b] + [c] == [a, b, c];
  }

  lemma PointBitAt(lat: real, lng: real, n: nat, b: nat)
    requires OnMap(lat, lng) && b < n
    ensures PointBits(lat, lng, n)[b] <==> BitOfPoint(lat, lng, b)
  {
    PointBitsPrefix(lat, lng, b + 1, n);
    BitsArePoints(lat, lng, b);
    assert PointBits(lat, lng, n)[..b + 1][b] == PointBits(lat, lng, n)[b];
  }

  lemma FiveAt(bits: seq<bool>, i: nat)
    requires i + 5 <= |bits|
    ensures bits[i..i + 5] == [bits[i], bits[i + 1], bits[i + 2], bits[i + 3], bits[i + 4]]
  {
  }

  /** Every character of a geohash, from the coordinates and the published alphabet. */
  lemma CharacterIs(lat: real, lng: real, precision: nat, i: nat, b: nat)
    requires OnMap(lat, lng) && i < precision && b == 5 * i
    ensures Code(lat, lng, precision)[i]
            == "0123456789bcdefghjkmnpqrstuvwxyz"[Five(BitOfPoint(lat, lng, b), BitOfPoint(lat, lng, b + 1),
                                                       BitOfPoint(lat, lng, b + 2), BitOfPoint(lat, lng, b + 3),
                                                       BitOfPoint(lat, lng, b + 4))]
  {
    var bits := PointBits(lat, lng, 5 * precision);
    LetterOf(bits, precision, i);
    FiveAt(bits, b);
    LetterIs(bits[b], bits[b + 1], bits[b + 2], bits[b + 3], bits[b + 4]);
    forall j | b <= j < b + 5 ensures bits[j] <==> BitOfPoint(lat, lng, j) {
      PointBitAt(lat, lng, 5 * precision, j);
    }
  }
}
