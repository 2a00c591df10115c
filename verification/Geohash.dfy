/**
 Geohash encoding (app/core/geohash.py): interval bisection with interleaved
 longitude and latitude bits, five bits to a character. Coordinates are reals.
 */
module Geohash {
  import opened Wrappers
  import opened Bits
  import opened Text

  const BASE32: string := "0123456789bcdefghjkmnpqrstuvwxyz"

  datatype GeohashError = LatitudeOutOfRange | LongitudeOutOfRange | PrecisionTooSmall | InvalidCharacter

  /** A rectangle on the map. */
  datatype Cell = Cell(latLo: real, latHi: real, lngLo: real, lngHi: real) {
    function Centre(): (real, real) {
      ((latLo + latHi) / 2.0, (lngLo + lngHi) / 2.0)
    }

    /** The half kept by one bit: of the longitude range when even, else of the latitude range. */
    function Half(even: bool, bit: bool): Cell {
      if even then
        var mid := (lngLo + lngHi) / 2.0;
        if bit then this.(lngLo := mid) else this.(lngHi := mid)
      else
        var mid := (latLo + latHi) / 2.0;
        if bit then this.(latLo := mid) else this.(latHi := mid)
    }

    /** Does the point fall in the upper half? */
    predicate UpperHalf(even: bool, lat: real, lng: real) {
      if even then lng >= (lngLo + lngHi) / 2.0 else lat >= (latLo + latHi) / 2.0
    }

    /** Closed below and open above, except on the closed edges of the world. */
    predicate Contains(lat: real, lng: real) {
      && latLo <= lat && (lat < latHi || lat == latHi == 90.0)
      && lngLo <= lng && (lng < lngHi || lng == lngHi == 180.0)
    }
  }

  const WORLD := Cell(-90.0, 90.0, -180.0, 180.0)

  predicate OnMap(lat: real, lng: real) {
    -90.0 <= lat <= 90.0 && -180.0 <= lng <= 180.0
  }

  /** The cell that a string of bits selects. */
  function Narrow(bits: seq<bool>): Cell {
    if bits == [] then WORLD
    else
      var k := |bits| - 1;
      Narrow(bits[..k]).Half(Even(bits[..k]), bits[k])
  }

  /** Is the next bit, counting from zero, at an even place? */
  predicate Even(bits: seq<bool>) {
    |bits| % 2 == 0
  }

  /** The first n bits of a point. */
  function PointBits(lat: real, lng: real, n: nat): (bits: seq<bool>)
    ensures |bits| == n
  {
    if n == 0 then []
    else
      var before := PointBits(lat, lng, n - 1);
      before + [Narrow(before).UpperHalf(Even(before), lat, lng)]
  }

  /** The first k characters of a string of bits. */
  function Letters(bits: seq<bool>, k: nat): (s: string)
    requires 5 * k <= |bits|
    ensures |s| == k
  {
    if k == 0 then []
    else Letters(bits, k - 1) + [Letter(bits[5 * (k - 1)..5 * k])]
  }

  function Letter(five: seq<bool>): char
    requires |five| == 5
  {
    ToNatBound(five);
    assert Pow2(5) == 32;
    Symbol(ToNat(five))
  }

  /** `_BASE32[v]`: the digits, then the letters but for a, i, l and o. */
  function Symbol(v: nat): char
    requires v < 32
  {
    if v < 10 then '0' + v as char
    else if v < 17 then 'b' + (v - 10) as char
    else if v < 19 then 'j' + (v - 17) as char
    else if v < 21 then 'm' + (v - 19) as char
    else 'p' + (v - 21) as char
  }

  /** `_DECODE_MAP.get(c)`. */
  function Index(c: char): (r: Option<nat>)
    ensures r.Some? ==> r.value < 32
  {
    if '0' <= c <= '9' then Some((c - '0') as nat)
    else if 'b' <= c <= 'h' then Some((c - 'b') as nat + 10)
    else if 'j' <= c <= 'k' then Some((c - 'j') as nat + 17)
    else if 'm' <= c <= 'n' then Some((c - 'm') as nat + 19)
    else if 'p' <= c <= 'z' then Some((c - 'p') as nat + 21)
    else None
  }

  /** The symbols are those of the published alphabet. */
  lemma SymbolsOfAlphabet(v: nat)
    requires v < 32
    ensures Symbol(v) == BASE32[v]
  {
  }

  /** The characters with a value are those of the published alphabet. */
  lemma IndexedIffInAlphabet(c: char)
    ensures Index(c).Some? <==> c in BASE32
  {
    if Index(c).Some? {
      SymbolsOfAlphabet(Index(c).value);
      SymbolIndex(Index(c).value, c);
    }
    if v: nat :| v < 32 && BASE32[v] == c {
      SymbolsOfAlphabet(v);
      SymbolIndex(v, c);
    }
  }

  /** Decoding a character inverts encoding a value, both ways round. */
  lemma SymbolIndex(v: nat, c: char)
    requires v < 32
    ensures Index(Symbol(v)) == Some(v)
    ensures Index(c).Some? ==> Symbol(Index(c).value) == c
    ensures LowerChar(Symbol(v)) == Symbol(v)
  {
  }

  /** The geohash of a point on the map. */
  function Code(lat: real, lng: real, precision: nat): (s: string)
    ensures |s| == precision
  {
    Letters(PointBits(lat, lng, 5 * precision), precision)
  }

  /** The outcome `encode` must produce. */
  function EncodeSpec(lat: real, lng: real, precision: int): Result<string, GeohashError> {
    if !(-90.0 <= lat <= 90.0) then Err(LatitudeOutOfRange)
    else if !(-180.0 <= lng <= 180.0) then Err(LongitudeOutOfRange)
    else if precision < 1 then Err(PrecisionTooSmall)
    else Ok(Code(lat, lng, precision))
  }

  method Encode(lat: real, lng: real, precision: int) returns (res: Result<string, GeohashError>)
    ensures res == EncodeSpec(lat, lng, precision)
  {
    if !(-90.0 <= lat <= 90.0) {
      return Err(LatitudeOutOfRange);
    }
    if !(-180.0 <= lng <= 180.0) {
      return Err(LongitudeOutOfRange);
    }
    if precision < 1 {
      return Err(PrecisionTooSmall);
    }
    var geohash := Characters(lat, lng, precision);
    res := Ok(geohash);
  }

  /** The bits taken so far: those already written out, then fewer than five pending ones. */
  ghost predicate Written(geohash: string, whole: seq<bool>, pending: seq<bool>, taken: seq<bool>) {
    && taken == whole + pending && |pending| < 5
    && |whole| == 5 * |geohash| && geohash == Letters(whole, |geohash|)
  }

  lemma KeepBit(geohash: string, whole: seq<bool>, pending: seq<bool>, taken: seq<bool>, bit: bool)
    requires Written(geohash, whole, pending, taken) && |pending| < 4
    ensures Written(geohash, whole, pending + [bit], taken + [bit])
  {
    assert whole + pending + [bit] == whole + (pending + [bit]);
  }

  lemma WriteLetter(geohash: string, whole: seq<bool>, pending: seq<bool>, taken: seq<bool>, bit: bool)
    requires Written(geohash, whole, pending, taken) && |pending| == 4
    ensures ToNat(pending + [bit]) < 32
    ensures Written(geohash + [Symbol(ToNat(pending + [bit]))], taken + [bit], [], taken + [bit])
  {
    LettersAppend(whole, pending + [bit], |geohash|);
    assert whole + pending + [bit] == whole + (pending + [bit]);
    assert taken + [bit] + [] == taken + [bit];
  }

  /** The bisection loop. */
  method Characters(lat: real, lng: real, precision: nat) returns (geohash: string)
    ensures geohash == Code(lat, lng, precision)
  {
    geohash := [];
    var cell, bits, bitCount, evenBit := WORLD, 0, 0, true;
    ghost var taken, whole, pending: seq<bool> := [], [], [];
    while |geohash| < precision
      invariant |geohash| <= precision && bitCount == |pending|
      invariant |geohash| == precision ==> bitCount == 0
      invariant Written(geohash, whole, pending, taken)
      invariant taken == PointBits(lat, lng, |taken|)
      invariant bits == ToNat(pending)
      invariant cell == Narrow(taken) && evenBit == Even(taken)
      decreases precision - |geohash|, 5 - bitCount
    {
      ghost var bit;
      cell, bits, bit := BisectPoint(cell, evenBit, lat, lng, bits, taken, pending);
      evenBit := !evenBit;
      bitCount := bitCount + 1;
      if bitCount == 5 {
        WriteLetter(geohash, whole, pending, taken, bit);
        geohash := geohash + [Symbol(bits)];
        whole, pending := taken + [bit], [];
        bits := 0;
        bitCount := 0;
      } else {
        KeepBit(geohash, whole, pending, taken, bit);
        pending := pending + [bit];
      }
      taken := taken + [bit];
    }
    assert taken == whole;
  }

  /** One bisection, and what it does to the bits taken so far. */
  method BisectPoint(cell: Cell, evenBit: bool, lat: real, lng: real, bits: nat,
                     ghost taken: seq<bool>, ghost pending: seq<bool>)
    returns (cell': Cell, bits': nat, ghost bit: bool)
    requires taken == PointBits(lat, lng, |taken|)
    requires cell == Narrow(taken) && evenBit == Even(taken)
    requires bits == ToNat(pending)
    ensures bit == cell.UpperHalf(evenBit, lat, lng)
    ensures taken + [bit] == PointBits(lat, lng, |taken + [bit]|)
    ensures cell' == Narrow(taken + [bit]) && !evenBit == Even(taken + [bit])
    ensures bits' == ToNat(pending + [bit])
  {
    bit := cell.UpperHalf(evenBit, lat, lng);
    ToNatAppend(pending, bit);
    NarrowStep(taken, bit);
    NextPointBit(taken, lat, lng);
    cell', bits' := KeepHalf(cell, evenBit, lat, lng, bits);
  }

  /** Keep the half the point is in and shift its bit in. */
  method KeepHalf(cell: Cell, evenBit: bool, lat: real, lng: real, bits: nat)
    returns (cell': Cell, bits': nat)
    ensures cell' == cell.Half(evenBit, cell.UpperHalf(evenBit, lat, lng))
    ensures bits' == 2 * bits + if cell.UpperHalf(evenBit, lat, lng) then 1 else 0
  {
    cell', bits' := cell, 2 * bits;
    if evenBit {
      var mid := (cell.lngLo + cell.lngHi) / 2.0;
      if lng >= mid {
        bits' := bits' + 1;
        cell' := cell'.(lngLo := mid);
      } else {
        cell' := cell'.(lngHi := mid);
      }
    } else {
      var mid := (cell.latLo + cell.latHi) / 2.0;
      if lat >= mid {
        bits' := bits' + 1;
        cell' := cell'.(latLo := mid);
      } else {
        cell' := cell'.(latHi := mid);
      }
    }
  }

  lemma NextPointBit(bits: seq<bool>, lat: real, lng: real)
    requires bits == PointBits(lat, lng, |bits|)
    ensures var bit := Narrow(bits).UpperHalf(Even(bits), lat, lng);
            bits + [bit] == PointBits(lat, lng, |bits + [bit]|)
  {
  }

  lemma NarrowStep(bits: seq<bool>, bit: bool)
    ensures Narrow(bits + [bit]) == Narrow(bits).Half(Even(bits), bit)
    ensures Even(bits + [bit]) == !Even(bits)
  {
    assert (bits + [bit])[..|bits|] == bits;
  }

  /** Five pending bits make the next character. */
  lemma LettersAppend(whole: seq<bool>, five: seq<bool>, k: nat)
    requires |whole| == 5 * k && |five| == 5
    ensures ToNat(five) < 32
    ensures Letters(whole + five, k + 1) == Letters(whole, k) + [Symbol(ToNat(five))]
  {
    assert (whole + five)[..|whole|] == whole;
    LettersPrefix(whole + five, whole, k);
    assert (whole + five)[5 * k..5 * (k + 1)] == five;
    ToNatBound(five);
    assert Pow2(5) == 32;
  }

  lemma ToNatAppend(bits: seq<bool>, b: bool)
    ensures ToNat(bits + [b]) == 2 * ToNat(bits) + if b then 1 else 0
  {
    assert (bits + [b])[..|bits|] == bits;
  }

  lemma SameSlice(long: seq<bool>, short: seq<bool>, i: nat, j: nat)
    requires |short| <= |long| && long[..|short|] == short && i <= j <= |short|
    ensures long[i..j] == short[i..j]
  {
    forall k | i <= k < j ensures long[k] == short[k] {
      assert long[..|short|][k] == short[k];
    }
  }

  /** The first k characters depend on the first 5k bits only. */
  lemma {:induction false} LettersPrefix(long: seq<bool>, short: seq<bool>, k: nat)
    requires |short| <= |long| && long[..|short|] == short && 5 * k <= |short|
    ensures Letters(long, k) == Letters(short, k)
  {
    if k != 0 {
      LettersPrefix(long, short, k - 1);
      SameSlice(long, short, 5 * (k - 1), 5 * k);
    }
  }

  // ------------------------------------------------------------------ decode

  predicate Alphabetic(s: string) {
    forall i | 0 <= i < |s| :: Index(s[i]).Some?
  }

  /** `(v >> pos) & 1`. */
  function BitAt(v: nat, pos: nat): bool {
    if pos == 0 then v % 2 == 1 else BitAt(v / 2, pos - 1)
  }

  /** The five bits of a value, most significant first. */
  function FiveBits(v: nat): (r: seq<bool>)
    ensures |r| == 5
  {
    seq(5, i requires 0 <= i < 5 => BitAt(v, 4 - i))
  }

  /** All the bits of a geohash. */
  function AllBits(s: string): (bits: seq<bool>)
    ensures |bits| == 5 * |s|
  {
    if s == [] then []
    else AllBits(s[..|s| - 1]) + FiveBits(Index(s[|s| - 1]).GetOr(0))
  }

  function DecodeSpec(geohash: string): Result<(real, real), GeohashError> {
    if Alphabetic(Lower(geohash)) then Ok(Narrow(AllBits(Lower(geohash))).Centre())
    else Err(InvalidCharacter)
  }

  method Decode(geohash: string) returns (res: Result<(real, real), GeohashError>)
    ensures res == DecodeSpec(geohash)
  {
    var cell := DecodeText(Lower(geohash));
    res := if cell.Some? then Ok(cell.value.Centre()) else Err(InvalidCharacter);
  }

  /** The loop over the characters; none when one of them is not in the alphabet. */
  method DecodeText(text: string) returns (found: Option<Cell>)
    ensures found == if Alphabetic(text) then Some(Narrow(AllBits(text))) else None
  {
    var cell, evenBit := WORLD, true;
    for i := 0 to |text|
      invariant Alphabetic(text[..i])
      invariant cell == Narrow(AllBits(text[..i])) && evenBit == Even(AllBits(text[..i]))
    {
      var idx := Index(text[i]);
      if idx.None? {
        return None;
      }
      AllBitsStep(text, i);
      cell, evenBit := DecodeValue(cell, evenBit, idx.value, AllBits(text[..i]));
    }
    assert text[..|text|] == text;
    found := Some(cell);
  }

  lemma AllBitsStep(text: string, i: nat)
    requires i < |text| && Index(text[i]).Some?
    ensures AllBits(text[..i + 1]) == AllBits(text[..i]) + FiveBits(Index(text[i]).value)
    ensures Alphabetic(text[..i]) ==> Alphabetic(text[..i + 1])
  {
    assert text[..i + 1][..i] == text[..i];
  }

  /** One bisection: keep the half the bit names. */
  method Bisect(cell: Cell, evenBit: bool, bit: bool, ghost bits: seq<bool>) returns (cell': Cell)
    requires cell == Narrow(bits) && evenBit == Even(bits)
    ensures cell' == Narrow(bits + [bit]) && !evenBit == Even(bits + [bit])
  {
    assert (bits + [bit])[..|bits|] == bits;
    if evenBit {
      var mid := (cell.lngLo + cell.lngHi) / 2.0;
      cell' := if bit then cell.(lngLo := mid) else cell.(lngHi := mid);
    } else {
      var mid := (cell.latLo + cell.latHi) / 2.0;
      cell' := if bit then cell.(latLo := mid) else cell.(latHi := mid);
    }
  }

  /** The inner loop: narrow by the five bits of one character. */
  method DecodeValue(start: Cell, even: bool, idx: nat, ghost before: seq<bool>)
    returns (cell: Cell, evenBit: bool)
    requires start == Narrow(before) && even == Even(before)
    ensures cell == Narrow(before + FiveBits(idx))
    ensures evenBit == Even(before + FiveBits(idx))
  {
    ghost var bits := before;
    cell, evenBit := start, even;
    for k := 0 to 5
      invariant bits == before + FiveBits(idx)[..k]
      invariant cell == Narrow(bits) && evenBit == Even(bits)
    {
      var bit := BitAt(idx, 4 - k);
      cell := Bisect(cell, evenBit, bit, bits);
      bits := bits + [bit];
      evenBit := !evenBit;
      FiveBitsTake(idx, k);
      assert before + (FiveBits(idx)[..k] + [bit]) == (before + FiveBits(idx)[..k]) + [bit];
    }
    FiveBitsTake(idx, 4);
  }

  lemma FiveBitsTake(idx: nat, k: nat)
    requires k < 5
    ensures FiveBits(idx)[..k + 1] == FiveBits(idx)[..k] + [BitAt(idx, 4 - k)]
    ensures FiveBits(idx)[..5] == FiveBits(idx)
  {
  }

  // ---------------------------------------------------------------- the pair

  /** `encode_pair`: precision 8 and its first seven characters. */
  function EncodePair(lat: real, lng: real): Result<(string, string), GeohashError> {
    match EncodeSpec(lat, lng, 8)
    case Ok(gh8) => Ok((gh8, gh8[..7]))
    case Err(e) => Err(e)
  }

  /** `gps_hash`: the first six characters of precision 8, in upper case. */
  function GpsHash(lat: real, lng: real): Result<string, GeohashError> {
    match EncodeSpec(lat, lng, 8)
    case Ok(gh8) => Ok(Upper(gh8[..6]))
    case Err(e) => Err(e)
  }
}
