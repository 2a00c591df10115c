/**
 Address search (app/services/opendata.py): taking an address apart into broader and
 broader forms, and widening the lookup until something matches. The geocoder and the
 distance are parameters, and so is the table of street-type words.
 */
module Search {
  import opened Wrappers
  import opened Text
  import opened Decimal
  import opened Tokens
  import opened Sorting

  function IsCommaOrSpace(c: char): bool { c == ',' || IsSpace(c) }

  /** `re.split(r"[,\s]+", query.strip())`, empty parts dropped. */
  function QueryWords(query: string): seq<string> {
    Words(Strip(query), IsCommaOrSpace)
  }

  predicate IsLetter(c: char) { 'a' <= c <= 'z' || 'A' <= c <= 'Z' }

  function DigitRun(w: string): (k: nat)
    ensures k <= |w|
  {
    if w == [] || !IsDigit(w[0]) then 0 else 1 + DigitRun(w[1..])
  }

  /** `\d*[a-z]?`, whatever the case. */
  predicate IsTail(w: string) {
    var k := DigitRun(w);
    k == |w| || (k + 1 == |w| && IsLetter(w[k]))
  }

  /** `\d+[a-z]?` */
  predicate IsNumber(w: string) {
    DigitRun(w) >= 1 && IsTail(w)
  }

  /** `(?:no\.?|#)\d*[a-z]?|\d+[a-z]?` */
  predicate IsHouseNumber(w: string) {
    || IsNumber(w)
    || (|w| >= 1 && w[0] == '#' && IsTail(w[1..]))
    || (|w| >= 2 && w[0] in {'n', 'N'} && w[1] in {'o', 'O'}
        && (IsTail(w[2..]) || (|w| >= 3 && w[2] == '.' && IsTail(w[3..]))))
  }

  lemma {:induction false} DigitRunIs(w: string, k: nat)
    requires k <= |w| && AllDigits(w[..k]) && (k < |w| ==> !IsDigit(w[k]))
    ensures DigitRun(w) == k
  {
    if k != 0 {
      assert w[..k][0] == w[0] && w[..k][1..] == w[1..][..k - 1];
      DigitRunIs(w[1..], k - 1);
    }
  }

  lemma {:induction false} DigitRunDigits(w: string)
    ensures AllDigits(w[..DigitRun(w)])
  {
    if w != [] && IsDigit(w[0]) {
      DigitRunDigits(w[1..]);
      assert w[..DigitRun(w)] == [w[0]] + w[1..][..DigitRun(w[1..])];
    }
  }

  /** The text cut at k is digits, then at most one letter. */
  predicate TailAt(w: string, k: nat) {
    && k <= |w| && (forall i | 0 <= i < k :: '0' <= w[i] <= '9')
    && (k == |w| || (k + 1 == |w| && ('a' <= w[k] <= 'z' || 'A' <= w[k] <= 'Z')))
  }

  /** What the pattern matches: digits, then at most one letter; a number has a digit. */
  lemma TailIff(w: string)
    ensures IsTail(w) <==> exists k: nat :: TailAt(w, k)
    ensures IsNumber(w) <==> exists k: nat :: k >= 1 && TailAt(w, k)
  {
    DigitRunDigits(w);
    assert IsTail(w) ==> TailAt(w, DigitRun(w));
    if k: nat :| TailAt(w, k) {
      DigitRunIs(w, k);
    }
  }

  /** The word is pre and then digits and at most one letter. */
  ghost predicate NumberAfter(w: string, pre: string) {
    pre <= w && exists k: nat :: TailAt(w[|pre|..], k)
  }

  /** A number, or "#", "no" or "no." in any case before what may be one. */
  lemma HouseNumberIff(w: string)
    ensures IsHouseNumber(w)
            <==> || (exists k: nat :: k >= 1 && TailAt(w, k))
                 || NumberAfter(w, "#")
                 || NumberAfter(w, "no") || NumberAfter(w, "nO") || NumberAfter(w, "No") || NumberAfter(w, "NO")
                 || NumberAfter(w, "no.") || NumberAfter(w, "nO.") || NumberAfter(w, "No.") || NumberAfter(w, "NO.")
  {
    TailIff(w);
    AfterIff(w, "#");
    NoIff(w);
    DotIff(w);
  }

  lemma AfterIff(w: string, pre: string)
    ensures NumberAfter(w, pre) <==> pre <= w && IsTail(w[|pre|..])
  {
    if pre <= w {
      TailIff(w[|pre|..]);
    }
  }

  lemma NoIff(w: string)
    ensures |w| >= 2 && w[0] in {'n', 'N'} && w[1] in {'o', 'O'} && IsTail(w[2..])
            <==> NumberAfter(w, "no") || NumberAfter(w, "nO") || NumberAfter(w, "No") || NumberAfter(w, "NO")
  {
    AfterIff(w, "no");
    AfterIff(w, "nO");
    AfterIff(w, "No");
    AfterIff(w, "NO");
  }

  lemma DotIff(w: string)
    ensures |w| >= 3 && w[0] in {'n', 'N'} && w[1] in {'o', 'O'} && w[2] == '.' && IsTail(w[3..])
            <==> NumberAfter(w, "no.") || NumberAfter(w, "nO.") || NumberAfter(w, "No.") || NumberAfter(w, "NO.")
  {
    AfterIff(w, "no.");
    AfterIff(w, "nO.");
    AfterIff(w, "No.");
    AfterIff(w, "NO.");
  }

  function DropNumbers(words: seq<string>): (r: seq<string>)
    ensures |r| <= |words| && r == words[|words| - |r|..]
    ensures r != [] ==> !IsHouseNumber(r[0])
    ensures forall i | 0 <= i < |words| - |r| :: IsHouseNumber(words[i])
  {
    if words != [] && IsHouseNumber(words[0]) then DropNumbers(words[1..]) else words
  }

  /** The address without its house number; an address that is nothing else stays as it is. */
  function Body(words: seq<string>): seq<string> {
    if DropNumbers(words) == [] then words else DropNumbers(words)
  }

  method StripHouseNumber(words: seq<string>) returns (r: seq<string>)
    ensures r == Body(words)
  {
    var body := words;
    while body != [] && IsHouseNumber(body[0])
      invariant DropNumbers(body) == DropNumbers(words)
    {
      body := body[1..];
    }
    r := if body != [] then body else words;
  }

  // ---------------------------------------------------------------- the splits

  /** The table the application passes as streetTypes. */
  const STREET_TYPE_WORDS: set<string> := {
    "street", "st", "road", "rd", "close", "cl", "avenue", "ave", "way", "crescent", "cres",
    "drive", "lane", "boulevard", "blvd", "expressway", "expwy", "highway", "hwy"
  }

  datatype Split = Split(street: string, area: string)

  /** May an area start at word k? */
  predicate StartsArea(body: seq<string>, k: nat, streetTypes: set<string>)
    requires k < |body|
  {
    Lower(body[k]) !in streetTypes && exists i | k <= i < |body| :: !IsNumber(body[i])
  }

  function SplitAt(body: seq<string>, k: nat): Split
    requires k <= |body|
  {
    Split.Split(Join(body[..k]), Join(body[k..]))
  }

  /** The splits with the area starting before word k. */
  function SplitsTo(body: seq<string>, k: nat, streetTypes: set<string>): seq<Split>
    requires k <= |body|
  {
    if k <= 1 then []
    else SplitsTo(body, k - 1, streetTypes)
         + if StartsArea(body, k - 1, streetTypes) then [SplitAt(body, k - 1)] else []
  }

  /** The splits of an address, in the order the loop finds them. */
  function Splits(query: string, streetTypes: set<string>): seq<Split> {
    var body := Body(QueryWords(query));
    SplitsTo(body, |body|, streetTypes)
  }

  function AreaLength(s: Split): nat {
    |Words(s.area, IsSpace)|
  }

  /** The sort key: longer areas first. */
  function ByArea(s: Split): real {
    -(AreaLength(s) as real)
  }

  method SplitStreetAndArea(query: string, streetTypes: set<string>) returns (splits: seq<Split>)
    ensures splits == Splits(query, streetTypes)
  {
    var body := StripHouseNumber(QueryWords(query));
    splits := CollectSplits(body, streetTypes);
    AlreadySorted(query, streetTypes);
    splits := Sort(splits, ByArea);
  }

  method CollectSplits(body: seq<string>, streetTypes: set<string>) returns (splits: seq<Split>)
    ensures splits == SplitsTo(body, |body|, streetTypes)
  {
    splits := [];
    if body == [] {
      return;
    }
    // Later starts give shorter areas.
    for k := 1 to |body|
      invariant splits == SplitsTo(body, k, streetTypes)
    {
      if StartsArea(body, k, streetTypes) {
        splits := splits + [SplitAt(body, k)];
      } else {
        assert splits + [] == splits;
      }
    }
  }

  predicate PlainWords(words: seq<string>) {
    forall w | w in words :: IsWord(w, IsCommaOrSpace)
  }

  lemma BodyPlain(query: string)
    ensures PlainWords(Body(QueryWords(query)))
  {
    WordsAreWords(Strip(query), IsCommaOrSpace);
  }

  /** The places before word k where an area may start. */
  function Starts(body: seq<string>, k: nat, streetTypes: set<string>): (starts: seq<nat>)
    requires k <= |body|
    ensures forall i | 0 <= i < |starts| :: 1 <= starts[i] < k
  {
    if k <= 1 then []
    else Starts(body, k - 1, streetTypes) + if StartsArea(body, k - 1, streetTypes) then [k - 1] else []
  }

  /** They are all the places there are, each once, in order. */
  lemma {:induction false} StartsInOrder(body: seq<string>, k: nat, streetTypes: set<string>)
    requires k <= |body|
    ensures forall i, j | 0 <= i < j < |Starts(body, k, streetTypes)| ::
              Starts(body, k, streetTypes)[i] < Starts(body, k, streetTypes)[j]
    ensures forall c | 1 <= c < k :: StartsArea(body, c, streetTypes) <==> c in Starts(body, k, streetTypes)
  {
    if k > 1 {
      StartsInOrder(body, k - 1, streetTypes);
    }
  }

  /** There is one split for each. */
  lemma {:induction false} SplitsFromStarts(body: seq<string>, k: nat, streetTypes: set<string>)
    requires k <= |body|
    ensures |Starts(body, k, streetTypes)| == |SplitsTo(body, k, streetTypes)|
    ensures forall i | 0 <= i < |Starts(body, k, streetTypes)| ::
              SplitsTo(body, k, streetTypes)[i] == SplitAt(body, Starts(body, k, streetTypes)[i])
  {
    if k > 1 {
      SplitsFromStarts(body, k - 1, streetTypes);
    }
  }

  lemma AreaLengthAt(body: seq<string>, k: nat)
    requires PlainWords(body) && k <= |body|
    ensures AreaLength(SplitAt(body, k)) == |body| - k
  {
    forall w | w in body[k..] ensures IsWord(w, IsSpace) {
      assert w in body && IsWord(w, IsCommaOrSpace);
    }
    WordsOfJoin(body[k..], IsSpace);
  }

  lemma JoinNotBlank(words: seq<string>)
    requires words != [] && words[0] != ""
    ensures Join(words) != ""
  {
  }

  lemma JoinParts(words: seq<string>, k: nat)
    requires 1 <= k < |words|
    ensures Join(words[..k]) + " " + Join(words[k..]) == Join(words)
  {
    assert words[..k] + words[k..] == words;
    JoinAppend(words[..k], words[k..]);
  }

  lemma SplitRejoins(body: seq<string>, k: nat)
    requires PlainWords(body) && 1 <= k < |body|
    ensures SplitAt(body, k).street + " " + SplitAt(body, k).area == Join(body)
    ensures SplitAt(body, k).street != ""
  {
    JoinParts(body, k);
    assert body[0] in body && IsWord(body[0], IsCommaOrSpace);
    JoinNotBlank(body[..k]);
  }

  /**
   Every split puts back together the address without its house number, and areas come
   strictly longest first.
   */
  lemma SplitsRejoin(query: string, streetTypes: set<string>)
    ensures var body, splits := Body(QueryWords(query)), Splits(query, streetTypes);
            && (forall i | 0 <= i < |splits| ::
                  && splits[i].street + " " + splits[i].area == Join(body)
                  && splits[i].street != "" && 1 <= AreaLength(splits[i]) < |body|)
            && (forall i, j | 0 <= i < j < |splits| :: AreaLength(splits[i]) > AreaLength(splits[j]))
  {
    var body := Body(QueryWords(query));
    BodyPlain(query);
    BodySplitsRejoin(body, streetTypes);
    assert Splits(query, streetTypes) == SplitsTo(body, |body|, streetTypes);
  }

  lemma BodySplitsRejoin(body: seq<string>, streetTypes: set<string>)
    requires PlainWords(body)
    ensures var splits := SplitsTo(body, |body|, streetTypes);
            && (forall i | 0 <= i < |splits| ::
                  && splits[i].street + " " + splits[i].area == Join(body)
                  && splits[i].street != "" && 1 <= AreaLength(splits[i]) < |body|)
            && (forall i, j | 0 <= i < j < |splits| :: AreaLength(splits[i]) > AreaLength(splits[j]))
  {
    var splits := SplitsTo(body, |body|, streetTypes);
    var starts := Starts(body, |body|, streetTypes);
    StartsInOrder(body, |body|, streetTypes);
    SplitsFromStarts(body, |body|, streetTypes);
    forall i | 0 <= i < |splits|
      ensures splits[i].street + " " + splits[i].area == Join(body)
      ensures splits[i].street != "" && AreaLength(splits[i]) == |body| - starts[i]
    {
      SplitRejoins(body, starts[i]);
      AreaLengthAt(body, starts[i]);
    }
  }

  /** So the closing sort has nothing to do. */
  lemma AlreadySorted(query: string, streetTypes: set<string>)
    ensures Sort(Splits(query, streetTypes), ByArea) == Splits(query, streetTypes)
  {
    SplitsRejoin(query, streetTypes);
    SortFixed(Splits(query, streetTypes), ByArea);
  }

  // -------------------------------------------------------------- the variants

  datatype Precision = Exact | Street | Area {
    function Rank(): nat {
      match this
      case Exact => 0
      case Street => 1
      case Area => 2
    }
  }

  datatype Variant = Variant(term: string, precision: Precision)

  function Streets(splits: seq<Split>): seq<Variant> {
    if splits == [] then []
    else Streets(splits[..|splits| - 1])
         + if splits[|splits| - 1].street != "" then [Variant(splits[|splits| - 1].street, Street)] else []
  }

  function Areas(splits: seq<Split>): seq<Variant> {
    if splits == [] then []
    else Areas(splits[..|splits| - 1]) + [Variant(splits[|splits| - 1].area, Area)]
  }

  /** Exact forms, then streets, then areas. */
  function Forms(words: seq<string>, splits: seq<Split>): seq<Variant> {
    [Variant(Join(words), Exact)]
    + (if Body(words) != words then [Variant(Join(Body(words)), Exact)] else [])
    + Streets(splits) + Areas(splits)
  }

  function RawVariants(query: string, streetTypes: set<string>): seq<Variant> {
    if QueryWords(query) == [] then [] else Forms(QueryWords(query), Splits(query, streetTypes))
  }

  predicate Fresh(kept: seq<Variant>, v: Variant) {
    forall i | 0 <= i < |kept| :: Lower(kept[i].term) != Lower(v.term)
  }

  /** Each term once whatever its case, too short ones left out. */
  function Distinct(raw: seq<Variant>): seq<Variant> {
    if raw == [] then []
    else
      var kept, v := Distinct(raw[..|raw| - 1]), raw[|raw| - 1];
      kept + if Fresh(kept, v) && |v.term| >= 3 then [v] else []
  }

  function Variants(query: string, streetTypes: set<string>): seq<Variant> {
    Distinct(RawVariants(query, streetTypes))
  }

  method AddressVariants(query: string, streetTypes: set<string>) returns (out: seq<Variant>)
    ensures out == Variants(query, streetTypes)
  {
    var words := QueryWords(query);
    if words == [] {
      return [];
    }
    var splits := SplitStreetAndArea(query, streetTypes);
    var variants := CollectForms(words, splits);
    out := DropRepeats(variants);
  }

  method CollectForms(words: seq<string>, splits: seq<Split>) returns (variants: seq<Variant>)
    ensures variants == Forms(words, splits)
  {
    variants := [Variant(Join(words), Exact)];
    var body := StripHouseNumber(words);
    if body != words {
      variants := variants + [Variant(Join(body), Exact)];
    } else {
      assert variants + [] == variants;
    }
    variants := variants + Streets(splits);
    variants := variants + Areas(splits);
  }

  /** One pass with a set of the terms kept so far, in lower case. */
  method DropRepeats(variants: seq<Variant>) returns (out: seq<Variant>)
    ensures out == Distinct(variants)
  {
    var seen: set<string> := {};
    out := [];
    for i := 0 to |variants|
      invariant out == Distinct(variants[..i])
      invariant seen == set v | v in out :: Lower(v.term)
    {
      var v := variants[i];
      assert variants[..i + 1][..i] == variants[..i];
      assert Lower(v.term) !in seen <==> Fresh(out, v);
      if Lower(v.term) !in seen && |v.term| >= 3 {
        seen := seen + {Lower(v.term)};
        out := out + [v];
      } else {
        assert out + [] == out;
      }
    }
    assert variants[..|variants|] == variants;
  }

  ghost predicate Ordered(vs: seq<Variant>) {
    forall i, j | 0 <= i < j < |vs| :: vs[i].precision.Rank() <= vs[j].precision.Rank()
  }

  lemma {:induction false} StreetsAreStreets(splits: seq<Split>)
    ensures forall v | v in Streets(splits) :: v.precision == Street
    ensures forall v | v in Areas(splits) :: v.precision == Area
  {
    if splits != [] {
      StreetsAreStreets(splits[..|splits| - 1]);
    }
  }

  lemma OrderedConcat(a: seq<Variant>, b: seq<Variant>)
    requires Ordered(a) && Ordered(b)
    requires forall v, w | v in a && w in b :: v.precision.Rank() <= w.precision.Rank()
    ensures Ordered(a + b)
  {
    var c := a + b;
    forall i, j | 0 <= i < j < |c| ensures c[i].precision.Rank() <= c[j].precision.Rank() {
      if i < |a| && |a| <= j {
        assert a[i] in a && b[j - |a|] in b;
      }
    }
  }

  lemma UniformOrdered(a: seq<Variant>, p: Precision)
    requires forall v | v in a :: v.precision == p
    ensures Ordered(a)
  {
    forall i, j | 0 <= i < j < |a| ensures a[i].precision.Rank() <= a[j].precision.Rank() {
      assert a[i] in a && a[j] in a;
    }
  }

  lemma RawOrdered(query: string, streetTypes: set<string>)
    ensures Ordered(RawVariants(query, streetTypes))
  {
    var words, splits := QueryWords(query), Splits(query, streetTypes);
    if words != [] {
      var exact := [Variant(Join(words), Exact)]
                   + if Body(words) != words then [Variant(Join(Body(words)), Exact)] else [];
      StreetsAreStreets(splits);
      UniformOrdered(exact, Exact);
      UniformOrdered(Streets(splits), Street);
      UniformOrdered(Areas(splits), Area);
      OrderedConcat(exact, Streets(splits));
      OrderedConcat(exact + Streets(splits), Areas(splits));
    }
  }

  lemma {:induction false} DistinctFrom(raw: seq<Variant>)
    ensures forall v | v in Distinct(raw) :: v in raw && |v.term| >= 3
    ensures forall i, j | 0 <= i < j < |Distinct(raw)| :: Lower(Distinct(raw)[i].term) != Lower(Distinct(raw)[j].term)
  {
    if raw != [] {
      DistinctFrom(raw[..|raw| - 1]);
    }
  }

  lemma {:induction false} DistinctOrdered(raw: seq<Variant>)
    requires Ordered(raw)
    ensures Ordered(Distinct(raw))
  {
    if raw != [] {
      var front, v := raw[..|raw| - 1], raw[|raw| - 1];
      DistinctOrdered(front);
      DistinctFrom(front);
      forall w | w in Distinct(front) ensures w.precision.Rank() <= v.precision.Rank() {
        assert w in front;
      }
      UniformOrdered([v], v.precision);
      OrderedConcat(Distinct(front), [v]);
    }
  }

  /** The same term but for case, found with at least the precision. */
  predicate Covers(v: Variant, w: Variant) {
    Lower(v.term) == Lower(w.term) && v.precision.Rank() <= w.precision.Rank()
  }

  ghost predicate Covered(out: seq<Variant>, w: Variant) {
    exists i: nat :: i < |out| && Covers(out[i], w)
  }

  lemma CoveredMore(kept: seq<Variant>, more: seq<Variant>, w: Variant)
    requires Covered(kept, w)
    ensures Covered(kept + more, w)
  {
    var i: nat :| i < |kept| && Covers(kept[i], w);
    assert Covers((kept + more)[i], w);
  }

  /** A variant is left out only for one no less precise. */
  lemma {:induction false} DistinctCovers(raw: seq<Variant>, w: Variant)
    requires Ordered(raw) && w in raw && |w.term| >= 3
    ensures Covered(Distinct(raw), w)
  {
    var front, v := raw[..|raw| - 1], raw[|raw| - 1];
    var kept := Distinct(front);
    if w in front {
      DistinctCovers(front, w);
      CoveredMore(kept, if Fresh(kept, v) && |v.term| >= 3 then [v] else [], w);
    } else if Fresh(kept, v) {
      assert Covers(Distinct(raw)[|kept|], w);
    } else {
      var i: nat :| i < |kept| && Lower(kept[i].term) == Lower(v.term);
      DistinctFrom(front);
      assert kept[i] in front;
      assert Covers(Distinct(raw)[i], w);
    }
  }

  /** The variants of an address: case-insensitively distinct, precise ones first, none lost. */
  lemma VariantsCharacterised(query: string, streetTypes: set<string>)
    ensures var out := Variants(query, streetTypes);
            && Ordered(out)
            && (forall i, j | 0 <= i < j < |out| :: Lower(out[i].term) != Lower(out[j].term))
            && (forall v | v in out :: v in RawVariants(query, streetTypes) && |v.term| >= 3)
            && (forall v | v in RawVariants(query, streetTypes) && |v.term| >= 3 :: Covered(out, v))
  {
    var raw := RawVariants(query, streetTypes);
    RawOrdered(query, streetTypes);
    DistinctFrom(raw);
    DistinctOrdered(raw);
    forall v | v in raw && |v.term| >= 3 ensures Covered(Distinct(raw), v) {
      DistinctCovers(raw, v);
    }
  }

  // ---------------------------------------------------------------- the search

  datatype Point = Point(lat: real, lng: real)

  datatype Hit = Hit(name: string, at: Point)

  /** Where an address is, how precisely, given what the geocoder knows. */
  datatype Found = Found(hits: seq<Hit>, precision: Option<Precision>)

  const AREA_ANCHOR_RADIUS_M: real := 3500.0

  type Geocoder = string -> seq<Hit>

  type Distance = (Point, Point) -> real

  /** The hits of the first area that has any. */
  function AreaHits(vs: seq<Variant>, geo: Geocoder): seq<Hit> {
    if vs == [] then []
    else if vs[0].precision == Area && geo(vs[0].term) != [] then geo(vs[0].term)
    else AreaHits(vs[1..], geo)
  }

  function Anchor(vs: seq<Variant>, geo: Geocoder, given: Option<Point>): Option<Point> {
    if given.Some? then given
    else if AreaHits(vs, geo) != [] then Some(AreaHits(vs, geo)[0].at)
    else None
  }

  function Near(hits: seq<Hit>, anchor: Point, dist: Distance): seq<Hit> {
    if hits == [] then []
    else (if dist(anchor, hits[0].at) <= AREA_ANCHOR_RADIUS_M then [hits[0]] else []) + Near(hits[1..], anchor, dist)
  }

  /** The hits a variant may answer with: for a street, only those near the anchor. */
  function Usable(v: Variant, geo: Geocoder, dist: Distance, anchor: Option<Point>): seq<Hit> {
    if anchor.Some? && v.precision == Street then Near(geo(v.term), anchor.value, dist) else geo(v.term)
  }

  /** The first exact or street variant with usable hits. */
  function FirstUsable(vs: seq<Variant>, geo: Geocoder, dist: Distance, anchor: Option<Point>): Found {
    if vs == [] then Found([], None)
    else if vs[0].precision != Area && Usable(vs[0], geo, dist, anchor) != [] then
      Found(Usable(vs[0], geo, dist, anchor), Some(vs[0].precision))
    else FirstUsable(vs[1..], geo, dist, anchor)
  }

  function Progressive(vs: seq<Variant>, geo: Geocoder, dist: Distance, given: Option<Point>): Found {
    var first := FirstUsable(vs, geo, dist, Anchor(vs, geo, given));
    if first.precision.Some? then first
    else if AreaHits(vs, geo) != [] then Found(AreaHits(vs, geo), Some(Area))
    else Found([], None)
  }

  method GeocodeProgressive(query: string, streetTypes: set<string>,
                            geo: Geocoder, dist: Distance, given: Option<Point>)
    returns (found: Found)
    ensures found == Progressive(Variants(query, streetTypes), geo, dist, given)
  {
    var variants := AddressVariants(query, streetTypes);
    found := Widen(variants, geo, dist, given);
  }

  /** The search with the published street-type words. */
  method GeocodeAddress(query: string, geo: Geocoder, dist: Distance, given: Option<Point>) returns (found: Found)
    ensures found == Progressive(Variants(query, STREET_TYPE_WORDS), geo, dist, given)
  {
    found := GeocodeProgressive(query, STREET_TYPE_WORDS, geo, dist, given);
  }

  method Widen(variants: seq<Variant>, geo: Geocoder, dist: Distance, given: Option<Point>) returns (found: Found)
    ensures found == Progressive(variants, geo, dist, given)
  {
    if variants == [] {
      return Found([], None);
    }
    // The anchor must be known before any street is judged.
    var areaHits, anchor := ResolveArea(variants, geo, given);
    found := FirstMatch(variants, geo, dist, anchor);
    FirstUsableFinds(variants, geo, dist, anchor);
    if found.precision.None? && areaHits != [] {
      found := Found(areaHits, Some(Area));
    }
  }

  method ResolveArea(variants: seq<Variant>, geo: Geocoder, given: Option<Point>)
    returns (areaHits: seq<Hit>, anchor: Option<Point>)
    ensures areaHits == AreaHits(variants, geo) && anchor == Anchor(variants, geo, given)
  {
    areaHits, anchor := [], given;
    var i := 0;
    while i < |variants| && areaHits == []
      invariant 0 <= i <= |variants|
      invariant areaHits == [] ==> anchor == given && AreaHits(variants, geo) == AreaHits(variants[i..], geo)
      invariant areaHits != [] ==> areaHits == AreaHits(variants, geo) && anchor == Anchor(variants, geo, given)
    {
      if variants[i].precision == Area {
        areaHits := geo(variants[i].term);
        if areaHits != [] && anchor.None? {
          anchor := Some(areaHits[0].at);
        }
      }
      i := i + 1;
    }
  }

  method FirstMatch(variants: seq<Variant>, geo: Geocoder, dist: Distance, anchor: Option<Point>) returns (found: Found)
    ensures found == FirstUsable(variants, geo, dist, anchor)
  {
    var i := 0;
    while i < |variants|
      invariant 0 <= i <= |variants|
      invariant FirstUsable(variants, geo, dist, anchor) == FirstUsable(variants[i..], geo, dist, anchor)
    {
      var v := variants[i];
      if v.precision != Area {
        var hits := geo(v.term);
        if hits != [] {
          if anchor.Some? && v.precision == Street {
            hits := Near(hits, anchor.value, dist);
          }
          if hits != [] {
            return Found(hits, Some(v.precision));
          }
        }
      }
      i := i + 1;
    }
    found := Found([], None);
  }

  predicate AnswersAt(vs: seq<Variant>, i: nat, geo: Geocoder, dist: Distance, anchor: Option<Point>, p: Precision)
    requires i < |vs|
  {
    vs[i].precision == p && Usable(vs[i], geo, dist, anchor) != []
  }

  /** The hits are those of the first variant of the precision that has any. */
  ghost predicate FirstAnswer(vs: seq<Variant>, geo: Geocoder, dist: Distance, anchor: Option<Point>,
                              p: Precision, hits: seq<Hit>)
  {
    exists i: nat ::
      && i < |vs| && AnswersAt(vs, i, geo, dist, anchor, p) && hits == Usable(vs[i], geo, dist, anchor)
      && forall j: nat | j < i :: !AnswersAt(vs, j, geo, dist, anchor, p)
  }

  lemma FirstAnswerHere(vs: seq<Variant>, geo: Geocoder, dist: Distance, anchor: Option<Point>, p: Precision)
    requires vs != [] && AnswersAt(vs, 0, geo, dist, anchor, p)
    ensures FirstAnswer(vs, geo, dist, anchor, p, Usable(vs[0], geo, dist, anchor))
  {
  }

  lemma FirstAnswerLater(vs: seq<Variant>, geo: Geocoder, dist: Distance, anchor: Option<Point>,
                         p: Precision, hits: seq<Hit>)
    requires vs != [] && !AnswersAt(vs, 0, geo, dist, anchor, p) && FirstAnswer(vs[1..], geo, dist, anchor, p, hits)
    ensures FirstAnswer(vs, geo, dist, anchor, p, hits)
  {
    var i: nat :|
      && i < |vs[1..]| && AnswersAt(vs[1..], i, geo, dist, anchor, p) && hits == Usable(vs[1..][i], geo, dist, anchor)
      && forall j: nat | j < i :: !AnswersAt(vs[1..], j, geo, dist, anchor, p);
    assert AnswersAt(vs, i + 1, geo, dist, anchor, p);
    forall j: nat | j < i + 1 ensures !AnswersAt(vs, j, geo, dist, anchor, p) {
      assert j != 0 ==> AnswersAt(vs, j, geo, dist, anchor, p) == AnswersAt(vs[1..], j - 1, geo, dist, anchor, p);
    }
  }

  lemma {:induction false} AreaHitsFirst(vs: seq<Variant>, geo: Geocoder, dist: Distance, anchor: Option<Point>)
    requires AreaHits(vs, geo) != []
    ensures FirstAnswer(vs, geo, dist, anchor, Area, AreaHits(vs, geo))
  {
    if AnswersAt(vs, 0, geo, dist, anchor, Area) {
      FirstAnswerHere(vs, geo, dist, anchor, Area);
    } else {
      AreaHitsFirst(vs[1..], geo, dist, anchor);
      FirstAnswerLater(vs, geo, dist, anchor, Area, AreaHits(vs, geo));
    }
  }

  lemma {:induction false} FirstUsableFirst(vs: seq<Variant>, geo: Geocoder, dist: Distance, anchor: Option<Point>)
    ensures var f := FirstUsable(vs, geo, dist, anchor);
            f.precision.Some? ==>
              f.precision.value != Area && FirstAnswer(vs, geo, dist, anchor, f.precision.value, f.hits)
  {
    var f := FirstUsable(vs, geo, dist, anchor);
    if f.precision.Some? {
      FirstUsableFirst(vs[1..], geo, dist, anchor);
      if AnswersAt(vs, 0, geo, dist, anchor, f.precision.value) {
        FirstAnswerHere(vs, geo, dist, anchor, f.precision.value);
      } else {
        FirstAnswerLater(vs, geo, dist, anchor, f.precision.value, f.hits);
      }
    }
  }

  /** Some variant of the given precision has usable hits. */
  ghost predicate Answers(vs: seq<Variant>, geo: Geocoder, dist: Distance, anchor: Option<Point>, p: Precision) {
    exists i: nat :: i < |vs| && vs[i].precision == p && Usable(vs[i], geo, dist, anchor) != []
  }

  lemma AnswersTail(vs: seq<Variant>, geo: Geocoder, dist: Distance, anchor: Option<Point>, p: Precision)
    requires vs != []
    ensures Answers(vs, geo, dist, anchor, p)
            <==> (vs[0].precision == p && Usable(vs[0], geo, dist, anchor) != [])
                 || Answers(vs[1..], geo, dist, anchor, p)
  {
    if Answers(vs, geo, dist, anchor, p) {
      var i: nat :| i < |vs| && vs[i].precision == p && Usable(vs[i], geo, dist, anchor) != [];
      assert i != 0 ==> vs[1..][i - 1] == vs[i];
    }
    if Answers(vs[1..], geo, dist, anchor, p) {
      var i: nat :| i < |vs[1..]| && vs[1..][i].precision == p && Usable(vs[1..][i], geo, dist, anchor) != [];
      assert vs[i + 1] == vs[1..][i];
    }
  }

  lemma {:induction false} AreaHitsIff(vs: seq<Variant>, geo: Geocoder, dist: Distance, anchor: Option<Point>)
    ensures AreaHits(vs, geo) != [] <==> Answers(vs, geo, dist, anchor, Area)
  {
    if vs != [] {
      AreaHitsIff(vs[1..], geo, dist, anchor);
      AnswersTail(vs, geo, dist, anchor, Area);
    }
  }

  lemma {:induction false} FirstUsableIff(vs: seq<Variant>, geo: Geocoder, dist: Distance, anchor: Option<Point>)
    requires Ordered(vs)
    ensures var p := FirstUsable(vs, geo, dist, anchor).precision;
            && (p == Some(Exact) <==> Answers(vs, geo, dist, anchor, Exact))
            && (p == Some(Street) <==> !Answers(vs, geo, dist, anchor, Exact) && Answers(vs, geo, dist, anchor, Street))
            && (p == None <==> !Answers(vs, geo, dist, anchor, Exact) && !Answers(vs, geo, dist, anchor, Street))
            && p != Some(Area)
  {
    if vs != [] {
      FirstUsableIff(vs[1..], geo, dist, anchor);
      AnswersTail(vs, geo, dist, anchor, Exact);
      AnswersTail(vs, geo, dist, anchor, Street);
      assert vs[0].precision != Exact ==> forall i | 0 < i < |vs| :: vs[i].precision != Exact;
    }
  }

  lemma {:induction false} NearIsNear(hits: seq<Hit>, anchor: Point, dist: Distance)
    ensures forall h | h in Near(hits, anchor, dist) :: h in hits && dist(anchor, h.at) <= AREA_ANCHOR_RADIUS_M
    ensures forall h | h in hits && dist(anchor, h.at) <= AREA_ANCHOR_RADIUS_M :: h in Near(hits, anchor, dist)
  {
    if hits != [] {
      NearIsNear(hits[1..], anchor, dist);
    }
  }

  lemma {:induction false} StreetHitsNear(vs: seq<Variant>, geo: Geocoder, dist: Distance, anchor: Point)
    ensures var f := FirstUsable(vs, geo, dist, Some(anchor));
            f.precision == Some(Street) ==> forall h | h in f.hits :: dist(anchor, h.at) <= AREA_ANCHOR_RADIUS_M
  {
    if vs != [] {
      StreetHitsNear(vs[1..], geo, dist, anchor);
      NearIsNear(geo(vs[0].term), anchor, dist);
    }
  }

  /** The most precise form that has hits, and how far a street may be. */
  ghost predicate RightAnswer(vs: seq<Variant>, geo: Geocoder, dist: Distance, a: Option<Point>, found: Found) {
    && (found.precision == Some(Exact) <==> Answers(vs, geo, dist, a, Exact))
    && (found.precision == Some(Street) <==>
          !Answers(vs, geo, dist, a, Exact) && Answers(vs, geo, dist, a, Street))
    && (found.precision == Some(Area) <==>
          !Answers(vs, geo, dist, a, Exact) && !Answers(vs, geo, dist, a, Street) && Answers(vs, geo, dist, a, Area))
    && (found.precision == None <==>
          !Answers(vs, geo, dist, a, Exact) && !Answers(vs, geo, dist, a, Street) && !Answers(vs, geo, dist, a, Area))
    && (found.precision == None ==> found.hits == [])
    && (found.precision.Some? ==> FirstAnswer(vs, geo, dist, a, found.precision.value, found.hits))
    && (found.precision == Some(Street) && a.Some? ==>
          forall h | h in found.hits :: dist(a.value, h.at) <= AREA_ANCHOR_RADIUS_M)
  }

  lemma OrderedSearch(vs: seq<Variant>, geo: Geocoder, dist: Distance, given: Option<Point>)
    requires Ordered(vs)
    ensures RightAnswer(vs, geo, dist, Anchor(vs, geo, given), Progressive(vs, geo, dist, given))
  {
    var a := Anchor(vs, geo, given);
    FirstUsableIff(vs, geo, dist, a);
    AreaHitsIff(vs, geo, dist, a);
    FirstUsableFirst(vs, geo, dist, a);
    if AreaHits(vs, geo) != [] {
      AreaHitsFirst(vs, geo, dist, a);
    }
    if a.Some? {
      StreetHitsNear(vs, geo, dist, a.value);
    }
  }

  /**
   What the search answers, for every address and every geocoder: the precision names the
   most precise form that has hits, a street only counting near the anchor when there is
   one, and an empty answer means no form has any.
   */
  lemma SearchCharacterised(query: string, streetTypes: set<string>,
                            geo: Geocoder, dist: Distance, given: Option<Point>)
    ensures var vs := Variants(query, streetTypes);
            RightAnswer(vs, geo, dist, Anchor(vs, geo, given), Progressive(vs, geo, dist, given))
  {
    VariantsCharacterised(query, streetTypes);
    OrderedSearch(Variants(query, streetTypes), geo, dist, given);
  }

  lemma {:induction false} FirstUsableFinds(vs: seq<Variant>, geo: Geocoder, dist: Distance, anchor: Option<Point>)
    ensures FirstUsable(vs, geo, dist, anchor).hits == [] <==> FirstUsable(vs, geo, dist, anchor).precision == None
  {
    if vs != [] {
      FirstUsableFinds(vs[1..], geo, dist, anchor);
    }
  }
}
