/**
 Which forms of an address the search tries, and what it answers, said of the words of the
 address, the street-type words and the geocoder alone.
 */
module SearchLaws {
  import opened Wrappers
  import opened Sequences
  import opened Text
  import opened Tokens
  import opened Search

  // --------------------------------------------------------------- the forms

  /** The words of an address are what lies between its commas and white space. */
  lemma QueryWordsIff(query: string, words: seq<string>)
    ensures QueryWords(query) == words <==> exists gaps :: LaidOut(query, IsCommaOrSpace, words, gaps)
    ensures forall c :: IsCommaOrSpace(c) <==> c == ',' || IsSpace(c)
  {
    WordsOfStrip(query, IsCommaOrSpace);
    WordsIff(query, IsCommaOrSpace, words);
  }

  /** The words after the leading house numbers; all of them when there is nothing else. */
  ghost predicate IsBody(words: seq<string>, body: seq<string>) {
    if forall i | 0 <= i < |words| :: IsHouseNumber(words[i]) then body == words
    else
      exists d: nat ::
        && d < |words| && body == words[d..]
        && !IsHouseNumber(words[d]) && forall i | 0 <= i < d :: IsHouseNumber(words[i])
  }

  /** Word k is no street-type word, and some word from it on is no number. */
  ghost predicate AreaAt(body: seq<string>, k: nat, streetTypes: set<string>) {
    && 1 <= k < |body|
    && Lower(body[k]) !in streetTypes
    && exists i :: k <= i < |body| && !IsNumber(body[i])
  }

  ghost predicate FormOf(words: seq<string>, body: seq<string>, streetTypes: set<string>, v: Variant) {
    match v.precision
    case Exact => v.term == Join(words) || v.term == Join(body)
    case Street => exists k: nat :: AreaAt(body, k, streetTypes) && v.term == Join(body[..k])
    case Area => exists k: nat :: AreaAt(body, k, streetTypes) && v.term == Join(body[k..])
  }

  /**
   All the words, or those after the leading house numbers, as exact; of the latter the
   first few as a street, or the rest as an area.
   */
  ghost predicate IsForm(words: seq<string>, streetTypes: set<string>, v: Variant) {
    words != [] && exists body :: IsBody(words, body) && FormOf(words, body, streetTypes, v)
  }

  lemma AllNumbers(words: seq<string>)
    ensures DropNumbers(words) == [] <==> forall i | 0 <= i < |words| :: IsHouseNumber(words[i])
  {
    var rest := DropNumbers(words);
    if rest != [] {
      assert words[|words| - |rest|] == rest[0];
    }
  }

  lemma FirstOther(words: seq<string>, d: nat)
    requires d < |words| && !IsHouseNumber(words[d]) && forall i | 0 <= i < d :: IsHouseNumber(words[i])
    ensures DropNumbers(words) == words[d..]
  {
    var rest := DropNumbers(words);
    var n := |words| - |rest|;
    assert n <= d;
    assert words[n] == rest[0];
  }

  lemma BodyIs(words: seq<string>, body: seq<string>)
    ensures IsBody(words, body) <==> body == Body(words)
  {
    HasBody(words);
    if IsBody(words, body) {
      NoOtherBody(words, body);
    }
  }

  lemma HasBody(words: seq<string>)
    ensures IsBody(words, Body(words))
  {
    AllNumbers(words);
    var rest := DropNumbers(words);
    if rest != [] {
      var d: nat := |words| - |rest|;
      assert words[d] == rest[0] && rest == words[d..];
    }
  }

  lemma NoOtherBody(words: seq<string>, body: seq<string>)
    requires IsBody(words, body)
    ensures body == Body(words)
  {
    AllNumbers(words);
    if DropNumbers(words) != [] {
      var d: nat :| d < |words| && body == words[d..] && !IsHouseNumber(words[d])
                    && forall i | 0 <= i < d :: IsHouseNumber(words[i]);
      FirstOther(words, d);
    }
  }

  lemma SplitIff(body: seq<string>, k: nat, streetTypes: set<string>, s: Split)
    requires k <= |body|
    ensures s in SplitsTo(body, k, streetTypes)
            <==> exists c: nat :: c < k && AreaAt(body, c, streetTypes) && s == SplitAt(body, c)
  {
    if k > 1 {
      SplitIff(body, k - 1, streetTypes, s);
      assert StartsArea(body, k - 1, streetTypes) <==> AreaAt(body, k - 1, streetTypes);
    }
  }

  lemma {:induction false} StreetsIff(splits: seq<Split>, v: Variant)
    ensures v in Streets(splits) <==> v.precision == Street && exists s :: s in splits && v.term == s.street != ""
    ensures v in Areas(splits) <==> v.precision == Area && exists s :: s in splits && v.term == s.area
    decreases |splits|
  {
    if splits != [] {
      var front, last := Parted(splits);
      StreetsIff(front, v);
      StreetsMore(front, last);
      SplitsMore(splits, front, last);
    }
  }

  lemma SplitsMore(splits: seq<Split>, front: seq<Split>, last: Split)
    requires splits == front + [last]
    ensures forall s :: s in splits <==> s in front || s == last
  {
  }

  lemma BodyNotBlank(query: string)
    ensures forall w | w in Body(QueryWords(query)) :: w != ""
  {
    BodyPlain(query);
    forall w | w in Body(QueryWords(query)) ensures w != "" {
      assert IsWord(w, IsCommaOrSpace);
    }
  }

  lemma SplitForms(words: seq<string>, body: seq<string>, streetTypes: set<string>, splits: seq<Split>, v: Variant)
    requires splits == SplitsTo(body, |body|, streetTypes)
    requires forall w | w in body :: w != ""
    ensures v in Streets(splits) <==> v.precision == Street && FormOf(words, body, streetTypes, v)
    ensures v in Areas(splits) <==> v.precision == Area && FormOf(words, body, streetTypes, v)
  {
    StreetsIff(splits, v);
    forall s
      ensures s in splits <==> exists c: nat :: c < |body| && AreaAt(body, c, streetTypes) && s == SplitAt(body, c)
    {
      SplitIff(body, |body|, streetTypes, s);
    }
    forall k: nat | AreaAt(body, k, streetTypes) ensures SplitAt(body, k) in splits && Join(body[..k]) != "" {
      assert body[0] in body;
      JoinNotBlank(body[..k]);
    }
  }

  lemma ExactForms(words: seq<string>, body: seq<string>, streetTypes: set<string>, v: Variant)
    requires body == Body(words)
    ensures v in [Variant(Join(words), Exact)] + (if body != words then [Variant(Join(body), Exact)] else [])
            <==> v.precision == Exact && FormOf(words, body, streetTypes, v)
  {
  }

  lemma AllForms(words: seq<string>, body: seq<string>, streetTypes: set<string>, splits: seq<Split>, v: Variant)
    requires body == Body(words) && splits == SplitsTo(body, |body|, streetTypes)
    requires forall w | w in body :: w != ""
    ensures v in Forms(words, splits) <==> FormOf(words, body, streetTypes, v)
  {
    ExactForms(words, body, streetTypes, v);
    SplitForms(words, body, streetTypes, splits, v);
  }

  /** Exactly these are the forms the variants are taken from. */
  lemma FormIff(query: string, streetTypes: set<string>, v: Variant)
    ensures v in RawVariants(query, streetTypes) <==> IsForm(QueryWords(query), streetTypes, v)
  {
    var words, body := QueryWords(query), Body(QueryWords(query));
    if words != [] {
      BodyNotBlank(query);
      AllForms(words, body, streetTypes, Splits(query, streetTypes), v);
      OneBody(words, body, streetTypes, v);
    }
  }

  lemma OneBody(words: seq<string>, body: seq<string>, streetTypes: set<string>, v: Variant)
    requires words != [] && body == Body(words)
    ensures IsForm(words, streetTypes, v) <==> FormOf(words, body, streetTypes, v)
  {
    BodyIs(words, body);
    forall other | IsBody(words, other) ensures other == body {
      BodyIs(words, other);
    }
  }

  // ---------------------------------------------------- which are tried, and in what order

  /** A form of three characters or more that no more precise one repeats, whatever its case. */
  ghost predicate Tried(words: seq<string>, streetTypes: set<string>, v: Variant) {
    && IsForm(words, streetTypes, v)
    && |v.term| >= 3
    && forall w | IsForm(words, streetTypes, w) && Lower(w.term) == Lower(v.term) ::
         v.precision.Rank() <= w.precision.Rank()
  }

  lemma LongerJoin(a: seq<string>, b: seq<string>)
    requires a != [] && b != []
    ensures |Join(a + b)| == |Join(a)| + 1 + |Join(b)|
  {
    JoinAppend(a, b);
  }

  lemma LongerStreet(body: seq<string>, j: nat, k: nat)
    requires 1 <= j < k <= |body|
    ensures |Join(body[..j])| < |Join(body[..k])|
  {
    assert body[..k] == body[..j] + body[j..k];
    LongerJoin(body[..j], body[j..k]);
  }

  lemma LongerArea(body: seq<string>, j: nat, k: nat)
    requires j < k < |body|
    ensures |Join(body[k..])| < |Join(body[j..])|
  {
    assert body[j..] == body[j..k] + body[k..];
    LongerJoin(body[j..k], body[k..]);
  }

  lemma LongerExact(words: seq<string>, body: seq<string>)
    requires words != [] && IsBody(words, body) && body != words
    ensures |Join(body)| < |Join(words)|
  {
    var d: nat :| d < |words| && body == words[d..];
    assert words == words[..d] + words[d..];
    if d != 0 {
      LongerJoin(words[..d], words[d..]);
    }
  }

  lemma SameStreet(body: seq<string>, j: nat, k: nat)
    requires 1 <= j <= |body| && 1 <= k <= |body| && |Join(body[..j])| == |Join(body[..k])|
    ensures j == k
  {
    if j < k {
      LongerStreet(body, j, k);
    } else if k < j {
      LongerStreet(body, k, j);
    }
  }

  lemma SameArea(body: seq<string>, j: nat, k: nat)
    requires j < |body| && k < |body| && |Join(body[j..])| == |Join(body[k..])|
    ensures j == k
  {
    if j < k {
      LongerArea(body, j, k);
    } else if k < j {
      LongerArea(body, k, j);
    }
  }

  lemma SameLength(words: seq<string>, body: seq<string>, streetTypes: set<string>, v: Variant, w: Variant)
    requires words != [] && IsBody(words, body)
    requires FormOf(words, body, streetTypes, v) && FormOf(words, body, streetTypes, w)
    requires v.precision == w.precision && |v.term| == |w.term|
    ensures v == w
  {
    match v.precision
    case Exact =>
      if body != words {
        LongerExact(words, body);
      }
    case Street =>
      var j: nat :| AreaAt(body, j, streetTypes) && v.term == Join(body[..j]);
      var k: nat :| AreaAt(body, k, streetTypes) && w.term == Join(body[..k]);
      SameStreet(body, j, k);
    case Area =>
      var j: nat :| AreaAt(body, j, streetTypes) && v.term == Join(body[j..]);
      var k: nat :| AreaAt(body, k, streetTypes) && w.term == Join(body[k..]);
      SameArea(body, j, k);
  }

  lemma SameCase(query: string, streetTypes: set<string>, v: Variant, w: Variant)
    requires v in RawVariants(query, streetTypes) && w in RawVariants(query, streetTypes)
    requires v.precision == w.precision && Lower(v.term) == Lower(w.term)
    ensures v == w
  {
    var words := QueryWords(query);
    FormIff(query, streetTypes, v);
    FormIff(query, streetTypes, w);
    OneBody(words, Body(words), streetTypes, v);
    OneBody(words, Body(words), streetTypes, w);
    BodyIs(words, Body(words));
    assert |Lower(v.term)| == |Lower(w.term)|;
    SameLength(words, Body(words), streetTypes, v, w);
  }

  /** Exactly the forms that are long enough and repeat no more precise one are tried. */
  lemma VariantIff(query: string, streetTypes: set<string>, v: Variant)
    ensures v in Variants(query, streetTypes) <==> Tried(QueryWords(query), streetTypes, v)
  {
    if v in Variants(query, streetTypes) {
      KeptIsTried(query, streetTypes, v);
    }
    if Tried(QueryWords(query), streetTypes, v) {
      TriedIsKept(query, streetTypes, v);
    }
  }

  lemma KeptIsTried(query: string, streetTypes: set<string>, v: Variant)
    requires v in Variants(query, streetTypes)
    ensures Tried(QueryWords(query), streetTypes, v)
  {
    VariantsCharacterised(query, streetTypes);
    FormIff(query, streetTypes, v);
    forall w | IsForm(QueryWords(query), streetTypes, w) && Lower(w.term) == Lower(v.term)
      ensures v.precision.Rank() <= w.precision.Rank()
    {
      FormIff(query, streetTypes, w);
      KeptIsBest(query, streetTypes, v, w);
    }
  }

  lemma TriedIsKept(query: string, streetTypes: set<string>, v: Variant)
    requires Tried(QueryWords(query), streetTypes, v)
    ensures v in Variants(query, streetTypes)
  {
    var out := Variants(query, streetTypes);
    VariantsCharacterised(query, streetTypes);
    FormIff(query, streetTypes, v);
    var i: nat :| i < |out| && Covers(out[i], v);
    assert out[i] in out;
    FormIff(query, streetTypes, out[i]);
    SameRank(out[i].precision, v.precision);
    SameCase(query, streetTypes, out[i], v);
  }

  lemma SameRank(p: Precision, q: Precision)
    ensures p.Rank() == q.Rank() ==> p == q
  {
  }

  lemma KeptIsBest(query: string, streetTypes: set<string>, v: Variant, w: Variant)
    requires v in Variants(query, streetTypes) && w in RawVariants(query, streetTypes)
    requires Lower(w.term) == Lower(v.term)
    ensures v.precision.Rank() <= w.precision.Rank()
  {
    VariantsCharacterised(query, streetTypes);
    assert |Lower(w.term)| == |Lower(v.term)|;
    OnlyOneKept(Variants(query, streetTypes), v, w);
  }

  lemma OnlyOneKept(out: seq<Variant>, v: Variant, w: Variant)
    requires forall i, j | 0 <= i < j < |out| :: Lower(out[i].term) != Lower(out[j].term)
    requires v in out && Covered(out, w) && Lower(w.term) == Lower(v.term)
    ensures v.precision.Rank() <= w.precision.Rank()
  {
    var i: nat :| i < |out| && Covers(out[i], w);
    var j: nat :| j < |out| && out[j] == v;
    assert i < j ==> Lower(out[i].term) != Lower(out[j].term);
    assert j < i ==> Lower(out[j].term) != Lower(out[i].term);
  }

  /** The order of trying: precise forms first, longer ones first, but shorter streets first. */
  predicate Sooner(v: Variant, w: Variant) {
    || v.precision.Rank() < w.precision.Rank()
    || (v.precision == w.precision && if v.precision == Street then |v.term| < |w.term| else |v.term| > |w.term|)
  }

  predicate InOrder(vs: seq<Variant>) {
    forall i, j | 0 <= i < j < |vs| :: Sooner(vs[i], vs[j])
  }

  lemma InOrderMore(vs: seq<Variant>, v: Variant)
    requires InOrder(vs) && forall w | w in vs :: Sooner(w, v)
    ensures InOrder(vs + [v])
  {
    forall i, j | 0 <= i < j < |vs + [v]| ensures Sooner((vs + [v])[i], (vs + [v])[j]) {
      assert vs[i] in vs;
    }
  }

  lemma InOrderConcat(a: seq<Variant>, b: seq<Variant>)
    requires InOrder(a) && InOrder(b) && forall v, w | v in a && w in b :: Sooner(v, w)
    ensures InOrder(a + b)
  {
    forall i, j | 0 <= i < j < |a + b| ensures Sooner((a + b)[i], (a + b)[j]) {
      if i < |a| <= j {
        assert a[i] in a && b[j - |a|] in b;
      }
    }
  }

  predicate StreetBefore(body: seq<string>, c: nat, v: Variant) {
    c <= |body| && v.precision == Street && |v.term| <= |Join(body[..c])|
  }

  lemma StreetsMore(splits: seq<Split>, s: Split)
    ensures Streets(splits + [s]) == Streets(splits) + if s.street != "" then [Variant(s.street, Street)] else []
    ensures Areas(splits + [s]) == Areas(splits) + [Variant(s.area, Area)]
  {
    assert (splits + [s])[..|splits|] == splits;
  }

  lemma SplitsNext(body: seq<string>, k: nat, streetTypes: set<string>, front: seq<Split>)
    requires 1 < k <= |body| && front == SplitsTo(body, k - 1, streetTypes)
    ensures SplitsTo(body, k, streetTypes)
            == if StartsArea(body, k - 1, streetTypes) then front + [SplitAt(body, k - 1)] else front
  {
    assert front + [] == front;
  }

  lemma NextStreet(vs: seq<Variant>, body: seq<string>, c: nat)
    requires 1 <= c <= |body| && InOrder(vs) && forall v | v in vs :: c > 1 && StreetBefore(body, c - 1, v)
    ensures forall v | v in vs :: StreetBefore(body, c, v)
    ensures StreetBefore(body, c, Variant(Join(body[..c]), Street))
    ensures InOrder(vs + [Variant(Join(body[..c]), Street)])
  {
    if c > 1 {
      LongerStreet(body, c - 1, c);
    }
    InOrderMore(vs, Variant(Join(body[..c]), Street));
  }

  lemma {:induction false} StreetsInOrder(body: seq<string>, k: nat, streetTypes: set<string>)
    requires k <= |body|
    ensures InOrder(Streets(SplitsTo(body, k, streetTypes)))
    ensures forall v | v in Streets(SplitsTo(body, k, streetTypes)) :: k > 1 && StreetBefore(body, k - 1, v)
  {
    if k > 1 {
      StreetsInOrder(body, k - 1, streetTypes);
      var front := SplitsTo(body, k - 1, streetTypes);
      SplitsNext(body, k, streetTypes, front);
      StreetsMore(front, SplitAt(body, k - 1));
      NextStreet(Streets(front), body, k - 1);
    }
  }

  predicate AreaFrom(body: seq<string>, c: nat, v: Variant) {
    c <= |body| && v.precision == Area && |v.term| >= |Join(body[c..])|
  }

  lemma NextArea(vs: seq<Variant>, body: seq<string>, c: nat)
    requires 1 <= c < |body| && InOrder(vs) && forall v | v in vs :: c > 1 && AreaFrom(body, c - 1, v)
    ensures forall v | v in vs :: AreaFrom(body, c, v)
    ensures AreaFrom(body, c, Variant(Join(body[c..]), Area))
    ensures InOrder(vs + [Variant(Join(body[c..]), Area)])
  {
    if c > 1 {
      LongerArea(body, c - 1, c);
    }
    InOrderMore(vs, Variant(Join(body[c..]), Area));
  }

  lemma {:induction false} AreasInOrder(body: seq<string>, k: nat, streetTypes: set<string>)
    requires k <= |body|
    ensures InOrder(Areas(SplitsTo(body, k, streetTypes)))
    ensures forall v | v in Areas(SplitsTo(body, k, streetTypes)) :: k > 1 && AreaFrom(body, k - 1, v)
  {
    if k > 1 {
      AreasInOrder(body, k - 1, streetTypes);
      var front := SplitsTo(body, k - 1, streetTypes);
      SplitsNext(body, k, streetTypes, front);
      StreetsMore(front, SplitAt(body, k - 1));
      NextArea(Areas(front), body, k - 1);
    }
  }

  lemma ExactInOrder(words: seq<string>, body: seq<string>)
    requires words != [] && IsBody(words, body)
    ensures InOrder(Exacts(words, body))
  {
    if body != words {
      LongerExact(words, body);
    }
  }

  lemma FormsInOrder(query: string, streetTypes: set<string>)
    ensures InOrder(RawVariants(query, streetTypes))
  {
    var words := QueryWords(query);
    RawIs(query, streetTypes);
    if words != [] {
      var exact := ExactOnes(words);
      PiecesInOrder(exact, Body(words), streetTypes, Splits(query, streetTypes), RawVariants(query, streetTypes));
    }
  }

  lemma ExactOnes(words: seq<string>) returns (exact: seq<Variant>)
    requires words != []
    ensures exact == Exacts(words, Body(words)) && InOrder(exact) && forall v | v in exact :: v.precision == Exact
  {
    var body := TheBody(words);
    ExactInOrder(words, body);
    ExactsExact(words, body);
    exact := Exacts(words, body);
  }

  lemma TheBody(words: seq<string>) returns (body: seq<string>)
    ensures body == Body(words) && IsBody(words, body)
  {
    HasBody(words);
    body := Body(words);
  }

  lemma ExactsExact(words: seq<string>, body: seq<string>)
    ensures forall v | v in Exacts(words, body) :: v.precision == Exact
  {
  }

  /** The exact forms. */
  function Exacts(words: seq<string>, body: seq<string>): seq<Variant> {
    [Variant(Join(words), Exact)] + if body != words then [Variant(Join(body), Exact)] else []
  }

  lemma RawIs(query: string, streetTypes: set<string>)
    ensures var words, splits := QueryWords(query), Splits(query, streetTypes);
            RawVariants(query, streetTypes)
            == if words == [] then [] else Exacts(words, Body(words)) + Streets(splits) + Areas(splits)
  {
  }

  lemma PiecesInOrder(exact: seq<Variant>, body: seq<string>, streetTypes: set<string>, splits: seq<Split>,
                      raw: seq<Variant>)
    requires InOrder(exact) && forall v | v in exact :: v.precision == Exact
    requires splits == SplitsTo(body, |body|, streetTypes) && raw == exact + Streets(splits) + Areas(splits)
    ensures InOrder(raw)
  {
    StreetsInOrder(body, |body|, streetTypes);
    AreasInOrder(body, |body|, streetTypes);
    StreetsAreStreets(splits);
    InOrderConcat(exact, Streets(splits));
    InOrderConcat(exact + Streets(splits), Areas(splits));
  }

  lemma {:induction false} DistinctInOrder(raw: seq<Variant>)
    requires InOrder(raw)
    ensures InOrder(Distinct(raw))
  {
    if raw != [] {
      var front, v := raw[..|raw| - 1], raw[|raw| - 1];
      DistinctInOrder(front);
      DistinctFrom(front);
      forall w | w in Distinct(front) ensures Sooner(w, v) {
        var i: nat :| i < |front| && front[i] == w;
        assert Sooner(raw[i], raw[|raw| - 1]);
      }
      if Fresh(Distinct(front), v) && |v.term| >= 3 {
        InOrderMore(Distinct(front), v);
      }
    }
  }

  lemma VariantsInOrder(query: string, streetTypes: set<string>)
    ensures InOrder(Variants(query, streetTypes))
  {
    FormsInOrder(query, streetTypes);
    DistinctInOrder(RawVariants(query, streetTypes));
  }

  // ------------------------------------------------------------- the answer

  /** A hit counts, but for a street only within 3,500 m of the anchor, if there is one. */
  ghost predicate InReach(v: Variant, dist: Distance, anchor: Option<Point>, h: Hit) {
    v.precision == Street && anchor.Some? ==> dist(anchor.value, h.at) <= 3500.0
  }

  /** The form is tried and has a hit that counts. */
  ghost predicate CanAnswer(words: seq<string>, streetTypes: set<string>, geo: Geocoder, dist: Distance,
                            anchor: Option<Point>, v: Variant)
  {
    Tried(words, streetTypes, v) && exists h :: h in geo(v.term) && InReach(v, dist, anchor, h)
  }

  /** And no other that has one, of the same precision, comes sooner. */
  ghost predicate AnswersFirst(words: seq<string>, streetTypes: set<string>, geo: Geocoder, dist: Distance,
                               anchor: Option<Point>, v: Variant)
  {
    && CanAnswer(words, streetTypes, geo, dist, anchor, v)
    && forall w | CanAnswer(words, streetTypes, geo, dist, anchor, w) && w.precision == v.precision && w != v ::
         if v.precision == Street then |v.term| < |w.term| else |v.term| > |w.term|
  }

  /** The point given; else the first hit of the longest area that has any; else none. */
  ghost predicate IsAnchor(words: seq<string>, streetTypes: set<string>, geo: Geocoder, dist: Distance,
                           given: Option<Point>, anchor: Option<Point>)
  {
    if given.Some? then anchor == given
    else
      || (&& anchor == None
          && forall v | CanAnswer(words, streetTypes, geo, dist, None, v) :: v.precision != Area)
      || exists v ::
           && AnswersFirst(words, streetTypes, geo, dist, None, v) && v.precision == Area
           && geo(v.term) != [] && anchor == Some(geo(v.term)[0].at)
  }

  /** out is the hits that count, each as often as it occurs, in their order. */
  ghost predicate ThoseInReach(hits: seq<Hit>, v: Variant, dist: Distance, anchor: Option<Point>, out: seq<Hit>) {
    exists at: seq<nat> ::
      && |at| == |out|
      && (forall i, j | 0 <= i < j < |at| :: at[i] < at[j])
      && (forall i | 0 <= i < |at| :: at[i] < |hits| && out[i] == hits[at[i]])
      && (forall n: nat | n < |hits| :: InReach(v, dist, anchor, hits[n]) <==> n in at)
  }

  ghost predicate IsAnswer(words: seq<string>, streetTypes: set<string>, geo: Geocoder, dist: Distance,
                           anchor: Option<Point>, found: Found)
  {
    match found.precision
    case None => found.hits == [] && forall v :: !CanAnswer(words, streetTypes, geo, dist, anchor, v)
    case Some(p) =>
      && (forall v | CanAnswer(words, streetTypes, geo, dist, anchor, v) :: p.Rank() <= v.precision.Rank())
      && exists v ::
           && AnswersFirst(words, streetTypes, geo, dist, anchor, v) && v.precision == p
           && ThoseInReach(geo(v.term), v, dist, anchor, found.hits)
  }

  /** The places from k on of the hits near the anchor. */
  ghost function PlacesNear(hits: seq<Hit>, k: nat, anchor: Point, dist: Distance): seq<nat>
    requires k <= |hits|
    decreases |hits| - k
  {
    if k == |hits| then []
    else (if dist(anchor, hits[k].at) <= 3500.0 then [k] else []) + PlacesNear(hits, k + 1, anchor, dist)
  }

  lemma {:induction false} PlacesInOrder(hits: seq<Hit>, k: nat, anchor: Point, dist: Distance)
    requires k <= |hits|
    ensures var at := PlacesNear(hits, k, anchor, dist);
            && (forall i | 0 <= i < |at| :: k <= at[i] < |hits|)
            && (forall i, j | 0 <= i < j < |at| :: at[i] < at[j])
            && (forall n: nat | k <= n < |hits| :: dist(anchor, hits[n].at) <= 3500.0 <==> n in at)
    decreases |hits| - k
  {
    if k < |hits| {
      PlacesInOrder(hits, k + 1, anchor, dist);
    }
  }

  lemma {:induction false} NearAtPlaces(hits: seq<Hit>, k: nat, anchor: Point, dist: Distance)
    requires k <= |hits|
    ensures var at, out := PlacesNear(hits, k, anchor, dist), Near(hits[k..], anchor, dist);
            |at| == |out| && forall i | 0 <= i < |at| :: at[i] < |hits| && out[i] == hits[at[i]]
    decreases |hits| - k
  {
    if k < |hits| {
      NearAtPlaces(hits, k + 1, anchor, dist);
      assert hits[k..][1..] == hits[k + 1..];
    }
  }

  /** What a form answers with is the hits that count, in their order. */
  lemma UsableInReach(v: Variant, geo: Geocoder, dist: Distance, anchor: Option<Point>)
    ensures ThoseInReach(geo(v.term), v, dist, anchor, Usable(v, geo, dist, anchor))
  {
    var hits := geo(v.term);
    if v.precision == Street && anchor.Some? {
      PlacesInOrder(hits, 0, anchor.value, dist);
      NearAtPlaces(hits, 0, anchor.value, dist);
      assert hits[0..] == hits;
      PickedByPlaces(hits, v, dist, anchor, Near(hits, anchor.value, dist), PlacesNear(hits, 0, anchor.value, dist));
    } else {
      PickedByPlaces(hits, v, dist, anchor, hits, seq(|hits|, i requires 0 <= i < |hits| => i));
    }
  }

  lemma PickedByPlaces(hits: seq<Hit>, v: Variant, dist: Distance, anchor: Option<Point>, out: seq<Hit>, at: seq<nat>)
    requires |at| == |out| && forall i, j | 0 <= i < j < |at| :: at[i] < at[j]
    requires forall i | 0 <= i < |at| :: at[i] < |hits| && out[i] == hits[at[i]]
    requires forall n: nat | n < |hits| :: InReach(v, dist, anchor, hits[n]) <==> n in at
    ensures ThoseInReach(hits, v, dist, anchor, out)
  {
  }

  lemma CanIff(query: string, streetTypes: set<string>, geo: Geocoder, dist: Distance, anchor: Option<Point>,
               v: Variant)
    ensures CanAnswer(QueryWords(query), streetTypes, geo, dist, anchor, v)
            <==> v in Variants(query, streetTypes) && Usable(v, geo, dist, anchor) != []
  {
    VariantIff(query, streetTypes, v);
    var hits, out := geo(v.term), Usable(v, geo, dist, anchor);
    if v.precision == Street && anchor.Some? {
      NearIsNear(hits, anchor.value, dist);
    }
    assert out != [] ==> out[0] in out;
    assert hits != [] ==> hits[0] in hits;
  }

  lemma LaterThan(vs: seq<Variant>, i: nat, w: Variant, geo: Geocoder, dist: Distance, anchor: Option<Point>,
                  p: Precision)
    requires InOrder(vs) && i < |vs| && forall j: nat | j < i :: !AnswersAt(vs, j, geo, dist, anchor, p)
    requires w in vs && w.precision == p && Usable(w, geo, dist, anchor) != [] && w != vs[i]
    ensures Sooner(vs[i], w)
  {
    var j: nat :| j < |vs| && vs[j] == w;
    assert AnswersAt(vs, j, geo, dist, anchor, p);
  }

  lemma FirstIs(query: string, streetTypes: set<string>, geo: Geocoder, dist: Distance, anchor: Option<Point>,
                vs: seq<Variant>, i: nat, p: Precision)
    requires vs == Variants(query, streetTypes) && i < |vs| && AnswersAt(vs, i, geo, dist, anchor, p)
    requires forall j: nat | j < i :: !AnswersAt(vs, j, geo, dist, anchor, p)
    ensures AnswersFirst(QueryWords(query), streetTypes, geo, dist, anchor, vs[i])
  {
    CanIff(query, streetTypes, geo, dist, anchor, vs[i]);
    forall w | CanAnswer(QueryWords(query), streetTypes, geo, dist, anchor, w) && w.precision == p && w != vs[i]
      ensures Sooner(vs[i], w)
    {
      AnswersLater(query, streetTypes, geo, dist, anchor, vs, i, p, w);
    }
  }

  lemma AnswersLater(query: string, streetTypes: set<string>, geo: Geocoder, dist: Distance, anchor: Option<Point>,
                     vs: seq<Variant>, i: nat, p: Precision, w: Variant)
    requires vs == Variants(query, streetTypes) && i < |vs|
    requires forall j: nat | j < i :: !AnswersAt(vs, j, geo, dist, anchor, p)
    requires CanAnswer(QueryWords(query), streetTypes, geo, dist, anchor, w) && w.precision == p && w != vs[i]
    ensures Sooner(vs[i], w)
  {
    VariantsInOrder(query, streetTypes);
    CanIff(query, streetTypes, geo, dist, anchor, w);
    LaterThan(vs, i, w, geo, dist, anchor, p);
  }

  /** The hits of the first form of a precision that has any, as the words tell it. */
  ghost predicate FirstWith(words: seq<string>, streetTypes: set<string>, geo: Geocoder, dist: Distance,
                            anchor: Option<Point>, p: Precision, hits: seq<Hit>)
  {
    exists v ::
      && AnswersFirst(words, streetTypes, geo, dist, anchor, v) && v.precision == p
      && hits == Usable(v, geo, dist, anchor)
  }

  lemma FirstAnswerIs(query: string, streetTypes: set<string>, geo: Geocoder, dist: Distance, anchor: Option<Point>,
                      vs: seq<Variant>, p: Precision, hits: seq<Hit>)
    requires vs == Variants(query, streetTypes) && FirstAnswer(vs, geo, dist, anchor, p, hits)
    ensures FirstWith(QueryWords(query), streetTypes, geo, dist, anchor, p, hits)
  {
    var i: nat :|
      && i < |vs| && AnswersAt(vs, i, geo, dist, anchor, p) && hits == Usable(vs[i], geo, dist, anchor)
      && forall j: nat | j < i :: !AnswersAt(vs, j, geo, dist, anchor, p);
    FirstIs(query, streetTypes, geo, dist, anchor, vs, i, p);
  }

  lemma CanMeansAnswers(query: string, streetTypes: set<string>, geo: Geocoder, dist: Distance,
                        anchor: Option<Point>, v: Variant)
    requires CanAnswer(QueryWords(query), streetTypes, geo, dist, anchor, v)
    ensures Answers(Variants(query, streetTypes), geo, dist, anchor, v.precision)
  {
    CanIff(query, streetTypes, geo, dist, anchor, v);
    var vs := Variants(query, streetTypes);
    var i: nat :| i < |vs| && vs[i] == v;
  }

  lemma AnchorIs(query: string, streetTypes: set<string>, geo: Geocoder, dist: Distance, given: Option<Point>)
    ensures IsAnchor(QueryWords(query), streetTypes, geo, dist, given, Anchor(Variants(query, streetTypes), geo, given))
  {
    var words, vs := QueryWords(query), Variants(query, streetTypes);
    if given.None? {
      AreaHitsIff(vs, geo, dist, None);
      if AreaHits(vs, geo) != [] {
        AreaHitsFirst(vs, geo, dist, None);
        FirstAnswerIs(query, streetTypes, geo, dist, None, vs, Area, AreaHits(vs, geo));
      } else {
        forall v | CanAnswer(words, streetTypes, geo, dist, None, v) ensures v.precision != Area {
          CanMeansAnswers(query, streetTypes, geo, dist, None, v);
        }
      }
    }
  }

  /** The answer, from the words, the street types and the geocoder, in every respect. */
  lemma AnswerIs(query: string, streetTypes: set<string>, geo: Geocoder, dist: Distance, given: Option<Point>)
    ensures exists anchor ::
              && IsAnchor(QueryWords(query), streetTypes, geo, dist, given, anchor)
              && IsAnswer(QueryWords(query), streetTypes, geo, dist, anchor,
                          Progressive(Variants(query, streetTypes), geo, dist, given))
  {
    var vs := Variants(query, streetTypes);
    var a, found := Anchor(vs, geo, given), Progressive(vs, geo, dist, given);
    AnchorIs(query, streetTypes, geo, dist, given);
    SearchCharacterised(query, streetTypes, geo, dist, given);
    RightIsAnswer(query, streetTypes, geo, dist, a, found);
  }

  lemma RightIsAnswer(query: string, streetTypes: set<string>, geo: Geocoder, dist: Distance, a: Option<Point>,
                      found: Found)
    requires RightAnswer(Variants(query, streetTypes), geo, dist, a, found)
    ensures IsAnswer(QueryWords(query), streetTypes, geo, dist, a, found)
  {
    forall v | CanAnswer(QueryWords(query), streetTypes, geo, dist, a, v)
      ensures found.precision.Some? && found.precision.value.Rank() <= v.precision.Rank()
    {
      CanMeansAnswers(query, streetTypes, geo, dist, a, v);
      NoneBetter(Variants(query, streetTypes), geo, dist, a, found, v.precision);
    }
    if found.precision.Some? {
      FirstAnswerIs(query, streetTypes, geo, dist, a, Variants(query, streetTypes), found.precision.value, found.hits);
      FirstReaches(QueryWords(query), streetTypes, geo, dist, a, found.precision.value, found.hits);
    }
  }

  lemma NoneBetter(vs: seq<Variant>, geo: Geocoder, dist: Distance, a: Option<Point>, found: Found, p: Precision)
    requires RightAnswer(vs, geo, dist, a, found) && Answers(vs, geo, dist, a, p)
    ensures found.precision.Some? && found.precision.value.Rank() <= p.Rank()
  {
  }

  lemma FirstReaches(words: seq<string>, streetTypes: set<string>, geo: Geocoder, dist: Distance, a: Option<Point>,
                     p: Precision, hits: seq<Hit>)
    requires FirstWith(words, streetTypes, geo, dist, a, p, hits)
    ensures exists v ::
              && AnswersFirst(words, streetTypes, geo, dist, a, v) && v.precision == p
              && ThoseInReach(geo(v.term), v, dist, a, hits)
  {
    var v :| AnswersFirst(words, streetTypes, geo, dist, a, v) && v.precision == p && hits == Usable(v, geo, dist, a);
    UsableInReach(v, geo, dist, a);
  }

  /** The area from word k on is not also the first words, whatever the case. */
  ghost predicate NotTheStreet(body: seq<string>, k: nat, streetTypes: set<string>)
    requires k <= |body|
  {
    forall j: nat | AreaAt(body, j, streetTypes) :: Lower(Join(body[..j])) != Lower(Join(body[k..]))
  }

  lemma TriedNotStreet(words: seq<string>, body: seq<string>, streetTypes: set<string>, k: nat, j: nat)
    requires words != [] && IsBody(words, body) && AreaAt(body, k, streetTypes) && AreaAt(body, j, streetTypes)
    requires Tried(words, streetTypes, Variant(Join(body[k..]), Area))
    ensures Lower(Join(body[..j])) != Lower(Join(body[k..]))
  {
    var street := Variant(Join(body[..j]), Street);
    assert FormOf(words, body, streetTypes, street);
    assert IsForm(words, streetTypes, street);
  }

  lemma NotStreetTried(words: seq<string>, body: seq<string>, streetTypes: set<string>, k: nat)
    requires words != [] && IsBody(words, body) && AreaAt(body, k, streetTypes)
    requires |Join(body[k..])| >= 3 && NotTheStreet(body, k, streetTypes)
    ensures Tried(words, streetTypes, Variant(Join(body[k..]), Area))
  {
    var v := Variant(Join(body[k..]), Area);
    assert FormOf(words, body, streetTypes, v);
    forall w | IsForm(words, streetTypes, w) && Lower(w.term) == Lower(v.term) ensures w.precision == Area {
      if w.precision != Area {
        BetterIsStreet(words, body, streetTypes, k, w);
      }
    }
  }

  lemma BetterIsStreet(words: seq<string>, body: seq<string>, streetTypes: set<string>, k: nat, w: Variant)
    requires words != [] && IsBody(words, body) && AreaAt(body, k, streetTypes)
    requires IsForm(words, streetTypes, w) && Lower(w.term) == Lower(Join(body[k..])) && w.precision != Area
    ensures !NotTheStreet(body, k, streetTypes)
  {
    BodyIs(words, body);
    OneBody(words, body, streetTypes, w);
    assert |Lower(w.term)| == |Lower(Join(body[k..]))|;
    LongerArea(body, 0, k);
    assert body[0..] == body;
    if body != words {
      LongerExact(words, body);
    }
  }

  /** The area from word k on is no street over again, long enough, and has hits. */
  ghost predicate AreaHasHits(body: seq<string>, k: nat, streetTypes: set<string>, geo: Geocoder) {
    && AreaAt(body, k, streetTypes) && NotTheStreet(body, k, streetTypes)
    && |Join(body[k..])| >= 3 && geo(Join(body[k..])) != []
  }

  lemma AreaCan(words: seq<string>, body: seq<string>, streetTypes: set<string>, geo: Geocoder, dist: Distance,
                anchor: Option<Point>, v: Variant)
    requires IsBody(words, body) && CanAnswer(words, streetTypes, geo, dist, anchor, v) && v.precision == Area
    ensures exists k: nat :: AreaHasHits(body, k, streetTypes, geo)
  {
    FormOfBody(words, body, streetTypes, v);
    var k := StartOf(words, body, streetTypes, v);
    TriedNotStreets(words, body, streetTypes, k);
    assert AreaHasHits(body, k, streetTypes, geo);
  }

  lemma FormOfBody(words: seq<string>, body: seq<string>, streetTypes: set<string>, v: Variant)
    requires IsBody(words, body) && IsForm(words, streetTypes, v)
    ensures FormOf(words, body, streetTypes, v)
  {
    BodyIs(words, body);
    OneBody(words, body, streetTypes, v);
  }

  /** Where in the body an area starts. */
  lemma StartOf(words: seq<string>, body: seq<string>, streetTypes: set<string>, v: Variant) returns (k: nat)
    requires FormOf(words, body, streetTypes, v) && v.precision == Area
    ensures AreaAt(body, k, streetTypes) && v == Variant(Join(body[k..]), Area)
  {
    k :| AreaAt(body, k, streetTypes) && v.term == Join(body[k..]);
  }

  lemma TriedNotStreets(words: seq<string>, body: seq<string>, streetTypes: set<string>, k: nat)
    requires words != [] && IsBody(words, body) && AreaAt(body, k, streetTypes)
    requires Tried(words, streetTypes, Variant(Join(body[k..]), Area))
    ensures NotTheStreet(body, k, streetTypes)
  {
    forall j: nat | AreaAt(body, j, streetTypes) ensures Lower(Join(body[..j])) != Lower(Join(body[k..])) {
      TriedNotStreet(words, body, streetTypes, k, j);
    }
  }

  lemma CanIsArea(words: seq<string>, body: seq<string>, streetTypes: set<string>, geo: Geocoder, dist: Distance,
                  anchor: Option<Point>, k: nat)
    requires IsBody(words, body) && words != [] && AreaHasHits(body, k, streetTypes, geo)
    ensures CanAnswer(words, streetTypes, geo, dist, anchor, Variant(Join(body[k..]), Area))
  {
    NotStreetTried(words, body, streetTypes, k);
    var v := Variant(Join(body[k..]), Area);
    assert geo(v.term)[0] in geo(v.term) && InReach(v, dist, anchor, geo(v.term)[0]);
  }

  /** No form but areas can answer. */
  ghost predicate OnlyAreasCan(words: seq<string>, streetTypes: set<string>, geo: Geocoder, dist: Distance,
                               anchor: Option<Point>)
  {
    forall v | CanAnswer(words, streetTypes, geo, dist, anchor, v) :: v.precision == Area
  }

  /**
   The answer is an area exactly when no form but areas can answer and some area of three
   characters or more, that is not the street over again, has hits.
   */
  lemma AreaAnswerIff(query: string, streetTypes: set<string>, geo: Geocoder, dist: Distance, given: Option<Point>,
                      body: seq<string>)
    requires IsBody(QueryWords(query), body)
    ensures exists anchor ::
              && IsAnchor(QueryWords(query), streetTypes, geo, dist, given, anchor)
              && (Progressive(Variants(query, streetTypes), geo, dist, given).precision == Some(Area)
                  <==> && OnlyAreasCan(QueryWords(query), streetTypes, geo, dist, anchor)
                       && exists k: nat :: AreaHasHits(body, k, streetTypes, geo))
  {
    AnswerIs(query, streetTypes, geo, dist, given);
    var words, found := QueryWords(query), Progressive(Variants(query, streetTypes), geo, dist, given);
    var anchor :| IsAnchor(words, streetTypes, geo, dist, given, anchor)
                  && IsAnswer(words, streetTypes, geo, dist, anchor, found);
    if found.precision == Some(Area) {
      AnswersArea(words, body, streetTypes, geo, dist, anchor, found);
    } else if k: nat :| AreaHasHits(body, k, streetTypes, geo) {
      HitsAnswer(words, body, streetTypes, geo, dist, anchor, found, k);
    }
  }

  lemma AnswersArea(words: seq<string>, body: seq<string>, streetTypes: set<string>, geo: Geocoder, dist: Distance,
                    anchor: Option<Point>, found: Found)
    requires IsBody(words, body) && IsAnswer(words, streetTypes, geo, dist, anchor, found)
    requires found.precision == Some(Area)
    ensures OnlyAreasCan(words, streetTypes, geo, dist, anchor)
    ensures exists k: nat :: AreaHasHits(body, k, streetTypes, geo)
  {
    OnlyAreas(words, streetTypes, geo, dist, anchor, found);
    var v := Answering(words, streetTypes, geo, dist, anchor, found);
    AreaCan(words, body, streetTypes, geo, dist, anchor, v);
  }

  lemma OnlyAreas(words: seq<string>, streetTypes: set<string>, geo: Geocoder, dist: Distance, anchor: Option<Point>,
                  found: Found)
    requires IsAnswer(words, streetTypes, geo, dist, anchor, found) && found.precision == Some(Area)
    ensures OnlyAreasCan(words, streetTypes, geo, dist, anchor)
  {
    forall v | CanAnswer(words, streetTypes, geo, dist, anchor, v) ensures v.precision == Area {
      assert Area.Rank() <= v.precision.Rank();
    }
  }

  /** The form that answers. */
  lemma Answering(words: seq<string>, streetTypes: set<string>, geo: Geocoder, dist: Distance, anchor: Option<Point>,
                  found: Found) returns (v: Variant)
    requires IsAnswer(words, streetTypes, geo, dist, anchor, found) && found.precision.Some?
    ensures CanAnswer(words, streetTypes, geo, dist, anchor, v) && v.precision == found.precision.value
  {
    v :| AnswersFirst(words, streetTypes, geo, dist, anchor, v) && v.precision == found.precision.value;
  }

  lemma HitsAnswer(words: seq<string>, body: seq<string>, streetTypes: set<string>, geo: Geocoder, dist: Distance,
                   anchor: Option<Point>, found: Found, k: nat)
    requires IsBody(words, body) && IsAnswer(words, streetTypes, geo, dist, anchor, found)
    requires AreaHasHits(body, k, streetTypes, geo)
    ensures OnlyAreasCan(words, streetTypes, geo, dist, anchor) ==> found.precision == Some(Area)
  {
    CanIsArea(words, body, streetTypes, geo, dist, anchor, k);
    if found.precision.Some? {
      var v := Answering(words, streetTypes, geo, dist, anchor, found);
    }
  }

  /** A word that can be neither a house number, a street type nor too short. */
  predicate IsName(w: string, streetTypes: set<string>) {
    && IsWord(w, IsCommaOrSpace) && |w| >= 3
    && !IsHouseNumber(w) && Lower(w) !in streetTypes
  }

  lemma TwiceWords(w: string, streetTypes: set<string>)
    requires IsName(w, streetTypes)
    ensures QueryWords(w + " " + w) == [w, w] && IsBody([w, w], [w, w])
  {
    assert Join([w]) == w && [w, w][1..] == [w];
    assert Join([w, w]) == w + " " + w;
    WordsOfStrip(w + " " + w, IsCommaOrSpace);
    WordsOfJoin([w, w], IsCommaOrSpace);
    assert [w, w][0..] == [w, w] && !IsHouseNumber([w, w][0]);
  }

  lemma TwiceForms(w: string, streetTypes: set<string>, v: Variant)
    requires IsName(w, streetTypes)
    ensures IsForm([w, w], streetTypes, v)
            <==> v == Variant(w + " " + w, Exact) || v == Variant(w, Street) || v == Variant(w, Area)
  {
    TwiceWords(w, streetTypes);
    BodyIs([w, w], [w, w]);
    OneBody([w, w], [w, w], streetTypes, v);
    assert [w, w][..1] == [w] && [w, w][1..] == [w] && Join([w]) == w;
    assert !IsNumber([w, w][1]) && AreaAt([w, w], 1, streetTypes);
  }

  /**
   Of a name said twice only the street is tried, so with an anchor far from its hits nothing
   is answered although the area has hits.
   */
  lemma NameTwiceIsLost(w: string, streetTypes: set<string>, geo: Geocoder, dist: Distance, p: Point)
    requires IsName(w, streetTypes) && geo(w + " " + w) == [] && geo(w) != []
    requires forall h | h in geo(w) :: dist(p, h.at) > 3500.0
    ensures Progressive(Variants(w + " " + w, streetTypes), geo, dist, Some(p)) == Found([], None)
  {
    TwiceWords(w, streetTypes);
    AnswerIs(w + " " + w, streetTypes, geo, dist, Some(p));
    forall v ensures !CanAnswer([w, w], streetTypes, geo, dist, Some(p), v) {
      if CanAnswer([w, w], streetTypes, geo, dist, Some(p), v) {
        TwiceTried(w, streetTypes, v);
        assert false;
      }
    }
  }

  lemma TwiceTried(w: string, streetTypes: set<string>, v: Variant)
    requires IsName(w, streetTypes) && Tried([w, w], streetTypes, v)
    ensures v == Variant(w + " " + w, Exact) || v == Variant(w, Street)
  {
    TwiceForms(w, streetTypes, v);
    TwiceForms(w, streetTypes, Variant(w, Street));
  }
}
