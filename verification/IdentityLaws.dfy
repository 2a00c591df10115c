/** What an answer of `identify_or_create` says about the rows of the property table. */
module IdentityLaws {
  import opened Wrappers
  import opened Rounding
  import opened Sequences
  import opened Sorting
  import opened Address
  import opened Minting
  import opened Identity
  import Phash

  // -------------------------------------------------------- what the lists hold

  /** Some building nearby has that identifier and passes the photo test. */
  ghost predicate Tested(photo: string, candidates: seq<Nearby>, id: string) {
    exists n :: n in candidates && n.propertyId == id && PhotoTest(photo, n) == Ok(true)
  }

  lemma TestedLast(photo: string, candidates: seq<Nearby>, id: string)
    requires candidates != []
    ensures var last := candidates[|candidates| - 1];
            Tested(photo, candidates, id)
            <==> Tested(photo, candidates[..|candidates| - 1], id)
                 || (last.propertyId == id && PhotoTest(photo, last) == Ok(true))
  {
    var front, last := candidates[..|candidates| - 1], candidates[|candidates| - 1];
    assert candidates == front + [last];
  }

  lemma {:induction false} MatchedIffTested(photo: string, candidates: seq<Nearby>, id: string)
    requires PhashMatchesSpec(photo, candidates).Ok?
    ensures id in PhashMatchesSpec(photo, candidates).value <==> Tested(photo, candidates, id)
  {
    if candidates != [] {
      MatchedIffTested(photo, candidates[..|candidates| - 1], id);
      TestedLast(photo, candidates, id);
    }
  }

  lemma {:induction false} ExtraIff(wider: seq<Nearby>, matches: set<string>, known: set<string>, w: Nearby)
    ensures w in Extra(wider, matches, known) <==> w in wider && w.propertyId in matches && w.propertyId !in known
  {
    if wider != [] {
      ExtraIff(wider[..|wider| - 1], matches, known, w);
      assert wider == wider[..|wider| - 1] + [wider[|wider| - 1]];
    }
  }

  lemma {:induction false} ConfidentIff(cs: seq<Candidate>, approximate: bool, typed: Option<string>, radius: real,
                                        c: Candidate)
    ensures c in ConfidentOnes(cs, approximate, typed, radius) <==> c in cs && Confident(c, approximate, typed, radius)
  {
    if cs != [] {
      ConfidentIff(cs[1..], approximate, typed, radius, c);
      assert cs == [cs[0]] + cs[1..];
    }
  }

  // ------------------------------------------------------------- corroboration

  /** A row of the wider window whose photo is of the building photographed. */
  predicate PhotoCorroborates(row: Property, reg: Registration, s: Settings, g: Geometry) {
    && Present(reg.photoHash) && Present(row.photoHash)
    && InWindow(row, reg.lat, reg.lng, s.phashRadius, g)
    && Phash.IsSameBuilding(reg.photoHash.value, row.photoHash.value, 10) == Ok(true)
  }

  /** A row of the narrow window at the very address that was typed. */
  predicate AddressCorroborates(row: Property, reg: Registration, s: Settings, g: Geometry, v: Vocabulary) {
    && InWindow(row, reg.lat, reg.lng, s.dedupRadius, g)
    && Present(row.addressNormalised) && row.addressNormalised == NormalisedAddress(reg.address, v)
  }

  predicate Corroborates(row: Property, reg: Registration, s: Settings, g: Geometry, v: Vocabulary) {
    PhotoCorroborates(row, reg, s, g) || AddressCorroborates(row, reg, s, g, v)
  }

  /** The rows the narrow query finds, and those whose photos match in the wider one. */
  function PhotoMatched(rows: seq<Property>, reg: Registration, s: Settings, g: Geometry): set<string>
    requires CandidatesSpec(rows, reg, s, g).Ok?
  {
    if !Present(reg.photoHash) then {}
    else PhashMatchesSpec(reg.photoHash.value, NearbySpec(rows, reg.lat, reg.lng, s.phashRadius, g)).value
  }

  lemma MatchedIffPhoto(rows: seq<Property>, reg: Registration, s: Settings, g: Geometry, id: string)
    requires CandidatesSpec(rows, reg, s, g).Ok?
    ensures id in PhotoMatched(rows, reg, s, g)
            <==> exists k: nat :: k < |rows| && rows[k].propertyId == id && PhotoCorroborates(rows[k], reg, s, g)
  {
    if Present(reg.photoHash) {
      var wider := NearbySpec(rows, reg.lat, reg.lng, s.phashRadius, g);
      MatchedIffTested(reg.photoHash.value, wider, id);
      NearbyIsSortedAndNear(rows, reg.lat, reg.lng, s.phashRadius, g);
      if id in PhotoMatched(rows, reg, s, g) {
        var n :| n in wider && n.propertyId == id && PhotoTest(reg.photoHash.value, n) == Ok(true);
        var k: nat :| k < |rows| && Reports(n, rows[k], reg.lat, reg.lng, s.phashRadius, g);
        assert PhotoCorroborates(rows[k], reg, s, g);
      }
      if k: nat :| k < |rows| && rows[k].propertyId == id && PhotoCorroborates(rows[k], reg, s, g) {
        var n := ToNearby(rows[k], reg.lat, reg.lng, g);
        assert Reports(n, rows[k], reg.lat, reg.lng, s.phashRadius, g);
        assert n in wider && PhotoTest(reg.photoHash.value, n) == Ok(true);
        assert Tested(reg.photoHash.value, wider, id);
      }
    }
  }

  /** Rows that are offered: near ones, and farther ones with a matching photo. */
  predicate Offered(row: Property, reg: Registration, s: Settings, g: Geometry, matches: set<string>) {
    || InWindow(row, reg.lat, reg.lng, s.dedupRadius, g)
    || (Present(reg.photoHash) && InWindow(row, reg.lat, reg.lng, s.phashRadius, g) && row.propertyId in matches)
  }

  /** The nearby rows that become candidates, in order. */
  function Listed(rows: seq<Property>, reg: Registration, s: Settings, g: Geometry): seq<Nearby>
    requires CandidatesSpec(rows, reg, s, g).Ok?
  {
    var near := NearbySpec(rows, reg.lat, reg.lng, s.dedupRadius, g);
    if !Present(reg.photoHash) then near
    else
      near + Extra(NearbySpec(rows, reg.lat, reg.lng, s.phashRadius, g), PhotoMatched(rows, reg, s, g), Ids(near))
  }

  lemma ListedAreCandidates(rows: seq<Property>, reg: Registration, s: Settings, g: Geometry)
    requires CandidatesSpec(rows, reg, s, g).Ok?
    ensures CandidatesSpec(rows, reg, s, g).value
            == ToCandidates(Listed(rows, reg, s, g), PhotoMatched(rows, reg, s, g))
  {
  }

  lemma ListedFrom(rows: seq<Property>, reg: Registration, s: Settings, g: Geometry, n: Nearby) returns (k: nat)
    requires CandidatesSpec(rows, reg, s, g).Ok? && n in Listed(rows, reg, s, g)
    ensures k < |rows| && ToNearby(rows[k], reg.lat, reg.lng, g) == n
    ensures Offered(rows[k], reg, s, g, PhotoMatched(rows, reg, s, g))
  {
    var near := NearbySpec(rows, reg.lat, reg.lng, s.dedupRadius, g);
    NearbyIsSortedAndNear(rows, reg.lat, reg.lng, s.dedupRadius, g);
    if n in near {
      k :| 0 <= k < |rows| && Reports(n, rows[k], reg.lat, reg.lng, s.dedupRadius, g);
    } else {
      var wider := NearbySpec(rows, reg.lat, reg.lng, s.phashRadius, g);
      ExtraIff(wider, PhotoMatched(rows, reg, s, g), Ids(near), n);
      NearbyIsSortedAndNear(rows, reg.lat, reg.lng, s.phashRadius, g);
      k :| 0 <= k < |rows| && Reports(n, rows[k], reg.lat, reg.lng, s.phashRadius, g);
    }
  }

  lemma ListedAll(rows: seq<Property>, reg: Registration, s: Settings, g: Geometry, k: nat)
    requires CandidatesSpec(rows, reg, s, g).Ok? && k < |rows|
    requires Offered(rows[k], reg, s, g, PhotoMatched(rows, reg, s, g))
    ensures exists n :: n in Listed(rows, reg, s, g) && n.propertyId == rows[k].propertyId
    ensures InWindow(rows[k], reg.lat, reg.lng, s.dedupRadius, g)
            ==> ToNearby(rows[k], reg.lat, reg.lng, g) in Listed(rows, reg, s, g)
  {
    var n := ToNearby(rows[k], reg.lat, reg.lng, g);
    var near := NearbySpec(rows, reg.lat, reg.lng, s.dedupRadius, g);
    NearbyIsSortedAndNear(rows, reg.lat, reg.lng, s.dedupRadius, g);
    if InWindow(rows[k], reg.lat, reg.lng, s.dedupRadius, g) {
      assert Reports(n, rows[k], reg.lat, reg.lng, s.dedupRadius, g);
      assert n in near;
    } else {
      var wider := NearbySpec(rows, reg.lat, reg.lng, s.phashRadius, g);
      NearbyIsSortedAndNear(rows, reg.lat, reg.lng, s.phashRadius, g);
      assert Reports(n, rows[k], reg.lat, reg.lng, s.phashRadius, g);
      ExtraIff(wider, PhotoMatched(rows, reg, s, g), Ids(near), n);
      if n.propertyId in Ids(near) {
        var m :| m in near && m.propertyId == n.propertyId;
        assert m in Listed(rows, reg, s, g);
      }
    }
  }

  /** Some candidate of that identifier may be attached to without asking. */
  ghost predicate Trusted(cs: seq<Candidate>, reg: Registration, s: Settings, v: Vocabulary, id: string) {
    exists c ::
      && c in cs && c.propertyId == id
      && Confident(c, reg.approximate, NormalisedAddress(reg.address, v), s.dedupRadius)
  }

  /** Some row of that identifier speaks for the building. */
  ghost predicate Corroborated(rows: seq<Property>, reg: Registration, s: Settings, g: Geometry, v: Vocabulary,
                               id: string) {
    exists k: nat :: k < |rows| && rows[k].propertyId == id && Corroborates(rows[k], reg, s, g, v)
  }

  lemma CandidateOf(near: seq<Nearby>, matches: set<string>, n: Nearby) returns (c: Candidate)
    requires n in near
    ensures c in ToCandidates(near, matches)
    ensures c == Candidate(n.propertyId, Round2(n.distance), n.addressNormalised, n.propertyId in matches)
  {
    var i :| 0 <= i < |near| && near[i] == n;
    c := ToCandidates(near, matches)[i];
  }

  lemma NearbyOf(near: seq<Nearby>, matches: set<string>, c: Candidate) returns (n: Nearby)
    requires c in ToCandidates(near, matches)
    ensures n in near
    ensures c == Candidate(n.propertyId, Round2(n.distance), n.addressNormalised, n.propertyId in matches)
  {
    var i :| 0 <= i < |near| && ToCandidates(near, matches)[i] == c;
    n := near[i];
  }

  lemma TrustedIsCorroborated(rows: seq<Property>, reg: Registration, s: Settings, g: Geometry, v: Vocabulary,
                              c: Candidate)
    requires reg.approximate && CandidatesSpec(rows, reg, s, g).Ok? && c in CandidatesSpec(rows, reg, s, g).value
    requires Confident(c, true, NormalisedAddress(reg.address, v), s.dedupRadius)
    ensures Corroborated(rows, reg, s, g, v, c.propertyId)
  {
    ListedAreCandidates(rows, reg, s, g);
    var n := NearbyOf(Listed(rows, reg, s, g), PhotoMatched(rows, reg, s, g), c);
    var k := ListedFrom(rows, reg, s, g, n);
    MatchedIffPhoto(rows, reg, s, g, c.propertyId);
    if !(c.propertyId in PhotoMatched(rows, reg, s, g)) {
      assert AddressCorroborates(rows[k], reg, s, g, v);
      assert Corroborates(rows[k], reg, s, g, v);
    }
  }

  lemma CorroboratedIsTrusted(rows: seq<Property>, reg: Registration, s: Settings, g: Geometry, v: Vocabulary, k: nat)
    requires reg.approximate && CandidatesSpec(rows, reg, s, g).Ok? && k < |rows|
    requires Corroborates(rows[k], reg, s, g, v)
    ensures Trusted(CandidatesSpec(rows, reg, s, g).value, reg, s, v, rows[k].propertyId)
  {
    var listed, matches := Listed(rows, reg, s, g), PhotoMatched(rows, reg, s, g);
    ListedAreCandidates(rows, reg, s, g);
    MatchedIffPhoto(rows, reg, s, g, rows[k].propertyId);
    assert Offered(rows[k], reg, s, g, matches);
    ListedAll(rows, reg, s, g, k);
    if rows[k].propertyId in matches {
      var n :| n in listed && n.propertyId == rows[k].propertyId;
      var c := CandidateOf(listed, matches, n);
    } else {
      var c := CandidateOf(listed, matches, ToNearby(rows[k], reg.lat, reg.lng, g));
    }
  }

  /** A candidate may be attached to without asking exactly when a row of its identifier corroborates. */
  lemma TrustedIffCorroborated(rows: seq<Property>, reg: Registration, s: Settings, g: Geometry, v: Vocabulary,
                               id: string)
    requires reg.approximate && CandidatesSpec(rows, reg, s, g).Ok?
    ensures Trusted(CandidatesSpec(rows, reg, s, g).value, reg, s, v, id) <==> Corroborated(rows, reg, s, g, v, id)
  {
    var cs := CandidatesSpec(rows, reg, s, g).value;
    if Trusted(cs, reg, s, v, id) {
      var c :| c in cs && c.propertyId == id && Confident(c, true, NormalisedAddress(reg.address, v), s.dedupRadius);
      TrustedIsCorroborated(rows, reg, s, g, v, c);
    }
    if Corroborated(rows, reg, s, g, v, id) {
      var k: nat :| k < |rows| && rows[k].propertyId == id && Corroborates(rows[k], reg, s, g, v);
      CorroboratedIsTrusted(rows, reg, s, g, v, k);
    }
  }

  /**
   An area centroid attaches to an existing record only when a row of that record, in the
   wider window, has a photo within Hamming distance 10 of the one sent, or one in the
   narrow window has the very address that was typed: distance alone never decides.
   */
  lemma ApproximateNeedsCorroboration(rows: seq<Property>, reg: Registration, s: Settings, g: Geometry, v: Vocabulary)
    requires reg.approximate
    requires IdentifySpec(rows, reg, s, g, v).Ok? && IdentifySpec(rows, reg, s, g, v).value.outcome.Existing?
    ensures Corroborated(rows, reg, s, g, v, IdentifySpec(rows, reg, s, g, v).value.outcome.propertyId)
  {
    var typed := NormalisedAddress(reg.address, v);
    var cs := CandidatesSpec(rows, reg, s, g).value;
    var c := ConfidentOnes(cs, true, typed, s.dedupRadius)[0];
    ConfidentIff(cs, true, typed, s.dedupRadius, c);
    TrustedIsCorroborated(rows, reg, s, g, v, c);
  }

  // ---------------------------------------------------- one record, one candidate

  ghost predicate RowsDiffer(rows: seq<Property>) {
    forall i, j | 0 <= i < j < |rows| :: rows[i].propertyId != rows[j].propertyId
  }

  ghost predicate IdsDiffer(near: seq<Nearby>) {
    forall i, j | 0 <= i < j < |near| :: near[i].propertyId != near[j].propertyId
  }

  lemma {:induction false} CollectDiffers(rows: seq<Property>, lat: real, lng: real, radius: real, g: Geometry)
    requires RowsDiffer(rows)
    ensures IdsDiffer(Collect(rows, lat, lng, radius, g))
  {
    if rows != [] {
      var front, last := rows[..|rows| - 1], rows[|rows| - 1];
      var some := Collect(front, lat, lng, radius, g);
      CollectDiffers(front, lat, lng, radius, g);
      forall i | 0 <= i < |some| ensures some[i].propertyId != last.propertyId {
        CollectedFrom(front, lat, lng, radius, g, some[i]);
        var k: nat :| k < |front| && Reports(some[i], front[k], lat, lng, radius, g);
        assert rows[k].propertyId != rows[|rows| - 1].propertyId;
      }
    }
  }

  lemma ConsDiffers(x: Nearby, near: seq<Nearby>)
    requires IdsDiffer(near) && forall n | n in near :: n.propertyId != x.propertyId
    ensures IdsDiffer([x] + near)
  {
  }

  lemma {:induction false} InsertDiffers(x: Nearby, near: seq<Nearby>)
    requires IdsDiffer(near) && forall n | n in near :: n.propertyId != x.propertyId
    ensures IdsDiffer(Insert(x, near, DistanceOf))
  {
    if near == [] || DistanceOf(x) <= DistanceOf(near[0]) {
      ConsDiffers(x, near);
    } else {
      InsertDiffers(x, near[1..]);
      forall n | n in Insert(x, near[1..], DistanceOf) ensures n.propertyId != near[0].propertyId {
        InsertMember(x, near[1..], DistanceOf, n);
      }
      ConsDiffers(near[0], Insert(x, near[1..], DistanceOf));
    }
  }

  lemma {:induction false} SortDiffers(near: seq<Nearby>)
    requires IdsDiffer(near)
    ensures IdsDiffer(Sort(near, DistanceOf))
  {
    if near != [] {
      SortDiffers(near[1..]);
      SortedMembers(near[1..]);
      InsertDiffers(near[0], Sort(near[1..], DistanceOf));
    }
  }

  lemma NearbyDiffers(rows: seq<Property>, lat: real, lng: real, radius: real, g: Geometry)
    requires RowsDiffer(rows)
    ensures IdsDiffer(NearbySpec(rows, lat, lng, radius, g))
  {
    CollectDiffers(rows, lat, lng, radius, g);
    SortDiffers(Collect(rows, lat, lng, radius, g));
  }

  lemma {:induction false} ExtraDiffers(wider: seq<Nearby>, matches: set<string>, known: set<string>)
    requires IdsDiffer(wider)
    ensures IdsDiffer(Extra(wider, matches, known))
  {
    if wider != [] {
      var front, last := wider[..|wider| - 1], wider[|wider| - 1];
      var extra := Extra(front, matches, known);
      ExtraDiffers(front, matches, known);
      forall i | 0 <= i < |extra| ensures extra[i].propertyId != last.propertyId {
        ExtraIff(front, matches, known, extra[i]);
        assert extra[i] in front;
      }
    }
  }

  lemma ListedDiffers(rows: seq<Property>, reg: Registration, s: Settings, g: Geometry)
    requires CandidatesSpec(rows, reg, s, g).Ok? && RowsDiffer(rows)
    ensures IdsDiffer(Listed(rows, reg, s, g))
  {
    var near := NearbySpec(rows, reg.lat, reg.lng, s.dedupRadius, g);
    NearbyDiffers(rows, reg.lat, reg.lng, s.dedupRadius, g);
    if Present(reg.photoHash) {
      var wider := NearbySpec(rows, reg.lat, reg.lng, s.phashRadius, g);
      var extra := Extra(wider, PhotoMatched(rows, reg, s, g), Ids(near));
      NearbyDiffers(rows, reg.lat, reg.lng, s.phashRadius, g);
      ExtraDiffers(wider, PhotoMatched(rows, reg, s, g), Ids(near));
      forall i, j | 0 <= i < |near| && 0 <= j < |extra| ensures near[i].propertyId != extra[j].propertyId {
        ExtraIff(wider, PhotoMatched(rows, reg, s, g), Ids(near), extra[j]);
        assert near[i].propertyId in Ids(near);
      }
    }
  }

  lemma {:induction false} NoneConfident(cs: seq<Candidate>, typed: Option<string>, radius: real)
    requires forall i | 0 <= i < |cs| :: !Confident(cs[i], true, typed, radius)
    ensures ConfidentOnes(cs, true, typed, radius) == []
  {
    if cs != [] {
      NoneConfident(cs[1..], typed, radius);
    }
  }

  lemma {:induction false} OneConfident(cs: seq<Candidate>, typed: Option<string>, radius: real, id: string)
    requires forall i, j | 0 <= i < j < |cs| :: cs[i].propertyId != cs[j].propertyId
    requires forall i | 0 <= i < |cs| && Confident(cs[i], true, typed, radius) :: cs[i].propertyId == id
    ensures |ConfidentOnes(cs, true, typed, radius)| <= 1
  {
    if cs != [] {
      if Confident(cs[0], true, typed, radius) {
        NoneConfident(cs[1..], typed, radius);
      } else {
        OneConfident(cs[1..], typed, radius, id);
      }
    }
  }

  /** The candidates an area centroid may attach to. */
  function Sure(rows: seq<Property>, reg: Registration, s: Settings, g: Geometry, v: Vocabulary): seq<Candidate>
    requires CandidatesSpec(rows, reg, s, g).Ok?
  {
    ConfidentOnes(CandidatesSpec(rows, reg, s, g).value, true, NormalisedAddress(reg.address, v), s.dedupRadius)
  }

  lemma SureOfRow(rows: seq<Property>, reg: Registration, s: Settings, g: Geometry, v: Vocabulary, k: nat)
    returns (c: Candidate)
    requires reg.approximate && CandidatesSpec(rows, reg, s, g).Ok? && k < |rows|
    requires Corroborates(rows[k], reg, s, g, v)
    ensures c in Sure(rows, reg, s, g, v) && c.propertyId == rows[k].propertyId
  {
    var typed, cs := NormalisedAddress(reg.address, v), CandidatesSpec(rows, reg, s, g).value;
    CorroboratedIsTrusted(rows, reg, s, g, v, k);
    c :| c in cs && c.propertyId == rows[k].propertyId && Confident(c, true, typed, s.dedupRadius);
    ConfidentIff(cs, true, typed, s.dedupRadius, c);
  }

  lemma SureIsCorroborated(rows: seq<Property>, reg: Registration, s: Settings, g: Geometry, v: Vocabulary,
                           c: Candidate)
    requires reg.approximate && CandidatesSpec(rows, reg, s, g).Ok? && c in Sure(rows, reg, s, g, v)
    ensures Corroborated(rows, reg, s, g, v, c.propertyId)
  {
    var typed, cs := NormalisedAddress(reg.address, v), CandidatesSpec(rows, reg, s, g).value;
    ConfidentIff(cs, true, typed, s.dedupRadius, c);
    TrustedIsCorroborated(rows, reg, s, g, v, c);
  }

  /** No row of another identifier corroborates. */
  ghost predicate Alone(rows: seq<Property>, reg: Registration, s: Settings, g: Geometry, v: Vocabulary, id: string) {
    forall k | 0 <= k < |rows| && Corroborates(rows[k], reg, s, g, v) :: rows[k].propertyId == id
  }

  lemma SureAlone(rows: seq<Property>, reg: Registration, s: Settings, g: Geometry, v: Vocabulary,
                  sure: seq<Candidate>, k: nat)
    requires reg.approximate && CandidatesSpec(rows, reg, s, g).Ok? && sure == Sure(rows, reg, s, g, v)
    requires |sure| == 1 && k < |rows| && Corroborates(rows[k], reg, s, g, v)
    ensures rows[k].propertyId == sure[0].propertyId
  {
    var c := SureOfRow(rows, reg, s, g, v, k);
    SoleMember(sure, c);
  }

  lemma OnlyOneCorroborates(rows: seq<Property>, reg: Registration, s: Settings, g: Geometry, v: Vocabulary,
                            sure: seq<Candidate>, id: string)
    requires reg.approximate && CandidatesSpec(rows, reg, s, g).Ok? && sure == Sure(rows, reg, s, g, v)
    requires |sure| == 1 && sure[0].propertyId == id
    ensures Corroborated(rows, reg, s, g, v, id) && Alone(rows, reg, s, g, v, id)
  {
    SureIsCorroborated(rows, reg, s, g, v, sure[0]);
    forall k | 0 <= k < |rows| && Corroborates(rows[k], reg, s, g, v) ensures rows[k].propertyId == id {
      SureAlone(rows, reg, s, g, v, sure, k);
    }
  }

  lemma ConfidentAlone(rows: seq<Property>, reg: Registration, s: Settings, g: Geometry, v: Vocabulary,
                       c: Candidate, id: string)
    requires reg.approximate && CandidatesSpec(rows, reg, s, g).Ok? && c in CandidatesSpec(rows, reg, s, g).value
    requires Confident(c, true, NormalisedAddress(reg.address, v), s.dedupRadius) && Alone(rows, reg, s, g, v, id)
    ensures c.propertyId == id
  {
    TrustedIsCorroborated(rows, reg, s, g, v, c);
    var k: nat :| k < |rows| && rows[k].propertyId == c.propertyId && Corroborates(rows[k], reg, s, g, v);
  }

  lemma AtMostOneSure(rows: seq<Property>, reg: Registration, s: Settings, g: Geometry, v: Vocabulary, id: string)
    requires reg.approximate && RowsDiffer(rows) && CandidatesSpec(rows, reg, s, g).Ok?
    requires Alone(rows, reg, s, g, v, id)
    ensures |Sure(rows, reg, s, g, v)| <= 1
  {
    var typed, cs := NormalisedAddress(reg.address, v), CandidatesSpec(rows, reg, s, g).value;
    ListedAreCandidates(rows, reg, s, g);
    ListedDiffers(rows, reg, s, g);
    forall i | 0 <= i < |cs| && Confident(cs[i], true, typed, s.dedupRadius) ensures cs[i].propertyId == id {
      ConfidentAlone(rows, reg, s, g, v, cs[i], id);
    }
    OneConfident(cs, typed, s.dedupRadius, id);
  }

  lemma TrustedIsSure(rows: seq<Property>, reg: Registration, s: Settings, g: Geometry, v: Vocabulary, id: string)
    returns (c: Candidate)
    requires reg.approximate && CandidatesSpec(rows, reg, s, g).Ok?
    requires Trusted(CandidatesSpec(rows, reg, s, g).value, reg, s, v, id)
    ensures c in Sure(rows, reg, s, g, v) && c.propertyId == id
  {
    var typed, cs := NormalisedAddress(reg.address, v), CandidatesSpec(rows, reg, s, g).value;
    c :| c in cs && c.propertyId == id && Confident(c, true, typed, s.dedupRadius);
    ConfidentIff(cs, true, typed, s.dedupRadius, c);
  }

  lemma OnlyOneTrusted(rows: seq<Property>, reg: Registration, s: Settings, g: Geometry, v: Vocabulary,
                       sure: seq<Candidate>, id: string)
    requires reg.approximate && RowsDiffer(rows) && CandidatesSpec(rows, reg, s, g).Ok?
    requires Trusted(CandidatesSpec(rows, reg, s, g).value, reg, s, v, id)
    requires Alone(rows, reg, s, g, v, id) && sure == Sure(rows, reg, s, g, v)
    ensures |sure| == 1 && sure[0].propertyId == id
  {
    AtMostOneSure(rows, reg, s, g, v, id);
    var c := TrustedIsSure(rows, reg, s, g, v, id);
    SoleMember(sure, c);
  }

  /**
   On a table whose identifiers differ, as those of every run do: an area centroid attaches
   to a record exactly when that record, and no other, corroborates it.
   */
  lemma ApproximateExistingIff(rows: seq<Property>, reg: Registration, s: Settings, g: Geometry, v: Vocabulary,
                               id: string)
    requires reg.approximate && RowsDiffer(rows) && CandidatesSpec(rows, reg, s, g).Ok?
    ensures var res := IdentifySpec(rows, reg, s, g, v);
            (res.Ok? && res.value.outcome == Existing(id))
            <==> Corroborated(rows, reg, s, g, v, id) && Alone(rows, reg, s, g, v, id)
  {
    var sure := Sure(rows, reg, s, g, v);
    TrustedIffCorroborated(rows, reg, s, g, v, id);
    if |sure| == 1 && sure[0].propertyId == id {
      OnlyOneCorroborates(rows, reg, s, g, v, sure, id);
    }
    if Corroborated(rows, reg, s, g, v, id) && Alone(rows, reg, s, g, v, id) {
      OnlyOneTrusted(rows, reg, s, g, v, sure, id);
    }
  }

  // -------------------------------------------------- exact pins at the radius

  /** The outcome follows the number of candidates. */
  predicate ByCount(rows: seq<Property>, reg: Registration, s: Settings, g: Geometry, v: Vocabulary) {
    var res := IdentifySpec(rows, reg, s, g, v);
    res.Ok? && CandidatesSpec(rows, reg, s, g).Ok?
    ==>
      var cs := CandidatesSpec(rows, reg, s, g).value;
      match res.value.outcome
      case Created(_) => |cs| == 0
      case Existing(pid) => |cs| == 1 && pid == cs[0].propertyId
      case Ambiguous => |cs| >= 2
  }

  /** A table with a single row, exactly as far from an exact pin without a photo as the radius allows. */
  predicate AtTheRadius(row: Property, reg: Registration, s: Settings, g: Geometry) {
    && !reg.approximate && !Present(reg.photoHash)
    && row.active && InBox(row, reg.lat, reg.lng, s.dedupRadius, g)
    && g.haversine(reg.lat, reg.lng, row.lat, row.lng) == s.dedupRadius
  }

  /**
   When rounding pushes the radius up, the one building in the table, exactly at the
   radius, is the only candidate and yet the answer is ambiguous.
   */
  lemma LoneCandidateCanBeAmbiguous(row: Property, reg: Registration, s: Settings, g: Geometry, v: Vocabulary)
    requires AtTheRadius(row, reg, s, g) && Round2(s.dedupRadius) > s.dedupRadius
    ensures var res := IdentifySpec([row], reg, s, g, v);
            res.Ok? && |res.value.candidates| == 1 && res.value.outcome == Ambiguous
    ensures !ByCount([row], reg, s, g, v)
  {
    var near := NearbySpec([row], reg.lat, reg.lng, s.dedupRadius, g);
    var n := ToNearby(row, reg.lat, reg.lng, g);
    assert [row][..0] == [];
    assert Collect([row], reg.lat, reg.lng, s.dedupRadius, g) == [n];
    SortFixed([n], DistanceOf);
    assert near == [n];
    var cs := ToCandidates([n], {});
    var typed := NormalisedAddress(reg.address, v);
    assert !Confident(cs[0], false, typed, s.dedupRadius);
    assert ConfidentOnes(cs, false, typed, s.dedupRadius) == ConfidentOnes(cs[1..], false, typed, s.dedupRadius);
  }

  /** Some building can stand exactly at a radius. */
  lemma SomeRowAtTheRadius(s: Settings) returns (row: Property, reg: Registration, g: Geometry)
    requires s.dedupRadius >= 0.0
    ensures AtTheRadius(row, reg, s, g)
  {
    var radius := s.dedupRadius;
    g := Geometry((a, b, c, d) => radius, a => 1.0);
    reg := Registration(6.5, 3.4, "ETI", "LEK", None, None, false);
    row := Property("ETI-LEK-S14MNH-0000", "", "", 6.5 + radius / 111320.0, 3.4, false,
                    None, None, None, "ETI", "LEK", None, true);
  }

  /**
   For exact pins the outcome follows the number of candidates on every table, exactly when
   the radius is not one that rounding to centimetres pushes up.
   */
  lemma ExactPinByCountIff(s: Settings, v: Vocabulary)
    requires s.dedupRadius >= 0.0
    ensures (forall rows: seq<Property>, reg: Registration, g: Geometry | !reg.approximate ::
               ByCount(rows, reg, s, g, v))
            <==> Round2(s.dedupRadius) <= s.dedupRadius
  {
    if Round2(s.dedupRadius) <= s.dedupRadius {
      forall rows: seq<Property>, reg: Registration, g: Geometry | !reg.approximate
        ensures ByCount(rows, reg, s, g, v)
      {
        if IdentifySpec(rows, reg, s, g, v).Ok? {
          ExactPinByCount(rows, reg, s, g, v);
        }
      }
    } else {
      var row, reg, g := SomeRowAtTheRadius(s);
      LoneCandidateCanBeAmbiguous(row, reg, s, g, v);
    }
  }

  /** The radius in use is such a radius. */
  lemma DefaultRadiusCounts(s: Settings, v: Vocabulary)
    requires s.dedupRadius == 15.0
    ensures forall rows: seq<Property>, reg: Registration, g: Geometry | !reg.approximate :: ByCount(rows, reg, s, g, v)
  {
    CentimetreRadiusPasses(1500);
    ExactPinByCountIff(s, v);
  }

  /** A radius of 15.006 m is not: it rounds to 15.01. */
  lemma SixMillimetresMore(s: Settings, v: Vocabulary)
    requires s.dedupRadius == 15.006
    ensures Round2(s.dedupRadius) == 15.01
    ensures exists rows: seq<Property>, reg: Registration, g: Geometry ::
              !reg.approximate && !ByCount(rows, reg, s, g, v)
  {
    RoundsUp();
    var row, reg, g := SomeRowAtTheRadius(s);
    LoneCandidateCanBeAmbiguous(row, reg, s, g, v);
  }

  lemma RoundsUp()
    ensures Round2(15.006) == 15.01
  {
    assert 15.006 * 100.0 == 1500.6;
    assert RoundHalfEven(1500.6) == 1501;
  }
}
