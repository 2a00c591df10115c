/**
 Resolving a pin to an existing building, a question, or a new record
 (`identify_or_create` in app/services/identity.py). Great-circle distance and the
 cosine of a latitude are parameters.
 */
module Identity {
  import opened Wrappers
  import opened Rounding
  import opened Sorting
  import opened Address
  import opened PropertyId
  import opened Minting
  import Phash

  datatype Geometry = Geometry(haversine: (real, real, real, real) -> real, cosine: real -> real)

  datatype Settings = Settings(dedupRadius: real, phashRadius: real)

  datatype ServiceError = Photo(hash: Phash.HashError) | Id(id: IdError)

  datatype Nearby = Nearby(propertyId: string, distance: real, addressNormalised: Option<string>,
                           photoHash: Option<string>)

  datatype Candidate = Candidate(propertyId: string, distance: real, addressNormalised: Option<string>,
                                 phashMatch: bool)

  datatype Match = Existing(propertyId: string) | Ambiguous | Created(propertyId: string)

  datatype Response = Response(outcome: Match, candidates: seq<Candidate>)

  // ------------------------------------------------------------ nearby rows

  predicate InBox(row: Property, lat: real, lng: real, radius: real, g: Geometry) {
    var dlat := radius / 111320.0;
    var c := g.cosine(lat);
    var dlng := radius / (111320.0 * if c > 0.01 then c else 0.01);
    lat - dlat <= row.lat <= lat + dlat && lng - dlng <= row.lng <= lng + dlng
  }

  /** In the query window: active, inside the box and within the radius. */
  predicate InWindow(row: Property, lat: real, lng: real, radius: real, g: Geometry) {
    row.active && InBox(row, lat, lng, radius, g) && g.haversine(lat, lng, row.lat, row.lng) <= radius
  }

  function ToNearby(row: Property, lat: real, lng: real, g: Geometry): Nearby {
    Nearby(row.propertyId, g.haversine(lat, lng, row.lat, row.lng), row.addressNormalised, row.photoHash)
  }

  function Collect(rows: seq<Property>, lat: real, lng: real, radius: real, g: Geometry): seq<Nearby> {
    if rows == [] then []
    else
      var front, last := Collect(rows[..|rows| - 1], lat, lng, radius, g), rows[|rows| - 1];
      if InWindow(last, lat, lng, radius, g) then front + [ToNearby(last, lat, lng, g)] else front
  }

  function DistanceOf(n: Nearby): real { n.distance }

  function NearbySpec(rows: seq<Property>, lat: real, lng: real, radius: real, g: Geometry): seq<Nearby> {
    Sort(Collect(rows, lat, lng, radius, g), DistanceOf)
  }

  method QueryNearby(rows: seq<Property>, lat: real, lng: real, radius: real, g: Geometry)
    returns (found: seq<Nearby>)
    ensures found == NearbySpec(rows, lat, lng, radius, g)
  {
    found := [];
    for i := 0 to |rows|
      invariant found == Collect(rows[..i], lat, lng, radius, g)
    {
      assert rows[..i + 1][..i] == rows[..i];
      var p := rows[i];
      if p.active && InBox(p, lat, lng, radius, g) {
        var d := g.haversine(lat, lng, p.lat, p.lng);
        if d <= radius {
          found := found + [Nearby(p.propertyId, d, p.addressNormalised, p.photoHash)];
        }
      }
    }
    assert rows[..|rows|] == rows;
    found := Sort(found, DistanceOf);
  }

  // ----------------------------------------------------------- photo matches

  /** Does the stored photo match? Comparing hashes of different lengths is an error. */
  function PhotoTest(photo: string, n: Nearby): Result<bool, Phash.HashError> {
    if Present(n.photoHash) then
      Phash.IsSameBuilding(photo, n.photoHash.value, Phash.DEFAULT_HAMMING_THRESHOLD)
    else Ok(false)
  }

  function PhashMatchesSpec(photo: string, candidates: seq<Nearby>): Result<set<string>, Phash.HashError> {
    if candidates == [] then Ok({})
    else
      match (PhashMatchesSpec(photo, candidates[..|candidates| - 1]), PhotoTest(photo, candidates[|candidates| - 1]))
      case (Err(e), _) => Err(e)
      case (_, Err(e)) => Err(e)
      case (Ok(front), Ok(same)) => Ok(if same then front + {candidates[|candidates| - 1].propertyId} else front)
  }

  method PhashMatches(photo: string, candidates: seq<Nearby>) returns (res: Result<set<string>, Phash.HashError>)
    ensures res == PhashMatchesSpec(photo, candidates)
  {
    var matches: set<string> := {};
    for i := 0 to |candidates|
      invariant PhashMatchesSpec(photo, candidates[..i]) == Ok(matches)
    {
      assert candidates[..i + 1][..i] == candidates[..i];
      var test := PhotoTest(photo, candidates[i]);
      if test.Err? {
        ErrorStays(photo, candidates, i + 1, test.error);
        return Err(test.error);
      }
      if test.value {
        matches := matches + {candidates[i].propertyId};
      }
    }
    assert candidates[..|candidates|] == candidates;
    res := Ok(matches);
  }

  lemma {:induction false} ErrorStays(photo: string, candidates: seq<Nearby>, k: nat, e: Phash.HashError)
    requires k <= |candidates| && PhashMatchesSpec(photo, candidates[..k]) == Err(e)
    ensures PhashMatchesSpec(photo, candidates) == Err(e)
    decreases |candidates| - k
  {
    if k < |candidates| {
      assert candidates[..k + 1][..k] == candidates[..k];
      ErrorStays(photo, candidates, k + 1, e);
    } else {
      assert candidates[..k] == candidates;
    }
  }

  // -------------------------------------------------------------- candidates

  function Ids(near: seq<Nearby>): set<string> {
    set n | n in near :: n.propertyId
  }

  /** Photo matches of the wider query that the narrow one did not find. */
  function Extra(wider: seq<Nearby>, matches: set<string>, known: set<string>): seq<Nearby> {
    if wider == [] then []
    else
      var front, w := Extra(wider[..|wider| - 1], matches, known), wider[|wider| - 1];
      if w.propertyId in matches && w.propertyId !in known then front + [w] else front
  }

  function ToCandidates(near: seq<Nearby>, matches: set<string>): (r: seq<Candidate>)
    ensures |r| == |near|
  {
    seq(|near|, i requires 0 <= i < |near| =>
      Candidate(near[i].propertyId, Round2(near[i].distance), near[i].addressNormalised,
                near[i].propertyId in matches))
  }

  function CandidatesSpec(rows: seq<Property>, reg: Registration, s: Settings, g: Geometry)
    : Result<seq<Candidate>, Phash.HashError>
  {
    var near := NearbySpec(rows, reg.lat, reg.lng, s.dedupRadius, g);
    if !Present(reg.photoHash) then Ok(ToCandidates(near, {}))
    else
      var wider := NearbySpec(rows, reg.lat, reg.lng, s.phashRadius, g);
      match PhashMatchesSpec(reg.photoHash.value, wider)
      case Err(e) => Err(e)
      case Ok(matches) => Ok(ToCandidates(near + Extra(wider, matches, Ids(near)), matches))
  }

  method FindCandidates(rows: seq<Property>, reg: Registration, s: Settings, g: Geometry)
    returns (res: Result<seq<Candidate>, Phash.HashError>)
    ensures res == CandidatesSpec(rows, reg, s, g)
  {
    var near := QueryNearby(rows, reg.lat, reg.lng, s.dedupRadius, g);
    if !Present(reg.photoHash) {
      return Ok(ToCandidates(near, {}));
    }
    var wider := QueryNearby(rows, reg.lat, reg.lng, s.phashRadius, g);
    var matches := PhashMatches(reg.photoHash.value, wider);
    if matches.Err? {
      return Err(matches.error);
    }
    var known := Ids(near);
    var extra: seq<Nearby> := [];
    for i := 0 to |wider|
      invariant extra == Extra(wider[..i], matches.value, known)
    {
      assert wider[..i + 1][..i] == wider[..i];
      if wider[i].propertyId in matches.value && wider[i].propertyId !in known {
        extra := extra + [wider[i]];
      }
    }
    assert wider[..|wider|] == wider;
    res := Ok(ToCandidates(near + extra, matches.value));
  }

  /** A candidate good enough to attach to without asking. */
  predicate Confident(c: Candidate, approximate: bool, typed: Option<string>, radius: real) {
    c.phashMatch
    || (if approximate then Present(typed) && c.addressNormalised == typed else c.distance <= radius)
  }

  function ConfidentOnes(cs: seq<Candidate>, approximate: bool, typed: Option<string>, radius: real): seq<Candidate> {
    if cs == [] then []
    else (if Confident(cs[0], approximate, typed, radius) then [cs[0]] else [])
         + ConfidentOnes(cs[1..], approximate, typed, radius)
  }

  /** What to do with a non-empty list of candidates. */
  function Decide(cs: seq<Candidate>, approximate: bool, typed: Option<string>, radius: real): Response {
    var confident := ConfidentOnes(cs, approximate, typed, radius);
    Response(if |confident| == 1 then Existing(confident[0].propertyId) else Ambiguous, cs)
  }

  function IdentifySpec(rows: seq<Property>, reg: Registration, s: Settings, g: Geometry, v: Vocabulary)
    : Result<Response, ServiceError>
  {
    match CandidatesSpec(rows, reg, s, g)
    case Err(e) => Err(Photo(e))
    case Ok(cs) =>
      if cs != [] then Ok(Decide(cs, reg.approximate, NormalisedAddress(reg.address, v), s.dedupRadius))
      else
        match MintSpec(rows, reg)
        case Err(e) => Err(Id(e))
        case Ok(pid) => Ok(Response(Created(pid), []))
  }

  function RowsAfterIdentify(rows: seq<Property>, reg: Registration, s: Settings, g: Geometry, v: Vocabulary)
    : seq<Property>
  {
    if CandidatesSpec(rows, reg, s, g) == Ok([]) then RowsAfter(rows, reg, v) else rows
  }

  method IdentifyOrCreate(table: PropertyTable, reg: Registration, s: Settings, g: Geometry)
    returns (res: Result<Response, ServiceError>)
    modifies table
    ensures res == IdentifySpec(old(table.rows), reg, s, g, table.vocabulary)
    ensures table.rows == RowsAfterIdentify(old(table.rows), reg, s, g, table.vocabulary)
  {
    var found := FindCandidates(table.rows, reg, s, g);
    if found.Err? {
      return Err(Photo(found.error));
    }
    if found.value != [] {
      var typed: Option<string> := None;
      if reg.address.Some? && reg.address.value != [] {
        var key := NormaliseLoop(reg.address.value, table.vocabulary);
        typed := Some(key);
      }
      return Ok(Decide(found.value, reg.approximate, typed, s.dedupRadius));
    }
    var minted := table.CreateProperty(reg);
    match minted
    case Err(e) => res := Err(Id(e));
    case Ok(pid) => res := Ok(Response(Created(pid), []));
  }

  // ------------------------------------------------------------ main results

  /** The row, as the query reports it. */
  predicate Reports(n: Nearby, row: Property, lat: real, lng: real, radius: real, g: Geometry) {
    InWindow(row, lat, lng, radius, g) && ToNearby(row, lat, lng, g) == n
  }

  lemma {:induction false} CollectedFrom(rows: seq<Property>, lat: real, lng: real, radius: real, g: Geometry,
                                         n: Nearby)
    requires n in Collect(rows, lat, lng, radius, g)
    ensures exists k: nat :: k < |rows| && Reports(n, rows[k], lat, lng, radius, g)
  {
    var front, last := rows[..|rows| - 1], rows[|rows| - 1];
    if n in Collect(front, lat, lng, radius, g) {
      CollectedFrom(front, lat, lng, radius, g, n);
      var k: nat :| k < |front| && Reports(n, front[k], lat, lng, radius, g);
      assert Reports(n, rows[k], lat, lng, radius, g);
    } else {
      assert Reports(n, rows[|rows| - 1], lat, lng, radius, g);
    }
  }

  lemma {:induction false} CollectedAll(rows: seq<Property>, lat: real, lng: real, radius: real, g: Geometry, k: nat)
    requires k < |rows| && InWindow(rows[k], lat, lng, radius, g)
    ensures ToNearby(rows[k], lat, lng, g) in Collect(rows, lat, lng, radius, g)
  {
    if k < |rows| - 1 {
      CollectedAll(rows[..|rows| - 1], lat, lng, radius, g, k);
    }
  }

  lemma SortedMembers(some: seq<Nearby>)
    ensures forall n :: n in Sort(some, DistanceOf) <==> n in some
    ensures |Sort(some, DistanceOf)| == |some|
  {
    SortSorts(some, DistanceOf);
    forall n ensures n in Sort(some, DistanceOf) <==> n in some {
      assert n in some <==> n in multiset(some);
    }
    assert |multiset(some)| == |some|;
  }

  /**
   The query finds every row in the window and no other, nearest first, rows equally far
   in the order of the table.
   */
  lemma NearbyIsSortedAndNear(rows: seq<Property>, lat: real, lng: real, radius: real, g: Geometry)
    ensures var found := NearbySpec(rows, lat, lng, radius, g);
            && (forall n :: n in found <==> exists k: nat :: k < |rows| && Reports(n, rows[k], lat, lng, radius, g))
            && (forall i, j | 0 <= i < j < |found| :: found[i].distance <= found[j].distance)
            && (forall d :: WithKey(found, DistanceOf, d) == WithKey(Collect(rows, lat, lng, radius, g), DistanceOf, d))
  {
    var some, found := Collect(rows, lat, lng, radius, g), NearbySpec(rows, lat, lng, radius, g);
    SortSorts(some, DistanceOf);
    SortedMembers(some);
    forall n ensures n in found <==> exists k: nat :: k < |rows| && Reports(n, rows[k], lat, lng, radius, g) {
      if n in found {
        CollectedFrom(rows, lat, lng, radius, g, n);
      }
      if k: nat :| k < |rows| && Reports(n, rows[k], lat, lng, radius, g) {
        CollectedAll(rows, lat, lng, radius, g, k);
      }
    }
    forall i, j | 0 <= i < j < |found| ensures found[i].distance <= found[j].distance {
      assert DistanceOf(found[i]) <= DistanceOf(found[j]);
    }
    forall d ensures WithKey(found, DistanceOf, d) == WithKey(some, DistanceOf, d) {
      SortStable(some, DistanceOf, d);
    }
  }

  /** In particular all are within the radius, and none is found only if none is in the window. */
  lemma NearbyWithin(rows: seq<Property>, lat: real, lng: real, radius: real, g: Geometry)
    ensures forall n | n in NearbySpec(rows, lat, lng, radius, g) :: n.distance <= radius
    ensures NearbySpec(rows, lat, lng, radius, g) == []
            <==> forall i | 0 <= i < |rows| :: !InWindow(rows[i], lat, lng, radius, g)
  {
    var found := NearbySpec(rows, lat, lng, radius, g);
    NearbyIsSortedAndNear(rows, lat, lng, radius, g);
    if found != [] {
      assert found[0] in found;
    }
    forall i | 0 <= i < |rows| && InWindow(rows[i], lat, lng, radius, g) ensures found != [] {
      var n := ToNearby(rows[i], lat, lng, g);
      assert Reports(n, rows[i], lat, lng, radius, g);
      assert n in found;
    }
  }

  lemma {:induction false} ExtraAreMatches(wider: seq<Nearby>, matches: set<string>, known: set<string>)
    ensures forall i | 0 <= i < |Extra(wider, matches, known)| :: Extra(wider, matches, known)[i].propertyId in matches
  {
    if wider != [] {
      ExtraAreMatches(wider[..|wider| - 1], matches, known);
    }
  }

  lemma {:induction false} AllConfident(cs: seq<Candidate>, approximate: bool, typed: Option<string>, radius: real)
    requires forall i | 0 <= i < |cs| :: Confident(cs[i], approximate, typed, radius)
    ensures ConfidentOnes(cs, approximate, typed, radius) == cs
  {
    if cs != [] {
      AllConfident(cs[1..], approximate, typed, radius);
    }
  }

  /**
   The published distance is rounded to centimetres before it is compared with the
   radius: every distance within the radius passes exactly when the radius itself does.
   */
  lemma RoundedDistancePassesIff(radius: real)
    ensures (forall d: real :: d <= radius ==> Round2(d) <= radius) <==> Round2(radius) <= radius
  {
    if Round2(radius) <= radius {
      forall d: real | d <= radius
        ensures Round2(d) <= radius
      {
        Round2Monotone(d, radius);
      }
    }
  }

  /** A radius that is a multiple of 0.01 passes. */
  lemma CentimetreRadiusPasses(k: int)
    ensures Round2(k as real / 100.0) <= k as real / 100.0
  {
    Round2Exact(k);
  }

  lemma CandidatesConfident(rows: seq<Property>, reg: Registration, s: Settings, g: Geometry, typed: Option<string>)
    requires !reg.approximate && Round2(s.dedupRadius) <= s.dedupRadius
    requires CandidatesSpec(rows, reg, s, g).Ok?
    ensures forall i | 0 <= i < |CandidatesSpec(rows, reg, s, g).value| ::
              Confident(CandidatesSpec(rows, reg, s, g).value[i], false, typed, s.dedupRadius)
  {
    var near := NearbySpec(rows, reg.lat, reg.lng, s.dedupRadius, g);
    NearbyWithin(rows, reg.lat, reg.lng, s.dedupRadius, g);
    RoundedDistancePassesIff(s.dedupRadius);
    if Present(reg.photoHash) {
      var wider := NearbySpec(rows, reg.lat, reg.lng, s.phashRadius, g);
      ExtraAreMatches(wider, PhashMatchesSpec(reg.photoHash.value, wider).value, Ids(near));
    }
  }

  /**
   An exact pin, with a radius that survives rounding: the outcome is created,
   existing or ambiguous exactly as there are 0, 1 or more candidates.
   */
  lemma ExactPinByCount(rows: seq<Property>, reg: Registration, s: Settings, g: Geometry, v: Vocabulary)
    requires !reg.approximate && Round2(s.dedupRadius) <= s.dedupRadius
    requires IdentifySpec(rows, reg, s, g, v).Ok?
    ensures CandidatesSpec(rows, reg, s, g).Ok?
    ensures var cs := CandidatesSpec(rows, reg, s, g).value;
            match IdentifySpec(rows, reg, s, g, v).value.outcome
            case Created(_) => |cs| == 0
            case Existing(pid) => |cs| == 1 && pid == cs[0].propertyId
            case Ambiguous => |cs| >= 2
  {
    var typed := NormalisedAddress(reg.address, v);
    CandidatesConfident(rows, reg, s, g, typed);
    AllConfident(CandidatesSpec(rows, reg, s, g).value, false, typed, s.dedupRadius);
  }

  /** A record is created only when no active row is in the pin's own window. */
  lemma CreatedOnlyAlone(rows: seq<Property>, reg: Registration, s: Settings, g: Geometry)
    requires CandidatesSpec(rows, reg, s, g) == Ok([])
    ensures forall i | 0 <= i < |rows| :: !InWindow(rows[i], reg.lat, reg.lng, s.dedupRadius, g)
  {
    NearbyWithin(rows, reg.lat, reg.lng, s.dedupRadius, g);
  }

  // -------------------------------------------------------------------- runs

  /** Importer runs mint directly; the endpoint identifies first. */
  datatype Event = Import(reg: Registration) | Identify(reg: Registration)

  function StepRows(rows: seq<Property>, e: Event, s: Settings, g: Geometry, v: Vocabulary): seq<Property> {
    match e
    case Import(reg) => RowsAfter(rows, reg, v)
    case Identify(reg) => RowsAfterIdentify(rows, reg, s, g, v)
  }

  /** The table after a run from empty. */
  function Run(events: seq<Event>, s: Settings, g: Geometry, v: Vocabulary): seq<Property> {
    if events == [] then []
    else StepRows(Run(events[..|events| - 1], s, g, v), events[|events| - 1], s, g, v)
  }

  /** Which rows of the table came from the endpoint. */
  function FromEndpoint(events: seq<Event>, s: Settings, g: Geometry, v: Vocabulary): seq<bool> {
    if events == [] then []
    else
      var front := events[..|events| - 1];
      var before, after := Run(front, s, g, v), Run(events, s, g, v);
      FromEndpoint(front, s, g, v) + if |after| > |before| then [events[|events| - 1].Identify?] else []
  }

  lemma AtMostOneRow(rows: seq<Property>, e: Event, s: Settings, g: Geometry, v: Vocabulary)
    ensures var after := StepRows(rows, e, s, g, v);
            || after == rows
            || (&& |after| == |rows| + 1 && after[..|rows|] == rows
                && after[|rows|].active && after[|rows|].lat == e.reg.lat && after[|rows|].lng == e.reg.lng)
  {
  }

  /**
   Over any run: no record created by the endpoint had an earlier record in its own
   query window.
   */
  lemma {:induction false} NoDuplicateWithinWindow(events: seq<Event>, s: Settings, g: Geometry, v: Vocabulary)
    ensures var rows, endpoint := Run(events, s, g, v), FromEndpoint(events, s, g, v);
            && |endpoint| == |rows|
            && forall i, j | 0 <= i < j < |rows| && endpoint[j] ::
                 !InWindow(rows[i], rows[j].lat, rows[j].lng, s.dedupRadius, g)
  {
    if events != [] {
      var front, e := events[..|events| - 1], events[|events| - 1];
      NoDuplicateWithinWindow(front, s, g, v);
      var before := Run(front, s, g, v);
      AtMostOneRow(before, e, s, g, v);
      if Run(events, s, g, v) != before && e.Identify? {
        CreatedOnlyAlone(before, e.reg, s, g);
      }
    }
  }
}
