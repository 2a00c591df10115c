/**
 What the radius search finds and when a building is registered, said of the table, the
 distances and the radius alone: the box around the pin is not mentioned.
 */
module NearbyLaws {
  import opened Wrappers
  import opened Rounding
  import opened Address
  import opened Minting
  import opened Identity
  import IdentityLaws
  import Phash

  function Span(x: real): real { if x < 0.0 then -x else x }

  /** From the pin, a degree of latitude is at least so many metres, and one of longitude, times the cosine. */
  ghost predicate AtLeastPerDegree(g: Geometry, lat: real, lng: real, metres: real) {
    forall y, x ::
      && g.haversine(lat, lng, y, x) >= metres * Span(y - lat)
      && g.haversine(lat, lng, y, x) >= metres * (if g.cosine(lat) > 0.01 then g.cosine(lat) else 0.01) * Span(x - lng)
  }

  /** Row k is active and at most so far from the pin. */
  ghost predicate Within(rows: seq<Property>, k: nat, lat: real, lng: real, radius: real, g: Geometry) {
    k < |rows| && rows[k].active && g.haversine(lat, lng, rows[k].lat, rows[k].lng) <= radius
  }

  /** The finding is row k, at its distance. */
  ghost predicate Shows(n: Nearby, rows: seq<Property>, k: nat, lat: real, lng: real, g: Geometry) {
    && k < |rows|
    && n.propertyId == rows[k].propertyId && n.distance == g.haversine(lat, lng, rows[k].lat, rows[k].lng)
    && n.addressNormalised == rows[k].addressNormalised && n.photoHash == rows[k].photoHash
  }

  /** A row nearer than the radius by as much as a degree is shorter than 111,320 m is in the box. */
  lemma NearIsInBox(row: Property, lat: real, lng: real, radius: real, g: Geometry, metres: real)
    requires AtLeastPerDegree(g, lat, lng, metres) && metres > 0.0
    requires g.haversine(lat, lng, row.lat, row.lng) * 111320.0 <= radius * metres
    ensures InBox(row, lat, lng, radius, g)
  {
    var h := g.haversine(lat, lng, row.lat, row.lng);
    var c := if g.cosine(lat) > 0.01 then g.cosine(lat) else 0.01;
    LatitudeFits(h, metres, Span(row.lat - lat), radius);
    LongitudeFits(h, metres, c, Span(row.lng - lng), radius);
  }

  lemma LatitudeFits(h: real, metres: real, d: real, radius: real)
    requires metres > 0.0 && d >= 0.0 && h >= metres * d && h * 111320.0 <= radius * metres
    ensures d <= radius / 111320.0
  {
    assert metres * d * 111320.0 <= radius * metres;
    Cancel(metres, d * 111320.0, radius);
  }

  lemma LongitudeFits(h: real, metres: real, c: real, d: real, radius: real)
    requires metres > 0.0 && c > 0.0 && d >= 0.0 && h >= metres * c * d && h * 111320.0 <= radius * metres
    ensures d <= radius / (111320.0 * c)
  {
    var cd := c * d;
    assert metres * c * d == metres * cd;
    LatitudeFits(h, metres, cd, radius);
    var q := radius / (111320.0 * c);
    assert q * (111320.0 * c) == radius;
    assert 111320.0 * cd <= radius;
    Cancel(111320.0 * c, d, q);
  }

  lemma Cancel(m: real, a: real, b: real)
    requires m > 0.0 && m * a <= b * m
    ensures a <= b
  {
    assert a > b ==> m * (a - b) > 0.0;
  }

  /**
   What the search finds: only active rows within the radius, nearest first, and of these
   all that are nearer than the radius by as much as a degree is shorter than 111,320 m.
   */
  lemma FindsThoseNear(rows: seq<Property>, lat: real, lng: real, radius: real, g: Geometry, metres: real)
    requires AtLeastPerDegree(g, lat, lng, metres) && metres > 0.0
    ensures var found := NearbySpec(rows, lat, lng, radius, g);
            && (forall n | n in found ::
                  exists k: nat :: Within(rows, k, lat, lng, radius, g) && Shows(n, rows, k, lat, lng, g))
            && (forall k: nat | Within(rows, k, lat, lng, radius, g)
                                && g.haversine(lat, lng, rows[k].lat, rows[k].lng) * 111320.0 <= radius * metres ::
                  exists n :: n in found && Shows(n, rows, k, lat, lng, g))
            && (forall i, j | 0 <= i < j < |found| :: found[i].distance <= found[j].distance)
  {
    var found := NearbySpec(rows, lat, lng, radius, g);
    NearbyIsSortedAndNear(rows, lat, lng, radius, g);
    forall n | n in found
      ensures exists k: nat :: Within(rows, k, lat, lng, radius, g) && Shows(n, rows, k, lat, lng, g)
    {
      var k: nat :| k < |rows| && Reports(n, rows[k], lat, lng, radius, g);
      assert Within(rows, k, lat, lng, radius, g);
    }
    forall k: nat | Within(rows, k, lat, lng, radius, g)
                    && g.haversine(lat, lng, rows[k].lat, rows[k].lng) * 111320.0 <= radius * metres
      ensures exists n :: n in found && Shows(n, rows, k, lat, lng, g)
    {
      NearIsInBox(rows[k], lat, lng, radius, g, metres);
      var n := ToNearby(rows[k], lat, lng, g);
      assert Reports(n, rows[k], lat, lng, radius, g);
      assert n in found;
    }
  }

  lemma SpanIff(x: real, y: real, d: real)
    ensures x - d <= y <= x + d <==> Span(y - x) <= d
  {
  }

  lemma QuotientIff(d: real, radius: real, m: real)
    requires m > 0.0
    ensures d <= radius / m <==> m * d <= radius
  {
    var q := radius / m;
    assert q * m == radius;
    assert d <= q ==> m * (q - d) >= 0.0;
    assert d > q ==> m * (d - q) > 0.0;
  }

  /** The window in numbers: active, within the radius, and as many metres at most along each axis. */
  lemma WindowIs(row: Property, lat: real, lng: real, radius: real, g: Geometry)
    ensures var c := if g.cosine(lat) > 0.01 then g.cosine(lat) else 0.01;
            InWindow(row, lat, lng, radius, g)
            <==> && row.active && g.haversine(lat, lng, row.lat, row.lng) <= radius
                 && 111320.0 * Span(row.lat - lat) <= radius && 111320.0 * c * Span(row.lng - lng) <= radius
  {
    var c := if g.cosine(lat) > 0.01 then g.cosine(lat) else 0.01;
    var dlat, dlng := radius / 111320.0, radius / (111320.0 * c);
    SpanIff(lat, row.lat, dlat);
    SpanIff(lng, row.lng, dlng);
    QuotientIff(Span(row.lat - lat), radius, 111320.0);
    QuotientIff(Span(row.lng - lng), radius, 111320.0 * c);
  }

  /** Where a degree is 111,320 m or more, the window is the active rows within the radius. */
  lemma WindowIff(rows: seq<Property>, k: nat, lat: real, lng: real, radius: real, g: Geometry)
    requires AtLeastPerDegree(g, lat, lng, 111320.0) && k < |rows|
    ensures InWindow(rows[k], lat, lng, radius, g) <==> Within(rows, k, lat, lng, radius, g)
  {
    if Within(rows, k, lat, lng, radius, g) {
      NearIsInBox(rows[k], lat, lng, radius, g, 111320.0);
    }
  }

  ghost function RowsWithin(rows: seq<Property>, lat: real, lng: real, radius: real, g: Geometry): set<nat> {
    set k: nat | k < |rows| && Within(rows, k, lat, lng, radius, g)
  }

  lemma WithinMore(rows: seq<Property>, lat: real, lng: real, radius: real, g: Geometry)
    requires rows != []
    ensures var front := rows[..|rows| - 1];
            |RowsWithin(rows, lat, lng, radius, g)|
            == |RowsWithin(front, lat, lng, radius, g)| + if Within(rows, |front|, lat, lng, radius, g) then 1 else 0
  {
    var front := rows[..|rows| - 1];
    var before, after := RowsWithin(front, lat, lng, radius, g), RowsWithin(rows, lat, lng, radius, g);
    forall k: nat ensures k in after <==> k in before || (k == |front| && Within(rows, |front|, lat, lng, radius, g)) {
      assert k < |front| ==> rows[k] == front[k];
    }
    assert after == before + if Within(rows, |front|, lat, lng, radius, g) then {|front|} else {};
  }

  lemma {:induction false} CollectCounts(rows: seq<Property>, lat: real, lng: real, radius: real, g: Geometry)
    requires AtLeastPerDegree(g, lat, lng, 111320.0)
    ensures |Collect(rows, lat, lng, radius, g)| == |RowsWithin(rows, lat, lng, radius, g)|
  {
    if rows == [] {
      assert RowsWithin(rows, lat, lng, radius, g) == {};
    } else {
      CollectCounts(rows[..|rows| - 1], lat, lng, radius, g);
      WithinMore(rows, lat, lng, radius, g);
      WindowIff(rows, |rows| - 1, lat, lng, radius, g);
    }
  }

  /** There are as many findings as active rows within the radius. */
  lemma FindsAsMany(rows: seq<Property>, lat: real, lng: real, radius: real, g: Geometry)
    requires AtLeastPerDegree(g, lat, lng, 111320.0)
    ensures |NearbySpec(rows, lat, lng, radius, g)| == |RowsWithin(rows, lat, lng, radius, g)|
  {
    CollectCounts(rows, lat, lng, radius, g);
    SortedMembers(Collect(rows, lat, lng, radius, g));
  }

  /** A photographed row of the wider radius that is of the same building. */
  ghost predicate PhotoNear(rows: seq<Property>, k: nat, reg: Registration, s: Settings, g: Geometry) {
    && Within(rows, k, reg.lat, reg.lng, s.phashRadius, g)
    && reg.photoHash.Some? && reg.photoHash.value != "" && rows[k].photoHash.Some? && rows[k].photoHash.value != ""
    && exists d :: Phash.HammingDistance(reg.photoHash.value, rows[k].photoHash.value) == Ok(d) && d <= 10
  }

  /** A building is registered only when no active one is near, nor one with its photo in the wider radius. */
  lemma CreatedMeansNoneNear(rows: seq<Property>, reg: Registration, s: Settings, g: Geometry, v: Vocabulary, k: nat)
    requires AtLeastPerDegree(g, reg.lat, reg.lng, 111320.0)
    requires IdentifySpec(rows, reg, s, g, v).Ok? && IdentifySpec(rows, reg, s, g, v).value.outcome.Created?
    ensures !Within(rows, k, reg.lat, reg.lng, s.dedupRadius, g) && !PhotoNear(rows, k, reg, s, g)
  {
    if k < |rows| {
      WindowIff(rows, k, reg.lat, reg.lng, s.dedupRadius, g);
      CreatedOnlyAlone(rows, reg, s, g);
      if PhotoNear(rows, k, reg, s, g) {
        PhotoIsCandidate(rows, reg, s, g, k);
      }
    }
  }

  lemma PhotoPasses(photo: string, n: Nearby)
    requires n.photoHash.Some? && n.photoHash.value != ""
    requires exists d :: Phash.HammingDistance(photo, n.photoHash.value) == Ok(d) && d <= 10
    ensures PhotoTest(photo, n) == Ok(true)
  {
  }

  /** A row found in the wider window whose photo passes is a candidate, unless it is one already. */
  lemma PassingIsListed(photo: string, near: seq<Nearby>, wider: seq<Nearby>, n: Nearby)
    requires n in wider && PhotoTest(photo, n) == Ok(true) && PhashMatchesSpec(photo, wider).Ok?
    ensures near + Extra(wider, PhashMatchesSpec(photo, wider).value, Ids(near)) != []
  {
    IdentityLaws.MatchedIffTested(photo, wider, n.propertyId);
    IdentityLaws.ExtraIff(wider, PhashMatchesSpec(photo, wider).value, Ids(near), n);
  }

  lemma RowIsFound(rows: seq<Property>, lat: real, lng: real, radius: real, g: Geometry, k: nat)
    requires AtLeastPerDegree(g, lat, lng, 111320.0) && Within(rows, k, lat, lng, radius, g)
    ensures ToNearby(rows[k], lat, lng, g) in NearbySpec(rows, lat, lng, radius, g)
  {
    WindowIff(rows, k, lat, lng, radius, g);
    CollectedAll(rows, lat, lng, radius, g, k);
    SortedMembers(Collect(rows, lat, lng, radius, g));
  }

  lemma FoundWider(rows: seq<Property>, reg: Registration, s: Settings, g: Geometry, k: nat) returns (n: Nearby)
    requires AtLeastPerDegree(g, reg.lat, reg.lng, 111320.0) && PhotoNear(rows, k, reg, s, g)
    ensures n in NearbySpec(rows, reg.lat, reg.lng, s.phashRadius, g)
    ensures PhotoTest(reg.photoHash.value, n) == Ok(true)
  {
    n := ToNearby(rows[k], reg.lat, reg.lng, g);
    RowIsFound(rows, reg.lat, reg.lng, s.phashRadius, g, k);
    PhotoPasses(reg.photoHash.value, n);
  }

  lemma PhotoIsCandidate(rows: seq<Property>, reg: Registration, s: Settings, g: Geometry, k: nat)
    requires AtLeastPerDegree(g, reg.lat, reg.lng, 111320.0)
    requires PhotoNear(rows, k, reg, s, g) && CandidatesSpec(rows, reg, s, g).Ok?
    ensures CandidatesSpec(rows, reg, s, g).value != []
  {
    var n := FoundWider(rows, reg, s, g, k);
    PassingIsListed(reg.photoHash.value, NearbySpec(rows, reg.lat, reg.lng, s.dedupRadius, g),
                    NearbySpec(rows, reg.lat, reg.lng, s.phashRadius, g), n);
  }

  lemma OnlyMember(s: set<nat>, k: nat)
    requires |s| == 1 && k in s
    ensures s == {k}
  {
    assert |s - {k}| == 0;
  }

  /**
   An exact pin without a photo, with a radius that survives rounding: registered, attached
   or put to the tenant exactly as no, one or more active rows are within the radius.
   */
  lemma ExactPinByRows(rows: seq<Property>, reg: Registration, s: Settings, g: Geometry, v: Vocabulary)
    requires AtLeastPerDegree(g, reg.lat, reg.lng, 111320.0)
    requires !reg.approximate && (reg.photoHash == None || reg.photoHash == Some(""))
    requires Round2(s.dedupRadius) <= s.dedupRadius
    requires IdentifySpec(rows, reg, s, g, v).Ok?
    ensures var near := RowsWithin(rows, reg.lat, reg.lng, s.dedupRadius, g);
            match IdentifySpec(rows, reg, s, g, v).value.outcome
            case Created(_) => near == {}
            case Existing(pid) => exists k: nat :: near == {k} && k < |rows| && rows[k].propertyId == pid
            case Ambiguous => |near| >= 2
  {
    var near := NearbySpec(rows, reg.lat, reg.lng, s.dedupRadius, g);
    ExactPinByCount(rows, reg, s, g, v);
    FindsAsMany(rows, reg.lat, reg.lng, s.dedupRadius, g);
    if |near| == 1 {
      FindsThoseNear(rows, reg.lat, reg.lng, s.dedupRadius, g, 111320.0);
      assert near[0] in near;
      var k: nat :| Within(rows, k, reg.lat, reg.lng, s.dedupRadius, g) && Shows(near[0], rows, k, reg.lat, reg.lng, g);
      OnlyMember(RowsWithin(rows, reg.lat, reg.lng, s.dedupRadius, g), k);
    }
  }
}
