/**
 Minting of PropertyIDs against the property table (`create_property` in
 app/services/identity.py): collision buckets and their sequence numbers.
 */
module Minting {
  import opened Wrappers
  import opened Text
  import opened Address
  import opened Geohash
  import opened GeohashLaws
  import opened Decimal
  import opened PropertyId

  datatype Property = Property(
    propertyId: string, geohash7: string, geohash8: string, lat: real, lng: real,
    approximate: bool, addressFormal: Option<string>, addressLocal: Option<string>,
    addressNormalised: Option<string>, lgaCode: string, neighbourhoodCode: string,
    photoHash: Option<string>, active: bool)

  datatype Registration = Registration(
    lat: real, lng: real, lgaCode: string, areaCode: string,
    address: Option<string>, photoHash: Option<string>, approximate: bool)

  /** SQL `LIKE`: `%` stands for any text, `_` for any one character. */
  predicate Like(pattern: string, s: string)
    decreases |pattern|, |s|
  {
    if pattern == [] then s == []
    else if pattern[0] == '%' then Like(pattern[1..], s) || (s != [] && Like(pattern, s[1..]))
    else s != [] && (pattern[0] == '_' || pattern[0] == s[0]) && Like(pattern[1..], s[1..])
  }

  /** `SELECT property_id ... WHERE property_id LIKE pattern`. */
  function Select(rows: seq<Property>, pattern: string): seq<string> {
    if rows == [] then []
    else
      var front, id := Select(rows[..|rows| - 1], pattern), rows[|rows| - 1].propertyId;
      if Like(pattern, id) then front + [id] else front
  }

  /** The key under which an address is stored; none for an empty one. */
  function NormalisedAddress(address: Option<string>, v: Vocabulary): Option<string> {
    if address.Some? && address.value != [] then Some(NormaliseWith(address.value, v)) else None
  }

  function NewRow(reg: Registration, propertyId: string, gh8: string, gh7: string, v: Vocabulary): Property {
    Property(propertyId, gh7, gh8, reg.lat, reg.lng, reg.approximate, reg.address, reg.address,
             NormalisedAddress(reg.address, v), Upper(reg.lgaCode), Upper(reg.areaCode), reg.photoHash, true)
  }

  /** The outcome of `create_property`: the identifier, or the error raised. */
  function MintSpec(rows: seq<Property>, reg: Registration): Result<string, IdError> {
    match EncodePair(reg.lat, reg.lng)
    case Err(e) => Err(OffMap(e))
    case Ok((gh8, gh7)) =>
      match Prefix(reg.lgaCode, reg.areaCode, reg.lat, reg.lng)
      case Err(e) => Err(e)
      case Ok(prefix) =>
        match NextSeqSpec(Select(rows, prefix + "-%"))
        case Err(e) => Err(e)
        case Ok(n) => FormatPropertyId(reg.lgaCode, reg.areaCode, Upper(gh8[..6]), n)
  }

  /** The table afterwards: one more row on success, unchanged on failure. */
  function RowsAfter(rows: seq<Property>, reg: Registration, v: Vocabulary): seq<Property> {
    match (MintSpec(rows, reg), EncodePair(reg.lat, reg.lng))
    case (Ok(pid), Ok((gh8, gh7))) => rows + [NewRow(reg, pid, gh8, gh7, v)]
    case _ => rows
  }

  /** The property table. */
  class PropertyTable {
    var rows: seq<Property>
    const vocabulary: Vocabulary

    constructor (v: Vocabulary)
      ensures rows == [] && vocabulary == v
    {
      rows, vocabulary := [], v;
    }

    method CreateProperty(reg: Registration) returns (res: Result<string, IdError>)
      modifies this
      ensures res == MintSpec(old(rows), reg)
      ensures rows == RowsAfter(old(rows), reg, vocabulary)
    {
      var encoded := Encode(reg.lat, reg.lng, 8);
      if encoded.Err? {
        return Err(OffMap(encoded.error));
      }
      var gh8, gh7 := encoded.value, encoded.value[..7];
      var prefix := Prefix(reg.lgaCode, reg.areaCode, reg.lat, reg.lng);
      var existing := Select(rows, prefix.value + "-%");
      var next := NextSeq(existing);
      if next.Err? {
        return Err(next.error);
      }
      res := FormatPropertyId(reg.lgaCode, reg.areaCode, Upper(gh8[..6]), next.value);
      if res.Err? {
        return;
      }
      var normalised: Option<string> := None;
      if reg.address.Some? && reg.address.value != [] {
        var key := NormaliseLoop(reg.address.value, vocabulary);
        normalised := Some(key);
      }
      rows := rows + [Property(res.value, gh7, gh8, reg.lat, reg.lng, reg.approximate, reg.address, reg.address,
                               normalised, Upper(reg.lgaCode), Upper(reg.areaCode), reg.photoHash, true)];
    }
  }

  /**
   A registration that succeeds adds one row at the end, active, with the identifier given,
   the codes of the cells the pin lies in, and what was sent, codes in upper case.
   */
  lemma MintedRowIs(rows: seq<Property>, reg: Registration, v: Vocabulary)
    ensures MintSpec(rows, reg).Err? ==> RowsAfter(rows, reg, v) == rows
    ensures MintSpec(rows, reg).Ok? ==>
              var after := RowsAfter(rows, reg, v);
              && |after| == |rows| + 1 && after[..|rows|] == rows
              && var row := after[|rows|];
                 && row.active && row.propertyId == MintSpec(rows, reg).value
                 && row.lat == reg.lat && row.lng == reg.lng && row.approximate == reg.approximate
                 && |row.geohash8| == 8 && CellOf(row.geohash8).Contains(reg.lat, reg.lng)
                 && |row.geohash7| == 7 && CellOf(row.geohash7).Contains(reg.lat, reg.lng)
                 && row.addressFormal == reg.address && row.addressLocal == reg.address
                 && row.addressNormalised == (if reg.address == None || reg.address == Some("") then None
                                              else Some(NormaliseWith(reg.address.value, v)))
                 && row.photoHash == reg.photoHash
                 && row.lgaCode == Upper(reg.lgaCode) && row.neighbourhoodCode == Upper(reg.areaCode)
  {
    if MintSpec(rows, reg).Ok? {
      assert OnMap(reg.lat, reg.lng);
      PairIsCoherent(reg.lat, reg.lng);
      CodeHoldsPoint(reg.lat, reg.lng, 8);
      CodeHoldsPoint(reg.lat, reg.lng, 7);
    }
  }

  lemma CodeHoldsPoint(lat: real, lng: real, precision: nat)
    requires OnMap(lat, lng)
    ensures CellOf(Code(lat, lng, precision)).Contains(lat, lng)
  {
    LettersAreLowerCase(PointBits(lat, lng, 5 * precision), precision);
    CodeIffInCell(lat, lng, Code(lat, lng, precision));
  }

  // ----------------------------------------------------------------- buckets

  datatype Bucket = Bucket(lga: string, area: string, hash: string)

  /** What an identifier says: its bucket and its number there. */
  datatype Label = Label(bucket: Bucket, number: nat)

  predicate ProperBucket(b: Bucket) {
    IsLga(b.lga) && IsArea(b.area) && IsHash(b.hash)
  }

  /** The row's identifier is well formed and spells the label. */
  predicate Carries(row: Property, l: Label) {
    && ProperBucket(l.bucket) && l.number <= MAX_SEQ
    && row.propertyId == Dashed(l.bucket.lga, l.bucket.area, l.bucket.hash, Pad4(l.number))
  }

  lemma CarriedParses(row: Property, l: Label)
    requires Carries(row, l)
    ensures Parse(row.propertyId)
            == Ok(ParsedPropertyId(l.bucket.lga, l.bucket.area, l.bucket.hash, l.number))
  {
    ParseDashed(l.bucket.lga, l.bucket.area, l.bucket.hash, l.number);
  }

  /** How many labels are of bucket b. */
  function Size(labels: seq<Label>, b: Bucket): nat {
    if labels == [] then 0
    else Size(labels[..|labels| - 1], b) + if labels[|labels| - 1].bucket == b then 1 else 0
  }

  /** Each label is numbered by how many its bucket already had. */
  predicate Sequential(labels: seq<Label>) {
    labels == []
    || (var front, last := labels[..|labels| - 1], labels[|labels| - 1];
        Sequential(front) && last.number == Size(front, last.bucket))
  }

  predicate InOrder(rows: seq<Property>, labels: seq<Label>) {
    && |rows| == |labels| && Sequential(labels)
    && forall i | 0 <= i < |rows| :: Carries(rows[i], labels[i])
  }

  // ------------------------------------------------------- the bucket query

  predicate NoWildcard(s: string) {
    forall i | 0 <= i < |s| :: s[i] != '%' && s[i] != '_'
  }

  lemma {:induction false} LikeAnything(s: string)
    ensures Like("%", s)
  {
    if s == [] {
      assert "%"[1..] == [];
    } else {
      LikeAnything(s[1..]);
    }
  }

  /** A literal text followed by `%` matches exactly the texts it begins. */
  lemma {:induction false} LikePrefix(q: string, s: string)
    requires NoWildcard(q)
    ensures Like(q + "%", s) <==> q <= s
  {
    if q == [] {
      assert q + "%" == "%";
      LikeAnything(s);
    } else if s != [] {
      assert (q + "%")[1..] == q[1..] + "%";
      LikePrefix(q[1..], s[1..]);
      assert q == [q[0]] + q[1..] && s == [s[0]] + s[1..];
    }
  }

  lemma FieldAgrees(x: string, y: string, r: string, s: string)
    requires NoDash(x) && NoDash(y)
    ensures x + ['-'] + r <= y + ['-'] + s <==> x == y && r <= s
  {
    var p, t := x + ['-'] + r, y + ['-'] + s;
    assert p[|x|] == '-' && t[|y|] == '-';
    assert |x| < |y| ==> t[|x|] == y[|x|];
    assert |y| < |x| ==> p[|y|] == x[|y|];
    if p <= t {
      assert t[|x|] == p[|x|];
      assert |y| < |p| ==> t[|y|] == p[|y|];
      assert forall i | 0 <= i < |x| :: x[i] == p[i] && y[i] == t[i];
      assert p[|x| + 1..] == r && t[|y| + 1..] == s;
    }
  }

  /** The query text of a bucket. */
  function QueryText(b: Bucket): string {
    b.lga + ['-'] + (b.area + ['-'] + (b.hash + ['-'] + []))
  }

  /** `LIKE prefix-%` selects exactly the rows of the bucket, because no field holds a dash. */
  lemma QuerySelectsBucket(row: Property, l: Label, b: Bucket)
    requires ProperBucket(b) && Carries(row, l)
    ensures Like(QueryText(b) + "%", row.propertyId) <==> b == l.bucket
  {
    LikePrefix(QueryText(b), row.propertyId);
    var c, t := l.bucket, Pad4(l.number);
    FieldAgrees(b.hash, c.hash, [], t);
    FieldAgrees(b.area, c.area, b.hash + ['-'] + [], c.hash + ['-'] + t);
    FieldAgrees(b.lga, c.lga, b.area + ['-'] + (b.hash + ['-'] + []), c.area + ['-'] + (c.hash + ['-'] + t));
  }

  /** 0, 1, ... n - 1. */
  function Below(n: nat): (r: set<nat>)
    ensures forall k: nat :: k in r <==> k < n
  {
    if n == 0 then {} else Below(n - 1) + {n - 1}
  }

  /** The query finds well-formed identifiers numbered 0 up to n. */
  predicate FoundUpTo(found: seq<string>, n: nat) {
    && |found| == n && UsedBy(found) == Below(n)
    && forall i | 0 <= i < |found| :: Parse(found[i]).Ok?
  }

  lemma FoundAppend(found: seq<string>, n: nat, id: string)
    requires FoundUpTo(found, n) && Parse(id).Ok? && Parse(id).value.seqNo == n
    ensures FoundUpTo(found + [id], n + 1)
  {
    UsedByAppend(found, id);
  }

  /** In an ordered table the numbers found for a bucket are 0, 1, ... up to its size. */
  lemma {:induction false} BucketNumbers(rows: seq<Property>, labels: seq<Label>, b: Bucket)
    requires ProperBucket(b) && InOrder(rows, labels)
    ensures FoundUpTo(Select(rows, QueryText(b) + "%"), Size(labels, b))
  {
    if rows != [] {
      var i := |rows| - 1;
      BucketNumbers(rows[..i], labels[..i], b);
      CarriedParses(rows[i], labels[i]);
      QuerySelectsBucket(rows[i], labels[i], b);
      if labels[i].bucket == b {
        FoundAppend(Select(rows[..i], QueryText(b) + "%"), Size(labels[..i], b), rows[i].propertyId);
      }
    }
  }

  lemma UsedByAppend(ids: seq<string>, id: string)
    requires Parse(id).Ok?
    ensures UsedBy(ids + [id]) == UsedBy(ids) + {Parse(id).value.seqNo}
  {
  }

  lemma {:induction false} FirstFreeOfRange(n: nat, k: nat)
    requires k <= n && k <= MAX_SEQ + 1
    ensures FirstFree(Below(n), k) == if n <= MAX_SEQ then Some(n) else None
    decreases n - k
  {
    if k < n && k <= MAX_SEQ {
      FirstFreeOfRange(n, k + 1);
    }
  }

  lemma GpsHashIsProper(lat: real, lng: real)
    requires OnMap(lat, lng)
    ensures GpsHash(lat, lng).Ok? && IsHash(GpsHash(lat, lng).value)
    ensures Normal(GpsHash(lat, lng).value) == GpsHash(lat, lng).value
  {
    var code := Code(lat, lng, 8);
    LettersAreLowerCase(PointBits(lat, lng, 40), 8);
    var gh := Upper(code[..6]);
    forall i | 0 <= i < 6 ensures IsUpper(gh[i]) || IsDigit(gh[i]) {
      assert Index(code[i]).Some? && Lower(code)[i] == code[i];
    }
    NormalUnchanged(gh);
  }

  /** The query made for a registration with valid codes is the one of its bucket. */
  lemma QueryOfRegistration(reg: Registration)
    requires OnMap(reg.lat, reg.lng)
    ensures Prefix(reg.lgaCode, reg.areaCode, reg.lat, reg.lng).Ok?
    ensures Prefix(reg.lgaCode, reg.areaCode, reg.lat, reg.lng).value + "-%" == QueryText(TargetBucket(reg)) + "%"
  {
    GpsHashIsProper(reg.lat, reg.lng);
  }

  /** Identifiers that take the numbers below n leave n as the next one, if there is one. */
  lemma NextOfFound(ids: seq<string>, n: nat)
    requires FoundUpTo(ids, n)
    ensures NextSeqSpec(ids) == if n <= MAX_SEQ then Ok(n) else Err(BucketExhausted)
  {
    FirstFreeOfRange(n, 0);
  }

  /** With valid codes, minting is numbering and formatting. */
  lemma MintIsFormat(rows: seq<Property>, reg: Registration, n: nat)
    requires OnMap(reg.lat, reg.lng) && ProperBucket(TargetBucket(reg)) && n <= MAX_SEQ
    requires NextSeqSpec(Select(rows, QueryText(TargetBucket(reg)) + "%")) == Ok(n)
    ensures MintSpec(rows, reg)
            == (var b := TargetBucket(reg); Ok(Dashed(b.lga, b.area, b.hash, Pad4(n))))
  {
    GpsHashIsProper(reg.lat, reg.lng);
    QueryOfRegistration(reg);
  }

  /** With valid codes, a failed numbering is the failure of the minting. */
  lemma MintFails(rows: seq<Property>, reg: Registration, e: IdError)
    requires OnMap(reg.lat, reg.lng)
    requires NextSeqSpec(Select(rows, QueryText(TargetBucket(reg)) + "%")) == Err(e)
    ensures MintSpec(rows, reg) == Err(e)
  {
    QueryOfRegistration(reg);
  }

  /** What minting gives when its bucket already has n rows. */
  function Numbered(b: Bucket, n: nat): Result<string, IdError> {
    if n <= MAX_SEQ then Ok(Dashed(b.lga, b.area, b.hash, Pad4(n))) else Err(BucketExhausted)
  }

  lemma MintOfFound(rows: seq<Property>, reg: Registration, n: nat)
    requires OnMap(reg.lat, reg.lng) && ProperBucket(TargetBucket(reg))
    requires FoundUpTo(Select(rows, QueryText(TargetBucket(reg)) + "%"), n)
    ensures MintSpec(rows, reg) == Numbered(TargetBucket(reg), n)
  {
    NextOfFound(Select(rows, QueryText(TargetBucket(reg)) + "%"), n);
    if n <= MAX_SEQ {
      MintIsFormat(rows, reg, n);
    } else {
      MintFails(rows, reg, BucketExhausted);
    }
  }

  /**
   On an ordered table, a registration with valid codes gets the number of rows its
   bucket already has, and fails only when all 10,000 numbers are taken.
   */
  lemma MintGivesNextNumber(rows: seq<Property>, labels: seq<Label>, reg: Registration)
    requires InOrder(rows, labels) && OnMap(reg.lat, reg.lng)
    requires ProperBucket(TargetBucket(reg))
    ensures MintSpec(rows, reg) == Numbered(TargetBucket(reg), Size(labels, TargetBucket(reg)))
  {
    BucketNumbers(rows, labels, TargetBucket(reg));
    MintOfFound(rows, reg, Size(labels, TargetBucket(reg)));
  }

  /** The bucket a registration falls in. */
  function TargetBucket(reg: Registration): Bucket {
    Bucket(Normal(reg.lgaCode), Normal(reg.areaCode), GpsHashOr(reg.lat, reg.lng))
  }

  function GpsHashOr(lat: real, lng: real): string {
    match GpsHash(lat, lng)
    case Ok(gh) => gh
    case Err(_) => []
  }

  /** Off the map, or with an invalid code, a registration always fails. */
  lemma MintNeedsValidInput(rows: seq<Property>, reg: Registration)
    requires !OnMap(reg.lat, reg.lng) || !ProperBucket(TargetBucket(reg))
    ensures MintSpec(rows, reg).Err?
  {
    if OnMap(reg.lat, reg.lng) {
      GpsHashIsProper(reg.lat, reg.lng);
    }
  }

  /** One registration keeps the table ordered. */
  lemma MintKeepsOrder(rows: seq<Property>, labels: seq<Label>, reg: Registration, v: Vocabulary)
    returns (labels': seq<Label>)
    requires InOrder(rows, labels)
    ensures InOrder(RowsAfter(rows, reg, v), labels')
  {
    labels' := labels;
    var after := RowsAfter(rows, reg, v);
    if after != rows {
      if !OnMap(reg.lat, reg.lng) || !ProperBucket(TargetBucket(reg)) {
        MintNeedsValidInput(rows, reg);
      } else {
        MintGivesNextNumber(rows, labels, reg);
        var b := TargetBucket(reg);
        var l := Label(b, Size(labels, b));
        labels' := labels + [l];
        assert labels'[..|labels|] == labels;
        assert Carries(after[|rows|], l);
      }
    }
  }

  /** The table after any sequence of registrations, failed ones included. */
  function MintAll(regs: seq<Registration>, v: Vocabulary): seq<Property> {
    if regs == [] then []
    else RowsAfter(MintAll(regs[..|regs| - 1], v), regs[|regs| - 1], v)
  }

  lemma {:induction false} RunKeepsOrder(regs: seq<Registration>, v: Vocabulary) returns (labels: seq<Label>)
    ensures InOrder(MintAll(regs, v), labels)
  {
    labels := [];
    if regs != [] {
      var before := RunKeepsOrder(regs[..|regs| - 1], v);
      labels := MintKeepsOrder(MintAll(regs[..|regs| - 1], v), before, regs[|regs| - 1], v);
    }
  }

  /** A later label of a bucket has a greater number. */
  lemma {:induction false} NumbersGrow(labels: seq<Label>, i: nat)
    requires Sequential(labels) && i < |labels|
    ensures labels[i].number < Size(labels, labels[i].bucket)
  {
    if i < |labels| - 1 {
      NumbersGrow(labels[..|labels| - 1], i);
    }
  }

  lemma {:induction false} LabelsDiffer(labels: seq<Label>, i: nat, j: nat)
    requires Sequential(labels) && i < j < |labels|
    ensures labels[i] != labels[j]
  {
    var front := labels[..|labels| - 1];
    if j < |labels| - 1 {
      LabelsDiffer(front, i, j);
    } else {
      NumbersGrow(front, i);
    }
  }

  /**
   After any run from the empty table: every identifier parses, all differ, and the
   numbers found in each bucket are exactly 0 up to how many rows it has.
   */
  lemma MintingRun(regs: seq<Registration>, v: Vocabulary, b: Bucket)
    requires ProperBucket(b)
    ensures var rows := MintAll(regs, v);
            && (forall i | 0 <= i < |rows| :: Parse(rows[i].propertyId).Ok?)
            && (forall i, j | 0 <= i < j < |rows| :: rows[i].propertyId != rows[j].propertyId)
    ensures var found := Select(MintAll(regs, v), QueryText(b) + "%");
            UsedBy(found) == Below(|found|)
  {
    var rows := MintAll(regs, v);
    var labels := RunKeepsOrder(regs, v);
    forall i | 0 <= i < |rows|
      ensures Parse(rows[i].propertyId).Ok?
    {
      CarriedParses(rows[i], labels[i]);
    }
    forall i, j | 0 <= i < j < |rows|
      ensures rows[i].propertyId != rows[j].propertyId
    {
      LabelsDiffer(labels, i, j);
      CarriedParses(rows[i], labels[i]);
      CarriedParses(rows[j], labels[j]);
    }
    BucketNumbers(rows, labels, b);
  }

  /**
   After any run, the next registration with valid codes succeeds exactly while its
   bucket has fewer than 10,000 rows; its identifier parses back to its LGA, area,
   GPS hash and number, and names no earlier row.
   */
  lemma NextMint(regs: seq<Registration>, reg: Registration, v: Vocabulary)
    requires OnMap(reg.lat, reg.lng) && ProperBucket(TargetBucket(reg))
    ensures var rows, b := MintAll(regs, v), TargetBucket(reg);
            var taken := |Select(rows, QueryText(b) + "%")|;
            && (MintSpec(rows, reg).Ok? <==> taken < 10000)
            && (MintSpec(rows, reg).Ok? ==>
                  && Parse(MintSpec(rows, reg).value) == Ok(ParsedPropertyId(b.lga, b.area, b.hash, taken))
                  && forall i | 0 <= i < |rows| :: rows[i].propertyId != MintSpec(rows, reg).value)
  {
    var rows, b := MintAll(regs, v), TargetBucket(reg);
    var labels := RunKeepsOrder(regs, v);
    BucketNumbers(rows, labels, b);
    MintGivesNextNumber(rows, labels, reg);
    if MintSpec(rows, reg).Ok? {
      var n := Size(labels, b);
      ParseDashed(b.lga, b.area, b.hash, n);
      forall i | 0 <= i < |rows|
        ensures rows[i].propertyId != MintSpec(rows, reg).value
      {
        CarriedParses(rows[i], labels[i]);
        NumbersGrow(labels, i);
      }
    }
  }
}
