/** PropertyIDs (app/core/property_id.py): `LGA-AREA-GPSHASH-SEQ`. */
module PropertyId {
  import opened Wrappers
  import opened Text
  import opened Tokens
  import opened Decimal
  import opened Geohash

  const MAX_SEQ: nat := 9999

  datatype IdError =
    | InvalidLga | InvalidArea | InvalidHash | SequenceOutOfRange | Malformed | BucketExhausted
    | OffMap(error: GeohashError)

  datatype ParsedPropertyId = ParsedPropertyId(lgaCode: string, areaCode: string, gpsHash: string, seqNo: nat)

  function IsDash(c: char): bool { c == '-' }

  predicate IsUpper(c: char) { 'A' <= c <= 'Z' }

  predicate AllUpper(s: string) {
    forall i | 0 <= i < |s| :: IsUpper(s[i])
  }

  predicate AllUpperOrDigit(s: string) {
    forall i | 0 <= i < |s| :: IsUpper(s[i]) || IsDigit(s[i])
  }

  predicate IsLga(s: string) { 2 <= |s| <= 5 && AllUpper(s) }

  predicate IsArea(s: string) { 2 <= |s| <= 10 && AllUpperOrDigit(s) }

  predicate IsHash(s: string) { |s| == 6 && AllUpperOrDigit(s) }

  predicate IsSeqText(s: string) { |s| == 4 && AllDigits(s) }

  /** `f"{seq:04d}"` up to MAX_SEQ. */
  function Pad4(n: nat): (s: string)
    requires n <= MAX_SEQ
    ensures IsSeqText(s)
  {
    Pad(n, 4)
  }

  function SeqValue(s: string): nat
    requires IsSeqText(s)
  {
    DigitsValue(s)
  }

  lemma SeqRoundTrip(n: nat)
    requires n <= MAX_SEQ
    ensures SeqValue(Pad4(n)) == n
  {
    assert Pow10(4) == 10000;
    PadRoundTrip(n, 4);
  }

  lemma SeqTextRoundTrip(s: string)
    requires IsSeqText(s)
    ensures SeqValue(s) <= MAX_SEQ && Pad4(SeqValue(s)) == s
  {
    assert Pow10(4) == 10000;
    DigitsRoundTrip(s);
  }

  function Normal(code: string): string {
    Upper(Strip(code))
  }

  /** The four fields, dash-separated. */
  function Dashed(lga: string, area: string, hash: string, seqText: string): string {
    lga + ['-'] + (area + ['-'] + (hash + ['-'] + seqText))
  }

  function FormatPropertyId(lgaCode: string, areaCode: string, gpsHash: string, seqNo: int): Result<string, IdError> {
    var lga, area, gh := Normal(lgaCode), Normal(areaCode), Normal(gpsHash);
    if !IsLga(lga) then Err(InvalidLga)
    else if !IsArea(area) then Err(InvalidArea)
    else if !IsHash(gh) then Err(InvalidHash)
    else if !(0 <= seqNo <= MAX_SEQ) then Err(SequenceOutOfRange)
    else Ok(Dashed(lga, area, gh, Pad4(seqNo)))
  }

  function Parse(propertyId: string): Result<ParsedPropertyId, IdError> {
    var parts := Split(Normal(propertyId), IsDash);
    if |parts| == 4 && IsLga(parts[0]) && IsArea(parts[1]) && IsHash(parts[2]) && IsSeqText(parts[3]) then
      Ok(ParsedPropertyId(parts[0], parts[1], parts[2], SeqValue(parts[3])))
    else Err(Malformed)
  }

  // -------------------------------------------------------------- round trips

  predicate NoDash(s: string) {
    forall i | 0 <= i < |s| :: s[i] != '-'
  }

  lemma SplitLast(w: string)
    requires NoDash(w)
    ensures Split(w, IsDash) == [w]
  {
    RunUntil(w, [], IsDash);
    assert w + [] == w;
  }

  lemma SplitFirst(w: string, rest: string, parts: seq<string>)
    requires NoDash(w) && Split(rest, IsDash) == parts
    ensures Split(w + ['-'] + rest, IsDash) == [w] + parts
  {
    SplitCons(w, '-', rest, IsDash);
  }

  lemma ConsThrice(a: string, b: string, c: string, d: string)
    ensures [a] + ([b] + ([c] + [d])) == [a, b, c, d]
  {
  }

  lemma SplitDashed(a: string, b: string, c: string, d: string)
    requires NoDash(a) && NoDash(b) && NoDash(c) && NoDash(d)
    ensures Split(Dashed(a, b, c, d), IsDash) == [a, b, c, d]
  {
    var cd := c + ['-'] + d;
    SplitLast(d);
    SplitFirst(c, d, [d]);
    SplitFirst(b, cd, [c] + [d]);
    SplitFirst(a, b + ['-'] + cd, [b] + ([c] + [d]));
    ConsThrice(a, b, c, d);
  }

  lemma {:induction false} JoinSplit(s: string)
    ensures DashJoin(Split(s, IsDash)) == s
    ensures forall i | 0 <= i < |Split(s, IsDash)| :: NoDash(Split(s, IsDash)[i])
    decreases |s|
  {
    var k := LeadingRun(s, IsDash);
    if k < |s| {
      JoinSplit(s[k + 1..]);
      var rest := Split(s[k + 1..], IsDash);
      assert ([s[..k]] + rest)[1..] == rest;
      assert s == s[..k] + ['-'] + s[k + 1..];
    }
  }

  /** `"-".join(parts)`. */
  function DashJoin(parts: seq<string>): string {
    if parts == [] then []
    else if |parts| == 1 then parts[0]
    else parts[0] + ['-'] + DashJoin(parts[1..])
  }

  /** An identifier of upper-case letters, digits and dashes is its own normal form. */
  lemma NormalUnchanged(s: string)
    requires forall i | 0 <= i < |s| :: IsUpper(s[i]) || IsDigit(s[i]) || s[i] == '-'
    ensures Normal(s) == s
  {
    StripNothing(s);
    UpperNothing(s);
  }

  lemma DashedIsNormal(a: string, b: string, c: string, n: nat)
    requires IsLga(a) && IsArea(b) && IsHash(c) && n <= MAX_SEQ
    ensures Normal(Dashed(a, b, c, Pad4(n))) == Dashed(a, b, c, Pad4(n))
  {
    NormalUnchanged(Dashed(a, b, c, Pad4(n)));
  }

  lemma ParseDashed(a: string, b: string, c: string, n: nat)
    requires IsLga(a) && IsArea(b) && IsHash(c) && n <= MAX_SEQ
    ensures Normal(Dashed(a, b, c, Pad4(n))) == Dashed(a, b, c, Pad4(n))
    ensures Parse(Dashed(a, b, c, Pad4(n))) == Ok(ParsedPropertyId(a, b, c, n))
  {
    DashedIsNormal(a, b, c, n);
    SplitDashed(a, b, c, Pad4(n));
    SeqRoundTrip(n);
  }

  predicate LettersOnly(s: string) {
    forall c | c in s :: 'A' <= c <= 'Z'
  }

  predicate LettersOrDigits(s: string) {
    forall c | c in s :: 'A' <= c <= 'Z' || '0' <= c <= '9'
  }

  lemma FieldsAre(s: string)
    ensures IsLga(s) <==> 2 <= |s| <= 5 && LettersOnly(s)
    ensures IsArea(s) <==> 2 <= |s| <= 10 && LettersOrDigits(s)
    ensures IsHash(s) <==> |s| == 6 && LettersOrDigits(s)
  {
    forall i | 0 <= i < |s| ensures s[i] in s {
    }
  }

  lemma PadStep(n: nat, w: nat, d: nat)
    requires d < 10
    ensures Pad(10 * n + d, w + 1) == Pad(n, w) + [Digit(d)]
  {
  }

  lemma PadOne(a: nat)
    requires a < 10
    ensures Pad(a, 1) == [Digit(a)]
  {
    assert Pad(a / 10, 0) == [];
  }

  lemma PadTwo(a: nat, b: nat)
    requires a < 10 && b < 10
    ensures Pad(10 * a + b, 2) == [Digit(a), Digit(b)]
  {
    PadOne(a);
    PadStep(a, 1, b);
  }

  lemma PadThird(n: nat, c: nat, x: char, y: char)
    requires c < 10 && Pad(n, 2) == [x, y]
    ensures Pad(10 * n + c, 3) == [x, y, Digit(c)]
  {
    PadStep(n, 2, c);
  }

  lemma PadFourth(n: nat, d: nat, x: char, y: char, z: char)
    requires d < 10 && Pad(n, 3) == [x, y, z]
    ensures Pad(10 * n + d, 4) == [x, y, z, Digit(d)]
  {
    PadStep(n, 3, d);
  }

  lemma PadChain(n: nat, p: nat, q: nat, r: nat)
    requires n <= 9999 && p == n / 10 && q == p / 10 && r == q / 10
    ensures Pad(n, 4) == [Digit(r), Digit(q % 10), Digit(p % 10), Digit(n % 10)]
  {
    PadTwo(r, q % 10);
    PadThird(q, p % 10, Digit(r), Digit(q % 10));
    PadFourth(p, n % 10, Digit(r), Digit(q % 10), Digit(p % 10));
  }

  /** Four decimal digits, leading zeros included. */
  lemma PadFour(n: nat)
    requires n <= 9999
    ensures Pad4(n) == ["0123456789"[n / 1000], "0123456789"[n / 100 % 10], "0123456789"[n / 10 % 10],
                        "0123456789"[n % 10]]
  {
    DigitIs(n / 1000);
    DigitIs(n / 100 % 10);
    DigitIs(n / 10 % 10);
    DigitIs(n % 10);
    assert n / 10 / 10 == n / 100 && n / 100 / 10 == n / 1000;
    PadChain(n, n / 10, n / 100, n / 1000);
  }

  /** The text of an identifier, and which parts are refused. */
  lemma FormatIs(lgaCode: string, areaCode: string, gpsHash: string, seqNo: int)
    ensures var lga, area, hash := Upper(Strip(lgaCode)), Upper(Strip(areaCode)), Upper(Strip(gpsHash));
            var res := FormatPropertyId(lgaCode, areaCode, gpsHash, seqNo);
            var lgaOk, areaOk := 2 <= |lga| <= 5 && LettersOnly(lga), 2 <= |area| <= 10 && LettersOrDigits(area);
            var hashOk := |hash| == 6 && LettersOrDigits(hash);
            && (res == Err(InvalidLga) <==> !lgaOk)
            && (res == Err(InvalidArea) <==> lgaOk && !areaOk)
            && (res == Err(InvalidHash) <==> lgaOk && areaOk && !hashOk)
            && (res == Err(SequenceOutOfRange) <==> lgaOk && areaOk && hashOk && !(0 <= seqNo <= 9999))
            && (res.Ok? <==> lgaOk && areaOk && hashOk && 0 <= seqNo <= 9999)
            && (res.Ok? ==>
                  res.value == lga + "-" + area + "-" + hash + "-"
                               + ["0123456789"[seqNo / 1000], "0123456789"[seqNo / 100 % 10],
                                  "0123456789"[seqNo / 10 % 10], "0123456789"[seqNo % 10]])
  {
    FieldsAre(Normal(lgaCode));
    FieldsAre(Normal(areaCode));
    FieldsAre(Normal(gpsHash));
    if 0 <= seqNo <= 9999 {
      PadFour(seqNo);
      DashesRegroup(Normal(lgaCode), Normal(areaCode), Normal(gpsHash), Pad4(seqNo));
    }
  }

  lemma DashesRegroup(a: string, b: string, c: string, d: string)
    ensures Dashed(a, b, c, d) == a + "-" + b + "-" + c + "-" + d
  {
  }

  /** What format builds, parse takes apart again: same fields, same sequence. */
  lemma ParseInvertsFormat(lgaCode: string, areaCode: string, gpsHash: string, seqNo: int)
    requires FormatPropertyId(lgaCode, areaCode, gpsHash, seqNo).Ok?
    ensures Parse(FormatPropertyId(lgaCode, areaCode, gpsHash, seqNo).value)
            == Ok(ParsedPropertyId(Normal(lgaCode), Normal(areaCode), Normal(gpsHash), seqNo))
  {
    ParseDashed(Normal(lgaCode), Normal(areaCode), Normal(gpsHash), seqNo);
  }

  lemma FourParts(parts: seq<string>)
    requires |parts| == 4
    ensures DashJoin(parts) == Dashed(parts[0], parts[1], parts[2], parts[3])
  {
    var p1, p2, p3 := parts[1..], parts[2..], parts[3..];
    assert p1[1..] == p2 && p2[1..] == p3;
    assert DashJoin(p3) == parts[3];
    assert DashJoin(p2) == parts[2] + ['-'] + DashJoin(p3);
    assert DashJoin(p1) == parts[1] + ['-'] + DashJoin(p2);
  }

  /** `ParsedPropertyId.value`: what parse takes apart, format builds again, in normal form. */
  lemma FormatInvertsParse(s: string)
    requires Parse(s).Ok?
    ensures var p := Parse(s).value;
            FormatPropertyId(p.lgaCode, p.areaCode, p.gpsHash, p.seqNo) == Ok(Normal(s))
  {
    var parts := Split(Normal(s), IsDash);
    JoinSplit(Normal(s));
    FourParts(parts);
    NormalUnchanged(parts[0]);
    NormalUnchanged(parts[1]);
    NormalUnchanged(parts[2]);
    SeqTextRoundTrip(parts[3]);
  }

  /** An identifier without its number: what a bucket's members share. */
  function Prefix(lgaCode: string, areaCode: string, lat: real, lng: real): Result<string, IdError> {
    match GpsHash(lat, lng)
    case Err(e) => Err(OffMap(e))
    case Ok(gh) => Ok(Normal(lgaCode) + ['-'] + (Normal(areaCode) + ['-'] + gh))
  }

  // ------------------------------------------------------- the next free number

  /** The sequence numbers of well-formed identifiers. */
  function UsedBy(ids: seq<string>): set<nat> {
    set id | id in ids && Parse(id).Ok? :: Parse(id).value.seqNo
  }

  /** The smallest number from k on that is not used, if there is one up to MAX_SEQ. */
  function FirstFree(used: set<nat>, k: nat): (r: Option<nat>)
    requires k <= MAX_SEQ + 1
    ensures r.Some? ==> k <= r.value <= MAX_SEQ && r.value !in used && forall j | k <= j < r.value :: j in used
    ensures r.None? ==> forall j | k <= j <= MAX_SEQ :: j in used
    decreases MAX_SEQ + 1 - k
  {
    if k == MAX_SEQ + 1 then None
    else if k !in used then Some(k)
    else FirstFree(used, k + 1)
  }

  function NextSeqSpec(ids: seq<string>): Result<nat, IdError> {
    if exists i :: 0 <= i < |ids| && Parse(ids[i]).Err? then Err(Malformed)
    else
      match FirstFree(UsedBy(ids), 0)
      case Some(n) => Ok(n)
      case None => Err(BucketExhausted)
  }

  method NextSeq(existingIds: seq<string>) returns (res: Result<nat, IdError>)
    ensures res == NextSeqSpec(existingIds)
  {
    var used: set<nat> := {};
    for i := 0 to |existingIds|
      invariant forall j | 0 <= j < i :: Parse(existingIds[j]).Ok?
      invariant used == UsedBy(existingIds[..i])
    {
      var parsed := Parse(existingIds[i]);
      if parsed.Err? {
        return Err(Malformed);
      }
      assert existingIds[..i + 1] == existingIds[..i] + [existingIds[i]];
      used := used + {parsed.value.seqNo};
    }
    assert existingIds[..|existingIds|] == existingIds;
    res := SmallestUnused(used);
  }

  /** The counting loop. */
  method SmallestUnused(used: set<nat>) returns (res: Result<nat, IdError>)
    ensures res == match FirstFree(used, 0) case Some(n) => Ok(n) case None => Err(BucketExhausted)
  {
    var seqNo := 0;
    while seqNo in used
      invariant seqNo <= MAX_SEQ
      invariant FirstFree(used, 0) == FirstFree(used, seqNo)
      decreases MAX_SEQ - seqNo
    {
      seqNo := seqNo + 1;
      if seqNo > MAX_SEQ {
        return Err(BucketExhausted);
      }
    }
    res := Ok(seqNo);
  }

  /** Some identifier of the list has that number. */
  ghost predicate Numbers(ids: seq<string>, k: nat) {
    exists id :: id in ids && Parse(id).Ok? && Parse(id).value.seqNo == k
  }

  lemma NumbersUsed(ids: seq<string>, k: nat)
    ensures k in UsedBy(ids) <==> Numbers(ids, k)
  {
  }

  /** The next number is the smallest nobody has; none when all are taken; an error on a malformed identifier. */
  lemma NextSeqIs(ids: seq<string>, n: nat)
    ensures NextSeqSpec(ids) == Err(Malformed) <==> exists id :: id in ids && Parse(id).Err?
    ensures NextSeqSpec(ids) == Err(BucketExhausted)
            <==> (forall id | id in ids :: Parse(id).Ok?) && forall k: nat | k <= 9999 :: Numbers(ids, k)
    ensures NextSeqSpec(ids) == Ok(n)
            <==> && (forall id | id in ids :: Parse(id).Ok?) && n <= 9999
                 && !Numbers(ids, n) && forall k: nat | k < n :: Numbers(ids, k)
  {
    MalformedIff(ids);
    forall k: nat ensures k in UsedBy(ids) <==> Numbers(ids, k) {
      NumbersUsed(ids, k);
    }
    FirstFreeIs(UsedBy(ids), n);
  }

  lemma MalformedIff(ids: seq<string>)
    ensures NextSeqSpec(ids)
            == if exists id :: id in ids && Parse(id).Err? then Err(Malformed)
               else match FirstFree(UsedBy(ids), 0)
                    case Some(n) => Ok(n)
                    case None => Err(BucketExhausted)
  {
    if id :| id in ids && Parse(id).Err? {
      var i :| 0 <= i < |ids| && ids[i] == id;
    }
  }

  lemma FirstFreeIs(used: set<nat>, n: nat)
    ensures FirstFree(used, 0) == None <==> forall k: nat | k <= 9999 :: k in used
    ensures FirstFree(used, 0) == Some(n) <==> n <= 9999 && n !in used && forall k: nat | k < n :: k in used
  {
  }
}
