# RentSafe core, modelled and verified in Dafny

RentSafe is a rental-transparency service for Lagos: tenants sign in with one-time codes,
register buildings under permanent PropertyIDs, review them, moderators publish the
reviews, and landlords' agents may claim a profile and answer. This project models the
algorithms and state machines at the heart of its backend and proves what they promise,
for all inputs and over all runs.

| Modules | What they model |
|---|---|
| `TtlStore`, `Windows`, `StoreKeys`, `RateLimit`, `SlotLimiter` | the store of expiring entries, fixed-window counting, the texts of keys, per-client limits, the fleet-wide slot limiter |
| `Otp`, `OtpLedger`, `OtpLaws`, `OtpRequestLaws` | one-time codes: the service over the store, the ideal protocol it refines, the laws of every run, and which requests are answered with a message |
| `Geohash`, `GeohashLaws`, `GeohashDigits`, `PropertyId`, `Minting`, `Identity`, `IdentityLaws`, `NearbyLaws` | geohash coding and its digits, PropertyIDs, minting from collision buckets, resolving a pin to a building, what an answer says of the table, and what the radius search finds |
| `PerceptualHash`, `HashLaws`, `CosineBasis`, `NegativeImage`, `Phash`, `Bits` | the DCT photo hash, which of its bits are set, its cosine basis, what lighting does to it, and Hamming distance |
| `Scoring`, `ScoringLaws`, `AggregateLaws`, `PartialLaws` | the weighted score and its breakdown, their formulas, and when the two agree |
| `Platform`, `PlatformService`, `StepLaws`, `ClaimLaws`, `ReviewLaws`, `TrailLaws`, `CacheLaws`, `ClosureLaws` | accounts, reviews, moderation and its record, replies, profile claims, cached scores and closing an account as one state machine, its methods, and its laws |
| `Address`, `Places`, `Search`, `SearchLaws`, `Transit`, `TransitList`, `TransitLaws` | address normalisation, recognising a neighbourhood, widening an address search and what it answers, de-duplicating stops and what that loses |
| `Metrics` | request counters and latency histograms |
| `Wrappers`, `Text`, `Tokens`, `Decimal`, `Rounding`, `Sorting`, `Sequences` | shared vocabulary: Python's strings, `round` and `sorted` |

Where the source changes state, a class or a loop does too, and its contract equates the
new state with a specification function; the laws are then proved about those functions.
The clock, random tokens, the geocoder, great-circle distance, sine and cosine, and the
verdict of the text checks are parameters.

`dafny verify dfyconfig.toml` checks the whole project.

## What the code does where its documentation says otherwise

- A client may be let through 2 * limit - 1 times within one window length, not limit
  times: the window is fixed, not sliding. A run that attains it is `RateLimit.BurstIsAdmitted`;
  "limit per window" holds of every stretch of time exactly when the limit is at most one or
  the window is empty (`RateLimit.LimitInEveryStretchIff`).
- One win per slot is not one per interval: two wins may be as close as one likes when they
  fall in adjacent slots. Wins of two slots are always an interval apart exactly when the
  delay between reading the clock and reaching the store fits in the slots between them
  (`SlotLimiter.SlotsApartIff`).
- A slot can have a second winner, when a claim reaches the store after the slot's counter
  has lapsed: exactly when delay and interval together can exceed the counter's life
  (`SlotLimiter.OneWinnerIff`).
- "Already has a reply" holds exactly when the first reply is not blank: a reply of twenty
  spaces is accepted, stored as an empty text, still blocks the author's edits, and can be
  replaced (`ReviewLaws.ReplyIsFinalIff`, `ReviewLaws.BlankReplyIsReplaced`).
- Closing an account with its reviews withdrawn does not recompute scores, so a property's
  cache counts reviews no longer public exactly when that account had approved reviews of
  it (`CacheLaws.CacheIsAggregateIff`). The runs `ClosureLaws.LeavingMakesStale` and
  `ClosureLaws.SomeCacheGoesStale` do so.
- "Withdrawn: no longer public" lasts until a moderator approves the review again: it is
  public exactly when the last decision since the withdrawal was to approve
  (`ClosureLaws.WithdrawnPublicIff`, `ClosureLaws.PublicAgainIff`), and then under the name
  its author had (`ClosureLaws.OldNameIsBack`).
- A building exactly at the de-duplication radius can be a lone candidate and still be
  "ambiguous", when rounding to centimetres pushes the radius up
  (`IdentityLaws.LoneCandidateCanBeAmbiguous`). For exact pins the outcome follows the number
  of candidates on every table exactly when rounding does not
  (`IdentityLaws.ExactPinByCountIff`): never with the default radius of 15 m, but with one of
  15.006 m (`IdentityLaws.DefaultRadiusCounts`, `IdentityLaws.SixMillimetresMore`).
- Pins of one precision-8 cell share a PropertyID prefix, as app/core/property_id.py says,
  but not only they: the prefix is shared exactly within a precision-6 cell
  (`GeohashLaws.SameGpsHashIff`, `GeohashLaws.GpsHashIsCoarser`).
- The list of stops is meant to keep the nearest of each name and to drop unnamed stops on
  top of a named one. It keeps the nearest of each name exactly when none of these lies
  within 120 m of a nearer one of its kind (`TransitLaws.NearestKeptIff`); otherwise a named
  stop can be lost to one without a name (`TransitLaws.NamedStopLost`). Unnamed stops of a
  kind all carry one made-up name, so only the nearest of them is listed, however far apart
  they are (`TransitLaws.UnnamedListedIff`, `TransitLaws.UnnamedStopLost`).
- A street found too far from its area is meant to fall through to the area. In an address
  that says one name twice, as "lagos lagos", the area is dropped as a repetition of the
  street, so nothing is answered then (`SearchLaws.NameTwiceIsLost`). An area answers exactly
  when it is not the street over again (`SearchLaws.AreaAnswerIff`).
- With partial ratings the headline and the bars can disagree
  (`ScoringLaws.PartialRatingsDisagree`). They agree whatever the ratings exactly when, for
  each review and dimension it rates, the number of dimensions it rates times the total
  weight is the number of bars times the dimension's weight
  (`PartialLaws.AlwaysAgreesIffBalanced`); reviews that all rate the same dimensions do
  (`PartialLaws.SameDimensionsAgree`), and submissions always carry all ten
  (`CacheLaws.ShownScoresAgree`).

## Model

| member | source | states |
|---|---|---|
| TtlStore.MemoryStore.Get | app/services/otp_store.py:32-40 | a reader sees an entry up to and including its expiry; reading a lapsed one removes it |
| TtlStore.MemoryStore.Set | app/services/otp_store.py:42-43 | the entry is replaced, with a fresh expiry |
| TtlStore.MemoryStore.Delete | app/services/otp_store.py:45-46 | the entry is gone, all others stay |
| TtlStore.MemoryStore.Incr | app/services/otp_store.py:48-55 | one more than the live count, or 1; a live entry keeps its expiry |
| TtlStore.IncrIs | app/services/otp_store.py:48-55 | one more than a number still there, else one; its expiry stays or is set; a text that is no number is an error |
| TtlStore.SetIsRead | app/services/otp_store.py:32-43 | what is set is read until its time is up, and other keys are as before |
| TtlStore.LazyRemovalInvisible | app/services/otp_store.py:36-38 | removing lapsed entries lazily changes no later read or count |
| TtlStore.CounterShowsHits | app/services/otp_store.py:48-55 | whatever else the store is used for, a counter's entry tells its last hit's window and rank |
| TtlStore.IncrementReturnsRank | app/services/otp_store.py:48-55 | over every run, the number an increment returns is the rank of that hit in its window |
| Windows.StampsChain | app/services/otp_store.py:48-55 | no window slides, and the next starts only after the last has lapsed |
| Windows.IntervalBound | app/services/otp_store.py:48-55 | any stretch no longer than the window holds at most limit accepted hits of one window and 2 * limit - 1 in all |
| Windows.BoundIsAttained | app/services/otp_store.py:48-55 | 2 * limit - 1 hits within half a window do occur |
| StoreKeys.RenderInjective | app/services/otp_store.py:100-113 | no two keys of the shared store have one text: codes, quotas, slots, rate buckets, cached routes and the health probe, addresses with colons included |
| StoreKeys.ColonsCollide | app/services/otp_store.py:100-105 | why phone hashes must hold no colon |
| StoreKeys.Texts | app/services/otp_store.py:100-113 | the texts themselves, field by field |
| RateLimit.Check | app/api/ratelimit.py:65-78 | a request is refused exactly when its count exceeds the limit |
| RateLimit.AdmittedIffVerdict | app/api/ratelimit.py:65-78 | a request joins the admitted ones exactly when the check lets it through |
| RateLimit.AdmittedIffLowRank | app/api/ratelimit.py:65-78 | over every run, exactly the first limit requests of a window pass |
| RateLimit.SlidingWindowBound | app/api/ratelimit.py:65-78 | over every run of the shared store, any stretch no longer than the window admits at most 2 * limit - 1 requests of a client |
| RateLimit.BurstIsAdmitted | app/api/ratelimit.py:65-78 | a run of the store that admits 2 * limit - 1 requests of a client within a window's length |
| RateLimit.LimitInEveryStretchIff | app/api/ratelimit.py:65-78 | every such stretch of every run holds at most limit requests exactly when the limit is at most one or the window is empty |
| RateLimit.PublishedBounds | app/api/ratelimit.py:81-97 | at most 19 registrations and 119 searches of one client in any hour |
| RateLimit.ForgedHeaderIgnored | app/api/ratelimit.py:28-58 | what a caller writes in front of the trusted proxies' entries never changes who they are taken for |
| RateLimit.ClientIpIs | app/api/ratelimit.py:42-58 | the socket's address without trusted hops or without entries, else the entry that many places from the end, or the first |
| RateLimit.EntriesOfOne | app/api/ratelimit.py:51-53 | the part between two commas counts stripped, unless nothing is left of it |
| SlotLimiter.AsyncRateLimiter.ClaimSharedSlot | app/services/opendata.py:119-134 | only the first count of a slot wins; without a shared key, or with a failing store, every claim does |
| SlotLimiter.LostIff | app/services/opendata.py:119-134 | a claim is lost exactly when the counter already shows a number above zero |
| SlotLimiter.AsyncRateLimiter.PassLock | app/services/opendata.py:136-142 | the caller sleeps until the time set by the last to leave, and sets the next an interval after it leaves |
| SlotLimiter.AsyncRateLimiter.WaitForSlot | app/services/opendata.py:144-151 | whatever the rest of the fleet does in between: every claim but the last was lost, the last decides, at most floor(20 / interval) + 2 are made, and giving up happens only past the deadline |
| SlotLimiter.MaxClaimsIs | app/services/opendata.py:144-151 | a waiter makes at most as many claims as leave, but for two, a quarter interval each within five seconds |
| SlotLimiter.TtlOutlivesSlot | app/services/opendata.py:128-130 | the counter outlives its slot by more than another interval |
| SlotLimiter.TtlIs | app/services/opendata.py:128-130 | it is the least whole number of seconds above twice the interval, but at least two |
| SlotLimiter.ClaimsInTime | app/services/opendata.py:146-151 | a deadline check that passes bounds how many claims went before |
| SlotLimiter.ExitsAreSpaced | app/services/opendata.py:136-142 | callers leave one limiter's locked section at least an interval apart each |
| SlotLimiter.ExitsAre | app/services/opendata.py:136-142 | each leaves on entering or an interval after the one before, whichever is later, but for oversleeping |
| SlotLimiter.FirstClaimWins | app/services/opendata.py:119-134 | over every interleaving of the fleet, with claims reaching the store late by up to what the counter's life allows, a claim wins exactly when it is the first on its slot |
| SlotLimiter.WaiterWinsIff | app/services/opendata.py:119-151 | a waiter's claim wins exactly when nobody, itself included, claimed that slot before |
| SlotLimiter.WinnersInDifferentSlots | app/services/opendata.py:119-134 | no slot has two winners, late claims included |
| SlotLimiter.OneWinnerIff | app/services/opendata.py:124-130 | one winner per slot in every run exactly when delay and interval together do not exceed the counter's life; a delay of an interval is always allowed |
| SlotLimiter.SecondWinner | app/services/opendata.py:124-130 | otherwise a run with two winners of one slot |
| SlotLimiter.WinsAreSpread | app/services/opendata.py:119-134 | k + 1 wins span more than k - 1 intervals, less the delay |
| SlotLimiter.SlotsApartIff | app/services/opendata.py:119-134 | wins of slots a < b are an interval apart in every run exactly when the delay fits in the b - a - 2 intervals between them; without delay, when b - a >= 2 |
| Otp.OtpService.CheckRequestQuota | app/services/otp_store.py:124-148 | cooldown, hourly, daily and network checks in order, each charged only once the one before has passed |
| Otp.OtpService.Charge | app/services/otp_store.py:137-148 | one quota counter incremented and compared |
| Otp.OtpService.SaveOtp | app/services/otp_store.py:151-154 | the code is stored, its failed attempts forgotten, the cooldown started |
| Otp.OtpService.RegisterFailedAttempt | app/services/otp_store.py:161-171 | the attempt is counted; the last one allowed burns the code |
| Otp.OtpService.ClearOtp | app/services/otp_store.py:174-176 | code and attempts are gone |
| Otp.OtpService.RequestOtp | app/services/auth.py:18-30 | a code is saved only when every check passes |
| Otp.OtpService.VerifyOtp | app/services/auth.py:33-45 | nothing stored, wrong, burned or accepted; an accepted code is cleared |
| OtpLedger.StepRefines | app/services/otp_store.py:124-176 | one request or guess: the store's separate expiring entries decide as one record per code would |
| OtpLedger.StoreRefinesLedger | app/services/otp_store.py:124-176 | over every run, the store gives the ideal protocol's answers |
| OtpLaws.AttemptCap | app/services/otp_store.py:161-171 | each code meets at most the configured wrong guesses and one success, over both consumers together |
| OtpLaws.VerifiedIff | app/api/v1/users.py:300-308 | a guess is accepted if and only if it is the code last sent, at most five minutes old, not used and not burned; it burns the code, or is wrong, exactly when it differs from such a code and is, or is not, the last one allowed |
| OtpRequestLaws.RequestIff | app/services/otp_store.py:124-148 | over every run, a request is refused within the cooldown of the last message, else when it is one too many in the phone's hour, the phone's day or the network's hour, in this order, and otherwise a message is sent, all told from the log |
| OtpLaws.CooldownSpacing | app/services/otp_store.py:130-134 | messages to one phone are more than the cooldown apart |
| OtpLaws.QuotaBound | app/services/otp_store.py:136-148 | any stretch no longer than a quota's window sees at most 2 * limit - 1 messages charged to it, for phone and network quotas |
| OtpLaws.PublishedLimits | app/config.py:52-57 | with the settings in use: five wrong guesses a code, over a minute between messages, at most 5 an hour and 19 a day to a phone, 29 an hour from a network |
| OtpLaws.NeverFaults | app/services/otp_store.py:48-55 | no run makes a counter hold anything but a number |
| Geohash.Encode | app/core/geohash.py:29-76 | the range checks in order, else the code of the point |
| Geohash.Characters | app/core/geohash.py:41-76 | the bisection loop yields the letters of the point's first 5p bits |
| Geohash.Decode | app/core/geohash.py:79-105 | the centre of the cell the text's bits select, or an error |
| Geohash.SymbolsOfAlphabet | app/core/geohash.py:22-23 | the letters written are those of the published alphabet, in its order |
| Geohash.IndexedIffInAlphabet | app/core/geohash.py:22-23 | the characters read are those of the alphabet and no others |
| GeohashLaws.CodeIffInCell | app/core/geohash.py:29-105 | a point has code g exactly when it lies in g's cell, closed edges of the world included |
| GeohashDigits.CharacterIs | app/core/geohash.py:41-76 | each character of a code, from the numbers of the strips of longitude and latitude the point lies in and the published alphabet |
| GeohashLaws.EncodeInvertsDecode | app/core/geohash.py:79-105 | encoding the decoded centre at g's length gives g back |
| GeohashLaws.DecodeFailsIff | app/core/geohash.py:85-88 | decoding fails exactly on a text with a character that, in lower case, is outside the published alphabet |
| GeohashLaws.DecodeError | app/core/geohash.py:79-105 | decoding is off by at most 90 / 2^(5p/2) degrees in latitude and 180 / 2^((5p+1)/2) in longitude |
| GeohashLaws.PrefixCoherence | app/core/geohash.py:50-76 | a shorter code of a point is a prefix of its longer ones |
| GeohashLaws.PairIsCoherent | app/core/geohash.py:108-124 | the stored pair and the PropertyID hash are the precision 8, 7 and 6 cells |
| GeohashLaws.SameGpsHashIff | app/core/geohash.py:118-124 | two pins have one PropertyID hash exactly when they lie in one precision-6 cell |
| GeohashLaws.GpsHashIsCoarser | app/core/property_id.py:102-109 | pins of one precision-8 cell share it, but every hash is also shared by pins of different precision-8 cells |
| GeohashLaws.SameGpsHashMeansClose | app/core/geohash.py:118-124 | pins sharing a hash are within one precision-6 cell of each other on each axis |
| PropertyId.ParseInvertsFormat | app/core/property_id.py:60-99 | parsing a formatted identifier gives its normalised parts back |
| PropertyId.FormatInvertsParse | app/core/property_id.py:89-99 | formatting what was parsed gives the normalised text back |
| PropertyId.FormatIs | app/core/property_id.py:60-75 | the text of an identifier down to its four digits, and which part is refused |
| PropertyId.NextSeq | app/core/property_id.py:112-120 | the smallest number not in use, or exhaustion; a malformed identifier is an error |
| PropertyId.NextSeqIs | app/core/property_id.py:112-120 | the next number is the smallest nobody has; none when all 10,000 are taken; an error on a malformed identifier |
| PropertyId.SmallestUnused | app/core/property_id.py:115-120 | the counting loop |
| Minting.PropertyTable.CreateProperty | app/services/identity.py:199-245 | the new row and identifier, or an error and no row |
| Minting.MintedRowIs | app/services/identity.py:225-245 | a registration that succeeds adds one active row with the identifier, the codes of the cells the pin lies in, and what was sent; one that fails adds none |
| Minting.QuerySelectsBucket | app/services/identity.py:214-218 | the LIKE query selects exactly the rows of the bucket, because no field holds a dash |
| Minting.MintGivesNextNumber | app/services/identity.py:211-222 | the number given is how many rows the bucket has; it fails only when all 10,000 are taken |
| Minting.MintNeedsValidInput | app/core/property_id.py:66-73 | off the map or with an invalid code, registering fails |
| Minting.MintingRun | app/services/identity.py:199-245 | after any run all identifiers parse and differ, and a bucket's numbers are exactly 0 to n - 1 |
| Minting.NextMint | app/services/identity.py:199-245 | after any run the next registration succeeds exactly while its bucket has room, parses back, and repeats no identifier |
| Identity.QueryNearby | app/services/identity.py:57-86 | the active rows in the box and within the radius, sorted stably by distance |
| Identity.NearbyIsSortedAndNear | app/services/identity.py:57-86 | what is listed is exactly the active rows of the window, nearest first, equal distances in table order |
| NearbyLaws.FindsThoseNear | app/services/identity.py:57-86 | for any length of a degree: only active rows within the radius, nearest first, and all of them that are nearer by as much as a degree is shorter than 111,320 m |
| NearbyLaws.WindowIs | app/services/identity.py:61-77 | the window in numbers: active, within the radius, and at most as many metres off along each axis, at 111,320 m a degree |
| NearbyLaws.WindowIff | app/services/identity.py:61-77 | where a degree is 111,320 m or more, the window is exactly the active rows within the radius |
| NearbyLaws.CreatedMeansNoneNear | app/services/identity.py:122-192 | then a building is registered only when no active one is within the radius and none within the wider one has its photo |
| NearbyLaws.ExactPinByRows | app/services/identity.py:160-192 | then an exact pin without a photo is registered, attached or put to the tenant exactly as no, one or more active rows are within the radius |
| Identity.PhashMatches | app/services/identity.py:89-99 | the rows whose photo is of the same building |
| Identity.FindCandidates | app/services/identity.py:122-147 | nearby rows, then matching photos from the wider radius, distances rounded |
| Identity.IdentifyOrCreate | app/services/identity.py:102-196 | existing, ambiguous or created, and the table after |
| Identity.ExactPinByCount | app/services/identity.py:160-192 | for an exact pin the outcome follows the number of candidates: 0, 1 or more |
| Identity.RoundedDistancePassesIff | app/services/identity.py:139-164 | every distance within the radius survives rounding exactly when the radius does |
| Identity.CentimetreRadiusPasses | app/services/identity.py:139-164 | a radius that is a multiple of 0.01 survives |
| IdentityLaws.ExactPinByCountIff | app/services/identity.py:160-192 | for exact pins the outcome follows that number on every table exactly when rounding does not push the radius up |
| IdentityLaws.LoneCandidateCanBeAmbiguous | app/services/identity.py:160-179 | when it does, a table of one building exactly at the radius gives an ambiguous answer with one candidate |
| IdentityLaws.DefaultRadiusCounts | app/config.py:47 | with the radius in use the outcome follows the number of candidates on every table |
| IdentityLaws.SixMillimetresMore | app/services/identity.py:139-164 | a radius of 15.006 m rounds up, and some table breaks the rule |
| IdentityLaws.TrustedIffCorroborated | app/services/identity.py:122-172 | a candidate may be attached to without asking exactly when a row of its identifier is in the wider window with a photo within Hamming distance 10, or in the narrow one at the address typed |
| IdentityLaws.ApproximateNeedsCorroboration | app/services/identity.py:150-172 | an area centroid attaches only to a record that such a row of the table corroborates |
| IdentityLaws.ApproximateExistingIff | app/services/identity.py:150-172 | with distinct identifiers, it attaches to a record exactly when that one, and no other, is corroborated |
| Identity.CreatedOnlyAlone | app/services/identity.py:122-192 | no record is created while an active one is in the pin's window |
| Identity.NoDuplicateWithinWindow | app/services/identity.py:102-245 | over every run, no record the endpoint created had an earlier one in its own window |
| PerceptualHash.Dct1D | app/services/media.py:80-94 | the inner product with every basis row |
| PerceptualHash.ComputeHash | app/services/media.py:106-135 | row pass, column pass, corner, median and packing give the hash of the flags |
| PerceptualHash.PackBits | app/services/media.py:131-135 | the number whose binary digits are the flags |
| HashLaws.DigitsOfHash | app/services/media.py:106-135 | the sixteen digits, from the pixels and the basis alone: a bit is set exactly when its coefficient, a double sum, exceeds the value that ranks in the middle of the other 63 |
| HashLaws.BitsOfHash | app/services/media.py:106-135 | the same for a corner of any size, of the number the text is |
| CosineBasis.RowsSumToZero | app/services/media.py:66-77 | every row of the cosine basis but the first sums to zero, by the product-to-sum law, the zeros of the sine and its sign on the first quarter |
| CosineBasis.BasisEntry | app/services/media.py:66-77 | entry i of row k is the cosine of (2i + 1) * k * pi / 2n |
| CosineBasis.LightingKeepsFlags | app/services/media.py:66-135 | with the basis the hash uses, scaling by a > 0 and adding c leaves every flag but the first |
| CosineBasis.LightingInvariance | app/services/media.py:66-135 | so the published texts are at most 1 apart and still the same building |
| NegativeImage.NegativeFlips | app/services/media.py:106-135 | with the contrast reversed, exactly the bits after the first whose coefficient is not the median flip |
| NegativeImage.NegativeIsAnotherBuilding | app/services/media.py:66-135 | with the cosine basis, a photo white in one corner and its negative are at least 55 bits apart: two buildings |
| PerceptualHash.AtMostHalfSet | app/services/media.py:120-135 | at most 32 of the 64 bits are set, and the text parses back to them |
| Phash.DistanceIsMetric | app/core/phash.py:21-34 | symmetric, zero only between texts of one number, triangle inequality |
| Phash.DistanceOfFormatted | app/core/phash.py:21-34 | on formatted hashes it counts differing bits |
| Phash.ComparableIff | app/core/phash.py:21-34 | hashes can be compared exactly when they are as long as each other and all hexadecimal digits |
| Bits.DifferencesAre | app/core/phash.py:21-34 | the count used for the distance is the number of positions where two lists of bits differ |
| Phash.SameBuildingIff | app/core/phash.py:21-41 | the distance is the number of bits in which the digits differ, and it is one building exactly when that is at most the threshold |
| Scoring.AggregateProperty | app/core/scoring.py:92-133 | the accumulator loops compute the weighted means as sums over the included reviews |
| AggregateLaws.HeadlineIs | app/core/scoring.py:92-133 | the headline is the weighted mean of the reviews' own means, to two decimals, with weights told from anniversaries and verification; the numbers counted and left out |
| AggregateLaws.BarIs | app/core/scoring.py:92-133 | a bar is the weighted mean of the ratings given for it, and is there exactly when a counted review gives one |
| Scoring.SelectIncluded | app/core/scoring.py:104-110 | reviews before a management change are dropped and counted |
| Scoring.Accumulate | app/core/scoring.py:115-127 | the four accumulators are the four sums |
| Scoring.AddRatings | app/core/scoring.py:123-127 | one review adds its weight and weighted rating to the dimensions it rates |
| ScoringLaws.MonthsBetweenCountsAnniversaries | app/core/scoring.py:60-65 | an age of m months: the m-th monthly anniversary has come, the next has not |
| ScoringLaws.YetToCome | app/core/scoring.py:58-66 | a date still to come is no months old |
| ScoringLaws.WeightFallsWithAge | app/core/scoring.py:50-81 | age never adds weight; verification multiplies it by 1.5 |
| ScoringLaws.WeightByAnniversary | app/core/scoring.py:50-81 | 1 until thirteen months have passed, 0.75 until twenty-five, 0.5 until thirty-seven, then 0.25; times 1.5 when verified |
| ScoringLaws.Exchange | app/core/scoring.py:115-132 | summing over dimensions then reviews is summing over reviews then dimensions |
| ScoringLaws.UnroundedHeadlineIsMean | app/core/scoring.py:129-132 | unrounded, the headline is the mean of the ten bars |
| ScoringLaws.HeadlineAgreesWithBreakdown | app/core/scoring.py:92-133 | rounded, they differ by at most 0.01 |
| ScoringLaws.PartialRatingsDisagree | app/core/scoring.py:68-73 | two partial reviews for which they differ by 1 |
| PartialLaws.AlwaysAgreesIffBalanced | app/core/scoring.py:68-133 | unrounded, headline and mean of the bars agree for every choice of ratings of a pattern exactly when the pattern is balanced |
| PartialLaws.SameDimensionsAgree | app/core/scoring.py:68-133 | as it is when all reviews rate the same dimensions |
| ScoringLaws.BarsShown | app/core/scoring.py:123-133 | a bar is shown for exactly the dimensions some counted review rates |
| ScoringLaws.OrderIrrelevant | app/core/scoring.py:92-133 | the order of reviews does not matter |
| ScoringLaws.ScoresOnScale | app/core/scoring.py:92-133 | headline and bars lie in 1 to 5; no headline exactly when no review counts |
| ScoringLaws.RaisingNeverLowers | app/core/scoring.py:92-133 | raising ratings lowers neither the headline nor any bar |
| PlatformService.Tables.SignIn | app/services/auth.py:45-54 | a number's first verified code creates its account |
| StepLaws.SignInIs | app/services/auth.py:45-54 | a known number changes nothing; an unknown one opens a tenant's account with no name and no reviews |
| StepLaws.AdminsFromStart | app/db/models.py:151-161 | over every run, who is an administrator is who was one at the start |
| PlatformService.Tables.ConfirmPhoneChange | app/api/v1/users.py:313-323 | an account moves to a number nobody else holds |
| StepLaws.ChangePhoneIs | app/api/v1/users.py:313-323 | only the number of an open account changes, and only to one nobody else holds |
| PlatformService.Tables.DeleteMyAccount | app/api/v1/users.py:170-211 | identity scrubbed, reviews anonymised or withdrawn, exactly the account's photos, saved properties and watches deleted, nothing recomputed |
| StepLaws.CloseIs | app/api/v1/users.py:170-211 | what closing an account changes, field by field, and when it is refused |
| PlatformService.Tables.DeletePhotos | app/api/v1/users.py:188-197 | the loop deletes exactly the account's photos |
| PlatformService.Tables.WithdrawAll | app/api/v1/users.py:176-184 | the loop touches exactly the account's own reviews |
| PlatformService.Tables.SubmitReview | app/services/reviews.py:96-155 | the new review is queued, its author's count grows, the property is recomputed |
| StepLaws.SubmitIs | app/services/reviews.py:96-155 | a submission is accepted exactly for an open account, ten ratings and a known property; the new review says what was sent and waits for a moderator |
| PlatformService.Tables.RecomputePropertyScores | app/services/reviews.py:158-208 | the property's cache becomes the aggregate of its approved reviews, and its rent that of the latest tenancy among them, if any reports one |
| CacheLaws.ScoresListed | app/services/reviews.py:158-200 | the scores aggregated are those of the property's approved reviews, in the order of their ids |
| CacheLaws.FiguresCount | app/services/reviews.py:185-201 | the numbers shown are how many approved reviews there are and how many of them are verified; a dimension nobody rates shows 0 |
| PlatformService.Tables.OwnEditableReview | app/api/v1/reviews.py:186-219 | not found, window closed, replied to, or editable, in that order |
| PlatformService.Tables.EditMyReview | app/api/v1/reviews.py:222-247 | only an editable review is amended |
| PlatformService.Tables.UpdateReview | app/services/reviews.py:227-266 | only the fields sent change; the review leaves publication; the property is recomputed |
| PlatformService.Tables.AmendContent | app/services/reviews.py:236-250 | the amended words |
| StepLaws.EditIs | app/services/reviews.py:227-266 | which edits are accepted; each part then says what was sent for it or what it said, the review waits again, and nothing else changes |
| StepLaws.ReviewSaysLastSent | app/services/reviews.py:227-266 | over every run, each part of a review is what its author last sent for it |
| PlatformService.Tables.DeleteMyReview | app/services/reviews.py:269-281 | the review is gone, its author's count falls, never below zero |
| StepLaws.DeleteIs | app/services/reviews.py:269-281 | which deletions are accepted, and that nothing but the review, its author's count and the figures of its property changes |
| PlatformService.Tables.ModerateReview | app/api/v1/admin.py:216-258 | an administrator's decision, a note required except to approve, and its row in the record with the status before |
| StepLaws.ModerateIs | app/api/v1/admin.py:216-258 | which decisions are accepted; the status becomes the one named, and nothing else of the review changes |
| PlatformService.Tables.AddOwnerResponse | app/api/v1/responses.py:46-107 | the guards in order; the stripped reply is stored |
| StepLaws.ReplyIs | app/api/v1/responses.py:46-107 | which replies are accepted, from whom, and what they leave |
| PlatformService.Tables.ClaimProfile | app/api/v1/agents.py:135-192 | a pending claim, new or rewritten; claimed agents and declined claims are refused |
| StepLaws.ClaimProfileIs | app/api/v1/agents.py:135-192 | a claim is new, rewritten, or refused because the agent is claimed or the claim was declined |
| PlatformService.Tables.DecideClaim | app/api/v1/admin.py:355-411 | approving binds the claimant's number to the agent; decided claims are refused |
| StepLaws.DecideClaimIs | app/api/v1/admin.py:355-411 | approving binds the agent to the number its claimant has now and keeps all else; every refusal and its reason |
| ClaimLaws.ClaimedIffOneApproved | app/api/v1/admin.py:374-411 | in every reachable state an agent is claimed exactly when one claim on it is approved, never two; one claim per person and agent |
| ClaimLaws.DecisionsAreFinal | app/api/v1/agents.py:151-192 | decided claims never change again, nor does a claimed agent's number |
| ClaimLaws.ClaimedNumberIsClaimants | app/api/v1/admin.py:389-397 | a claimed agent's number is the one its claimant had when approved |
| ClaimLaws.OneVoicePerReview | app/api/v1/responses.py:70-94 | besides administrators at most one account may answer a review: the one now holding that number |
| ClaimLaws.BoundIffClaimed | app/api/v1/admin.py:389-397 | over every run, an agent is claimed exactly when an approval has bound a number to it |
| ClaimLaws.VoiceIff | app/api/v1/responses.py:70-94 | over every run, an account speaks for a review's agent exactly when it now holds the number bound to that agent |
| ClaimLaws.VoicePasses | app/api/v1/responses.py:70-94 | from the approval on the voice goes with the number: to whichever open account holds it, and to nobody while none does |
| ClaimLaws.ResolveFinds | app/services/reviews.py:43-54 | a name finds its one agent whatever case and margins, and makes one only when there is none |
| ClaimLaws.NamesStayDistinct | app/services/reviews.py:43-54 | so no run makes a second agent of the same normalised name |
| ReviewLaws.StepGoverned | app/services/reviews.py:227-281 | words change or go only by their author's hand inside the window before a reply; only a moderator publishes; only the entitled reply |
| ReviewLaws.UnpublishingExplained | app/api/v1/admin.py:223-241 | a public review leaves public view only by its author's hand or by a moderator who says why |
| ReviewLaws.PublishedIsApproved | app/api/v1/admin.py:240-258 | over every run, what is public or answered says what a moderator last approved |
| ReviewLaws.VisibleIff | app/api/v1/reviews.py:160-173 | anyone sees what is approved; authors also see their own while it waits or is sent back |
| ReviewLaws.StrangersSeeApproved | app/api/v1/reviews.py:160-173 | so does whatever anyone but its author can see |
| ReviewLaws.ReplyFreezes | app/api/v1/reviews.py:208-219 | once answered, a review stays and never says anything else |
| ReviewLaws.ReplyIsFinalIff | app/api/v1/responses.py:96-107 | a second reply is refused exactly when the first was not blank |
| ReviewLaws.BlankReplyIsReplaced | app/api/v1/responses.py:96-107 | twenty spaces, then another reply: both accepted |
| ReviewLaws.WindowCloses | app/services/reviews.py:211-224 | forty-eight hours after posting, a review stays as it is in every run |
| ReviewLaws.ClosedRecordStands | app/api/v1/users.py:170-211 | after an account is closed its reviews stay, word for word, and the account never comes back |
| ClosureLaws.FormerTenantStays | app/api/v1/users.py:181-184 | the reviews an account leaves behind are anonymous and by "Former tenant" in every later state |
| ClosureLaws.WithdrawnPublicIff | app/api/v1/users.py:176-180 | those it withdraws are public exactly when the last decision on them since was to approve, with the name shown before |
| ClosureLaws.PublicAgainIff | app/api/v1/users.py:176-180 | one of them is ever public again exactly when some moderator approves it later |
| ClosureLaws.OldNameIsBack | app/api/v1/admin.py:240-241 | a run in which that happens |
| TrailLaws.TrailGrows | app/api/v1/admin.py:243-253 | the record of decisions keeps every row, whatever happens to the review |
| TrailLaws.RowsAreTruthful | app/api/v1/admin.py:216-253 | each row is a decision some administrator took, of the status the review then had, with a reason unless it approves |
| TrailLaws.PublicHasRow | app/api/v1/admin.py:240-253 | in every reachable state the last row about a public review is an approval, and about one sent back a request for edits |
| ReviewLaws.ReviewCountIsOwned | app/services/reviews.py:144-155 | in every reachable state an account's count is the number of reviews it owns |
| CacheLaws.CacheIsAggregateIff | app/services/reviews.py:158-208 | after any run a cache is the aggregate of its approved reviews as of its last recompute, exactly when no account closed since took approved reviews with it |
| ClosureLaws.LeavingMakesStale | app/api/v1/users.py:176-184 | a run after which it is not: a review submitted, approved, and withdrawn with its author's account |
| ClosureLaws.SomeCacheGoesStale | app/api/v1/users.py:176-184 | such a run from one administrator, one tenant and one property |
| CacheLaws.CacheIsLastAggregate | app/services/reviews.py:158-208 | in every run a cache is the aggregate of what was approved right after its last recompute |
| CacheLaws.LatestRentedIs | app/services/reviews.py:202-206 | the rent taken is of the approved review that reports one and started latest, the first posted of those that started that day; none is taken exactly when none reports one |
| CacheLaws.RentIsLast | app/services/reviews.py:202-206 | in every run a property shows the rent taken at the last recompute that found one |
| CacheLaws.NeverStale | app/api/v1/users.py:176-184 | no cache goes stale when no closing account withdraws its reviews |
| CacheLaws.WithdrawnScores | app/api/v1/users.py:176-180 | withdrawing removes the account's approved reviews and no other |
| CacheLaws.ShownScoresAgree | app/services/reviews.py:190-201 | in every run, withdrawals included, the headline shown lies in 1 to 5, is missing exactly when no review was counted, and is within 0.01 of the mean of the bars beside it |
| Address.Normalise | app/core/address.py:58-82 | the key of the text |
| Address.NormaliseLoop | app/core/address.py:66-82 | the same for any vocabulary, token by token |
| Address.NormaliseIdempotent | app/core/address.py:58-82 | normalising twice is normalising once, on every string |
| Address.NormaliseCharacterised | app/core/address.py:58-88 | the key is its tokens one space apart, none of them noise or an abbreviation |
| Address.KeyOfParts | app/core/address.py:58-82 | at white space or one of six punctuation marks an address falls into parts whose keys are put side by side |
| Address.KeyOfWord | app/core/address.py:69-82 | the key of a word between them: nothing if it is noise, else what it stands for, in lower case |
| Address.TablesAreSettled | app/core/address.py:20-52 | no expansion is itself noise or abbreviated |
| Places.LocalArea | app/api/v1/places.py:104-128 | the first recognised area of greatest normalised length, or none when none is recognised |
| Places.RanksAre | app/api/v1/places.py:108-128 | an area ranks by the length of its key when its tokens stand together in the query, and not at all otherwise |
| Places.RecognisedIffBlock | app/api/v1/places.py:114-125 | the padded-substring test holds exactly when the area's tokens are a contiguous block of the query's |
| Places.RecognitionInLagos | app/api/v1/places.py:114-125 | the same with the published vocabulary |
| Search.TailIff | app/services/opendata.py:451-453 | what the house-number pattern's tail matches: digits, then at most one letter |
| Search.HouseNumberIff | app/services/opendata.py:449-453 | a house number is a number with at most one letter, or "#", "no" or "no." in any case before what may be one |
| Search.DropNumbers | app/services/opendata.py:449-454 | what is left starts with no house number, and everything before it is one |
| Search.StripHouseNumber | app/services/opendata.py:447-455 | leading house numbers go, unless nothing else is left |
| Search.SplitStreetAndArea | app/services/opendata.py:458-483 | the splits, in order |
| Search.StartsInOrder | app/services/opendata.py:474-481 | an area starts at every place that is no street word and not followed by numbers only, and nowhere else |
| Search.SplitsRejoin | app/services/opendata.py:458-483 | each split puts the stripped address back together, areas strictly longest first |
| Search.AlreadySorted | app/services/opendata.py:482-483 | the closing sort changes nothing |
| Search.AddressVariants | app/services/opendata.py:486-523 | the variants, in order |
| SearchLaws.QueryWordsIff | app/services/opendata.py:472 | the words of an address are what lies between its commas and white space |
| SearchLaws.FormIff | app/services/opendata.py:502-513 | the forms are exactly all the words, the words without leading house numbers, their first few as a street and the rest as an area, wherever an area may start |
| SearchLaws.VariantIff | app/services/opendata.py:502-523 | exactly the forms of three characters or more that repeat no more precise one are tried |
| Search.DropRepeats | app/services/opendata.py:515-523 | duplicates but for case and short fragments go |
| Search.VariantsCharacterised | app/services/opendata.py:486-523 | distinct whatever the case, precise ones first, and each form left out has a kept one no less precise |
| Search.GeocodeProgressive | app/services/opendata.py:526-584 | the search's answer, for any street-type words |
| Search.GeocodeAddress | app/services/opendata.py:424-444 | the same with the published words |
| Search.ResolveArea | app/services/opendata.py:546-561 | the area's hits, and the anchor |
| Search.FirstMatch | app/services/opendata.py:563-580 | the first exact or street form with usable hits |
| Search.NearIsNear | app/services/opendata.py:568-579 | the hits kept are exactly those within 3,500 m of the anchor |
| Search.SearchCharacterised | app/services/opendata.py:526-584 | exact, street, area or none exactly when that is the most precise form with hits, from the first such form, streets only within 3,500 m of the anchor |
| SearchLaws.AnswerIs | app/services/opendata.py:526-584 | the answer from the words, the street types and the geocoder alone: the anchor, the precision, the form that answers and which of its hits, in order |
| SearchLaws.AreaAnswerIff | app/services/opendata.py:546-584 | it is an area exactly when no form but areas can answer and some area that is not the street over again, of three characters or more, has hits |
| SearchLaws.NameTwiceIsLost | app/services/opendata.py:515-523 | of a name said twice only the street is tried: with an anchor far from it nothing is answered although the area has hits |
| Transit.TransitNear | app/services/opendata.py:279-319 | nearest first, then de-duplicated |
| Transit.Dedupe | app/services/opendata.py:305-319 | the greedy loop |
| TransitList.ListIs | app/services/opendata.py:279-319 | the list from the elements: the stop each makes, nearest first, and each kept unless an earlier one kept has its name, whatever the case and margins, or its kind within 120 m |
| Transit.TransitCharacterised | app/services/opendata.py:301-319 | sorted, names distinct, same kinds 120 m apart, and each stop left out has a kept one no farther that stands for it |
| Transit.OneUnnamedPerKind | app/services/opendata.py:296-313 | at most one unnamed stop of a kind is listed |
| TransitLaws.NearestKeptIff | app/services/opendata.py:301-319 | the nearest of each name are all listed, and are then the whole list, exactly when none of them is on top of a farther one of its kind |
| TransitLaws.UnnamedListedIff | app/services/opendata.py:296-319 | then an unnamed stop is listed exactly when it is the nearest unnamed one of its kind |
| TransitLaws.NamedStopLost | app/services/opendata.py:310-316 | an unnamed stop at 10 m hides stop "A" at 20 m |
| TransitLaws.UnnamedStopLost | app/services/opendata.py:296-309 | of two unnamed stops 490 m apart and with nothing else near, the farther is missing |
| Metrics.Metrics.Observe | app/core/observability.py:105-115 | every counter stays the count its name says over the log of observations |
| Metrics.Metrics.Place | app/core/observability.py:109-114 | one more in the first bucket whose edge is not exceeded |
| Metrics.Metrics.Cumulative | app/core/observability.py:133-149 | the total at an edge is the number of observations at most that edge; the last is the number of calls |
| Metrics.CountsAre | app/core/observability.py:105-149 | the counts are numbers of observations: of that route, with that status, that fast |
| Metrics.TotalsRise | app/core/observability.py:133-149 | the totals never fall |
| Metrics.Metrics.RequestsAddUp | app/core/observability.py:105-107 | a route's request counters over its statuses add up to its calls |
| Rounding.Round2Is | app/core/scoring.py:120-131 | two decimals: the nearest hundredth, and of two equally near the even one |
| Sorting.SortPlaces | app/services/identity.py:85 | the sort is a stable permutation |
| Tokens.WordsIff | app/services/opendata.py:472 | the words of a text are the one way to lay it out as words and gaps |
| Tokens.StripIff | app/core/property_id.py:62-64 | stripping leaves what is between the white space at the ends |
| Text.SpacesAre | app/services/opendata.py:472 | white space is twenty-nine characters, by their numbers |

## Left out

- HTTP, request validation beyond what is named, database sessions, tokens, SMS, object storage, push and logging: each step is one transaction on the tables.
- PBKDF2, HMAC and random codes: hashes are opaque texts; a hash of a code is not empty.
- Redis: every increment is atomic with the in-process store's semantics, and one clock serves wall and monotonic time. The read and the clearing in a verification are one step, so two guesses racing between them are not modelled.
- Numbers are exact reals: geohash midpoints are exact in binary64 at the precisions used, but weights, means and the cosine transform are rounded there.
- Decoding, greyscale conversion, resizing and clipping of a photo: the hash starts from the matrix of brightness values.
- Identity.QueryNearby: how long a degree is on the sphere is not modelled. `NearbyLaws.FindsThoseNear` holds for any length; with the sphere's, a little under 111,320 m, rows at the very edge of the disc can lie outside the box.
- Case folding, digits and letters are ASCII's; `int` of a hash does not accept prefixes, signs or underscores.
- Minting.QuerySelectsBucket: LIKE distinguishes case, as every identifier is upper-case.
- PlatformService.Tables.SubmitReview: the verdict of the text, rate and duplicate checks is a parameter; the end of the tenancy, fees and the reason for leaving, which nothing modelled reads, are not kept.
- The order of rows a query without ORDER BY gives: reviews are read in the order of their ids, which decides between tenancies that start on one day.
- The alerts sent after an approval, and the foreign key from the record of decisions to reviews: deleting a review that was decided on succeeds, as in a database that does not enforce it.
- PlatformService.Tables.AddOwnerResponse: the content check only changes the message returned, so it is left out.
- Removing the files of deleted photos from object storage; the requests that add photos, saved properties and watches.
- Metrics.Metrics.Cumulative: the text format, the exception counter and the lock are not modelled.
- Search.GeocodeProgressive: the geocoder is a function; its cache, courtesy limiter and network are not part of it.
- Listing, pagination, the moderation queues, commute, saved, watch and reference-data endpoints: thin reads and writes that would add only easy members.
