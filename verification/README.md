# A verified model of trade-guard-core

This project models the paper-only core of trade-guard-mcp and proves what it is for: a durable,
idempotent, cash-safe order protocol over a tamper-evident log whose values survive being written
and read back.

- `Calendar`, `Timestamp`: proleptic Gregorian dates, and the UTC part of section 5.6 of RFC 3339.
- `Digits`, `FixedDecimal`: the decimal-string grammar and checked arithmetic on a scaled i128.
- `Diagnostics`: which error every refused timestamp or decimal gets.
- `Sha256`, `HexText`: SHA-256 against FIPS 180-4, and its text form.
- `Sha256Standard`, `KnownDigest`: what the standard says of its constants, and the digest of "abc".
- `HashChain`, `AuditLog`: hash-chained rows, the verifier and the append-only store.
- `Records`, `PaperMarket`, `Ledger`, `Policy`: the values, quotes, books and gates of the protocol.
- `Execution`, `Protocol`, `CashSafety`, `Runs`, `RunLaws`: one call of the protocol, what a call
  keeps, and the laws of whole runs.
- `Limits`: an input for each way in which a promise of the code or its comments fails.

Code that loops or updates state is a method or a class here and is proved against a function; the
laws are proved about those functions. `AuthorizeAndSubmitPaperOrder` mutates an account, an order
and a store and is proved to take one `Step`; runs are sequences of steps.

What the program cannot see is a parameter, so each law holds for every choice of it: the hash (any
function with 71-byte results), the JSON codec, the f64 quotient behind average prices, the clock,
the quotes and the venue registry of each call. Collision resistance is never assumed: where it
would matter, the proof hands out the two colliding messages. The codec is only ever required to
restore records whose decimals and timestamps survive their own text (`Records.Faithful`), and for
the exact resubmission law to refuse the others (`Records.Exact`); `Records.StorableLeaves` shows
which those are.

What the code does not promise, each with its exact condition and with inputs in `Limits`:

- Cash can go negative in three ways. A market buy is estimated at its own limit price when it
  carries one, although the simulator ignores that price; an estimate that overflows counts as
  zero; and a mid price pinned below the half spread gives a negative bid, at which a market sale
  takes cash. `CashSafety.CashSafeExactly` gives the exact condition at any quotes.
- A fill adjusts cash by its notional (account.rs:92) only if the product does not overflow: else
  the position moves and the cash does not. `CashSafety.FillMovesCashExactly` gives the condition
  for a call, `RunLaws.CashBalances` for a run.
- The comment on `reserved_cash` calls it never negative and never larger than cash
  (account.rs:43-45). Between the fill and the release of one call it can be either;
  `CashSafety.ReservedInsideCall` says exactly when. For estimates that are not negative the comment
  holds right after reserving. Between calls nothing is reserved, so it holds exactly when cash is
  not negative.
- A resubmission is promised the original outcome (execution.rs:5-10). Its record has to be read
  back, which fails for a clock or an instrument's expiry outside the years 0000 to 9999, and for a
  limit price, a fill or one of the instrument's decimals (strike, contract multiplier, tick size,
  lot size) at i128::MIN. Then the answer is an error, and still no order is placed.
  `Runs.ResubmissionGetsOriginal` and `Runs.StorableExactly` give the exact condition.
- A negative estimate reserved on top of a nearly full negative reservation is not reserved, yet is
  released; `Protocol.ReservationRestored` gives the exact condition.

## Model

| member | source | states |
|---|---|---|
| `Calendar.CivilFromDaysIsRightInverse` | crates/trade-guard-core/src/utc_timestamp.rs:106-117 | every integer is the day number of the date `CivilFromDays` gives for it, and that date is valid (month 1..12, day within the month) |
| `Calendar.CivilFromDaysIsLeftInverse` | crates/trade-guard-core/src/utc_timestamp.rs:95-117 | every valid date of any year, negative ones included, comes back from its day number |
| `Calendar.NextDayAddsOne` | crates/trade-guard-core/src/utc_timestamp.rs:80-103 | turning one calendar page, read off the month lengths alone, adds exactly one to the closed-form day number |
| `Calendar.CivilFromDaysCounts` | crates/trade-guard-core/src/utc_timestamp.rs:93-117 | the closed forms agree with counting pages from 1970-01-01, forward and back, for every integer |
| `Calendar.DayNumbersOrderDates` | crates/trade-guard-core/src/utc_timestamp.rs:95-103 | a date is earlier than another exactly when its day number is smaller |
| `Timestamp.FromUnixKeepsInstant` | crates/trade-guard-core/src/utc_timestamp.rs:124-130 | `from_unix` keeps the instant exactly when the carried seconds do not pass the end of i64 |
| `Timestamp.FromUnixExact` | crates/trade-guard-core/src/utc_timestamp.rs:124-130 | otherwise the carried seconds wrap around once, and the nanoseconds are always what is left of a second |
| `Timestamp.DiffExact` | crates/trade-guard-core/src/utc_timestamp.rs:162-166 | a difference is the whole seconds between, or the end of i64 it passes |
| `Timestamp.ParseByScanning` | crates/trade-guard-core/src/utc_timestamp.rs:171-284 | the indexed parser, with no access out of bounds, returns what the parsing function returns, error kinds included |
| `Timestamp.ScanTail` | crates/trade-guard-core/src/utc_timestamp.rs:229-284 | the fraction loop and the designator branch agree with the parsing function from byte 19 on |
| `Timestamp.ScaleFraction` | crates/trade-guard-core/src/utc_timestamp.rs:239-246 | the two accumulation loops give the fraction in nanoseconds and never overflow u32 |
| `Timestamp.ToRfc3339` | crates/trade-guard-core/src/utc_timestamp.rs:289-305 | the printer with its zero-popping loop writes what the printing function says |
| `Timestamp.ParseOfText` | crates/trade-guard-core/src/utc_timestamp.rs:168-284 | every text of the UTC grammar of section 5.6 of RFC 3339 is accepted and read as the instant it denotes |
| `Timestamp.ParseExact` | crates/trade-guard-core/src/utc_timestamp.rs:168-284 | a text is accepted with result t exactly when it is a well-formed text that denotes t; `Overflow` is never reported |
| `Timestamp.RoundTrip` | crates/trade-guard-core/src/utc_timestamp.rs:289-305 | printing then parsing restores an instant exactly when -62167219200 <= secs < 253402300800, and outside that range the parser's error is named |
| `Timestamp.RenderOfDenotes` | crates/trade-guard-core/src/utc_timestamp.rs:286-305 | printing what a text denotes gives that text with capital letters, `Z` and trimmed fraction zeros |
| `Timestamp.RenderOfParse` | crates/trade-guard-core/src/utc_timestamp.rs:171-305 | for every accepted text, parsing the printed result of parsing it gives the same instant |
| `Timestamp.RenderLayout` | crates/trade-guard-core/src/utc_timestamp.rs:286-305 | a printed instant of a four-digit year has hyphens, `T`, colons, `.` and `Z` where RFC 3339 puts them, and no zero before the `Z` of a fraction |
| `Timestamp.YearTextExact` | crates/trade-guard-core/src/utc_timestamp.rs:289-305 | any year prints as its digits, with a sign if negative, padded to four characters |
| `Diagnostics.TimestampError` | crates/trade-guard-core/src/utc_timestamp.rs:168-284 | which error every refused text gets: too short, else by the first byte off the layout, else the first field out of range, else the first fault of fraction or designator |
| `Diagnostics.DecimalError` | crates/trade-guard-core/src/decimal.rs:89-172 | which error every refused decimal gets, by its leading digits, what follows them and the digits after a point |
| `FixedDecimal.ParseByScanning` | crates/trade-guard-core/src/decimal.rs:92-172 | the scanning parser returns what the parsing function returns on every byte string, error kinds included |
| `FixedDecimal.ScanFraction` | crates/trade-guard-core/src/decimal.rs:120-139 | the fraction scan and the trailing-text check, from the end of the integer part |
| `FixedDecimal.ReadParts` | crates/trade-guard-core/src/decimal.rs:141-171 | the length, negative-zero and overflow checks give the value or the first error |
| `FixedDecimal.SumPlaces` | crates/trade-guard-core/src/decimal.rs:151-159 | the place-by-place sum is the fraction in units of 10^-8 |
| `FixedDecimal.ToDecimalString` | crates/trade-guard-core/src/decimal.rs:179-194 | the printer with its zero-popping loop writes the canonical numeral |
| `FixedDecimal.ParseExact` | crates/trade-guard-core/src/decimal.rs:89-172 | parsing succeeds exactly on the texts of -?(0\|[1-9][0-9]*)(\.[0-9]+)? with at most 8 places, no negative zero and a magnitude within i128; a grammar error is reported exactly when no numeral spells the text; `InvalidDigit` never is |
| `FixedDecimal.ReadIsExact` | crates/trade-guard-core/src/decimal.rs:150-171 | the raw value is exact: all digits read as one integer over 10^places equal raw over 10^8 |
| `FixedDecimal.RoundTrip` | crates/trade-guard-core/src/decimal.rs:174-194 | parsing a printed decimal gives it back, except for i128::MIN, which overflows |
| `FixedDecimal.RenderOfParse` | crates/trade-guard-core/src/decimal.rs:174-194 | printing a parsed numeral gives its zero-trimmed form, and parsing never yields i128::MIN |
| `FixedDecimal.MulMonotone` | crates/trade-guard-core/src/decimal.rs:206-210 | for a non-negative quantity a higher price never costs less, and the lower product fits if the higher one does |
| `FixedDecimal.MulCommutes` | crates/trade-guard-core/src/decimal.rs:206-210 | truncating multiplication, overflow included, is commutative |
| `FixedDecimal.AbsExact` | crates/trade-guard-core/src/decimal.rs:212-216 | the absolute value of every decimal but the minimum, which stays itself |
| `Prelude.TruncDivRounds` | crates/trade-guard-core/src/decimal.rs:206-210 | the quotient of the product leaves a remainder smaller than the divisor with the sign of the dividend |
| `Prelude.MachineBounds` | crates/trade-guard-core/src/decimal.rs:26-32 | the bounds used are those of 64 and 128 bit two's complement |
| `Sha256.Pad` | crates/trade-guard-core/src/sha256.rs:27-36 | the pushing loop yields the padding of section 5.1.1 of FIPS 180-4 |
| `Sha256.ZeroCountLeast` | crates/trade-guard-core/src/sha256.rs:31-33 | the number of zero bytes is the least that leaves room for the 64-bit length |
| `Sha256.PaddedEnds` | crates/trade-guard-core/src/sha256.rs:28-34 | below 2^61 bytes the last eight bytes denote the message length in bits |
| `Sha256.PaddingInjective` | crates/trade-guard-core/src/sha256.rs:27-36 | below 2^61 bytes the padded message determines the message |
| `Sha256.FillSchedule` | crates/trade-guard-core/src/sha256.rs:44-55 | the array filled by the two loops holds the message schedule W_t |
| `Sha256.RunRounds` | crates/trade-guard-core/src/sha256.rs:57-77 | the 64-round loop over the working variables computes the recursive rounds |
| `Sha256.CompressBlock` | crates/trade-guard-core/src/sha256.rs:43-87 | one block updates the hash array to the next hash value of section 6.2.2 |
| `Sha256.Sha256` | crates/trade-guard-core/src/sha256.rs:39-94 | the whole array-and-loop code computes the recursive digest of section 6.2.2 |
| `Sha256.Output` | crates/trade-guard-core/src/sha256.rs:89-93 | the output loop writes the eight words big-endian |
| `Sha256.ComputeCanonicalHash` | crates/trade-guard-core/src/sha256.rs:97-105 | the text form is `sha256:` and the hexadecimal digest |
| `Sha256.CanonicalHashInjective` | crates/trade-guard-core/src/sha256.rs:97-105 | two canonical hashes agree exactly when the digests do |
| `KnownDigest.HashOfAbc` | crates/trade-guard-core/src/sha256.rs:116-124 | worked out round by round, the canonical hash of the message abc is the text the standard and the repository's tests give |
| `Sha256Standard.ConstantsAreCubeRoots` | crates/trade-guard-core/src/sha256.rs:16-25 | every K is the first 32 bits of the fraction of the cube root of its prime |
| `Sha256Standard.PrimesInOrder` | crates/trade-guard-core/src/sha256.rs:16-25 | those primes are the first 64, in order, with none left out |
| `Sha256Standard.InitialHashIsSquareRoots` | crates/trade-guard-core/src/sha256.rs:12-14 | the initial hash value is the first 32 bits of the fractions of the square roots of the first eight primes |
| `Sha256Standard.BlocksInOrder` | crates/trade-guard-core/src/sha256.rs:43-87 | each block takes the hash value to the next as if it stood alone |
| `Sha256Standard.ChChooses` | crates/trade-guard-core/src/sha256.rs:60 | Ch takes each bit from the second word where the first is set, and from the third elsewhere |
| `Sha256Standard.MajVotes` | crates/trade-guard-core/src/sha256.rs:67 | Maj takes each bit as at least two of its words have it |
| `HexText.HexAt` | crates/trade-guard-core/src/sha256.rs:97-105 | byte i is written at places 2i and 2i + 1, upper half first, in lower-case digits |
| `HashChain.VerifyExact` | crates/trade-guard-core/src/audit.rs:251-283 | the report is the only correct one: no failure exactly when every row links and hashes, else the index of the first bad row and which check broke there |
| `HashChain.ReportUnique` | crates/trade-guard-core/src/audit.rs:244-250 | at most one report is correct for a log |
| `HashChain.VerifyStopsAt` | crates/trade-guard-core/src/audit.rs:263-275 | a linked prefix followed by a bad row is reported at that row with the right failure |
| `HashChain.AppendLinked` | crates/trade-guard-core/src/audit.rs:182-189 | a row linked to the head keeps the log linked |
| `HashChain.FrameInjective` | crates/trade-guard-core/src/audit.rs:187 | the framing `json\|prev` is injective on links of equal length, whatever the payload contains |
| `HashChain.FrameText` | crates/trade-guard-core/src/audit.rs:187 | for ASCII text the hashed bytes are the payload, a bar and the link |
| `KnownDigest.GenesisIs` | crates/trade-guard-core/src/audit.rs:38-39 | the anchor, spelled out |
| `HashChain.TamperEvidence` | crates/trade-guard-core/src/audit.rs:11-16 | two verified logs with the same head have the same payloads and hashes, or the proof yields a collision or a preimage of the anchor |
| `HashChain.LinksDiffer` | crates/trade-guard-core/src/audit.rs:182-187 | no hash occurs twice along a linked log, or the hash is broken |
| `HashChain.DeletionDetected` | crates/trade-guard-core/src/audit.rs:12-16 | deleting any rows but a suffix is reported as `ChainBroken` at the gap, or the hash is broken |
| `HashChain.RearrangementDetected` | crates/trade-guard-core/src/audit.rs:11-16 | however the rows of a linked log are reordered, dropped or repeated, the result passes exactly when only a suffix was dropped, or the hash is broken |
| `HashChain.InsertionDetected` | crates/trade-guard-core/src/audit.rs:98-102 | inserting any row before the last is reported there, or as `ChainBroken` at the row it pushed back, or the hash is broken |
| `HashChain.SharedLinkSharesPast` | crates/trade-guard-core/src/audit.rs:182-189 | two linked logs that share a hash share everything before it and stand at the same length, or the hash is broken |
| `HashChain.EditDetected` | crates/trade-guard-core/src/audit.rs:269-275 | editing any payload is reported as `PayloadTampered` at that row, or yields a collision |
| `HashChain.ReplacementDetected` | crates/trade-guard-core/src/audit.rs:11-16 | replacing any row before the last by one with other hashed columns is reported there, or as `ChainBroken` at the next row, or the hash is broken |
| `HashChain.SuffixRemovalPasses` | crates/trade-guard-core/src/audit.rs:251-283 | the limit of the chain: every prefix of a linked log passes |
| `HashChain.VerdictIgnoresOtherColumns` | crates/trade-guard-core/src/audit.rs:253-278 | the verdict does not depend on event id, key or creation time |
| `AuditLog.AuditStore.Append` | crates/trade-guard-core/src/audit.rs:182-202 | success exactly when neither UNIQUE column collides; then one row is added, linked to the old head, and otherwise nothing changes |
| `AuditLog.AuditStore.VerifyIntegrity` | crates/trade-guard-core/src/audit.rs:251-283 | the loop returns the one correct report, and no failure exactly for linked tables |
| `AuditLog.FindKeyExact` | crates/trade-guard-core/src/audit.rs:208-218 | with distinct keys a lookup returns the decoded row of its key, or the decoding error |
| `AuditLog.FindKeyAbsent` | crates/trade-guard-core/src/audit.rs:208-218 | a lookup returns nothing exactly when no row has the key |
| `AuditLog.ListRecentExact` | crates/trade-guard-core/src/audit.rs:232-242 | listing returns the newest records, newest first, as many as the limit brought into 1..200 allows, and fails exactly when one of those rows, not an older one, cannot be read |
| `PaperMarket.PaperSimulator.SetQuote` | crates/trade-guard-core/src/providers.rs:76-78 | pinning a mid price replaces that instrument's and no other's |
| `PaperMarket.SyntheticMidIsCents` | crates/trade-guard-core/src/providers.rs:134-139 | the text built for a synthetic price always parses, to that many cents, between 50 and 250 |
| `PaperMarket.SyntheticMidExact` | crates/trade-guard-core/src/providers.rs:134-139 | that many cents are 5000 and the first four digest bytes, big-endian, modulo 20000 |
| `PaperMarket.Utf8CharExact` | crates/trade-guard-core/src/providers.rs:135 | the id is hashed in UTF-8: each character in the shortest form of section 3 of RFC 3629 |
| `PaperMarket.QuoteStraddlesMid` | crates/trade-guard-core/src/providers.rs:33-38 | bid and ask lie half a spread below and above the mid price, or on it where that overflows |
| `PaperMarket.SaneQuote` | crates/trade-guard-core/src/providers.rs:33-38 | a mid price that covers the half spread gives a quote neither negative nor crossed |
| `PaperMarket.DefaultIsSane` | crates/trade-guard-core/src/providers.rs:67-87 | under the default half spread that is so exactly when a pinned price, if any, is at least 0.005 |
| `PaperMarket.FillIsFair` | crates/trade-guard-core/src/providers.rs:92-126 | Buy and BuyToCover fill at the ask, Sell and SellShort at the bid; market orders always, limit orders exactly when marketable, no other type ever |
| `PaperMarket.LastProfileDecides` | crates/trade-guard-core/src/jurisdiction_venue.rs:105-111 | whatever was registered, the last profile of an instrument's venue alone decides its warning, by whole seconds; a venue never registered is unconfigured |
| `PaperMarket.SilentVenue` | crates/trade-guard-core/src/jurisdiction_venue.rs:189-204 | no warning exactly when there is no venue or its profile is registered and effective |
| `Ledger.AccountSnapshot.ApplyFill` | crates/trade-guard-core/src/account.rs:102-129 | updating cash and the position in place has the effect of the trade function on the whole account |
| `Ledger.TradeMovesHolding` | crates/trade-guard-core/src/account.rs:116-147 | a fill moves the holding of its own instrument, up for Buy and BuyToCover, down for Sell and SellShort, unless that overflows, moves no other, and keeps ids distinct |
| `Ledger.TradeChangesOnePosition` | crates/trade-guard-core/src/account.rs:116-128 | a fill in an instrument not held opens one position at the fill price, a fill in one held updates that position, and no other position or field changes |
| `Ledger.TradeKeepsFlatUnpriced` | crates/trade-guard-core/src/account.rs:136-173 | a fill of positive quantity keeps flat positions unpriced |
| `Ledger.OpposingFillPrice` | crates/trade-guard-core/src/account.rs:95-101 | an opposing fill keeps the average price while reducing, clears it on closing, and restarts it at the fill price on a flip |
| `Ledger.AddingFillPrice` | crates/trade-guard-core/src/account.rs:136-162 | a fill that adds to a position, or reopens a flat one, prices it at the f64 quotient of the cost of both, off by less than two units of 10^-8, by the new size; an overflowing product counts as nothing |
| `Ledger.PositionsRefineMap` | crates/trade-guard-core/src/account.rs:80-173 | after any positive fills from an empty account ids are distinct and flat positions unpriced, and a holding is the net of its fills, all along, exactly when no running net of it overflows |
| `Ledger.CashConservation` | crates/trade-guard-core/src/account.rs:92-114 | cash is the opening cash less the worth of the buys plus that of the sells, all along, exactly when no product and no running balance overflows |
| `Ledger.CashMovesExactly` | crates/trade-guard-core/src/account.rs:109-114 | one fill moves cash by its worth exactly when neither the product nor the new balance overflows, and otherwise moves none |
| `Ledger.SplitFillBound` | crates/trade-guard-core/src/account.rs:109-114 | filling in k parts at one price moves at most the cash that one fill moves, and at most k - 1 units of 10^-8 less, for buys and sales alike |
| `Ledger.WorkingOrder.ApplyFill` | crates/trade-guard-core/src/order.rs:91-119 | recording a fill in place has the effect of the fill function on the whole order |
| `Ledger.AverageFillPrice` | crates/trade-guard-core/src/order.rs:91-110 | the average fill price becomes the f64 quotient of everything paid, off by less than two units of 10^-8, by everything filled; an overflowing product counts as nothing |
| `Ledger.FilledQuantityIsSum` | crates/trade-guard-core/src/order.rs:91-119 | over non-negative fills the recorded fills are those applied, the filled quantity is their sum exactly when the sum is representable, and the order is then terminal exactly when the sum reaches its quantity |
| `Policy.PassingNotionalFits` | crates/trade-guard-core/src/policy.rs:156-161 | a non-negative notional that passes can be reserved without overflow or over-reservation |
| `Records.PermittingDecisions` | crates/trade-guard-core/src/policy_decision.rs:25-32 | which decisions let an order through, one by one |
| `Records.TerminalStates` | crates/trade-guard-core/src/order.rs:38-47 | which order states are final, one by one |
| `Execution.AuthorizeAndSubmitPaperOrder` | crates/trade-guard-core/src/execution.rs:65-204 | the call, updating account, order and store in the source's order, takes exactly one protocol step and returns its result |
| `Execution.RunGates` | crates/trade-guard-core/src/execution.rs:82-110 | the early returns, in order, give the refusal of the gate function |
| `Execution.WorkOrder` | crates/trade-guard-core/src/execution.rs:112-204 | reserving, filling and releasing in place yields the decision's account, outcome and order |
| `Execution.FillIfMarketable` | crates/trade-guard-core/src/execution.rs:169-183 | the fill is recorded on the order and applied to the account, or neither |
| `Execution.PersistAndReturn` | crates/trade-guard-core/src/execution.rs:206-227 | one record is appended and the fresh result returned, or the storage error |
| `Protocol.ReservationRestored` | crates/trade-guard-core/src/execution.rs:156-197 | on every exit path the reservation is as at entry, exactly unless a reserving buy's addition overflows; then the amount is released without having been reserved |
| `Protocol.ReserveAndReleaseExact` | crates/trade-guard-core/src/execution.rs:156-197 | reserving and releasing are exact where they fit, and leave the rest of the account alone |
| `Protocol.NothingStaysReserved` | crates/trade-guard-core/src/execution.rs:185-197 | with nothing reserved at entry nothing is reserved at exit, for any prices |
| `Protocol.ReservationWithinCash` | crates/trade-guard-core/src/execution.rs:156-166 | right after reserving a non-negative estimate, 0 <= reserved <= cash |
| `Protocol.DecisionIsReplay` | crates/trade-guard-core/src/execution.rs:172-183 | the account after a decision is the account before it with the fills of the decided order applied, the reservation aside |
| `Protocol.DecisionIsShaped` | crates/trade-guard-core/src/execution.rs:82-203 | allowed exactly with an acknowledged or filled order, `BlockedByRisk` exactly with a rejected one, otherwise no order |
| `Protocol.OnlyPaperTouchesTheAccount` | crates/trade-guard-core/src/trade_intent.rs:68-90 | mode by mode: Observe and Advisory are rejected, the two live modes blocked by operator control, none of them touches the account or places an order, and no refusal in a paper mode touches it |
| `Protocol.AllowedExactly` | crates/trade-guard-core/src/execution.rs:82-167 | an order is placed exactly when the mode asks for paper execution, the intent meets its rules, the evidence backs it, the account alias matches, and a buy's estimate can still be spent |
| `Protocol.OutcomeNamesFirstBroken` | crates/trade-guard-core/src/execution.rs:82-167 | every outcome is that of the first rule broken, of a list of eighteen with the decision and reason of each, or an allowance with exactly the venue's warning |
| `Policy.ValidationNamesFirstBroken` | crates/trade-guard-core/src/policy.rs:18-79 | validation refuses with the decision and reason of the first of nine rules broken |
| `Policy.EvidenceNamesFirstBroken` | crates/trade-guard-core/src/policy.rs:85-147 | the evidence check refuses with the reason of the first of five rules broken; the reason for quarantined records is never given |
| `Policy.WhitespaceExact` | crates/trade-guard-core/src/policy.rs:25-27 | a blank key is one of only the 25 White_Space characters |
| `Protocol.EstimateExact` | crates/trade-guard-core/src/execution.rs:136-150 | the estimate is the quantity times the order's own limit price or the quote's side, rounded toward zero, or nothing if the product overflows |
| `Protocol.OrderCarriesIntent` | crates/trade-guard-core/src/execution.rs:112-183 | every order carries its intent's fields, its ids are made from the key, and it has at most one fill, of the whole quantity, now, at the quote's side |
| `CashSafety.CoveredKeepsSolvent` | crates/trade-guard-core/src/execution.rs:131-183 | a buy whose estimate covers its fill, or a sale that brings in no negative amount, leaves a solvent account solvent, whatever the quotes |
| `CashSafety.UncoveredOverdraws` | crates/trade-guard-core/src/execution.rs:136-183 | any other submission that passes the gates overdraws an account the proof constructs |
| `CashSafety.CashSafeExactly` | crates/trade-guard-core/src/execution.rs:131-183 | at any quotes, exactly the covered submissions are safe for every solvent account |
| `CashSafety.GuardedIsCovered` | crates/trade-guard-core/src/execution.rs:131-150 | covered follows from what a caller can look at: a market buy with no limit price below the ask, a limit product that fits, a bid that is not negative for a market sale |
| `CashSafety.GuardedKeepsSolvent` | crates/trade-guard-core/src/execution.rs:131-183 | so a guarded submission never overdraws a solvent account |
| `CashSafety.SaneSaleIsGuarded` | crates/trade-guard-core/src/providers.rs:33-38 | at a mid price that covers the half spread only buys need a guard |
| `CashSafety.FillMovesCashExactly` | crates/trade-guard-core/src/account.rs:92-114 | an allowed order that fills moves cash by its worth exactly when nothing overflows; for a buy at no negative price with no negative cash that is when the product fits |
| `CashSafety.ReservedInsideCall` | crates/trade-guard-core/src/account.rs:43-45 | between fill and release the reservation of a solvent account is the estimate, and within cash exactly when the cash at entry covers fill and estimate together |
| `Limits.CheapMarketBuyOverdraws` | crates/trade-guard-core/src/execution.rs:136-146 | a concrete market buy with an ignored low limit price drives cash negative |
| `Limits.OverflowingEstimateOverdraws` | crates/trade-guard-core/src/execution.rs:147-150 | a concrete limit buy whose estimate overflows to zero drives an empty account negative |
| `Limits.NegativeBidSaleOverdraws` | crates/trade-guard-core/src/providers.rs:33-38 | a concrete market sale at a mid price below the half spread fills at a negative bid and drives cash negative |
| `Limits.HugeMarketBuyIsFree` | crates/trade-guard-core/src/account.rs:109-114 | a concrete guarded market buy whose product overflows is allowed without cash, moves the position and costs nothing |
| `Limits.ReservedBeyondCash` | crates/trade-guard-core/src/account.rs:43-45 | a concrete market buy after whose fill more is reserved than there is cash |
| `Limits.ReservedBelowZero` | crates/trade-guard-core/src/account.rs:43-45 | a concrete market buy with an ignored negative limit price that reserves less than nothing |
| `Limits.ReservationIsLost` | crates/trade-guard-core/src/execution.rs:156-197 | a concrete account and buy where the reservation at exit differs from that at entry |
| `Limits.LateBuyIsForgotten` | crates/trade-guard-core/src/execution.rs:74-80 | a concrete order under a clock of the year 10000 is answered with an error when resubmitted |
| `Limits.MinimumBidSaleIsForgotten` | crates/trade-guard-core/src/execution.rs:74-80 | so is a concrete sale that fills at i128::MIN, though its clock, quantity and pinned price can be read back |
| `Limits.MinimumLimitSaleIsForgotten` | crates/trade-guard-core/src/execution.rs:74-80 | and a concrete market sale that carries i128::MIN as the limit price it ignores |
| `Limits.UnreadableInstrumentIsForgotten` | crates/trade-guard-core/src/instrument.rs:49-80 | and a market buy of every instrument whose expiry or one of whose decimals cannot be read back, all else readable |
| `Limits.LateExpiryIsForgotten` | crates/trade-guard-core/src/instrument.rs:69-72 | in particular of one that expires in the year 10000, and of one struck at i128::MIN |
| `Runs.FreshStep` | crates/trade-guard-core/src/execution.rs:206-227 | a fresh key adds exactly one row, linked to the head, meets no constraint and returns the decision |
| `Runs.DuplicateStep` | crates/trade-guard-core/src/execution.rs:74-80 | a recorded key is answered from its row and changes nothing, whatever else is submitted |
| `Runs.StepKeepsTable` | crates/trade-guard-core/src/execution.rs:65-227 | any step keeps the table keyed and linked, adds the row of a fresh key and nothing else, and fails only on an unreadable row |
| `Runs.RunKeepsTable` | crates/trade-guard-core/src/execution.rs:61-64 | after any run the table is keyed and linked, passes the verifier, only grew, and no UNIQUE constraint was met |
| `Runs.RunKeepsLog` | crates/trade-guard-core/src/execution.rs:206-227 | after any clean run every record is readable, names its key and event id, and has the protocol's shape; no call erred |
| `Runs.RunIsIdempotent` | crates/trade-guard-core/src/execution.rs:5-10 | deleting every submission whose key is recorded or came earlier leaves the final account and log identical |
| `Runs.RecordedKeyIsAnswered` | crates/trade-guard-core/src/execution.rs:74-80 | a key recorded before the run gets its recorded answer wherever it is submitted |
| `Runs.StorableExactly` | crates/trade-guard-core/src/execution.rs:206-227 | the record a fresh submission leaves survives its own text exactly when the clock is within 0000..9999 and, past the gates, so is the instrument's expiry, and neither its decimals, nor the limit price, nor a placed order's fill price is i128::MIN |
| `Runs.RecordCarriesSubmission` | crates/trade-guard-core/src/execution.rs:206-227 | the record names the submission's key, intent and time, and holds what was decided |
| `Runs.ResubmissionIsReread` | crates/trade-guard-core/src/execution.rs:74-80 | in any run and under any codec, a resubmitted key gets the earlier answer if the key was recorded before, else what is read back of the first submission's record |
| `Runs.ResubmissionGetsOriginal` | crates/trade-guard-core/src/execution.rs:5-10 | if unreadable records are refused on reading, a resubmitted key gets the outcome and order of its first submission, marked as a duplicate, exactly when that record can be read back, and an error otherwise |
| `Runs.ReadableRecordIsRemembered` | crates/trade-guard-core/src/execution.rs:5-10 | under any codec that restores readable records, a readable record is enough for that |
| `RunLaws.LedgerIsReplay` | crates/trade-guard-core/src/execution.rs:172-204 | for any submissions and any codec, a run appends exactly the records of its fresh keys, and the account is the account before with their fills applied in log order, the reservation aside |
| `RunLaws.LedgerIsReadFromLog` | crates/trade-guard-core/src/execution.rs:172-204 | when those records can be read back, the decoded log itself is what is replayed |
| `RunLaws.PositionsBalance` | crates/trade-guard-core/src/account.rs:92-129 | in any run of an account without positions every holding is the net of the recorded fills, all along, exactly when no running net overflows |
| `RunLaws.CashBalances` | crates/trade-guard-core/src/account.rs:92-114 | in any run the cash is the opening cash less the recorded buys plus the recorded sells, all along, exactly when no product and no running balance overflows |
| `RunLaws.NothingReservedBetweenCalls` | crates/trade-guard-core/src/execution.rs:185-197 | nothing is reserved between calls in any run that starts with nothing reserved |
| `RunLaws.CashNeverNegative` | crates/trade-guard-core/src/execution.rs:131-183 | cash is non-negative after every step of a run of guarded submissions |
| `RunLaws.CashNeverNegativeAtSaneQuotes` | crates/trade-guard-core/src/execution.rs:131-183 | and at sane quotes as soon as the buys are guarded |
| `RunLaws.DecisionIgnoresVenues` | crates/trade-guard-core/src/jurisdiction_venue.rs:183-204 | the venue registry changes neither account, order, decision nor reasons |
| `RunLaws.VenuesCannotInterfere` | crates/trade-guard-core/src/execution.rs:199-203 | two runs of any submissions with arbitrary venue registries, under any codec, end in the same account and key sequence, and decide each fresh key alike up to warnings |
| `RunLaws.VenuesOnlyAddWarnings` | crates/trade-guard-core/src/execution.rs:199-203 | for clean submissions the records and all answers, duplicates included, agree up to warnings too |
| `RunLaws.RunLogIsTamperEvident` | crates/trade-guard-core/src/audit.rs:251-283 | a verified log with the head of a run's log holds the run's content, or the hash is broken |
| `RunLaws.RunLogDeletionDetected` | crates/trade-guard-core/src/audit.rs:251-283 | removing any rows but a suffix from a run's log is reported at the gap, naming the row found there |
| `RunLaws.RunLogRearrangementDetected` | crates/trade-guard-core/src/audit.rs:251-283 | whatever is made of the rows of a run's log passes the verifier exactly when only a suffix is missing, or the hash is broken |
| `RunLaws.BrokenSha256` | crates/trade-guard-core/src/sha256.rs:97-105 | for the program's own hash, broken means two messages with one SHA-256 digest or a preimage of the anchor |

## Left out

- SQLite, file paths, WAL and I/O errors: the table is a sequence of rows with two unique columns and a row-id counter; storage is assumed to succeed. When both columns collide, the key's violation is the one reported.
- JSON text: a record is encoded and decoded by arbitrary functions; only the decimal and timestamp leaves are modelled as text.
- Transport and dispatch (mcp.rs, tools.rs, state.rs, main.rs): plumbing around the calls modelled here.
- The f64 arithmetic inside `approx_div`: its quotient is an arbitrary function, so an average price is pinned down to the two operands of that quotient, not to a number.
- Fields of intents, evidence and venue profiles that no modelled function reads, the fields of instruments whose text is a plain string or a choice, and the wording of warnings: data only, and none of them can fail to be read back. A warning is its kind and its venue.
- `Position` is a value in the account's sequence rather than an object: the vector owns its positions, so updating one in place is replacing the element at its index; aliasing is not captured.
- Debug builds: integer overflow of `abs` at the minimum wraps as in a release build instead of panicking; only `Ledger.AddingFillPrice` speaks of such a quantity.
- `days_from_civil` and `civil_from_days` are modelled over all integers: their callers pass day numbers far inside i64, where no intermediate value overflows.
- `AuditStore::get`, `checked_add_seconds`, `checked_add_days`, `from_i64`, `PolicyOutcome::and`, the demo venue fixtures and the stub modules: no hard behaviour, or not called by the protocol.
- Lengths of 2^61 bytes and more in `Sha256.PaddedEnds` and `Sha256.PaddingInjective`: FIPS 180-4 does not define the hash of such messages; the refinement itself holds for every length.
