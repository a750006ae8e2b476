/** The gates an intent passes before it can become an order: policy.rs and evidence.rs. */
module Policy {
  import opened Prelude
  import opened FixedDecimal
  import opened Timestamp
  import opened Records
  import opened Ledger

  /** The code points with the Unicode property White_Space, which `str::trim` removes. */
  predicate IsWhitespace(c: char) {
    var n := c as int;
    9 <= n <= 13 || n == 0x20 || n == 0x85 || n == 0xA0 || n == 0x1680 || 0x2000 <= n <= 0x200A
    || n == 0x2028 || n == 0x2029 || n == 0x202F || n == 0x205F || n == 0x3000
  }

  /** Nothing but white space, or nothing at all. */
  predicate IsBlank(s: string) { forall i :: 0 <= i < |s| ==> IsWhitespace(s[i]) }

  predicate ConfidenceInRange(f: Float) { f.Finite? && 0.0 <= f.value <= 1.0 }

  predicate IsPositive(p: Option<Decimal>) { p.Some? && p.value.raw > 0 }

  function ValidateTradeIntent(intent: TradeIntent, now: UtcTimestamp): PolicyOutcome {
    if intent.quantity.IsZero() || intent.quantity.IsNegative() then
      Refuse(Reject, "quantity-must-be-positive")
    else if IsBlank(intent.idempotencyKey) then Refuse(Reject, "idempotency-key-required")
    else if !ConfidenceInRange(intent.confidence) then Refuse(Reject, "confidence-out-of-range")
    else
      var prices := ValidatePrices(intent);
      if prices.Some? then Refuse(Reject, prices.value)
      else if intent.decisionTime.SaturatingDiffSeconds(now) > 0 then
        Refuse(Reject, "decision-time-in-the-future")
      else if intent.expiresAt.Some? && intent.expiresAt.value.SaturatingDiffSeconds(now) < 0 then
        Refuse(Expired, "intent-already-expired")
      else ALLOWED
  }

  /** The prices each order type requires. */
  function ValidatePrices(intent: TradeIntent): Option<string> {
    match intent.orderType
    case Limit | LimitOnClose =>
      if IsPositive(intent.limitPrice) then None else Some("limit-price-required-for-limit-order")
    case Stop =>
      if IsPositive(intent.stopPrice) then None else Some("stop-price-required-for-stop-order")
    case StopLimit =>
      if !IsPositive(intent.limitPrice) then Some("limit-price-required-for-stop-limit-order")
      else if IsPositive(intent.stopPrice) then None
      else Some("stop-price-required-for-stop-limit-order")
    case _ => None
  }

  // ----- evidence.rs -----

  datatype BundlePurpose = Research | Advisory | PaperExecution | LiveExecution

  datatype EvidenceRecord = EvidenceRecord(
    publicAvailabilityTime: Option<UtcTimestamp>, executionEligible: bool)

  datatype EvidenceBundle = EvidenceBundle(
    createdAt: UtcTimestamp, records: seq<EvidenceRecord>, purpose: BundlePurpose,
    allRecordsExecutionEligible: bool, quarantineCount: nat)
  {
    predicate AllEligible() { forall i :: 0 <= i < |records| ==> records[i].executionEligible }

    predicate IsLiveExecutionEligible() {
      purpose == LiveExecution && allRecordsExecutionEligible && quarantineCount == 0
      && records != [] && AllEligible()
    }

    predicate IsInternallyConsistent() {
      quarantineCount == 0 && allRecordsExecutionEligible == AllEligible()
    }

    /** Some record becomes public only after `now`. */
    predicate NotYetPublic(now: UtcTimestamp) {
      exists i :: 0 <= i < |records| && records[i].publicAvailabilityTime.Some?
                  && records[i].publicAvailabilityTime.value.SaturatingDiffSeconds(now) > 0
    }
  }

  function CheckEvidence(intent: TradeIntent, bundle: Option<EvidenceBundle>, now: UtcTimestamp): PolicyOutcome {
    var live := intent.mode.RequestsLiveExecution();
    match bundle
    case None =>
      if live then Refuse(BlockedBySourcePolicy, "live-execution-requires-evidence-bundle") else ALLOWED
    case Some(b) =>
      if !b.IsInternallyConsistent() then
        Refuse(BlockedBySourcePolicy, "evidence-bundle-internally-inconsistent")
      else if b.quarantineCount > 0 then
        Refuse(BlockedBySourcePolicy, "evidence-bundle-has-quarantined-records")
      else if b.createdAt.SaturatingDiffSeconds(intent.decisionTime) > 0 then
        Refuse(BlockedBySourcePolicy, "evidence-bundle-created-after-decision")
      else if b.NotYetPublic(now) then
        Refuse(BlockedBySourcePolicy, "evidence-record-future-public-availability-time")
      else if live && !b.IsLiveExecutionEligible() then
        Refuse(BlockedBySourcePolicy, "evidence-bundle-not-live-execution-eligible")
      else ALLOWED
  }

  function CheckBuyingPower(a: Account, notional: Decimal): PolicyOutcome {
    if notional.raw > a.BuyingPower().raw then Refuse(BlockedByRisk, "insufficient-buying-power")
    else ALLOWED
  }

  /** Buying power is what cash exceeds the reservation by, and never negative. A notional that
      passes can be reserved without overflow or over-reservation. */
  lemma PassingNotionalFits(a: Account, notional: Decimal)
    requires notional.raw >= 0 && CheckBuyingPower(a, notional).IsAllowed()
    requires 0 <= a.reservedCash.raw <= a.cash.raw
    ensures a.reservedCash.CheckedAdd(notional).Some?
    ensures 0 <= a.reservedCash.CheckedAdd(notional).value.raw <= a.cash.raw
  {
  }

  // ----- The rules, apart from the functions that check them -----

  /** A rule, and what a submission that breaks it is told. */
  datatype Rule = Rule(holds: bool, decision: PolicyDecision, reason: string)

  /** The first rule in the list that does not hold. */
  function FirstBroken(rules: seq<Rule>): Option<Rule> {
    if rules == [] then None
    else if !rules[0].holds then Some(rules[0])
    else FirstBroken(rules[1..])
  }

  /** The outcome that the first broken rule, if any, calls for. */
  function Verdict(rules: seq<Rule>): PolicyOutcome {
    match FirstBroken(rules)
    case None => PolicyOutcome(Allow, [], [])
    case Some(r) => PolicyOutcome(r.decision, [r.reason], [])
  }

  lemma {:induction false} FirstBrokenConcat(p: seq<Rule>, r: seq<Rule>)
    ensures FirstBroken(p + r) == if FirstBroken(p).Some? then FirstBroken(p) else FirstBroken(r)
  {
    if p == [] {
      assert p + r == r;
    } else {
      assert (p + r)[1..] == p[1..] + r;
      FirstBrokenConcat(p[1..], r);
    }
  }

  predicate Positive(p: Option<Decimal>) {
    match p case Some(d) => d.raw > 0 case None => false
  }

  /** The characters with the Unicode property White_Space. */
  const WHITE_SPACE: set<char> := {
    '\t', '\n', '\U{B}', '\U{C}', '\r', ' ', '\U{85}', '\U{A0}', '\U{1680}',
    '\U{2000}', '\U{2001}', '\U{2002}', '\U{2003}', '\U{2004}', '\U{2005}', '\U{2006}', '\U{2007}',
    '\U{2008}', '\U{2009}', '\U{200A}', '\U{2028}', '\U{2029}', '\U{202F}', '\U{205F}', '\U{3000}' }

  lemma WhitespaceExact(c: char)
    ensures IsWhitespace(c) <==> c in WHITE_SPACE
  {
  }

  /** The rules an intent must meet, in the order in which they are checked. */
  ghost function IntentRules(intent: TradeIntent, now: UtcTimestamp): seq<Rule> {
    var t := intent.orderType;
    [ Rule(intent.quantity.raw > 0, Reject, "quantity-must-be-positive"),
      Rule(exists i :: 0 <= i < |intent.idempotencyKey| && intent.idempotencyKey[i] !in WHITE_SPACE,
           Reject, "idempotency-key-required"),
      Rule(intent.confidence.Finite? && 0.0 <= intent.confidence.value <= 1.0,
           Reject, "confidence-out-of-range"),
      Rule(t.Limit? || t.LimitOnClose? ==> Positive(intent.limitPrice),
           Reject, "limit-price-required-for-limit-order"),
      Rule(t.Stop? ==> Positive(intent.stopPrice), Reject, "stop-price-required-for-stop-order"),
      Rule(t.StopLimit? ==> Positive(intent.limitPrice), Reject, "limit-price-required-for-stop-limit-order"),
      Rule(t.StopLimit? ==> Positive(intent.stopPrice), Reject, "stop-price-required-for-stop-limit-order"),
      Rule(intent.decisionTime.secs <= now.secs, Reject, "decision-time-in-the-future"),
      Rule(intent.expiresAt.Some? ==> now.secs <= intent.expiresAt.value.secs,
           Expired, "intent-already-expired") ]
  }

  ghost predicate AllHold(rules: seq<Rule>) { forall i :: 0 <= i < |rules| ==> rules[i].holds }

  lemma {:induction false} NoneBroken(rules: seq<Rule>)
    ensures FirstBroken(rules).None? <==> AllHold(rules)
    ensures FirstBroken(rules).Some? ==> !FirstBroken(rules).value.holds && FirstBroken(rules).value in rules
  {
    if rules != [] {
      NoneBroken(rules[1..]);
    }
  }

  /** The first broken rule is the one that does not hold after some that do. */
  lemma {:induction false} FirstBrokenAt(rules: seq<Rule>) returns (i: nat)
    ensures i <= |rules| && forall j :: 0 <= j < i ==> rules[j].holds
    ensures FirstBroken(rules) == if i < |rules| then Some(rules[i]) else None
    ensures i < |rules| ==> !rules[i].holds
  {
    if rules == [] || !rules[0].holds {
      i := 0;
    } else {
      i := FirstBrokenAt(rules[1..]);
      assert forall j :: 0 < j < i + 1 ==> rules[j] == rules[1..][j - 1];
      i := i + 1;
    }
  }

  /** Validation names the first rule that the intent breaks. */
  lemma ValidationNamesFirstBroken(intent: TradeIntent, now: UtcTimestamp)
    ensures ValidateTradeIntent(intent, now) == Verdict(IntentRules(intent, now))
  {
    hide IsWhitespace, FirstBroken;
    var rules := IntentRules(intent, now);
    var i := FirstBrokenAt(rules);
    assert (i > 0 ==> rules[0].holds) && (i > 1 ==> rules[1].holds) && (i > 2 ==> rules[2].holds);
    assert (i > 3 ==> rules[3].holds) && (i > 4 ==> rules[4].holds) && (i > 5 ==> rules[5].holds);
    assert (i > 6 ==> rules[6].holds) && (i > 7 ==> rules[7].holds) && (i > 8 ==> rules[8].holds);
    forall c ensures IsWhitespace(c) <==> c in WHITE_SPACE {
      WhitespaceExact(c);
    }
  }

  /** The rules for the evidence an intent cites. None of them concerns a paper intent without any. */
  ghost function EvidenceRules(bundle: Option<EvidenceBundle>, intent: TradeIntent, now: UtcTimestamp): seq<Rule> {
    var live := intent.mode.GuardedLive? || intent.mode.GuardedLiveAutonomous?;
    [ Rule(live ==> bundle.Some?, BlockedBySourcePolicy, "live-execution-requires-evidence-bundle"),
      Rule(bundle.Some? ==> Consistent(bundle.value),
           BlockedBySourcePolicy, "evidence-bundle-internally-inconsistent"),
      Rule(bundle.Some? ==> bundle.value.createdAt.secs <= intent.decisionTime.secs,
           BlockedBySourcePolicy, "evidence-bundle-created-after-decision"),
      Rule(bundle.Some? ==> Public(bundle.value.records, now),
           BlockedBySourcePolicy, "evidence-record-future-public-availability-time"),
      Rule(live && bundle.Some? ==>
             bundle.value.purpose == LiveExecution && bundle.value.records != []
             && bundle.value.allRecordsExecutionEligible,
           BlockedBySourcePolicy, "evidence-bundle-not-live-execution-eligible") ]
  }

  /** Nothing is quarantined, and the bundle's flag says whether every record is eligible. */
  ghost predicate Consistent(b: EvidenceBundle) {
    b.quarantineCount == 0
    && (b.allRecordsExecutionEligible <==> forall i :: 0 <= i < |b.records| ==> b.records[i].executionEligible)
  }

  ghost predicate Public(records: seq<EvidenceRecord>, now: UtcTimestamp) {
    forall i :: 0 <= i < |records| && records[i].publicAvailabilityTime.Some? ==>
      records[i].publicAvailabilityTime.value.secs <= now.secs
  }

  /** The evidence check names the first rule broken; so the reason for quarantined records, which the
      consistency rule comes before, is never given. */
  lemma EvidenceNamesFirstBroken(intent: TradeIntent, bundle: Option<EvidenceBundle>, now: UtcTimestamp)
    ensures CheckEvidence(intent, bundle, now) == Verdict(EvidenceRules(bundle, intent, now))
  {
    hide FirstBroken;
    var rules := EvidenceRules(bundle, intent, now);
    var i := FirstBrokenAt(rules);
    assert (i > 0 ==> rules[0].holds) && (i > 1 ==> rules[1].holds) && (i > 2 ==> rules[2].holds);
    assert (i > 3 ==> rules[3].holds) && (i > 4 ==> rules[4].holds);
  }

  ghost predicate MeetsRules(intent: TradeIntent, now: UtcTimestamp) { AllHold(IntentRules(intent, now)) }

  ghost predicate Backs(bundle: Option<EvidenceBundle>, intent: TradeIntent, now: UtcTimestamp) {
    AllHold(EvidenceRules(bundle, intent, now))
  }

  lemma ValidIntent(intent: TradeIntent, now: UtcTimestamp)
    ensures ValidateTradeIntent(intent, now).IsAllowed() <==> MeetsRules(intent, now)
  {
    hide ValidateTradeIntent, AllHold, IntentRules;
    ValidationNamesFirstBroken(intent, now);
    NoneBroken(IntentRules(intent, now));
    IntentRulesRefuse(intent, now);
  }

  lemma IntentRulesRefuse(intent: TradeIntent, now: UtcTimestamp)
    ensures forall r :: r in IntentRules(intent, now) ==> r.decision == Reject || r.decision == Expired
  {
    hide WHITE_SPACE, Positive;
  }

  /** What it takes to meet the rules, at once. */
  lemma RulesMet(intent: TradeIntent, now: UtcTimestamp, i: nat)
    requires intent.quantity.raw > 0
    requires i < |intent.idempotencyKey| && intent.idempotencyKey[i] !in WHITE_SPACE
    requires intent.confidence.Finite? && 0.0 <= intent.confidence.value <= 1.0
    requires intent.orderType.Market? || (intent.orderType.Limit? && Positive(intent.limitPrice))
    requires intent.decisionTime.secs <= now.secs && intent.expiresAt.None?
    ensures MeetsRules(intent, now)
  {
    hide WHITE_SPACE, Positive;
  }

  lemma EligibleEvidence(intent: TradeIntent, bundle: Option<EvidenceBundle>, now: UtcTimestamp)
    ensures CheckEvidence(intent, bundle, now).IsAllowed() <==> Backs(bundle, intent, now)
  {
    hide CheckEvidence, AllHold;
    var rules := EvidenceRules(bundle, intent, now);
    EvidenceNamesFirstBroken(intent, bundle, now);
    NoneBroken(rules);
    assert forall r :: r in rules ==> r.decision == BlockedBySourcePolicy;
  }

  /** Of a valid intent the rest of the protocol uses this much. */
  lemma ValidIntentIsPriced(intent: TradeIntent, now: UtcTimestamp)
    requires MeetsRules(intent, now)
    ensures intent.quantity.raw > 0
    ensures intent.orderType.Limit? || intent.orderType.LimitOnClose? ==> Positive(intent.limitPrice)
  {
    var rules := IntentRules(intent, now);
    assert rules[0].holds && rules[3].holds;
  }

  /** What an account can still spend: the cash above the reservation, or nothing when that is
      negative or does not fit. */
  function Spendable(a: Account): int {
    var d := a.cash.raw - a.reservedCash.raw;
    if 0 <= d <= I128_MAX then d else 0
  }

  lemma BuyingPowerExact(a: Account)
    ensures a.BuyingPower().raw == Spendable(a)
  {
  }
}
