/** Laws of whole runs: the ledger is a replay of the log, cash stays non-negative, venue data
    cannot change a decision, and the hash chain pins down what was recorded. */
module RunLaws {
  import opened Prelude
  import opened FixedDecimal
  import opened Timestamp
  import opened Records
  import opened PaperMarket
  import opened Ledger
  import opened Policy
  import opened HashChain
  import opened AuditLog
  import opened Execution
  import opened Protocol
  import opened CashSafety
  import opened Runs
  import Sha256

  // ----- The ledger is a replay of the records -----

  /** The records a run appends: those of its fresh keys, in order. */
  function Recorded(env: Env, s: State, subs: seq<Submission>): seq<AuditRecord>
    decreases |subs|
  {
    if subs == [] then []
    else StepRecords(env, s, subs[0]) + Recorded(env, Step(env, s, subs[0]).0, subs[1..])
  }

  function StepRecords(env: Env, s: State, sub: Submission): seq<AuditRecord> {
    if HasKey(s.log.rows, sub.Key()) then [] else [FreshRecord(env, s.account, sub)]
  }

  /** The trades that the fills of the recorded orders stand for. */
  function RecordTrades(rs: seq<AuditRecord>): seq<Trade> {
    if rs == [] then [] else TradesOfOption(rs[0].order) + RecordTrades(rs[1..])
  }

  /** The rows hold these records, as the codec encodes them. */
  ghost predicate HoldRecords(env: Env, rows: seq<Row>, rs: seq<AuditRecord>) {
    |rows| == |rs|
    && forall k :: 0 <= k < |rows| ==>
         rows[k].recordJson == env.codec.encode(rs[k]) && rows[k].key == rs[k].idempotencyKey
  }

  lemma {:induction false} ApplyTradesConcat(q: Quotient, a: Account, ts: seq<Trade>, us: seq<Trade>)
    ensures ApplyTrades(q, a, ts + us) == ApplyTrades(q, ApplyTrades(q, a, ts), us)
  {
    hide ApplyTrade;
    if us == [] {
      assert ts + us == ts;
    } else {
      var n := |us| - 1;
      assert (ts + us)[..|ts| + n] == ts + us[..n];
      ApplyTradesConcat(q, a, ts, us[..n]);
    }
  }

  lemma {:induction false} RecordTradesConcat(p: seq<AuditRecord>, r: seq<AuditRecord>)
    ensures RecordTrades(p + r) == RecordTrades(p) + RecordTrades(r)
  {
    hide TradesOfOption;
    if p == [] {
      assert p + r == r;
    } else {
      assert (p + r)[1..] == p[1..] + r;
      RecordTradesConcat(p[1..], r);
    }
  }

  lemma TradesOfRecord(r: AuditRecord)
    ensures RecordTrades([r]) == TradesOfOption(r.order) && RecordTrades([]) == []
  {
    assert [r][1..] == [];
  }

  /** The account after any run is the account before it with the fills of the appended records
      applied in log order, and the run appends exactly those records, whatever is submitted and
      however records are encoded; only the reservation is not part of the replay. */
  lemma {:induction false} LedgerIsReplay(env: Env, s: State, subs: seq<Submission>)
    requires KeptLog(env, s.log)
    ensures var end, rs := Run(env, s, subs), Recorded(env, s, subs);
            && |s.log.rows| <= |end.log.rows| && HoldRecords(env, end.log.rows[|s.log.rows|..], rs)
            && end.account == ApplyTrades(env.quotient, s.account, RecordTrades(rs))
                              .(reservedCash := end.account.reservedCash)
    decreases |subs|
  {
    hide Step, KeptLog, ApplyTrades, HoldRecords, StepRecords, RecordTrades, RowsKept;
    if subs == [] {
      NothingRecorded(env, s);
      NoTrades(env.quotient, s.account);
    } else {
      var s', rs := Step(env, s, subs[0]).0, StepRecords(env, s, subs[0]);
      var rest := Recorded(env, s', subs[1..]);
      StepKeepsTable(env, s, subs[0]);
      LedgerIsReplay(env, s', subs[1..]);
      StepIsReplay(env, s, subs[0]);
      RecordTradesConcat(rs, rest);
      ReplayStep(env.quotient, s.account, s'.account, RecordTrades(rs), RecordTrades(rest));
      AppendedRows(env, s, subs);
      HoldConcat(env, s'.log.rows[|s.log.rows|..], rs, Run(env, s, subs).log.rows[|s'.log.rows|..], rest);
    }
  }

  lemma NothingRecorded(env: Env, s: State)
    ensures HoldRecords(env, s.log.rows[|s.log.rows|..], []) && RecordTrades([]) == []
  {
  }

  lemma HoldConcat(env: Env, p: seq<Row>, ps: seq<AuditRecord>, r: seq<Row>, rs: seq<AuditRecord>)
    requires HoldRecords(env, p, ps) && HoldRecords(env, r, rs)
    ensures HoldRecords(env, p + r, ps + rs)
  {
  }

  /** The rows a run appends are those of its first step followed by those of the rest. */
  lemma AppendedRows(env: Env, s: State, subs: seq<Submission>)
    requires KeptLog(env, s.log) && subs != []
    ensures var s', end := Step(env, s, subs[0]).0, Run(env, s, subs);
            && end == Run(env, s', subs[1..])
            && |s.log.rows| <= |s'.log.rows| <= |end.log.rows|
            && end.log.rows[|s.log.rows|..] == s'.log.rows[|s.log.rows|..] + end.log.rows[|s'.log.rows|..]
  {
    hide Step, KeptLog, HasKey, Keys;
    StepKeepsTable(env, s, subs[0]);
    RunKeepsTable(env, Step(env, s, subs[0]).0, subs[1..]);
  }

  lemma ReplayStep(q: Quotient, a: Account, b: Account, ts: seq<Trade>, us: seq<Trade>)
    requires b == ApplyTrades(q, a, ts).(reservedCash := b.reservedCash)
    ensures ApplyTrades(q, b, us) == ApplyTrades(q, a, ts + us).(reservedCash := b.reservedCash)
  {
    hide ApplyTrades;
    ApplyTradesConcat(q, a, ts, us);
    ReplayIgnoresReservation(q, ApplyTrades(q, a, ts), b.reservedCash, us);
  }

  lemma StepIsReplay(env: Env, s: State, sub: Submission)
    requires KeptLog(env, s.log)
    ensures var s', rs := Step(env, s, sub).0, StepRecords(env, s, sub);
            && |s.log.rows| <= |s'.log.rows| && HoldRecords(env, s'.log.rows[|s.log.rows|..], rs)
            && s'.account == ApplyTrades(env.quotient, s.account, RecordTrades(rs))
                             .(reservedCash := s'.account.reservedCash)
  {
    hide Step, KeptLog, ApplyTrades, NewRow, Decide, HasKey;
    var n := |s.log.rows|;
    if HasKey(s.log.rows, sub.Key()) {
      var i := IndexOfKey(s.log.rows, sub.Key());
      DuplicateStep(env, s, sub, i);
      assert s.log.rows[n..] == [];
      NoTrades(env.quotient, s.account);
    } else {
      FreshStep(env, s, sub);
      var r := FreshRecord(env, s.account, sub);
      var row := NewRow(env.hash, env.codec, s.log, r);
      NewRowLinks(env, s.log, r);
      assert (s.log.rows + [row])[n..] == [row];
      TradesOfRecord(r);
      DecisionIsReplay(env.quotient, s.account, sub);
    }
  }

  lemma IndexOfKey(rows: seq<Row>, key: string) returns (i: nat)
    requires HasKey(rows, key)
    ensures i < |rows| && rows[i].key == key
  {
    i :| 0 <= i < |rows| && rows[i].key == key;
  }

  /** The trades a row records, as far as it can be read. */
  function RowTrades(env: Env, row: Row): seq<Trade> {
    match env.codec.decode(row.recordJson)
    case Some(r) => TradesOfOption(r.order)
    case None => []
  }

  function LogTrades(env: Env, rows: seq<Row>): seq<Trade> {
    if rows == [] then [] else RowTrades(env, rows[0]) + LogTrades(env, rows[1..])
  }

  /** When the appended records can be read back, the log itself is what is replayed. */
  lemma LedgerIsReadFromLog(env: Env, s: State, subs: seq<Submission>)
    requires KeptLog(env, s.log) && Faithful(env.codec)
    requires forall k :: 0 <= k < |Recorded(env, s, subs)| ==> Storable(Recorded(env, s, subs)[k])
    ensures var end := Run(env, s, subs);
            && |s.log.rows| <= |end.log.rows|
            && end.account == ApplyTrades(env.quotient, s.account, LogTrades(env, end.log.rows[|s.log.rows|..]))
                              .(reservedCash := end.account.reservedCash)
  {
    hide Run, Recorded, Faithful, Storable, ApplyTrades, RecordTrades, LogTrades, HoldRecords;
    LedgerIsReplay(env, s, subs);
    RowsRead(env, Run(env, s, subs).log.rows[|s.log.rows|..], Recorded(env, s, subs));
  }

  lemma {:induction false} RowsRead(env: Env, rows: seq<Row>, rs: seq<AuditRecord>)
    requires Faithful(env.codec) && HoldRecords(env, rows, rs)
    requires forall k :: 0 <= k < |rs| ==> Storable(rs[k])
    ensures LogTrades(env, rows) == RecordTrades(rs)
  {
    hide Storable, TradesOfOption;
    if rows != [] {
      assert Storable(rs[0]);
      RowsRead(env, rows[1..], rs[1..]);
    }
  }

  /** Every recorded trade was for a positive quantity. */
  lemma {:induction false} RecordedQuantitiesArePositive(env: Env, s: State, subs: seq<Submission>)
    ensures PositiveQuantities(RecordTrades(Recorded(env, s, subs)))
    decreases |subs|
  {
    hide Step, StepRecords, RecordTrades;
    if subs == [] {
      NothingRecorded(env, s);
    } else {
      var s' := Step(env, s, subs[0]).0;
      RecordedQuantitiesArePositive(env, s', subs[1..]);
      StepQuantities(env, s, subs[0]);
      RecordTradesConcat(StepRecords(env, s, subs[0]), Recorded(env, s', subs[1..]));
    }
  }

  lemma StepQuantities(env: Env, s: State, sub: Submission)
    ensures PositiveQuantities(RecordTrades(StepRecords(env, s, sub)))
  {
    hide Decide, HasKey, TradesOfOption;
    TradesOfRecord(FreshRecord(env, s.account, sub));
    DecidedQuantities(env.quotient, s.account, sub);
  }

  lemma DecidedQuantities(q: Quotient, a: Account, sub: Submission)
    ensures PositiveQuantities(TradesOfOption(Decide(q, a, sub).order))
  {
    hide Gate, Work, Estimate, Account.BuyingPower, MeetsRules, Backs;
    if Gate(a.accountAlias, sub).None? {
      GatePasses(a.accountAlias, sub);
      WorkQuantities(q, Reserve(a, Estimate(sub)), sub);
      WorkQuantities(q, a, sub);
    }
  }

  lemma WorkQuantities(q: Quotient, a: Account, sub: Submission)
    requires sub.intent.quantity.raw > 0
    ensures PositiveQuantities(TradesOfOption(Work(q, a, sub).order))
  {
    hide Quotes.SimulateFill, ApplyTrade, Decimal.CheckedMul, ApproxDiv;
  }

  /** The trades a run records. */
  function TradesOfRun(env: Env, s: State, subs: seq<Submission>): seq<Trade> {
    RecordTrades(Recorded(env, s, subs))
  }

  /** In any run of an account without positions, ids stay distinct and flat positions unpriced,
      and every holding is the net of the recorded fills, all along, exactly when no running net of
      that instrument overflows. */
  lemma PositionsBalance(env: Env, s: State, subs: seq<Submission>, id: string)
    requires KeptLog(env, s.log) && s.account.positions == []
    ensures var p := Run(env, s, subs).account.positions; Distinct(p) && FlatUnpriced(p)
    ensures var ts := TradesOfRun(env, s, subs);
            && (HeldThroughout(env.quotient, s.account, ts, id) <==> NetFits(ts, id))
            && (NetFits(ts, id) ==> Holding(Run(env, s, subs).account.positions, id) == Net(ts, id))
  {
    hide Run, KeptLog, Recorded, ApplyTrades, Distinct, FlatUnpriced, Holding, NetFits, HeldThroughout, Net;
    LedgerIsReplay(env, s, subs);
    RecordedQuantitiesArePositive(env, s, subs);
    PositionsRefineMap(env.quotient, s.account, TradesOfRun(env, s, subs), id);
  }

  /** In any run the cash is the opening cash less the recorded buys plus the recorded sells, all
      along, exactly when no product and no running balance overflows. */
  lemma CashBalances(env: Env, s: State, subs: seq<Submission>)
    requires KeptLog(env, s.log)
    ensures var cash, ts := s.account.cash.raw, TradesOfRun(env, s, subs);
            && (BalancedThroughout(env.quotient, s.account, ts) <==> AllPriced(ts) && BalanceFits(cash, ts))
            && (AllPriced(ts) && BalanceFits(cash, ts) ==>
                  Run(env, s, subs).account.cash.raw == cash - Bought(ts) + Sold(ts))
  {
    hide Run, KeptLog, Recorded, ApplyTrades, AllPriced, BalanceFits, BalancedThroughout, Bought, Sold;
    LedgerIsReplay(env, s, subs);
    CashConservation(env.quotient, s.account, TradesOfRun(env, s, subs));
  }

  // ----- Reservations and cash -----

  lemma StepAccount(env: Env, s: State, sub: Submission)
    ensures var b := Step(env, s, sub).0.account;
            b == s.account || b == Decide(env.quotient, s.account, sub).account
  {
    hide Decide, FindKey, Persist;
  }

  /** Between calls nothing is ever reserved, whatever is submitted. */
  lemma {:induction false} NothingReservedBetweenCalls(env: Env, s: State, subs: seq<Submission>)
    requires s.account.reservedCash == D_ZERO
    ensures Run(env, s, subs).account.reservedCash == D_ZERO
    decreases |subs|
  {
    hide Step, Decide;
    if subs != [] {
      StepAccount(env, s, subs[0]);
      NothingStaysReserved(env.quotient, s.account, subs[0]);
      NothingReservedBetweenCalls(env, Step(env, s, subs[0]).0, subs[1..]);
    }
  }

  /** Cash is never negative after any step of a run of guarded submissions. */
  lemma {:induction false} CashNeverNegative(env: Env, s: State, subs: seq<Submission>)
    requires Solvent(s.account)
    requires forall i :: 0 <= i < |subs| ==> Guarded(subs[i])
    ensures forall k :: 0 <= k <= |subs| ==> Solvent(Run(env, s, subs[..k]).account)
    decreases |subs|
  {
    hide Step, Decide, Guarded, Solvent;
    if subs != [] {
      var s' := Step(env, s, subs[0]).0;
      StepAccount(env, s, subs[0]);
      GuardedKeepsSolvent(env.quotient, s.account, subs[0]);
      CashNeverNegative(env, s', subs[1..]);
      forall k | 0 < k <= |subs| ensures Solvent(Run(env, s, subs[..k]).account) {
        assert subs[..k][1..] == subs[1..][..k - 1];
      }
    }
  }

  /** In particular at sane quotes, where only buys need a guard. */
  lemma CashNeverNegativeAtSaneQuotes(env: Env, s: State, subs: seq<Submission>, k: nat)
    requires Solvent(s.account) && k <= |subs|
    requires forall i :: 0 <= i < |subs| ==> Sane(subs[i]) && (Purchases(subs[i].intent.side) ==> BuyGuarded(subs[i]))
    ensures Solvent(Run(env, s, subs[..k]).account)
  {
    hide Run, Solvent, Sane, Guarded, BuyGuarded;
    forall i | 0 <= i < |subs| ensures Guarded(subs[i]) {
      SaneSaleIsGuarded(subs[i]);
    }
    CashNeverNegative(env, s, subs);
  }

  // ----- Venue data cannot change a decision -----

  function Erase(o: PolicyOutcome): PolicyOutcome { o.(warnings := []) }

  function EraseRecord(r: AuditRecord): AuditRecord { r.(outcome := Erase(r.outcome)) }

  function EraseResult(r: StepResult): StepResult {
    match r
    case Ok(x) => Ok(x.(outcome := Erase(x.outcome)))
    case Err(e) => Err(e)
  }

  function WithVenues(sub: Submission, v: Venues): Submission { sub.(venues := v) }

  lemma WorkIgnoresVenues(q: Quotient, a: Account, sub: Submission, v: Venues)
    ensures var d, d' := Work(q, a, sub), Work(q, a, WithVenues(sub, v));
            d'.account == d.account && d'.order == d.order && Erase(d'.outcome) == Erase(d.outcome)
  {
    hide Quotes.SimulateFill, ApplyTrade, FillOrder, CheckVenueProfile;
  }

  lemma GateIgnoresVenues(a: Account, sub: Submission, v: Venues)
    ensures var sub' := WithVenues(sub, v);
            && Gate(a.accountAlias, sub') == Gate(a.accountAlias, sub)
            && Estimate(sub') == Estimate(sub) && TermsOf(sub') == TermsOf(sub)
  {
    hide ValidateTradeIntent, CheckEvidence, Quotes.QuoteFor, Decimal.CheckedMul;
  }

  lemma DecisionIgnoresVenues(q: Quotient, a: Account, sub: Submission, v: Venues)
    ensures var d, d' := Decide(q, a, sub), Decide(q, a, WithVenues(sub, v));
            d'.account == d.account && d'.order == d.order && Erase(d'.outcome) == Erase(d.outcome)
  {
    hide Work, Account.BuyingPower, Gate, Estimate, TermsOf;
    GateIgnoresVenues(a, sub, v);
    WorkIgnoresVenues(q, a, sub, v);
    WorkIgnoresVenues(q, Reserve(a, Estimate(sub)), sub, v);
  }

  /** Equal accounts, and the same keys recorded in the same places. */
  ghost predicate SameKeys(s: State, t: State) {
    && s.account == t.account && s.log.lastRowid == t.log.lastRowid
    && |s.log.rows| == |t.log.rows|
    && forall i :: 0 <= i < |s.log.rows| ==> SameName(s.log.rows[i], t.log.rows[i])
  }

  predicate SameName(p: Row, r: Row) { p.rowid == r.rowid && p.eventId == r.eventId && p.key == r.key }

  predicate IsFresh(r: StepResult) { r.Ok? && !r.value.wasDuplicate }

  /** Both answers are to a fresh key, and agree up to warnings; or neither is. */
  predicate FreshAgree(r: StepResult, r': StepResult) {
    (IsFresh(r) <==> IsFresh(r')) && (IsFresh(r) ==> EraseResult(r) == EraseResult(r'))
  }

  lemma SameKeysRecorded(s: State, t: State, key: string)
    requires SameKeys(s, t)
    ensures HasKey(s.log.rows, key) <==> HasKey(t.log.rows, key)
  {
    if i :| 0 <= i < |s.log.rows| && s.log.rows[i].key == key {
      assert SameName(s.log.rows[i], t.log.rows[i]);
    }
    if i :| 0 <= i < |t.log.rows| && t.log.rows[i].key == key {
      assert SameName(s.log.rows[i], t.log.rows[i]);
    }
  }

  /** One step with any two registries, whatever is submitted and however records are encoded. */
  lemma StepKeepsKeysAlike(env: Env, s: State, t: State, sub: Submission, v: Venues)
    requires KeptLog(env, s.log) && KeptLog(env, t.log) && SameKeys(s, t)
    ensures var (s', r), (t', r') := Step(env, s, sub), Step(env, t, WithVenues(sub, v));
            SameKeys(s', t') && FreshAgree(r, r')
  {
    hide Step, KeptLog, SameName, NewRow, Decide;
    var sub' := WithVenues(sub, v);
    SameKeysRecorded(s, t, sub.Key());
    if HasKey(s.log.rows, sub.Key()) {
      var i :| 0 <= i < |s.log.rows| && s.log.rows[i].key == sub.Key();
      var j :| 0 <= j < |t.log.rows| && t.log.rows[j].key == sub.Key();
      DuplicateStep(env, s, sub, i);
      DuplicateStep(env, t, sub', j);
    } else {
      FreshStep(env, s, sub);
      FreshStep(env, t, sub');
      DecisionIgnoresVenues(env.quotient, s.account, sub, v);
      NewNamesAlike(env, s, t, sub, v);
    }
  }

  lemma NewNamesAlike(env: Env, s: State, t: State, sub: Submission, v: Venues)
    requires s.log.lastRowid == t.log.lastRowid
    ensures SameName(NewRow(env.hash, env.codec, s.log, FreshRecord(env, s.account, sub)),
                     NewRow(env.hash, env.codec, t.log, FreshRecord(env, t.account, WithVenues(sub, v))))
  {
    hide Decide, NewRow;
    NewRowLinks(env, s.log, FreshRecord(env, s.account, sub));
    NewRowLinks(env, t.log, FreshRecord(env, t.account, WithVenues(sub, v)));
    FreshNames(env, s.account, sub);
    FreshNames(env, t.account, WithVenues(sub, v));
  }

  ghost predicate SameButVenues(subs: seq<Submission>, others: seq<Submission>) {
    |subs| == |others| && forall i :: 0 <= i < |subs| ==> others[i] == WithVenues(subs[i], others[i].venues)
  }

  /** Two runs of the same submissions with arbitrary venue registries end in the same account and
      the same keys, and decide every fresh submission alike up to warnings. */
  lemma {:induction false} VenuesCannotInterfere(env: Env, s: State, t: State,
                                                 subs: seq<Submission>, others: seq<Submission>)
    requires KeptLog(env, s.log) && KeptLog(env, t.log) && SameKeys(s, t) && SameButVenues(subs, others)
    ensures SameKeys(Run(env, s, subs), Run(env, t, others))
    ensures forall i :: 0 <= i < |subs| ==> FreshAgree(Results(env, s, subs)[i], Results(env, t, others)[i])
    decreases |subs|
  {
    hide Step, KeptLog, SameKeys, FreshAgree, WithVenues, HasKey, Keys;
    if subs != [] {
      StepKeepsKeysAlike(env, s, t, subs[0], others[0].venues);
      StepKeepsTable(env, s, subs[0]);
      StepKeepsTable(env, t, others[0]);
      VenuesCannotInterfere(env, Step(env, s, subs[0]).0, Step(env, t, others[0]).0, subs[1..], others[1..]);
    }
  }

  /** Two logs that differ at most in warnings and in the JSON and hashes derived from them. */
  ghost predicate SimilarRows(env: Env, p: Row, r: Row) {
    && p.rowid == r.rowid && p.eventId == r.eventId && p.key == r.key && p.createdAt == r.createdAt
    && Decodes(env, p) && Decodes(env, r)
    && EraseRecord(RecordIn(env, p)) == EraseRecord(RecordIn(env, r))
  }

  ghost predicate Similar(env: Env, s: State, t: State) {
    && s.account == t.account && s.log.lastRowid == t.log.lastRowid
    && |s.log.rows| == |t.log.rows|
    && forall i :: 0 <= i < |s.log.rows| ==> SimilarRows(env, s.log.rows[i], t.log.rows[i])
  }

  lemma SimilarAnswers(env: Env, p: Row, r: Row)
    requires SimilarRows(env, p, r)
    ensures p.key == r.key && EraseResult(Answer(env, p)) == EraseResult(Answer(env, r))
  {
    var x, y := RecordIn(env, p), RecordIn(env, r);
    assert Erase(x.outcome) == EraseRecord(x).outcome == EraseRecord(y).outcome == Erase(y.outcome);
    assert x.order == EraseRecord(x).order == EraseRecord(y).order == y.order;
  }

  lemma SimilarKeys(env: Env, s: State, t: State, key: string)
    requires Similar(env, s, t)
    ensures HasKey(s.log.rows, key) <==> HasKey(t.log.rows, key)
  {
    if i :| 0 <= i < |s.log.rows| && s.log.rows[i].key == key {
      assert SimilarRows(env, s.log.rows[i], t.log.rows[i]);
    }
    if i :| 0 <= i < |t.log.rows| && t.log.rows[i].key == key {
      assert SimilarRows(env, s.log.rows[i], t.log.rows[i]);
    }
  }

  /** One step from similar states, with any two venue registries, gives similar states and
      answers that differ at most in warnings. */
  lemma StepIgnoresVenues(env: Env, s: State, t: State, sub: Submission, v: Venues)
    requires Faithful(env.codec) && Clean(sub) && GoodLog(env, s.log) && GoodLog(env, t.log)
    requires Similar(env, s, t)
    ensures var (s', r), (t', r') := Step(env, s, sub), Step(env, t, WithVenues(sub, v));
            Similar(env, s', t') && EraseResult(r) == EraseResult(r')
  {
    hide Step, Faithful, Clean, GoodLog, SimilarRows, EraseResult, Decide, Shaped;
    var sub' := WithVenues(sub, v);
    CleanIgnoresVenues(sub, v);
    SimilarKeys(env, s, t, sub.Key());
    GoodIsKept(env, s.log);
    GoodIsKept(env, t.log);
    if HasKey(s.log.rows, sub.Key()) {
      var i :| 0 <= i < |s.log.rows| && s.log.rows[i].key == sub.Key();
      SimilarAnswers(env, s.log.rows[i], t.log.rows[i]);
      DuplicateStep(env, s, sub, i);
      DuplicateStep(env, t, sub', i);
    } else {
      FreshStepsAreSimilar(env, s, t, sub, v);
    }
  }

  lemma CleanIgnoresVenues(sub: Submission, v: Venues)
    ensures Clean(sub) <==> Clean(WithVenues(sub, v))
  {
    hide Quotes.QuoteFor, FourDigitYear;
  }

  lemma FreshStepsAreSimilar(env: Env, s: State, t: State, sub: Submission, v: Venues)
    requires Faithful(env.codec) && Clean(sub) && Clean(WithVenues(sub, v))
    requires KeptLog(env, s.log) && KeptLog(env, t.log) && Similar(env, s, t)
    requires !HasKey(s.log.rows, sub.Key()) && !HasKey(t.log.rows, sub.Key())
    ensures var (s', r), (t', r') := Step(env, s, sub), Step(env, t, WithVenues(sub, v));
            Similar(env, s', t') && EraseResult(r) == EraseResult(r')
  {
    hide Step, Faithful, Clean, KeptLog, NewRow, Decide, Shaped, HasKey, SimilarRows;
    var sub' := WithVenues(sub, v);
    FreshStep(env, s, sub);
    FreshStep(env, t, sub');
    DecisionIgnoresVenues(env.quotient, s.account, sub, v);
    FreshRowsAreSimilar(env, s, t, sub, v);
  }

  lemma FreshRowsAreSimilar(env: Env, s: State, t: State, sub: Submission, v: Venues)
    requires Faithful(env.codec) && Clean(sub) && Clean(WithVenues(sub, v))
    requires s.account == t.account && s.log.lastRowid == t.log.lastRowid
    ensures SimilarRows(env,
              NewRow(env.hash, env.codec, s.log, FreshRecord(env, s.account, sub)),
              NewRow(env.hash, env.codec, t.log, FreshRecord(env, t.account, WithVenues(sub, v))))
  {
    hide Faithful, Clean, Decide, Shaped, Head, Frame, Timestamp.Render;
    FreshRowIsGood(env, s, sub);
    FreshRowIsGood(env, t, WithVenues(sub, v));
    DecisionIgnoresVenues(env.quotient, s.account, sub, v);
  }

  /** When the records can be read back, the records themselves are the same up to warnings, and
      so is every answer, to a recorded key as well. */
  lemma {:induction false} VenuesOnlyAddWarnings(env: Env, s: State, t: State,
                                                 subs: seq<Submission>, others: seq<Submission>)
    requires Faithful(env.codec) && AllClean(subs) && GoodLog(env, s.log) && GoodLog(env, t.log)
    requires Similar(env, s, t) && SameButVenues(subs, others)
    ensures Similar(env, Run(env, s, subs), Run(env, t, others))
    ensures forall i :: 0 <= i < |subs| ==>
              EraseResult(Results(env, s, subs)[i]) == EraseResult(Results(env, t, others)[i])
    decreases |subs|
  {
    hide Step, Faithful, Clean, GoodLog, Similar, Shaped, EraseResult, WithVenues, HasKey;
    if subs != [] {
      var v := others[0].venues;
      CleanIgnoresVenues(subs[0], v);
      StepIgnoresVenues(env, s, t, subs[0], v);
      StepKeepsLog(env, s, subs[0]);
      StepKeepsLog(env, t, others[0]);
      VenuesOnlyAddWarnings(env, Step(env, s, subs[0]).0, Step(env, t, others[0]).0, subs[1..], others[1..]);
    }
  }

  // ----- The log of a run is tamper-evident -----

  /** Whatever log passes the verifier with the head of a run's log holds the run's content, or
      the hash is broken. */
  lemma RunLogIsTamperEvident(env: Env, s: State, subs: seq<Submission>, other: seq<Row>)
    returns (e: Option<Break>)
    requires KeptLog(env, s.log)
    requires Verify(env.hash, other).failure.None?
    requires Head(other) == Head(Run(env, s, subs).log.rows)
    ensures e.None? ==> SameContent(Run(env, s, subs).log.rows, other)
    ensures e.Some? ==> Breaks(env.hash, e.value)
  {
    hide Run, Linked, SameContent, Head, Breaks;
    RunKeepsTable(env, s, subs);
    VerifyExact(env.hash, other);
    VerifyExact(env.hash, Run(env, s, subs).log.rows);
    e := TamperEvidence(env.hash, Run(env, s, subs).log.rows, other);
  }

  /** Removing any rows but a suffix from a run's log is reported at the gap. */
  lemma RunLogDeletionDetected(env: Env, s: State, subs: seq<Submission>, i: nat, j: nat)
    returns (e: Option<Break>)
    requires KeptLog(env, s.log)
    requires i < j < |Run(env, s, subs).log.rows|
    ensures var rows := Run(env, s, subs).log.rows;
            e.None? ==> Verify(env.hash, rows[..i] + rows[j..])
                        == IntegrityReport(i, Some(ChainBroken(rows[j].rowid, "evt-" + rows[j].key)))
    ensures e.Some? ==> Breaks(env.hash, e.value)
  {
    hide Run, Linked, Breaks, Verify;
    RunKeepsTable(env, s, subs);
    e := DeletionDetected(env.hash, Run(env, s, subs).log.rows, i, j);
  }

  /** Whatever is made of the rows of a run's log by moving, dropping or repeating them passes the
      verifier exactly when only a suffix is missing, or the hash is broken. */
  lemma RunLogRearrangementDetected(env: Env, s: State, subs: seq<Submission>, other: seq<Row>)
    returns (e: Option<Break>)
    requires KeptLog(env, s.log) && DrawnFrom(other, Run(env, s, subs).log.rows)
    ensures e.None? ==>
              (Verify(env.hash, other).failure.None? <==> BeginsLike(other, Run(env, s, subs).log.rows))
    ensures e.Some? ==> Breaks(env.hash, e.value)
  {
    hide Run, Linked, Breaks, Verify, DrawnFrom, BeginsLike;
    RunKeepsTable(env, s, subs);
    e := RearrangementDetected(env.hash, Run(env, s, subs).log.rows, other);
  }

  /** The hash the program uses. */
  const SHA256: Hash := (m: Bytes) => Sha256.CanonicalHash(m)

  /** For it, a broken hash means two messages with one SHA-256 digest, or one that hashes to
      the anchor. */
  lemma BrokenSha256(b: Break)
    requires Breaks(SHA256, b)
    ensures match b
            case Collision(x, y) => x != y && Sha256.Digest(x) == Sha256.Digest(y)
            case GenesisPreimage(x) => Sha256.CanonicalHash(x) == Genesis()
  {
    hide Sha256.Digest, Sha256.CanonicalHash, Genesis;
    if b.Collision? {
      Sha256.CanonicalHashInjective(b.x, b.y);
    }
  }
}
