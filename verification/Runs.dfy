/** Whole runs of the protocol: what holds after any sequence of submissions. */
module Runs {
  import opened Prelude
  import opened FixedDecimal
  import opened Timestamp
  import opened Records
  import opened PaperMarket
  import opened Ledger
  import opened Policy
  import opened HashChain
  import opened AuditLog
  import opened Execution
  import opened Protocol

  // ----- Logs that the protocol writes -----

  /** What the table keeps in every run, whatever is submitted: one row a key, linked in order. */
  ghost predicate KeptLog(env: Env, log: Log) {
    && (forall i :: 0 <= i < |log.rows| ==> log.rows[i].eventId == "evt-" + log.rows[i].key)
    && DistinctKeys(log.rows)
    && Linked(env.hash, log.rows)
    && (forall i, j :: 0 <= i < j < |log.rows| ==> log.rows[i].rowid < log.rows[j].rowid)
    && (forall i :: 0 <= i < |log.rows| ==> log.rows[i].rowid <= log.lastRowid)
  }

  ghost predicate Decodes(env: Env, row: Row) { env.codec.decode(row.recordJson).Some? }

  function RecordIn(env: Env, row: Row): AuditRecord
    requires Decodes(env, row)
  {
    env.codec.decode(row.recordJson).value
  }

  /** A row holds the record of its key, and the record has the protocol's shape. */
  ghost predicate GoodRow(env: Env, row: Row) {
    && Decodes(env, row)
    && var r := RecordIn(env, row);
       && r.idempotencyKey == row.key && r.eventId == row.eventId
       && row.createdAt == Timestamp.Render(r.createdAt)
       && Shaped(r.outcome, r.order)
  }

  ghost predicate GoodLog(env: Env, log: Log) {
    KeptLog(env, log) && forall i :: 0 <= i < |log.rows| ==> GoodRow(env, log.rows[i])
  }

  lemma EmptyLogIsGood(env: Env)
    ensures GoodLog(env, EMPTY_LOG)
  {
  }

  /** What a caller has to supply for the record to survive its own text: values that came in as
      text, a clock within the years 0000 to 9999, and a quote that is not the minimum. */
  ghost predicate Clean(sub: Submission) {
    && FourDigitYear(sub.now)
    && ReadableInstrument(sub.intent.instrument)
    && ReadableDecimal(sub.intent.quantity) && ReadableOption(sub.intent.limitPrice)
    && var quote := sub.quotes.QuoteFor(sub.intent.instrument.id);
       ReadableDecimal(quote.bid) && ReadableDecimal(quote.ask)
  }

  ghost predicate AllClean(subs: seq<Submission>) {
    forall i :: 0 <= i < |subs| ==> Clean(subs[i])
  }

  /** The record a fresh submission leaves. */
  function FreshRecord(env: Env, a: Account, sub: Submission): AuditRecord {
    var d := Decide(env.quotient, a, sub);
    RecordOf(sub, d.outcome, d.order)
  }

  /** The record names the submission's key and intent and its time, and holds what was decided. */
  lemma RecordCarriesSubmission(env: Env, a: Account, sub: Submission)
    ensures var r, d := FreshRecord(env, a, sub), Decide(env.quotient, a, sub);
            && r.eventId == "evt-" + sub.intent.idempotencyKey && r.idempotencyKey == sub.intent.idempotencyKey
            && r.intentId == sub.intent.intentId && r.createdAt == sub.now
            && r.outcome == d.outcome && r.order == d.order
  {
    hide Decide;
  }

  ghost predicate StorableOption(o: Option<Order>) { o.Some? ==> StorableOrder(o.value) }

  /** Whether the submission becomes a working order on this account. */
  predicate Placed(a: Account, sub: Submission) {
    Gate(a.accountAlias, sub).None? && (Purchases(sub.intent.side) ==> Estimate(sub).raw <= Spendable(a))
  }

  /** When the record a submission leaves can be read back, in terms of what is submitted: the
      clock is within the years 0000 to 9999, and so is the expiry of an instrument that passes the
      gates; none of its decimals, nor the limit price, nor the price it fills at, if it does, is
      the minimum. */
  ghost predicate Survives(a: Account, sub: Submission) {
    && FourDigitYear(sub.now)
    && (Gate(a.accountAlias, sub).None? ==>
          ReadableInstrument(sub.intent.instrument) && ReadableOption(sub.intent.limitPrice))
    && (Placed(a, sub) ==> FillIsReadable(sub))
  }

  ghost predicate FillIsReadable(sub: Submission) {
    var f := sub.quotes.SimulateFill(TermsOf(sub));
    f.FilledAt? ==> ReadableDecimal(f.price)
  }

  /** That is exactly when the record survives its own text. */
  lemma StorableExactly(env: Env, a: Account, sub: Submission)
    ensures Storable(FreshRecord(env, a, sub)) <==> Survives(a, sub)
  {
    hide Gate, Work, Estimate, Account.BuyingPower, StorableOrder, FourDigitYear, FillIsReadable, MeetsRules, Backs;
    hide ReadableInstrument;
    if Gate(a.accountAlias, sub).None? {
      GatePasses(a.accountAlias, sub);
      BuyingPowerExact(a);
      RejectedIsStorable(sub);
      WorkIsStorable(env.quotient, a, sub);
      WorkIsStorable(env.quotient, Reserve(a, Estimate(sub)), sub);
    }
  }

  lemma RejectedIsStorable(sub: Submission)
    requires sub.intent.quantity.raw > 0
    ensures StorableOrder(NewOrder(TermsOf(sub)).(state := Rejected))
            <==> FourDigitYear(sub.now) && ReadableInstrument(sub.intent.instrument)
                 && ReadableOption(sub.intent.limitPrice)
  {
    hide TermsOf, FourDigitYear, ReadableInstrument;
    TermsAre(sub);
  }

  lemma WorkIsStorable(q: Quotient, a: Account, sub: Submission)
    requires sub.intent.quantity.raw > 0
    ensures StorableOption(Work(q, a, sub).order) <==>
              FourDigitYear(sub.now) && ReadableInstrument(sub.intent.instrument)
              && ReadableOption(sub.intent.limitPrice) && FillIsReadable(sub)
  {
    hide Quotes.SimulateFill, ApplyTrade, FillOrder, TermsOf, Acceptance, FourDigitYear, ReadableInstrument;
    TermsAre(sub);
    match sub.quotes.SimulateFill(TermsOf(sub))
    case FilledAt(price) => FilledIsStorable(q, TermsOf(sub), FillOf(sub, price));
    case StaysOpen =>
  }

  /** An order filled at once is storable when its terms and the fill's price are. */
  lemma FilledIsStorable(q: Quotient, terms: OrderTerms, fill: Fill)
    requires fill.quantity == terms.quantity && fill.filledAt == terms.createdAt && terms.quantity.raw > 0
    ensures StorableOrder(FillOrder(q, NewOrder(terms).(state := Acknowledged), fill)) <==>
              FourDigitYear(terms.createdAt) && ReadableInstrument(terms.instrument)
              && ReadableOption(terms.limitPrice) && ReadableDecimal(fill.price)
  {
    hide Decimal.CheckedMul, OrZero, FourDigitYear, ReadableInstrument;
    var o := NewOrder(terms).(state := Acknowledged);
    FillOrderAdds(q, o, fill);
    AverageIsReadable(q, o, fill);
    hide FillOrder;
    var r := FillOrder(q, o, fill);
    assert r.fills == [fill];
    assert r.fills[0] == fill;
  }

  lemma AverageIsReadable(q: Quotient, o: Order, fill: Fill)
    requires ReadableOption(o.averageFillPrice)
    ensures ReadableOption(FillOrder(q, o, fill).averageFillPrice)
  {
    hide Decimal.CheckedMul, Decimal.CheckedAdd, UnwrapOr, OrZero;
  }

  /** A clean submission survives whatever account it meets. */
  lemma CleanSurvives(a: Account, sub: Submission)
    requires Clean(sub)
    ensures Survives(a, sub)
  {
    hide Gate, Placed, Quotes.QuoteFor, FourDigitYear, ReadableInstrument;
  }

  // ----- One step -----

  lemma EventIdsFollowKeys(env: Env, log: Log, key: string)
    requires KeptLog(env, log)
    ensures HasEvent(log.rows, "evt-" + key) <==> HasKey(log.rows, key)
  {
    if i :| 0 <= i < |log.rows| && log.rows[i].eventId == "evt-" + key {
      assert ("evt-" + key)[4..] == key && ("evt-" + log.rows[i].key)[4..] == log.rows[i].key;
    }
    if i :| 0 <= i < |log.rows| && log.rows[i].key == key {
      assert log.rows[i].eventId == "evt-" + key;
    }
  }

  /** A fresh key adds exactly one row, linked to the head, and the append meets no constraint. */
  lemma FreshStep(env: Env, s: State, sub: Submission)
    requires KeptLog(env, s.log) && !HasKey(s.log.rows, sub.Key())
    ensures var d := Decide(env.quotient, s.account, sub);
            var row := NewRow(env.hash, env.codec, s.log, FreshRecord(env, s.account, sub));
            Step(env, s, sub) == (State(d.account, Log(s.log.rows + [row], s.log.lastRowid + 1)),
                                  Ok(ExecutionResult(d.outcome, d.order, false)))
  {
    hide Decide, NewRow, KeptLog, HasKey, HasEvent, FindKey, AppendTo;
    FindKeyAbsent(env.codec, s.log.rows, sub.Key());
    EventIdsFollowKeys(env, s.log, sub.Key());
    AppendFresh(env.hash, env.codec, s.log, FreshRecord(env, s.account, sub));
  }

  /** The answer a recorded key gets: its recorded outcome and order, if its row can be read. */
  function Answer(env: Env, row: Row): StepResult {
    match env.codec.decode(row.recordJson)
    case Some(r) => Ok(ExecutionResult(r.outcome, r.order, true))
    case None => Err(InvalidJson)
  }

  /** A recorded key is answered from its row and changes nothing, whatever else is submitted:
      the order is never placed a second time, even if the row cannot be read back. */
  lemma DuplicateStep(env: Env, s: State, sub: Submission, i: nat)
    requires KeptLog(env, s.log) && i < |s.log.rows| && s.log.rows[i].key == sub.Key()
    ensures Step(env, s, sub) == (s, Answer(env, s.log.rows[i]))
  {
    hide Decide, Persist;
    FindKeyExact(env.codec, s.log.rows, i);
  }

  lemma NewRowLinks(env: Env, log: Log, r: AuditRecord)
    ensures var row := NewRow(env.hash, env.codec, log, r);
            && row.prevHash == Head(log.rows) && row.contentHash == RowHash(env.hash, row)
            && row.rowid == log.lastRowid + 1 && row.key == r.idempotencyKey && row.eventId == r.eventId
            && row.recordJson == env.codec.encode(r)
  {
  }

  lemma KeptLogGrows(env: Env, log: Log, row: Row)
    requires KeptLog(env, log) && !HasKey(log.rows, row.key) && row.eventId == "evt-" + row.key
    requires row.prevHash == Head(log.rows) && row.contentHash == RowHash(env.hash, row)
    requires row.rowid == log.lastRowid + 1
    ensures KeptLog(env, Log(log.rows + [row], log.lastRowid + 1))
  {
    hide Linked;
    AppendLinked(env.hash, log.rows, row);
  }

  /** What every step does to the table: it adds the row of a fresh key and nothing else. */
  ghost predicate RowsKept(before: Log, after: Log, key: string) {
    && before.rows <= after.rows && HasKey(after.rows, key)
    && |after.rows| == |before.rows| + (if HasKey(before.rows, key) then 0 else 1)
    && Keys(after.rows) == Keys(before.rows) + {key}
  }

  function Keys(rows: seq<Row>): set<string> { set i | 0 <= i < |rows| :: rows[i].key }

  lemma KeysAppend(rows: seq<Row>, row: Row)
    ensures Keys(rows + [row]) == Keys(rows) + {row.key}
    ensures HasKey(rows + [row], row.key)
  {
    var r := rows + [row];
    assert r[|rows|].key == row.key;
    forall k | k in Keys(rows) ensures k in Keys(r) {
      var i :| 0 <= i < |rows| && rows[i].key == k;
      assert r[i].key == k;
    }
  }

  lemma HasKeyIsMember(rows: seq<Row>, key: string)
    ensures HasKey(rows, key) <==> key in Keys(rows)
  {
  }

  /** Any step, whatever is submitted, keeps the table and fails only on an unreadable row. */
  lemma StepKeepsTable(env: Env, s: State, sub: Submission)
    requires KeptLog(env, s.log)
    ensures var (s', r) := Step(env, s, sub);
            && KeptLog(env, s'.log) && RowsKept(s.log, s'.log, sub.Key())
            && (HasKey(s.log.rows, sub.Key()) ==> s' == s)
            && (r.Ok? || r == Err(InvalidJson))
            && (r.Ok? ==> (r.value.wasDuplicate <==> HasKey(s.log.rows, sub.Key())))
  {
    hide Step, KeptLog, NewRow, Decide, RecordOf, Head, RowHash, Keys;
    HasKeyIsMember(s.log.rows, sub.Key());
    if HasKey(s.log.rows, sub.Key()) {
      var i :| 0 <= i < |s.log.rows| && s.log.rows[i].key == sub.Key();
      DuplicateStep(env, s, sub, i);
      assert Keys(s.log.rows) + {sub.Key()} == Keys(s.log.rows);
    } else {
      FreshStep(env, s, sub);
      var r := FreshRecord(env, s.account, sub);
      var row := NewRow(env.hash, env.codec, s.log, r);
      FreshNames(env, s.account, sub);
      NewRowLinks(env, s.log, r);
      KeptLogGrows(env, s.log, row);
      KeysAppend(s.log.rows, row);
    }
  }

  lemma FreshNames(env: Env, a: Account, sub: Submission)
    ensures FreshRecord(env, a, sub).idempotencyKey == sub.Key()
    ensures FreshRecord(env, a, sub).eventId == "evt-" + sub.Key()
  {
    hide Decide;
  }

  /** The fresh row holds the fresh record. */
  lemma FreshRowIsGood(env: Env, s: State, sub: Submission)
    requires Faithful(env.codec) && Clean(sub)
    ensures var r := FreshRecord(env, s.account, sub);
            var row := NewRow(env.hash, env.codec, s.log, r);
            GoodRow(env, row) && RecordIn(env, row) == r && row.key == sub.Key()
  {
    hide Decide, Clean, Storable, Shaped, Survives;
    CleanSurvives(s.account, sub);
    StorableExactly(env, s.account, sub);
    DecisionIsShaped(env.quotient, s.account, sub);
  }

  /** A clean step keeps every row readable and shaped, and returns no error. */
  lemma StepKeepsLog(env: Env, s: State, sub: Submission)
    requires Faithful(env.codec) && Clean(sub) && GoodLog(env, s.log)
    ensures var (s', r) := Step(env, s, sub);
            && GoodLog(env, s'.log) && RowsKept(s.log, s'.log, sub.Key())
            && r.Ok? && Shaped(r.value.outcome, r.value.order)
  {
    hide Step, KeptLog, GoodRow, Clean, Faithful, Shaped, NewRow, Decide, RecordOf, RecordIn, RowsKept;
    StepKeepsTable(env, s, sub);
    if HasKey(s.log.rows, sub.Key()) {
      var i :| 0 <= i < |s.log.rows| && s.log.rows[i].key == sub.Key();
      DuplicateStep(env, s, sub, i);
      RowIsShaped(env, s.log, i);
    } else {
      FreshStep(env, s, sub);
      FreshRowIsGood(env, s, sub);
      DecisionIsShaped(env.quotient, s.account, sub);
    }
  }

  lemma RowIsShaped(env: Env, log: Log, i: nat)
    requires GoodLog(env, log) && i < |log.rows|
    ensures Decodes(env, log.rows[i]) && log.rows[i].eventId == "evt-" + log.rows[i].key
    ensures var r := RecordIn(env, log.rows[i]);
            Shaped(r.outcome, r.order) && Answer(env, log.rows[i]) == Ok(ExecutionResult(r.outcome, r.order, true))
  {
    assert GoodRow(env, log.rows[i]);
  }

  // ----- Runs -----

  function Run(env: Env, s: State, subs: seq<Submission>): State
    decreases |subs|
  {
    if subs == [] then s else Run(env, Step(env, s, subs[0]).0, subs[1..])
  }

  function Results(env: Env, s: State, subs: seq<Submission>): (rs: seq<StepResult>)
    ensures |rs| == |subs|
    decreases |subs|
  {
    if subs == [] then []
    else [Step(env, s, subs[0]).1] + Results(env, Step(env, s, subs[0]).0, subs[1..])
  }

  /** Whatever is submitted, the table stays linked and keyed, passes the verifier, only grows,
      and no run ever meets a UNIQUE constraint. */
  lemma {:induction false} RunKeepsTable(env: Env, s: State, subs: seq<Submission>)
    requires KeptLog(env, s.log)
    ensures var end := Run(env, s, subs);
            && KeptLog(env, end.log) && s.log.rows <= end.log.rows
            && Verify(env.hash, end.log.rows) == IntegrityReport(|end.log.rows|, None)
    ensures forall i :: 0 <= i < |subs| ==> Results(env, s, subs)[i].Ok? || Results(env, s, subs)[i] == Err(InvalidJson)
    decreases |subs|
  {
    hide Step, Keys, HasKey;
    if subs != [] {
      StepKeepsTable(env, s, subs[0]);
      RunKeepsTable(env, Step(env, s, subs[0]).0, subs[1..]);
    }
    VerifyExact(env.hash, Run(env, s, subs).log.rows);
  }

  /** Clean submissions keep every record readable and shaped, and never err. */
  lemma {:induction false} RunKeepsLog(env: Env, s: State, subs: seq<Submission>)
    requires Faithful(env.codec) && AllClean(subs) && GoodLog(env, s.log)
    ensures GoodLog(env, Run(env, s, subs).log) && s.log.rows <= Run(env, s, subs).log.rows
    ensures forall i :: 0 <= i < |subs| ==>
              Results(env, s, subs)[i].Ok?
              && Shaped(Results(env, s, subs)[i].value.outcome, Results(env, s, subs)[i].value.order)
    decreases |subs|
  {
    hide Step, Faithful, GoodLog, Clean, Shaped, Keys, HasKey;
    if subs != [] {
      StepKeepsLog(env, s, subs[0]);
      RunKeepsLog(env, Step(env, s, subs[0]).0, subs[1..]);
    }
  }

  // ----- Idempotency -----

  /** The submissions left after deleting each whose key is in `seen` or came earlier. */
  function Deduplicated(seen: set<string>, subs: seq<Submission>): seq<Submission>
    decreases |subs|
  {
    if subs == [] then []
    else if subs[0].Key() in seen then Deduplicated(seen, subs[1..])
    else [subs[0]] + Deduplicated(seen + {subs[0].Key()}, subs[1..])
  }

  /** Deleting every submission whose key is recorded or came earlier leaves the final account
      and the final log identical, whatever is submitted. */
  lemma {:induction false} RunIsIdempotent(env: Env, s: State, subs: seq<Submission>)
    requires KeptLog(env, s.log)
    ensures Run(env, s, subs) == Run(env, s, Deduplicated(Keys(s.log.rows), subs))
    decreases |subs|
  {
    hide Step, KeptLog, Keys, HasKey;
    if subs != [] {
      var s' := Step(env, s, subs[0]).0;
      StepKeepsTable(env, s, subs[0]);
      HasKeyIsMember(s.log.rows, subs[0].Key());
      RunIsIdempotent(env, s', subs[1..]);
      var rest := Deduplicated(Keys(s'.log.rows), subs[1..]);
      assert ([subs[0]] + rest)[1..] == rest;
    }
  }

  lemma ResultsAt(env: Env, s: State, subs: seq<Submission>, j: nat)
    requires j < |subs|
    ensures j == 0 ==> Results(env, s, subs)[j] == Step(env, s, subs[0]).1
    ensures j > 0 ==> Results(env, s, subs)[j] == Results(env, Step(env, s, subs[0]).0, subs[1..])[j - 1]
  {
    hide Step;
  }

  /** A submission whose key is in the log at the start gets the recorded answer, wherever it
      stands in the run and whatever is submitted around it. */
  lemma {:induction false} RecordedKeyIsAnswered(env: Env, s: State, subs: seq<Submission>, row: nat, j: nat)
    requires KeptLog(env, s.log)
    requires row < |s.log.rows| && j < |subs| && subs[j].Key() == s.log.rows[row].key
    ensures Results(env, s, subs)[j] == Answer(env, s.log.rows[row])
    decreases |subs|
  {
    hide Step, KeptLog, HasKey, Results, Keys;
    ResultsAt(env, s, subs, j);
    if j == 0 {
      DuplicateStep(env, s, subs[0], row);
    } else {
      StepKeepsTable(env, s, subs[0]);
      RecordedKeyIsAnswered(env, Step(env, s, subs[0]).0, subs[1..], row, j - 1);
    }
  }

  /** The answer to a resubmission: the original one, marked as a duplicate. */
  function AsDuplicate(r: StepResult): StepResult {
    match r
    case Ok(x) => Ok(x.(wasDuplicate := true))
    case Err(e) => Err(e)
  }

  /** What comes back when a record is written and read again. */
  function Reread(c: Codec, r: AuditRecord): StepResult {
    match c.decode(c.encode(r))
    case Some(x) => Ok(ExecutionResult(x.outcome, x.order, true))
    case None => Err(InvalidJson)
  }

  /** After any step the log holds a row of the submitted key, whose answer is what the step
      returned, or what is read back of the record it just wrote. */
  lemma StepLeavesItsAnswer(env: Env, s: State, sub: Submission) returns (row: nat)
    requires KeptLog(env, s.log)
    ensures var (s', r) := Step(env, s, sub);
            && row < |s'.log.rows| && s'.log.rows[row].key == sub.Key()
            && Answer(env, s'.log.rows[row]) ==
                 if HasKey(s.log.rows, sub.Key()) then AsDuplicate(r)
                 else Reread(env.codec, FreshRecord(env, s.account, sub))
  {
    hide Step, KeptLog, NewRow, FreshRecord;
    if HasKey(s.log.rows, sub.Key()) {
      row :| 0 <= row < |s.log.rows| && s.log.rows[row].key == sub.Key();
      DuplicateStep(env, s, sub, row);
    } else {
      FreshStep(env, s, sub);
      FreshNames(env, s.account, sub);
      NewRowLinks(env, s.log, FreshRecord(env, s.account, sub));
      row := |s.log.rows|;
    }
  }

  /** A resubmitted key gets the answer to its first submission again if that key was already
      recorded then, and otherwise what is read back of the record that submission wrote. Quotes,
      account, clock and intent may have changed, anything may be submitted around it, and records
      may be encoded in any way. */
  lemma {:induction false} ResubmissionIsReread(env: Env, s: State, subs: seq<Submission>, i: nat, j: nat)
    requires KeptLog(env, s.log) && i < j < |subs| && subs[i].Key() == subs[j].Key()
    ensures var before := Run(env, s, subs[..i]);
            Results(env, s, subs)[j] ==
              if HasKey(before.log.rows, subs[i].Key()) then AsDuplicate(Results(env, s, subs)[i])
              else Reread(env.codec, FreshRecord(env, before.account, subs[i]))
    decreases |subs|
  {
    hide Step, KeptLog, HasKey, Results, Keys, FreshRecord, Reread;
    var s' := Step(env, s, subs[0]).0;
    StepKeepsTable(env, s, subs[0]);
    ResultsAt(env, s, subs, i);
    ResultsAt(env, s, subs, j);
    if i > 0 {
      assert subs[..i][1..] == subs[1..][..i - 1];
      ResubmissionIsReread(env, s', subs[1..], i - 1, j - 1);
    } else {
      var row := StepLeavesItsAnswer(env, s, subs[0]);
      RecordedKeyIsAnswered(env, s', subs[1..], row, j - 1);
    }
  }

  /** The result a submission gets where it stands in a run. */
  lemma {:induction false} ResultWhenReached(env: Env, s: State, subs: seq<Submission>, i: nat)
    requires i < |subs|
    ensures Results(env, s, subs)[i] == Step(env, Run(env, s, subs[..i]), subs[i]).1
    decreases i
  {
    hide Step, Results;
    ResultsAt(env, s, subs, i);
    if i > 0 {
      assert subs[..i][1..] == subs[1..][..i - 1];
      ResultWhenReached(env, Step(env, s, subs[0]).0, subs[1..], i - 1);
    }
  }

  /** A submission of a key that is fresh when it is reached is answered with what it records. */
  lemma FirstAnswer(env: Env, s: State, subs: seq<Submission>, i: nat)
    requires KeptLog(env, s.log) && i < |subs|
    ensures var before := Run(env, s, subs[..i]);
            var r := FreshRecord(env, before.account, subs[i]);
            !HasKey(before.log.rows, subs[i].Key()) ==>
              Results(env, s, subs)[i] == Ok(ExecutionResult(r.outcome, r.order, false))
  {
    hide Run, Results, Step, KeptLog, HasKey, Decide;
    var before := Run(env, s, subs[..i]);
    RunKeepsTable(env, s, subs[..i]);
    ResultWhenReached(env, s, subs, i);
    if !HasKey(before.log.rows, subs[i].Key()) {
      FreshStep(env, before, subs[i]);
    }
  }

  /** Whether the record of submission `i` of a run can be read back, or was there before it. */
  ghost predicate Remembered(env: Env, s: State, subs: seq<Submission>, i: nat)
    requires i < |subs|
  {
    var before := Run(env, s, subs[..i]);
    HasKey(before.log.rows, subs[i].Key()) || Survives(before.account, subs[i])
  }

  /** A resubmitted key gets the outcome and order of its first submission, marked as a duplicate,
      exactly when the record of that submission can be read back; otherwise it gets an error. */
  lemma ResubmissionGetsOriginal(env: Env, s: State, subs: seq<Submission>, i: nat, j: nat)
    requires KeptLog(env, s.log) && i < j < |subs| && subs[i].Key() == subs[j].Key()
    requires Exact(env.codec)
    ensures Results(env, s, subs)[j] == AsDuplicate(Results(env, s, subs)[i]) <==> Remembered(env, s, subs, i)
    ensures !Remembered(env, s, subs, i) ==> Results(env, s, subs)[j] == Err(InvalidJson)
  {
    hide Run, Results, KeptLog, HasKey, Survives, Storable, FreshRecord;
    ResubmissionIsReread(env, s, subs, i, j);
    FirstAnswer(env, s, subs, i);
    StorableExactly(env, Run(env, s, subs[..i]).account, subs[i]);
  }

  /** Under a codec of which only the faithful half is known, a readable record is enough. */
  lemma ReadableRecordIsRemembered(env: Env, s: State, subs: seq<Submission>, i: nat, j: nat)
    requires KeptLog(env, s.log) && i < j < |subs| && subs[i].Key() == subs[j].Key()
    requires Faithful(env.codec) && Remembered(env, s, subs, i)
    ensures Results(env, s, subs)[j] == AsDuplicate(Results(env, s, subs)[i])
  {
    hide Run, Results, KeptLog, HasKey, Survives, Storable, FreshRecord;
    ResubmissionIsReread(env, s, subs, i, j);
    FirstAnswer(env, s, subs, i);
    StorableExactly(env, Run(env, s, subs[..i]).account, subs[i]);
  }

  lemma GoodIsKept(env: Env, log: Log)
    requires GoodLog(env, log)
    ensures KeptLog(env, log)
  {
  }
}
