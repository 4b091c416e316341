/** What each error of the replay says about the record it refuses: every refusal names a fault that is there. */
module Refusals {
  import opened Wrappers
  import opened Decimals
  import opened Types
  import opened JournalRecords
  import opened Replay
  import opened ReplayTheory
  import opened LogReading
  import opened RecordRules
  import opened ReportRules

  /** An order's Prepared record and the last record about it. */
  ghost predicate OrderAt(records: seq<JournalRecord>, c: Cloid, i: nat, k: nat) {
    PreparedAt(records, i, c) && LastOn(records, k, c)
  }

  predicate Unreadable(t: Text) {
    Parse(t).None?
  }

  // ---- opening an order ----

  ghost predicate PreparedFault(records: seq<JournalRecord>, rec: JournalRecord, e: ReplayError)
    requires rec.Prepared?
  {
    match e
    case ConflictingPrepared(c) =>
      c == rec.cloid && exists i :: PreparedAt(records, i, c) && !SameTerms(records[i], rec)
    case InvalidTransition(c) =>
      c == rec.cloid && exists i :: PreparedAt(records, i, c) && SameTerms(records[i], rec)
    case InvalidDecimal(c) => c == rec.cloid && (Unreadable(rec.sz) || Unreadable(rec.px))
    case NegativeSize(c) => c == rec.cloid && Parse(rec.sz).Some? && rec.sz.value < 0.0
    case NonPositivePrice(c) => c == rec.cloid && Parse(rec.px).Some? && rec.px.value <= 0.0
    case _ => false
  }

  ghost predicate SameTerms(a: JournalRecord, b: JournalRecord) {
    a.Prepared? && b.Prepared? && a.sliceIdx == b.sliceIdx && a.symbol == b.symbol && a.side == b.side &&
    a.tif == b.tif && a.px == b.px && a.sz == b.sz
  }

  lemma PreparedRefusal(records: seq<JournalRecord>, st: State, rec: JournalRecord)
    requires Fold(records) == Ok(st) && rec.Prepared? && StepPrepared(st, rec).Err?
    ensures PreparedFault(records, rec, StepPrepared(st, rec).error)
  {
    TablesAreTheReading(records);
    assert ReadsAt(records, st, rec.cloid);
    if rec.cloid in st.prepared {
      PreparedSomewhere(records, rec.cloid);
      var i :| PreparedAt(records, i, rec.cloid);
      TermsAreStated(records, i, rec.cloid);
    }
  }

  // ---- what happens to it ----

  ghost predicate OutcomeFault(records: seq<JournalRecord>, i: nat, k: nat, rec: JournalRecord, e: ReplayError)
    requires IsOutcome(rec) && OrderAt(records, rec.cloid, i, k)
  {
    match e
    case SliceIndexChanged(c) => c == rec.cloid && rec.sliceIdx != records[i].sliceIdx
    case InvalidTransition(c) =>
      c == rec.cloid &&
      (if rec.SubmittedUnknown? then !records[k].Prepared? else rec.Acknowledged? && records[k].Terminal?)
    case _ => rec.Terminal? && TerminalFault(records[i], records[k], rec, e)
  }

  ghost predicate TerminalFault(order: JournalRecord, last: JournalRecord, rec: JournalRecord, e: ReplayError)
    requires order.Prepared? && rec.Terminal?
  {
    match e
    case InvalidTerminalStatus(c) => c == rec.cloid && (rec.status.ExchangeLive? || rec.status.Unrecognised?)
    case InvalidDecimal(c) =>
      c == rec.cloid && (Unreadable(rec.filledSz) || (rec.avgPx.Some? && Unreadable(rec.avgPx.value)))
    case NegativeSize(c) => c == rec.cloid && SizeOf(rec) < 0.0
    case NonPositivePrice(c) =>
      c == rec.cloid && rec.avgPx.Some? && Parse(rec.avgPx.value).Some? && rec.avgPx.value.value <= 0.0
    case FilledSizeExceedsPrepared(c) => c == rec.cloid && order.sz.Numeral? && SizeOf(rec) > order.sz.value
    case AveragePriceViolatesLimit(c) =>
      c == rec.cloid && order.px.Numeral? && rec.avgPx.Some? && Parse(rec.avgPx.value).Some? &&
      if order.side.Long? then rec.avgPx.value.value > order.px.value else rec.avgPx.value.value < order.px.value
    case MissingAveragePriceForShort(c) =>
      c == rec.cloid && rec.avgPx.None? && order.side.Short? && order.tif != Some(Alo) && SizeOf(rec) > 0.0
    case TerminalAccountingRegressed(c) => c == rec.cloid && !TakesNothingBack(order, last, rec)
    case Overflow => Paid(order, rec) > MAX
    case _ => false
  }

  lemma CreditFault(order: JournalRecord, last: JournalRecord, terms: Intent, rec: JournalRecord)
    requires StatesTerms(order, terms) && IntentConsistent(terms) && rec.Terminal?
    requires Credit(rec.cloid, LimitOf(terms), rec.filledSz, rec.avgPx).Err?
    ensures TerminalFault(order, last, rec, Credit(rec.cloid, LimitOf(terms), rec.filledSz, rec.avgPx).error)
  {
    if Parse(rec.filledSz).Some? && rec.filledSz.value > 0.0 && PriceFits(order, rec.avgPx) {
      PaidNonNegative(order, rec);
    }
  }

  /** An order's table entries, in terms of its records. */
  ghost predicate Tabled(st: State, order: JournalRecord, last: JournalRecord, c: Cloid) {
    && c in st.prepared && StatesTerms(order, st.prepared[c]) && IntentConsistent(st.prepared[c])
    && (last.Prepared? || IsOutcome(last)) && c in st.states && st.states[c] == StateOf(last)
    && (c in st.fills <==> last.Terminal?)
    && (c in st.fills ==> st.fills[c].filledSz == SizeOf(last) && st.fills[c].notional == Paid(order, last))
  }

  lemma OrderIsTabled(records: seq<JournalRecord>, st: State, c: Cloid, i: nat, k: nat)
    requires Fold(records) == Ok(st) && OrderAt(records, c, i, k)
    ensures Tabled(st, records[i], records[k], c)
  {
    FoldConsistent(records);
    TablesAreTheReading(records);
    ReadingTables(records, st);
    assert ReadsAt(records, st, c);
    TermsAreStated(records, i, c);
    LastAboutIsLast(records, c);
    OneOrder(records, i, c);
  }

  lemma TerminalRefusal(st: State, order: JournalRecord, last: JournalRecord, rec: JournalRecord)
    requires rec.Terminal? && Tabled(st, order, last, rec.cloid) && StepTerminal(st, rec).Err?
    ensures TerminalFault(order, last, rec, StepTerminal(st, rec).error)
  {
    var terms := st.prepared[rec.cloid];
    if Credit(rec.cloid, LimitOf(terms), rec.filledSz, rec.avgPx).Err? {
      CreditFault(order, last, terms, rec);
    } else {
      PaidIsCredited(order, terms, rec.cloid, rec);
    }
  }

  lemma OutcomeRefusal(records: seq<JournalRecord>, st: State, i: nat, k: nat, rec: JournalRecord)
    requires IsOutcome(rec) && OrderAt(records, rec.cloid, i, k) && Tabled(st, records[i], records[k], rec.cloid)
    requires StepOutcome(st, rec).Err?
    ensures OutcomeFault(records, i, k, rec, StepOutcome(st, rec).error)
  {
    if rec.Terminal? && rec.sliceIdx == records[i].sliceIdx {
      TerminalRefusal(st, records[i], records[k], rec);
    }
  }

  // ---- reports ----

  ghost predicate ReportFault(records: seq<JournalRecord>, rec: JournalRecord, e: ReplayError)
    requires records != [] && records[0].Header? && rec.FinalReport?
  {
    var filled, spent := FilledIn(records, |records|), PaidIn(records, |records|);
    match e
    case InvalidFinalReportFilledTotal => Unreadable(rec.filledTotal)
    case Overflow => filled > MAX || spent > MAX
    case FinalReportFilledTotalMismatch => Parse(rec.filledTotal).Some? && rec.filledTotal.value != filled
    case InvalidWholeRunSummary =>
      rec.wholeRun.Some? &&
      !ClaimIsTrue(records[0].header.fingerprint, rec.wholeRun.value, filled, spent,
                   filled > 0.0 && AllReported(records), |OpenOrders(records)|)
    case CompletedFinalReportNotComplete =>
      rec.completed && (rec.unknownCloids != [] || exists c :: IsUnresolved(records, c))
    case FinalReportUnknownCloidsMismatch =>
      !rec.completed &&
      !(NoDuplicates(rec.unknownCloids) && forall c :: c in rec.unknownCloids <==> IsUnresolved(records, c))
    case _ => false
  }

  lemma ClaimRefusal(header: Option<RunHeader>, claim: Option<WholeRun>, totals: Totals, open: nat)
    ensures CheckWholeRun(header, claim, totals, open).Err? ==>
      CheckWholeRun(header, claim, totals, open).error == InvalidWholeRunSummary
  {
  }

  /** The errors of the report check, by the table it consults. */
  lemma ReportErrors(st: State, rec: JournalRecord)
    requires rec.FinalReport? && StepReport(st, rec).Err?
    ensures var totals, open := TotalsOf(st.order, st.fills), Unresolved(st.order, st.states);
      match StepReport(st, rec).error
      case InvalidFinalReportFilledTotal => Unreadable(rec.filledTotal)
      case Overflow => totals.Err?
      case FinalReportFilledTotalMismatch =>
        Parse(rec.filledTotal).Some? && totals.Ok? && rec.filledTotal.value != totals.value.filledSz
      case InvalidWholeRunSummary => totals.Ok? && CheckWholeRun(st.header, rec.wholeRun, totals.value, |open|).Err?
      case CompletedFinalReportNotComplete => rec.completed && (rec.unknownCloids != [] || open != [])
      case FinalReportUnknownCloidsMismatch => !rec.completed && !NamesExactly(rec.unknownCloids, open)
      case _ => false
  {
    var totals := TotalsOf(st.order, st.fills);
    if totals.Ok? {
      ClaimRefusal(st.header, rec.wholeRun, totals.value, |Unresolved(st.order, st.states)|);
    }
  }

  lemma ReportRefusal(records: seq<JournalRecord>, st: State, rec: JournalRecord)
    requires records != [] && Fold(records) == Ok(st) && rec.FinalReport? && StepReport(st, rec).Err?
    ensures records[0].Header? && ReportFault(records, rec, StepReport(st, rec).error)
  {
    ReportErrors(st, rec);
    FoldConsistent(records);
    TablesAreTheReading(records);
    ReadingTables(records, st);
    HeaderComesFirst(records);
    TotalsByTheRecords(records);
    UnresolvedExactly(records);
    NamesUnresolved(records, rec.unknownCloids);
    if LogTotals(records).Ok? && rec.wholeRun.Some? {
      ClaimExactly(records[0].header, rec.wholeRun.value, LogTotals(records).value, |LogUnresolved(records)|);
    }
  }

  // ---- any record ----

  /** The fault an error names in a record offered to an open journal. */
  ghost predicate IsTrueOf(records: seq<JournalRecord>, rec: JournalRecord, e: ReplayError)
    requires records != [] && records[0].Header?
  {
    match rec
    case Header(_) => e == DuplicateHeader
    case Prepared(_, _, _, _, _, _, _, _) => PreparedFault(records, rec, e)
    case FinalReport(_, _, _, _, _) => ReportFault(records, rec, e)
    case Abandoned(_) => OpenOrders(records) != {} && e == AbandonedWithUnresolved(|OpenOrders(records)|)
    case _ =>
      if forall i :: !PreparedAt(records, i, rec.cloid) then e == MissingPrepared(rec.cloid)
      else forall i: nat, k: nat :: OrderAt(records, rec.cloid, i, k) ==> OutcomeFault(records, i, k, rec, e)
  }

  lemma OutcomeTruth(records: seq<JournalRecord>, st: State, rec: JournalRecord)
    requires IsOpen(records) && Fold(records) == Ok(st) && IsOutcome(rec) && StepOutcome(st, rec).Err?
    ensures records[0].Header? && IsTrueOf(records, rec, StepOutcome(st, rec).error)
  {
    HeaderComesFirst(records);
    TablesAreTheReading(records);
    assert ReadsAt(records, st, rec.cloid);
    PreparedSomewhere(records, rec.cloid);
    forall i: nat, k: nat | OrderAt(records, rec.cloid, i, k)
      ensures OutcomeFault(records, i, k, rec, StepOutcome(st, rec).error)
    {
      OrderIsTabled(records, st, rec.cloid, i, k);
      OutcomeRefusal(records, st, i, k, rec);
    }
  }

  lemma AbandonTruth(records: seq<JournalRecord>, st: State)
    requires Fold(records) == Ok(st) && Unresolved(st.order, st.states) != []
    ensures OpenOrders(records) != {} && |Unresolved(st.order, st.states)| == |OpenOrders(records)|
  {
    FoldConsistent(records);
    TablesAreTheReading(records);
    ReadingTables(records, st);
    UnresolvedExactly(records);
  }

  /** Whatever an open journal refuses, it refuses for a fault the record has. */
  lemma RefusalsAreTrue(records: seq<JournalRecord>, rec: JournalRecord)
    requires IsOpen(records) && Fold(records + [rec]).Err?
    ensures records[0].Header? && IsTrueOf(records, rec, Fold(records + [rec]).error)
  {
    var st := Fold(records).value;
    FoldAppend(records, rec);
    FoldConsistent(records);
    ClosedByLastRecord(records);
    HeaderComesFirst(records);
    if rec.Prepared? {
      PreparedRefusal(records, st, rec);
    } else if rec.FinalReport? {
      ReportRefusal(records, st, rec);
    } else if IsOutcome(rec) {
      OutcomeTruth(records, st, rec);
    } else if rec.Abandoned? {
      AbandonTruth(records, st);
    }
  }

  /** A closed journal takes nothing, and says how it was closed. */
  lemma ClosedTakesNothing(records: seq<JournalRecord>, rec: JournalRecord)
    requires records != [] && Fold(records).Ok?
    ensures records[|records| - 1].Abandoned? ==> Fold(records + [rec]) == Err(RecordAfterAbandoned)
    ensures records[|records| - 1].FinalReport? && records[|records| - 1].completed ==>
      Fold(records + [rec]) == Err(RecordAfterCompletedFinalReport)
  {
    LastStep(records);
    FoldAppend(records, rec);
  }

  /** A journal is empty, or starts with its header, or is refused for that. */
  lemma HeaderMustComeFirst(records: seq<JournalRecord>)
    ensures records == [] ==> ReplayJournal(records) == Err(MissingHeader)
    ensures records != [] && !records[0].Header? ==> ReplayJournal(records) == Err(HeaderNotFirst)
  {
    if records != [] && !records[0].Header? {
      ErrorsStick(records, 1);
      assert records[..1][..0] == [];
      assert Fold(records[..1]) == Step(INITIAL, records[0]);
    }
  }
}
