/**
  When a journal takes a report or an abandonment, told from its records: what
  the report must say, figure by figure, and no other figure.
*/
module ReportRules {
  import opened Wrappers
  import opened Decimals
  import opened Types
  import opened JournalRecords
  import opened FingerprintCheck
  import opened Replay
  import opened ReplayTheory
  import opened LogReading
  import opened RecordRules
  import opened Reports

  // ---- orders without a final outcome ----

  /** Prepared, and the last record about it is not terminal. */
  ghost predicate IsUnresolved(records: seq<JournalRecord>, c: Cloid) {
    (exists i :: PreparedAt(records, i, c)) && forall k :: LastOn(records, k, c) ==> !records[k].Terminal?
  }

  function OpenOrders(records: seq<JournalRecord>): set<Cloid> {
    set c | c in LogUnresolved(records)
  }

  lemma UnresolvedExactly(records: seq<JournalRecord>)
    requires Fold(records).Ok?
    ensures NoDuplicates(LogUnresolved(records))
    ensures forall c :: c in LogUnresolved(records) <==> IsUnresolved(records, c)
    ensures |OpenOrders(records)| == |LogUnresolved(records)|
  {
    var st := Fold(records).value;
    FoldConsistent(records);
    TablesAreTheReading(records);
    ReadingTables(records, st);
    UnresolvedDistinct(st.order, st.states);
    UnresolvedMembers(st.order, st.states);
    DistinctCount(LogUnresolved(records));
    assert Members(LogUnresolved(records)) == OpenOrders(records);
    forall c
      ensures c in LogUnresolved(records) <==> IsUnresolved(records, c)
    {
      assert ReadsAt(records, st, c);
      PreparedSomewhere(records, c);
      LastAboutIsLast(records, c);
    }
  }

  /** A run is given up exactly when no order is left without a final outcome. */
  lemma AbandonedAcceptedExactly(records: seq<JournalRecord>, rec: JournalRecord)
    requires IsOpen(records) && rec.Abandoned?
    ensures Fold(records + [rec]).Ok? <==> forall c :: !IsUnresolved(records, c)
  {
    NextIsAdmissible(records, rec);
    UnresolvedExactly(records);
    if LogUnresolved(records) != [] {
      assert LogUnresolved(records)[0] in LogUnresolved(records);
    }
  }

  // ---- a whole-run summary ----

  /** What is left of the cap: all that was not spent, and never less than nothing. */
  predicate IsLeftOf(cap: real, spent: real, left: real) {
    if spent <= cap then left + spent == cap else left == 0.0
  }

  predicate ReadsNonNegative(t: Text) {
    Parse(t).Some? && t.value >= 0.0
  }

  predicate CapClaimIsTrue(fp: Option<Fingerprint>, claim: Option<Text>, spent: real) {
    claim.Some? ==>
      ReadsNonNegative(claim.value) && fp.Some? && Parse(fp.value.maxNotionalUsd).Some? &&
      IsLeftOf(fp.value.maxNotionalUsd.value, spent, claim.value.value)
  }

  predicate VwapClaimIsTrue(claim: Option<Text>, trusted: bool, filled: real, spent: real) {
    (claim.Some? <==> trusted) && (claim.Some? ==> ReadsNonNegative(claim.value) && claim.value.value * filled == spent)
  }

  /** A total is repeated as the fingerprint spells it, or for a position run as its phases add up. */
  predicate TotalClaimIsTrue(fp: Fingerprint, claim: Option<Text>, stored: Text) {
    claim.Some? ==>
      ReadsNonNegative(claim.value) &&
      claim.value == if LogicalPositionTotal(fp).Some? then LogicalPositionTotal(fp).value else stored
  }

  predicate ClaimIsTrue(fp: Option<Fingerprint>, whole: WholeRun, filled: real, spent: real, trusted: bool, open: nat) {
    && ReadsNonNegative(whole.accountedNotional) && whole.accountedNotional.value == spent
    && CapClaimIsTrue(fp, whole.capRemaining, spent)
    && VwapClaimIsTrue(whole.trustedVwap, trusted, filled, spent)
    && whole.unresolvedCloids == open
    && (fp.Some? ==>
          TotalClaimIsTrue(fp.value, whole.requestedTotal, fp.value.totalRequested) &&
          TotalClaimIsTrue(fp.value, whole.adjustedTotal, fp.value.totalAdjusted))
  }

  lemma QuotientIs(x: real, y: real, q: real)
    requires y > 0.0
    ensures q == x / y <==> q * y == x
  {
  }

  lemma ClaimExactly(header: RunHeader, whole: WholeRun, totals: Totals, open: nat)
    requires totals.vwap.Some? ==> totals.filledSz > 0.0 && totals.vwap.value == totals.notional / totals.filledSz
    ensures CheckWholeRun(Some(header), Some(whole), totals, open).Ok? <==>
      ClaimIsTrue(header.fingerprint, whole, totals.filledSz, totals.notional, totals.vwap.Some?, open)
  {
    if totals.vwap.Some? && whole.trustedVwap.Some? && whole.trustedVwap.value.Numeral? {
      QuotientIs(totals.notional, totals.filledSz, whole.trustedVwap.value.value);
    }
  }

  // ---- a report ----

  ghost predicate ReportIsTrue(records: seq<JournalRecord>, rec: JournalRecord)
    requires records != [] && records[0].Header? && rec.FinalReport?
  {
    var filled, spent := FilledIn(records, |records|), PaidIn(records, |records|);
    && filled <= MAX && spent <= MAX && Parse(rec.filledTotal) == Some(filled)
    && (rec.wholeRun.Some? ==>
          ClaimIsTrue(records[0].header.fingerprint, rec.wholeRun.value, filled, spent,
                      filled > 0.0 && AllReported(records), |OpenOrders(records)|))
    && if rec.completed then rec.unknownCloids == [] && forall c :: !IsUnresolved(records, c)
       else NoDuplicates(rec.unknownCloids) && forall c :: c in rec.unknownCloids <==> IsUnresolved(records, c)
  }

  lemma HeaderComesFirst(records: seq<JournalRecord>)
    requires records != [] && Fold(records).Ok?
    ensures records[0].Header? && LogHeader(records) == Some(records[0].header)
  {
    FoldAdmissible(records);
    assert AdmissibleAt(records, 0);
    assert records[..0] == [];
  }

  lemma NamesUnresolved(records: seq<JournalRecord>, reported: seq<Cloid>)
    requires Fold(records).Ok?
    ensures NamesExactly(reported, LogUnresolved(records)) <==>
      NoDuplicates(reported) && forall c :: c in reported <==> IsUnresolved(records, c)
    ensures LogUnresolved(records) == [] <==> forall c :: !IsUnresolved(records, c)
  {
    UnresolvedExactly(records);
    DistinctCount(reported);
    assert forall c :: c in Members(reported) <==> c in reported;
    assert forall c :: c in Members(LogUnresolved(records)) <==> c in LogUnresolved(records);
    if LogUnresolved(records) != [] {
      assert LogUnresolved(records)[0] in LogUnresolved(records);
    }
  }

  /** A report is taken exactly when everything it says is true of the records before it. */
  lemma ReportAcceptedExactly(records: seq<JournalRecord>, rec: JournalRecord)
    requires IsOpen(records) && rec.FinalReport?
    ensures records[0].Header?
    ensures Fold(records + [rec]).Ok? <==> ReportIsTrue(records, rec)
  {
    NextIsAdmissible(records, rec);
    HeaderComesFirst(records);
    TotalsByTheRecords(records);
    UnresolvedExactly(records);
    NamesUnresolved(records, rec.unknownCloids);
    if LogTotals(records).Ok? && rec.wholeRun.Some? {
      ClaimExactly(records[0].header, rec.wholeRun.value, LogTotals(records).value, |LogUnresolved(records)|);
    }
  }

  /** A report that names any other remaining cap than what is left of it is refused. */
  lemma WrongCapIsRefused(records: seq<JournalRecord>, rec: JournalRecord, cap: real, left: real)
    requires IsOpen(records) && rec.FinalReport? && rec.wholeRun.Some? && rec.wholeRun.value.capRemaining.Some?
    requires Parse(rec.wholeRun.value.capRemaining.value) == Some(left)
    requires records[0].Header? && records[0].header.fingerprint.Some?
    requires Parse(records[0].header.fingerprint.value.maxNotionalUsd) == Some(cap)
    requires var spent := PaidIn(records, |records|); if spent <= cap then left + spent != cap else left != 0.0
    ensures Fold(records + [rec]).Err?
  {
    ReportAcceptedExactly(records, rec);
  }

  // ---- the cap, and the writer's figures ----

  /** The replay's own totals, header and unresolved list, as the records have them. */
  lemma ReplayByTheRecords(records: seq<JournalRecord>)
    requires ReplayJournal(records).Ok?
    ensures records != [] && records[0].Header?
    ensures var r := ReplayJournal(records).value;
      && r.summary.header == records[0].header && CapMirrored(r.summary.header, r.maxNotional)
      && r.totals.filledSz == FilledIn(records, |records|) && r.totals.notional == PaidIn(records, |records|)
      && (r.totals.vwap.Some? <==> FilledIn(records, |records|) > 0.0 && AllReported(records))
      && (r.totals.vwap.Some? ==>
            r.totals.filledSz > 0.0 && r.totals.vwap.value == r.totals.notional / r.totals.filledSz)
      && r.summary.UnresolvedCloids() == LogUnresolved(records)
  {
    var st := Fold(records).value;
    FoldConsistent(records);
    HeaderComesFirst(records);
    CapMirrorsHeader(records);
    TablesAreTheReading(records);
    ReadingTables(records, st);
    TotalsByTheRecords(records);
    SummaryUnresolved(st.order, st.states);
  }

  /** The cap still open is the header's, less what the records account for, and never less than nothing. */
  lemma OpenCapExactly(records: seq<JournalRecord>)
    requires ReplayJournal(records).Ok?
    ensures records != [] && records[0].Header?
    ensures var fp, open, spent :=
        records[0].header.fingerprint, OpenCap(ReplayJournal(records).value), PaidIn(records, |records|);
      && (open.Some? <==> fp.Some?)
      && (open.Some? ==>
            Parse(fp.value.maxNotionalUsd).Some? &&
            var cap := fp.value.maxNotionalUsd.value;
            (spent <= cap ==> open.value + spent == cap) && (spent > cap ==> open.value == 0.0))
  {
    ReplayByTheRecords(records);
  }

  /** Every figure of a summary, against what was filled, spent and left open. */
  predicate SummarySays(
    header: RunHeader, filled: real, spent: real, trusted: bool, open: nat, whole: WholeRun, nowMs: nat)
  {
    && whole.accountedNotional.Numeral? && whole.accountedNotional.value == spent
    && (whole.capRemaining.Some? <==> header.fingerprint.Some?)
    && (whole.capRemaining.Some? ==>
          whole.capRemaining.value.Numeral? && header.fingerprint.value.maxNotionalUsd.Numeral? &&
          IsLeftOf(header.fingerprint.value.maxNotionalUsd.value, spent, whole.capRemaining.value.value))
    && (whole.trustedVwap.Some? <==> trusted)
    && (whole.trustedVwap.Some? ==>
          whole.trustedVwap.value.Numeral? && whole.trustedVwap.value.value * filled == spent)
    && whole.unresolvedCloids == open
    && (if nowMs >= header.startedAtUnixMs then header.startedAtUnixMs + whole.logicalElapsedMs == nowMs
        else whole.logicalElapsedMs == 0)
    && (header.fingerprint.Some? ==> TotalsRepeated(header.fingerprint.value, whole))
    && (header.fingerprint.None? ==> whole.requestedTotal.None? && whole.adjustedTotal.None?)
  }

  predicate TotalsRepeated(fp: Fingerprint, whole: WholeRun) {
    if LogicalPositionTotal(fp).Some? then
      whole.requestedTotal == LogicalPositionTotal(fp) == whole.adjustedTotal
    else
      whole.requestedTotal == Some(fp.totalRequested) && whole.adjustedTotal == Some(fp.totalAdjusted)
  }

  ghost predicate SummaryIsTrue(records: seq<JournalRecord>, whole: WholeRun, nowMs: nat)
    requires records != [] && records[0].Header?
  {
    var filled, spent := FilledIn(records, |records|), PaidIn(records, |records|);
    SummarySays(
      records[0].header, filled, spent, filled > 0.0 && AllReported(records), |OpenOrders(records)|, whole, nowMs)
  }

  lemma VwapTimesFilled(x: real, y: real, q: real)
    requires y > 0.0 && q == x / y
    ensures q * y == x
  {
  }

  lemma FiguresOf(replay: ValidatedReplay, nowMs: nat, spelling: Spelling)
    requires var totals := replay.totals;
      totals.vwap.Some? ==> totals.filledSz > 0.0 && totals.vwap.value == totals.notional / totals.filledSz
    requires CapMirrored(replay.summary.header, replay.maxNotional)
    ensures SummarySays(
      replay.summary.header, replay.totals.filledSz, replay.totals.notional, replay.totals.vwap.Some?,
      |replay.summary.UnresolvedCloids()|, WholeRunFromReplay(replay, nowMs, spelling), nowMs)
  {
    if replay.totals.vwap.Some? {
      VwapTimesFilled(replay.totals.notional, replay.totals.filledSz, replay.totals.vwap.value);
    }
  }

  /** The stop report and the completion report say exactly what the records do. */
  lemma WrittenReportsAreTrue(records: seq<JournalRecord>, note: string, nowMs: nat, spelling: Spelling)
    requires ReplayJournal(records).Ok?
    ensures records != [] && records[0].Header?
    ensures var r := ReplayJournal(records).value;
      var stop, done := IncompleteReport(r, note, nowMs, spelling), CompletedReport(r, note, nowMs, spelling);
      && !stop.completed && done.completed && stop.note == note == done.note
      && stop.filledTotal == done.filledTotal && stop.filledTotal.Numeral?
      && stop.filledTotal.value == FilledIn(records, |records|)
      && done.unknownCloids == [] && NoDuplicates(stop.unknownCloids)
      && (forall c :: c in stop.unknownCloids <==> IsUnresolved(records, c))
      && stop.wholeRun == done.wholeRun && stop.wholeRun.Some? && SummaryIsTrue(records, stop.wholeRun.value, nowMs)
  {
    ReplayByTheRecords(records);
    UnresolvedExactly(records);
    FiguresOf(ReplayJournal(records).value, nowMs, spelling);
  }

  // ---- the last report ----

  /** What a replay keeps of the last report, if there was one. */
  ghost predicate KeepsReport(
    report: Option<JournalRecord>, seen: bool, completed: Option<bool>, unknown: Option<seq<Cloid>>,
    whole: Option<WholeRun>)
  {
    match report
    case None => !seen && completed.None? && unknown.None? && whole.None?
    case Some(rec) =>
      rec.FinalReport? && seen && completed == Some(rec.completed) && unknown == Some(rec.unknownCloids) &&
      whole == rec.wholeRun
  }

  function LastReport(records: seq<JournalRecord>): Option<JournalRecord> {
    if records == [] then None
    else if records[|records| - 1].FinalReport? then Some(records[|records| - 1])
    else LastReport(records[..|records| - 1])
  }

  lemma {:induction false} LastReportIsLast(records: seq<JournalRecord>, k: nat)
    requires k < |records| && records[k].FinalReport? && forall j :: k < j < |records| ==> !records[j].FinalReport?
    ensures LastReport(records) == Some(records[k])
  {
    if k < |records| - 1 {
      LastReportIsLast(records[..|records| - 1], k);
    }
  }

  lemma StepKeepsReport(st: State, rec: JournalRecord)
    requires Step(st, rec).Ok?
    ensures !rec.FinalReport? ==> Step(st, rec).value.lastWholeRun == st.lastWholeRun
    ensures rec.FinalReport? ==> Step(st, rec).value.lastWholeRun == rec.wholeRun
  {
  }

  lemma {:induction false} FoldKeepsReport(records: seq<JournalRecord>)
    requires Fold(records).Ok?
    ensures var st := Fold(records).value;
      KeepsReport(LastReport(records), st.finalReportSeen, st.lastCompleted, st.lastUnknown, st.lastWholeRun)
  {
    if records != [] {
      var init := records[..|records| - 1];
      LastStep(records);
      FoldKeepsReport(init);
      StepKeepsReport(Fold(init).value, records[|records| - 1]);
    }
  }

  /** The summary repeats the last report as it was written, and knows whether the journal was abandoned. */
  lemma LastReportIsKept(records: seq<JournalRecord>)
    requires ReplayJournal(records).Ok?
    ensures var s := ReplayJournal(records).value.summary;
      && KeepsReport(LastReport(records), s.finalReportSeen, s.lastCompleted, s.lastUnknown, s.lastWholeRun)
      && (s.abandoned <==> records != [] && records[|records| - 1].Abandoned?)
  {
    FoldKeepsReport(records);
    LastStep(records);
  }
}
