/** The reports a process appends, against the check every later replay makes of them. */
module Reports {
  import opened Wrappers
  import opened Decimals
  import opened Types
  import opened JournalRecords
  import opened FingerprintCheck
  import opened Replay
  import opened ReplayTheory

  /** How many fractional digits a computed decimal happens to be carried with. */
  type Spelling = real -> nat

  function Spell(x: real, spelling: Spelling): Text {
    Show(x, spelling(x))
  }

  function WholeRunFromReplay(replay: ValidatedReplay, nowMs: nat, spelling: Spelling): WholeRun {
    var fp, startedAt := replay.summary.header.fingerprint, replay.summary.header.startedAtUnixMs;
    WholeRun(
      if fp.Some? then Some(ExpectedTotal(fp.value, fp.value.totalRequested)) else None,
      if fp.Some? then Some(ExpectedTotal(fp.value, fp.value.totalAdjusted)) else None,
      Spell(replay.totals.notional, spelling),
      if replay.maxNotional.Some?
      then Some(Spell(CapRemaining(replay.maxNotional.value, replay.totals.notional), spelling)) else None,
      if replay.totals.vwap.Some? then Some(Spell(replay.totals.vwap.value, spelling)) else None,
      if nowMs >= startedAt then nowMs - startedAt else 0,
      |replay.summary.UnresolvedCloids()|)
  }

  /** The report of a stop: what the replay has, and every order still open. */
  function IncompleteReport(replay: ValidatedReplay, note: string, nowMs: nat, spelling: Spelling): JournalRecord {
    FinalReport(
      false, Spell(replay.totals.filledSz, spelling), replay.summary.UnresolvedCloids(), note,
      Some(WholeRunFromReplay(replay, nowMs, spelling)))
  }

  /** The report of a finished run, which claims that nothing is left open. */
  function CompletedReport(replay: ValidatedReplay, note: string, nowMs: nat, spelling: Spelling): JournalRecord {
    FinalReport(
      true, Spell(replay.totals.filledSz, spelling), [], note, Some(WholeRunFromReplay(replay, nowMs, spelling)))
  }

  /** The header's plan totals read as numbers a report can repeat. */
  predicate ReportableTotals(header: RunHeader) {
    header.fingerprint.Some? ==>
      var fp := header.fingerprint.value;
      ParseNonNegative(ExpectedTotal(fp, fp.totalRequested)).Ok? &&
        ParseNonNegative(ExpectedTotal(fp, fp.totalAdjusted)).Ok?
  }

  lemma CheckedSizing(header: RunHeader, fp: Fingerprint)
    requires CheckFingerprint(header, fp).Ok?
    ensures ParseNonNegative(fp.totalRequested).Ok? && ParseNonNegative(fp.totalAdjusted).Ok?
    ensures fp.positionMode.None? ==> fp.positionPhases == []
    ensures fp.positionMode.Some? ==> CheckPhaseTexts(fp.positionPhases).Ok?
  {
  }

  /** A fingerprint of the current version has been checked, so its totals always read. */
  lemma CurrentVersionIsReportable(header: RunHeader)
    requires CheckHeader(header).Ok?
    requires header.fingerprint.Some? ==> header.fingerprint.value.version == FINGERPRINT_VERSION
    ensures ReportableTotals(header)
  {
    if header.fingerprint.Some? {
      var fp := header.fingerprint.value;
      CheckedSizing(header, fp);
      if fp.positionPhases != [] {
        PhaseSumOfCheckedPhases(fp.positionPhases);
        if PhaseSum(fp.positionPhases).Some? {
          PhaseSumReads(fp.positionPhases);
        }
      }
    }
  }

  // ---- a trusted average price can be written down ----

  lemma ScaledSum(bound: real, x: real, y: real, p: real, q: real)
    requires p <= bound * x && q <= bound * y
    ensures p + q <= bound * (x + y)
  {
  }

  lemma PriceBound(size: real, price: real, bound: real, notional: real)
    requires 0.0 <= size && price <= bound && notional == size * price
    ensures notional <= bound * size
  {
  }

  /** A fill's accounted notional is at most its size at the highest price. */
  ghost predicate PricedWithin(fill: Fill, bound: real) {
    fill.notional <= bound * fill.filledSz
  }

  lemma FillPricedWithin(fill: Fill, bound: real)
    requires FillConsistent(fill) && (fill.filledSz > 0.0 ==> fill.avgPx.Some? && fill.avgPx.value <= bound)
    ensures PricedWithin(fill, bound)
  {
    if fill.filledSz > 0.0 {
      PriceBound(fill.filledSz, fill.avgPx.value, bound, fill.notional);
    }
  }

  lemma {:induction false} NotionalWithinPrices(order: seq<Cloid>, fills: map<Cloid, Fill>, bound: real)
    requires forall c :: c in fills ==> PricedWithin(fills[c], bound)
    ensures Sum(order, fills, Notional) <= bound * Sum(order, fills, Size)
  {
    if order != [] {
      var init, c := order[..|order| - 1], order[|order| - 1];
      NotionalWithinPrices(init, fills, bound);
      if c in fills {
        assert PricedWithin(fills[c], bound);
        ScaledSum(bound, Sum(init, fills, Size), fills[c].filledSz, Sum(init, fills, Notional), fills[c].notional);
      }
    }
  }

  lemma QuotientBound(notional: real, size: real, bound: real)
    requires 0.0 <= notional <= bound * size && size > 0.0
    ensures 0.0 <= notional / size <= bound
  {
  }

  lemma TotalsAreWritable(st: State, totals: Totals)
    requires Consistent(st) && TotalsOf(st.order, st.fills) == Ok(totals)
    ensures 0.0 <= totals.filledSz <= MAX && 0.0 <= totals.notional <= MAX
    ensures totals.vwap.Some? ==> 0.0 <= totals.vwap.value <= MAX
  {
    SumNonNegative(st.order, st.fills, Size);
    SumNonNegative(st.order, st.fills, Notional);
    if totals.vwap.Some? {
      forall c | c in st.fills
        ensures PricedWithin(st.fills[c], MAX)
      {
        FillPricedWithin(st.fills[c], MAX);
      }
      NotionalWithinPrices(st.order, st.fills, MAX);
      QuotientBound(Sum(st.order, st.fills, Notional), Sum(st.order, st.fills, Size), MAX);
    }
  }

  // ---- the checker accepts what the writer wrote ----

  /** The replay's cap is the one its header carries. */
  ghost predicate CapMirrored(header: RunHeader, cap: Option<real>) {
    (cap.Some? <==> header.fingerprint.Some?) &&
    (cap.Some? ==> Parse(header.fingerprint.value.maxNotionalUsd) == cap && 0.0 < cap.value <= MAX)
  }

  lemma CapMirrorsHeader(records: seq<JournalRecord>)
    requires records != [] && Fold(records).Ok?
    ensures var st := Fold(records).value;
      st.header.Some? && CheckHeader(st.header.value) == Ok(st.maxNotional) &&
        CapMirrored(st.header.value, st.maxNotional)
  {
    ErrorsStick(records, 1);
    HeaderIsFrozen(records, 1);
    FoldConsistent(records);
    assert records[..1][..0] == [];
  }

  lemma CapClaimHolds(header: RunHeader, cap: Option<real>, notional: real, spelling: Spelling)
    requires CapMirrored(header, cap) && 0.0 <= notional
    ensures var claim := if cap.Some? then Some(Spell(CapRemaining(cap.value, notional), spelling)) else None;
      CheckCapClaim(Some(header), claim, notional).Ok?
  {
  }

  lemma VwapClaimHolds(vwap: Option<real>, spelling: Spelling)
    requires vwap.Some? ==> 0.0 <= vwap.value <= MAX
    ensures CheckVwapClaim(if vwap.Some? then Some(Spell(vwap.value, spelling)) else None, vwap).Ok?
  {
  }

  lemma ClaimHolds(header: RunHeader, whole: WholeRun, totals: Totals, unresolved: nat)
    requires ParseNonNegative(whole.accountedNotional) == Ok(totals.notional) && whole.unresolvedCloids == unresolved
    requires CheckCapClaim(Some(header), whole.capRemaining, totals.notional).Ok?
    requires CheckVwapClaim(whole.trustedVwap, totals.vwap).Ok?
    requires header.fingerprint.Some? ==>
      var fp := header.fingerprint.value;
      whole.requestedTotal == Some(ExpectedTotal(fp, fp.totalRequested)) &&
        whole.adjustedTotal == Some(ExpectedTotal(fp, fp.totalAdjusted))
    ensures CheckWholeRun(Some(header), Some(whole), totals, unresolved).Ok? <==> ReportableTotals(header)
  {
  }

  /** Field by field, the claim says what the replay holds. */
  lemma ClaimFields(st: State, totals: Totals, replay: ValidatedReplay, nowMs: nat, spelling: Spelling)
    requires st.header.Some? && replay == ValidatedReplay(Summarise(st), totals, st.maxNotional, st.prepared)
    ensures var whole, header, cap := WholeRunFromReplay(replay, nowMs, spelling), st.header.value, st.maxNotional;
      && whole.accountedNotional == Spell(totals.notional, spelling)
      && whole.capRemaining ==
           (if cap.Some? then Some(Spell(CapRemaining(cap.value, totals.notional), spelling)) else None)
      && whole.trustedVwap == (if totals.vwap.Some? then Some(Spell(totals.vwap.value, spelling)) else None)
      && whole.unresolvedCloids == |Unresolved(st.order, st.states)|
      && (header.fingerprint.Some? ==>
            var fp := header.fingerprint.value;
            whole.requestedTotal == Some(ExpectedTotal(fp, fp.totalRequested)) &&
              whole.adjustedTotal == Some(ExpectedTotal(fp, fp.totalAdjusted)))
  {
    SummaryUnresolved(st.order, st.states);
  }

  lemma WholeRunClaimHolds(st: State, totals: Totals, replay: ValidatedReplay, nowMs: nat, spelling: Spelling)
    requires Consistent(st) && TotalsOf(st.order, st.fills) == Ok(totals) && st.header.Some?
    requires replay == ValidatedReplay(Summarise(st), totals, st.maxNotional, st.prepared)
    requires CapMirrored(st.header.value, st.maxNotional)
    ensures var claim := Some(WholeRunFromReplay(replay, nowMs, spelling));
      CheckWholeRun(st.header, claim, totals, |Unresolved(st.order, st.states)|).Ok? <==>
      ReportableTotals(st.header.value)
  {
    TotalsAreWritable(st, totals);
    ClaimFields(st, totals, replay, nowMs, spelling);
    CapClaimHolds(st.header.value, st.maxNotional, totals.notional, spelling);
    VwapClaimHolds(totals.vwap, spelling);
    ClaimHolds(st.header.value, WholeRunFromReplay(replay, nowMs, spelling), totals, |Unresolved(st.order, st.states)|);
  }

  lemma NamesItself(order: seq<Cloid>, states: map<Cloid, CloidState>)
    requires NoDuplicates(order)
    ensures NamesExactly(Unresolved(order, states), Unresolved(order, states))
  {
    UnresolvedDistinct(order, states);
    DistinctCount(Unresolved(order, states));
  }

  /** The facts both reports rest on. */
  ghost predicate Reported(st: State, totals: Totals, replay: ValidatedReplay) {
    && Consistent(st) && TotalsOf(st.order, st.fills) == Ok(totals) && st.header.Some?
    && replay == ValidatedReplay(Summarise(st), totals, st.maxNotional, st.prepared)
    && CapMirrored(st.header.value, st.maxNotional)
  }

  lemma StopStep(st: State, totals: Totals, replay: ValidatedReplay, note: string, nowMs: nat, spelling: Spelling)
    requires Reported(st, totals, replay)
    ensures StepReport(st, IncompleteReport(replay, note, nowMs, spelling)).Ok? <==> ReportableTotals(st.header.value)
  {
    WholeRunClaimHolds(st, totals, replay, nowMs, spelling);
    TotalsAreWritable(st, totals);
    SummaryUnresolved(st.order, st.states);
    NamesItself(st.order, st.states);
  }

  lemma DoneStep(st: State, totals: Totals, replay: ValidatedReplay, note: string, nowMs: nat, spelling: Spelling)
    requires Reported(st, totals, replay)
    ensures StepReport(st, CompletedReport(replay, note, nowMs, spelling)).Ok? <==>
      ReportableTotals(st.header.value) && Unresolved(st.order, st.states) == []
  {
    WholeRunClaimHolds(st, totals, replay, nowMs, spelling);
    TotalsAreWritable(st, totals);
  }

  /** Appending `rec` leaves the accounting and every cloid as they were. */
  ghost predicate KeepsBooks(records: seq<JournalRecord>, rec: JournalRecord) {
    ReplayJournal(records).Ok? && ReplayJournal(records + [rec]).Ok? &&
    ReplayJournal(records + [rec]).value.totals == ReplayJournal(records).value.totals &&
    ReplayJournal(records + [rec]).value.summary.cloids == ReplayJournal(records).value.summary.cloids
  }

  lemma AppendedReport(records: seq<JournalRecord>, rec: JournalRecord)
    requires records != [] && rec.FinalReport? && ReplayJournal(records).Ok? && !Closes(records[|records| - 1])
    ensures StepReport(Fold(records).value, rec).Ok? <==> ReplayJournal(records + [rec]).Ok?
    ensures ReplayJournal(records + [rec]).Ok? ==> KeepsBooks(records, rec)
  {
    var longer, st := records + [rec], Fold(records).value;
    assert longer[..|longer| - 1] == records;
    FoldConsistent(records);
    ClosedByLastRecord(records);
    assert Fold(longer) == Step(st, rec);
    if Step(st, rec).Ok? {
      ReportEffect(st, rec);
    }
  }

  /**
    Writer and checker agree.  From any accepted journal that is not closed,
    the stop report built from its replay is accepted, totals and cloids
    unchanged, exactly when the header's plan totals read; the completion
    report needs in addition that no order is unresolved.
  */
  lemma WriterAndCheckerAgree(records: seq<JournalRecord>, note: string, nowMs: nat, spelling: Spelling)
    requires ReplayJournal(records).Ok? && !Closes(records[|records| - 1])
    ensures var r := ReplayJournal(records).value;
      var stop, done := IncompleteReport(r, note, nowMs, spelling), CompletedReport(r, note, nowMs, spelling);
      && (ReportableTotals(r.summary.header) <==> KeepsBooks(records, stop))
      && (ReplayJournal(records + [stop]).Ok? ==> KeepsBooks(records, stop))
      && (ReplayJournal(records + [done]).Ok? <==>
            ReportableTotals(r.summary.header) && r.summary.UnresolvedCloids() == [])
      && (ReplayJournal(records + [done]).Ok? ==> KeepsBooks(records, done))
  {
    var st, r := Fold(records).value, ReplayJournal(records).value;
    FoldConsistent(records);
    CapMirrorsHeader(records);
    StopStep(st, r.totals, r, note, nowMs, spelling);
    DoneStep(st, r.totals, r, note, nowMs, spelling);
    SummaryUnresolved(st.order, st.states);
    AppendedReport(records, IncompleteReport(r, note, nowMs, spelling));
    AppendedReport(records, CompletedReport(r, note, nowMs, spelling));
  }

  /** With no fingerprint, or one of the current version, the stop report is always accepted. */
  lemma StopReportAlwaysAccepted(records: seq<JournalRecord>, note: string, nowMs: nat, spelling: Spelling)
    requires ReplayJournal(records).Ok? && !Closes(records[|records| - 1])
    requires var fp := ReplayJournal(records).value.summary.header.fingerprint;
      fp.None? || fp.value.version == FINGERPRINT_VERSION
    ensures KeepsBooks(records, IncompleteReport(ReplayJournal(records).value, note, nowMs, spelling))
  {
    CapMirrorsHeader(records);
    CurrentVersionIsReportable(ReplayJournal(records).value.summary.header);
    WriterAndCheckerAgree(records, note, nowMs, spelling);
  }

  /**
    A fingerprint of another version is only checked for its cap, so a plan
    total that does not read is accepted in the header and then refused in
    every report that repeats it.
  */
  lemma OtherVersionsCanRefuseTheirOwnReport(
    fp: Fingerprint, header: RunHeader, note: string, nowMs: nat, spelling: Spelling)
    requires fp.version != FINGERPRINT_VERSION && fp.maxNotionalUsd == Numeral(100.0, 0)
    requires fp.positionPhases == [] && fp.totalRequested == Junk("?")
    requires header.fingerprint == Some(fp)
    ensures ReplayJournal([Header(header)]).Ok?
    ensures var stop := IncompleteReport(ReplayJournal([Header(header)]).value, note, nowMs, spelling);
      ReplayJournal([Header(header), stop]).Err?
  {
    var records := [Header(header)];
    assert records[..0] == [];
    assert Fold(records) == Step(INITIAL, records[0]);
    assert Fold(records).value.order == [] && TotalsOf([], map[]).Ok?;
    WriterAndCheckerAgree(records, note, nowMs, spelling);
    var stop := IncompleteReport(ReplayJournal(records).value, note, nowMs, spelling);
    assert records + [stop] == [Header(header), stop];
  }
}
