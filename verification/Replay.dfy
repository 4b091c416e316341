/**
  The one fail-closed interpretation of a journal: a state machine over its
  records, with the accounting it carries.
*/
module Replay {
  import opened Wrappers
  import opened Decimals
  import opened Types
  import opened JournalRecords
  import opened FingerprintCheck

  datatype CloidState =
    | PreparedOnly
    | Unknown
    | Resting
    | Closed(filledSz: Text, avgPx: Option<Text>)

  datatype Intent = Intent(sliceIdx: nat, symbol: Symbol, side: Side, tif: Option<Tif>, px: Text, sz: Text)

  /** The parsed terms of an intent that bound its fills. */
  datatype Limit = Limit(px: real, sz: real, side: Side, tif: Option<Tif>)

  /** What a terminal record is credited with. */
  datatype Fill = Fill(filledSz: real, notional: real, avgPx: Option<real>)

  datatype Totals = Totals(filledSz: real, notional: real, vwap: Option<real>)

  datatype State = State(
    header: Option<RunHeader>,
    maxNotional: Option<real>,
    prepared: map<Cloid, Intent>,
    fills: map<Cloid, Fill>,
    order: seq<Cloid>,
    states: map<Cloid, CloidState>,
    finalReportSeen: bool,
    lastCompleted: Option<bool>,
    lastUnknown: Option<seq<Cloid>>,
    lastWholeRun: Option<WholeRun>,
    abandoned: bool,
    completedFinal: bool)

  const INITIAL := State(None, None, map[], map[], [], map[], false, None, None, None, false, false)

  // ---- sums over cloids ----

  datatype Measure = Size | Notional

  function Amount(fill: Fill, m: Measure): real {
    match m
    case Size => fill.filledSz
    case Notional => fill.notional
  }

  /** The amounts of the fills, each cloid of `order` once. */
  function Sum(order: seq<Cloid>, fills: map<Cloid, Fill>, m: Measure): real {
    if order == [] then
      0.0
    else
      Sum(order[..|order| - 1], fills, m) +
      (var c := order[|order| - 1]; if c in fills then Amount(fills[c], m) else 0.0)
  }

  /** Every positive fill carries the exchange's own average price. */
  predicate AllPriced(fills: map<Cloid, Fill>) {
    forall c :: c in fills && fills[c].filledSz > 0.0 ==> fills[c].avgPx.Some?
  }

  function TotalsOf(order: seq<Cloid>, fills: map<Cloid, Fill>): Result<Totals, ReplayError> {
    var size, notional := Sum(order, fills, Size), Sum(order, fills, Notional);
    if size > MAX || notional > MAX then
      Err(Overflow)
    else
      Ok(Totals(size, notional, if AllPriced(fills) && size > 0.0 then Some(notional / size) else None))
  }

  predicate IsClosed(states: map<Cloid, CloidState>, c: Cloid) {
    c in states && states[c].Closed?
  }

  /** The cloids still awaiting a final outcome, in first-seen order. */
  function Unresolved(order: seq<Cloid>, states: map<Cloid, CloidState>): seq<Cloid> {
    if order == [] then
      []
    else
      var c := order[|order| - 1];
      Unresolved(order[..|order| - 1], states) + if IsClosed(states, c) then [] else [c]
  }

  // ---- crediting one terminal record ----

  function LimitOf(intent: Intent): Limit
    requires intent.px.Numeral? && intent.sz.Numeral?
  {
    Limit(intent.px.value, intent.sz.value, intent.side, intent.tif)
  }

  /** The price a positive fill is accounted at. */
  function AccountedPrice(c: Cloid, limit: Limit, avgPx: Option<Text>): Result<real, ReplayError> {
    match avgPx
    case Some(text) =>
      if Parse(text).None? then Err(InvalidDecimal(c))
      else if text.value <= 0.0 then Err(NonPositivePrice(c))
      else if (if limit.side.Long? then text.value > limit.px else text.value < limit.px) then
        Err(AveragePriceViolatesLimit(c))
      else Ok(text.value)
    case None =>
      if limit.side.Short? && limit.tif != Some(Alo) then Err(MissingAveragePriceForShort(c))
      else Ok(limit.px)
  }

  function Credit(c: Cloid, limit: Limit, filledSz: Text, avgPx: Option<Text>): Result<Fill, ReplayError> {
    if Parse(filledSz).None? then Err(InvalidDecimal(c))
    else if filledSz.value < 0.0 then Err(NegativeSize(c))
    else if filledSz.value == 0.0 then Ok(Fill(0.0, 0.0, None))
    else if filledSz.value > limit.sz then Err(FilledSizeExceedsPrepared(c))
    else
      var price :- AccountedPrice(c, limit, avgPx);
      if CheckedMul(filledSz.value, price).None? then Err(Overflow)
      else Ok(Fill(filledSz.value, filledSz.value * price, if avgPx.Some? then Some(price) else None))
  }

  predicate Regresses(fills: map<Cloid, Fill>, c: Cloid, next: Fill) {
    c in fills && (next.filledSz < fills[c].filledSz || next.notional < fills[c].notional)
  }

  // ---- the whole-run claim a report may carry ----

  function ParseNonNegative(t: Text): Result<real, ReplayError> {
    if Parse(t).Some? && t.value >= 0.0 then Ok(t.value) else Err(InvalidWholeRunSummary)
  }

  function Claim(condition: bool): Result<(), ReplayError> {
    if condition then Ok(()) else Err(InvalidWholeRunSummary)
  }

  function ExpectedTotal(fp: Fingerprint, stored: Text): Text {
    match LogicalPositionTotal(fp)
    case Some(total) => total
    case None => stored
  }

  function CheckTotalClaim(claim: Option<Text>, expected: Text): Result<(), ReplayError> {
    match claim
    case None => Ok(())
    case Some(text) =>
      var _ :- ParseNonNegative(text);
      Claim(text == expected)
  }

  function FingerprintOf(header: Option<RunHeader>): Option<Fingerprint> {
    if header.Some? then header.value.fingerprint else None
  }

  function CapRemaining(cap: real, notional: real): real {
    if cap - notional > 0.0 then cap - notional else 0.0
  }

  function CheckCapClaim(header: Option<RunHeader>, claim: Option<Text>, notional: real): Result<(), ReplayError> {
    match claim
    case None => Ok(())
    case Some(text) =>
      var reported :- ParseNonNegative(text);
      var _ :- Claim(FingerprintOf(header).Some?);
      var cap := FingerprintOf(header).value.maxNotionalUsd;
      var _ :- Claim(Parse(cap).Some?);
      Claim(reported == CapRemaining(cap.value, notional))
  }

  function CheckVwapClaim(claim: Option<Text>, vwap: Option<real>): Result<(), ReplayError> {
    match claim
    case None => Claim(vwap.None?)
    case Some(text) =>
      var reported :- ParseNonNegative(text);
      Claim(vwap == Some(reported))
  }

  function CheckWholeRun(
    header: Option<RunHeader>, claim: Option<WholeRun>, totals: Totals, unresolved: nat): Result<(), ReplayError> {
    match claim
    case None => Ok(())
    case Some(whole) =>
      var accounted :- ParseNonNegative(whole.accountedNotional);
      var _ :- Claim(accounted == totals.notional);
      var _ :- CheckCapClaim(header, whole.capRemaining, totals.notional);
      var _ :- CheckVwapClaim(whole.trustedVwap, totals.vwap);
      var _ :- Claim(whole.unresolvedCloids == unresolved);
      match FingerprintOf(header)
      case None => Ok(())
      case Some(fp) =>
        var _ :- CheckTotalClaim(whole.requestedTotal, ExpectedTotal(fp, fp.totalRequested));
        CheckTotalClaim(whole.adjustedTotal, ExpectedTotal(fp, fp.totalAdjusted))
  }

  // ---- one record ----

  function CheckHeader(header: RunHeader): Result<Option<real>, ReplayError> {
    match header.fingerprint
    case None => Ok(None)
    case Some(fp) =>
      if Parse(fp.maxNotionalUsd).None? || fp.maxNotionalUsd.value <= 0.0 then
        Err(InvalidFingerprintMaxNotional)
      else
        var _ :- if fp.version == FINGERPRINT_VERSION then CheckFingerprint(header, fp) else Ok(());
        Ok(Some(fp.maxNotionalUsd.value))
  }

  function IntentOf(rec: JournalRecord): Intent
    requires rec.Prepared?
  {
    Intent(rec.sliceIdx, rec.symbol, rec.side, rec.tif, rec.px, rec.sz)
  }

  function CheckIntent(c: Cloid, sz: Text, px: Text): Result<(), ReplayError> {
    if Parse(sz).None? then Err(InvalidDecimal(c))
    else if sz.value < 0.0 then Err(NegativeSize(c))
    else if Parse(px).None? then Err(InvalidDecimal(c))
    else if px.value <= 0.0 then Err(NonPositivePrice(c))
    else Ok(())
  }

  function StepPrepared(st: State, rec: JournalRecord): Result<State, ReplayError>
    requires rec.Prepared?
  {
    var c := rec.cloid;
    if c in st.prepared then
      if st.prepared[c] != IntentOf(rec) then Err(ConflictingPrepared(c)) else Err(InvalidTransition(c))
    else
      var _ :- CheckIntent(c, rec.sz, rec.px);
      Ok(st.(prepared := st.prepared[c := IntentOf(rec)],
             order := st.order + [c],
             states := st.states[c := PreparedOnly]))
  }

  predicate IsOutcome(rec: JournalRecord) {
    rec.SubmittedUnknown? || rec.Acknowledged? || rec.Terminal?
  }

  predicate Allowed(from: CloidState, rec: JournalRecord)
    requires IsOutcome(rec)
  {
    match rec
    case SubmittedUnknown(_, _) => from.PreparedOnly?
    case Acknowledged(_, _, _, _) => !from.Closed?
    case Terminal(_, _, _, _, _) => true
  }

  function StepTerminal(st: State, rec: JournalRecord): Result<State, ReplayError>
    requires rec.Terminal? && rec.cloid in st.prepared
  {
    var c, intent := rec.cloid, st.prepared[rec.cloid];
    if !IsValidJournalTerminalStatus(rec.status) then
      Err(InvalidTerminalStatus(c))
    else if !(intent.px.Numeral? && intent.sz.Numeral?) then
      Err(MissingPrepared(c))
    else
      var fill :- Credit(c, LimitOf(intent), rec.filledSz, rec.avgPx);
      if Regresses(st.fills, c, fill) then
        Err(TerminalAccountingRegressed(c))
      else
        Ok(st.(fills := st.fills[c := fill], states := st.states[c := Closed(rec.filledSz, rec.avgPx)]))
  }

  function StepOutcome(st: State, rec: JournalRecord): Result<State, ReplayError>
    requires IsOutcome(rec)
  {
    var c := rec.cloid;
    if c !in st.prepared then Err(MissingPrepared(c))
    else if st.prepared[c].sliceIdx != rec.sliceIdx then Err(SliceIndexChanged(c))
    else if c !in st.states || !Allowed(st.states[c], rec) then Err(InvalidTransition(c))
    else
      match rec
      case SubmittedUnknown(_, _) => Ok(st.(states := st.states[c := Unknown]))
      case Acknowledged(_, _, _, _) => Ok(st.(states := st.states[c := Resting]))
      case Terminal(_, _, _, _, _) => StepTerminal(st, rec)
  }

  function Members(s: seq<Cloid>): set<Cloid> {
    set c | c in s
  }

  /** A list that names each unresolved cloid exactly once, in any order. */
  predicate NamesExactly(reported: seq<Cloid>, unresolved: seq<Cloid>) {
    |Members(reported)| == |reported| && Members(reported) == Members(unresolved)
  }

  function StepReport(st: State, rec: JournalRecord): Result<State, ReplayError>
    requires rec.FinalReport?
  {
    if Parse(rec.filledTotal).None? then
      Err(InvalidFinalReportFilledTotal)
    else
      var totals :- TotalsOf(st.order, st.fills);
      if rec.filledTotal.value != totals.filledSz then
        Err(FinalReportFilledTotalMismatch)
      else
        var unresolved := Unresolved(st.order, st.states);
        var _ :- CheckWholeRun(st.header, rec.wholeRun, totals, |unresolved|);
        if rec.completed && (rec.unknownCloids != [] || unresolved != []) then
          Err(CompletedFinalReportNotComplete)
        else if !rec.completed && !NamesExactly(rec.unknownCloids, unresolved) then
          Err(FinalReportUnknownCloidsMismatch)
        else
          Ok(st.(finalReportSeen := true, lastCompleted := Some(rec.completed), lastUnknown := Some(rec.unknownCloids),
                 lastWholeRun := rec.wholeRun, completedFinal := rec.completed))
  }

  function Step(st: State, rec: JournalRecord): Result<State, ReplayError> {
    if st.abandoned then Err(RecordAfterAbandoned)
    else if st.completedFinal then Err(RecordAfterCompletedFinalReport)
    else if st.header.None? && !rec.Header? then Err(HeaderNotFirst)
    else
      match rec
      case Header(header) =>
        if st.header.Some? then
          Err(DuplicateHeader)
        else
          var cap :- CheckHeader(header);
          Ok(st.(header := Some(header), maxNotional := cap))
      case Prepared(_, _, _, _, _, _, _, _) => StepPrepared(st, rec)
      case SubmittedUnknown(_, _) => StepOutcome(st, rec)
      case Acknowledged(_, _, _, _) => StepOutcome(st, rec)
      case Terminal(_, _, _, _, _) => StepOutcome(st, rec)
      case FinalReport(_, _, _, _, _) => StepReport(st, rec)
      case Abandoned(_) =>
        var unresolved := Unresolved(st.order, st.states);
        if unresolved != [] then Err(AbandonedWithUnresolved(|unresolved|)) else Ok(st.(abandoned := true))
  }

  // ---- the whole journal ----

  function Fold(records: seq<JournalRecord>): Result<State, ReplayError> {
    if records == [] then
      Ok(INITIAL)
    else
      var st :- Fold(records[..|records| - 1]);
      Step(st, records[|records| - 1])
  }

  /** What later readers of a journal consume. */
  datatype RunSummary = RunSummary(
    header: RunHeader,
    cloids: seq<(Cloid, CloidState)>,
    finalReportSeen: bool,
    lastCompleted: Option<bool>,
    lastUnknown: Option<seq<Cloid>>,
    lastWholeRun: Option<WholeRun>,
    abandoned: bool)
  {
    predicate IsIncomplete() {
      !abandoned &&
      (!finalReportSeen || lastCompleted != Some(true) ||
       (lastUnknown.Some? && lastUnknown.value != []) ||
       exists i :: 0 <= i < |cloids| && !cloids[i].1.Closed?)
    }

    function TotalFilled(): real {
      FilledOf(cloids)
    }

    function UnresolvedCloids(): seq<Cloid> {
      NotClosed(cloids)
    }
  }

  function FilledOf(cloids: seq<(Cloid, CloidState)>): real {
    if cloids == [] then
      0.0
    else
      var state := cloids[|cloids| - 1].1;
      FilledOf(cloids[..|cloids| - 1]) +
      if state.Closed? && Parse(state.filledSz).Some? then state.filledSz.value else 0.0
  }

  function NotClosed(cloids: seq<(Cloid, CloidState)>): seq<Cloid> {
    if cloids == [] then
      []
    else
      var last := cloids[|cloids| - 1];
      NotClosed(cloids[..|cloids| - 1]) + if last.1.Closed? then [] else [last.0]
  }

  datatype ValidatedReplay = ValidatedReplay(
    summary: RunSummary,
    totals: Totals,
    maxNotional: Option<real>,
    prepared: map<Cloid, Intent>)

  function CloidStates(order: seq<Cloid>, states: map<Cloid, CloidState>): (cs: seq<(Cloid, CloidState)>)
    ensures |cs| == |order|
    ensures forall i :: 0 <= i < |order| ==>
      cs[i] == (order[i], if order[i] in states then states[order[i]] else PreparedOnly)
  {
    seq(|order|, i requires 0 <= i < |order| =>
      (order[i], if order[i] in states then states[order[i]] else PreparedOnly))
  }

  function Summarise(st: State): RunSummary
    requires st.header.Some?
  {
    RunSummary(st.header.value, CloidStates(st.order, st.states), st.finalReportSeen, st.lastCompleted,
               st.lastUnknown, st.lastWholeRun, st.abandoned)
  }

  function ReplayJournal(records: seq<JournalRecord>): Result<ValidatedReplay, ReplayError> {
    if records == [] then
      Err(MissingHeader)
    else
      var st :- Fold(records);
      if st.header.None? then
        Err(HeaderNotFirst)
      else
        var totals :- TotalsOf(st.order, st.fills);
        Ok(ValidatedReplay(Summarise(st), totals, st.maxNotional, st.prepared))
  }
}
