/**
  The boundary check a fill reported by the exchange passes before it is
  credited, and its agreement with the crediting the replay does on its own.
*/
module FillValidation {
  import opened Wrappers
  import opened Decimals
  import opened Types
  import opened JournalRecords
  import opened Replay
  import opened ReplayTheory
  import opened LogReading

  datatype OrderIntent = OrderIntent(cloid: Cloid, symbol: Symbol, side: Side, px: real, sz: real, tif: Tif,
    reduceOnly: bool)

  datatype PlaceOutcome = Filled(totalSz: real, avgPx: real) | RestingOutcome

  datatype OrderStatusFill = OrderStatusFill(status: Status, filledSz: real, avgPx: Option<real>)

  datatype AvgPxRequirement = Required | Optional

  datatype ValidatedFill = ValidatedFill(filledSz: real, avgPx: Option<real>)

  datatype FillError =
    | NegativeFill
    | Overfill
    | MissingAvgPx
    | UnpricedShort
    | NonPositiveAvgPx
    | OutsideLimit
    | NotAFill

  function Validate(
    filledSz: real, avgPx: Option<real>, intent: OrderIntent, requirement: AvgPxRequirement)
    : Result<ValidatedFill, FillError>
  {
    if filledSz < 0.0 then Err(NegativeFill)
    else if filledSz > intent.sz then Err(Overfill)
    else if filledSz > 0.0 then
      match avgPx
      case None =>
        if requirement.Required? then Err(MissingAvgPx)
        else if intent.side.Short? && !intent.tif.Alo? then Err(UnpricedShort)
        else Ok(ValidatedFill(filledSz, None))
      case Some(px) =>
        if px <= 0.0 then Err(NonPositiveAvgPx)
        else if intent.side.Long? && px > intent.px then Err(OutsideLimit)
        else if intent.side.Short? && px < intent.px then Err(OutsideLimit)
        else Ok(ValidatedFill(filledSz, Some(px)))
    else Ok(ValidatedFill(filledSz, None))
  }

  function TryFromPlace(outcome: PlaceOutcome, intent: OrderIntent): Result<ValidatedFill, FillError> {
    match outcome
    case Filled(totalSz, avgPx) => Validate(totalSz, Some(avgPx), intent, Required)
    case RestingOutcome => Err(NotAFill)
  }

  function TryFromStatus(fill: OrderStatusFill, intent: OrderIntent): Result<ValidatedFill, FillError> {
    Validate(fill.filledSz, fill.avgPx, intent, Optional)
  }

  /** The order a journalled intent describes. */
  function OrderOf(c: Cloid, intent: Intent, tif: Tif, reduceOnly: bool): OrderIntent
    requires intent.px.Numeral? && intent.sz.Numeral?
  {
    OrderIntent(c, intent.symbol, intent.side, intent.px.value, intent.sz.value, tif, reduceOnly)
  }

  /** The record the writer appends for a reported fill. */
  ghost predicate Records(rec: JournalRecord, fill: OrderStatusFill) {
    rec.Terminal? && rec.status == fill.status && Parse(rec.filledSz) == Some(fill.filledSz) &&
    (rec.avgPx.Some? <==> fill.avgPx.Some?) && (rec.avgPx.Some? ==> Parse(rec.avgPx.value) == fill.avgPx)
  }

  /** What the crediting multiplies out to. */
  function AccountedValue(intent: OrderIntent, fill: OrderStatusFill): real {
    fill.filledSz * (match fill.avgPx case Some(px) => px case None => intent.px)
  }

  lemma CreditAgrees(c: Cloid, intent: Intent, tif: Tif, reduceOnly: bool, rec: JournalRecord, fill: OrderStatusFill)
    requires IntentConsistent(intent) && intent.tif == Some(tif) && Records(rec, fill)
    requires Fits(AccountedValue(OrderOf(c, intent, tif, reduceOnly), fill))
    ensures var verdict := TryFromStatus(fill, OrderOf(c, intent, tif, reduceOnly));
      var credit := Credit(c, LimitOf(intent), rec.filledSz, rec.avgPx);
      && (verdict.Ok? <==> credit.Ok?)
      && (credit.Ok? ==>
            credit.value.filledSz == verdict.value.filledSz && credit.value.avgPx == verdict.value.avgPx &&
            credit.value.notional == AccountedValue(OrderOf(c, intent, tif, reduceOnly), fill))
  {
    if 0.0 < fill.filledSz && AccountedPrice(c, LimitOf(intent), rec.avgPx).Ok? {
      ExactProduct(fill.filledSz, AccountedPrice(c, LimitOf(intent), rec.avgPx).value,
        AccountedValue(OrderOf(c, intent, tif, reduceOnly), fill));
    }
  }

  /** The first terminal record of an open order is taken exactly when its fill can be credited. */
  lemma FirstTerminalStep(st: State, rec: JournalRecord, intent: Intent)
    requires Consistent(st) && st.header.Some? && !st.abandoned && !st.completedFinal
    requires rec.Terminal? && IsValidJournalTerminalStatus(rec.status)
    requires rec.cloid in st.prepared && st.prepared[rec.cloid] == intent && intent.sliceIdx == rec.sliceIdx
    requires IntentConsistent(intent) && !IsClosed(st.states, rec.cloid)
    ensures var credit := Credit(rec.cloid, LimitOf(intent), rec.filledSz, rec.avgPx);
      && (Step(st, rec).Ok? <==> credit.Ok?)
      && (credit.Ok? ==> Step(st, rec).value.fills == st.fills[rec.cloid := credit.value])
  {
    assert rec.cloid in st.states;
    assert rec.cloid !in st.fills;
  }

  /** An open order of an accepted journal, as the replay's tables have it. */
  lemma OpenOrder(records: seq<JournalRecord>, st: State, intent: Intent, c: Cloid)
    requires records != [] && Fold(records) == Ok(st) && !Closes(records[|records| - 1])
    requires TermsOf(records, c) == Some(intent)
    requires LastAbout(records, c).Some? && !LastAbout(records, c).value.Terminal?
    ensures Consistent(st) && st.header.Some? && !st.abandoned && !st.completedFinal
    ensures c in st.prepared && st.prepared[c] == intent && !IsClosed(st.states, c)
  {
    FoldConsistent(records);
    TablesAreTheReading(records);
    assert ReadsAt(records, st, c);
    ClosedByLastRecord(records);
  }

  /** What an accepted open journal makes of an order's first terminal record. */
  lemma FirstTerminalRecord(records: seq<JournalRecord>, intent: Intent, rec: JournalRecord)
    requires records != [] && Fold(records).Ok? && !Closes(records[|records| - 1])
    requires rec.Terminal? && IsValidJournalTerminalStatus(rec.status)
    requires TermsOf(records, rec.cloid) == Some(intent) && intent.sliceIdx == rec.sliceIdx && IntentConsistent(intent)
    requires LastAbout(records, rec.cloid).Some? && !LastAbout(records, rec.cloid).value.Terminal?
    ensures var credit := Credit(rec.cloid, LimitOf(intent), rec.filledSz, rec.avgPx);
      var next := Fold(records + [rec]);
      && (next.Ok? <==> credit.Ok?)
      && (credit.Ok? ==> rec.cloid in next.value.fills && next.value.fills[rec.cloid] == credit.value)
  {
    FoldAppend(records, rec);
    OpenOrder(records, Fold(records).value, intent, rec.cloid);
    FirstTerminalStep(Fold(records).value, rec, intent);
  }

  /**
    The two checks coincide: for an order prepared with its time-in-force and
    not yet final, in an accepted open journal, a final-status fill passes the
    order-status validator exactly when the replay takes its terminal record,
    and both credit the same size and trusted price.
  */
  lemma ValidatorsCoincide(
    records: seq<JournalRecord>, intent: Intent, tif: Tif, reduceOnly: bool, rec: JournalRecord, fill: OrderStatusFill)
    requires records != [] && Fold(records).Ok? && !Closes(records[|records| - 1])
    requires Records(rec, fill) && IsValidJournalTerminalStatus(fill.status)
    requires TermsOf(records, rec.cloid) == Some(intent) && intent.tif == Some(tif) && intent.sliceIdx == rec.sliceIdx
    requires LastAbout(records, rec.cloid).Some? && !LastAbout(records, rec.cloid).value.Terminal?
    requires IntentConsistent(intent)
    requires Fits(AccountedValue(OrderOf(rec.cloid, intent, tif, reduceOnly), fill))
    ensures var verdict := TryFromStatus(fill, OrderOf(rec.cloid, intent, tif, reduceOnly));
      var next := Fold(records + [rec]);
      && (verdict.Ok? <==> next.Ok?)
      && (next.Ok? ==>
            rec.cloid in next.value.fills && next.value.fills[rec.cloid].filledSz == verdict.value.filledSz &&
            next.value.fills[rec.cloid].avgPx == verdict.value.avgPx)
  {
    CreditAgrees(rec.cloid, intent, tif, reduceOnly, rec, fill);
    FirstTerminalRecord(records, intent, rec);
  }

  /** Every journalled intent of an accepted journal has terms the validator can use. */
  lemma TermsAreConsistent(records: seq<JournalRecord>, c: Cloid)
    requires Fold(records).Ok? && TermsOf(records, c).Some?
    ensures IntentConsistent(TermsOf(records, c).value)
  {
    FoldConsistent(records);
    TablesAreTheReading(records);
    assert ReadsAt(records, Fold(records).value, c);
  }

  /**
    A placement reply is held to the same rules as an order status that
    carries a price; the only fills the order-status check lets through
    beyond those are unpriced ones whose own limit bounds them.
  */
  lemma PlaceIsStricter(totalSz: real, avgPx: real, intent: OrderIntent, status: Status)
    ensures TryFromPlace(Filled(totalSz, avgPx), intent) ==
      TryFromStatus(OrderStatusFill(status, totalSz, Some(avgPx)), intent)
    ensures TryFromPlace(RestingOutcome, intent).Err?
    ensures TryFromStatus(OrderStatusFill(status, totalSz, None), intent).Ok? <==>
      0.0 <= totalSz <= intent.sz && (totalSz > 0.0 ==> intent.side.Long? || intent.tif.Alo?)
  {
  }

  /** A refused fill has the fault its error names. */
  lemma VerdictIsTrue(filledSz: real, avgPx: Option<real>, intent: OrderIntent, requirement: AvgPxRequirement)
    ensures Validate(filledSz, avgPx, intent, requirement).Err? ==>
      match Validate(filledSz, avgPx, intent, requirement).error
      case NegativeFill => filledSz < 0.0
      case Overfill => filledSz > intent.sz
      case MissingAvgPx => filledSz > 0.0 && avgPx.None? && requirement.Required?
      case UnpricedShort =>
        filledSz > 0.0 && avgPx.None? && requirement.Optional? && intent.side.Short? && intent.tif != Alo
      case NonPositiveAvgPx => filledSz > 0.0 && avgPx.Some? && avgPx.value <= 0.0
      case OutsideLimit =>
        filledSz > 0.0 && avgPx.Some? &&
        (if intent.side.Long? then avgPx.value > intent.px else avgPx.value < intent.px)
      case NotAFill => false
  {
  }
}
