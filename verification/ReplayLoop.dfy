/**
  The replay as the program runs it: one pass over the records updating
  tables, and totals summed over the fill table in whatever order its keys
  come out.
*/
module ReplayLoop {
  import opened Wrappers
  import opened Decimals
  import opened Types
  import opened JournalRecords
  import opened Replay
  import opened ReplayTheory

  lemma {:induction false} AbsentContributesNothing(
    order: seq<Cloid>, c: Cloid, fills: map<Cloid, Fill>, more: map<Cloid, Fill>, m: Measure)
    requires c !in order && c !in fills && c in more && more - {c} == fills
    ensures Sum(order, more, m) == Sum(order, fills, m)
  {
    if order != [] {
      AbsentContributesNothing(order[..|order| - 1], c, fills, more, m);
      var d := order[|order| - 1];
      assert d in fills <==> d in more;
      assert d in fills ==> (more - {c})[d] == more[d];
    }
  }

  /** Taking one more fill adds its amount, wherever its cloid stands in the order. */
  lemma {:induction false} TakeOne(
    order: seq<Cloid>, c: Cloid, fills: map<Cloid, Fill>, more: map<Cloid, Fill>, m: Measure)
    requires NoDuplicates(order) && c in order && c !in fills && c in more && more - {c} == fills
    ensures Sum(order, more, m) == Sum(order, fills, m) + Amount(more[c], m)
  {
    var init, d := order[..|order| - 1], order[|order| - 1];
    assert order == init + [d];
    if d == c {
      AbsentContributesNothing(init, c, fills, more, m);
    } else {
      TakeOne(init, c, fills, more, m);
      assert d in fills <==> d in more;
      assert d in fills ==> (more - {c})[d] == more[d];
    }
  }

  lemma {:induction false} EmptySum(order: seq<Cloid>, m: Measure)
    ensures Sum(order, map[], m) == 0.0
  {
    if order != [] {
      EmptySum(order[..|order| - 1], m);
    }
  }

  /** One more key read from the table: its amount joins the running sum, which stays below the whole. */
  lemma TakeNext(order: seq<Cloid>, fills: map<Cloid, Fill>, left: set<Cloid>, c: Cloid, m: Measure)
    requires NoDuplicates(order) && (forall d :: d in fills ==> d in order && FillConsistent(fills[d]))
    requires left <= fills.Keys && c in left
    ensures Sum(order, fills - (left - {c}), m) == Sum(order, fills - left, m) + Amount(fills[c], m)
    ensures Sum(order, fills - (left - {c}), m) <= Sum(order, fills, m)
  {
    var seen, more := fills - left, fills - (left - {c});
    assert more - {c} == seen;
    TakeOne(order, c, seen, more, m);
    SumMonotone(order, more, fills, m);
  }

  lemma PricedNext(fills: map<Cloid, Fill>, left: set<Cloid>, c: Cloid)
    requires left <= fills.Keys && c in left
    ensures AllPriced(fills - (left - {c})) <==>
      AllPriced(fills - left) && (fills[c].filledSz > 0.0 ==> fills[c].avgPx.Some?)
  {
    var seen, more := fills - left, fills - (left - {c});
    assert forall d :: d in more <==> d in seen || d == c;
    assert forall d :: d in seen ==> more[d] == seen[d];
  }

  /** The running sums of the totals loop over the fills already read. */
  datatype Tally = Tally(size: real, notional: real, execSize: real, execNotional: real, priced: bool)

  ghost predicate Tallied(t: Tally, order: seq<Cloid>, seen: map<Cloid, Fill>) {
    && t.size == Sum(order, seen, Size) && t.notional == Sum(order, seen, Notional)
    && 0.0 <= t.execSize <= t.size <= MAX && 0.0 <= t.execNotional <= t.notional <= MAX
    && (t.priced <==> AllPriced(seen))
    && (t.priced ==> t.execSize == t.size && t.execNotional == t.notional)
  }

  /** The execution sums take only fills the exchange priced. */
  function Tallying(t: Tally, fill: Fill): Tally {
    if fill.filledSz > 0.0 && fill.avgPx.Some? then
      Tally(t.size + fill.filledSz, t.notional + fill.notional, t.execSize + fill.filledSz,
            t.execNotional + fill.notional, t.priced)
    else
      Tally(t.size + fill.filledSz, t.notional + fill.notional, t.execSize, t.execNotional,
            t.priced && fill.filledSz <= 0.0)
  }

  lemma TallyNext(t: Tally, order: seq<Cloid>, fills: map<Cloid, Fill>, left: set<Cloid>, c: Cloid)
    requires NoDuplicates(order) && (forall d :: d in fills ==> d in order && FillConsistent(fills[d]))
    requires left <= fills.Keys && c in left && Tallied(t, order, fills - left)
    ensures t.size + fills[c].filledSz > MAX || t.notional + fills[c].notional > MAX ==>
      TotalsOf(order, fills) == Err(Overflow)
    ensures t.size + fills[c].filledSz <= MAX && t.notional + fills[c].notional <= MAX ==>
      Tallied(Tallying(t, fills[c]), order, fills - (left - {c}))
  {
    TakeNext(order, fills, left, c, Size);
    TakeNext(order, fills, left, c, Notional);
    PricedNext(fills, left, c);
  }

  /** At the exchange's own price a fill is worth exactly what it was credited with. */
  lemma PricedProduct(fill: Fill)
    requires FillConsistent(fill) && fill.avgPx.Some?
    ensures CheckedMul(fill.filledSz, fill.avgPx.value) == Some(fill.notional)
  {
    ExactProduct(fill.filledSz, fill.avgPx.value, fill.notional);
  }

  /** With every fill read, the running sums are the totals. */
  lemma TallyDone(t: Tally, order: seq<Cloid>, fills: map<Cloid, Fill>)
    requires Tallied(t, order, fills)
    ensures TotalsOf(order, fills) ==
      Ok(Totals(t.size, t.notional, if t.priced && t.execSize > 0.0 then Some(t.execNotional / t.execSize) else None))
  {
  }

  /** One fill joins the running sums, unless they would no longer fit. */
  method AddFill(t: Tally, fill: Fill) returns (r: Option<Tally>)
    requires FillConsistent(fill)
    requires 0.0 <= t.execSize <= t.size && 0.0 <= t.execNotional <= t.notional
    ensures r == if t.size + fill.filledSz > MAX || t.notional + fill.notional > MAX then None
      else Some(Tallying(t, fill))
  {
    var size, notional := CheckedAdd(t.size, fill.filledSz), CheckedAdd(t.notional, fill.notional);
    if size.None? || notional.None? {
      return None;
    }
    var next := t.(size := size.value, notional := notional.value);
    if fill.filledSz > 0.0 {
      if fill.avgPx.None? {
        next := next.(priced := false);
      } else {
        // bounded by the two sums above, so the checked operations here cannot fail
        PricedProduct(fill);
        var product := CheckedMul(fill.filledSz, fill.avgPx.value).value;
        var execSize, execNotional := CheckedAdd(t.execSize, fill.filledSz), CheckedAdd(t.execNotional, product);
        next := next.(execSize := execSize.value, execNotional := execNotional.value);
      }
    }
    return Some(next);
  }

  method CalculateTotals(fills: map<Cloid, Fill>, ghost order: seq<Cloid>) returns (r: Result<Totals, ReplayError>)
    requires NoDuplicates(order) && (forall c :: c in fills ==> c in order && FillConsistent(fills[c]))
    ensures r == TotalsOf(order, fills)
  {
    var sums := Tally(0.0, 0.0, 0.0, 0.0, true);
    var left := fills.Keys;
    assert fills - left == map[];
    EmptySum(order, Size);
    EmptySum(order, Notional);
    while left != {}
      invariant left <= fills.Keys
      invariant Tallied(sums, order, fills - left)
      decreases left
    {
      var c :| c in left;
      TallyNext(sums, order, fills, left, c);
      var next := AddFill(sums, fills[c]);
      if next.None? {
        return Err(Overflow);
      }
      sums := next.value;
      left := left - {c};
    }
    assert fills - left == fills;
    TallyDone(sums, order, fills);
    var vwap := if sums.priced && sums.execSize > 0.0 then Some(sums.execNotional / sums.execSize) else None;
    r := Ok(Totals(sums.size, sums.notional, vwap));
  }

  method UnresolvedOf(order: seq<Cloid>, states: map<Cloid, CloidState>) returns (unresolved: seq<Cloid>)
    ensures unresolved == Unresolved(order, states)
  {
    unresolved := [];
    for i := 0 to |order|
      invariant unresolved == Unresolved(order[..i], states)
    {
      assert order[..i + 1][..i] == order[..i];
      if !IsClosed(states, order[i]) {
        unresolved := unresolved + [order[i]];
      }
    }
    assert order[..|order|] == order;
  }

  /** The limits table mirrors the parsed terms of every prepared intent. */
  ghost predicate Mirrors(limits: map<Cloid, Limit>, prepared: map<Cloid, Intent>) {
    limits.Keys == prepared.Keys &&
    forall c :: c in prepared ==>
      prepared[c].px.Numeral? && prepared[c].sz.Numeral? && limits[c] == LimitOf(prepared[c])
  }

  /** The error a specified step ends in, if any. */
  function Failure(r: Result<State, ReplayError>): Option<ReplayError> {
    match r
    case Ok(_) => None
    case Err(e) => Some(e)
  }

  /** The tables the replay keeps, updated in place record by record. */
  class Tables {
    var header: Option<RunHeader>
    var maxNotional: Option<real>
    var prepared: map<Cloid, Intent>
    var limits: map<Cloid, Limit>
    var fills: map<Cloid, Fill>
    var order: seq<Cloid>
    var states: map<Cloid, CloidState>
    var finalReportSeen: bool
    var lastCompleted: Option<bool>
    var lastUnknown: Option<seq<Cloid>>
    var lastWholeRun: Option<WholeRun>
    var abandoned: bool
    var completedFinal: bool

    ghost function Model(): State
      reads this
    {
      State(header, maxNotional, prepared, fills, order, states, finalReportSeen, lastCompleted, lastUnknown,
            lastWholeRun,             abandoned, completedFinal)
    }

    ghost predicate Valid()
      reads this
    {
      Consistent(Model()) && Mirrors(limits, prepared)
    }

    constructor ()
      ensures Model() == INITIAL && limits == map[]
    {
      header, maxNotional := None, None;
      prepared, limits, fills, order, states := map[], map[], map[], [], map[];
      finalReportSeen, lastCompleted, lastUnknown, lastWholeRun := false, None, None, None;
      abandoned, completedFinal := false, false;
    }

    method ApplyHeader(rec: JournalRecord) returns (error: Option<ReplayError>)
      requires rec.Header? && Valid() && !abandoned && !completedFinal
      modifies this
      ensures error == Failure(Step(old(Model()), rec))
      ensures error.None? ==> Step(old(Model()), rec) == Ok(Model()) && Mirrors(limits, prepared)
    {
      if header.Some? {
        return Some(DuplicateHeader);
      }
      var cap := CheckHeader(rec.header);
      if cap.Err? {
        return Some(cap.error);
      }
      header, maxNotional := Some(rec.header), cap.value;
      return None;
    }

    method ApplyPrepared(rec: JournalRecord) returns (error: Option<ReplayError>)
      requires rec.Prepared? && Valid()
      modifies this
      ensures error == Failure(StepPrepared(old(Model()), rec))
      ensures error.None? ==> StepPrepared(old(Model()), rec) == Ok(Model()) && Mirrors(limits, prepared)
    {
      var c, next := rec.cloid, IntentOf(rec);
      if c in prepared {
        return Some(if prepared[c] != next then ConflictingPrepared(c) else InvalidTransition(c));
      }
      if Parse(rec.sz).None? {
        return Some(InvalidDecimal(c));
      }
      if rec.sz.value < 0.0 {
        return Some(NegativeSize(c));
      }
      if Parse(rec.px).None? {
        return Some(InvalidDecimal(c));
      }
      if rec.px.value <= 0.0 {
        return Some(NonPositivePrice(c));
      }
      prepared := prepared[c := next];
      limits := limits[c := Limit(rec.px.value, rec.sz.value, rec.side, rec.tif)];
      order := order + [c];
      states := states[c := PreparedOnly];
      return None;
    }

    method ApplyOutcome(rec: JournalRecord) returns (error: Option<ReplayError>)
      requires IsOutcome(rec) && Valid()
      modifies this
      ensures error == Failure(StepOutcome(old(Model()), rec))
      ensures error.None? ==> StepOutcome(old(Model()), rec) == Ok(Model()) && Mirrors(limits, prepared)
    {
      var c := rec.cloid;
      if c !in prepared {
        return Some(MissingPrepared(c));
      }
      if prepared[c].sliceIdx != rec.sliceIdx {
        return Some(SliceIndexChanged(c));
      }
      if !Allowed(states[c], rec) {
        return Some(InvalidTransition(c));
      }
      if rec.SubmittedUnknown? {
        states := states[c := Unknown];
      } else if rec.Acknowledged? {
        states := states[c := Resting];
      } else {
        if !IsValidJournalTerminalStatus(rec.status) {
          return Some(InvalidTerminalStatus(c));
        }
        var fill := Credit(c, limits[c], rec.filledSz, rec.avgPx);
        if fill.Err? {
          return Some(fill.error);
        }
        if Regresses(fills, c, fill.value) {
          return Some(TerminalAccountingRegressed(c));
        }
        fills := fills[c := fill.value];
        states := states[c := Closed(rec.filledSz, rec.avgPx)];
      }
      return None;
    }

    method CheckReport(rec: JournalRecord) returns (error: Option<ReplayError>)
      requires rec.FinalReport? && Valid()
      ensures error == Failure(StepReport(Model(), rec))
    {
      if Parse(rec.filledTotal).None? {
        return Some(InvalidFinalReportFilledTotal);
      }
      assert forall c :: c in fills ==> c in order;
      var totals := CalculateTotals(fills, order);
      if totals.Err? {
        return Some(totals.error);
      }
      if rec.filledTotal.value != totals.value.filledSz {
        return Some(FinalReportFilledTotalMismatch);
      }
      var unresolved := UnresolvedOf(order, states);
      var whole := CheckWholeRun(header, rec.wholeRun, totals.value, |unresolved|);
      if whole.Err? {
        return Some(whole.error);
      }
      if rec.completed {
        if rec.unknownCloids != [] || unresolved != [] {
          return Some(CompletedFinalReportNotComplete);
        }
      } else {
        var reported := Members(rec.unknownCloids);
        if |reported| != |rec.unknownCloids| || reported != Members(unresolved) {
          return Some(FinalReportUnknownCloidsMismatch);
        }
      }
      return None;
    }

    method ApplyReport(rec: JournalRecord) returns (error: Option<ReplayError>)
      requires rec.FinalReport? && Valid()
      modifies this
      ensures error == Failure(StepReport(old(Model()), rec))
      ensures error.None? ==> StepReport(old(Model()), rec) == Ok(Model()) && Mirrors(limits, prepared)
    {
      error := CheckReport(rec);
      if error.None? {
        finalReportSeen, lastCompleted, lastUnknown := true, Some(rec.completed), Some(rec.unknownCloids);
        lastWholeRun, completedFinal := rec.wholeRun, rec.completed;
      }
    }

    /** One round of the loop: a closed journal takes nothing more. */
    method Apply(rec: JournalRecord) returns (error: Option<ReplayError>)
      requires Valid() && (header.None? ==> rec.Header?)
      modifies this
      ensures error == Failure(Step(old(Model()), rec))
      ensures error.None? ==> Step(old(Model()), rec) == Ok(Model()) && Mirrors(limits, prepared)
    {
      if abandoned {
        return Some(RecordAfterAbandoned);
      }
      if completedFinal {
        return Some(RecordAfterCompletedFinalReport);
      }
      if rec.Header? {
        error := ApplyHeader(rec);
      } else if rec.Prepared? {
        error := ApplyPrepared(rec);
      } else if rec.FinalReport? {
        error := ApplyReport(rec);
      } else if rec.Abandoned? {
        var unresolved := UnresolvedOf(order, states);
        if unresolved != [] {
          return Some(AbandonedWithUnresolved(|unresolved|));
        }
        abandoned := true;
        error := None;
      } else {
        error := ApplyOutcome(rec);
      }
    }

    /** After the last record: the totals, and what later readers consume. */
    method Conclude() returns (r: Result<ValidatedReplay, ReplayError>)
      requires Valid() && header.Some?
      ensures r == match TotalsOf(order, fills)
        case Err(e) => Err(e)
        case Ok(totals) => Ok(ValidatedReplay(Summarise(Model()), totals, maxNotional, prepared))
    {
      assert forall c :: c in fills ==> c in order;
      var totals := CalculateTotals(fills, order);
      if totals.Err? {
        return Err(totals.error);
      }
      var summary := RunSummary(
        header.value, CloidStates(order, states), finalReportSeen, lastCompleted, lastUnknown, lastWholeRun, abandoned);
      r := Ok(ValidatedReplay(summary, totals.value, maxNotional, prepared));
    }
  }

  /** The replay loop computes the specified replay, errors included. */
  method RunReplay(records: seq<JournalRecord>) returns (r: Result<ValidatedReplay, ReplayError>)
    ensures r == ReplayJournal(records)
  {
    if records == [] {
      return Err(MissingHeader);
    }
    if !records[0].Header? {
      ErrorsStick(records, 1);
      assert records[..1][..0] == [];
      return Err(HeaderNotFirst);
    }
    var tables := new Tables();
    for i := 0 to |records|
      invariant Fold(records[..i]) == Ok(tables.Model()) && Mirrors(tables.limits, tables.prepared)
      invariant i > 0 ==> tables.header.Some?
    {
      FoldConsistent(records[..i]);
      assert records[..i + 1][..i] == records[..i];
      ErrorsStick(records, i + 1);
      var error := tables.Apply(records[i]);
      if error.Some? {
        return Err(error.value);
      }
      FoldConsistent(records[..i + 1]);
    }
    assert records[..|records|] == records;
    FoldConsistent(records);
    r := tables.Conclude();
  }
}
