/**
  Exactly which headers a journal may start with, on the fields of the
  fingerprint; that the header of a freshly sized run is one of them; and what
  a position run's phases add up to.
*/
module HeaderRules {
  import opened Wrappers
  import opened Decimals
  import opened Types
  import opened JournalRecords
  import opened FingerprintCheck
  import opened PhaseFingerprint
  import Replay
  import Position
  import Sizing

  // ---- a fingerprint in order ----

  /** A number in its one canonical spelling. */
  predicate IsNumber(t: Text) {
    Parse(t).Some? && IsCanonical(t)
  }

  predicate PlanInOrder(header: RunHeader, fp: Fingerprint) {
    && fp.slices == header.slices > 0 && fp.durationMs > 0
    && fp.symbol == header.symbol && fp.side == (if header.side.Long? then "long" else "short")
    && fp.network == header.network && (fp.network == "mainnet" || fp.network == "testnet")
    && fp.agent == header.agent && fp.master == header.master
    && header.deadlineUnixMs.Some? && fp.absoluteDeadlineUnixMs == header.deadlineUnixMs
    && IsNumber(fp.perSlice) && IsNumber(fp.totalAdjusted) && IsNumber(fp.totalRequested)
    && 0.0 < fp.perSlice.value <= fp.totalAdjusted.value <= fp.totalRequested.value
    && IsNumber(fp.slippageBps) && 0.0 <= fp.slippageBps.value < 10000.0
    && IsNumber(fp.maxNotionalUsd) && fp.maxNotionalUsd.value > 0.0
    && IsNumber(fp.followThresholdBps) && fp.followThresholdBps.value >= 0.0
    && fp.settleRetries > 0 && fp.followPollSecs > 0 && fp.followRepostSecs > 0
    && (fp.childAlgo == "market" || fp.childAlgo == "passive" || fp.childAlgo == "follow")
  }

  /** An ordinary run trades its slices and nothing of a position. */
  predicate OrdinaryInOrder(fp: Fingerprint) {
    && IsNumber(fp.requestValue) && fp.requestValue.value > 0.0
    && (fp.requestMode == "usd" ||
        (fp.requestMode == "size" && fp.totalRequested.Numeral? && fp.requestValue.value == fp.totalRequested.value))
    && fp.perSlice.Numeral? && fp.totalAdjusted.Numeral?
    && Sizing.Times(fp.perSlice.value, fp.slices) == fp.totalAdjusted.value
    && fp.initialPositionSzi.None? && fp.targetPositionSzi.None? && fp.positionRequestedValue.None?
    && fp.positionReferencePrice.None? && fp.positionPhases == [] && !fp.reduceOnly
  }

  predicate EndpointsInOrder(fp: Fingerprint) {
    && fp.positionMode == Some(fp.requestMode)
    && fp.initialPositionSzi.Some? && IsNumber(fp.initialPositionSzi.value)
    && fp.targetPositionSzi.Some? && IsNumber(fp.targetPositionSzi.value)
    && if fp.requestMode == "flatten" then
         fp.targetPositionSzi.value.value == 0.0 && fp.requestValue == Numeral(0.0, 0) &&
         fp.positionRequestedValue.None? && fp.positionReferencePrice.None?
       else
         && IsNumber(fp.requestValue) && fp.positionRequestedValue == Some(fp.requestValue)
         && if fp.requestMode == "target_usd" then
              fp.positionReferencePrice.Some? && IsNumber(fp.positionReferencePrice.value) &&
              fp.positionReferencePrice.value.value > 0.0
            else
              fp.requestMode == "target_sz" && fp.positionReferencePrice.None?
  }

  /** The phases are the planner's, or one crossing adjustment, as they print. */
  ghost predicate PhasesInOrder(fp: Fingerprint, initial: Text, target: Text)
    requires initial.Numeral? && target.Numeral?
  {
    var texts, plan := fp.positionPhases, Position.PhasesFor(initial.value, target.value);
    && FlagsCopied(fp)
    && ((plan.Ok? && Written(texts, plan.value) && (|texts| == 1 ==> LastDigitStays(initial, target))) ||
        (|texts| == 1 && IsCrossingAdjust(texts[0], initial, target)))
  }

  ghost predicate FingerprintInOrder(header: RunHeader, fp: Fingerprint) {
    PlanInOrder(header, fp) &&
    if fp.positionMode.None? then OrdinaryInOrder(fp)
    else EndpointsInOrder(fp) && PhasesInOrder(fp, fp.initialPositionSzi.value, fp.targetPositionSzi.value)
  }

  // ---- the check is exactly that ----

  lemma PlanExactly(header: RunHeader, fp: Fingerprint)
    ensures CheckPlan(header, fp).Ok? <==> PlanInOrder(header, fp)
    ensures CheckPlan(header, fp).Ok? ==>
      CheckPlan(header, fp).value == PlanSizes(fp.perSlice.value, fp.totalAdjusted.value, fp.totalRequested.value)
  {
  }

  lemma OrdinaryExactly(header: RunHeader, fp: Fingerprint)
    requires PlanInOrder(header, fp)
    ensures CheckOrdinary(fp, PlanSizes(fp.perSlice.value, fp.totalAdjusted.value, fp.totalRequested.value)).Ok? <==>
      OrdinaryInOrder(fp)
  {
    ProductExactly(fp.perSlice.value, fp.slices, fp.totalAdjusted.value);
  }

  lemma ProductExactly(x: real, n: nat, total: real)
    requires Fits(total)
    ensures CheckedMul(x, n as real) == Some(total) <==> Sizing.Times(x, n) == total
  {
    var product := x * n as real;
    Sizing.TimesIsProduct(x, n, product);
    if product == total {
      ExactProduct(x, n as real, total);
    }
  }

  lemma EndpointsExactly(fp: Fingerprint)
    requires fp.positionMode.Some?
    ensures CheckEndpoints(fp, fp.positionMode.value).Ok? <==> EndpointsInOrder(fp)
  {
  }

  lemma FlagsAreChecked(fp: Fingerprint, initial: Text, target: Text)
    requires initial.Numeral? && target.Numeral? && CheckPhases(fp, initial, target).Ok?
    ensures FlagsCopied(fp)
  {
  }

  lemma PhasesExactly(fp: Fingerprint, initial: Text, target: Text)
    requires IsNumber(initial) && IsNumber(target)
    ensures CheckPhaseTexts(fp.positionPhases).Ok? && CheckPhases(fp, initial, target).Ok? <==>
      PhasesInOrder(fp, initial, target)
  {
    CheckerAcceptsExactly(fp.positionPhases, initial, target);
    if FlagsCopied(fp) {
      PhaseCheckSplits(fp, initial, target);
    } else if CheckPhases(fp, initial, target).Ok? {
      FlagsAreChecked(fp, initial, target);
    }
  }

  lemma FingerprintExactly(header: RunHeader, fp: Fingerprint)
    ensures CheckFingerprint(header, fp).Ok? <==> FingerprintInOrder(header, fp)
  {
    PlanExactly(header, fp);
    if CheckPlan(header, fp).Ok? {
      if fp.positionMode.None? {
        OrdinaryExactly(header, fp);
      } else {
        EndpointsExactly(fp);
        if EndpointsInOrder(fp) {
          PhasesExactly(fp, fp.initialPositionSzi.value, fp.targetPositionSzi.value);
        }
      }
    }
  }

  /**
    A journal may start with a header exactly when it has no fingerprint, or
    one with a positive cap that is in order if it is of version 3; the replay
    then has that cap and nothing accounted.
  */
  lemma HeaderAcceptedExactly(header: RunHeader)
    ensures var replay, fp := Replay.ReplayJournal([Header(header)]), header.fingerprint;
      && (replay.Ok? <==>
            fp.Some? ==>
              Parse(fp.value.maxNotionalUsd).Some? && fp.value.maxNotionalUsd.value > 0.0 &&
              (fp.value.version == 3 ==> FingerprintInOrder(header, fp.value)))
      && (replay.Ok? ==>
            replay.value.summary.header == header && replay.value.maxNotional.Some? == fp.Some? &&
            (fp.Some? ==> replay.value.maxNotional == Some(fp.value.maxNotionalUsd.value)))
  {
    var records := [Header(header)];
    assert records[..0] == [];
    assert Replay.Fold(records) == Replay.Step(Replay.INITIAL, records[0]);
    assert Replay.TotalsOf([], map[]).Ok?;
    if header.fingerprint.Some? {
      FingerprintExactly(header, header.fingerprint.value);
    }
  }

  /** A header is refused for its cap, or else as a fingerprint that is not in order. */
  lemma HeaderRefusal(header: RunHeader)
    requires Replay.ReplayJournal([Header(header)]).Err?
    ensures header.fingerprint.Some?
    ensures var e, cap := Replay.ReplayJournal([Header(header)]).error, header.fingerprint.value.maxNotionalUsd;
      && (e == InvalidFingerprintMaxNotional <==> Parse(cap).None? || cap.value <= 0.0)
      && (e != InvalidFingerprintMaxNotional ==> e.InvalidFingerprint?)
  {
    HeaderAcceptedExactly(header);
    var records := [Header(header)];
    assert records[..0] == [];
    assert Replay.Fold(records) == Replay.Step(Replay.INITIAL, records[0]);
    if header.fingerprint.Some? {
      FingerprintErrors(header, header.fingerprint.value);
    }
  }

  lemma PhaseTextErrors(phases: seq<PhaseText>)
    ensures CheckPhaseTexts(phases).Err? ==> CheckPhaseTexts(phases).error.InvalidFingerprint?
  {
  }

  lemma PlanErrors(header: RunHeader, fp: Fingerprint)
    ensures CheckPlan(header, fp).Err? ==> CheckPlan(header, fp).error.InvalidFingerprint?
  {
  }

  lemma OrdinaryErrors(fp: Fingerprint, sizes: PlanSizes)
    ensures CheckOrdinary(fp, sizes).Err? ==> CheckOrdinary(fp, sizes).error.InvalidFingerprint?
  {
  }

  lemma PositionErrors(fp: Fingerprint, mode: string)
    ensures CheckPosition(fp, mode).Err? ==> CheckPosition(fp, mode).error.InvalidFingerprint?
  {
    PhaseTextErrors(fp.positionPhases);
  }

  lemma FingerprintErrors(header: RunHeader, fp: Fingerprint)
    ensures CheckFingerprint(header, fp).Err? ==> CheckFingerprint(header, fp).error.InvalidFingerprint?
  {
    PlanErrors(header, fp);
    if CheckPlan(header, fp).Ok? {
      OrdinaryErrors(fp, CheckPlan(header, fp).value);
      if fp.positionMode.Some? {
        PositionErrors(fp, fp.positionMode.value);
      }
    }
  }

  // ---- the writer's side ----

  /** A run as its command line sized it, recorded in a header that copies it. */
  lemma SizedRunPassesItsCheck(header: RunHeader, fp: Fingerprint, total: real, slices: nat, szDecimals: nat, mid: real)
    requires slices > 0 && Fits(total) && fp.slices == slices
    requires Sizing.ComputeSizing(total, slices, szDecimals, mid).Ok?
    requires Sizing.Records(fp, total, Sizing.ComputeSizing(total, slices, szDecimals, mid).value, false)
    requires IsNumber(fp.requestValue) && fp.requestValue.value > 0.0
    requires fp.requestMode == "usd" || (fp.requestMode == "size" && fp.requestValue.value == total)
    requires fp.initialPositionSzi.None? && fp.targetPositionSzi.None? && fp.positionRequestedValue.None?
    requires fp.positionReferencePrice.None? && fp.positionPhases == [] && fp.positionMode.None?
    ensures 0.0 < fp.perSlice.value <= fp.totalAdjusted.value <= fp.totalRequested.value
    ensures OrdinaryInOrder(fp)
    ensures CheckFingerprint(header, fp).Ok? <==> PlanInOrder(header, fp)
  {
    Sizing.RoundingDropsLittle(total, slices, szDecimals, mid);
    FingerprintExactly(header, fp);
  }

  /** The phases of a position run add up to the way it has to go, however they are split. */
  lemma LogicalTotalIsTheDistance(fp: Fingerprint, initial: Text, target: Text)
    requires IsNumber(initial) && IsNumber(target) && Fits(target.value - initial.value)
    requires Position.PhasesFor(initial.value, target.value).Ok?
    requires Written(fp.positionPhases, Position.PhasesFor(initial.value, target.value).value)
    ensures initial.value == target.value ==> LogicalPositionTotal(fp) == None
    ensures initial.value != target.value ==>
      LogicalPositionTotal(fp).Some? && LogicalPositionTotal(fp).value.Numeral? &&
      LogicalPositionTotal(fp).value.value == Abs(target.value - initial.value)
    ensures |fp.positionPhases| == 1 ==> LogicalPositionTotal(fp) == Some(fp.positionPhases[0].size)
  {
    var texts := fp.positionPhases;
    if |texts| == 1 {
      assert texts[..0] == [];
      assert PhaseSum(texts[..0]) == Some(Numeral(0.0, 0));
    } else if |texts| == 2 {
      assert texts[..1][..0] == [];
      assert PhaseSum(texts[..1][..0]) == Some(Numeral(0.0, 0));
      assert PhaseSum(texts[..1]) == Some(Numeral(texts[0].size.value, texts[0].size.scale));
    }
  }
}
