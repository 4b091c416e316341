/** The self-contained check of a header's execution fingerprint. */
module FingerprintCheck {
  import opened Wrappers
  import opened Decimals
  import opened Types
  import opened JournalRecords

  function Need(condition: bool, field: string): Result<(), ReplayError> {
    if condition then Ok(()) else Err(InvalidFingerprint(field))
  }

  function CanonicalDecimal(field: string, t: Text): Result<real, ReplayError> {
    if Parse(t).Some? && IsCanonical(t) then Ok(t.value) else Err(InvalidFingerprint(field))
  }

  function PositiveDecimal(field: string, t: Text): Result<real, ReplayError> {
    var x :- CanonicalDecimal(field, t);
    if x > 0.0 then Ok(x) else Err(InvalidFingerprint(field))
  }

  function NonNegativeDecimal(field: string, t: Text): Result<real, ReplayError> {
    var x :- CanonicalDecimal(field, t);
    if x >= 0.0 then Ok(x) else Err(InvalidFingerprint(field))
  }

  function SideText(side: Side): string {
    match side
    case Long => "long"
    case Short => "short"
  }

  /** Which way a signed change trades; a zero change reads as a sell. */
  function ExpectedSide(delta: real): string {
    if delta > 0.0 then "long" else "short"
  }

  function Sign(x: real): int {
    if x > 0.0 then 1 else if x < 0.0 then -1 else 0
  }

  function Max(m: nat, n: nat): nat {
    if m < n then n else m
  }

  /** The sum of the phase sizes as it prints, when every size reads and the sum fits. */
  function PhaseSum(phases: seq<PhaseText>): Option<Text> {
    if |phases| == 0 then
      Some(Numeral(0.0, 0))
    else
      var last := phases[|phases| - 1].size;
      match PhaseSum(phases[..|phases| - 1])
      case None => None
      case Some(Junk(_)) => None
      case Some(Numeral(total, scale)) =>
        if Parse(last).Some? && CheckedAdd(total, last.value).Some?
        then Some(Numeral(total + last.value, Max(scale, last.scale)))
        else None
  }

  /** A reversal's logical total is the sum of its phases; an ordinary run has none. */
  function LogicalPositionTotal(fp: Fingerprint): Option<Text> {
    if fp.positionPhases == [] then None else PhaseSum(fp.positionPhases)
  }

  /** The parsed sizing of a plan. */
  datatype PlanSizes = PlanSizes(perSlice: real, totalAdjusted: real, totalRequested: real)

  /** The fields every run has. */
  function CheckPlan(header: RunHeader, fp: Fingerprint): Result<PlanSizes, ReplayError> {
    var _ :- Need(fp.slices != 0, "slices");
    var _ :- Need(fp.durationMs != 0, "duration_ms");
    var _ :- Need(fp.symbol == header.symbol, "symbol");
    var _ :- Need(fp.side == SideText(header.side), "side");
    var _ :- Need(fp.slices == header.slices, "slices");
    var _ :- Need(
      fp.absoluteDeadlineUnixMs == header.deadlineUnixMs && fp.absoluteDeadlineUnixMs.Some?,
      "absolute_deadline_unix_ms");
    var _ :- Need(fp.network == header.network, "network");
    var _ :- Need(fp.agent == header.agent, "agent");
    var _ :- Need(fp.master == header.master, "master");
    var perSlice :- PositiveDecimal("per_slice", fp.perSlice);
    var totalAdjusted :- PositiveDecimal("total_adjusted", fp.totalAdjusted);
    var totalRequested :- PositiveDecimal("total_requested", fp.totalRequested);
    var _ :- Need(perSlice <= totalAdjusted <= totalRequested, "sizing");
    var slippage :- NonNegativeDecimal("slippage_bps", fp.slippageBps);
    var _ :- Need(slippage < 10000.0, "slippage_bps");
    var _ :- PositiveDecimal("max_notional_usd", fp.maxNotionalUsd);
    var _ :- NonNegativeDecimal("follow_threshold_bps", fp.followThresholdBps);
    var _ :- Need(fp.settleRetries != 0, "settle_retries");
    var _ :- Need(fp.childAlgo in ["market", "passive", "follow"], "child_algo");
    var _ :- Need(fp.followPollSecs != 0 && fp.followRepostSecs != 0, "follow timing");
    var _ :- Need(fp.network in ["mainnet", "testnet"], "network");
    Ok(PlanSizes(perSlice, totalAdjusted, totalRequested))
  }

  function CheckFingerprint(header: RunHeader, fp: Fingerprint): Result<(), ReplayError> {
    var sizes :- CheckPlan(header, fp);
    match fp.positionMode
    case None => CheckOrdinary(fp, sizes)
    case Some(mode) => CheckPosition(fp, mode)
  }

  function CheckOrdinary(fp: Fingerprint, sizes: PlanSizes): Result<(), ReplayError> {
    var _ :- Need(fp.requestMode in ["size", "usd"], "request_mode");
    var requestValue :- PositiveDecimal("request_value", fp.requestValue);
    var _ :- Need(CheckedMul(sizes.perSlice, fp.slices as real) == Some(sizes.totalAdjusted), "sizing");
    var _ :- Need(fp.requestMode == "size" ==> requestValue == sizes.totalRequested, "request_value");
    Need(
      fp.initialPositionSzi.None? && fp.targetPositionSzi.None? && fp.positionRequestedValue.None? &&
      fp.positionReferencePrice.None? && fp.positionPhases == [] && !fp.reduceOnly,
      "position fields")
  }

  /** A position run's fields other than its phases. */
  function CheckEndpoints(fp: Fingerprint, mode: string): Result<(), ReplayError> {
    var _ :- Need(mode in ["flatten", "target_sz", "target_usd"] && fp.requestMode == mode, "position_mode");
    var _ :- Need(fp.initialPositionSzi.Some?, "initial_position_szi");
    var _ :- Need(fp.targetPositionSzi.Some?, "target_position_szi");
    var _ :- CanonicalDecimal("initial_position_szi", fp.initialPositionSzi.value);
    var _ :- CanonicalDecimal("target_position_szi", fp.targetPositionSzi.value);
    CheckRequest(fp, mode, fp.targetPositionSzi.value.value)
  }

  function CheckPosition(fp: Fingerprint, mode: string): Result<(), ReplayError> {
    var _ :- CheckEndpoints(fp, mode);
    var _ :- CheckPhaseTexts(fp.positionPhases);
    CheckPhases(fp, fp.initialPositionSzi.value, fp.targetPositionSzi.value)
  }

  function CheckRequest(fp: Fingerprint, mode: string, target: real): Result<(), ReplayError> {
    if mode == "flatten" then
      Need(
        fp.requestValue == Numeral(0.0, 0) && target == 0.0 &&
        fp.positionRequestedValue.None? && fp.positionReferencePrice.None?,
        "flatten fields")
    else
      var _ :- Need(fp.positionRequestedValue.Some?, "position_requested_value");
      var _ :- CanonicalDecimal("position_requested_value", fp.positionRequestedValue.value);
      var _ :- CanonicalDecimal("request_value", fp.requestValue);
      var _ :- Need(fp.requestValue == fp.positionRequestedValue.value, "request_value");
      if mode == "target_usd" then
        var _ :- Need(fp.positionReferencePrice.Some?, "position_reference_price");
        var _ :- PositiveDecimal("position_reference_price", fp.positionReferencePrice.value);
        Ok(())
      else
        Need(fp.positionReferencePrice.None?, "position_reference_price")
  }

  function CheckPhaseTexts(phases: seq<PhaseText>): Result<(), ReplayError> {
    if phases == [] then
      Ok(())
    else
      var _ :- Need(
        phases[0].kind in ["adjust", "close_to_flat", "open_from_flat"] && phases[0].side in ["long", "short"],
        "position_phases");
      var _ :- PositiveDecimal("position_phases.size", phases[0].size);
      CheckPhaseTexts(phases[1..])
  }

  /**
    The phase sequence against the frozen endpoints.  Sizes are compared as
    text: the difference of two decimals prints with the longer of their two
    scales, the absolute value of one decimal with its own.
  */
  function CheckPhases(fp: Fingerprint, initial: Text, target: Text): Result<(), ReplayError>
    requires initial.Numeral? && target.Numeral?
  {
    var phases := fp.positionPhases;
    var _ :- Need(initial.value != target.value ==> phases != [], "position_phases");
    var _ :- Need(
      |phases| == 0 || (|phases| == 1 && IsAdjustFor(phases[0], initial, target)) ||
      (|phases| == 2 && IsReversalFor(phases[0], phases[1], initial, target)),
      "position_phases");
    if phases != [] then
      Need(fp.reduceOnly == phases[0].reduceOnly && fp.side == phases[0].side, "reduce_only")
    else
      Need(!fp.reduceOnly, "reduce_only")
  }

  predicate IsAdjustFor(phase: PhaseText, initial: Text, target: Text)
    requires initial.Numeral? && target.Numeral?
  {
    var delta := target.value - initial.value;
    var reduces := initial.value != 0.0 &&
      (target.value == 0.0 || (Sign(initial.value) == Sign(target.value) && Abs(target.value) < Abs(initial.value)));
    phase.kind == "adjust" && Fits(delta) && phase.side == ExpectedSide(delta) &&
    phase.size == Show(Abs(delta), Max(target.scale, initial.scale)) && phase.reduceOnly == reduces
  }

  predicate IsReversalFor(close: PhaseText, open: PhaseText, initial: Text, target: Text)
    requires initial.Numeral? && target.Numeral?
  {
    initial.value != 0.0 && target.value != 0.0 && Sign(initial.value) != Sign(target.value) &&
    close.kind == "close_to_flat" && close.side == ExpectedSide(-initial.value) &&
    close.size == Show(Abs(initial.value), initial.scale) && close.reduceOnly &&
    open.kind == "open_from_flat" && open.side == ExpectedSide(target.value) &&
    open.size == Show(Abs(target.value), target.scale) && !open.reduceOnly
  }

  /** What a current-version fingerprint that passes guarantees to the accounting reports. */
  lemma {:induction false} PhaseSumOfCheckedPhases(phases: seq<PhaseText>)
    requires CheckPhaseTexts(phases).Ok?
    ensures forall i :: 0 <= i < |phases| ==> PositiveDecimal("position_phases.size", phases[i].size).Ok?
  {
    if phases != [] {
      PhaseSumOfCheckedPhases(phases[1..]);
    }
  }

  lemma {:induction false} PhaseSumReads(phases: seq<PhaseText>)
    requires forall i :: 0 <= i < |phases| ==> PositiveDecimal("position_phases.size", phases[i].size).Ok?
    requires PhaseSum(phases).Some?
    ensures Parse(PhaseSum(phases).value).Some? && PhaseSum(phases).value.value >= 0.0
  {
    if phases != [] {
      PhaseSumReads(phases[..|phases| - 1]);
    }
  }
}
