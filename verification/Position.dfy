/**
  Position-aware planning: from a signed position and a signed target to an
  ordered sequence of phases, closing to flat before opening past it.
*/
module Position {
  import opened Wrappers
  import opened Decimals
  import opened Types

  datatype PhaseKind = Adjust | CloseToFlat | OpenFromFlat

  datatype Phase = Phase(kind: PhaseKind, side: Side, size: real, reduceOnly: bool)

  datatype Plan = Plan(symbol: Symbol, current: real, target: real, phases: seq<Phase>)

  datatype PlanError = SymbolMismatch | CurrentPrecision | InvalidPrice | PlanOverflow | InvalidFill

  // ---- the planner ----

  function QuantizeTowardZero(x: real, szDecimals: nat): real {
    RoundDp(x, szDecimals, TowardZero)
  }

  function ApplySignedFill(current: real, side: Side, filled: real): Result<real, PlanError> {
    if filled < 0.0 then
      Err(InvalidFill)
    else
      match (if side.Long? then CheckedAdd(current, filled) else CheckedSub(current, filled))
      case Some(x) => Ok(x)
      case None => Err(PlanOverflow)
  }

  predicate IsBetweenFrozenEndpoints(x: real, initial: real, target: real) {
    (if initial < target then initial else target) <= x <= (if initial < target then target else initial)
  }

  function DecimalSign(x: real): int {
    if x > 0.0 then 1 else if x < 0.0 then -1 else 0
  }

  function SideForDelta(delta: real): Result<Side, PlanError> {
    if delta > 0.0 then Ok(Long) else if delta < 0.0 then Ok(Short) else Err(PlanOverflow)
  }

  function PhasesFor(current: real, target: real): Result<seq<Phase>, PlanError> {
    if current == target then
      Ok([])
    else
      var from, to := DecimalSign(current), DecimalSign(target);
      if from != 0 && to != 0 && from != to then
        var closing :- SideForDelta(-current);
        var opening :- SideForDelta(target);
        Ok([Phase(CloseToFlat, closing, Abs(current), true), Phase(OpenFromFlat, opening, Abs(target), false)])
      else if CheckedSub(target, current).None? then
        Err(PlanOverflow)
      else
        var delta := target - current;
        var side :- SideForDelta(delta);
        Ok([Phase(Adjust, side, Abs(delta), from != 0 && (to == 0 || (from == to && Abs(target) < Abs(current))))])
  }

  function TargetSize(
    positionSymbol: Symbol, szi: real, symbol: Symbol, target: real, szDecimals: nat): Result<Plan, PlanError> {
    if positionSymbol != symbol then Err(SymbolMismatch)
    else if QuantizeTowardZero(szi, szDecimals) != szi then Err(CurrentPrecision)
    else
      var goal := QuantizeTowardZero(target, szDecimals);
      var phases :- PhasesFor(szi, goal);
      Ok(Plan(symbol, szi, goal, phases))
  }

  function TargetUsd(
    positionSymbol: Symbol, szi: real, symbol: Symbol, usd: real, price: real, szDecimals: nat)
    : Result<Plan, PlanError>
  {
    if price <= 0.0 then Err(InvalidPrice)
    else if !Fits(usd / price) then Err(PlanOverflow)
    else TargetSize(positionSymbol, szi, symbol, usd / price, szDecimals)
  }

  function Flatten(positionSymbol: Symbol, szi: real, symbol: Symbol, szDecimals: nat): Result<Plan, PlanError> {
    TargetSize(positionSymbol, szi, symbol, 0.0, szDecimals)
  }

  predicate CrossesZero(phases: seq<Phase>) {
    |phases| == 2 && phases[0].kind.CloseToFlat? && phases[1].kind.OpenFromFlat?
  }

  // ---- what a plan is ----

  /** Buys add exposure, sells subtract it. */
  function Move(from: real, side: Side, size: real): real {
    if side.Long? then from + size else from - size
  }

  /** Where the first `n` phases lead. */
  function Reach(start: real, phases: seq<Phase>, n: nat): real
    requires n <= |phases|
  {
    if n == 0 then start else Move(Reach(start, phases, n - 1), phases[n - 1].side, phases[n - 1].size)
  }

  function Toward(start: real, target: real): Side {
    if target > start then Long else Short
  }

  /** One leg: a real move toward the target, not through zero, reduce-only exactly when it shrinks the position. */
  predicate GoodLeg(from: real, phase: Phase, side: Side) {
    var to := Move(from, phase.side, phase.size);
    && phase.size > 0.0 && phase.side == side
    && !(from < 0.0 < to) && !(to < 0.0 < from)
    && (phase.reduceOnly <==> Abs(to) < Abs(from))
  }

  /**
    A plan leads from `start` to `target` in good legs, breaks only at zero,
    and names its legs as closing and opening when it breaks.
  */
  predicate WellPlanned(start: real, phases: seq<Phase>, target: real) {
    && Reach(start, phases, |phases|) == target
    && (forall i :: 0 <= i < |phases| ==> GoodLeg(Reach(start, phases, i), phases[i], Toward(start, target)))
    && (forall i :: 0 < i < |phases| ==> Reach(start, phases, i) == 0.0)
    && (forall i :: 0 <= i < |phases| ==>
          phases[i].kind == if |phases| == 1 then Adjust else if i == 0 then CloseToFlat else OpenFromFlat)
  }

  lemma {:induction false} ReachMoves(start: real, phases: seq<Phase>, side: Side, m: nat, n: nat)
    requires m < n <= |phases| && forall i :: 0 <= i < |phases| ==> phases[i].side == side && phases[i].size > 0.0
    ensures if side.Long? then Reach(start, phases, m) < Reach(start, phases, n)
      else Reach(start, phases, n) < Reach(start, phases, m)
    decreases n
  {
    if m < n - 1 {
      ReachMoves(start, phases, side, m, n - 1);
    }
  }

  lemma OneLeg(start: real, phases: seq<Phase>)
    requires |phases| == 1
    ensures Reach(start, phases, 1) == Move(start, phases[0].side, phases[0].size)
  {
    assert Reach(start, phases, 0) == start;
  }

  lemma TwoLegs(start: real, phases: seq<Phase>)
    requires |phases| == 2
    ensures Reach(start, phases, 0) == start && Reach(start, phases, 1) == Move(start, phases[0].side, phases[0].size)
    ensures Reach(start, phases, 2) == Move(Reach(start, phases, 1), phases[1].side, phases[1].size)
  {
    assert Reach(start, phases, 0) == start;
    assert Reach(start, phases, 1) == Move(start, phases[0].side, phases[0].size);
  }

  /** Planning between two positions that fit never fails, and gives a plan. */
  lemma PlanningSucceeds(start: real, target: real)
    requires Fits(start) && Fits(target)
    ensures PhasesFor(start, target).Ok? && WellPlanned(start, PhasesFor(start, target).value, target)
  {
    var phases := PhasesFor(start, target).value;
    if |phases| == 1 {
      OneLeg(start, phases);
    } else if |phases| == 2 {
      TwoLegs(start, phases);
    }
  }

  lemma AtMostTwoLegs(start: real, phases: seq<Phase>, target: real)
    requires WellPlanned(start, phases, target)
    ensures |phases| <= 2
  {
    if |phases| > 2 {
      forall i | 0 <= i < |phases|
        ensures phases[i].side == Toward(start, target) && phases[i].size > 0.0
      {
        assert GoodLeg(Reach(start, phases, i), phases[i], Toward(start, target));
      }
      ReachMoves(start, phases, Toward(start, target), 1, 2);
      assert false;
    }
  }

  /** There is exactly one plan, and the planner finds it. */
  lemma PlanIsUnique(start: real, phases: seq<Phase>, target: real)
    requires Fits(start) && Fits(target)
    ensures WellPlanned(start, phases, target) <==> PhasesFor(start, target) == Ok(phases)
  {
    PlanningSucceeds(start, target);
    if WellPlanned(start, phases, target) {
      AtMostTwoLegs(start, phases, target);
      if |phases| == 1 {
        OneLeg(start, phases);
        assert GoodLeg(start, phases[0], Toward(start, target));
        assert phases == [phases[0]];
        assert phases == PhasesFor(start, target).value;
      } else if |phases| == 2 {
        TwoLegs(start, phases);
        assert GoodLeg(start, phases[0], Toward(start, target));
        assert GoodLeg(Reach(start, phases, 1), phases[1], Toward(start, target));
        assert phases == [phases[0], phases[1]];
        assert phases == PhasesFor(start, target).value;
      }
    }
  }

  function SizeOf(phases: seq<Phase>): real {
    if phases == [] then 0.0 else SizeOf(phases[..|phases| - 1]) + phases[|phases| - 1].size
  }

  /** The sizes of a plan add up to the distance it covers. */
  lemma PlanCoversTheDistance(start: real, target: real)
    requires Fits(start) && Fits(target)
    ensures PhasesFor(start, target).Ok? && SizeOf(PhasesFor(start, target).value) == Abs(target - start)
  {
    var phases := PhasesFor(start, target).value;
    if |phases| == 1 {
      assert phases[..0] == [];
    } else if |phases| == 2 {
      assert phases[..1] == [phases[0]] && [phases[0]][..0] == [];
      assert SizeOf(phases[..1]) == phases[0].size;
    }
  }

  /** A plan closes and then opens exactly when position and target lie on opposite sides of zero. */
  lemma CrossesExactly(start: real, target: real)
    requires Fits(start) && Fits(target)
    ensures PhasesFor(start, target).Ok?
    ensures CrossesZero(PhasesFor(start, target).value) <==> start < 0.0 < target || target < 0.0 < start
    ensures CrossesZero(PhasesFor(start, target).value) ==> PhasesFor(start, target).value[0].size == Abs(start)
  {
  }

  predicate SizesHavePlaces(phases: seq<Phase>, places: nat) {
    forall i :: 0 <= i < |phases| ==> HasPlaces(phases[i].size, places)
  }

  /**
    Planning a target succeeds exactly for the right symbol and a position on
    the size grid; the plan ends at the target cut back to the grid, never
    beyond it, and every leg is on the grid.
  */
  lemma TargetPlan(positionSymbol: Symbol, szi: real, symbol: Symbol, target: real, szDecimals: nat)
    requires Fits(szi) && Fits(target)
    ensures TargetSize(positionSymbol, szi, symbol, target, szDecimals).Ok? <==>
      positionSymbol == symbol && HasPlaces(szi, szDecimals)
    ensures TargetSize(positionSymbol, szi, symbol, target, szDecimals).Err? ==>
      TargetSize(positionSymbol, szi, symbol, target, szDecimals).error ==
      if positionSymbol != symbol then SymbolMismatch else CurrentPrecision
    ensures TargetSize(positionSymbol, szi, symbol, target, szDecimals).Ok? ==>
      var plan := TargetSize(positionSymbol, szi, symbol, target, szDecimals).value;
      && plan.symbol == symbol && plan.current == szi && WellPlanned(szi, plan.phases, plan.target)
      && HasPlaces(plan.target, szDecimals) && SizesHavePlaces(plan.phases, szDecimals)
      && IsBetweenFrozenEndpoints(plan.target, 0.0, target) && Shift(Abs(target - plan.target), szDecimals) < 1.0
      && (HasPlaces(target, szDecimals) ==> plan.target == target)
  {
    var goal := QuantizeTowardZero(target, szDecimals);
    RoundDpShifted(szi, szDecimals, TowardZero);
    RoundDpShifted(target, szDecimals, TowardZero);
    TruncationBound(target, szDecimals);
    PlanningSucceeds(szi, goal);
    if HasPlaces(szi, szDecimals) {
      PlacesClosed(goal, szi, szDecimals);
      PlacesClosed(szi, goal, szDecimals);
    }
  }

  /** Flattening ends at exactly zero, in one reduce-only leg of the whole position, or needs none. */
  lemma FlattenPlan(positionSymbol: Symbol, szi: real, symbol: Symbol, szDecimals: nat)
    requires Fits(szi) && Flatten(positionSymbol, szi, symbol, szDecimals).Ok?
    ensures var plan := Flatten(positionSymbol, szi, symbol, szDecimals).value;
      && plan.target == 0.0
      && if szi == 0.0 then plan.phases == []
         else plan.phases == [Phase(Adjust, if szi > 0.0 then Short else Long, Abs(szi), true)]
  {
    PlacesClosed(0.0, 0.0, szDecimals) by {
      ShiftOrder(0.0, 0.0, szDecimals);
    }
    TargetPlan(positionSymbol, szi, symbol, 0.0, szDecimals);
  }

  /**
    A dollar target is planned as the size it buys at the preflight price, cut
    back to the grid; it fails exactly for a price that is not positive, a
    size that does not fit, the wrong symbol or a position off the grid.
  */
  lemma UsdPlan(positionSymbol: Symbol, szi: real, symbol: Symbol, usd: real, price: real, szDecimals: nat)
    requires Fits(szi)
    ensures TargetUsd(positionSymbol, szi, symbol, usd, price, szDecimals).Ok? <==>
      price > 0.0 && Fits(usd / price) && positionSymbol == symbol && HasPlaces(szi, szDecimals)
    ensures price <= 0.0 ==> TargetUsd(positionSymbol, szi, symbol, usd, price, szDecimals) == Err(InvalidPrice)
    ensures price > 0.0 && !Fits(usd / price) ==>
      TargetUsd(positionSymbol, szi, symbol, usd, price, szDecimals) == Err(PlanOverflow)
    ensures TargetUsd(positionSymbol, szi, symbol, usd, price, szDecimals).Ok? ==>
      var plan := TargetUsd(positionSymbol, szi, symbol, usd, price, szDecimals).value;
      && WellPlanned(szi, plan.phases, plan.target)
      && IsBetweenFrozenEndpoints(plan.target, 0.0, usd / price)
      && Shift(Abs(usd / price - plan.target), szDecimals) < 1.0
  {
    if price > 0.0 && Fits(usd / price) {
      TargetPlan(positionSymbol, szi, symbol, usd / price, szDecimals);
    }
  }
}
