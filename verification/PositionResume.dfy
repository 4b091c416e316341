/**
  Resuming a position run: the position the journal implies, and planning the
  rest of the way from it.
*/
module PositionResume {
  import opened Wrappers
  import opened Decimals
  import opened Types
  import opened JournalRecords
  import opened Replay
  import opened ReplayTheory
  import Position

  datatype ResumeError =
    | LacksIntent(cloid: Cloid)
    | MovesAway(cloid: Cloid)
    | InvalidFillText(cloid: Cloid)
    | CannotReconstruct
    | BeyondTarget

  type Entry = (Cloid, CloidState)

  function ExpectedSide(frozen: Position.Plan): Option<Side> {
    if frozen.target > frozen.current then Some(Long)
    else if frozen.target < frozen.current then Some(Short)
    else None
  }

  /** The position after one more cloid. */
  function Apply(
    expected: real, entry: Entry, prepared: map<Cloid, Intent>, frozen: Position.Plan): Result<real, ResumeError> {
    var (c, state) := entry;
    if !state.Closed? then Ok(expected)
    else if c !in prepared then Err(LacksIntent(c))
    else
      var side := prepared[c].side;
      if ExpectedSide(frozen).Some? && side != ExpectedSide(frozen).value then Err(MovesAway(c))
      else if Parse(state.filledSz).None? then Err(InvalidFillText(c))
      else
        match Position.ApplySignedFill(expected, side, state.filledSz.value)
        case Err(_) => Err(CannotReconstruct)
        case Ok(next) =>
          if Position.IsBetweenFrozenEndpoints(next, frozen.current, frozen.target) then Ok(next) else Err(BeyondTarget)
  }

  function Expected(
    cloids: seq<Entry>, prepared: map<Cloid, Intent>, frozen: Position.Plan): Result<real, ResumeError> {
    if cloids == [] then
      Ok(frozen.current)
    else
      var sofar :- Expected(cloids[..|cloids| - 1], prepared, frozen);
      Apply(sofar, cloids[|cloids| - 1], prepared, frozen)
  }

  lemma {:induction false} FirstErrorStays(
    cloids: seq<Entry>, prepared: map<Cloid, Intent>, frozen: Position.Plan, n: nat)
    requires n <= |cloids| && Expected(cloids[..n], prepared, frozen).Err?
    ensures Expected(cloids, prepared, frozen) == Expected(cloids[..n], prepared, frozen)
  {
    if n == |cloids| {
      assert cloids[..n] == cloids;
    } else {
      var init := cloids[..|cloids| - 1];
      assert init[..n] == cloids[..n];
      FirstErrorStays(init, prepared, frozen, n);
    }
  }

  method ExpectedPositionFromReplay(
    replay: ValidatedReplay, frozen: Position.Plan) returns (r: Result<real, ResumeError>)
    ensures r == Expected(replay.summary.cloids, replay.prepared, frozen)
  {
    var cloids, prepared := replay.summary.cloids, replay.prepared;
    var side := ExpectedSide(frozen);
    var expected := frozen.current;
    for i := 0 to |cloids|
      invariant Expected(cloids[..i], prepared, frozen) == Ok(expected)
    {
      assert cloids[..i + 1][..i] == cloids[..i];
      if Expected(cloids[..i + 1], prepared, frozen).Err? {
        FirstErrorStays(cloids, prepared, frozen, i + 1);
      }
      var (c, state) := cloids[i];
      if !state.Closed? {
        continue;
      }
      if c !in prepared {
        return Err(LacksIntent(c));
      }
      if side.Some? && prepared[c].side != side.value {
        return Err(MovesAway(c));
      }
      if Parse(state.filledSz).None? {
        return Err(InvalidFillText(c));
      }
      var next := Position.ApplySignedFill(expected, prepared[c].side, state.filledSz.value);
      if next.Err? {
        return Err(CannotReconstruct);
      }
      expected := next.value;
      if !Position.IsBetweenFrozenEndpoints(expected, frozen.current, frozen.target) {
        return Err(BeyondTarget);
      }
    }
    assert cloids[..|cloids|] == cloids;
    r := Ok(expected);
  }

  // ---- what a success means ----

  /** Every closed cloid was prepared, and its fill reads. */
  ghost predicate FillsRead(cloids: seq<Entry>, prepared: map<Cloid, Intent>) {
    forall i :: 0 <= i < |cloids| && cloids[i].1.Closed? ==>
      cloids[i].0 in prepared && Parse(cloids[i].1.filledSz).Some? && cloids[i].1.filledSz.value >= 0.0
  }

  lemma AcceptedFillsRead(records: seq<JournalRecord>)
    requires ReplayJournal(records).Ok?
    ensures FillsRead(ReplayJournal(records).value.summary.cloids, ReplayJournal(records).value.prepared)
  {
    var st := Fold(records).value;
    FoldConsistent(records);
    var cloids := CloidStates(st.order, st.states);
    forall i | 0 <= i < |cloids| && cloids[i].1.Closed?
      ensures cloids[i].0 in st.prepared && Parse(cloids[i].1.filledSz).Some? && cloids[i].1.filledSz.value >= 0.0
    {
      var c := st.order[i];
      assert IsClosed(st.states, c) && CreditedFor(c, st.prepared[c], st.states[c], st.fills[c]);
      CreditConsistent(c, LimitOf(st.prepared[c]), st.states[c].filledSz, st.states[c].avgPx);
    }
  }

  /** No closed cloid trades away from the target. */
  ghost predicate SidesAgree(cloids: seq<Entry>, prepared: map<Cloid, Intent>, frozen: Position.Plan) {
    forall i :: 0 <= i < |cloids| && cloids[i].1.Closed? && cloids[i].0 in prepared && ExpectedSide(frozen).Some? ==>
      prepared[cloids[i].0].side == ExpectedSide(frozen).value
  }

  lemma {:induction false} FilledNonNegative(cloids: seq<Entry>, prepared: map<Cloid, Intent>)
    requires FillsRead(cloids, prepared)
    ensures FilledOf(cloids) >= 0.0
  {
    if cloids != [] {
      FilledNonNegative(cloids[..|cloids| - 1], prepared);
    }
  }

  /**
    The reconstruction succeeds exactly when every fill goes the frozen way
    and together they do not pass the frozen target; it then is the initial
    position moved that way by the filled size, whatever the order of the fills.
  */
  lemma {:induction false} ExpectedExactly(cloids: seq<Entry>, prepared: map<Cloid, Intent>, frozen: Position.Plan)
    requires FillsRead(cloids, prepared) && Fits(frozen.current) && Fits(frozen.target)
    ensures Expected(cloids, prepared, frozen).Ok? <==>
      SidesAgree(cloids, prepared, frozen) && FilledOf(cloids) <= Abs(frozen.target - frozen.current)
    ensures Expected(cloids, prepared, frozen).Ok? ==>
      Expected(cloids, prepared, frozen).value ==
      Position.Move(frozen.current, Position.Toward(frozen.current, frozen.target), FilledOf(cloids))
  {
    if cloids != [] {
      var init, last := cloids[..|cloids| - 1], cloids[|cloids| - 1];
      ExpectedExactly(init, prepared, frozen);
      FilledNonNegative(init, prepared);
      assert SidesAgree(cloids, prepared, frozen) <==>
        SidesAgree(init, prepared, frozen) &&
        (last.1.Closed? && last.0 in prepared && ExpectedSide(frozen).Some? ==>
          prepared[last.0].side == ExpectedSide(frozen).value);
    }
  }

  /** A failed reconstruction has found a fill the wrong way, or fills that pass the target. */
  lemma {:induction false} ExpectedRefusal(cloids: seq<Entry>, prepared: map<Cloid, Intent>, frozen: Position.Plan)
    requires FillsRead(cloids, prepared) && Fits(frozen.current) && Fits(frozen.target)
    requires Expected(cloids, prepared, frozen).Err?
    ensures match Expected(cloids, prepared, frozen).error
      case MovesAway(c) =>
        exists i :: 0 <= i < |cloids| && cloids[i].0 == c && cloids[i].1.Closed? && c in prepared &&
                    frozen.target != frozen.current &&
                    prepared[c].side == if frozen.target > frozen.current then Short else Long
      case LacksIntent(_) => false
      case InvalidFillText(_) => false
      case _ => FilledOf(cloids) > Abs(frozen.target - frozen.current)
  {
    if cloids != [] {
      var init := cloids[..|cloids| - 1];
      FilledNonNegative(init, prepared);
      if Expected(init, prepared, frozen).Err? {
        ExpectedRefusal(init, prepared, frozen);
        var e := Expected(init, prepared, frozen).error;
        if e.MovesAway? {
          var i :| 0 <= i < |init| && init[i].0 == e.cloid && init[i].1.Closed? && e.cloid in prepared &&
            prepared[e.cloid].side == if frozen.target > frozen.current then Short else Long;
          assert cloids[i] == init[i];
        }
      } else {
        ExpectedExactly(init, prepared, frozen);
        assert cloids[|cloids| - 1].0 == cloids[|cloids| - 1].0;
      }
    }
  }

  /** On an accepted journal the filled size is the replay's own total. */
  lemma ExpectedFromAccepted(records: seq<JournalRecord>, frozen: Position.Plan)
    requires ReplayJournal(records).Ok? && Fits(frozen.current) && Fits(frozen.target)
    ensures var r := ReplayJournal(records).value;
      var expected := Expected(r.summary.cloids, r.prepared, frozen);
      && (expected.Ok? <==>
            SidesAgree(r.summary.cloids, r.prepared, frozen) &&
            r.totals.filledSz <= Abs(frozen.target - frozen.current))
      && (expected.Ok? ==>
            expected.value ==
            Position.Move(frozen.current, Position.Toward(frozen.current, frozen.target), r.totals.filledSz))
      && r.totals.filledSz >= 0.0
  {
    var r := ReplayJournal(records).value;
    AcceptedFillsRead(records);
    TwoComputationsAgree(records);
    ExpectedExactly(r.summary.cloids, r.prepared, frozen);
    FilledNonNegative(r.summary.cloids, r.prepared);
  }

  /** A plan as the planner freezes it for an asset. */
  ghost predicate IsFrozenPlan(frozen: Position.Plan, szDecimals: nat) {
    && Fits(frozen.current) && Fits(frozen.target)
    && HasPlaces(frozen.current, szDecimals) && HasPlaces(frozen.target, szDecimals)
    && Position.PhasesFor(frozen.current, frozen.target) == Ok(frozen.phases)
  }

  /** Planning the rest of the way after `filled` of it. */
  lemma RestOfThePlan(frozen: Position.Plan, szDecimals: nat, filled: real)
    requires IsFrozenPlan(frozen, szDecimals) && 0.0 <= filled <= Abs(frozen.target - frozen.current)
    ensures var side := Position.Toward(frozen.current, frozen.target);
      var position := Position.Move(frozen.current, side, filled);
      var rest := Position.PhasesFor(position, frozen.target);
      && rest.Ok?
      && (forall i :: 0 <= i < |rest.value| ==> rest.value[i].side == side)
      && Position.SizeOf(rest.value) == Position.SizeOf(frozen.phases) - filled
      && (Position.CrossesZero(rest.value) <==> Position.CrossesZero(frozen.phases) && filled < frozen.phases[0].size)
      && (rest.value == [] <==> filled == Position.SizeOf(frozen.phases))
  {
    var side := Position.Toward(frozen.current, frozen.target);
    var position := Position.Move(frozen.current, side, filled);
    Position.PlanCoversTheDistance(frozen.current, frozen.target);
    Position.PlanCoversTheDistance(position, frozen.target);
  }

  /**
    Planning again from `position` succeeds exactly on the size grid; the new
    phases go the frozen way, ask for what the frozen plan asked less what was
    filled, and close then open exactly when the frozen plan did and flat is
    not yet reached.
  */
  ghost predicate Replans(frozen: Position.Plan, position: real, filled: real, szDecimals: nat) {
    var plan := Position.TargetSize(frozen.symbol, position, frozen.symbol, frozen.target, szDecimals);
    && (plan.Ok? <==> HasPlaces(position, szDecimals))
    && (plan.Ok? ==>
          && plan.value.target == frozen.target
          && (forall i :: 0 <= i < |plan.value.phases| ==>
                plan.value.phases[i].side == Position.Toward(frozen.current, frozen.target))
          && Position.SizeOf(plan.value.phases) == Position.SizeOf(frozen.phases) - filled
          && (Position.CrossesZero(plan.value.phases) <==>
                Position.CrossesZero(frozen.phases) && filled < frozen.phases[0].size)
          && (plan.value.phases == [] <==> filled == Position.SizeOf(frozen.phases)))
  }

  lemma ReplansTheRest(frozen: Position.Plan, szDecimals: nat, filled: real)
    requires IsFrozenPlan(frozen, szDecimals) && 0.0 <= filled <= Abs(frozen.target - frozen.current)
    ensures Replans(
      frozen, Position.Move(frozen.current, Position.Toward(frozen.current, frozen.target), filled), filled, szDecimals)
  {
    var position := Position.Move(frozen.current, Position.Toward(frozen.current, frozen.target), filled);
    RestOfThePlan(frozen, szDecimals, filled);
    Position.TargetPlan(frozen.symbol, position, frozen.symbol, frozen.target, szDecimals);
  }

  /** Resume conserves the frozen plan, from the position an accepted journal implies. */
  lemma ResumeConservesThePlan(records: seq<JournalRecord>, frozen: Position.Plan, szDecimals: nat)
    requires ReplayJournal(records).Ok? && IsFrozenPlan(frozen, szDecimals)
    requires Expected(ReplayJournal(records).value.summary.cloids, ReplayJournal(records).value.prepared, frozen).Ok?
    ensures var r := ReplayJournal(records).value;
      Replans(frozen, Expected(r.summary.cloids, r.prepared, frozen).value, r.totals.filledSz, szDecimals)
  {
    ExpectedFromAccepted(records, frozen);
    ReplansTheRest(frozen, szDecimals, ReplayJournal(records).value.totals.filledSz);
  }
}
