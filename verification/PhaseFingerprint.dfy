/**
  The planner's phases as the fingerprint writes them, against the header
  check that reads them back without the planner.
*/
module PhaseFingerprint {
  import opened Wrappers
  import opened Decimals
  import opened JournalRecords
  import opened FingerprintCheck
  import Replay
  import Position

  function KindText(kind: Position.PhaseKind): string {
    match kind
    case Adjust => "adjust"
    case CloseToFlat => "close_to_flat"
    case OpenFromFlat => "open_from_flat"
  }

  /** The size is written in its canonical spelling. */
  predicate IsTextOf(text: PhaseText, phase: Position.Phase) {
    && text.kind == KindText(phase.kind) && text.side == SideText(phase.side) && text.reduceOnly == phase.reduceOnly
    && IsCanonical(text.size) && text.size.value == phase.size
  }

  predicate Written(texts: seq<PhaseText>, phases: seq<Position.Phase>) {
    |texts| == |phases| && forall i :: 0 <= i < |texts| ==> IsTextOf(texts[i], phases[i])
  }

  predicate IsEndpoint(t: Text) {
    Parse(t).Some? && IsCanonical(t)
  }

  /** The part of the header check that looks at the phases alone. */
  predicate PhasesAccepted(texts: seq<PhaseText>, initial: Text, target: Text)
    requires initial.Numeral? && target.Numeral?
  {
    && CheckPhaseTexts(texts).Ok?
    && (initial.value != target.value ==> texts != [])
    && (texts == [] || (|texts| == 1 && IsAdjustFor(texts[0], initial, target)) ||
        (|texts| == 2 && IsReversalFor(texts[0], texts[1], initial, target)))
  }

  /** Side and reduce-only are those of the first phase. */
  predicate FlagsCopied(fp: Fingerprint) {
    if fp.positionPhases == [] then !fp.reduceOnly
    else fp.reduceOnly == fp.positionPhases[0].reduceOnly && fp.side == fp.positionPhases[0].side
  }

  lemma PhaseCheckSplits(fp: Fingerprint, initial: Text, target: Text)
    requires initial.Numeral? && target.Numeral? && FlagsCopied(fp)
    ensures CheckPhaseTexts(fp.positionPhases).Ok? && CheckPhases(fp, initial, target).Ok? <==>
      PhasesAccepted(fp.positionPhases, initial, target)
  {
  }

  /** The difference of the endpoints keeps its last printed digit: it does not cancel to zero. */
  predicate LastDigitStays(initial: Text, target: Text)
    requires initial.Numeral? && target.Numeral?
  {
    var scale := Max(target.scale, initial.scale);
    scale == 0 || !HasPlaces(target.value - initial.value, scale - 1)
  }

  predicate OppositeSides(initial: Text, target: Text)
    requires initial.Numeral? && target.Numeral?
  {
    initial.value < 0.0 < target.value || target.value < 0.0 < initial.value
  }

  lemma DifferencePlaces(initial: Text, target: Text)
    requires IsEndpoint(initial) && IsEndpoint(target)
    ensures HasPlaces(target.value - initial.value, Max(target.scale, initial.scale))
    ensures HasPlaces(Abs(target.value - initial.value), Max(target.scale, initial.scale))
  {
    var scale := Max(target.scale, initial.scale);
    PlacesMonotone(initial.value, initial.scale, scale);
    PlacesMonotone(target.value, target.scale, scale);
    PlacesClosed(target.value, initial.value, scale);
    PlacesClosed(initial.value, target.value, scale);
  }

  lemma AbsPlaces(x: real, k: nat)
    ensures HasPlaces(Abs(x), k) <==> HasPlaces(x, k)
  {
    if HasPlaces(x, k) {
      PlacesClosed(x, x, k);
    }
    if HasPlaces(-x, k) {
      PlacesClosed(-x, -x, k);
    }
  }

  /** The difference prints canonically exactly when its last digit stays. */
  lemma DifferenceIsCanonical(initial: Text, target: Text)
    requires IsEndpoint(initial) && IsEndpoint(target)
    ensures IsCanonical(Show(Abs(target.value - initial.value), Max(target.scale, initial.scale))) <==>
      LastDigitStays(initial, target)
  {
    var scale := Max(target.scale, initial.scale);
    DifferencePlaces(initial, target);
    if scale > 0 {
      AbsPlaces(target.value - initial.value, scale - 1);
    }
  }

  lemma EndpointAbs(t: Text)
    requires IsEndpoint(t)
    ensures IsCanonical(Show(Abs(t.value), t.scale))
  {
    AbsPlaces(t.value, t.scale);
    if t.scale > 0 {
      AbsPlaces(t.value, t.scale - 1);
    }
  }

  lemma OneText(text: PhaseText)
    ensures CheckPhaseTexts([text]).Ok? <==>
      text.kind in ["adjust", "close_to_flat", "open_from_flat"] && text.side in ["long", "short"] &&
      PositiveDecimal("position_phases.size", text.size).Ok?
  {
    assert CheckPhaseTexts([text][1..]).Ok?;
  }

  lemma TwoTexts(first: PhaseText, second: PhaseText)
    ensures CheckPhaseTexts([first, second]).Ok? <==> CheckPhaseTexts([first]).Ok? && CheckPhaseTexts([second]).Ok?
  {
    assert [first, second][1..] == [second];
    OneText(first);
  }

  /** A single phase is accepted exactly when it is the whole signed difference and that prints canonically. */
  lemma OnePhaseExactly(text: PhaseText, initial: Text, target: Text)
    requires IsEndpoint(initial) && IsEndpoint(target)
    ensures PhasesAccepted([text], initial, target) <==>
      && LastDigitStays(initial, target) && Fits(target.value - initial.value) && initial.value != target.value
      && IsTextOf(text, Position.Phase(
           Position.Adjust, Position.Toward(initial.value, target.value), Abs(target.value - initial.value),
           initial.value != 0.0 &&
           (target.value == 0.0 ||
            (Sign(initial.value) == Sign(target.value) && Abs(target.value) < Abs(initial.value)))))
  {
    OneText(text);
    DifferenceIsCanonical(initial, target);
    var shown := Show(Abs(target.value - initial.value), Max(target.scale, initial.scale));
    if IsCanonical(shown) && IsCanonical(text.size) && text.size.value == shown.value {
      CanonicalUnique(text.size, shown);
    }
  }

  /** A size is spelt as the endpoint is exactly when it is a canonical spelling of its magnitude. */
  lemma LegSpelling(size: Text, endpoint: Text)
    requires IsEndpoint(endpoint)
    ensures size == Show(Abs(endpoint.value), endpoint.scale) <==>
      IsCanonical(size) && size.value == Abs(endpoint.value)
  {
    EndpointAbs(endpoint);
    var shown := Show(Abs(endpoint.value), endpoint.scale);
    if IsCanonical(size) && size.value == shown.value {
      CanonicalUnique(size, shown);
    }
  }

  lemma TwoPhasesExactly(close: PhaseText, open: PhaseText, initial: Text, target: Text)
    requires IsEndpoint(initial) && IsEndpoint(target)
    ensures PhasesAccepted([close, open], initial, target) <==>
      && OppositeSides(initial, target)
      && IsTextOf(close, Position.Phase(Position.CloseToFlat, Position.Toward(initial.value, target.value),
           Abs(initial.value), true))
      && IsTextOf(open, Position.Phase(Position.OpenFromFlat, Position.Toward(initial.value, target.value),
           Abs(target.value), false))
  {
    TwoTexts(close, open);
    OneText(close);
    OneText(open);
    LegSpelling(close.size, initial);
    LegSpelling(open.size, target);
  }

  lemma TwoWritten(texts: seq<PhaseText>, initial: Text, target: Text)
    requires IsEndpoint(initial) && IsEndpoint(target) && |texts| == 2
    ensures var plan := Position.PhasesFor(initial.value, target.value);
      PhasesAccepted(texts, initial, target) <==> plan.Ok? && Written(texts, plan.value)
  {
    assert texts == [texts[0], texts[1]];
    TwoPhasesExactly(texts[0], texts[1], initial, target);
  }

  /** One adjustment straight through zero. */
  predicate IsCrossingAdjust(text: PhaseText, initial: Text, target: Text)
    requires initial.Numeral? && target.Numeral?
  {
    var delta := target.value - initial.value;
    OppositeSides(initial, target) && LastDigitStays(initial, target) && Fits(delta) &&
    IsTextOf(text, Position.Phase(Position.Adjust, Position.Toward(initial.value, target.value), Abs(delta), false))
  }

  /**
    Exactly which phase sequences the header check accepts: the planner's own
    phases, unless they are a single one whose size loses its last digit in
    the subtraction; and, where the endpoints lie on opposite sides, also a
    single crossing adjustment that the planner never makes.
  */
  lemma CheckerAcceptsExactly(texts: seq<PhaseText>, initial: Text, target: Text)
    requires IsEndpoint(initial) && IsEndpoint(target)
    ensures var plan := Position.PhasesFor(initial.value, target.value);
      && plan.Ok?
      && (PhasesAccepted(texts, initial, target) <==>
            || (Written(texts, plan.value) && (|texts| == 1 ==> LastDigitStays(initial, target)))
            || (|texts| == 1 && IsCrossingAdjust(texts[0], initial, target)))
  {
    Position.PlanningSucceeds(initial.value, target.value);
    if |texts| == 1 {
      assert texts == [texts[0]];
      OnePhaseExactly(texts[0], initial, target);
    } else if |texts| == 2 {
      TwoWritten(texts, initial, target);
    }
  }

  /**
    The planner's own phases pass the header check if and only if they are
    not a single one whose size loses its last digit in the subtraction.
  */
  lemma PlannerIsAcceptedExactly(texts: seq<PhaseText>, initial: Text, target: Text)
    requires IsEndpoint(initial) && IsEndpoint(target)
    requires Position.PhasesFor(initial.value, target.value).Ok? &&
      Written(texts, Position.PhasesFor(initial.value, target.value).value)
    ensures PhasesAccepted(texts, initial, target) <==>
      initial.value == target.value || OppositeSides(initial, target) || LastDigitStays(initial, target)
  {
    CheckerAcceptsExactly(texts, initial, target);
  }

  /** A position fingerprint whose phases are the planner's, every other field in order. */
  ghost predicate RecordsThePlan(header: RunHeader, fp: Fingerprint) {
    && CheckPlan(header, fp).Ok? && fp.positionMode.Some? && CheckEndpoints(fp, fp.positionMode.value).Ok?
    && FlagsCopied(fp)
    && var plan := Position.PhasesFor(fp.initialPositionSzi.value.value, fp.targetPositionSzi.value.value);
       plan.Ok? && Written(fp.positionPhases, plan.value)
  }

  lemma EndpointsRead(fp: Fingerprint, mode: string)
    requires CheckEndpoints(fp, mode).Ok?
    ensures fp.initialPositionSzi.Some? && fp.targetPositionSzi.Some?
    ensures IsEndpoint(fp.initialPositionSzi.value) && IsEndpoint(fp.targetPositionSzi.value)
  {
  }

  /** With everything else in order, the header check is the check of the phases. */
  lemma PhasesDecide(header: RunHeader, fp: Fingerprint)
    requires CheckPlan(header, fp).Ok? && fp.positionMode.Some? && CheckEndpoints(fp, fp.positionMode.value).Ok?
    requires FlagsCopied(fp)
    ensures fp.initialPositionSzi.Some? && fp.initialPositionSzi.value.Numeral?
    ensures fp.targetPositionSzi.Some? && fp.targetPositionSzi.value.Numeral?
    ensures CheckFingerprint(header, fp).Ok? <==>
      PhasesAccepted(fp.positionPhases, fp.initialPositionSzi.value, fp.targetPositionSzi.value)
  {
    EndpointsRead(fp, fp.positionMode.value);
    PhaseCheckSplits(fp, fp.initialPositionSzi.value, fp.targetPositionSzi.value);
  }

  lemma PlanSizesRead(header: RunHeader, fp: Fingerprint)
    requires CheckPlan(header, fp).Ok?
    ensures Parse(fp.maxNotionalUsd).Some? && fp.maxNotionalUsd.value > 0.0
  {
  }

  /**
    A run's own header is accepted, and its journal with it, if and only if
    the planned position is not moved in a single phase whose size loses its
    last digit in the subtraction.
  */
  lemma OwnHeaderIsAcceptedExactly(header: RunHeader, fp: Fingerprint)
    requires RecordsThePlan(header, fp)
    requires header.fingerprint == Some(fp) && fp.version == FINGERPRINT_VERSION
    ensures var initial, target := fp.initialPositionSzi.value, fp.targetPositionSzi.value;
      && IsEndpoint(initial) && IsEndpoint(target)
      && (CheckFingerprint(header, fp).Ok? <==>
            initial.value == target.value || OppositeSides(initial, target) || LastDigitStays(initial, target))
      && (CheckFingerprint(header, fp).Ok? <==> Replay.ReplayJournal([Header(header)]).Ok?)
  {
    var initial, target := fp.initialPositionSzi.value, fp.targetPositionSzi.value;
    EndpointsRead(fp, fp.positionMode.value);
    PhasesDecide(header, fp);
    PlannerIsAcceptedExactly(fp.positionPhases, initial, target);
    PlanSizesRead(header, fp);
    HeaderDecidesJournal(header);
  }

  lemma HeaderDecidesJournal(header: RunHeader)
    requires header.fingerprint.Some? && header.fingerprint.value.version == FINGERPRINT_VERSION
    requires Parse(header.fingerprint.value.maxNotionalUsd).Some? && header.fingerprint.value.maxNotionalUsd.value > 0.0
    ensures Replay.ReplayJournal([Header(header)]).Ok? <==> CheckFingerprint(header, header.fingerprint.value).Ok?
  {
    var records := [Header(header)];
    assert records[..0] == [];
    assert Replay.Fold(records) == Replay.Step(Replay.INITIAL, records[0]);
    assert Replay.TotalsOf([], map[]).Ok?;
  }

  lemma ShrinkingByOne(texts: seq<PhaseText>)
    requires texts == [PhaseText("adjust", "short", Numeral(1.0, 0), true)]
    ensures Position.PhasesFor(1.5, 0.5).Ok? && Written(texts, Position.PhasesFor(1.5, 0.5).value)
    ensures IsEndpoint(Numeral(1.5, 1)) && IsEndpoint(Numeral(0.5, 1)) &&
      !LastDigitStays(Numeral(1.5, 1), Numeral(0.5, 1))
  {
    assert Shift(1.5, 1) == 15.0 && Shift(0.5, 1) == 5.0 && Shift(1.0, 0) == 1.0 && Shift(1.5, 0) == 1.5 &&
      Shift(0.5, 0) == 0.5;
    assert Shift(0.5 - 1.5, 0) == -1.0;
  }

  lemma PhaseRefusalRefusesHeader(header: RunHeader, fp: Fingerprint)
    requires fp.positionMode.Some? && fp.initialPositionSzi.Some? && fp.targetPositionSzi.Some?
    requires IsEndpoint(fp.initialPositionSzi.value) && IsEndpoint(fp.targetPositionSzi.value)
    requires !PhasesAccepted(fp.positionPhases, fp.initialPositionSzi.value, fp.targetPositionSzi.value)
    ensures CheckPosition(fp, fp.positionMode.value).Err? && CheckFingerprint(header, fp).Err?
  {
  }

  lemma RefusedHeaderRefusesJournal(header: RunHeader)
    requires header.fingerprint.Some? && header.fingerprint.value.version == FINGERPRINT_VERSION
    requires CheckFingerprint(header, header.fingerprint.value).Err?
    ensures Replay.ReplayJournal([Header(header)]).Err?
  {
    assert [Header(header)][..0] == [];
    assert Replay.Fold([Header(header)]) == Replay.Step(Replay.INITIAL, Header(header));
  }

  /**
    Cutting a position from 1.5 to 0.5 is planned as one phase of size "1";
    the check expects the difference as it prints, "1.0", and refuses it, and
    with it every current-version journal whose header records the plan.
  */
  lemma ShrinkingByOneIsRefused(header: RunHeader, fp: Fingerprint)
    requires fp.initialPositionSzi == Some(Numeral(1.5, 1)) && fp.targetPositionSzi == Some(Numeral(0.5, 1))
    requires fp.positionPhases == [PhaseText("adjust", "short", Numeral(1.0, 0), true)]
    requires fp.positionMode.Some? && fp.version == FINGERPRINT_VERSION && header.fingerprint == Some(fp)
    ensures Position.PhasesFor(1.5, 0.5).Ok? && Written(fp.positionPhases, Position.PhasesFor(1.5, 0.5).value)
    ensures Replay.ReplayJournal([Header(header)]).Err?
  {
    ShrinkingByOne(fp.positionPhases);
    PlannerIsAcceptedExactly(fp.positionPhases, Numeral(1.5, 1), Numeral(0.5, 1));
    PhaseRefusalRefusesHeader(header, fp);
    RefusedHeaderRefusesJournal(header);
  }
}
