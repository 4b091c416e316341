/**
  Executing a position plan: partial fills of the active phase, the step from
  closing to opening, and restarts that plan again from where the position is.
*/
module PositionRun {
  import opened Decimals
  import opened Position

  /** Between fills: which phase is active, how much of it is filled, and what was traded in all. */
  datatype State = State(start: real, phases: seq<Phase>, active: nat, filled: real, position: real, traded: real)

  datatype Event = Fill(size: real) | NextPhase | Restart

  function Begin(position: real, target: real): State
    requires PhasesFor(position, target).Ok?
  {
    State(position, PhasesFor(position, target).value, 0, 0.0, position, 0.0)
  }

  /**
    A phase is never filled past its size; the open phase starts only after a
    fresh reading of the position is exactly zero.
  */
  predicate Enabled(st: State, target: real, e: Event) {
    match e
    case Fill(size) => st.active < |st.phases| && size >= 0.0 && st.filled + size <= st.phases[st.active].size
    case NextPhase => st.active + 1 < |st.phases| && st.position == 0.0
    case Restart => PhasesFor(st.position, target).Ok?
  }

  function Next(st: State, target: real, e: Event): State
    requires Enabled(st, target, e)
  {
    match e
    case Fill(size) =>
      st.(filled := st.filled + size,
          position := Move(st.position, st.phases[st.active].side, size),
          traded := st.traded + size)
    case NextPhase => st.(active := st.active + 1, filled := 0.0)
    case Restart => Begin(st.position, target).(traded := st.traded)
  }

  predicate IsRun(initial: real, target: real, events: seq<Event>)
    requires PhasesFor(initial, target).Ok?
    decreases |events|, 0
  {
    events == [] ||
    (IsRun(initial, target, events[..|events| - 1]) &&
     Enabled(After(initial, target, events[..|events| - 1]), target, events[|events| - 1]))
  }

  function After(initial: real, target: real, events: seq<Event>): State
    requires PhasesFor(initial, target).Ok? && IsRun(initial, target, events)
    decreases |events|, 1
  {
    if events == [] then Begin(initial, target)
    else Next(After(initial, target, events[..|events| - 1]), target, events[|events| - 1])
  }

  // ---- what every state keeps ----

  function PhaseStart(st: State): real
    requires st.active < |st.phases|
  {
    Reach(st.start, st.phases, st.active)
  }

  ghost predicate Sound(st: State, initial: real, target: real) {
    && WellPlanned(st.start, st.phases, target)
    && IsBetweenFrozenEndpoints(st.start, initial, target)
    && st.position == Move(initial, Toward(initial, target), st.traded) && st.traded >= 0.0
    && (st.phases == [] ==> st.position == target && st.start == target)
    && (st.phases != [] ==>
          && st.active < |st.phases| && 0.0 <= st.filled <= st.phases[st.active].size
          && st.position == Move(PhaseStart(st), st.phases[st.active].side, st.filled))
  }

  lemma LegsStayBetween(st: State, initial: real, target: real)
    requires Sound(st, initial, target)
    ensures IsBetweenFrozenEndpoints(st.position, initial, target)
    ensures st.phases != [] ==> st.phases[st.active].side == Toward(initial, target)
    ensures st.phases != [] && st.active + 1 == |st.phases| && st.filled == st.phases[st.active].size ==>
      st.position == target
  {
    if st.phases != [] {
      AtMostTwoLegs(st.start, st.phases, target);
      assert GoodLeg(PhaseStart(st), st.phases[st.active], Toward(st.start, target));
      if |st.phases| == 1 {
        OneLeg(st.start, st.phases);
      } else {
        TwoLegs(st.start, st.phases);
        assert GoodLeg(st.start, st.phases[0], Toward(st.start, target));
        assert GoodLeg(Reach(st.start, st.phases, 1), st.phases[1], Toward(st.start, target));
      }
    }
  }

  lemma StepSound(st: State, initial: real, target: real, e: Event)
    requires Fits(initial) && Fits(target) && Sound(st, initial, target) && Enabled(st, target, e)
    ensures Sound(Next(st, target, e), initial, target)
  {
    LegsStayBetween(st, initial, target);
    match e
    case Fill(_) =>
    case NextPhase =>
      assert Reach(st.start, st.phases, st.active + 1) == 0.0;
      assert GoodLeg(Reach(st.start, st.phases, st.active + 1), st.phases[st.active + 1], Toward(st.start, target));
    case Restart =>
      BeginSound(st.position, target);
  }

  lemma BeginSound(position: real, target: real)
    requires Fits(position) && Fits(target)
    ensures PhasesFor(position, target).Ok?
    ensures var st := Begin(position, target);
      && WellPlanned(position, st.phases, target)
      && (st.phases == [] ==> position == target)
      && (st.phases != [] ==> st.phases[0].size > 0.0 && PhaseStart(st) == position)
  {
    PlanningSucceeds(position, target);
    var st := Begin(position, target);
    if st.phases != [] {
      assert GoodLeg(Reach(position, st.phases, 0), st.phases[0], Toward(position, target));
    }
  }

  lemma {:induction false} RunSound(initial: real, target: real, events: seq<Event>)
    requires Fits(initial) && Fits(target) && PhasesFor(initial, target).Ok? && IsRun(initial, target, events)
    ensures Sound(After(initial, target, events), initial, target)
  {
    if events == [] {
      BeginSound(initial, target);
    } else {
      RunSound(initial, target, events[..|events| - 1]);
      StepSound(After(initial, target, events[..|events| - 1]), initial, target, events[|events| - 1]);
    }
  }

  /**
    Whatever the fills and however often it restarts: the position stays
    between the frozen endpoints, what was traded is exactly the way from the
    initial position, and planning again asks for exactly the rest.  A full
    last phase ends on the target, and it is always possible to plan again.
  */
  lemma RunStaysBetween(initial: real, target: real, events: seq<Event>)
    requires Fits(initial) && Fits(target) && PhasesFor(initial, target).Ok? && IsRun(initial, target, events)
    ensures var st := After(initial, target, events);
      && IsBetweenFrozenEndpoints(st.position, initial, target)
      && st.traded == Abs(st.position - initial)
      && Enabled(st, target, Restart)
      && st.traded + SizeOf(Next(st, target, Restart).phases) == SizeOf(Begin(initial, target).phases)
      && (st.active + 1 == |st.phases| && st.filled == st.phases[st.active].size ==> st.position == target)
  {
    var st := After(initial, target, events);
    RunSound(initial, target, events);
    LegsStayBetween(st, initial, target);
    PlanCoversTheDistance(initial, target);
    PlanCoversTheDistance(st.position, target);
  }

  predicate SameSign(x: real, y: real) {
    DecimalSign(x) == 0 || DecimalSign(x) == DecimalSign(y)
  }

  /**
    A reduce-only phase only ever shrinks the position it started from and
    never flips it; the opening phase starts at exactly zero; no fill in any
    phase carries the position across zero.
  */
  lemma PhasesKeepTheirPromise(initial: real, target: real, events: seq<Event>, fill: real)
    requires Fits(initial) && Fits(target) && PhasesFor(initial, target).Ok? && IsRun(initial, target, events)
    requires Enabled(After(initial, target, events), target, Fill(fill))
    ensures var st := After(initial, target, events);
      var phase, from, to := st.phases[st.active], st.position, Next(st, target, Fill(fill)).position;
      && (phase.reduceOnly ==>
            Abs(to) <= Abs(from) <= Abs(PhaseStart(st)) && SameSign(to, from) && SameSign(from, PhaseStart(st)))
      && (!phase.reduceOnly ==> Abs(from) <= Abs(to))
      && (phase.kind.OpenFromFlat? ==> PhaseStart(st) == 0.0)
      && !(from < 0.0 < to) && !(to < 0.0 < from)
  {
    var st := After(initial, target, events);
    RunSound(initial, target, events);
    StepSound(st, initial, target, Fill(fill));
    assert GoodLeg(PhaseStart(st), st.phases[st.active], Toward(st.start, target));
  }
}
