/** What a resumed ordinary run still has to do, over any number of crashes and resumes. */
module Continuation {
  import opened JournalRecords
  import opened Replay
  import opened ReplayTheory
  import opened Sizing

  const U32_MAX: nat := 0xFFFF_FFFF

  datatype Outcome =
    | Satisfied
    | BelowMinimum(remaining: real)
    | Continue(plan: TwapPlan)

  /** `n` slices are enough for the remainder, and one fewer is not. */
  predicate JustEnough(remaining: real, perSlice: real, n: nat) {
    n > 0 && Times(perSlice, n - 1) < remaining <= Times(perSlice, n)
  }

  /** No 32-bit number of slices is short of the remainder. */
  predicate Countable(remaining: real, perSlice: real) {
    remaining <= Times(perSlice, U32_MAX)
  }

  /** Slices needed for the remainder, at least one; a count past 32 bits is lost. */
  method ContinuationSlices(remaining: real, perSlice: real) returns (n: nat)
    requires perSlice > 0.0 && remaining > 0.0
    ensures if Countable(remaining, perSlice) then JustEnough(remaining, perSlice, n) else n == 1
  {
    var whole := (remaining / perSlice).Floor;
    FloorBounds(remaining, perSlice, whole);
    var hasRemainder := perSlice * whole as real < remaining;
    TimesIsProduct(perSlice, whole, perSlice * whole as real);
    n := if whole <= U32_MAX then whole else 0;
    n := (n + if hasRemainder then 1 else 0) % (U32_MAX + 1);
    n := if n < 1 then 1 else n;
    CountBounds(remaining, perSlice, whole);
  }

  lemma Quotient(remaining: real, perSlice: real, q: real, n: int, product: real)
    requires perSlice > 0.0 && q == remaining / perSlice && product == perSlice * n as real
    ensures n as real <= q <==> product <= remaining
  {
    assert perSlice * q == remaining;
  }

  lemma FloorBounds(remaining: real, perSlice: real, whole: int)
    requires perSlice > 0.0 && remaining > 0.0 && whole == (remaining / perSlice).Floor
    ensures whole >= 0 && Times(perSlice, whole) <= remaining < Times(perSlice, whole + 1)
  {
    var q := remaining / perSlice;
    Quotient(remaining, perSlice, q, 0, 0.0);
    Quotient(remaining, perSlice, q, whole, perSlice * whole as real);
    Quotient(remaining, perSlice, q, whole + 1, perSlice * (whole + 1) as real);
    TimesIsProduct(perSlice, whole, perSlice * whole as real);
    TimesIsProduct(perSlice, whole + 1, perSlice * (whole + 1) as real);
  }

  lemma CountBounds(remaining: real, perSlice: real, whole: nat)
    requires perSlice > 0.0 && remaining > 0.0 && Times(perSlice, whole) <= remaining < Times(perSlice, whole + 1)
    ensures Countable(remaining, perSlice) <==>
      whole < U32_MAX || (whole == U32_MAX && Times(perSlice, whole) == remaining)
    ensures whole > 0 ==> Times(perSlice, whole - 1) < Times(perSlice, whole)
  {
    if whole < U32_MAX {
      TimesOrder(perSlice, whole + 1, U32_MAX);
    } else {
      TimesOrder(perSlice, U32_MAX, whole);
    }
    if whole > 0 {
      TimesOrder(perSlice, whole - 1, whole);
    }
  }

  /** What a resume decides, given what the journal says is filled. */
  predicate Decides(original: TwapPlan, filled: real, mid: real, outcome: Outcome) {
    var remaining := original.totalAdjusted - filled;
    match outcome
    case Satisfied => remaining <= 0.0
    case BelowMinimum(left) => left == remaining && remaining > 0.0 && WorthAt(left, mid) < 10.0
    case Continue(plan) =>
      && remaining > 0.0 && WorthAt(plan.totalAdjusted, mid) >= 10.0
      && plan == original.(totalAdjusted := remaining, slices := plan.slices)
      && if Countable(remaining, original.perSlice) then JustEnough(remaining, original.perSlice, plan.slices)
           else plan.slices == 1
  }

  method ContinuationPlan(original: TwapPlan, filled: real, mid: real) returns (outcome: Outcome)
    requires original.perSlice > 0.0
    ensures Decides(original, filled, mid, outcome)
  {
    var remaining := original.totalAdjusted - filled;
    if remaining <= 0.0 {
      return Satisfied;
    }
    if WorthAt(remaining, mid) < MIN_NOTIONAL_USD {
      return BelowMinimum(remaining);
    }
    var slices := ContinuationSlices(remaining, original.perSlice);
    outcome := Continue(original.(totalAdjusted := remaining, slices := slices));
  }

  /** The decision is determined. */
  lemma DecisionIsUnique(original: TwapPlan, filled: real, mid: real, a: Outcome, b: Outcome)
    requires original.perSlice > 0.0 && Decides(original, filled, mid, a) && Decides(original, filled, mid, b)
    ensures a == b
  {
    if a.Continue? && Countable(original.totalAdjusted - filled, original.perSlice) {
      NoFewer(a.plan.totalAdjusted, original.perSlice, a.plan.slices, b.plan.slices);
      NoFewer(a.plan.totalAdjusted, original.perSlice, b.plan.slices, a.plan.slices);
    }
  }

  lemma NoFewer(remaining: real, perSlice: real, n: nat, bound: nat)
    requires perSlice > 0.0 && JustEnough(remaining, perSlice, n) && remaining <= Times(perSlice, bound)
    ensures n <= bound
  {
    if bound < n {
      TimesOrder(perSlice, bound, n - 1);
    }
  }

  /** A plan whose slices carry exactly its total, as an ordinary run is sized. */
  ghost predicate IsOrdinaryPlan(plan: TwapPlan) {
    plan.perSlice > 0.0 && 0 < plan.slices <= U32_MAX && plan.totalAdjusted == Times(plan.perSlice, plan.slices)
  }

  lemma OriginalIsASchedule(original: TwapPlan)
    requires IsOrdinaryPlan(original)
    ensures IsSchedule(original)
  {
    TimesOrder(original.perSlice, original.slices - 1, original.slices);
    TimesOrder(original.perSlice, 0, original.slices - 1);
  }

  /** The plan to continue with is itself a schedule, for exactly the remainder, in no more slices than the original. */
  lemma ContinuationIsASchedule(original: TwapPlan, filled: real, mid: real, plan: TwapPlan)
    requires IsOrdinaryPlan(original) && filled >= 0.0 && Decides(original, filled, mid, Continue(plan))
    ensures IsSchedule(plan) && filled + plan.totalAdjusted == original.totalAdjusted &&
      plan.perSlice == original.perSlice
    ensures JustEnough(plan.totalAdjusted, plan.perSlice, plan.slices) && plan.slices <= original.slices
  {
    TimesOrder(original.perSlice, original.slices, U32_MAX);
    NoFewer(plan.totalAdjusted, original.perSlice, plan.slices, original.slices);
  }

  // ---- many lives of one run ----

  /** One process of the run: the plan it executed and the fills of its slices. */
  datatype Life = Life(plan: TwapPlan, fills: seq<real>)

  function FilledIn(lives: seq<Life>): real {
    if lives == [] then 0.0 else FilledIn(lives[..|lives| - 1]) + Total(lives[|lives| - 1].fills)
  }

  /** The first process executes the original plan, each later one what its resume decided, at whatever price. */
  ghost predicate IsHistory(original: TwapPlan, lives: seq<Life>) {
    lives == [] ||
    (var before, last := lives[..|lives| - 1], lives[|lives| - 1];
     && IsHistory(original, before)
     && (if before == [] then last.plan == original
         else exists mid :: Decides(original, FilledIn(before), mid, Continue(last.plan)))
     && IsExecution(last.plan, last.fills))
  }

  lemma LifeFills(original: TwapPlan, lives: seq<Life>)
    requires IsOrdinaryPlan(original) && lives != [] && IsHistory(original, lives) &&
      FilledIn(lives[..|lives| - 1]) >= 0.0
    ensures IsSchedule(lives[|lives| - 1].plan)
    ensures FilledIn(lives[..|lives| - 1]) + lives[|lives| - 1].plan.totalAdjusted == original.totalAdjusted
    ensures 0.0 <= Total(lives[|lives| - 1].fills) <= lives[|lives| - 1].plan.totalAdjusted
  {
    var before, last := lives[..|lives| - 1], lives[|lives| - 1];
    if before == [] {
      OriginalIsASchedule(original);
    } else {
      var mid :| Decides(original, FilledIn(before), mid, Continue(last.plan));
      ContinuationIsASchedule(original, FilledIn(before), mid, last.plan);
    }
    SlicesNeverOvershoot(last.plan, last.fills);
  }

  lemma {:induction false} NeverOverfilled(original: TwapPlan, lives: seq<Life>)
    requires IsOrdinaryPlan(original) && IsHistory(original, lives)
    ensures 0.0 <= FilledIn(lives) <= original.totalAdjusted
  {
    if lives == [] {
      OriginalIsASchedule(original);
    } else {
      NeverOverfilled(original, lives[..|lives| - 1]);
      LifeFills(original, lives);
    }
  }

  lemma {:induction false} FilledGrows(original: TwapPlan, lives: seq<Life>, n: nat)
    requires IsOrdinaryPlan(original) && IsHistory(original, lives) && n <= |lives|
    ensures IsHistory(original, lives[..n]) && FilledIn(lives[..n]) <= FilledIn(lives)
  {
    if n == |lives| {
      assert lives[..n] == lives;
    } else {
      var before := lives[..|lives| - 1];
      FilledGrows(original, before, n);
      assert before[..n] == lives[..n];
      NeverOverfilled(original, before);
      LifeFills(original, lives);
    }
  }

  /**
    However often an ordinary run crashes and resumes, it never fills more
    than its adjusted total, and each resume either finds the total filled,
    stops with a remainder too small to place, or continues with exactly the
    rest, in just enough slices, never more than the original.
  */
  lemma ResumesConserveTheTotal(original: TwapPlan, lives: seq<Life>, mid: real, outcome: Outcome)
    requires IsOrdinaryPlan(original) && IsHistory(original, lives) && Decides(original, FilledIn(lives), mid, outcome)
    ensures 0.0 <= FilledIn(lives) <= original.totalAdjusted
    ensures match outcome
      case Satisfied => FilledIn(lives) == original.totalAdjusted
      case BelowMinimum(remaining) =>
        FilledIn(lives) + remaining == original.totalAdjusted && remaining > 0.0 && WorthAt(remaining, mid) < 10.0
      case Continue(plan) =>
        && FilledIn(lives) + plan.totalAdjusted == original.totalAdjusted && plan.perSlice == original.perSlice
        && plan.totalAdjusted > 0.0 && WorthAt(plan.totalAdjusted, mid) >= 10.0
        && plan.szDecimals == original.szDecimals
        && JustEnough(plan.totalAdjusted, plan.perSlice, plan.slices) && plan.slices <= original.slices
  {
    NeverOverfilled(original, lives);
    if outcome.Continue? {
      ContinuationIsASchedule(original, FilledIn(lives), mid, outcome.plan);
    }
  }

  /** A later resume of the same run never plans more slices than an earlier one did, nor a larger remainder. */
  lemma LaterResumesNeverGrow(
    original: TwapPlan, lives: seq<Life>, n: nat, earlierMid: real, mid: real, earlier: TwapPlan, later: TwapPlan)
    requires IsOrdinaryPlan(original) && IsHistory(original, lives) && n <= |lives|
    requires Decides(original, FilledIn(lives[..n]), earlierMid, Continue(earlier))
    requires Decides(original, FilledIn(lives), mid, Continue(later))
    ensures later.slices <= earlier.slices && later.totalAdjusted <= earlier.totalAdjusted
  {
    FilledGrows(original, lives, n);
    NeverOverfilled(original, lives[..n]);
    ContinuationIsASchedule(original, FilledIn(lives[..n]), earlierMid, earlier);
    ContinuationIsASchedule(original, FilledIn(lives), mid, later);
    NoFewer(later.totalAdjusted, original.perSlice, later.slices, earlier.slices);
  }

  /** Filled size as the journal has it. */
  function FilledSize(records: seq<JournalRecord>): real
    requires ReplayJournal(records).Ok?
  {
    ReplayJournal(records).value.totals.filledSz
  }

  lemma FilledSizeGrows(records: seq<JournalRecord>, n: nat)
    requires 0 < n <= |records| && ReplayJournal(records).Ok?
    ensures ReplayJournal(records[..n]).Ok? && 0.0 <= FilledSize(records[..n]) <= FilledSize(records)
  {
    PrefixAccepted(records, n);
    FoldConsistent(records[..n]);
    SumNonNegative(Fold(records[..n]).value.order, Fold(records[..n]).value.fills, Size);
  }

  /**
    Two resumes of one journal, the second after more was recorded: both ask
    for exactly what is not filled yet, and the later one for no more, in no
    more slices, than the earlier.
  */
  lemma ResumesOfOneJournal(
    records: seq<JournalRecord>, n: nat, original: TwapPlan, earlierMid: real, mid: real, earlier: TwapPlan,
    later: TwapPlan)
    requires 0 < n <= |records| && ReplayJournal(records).Ok? && ReplayJournal(records[..n]).Ok? &&
      IsOrdinaryPlan(original)
    requires Decides(original, FilledSize(records[..n]), earlierMid, Continue(earlier))
    requires Decides(original, FilledSize(records), mid, Continue(later))
    ensures FilledSize(records[..n]) + earlier.totalAdjusted == original.totalAdjusted
    ensures FilledSize(records) + later.totalAdjusted == original.totalAdjusted
    ensures later.slices <= earlier.slices <= original.slices && later.totalAdjusted <= earlier.totalAdjusted
    ensures JustEnough(later.totalAdjusted, original.perSlice, later.slices)
  {
    FilledSizeGrows(records, n);
    ContinuationIsASchedule(original, FilledSize(records[..n]), earlierMid, earlier);
    ContinuationIsASchedule(original, FilledSize(records), mid, later);
    NoFewer(later.totalAdjusted, original.perSlice, later.slices, earlier.slices);
  }
}
