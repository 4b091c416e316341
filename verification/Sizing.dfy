/**
  Sizing a run: how much each slice carries, what rounding drops, and how
  each slice's order catches up with what is due without overshooting it.
*/
module Sizing {
  import opened Wrappers
  import opened Decimals
  import opened JournalRecords
  import opened PriceGrid

  const MIN_NOTIONAL_USD := 10.0

  datatype Sizing = Sizing(perSlice: real, totalAdjusted: real)

  datatype SizingError = NonPositiveTotal | PerSliceZero | PerSliceBelowMinNotional

  /** What a size is worth at a price. */
  function WorthAt(size: real, price: real): real {
    size * price
  }

  /** `x` taken `n` times. */
  function Times(x: real, n: nat): real {
    if n == 0 then 0.0 else Times(x, n - 1) + x
  }

  lemma {:induction false} TimesIsProduct(x: real, n: nat, product: real)
    requires product == x * n as real
    ensures Times(x, n) == product
  {
    if n > 0 {
      TimesIsProduct(x, n - 1, product - x);
    }
  }

  lemma {:induction false} TimesOrder(x: real, m: nat, n: nat)
    requires x > 0.0 && m <= n
    ensures 0.0 <= Times(x, m) <= Times(x, n)
    ensures m < n ==> Times(x, m) + x <= Times(x, n)
  {
    if m < n {
      TimesOrder(x, m, n - 1);
    } else if m > 0 {
      TimesOrder(x, m - 1, m - 1);
    }
  }

  /** Scaling, differences and places go through term by term. */
  lemma {:induction false} TimesLinear(x: real, y: real, n: nat, k: nat)
    ensures Times(x, n) - Times(y, n) == Times(x - y, n)
    ensures Shift(Times(x, n), k) == Times(Shift(x, k), n)
    ensures x <= y ==> Times(x, n) <= Times(y, n)
    ensures HasPlaces(x, k) ==> HasPlaces(Times(x, n), k)
  {
    if n == 0 {
      ShiftOrder(0.0, 0.0, k);
    } else {
      TimesLinear(x, y, n - 1, k);
      ShiftLinear(Times(x, n - 1), x, k);
      if HasPlaces(x, k) {
        PlacesClosed(Times(x, n - 1), x, k);
      }
    }
  }

  lemma {:induction false} FewerThan(x: real, n: nat)
    requires x < 1.0 && n > 0
    ensures Times(x, n) < n as real
  {
    if n > 1 {
      FewerThan(x, n - 1);
    }
  }

  function ComputeSizing(total: real, slices: nat, szDecimals: nat, mid: real): Result<Sizing, SizingError>
    requires slices > 0
  {
    if total <= 0.0 then
      Err(NonPositiveTotal)
    else
      var perSlice := RoundSize(total / slices as real, szDecimals);
      if perSlice <= 0.0 then Err(PerSliceZero)
      else if WorthAt(perSlice, mid) < MIN_NOTIONAL_USD then Err(PerSliceBelowMinNotional)
      else Ok(Sizing(perSlice, Times(perSlice, slices)))
  }

  /** A position phase keeps its exact size as the final cumulative target. */
  function ExecutionSizing(
    total: real, slices: nat, szDecimals: nat, mid: real, exact: bool): Result<Sizing, SizingError>
    requires slices > 0
  {
    var sizing :- ComputeSizing(total, slices, szDecimals, mid);
    Ok(if exact then sizing.(totalAdjusted := total) else sizing)
  }

  lemma Share(total: real, n: nat)
    requires n > 0
    ensures Times(total / n as real, n) == total
  {
    TimesIsProduct(total / n as real, n, total);
  }

  lemma DroppedLittle(share: real, kept: real, n: nat, k: nat)
    requires n > 0 && Shift(share - kept, k) < 1.0
    ensures Shift(Times(share, n) - Times(kept, n), k) < n as real
  {
    TimesLinear(share, kept, n, k);
    TimesLinear(share - kept, 0.0, n, k);
    FewerThan(Shift(share - kept, k), n);
  }

  lemma RoundedShare(total: real, share: real, slices: nat, places: nat)
    requires slices > 0 && Times(share, slices) == total && RoundSize(share, places) > 0.0
    ensures var perSlice := RoundSize(share, places); var adjusted := Times(perSlice, slices);
      && perSlice <= adjusted <= total && Shift(total - adjusted, places) < slices as real
      && HasPlaces(perSlice, places) && HasPlaces(adjusted, places)
  {
    var perSlice := RoundSize(share, places);
    RoundDpShifted(share, places, TowardZero);
    TruncationBound(share, places);
    TimesOrder(perSlice, 1, slices);
    TimesLinear(perSlice, share, slices, places);
    DroppedLittle(share, perSlice, slices, places);
  }

  lemma ProductFits(x: real, n: nat)
    requires Fits(Times(x, n))
    ensures CheckedMul(x, n as real) == Some(Times(x, n))
  {
    TimesIsProduct(x, n, x * n as real);
    ExactProduct(x, n as real, Times(x, n));
  }

  /**
    The adjusted total is on the size grid, no more than was requested, and
    short of it by less than one unit of the last place for each slice.  It
    is what a header's own check of an ordinary run asks for.
  */
  lemma RoundingDropsLittle(total: real, slices: nat, szDecimals: nat, mid: real)
    requires slices > 0 && Fits(total) && ComputeSizing(total, slices, szDecimals, mid).Ok?
    ensures var s := ComputeSizing(total, slices, szDecimals, mid).value;
      && 0.0 < s.perSlice <= s.totalAdjusted <= total
      && Shift(total - s.totalAdjusted, szDecimals) < slices as real
      && HasPlaces(s.perSlice, szDecimals) && HasPlaces(s.totalAdjusted, szDecimals)
      && CheckedMul(s.perSlice, slices as real) == Some(s.totalAdjusted)
  {
    Share(total, slices);
    RoundedShare(total, total / slices as real, slices, szDecimals);
    ProductFits(ComputeSizing(total, slices, szDecimals, mid).value.perSlice, slices);
  }

  /** The largest size on the grid that fits the total that many times. */
  ghost predicate IsGreatestShare(p: real, total: real, slices: nat, places: nat) {
    HasPlaces(p, places) && Times(p, slices) <= total &&
    forall g :: HasPlaces(g, places) && Times(g, slices) <= total ==> g <= p
  }

  lemma {:induction false} TimesStrict(x: real, y: real, n: nat)
    requires n > 0
    ensures x < y ==> Times(x, n) < Times(y, n)
  {
    if n > 1 {
      TimesStrict(x, y, n - 1);
    }
  }

  lemma RoundedShareIsGreatest(total: real, slices: nat, places: nat)
    requires slices > 0 && total > 0.0
    ensures IsGreatestShare(RoundSize(total / slices as real, places), total, slices, places)
    ensures total / slices as real > 0.0
  {
    var share := total / slices as real;
    Share(total, slices);
    TimesOrderOfShare(share, total, slices);
    RoundSizeNeverExceeds(share, places);
    TimesLinear(RoundSize(share, places), share, slices, places);
    forall g | HasPlaces(g, places) && Times(g, slices) <= total
      ensures g <= RoundSize(share, places)
    {
      TimesStrict(share, g, slices);
    }
  }

  lemma TimesOrderOfShare(share: real, total: real, slices: nat)
    requires slices > 0 && Times(share, slices) == total && total > 0.0
    ensures share > 0.0
  {
    TimesLinear(share, 0.0, slices, 0);
    TimesOfNothing(slices);
  }

  lemma {:induction false} TimesOfNothing(n: nat)
    ensures Times(0.0, n) == 0.0
  {
    if n > 0 {
      TimesOfNothing(n - 1);
    }
  }

  /**
    Sizing takes for each slice the largest size on the grid that fits, and
    succeeds exactly for a positive total whose share is not zero and is worth
    at least ten dollars; the adjusted total is those slices, or for a
    position phase the exact total.
  */
  lemma SizingExactly(total: real, slices: nat, szDecimals: nat, mid: real, exact: bool, p: real)
    requires slices > 0 && IsGreatestShare(p, total, slices, szDecimals)
    ensures var sizing := ExecutionSizing(total, slices, szDecimals, mid, exact);
      && (sizing.Ok? <==> total > 0.0 && p > 0.0 && p * mid >= 10.0)
      && (sizing.Ok? ==> sizing.value == Sizing(p, if exact then total else Times(p, slices)))
      && (sizing.Err? ==>
            sizing.error ==
            if total <= 0.0 then NonPositiveTotal else if p <= 0.0 then PerSliceZero else PerSliceBelowMinNotional)
  {
    if total > 0.0 {
      RoundedShareIsGreatest(total, slices, szDecimals);
      assert p == RoundSize(total / slices as real, szDecimals);
    }
  }

  // ---- the stored sizing of a resumed run ----

  datatype SizingMismatch = ZeroSlices | NotCanonical | NotPositive | SizingOverflows | Mismatch

  function CanonicalValue(t: Text): Result<real, SizingMismatch> {
    if Parse(t).Some? && IsCanonical(t) then Ok(t.value) else Err(NotCanonical)
  }

  function ValidateFingerprintSizing(
    fp: Fingerprint, expectedTotal: real, reduceOnly: bool, szDecimals: nat, exact: bool): Result<(), SizingMismatch> {
    if fp.slices == 0 then
      Err(ZeroSlices)
    else
      var perSlice :- CanonicalValue(fp.perSlice);
      var totalAdjusted :- CanonicalValue(fp.totalAdjusted);
      var totalRequested :- CanonicalValue(fp.totalRequested);
      if expectedTotal <= 0.0 || perSlice <= 0.0 || totalAdjusted <= 0.0 || totalRequested <= 0.0 then
        Err(NotPositive)
      else
        var expectedPerSlice := RoundSize(expectedTotal / fp.slices as real, szDecimals);
        if !exact && !Fits(Times(expectedPerSlice, fp.slices)) then
          Err(SizingOverflows)
        else
          var expectedAdjusted := if exact then expectedTotal else Times(expectedPerSlice, fp.slices);
          if totalRequested == expectedTotal && perSlice == expectedPerSlice && totalAdjusted == expectedAdjusted &&
             fp.reduceOnly == reduceOnly
          then Ok(())
          else Err(Mismatch)
  }

  /** The fingerprint records a run sized this way. */
  predicate Records(fp: Fingerprint, total: real, sizing: Sizing, reduceOnly: bool) {
    && IsCanonical(fp.totalRequested) && Parse(fp.totalRequested) == Some(total)
    && IsCanonical(fp.perSlice) && Parse(fp.perSlice) == Some(sizing.perSlice)
    && IsCanonical(fp.totalAdjusted) && Parse(fp.totalAdjusted) == Some(sizing.totalAdjusted)
    && fp.reduceOnly == reduceOnly
  }

  /**
    A resumed run is held to the sizing it started with: whatever the price
    now, the stored sizing of a total that was once accepted passes exactly
    when it is the one computed then.
  */
  lemma StoredSizingIsTheOriginal(
    fp: Fingerprint, total: real, slices: nat, szDecimals: nat, mid: real, reduceOnly: bool, exact: bool)
    requires slices > 0 && Fits(total) && fp.slices == slices
    requires ExecutionSizing(total, slices, szDecimals, mid, exact).Ok?
    ensures ValidateFingerprintSizing(fp, total, reduceOnly, szDecimals, exact).Ok? <==>
      Records(fp, total, ExecutionSizing(total, slices, szDecimals, mid, exact).value, reduceOnly)
  {
    RoundingDropsLittle(total, slices, szDecimals, mid);
  }

  /**
    The same without a price: a stored sizing passes exactly when it is, field
    by field, the slices of the largest size on the grid that fits its total.
  */
  lemma StoredSizingExactly(fp: Fingerprint, total: real, szDecimals: nat, reduceOnly: bool, exact: bool, p: real)
    requires Fits(total) && fp.slices > 0 && IsGreatestShare(p, total, fp.slices, szDecimals)
    ensures ValidateFingerprintSizing(fp, total, reduceOnly, szDecimals, exact).Ok? <==>
      total > 0.0 && p > 0.0 && Records(fp, total, Sizing(p, if exact then total else Times(p, fp.slices)), reduceOnly)
  {
    if total > 0.0 {
      RoundedShareIsGreatest(total, fp.slices, szDecimals);
      assert p == RoundSize(total / fp.slices as real, szDecimals);
      if p > 0.0 {
        TimesOrder(p, 0, fp.slices);
        TimesOrder(p, 1, fp.slices);
      }
    }
  }

  // ---- the slices of one process ----

  /** The plan one process executes. */
  datatype TwapPlan = TwapPlan(perSlice: real, totalAdjusted: real, slices: nat, szDecimals: nat)

  function TargetAtSlice(plan: TwapPlan, slice: nat): real {
    if slice >= plan.slices then plan.totalAdjusted else Times(plan.perSlice, slice)
  }

  function SliceOrderSize(plan: TwapPlan, slice: nat, filled: real): real {
    var raw := TargetAtSlice(plan, slice) - filled;
    if raw <= 0.0 then 0.0 else RoundSize(raw, plan.szDecimals)
  }

  function Total(fills: seq<real>): real {
    if fills == [] then 0.0 else Total(fills[..|fills| - 1]) + fills[|fills| - 1]
  }

  /** The i-th fill is of an order the (i+1)-th slice could send; a slice may fill nothing. */
  predicate IsExecution(plan: TwapPlan, fills: seq<real>) {
    fills == [] ||
    (var init, last := fills[..|fills| - 1], fills[|fills| - 1];
     IsExecution(plan, init) && |fills| <= plan.slices && 0.0 <= last <= SliceOrderSize(plan, |fills|, Total(init)))
  }

  /** No slice is behind the final target. */
  ghost predicate IsSchedule(plan: TwapPlan) {
    && plan.perSlice > 0.0 && plan.totalAdjusted > 0.0 && plan.slices > 0
    && Times(plan.perSlice, plan.slices - 1) <= plan.totalAdjusted
  }

  lemma SliceTargets(plan: TwapPlan, i: nat, j: nat)
    requires IsSchedule(plan) && i <= j
    ensures 0.0 <= TargetAtSlice(plan, i) <= TargetAtSlice(plan, j) <= plan.totalAdjusted
  {
    if i < plan.slices {
      TimesOrder(plan.perSlice, i, plan.slices - 1);
      if j < plan.slices {
        TimesOrder(plan.perSlice, i, j);
        TimesOrder(plan.perSlice, j, plan.slices - 1);
      }
    }
  }

  /**
    Catching up never overshoots: after every slice the filled size is at most
    what is due, and so at most the plan's total.
  */
  lemma {:induction false} SlicesNeverOvershoot(plan: TwapPlan, fills: seq<real>)
    requires IsSchedule(plan) && IsExecution(plan, fills)
    ensures 0.0 <= Total(fills) <= TargetAtSlice(plan, |fills|) <= plan.totalAdjusted
  {
    SliceTargets(plan, |fills|, |fills|);
    if fills != [] {
      var init := fills[..|fills| - 1];
      SlicesNeverOvershoot(plan, init);
      SliceTargets(plan, |init|, |fills|);
      TruncationBound(TargetAtSlice(plan, |fills|) - Total(init), plan.szDecimals);
    }
  }

  /** What is due after a slice: that many slice sizes, or after the last one the whole total. */
  lemma TargetExactly(plan: TwapPlan, slice: nat, product: real)
    requires product == plan.perSlice * slice as real
    ensures TargetAtSlice(plan, slice) == if slice < plan.slices then product else plan.totalAdjusted
  {
    TimesIsProduct(plan.perSlice, slice, product);
  }

  lemma FullSliceReachesTarget(plan: TwapPlan, fills: seq<real>)
    requires IsSchedule(plan) && IsExecution(plan, fills) && fills != []
    requires HasPlaces(TargetAtSlice(plan, |fills|), plan.szDecimals)
    requires HasPlaces(Total(fills[..|fills| - 1]), plan.szDecimals)
    requires fills[|fills| - 1] == SliceOrderSize(plan, |fills|, Total(fills[..|fills| - 1]))
    ensures Total(fills) == TargetAtSlice(plan, |fills|)
  {
    var n, before := |fills|, Total(fills[..|fills| - 1]);
    SlicesNeverOvershoot(plan, fills[..n - 1]);
    SliceTargets(plan, n - 1, n);
    PlacesClosed(TargetAtSlice(plan, n), before, plan.szDecimals);
    RoundDpShifted(TargetAtSlice(plan, n) - before, plan.szDecimals, TowardZero);
  }

  /** Whatever earlier slices missed, a last slice that fills completely lands on the total. */
  lemma LastSliceCatchesUp(plan: TwapPlan, fills: seq<real>)
    requires IsSchedule(plan) && IsExecution(plan, fills) && |fills| == plan.slices
    requires HasPlaces(plan.totalAdjusted, plan.szDecimals) && HasPlaces(Total(fills[..|fills| - 1]), plan.szDecimals)
    requires fills[|fills| - 1] == SliceOrderSize(plan, |fills|, Total(fills[..|fills| - 1]))
    ensures Total(fills) == plan.totalAdjusted
  {
    FullSliceReachesTarget(plan, fills);
  }

  /**
    Whatever earlier slices missed, a slice that fills completely brings the
    run to its schedule: that many slice sizes, or after the last slice the
    whole total.
  */
  lemma FullSliceCatchesUp(plan: TwapPlan, fills: seq<real>)
    requires IsSchedule(plan) && IsExecution(plan, fills) && fills != []
    requires HasPlaces(plan.totalAdjusted, plan.szDecimals) && HasPlaces(plan.perSlice, plan.szDecimals)
    requires HasPlaces(Total(fills[..|fills| - 1]), plan.szDecimals)
    requires fills[|fills| - 1] == SliceOrderSize(plan, |fills|, Total(fills[..|fills| - 1]))
    ensures Total(fills) == if |fills| < plan.slices then plan.perSlice * |fills| as real else plan.totalAdjusted
  {
    TimesLinear(plan.perSlice, plan.perSlice, |fills|, plan.szDecimals);
    FullSliceReachesTarget(plan, fills);
    TargetExactly(plan, |fills|, plan.perSlice * |fills| as real);
  }

  /** A slice orders nothing once what is due is filled, and else the largest size on the grid still due. */
  lemma SliceOrderExactly(plan: TwapPlan, slice: nat, filled: real, product: real)
    requires product == plan.perSlice * slice as real
    ensures var due, size :=
        (if slice < plan.slices then product else plan.totalAdjusted), SliceOrderSize(plan, slice, filled);
      && (filled >= due ==> size == 0.0)
      && (filled < due ==>
            && HasPlaces(size, plan.szDecimals) && 0.0 <= size && filled + size <= due
            && forall g :: HasPlaces(g, plan.szDecimals) && filled + g <= due ==> g <= size)
  {
    TargetExactly(plan, slice, product);
    var raw := TargetAtSlice(plan, slice) - filled;
    if raw > 0.0 {
      RoundSizeNeverExceeds(raw, plan.szDecimals);
    }
  }
}
