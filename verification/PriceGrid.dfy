/**
  Rounding prices and sizes to the exchange's tick grid.

  A grid price has at most `max(0, 6 - szDecimals)` fractional digits and is
  either an integer or has at most five significant digits.
*/
module PriceGrid {
  import opened Decimals
  import opened Types

  const MAX_PX_SIGNIFICANT_DIGITS: nat := 5
  const MAX_PX_DECIMALS_BASE: nat := 6
  const LEADING_ZEROS_CAP: nat := 28

  // ---- the code ----

  function RoundSize(sz: real, szDecimals: nat): real {
    RoundDp(sz, szDecimals, TowardZero)
  }

  function MaxDecimals(szDecimals: nat): nat {
    if szDecimals <= MAX_PX_DECIMALS_BASE then MAX_PX_DECIMALS_BASE - szDecimals else 0
  }

  function RoundPrice(px: real, szDecimals: nat, side: Side): real {
    if px <= 0.0 then
      px
    else
      var rounding := if side.Long? then Up else Down;
      RoundToSignificantDigits(RoundDp(px, MaxDecimals(szDecimals), rounding), MAX_PX_SIGNIFICANT_DIGITS, rounding)
  }

  function RoundToSignificantDigits(px: real, sig: nat, rounding: Rounding): real {
    if px <= 0.0 then
      px
    else
      var intDigits := IntegerDigitCount(px);
      if intDigits >= sig then
        RoundDp(px, 0, rounding)
      else
        RoundDp(px, if px < 1.0 then sig + LeadingFractionZeros(px) else sig - intDigits, rounding)
  }

  function IntegerDigitCount(px: real): nat
    requires px >= 0.0
  {
    if px.Floor == 0 then 0 else DigitCount(px.Floor)
  }

  /** Length of the decimal spelling of a whole number. */
  function DigitCount(n: nat): nat {
    if n < 10 then 1 else 1 + DigitCount(n / 10)
  }

  function LeadingFractionZeros(px: real): nat {
    ZerosFrom(px, 0)
  }

  function ZerosFrom(scaled: real, zeros: nat): nat
    decreases LEADING_ZEROS_CAP - zeros
  {
    if scaled < 1.0 && zeros < LEADING_ZEROS_CAP && 10.0 * scaled < 1.0
    then ZerosFrom(10.0 * scaled, zeros + 1)
    else zeros
  }

  method CountLeadingFractionZeros(px: real) returns (zeros: nat)
    ensures zeros == LeadingFractionZeros(px)
    ensures 0.0 < px < 1.0 ==> Shift(px, zeros) < 1.0 && (zeros < LEADING_ZEROS_CAP ==> Shift(px, zeros + 1) >= 1.0)
  {
    zeros := 0;
    var scaled := px;
    while scaled < 1.0 && zeros < LEADING_ZEROS_CAP
      invariant zeros <= LEADING_ZEROS_CAP
      invariant scaled == Shift(px, zeros)
      invariant px < 1.0 ==> scaled < 1.0
      invariant ZerosFrom(scaled, zeros) == LeadingFractionZeros(px)
      decreases LEADING_ZEROS_CAP - zeros
    {
      scaled := scaled * 10.0;
      if scaled >= 1.0 {
        break;
      }
      zeros := zeros + 1;
    }
  }

  /** The touch moved against us by the slippage cushion. */
  function CushionedTouch(bestBid: real, bestAsk: real, side: Side, slippageBps: real): real {
    var bps := slippageBps / 10000.0;
    if side.Long? then bestAsk + bestAsk * bps else bestBid - bestBid * bps
  }

  function TakerLimitPrice(bestBid: real, bestAsk: real, side: Side, slippageBps: real, szDecimals: nat): real {
    RoundPrice(CushionedTouch(bestBid, bestAsk, side, slippageBps), szDecimals, side)
  }

  // ---- the grid ----

  ghost predicate FiveSignificantDigits(g: real) {
    exists k: nat :: HasPlaces(g, k) && Shift(g, k) <= 99999.0
  }

  ghost predicate WholeOrFiveDigits(g: real) {
    IsWhole(g) || FiveSignificantDigits(g)
  }

  ghost predicate OnGrid(g: real, szDecimals: nat) {
    HasPlaces(g, if szDecimals < 6 then 6 - szDecimals else 0) && WholeOrFiveDigits(g)
  }

  ghost predicate IsLeastAtOrAbove(r: real, px: real, szDecimals: nat) {
    OnGrid(r, szDecimals) && px <= r && forall g :: OnGrid(g, szDecimals) && px <= g ==> r <= g
  }

  ghost predicate IsGreatestAtOrBelow(r: real, px: real, szDecimals: nat) {
    OnGrid(r, szDecimals) && 0.0 <= r <= px && forall g :: OnGrid(g, szDecimals) && g <= px ==> g <= r
  }

  // ---- how many places the five-digit rule leaves ----

  lemma {:induction false} DigitCountBounds(n: nat)
    requires n > 0
    ensures DigitCount(n) >= 1
    ensures Shift(1.0, DigitCount(n) - 1) <= n as real < Shift(1.0, DigitCount(n))
  {
    if n >= 10 {
      DigitCountBounds(n / 10);
      var p := Shift(1.0, DigitCount(n / 10));
      Places(DigitCount(n / 10));
      assert n / 10 < p.Floor;
      assert n < 10 * p.Floor;
    }
  }

  lemma {:induction false} Places(k: nat)
    ensures IsWhole(Shift(1.0, k))
  {
    PlacesMonotone(1.0, 0, k);
  }

  lemma {:induction false} ZerosBounds(scaled: real, zeros: nat)
    requires 0.0 < scaled < 1.0
    ensures var z := ZerosFrom(scaled, zeros);
      z >= zeros && Shift(scaled, z - zeros) < 1.0
      && (z < LEADING_ZEROS_CAP ==> Shift(scaled, z - zeros + 1) >= 1.0)
    decreases LEADING_ZEROS_CAP - zeros
  {
    if zeros < LEADING_ZEROS_CAP && 10.0 * scaled < 1.0 {
      ZerosBounds(10.0 * scaled, zeros + 1);
      var z := ZerosFrom(scaled, zeros);
      ShiftScale(scaled, z - zeros - 1);
      ShiftScale(scaled, z - zeros);
    }
  }

  ghost predicate FillsFiveDigits(y: real, a: nat) {
    a >= 1 && 10000.0 <= Shift(y, a) < 100000.0
  }

  function AllowedPlaces(y: real): nat
    requires 0.0 < y && IntegerDigitCount(y) < MAX_PX_SIGNIFICANT_DIGITS
  {
    if y < 1.0 then MAX_PX_SIGNIFICANT_DIGITS + LeadingFractionZeros(y)
    else MAX_PX_SIGNIFICANT_DIGITS - IntegerDigitCount(y)
  }

  lemma SmallPowers()
    ensures Shift(1.0, 0) == 1.0 && Shift(1.0, 1) == 10.0 && Shift(1.0, 2) == 100.0
    ensures Shift(1.0, 3) == 1000.0 && Shift(1.0, 4) == 10000.0 && Shift(1.0, 5) == 100000.0
  {
    assert Shift(1.0, 2) == 100.0;
    assert Shift(1.0, 3) == 1000.0;
    assert Shift(1.0, 4) == 10000.0;
  }

  /** Below one, the leading zeros push the five-digit window right. */
  lemma PlacesBelowOne(y: real, places: nat)
    requires places <= 6 && HasPlaces(y, places) && 0.0 < y < 1.0
    ensures IntegerDigitCount(y) == 0 && FillsFiveDigits(y, AllowedPlaces(y))
  {
    var z := LeadingFractionZeros(y);
    ZerosBounds(y, 0);
    if z >= 6 {
      PlacesMonotone(y, places, z);
      ShiftOrder(0.0, y, z);
      assert false;
    }
    SmallPowers();
    ShiftSplit(y, z + 1, 4);
    ShiftOrder(1.0, Shift(y, z + 1), 4);
    ShiftSplit(y, z, 5);
    ShiftOrder(Shift(y, z), 1.0, 5);
  }

  /** From one up, the integer digits use the window up from the left. */
  lemma PlacesFromOne(y: real)
    requires 1.0 <= y
    ensures IntegerDigitCount(y) < 5 <==> y < 10000.0
    ensures y < 10000.0 ==> FillsFiveDigits(y, AllowedPlaces(y))
  {
    var n, d := y.Floor, DigitCount(y.Floor);
    DigitCountBounds(n);
    SmallPowers();
    Places(d);
    assert n < Shift(1.0, d).Floor;
    assert Shift(1.0, d - 1) <= y < Shift(1.0, d);
    if d >= 5 {
      ShiftSplit(1.0, 4, d - 5);
      ShiftGrows(Shift(1.0, 4), d - 5);
    } else {
      ShiftSplit(1.0, 4, 4 - d);
      ShiftSplit(1.0, d, 4 - d);
      ShiftGrows(Shift(1.0, d), 4 - d);
      ShiftSplit(1.0, d - 1, 5 - d);
      ShiftSplit(1.0, d, 5 - d);
      ShiftOrder(y, Shift(1.0, d - 1), 5 - d);
      ShiftOrder(y, Shift(1.0, d), 5 - d);
    }
  }

  // ---- every grid price in reach has the places the code keeps ----

  lemma LargeGridPricesAreWhole(g: real)
    requires WholeOrFiveDigits(g) && g >= 10000.0
    ensures IsWhole(g)
  {
    if !IsWhole(g) {
      var k: nat :| HasPlaces(g, k) && Shift(g, k) <= 99999.0;
      assert k > 0;
      ShiftSplit(g, 1, k - 1);
      ShiftGrows(Shift(g, 1), k - 1);
    }
  }

  /** A grid price at or above `y` keeps to the places that fill five digits of `y`. */
  lemma GridAbove(g: real, y: real, a: nat)
    requires FillsFiveDigits(y, a) && WholeOrFiveDigits(g) && y <= g
    ensures HasPlaces(g, a)
  {
    if IsWhole(g) {
      PlacesMonotone(g, 0, a);
    } else {
      var k: nat :| HasPlaces(g, k) && Shift(g, k) <= 99999.0;
      if k <= a {
        PlacesMonotone(g, k, a);
      } else {
        ShiftOrder(g, y, a);
        ShiftSplit(g, a, 1);
        ShiftSplit(g, a + 1, k - a - 1);
        ShiftGrows(Shift(g, a + 1), k - a - 1);
        assert false;
      }
    }
  }

  /** A grid price at or below `y` either keeps to those places or has one integer digit fewer. */
  lemma GridBelow(g: real, y: real, a: nat)
    requires FillsFiveDigits(y, a) && WholeOrFiveDigits(g) && g <= y
    ensures HasPlaces(g, a) || Shift(g, a) < 10000.0
  {
    if IsWhole(g) {
      PlacesMonotone(g, 0, a);
    } else {
      var k: nat :| HasPlaces(g, k) && Shift(g, k) <= 99999.0;
      if k <= a {
        PlacesMonotone(g, k, a);
      } else if g > 0.0 {
        ShiftOrder(0.0, g, a);
        ShiftSplit(g, a, 1);
        ShiftSplit(g, a + 1, k - a - 1);
        ShiftGrows(Shift(g, a + 1), k - a - 1);
      } else {
        ShiftOrder(g, 0.0, a);
      }
    }
  }

  /** Rounding at `a` places stays within the first cap's places. */
  lemma StaysWithinPlaces(y: real, a: nat, places: nat, rounding: Rounding)
    requires HasPlaces(y, places)
    ensures HasPlaces(RoundDp(y, a, rounding), places)
  {
    RoundDpShifted(y, a, rounding);
    if a <= places {
      PlacesMonotone(RoundDp(y, a, rounding), a, places);
    } else {
      PlacesMonotone(y, places, a);
    }
  }

  /** Rounding a five-digit window lands on the grid, also when it carries into the next decade. */
  lemma WindowRoundsOntoGrid(y: real, a: nat, rounding: Rounding)
    requires FillsFiveDigits(y, a)
    ensures FiveSignificantDigits(RoundDp(y, a, rounding))
    ensures Shift(RoundDp(y, a, rounding), a) >= 10000.0
  {
    var r, m := RoundDp(y, a, rounding), RoundWhole(Shift(y, a), rounding);
    RoundDpShifted(y, a, rounding);
    NoWholeBetween(Shift(y, a), 10000);
    NoWholeBetween(Shift(y, a), 100000);
    RoundWholeFacts(Shift(y, a));
    assert 10000 <= m <= 100000;
    if m == 100000 {
      assert Shift(r, a - 1) == 10000.0;
      assert HasPlaces(r, a - 1);
    }
  }

  /** The second cap, once the first has been applied: the nearest grid price in the chosen direction. */
  lemma SignificantDigitsCap(y: real, szDecimals: nat, side: Side)
    requires 0.0 < y && HasPlaces(y, MaxDecimals(szDecimals))
    ensures var rounding := if side.Long? then Up else Down;
      var r := RoundToSignificantDigits(y, MAX_PX_SIGNIFICANT_DIGITS, rounding);
      if side.Long? then IsLeastAtOrAbove(r, y, szDecimals) else IsGreatestAtOrBelow(r, y, szDecimals)
  {
    var places := MaxDecimals(szDecimals);
    var rounding := if side.Long? then Up else Down;
    var r := RoundToSignificantDigits(y, MAX_PX_SIGNIFICANT_DIGITS, rounding);
    if y < 1.0 {
      PlacesBelowOne(y, places);
    } else {
      PlacesFromOne(y);
    }
    var a := if y < 10000.0 then AllowedPlaces(y) else 0;
    assert r == RoundDp(y, a, rounding);
    StaysWithinPlaces(y, a, places, rounding);
    RoundDpShifted(y, a, rounding);
    RoundUpIsLeast(y, a);
    RoundDownIsGreatest(y, a);
    if y < 10000.0 {
      WindowRoundsOntoGrid(y, a, rounding);
      ShiftOrder(r, 0.0, a);
    } else {
      NoWholeBetween(y, 10000);
    }
    forall g | OnGrid(g, szDecimals) && if side.Long? then y <= g else g <= y
      ensures if side.Long? then r <= g else g <= r
    {
      NearestInDirection(g, y, a, side);
    }
  }

  lemma NearestAbove(g: real, y: real, a: nat)
    requires WholeOrFiveDigits(g) && 0.0 < y <= g
    requires if y < 10000.0 then FillsFiveDigits(y, a) else a == 0
    ensures RoundDp(y, a, Up) <= g
  {
    if y < 10000.0 {
      GridAbove(g, y, a);
    } else {
      LargeGridPricesAreWhole(g);
      assert HasPlaces(g, a);
    }
    RoundUpIsLeast(y, a);
  }

  lemma NearestBelowInWindow(g: real, y: real, a: nat)
    requires WholeOrFiveDigits(g) && 0.0 < y && g <= y && FillsFiveDigits(y, a)
    ensures g <= RoundDp(y, a, Down)
  {
    GridBelow(g, y, a);
    if HasPlaces(g, a) {
      RoundDownIsGreatest(y, a);
    } else {
      WindowRoundsOntoGrid(y, a, Down);
      ShiftOrder(g, RoundDp(y, a, Down), a);
    }
  }

  lemma NearestBelowLarge(g: real, y: real)
    requires WholeOrFiveDigits(g) && 10000.0 <= y && g <= y
    ensures g <= RoundDp(y, 0, Down)
  {
    if g >= 10000.0 {
      LargeGridPricesAreWhole(g);
      assert HasPlaces(g, 0);
      RoundDownIsGreatest(y, 0);
    } else {
      NoWholeBetween(y, 10000);
    }
  }

  lemma NearestInDirection(g: real, y: real, a: nat, side: Side)
    requires WholeOrFiveDigits(g) && 0.0 < y && if side.Long? then y <= g else g <= y
    requires if y < 10000.0 then FillsFiveDigits(y, a) else a == 0
    ensures side.Long? ==> RoundDp(y, a, Up) <= g
    ensures side.Short? ==> g <= RoundDp(y, a, Down)
  {
    if side.Long? {
      NearestAbove(g, y, a);
    } else if y < 10000.0 {
      NearestBelowInWindow(g, y, a);
    } else {
      NearestBelowLarge(g, y);
    }
  }

  // ---- the two caps together ----

  /**
    For a positive price, rounding for a long gives exactly the least grid
    price that is not below it, and for a short the greatest grid price
    (zero included) that is not above it.
  */
  lemma RoundPriceIsNearestGridPrice(px: real, szDecimals: nat, side: Side)
    requires px > 0.0
    ensures side.Long? ==> IsLeastAtOrAbove(RoundPrice(px, szDecimals, side), px, szDecimals)
    ensures side.Short? ==> IsGreatestAtOrBelow(RoundPrice(px, szDecimals, side), px, szDecimals)
  {
    var places := MaxDecimals(szDecimals);
    var y := RoundDp(px, places, if side.Long? then Up else Down);
    RoundDpShifted(px, places, if side.Long? then Up else Down);
    RoundUpIsLeast(px, places);
    RoundDownIsGreatest(px, places);
    ShiftOrder(0.0, 0.0, places);
    assert HasPlaces(0.0, places);
    if y > 0.0 {
      SignificantDigitsCap(y, szDecimals, side);
    }
  }

  /** Rounding a grid price changes nothing, so rounding twice is rounding once. */
  lemma RoundPriceIdempotent(px: real, szDecimals: nat, side: Side)
    ensures px > 0.0 && OnGrid(px, szDecimals) ==> RoundPrice(px, szDecimals, side) == px
    ensures RoundPrice(RoundPrice(px, szDecimals, side), szDecimals, side) == RoundPrice(px, szDecimals, side)
  {
    if px > 0.0 {
      RoundPriceIsNearestGridPrice(px, szDecimals, side);
      var r := RoundPrice(px, szDecimals, side);
      if r > 0.0 {
        RoundPriceIsNearestGridPrice(r, szDecimals, side);
      }
    }
  }

  lemma RoundPriceMonotone(px: real, qx: real, szDecimals: nat, side: Side)
    requires px <= qx
    ensures RoundPrice(px, szDecimals, side) <= RoundPrice(qx, szDecimals, side)
  {
    if px > 0.0 {
      RoundPriceIsNearestGridPrice(px, szDecimals, side);
    }
    if qx > 0.0 {
      RoundPriceIsNearestGridPrice(qx, szDecimals, side);
    }
  }

  /** A short's limit vanishes exactly when the price is below one unit of the finest allowed place. */
  lemma ShortPriceFloorsToZero(px: real, szDecimals: nat)
    requires px > 0.0
    ensures RoundPrice(px, szDecimals, Short) == 0.0 <==> Shift(px, if szDecimals < 6 then 6 - szDecimals else 0) < 1.0
  {
    var places := MaxDecimals(szDecimals);
    var tick := Unshift(1.0, places);
    ShiftUnshift(1.0, places);
    ShiftOrder(px, tick, places);
    ShiftOrder(0.0, tick, places);
    RoundPriceIsNearestGridPrice(px, szDecimals, Short);
    assert OnGrid(tick, szDecimals);
    var r := RoundPrice(px, szDecimals, Short);
    if r != 0.0 {
      ShiftOrder(0.0, r, places);
      ShiftOrder(px, r, places);
    }
  }

  lemma RoundPriceDirection(px: real, szDecimals: nat)
    ensures RoundPrice(px, szDecimals, Long) >= px && RoundPrice(px, szDecimals, Short) <= px
    ensures px <= 0.0 ==> RoundPrice(px, szDecimals, Long) == px == RoundPrice(px, szDecimals, Short)
  {
    if px > 0.0 {
      RoundPriceIsNearestGridPrice(px, szDecimals, Long);
      RoundPriceIsNearestGridPrice(px, szDecimals, Short);
    }
  }

  lemma ProductNonNegative(x: real, y: real)
    requires x >= 0.0 && y >= 0.0
    ensures x * y >= 0.0
  {
  }

  /** A taker limit stays marketable: a buy never below the ask, a sell never above the bid. */
  lemma TakerLimitIsMarketable(bestBid: real, bestAsk: real, side: Side, slippageBps: real, szDecimals: nat)
    requires bestBid > 0.0 && bestAsk > 0.0 && slippageBps >= 0.0
    ensures side.Long? ==> TakerLimitPrice(bestBid, bestAsk, side, slippageBps, szDecimals) >= bestAsk
    ensures side.Short? ==> TakerLimitPrice(bestBid, bestAsk, side, slippageBps, szDecimals) <= bestBid
  {
    ProductNonNegative(bestAsk, slippageBps / 10000.0);
    ProductNonNegative(bestBid, slippageBps / 10000.0);
    RoundPriceDirection(CushionedTouch(bestBid, bestAsk, side, slippageBps), szDecimals);
  }

  lemma Cushion(touch: real, slippageBps: real, share: real)
    requires share == slippageBps / 10000.0
    ensures 10000.0 * (touch + touch * share) == touch * (10000.0 + slippageBps)
    ensures 10000.0 * (touch - touch * share) == touch * (10000.0 - slippageBps)
  {
    assert 10000.0 * (touch * share) == touch * (10000.0 * share);
  }

  lemma RemainsPositive(touch: real, slippageBps: real, c: real)
    requires touch > 0.0 && slippageBps < 10000.0 && 10000.0 * c == touch * (10000.0 - slippageBps)
    ensures c > 0.0
  {
  }

  lemma GrowsPositive(touch: real, slippageBps: real, c: real)
    requires touch > 0.0 && slippageBps >= 0.0 && 10000.0 * c == touch * (10000.0 + slippageBps)
    ensures c > 0.0
  {
  }

  /**
    The taker limit is exactly the grid price nearest to the touch moved
    against us by the slippage in basis points: the least one not below it for
    a buy, the greatest one not above it, or zero, for a sell; a sell cushioned
    down to nothing is not rounded.
  */
  lemma TakerLimitExactly(bestBid: real, bestAsk: real, slippageBps: real, szDecimals: nat, c: real)
    requires bestBid > 0.0 && bestAsk > 0.0 && slippageBps >= 0.0
    ensures 10000.0 * c == bestAsk * (10000.0 + slippageBps) ==>
      IsLeastAtOrAbove(TakerLimitPrice(bestBid, bestAsk, Long, slippageBps, szDecimals), c, szDecimals)
    ensures slippageBps < 10000.0 && 10000.0 * c == bestBid * (10000.0 - slippageBps) ==>
      IsGreatestAtOrBelow(TakerLimitPrice(bestBid, bestAsk, Short, slippageBps, szDecimals), c, szDecimals)
    ensures c <= 0.0 && 10000.0 * c == bestBid * (10000.0 - slippageBps) ==>
      TakerLimitPrice(bestBid, bestAsk, Short, slippageBps, szDecimals) == c
  {
    Cushion(bestAsk, slippageBps, slippageBps / 10000.0);
    Cushion(bestBid, slippageBps, slippageBps / 10000.0);
    if 10000.0 * c == bestAsk * (10000.0 + slippageBps) {
      GrowsPositive(bestAsk, slippageBps, c);
      assert CushionedTouch(bestBid, bestAsk, Long, slippageBps) == c;
      RoundPriceIsNearestGridPrice(c, szDecimals, Long);
    }
    if 10000.0 * c == bestBid * (10000.0 - slippageBps) {
      assert CushionedTouch(bestBid, bestAsk, Short, slippageBps) == c;
    }
    if slippageBps < 10000.0 && 10000.0 * c == bestBid * (10000.0 - slippageBps) {
      RemainsPositive(bestBid, slippageBps, c);
      RoundPriceIsNearestGridPrice(c, szDecimals, Short);
    }
  }

  /** Truncation gives the greatest size on the grid that is not above the requested one. */
  lemma RoundSizeNeverExceeds(sz: real, szDecimals: nat)
    requires sz >= 0.0
    ensures 0.0 <= RoundSize(sz, szDecimals) <= sz
    ensures HasPlaces(RoundSize(sz, szDecimals), szDecimals)
    ensures forall g :: HasPlaces(g, szDecimals) && g <= sz ==> g <= RoundSize(sz, szDecimals)
  {
    TruncationBound(sz, szDecimals);
    RoundDpShifted(sz, szDecimals, TowardZero);
    RoundDownIsGreatest(sz, szDecimals);
    ShiftOrder(0.0, sz, szDecimals);
  }
}
