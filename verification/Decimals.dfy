/**
  Exact decimals.  A `Decimal` is modelled by the number it stands for; the
  checked operations fail beyond the largest magnitude the type can hold.
  A decimal in a journal is text: a numeral of some value written with some
  number of fractional digits ("1" and "1.0" are different texts of one
  value), or text that does not parse.
*/
module Decimals {
  import opened Wrappers

  const MAX: real := 79228162514264337593543950335.0

  predicate Fits(x: real) {
    -MAX <= x <= MAX
  }

  function CheckedAdd(x: real, y: real): Option<real> {
    if Fits(x + y) then Some(x + y) else None
  }

  function CheckedSub(x: real, y: real): Option<real> {
    if Fits(x - y) then Some(x - y) else None
  }

  function CheckedMul(x: real, y: real): Option<real> {
    if Fits(x * y) then Some(x * y) else None
  }

  lemma ExactProduct(x: real, y: real, product: real)
    requires product == x * y && Fits(product)
    ensures CheckedMul(x, y) == Some(product)
  {
  }

  function Abs(x: real): real {
    if x < 0.0 then -x else x
  }

  // ---- moving the decimal point, and whole numbers ----

  /** `x` with the point moved `k` places right. */
  function Shift(x: real, k: nat): real {
    if k == 0 then x else 10.0 * Shift(x, k - 1)
  }

  /** `x` with the point moved `k` places left. */
  function Unshift(x: real, k: nat): real {
    if k == 0 then x else Unshift(x, k - 1) / 10.0
  }

  predicate IsWhole(x: real) {
    x == x.Floor as real
  }

  /** `x` has no digit other than zero past the k-th fractional place. */
  predicate HasPlaces(x: real, k: nat) {
    IsWhole(Shift(x, k))
  }

  lemma WholeNumber(n: int)
    ensures IsWhole(n as real)
  {
  }

  lemma WholeTimesTen(x: real)
    requires IsWhole(x)
    ensures IsWhole(10.0 * x)
  {
    assert 10.0 * x == (10 * x.Floor) as real;
  }

  lemma {:induction false} PlacesMonotone(x: real, k: nat, l: nat)
    requires k <= l && HasPlaces(x, k)
    ensures HasPlaces(x, l)
    decreases l
  {
    if k < l {
      PlacesMonotone(x, k, l - 1);
      WholeTimesTen(Shift(x, l - 1));
    }
  }

  lemma {:induction false} ShiftUnshift(x: real, k: nat)
    ensures Shift(Unshift(x, k), k) == x
  {
    if k > 0 {
      ShiftUnshift(x, k - 1);
      ShiftScale(Unshift(x, k - 1), k - 1);
    }
  }

  lemma {:induction false} ShiftScale(x: real, k: nat)
    ensures Shift(x / 10.0, k) == Shift(x, k) / 10.0
    ensures Shift(10.0 * x, k) == 10.0 * Shift(x, k)
  {
    if k > 0 {
      ShiftScale(x, k - 1);
    }
  }

  lemma {:induction false} ShiftOrder(x: real, y: real, k: nat)
    ensures x < y <==> Shift(x, k) < Shift(y, k)
    ensures x == y <==> Shift(x, k) == Shift(y, k)
    ensures Shift(0.0, k) == 0.0
  {
    if k > 0 {
      ShiftOrder(x, y, k - 1);
    }
  }

  lemma {:induction false} ShiftLinear(x: real, y: real, k: nat)
    ensures Shift(x + y, k) == Shift(x, k) + Shift(y, k)
    ensures Shift(-x, k) == -Shift(x, k)
  {
    if k > 0 {
      ShiftLinear(x, y, k - 1);
    }
  }

  lemma {:induction false} ShiftSplit(x: real, k: nat, l: nat)
    ensures Shift(x, k + l) == Shift(Shift(x, k), l)
    decreases l
  {
    if l > 0 {
      ShiftSplit(x, k, l - 1);
    }
  }

  lemma {:induction false} ShiftGrows(x: real, k: nat)
    requires x >= 0.0
    ensures Shift(x, k) >= x
  {
    if k > 0 {
      ShiftGrows(x, k - 1);
    }
  }

  /** Sums and differences stay on a grid of fractional places. */
  lemma PlacesClosed(x: real, y: real, k: nat)
    requires HasPlaces(x, k) && HasPlaces(y, k)
    ensures HasPlaces(x + y, k) && HasPlaces(x - y, k) && HasPlaces(-x, k) && HasPlaces(0.0, k)
  {
    ShiftLinear(x, y, k);
    ShiftLinear(y, -y, k);
    ShiftLinear(x, -y, k);
    ShiftOrder(0.0, 0.0, k);
    WholeClosed(Shift(x, k), Shift(y, k));
  }

  lemma WholeClosed(p: real, q: real)
    requires IsWhole(p) && IsWhole(q)
    ensures IsWhole(p + q) && IsWhole(p - q) && IsWhole(-p)
  {
    WholeNumber(p.Floor + q.Floor);
    WholeNumber(p.Floor - q.Floor);
    WholeNumber(-p.Floor);
  }

  // ---- directed rounding to a number of fractional digits ----

  datatype Rounding = Up | Down | TowardZero

  function Ceiling(x: real): int {
    -((-x).Floor)
  }

  function RoundWhole(x: real, rounding: Rounding): int {
    match rounding
    case Up => Ceiling(x)
    case Down => x.Floor
    case TowardZero => if x < 0.0 then Ceiling(x) else x.Floor
  }

  lemma RoundWholeFacts(x: real)
    ensures x <= RoundWhole(x, Up) as real < x + 1.0
    ensures x - 1.0 < RoundWhole(x, Down) as real <= x
    ensures IsWhole(x) ==> forall rounding :: RoundWhole(x, rounding) as real == x
  {
    if IsWhole(x) {
      var n := x.Floor;
      assert -x == (-n) as real;
    }
  }

  lemma NoWholeBetween(x: real, n: int)
    ensures x <= n as real ==> RoundWhole(x, Up) <= n
    ensures n as real <= x ==> n <= RoundWhole(x, Down)
  {
  }

  /** `Decimal::round_dp_with_strategy`. */
  function RoundDp(x: real, places: nat, rounding: Rounding): real {
    Unshift(RoundWhole(Shift(x, places), rounding) as real, places)
  }

  /** Rounding lands on the grid, and leaves a value already on it alone. */
  lemma RoundDpShifted(x: real, places: nat, rounding: Rounding)
    ensures Shift(RoundDp(x, places, rounding), places) == RoundWhole(Shift(x, places), rounding) as real
    ensures HasPlaces(RoundDp(x, places, rounding), places)
    ensures HasPlaces(x, places) ==> RoundDp(x, places, rounding) == x
  {
    RoundWholeFacts(Shift(x, places));
    ShiftOrder(RoundDp(x, places, rounding), x, places);
    ShiftUnshift(RoundWhole(Shift(x, places), rounding) as real, places);
  }

  /** Rounding up gives the least value with that many places that is not below `x`. */
  lemma RoundUpIsLeast(x: real, places: nat)
    ensures x <= RoundDp(x, places, Up)
    ensures forall g :: HasPlaces(g, places) && x <= g ==> RoundDp(x, places, Up) <= g
  {
    var r := RoundDp(x, places, Up);
    RoundDpShifted(x, places, Up);
    RoundWholeFacts(Shift(x, places));
    ShiftOrder(r, x, places);
    forall g | HasPlaces(g, places) && x <= g
      ensures r <= g
    {
      ShiftOrder(g, x, places);
      ShiftOrder(g, r, places);
      NoWholeBetween(Shift(x, places), Shift(g, places).Floor);
    }
  }

  /** Rounding down gives the greatest value with that many places that is not above `x`. */
  lemma RoundDownIsGreatest(x: real, places: nat)
    ensures RoundDp(x, places, Down) <= x
    ensures forall g :: HasPlaces(g, places) && g <= x ==> g <= RoundDp(x, places, Down)
  {
    var r := RoundDp(x, places, Down);
    RoundDpShifted(x, places, Down);
    RoundWholeFacts(Shift(x, places));
    ShiftOrder(x, r, places);
    forall g | HasPlaces(g, places) && g <= x
      ensures g <= r
    {
      ShiftOrder(x, g, places);
      ShiftOrder(r, g, places);
      NoWholeBetween(Shift(x, places), Shift(g, places).Floor);
    }
  }

  /** Truncation keeps the sign, never grows the magnitude and drops less than one unit of the last place. */
  lemma TruncationBound(x: real, places: nat)
    ensures x >= 0.0 ==> 0.0 <= RoundDp(x, places, TowardZero) <= x
    ensures x <= 0.0 ==> x <= RoundDp(x, places, TowardZero) <= 0.0
    ensures Shift(Abs(x - RoundDp(x, places, TowardZero)), places) < 1.0
  {
    var r := RoundDp(x, places, TowardZero);
    RoundDpShifted(x, places, TowardZero);
    ShiftOrder(x, r, places);
    ShiftOrder(0.0, x, places);
    ShiftOrder(0.0, r, places);
    ShiftLinear(x, -r, places);
    ShiftLinear(r, -x, places);
    ShiftLinear(x, x, places);
  }

  // ---- decimals as text ----

  datatype Text = Numeral(value: real, scale: nat) | Junk(text: string)

  function Parse(t: Text): Option<real> {
    if t.Numeral? && Fits(t.value) then Some(t.value) else None
  }

  /** `Decimal::to_string` of a value carried with `scale` fractional digits. */
  function Show(x: real, scale: nat): Text {
    Numeral(x, scale)
  }

  /** `normalize().to_string()`: no trailing zero after the point. */
  predicate IsCanonical(t: Text) {
    t.Numeral? && HasPlaces(t.value, t.scale) && (t.scale == 0 || !HasPlaces(t.value, t.scale - 1))
  }

  /** A value has at most one canonical spelling. */
  lemma CanonicalUnique(s: Text, t: Text)
    requires IsCanonical(s) && IsCanonical(t) && s.value == t.value
    ensures s == t
  {
    if s.scale < t.scale {
      PlacesMonotone(s.value, s.scale, t.scale - 1);
    } else if t.scale < s.scale {
      PlacesMonotone(t.value, t.scale, s.scale - 1);
    }
  }
}
