/**
 Exact decimal money and the two rounding rules the backend quantizes with.

 Amounts are in cents. An unrounded amount is a `real` (the ledger's decimals are
 exact); `quantize(0.01)` turns it into a whole number of cents, an `int`.
 */
module Money {

  datatype Option<+T> = None | Some(value: T)

  /** `quantize(_CENTS, rounding=ROUND_HALF_UP)`: the nearest cent, ties away from zero. */
  function RoundHalfUp(x: real): (r: int)
    ensures x >= 0.0 ==> -0.5 < r as real - x <= 0.5 && r >= 0
    ensures x < 0.0 ==> -0.5 <= r as real - x < 0.5 && r <= 0
  {
    if x >= 0.0 then (x + 0.5).Floor else -((0.5 - x).Floor)
  }

  /** `quantize` / `round` with the default context: the nearest unit, ties to the even one. */
  function RoundHalfEven(x: real): (r: int)
    ensures -0.5 <= r as real - x <= 0.5
    ensures r as real - x == 0.5 || r as real - x == -0.5 ==> r % 2 == 0
  {
    var f := x.Floor;
    var d := x - f as real;
    if d < 0.5 || (d == 0.5 && f % 2 == 0) then f else f + 1
  }

  /** The half-up characterisation determines the result. */
  lemma HalfUpUnique(x: real, r: int)
    requires x >= 0.0 ==> -0.5 < r as real - x <= 0.5
    requires x < 0.0 ==> -0.5 <= r as real - x < 0.5
    ensures r == RoundHalfUp(x)
  {
    var q := RoundHalfUp(x);
    assert -1.0 < (r - q) as real < 1.0;
  }

  lemma HalfUpMonotone(x: real, y: real)
    requires x <= y
    ensures RoundHalfUp(x) <= RoundHalfUp(y)
  {
    var p, q := RoundHalfUp(x), RoundHalfUp(y);
    assert p > q ==> (p - q) as real >= 1.0;
  }

  lemma HalfUpWhole(n: int)
    ensures RoundHalfUp(n as real) == n
  {
    HalfUpUnique(n as real, n);
  }

  /** Adding whole cents commutes with rounding on the non-negative side. */
  lemma HalfUpShift(x: real, n: nat)
    requires x >= 0.0
    ensures RoundHalfUp(x + n as real) == RoundHalfUp(x) + n
  {
    HalfUpUnique(x + n as real, RoundHalfUp(x) + n);
  }

  lemma HalfEvenMonotone(x: real, y: real)
    requires x <= y
    ensures RoundHalfEven(x) <= RoundHalfEven(y)
  {
    var p, q := RoundHalfEven(x), RoundHalfEven(y);
    assert p > q ==> (p - q) as real >= 1.0;
  }

  lemma HalfEvenWhole(n: int)
    ensures RoundHalfEven(n as real) == n
  {
    var q := RoundHalfEven(n as real);
    assert -1.0 < (n - q) as real < 1.0;
  }

  function Max(a: int, b: int): int {
    if a >= b then a else b
  }

  function Min(a: int, b: int): int {
    if a <= b then a else b
  }

  lemma ProductNonNegative(x: real, y: real)
    requires x >= 0.0 && y >= 0.0
    ensures x * y >= 0.0
  {
  }

  /** Scaling by a non-negative factor keeps order. */
  lemma ScaledOrder(x: real, y: real, k: real)
    requires x <= y && k >= 0.0
    ensures x * k <= y * k && k * x <= k * y
  {
    ProductNonNegative(y - x, k);
    assert y * k == x * k + (y - x) * k;
  }

  // ----- sums -----

  function SumReal(s: seq<real>): real
  {
    if s == [] then 0.0 else s[0] + SumReal(s[1..])
  }

  function SumInt(s: seq<int>): int
  {
    if s == [] then 0 else s[0] + SumInt(s[1..])
  }

  lemma {:induction false} SumRealAppend(a: seq<real>, b: seq<real>)
    ensures SumReal(a + b) == SumReal(a) + SumReal(b)
  {
    if a == [] {
      assert a + b == b;
    } else {
      assert (a + b)[1..] == a[1..] + b;
      SumRealAppend(a[1..], b);
    }
  }

  lemma {:induction false} SumIntAppend(a: seq<int>, b: seq<int>)
    ensures SumInt(a + b) == SumInt(a) + SumInt(b)
  {
    if a == [] {
      assert a + b == b;
    } else {
      assert (a + b)[1..] == a[1..] + b;
      SumIntAppend(a[1..], b);
    }
  }

  /** Rounding each term moves the sum by at most half a cent a term. */
  lemma {:induction false} RoundedSumError(xs: seq<real>, rs: seq<int>)
    requires |xs| == |rs|
    requires forall i :: 0 <= i < |xs| ==> -0.5 <= rs[i] as real - xs[i] <= 0.5
    ensures -0.5 * |xs| as real <= SumInt(rs) as real - SumReal(xs) <= 0.5 * |xs| as real
  {
    if xs != [] {
      RoundedSumError(xs[1..], rs[1..]);
    }
  }
}
