/**
 * The one rounding rule every percentage of the system uses:
 * `Math.round(made / attempted * 100 * 100) / 100`, zero when nothing was attempted.
 * The model keeps the value as an integer number of HUNDREDTHS of a percent,
 * so 50.00 % is 5000 and 33.33 % is 3333.
 */
module Percent {

  /** Round-half-up of 10000 * made / attempted; zero without attempts. */
  function RoundedPercent(made: nat, attempted: nat): (r: int)
    ensures attempted == 0 ==> r == 0
    // r is the nearest integer to 10000 * made / attempted, ties rounding up
    ensures attempted > 0 ==>
      2 * attempted * r - attempted <= 20000 * made < 2 * attempted * r + attempted
    ensures made <= attempted ==> 0 <= r <= 10000
  {
    if attempted == 0 then 0
    else
      var q := (20000 * made + attempted) / (2 * attempted);
      DivisionBounds(20000 * made + attempted, 2 * attempted);
      if made <= attempted then UpperBound(made, attempted, q); q
      else q
  }

  lemma DivisionBounds(n: nat, d: nat)
    requires d > 0
    ensures d * (n / d) <= n < d * (n / d) + d
  {
  }

  lemma UpperBound(made: nat, attempted: nat, q: int)
    requires 0 < attempted && made <= attempted
    requires 2 * attempted * q - attempted <= 20000 * made < 2 * attempted * q + attempted
    ensures 0 <= q <= 10000
  {
    var p := 2 * attempted * q;
    MulLeft(20000, made, attempted);
    assert p <= attempted * 20001;
    Twice(attempted, q);
    CancelLeft(attempted, 2 * q, 20002);
    assert attempted * 0 < attempted * (2 * q + 1);
    CancelLeft(attempted, 0, 2 * q + 1);
  }

  lemma Twice(a: int, q: int)
    ensures 2 * a * q == a * (2 * q)
    ensures a * (2 * q + 1) == 2 * a * q + a
  {
  }

  /** Multiplying by a non-negative factor keeps an inequality. */
  lemma MulLeft(n: int, x: int, y: int)
    requires n >= 0 && x <= y
    ensures n * x <= n * y
  {
    assert n * y - n * x == n * (y - x);
  }

  /** A positive factor can be cancelled from a strict inequality. */
  lemma CancelLeft(n: int, x: int, y: int)
    requires n > 0 && n * x < n * y
    ensures x < y
  {
    if x >= y {
      MulLeft(n, y, x);
    }
  }

  /** One make out of two attempts is exactly 50.00 %. */
  lemma OneOfTwoIsFifty()
    ensures RoundedPercent(1, 2) == 5000
  {
  }

  /** Every attempt made is exactly 100.00 %. */
  lemma AllMadeIsHundred(n: nat)
    requires n > 0
    ensures RoundedPercent(n, n) == 10000
  {
    var r := RoundedPercent(n, n);
    assert n * (2 * r - 1) <= n * 20000;
    assert n * 20000 < n * (2 * r + 1);
    CancelLeft(n, 20000, 2 * r + 1);
    if 2 * r - 1 > 20000 {
      CancelLeft(n, 20000, 2 * r - 1);
    }
  }
}
