/** `Math.Round(x, 2)` on a quotient, with the default midpoint rule of
    .NET's `decimal` rounding: ties go to the even neighbour. */
module Rounding {

  function Abs(x: int): nat {
    if x < 0 then -x else x
  }

  /** The integer nearest to n / d; on a tie, the even one. */
  function RoundHalfEven(n: int, d: int): (r: int)
    requires d > 0
    ensures 2 * Abs(r * d - n) <= d
    ensures 2 * Abs(r * d - n) == d ==> r % 2 == 0
  {
    var q := n / d;
    var rem := n % d;
    assert n == q * d + rem;
    assert (q + 1) * d - n == d - rem;
    if 2 * rem < d then q
    else if 2 * rem > d then q + 1
    else if q % 2 == 0 then q
    else q + 1
  }

  /** A multiple of d that is not 0 or +-d is at least 2d away from 0. */
  lemma MultipleAtLeast(k: int, d: int)
    requires d > 0 && (k >= 2 || k <= -2)
    ensures Abs(k * d) >= 2 * d
  {
    if k >= 2 {
      assert k * d == 2 * d + (k - 2) * d;
      assert (k - 2) * d >= 0;
    } else {
      assert k * d == -2 * d + (k + 2) * d;
      assert (k + 2) * d <= 0;
    }
  }

  /** The two properties above determine the rounded value. */
  lemma RoundHalfEvenUnique(n: int, d: int, r: int)
    requires d > 0
    requires 2 * Abs(r * d - n) <= d
    requires 2 * Abs(r * d - n) == d ==> r % 2 == 0
    ensures r == RoundHalfEven(n, d)
  {
    var p := RoundHalfEven(n, d);
    var x, y := r * d - n, p * d - n;
    var k := r - p;
    Distribute(r, p, d);
    CloseMultiples(x, y, k, d);
  }

  lemma Distribute(r: int, p: int, d: int)
    ensures r * d - p * d == (r - p) * d
  {
  }

  /** Two offsets within d/2 of 0 that differ by a multiple k*d of d: either
      k = 0, or k = +-1 and both offsets are ties. */
  lemma CloseMultiples(x: int, y: int, k: int, d: int)
    requires d > 0 && 2 * Abs(x) <= d && 2 * Abs(y) <= d
    requires x - y == k * d
    ensures k == 0 || ((k == 1 || k == -1) && 2 * Abs(x) == d && 2 * Abs(y) == d)
  {
    if k >= 2 || k <= -2 {
      MultipleAtLeast(k, d);
    }
  }

  /** Below: bounds on a product by a positive factor. */
  lemma ProductBelow(p: int, w: int)
    requires w > 0 && p <= -1
    ensures p * w <= -w
  {
    assert p * w == -w + (p + 1) * w;
    assert (p + 1) * w <= 0;
  }

  lemma ProductAbove(p: int, w: int)
    requires w > 0 && p >= 10001
    ensures p * w >= 10001 * w
  {
    assert p * w == 10001 * w + (p - 10001) * w;
    assert (p - 10001) * w >= 0;
  }

  /** A percentage in hundredths, as `Math.Round((decimal)part / whole * 100, 2)`,
      and 0 when the source's guard `whole > 0` fails. */
  function PercentHundredths(part: int, whole: int): (p: int)
    ensures whole <= 0 ==> p == 0
    ensures whole > 0 ==> 2 * Abs(p * whole - part * 10000) <= whole
    ensures whole > 0 && 2 * Abs(p * whole - part * 10000) == whole ==> p % 2 == 0
    ensures whole > 0 && 0 <= part <= whole ==> 0 <= p <= 10000
  {
    if whole > 0 then
      var p := RoundHalfEven(part * 10000, whole);
      assert 0 <= part <= whole ==> 0 <= p <= 10000 by {
        if 0 <= part <= whole {
          assert 0 <= part * 10000 <= whole * 10000;
          if p < 0 { ProductBelow(p, whole); }
          if p > 10000 { ProductAbove(p, whole); }
        }
      }
      p
    else 0
  }

  /** Examples: 6/10 and 4/10 are 60.00 and 40.00, 1/3 is 33.33, 2/3 is 66.67,
      and 1/32 = 3.125 rounds to the even 3.12. */
  lemma PercentExamples()
    ensures PercentHundredths(6, 10) == 6000
    ensures PercentHundredths(4, 10) == 4000
    ensures PercentHundredths(1, 3) == 3333
    ensures PercentHundredths(2, 3) == 6667
    ensures PercentHundredths(1, 32) == 312
    ensures PercentHundredths(3, 32) == 938
    ensures PercentHundredths(5, 0) == 0
  {
  }
}
