/** Python 3's `round` on an exact non-negative rational `num / den`:
    round to the nearest integer, and on a tie to the even neighbour. */
module Rounding {

  /** The integer nearest to num/den, ties to even, computed as Python's round
      does it on an exact value: quotient, then the remainder against half the
      divisor. RoundHalfEvenSpec states what it is. */
  function RoundHalfEven(num: nat, den: nat): nat
    requires den > 0
  {
    var q := num / den;
    var m := num % den;
    if 2 * m < den then q
    else if 2 * m > den then q + 1
    else if q % 2 == 0 then q
    else q + 1
  }

  /** r is within one half of num/den, a tie goes to the even candidate, and r
      is zero exactly when num/den is at most one half. */
  lemma RoundHalfEvenSpec(num: nat, den: nat)
    requires den > 0
    ensures var r := RoundHalfEven(num, den);
            && 2 * num <= 2 * (r * den) + den
            && 2 * (r * den) <= 2 * num + den
            && ((2 * num == 2 * (r * den) + den || 2 * (r * den) == 2 * num + den) ==> r % 2 == 0)
            && (r == 0 <==> 2 * num <= den)
  {
    var q := num / den;
    var m := num % den;
    assert num == q * den + m;
    MulSucc(q, den);
    if 2 * m == den && q % 2 != 0 {
      MulMonotone(1, q, den);
    }
  }

  /** The rounded value is zero exactly when num/den is at most one half. */
  lemma RoundZeroIff(num: nat, den: nat)
    requires den > 0
    ensures RoundHalfEven(num, den) == 0 <==> 2 * num <= den
  {
    RoundHalfEvenSpec(num, den);
  }

  /** The specification above leaves no choice: any value meeting it is RoundHalfEven's. */
  lemma RoundHalfEvenUnique(num: nat, den: nat, r': nat)
    requires den > 0
    requires 2 * num <= 2 * (r' * den) + den
    requires 2 * (r' * den) <= 2 * num + den
    requires (2 * num == 2 * (r' * den) + den || 2 * (r' * den) == 2 * num + den) ==> r' % 2 == 0
    ensures r' == RoundHalfEven(num, den)
  {
    var r := RoundHalfEven(num, den);
    RoundHalfEvenSpec(num, den);
    if r' < r {
      NoTwoRoundings(num, den, r', r);
    } else if r < r' {
      NoTwoRoundings(num, den, r, r');
    }
  }

  /** Two distinct values within one half of num/den are neighbours that both sit
      on a tie, so they cannot both be even. */
  lemma NoTwoRoundings(num: nat, den: nat, lo: nat, hi: nat)
    requires den > 0 && lo < hi
    requires 2 * num <= 2 * (lo * den) + den
    requires 2 * (hi * den) <= 2 * num + den
    ensures hi == lo + 1
    ensures 2 * num == 2 * (lo * den) + den && 2 * (hi * den) == 2 * num + den
  {
    MulMonotone(lo + 1, hi, den);
    MulSucc(lo, den);
    if hi > lo + 1 {
      MulMonotone(lo + 2, hi, den);
    }
  }

  /** Halving the value never raises its rounding: round(num/(2 den)) <= round(num/den). */
  lemma RoundHalving(num: nat, den: nat)
    requires den > 0
    ensures RoundHalfEven(num, 2 * den) <= RoundHalfEven(num, den)
  {
    var a := RoundHalfEven(num, 2 * den);
    var b := RoundHalfEven(num, den);
    RoundHalfEvenSpec(num, 2 * den);
    RoundHalfEvenSpec(num, den);
    if b < a {
      // 4 a den <= 2 num + 2 den <= 2 b den + 3 den <= 2 a den + den, so 2 a den <= den
      MulAssoc(a, 2, den);
      MulMonotone(b + 1, a, den);
      MulSucc(b, den);
      assert false;
    }
  }

  /** Below one: rounding num/2 is smaller than num for every positive num. */
  lemma RoundHalfBelow(num: nat)
    requires num >= 1
    ensures RoundHalfEven(num, 2) < num
  {
    RoundHalfEvenSpec(num, 2);
  }

  lemma MulMonotone(x: nat, y: nat, d: nat)
    requires x <= y
    ensures x * d <= y * d
  {
  }

  lemma MulSucc(x: nat, d: nat)
    ensures (x + 1) * d == x * d + d
  {
  }

  lemma MulAssoc(a: nat, b: nat, d: nat)
    ensures a * (b * d) == b * (a * d)
  {
  }

  /** 2^k, the reciprocal of the ratio after k halvings. */
  function Pow2(k: nat): (p: nat)
    ensures p >= 1
  {
    if k == 0 then 1 else 2 * Pow2(k - 1)
  }
}
