/** Integer division by two as the host language performs it on signed
    integers: the quotient is truncated toward zero, so the remainder has the
    sign of the dividend. Dafny's own `/` floors instead (`-1 / 2 == -1`). */
module Arith {

  /** `a / 2` rounded toward zero. The two ensures pin the quotient down: the
      remainder `a - 2 * q` lies in 0..1 for a non-negative dividend and in
      -1..0 for a negative one. */
  function TruncDiv2(a: int): (q: int)
    ensures a >= 0 ==> 0 <= a - 2 * q <= 1
    ensures a < 0 ==> -1 <= a - 2 * q <= 0
  {
    if a >= 0 then a / 2 else -((-a) / 2)
  }

  /** The remainder conditions of TruncDiv2 determine the quotient: any `q`
      meeting them is TruncDiv2(a). */
  lemma TruncDiv2Unique(a: int, q: int)
    requires a >= 0 ==> 0 <= a - 2 * q <= 1
    requires a < 0 ==> -1 <= a - 2 * q <= 0
    ensures q == TruncDiv2(a)
  {
  }

  /** Truncation is symmetric about zero, which flooring is not. */
  lemma TruncDiv2Odd(a: int)
    ensures TruncDiv2(-a) == -TruncDiv2(a)
  {
  }

  /** Where truncation and Dafny's floor division part ways: exactly on
      negative odd dividends, by one. */
  lemma TruncDiv2VersusFloor(a: int)
    ensures a >= 0 || a % 2 == 0 ==> TruncDiv2(a) == a / 2
    ensures a < 0 && a % 2 == 1 ==> TruncDiv2(a) == a / 2 + 1
  {
  }
}
