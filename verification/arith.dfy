/**
 * Integer facts about Euclidean division used by the timer and the calendar.
 */
module Arith {

  /** The remainder is unique: `q * n + r` with `0 <= r < n` leaves `r`. */
  lemma ModOfSum(a: int, n: int, q: int, r: int)
    requires n > 0 && 0 <= r < n && a == q * n + r
    ensures a % n == r
  {
    var q', r' := a / n, a % n;
    assert a == q' * n + r';
    var d := q - q';
    assert d * n == r' - r by {
      assert d * n == q * n - q' * n;
    }
    if d >= 1 {
      MulAtLeast(d, n);
    } else if d <= -1 {
      MulAtLeast(-d, n);
    }
  }

  lemma MulAtLeast(d: int, n: int)
    requires d >= 1 && n > 0
    ensures d * n >= n
  {
    assert d * n == (d - 1) * n + n;
    assert (d - 1) * n >= 0;
  }

  /** Adding to a number and then reducing is adding to its remainder and reducing. */
  lemma ModAdd(a: int, k: int, n: int)
    requires n > 0
    ensures (a + k) % n == (a % n + k) % n
  {
    var q, r := a / n, a % n;
    var q2, r2 := (r + k) / n, (r + k) % n;
    assert a + k == (q + q2) * n + r2 by {
      assert (q + q2) * n == q * n + q2 * n;
    }
    ModOfSum(a + k, n, q + q2, r2);
  }
}
