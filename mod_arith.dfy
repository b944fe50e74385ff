/** Facts about `%` on a roster cursor that the solver does not find unaided. */
module ModArith {

  lemma MulAtLeast(d: int, n: int)
    requires d >= 1 && n > 0
    ensures d * n >= n
  {
    if d > 1 {
      MulAtLeast(d - 1, n);
      assert d * n == (d - 1) * n + n;
    }
  }

  /** The remainder is the one `r` in [0, n) with `x == q * n + r`. */
  lemma ModUnique(x: int, n: int, q: int, r: int)
    requires n > 0 && 0 <= r < n && x == q * n + r
    ensures x % n == r
  {
    var q0, r0 := x / n, x % n;
    assert x == q0 * n + r0;
    assert (q - q0) * n == r0 - r;
    if q0 < q {
      MulAtLeast(q - q0, n);
    } else if q0 > q {
      MulAtLeast(q0 - q, n);
    }
  }

  /** Taking the remainder first does not change where `+ b` lands. */
  lemma ModAddRight(a: int, b: int, n: int)
    requires n > 0
    ensures (a % n + b) % n == (a + b) % n
  {
    var q, r := a / n, a % n;
    assert a == q * n + r;
    var q2, r2 := (r + b) / n, (r + b) % n;
    assert r + b == q2 * n + r2;
    assert a + b == (q + q2) * n + r2;
    ModUnique(a + b, n, q + q2, r2);
  }
}
