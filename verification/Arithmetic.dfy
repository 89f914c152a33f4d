/** Division with remainder by a variable divisor, which the solver will not do by itself. */
module Arithmetic {
  lemma MulGap(a: nat, b: nat, n: nat)
    requires a < b
    ensures a * n + n <= b * n
  {
    assert (a + 1) * n <= b * n;
  }

  lemma MulMono(a: nat, b: nat, n: nat)
    requires a <= b
    ensures a * n <= b * n
  {}

  lemma MultipleGap(x: int, n: nat)
    ensures x * n <= 0 || x * n >= n
  {}

  lemma DivMod(t: nat, n: nat)
    requires n > 0
    ensures t == (t / n) * n + t % n && t % n < n
  {}

  /** Quotient and remainder are determined by `t == q * n + r` with `r < n`. */
  lemma DivModUnique(t: nat, n: nat, q: nat, r: nat)
    requires r < n && t == q * n + r
    ensures t % n == r && t / n == q
  {
    var q' := t / n;
    DivMod(t, n);
    if q' < q {
      MulGap(q', q, n);
      assert false;
    } else if q < q' {
      MulGap(q, q', n);
      assert false;
    }
  }

  lemma ModNext(t: nat, n: nat)
    requires n > 0
    ensures (t + 1) % n == if t % n + 1 == n then 0 else t % n + 1
  {
    var q, r := t / n, t % n;
    DivMod(t, n);
    if r + 1 == n {
      assert t + 1 == (q + 1) * n + 0;
      DivModUnique(t + 1, n, q + 1, 0);
    } else {
      DivModUnique(t + 1, n, q, r + 1);
    }
  }
}
