/** Euclidean division by a variable, which the solver cannot do unaided. */
module Arithmetic {

  lemma {:induction false} ProductGap(a: nat, n: nat)
    requires a >= 1
    ensures a * n >= n
  {
    if a > 1 {
      ProductGap(a - 1, n);
      assert a * n == (a - 1) * n + n;
    }
  }

  lemma RemaindersAgree(q: int, r: int, q': int, r': int, n: nat)
    requires q * n + r == q' * n + r' && 0 <= r < n && 0 <= r' < n
    ensures r == r'
  {
    if q < q' {
      ProductGap(q' - q, n);
    } else if q' < q {
      ProductGap(q - q', n);
    }
  }

  lemma DivisionIsUnique(x: int, n: nat, q: int, r: int)
    requires n > 0 && x == q * n + r && 0 <= r < n
    ensures x % n == r
  {
    RemaindersAgree(q, r, x / n, x % n, n);
  }

  lemma ModStep(k: nat, n: nat)
    requires n > 0
    ensures (k + 1) % n == if k % n + 1 == n then 0 else k % n + 1
  {
    var q, r := k / n, k % n;
    if r + 1 == n {
      assert k + 1 == (q + 1) * n + 0;
      DivisionIsUnique(k + 1, n, q + 1, 0);
    } else {
      DivisionIsUnique(k + 1, n, q, r + 1);
    }
  }
}
