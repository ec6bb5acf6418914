/** Quotients and remainders by a variable divisor. */
module Division {
  lemma SmallMultiple(k: int, n: nat)
    ensures 0 - n < k * n < n ==> k == 0
  {
    if k > 0 {
      assert k * n >= n;
    } else if k < 0 {
      assert k * n <= 0 - n;
    }
  }

  lemma Quotient(t: nat, n: nat, q: nat, r: nat)
    requires r < n && t == q * n + r
    ensures t / n == q && t % n == r
  {
    var p := t / n;
    assert t == p * n + t % n;
    assert (p - q) * n == p * n - q * n;
    SmallMultiple(p - q, n);
  }
}
