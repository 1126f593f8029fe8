/** Facts of nonlinear arithmetic that the verifier needs to be told. */
module Arithmetic {
  lemma MulMono(a: int, b: int, m: nat)
    requires a <= b
    ensures a * m <= b * m
  {
  }

  lemma Distribute(k: int, d: int, m: int)
    ensures (k - d) * m == k * m - d * m
  {
  }

  lemma SmallMultiple(x: int, m: nat)
    ensures 0 <= x * m < m ==> x == 0
  {
    if x >= 1 {
      assert x * m >= 1 * m;
    } else if x <= -1 {
      assert x * m <= -1 * m;
    }
  }

  lemma ModOfSum(q: int, r: nat, m: nat)
    requires r < m
    ensures (q * m + r) % m == r
  {
    var d, s := (q * m + r) / m, (q * m + r) % m;
    assert q * m + r == d * m + s;
    Distribute(q, d, m);
    SmallMultiple(q - d, m);
    SmallMultiple(d - q, m);
    Distribute(d, q, m);
  }

  lemma DivOfSum(q: int, r: nat, m: nat)
    requires r < m
    ensures (q * m + r) / m == q
  {
    ModOfSum(q, r, m);
    var d := (q * m + r) / m;
    assert q * m + r == d * m + r;
    Distribute(q, d, m);
    SmallMultiple(q - d, m);
  }
}
