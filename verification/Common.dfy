/** What several modules share. */
module Common {

  datatype Option<+T> = None | Some(value: T)

  // ----- multiplication and division by a variable -----

  lemma MulMono(a: nat, b: nat, m: nat)
    ensures a <= b ==> a * m <= b * m
  {
  }

  lemma DivBound(n: nat, m: nat, k: nat)
    requires m > 0 && n < k * m
    ensures n / m < k
  {
    assert n == (n / m) * m + n % m;
    MulMono(k, n / m, m);
  }

  lemma DivMod(q: nat, m: nat, r: nat)
    requires r < m
    ensures (q * m + r) / m == q && (q * m + r) % m == r
  {
    var n := q * m + r;
    var k := n / m;
    assert n == k * m + n % m;
    MulMono(k + 1, q, m);
    MulMono(q + 1, k, m);
    assert (k + 1) * m == k * m + m && (q + 1) * m == q * m + m;
  }

  lemma DivFloor(n: nat, m: nat)
    requires m > 0
    ensures (n / m) * m <= n < (n / m + 1) * m
  {
    var q := n / m;
    assert n == q * m + n % m;
    assert (q + 1) * m == q * m + m;
  }
}
