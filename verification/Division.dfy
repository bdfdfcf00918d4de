/** Division facts that the solver does not see by itself. */
module Division {
  lemma Multiple(t: int, q: int)
    requires t > 0
    ensures (t * q) % t == 0 && (t * q) / t == q
  {
    var r, p := (t * q) % t, (t * q) / t;
    assert t * q == t * p + r;
    assert r == t * (q - p);
    MultipleSize(t, q - p);
  }

  lemma MultipleSize(t: int, d: int)
    requires t > 0
    ensures d >= 1 ==> t * d >= t
    ensures d <= -1 ==> t * d <= -t
  {
  }

  lemma RemainderUnique(n: nat, m: nat, k: int, r: nat)
    requires m > 0 && n == m * k + r && r < m
    ensures n % m == r
  {
    var t := n / m - k;
    assert m * t == r - n % m;
    MultipleSize(m, t);
  }
}
