/** Quotient and remainder are unique. */
module Division {
  lemma NoSmallMultiple(k: int, d: int, e: int)
    requires k != 0 && -d < e < d
    ensures k * d != e
  {
    if k >= 1 { assert k * d >= d; } else { assert k * d <= -d; }
  }

  lemma DivUnique(a: nat, d: nat, q: nat, m: nat)
    requires a == q * d + m && m < d
    ensures a / d == q && a % d == m
  {
    var q', m' := a / d, a % d;
    assert a == q' * d + m';
    assert (q - q') * d == q * d - q' * d;
    if q != q' { NoSmallMultiple(q - q', d, m' - m); }
  }
}
