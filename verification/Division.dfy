/** Division by a variable, through its defining equation. */
module Division {

  function Quot(x: nat, m: nat): nat
    requires m > 0
  {
    x / m
  }

  function Rem(x: nat, m: nat): nat
    requires m > 0
  {
    x % m
  }

  lemma DivMod(x: nat, m: nat)
    requires m > 0
    ensures x == Quot(x, m) * m + Rem(x, m) && Rem(x, m) < m
  {
  }

  lemma Distribute(k: int, l: int, m: int)
    ensures (k - l) * m == k * m - l * m
  {
  }

  lemma AtLeast(d: int, m: int)
    requires d > 0 && m > 0
    ensures d * m >= m
  {
  }

  lemma Spread(k: int, l: int, m: int)
    ensures (k - l) * m == k * m - l * m
    ensures k > l && m > 0 ==> (k - l) * m >= m
  {
    Distribute(k, l, m);
    if k > l && m > 0 {
      AtLeast(k - l, m);
    }
  }

  lemma SameQuotient(m: nat, q: nat, r: nat, q': nat, r': nat)
    requires r < m && r' < m && q * m + r == q' * m + r'
    ensures q == q' && r == r'
  {
    Spread(q, q', m);
    Spread(q', q, m);
  }

  /** Quotient and remainder are determined by their defining equation. */
  lemma DivUnique(x: nat, m: nat, q: nat, r: nat)
    requires m > 0 && r < m && x == q * m + r
    ensures Quot(x, m) == q && Rem(x, m) == r
  {
    DivMod(x, m);
    hide Quot, Rem;
    SameQuotient(m, q, r, Quot(x, m), Rem(x, m));
  }

  lemma QuotSmaller(x: nat, m: nat)
    requires m >= 2 && x > 0
    ensures Quot(x, m) < x
  {
  }

  lemma QuotZero(x: nat, m: nat)
    requires m > 0
    ensures Quot(x, m) == 0 <==> x < m
  {
  }

  lemma Times(k: nat, l: nat, m: nat)
    requires k <= l
    ensures k * m <= l * m
  {
  }
}
