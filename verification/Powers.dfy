/** Powers of two and the division facts they need. */
module Powers {
  function Pow2(k: nat): (p: nat)
    ensures p > 0
  {
    if k == 0 then 1 else 2 * Pow2(k - 1)
  }

  lemma HalvedDivision(n: nat, p: nat)
    requires p > 0
    ensures n / 2 / p == n / (2 * p)
  {
    var q := n / 2 / p;
    var r := n / 2 - q * p;
    assert n == (2 * p) * q + (2 * r + n % 2) && 0 <= 2 * r + n % 2 < 2 * p;
    DivisionUnique(n, 2 * p, q, 2 * r + n % 2);
  }

  lemma DivisionUnique(n: nat, d: nat, q: nat, r: nat)
    requires d > 0 && n == d * q + r && r < d
    ensures n / d == q
  {
    var e, f := n / d, n % d;
    assert n == d * e + f;
    MultipleBelow(d, q - e, f - r);
  }

  lemma MultipleBelow(d: int, x: int, y: int)
    requires d * x == y && -d < y < d
    ensures x == 0
  {
    if x > 0 {
      MultipleAtLeast(d, x);
    } else if x < 0 {
      MultipleAtLeast(d, -x);
    }
  }

  lemma {:induction false} MultipleAtLeast(d: int, x: int)
    requires d > 0 && x > 0
    ensures d * x >= d
    decreases x
  {
    if x > 1 {
      MultipleAtLeast(d, x - 1);
    }
  }
}
