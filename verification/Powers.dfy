/** Powers of two, and the few facts about products and quotients the other modules need. */
module Powers {

  function Pow2(h: nat): (r: nat)
    ensures r >= 1
  {
    if h == 0 then 1 else 2 * Pow2(h - 1)
  }

  lemma {:induction false} Pow2Next(n: nat)
    ensures Pow2(n + 1) == 2 * Pow2(n)
  {
  }

  lemma {:induction false} Pow2Add(a: nat, b: nat)
    ensures Pow2(a + b) == Pow2(a) * Pow2(b)
  {
    if a > 0 {
      Pow2Add(a - 1, b);
      assert 2 * (Pow2(a - 1) * Pow2(b)) == (2 * Pow2(a - 1)) * Pow2(b);
    }
  }

  lemma {:induction false} Pow2Grows(a: nat, b: nat)
    requires a <= b
    ensures Pow2(a) <= Pow2(b)
    decreases b - a
  {
    if a < b { Pow2Grows(a, b - 1); }
  }

  lemma {:induction false} Pow2Strict(a: nat, b: nat)
    requires Pow2(a) < Pow2(b)
    ensures a < b
  {
    if b <= a { Pow2Grows(b, a); }
  }

  lemma {:induction false} MulAtLeast(k: nat, m: nat)
    requires k >= 1
    ensures k * m >= m
  {
    if k > 1 {
      MulAtLeast(k - 1, m);
      assert k * m == (k - 1) * m + m;
    }
  }

  // A quotient and a remainder in range are the quotient and the remainder.
  lemma {:induction false} DivMod(x: int, m: nat, q: int, r: int)
    requires m > 0 && x == q * m + r && 0 <= r < m
    ensures x / m == q && x % m == r
  {
    var q', r' := x / m, x % m;
    assert x == q' * m + r' && 0 <= r' < m;
    assert (q' - q) * m == q' * m - q * m && (q - q') * m == q * m - q' * m;
    if q' > q {
      MulAtLeast(q' - q, m);
    } else if q' < q {
      MulAtLeast(q - q', m);
    }
  }

  lemma {:induction false} ModAdd(x: int, q: int, m: nat)
    requires m > 0
    ensures (x + q * m) % m == x % m
  {
    DivMod(x + q * m, m, x / m + q, x % m);
  }

  lemma {:induction false} MulLess(a: int, b: int, m: nat)
    requires a < b && m > 0
    ensures a * m < b * m && (a + 1) * m <= b * m
  {
    MulAtLeast(b - a, m);
    assert (b - a) * m == b * m - a * m;
    assert (a + 1) * m == a * m + m;
  }

  lemma {:induction false} DivDiv(x: nat, a: nat, b: nat)
    requires a > 0 && b > 0
    ensures a * b > 0 && x / a / b == x / (a * b)
  {
    var q := x / a / b;
    var r1, r2 := x % a, x / a % b;
    assert x == (q * b + r2) * a + r1;
    assert (q * b + r2) * a + r1 == q * (a * b) + (r2 * a + r1);
    MulLess(r2, b, a);
    assert r2 * a + r1 < a * b;
    DivMod(x, a * b, q, r2 * a + r1);
  }

  lemma {:induction false} DivLess(x: nat, q: nat, m: nat)
    requires m > 0
    ensures x / m < q <==> x < q * m
  {
    if x / m < q {
      MulLess(x / m, q, m);
    } else if x / m > q {
      MulLess(q, x / m, m);
    }
  }

  lemma {:induction false} DivSmaller(x: nat, m: nat)
    requires m > 0
    ensures 0 <= x / m <= x
  {
    DivLess(x, x + 1, m);
    MulAtLeast(m, x + 1);
    assert (x + 1) * m == m * (x + 1);
  }

  // Multiplying by one factor of a modulus: the rest by the other factor wraps around.
  lemma {:induction false} SplitProduct(x: nat, p: nat, q: nat)
    requires p > 0 && q > 0 && x < p * q
    ensures x / q < p
    ensures x * p == (x % q) * p + (p * q) * (x / q)
    ensures 0 <= (x % q) * p < p * q
    ensures x * p % (p * q) == (x % q) * p
  {
    var h, l := x / q, x % q;
    DivLess(x, p, q);
    assert x == h * q + l;
    assert x * p == (h * q) * p + l * p;
    assert (h * q) * p == (p * q) * h;
    MulLess(l, q, p);
    assert q * p == p * q;
    DivMod(x * p, p * q, h, l * p);
  }

  lemma {:induction false} MultipleOf(l: nat, p: nat)
    requires p > 0
    ensures l * p % p == 0 && l * p / p == l
  {
    DivMod(l * p, p, l, 0);
  }

  // A multiple of p and something below p stay below any multiple of p above it.
  lemma {:induction false} MultipleBelow(x: nat, y: nat, p: nat, q: nat)
    requires p > 0 && x % p == 0 && y < p && x < p * q
    ensures x + y < p * q
  {
    var c := x / p;
    assert x == c * p;
    assert q * p == p * q;
    if c >= q {
      if c > q { MulLess(q, c, p); }
    } else {
      MulLess(c, q, p);
      assert (c + 1) * p == c * p + p;
    }
  }
}
