/** Powers of any base, and when one power bounds another for every exponent. */
module Exponents {
  import opened Powers

  function Pow(b: nat, n: nat): nat { if n == 0 then 1 else b * Pow(b, n - 1) }

  lemma {:induction false} PowPositive(b: nat, n: nat)
    requires b >= 1
    ensures Pow(b, n) >= 1
  {
    if n > 0 {
      PowPositive(b, n - 1);
      MulAtLeast(b, Pow(b, n - 1));
    }
  }

  lemma {:induction false} Regroup(x: nat, y: nat, z: nat)
    ensures x * (y * z) == (x * y) * z
  {
  }

  lemma {:induction false} PowAdd(b: nat, m: nat, n: nat)
    ensures Pow(b, m + n) == Pow(b, m) * Pow(b, n)
  {
    if m > 0 {
      PowAdd(b, m - 1, n);
      Regroup(b, Pow(b, m - 1), Pow(b, n));
    }
  }

  lemma {:induction false} PowMul(b: nat, m: nat, n: nat)
    ensures Pow(b, m * n) == Pow(Pow(b, m), n)
  {
    if n > 0 {
      PowMul(b, m, n - 1);
      assert m * n == m + m * (n - 1);
      PowAdd(b, m, m * (n - 1));
    }
  }

  lemma {:induction false} ProductGrows(a: nat, b: nat, c: nat, d: nat)
    requires a <= b && c <= d
    ensures a * c <= b * d
  {
    if c > 0 && a < b { MulLess(a, b, c); }
    if b > 0 && c < d { MulLess(c, d, b); }
    assert b * c == c * b && b * d == d * b;
  }

  lemma {:induction false} PowGrows(a: nat, b: nat, n: nat)
    requires a <= b
    ensures Pow(a, n) <= Pow(b, n)
  {
    if n > 0 {
      PowGrows(a, b, n - 1);
      ProductGrows(a, b, Pow(a, n - 1), Pow(b, n - 1));
    }
  }

  lemma {:induction false} PowExponent(b: nat, m: nat, n: nat)
    requires b >= 2 && m < n
    ensures Pow(b, m) < Pow(b, n)
    decreases n
  {
    PowPositive(b, n - 1);
    if m < n - 1 { PowExponent(b, m, n - 1); }
    MulLess(1, b, Pow(b, n - 1));
  }

  // If k digits of base x fit j digits of base y, then m digits of base x fit one more
  // than j * m / k digits of base y.
  lemma {:induction false} DigitsFit(x: nat, k: nat, y: nat, j: nat, m: nat)
    requires k > 0 && y >= 2 && Pow(x, k) <= Pow(y, j)
    ensures Pow(x, m) < Pow(y, j * m / k + 1)
  {
    var e := j * m / k + 1;
    assert j * m < k * e by { DivLess(j * m, e, k); assert k * e == e * k; }
    PowMul(x, m, k);
    PowMul(x, k, m);
    assert m * k == k * m;
    PowGrows(Pow(x, k), Pow(y, j), m);
    PowMul(y, j, m);
    PowExponent(y, j * m, k * e);
    PowMul(y, e, k);
    assert e * k == k * e;
    if Pow(x, m) >= Pow(y, e) { PowGrows(Pow(y, e), Pow(x, m), k); }
  }
}
