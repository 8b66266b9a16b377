/** Hashes of 32 bits scaled to a range by multiplication: which hashes go where, and that every
    place gets the same share of them but for one. */
module Scaling {
  import opened Powers

  const TWO_32: nat := 0x1_0000_0000

  // x * n >> 32: a hash scaled to the range below n.
  function Scaled(x: nat, n: nat): (r: nat)
    requires x < TWO_32 && n > 0
    ensures r < n
  {
    MulLess(x, TWO_32, n);
    assert x * n == n * x;
    DivLess(x * n, n, TWO_32);
    x * n / TWO_32
  }

  // The first hash that goes to place k.
  function FirstOf(k: nat, n: nat): nat
    requires n > 0
  {
    (k * TWO_32 + n - 1) / n
  }

  // x is at least the quotient rounded up exactly when x times n is at least the dividend.
  lemma {:induction false} AtLeastCeil(x: nat, a: nat, n: nat)
    requires n > 0
    ensures x >= (a + n - 1) / n <==> x * n >= a
  {
    var q := (a + n - 1) / n;
    assert q * n <= a + n - 1 < q * n + n;
    if x >= q {
      assert x * n >= q * n by { Ordered(q, x, n); }
    } else {
      assert (x + 1) * n <= q * n by { Ordered(x + 1, q, n); }
      assert (x + 1) * n == x * n + n;
    }
  }

  lemma {:induction false} Ordered(a: nat, b: nat, n: nat)
    requires a <= b
    ensures a * n <= b * n
  {
    assert b * n == a * n + (b - a) * n;
  }

  // The places take the hashes in order, one range after another.
  lemma {:induction false} ScaledExactly(x: nat, n: nat, k: nat)
    requires x < TWO_32 && n > 0
    ensures Scaled(x, n) == k <==> FirstOf(k, n) <= x < FirstOf(k + 1, n)
  {
    var y := x * n;
    AtLeastCeil(x, k * TWO_32, n);
    AtLeastCeil(x, (k + 1) * TWO_32, n);
    assert y == (y / TWO_32) * TWO_32 + y % TWO_32;
  }

  // Each gets as many as any other, or one more.
  lemma {:induction false} SharesAreEven(n: nat, k: nat)
    requires n > 0
    ensures TWO_32 / n <= FirstOf(k + 1, n) - FirstOf(k, n) <= TWO_32 / n + 1
    ensures FirstOf(0, n) == 0 && FirstOf(n, n) == TWO_32 == 4_294_967_296
  {
    var a, q, r := k * TWO_32 + n - 1, TWO_32 / n, TWO_32 % n;
    assert TWO_32 == q * n + r;
    var c, d := a / n, a % n;
    assert a == c * n + d;
    assert a + TWO_32 == (c + q) * n + (d + r) by { assert (c + q) * n == c * n + q * n; }
    if d + r < n {
      DivMod(a + TWO_32, n, c + q, d + r);
    } else {
      assert a + TWO_32 == (c + q + 1) * n + (d + r - n) by { assert (c + q + 1) * n == (c + q) * n + n; }
      DivMod(a + TWO_32, n, c + q + 1, d + r - n);
    }
    DivMod(n - 1, n, 0, n - 1);
    assert n * TWO_32 == TWO_32 * n;
    DivMod(n * TWO_32 + n - 1, n, TWO_32, n - 1);
  }
}
