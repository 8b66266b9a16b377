/** Shifting a number by whole limbs and by bits within limbs. */
module LimbShifts {
  import opened Powers
  import opened Limbs

  /* ---- one limb ---- */

  // What stays in the limb and what moves to the next one, shifting left by s bits.
  function Low(x: Limb, s: nat): Limb { x * Pow2(s) % BASE }
  function High(x: Limb, s: nat): Limb
    requires s < 32
  {
    DivSmaller(x, Pow2(32 - s));
    if s == 0 then 0 else x / Pow2(32 - s)
  }

  lemma {:induction false} Factors(s: nat)
    requires s <= 32
    ensures Pow2(s) * Pow2(32 - s) == BASE
  {
    Pow2Add(s, 32 - s);
    Pow2Limb();
  }

  lemma {:induction false} LowHigh(x: Limb, s: nat)
    requires s < 32
    ensures x * Pow2(s) == Low(x, s) + BASE * High(x, s)
    ensures Low(x, s) % Pow2(s) == 0 && High(x, s) < Pow2(s)
  {
    var p, q := Pow2(s), Pow2(32 - s);
    Factors(s);
    if s == 0 {
      DivMod(x, BASE, 0, x);
    } else {
      hide Pow2;
      SplitProduct(x, p, q);
      MultipleOf(x % q, p);
    }
  }

  /* ---- shifting left ---- */

  // Limb m of the result: the low part of limb m-k below the high part of the one before.
  function LeftLimb(a: seq<Limb>, k: nat, s: nat, m: nat): Limb
    requires s < 32 && m < |a|
  {
    var high := if m >= k + 1 then High(a[m - k - 1], s) else 0;
    var low := if m >= k then Low(a[m - k], s) else 0;
    if m >= k + 1 then LowHigh(a[m - k - 1], s); LowHigh(a[m - k], s); LimbSum(low, high, s); low + high else low
  }

  lemma {:induction false} LimbSum(low: Limb, high: Limb, s: nat)
    requires s < 32 && low % Pow2(s) == 0 && high < Pow2(s)
    ensures low + high < BASE
  {
    Factors(s);
    MultipleBelow(low, high, Pow2(s), Pow2(32 - s));
  }

  function ShiftLeft(a: seq<Limb>, k: nat, s: nat): seq<Limb>
    requires s < 32
  {
    seq(|a|, m requires 0 <= m < |a| => LeftLimb(a, k, s, m))
  }

  // The first limbs of the result hold the first limbs of the number, all but what
  // moves on to the next limb.
  lemma {:induction false} LeftPrefix(a: seq<Limb>, k: nat, s: nat, m: nat)
    requires s < 32 && m <= |a|
    ensures m <= k ==> Val(ShiftLeft(a, k, s)[..m]) == 0
    ensures m > k ==>
      Val(ShiftLeft(a, k, s)[..m]) + Base(m) * High(a[m - k - 1], s) == Base(k) * (Pow2(s) * Val(a[..m - k]))
    decreases m
  {
    var r := ShiftLeft(a, k, s);
    if m > 0 {
      LeftPrefix(a, k, s, m - 1);
      ValPrefix(r, m - 1);
      assert r[m - 1] == LeftLimb(a, k, s, m - 1);
      if m > k {
        var i := m - k - 1;
        LowHigh(a[i], s);
        ValPrefix(a, i);
        LeftStep(a, k, s, i, Val(r[..m - 1]));
      }
    }
  }

  lemma {:induction false} LeftStep(a: seq<Limb>, k: nat, s: nat, i: nat, before: nat)
    requires s < 32 && i < |a|
    requires i == 0 ==> before == 0
    requires i > 0 ==> before + Base(i + k) * High(a[i - 1], s) == Base(k) * (Pow2(s) * Val(a[..i]))
    requires a[i] * Pow2(s) == Low(a[i], s) + BASE * High(a[i], s)
    requires Val(a[..i + 1]) == Val(a[..i]) + Base(i) * a[i]
    ensures before + Base(i + k) * (Low(a[i], s) + if i > 0 then High(a[i - 1], s) else 0)
        + Base(i + k + 1) * High(a[i], s)
         == Base(k) * (Pow2(s) * Val(a[..i + 1]))
  {
    hide Low, High, Val, Base, Pow2;
    var low, high, prev := Low(a[i], s), High(a[i], s), if i > 0 then High(a[i - 1], s) else 0;
    var v, p, b := Val(a[..i]), Pow2(s), Base(i + k);
    assert Base(i + k + 1) == BASE * b by { BaseAdd(1, i + k); BaseOne(); }
    assert b == Base(k) * Base(i) by { BaseAdd(k, i); }
    assert i == 0 ==> v == 0 by { ValNone(a); }
    assert before + b * prev == Base(k) * (p * v);
    calc {
      before + b * (low + prev) + BASE * b * high;
      before + b * prev + b * (low + BASE * high);
      Base(k) * (p * v) + (Base(k) * Base(i)) * (a[i] * p);
      Base(k) * (p * (v + Base(i) * a[i]));
    }
  }

  lemma {:induction false} BaseOne()
    ensures Base(1) == BASE
  {
  }

  lemma {:induction false} ValNone(a: seq<Limb>)
    ensures Val(a[..0]) == 0
  {
  }

  // Shifting left multiplies by a power of two, modulo the width.
  lemma {:induction false} ShiftLeftValue(a: seq<Limb>, k: nat, s: nat)
    requires s < 32
    ensures Val(ShiftLeft(a, k, s)) == Val(a) * Pow2(32 * k + s) % Base(|a|)
  {
    var r, w := ShiftLeft(a, k, s), |a|;
    assert r[..w] == r && a[..w] == a;
    LeftPrefix(a, k, s, w);
    assert Pow2(32 * k + s) == Base(k) * Pow2(s) by {
      Pow2Add(32 * k, s);
      BaseIsPow2(k);
    }
    if w <= k {
      BaseAdd(w, k - w);
      LeftFar(Val(a), Base(k), Pow2(s), Base(k - w), Base(w));
    } else {
      ValSplit(a, w - k);
      ValBound(r);
      BaseAdd(k, w - k);
      LeftNear(Base(k), Pow2(s), Val(a[..w - k]), Val(a[w - k..]), Base(w - k), Base(w), Val(r), High(a[w - k - 1], s));
    }
  }

  lemma {:induction false} LeftFar(v: nat, b: nat, p: nat, c: nat, w: nat)
    requires w > 0 && b == w * c
    ensures v * (b * p) % w == 0
  {
    assert v * (b * p) == (v * c * p) * w;
    DivMod(v * (b * p), w, v * c * p, 0);
  }

  lemma {:induction false} LeftNear(b: nat, p: nat, x: nat, y: nat, c: nat, w: nat, r: nat, h: nat)
    requires r < w && b * c == w && r + w * h == b * (p * x)
    ensures (x + c * y) * (b * p) % w == r
  {
    LeftWhole(b, p, x, y, c, w, r, h);
    assert (x + c * y) * (b * p) == b * (p * (x + c * y));
    DivMod((x + c * y) * (b * p), w, h + p * y, r);
  }

  lemma {:induction false} LeftWhole(b: nat, p: nat, x: nat, y: nat, c: nat, w: nat, r: nat, h: nat)
    requires b * c == w && r + w * h == b * (p * x)
    ensures b * (p * (x + c * y)) == (h + p * y) * w + r
  {
    assert b * (p * (x + c * y)) == b * (p * x) + (b * c) * (p * y);
    assert (h + p * y) * w == w * h + w * (p * y);
  }

  /* ---- shifting right ---- */

  function RightHigh(x: Limb, s: nat): Limb { if s == 0 then 0 else x * Pow2(32 - if s < 32 then s else 32) % BASE }

  function RightLow(x: Limb, s: nat): Limb {
    DivSmaller(x, Pow2(s));
    x / Pow2(s)
  }

  lemma {:induction false} RightParts(x: Limb, s: nat)
    requires s < 32
    ensures RightHigh(x, s) == x % Pow2(s) * Pow2(32 - s)
    ensures RightHigh(x, s) % Pow2(32 - s) == 0
    ensures RightLow(x, s) < Pow2(32 - s)
  {
    Factors(s);
    assert Pow2(32 - s) * Pow2(s) == BASE;
    if s == 0 {
      Pow2Limb();
      assert x % 1 == 0;
    } else {
      hide Pow2;
      SplitProduct(x, Pow2(32 - s), Pow2(s));
    }
    hide Pow2;
    MultipleOf(x % Pow2(s), Pow2(32 - s));
    DivLess(x, Pow2(32 - s), Pow2(s));
  }

  // Limb m of the result: limb m+k shifted down, below what comes from the next one.
  function RightLimb(a: seq<Limb>, k: nat, s: nat, m: nat): Limb
    requires s < 32
  {
    if m + k >= |a| then 0
    else if m + k + 1 >= |a| then RightLow(a[m + k], s)
    else
      RightParts(a[m + k], s);
      RightParts(a[m + k + 1], s);
      RightSum(RightHigh(a[m + k + 1], s), RightLow(a[m + k], s), s);
      RightHigh(a[m + k + 1], s) + RightLow(a[m + k], s)
  }

  lemma {:induction false} RightSum(high: Limb, low: Limb, s: nat)
    requires s < 32 && high % Pow2(32 - s) == 0 && low < Pow2(32 - s)
    ensures high + low < BASE
  {
    Factors(s);
    assert Pow2(32 - s) * Pow2(s) == BASE;
    MultipleBelow(high, low, Pow2(32 - s), Pow2(s));
  }

  function ShiftRight(a: seq<Limb>, k: nat, s: nat): seq<Limb>
    requires s < 32
  {
    seq(|a|, m requires 0 <= m < |a| => RightLimb(a, k, s, m))
  }

  lemma {:induction false} RightStep(x: nat, first: nat, rest: nat, p: nat, t: nat)
    requires p > 0 && t > 0 && p * t == BASE
    ensures var r := first + BASE * rest; (x + BASE * r) / p == first % p * t + x / p + BASE * (r / p)
  {
    var r := first + BASE * rest;
    var f := first % p;
    DivMod(r, p, first / p + t * rest, f) by {
      assert BASE * rest == p * t * rest == (t * rest) * p;
      assert (first / p + t * rest) * p == first / p * p + (t * rest) * p;
    }
    var q := r / p;
    assert r == q * p + f;
    assert t * r == t * (q * p) + t * f;
    assert t * (q * p) == (p * t) * q;
    assert BASE * r == (p * t) * r == (t * r) * p;
    DivMod(x + BASE * r, p, x / p + t * r, x % p) by {
      assert (x / p + t * r) * p == x / p * p + (t * r) * p;
    }
  }

  lemma {:induction false} RightSuffix(a: seq<Limb>, k: nat, s: nat, m: nat)
    requires s < 32 && m <= |a|
    ensures Val(ShiftRight(a, k, s)[m..]) == if m + k <= |a| then Val(a[m + k..]) / Pow2(s) else 0
    decreases |a| - m
  {
    var r := ShiftRight(a, k, s);
    if m < |a| {
      RightSuffix(a, k, s, m + 1);
      assert r[m..][0] == RightLimb(a, k, s, m) && r[m..][1..] == r[m + 1..];
      if m + k < |a| {
        var u := a[m + k..];
        assert u[0] == a[m + k] && u[1..] == a[m + k + 1..];
        RightUnfold(u, s, r[m], Val(r[m + 1..]));
      } else if m + k == |a| {
        assert a[m + k..] == [];
        ZeroDiv(Pow2(s));
      }
    } else {
      assert r[m..] == [];
      if k == 0 { assert a[m..] == []; ZeroDiv(Pow2(s)); }
    }
  }

  lemma {:induction false} ZeroDiv(m: nat)
    requires m > 0
    ensures 0 / m == 0
  {
  }

  lemma {:induction false} RightUnfold(u: seq<Limb>, s: nat, limb: Limb, above: nat)
    requires s < 32 && u != []
    requires limb == if |u| == 1 then RightLow(u[0], s) else RightHigh(u[1], s) + RightLow(u[0], s)
    requires above == Val(u[1..]) / Pow2(s)
    ensures limb + BASE * above == Val(u) / Pow2(s)
  {
    hide Pow2, RightHigh, RightLow;
    var rest := u[1..];
    assert Val(u) == u[0] + BASE * Val(rest);
    if |u| == 1 {
      assert Val(rest) == 0;
      LowIs(u[0], s);
      ZeroDiv(Pow2(s));
    } else {
      assert Val(rest) == u[1] + BASE * Val(rest[1..]);
      RightTwo(u[0], u[1], Val(rest[1..]), s, limb, above);
    }
  }

  lemma {:induction false} LowIs(x: Limb, s: nat)
    ensures RightLow(x, s) == x / Pow2(s)
  {
  }

  lemma {:induction false} RightTwo(x: Limb, first: Limb, rest: nat, s: nat, limb: Limb, above: nat)
    requires s < 32 && limb == RightHigh(first, s) + RightLow(x, s) && above == (first + BASE * rest) / Pow2(s)
    ensures limb + BASE * above == (x + BASE * (first + BASE * rest)) / Pow2(s)
  {
    Factors(s);
    RightParts(first, s);
    assert RightLow(x, s) == x / Pow2(s);
    hide RightHigh, RightLow, Pow2;
    RightMore(x, first, rest, Pow2(s), Pow2(32 - s), limb, above);
  }

  lemma {:induction false} RightMore(x: nat, first: nat, rest: nat, p: nat, t: nat, limb: nat, above: nat)
    requires p > 0 && t > 0 && p * t == BASE
    requires limb == first % p * t + x / p && above == (first + BASE * rest) / p
    ensures limb + BASE * above == (x + BASE * (first + BASE * rest)) / p
  {
    RightStep(x, first, rest, p, t);
  }

  // Shifting right divides by a power of two.
  lemma {:induction false} ShiftRightValue(a: seq<Limb>, k: nat, s: nat)
    requires s < 32
    ensures Val(ShiftRight(a, k, s)) == Val(a) / Pow2(32 * k + s)
  {
    var r := ShiftRight(a, k, s);
    RightSuffix(a, k, s, 0);
    assert r[0..] == r;
    assert Pow2(32 * k + s) == Base(k) * Pow2(s) by {
      Pow2Add(32 * k, s);
      BaseIsPow2(k);
    }
    if k <= |a| {
      ValSplit(a, k);
      ValBound(a[..k]);
      RightNear(Val(a), Base(k), Pow2(s), Val(a[k..]), Val(a[..k]));
    } else {
      ValBound(a);
      BaseIsPow2(|a|);
      Pow2Grows(32 * |a|, 32 * k + s);
      DivMod(Val(a), Pow2(32 * k + s), 0, Val(a));
    }
  }

  lemma {:induction false} RightNear(v: nat, b: nat, p: nat, high: nat, low: nat)
    requires b > 0 && p > 0 && v == low + b * high && low < b
    ensures b * p > 0 && v / (b * p) == high / p
  {
    DivMod(v, b, high, low);
    DivDiv(v, b, p);
  }
}
