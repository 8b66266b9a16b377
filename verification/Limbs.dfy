/** Numbers as sequences of 32-bit limbs, least significant first: their values, and what
    the bit operations of the limb code do to them. */
module Limbs {
  import opened Powers

  const BASE: nat := 0x1_0000_0000

  type Limb = x: nat | x < BASE

  function Base(i: nat): (r: nat)
    ensures r >= 1
  {
    if i == 0 then 1 else BASE * Base(i - 1)
  }

  lemma {:induction false} BaseIsPow2(i: nat)
    ensures Base(i) == Pow2(32 * i)
  {
    if i > 0 {
      BaseIsPow2(i - 1);
      Pow2Add(32, 32 * (i - 1));
      Pow2Limb();
    }
  }

  lemma {:induction false} Pow2Limb()
    ensures Pow2(32) == BASE
  {
    assert Pow2(8) == 256;
    Pow2Add(8, 8);
    assert Pow2(16) == 65536;
    Pow2Add(16, 16);
  }

  lemma {:induction false} BaseAdd(a: nat, b: nat)
    ensures Base(a + b) == Base(a) * Base(b)
  {
    BaseIsPow2(a);
    BaseIsPow2(b);
    BaseIsPow2(a + b);
    Pow2Add(32 * a, 32 * b);
  }

  /* ---- values ---- */

  function Val(s: seq<Limb>): nat {
    if s == [] then 0 else s[0] + BASE * Val(s[1..])
  }

  lemma {:induction false} ValConcat(a: seq<Limb>, b: seq<Limb>)
    ensures Val(a + b) == Val(a) + Base(|a|) * Val(b)
  {
    if a == [] {
      assert a + b == b;
    } else {
      assert (a + b)[1..] == a[1..] + b;
      ValConcat(a[1..], b);
      assert BASE * (Base(|a| - 1) * Val(b)) == Base(|a|) * Val(b);
    }
  }

  lemma {:induction false} ValSnoc(s: seq<Limb>, x: Limb)
    ensures Val(s + [x]) == Val(s) + Base(|s|) * x
  {
    ValConcat(s, [x]);
    assert Val([x]) == x;
  }

  // One more limb of a longer number.
  lemma {:induction false} ValPrefix(s: seq<Limb>, i: nat)
    requires i < |s|
    ensures Val(s[..i + 1]) == Val(s[..i]) + Base(i) * s[i]
  {
    assert s[..i + 1] == s[..i] + [s[i]];
    ValSnoc(s[..i], s[i]);
  }

  lemma {:induction false} ValSplit(s: seq<Limb>, i: nat)
    requires i <= |s|
    ensures Val(s) == Val(s[..i]) + Base(i) * Val(s[i..])
  {
    assert s == s[..i] + s[i..];
    ValConcat(s[..i], s[i..]);
  }

  lemma {:induction false} ValBound(s: seq<Limb>)
    ensures Val(s) < Base(|s|)
  {
    if s != [] {
      ValBound(s[1..]);
    }
  }

  lemma {:induction false} ValUpdate(s: seq<Limb>, i: nat, x: Limb)
    requires i < |s|
    ensures Val(s[i := x]) == Val(s) + Base(i) * x - Base(i) * s[i]
  {
    var t := s[i := x];
    ValSplit(s, i + 1);
    ValSplit(t, i + 1);
    assert t[i + 1..] == s[i + 1..] && t[..i] == s[..i];
    ValPrefix(s, i);
    ValPrefix(t, i);
  }

  lemma {:induction false} ValZero(s: seq<Limb>)
    ensures Val(s) == 0 <==> forall i :: 0 <= i < |s| ==> s[i] == 0
  {
    if s != [] {
      ValZero(s[1..]);
      if Val(s) == 0 {
        forall i | 0 <= i < |s| ensures s[i] == 0 {
          if i > 0 { assert s[i] == s[1..][i - 1]; }
        }
      } else if s[0] == 0 {
        var i :| 0 <= i < |s[1..]| && s[1..][i] != 0;
        assert s[i + 1] != 0;
      }
    }
  }

  lemma {:induction false} Below(r: nat, x: nat, y: nat, m: nat)
    requires r < m && x < y
    ensures r + m * x < m * y
  {
    MulLess(x, y, m);
    assert (x + 1) * m == m * x + m;
  }

  // The highest limb that differs decides.
  lemma {:induction false} ValLess(a: seq<Limb>, b: seq<Limb>, i: nat)
    requires |a| == |b| && i < |a| && a[i] < b[i] && a[i + 1..] == b[i + 1..]
    ensures Val(a) < Val(b)
  {
    ValSplit(a, i + 1);
    ValSplit(b, i + 1);
    ValPrefix(a, i);
    ValPrefix(b, i);
    ValBound(a[..i]);
    Below(Val(a[..i]), a[i], b[i], Base(i));
  }

  /* ---- bits ---- */

  // Bitwise or, bit by bit.
  function Or(x: nat, y: nat): nat
    decreases x + y
  {
    if x == 0 then y else if y == 0 then x
    else (if x % 2 == 1 || y % 2 == 1 then 1 else 0) + 2 * Or(x / 2, y / 2)
  }

  // Where one has its bits above and the other below, or-ing adds.
  lemma {:induction false} OrDisjoint(x: nat, y: nat, s: nat)
    requires x % Pow2(s) == 0 && y < Pow2(s)
    ensures Or(x, y) == x + y && Or(y, x) == x + y
    decreases s
  {
    if s > 0 && x > 0 && y > 0 {
      var m := Pow2(s - 1);
      var q := x / Pow2(s);
      assert x == q * (2 * m) == 2 * (q * m);
      DivMod(x / 2, m, q, 0);
      OrDisjoint(x / 2, y / 2, s - 1);
    }
  }

  predicate TestBit(x: nat, n: nat) { x / Pow2(n) % 2 == 1 }
}
