/** Fixed-width unsigned integers as arrays of 32-bit limbs, updated in place. Every
    operation is arithmetic on the value modulo two to the width. */
module BaseUint {
  import opened Powers
  import opened Limbs
  import opened LimbShifts

  const TWO_64: nat := 0x1_0000_0000_0000_0000

  /* ---- carries ---- */

  // Splitting a limb sum into a limb and a carry keeps the running total.
  lemma {:induction false} CarryStep(v: int, m: nat, carry: nat, total: int, n: nat, d: int)
    requires v + m * carry == total && n == carry + d
    ensures v + m * (n % BASE) + (BASE * m) * (n / BASE) == total + m * d
  {
    var q, r := n / BASE, n % BASE;
    assert n == BASE * q + r;
    assert m * n == (BASE * m) * q + m * r;
    assert m * n == m * carry + m * d;
  }

  // A product of limbs with two limbs added fits 64 bits.
  lemma {:induction false} NoOverflow(x: Limb, y: Limb, c: Limb, p: Limb)
    ensures c + p + x * y < TWO_64
    ensures (c + p + x * y) / BASE < BASE
  {
    assert x * y <= (BASE - 1) * (BASE - 1) by {
      if x < BASE - 1 && y > 0 { MulLess(x, BASE - 1, y); }
      if y < BASE - 1 { MulLess(y, BASE - 1, BASE - 1); }
    }
  }

  // A value and a number of whole widths beside it.
  lemma {:induction false} Wrap(v: nat, q: int, m: nat, total: int)
    requires v < m && v + m * q == total
    ensures total % m == v
  {
    assert m * q == q * m;
    DivMod(total, m, q, v);
  }

  lemma {:induction false} Complement(i: nat, d: Limb)
    ensures Base(i) * (BASE - 1 - d) == Base(i + 1) - Base(i) - Base(i) * d
  {
  }

  class BaseUint {
    const pn: array<Limb>

    ghost function V(): nat
      reads pn
    {
      Val(pn[..])
    }

    ghost function M(): nat { Base(pn.Length) }

    constructor (width: nat)
      ensures fresh(pn) && pn.Length == width && V() == 0
    {
      var p := new Limb[width](_ => 0);
      pn := p;
      new;
      ValZero(pn[..]);
    }

    // operator=
    method Assign(b: BaseUint)
      requires b.pn.Length == pn.Length
      modifies pn
      ensures pn[..] == old(b.pn[..]) && V() == old(b.V())
    {
      for i := 0 to pn.Length
        invariant pn[..i] == old(b.pn[..i]) && b.pn[i..] == old(b.pn[i..])
      {
        pn[i] := b.pn[i];
      }
    }

    method AssignUint64(b: nat)
      requires pn.Length >= 2 && b < TWO_64
      modifies pn
      ensures V() == b
    {
      pn[0] := b % BASE;
      pn[1] := b / BASE;
      for i := 2 to pn.Length
        invariant pn[0] == b % BASE && pn[1] == b / BASE
        invariant forall k :: 2 <= k < i ==> pn[k] == 0
      {
        pn[i] := 0;
      }
      ghost var s := pn[..];
      assert s[1..][1..] == s[2..];
      ValZero(s[2..]);
      assert Val(s[1..]) == s[1] + BASE * Val(s[2..]);
    }

    method Not() returns (ret: BaseUint)
      ensures fresh(ret) && fresh(ret.pn) && ret.pn.Length == pn.Length
      ensures ret.V() == M() - 1 - V()
    {
      ret := new BaseUint(pn.Length);
      for i := 0 to pn.Length
        invariant Val(ret.pn[..i]) == Base(i) - 1 - Val(pn[..i])
      {
        ret.pn[i] := BASE - 1 - pn[i];
        ghost var r, s := ret.pn[..], pn[..];
        assert r[..i] == ret.pn[..i] && s[..i] == pn[..i];
        ValPrefix(r, i);
        ValPrefix(s, i);
        assert r[..i + 1] == ret.pn[..i + 1] && s[..i + 1] == pn[..i + 1];
        Complement(i, pn[i]);
      }
      assert ret.pn[..pn.Length] == ret.pn[..] && pn[..pn.Length] == pn[..];
    }

    // operator++
    method Inc()
      modifies pn
      ensures V() == (old(V()) + 1) % M()
    {
      hide Val, Base;
      ghost var a := pn[..];
      EmptyPrefix(a);
      var i := 0;
      while i < pn.Length
        invariant 0 <= i <= pn.Length
        invariant pn[..][i..] == a[i..]
        invariant Val(a[..i]) + 1 == Base(i) && Val(pn[..][..i]) == 0
      {
        ghost var was := pn[..];
        assert was[i] == was[i..][0] == a[i..][0] == a[i];
        pn[i] := (pn[i] + 1) % BASE;
        Extend(was, pn[..], a, i, pn[i]);
        if pn[i] != 0 {
          assert pn[..][..i] == was[..i];
          IncStops(a, i, pn[..]);
          return;
        }
        BaseNext(i);
        assert Base(i) * (BASE - 1) == BASE * Base(i) - Base(i);
        i := i + 1;
      }
      assert a[..i] == a && pn[..][..i] == pn[..];
      Wrap(0, 1, M(), Val(a) + 1);
    }

    // operator--
    method Dec()
      modifies pn
      ensures V() == (old(V()) - 1) % M()
    {
      hide Val, Base;
      ghost var a := pn[..];
      EmptyPrefix(a);
      var i := 0;
      while i < pn.Length
        invariant 0 <= i <= pn.Length
        invariant pn[..][i..] == a[i..]
        invariant Val(a[..i]) == 0 && Val(pn[..][..i]) == Base(i) - 1
      {
        ghost var was := pn[..];
        assert was[i] == was[i..][0] == a[i..][0] == a[i];
        pn[i] := (pn[i] - 1) % BASE;
        Extend(was, pn[..], a, i, pn[i]);
        if pn[i] != BASE - 1 {
          assert pn[..][..i] == was[..i];
          DecStops(a, i, pn[..]);
          return;
        }
        BaseNext(i);
        assert Base(i) * (BASE - 1) == BASE * Base(i) - Base(i);
        i := i + 1;
      }
      assert a[..i] == a && pn[..][..i] == pn[..];
      Wrap(M() - 1, -1, M(), -1);
    }

    // operator-
    method Neg() returns (ret: BaseUint)
      ensures fresh(ret) && fresh(ret.pn) && ret.pn.Length == pn.Length
      ensures ret.V() == (-(V() as int)) % M()
    {
      hide Val, Base;
      ret := Not();
      ret.Inc();
      ModAdd(-(V() as int), 1, M());
    }

    // operator+=
    method AddAssign(b: BaseUint)
      requires b.pn.Length == pn.Length
      modifies pn
      ensures V() == (old(V()) + old(b.V())) % M()
    {
      hide Val, Base;
      ghost var x, y := pn[..], b.pn[..];
      EmptyPrefix(x);
      EmptyPrefix(y);
      var carry: nat := 0;
      for i := 0 to pn.Length
        invariant carry <= 1
        invariant pn[..][i..] == x[i..] && b.pn[..][i..] == y[i..]
        invariant Val(pn[..][..i]) + Base(i) * carry == Val(x[..i]) + Val(y[..i])
      {
        ghost var was, other := pn[..], b.pn[..];
        assert was[i] == was[i..][0] == x[i..][0] == x[i] && other[i] == other[i..][0] == y[i..][0] == y[i];
        var n: nat := carry + pn[i] as nat + b.pn[i] as nat;
        assert n < TWO_64;
        ghost var xi: int, yi: int := x[i], y[i];
        CarryStep(Val(was[..i]), Base(i), carry, Val(x[..i]) + Val(y[..i]), n, xi + yi);
        pn[i] := n % BASE;
        carry := n / BASE;
        Extend(was, pn[..], x, i, pn[i]);
        ValPrefix(y, i);
        assert b.pn[..][i + 1..] == other[i..][1..] == y[i..][1..] == y[i + 1..];
        assert Base(i) * (xi + yi) == Base(i) * xi + Base(i) * yi;
        BaseNext(i);
      }
      assert pn[..][..pn.Length] == pn[..] && x[..pn.Length] == x && y[..pn.Length] == y;
      ValBound(pn[..]);
      Wrap(V(), carry, M(), Val(x) + Val(y));
    }

    // operator-=
    method SubAssign(b: BaseUint)
      requires b.pn.Length == pn.Length
      modifies pn
      ensures V() == (old(V()) - old(b.V())) % M()
    {
      hide Val, Base;
      var negated := b.Neg();
      ghost var x: int, y: int := V(), b.V();
      AddAssign(negated);
      Negated(x, y, M());
    }

    // operator*= by a limb
    method MulSmall(b32: Limb)
      modifies pn
      ensures V() == old(V()) * b32 % M()
    {
      hide Val, Base;
      ghost var x := pn[..];
      EmptyPrefix(x);
      var carry: nat := 0;
      for i := 0 to pn.Length
        invariant carry < BASE && pn[..][i..] == x[i..]
        invariant Val(pn[..][..i]) + Base(i) * carry == Val(x[..i]) * b32
      {
        ghost var was := pn[..];
        assert was[i] == was[i..][0] == x[i..][0] == x[i];
        NoOverflow(b32, pn[i], carry, 0);
        ghost var d: int := b32 as int * x[i] as int;
        var n: nat := carry + b32 as nat * pn[i] as nat;
        assert n < TWO_64;
        CarryStep(Val(was[..i]), Base(i), carry, Val(x[..i]) * b32, n, d);
        pn[i] := n % BASE;
        carry := n / BASE;
        Extend(was, pn[..], x, i, pn[i]);
        Regroup(Val(x[..i]), Base(i), x[i], b32);
        BaseNext(i);
      }
      assert pn[..][..pn.Length] == pn[..] && x[..pn.Length] == x;
      ValBound(pn[..]);
      Wrap(V(), carry, M(), Val(x) * b32);
    }

    // Adds one limb times the other operand, shifted up by j limbs.
    method AddRow(aj: Limb, b: BaseUint, j: nat) returns (ghost over: nat)
      requires b.pn.Length == pn.Length && j < pn.Length
      modifies pn
      ensures b.pn != pn ==> V() + M() * over == old(V()) + Base(j) * (aj * Val(b.pn[..][..pn.Length - j]))
      ensures b.pn == pn && old(V()) == 0 ==> V() == 0
    {
      hide Val, Base;
      ghost var x, y := pn[..], b.pn[..];
      ghost var allZero := V() == 0;
      ValZero(x);
      EmptyPrefix(y);
      var carry: nat := 0;
      var i := 0;
      while i + j < pn.Length
        invariant 0 <= i <= pn.Length - j && carry < BASE
        invariant b.pn != pn ==> b.pn[..] == y
        invariant b.pn != pn ==> pn[..][i + j..] == x[i + j..]
        invariant b.pn != pn ==>
          Val(pn[..][..i + j]) + Base(i + j) * carry == Val(x[..i + j]) + Base(j) * (aj * Val(y[..i]))
        invariant b.pn == pn && allZero ==> carry == 0 && forall k :: 0 <= k < pn.Length ==> pn[k] == 0
      {
        ghost var was := pn[..];
        ghost var c := carry;
        NoOverflow(aj, b.pn[i], carry, pn[i + j]);
        var n: nat := carry + pn[i + j] as nat + aj as nat * b.pn[i] as nat;
        assert n < TWO_64;
        pn[i + j] := n % BASE;
        carry := n / BASE;
        if b.pn != pn { RowStep(was, pn[..], x, y, i, j, aj, c, n); }
        i := i + 1;
      }
      over := carry;
      ValZero(pn[..]);
      assert pn[..][..pn.Length] == pn[..] && x[..pn.Length] == x;
    }

    // operator*=: the product, unless the operand is the object itself, which the first
    // assignment clears.
    method MulAssign(b: BaseUint)
      requires b.pn.Length == pn.Length >= 2
      modifies pn
      ensures b.pn != pn ==> V() == old(V()) * old(b.V()) % M()
      ensures b.pn == pn ==> V() == 0
    {
      hide Val, Base;
      ghost var x, y := pn[..], b.pn[..];
      var a := new BaseUint(pn.Length);
      a.Assign(this);
      AssignUint64(0);
      EmptyPrefix(x);
      ghost var q: nat := 0;
      for j := 0 to pn.Length
        invariant a.pn[..] == x
        invariant b.pn != pn ==> b.pn[..] == y && V() + M() * q == Val(x[..j]) * Val(y)
        invariant b.pn == pn ==> V() == 0
      {
        ghost var before := V();
        assert a.pn[j] == a.pn[..][j] == x[j];
        ghost var over := AddRow(a.pn[j], b, j);
        if b.pn != pn {
          ghost var high := Val(y[pn.Length - j..]);
          ValPrefix(x, j);
          ValSplit(y, pn.Length - j);
          BaseAdd(j, pn.Length - j);
          RowTotal(before, V(), q, over, Val(x[..j]), x[j], Base(j), Val(y[..pn.Length - j]), high, Base(pn.Length - j),
                   M());
          q := over + q + x[j] * high;
        }
      }
      assert x[..pn.Length] == x;
      ValBound(pn[..]);
      if b.pn != pn { Wrap(V(), q, M(), Val(x) * Val(y)); }
    }

    // CompareTo
    method CompareTo(b: BaseUint) returns (c: int)
      requires b.pn.Length == pn.Length
      ensures c == if V() < b.V() then -1 else if V() > b.V() then 1 else 0
    {
      hide Val, Base;
      var i := pn.Length;
      while i > 0
        invariant 0 <= i <= pn.Length && pn[..][i..] == b.pn[..][i..]
      {
        i := i - 1;
        if pn[i] < b.pn[i] {
          ValLess(pn[..], b.pn[..], i);
          return -1;
        }
        if pn[i] > b.pn[i] {
          ValLess(b.pn[..], pn[..], i);
          return 1;
        }
        assert pn[..][i..] == [pn[i]] + pn[..][i + 1..] && b.pn[..][i..] == [b.pn[i]] + b.pn[..][i + 1..];
      }
      assert pn[..][0..] == pn[..] && b.pn[..][0..] == b.pn[..];
      return 0;
    }

    // EqualTo
    method EqualTo(b: nat) returns (same: bool)
      requires pn.Length >= 2 && b < TWO_64
      ensures same <==> V() == b
    {
      hide Val, Base;
      ghost var s := pn[..];
      LowLimbs(s);
      ValZero(s[2..]);
      var i := pn.Length;
      while i > 2
        invariant 2 <= i <= pn.Length
        invariant forall k :: i <= k < pn.Length ==> pn[k] == 0
      {
        i := i - 1;
        if pn[i] != 0 {
          assert s[2..][i - 2] != 0;
          return false;
        }
      }
      assert forall k :: 0 <= k < |s[2..]| ==> s[2..][k] == 0;
      return pn[1] == b / BASE && pn[0] == b % BASE;
    }

    method GetLow64() returns (low: nat)
      requires pn.Length >= 2
      ensures low == V() % TWO_64
    {
      LowLimbs(pn[..]);
      low := pn[0] as nat + BASE * pn[1] as nat;
      assert BASE * BASE == TWO_64;
      Wrap(low, Val(pn[..][2..]), TWO_64, V());
    }

    // operator<<=
    method ShlAssign(shift: nat)
      modifies pn
      ensures V() == old(V()) * Pow2(shift) % M()
    {
      hide Val, Base, Low, High, Or, Pow2, LeftLimb;
      ghost var x := pn[..];
      var a := new BaseUint(pn.Length);
      a.Assign(this);
      for i := 0 to pn.Length
        invariant a.pn[..] == x && forall m :: 0 <= m < i ==> pn[m] == 0
      {
        pn[i] := 0;
      }
      var k, s := shift / 32, shift % 32;
      for i := 0 to pn.Length
        invariant a.pn[..] == x
        invariant forall m :: 0 <= m < pn.Length ==> pn[m] == LeftSoFar(x, k, s, m, i)
      {
        assert a.pn[i] == x[i];
        if i + k + 1 < pn.Length && s != 0 {
          LeftHigh(x, k, s, i);
          pn[i + k + 1] := Or(pn[i + k + 1], High(a.pn[i], s));
        }
        NoHigh(x[i], s);
        if i + k < pn.Length {
          LeftLow(x, k, s, i);
          pn[i + k] := Or(pn[i + k], Low(a.pn[i], s));
        }
      }
      forall m | 0 <= m < pn.Length ensures pn[m] == LeftLimb(x, k, s, m) {
        LeftDone(x, k, s, m);
      }
      assert pn[..] == ShiftLeft(x, k, s);
      ShiftLeftValue(x, k, s);
      assert shift == 32 * k + s;
    }

    // operator>>=
    method ShrAssign(shift: nat)
      modifies pn
      ensures V() == old(V()) / Pow2(shift)
    {
      hide Val, Base, RightLow, RightHigh, Or, Pow2, RightLimb;
      ghost var x := pn[..];
      var a := new BaseUint(pn.Length);
      a.Assign(this);
      for i := 0 to pn.Length
        invariant a.pn[..] == x && forall m :: 0 <= m < i ==> pn[m] == 0
      {
        pn[i] := 0;
      }
      var k, s := shift / 32, shift % 32;
      for i := 0 to pn.Length
        invariant a.pn[..] == x
        invariant forall m :: 0 <= m < pn.Length ==> pn[m] == RightSoFar(x, k, s, m, i)
      {
        assert a.pn[i] == x[i];
        if i - k - 1 >= 0 && s != 0 {
          RightSecond(x, k, s, i);
          pn[i - k - 1] := Or(pn[i - k - 1], RightHigh(a.pn[i], s));
        }
        NoRightHigh(x[i], s);
        if i - k >= 0 {
          RightFirst(x, k, s, i);
          pn[i - k] := Or(pn[i - k], RightLow(a.pn[i], s));
        }
      }
      forall m | 0 <= m < pn.Length ensures pn[m] == RightLimb(x, k, s, m) {
        RightDone(x, k, s, m);
      }
      assert pn[..] == ShiftRight(x, k, s);
      ShiftRightValue(x, k, s);
      assert shift == 32 * k + s;
    }

    // Position of the highest bit set plus one, or zero.
    method Bits() returns (n: nat)
      ensures HasBits(V(), n) && n <= 32 * pn.Length
    {
      hide Val, Base, Pow2;
      var pos := pn.Length;
      while pos > 0
        invariant 0 <= pos <= pn.Length
        invariant forall k :: pos <= k < pn.Length ==> pn[k] == 0
      {
        pos := pos - 1;
        if pn[pos] != 0 {
          Pow2Limb();
          var nbits := 31;
          while nbits > 0
            invariant 0 <= nbits <= 31 && pn[pos] < Pow2(nbits + 1)
          {
            BitOfTop(pn[pos], nbits);
            if TestBit(pn[pos], nbits) {
              BitsAt(pn[..], pos, nbits);
              return 32 * pos + nbits + 1;
            }
            nbits := nbits - 1;
          }
          Pow2Zero();
          BitsAt(pn[..], pos, 0);
          return 32 * pos + 1;
        }
      }
      ValZero(pn[..]);
      return 0;
    }

    // operator/=: shift and subtract; the quotient replaces the value and num is left
    // with the remainder. Dividing by zero fails after the value was cleared.
    method DivAssign(b: BaseUint) returns (divideByZero: bool, num: BaseUint)
      requires b.pn.Length == pn.Length >= 2
      modifies pn
      ensures divideByZero <==> old(b.V()) == 0
      ensures divideByZero ==> V() == 0
      ensures !divideByZero ==> V() == old(V()) / old(b.V()) && num.V() == old(V()) % old(b.V())
    {
      hide Val, Base, Pow2;
      ghost var N, D := V(), b.V();
      var div := new BaseUint(pn.Length);
      div.Assign(b);
      num := new BaseUint(pn.Length);
      num.Assign(this);
      AssignUint64(0);
      var numBits := num.Bits();
      var divBits := div.Bits();
      divideByZero := false;
      Aligned(N, D, numBits, divBits);
      if divBits == 0 { return true, num; }
      if divBits > numBits { return; }
      var shift := numBits - divBits;
      BaseIsPow2(pn.Length);
      Pow2Grows(numBits, 32 * pn.Length);
      DivMod(D * Pow2(shift), M(), 0, D * Pow2(shift));
      div.ShlAssign(shift);
      ZeroMod(Pow2(shift + 1));
      assert V() * D == 0;
      while shift >= 0
        invariant -1 <= shift < 32 * pn.Length
        invariant fresh(div.pn) && fresh(num.pn) && div.pn != num.pn
        invariant div.pn.Length == num.pn.Length == pn.Length
        invariant Dividing(N, D, V(), num.V(), div.V(), shift)
      {
        DivideStep(num, div, shift, N, D);
        shift := shift - 1;
      }
      Divided(N, D, V(), num.V(), div.V());
    }

    // One bit of the quotient.
    method DivideStep(num: BaseUint, div: BaseUint, shift: nat, ghost N: nat, ghost D: nat)
      requires pn != num.pn && pn != div.pn && num.pn != div.pn && div.pn.Length == num.pn.Length == pn.Length
      requires shift < 32 * pn.Length
      requires Dividing(N, D, V(), num.V(), div.V(), shift)
      modifies pn, num.pn, div.pn
      ensures Dividing(N, D, V(), num.V(), div.V(), shift - 1)
    {
      hide Val, Base, Pow2, Or;
      ghost var q, n := V(), num.V();
      Pow2Next(shift);
      Halves(D, Pow2(shift));
      var c := num.CompareTo(div);
      if c >= 0 {
        ValBound(num.pn[..]);
        DivMod(n - D * Pow2(shift), M(), 0, n - D * Pow2(shift));
        num.SubAssign(div);
        SetQuotientBit(pn[..], shift);
        pn[shift / 32] := Or(pn[shift / 32], Pow2(shift % 32));
        QuotientStep(q, D, Pow2(shift), n, N);
      } else {
        StillMultiple(q, Pow2(shift));
      }
      HalveDivisor(D, shift);
      div.ShrAssign(1);
    }
  }

  // The quotient so far times the divisor, with the remainder so far, is the number; the
  // divisor is still shifted up and the remainder below twice that.
  ghost predicate Dividing(n: nat, d: nat, q: nat, r: nat, div: nat, shift: int) {
    && shift >= -1
    && (shift >= 0 ==> div == d * Pow2(shift))
    && q * d + r == n && r < d * Pow2(shift + 1) && q % Pow2(shift + 1) == 0
  }

  lemma {:induction false} Divided(n: nat, d: nat, q: nat, r: nat, div: nat)
    requires Dividing(n, d, q, r, div, -1)
    ensures d > 0 && n / d == q && n % d == r
  {
    DivMod(n, d, q, r);
  }

  ghost predicate HasBits(v: nat, n: nat) {
    if n == 0 then v == 0 else Pow2(n - 1) <= v < Pow2(n)
  }

  // Shifted so that the top bits align, the divisor fits and is more than half the number.
  lemma {:induction false} Aligned(n: nat, d: nat, nBits: nat, dBits: nat)
    requires HasBits(n, nBits) && HasBits(d, dBits)
    ensures dBits == 0 <==> d == 0
    ensures dBits > nBits ==> n / d == 0 && n % d == n
    ensures 0 < dBits <= nBits ==> d * Pow2(nBits - dBits) < Pow2(nBits) && n < d * Pow2(nBits - dBits + 1)
  {
    if dBits > nBits {
      Pow2Grows(nBits, dBits - 1);
      DivMod(n, d, 0, n);
    } else if dBits > 0 {
      var shift := nBits - dBits;
      Pow2Add(dBits, shift);
      Pow2Add(dBits - 1, shift + 1);
      MulLess(d, Pow2(dBits), Pow2(shift));
      if Pow2(dBits - 1) < d { MulLess(Pow2(dBits - 1), d, Pow2(shift + 1)); }
    }
  }

  lemma {:induction false} Halves(d: nat, p: nat)
    ensures d * (2 * p) == d * p + d * p
  {
  }

  lemma {:induction false} ZeroMod(m: nat)
    requires m > 0
    ensures 0 % m == 0
  {
  }

  lemma {:induction false} HalveDivisor(d: nat, shift: nat)
    ensures shift > 0 ==> d * Pow2(shift) / Pow2(1) == d * Pow2(shift - 1)
  {
    if shift > 0 {
      Halves(d, Pow2(shift - 1));
      assert Pow2(1) == 2;
    }
  }

  // The quotient gains the bit it lacked, and the remainder loses the divisor.
  lemma {:induction false} QuotientStep(q: nat, d: nat, p: nat, n: nat, total: nat)
    requires p > 0 && q % (2 * p) == 0 && q * d + n == total && d * p <= n
    ensures (q + p) * d + (n - d * p) == total
    ensures (q + p) % p == 0
  {
    assert (q + p) * d == q * d + p * d;
    StillMultiple(q, p);
    ModAdd(q, 1, p);
  }

  lemma {:induction false} StillMultiple(q: nat, p: nat)
    requires p > 0 && q % (2 * p) == 0
    ensures q % p == 0
  {
    var c := q / (2 * p);
    assert q == c * (2 * p) == (2 * c) * p;
    DivMod(q, p, 2 * c, 0);
  }

  // Setting a bit below all bits set so far adds its weight.
  lemma {:induction false} SetQuotientBit(s: seq<Limb>, shift: nat)
    requires shift < 32 * |s| && Val(s) % Pow2(shift + 1) == 0
    ensures Or(s[shift / 32], Pow2(shift % 32)) < BASE
    ensures Val(s[shift / 32 := Or(s[shift / 32], Pow2(shift % 32))]) == Val(s) + Pow2(shift)
  {
    hide Val, Base, Pow2, Or;
    var i, t := shift / 32, shift % 32;
    var u, w := Pow2(t + 1), Pow2(31 - t);
    Pow2Add(t + 1, 31 - t);
    Pow2Limb();
    Pow2Next(t);
    BaseIsPow2(i);
    Pow2Add(32 * i, t + 1);
    Pow2Add(32 * i, t);
    ValSplit(s, i + 1);
    ValPrefix(s, i);
    BaseNext(i);
    ValBound(s[..i]);
    LimbMultiple(Val(s[..i]), Base(i), s[i], Val(s[i + 1..]), u, w, Val(s));
    OrDisjoint(s[i], Pow2(t), t + 1);
    MultipleBelow(s[i], Pow2(t), u, w);
    var limb: Limb := s[i] as nat + Pow2(t);
    ValUpdate(s, i, limb);
    assert Base(i) * (s[i] as nat + Pow2(t)) == Base(i) * s[i] as nat + Base(i) * Pow2(t);
  }

  lemma {:induction false} LimbMultiple(low: nat, m: nat, x: nat, rest: nat, u: nat, w: nat, v: nat)
    requires m > 0 && u > 0 && u * w == BASE && low < m
    requires v == low + m * x + (BASE * m) * rest && v % (m * u) == 0
    ensures x % u == 0
  {
    var c := v / (m * u);
    var k := (u * c) - x - BASE * rest;
    assert v == c * (m * u) == (u * c) * m;
    assert (BASE * m) * rest == (BASE * rest) * m;
    assert k * m == (u * c) * m - x * m - (BASE * rest) * m;
    ZeroMultiple(k, m, low);
    assert (c - w * rest) * u == u * c - (u * w) * rest;
    DivMod(x, u, c - w * rest, 0);
  }

  lemma {:induction false} ZeroMultiple(k: int, m: nat, low: nat)
    requires low == k * m && low < m
    ensures k == 0
  {
    DivMod(low, m, k, 0);
    DivMod(low, m, 0, low);
  }

  lemma {:induction false} Pow2Zero()
    ensures Pow2(0) == 1
  {
  }

  // The top bit of a number below a power of two says which half it is in.
  lemma {:induction false} BitOfTop(x: nat, n: nat)
    requires x < Pow2(n + 1)
    ensures TestBit(x, n) <==> Pow2(n) <= x
  {
    hide Pow2;
    Pow2Next(n);
    DivLess(x, 2, Pow2(n));
    DivLess(x, 1, Pow2(n));
  }

  lemma {:induction false} BitsAt(s: seq<Limb>, pos: nat, n: nat)
    requires pos < |s| && n < 32 && Pow2(n) <= s[pos] < Pow2(n + 1)
    requires forall k :: pos < k < |s| ==> s[k] == 0
    ensures HasBits(Val(s), 32 * pos + n + 1)
  {
    hide Val, Base, Pow2;
    ValSplit(s, pos + 1);
    ValPrefix(s, pos);
    ValBound(s[..pos]);
    ValZero(s[pos + 1..]);
    BaseIsPow2(pos);
    Pow2Add(32 * pos, n);
    Pow2Add(32 * pos, n + 1);
    Between(Val(s[..pos]), Base(pos), s[pos], Pow2(n), Pow2(n + 1));
  }

  lemma {:induction false} Between(r: nat, m: nat, x: nat, lo: nat, hi: nat)
    requires r < m && lo <= x < hi
    ensures m * lo <= r + m * x < m * hi
  {
    Below(r, x, hi, m);
    if lo < x { MulLess(lo, x, m); }
    assert m * lo == lo * m && m * x == x * m;
  }

  // What limb m holds once the limbs below i of the operand were or-ed in.
  function RightSoFar(x: seq<Limb>, k: nat, s: nat, m: nat, i: nat): nat
    requires s < 32 && m < |x| && i <= |x|
  {
    (if m + k + 1 < i then RightHigh(x[m + k + 1], s) else 0) + (if m + k < i then RightLow(x[m + k], s) else 0)
  }

  lemma {:induction false} RightDone(x: seq<Limb>, k: nat, s: nat, m: nat)
    requires s < 32 && m < |x|
    ensures RightSoFar(x, k, s, m, |x|) == RightLimb(x, k, s, m)
  {
  }

  lemma {:induction false} NoRightHigh(x: Limb, s: nat)
    ensures s == 0 ==> RightHigh(x, s) == 0
  {
  }

  lemma {:induction false} RightFirst(x: seq<Limb>, k: nat, s: nat, i: nat)
    requires s < 32 && k <= i < |x|
    ensures Or(RightSoFar(x, k, s, i - k, i), RightLow(x[i], s)) == RightLow(x[i], s)
  {
  }

  lemma {:induction false} RightSecond(x: seq<Limb>, k: nat, s: nat, i: nat)
    requires s < 32 && k + 1 <= i < |x|
    ensures Or(RightSoFar(x, k, s, i - k - 1, i), RightHigh(x[i], s)) == RightSoFar(x, k, s, i - k - 1, i + 1) < BASE
  {
    RightParts(x[i], s);
    RightParts(x[i - 1], s);
    OrDisjoint(RightHigh(x[i], s), RightSoFar(x, k, s, i - k - 1, i), 32 - s);
    assert RightSoFar(x, k, s, i - k - 1, i + 1) == RightLimb(x, k, s, i - k - 1);
  }

  // The same for shifting left.
  function LeftSoFar(x: seq<Limb>, k: nat, s: nat, m: nat, i: nat): nat
    requires s < 32 && m < |x| && i <= |x|
  {
    (if m >= k + 1 && m - k - 1 < i then High(x[m - k - 1], s) else 0)
        + (if m >= k && m - k < i then Low(x[m - k], s) else 0)
  }

  lemma {:induction false} NoHigh(x: Limb, s: nat)
    requires s < 32
    ensures s == 0 ==> High(x, s) == 0
  {
  }

  lemma {:induction false} LeftDone(x: seq<Limb>, k: nat, s: nat, m: nat)
    requires s < 32 && m < |x|
    ensures LeftSoFar(x, k, s, m, |x|) == LeftLimb(x, k, s, m)
  {
  }

  lemma {:induction false} LeftHigh(x: seq<Limb>, k: nat, s: nat, i: nat)
    requires s < 32 && i + k + 1 < |x|
    ensures Or(LeftSoFar(x, k, s, i + k + 1, i), High(x[i], s)) == High(x[i], s)
  {
  }

  lemma {:induction false} LeftLow(x: seq<Limb>, k: nat, s: nat, i: nat)
    requires s < 32 && i + k < |x|
    ensures Or(LeftSoFar(x, k, s, i + k, i), Low(x[i], s)) == LeftSoFar(x, k, s, i + k, i + 1) < BASE
  {
    LowHigh(x[i], s);
    if i > 0 { LowHigh(x[i - 1], s); }
    OrDisjoint(Low(x[i], s), LeftSoFar(x, k, s, i + k, i), s);
    assert LeftSoFar(x, k, s, i + k, i + 1) == LeftLimb(x, k, s, i + k);
  }

  lemma {:induction false} RowStep(was: seq<Limb>, now: seq<Limb>, x: seq<Limb>, y: seq<Limb>, i: nat, j: nat, aj: Limb,
                                   carry: nat,
                n: nat)
    requires |was| == |now| == |x| == |y| && i + j < |x|
    requires was[i + j..] == x[i + j..] && now == was[i + j := n % BASE]
    requires n == carry + was[i + j] as nat + aj as nat * y[i] as nat
    requires Val(was[..i + j]) + Base(i + j) * carry == Val(x[..i + j]) + Base(j) * (aj * Val(y[..i]))
    ensures now[i + j + 1..] == x[i + j + 1..]
    ensures Val(now[..i + j + 1]) + Base(i + j + 1) * (n / BASE)
         == Val(x[..i + j + 1]) + Base(j) * (aj * Val(y[..i + 1]))
  {
    hide Val, Base;
    assert was[i + j] == was[i + j..][0] == x[i + j..][0] == x[i + j];
    Extend(was, now, x, i + j, n % BASE);
    ValPrefix(y, i);
    BaseNext(i + j);
    BaseAdd(j, i);
    var total := Val(x[..i + j]) + Base(j) * (aj * Val(y[..i]));
    var xi: int, yi: int := x[i + j], y[i];
    CarryStep(Val(was[..i + j]), Base(i + j), carry, total, n, xi + aj as int * yi);
    RowRegroup(Base(j), Base(i), aj, Val(y[..i]), yi, xi);
  }

  lemma {:induction false} RowRegroup(bj: nat, bi: nat, aj: nat, v: nat, y: int, x: int)
    ensures bj * (aj * v) + (bj * bi) * (x + aj * y) == (bj * bi) * x + bj * (aj * (v + bi * y))
  {
    assert bj * (aj * (v + bi * y)) == bj * (aj * v) + (bj * bi) * (aj * y);
  }

  lemma {:induction false} RowTotal(before: nat, after: nat, q: nat, over: nat, xj: nat, aj: nat, bj: nat, low: nat,
                                    high: nat, c: nat,
                 m: nat)
    requires before + m * q == xj * (low + c * high) && bj * c == m
    requires after + m * over == before + bj * (aj * low)
    ensures after + m * (over + q + aj * high) == (xj + bj * aj) * (low + c * high)
  {
    assert (xj + bj * aj) * (low + c * high) == xj * (low + c * high) + bj * (aj * low) + (bj * c) * (aj * high);
    assert m * (over + q + aj * high) == m * over + m * q + m * (aj * high);
  }

  lemma {:induction false} LowLimbs(s: seq<Limb>)
    requires |s| >= 2
    ensures Val(s) == s[0] as nat + BASE * s[1] as nat + BASE * BASE * Val(s[2..])
  {
    assert s[1..][1..] == s[2..];
    assert Val(s[1..]) == s[1] as nat + BASE * Val(s[2..]);
  }

  lemma {:induction false} EmptyPrefix(a: seq<Limb>)
    ensures Val(a[..0]) == 0 && Base(0) == 1
  {
  }

  lemma {:induction false} BaseNext(i: nat)
    ensures Base(i + 1) == BASE * Base(i)
  {
  }

  lemma {:induction false} Negated(x: int, y: int, m: nat)
    requires m > 0
    ensures (x + (-y) % m) % m == (x - y) % m
  {
    var q := (-y) / m;
    assert (-y) % m == -y - q * m;
    assert x + (-y) % m == (x - y) + (-q) * m;
    ModAdd(x - y, -q, m);
  }

  lemma {:induction false} Regroup(v: nat, m: nat, x: nat, b: nat)
    ensures (v + m * x) * b == v * b + m * (b * x)
  {
    assert (v + m * x) * b == v * b + (m * x) * b;
    assert (m * x) * b == m * (b * x);
  }

  // Numbers that agree from limb i+1 on differ by what their lower limbs differ.
  lemma {:induction false} SameAbove(a: seq<Limb>, s: seq<Limb>, i: nat)
    requires |s| == |a| && i < |a| && s[i + 1..] == a[i + 1..]
    ensures Val(s) - Val(a) == Val(s[..i]) - Val(a[..i]) + Base(i) * s[i] - Base(i) * a[i]
  {
    hide Val, Base;
    ValSplit(a, i + 1);
    ValSplit(s, i + 1);
    ValPrefix(a, i);
    ValPrefix(s, i);
  }

  lemma {:induction false} DecStops(a: seq<Limb>, i: nat, s: seq<Limb>)
    requires |s| == |a| && i < |a| && a[i] > 0 && s[i] == a[i] - 1 && s[i + 1..] == a[i + 1..]
    requires Val(a[..i]) == 0 && Val(s[..i]) == Base(i) - 1
    ensures Val(s) == (Val(a) - 1) % Base(|a|)
  {
    hide Val, Base;
    SameAbove(a, s, i);
    assert Base(i) * (a[i] - 1) == Base(i) * a[i] - Base(i);
    ValBound(s);
    Wrap(Val(s), 0, Base(|a|), Val(a) - 1);
  }

  lemma {:induction false} IncStops(a: seq<Limb>, i: nat, s: seq<Limb>)
    requires |s| == |a| && i < |a| && a[i] + 1 < BASE && s[i] == a[i] + 1 && s[i + 1..] == a[i + 1..]
    requires Val(a[..i]) + 1 == Base(i) && Val(s[..i]) == 0
    ensures Val(s) == (Val(a) + 1) % Base(|a|)
  {
    hide Val, Base;
    SameAbove(a, s, i);
    assert Base(i) * (a[i] + 1) == Base(i) * a[i] + Base(i);
    ValBound(s);
    Wrap(Val(s), 0, Base(|a|), Val(a) + 1);
  }

  // One more limb written, one more limb of the operand read.
  lemma {:induction false} Extend(was: seq<Limb>, now: seq<Limb>, x: seq<Limb>, i: nat, limb: Limb)
    requires |was| == |now| == |x| && i < |x| && now == was[i := limb] && was[i..] == x[i..]
    ensures Val(now[..i + 1]) == Val(was[..i]) + Base(i) * limb
    ensures Val(x[..i + 1]) == Val(x[..i]) + Base(i) * x[i]
    ensures now[i + 1..] == x[i + 1..]
  {
    ValPrefix(now, i);
    ValPrefix(x, i);
    assert now[..i] == was[..i];
    assert now[i + 1..] == was[i..][1..] && x[i + 1..] == x[i..][1..];
  }
}
