/** The compact form of proof-of-work targets, 32 bits for a 256-bit number, and the work
    a target stands for. */
module Compact {
  import opened Powers
  import opened Limbs
  import opened BaseUint

  const TWO_23 := 0x80_0000
  const TWO_24 := 0x100_0000

  /* ---- decoding ---- */

  function Quotient(x: nat, d: nat): nat
    requires d > 0
  {
    DivSmaller(x, d);
    x / d
  }

  function Product(x: nat, y: nat): nat { x * y }

  function Exponent(c: nat): nat { c / TWO_24 }
  function Word(c: nat): nat { c % TWO_23 }
  predicate SignBit(c: nat) { c / TWO_23 % 2 == 1 }

  // The mantissa once its low bytes were shifted out for small exponents.
  function Mantissa(c: nat): nat {
    if Exponent(c) <= 3 then Quotient(Word(c), Pow2(8 * (3 - Exponent(c)))) else Word(c)
  }

  // The number the compact form stands for, sign aside: mantissa * 256^(exponent - 3).
  function Meaning(c: nat): nat {
    if Exponent(c) <= 3 then Mantissa(c) else Product(Word(c), Pow2(8 * (Exponent(c) - 3)))
  }

  predicate IsNegative(c: nat) { Mantissa(c) != 0 && SignBit(c) }

  predicate Overflows(c: nat) {
    Mantissa(c) != 0 &&
    (Exponent(c) > 34 || (Mantissa(c) > 0xff && Exponent(c) > 33) || (Mantissa(c) > 0xffff && Exponent(c) > 32))
  }

  lemma {:induction false} Pow2Bytes()
    ensures Pow2(0) == 1 && Pow2(8) == 0x100 && Pow2(16) == 0x1_0000 && Pow2(23) == TWO_23 && Pow2(24) == TWO_24
  {
    Pow2Add(8, 8);
    assert Pow2(7) == 128;
    Pow2Add(16, 7);
    Pow2Add(16, 8);
  }

  // The compact form is a byte for the exponent, a bit for the sign and 23 bits.
  lemma {:induction false} FieldsOf(c: nat)
    requires c < 0x1_0000_0000
    ensures Exponent(c) < 256 && Word(c) < 8_388_608
    ensures c == Exponent(c) * 16_777_216 + (if SignBit(c) then 8_388_608 else 0) + Word(c)
  {
  }

  // It stands for word * 256^(exponent - 3), rounded down, and is negative when that is not zero
  // and the sign is set.
  lemma {:induction false} MeaningIs(c: nat)
    ensures Meaning(c) == Word(c) * Pow2(8 * Exponent(c)) / Pow2(24)
    ensures IsNegative(c) <==> SignBit(c) && Meaning(c) != 0
  {
    hide Pow2;
    var w, e := Word(c), Exponent(c);
    if e <= 3 {
      Pow2Add(8 * e, 8 * (3 - e));
      CancelFactor(w, Pow2(8 * e), Pow2(8 * (3 - e)));
    } else {
      var k := Pow2(8 * (e - 3));
      Pow2Add(8 * (e - 3), 24);
      assert w * (k * Pow2(24)) == (w * k) * Pow2(24);
      DivMod(w * Pow2(8 * e), Pow2(24), w * k, 0);
      if w > 0 { MulAtLeast(w, k); }
    }
  }

  lemma {:induction false} CancelFactor(w: nat, a: nat, b: nat)
    requires a > 0 && b > 0
    ensures a * b > 0 && w * a / (a * b) == w / b
  {
    var q, r := w / b, w % b;
    assert w == q * b + r;
    assert w * a == q * (a * b) + r * a by { assert (q * b + r) * a == q * (a * b) + r * a; }
    MulLess(r, b, a);
    assert r * a < a * b;
    DivMod(w * a, a * b, q, r * a);
  }

  // The overflow flag is set exactly when the number does not fit 256 bits.
  lemma {:induction false} OverflowExact(c: nat)
    ensures Overflows(c) <==> Meaning(c) >= Pow2(256)
  {
    Pow2Bytes();
    hide Pow2;
    var w, e := Word(c), Exponent(c);
    if e <= 3 {
      DivSmaller(w, Pow2(8 * (3 - e)));
      Pow2Grows(23, 256);
    } else if e <= 32 {
      Pow2Grows(8 * (e - 3), 232);
      Pow2Add(24, 232);
      ProductBelow(w, Pow2(8 * (e - 3)), TWO_24, Pow2(232));
    } else if e <= 34 {
      var k := 8 * (e - 3);
      Pow2Add(256 - k, k);
      MulCompare(w, Pow2(256 - k), Pow2(k));
    } else {
      Pow2Grows(256, 8 * (e - 3));
      if w > 0 { MulAtLeast(w, Pow2(8 * (e - 3))); }
    }
  }

  lemma {:induction false} ProductBelow(a: nat, b: nat, c: nat, d: nat)
    requires a < c && b <= d && d > 0
    ensures a * b < c * d
  {
    if b < d && a > 0 { MulLess(b, d, a); }
    MulLess(a, c, d);
    assert a * b == b * a && a * d == d * a;
  }

  lemma {:induction false} MulCompare(a: nat, b: nat, m: nat)
    requires m > 0
    ensures a * m >= b * m <==> a >= b
  {
    if a < b { MulLess(a, b, m); } else if b < a { MulLess(b, a, m); }
  }

  /* ---- encoding ---- */

  function BitLength(v: nat): nat { if v == 0 then 0 else 1 + BitLength(v / 2) }

  lemma {:induction false} BitLengthIs(v: nat)
    ensures HasBits(v, BitLength(v))
  {
    if v > 0 { BitLengthIs(v / 2); }
  }

  lemma {:induction false} BitsUnique(v: nat, m: nat, n: nat)
    requires HasBits(v, m) && HasBits(v, n)
    ensures m == n
  {
    if m > 0 && n > 0 {
      Pow2Strict(m - 1, n);
      Pow2Strict(n - 1, m);
    }
  }

  // Number of bytes.
  function Size(v: nat): nat { (BitLength(v) + 7) / 8 }

  // The top three bytes.
  function Top(v: nat): nat { Scaled(v, Size(v)) }

  // Where the top bit would read as a sign, one byte fewer is kept.
  function KeptSize(v: nat): nat { if Top(v) >= TWO_23 then Size(v) + 1 else Size(v) }
  function Kept(v: nat): nat { if Top(v) >= TWO_23 then Top(v) / 256 else Top(v) }

  function Encode(v: nat, negative: bool): nat {
    Kept(v) + KeptSize(v) * TWO_24 + if negative && Kept(v) != 0 then TWO_23 else 0
  }

  lemma {:induction false} TopBytes(v: nat)
    ensures Top(v) < TWO_24
    ensures v > 0 ==> Top(v) >= 0x1_0000
    ensures v == 0 ==> Top(v) == 0
  {
    hide Pow2, BitLength;
    Pow2Bytes();
    BitLengthIs(v);
    ZeroLength(v);
    var n, s := BitLength(v), Size(v);
    if v > 0 {
      Pow2Grows(n, 8 * s);
      Pow2Grows(8 * (s - 1), n - 1);
      if s <= 3 {
        var k := 8 * (3 - s);
        Pow2Add(8 * s, k);
        Pow2Add(8 * (s - 1), k);
        MulLess(v, Pow2(8 * s), Pow2(k));
        MulCompare(v, Pow2(8 * (s - 1)), Pow2(k));
      } else {
        var k := 8 * (s - 3);
        Pow2Add(24, k);
        Pow2Add(16, k);
        DivLess(v, TWO_24, Pow2(k));
        DivLess(v, 0x1_0000, Pow2(k));
      }
    }
  }

  lemma {:induction false} ZeroLength(v: nat)
    ensures v == 0 <==> BitLength(v) == 0
  {
  }

  lemma {:induction false} KeptFits(v: nat)
    ensures Kept(v) < TWO_23 && (v > 0 ==> Kept(v) > 0)
  {
    TopBytes(v);
  }

  // What is kept of a number, as a multiple of a whole number of bytes.
  function Scaled(v: nat, e: nat): nat {
    if e <= 3 then Product(v, Pow2(8 * (3 - e))) else Quotient(v, Pow2(8 * (e - 3)))
  }

  lemma {:induction false} KeptIsScaled(v: nat)
    ensures Kept(v) == Scaled(v, KeptSize(v))
  {
    Pow2Bytes();
    var s := Size(v);
    if Top(v) >= TWO_23 {
      if s <= 2 {
        Pow2Add(8 * (2 - s), 8);
        var p := Pow2(8 * (2 - s));
        assert v * (p * 256) == (v * p) * 256;
        MultipleOf(v * p, 256);
      } else if s == 3 {
        assert Top(v) == v;
      } else {
        Pow2Add(8 * (s - 3), 8);
        DivDiv(v, Pow2(8 * (s - 3)), 256);
      }
    }
  }

  lemma {:induction false} DivMul(v: nat, d: nat)
    requires d > 0
    ensures 0 <= v / d * d <= v
  {
    assert v == v / d * d + v % d;
    MulCompare(v / d, 0, d);
  }

  // Bytes below the kept ones.
  function Dropped(v: nat): (r: nat)
    ensures r >= 1
  {
    if KeptSize(v) <= 3 then 1 else Pow2(8 * (KeptSize(v) - 3))
  }

  // The number with its low bytes cleared.
  function Cleared(v: nat): (r: nat) {
    DivMul(v, Dropped(v));
    v / Dropped(v) * Dropped(v)
  }

  lemma {:induction false} EncodeParts(v: nat, negative: bool)
    ensures Exponent(Encode(v, negative)) == KeptSize(v) && Word(Encode(v, negative)) == Kept(v)
    ensures SignBit(Encode(v, negative)) <==> negative && Kept(v) != 0
  {
    hide Kept, KeptSize;
    KeptFits(v);
    var m, k, s := Kept(v), KeptSize(v), if negative && Kept(v) != 0 then 1 else 0;
    DivMod(Encode(v, negative), TWO_24, k, m + s * TWO_23);
    DivMod(Encode(v, negative), TWO_23, 2 * k + s, m);
  }

  // Decoding an encoded number gives it back with only its low bytes cleared.
  lemma {:induction false} DecodeEncode(v: nat, negative: bool)
    requires v < Pow2(256)
    ensures Meaning(Encode(v, negative)) == Cleared(v) <= v
    ensures !Overflows(Encode(v, negative)) && Encode(v, negative) < BASE
    ensures IsNegative(Encode(v, negative)) <==> negative && v != 0
  {
    EncodeParts(v, negative);
    KeptIsScaled(v);
    KeptFits(v);
    MeaningOfKept(v, negative);
    OverflowExact(Encode(v, negative));
    SizeFits(v);
  }

  lemma {:induction false} SizeFits(v: nat)
    requires v < Pow2(256)
    ensures KeptSize(v) <= 33
  {
    BitLengthIs(v);
    hide Pow2;
    if v > 0 { Pow2Strict(BitLength(v) - 1, 256); }
  }

  lemma {:induction false} MeaningOfKept(v: nat, negative: bool)
    requires Exponent(Encode(v, negative)) == KeptSize(v)
    requires Word(Encode(v, negative)) == Kept(v) == Scaled(v, KeptSize(v))
    ensures Meaning(Encode(v, negative)) == Cleared(v) <= v
    ensures Mantissa(Encode(v, negative)) == 0 <==> Kept(v) == 0
  {
    hide Encode, Kept, KeptSize, Pow2;
    var e := KeptSize(v);
    if e <= 3 {
      var p := Pow2(8 * (3 - e));
      MultipleOf(v, p);
      if v == 0 { assert v * p == 0; } else { MulAtLeast(v, p); }
    } else {
      var p := Pow2(8 * (e - 3));
      assert v == v / p * p + v % p;
    }
  }

  // Clearing bits below the highest one keeps the length.
  lemma {:induction false} SameLength(v: nat, k: nat)
    requires v / Pow2(k) > 0
    ensures v / Pow2(k) * Pow2(k) > 0 && BitLength(v / Pow2(k) * Pow2(k)) == BitLength(v)
  {
    hide Pow2, BitLength;
    BitLengthIs(v);
    var n, p := BitLength(v), Pow2(k);
    var w := v / p * p;
    DivLess(v, 1, p);
    Pow2Strict(k, n);
    Pow2Add(n - 1 - k, k);
    DivLess(v, Pow2(n - 1 - k), p);
    MulCompare(v / p, Pow2(n - 1 - k), p);
    assert v == w + v % p;
    BitLengthIs(w);
    BitsUnique(w, BitLength(w), n);
  }

  // What was decoded encodes to the same form again.
  lemma {:induction false} EncodeIsFixedPoint(v: nat, negative: bool)
    requires v < Pow2(256)
    ensures Encode(Meaning(Encode(v, negative)), negative) == Encode(v, negative)
  {
    DecodeEncode(v, negative);
    if KeptSize(v) > 3 {
      KeptAgain(v);
    } else {
      hide Meaning, KeptSize, Kept;
      assert Cleared(v) == v;
    }
  }

  lemma {:induction false} KeptAgain(v: nat)
    requires KeptSize(v) > 3
    ensures Kept(Cleared(v)) == Kept(v) && KeptSize(Cleared(v)) == KeptSize(v)
  {
    ZeroKept(v);
    KeptFits(v);
    KeptIsScaled(v);
    var k := 8 * (KeptSize(v) - 3);
    SameLength(v, k);
    assert Size(Cleared(v)) == Size(v);
    if KeptSize(v) == Size(v) {
      AgainSame(v, Cleared(v));
    } else {
      AgainFewer(v, Cleared(v));
    }
  }

  lemma {:induction false} AgainSame(v: nat, w: nat)
    requires Size(w) == Size(v) == KeptSize(v) > 3 && w == v / Pow2(8 * (Size(v) - 3)) * Pow2(8 * (Size(v) - 3))
    ensures Kept(w) == Kept(v) && KeptSize(w) == KeptSize(v)
  {
    TopSame(v, Size(v), 8 * (Size(v) - 3));
    hide Size, Pow2;
    assert Top(w) == Top(v);
  }

  lemma {:induction false} AgainFewer(v: nat, w: nat)
    requires Size(w) == Size(v) && KeptSize(v) == Size(v) + 1 > 3 && Kept(v) == v / Pow2(8 * (Size(v) - 2))
    requires w == v / Pow2(8 * (Size(v) - 2)) * Pow2(8 * (Size(v) - 2))
    ensures Kept(w) == Kept(v) && KeptSize(w) == KeptSize(v)
  {
    TopFewer(v, Size(v), 8 * (Size(v) - 2));
    Pow2Bytes();
    hide Size, Pow2;
    assert Top(w) == Kept(v) * 256;
  }

  lemma {:induction false} TopSame(v: nat, s: nat, k: nat)
    requires k == 8 * (s - 3)
    ensures v / Pow2(k) * Pow2(k) / Pow2(k) == v / Pow2(k)
  {
    hide Pow2;
    MultipleOf(v / Pow2(k), Pow2(k));
  }

  // One byte fewer is kept: the top three bytes lose their lowest.
  lemma {:induction false} TopFewer(v: nat, s: nat, k: nat)
    requires s >= 3 && k == 8 * (s - 2)
    ensures v / Pow2(k) * Pow2(k) / Pow2(8 * (s - 3)) == v / Pow2(k) * 256
    ensures s == 3 ==> v / Pow2(k) * Pow2(k) == v / Pow2(k) * 256
  {
    Pow2Bytes();
    Pow2Add(8 * (s - 3), 8);
    hide Pow2;
    Fewer(v / Pow2(k), Pow2(8 * (s - 3)), Pow2(k));
  }

  lemma {:induction false} Fewer(x: nat, q: nat, p: nat)
    requires q > 0 && p == q * 256
    ensures x * p / q == x * 256
  {
    assert x * (q * 256) == (x * 256) * q;
    MultipleOf(x * 256, q);
  }

  lemma {:induction false} ZeroKept(v: nat)
    requires KeptSize(v) > 3
    ensures v > 0
  {
  }

  /* ---- on 256-bit integers ---- */

  const WIDTH := 8

  lemma {:induction false} WidthIs256()
    ensures Base(WIDTH) == Pow2(256)
  {
    BaseIsPow2(WIDTH);
  }

  method SetCompact(target: BaseUint, nCompact: nat) returns (fNegative: bool, fOverflow: bool)
    requires target.pn.Length == WIDTH && nCompact < BASE
    modifies target.pn
    ensures target.V() == Meaning(nCompact) % Pow2(256)
    ensures fNegative <==> IsNegative(nCompact)
    ensures fOverflow <==> Overflows(nCompact)
  {
    hide Val, Base, Pow2;
    WidthIs256();
    var nSize := nCompact / TWO_24;
    var nWord := nCompact % TWO_23;
    if nSize <= 3 {
      DivSmaller(nWord, Pow2(8 * (3 - nSize)));
      nWord := nWord / Pow2(8 * (3 - nSize));
      target.AssignUint64(nWord);
      SmallFits(nWord);
    } else {
      target.AssignUint64(nWord);
      target.ShlAssign(8 * (nSize - 3));
    }
    fNegative := nWord != 0 && nCompact / TWO_23 % 2 == 1;
    fOverflow := nWord != 0 && (nSize > 34 || (nWord > 0xff && nSize > 33) || (nWord > 0xffff && nSize > 32));
  }

  lemma {:induction false} SmallFits(w: nat)
    requires w < TWO_23
    ensures w % Pow2(256) == w
  {
    Pow2Bytes();
    hide Pow2;
    Pow2Grows(23, 256);
    DivMod(w, Pow2(256), 0, w);
  }

  method GetCompact(v: BaseUint, fNegative: bool) returns (nCompact: nat)
    requires v.pn.Length == WIDTH
    ensures nCompact == Encode(v.V(), fNegative) && nCompact < BASE
  {
    hide Val, Base, Pow2, Top, Size, BitLength;
    WidthIs256();
    ValBound(v.pn[..]);
    ghost var value := v.V();
    var nSize;
    nSize, nCompact := TopThreeBytes(v);
    TopBytes(value);
    if nCompact / TWO_23 % 2 == 1 {
      nCompact := nCompact / 256;
      nSize := nSize + 1;
    }
    assert nCompact == Kept(value) && nSize == KeptSize(value);
    KeptFits(value);
    SizeFits(value);
    DecodeEncode(value, fNegative);
    assert nCompact < TWO_23 && nSize < 256;
    nCompact := nCompact + nSize * TWO_24 + if fNegative && nCompact != 0 then TWO_23 else 0;
  }

  method TopThreeBytes(v: BaseUint) returns (nSize: nat, top: nat)
    requires v.pn.Length == WIDTH
    ensures nSize == Size(v.V()) && top == Top(v.V())
  {
    hide Val, Base, Pow2, BitLength, Top;
    ghost var value := v.V();
    var bits := v.Bits();
    BitLengthIs(value);
    BitsUnique(value, bits, BitLength(value));
    nSize := (bits + 7) / 8;
    TopIs(value, nSize);
    if nSize <= 3 {
      var low := v.GetLow64();
      top := Product(low, Pow2(8 * (3 - nSize))) % TWO_64 % BASE;
    } else {
      var bn := new BaseUint(WIDTH);
      bn.Assign(v);
      bn.ShrAssign(8 * (nSize - 3));
      var low := bn.GetLow64();
      top := low % BASE;
    }
  }

  // The top three bytes survive the 64- and 32-bit truncations.
  lemma {:induction false} TopIs(v: nat, size: nat)
    requires size == Size(v)
    ensures size <= 3 ==> Product(v % TWO_64, Pow2(8 * (3 - size))) % TWO_64 % BASE == Top(v)
    ensures size > 3 ==> Quotient(v, Pow2(8 * (size - 3))) % TWO_64 % BASE == Top(v)
  {
    hide Pow2, Product, Quotient, BitLength;
    TopBytes(v);
    if size <= 3 {
      ShortValue(v, size);
      assert v % TWO_64 == v;
    }
  }

  lemma {:induction false} ShortValue(v: nat, size: nat)
    requires size == Size(v) <= 3
    ensures v < TWO_64
  {
    BitLengthIs(v);
    Pow2Bytes();
    hide Pow2;
    Pow2Grows(BitLength(v), 24);
  }

  /* ---- work ---- */

  // The work of a target that is not zero is 2^256 / (target + 1), rounded down.
  lemma {:induction false} WorkOfTarget(target: nat, m: nat)
    requires target + 1 < m
    ensures (m - 1 - target) / (target + 1) + 1 == m / (target + 1)
  {
    var d := target + 1;
    var q, r := (m - d) / d, (m - d) % d;
    assert m == (q + 1) * d + r;
    DivMod(m, d, q + 1, r);
  }

  // A decoded number is never all ones.
  lemma {:induction false} NotAllOnes(c: nat)
    requires Meaning(c) < Pow2(256)
    ensures Meaning(c) + 1 < Pow2(256)
  {
    Pow2Bytes();
    hide Pow2;
    Pow2Next(255);
    if Exponent(c) <= 3 {
      DivSmaller(Word(c), Pow2(8 * (3 - Exponent(c))));
      Pow2Grows(24, 256);
    } else {
      var k := 8 * (Exponent(c) - 3);
      Pow2Next(k - 1);
      assert Word(c) * (2 * Pow2(k - 1)) == 2 * (Word(c) * Pow2(k - 1));
    }
  }

  method GetBlockProof(nBits: nat) returns (work: BaseUint)
    requires nBits < BASE
    ensures work.pn.Length == WIDTH
    ensures IsNegative(nBits) || Overflows(nBits) || Meaning(nBits) == 0 ==> work.V() == 0
    ensures !(IsNegative(nBits) || Overflows(nBits) || Meaning(nBits) == 0) ==>
      work.V() == Pow2(256) / (Meaning(nBits) + 1)
  {
    hide Val, Base, Pow2;
    WidthIs256();
    OverflowExact(nBits);
    var target := new BaseUint(WIDTH);
    var fNegative, fOverflow := SetCompact(target, nBits);
    ghost var t, m := Meaning(nBits), Pow2(256);
    if !Overflows(nBits) { DivMod(t, m, 0, t); }
    var isZero := target.EqualTo(0);
    if fNegative || fOverflow || isZero {
      work := new BaseUint(WIDTH);
      return;
    }
    NotAllOnes(nBits);
    work := Work(target);
  }

  // ~target / (target + 1) + 1
  method Work(target: BaseUint) returns (work: BaseUint)
    requires target.pn.Length == WIDTH && 0 < target.V() && target.V() + 1 < Pow2(256)
    ensures work.pn.Length == WIDTH && work.V() == Pow2(256) / (target.V() + 1)
  {
    hide Val, Base, Pow2;
    WidthIs256();
    ghost var t, m := target.V(), Pow2(256);
    work := target.Not();
    var one := new BaseUint(WIDTH);
    one.AssignUint64(1);
    var divisor := new BaseUint(WIDTH);
    divisor.Assign(target);
    divisor.AddAssign(one);
    DivMod(t + 1, m, 0, t + 1);
    var failed, rest := work.DivAssign(divisor);
    WorkOfTarget(t, m);
    work.AddAssign(one);
    DivSmaller(m, t + 1);
    QuotientBelow(m, t + 1);
  }

  lemma {:induction false} QuotientBelow(m: nat, d: nat)
    requires d >= 2 && m > 0
    ensures m / d % m == m / d
  {
    DivLess(m, m, d);
    MulAtLeast(d - 1, m);
    assert m * d == (d - 1) * m + m;
    DivMod(m / d, m, 0, m / d);
  }
}
