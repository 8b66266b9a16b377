/** Base 58: byte strings as strings of digits that are hard to mistake for one another. */
module Base58 {
  import opened Powers
  import opened Exponents

  /* ---- numbers in digits, most significant first ---- */

  function Num(base: nat, s: seq<nat>): nat {
    if s == [] then 0 else Num(base, s[..|s| - 1]) * base + s[|s| - 1]
  }

  // The shortest digits of a number; none for zero.
  function Digits(base: nat, n: nat): (r: seq<nat>)
    requires base >= 2
    ensures forall i :: 0 <= i < |r| ==> r[i] < base
    ensures r != [] ==> r[0] != 0
    ensures r == [] <==> n == 0
    decreases n
  {
    if n == 0 then []
    else
      DivSmall(n, base);
      Digits(base, n / base) + [n % base]
  }

  lemma {:induction false} DivSmall(n: nat, base: nat)
    requires n > 0 && base >= 2
    ensures 0 <= n / base < n
    ensures n / base == 0 ==> n % base == n
  {
    DivLess(n, n, base);
    MulLess(1, base, n);
    assert n * base == base * n;
    assert n == n / base * base + n % base;
  }

  lemma {:induction false} NumSnoc(base: nat, s: seq<nat>, d: nat)
    ensures Num(base, s + [d]) == Num(base, s) * base + d
  {
    assert (s + [d])[..|s|] == s;
  }

  lemma {:induction false} NumOfDigits(base: nat, n: nat)
    requires base >= 2
    ensures Num(base, Digits(base, n)) == n
    decreases n
  {
    hide Num, Digits;
    DigitsStep(base, n);
    if n == 0 {
      NumNone(base);
    } else {
      DivSmall(n, base);
      NumOfDigits(base, n / base);
      NumSnoc(base, Digits(base, n / base), n % base);
      QuotientAndRest(n, base);
    }
  }

  lemma {:induction false} DigitsStep(base: nat, n: nat)
    requires base >= 2
    ensures n == 0 ==> Digits(base, n) == []
    ensures n > 0 ==> Digits(base, n) == Digits(base, n / base) + [n % base]
  {
  }

  lemma {:induction false} QuotientAndRest(n: nat, base: nat)
    requires base > 0
    ensures n == base * (n / base) + n % base == (n / base) * base + n % base
  {
  }

  lemma {:induction false} NumNone(base: nat)
    ensures Num(base, []) == 0
  {
  }

  ghost predicate IsDigits(base: nat, s: seq<nat>) { forall i :: 0 <= i < |s| ==> s[i] < base }

  // Digits without a leading zero are those of their number.
  lemma {:induction false} DigitsOfNum(base: nat, s: seq<nat>)
    requires base >= 2 && IsDigits(base, s) && (s != [] ==> s[0] != 0)
    ensures Digits(base, Num(base, s)) == s
  {
    if s != [] {
      var high, d := s[..|s| - 1], s[|s| - 1];
      assert s == high + [d];
      DigitsOfNum(base, high);
      DivMod(Num(base, s), base, Num(base, high), d);
      if high != [] {
        assert Num(base, high) != 0;
        MulAtLeast(Num(base, high), base);
      }
    }
  }

  lemma {:induction false} NumBound(base: nat, s: seq<nat>)
    requires base >= 1 && IsDigits(base, s)
    ensures Num(base, s) < Pow(base, |s|)
  {
    if s != [] {
      var high := s[..|s| - 1];
      NumBound(base, high);
      MulLess(Num(base, high), Pow(base, |high|), base);
      assert (Num(base, high) + 1) * base == Num(base, high) * base + base;
    }
  }

  // A digit in front counts for its power.
  lemma {:induction false} NumCons(base: nat, d: nat, s: seq<nat>)
    ensures Num(base, [d] + s) == d * Pow(base, |s|) + Num(base, s)
  {
    var t := [d] + s;
    if s == [] {
      assert t[..0] == [];
    } else {
      var high := s[..|s| - 1];
      assert t[..|t| - 1] == [d] + high;
      NumCons(base, d, high);
      var p := Pow(base, |high|);
      assert (d * p + Num(base, high)) * base == d * (base * p) + Num(base, high) * base;
    }
  }

  lemma {:induction false} NumZeros(base: nat, k: nat, s: seq<nat>)
    requires k <= |s| && forall i :: 0 <= i < k ==> s[i] == 0
    ensures Num(base, s) == Num(base, s[k..])
    decreases k
  {
    if k > 0 {
      assert s == [s[0]] + s[1..];
      NumCons(base, s[0], s[1..]);
      assert s[1..][k - 1..] == s[k..];
      NumZeros(base, k - 1, s[1..]);
    } else {
      assert s[0..] == s;
    }
  }

  /* ---- room in the buffers ---- */

  lemma {:induction false} RatioOfDecoding()
    ensures Pow(58, 1000) <= Pow(256, 733)
  {
    hide Pow;
    FiftyEightTo71();
    PowMul(58, 71, 14);
    PowMul(256, 52, 14);
    PowGrows(Pow(58, 71), Pow(256, 52), 14);
    PowAdd(58, 994, 6);
    PowAdd(256, 728, 5);
    SmallPowers();
    ProductGrows(Pow(58, 994), Pow(256, 728), Pow(58, 6), Pow(256, 5));
  }

  lemma {:induction false} SmallPowers()
    ensures Pow(58, 6) <= Pow(256, 5) && Pow(256, 8) <= Pow(58, 11) && Pow(256, 4) <= Pow(58, 6)
  {
  }

  lemma {:induction false} FiftyEightTo71()
    ensures Pow(58, 71) <= Pow(256, 52)
  {
    hide Pow;
    var a, b, c := 1449225352009601191936, 24986644000165537792, 20282409603651670423947251286016;
    Literals();
    PowAdd(58, 60, 11);
    PowMul(58, 12, 5);
    PowMul(256, 13, 4);
    FourAndFive(a, c);
  }

  lemma {:induction false} Literals()
    ensures Pow(58, 12) == 1449225352009601191936 && Pow(58, 11) == 24986644000165537792
    ensures Pow(256, 13) == 20282409603651670423947251286016
  {
  }

  lemma {:induction false} FourAndFive(a: nat, c: nat)
    ensures Pow(a, 5) == a * (a * (a * (a * a))) && Pow(c, 4) == c * (c * (c * c))
  {
    hide Pow;
    SmallExponents(a);
    SmallExponents(c);
  }

  lemma {:induction false} SmallExponents(a: nat)
    ensures Pow(a, 1) == a && Pow(a, 2) == a * a && Pow(a, 3) == a * Pow(a, 2)
    ensures Pow(a, 4) == a * Pow(a, 3) && Pow(a, 5) == a * Pow(a, 4)
  {
  }

  lemma {:induction false} RatioOfEncoding()
    ensures Pow(256, 100) <= Pow(58, 138)
  {
    hide Pow;
    SmallPowers();
    PowMul(256, 8, 12);
    PowMul(58, 11, 12);
    PowGrows(Pow(256, 8), Pow(58, 11), 12);
    PowAdd(256, 96, 4);
    PowAdd(58, 132, 6);
    ProductGrows(Pow(256, 96), Pow(58, 132), Pow(256, 4), Pow(58, 6));
  }

  // The sizes reserved are enough for every length.
  lemma {:induction false} EncodeBufferSuffices(m: nat)
    ensures Pow(256, m) < Pow(58, m * 138 / 100 + 1)
  {
    hide Pow;
    RatioOfEncoding();
    DigitsFit(256, 100, 58, 138, m);
    assert 138 * m == m * 138;
  }

  lemma {:induction false} DecodeBufferSuffices(m: nat)
    ensures Pow(58, m) < Pow(256, m * 733 / 1000 + 1)
  {
    hide Pow;
    RatioOfDecoding();
    DigitsFit(58, 1000, 256, 733, m);
    assert 733 * m == m * 733;
  }
}
