/** Base 58 as it is computed: digits in a fixed buffer, least significant last, multiplied
    and added to in place. */
module Base58Buffers {
  import opened Options
  import opened Powers
  import opened Exponents
  import opened Base58
  import opened Base58Coding

  // All but the last `length` digits are zero.
  ghost predicate ZeroAbove(s: seq<nat>, length: nat) {
    length <= |s| && forall i :: 0 <= i < |s| - length ==> s[i] == 0
  }

  // One digit of the product and the carry into the next.
  lemma {:induction false} MulAddStep(base: nat, factor: nat, add: nat, was: seq<nat>, now: seq<nat>, i: nat,
                                      carry: nat, next: seq<nat>)
    requires base >= 2 && |was| == |now| == |next| && i < |was|
    requires now[..|now| - i] == was[..|was| - i]
    requires Num(base, now[|now| - i..]) + carry * Pow(base, i) == factor * Num(base, was[|was| - i..]) + add
    requires next == now[|now| - 1 - i := (carry + factor * now[|now| - 1 - i]) % base]
    ensures next[..|next| - (i + 1)] == was[..|was| - (i + 1)]
    ensures Num(base, next[|next| - (i + 1)..]) + (carry + factor * now[|now| - 1 - i]) / base * Pow(base, i + 1)
         == factor * Num(base, was[|was| - (i + 1)..]) + add
  {
    hide Num;
    var n := |was|;
    var d, c := now[n - 1 - i], carry + factor * now[n - 1 - i];
    assert d == now[..n - i][n - 1 - i] == was[..n - i][n - 1 - i] == was[n - 1 - i];
    assert next[n - (i + 1)..] == [c % base] + now[n - i..];
    assert was[n - (i + 1)..] == [d] + was[n - i..];
    NumCons(base, c % base, now[n - i..]);
    NumCons(base, d, was[n - i..]);
    assert next[..n - (i + 1)] == now[..n - i][..n - (i + 1)];
    CarryOver(Num(base, now[n - i..]), Num(base, was[n - i..]), carry, factor, add, d, base, Pow(base, i), c);
  }

  lemma {:induction false} CarryOver(now: nat, was: nat, carry: nat, factor: nat, add: nat, d: nat, base: nat, p: nat,
                                     c: nat)
    requires base > 0 && c == carry + factor * d && now + carry * p == factor * was + add
    ensures c % base * p + now + c / base * (base * p) == factor * (d * p + was) + add
  {
    assert c == c / base * base + c % base;
    assert c * p == (c / base * base) * p + c % base * p;
    assert (c / base * base) * p == c / base * (base * p);
    assert c * p == carry * p + (factor * d) * p;
    assert factor * (d * p + was) == (factor * d) * p + factor * was;
  }

  // Multiplies the number by a factor and adds to it, touching as few digits as need be.
  method MulAdd(b: array<nat>, base: nat, factor: nat, add: nat, length: nat) returns (newLength: nat)
    requires base >= 2 && IsDigits(base, b[..]) && ZeroAbove(b[..], length)
    requires factor * Num(base, b[..]) + add < Pow(base, b.Length)
    modifies b
    ensures IsDigits(base, b[..]) && ZeroAbove(b[..], newLength)
    ensures Num(base, b[..]) == factor * Num(base, old(b[..])) + add
  {
    hide Num, Pow;
    ghost var was := b[..];
    var carry: nat := add;
    var i := 0;
    StartOfNumber(base, was);
    while (carry != 0 || i < length) && i < b.Length
      invariant 0 <= i <= b.Length && IsDigits(base, b[..])
      invariant b[..][..b.Length - i] == was[..b.Length - i]
      invariant Num(base, b[..][b.Length - i..]) + carry * Pow(base, i) == factor * Num(base, was[b.Length - i..]) + add
    {
      ghost var now, c := b[..], carry;
      carry := carry + Product(factor, b[b.Length - 1 - i]);
      DivNat(carry, base);
      b[b.Length - 1 - i] := carry % base;
      MulAddStep(base, factor, add, was, now, i, c, b[..]);
      carry := carry / base;
      i := i + 1;
    }
    NoCarry(base, factor, add, was, b[..], i, carry, length);
    assert carry == 0;
    newLength := i;
  }

  lemma {:induction false} StartOfNumber(base: nat, s: seq<nat>)
    ensures Num(base, s[|s|..]) == 0 && Pow(base, 0) == 1
  {
  }

  function Product(x: nat, y: nat): nat { x * y }

  lemma {:induction false} DivNat(c: nat, base: nat)
    requires base > 0
    ensures c / base >= 0 && 0 <= c % base < base
  {
    DivSmaller(c, base);
  }

  // Whether stopped early or at the end of the buffer, nothing is left to carry.
  lemma {:induction false} NoCarry(base: nat, factor: nat, add: nat, was: seq<nat>, now: seq<nat>, i: nat, carry: nat,
                                   length: nat)
    requires base >= 2 && |was| == |now| && i <= |was| && IsDigits(base, now) && ZeroAbove(was, length)
    requires now[..|now| - i] == was[..|was| - i]
    requires Num(base, now[|now| - i..]) + carry * Pow(base, i) == factor * Num(base, was[|was| - i..]) + add
    requires (carry == 0 && i >= length) || i == |was|
    requires factor * Num(base, was) + add < Pow(base, |was|)
    ensures carry == 0 && ZeroAbove(now, i) && Num(base, now) == factor * Num(base, was) + add
  {
    hide Num, Pow;
    if carry == 0 && i >= length {
      assert forall j :: 0 <= j < |now| - i ==> now[j] == now[..|now| - i][j] == was[..|was| - i][j] == was[j];
      NumZeros(base, |now| - i, now);
      NumZeros(base, |was| - i, was);
    } else {
      assert now[0..] == now && was[0..] == was;
      PowPositive(base, i);
      if carry > 0 { MulAtLeast(carry, Pow(base, i)); }
    }
  }

  /* ---- encoding ---- */

  method SkipZeros(b: array<nat>, base: nat, length: nat) returns (at: nat)
    requires base >= 2 && IsDigits(base, b[..]) && ZeroAbove(b[..], length)
    ensures at <= b.Length && b[at..] == Digits(base, Num(base, b[..]))
  {
    hide Num, Digits;
    at := b.Length - length;
    while at < b.Length && b[at] == 0
      invariant b.Length - length <= at <= b.Length
      invariant forall i :: 0 <= i < at ==> b[i] == 0
    {
      at := at + 1;
    }
    NumZeros(base, at, b[..]);
    assert b[..][at..] == b[at..];
    DigitsOfNum(base, b[at..]);
  }

  method EncodeBase58(vch: seq<nat>) returns (str: string)
    requires IsDigits(256, vch)
    ensures str == Encode(vch)
  {
    hide Num, Pow, Digits, Run, Encode;
    var zeroes := 0;
    while zeroes < |vch| && vch[zeroes] == 0
      invariant 0 <= zeroes <= |vch| && forall i :: 0 <= i < zeroes ==> vch[i] == 0
    {
      zeroes := zeroes + 1;
    }
    RunIs(vch, IsZero(), zeroes);
    ghost var rest := vch[zeroes..];
    var size := (|vch| - zeroes) * 138 / 100 + 1;
    var b58 := new nat[size](_ => 0);
    var length := 0;
    AllZero(58, b58[..]);
    EncodeBufferSuffices(|rest|);
    StartOfNumber(256, rest[..0]);
    var p := zeroes;
    while p < |vch|
      invariant zeroes <= p <= |vch| && IsDigits(58, b58[..]) && ZeroAbove(b58[..], length)
      invariant Num(58, b58[..]) == Num(256, rest[..p - zeroes])
    {
      assert rest[..p + 1 - zeroes] == rest[..p - zeroes] + [vch[p]];
      NumSnoc(256, rest[..p - zeroes], vch[p]);
      PrefixFits(256, rest, p + 1 - zeroes);
      length := MulAdd(b58, 58, 256, vch[p], length);
      p := p + 1;
    }
    assert rest[..p - zeroes] == rest;
    var it := SkipZeros(b58, 58, length);
    str := seq(zeroes, _ => '1');
    ghost var d := b58[it..];
    ghost var start := it;
    while it < b58.Length
      invariant start <= it <= b58.Length && str == seq(zeroes, _ => '1') + Chars(d[..it - start])
    {
      str := str + [CharOf(b58[it])];
      assert d[..it + 1 - start] == d[..it - start] + [b58[it]];
      it := it + 1;
    }
    assert d[..it - start] == d;
    EncodeIs(vch);
  }

  lemma {:induction false} EncodeIs(vch: seq<nat>)
    ensures Encode(vch) == seq(Run(vch, IsZero()), _ => '1') + Chars(Digits(58, Num(256, vch[Run(vch, IsZero())..])))
  {
  }

  lemma {:induction false} AllZero(base: nat, s: seq<nat>)
    requires forall i :: 0 <= i < |s| ==> s[i] == 0
    ensures Num(base, s) == 0
  {
    NumZeros(base, |s|, s);
    assert s[|s|..] == [];
  }

  // A prefix of the digits is below the power of the whole length.
  lemma {:induction false} PrefixFits(base: nat, s: seq<nat>, k: nat)
    requires base >= 2 && IsDigits(base, s) && k <= |s|
    ensures Num(base, s[..k]) < Pow(base, |s|)
  {
    NumBound(base, s[..k]);
    if k < |s| { PowExponent(base, k, |s|); }
  }

  /* ---- decoding ---- */

  method SkipSpaces(s: string) returns (n: nat)
    ensures n == Run(s, Space())
  {
    hide Run;
    n := 0;
    while n < |s| && IsSpace(s[n])
      invariant 0 <= n <= |s| && forall i :: 0 <= i < n ==> IsSpace(s[i])
    {
      n := n + 1;
    }
    RunIs(s, Space(), n);
  }

  method CountOnes(s: string) returns (zeroes: nat)
    ensures zeroes == Run(s, IsOne())
  {
    hide Run;
    zeroes := 0;
    while zeroes < |s| && s[zeroes] == '1'
      invariant 0 <= zeroes <= |s| && forall i :: 0 <= i < zeroes ==> s[i] == '1'
    {
      zeroes := zeroes + 1;
    }
    RunIs(s, IsOne(), zeroes);
  }

  method DecodeBase58(str: string) returns (ok: bool, vch: seq<nat>)
    ensures ok <==> Decode(str).Some?
    ensures ok ==> vch == Decode(str).value
  {
    hide Num, Pow, Digits, Run, Decode, DigitOf, CharOf, IsSpace, CString, AllDigits, Values;
    DecodeIs(str);
    vch := [];
    var psz := CString(str);
    var p := SkipSpaces(psz);
    psz := psz[p..];
    var zeroes := CountOnes(psz);
    psz := psz[zeroes..];
    var good, b256, length, q := ReadWord(psz);
    if !good { return false, []; }
    psz := psz[q..];
    p := SkipSpaces(psz);
    if p != |psz| { return false, []; }
    var it := SkipZeros(b256, 256, length);
    vch := seq(zeroes, _ => 0) + b256[it..];
    ok := true;
  }

  // Reads digits up to a space, or fails at a character that is none.
  method ReadWord(rest: string) returns (good: bool, b256: array<nat>, length: nat, q: nat)
    ensures good <==> AllDigits(rest[..Run(rest, NotSpace())])
    ensures good ==> q == Run(rest, NotSpace()) && ZeroAbove(b256[..], length) && IsDigits(256, b256[..])
    ensures good ==> Num(256, b256[..]) == Num(58, Values(rest[..Run(rest, NotSpace())]))
  {
    hide Num, Pow, Run, DigitOf, CharOf, IsSpace;
    var size := |rest| * 733 / 1000 + 1;
    b256 := new nat[size](_ => 0);
    length, q := 0, 0;
    AllZero(256, b256[..]);
    DecodeBufferSuffices(|rest|);
    NumNone(58);
    assert Values(rest[..0]) == [];
    while q < |rest| && !IsSpace(rest[q])
      invariant 0 <= q <= |rest| && (forall i :: 0 <= i < q ==> !IsSpace(rest[i]))
      invariant AllDigits(rest[..q]) && IsDigits(256, b256[..]) && ZeroAbove(b256[..], length)
      invariant fresh(b256) && b256.Length == size
      invariant Num(256, b256[..]) == Num(58, Values(rest[..q]))
    {
      var digit := DigitOf(rest[q]);
      if digit.None? {
        BadDigit(rest, q);
        return false, b256, length, q;
      }
      ValuesNext(rest, q);
      WordFits(rest, q + 1);
      length := MulAdd(b256, 256, 58, digit.value, length);
      q := q + 1;
    }
    RunIs(rest, NotSpace(), q);
    good := true;
  }

  lemma {:induction false} DecodeIs(str: string)
    ensures var s := CString(str);
      var s := s[Run(s, Space())..];
      var z := Run(s, IsOne());
      var rest := s[z..];
      var word := rest[..Run(rest, NotSpace())];
      var tail := rest[|word|..];
      Decode(str) == if !AllDigits(word) || Run(tail, Space()) != |tail| then None
                     else Some(seq(z, _ => 0) + Digits(256, Num(58, Values(word))))
  {
  }

  lemma {:induction false} BadDigit(rest: string, q: nat)
    requires q < |rest| && (forall i :: 0 <= i <= q ==> !IsSpace(rest[i])) && DigitOf(rest[q]).None?
    ensures !AllDigits(rest[..Run(rest, NotSpace())])
  {
    hide Run;
    var k := Run(rest, NotSpace());
    assert rest[..k][q] == rest[q];
  }

  lemma {:induction false} ValuesNext(rest: string, q: nat)
    requires q < |rest| && AllDigits(rest[..q]) && DigitOf(rest[q]).Some?
    ensures AllDigits(rest[..q + 1]) && Values(rest[..q + 1]) == Values(rest[..q]) + [DigitOf(rest[q]).value]
    ensures Num(58, Values(rest[..q + 1])) == Num(58, Values(rest[..q])) * 58 + DigitOf(rest[q]).value
  {
    hide Num, DigitOf;
    assert forall i :: 0 <= i < q ==> rest[..q + 1][i] == rest[..q][i];
    assert Values(rest[..q + 1]) == Values(rest[..q]) + [DigitOf(rest[q]).value];
    NumSnoc(58, Values(rest[..q]), DigitOf(rest[q]).value);
  }

  lemma {:induction false} WordFits(rest: string, k: nat)
    requires k <= |rest| && AllDigits(rest[..k])
    ensures Num(58, Values(rest[..k])) < Pow(58, |rest|)
  {
    hide Num, Pow;
    NumBound(58, Values(rest[..k]));
    if k < |rest| { PowExponent(58, k, |rest|); }
  }
}
