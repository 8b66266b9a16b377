/** Encoding bytes in base 58 and decoding them, as functions, and that each undoes the
    other. */
module Base58Coding {
  import opened Options
  import opened Base58

  /* ---- characters ---- */

  function Offset(c: char, k: nat): char
    requires c as int + k < 0x80
  {
    (c as int + k) as char
  }

  // The alphabet: 1-9, A-Z and a-z without I, O and l.
  function CharOf(d: nat): char
    requires d < 58
  {
    if d < 9 then Offset('1', d)
    else if d < 17 then Offset('A', d - 9)
    else if d < 22 then Offset('J', d - 17)
    else if d < 33 then Offset('P', d - 22)
    else if d < 44 then Offset('a', d - 33)
    else Offset('m', d - 44)
  }

  function DigitOf(c: char): (r: Option<nat>)
    ensures r.Some? ==> r.value < 58 && CharOf(r.value) == c
  {
    if '1' <= c <= '9' then Some(c as int - '1' as int)
    else if 'A' <= c <= 'H' then Some(c as int - 'A' as int + 9)
    else if 'J' <= c <= 'N' then Some(c as int - 'J' as int + 17)
    else if 'P' <= c <= 'Z' then Some(c as int - 'P' as int + 22)
    else if 'a' <= c <= 'k' then Some(c as int - 'a' as int + 33)
    else if 'm' <= c <= 'z' then Some(c as int - 'm' as int + 44)
    else None
  }

  lemma {:induction false} DigitOfChar(d: nat)
    requires d < 58
    ensures DigitOf(CharOf(d)) == Some(d)
  {
  }

  // The digits are written in the order of the characters.
  lemma {:induction false} AlphabetIncreases(d: nat, e: nat)
    requires d < e < 58
    ensures CharOf(d) < CharOf(e)
  {
  }

  predicate IsAlphanumeric(c: char) { '0' <= c <= '9' || 'A' <= c <= 'Z' || 'a' <= c <= 'z' }

  // Letters and digits are in the alphabet, but for the four that are easily mistaken.
  lemma {:induction false} AlphabetExactly(c: char)
    ensures DigitOf(c).Some? <==> IsAlphanumeric(c) && c != '0' && c != 'O' && c != 'I' && c != 'l'
  {
  }

  function Chars(digits: seq<nat>): string
    requires IsDigits(58, digits)
  {
    seq(|digits|, i requires 0 <= i < |digits| => CharOf(digits[i]))
  }

  predicate AllDigits(s: string) { forall i :: 0 <= i < |s| ==> DigitOf(s[i]).Some? }

  function Values(s: string): seq<nat>
    requires AllDigits(s)
  {
    seq(|s|, i requires 0 <= i < |s| => DigitOf(s[i]).value)
  }

  /* ---- runs at the start of a string ---- */

  // How many elements at the start satisfy the predicate.
  function Run<T>(s: seq<T>, p: T -> bool): (n: nat)
    ensures n <= |s|
    ensures forall i :: 0 <= i < n ==> p(s[i])
    ensures n < |s| ==> !p(s[n])
  {
    if s == [] || !p(s[0]) then 0
    else
      var n := Run(s[1..], p);
      assert forall i :: 1 <= i < n + 1 ==> s[i] == s[1..][i - 1];
      n + 1
  }

  lemma {:induction false} RunIs<T>(s: seq<T>, p: T -> bool, n: nat)
    requires n <= |s| && (forall i :: 0 <= i < n ==> p(s[i])) && (n < |s| ==> !p(s[n]))
    ensures Run(s, p) == n
  {
  }

  function IsZero(): nat -> bool { (x: nat) => x == 0 }
  function IsOne(): char -> bool { (c: char) => c == '1' }
  function Space(): char -> bool { (c: char) => IsSpace(c) }
  function NotSpace(): char -> bool { (c: char) => !IsSpace(c) }
  function NotNul(): char -> bool { (c: char) => c != '\0' }

  /* ---- coding ---- */

  function Encode(b: seq<nat>): string {
    var z := Run(b, IsZero());
    seq(z, _ => '1') + Chars(Digits(58, Num(256, b[z..])))
  }

  // A C string ends before its first NUL.
  function CString(s: string): string { s[..Run(s, NotNul())] }

  function Decode(str: string): Option<seq<nat>> {
    var s := CString(str);
    var s := s[Run(s, Space())..];
    var z := Run(s, IsOne());
    var rest := s[z..];
    var word := rest[..Run(rest, NotSpace())];
    var tail := rest[|word|..];
    if !AllDigits(word) || Run(tail, Space()) != |tail| then None
    else Some(seq(z, _ => 0) + Digits(256, Num(58, Values(word))))
  }

  /* ---- decoding what was encoded ---- */

  lemma {:induction false} CharsBack(d: seq<nat>)
    requires IsDigits(58, d)
    ensures AllDigits(Chars(d)) && Values(Chars(d)) == d
  {
    forall i | 0 <= i < |d| ensures DigitOf(Chars(d)[i]) == Some(d[i]) { DigitOfChar(d[i]); }
  }

  // No digit of the alphabet is a space or NUL, and only zero is written 1.
  lemma {:induction false} PlainChar(d: nat)
    requires d < 58
    ensures !IsSpace(CharOf(d)) && CharOf(d) != '\0' && (CharOf(d) == '1' <==> d == 0)
  {
  }

  lemma {:induction false} EncodedIsPlain(b: seq<nat>)
    ensures forall i :: 0 <= i < |Encode(b)| ==> !IsSpace(Encode(b)[i]) && Encode(b)[i] != '\0'
  {
    var z := Run(b, IsZero());
    var d := Digits(58, Num(256, b[z..]));
    forall i | 0 <= i < |d| ensures !IsSpace(Chars(d)[i]) && Chars(d)[i] != '\0' { PlainChar(d[i]); }
  }

  lemma {:induction false} DecodeEncode(b: seq<nat>)
    requires IsDigits(256, b)
    ensures Decode(Encode(b)) == Some(b)
  {
    hide Digits, Num, CharOf, DigitOf, Encode, Chars, Values, IsSpace, Run;
    var z := Run(b, IsZero());
    var n := Num(256, b[z..]);
    var d := Digits(58, n);
    var s := Encode(b);
    EncodedIsPlain(b);
    RunIs(s, NotNul(), |s|);
    RunIs(s, Space(), 0);
    assert s[..|s|] == s && s[0..] == s;
    EncodedParts(b);
    var rest := s[z..];
    RunIs(rest, NotSpace(), |rest|);
    assert rest[..|rest|] == rest && rest[|rest|..] == [];
    CharsBack(d);
    NumOfDigits(58, n);
    DigitsOfNum(256, b[z..]);
    assert b == seq(z, _ => 0) + b[z..];
  }

  lemma {:induction false} EncodedParts(b: seq<nat>)
    ensures var z := Run(b, IsZero());
      && z <= |Encode(b)| && Run(Encode(b), IsOne()) == z
      && Encode(b)[z..] == Chars(Digits(58, Num(256, b[z..])))
  {
    hide Num, CharOf, Run;
    var z := Run(b, IsZero());
    var d := Digits(58, Num(256, b[z..]));
    var s := Encode(b);
    if d != [] { PlainChar(d[0]); }
    RunIs(s, IsOne(), z);
  }

  /* ---- encoding what was decoded ---- */

  function StripLeft(s: string): string { s[Run(s, Space())..] }

  function StripRight(s: string): string {
    if s == [] || !IsSpace(s[|s| - 1]) then s else StripRight(s[..|s| - 1])
  }

  lemma {:induction false} StripTail(a: string, tail: string)
    requires (a != [] ==> !IsSpace(a[|a| - 1])) && forall i :: 0 <= i < |tail| ==> IsSpace(tail[i])
    ensures StripRight(a + tail) == a
    decreases |tail|
  {
    if tail == [] {
      assert a + tail == a;
    } else {
      assert (a + tail)[..|a + tail| - 1] == a + tail[..|tail| - 1];
      StripTail(a, tail[..|tail| - 1]);
    }
  }

  lemma {:induction false} ValuesBack(s: string)
    requires AllDigits(s)
    ensures IsDigits(58, Values(s)) && Chars(Values(s)) == s
  {
  }

  // Encoding zero bytes before the digits of a number.
  lemma {:induction false} EncodeOf(z: nat, n: nat)
    ensures Encode(seq(z, _ => 0) + Digits(256, n)) == seq(z, _ => '1') + Chars(Digits(58, n))
  {
    hide Num, CharOf, Chars, Run;
    var b := seq(z, _ => 0) + Digits(256, n);
    RunIs(b, IsZero(), z);
    assert b[z..] == Digits(256, n);
    NumOfDigits(256, n);
  }

  // A word that does not start with 1 is the digits of its number.
  lemma {:induction false} WordIsDigits(word: string)
    requires AllDigits(word) && (word != [] ==> word[0] != '1')
    ensures Chars(Digits(58, Num(58, Values(word)))) == word
  {
    hide Num, Digits, CharOf, DigitOf;
    ValuesBack(word);
    if word != [] { FirstNotOne(word); }
    DigitsOfNum(58, Values(word));
  }

  // The encoding of a decoded string is the string without the spaces around it.
  lemma {:induction false} EncodeDecode(str: string)
    requires Decode(str).Some?
    ensures Encode(Decode(str).value) == StripRight(StripLeft(CString(str)))
  {
    hide Digits, Num, CharOf, DigitOf, Encode, Chars, Values, StripRight, Run;
    var s := StripLeft(CString(str));
    var z := Run(s, IsOne());
    var rest := s[z..];
    var word := rest[..Run(rest, NotSpace())];
    EncodeOf(z, Num(58, Values(word)));
    WordIsDigits(word);
    OnesAndWord(s);
  }

  // Ones, a word and spaces, stripped of the spaces.
  lemma {:induction false} OnesAndWord(s: string)
    requires var rest := s[Run(s, IsOne())..]; var tail := rest[Run(rest, NotSpace())..]; Run(tail, Space()) == |tail|
    ensures var z := Run(s, IsOne());
      var rest := s[z..]; StripRight(s) == seq(z, _ => '1') + rest[..Run(rest, NotSpace())]
  {
    hide StripRight, Run;
    var z := Run(s, IsOne());
    var rest := s[z..];
    var k := Run(rest, NotSpace());
    var a := seq(z, _ => '1') + rest[..k];
    assert s == a + rest[k..];
    StripTail(a, rest[k..]);
  }

  lemma {:induction false} FirstNotOne(word: string)
    requires AllDigits(word) && word != [] && word[0] != '1'
    ensures Values(word)[0] != 0
  {
    PlainChar(DigitOf(word[0]).value);
  }

  /* ---- what is written and what is read ---- */

  // The encoding, read as a numeral of base 58, is the number the bytes are in base 256, and has
  // as many zeros in front.
  lemma {:induction false} EncodesTheNumber(b: seq<nat>)
    ensures AllDigits(Encode(b)) && Num(58, Values(Encode(b))) == Num(256, b)
    ensures Run(Values(Encode(b)), IsZero()) == Run(b, IsZero())
  {
    hide Digits, Num, CharOf, DigitOf, Chars, Run, Values;
    var z := Run(b, IsZero());
    var n := Num(256, b[z..]);
    var d := Digits(58, n);
    NumZeros(256, z, b);
    EncodedValues(z, d);
    assert (seq(z, _ => 0) + d)[z..] == d;
    NumZeros(58, z, seq(z, _ => 0) + d);
    NumOfDigits(58, n);
    RunIs(seq(z, _ => 0) + d, IsZero(), z);
  }

  lemma {:induction false} EncodedValues(z: nat, d: seq<nat>)
    requires IsDigits(58, d)
    ensures AllDigits(seq(z, _ => '1') + Chars(d))
    ensures Values(seq(z, _ => '1') + Chars(d)) == seq(z, _ => 0) + d
  {
    hide CharOf, DigitOf;
    CharsBack(d);
    OneIsZero();
    var s := seq(z, _ => '1') + Chars(d);
    assert forall i :: z <= i < |s| ==> s[i] == Chars(d)[i - z];
    assert AllDigits(s);
    assert forall i :: z <= i < |s| ==> Values(s)[i] == Values(Chars(d))[i - z];
  }

  lemma {:induction false} OneIsZero()
    ensures DigitOf('1') == Some(0)
  {
  }

  lemma {:induction false} StripSplits(s: string)
    ensures var t := StripRight(s);
      && t <= s && (t != [] ==> !IsSpace(t[|t| - 1])) && forall i :: |t| <= i < |s| ==> IsSpace(s[i])
  {
    if s != [] && IsSpace(s[|s| - 1]) { StripSplits(s[..|s| - 1]); }
  }

  // Ones, a word of the alphabet and spaces are read.
  lemma {:induction false} WordIsRead(s: string)
    requires AllDigits(StripRight(s))
    ensures var rest := s[Run(s, IsOne())..];
      var k := Run(rest, NotSpace()); AllDigits(rest[..k]) && Run(rest[k..], Space()) == |rest[k..]|
  {
    hide DigitOf, StripRight, Run;
    var t, z := StripRight(s), Run(s, IsOne());
    OnesInside(s);
    StripSplits(s);
    assert s[z..][..|t| - z] == t[z..];
    WordThenSpaces(s[z..], |t| - z);
  }

  lemma {:induction false} OnesInside(s: string)
    ensures Run(s, IsOne()) <= |StripRight(s)|
  {
    hide DigitOf, StripRight, Run;
    StripSplits(s);
    AlphabetHasNoSpace();
    var t := StripRight(s);
    assert |t| < |s| ==> s[|t|] != '1';
  }

  lemma {:induction false} WordThenSpaces(s: string, n: nat)
    requires n <= |s| && AllDigits(s[..n]) && forall i :: n <= i < |s| ==> IsSpace(s[i])
    ensures Run(s, NotSpace()) == n && Run(s[n..], Space()) == |s| - n
  {
    hide DigitOf, Run;
    AlphabetHasNoSpace();
    forall i | 0 <= i < n ensures !IsSpace(s[i]) { assert s[..n][i] == s[i]; }
    RunIs(s, NotSpace(), n);
    RunIs(s[n..], Space(), |s| - n);
  }

  // A string is decoded if and only if, without the spaces around it, it has no character that is
  // not of the alphabet.
  lemma {:induction false} DecodesExactly(str: string)
    ensures Decode(str).Some? <==> AllDigits(StripRight(StripLeft(CString(str))))
  {
    hide Digits, Num, DigitOf, Values, StripRight, Run, CString;
    var s := StripLeft(CString(str));
    OneIsZero();
    if Decode(str).Some? { OnesAndWord(s); }
    if AllDigits(StripRight(s)) { WordIsRead(s); }
  }

  lemma {:induction false} AlphabetHasNoSpace()
    ensures forall c: char :: DigitOf(c).Some? ==> !IsSpace(c)
    ensures !IsSpace('1')
  {
  }
}
