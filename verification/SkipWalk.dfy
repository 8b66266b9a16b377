/** How many pointers the walk to an ancestor follows at most. */
module SkipWalk {
  import opened Powers
  import opened Chain

  /* ---- lowest bits ---- */

  // n is a multiple of 2^i.
  predicate Multiple(n: nat, i: nat) { i == 0 || (n % 2 == 0 && Multiple(n / 2, i - 1)) }

  // The position of the lowest one.
  function Low(n: nat): nat
    requires n > 0
  {
    if n % 2 == 1 then 0 else 1 + Low(n / 2)
  }

  lemma {:induction false} MultipleOfLess(n: nat, i: nat, j: nat)
    requires i <= j && Multiple(n, j)
    ensures Multiple(n, i)
  {
    if i > 0 { MultipleOfLess(n / 2, i - 1, j - 1); }
  }

  lemma {:induction false} AndSelf(n: nat)
    ensures And(n, n) == n
  {
    if n > 0 { AndSelf(n / 2); }
  }

  lemma {:induction false} InvertHalves(n: nat)
    requires n > 0
    ensures n % 2 == 1 ==> InvertLowestOne(n) == n - 1
    ensures n % 2 == 0 ==> InvertLowestOne(n) == 2 * InvertLowestOne(n / 2)
  {
    if n % 2 == 1 {
      assert (n - 1) / 2 == n / 2;
      AndSelf(n / 2);
    } else {
      assert (n - 1) / 2 == n / 2 - 1;
    }
  }

  // A number is what is left without its lowest one, which is a multiple of the next power.
  lemma {:induction false} Lowest(n: nat)
    requires n > 0
    ensures n == InvertLowestOne(n) + Pow2(Low(n)) && Multiple(InvertLowestOne(n), Low(n) + 1)
  {
    InvertHalves(n);
    if n % 2 == 0 {
      Lowest(n / 2);
    } else {
      assert Multiple(n - 1, 1);
    }
  }

  lemma {:induction false} LowAtLeast(n: nat, i: nat)
    requires n > 0 && Multiple(n, i)
    ensures Low(n) >= i
  {
    if i > 0 { LowAtLeast(n / 2, i - 1); }
  }

  lemma {:induction false} LowOfSum(q: nat, a: nat)
    requires Multiple(q, a + 1)
    ensures Low(q + Pow2(a)) == a && InvertLowestOne(q + Pow2(a)) == q
    decreases a
  {
    var n := q + Pow2(a);
    InvertHalves(n);
    if a > 0 {
      assert n / 2 == q / 2 + Pow2(a - 1);
      LowOfSum(q / 2, a - 1);
    }
  }

  // Between two neighbouring multiples of 2^k the lowest one is below k, and going down by it
  // does not leave the range.
  lemma {:induction false} LowBelow(n: nat, base: nat, k: nat)
    requires Multiple(base, k) && base < n < base + Pow2(k)
    ensures Low(n) < k && InvertLowestOne(n) >= base
    decreases k
  {
    InvertHalves(n);
    if k > 0 && n % 2 == 0 { LowBelow(n / 2, base / 2, k - 1); }
  }

  /* ---- the bound ---- */

  // Steps from an odd height above a multiple of 2^k to a height within 2^k of it.
  function FromOdd(k: nat): nat {
    if k <= 1 then 0 else if k == 2 then 2 else if k == 3 then 4 else FromOdd(k - 1) + (k - 1) / 2 + 2
  }

  lemma {:induction false} FromOddGrows(a: nat, k: nat)
    requires a <= k
    ensures FromOdd(a) <= FromOdd(k)
    decreases k
  {
    if a < k { FromOddGrows(a, k - 1); }
  }

  // What a frame of a bits leaves over in one of k.
  lemma {:induction false} FromOddGain(a: nat, k: nat)
    requires 1 <= a < k
    ensures FromOdd(a) + (if a >= 3 then a / 2 else 0) + 2 <= FromOdd(k)
  {
    FromOddGrows(a + 1, k);
  }

  lemma {:induction false} FromOddAtLeast(k: nat)
    requires k >= 1
    ensures FromOdd(k) >= k - 1 && (k >= 2 ==> FromOdd(k) >= k)
  {
    if k > 3 { FromOddAtLeast(k - 1); }
  }

  /* ---- single steps ---- */

  function InvertTwo(n: nat): nat { InvertLowestOne(InvertLowestOne(n)) }

  // From an odd height the walk goes down by two ones, or else to the even height below.
  lemma {:induction false} AtOdd(n: nat, t: nat)
    requires n % 2 == 0 && n >= 2 && t <= n
    ensures var s := InvertLowestOne(InvertLowestOne(n)) + 1;
      Steps(n + 1, t) == 1 + (if t <= s then Steps(s, t) else Steps(n, t))
  {
    hide InvertLowestOne, Steps;
    StepsOnce(n + 1, t);
  }

  lemma {:induction false} EvenMultiple(n: nat, i: nat)
    requires Multiple(n, i) && i >= 1
    ensures n % 2 == 0
    ensures i >= 2 ==> n % 4 == 0
    ensures i >= 3 ==> n % 8 == 0
  {
    if i >= 2 {
      EvenMultiple(n / 2, i - 1);
      assert n == 2 * (n / 2);
      if i >= 3 { assert n == 8 * (n / 2 / 4); } else { assert n == 4 * (n / 2 / 2); }
    }
  }

  // Below it by one when the target is above the height without its lowest one.
  lemma {:induction false} FallsBack(n: nat, t: nat)
    requires n % 2 == 0 && n >= 2 && InvertLowestOne(n) < t < n
    ensures Steps(n, t) == 1 + Steps(n - 1, t)
  {
    hide InvertLowestOne, Steps;
    StepsOnce(n, t);
  }

  // From an even height with its lowest one at a, to the height without it, unless going one
  // back and then down by two ones is better.
  lemma {:induction false} AtEven(n: nat, t: nat)
    requires n % 2 == 0 && n >= 2 && t <= InvertLowestOne(n)
    ensures var a, q := Low(n), InvertLowestOne(n);
      && (t == q || a >= 3 ==> Steps(n, t) == 1 + Steps(q, t))
      && (t < q && a == 1 ==> Steps(n, t) == 1 + Steps(if t <= InvertTwo(q) + 1 then n - 1 else q, t))
      && (t < q && a == 2 ==> Steps(n, t) == 1 + Steps(if t <= InvertLowestOne(q) + 1 then n - 1 else q, t))
  {
    hide InvertLowestOne, Steps, Low, Multiple;
    StepsOnce(n, t);
    Lowest(n);
    var a, q := Low(n), InvertLowestOne(n);
    if t < q { SkipBefore(n, a, q); }
  }

  // The skip from the height before.
  lemma {:induction false} SkipBefore(n: nat, a: nat, q: nat)
    requires q > 0 && n == q + Pow2(a) && Multiple(q, a + 1)
    ensures a == 1 ==> GetSkipHeight(n - 1) == InvertLowestOne(InvertLowestOne(q)) + 1 < q - 2
    ensures a == 2 ==> GetSkipHeight(n - 1) == InvertLowestOne(q) + 1 < q - 2
    ensures a >= 3 ==> GetSkipHeight(n - 1) > q
  {
    hide InvertLowestOne;
    EvenMultiple(q, a + 1);
    Lowest(q);
    LowAtLeast(q, a + 1);
    Pow2Grows(a + 1, Low(q));
    assert Pow2(1) == 2 && Pow2(2) == 4 && Pow2(3) == 8;
    if a == 2 {
      MultipleOfLess(q, 2, 3);
      LowOfSum(q, 1);
    } else if a >= 3 {
      SkipFar(n, a, q);
    }
  }

  lemma {:induction false} SkipFar(n: nat, a: nat, q: nat)
    requires q > 0 && n == q + Pow2(a) && Multiple(q, a + 1) && a >= 3
    ensures GetSkipHeight(n - 1) > q
  {
    hide InvertLowestOne;
    EvenMultiple(q, a + 1);
    Pow2Grows(3, a);
    assert Pow2(3) == 8 && Pow2(a) == 2 * Pow2(a - 1) && Pow2(a - 1) == 2 * Pow2(a - 2);
    InvertHalves(n - 2);
    InvertHalves((n - 2) / 2);
    assert InvertLowestOne(n - 2) == n - 4;
    MultipleOfLess(q, a, a + 1);
    LowBelow(n - 4, q, a);
  }

  /* ---- from an odd height ---- */

  // n + 1 lies above a multiple of 2^k by less than 2^k, and after j skips the lowest one of n
  // is at 2j + 1 or above.
  predicate Framed(k: nat, base: nat, n: nat, j: nat) {
    && Multiple(base, k) && n % 2 == 0 && base <= n < base + Pow2(k)
    && 2 * j + 1 <= k && (n == base || Low(n) >= 2 * j + 1)
  }

  // Going down by a one that is not the last above the base stays framed.
  lemma {:induction false} FramedBelow(k: nat, base: nat, n: nat, j: nat)
    requires Framed(k, base, n, j) && n > base
    ensures var a, q := Low(n), InvertLowestOne(n);
      && 2 * j + 1 <= a < k && base <= q && n == q + Pow2(a) && q % 2 == 0 && Framed(a, q, n - 2, 0)
      && (q > base ==> a < Low(q) < k && q == InvertLowestOne(q) + Pow2(Low(q)))
      && (q > base ==> Framed(k, base, InvertLowestOne(q), j + 1) && Framed(Low(q), InvertLowestOne(q), q - 2, 0))
  {
    hide InvertLowestOne;
    var a, q := Low(n), InvertLowestOne(n);
    LowBelow(n, base, k);
    Lowest(n);
    EvenMultiple(q, a + 1);
    FrameOf(n);
    if q > base {
      LowAtLeast(q, a + 1);
      LowBelow(q, base, k);
      Lowest(q);
      var r := InvertLowestOne(q);
      EvenMultiple(r, Low(q) + 1);
      if r > 0 { LowAtLeast(r, Low(q) + 1); }
      FrameOf(q);
    }
  }

  // The heights just below an even one, above what it is without its lowest one.
  lemma {:induction false} FrameOf(n: nat)
    requires n > 0 && Low(n) >= 1
    ensures Framed(Low(n), InvertLowestOne(n), n - 2, 0)
  {
    hide InvertLowestOne;
    var a, q := Low(n), InvertLowestOne(n);
    Lowest(n);
    MultipleOfLess(q, a, a + 1);
    Pow2Grows(1, a);
    assert Pow2(1) == 2 && Pow2(a) == 2 * Pow2(a - 1);
    EvenMultiple(q, a + 1);
  }

  lemma {:induction false} OddSteps(k: nat, base: nat, n: nat, t: nat, j: nat)
    requires Framed(k, base, n, j) && base < t <= n + 1
    ensures j + Steps(n + 1, t) <= FromOdd(k)
    decreases n, 2
  {
    hide InvertLowestOne, Framed, FromOdd, Steps;
    FramedDepth(k, base, n, j);
    FromOddAtLeast(k);
    StepsOnce(t, t);
    if t <= n {
      FramedBelow(k, base, n, j);
      var q := InvertLowestOne(n);
      var r := InvertLowestOne(q);
      AtOdd(n, t);
      if t > r + 1 {
        AfterFall(k, base, n, t, j);
      } else if q > base {
        OddSteps(k, base, r, t, j + 1);
      } else {
        StepsOnce(1, 1);
      }
    }
  }

  lemma {:induction false} FramedDepth(k: nat, base: nat, n: nat, j: nat)
    requires Framed(k, base, n, j)
    ensures 2 * j + 1 <= k && n % 2 == 0 && base <= n
  {
  }

  // Having come to an even height because two ones were too many.
  lemma {:induction false} AfterFall(k: nat, base: nat, n: nat, t: nat, j: nat)
    requires Framed(k, base, n, j) && base < t <= n && t > InvertLowestOne(InvertLowestOne(n)) + 1
    ensures j + 1 + Steps(n, t) <= FromOdd(k)
    decreases n, 1
  {
    hide InvertLowestOne, Framed, FromOdd, Steps, Pow2;
    FramedDepth(k, base, n, j);
    FramedBelow(k, base, n, j);
    FromOddAtLeast(k);
    StepsOnce(t, t);
    var a, q := Low(n), InvertLowestOne(n);
    if q < t < n {
      FallsBack(n, t);
      OddSteps(a, q, n - 2, t, 0);
      FromOddGain(a, k);
    } else if t < q {
      TwoDown(k, n, t, j);
    } else if t == q {
      AtEven(n, t);
    }
  }

  // Down by the lowest one, and then into the frame of the next.
  lemma {:induction false} TwoDown(k: nat, n: nat, t: nat, j: nat)
    requires n % 2 == 0 && n >= 2
    requires var q := InvertLowestOne(n); q % 2 == 0 && InvertLowestOne(q) + 1 < t < q
    requires 2 * j + 1 <= Low(n) < Low(InvertLowestOne(n)) < k
    requires var q := InvertLowestOne(n);
      Framed(Low(q), InvertLowestOne(q), q - 2, 0) && q == InvertLowestOne(q) + Pow2(Low(q))
    ensures j + 1 + Steps(n, t) <= FromOdd(k)
    decreases n, 0
  {
    hide InvertLowestOne, Framed, FromOdd, Steps;
    var q := InvertLowestOne(n);
    var b, r := Low(q), InvertLowestOne(q);
    AtEven(n, t);
    FallsBack(q, t);
    FromOddGain(b, k);
    if b >= 3 {
      OddSteps(b, r, q - 2, t, 0);
    } else {
      LastTwo(q, t);
      SmallValues();
    }
  }

  lemma {:induction false} SmallValues()
    ensures FromOdd(1) == 0 && FromOdd(2) == 2 && FromOdd(3) == 4
  {
  }

  lemma {:induction false} LastTwo(q: nat, t: nat)
    requires q > 0 && Low(q) == 2 && InvertLowestOne(q) + 1 < t < q
    ensures Steps(q - 1, t) <= 1
  {
    hide InvertLowestOne, Steps;
    Lowest(q);
    var r := InvertLowestOne(q);
    assert Pow2(2) == 4 && Pow2(1) == 2;
    EvenMultiple(r, 3);
    StepsOnce(t, t);
    if t == q - 2 {
      MultipleOfLess(r, 2, 3);
      LowOfSum(r, 1);
      AtOdd(q - 2, t);
    }
  }

  /* ---- to the root ---- */

  lemma {:induction false} OddToRoot(k: nat, n: nat, j: nat)
    requires Framed(k, 0, n, j)
    ensures j + Steps(n + 1, 0) <= k
    decreases n
  {
    hide InvertLowestOne, Framed, Steps;
    FramedDepth(k, 0, n, j);
    RootSteps();
    if n > 0 {
      FramedBelow(k, 0, n, j);
      AtOdd(n, 0);
      var q := InvertLowestOne(n);
      if q > 0 { OddToRoot(k, InvertLowestOne(q), j + 1); }
    }
  }

  lemma {:induction false} RootSteps()
    ensures Steps(0, 0) == 0 && Steps(1, 0) == 1 && InvertLowestOne(0) == 0
  {
    assert GetSkipHeight(1) == 0;
  }

  /* ---- from any height ---- */

  // From an odd height j skips down, to any height.
  lemma {:induction false} OddToAny(k: nat, n: nat, t: nat, j: nat)
    requires Framed(k, 0, n, j) && t <= n + 1 && k >= 2
    ensures j + Steps(n + 1, t) <= FromOdd(k)
  {
    hide Framed, Steps, FromOdd;
    FromOddAtLeast(k);
    if t == 0 { OddToRoot(k, n, j); } else { OddSteps(k, 0, n, t, j); }
  }

  function Far(k: nat): nat
    requires k >= 3
  {
    FromOdd(k - 1) + k - 3
  }

  // From an even height, i ones down, with the lowest one at i + 3 or above.
  lemma {:induction false} EvenSteps(k: nat, n: nat, t: nat, i: nat)
    requires n % 2 == 0 && n < Pow2(k) && t <= n && i + 3 <= k && (n == 0 || Low(n) >= i + 3)
    ensures i + Steps(n, t) <= Far(k)
    decreases n
  {
    hide InvertLowestOne, Framed, FromOdd, Steps, Pow2;
    StepsOnce(t, t);
    if t < n {
      ZeroFrame(k, n);
      FramedBelow(k, 0, n, 0);
      var a, q := Low(n), InvertLowestOne(n);
      if t > q {
        FallsOrStops(n, t);
        FromOddGrows(a, k - 1);
      } else {
        AtEven(n, t);
        if q > 0 { LowerStill(n); }
        EvenSteps(k, q, t, i + 1);
      }
    }
  }

  lemma {:induction false} ZeroFrame(k: nat, n: nat)
    requires n % 2 == 0 && n < Pow2(k) && k >= 1
    ensures Framed(k, 0, n, 0)
  {
    ZeroMultiple(k);
  }

  lemma {:induction false} ZeroMultiple(k: nat)
    ensures Multiple(0, k)
  {
    if k > 0 { ZeroMultiple(k - 1); }
  }

  lemma {:induction false} LowerStill(n: nat)
    requires n > 0 && InvertLowestOne(n) > 0
    ensures Low(InvertLowestOne(n)) > Low(n)
  {
    Lowest(n);
    LowAtLeast(InvertLowestOne(n), Low(n) + 1);
  }

  // Above what is left without the lowest one, the walk goes one back into its frame.
  lemma {:induction false} FallsOrStops(n: nat, t: nat)
    requires n > 0 && Low(n) >= 1 && n % 2 == 0 && InvertLowestOne(n) < t < n
    ensures Steps(n, t) <= 1 + FromOdd(Low(n))
  {
    hide InvertLowestOne, Framed, FromOdd, Steps;
    FallsBack(n, t);
    FrameOf(n);
    OddSteps(Low(n), InvertLowestOne(n), n - 2, t, 0);
  }

  // From an even height with a one at 1 or 2.
  lemma {:induction false} LowSteps(k: nat, n: nat, t: nat)
    requires n % 2 == 0 && 0 < n < Pow2(k) && t <= n && k >= 3 && 1 <= Low(n) <= 2
    ensures Steps(n, t) <= FromOdd(k) + 1
  {
    hide InvertLowestOne, Framed, FromOdd, Steps, Pow2;
    StepsOnce(t, t);
    FromOddAtLeast(k);
    if t < n {
      ZeroFrame(k, n);
      FramedBelow(k, 0, n, 0);
      var q := InvertLowestOne(n);
      if t > q {
        FallsOrStops(n, t);
        FromOddGrows(Low(n), k);
      } else if t == q {
        AtEven(n, t);
      } else {
        LowStepsDown(k, n, t);
      }
    }
  }

  lemma {:induction false} LowStepsDown(k: nat, n: nat, t: nat)
    requires n % 2 == 0 && 0 < n < Pow2(k) && k >= 3 && 1 <= Low(n) <= 2 && t < InvertLowestOne(n)
    ensures Steps(n, t) <= FromOdd(k) + 1
  {
    hide InvertLowestOne, Framed, FromOdd, Steps, Low;
    var a, q := Low(n), InvertLowestOne(n);
    Lowest(n);
    assert Pow2(1) == 2 && Pow2(2) == 4;
    EvenMultiple(q, a + 1);
    ZeroFrame(k, q);
    AtEven(n, t);
    var r := if a == 1 then InvertLowestOne(InvertLowestOne(q)) else InvertLowestOne(q);
    if t <= r + 1 {
      Lower(k, n);
      if a == 1 { AtOdd(q, t); } else { OverTwo(q, t); }
      OddToAny(k, r, t, 1);
    } else {
      Invert2(q);
      AfterFall(k, 0, q, t, 0);
    }
  }

  lemma {:induction false} Invert2(q: nat)
    ensures InvertLowestOne(InvertLowestOne(q)) <= InvertLowestOne(q)
  {
  }

  lemma {:induction false} OverTwo(q: nat, t: nat)
    requires Multiple(q, 3) && t <= InvertLowestOne(q) + 1 && q > 0
    ensures Steps(q + 3, t) == 1 + Steps(InvertLowestOne(q) + 1, t)
  {
    hide InvertLowestOne, Steps;
    MultipleOfLess(q, 2, 3);
    EvenMultiple(q, 3);
    LowOfSum(q, 1);
    assert Pow2(1) == 2;
    AtOdd(q + 2, t);
  }

  // What is left after the skip has its lowest one at 3 or above.
  lemma {:induction false} Lower(k: nat, n: nat)
    requires n > 0 && n < Pow2(k) && k >= 3 && 1 <= Low(n) <= 2 && InvertLowestOne(n) > 0
    ensures Framed(k, 0, InvertLowestOne(InvertLowestOne(n)), 0)
    ensures Low(n) == 1 ==> Framed(k, 0, InvertLowestOne(InvertLowestOne(InvertLowestOne(n))), 1)
    ensures Low(n) == 2 ==> Framed(k, 0, InvertLowestOne(InvertLowestOne(n)), 1)
  {
    hide InvertLowestOne, Pow2;
    ZeroMultiple(k);
    var q := InvertLowestOne(n);
    var r := InvertLowestOne(q);
    Lowest(n);
    LowerStill(n);
    Lowest(q);
    EvenMultiple(r, Low(q) + 1);
    if r > 0 {
      LowerStill(q);
      Lowest(r);
      EvenMultiple(InvertLowestOne(r), Low(r) + 1);
      if InvertLowestOne(r) > 0 { LowerStill(r); }
    } else {
      RootSteps();
    }
  }

  function Most(k: nat): nat
    requires k >= 3
  {
    if Far(k) >= FromOdd(k) + 1 then Far(k) else FromOdd(k) + 1
  }

  // From below 2^k to any ancestor it takes at most a quarter of k^2 + 9k steps.
  lemma {:induction false} WalkBound(k: nat, h: nat, t: nat)
    requires k >= 3 && t <= h < Pow2(k)
    ensures Steps(h, t) <= Most(k) && 4 * Most(k) <= k * k + 9 * k
  {
    hide Framed, FromOdd, Steps, Pow2, InvertLowestOne;
    MostSquare(k);
    if h % 2 == 1 {
      ZeroFrame(k, h - 1);
      OddToAny(k, h - 1, t, 0);
    } else if h == 0 || Low(h) >= 3 {
      EvenSteps(k, h, t, 0);
    } else {
      LowSteps(k, h, t);
    }
  }

  lemma {:induction false} OddSquare(k: nat)
    requires k >= 1
    ensures 4 * FromOdd(k) <= k * k + 7 * k - 4
  {
    if k > 3 {
      OddSquare(k - 1);
      assert (k - 1) * (k - 1) == k * k - 2 * k + 1;
    }
  }

  lemma {:induction false} MostSquare(k: nat)
    requires k >= 3
    ensures 4 * Most(k) <= k * k + 9 * k
  {
    hide FromOdd;
    OddSquare(k);
    OddSquare(k - 1);
    assert (k - 1) * (k - 1) == k * k - 2 * k + 1;
  }

  // The figure of the comment: at most 110 steps among the first 2^18 blocks.
  lemma {:induction false} AtMost110(h: nat, t: nat)
    requires t <= h <= 0x4_0000
    ensures Steps(h, t) <= 110
  {
    hide Framed, Steps, InvertLowestOne, FromOdd, Pow2, Low;
    Values();
    if h < 0x4_0000 {
      WalkBound(18, h, t);
    } else {
      WholeRange(t);
    }
  }

  lemma {:induction false} Values()
    ensures Pow2(18) == 0x4_0000 && FromOdd(17) == 95 && FromOdd(18) == 105 && Most(18) == 110
  {
    assert Pow2(6) == 64 && Pow2(12) == 4096;
    assert FromOdd(6) == 15 && FromOdd(9) == 31 && FromOdd(12) == 51 && FromOdd(15) == 76;
  }

  lemma {:induction false} WholeRange(t: nat)
    requires t <= 0x4_0000
    ensures Steps(0x4_0000, t) <= 110
  {
    hide Framed, Steps, InvertLowestOne, FromOdd, Pow2, Low;
    Values();
    ZeroMultiple(19);
    LowOfSum(0, 18);
    StepsOnce(t, t);
    if t == 0 {
      AtEven(0x4_0000, 0);
    } else if t < 0x4_0000 {
      FallsOrStops(0x4_0000, t);
    }
  }

  /* ---- a walk that takes that many ---- */

  // Ones from position m up to k - 1.
  function Run(k: nat, m: nat): nat
    requires m <= k
  {
    Pow2Grows(m, k);
    Pow2(k) - Pow2(m)
  }

  lemma {:induction false} RunMultiple(k: nat, m: nat)
    requires m <= k
    ensures Multiple(Run(k, m), m)
    decreases m
  {
    if m > 0 {
      assert Run(k, m) == 2 * Run(k - 1, m - 1);
      RunMultiple(k - 1, m - 1);
    }
  }

  lemma {:induction false} RunLow(k: nat, m: nat)
    requires m < k
    ensures Run(k, m) > 0 && Low(Run(k, m)) == m && InvertLowestOne(Run(k, m)) == Run(k, m + 1)
    ensures m >= 1 ==> Run(k, m) % 2 == 0
    ensures Run(k, m) >= Pow2(k - 1) && (k >= 3 ==> Run(k, m) >= 4)
  {
    hide Low, Multiple, InvertLowestOne;
    RunMultiple(k, m + 1);
    RunMultiple(k, m);
    if m >= 1 { EvenMultiple(Run(k, m), m); }
    Pow2Grows(m + 1, k);
    LowOfSum(Run(k, m + 1), m);
    if k >= 3 { Pow2Grows(2, k - 1); }
    assert Pow2(2) == 4;
  }

  lemma {:induction false} OddRun(k: nat, m: nat)
    requires k >= 3 && 1 <= m < k
    ensures Run(k, m) >= Pow2(k - 1) >= 4
    ensures Steps(Run(k, m) + 1, 2) == (k - m) / 2 + 2 + Steps(Pow2(k - 1) - 1, 2)
    decreases k - m
  {
    hide Low, Multiple, InvertLowestOne, Steps;
    Pow2Grows(2, k - 1);
    assert Pow2(2) == 4 && Run(k, k) == 0 && Run(k, k - 1) == Pow2(k - 1);
    RootSteps();
    RunLow(k, m);
    RunLow(k, k - 1);
    AtOdd(Run(k, m), 2);
    if k - m >= 3 {
      RunLow(k, m + 1);
      RunLow(k, m + 2);
      OddRun(k, m + 2);
    } else {
      if k - m == 2 { AtEven(Run(k, m), 2); }
      FallsBack(Pow2(k - 1), 2);
    }
  }

  lemma {:induction false} OddExactly(k: nat)
    requires k >= 3
    ensures Pow2(k) >= 3 && Steps(Pow2(k) - 1, 2) == FromOdd(k)
  {
    hide Steps;
    OddRun(k, 1);
    assert Run(k, 1) + 1 == Pow2(k) - 1;
    if k > 3 { OddExactly(k - 1); } else { FromThree(); }
  }

  lemma {:induction false} FromThree()
    ensures Steps(3, 2) == 1
  {
    assert Next(3, 2) == 2;
  }

  lemma {:induction false} EvenRun(k: nat, m: nat)
    requires 3 <= m < k
    ensures Run(k, m) >= Pow2(k - 1) >= 4
    ensures Steps(Run(k, m), 2) == k - m + Steps(Pow2(k - 1) - 1, 2)
    decreases k - m
  {
    hide Low, Multiple, InvertLowestOne, Steps;
    Pow2Grows(2, k - 1);
    assert Pow2(2) == 4 && Run(k, k) == 0 && Run(k, k - 1) == Pow2(k - 1);
    RunLow(k, m);
    if m < k - 1 {
      RunLow(k, m + 1);
      AtEven(Run(k, m), 2);
      EvenRun(k, m + 1);
    } else {
      FallsBack(Run(k, m), 2);
    }
  }

  // The bound is reached, from fifteen ones above three zeros to height 2.
  lemma {:induction false} Takes110()
    ensures Steps(0x4_0000 - 8, 2) == 110
  {
    hide Steps, FromOdd, Pow2;
    Values();
    EvenRun(18, 3);
    OddExactly(17);
    RunOfFifteen();
  }

  lemma {:induction false} RunOfFifteen()
    ensures Run(18, 3) == 0x4_0000 - 8
  {
    Values();
    assert Pow2(3) == 8;
  }
}
