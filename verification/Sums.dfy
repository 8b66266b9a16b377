/** Sums of a function over a finite set. */
module Sums {

  ghost function Sum<T(!new)>(f: T -> nat, s: set<T>): nat {
    if s == {} then 0 else var x :| x in s; f(x) + Sum(f, s - {x})
  }

  lemma {:induction false} SumWithout<T(!new)>(f: T -> nat, s: set<T>, x: T)
    requires x in s
    ensures Sum(f, s) == f(x) + Sum(f, s - {x})
    decreases |s|
  {
    var y :| y in s && Sum(f, s) == f(y) + Sum(f, s - {y});
    if y != x {
      SumWithout(f, s - {y}, x);
      SumWithout(f, s - {x}, y);
      assert s - {y} - {x} == s - {x} - {y};
    }
  }

  lemma {:induction false} SumWith<T(!new)>(f: T -> nat, s: set<T>, x: T)
    requires x !in s
    ensures Sum(f, s + {x}) == Sum(f, s) + f(x)
  {
    SumWithout(f, s + {x}, x);
    assert s + {x} - {x} == s;
  }

  lemma {:induction false} SumUnion<T(!new)>(f: T -> nat, a: set<T>, b: set<T>)
    requires a !! b
    ensures Sum(f, a + b) == Sum(f, a) + Sum(f, b)
    decreases |a|
  {
    if a == {} {
      assert a + b == b;
    } else {
      var x :| x in a;
      SumWithout(f, a, x);
      SumWithout(f, a + b, x);
      assert a + b - {x} == (a - {x}) + b;
      SumUnion(f, a - {x}, b);
    }
  }

  lemma {:induction false} SumSplit<T(!new)>(f: T -> nat, a: set<T>, b: set<T>)
    ensures Sum(f, a) == Sum(f, a - b) + Sum(f, a * b)
  {
    SumUnion(f, a - b, a * b);
    assert (a - b) + (a * b) == a;
  }

  lemma {:induction false} SumSame<T(!new)>(f: T -> nat, g: T -> nat, s: set<T>)
    requires forall x :: x in s ==> f(x) == g(x)
    ensures Sum(f, s) == Sum(g, s)
    decreases |s|
  {
    if s != {} {
      var x :| x in s;
      SumWithout(f, s, x);
      SumWithout(g, s, x);
      SumSame(f, g, s - {x});
    }
  }
}
