/** Which text resolves: exactly the text of what is accepted, with every name in the valuation. */
module BoolReading {
  import opened Options
  import opened BoolExpr
  import opened BoolFormula

  /* ---- parentheses ---- */

  function Depth(c: char): int { if c == '(' then 1 else if c == ')' then -1 else 0 }

  // Opening less closing parentheses.
  function Balance(s: string): int {
    if s == [] then 0 else Balance(s[..|s| - 1]) + Depth(s[|s| - 1])
  }

  lemma {:induction false} BalanceConcat(a: string, b: string)
    ensures Balance(a + b) == Balance(a) + Balance(b)
    decreases |b|
  {
    if b == [] {
      assert a + b == a;
    } else {
      assert (a + b)[..|a + b| - 1] == a + b[..|b| - 1];
      BalanceConcat(a, b[..|b| - 1]);
    }
  }

  lemma {:induction false} ScanBalance(st: State, s: string, op: char)
    requires ScanText(st, s, op).Ok?
    ensures ScanText(st, s, op).value.parity == st.parity + Balance(s)
    decreases |s|
  {
    hide BelongsToName;
    if s != [] { ScanBalance(st, s[..|s| - 1], op); }
  }

  lemma {:induction false} ResolvedBalance(s: string, vals: Vals)
    requires ResolveRec(s, vals).Ok?
    ensures s != [] && Balance(s) == 0
  {
    hide Resolve, ResolveAny, ResolveAll, ScanText;
    ScanBalance(START, s, '|');
  }

  // Without opening parentheses a balanced text has no closing ones.
  lemma {:induction false} NoneOpened(s: string)
    requires '(' !in s
    ensures Balance(s) <= 0
    ensures Balance(s) == 0 ==> ')' !in s
  {
    if s != [] {
      var t := s[..|s| - 1];
      assert s == t + [s[|s| - 1]];
      assert forall c :: c in t ==> c in s;
      NoneOpened(t);
    }
  }

  /* ---- the shape of what a scan has read ---- */

  // The parts with the operator between them.
  function Join(ts: seq<string>, op: char): string
    requires ts != []
  {
    if |ts| == 1 then ts[0] else Join(ts[..|ts| - 1], op) + [op] + ts[|ts| - 1]
  }

  lemma {:induction false} JoinMore(ts: seq<string>, t: string, op: char)
    ensures ts != [] ==> Join(ts + [t], op) == Join(ts, op) + [op] + t
    ensures ts == [] ==> Join(ts + [t], op) == t
  {
    if ts != [] { assert (ts + [t])[..|ts|] == ts; }
  }

  lemma {:induction false} JoinExtend(ts: seq<string>, t: string, c: char, op: char)
    ensures Join(ts + [t + [c]], op) == Join(ts + [t], op) + [c]
  {
    JoinMore(ts, t, op);
    JoinMore(ts, t + [c], op);
    if ts != [] { assert Join(ts, op) + [op] + (t + [c]) == Join(ts, op) + [op] + t + [c]; }
  }

  lemma {:induction false} JoinSplit(ts: seq<string>, t: string, op: char)
    ensures Join(ts + [t] + [[]], op) == Join(ts + [t], op) + [op]
  {
    JoinMore(ts + [t], [], op);
    assert Join(ts + [t], op) + [op] + [] == Join(ts + [t], op) + [op];
  }

  // What begins a part.
  predicate Starter(c: char) { BelongsToName(c) || c == '!' || c == '(' }

  // Nothing has begun in s[..k], and the rest is the parts.
  ghost predicate Shape(s: string, op: char, st: State, k: nat) {
    && k <= |s| && '(' !in s[..k] && ScanText(START, s[..k], op).Ok? && ScanText(START, s[..k], op).value.cur.None?
    && (st.cur.None? ==> st.parts == [] && k == |s|)
    && (st.cur.Some? ==> k < |s| && Starter(s[k]) && s[k..] == Join(st.parts + [st.cur.value], op))
  }

  lemma {:induction false} ScanShape(s: string, op: char) returns (k: nat)
    requires ScanText(START, s, op).Ok?
    ensures Shape(s, op, ScanText(START, s, op).value, k)
    decreases |s|
  {
    hide Shape, Step;
    k := 0;
    if s == [] {
      EmptyShape(op);
    } else {
      var t, c := s[..|s| - 1], s[|s| - 1];
      k := ScanShape(t, op);
      var mid := ScanText(START, t, op).value;
      if mid.cur.Some? {
        ShapeGoesOn(s, t, c, op, mid, k);
      } else {
        ShapeKnown(t, op, mid, k);
        ShapeBegins(s, t, c, op, mid);
        k := if ScanText(START, s, op).value.cur.None? then |s| else |t|;
      }
    }
  }

  lemma {:induction false} EmptyShape(op: char)
    ensures Shape([], op, START, 0)
  {
  }

  lemma {:induction false} ShapeKnown(s: string, op: char, st: State, k: nat)
    requires Shape(s, op, st, k) && st.cur.None?
    ensures st.parts == [] && '(' !in s
  {
    assert s[..|s|] == s;
  }

  lemma {:induction false} ShapeGoesOn(s: string, t: string, c: char, op: char, mid: State, k: nat)
    requires s == t + [c] && Shape(t, op, mid, k) && mid.cur.Some? && Step(mid, c, op).Ok?
    ensures Shape(s, op, Step(mid, c, op).value, k)
  {
    assert s[..k] == t[..k] && s[k..] == t[k..] + [c] && s[k] == t[k];
    JoinExtend(mid.parts, mid.cur.value, c, op);
    JoinSplit(mid.parts, mid.cur.value, op);
  }

  lemma {:induction false} ShapeBegins(s: string, t: string, c: char, op: char, mid: State)
    requires s == t + [c] && '(' !in t && ScanText(START, t, op) == Ok(mid) && mid.cur.None? && mid.parts == []
    ensures ScanText(START, s, op) == Step(mid, c, op) && ScanText(START, s, op).Ok?
    ensures var st := ScanText(START, s, op).value;
      if st.cur.None? then Shape(s, op, st, |s|) else Shape(s, op, st, |t|)
  {
    assert s[..|s| - 1] == t && s[..|s|] == s && s[|t|..] == [c];
    JoinMore([], [c], op);
    assert ([] + [[c]]) == [[c]];
  }

  // Text without parentheses in which no part begins is passed over.
  lemma {:induction false} SkippedPlain(s: string, op: char)
    requires ScanText(START, s, op).Ok? && ScanText(START, s, op).value.cur.None? && '(' !in s && ')' !in s
    ensures PassedOver(s)
    decreases |s|
  {
    if s != [] {
      var t := s[..|s| - 1];
      assert s == t + [s[|s| - 1]] && forall c :: c in t ==> c in s;
      assert s[|s| - 1] in s;
      SkippedPlain(t, op);
      ScanBalance(START, t, op);
      NoParentheses(t);
    }
  }

  lemma {:induction false} NoParentheses(s: string)
    requires '(' !in s && ')' !in s
    ensures Balance(s) == 0
    decreases |s|
  {
    if s != [] {
      var t := s[..|s| - 1];
      assert s == t + [s[|s| - 1]] && forall c :: c in t ==> c in s;
      assert s[|s| - 1] in s;
      NoParentheses(t);
    }
  }

  lemma {:induction false} JoinBalance(ts: seq<string>, op: char)
    requires ts != [] && Depth(op) == 0 && forall i :: 0 <= i < |ts| ==> Balance(ts[i]) == 0
    ensures Balance(Join(ts, op)) == 0
    decreases |ts|
  {
    if |ts| > 1 {
      var us := ts[..|ts| - 1];
      JoinBalance(us, op);
      BalanceConcat(Join(us, op) + [op], ts[|ts| - 1]);
      BalanceConcat(Join(us, op), [op]);
      assert [op][..0] == [] && Balance([op]) == 0;
    }
  }

  // Where the parts begin, and that all before is passed over.
  lemma {:induction false} Beginning(s: string, op: char) returns (k: nat)
    requires op == '|' || op == '&'
    requires SingleParse(s, op).Ok? && SingleParse(s, op).value != []
    requires forall i :: 0 <= i < |SingleParse(s, op).value| ==> Balance(SingleParse(s, op).value[i]) == 0
    ensures k < |s| && PassedOver(s[..k]) && Starter(s[k]) && s[k..] == Join(SingleParse(s, op).value, op)
    ensures SingleParse(s[k..], op) == SingleParse(s, op)
  {
    hide ScanText, BelongsToName, Join, PassedOver;
    k := ScanShape(s, op);
    ScanBalance(START, s, op);
    JoinBalance(SingleParse(s, op).value, op);
    assert s == s[..k] + s[k..];
    BalanceConcat(s[..k], s[k..]);
    NoneOpened(s[..k]);
    SkippedPlain(s[..k], op);
    SplitPassesOver(s[..k], s[k..], op);
  }

  /* ---- parts have no operator of their own ---- */

  // Read after another character, the text stays one part and ends at depth p.
  ghost predicate Calm(t: string, op: char, p: int) {
    ScanText(State(Some([]), 0, []), t, op) == Ok(State(Some(t), p, []))
  }

  lemma {:induction false} CalmGoesOn(x: string, c: char, op: char, p: int, q: int)
    requires Calm(x, op, p) && Step(State(Some(x), p, []), c, op) == Ok(State(Some(x + [c]), q, []))
    ensures Calm(x + [c], op, q)
  {
    assert (x + [c])[..|x|] == x;
  }

  // Other is the operator itself, or one that does not split the text.
  ghost predicate Unbroken(s: string, op: char, other: char) {
    other == op || (ScanText(START, s, other).Ok? && ScanText(START, s, other).value.parts == [])
  }

  ghost predicate PartsCalm(st: State, other: char) {
    && st.cur.Some? && Calm(st.cur.value, other, st.parity)
    && forall i :: 0 <= i < |st.parts| ==> Calm(st.parts[i], other, 0)
  }

  lemma {:induction false} UnbrokenBefore(s: string, op: char, other: char)
    requires s != [] && Unbroken(s, op, other)
    ensures Unbroken(s[..|s| - 1], op, other)
  {
  }

  lemma {:induction false} ScanCalm(s: string, op: char, other: char)
    requires s != [] && Starter(s[0]) && ScanText(START, s, op).Ok? && Unbroken(s, op, other)
    ensures PartsCalm(ScanText(START, s, op).value, other)
    ensures ScanText(START, s, other).Ok? && ScanText(START, s, other).value.cur.Some?
    ensures ScanText(START, s, other).value.parity == ScanText(START, s, op).value.parity
    decreases |s|
  {
    var t, c := s[..|s| - 1], s[|s| - 1];
    if t == [] {
      assert s == [c];
      CalmBegins(c, op, other);
    } else {
      UnbrokenBefore(s, op, other);
      ScanCalm(t, op, other);
      CalmStep(ScanText(START, t, op).value, ScanText(START, t, other).value, c, op, other);
    }
  }

  lemma {:induction false} CalmBegins(c: char, op: char, other: char)
    requires Starter(c)
    ensures ScanText(START, [c], op).Ok? && PartsCalm(ScanText(START, [c], op).value, other)
    ensures ScanText(START, [c], other) == ScanText(START, [c], op)
  {
    ScanOne(START, c, op);
    ScanOne(START, c, other);
    assert ScanText(State(Some([]), 0, []), [], other) == Ok(State(Some([]), 0, []));
    assert [] + [c] == [c];
    CalmGoesOn([], c, other, 0, if c == '(' then 1 else 0);
  }

  lemma {:induction false} CalmStep(st: State, alt: State, c: char, op: char, other: char)
    requires PartsCalm(st, other) && alt.cur.Some? && alt.parity == st.parity
    requires Step(st, c, op).Ok? && Step(alt, c, other).Ok?
    requires other == op || Step(alt, c, other).value.parts == alt.parts
    ensures PartsCalm(Step(st, c, op).value, other)
    ensures Step(alt, c, other).value.cur.Some? && Step(alt, c, other).value.parity == Step(st, c, op).value.parity
  {
    hide Calm, BelongsToName;
    var x, r := st.cur.value, Step(st, c, op).value;
    if r.parts == st.parts {
      CalmGoesOn(x, c, other, st.parity, r.parity);
    } else {
      NothingCalm(other);
    }
  }

  lemma {:induction false} NothingCalm(op: char)
    ensures Calm([], op, 0)
  {
  }

  // At the beginning of a text no more parts are seen than after another character.
  lemma {:induction false} FewerAtStart(t: string, x: string, op: char)
    requires ScanText(State(Some(x), 0, []), t, op).Ok? && ScanText(State(Some(x), 0, []), t, op).value.parts == []
    ensures ScanText(START, t, op).Ok? && ScanText(START, t, op).value.parts == []
    ensures ScanText(START, t, op).value.parity == ScanText(State(Some(x), 0, []), t, op).value.parity
    ensures ScanText(State(Some(x), 0, []), t, op).value.cur.Some?
    decreases |t|
  {
    hide BelongsToName;
    if t != [] { FewerAtStart(t[..|t| - 1], x, op); }
  }

  lemma {:induction false} CalmIsOne(t: string, op: char)
    requires Calm(t, op, 0)
    ensures SingleParse(t, op).Ok? && |SingleParse(t, op).value| <= 1
  {
    FewerAtStart(t, [], op);
  }

  // What is passed over after | can only be &.
  lemma {:induction false} OnlyAnds(j: string, x: string)
    requires PassedOver(j)
    requires ScanText(State(Some(x), 0, []), j, '|').Ok? && ScanText(State(Some(x), 0, []), j, '|').value.parts == []
    ensures ScanText(State(Some(x), 0, []), j, '|') == Ok(State(Some(x + j), 0, []))
    ensures forall i :: 0 <= i < |j| ==> j[i] == '&'
    decreases |j|
  {
    if j == [] {
      assert x + j == x;
    } else {
      OnlyAnds(j[..|j| - 1], x);
      assert x + j == x + j[..|j| - 1] + [j[|j| - 1]];
    }
  }

  lemma {:induction false} PartsGrow(st: State, s: string, op: char)
    requires ScanText(st, s, op).Ok?
    ensures |ScanText(st, s, op).value.parts| >= |st.parts|
    decreases |s|
  {
    hide BelongsToName;
    if s != [] { PartsGrow(st, s[..|s| - 1], op); }
  }

  // So after | no other text is passed over.
  lemma {:induction false} LedAfterOr(f: Formula)
    requires LedOperator(f) && f.body.And? && Calm(Print(f), '|', 0)
    ensures LedByAnds(f)
  {
    hide ScanText, PassedOver;
    var st := State(Some([]), 0, []);
    ScanConcat(st, f.junk, Print(f.body), '|');
    PartsGrow(ScanText(st, f.junk, '|').value, Print(f.body), '|');
    OnlyAnds(f.junk, []);
  }

  /* ---- the formula of a text ---- */

  ghost predicate ProperNames(vals: Vals) { forall x :: x in vals ==> IsName(x) }

  function Head(f: Formula): Formula { if f.Led? then f.body else f }

  lemma {:induction false} OneIsUnbroken(s: string, op: char)
    requires SingleParse(s, op).Ok? && |SingleParse(s, op).value| == 1
    ensures ScanText(START, s, op).Ok? && ScanText(START, s, op).value.parts == []
  {
    hide ScanText;
    var k := ScanShape(s, op);
  }

  // The operand of a negation has no operator at its top level.
  lemma {:induction false} NegatedIsOne(t: string, op: char)
    requires SingleParse("!" + t, op).Ok? && |SingleParse("!" + t, op).value| == 1
    ensures SingleParse(t, op).Ok? && |SingleParse(t, op).value| <= 1
  {
    hide ScanText;
    OneIsUnbroken("!" + t, op);
    ScanConcat(START, "!", t, op);
    ScanOne(START, '!', op);
    FewerAtStart(t, "!", op);
  }

  // What is taken off a text in parentheses is the closing one.
  lemma {:induction false} Closed(s: string)
    requires |s| >= 2 && s[0] == '(' && Balance(s) == 0 && Balance(s[1..|s| - 1]) == 0
    ensures s == "(" + s[1..|s| - 1] + ")"
  {
    var inner := s[1..|s| - 1];
    assert s[..|s| - 1] == "(" + inner;
    BalanceConcat("(", inner);
    assert "("[..0] == [] && Balance("(") == 1;
  }

  lemma {:induction false} ResolvesAsIs(s: string, vals: Vals)
    requires NoSpace(s)
    ensures Resolve(s, vals) == ResolveRec(s, vals)
  {
    hide ResolveRec;
    NothingToRemove(s);
  }

  lemma {:induction false} ParsedUnit(s: string, vals: Vals) returns (f: Formula)
    requires NoSpace(s) && ProperNames(vals) && ResolveRec(s, vals).Ok?
    requires SingleParse(s, '|').Ok? && |SingleParse(s, '|').value| == 1
    requires SingleParse(s, '&').Ok? && |SingleParse(s, '&').value| == 1
    ensures Inner(f) && Print(f) == s && !f.Or? && !f.And?
    decreases |s|, 1, 0
  {
    hide SingleParse, Resolve, ResolveAny, ResolveAll, NoSpace, IsName;
    ResolvedBalance(s, vals);
    if s[0] == '!' {
      var t := s[1..];
      Within(s, 1, |s|);
      ResolvesAsIs(t, vals);
      assert s == "!" + t;
      NegatedIsOne(t, '|');
      NegatedIsOne(t, '&');
      var g := Parsed(t, vals);
      f := Not(g);
    } else if s[0] == '(' {
      var t := s[1..|s| - 1];
      Within(s, 1, |s| - 1);
      ResolvesAsIs(t, vals);
      ResolvedBalance(t, vals);
      Closed(s);
      var g := Parsed(t, vals);
      f := Paren(g);
      AcceptedInParentheses(g);
    } else if s == "1" || s == "0" {
      f := Const(s == "1");
    } else {
      f := Name(s);
    }
  }

  lemma {:induction false} Within(s: string, i: nat, j: nat)
    requires i <= j <= |s| && NoSpace(s)
    ensures NoSpace(s[i..j]) && s[i..|s|] == s[i..]
  {
  }

  lemma {:induction false} AcceptedInParentheses(f: Formula)
    requires Accepted(f)
    ensures Inner(Paren(f))
  {
  }

  // The parts of a text, as formulas joined from left to right.
  lemma {:induction false} ParsedAll(ts: seq<string>, op: char, vals: Vals, n: nat) returns (f: Formula)
    requires (op == '|' || op == '&') && ts != [] && ProperNames(vals) && ts[0] != [] && Starter(ts[0][0])
    requires forall i :: 0 <= i < |ts| ==> |ts[i]| < n && NoSpace(ts[i]) && ResolveRec(ts[i], vals).Ok?
    requires forall i :: 0 <= i < |ts| ==> Calm(ts[i], '|', 0) && (op == '&' ==> Calm(ts[i], '&', 0))
    ensures Inner(f) && Print(f) == Join(ts, op) && (op == '&' ==> !f.Or?)
    ensures |ts| >= 2 ==> if op == '|' then f.Or? else f.And?
    decreases n, 0, |ts|
  {
    hide ResolveRec, SingleParse, Calm, NoSpace, Inner, LedByAnds, Starter;
    var t := ts[|ts| - 1];
    CalmIsOne(t, '|');
    if op == '&' { CalmIsOne(t, '&'); }
    var g := Parsed(t, vals);
    if |ts| == 1 {
      LedStart(g);
      f := g;
    } else {
      var h := ParsedAll(ts[..|ts| - 1], op, vals, n);
      if op == '|' {
        if g.Led? { LedAfterOr(g); }
        f := Or(h, g);
      } else {
        f := And(h, g);
      }
      JoinedInner(h, g, op);
    }
  }

  lemma {:induction false} LedStart(f: Formula)
    requires Accepted(f)
    ensures Print(f) != [] && Starter(Print(f)[0]) ==> !f.Led?
  {
  }

  lemma {:induction false} JoinedInner(a: Formula, b: Formula, op: char)
    requires Inner(a) && Accepted(b)
    requires op == '|' ==> b.Led? ==> LedByAnds(b)
    requires op == '&' ==> !a.Or? && !b.Or? && !b.Led?
    ensures op == '|' ==> Inner(Or(a, b))
    ensures op == '&' ==> Inner(And(a, b))
  {
  }

  lemma {:induction false} Parsed(s: string, vals: Vals) returns (f: Formula)
    requires NoSpace(s) && ProperNames(vals) && ResolveRec(s, vals).Ok?
    ensures Accepted(f) && Print(f) == s && SingleParse(s, '|').Ok?
    ensures |SingleParse(s, '|').value| <= 1 ==> !Head(f).Or?
    ensures SingleParse(s, '&').Ok? && |SingleParse(s, '|').value| <= 1 && |SingleParse(s, '&').value| <= 1 ==>
      !f.Led? && !f.And?
    decreases |s|, 2, 0
  {
    hide SingleParse, Resolve, ResolveAny, ResolveAll, NoSpace;
    var ors := SingleParse(s, '|').value;
    PartsShorter(s, '|');
    if |ors| >= 2 {
      AnyResolved(ors, vals, |s|);
      f := ParsedParts(s, '|', vals);
    } else {
      var ands := SingleParse(s, '&').value;
      PartsShorter(s, '&');
      if |ands| >= 2 {
        AllResolved(ands, vals, |s|);
        f := ParsedParts(s, '&', vals);
      } else {
        f := ParsedUnit(s, vals);
        Below(f);
      }
    }
  }

  lemma {:induction false} AnyResolved(parts: seq<string>, vals: Vals, n: nat)
    requires forall i :: 0 <= i < |parts| ==> |parts[i]| < n
    requires ResolveAny(parts, vals, n).Ok?
    ensures forall i :: 0 <= i < |parts| ==> Resolve(parts[i], vals).Ok?
    decreases |parts|
  {
    hide Resolve;
    if parts != [] { AnyResolved(parts[..|parts| - 1], vals, n); }
  }

  lemma {:induction false} AllResolved(parts: seq<string>, vals: Vals, n: nat)
    requires forall i :: 0 <= i < |parts| ==> |parts[i]| < n
    requires ResolveAll(parts, vals, n).Ok?
    ensures forall i :: 0 <= i < |parts| ==> Resolve(parts[i], vals).Ok?
    decreases |parts|
  {
    hide Resolve;
    if parts != [] { AllResolved(parts[..|parts| - 1], vals, n); }
  }

  lemma {:induction false} ScanNoSpace(st: State, s: string, op: char)
    requires NoSpace(s) && ScanText(st, s, op).Ok?
    requires (forall i :: 0 <= i < |st.parts| ==> NoSpace(st.parts[i])) && (st.cur.Some? ==> NoSpace(st.cur.value))
    ensures var r := ScanText(st, s, op).value;
      && (forall i :: 0 <= i < |r.parts| ==> NoSpace(r.parts[i])) && (r.cur.Some? ==> NoSpace(r.cur.value))
    decreases |s|
  {
    if s != [] { ScanNoSpace(st, s[..|s| - 1], op); }
  }

  lemma {:induction false} ParsedParts(s: string, op: char, vals: Vals) returns (f: Formula)
    requires (op == '|' || op == '&') && NoSpace(s) && ProperNames(vals)
    requires SingleParse(s, op).Ok? && |SingleParse(s, op).value| >= 2
    requires op == '&' ==> SingleParse(s, '|').Ok? && |SingleParse(s, '|').value| == 1
    requires forall i :: 0 <= i < |SingleParse(s, op).value| ==> Resolve(SingleParse(s, op).value[i], vals).Ok?
    ensures Accepted(f) && Print(f) == s && if op == '|' then Head(f).Or? else Head(f).And?
    decreases |s|, 1, 0
  {
    hide SingleParse, Resolve, ResolveRec, NoSpace, Inner, Calm, PassedOver, Starter, Join;
    var ts := SingleParse(s, op).value;
    PartsShorter(s, op);
    PartsNoSpace(s, op);
    forall i | 0 <= i < |ts| ensures ResolveRec(ts[i], vals).Ok? && Balance(ts[i]) == 0 {
      ResolvesAsIs(ts[i], vals);
      ResolvedBalance(ts[i], vals);
    }
    var k := Beginning(s, op);
    var t := s[k..];
    CalmParts(s, k, op);
    FirstBegins(ts, t, op);
    ResolvedBalance(ts[0], vals);
    var g := ParsedAll(ts, op, vals, |s|);
    if k == 0 {
      f := g;
      Below(g);
    } else {
      f := Led(s[..k], g);
      Prefix(s, k);
    }
  }

  lemma {:induction false} Prefix(s: string, k: nat)
    requires k <= |s| && NoSpace(s)
    ensures NoSpace(s[..k]) && s == s[..k] + s[k..]
  {
  }

  lemma {:induction false} PartsNoSpace(s: string, op: char)
    requires NoSpace(s) && SingleParse(s, op).Ok?
    ensures forall i :: 0 <= i < |SingleParse(s, op).value| ==> NoSpace(SingleParse(s, op).value[i])
  {
    hide ScanText, NoSpace;
    ScanNoSpace(START, s, op);
  }

  lemma {:induction false} CalmParts(s: string, k: nat, op: char)
    requires (op == '|' || op == '&') && k < |s| && PassedOver(s[..k]) && Starter(s[k])
    requires SingleParse(s, op).Ok? && (op == '&' ==> SingleParse(s, '|').Ok? && |SingleParse(s, '|').value| == 1)
    ensures forall i :: 0 <= i < |SingleParse(s, op).value| ==>
      Calm(SingleParse(s, op).value[i], '|', 0) && (op == '&' ==> Calm(SingleParse(s, op).value[i], '&', 0))
  {
    hide ScanText, Calm, PassedOver, Starter;
    var t := s[k..];
    assert s == s[..k] + t && t[0] == s[k];
    ScanPassesOver(s[..k], op);
    ScanConcat(START, s[..k], t, op);
    if op == '&' {
      ScanPassesOver(s[..k], '|');
      ScanConcat(START, s[..k], t, '|');
      OneIsUnbroken(s, '|');
    }
    ScanCalm(t, op, '|');
    ScanCalm(t, op, op);
  }

  lemma {:induction false} FirstBegins(ts: seq<string>, t: string, op: char)
    requires ts != [] && t != [] && t == Join(ts, op)
    ensures ts[0] != [] ==> ts[0][0] == t[0]
    decreases |ts|
  {
    if |ts| > 1 && ts[0] != [] { JoinPrefix(ts, op); }
  }

  lemma {:induction false} JoinPrefix(ts: seq<string>, op: char)
    requires ts != [] && ts[0] != []
    ensures Join(ts, op) != [] && Join(ts, op)[0] == ts[0][0]
    decreases |ts|
  {
    if |ts| > 1 { JoinPrefix(ts[..|ts| - 1], op); }
  }

  // A text resolves, over a valuation of names, if and only if it is the text, with any white
  // space, of something accepted whose names all have a value; its truth is then the result.
  lemma {:induction false} ResolvesExactly(text: string, vals: Vals)
    requires ProperNames(vals)
    ensures Resolve(text, vals).Ok? <==>
      exists f :: Accepted(f) && Print(f) == RemoveWhitespaces(text) && Names(f) <= vals.Keys
    ensures forall f :: Accepted(f) && Print(f) == RemoveWhitespaces(text) ==> Resolve(text, vals) == Truth(f, vals)
  {
    hide Resolve, ResolveRec, Accepted, Print, Truth, Names;
    ResolveIsRec(text, vals);
    if Resolve(text, vals).Ok? {
      var f := Parsed(RemoveWhitespaces(text), vals);
      ResolvePrinted(f, text, vals);
      TruthFails(f, vals);
    }
    forall f | Accepted(f) && Print(f) == RemoveWhitespaces(text)
      ensures Resolve(text, vals) == Truth(f, vals) && (Names(f) <= vals.Keys ==> Resolve(text, vals).Ok?)
    {
      ResolvePrinted(f, text, vals);
      TruthFails(f, vals);
    }
  }
}
