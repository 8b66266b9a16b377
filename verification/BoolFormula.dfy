/** Formulas, their text, and that resolving the text gives the truth of the formula. */
module BoolFormula {
  import opened Options
  import opened BoolExpr

  datatype Formula =
    | Name(name: string)
    | Const(value: bool)
    | Not(inner: Formula)
    | And(left: Formula, right: Formula)
    | Or(left: Formula, right: Formula)
    | Paren(body: Formula)
    | Led(junk: string, body: Formula)  // no formula: text that is passed over, before one

  predicate IsName(s: string) {
    s != [] && s != "0" && s != "1" && forall i :: 0 <= i < |s| ==> BelongsToName(s[i])
  }

  // & binds tighter than |, and ! tighter than both; anything else needs parentheses.
  predicate WellFormed(f: Formula) {
    match f
    case Name(s) => IsName(s)
    case Const(_) => true
    case Not(a) => WellFormed(a) && !a.And? && !a.Or?
    case And(a, b) => WellFormed(a) && WellFormed(b) && !a.Or? && !b.Or?
    case Or(a, b) => WellFormed(a) && WellFormed(b)
    case Paren(a) => WellFormed(a)
    case Led(_, _) => false
  }

  // Before the first name, negation or parenthesis every character is passed over.
  predicate PassedOver(s: string) {
    forall i :: 0 <= i < |s| ==> !BelongsToName(s[i]) && s[i] != '!' && s[i] != '(' && s[i] != ')'
  }

  predicate NoSpace(s: string) { forall i :: 0 <= i < |s| ==> !IsSpace(s[i]) }

  // What the evaluator takes: besides formulas, text that is passed over at the beginning of
  // a formula with an operator at its top level, and & before a conjunction that follows |.
  predicate Accepted(f: Formula) { if f.Led? then LedOperator(f) && Inner(f.body) else Inner(f) }

  predicate LedOperator(f: Formula) {
    f.Led? && f.junk != [] && PassedOver(f.junk) && NoSpace(f.junk) && (f.body.And? || f.body.Or?)
  }

  predicate LedByAnds(f: Formula) {
    f.Led? && f.junk != [] && (forall i :: 0 <= i < |f.junk| ==> f.junk[i] == '&') && f.body.And?
  }

  predicate Inner(f: Formula) {
    match f
    case Name(s) => IsName(s)
    case Const(_) => true
    case Not(a) => Inner(a) && !a.And? && !a.Or?
    case And(a, b) => Inner(a) && Inner(b) && !a.Or? && !b.Or?
    case Or(a, b) => Inner(a) && if b.Led? then LedByAnds(b) && Inner(b.body) else Inner(b)
    case Paren(a) => if a.Led? then LedOperator(a) && Inner(a.body) else Inner(a)
    case Led(_, _) => false
  }

  lemma {:induction false} FormulasAccepted(f: Formula)
    requires WellFormed(f)
    ensures Inner(f)
  {
    match f
    case Name(s) =>
    case Const(_) =>
    case Not(a) => FormulasAccepted(a);
    case And(a, b) => FormulasAccepted(a); FormulasAccepted(b);
    case Or(a, b) => FormulasAccepted(a); FormulasAccepted(b);
    case Paren(a) => FormulasAccepted(a);
  }

  // The parts of what is accepted are accepted.
  lemma {:induction false} Below(f: Formula)
    requires Inner(f)
    ensures f.Not? ==> Inner(f.inner) && !f.inner.And? && !f.inner.Or? && !f.inner.Led?
    ensures f.And? ==> Inner(f.left) && Inner(f.right) && !f.left.Or? && !f.right.Or? && !f.left.Led? && !f.right.Led?
    ensures f.Or? ==> Inner(f.left) && !f.left.Led? && Accepted(f.right)
    ensures f.Or? && f.right.Led? ==> LedByAnds(f.right) && Inner(f.right.body)
    ensures f.Or? && !f.right.Led? ==> Inner(f.right)
    ensures f.Paren? ==> Accepted(f.body)
    ensures !f.Led? && Accepted(f)
  {
  }

  function Print(f: Formula): string {
    match f
    case Name(s) => s
    case Const(b) => if b then "1" else "0"
    case Not(a) => "!" + Print(a)
    case And(a, b) => Print(a) + "&" + Print(b)
    case Or(a, b) => Print(a) + "|" + Print(b)
    case Paren(a) => "(" + Print(a) + ")"
    case Led(junk, a) => junk + Print(a)
  }

  // Truth under a valuation; a formula with a name that has no value has none.
  function Truth(f: Formula, vals: Vals): Result<bool> {
    match f
    case Name(s) => if s in vals then Ok(vals[s]) else Err(VariableNotFound)
    case Const(b) => Ok(b)
    case Not(a) => (match Truth(a, vals) case Err(e) => Err(e) case Ok(x) => Ok(!x))
    case And(a, b) =>
      (match Truth(a, vals) case Err(e) => Err(e)
       case Ok(x) => match Truth(b, vals) case Err(e) => Err(e) case Ok(y) => Ok(x && y))
    case Or(a, b) =>
      (match Truth(a, vals) case Err(e) => Err(e)
       case Ok(x) => match Truth(b, vals) case Err(e) => Err(e) case Ok(y) => Ok(x || y))
    case Paren(a) => Truth(a, vals)
    case Led(_, a) => Truth(a, vals)
  }

  function Names(f: Formula): set<string> {
    match f
    case Name(s) => {s}
    case Const(_) => {}
    case Not(a) => Names(a)
    case And(a, b) => Names(a) + Names(b)
    case Or(a, b) => Names(a) + Names(b)
    case Paren(a) => Names(a)
    case Led(_, a) => Names(a)
  }

  // It fails exactly when a name is missing.
  lemma {:induction false} TruthFails(f: Formula, vals: Vals)
    ensures Truth(f, vals).Err? <==> !(Names(f) <= vals.Keys)
    ensures Truth(f, vals).Err? ==> Truth(f, vals).error == VariableNotFound
  {
    match f
    case Name(s) =>
    case Const(_) =>
    case Not(a) => TruthFails(a, vals);
    case And(a, b) => TruthFails(a, vals); TruthFails(b, vals);
    case Or(a, b) => TruthFails(a, vals); TruthFails(b, vals);
    case Paren(a) => TruthFails(a, vals);
    case Led(_, a) => TruthFails(a, vals);
  }

  /* ---- scanning text in pieces ---- */

  function Then(r: Result<State>, s: string, op: char): Result<State> {
    match r case Err(e) => Err(e) case Ok(st) => ScanText(st, s, op)
  }

  lemma {:induction false} ScanConcat(st: State, a: string, b: string, op: char)
    ensures ScanText(st, a + b, op) == Then(ScanText(st, a, op), b, op)
    decreases |b|
  {
    if b == [] {
      assert a + b == a;
    } else {
      assert (a + b)[..|a + b| - 1] == a + b[..|b| - 1];
      ScanConcat(st, a, b[..|b| - 1], op);
    }
  }

  lemma {:induction false} ScanOne(st: State, c: char, op: char)
    ensures ScanText(st, [c], op) == Step(st, c, op)
  {
    assert [c][..0] == [];
  }

  lemma {:induction false} Scan3(st: State, a: string, c: char, b: string, op: char)
    ensures ScanText(st, a + [c] + b, op)
         == match ScanText(st, a, op) { case Err(e) => Err(e) case Ok(m) => Then(Step(m, c, op), b, op) }
  {
    ScanConcat(st, a + [c], b, op);
    ScanConcat(st, a, [c], op);
    if ScanText(st, a, op).Ok? { ScanOne(ScanText(st, a, op).value, c, op); }
  }

  // Inside parentheses a printed formula is read as it is.
  lemma {:induction false} ScanInside(f: Formula, x: string, p: int, parts: seq<string>, op: char)
    requires Accepted(f) && p >= 1
    ensures ScanText(State(Some(x), p, parts), Print(f), op) == Ok(State(Some(x + Print(f)), p, parts))
    decreases Size(f), 0
  {
    hide BelongsToName, IsName, NoSpace, Inner;
    var st := State(Some(x), p, parts);
    if f.Led? { Below(f.body); } else { Below(f); }
    match f
    case Name(s) => NameAccepted(f); NamePlain(s); PlainInside(s, x, p, parts, op);
    case Const(b) => ScanOne(st, if b then '1' else '0', op);
    case Not(a) => LedInside("!", a, x, p, parts, op);
    case And(a, b) => BinaryInside(a, '&', b, x, p, parts, op);
    case Or(a, b) =>
      BinaryInside(a, '|', b, x, p, parts, op);
    case Paren(a) => ParenInside(a, x, p, parts, op);
    case Led(junk, a) => LedInside(junk, a, x, p, parts, op);
  }

  lemma {:induction false} LedInside(lead: string, a: Formula, x: string, p: int, parts: seq<string>, op: char)
    requires Accepted(a) && p >= 1 && forall i :: 0 <= i < |lead| ==> lead[i] != '(' && lead[i] != ')'
    ensures ScanText(State(Some(x), p, parts), lead + Print(a), op)
         == Ok(State(Some(x + (lead + Print(a))), p, parts))
    decreases Size(a), 1
  {
    hide BelongsToName, Accepted, Print;
    ScanConcat(State(Some(x), p, parts), lead, Print(a), op);
    PlainInside(lead, x, p, parts, op);
    ScanInside(a, x + lead, p, parts, op);
    assert x + lead + Print(a) == x + (lead + Print(a));
  }

  lemma {:induction false} BinaryInside(a: Formula, c: char, b: Formula, x: string, p: int, parts: seq<string>,
                                        op: char)
    requires Accepted(a) && Accepted(b) && (c == '&' || c == '|') && p >= 1
    ensures ScanText(State(Some(x), p, parts), Print(a) + [c] + Print(b), op)
         == Ok(State(Some(x + (Print(a) + [c] + Print(b))), p, parts))
    decreases Size(a) + Size(b), 1
  {
    hide BelongsToName, Accepted, Print;
    Scan3(State(Some(x), p, parts), Print(a), c, Print(b), op);
    ScanInside(a, x, p, parts, op);
    ScanInside(b, x + Print(a) + [c], p, parts, op);
    assert x + Print(a) + [c] + Print(b) == x + (Print(a) + [c] + Print(b));
  }

  lemma {:induction false} ParenInside(a: Formula, x: string, p: int, parts: seq<string>, op: char)
    requires Accepted(a) && p >= 0
    ensures ScanText(State(Some(x), p, parts), "(" + Print(a) + ")", op)
         == Ok(State(Some(x + ("(" + Print(a) + ")")), p, parts))
    decreases Size(a), 1
  {
    hide BelongsToName;
    var st := State(Some(x), p, parts);
    ScanConcat(st, "(" + Print(a), ")", op);
    ScanConcat(st, "(", Print(a), op);
    ScanOne(st, '(', op);
    ScanInside(a, x + "(", p + 1, parts, op);
    ScanOne(State(Some(x + "(" + Print(a)), p + 1, parts), ')', op);
    assert x + "(" + Print(a) + ")" == x + ("(" + Print(a) + ")");
  }

  lemma {:induction false} NameAccepted(f: Formula)
    requires Accepted(f) && f.Name?
    ensures IsName(f.name)
  {
  }

  lemma {:induction false} NamePlain(s: string)
    requires IsName(s)
    ensures forall i :: 0 <= i < |s| ==> s[i] != '(' && s[i] != ')' && s[i] != '!' && BelongsToName(s[i])
  {
  }

  lemma {:induction false} PlainInside(s: string, x: string, p: int, parts: seq<string>, op: char)
    requires forall i :: 0 <= i < |s| ==> s[i] != '(' && s[i] != ')' && (p != 0 || BelongsToName(s[i]))
    ensures ScanText(State(Some(x), p, parts), s, op) == Ok(State(Some(x + s), p, parts))
    decreases |s|
  {
    if s == [] {
      assert x + s == x;
    } else {
      PlainInside(s[..|s| - 1], x, p, parts, op);
      assert x + s[..|s| - 1] + [s[|s| - 1]] == x + s;
    }
  }

  /* ---- scanning at the top level ---- */

  function Pre(cur: Option<string>): string { if cur.None? then [] else cur.value }

  lemma {:induction false} PlainTop(s: string, cur: Option<string>, parts: seq<string>, op: char)
    requires s != [] && forall i :: 0 <= i < |s| ==> s[i] != '(' && s[i] != ')' && BelongsToName(s[i])
    ensures ScanText(State(cur, 0, parts), s, op) == Ok(State(Some(Pre(cur) + s), 0, parts))
  {
    if cur.Some? {
      PlainInside(s, cur.value, 0, parts, op);
    } else {
      var st := State(cur, 0, parts);
      assert s == [s[0]] + s[1..];
      ScanConcat(st, [s[0]], s[1..], op);
      ScanOne(st, s[0], op);
      PlainInside(s[1..], [s[0]], 0, parts, op);
      assert [] + s == s;
    }
  }

  // Whether the operator does not occur in the formula outside parentheses.
  predicate Unsplit(f: Formula, op: char) { !f.Or? && (op == '&' ==> !f.And?) }

  // Then its text is read into the current part.
  lemma {:induction false} ScanUnit(f: Formula, cur: Option<string>, parts: seq<string>, op: char)
    requires Inner(f) && Unsplit(f, op) && (op == '|' || op == '&')
    ensures ScanText(State(cur, 0, parts), Print(f), op) == Ok(State(Some(Pre(cur) + Print(f)), 0, parts))
    decreases f, 1
  {
    match f
    case Name(s) => NamePlain(s); PlainTop(s, cur, parts, op);
    case Const(b) => PlainTop(Print(f), cur, parts, op);
    case Not(a) => UnitNot(a, cur, parts, op);
    case And(a, b) => UnitAnd(a, b, cur, parts, op);
    case Paren(a) => UnitParen(a, cur, parts, op);
  }

  lemma {:induction false} UnitNot(a: Formula, cur: Option<string>, parts: seq<string>, op: char)
    requires Inner(a) && !a.And? && !a.Or? && (op == '|' || op == '&')
    ensures ScanText(State(cur, 0, parts), "!" + Print(a), op) == Ok(State(Some(Pre(cur) + ("!" + Print(a))), 0, parts))
    decreases a, 2
  {
    hide BelongsToName, Inner;
    var st := State(cur, 0, parts);
    ScanConcat(st, "!", Print(a), op);
    ScanOne(st, '!', op);
    ScanUnit(a, Some(Pre(cur) + "!"), parts, op);
    assert Pre(cur) + "!" + Print(a) == Pre(cur) + ("!" + Print(a));
    assert [] + "!" == "!";
  }

  lemma {:induction false} UnitAnd(a: Formula, b: Formula, cur: Option<string>, parts: seq<string>, op: char)
    requires Inner(a) && Inner(b) && !a.Or? && !b.Or? && op == '|'
    ensures ScanText(State(cur, 0, parts), Print(a) + "&" + Print(b), op)
         == Ok(State(Some(Pre(cur) + (Print(a) + "&" + Print(b))), 0, parts))
    decreases And(a, b), 0
  {
    hide Inner, BelongsToName, Print;
    AmpersandIsNoName();
    Scan3(State(cur, 0, parts), Print(a), '&', Print(b), op);
    ScanUnit(a, cur, parts, op);
    ScanUnit(b, Some(Pre(cur) + Print(a) + "&"), parts, op);
    assert Pre(cur) + Print(a) + "&" + Print(b) == Pre(cur) + (Print(a) + "&" + Print(b));
  }

  lemma {:induction false} AmpersandIsNoName()
    ensures !BelongsToName('&')
  {
  }

  lemma {:induction false} UnitParen(a: Formula, cur: Option<string>, parts: seq<string>, op: char)
    requires Accepted(a)
    ensures ScanText(State(cur, 0, parts), "(" + Print(a) + ")", op)
         == Ok(State(Some(Pre(cur) + ("(" + Print(a) + ")")), 0, parts))
  {
    hide BelongsToName, Accepted;
    if cur.Some? {
      ParenInside(a, cur.value, 0, parts, op);
    } else {
      var st := State(cur, 0, parts);
      ScanConcat(st, "(" + Print(a), ")", op);
      ScanConcat(st, "(", Print(a), op);
      ScanOne(st, '(', op);
      ScanInside(a, "(", 1, parts, op);
      ScanOne(State(Some("(" + Print(a)), 1, parts), ')', op);
      assert [] + ("(" + Print(a) + ")") == "(" + Print(a) + ")";
    }
  }

  /* ---- splitting printed formulas ---- */

  // The operands at the top level.
  function Parts(f: Formula, op: char): (r: seq<Formula>)
    ensures r != []
  {
    if op == '|' && f.Or? then Parts(f.left, op) + Parts(f.right, op)
    else if op == '&' && f.And? then Parts(f.left, op) + Parts(f.right, op)
    else [f]
  }

  function Size(f: Formula): nat {
    match f
    case Name(_) => 1
    case Const(_) => 1
    case Not(a) => 1 + Size(a)
    case And(a, b) => 1 + Size(a) + Size(b)
    case Or(a, b) => 1 + Size(a) + Size(b)
    case Paren(a) => 1 + Size(a)
    case Led(_, a) => 1 + Size(a)
  }

  function Texts(fs: seq<Formula>): seq<string> { seq(|fs|, i requires 0 <= i < |fs| => Print(fs[i])) }

  // The state once the given parts were read, the last of them still open.
  function Reading(cur: Option<string>, parts: seq<string>, texts: seq<string>): State
    requires texts != []
  {
    var t := [Pre(cur) + texts[0]] + texts[1..];
    State(Some(t[|t| - 1]), 0, parts + t[..|t| - 1])
  }

  lemma {:induction false} ReadingJoin(cur: Option<string>, parts: seq<string>, a: seq<string>, b: seq<string>)
    requires a != [] && b != []
    ensures var m := Reading(cur, parts, a);
      Reading(Some([]), m.parts + [m.cur.value], b) == Reading(cur, parts, a + b)
  {
    var ta, tb := [Pre(cur) + a[0]] + a[1..], [[] + b[0]] + b[1..];
    assert [] + b[0] == b[0] && tb == b;
    var t := [Pre(cur) + (a + b)[0]] + (a + b)[1..];
    assert t == ta + b;
    assert ta == ta[..|ta| - 1] + [ta[|ta| - 1]];
    assert t[..|t| - 1] == ta + b[..|b| - 1];
    assert parts + ta[..|ta| - 1] + [ta[|ta| - 1]] + b[..|b| - 1] == parts + t[..|t| - 1];
  }

  lemma {:induction false} TextsConcat(a: seq<Formula>, b: seq<Formula>)
    ensures Texts(a + b) == Texts(a) + Texts(b)
  {
  }

  // A formula without | at its top when splitting at &.
  predicate Splittable(f: Formula, op: char) { (op == '|' || op == '&') && (op == '&' ==> !f.Or?) }

  // After |, leading & stay with what follows them.
  lemma {:induction false} UnitLed(f: Formula, x: string, parts: seq<string>)
    requires LedByAnds(f) && Inner(f.body)
    ensures ScanText(State(Some(x), 0, parts), Print(f), '|') == Ok(State(Some(x + Print(f)), 0, parts))
  {
    hide BelongsToName, Inner;
    ScanConcat(State(Some(x), 0, parts), f.junk, Print(f.body), '|');
    AndsStay(f.junk, x, parts);
    ScanUnit(f.body, Some(x + f.junk), parts, '|');
    assert x + f.junk + Print(f.body) == x + (f.junk + Print(f.body));
  }

  lemma {:induction false} AndsStay(s: string, x: string, parts: seq<string>)
    requires forall i :: 0 <= i < |s| ==> s[i] == '&'
    ensures ScanText(State(Some(x), 0, parts), s, '|') == Ok(State(Some(x + s), 0, parts))
    decreases |s|
  {
    if s == [] {
      assert x + s == x;
    } else {
      AndsStay(s[..|s| - 1], x, parts);
      assert x + s[..|s| - 1] + [s[|s| - 1]] == x + s;
    }
  }

  // What may stand beside an operator, where cur says whether a part has begun.
  predicate Operand(f: Formula, cur: Option<string>, op: char) {
    if f.Led? then cur.Some? && op == '|' && LedByAnds(f) && Inner(f.body) else Inner(f)
  }

  lemma {:induction false} ScanParts(f: Formula, cur: Option<string>, parts: seq<string>, op: char)
    requires Operand(f, cur, op) && Splittable(f, op)
    ensures ScanText(State(cur, 0, parts), Print(f), op) == Ok(Reading(cur, parts, Texts(Parts(f, op))))
    decreases Size(f)
  {
    if (op == '|' && f.Or?) || (op == '&' && f.And?) {
      Below(f);
      ScanBoth(f.left, f.right, cur, parts, op);
      TextsConcat(Parts(f.left, op), Parts(f.right, op));
    } else {
      if f.Led? { UnitLed(f, cur.value, parts); } else { ScanUnit(f, cur, parts, op); }
      assert parts + [] == parts;
    }
  }

  lemma {:induction false} ScanBoth(a: Formula, b: Formula, cur: Option<string>, parts: seq<string>, op: char)
    requires Operand(a, cur, op) && Operand(b, Some([]), op) && Splittable(a, op) && Splittable(b, op)
    ensures ScanText(State(cur, 0, parts), Print(a) + [op] + Print(b), op)
         == Ok(Reading(cur, parts, Texts(Parts(a, op)) + Texts(Parts(b, op))))
    decreases Size(a) + Size(b)
  {
    hide Operand, Print, Parts, Texts;
    Scan3(State(cur, 0, parts), Print(a), op, Print(b), op);
    ScanParts(a, cur, parts, op);
    var ta, tb := Texts(Parts(a, op)), Texts(Parts(b, op));
    TextsNonEmpty(Parts(a, op));
    TextsNonEmpty(Parts(b, op));
    var m := Reading(cur, parts, ta);
    ScanParts(b, Some([]), m.parts + [m.cur.value], op);
    ReadingJoin(cur, parts, ta, tb);
  }

  lemma {:induction false} TextsNonEmpty(fs: seq<Formula>)
    requires fs != []
    ensures Texts(fs) != []
  {
  }

  lemma {:induction false} SplitPrinted(f: Formula, op: char)
    requires Inner(f) && Splittable(f, op)
    ensures SingleParse(Print(f), op) == Ok(Texts(Parts(f, op)))
  {
    hide Inner, Print, Parts, ScanText;
    Below(f);
    ScanParts(f, None, [], op);
    var ts := Texts(Parts(f, op));
    var t := [[] + ts[0]] + ts[1..];
    assert [] + ts[0] == ts[0] && t == ts;
    assert [] + t[..|t| - 1] + [t[|t| - 1]] == ts;
  }

  /* ---- truth of the parts ---- */

  function AnyTruth(fs: seq<Formula>, vals: Vals): Result<bool> {
    if fs == [] then Ok(false)
    else
      match AnyTruth(fs[..|fs| - 1], vals)
      case Err(e) => Err(e)
      case Ok(a) => match Truth(fs[|fs| - 1], vals) case Err(e) => Err(e) case Ok(b) => Ok(a || b)
  }

  function AllTruth(fs: seq<Formula>, vals: Vals): Result<bool> {
    if fs == [] then Ok(true)
    else
      match AllTruth(fs[..|fs| - 1], vals)
      case Err(e) => Err(e)
      case Ok(a) => match Truth(fs[|fs| - 1], vals) case Err(e) => Err(e) case Ok(b) => Ok(a && b)
  }

  lemma {:induction false} AnyConcat(a: seq<Formula>, b: seq<Formula>, vals: Vals)
    ensures AnyTruth(a + b, vals)
         == match AnyTruth(a, vals) { case Err(e) => Err(e)
            case Ok(x) => match AnyTruth(b, vals) { case Err(e) => Err(e) case Ok(y) => Ok(x || y) } }
    decreases |b|
  {
    if b == [] {
      assert a + b == a;
    } else {
      assert (a + b)[..|a + b| - 1] == a + b[..|b| - 1];
      AnyConcat(a, b[..|b| - 1], vals);
    }
  }

  lemma {:induction false} AllConcat(a: seq<Formula>, b: seq<Formula>, vals: Vals)
    ensures AllTruth(a + b, vals)
         == match AllTruth(a, vals) { case Err(e) => Err(e)
            case Ok(x) => match AllTruth(b, vals) { case Err(e) => Err(e) case Ok(y) => Ok(x && y) } }
    decreases |b|
  {
    if b == [] {
      assert a + b == a;
    } else {
      assert (a + b)[..|a + b| - 1] == a + b[..|b| - 1];
      AllConcat(a, b[..|b| - 1], vals);
    }
  }

  // A disjunction is true when one of its parts is, a conjunction when all are.
  lemma {:induction false} PartsTruth(f: Formula, vals: Vals)
    ensures AnyTruth(Parts(f, '|'), vals) == Truth(f, vals)
    ensures AllTruth(Parts(f, '&'), vals) == Truth(f, vals)
    decreases f
  {
    assert [f][..0] == [];
    if f.Or? {
      PartsTruth(f.left, vals);
      PartsTruth(f.right, vals);
      AnyConcat(Parts(f.left, '|'), Parts(f.right, '|'), vals);
    } else if f.And? {
      PartsTruth(f.left, vals);
      PartsTruth(f.right, vals);
      AllConcat(Parts(f.left, '&'), Parts(f.right, '&'), vals);
    }
  }

  // The parts are accepted and, when there are several, smaller.
  lemma {:induction false} PartsSmaller(f: Formula, op: char)
    requires Accepted(f)
    ensures forall i :: 0 <= i < |Parts(f, op)| ==> Accepted(Parts(f, op)[i]) && Size(Parts(f, op)[i]) <= Size(f)
    ensures |Parts(f, op)| >= 2 ==> forall i :: 0 <= i < |Parts(f, op)| ==> Size(Parts(f, op)[i]) < Size(f)
    decreases f
  {
    if (op == '|' && f.Or?) || (op == '&' && f.And?) {
      Below(f);
      PartsSmaller(f.left, op);
      PartsSmaller(f.right, op);
    }
  }

  /* ---- the theorem ---- */

  lemma {:induction false} PrintedHasNoSpace(f: Formula)
    requires Accepted(f)
    ensures Print(f) != [] && forall i :: 0 <= i < |Print(f)| ==> !IsSpace(Print(f)[i])
    decreases f
  {
    if f.Led? { Below(f.body); } else { Below(f); }
    match f
    case Name(s) =>
    case Const(_) =>
    case Not(a) => PrintedHasNoSpace(a);
    case And(a, b) => PrintedHasNoSpace(a); PrintedHasNoSpace(b);
    case Or(a, b) => PrintedHasNoSpace(a); PrintedHasNoSpace(b);
    case Paren(a) => PrintedHasNoSpace(a);
    case Led(_, a) => PrintedHasNoSpace(a);
  }

  lemma {:induction false} AnyPrinted(fs: seq<Formula>, vals: Vals, n: nat)
    requires forall i :: 0 <= i < |fs| ==> |Print(fs[i])| < n && Resolve(Print(fs[i]), vals) == Truth(fs[i], vals)
    ensures ResolveAny(Texts(fs), vals, n) == AnyTruth(fs, vals)
    decreases |fs|
  {
    hide Resolve, Truth, Print;
    if fs != [] {
      assert Texts(fs)[..|fs| - 1] == Texts(fs[..|fs| - 1]);
      AnyPrinted(fs[..|fs| - 1], vals, n);
    }
  }

  lemma {:induction false} AllPrinted(fs: seq<Formula>, vals: Vals, n: nat)
    requires forall i :: 0 <= i < |fs| ==> |Print(fs[i])| < n && Resolve(Print(fs[i]), vals) == Truth(fs[i], vals)
    ensures ResolveAll(Texts(fs), vals, n) == AllTruth(fs, vals)
    decreases |fs|
  {
    hide Resolve, Truth, Print;
    if fs != [] {
      assert Texts(fs)[..|fs| - 1] == Texts(fs[..|fs| - 1]);
      AllPrinted(fs[..|fs| - 1], vals, n);
    }
  }

  // Resolving the text of a formula, with any white space in it, gives its truth.
  lemma {:induction false} ResolvePrinted(f: Formula, text: string, vals: Vals)
    requires Accepted(f) && RemoveWhitespaces(text) == Print(f)
    ensures Resolve(text, vals) == Truth(f, vals)
  {
    RecPrinted(f, vals);
  }

  lemma {:induction false} RecPrinted(f: Formula, vals: Vals)
    requires Accepted(f)
    ensures ResolveRec(Print(f), vals) == Truth(f, vals)
    decreases Size(f), 2
  {
    if f.Led? {
      LedPrinted(f, vals);
    } else if f.Or? {
      OrPrinted(f, vals);
    } else if f.And? {
      AndPrinted(f, vals);
    } else {
      UnitPrinted(f, vals);
    }
  }

  lemma {:induction false} EachPrinted(f: Formula, op: char, vals: Vals)
    requires Accepted(f) && |Parts(f, op)| >= 2
    ensures forall i :: 0 <= i < |Parts(f, op)| ==>
      Resolve(Print(Parts(f, op)[i]), vals) == Truth(Parts(f, op)[i], vals)
    decreases Size(f), 0
  {
    hide Print, Truth, Parts, ResolveRec, Accepted;
    PartsSmaller(f, op);
    forall i | 0 <= i < |Parts(f, op)| ensures Resolve(Print(Parts(f, op)[i]), vals) == Truth(Parts(f, op)[i], vals) {
      var g := Parts(f, op)[i];
      RecPrinted(g, vals);
      PrintedHasNoSpace(g);
      NothingToRemove(Print(g));
    }
  }

  lemma {:induction false} OrPrinted(f: Formula, vals: Vals)
    requires Inner(f) && f.Or?
    ensures ResolveRec(Print(f), vals) == Truth(f, vals)
    decreases Size(f), 1
  {
    hide Print, Truth, Inner, SingleParse, ResolveAny, ResolveAll, Resolve;
    SplitPrinted(f, '|');
    PartsShorter(Print(f), '|');
    PrintedHasNoSpace(f);
    EachPrinted(f, '|', vals);
    var fs := Parts(f, '|');
    assert forall i :: 0 <= i < |fs| ==> Texts(fs)[i] == Print(fs[i]);
    AnyPrinted(fs, vals, |Print(f)|);
    PartsTruth(f, vals);
  }

  lemma {:induction false} AndPrinted(f: Formula, vals: Vals)
    requires Inner(f) && f.And?
    ensures ResolveRec(Print(f), vals) == Truth(f, vals)
    decreases Size(f), 1
  {
    hide Print, Truth, Inner, SingleParse, ResolveAny, ResolveAll, Resolve;
    SplitPrinted(f, '|');
    SplitPrinted(f, '&');
    PartsShorter(Print(f), '&');
    PrintedHasNoSpace(f);
    EachPrinted(f, '&', vals);
    var fs := Parts(f, '&');
    assert forall i :: 0 <= i < |fs| ==> Texts(fs)[i] == Print(fs[i]);
    AllPrinted(fs, vals, |Print(f)|);
    PartsTruth(f, vals);
  }

  lemma {:induction false} UnitPrinted(f: Formula, vals: Vals)
    requires Inner(f) && !f.Or? && !f.And?
    ensures ResolveRec(Print(f), vals) == Truth(f, vals)
    decreases Size(f), 1
  {
    hide SingleParse, ResolveRec, Inner, Accepted, IsName, Print;
    Below(f);
    SplitPrinted(f, '|');
    SplitPrinted(f, '&');
    PrintedHasNoSpace(f);
    match f
    case Name(s) => NameAccepted(f); ResolveName(s, vals);
    case Const(b) => ResolveConst(b, vals);
    case Not(a) =>
      Below(a);
      RecPrinted(a, vals);
      ResolveInner(a, vals);
      ResolveNot(a, vals);
    case Paren(a) =>
      RecPrinted(a, vals);
      ResolveInner(a, vals);
      ResolveParen(a, vals);
  }

  // The text has no operator at its top level.
  predicate Single(s: string) {
    && SingleParse(s, '|').Ok? && |SingleParse(s, '|').value| == 1
    && SingleParse(s, '&').Ok? && |SingleParse(s, '&').value| == 1
  }

  lemma {:induction false} ResolveInner(a: Formula, vals: Vals)
    requires Accepted(a)
    ensures Print(a) != [] && Resolve(Print(a), vals) == ResolveRec(Print(a), vals)
  {
    hide ResolveRec, Accepted;
    PrintedHasNoSpace(a);
    NothingToRemove(Print(a));
  }

  lemma {:induction false} ResolveName(s: string, vals: Vals)
    requires IsName(s) && Single(Print(Name(s)))
    ensures ResolveRec(Print(Name(s)), vals) == Truth(Name(s), vals)
  {
    hide SingleParse, IsName, Resolve, ResolveAny, ResolveAll;
    NamePlain(s);
    NameIsNoConst(s);
  }

  lemma {:induction false} NameIsNoConst(s: string)
    requires IsName(s)
    ensures s != [] && s != "0" && s != "1"
  {
  }

  lemma {:induction false} ResolveConst(b: bool, vals: Vals)
    requires Single(Print(Const(b)))
    ensures ResolveRec(Print(Const(b)), vals) == Truth(Const(b), vals)
  {
    hide SingleParse, Resolve, ResolveAny, ResolveAll;
  }

  lemma {:induction false} ResolveNot(a: Formula, vals: Vals)
    requires Single(Print(Not(a))) && Resolve(Print(a), vals) == Truth(a, vals)
    ensures ResolveRec(Print(Not(a)), vals) == Truth(Not(a), vals)
  {
    hide SingleParse, Resolve, ResolveAny, ResolveAll;
    assert Print(Not(a))[1..] == Print(a);
  }

  lemma {:induction false} ResolveParen(a: Formula, vals: Vals)
    requires Single(Print(Paren(a))) && Resolve(Print(a), vals) == Truth(a, vals)
    ensures ResolveRec(Print(Paren(a)), vals) == Truth(Paren(a), vals)
  {
    hide SingleParse, Resolve, ResolveAny, ResolveAll;
    assert Print(Paren(a))[1..|Print(Paren(a))| - 1] == Print(a);
  }

  /* ---- text that no formula prints ---- */

  lemma {:induction false} ScanPassesOver(junk: string, op: char)
    requires PassedOver(junk)
    ensures ScanText(START, junk, op) == Ok(START)
  {
    if junk != [] { ScanPassesOver(junk[..|junk| - 1], op); }
  }

  lemma {:induction false} SplitPassesOver(junk: string, s: string, op: char)
    requires PassedOver(junk)
    ensures SingleParse(junk + s, op) == SingleParse(s, op)
  {
    ScanPassesOver(junk, op);
    ScanConcat(START, junk, s, op);
  }

  // The text has an operator at its top level.
  predicate Splits(s: string) {
    var ors, ands := SingleParse(s, '|'), SingleParse(s, '&');
    ors.Ok? && (|ors.value| >= 2 || (|ors.value| == 1 && ands.Ok? && |ands.value| >= 2))
  }

  lemma {:induction false} AnyIgnoresBound(parts: seq<string>, vals: Vals, n: nat, m: nat)
    requires forall i :: 0 <= i < |parts| ==> |parts[i]| < n && |parts[i]| < m
    ensures ResolveAny(parts, vals, n) == ResolveAny(parts, vals, m)
    decreases |parts|
  {
    hide Resolve;
    if parts != [] { AnyIgnoresBound(parts[..|parts| - 1], vals, n, m); }
  }

  lemma {:induction false} AllIgnoresBound(parts: seq<string>, vals: Vals, n: nat, m: nat)
    requires forall i :: 0 <= i < |parts| ==> |parts[i]| < n && |parts[i]| < m
    ensures ResolveAll(parts, vals, n) == ResolveAll(parts, vals, m)
    decreases |parts|
  {
    hide Resolve;
    if parts != [] { AllIgnoresBound(parts[..|parts| - 1], vals, n, m); }
  }

  // What is passed over does not matter to a text that splits. One that does not split then
  // resolves exactly when the valuation has the whole of it, what was passed over included.
  lemma {:induction false} LeadingTextIgnored(junk: string, s: string, vals: Vals)
    requires PassedOver(junk) && junk != [] && s != []
    ensures Splits(s) ==> ResolveRec(junk + s, vals) == ResolveRec(s, vals)
    ensures !Splits(s) ==> (ResolveRec(junk + s, vals).Ok? <==>
      SingleParse(s, '|').Ok? && SingleParse(s, '&').Ok?
          && SingleParse(s, '|').value != [] && SingleParse(s, '&').value != []
      && junk + s in vals)
  {
    hide SingleParse, Resolve;
    SplitPassesOver(junk, s, '|');
    SplitPassesOver(junk, s, '&');
    assert (junk + s)[0] == junk[0];
    if Splits(s) {
      var ors, ands := SingleParse(s, '|'), SingleParse(s, '&');
      PartsShorter(s, '|');
      if |ors.value| >= 2 {
        AnyIgnoresBound(ors.value, vals, |junk + s|, |s|);
      } else {
        PartsShorter(s, '&');
        AllIgnoresBound(ands.value, vals, |junk + s|, |s|);
      }
    }
  }

  lemma {:induction false} LedPrinted(f: Formula, vals: Vals)
    requires LedOperator(f) && Inner(f.body)
    ensures ResolveRec(Print(f), vals) == Truth(f, vals)
    decreases Size(f), 1
  {
    hide Inner, SingleParse, ResolveRec, Parts;
    PrintedHasNoSpace(f.body);
    OperatorSplits(f.body);
    LeadingTextIgnored(f.junk, Print(f.body), vals);
    RecPrinted(f.body, vals);
  }

  lemma {:induction false} OperatorSplits(f: Formula)
    requires Inner(f) && (f.And? || f.Or?)
    ensures Splits(Print(f))
  {
    SplitPrinted(f, '|');
    if f.And? { SplitPrinted(f, '&'); }
  }

  // For one, an operator that has nothing before it is taken as if it were not there.
  lemma {:induction false} LeadingOperator(vals: Vals)
    requires "a" in vals && "b" in vals
    ensures Resolve("&a|b", vals) == Ok(vals["a"] || vals["b"])
  {
    hide ResolveRec, Resolve, RemoveWhitespaces;
    var f := Led("&", Or(Name("a"), Name("b")));
    assert Print(f) == "&a|b";
    PrintedHasNoSpace(f);
    NothingToRemove(Print(f));
    ResolvePrinted(f, Print(f), vals);
    assert Truth(f.body, vals) == Ok(vals["a"] || vals["b"]);
  }

  lemma {:induction false} ResolveIsRec(s: string, vals: Vals)
    ensures Resolve(s, vals) == ResolveRec(RemoveWhitespaces(s), vals)
  {
  }
}
