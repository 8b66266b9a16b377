/** The evaluator of boolean verifier strings: names, 0, 1, !, &, | and parentheses,
    resolved by splitting the text at its top-level operators. */
module BoolExpr {
  import opened Options

  datatype Error = EmptySubExpression | UnknownOperator | ParenthesisParity | NotAFormula | VariableNotFound

  datatype Result<T> = Ok(value: T) | Err(error: Error)

  type Vals = map<string, bool>

  /* ---- characters ---- */

  predicate BelongsToName(c: char) {
    '0' <= c <= '9' || 'A' <= c <= 'Z' || 'a' <= c <= 'z' || c == '_' || c == '#' || c == '.'
  }

  // The names of qualifiers, capitals, digits, points and underscores after #, are names here, and
  // no operator, parenthesis or space is part of one.
  lemma {:induction false} NameCharacters(c: char)
    ensures 'A' <= c <= 'Z' || 'a' <= c <= 'z' || '0' <= c <= '9' || c == '.' || c == '_' || c == '#' ==>
      BelongsToName(c)
    ensures IsSpace(c) || c in "&|!()" ==> !BelongsToName(c)
    ensures c > 'z' || c < '#' || c in "$%'*+,-/:;<=>?@[\\]^`{" ==> !BelongsToName(c)
  {
  }

  function RemoveWhitespaces(s: string): (r: string)
    ensures |r| <= |s|
    ensures forall i :: 0 <= i < |r| ==> !IsSpace(r[i])
  {
    if s == [] then []
    else
      var n := |s| - 1;
      RemoveWhitespaces(s[..n]) + if IsSpace(s[n]) then [] else [s[n]]
  }

  method StripWhitespaces(source: string) returns (result: string)
    ensures result == RemoveWhitespaces(source)
  {
    result := [];
    for i := 0 to |source|
      invariant result == RemoveWhitespaces(source[..i])
    {
      assert source[..i + 1][..i] == source[..i];
      if !IsSpace(source[i]) { result := result + [source[i]]; }
    }
    assert source[..|source|] == source;
  }

  lemma {:induction false} NothingToRemove(s: string)
    requires forall i :: 0 <= i < |s| ==> !IsSpace(s[i])
    ensures RemoveWhitespaces(s) == s
  {
    if s != [] { NothingToRemove(s[..|s| - 1]); }
  }

  /* ---- splitting at an operator ---- */

  // The part being read, if it has begun, how deep in parentheses it is, and the parts
  // read before.
  datatype State = State(cur: Option<string>, parity: int, parts: seq<string>)

  function Extend(cur: Option<string>, c: char): Option<string> { if cur.None? then None else Some(cur.value + [c]) }

  function Step(st: State, c: char, op: char): Result<State> {
    if c == ')' then Ok(st.(parity := st.parity - 1, cur := Extend(st.cur, c)))
    else if c == '(' then Ok(st.(parity := st.parity + 1, cur := if st.cur.None? then Some([c]) else Extend(st.cur, c)))
    else if st.parity != 0 then Ok(st.(cur := Extend(st.cur, c)))
    else if BelongsToName(c) || c == '!' then Ok(st.(cur := if st.cur.None? then Some([c]) else Extend(st.cur, c)))
    else if st.cur.None? then Ok(st)
    else if c == op then Ok(State(Some([]), 0, st.parts + [st.cur.value]))
    else if c != '&' && c != '|' then Err(UnknownOperator)
    else Ok(st.(cur := Extend(st.cur, c)))
  }

  function ScanText(st: State, s: string, op: char): Result<State>
    decreases |s|
  {
    if s == [] then Ok(st)
    else
      match ScanText(st, s[..|s| - 1], op)
      case Err(e) => Err(e)
      case Ok(mid) => Step(mid, s[|s| - 1], op)
  }

  const START := State(None, 0, [])

  function Finish(st: State): Result<seq<string>> {
    if st.parity != 0 then Err(ParenthesisParity)
    else Ok(if st.cur.None? then st.parts else st.parts + [st.cur.value])
  }

  function SingleParse(formula: string, op: char): Result<seq<string>> {
    match ScanText(START, formula, op)
    case Err(e) => Err(e)
    case Ok(st) => Finish(st)
  }

  // The parts are kept as positions in the text.
  method SplitAt(formula: string, op: char) returns (r: Result<seq<string>>)
    requires op == '|' || op == '&'
    ensures r == SingleParse(formula, op)
  {
    var startPos, parityCount := -1, 0;
    var subexpressions: seq<string> := [];
    for i := 0 to |formula|
      invariant -1 <= startPos <= i
      invariant ScanText(START, formula[..i], op)
             == Ok(State(if startPos == -1 then None else Some(formula[startPos..i]), parityCount, subexpressions))
    {
      assert formula[..i + 1][..i] == formula[..i];
      assert startPos != -1 ==> formula[startPos..i + 1] == formula[startPos..i] + [formula[i]];
      assert formula[i..i + 1] == [formula[i]] && formula[i + 1..i + 1] == [];
      var c := formula[i];
      if c == ')' {
        parityCount := parityCount - 1;
      } else if c == '(' {
        parityCount := parityCount + 1;
        if startPos == -1 { startPos := i; }
      } else if parityCount == 0 {
        if startPos == -1 {
          if BelongsToName(c) || c == '!' { startPos := i; }
        } else if !(BelongsToName(c) || c == '!') {
          if op == c {
            subexpressions := subexpressions + [formula[startPos..i]];
            startPos := i + 1;
          } else if c != '&' && c != '|' {
            FailsEarly(formula, i + 1, op);
            return Err(UnknownOperator);
          }
        }
      }
    }
    assert formula[..|formula|] == formula;
    if startPos != -1 { subexpressions := subexpressions + [formula[startPos..]]; }
    if parityCount != 0 { return Err(ParenthesisParity); }
    r := Ok(subexpressions);
  }

  // A failure on a prefix is a failure on the text.
  lemma {:induction false} FailsEarly(s: string, k: nat, op: char)
    requires k <= |s| && ScanText(START, s[..k], op).Err?
    ensures ScanText(START, s, op) == ScanText(START, s[..k], op)
    decreases |s|
  {
    if k == |s| {
      assert s[..k] == s;
    } else {
      assert s[..|s| - 1][..k] == s[..k];
      FailsEarly(s[..|s| - 1], k, op);
    }
  }

  /* ---- lengths ---- */

  function Lengths(parts: seq<string>): nat {
    if parts == [] then 0 else Lengths(parts[..|parts| - 1]) + |parts[|parts| - 1]| + 1
  }

  lemma {:induction false} PartWithin(parts: seq<string>, i: nat)
    requires i < |parts|
    ensures |parts[i]| + |parts| <= Lengths(parts)
    decreases |parts|
  {
    if i < |parts| - 1 {
      PartWithin(parts[..|parts| - 1], i);
    } else {
      LengthsAtLeast(parts[..|parts| - 1]);
    }
  }

  lemma {:induction false} LengthsAtLeast(parts: seq<string>)
    ensures Lengths(parts) >= |parts|
  {
    if parts != [] { LengthsAtLeast(parts[..|parts| - 1]); }
  }

  // The parts and the operators between them are no longer than the text.
  lemma {:induction false} ScanLength(s: string, op: char)
    requires ScanText(START, s, op).Ok?
    ensures var st := ScanText(START, s, op).value;
      Lengths(st.parts) + (if st.cur.None? then 0 else |st.cur.value|) <= |s|
    decreases |s|
  {
    if s != [] {
      ScanLength(s[..|s| - 1], op);
      var mid := ScanText(START, s[..|s| - 1], op).value;
      if mid.cur.Some? { assert (mid.parts + [mid.cur.value])[..|mid.parts|] == mid.parts; }
    }
  }

  lemma {:induction false} PartsShorter(s: string, op: char)
    requires SingleParse(s, op).Ok?
    ensures var parts := SingleParse(s, op).value; |parts| >= 2 ==> forall i :: 0 <= i < |parts| ==> |parts[i]| < |s|
  {
    ScanLength(s, op);
    var st := ScanText(START, s, op).value;
    var parts := SingleParse(s, op).value;
    if st.cur.Some? { assert parts[..|st.parts|] == st.parts; }
    forall i | 0 <= i < |parts| && |parts| >= 2 ensures |parts[i]| < |s| { PartWithin(parts, i); }
  }

  /* ---- resolving ---- */

  function Resolve(source: string, vals: Vals): Result<bool>
    decreases |source|, 2, 0
  {
    ResolveRec(RemoveWhitespaces(source), vals)
  }

  function ResolveRec(source: string, vals: Vals): Result<bool>
    decreases |source|, 1, 0
  {
    if source == [] then Err(EmptySubExpression)
    else
      match SingleParse(source, '|')
      case Err(e) => Err(e)
      case Ok(ors) =>
        PartsShorter(source, '|');
        if |ors| == 0 then Err(NotAFormula)
        else if |ors| >= 2 then ResolveAny(ors, vals, |source|)
        else
          match SingleParse(source, '&')
          case Err(e) => Err(e)
          case Ok(ands) =>
            PartsShorter(source, '&');
            if |ands| == 0 then Err(NotAFormula)
            else if |ands| >= 2 then ResolveAll(ands, vals, |source|)
            else if source[0] == '!' then
              (match Resolve(source[1..], vals) case Err(e) => Err(e) case Ok(b) => Ok(!b))
            else if source[0] == '(' then
              (if |source| == 1 then Err(ParenthesisParity) else Resolve(source[1..|source| - 1], vals))
            else if source == "1" then Ok(true)
            else if source == "0" then Ok(false)
            else if source !in vals then Err(VariableNotFound)
            else Ok(vals[source])
  }

  // Every part is resolved, left to right; the first failure is the failure of the whole.
  function ResolveAny(parts: seq<string>, vals: Vals, ghost n: nat): Result<bool>
    requires forall i :: 0 <= i < |parts| ==> |parts[i]| < n
    decreases n, 0, |parts|
  {
    if parts == [] then Ok(false)
    else
      match ResolveAny(parts[..|parts| - 1], vals, n)
      case Err(e) => Err(e)
      case Ok(a) => match Resolve(parts[|parts| - 1], vals) case Err(e) => Err(e) case Ok(b) => Ok(a || b)
  }

  function ResolveAll(parts: seq<string>, vals: Vals, ghost n: nat): Result<bool>
    requires forall i :: 0 <= i < |parts| ==> |parts[i]| < n
    decreases n, 0, |parts|
  {
    if parts == [] then Ok(true)
    else
      match ResolveAll(parts[..|parts| - 1], vals, n)
      case Err(e) => Err(e)
      case Ok(a) => match Resolve(parts[|parts| - 1], vals) case Err(e) => Err(e) case Ok(b) => Ok(a && b)
  }
}
