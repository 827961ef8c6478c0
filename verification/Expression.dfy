/** Condition expressions and delegate expressions: how a text is taken apart and what it evaluates to.
    Number parsing and value printing are arbitrary functions. */
module Expression {
  import opened Common
  import opened Variables

  // ---------- string functions ----------

  predicate IsSpace(c: char) {
    c in {' ', '\t', '\n', '\r', '\U{000b}', '\U{000c}', '\U{0085}', '\U{00a0}', '\U{1680}', '\U{2028}', '\U{2029}', '\U{202f}',
          '\U{205f}', '\U{3000}'} || '\U{2000}' <= c <= '\U{200a}'
  }

  function TrimLeft(s: string): string {
    if s != [] && IsSpace(s[0]) then TrimLeft(s[1..]) else s
  }

  function TrimRight(s: string): string {
    if s != [] && IsSpace(s[|s| - 1]) then TrimRight(s[..|s| - 1]) else s
  }

  function TrimSpace(s: string): string { TrimRight(TrimLeft(s)) }

  predicate HasSuffix(s: string, suffix: string) {
    |suffix| <= |s| && s[|s| - |suffix|..] == suffix
  }

  function TrimPrefix(s: string, prefix: string): string {
    if prefix <= s then s[|prefix|..] else s
  }

  function TrimSuffix(s: string, suffix: string): string {
    if HasSuffix(s, suffix) then s[..|s| - |suffix|] else s
  }

  /** Removes every leading and trailing c. */
  function TrimChar(s: string, c: char): string {
    if s != [] && s[0] == c then TrimChar(s[1..], c)
    else if s != [] && s[|s| - 1] == c then TrimChar(s[..|s| - 1], c)
    else s
  }

  predicate At(s: string, sub: string, i: nat) {
    i + |sub| <= |s| && s[i..i + |sub|] == sub
  }

  /** The first position at or after from where sub occurs in s, or |s| + 1. */
  function IndexFrom(s: string, sub: string, from: nat): (i: nat)
    requires from <= |s| + 1
    ensures i == |s| + 1 || (from <= i && At(s, sub, i))
    ensures forall j: nat :: from <= j < i ==> !At(s, sub, j)
    decreases |s| + 1 - from
  {
    if from == |s| + 1 || At(s, sub, from) then from else IndexFrom(s, sub, from + 1)
  }

  predicate Contains(s: string, sub: string) { IndexFrom(s, sub, 0) <= |s| }

  /** The text before and after the first occurrence of sub, both trimmed. */
  function Split(s: string, sub: string): (string, string)
    requires Contains(s, sub)
  {
    var i := IndexFrom(s, sub, 0);
    (TrimSpace(s[..i]), TrimSpace(s[i + |sub|..]))
  }

  // ---------- evaluation ----------

  /** The parts of the runtime the evaluator relies on. */
  datatype Runtime = Runtime(parseFloat: string -> Option<Float>, show: Value -> string)

  datatype Result = Ok(value: bool) | Err

  datatype Operator = Eq | Ne | Ge | Le | Gt | Lt

  function Symbol(op: Operator): string {
    match op
    case Eq => "=="
    case Ne => "!="
    case Ge => ">="
    case Le => "<="
    case Gt => ">"
    case Lt => "<"
  }

  /** The expression without its surrounding ${ and }. */
  function Body(expression: string): string {
    TrimSuffix(TrimPrefix(TrimSpace(expression), "${"), "}")
  }

  /** The operator the evaluator settles on: the first in this order that occurs anywhere. */
  function Dispatch(body: string): Option<Operator> {
    if Contains(body, "==") then Some(Eq)
    else if Contains(body, "!=") then Some(Ne)
    else if Contains(body, ">=") then Some(Ge)
    else if Contains(body, "<=") then Some(Le)
    else if Contains(body, ">") then Some(Gt)
    else if Contains(body, "<") then Some(Lt)
    else None
  }

  function GetValue(vars: Vars, name: string): Value {
    if name in vars then vars[name] else Nil
  }

  predicate Quoted(s: string, c: char) { s != [] && s[0] == c && s[|s| - 1] == c }

  function ParseValue(rt: Runtime, vars: Vars, text: string): Value {
    var s := TrimSpace(text);
    if s == "true" then Bool(true)
    else if s == "false" then Bool(false)
    else if rt.parseFloat(s).Some? then Number(rt.parseFloat(s).value)
    else if Quoted(s, '"') then Text(TrimChar(s, '"'))
    else if Quoted(s, '\'') then Text(TrimChar(s, '\''))
    else GetValue(vars, s)
  }

  function ToNumber(rt: Runtime, vars: Vars, name: string): Option<Float> {
    match GetValue(vars, name)
    case Int(i) => Some(Finite(i as real))
    case Number(f) => Some(f)
    case Text(s) => rt.parseFloat(s)
    case _ => None
  }

  predicate Less(a: Float, b: Float) {
    match (a, b)
    case (NaN, _) => false
    case (_, NaN) => false
    case (Finite(x), Finite(y)) => x < y
    case (NegInf, _) => b != NegInf
    case (_, PosInf) => a != PosInf
    case (_, _) => false
  }

  predicate LessOrEqual(a: Float, b: Float) { Less(a, b) || (a == b && a != NaN) }

  predicate Truthy(vars: Vars, name: string) {
    match GetValue(vars, name)
    case Nil => false
    case Bool(b) => b
    case Int(i) => i != 0
    case Number(f) => f != Finite(0.0)
    case Text(s) => s != ""
    case Other(_) => true
  }

  predicate IsOrder(op: Operator) { op != Eq && op != Ne }

  function Compare(op: Operator, a: Float, b: Float): bool
    requires IsOrder(op)
  {
    match op
    case Ge => LessOrEqual(b, a)
    case Le => LessOrEqual(a, b)
    case Gt => Less(b, a)
    case Lt => Less(a, b)
  }

  /** What an operator says about its two operand texts. */
  function Apply(rt: Runtime, vars: Vars, op: Operator, left: string, right: string): Result {
    if op == Eq then Ok(rt.show(GetValue(vars, left)) == rt.show(ParseValue(rt, vars, right)))
    else if op == Ne then Ok(rt.show(GetValue(vars, left)) != rt.show(ParseValue(rt, vars, right)))
    else
      var a := ToNumber(rt, vars, left);
      if a.None? then Err
      else
        var b := rt.parseFloat(right);
        if b.None? then Err else Ok(Compare(op, a.value, b.value))
  }

  function Evaluate(rt: Runtime, vars: Vars, expression: string): Result {
    var body := Body(expression);
    match Dispatch(body)
    case None => Ok(Truthy(vars, body))
    case Some(op) =>
      var (left, right) := SplitAt(body, op);
      Apply(rt, vars, op, left, right)
  }

  function SplitAt(body: string, op: Operator): (string, string)
    requires Dispatch(body) == Some(op)
  {
    Split(body, Symbol(op))
  }

  // ---------- trimming ----------

  predicate Trimmed(s: string) { s == [] || (!IsSpace(s[0]) && !IsSpace(s[|s| - 1])) }

  lemma {:induction false} TrimLeftSpaces(n: nat, s: string, pad: string)
    requires |pad| == n && (forall c | c in pad :: IsSpace(c)) && (s == [] || !IsSpace(s[0]))
    ensures TrimLeft(pad + s) == s
  {
    if n == 0 {
      assert pad + s == s;
    } else {
      assert pad[0] in pad && (pad + s)[0] == pad[0] && (pad + s)[1..] == pad[1..] + s;
      TrimLeftSpaces(n - 1, s, pad[1..]);
    }
  }

  lemma {:induction false} TrimRightSpaces(n: nat, s: string, pad: string)
    requires |pad| == n && (forall c | c in pad :: IsSpace(c)) && (s == [] || !IsSpace(s[|s| - 1]))
    ensures TrimRight(s + pad) == s
  {
    if n == 0 {
      assert s + pad == s;
    } else {
      assert pad[n - 1] in pad && (s + pad)[|s + pad| - 1] == pad[n - 1] && (s + pad)[..|s + pad| - 1] == s + pad[..n - 1];
      TrimRightSpaces(n - 1, s, pad[..n - 1]);
    }
  }

  /** Trimming gives back a trimmed text from any padding of it. */
  lemma TrimPadded(before: string, s: string, after: string)
    requires Trimmed(s)
    requires (forall c | c in before :: IsSpace(c)) && (forall c | c in after :: IsSpace(c))
    ensures TrimSpace(before + s + after) == s
  {
    if s == [] {
      assert before + s + after == (before + after) + [];
      TrimLeftSpaces(|before + after|, [], before + after);
      assert TrimRight([]) == [];
    } else {
      assert before + s + after == before + (s + after);
      TrimLeftSpaces(|before|, s + after, before);
      TrimRightSpaces(|after|, s, after);
    }
  }

  // ---------- dispatch undoes printing ----------

  predicate OperatorChar(c: char) { c in {'=', '!', '<', '>'} }

  /** An operand without operator characters and without outer space. */
  predicate Operand(s: string) { Trimmed(s) && forall c | c in s :: !OperatorChar(c) }

  function Printed(left: string, op: Operator, right: string): string {
    left + " " + Symbol(op) + " " + right
  }

  /** In a printed comparison, operator characters stand only where the operator was printed. */
  lemma OperatorPositions(left: string, op: Operator, right: string, i: nat)
    requires Operand(left) && Operand(right) && i < |Printed(left, op, right)|
    ensures var s := Printed(left, op, right);
            if |left| < i <= |left| + |Symbol(op)| then s[i] == Symbol(op)[i - |left| - 1] else !OperatorChar(s[i])
  {
    var s := Printed(left, op, right);
    if i < |left| {
      assert left[i] in left && s[i] == left[i];
    } else if i > |left| + |Symbol(op)| + 1 {
      assert right[i - |left| - |Symbol(op)| - 2] in right && s[i] == right[i - |left| - |Symbol(op)| - 2];
    }
  }

  /** A symbol occurs in a printed comparison exactly at the printed operator's place, when it occurs there. */
  lemma SymbolOccurrence(left: string, op: Operator, right: string, sym: string, i: nat)
    requires Operand(left) && Operand(right)
    requires 1 <= |sym| && forall c | c in sym :: OperatorChar(c)
    ensures At(Printed(left, op, right), sym, i) <==>
            |left| < i && At(Symbol(op), sym, i - |left| - 1)
  {
    hide Printed; hide Symbol;
    PrintedLength(left, op, right);
    if i + |sym| <= |Printed(left, op, right)| {
      OperatorPositions(left, op, right, i);
      OperatorPositions(left, op, right, i + |sym| - 1);
      if |left| < i && i + |sym| <= |left| + 1 + |Symbol(op)| {
        PrintedSlice(left, op, right, i, i + |sym|);
      } else {
        OutsideOperator(Printed(left, op, right), sym, i);
      }
    }
  }

  lemma OutsideOperator(s: string, sym: string, i: nat)
    requires 1 <= |sym| && i + |sym| <= |s| && (forall c | c in sym :: OperatorChar(c))
    requires !OperatorChar(s[i]) || !OperatorChar(s[i + |sym| - 1])
    ensures !At(s, sym, i)
  {
    assert sym[0] in sym && sym[|sym| - 1] in sym;
    assert s[i..i + |sym|][0] == s[i] && s[i..i + |sym|][|sym| - 1] == s[i + |sym| - 1];
  }

  lemma PrintedLength(left: string, op: Operator, right: string)
    ensures |Printed(left, op, right)| == |left| + |Symbol(op)| + |right| + 2
  {}

  /** A piece of a printed comparison within the operator is a piece of the operator. */
  lemma PrintedSlice(left: string, op: Operator, right: string, from: nat, to: nat)
    requires |left| < from <= to <= |left| + 1 + |Symbol(op)|
    ensures to <= |Printed(left, op, right)|
    ensures Printed(left, op, right)[from..to] == Symbol(op)[from - |left| - 1..to - |left| - 1]
  {
    hide Symbol;
    assert Printed(left, op, right) == (left + " ") + Symbol(op) + (" " + right);
    hide Printed;
    MiddleSlice(left + " ", Symbol(op), " " + right, from, to);
  }

  lemma MiddleSlice(a: string, b: string, c: string, from: nat, to: nat)
    requires |a| <= from <= to <= |a| + |b|
    ensures (a + b + c)[from..to] == b[from - |a|..to - |a|]
  {}

  /** Whether the symbol occurs inside the operator's own symbol, and where first. */
  predicate OccursIn(sym: string, op: Operator) { At(Symbol(op), sym, 0) || At(Symbol(op), sym, 1) }

  lemma SymbolInside(sym: string, op: Operator)
    requires |sym| >= 1
    ensures forall m: nat | At(Symbol(op), sym, m) :: m <= 1
    ensures forall m: nat | At(Symbol(op), Symbol(op), m) :: m == 0
    ensures At(Symbol(op), Symbol(op), 0)
  {}

  lemma SymbolContained(left: string, op: Operator, right: string, other: Operator)
    requires Operand(left) && Operand(right)
    ensures Contains(Printed(left, op, right), Symbol(other)) <==> OccursIn(Symbol(other), op)
    ensures other == op ==> IndexFrom(Printed(left, op, right), Symbol(op), 0) == |left| + 1
  {
    PrintedLength(left, op, right);
    hide IndexFrom; hide Printed; hide At;
    var s, sym, at := Printed(left, op, right), Symbol(other), |left| + 1;
    SymbolOccurrence(left, op, right, sym, IndexFrom(s, sym, 0));
    SymbolOccurrence(left, op, right, sym, at);
    SymbolOccurrence(left, op, right, sym, at + 1);
    SymbolInside(sym, op);
  }

  /** Taking apart what was printed gives back the operator and both operands, for all six operators. */
  lemma DispatchUndoesPrinting(left: string, op: Operator, right: string)
    requires Operand(left) && Operand(right)
    ensures Dispatch(Printed(left, op, right)) == Some(op)
    ensures SplitAt(Printed(left, op, right), op) == (left, right)
  {
    hide Printed; hide Symbol; hide IndexFrom; hide TrimSpace; hide Dispatch;
    DispatchPrinted(left, op, right);
    SymbolContained(left, op, right, op);
    PrintedEnds(left, op, right);
    TrimPadded("", left, " ");
    TrimPadded(" ", right, "");
  }

  lemma PrintedEnds(left: string, op: Operator, right: string)
    ensures |left| + 1 + |Symbol(op)| <= |Printed(left, op, right)|
    ensures Printed(left, op, right)[..|left| + 1] == "" + left + " "
    ensures Printed(left, op, right)[|left| + 1 + |Symbol(op)|..] == " " + right + ""
  {
    PrintedLength(left, op, right);
    var front, back := left + " " + Symbol(op), " " + right;
    assert Printed(left, op, right) == front + back;
    assert front[..|left| + 1] == left + " ";
  }

  lemma DispatchPrinted(left: string, op: Operator, right: string)
    requires Operand(left) && Operand(right)
    ensures Dispatch(Printed(left, op, right)) == Some(op)
  {
    hide Printed; hide Contains;
    SymbolContained(left, op, right, Eq);
    SymbolContained(left, op, right, Ne);
    SymbolContained(left, op, right, Ge);
    SymbolContained(left, op, right, Le);
    SymbolContained(left, op, right, Gt);
    SymbolContained(left, op, right, Lt);
  }

  /** The same through the ${...} wrapper: no text inside is lost or misread. */
  lemma BodyOfWrapped(inner: string)
    ensures Body("${" + inner + "}") == inner
  {
    var e := "${" + inner + "}";
    assert "" + e + "" == e;
    TrimPadded("", e, "");
    assert "${" <= e && e[2..] == inner + "}";
    assert HasSuffix(e[2..], "}");
  }

  /** Evaluating a printed comparison applies exactly the printed operator to exactly the printed operands. */
  lemma EvaluatePrinted(rt: Runtime, vars: Vars, left: string, op: Operator, right: string)
    requires Operand(left) && Operand(right)
    ensures Evaluate(rt, vars, "${" + Printed(left, op, right) + "}") == Apply(rt, vars, op, left, right)
  {
    BodyOfWrapped(Printed(left, op, right));
    DispatchUndoesPrinting(left, op, right);
  }

  /** != answers the negation of ==, always, NaN included: both compare printed text. */
  lemma NotEqualNegatesEqual(rt: Runtime, vars: Vars, left: string, right: string)
    requires Operand(left) && Operand(right)
    ensures exists b :: Evaluate(rt, vars, "${" + Printed(left, Eq, right) + "}") == Ok(b) &&
                        Evaluate(rt, vars, "${" + Printed(left, Ne, right) + "}") == Ok(!b)
  {
    EvaluatePrinted(rt, vars, left, Eq, right);
    EvaluatePrinted(rt, vars, left, Ne, right);
  }

  /** >= answers the negation of <, and <= of >, exactly when neither side is NaN; they fail together. */
  lemma OrderNegation(rt: Runtime, vars: Vars, left: string, right: string)
    requires Operand(left) && Operand(right)
    ensures var ge := Evaluate(rt, vars, "${" + Printed(left, Ge, right) + "}");
            var lt := Evaluate(rt, vars, "${" + Printed(left, Lt, right) + "}");
            var le := Evaluate(rt, vars, "${" + Printed(left, Le, right) + "}");
            var gt := Evaluate(rt, vars, "${" + Printed(left, Gt, right) + "}");
            var a, b := ToNumber(rt, vars, left), rt.parseFloat(right);
            if a.None? || b.None? then ge == lt == le == gt == Err
            else
              && ge.Ok? && lt.Ok? && le.Ok? && gt.Ok?
              && (ge.value == !lt.value <==> a.value != NaN && b.value != NaN)
              && (le.value == !gt.value <==> a.value != NaN && b.value != NaN)
  {
    hide Evaluate; hide Printed;
    EvaluatePrinted(rt, vars, left, Ge, right);
    EvaluatePrinted(rt, vars, left, Lt, right);
    EvaluatePrinted(rt, vars, left, Le, right);
    EvaluatePrinted(rt, vars, left, Gt, right);
  }

  // ---------- what the comparisons and the bare variable mean ----------

  /** The value counts as this number: a float, an integer, or a text that reads as one. */
  predicate Numeric(rt: Runtime, v: Value, f: Float) {
    v == Number(f) || (v.Int? && f == Finite(v.i as real)) || (v.Text? && rt.parseFloat(v.s) == Some(f))
  }

  /** The four order comparisons of a numeric variable with a number: on finite values they are the four
      relations on reals, and with NaN on either side all four are false. */
  lemma OrdersMeanOrder(rt: Runtime, vars: Vars, left: string, right: string, a: Float, b: Float)
    requires Operand(left) && Operand(right)
    requires left in vars && Numeric(rt, vars[left], a) && rt.parseFloat(right) == Some(b)
    ensures var ge := Evaluate(rt, vars, "${" + Printed(left, Ge, right) + "}");
            var lt := Evaluate(rt, vars, "${" + Printed(left, Lt, right) + "}");
            var le := Evaluate(rt, vars, "${" + Printed(left, Le, right) + "}");
            var gt := Evaluate(rt, vars, "${" + Printed(left, Gt, right) + "}");
            && (a.Finite? && b.Finite? ==>
                  ge == Ok(a.value >= b.value) && lt == Ok(a.value < b.value) &&
                  le == Ok(a.value <= b.value) && gt == Ok(a.value > b.value))
            && (a == NaN || b == NaN ==> ge == lt == le == gt == Ok(false))
            && (a == NegInf && b != NaN && b != NegInf ==> lt == le == Ok(true) && gt == ge == Ok(false))
            && (a == PosInf && b != NaN && b != PosInf ==> gt == ge == Ok(true) && lt == le == Ok(false))
            && (a == b && a != NaN ==> ge == le == Ok(true) && gt == lt == Ok(false))
  {
    hide Evaluate; hide Printed;
    EvaluatePrinted(rt, vars, left, Ge, right);
    EvaluatePrinted(rt, vars, left, Lt, right);
    EvaluatePrinted(rt, vars, left, Le, right);
    EvaluatePrinted(rt, vars, left, Gt, right);
  }

  /** An order comparison fails exactly when the left side is no numeric variable or the right side no number. */
  lemma OrderFailsIff(rt: Runtime, vars: Vars, left: string, op: Operator, right: string)
    requires Operand(left) && Operand(right) && op != Eq && op != Ne
    ensures Evaluate(rt, vars, "${" + Printed(left, op, right) + "}").Err? <==>
              left !in vars || (forall f :: !Numeric(rt, vars[left], f)) || rt.parseFloat(right).None?
  {
    hide Evaluate; hide Printed;
    EvaluatePrinted(rt, vars, left, op, right);
    if ToNumber(rt, vars, left).Some? {
      assert Numeric(rt, vars[left], ToNumber(rt, vars, left).value);
    }
  }

  /** Quotes are taken off, whatever their kind, so a quoted text reads as that text. */
  lemma {:induction false} QuotedReadsAsText(rt: Runtime, vars: Vars, q: char, text: string)
    requires q == '"' || q == '\''
    requires q !in text && rt.parseFloat([q] + text + [q]).None?
    ensures ParseValue(rt, vars, [q] + text + [q]) == Text(text)
  {
    var s := [q] + text + [q];
    assert "" + s + "" == s;
    TrimPadded("", s, "");
    assert s[0] == q && s[|s| - 1] == q;
    assert s != "true" && s != "false";
    hide TrimSpace;
    assert s[1..] == text + [q];
    assert (text + [q])[..|text|] == text;
    TrimInner(text, q);
  }

  lemma TrimInner(text: string, q: char)
    requires q !in text
    ensures TrimChar([q] + text + [q], q) == text
  {
    var s, t := [q] + text + [q], text + [q];
    assert s[1..] == t && TrimChar(s, q) == TrimChar(t, q);
    if text == "" {
      assert t == [q] && t[1..] == [] && TrimChar([], q) == [];
      assert TrimChar(t, q) == TrimChar([], q);
    } else {
      assert text[0] in text && text[|text| - 1] in text;
      assert TrimChar(text, q) == text;
      assert t[0] == text[0] && t[|t| - 1] == q && t[..|t| - 1] == text;
      assert TrimChar(t, q) == TrimChar(text, q);
    }
  }

  /** Equality with a quoted text compares the variable's printed value with that text's. */
  lemma EqualsQuotedText(rt: Runtime, vars: Vars, left: string, q: char, text: string)
    requires q == '"' || q == '\''
    requires Operand(left) && Operand([q] + text + [q]) && q !in text && rt.parseFloat([q] + text + [q]).None?
    ensures Evaluate(rt, vars, "${" + Printed(left, Eq, [q] + text + [q]) + "}") ==
            Ok(rt.show(if left in vars then vars[left] else Nil) == rt.show(Text(text)))
  {
    hide Evaluate; hide Printed; hide ParseValue;
    EvaluatePrinted(rt, vars, left, Eq, [q] + text + [q]);
    QuotedReadsAsText(rt, vars, q, text);
  }

  /** The other right-hand sides: the two truth values, numbers, and else the variable of that name. */
  lemma BareReadsAs(rt: Runtime, vars: Vars, word: string)
    requires Trimmed(word)
    ensures word == "true" ==> ParseValue(rt, vars, word) == Bool(true)
    ensures word == "false" ==> ParseValue(rt, vars, word) == Bool(false)
    ensures word != "true" && word != "false" && rt.parseFloat(word).Some? ==>
              ParseValue(rt, vars, word) == Number(rt.parseFloat(word).value)
    ensures word != "true" && word != "false" && rt.parseFloat(word).None? && word != "" && word[0] !in {'"', '\''} ==>
              ParseValue(rt, vars, word) == if word in vars then vars[word] else Nil
  {
    assert "" + word + "" == word;
    TrimPadded("", word, "");
  }

  /** A bare variable holds exactly unless it is missing or nil, false, zero or empty; any name without
      operator characters will do, and is taken as it stands. */
  lemma BareVariableIff(rt: Runtime, vars: Vars, name: string)
    requires forall c | c in name :: !OperatorChar(c)
    ensures Evaluate(rt, vars, "${" + name + "}") ==
            Ok(name in vars && vars[name] !in {Nil, Bool(false), Int(0), Number(Finite(0.0)), Text("")})
  {
    hide Body; hide Dispatch; hide Contains;
    BodyOfWrapped(name);
    NothingToDispatch(name);
  }

  lemma NoOperatorInside(name: string, sym: string)
    requires (forall c | c in name :: !OperatorChar(c)) && sym != "" && OperatorChar(sym[0])
    ensures !Contains(name, sym)
  {
    forall i: nat | i + |sym| <= |name| ensures !At(name, sym, i) {
      assert name[i..i + |sym|][0] == name[i] && name[i] in name;
    }
  }

  lemma NothingToDispatch(name: string)
    requires forall c | c in name :: !OperatorChar(c)
    ensures Dispatch(name).None?
  {
    hide Contains;
    NoOperatorInside(name, "==");
    NoOperatorInside(name, "!=");
    NoOperatorInside(name, ">=");
    NoOperatorInside(name, "<=");
    NoOperatorInside(name, ">");
    NoOperatorInside(name, "<");
  }

  // ---------- delegate expressions ----------

  predicate WordChar(c: char) { 'a' <= c <= 'z' || 'A' <= c <= 'Z' || '0' <= c <= '9' || c == '_' }

  predicate Word(s: string) { s != [] && forall c | c in s :: WordChar(c) }

  /** Matches ${service.action} after trimming: the part before the first dot and the part after it. */
  function ParseDelegate(expression: string): Option<(string, string)> {
    var s := TrimSpace(expression);
    if !("${" <= s && HasSuffix(s[2..], "}")) then None
    else
      var inner := s[2..|s| - 1];
      if !Contains(inner, ".") then None
      else
        var dot := IndexFrom(inner, ".", 0);
        if Word(inner[..dot]) && Word(inner[dot + 1..]) then Some((inner[..dot], inner[dot + 1..])) else None
  }

  lemma FirstDot(service: string, action: string)
    requires Word(service)
    ensures IndexFrom(service + "." + action, ".", 0) == |service|
  {
    var inner := service + "." + action;
    assert At(inner, ".", |service|);
    forall j: nat | j < |service| ensures !At(inner, ".", j) {
      assert service[j] in service && inner[j] == service[j];
      assert inner[j..j + 1] == [service[j]];
    }
  }

  /** The parser accepts exactly the texts ${service.action}, up to outer space, with two plain words. */
  lemma DelegateRoundTrip(expression: string, service: string, action: string)
    ensures ParseDelegate(expression) == Some((service, action)) <==>
            TrimSpace(expression) == "${" + service + "." + action + "}" && Word(service) && Word(action)
  {
    hide TrimSpace; hide IndexFrom;
    var s := TrimSpace(expression);
    if s == "${" + service + "." + action + "}" && Word(service) && Word(action) {
      var inner := service + "." + action;
      assert s[2..|s| - 1] == inner && HasSuffix(s[2..], "}");
      FirstDot(service, action);
      assert inner[..|service|] == service && inner[|service| + 1..] == action;
    }
    if ParseDelegate(expression) == Some((service, action)) {
      var inner := s[2..|s| - 1];
      assert s == "${" + inner + "}";
      var dot := IndexFrom(inner, ".", 0);
      assert inner[dot..dot + 1] == ".";
      assert inner == service + "." + action;
    }
  }
}
