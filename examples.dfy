/**
 * The sample expressions the program runs, and the quirks of its grammar, each
 * with the outcome the evaluator gives.  Well-formed expressions go through the
 * precedence theorem; the others are followed through the scan one character at
 * a time.
 */
module Examples {
  import opened Calc
  import opened CalcProperties
  import opened Precedence

  /** `r` is a machine with these stacks and this flag. */
  predicate Gives(r: Result<Machine>, num: seq<real>, ops: seq<char>, negative: bool) {
    r.Ok? && r.value.stacks.num == num && r.value.stacks.ops == ops && r.value.negative == negative
  }

  /** The scan of the first `k` characters of `e` leaves these stacks and this flag. */
  predicate Reaches(e: string, k: nat, num: seq<real>, ops: seq<char>, negative: bool)
    requires k <= |e|
  {
    Gives(Run(e, k), num, ops, negative)
  }

  /** `e` has the characters of `t`. */
  predicate Text(e: string, t: string) {
    |e| == |t| && forall i :: 0 <= i < |t| ==> e[i] == t[i]
  }

  /** One more character of the scan. */
  lemma Next(e: string, k: nat, num: seq<real>, ops: seq<char>, negative: bool,
                                num': seq<real>, ops': seq<char>, negative': bool)
    requires k < |e| && Reaches(e, k, num, ops, negative)
    requires Gives(Step(e, k, Run(e, k).value), num', ops', negative')
    ensures Reaches(e, k + 1, num', ops', negative')
  {
  }

  function Lit(d: Digit): Expr {
    Literal(d, false)
  }

  function Neg(d: Digit): Expr {
    Literal(d, true)
  }

  /** Brackets override precedence. */
  lemma BracketsFirst()
    ensures Evaluate("(2+2)*2") == Ok(8.0)
  {
    var l := Group(Binary('+', Lit(2), Lit(2)));
    var t := Binary('*', l, Lit(2));
    assert Print(l) == "(2+2)" && Eval(l) == Ok(4.0);
    Correctness(t);
    assert Print(t) == "(2+2)*2";
  }

  /** '*' binds tighter than '+'. */
  lemma ProductFirst()
    ensures Evaluate("2+2*2") == Ok(6.0)
  {
    var t := Binary('+', Lit(2), Binary('*', Lit(2), Lit(2)));
    Correctness(t);
    assert Print(t) == "2+2*2";
  }

  /** Division is exact. */
  lemma Half()
    ensures Evaluate("1/2") == Ok(0.5)
  {
    var t := Binary('/', Lit(1), Lit(2));
    Correctness(t);
    assert Print(t) == "1/2";
  }

  function MixedLeft(): Expr {
    Binary('+', Binary('*', Neg(1), Lit(5)), Lit(7))
  }

  function MixedRight(): Expr {
    Group(Binary('/', Neg(9), Lit(8)))
  }

  lemma MixedParts()
    ensures Print(MixedLeft()) == "-1*5+7" && Eval(MixedLeft()) == Ok(2.0) && WellFormed(MixedLeft(), true)
    ensures Print(MixedRight()) == "(-9/8)" && Eval(MixedRight()) == Ok(-1.125) && WellFormed(MixedRight(), false)
  {
  }

  /** Unary minus at the start and after '(', left associativity of '+' and '-'. */
  lemma Mixed()
    ensures Evaluate("-1*5+7-(-9/8)") == Ok(3.125)
  {
    var t := Binary('-', MixedLeft(), MixedRight());
    MixedParts();
    Correctness(t);
    assert Print(t) == "-1*5+7-(-9/8)";
  }

  /** A division by a zero operand is reported. */
  lemma ByZero()
    ensures Evaluate("3/0") == Err(DivisionByZero)
  {
    var t := Binary('/', Lit(3), Lit(0));
    Correctness(t);
    assert Print(t) == "3/0";
  }

  /** A scan that fails is the outcome of the evaluation. */
  lemma FailsWith(s: string, e: string, x: Error)
    requires StripSpaces(s) == e && |e| > 0 && Run(e, |e|) == Err(x)
    ensures Evaluate(s) == Err(x)
  {
  }

  /** A scan that succeeds on text ending in an operator is rejected after it. */
  lemma EndsInOperator(s: string, e: string)
    requires StripSpaces(s) == e && |e| > 0 && Run(e, |e|).Ok? && IsOperator(e[|e| - 1])
    ensures Evaluate(s) == Err(OperatorAtEnd)
  {
  }

  /** A scan that succeeds on text ending in an operand is decided by the drain of its stacks. */
  lemma Drains(s: string, e: string, num: seq<real>, ops: seq<char>, negative: bool)
    requires StripSpaces(s) == e && |e| > 0 && Reaches(e, |e|, num, ops, negative) && !IsOperator(e[|e| - 1])
    ensures Drainable(Stacks(num, ops))
    ensures Evaluate(s) ==
      match Drain(Stacks(num, ops))
      case Err(x) => Err(x)
      case Ok(st) => if |st.num| != 1 then Err(InvalidExpression) else Ok(st.num[0])
  {
    assert Run(e, |e|).value.stacks == Stacks(num, ops);
    DrainAfterScan(e);
  }

  lemma {:induction false} TrailingOperatorValue(s: string, e: string)
    requires StripSpaces(s) == e && Text(e, "1+1*")
    ensures Evaluate(s) == Err(OperatorAtEnd)
  {
    Next(e, 0, [], [], false, [1.0], [], false);
    Next(e, 1, [1.0], [], false, [1.0], ['+'], false);
    Next(e, 2, [1.0], ['+'], false, [1.0, 1.0], ['+'], false);
    Next(e, 3, [1.0, 1.0], ['+'], false, [1.0, 1.0], ['+', '*'], false);
    EndsInOperator(s, e);
  }

  /** A trailing '*' passes the scan and is caught after it. */
  lemma TrailingOperator()
    ensures Evaluate("1+1*") == Err(OperatorAtEnd)
  {
    assert StripSpaces("1+1*") == "1+1*";
    TrailingOperatorValue("1+1*", "1+1*");
  }

  lemma {:induction false} EmptyOperandScan(e: string)
    requires Text(e, "3+5*(2-)")
    ensures Reaches(e, 4, [3.0, 5.0], ['+', '*'], false)
  {
    Next(e, 0, [], [], false, [3.0], [], false);
    Next(e, 1, [3.0], [], false, [3.0], ['+'], false);
    Next(e, 2, [3.0], ['+'], false, [3.0, 5.0], ['+'], false);
    Next(e, 3, [3.0, 5.0], ['+'], false, [3.0, 5.0], ['+', '*'], false);
  }

  lemma {:induction false} EmptyOperandScanRest(e: string)
    requires Text(e, "3+5*(2-)") && Reaches(e, 4, [3.0, 5.0], ['+', '*'], false)
    ensures Reaches(e, 7, [3.0, 5.0, 2.0], ['+', '*', '(', '-'], false)
  {
    Next(e, 4, [3.0, 5.0], ['+', '*'], false, [3.0, 5.0], ['+', '*', '('], false);
    Next(e, 5, [3.0, 5.0], ['+', '*', '('], false, [3.0, 5.0, 2.0], ['+', '*', '('], false);
    Next(e, 6, [3.0, 5.0, 2.0], ['+', '*', '('], false, [3.0, 5.0, 2.0], ['+', '*', '(', '-'], false);
  }

  lemma {:induction false} EmptyOperandValue(s: string, e: string)
    requires StripSpaces(s) == e && Text(e, "3+5*(2-)")
    ensures Evaluate(s) == Err(InvalidExpression)
  {
    EmptyOperandScan(e);
    EmptyOperandScanRest(e);
    assert Run(e, 8) == Step(e, 7, Run(e, 7).value);
    FailsWith(s, e, InvalidExpression);
  }

  lemma EmptyOperandPieces()
    ensures StripSpaces("3 + ") == "3+" && StripSpaces("5 * ") == "5*" && StripSpaces("(2 -)") == "(2-)"
  {
    assert StripSpaces("3 + ") == "3+";
    assert StripSpaces("5 * ") == "5*";
  }

  lemma EmptyOperandStripped()
    ensures StripSpaces("3 + 5 * (2 -)") == "3+5*(2-)"
  {
    EmptyOperandPieces();
    assert "3 + " + "5 * " == "3 + 5 * ";
    StripSpacesConcat("3 + ", "5 * ");
    assert "3 + 5 * " + "(2 -)" == "3 + 5 * (2 -)";
    StripSpacesConcat("3 + 5 * ", "(2 -)");
    assert "3+" + "5*" + "(2-)" == "3+5*(2-)";
  }

  /** A ')' right after an operator is malformed, once the spaces are gone. */
  lemma EmptyOperand()
    ensures Evaluate("3 + 5 * (2 -)") == Err(InvalidExpression)
  {
    EmptyOperandStripped();
    EmptyOperandValue("3 + 5 * (2 -)", "3+5*(2-)");
  }

  /** A ')' with no '(' to close. */
  lemma CloseWithoutOpen()
    ensures Evaluate(")+") == Err(MismatchedBrackets)
  {
    var e := ")+";
    assert StripSpaces(e) == e;
    assert Run(e, 1) == Err(MismatchedBrackets);
    assert Run(e, 2) == Err(MismatchedBrackets);
  }

  lemma {:induction false} TwoDigitsValue(s: string, e: string)
    requires StripSpaces(s) == e && |e| > 1 && e[0] == '1' && e[1] == '2'
    ensures Evaluate(s) == Err(MultiDigitNumber)
  {
    Next(e, 0, [], [], false, [1.0], [], false);
    assert Run(e, 2) == Err(MultiDigitNumber);
    RunErrorPersists(e, 2, |e|);
    FailsWith(s, e, MultiDigitNumber);
  }

  /** Removing the spaces does not make "12" two operands. */
  lemma TwoDigitsWithSpaces()
    ensures Evaluate("12 + 5") == Err(MultiDigitNumber)
  {
    assert StripSpaces("12 + 5") == "12+5";
    TwoDigitsValue("12 + 5", "12+5");
  }

  /** Operands are single digits. */
  lemma TwoDigits()
    ensures Evaluate("22+22") == Err(MultiDigitNumber)
  {
    var e := "22+22";
    assert StripSpaces(e) == e;
    Next(e, 0, [], [], false, [2.0], [], false);
    assert Run(e, 2) == Err(MultiDigitNumber);
    RunErrorPersists(e, 2, |e|);
    FailsWith(e, e, MultiDigitNumber);
  }

  lemma Blank()
    ensures Evaluate("") == Err(EmptyExpression) && Evaluate("  ") == Err(EmptyExpression)
  {
    assert StripSpaces("  ") == "";
  }

  lemma {:induction false} NegatedGroupScan(e: string)
    requires Text(e, "-(1+2)")
    ensures Reaches(e, 4, [-1.0], ['(', '+'], false)
  {
    Next(e, 0, [], [], false, [], [], true);
    Next(e, 1, [], [], true, [], ['('], true);
    Next(e, 2, [], ['('], true, [-1.0], ['('], false);
    Next(e, 3, [-1.0], ['('], false, [-1.0], ['(', '+'], false);
  }

  lemma {:induction false} NegatedGroupValue(s: string, e: string)
    requires StripSpaces(s) == e && Text(e, "-(1+2)")
    ensures Evaluate(s) == Ok(1.0)
  {
    NegatedGroupScan(e);
    Next(e, 4, [-1.0], ['(', '+'], false, [-1.0, 2.0], ['(', '+'], false);
    Next(e, 5, [-1.0, 2.0], ['(', '+'], false, [1.0], [], false);
    Drains(s, e, [1.0], [], false);
  }

  /** The unary flag survives '(', so only the first operand inside is negated: -(1+2) is 1. */
  lemma NegatedGroup()
    ensures Evaluate("-(1+2)") == Ok(1.0)
  {
    assert StripSpaces("-(1+2)") == "-(1+2)";
    NegatedGroupValue("-(1+2)", "-(1+2)");
  }

  lemma {:induction false} DoubleNegationValue(s: string, e: string)
    requires StripSpaces(s) == e && Text(e, "-(-1)")
    ensures Evaluate(s) == Ok(-1.0)
  {
    Next(e, 0, [], [], false, [], [], true);
    Next(e, 1, [], [], true, [], ['('], true);
    Next(e, 2, [], ['('], true, [], ['('], true);
    Next(e, 3, [], ['('], true, [-1.0], ['('], false);
    Next(e, 4, [-1.0], ['('], false, [-1.0], [], false);
    Drains(s, e, [-1.0], [], false);
  }

  /** The flag is set, not toggled: -(-1) is -1. */
  lemma DoubleNegation()
    ensures Evaluate("-(-1)") == Ok(-1.0)
  {
    assert StripSpaces("-(-1)") == "-(-1)";
    DoubleNegationValue("-(-1)", "-(-1)");
  }

  lemma {:induction false} JuxtapositionValue(s: string, e: string)
    requires StripSpaces(s) == e && Text(e, "1(2)")
    ensures Evaluate(s) == Err(InvalidExpression)
  {
    Next(e, 0, [], [], false, [1.0], [], false);
    Next(e, 1, [1.0], [], false, [1.0], ['('], false);
    Next(e, 2, [1.0], ['('], false, [1.0, 2.0], ['('], false);
    Next(e, 3, [1.0, 2.0], ['('], false, [1.0, 2.0], [], false);
    Drains(s, e, [1.0, 2.0], [], false);
  }

  /** An operand followed by '(' passes the scan and leaves two operands. */
  lemma Juxtaposition()
    ensures Evaluate("1(2)") == Err(InvalidExpression)
  {
    assert StripSpaces("1(2)") == "1(2)";
    JuxtapositionValue("1(2)", "1(2)");
  }

  lemma {:induction false} OpenDivisionValue(s: string, e: string)
    requires StripSpaces(s) == e && Text(e, "(1/0")
    ensures Evaluate(s) == Err(DivisionByZero)
  {
    Next(e, 0, [], [], false, [], ['('], false);
    Next(e, 1, [], ['('], false, [1.0], ['('], false);
    Next(e, 2, [1.0], ['('], false, [1.0], ['(', '/'], false);
    Next(e, 3, [1.0], ['(', '/'], false, [1.0, 0.0], ['(', '/'], false);
    Drains(s, e, [1.0, 0.0], ['(', '/'], false);
  }

  /** The final drain reduces before it meets the open '(', so the division by zero is reported. */
  lemma OpenDivisionByZero()
    ensures Evaluate("(1/0") == Err(DivisionByZero)
  {
    assert StripSpaces("(1/0") == "(1/0";
    OpenDivisionValue("(1/0", "(1/0");
  }

  /** A lone '-' is read as unary, so it passes the scan and is an operator at the end. */
  lemma TrailingUnaryMinus()
    ensures Evaluate("-") == Err(OperatorAtEnd) && Evaluate("(-") == Err(OperatorAtEnd)
  {
    assert StripSpaces("-") == "-";
    assert Run("-", 1).Ok?;
    EndsInOperator("-", "-");
    assert StripSpaces("(-") == "(-";
    Next("(-", 0, [], [], false, [], ['('], false);
    assert Run("(-", 2).Ok?;
    EndsInOperator("(-", "(-");
  }
}
