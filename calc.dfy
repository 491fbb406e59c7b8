/**
 * A model of `Calc`, the single-pass evaluator of arithmetic expressions over
 * single-digit operands.  The evaluator strips spaces, scans the text once with
 * one character of look-back, and resolves precedence eagerly with an operand
 * stack, an operator stack and a pending-negation flag.
 *
 * The module has two layers.  The functions (`Reduce`, `ReduceWhile`, `Drain`,
 * `Step`, `Run`, `Evaluate`) are the step-by-step meaning of the routine; the
 * methods `Calculate` and `Calc` are the imperative routine itself, with its two
 * stacks and its loops, proved equal to those functions.
 */
module Calc {

  /** The seven error values the evaluator returns; their message texts are not modelled. */
  datatype Error =
    | InvalidExpression
    | DivisionByZero
    | MismatchedBrackets
    | MultiDigitNumber
    | EmptyExpression
    | UnexpectedOperator
    | OperatorAtEnd

  datatype Result<T> = Ok(value: T) | Err(error: Error)

  datatype Option<T> = None | Some(value: T)

  predicate IsOperator(c: char) {
    c == '+' || c == '-' || c == '*' || c == '/'
  }

  predicate IsDigit(c: char) {
    '0' <= c <= '9'
  }

  /** A character the scan has a case for; every other character is rejected. */
  predicate IsKnown(c: char) {
    IsDigit(c) || IsOperator(c) || c == '(' || c == ')'
  }

  function DigitValue(c: char): (v: real)
    requires IsDigit(c)
    ensures 0.0 <= v <= 9.0
  {
    (c as int - '0' as int) as real
  }

  /**
   * The precedence table.  The source looks the priority up in a map, where a
   * character that is not a key reads as 0; the same holds here.
   */
  function Priority(c: char): int {
    if c == '*' || c == '/' then 2
    else if c == '+' || c == '-' then 1
    else 0
  }

  /** The `applyOperator` closure: one binary operation on two operands. */
  function ApplyOperator(a: real, b: real, op: char): (r: Result<real>)
    ensures r.Err? <==> !IsOperator(op) || (op == '/' && b == 0.0)
    ensures r.Err? ==> r.error == if op == '/' then DivisionByZero else InvalidExpression
  {
    match op
    case '+' => Ok(a + b)
    case '-' => Ok(a - b)
    case '*' => Ok(a * b)
    case '/' => if b == 0.0 then Err(DivisionByZero) else Ok(a / b)
    case _ => Err(InvalidExpression)
  }

  /**
   * What each operator computes, stated through its inverse: the left operand is
   * recovered from the result and the right operand.  Kept apart from the
   * contract of `ApplyOperator` so that the products and quotients stay out of
   * every proof that only follows the stacks.
   */
  lemma {:induction false} ApplyOperatorInverse(a: real, b: real, op: char)
    ensures var r := ApplyOperator(a, b, op);
      && (r.Ok? && op == '+' ==> r.value - b == a)
      && (r.Ok? && op == '-' ==> r.value + b == a)
      && (r.Ok? && op == '*' ==> (b != 0.0 ==> r.value / b == a) && (b == 0.0 ==> r.value == 0.0))
      && (r.Ok? && op == '/' ==> r.value * b == a)
  {
  }

  function Last<T>(s: seq<T>): T
    requires |s| > 0
  {
    s[|s| - 1]
  }

  /** The number of occurrences of `c` in `s`. */
  function Count(s: seq<char>, c: char): (n: nat)
    ensures n <= |s|
  {
    CountTo(s, c, |s|)
  }

  /** The number of occurrences of `c` among the first `k` entries of `s`. */
  function CountTo(s: seq<char>, c: char, k: nat): (n: nat)
    requires k <= |s|
    ensures n <= k
  {
    if k == 0 then 0 else CountTo(s, c, k - 1) + (if s[k - 1] == c then 1 else 0)
  }

  /** Two sequences that agree on their first `k` entries count the same there. */
  lemma {:induction false} CountToAgree(s: seq<char>, t: seq<char>, c: char, k: nat)
    requires k <= |s| && k <= |t| && forall i :: 0 <= i < k ==> s[i] == t[i]
    ensures CountTo(s, c, k) == CountTo(t, c, k)
  {
    if k > 0 {
      CountToAgree(s, t, c, k - 1);
    }
  }

  /** A prefix counts what the first entries of the whole count. */
  lemma {:induction false} CountPrefix(s: seq<char>, k: nat, c: char)
    requires k <= |s|
    ensures Count(s[..k], c) == CountTo(s, c, k)
  {
    CountToAgree(s[..k], s, c, k);
  }

  /** Popping the top of a stack removes one occurrence if the top is one. */
  lemma {:induction false} CountPop(s: seq<char>, c: char)
    requires |s| > 0
    ensures Count(s[..|s| - 1], c) == Count(s, c) - (if Last(s) == c then 1 else 0)
  {
    CountPrefix(s, |s| - 1, c);
  }

  /** The number of operators on an operator stack, that is, its entries other than '('. */
  function Pending(ops: seq<char>): nat {
    |ops| - Count(ops, '(')
  }

  /** The operand stack `num` and the operator stack `operator`; the top is the last element. */
  datatype Stacks = Stacks(num: seq<real>, ops: seq<char>)

  /** Everything the scan carries from one character to the next. */
  datatype Machine = Machine(stacks: Stacks, negative: bool)

  const Init := Machine(Stacks([], []), false)

  /** Every entry of an operator stack is a binary operator or '('. */
  predicate OpsWellFormed(ops: seq<char>) {
    forall j :: 0 <= j < |ops| ==> IsOperator(ops[j]) || ops[j] == '('
  }

  /**
   * One call of the `calculate` closure: a no-op with fewer than two operands or
   * no operator; otherwise it pops the top operator `op` and the two top operands
   * `a` (below) and `b` (top), and pushes `a op b`.
   */
  function Reduce(st: Stacks): Result<Stacks> {
    if |st.ops| == 0 || |st.num| < 2 then Ok(st)
    else
      var b := st.num[|st.num| - 1];
      var a := st.num[|st.num| - 2];
      var op := Last(st.ops);
      match ApplyOperator(a, b, op)
      case Err(x) => Err(x)
      case Ok(v) => Ok(Stacks(st.num[..|st.num| - 2] + [v], st.ops[..|st.ops| - 1]))
  }

  /**
   * What one call of `calculate` does: nothing without an operator or two
   * operands; otherwise it fails exactly when applying the top operator to the
   * two top operands fails, and else it replaces those two operands by the
   * result and pops the operator, leaving the rest of both stacks alone.
   */
  lemma {:induction false} ReduceSpec(st: Stacks)
    ensures |st.ops| == 0 || |st.num| < 2 ==> Reduce(st) == Ok(st)
    ensures |st.ops| > 0 && |st.num| >= 2 ==>
      var r, n, op := Reduce(st), |st.num|, Last(st.ops);
      var applied := ApplyOperator(st.num[n - 2], st.num[n - 1], op);
      && (r.Err? <==> applied.Err?)
      && (r.Err? ==> r.error == applied.error)
      && (r == Err(DivisionByZero) <==> op == '/' && st.num[n - 1] == 0.0)
      && (r.Ok? ==>
            && r.value.ops == st.ops[..|st.ops| - 1]
            && |r.value.num| == n - 1
            && r.value.num[..n - 2] == st.num[..n - 2]
            && applied == Ok(Last(r.value.num)))
  {
  }

  /** Popping one operator with two operands removes one operand and one pending operator. */
  lemma {:induction false} ReduceCounts(st: Stacks)
    requires |st.ops| > 0 && Last(st.ops) != '(' && Reduce(st).Ok?
    ensures var r := Reduce(st).value;
      && (r.ops == st.ops || (|st.num| >= 2 && r.ops == st.ops[..|st.ops| - 1]))
      && Count(r.ops, '(') == Count(st.ops, '(')
      && (|st.num| >= 2 ==> |r.num| == |st.num| - 1 && Pending(r.ops) == Pending(st.ops) - 1)
  {
    if |st.num| >= 2 {
      ReduceSpec(st);
      CountPop(st.ops, '(');
    }
  }

  /**
   * The guard of the reduction loops: the top of the operator stack is an operator
   * (not '(') whose priority is at least `bound`.  With bound 0 this is the guard
   * of the loop for ')', since every priority is at least 0.
   */
  predicate MustReduce(ops: seq<char>, bound: int) {
    |ops| > 0 && Last(ops) != '(' && Priority(Last(ops)) >= bound
  }

  /**
   * The condition under which a reduction loop makes progress: each stacked
   * operator has an operand beyond the first one to consume.
   */
  predicate Reducible(st: Stacks) {
    st.ops == [] || Pending(st.ops) < |st.num|
  }

  /** A reduction that the guard calls for pops an operator and keeps the stacks reducible. */
  lemma {:induction false} ReduceProgress(st: Stacks, bound: int)
    requires Reducible(st) && MustReduce(st.ops, bound) && Reduce(st).Ok?
    ensures |Reduce(st).value.ops| < |st.ops| && Reducible(Reduce(st).value)
  {
    ReduceCounts(st);
  }

  /** A reduction loop: call `calculate` while `MustReduce` holds. */
  function ReduceWhile(st: Stacks, bound: int): Result<Stacks>
    requires Reducible(st)
    decreases |st.ops|
  {
    if MustReduce(st.ops, bound) then
      match Reduce(st)
      case Err(x) => Err(x)
      case Ok(st') => ReduceProgress(st, bound); ReduceWhile(st', bound)
    else
      Ok(st)
  }

  /**
   * A reduction loop stops at once when its guard fails; when it ends without
   * error its guard fails and the stacks are still reducible; it only pops
   * operators (never a '('), and it removes as many operands as operators; the
   * only error it can meet on a well-formed operator stack is a division by zero.
   */
  lemma {:induction false} ReduceWhileSpec(st: Stacks, bound: int)
    requires Reducible(st)
    ensures var r := ReduceWhile(st, bound);
      && (!MustReduce(st.ops, bound) ==> r == Ok(st))
      && (r.Ok? ==> Reducible(r.value) && !MustReduce(r.value.ops, bound))
      && (r.Ok? ==> r.value.ops <= st.ops && Count(r.value.ops, '(') == Count(st.ops, '('))
      && (r.Ok? ==> |r.value.num| - Pending(r.value.ops) == |st.num| - Pending(st.ops))
      && (r.Err? && OpsWellFormed(st.ops) ==> r.error == DivisionByZero)
    decreases |st.ops|
  {
    if MustReduce(st.ops, bound) {
      ReduceSpec(st);
      match Reduce(st)
      case Err(x) =>
      case Ok(st') =>
        ReduceCounts(st);
        ReduceWhileSpec(st', bound);
        assert OpsWellFormed(st.ops) ==> OpsWellFormed(st'.ops) by {
          assert forall j :: 0 <= j < |st'.ops| ==> st'.ops[j] == st.ops[j];
        }
    }
  }

  /** The final drain can run: it stops at a '(' on top, or every operator has its operand. */
  predicate Drainable(st: Stacks) {
    Reducible(st) || (|st.ops| > 0 && Last(st.ops) == '(')
  }

  /** A drain step that pops an operator leaves the stacks drainable. */
  lemma {:induction false} DrainProgress(st: Stacks)
    requires Drainable(st) && |st.ops| > 0 && Last(st.ops) != '(' && Reduce(st).Ok?
    ensures |Reduce(st).value.ops| < |st.ops| && Drainable(Reduce(st).value)
  {
    ReduceCounts(st);
  }

  /** The final drain of the operator stack; a '(' met on top is a mismatched bracket. */
  function Drain(st: Stacks): Result<Stacks>
    requires Drainable(st)
    decreases |st.ops|
  {
    if st.ops == [] then Ok(st)
    else if Last(st.ops) == '(' then Err(MismatchedBrackets)
    else
      match Reduce(st)
      case Err(x) => Err(x)
      case Ok(st') => DrainProgress(st); Drain(st')
  }

  /**
   * A drain that succeeds empties the operator stack and leaves one operand per
   * operand beyond the pending operators; a '(' left anywhere on the stack makes
   * it fail, and on a well-formed stack it fails only with a mismatched bracket
   * or a division by zero.
   */
  lemma {:induction false} DrainSpec(st: Stacks)
    requires Drainable(st)
    ensures var r := Drain(st);
      && (r.Ok? ==> r.value.ops == [] && |r.value.num| == |st.num| - Pending(st.ops))
      && (Count(st.ops, '(') > 0 ==> r.Err?)
      && (r.Err? && OpsWellFormed(st.ops) ==> r.error == MismatchedBrackets || r.error == DivisionByZero)
    decreases |st.ops|
  {
    if st.ops != [] && Last(st.ops) != '(' {
      ReduceSpec(st);
      match Reduce(st)
      case Err(x) =>
      case Ok(st') =>
        ReduceCounts(st);
        DrainSpec(st');
        assert OpsWellFormed(st.ops) ==> OpsWellFormed(st'.ops) by {
          assert forall j :: 0 <= j < |st'.ops| ==> st'.ops[j] == st.ops[j];
        }
    }
  }

  /** The character before position `i` ends an operand: a digit or ')'. */
  predicate ClosesOperand(e: string, i: nat)
    requires i <= |e|
  {
    i > 0 && (IsDigit(e[i - 1]) || e[i - 1] == ')')
  }

  /**
   * What holds of the machine before the scan looks at position `i` of `e`:
   * there are at least as many operands as operators, one more right after an
   * operand; the operator stack holds only operators and '('; it is empty at the
   * start and has '(' on top right after a '('.
   */
  predicate Inv(e: string, i: nat, m: Machine)
    requires i <= |e|
  {
    var st := m.stacks;
    && OpsWellFormed(st.ops)
    && (i == 0 ==> st.ops == [])
    && (i > 0 ==> IsKnown(e[i - 1]))
    && (i > 0 && e[i - 1] == '(' ==> |st.ops| > 0 && Last(st.ops) == '(')
    && Pending(st.ops) + (if ClosesOperand(e, i) then 1 else 0) <= |st.num|
  }

  /** Reduce what outranks `c`, then push the binary operator `c` and clear the flag. */
  function PushOperator(st: Stacks, c: char): (r: Result<Machine>)
    requires Reducible(st)
  {
    match ReduceWhile(st, Priority(c))
    case Err(x) => Err(x)
    case Ok(st') => Ok(Machine(Stacks(st'.num, st'.ops + [c]), false))
  }

  /** The body of the scan loop for the character at position `i`. */
  function Step(e: string, i: nat, m: Machine): Result<Machine>
    requires i < |e| && Inv(e, i, m)
  {
    var c, st := e[i], m.stacks;
    if c == '(' then
      Ok(Machine(Stacks(st.num, st.ops + ['(']), m.negative))
    else if c == ')' then
      if i > 0 && (e[i - 1] == '(' || IsOperator(e[i - 1])) then Err(InvalidExpression)
      else
        match ReduceWhile(st, 0)
        case Err(x) => Err(x)
        case Ok(st') =>
          if |st'.ops| == 0 then Err(MismatchedBrackets)
          else Ok(Machine(Stacks(st'.num, st'.ops[..|st'.ops| - 1]), m.negative))
    else if c == '+' || c == '*' || c == '/' then
      if i == 0 || IsOperator(e[i - 1]) || e[i - 1] == '(' then Err(UnexpectedOperator)
      else PushOperator(st, c)
    else if c == '-' then
      if i == 0 || e[i - 1] == '(' then Ok(Machine(st, true))
      else if IsOperator(e[i - 1]) || i == |e| - 1 then Err(UnexpectedOperator)
      else PushOperator(st, c)
    else if IsDigit(c) then
      if i > 0 && IsDigit(e[i - 1]) then Err(MultiDigitNumber)
      else
        var value := if m.negative then -DigitValue(c) else DigitValue(c);
        Ok(Machine(Stacks(st.num + [value], st.ops), false))
    else
      Err(InvalidExpression)
  }

  /** Pushing `c` on a stack adds one '(' if `c` is one. */
  lemma {:induction false} CountPush(s: seq<char>, c: char, x: char)
    ensures Count(s + [c], x) == Count(s, x) + (if c == x then 1 else 0)
  {
    CountToAgree(s + [c], s, x, |s|);
  }

  /** A prefix of a well-formed operator stack is well formed. */
  lemma {:induction false} OpsPrefix(ops: seq<char>, pre: seq<char>)
    requires OpsWellFormed(ops) && pre <= ops
    ensures OpsWellFormed(pre)
  {
    assert forall j :: 0 <= j < |pre| ==> pre[j] == ops[j];
  }

  /** Popping the '(' on top of the stacks after a ')' keeps the invariant of the scan. */
  lemma {:induction false} PopOpenInv(e: string, i: nat, st: Stacks, negative: bool)
    requires i < |e| && e[i] == ')'
    requires |st.ops| > 0 && Last(st.ops) == '(' && OpsWellFormed(st.ops) && Pending(st.ops) < |st.num|
    ensures Inv(e, i + 1, Machine(Stacks(st.num, st.ops[..|st.ops| - 1]), negative))
  {
    OpsPrefix(st.ops, st.ops[..|st.ops| - 1]);
    CountPop(st.ops, '(');
  }

  /** A ')' whose loop stops at a '(' pops it and keeps the invariant of the scan. */
  lemma {:induction false} CloseInv(e: string, i: nat, m: Machine)
    requires i < |e| && Inv(e, i, m) && e[i] == ')'
    requires i > 0 ==> e[i - 1] != '(' && !IsOperator(e[i - 1])
    ensures Step(e, i, m).Ok? ==> Inv(e, i + 1, Step(e, i, m).value)
  {
    var st := m.stacks;
    ReduceWhileSpec(st, 0);
    match ReduceWhile(st, 0)
    case Err(_) =>
    case Ok(st') =>
      if |st'.ops| > 0 {
        OpsPrefix(st.ops, st'.ops);
        PopOpenInv(e, i, st', m.negative);
        assert Step(e, i, m) == Ok(Machine(Stacks(st'.num, st'.ops[..|st'.ops| - 1]), m.negative));
      }
  }

  /** Pushing a binary operator above stacks with an operand for each pending one keeps the invariant. */
  lemma {:induction false} PushOpInv(e: string, i: nat, st: Stacks, c: char)
    requires i < |e| && e[i] == c && IsOperator(c)
    requires OpsWellFormed(st.ops) && Pending(st.ops) < |st.num|
    ensures Inv(e, i + 1, Machine(Stacks(st.num, st.ops + [c]), false))
  {
    CountPush(st.ops, c, '(');
    assert forall j :: 0 <= j < |st.ops| ==> (st.ops + [c])[j] == st.ops[j];
  }

  /** A binary operator, once its loop has run, is pushed and keeps the invariant of the scan. */
  lemma {:induction false} PushInv(e: string, i: nat, m: Machine)
    requires i < |e| && Inv(e, i, m) && IsOperator(e[i]) && ClosesOperand(e, i)
    requires PushOperator(m.stacks, e[i]).Ok?
    ensures Inv(e, i + 1, PushOperator(m.stacks, e[i]).value)
  {
    var st, c := m.stacks, e[i];
    ReduceWhileSpec(st, Priority(c));
    var st' := ReduceWhile(st, Priority(c)).value;
    OpsPrefix(st.ops, st'.ops);
    PushOpInv(e, i, st', c);
  }

  /** Each step keeps the invariant of the scan. */
  lemma {:induction false} StepInv(e: string, i: nat, m: Machine)
    requires i < |e| && Inv(e, i, m)
    ensures Step(e, i, m).Ok? ==> Inv(e, i + 1, Step(e, i, m).value)
  {
    var c, st := e[i], m.stacks;
    var misplaced := i == 0 || IsOperator(e[i - 1]) || e[i - 1] == '(';
    if c == '(' {
      CountPush(st.ops, '(', '(');
      assert Step(e, i, m) == Ok(Machine(Stacks(st.num, st.ops + ['(']), m.negative));
    } else if c == ')' {
      if i > 0 && (e[i - 1] == '(' || IsOperator(e[i - 1])) {
        assert Step(e, i, m).Err?;
      } else {
        CloseInv(e, i, m);
      }
    } else if c == '-' && (i == 0 || e[i - 1] == '(') {
      assert Step(e, i, m) == Ok(Machine(st, true));
    } else if IsOperator(c) {
      if misplaced || (c == '-' && i == |e| - 1) {
        assert Step(e, i, m).Err?;
      } else {
        assert ClosesOperand(e, i);
        assert Step(e, i, m) == PushOperator(st, c);
        if Step(e, i, m).Ok? {
          PushInv(e, i, m);
        }
      }
    } else if IsDigit(c) {
      if !(i > 0 && IsDigit(e[i - 1])) {
        var value := if m.negative then -DigitValue(c) else DigitValue(c);
        assert Step(e, i, m) == Ok(Machine(Stacks(st.num + [value], st.ops), false));
      }
    }
  }

  /** The scan of positions `a` up to (not including) `b`, from machine `m`. */
  function RunFrom(e: string, a: nat, b: nat, m: Machine): (r: Result<Machine>)
    requires a <= b <= |e| && Inv(e, a, m)
    ensures r.Ok? ==> Inv(e, b, r.value)
    decreases b
  {
    if b == a then Ok(m)
    else
      match RunFrom(e, a, b - 1, m)
      case Err(x) => Err(x)
      case Ok(m') => StepInv(e, b - 1, m'); Step(e, b - 1, m')
  }

  /** The machine after the scan has looked at the first `k` characters. */
  function Run(e: string, k: nat): (r: Result<Machine>)
    requires k <= |e|
    ensures r.Ok? ==> Inv(e, k, r.value)
  {
    RunFrom(e, 0, k, Init)
  }

  /** `strings.ReplaceAll(expression, " ", "")`. */
  function StripSpaces(s: string): (r: string)
    ensures forall c :: c in r <==> c in s && c != ' '
    ensures |r| <= |s|
  {
    if s == [] then []
    else (if s[0] == ' ' then [] else [s[0]]) + StripSpaces(s[1..])
  }

  /** The meaning of `Calc(expression)`: its result value or its error. */
  function Evaluate(expression: string): Result<real> {
    var e := StripSpaces(expression);
    if |e| == 0 then Err(EmptyExpression)
    else
      match Run(e, |e|)
      case Err(x) => Err(x)
      case Ok(m) =>
        if IsOperator(e[|e| - 1]) then Err(OperatorAtEnd)
        else
          match Drain(m.stacks)
          case Err(x) => Err(x)
          case Ok(st) => if |st.num| != 1 then Err(InvalidExpression) else Ok(st.num[0])
  }

  /** The `calculate` closure over the two stacks, returned updated. */
  method Calculate(num: seq<real>, operator: seq<char>)
      returns (num': seq<real>, operator': seq<char>, err: Option<Error>)
    ensures Reduce(Stacks(num, operator)) == if err.None? then Ok(Stacks(num', operator')) else Err(err.value)
  {
    if |operator| == 0 || |num| < 2 {
      return num, operator, None;
    }
    var b := num[|num| - 1];
    var a := num[|num| - 2];
    var op := operator[|operator| - 1];
    num' := num[..|num| - 2];
    operator' := operator[..|operator| - 1];
    var result := ApplyOperator(a, b, op);
    if result.Err? {
      return num', operator', Some(result.error);
    }
    num' := num' + [result.value];
    err := None;
  }

  /** Once the scan has failed, later characters do not change its outcome. */
  lemma {:induction false} RunErrorPersists(e: string, k: nat, j: nat)
    requires k <= j <= |e| && Run(e, k).Err?
    ensures Run(e, j) == Run(e, k)
    decreases j
  {
    if j > k {
      RunErrorPersists(e, k, j - 1);
    }
  }

  /**
   * One iteration of the scan loop of `Calc`: the `switch` on the character at
   * position `i`, with the reduction loops it runs.
   */
  method ScanCharacter(e: string, i: nat, num: seq<real>, operator: seq<char>, negativeFlag: bool)
      returns (num': seq<real>, operator': seq<char>, negativeFlag': bool, err: Option<Error>)
    requires i < |e| && Inv(e, i, Machine(Stacks(num, operator), negativeFlag))
    ensures Step(e, i, Machine(Stacks(num, operator), negativeFlag))
         == if err.None? then Ok(Machine(Stacks(num', operator'), negativeFlag')) else Err(err.value)
  {
    num', operator', negativeFlag', err := num, operator, negativeFlag, None;
    var c := e[i];
    if c == '(' {
      operator' := operator' + [c];
    } else if c == ')' {
      if i > 0 && (e[i - 1] == '(' || IsOperator(e[i - 1])) {
        return num', operator', negativeFlag', Some(InvalidExpression);
      }
      while |operator'| > 0 && operator'[|operator'| - 1] != '('
        invariant err.None? && Reducible(Stacks(num', operator'))
        invariant ReduceWhile(Stacks(num', operator'), 0) == ReduceWhile(Stacks(num, operator), 0)
        decreases |operator'|
      {
        ghost var before := Stacks(num', operator');
        num', operator', err := Calculate(num', operator');
        if err.Some? {
          return;
        }
        ReduceProgress(before, 0);
      }
      if |operator'| == 0 {
        return num', operator', negativeFlag', Some(MismatchedBrackets);
      }
      operator' := operator'[..|operator'| - 1];
    } else if c == '+' || c == '*' || c == '/' {
      if i == 0 || IsOperator(e[i - 1]) || e[i - 1] == '(' {
        return num', operator', negativeFlag', Some(UnexpectedOperator);
      }
      while |operator'| > 0 && operator'[|operator'| - 1] != '(' && Priority(operator'[|operator'| - 1]) >= Priority(c)
        invariant err.None? && Reducible(Stacks(num', operator'))
        invariant ReduceWhile(Stacks(num', operator'), Priority(c)) == ReduceWhile(Stacks(num, operator), Priority(c))
        decreases |operator'|
      {
        ghost var before := Stacks(num', operator');
        num', operator', err := Calculate(num', operator');
        if err.Some? {
          return;
        }
        ReduceProgress(before, 0);
      }
      operator' := operator' + [c];
      negativeFlag' := false;
    } else if c == '-' {
      if i == 0 || e[i - 1] == '(' {
        negativeFlag' := true;
      } else {
        if IsOperator(e[i - 1]) || i == |e| - 1 {
          return num', operator', negativeFlag', Some(UnexpectedOperator);
        }
        while |operator'| > 0 && operator'[|operator'| - 1] != '(' && Priority(operator'[|operator'| - 1]) >= Priority(c)
          invariant err.None? && Reducible(Stacks(num', operator'))
          invariant ReduceWhile(Stacks(num', operator'), Priority(c)) == ReduceWhile(Stacks(num, operator), Priority(c))
          decreases |operator'|
        {
          ghost var before := Stacks(num', operator');
          num', operator', err := Calculate(num', operator');
          if err.Some? {
            return;
          }
          ReduceProgress(before, 0);
        }
        operator' := operator' + [c];
        negativeFlag' := false;
      }
    } else if IsDigit(c) {
      if i > 0 && IsDigit(e[i - 1]) {
        return num', operator', negativeFlag', Some(MultiDigitNumber);
      }
      var value := DigitValue(c);
      if negativeFlag' {
        value := -value;
        negativeFlag' := false;
      }
      num' := num' + [value];
    } else {
      err := Some(InvalidExpression);
    }
  }

  /** `Calc`: evaluates `expression`, or reports why it cannot. */
  method Calc(expression: string) returns (result: Result<real>)
    ensures result == Evaluate(expression)
  {
    var e := StripSpaces(expression);
    if |e| == 0 {
      return Err(EmptyExpression);
    }
    var num: seq<real> := [];
    var operator: seq<char> := [];
    var negativeFlag := false;
    for i := 0 to |e|
      invariant Run(e, i) == Ok(Machine(Stacks(num, operator), negativeFlag))
    {
      var err: Option<Error>;
      num, operator, negativeFlag, err := ScanCharacter(e, i, num, operator, negativeFlag);
      if err.Some? {
        RunErrorPersists(e, i + 1, |e|);
        return Err(err.value);
      }
    }

    if |e| > 0 && IsOperator(e[|e| - 1]) {
      return Err(OperatorAtEnd);
    }

    ghost var start := Stacks(num, operator);
    while |operator| > 0
      invariant Drainable(Stacks(num, operator))
      invariant Drain(Stacks(num, operator)) == Drain(start)
      decreases |operator|
    {
      if operator[|operator| - 1] == '(' {
        return Err(MismatchedBrackets);
      }
      var err: Option<Error>;
      ghost var before := Stacks(num, operator);
      num, operator, err := Calculate(num, operator);
      if err.Some? {
        return Err(err.value);
      }
      DrainProgress(before);
    }

    if |num| != 1 {
      return Err(InvalidExpression);
    }
    return Ok(num[0]);
  }
}
