/**
 * Properties of `Calc.Evaluate`: which error each malformed input gets, what the
 * operand and bracket counts are after a scan, and that spaces are insignificant.
 *
 * Errors are first-match: the scan stops at the first character that fails, so
 * the lemmas below name the position `k` the scan reached without failing.
 */
module CalcProperties {
  import opened Calc

  /** A scan that has not failed, continued from position `b` to `c`. */
  function Continue(e: string, b: nat, c: nat, r: Result<Machine>): Result<Machine>
    requires b <= c <= |e| && (r.Ok? ==> Inv(e, b, r.value))
  {
    match r
    case Err(x) => Err(x)
    case Ok(m) => RunFrom(e, b, c, m)
  }

  /** Scanning `a..c` is scanning `a..b` and then `b..c`. */
  lemma {:induction false} RunSplit(e: string, a: nat, b: nat, c: nat, m: Machine)
    requires a <= b <= c <= |e| && Inv(e, a, m)
    ensures RunFrom(e, a, c, m) == Continue(e, b, c, RunFrom(e, a, b, m))
    decreases c
  {
    if c > b {
      RunSplit(e, a, b, c - 1, m);
      match RunFrom(e, a, b, m)
      case Err(x) =>
        assert RunFrom(e, a, c - 1, m) == Err(x);
      case Ok(m1) =>
        assert RunFrom(e, a, c - 1, m) == RunFrom(e, b, c - 1, m1);
    }
  }

  lemma RunNext(e: string, k: nat)
    requires k < |e| && Run(e, k).Ok?
    ensures Run(e, k + 1) == Step(e, k, Run(e, k).value)
  {
  }

  /** A failed scan failed at one position `j`: the scan of `0..j` succeeded and character `j` failed. */
  lemma {:induction false} FirstFailure(e: string, k: nat) returns (j: nat)
    requires k <= |e| && Run(e, k).Err?
    ensures j < k && Run(e, j).Ok? && Run(e, j + 1) == Run(e, k)
    decreases k
  {
    assert k > 0;
    if Run(e, k - 1).Ok? {
      j := k - 1;
    } else {
      j := FirstFailure(e, k - 1);
      RunErrorPersists(e, j + 1, k);
    }
  }

  /** Two digits in a row. */
  predicate MultiDigitAt(e: string, k: nat)
    requires k < |e|
  {
    IsDigit(e[k]) && k > 0 && IsDigit(e[k - 1])
  }

  /**
   * A binary operator with no left operand: '+', '*' or '/' first, after an
   * operator or after '('; a '-' that is not unary (not first, not after '(')
   * after an operator or as the last character.
   */
  predicate MisplacedOperatorAt(e: string, k: nat)
    requires k < |e|
  {
    || ((e[k] == '+' || e[k] == '*' || e[k] == '/') && (k == 0 || IsOperator(e[k - 1]) || e[k - 1] == '('))
    || (e[k] == '-' && k > 0 && e[k - 1] != '(' && (IsOperator(e[k - 1]) || k == |e| - 1))
  }

  /** An unknown character, or a ')' right after '(' or after an operator. */
  predicate MalformedAt(e: string, k: nat)
    requires k < |e|
  {
    !IsKnown(e[k]) || (e[k] == ')' && k > 0 && (e[k - 1] == '(' || IsOperator(e[k - 1])))
  }

  /** The error of one scan step, classified by the characters at and before it. */
  lemma {:induction false} StepErrors(e: string, i: nat, m: Machine)
    requires i < |e| && Inv(e, i, m)
    ensures Step(e, i, m) == Err(MultiDigitNumber) <==> MultiDigitAt(e, i)
    ensures Step(e, i, m) == Err(UnexpectedOperator) <==> MisplacedOperatorAt(e, i)
    ensures Step(e, i, m) == Err(InvalidExpression) <==> MalformedAt(e, i)
    ensures Step(e, i, m) == Err(MismatchedBrackets) <==>
      && e[i] == ')' && !MalformedAt(e, i)
      && ReduceWhile(m.stacks, 0).Ok? && Count(m.stacks.ops, '(') == 0
    ensures Step(e, i, m) != Err(EmptyExpression) && Step(e, i, m) != Err(OperatorAtEnd)
  {
    var st := m.stacks;
    if IsOperator(e[i]) && Reducible(st) {
      ReduceWhileSpec(st, Priority(e[i]));
    }
    if e[i] == ')' && !MalformedAt(e, i) {
      ReduceWhileSpec(st, 0);
      var r := ReduceWhile(st, 0);
      if r.Ok? {
        var ops := r.value.ops;
        assert ops != [] ==> Last(ops) == '(';
        assert ops != [] ==> Count(ops, '(') > 0;
      }
    }
  }

  /** A scan error is never one of the two errors that are raised outside the scan. */
  lemma {:induction false} ScanErrorKind(e: string, k: nat)
    requires k <= |e| && Run(e, k).Err?
    ensures Run(e, k).error != EmptyExpression && Run(e, k).error != OperatorAtEnd
  {
    var j := FirstFailure(e, k);
    RunNext(e, j);
    StepErrors(e, j, Run(e, j).value);
  }

  /** Whether the scan of all of `e` has failed at character `k` with error `x`. */
  predicate FailsAt(e: string, k: nat, x: Error)
    requires k < |e|
  {
    Run(e, k).Ok? && Step(e, k, Run(e, k).value) == Err(x)
  }

  /** A scan that fails at `k` fails as a whole, with the same error. */
  lemma {:induction false} FailsAtIsFinal(e: string, k: nat, x: Error)
    requires k < |e| && FailsAt(e, k, x)
    ensures Run(e, |e|) == Err(x)
  {
    RunNext(e, k);
    RunErrorPersists(e, k + 1, |e|);
  }

  /** The drain after a scan that ends in an operand or a bracket. */
  lemma {:induction false} DrainAfterScan(e: string)
    requires |e| > 0 && Run(e, |e|).Ok? && !IsOperator(Last(e))
    ensures var st := Run(e, |e|).value.stacks;
      && Drainable(st)
      && (Drain(st).Ok? ==> Drain(st).value.ops == [] && |Drain(st).value.num| == |st.num| - Pending(st.ops))
      && (Count(st.ops, '(') > 0 ==> Drain(st).Err?)
      && (Drain(st).Err? ==> Drain(st).error == MismatchedBrackets || Drain(st).error == DivisionByZero)
  {
    DrainSpec(Run(e, |e|).value.stacks);
  }

  /**
   * The errors that the checks after the scan can give: a trailing operator, a
   * mismatched bracket or a division by zero in the drain, or a wrong final
   * operand count.
   */
  lemma {:induction false} AfterScanErrors(s: string)
    requires var e := StripSpaces(s); |e| > 0 && Run(e, |e|).Ok?
    ensures Evaluate(s).Err? ==>
      Evaluate(s).error in {OperatorAtEnd, MismatchedBrackets, DivisionByZero, InvalidExpression}
  {
    var e := StripSpaces(s);
    if !IsOperator(Last(e)) {
      DrainAfterScan(e);
    }
  }

  /** The scan error of `Evaluate`, found at its position. */
  lemma {:induction false} ScanError(s: string, x: Error)
    requires x !in {OperatorAtEnd, MismatchedBrackets, DivisionByZero, InvalidExpression, EmptyExpression}
    ensures var e := StripSpaces(s);
      Evaluate(s) == Err(x) <==> exists k :: 0 <= k < |e| && FailsAt(e, k, x)
  {
    var e := StripSpaces(s);
    if Evaluate(s) == Err(x) {
      assert |e| > 0;
      if Run(e, |e|).Ok? {
        AfterScanErrors(s);
      }
      var j := FirstFailure(e, |e|);
      RunNext(e, j);
      assert FailsAt(e, j, x);
    }
    if exists k :: 0 <= k < |e| && FailsAt(e, k, x) {
      var k :| 0 <= k < |e| && FailsAt(e, k, x);
      FailsAtIsFinal(e, k, x);
    }
  }

  /** Two adjacent digits give `MultiDigitNumber`, when the scan gets that far, and nothing else does. */
  lemma {:induction false} MultiDigitNumberIff(s: string)
    ensures var e := StripSpaces(s);
      Evaluate(s) == Err(MultiDigitNumber) <==> exists k :: 0 <= k < |e| && Run(e, k).Ok? && MultiDigitAt(e, k)
  {
    var e := StripSpaces(s);
    ScanError(s, MultiDigitNumber);
    forall k | 0 <= k < |e| && Run(e, k).Ok?
      ensures FailsAt(e, k, MultiDigitNumber) <==> MultiDigitAt(e, k)
    {
      StepErrors(e, k, Run(e, k).value);
    }
  }

  /** A binary operator with no left operand gives `UnexpectedOperator`, and nothing else does. */
  lemma {:induction false} UnexpectedOperatorIff(s: string)
    ensures var e := StripSpaces(s);
      Evaluate(s) == Err(UnexpectedOperator) <==> exists k :: 0 <= k < |e| && Run(e, k).Ok? && MisplacedOperatorAt(e, k)
  {
    var e := StripSpaces(s);
    ScanError(s, UnexpectedOperator);
    forall k | 0 <= k < |e| && Run(e, k).Ok?
      ensures FailsAt(e, k, UnexpectedOperator) <==> MisplacedOperatorAt(e, k)
    {
      StepErrors(e, k, Run(e, k).value);
    }
  }

  /** A binary '-' as the last character is an unexpected operator, not an operator at the end. */
  lemma {:induction false} TrailingBinaryMinus(s: string)
    requires var e := StripSpaces(s);
      |e| > 1 && Last(e) == '-' && e[|e| - 2] != '(' && Run(e, |e| - 1).Ok?
    ensures Evaluate(s) == Err(UnexpectedOperator)
  {
    var e := StripSpaces(s);
    UnexpectedOperatorIff(s);
    assert MisplacedOperatorAt(e, |e| - 1);
  }

  /** `OperatorAtEnd` is exactly a scan that succeeds on text ending in an operator. */
  lemma {:induction false} OperatorAtEndIff(s: string)
    ensures var e := StripSpaces(s);
      Evaluate(s) == Err(OperatorAtEnd) <==> |e| > 0 && Run(e, |e|).Ok? && IsOperator(Last(e))
  {
    var e := StripSpaces(s);
    if |e| > 0 && Run(e, |e|).Err? {
      ScanErrorKind(e, |e|);
    } else if |e| > 0 && !IsOperator(Last(e)) {
      DrainAfterScan(e);
    }
  }

  /** The only trailing operators that reach the `OperatorAtEnd` check are '+', '*', '/' and a unary '-'. */
  lemma {:induction false} OperatorAtEndKinds(s: string)
    requires Evaluate(s) == Err(OperatorAtEnd)
    ensures var e := StripSpaces(s);
      Last(e) == '-' ==> |e| == 1 || e[|e| - 2] == '('
  {
    var e := StripSpaces(s);
    OperatorAtEndIff(s);
    if Last(e) == '-' && |e| > 1 && e[|e| - 2] != '(' {
      var k := |e| - 1;
      RunNext(e, k);
      StepErrors(e, k, Run(e, k).value);
    }
  }

  /** `EmptyExpression` is exactly an input made of spaces only. */
  lemma {:induction false} EmptyExpressionIff(s: string)
    ensures Evaluate(s) == Err(EmptyExpression) <==> forall j :: 0 <= j < |s| ==> s[j] == ' '
  {
    var e := StripSpaces(s);
    if |e| > 0 {
      assert e[0] in e;
      if Run(e, |e|).Err? {
        ScanErrorKind(e, |e|);
      } else if !IsOperator(Last(e)) {
        DrainAfterScan(e);
      }
    } else {
      forall j | 0 <= j < |s|
        ensures s[j] == ' '
      {
        assert s[j] in s;
      }
    }
  }

  /**
   * The number of digits in `s`. It is only applied to prefixes `e[..k]` of the
   * scanned text, which grow by one character per step, so it recurses on the
   * prefix; `Calc.Count` counts stack entries and is index-based, because the
   * stacks shrink from the top as well as grow.
   */
  function DigitCount(s: string): (n: nat)
    ensures n <= |s|
  {
    if s == [] then 0 else DigitCount(s[..|s| - 1]) + (if IsDigit(Last(s)) then 1 else 0)
  }

  /** Position `j` holds a binary operator: '+', '*', '/', or a '-' that is not first and not after '('. */
  predicate IsBinaryAt(e: string, j: nat)
    requires j < |e|
  {
    e[j] == '+' || e[j] == '*' || e[j] == '/' || (e[j] == '-' && j > 0 && e[j - 1] != '(')
  }

  /** The number of binary operators among the first `k` characters. */
  function BinaryCount(e: string, k: nat): (n: nat)
    requires k <= |e|
    ensures n <= k
  {
    if k == 0 then 0 else BinaryCount(e, k - 1) + (if IsBinaryAt(e, k - 1) then 1 else 0)
  }

  lemma {:induction false} CountSnoc(s: string, k: nat, c: char)
    requires k < |s|
    ensures Count(s[..k + 1], c) == Count(s[..k], c) + (if s[k] == c then 1 else 0)
    ensures DigitCount(s[..k + 1]) == DigitCount(s[..k]) + (if IsDigit(s[k]) then 1 else 0)
  {
    assert s[..k + 1][..k] == s[..k];
    CountPrefix(s, k + 1, c);
    CountPrefix(s, k, c);
  }

  /**
   * How one successful step changes the counts: the operand surplus (operands
   * minus pending operators) grows by one at a digit and shrinks by one at a
   * binary operator, and the number of stacked '(' follows the brackets.
   */
  predicate StepCountsHold(e: string, i: nat, m: Machine)
    requires i < |e| && Inv(e, i, m) && Step(e, i, m).Ok?
  {
    var st, st' := m.stacks, Step(e, i, m).value.stacks;
    && |st'.num| - Pending(st'.ops)
       == |st.num| - Pending(st.ops) + (if IsDigit(e[i]) then 1 else 0) - (if IsBinaryAt(e, i) then 1 else 0)
    && Count(st'.ops, '(') == Count(st.ops, '(') + (if e[i] == '(' then 1 else 0) - (if e[i] == ')' then 1 else 0)
  }

  lemma {:induction false} StepCounts(e: string, i: nat, m: Machine)
    requires i < |e| && Inv(e, i, m) && Step(e, i, m).Ok?
    ensures StepCountsHold(e, i, m)
  {
    var c := e[i];
    if c == '(' {
      OpenCounts(e, i, m);
    } else if c == ')' {
      CloseCounts(e, i, m);
    } else if c == '-' && (i == 0 || e[i - 1] == '(') {
      assert Step(e, i, m) == Ok(Machine(m.stacks, true));
    } else if IsOperator(c) {
      PushCounts(e, i, m);
    } else {
      DigitCounts(e, i, m);
    }
  }

  lemma {:induction false} OpenCounts(e: string, i: nat, m: Machine)
    requires i < |e| && Inv(e, i, m) && e[i] == '(' && Step(e, i, m).Ok?
    ensures StepCountsHold(e, i, m)
  {
    var st := m.stacks;
    CountPush(st.ops, '(', '(');
    assert Step(e, i, m) == Ok(Machine(Stacks(st.num, st.ops + ['(']), m.negative));
  }

  lemma {:induction false} DigitCounts(e: string, i: nat, m: Machine)
    requires i < |e| && Inv(e, i, m) && IsDigit(e[i]) && Step(e, i, m).Ok?
    ensures StepCountsHold(e, i, m)
  {
    var c, st := e[i], m.stacks;
    var value := if m.negative then -DigitValue(c) else DigitValue(c);
    assert Step(e, i, m) == Ok(Machine(Stacks(st.num + [value], st.ops), false));
  }

  lemma {:induction false} CloseCounts(e: string, i: nat, m: Machine)
    requires i < |e| && Inv(e, i, m) && e[i] == ')' && Step(e, i, m).Ok?
    ensures StepCountsHold(e, i, m)
  {
    var st := m.stacks;
    ReduceWhileSpec(st, 0);
    var r := ReduceWhile(st, 0).value;
    CountPop(r.ops, '(');
    assert Step(e, i, m) == Ok(Machine(Stacks(r.num, r.ops[..|r.ops| - 1]), m.negative));
  }

  lemma {:induction false} PushCounts(e: string, i: nat, m: Machine)
    requires i < |e| && Inv(e, i, m) && IsOperator(e[i]) && Step(e, i, m).Ok?
    requires !(e[i] == '-' && (i == 0 || e[i - 1] == '('))
    ensures StepCountsHold(e, i, m)
  {
    var st, c := m.stacks, e[i];
    assert ClosesOperand(e, i);
    assert Step(e, i, m) == PushOperator(st, c);
    ReduceWhileSpec(st, Priority(c));
    var r := ReduceWhile(st, Priority(c)).value;
    CountPush(r.ops, c, '(');
  }

  /**
   * After the scan of the first `k` characters: operands minus pending operators
   * is digits minus binary operators, and the '(' on the operator stack are the
   * opened brackets not yet closed; so a prefix that scans never closes more
   * brackets than it opens.
   */
  lemma {:induction false} ScanCounts(e: string, k: nat)
    requires k <= |e| && Run(e, k).Ok?
    ensures var st := Run(e, k).value.stacks;
      && |st.num| - Pending(st.ops) == DigitCount(e[..k]) - BinaryCount(e, k)
      && Count(st.ops, '(') == Count(e[..k], '(') - Count(e[..k], ')')
    ensures Count(e[..k], ')') <= Count(e[..k], '(')
    decreases k
  {
    if k > 0 {
      var j := k - 1;
      if Run(e, j).Err? {
        RunErrorPersists(e, j, k);
        assert false;
      }
      ScanCounts(e, j);
      RunNext(e, j);
      CountSnoc(e, j, '(');
      CountSnoc(e, j, ')');
      StepCounts(e, j, Run(e, j).value);
    }
  }

  /**
   * When the scan and the drain succeed, the operands left are the digits minus
   * the binary operators, and the result is a value exactly when that is one;
   * any other count is `InvalidExpression`.
   */
  lemma {:induction false} FinalOperandCount(s: string)
    requires var e := StripSpaces(s);
      |e| > 0 && Run(e, |e|).Ok? && !IsOperator(Last(e)) && Drain(Run(e, |e|).value.stacks).Ok?
    ensures var e := StripSpaces(s);
      |Drain(Run(e, |e|).value.stacks).value.num| == DigitCount(e) - BinaryCount(e, |e|)
    ensures var e := StripSpaces(s);
      Evaluate(s).Ok? <==> DigitCount(e) == BinaryCount(e, |e|) + 1
    ensures !Evaluate(s).Ok? ==> Evaluate(s) == Err(InvalidExpression)
  {
    var e := StripSpaces(s);
    ScanCounts(e, |e|);
    DrainAfterScan(e);
    assert e[..|e|] == e;
  }

  /** `InvalidExpression` is a malformed character reached by the scan, or a wrong final operand count. */
  lemma {:induction false} InvalidExpressionIff(s: string)
    ensures var e := StripSpaces(s);
      Evaluate(s) == Err(InvalidExpression) <==>
        || (exists k :: 0 <= k < |e| && Run(e, k).Ok? && MalformedAt(e, k))
        || (&& |e| > 0 && Run(e, |e|).Ok? && !IsOperator(Last(e))
            && Drain(Run(e, |e|).value.stacks).Ok? && DigitCount(e) != BinaryCount(e, |e|) + 1)
  {
    var e := StripSpaces(s);
    forall k | 0 <= k < |e| && Run(e, k).Ok?
      ensures FailsAt(e, k, InvalidExpression) <==> MalformedAt(e, k)
    {
      StepErrors(e, k, Run(e, k).value);
    }
    if |e| > 0 && Run(e, |e|).Ok? && !IsOperator(Last(e)) && Drain(Run(e, |e|).value.stacks).Ok? {
      FinalOperandCount(s);
      forall k | 0 <= k < |e| && Run(e, k).Ok?
        ensures !MalformedAt(e, k)
      {
        if MalformedAt(e, k) {
          StepErrors(e, k, Run(e, k).value);
          FailsAtIsFinal(e, k, InvalidExpression);
        }
      }
    } else if |e| > 0 && Run(e, |e|).Err? {
      var j := FirstFailure(e, |e|);
      RunNext(e, j);
      if Evaluate(s) == Err(InvalidExpression) {
        assert FailsAt(e, j, InvalidExpression);
      }
      forall k | 0 <= k < |e| && Run(e, k).Ok? && MalformedAt(e, k)
        ensures Evaluate(s) == Err(InvalidExpression)
      {
        FailsAtIsFinal(e, k, InvalidExpression);
      }
    } else if |e| > 0 {
      if !IsOperator(Last(e)) {
        DrainAfterScan(e);
      }
      forall k | 0 <= k < |e| && Run(e, k).Ok?
        ensures !MalformedAt(e, k)
      {
        if MalformedAt(e, k) {
          StepErrors(e, k, Run(e, k).value);
          FailsAtIsFinal(e, k, InvalidExpression);
        }
      }
    }
  }

  /** A ')' reached when every '(' so far is closed is a mismatched bracket (unless a division by zero comes first). */
  lemma {:induction false} UnmatchedClose(s: string, k: nat)
    requires var e := StripSpaces(s);
      && k < |e| && Run(e, k).Ok? && e[k] == ')' && !MalformedAt(e, k)
      && Count(e[..k], '(') == Count(e[..k], ')')
    ensures Evaluate(s) == Err(MismatchedBrackets) || Evaluate(s) == Err(DivisionByZero)
  {
    var e := StripSpaces(s);
    ScanCounts(e, k);
    var m := Run(e, k).value;
    RunNext(e, k);
    StepErrors(e, k, m);
    if ReduceWhile(m.stacks, 0).Ok? {
      FailsAtIsFinal(e, k, MismatchedBrackets);
    } else {
      ReduceWhileSpec(m.stacks, 0);
      FailsAtIsFinal(e, k, DivisionByZero);
    }
  }

  /** A '(' left open at the end of a scan is a mismatched bracket (unless a division by zero comes first). */
  lemma {:induction false} UnmatchedOpen(s: string)
    requires var e := StripSpaces(s);
      |e| > 0 && Run(e, |e|).Ok? && !IsOperator(Last(e)) && Count(e, ')') < Count(e, '(')
    ensures Evaluate(s) == Err(MismatchedBrackets) || Evaluate(s) == Err(DivisionByZero)
  {
    var e := StripSpaces(s);
    ScanCounts(e, |e|);
    DrainAfterScan(e);
    assert e[..|e|] == e;
  }

  /** `MismatchedBrackets` comes only from a ')' with nothing to close or a '(' left open. */
  lemma {:induction false} MismatchedBracketsSound(s: string)
    requires Evaluate(s) == Err(MismatchedBrackets)
    ensures var e := StripSpaces(s);
      || (exists k :: 0 <= k < |e| && Run(e, k).Ok? && e[k] == ')' && Count(e[..k], '(') == Count(e[..k], ')'))
      || (Run(e, |e|).Ok? && Count(e, ')') < Count(e, '('))
  {
    var e := StripSpaces(s);
    if Run(e, |e|).Err? {
      var j := FirstFailure(e, |e|);
      RunNext(e, j);
      StepErrors(e, j, Run(e, j).value);
      ScanCounts(e, j);
      assert e[j] == ')' && Count(e[..j], '(') == Count(e[..j], ')');
    } else {
      ScanCounts(e, |e|);
      assert e[..|e|] == e;
      var st := Run(e, |e|).value.stacks;
      OperatorAtEndIff(s);
      DrainMismatch(st);
    }
  }

  /** The drain reports a mismatched bracket only when some '(' is still stacked. */
  lemma {:induction false} DrainMismatch(st: Stacks)
    requires Drainable(st) && Drain(st) == Err(MismatchedBrackets)
    ensures Count(st.ops, '(') > 0
    decreases |st.ops|
  {
    if Last(st.ops) != '(' {
      ReduceSpec(st);
      var st' := Reduce(st).value;
      DrainProgress(st);
      CountPop(st.ops, '(');
      DrainMismatch(st');
      assert st'.ops == st.ops[..|st.ops| - 1];
    }
  }

  /** Removing spaces distributes over concatenation. */
  lemma {:induction false} StripSpacesConcat(u: string, v: string)
    ensures StripSpaces(u + v) == StripSpaces(u) + StripSpaces(v)
    decreases |u|
  {
    if u != [] {
      assert (u + v)[0] == u[0];
      assert (u + v)[1..] == u[1..] + v;
      StripSpacesConcat(u[1..], v);
    } else {
      assert u + v == v;
    }
  }

  /** Text without spaces is left as it is. */
  lemma {:induction false} StripSpacesNoSpaces(s: string)
    requires ' ' !in s
    ensures StripSpaces(s) == s
    decreases |s|
  {
    if s != [] {
      assert s[0] in s;
      assert forall c :: c in s[1..] ==> c in s;
      StripSpacesNoSpaces(s[1..]);
    }
  }

  /**
   * A space anywhere changes nothing: it neither separates two digits into two
   * operands nor joins anything, so "12 + 5" is as wrong as "12+5".
   */
  lemma {:induction false} SpaceInsensitive(u: string, v: string)
    ensures Evaluate(u + " " + v) == Evaluate(u + v)
  {
    assert StripSpaces(" ") == [] by {
      assert " "[1..] == [];
    }
    StripSpacesConcat(u + " ", v);
    StripSpacesConcat(u, " ");
    StripSpacesConcat(u, v);
    assert StripSpaces(u + " ") == StripSpaces(u);
  }

  /** Evaluating the text with its spaces removed gives the same outcome. */
  lemma {:induction false} StrippedEvaluatesAlike(s: string)
    ensures Evaluate(StripSpaces(s)) == Evaluate(s)
  {
    StripSpacesNoSpaces(StripSpaces(s));
  }
}
