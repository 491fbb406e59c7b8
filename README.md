# Calc: a verified model of a single-digit expression evaluator

`Calc(expression)` (Calc.go) evaluates an arithmetic expression over
single-digit operands. It handles `+ - * /`, brackets and unary minus. It first
removes every space. It then scans the text once, looking back one character
to reject malformed input. It resolves precedence eagerly with an operand stack
`num`, an operator stack `operator` and a pending-negation flag
`negativeFlag`. At the end it drains the operator stack and requires exactly
one operand to remain. Every outcome is a value or one of seven error kinds.

The project has four modules.

- `calc.dfy`, module `Calc`: the routine itself. `ApplyOperator`, `IsOperator`
  and `Priority` are functions. The `calculate` closure is the method
  `Calculate`. The body of the scan loop is the method `ScanCharacter`, with
  its three reduction loops. `Calc` is the whole routine, with the scan loop and
  the drain loop, over `seq` stacks. Each method is proved equal to a function:
  `Reduce` (one `calculate`), `ReduceWhile` (a reduction loop), `Drain` (the
  final loop), `Step` (one character), `Run` (the scan of a prefix) and
  `Evaluate` (the whole routine).
- `properties.dfy`, module `CalcProperties`: which input gets which error, the
  operand and bracket counts after a scan, and why spaces do not matter.
- `precedence.dfy`, module `Precedence`: expression trees with a printer and an
  arithmetic meaning `Eval`. The theorem `Correctness` says that the evaluator
  gives every well-formed tree's text the value of the tree under the usual
  precedence and left associativity.
- `examples.dfy`, module `Examples`: the sample expressions of the program and
  the quirks of its grammar, each with its outcome.

Each reduction loop in the source only makes progress because `calculate`
never takes its no-op branch there (Calc.go:56). The model makes this explicit
with the scan invariant `Inv`: the operand count is at least the number of
pending (non-`(`) operators, plus one right after a digit or `)`. `StepInv`
proves that every step keeps it. `Reducible` and `Drainable` carry it into the
loops, which then decrease `|operator|`.

Operand values are `real`. Exact rationals give the sample results (8, 0.5,
3.125).

Two behaviours of the code are easy to misread. The model follows the code in
both:

- An unmatched `(` does not always give `MismatchedBrackets`. The drain reduces
  the operators above the `(` before it reaches it, so `(1/0` gives
  `DivisionByZero` (`Examples.OpenDivisionByZero`, `CalcProperties.UnmatchedOpen`).
- A trailing `-` at the start or after `(` is read as unary. It therefore gives
  `OperatorAtEnd`, not `UnexpectedOperator`: `-` and `(-` are examples
  (`Examples.TrailingUnaryMinus`, `CalcProperties.OperatorAtEndKinds`). Only a
  trailing binary `-` gives `UnexpectedOperator` (`CalcProperties.TrailingBinaryMinus`).

## Model

| member | source | states |
|---|---|---|
| Calc.DigitValue | Calc.go:124 | a digit character converts to its value, between 0 and 9 |
| Calc.ApplyOperator | Calc.go:37-53 | the operation fails exactly for a character other than `+ - * /` or a division by 0; the error is `DivisionByZero` for `/` and `InvalidExpression` otherwise |
| Calc.ApplyOperatorInverse | Calc.go:37-49 | what each operator computes: the left operand is recovered from the result and the right operand (the result of `*` by 0 is 0) |
| Calc.ReduceSpec | Calc.go:55-70 | `calculate` does nothing with no operator or fewer than two operands; otherwise it fails exactly when applying the top operator to the two top operands fails (division by zero exactly when the operator is `/` and the top operand is 0), and else pops the operator and replaces the two operands by the result, keeping the rest of both stacks |
| Calc.Calculate | Calc.go:55-70 | the closure's new stacks and error are those of `Reduce` on the old stacks |
| Calc.ReduceCounts | Calc.go:55-70 | popping an operator with two operands removes one operand and one pending operator and keeps the `(` count |
| Calc.ReduceProgress | Calc.go:97-101 | a `calculate` that a reduction loop's guard calls for pops an operator and keeps the stacks reducible, so each loop ends |
| Calc.ReduceWhileSpec | Calc.go:84-88 | a reduction loop stops at once when its guard fails; when it ends without error, its guard fails, it has only popped operators (never a `(`), it has removed one operand per operator, and the stacks stay reducible; its only possible error is a division by zero |
| Calc.DrainProgress | Calc.go:140-147 | a drain step that pops an operator keeps the stacks drainable, so the drain ends |
| Calc.DrainSpec | Calc.go:140-147 | a drain that succeeds empties the operator stack and leaves one operand per operand beyond the pending operators; any `(` on the stack makes it fail; it fails only with `MismatchedBrackets` or `DivisionByZero` |
| Calc.PopOpenInv | Calc.go:92 | removing the `(` on top after a `)` keeps the scan invariant |
| Calc.CloseInv | Calc.go:80-92 | a `)` that passes its checks keeps the scan invariant |
| Calc.PushOpInv | Calc.go:102-103 | pushing a binary operator keeps the scan invariant |
| Calc.PushInv | Calc.go:93-118 | a binary operator, after its reduction loop, is pushed and keeps the scan invariant |
| Calc.StepInv | Calc.go:76-134 | each successful character of the scan keeps the scan invariant |
| Calc.RunFrom | Calc.go:76-134 | a scan of part of the text that succeeds ends in a state that meets the scan invariant |
| Calc.Run | Calc.go:76-134 | a scan of a prefix that succeeds ends in a state that meets the scan invariant |
| Calc.StripSpaces | Calc.go:20 | the result holds exactly the characters of the input other than spaces and is no longer than the input |
| Calc.RunErrorPersists | Calc.go:76-134 | once the scan has returned an error, later characters do not change the outcome |
| Calc.ScanCharacter | Calc.go:77-133 | the `switch` on one character, with its reduction loops, gives the new stacks, flag and error of `Step` |
| Calc.Calc | Calc.go:19-154 | the routine returns what `Evaluate` gives for its input |
| CalcProperties.RunSplit | Calc.go:76-134 | scanning positions `a..c` is scanning `a..b` and then `b..c` |
| CalcProperties.RunNext | Calc.go:76-134 | the scan of `k + 1` characters is one step after the scan of `k` |
| CalcProperties.FirstFailure | Calc.go:76-134 | a failed scan failed at one position `j`, after the first `j` characters scanned |
| CalcProperties.StepErrors | Calc.go:80-132 | a step gives `MultiDigitNumber` exactly at a digit after a digit; `UnexpectedOperator` exactly at a binary operator after an operator, after `(` or first, or at a trailing binary `-`; `InvalidExpression` exactly at an unknown character or a `)` after `(` or an operator; `MismatchedBrackets` exactly at a `)` with no `(` on the stack and no division by zero in its reduction loop; and never `EmptyExpression` or `OperatorAtEnd` |
| CalcProperties.ScanErrorKind | Calc.go:76-134 | a scan error is never `EmptyExpression` or `OperatorAtEnd` |
| CalcProperties.FailsAtIsFinal | Calc.go:76-134 | a scan that fails at one position fails as a whole, with the same error |
| CalcProperties.DrainAfterScan | Calc.go:140-147 | after a scan that ends in an operand, the drain can run; if it succeeds, it leaves the operand surplus; an open `(` makes it fail; it fails only with `MismatchedBrackets` or `DivisionByZero` |
| CalcProperties.AfterScanErrors | Calc.go:136-151 | after a successful scan, the only errors are `OperatorAtEnd`, `MismatchedBrackets`, `DivisionByZero` and `InvalidExpression` |
| CalcProperties.ScanError | Calc.go:76-134 | the evaluation gives a scan-only error exactly when the scan fails at some position with it |
| CalcProperties.MultiDigitNumberIff | Calc.go:120-123 | `MultiDigitNumber` exactly when the scan reaches two adjacent digits |
| CalcProperties.UnexpectedOperatorIff | Calc.go:93-110 | `UnexpectedOperator` exactly when the scan reaches a binary operator with no left operand, or a trailing binary `-` |
| CalcProperties.TrailingBinaryMinus | Calc.go:108-110 | a binary `-` as the last character gives `UnexpectedOperator`, not `OperatorAtEnd` |
| CalcProperties.OperatorAtEndIff | Calc.go:136-138 | `OperatorAtEnd` exactly when the scan succeeds on text that ends in an operator |
| CalcProperties.OperatorAtEndKinds | Calc.go:104-110 | a `-` that gives `OperatorAtEnd` is unary: it is the whole text or follows `(` |
| CalcProperties.EmptyExpressionIff | Calc.go:20-24 | `EmptyExpression` exactly when the input is made of spaces only |
| CalcProperties.CountSnoc | Calc.go:76 | extending the scanned prefix by one character adds it to the character and digit counts |
| CalcProperties.StepCounts | Calc.go:76-134 | a successful step changes the operand surplus by +1 at a digit and -1 at a binary operator, and the stacked `(` count by +1 at `(` and -1 at `)` |
| CalcProperties.OpenCounts | Calc.go:78-79 | the counts after a `(` |
| CalcProperties.CloseCounts | Calc.go:80-92 | the counts after a `)` |
| CalcProperties.PushCounts | Calc.go:93-118 | the counts after a binary operator |
| CalcProperties.DigitCounts | Calc.go:119-129 | the counts after a digit |
| CalcProperties.ScanCounts | Calc.go:76-134 | after a successful scan of a prefix, operands minus pending operators is digits minus binary operators, and the stacked `(` are the unclosed brackets; so a prefix that scans never closes more brackets than it opens |
| CalcProperties.FinalOperandCount | Calc.go:140-153 | when the scan and the drain succeed, the operands left are digits minus binary operators; the result is a value exactly when that is 1, and `InvalidExpression` otherwise |
| CalcProperties.InvalidExpressionIff | Calc.go:76-151 | `InvalidExpression` exactly when the scan reaches a malformed character, or the scan and drain succeed with a wrong operand count |
| CalcProperties.UnmatchedClose | Calc.go:84-91 | a `)` reached when every `(` so far is closed gives `MismatchedBrackets`, unless a division by zero comes first |
| CalcProperties.UnmatchedOpen | Calc.go:140-143 | a `(` left open at the end gives `MismatchedBrackets`, unless a division by zero comes first |
| CalcProperties.MismatchedBracketsSound | Calc.go:89-143 | `MismatchedBrackets` comes only from a `)` with nothing to close or a `(` left open |
| CalcProperties.DrainMismatch | Calc.go:140-143 | the drain reports a mismatched bracket only when some `(` is on the stack |
| CalcProperties.StripSpacesConcat | Calc.go:20 | removing spaces distributes over concatenation |
| CalcProperties.StripSpacesNoSpaces | Calc.go:20 | text without spaces is left unchanged |
| CalcProperties.SpaceInsensitive | Calc.go:20 | a space anywhere does not change the outcome, so `12 + 5` is as wrong as `12+5` |
| CalcProperties.StrippedEvaluatesAlike | Calc.go:20 | evaluating the text with its spaces removed gives the same outcome |
| Precedence.ReduceWhileMonotone | Calc.go:97-101 | a reduction loop with a lower bound is one with a higher bound followed by the lower one |
| Precedence.DrainByReduction | Calc.go:140-147 | the drain of reducible stacks is the `)` loop, which must then leave no operator |
| Precedence.ScanTree | Calc.go:76-134 | scanning the text of a well-formed tree pushes its value (or fails with its error) and leaves the stacks below it alone |
| Precedence.ScanLiteral | Calc.go:104-129 | scanning a digit, or a unary `-` and a digit, pushes its value |
| Precedence.ScanBinary | Calc.go:93-118 | scanning `l op r` pushes `Eval(l) op Eval(r)`, applying the operator after the operand on its right |
| Precedence.ScanGroup | Calc.go:78-92 | scanning `(inner)` pushes the value of `inner` |
| Precedence.ScanRight | Calc.go:93-118 | the right operand of a binary node is scanned and then combined |
| Precedence.ScanInner | Calc.go:78-92 | the inside of a bracket is scanned from the `(` just pushed |
| Precedence.PushLeft | Calc.go:93-103 | the operator after a left operand is pushed once its reduction loop has run |
| Precedence.AfterOperand | Calc.go:76-134 | right after an operand, every pending operator has its operand |
| Precedence.ReduceOperands | Calc.go:55-70 | the next reduction loop applies a pending operator to the two operands it sits on |
| Precedence.PushAfterOperand | Calc.go:93-103 | pushing an operator after an operand |
| Precedence.CloseAfterOperand | Calc.go:80-92 | closing a bracket after an operand |
| Precedence.SettlePushed | Calc.go:84-88 | a reduction loop right after a pushed value stops at once |
| Precedence.SettleRight | Calc.go:97-101 | the reduction after a right operand combines it with the left one |
| Precedence.PendingPush | Calc.go:102 | pushing an operator adds one pending operator |
| Precedence.DrainSettled | Calc.go:140-147 | a scan that settles to a single value drains to it |
| Precedence.EvaluateSettled | Calc.go:136-153 | text without spaces or a trailing operator whose scan settles to a value evaluates to it |
| Precedence.ScanWhole | Calc.go:76-134 | the whole text of a well-formed tree scans to its value and does not end in an operator |
| Precedence.Correctness | Calc.go:19-154 | the routine gives every well-formed expression's text the value of the expression under the usual precedence and left associativity, or its first division by zero |
| Examples.TrailingOperator | Calc.go:158 | `1+1*` gives `OperatorAtEnd` |
| Examples.BracketsFirst | Calc.go:159 | `(2+2)*2` is 8 |
| Examples.ProductFirst | Calc.go:160 | `2+2*2` is 6 |
| Examples.Half | Calc.go:161 | `1/2` is 0.5 |
| Examples.Mixed | Calc.go:162 | `-1*5+7-(-9/8)` is 3.125 |
| Examples.EmptyOperand | Calc.go:163 | `3 + 5 * (2 -)` gives `InvalidExpression` |
| Examples.CloseWithoutOpen | Calc.go:164 | `)+` gives `MismatchedBrackets` |
| Examples.TwoDigits | Calc.go:165 | `22+22` gives `MultiDigitNumber` |
| Examples.TwoDigitsWithSpaces | Calc.go:166 | `12 + 5` gives `MultiDigitNumber` |
| Examples.Blank | Calc.go:20-24 | empty and all-space input gives `EmptyExpression` |
| Examples.ByZero | Calc.go:45-48 | `3/0` gives `DivisionByZero` |
| Examples.NegatedGroup | Calc.go:105-106 | the flag survives `(`, so `-(1+2)` is 1 |
| Examples.DoubleNegation | Calc.go:105-106 | the flag is set, not toggled, so `-(-1)` is -1 |
| Examples.Juxtaposition | Calc.go:149-151 | `1(2)` passes the scan and gives `InvalidExpression` for its two operands |
| Examples.OpenDivisionByZero | Calc.go:140-147 | `(1/0` gives `DivisionByZero`, not `MismatchedBrackets` |
| Examples.TrailingUnaryMinus | Calc.go:105-106 | `-` and `(-` give `OperatorAtEnd` |

## Left out

- `main` (Calc.go:156-177) prints results with `fmt.Printf`. This is I/O. Its sample expressions appear as the lemmas of `Examples`.
- `float64` arithmetic is modelled with exact `real` values. Rounding, infinities and NaN are not modelled. Intermediate results on the operand stack can overflow or underflow in Go, and the model does not follow them there: a product of 324 nines is +Inf in Go, subtracting it from itself gives NaN, and near 340 nines `1/9/…/9` underflows to 0, so `1/(1/9/…/9)` gives `DivisionByZero` at Calc.go:46-47 while `Evaluate` gives 9^340.
- The error message texts (Calc.go:10-16) are left out. Errors are a datatype of seven kinds.
- Go ranges over runes but indexes the look-back character as a byte. The model indexes one sequence of characters for both. The two differ only after a non-ASCII character, which fails at once (Calc.go:131).
- `Calc.Calculate`: on an error, Go has already popped both stacks. The model returns those popped stacks too, but its contract states only the error, because `Calc` returns at once.
- `Precedence.Correctness`: states only one direction. Not every text that the evaluator accepts is shown to be the text of a well-formed tree; `-(-1)` and `-(1+2)` are not, yet are accepted (`Examples.DoubleNegation`, `Examples.NegatedGroup`).
- `Precedence.Correctness`: `Eval` applies operators through `ApplyOperator`. The meaning of each operator is stated separately by `Calc.ApplyOperatorInverse`.
- `Calc.ReduceWhile`, `Calc.Drain` and `Calc.Step` require the scan invariant. In the source, a reduction loop would not end if `calculate` returned without popping. The invariant rules that out on every reachable state (`Calc.StepInv`).
