/**
 * The evaluator computes the value of an expression under the usual precedence
 * ('*' and '/' bind tighter than '+' and '-') and left associativity.
 *
 * Expressions are trees; `Print` writes a tree the way the evaluator's grammar
 * reads it, with brackets only where a `Group` node stands, and `Eval` is the
 * arithmetic meaning of the tree.  `WellFormed` says that the printed text means
 * that tree: an operand of an operator is either bracketed or binds at least as
 * tightly (strictly, on the right), and a negated digit stands only where the
 * evaluator reads a '-' as unary, at the start or right after '('.
 */
module Precedence {
  import opened Calc
  import opened CalcProperties

  type Digit = d: int | 0 <= d <= 9

  datatype Expr =
    | Literal(digit: Digit, negated: bool)
    | Binary(op: char, left: Expr, right: Expr)
    | Group(inner: Expr)

  function DigitChar(d: Digit): (c: char)
    ensures IsDigit(c) && DigitValue(c) == d as real
  {
    ('0' as int + d) as char
  }

  /** The text of an expression, with no spaces and brackets only at `Group`. */
  function Print(t: Expr): string {
    match t
    case Literal(d, negated) => if negated then ['-', DigitChar(d)] else [DigitChar(d)]
    case Binary(op, l, r) => Print(l) + [op] + Print(r)
    case Group(inner) => ['('] + Print(inner) + [')']
  }

  /**
   * The arithmetic meaning of an expression: each operator node applies its
   * operator (`ApplyOperator`) to the values of its operands, left to right; the
   * first division by zero met is the error.
   */
  function Eval(t: Expr): Result<real> {
    match t
    case Literal(d, negated) => Ok(if negated then -(d as real) else d as real)
    case Binary(op, l, r) =>
      (match Eval(l)
       case Err(x) => Err(x)
       case Ok(a) =>
         match Eval(r)
         case Err(x) => Err(x)
         case Ok(b) => ApplyOperator(a, b, op))
    case Group(inner) => Eval(inner)
  }

  /** How tightly the top of an expression binds: its operator's priority, or 3 for an atom. */
  function Rank(t: Expr): int {
    if t.Binary? then Priority(t.op) else 3
  }

  /**
   * The printed text reads back as this tree.  `first` says the text starts the
   * whole expression or follows '(' (where a '-' is unary).
   */
  predicate WellFormed(t: Expr, first: bool) {
    match t
    case Literal(_, negated) => negated ==> first
    case Binary(op, l, r) =>
      && IsOperator(op)
      && WellFormed(l, first) && WellFormed(r, false)
      && Rank(l) >= Priority(op) && Rank(r) > Priority(op)
    case Group(inner) => WellFormed(inner, true)
  }

  /** The text of a well-formed expression holds no space. */
  lemma {:induction false} PrintNoSpaces(t: Expr, first: bool)
    requires WellFormed(t, first)
    ensures ' ' !in Print(t)
  {
    match t
    case Literal(_, _) =>
    case Binary(_, l, r) => PrintNoSpaces(l, first); PrintNoSpaces(r, false);
    case Group(inner) => PrintNoSpaces(inner, true);
  }

  /** The scan result followed by one more reduction loop, as the next character would run it. */
  function Settle(r: Result<Machine>, bound: int): Result<Stacks> {
    match r
    case Err(x) => Err(x)
    case Ok(m) => if Reducible(m.stacks) then ReduceWhile(m.stacks, bound) else Err(InvalidExpression)
  }

  /**
   * The same loop after a result that is already a pair of stacks. `Settle` takes
   * the scan's `Machine` (stacks and flag) and `ThenReduce` the result of an
   * earlier loop; keeping both avoids wrapping one result type into the other in
   * every lemma that chains loops.
   */
  function ThenReduce(r: Result<Stacks>, bound: int): Result<Stacks> {
    match r
    case Err(x) => Err(x)
    case Ok(st) => if Reducible(st) then ReduceWhile(st, bound) else Err(InvalidExpression)
  }

  /** The stacks `st` with the value of an expression pushed, or its error. */
  function Pushed(st: Stacks, v: Result<real>): Result<Stacks> {
    match v
    case Err(x) => Err(x)
    case Ok(x) => Ok(Stacks(st.num + [x], st.ops))
  }

  /** A loop with a lower bound reduces at least as far as one with a higher bound, and then goes on. */
  lemma {:induction false} ReduceWhileMonotone(st: Stacks, low: int, high: int)
    requires Reducible(st) && low <= high
    ensures ReduceWhile(st, low) == ThenReduce(ReduceWhile(st, high), low)
    decreases |st.ops|
  {
    if MustReduce(st.ops, high) {
      match Reduce(st)
      case Err(x) =>
      case Ok(st') =>
        ReduceProgress(st, high);
        ReduceWhileMonotone(st', low, high);
    }
  }

  /** The final drain is a reduction loop over every operator that must then empty the stack. */
  lemma {:induction false} DrainByReduction(st: Stacks)
    requires Reducible(st)
    ensures Drain(st) == match ReduceWhile(st, 0)
                         case Err(x) => Err(x)
                         case Ok(st') => if st'.ops == [] then Ok(st') else Err(MismatchedBrackets)
    decreases |st.ops|
  {
    if MustReduce(st.ops, 0) {
      match Reduce(st)
      case Err(x) =>
      case Ok(st') =>
        ReduceProgress(st, 0);
        DrainByReduction(st');
    }
  }

  /** The number of characters in the text of an expression. */
  function Length(t: Expr): (n: nat)
    ensures n >= 1
  {
    match t
    case Literal(_, negated) => if negated then 2 else 1
    case Binary(_, l, r) => Length(l) + 1 + Length(r)
    case Group(inner) => Length(inner) + 2
  }

  /** The text of `t` stands in `e` from position `a` on, node by node. */
  predicate Spells(e: string, a: nat, t: Expr)
    decreases t
  {
    && a + Length(t) <= |e|
    && match t
       case Literal(d, negated) =>
         if negated then e[a] == '-' && e[a + 1] == DigitChar(d) else e[a] == DigitChar(d)
       case Binary(op, l, r) =>
         Spells(e, a, l) && e[a + Length(l)] == op && Spells(e, a + Length(l) + 1, r)
       case Group(inner) =>
         e[a] == '(' && Spells(e, a + 1, inner) && e[a + 1 + Length(inner)] == ')'
  }

  /** Text appended after the text of `t` does not disturb it. */
  lemma {:induction false} SpellsAppend(x: string, y: string, a: nat, t: Expr)
    requires Spells(x, a, t)
    ensures Spells(x + y, a, t)
    decreases t
  {
    match t
    case Literal(_, _) =>
    case Binary(_, l, r) => SpellsAppend(x, y, a, l); SpellsAppend(x, y, a + Length(l) + 1, r);
    case Group(inner) => SpellsAppend(x, y, a + 1, inner);
  }

  /** Text put before the text of `t` moves it along by its length. */
  lemma {:induction false} SpellsPrepend(x: string, y: string, a: nat, t: Expr)
    requires Spells(y, a, t)
    ensures Spells(x + y, |x| + a, t)
    decreases t
  {
    match t
    case Literal(_, _) =>
    case Binary(_, l, r) => SpellsPrepend(x, y, a, l); SpellsPrepend(x, y, a + Length(l) + 1, r);
    case Group(inner) => SpellsPrepend(x, y, a + 1, inner);
  }

  /** Two spelt operands with an operator between them spell the binary node. */
  lemma {:induction false} SpellsJoin(pl: string, op: char, pr: string, l: Expr, r: Expr)
    requires Spells(pl, 0, l) && |pl| == Length(l) && Spells(pr, 0, r) && |pr| == Length(r)
    ensures var w := pl + [op] + pr;
      Spells(w, 0, l) && w[Length(l)] == op && Spells(w, Length(l) + 1, r)
  {
    var x := pl + [op];
    assert |x| == Length(l) + 1 && x[Length(l)] == op;
    SpellsAppend(pl, [op], 0, l);
    SpellsAppend(x, pr, 0, l);
    SpellsPrepend(x, pr, 0, r);
    assert (x + pr)[Length(l)] == op;
  }

  /** A spelt expression in brackets spells the group. */
  lemma {:induction false} SpellsWrap(p: string, inner: Expr)
    requires Spells(p, 0, inner) && |p| == Length(inner)
    ensures Spells(['('] + p + [')'], 0, Group(inner))
  {
    SpellsPrepend(['('], p, 0, inner);
    SpellsAppend(['('] + p, [')'], 1, inner);
  }

  /** The text of `t` spells `t`. */
  lemma {:induction false} SpellsPrint(t: Expr)
    ensures |Print(t)| == Length(t) && Spells(Print(t), 0, t)
    decreases t
  {
    match t
    case Literal(_, _) =>
    case Binary(op, l, r) =>
      SpellsPrint(l);
      SpellsPrint(r);
      SpellsJoin(Print(l), op, Print(r), l, r);
    case Group(inner) =>
      SpellsPrint(inner);
      SpellsWrap(Print(inner), inner);
  }

  /** The text of an expression ends with a digit or ')'. */
  lemma {:induction false} SpellsLast(e: string, a: nat, t: Expr)
    requires Spells(e, a, t)
    ensures IsDigit(e[a + Length(t) - 1]) || e[a + Length(t) - 1] == ')'
    decreases t
  {
    match t
    case Literal(_, _) =>
    case Binary(_, l, r) => SpellsLast(e, a + Length(l) + 1, r);
    case Group(_) =>
  }

  /** The conditions under which the text of `t` is scanned at position `a` of `e` from machine `m`. */
  predicate ScanContext(e: string, a: nat, t: Expr, first: bool, m: Machine, bound: int) {
    && WellFormed(t, first) && Spells(e, a, t)
    && Inv(e, a, m) && !m.negative
    && (if first then a == 0 || e[a - 1] == '(' else a > 0 && IsOperator(e[a - 1]))
    && !MustReduce(m.stacks.ops, bound) && bound <= Rank(t)
  }

  /** What scanning the text of `t` achieves: the value of `t` pushed, or the error of `Eval(t)`. */
  predicate Scanned(e: string, a: nat, t: Expr, m: Machine, bound: int)
    requires a + Length(t) <= |e| && Inv(e, a, m)
  {
    var r := RunFrom(e, a, a + Length(t), m);
    && (r.Ok? ==> !r.value.negative)
    && Settle(r, bound) == Pushed(m.stacks, Eval(t))
  }

  /**
   * Scanning the text of a well-formed tree `t` at position `a` of `e` leaves the
   * stacks below it alone: after the next reduction loop with a bound the tree
   * outranks, the stacks are those of `m` with the value of `t` pushed, or the
   * scan has failed with the error of `Eval(t)`.
   */
  lemma {:induction false} ScanTree(e: string, a: nat, t: Expr, first: bool, m: Machine, bound: int)
    requires ScanContext(e, a, t, first, m, bound)
    ensures Scanned(e, a, t, m, bound)
    decreases t, 2
  {
    match t
    case Literal(_, _) => ScanLiteral(e, a, t, first, m, bound);
    case Binary(_, _, _) => ScanBinary(e, a, t, first, m, bound);
    case Group(_) => ScanGroup(e, a, t, first, m, bound);
  }

  lemma {:induction false} ScanLiteral(e: string, a: nat, t: Expr, first: bool, m: Machine, bound: int)
    requires t.Literal? && ScanContext(e, a, t, first, m, bound)
    ensures Scanned(e, a, t, m, bound)
  {
    var st := m.stacks;
    var d := t.digit;
    var v := if t.negated then -(d as real) else d as real;
    var n := Length(t);
    var st' := Stacks(st.num + [v], st.ops);
    var m1 := Machine(st, t.negated);
    assert RunFrom(e, a, a + n - 1, m) == Ok(m1) by {
      if t.negated {
        assert Step(e, a, m) == Ok(m1);
      }
    }
    assert Step(e, a + n - 1, m1) == Ok(Machine(st', false));
    assert RunFrom(e, a, a + n, m) == Ok(Machine(st', false));
    assert Reducible(st');
    assert ReduceWhile(st', bound) == Ok(st');
  }

  /** Pushing a binary operator on the operator stack adds one pending operator. */
  lemma {:induction false} PendingPush(ops: seq<char>, op: char)
    requires IsOperator(op)
    ensures Pending(ops + [op]) == Pending(ops) + 1
  {
    CountPush(ops, op, '(');
  }

  /** Right after an operand, the operand count covers every pending operator, the next one included. */
  lemma {:induction false} AfterOperand(e: string, k: nat, r: Result<Machine>)
    requires k <= |e| && ClosesOperand(e, k) && (r.Ok? ==> Inv(e, k, r.value))
    ensures r.Ok? ==> Reducible(r.value.stacks) && Pending(r.value.stacks.ops) < |r.value.stacks.num|
  {
  }

  /**
   * Two operand values `a`, `b` above the stacks `st`, with the operator `op` that
   * outranks everything `st` holds above the bound: the next loop applies `op` and stops.
   */
  lemma {:induction false} ReduceOperands(st: Stacks, a: real, b: real, op: char, bound: int)
    requires IsOperator(op) && Pending(st.ops) <= |st.num|
    requires !MustReduce(st.ops, bound) && bound <= Priority(op)
    ensures var pair := Stacks(st.num + [a, b], st.ops + [op]);
      && Reducible(pair)
      && ReduceWhile(pair, bound) == match ApplyOperator(a, b, op)
                                     case Err(x) => Err(x)
                                     case Ok(v) => Ok(Stacks(st.num + [v], st.ops))
  {
    var pair := Stacks(st.num + [a, b], st.ops + [op]);
    PendingPush(st.ops, op);
    assert MustReduce(pair.ops, bound);
    assert pair.num[..|pair.num| - 2] == st.num;
    assert pair.ops[..|pair.ops| - 1] == st.ops;
    assert pair.num[|pair.num| - 2] == a && pair.num[|pair.num| - 1] == b;
  }

  /**
   * The stacks `st` with the value `v` pushed and the flag clear, or the error of `v`:
   * `Pushed` as a scan result, which also carries the unary-minus flag.
   */
  function PushedMachine(st: Stacks, v: Result<real>): Result<Machine> {
    match v
    case Err(x) => Err(x)
    case Ok(x) => Ok(Machine(Stacks(st.num + [x], st.ops), false))
  }

  /**
   * A binary operator right after an operand (and not last): once the loop it
   * runs has settled the left operand's value `vl` above the stacks `st`, the
   * operator is pushed on top of them.
   */
  lemma {:induction false} PushAfterOperand(e: string, k: nat, r1: Result<Machine>, st: Stacks, vl: Result<real>)
    requires k + 1 < |e| && IsOperator(e[k]) && ClosesOperand(e, k)
    requires r1.Ok? ==> Inv(e, k, r1.value)
    requires Settle(r1, Priority(e[k])) == Pushed(st, vl)
    ensures Continue(e, k, k + 1, r1) == PushedMachine(Stacks(st.num, st.ops + [e[k]]), vl)
  {
    if r1.Ok? {
      AfterOperand(e, k, r1);
      assert RunFrom(e, k, k + 1, r1.value) == Step(e, k, r1.value);
    }
  }

  /**
   * A ')' right after an operand: once its loop has settled the value `v` above
   * the matching '(' on the stacks `st`, it pops the '('.
   */
  lemma {:induction false} CloseAfterOperand(e: string, k: nat, r1: Result<Machine>, st: Stacks, v: Result<real>)
    requires k < |e| && e[k] == ')' && ClosesOperand(e, k)
    requires r1.Ok? ==> Inv(e, k, r1.value) && !r1.value.negative
    requires Settle(r1, 0) == Pushed(Stacks(st.num, st.ops + ['(']), v)
    ensures Continue(e, k, k + 1, r1) == PushedMachine(st, v)
  {
    if r1.Ok? {
      AfterOperand(e, k, r1);
      assert RunFrom(e, k, k + 1, r1.value) == Step(e, k, r1.value);
      assert (st.ops + ['('])[..|st.ops|] == st.ops;
    }
  }

  /** A value pushed above stacks that the bound does not reduce stays as it is. */
  lemma {:induction false} SettlePushed(r: Result<Machine>, st: Stacks, v: Result<real>, bound: int)
    requires r == PushedMachine(st, v) && !MustReduce(st.ops, bound)
    requires r.Ok? ==> Reducible(r.value.stacks)
    ensures Settle(r, bound) == Pushed(st, v)
  {
  }

  /** A binary node's value from its left operand's value and its right operand's outcome. */
  function Combine(vl: real, vr: Result<real>, op: char): Result<real> {
    match vr
    case Err(x) => Err(x)
    case Ok(b) => ApplyOperator(vl, b, op)
  }

  /**
   * The right operand's outcome `vr`, settled above the left operand's value `vl`
   * and the operator `op`, is combined with them by the next loop with a lower bound.
   */
  lemma {:induction false} SettleRight(r2: Result<Machine>, st: Stacks, vl: real, vr: Result<real>, op: char, bound: int)
    requires IsOperator(op)
    requires Pending(st.ops) <= |st.num| && !MustReduce(st.ops, bound) && bound <= Priority(op)
    requires r2.Ok? ==> Reducible(r2.value.stacks)
    requires Settle(r2, Priority(op) + 1) == Pushed(Stacks(st.num + [vl], st.ops + [op]), vr)
    ensures Settle(r2, bound) == Pushed(st, Combine(vl, vr, op))
  {
    if r2.Ok? {
      var y := r2.value.stacks;
      var top := Stacks(st.num + [vl], st.ops + [op]);
      assert Settle(r2, bound) == ThenReduce(Pushed(top, vr), bound) by {
        ReduceWhileMonotone(y, bound, Priority(op) + 1);
      }
      if vr.Ok? {
        assert ThenReduce(Pushed(top, vr), bound) == Pushed(st, Combine(vl, vr, op)) by {
          ReduceOperands(st, vl, vr.value, op, bound);
          assert st.num + [vl] + [vr.value] == st.num + [vl, vr.value];
        }
      }
    }
  }

  lemma {:induction false} ScanBinary(e: string, a: nat, t: Expr, first: bool, m: Machine, bound: int)
    requires t.Binary? && ScanContext(e, a, t, first, m, bound)
    ensures Scanned(e, a, t, m, bound)
    decreases t, 1
  {
    var st := m.stacks;
    var op, l, r := t.op, t.left, t.right;
    var a2 := a + Length(l) + 1;
    var end := a2 + Length(r);
    var a1 := a + Length(l);
    assert Settle(RunFrom(e, a, a1, m), Priority(op)) == Pushed(st, Eval(l)) by {
      ScanTree(e, a, l, first, m, Priority(op));
    }
    assert ClosesOperand(e, a1) by {
      SpellsLast(e, a, l);
    }
    var r1 := RunFrom(e, a, a2, m);
    assert r1 == PushedMachine(Stacks(st.num, st.ops + [op]), Eval(l)) by {
      PushLeft(e, a, a1, m, op, Eval(l));
    }
    if Eval(l).Ok? {
      var vl := Eval(l).value;
      var m1 := Machine(Stacks(st.num + [vl], st.ops + [op]), false);
      assert Inv(e, a2, m1);
      assert RunFrom(e, a, end, m) == RunFrom(e, a2, end, m1) by {
        RunSplit(e, a, a2, end, m);
      }
      assert Settle(RunFrom(e, a2, end, m1), bound) == Pushed(st, Combine(vl, Eval(r), op))
             && (RunFrom(e, a2, end, m1).Ok? ==> !RunFrom(e, a2, end, m1).value.negative) by {
        ScanRight(e, a2, r, op, st, vl, m1, bound);
      }
      assert Eval(t) == Combine(vl, Eval(r), op);
    } else {
      assert RunFrom(e, a, end, m) == Err(Eval(l).error) by {
        RunSplit(e, a, a2, end, m);
      }
      assert Eval(t) == Err(Eval(l).error);
    }
  }

  /**
   * A binary operator `op` at `a1`, after text from `a` that settles to the value `vl`
   * above the stacks of `m`: the scan through `op` leaves `op` above that value.
   */
  lemma {:induction false} PushLeft(e: string, a: nat, a1: nat, m: Machine, op: char, vl: Result<real>)
    requires a <= a1 && a1 + 1 < |e| && Inv(e, a, m)
    requires e[a1] == op && IsOperator(op) && ClosesOperand(e, a1)
    requires Settle(RunFrom(e, a, a1, m), Priority(op)) == Pushed(m.stacks, vl)
    ensures RunFrom(e, a, a1 + 1, m) == PushedMachine(Stacks(m.stacks.num, m.stacks.ops + [op]), vl)
  {
    var r1 := RunFrom(e, a, a1, m);
    assert RunFrom(e, a, a1 + 1, m) == Continue(e, a1, a1 + 1, r1) by {
      RunSplit(e, a, a1, a1 + 1, m);
    }
    PushAfterOperand(e, a1, r1, m.stacks, vl);
  }

  /**
   * The right operand `r` of the operator `op`, scanned above the left value `vl`
   * and `op`: the next loop with a bound `op` passes combines the two values.
   */
  lemma {:induction false} ScanRight(e: string, a2: nat, r: Expr, op: char, st: Stacks, vl: real, m1: Machine, bound: int)
    requires IsOperator(op) && WellFormed(r, false) && Spells(e, a2, r) && Priority(op) < Rank(r)
    requires a2 > 0 && e[a2 - 1] == op
    requires m1 == Machine(Stacks(st.num + [vl], st.ops + [op]), false) && Inv(e, a2, m1)
    requires Pending(st.ops) <= |st.num| && !MustReduce(st.ops, bound) && bound <= Priority(op)
    ensures var r2 := RunFrom(e, a2, a2 + Length(r), m1);
      && (r2.Ok? ==> !r2.value.negative)
      && Settle(r2, bound) == Pushed(st, Combine(vl, Eval(r), op))
    decreases r, 3
  {
    var end := a2 + Length(r);
    var r2 := RunFrom(e, a2, end, m1);
    ScanTree(e, a2, r, false, m1, Priority(op) + 1);
    SpellsLast(e, a2, r);
    AfterOperand(e, end, r2);
    SettleRight(r2, st, vl, Eval(r), op, bound);
  }

  lemma {:induction false} ScanGroup(e: string, a: nat, t: Expr, first: bool, m: Machine, bound: int)
    requires t.Group? && ScanContext(e, a, t, first, m, bound)
    ensures Scanned(e, a, t, m, bound)
    decreases t, 1
  {
    var st := m.stacks;
    var inner := t.inner;
    var end := a + Length(t);
    var m0 := Machine(Stacks(st.num, st.ops + ['(']), false);
    assert RunFrom(e, a, a + 1, m) == Ok(m0) by {
      assert Step(e, a, m) == Ok(m0);
    }
    var r := RunFrom(e, a, end, m);
    assert r == RunFrom(e, a + 1, end, m0) by {
      RunSplit(e, a, a + 1, end, m);
    }
    ScanInner(e, a + 1, inner, st, m0);
    AfterOperand(e, end, r);
    SettlePushed(r, st, Eval(inner), bound);
  }

  /** The inside of a group and its ')', scanned after the '(': the value lands where the '(' was. */
  lemma {:induction false} ScanInner(e: string, a1: nat, inner: Expr, st: Stacks, m0: Machine)
    requires WellFormed(inner, true) && Spells(e, a1, inner)
    requires a1 + Length(inner) < |e| && e[a1 + Length(inner)] == ')'
    requires a1 > 0 && e[a1 - 1] == '('
    requires m0 == Machine(Stacks(st.num, st.ops + ['(']), false) && Inv(e, a1, m0)
    ensures RunFrom(e, a1, a1 + Length(inner) + 1, m0) == PushedMachine(st, Eval(inner))
    decreases inner, 3
  {
    var endIn := a1 + Length(inner);
    var r1 := RunFrom(e, a1, endIn, m0);
    ScanTree(e, a1, inner, true, m0, 0);
    SpellsLast(e, a1, inner);
    RunSplit(e, a1, endIn, endIn + 1, m0);
    CloseAfterOperand(e, endIn, r1, st, Eval(inner));
  }

  /** The final drain after a scan that settled to the value `v` alone, or to its error. */
  lemma {:induction false} DrainSettled(r: Result<Machine>, v: Result<real>)
    requires r.Ok? ==> Reducible(r.value.stacks)
    requires Settle(r, 0) == Pushed(Stacks([], []), v)
    ensures r.Err? ==> v == Err(r.error)
    ensures r.Ok? ==> Drain(r.value.stacks) == Pushed(Stacks([], []), v)
  {
    if r.Ok? {
      DrainByReduction(r.value.stacks);
    }
  }

  /** An expression without spaces or a trailing operator whose scan settles to `v` evaluates to `v`. */
  lemma {:induction false} EvaluateSettled(e: string, v: Result<real>)
    requires StripSpaces(e) == e && |e| > 0 && !IsOperator(e[|e| - 1])
    requires Run(e, |e|).Ok? ==> Reducible(Run(e, |e|).value.stacks)
    requires Settle(Run(e, |e|), 0) == Pushed(Stacks([], []), v)
    ensures Evaluate(e) == v
  {
    DrainSettled(Run(e, |e|), v);
  }

  /** The whole text of a well-formed tree, scanned from the start, settles to its value. */
  lemma {:induction false} ScanWhole(e: string, t: Expr)
    requires WellFormed(t, true) && Spells(e, 0, t) && |e| == Length(t)
    ensures !IsOperator(e[|e| - 1])
    ensures Run(e, |e|).Ok? ==> Reducible(Run(e, |e|).value.stacks)
    ensures Settle(Run(e, |e|), 0) == Pushed(Stacks([], []), Eval(t))
  {
    SpellsLast(e, 0, t);
    ScanTree(e, 0, t, true, Init, 0);
    AfterOperand(e, |e|, Run(e, |e|));
  }

  /**
   * The evaluator computes the arithmetic value of every well-formed expression,
   * or reports the division by zero it contains.
   */
  lemma {:induction false} Correctness(t: Expr)
    requires WellFormed(t, true)
    ensures Evaluate(Print(t)) == Eval(t)
  {
    var e := Print(t);
    PrintNoSpaces(t, true);
    StripSpacesNoSpaces(e);
    SpellsPrint(t);
    ScanWhole(e, t);
    EvaluateSettled(e, Eval(t));
  }
}
