/** Arithmetic expressions as trees: their meaning, and their token form with the parentheses the grammar
    needs.
 */
module ExprTrees {
  import opened ExprMachine

  datatype UnOp = Not | Bnot | Neg | Pos

  datatype Expr =
    | Lit(value: int)
    | Var(name: string)
    | PreInc(name: string) | PreDec(name: string)
    | PostInc(name: string) | PostDec(name: string)
    | Un(uop: UnOp, e: Expr)
    | Pow(a: Expr, b: Expr)
    | Bin(op: BinOp, a: Expr, b: Expr)
    | And(a: Expr, b: Expr)
    | Or(a: Expr, b: Expr)
    | Cond(c: Expr, a: Expr, b: Expr)
    | Assign(name: string, e: Expr)
    | OpAssign(name: string, op: BinOp, e: Expr)
    | Comma(a: Expr, b: Expr)
    | Paren(e: Expr)      // parentheses that are written whether needed or not

  // ---------------------------------------------------------------- meaning

  function Set(vars: Store, x: string, v: int, live: bool): Store {
    if live then vars[x := v] else vars
  }

  function UnaryValue(ar: Arith, op: UnOp, v: int): int {
    match op
    case Not => Truth(v == 0)
    case Bnot => ar.bnot(v)
    case Neg => ar.neg(v)
    case Pos => v
  }

  /** Value and variables after evaluation, left to right; nothing is assigned unless `live`. The operand
      that `&&`, `||` or `?:` does not take is evaluated with `live` off: it assigns nothing, but its
      errors are still errors. */
  function Eval(ar: Arith, e: Expr, vars: Store, live: bool): Outcome {
    match e
    case Lit(v) => Done(v, vars)
    case Var(x) => Done(Lookup(vars, x), vars)
    case PreInc(x) => var v := ar.bin(Plus, Lookup(vars, x), 1); Done(v, Set(vars, x, v, live))
    case PreDec(x) => var v := ar.bin(Plus, Lookup(vars, x), -1); Done(v, Set(vars, x, v, live))
    case PostInc(x) => var v := Lookup(vars, x); Done(v, Set(vars, x, ar.bin(Plus, v, 1), live))
    case PostDec(x) => var v := Lookup(vars, x); Done(v, Set(vars, x, ar.bin(Plus, v, -1), live))
    case Un(op, e1) =>
      (match Eval(ar, e1, vars, live)
       case Failed(err) => Failed(err)
       case Done(v, vars1) => Done(UnaryValue(ar, op, v), vars1))
    case Pow(a, b) =>
      (match Eval(ar, a, vars, live)
       case Failed(err) => Failed(err)
       case Done(v1, vars1) =>
         match Eval(ar, b, vars1, live)
         case Failed(err) => Failed(err)
         case Done(v2, vars2) => Finish(Power(ar, v1, v2), vars2))
    case Bin(op, a, b) =>
      (match Eval(ar, a, vars, live)
       case Failed(err) => Failed(err)
       case Done(v1, vars1) =>
         match Eval(ar, b, vars1, live)
         case Failed(err) => Failed(err)
         case Done(v2, vars2) => Finish(Apply(ar, op, v1, v2), vars2))
    case And(a, b) =>
      (match Eval(ar, a, vars, live)
       case Failed(err) => Failed(err)
       case Done(v1, vars1) =>
         match Eval(ar, b, vars1, live && v1 != 0)
         case Failed(err) => Failed(err)
         case Done(v2, vars2) => Done(Truth(v1 != 0 && v2 != 0), vars2))
    case Or(a, b) =>
      (match Eval(ar, a, vars, live)
       case Failed(err) => Failed(err)
       case Done(v1, vars1) =>
         match Eval(ar, b, vars1, live && v1 == 0)
         case Failed(err) => Failed(err)
         case Done(v2, vars2) => Done(Truth(v1 != 0 || v2 != 0), vars2))
    case Cond(c, a, b) =>
      (match Eval(ar, c, vars, live)
       case Failed(err) => Failed(err)
       case Done(cv, vars1) =>
         match Eval(ar, a, vars1, live && cv != 0)
         case Failed(err) => Failed(err)
         case Done(v1, vars2) =>
           match Eval(ar, b, vars2, live && cv == 0)
           case Failed(err) => Failed(err)
           case Done(v2, vars3) => Done(if cv != 0 then v1 else v2, vars3))
    case Assign(x, e1) =>
      (match Eval(ar, e1, vars, live)
       case Failed(err) => Failed(err)
       case Done(v, vars1) => Done(v, Set(vars1, x, v, live)))
    case OpAssign(x, op, e1) =>
      (match Eval(ar, e1, vars, live)
       case Failed(err) => Failed(err)
       case Done(v, vars1) =>
         match ApplyAssign(ar, op, Lookup(vars, x), v)
         case Undefined(err) => Failed(err)
         case Defined(w) => Done(w, Set(vars1, x, w, live)))
    case Comma(a, b) =>
      (match Eval(ar, a, vars, live)
       case Failed(err) => Failed(err)
       case Done(_, vars1) => Eval(ar, b, vars1, live))
    case Paren(e1) => Eval(ar, e1, vars, live)
  }

  function Finish(v: Value, vars: Store): Outcome {
    match v
    case Undefined(err) => Failed(err)
    case Defined(w) => Done(w, vars)
  }

  // ---------------------------------------------------------------- token form

  /** The production a tree belongs to: how tightly it binds. */
  function Level(e: Expr): (k: nat)
    ensures k <= 15
  {
    match e
    case Comma(_, _) => 0
    case Assign(_, _) => 1
    case OpAssign(_, _, _) => 1
    case Cond(_, _, _) => 2
    case Or(_, _) => 3
    case And(_, _) => 4
    case Bin(op, _, _) => LevelOf(op)
    case Pow(_, _) => 13
    case Un(_, _) => 14
    case _ => 15
  }

  function UnaryToken(op: UnOp): Token {
    match op
    case Not => TNot
    case Bnot => TBnot
    case Neg => TBin(Minus)
    case Pos => TBin(Plus)
  }

  /** Parentheses go around a tree that binds more loosely than its place allows. */
  function Print(e: Expr, k: nat): seq<Token>
    decreases e, 1
  {
    if Level(e) < k then [TLpar] + Body(e) + [TRpar] else Body(e)
  }

  /** Left operands of left-associative operators may be of the operator's own level, right operands may
      not; assignment, `?:` and `**` are the other way round. */
  function Body(e: Expr): seq<Token>
    decreases e, 0
  {
    match e
    case Lit(v) => [TNum(v)]
    case Var(x) => [TStr(x)]
    case PreInc(x) => [TPreInc, TStr(x)]
    case PreDec(x) => [TPreDec, TStr(x)]
    case PostInc(x) => [TStr(x), TPostInc]
    case PostDec(x) => [TStr(x), TPostDec]
    case Un(op, e1) => [UnaryToken(op)] + Print(e1, 14)
    case Pow(a, b) => Print(a, 14) + ([TPower] + Print(b, 13))
    case Bin(op, a, b) => Print(a, LevelOf(op)) + ([TBin(op)] + Print(b, LevelOf(op) + 1))
    case And(a, b) => Print(a, 4) + ([TLand] + Print(b, 5))
    case Or(a, b) => Print(a, 3) + ([TLor] + Print(b, 4))
    case Cond(c, a, b) => Print(c, 3) + ([TQues] + (Print(a, 0) + ([TCol] + Print(b, 2))))
    case Assign(x, e1) => [TStr(x), TEq] + Print(e1, 1)
    case OpAssign(x, op, e1) => [TStr(x), TOpAssign(op)] + Print(e1, 1)
    case Comma(a, b) => Print(a, 0) + ([TComma] + Print(b, 1))
    case Paren(e1) => [TLpar] + Body(e1) + [TRpar]
  }

  /** An operand that is not taken binds no variable, at any nesting depth. */
  lemma {:induction false} DeadEvalBindsNothing(ar: Arith, e: Expr, vars: Store)
    ensures var r := Eval(ar, e, vars, false); r.Done? ==> r.vars == vars
    decreases e
  {
    hide Apply, ApplyAssign, Power, Times, UnaryValue, Lookup;
    match e
    case Un(_, e1) => DeadEvalBindsNothing(ar, e1, vars);
    case Paren(e1) => DeadEvalBindsNothing(ar, e1, vars);
    case Pow(a, b) => DeadEvalBindsNothing(ar, a, vars); DeadEvalBindsNothing(ar, b, vars);
    case Bin(_, a, b) => DeadEvalBindsNothing(ar, a, vars); DeadEvalBindsNothing(ar, b, vars);
    case And(a, b) => DeadEvalBindsNothing(ar, a, vars); DeadEvalBindsNothing(ar, b, vars);
    case Or(a, b) => DeadEvalBindsNothing(ar, a, vars); DeadEvalBindsNothing(ar, b, vars);
    case Cond(c, a, b) =>
      DeadEvalBindsNothing(ar, c, vars);
      DeadEvalBindsNothing(ar, a, vars);
      DeadEvalBindsNothing(ar, b, vars);
    case Assign(_, e1) => DeadEvalBindsNothing(ar, e1, vars);
    case OpAssign(_, _, e1) => DeadEvalBindsNothing(ar, e1, vars);
    case Comma(a, b) => DeadEvalBindsNothing(ar, a, vars); DeadEvalBindsNothing(ar, b, vars);
    case _ =>
  }
}
