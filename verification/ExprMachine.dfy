/** The arithmetic evaluator as a machine over token state: the specification of the productions
    `expcomma` down to `exp0` and of the token discipline of `readtok`.

    Productions are numbered from the loosest binding (0, `expcomma`) to the tightest (15, `exp0`). Below
    the operand of each production come its operators, which `Tail` handles: the rest of the production
    once its first operand has a value. Binary operators and the two bitwise unary operators are
    parameters (`Arith`), so every result holds for wrap-around arithmetic of any width; division by zero
    and negative exponents are errors as in the program.
 */
module ExprMachine {

  datatype BinOp = Bor | Bxor | Band | EqEq | Neq | Leq | Geq | Lt | Gt | Lsh | Rsh | Plus | Minus | Mul | Div | Mod

  datatype Token =
    | TEnd
    | TNum(value: int)
    | TStr(name: string)
    | TBin(op: BinOp)
    | TPower | TNot | TBnot | TLand | TLor
    | TPreInc | TPreDec | TPostInc | TPostDec
    | TEq | TOpAssign(op: BinOp)
    | TQues | TCol | TComma | TLpar | TRpar
    | TCond            // never read: marks a finished conditional in `last`

  datatype Error =
    | DivisionByZero | NegativeExponent
    | OperandExpected | IdentifierExpected | ExpressionExpected | ColonExpected | MissingParen
    | NonVariable | BadAssignOperator | Trailing

  type Store = map<string, int>

  /** A variable that is not set counts as zero. */
  function Lookup(vars: Store, x: string): int {
    if x in vars then vars[x] else 0
  }

  datatype Arith = Arith(bin: (BinOp, int, int) -> int, neg: int -> int, bnot: int -> int)

  /** curtok, lasttok, the tokens not read yet, tokval, tokstr (empty for the null pointer), noeval, and the
      shell variables. */
  datatype State = State(cur: Token, last: Token, rest: seq<Token>, tokval: int, tokstr: string,
                         noeval: nat, vars: Store)

  datatype Result = Ok(val: int, s: State) | Err(error: Error)

  /** Tokens left, counting the current one. */
  function Size(s: State): nat {
    |s.rest| + if s.cur.TEnd? then 0 else 1
  }

  /** `readtok`. A name saves the token state, forces noeval, reads one token ahead to see whether an
      assignment follows, and restores the state. */
  function ReadTok(s: State): (s': State)
    ensures s'.vars == s.vars && s'.noeval == s.noeval
    ensures s.rest == [] ==> s'.cur == TEnd && s'.rest == [] && s'.last == s.cur && s'.tokstr == s.tokstr
    ensures s.rest != [] ==> s'.cur == s.rest[0] && s'.rest == s.rest[1..] && s'.last == s.cur
    decreases |s.rest|
  {
    if s.rest == [] then s.(last := s.cur, cur := TEnd)
    else
      match s.rest[0]
      case TStr(name) =>
        var saved := s.(tokstr := name);
        var peeked := ReadTok(saved.(tokstr := "", noeval := 1, cur := TStr(name), rest := s.rest[1..]));
        var tokval' := if s.last in {TPreInc, TPreDec} || peeked.cur != TEq then Lookup(s.vars, name) else 0;
        saved.(tokval := tokval', last := s.cur, cur := TStr(name), rest := s.rest[1..])
      case TNum(v) => s.(tokval := v, last := s.cur, cur := TNum(v), rest := s.rest[1..])
      case t => s.(last := s.cur, cur := t, rest := s.rest[1..])
  }

  /** Give a variable a value, unless evaluation is suppressed. */
  function Bind(s: State, x: string, v: int): State {
    if s.noeval == 0 then s.(vars := s.vars[x := v]) else s
  }

  /** The production whose loop handles a binary operator. */
  function LevelOf(op: BinOp): (k: nat)
    ensures 5 <= k <= 12
  {
    match op
    case Bor => 5
    case Bxor => 6
    case Band => 7
    case EqEq | Neq => 8
    case Leq | Geq | Lt | Gt => 9
    case Lsh | Rsh => 10
    case Plus | Minus => 11
    case Mul | Div | Mod => 12
  }

  datatype Value = Defined(v: int) | Undefined(error: Error)

  function Apply(ar: Arith, op: BinOp, a: int, b: int): Value {
    if (op.Div? || op.Mod?) && b == 0 then Undefined(DivisionByZero) else Defined(ar.bin(op, a, b))
  }

  /** An assignment operator applies the same operators; comparisons have no assignment form. */
  function ApplyAssign(ar: Arith, op: BinOp, a: int, b: int): Value {
    if op in {EqEq, Neq, Leq, Geq, Lt, Gt} then Undefined(BadAssignOperator) else Apply(ar, op, a, b)
  }

  function Times(ar: Arith, base: int, n: nat): int {
    if n == 0 then 1 else ar.bin(Mul, Times(ar, base, n - 1), base)
  }

  function Power(ar: Arith, a: int, b: int): Value {
    if b < 0 then Undefined(NegativeExponent) else Defined(Times(ar, a, b))
  }

  function Truth(b: bool): int {
    if b then 1 else 0
  }

  function Suppress(s: State, skip: bool): State {
    if skip then s.(noeval := s.noeval + 1) else s
  }

  function Resume(s: State, skipped: bool): State
    requires skipped ==> s.noeval > 0
  {
    if skipped then s.(noeval := s.noeval - 1) else s
  }

  /** Production `k`: a first operand from the production below, then its operators. */
  function Prod(ar: Arith, k: nat, s: State): (r: Result)
    requires k <= 15
    ensures r.Ok? ==> Size(r.s) < Size(s) && r.s.noeval == s.noeval
    decreases Size(s), 18 - k
  {
    if k == 15 then Exp0(ar, s)
    else if k == 14 then Exp1(ar, s)
    else
      match Prod(ar, k + 1, s)
      case Err(e) => Err(e)
      case Ok(v, s1) => Tail(ar, k, v, s1)
  }

  /** The rest of production `k` after a first operand of value `v`. */
  function Tail(ar: Arith, k: nat, v: int, s: State): (r: Result)
    requires k <= 13
    ensures r.Ok? ==> Size(r.s) <= Size(s) && r.s.noeval == s.noeval
    decreases Size(s), 1
  {
    if k == 0 then CommaTail(ar, v, s)
    else if k == 1 then AssignTail(ar, v, s)
    else if k == 2 then CondTail(ar, v, s)
    else if k == 3 then LorTail(ar, v, s)
    else if k == 4 then LandTail(ar, v, s)
    else if k == 13 then PowerTail(ar, v, s)
    else BinaryTail(ar, k, v, s)
  }

  function CommaTail(ar: Arith, v: int, s: State): (r: Result)
    ensures r.Ok? ==> Size(r.s) <= Size(s) && r.s.noeval == s.noeval
    decreases Size(s), 0
  {
    if !s.cur.TComma? then Ok(v, s)
    else
      match Prod(ar, 1, ReadTok(s))
      case Err(e) => Err(e)
      case Ok(v', s') => CommaTail(ar, v', s')
  }

  function AssignTail(ar: Arith, v: int, s: State): (r: Result)
    ensures r.Ok? ==> Size(r.s) <= Size(s) && r.s.noeval == s.noeval
    decreases Size(s), 0
  {
    if !s.cur.TEq? && !s.cur.TOpAssign? then Ok(v, s)
    else if !s.last.TStr? then Err(NonVariable)
    else
      match Prod(ar, 1, ReadTok(s))
      case Err(e) => Err(e)
      case Ok(rhs, s') =>
        match (if s.cur.TEq? then Defined(rhs) else ApplyAssign(ar, s.cur.op, v, rhs))
        case Undefined(e) => Err(e)
        case Defined(value) => Ok(value, Bind(s', s.tokstr, value).(tokstr := ""))
  }

  function CondTail(ar: Arith, c: int, s: State): (r: Result)
    ensures r.Ok? ==> Size(r.s) <= Size(s) && r.s.noeval == s.noeval
    decreases Size(s), 0
  {
    if !s.cur.TQues? then Ok(c, s)
    else
      var s1 := ReadTok(s);
      if s1.cur in {TEnd, TCol} then Err(ExpressionExpected)
      else
        match Prod(ar, 0, Suppress(s1, c == 0))
        case Err(e) => Err(e)
        case Ok(v1, s2) => CondElse(ar, c, v1, Resume(s2, c == 0))
  }

  /** The colon and the second branch. */
  function CondElse(ar: Arith, c: int, v1: int, s: State): (r: Result)
    ensures r.Ok? ==> Size(r.s) <= Size(s) && r.s.noeval == s.noeval
    decreases Size(s), 0
  {
    if !s.cur.TCol? then Err(ColonExpected)
    else
      var s4 := ReadTok(s);
      if s4.cur.TEnd? then Err(ExpressionExpected)
      else
        match Prod(ar, 2, Suppress(s4, c != 0))
        case Err(e) => Err(e)
        case Ok(v2, s5) => Ok(if c != 0 then v1 else v2, Resume(s5, c != 0).(last := TCond))
  }

  function LorTail(ar: Arith, v: int, s: State): (r: Result)
    ensures r.Ok? ==> Size(r.s) <= Size(s) && r.s.noeval == s.noeval
    decreases Size(s), 0
  {
    if !s.cur.TLor? then Ok(v, s)
    else
      match Prod(ar, 4, ReadTok(Suppress(s, v != 0)))
      case Err(e) => Err(e)
      case Ok(v2, s') => LorTail(ar, Truth(v != 0 || v2 != 0), Resume(s', v != 0).(last := TLor))
  }

  function LandTail(ar: Arith, v: int, s: State): (r: Result)
    ensures r.Ok? ==> Size(r.s) <= Size(s) && r.s.noeval == s.noeval
    decreases Size(s), 0
  {
    if !s.cur.TLand? then Ok(v, s)
    else
      match Prod(ar, 5, ReadTok(Suppress(s, v == 0)))
      case Err(e) => Err(e)
      case Ok(v2, s') => LandTail(ar, Truth(v != 0 && v2 != 0), Resume(s', v == 0).(last := TLand))
  }

  /** The loops of the eight productions from `expbor` to `exp2`. */
  function BinaryTail(ar: Arith, k: nat, v: int, s: State): (r: Result)
    requires 5 <= k <= 12
    ensures r.Ok? ==> Size(r.s) <= Size(s) && r.s.noeval == s.noeval
    decreases Size(s), 0
  {
    if !(s.cur.TBin? && LevelOf(s.cur.op) == k) then Ok(v, s)
    else
      match Prod(ar, k + 1, ReadTok(s))
      case Err(e) => Err(e)
      case Ok(v2, s') =>
        match Apply(ar, s.cur.op, v, v2)
        case Undefined(e) => Err(e)
        case Defined(value) => BinaryTail(ar, k, value, s')
  }

  function PowerTail(ar: Arith, v: int, s: State): (r: Result)
    ensures r.Ok? ==> Size(r.s) <= Size(s) && r.s.noeval == s.noeval
    decreases Size(s), 0
  {
    if !s.cur.TPower? then Ok(v, s)
    else
      match Prod(ar, 13, ReadTok(s))
      case Err(e) => Err(e)
      case Ok(v2, s') =>
        if v2 == 0 then Ok(1, s')
        else
          match Power(ar, v, v2)
          case Undefined(e) => Err(e)
          case Defined(value) => PowerTail(ar, value, s')
  }

  /** What a prefix operator does to its operand. */
  function Unary(ar: Arith, t: Token, v: int): int {
    match t
    case TNot => Truth(v == 0)
    case TBnot => ar.bnot(v)
    case TBin(Minus) => ar.neg(v)
    case _ => v
  }

  predicate IsUnary(t: Token) {
    t.TNot? || t.TBnot? || t == TBin(Minus) || t == TBin(Plus)
  }

  function Exp1(ar: Arith, s: State): (r: Result)
    ensures r.Ok? ==> Size(r.s) < Size(s) && r.s.noeval == s.noeval
    decreases Size(s), 1
  {
    if IsUnary(s.cur) then
      match Prod(ar, 14, ReadTok(s))
      case Err(e) => Err(e)
      case Ok(v, s') => Ok(Unary(ar, s.cur, v), s')
    else Exp0(ar, s)
  }

  function Exp0(ar: Arith, s: State): (r: Result)
    ensures r.Ok? ==> Size(r.s) < Size(s) && r.s.noeval == s.noeval
    decreases Size(s), 0
  {
    match s.cur
    case TPreInc | TPreDec =>
      var s1 := ReadTok(s.(last := s.cur));
      if !s1.cur.TStr? then Err(IdentifierExpected)
      else
        var v2 := ar.bin(Plus, s1.tokval, if s.cur.TPreInc? then 1 else -1);
        Ok(v2, ReadTok(Bind(s1, s1.tokstr, v2).(cur := TNum(0))))
    case TLpar =>
      (match Prod(ar, 0, ReadTok(s))
       case Err(e) => Err(e)
       case Ok(v, s') => if !s'.cur.TRpar? then Err(MissingParen) else Ok(v, ReadTok(s')))
    case TNum(_) => Ok(s.tokval, ReadTok(s))
    case TStr(_) =>
      var s1 := ReadTok(s.(tokstr := "", noeval := 1));
      if s1.cur.TPostInc? || s1.cur.TPostDec? then
        var s2 := s1.(tokstr := s.tokstr, noeval := s.noeval, last := s.cur);
        var v2 := ar.bin(Plus, s.tokval, if s1.cur.TPostInc? then 1 else -1);
        Ok(s.tokval, ReadTok(Bind(s2, s2.tokstr, v2).(cur := TNum(0))))
      else
        Ok(s.tokval, ReadTok(s))
    case _ => Err(OperandExpected)
  }

  /** `evalexp` on a token list: the value and the final variables, or the error. */
  datatype Outcome = Done(value: int, vars: Store) | Failed(error: Error)

  function Evaluate(ar: Arith, tokens: seq<Token>, vars: Store): Outcome {
    if tokens == [] then Done(0, vars)
    else
      match Prod(ar, 0, ReadTok(State(TEnd, TEnd, tokens, 0, "", 0, vars)))
      case Err(e) => Failed(e)
      case Ok(v, s) => if s.cur.TEnd? then Done(v, s.vars) else Failed(Trailing)
  }

  // ---------------------------------------------------------------- one unfolding of each production

  lemma DescendProd(ar: Arith, k: nat, s: State)
    requires k < 15 && (k == 14 ==> !IsUnary(s.cur))
    ensures var r := Prod(ar, k + 1, s);
            && (r.Err? ==> Prod(ar, k, s) == r)
            && (r.Ok? ==> Prod(ar, k, s) == if k == 14 then r else Tail(ar, k, r.val, r.s))
  {
  }

  lemma UnfoldComma(ar: Arith, v: int, s: State)
    requires s.cur == TComma
    ensures var r := Prod(ar, 1, ReadTok(s));
            Tail(ar, 0, v, s) == if r.Err? then r else Tail(ar, 0, r.val, r.s)
  {
    hide Prod, ReadTok;
  }

  lemma UnfoldAssign(ar: Arith, v: int, s: State)
    requires (s.cur.TEq? || s.cur.TOpAssign?) && s.last.TStr?
    ensures var r := Prod(ar, 1, ReadTok(s));
            && (r.Err? ==> Tail(ar, 1, v, s) == r)
            && (r.Ok? ==>
                  var w := if s.cur.TEq? then Defined(r.val) else ApplyAssign(ar, s.cur.op, v, r.val);
                  Tail(ar, 1, v, s) ==
                  if w.Undefined? then Err(w.error) else Ok(w.v, Bind(r.s, s.tokstr, w.v).(tokstr := "")))
  {
    hide Prod, ReadTok;
  }

  lemma UnfoldCondFails(ar: Arith, c: int, s: State, e: Error)
    requires s.cur == TQues && ReadTok(s).cur !in {TEnd, TCol}
    requires Prod(ar, 0, Suppress(ReadTok(s), c == 0)) == Err(e)
    ensures Tail(ar, 2, c, s) == Err(e)
  {
    hide Prod, ReadTok;
  }

  lemma UnfoldCond(ar: Arith, c: int, s: State, v1: int, s2: State)
    requires s.cur == TQues && ReadTok(s).cur !in {TEnd, TCol}
    requires Prod(ar, 0, Suppress(ReadTok(s), c == 0)) == Ok(v1, s2)
    requires s2.cur.TCol? && (c == 0 ==> s2.noeval > 0) && ReadTok(Resume(s2, c == 0)).cur != TEnd
    ensures var r2 := Prod(ar, 2, Suppress(ReadTok(Resume(s2, c == 0)), c != 0));
            && (r2.Err? ==> Tail(ar, 2, c, s) == r2)
            && (r2.Ok? ==> Tail(ar, 2, c, s) == Ok(if c != 0 then v1 else r2.val, Resume(r2.s, c != 0).(last := TCond)))
  {
    hide Prod, ReadTok;
    assert Tail(ar, 2, c, s) == CondElse(ar, c, v1, Resume(s2, c == 0));
  }

  lemma UnfoldLor(ar: Arith, v: int, s: State)
    requires s.cur == TLor
    ensures var r := Prod(ar, 4, ReadTok(Suppress(s, v != 0)));
            Tail(ar, 3, v, s) ==
            if r.Err? then r else Tail(ar, 3, Truth(v != 0 || r.val != 0), Resume(r.s, v != 0).(last := TLor))
  {
    hide Prod, ReadTok;
  }

  lemma UnfoldLand(ar: Arith, v: int, s: State)
    requires s.cur == TLand
    ensures var r := Prod(ar, 5, ReadTok(Suppress(s, v == 0)));
            Tail(ar, 4, v, s) ==
            if r.Err? then r else Tail(ar, 4, Truth(v != 0 && r.val != 0), Resume(r.s, v == 0).(last := TLand))
  {
    hide Prod, ReadTok;
  }

  lemma UnfoldBinary(ar: Arith, op: BinOp, v: int, s: State)
    requires s.cur == TBin(op)
    ensures var r := Prod(ar, LevelOf(op) + 1, ReadTok(s));
            && (r.Err? ==> Tail(ar, LevelOf(op), v, s) == r)
            && (r.Ok? ==>
                  var w := Apply(ar, op, v, r.val);
                  Tail(ar, LevelOf(op), v, s) == if w.Undefined? then Err(w.error) else Tail(ar, LevelOf(op), w.v, r.s))
  {
    hide Prod, ReadTok, Apply;
  }

  lemma UnfoldPower(ar: Arith, v: int, s: State)
    requires s.cur == TPower
    ensures var r := Prod(ar, 13, ReadTok(s));
            && (r.Err? ==> Tail(ar, 13, v, s) == r)
            && (r.Ok? ==>
                  var w := Power(ar, v, r.val);
                  Tail(ar, 13, v, s) ==
                  if r.val == 0 then Ok(1, r.s) else if w.Undefined? then Err(w.error) else Tail(ar, 13, w.v, r.s))
  {
    hide Prod, ReadTok, Power;
  }

  lemma UnfoldUnary(ar: Arith, s: State)
    requires IsUnary(s.cur)
    ensures var r := Prod(ar, 14, ReadTok(s));
            Prod(ar, 14, s) == if r.Err? then r else Ok(Unary(ar, s.cur, r.val), r.s)
  {
  }

  lemma UnfoldParens(ar: Arith, s: State)
    requires s.cur == TLpar
    ensures var r := Prod(ar, 0, ReadTok(s));
            && (r.Err? ==> Prod(ar, 15, s) == r)
            && (r.Ok? && r.s.cur.TRpar? ==> Prod(ar, 15, s) == Ok(r.val, ReadTok(r.s)))
  {
  }

  lemma UnfoldPre(ar: Arith, s: State)
    requires s.cur.TPreInc? || s.cur.TPreDec?
    ensures var s1 := ReadTok(s.(last := s.cur));
            var v := ar.bin(Plus, s1.tokval, if s.cur.TPreInc? then 1 else -1);
            s1.cur.TStr? ==> Prod(ar, 15, s) == Ok(v, ReadTok(Bind(s1, s1.tokstr, v).(cur := TNum(0))))
  {
    hide ReadTok;
  }

  lemma UnfoldPost(ar: Arith, s: State)
    requires s.cur.TStr?
    ensures var s1 := ReadTok(s.(tokstr := "", noeval := 1));
            var s2 := s1.(tokstr := s.tokstr, noeval := s.noeval, last := s.cur);
            var v := ar.bin(Plus, s.tokval, if s1.cur.TPostInc? then 1 else -1);
            s1.cur.TPostInc? || s1.cur.TPostDec? ==>
              Prod(ar, 15, s) == Ok(s.tokval, ReadTok(Bind(s2, s2.tokstr, v).(cur := TNum(0))))
  {
    hide ReadTok;
  }

  lemma LorEnds(ar: Arith, v: int, s: State)
    ensures s.cur != TLor ==> Tail(ar, 3, v, s) == Ok(v, s)
  {
  }

  lemma LandEnds(ar: Arith, v: int, s: State)
    ensures s.cur != TLand ==> Tail(ar, 4, v, s) == Ok(v, s)
  {
  }
}
