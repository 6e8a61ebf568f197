/** Assignment behind an operand, and how operators group. The evaluator recognises an assignment only after
    the operand in front of it has been read; these are its answers for every operand and right side.
 */
module ExprAssignment {
  import opened ExprMachine
  import opened ExprTrees
  import opened ExprCorrect

  // ---------------------------------------------------------------- what stands in front of the assignment

  /** The tree with the name that its token form at level `k` ends in, if any, read as zero: the lexer does not
      look up a name in front of `=`. Nothing changes behind a parenthesis. */
  function Zeroed(e: Expr, k: nat): Expr {
    if Level(e) < k then e
    else
      match e
      case Var(_) => Lit(0)
      case Un(op, e1) => Un(op, Zeroed(e1, 14))
      case Pow(a, b) => Pow(a, Zeroed(b, 13))
      case Bin(op, a, b) => Bin(op, a, Zeroed(b, LevelOf(op) + 1))
      case And(a, b) => And(a, Zeroed(b, 5))
      case Or(a, b) => Or(a, Zeroed(b, 4))
      case Cond(c, a, b) => Cond(c, a, Zeroed(b, 2))
      case _ => e
  }

  /** What the tree counts as in front of the assignment token `t`. */
  function Operand(e: Expr, k: nat, t: Token): Expr {
    if t.TEq? then Zeroed(e, k) else e
  }

  /** The tokens end in a name that is not part of a prefix increment. */
  predicate EndsInName(tokens: seq<Token>) {
    && tokens != [] && tokens[|tokens| - 1].TStr?
    && (|tokens| > 1 ==> !IsIncrement(tokens[|tokens| - 2]))
  }

  /** The operand's last token is the name that an assignment behind it binds. `&&`, `||` and `?:` leave their
      own mark in `lasttok` when they end. */
  predicate Bindable(e: Expr, k: nat) {
    Level(e) >= 5 && EndsInName(Print(e, k))
  }

  function LastName(tokens: seq<Token>): string
    requires EndsInName(tokens)
  {
    tokens[|tokens| - 1].name
  }

  lemma EndsWithin(a: seq<Token>, t: Token, b: seq<Token>)
    requires b != [] && !IsIncrement(t)
    ensures EndsInName(a + ([t] + b)) <==> EndsInName(b)
    ensures EndsInName(b) ==> LastName(a + ([t] + b)) == LastName(b)
  {
    var s := a + ([t] + b);
    assert s[|s| - 1] == b[|b| - 1];
    assert s[|s| - 2] == if |b| > 1 then b[|b| - 2] else t;
  }

  lemma ParensEnd(e: Expr, k: nat)
    requires Level(e) < k
    ensures !EndsInName(Print(e, k))
  {
    assert Print(e, k)[|Print(e, k)| - 1] == TRpar;
  }

  // ---------------------------------------------------------------- parsing an operand in front of an assignment

  datatype Target = Nothing | Name(name: string)

  /** The name that an assignment behind the tree binds. */
  function TargetOf(e: Expr, k: nat): Target {
    if Bindable(e, k) then Name(LastName(Print(e, k))) else Nothing
  }

  /** The name that the machine is about to bind if an assignment comes. */
  function Remembered(s: State): Target {
    if s.last.TStr? then Name(s.tokstr) else Nothing
  }

  /** A production has given the outcome `out` and stopped in front of `tail`, remembering `target`. */
  ghost predicate Settled(r: Result, out: Outcome, tail: seq<Token>, noeval: nat, target: Target, s': State) {
    match out
    case Failed(err) => r == Err(err)
    case Done(v, vars) => r == Ok(v, s') && CameTo(s', tail, vars, noeval) && Remembered(s') == target
  }

  /** What parsing a tree at level `k` in front of an assignment means: its value outright, and the name
      remembered exactly when the assignment can bind it. */
  ghost predicate ParsedBefore(ar: Arith, e: Expr, k: nat, s: State, tail: seq<Token>, s': State)
    requires k <= 15 && tail != []
  {
    Settled(Prod(ar, k, s), Eval(ar, Operand(e, k, tail[0]), s.vars, s.noeval == 0), tail, s.noeval,
      TargetOf(e, k), s')
  }

  lemma StopsHere(ar: Arith, k: nat, v: int, s: State, tail: seq<Token>, vars: Store, noeval: nat)
    requires 2 <= k <= 13 && tail != [] && IsAssignment(tail[0]) && CameTo(s, tail, vars, noeval)
    ensures Tail(ar, k, v, s) == Ok(v, s)
  {
  }

  lemma SettledFails(err: Error, tail: seq<Token>, noeval: nat, target: Target, s': State)
    ensures Settled(Err(err), Failed(err), tail, noeval, target, s')
  {
  }

  lemma {:induction false} ParsesBefore(ar: Arith, e: Expr, k: nat, s: State, tail: seq<Token>) returns (s': State)
    requires 2 <= k <= 15 && tail != [] && IsAssignment(tail[0]) && Loaded(s, Print(e, k) + tail)
    ensures ParsedBefore(ar, e, k, s, tail, s')
    decreases e, 16 - k
  {
    hide Prod, Eval, Print, Body, Loaded, ParsedBefore, Operand, TargetOf;
    if k < 15 && Level(e) != k {
      SameOperand(e, k, tail[0]);
      s' := ParsesBefore(ar, e, k + 1, s, tail);
      PassesUp(ar, e, k, s, tail, s');
    } else if Level(e) < k {
      s' := BeforeParens(ar, e, s, tail);
    } else {
      PrintedBare(e, k);
      match e
      case Cond(c, a, b) => s' := BeforeCond(ar, c, a, b, s, tail);
      case Or(a, b) => s' := BeforeOr(ar, a, b, s, tail);
      case And(a, b) => s' := BeforeAnd(ar, a, b, s, tail);
      case Bin(op, a, b) => s' := BeforeBin(ar, op, a, b, s, tail);
      case Pow(a, b) => s' := BeforePow(ar, a, b, s, tail);
      case Un(op, e1) => s' := BeforeUnary(ar, op, e1, s, tail);
      case Paren(e1) => s' := BeforeParen(ar, e1, s, tail);
      case _ => s' := BeforePrimary(ar, e, s, tail);
    }
  }

  lemma SameOperand(e: Expr, k: nat, t: Token)
    requires Level(e) != k
    ensures Print(e, k) == Print(e, k + 1) && Operand(e, k, t) == Operand(e, k + 1, t)
  {
  }

  lemma BeforeParens(ar: Arith, e: Expr, s: State, tail: seq<Token>) returns (s': State)
    requires Level(e) < 15 && tail != [] && IsAssignment(tail[0]) && Loaded(s, Print(e, 15) + tail)
    ensures ParsedBefore(ar, e, 15, s, tail, s')
  {
    hide Prod, Eval, Print, Loaded;
    ParensEnd(e, 15);
    ParensPrint(e);
    s' := ParsesParens(ar, e, s, tail);
  }

  lemma ParenIsNoName(e: Expr)
    ensures !EndsInName(Print(Paren(e), 15))
  {
  }

  lemma BeforeParen(ar: Arith, e: Expr, s: State, tail: seq<Token>) returns (s': State)
    requires tail != [] && IsAssignment(tail[0]) && Loaded(s, Body(Paren(e)) + tail)
    ensures ParsedBefore(ar, Paren(e), 15, s, tail, s')
  {
    hide Prod, Print, Body, Loaded, EndsInName;
    ParensPrint(e);
    ParenIsNoName(e);
    s' := ParsesParens(ar, e, s, tail);
  }

  lemma PassesUp(ar: Arith, e: Expr, k: nat, s: State, tail: seq<Token>, s': State)
    requires 2 <= k < 15 && Level(e) != k && tail != [] && IsAssignment(tail[0]) && Loaded(s, Print(e, k) + tail)
    requires ParsedBefore(ar, e, k + 1, s, tail, s')
    ensures ParsedBefore(ar, e, k, s, tail, s')
  {
    hide Prod, Eval, Print, Zeroed, Settled, EndsInName;
    SameOperand(e, k, tail[0]);
    if k == 14 {
      FirstNotUnary(e);
      assert s.cur == Print(e, 15)[0];
    }
    SettlesLooser(ar, k, s, Eval(ar, Operand(e, k, tail[0]), s.vars, s.noeval == 0), tail, s.noeval,
      TargetOf(e, k), s');
  }

  lemma SettlesLooser(ar: Arith, k: nat, s: State, out: Outcome, tail: seq<Token>, noeval: nat, target: Target,
                      s': State)
    requires 2 <= k < 15 && (k == 14 ==> !IsUnary(s.cur)) && tail != [] && IsAssignment(tail[0])
    requires Settled(Prod(ar, k + 1, s), out, tail, noeval, target, s')
    ensures Settled(Prod(ar, k, s), out, tail, noeval, target, s')
  {
    hide Prod, Tail, CameTo;
    DescendProd(ar, k, s);
    if out.Done? && k <= 13 {
      StopsHere(ar, k, out.value, s', tail, out.vars, noeval);
    }
  }

  /** Reading and parsing the operand after an operator token, in front of an assignment. */
  lemma {:induction false} LastOperand(ar: Arith, t: Token, b: Expr, k: nat, s: State, tail: seq<Token>, vars: Store,
                                       noeval: nat, skip: bool)
    returns (s': State)
    requires 2 <= k <= 15 && tail != [] && IsAssignment(tail[0]) && !IsIncrement(t)
    requires CameTo(s, [t] + (Print(b, k) + tail), vars, noeval)
    ensures s.cur == t && ReadTok(s).cur !in {TEnd, TCol}
    ensures Settled(Prod(ar, k, Suppress(ReadTok(s), skip)),
                    Eval(ar, Operand(b, k, tail[0]), vars, noeval == 0 && !skip),
                    tail, Raised(noeval, skip), TargetOf(b, k), s')
    decreases b, 17, 0
  {
    hide Prod, Tail, Print, Eval, Operand, TargetOf, Settled;
    ReadOperand(s, t, b, k, tail, vars, noeval);
    StartsOperand(b, k, tail);
    var s1 := Suppress(ReadTok(s), skip);
    assert Loaded(s1, Print(b, k) + tail);
    s' := ParsesBefore(ar, b, k, s1, tail);
  }

  // ---------------------------------------------------------------- binary operators

  lemma BinSettles(ar: Arith, op: BinOp, v: int, s: State, out: Outcome, tail: seq<Token>, noeval: nat,
                   target: Target, s': State)
    requires s.cur == TBin(op) && tail != [] && IsAssignment(tail[0])
    requires Settled(Prod(ar, LevelOf(op) + 1, ReadTok(s)), out, tail, noeval, target, s')
    ensures Settled(Tail(ar, LevelOf(op), v, s), AfterBin(ar, op, v, out), tail, noeval, target, s')
  {
    hide Prod, Tail, ReadTok, Apply, CameTo;
    UnfoldBinary(ar, op, v, s);
    if out.Done? && Apply(ar, op, v, out.value).Defined? {
      StopsHere(ar, LevelOf(op), Apply(ar, op, v, out.value).v, s', tail, out.vars, noeval);
    }
  }

  lemma {:induction false} BeforeBin(ar: Arith, op: BinOp, a: Expr, b: Expr, s: State, tail: seq<Token>)
    returns (s': State)
    requires tail != [] && IsAssignment(tail[0]) && Loaded(s, Body(Bin(op, a, b)) + tail)
    ensures ParsedBefore(ar, Bin(op, a, b), LevelOf(op), s, tail, s')
    decreases Bin(op, a, b), 0
  {
    hide Prod, Tail, Eval, Loaded, ReadTok, CameTo, TargetOf, Operand, Print, Settled, AfterBin;
    var k, t := LevelOf(op), TBin(op);
    Regroup(Print(a, k), t, Print(b, k + 1), tail);
    s' := s;
    var sa := Parses(ar, a, k, s, [t] + (Print(b, k + 1) + tail));
    OperandOfBin(op, a, b, tail[0]);
    EvalBin(ar, op, a, Operand(b, k + 1, tail[0]), s.vars, s.noeval == 0);
    var r := Eval(ar, a, s.vars, s.noeval == 0);
    if r.Failed? {
      SettledFails(r.error, tail, s.noeval, TargetOf(b, k + 1), s');
    } else {
      s' := LastOperand(ar, t, b, k + 1, sa, tail, r.vars, s.noeval, false);
      BinSettles(ar, op, r.value, sa, Eval(ar, Operand(b, k + 1, tail[0]), r.vars, s.noeval == 0), tail, s.noeval,
        TargetOf(b, k + 1), s');
    }
  }

  /** The operand a binary tree counts as, and the name it ends in, are those of its right side. */
  lemma OperandOfBin(op: BinOp, a: Expr, b: Expr, t: Token)
    ensures var k, e := LevelOf(op), Bin(op, a, b);
      && Operand(e, k, t) == Bin(op, a, Operand(b, k + 1, t))
      && TargetOf(e, k) == TargetOf(b, k + 1)
  {
    var k := LevelOf(op);
    PrintedBare(Bin(op, a, b), k);
    EndsAlike(a, k, TBin(op), b, k + 1);
  }

  /** A tree that ends in the operand `b` binds what `b` binds. */
  lemma EndsAlike(a: Expr, j: nat, t: Token, b: Expr, k: nat)
    requires !IsIncrement(t) && k >= 5
    ensures var tokens := Print(a, j) + ([t] + Print(b, k));
      TargetOf(b, k) == if EndsInName(tokens) then Name(LastName(tokens)) else Nothing
  {
    hide Print;
    PrintNonEmpty(b, k);
    EndsWithin(Print(a, j), t, Print(b, k));
    if Level(b) < k {
      ParensEnd(b, k);
    }
  }

  lemma PowSettles(ar: Arith, v: int, s: State, out: Outcome, tail: seq<Token>, noeval: nat, target: Target,
                   s': State)
    requires s.cur == TPower && tail != [] && IsAssignment(tail[0])
    requires Settled(Prod(ar, 13, ReadTok(s)), out, tail, noeval, target, s')
    ensures Settled(Tail(ar, 13, v, s), AfterPow(ar, v, out), tail, noeval, target, s')
  {
    hide Prod, Tail, ReadTok, CameTo;
    UnfoldPower(ar, v, s);
    if out.Done? && out.value > 0 {
      StopsHere(ar, 13, Times(ar, v, out.value), s', tail, out.vars, noeval);
    }
  }

  lemma {:induction false} BeforePow(ar: Arith, a: Expr, b: Expr, s: State, tail: seq<Token>) returns (s': State)
    requires tail != [] && IsAssignment(tail[0]) && Loaded(s, Body(Pow(a, b)) + tail)
    ensures ParsedBefore(ar, Pow(a, b), 13, s, tail, s')
    decreases Pow(a, b), 0
  {
    hide Prod, Tail, Eval, Loaded, ReadTok, CameTo, TargetOf, Operand, Print, Settled, AfterPow;
    Regroup(Print(a, 14), TPower, Print(b, 13), tail);
    s' := s;
    var sa := Parses(ar, a, 14, s, [TPower] + (Print(b, 13) + tail));
    DescendProd(ar, 13, s);
    OperandOfPow(a, b, tail[0]);
    EvalPow(ar, a, Operand(b, 13, tail[0]), s.vars, s.noeval == 0);
    var r := Eval(ar, a, s.vars, s.noeval == 0);
    if r.Failed? {
      SettledFails(r.error, tail, s.noeval, TargetOf(b, 13), s');
    } else {
      s' := LastOperand(ar, TPower, b, 13, sa, tail, r.vars, s.noeval, false);
      PowSettles(ar, r.value, sa, Eval(ar, Operand(b, 13, tail[0]), r.vars, s.noeval == 0), tail, s.noeval,
        TargetOf(b, 13), s');
    }
  }

  lemma OperandOfPow(a: Expr, b: Expr, t: Token)
    ensures Operand(Pow(a, b), 13, t) == Pow(a, Operand(b, 13, t))
    ensures TargetOf(Pow(a, b), 13) == TargetOf(b, 13)
  {
    PrintedBare(Pow(a, b), 13);
    EndsAlike(a, 14, TPower, b, 13);
  }

  // ---------------------------------------------------------------- prefix operators

  lemma {:induction false} BeforeUnary(ar: Arith, op: UnOp, e1: Expr, s: State, tail: seq<Token>) returns (s': State)
    requires tail != [] && IsAssignment(tail[0]) && Loaded(s, Body(Un(op, e1)) + tail)
    ensures ParsedBefore(ar, Un(op, e1), 14, s, tail, s')
    decreases Un(op, e1), 0
  {
    hide Prod, Print, TargetOf, Operand;
    var t := UnaryToken(op);
    assert ([t] + Print(e1, 14)) + tail == [t] + (Print(e1, 14) + tail);
    OperandOfUn(op, e1, tail[0]);
    s' := LastOperand(ar, t, e1, 14, s, tail, s.vars, s.noeval, false);
    UnfoldUnary(ar, s);
  }

  lemma OperandOfUn(op: UnOp, e1: Expr, t: Token)
    ensures Operand(Un(op, e1), 14, t) == Un(op, Operand(e1, 14, t))
    ensures TargetOf(Un(op, e1), 14) == TargetOf(e1, 14)
  {
    hide EndsInName, LastName;
    PrintedBare(Un(op, e1), 14);
    PrintNonEmpty(e1, 14);
    assert [] + ([UnaryToken(op)] + Print(e1, 14)) == [UnaryToken(op)] + Print(e1, 14);
    EndsWithin([], UnaryToken(op), Print(e1, 14));
    if Level(e1) < 14 {
      ParensEnd(e1, 14);
    }
  }

  // ---------------------------------------------------------------- logical operators and the conditional

  /** The end of `||`, `&&` and `?:`, which leave their mark behind. */
  lemma MarkedEnd(s: State, tail: seq<Token>, vars: Store, noeval: nat, skip: bool, mark: Token) returns (s': State)
    requires CameTo(s, tail, vars, Raised(noeval, skip)) && mark in {TLor, TLand, TCond}
    ensures s' == Resume(s, skip).(last := mark)
    ensures CameTo(s', tail, vars, noeval) && Remembered(s') == Nothing
  {
    s' := Resume(s, skip).(last := mark);
  }

  lemma OrSettles(ar: Arith, v: int, s: State, out: Outcome, tail: seq<Token>, noeval: nat, target: Target, sb: State)
    returns (s': State)
    requires s.cur == TLor && tail != [] && IsAssignment(tail[0])
    requires Settled(Prod(ar, 4, Suppress(ReadTok(s), v != 0)), out, tail, Raised(noeval, v != 0),
                     target, sb)
    ensures Settled(Tail(ar, 3, v, s), AfterOr(v, out), tail, noeval, Nothing, s')
  {
    hide Prod, Tail, ReadTok, CameTo, Remembered;
    SuppressEarly(s, v != 0);
    UnfoldLor(ar, v, s);
    s' := s;
    if out.Done? {
      s' := MarkedEnd(sb, tail, out.vars, noeval, v != 0, TLor);
      StopsHere(ar, 3, Truth(v != 0 || out.value != 0), s', tail, out.vars, noeval);
    }
  }

  lemma {:induction false} BeforeOr(ar: Arith, a: Expr, b: Expr, s: State, tail: seq<Token>) returns (s': State)
    requires tail != [] && IsAssignment(tail[0]) && Loaded(s, Body(Or(a, b)) + tail)
    ensures ParsedBefore(ar, Or(a, b), 3, s, tail, s')
    decreases Or(a, b), 0
  {
    hide Prod, Tail, Eval, Loaded, ReadTok, CameTo, TargetOf, Operand, Print, Settled, AfterOr;
    Regroup(Print(a, 3), TLor, Print(b, 4), tail);
    s' := s;
    var sa := Parses(ar, a, 3, s, [TLor] + (Print(b, 4) + tail));
    OperandOfMarked(Or(a, b), 3, tail[0]);
    EvalOr(ar, a, Operand(b, 4, tail[0]), s.vars, s.noeval == 0);
    var r := Eval(ar, a, s.vars, s.noeval == 0);
    if r.Failed? {
      SettledFails(r.error, tail, s.noeval, Nothing, s');
    } else {
      var skip := r.value != 0;
      var sb := LastOperand(ar, TLor, b, 4, sa, tail, r.vars, s.noeval, skip);
      s' := OrSettles(ar, r.value, sa, Eval(ar, Operand(b, 4, tail[0]), r.vars, s.noeval == 0 && !skip), tail,
        s.noeval, TargetOf(b, 4), sb);
    }
  }

  /** Trees that leave their mark bind nothing. */
  lemma OperandOfMarked(e: Expr, k: nat, t: Token)
    requires 2 <= Level(e) <= 4 && k == Level(e)
    ensures TargetOf(e, k) == Nothing
    ensures Operand(e, k, t) ==
            match e
            case Or(a, b) => Or(a, Operand(b, 4, t))
            case And(a, b) => And(a, Operand(b, 5, t))
            case Cond(c, a, b) => Cond(c, a, Operand(b, 2, t))
            case _ => e
  {
  }

  lemma AndSettles(ar: Arith, v: int, s: State, out: Outcome, tail: seq<Token>, noeval: nat, target: Target, sb: State)
    returns (s': State)
    requires s.cur == TLand && tail != [] && IsAssignment(tail[0])
    requires Settled(Prod(ar, 5, Suppress(ReadTok(s), v == 0)), out, tail, Raised(noeval, v == 0),
                     target, sb)
    ensures Settled(Tail(ar, 4, v, s), AfterAnd(v, out), tail, noeval, Nothing, s')
  {
    hide Prod, Tail, ReadTok, CameTo, Remembered;
    SuppressEarly(s, v == 0);
    UnfoldLand(ar, v, s);
    s' := s;
    if out.Done? {
      s' := MarkedEnd(sb, tail, out.vars, noeval, v == 0, TLand);
      StopsHere(ar, 4, Truth(v != 0 && out.value != 0), s', tail, out.vars, noeval);
    }
  }

  lemma {:induction false} BeforeAnd(ar: Arith, a: Expr, b: Expr, s: State, tail: seq<Token>) returns (s': State)
    requires tail != [] && IsAssignment(tail[0]) && Loaded(s, Body(And(a, b)) + tail)
    ensures ParsedBefore(ar, And(a, b), 4, s, tail, s')
    decreases And(a, b), 0
  {
    hide Prod, Tail, Eval, Loaded, ReadTok, CameTo, TargetOf, Operand, Print, Settled, AfterAnd;
    Regroup(Print(a, 4), TLand, Print(b, 5), tail);
    s' := s;
    var sa := Parses(ar, a, 4, s, [TLand] + (Print(b, 5) + tail));
    OperandOfMarked(And(a, b), 4, tail[0]);
    EvalAnd(ar, a, Operand(b, 5, tail[0]), s.vars, s.noeval == 0);
    var r := Eval(ar, a, s.vars, s.noeval == 0);
    if r.Failed? {
      SettledFails(r.error, tail, s.noeval, Nothing, s');
    } else {
      var skip := r.value == 0;
      var sb := LastOperand(ar, TLand, b, 5, sa, tail, r.vars, s.noeval, skip);
      s' := AndSettles(ar, r.value, sa, Eval(ar, Operand(b, 5, tail[0]), r.vars, s.noeval == 0 && !skip), tail,
        s.noeval, TargetOf(b, 5), sb);
    }
  }

  /** What a conditional makes of its last operand's outcome: `w` is the value of the other branch. */
  function AfterCond(v: int, w: int, out: Outcome): Outcome {
    if out.Failed? then out else Done(if v != 0 then w else out.value, out.vars)
  }

  lemma CondSettles(ar: Arith, v: int, s: State, w: int, sa: State, out: Outcome, tail: seq<Token>, noeval: nat,
                    target: Target, sb: State)
    returns (s': State)
    requires s.cur == TQues && ReadTok(s).cur !in {TEnd, TCol} && tail != [] && IsAssignment(tail[0])
    requires Prod(ar, 0, Suppress(ReadTok(s), v == 0)) == Ok(w, sa)
    requires (v == 0 ==> sa.noeval > 0) && Resume(sa, v == 0).cur == TCol
    requires ReadTok(Resume(sa, v == 0)).cur != TEnd
    requires Settled(Prod(ar, 2, Suppress(ReadTok(Resume(sa, v == 0)), v != 0)), out, tail,
                     Raised(noeval, v != 0), target, sb)
    ensures Settled(Tail(ar, 2, v, s), AfterCond(v, w, out), tail, noeval, Nothing, s')
  {
    hide Prod, Tail, ReadTok, CameTo, Remembered;
    UnfoldCond(ar, v, s, w, sa);
    s' := s;
    if out.Done? {
      s' := MarkedEnd(sb, tail, out.vars, noeval, v != 0, TCond);
      StopsHere(ar, 2, if v != 0 then w else out.value, s', tail, out.vars, noeval);
    }
  }

  lemma {:induction false} BeforeCond(ar: Arith, c: Expr, a: Expr, b: Expr, s: State, tail: seq<Token>)
    returns (s': State)
    requires tail != [] && IsAssignment(tail[0]) && Loaded(s, Body(Cond(c, a, b)) + tail)
    ensures ParsedBefore(ar, Cond(c, a, b), 2, s, tail, s')
    decreases Cond(c, a, b), 0
  {
    hide Prod, Tail, Eval, Loaded, ReadTok, CameTo, TargetOf, Operand, Print, Settled, CondOutcome;
    var tailA := [TCol] + (Print(b, 2) + tail);
    Regroup(Print(a, 0), TCol, Print(b, 2), tail);
    Regroup(Print(c, 3), TQues, Print(a, 0) + ([TCol] + Print(b, 2)), tail);
    s' := s;
    var sc := Parses(ar, c, 3, s, [TQues] + (Print(a, 0) + tailA));
    ParsedWhole(ar, c, 3, s, [TQues] + (Print(a, 0) + tailA), sc);
    DescendProd(ar, 2, s);
    OperandOfMarked(Cond(c, a, b), 2, tail[0]);
    EvalBranches(ar, c, a, Operand(b, 2, tail[0]), s.vars, s.noeval == 0);
    var rc := Eval(ar, c, s.vars, s.noeval == 0);
    if rc.Failed? {
      SettledFails(rc.error, tail, s.noeval, Nothing, s');
    } else {
      s' := BranchesBefore(ar, a, b, rc.value, sc, tail, rc.vars, s.noeval);
    }
  }

  /** The outcome of both branches of a conditional, the condition having the value `v`. */
  function CondOutcome(ar: Arith, v: int, a: Expr, b: Expr, vars: Store, live: bool): Outcome {
    match Eval(ar, a, vars, live && !(v == 0))
    case Failed(err) => Failed(err)
    case Done(w, vars1) => AfterCond(v, w, Eval(ar, b, vars1, live && !(v != 0)))
  }

  lemma {:induction false} EvalBranches(ar: Arith, c: Expr, a: Expr, b: Expr, vars: Store, live: bool)
    ensures var r, rc := Eval(ar, Cond(c, a, b), vars, live), Eval(ar, c, vars, live);
      && (rc.Failed? ==> r == rc)
      && (rc.Done? ==> r == CondOutcome(ar, rc.value, a, b, rc.vars, live))
  {
    hide Eval;
    EvalCond(ar, c, a, b, vars, live);
  }

  lemma CondOutcomeIs(ar: Arith, v: int, a: Expr, b: Expr, vars: Store, live: bool)
    ensures var out, ra := CondOutcome(ar, v, a, b, vars, live), Eval(ar, a, vars, live && !(v == 0));
      && (ra.Failed? ==> out == Failed(ra.error))
      && (ra.Done? ==> out == AfterCond(v, ra.value, Eval(ar, b, ra.vars, live && !(v != 0))))
  {
    hide Eval;
  }

  lemma {:induction false} BranchesBefore(ar: Arith, a: Expr, b: Expr, v: int, s: State, tail: seq<Token>,
                                          vars: Store, noeval: nat)
    returns (s': State)
    requires tail != [] && IsAssignment(tail[0])
    requires CameTo(s, [TQues] + (Print(a, 0) + ([TCol] + (Print(b, 2) + tail))), vars, noeval)
    ensures Settled(Tail(ar, 2, v, s), CondOutcome(ar, v, a, Operand(b, 2, tail[0]), vars, noeval == 0), tail, noeval,
                    Nothing, s')
    decreases b, 17, 2
  {
    hide Prod, Tail, Eval, ReadTok, CameTo, TargetOf, Operand, Print, Settled, AfterCond, CondOutcome, Raised;
    var tailA := [TCol] + (Print(b, 2) + tail);
    CondOutcomeIs(ar, v, a, Operand(b, 2, tail[0]), vars, noeval == 0);
    var sa := NextOperand(ar, TQues, a, 0, s, tailA, vars, noeval, v == 0);
    s' := s;
    var ra := Eval(ar, a, vars, noeval == 0 && !(v == 0));
    if ra.Failed? {
      UnfoldCondFails(ar, v, s, ra.error);
      SettledFails(ra.error, tail, noeval, Nothing, s');
    } else {
      s' := BranchBefore(ar, b, v, s, ra.value, sa, tail, ra.vars, noeval);
    }
  }

  /** The second branch, behind the first, of value `w`. */
  lemma {:induction false} BranchBefore(ar: Arith, b: Expr, v: int, s: State, w: int, sa: State, tail: seq<Token>,
                                        vars: Store, noeval: nat)
    returns (s': State)
    requires tail != [] && IsAssignment(tail[0])
    requires s.cur == TQues && ReadTok(s).cur !in {TEnd, TCol}
    requires Prod(ar, 0, Suppress(ReadTok(s), v == 0)) == Ok(w, sa)
    requires CameTo(sa, [TCol] + (Print(b, 2) + tail), vars, Raised(noeval, v == 0))
    ensures Settled(Tail(ar, 2, v, s),
                    AfterCond(v, w, Eval(ar, Operand(b, 2, tail[0]), vars, noeval == 0 && !(v != 0))),
                    tail, noeval, Nothing, s')
    decreases b, 17, 1
  {
    hide Prod, Tail, Eval, ReadTok, CameTo, TargetOf, Operand, Print, Settled, AfterCond;
    var tailA := [TCol] + (Print(b, 2) + tail);
    ResumeComes(sa, tailA, vars, noeval, v == 0);
    var sb := LastOperand(ar, TCol, b, 2, Resume(sa, v == 0), tail, vars, noeval, v != 0);
    s' := CondSettles(ar, v, s, w, sa, Eval(ar, Operand(b, 2, tail[0]), vars, noeval == 0 && !(v != 0)),
      tail, noeval, TargetOf(b, 2), sb);
  }

  lemma BeforePrimary(ar: Arith, e: Expr, s: State, tail: seq<Token>) returns (s': State)
    requires Level(e) == 15 && !e.Paren? && tail != [] && IsAssignment(tail[0]) && Loaded(s, Body(e) + tail)
    ensures ParsedBefore(ar, e, 15, s, tail, s')
  {
    match e
    case Lit(v) =>
      assert ([TNum(v)] + tail)[1..] == tail;
      s' := ReadTok(s);
    case Var(x) =>
      assert ([TStr(x)] + tail)[1..] == tail;
      ReadComes(s.(tokstr := "", noeval := 1));
      s' := ReadTok(s);
    case _ => s' := BeforeIncrement(ar, e, s, tail);
  }

  lemma BeforeIncrement(ar: Arith, e: Expr, s: State, tail: seq<Token>) returns (s': State)
    requires (e.PreInc? || e.PreDec? || e.PostInc? || e.PostDec?) && tail != [] && IsAssignment(tail[0])
    requires Loaded(s, Body(e) + tail)
    ensures ParsedBefore(ar, e, 15, s, tail, s')
  {
    assert !EndsInName(Print(e, 15));
    match e
    case PreInc(x) => s' := ParsesPre(ar, e, x, TPreInc, 1, s, tail);
    case PreDec(x) => s' := ParsesPre(ar, e, x, TPreDec, -1, s, tail);
    case PostInc(x) => s' := ParsesPost(ar, e, x, TPostInc, 1, s, tail);
    case PostDec(x) => s' := ParsesPost(ar, e, x, TPostDec, -1, s, tail);
  }

  // ---------------------------------------------------------------- chains of assignments

  /** An operand and the assignment token behind it. */
  datatype Link = Link(operand: Expr, t: Token)

  predicate Chained(links: seq<Link>) {
    forall i :: 0 <= i < |links| ==> IsAssignment(links[i].t)
  }

  /** The tokens of a chain of assignments behind operands, with a right side at its end. */
  function ChainTokens(links: seq<Link>, r: Expr): seq<Token> {
    if links == [] then Print(r, 1)
    else Print(links[0].operand, 2) + ([links[0].t] + ChainTokens(links[1..], r))
  }

  /** What a chain evaluates to. */
  function ChainValue(ar: Arith, links: seq<Link>, r: Expr, vars: Store, live: bool): Outcome
    requires Chained(links)
  {
    if links == [] then Eval(ar, r, vars, live)
    else
      match Eval(ar, Operand(links[0].operand, 2, links[0].t), vars, live)
      case Failed(err) => Failed(err)
      case Done(v, vars1) =>
        match TargetOf(links[0].operand, 2)
        case Nothing => Failed(NonVariable)
        case Name(x) => Bound(ar, links[0].t, v, x, ChainValue(ar, links[1..], r, vars1, live), live)
  }

  lemma Rejected(ar: Arith, v: int, s: State, tail: seq<Token>, vars: Store, noeval: nat)
    requires tail != [] && IsAssignment(tail[0]) && CameTo(s, tail, vars, noeval) && !s.last.TStr?
    ensures Tail(ar, 1, v, s) == Err(NonVariable)
  {
  }

  lemma ReadNext(s: State, t: Token, rest: seq<Token>, vars: Store, noeval: nat)
    requires CameTo(s, [t] + rest, vars, noeval) && !IsIncrement(t) && rest != []
    ensures s.cur == t && Loaded(ReadTok(s), rest) && ReadTok(s).vars == vars && ReadTok(s).noeval == noeval
  {
    assert ([t] + rest)[1..] == rest;
    ReadLoads(s);
  }

  /** Production 1 on a chain, in every state and in front of whatever may follow an assignment. */
  lemma {:induction false} ChainParses(ar: Arith, links: seq<Link>, r: Expr, s: State, tail: seq<Token>)
    returns (s': State)
    requires Chained(links) && Loaded(s, ChainTokens(links, r) + tail) && Follows(1, Head(tail))
    ensures Gave(Prod(ar, 1, s), ChainValue(ar, links, r, s.vars, s.noeval == 0), tail, s.noeval, s')
    decreases |links|
  {
    hide Prod, Tail, Print, Eval, Loaded;
    if links == [] {
      s' := Parses(ar, r, 1, s, tail);
      ParsedWhole(ar, r, 1, s, tail, s');
    } else {
      s' := LinkParses(ar, links, r, s, tail);
    }
  }

  lemma {:induction false} LinkParses(ar: Arith, links: seq<Link>, r: Expr, s: State, tail: seq<Token>)
    returns (s': State)
    requires links != [] && Chained(links) && Loaded(s, ChainTokens(links, r) + tail) && Follows(1, Head(tail))
    ensures Gave(Prod(ar, 1, s), ChainValue(ar, links, r, s.vars, s.noeval == 0), tail, s.noeval, s')
    decreases |links|, 0
  {
    hide Prod, Tail, Print, Eval, Loaded, Operand, TargetOf, Bound, ChainTokens, CameTo, Gave;
    var e, t, rest := links[0].operand, links[0].t, ChainTokens(links[1..], r) + tail;
    ChainUnfolds(ar, links, r, tail, s.vars, s.noeval == 0);
    var s1 := ParsesBefore(ar, e, 2, s, [t] + rest);
    DescendProd(ar, 1, s);
    var re := Eval(ar, Operand(e, 2, t), s.vars, s.noeval == 0);
    s' := s;
    if re.Failed? {
      GaveError(re.error, tail, s.noeval, s');
    } else if s1.last.TStr? {
      ReadNext(s1, t, rest, re.vars, s.noeval);
      var sb := ChainParses(ar, links[1..], r, ReadTok(s1), tail);
      s' := AssignEnds(ar, t, s1, re.value, ChainValue(ar, links[1..], r, re.vars, s.noeval == 0), tail, s.noeval, sb);
    } else {
      Rejected(ar, re.value, s1, [t] + rest, re.vars, s.noeval);
      GaveError(NonVariable, tail, s.noeval, s');
    }
  }

  lemma GaveError(err: Error, tail: seq<Token>, noeval: nat, s': State)
    ensures Gave(Err(err), Failed(err), tail, noeval, s')
  {
  }

  lemma ChainUnfolds(ar: Arith, links: seq<Link>, r: Expr, tail: seq<Token>, vars: Store, live: bool)
    requires links != [] && Chained(links)
    ensures var e, t, rest := links[0].operand, links[0].t, ChainTokens(links[1..], r) + tail;
      && rest != [] && ChainTokens(links, r) + tail == Print(e, 2) + ([t] + rest)
    ensures var e, t := links[0].operand, links[0].t;
      var re, out := Eval(ar, Operand(e, 2, t), vars, live), ChainValue(ar, links, r, vars, live);
      && (re.Failed? ==> out == Failed(re.error))
      && (re.Done? && TargetOf(e, 2) == Nothing ==> out == Failed(NonVariable))
      && (re.Done? && TargetOf(e, 2).Name? ==>
            out == Bound(ar, t, re.value, TargetOf(e, 2).name, ChainValue(ar, links[1..], r, re.vars, live), live))
  {
    hide Print, Eval, Operand, TargetOf, Bound;
    PrintNonEmpty(r, 1);
    if |links| > 1 {
      PrintNonEmpty(links[1].operand, 2);
    }
    Regroup(Print(links[0].operand, 2), links[0].t, ChainTokens(links[1..], r), tail);
  }

  // ---------------------------------------------------------------- the main results

  /** For every chain of operands, assignment tokens and a right side: each operand is evaluated, with a name in
      front of `=` read as zero, and its errors come first; then the assignment is rejected unless the operand ends
      in a name and is no `&&`, `||` or `?:`; otherwise the rest of the chain is evaluated and that name bound. */
  lemma ChainEvaluates(ar: Arith, links: seq<Link>, r: Expr, vars: Store)
    requires Chained(links)
    ensures Evaluate(ar, ChainTokens(links, r), vars) == ChainValue(ar, links, r, vars, true)
  {
    hide Prod, Tail, ReadTok, ChainTokens, ChainValue, Loaded;
    var tokens := ChainTokens(links, r);
    ChainNonEmpty(links, r);
    var s := State(TEnd, TEnd, tokens, 0, "", 0, vars);
    ReadLoads(s);
    assert tokens + [] == tokens;
    var s' := ChainParses(ar, links, r, ReadTok(s), []);
    DescendProd(ar, 0, ReadTok(s));
    var out := ChainValue(ar, links, r, vars, true);
    if out.Done? {
      TailStops(ar, 0, out.value, s');
    }
  }

  lemma ChainNonEmpty(links: seq<Link>, r: Expr)
    ensures ChainTokens(links, r) != []
  {
    PrintNonEmpty(r, 1);
    if links != [] {
      PrintNonEmpty(links[0].operand, 2);
    }
  }

  /** In parentheses a chain has the same outcome, wherever an operand may stand. */
  lemma ChainInParens(ar: Arith, links: seq<Link>, r: Expr, s: State, tail: seq<Token>) returns (s': State)
    requires Chained(links) && Loaded(s, [TLpar] + (ChainTokens(links, r) + ([TRpar] + tail)))
    ensures Gave(Prod(ar, 15, s), ChainValue(ar, links, r, s.vars, s.noeval == 0), tail, s.noeval, s')
  {
    hide Prod, Tail, ReadTok, ChainTokens, ChainValue, Loaded, CameTo;
    var rest := ChainTokens(links, r) + ([TRpar] + tail);
    ChainNonEmpty(links, r);
    LoadedComes(s, [TLpar] + rest);
    ReadNext(s, TLpar, rest, s.vars, s.noeval);
    var s1 := ReadTok(s);
    var s2 := ChainParses(ar, links, r, s1, [TRpar] + tail);
    DescendProd(ar, 0, s1);
    UnfoldParens(ar, s);
    s' := ReadTok(s2);
    var out := ChainValue(ar, links, r, s.vars, s.noeval == 0);
    if out.Done? {
      CameStops(ar, 0, out.value, s2, [TRpar] + tail, out.vars, s.noeval);
      ReadCloses(s2, tail, out.vars, s.noeval);
    }
  }

  lemma LoadedComes(s: State, tokens: seq<Token>)
    requires Loaded(s, tokens)
    ensures CameTo(s, tokens, s.vars, s.noeval)
  {
  }

  lemma ReadCloses(s: State, tail: seq<Token>, vars: Store, noeval: nat)
    requires CameTo(s, [TRpar] + tail, vars, noeval)
    ensures s.cur == TRpar && CameTo(ReadTok(s), tail, vars, noeval)
  {
    assert ([TRpar] + tail)[1..] == tail;
    ReadComes(s);
  }

  /** What an operand, an assignment token and a right side evaluate to. */
  function Answer(ar: Arith, e: Expr, t: Token, r: Expr, vars: Store): Outcome
    requires IsAssignment(t)
  {
    match Eval(ar, Operand(e, 2, t), vars, true)
    case Failed(err) => Failed(err)
    case Done(v, vars1) =>
      match TargetOf(e, 2)
      case Nothing => Failed(NonVariable)
      case Name(x) => Assigned(ar, t, r, v, x, vars1, true)
  }

  /** The chain of one link: every operand and every right side. */
  lemma AssignmentBehindOperand(ar: Arith, e: Expr, t: Token, r: Expr, vars: Store)
    requires IsAssignment(t)
    ensures Evaluate(ar, Print(e, 2) + ([t] + Print(r, 1)), vars) == Answer(ar, e, t, r, vars)
  {
    hide Evaluate, Print, Eval, Operand, TargetOf, Bound;
    var links := [Link(e, t)];
    ChainEvaluates(ar, links, r, vars);
    assert links[1..] == [];
    assert ChainTokens(links, r) == Print(e, 2) + ([t] + ChainTokens([], r));
  }

  /** No tree of its own is rejected as an assignment to a non-variable. */
  lemma {:induction false} TreesAssignToVariables(ar: Arith, e: Expr)
    ensures forall vars, live :: Eval(ar, e, vars, live) != Failed(NonVariable)
    decreases e
  {
    match e
    case Un(_, e1) => TreesAssignToVariables(ar, e1);
    case Paren(e1) => TreesAssignToVariables(ar, e1);
    case Cond(c, a, b) =>
      TreesAssignToVariables(ar, c);
      TreesAssignToVariables(ar, a);
      TreesAssignToVariables(ar, b);
      forall vars, live ensures Eval(ar, e, vars, live) != Failed(NonVariable) {
        EvalCond(ar, c, a, b, vars, live);
      }
    case Assign(_, e1) => TreesAssignToVariables(ar, e1);
    case OpAssign(_, _, e1) => TreesAssignToVariables(ar, e1);
    case Pow(a, b) => TreesAssignToVariables(ar, a); TreesAssignToVariables(ar, b);
    case Bin(_, a, b) => TreesAssignToVariables(ar, a); TreesAssignToVariables(ar, b);
    case Comma(a, b) => TreesAssignToVariables(ar, a); TreesAssignToVariables(ar, b);
    case And(a, b) => TreesAssignToVariables(ar, a); TreesAssignToVariables(ar, b);
    case Or(a, b) => TreesAssignToVariables(ar, a); TreesAssignToVariables(ar, b);
    case _ =>
  }

  /** An assignment behind an operand is rejected exactly when the operand, with the name in front of `=` read
      as zero, evaluates without error, and it is a `&&`, `||` or `?:` or its last token is no name of its own. */
  lemma RejectedIff(ar: Arith, e: Expr, t: Token, r: Expr, vars: Store)
    requires IsAssignment(t)
    ensures Evaluate(ar, Print(e, 2) + ([t] + Print(r, 1)), vars) == Failed(NonVariable)
       <==> Eval(ar, Operand(e, 2, t), vars, true).Done? && (Level(e) <= 4 || !EndsInName(Print(e, 2)))
  {
    hide Evaluate, Print, Eval, Zeroed, EndsInName;
    AssignmentBehindOperand(ar, e, t, r, vars);
    TreesAssignToVariables(ar, Operand(e, 2, t));
    TreesAssignToVariables(ar, r);
  }

  /** Between two names: `x + y = v` binds y and has the value v, whatever x is, and so for every operator but
      `/` and `%`, which divide by the zero that y is read as. `x + y += v` adds v to the sum and binds y. */
  lemma AssignmentBehindOperator(ar: Arith, op: BinOp, x: string, y: string, v: int, vars: Store)
    ensures Evaluate(ar, [TStr(x), TBin(op), TStr(y), TEq, TNum(v)], vars)
         == if op.Div? || op.Mod? then Failed(DivisionByZero) else Done(v, vars[y := v])
    ensures var w := ar.bin(Plus, ar.bin(Plus, Lookup(vars, x), Lookup(vars, y)), v);
      Evaluate(ar, [TStr(x), TBin(Plus), TStr(y), TOpAssign(Plus), TNum(v)], vars) == Done(w, vars[y := w])
  {
    hide Evaluate, Print, Eval;
    Names(ar, Bin(op, Var(x), Var(y)), x, TBin(op), y, vars);
    Names(ar, Bin(Plus, Var(x), Var(y)), x, TBin(Plus), y, vars);
    Behind(ar, Bin(op, Var(x), Var(y)), [TStr(x), TBin(op), TStr(y)], TEq, v,
      [TStr(x), TBin(op), TStr(y), TEq, TNum(v)], vars);
    Behind(ar, Bin(Plus, Var(x), Var(y)), [TStr(x), TBin(Plus), TStr(y)], TOpAssign(Plus), v,
      [TStr(x), TBin(Plus), TStr(y), TOpAssign(Plus), TNum(v)], vars);
  }

  /** `x + y = z + w = v` binds both y and w. */
  lemma SumsInChain(ar: Arith, x: string, y: string, z: string, w: string, v: int, vars: Store)
    ensures Evaluate(ar, [TStr(x), TBin(Plus), TStr(y), TEq, TStr(z), TBin(Plus), TStr(w), TEq, TNum(v)], vars)
         == Done(v, vars[w := v][y := v])
  {
    hide Evaluate, Print, Eval, Apply;
    var first, second := Link(Bin(Plus, Var(x), Var(y)), TEq), Link(Bin(Plus, Var(z), Var(w)), TEq);
    ChainEvaluates(ar, [first, second], Lit(v), vars);
    Names(ar, first.operand, x, TBin(Plus), y, vars);
    Names(ar, second.operand, z, TBin(Plus), w, vars);
    PlusApplies(ar, Lookup(vars, x));
    PlusApplies(ar, Lookup(vars, z));
    LiteralEnd(ar, v, vars);
    assert [first, second][1..] == [second] && [second][1..] == [];
    assert ChainTokens([second], Lit(v)) == [TStr(z), TBin(Plus), TStr(w), TEq, TNum(v)];
    assert ChainTokens([first, second], Lit(v))
        == [TStr(x), TBin(Plus), TStr(y), TEq, TStr(z), TBin(Plus), TStr(w), TEq, TNum(v)];
    assert ChainValue(ar, [second], Lit(v), vars, true) == Done(v, vars[w := v]);
  }

  lemma PlusApplies(ar: Arith, a: int)
    ensures Apply(ar, Plus, a, 0).Defined?
  {
  }

  lemma LiteralEnd(ar: Arith, v: int, vars: Store)
    ensures Print(Lit(v), 1) == [TNum(v)] && Eval(ar, Lit(v), vars, true) == Done(v, vars)
  {
  }

  /** The logical operators, the conditional and the increments reject it. */
  lemma AssignmentRejected(ar: Arith, x: string, y: string, z: string, v: int, vars: Store)
    ensures Evaluate(ar, [TStr(x), TLand, TStr(y), TEq, TNum(v)], vars) == Failed(NonVariable)
    ensures Evaluate(ar, [TStr(x), TLor, TStr(y), TEq, TNum(v)], vars) == Failed(NonVariable)
    ensures Evaluate(ar, [TStr(z), TQues, TStr(x), TCol, TStr(y), TEq, TNum(v)], vars) == Failed(NonVariable)
    ensures Evaluate(ar, [TPreInc, TStr(x), TEq, TNum(v)], vars) == Failed(NonVariable)
  {
    hide Evaluate, Print, Eval;
    Names(ar, And(Var(x), Var(y)), x, TLand, y, vars);
    Names(ar, Or(Var(x), Var(y)), x, TLor, y, vars);
    NamesCond(ar, z, x, y, vars);
    NameIncremented(ar, x, vars);
    Behind(ar, And(Var(x), Var(y)), [TStr(x), TLand, TStr(y)], TEq, v,
      [TStr(x), TLand, TStr(y), TEq, TNum(v)], vars);
    Behind(ar, Or(Var(x), Var(y)), [TStr(x), TLor, TStr(y)], TEq, v,
      [TStr(x), TLor, TStr(y), TEq, TNum(v)], vars);
    Behind(ar, Cond(Var(z), Var(x), Var(y)), [TStr(z), TQues, TStr(x), TCol, TStr(y)], TEq, v,
      [TStr(z), TQues, TStr(x), TCol, TStr(y), TEq, TNum(v)], vars);
    Behind(ar, PreInc(x), [TPreInc, TStr(x)], TEq, v,
      [TPreInc, TStr(x), TEq, TNum(v)], vars);
  }

  /** A literal right side. */
  lemma Behind(ar: Arith, e: Expr, tokens: seq<Token>, t: Token, v: int, line: seq<Token>, vars: Store)
    requires IsAssignment(t) && Print(e, 2) == tokens && line == tokens + [t, TNum(v)]
    ensures Evaluate(ar, line, vars) == Answer(ar, e, t, Lit(v), vars)
    ensures forall vars1 :: Eval(ar, Lit(v), vars1, true) == Done(v, vars1)
  {
    AssignmentBehindOperand(ar, e, t, Lit(v), vars);
    assert Print(Lit(v), 1) == [TNum(v)];
    assert tokens + ([t] + [TNum(v)]) == tokens + [t, TNum(v)];
  }

  lemma PrintedVar(x: string, k: nat)
    requires k <= 15
    ensures Print(Var(x), k) == [TStr(x)]
  {
  }

  /** Two names joined by an operator, as printed and as an operand. */
  lemma Names(ar: Arith, e: Expr, x: string, t: Token, y: string, vars: Store)
    requires (t.TBin? && e == Bin(t.op, Var(x), Var(y))) || (t == TLand && e == And(Var(x), Var(y)))
          || (t == TLor && e == Or(Var(x), Var(y)))
    ensures Print(e, 2) == [TStr(x), t, TStr(y)]
    ensures e.Bin? ==>
      && Eval(ar, e, vars, true) == Finish(Apply(ar, e.op, Lookup(vars, x), Lookup(vars, y)), vars)
      && Eval(ar, Zeroed(e, 2), vars, true) == Finish(Apply(ar, e.op, Lookup(vars, x), 0), vars)
    ensures Eval(ar, Zeroed(e, 2), vars, true).Done? || e.Bin?
  {
    var k := Level(e);
    PrintedVar(x, k);
    PrintedVar(y, k + 1);
    assert Zeroed(Var(y), k + 1) == Lit(0);
  }

  lemma NamesCond(ar: Arith, z: string, x: string, y: string, vars: Store)
    ensures Print(Cond(Var(z), Var(x), Var(y)), 2) == [TStr(z), TQues, TStr(x), TCol, TStr(y)]
    ensures Eval(ar, Zeroed(Cond(Var(z), Var(x), Var(y)), 2), vars, true).Done?
  {
    PrintedVar(z, 3);
    PrintedVar(x, 0);
    PrintedVar(y, 2);
    assert Zeroed(Var(y), 2) == Lit(0);
    EvalCond(ar, Var(z), Var(x), Lit(0), vars, true);
  }

  lemma NameIncremented(ar: Arith, x: string, vars: Store)
    ensures Print(PreInc(x), 2) == [TPreInc, TStr(x)] && Eval(ar, Zeroed(PreInc(x), 2), vars, true).Done?
  {
  }

  // ---------------------------------------------------------------- grouping

  lemma Grouped(ar: Arith, e: Expr, tokens: seq<Token>, vars: Store)
    requires Body(e) == tokens
    ensures Evaluate(ar, tokens, vars) == Eval(ar, e, vars, true)
  {
    assert Print(e, 0) == Body(e);
    PrintedTreeEvaluates(ar, e, vars);
  }

  /** For all operands: `**` groups to the right, and every prefix operator binds tighter. */
  lemma PowersGroupRight(ar: Arith, a: Expr, b: Expr, c: Expr, op: UnOp, vars: Store)
    ensures Evaluate(ar, Print(a, 14) + ([TPower] + (Print(b, 14) + ([TPower] + Print(c, 13)))), vars)
         == Eval(ar, Pow(a, Pow(b, c)), vars, true)
    ensures Evaluate(ar, ([UnaryToken(op)] + Print(a, 14)) + ([TPower] + Print(b, 13)), vars)
         == Eval(ar, Pow(Un(op, a), b), vars, true)
  {
    hide Evaluate, Eval;
    PrintedBare(Pow(b, c), 13);
    PrintedBare(Un(op, a), 14);
    Grouped(ar, Pow(a, Pow(b, c)), Print(a, 14) + ([TPower] + (Print(b, 14) + ([TPower] + Print(c, 13)))), vars);
    Grouped(ar, Pow(Un(op, a), b), ([UnaryToken(op)] + Print(a, 14)) + ([TPower] + Print(b, 13)), vars);
  }

  /** For all operands and every two binary operators of one level: to the left. */
  lemma OperatorsGroupLeft(ar: Arith, op: BinOp, op2: BinOp, a: Expr, b: Expr, c: Expr, vars: Store)
    requires LevelOf(op) == LevelOf(op2)
    ensures var k := LevelOf(op);
      Evaluate(ar, (Print(a, k) + ([TBin(op)] + Print(b, k + 1))) + ([TBin(op2)] + Print(c, k + 1)), vars)
        == Eval(ar, Bin(op2, Bin(op, a, b), c), vars, true)
  {
    hide Evaluate, Eval;
    var k := LevelOf(op);
    PrintedBare(Bin(op, a, b), k);
    Grouped(ar, Bin(op2, Bin(op, a, b), c),
      (Print(a, k) + ([TBin(op)] + Print(b, k + 1))) + ([TBin(op2)] + Print(c, k + 1)), vars);
  }

  /** For all operands: `&&` and `||` to the left, the conditional to the right. */
  lemma ConditionsGroup(ar: Arith, c: Expr, a: Expr, d: Expr, b: Expr, e: Expr, vars: Store)
    ensures Evaluate(ar, (Print(a, 4) + ([TLand] + Print(b, 5))) + ([TLand] + Print(c, 5)), vars)
         == Eval(ar, And(And(a, b), c), vars, true)
    ensures Evaluate(ar, (Print(a, 3) + ([TLor] + Print(b, 4))) + ([TLor] + Print(c, 4)), vars)
         == Eval(ar, Or(Or(a, b), c), vars, true)
    ensures var inner := Print(d, 3) + ([TQues] + (Print(b, 0) + ([TCol] + Print(e, 2))));
      Evaluate(ar, Print(c, 3) + ([TQues] + (Print(a, 0) + ([TCol] + inner))), vars)
        == Eval(ar, Cond(c, a, Cond(d, b, e)), vars, true)
  {
    hide Evaluate, Eval;
    PrintedBare(And(a, b), 4);
    PrintedBare(Or(a, b), 3);
    PrintedBare(Cond(d, b, e), 2);
    Grouped(ar, And(And(a, b), c), (Print(a, 4) + ([TLand] + Print(b, 5))) + ([TLand] + Print(c, 5)), vars);
    Grouped(ar, Or(Or(a, b), c), (Print(a, 3) + ([TLor] + Print(b, 4))) + ([TLor] + Print(c, 4)), vars);
    var inner := Print(d, 3) + ([TQues] + (Print(b, 0) + ([TCol] + Print(e, 2))));
    Grouped(ar, Cond(c, a, Cond(d, b, e)), Print(c, 3) + ([TQues] + (Print(a, 0) + ([TCol] + inner))), vars);
  }

  /** For all right sides: assignments of either kind group to the right. */
  lemma AssignmentsGroupRight(ar: Arith, x: string, y: string, op: BinOp, op2: BinOp, e: Expr, vars: Store)
    ensures Evaluate(ar, [TStr(x), TEq] + ([TStr(y), TEq] + Print(e, 1)), vars)
         == Eval(ar, Assign(x, Assign(y, e)), vars, true)
    ensures Evaluate(ar, [TStr(x), TOpAssign(op)] + ([TStr(y), TOpAssign(op2)] + Print(e, 1)), vars)
         == Eval(ar, OpAssign(x, op, OpAssign(y, op2, e)), vars, true)
  {
    hide Evaluate, Eval;
    PrintedBare(Assign(y, e), 1);
    PrintedBare(OpAssign(y, op2, e), 1);
    Grouped(ar, Assign(x, Assign(y, e)), [TStr(x), TEq] + ([TStr(y), TEq] + Print(e, 1)), vars);
    Grouped(ar, OpAssign(x, op, OpAssign(y, op2, e)),
      [TStr(x), TOpAssign(op)] + ([TStr(y), TOpAssign(op2)] + Print(e, 1)), vars);
  }
}
