/** The evaluator computes the meaning of every expression tree from its printed tokens. */
module ExprCorrect {
  import opened ExprMachine
  import opened ExprTrees

  function Head(tokens: seq<Token>): Token {
    if tokens == [] then TEnd else tokens[0]
  }

  /** A prefix increment: the name behind it is always looked up. */
  predicate IsIncrement(t: Token) {
    t.TPreInc? || t.TPreDec?
  }

  /** `tokens` are about to be read: the first is current, with its value and name loaded. The value of a name
      in front of `=` is not looked up and counts as zero. */
  ghost predicate Loaded(s: State, tokens: seq<Token>) {
    && tokens != [] && !IsIncrement(s.last)
    && s.cur == tokens[0] && s.rest == tokens[1..]
    && (tokens[0].TNum? ==> s.tokval == tokens[0].value)
    && (tokens[0].TStr? ==>
          && s.tokstr == tokens[0].name
          && s.tokval == if Head(tokens[1..]) == TEq then 0 else Lookup(s.vars, tokens[0].name))
  }

  function Raised(noeval: nat, skip: bool): nat {
    if skip then noeval + 1 else noeval
  }

  /** The machine has come to `tail`, with the variables `vars`. */
  ghost predicate CameTo(s: State, tail: seq<Token>, vars: Store, noeval: nat) {
    && s.cur == Head(tail) && s.rest == (if tail == [] then [] else tail[1..])
    && s.vars == vars && s.noeval == noeval && !IsIncrement(s.last)
  }

  lemma ReadLoads(s: State)
    requires s.rest != [] && !IsIncrement(s.last) && !IsIncrement(s.cur)
    ensures Loaded(ReadTok(s), s.rest)
  {
  }

  lemma ReadComes(s: State)
    requires !IsIncrement(s.cur)
    ensures CameTo(ReadTok(s), s.rest, s.vars, s.noeval)
  {
  }

  /** The production whose operator a token is, plus one; zero for a token that ends an expression. */
  function OperatorRank(t: Token): nat {
    match t
    case TComma => 1
    case TQues => 3
    case TLor => 4
    case TLand => 5
    case TBin(op) => LevelOf(op) + 1
    case TPower => 14
    case _ => 0
  }

  /** A token that may follow a tree printed at level `k`: the end, a closing token, or an operator that
      production `k` or a looser one handles. */
  predicate Follows(k: nat, t: Token) {
    && (t in {TEnd, TRpar, TCol} || OperatorRank(t) > 0)
    && OperatorRank(t) <= k + 1
    && (k == 2 || k == 13 ==> OperatorRank(t) <= k)
  }

  /** A token that ends production `k` and all tighter ones. */
  predicate Stops(k: nat, t: Token) {
    (t in {TEnd, TRpar, TCol} || OperatorRank(t) > 0) && OperatorRank(t) <= k
  }

  lemma TailStops(ar: Arith, k: nat, v: int, s: State)
    requires k <= 13 && Stops(k, s.cur)
    ensures Tail(ar, k, v, s) == Ok(v, s)
  {
  }

  lemma PrintNonEmpty(e: Expr, k: nat)
    ensures Print(e, k) != []
  {
  }

  lemma Regroup(a: seq<Token>, t: Token, b: seq<Token>, tail: seq<Token>)
    ensures (a + ([t] + b)) + tail == a + ([t] + (b + tail))
    ensures ([t] + (b + tail))[0] == t && ([t] + (b + tail))[1..] == b + tail
  {
  }

  /** What parsing a tree at level `k` in front of `tail` means. */
  ghost predicate Parsed(ar: Arith, e: Expr, k: nat, s: State, tail: seq<Token>, s': State)
    requires k <= 15
  {
    match Eval(ar, e, s.vars, s.noeval == 0)
    case Failed(err) => Prod(ar, k, s) == Err(err)
    case Done(v, vars) =>
      && CameTo(s', tail, vars, s.noeval)
      && Prod(ar, k, s) == if k <= 13 then Tail(ar, k, v, s') else Ok(v, s')
  }

  /** A production has given the outcome `out` and come to `tail`. */
  ghost predicate Gave(r: Result, out: Outcome, tail: seq<Token>, noeval: nat, s': State) {
    match out
    case Failed(err) => r == Err(err)
    case Done(v, vars) => r == Ok(v, s') && CameTo(s', tail, vars, noeval)
  }

  /** When the next token ends production `k`, parsing gives the tree's value outright. */
  lemma ParsedWhole(ar: Arith, e: Expr, k: nat, s: State, tail: seq<Token>, s': State)
    requires k <= 15 && Parsed(ar, e, k, s, tail, s') && Stops(k, Head(tail))
    ensures var r := Eval(ar, e, s.vars, s.noeval == 0);
            && (r.Failed? ==> Prod(ar, k, s) == Err(r.error))
            && (r.Done? ==> CameTo(s', tail, r.vars, s.noeval) && Prod(ar, k, s) == Ok(r.value, s'))
  {
    hide Prod, Tail, Eval;
    match Eval(ar, e, s.vars, s.noeval == 0)
    case Failed(_) =>
    case Done(v, _) => if k <= 13 { TailStops(ar, k, v, s'); }
  }

  /** A tree in a place looser than its own level passes through the productions in between. */
  lemma Descends(ar: Arith, e: Expr, k: nat, s: State, tail: seq<Token>, s': State)
    requires k < 15 && Level(e) != k && Loaded(s, Print(e, k) + tail) && Follows(k, Head(tail))
    requires Parsed(ar, e, k + 1, s, tail, s')
    ensures Parsed(ar, e, k, s, tail, s')
  {
    hide Prod, Tail, Eval, CameTo;
    ParsedWhole(ar, e, k + 1, s, tail, s');
    if k == 14 {
      FirstNotUnary(e);
      assert s.cur == Print(e, 15)[0];
    }
    DescendProd(ar, k, s);
  }

  lemma FirstNotUnary(e: Expr)
    requires Level(e) != 14
    ensures Print(e, 15) == Print(e, 14) && Print(e, 15) != [] && !IsUnary(Print(e, 15)[0])
  {
  }

  /** Reading the operand after an operator. */
  lemma ReadOperand(s: State, t: Token, b: Expr, k: nat, tail: seq<Token>, vars: Store, noeval: nat)
    requires CameTo(s, [t] + (Print(b, k) + tail), vars, noeval) && !IsIncrement(t)
    ensures s.cur == t
    ensures Loaded(ReadTok(s), Print(b, k) + tail)
    ensures ReadTok(s).vars == vars && ReadTok(s).noeval == noeval && ReadTok(s).last == t
  {
    hide Print;
    var rest := Print(b, k) + tail;
    assert ([t] + rest)[1..] == rest;
    PrintNonEmpty(b, k);
    ReadLoads(s);
  }

  lemma PrintedBare(e: Expr, k: nat)
    requires k <= Level(e)
    ensures Print(e, k) == Body(e)
  {
  }

  lemma SamePrint(e: Expr, k: nat)
    requires Level(e) != k
    ensures Print(e, k) == Print(e, k + 1)
  {
  }

  lemma ParensPrint(e: Expr)
    ensures Level(e) < 15 ==> Print(e, 15) == [TLpar] + Body(e) + [TRpar]
    ensures Print(Paren(e), 15) == Body(Paren(e)) == [TLpar] + Body(e) + [TRpar]
  {
  }

  lemma ParenParsed(ar: Arith, e: Expr, s: State, tail: seq<Token>, s': State)
    requires Parsed(ar, e, 15, s, tail, s')
    ensures Parsed(ar, Paren(e), 15, s, tail, s')
  {
    hide Prod, CameTo;
  }

  lemma FollowsTighter(k: nat, t: Token)
    requires Follows(k, t) && k < 15
    ensures Follows(k + 1, t)
  {
  }

  lemma {:induction false} Parses(ar: Arith, e: Expr, k: nat, s: State, tail: seq<Token>) returns (s': State)
    requires k <= 15 && Loaded(s, Print(e, k) + tail) && Follows(k, Head(tail))
    ensures Parsed(ar, e, k, s, tail, s')
    decreases e, if Level(e) < k then 1 else 0, 16 - k
  {
    hide Prod, Eval, Print, Body, Loaded, Parsed, Follows;
    if k < 15 && Level(e) != k {
      SamePrint(e, k);
      FollowsTighter(k, Head(tail));
      s' := Parses(ar, e, k + 1, s, tail);
      Descends(ar, e, k, s, tail, s');
    } else if Level(e) < k {
      ParensPrint(e);
      s' := ParsesParens(ar, e, s, tail);
    } else {
      PrintedBare(e, k);
      match e
      case Comma(a, b) => s' := ParsesComma(ar, a, b, s, tail);
      case Assign(x, e1) => s' := ParsesAssign(ar, x, e1, s, tail);
      case OpAssign(x, op, e1) => s' := ParsesOpAssign(ar, x, op, e1, s, tail);
      case Cond(c, a, b) => s' := ParsesCond(ar, c, a, b, s, tail);
      case Or(a, b) => s' := ParsesOr(ar, a, b, s, tail);
      case And(a, b) => s' := ParsesAnd(ar, a, b, s, tail);
      case Bin(op, a, b) => s' := ParsesBin(ar, op, a, b, s, tail);
      case Pow(a, b) => s' := ParsesPow(ar, a, b, s, tail);
      case Un(op, e1) => s' := ParsesUnary(ar, op, e1, s, tail);
      case Paren(e1) =>
        ParensPrint(e1);
        s' := ParsesParens(ar, e1, s, tail);
        ParenParsed(ar, e1, s, tail, s');
      case _ => s' := ParsesPrimary(ar, e, s, tail);
    }
  }

  lemma {:induction false} ParsesParens(ar: Arith, e: Expr, s: State, tail: seq<Token>) returns (s': State)
    requires Loaded(s, ([TLpar] + Body(e) + [TRpar]) + tail)
    ensures Parsed(ar, e, 15, s, tail, s')
    ensures Eval(ar, e, s.vars, s.noeval == 0).Done? ==> s'.last == TRpar
    decreases e, 1, 0
  {
    hide Prod, Eval, Body;
    assert Print(e, 0) == Body(e);
    assert (([TLpar] + Body(e)) + [TRpar]) + tail == [TLpar] + (Print(e, 0) + ([TRpar] + tail));
    ReadOperand(s, TLpar, e, 0, [TRpar] + tail, s.vars, s.noeval);
    var s1 := ReadTok(s);
    var s2 := Parses(ar, e, 0, s1, [TRpar] + tail);
    ParsedWhole(ar, e, 0, s1, [TRpar] + tail, s2);
    s' := ReadTok(s2);
    assert ([TRpar] + tail)[1..] == tail;
    if Eval(ar, e, s1.vars, s1.noeval == 0).Done? {
      ReadComes(s2);
    }
    UnfoldParens(ar, s);
  }

  /** Reading and parsing the operand after an operator token, in front of `tail`. */
  lemma {:induction false} NextOperand(ar: Arith, t: Token, b: Expr, k: nat, s: State, tail: seq<Token>,
                                       vars: Store, noeval: nat, skip: bool)
    returns (s': State)
    requires k <= 13 && CameTo(s, [t] + (Print(b, k) + tail), vars, noeval) && !IsIncrement(t)
    requires Follows(k, Head(tail)) && Stops(k, Head(tail))
    ensures s.cur == t && ReadTok(s).cur !in {TEnd, TCol}
    ensures var s1 := Suppress(ReadTok(s), skip);
            var r := Eval(ar, b, vars, noeval == 0 && !skip);
            && (r.Failed? ==> Prod(ar, k, s1) == Err(r.error))
            && (r.Done? ==>
                  && CameTo(s', tail, r.vars, Raised(noeval, skip))
                  && Prod(ar, k, s1) == Ok(r.value, s'))
    decreases b, 2, 0
  {
    hide Prod, Tail, Print, Eval;
    ReadOperand(s, t, b, k, tail, vars, noeval);
    StartsOperand(b, k, tail);
    var s1 := Suppress(ReadTok(s), skip);
    assert Loaded(s1, Print(b, k) + tail);
    s' := Parses(ar, b, k, s1, tail);
    ParsedWhole(ar, b, k, s1, tail, s');
  }

  /** What an operator makes of its right operand's outcome. */
  function AfterBin(ar: Arith, op: BinOp, v: int, out: Outcome): Outcome {
    if out.Failed? then out else Finish(Apply(ar, op, v, out.value), out.vars)
  }

  lemma {:induction false} EvalBin(ar: Arith, op: BinOp, a: Expr, b: Expr, vars: Store, live: bool)
    ensures var r, ra := Eval(ar, Bin(op, a, b), vars, live), Eval(ar, a, vars, live);
      && (ra.Failed? ==> r == ra)
      && (ra.Done? ==> r == AfterBin(ar, op, ra.value, Eval(ar, b, ra.vars, live)))
  {
    hide Apply, ApplyAssign, Power, Times, UnaryValue, Lookup;
    var ra := Eval(ar, a, vars, live);
    if ra.Done? {
      var rb := Eval(ar, b, ra.vars, live);
    }
  }

  function AfterPow(ar: Arith, v: int, out: Outcome): Outcome {
    if out.Failed? then out else Finish(Power(ar, v, out.value), out.vars)
  }

  lemma {:induction false} EvalPow(ar: Arith, a: Expr, b: Expr, vars: Store, live: bool)
    ensures var r, ra := Eval(ar, Pow(a, b), vars, live), Eval(ar, a, vars, live);
      && (ra.Failed? ==> r == ra)
      && (ra.Done? ==> r == AfterPow(ar, ra.value, Eval(ar, b, ra.vars, live)))
  {
    hide Apply, ApplyAssign, Power, Times, UnaryValue, Lookup;
    var ra := Eval(ar, a, vars, live);
    if ra.Done? {
      var rb := Eval(ar, b, ra.vars, live);
    }
  }

  function AfterOr(v: int, out: Outcome): Outcome {
    if out.Failed? then out else Done(Truth(v != 0 || out.value != 0), out.vars)
  }

  lemma {:induction false} EvalOr(ar: Arith, a: Expr, b: Expr, vars: Store, live: bool)
    ensures var r, ra := Eval(ar, Or(a, b), vars, live), Eval(ar, a, vars, live);
      && (ra.Failed? ==> r == ra)
      && (ra.Done? ==> r == AfterOr(ra.value, Eval(ar, b, ra.vars, live && !(ra.value != 0))))
  {
    hide Apply, ApplyAssign, Power, Times, UnaryValue, Lookup;
    var ra := Eval(ar, a, vars, live);
    if ra.Done? {
      var rb := Eval(ar, b, ra.vars, live && ra.value == 0);
    }
  }

  function AfterAnd(v: int, out: Outcome): Outcome {
    if out.Failed? then out else Done(Truth(v != 0 && out.value != 0), out.vars)
  }

  lemma {:induction false} EvalAnd(ar: Arith, a: Expr, b: Expr, vars: Store, live: bool)
    ensures var r, ra := Eval(ar, And(a, b), vars, live), Eval(ar, a, vars, live);
      && (ra.Failed? ==> r == ra)
      && (ra.Done? ==> r == AfterAnd(ra.value, Eval(ar, b, ra.vars, live && !(ra.value == 0))))
  {
    hide Apply, ApplyAssign, Power, Times, UnaryValue, Lookup;
    var ra := Eval(ar, a, vars, live);
    if ra.Done? {
      var rb := Eval(ar, b, ra.vars, live && ra.value != 0);
    }
  }

  lemma {:induction false} ParsesBin(ar: Arith, op: BinOp, a: Expr, b: Expr, s: State, tail: seq<Token>)
    returns (s': State)
    requires Loaded(s, Body(Bin(op, a, b)) + tail) && Follows(LevelOf(op), Head(tail))
    ensures Parsed(ar, Bin(op, a, b), LevelOf(op), s, tail, s')
    decreases Bin(op, a, b), 0, 0
  {
    hide Prod, Tail, Eval, Print, Loaded, ReadTok, Apply, CameTo;
    var k := LevelOf(op);
    var tailA := [TBin(op)] + (Print(b, k + 1) + tail);
    Regroup(Print(a, k), TBin(op), Print(b, k + 1), tail);
    s' := s;
    var sa := Parses(ar, a, k, s, tailA);
    EvalBin(ar, op, a, b, s.vars, s.noeval == 0);
    var r := Eval(ar, a, s.vars, s.noeval == 0);
    if r.Done? {
      s' := BinRest(ar, op, b, sa, tail, r.value, r.vars, s.noeval);
    }
  }

  lemma {:induction false} BinRest(ar: Arith, op: BinOp, b: Expr, s: State, tail: seq<Token>, v1: int, vars: Store,
                                   noeval: nat)
    returns (s': State)
    requires CameTo(s, [TBin(op)] + (Print(b, LevelOf(op) + 1) + tail), vars, noeval)
    requires Follows(LevelOf(op), Head(tail))
    ensures var k := LevelOf(op);
            var r := Eval(ar, b, vars, noeval == 0);
            && (r.Failed? ==> Tail(ar, k, v1, s) == Err(r.error))
            && (r.Done? ==>
                  var w := Apply(ar, op, v1, r.value);
                  && (w.Undefined? ==> Tail(ar, k, v1, s) == Err(w.error))
                  && (w.Defined? ==> CameTo(s', tail, r.vars, noeval) && Tail(ar, k, v1, s) == Tail(ar, k, w.v, s')))
    decreases b, 3, 0
  {
    hide Prod, Tail, Print, Eval, Apply;
    s' := NextOperand(ar, TBin(op), b, LevelOf(op) + 1, s, tail, vars, noeval, false);
    UnfoldBinary(ar, op, v1, s);
  }

  lemma {:induction false} ParsesComma(ar: Arith, a: Expr, b: Expr, s: State, tail: seq<Token>) returns (s': State)
    requires Loaded(s, Body(Comma(a, b)) + tail) && Follows(0, Head(tail))
    ensures Parsed(ar, Comma(a, b), 0, s, tail, s')
    decreases Comma(a, b), 0, 0
  {
    hide Prod, Tail, Print;
    Regroup(Print(a, 0), TComma, Print(b, 1), tail);
    s' := s;
    var sa := Parses(ar, a, 0, s, [TComma] + (Print(b, 1) + tail));
    match Eval(ar, a, s.vars, s.noeval == 0)
    case Failed(_) =>
    case Done(v1, vars1) =>
      ReadOperand(sa, TComma, b, 1, tail, vars1, s.noeval);
      var s1 := ReadTok(sa);
      s' := Parses(ar, b, 1, s1, tail);
      ParsedWhole(ar, b, 1, s1, tail, s');
      UnfoldComma(ar, v1, sa);
  }

  /** Suppressing before or after the token is read makes no difference. */
  lemma SuppressEarly(s: State, skip: bool)
    ensures ReadTok(Suppress(s, skip)) == Suppress(ReadTok(s), skip)
  {
    if skip {
      NoevalUnread(s, s.noeval + 1);
    }
  }

  lemma NoevalUnread(s: State, n: nat)
    ensures ReadTok(s.(noeval := n)) == ReadTok(s).(noeval := n)
  {
  }

  lemma {:induction false} ParsesOr(ar: Arith, a: Expr, b: Expr, s: State, tail: seq<Token>) returns (s': State)
    requires Loaded(s, Body(Or(a, b)) + tail) && Follows(3, Head(tail))
    ensures Parsed(ar, Or(a, b), 3, s, tail, s')
    decreases Or(a, b), 0, 0
  {
    hide Prod, Tail, Eval, Print, Loaded, ReadTok, CameTo, Suppress, AfterOr, Raised;
    Regroup(Print(a, 3), TLor, Print(b, 4), tail);
    s' := s;
    var sa := Parses(ar, a, 3, s, [TLor] + (Print(b, 4) + tail));
    EvalOr(ar, a, b, s.vars, s.noeval == 0);
    var r := Eval(ar, a, s.vars, s.noeval == 0);
    if r.Done? {
      var skip := r.value != 0;
      var sb := NextOperand(ar, TLor, b, 4, sa, tail, r.vars, s.noeval, skip);
      s' := OrEnds(ar, r.value, sa, Eval(ar, b, r.vars, s.noeval == 0 && !skip), tail, s.noeval, sb);
    }
  }

  /** The end of `||`, its right side having been parsed. */
  lemma OrEnds(ar: Arith, v: int, s: State, out: Outcome, tail: seq<Token>, noeval: nat, sb: State)
    returns (s': State)
    requires s.cur == TLor
    requires Gave(Prod(ar, 4, Suppress(ReadTok(s), v != 0)), out, tail, Raised(noeval, v != 0), sb)
    ensures var o := AfterOr(v, out);
            && (o.Failed? ==> Tail(ar, 3, v, s) == Err(o.error))
            && (o.Done? ==> CameTo(s', tail, o.vars, noeval) && Tail(ar, 3, v, s) == Tail(ar, 3, o.value, s'))
  {
    hide Prod, Tail, ReadTok, CameTo;
    SuppressEarly(s, v != 0);
    UnfoldLor(ar, v, s);
    s' := s;
    if out.Done? {
      ResumeComes(sb, tail, out.vars, noeval, v != 0);
      s' := Resume(sb, v != 0).(last := TLor);
    }
  }

  lemma {:induction false} ParsesAnd(ar: Arith, a: Expr, b: Expr, s: State, tail: seq<Token>) returns (s': State)
    requires Loaded(s, Body(And(a, b)) + tail) && Follows(4, Head(tail))
    ensures Parsed(ar, And(a, b), 4, s, tail, s')
    decreases And(a, b), 0, 0
  {
    hide Prod, Tail, Eval, Print, Loaded, ReadTok, CameTo, Suppress, AfterAnd, Raised;
    Regroup(Print(a, 4), TLand, Print(b, 5), tail);
    s' := s;
    var sa := Parses(ar, a, 4, s, [TLand] + (Print(b, 5) + tail));
    EvalAnd(ar, a, b, s.vars, s.noeval == 0);
    var r := Eval(ar, a, s.vars, s.noeval == 0);
    if r.Done? {
      var skip := r.value == 0;
      var sb := NextOperand(ar, TLand, b, 5, sa, tail, r.vars, s.noeval, skip);
      s' := AndEnds(ar, r.value, sa, Eval(ar, b, r.vars, s.noeval == 0 && !skip), tail, s.noeval, sb);
    }
  }

  /** The end of `&&`, its right side having been parsed. */
  lemma AndEnds(ar: Arith, v: int, s: State, out: Outcome, tail: seq<Token>, noeval: nat, sb: State)
    returns (s': State)
    requires s.cur == TLand
    requires Gave(Prod(ar, 5, Suppress(ReadTok(s), v == 0)), out, tail, Raised(noeval, v == 0), sb)
    ensures var o := AfterAnd(v, out);
            && (o.Failed? ==> Tail(ar, 4, v, s) == Err(o.error))
            && (o.Done? ==> CameTo(s', tail, o.vars, noeval) && Tail(ar, 4, v, s) == Tail(ar, 4, o.value, s'))
  {
    hide Prod, Tail, ReadTok, CameTo;
    SuppressEarly(s, v == 0);
    UnfoldLand(ar, v, s);
    s' := s;
    if out.Done? {
      ResumeComes(sb, tail, out.vars, noeval, v == 0);
      s' := Resume(sb, v == 0).(last := TLand);
    }
  }

  lemma {:induction false} ParsesPow(ar: Arith, a: Expr, b: Expr, s: State, tail: seq<Token>) returns (s': State)
    requires Loaded(s, Body(Pow(a, b)) + tail) && Follows(13, Head(tail))
    ensures Parsed(ar, Pow(a, b), 13, s, tail, s')
    decreases Pow(a, b), 0, 0
  {
    hide Prod, Tail, Eval, Print, Loaded, ReadTok, CameTo, Power;
    Regroup(Print(a, 14), TPower, Print(b, 13), tail);
    s' := s;
    var sa := Parses(ar, a, 14, s, [TPower] + (Print(b, 13) + tail));
    DescendProd(ar, 13, s);
    EvalPow(ar, a, b, s.vars, s.noeval == 0);
    var r := Eval(ar, a, s.vars, s.noeval == 0);
    if r.Done? {
      s' := NextOperand(ar, TPower, b, 13, sa, tail, r.vars, s.noeval, false);
      UnfoldPower(ar, r.value, sa);
      PowerOfZero(ar, r.value);
      var rb := Eval(ar, b, r.vars, s.noeval == 0);
      if rb.Done? {
        CameStops(ar, 13, 1, s', tail, rb.vars, s.noeval);
      }
    }
  }

  lemma PowerOfZero(ar: Arith, a: int)
    ensures Power(ar, a, 0) == Defined(1)
  {
  }

  lemma {:induction false} ParsesUnary(ar: Arith, op: UnOp, e1: Expr, s: State, tail: seq<Token>)
    returns (s': State)
    requires Loaded(s, Body(Un(op, e1)) + tail) && Follows(14, Head(tail))
    ensures Parsed(ar, Un(op, e1), 14, s, tail, s')
    decreases Un(op, e1), 0, 0
  {
    hide Prod, Print;
    var t := UnaryToken(op);
    assert ([t] + Print(e1, 14)) + tail == [t] + (Print(e1, 14) + tail);
    ReadOperand(s, t, e1, 14, tail, s.vars, s.noeval);
    var s1 := ReadTok(s);
    s' := Parses(ar, e1, 14, s1, tail);
    UnfoldUnary(ar, s);
  }

  lemma {:induction false} EvalCond(ar: Arith, c: Expr, a: Expr, b: Expr, vars: Store, live: bool)
    ensures var r, rc := Eval(ar, Cond(c, a, b), vars, live), Eval(ar, c, vars, live);
            && (rc.Failed? ==> r == rc)
            && (rc.Done? ==>
                  var ra := Eval(ar, a, rc.vars, live && rc.value != 0);
                  && (ra.Failed? ==> r == ra)
                  && (ra.Done? ==>
                        var rb := Eval(ar, b, ra.vars, live && rc.value == 0);
                        r == if rb.Failed? then rb else Done(if rc.value != 0 then ra.value else rb.value, rb.vars)))
  {
    hide Apply, ApplyAssign, Power, Times, UnaryValue, Lookup;
    var rc := Eval(ar, c, vars, live);
    if rc.Done? {
      var ra := Eval(ar, a, rc.vars, live && rc.value != 0);
      if ra.Done? {
        var rb := Eval(ar, b, ra.vars, live && rc.value == 0);
        if rb.Done? {
          assert Eval(ar, Cond(c, a, b), vars, live) == Done(if rc.value != 0 then ra.value else rb.value, rb.vars);
        }
      }
    }
  }

  lemma {:induction false} ParsesCond(ar: Arith, c: Expr, a: Expr, b: Expr, s: State, tail: seq<Token>)
    returns (s': State)
    requires Loaded(s, Body(Cond(c, a, b)) + tail) && Follows(2, Head(tail))
    ensures Parsed(ar, Cond(c, a, b), 2, s, tail, s')
    decreases Cond(c, a, b), 0, 1
  {
    hide Prod, Tail, Print, Loaded, ReadTok, CameTo, Eval;
    var tailA := [TCol] + (Print(b, 2) + tail);
    Regroup(Print(a, 0), TCol, Print(b, 2), tail);
    Regroup(Print(c, 3), TQues, Print(a, 0) + ([TCol] + Print(b, 2)), tail);
    s' := s;
    var sc := Parses(ar, c, 3, s, [TQues] + (Print(a, 0) + tailA));
    ParsedWhole(ar, c, 3, s, [TQues] + (Print(a, 0) + tailA), sc);
    DescendProd(ar, 2, s);
    EvalCond(ar, c, a, b, s.vars, s.noeval == 0);
    var r := Eval(ar, c, s.vars, s.noeval == 0);
    if r.Done? {
      s' := CondRest(ar, Cond(c, a, b), sc, tail, r.value, r.vars, s.noeval);
      var r' := Eval(ar, Cond(c, a, b), s.vars, s.noeval == 0);
      if r'.Done? {
        CameStops(ar, 2, r'.value, s', tail, r'.vars, s.noeval);
      }
    }
  }

  lemma CameStops(ar: Arith, k: nat, v: int, s: State, tail: seq<Token>, vars: Store, noeval: nat)
    requires k <= 13 && CameTo(s, tail, vars, noeval) && Stops(k, Head(tail))
    ensures Tail(ar, k, v, s) == Ok(v, s)
  {
    TailStops(ar, k, v, s);
  }

  /** Both branches of a conditional, of which only one is live. */
  lemma {:induction false} CondRest(ar: Arith, e: Expr, s: State, tail: seq<Token>, c: int, vars: Store, noeval: nat)
    returns (s': State)
    requires e.Cond? && Follows(2, Head(tail))
    requires CameTo(s, [TQues] + (Print(e.a, 0) + ([TCol] + (Print(e.b, 2) + tail))), vars, noeval)
    ensures var r1 := Eval(ar, e.a, vars, noeval == 0 && c != 0);
            && (r1.Failed? ==> Tail(ar, 2, c, s) == Err(r1.error))
            && (r1.Done? ==>
                  var r2 := Eval(ar, e.b, r1.vars, noeval == 0 && c == 0);
                  && (r2.Failed? ==> Tail(ar, 2, c, s) == Err(r2.error))
                  && (r2.Done? ==>
                        && CameTo(s', tail, r2.vars, noeval)
                        && Tail(ar, 2, c, s) == Ok(if c != 0 then r1.value else r2.value, s')))
    decreases e, 0, 0
  {
    hide Prod, Tail, Print, Eval, ReadTok, CameTo;
    var tailA := [TCol] + (Print(e.b, 2) + tail);
    var sa := NextOperand(ar, TQues, e.a, 0, s, tailA, vars, noeval, c == 0);
    s' := s;
    var r1 := Eval(ar, e.a, vars, noeval == 0 && c != 0);
    if r1.Failed? {
      UnfoldCondFails(ar, c, s, r1.error);
    } else {
      s' := CondLast(ar, e.b, s, r1.value, sa, tail, c, r1.vars, noeval);
    }
  }

  /** The second branch, behind the first, of value `v1`. */
  lemma {:induction false} CondLast(ar: Arith, b: Expr, s: State, v1: int, sa: State, tail: seq<Token>, c: int,
                                    vars: Store, noeval: nat)
    returns (s': State)
    requires s.cur == TQues && ReadTok(s).cur !in {TEnd, TCol} && Follows(2, Head(tail))
    requires Prod(ar, 0, Suppress(ReadTok(s), c == 0)) == Ok(v1, sa)
    requires CameTo(sa, [TCol] + (Print(b, 2) + tail), vars, Raised(noeval, c == 0))
    ensures var r2 := Eval(ar, b, vars, noeval == 0 && c == 0);
            && (r2.Failed? ==> Tail(ar, 2, c, s) == Err(r2.error))
            && (r2.Done? ==>
                  && CameTo(s', tail, r2.vars, noeval)
                  && Tail(ar, 2, c, s) == Ok(if c != 0 then v1 else r2.value, s'))
    decreases b, 3, 0
  {
    hide Prod, Tail, Print, Eval, ReadTok, CameTo;
    ResumeComes(sa, [TCol] + (Print(b, 2) + tail), vars, noeval, c == 0);
    var sb := NextOperand(ar, TCol, b, 2, Resume(sa, c == 0), tail, vars, noeval, c != 0);
    UnfoldCond(ar, c, s, v1, sa);
    s' := s;
    var r2 := Eval(ar, b, vars, noeval == 0 && c == 0);
    if r2.Done? {
      s' := Resume(sb, c != 0).(last := TCond);
      ResumeComes(sb, tail, r2.vars, noeval, c != 0);
    }
  }

  lemma ResumeComes(s: State, tail: seq<Token>, vars: Store, noeval: nat, skip: bool)
    requires CameTo(s, tail, vars, Raised(noeval, skip))
    ensures (skip ==> s.noeval > 0) && CameTo(Resume(s, skip), tail, vars, noeval)
    ensures forall mark :: mark in {TLor, TLand, TCond} ==> CameTo(Resume(s, skip).(last := mark), tail, vars, noeval)
  {
  }

  /** A printed tree never starts with a token that ends an expression. */
  lemma {:induction false} StartsOperand(e: Expr, k: nat, tail: seq<Token>)
    ensures Print(e, k) + tail != [] && (Print(e, k) + tail)[0] !in {TEnd, TCol}
    decreases e
  {
    PrintNonEmpty(e, k);
    assert (Print(e, k) + tail)[0] == Print(e, k)[0];
    FirstToken(e, k);
  }

  lemma {:induction false} FirstToken(e: Expr, k: nat)
    ensures Print(e, k) != [] && Print(e, k)[0] !in {TEnd, TCol}
    decreases e
  {
    match e
    case Pow(a, _) => FirstToken(a, 14);
    case Bin(op, a, _) => FirstToken(a, LevelOf(op));
    case And(a, _) => FirstToken(a, 4);
    case Or(a, _) => FirstToken(a, 3);
    case Cond(c, _, _) => FirstToken(c, 3);
    case Comma(a, _) => FirstToken(a, 0);
    case _ =>
  }

  // ---------------------------------------------------------------- names, literals and assignment

  /** A name in front of an assignment passes up unchanged to production 2, and the machine remembers it. */
  lemma {:induction false} NamePasses(ar: Arith, k: nat, s: State)
    requires 2 <= k <= 15 && s.cur.TStr? && s.rest != [] && (s.rest[0].TEq? || s.rest[0].TOpAssign?)
    ensures Prod(ar, k, s) == Ok(s.tokval, ReadTok(s))
    decreases 15 - k
  {
    if k < 15 {
      NamePasses(ar, k + 1, s);
      DescendProd(ar, k, s);
    }
  }

  lemma AtAssignment(s: State, x: string, t: Token, rest: seq<Token>)
    requires t.TEq? || t.TOpAssign?
    requires Loaded(s, [TStr(x), t] + rest)
    ensures s.cur == TStr(x) && s.rest == [t] + rest
    ensures var s1 := ReadTok(s);
            && s1.last == TStr(x) && s1.tokstr == x && CameTo(s1, [t] + rest, s.vars, s.noeval)
    ensures t.TOpAssign? ==> s.tokval == Lookup(s.vars, x)
  {
    assert ([TStr(x), t] + rest)[1..] == [t] + rest;
  }

  predicate IsAssignment(t: Token) {
    t.TEq? || t.TOpAssign?
  }

  /** What an assignment makes of its right side's outcome: it is combined with the value `v` in front if `t` says
      so, and bound to `x`. */
  function Bound(ar: Arith, t: Token, v: int, x: string, out: Outcome, live: bool): Outcome
    requires IsAssignment(t)
  {
    match out
    case Failed(err) => Failed(err)
    case Done(rhs, vars) =>
      match (if t.TEq? then Defined(rhs) else ApplyAssign(ar, t.op, v, rhs))
      case Undefined(err) => Failed(err)
      case Defined(w) => Done(w, Set(vars, x, w, live))
  }

  /** The right side is evaluated and bound. */
  function Assigned(ar: Arith, t: Token, r: Expr, v: int, x: string, vars: Store, live: bool): Outcome
    requires IsAssignment(t)
  {
    Bound(ar, t, v, x, Eval(ar, r, vars, live), live)
  }

  lemma {:induction false} EvalAssign(ar: Arith, x: string, op: BinOp, e1: Expr, v: int, vars: Store, live: bool)
    ensures Eval(ar, Assign(x, e1), vars, live) == Assigned(ar, TEq, e1, v, x, vars, live)
    ensures Eval(ar, OpAssign(x, op, e1), vars, live)
         == Assigned(ar, TOpAssign(op), e1, Lookup(vars, x), x, vars, live)
  {
    hide Apply, Power, Times, UnaryValue, Lookup;
  }

  /** The end of an assignment whose name the machine remembers, the right side having been parsed. */
  lemma AssignEnds(ar: Arith, t: Token, s: State, v: int, out: Outcome, tail: seq<Token>, noeval: nat, sb: State)
    returns (s': State)
    requires IsAssignment(t) && s.cur == t && s.last.TStr?
    requires Gave(Prod(ar, 1, ReadTok(s)), out, tail, noeval, sb)
    ensures Gave(Tail(ar, 1, v, s), Bound(ar, t, v, s.tokstr, out, noeval == 0), tail, noeval, s')
  {
    hide Prod, Tail, ReadTok, ApplyAssign;
    UnfoldAssign(ar, v, s);
    s' := s;
    if out.Done? {
      var w := if t.TEq? then Defined(out.value) else ApplyAssign(ar, t.op, v, out.value);
      if w.Defined? {
        s' := Bind(sb, s.tokstr, w.v).(tokstr := "");
      }
    }
  }

  /** The right side of an assignment whose name the machine remembers. */
  lemma {:induction false} AssignRest(ar: Arith, t: Token, r: Expr, s: State, tail: seq<Token>, v: int, vars: Store,
                                      noeval: nat)
    returns (s': State)
    requires IsAssignment(t) && CameTo(s, [t] + (Print(r, 1) + tail), vars, noeval) && s.last.TStr?
    requires Follows(1, Head(tail))
    ensures Gave(Tail(ar, 1, v, s), Assigned(ar, t, r, v, s.tokstr, vars, noeval == 0), tail, noeval, s')
    decreases r, 3, 0
  {
    hide Prod, Tail, Print, Eval, ReadTok, Bound, CameTo;
    var sb := NextOperand(ar, t, r, 1, s, tail, vars, noeval, false);
    s' := AssignEnds(ar, t, s, v, Eval(ar, r, vars, noeval == 0), tail, noeval, sb);
  }

  lemma {:induction false} ParsesAssign(ar: Arith, x: string, e1: Expr, s: State, tail: seq<Token>)
    returns (s': State)
    requires Loaded(s, Body(Assign(x, e1)) + tail) && Follows(1, Head(tail))
    ensures Parsed(ar, Assign(x, e1), 1, s, tail, s')
    decreases Assign(x, e1), 0, 0
  {
    hide Prod, Tail, Print, Eval, ReadTok, CameTo, Assigned;
    assert ([TStr(x), TEq] + Print(e1, 1)) + tail == [TStr(x), TEq] + (Print(e1, 1) + tail);
    s' := ParsesAssignment(ar, x, TEq, e1, s, tail);
    EvalAssign(ar, x, Plus, e1, s.tokval, s.vars, s.noeval == 0);
    AssignmentStops(ar, Eval(ar, Assign(x, e1), s.vars, s.noeval == 0), s', tail, s.noeval);
  }

  lemma {:induction false} ParsesOpAssign(ar: Arith, x: string, op: BinOp, e1: Expr, s: State, tail: seq<Token>)
    returns (s': State)
    requires Loaded(s, Body(OpAssign(x, op, e1)) + tail) && Follows(1, Head(tail))
    ensures Parsed(ar, OpAssign(x, op, e1), 1, s, tail, s')
    decreases OpAssign(x, op, e1), 0, 0
  {
    hide Prod, Tail, Print, Eval, ReadTok, CameTo, Assigned;
    assert ([TStr(x), TOpAssign(op)] + Print(e1, 1)) + tail == [TStr(x), TOpAssign(op)] + (Print(e1, 1) + tail);
    s' := ParsesAssignment(ar, x, TOpAssign(op), e1, s, tail);
    EvalAssign(ar, x, op, e1, s.tokval, s.vars, s.noeval == 0);
    AssignmentStops(ar, Eval(ar, OpAssign(x, op, e1), s.vars, s.noeval == 0), s', tail, s.noeval);
  }

  lemma {:induction false} ParsesAssignment(ar: Arith, x: string, t: Token, r: Expr, s: State, tail: seq<Token>)
    returns (s': State)
    requires IsAssignment(t) && Loaded(s, [TStr(x), t] + (Print(r, 1) + tail)) && Follows(1, Head(tail))
    ensures t.TOpAssign? ==> s.tokval == Lookup(s.vars, x)
    ensures Gave(Prod(ar, 1, s), Assigned(ar, t, r, s.tokval, x, s.vars, s.noeval == 0), tail, s.noeval, s')
    decreases r, 4, 0
  {
    hide Prod, Tail, Print, Eval, ReadTok, CameTo, Assigned;
    AtAssignment(s, x, t, Print(r, 1) + tail);
    s' := AssignRest(ar, t, r, ReadTok(s), tail, s.tokval, s.vars, s.noeval);
    NamePasses(ar, 2, s);
    DescendProd(ar, 1, s);
  }

  lemma AssignmentStops(ar: Arith, out: Outcome, s: State, tail: seq<Token>, noeval: nat)
    requires Follows(1, Head(tail)) && (out.Done? ==> CameTo(s, tail, out.vars, noeval))
    ensures out.Done? ==> Tail(ar, 1, out.value, s) == Ok(out.value, s)
  {
    if out.Done? {
      CameStops(ar, 1, out.value, s, tail, out.vars, noeval);
    }
  }

  lemma ParsesLit(ar: Arith, v: int, s: State, tail: seq<Token>) returns (s': State)
    requires Loaded(s, [TNum(v)] + tail)
    ensures Parsed(ar, Lit(v), 15, s, tail, s')
  {
    assert ([TNum(v)] + tail)[1..] == tail;
    s' := ReadTok(s);
  }

  lemma ParsesVar(ar: Arith, x: string, s: State, tail: seq<Token>) returns (s': State)
    requires Loaded(s, [TStr(x)] + tail) && Follows(15, Head(tail))
    ensures Parsed(ar, Var(x), 15, s, tail, s')
  {
    assert ([TStr(x)] + tail)[1..] == tail;
    ReadComes(s.(tokstr := "", noeval := 1));
    s' := ReadTok(s);
  }

  lemma ParsesPrimary(ar: Arith, e: Expr, s: State, tail: seq<Token>) returns (s': State)
    requires Level(e) == 15 && !e.Paren? && Loaded(s, Body(e) + tail) && Follows(15, Head(tail))
    ensures Parsed(ar, e, 15, s, tail, s')
  {
    hide Parsed, Loaded, Follows;
    match e
    case Lit(v) => s' := ParsesLit(ar, v, s, tail);
    case Var(x) => s' := ParsesVar(ar, x, s, tail);
    case PreInc(x) => s' := ParsesPre(ar, e, x, TPreInc, 1, s, tail);
    case PreDec(x) => s' := ParsesPre(ar, e, x, TPreDec, -1, s, tail);
    case PostInc(x) => s' := ParsesPost(ar, e, x, TPostInc, 1, s, tail);
    case PostDec(x) => s' := ParsesPost(ar, e, x, TPostDec, -1, s, tail);
  }

  lemma EvalIncrement(ar: Arith, e: Expr, x: string, d: int, vars: Store, live: bool)
    requires ((e == PreInc(x) || e == PostInc(x)) && d == 1) || ((e == PreDec(x) || e == PostDec(x)) && d == -1)
    ensures var old', new' := Lookup(vars, x), ar.bin(Plus, Lookup(vars, x), d);
      Eval(ar, e, vars, live) == Done(if e.PreInc? || e.PreDec? then new' else old', Set(vars, x, new', live))
  {
  }

  /** The name behind a prefix increment is read and looked up. */
  lemma ReadIncremented(s: State, t: Token, x: string, tail: seq<Token>)
    requires IsIncrement(t) && Loaded(s, [t, TStr(x)] + tail)
    ensures var s1 := ReadTok(s.(last := s.cur));
      && s.cur == t && s1.cur == TStr(x) && s1.tokstr == x && s1.tokval == Lookup(s.vars, x)
      && s1.rest == tail && s1.vars == s.vars && s1.noeval == s.noeval
  {
    assert ([t, TStr(x)] + tail)[1..] == [TStr(x)] + tail;
    assert ([TStr(x)] + tail)[1..] == tail;
  }

  /** A name in front of a postfix increment. */
  lemma ReadIncrement(s: State, t: Token, x: string, tail: seq<Token>)
    requires (t.TPostInc? || t.TPostDec?) && Loaded(s, [TStr(x), t] + tail)
    ensures s.cur == TStr(x) && s.tokstr == x && s.tokval == Lookup(s.vars, x)
    ensures var s1 := ReadTok(s.(tokstr := "", noeval := 1)); s1.cur == t && s1.rest == tail && s1.vars == s.vars
  {
    assert ([TStr(x), t] + tail)[1..] == [t] + tail;
    assert ([t] + tail)[1..] == tail;
  }

  /** The increment binds and leaves a number as the last token. */
  lemma Increments(s: State, x: string, v: int, tail: seq<Token>) returns (s': State)
    requires s.rest == tail
    ensures s' == ReadTok(Bind(s, x, v).(cur := TNum(0)))
    ensures CameTo(s', tail, Set(s.vars, x, v, s.noeval == 0), s.noeval) && s'.last.TNum?
  {
    hide ReadTok;
    s' := ReadTok(Bind(s, x, v).(cur := TNum(0)));
    ReadComes(Bind(s, x, v).(cur := TNum(0)));
  }

  lemma ParsesPre(ar: Arith, e: Expr, x: string, t: Token, d: int, s: State, tail: seq<Token>) returns (s': State)
    requires (e == PreInc(x) && t == TPreInc && d == 1) || (e == PreDec(x) && t == TPreDec && d == -1)
    requires Loaded(s, Body(e) + tail)
    ensures Parsed(ar, e, 15, s, tail, s') && s'.last.TNum?
  {
    hide Prod, Tail, ReadTok, Loaded, Eval, CameTo;
    ReadIncremented(s, t, x, tail);
    EvalIncrement(ar, e, x, d, s.vars, s.noeval == 0);
    var s1 := ReadTok(s.(last := s.cur));
    s' := Increments(s1, s1.tokstr, ar.bin(Plus, s1.tokval, d), tail);
    UnfoldPre(ar, s);
  }

  lemma ParsesPost(ar: Arith, e: Expr, x: string, t: Token, d: int, s: State, tail: seq<Token>) returns (s': State)
    requires (e == PostInc(x) && t == TPostInc && d == 1) || (e == PostDec(x) && t == TPostDec && d == -1)
    requires Loaded(s, Body(e) + tail)
    ensures Parsed(ar, e, 15, s, tail, s') && s'.last.TNum?
  {
    hide Prod, Tail, ReadTok, Loaded, Eval, CameTo;
    ReadIncrement(s, t, x, tail);
    EvalIncrement(ar, e, x, d, s.vars, s.noeval == 0);
    var s1 := ReadTok(s.(tokstr := "", noeval := 1));
    var s2 := s1.(tokstr := s.tokstr, noeval := s.noeval, last := s.cur);
    s' := Increments(s2, s2.tokstr, ar.bin(Plus, s.tokval, d), tail);
    UnfoldPost(ar, s);
  }

  // ---------------------------------------------------------------- the main results

  /** For every expression tree, evaluating its printed tokens gives the tree's value and final variables,
      or the same error. */
  lemma PrintedTreeEvaluates(ar: Arith, e: Expr, vars: Store)
    ensures Evaluate(ar, Print(e, 0), vars) == Eval(ar, e, vars, true)
  {
    hide Prod, Tail, Print, Eval;
    var s := State(TEnd, TEnd, Print(e, 0), 0, "", 0, vars);
    PrintNonEmpty(e, 0);
    ReadLoads(s);
    assert Print(e, 0) + [] == Print(e, 0);
    var s' := Parses(ar, e, 0, ReadTok(s), []);
    ParsedWhole(ar, e, 0, ReadTok(s), [], s');
  }

  // ---------------------------------------------------------------- suppressed evaluation

  /** Wherever evaluation is suppressed, no production binds a variable: on every token list, printed from
      a tree or not, at every depth. */
  lemma {:induction false} SuppressedProdBindsNothing(ar: Arith, k: nat, s: State)
    requires k <= 15 && s.noeval > 0 && Prod(ar, k, s).Ok?
    ensures Prod(ar, k, s).s.vars == s.vars
    decreases Size(s), 18 - k
  {
    if k < 14 {
      SuppressedProdBindsNothing(ar, k + 1, s);
      var r := Prod(ar, k + 1, s);
      SuppressedTailBindsNothing(ar, k, r.val, r.s);
    } else if k == 14 && IsUnary(s.cur) {
      SuppressedProdBindsNothing(ar, 14, ReadTok(s));
    } else {
      assert Prod(ar, k, s) == Exp0(ar, s);
      if s.cur.TLpar? {
        SuppressedProdBindsNothing(ar, 0, ReadTok(s));
      }
    }
  }

  lemma {:induction false} SuppressedTailBindsNothing(ar: Arith, k: nat, v: int, s: State)
    requires k <= 13 && s.noeval > 0 && Tail(ar, k, v, s).Ok?
    ensures Tail(ar, k, v, s).s.vars == s.vars
    decreases Size(s), 1
  {
    hide Prod;
    if s.cur.TComma? && k == 0 {
      var r := Prod(ar, 1, ReadTok(s));
      SuppressedProdBindsNothing(ar, 1, ReadTok(s));
      SuppressedTailBindsNothing(ar, 0, r.val, r.s);
    } else if (s.cur.TEq? || s.cur.TOpAssign?) && k == 1 {
      SuppressedProdBindsNothing(ar, 1, ReadTok(s));
    } else if s.cur.TQues? && k == 2 {
      var s1 := Suppress(ReadTok(s), v == 0);
      SuppressedProdBindsNothing(ar, 0, s1);
      var first := Prod(ar, 0, s1);
      assert Tail(ar, 2, v, s) == CondElse(ar, v, first.val, Resume(first.s, v == 0));
      var s4 := Suppress(ReadTok(Resume(first.s, v == 0)), v != 0);
      SuppressedProdBindsNothing(ar, 2, s4);
    } else if s.cur.TLor? && k == 3 {
      var s1 := ReadTok(Suppress(s, v != 0));
      SuppressedProdBindsNothing(ar, 4, s1);
      var r := Prod(ar, 4, s1);
      SuppressedTailBindsNothing(ar, 3, Truth(v != 0 || r.val != 0), Resume(r.s, v != 0).(last := TLor));
    } else if s.cur.TLand? && k == 4 {
      var s1 := ReadTok(Suppress(s, v == 0));
      SuppressedProdBindsNothing(ar, 5, s1);
      var r := Prod(ar, 5, s1);
      SuppressedTailBindsNothing(ar, 4, Truth(v != 0 && r.val != 0), Resume(r.s, v == 0).(last := TLand));
    } else if s.cur.TPower? && k == 13 {
      SuppressedProdBindsNothing(ar, 13, ReadTok(s));
      var r := Prod(ar, 13, ReadTok(s));
      if r.val != 0 {
        SuppressedTailBindsNothing(ar, 13, Power(ar, v, r.val).v, r.s);
      }
    } else if s.cur.TBin? && k == LevelOf(s.cur.op) {
      SuppressedProdBindsNothing(ar, k + 1, ReadTok(s));
      var r := Prod(ar, k + 1, ReadTok(s));
      SuppressedTailBindsNothing(ar, k, Apply(ar, s.cur.op, v, r.val).v, r.s);
    }
  }
}
