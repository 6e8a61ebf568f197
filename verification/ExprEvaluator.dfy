/** The evaluator as the program runs it: global token state updated in place by mutually recursive
    productions. Every method is proved equal to its specification in ExprMachine.

    The eight productions from `expbor` to `exp2` differ only in the operators they loop over; they are the
    method `ExpBinary`, with the number of the production as a parameter.
 */
module ExprEvaluator {
  import opened ExprMachine

  datatype Status = Fine | Fault(error: Error)

  /** A production's value, status and final state are what the specification says. */
  ghost predicate Gives(r: Result, value: int, status: Status, now: State) {
    match r
    case Ok(v, s) => status == Fine && value == v && now == s
    case Err(e) => status == Fault(e)
  }

  lemma ProdIsExp0(ar: Arith, s: State)
    ensures Prod(ar, 15, s) == Exp0(ar, s)
  {
  }

  class Evaluator {
    const ar: Arith
    var curtok: Token
    var lasttok: Token
    var rest: seq<Token>
    var tokval: int
    var tokstr: string
    var noeval: nat
    var vars: Store

    ghost function Now(): State
      reads this
    {
      State(curtok, lasttok, rest, tokval, tokstr, noeval, vars)
    }

    constructor (ar: Arith, vars: Store)
      ensures this.ar == ar && this.vars == vars && noeval == 0
    {
      this.ar, this.vars := ar, vars;
      curtok, lasttok, rest, tokval, tokstr, noeval := TEnd, TEnd, [], 0, "", 0;
    }

    method Readtok()
      modifies this
      ensures Now() == ReadTok(old(Now()))
      decreases |rest|
    {
      if rest == [] {
        lasttok := curtok;
        curtok := TEnd;
        return;
      }
      var t := rest[0];
      if t.TStr? {
        tokstr := t.name;
        // SAVETOK
        var ecCurtok, ecLasttok, ecTokval, ecTokstr, ecNoeval := curtok, lasttok, tokval, tokstr, noeval;
        var after := rest[1..];
        tokstr := "";
        rest := after;
        noeval := 1;
        curtok := t;
        Readtok();
        var peektok := curtok;
        // RESTORETOK
        curtok, lasttok, tokval, tokstr, noeval := ecCurtok, ecLasttok, ecTokval, ecTokstr, ecNoeval;
        rest := after;
        if lasttok == TPreInc || lasttok == TPreDec || peektok != TEq {
          tokval := Lookup(vars, tokstr);
        } else {
          tokval := 0;
        }
        lasttok := curtok;
        curtok := t;
      } else {
        if t.TNum? {
          tokval := t.value;
        }
        lasttok := curtok;
        curtok := t;
        rest := rest[1..];
      }
    }

    method BindVariable(x: string, v: int)
      modifies this`vars
      ensures Now() == Bind(old(Now()), x, v)
    {
      if noeval == 0 {
        vars := vars[x := v];
      }
    }

    method ExpComma() returns (value: int, status: Status)
      modifies this
      ensures Gives(Prod(ar, 0, old(Now())), value, status, Now())
      decreases Size(Now()), 18
    {
      value, status := ExpAssign();
      if status.Fault? { return; }
      while curtok == TComma
        invariant status == Fine && Size(Now()) < old(Size(Now()))
        invariant Prod(ar, 0, old(Now())) == CommaTail(ar, value, Now())
        decreases Size(Now())
      {
        Readtok();
        value, status := ExpAssign();
        if status.Fault? { return; }
      }
    }

    method ExpAssign() returns (value: int, status: Status)
      modifies this
      ensures Gives(Prod(ar, 1, old(Now())), value, status, Now())
      decreases Size(Now()), 17
    {
      value, status := ExpCond();
      if status.Fault? { return; }
      assert Prod(ar, 1, old(Now())) == AssignTail(ar, value, Now());
      if curtok.TEq? || curtok.TOpAssign? {
        var special, assigntok, lvalue := curtok.TOpAssign?, curtok, value;
        if !lasttok.TStr? {
          return 0, Fault(NonVariable);
        }
        var lhs := tokstr;
        Readtok();
        value, status := ExpAssign();
        if status.Fault? { return; }
        if special {
          match ApplyAssign(ar, assigntok.op, lvalue, value) {
            case Undefined(e) => return 0, Fault(e);
            case Defined(v) => value := v;
          }
        }
        BindVariable(lhs, value);
        tokstr := "";
      }
    }

    method ExpCond() returns (rval: int, status: Status)
      modifies this
      ensures Gives(Prod(ar, 2, old(Now())), rval, status, Now())
      decreases Size(Now()), 16
    {
      hide ReadTok, Prod, CommaTail, AssignTail, LorTail, LandTail, BinaryTail, PowerTail;
      DescendProd(ar, 2, Now());
      rval, status := ExpLor();
      if status.Fault? { return; }
      if curtok == TQues {
        rval, status := Branches(rval);
      }
    }

    /** What follows the question mark. */
    method Branches(cval: int) returns (rval: int, status: Status)
      requires curtok == TQues
      modifies this
      ensures Gives(CondTail(ar, cval, old(Now())), rval, status, Now())
      decreases Size(Now()), 0
    {
      hide ReadTok, Prod, CondElse;
      Readtok();
      if curtok == TEnd || curtok == TCol {
        return 0, Fault(ExpressionExpected);
      }
      if cval == 0 {
        noeval := noeval + 1;
      }
      rval, status := ExpComma();
      if status.Fault? { return; }
      if cval == 0 {
        noeval := noeval - 1;
      }
      rval, status := SecondBranch(cval, rval);
    }

    /** The colon and what follows it, the first branch having the value `val1`. */
    method SecondBranch(cval: int, val1: int) returns (rval: int, status: Status)
      modifies this
      ensures Gives(CondElse(ar, cval, val1, old(Now())), rval, status, Now())
      decreases Size(Now()), 0
    {
      hide ReadTok, Prod;
      if curtok != TCol {
        return 0, Fault(ColonExpected);
      }
      Readtok();
      if curtok == TEnd {
        return 0, Fault(ExpressionExpected);
      }
      if cval != 0 {
        noeval := noeval + 1;
      }
      var val2;
      val2, status := ExpCond();
      rval := if cval != 0 then val1 else val2;
      if status.Fault? { return; }
      if cval != 0 {
        noeval := noeval - 1;
      }
      lasttok := TCond;
    }

    method ExpLor() returns (val1: int, status: Status)
      modifies this
      ensures Gives(Prod(ar, 3, old(Now())), val1, status, Now())
      decreases Size(Now()), 15
    {
      hide ReadTok, Prod, Tail;
      DescendProd(ar, 3, Now());
      val1, status := ExpLand();
      if status.Fault? { return; }
      while curtok == TLor
        invariant status == Fine && Size(Now()) < old(Size(Now()))
        invariant Prod(ar, 3, old(Now())) == Tail(ar, 3, val1, Now())
        decreases Size(Now())
      {
        UnfoldLor(ar, val1, Now());
        var setNoeval := false;
        if val1 != 0 {
          noeval := noeval + 1;
          setNoeval := true;
        }
        Readtok();
        var val2: int;
        val2, status := ExpLand();
        if status.Fault? { return; }
        if setNoeval {
          noeval := noeval - 1;
        }
        val1 := if val1 != 0 || val2 != 0 then 1 else 0;
        lasttok := TLor;
      }
      LorEnds(ar, val1, Now());
    }

    method ExpLand() returns (val1: int, status: Status)
      modifies this
      ensures Gives(Prod(ar, 4, old(Now())), val1, status, Now())
      decreases Size(Now()), 14
    {
      hide ReadTok, Prod, Tail;
      DescendProd(ar, 4, Now());
      val1, status := ExpBinary(5);
      if status.Fault? { return; }
      while curtok == TLand
        invariant status == Fine && Size(Now()) < old(Size(Now()))
        invariant Prod(ar, 4, old(Now())) == Tail(ar, 4, val1, Now())
        decreases Size(Now())
      {
        UnfoldLand(ar, val1, Now());
        var setNoeval := false;
        if val1 == 0 {
          setNoeval := true;
          noeval := noeval + 1;
        }
        Readtok();
        var val2: int;
        val2, status := ExpBinary(5);
        if status.Fault? { return; }
        if setNoeval {
          noeval := noeval - 1;
        }
        val1 := if val1 != 0 && val2 != 0 then 1 else 0;
        lasttok := TLand;
      }
      LandEnds(ar, val1, Now());
    }

    method ExpBinary(k: nat) returns (val1: int, status: Status)
      requires 5 <= k <= 12
      modifies this
      ensures Gives(Prod(ar, k, old(Now())), val1, status, Now())
      decreases Size(Now()), 18 - k
    {
      val1, status := Tighter(k);
      if status.Fault? { return; }
      while curtok.TBin? && LevelOf(curtok.op) == k
        invariant status == Fine && Size(Now()) < old(Size(Now()))
        invariant Prod(ar, k, old(Now())) == BinaryTail(ar, k, val1, Now())
        decreases Size(Now())
      {
        var op := curtok.op;
        Readtok();
        var val2: int;
        val2, status := Tighter(k);
        if status.Fault? { return; }
        match Apply(ar, op, val1, val2) {
          case Undefined(e) => return 0, Fault(e);
          case Defined(v) => val1 := v;
        }
      }
    }

    /** The production that supplies the operands of production `k`. */
    method Tighter(k: nat) returns (value: int, status: Status)
      requires 5 <= k <= 12
      modifies this
      ensures Gives(Prod(ar, k + 1, old(Now())), value, status, Now())
      decreases Size(Now()), 18 - k, 0
    {
      if k < 12 {
        value, status := ExpBinary(k + 1);
      } else {
        value, status := ExpPower();
      }
    }

    method ExpPower() returns (val1: int, status: Status)
      modifies this
      ensures Gives(Prod(ar, 13, old(Now())), val1, status, Now())
      decreases Size(Now()), 5
    {
      hide ReadTok, CommaTail, AssignTail, CondTail, LorTail, LandTail, BinaryTail;
      val1, status := Exp1();
      if status.Fault? { return; }
      while curtok == TPower
        invariant status == Fine && Size(Now()) < old(Size(Now()))
        invariant Prod(ar, 13, old(Now())) == PowerTail(ar, val1, Now())
        decreases Size(Now())
      {
        Readtok();
        var val2: int;
        val2, status := ExpPower();
        if status.Fault? { return; }
        if val2 == 0 {
          return 1, Fine;
        }
        if val2 < 0 {
          return 0, Fault(NegativeExponent);
        }
        var c, n := 1, val2;
        while n != 0
          invariant 0 <= n <= val2 && c == Times(ar, val1, val2 - n)
        {
          n := n - 1;
          c := ar.bin(Mul, c, val1);
        }
        val1 := c;
      }
    }

    method Exp1() returns (val: int, status: Status)
      modifies this
      ensures Gives(Prod(ar, 14, old(Now())), val, status, Now())
      decreases Size(Now()), 4
    {
      assert Prod(ar, 14, Now()) == ExprMachine.Exp1(ar, Now());
      if curtok == TNot {
        Readtok();
        val, status := Exp1();
        val := if val == 0 then 1 else 0;
      } else if curtok == TBnot {
        Readtok();
        val, status := Exp1();
        val := ar.bnot(val);
      } else if curtok == TBin(Minus) {
        Readtok();
        val, status := Exp1();
        val := ar.neg(val);
      } else if curtok == TBin(Plus) {
        Readtok();
        val, status := Exp1();
      } else {
        val, status := Exp0();
      }
    }

    method Exp0() returns (val: int, status: Status)
      modifies this
      ensures Gives(Prod(ar, 15, old(Now())), val, status, Now())
      decreases Size(Now()), 3
    {
      hide ReadTok, Tail, Prod;
      ProdIsExp0(ar, Now());
      status := Fine;
      if curtok == TPreInc || curtok == TPreDec {
        var stok := curtok;
        lasttok := curtok;
        Readtok();
        if !curtok.TStr? {
          return 0, Fault(IdentifierExpected);
        }
        var v2 := ar.bin(Plus, tokval, if stok == TPreInc then 1 else -1);
        BindVariable(tokstr, v2);
        val := v2;
        curtok := TNum(0);
        Readtok();
      } else if curtok == TLpar {
        Readtok();
        val, status := ExpComma();
        if status.Fault? { return; }
        if curtok != TRpar {
          return 0, Fault(MissingParen);
        }
        Readtok();
      } else if curtok.TNum? || curtok.TStr? {
        val := tokval;
        if curtok.TStr? {
          // SAVETOK
          var ecCurtok, ecLasttok, ecRest, ecTokval, ecTokstr, ecNoeval :=
            curtok, lasttok, rest, tokval, tokstr, noeval;
          tokstr := "";
          noeval := 1;
          Readtok();
          var stok := curtok;
          if stok == TPostInc || stok == TPostDec {
            tokstr := ecTokstr;
            noeval := ecNoeval;
            lasttok := ecCurtok;
            var v2 := ar.bin(Plus, val, if stok == TPostInc then 1 else -1);
            BindVariable(tokstr, v2);
            curtok := TNum(0);
          } else {
            // RESTORETOK
            curtok, lasttok, rest, tokval, tokstr, noeval :=
              ecCurtok, ecLasttok, ecRest, ecTokval, ecTokstr, ecNoeval;
          }
        }
        Readtok();
      } else {
        return 0, Fault(OperandExpected);
      }
    }

    /** `subexpr` on a token list. */
    method Subexpr(tokens: seq<Token>) returns (value: int, status: Status)
      requires noeval == 0
      modifies this
      ensures match Evaluate(ar, tokens, old(vars))
              case Done(v, final) => status == Fine && value == v && vars == final
              case Failed(e) => status == Fault(e)
    {
      if tokens == [] {
        return 0, Fine;
      }
      rest := tokens;
      curtok, lasttok := TEnd, TEnd;
      tokstr, tokval := "", 0;
      Readtok();
      value, status := ExpComma();
      if status.Fine? && curtok != TEnd {
        status := Fault(Trailing);
      }
    }
  }
}
