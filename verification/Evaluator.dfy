/** expr.c's evaluator in its own form: global variables that the parsing functions update as they go.
    Each is proved to do what the parsing function of its level says. */
module Evaluator {
  import opened Wrappers
  import opened Int64
  import opened ExprSyntax
  import P = ExprParser
  import opened ExprProof

  class Evaluator {
    const expression: seq<Token>
    var tp: nat
    var curtok: Token
    var lasttok: Token
    var tokval: int64
    var tokstr: Option<string>
    var noeval: nat
    var vars: Store

    /** All of the state as one value. */
    ghost function St(): P.State
      reads this
    {
      P.State(tp, curtok, lasttok, tokval, tokstr, noeval, vars)
    }

    ghost predicate Valid()
      reads this
    {
      P.Valid(expression, St())
    }

    /** What remains to be read, for termination. */
    ghost function Left(): nat
      reads this
    {
      if curtok == End || tp > |expression| then 0 else |expression| - tp + 1
    }

    /** The result and the state are those of `p`; after an error only the variables matter. */
    ghost predicate Agrees(p: P.Parsed, r: Result<int64, Error>)
      reads this
    {
      match p
      case Good(v, s) => r == Ok(v) && St() == s
      case Bad(e, s) => r == Err(e) && vars == s
    }

    constructor (toks: seq<Token>, store: Store)
      requires P.Proper(toks)
      ensures Valid() && expression == toks && St() == P.Initial(store)
    {
      expression := toks;
      tp, curtok, lasttok, tokval, tokstr, noeval, vars := 0, TBegin, TBegin, 0, None, 0, store;
    }

    method ReadTok()
      requires Valid()
      modifies this
      ensures Valid() && St() == P.ReadTok(expression, old(St()))
      ensures old(curtok) != End ==> Left() < old(Left())
      decreases |expression| - tp, 0
    {
      hide P.ReadTok, P.Proper;
      ReadTokIs(expression, St());
      if tp == |expression| {
        lasttok, curtok := curtok, End;
        return;
      }
      var t := expression[tp];
      match t {
        case TStr(x) =>
          ReadName(x);
        case TNum(v) =>
          tokval := v;
        case _ =>
      }
      tp, lasttok, curtok := tp + 1, curtok, t;
    }

    /** A name is looked up when it is read, unless an assignment to it follows or nothing is evaluated. */
    method ReadName(x: string)
      requires Valid() && tp < |expression| && expression[tp] == TStr(x)
      modifies this
      ensures St() == old(St()).(tokstr := Some(x),
        tokval := if (lasttok == TPreInc || lasttok == TPreDec || P.TokenAt(expression, tp + 1) != TEq) && noeval == 0
                  then Lookup(vars, x) else 0)
      decreases |expression| - tp - 1, 2
    {
      hide P.Valid, P.Proper;
      var peektok := Peek(x);
      tokstr := Some(x);
      if lasttok == TPreInc || lasttok == TPreDec || peektok != TEq {
        tokval := if noeval > 0 then 0 else Lookup(vars, x);
      } else {
        tokval := 0;
      }
    }

    /** Reading a name looks at the token behind it with evaluation off, then puts everything back. */
    method Peek(x: string) returns (peektok: Token)
      requires Valid() && tp < |expression| && expression[tp] == TStr(x)
      modifies this
      ensures St() == old(St()) && peektok == P.TokenAt(expression, tp + 1)
      decreases |expression| - tp - 1, 1
    {
      hide P.ReadTok;
      var ecCur, ecLast, ecTp, ecVal, ecStr, ecNoeval := curtok, lasttok, tp, tokval, tokstr, noeval;
      tokstr, noeval, tp, curtok := None, 1, tp + 1, TStr(x);
      ReadArrives(expression, St());
      ghost var at := St();
      ReadTok();
      ArrivedFacts(expression, St(), at.tp);
      peektok := curtok;
      curtok, lasttok, tp, tokval, tokstr, noeval := ecCur, ecLast, ecTp, ecVal, ecStr, ecNoeval;
    }

    method BindVariable(x: string, v: int64)
      modifies `vars
      ensures St() == P.Bind(old(St()), x, v)
    {
      if noeval == 0 {
        vars := vars[x := v];
      }
    }

    method ExpComma() returns (value: Result<int64, Error>)
      requires Valid()
      modifies this
      ensures Agrees(Parse(0, expression, old(St())), value)
      ensures value.Ok? ==> Valid() && Left() < old(Left())
      decreases Left(), 20, 0
    {
      hide Parse, Rest, P.ReadTok, P.Proper;
      ParseLoop(0, expression, St());
      value := ExpAssign();
      if value.Err? {
        RestBad(0, expression, value.error, vars);
        return;
      }
      while curtok == TComma
        invariant Valid() && Left() < old(Left())
        invariant value.Ok? && Parse(0, expression, old(St())) == Rest(0, expression, P.Good(value.value, St()))
        decreases Left()
      {
        RestComma(expression, P.Good(value.value, St()));
        ReadTok();
        value := ExpAssign();
        if value.Err? {
          RestBad(0, expression, value.error, vars);
          return;
        }
      }
      RestStop(0, expression, P.Good(value.value, St()));
    }

    method ExpAssign() returns (value: Result<int64, Error>)
      requires Valid()
      modifies this
      ensures Agrees(Parse(1, expression, old(St())), value)
      ensures value.Ok? ==> Valid() && Left() < old(Left())
      decreases Left(), 19, 0
    {
      value := ExpCond();
      if value.Err? || !(curtok == TEq || curtok.TOpAssign?) {
        return;
      }
      if !lasttok.TStr? || tokstr.None? {
        return Err(Syntax);
      }
      var assign, lvalue, lhs := curtok, value.value, tokstr.value;
      ReadTok();
      value := ExpAssign();
      if value.Err? {
        return;
      }
      if assign.TOpAssign? {
        var op, v := assign.assignOp, value.value;
        if op in {Div, Mod} && v == 0 {
          if noeval == 0 {
            return Err(DivisionByZero);
          }
          v := 1;
        }
        if !Assignable(op) {
          return Err(Syntax);
        }
        value := Ok(Compute(op, lvalue, v));
      }
      BindVariable(lhs, value.value);
      tokstr := None;
    }

    method ExpCond() returns (rval: Result<int64, Error>)
      requires Valid()
      modifies this
      ensures Agrees(Parse(2, expression, old(St())), rval)
      ensures rval.Ok? ==> Valid() && Left() < old(Left())
      decreases Left(), 18, 0
    {
      hide P.ReadTok, P.ExpOr, P.CondYes;
      rval := ExpOr();
      if rval.Err? || curtok != TQues {
        return;
      }
      rval := ExpCondYes(rval.value);
    }

    /** expcond from the question mark on. */
    method ExpCondYes(cval: int64) returns (rval: Result<int64, Error>)
      requires Valid() && curtok == TQues
      modifies this
      ensures Agrees(P.CondYes(expression, cval, old(St())), rval)
      ensures rval.Ok? ==> Valid() && Left() <= old(Left())
      decreases Left(), 0, 1
    {
      hide P.ReadTok, P.ExpComma, P.CondElse;
      var setNoeval := false;
      if cval == 0 {
        setNoeval, noeval := true, noeval + 1;
      }
      ReadTok();
      if curtok == End || curtok == TCol {
        return Err(Syntax);
      }
      var val1 := ExpComma();
      if val1.Err? {
        return val1;
      }
      if setNoeval {
        noeval := noeval - 1;
      }
      if curtok != TCol {
        return Err(Syntax);
      }
      rval := ExpCondElse(cval, val1.value);
    }

    /** expcond from the colon on. */
    method ExpCondElse(cval: int64, val1: int64) returns (rval: Result<int64, Error>)
      requires Valid() && curtok == TCol
      modifies this
      ensures Agrees(P.CondElse(expression, cval, val1, old(St())), rval)
      ensures rval.Ok? ==> Valid() && Left() <= old(Left())
      decreases Left(), 0, 0
    {
      hide P.ReadTok, P.ExpCond;
      var setNoeval := false;
      if cval != 0 {
        setNoeval, noeval := true, noeval + 1;
      }
      ReadTok();
      if curtok == End {
        return Err(Syntax);
      }
      var val2 := ExpCond();
      if val2.Err? {
        return val2;
      }
      if setNoeval {
        noeval := noeval - 1;
      }
      rval := if cval != 0 then Ok(val1) else val2;
      lasttok := TCond;
    }

    method ExpOr() returns (val1: Result<int64, Error>)
      requires Valid()
      modifies this
      ensures Agrees(Parse(3, expression, old(St())), val1)
      ensures val1.Ok? ==> Valid() && Left() < old(Left())
      decreases Left(), 17, 0
    {
      hide Parse, Rest, P.ReadTok, P.Proper;
      ParseLoop(3, expression, St());
      val1 := ExpAnd();
      if val1.Err? {
        RestBad(3, expression, val1.error, vars);
        return;
      }
      while curtok == TLor
        invariant Valid() && Left() < old(Left())
        invariant val1.Ok? && Parse(3, expression, old(St())) == Rest(3, expression, P.Good(val1.value, St()))
        decreases Left()
      {
        val1 := OrOperand(val1.value);
        if val1.Err? {
          return;
        }
      }
      RestStop(3, expression, P.Good(val1.value, St()));
    }

    /** The operator and its right operand, evaluated only if the value so far is 0. */
    method OrOperand(value: int64) returns (val1: Result<int64, Error>)
      requires Valid() && curtok == TLor
      modifies this
      ensures val1.Err? ==> Agrees(Rest(3, expression, P.Good(value, old(St()))), val1)
      ensures val1.Ok? ==>
        && Valid() && Left() < old(Left())
        && Rest(3, expression, P.Good(value, old(St()))) == Rest(3, expression, P.Good(val1.value, St()))
      decreases Left(), 16, 1
    {
      hide Parse, Rest, P.ReadTok, P.Proper;
      RestOr(expression, P.Good(value, St()));
      var setNoeval := false;
      if value != 0 {
        noeval, setNoeval := noeval + 1, true;
      }
      ReadTok();
      val1 := ExpAnd();
      if val1.Err? {
        RestBad(3, expression, val1.error, vars);
        return;
      }
      if setNoeval {
        noeval := noeval - 1;
      }
      val1 := Ok(Bool(value != 0 || val1.value != 0));
      lasttok := TLor;
    }

    method ExpAnd() returns (val1: Result<int64, Error>)
      requires Valid()
      modifies this
      ensures Agrees(Parse(4, expression, old(St())), val1)
      ensures val1.Ok? ==> Valid() && Left() < old(Left())
      decreases Left(), 16, 0
    {
      hide Parse, Rest, P.ReadTok, P.Proper;
      ParseLoop(4, expression, St());
      val1 := ExpLeft(5);
      if val1.Err? {
        RestBad(4, expression, val1.error, vars);
        return;
      }
      while curtok == TLand
        invariant Valid() && Left() < old(Left())
        invariant val1.Ok? && Parse(4, expression, old(St())) == Rest(4, expression, P.Good(val1.value, St()))
        decreases Left()
      {
        val1 := AndOperand(val1.value);
        if val1.Err? {
          return;
        }
      }
      RestStop(4, expression, P.Good(val1.value, St()));
    }

    /** The operator and its right operand, evaluated only if the value so far is not 0. */
    method AndOperand(value: int64) returns (val1: Result<int64, Error>)
      requires Valid() && curtok == TLand
      modifies this
      ensures val1.Err? ==> Agrees(Rest(4, expression, P.Good(value, old(St()))), val1)
      ensures val1.Ok? ==>
        && Valid() && Left() < old(Left())
        && Rest(4, expression, P.Good(value, old(St()))) == Rest(4, expression, P.Good(val1.value, St()))
      decreases Left(), 15, 100
    {
      hide Parse, Rest, P.ReadTok, P.Proper;
      RestAnd(expression, P.Good(value, St()));
      var setNoeval := false;
      if value == 0 {
        noeval, setNoeval := noeval + 1, true;
      }
      ReadTok();
      val1 := ExpLeft(5);
      if val1.Err? {
        RestBad(4, expression, val1.error, vars);
        return;
      }
      if setNoeval {
        noeval := noeval - 1;
      }
      val1 := Ok(Bool(value != 0 && val1.value != 0));
      lasttok := TLand;
    }

    method ExpTighter(k: nat) returns (val: Result<int64, Error>)
      requires Valid() && 5 <= k <= 12
      modifies this
      ensures Agrees(Parse(k + 1, expression, old(St())), val)
      ensures val.Ok? ==> Valid() && Left() < old(Left())
      decreases Left(), 15, 25 - 2 * k - 1
    {
      if k == 12 {
        val := ExpPower();
      } else {
        val := ExpLeft(k + 1);
      }
    }

    /** expbor down to expmuldiv, by level. */
    method ExpLeft(k: nat) returns (val1: Result<int64, Error>)
      requires Valid() && 5 <= k <= 12
      modifies this
      ensures Agrees(Parse(k, expression, old(St())), val1)
      ensures val1.Ok? ==> Valid() && Left() < old(Left())
      decreases Left(), 15, 25 - 2 * k
    {
      hide Parse, Rest, P.ReadTok, P.Proper, Compute;
      ParseLoop(k, expression, St());
      val1 := ExpTighter(k);
      if val1.Err? {
        RestBad(k, expression, val1.error, vars);
        return;
      }
      while curtok.TOp? && OpLevel(curtok.op) == k
        invariant Valid() && Left() < old(Left())
        invariant val1.Ok? && Parse(k, expression, old(St())) == Rest(k, expression, P.Good(val1.value, St()))
        decreases Left()
      {
        RestLeft(k, expression, P.Good(val1.value, St()));
        var op := curtok.op;
        ReadTok();
        var r := ExpTighter(k);
        if r.Err? {
          RestBad(k, expression, r.error, vars);
          return r;
        }
        var val2 := r.value;
        MinByMinusOne();
        if op in {Div, Mod} && val2 == 0 {
          if noeval == 0 {
            RestBad(k, expression, DivisionByZero, vars);
            return Err(DivisionByZero);
          }
          val2 := 1;
        } else if op == Mod && val1.value == INTMAX_MIN && val2 == -1 {
          val1 := Ok(0);
          continue;
        } else if op == Div && val1.value == INTMAX_MIN && val2 == -1 {
          val2 := 1;
        }
        val1 := Ok(Compute(op, val1.value, val2));
        lasttok := TNum(0);
      }
      RestStop(k, expression, P.Good(val1.value, St()));
    }

    method ExpPower() returns (val1: Result<int64, Error>)
      requires Valid()
      modifies this
      ensures Agrees(Parse(13, expression, old(St())), val1)
      ensures val1.Ok? ==> Valid() && Left() < old(Left())
      decreases Left(), 14, 0
    {
      hide Parse, Rest, P.ReadTok, P.Proper;
      ParseLoop(13, expression, St());
      val1 := ExpUnary();
      if val1.Err? {
        RestBad(13, expression, val1.error, vars);
        return;
      }
      while curtok == TPower
        invariant Valid() && Left() < old(Left())
        invariant val1.Ok? && Parse(13, expression, old(St())) == Rest(13, expression, P.Good(val1.value, St()))
        decreases Left()
      {
        RestPowerStep(expression, P.Good(val1.value, St()));
        ReadTok();
        var val2 := ExpPower();
        if val2.Err? {
          return val2;
        }
        lasttok := TNum(0);
        if noeval == 0 {
          if val2.value == 0 {
            return Ok(1);
          }
          if val2.value < 0 {
            return Err(NegativeExponent);
          }
          var p := IPow(val1.value, val2.value);
          val1 := Ok(p);
        } else {
          val1 := Ok(1);
        }
      }
      RestStop(13, expression, P.Good(val1.value, St()));
    }

    method ExpUnary() returns (val: Result<int64, Error>)
      requires Valid()
      modifies this
      ensures Agrees(Parse(14, expression, old(St())), val)
      ensures val.Ok? ==> Valid() && Left() < old(Left())
      decreases Left(), 13, 0
    {
      hide Parse, P.ReadTok, P.Proper, ApplyUnary;
      ParseUnary(expression, St());
      UnaryIs();
      if curtok == TNot {
        ReadTok();
        val := ExpUnary();
        val := if val.Ok? then Ok(Bool(val.value == 0)) else val;
        lasttok := TNum(0);
      } else if curtok == TBNot {
        ReadTok();
        val := ExpUnary();
        val := if val.Ok? then Ok(ApplyUnary(BNot, val.value)) else val;
        lasttok := TNum(0);
      } else if curtok == TOp(Minus) {
        ReadTok();
        val := ExpUnary();
        val := if val.Ok? then Ok(ApplyUnary(Neg, val.value)) else val;
        lasttok := TNum(0);
      } else if curtok == TOp(Plus) {
        ReadTok();
        val := ExpUnary();
        lasttok := TNum(0);
      } else {
        val := Exp0();
      }
    }

    method Exp0() returns (val: Result<int64, Error>)
      requires Valid()
      modifies this
      ensures Agrees(Parse(15, expression, old(St())), val)
      ensures val.Ok? ==> Valid() && Left() < old(Left())
      decreases Left(), 12, 0
    {
      if curtok == TPreInc || curtok == TPreDec {
        val := ExpStepped();
      } else if curtok == TLpar {
        hide Parse, P.ReadTok;
        Exp0Cases(expression, St());
        ReadTok();
        val := ExpComma();
        if val.Err? {
          return;
        }
        if curtok != TRpar {
          return Err(Syntax);
        }
        ReadTok();
      } else if curtok.TNum? {
        val := Ok(tokval);
        ReadTok();
      } else if curtok.TStr? {
        val := ExpName();
      } else {
        val := Err(Syntax);
      }
    }

    /** A name with its increment or decrement in front. */
    method ExpStepped() returns (val: Result<int64, Error>)
      requires Valid() && curtok in {TPreInc, TPreDec}
      modifies this
      ensures Agrees(Parse(15, expression, old(St())), val)
      ensures val.Ok? ==> Valid() && Left() < old(Left())
    {
      hide P.ReadTok, Stepped, Parse, P.Proper;
      Exp0Pre(expression, St());
      var stok := curtok;
      lasttok := curtok;
      ReadTok();
      if !curtok.TStr? {
        return Err(Syntax);
      }
      var v2 := Stepped(tokval, stok == TPreInc);
      if tokstr.Some? {
        BindVariable(tokstr.value, v2);
      }
      val := Ok(v2);
      curtok := TNum(0);
      ReadTok();
    }

    /** A name, perhaps with an increment or decrement behind it. */
    method ExpName() returns (val: Result<int64, Error>)
      requires Valid() && curtok.TStr?
      modifies this
      ensures Agrees(Parse(15, expression, old(St())), val)
      ensures val.Ok? ==> Valid() && Left() < old(Left())
    {
      hide P.ReadTok, Stepped, Parse, P.Proper;
      Exp0Cases(expression, St());
      ReadTokIs(expression, St());
      val := Ok(tokval);
      var stok := TakePost();
      if stok == TPostInc || stok == TPostDec {
        Exp0Post(expression, old(St()));
        var v2 := Stepped(val.value, stok == TPostInc);
        if tokstr.Some? {
          BindVariable(tokstr.value, v2);
        }
        curtok := TNum(0);
      }
      ReadTok();
    }

    /** Read the token behind a name with evaluation off; unless it is `++` or `--`, put it back. */
    method TakePost() returns (stok: Token)
      requires Valid() && curtok.TStr?
      modifies this
      ensures Valid() && stok == P.TokenAt(expression, old(tp))
      ensures St() == if stok in {TPostInc, TPostDec}
        then old(St()).(tp := old(tp) + 1, lasttok := old(curtok), curtok := stok) else old(St())
    {
      hide P.ReadTok, P.Proper;
      var ecCur, ecLast, ecTp, ecVal, ecStr, ecNoeval := curtok, lasttok, tp, tokval, tokstr, noeval;
      tokstr, noeval := None, 1;
      ReadTokIs(expression, St());
      ReadTok();
      stok := curtok;
      if stok == TPostInc || stok == TPostDec {
        tokstr, noeval, lasttok := ecStr, ecNoeval, ecCur;
      } else {
        curtok, lasttok, tp, tokval, tokstr, noeval := ecCur, ecLast, ecTp, ecVal, ecStr, ecNoeval;
      }
    }
  }

  /** What reading a token does, case by case. */
  lemma ReadTokIs(toks: seq<Token>, st: P.State)
    requires P.Valid(toks, st)
    ensures st.tp == |toks| ==> P.ReadTok(toks, st) == st.(lasttok := st.curtok, curtok := End)
    ensures st.tp < |toks| ==>
      var t := toks[st.tp];
      var n := st.(tp := st.tp + 1, lasttok := st.curtok, curtok := t);
      P.ReadTok(toks, st) ==
      if t.TStr? then
        var read := st.lasttok in {TPreInc, TPreDec} || P.TokenAt(toks, st.tp + 1) != TEq;
        n.(tokstr := Some(t.name), tokval := if read && st.noeval == 0 then Lookup(st.vars, t.name) else 0)
      else if t.TNum? then n.(tokval := t.value)
      else n
    ensures var r := P.ReadTok(toks, st); P.Valid(toks, r) && r.vars == st.vars
  {
  }

  lemma MinByMinusOne()
    ensures Compute(Mod, INTMAX_MIN, -1) == 0 && Compute(Div, INTMAX_MIN, -1) == Compute(Div, INTMAX_MIN, 1)
  {
  }

  lemma UnaryIs()
    ensures forall v: int64 :: ApplyUnary(Not, v) == Bool(v == 0) && ApplyUnary(Pos, v) == v
  {
  }

  /** An error in an operand is an error of the whole level. */
  lemma RestBad(k: nat, toks: seq<Token>, e: Error, vars: Store)
    requires HasLoop(k)
    ensures Rest(k, toks, P.Bad(e, vars)) == P.Bad(e, vars)
  {
  }

  lemma {:induction false} PowSquare(b: int, n: nat)
    ensures Pow(b, 2 * n) == Pow(b * b, n)
  {
    if n > 0 {
      PowSquare(b, n - 1);
      assert Pow(b, 2 * n) == b * (b * Pow(b, 2 * (n - 1)));
      assert b * (b * Pow(b, 2 * (n - 1))) == b * b * Pow(b, 2 * (n - 1));
    }
  }

  lemma {:induction false} PowCongruent(a: int, b: int, n: nat)
    requires Congruent(a, b)
    ensures Congruent(Pow(a, n), Pow(b, n))
  {
    if n > 0 {
      PowCongruent(a, b, n - 1);
      CongruentMul(a, b, Pow(a, n - 1), Pow(b, n - 1));
    }
  }

  /** One turn of the squaring loop keeps the product it is after, modulo 2^64. */
  lemma SquaringStep(r: int64, b: int64, e: nat, total: int)
    requires e > 0 && Congruent(r * Pow(b, e), total)
    ensures Congruent((if e % 2 == 1 then Wrap(r * b) else r) * Pow(Wrap(b * b), e / 2), total)
  {
    hide Wrap, Congruent, Pow;
    var r' := if e % 2 == 1 then r * b else r;
    assert r' * Pow(b * b, e / 2) == r * Pow(b, e) by {
      PowSquare(b, e / 2);
      if e % 2 == 1 {
        assert e == 2 * (e / 2) + 1;
        PowStep(b, e);
        assert r * (b * Pow(b, e - 1)) == r * b * Pow(b, e - 1);
      }
    }
    WrapCongruent(b * b);
    PowCongruent(Wrap(b * b), b * b, e / 2);
    WrapCongruent(r');
    CongruentMul(Wrap(r'), r', Pow(Wrap(b * b), e / 2), Pow(b * b, e / 2));
    WrapSmall(r);
    CongruentChain(Wrap(r') * Pow(Wrap(b * b), e / 2), r * Pow(b, e), total);
  }

  lemma PowStep(b: int, e: nat)
    requires e > 0
    ensures Pow(b, e) == b * Pow(b, e - 1)
  {
  }

  lemma WrapSmall(r: int64)
    ensures Wrap(r) == r
  {
  }

  lemma CongruentChain(a: int, b: int, c: int)
    requires Congruent(a, b) && Congruent(b, c)
    ensures Congruent(a, c)
  {
    var k := MultipleOf(a, b);
    var j := MultipleOf(b, c);
    CongruentBy(a, c, k + j);
  }

  /** Exponentiation by squaring, every product cut to 64 bits. */
  method IPow(base: int64, exp: int64) returns (result: int64)
    requires exp >= 0
    ensures result == Wrap(Pow(base, exp))
  {
    hide Wrap, Congruent, Pow;
    result := 1;
    var b: int64, e: int64 := base, exp;
    IPowStarts(base, exp);
    while e != 0
      invariant e >= 0
      invariant Congruent(result * Pow(b, e), Pow(base, exp))
    {
      SquaringStep(result, b, e, Pow(base, exp));
      if e % 2 == 1 {
        result := Wrap(result * b);
      }
      e := e / 2;
      b := Wrap(b * b);
    }
    IPowEnds(result, b);
    WrapUnique(result, Pow(base, exp));
  }

  lemma IPowStarts(b: int, e: nat)
    ensures Congruent(1 * Pow(b, e), Pow(b, e))
  {
  }

  lemma IPowEnds(r: int, b: int)
    ensures r * Pow(b, 0) == r
  {
  }

  /** subexpr and evalexp: the whole expression. */
  method EvalExp(toks: seq<Token>, store: Store) returns (r: Outcome)
    requires P.Proper(toks)
    ensures r == P.SubExpr(toks, store)
  {
    if toks == [] {
      return Val(0, store);
    }
    var e := new Evaluator(toks, store);
    e.ReadTok();
    var value := e.ExpComma();
    if value.Err? {
      return Fail(value.error, e.vars);
    }
    if e.curtok != End {
      return Fail(Syntax, e.vars);
    }
    return Val(value.value, e.vars);
  }
}
