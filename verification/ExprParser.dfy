/** The evaluator of expr.c as functions of its global state: readtok (expr.c:1318-1522) on tokens,
    and expcomma down to exp0 (expr.c:495-1123), each at its level of precedence. */
module ExprParser {
  import opened Wrappers
  import opened Int64
  import opened ExprSyntax

  /** The globals: tp, curtok, lasttok, tokval, tokstr, noeval, and the shell's variables. */
  datatype State = State(
    tp: nat, curtok: Token, lasttok: Token, tokval: int64, tokstr: Option<string>, noeval: nat, vars: Store)

  /** A value with the state after it, or the error that evalerror leaves the expression with. */
  datatype Parsed =
    | Good(value: int64, st: State)
    | Bad(error: Error, vars: Store)

  /** The end of the expression is not among the tokens. */
  predicate Proper(toks: seq<Token>) {
    forall t <- toks :: t != End
  }

  predicate Valid(toks: seq<Token>, st: State) {
    && st.tp <= |toks|
    && Proper(toks)
    && (st.curtok == End ==> st.tp == |toks|)
  }

  /** How many tokens are not consumed yet, the current one included. */
  function Left(toks: seq<Token>, st: State): nat
    requires st.tp <= |toks|
  {
    if st.curtok == End then 0 else |toks| - st.tp + 1
  }

  function TokenAt(toks: seq<Token>, p: nat): Token {
    if p < |toks| then toks[p] else End
  }

  /** Read the next token. A variable's value is looked up at once, unless a plain assignment follows
      or evaluation is off; looking at the token after it leaves no trace. */
  function ReadTok(toks: seq<Token>, st: State): (r: State)
    requires Valid(toks, st)
    ensures Valid(toks, r) && r.vars == st.vars && r.noeval == st.noeval
    ensures st.curtok != End ==> Left(toks, r) < Left(toks, st)
  {
    if st.tp == |toks| then st.(lasttok := st.curtok, curtok := End)
    else
      var t := toks[st.tp];
      assert t in toks;
      var n := st.(tp := st.tp + 1, lasttok := st.curtok, curtok := t);
      match t
      case TStr(x) =>
        var read := st.lasttok in {TPreInc, TPreDec} || TokenAt(toks, st.tp + 1) != TEq;
        n.(tokstr := Some(x), tokval := if read && st.noeval == 0 then Lookup(st.vars, x) else 0)
      case TNum(v) => n.(tokval := v)
      case _ => n
  }

  /** Every parsing function consumes something and restores noeval. */
  ghost predicate Moves(toks: seq<Token>, st: State, r: Parsed)
    requires Valid(toks, st)
  {
    r.Good? ==> Valid(toks, r.st) && r.st.noeval == st.noeval && Left(toks, r.st) < Left(toks, st)
  }

  /** The part of a parsing function after its first operand may consume nothing more. */
  ghost predicate Keeps(toks: seq<Token>, st: State, r: Parsed)
    requires Valid(toks, st)
  {
    r.Good? ==> Valid(toks, r.st) && r.st.noeval == st.noeval && Left(toks, r.st) <= Left(toks, st)
  }

  function Bind(st: State, x: string, v: int64): State {
    if st.noeval == 0 then st.(vars := st.vars[x := v]) else st
  }

  // ---------------------------------------------------------------- expcomma, expassign, expcond

  function ExpComma(toks: seq<Token>, st: State): (r: Parsed)
    requires Valid(toks, st)
    ensures Moves(toks, st, r)
    decreases Left(toks, st), 20, 0
  {
    var r := ExpAssign(toks, st);
    if r.Bad? then r else CommaRest(toks, r.value, r.st)
  }

  function CommaRest(toks: seq<Token>, value: int64, st: State): (r: Parsed)
    requires Valid(toks, st)
    ensures Keeps(toks, st, r)
    decreases Left(toks, st), 0, 0
  {
    if st.curtok != TComma then Good(value, st)
    else
      var r := ExpAssign(toks, ReadTok(toks, st));
      if r.Bad? then r else CommaRest(toks, r.value, r.st)
  }

  function ExpAssign(toks: seq<Token>, st: State): (r: Parsed)
    requires Valid(toks, st)
    ensures Moves(toks, st, r)
    decreases Left(toks, st), 19, 0
  {
    var r := ExpCond(toks, st);
    if r.Bad? || !(r.st.curtok == TEq || r.st.curtok.TOpAssign?) then r
    else if !r.st.lasttok.TStr? || r.st.tokstr.None? then Bad(Syntax, r.st.vars)
    else
      var a := ExpAssign(toks, ReadTok(toks, r.st));
      if a.Bad? then a else Assigned(r.st.curtok, r.st.tokstr.value, r.value, a.value, a.st)
  }

  /** What an assignment does once its right-hand side is known. */
  function Assigned(tok: Token, lhs: string, lvalue: int64, value: int64, st: State): (r: Parsed)
    requires tok == TEq || tok.TOpAssign?
    ensures r.Good? ==> r.st == Bind(st, lhs, r.value).(tokstr := None)
  {
    if tok == TEq then Good(value, Bind(st, lhs, value).(tokstr := None))
    else
      var op := tok.assignOp;
      if op in {Div, Mod} && value == 0 && st.noeval == 0 then Bad(DivisionByZero, st.vars)
      else if !Assignable(op) then Bad(Syntax, st.vars)
      else
        var v := Compute(op, lvalue, if op in {Div, Mod} && value == 0 then 1 else value);
        Good(v, Bind(st, lhs, v).(tokstr := None))
  }

  function ExpCond(toks: seq<Token>, st: State): (r: Parsed)
    requires Valid(toks, st)
    ensures Moves(toks, st, r)
    decreases Left(toks, st), 18, 0
  {
    var c := ExpOr(toks, st);
    if c.Bad? || c.st.curtok != TQues then c else CondYes(toks, c.value, c.st)
  }

  function CondYes(toks: seq<Token>, cval: int64, st: State): (r: Parsed)
    requires Valid(toks, st) && st.curtok == TQues
    ensures Keeps(toks, st, r)
    decreases Left(toks, st), 0, 0
  {
    var off := if cval == 0 then 1 else 0;
    var s1 := ReadTok(toks, st.(noeval := st.noeval + off));
    if s1.curtok == End || s1.curtok == TCol then Bad(Syntax, s1.vars)
    else
      var a := ExpComma(toks, s1);
      if a.Bad? then a
      else if a.st.curtok != TCol then Bad(Syntax, a.st.vars)
      else CondElse(toks, cval, a.value, a.st.(noeval := a.st.noeval - off))
  }

  function CondElse(toks: seq<Token>, cval: int64, val1: int64, st: State): (r: Parsed)
    requires Valid(toks, st) && st.curtok == TCol
    ensures Keeps(toks, st, r)
    decreases Left(toks, st), 0, 0
  {
    var on := if cval != 0 then 1 else 0;
    var s2 := ReadTok(toks, st.(noeval := st.noeval + on));
    if s2.curtok == End then Bad(Syntax, s2.vars)
    else
      var b := ExpCond(toks, s2);
      if b.Bad? then b
      else Good(if cval != 0 then val1 else b.value, b.st.(noeval := b.st.noeval - on, lasttok := TCond))
  }

  // ---------------------------------------------------------------- explor, expland

  function ExpOr(toks: seq<Token>, st: State): (r: Parsed)
    requires Valid(toks, st)
    ensures Moves(toks, st, r)
    decreases Left(toks, st), 17, 0
  {
    var r := ExpAnd(toks, st);
    if r.Bad? then r else OrRest(toks, r.value, r.st)
  }

  function OrRest(toks: seq<Token>, val1: int64, st: State): (r: Parsed)
    requires Valid(toks, st)
    ensures Keeps(toks, st, r)
    decreases Left(toks, st), 0, 0
  {
    if st.curtok != TLor then Good(val1, st)
    else
      var off := if val1 != 0 then 1 else 0;
      var b := ExpAnd(toks, ReadTok(toks, st.(noeval := st.noeval + off)));
      if b.Bad? then b
      else OrRest(toks, Bool(val1 != 0 || b.value != 0), b.st.(noeval := b.st.noeval - off, lasttok := TLor))
  }

  function ExpAnd(toks: seq<Token>, st: State): (r: Parsed)
    requires Valid(toks, st)
    ensures Moves(toks, st, r)
    decreases Left(toks, st), 16, 0
  {
    var r := ExpLeft(toks, 5, st);
    if r.Bad? then r else AndRest(toks, r.value, r.st)
  }

  function AndRest(toks: seq<Token>, val1: int64, st: State): (r: Parsed)
    requires Valid(toks, st)
    ensures Keeps(toks, st, r)
    decreases Left(toks, st), 0, 0
  {
    if st.curtok != TLand then Good(val1, st)
    else
      var off := if val1 == 0 then 1 else 0;
      var b := ExpLeft(toks, 5, ReadTok(toks, st.(noeval := st.noeval + off)));
      if b.Bad? then b
      else AndRest(toks, Bool(val1 != 0 && b.value != 0), b.st.(noeval := b.st.noeval - off, lasttok := TLand))
  }

  // ---------------------------------------------------------------- expbor down to expmuldiv

  /** The eight left-associative levels have one shape: expbor is 5, expbxor 6, expband 7, expeq 8,
      expcompare 9, expshift 10, expaddsub 11 and expmuldiv 12. */
  function ExpLeft(toks: seq<Token>, k: nat, st: State): (r: Parsed)
    requires Valid(toks, st) && 5 <= k <= 12
    ensures Moves(toks, st, r)
    decreases Left(toks, st), 15, 12 - k
  {
    var r := if k == 12 then ExpPower(toks, st) else ExpLeft(toks, k + 1, st);
    if r.Bad? then r else LeftRest(toks, k, r.value, r.st)
  }

  function LeftRest(toks: seq<Token>, k: nat, val1: int64, st: State): (r: Parsed)
    requires Valid(toks, st) && 5 <= k <= 12
    ensures Keeps(toks, st, r)
    decreases Left(toks, st), 0, 0
  {
    if !(st.curtok.TOp? && OpLevel(st.curtok.op) == k) then Good(val1, st)
    else
      var op := st.curtok.op;
      var s1 := ReadTok(toks, st);
      var b := if k == 12 then ExpPower(toks, s1) else ExpLeft(toks, k + 1, s1);
      if b.Bad? then b
      else if op in {Div, Mod} && b.value == 0 && b.st.noeval == 0 then Bad(DivisionByZero, b.st.vars)
      else LeftRest(toks, k, Combined(op, val1, b.value), b.st.(lasttok := NextLast(op, val1, b)))
  }

  /** The operation, with 1 for a zero divisor, which only a skipped operand can have here. */
  function Combined(op: Op, val1: int64, val2: int64): int64 {
    Compute(op, val1, if op in {Div, Mod} && val2 == 0 then 1 else val2)
  }

  /** Of all operators only the remainder of the least number by -1 leaves lasttok alone. */
  function NextLast(op: Op, val1: int64, b: Parsed): Token
    requires b.Good?
  {
    if op == Mod && val1 == INTMAX_MIN && b.value == -1 then b.st.lasttok else TNum(0)
  }

  // ---------------------------------------------------------------- exppower, expunary, exp0

  function ExpPower(toks: seq<Token>, st: State): (r: Parsed)
    requires Valid(toks, st)
    ensures Moves(toks, st, r)
    decreases Left(toks, st), 14, 0
  {
    var r := ExpUnary(toks, st);
    if r.Bad? then r else PowerRest(toks, r.value, r.st)
  }

  function PowerRest(toks: seq<Token>, val1: int64, st: State): (r: Parsed)
    requires Valid(toks, st)
    ensures Keeps(toks, st, r)
    decreases Left(toks, st), 0, 0
  {
    if st.curtok != TPower then Good(val1, st)
    else
      var b := ExpPower(toks, ReadTok(toks, st));
      if b.Bad? then b
      else
        var s2 := b.st.(lasttok := TNum(0));
        if s2.noeval > 0 then PowerRest(toks, 1, s2)
        else if b.value == 0 then Good(1, s2)
        else if b.value < 0 then Bad(NegativeExponent, s2.vars)
        else PowerRest(toks, Wrap(Pow(val1, b.value)), s2)
  }

  function UnaryOf(t: Token): Option<UnOp> {
    match t
    case TNot => Some(Not)
    case TBNot => Some(BNot)
    case TOp(Minus) => Some(Neg)
    case TOp(Plus) => Some(Pos)
    case _ => None
  }

  function ExpUnary(toks: seq<Token>, st: State): (r: Parsed)
    requires Valid(toks, st)
    ensures Moves(toks, st, r)
    decreases Left(toks, st), 13, 0
  {
    var u := UnaryOf(st.curtok);
    if u.None? then Exp0(toks, st)
    else
      var r := ExpUnary(toks, ReadTok(toks, st));
      if r.Bad? then r else Good(ApplyUnary(u.value, r.value), r.st.(lasttok := TNum(0)))
  }

  function Exp0(toks: seq<Token>, st: State): (r: Parsed)
    requires Valid(toks, st)
    ensures Moves(toks, st, r)
    decreases Left(toks, st), 12, 0
  {
    match st.curtok
    case TPreInc | TPreDec =>
      var s1 := ReadTok(toks, st.(lasttok := st.curtok));
      if !s1.curtok.TStr? then Bad(Syntax, s1.vars)
      else
        var v := Stepped(s1.tokval, st.curtok == TPreInc);
        var s2 := if s1.tokstr.Some? then Bind(s1, s1.tokstr.value, v) else s1;
        Good(v, ReadTok(toks, s2.(curtok := TNum(0))))
    case TLpar =>
      var r := ExpComma(toks, ReadTok(toks, st));
      if r.Bad? then r
      else if r.st.curtok != TRpar then Bad(Syntax, r.st.vars)
      else Good(r.value, ReadTok(toks, r.st))
    case TNum(_) => Good(st.tokval, ReadTok(toks, st))
    case TStr(x) =>
      var val := st.tokval;
      var s1 := ReadTok(toks, st.(tokstr := None, noeval := 1));
      if s1.curtok in {TPostInc, TPostDec} then
        var s2 := s1.(tokstr := st.tokstr, noeval := st.noeval, lasttok := TStr(x));
        var v := Stepped(val, s1.curtok == TPostInc);
        var s3 := if st.tokstr.Some? then Bind(s2, st.tokstr.value, v) else s2;
        Good(val, ReadTok(toks, s3.(curtok := TNum(0))))
      else Good(val, ReadTok(toks, st))
    case _ => Bad(Syntax, st.vars)
  }

  // ---------------------------------------------------------------- subexpr

  function Initial(vars: Store): State {
    State(0, TBegin, TBegin, 0, None, 0, vars)
  }

  /** Evaluate a whole expression. An empty one is 0. */
  function SubExpr(toks: seq<Token>, vars: Store): Outcome
    requires Proper(toks)
  {
    if toks == [] then Val(0, vars)
    else
      var s0 := Initial(vars);
      var r := ExpComma(toks, ReadTok(toks, s0));
      if r.Bad? then Fail(r.error, r.vars)
      else if r.st.curtok != End then Fail(Syntax, r.st.vars)
      else Val(r.value, r.st.vars)
  }
}
