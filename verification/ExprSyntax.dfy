/** Arithmetic expressions: the tokens expr.c reads, the trees they are written from, and what a tree
    means. The meaning follows section 2.6.4 of POSIX.1-2017 XCU on 64-bit two's complement numbers
    and knows nothing of tokens. */
module ExprSyntax {
  import opened Int64

  /** The left-associative binary operators. */
  datatype Op =
    | Mul | Div | Mod | Plus | Minus | Shl | Shr
    | Le | Ge | Lt | Gt | EqEq | Neq | BAnd | BXor | BOr

  datatype UnOp = Not | BNot | Neg | Pos

  datatype Token =
    | End
    | TNum(value: int64) | TStr(name: string)
    | TOp(op: Op) | TNot | TBNot | TPower | TLand | TLor | TQues | TCol | TComma
    | TLpar | TRpar | TEq | TOpAssign(assignOp: Op)
    | TPreInc | TPreDec | TPostInc | TPostDec
    | TCond   // never read, only noted as the previous token
    | TBegin  // curtok before anything is read

  datatype Expr =
    | Num(value: int64)
    | Var(name: string)
    | Pre(name: string, inc: bool)
    | Post(name: string, inc: bool)
    | Unary(unop: UnOp, arg: Expr)
    | Power(base: Expr, exponent: Expr)
    | Binary(op: Op, left: Expr, right: Expr)
    | And(left: Expr, right: Expr)
    | Or(left: Expr, right: Expr)
    | Cond(test: Expr, yes: Expr, no: Expr)
    | Assign(name: string, rhs: Expr)
    | OpAssign(name: string, op: Op, rhs: Expr)
    | Comma(left: Expr, right: Expr)

  // ---------------------------------------------------------------- writing trees

  /** How tightly an operator binds: 5 for `|` up to 12 for `*`. */
  function OpLevel(op: Op): (k: nat)
    ensures 5 <= k <= 12
  {
    match op
    case BOr => 5
    case BXor => 6
    case BAnd => 7
    case EqEq | Neq => 8
    case Le | Ge | Lt | Gt => 9
    case Shl | Shr => 10
    case Plus | Minus => 11
    case Mul | Div | Mod => 12
  }

  function Level(e: Expr): (k: nat)
    ensures k <= 15
  {
    match e
    case Comma(_, _) => 0
    case Assign(_, _) | OpAssign(_, _, _) => 1
    case Cond(_, _, _) => 2
    case Or(_, _) => 3
    case And(_, _) => 4
    case Binary(op, _, _) => OpLevel(op)
    case Power(_, _) => 13
    case Unary(_, _) => 14
    case _ => 15
  }

  /** Comparisons have no assignment form. */
  predicate Assignable(op: Op) {
    op !in {Le, Ge, Lt, Gt, EqEq, Neq}
  }

  predicate WellFormed(e: Expr) {
    match e
    case Num(_) | Var(_) | Pre(_, _) | Post(_, _) => true
    case Unary(_, a) => WellFormed(a)
    case Power(l, r) => WellFormed(l) && WellFormed(r)
    case Binary(_, l, r) => WellFormed(l) && WellFormed(r)
    case And(l, r) => WellFormed(l) && WellFormed(r)
    case Or(l, r) => WellFormed(l) && WellFormed(r)
    case Cond(c, a, b) => WellFormed(c) && WellFormed(a) && WellFormed(b)
    case Assign(_, r) => WellFormed(r)
    case OpAssign(_, op, r) => Assignable(op) && WellFormed(r)
    case Comma(l, r) => WellFormed(l) && WellFormed(r)
  }

  function UnToken(op: UnOp): Token {
    match op
    case Not => TNot
    case BNot => TBNot
    case Neg => TOp(Minus)
    case Pos => TOp(Plus)
  }

  /** The tokens of `e` where an operand of level `k` is expected: parenthesised only if it binds less
      tightly than that. */
  function Tokens(e: Expr, k: nat): (t: seq<Token>)
    ensures t != []
    decreases e, 1
  {
    if Level(e) < k then [TLpar] + (Body(e) + [TRpar]) else Body(e)
  }

  function Body(e: Expr): (t: seq<Token>)
    ensures t != []
    decreases e, 0
  {
    match e
    case Num(v) => [TNum(v)]
    case Var(x) => [TStr(x)]
    case Pre(x, inc) => [if inc then TPreInc else TPreDec] + [TStr(x)]
    case Post(x, inc) => [TStr(x)] + [if inc then TPostInc else TPostDec]
    case Unary(op, a) => [UnToken(op)] + Tokens(a, 14)
    case Power(l, r) => Tokens(l, 14) + ([TPower] + Tokens(r, 13))
    case Binary(op, l, r) => Tokens(l, OpLevel(op)) + ([TOp(op)] + Tokens(r, OpLevel(op) + 1))
    case And(l, r) => Tokens(l, 4) + ([TLand] + Tokens(r, 5))
    case Or(l, r) => Tokens(l, 3) + ([TLor] + Tokens(r, 4))
    case Cond(c, a, b) => Tokens(c, 3) + ([TQues] + (Tokens(a, 0) + ([TCol] + Tokens(b, 2))))
    case Assign(x, r) => [TStr(x)] + ([TEq] + Tokens(r, 1))
    case OpAssign(x, op, r) => [TStr(x)] + ([TOpAssign(op)] + Tokens(r, 1))
    case Comma(l, r) => Tokens(l, 0) + ([TComma] + Tokens(r, 1))
  }

  // ---------------------------------------------------------------- what trees mean

  type Store = map<string, int64>

  datatype Error = DivisionByZero | NegativeExponent | Syntax

  datatype Outcome =
    | Val(value: int64, store: Store)
    | Fail(error: Error, store: Store)

  function Lookup(s: Store, x: string): int64 { if x in s then s[x] else 0 }

  function Bool(b: bool): int64 { if b then 1 else 0 }

  function ToBits(x: int64): bv64 { (if x < 0 then x + TWO64 else x) as bv64 }

  function FromBits(b: bv64): int64 { Wrap(b as int) }

  function Pow(b: int, n: nat): int { if n == 0 then 1 else b * Pow(b, n - 1) }

  function Pow2(n: nat): (r: nat)
    ensures r > 0
  {
    if n == 0 then 1 else 2 * Pow2(n - 1)
  }

  /** Division that truncates toward zero, as C has it. */
  function Quotient(a: int, b: int): int
    requires b != 0
  {
    if a >= 0 then a / b else -(-a / b)
  }

  function Remainder(a: int, b: int): int
    requires b != 0
  {
    a - Quotient(a, b) * b
  }

  /** A shift count outside 0..63 is undefined in C; the model takes it modulo 64. */
  function Count(n: int64): nat { n % 64 }

  function Compute(op: Op, a: int64, b: int64): int64
    requires op in {Div, Mod} ==> b != 0
  {
    match op
    case Mul => Wrap(a * b)
    case Div => Wrap(Quotient(a, b))
    case Mod => Wrap(Remainder(a, b))
    case Plus => Wrap(a + b)
    case Minus => Wrap(a - b)
    case Shl => Wrap(a * Pow2(Count(b)))
    case Shr => Wrap(a / Pow2(Count(b)))
    case Le => Bool(a <= b)
    case Ge => Bool(a >= b)
    case Lt => Bool(a < b)
    case Gt => Bool(a > b)
    case EqEq => Bool(a == b)
    case Neq => Bool(a != b)
    case BAnd => FromBits(ToBits(a) & ToBits(b))
    case BXor => FromBits(ToBits(a) ^ ToBits(b))
    case BOr => FromBits(ToBits(a) | ToBits(b))
  }

  function Apply(op: Op, a: int64, b: int64, s: Store): Outcome {
    if op in {Div, Mod} && b == 0 then Fail(DivisionByZero, s) else Val(Compute(op, a, b), s)
  }

  function ApplyPower(a: int64, b: int64, s: Store): Outcome {
    if b < 0 then Fail(NegativeExponent, s) else Val(Wrap(Pow(a, b)), s)
  }

  function ApplyUnary(op: UnOp, a: int): int64
    requires Fits(a) {
    match op
    case Not => Bool(a == 0)
    case BNot => Wrap(0 - a - 1)
    case Neg => Wrap(0 - a)
    case Pos => a
  }

  function Stepped(v: int64, inc: bool): int64 { Wrap(if inc then v + 1 else v - 1) }

  /** Evaluation from left to right; an operand that is not needed is not evaluated, an error ends it. */
  function Eval(e: Expr, s: Store): Outcome {
    match e
    case Num(v) => Val(v, s)
    case Var(x) => Val(Lookup(s, x), s)
    case Pre(x, inc) => var v := Stepped(Lookup(s, x), inc); Val(v, s[x := v])
    case Post(x, inc) => var v := Lookup(s, x); Val(v, s[x := Stepped(v, inc)])
    case Unary(op, a) =>
      var r := Eval(a, s);
      if r.Fail? then r else Val(ApplyUnary(op, r.value), r.store)
    case Power(l, r) =>
      var a := Eval(l, s);
      if a.Fail? then a else
      var b := Eval(r, a.store);
      if b.Fail? then b else ApplyPower(a.value, b.value, b.store)
    case Binary(op, l, r) =>
      var a := Eval(l, s);
      if a.Fail? then a else
      var b := Eval(r, a.store);
      if b.Fail? then b else Apply(op, a.value, b.value, b.store)
    case And(l, r) =>
      var a := Eval(l, s);
      if a.Fail? then a else if a.value == 0 then Val(0, a.store) else
      var b := Eval(r, a.store);
      if b.Fail? then b else Val(Bool(b.value != 0), b.store)
    case Or(l, r) =>
      var a := Eval(l, s);
      if a.Fail? then a else if a.value != 0 then Val(1, a.store) else
      var b := Eval(r, a.store);
      if b.Fail? then b else Val(Bool(b.value != 0), b.store)
    case Cond(c, a, b) =>
      var t := Eval(c, s);
      if t.Fail? then t else Eval(if t.value != 0 then a else b, t.store)
    case Assign(x, r) =>
      var a := Eval(r, s);
      if a.Fail? then a else Val(a.value, a.store[x := a.value])
    case OpAssign(x, op, r) =>
      var before := Lookup(s, x);
      var a := Eval(r, s);
      if a.Fail? then a else
      var b := Apply(op, before, a.value, a.store);
      if b.Fail? then b else Val(b.value, b.store[x := b.value])
    case Comma(l, r) =>
      var a := Eval(l, s);
      if a.Fail? then a else Eval(r, a.store)
  }
}
