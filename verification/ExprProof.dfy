/** The evaluator against the meaning of trees: running the parsing functions over the tokens of a tree
    gives what the tree means. */
module ExprProof {
  import opened Wrappers
  import opened Int64
  import opened ExprSyntax
  import opened ExprParser

  /** The level at which a token continues an expression, -1 if at none. */
  function TokLevel(t: Token): (k: int)
    ensures -1 <= k <= 15
  {
    match t
    case TComma => 0
    case TEq | TOpAssign(_) => 1
    case TQues => 2
    case TLor => 3
    case TLand => 4
    case TOp(op) => OpLevel(op)
    case TPower => 13
    case TPostInc | TPostDec => 15
    case _ => -1
  }

  predicate WrittenAt(toks: seq<Token>, p: nat, ts: seq<Token>) {
    p + |ts| <= |toks| && toks[p..p + |ts|] == ts
  }

  /** The token at position `q` is the current one and has been read in this state. */
  predicate Arrived(toks: seq<Token>, st: State, q: nat) {
    && Valid(toks, st) && q <= |toks| && st.curtok == TokenAt(toks, q)
    && st.tp == (if q < |toks| then q + 1 else q)
    && (st.curtok.TStr? ==> st.tokstr == Some(st.curtok.name))
    && (st.curtok.TStr? && TokenAt(toks, q + 1) != TEq ==>
          st.tokval == if st.noeval == 0 then Lookup(st.vars, st.curtok.name) else 0)
    && (st.curtok.TNum? ==> st.tokval == st.curtok.value)
  }

  /** `r` is what `e` means in the state before it; with evaluation off, nothing but the tokens is
      consumed: no variable changes and no error is raised. */
  predicate Means(e: Expr, toks: seq<Token>, q: nat, st: State, r: Parsed) {
    if st.noeval > 0 then
      r.Good? && Arrived(toks, r.st, q) && r.st.vars == st.vars && r.st.noeval == st.noeval
    else
      match Eval(e, st.vars)
      case Fail(x, s) => r == Bad(x, s)
      case Val(v, s) => r.Good? && r.value == v && Arrived(toks, r.st, q) && r.st.vars == s && r.st.noeval == 0
  }

  function Parse(k: nat, toks: seq<Token>, st: State): (r: Parsed)
    requires Valid(toks, st) && k <= 15
    ensures Moves(toks, st, r)
  {
    if k == 0 then ExpComma(toks, st)
    else if k == 1 then ExpAssign(toks, st)
    else if k == 2 then ExpCond(toks, st)
    else if k == 3 then ExpOr(toks, st)
    else if k == 4 then ExpAnd(toks, st)
    else if k <= 12 then ExpLeft(toks, k, st)
    else if k == 13 then ExpPower(toks, st)
    else if k == 14 then ExpUnary(toks, st)
    else Exp0(toks, st)
  }

  predicate HasLoop(k: nat) { k == 0 || 3 <= k <= 13 }

  /** The loop of level `k` after a first operand. */
  function Rest(k: nat, toks: seq<Token>, r: Parsed): Parsed
    requires HasLoop(k) && (r.Good? ==> Valid(toks, r.st))
  {
    if r.Bad? then r
    else if k == 0 then CommaRest(toks, r.value, r.st)
    else if k == 3 then OrRest(toks, r.value, r.st)
    else if k == 4 then AndRest(toks, r.value, r.st)
    else if k <= 12 then LeftRest(toks, k, r.value, r.st)
    else PowerRest(toks, r.value, r.st)
  }

  // ---------------------------------------------------------------- one step of each level

  lemma ReadArrives(toks: seq<Token>, st: State)
    requires Valid(toks, st)
    ensures Arrived(toks, ReadTok(toks, st), st.tp)
  {
  }

  lemma ParseLoop(k: nat, toks: seq<Token>, st: State)
    requires Valid(toks, st) && HasLoop(k)
    ensures Parse(k, toks, st) == Rest(k, toks, Parse(k + 1, toks, st))
  {
  }

  lemma RestStop(k: nat, toks: seq<Token>, r: Parsed)
    requires HasLoop(k) && (r.Good? ==> Valid(toks, r.st) && TokLevel(r.st.curtok) != k)
    ensures Rest(k, toks, r) == r
  {
  }

  lemma RestComma(toks: seq<Token>, r: Parsed)
    requires r.Good? && Valid(toks, r.st) && r.st.curtok == TComma
    ensures Rest(0, toks, r) == Rest(0, toks, Parse(1, toks, ReadTok(toks, r.st)))
  {
  }

  function Skipping(st: State, off: bool): State { if off then st.(noeval := st.noeval + 1) else st }

  /** After an operand that may have been skipped. */
  function Unskipped(b: Parsed, off: bool, v: int64, last: Token): Parsed
    requires b.Good? && off ==> b.st.noeval > 0
  {
    if b.Bad? then b
    else Good(v, b.st.(noeval := if off then b.st.noeval - 1 else b.st.noeval, lasttok := last))
  }

  lemma RestOr(toks: seq<Token>, r: Parsed)
    requires r.Good? && Valid(toks, r.st) && r.st.curtok == TLor
    ensures var off := r.value != 0;
      var b := Parse(4, toks, ReadTok(toks, Skipping(r.st, off)));
      Rest(3, toks, r) == Rest(3, toks,
        Unskipped(b, off, if b.Good? then Bool(r.value != 0 || b.value != 0) else 0, TLor))
  {
  }

  lemma RestAnd(toks: seq<Token>, r: Parsed)
    requires r.Good? && Valid(toks, r.st) && r.st.curtok == TLand
    ensures var off := r.value == 0;
      var b := Parse(5, toks, ReadTok(toks, Skipping(r.st, off)));
      Rest(4, toks, r) == Rest(4, toks,
        Unskipped(b, off, if b.Good? then Bool(r.value != 0 && b.value != 0) else 0, TLand))
  {
  }

  /** After the right operand of a left-associative operator. */
  function LeftDone(op: Op, val1: int64, b: Parsed): Parsed {
    if b.Bad? then b
    else if op in {Div, Mod} && b.value == 0 && b.st.noeval == 0 then Bad(DivisionByZero, b.st.vars)
    else Good(Combined(op, val1, b.value), b.st.(lasttok := NextLast(op, val1, b)))
  }

  lemma RestLeft(k: nat, toks: seq<Token>, r: Parsed)
    requires 5 <= k <= 12 && r.Good? && Valid(toks, r.st)
    requires r.st.curtok.TOp? && OpLevel(r.st.curtok.op) == k
    ensures Rest(k, toks, r) ==
            Rest(k, toks, LeftDone(r.st.curtok.op, r.value, Parse(k + 1, toks, ReadTok(toks, r.st))))
  {
  }

  /** After the right operand of `**`, which is never followed by another `**`. */
  function PowerDone(val1: int64, b: Parsed): Parsed {
    if b.Bad? then b
    else
      var s := b.st.(lasttok := TNum(0));
      if s.noeval > 0 || b.value == 0 then Good(1, s)
      else if b.value < 0 then Bad(NegativeExponent, s.vars)
      else Good(Wrap(Pow(val1, b.value)), s)
  }

  lemma RestPowerStep(toks: seq<Token>, r: Parsed)
    requires r.Good? && Valid(toks, r.st) && r.st.curtok == TPower
    ensures var b := Parse(13, toks, ReadTok(toks, r.st));
      && (b.Bad? ==> Rest(13, toks, r) == b)
      && (b.Good? ==>
            var s := b.st.(lasttok := TNum(0));
            Rest(13, toks, r) ==
            if s.noeval > 0 then Rest(13, toks, Good(1, s))
            else if b.value <= 0 then PowerDone(r.value, b)
            else Rest(13, toks, Good(Wrap(Pow(r.value, b.value)), s)))
  {
  }

  lemma RestPower(toks: seq<Token>, r: Parsed)
    requires r.Good? && Valid(toks, r.st) && r.st.curtok == TPower
    requires var b := Parse(13, toks, ReadTok(toks, r.st)); b.Good? ==> b.st.curtok != TPower
    ensures Rest(13, toks, r) == PowerDone(r.value, Parse(13, toks, ReadTok(toks, r.st)))
  {
    hide Parse, Rest, ReadTok;
    var b := Parse(13, toks, ReadTok(toks, r.st));
    RestPowerStep(toks, r);
    if b.Good? {
      var s := b.st.(lasttok := TNum(0));
      RestStop(13, toks, Good(1, s));
      RestStop(13, toks, PowerDone(r.value, b));
    }
  }

  lemma ParseUnary(toks: seq<Token>, st: State)
    requires Valid(toks, st)
    ensures UnaryOf(st.curtok).None? ==> Parse(14, toks, st) == Parse(15, toks, st)
    ensures UnaryOf(st.curtok).Some? ==>
      var r := Parse(14, toks, ReadTok(toks, st));
      Parse(14, toks, st) ==
      if r.Bad? then r else Good(ApplyUnary(UnaryOf(st.curtok).value, r.value), r.st.(lasttok := TNum(0)))
  {
  }

  lemma ParseAssign(toks: seq<Token>, st: State)
    requires Valid(toks, st)
    ensures var r := Parse(2, toks, st);
      r.Bad? || TokLevel(r.st.curtok) != 1 ==> Parse(1, toks, st) == r
    ensures var r := Parse(2, toks, st);
      r.Good? && TokLevel(r.st.curtok) == 1 && r.st.lasttok.TStr? && r.st.tokstr.Some? ==>
      var a := Parse(1, toks, ReadTok(toks, r.st));
      Parse(1, toks, st) ==
      if a.Bad? then a else Assigned(r.st.curtok, r.st.tokstr.value, r.value, a.value, a.st)
  {
  }

  lemma ParseCond(toks: seq<Token>, st: State)
    requires Valid(toks, st)
    ensures var c := Parse(3, toks, st);
      c.Bad? || c.st.curtok != TQues ==> Parse(2, toks, st) == c
  {
  }

  // ---------------------------------------------------------------- tokens in their places

  lemma Split(toks: seq<Token>, p: nat, a: seq<Token>, b: seq<Token>)
    requires WrittenAt(toks, p, a + b)
    ensures WrittenAt(toks, p, a) && WrittenAt(toks, p + |a|, b)
    ensures a != [] ==> TokenAt(toks, p) == a[0]
    ensures b != [] ==> TokenAt(toks, p + |a|) == b[0]
  {
    assert toks[p..p + |a|] == (a + b)[..|a|];
    assert toks[p + |a|..p + |a| + |b|] == (a + b)[|a|..];
    assert a != [] ==> toks[p..p + |a|][0] == toks[p];
    assert b != [] ==> toks[p + |a|..p + |a| + |b|][0] == toks[p + |a|];
  }

  lemma First(toks: seq<Token>, p: nat, a: seq<Token>)
    requires WrittenAt(toks, p, a) && a != []
    ensures TokenAt(toks, p) == a[0]
  {
    assert toks[p..p + |a|][0] == toks[p];
  }

  /** `a op b` in its place. */
  lemma SplitAt(toks: seq<Token>, p: nat, a: seq<Token>, t: Token, b: seq<Token>)
    requires WrittenAt(toks, p, a + ([t] + b))
    ensures WrittenAt(toks, p, a) && TokenAt(toks, p + |a|) == t && WrittenAt(toks, p + |a| + 1, b)
  {
    Split(toks, p, a, [t] + b);
    Split(toks, p + |a|, [t], b);
  }

  /** A tree's first token is an operand's: it ends no group and separates nothing. */
  lemma {:induction false} FirstToken(e: Expr, k: nat)
    ensures var t := Tokens(e, k)[0];
      && t !in {End, TCol, TRpar, TEq, TQues}
      && (k == 15 ==> UnaryOf(t).None?)
      && (e.Unary? && k <= 14 ==> UnaryOf(t) == Some(e.unop))
    decreases e
  {
    if Level(e) >= k {
      match e
      case Power(l, r) => FirstToken(l, 14);
      case Binary(op, l, r) => FirstToken(l, OpLevel(op));
      case And(l, r) => FirstToken(l, 4);
      case Or(l, r) => FirstToken(l, 3);
      case Cond(c, a, b) => FirstToken(c, 3);
      case Comma(l, r) => FirstToken(l, 0);
      case _ =>
    }
  }

  // ---------------------------------------------------------------- operands

  lemma MeansArrives(e: Expr, toks: seq<Token>, q: nat, st: State, r: Parsed)
    requires Means(e, toks, q, st, r)
    ensures r.Good? ==> Arrived(toks, r.st, q) && r.st.noeval == st.noeval
    ensures r.Bad? ==> st.noeval == 0
  {
    hide Eval, Arrived;
  }

  lemma Exp0Cases(toks: seq<Token>, st: State)
    requires Valid(toks, st)
    ensures var after := ReadTok(toks, st);
      && (st.curtok.TNum? ==> Parse(15, toks, st) == Good(st.tokval, after))
      && (st.curtok.TStr? && after.curtok !in {TPostInc, TPostDec} ==> Parse(15, toks, st) == Good(st.tokval, after))
      && (st.curtok == TLpar ==>
            var r := Parse(0, toks, after);
            Parse(15, toks, st) ==
            if r.Bad? then r
            else if r.st.curtok != TRpar then Bad(Syntax, r.st.vars)
            else Good(r.value, ReadTok(toks, r.st)))
  {
    hide ExpComma;
    if st.curtok.TStr? {
      var s1 := ReadTok(toks, st.(tokstr := None, noeval := 1));
      assert s1.curtok == ReadTok(toks, st).curtok;
    }
  }

  function BindTo(st: State, x: Option<string>, v: int64): State {
    if x.Some? then Bind(st, x.value, v) else st
  }

  lemma Exp0Pre(toks: seq<Token>, st: State)
    requires Valid(toks, st) && st.curtok in {TPreInc, TPreDec}
    ensures var s1 := ReadTok(toks, st.(lasttok := st.curtok));
      var v := Stepped(s1.tokval, st.curtok == TPreInc);
      Parse(15, toks, st) ==
      if s1.curtok.TStr? then Good(v, ReadTok(toks, BindTo(s1, s1.tokstr, v).(curtok := TNum(0))))
      else Bad(Syntax, st.vars)
  {
  }

  lemma Exp0Post(toks: seq<Token>, st: State)
    requires Valid(toks, st) && st.curtok.TStr?
    requires st.tp < |toks| && toks[st.tp] in {TPostInc, TPostDec}
    ensures var v := Stepped(st.tokval, toks[st.tp] == TPostInc);
      Parse(15, toks, st) == Good(st.tokval, ReadTok(toks,
        BindTo(st, st.tokstr, v).(tp := st.tp + 1, lasttok := st.curtok, curtok := TNum(0))))
  {
    assert toks[st.tp] in toks;
  }

  /** `++x` and `--x`. */
  lemma PreMeans(e: Expr, toks: seq<Token>, st: State, p: nat)
    requires e.Pre? && Placed(e, 15, toks, st, p, 15)
    ensures Means(e, toks, p + |Tokens(e, 15)|, st, Parse(15, toks, st))
  {
    hide Parse, Stepped;
    assert Tokens(e, 15) == Body(e);
    Split(toks, p, [if e.inc then TPreInc else TPreDec], [TStr(e.name)]);
    var s0 := st.(lasttok := st.curtok);
    var s1 := ReadTok(toks, s0);
    Exp0Pre(toks, st);
    var v := Stepped(s1.tokval, e.inc);
    ReadArrives(toks, Bind(s1, e.name, v).(curtok := TNum(0)));
  }

  /** `x++` and `x--`. */
  lemma PostMeans(e: Expr, toks: seq<Token>, st: State, p: nat)
    requires e.Post? && Placed(e, 15, toks, st, p, 15)
    ensures Means(e, toks, p + |Tokens(e, 15)|, st, Parse(15, toks, st))
  {
    hide Parse, Stepped;
    assert Tokens(e, 15) == Body(e);
    Split(toks, p, [TStr(e.name)], [if e.inc then TPostInc else TPostDec]);
    Exp0Post(toks, st);
    var v := Stepped(st.tokval, e.inc);
    ReadArrives(toks, Bind(st, e.name, v).(tp := st.tp + 1, lasttok := st.curtok, curtok := TNum(0)));
  }

  ghost predicate Placed(e: Expr, k: nat, toks: seq<Token>, st: State, p: nat, bound: int) {
    var follow := TokenAt(toks, p + |Tokens(e, k)|);
    && WellFormed(e) && k <= 15 && Arrived(toks, st, p) && WrittenAt(toks, p, Tokens(e, k))
    && TokLevel(follow) < bound && follow != TEq && !follow.TStr?
  }

  /** A variable on the left of an assignment comes through all levels untouched. */
  lemma {:induction false} VarThrough(k: nat, x: string, toks: seq<Token>, st: State, p: nat)
    requires 2 <= k <= 15 && Arrived(toks, st, p) && TokenAt(toks, p) == TStr(x)
    requires TokLevel(TokenAt(toks, p + 1)) == 1
    ensures var r := Parse(k, toks, st);
      && r.Good? && r.value == st.tokval && Arrived(toks, r.st, p + 1)
      && r.st.vars == st.vars && r.st.noeval == st.noeval && r.st.lasttok.TStr? && r.st.tokstr == Some(x)
    decreases 16 - k
  {
    hide Parse, Rest, Arrived;
    ArrivedFacts(toks, st, p);
    if k == 15 {
      Exp0Cases(toks, st);
      ReadArrives(toks, st);
      ArrivedFacts(toks, ReadTok(toks, st), p + 1);
    } else {
      VarThrough(k + 1, x, toks, st, p);
      var r := Parse(k + 1, toks, st);
      ArrivedFacts(toks, r.st, p + 1);
      if HasLoop(k) {
        ParseLoop(k, toks, st);
        RestStop(k, toks, r);
      } else if k == 14 {
        ParseUnary(toks, st);
      } else {
        ParseCond(toks, st);
      }
    }
  }

  lemma ArrivedFacts(toks: seq<Token>, st: State, p: nat)
    requires Arrived(toks, st, p)
    ensures Valid(toks, st) && p <= |toks| && st.curtok == TokenAt(toks, p)
    ensures st.tp == if p < |toks| then p + 1 else p
    ensures st.curtok.TStr? ==> st.tokstr == Some(st.curtok.name)
  {
  }

  // ---------------------------------------------------------------- the induction

  /** Parsing a tree's tokens at level `k` gives its meaning, whatever tokens stand before it, and
      whatever stands behind it that does not continue an expression of that level. */
  lemma {:induction false} ParseMeans(e: Expr, k: nat, toks: seq<Token>, st: State, p: nat)
    requires Placed(e, k, toks, st, p, k)
    ensures Means(e, toks, p + |Tokens(e, k)|, st, Parse(k, toks, st))
    decreases e, if Level(e) < k then 1 else 0, 16 - k, 1
  {
    hide *;
    var q := p + |Tokens(e, k)|;
    PlacedFacts(e, k, toks, st, p, k);
    if IsLoop(k) {
      PlacedForLoop(e, k, toks, st, p);
      var r := Spine(e, k, toks, st, p);
      LoopEnds(e, k, toks, p, q, st, r);
    } else if k == 15 {
      if Level(e) < 15 {
        Parenthesised(e, toks, st, p);
      } else {
        PrimaryMeans(e, toks, st, p);
      }
    } else if Level(e) == k {
      KindOfLevel(e);
      if k == 14 {
        UnaryMeans(e, toks, st, p);
      } else if k == 2 {
        CondMeans(e, toks, st, p);
      } else {
        AssignMeans(e, toks, st, p);
      }
    } else {
      PlacedNext(e, k, toks, st, p);
      ParseMeans(e, k + 1, toks, st, p);
      PassLevel(e, k, toks, st, p);
    }
  }

  predicate IsLoop(k: nat)
    ensures IsLoop(k) <==> HasLoop(k)
    ensures IsLoop(k) <==> (k == 0 || 3 <= k <= 13)
  {
    HasLoop(k)
  }

  lemma PlacedForLoop(e: Expr, k: nat, toks: seq<Token>, st: State, p: nat)
    requires Placed(e, k, toks, st, p, k)
    ensures Placed(e, k, toks, st, p, if k == 13 then 13 else k + 1)
  {
  }

  lemma KindOfLevel(e: Expr)
    ensures Level(e) == 14 <==> e.Unary?
    ensures Level(e) == 2 <==> e.Cond?
    ensures Level(e) == 1 <==> e.Assign? || e.OpAssign?
  {
  }

  lemma LoopEnds(e: Expr, k: nat, toks: seq<Token>, p: nat, q: nat, st: State, r: Parsed)
    requires HasLoop(k) && Placed(e, k, toks, st, p, k) && q == p + |Tokens(e, k)|
    requires Means(e, toks, q, st, r) && (r.Good? ==> Valid(toks, r.st))
    ensures Rest(k, toks, r) == r
  {
    hide Rest, Tokens, Arrived, WrittenAt, WellFormed, Means;
    MeansArrives(e, toks, q, st, r);
    if r.Good? {
      ArrivedFacts(toks, r.st, q);
    }
    RestStop(k, toks, r);
  }

  lemma PlacedNext(e: Expr, k: nat, toks: seq<Token>, st: State, p: nat)
    requires Placed(e, k, toks, st, p, k) && k < 15 && Level(e) != k
    ensures Placed(e, k + 1, toks, st, p, k + 1)
    ensures Tokens(e, k) == Tokens(e, k + 1) && (Level(e) < k <==> Level(e) < k + 1)
  {
    hide Tokens, Arrived, WrittenAt, WellFormed;
    SameTokens(e, k);
  }

  /** A level without a loop passes on what does not begin with its operator. */
  lemma PassLevel(e: Expr, k: nat, toks: seq<Token>, st: State, p: nat)
    requires Placed(e, k, toks, st, p, k) && k in {1, 2, 14} && Level(e) != k && Valid(toks, st)
    requires Means(e, toks, p + |Tokens(e, k)|, st, Parse(k + 1, toks, st))
    ensures Parse(k, toks, st) == Parse(k + 1, toks, st)
  {
    hide Parse, Arrived, Means, Tokens, Body, WrittenAt, WellFormed;
    var q, r := p + |Tokens(e, k)|, Parse(k + 1, toks, st);
    PlacedFacts(e, k, toks, st, p, k);
    MeansArrives(e, toks, q, st, r);
    if r.Good? {
      ArrivedFacts(toks, r.st, q);
    }
    if k == 14 {
      SameTokens(e, 14);
      FirstToken(e, 15);
      ParseUnary(toks, st);
    } else if k == 2 {
      ParseCond(toks, st);
    } else {
      ParseAssign(toks, st);
    }
  }

  lemma SameTokens(e: Expr, k: nat)
    requires k < 15 && Level(e) != k
    ensures Tokens(e, k) == Tokens(e, k + 1) && (Level(e) < k <==> Level(e) < k + 1)
  {
    hide Body;
  }

  lemma PlacedFacts(e: Expr, k: nat, toks: seq<Token>, st: State, p: nat, bound: int)
    requires Placed(e, k, toks, st, p, bound)
    ensures WellFormed(e) && k <= 15 && Valid(toks, st) && st.tp == p + 1 <= |toks|
    ensures WrittenAt(toks, p, Tokens(e, k)) && st.curtok == Tokens(e, k)[0]
  {
    hide Tokens, WellFormed;
    First(toks, p, Tokens(e, k));
  }

  lemma PlacedPart(e: Expr, k: nat, toks: seq<Token>, st: State, p: nat, bound: int)
    requires WellFormed(e) && k <= 15 && Arrived(toks, st, p) && WrittenAt(toks, p, Tokens(e, k))
    requires var f := TokenAt(toks, p + |Tokens(e, k)|); TokLevel(f) < bound && f != TEq && !f.TStr?
    ensures Placed(e, k, toks, st, p, bound)
  {
  }

  lemma {:induction false} Parenthesised(e: Expr, toks: seq<Token>, st: State, p: nat)
    requires Placed(e, 15, toks, st, p, 15) && Level(e) < 15
    ensures Means(e, toks, p + |Tokens(e, 15)|, st, Parse(15, toks, st))
    decreases e, 1, 1, 0
  {
    hide Parse, Body, Eval, WellFormed, Arrived, WrittenAt, Placed, ReadTok, Tokens, Level;
    PlacedFacts(e, 15, toks, st, p, 15);
    ParenTokens(e);
    Split(toks, p, [TLpar], Body(e) + [TRpar]);
    Split(toks, p + 1, Body(e), [TRpar]);
    var s1 := ReadTok(toks, st);
    ReadArrives(toks, st);
    PlacedPart(e, 0, toks, s1, p + 1, 0);
    ParseMeans(e, 0, toks, s1, p + 1);
    var r := Parse(0, toks, s1);
    MeansArrives(e, toks, p + 1 + |Body(e)|, s1, r);
    Exp0Cases(toks, st);
    if r.Good? {
      ArrivedFacts(toks, r.st, p + 1 + |Body(e)|);
      ReadArrives(toks, r.st);
    }
  }

  lemma ParenTokens(e: Expr)
    requires Level(e) < 15
    ensures Tokens(e, 0) == Body(e) && Tokens(e, 15) == [TLpar] + (Body(e) + [TRpar])
  {
    hide Body;
  }

  lemma {:induction false} PrimaryMeans(e: Expr, toks: seq<Token>, st: State, p: nat)
    requires Placed(e, 15, toks, st, p, 15) && Level(e) == 15
    ensures Means(e, toks, p + |Tokens(e, 15)|, st, Parse(15, toks, st))
    decreases e, 0, 1, 0
  {
    hide Parse;
    First(toks, p, Tokens(e, 15));
    Exp0Cases(toks, st);
    if e.Pre? {
      PreMeans(e, toks, st, p);
    } else if e.Post? {
      PostMeans(e, toks, st, p);
    } else {
      ReadArrives(toks, st);
    }
  }

  lemma {:induction false} UnaryMeans(e: Expr, toks: seq<Token>, st: State, p: nat)
    requires e.Unary? && Placed(e, 14, toks, st, p, 14)
    ensures Means(e, toks, p + |Tokens(e, 14)|, st, Parse(14, toks, st))
    decreases e, 0, 2, 0
  {
    hide Parse, Arrived, WrittenAt, ApplyUnary, ReadTok, TokLevel;
    PlacedFacts(e, 14, toks, st, p, 14);
    Split(toks, p, [UnToken(e.unop)], Tokens(e.arg, 14));
    ReadArrives(toks, st);
    var s1 := ReadTok(toks, st);
    PlacedPart(e.arg, 14, toks, s1, p + 1, 14);
    ParseMeans(e.arg, 14, toks, s1, p + 1);
    MeansArrives(e.arg, toks, p + 1 + |Tokens(e.arg, 14)|, s1, Parse(14, toks, s1));
    ParseUnary(toks, st);
    ArrivedAnyway(toks, Parse(14, toks, s1), p + 1 + |Tokens(e.arg, 14)|, TNum(0));
  }

  /** Having read a token does not depend on which one was read before it. */
  lemma ArrivedAnyway(toks: seq<Token>, r: Parsed, q: nat, last: Token)
    ensures r.Good? && Arrived(toks, r.st, q) ==> Arrived(toks, r.st.(lasttok := last), q)
  {
  }

  lemma {:induction false} AssignMeans(e: Expr, toks: seq<Token>, st: State, p: nat)
    requires (e.Assign? || e.OpAssign?) && Placed(e, 1, toks, st, p, 1)
    ensures Means(e, toks, p + |Tokens(e, 1)|, st, Parse(1, toks, st))
    decreases e, 0, 15, 0
  {
    hide Parse, Compute, Arrived, WrittenAt, Tokens, Body, Eval, Means, ReadTok, Placed, TokLevel;
    var tok := if e.Assign? then TEq else TOpAssign(e.op);
    PlacedFacts(e, 1, toks, st, p, 1);
    AssignTokens(e, tok);
    SplitAt(toks, p, [TStr(e.name)], tok, Tokens(e.rhs, 1));
    First(toks, p, [TStr(e.name)]);
    AfterAssign(e, toks, st, p, tok);
    VarThrough(2, e.name, toks, st, p);
    var r := Parse(2, toks, st);
    ArrivedFacts(toks, r.st, p + 1);
    var s1 := ReadTok(toks, r.st);
    ReadArrives(toks, r.st);
    PlacedPart(e.rhs, 1, toks, s1, p + 2, 1);
    ParseMeans(e.rhs, 1, toks, s1, p + 2);
    AssignConclude(e, toks, st, p, r, tok);
  }

  lemma AssignTokens(e: Expr, tok: Token)
    requires (e.Assign? && tok == TEq) || (e.OpAssign? && tok == TOpAssign(e.op))
    ensures Tokens(e, 1) == [TStr(e.name)] + ([tok] + Tokens(e.rhs, 1))
  {
  }

  lemma AfterAssign(e: Expr, toks: seq<Token>, st: State, p: nat, tok: Token)
    requires (e.Assign? && tok == TEq) || (e.OpAssign? && tok == TOpAssign(e.op))
    requires Placed(e, 1, toks, st, p, 1)
    ensures Arrived(toks, st, p) && WellFormed(e) && WellFormed(e.rhs) && (e.OpAssign? ==> Assignable(e.op))
    ensures TokLevel(tok) == 1 && p + |Tokens(e, 1)| == p + 2 + |Tokens(e.rhs, 1)|
    ensures var f := TokenAt(toks, p + 2 + |Tokens(e.rhs, 1)|); TokLevel(f) < 1 && f != TEq && !f.TStr?
  {
    AssignTokens(e, tok);
  }

  lemma AssignConclude(e: Expr, toks: seq<Token>, st: State, p: nat, r: Parsed, tok: Token)
    requires (e.Assign? && tok == TEq) || (e.OpAssign? && tok == TOpAssign(e.op) && Assignable(e.op))
    requires Arrived(toks, st, p) && st.curtok == TStr(e.name) && TokenAt(toks, p + 1) == tok
    requires r == Parse(2, toks, st) && r.Good? && r.value == st.tokval && Arrived(toks, r.st, p + 1)
    requires r.st.vars == st.vars && r.st.noeval == st.noeval && r.st.lasttok.TStr? && r.st.tokstr == Some(e.name)
    requires var q := p + 2 + |Tokens(e.rhs, 1)|;
      Means(e.rhs, toks, q, ReadTok(toks, r.st), Parse(1, toks, ReadTok(toks, r.st))) && !TokenAt(toks, q).TStr?
    ensures Means(e, toks, p + 2 + |Tokens(e.rhs, 1)|, st, Parse(1, toks, st))
  {
    hide Parse, Compute, Arrived, WrittenAt, Tokens, Parse, Rest, Body;
    var q := p + 2 + |Tokens(e.rhs, 1)|;
    var s1 := ReadTok(toks, r.st);
    var a := Parse(1, toks, s1);
    MeansArrives(e.rhs, toks, q, s1, a);
    ArrivedFacts(toks, r.st, p + 1);
    ParseAssign(toks, st);
    if e.OpAssign? {
      ReadValue(toks, st, p, e.name);
    }
    if a.Good? {
      ArrivedFacts(toks, a.st, q);
      AssignedArrives(toks, a.st, q, tok, e.name, r.value, a.value);
    }
  }

  lemma ReadValue(toks: seq<Token>, st: State, p: nat, x: string)
    requires Arrived(toks, st, p) && st.curtok == TStr(x) && TokenAt(toks, p + 1) != TEq
    ensures st.noeval == 0 ==> st.tokval == Lookup(st.vars, x)
  {
  }

  lemma AssignedArrives(toks: seq<Token>, st: State, q: nat, tok: Token, x: string, l: int64, v: int64)
    requires Arrived(toks, st, q) && !st.curtok.TStr? && (tok == TEq || tok.TOpAssign?)
    ensures var r := Assigned(tok, x, l, v, st);
      r.Good? ==> Arrived(toks, r.st, q) && r.st.noeval == st.noeval
  {
  }

  /** After the operand between `?` and `:`. */
  function Resumed(st: State, off: bool): State
    requires off ==> st.noeval > 0
  {
    if off then st.(noeval := st.noeval - 1) else st
  }

  lemma ParseCondFull(toks: seq<Token>, st: State)
    requires Valid(toks, st)
    requires var c := Parse(3, toks, st); c.Good? && c.st.curtok == TQues
    requires var c := Parse(3, toks, st);
      ReadTok(toks, Skipping(c.st, c.value == 0)).curtok !in {End, TCol}
    ensures var c := Parse(3, toks, st);
      var off := c.value == 0;
      var a := Parse(0, toks, ReadTok(toks, Skipping(c.st, off)));
      && (a.Bad? ==> Parse(2, toks, st) == a)
      && (a.Good? && a.st.curtok == TCol ==>
            Parse(2, toks, st) == CondElse(toks, c.value, a.value, Resumed(a.st, off)))
  {
    var c := Parse(3, toks, st);
    assert Parse(2, toks, st) == CondYes(toks, c.value, c.st);
    CondYesStep(toks, c.value, c.st);
  }

  lemma CondYesStep(toks: seq<Token>, cval: int64, st: State)
    requires Valid(toks, st) && st.curtok == TQues
    requires ReadTok(toks, Skipping(st, cval == 0)).curtok !in {End, TCol}
    ensures var off := cval == 0;
      var a := Parse(0, toks, ReadTok(toks, Skipping(st, off)));
      && (a.Bad? ==> CondYes(toks, cval, st) == a)
      && (a.Good? && a.st.curtok == TCol ==>
            CondYes(toks, cval, st) == CondElse(toks, cval, a.value, Resumed(a.st, off)))
  {
    hide ReadTok, CondElse, ExpComma, ExpCond;
  }

  lemma CondElseStep(toks: seq<Token>, cval: int64, val1: int64, st: State)
    requires Valid(toks, st) && st.curtok == TCol
    requires ReadTok(toks, Skipping(st, cval != 0)).curtok != End
    ensures var b := Parse(2, toks, ReadTok(toks, Skipping(st, cval != 0)));
      CondElse(toks, cval, val1, st) ==
      Unskipped(b, cval != 0, if cval == 0 && b.Good? then b.value else val1, TCond)
  {
  }

  /** Whether evaluation is on makes no difference to a token that is not a variable. */
  lemma ArrivedMode(toks: seq<Token>, st: State, q: nat, n: nat, last: Token)
    requires Arrived(toks, st, q) && !TokenAt(toks, q).TStr?
    ensures Arrived(toks, st.(noeval := n), q) && Arrived(toks, st.(noeval := n, lasttok := last), q)
  {
  }

  lemma {:induction false} CondMeans(e: Expr, toks: seq<Token>, st: State, p: nat)
    requires e.Cond? && Placed(e, 2, toks, st, p, 2)
    ensures Means(e, toks, p + |Tokens(e, 2)|, st, Parse(2, toks, st))
    decreases e, 0, 14, 0
  {
    hide Parse, Arrived, WrittenAt, Eval, Means, ReadTok, Placed, Body, Tokens, Level, TokLevel;
    CondPlaces(e, toks, st, p);
    PlacedFacts(e, 2, toks, st, p, 2);
    var m1 := p + |Tokens(e.test, 3)|;
    var m2 := m1 + 1 + |Tokens(e.yes, 0)|;
    ParseMeans(e.test, 3, toks, st, p);
    var c := Parse(3, toks, st);
    MeansArrives(e.test, toks, m1, st, c);
    if c.Bad? {
      ParseCond(toks, st);
      CondFails(e, toks, m1, m2 + 1 + |Tokens(e.no, 2)|, st, c);
    } else {
      ArrivedFacts(toks, c.st, m1);
      var s1 := ReadTok(toks, Skipping(c.st, c.value == 0));
      ReadArrives(toks, Skipping(c.st, c.value == 0));
      ArrivedFacts(toks, s1, m1 + 1);
      PlacedPart(e.yes, 0, toks, s1, m1 + 1, 0);
      ParseMeans(e.yes, 0, toks, s1, m1 + 1);
      CondElseMeans(e, toks, st, p, m1, m2, c, s1);
    }
  }

  lemma CondPlaces(e: Expr, toks: seq<Token>, st: State, p: nat)
    requires e.Cond? && Placed(e, 2, toks, st, p, 2)
    ensures var m1 := p + |Tokens(e.test, 3)|;
      var m2 := m1 + 1 + |Tokens(e.yes, 0)|;
      var q := m2 + 1 + |Tokens(e.no, 2)|;
      && q == p + |Tokens(e, 2)| && WellFormed(e.test) && WellFormed(e.yes) && WellFormed(e.no)
      && Placed(e.test, 3, toks, st, p, 3) && TokenAt(toks, m1) == TQues
      && WrittenAt(toks, m1 + 1, Tokens(e.yes, 0)) && TokenAt(toks, m2) == TCol
      && WrittenAt(toks, m2 + 1, Tokens(e.no, 2)) && TokenAt(toks, m1 + 1) !in {End, TCol}
      && TokenAt(toks, m2 + 1) != End
      && TokLevel(TokenAt(toks, q)) < 2 && TokenAt(toks, q) != TEq && !TokenAt(toks, q).TStr?
      && TokLevel(TCol) < 0
  {
    hide Arrived, WrittenAt, Tokens, WellFormed;
    var rest := [TCol] + Tokens(e.no, 2);
    CondTokens(e);
    SplitAt(toks, p, Tokens(e.test, 3), TQues, Tokens(e.yes, 0) + rest);
    var m1 := p + |Tokens(e.test, 3)|;
    SplitAt(toks, m1 + 1, Tokens(e.yes, 0), TCol, Tokens(e.no, 2));
    First(toks, m1 + 1, Tokens(e.yes, 0));
    First(toks, m1 + 2 + |Tokens(e.yes, 0)|, Tokens(e.no, 2));
    FirstToken(e.yes, 0);
    FirstToken(e.no, 2);
  }

  lemma CondTokens(e: Expr)
    requires e.Cond?
    ensures Tokens(e, 2) == Tokens(e.test, 3) + ([TQues] + (Tokens(e.yes, 0) + ([TCol] + Tokens(e.no, 2))))
    ensures WellFormed(e) ==> WellFormed(e.test) && WellFormed(e.yes) && WellFormed(e.no)
  {
  }

  lemma CondFails(e: Expr, toks: seq<Token>, m: nat, q: nat, st: State, c: Parsed)
    requires e.Cond? && Means(e.test, toks, m, st, c) && c.Bad?
    ensures Means(e, toks, q, st, c)
  {
    hide Arrived;
  }

  lemma {:induction false} CondElseMeans(
      e: Expr, toks: seq<Token>, st: State, p: nat, m1: nat, m2: nat, c: Parsed, s1: State)
    requires e.Cond? && Placed(e, 2, toks, st, p, 2)
    requires m1 == p + |Tokens(e.test, 3)| && m2 == m1 + 1 + |Tokens(e.yes, 0)|
    requires Valid(toks, st) && c == Parse(3, toks, st) && c.Good? && Valid(toks, c.st) && c.st.curtok == TQues
    requires Means(e.test, toks, m1, st, c) && c.st.noeval == st.noeval
    requires s1 == ReadTok(toks, Skipping(c.st, c.value == 0)) && s1.curtok !in {End, TCol}
    requires Means(e.yes, toks, m2, s1, Parse(0, toks, s1))
    ensures Means(e, toks, p + |Tokens(e, 2)|, st, Parse(2, toks, st))
    decreases e, 0, 13, 0
  {
    hide Parse, Arrived, WrittenAt, Eval, Means, ReadTok, Placed, Body, Tokens, Level, Skipping, Resumed,
         Unskipped, CondElse, Valid;
    CondPlaces(e, toks, st, p);
    PlacedFacts(e, 2, toks, st, p, 2);
    var q := p + |Tokens(e, 2)|;
    var off := c.value == 0;
    var a := Parse(0, toks, s1);
    MeansArrives(e.yes, toks, m2, s1, a);
    SkippingFacts(toks, c.st, off);
    ParseCondFull(toks, st);
    if a.Bad? {
      CondYesFails(e, toks, m1, m2, q, st, c, s1, a);
    } else {
      ArrivedFacts(toks, a.st, m2);
      ResumedFacts(toks, a.st, off);
      var s2 := CondNoMeans(e, toks, st, p, m2, Resumed(a.st, off), !off);
      CondElseStep(toks, c.value, a.value, Resumed(a.st, off));
      CondConclude(e, toks, m1, m2, q, st, c, s1, a, s2, Parse(2, toks, s2));
    }
  }

  /** The operand behind the colon, from the state before the colon on. */
  lemma {:induction false} CondNoMeans(
      e: Expr, toks: seq<Token>, st: State, p: nat, m2: nat, r: State, off: bool) returns (s2: State)
    requires e.Cond? && Placed(e, 2, toks, st, p, 2)
    requires m2 == p + |Tokens(e.test, 3)| + 1 + |Tokens(e.yes, 0)|
    requires Valid(toks, r) && r.tp == m2 + 1 && r.curtok == TCol
    ensures s2 == ReadTok(toks, Skipping(r, off)) && s2.curtok != End
    ensures s2.vars == r.vars && s2.noeval == r.noeval + if off then 1 else 0
    ensures var b := Parse(2, toks, s2);
      Means(e.no, toks, p + |Tokens(e, 2)|, s2, b) && (b.Good? ==> b.st.noeval == s2.noeval)
    decreases e, 0, 12, 0
  {
    hide Parse, Arrived, WrittenAt, Eval, Means, ReadTok, Placed, Body, Tokens, Level, Skipping, Valid, TokLevel;
    CondPlaces(e, toks, st, p);
    SkippingFacts(toks, r, off);
    s2 := ReadTok(toks, Skipping(r, off));
    ReadArrives(toks, Skipping(r, off));
    ArrivedFacts(toks, s2, m2 + 1);
    PlacedPart(e.no, 2, toks, s2, m2 + 1, 2);
    ParseMeans(e.no, 2, toks, s2, m2 + 1);
    MeansArrives(e.no, toks, p + |Tokens(e, 2)|, s2, Parse(2, toks, s2));
  }

  lemma SkippingFacts(toks: seq<Token>, st: State, off: bool)
    requires Valid(toks, st)
    ensures var s := Skipping(st, off);
      && Valid(toks, s) && s.vars == st.vars && s.tp == st.tp && s.curtok == st.curtok
      && s.noeval == st.noeval + if off then 1 else 0
  {
  }

  lemma ResumedFacts(toks: seq<Token>, st: State, off: bool)
    requires Valid(toks, st) && (off ==> st.noeval > 0)
    ensures var s := Resumed(st, off);
      && Valid(toks, s) && s.vars == st.vars && s.tp == st.tp && s.curtok == st.curtok
      && s.noeval == st.noeval - if off then 1 else 0
  {
  }

  lemma CondYesFails(e: Expr, toks: seq<Token>, m1: nat, m2: nat, q: nat, st: State, c: Parsed, s1: State, a: Parsed)
    requires e.Cond? && c.Good? && Means(e.test, toks, m1, st, c) && c.st.noeval == st.noeval
    requires s1.vars == c.st.vars && s1.noeval == c.st.noeval + if c.value == 0 then 1 else 0
    requires Means(e.yes, toks, m2, s1, a) && a.Bad?
    ensures Means(e, toks, q, st, a)
  {
    hide Arrived;
  }

  lemma CondConclude(e: Expr, toks: seq<Token>, m1: nat, m2: nat, q: nat, st: State,
                     c: Parsed, s1: State, a: Parsed, s2: State, b: Parsed)
    requires e.Cond? && c.Good? && Means(e.test, toks, m1, st, c) && c.st.noeval == st.noeval
    requires s1.vars == c.st.vars && s1.noeval == c.st.noeval + if c.value == 0 then 1 else 0
    requires a.Good? && Means(e.yes, toks, m2, s1, a)
    requires s2.vars == a.st.vars && s2.noeval == c.st.noeval + if c.value == 0 then 0 else 1
    requires Means(e.no, toks, q, s2, b) && (b.Good? ==> b.st.noeval == s2.noeval)
    requires !TokenAt(toks, q).TStr?
    ensures var off := c.value == 0;
      Means(e, toks, q, st, Unskipped(b, !off, if off && b.Good? then b.value else a.value, TCond))
  {
    hide Arrived;
    if b.Good? {
      MeansArrives(e.no, toks, q, s2, b);
      ArrivedMode(toks, b.st, q, st.noeval, TCond);
    }
  }

  // ---------------------------------------------------------------- the levels with loops

  /** At a level with a loop: parsing the tokens of `e` brings the loop to where `e` is its value so far,
      even if more operands of the level follow. */
  lemma {:induction false} Spine(e: Expr, k: nat, toks: seq<Token>, st: State, p: nat) returns (r: Parsed)
    requires HasLoop(k) && Placed(e, k, toks, st, p, if k == 13 then 13 else k + 1)
    ensures Means(e, toks, p + |Tokens(e, k)|, st, r) && (r.Good? ==> Valid(toks, r.st))
    ensures Parse(k, toks, st) == Rest(k, toks, r)
    decreases e, if Level(e) < k then 1 else 0, 16 - k, 0
  {
    hide Parse, Rest, Arrived, WrittenAt, Eval, Means, ReadTok, Body, Tokens, TokLevel, Level, Placed;
    PlacedFacts(e, k, toks, st, p, if k == 13 then 13 else k + 1);
    if Level(e) != k {
      SameTokens(e, k);
      PlacedHigher(e, k, toks, st, p);
      ParseMeans(e, k + 1, toks, st, p);
      r := Parse(k + 1, toks, st);
      ParseLoop(k, toks, st);
    } else {
      var o := Operands(e);
      OperandPlaces(e, k, toks, st, p);
      var m := p + |Tokens(o.left, o.kl)|;
      if k == 13 {
        ParseMeans(o.left, 14, toks, st, p);
        r := Parse(14, toks, st);
        ParseLoop(13, toks, st);
      } else {
        r := Spine(o.left, k, toks, st, p);
      }
      MeansArrives(o.left, toks, m, st, r);
      if r.Bad? {
        LeftFails(e, toks, m, p + |Tokens(e, k)|, st, r);
      } else {
        ArrivedFacts(toks, r.st, m);
        r := SpineStep(e, k, toks, st, p, m, r);
      }
    }
  }

  lemma PlacedHigher(e: Expr, k: nat, toks: seq<Token>, st: State, p: nat)
    requires HasLoop(k) && Placed(e, k, toks, st, p, if k == 13 then 13 else k + 1) && Level(e) != k
    ensures Placed(e, k + 1, toks, st, p, k + 1)
  {
    hide Tokens, Arrived, WrittenAt, WellFormed;
    SameTokens(e, k);
  }

  /** The right operand of an infix operator, and what the operator makes of both. */
  lemma {:induction false} SpineStep(e: Expr, k: nat, toks: seq<Token>, st: State, p: nat, m: nat, left: Parsed)
    returns (r: Parsed)
    requires HasLoop(k) && Level(e) == k && Placed(e, k, toks, st, p, if k == 13 then 13 else k + 1)
    requires var o := Operands(e);
      && m == p + |Tokens(o.left, o.kl)| && Means(o.left, toks, m, st, left)
      && left.Good? && Valid(toks, left.st) && left.st.tp == m + 1 && left.st.curtok == o.tok
      && left.st.noeval == st.noeval
    ensures Means(e, toks, p + |Tokens(e, k)|, st, r) && (r.Good? ==> Valid(toks, r.st))
    ensures Rest(k, toks, left) == Rest(k, toks, r)
    decreases e, 0, 0, 0
  {
    hide Parse, Rest, Arrived, WrittenAt, Eval, Means, ReadTok, Body, Tokens, TokLevel, Level, Placed, Joined,
         Operands, OpLevel;
    OperandPlaces(e, k, toks, st, p);
    var o := Operands(e);
    var q := p + |Tokens(e, k)|;
    var s0 := Skipping(left.st, Off(e, left));
    var s1 := ReadTok(toks, s0);
    ReadArrives(toks, s0);
    PlacedPart(o.right, o.kr, toks, s1, m + 1, o.kr);
    ParseMeans(o.right, o.kr, toks, s1, m + 1);
    var b := Parse(o.kr, toks, s1);
    MeansArrives(o.right, toks, q, s1, b);
    if b.Good? {
      ArrivedFacts(toks, b.st, q);
    }
    r := Joined(e, left, b);
    RestJoins(e, k, toks, left, b);
    JoinMeans(e, toks, m, q, st, left, s1, b);
    JoinValid(e, toks, left, b);
  }

  function Off(e: Expr, r: Parsed): bool
    requires r.Good?
  {
    if e.Or? then r.value != 0 else if e.And? then r.value == 0 else false
  }

  /** What an infix operator makes of its operands. */
  function Joined(e: Expr, a: Parsed, b: Parsed): Parsed
    requires IsLoop(Level(e)) && a.Good? && (b.Good? && Off(e, a) ==> b.st.noeval > 0)
  {
    match e
    case Comma(_, _) => b
    case Or(_, _) =>
      Unskipped(b, a.value != 0, if b.Good? then Bool(a.value != 0 || b.value != 0) else 0, TLor)
    case And(_, _) =>
      Unskipped(b, a.value == 0, if b.Good? then Bool(a.value != 0 && b.value != 0) else 0, TLand)
    case Binary(op, _, _) => LeftDone(op, a.value, b)
    case Power(_, _) => PowerDone(a.value, b)
  }

  lemma RestJoins(e: Expr, k: nat, toks: seq<Token>, a: Parsed, b: Parsed)
    requires HasLoop(k) && Level(e) == k && a.Good? && Valid(toks, a.st) && a.st.curtok == Operands(e).tok
    requires b == Parse(Operands(e).kr, toks, ReadTok(toks, Skipping(a.st, Off(e, a))))
    requires k == 13 && b.Good? ==> TokLevel(b.st.curtok) < 13
    ensures Rest(k, toks, a) == Rest(k, toks, Joined(e, a, b))
  {
    hide Parse, Rest, ReadTok;
    match e
    case Comma(_, _) => RestComma(toks, a);
    case Or(_, _) => RestOr(toks, a);
    case And(_, _) => RestAnd(toks, a);
    case Binary(_, _, _) => RestLeft(k, toks, a);
    case Power(_, _) =>
      RestPower(toks, a);
      RestStop(13, toks, Joined(e, a, b));
  }

  lemma JoinValid(e: Expr, toks: seq<Token>, a: Parsed, b: Parsed)
    requires IsLoop(Level(e)) && a.Good? && (b.Good? ==> Valid(toks, b.st))
    requires b.Good? && Off(e, a) ==> b.st.noeval > 0
    ensures var r := Joined(e, a, b); r.Good? ==> Valid(toks, r.st)
  {
  }

  lemma JoinMeans(e: Expr, toks: seq<Token>, m: nat, q: nat, st: State, a: Parsed, s1: State, b: Parsed)
    requires IsLoop(Level(e)) && a.Good? && Means(Operands(e).left, toks, m, st, a) && a.st.noeval == st.noeval
    requires s1.vars == a.st.vars && s1.noeval == a.st.noeval + if Off(e, a) then 1 else 0
    requires Means(Operands(e).right, toks, q, s1, b) && !TokenAt(toks, q).TStr?
    requires b.Good? ==> b.st.noeval == s1.noeval
    ensures Means(e, toks, q, st, Joined(e, a, b))
  {
    hide Arrived, Compute;
    if b.Good? {
      MeansArrives(Operands(e).right, toks, q, s1, b);
      var n := Joined(e, a, b);
      if n.Good? {
        ArrivedMode(toks, b.st, q, n.st.noeval, n.st.lasttok);
      }
    }
  }

  lemma LeftFails(e: Expr, toks: seq<Token>, m: nat, q: nat, st: State, a: Parsed)
    requires IsLoop(Level(e)) && Means(Operands(e).left, toks, m, st, a) && a.Bad?
    ensures Means(e, toks, q, st, a)
  {
    hide Arrived, Compute;
  }

  lemma OperandPlaces(e: Expr, k: nat, toks: seq<Token>, st: State, p: nat)
    requires HasLoop(k) && Level(e) == k && Placed(e, k, toks, st, p, if k == 13 then 13 else k + 1)
    ensures var o := Operands(e);
      var m := p + |Tokens(o.left, o.kl)|;
      var q := m + 1 + |Tokens(o.right, o.kr)|;
      && q == p + |Tokens(e, k)| && TokenAt(toks, m) == o.tok && WellFormed(o.right)
      && Placed(o.left, o.kl, toks, st, p, if k == 13 then 14 else k + 1)
      && o.kl == (if k == 13 then 14 else k) && WrittenAt(toks, m + 1, Tokens(o.right, o.kr))
      && TokLevel(TokenAt(toks, q)) < o.kr && TokenAt(toks, q) != TEq && !TokenAt(toks, q).TStr?
      && (k == 13 ==> o.kr == 13)
  {
    hide Arrived, WrittenAt, Tokens, Level, Operands, WellFormed, TokLevel;
    var o := Operands(e);
    OperandTokens(e, k);
    OperandFacts(e, k);
    SplitAt(toks, p, Tokens(o.left, o.kl), o.tok, Tokens(o.right, o.kr));
  }

  lemma OperandTokens(e: Expr, k: nat)
    requires HasLoop(k) && Level(e) == k
    ensures var o := Operands(e); Tokens(e, k) == Tokens(o.left, o.kl) + ([o.tok] + Tokens(o.right, o.kr))
  {
  }

  lemma OperandFacts(e: Expr, k: nat)
    requires HasLoop(k) && Level(e) == k
    ensures var o := Operands(e);
      && o.kl == (if k == 13 then 14 else k) && o.kr == (if k == 13 then 13 else k + 1)
      && TokLevel(o.tok) == k && o.tok != TEq && !o.tok.TStr?
      && (WellFormed(e) ==> WellFormed(o.left) && WellFormed(o.right))
  {
  }

  datatype Infix = Infix(tok: Token, left: Expr, right: Expr, kl: nat, kr: nat)

  /** What stands between two operands, the operands, and the levels they are written at. */
  function Operands(e: Expr): (r: Infix)
    requires IsLoop(Level(e))
    ensures r.left < e && r.right < e && r.kl <= 14 && r.kr <= 14
  {
    match e
    case Comma(l, r) => Infix(TComma, l, r, 0, 1)
    case Or(l, r) => Infix(TLor, l, r, 3, 4)
    case And(l, r) => Infix(TLand, l, r, 4, 5)
    case Binary(op, l, r) => Infix(TOp(op), l, r, OpLevel(op), OpLevel(op) + 1)
    case Power(l, r) => Infix(TPower, l, r, 14, 13)
  }

  // ---------------------------------------------------------------- whole expressions

  /** Evaluating the tokens of a tree, printed with only the parentheses its precedences need, gives the
      tree's value and the variables it leaves behind, or the error that ends it. */
  lemma EvaluateMeans(e: Expr, vars: Store)
    requires WellFormed(e)
    ensures Proper(Tokens(e, 0)) && SubExpr(Tokens(e, 0), vars) == Eval(e, vars)
  {
    hide Tokens, Eval, ReadTok, Placed, Arrived;
    NoEnd(e, 0);
    var toks := Tokens(e, 0);
    var s0 := Initial(vars);
    ReadArrives(toks, s0);
    assert toks[0..0 + |toks|] == toks;
    PlacedPart(e, 0, toks, ReadTok(toks, s0), 0, 0);
    ParseMeans(e, 0, toks, ReadTok(toks, s0), 0);
    var r := Parse(0, toks, ReadTok(toks, s0));
    if r.Good? {
      ArrivedFacts(toks, r.st, |toks|);
    }
  }

  /** Inside a skipped operand nothing happens: no variable changes, no error is raised, and the value
      of noeval is restored. */
  lemma SkippedHasNoEffect(e: Expr, k: nat, toks: seq<Token>, st: State, p: nat)
    requires Placed(e, k, toks, st, p, k) && st.noeval > 0
    ensures var r := Parse(k, toks, st); r.Good? && r.st.vars == st.vars && r.st.noeval == st.noeval
  {
    ParseMeans(e, k, toks, st, p);
  }

  lemma {:induction false} NoEnd(e: Expr, k: nat)
    ensures forall t <- Tokens(e, k) :: t != End
    decreases e, 1
  {
    NoEndBody(e);
  }

  lemma {:induction false} NoEndBody(e: Expr)
    ensures forall t <- Body(e) :: t != End
    decreases e, 0
  {
    match e
    case Unary(op, a) => NoEnd(a, 14);
    case Power(l, r) => NoEnd(l, 14); NoEnd(r, 13);
    case Binary(op, l, r) => NoEnd(l, OpLevel(op)); NoEnd(r, OpLevel(op) + 1);
    case And(l, r) => NoEnd(l, 4); NoEnd(r, 5);
    case Or(l, r) => NoEnd(l, 3); NoEnd(r, 4);
    case Cond(c, a, b) => NoEnd(c, 3); NoEnd(a, 0); NoEnd(b, 2);
    case Assign(x, r) => NoEnd(r, 1);
    case OpAssign(x, op, r) => NoEnd(r, 1);
    case Comma(l, r) => NoEnd(l, 0); NoEnd(r, 1);
    case _ =>
  }
}
