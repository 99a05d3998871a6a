/** copy_cmd.c and dispose_cmd.c over an allocator that knows which blocks are in use. */
module CommandHeap {
  import opened Wrappers
  import opened Seqs
  import opened CommandTree

  lemma Bound(s: set<nat>) returns (b: nat)
    ensures forall x <- s :: x < b
  {
    if s == {} {
      b := 0;
    } else {
      var x :| x in s;
      var c := Bound(s - {x});
      b := if x < c then c else x + 1;
      assert forall y <- s :: y in s - {x} || y == x;
    }
  }

  /** `gone` was freed out of `all`, and `live` is what is left. */
  ghost predicate Gone(live: multiset<Addr>, gone: multiset<Addr>, all: multiset<Addr>) { live + gone == all }

  /** If something is to be freed after that, it is still there. */
  lemma Next(live: multiset<Addr>, gone: multiset<Addr>, part: multiset<Addr>, all: multiset<Addr>)
    requires Gone(live, gone, all) && gone + part <= all
    ensures part <= live
  {
    forall x | x in part
      ensures part[x] <= live[x]
    {
      assert (gone + part)[x] <= all[x] && (live + gone)[x] == all[x];
    }
  }

  lemma Took(
    before: multiset<Addr>, after: multiset<Addr>, gone: multiset<Addr>, part: multiset<Addr>, all: multiset<Addr>)
    requires Gone(before, gone, all) && after + part == before
    ensures Gone(after, gone + part, all)
  {
  }

  lemma Begin(all: multiset<Addr>, part: multiset<Addr>)
    ensures Gone(all, multiset{}, all) && multiset{} + part == part
  {
  }

  /** Parts of a sum, taken off from the left. */
  lemma Parts(a: multiset<Addr>, b: multiset<Addr>, c: multiset<Addr>, d: multiset<Addr>, e: multiset<Addr>)
    ensures a <= a + b <= a + b + c <= a + b + c + d <= a + b + c + d + e
  {
  }

  class Heap {
    var live: set<Addr>

    constructor ()
      ensures live == {}
    {
      live := {};
    }

    /** Any block that is not in use. */
    method Malloc() returns (a: Addr)
      modifies this
      ensures a !in old(live) && multiset(live) == multiset(old(live)) + multiset{a}
    {
      ghost var b := Bound(live);
      assert b !in live;
      a :| a !in live;
      live := live + {a};
    }

    /** Only a block in use may be freed, and then it is in use no more. */
    method Free(a: Addr)
      requires a in live
      modifies this
      ensures multiset(live) + multiset{a} == multiset(old(live))
    {
      live := live - {a};
    }

    // -------------------------------------------------------------- copying

    method SaveString(s: Str) returns (r: Str)
      modifies this
      ensures StrShape(r) == StrShape(s) && multiset(live) == multiset(old(live)) + multiset{r.at}
    {
      var a := Malloc();
      r := Str(a, s.chars);
    }

    method CopyOptString(s: Option<Str>) returns (r: Option<Str>)
      modifies this
      ensures OptStrShape(r) == OptStrShape(s) && r.Some? == s.Some?
      ensures multiset(live) == multiset(old(live)) + OptStrBlocks(r)
    {
      if s == None {
        return None;
      }
      var c := SaveString(s.value);
      r := Some(c);
    }

    method CopyWord(w: Word) returns (r: Word)
      modifies this
      ensures WordShape(r) == WordShape(w) && multiset(live) == multiset(old(live)) + WordBlocks(r)
    {
      var a := Malloc();
      var s := SaveString(w.word);
      r := Word(a, s, w.flags);
    }

    method CopyWordList(l: WordList) returns (r: WordList)
      modifies this
      ensures WordsShape(r) == WordsShape(l) && multiset(live) == multiset(old(live)) + WordsBlocks(r)
    {
      r := [];
      for i := 0 to |l|
        invariant WordsShape(r) == WordsShape(l[..i]) && multiset(live) == multiset(old(live)) + WordsBlocks(r)
      {
        var w := CopyWord(l[i].word);
        var a := Malloc();
        var cell := WordCell(a, w);
        WordsMore(r, cell);
        WordsMore(l[..i], l[i]);
        TakeOne(l, i);
        r := r + [cell];
      }
      Whole(l);
    }

    method CopyRedirectee(t: Redirectee) returns (r: Redirectee)
      requires t.Filename?
      modifies this
      ensures r.Filename? && RedirecteeShape(r) == RedirecteeShape(t)
      ensures multiset(live) == multiset(old(live)) + RedirecteeBlocks(r)
    {
      var w := CopyWord(t.name);
      r := Filename(w);
    }

    /** A structure copy, but with new words and strings for the members that own one. */
    method CopyRedirect(t: Redirect) returns (r: Redirect)
      requires t.Valid()
      modifies this
      ensures r.Valid() && RedirectShape(r) == RedirectShape(t)
      ensures multiset(live) == multiset(old(live)) + RedirectBlocks(r)
    {
      hide RedirecteeShape, RedirecteeBlocks, OptStrShape, OptStrBlocks, WordShape, WordBlocks;
      var a := Malloc();
      var redirector := t.redirector;
      if VarAssign(t.rflags) {
        redirector := CopyRedirectee(t.redirector);
      } else {
        NoFile(redirector);
      }
      var redirectee, eof := CopyTarget(t);
      r := Redirect(a, redirector, t.rflags, t.flags, t.instruction, redirectee, eof);
    }

    method CopyTarget(t: Redirect) returns (r: Redirectee, eof: Option<Str>)
      requires t.Valid()
      modifies this
      ensures r.Filename? == t.redirectee.Filename? && RedirecteeShape(r) == RedirecteeShape(t.redirectee)
      ensures OptStrShape(eof) == OptStrShape(t.hereDocEof) && eof.Some? == t.hereDocEof.Some?
      ensures multiset(live) == multiset(old(live)) + (RedirecteeBlocks(r) + OptStrBlocks(eof))
    {
      hide RedirecteeShape, RedirecteeBlocks, WordShape, WordBlocks, OptStrShape, OptStrBlocks;
      r, eof := t.redirectee, t.hereDocEof;
      NoString();
      match t.instruction {
        case ReadingUntil | DeblankReadingUntil =>
          eof := CopyOptString(t.hereDocEof);
          r := CopyRedirectee(t.redirectee);
        case ReadingString | AppendingTo | OutputDirection | InputDirection | InputaDirection | ErrAndOut
          | AppendErrAndOut | InputOutput | OutputForce | DuplicatingInputWord | DuplicatingOutputWord
          | MoveInputWord | MoveOutputWord =>
          r := CopyRedirectee(t.redirectee);
        case DuplicatingInput | DuplicatingOutput | MoveInput | MoveOutput | CloseThis =>
          NoFile(r);
      }
    }

    /** Collected back to front, then turned round. */
    method CopyRedirects(l: seq<Redirect>) returns (r: seq<Redirect>)
      requires ValidRedirects(l)
      modifies this
      ensures ValidRedirects(r) && RedirectsShape(r) == RedirectsShape(l)
      ensures multiset(live) == multiset(old(live)) + RedirectsBlocks(r)
    {
      hide RedirectShape, RedirectBlocks;
      var newList: seq<Redirect> := [];
      for i := 0 to |l|
        invariant ValidRedirects(Reverse(newList)) && RedirectsShape(Reverse(newList)) == RedirectsShape(l[..i])
        invariant multiset(live) == multiset(old(live)) + RedirectsBlocks(Reverse(newList))
      {
        var temp := CopyRedirect(l[i]);
        RedirectsMore(Reverse(newList), temp);
        RedirectsMore(l[..i], l[i]);
        TakeOne(l, i);
        ReverseOnto(temp, newList);
        newList := [temp] + newList;
      }
      Whole(l);
      r := Reverse(newList);
    }

    method CopyCondCommand(c: Option<Cond>) returns (r: Option<Cond>)
      modifies this
      ensures CondShape(r) == CondShape(c) && multiset(live) == multiset(old(live)) + CondBlocks(r)
      decreases c
    {
      if c == None {
        return None;
      }
      var n := c.value;
      var a := Malloc();
      var op: Option<Word> := None;
      if n.op.Some? {
        var w := CopyWord(n.op.value);
        op := Some(w);
      }
      var left := CopyCondCommand(n.left);
      var right := CopyCondCommand(n.right);
      r := Some(Cond(a, n.flags, n.line, n.kind, op, left, right));
    }

    method CopyForCommand(v: Value) returns (r: Value)
      requires (v.For? || v.Select?) && ValidValue(v)
      modifies this
      ensures Copied(v, r, old(live), live)
      decreases v, 0
    {
      hide WordShape, WordBlocks, WordsShape, WordsBlocks, Shape, Blocks, Valid;
      var a := Malloc();
      var name := CopyWord(v.name);
      var list := CopyWordList(v.mapList);
      var action := CopyCommand(v.action);
      r := if v.For? then For(a, v.flags, v.line, name, list, action)
           else Select(a, v.flags, v.line, name, list, action);
    }

    method CopyArithForCommand(v: Value) returns (r: Value)
      requires v.ArithFor? && ValidValue(v)
      modifies this
      ensures Copied(v, r, old(live), live)
      decreases v, 0
    {
      hide WordsShape, WordsBlocks, Shape, Blocks, Valid;
      var a := Malloc();
      var init := CopyWordList(v.init);
      var test := CopyWordList(v.test);
      var step := CopyWordList(v.step);
      var action := CopyCommand(v.action);
      r := ArithFor(a, v.flags, v.line, init, test, step, action);
    }

    method CopyWhileCommand(v: Value) returns (r: Value)
      requires (v.While? || v.Until?) && ValidValue(v)
      modifies this
      ensures Copied(v, r, old(live), live)
      decreases v, 0
    {
      hide Shape, Blocks, Valid;
      var a := Malloc();
      var cond := CopyCommand(v.cond);
      var action := CopyCommand(v.action);
      r := if v.While? then While(a, v.flags, cond, action) else Until(a, v.flags, cond, action);
    }

    method CopyIfCommand(v: Value) returns (r: Value)
      requires v.If? && ValidValue(v)
      modifies this
      ensures Copied(v, r, old(live), live)
      decreases v, 0
    {
      hide Shape, Blocks, Valid;
      var a := Malloc();
      var test := CopyCommand(v.cond);
      var yes := CopyCommand(v.trueCase);
      var no := CopyCommand(v.falseCase);
      r := If(a, v.flags, test, yes, no);
    }

    /** Group, subshell, coprocess and connection. */
    method CopyGrouping(v: Value) returns (r: Value)
      requires (v.Group? || v.Subshell? || v.Coproc? || v.Connection?) && ValidValue(v)
      modifies this
      ensures Copied(v, r, old(live), live)
      decreases v, 0
    {
      hide Shape, Blocks, Valid;
      var a := Malloc();
      match v {
        case Group(_, command) =>
          var c := CopyCommand(command);
          r := Group(a, c);
        case Subshell(_, flags, line, command) =>
          var c := CopyCommand(command);
          r := Subshell(a, flags, line, c);
        case Coproc(_, flags, name, command) =>
          var s := SaveString(name);
          var c := CopyCommand(command);
          r := Coproc(a, flags, s, c);
        case Connection(_, first, second, connector) =>
          var c := CopyCommand(first);
          var d := CopyCommand(second);
          r := Connection(a, c, d, connector);
      }
    }

    /** Collected back to front, then turned round. */
    method CopyCaseClauses(l: seq<Clause>) returns (r: seq<Clause>)
      requires ValidClauses(l)
      modifies this
      ensures ValidClauses(r) && ClausesShape(r) == ClausesShape(l)
      ensures multiset(live) == multiset(old(live)) + ClausesBlocks(r)
      decreases l, 0
    {
      hide Shape, Blocks, Valid, WordsShape, WordsBlocks, ClausesShape, ClausesBlocks, ValidClauses;
      var newList: seq<Clause> := [];
      ClausesNone();
      NoMore(multiset(live));
      for i := 0 to |l|
        invariant ValidClauses(Reverse(newList)) && ClausesShape(Reverse(newList)) == ClausesShape(l[..i])
        invariant multiset(live) == multiset(old(live)) + ClausesBlocks(Reverse(newList))
      {
        ClauseValid(l, i);
        var a := Malloc();
        var patterns := CopyWordList(l[i].patterns);
        var action := CopyCommand(l[i].action);
        var clause := Clause(a, patterns, action, l[i].flags);
        ClausesMore(Reverse(newList), clause);
        ClausesMore(l[..i], l[i]);
        TakeOne(l, i);
        ReverseOnto(clause, newList);
        newList := [clause] + newList;
      }
      Whole(l);
      r := Reverse(newList);
    }

    method CopyCaseCommand(v: Value) returns (r: Value)
      requires v.Case? && ValidValue(v)
      modifies this
      ensures Copied(v, r, old(live), live)
      decreases v, 0
    {
      hide WordShape, WordBlocks, ClausesShape, ClausesBlocks, ValidClauses;
      var a := Malloc();
      var word := CopyWord(v.word);
      var clauses := CopyCaseClauses(v.clauses);
      r := Case(a, v.flags, v.line, word, clauses);
    }

    /** Arithmetic, conditional and simple commands and function definitions. */
    method CopyLeaf(v: Value) returns (r: Value)
      requires (v.Arith? || v.CondCommand? || v.Simple? || v.FunctionDef?) && ValidValue(v)
      modifies this
      ensures Copied(v, r, old(live), live)
      decreases v, 0
    {
      hide WordShape, WordBlocks, WordsShape, WordsBlocks, RedirectsShape, RedirectsBlocks, Shape, Blocks, Valid;
      hide OptStrShape, OptStrBlocks, CondShape, CondBlocks, ValidRedirects;
      match v {
        case Arith(_, flags, line, exp) =>
          var a := Malloc();
          var l := CopyWordList(exp);
          r := Arith(a, flags, line, l);
        case CondCommand(node) =>
          var n := CopyCondCommand(Some(node));
          CondKept(Some(node), n);
          r := CondCommand(n.value);
        case Simple(_, flags, line, words, redirects) =>
          var a := Malloc();
          var w := CopyWordList(words);
          var l := CopyRedirects(redirects);
          r := Simple(a, flags, line, w, l);
        case FunctionDef(_, flags, line, name, command, file) =>
          var a := Malloc();
          var w := CopyWord(name);
          var c := CopyCommand(command);
          var f := CopyOptString(file);
          r := FunctionDef(a, flags, line, w, c, f);
      }
    }

    method CopyValue(v: Value) returns (r: Value)
      requires ValidValue(v)
      modifies this
      ensures Copied(v, r, old(live), live)
      decreases v, 1
    {
      hide ValidValue, Copied;
      if v.For? || v.Select? {
        r := CopyForCommand(v);
      } else if v.ArithFor? {
        r := CopyArithForCommand(v);
      } else if v.Group? || v.Subshell? || v.Coproc? || v.Connection? {
        r := CopyGrouping(v);
      } else if v.Case? {
        r := CopyCaseCommand(v);
      } else if v.While? || v.Until? {
        r := CopyWhileCommand(v);
      } else if v.If? {
        r := CopyIfCommand(v);
      } else {
        r := CopyLeaf(v);
      }
    }

    /** The copy has the structure of the original; its blocks were all free before and are distinct. */
    method CopyCommand(c: Option<Command>) returns (r: Option<Command>)
      requires Valid(c)
      modifies this
      ensures Valid(r) && Shape(r) == Shape(c) && multiset(live) == multiset(old(live)) + Blocks(r)
      decreases c, 2
    {
      hide ValidValue, ValueShape, ValueBlocks, RedirectsShape, RedirectsBlocks, ValidRedirects;
      if c == None {
        return None;
      }
      var a := Malloc();
      var redirects := CopyRedirects(c.value.redirects);
      var value := CopyValue(c.value.value);
      r := Some(Command(a, c.value.flags, c.value.line, redirects, value));
    }

    // -------------------------------------------------------------- disposing

    /** Free a part of `whole`; the parts before it are gone already. */
    method FreeNext(a: Addr, ghost gone: multiset<Addr>, ghost all: multiset<Addr>)
      requires Gone(multiset(live), gone, all) && gone + multiset{a} <= all
      modifies this
      ensures Gone(multiset(live), gone + multiset{a}, all)
    {
      ghost var before := multiset(live);
      Next(before, gone, multiset{a}, all);
      Free(a);
      Took(before, multiset(live), gone, multiset{a}, all);
    }

    method DisposeWord(w: Word, ghost gone: multiset<Addr>, ghost all: multiset<Addr>)
      requires Gone(multiset(live), gone, all) && gone + WordBlocks(w) <= all
      modifies this
      ensures Gone(multiset(live), gone + WordBlocks(w), all)
    {
      hide Gone;
      assert gone + WordBlocks(w) == gone + multiset{w.word.at} + multiset{w.at};
      FreeNext(w.word.at, gone, all);
      FreeNext(w.at, gone + multiset{w.word.at}, all);
    }

    method DisposeWords(l: WordList, ghost gone: multiset<Addr>, ghost all: multiset<Addr>)
      requires Gone(multiset(live), gone, all) && gone + WordsBlocks(l) <= all
      modifies this
      ensures Gone(multiset(live), gone + WordsBlocks(l), all)
    {
      hide Gone, WordsBlocks, WordBlocks;
      NoWords(gone);
      for i := 0 to |l|
        invariant Gone(multiset(live), gone + WordsBlocks(l[..i]), all)
      {
        WordsStep(l, i, gone);
        ghost var sofar := gone + WordsBlocks(l[..i]);
        DisposeWord(l[i].word, sofar, all);
        FreeNext(l[i].at, sofar + WordBlocks(l[i].word), all);
      }
      Whole(l);
    }

    method DisposeString(s: Option<Str>, ghost gone: multiset<Addr>, ghost all: multiset<Addr>)
      requires Gone(multiset(live), gone, all) && gone + OptStrBlocks(s) <= all
      modifies this
      ensures Gone(multiset(live), gone + OptStrBlocks(s), all)
    {
      hide Gone;
      if s.Some? {
        FreeNext(s.value.at, gone, all);
      } else {
        assert gone + OptStrBlocks(s) == gone;
      }
    }

    method DisposeRedirectee(t: Redirectee, ghost gone: multiset<Addr>, ghost all: multiset<Addr>)
      requires t.Filename? && Gone(multiset(live), gone, all) && gone + RedirecteeBlocks(t) <= all
      modifies this
      ensures Gone(multiset(live), gone + RedirecteeBlocks(t), all)
    {
      hide Gone, WordBlocks;
      DisposeWord(t.name, gone, all);
    }

    /** The words and strings that a redirection owns, by its kind. */
    method DisposeTargets(t: Redirect, ghost gone: multiset<Addr>, ghost all: multiset<Addr>)
      requires t.Valid() && Gone(multiset(live), gone, all)
      requires
        gone + RedirecteeBlocks(t.redirector) + OptStrBlocks(t.hereDocEof) + RedirecteeBlocks(t.redirectee) <= all
      modifies this
      ensures Gone(multiset(live),
        gone + RedirecteeBlocks(t.redirector) + OptStrBlocks(t.hereDocEof) + RedirecteeBlocks(t.redirectee), all)
    {
      hide Gone, RedirecteeBlocks, OptStrBlocks;
      ghost var a, e, b := RedirecteeBlocks(t.redirector), OptStrBlocks(t.hereDocEof), RedirecteeBlocks(t.redirectee);
      Parts(gone, a, e, b, multiset{});
      if VarAssign(t.rflags) {
        DisposeRedirectee(t.redirector, gone, all);
      } else {
        NoFile(t.redirector);
        NoMore(gone);
      }
      if !HereDoc(t.instruction) {
        NoString();
        NoMore(gone + a);
      }
      match t.instruction {
        case ReadingUntil | DeblankReadingUntil =>
          DisposeString(t.hereDocEof, gone + a, all);
          DisposeRedirectee(t.redirectee, gone + a + e, all);
        case ReadingString | AppendingTo | OutputDirection | InputDirection | InputaDirection | ErrAndOut
          | AppendErrAndOut | InputOutput | OutputForce | DuplicatingInputWord | DuplicatingOutputWord
          | MoveInputWord | MoveOutputWord =>
          DisposeRedirectee(t.redirectee, gone + a + e, all);
        case DuplicatingInput | DuplicatingOutput | MoveInput | MoveOutput | CloseThis =>
          NoFile(t.redirectee);
          NoMore(gone + a + e);
      }
    }

    method DisposeRedirects(l: seq<Redirect>, ghost gone: multiset<Addr>, ghost all: multiset<Addr>)
      requires ValidRedirects(l) && Gone(multiset(live), gone, all) && gone + RedirectsBlocks(l) <= all
      modifies this
      ensures Gone(multiset(live), gone + RedirectsBlocks(l), all)
    {
      hide Gone, RedirectsBlocks, RedirecteeBlocks, OptStrBlocks;
      NoRedirects(gone);
      for i := 0 to |l|
        invariant Gone(multiset(live), gone + RedirectsBlocks(l[..i]), all)
      {
        RedirectsStep(l, i, gone);
        ghost var sofar := gone + RedirectsBlocks(l[..i]);
        var t := l[i];
        DisposeTargets(t, sofar, all);
        ghost var a, e, b := RedirecteeBlocks(t.redirector), OptStrBlocks(t.hereDocEof), RedirecteeBlocks(t.redirectee);
        FreeNext(t.at, sofar + a + e + b, all);
      }
      Whole(l);
    }

    method DisposeCondNode(c: Option<Cond>, ghost gone: multiset<Addr>, ghost all: multiset<Addr>)
      requires Gone(multiset(live), gone, all) && gone + CondBlocks(c) <= all
      modifies this
      ensures Gone(multiset(live), gone + CondBlocks(c), all)
      decreases c
    {
      hide Gone, WordBlocks, CondBlocks;
      CondParts(c, gone);
      if c == None {
        return;
      }
      var n := c.value;
      ghost var l, r := CondBlocks(n.left), CondBlocks(n.right);
      ghost var o := if n.op.Some? then WordBlocks(n.op.value) else multiset{};
      Parts(gone, l, r, o, multiset{n.at});
      DisposeCondNode(n.left, gone, all);
      DisposeCondNode(n.right, gone + l, all);
      if n.op.Some? {
        DisposeWord(n.op.value, gone + l + r, all);
      } else {
        NoMore(gone + l + r);
      }
      FreeNext(n.at, gone + l + r + o, all);
    }

    /** For, select and arithmetic for. */
    method DisposeLoop(v: Value, ghost gone: multiset<Addr>, ghost all: multiset<Addr>)
      requires (v.For? || v.Select? || v.ArithFor?) && ValidValue(v)
      requires Gone(multiset(live), gone, all) && gone + ValueBlocks(v) <= all
      modifies this
      ensures Gone(multiset(live), gone + ValueBlocks(v), all)
      decreases v, 0
    {
      hide Gone, WordBlocks, WordsBlocks, OptStrBlocks, RedirectsBlocks, CondBlocks, Blocks, Valid, ValidRedirects;
      ghost var c, n := Blocks(v.action), multiset{v.at};
      if v.ArithFor? {
        ghost var x, y, z := WordsBlocks(v.init), WordsBlocks(v.test), WordsBlocks(v.step);
        assert gone + ValueBlocks(v) == gone + x + y + z + c + n;
        Parts(gone, x, y, z, c);
        Parts(gone + x + y + z, c, n, multiset{}, multiset{});
        DisposeWords(v.init, gone, all);
        DisposeWords(v.test, gone + x, all);
        DisposeWords(v.step, gone + x + y, all);
        DisposeCommand(v.action, gone + x + y + z, all);
        FreeNext(v.at, gone + x + y + z + c, all);
      } else {
        ghost var x, y := WordBlocks(v.name), WordsBlocks(v.mapList);
        assert gone + ValueBlocks(v) == gone + x + y + c + n;
        Parts(gone, x, y, c, n);
        DisposeWord(v.name, gone, all);
        DisposeWords(v.mapList, gone + x, all);
        DisposeCommand(v.action, gone + x + y, all);
        FreeNext(v.at, gone + x + y + c, all);
      }
    }

    /** While, until, if and connection: nothing but commands. */
    method DisposeBranches(v: Value, ghost gone: multiset<Addr>, ghost all: multiset<Addr>)
      requires (v.While? || v.Until? || v.If? || v.Connection?) && ValidValue(v)
      requires Gone(multiset(live), gone, all) && gone + ValueBlocks(v) <= all
      modifies this
      ensures Gone(multiset(live), gone + ValueBlocks(v), all)
      decreases v, 0
    {
      hide Gone, WordBlocks, WordsBlocks, OptStrBlocks, RedirectsBlocks, CondBlocks, Blocks, Valid, ValidRedirects;
      var first := if v.Connection? then v.first else v.cond;
      var second := if v.Connection? then v.second else if v.If? then v.trueCase else v.action;
      ghost var x, y, n := Blocks(first), Blocks(second), multiset{v.at};
      if v.If? {
        ghost var z := Blocks(v.falseCase);
        assert gone + ValueBlocks(v) == gone + x + y + z + n;
        Parts(gone, x, y, z, n);
        DisposeCommand(v.cond, gone, all);
        DisposeCommand(v.trueCase, gone + x, all);
        DisposeCommand(v.falseCase, gone + x + y, all);
        FreeNext(v.at, gone + x + y + z, all);
      } else {
        assert gone + ValueBlocks(v) == gone + x + y + n;
        Parts(gone, x, y, n, multiset{});
        DisposeCommand(first, gone, all);
        DisposeCommand(second, gone + x, all);
        FreeNext(v.at, gone + x + y, all);
      }
    }

    /** Group, subshell and coprocess. */
    method DisposeGrouping(v: Value, ghost gone: multiset<Addr>, ghost all: multiset<Addr>)
      requires (v.Group? || v.Subshell? || v.Coproc?) && ValidValue(v)
      requires Gone(multiset(live), gone, all) && gone + ValueBlocks(v) <= all
      modifies this
      ensures Gone(multiset(live), gone + ValueBlocks(v), all)
      decreases v, 0
    {
      hide Gone, WordBlocks, WordsBlocks, OptStrBlocks, RedirectsBlocks, CondBlocks, Blocks, Valid, ValidRedirects;
      ghost var c, n := Blocks(v.command), multiset{v.at};
      if v.Coproc? {
        ghost var x := multiset{v.coname.at};
        assert gone + ValueBlocks(v) == gone + x + c + n;
        Parts(gone, x, c, n, multiset{});
        FreeNext(v.coname.at, gone, all);
        DisposeCommand(v.command, gone + x, all);
        FreeNext(v.at, gone + x + c, all);
      } else {
        assert gone + ValueBlocks(v) == gone + c + n;
        Parts(gone, c, n, multiset{}, multiset{});
        DisposeCommand(v.command, gone, all);
        FreeNext(v.at, gone + c, all);
      }
    }

    method DisposeClauses(l: seq<Clause>, ghost gone: multiset<Addr>, ghost all: multiset<Addr>)
      requires ValidClauses(l) && Gone(multiset(live), gone, all) && gone + ClausesBlocks(l) <= all
      modifies this
      ensures Gone(multiset(live), gone + ClausesBlocks(l), all)
      decreases l, 0
    {
      hide Gone, WordsBlocks, ClausesBlocks, Blocks, Valid;
      NoClauses(gone);
      for i := 0 to |l|
        invariant Gone(multiset(live), gone + ClausesBlocks(l[..i]), all)
      {
        ClausesStep(l, i, gone);
        ghost var sofar := gone + ClausesBlocks(l[..i]);
        DisposeWords(l[i].patterns, sofar, all);
        DisposeCommand(l[i].action, sofar + WordsBlocks(l[i].patterns), all);
        FreeNext(l[i].at, sofar + WordsBlocks(l[i].patterns) + Blocks(l[i].action), all);
      }
      Whole(l);
    }

    method DisposeCase(v: Value, ghost gone: multiset<Addr>, ghost all: multiset<Addr>)
      requires v.Case? && ValidValue(v)
      requires Gone(multiset(live), gone, all) && gone + ValueBlocks(v) <= all
      modifies this
      ensures Gone(multiset(live), gone + ValueBlocks(v), all)
      decreases v, 0
    {
      hide Gone, WordBlocks, ClausesBlocks, ValidClauses;
      ghost var x, y, n := WordBlocks(v.word), ClausesBlocks(v.clauses), multiset{v.at};
      assert gone + ValueBlocks(v) == gone + x + y + n;
      Parts(gone, x, y, n, multiset{});
      DisposeWord(v.word, gone, all);
      DisposeClauses(v.clauses, gone + x, all);
      FreeNext(v.at, gone + x + y, all);
    }

    /** Arithmetic, conditional and simple commands and function definitions. */
    method DisposeLeaf(v: Value, ghost gone: multiset<Addr>, ghost all: multiset<Addr>)
      requires (v.Arith? || v.CondCommand? || v.Simple? || v.FunctionDef?) && ValidValue(v)
      requires Gone(multiset(live), gone, all) && gone + ValueBlocks(v) <= all
      modifies this
      ensures Gone(multiset(live), gone + ValueBlocks(v), all)
      decreases v, 0
    {
      hide Gone, WordBlocks, WordsBlocks, OptStrBlocks, RedirectsBlocks, CondBlocks, Blocks, Valid, ValidRedirects;
      match v {
        case Arith(at, _, _, exp) =>
          ghost var x, n := WordsBlocks(exp), multiset{at};
          assert gone + ValueBlocks(v) == gone + x + n;
          Parts(gone, x, n, multiset{}, multiset{});
          DisposeWords(exp, gone, all);
          FreeNext(at, gone + x, all);
        case CondCommand(node) =>
          DisposeCondNode(Some(node), gone, all);
        case Simple(at, _, _, words, redirects) =>
          ghost var x, y, n := WordsBlocks(words), RedirectsBlocks(redirects), multiset{at};
          assert gone + ValueBlocks(v) == gone + x + y + n;
          Parts(gone, x, y, n, multiset{});
          DisposeWords(words, gone, all);
          DisposeRedirects(redirects, gone + x, all);
          FreeNext(at, gone + x + y, all);
        case FunctionDef(at, _, _, name, command, file) =>
          ghost var x, y, z, n := WordBlocks(name), Blocks(command), OptStrBlocks(file), multiset{at};
          assert gone + ValueBlocks(v) == gone + x + y + z + n;
          Parts(gone, x, y, z, n);
          DisposeWord(name, gone, all);
          DisposeCommand(command, gone + x, all);
          DisposeString(file, gone + x + y, all);
          FreeNext(at, gone + x + y + z, all);
      }
    }

    /** dispose_command: every block of the tree is freed, each while it is in use, so just once. */
    method DisposeCommand(c: Option<Command>, ghost gone: multiset<Addr>, ghost all: multiset<Addr>)
      requires Valid(c) && Gone(multiset(live), gone, all) && gone + Blocks(c) <= all
      modifies this
      ensures Gone(multiset(live), gone + Blocks(c), all)
      decreases c, 2
    {
      hide Gone, RedirectsBlocks, ValueBlocks, ValidRedirects, ValidValue;
      if c == None {
        NoMore(gone);
        return;
      }
      var v := c.value.value;
      ghost var x, y, n := RedirectsBlocks(c.value.redirects), ValueBlocks(v), multiset{c.value.at};
      assert gone + Blocks(c) == gone + x + y + n;
      Parts(gone, x, y, n, multiset{});
      DisposeRedirects(c.value.redirects, gone, all);
      if v.For? || v.Select? || v.ArithFor? {
        DisposeLoop(v, gone + x, all);
      } else if v.While? || v.Until? || v.If? || v.Connection? {
        DisposeBranches(v, gone + x, all);
      } else if v.Group? || v.Subshell? || v.Coproc? {
        DisposeGrouping(v, gone + x, all);
      } else if v.Case? {
        DisposeCase(v, gone + x, all);
      } else {
        DisposeLeaf(v, gone + x, all);
      }
      FreeNext(c.value.at, gone + x + y, all);
    }

    /** Any tree whose blocks are all in use, each once, can be disposed of; what is left is all else. */
    method Dispose(c: Option<Command>)
      requires Valid(c) && Blocks(c) <= multiset(live)
      modifies this
      ensures multiset(live) + Blocks(c) == multiset(old(live))
    {
      hide Blocks, Valid;
      Begin(multiset(live), Blocks(c));
      DisposeCommand(c, multiset{}, multiset(live));
    }

    /** Copying a command and disposing of the copy frees just what the copy took: the blocks in use are those
        that were, so also those of the original. */
    method CopyThenDispose(c: Option<Command>) returns (r: Option<Command>)
      requires Valid(c)
      modifies this
      ensures Shape(r) == Shape(c) && live == old(live)
    {
      hide Blocks, Valid, Shape;
      r := CopyCommand(c);
      Dispose(r);
      SameSet(live, old(live), Blocks(r));
    }
  }

  lemma NoString()
    ensures OptStrBlocks(None) == multiset{}
  {
  }

  lemma NoFile(r: Redirectee)
    requires r.Dest?
    ensures RedirecteeBlocks(r) == multiset{} && RedirecteeShape(r) == r
  {
  }

  lemma WordsMore(l: WordList, c: WordCell)
    ensures WordsShape(l + [c]) == WordsShape(l) + [WordCell(0, WordShape(c.word))]
    ensures WordsBlocks(l + [c]) == WordsBlocks(l) + multiset{c.at} + WordBlocks(c.word)
  {
    assert (l + [c])[..|l|] == l;
  }

  lemma RedirectsMore(l: seq<Redirect>, r: Redirect)
    ensures RedirectsShape(l + [r]) == RedirectsShape(l) + [RedirectShape(r)]
    ensures RedirectsBlocks(l + [r]) == RedirectsBlocks(l) + RedirectBlocks(r)
    ensures ValidRedirects(l) && r.Valid() ==> ValidRedirects(l + [r])
  {
    assert (l + [r])[..|l|] == l;
  }

  lemma ClausesMore(l: seq<Clause>, c: Clause)
    ensures ClausesShape(l + [c]) == ClausesShape(l) + [Clause(0, WordsShape(c.patterns), Shape(c.action), c.flags)]
    ensures ClausesBlocks(l + [c]) == ClausesBlocks(l) + multiset{c.at} + WordsBlocks(c.patterns) + Blocks(c.action)
    ensures ValidClauses(l) && Valid(c.action) ==> ValidClauses(l + [c])
  {
    assert (l + [c])[..|l|] == l;
  }

  lemma CondKept(c: Option<Cond>, r: Option<Cond>)
    requires CondShape(r) == CondShape(c)
    ensures r.Some? == c.Some?
  {
  }

  /** `r` is a copy of `v` made of blocks that were not in use. */
  ghost predicate Copied(v: Value, r: Value, before: set<Addr>, after: set<Addr>) {
    && ValidValue(r) && ValueShape(r) == ValueShape(v)
    && multiset(after) == multiset(before) + ValueBlocks(r)
  }

  lemma NoMore(gone: multiset<Addr>)
    ensures gone + multiset{} == gone
  {
  }

  lemma NoWords(gone: multiset<Addr>)
    ensures gone + WordsBlocks([]) == gone
  {
  }

  lemma NoRedirects(gone: multiset<Addr>)
    ensures gone + RedirectsBlocks([]) == gone
  {
  }

  /** One word more is freed; what is freed then is still no more than the whole list. */
  lemma WordsStep(l: WordList, i: nat, gone: multiset<Addr>)
    requires i < |l|
    ensures var sofar := gone + WordsBlocks(l[..i]);
      && gone + WordsBlocks(l[..i + 1]) == sofar + WordBlocks(l[i].word) + multiset{l[i].at}
      && sofar + WordBlocks(l[i].word) <= gone + WordsBlocks(l)
      && sofar + WordBlocks(l[i].word) + multiset{l[i].at} <= gone + WordsBlocks(l)
  {
    hide WordsBlocks, WordBlocks;
    TakeOne(l, i);
    WordsMore(l[..i], l[i]);
    WordsPrefix(l, i + 1);
  }

  lemma RedirectsStep(l: seq<Redirect>, i: nat, gone: multiset<Addr>)
    requires i < |l|
    ensures var sofar, t := gone + RedirectsBlocks(l[..i]), l[i];
      var targets :=
        sofar + RedirecteeBlocks(t.redirector) + OptStrBlocks(t.hereDocEof) + RedirecteeBlocks(t.redirectee);
      && gone + RedirectsBlocks(l[..i + 1]) == targets + multiset{t.at}
      && targets <= gone + RedirectsBlocks(l) && targets + multiset{t.at} <= gone + RedirectsBlocks(l)
  {
    hide RedirectsBlocks, RedirecteeBlocks, OptStrBlocks;
    TakeOne(l, i);
    RedirectsMore(l[..i], l[i]);
    RedirectsPrefix(l, i + 1);
  }

  lemma {:induction false} WordsPrefix(l: WordList, i: nat)
    requires i <= |l|
    ensures WordsBlocks(l[..i]) <= WordsBlocks(l)
    decreases |l|
  {
    hide WordsBlocks, WordBlocks;
    Whole(l);
    if i < |l| {
      var init := l[..|l| - 1];
      WordsPrefix(init, i);
      assert init[..i] == l[..i] && l == init + [l[|l| - 1]];
      WordsMore(init, l[|l| - 1]);
    }
  }

  lemma {:induction false} RedirectsPrefix(l: seq<Redirect>, i: nat)
    requires i <= |l|
    ensures RedirectsBlocks(l[..i]) <= RedirectsBlocks(l)
    decreases |l|
  {
    Whole(l);
    if i < |l| {
      RedirectsPrefix(l[..|l| - 1], i);
      assert l[..|l| - 1][..i] == l[..i];
    }
  }

  lemma {:induction false} ClausesPrefix(l: seq<Clause>, i: nat)
    requires i <= |l|
    ensures ClausesBlocks(l[..i]) <= ClausesBlocks(l)
    decreases |l|
  {
    hide Blocks, WordsBlocks;
    Whole(l);
    if i < |l| {
      ClausesPrefix(l[..|l| - 1], i);
      assert l[..|l| - 1][..i] == l[..i];
    }
  }

  /** Blocks added to those in use were not among them, and are all different. */
  lemma FreshBlocks(before: set<Addr>, after: set<Addr>, m: multiset<Addr>)
    requires multiset(after) == multiset(before) + m
    ensures forall a <- m :: m[a] == 1 && a !in before && a in after
    ensures before <= after
  {
    forall a
      ensures multiset(after)[a] == multiset(before)[a] + m[a]
    {
      assert (multiset(before) + m)[a] == multiset(before)[a] + m[a];
    }
  }

  lemma SameSet(a: set<Addr>, b: set<Addr>, m: multiset<Addr>)
    requires multiset(a) + m == multiset(b) + m
    ensures a == b
  {
    forall x
      ensures x in a <==> x in b
    {
      assert (multiset(a) + m)[x] == multiset(a)[x] + m[x];
      assert (multiset(b) + m)[x] == multiset(b)[x] + m[x];
    }
  }

  lemma CondParts(c: Option<Cond>, gone: multiset<Addr>)
    ensures c == None ==> gone + CondBlocks(c) == gone
    ensures c.Some? ==>
      var n := c.value;
      var o := if n.op.Some? then WordBlocks(n.op.value) else multiset{};
      gone + CondBlocks(c) == gone + CondBlocks(n.left) + CondBlocks(n.right) + o + multiset{n.at}
  {
    hide WordBlocks;
  }

  lemma ClausesNone()
    ensures ValidClauses([]) && ClausesShape([]) == [] && ClausesBlocks([]) == multiset{}
    ensures Reverse<Clause>([]) == []
  {
  }

  lemma ClauseValid(l: seq<Clause>, i: nat)
    requires ValidClauses(l) && i < |l|
    ensures Valid(l[i].action)
  {
  }

  lemma NoClauses(gone: multiset<Addr>)
    ensures gone + ClausesBlocks([]) == gone
  {
  }

  lemma ClausesStep(l: seq<Clause>, i: nat, gone: multiset<Addr>)
    requires i < |l|
    ensures var sofar, c := gone + ClausesBlocks(l[..i]), l[i];
      var inner := sofar + WordsBlocks(c.patterns) + Blocks(c.action);
      && gone + ClausesBlocks(l[..i + 1]) == inner + multiset{c.at}
      && sofar + WordsBlocks(c.patterns) <= gone + ClausesBlocks(l)
      && inner <= gone + ClausesBlocks(l) && inner + multiset{c.at} <= gone + ClausesBlocks(l)
  {
    hide ClausesBlocks, WordsBlocks, Blocks;
    TakeOne(l, i);
    ClausesMore(l[..i], l[i]);
    ClausesPrefix(l, i + 1);
  }
}
