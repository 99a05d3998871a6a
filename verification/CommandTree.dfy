/** The command trees of command.h: every struct and string with the address of its block. */
module CommandTree {
  import opened Wrappers

  type Addr = nat

  datatype Str = Str(at: Addr, chars: string)

  datatype Word = Word(at: Addr, word: Str, flags: int)

  datatype WordCell = WordCell(at: Addr, word: Word)

  type WordList = seq<WordCell>

  datatype Instruction =
    | OutputDirection | InputDirection | InputaDirection | AppendingTo | ReadingUntil | ReadingString
    | DuplicatingInput | DuplicatingOutput | DeblankReadingUntil | CloseThis | ErrAndOut | InputOutput
    | OutputForce | DuplicatingInputWord | DuplicatingOutputWord | MoveInput | MoveOutput | MoveInputWord
    | MoveOutputWord | AppendErrAndOut

  /** The union of a descriptor and a file name. */
  datatype Redirectee = Dest(fd: int) | Filename(name: Word)

  datatype Redirect = Redirect(
    at: Addr, redirector: Redirectee, rflags: int, flags: int, instruction: Instruction, redirectee: Redirectee,
    hereDocEof: Option<Str>)
  {
    /** The members of the unions that are in use, and the end of a here document where there is one. */
    predicate Valid() {
      && (redirector.Filename? <==> VarAssign(rflags))
      && (redirectee.Filename? <==> NamesFile(instruction))
      && (hereDocEof.Some? ==> HereDoc(instruction))
    }
  }

  /** REDIR_VARASSIGN is set. */
  predicate VarAssign(rflags: int) { rflags % 2 == 1 }

  predicate HereDoc(i: Instruction) { i.ReadingUntil? || i.DeblankReadingUntil? }

  predicate NamesFile(i: Instruction) {
    !(i.DuplicatingInput? || i.DuplicatingOutput? || i.MoveInput? || i.MoveOutput? || i.CloseThis?)
  }

  datatype Cond = Cond(
    at: Addr, flags: int, line: int, kind: int, op: Option<Word>, left: Option<Cond>, right: Option<Cond>)

  datatype Clause = Clause(at: Addr, patterns: WordList, action: Option<Command>, flags: int)

  datatype Command = Command(at: Addr, flags: int, line: int, redirects: seq<Redirect>, value: Value)

  /** The structs that the union of a command points to. */
  datatype Value =
    | For(at: Addr, flags: int, line: int, name: Word, mapList: WordList, action: Option<Command>)
    | Select(at: Addr, flags: int, line: int, name: Word, mapList: WordList, action: Option<Command>)
    | ArithFor(at: Addr, flags: int, line: int, init: WordList, test: WordList, step: WordList, action: Option<Command>)
    | Group(at: Addr, command: Option<Command>)
    | Subshell(at: Addr, flags: int, line: int, command: Option<Command>)
    | Coproc(at: Addr, flags: int, coname: Str, command: Option<Command>)
    | Case(at: Addr, flags: int, line: int, word: Word, clauses: seq<Clause>)
    | While(at: Addr, flags: int, cond: Option<Command>, action: Option<Command>)
    | Until(at: Addr, flags: int, cond: Option<Command>, action: Option<Command>)
    | If(at: Addr, flags: int, cond: Option<Command>, trueCase: Option<Command>, falseCase: Option<Command>)
    | Arith(at: Addr, flags: int, line: int, exp: WordList)
    | CondCommand(node: Cond)
    | Simple(at: Addr, flags: int, line: int, words: WordList, redirects: seq<Redirect>)
    | Connection(at: Addr, first: Option<Command>, second: Option<Command>, connector: int)
    | FunctionDef(at: Addr, flags: int, line: int, name: Word, command: Option<Command>, sourceFile: Option<Str>)

  // ---------------------------------------------------------------- well-formed

  predicate ValidRedirects(l: seq<Redirect>) { forall r <- l :: r.Valid() }

  predicate Valid(c: Option<Command>) {
    c.Some? ==> ValidRedirects(c.value.redirects) && ValidValue(c.value.value)
  }

  predicate ValidClauses(l: seq<Clause>) {
    forall k :: 0 <= k < |l| ==> Valid(l[k].action)
  }

  predicate ValidValue(v: Value) {
    match v
    case For(_, _, _, _, _, action) => Valid(action)
    case Select(_, _, _, _, _, action) => Valid(action)
    case ArithFor(_, _, _, _, _, _, action) => Valid(action)
    case Group(_, command) => Valid(command)
    case Subshell(_, _, _, command) => Valid(command)
    case Coproc(_, _, _, command) => Valid(command)
    case Case(_, _, _, _, clauses) => ValidClauses(clauses)
    case While(_, _, cond, action) => Valid(cond) && Valid(action)
    case Until(_, _, cond, action) => Valid(cond) && Valid(action)
    case If(_, _, cond, yes, no) => Valid(cond) && Valid(yes) && Valid(no)
    case Arith(_, _, _, _) => true
    case CondCommand(_) => true
    case Simple(_, _, _, _, redirects) => ValidRedirects(redirects)
    case Connection(_, first, second, _) => Valid(first) && Valid(second)
    case FunctionDef(_, _, _, _, command, _) => Valid(command)
  }

  // ---------------------------------------------------------------- structure without addresses

  function StrShape(s: Str): Str { s.(at := 0) }

  function WordShape(w: Word): Word { Word(0, StrShape(w.word), w.flags) }

  function WordsShape(l: WordList): WordList {
    if l == [] then [] else WordsShape(l[..|l| - 1]) + [WordCell(0, WordShape(l[|l| - 1].word))]
  }

  function OptStrShape(s: Option<Str>): Option<Str> { if s.Some? then Some(StrShape(s.value)) else None }

  function RedirecteeShape(r: Redirectee): Redirectee { if r.Filename? then Filename(WordShape(r.name)) else r }

  function RedirectShape(r: Redirect): Redirect {
    Redirect(0, RedirecteeShape(r.redirector), r.rflags, r.flags, r.instruction, RedirecteeShape(r.redirectee),
             OptStrShape(r.hereDocEof))
  }

  function RedirectsShape(l: seq<Redirect>): seq<Redirect> {
    if l == [] then [] else RedirectsShape(l[..|l| - 1]) + [RedirectShape(l[|l| - 1])]
  }

  function CondShape(c: Option<Cond>): Option<Cond> {
    if c.None? then None
    else
      var n := c.value;
      Some(Cond(0, n.flags, n.line, n.kind, if n.op.Some? then Some(WordShape(n.op.value)) else None, CondShape(n.left),
                CondShape(n.right)))
  }

  function Shape(c: Option<Command>): Option<Command> {
    if c.None? then None
    else Some(Command(0, c.value.flags, c.value.line, RedirectsShape(c.value.redirects), ValueShape(c.value.value)))
  }

  function ClausesShape(l: seq<Clause>): seq<Clause> {
    if l == [] then []
    else
      var c := l[|l| - 1];
      ClausesShape(l[..|l| - 1]) + [Clause(0, WordsShape(c.patterns), Shape(c.action), c.flags)]
  }

  function ValueShape(v: Value): Value {
    match v
    case For(_, flags, line, name, list, action) =>
      For(0, flags, line, WordShape(name), WordsShape(list), Shape(action))
    case Select(_, flags, line, name, list, action) =>
      Select(0, flags, line, WordShape(name), WordsShape(list), Shape(action))
    case ArithFor(_, flags, line, init, test, step, action) =>
      ArithFor(0, flags, line, WordsShape(init), WordsShape(test), WordsShape(step), Shape(action))
    case Group(_, command) => Group(0, Shape(command))
    case Subshell(_, flags, line, command) => Subshell(0, flags, line, Shape(command))
    case Coproc(_, flags, name, command) => Coproc(0, flags, StrShape(name), Shape(command))
    case Case(_, flags, line, word, clauses) => Case(0, flags, line, WordShape(word), ClausesShape(clauses))
    case While(_, flags, cond, action) => While(0, flags, Shape(cond), Shape(action))
    case Until(_, flags, cond, action) => Until(0, flags, Shape(cond), Shape(action))
    case If(_, flags, cond, yes, no) => If(0, flags, Shape(cond), Shape(yes), Shape(no))
    case Arith(_, flags, line, exp) => Arith(0, flags, line, WordsShape(exp))
    case CondCommand(node) => CondCommand(CondShape(Some(node)).value)
    case Simple(_, flags, line, words, redirects) =>
      Simple(0, flags, line, WordsShape(words), RedirectsShape(redirects))
    case Connection(_, first, second, connector) => Connection(0, Shape(first), Shape(second), connector)
    case FunctionDef(_, flags, line, name, command, file) =>
      FunctionDef(0, flags, line, WordShape(name), Shape(command), OptStrShape(file))
  }

  // ---------------------------------------------------------------- the blocks a structure owns

  function WordBlocks(w: Word): multiset<Addr> { multiset{w.at, w.word.at} }

  function WordsBlocks(l: WordList): multiset<Addr> {
    if l == [] then multiset{}
    else WordsBlocks(l[..|l| - 1]) + multiset{l[|l| - 1].at} + WordBlocks(l[|l| - 1].word)
  }

  function OptStrBlocks(s: Option<Str>): multiset<Addr> { if s.Some? then multiset{s.value.at} else multiset{} }

  function RedirecteeBlocks(r: Redirectee): multiset<Addr> {
    if r.Filename? then WordBlocks(r.name) else multiset{}
  }

  function RedirectBlocks(r: Redirect): multiset<Addr> {
    multiset{r.at} + RedirecteeBlocks(r.redirector) + RedirecteeBlocks(r.redirectee) + OptStrBlocks(r.hereDocEof)
  }

  function RedirectsBlocks(l: seq<Redirect>): multiset<Addr> {
    if l == [] then multiset{} else RedirectsBlocks(l[..|l| - 1]) + RedirectBlocks(l[|l| - 1])
  }

  function CondBlocks(c: Option<Cond>): multiset<Addr> {
    if c.None? then multiset{}
    else
      var n := c.value;
      multiset{n.at} + (if n.op.Some? then WordBlocks(n.op.value) else multiset{}) + CondBlocks(n.left)
        + CondBlocks(n.right)
  }

  function Blocks(c: Option<Command>): multiset<Addr> {
    if c.None? then multiset{}
    else multiset{c.value.at} + RedirectsBlocks(c.value.redirects) + ValueBlocks(c.value.value)
  }

  function ClausesBlocks(l: seq<Clause>): multiset<Addr> {
    if l == [] then multiset{}
    else
      var c := l[|l| - 1];
      ClausesBlocks(l[..|l| - 1]) + multiset{c.at} + WordsBlocks(c.patterns) + Blocks(c.action)
  }

  function ValueBlocks(v: Value): multiset<Addr> {
    match v
    case For(at, _, _, name, list, action) => multiset{at} + WordBlocks(name) + WordsBlocks(list) + Blocks(action)
    case Select(at, _, _, name, list, action) => multiset{at} + WordBlocks(name) + WordsBlocks(list) + Blocks(action)
    case ArithFor(at, _, _, init, test, step, action) =>
      multiset{at} + WordsBlocks(init) + WordsBlocks(test) + WordsBlocks(step) + Blocks(action)
    case Group(at, command) => multiset{at} + Blocks(command)
    case Subshell(at, _, _, command) => multiset{at} + Blocks(command)
    case Coproc(at, _, name, command) => multiset{at} + multiset{name.at} + Blocks(command)
    case Case(at, _, _, word, clauses) => multiset{at} + WordBlocks(word) + ClausesBlocks(clauses)
    case While(at, _, cond, action) => multiset{at} + Blocks(cond) + Blocks(action)
    case Until(at, _, cond, action) => multiset{at} + Blocks(cond) + Blocks(action)
    case If(at, _, cond, yes, no) => multiset{at} + Blocks(cond) + Blocks(yes) + Blocks(no)
    case Arith(at, _, _, exp) => multiset{at} + WordsBlocks(exp)
    case CondCommand(node) => CondBlocks(Some(node))
    case Simple(at, _, _, words, redirects) => multiset{at} + WordsBlocks(words) + RedirectsBlocks(redirects)
    case Connection(at, first, second, _) => multiset{at} + Blocks(first) + Blocks(second)
    case FunctionDef(at, _, _, name, command, file) =>
      multiset{at} + WordBlocks(name) + Blocks(command) + OptStrBlocks(file)
  }
}
