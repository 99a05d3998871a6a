/** break and continue as execute_cmd.c and builtins/break.def do them, with two counters that make everything
    after them return early, and what they are to mean. */
module LoopControl {
  import opened Wrappers

  const EXECUTION_SUCCESS := 0
  const EXECUTION_FAILURE := 1

  /** What commands work on. */
  datatype World = World(vars: map<string, string>, readonly: set<string>, output: seq<string>)

  /** A simple command is whatever it does to the world, and its status; the words of a for loop are what their
      expansion gives when the loop is entered. */
  datatype Command =
    | Simple(run: World -> (World, int))
    | Break(n: int)
    | Continue(n: int)
    | Seq(first: Command, second: Command)
    | AndAnd(first: Command, second: Command)
    | OrOr(first: Command, second: Command)
    | If(test: Command, yes: Command, no: Option<Command>)
    | For(name: string, words: World -> (World, seq<string>), action: Command)
    | While(test: Command, action: Command)
    | Until(test: Command, action: Command)
    | Group(inner: Command)
    | Not(inner: Command)

  // ---------------------------------------------------------------- the counters

  /** The shell: the world, $?, and the three global counters. */
  datatype Shell = Shell(w: World, last: int, breaking: nat, continuing: nat, level: nat)

  datatype Ran = Ran(sh: Shell, status: int)

  predicate Idle(sh: Shell) { sh.breaking == 0 && sh.continuing == 0 }

  /** The counters name no more loops than there are, and not both are set: outside all loops both are zero. */
  predicate Bounded(sh: Shell) {
    sh.breaking <= sh.level && sh.continuing <= sh.level && (sh.breaking == 0 || sh.continuing == 0)
  }

  function Least(a: int, b: int): int { if a < b then a else b }

  function Inverted(status: int): int {
    if status == EXECUTION_SUCCESS then EXECUTION_FAILURE else EXECUTION_SUCCESS
  }

  /** break_builtin and continue_builtin: nothing outside a loop; a bad count leaves all loops. */
  function BreakBuiltin(sh: Shell, n: int): Ran {
    if sh.level == 0 then Ran(sh, EXECUTION_SUCCESS)
    else if n <= 0 then Ran(sh.(breaking := sh.level), EXECUTION_FAILURE)
    else Ran(sh.(breaking := Least(n, sh.level)), EXECUTION_SUCCESS)
  }

  function ContinueBuiltin(sh: Shell, n: int): Ran {
    if sh.level == 0 then Ran(sh, EXECUTION_SUCCESS)
    else if n <= 0 then Ran(sh.(breaking := sh.level), EXECUTION_FAILURE)
    else Ran(sh.(continuing := Least(n, sh.level)), EXECUTION_SUCCESS)
  }

  predicate Letter(c: char) { 'a' <= c <= 'z' || 'A' <= c <= 'Z' || c == '_' }

  /** legal_identifier. */
  predicate Legal(name: string) {
    name != [] && Letter(name[0]) && forall c <- name :: Letter(c) || '0' <= c <= '9'
  }

  /** bind_variable, for the variable of a for loop. */
  function Bind(w: World, name: string, word: string): Option<World> {
    if name in w.readonly then None else Some(w.(vars := w.vars[name := word]))
  }

  /** Everything is skipped while a break or continue is under way; no command at all succeeds. */
  function NoCommand(sh: Shell): Ran {
    Ran(sh, if sh.breaking > 0 || sh.continuing > 0 then sh.last else EXECUTION_SUCCESS)
  }

  /** execute_command_internal. `None` means that the fuel, which loop iterations use up, ran out. Whatever
      happens, the loop level is what it was, and no jump is left that goes to a loop that there is not. */
  function Exec(c: Command, sh: Shell, fuel: nat): (r: Option<Ran>)
    ensures r.Some? ==> r.value.sh.level == sh.level && (Bounded(sh) ==> Bounded(r.value.sh))
    decreases fuel, c, 2, 0
  {
    if sh.breaking > 0 || sh.continuing > 0 then Some(Ran(sh, sh.last))
    else
      match Switch(c, sh, fuel)
      case None => None
      case Some(r) =>
        var status := if c.Not? then Inverted(r.status) else r.status;
        Some(Ran(r.sh.(last := status), status))
  }

  function Switch(c: Command, sh: Shell, fuel: nat): (r: Option<Ran>)
    ensures r.Some? ==> r.value.sh.level == sh.level && (Idle(sh) ==> Bounded(r.value.sh))
    decreases fuel, c, 1, 0
  {
    match c
    case Simple(run) =>
      var (w, status) := run(sh.w);
      Some(Ran(sh.(w := w), status))
    case Break(n) => Some(BreakBuiltin(sh, n))
    case Continue(n) => Some(ContinueBuiltin(sh, n))
    case Seq(a, b) =>
      (match Exec(a, sh, fuel)
       case None => None
       case Some(r) => Exec(b, r.sh, fuel))
    case AndAnd(a, b) =>
      (match Exec(a, sh, fuel)
       case None => None
       case Some(r) => if r.status == EXECUTION_SUCCESS then Exec(b, r.sh, fuel) else Some(r))
    case OrOr(a, b) =>
      (match Exec(a, sh, fuel)
       case None => None
       case Some(r) => if r.status != EXECUTION_SUCCESS then Exec(b, r.sh, fuel) else Some(r))
    case If(test, yes, no) =>
      (match Exec(test, sh, fuel)
       case None => None
       case Some(r) =>
         if r.status == EXECUTION_SUCCESS then Exec(yes, r.sh, fuel)
         else if no.Some? then Exec(no.value, r.sh, fuel)
         else Some(NoCommand(r.sh)))
    case For(name, words, _) =>
      if !Legal(name) then Some(Ran(sh, EXECUTION_FAILURE))
      else
        var (w, list) := words(sh.w);
        ForLoop(c, list, sh.(w := w, level := sh.level + 1), EXECUTION_SUCCESS, fuel)
    case While(_, _) => WhileLoop(c, sh.(level := sh.level + 1), EXECUTION_SUCCESS, fuel)
    case Until(_, _) => WhileLoop(c, sh.(level := sh.level + 1), EXECUTION_SUCCESS, fuel)
    case Group(inner) => Exec(inner, sh, fuel)
    case Not(inner) => Exec(inner, sh, fuel)
  }

  /** execute_for_command from the words left on. */
  function ForLoop(c: Command, words: seq<string>, sh: Shell, status: int, fuel: nat): (r: Option<Ran>)
    requires c.For? && sh.level > 0
    ensures r.Some? ==> r.value.sh.level == sh.level - 1 && (Idle(sh) ==> Bounded(r.value.sh))
    decreases fuel, c, 0, |words|
  {
    if words == [] then Some(Ran(sh.(level := sh.level - 1), status))
    else
      match Bind(sh.w, c.name, words[0])
      case None => Some(Ran(sh.(level := sh.level - 1), EXECUTION_FAILURE))
      case Some(w) =>
        match Exec(c.action, sh.(w := w), fuel)
        case None => None
        case Some(r) =>
          var checked := After(r.sh);
          if checked.leave then Some(Ran(checked.sh.(level := sh.level - 1), r.status))
          else ForLoop(c, words[1..], checked.sh, r.status, fuel)
  }

  /** execute_while_or_until from one test on; `status` is that of the last body. */
  function WhileLoop(c: Command, sh: Shell, status: int, fuel: nat): (r: Option<Ran>)
    requires (c.While? || c.Until?) && sh.level > 0
    ensures r.Some? ==> r.value.sh.level == sh.level - 1 && (Idle(sh) ==> Bounded(r.value.sh))
    decreases fuel, c, 0, 0
  {
    match Exec(c.test, sh, fuel)
    case None => None
    case Some(t) =>
      if Ends(c, t.status) then
        Some(Ran(Shell(t.sh.w, t.sh.last, Less(t.sh.breaking), Less(t.sh.continuing), sh.level - 1), status))
      else
        match Exec(c.action, t.sh, fuel)
        case None => None
        case Some(r) =>
          var checked := After(r.sh);
          if checked.leave then Some(Ran(checked.sh.(level := sh.level - 1), r.status))
          else if fuel == 0 then None
          else WhileLoop(c, checked.sh, r.status, fuel - 1)
  }

  predicate Ends(c: Command, status: int) {
    (c.While? && status != EXECUTION_SUCCESS) || (c.Until? && status == EXECUTION_SUCCESS)
  }

  function Less(n: nat): nat { if n > 0 then n - 1 else 0 }

  datatype Checked = Checked(leave: bool, sh: Shell)

  /** What a loop does with the counters after its body. */
  function After(sh: Shell): (r: Checked)
    ensures r.sh.level == sh.level
  {
    if sh.breaking > 0 then Checked(true, sh.(breaking := sh.breaking - 1))
    else if sh.continuing > 0 then Checked(sh.continuing > 1, sh.(continuing := sh.continuing - 1))
    else Checked(false, sh)
  }

  // ---------------------------------------------------------------- what is meant

  /** How a command ends: by itself, or leaving or restarting the k-th loop around it. */
  datatype Outcome = Normal | Leave(k: nat) | Restart(k: nat)

  datatype Done = Done(w: World, last: int, status: int, outcome: Outcome)

  /** A jump goes to the k-th loop around, or to the outermost; it is no jump without a loop, and a bad count is
      an error that leaves them all. */
  function JumpTo(n: int, level: nat, restart: bool): (Outcome, int) {
    if level == 0 then (Normal, EXECUTION_SUCCESS)
    else if n <= 0 then (Leave(level), EXECUTION_FAILURE)
    else
      var k: nat := Least(n, level);
      (if restart then Restart(k) else Leave(k), EXECUTION_SUCCESS)
  }

  /** `overridden` says that somewhere the status of a test ended a loop although the test had jumped, and that
      made a difference. */
  datatype Meant = Meant(done: Option<Done>, overridden: bool)

  function Then(first: Meant, next: Meant): Meant { next.(overridden := first.overridden || next.overridden) }

  /** The meaning of a command inside `level` loops. After a jump nothing is executed up to the loop it goes to. */
  function Means(c: Command, w: World, last: int, level: nat, fuel: nat): (r: Meant)
    ensures r.done.Some? ==> r.done.value.last == r.done.value.status
    decreases fuel, c, 2, 0
  {
    var m := Parts(c, w, last, level, fuel);
    match m.done
    case None => m
    case Some(d) =>
      var status := if c.Not? then Inverted(d.status) else d.status;
      m.(done := Some(Done(d.w, status, status, d.outcome)))
  }

  function Plainly(d: Done): Meant { Meant(Some(d), false) }

  function Parts(c: Command, w: World, last: int, level: nat, fuel: nat): Meant
    decreases fuel, c, 1, 0
  {
    match c
    case Simple(run) =>
      var (w', status) := run(w);
      Plainly(Done(w', last, status, Normal))
    case Break(n) =>
      var (outcome, status) := JumpTo(n, level, false);
      Plainly(Done(w, last, status, outcome))
    case Continue(n) =>
      var (outcome, status) := JumpTo(n, level, true);
      Plainly(Done(w, last, status, outcome))
    case Seq(a, b) =>
      var m := Means(a, w, last, level, fuel);
      (match m.done
       case None => m
       case Some(d) => if d.outcome != Normal then m else Then(m, Means(b, d.w, d.last, level, fuel)))
    case AndAnd(a, b) =>
      var m := Means(a, w, last, level, fuel);
      (match m.done
       case None => m
       case Some(d) =>
         if d.outcome != Normal || d.status != EXECUTION_SUCCESS then m
         else Then(m, Means(b, d.w, d.last, level, fuel)))
    case OrOr(a, b) =>
      var m := Means(a, w, last, level, fuel);
      (match m.done
       case None => m
       case Some(d) =>
         if d.outcome != Normal || d.status == EXECUTION_SUCCESS then m
         else Then(m, Means(b, d.w, d.last, level, fuel)))
    case If(test, yes, no) =>
      var m := Means(test, w, last, level, fuel);
      (match m.done
       case None => m
       case Some(d) =>
         if d.outcome != Normal then m
         else if d.status == EXECUTION_SUCCESS then Then(m, Means(yes, d.w, d.last, level, fuel))
         else if no.Some? then Then(m, Means(no.value, d.w, d.last, level, fuel))
         else m.(done := Some(Done(d.w, d.last, EXECUTION_SUCCESS, Normal))))
    case For(name, words, _) =>
      if !Legal(name) then Plainly(Done(w, last, EXECUTION_FAILURE, Normal))
      else
        var (w', list) := words(w);
        Each(c, list, w', last, EXECUTION_SUCCESS, level, fuel)
    case While(_, _) => Repeat(c, w, last, EXECUTION_SUCCESS, level, fuel)
    case Until(_, _) => Repeat(c, w, last, EXECUTION_SUCCESS, level, fuel)
    case Group(inner) => Means(inner, w, last, level, fuel)
    case Not(inner) => Means(inner, w, last, level, fuel)
  }

  /** The rest of a loop after one body: none, once the loop is left or an outer one is to go on. */
  function Rest(o: Outcome): Option<Outcome> {
    match o
    case Normal => None
    case Leave(k) => Some(if k <= 1 then Normal else Leave(k - 1))
    case Restart(k) => if k <= 1 then None else Some(Restart(k - 1))
  }

  function Each(c: Command, words: seq<string>, w: World, last: int, status: int, level: nat, fuel: nat): Meant
    requires c.For?
    decreases fuel, c, 0, |words|
  {
    if words == [] then Plainly(Done(w, last, status, Normal))
    else
      match Bind(w, c.name, words[0])
      case None => Plainly(Done(w, last, EXECUTION_FAILURE, Normal))
      case Some(w') =>
        var m := Means(c.action, w', last, level + 1, fuel);
        match m.done
        case None => m
        case Some(d) =>
          match Rest(d.outcome)
          case Some(o) => m.(done := Some(Done(d.w, d.last, d.status, o)))
          case None => Then(m, Each(c, words[1..], d.w, d.last, d.status, level, fuel))
  }

  /** A jump in the test goes where it says: it leaves this loop, or an outer one, or begins the next iteration.
      Otherwise the status of the test decides. */
  function Repeat(c: Command, w: World, last: int, status: int, level: nat, fuel: nat): Meant
    requires c.While? || c.Until?
    decreases fuel, c, 0, 0
  {
    var m := Means(c.test, w, last, level + 1, fuel);
    match m.done
    case None => m
    case Some(t) =>
      if t.outcome == Normal && Ends(c, t.status) then m.(done := Some(Done(t.w, t.last, status, Normal)))
      else
        var body := if t.outcome == Normal then Means(c.action, t.w, t.last, level + 1, fuel)
                    else Meant(Some(t), Overrides(c, t, status));
        var n := Then(m, body);
        match n.done
        case None => n
        case Some(d) =>
          match Rest(d.outcome)
          case Some(o) => n.(done := Some(Done(d.w, d.last, d.status, o)))
          case None =>
            if fuel == 0 then n.(done := None) else Then(n, Repeat(c, d.w, d.last, d.status, level, fuel - 1))
  }

  /** The status of the test ends the loop while a jump is under way: a jump to the next iteration is not made, and
      any other leaves the status of the last body. */
  predicate Overrides(c: Command, t: Done, status: int)
    requires c.While? || c.Until?
  {
    t.outcome != Normal && Ends(c, t.status) && (t.outcome == Restart(1) || t.status != status)
  }

  // ---------------------------------------------------------------- they agree

  /** The counters say what the outcome says. */
  predicate Encodes(sh: Shell, o: Outcome) {
    match o
    case Normal => sh.breaking == 0 && sh.continuing == 0
    case Leave(k) => sh.breaking == k > 0 && sh.continuing == 0 && k <= sh.level
    case Restart(k) => sh.breaking == 0 && sh.continuing == k > 0 && k <= sh.level
  }

  /** Both run out of fuel, or they end in the same world with the same statuses and the same jump under way. */
  predicate Same(r: Option<Ran>, d: Option<Done>, level: nat) {
    if r.None? || d.None? then r.None? && d.None?
    else
      && r.value.sh.w == d.value.w && r.value.sh.last == d.value.last && r.value.status == d.value.status
      && Encodes(r.value.sh, d.value.outcome) && r.value.sh.level == level
  }

  predicate Agree(r: Option<Ran>, m: Meant, level: nat) { m.overridden || Same(r, m.done, level) }

  /** The counters, early returns and all, do what is meant, unless a test that jumps is overridden by its status:
      same world, same statuses, and counters that are zero unless a jump is under way, which names a loop there
      is. */
  lemma {:induction false} CountersAgree(c: Command, sh: Shell, fuel: nat)
    requires Idle(sh)
    ensures Agree(Exec(c, sh, fuel), Means(c, sh.w, sh.last, sh.level, fuel), sh.level)
    decreases fuel, c, 2, 0
  {
    hide Switch, Parts;
    PartsAgree(c, sh, fuel);
  }

  lemma {:induction false} PartsAgree(c: Command, sh: Shell, fuel: nat)
    requires Idle(sh)
    ensures Agree(Switch(c, sh, fuel), Parts(c, sh.w, sh.last, sh.level, fuel), sh.level)
    decreases fuel, c, 1, 0
  {
    hide Exec, Means, ForLoop, WhileLoop, Each, Repeat, Legal;
    if c.Seq? || c.AndAnd? || c.OrOr? {
      CountersAgree(c.first, sh, fuel);
      var r := Exec(c.first, sh, fuel);
      if r.Some? {
        NextAgrees(c.second, r.value.sh, fuel);
        if Idle(r.value.sh) {
          CountersAgree(c.second, r.value.sh, fuel);
        }
      }
    } else if c.If? {
      CountersAgree(c.test, sh, fuel);
      var r := Exec(c.test, sh, fuel);
      if r.Some? {
        NextAgrees(c.yes, r.value.sh, fuel);
        if Idle(r.value.sh) {
          CountersAgree(c.yes, r.value.sh, fuel);
        }
        if c.no.Some? {
          NextAgrees(c.no.value, r.value.sh, fuel);
          if Idle(r.value.sh) {
            CountersAgree(c.no.value, r.value.sh, fuel);
          }
        }
      }
    } else if c.For? {
      if Legal(c.name) {
        var (w, list) := c.words(sh.w);
        EachAgrees(c, list, sh.(w := w, level := sh.level + 1), EXECUTION_SUCCESS, fuel);
      }
    } else if c.While? || c.Until? {
      RepeatAgrees(c, sh.(level := sh.level + 1), EXECUTION_SUCCESS, fuel);
    } else if c.Group? || c.Not? {
      CountersAgree(c.inner, sh, fuel);
    }
  }

  /** During a jump nothing is done. */
  lemma NextAgrees(c: Command, sh: Shell, fuel: nat)
    ensures !Idle(sh) ==> Exec(c, sh, fuel) == Some(Ran(sh, sh.last))
  {
    hide Switch;
  }

  lemma {:induction false} EachAgrees(c: Command, words: seq<string>, sh: Shell, status: int, fuel: nat)
    requires c.For? && Idle(sh) && sh.level > 0
    ensures Agree(
      ForLoop(c, words, sh, status, fuel), Each(c, words, sh.w, sh.last, status, sh.level - 1, fuel), sh.level - 1)
    decreases fuel, c, 0, |words|
  {
    hide Exec, Means;
    if words != [] && Bind(sh.w, c.name, words[0]).Some? {
      var in' := sh.(w := Bind(sh.w, c.name, words[0]).value);
      CountersAgree(c.action, in', fuel);
      var r := Exec(c.action, in', fuel);
      if r.Some? && !After(r.value.sh).leave && Idle(After(r.value.sh).sh) {
        EachAgrees(c, words[1..], After(r.value.sh).sh, r.value.status, fuel);
      }
    }
  }

  /** A jump in the test of a loop. To the next iteration: the loop goes on if and only if the status of the test
      does not end it. Anywhere else: the loop is left either way, with the status of its last body if the test
      ends it and with that of the jump if not. */
  lemma JumpInTest(c: Command, sh: Shell, status: int, fuel: nat)
    requires (c.While? || c.Until?) && sh.level > 0
    requires Exec(c.test, sh, fuel).Some? && !Idle(Exec(c.test, sh, fuel).value.sh)
    ensures var t := Exec(c.test, sh, fuel).value;
      var out := Shell(t.sh.w, t.sh.last, Less(t.sh.breaking), Less(t.sh.continuing), sh.level - 1);
      WhileLoop(c, sh, status, fuel) ==
        if Ends(c, t.status) then Some(Ran(out, status))
        else if t.sh.breaking > 0 then Some(Ran(out.(continuing := t.sh.continuing), t.sh.last))
        else if t.sh.continuing > 1 then Some(Ran(out, t.sh.last))
        else if fuel == 0 then None
        else WhileLoop(c, t.sh.(continuing := 0), t.sh.last, fuel - 1)
  {
    hide Exec;
    NextAgrees(c.action, Exec(c.test, sh, fuel).value.sh, fuel);
  }

  lemma {:induction false} RepeatAgrees(c: Command, sh: Shell, status: int, fuel: nat)
    requires (c.While? || c.Until?) && Idle(sh) && sh.level > 0
    ensures Agree(WhileLoop(c, sh, status, fuel), Repeat(c, sh.w, sh.last, status, sh.level - 1, fuel), sh.level - 1)
    decreases fuel, c, 0, 0
  {
    hide Exec, Means, Bounded, WhileLoop, Repeat;
    CountersAgree(c.test, sh, fuel);
    var t := Exec(c.test, sh, fuel);
    if t.Some? && !Idle(t.value.sh) {
      if t.value.sh.breaking == 0 && t.value.sh.continuing == 1 && fuel > 0 {
        RepeatAgrees(c, t.value.sh.(continuing := 0), t.value.sh.last, fuel - 1);
      }
      JumpAgrees(c, sh, status, fuel);
    } else {
      if t.Some? {
        CountersAgree(c.action, t.value.sh, fuel);
        var r := Exec(c.action, t.value.sh, fuel);
        if r.Some? && !After(r.value.sh).leave && Idle(After(r.value.sh).sh) && fuel > 0 {
          RepeatAgrees(c, After(r.value.sh).sh, r.value.status, fuel - 1);
        }
      }
      BodyAgrees(c, sh, status, fuel);
    }
  }

  /** The test jumps. */
  lemma JumpAgrees(c: Command, sh: Shell, status: int, fuel: nat)
    requires (c.While? || c.Until?) && Idle(sh) && sh.level > 0
    requires Agree(Exec(c.test, sh, fuel), Means(c.test, sh.w, sh.last, sh.level, fuel), sh.level)
    requires Exec(c.test, sh, fuel).Some? && !Idle(Exec(c.test, sh, fuel).value.sh)
    requires var t := Exec(c.test, sh, fuel).value.sh;
      t.breaking == 0 && t.continuing == 1 && fuel > 0 ==>
        Agree(WhileLoop(c, t.(continuing := 0), t.last, fuel - 1),
              Repeat(c, t.w, t.last, t.last, sh.level - 1, fuel - 1), sh.level - 1)
    ensures Agree(WhileLoop(c, sh, status, fuel), Repeat(c, sh.w, sh.last, status, sh.level - 1, fuel), sh.level - 1)
  {
    hide Exec, Means, Bounded, WhileLoop;
    JumpInTest(c, sh, status, fuel);
  }

  /** The test does not jump. */
  lemma BodyAgrees(c: Command, sh: Shell, status: int, fuel: nat)
    requires (c.While? || c.Until?) && Idle(sh) && sh.level > 0
    requires Agree(Exec(c.test, sh, fuel), Means(c.test, sh.w, sh.last, sh.level, fuel), sh.level)
    requires var t := Exec(c.test, sh, fuel);
      t.Some? ==>
        && Idle(t.value.sh)
        && Agree(Exec(c.action, t.value.sh, fuel),
                 Means(c.action, t.value.sh.w, t.value.sh.last, sh.level, fuel), sh.level)
        && var r := Exec(c.action, t.value.sh, fuel);
           r.Some? && !After(r.value.sh).leave && Idle(After(r.value.sh).sh) && fuel > 0 ==>
             Agree(WhileLoop(c, After(r.value.sh).sh, r.value.status, fuel - 1),
                   Repeat(c, r.value.sh.w, r.value.sh.last, r.value.status, sh.level - 1, fuel - 1), sh.level - 1)
    ensures Agree(WhileLoop(c, sh, status, fuel), Repeat(c, sh.w, sh.last, status, sh.level - 1, fuel), sh.level - 1)
  {
    hide Exec, Means, Bounded;
  }

  // ---------------------------------------------------------------- tests that jump for ever

  /** What `until continue` and `while ! continue` are to mean has no end; what they do has: the status of their
      tests ends them. */
  lemma ContinueEnds(c: Command, sh: Shell, fuel: nat)
    requires Idle(sh) && ((c.Until? && c.test == Continue(1)) || (c.While? && c.test == Not(Continue(1))))
    ensures Means(c, sh.w, sh.last, sh.level, fuel) == Meant(None, true)
    ensures var last := if c.Until? then EXECUTION_SUCCESS else EXECUTION_FAILURE;
      Switch(c, sh, fuel) == Some(Ran(sh.(last := last), EXECUTION_SUCCESS))
  {
    hide WhileLoop, Repeat;
    var in' := sh.(level := sh.level + 1);
    var last := if c.Until? then EXECUTION_SUCCESS else EXECUTION_FAILURE;
    ContinueRuns(c.test, in', fuel);
    assert Exec(c.test, in', fuel) == Some(Ran(in'.(continuing := 1, last := last), last));
    JumpInTest(c, in', EXECUTION_SUCCESS, fuel);
    ContinueMeans(c, sh.w, sh.last, EXECUTION_SUCCESS, sh.level, fuel);
  }

  lemma ContinueRuns(test: Command, sh: Shell, fuel: nat)
    requires Idle(sh) && sh.level > 0 && (test == Continue(1) || test == Not(Continue(1)))
    ensures var last := if test.Not? then EXECUTION_FAILURE else EXECUTION_SUCCESS;
      Exec(test, sh, fuel) == Some(Ran(sh.(continuing := 1, last := last), last))
  {
    var jump := sh.(continuing := 1, last := EXECUTION_SUCCESS);
    assert Switch(Continue(1), sh, fuel) == Some(Ran(sh.(continuing := 1), EXECUTION_SUCCESS));
    assert Exec(Continue(1), sh, fuel) == Some(Ran(jump, EXECUTION_SUCCESS));
    if test.Not? {
      assert Switch(test, sh, fuel) == Exec(Continue(1), sh, fuel);
    }
  }

  lemma {:induction false} ContinueMeans(c: Command, w: World, last: int, status: int, level: nat, fuel: nat)
    requires (c.Until? && c.test == Continue(1)) || (c.While? && c.test == Not(Continue(1)))
    ensures Repeat(c, w, last, status, level, fuel) == Meant(None, true)
    decreases fuel
  {
    var s := if c.Until? then EXECUTION_SUCCESS else EXECUTION_FAILURE;
    assert Parts(Continue(1), w, last, level + 1, fuel) == Plainly(Done(w, last, EXECUTION_SUCCESS, Restart(1)));
    assert Means(Continue(1), w, last, level + 1, fuel)
      == Plainly(Done(w, EXECUTION_SUCCESS, EXECUTION_SUCCESS, Restart(1)));
    if c.While? {
      assert Parts(c.test, w, last, level + 1, fuel) == Means(Continue(1), w, last, level + 1, fuel);
    }
    assert Means(c.test, w, last, level + 1, fuel) == Plainly(Done(w, s, s, Restart(1)));
    if fuel > 0 {
      ContinueMeans(c, w, s, s, level, fuel - 1);
    }
  }

  // ---------------------------------------------------------------- tests without jumps

  predicate JumpFree(c: Command) {
    match c
    case Simple(_) => true
    case Break(_) => false
    case Continue(_) => false
    case Seq(a, b) => JumpFree(a) && JumpFree(b)
    case AndAnd(a, b) => JumpFree(a) && JumpFree(b)
    case OrOr(a, b) => JumpFree(a) && JumpFree(b)
    case If(test, yes, no) => JumpFree(test) && JumpFree(yes) && (no.Some? ==> JumpFree(no.value))
    case For(_, _, action) => JumpFree(action)
    case While(test, action) => JumpFree(test) && JumpFree(action)
    case Until(test, action) => JumpFree(test) && JumpFree(action)
    case Group(inner) => JumpFree(inner)
    case Not(inner) => JumpFree(inner)
  }

  /** No loop has a jump in its test. */
  predicate PlainTests(c: Command) {
    match c
    case Simple(_) => true
    case Break(_) => true
    case Continue(_) => true
    case Seq(a, b) => PlainTests(a) && PlainTests(b)
    case AndAnd(a, b) => PlainTests(a) && PlainTests(b)
    case OrOr(a, b) => PlainTests(a) && PlainTests(b)
    case If(test, yes, no) => PlainTests(test) && PlainTests(yes) && (no.Some? ==> PlainTests(no.value))
    case For(_, _, action) => PlainTests(action)
    case While(test, action) => JumpFree(test) && PlainTests(action)
    case Until(test, action) => JumpFree(test) && PlainTests(action)
    case Group(inner) => PlainTests(inner)
    case Not(inner) => PlainTests(inner)
  }

  /** Not overridden, and no jump comes out if there is none inside. */
  predicate Tame(c: Command, m: Meant) {
    !m.overridden && (JumpFree(c) && m.done.Some? ==> m.done.value.outcome == Normal)
  }

  lemma {:induction false} FreeIsPlain(c: Command)
    requires JumpFree(c)
    ensures PlainTests(c)
  {
    match c
    case Simple(_) =>
    case Break(_) =>
    case Continue(_) =>
    case Seq(a, b) => FreeIsPlain(a); FreeIsPlain(b);
    case AndAnd(a, b) => FreeIsPlain(a); FreeIsPlain(b);
    case OrOr(a, b) => FreeIsPlain(a); FreeIsPlain(b);
    case If(test, yes, no) =>
      FreeIsPlain(test);
      FreeIsPlain(yes);
      if no.Some? {
        FreeIsPlain(no.value);
      }
    case For(_, _, action) => FreeIsPlain(action);
    case While(_, action) => FreeIsPlain(action);
    case Until(_, action) => FreeIsPlain(action);
    case Group(inner) => FreeIsPlain(inner);
    case Not(inner) => FreeIsPlain(inner);
  }

  lemma {:induction false} MeansTame(c: Command, w: World, last: int, level: nat, fuel: nat)
    requires PlainTests(c)
    ensures Tame(c, Means(c, w, last, level, fuel))
    decreases fuel, c, 2, 0
  {
    hide Parts;
    PartsTame(c, w, last, level, fuel);
  }

  lemma {:induction false} PartsTame(c: Command, w: World, last: int, level: nat, fuel: nat)
    requires PlainTests(c)
    ensures Tame(c, Parts(c, w, last, level, fuel))
    decreases fuel, c, 1, 0
  {
    hide Means, Each, Repeat, Legal;
    if c.Seq? || c.AndAnd? || c.OrOr? {
      MeansTame(c.first, w, last, level, fuel);
      var m := Means(c.first, w, last, level, fuel);
      if m.done.Some? {
        MeansTame(c.second, m.done.value.w, m.done.value.last, level, fuel);
      }
    } else if c.If? {
      MeansTame(c.test, w, last, level, fuel);
      var m := Means(c.test, w, last, level, fuel);
      if m.done.Some? {
        MeansTame(c.yes, m.done.value.w, m.done.value.last, level, fuel);
        if c.no.Some? {
          MeansTame(c.no.value, m.done.value.w, m.done.value.last, level, fuel);
        }
      }
    } else if c.For? {
      if Legal(c.name) {
        var (w', list) := c.words(w);
        EachTame(c, list, w', last, EXECUTION_SUCCESS, level, fuel);
      }
    } else if c.While? || c.Until? {
      RepeatTame(c, w, last, EXECUTION_SUCCESS, level, fuel);
    } else if c.Group? || c.Not? {
      MeansTame(c.inner, w, last, level, fuel);
    }
  }

  lemma {:induction false} EachTame(
    c: Command, words: seq<string>, w: World, last: int, status: int, level: nat, fuel: nat)
    requires c.For? && PlainTests(c)
    ensures Tame(c, Each(c, words, w, last, status, level, fuel))
    decreases fuel, c, 0, |words|
  {
    hide Means;
    if words != [] && Bind(w, c.name, words[0]).Some? {
      var w' := Bind(w, c.name, words[0]).value;
      MeansTame(c.action, w', last, level + 1, fuel);
      var m := Means(c.action, w', last, level + 1, fuel);
      if m.done.Some? && Rest(m.done.value.outcome) == None {
        EachTame(c, words[1..], m.done.value.w, m.done.value.last, m.done.value.status, level, fuel);
      }
    }
  }

  lemma {:induction false} RepeatTame(c: Command, w: World, last: int, status: int, level: nat, fuel: nat)
    requires (c.While? || c.Until?) && PlainTests(c)
    ensures Tame(c, Repeat(c, w, last, status, level, fuel))
    decreases fuel, c, 0, 0
  {
    hide Means;
    FreeIsPlain(c.test);
    MeansTame(c.test, w, last, level + 1, fuel);
    var m := Means(c.test, w, last, level + 1, fuel);
    if m.done.Some? && !Ends(c, m.done.value.status) {
      var t := m.done.value;
      MeansTame(c.action, t.w, t.last, level + 1, fuel);
      var n := Means(c.action, t.w, t.last, level + 1, fuel);
      if n.done.Some? && Rest(n.done.value.outcome) == None && fuel > 0 {
        RepeatTame(c, n.done.value.w, n.done.value.last, n.done.value.status, level, fuel - 1);
      }
    }
  }

  /** A command that has no jump in a test does just what is meant. */
  lemma PlainTestsAgree(c: Command, sh: Shell, fuel: nat)
    requires Idle(sh) && PlainTests(c)
    ensures !Means(c, sh.w, sh.last, sh.level, fuel).overridden
    ensures Same(Exec(c, sh, fuel), Means(c, sh.w, sh.last, sh.level, fuel).done, sh.level)
  {
    hide Exec, Means;
    MeansTame(c, sh.w, sh.last, sh.level, fuel);
    CountersAgree(c, sh, fuel);
  }

  // ---------------------------------------------------------------- fuel

  /** Fuel only decides whether there is a result, not what it is. */
  lemma {:induction false} MoreFuel(c: Command, sh: Shell, fuel: nat, more: nat)
    requires fuel <= more && Exec(c, sh, fuel).Some?
    ensures Exec(c, sh, more) == Exec(c, sh, fuel)
    decreases fuel, c, 2, 0
  {
    hide Switch;
    if Idle(sh) {
      MoreFuelParts(c, sh, fuel, more);
    }
  }

  lemma {:induction false} MoreFuelParts(c: Command, sh: Shell, fuel: nat, more: nat)
    requires fuel <= more && Switch(c, sh, fuel).Some?
    ensures Switch(c, sh, more) == Switch(c, sh, fuel)
    decreases fuel, c, 1, 0
  {
    hide Exec, ForLoop, WhileLoop;
    if c.Seq? || c.AndAnd? || c.OrOr? {
      MoreFuel(c.first, sh, fuel, more);
      var r := Exec(c.first, sh, fuel).value;
      if Exec(c.second, r.sh, fuel).Some? {
        MoreFuel(c.second, r.sh, fuel, more);
      }
    } else if c.If? {
      MoreFuel(c.test, sh, fuel, more);
      var r := Exec(c.test, sh, fuel).value;
      if Exec(c.yes, r.sh, fuel).Some? {
        MoreFuel(c.yes, r.sh, fuel, more);
      }
      if c.no.Some? && Exec(c.no.value, r.sh, fuel).Some? {
        MoreFuel(c.no.value, r.sh, fuel, more);
      }
    } else if c.For? {
      if Legal(c.name) {
        var (w, list) := c.words(sh.w);
        MoreFuelFor(c, list, sh.(w := w, level := sh.level + 1), EXECUTION_SUCCESS, fuel, more);
      }
    } else if c.While? || c.Until? {
      MoreFuelWhile(c, sh.(level := sh.level + 1), EXECUTION_SUCCESS, fuel, more);
    } else if c.Group? || c.Not? {
      MoreFuel(c.inner, sh, fuel, more);
    }
  }

  lemma {:induction false} MoreFuelFor(c: Command, words: seq<string>, sh: Shell, status: int, fuel: nat, more: nat)
    requires c.For? && sh.level > 0 && fuel <= more && ForLoop(c, words, sh, status, fuel).Some?
    ensures ForLoop(c, words, sh, status, more) == ForLoop(c, words, sh, status, fuel)
    decreases fuel, c, 0, |words|
  {
    hide Exec;
    if words != [] && Bind(sh.w, c.name, words[0]).Some? {
      var in' := sh.(w := Bind(sh.w, c.name, words[0]).value);
      MoreFuel(c.action, in', fuel, more);
      var r := Exec(c.action, in', fuel).value;
      if !After(r.sh).leave {
        MoreFuelFor(c, words[1..], After(r.sh).sh, r.status, fuel, more);
      }
    }
  }

  lemma {:induction false} MoreFuelWhile(c: Command, sh: Shell, status: int, fuel: nat, more: nat)
    requires (c.While? || c.Until?) && sh.level > 0 && fuel <= more && WhileLoop(c, sh, status, fuel).Some?
    ensures WhileLoop(c, sh, status, more) == WhileLoop(c, sh, status, fuel)
    decreases fuel, c, 0, 0
  {
    hide Exec;
    MoreFuel(c.test, sh, fuel, more);
    var t := Exec(c.test, sh, fuel).value;
    if !Ends(c, t.status) {
      MoreFuel(c.action, t.sh, fuel, more);
      var r := Exec(c.action, t.sh, fuel).value;
      if !After(r.sh).leave {
        MoreFuelWhile(c, After(r.sh).sh, r.status, fuel - 1, more - 1);
      }
    }
  }
}
