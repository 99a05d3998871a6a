/** The functions of execute_cmd.c over the shell's global variables. */
module Interpreter {
  import opened Wrappers
  import opened LoopControl

  class Executor {
    var world: World
    var lastCommandExitValue: int
    var breaking: nat
    var continuing: nat
    var loopLevel: nat

    constructor (world: World)
      ensures View() == Shell(world, EXECUTION_SUCCESS, 0, 0, 0)
    {
      this.world, lastCommandExitValue, breaking, continuing, loopLevel := world, EXECUTION_SUCCESS, 0, 0, 0;
    }

    function View(): Shell
      reads this
    {
      Shell(world, lastCommandExitValue, breaking, continuing, loopLevel)
    }

    /** The method ended as the function did. */
    ghost predicate Agrees(r: Option<int>, x: Option<Ran>)
      reads this
    {
      if r == None || x == None then r == None && x == None
      else View() == x.value.sh && r.value == x.value.status
    }

    method BreakOrContinue(n: int, restart: bool) returns (status: int)
      modifies this`breaking, this`continuing
      ensures Ran(View(), status) == if restart then ContinueBuiltin(old(View()), n) else BreakBuiltin(old(View()), n)
    {
      if loopLevel == 0 {
        return EXECUTION_SUCCESS;
      }
      if n <= 0 {
        breaking := loopLevel;
        return EXECUTION_FAILURE;
      }
      var k := n;
      if k > loopLevel {
        k := loopLevel;
      }
      if restart {
        continuing := k;
      } else {
        breaking := k;
      }
      status := EXECUTION_SUCCESS;
    }

    method ExecuteCommandInternal(c: Command, fuel: nat) returns (r: Option<int>)
      modifies this
      ensures Agrees(r, Exec(c, old(View()), fuel))
      decreases fuel, c, 2, 0
    {
      hide Switch;
      if breaking > 0 || continuing > 0 {
        return Some(lastCommandExitValue);
      }
      r := Dispatch(c, fuel);
      if r == None {
        return;
      }
      var execResult := r.value;
      if c.Not? {
        execResult := if execResult == EXECUTION_SUCCESS then EXECUTION_FAILURE else EXECUTION_SUCCESS;
      }
      lastCommandExitValue := execResult;
      r := Some(execResult);
    }

    method Dispatch(c: Command, fuel: nat) returns (r: Option<int>)
      modifies this
      ensures Agrees(r, Switch(c, old(View()), fuel))
      decreases fuel, c, 1, 0
    {
      hide Exec, ForLoop, WhileLoop;
      match c
      case Simple(run) =>
        var (w, status) := run(world);
        world := w;
        r := Some(status);
      case Break(n) =>
        var status := BreakOrContinue(n, false);
        r := Some(status);
      case Continue(n) =>
        var status := BreakOrContinue(n, true);
        r := Some(status);
      case Seq(first, second) =>
        r := ExecuteCommandInternal(first, fuel);
        if r != None {
          r := ExecuteCommandInternal(second, fuel);
        }
      case AndAnd(first, second) =>
        r := ExecuteCommandInternal(first, fuel);
        if r != None && r.value == EXECUTION_SUCCESS {
          r := ExecuteCommandInternal(second, fuel);
        }
      case OrOr(first, second) =>
        r := ExecuteCommandInternal(first, fuel);
        if r != None && r.value != EXECUTION_SUCCESS {
          r := ExecuteCommandInternal(second, fuel);
        }
      case If(test, yes, no) =>
        r := ExecuteCommandInternal(test, fuel);
        if r != None {
          if r.value == EXECUTION_SUCCESS {
            r := ExecuteCommandInternal(yes, fuel);
          } else if no.Some? {
            r := ExecuteCommandInternal(no.value, fuel);
          } else {
            r := Some(if breaking > 0 || continuing > 0 then lastCommandExitValue else EXECUTION_SUCCESS);
          }
        }
      case For(_, _, _) =>
        r := ExecuteForCommand(c, fuel);
      case While(_, _) =>
        r := ExecuteWhileOrUntil(c, fuel);
      case Until(_, _) =>
        r := ExecuteWhileOrUntil(c, fuel);
      case Group(inner) =>
        r := ExecuteCommandInternal(inner, fuel);
      case Not(inner) =>
        r := ExecuteCommandInternal(inner, fuel);
    }

    method ExecuteForCommand(c: Command, fuel: nat) returns (r: Option<int>)
      requires c.For?
      modifies this
      ensures Agrees(r, Switch(c, old(View()), fuel))
      decreases fuel, c, 0, 0
    {
      hide Exec, Legal;
      if !Legal(c.name) {
        return Some(EXECUTION_FAILURE);
      }
      loopLevel := loopLevel + 1;
      var (w, list) := c.words(world);
      world := w;
      ghost var total := ForLoop(c, list, View(), EXECUTION_SUCCESS, fuel);
      var retval := EXECUTION_SUCCESS;
      while list != []
        invariant loopLevel == old(loopLevel) + 1 && total == ForLoop(c, list, View(), retval, fuel)
        decreases |list|
      {
        var v := Bind(world, c.name, list[0]);
        if v == None {
          loopLevel := loopLevel - 1;
          return Some(EXECUTION_FAILURE);
        }
        world := v.value;
        ghost var sh := View();
        r := ExecuteCommandInternal(c.action, fuel);
        if r == None {
          return;
        }
        assert loopLevel == sh.level;
        retval := r.value;
        if breaking > 0 {
          breaking := breaking - 1;
          break;
        }
        if continuing > 0 {
          continuing := continuing - 1;
          if continuing > 0 {
            break;
          }
        }
        list := list[1..];
      }
      loopLevel := loopLevel - 1;
      r := Some(retval);
    }

    method ExecuteWhileOrUntil(c: Command, fuel: nat) returns (r: Option<int>)
      requires c.While? || c.Until?
      modifies this
      ensures Agrees(r, WhileLoop(c, old(View()).(level := old(View()).level + 1), EXECUTION_SUCCESS, fuel))
      decreases fuel, c, 0, 0
    {
      hide Exec, Bounded, Idle;
      loopLevel := loopLevel + 1;
      ghost var total := WhileLoop(c, View(), EXECUTION_SUCCESS, fuel);
      var bodyStatus := EXECUTION_SUCCESS;
      var left: nat := fuel;
      while true
        invariant left <= fuel && loopLevel == old(loopLevel) + 1
        invariant total == WhileLoop(c, View(), bodyStatus, left)
        decreases left
      {
        ghost var level := loopLevel;
        r := ExecuteCommandInternal(c.test, left);
        if r == None {
          return;
        }
        assert loopLevel == level;
        if (c.While? && r.value != EXECUTION_SUCCESS) || (c.Until? && r.value == EXECUTION_SUCCESS) {
          if breaking > 0 {
            breaking := breaking - 1;
          }
          if continuing > 0 {
            continuing := continuing - 1;
          }
          break;
        }
        r := ExecuteCommandInternal(c.action, left);
        if r == None {
          return;
        }
        assert loopLevel == level;
        bodyStatus := r.value;
        if breaking > 0 {
          breaking := breaking - 1;
          break;
        }
        if continuing > 0 {
          continuing := continuing - 1;
          if continuing > 0 {
            break;
          }
        }
        if left == 0 {
          return None;
        }
        left := left - 1;
      }
      loopLevel := loopLevel - 1;
      r := Some(bodyStatus);
    }
  }
}
