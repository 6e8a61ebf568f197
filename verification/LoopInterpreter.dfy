/** The interpreter as the program runs it: `break` and `continue` only set counters, every command begins by
    looking at them, and each loop counts them down. Every method is proved to do what LoopControl says.
 */
module LoopInterpreter {
  import opened LoopControl

  /** The counters that stand for an outcome. */
  ghost predicate Counts(o: Outcome, breaking: nat, continuing: nat) {
    match o
    case Normal => breaking == 0 && continuing == 0
    case Broken(k) => breaking == k > 0 && continuing == 0
    case Continued(k) => breaking == 0 && continuing == k > 0
  }

  class Interpreter<!W> {
    const e: Effects<W>
    var world: W
    var breaking: nat
    var continuing: nat
    var loopLevel: nat
    var lastExit: int

    constructor (e: Effects<W>, world: W)
      ensures this.e == e && this.world == world && lastExit == 0
      ensures Free() && loopLevel == 0
    {
      this.e, this.world := e, world;
      breaking, continuing, loopLevel, lastExit := 0, 0, 0, 0;
    }

    ghost predicate Free()
      reads this
    {
      breaking == 0 && continuing == 0
    }

    /** The state and status a command leaves are those of `r`, and it is as many loops deep as before. */
    ghost predicate Leaves(r: Result<W>, ok: bool, status: int, level: nat)
      reads this
    {
      && ok == r.Done?
      && (ok ==> r == Done(world, lastExit, status, r.outcome) && Counts(r.outcome, breaking, continuing))
      && (ok ==> loopLevel == level)
    }

    method BreakBuiltin(n: int) returns (status: int)
      requires Free()
      modifies `breaking
      ensures var r := Run(e, Break(n), world, lastExit, loopLevel, 0);
        status == r.status && Counts(r.outcome, breaking, continuing)
    {
      if loopLevel == 0 {
        return 0;
      }
      if n <= 0 {
        breaking := loopLevel;
        return 1;
      }
      breaking := if n > loopLevel then loopLevel else n;
      return 0;
    }

    method ContinueBuiltin(n: int) returns (status: int)
      requires Free()
      modifies `breaking, `continuing
      ensures var r := Run(e, Continue(n), world, lastExit, loopLevel, 0);
        status == r.status && Counts(r.outcome, breaking, continuing)
    {
      if loopLevel == 0 {
        return 0;
      }
      if n <= 0 {
        breaking := loopLevel;
        return 1;
      }
      continuing := if n > loopLevel then loopLevel else n;
      return 0;
    }

    /** While counters are set, every command is skipped and the last exit status stands. */
    method ExecuteCommand(c: Command, limit: nat) returns (ok: bool, status: int)
      modifies this
      ensures old(!Free()) ==> ok && status == lastExit && unchanged(this)
      ensures old(Free()) ==>
        Leaves(Run(e, c, old(world), old(lastExit), old(loopLevel), limit), ok, status, old(loopLevel))
      decreases c, 1, 0
    {
      if breaking > 0 || continuing > 0 {
        return true, lastExit;
      }
      ok := true;
      match c {
        case Empty =>
          return true, 0;
        case Simple(name) =>
          var (w, s) := e.run(name, world);
          world, status := w, s;
        case Break(n) =>
          status := BreakBuiltin(n);
        case Continue(n) =>
          status := ContinueBuiltin(n);
        case Not(d) =>
          ok, status := ExecuteCommand(d, limit);
          status := if status == 0 then 1 else 0;
        case Seq(_, _) =>
          ok, status := ExecuteConnection(c, limit);
        case And(_, _) =>
          ok, status := ExecuteConnection(c, limit);
        case Or(_, _) =>
          ok, status := ExecuteConnection(c, limit);
        case If(_, _, _) =>
          ok, status := ExecuteIf(c, limit);
        case For(_, _, _) =>
          ok, status := ExecuteFor(c, limit);
        case Loop(_, _, _) =>
          ok, status := ExecuteWhileOrUntil(c, limit);
      }
      lastExit := status;
    }

    /** Before the common ending, which records the status. */
    ghost predicate Returns(r: Result<W>, ok: bool, status: int, level: nat)
      reads this
    {
      && ok == r.Done?
      && (ok ==> r == Done(world, status, status, r.outcome) && Counts(r.outcome, breaking, continuing))
      && (ok ==> loopLevel == level)
    }

    method ExecuteConnection(c: Command, limit: nat) returns (ok: bool, status: int)
      requires (c.Seq? || c.And? || c.Or?) && Free()
      modifies this
      ensures Returns(Run(e, c, old(world), old(lastExit), old(loopLevel), limit), ok, status, old(loopLevel))
      decreases c, 0, 0
    {
      ok, status := ExecuteCommand(c.first, limit);
      if !ok {
        return;
      }
      if c.Seq? || (c.And? && status == 0) || (c.Or? && status != 0) {
        ok, status := ExecuteCommand(c.second, limit);
      }
    }

    method ExecuteIf(c: Command, limit: nat) returns (ok: bool, status: int)
      requires c.If? && Free()
      modifies this
      ensures Returns(Run(e, c, old(world), old(lastExit), old(loopLevel), limit), ok, status, old(loopLevel))
      decreases c, 0, 0
    {
      ok, status := ExecuteCommand(c.test, limit);
      if !ok {
        return;
      }
      if status == 0 {
        ok, status := ExecuteCommand(c.trueCase, limit);
      } else {
        ok, status := ExecuteCommand(c.falseCase, limit);
      }
    }

    method ExecuteFor(c: Command, limit: nat) returns (ok: bool, status: int)
      requires c.For? && Free()
      modifies this
      ensures Returns(Run(e, c, old(world), old(lastExit), old(loopLevel), limit), ok, status, old(loopLevel))
      decreases c, 0, 0
    {
      loopLevel := loopLevel + 1;
      var list := e.expand(c.words, world);
      status := 0;
      ghost var goal := RunFor(e, c, list, world, lastExit, status, old(loopLevel), limit);
      while list != []
        invariant Free() && loopLevel == old(loopLevel) + 1
        invariant goal == RunFor(e, c, list, world, lastExit, status, old(loopLevel), limit)
        decreases |list|
      {
        world := e.bind(c.identifier, list[0], world);
        ok, status := ExecuteCommand(c.action, limit);
        if !ok {
          return;
        }
        list := list[1..];
        if breaking > 0 {
          breaking := breaking - 1;
          break;
        }
        if continuing > 0 {
          continuing := continuing - 1;
          if continuing > 0 {
            break;
          }
        }
      }
      loopLevel := loopLevel - 1;
      ok := true;
    }

    /** The source's loop is unbounded; here it gives up after `limit` rounds. */
    method ExecuteWhileOrUntil(c: Command, limit: nat) returns (ok: bool, status: int)
      requires c.Loop? && Free()
      modifies this
      ensures Returns(Run(e, c, old(world), old(lastExit), old(loopLevel), limit), ok, status, old(loopLevel))
      decreases c, 0, 0
    {
      status := 0;
      loopLevel := loopLevel + 1;
      ghost var goal := RunLoop(e, c, world, lastExit, status, old(loopLevel), limit, limit);
      var left := limit;
      while true
        invariant Free() && loopLevel == old(loopLevel) + 1
        invariant goal == RunLoop(e, c, world, lastExit, status, old(loopLevel), left, limit)
        decreases left
      {
        if left == 0 {
          return false, status;
        }
        left := left - 1;
        var test;
        ok, test := ExecuteCommand(c.test, limit);
        if !ok {
          return;
        }
        if !c.until && test != 0 {
          if breaking > 0 {
            breaking := breaking - 1;
          }
          break;
        }
        if c.until && test == 0 {
          if breaking > 0 {
            breaking := breaking - 1;
          }
          break;
        }
        ok, status := ExecuteCommand(c.action, limit);
        if !ok {
          return;
        }
        if breaking > 0 {
          breaking := breaking - 1;
          break;
        }
        if continuing > 0 {
          continuing := continuing - 1;
          if continuing > 0 {
            break;
          }
        }
      }
      loopLevel := loopLevel - 1;
      ok := true;
    }
  }
}
