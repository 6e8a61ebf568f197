/** Shell programs of lists, conditionals and loops, and what `break n` and `continue n` mean in them, without
    counters: running a command ends normally or is on its way out of a number of loops.
 */
module LoopControl {
  /** Simple commands and word lists are opaque names; `Effects` says what they do. */
  datatype Command =
    | Empty
    | Simple(name: int)
    | Break(n: int)
    | Continue(n: int)
    | Not(command: Command)
    | Seq(first: Command, second: Command)
    | And(first: Command, second: Command)
    | Or(first: Command, second: Command)
    | If(test: Command, trueCase: Command, falseCase: Command)
    | For(identifier: string, words: int, action: Command)
    | Loop(until: bool, test: Command, action: Command)

  /** What simple commands, word expansion and variable binding do to the rest of the shell. */
  datatype Effects<!W> = Effects(
    run: (int, W) -> (W, int),
    expand: (int, W) -> seq<string>,
    bind: (string, string, W) -> W)

  /** Still to be left: nothing, `k` loops, or `k - 1` loops with the next one resumed. */
  datatype Outcome = Normal | Broken(k: nat) | Continued(k: nat)

  datatype Result<W> =
    | Unfinished
    | Done(world: W, last: int, status: int, outcome: Outcome)
  {
    /** The caller's last exit status becomes the command's own. */
    function Close(): Result<W> {
      if Done? then this.(last := status) else this
    }

    function Invert(): Result<W> {
      if Done? then this.(status := if status == 0 then 1 else 0) else this
    }
  }

  function Least(a: int, b: int): int {
    if a < b then a else b
  }

  /** A loop left on the way out. */
  function Leave(o: Outcome): Outcome {
    match o
    case Broken(k) => if k > 1 then Broken(k - 1) else Normal
    case Continued(k) => if k > 1 then Continued(k - 1) else Normal
    case Normal => Normal
  }

  /** Whether the loop whose body or test ended so runs on. */
  predicate Resumes(o: Outcome) {
    o == Normal || (o.Continued? && o.k <= 1)
  }

  /** Running `c` inside `level` loops, each loop running at most `limit` times. */
  function Run<W>(e: Effects<W>, c: Command, w: W, last: int, level: nat, limit: nat): (r: Result<W>)
    ensures r.Done? && r.outcome != Normal ==> r.last == r.status && r.outcome.k > 0
    decreases c, 1, 0
  {
    match c
    case Empty => Done(w, last, 0, Normal)
    case Simple(name) =>
      var (w', status) := e.run(name, w);
      Done(w', status, status, Normal)
    case Break(n) =>
      if level == 0 then Done(w, 0, 0, Normal)
      else if n <= 0 then Done(w, 1, 1, Broken(level))
      else Done(w, 0, 0, Broken(Least(n, level)))
    case Continue(n) =>
      if level == 0 then Done(w, 0, 0, Normal)
      else if n <= 0 then Done(w, 1, 1, Broken(level))
      else Done(w, 0, 0, Continued(Least(n, level)))
    case Not(d) => Run(e, d, w, last, level, limit).Invert().Close()
    case Seq(a, b) =>
      var r := Run(e, a, w, last, level, limit);
      if r.Unfinished? || r.outcome != Normal then r.Close()
      else Run(e, b, r.world, r.last, level, limit).Close()
    case And(a, b) =>
      var r := Run(e, a, w, last, level, limit);
      if r.Unfinished? || r.outcome != Normal || r.status != 0 then r.Close()
      else Run(e, b, r.world, r.last, level, limit).Close()
    case Or(a, b) =>
      var r := Run(e, a, w, last, level, limit);
      if r.Unfinished? || r.outcome != Normal || r.status == 0 then r.Close()
      else Run(e, b, r.world, r.last, level, limit).Close()
    case If(t, a, b) =>
      var r := Run(e, t, w, last, level, limit);
      if r.Unfinished? || r.outcome != Normal then r.Close()
      else if r.status == 0 then Run(e, a, r.world, r.last, level, limit).Close()
      else Run(e, b, r.world, r.last, level, limit).Close()
    case For(_, words, _) => RunFor(e, c, e.expand(words, w), w, last, 0, level, limit).Close()
    case Loop(_, _, _) => RunLoop(e, c, w, last, 0, level, limit, limit).Close()
  }

  /** The remaining rounds of a `for` loop over `ws`; `status` is that of the last round. */
  function RunFor<W>(e: Effects<W>, c: Command, ws: seq<string>, w: W, last: int, status: int, level: nat, limit: nat)
    : (r: Result<W>)
    requires c.For?
    ensures r.Done? && r.outcome != Normal ==> r.last == r.status && r.outcome.k > 0
    decreases c, 0, |ws|
  {
    if ws == [] then Done(w, last, status, Normal)
    else
      var r := Run(e, c.action, e.bind(c.identifier, ws[0], w), last, level + 1, limit);
      if r.Unfinished? then r
      else if Resumes(r.outcome) then RunFor(e, c, ws[1..], r.world, r.last, r.status, level, limit)
      else r.(outcome := Leave(r.outcome))
  }

  /** The remaining rounds, at most `left`, of a `while` or `until` loop. A test whose status ends the loop
      ends it even while continuing, and then the continuation goes on outwards as it was. */
  function RunLoop<W>(e: Effects<W>, c: Command, w: W, last: int, status: int, level: nat, left: nat, limit: nat)
    : (r: Result<W>)
    requires c.Loop?
    ensures r.Done? && r.outcome != Normal ==> r.outcome.k > 0
    decreases c, 0, left
  {
    if left == 0 then Unfinished
    else
      var t := Run(e, c.test, w, last, level + 1, limit);
      if t.Unfinished? then t
      else if (t.status == 0) == c.until then
        Done(t.world, t.last, status, if t.outcome.Broken? then Leave(t.outcome) else t.outcome)
      else
        var r := if t.outcome == Normal then Run(e, c.action, t.world, t.last, level + 1, limit) else t;
        if r.Unfinished? then r
        else if Resumes(r.outcome) then RunLoop(e, c, r.world, r.last, r.status, level, left - 1, limit)
        else r.(outcome := Leave(r.outcome))
  }
}
