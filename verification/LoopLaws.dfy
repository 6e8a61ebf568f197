/** Laws of `break` and `continue` for every program: how far they can reach, when the counters are clear at
    top level and when not, and that the bound on rounds is only a bound.
 */
module LoopLaws {
  import opened LoopControl

  function Most(a: nat, b: nat): nat {
    if a < b then b else a
  }

  function Less(k: nat): nat {
    if k > 0 then k - 1 else 0
  }

  /** `c`, inside `level` loops, never ends normally: whatever stands behind it is not run. */
  predicate Leaves(c: Command, level: nat) {
    match c
    case Break(_) => level > 0
    case Continue(_) => level > 0
    case Not(d) => Leaves(d, level)
    case Seq(a, b) => Leaves(a, level) || Leaves(b, level)
    case And(a, _) => Leaves(a, level)
    case Or(a, _) => Leaves(a, level)
    case If(t, a, b) => Leaves(t, level) || (Leaves(a, level) && Leaves(b, level))
    case _ => false
  }

  lemma {:induction false} LeavesIsNotNormal<W>(e: Effects<W>, c: Command, w: W, last: int, level: nat, limit: nat)
    requires Leaves(c, level)
    ensures var r := Run(e, c, w, last, level, limit); r.Done? ==> r.outcome != Normal
    decreases c
  {
    if c.Seq? || c.And? || c.Or? {
      if Leaves(c.first, level) {
        LeavesIsNotNormal(e, c.first, w, last, level, limit);
      } else {
        var r := Run(e, c.first, w, last, level, limit);
        if r.Done? {
          LeavesIsNotNormal(e, c.second, r.world, r.last, level, limit);
        }
      }
    } else {
      match c
      case Not(d) => LeavesIsNotNormal(e, d, w, last, level, limit);
      case If(t, a, b) =>
        var r := Run(e, t, w, last, level, limit);
        if Leaves(t, level) {
          LeavesIsNotNormal(e, t, w, last, level, limit);
        } else if r.Done? {
          LeavesIsNotNormal(e, if r.status == 0 then a else b, r.world, r.last, level, limit);
        }
      case _ =>
    }
  }

  /** The most enclosing loops that a `continue` inside `c`, which stands inside `level` loops, can be about to
      continue when `c` ends, with success or with failure. */
  function Reach(c: Command, level: nat, success: bool): nat {
    match c
    case Continue(n) => if n > 0 && success then Least(n, level) else 0
    case Not(d) => Reach(d, level, !success)
    case Seq(a, b) => Most(Reach(a, level, success), if Leaves(a, level) then 0 else Reach(b, level, success))
    case And(a, b) => Most(Reach(a, level, success), if Leaves(a, level) then 0 else Reach(b, level, success))
    case Or(a, b) => Most(Reach(a, level, success), if Leaves(a, level) then 0 else Reach(b, level, success))
    case If(t, a, b) =>
      Most(Reach(t, level, success),
           if Leaves(t, level) then 0 else Most(Reach(a, level, success), Reach(b, level, success)))
    case For(_, _, a) => Less(Reach(a, level + 1, success))
    case Loop(until, t, a) =>
      Most(Reach(t, level + 1, until), Less(Most(Reach(t, level + 1, success), Reach(a, level + 1, success))))
    case _ => 0
  }

  /** No `continue` reaches, with the status that ends a loop, out of that loop's test as far as the outermost
      loop: the loop that ends passes it on undiminished, and there must be as many loops left outside. */
  predicate Tame(c: Command, level: nat) {
    match c
    case Not(d) => Tame(d, level)
    case Seq(a, b) => Tame(a, level) && (Leaves(a, level) || Tame(b, level))
    case And(a, b) => Tame(a, level) && (Leaves(a, level) || Tame(b, level))
    case Or(a, b) => Tame(a, level) && (Leaves(a, level) || Tame(b, level))
    case If(t, a, b) => Tame(t, level) && (Leaves(t, level) || (Tame(a, level) && Tame(b, level)))
    case For(_, _, a) => Tame(a, level + 1)
    case Loop(until, t, a) => Tame(t, level + 1) && Tame(a, level + 1) && Reach(t, level + 1, until) <= level
    case _ => true
  }

  /** A result of `c` that stays within `level` loops and continues no more of them than `c` can. */
  predicate Within<W>(r: Result<W>, c: Command, level: nat) {
    r.Done? ==>
      match r.outcome
      case Normal => true
      case Broken(k) => 0 < k <= level
      case Continued(k) => 0 < k <= level && k <= Reach(c, level, r.status == 0)
  }

  /** In a tame program no command is ever on its way out of more loops than surround it. */
  lemma {:induction false} UnwindingStaysWithin<W>(e: Effects<W>, c: Command, w: W, last: int, level: nat, limit: nat)
    requires Tame(c, level)
    ensures Within(Run(e, c, w, last, level, limit), c, level)
    decreases c, 1, 0
  {
    match c
    case Seq(_, _) => PairStaysWithin(e, c, w, last, level, limit);
    case And(_, _) => PairStaysWithin(e, c, w, last, level, limit);
    case Or(_, _) => PairStaysWithin(e, c, w, last, level, limit);
    case Not(d) => UnwindingStaysWithin(e, d, w, last, level, limit);
    case If(_, _, _) => IfStaysWithin(e, c, w, last, level, limit);
    case For(_, words, _) => ForStaysWithin(e, c, e.expand(words, w), w, last, 0, level, limit);
    case Loop(_, _, _) => LoopStaysWithin(e, c, w, last, 0, level, limit, limit);
    case _ =>
  }

  lemma {:induction false} PairStaysWithin<W>(e: Effects<W>, c: Command, w: W, last: int, level: nat, limit: nat)
    requires Tame(c, level) && (c.Seq? || c.And? || c.Or?)
    ensures Within(Run(e, c, w, last, level, limit), c, level)
    decreases c, 0, 0
  {
    hide Leaves;
    UnwindingStaysWithin(e, c.first, w, last, level, limit);
    var r := Run(e, c.first, w, last, level, limit);
    if Leaves(c.first, level) {
      LeavesIsNotNormal(e, c.first, w, last, level, limit);
    } else if r.Done? {
      UnwindingStaysWithin(e, c.second, r.world, r.last, level, limit);
    }
  }

  lemma {:induction false} IfStaysWithin<W>(e: Effects<W>, c: Command, w: W, last: int, level: nat, limit: nat)
    requires Tame(c, level) && c.If?
    ensures Within(Run(e, c, w, last, level, limit), c, level)
    decreases c, 0, 0
  {
    hide Leaves;
    match c
    case If(t, a, b) =>
      UnwindingStaysWithin(e, t, w, last, level, limit);
      var r := Run(e, t, w, last, level, limit);
      if Leaves(t, level) {
        LeavesIsNotNormal(e, t, w, last, level, limit);
      } else if r.Done? {
        UnwindingStaysWithin(e, if r.status == 0 then a else b, r.world, r.last, level, limit);
      }
  }

  lemma {:induction false} ForStaysWithin<W>(e: Effects<W>, c: Command, ws: seq<string>, w: W, last: int, status: int,
    level: nat, limit: nat)
    requires Tame(c, level) && c.For?
    ensures Within(RunFor(e, c, ws, w, last, status, level, limit), c, level)
    decreases c, 0, |ws|
  {
    if ws != [] {
      var w' := e.bind(c.identifier, ws[0], w);
      UnwindingStaysWithin(e, c.action, w', last, level + 1, limit);
      var r := Run(e, c.action, w', last, level + 1, limit);
      if r.Done? && Resumes(r.outcome) {
        ForStaysWithin(e, c, ws[1..], r.world, r.last, r.status, level, limit);
      }
    }
  }

  lemma {:induction false} LoopStaysWithin<W>(e: Effects<W>, c: Command, w: W, last: int, status: int, level: nat,
    left: nat, limit: nat)
    requires Tame(c, level) && c.Loop?
    ensures Within(RunLoop(e, c, w, last, status, level, left, limit), c, level)
    decreases c, 0, left
  {
    if left > 0 {
      UnwindingStaysWithin(e, c.test, w, last, level + 1, limit);
      var t := Run(e, c.test, w, last, level + 1, limit);
      if t.Done? {
        UnwindingStaysWithin(e, c.action, t.world, t.last, level + 1, limit);
        var r := if t.outcome == Normal then Run(e, c.action, t.world, t.last, level + 1, limit) else t;
        if r.Done? && Resumes(r.outcome) {
          LoopStaysWithin(e, c, r.world, r.last, r.status, level, left - 1, limit);
        }
      }
    }
  }

  lemma {:induction false} SeqRunsOn<W>(e: Effects<W>, c: Command, d: Command, w: W, last: int, level: nat, limit: nat)
    ensures var r := Run(e, c, w, last, level, limit);
      r.Done? && r.outcome == Normal ==>
        Run(e, Seq(c, d), w, last, level, limit) == Run(e, d, r.world, r.last, level, limit).Close()
  {
  }

  /** A tame program leaves both counters at zero at top level: whatever follows it runs. */
  lemma {:induction false} TopLevelIsClear<W>(e: Effects<W>, c: Command, w: W, last: int, limit: nat)
    requires Tame(c, 0)
    ensures var r := Run(e, c, w, last, 0, limit); r.Done? ==> r.outcome == Normal
    ensures forall d :: var r := Run(e, c, w, last, 0, limit);
      r.Done? ==> Run(e, Seq(c, d), w, last, 0, limit) == Run(e, d, r.world, r.last, 0, limit).Close()
  {
    hide Run, Tame, Reach;
    UnwindingStaysWithin(e, c, w, last, 0, limit);
    forall d
      ensures var r := Run(e, c, w, last, 0, limit);
        r.Done? ==> Run(e, Seq(c, d), w, last, 0, limit) == Run(e, d, r.world, r.last, 0, limit).Close()
    {
      SeqRunsOn(e, c, d, w, last, 0, limit);
    }
  }

  /** Whatever the loop: a test that ends on its way to continue a loop, and with the status that ends this one,
      passes the continuation on undiminished. */
  lemma {:induction false} EndingTestPassesOn<W>(e: Effects<W>, until: bool, test: Command, action: Command, w: W,
    last: int, level: nat, limit: nat)
    requires limit > 0
    ensures var t := Run(e, test, w, last, level + 1, limit);
      t.Done? && t.outcome.Continued? && (t.status == 0) == until ==>
        Run(e, Loop(until, test, action), w, last, level, limit) == Done(t.world, 0, 0, t.outcome)
  {
  }

  /** So any loop with such a test leaves the counter set at top level, and the command after it is skipped. */
  lemma {:induction false} EndingTestLeaks<W>(e: Effects<W>, until: bool, test: Command, action: Command, d: Command,
    w: W, last: int, limit: nat)
    requires limit > 0
    requires var t := Run(e, test, w, last, 1, limit);
      t.Done? && t.outcome.Continued? && (t.status == 0) == until
    ensures var t, c := Run(e, test, w, last, 1, limit), Loop(until, test, action);
      && !Tame(c, 0)
      && Run(e, c, w, last, 0, limit) == Done(t.world, 0, 0, t.outcome)
      && Run(e, Seq(c, d), w, last, 0, limit) == Done(t.world, 0, 0, t.outcome)
  {
    EndingTestPassesOn(e, until, test, action, w, last, 0, limit);
    if Tame(test, 1) {
      UnwindingStaysWithin(e, test, w, last, 1, limit);
    }
  }

  // ---------------------------------------------------------------- exactly when a counter is left set

  /** In the run of `c` some loop ends by a test that is about to continue more loops than surround that loop. */
  predicate Leaks<W>(e: Effects<W>, c: Command, w: W, last: int, level: nat, limit: nat)
    decreases c, 1, 0
  {
    match c
    case Not(d) => Leaks(e, d, w, last, level, limit)
    case Seq(a, b) =>
      var r := Run(e, a, w, last, level, limit);
      Leaks(e, a, w, last, level, limit) || (Ends(r) && Leaks(e, b, r.world, r.last, level, limit))
    case And(a, b) =>
      var r := Run(e, a, w, last, level, limit);
      Leaks(e, a, w, last, level, limit) || (Ends(r) && r.status == 0 && Leaks(e, b, r.world, r.last, level, limit))
    case Or(a, b) =>
      var r := Run(e, a, w, last, level, limit);
      Leaks(e, a, w, last, level, limit) || (Ends(r) && r.status != 0 && Leaks(e, b, r.world, r.last, level, limit))
    case If(t, a, b) =>
      var r := Run(e, t, w, last, level, limit);
      || Leaks(e, t, w, last, level, limit)
      || (Ends(r) && if r.status == 0 then Leaks(e, a, r.world, r.last, level, limit)
                     else Leaks(e, b, r.world, r.last, level, limit))
    case For(_, words, _) => ForLeaks(e, c, e.expand(words, w), w, last, level, limit)
    case Loop(_, _, _) => LoopLeaks(e, c, w, last, level, limit, limit)
    case _ => false
  }

  predicate Ends<W>(r: Result<W>) {
    r.Done? && r.outcome == Normal
  }

  predicate ForLeaks<W>(e: Effects<W>, c: Command, ws: seq<string>, w: W, last: int, level: nat, limit: nat)
    requires c.For?
    decreases c, 0, |ws|
  {
    && ws != []
    && var w' := e.bind(c.identifier, ws[0], w);
       var r := Run(e, c.action, w', last, level + 1, limit);
       || Leaks(e, c.action, w', last, level + 1, limit)
       || (r.Done? && Resumes(r.outcome) && ForLeaks(e, c, ws[1..], r.world, r.last, level, limit))
  }

  predicate LoopLeaks<W>(e: Effects<W>, c: Command, w: W, last: int, level: nat, left: nat, limit: nat)
    requires c.Loop?
    decreases c, 0, left
  {
    && left > 0
    && var t := Run(e, c.test, w, last, level + 1, limit);
       || Leaks(e, c.test, w, last, level + 1, limit)
       || (t.Done? &&
           if (t.status == 0) == c.until then t.outcome.Continued? && t.outcome.k > level
           else
             || (t.outcome == Normal && Leaks(e, c.action, t.world, t.last, level + 1, limit))
             || (var r := if t.outcome == Normal then Run(e, c.action, t.world, t.last, level + 1, limit) else t;
                 r.Done? && Resumes(r.outcome) && LoopLeaks(e, c, r.world, r.last, level, left - 1, limit)))
  }

  /** A result on its way out of more loops than there are. */
  predicate Beyond<W>(r: Result<W>, level: nat) {
    r.Done? && r.outcome != Normal && r.outcome.k > level
  }

  /** Every command, at any depth, that finishes: it is on its way out of more loops than surround it exactly when
      its run leaks. */
  lemma {:induction false} BeyondIffLeaks<W>(e: Effects<W>, c: Command, w: W, last: int, level: nat, limit: nat)
    requires Run(e, c, w, last, level, limit).Done?
    ensures Beyond(Run(e, c, w, last, level, limit), level) <==> Leaks(e, c, w, last, level, limit)
    decreases c, 1, 0
  {
    if c.Seq? || c.And? || c.Or? {
      BeyondIffLeaks(e, c.first, w, last, level, limit);
      var r := Run(e, c.first, w, last, level, limit);
      if Ends(r) && (c.And? ==> r.status == 0) && (c.Or? ==> r.status != 0) {
        BeyondIffLeaks(e, c.second, r.world, r.last, level, limit);
      }
    } else {
      match c
      case Not(d) => BeyondIffLeaks(e, d, w, last, level, limit);
      case If(t, a, b) =>
        BeyondIffLeaks(e, t, w, last, level, limit);
        var r := Run(e, t, w, last, level, limit);
        if Ends(r) {
          BeyondIffLeaks(e, if r.status == 0 then a else b, r.world, r.last, level, limit);
        }
      case For(_, words, _) => ForBeyond(e, c, e.expand(words, w), w, last, 0, level, limit);
      case Loop(_, _, _) => LoopBeyond(e, c, w, last, 0, level, limit, limit);
      case _ =>
    }
  }

  lemma {:induction false} ForBeyond<W>(e: Effects<W>, c: Command, ws: seq<string>, w: W, last: int, status: int,
    level: nat, limit: nat)
    requires c.For? && RunFor(e, c, ws, w, last, status, level, limit).Done?
    ensures Beyond(RunFor(e, c, ws, w, last, status, level, limit), level) <==>
            ForLeaks(e, c, ws, w, last, level, limit)
    decreases c, 0, |ws|
  {
    if ws != [] {
      var w' := e.bind(c.identifier, ws[0], w);
      BeyondIffLeaks(e, c.action, w', last, level + 1, limit);
      var r := Run(e, c.action, w', last, level + 1, limit);
      if Resumes(r.outcome) {
        ForBeyond(e, c, ws[1..], r.world, r.last, r.status, level, limit);
      }
    }
  }

  lemma {:induction false} LoopBeyond<W>(e: Effects<W>, c: Command, w: W, last: int, status: int, level: nat,
    left: nat, limit: nat)
    requires c.Loop? && RunLoop(e, c, w, last, status, level, left, limit).Done?
    ensures Beyond(RunLoop(e, c, w, last, status, level, left, limit), level) <==>
            LoopLeaks(e, c, w, last, level, left, limit)
    decreases c, 0, left
  {
    BeyondIffLeaks(e, c.test, w, last, level + 1, limit);
    var t := Run(e, c.test, w, last, level + 1, limit);
    if (t.status == 0) != c.until {
      if t.outcome == Normal {
        BeyondIffLeaks(e, c.action, t.world, t.last, level + 1, limit);
      }
      var r := if t.outcome == Normal then Run(e, c.action, t.world, t.last, level + 1, limit) else t;
      if Resumes(r.outcome) {
        LoopBeyond(e, c, r.world, r.last, r.status, level, left - 1, limit);
      }
    }
  }

  /** So a program leaves both counters at zero exactly when its run does not leak; a tame one never does. */
  lemma {:induction false} TopLevelIsClearIff<W>(e: Effects<W>, c: Command, w: W, last: int, limit: nat)
    requires Run(e, c, w, last, 0, limit).Done?
    ensures Run(e, c, w, last, 0, limit).outcome == Normal <==> !Leaks(e, c, w, last, 0, limit)
    ensures Tame(c, 0) ==> !Leaks(e, c, w, last, 0, limit)
  {
    hide Run, Tame, Reach, Leaks;
    BeyondIffLeaks(e, c, w, last, 0, limit);
    if Tame(c, 0) {
      UnwindingStaysWithin(e, c, w, last, 0, limit);
    }
  }

  /** A surrounding loop leaves room for one level of continuation and not for two, and a `continue` that is never
      reached does no harm. */
  lemma LoopAroundIsTame(x: string, words: int, body: Command)
    requires Tame(body, 2)
    ensures Tame(For(x, words, Loop(true, Continue(1), body)), 0)
    ensures !Tame(For(x, words, Loop(true, Continue(2), body)), 0)
    ensures Tame(body, 1) ==> Tame(Loop(true, Seq(Break(1), Continue(1)), body), 0)
  {
  }

  /** `until continue` and `while ! continue` are such loops. */
  lemma {:induction false} ContinueInTestLeaks<W>(e: Effects<W>, body: Command, d: Command, w: W, last: int, limit: nat)
    requires limit > 0
    ensures Run(e, Seq(Loop(true, Continue(1), body), d), w, last, 0, limit) == Done(w, 0, 0, Continued(1))
    ensures Run(e, Seq(Loop(false, Not(Continue(1)), body), d), w, last, 0, limit) == Done(w, 0, 0, Continued(1))
  {
    assert Run(e, Continue(1), w, last, 1, limit) == Done(w, 0, 0, Continued(1));
    assert Run(e, Not(Continue(1)), w, last, 1, limit) == Done(w, 1, 1, Continued(1));
    EndingTestLeaks(e, true, Continue(1), body, d, w, last, limit);
    EndingTestLeaks(e, false, Not(Continue(1)), body, d, w, last, limit);
  }

  /** In a `while` test the same `continue` resumes the loop: it never ends. */
  lemma {:induction false} ContinueInWhileTestResumes<W>(e: Effects<W>, body: Command, w: W, last: int, status: int,
    left: nat, limit: nat)
    ensures RunLoop(e, Loop(false, Continue(1), body), w, last, status, 0, left, limit) == Unfinished
    decreases left
  {
    if left > 0 {
      assert Run(e, Continue(1), w, last, 1, limit) == Done(w, 0, 0, Continued(1));
      ContinueInWhileTestResumes(e, body, w, 0, 0, left - 1, limit);
    }
  }

  /** A run that finishes within a bound finishes alike within any larger one. */
  lemma {:induction false} BoundIsOnlyABound<W>(e: Effects<W>, c: Command, w: W, last: int, level: nat, limit: nat,
    more: nat)
    requires limit <= more && Run(e, c, w, last, level, limit).Done?
    ensures Run(e, c, w, last, level, more) == Run(e, c, w, last, level, limit)
    decreases c, 1, 0
  {
    if c.Seq? || c.And? || c.Or? {
      BoundIsOnlyABound(e, c.first, w, last, level, limit, more);
      var r := Run(e, c.first, w, last, level, limit);
      if Run(e, c.second, r.world, r.last, level, limit).Done? {
        BoundIsOnlyABound(e, c.second, r.world, r.last, level, limit, more);
      }
    } else {
      match c
      case Not(d) => BoundIsOnlyABound(e, d, w, last, level, limit, more);
      case If(t, a, b) =>
        BoundIsOnlyABound(e, t, w, last, level, limit, more);
        var r := Run(e, t, w, last, level, limit);
        if r.outcome == Normal {
          BoundIsOnlyABound(e, if r.status == 0 then a else b, r.world, r.last, level, limit, more);
        }
      case For(_, words, _) => ForBound(e, c, e.expand(words, w), w, last, 0, level, limit, more);
      case Loop(_, _, _) => LoopBound(e, c, w, last, 0, level, limit, more, limit, more);
      case _ =>
    }
  }

  lemma {:induction false} ForBound<W>(e: Effects<W>, c: Command, ws: seq<string>, w: W, last: int, status: int,
    level: nat, limit: nat, more: nat)
    requires limit <= more && c.For? && RunFor(e, c, ws, w, last, status, level, limit).Done?
    ensures RunFor(e, c, ws, w, last, status, level, more) == RunFor(e, c, ws, w, last, status, level, limit)
    decreases c, 0, |ws|
  {
    if ws != [] {
      var w' := e.bind(c.identifier, ws[0], w);
      BoundIsOnlyABound(e, c.action, w', last, level + 1, limit, more);
      var r := Run(e, c.action, w', last, level + 1, limit);
      if Resumes(r.outcome) {
        ForBound(e, c, ws[1..], r.world, r.last, r.status, level, limit, more);
      }
    }
  }

  lemma {:induction false} LoopBound<W>(e: Effects<W>, c: Command, w: W, last: int, status: int, level: nat,
    left: nat, leftMore: nat, limit: nat, more: nat)
    requires limit <= more && left <= leftMore && c.Loop?
    requires RunLoop(e, c, w, last, status, level, left, limit).Done?
    ensures RunLoop(e, c, w, last, status, level, leftMore, more) == RunLoop(e, c, w, last, status, level, left, limit)
    decreases c, 0, left
  {
    BoundIsOnlyABound(e, c.test, w, last, level + 1, limit, more);
    var t := Run(e, c.test, w, last, level + 1, limit);
    if (t.status == 0) != c.until {
      if t.outcome == Normal {
        BoundIsOnlyABound(e, c.action, t.world, t.last, level + 1, limit, more);
      }
      var r := if t.outcome == Normal then Run(e, c.action, t.world, t.last, level + 1, limit) else t;
      if Resumes(r.outcome) {
        LoopBound(e, c, r.world, r.last, r.status, level, left - 1, leftMore - 1, limit, more);
      }
    }
  }

  /** A `for` loop whose first round is on its way out of more loops than this one is left on the way out of one
      loop fewer, with that round's effects and status. */
  lemma {:induction false} ForLeavesOne<W>(e: Effects<W>, x: string, words: int, action: Command, w: W, last: int,
    level: nat, limit: nat)
    requires e.expand(words, w) != []
    ensures var r := Run(e, action, e.bind(x, e.expand(words, w)[0], w), last, level + 1, limit);
      r.Done? && r.outcome != Normal && r.outcome.k > 1 ==>
        Run(e, For(x, words, action), w, last, level, limit) == Done(r.world, r.status, r.status, Leave(r.outcome))
  {
  }

  /** So is a `while` or `until` loop. */
  lemma {:induction false} LoopLeavesOne<W>(e: Effects<W>, until: bool, test: Command, action: Command, w: W,
    last: int, level: nat, limit: nat)
    requires limit > 0
    requires var t := Run(e, test, w, last, level + 1, limit);
      t.Done? && t.outcome == Normal && (t.status == 0) != until
    ensures var t := Run(e, test, w, last, level + 1, limit);
      var r := Run(e, action, t.world, t.last, level + 1, limit);
      r.Done? && r.outcome != Normal && r.outcome.k > 1 ==>
        Run(e, Loop(until, test, action), w, last, level, limit) == Done(r.world, r.status, r.status, Leave(r.outcome))
  {
  }

  /** What is left of a way out: the command that would take it from here. */
  function Onward(o: Outcome): Command
    requires o != Normal
  {
    if o.Broken? then Break(o.k - 1) else Continue(o.k - 1)
  }

  /** `break k+1` in a loop is `break` there and `break k` behind it, `continue k+1` is `break` there and
      `continue k` behind it: for every pair of actions that differ only in that, and every kind of loop. */
  lemma {:induction false} ManyLevelsAreOneAtATime<W>(e: Effects<W>, x: string, words: int, action: Command,
    short: Command, w: W, last: int, level: nat, limit: nat)
    requires e.expand(words, w) != []
    requires var w1 := e.bind(x, e.expand(words, w)[0], w);
      Differ(Run(e, action, w1, last, level + 1, limit), Run(e, short, w1, last, level + 1, limit), level)
    ensures var o := Run(e, action, e.bind(x, e.expand(words, w)[0], w), last, level + 1, limit).outcome;
      Run(e, For(x, words, action), w, last, level, limit)
        == Run(e, Seq(For(x, words, short), Onward(o)), w, last, level, limit)
  {
    ForLeavesOne(e, x, words, action, w, last, level, limit);
    var r := Run(e, short, e.bind(x, e.expand(words, w)[0], w), last, level + 1, limit);
    assert Run(e, For(x, words, short), w, last, level, limit) == Done(r.world, 0, 0, Normal);
  }

  /** Two results that differ only in how many loops are left: k + 1 of at most `level` + 1, or one. */
  predicate Differ<W(==)>(r: Result<W>, one: Result<W>, level: nat) {
    && r.Done? && r.outcome != Normal && 1 < r.outcome.k <= level + 1 && r.status == 0
    && one == r.(outcome := Broken(1))
  }

  lemma {:induction false} ManyLevelsInLoops<W>(e: Effects<W>, until: bool, test: Command, action: Command,
    short: Command, w: W, last: int, level: nat, limit: nat)
    requires limit > 0
    requires var t := Run(e, test, w, last, level + 1, limit);
      && t.Done? && t.outcome == Normal && (t.status == 0) != until
      && Differ(Run(e, action, t.world, t.last, level + 1, limit), Run(e, short, t.world, t.last, level + 1, limit),
                level)
    ensures var t := Run(e, test, w, last, level + 1, limit);
      var o := Run(e, action, t.world, t.last, level + 1, limit).outcome;
      Run(e, Loop(until, test, action), w, last, level, limit)
        == Run(e, Seq(Loop(until, test, short), Onward(o)), w, last, level, limit)
  {
    LoopLeavesOne(e, until, test, action, w, last, level, limit);
    var t := Run(e, test, w, last, level + 1, limit);
    var r := Run(e, short, t.world, t.last, level + 1, limit);
    assert Run(e, Loop(until, test, short), w, last, level, limit) == Done(r.world, 0, 0, Normal);
  }

  /** An action that does something and then leaves is such a pair. */
  lemma {:induction false} DoThenLeave<W>(e: Effects<W>, p: Command, k: nat, w: W, last: int, level: nat, limit: nat)
    requires 1 <= k <= level
    requires var r := Run(e, p, w, last, level + 1, limit); r.Done? && r.outcome == Normal
    ensures Differ(Run(e, Seq(p, Break(k + 1)), w, last, level + 1, limit),
                   Run(e, Seq(p, Break(1)), w, last, level + 1, limit), level)
    ensures Differ(Run(e, Seq(p, Continue(k + 1)), w, last, level + 1, limit),
                   Run(e, Seq(p, Break(1)), w, last, level + 1, limit), level)
  {
    var r := Run(e, p, w, last, level + 1, limit);
    assert Run(e, Break(1), r.world, r.last, level + 1, limit) == Done(r.world, 0, 0, Broken(1));
    assert Run(e, Break(k + 1), r.world, r.last, level + 1, limit) == Done(r.world, 0, 0, Broken(k + 1));
    assert Run(e, Continue(k + 1), r.world, r.last, level + 1, limit) == Done(r.world, 0, 0, Continued(k + 1));
  }
}
