/** The asymmetric dining philosophers as a step system, for any number of philosophers from two up.

    Every lock and unlock is a step; a philosopher's id decides which chopstick it locks first. The stop
    flag is raised by a step of its own, at any time.
 */
module Philosophers {
  import opened Sums

  // ---------------------------------------------------------------- the table

  function LeftPhil(n: nat, id: nat): (r: nat)
    requires id < n
    ensures r < n && RightPhil(n, r) == id
  {
    if id == n - 1 then 0 else id + 1
  }

  function RightPhil(n: nat, id: nat): (r: nat)
    requires id < n
    ensures r < n
  {
    if id == 0 then n - 1 else id - 1
  }

  function LeftChop(n: nat, id: nat): (c: nat)
    requires id < n
    ensures c < n
  {
    id
  }

  function RightChop(n: nat, id: nat): (c: nat)
    requires id < n
    ensures c < n
  {
    if id == 0 then n - 1 else id - 1
  }

  /** A chopstick lies between exactly two philosophers: it is the left one of its namesake and the right
      one of that philosopher's left neighbour. */
  lemma ChopstickShared(n: nat, id: nat, other: nat)
    requires id < n && other < n && n >= 2
    ensures LeftChop(n, id) == RightChop(n, other) <==> other == LeftPhil(n, id)
    ensures LeftChop(n, id) == LeftChop(n, other) <==> other == id
    ensures RightChop(n, id) == RightChop(n, other) <==> other == id
  {
  }

  function FirstChop(n: nat, id: nat): (c: nat)
    requires id < n
    ensures c < n
  {
    if id % 2 == 0 then LeftChop(n, id) else RightChop(n, id)
  }

  function SecondChop(n: nat, id: nat): (c: nat)
    requires id < n
    ensures c < n
  {
    if id % 2 == 0 then RightChop(n, id) else LeftChop(n, id)
  }

  // ---------------------------------------------------------------- the steps

  /** What a philosopher does next. */
  datatype Pc =
    | Loop       // test the stop flag
    | Lock1      // lock the first chopstick
    | Lock2      // lock the second
    | Eat        // eat, then unlock the first
    | Unlock2    // unlock the second
    | Progress   // count the meal
    | Done       // returned

  datatype Owner = Nobody | Phil(id: nat)

  datatype State = State(stop: bool, pcs: seq<Pc>, chops: seq<Owner>, meals: seq<nat>)

  ghost predicate Init(n: nat, s: State) {
    && !s.stop
    && s.pcs == seq(n, i => Loop)
    && s.chops == seq(n, i => Nobody)
    && s.meals == seq(n, i => 0)
  }

  ghost predicate Shape(n: nat, s: State) {
    |s.pcs| == n && |s.chops| == n && |s.meals| == n
  }

  datatype Move = Raise | Step(id: nat)

  ghost predicate Enabled(n: nat, s: State, m: Move)
    requires Shape(n, s)
  {
    match m
    case Raise => !s.stop
    case Step(i) =>
      i < n &&
      match s.pcs[i]
      case Lock1 => s.chops[FirstChop(n, i)].Nobody?
      case Lock2 => s.chops[SecondChop(n, i)].Nobody?
      case Done => false
      case _ => true
  }

  ghost function Exec(n: nat, s: State, m: Move): (s': State)
    requires Shape(n, s) && Enabled(n, s, m)
    ensures Shape(n, s')
  {
    match m
    case Raise => s.(stop := true)
    case Step(i) =>
      match s.pcs[i]
      case Loop => s.(pcs := s.pcs[i := if s.stop then Done else Lock1])
      case Lock1 => s.(pcs := s.pcs[i := Lock2], chops := s.chops[FirstChop(n, i) := Phil(i)])
      case Lock2 => s.(pcs := s.pcs[i := Eat], chops := s.chops[SecondChop(n, i) := Phil(i)])
      case Eat => s.(pcs := s.pcs[i := Unlock2], chops := s.chops[FirstChop(n, i) := Nobody])
      case Unlock2 => s.(pcs := s.pcs[i := Progress], chops := s.chops[SecondChop(n, i) := Nobody])
      case Progress => s.(pcs := s.pcs[i := Loop], meals := s.meals[i := s.meals[i] + 1])
  }

  ghost predicate Runs(n: nat, s: State, moves: seq<Move>)
    requires Shape(n, s)
    decreases |moves|
  {
    moves == [] || (Enabled(n, s, moves[0]) && Runs(n, Exec(n, s, moves[0]), moves[1..]))
  }

  ghost function After(n: nat, s: State, moves: seq<Move>): (s': State)
    requires Shape(n, s) && Runs(n, s, moves)
    ensures Shape(n, s')
    decreases |moves|
  {
    if moves == [] then s else After(n, Exec(n, s, moves[0]), moves[1..])
  }

  // ---------------------------------------------------------------- the invariant

  ghost predicate Holds(n: nat, s: State, i: nat, c: nat)
    requires Shape(n, s) && i < n
  {
    || (s.pcs[i] in {Lock2, Eat} && c == FirstChop(n, i))
    || (s.pcs[i] in {Eat, Unlock2} && c == SecondChop(n, i))
  }

  /** The lock of every chopstick names exactly the philosopher whose program position holds it. */
  ghost predicate Inv(n: nat, s: State) {
    && Shape(n, s)
    && (forall c: nat | c < n && s.chops[c].Phil? :: s.chops[c].id < n)
    && (forall i: nat, c: nat | i < n && c < n :: Holds(n, s, i, c) <==> s.chops[c] == Phil(i))
  }

  lemma StepInv(n: nat, s: State, m: Move)
    requires n >= 2 && Inv(n, s) && Enabled(n, s, m)
    ensures Inv(n, Exec(n, s, m))
  {
    var s' := Exec(n, s, m);
    forall i: nat, c: nat | i < n && c < n ensures Holds(n, s', i, c) <==> s'.chops[c] == Phil(i) {
      assert Holds(n, s, i, c) <==> s.chops[c] == Phil(i);
      if m.Step? {
        assert Holds(n, s, m.id, c) <==> s.chops[c] == Phil(m.id);
      }
    }
  }

  lemma {:induction false} RunInv(n: nat, s: State, moves: seq<Move>)
    requires n >= 2 && Inv(n, s) && Runs(n, s, moves)
    ensures Inv(n, After(n, s, moves))
    decreases |moves|
  {
    if moves != [] {
      StepInv(n, s, moves[0]);
      RunInv(n, Exec(n, s, moves[0]), moves[1..]);
    }
  }

  ghost predicate Reaches(n: nat, s0: State, moves: seq<Move>, s: State) {
    Init(n, s0) && Runs(n, s0, moves) && After(n, s0, moves) == s
  }

  // ---------------------------------------------------------------- safety and progress

  ghost predicate Eating(s: State, i: nat)
    requires i < |s.pcs|
  {
    s.pcs[i].Eat?
  }

  /** Neighbours never eat together. */
  lemma NeighboursExcluded(n: nat, s0: State, moves: seq<Move>, s: State, i: nat)
    requires n >= 2 && Reaches(n, s0, moves, s) && i < n
    ensures Shape(n, s)
    ensures !(Eating(s, i) && Eating(s, LeftPhil(n, i)))
  {
    RunInv(n, s0, moves);
    assert Holds(n, s, i, LeftChop(n, i)) <==> s.chops[LeftChop(n, i)] == Phil(i);
    var j := LeftPhil(n, i);
    assert Holds(n, s, j, LeftChop(n, i)) <==> s.chops[LeftChop(n, i)] == Phil(j);
  }

  /** The chopstick a philosopher waits for, if it waits. */
  ghost function Wanted(n: nat, s: State, i: nat): (c: nat)
    requires Shape(n, s) && i < n && s.pcs[i] in {Lock1, Lock2}
    ensures c < n
  {
    if s.pcs[i].Lock1? then FirstChop(n, i) else SecondChop(n, i)
  }

  /** Follow the owner of a wanted chopstick: either the philosopher can move, or the owner is returned. */
  lemma Blocker(n: nat, s: State, i: nat) returns (j: nat)
    requires n >= 2 && Inv(n, s) && i < n && !s.pcs[i].Done?
    ensures j < n && !s.pcs[j].Done?
    ensures Enabled(n, s, Step(i)) ==> j == i
    ensures !Enabled(n, s, Step(i)) ==> s.pcs[i] in {Lock1, Lock2} && Holds(n, s, j, Wanted(n, s, i))
  {
    if Enabled(n, s, Step(i)) {
      j := i;
    } else {
      j := s.chops[Wanted(n, s, i)].id;
      assert Holds(n, s, j, Wanted(n, s, i));
    }
  }

  /** From any philosopher that has not returned, at most three steps along "waits for the owner of" lead
      to one that can move: no circle of waiting philosophers is ever closed. */
  lemma ChainEnds(n: nat, s: State, i: nat) returns (j: nat)
    requires n >= 2 && Inv(n, s) && i < n && !s.pcs[i].Done?
    ensures j < n && Enabled(n, s, Step(j))
  {
    hide Inv;
    var a := Blocker(n, s, i);
    var b := Blocker(n, s, a);
    var c := Blocker(n, s, b);
    j := c;
  }

  /** While any philosopher has not returned, some philosopher can move. */
  lemma DeadlockFree(n: nat, s0: State, moves: seq<Move>, s: State)
    requires n >= 2 && Reaches(n, s0, moves, s)
    ensures Shape(n, s)
    ensures (exists i: nat :: i < n && !s.pcs[i].Done?) ==> exists j: nat :: j < n && Enabled(n, s, Step(j))
  {
    RunInv(n, s0, moves);
    if i: nat :| i < n && !s.pcs[i].Done? {
      var j := ChainEnds(n, s, i);
    }
  }

  // ---------------------------------------------------------------- after the stop flag

  function Rank(pc: Pc): int {
    match pc
    case Lock1 => 6
    case Lock2 => 5
    case Eat => 4
    case Unlock2 => 3
    case Progress => 2
    case Loop => 1
    case Done => 0
  }

  lemma {:induction false} StoppedRunShrinks(n: nat, s: State, moves: seq<Move>)
    requires n >= 2 && Inv(n, s) && s.stop && Runs(n, s, moves)
    ensures var s' := After(n, s, moves); s'.stop && |moves| + Sum(Rank, s'.pcs) <= Sum(Rank, s.pcs)
    decreases |moves|
  {
    if moves != [] {
      var s1 := Exec(n, s, moves[0]);
      SumUpdate(Rank, s.pcs, moves[0].id, s1.pcs[moves[0].id]);
      StepInv(n, s, moves[0]);
      StoppedRunShrinks(n, s1, moves[1..]);
    }
  }

  /** Once the flag is up every continuation takes at most six steps per philosopher, and one that cannot
      be continued has everybody home and every chopstick free. */
  lemma StopsCleanly(n: nat, s0: State, before: seq<Move>, s: State, after: seq<Move>, s': State)
    requires n >= 2 && Reaches(n, s0, before, s) && Shape(n, s) && s.stop
    requires Runs(n, s, after) && s' == After(n, s, after)
    ensures |after| <= 6 * n
    ensures (forall m :: !Enabled(n, s', m)) ==>
              forall i: nat | i < n :: s'.pcs[i].Done? && s'.chops[i].Nobody?
  {
    RunInv(n, s0, before);
    StoppedRunShrinks(n, s, after);
    SumAtMost(Rank, s.pcs, 6);
    SumNonNegative(Rank, s'.pcs);
    RunInv(n, s, after);
    if forall m :: !Enabled(n, s', m) {
      forall i: nat | i < n ensures s'.pcs[i].Done? {
        if !s'.pcs[i].Done? {
          var j := ChainEnds(n, s', i);
        }
      }
      forall c: nat | c < n ensures s'.chops[c].Nobody? {
        if s'.chops[c].Phil? {
          var held := Holds(n, s', s'.chops[c].id, c);
        }
      }
    }
  }
}
