/** What every reachable state of the protocol keeps: mutual exclusion, conservation of semaphore
    tokens, the bounds on the two totals although the limit is read outside the mutex, and the
    first-in-first-out behaviour of the ring.
 */
module BoundedBufferSafety {
  import opened RingQueue
  import opened Sums
  import opened BoundedBuffer

  // ---------------------------------------------------------------- weights of a program counter

  /** What a producer standing here adds to the free slotsToGet tokens beyond inserted - consumed. */
  function GetP(pc: ProducerPc): int {
    match pc
    case PUnlock | PPost => -1
    case PExitPut | PDone => 1
    case _ => 0
  }

  function GetC(pc: ConsumerPc): int {
    match pc
    case CCheck | CLock | CRemove | CCount | CExitPut | CExitGet => -1
    case _ => 0
  }

  /** What a producer standing here adds to the free slotsToPut tokens beyond the free slots. */
  function PutP(pc: ProducerPc): int {
    match pc
    case PCheck | PLock | PItem | PAdd(_) | PCount | PExitGet | PExitPut => -1
    case _ => 0
  }

  function PutC(pc: ConsumerPc): int {
    match pc
    case CUnlock | CPost => -1
    case CExitGet | CDone => 1
    case _ => 0
  }

  /** One for a producer that has passed its check but not counted its item yet. */
  function PassedP(pc: ProducerPc): int {
    match pc
    case PLock | PItem | PAdd(_) | PCount => 1
    case _ => 0
  }

  function PassedC(pc: ConsumerPc): int {
    match pc
    case CLock | CRemove | CCount => 1
    case _ => 0
  }

  /** One for a thread that has taken its exit branch. */
  function ExitP(pc: ProducerPc): int {
    match pc
    case PExitGet | PExitPut | PDone => 1
    case _ => 0
  }

  function ExitC(pc: ConsumerPc): int {
    match pc
    case CExitPut | CExitGet | CDone => 1
    case _ => 0
  }

  function Exits(s: State): int {
    Sum(ExitP, s.prods) + Sum(ExitC, s.cons)
  }

  predicate InCritical(s: State, t: Thread)
    requires Exists(s, t)
  {
    match t
    case Producer(i) => s.prods[i] in {PItem, PCount, PUnlock} || s.prods[i].PAdd?
    case Consumer(i) => s.cons[i] in {CRemove, CCount, CUnlock}
  }

  /** Items the ring has been given so far. */
  function Adds(s: State): nat {
    s.inserted +
    if s.holder.Held? && s.holder.thread.Producer? && Exists(s, s.holder.thread)
       && s.prods[s.holder.thread.i].PCount? then 1 else 0
  }

  /** Items the ring has given out so far. */
  function Removes(s: State): nat {
    s.consumed +
    if s.holder.Held? && s.holder.thread.Consumer? && Exists(s, s.holder.thread)
       && s.cons[s.holder.thread.i].CCount? then 1 else 0
  }

  /** The integers from `a` up to but not including `b`. */
  function Range(a: nat, b: nat): seq<int> {
    seq(if a <= b then b - a else 0, i => a + i)
  }

  /** Parameters under which the ring cannot underflow even after threads have started to leave. */
  predicate SingleFile(p: Params) {
    p.consumers == 1 || p.queueSize == 1 || p.workMax == 0
  }

  ghost predicate Sensible(p: Params) {
    p.queueSize >= 1 && p.producers >= 1 && p.consumers >= 1
  }

  // ---------------------------------------------------------------- the invariant

  ghost predicate Shape(p: Params, s: State) {
    && |s.prods| == p.producers && |s.cons| == p.consumers
    && s.ring.WellFormed() && |s.ring.buf| == p.queueSize
  }

  /** The mutex is held by exactly the thread inside the locked section, if any. */
  ghost predicate Mutex(s: State) {
    && (s.holder.Held? ==> Exists(s, s.holder.thread))
    && (forall t | Exists(s, t) :: InCritical(s, t) <==> s.holder == Held(t))
    && (forall i: nat | i < |s.prods| && s.prods[i].PAdd? :: s.prods[i].item == s.inserted)
  }

  /** Conservation, one equation for each semaphore. */
  ghost predicate Tokens(p: Params, s: State) {
    && s.get == s.inserted - s.consumed + Sum(GetP, s.prods) + Sum(GetC, s.cons)
    && s.put == p.queueSize + s.consumed - s.inserted + Sum(PutP, s.prods) + Sum(PutC, s.cons)
  }

  ghost predicate Limits(p: Params, s: State) {
    && (Exits(s) > 0 ==> s.inserted >= p.workMax)
    && (Sum(ExitC, s.cons) > 0 ==> s.consumed >= p.workMax)
    && s.inserted + Sum(PassedP, s.prods) <= p.queueSize + s.consumed
    && s.inserted + Sum(PassedP, s.prods) <= p.workMax - 1 + p.producers
    && s.inserted + Sum(PassedP, s.prods) <= p.workMax - 1 + p.queueSize
    && s.consumed + Sum(PassedC, s.cons) <= p.workMax - 1 + p.consumers
    && (p.queueSize == 1 && Exits(s) > 0 ==> s.consumed >= p.workMax)
    && (p.queueSize == 1 || p.workMax == 0 ==> s.consumed + Sum(PassedC, s.cons) <= s.inserted)
  }

  ghost predicate Tame(p: Params, s: State) {
    Exits(s) == 0 || SingleFile(p)
  }

  /** The ring holds exactly the items added and not yet removed, in order. */
  ghost predicate Fifo(s: State) {
    && Removes(s) <= Adds(s)
    && Represents(s.ring, Range(Removes(s), Adds(s)))
    && s.taken == Range(0, Removes(s))
  }

  ghost predicate Inv(p: Params, s: State) {
    && Shape(p, s)
    && Mutex(s)
    && Tokens(p, s)
    && Limits(p, s)
    && (Tame(p, s) ==> Fifo(s))
  }

  // ---------------------------------------------------------------- consequences of the sums

  lemma SumFacts(s: State)
    ensures Sum(GetP, s.prods) <= Sum(ExitP, s.prods)
    ensures Sum(GetC, s.cons) <= -Sum(PassedC, s.cons)
    ensures Sum(PutP, s.prods) <= -Sum(PassedP, s.prods)
    ensures Sum(PutC, s.cons) <= Sum(ExitC, s.cons)
    ensures 0 <= Sum(PassedP, s.prods) <= |s.prods|
    ensures 0 <= Sum(PassedC, s.cons) <= |s.cons|
    ensures 0 <= Sum(ExitP, s.prods) && 0 <= Sum(ExitC, s.cons)
  {
    SumMonotone(GetP, ExitP, s.prods);
    SumMonotone(PutC, ExitC, s.cons);
    SumOpposite(GetC, PassedC, s.cons);
    SumOpposite(PutP, PassedP, s.prods);
    SumAtMost(PassedP, s.prods, 1);
    SumAtMost(PassedC, s.cons, 1);
    SumNonNegative(PassedP, s.prods);
    SumNonNegative(PassedC, s.cons);
    SumNonNegative(ExitP, s.prods);
    SumNonNegative(ExitC, s.cons);
  }

  lemma {:induction false} SumOpposite<T>(a: T -> int, b: T -> int, s: seq<T>)
    requires forall i: nat | i < |s| :: a(s[i]) <= -b(s[i])
    ensures Sum(a, s) <= -Sum(b, s)
    decreases |s|
  {
    if s != [] {
      SumOpposite(a, b, s[1..]);
    }
  }

  /** How every sum over the producers moves when producer `i` moves to `pc`. */
  lemma ProducerSums(s: State, i: nat, pc: ProducerPc)
    requires i < |s.prods|
    ensures var ps := s.prods[i := pc];
            && Sum(GetP, ps) == Sum(GetP, s.prods) - GetP(s.prods[i]) + GetP(pc)
            && Sum(PutP, ps) == Sum(PutP, s.prods) - PutP(s.prods[i]) + PutP(pc)
            && Sum(PassedP, ps) == Sum(PassedP, s.prods) - PassedP(s.prods[i]) + PassedP(pc)
            && Sum(ExitP, ps) == Sum(ExitP, s.prods) - ExitP(s.prods[i]) + ExitP(pc)
  {
    SumUpdate(GetP, s.prods, i, pc);
    SumUpdate(PutP, s.prods, i, pc);
    SumUpdate(PassedP, s.prods, i, pc);
    SumUpdate(ExitP, s.prods, i, pc);
  }

  lemma ConsumerSums(s: State, i: nat, pc: ConsumerPc)
    requires i < |s.cons|
    ensures var cs := s.cons[i := pc];
            && Sum(GetC, cs) == Sum(GetC, s.cons) - GetC(s.cons[i]) + GetC(pc)
            && Sum(PutC, cs) == Sum(PutC, s.cons) - PutC(s.cons[i]) + PutC(pc)
            && Sum(PassedC, cs) == Sum(PassedC, s.cons) - PassedC(s.cons[i]) + PassedC(pc)
            && Sum(ExitC, cs) == Sum(ExitC, s.cons) - ExitC(s.cons[i]) + ExitC(pc)
  {
    SumUpdate(GetC, s.cons, i, pc);
    SumUpdate(PutC, s.cons, i, pc);
    SumUpdate(PassedC, s.cons, i, pc);
    SumUpdate(ExitC, s.cons, i, pc);
  }

  /** While the ring is in order, a consumer inside its locked section finds an item. */
  lemma NoUnderflow(p: Params, s: State)
    requires Sensible(p) && Inv(p, s) && Tame(p, s)
    ensures s.consumed + Sum(PassedC, s.cons) <= s.inserted
  {
    SumFacts(s);
  }

  // ---------------------------------------------------------------- the invariant holds initially

  lemma InitInv(p: Params, s: State)
    requires Sensible(p) && Init(p, s)
    ensures Inv(p, s)
  {
    SumConstant(GetP, s.prods, 0);
    SumConstant(PutP, s.prods, 0);
    SumConstant(PassedP, s.prods, 0);
    SumConstant(ExitP, s.prods, 0);
    SumConstant(GetC, s.cons, 0);
    SumConstant(PutC, s.cons, 0);
    SumConstant(PassedC, s.cons, 0);
    SumConstant(ExitC, s.cons, 0);
    assert Range(0, 0) == [];
  }

  // ---------------------------------------------------------------- every step preserves it

  lemma StepMutex(p: Params, s: State, t: Thread)
    requires Shape(p, s) && Mutex(s) && Enabled(s, t)
    ensures Shape(p, Exec(p, s, t)) && Mutex(Exec(p, s, t))
  {
    var s' := Exec(p, s, t);
    assert InCritical(s, t) <==> s.holder == Held(t);
    forall u | Exists(s', u) ensures InCritical(s', u) <==> s'.holder == Held(u) {
      assert Exists(s, u) && (InCritical(s, u) <==> s.holder == Held(u));
    }
    forall i: nat | i < |s'.prods| && s'.prods[i].PAdd? ensures s'.prods[i].item == s'.inserted {
      if Producer(i) != t {
        assert s.prods[i].PAdd? && InCritical(s, Producer(i));
      }
    }
  }

  lemma ProducerTokens(p: Params, s: State, i: nat)
    requires Shape(p, s) && Tokens(p, s) && Enabled(s, Producer(i))
    ensures Tokens(p, ProducerStep(p, s, i))
  {
    ProducerSums(s, i, ProducerStep(p, s, i).prods[i]);
  }

  lemma ConsumerTokens(p: Params, s: State, i: nat)
    requires Shape(p, s) && Tokens(p, s) && Enabled(s, Consumer(i))
    ensures Tokens(p, ConsumerStep(p, s, i))
  {
    ConsumerSums(s, i, ConsumerStep(p, s, i).cons[i]);
  }

  lemma StepTokens(p: Params, s: State, t: Thread)
    requires Shape(p, s) && Tokens(p, s) && Enabled(s, t)
    ensures Tokens(p, Exec(p, s, t))
  {
    match t
    case Producer(i) => ProducerTokens(p, s, i);
    case Consumer(i) => ConsumerTokens(p, s, i);
  }

  /** Before anyone leaves, a producer that holds a slot token has a free slot. */
  lemma CheckingProducerHasRoom(p: Params, s: State, i: nat)
    requires Tokens(p, s) && Exits(s) == 0 && i < |s.prods| && s.prods[i].PCheck?
    ensures s.inserted < p.queueSize + s.consumed
  {
    SumUpdate(PutP, s.prods, i, PWait);
    SumFacts(s);
    SumFacts(s.(prods := s.prods[i := PWait]));
  }

  lemma ProducerLimits(p: Params, s: State, i: nat)
    requires Sensible(p) && Shape(p, s) && Tokens(p, s) && Limits(p, s) && Enabled(s, Producer(i))
    requires Tokens(p, Exec(p, s, Producer(i)))
    ensures Limits(p, Exec(p, s, Producer(i)))
  {
    hide Sum;
    var s' := Exec(p, s, Producer(i));
    ProducerSums(s, i, s'.prods[i]);
    SumFacts(s);
    SumFacts(s');
    if s.prods[i].PCheck? && Exits(s) == 0 {
      CheckingProducerHasRoom(p, s, i);
    }
  }

  lemma ConsumerLimits(p: Params, s: State, i: nat)
    requires Sensible(p) && Shape(p, s) && Tokens(p, s) && Limits(p, s) && Enabled(s, Consumer(i))
    requires Tokens(p, Exec(p, s, Consumer(i)))
    ensures Limits(p, Exec(p, s, Consumer(i)))
  {
    hide Sum;
    var s' := Exec(p, s, Consumer(i));
    ConsumerSums(s, i, s'.cons[i]);
    SumFacts(s);
    SumFacts(s');
  }

  /** A producer about to add has room: the ring can never overflow, in any run. */
  lemma NoOverflow(p: Params, s: State, i: nat)
    requires Limits(p, s) && i < |s.prods| && s.prods[i].PAdd?
    ensures s.inserted < p.queueSize + s.consumed
  {
    SumFacts(s);
    SumPositive(PassedP, s.prods, i);
  }

  lemma ProducerAddFifo(p: Params, s: State, i: nat)
    requires Shape(p, s) && Mutex(s) && Limits(p, s) && Fifo(s) && i < |s.prods| && s.prods[i].PAdd?
    ensures Fifo(Exec(p, s, Producer(i)))
  {
    var s' := Exec(p, s, Producer(i));
    assert InCritical(s, Producer(i));
    assert s.holder == Held(Producer(i));
    var q := Range(Removes(s), Adds(s));
    NoOverflow(p, s, i);
    AddEnqueues(s.ring, q, s.inserted);
    assert Range(Removes(s'), Adds(s')) == q + [s.inserted];
  }

  lemma ConsumerRemoveFifo(p: Params, s: State, i: nat)
    requires Shape(p, s) && Mutex(s) && Fifo(s) && i < |s.cons| && s.cons[i].CRemove?
    requires s.consumed < s.inserted
    ensures Fifo(Exec(p, s, Consumer(i)))
  {
    var s' := Exec(p, s, Consumer(i));
    assert InCritical(s, Consumer(i));
    assert s.holder == Held(Consumer(i));
    var q := Range(Removes(s), Adds(s));
    RemoveDequeues(s.ring, q);
    assert Range(Removes(s'), Adds(s')) == q[1..];
    assert Range(0, Removes(s')) == Range(0, Removes(s)) + [q[0]];
  }

  /** A step that does not touch the ring does not move the counts of items added and removed. */
  lemma OtherStepFifo(p: Params, s: State, t: Thread)
    requires Shape(p, s) && Mutex(s) && Fifo(s) && Enabled(s, t)
    requires t.Producer? ==> !s.prods[t.i].PAdd?
    requires t.Consumer? ==> !s.cons[t.i].CRemove?
    ensures Fifo(Exec(p, s, t))
  {
    var s' := Exec(p, s, t);
    assert InCritical(s, t) <==> s.holder == Held(t);
    assert Adds(s') == Adds(s) && Removes(s') == Removes(s);
  }

  lemma StepFifo(p: Params, s: State, t: Thread)
    requires Sensible(p) && Inv(p, s) && Enabled(s, t) && Tame(p, Exec(p, s, t))
    ensures Fifo(Exec(p, s, t))
  {
    var s' := Exec(p, s, t);
    SumFacts(s);
    match t
    case Producer(i) =>
      ProducerSums(s, i, s'.prods[i]);
      if s.prods[i].PAdd? { ProducerAddFifo(p, s, i); } else { OtherStepFifo(p, s, t); }
    case Consumer(i) =>
      ConsumerSums(s, i, s'.cons[i]);
      if s.cons[i].CRemove? {
        SumPositive(PassedC, s.cons, i);
        NoUnderflow(p, s);
        ConsumerRemoveFifo(p, s, i);
      } else {
        OtherStepFifo(p, s, t);
      }
  }

  lemma StepInv(p: Params, s: State, t: Thread)
    requires Sensible(p) && Inv(p, s) && Enabled(s, t)
    ensures Inv(p, Exec(p, s, t))
  {
    StepMutex(p, s, t);
    StepTokens(p, s, t);
    match t {
      case Producer(i) => ProducerLimits(p, s, i);
      case Consumer(i) => ConsumerLimits(p, s, i);
    }
    if Tame(p, Exec(p, s, t)) {
      StepFifo(p, s, t);
    }
  }

  lemma {:induction false} RunInv(p: Params, s: State, schedule: seq<Thread>)
    requires Sensible(p) && Inv(p, s) && Runs(p, s, schedule)
    ensures Inv(p, After(p, s, schedule))
    decreases |schedule|
  {
    if schedule != [] {
      StepInv(p, s, schedule[0]);
      RunInv(p, Exec(p, s, schedule[0]), schedule[1..]);
    }
  }
}
