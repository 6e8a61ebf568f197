/** The results about whole runs: bounds, conservation, order of items, termination of every run, and
    the exact conditions under which threads block for ever or a consumer reads an empty ring.
 */
module BoundedBufferTheorems {
  import opened RingQueue
  import opened Sums
  import opened BoundedBuffer
  import opened BoundedBufferSafety
  import opened Division

  function Min(a: int, b: int): int {
    if a <= b then a else b
  }

  /** The state at the end of some run from a start state. */
  ghost predicate Reaches(p: Params, s0: State, schedule: seq<Thread>, s: State) {
    Init(p, s0) && s0.ring.WellFormed() && Runs(p, s0, schedule) && After(p, s0, schedule) == s
  }

  lemma ReachesInv(p: Params, s0: State, schedule: seq<Thread>, s: State)
    requires Sensible(p) && Reaches(p, s0, schedule, s)
    ensures Inv(p, s)
  {
    InitInv(p, s0);
    RunInv(p, s0, schedule);
  }

  // ---------------------------------------------------------------- safety over whole runs

  /** The totals overshoot the limit by a bounded amount although it is read outside the mutex. */
  lemma TotalsBounded(p: Params, s0: State, schedule: seq<Thread>, s: State)
    requires Sensible(p) && Reaches(p, s0, schedule, s)
    ensures s.inserted <= p.workMax + Min(p.producers, p.queueSize) - 1
    ensures s.consumed <= p.workMax + p.consumers - 1
  {
    ReachesInv(p, s0, schedule, s);
    SumFacts(s);
  }

  /** Tokens a thread still owes to the semaphores. */
  function OwedP(pc: ProducerPc): int {
    match pc
    case PWait | PDone => 0
    case PExitGet => 2
    case _ => 1
  }

  function OwedC(pc: ConsumerPc): int {
    match pc
    case CWait | CDone => 0
    case CExitPut => 2
    case _ => 1
  }

  lemma {:induction false} SumCombines<T>(owed: T -> int, out: T -> int, get: T -> int, put: T -> int, s: seq<T>)
    requires forall i: nat | i < |s| :: owed(s[i]) == out(s[i]) - get(s[i]) - put(s[i])
    ensures Sum(owed, s) == Sum(out, s) - Sum(get, s) - Sum(put, s)
    decreases |s|
  {
    if s != [] {
      SumCombines(owed, out, get, put, s[1..]);
    }
  }

  /** Free tokens plus tokens in flight equal the queue size plus the number of threads that left. */
  lemma TokensConserved(p: Params, s0: State, schedule: seq<Thread>, s: State)
    requires Sensible(p) && Reaches(p, s0, schedule, s)
    ensures s.put + s.get + Sum(OwedP, s.prods) + Sum(OwedC, s.cons) == p.queueSize + Exits(s)
  {
    ReachesInv(p, s0, schedule, s);
    SumCombines(OwedP, ExitP, GetP, PutP, s.prods);
    SumCombines(OwedC, ExitC, GetC, PutC, s.cons);
  }

  /** At most one thread is inside the locked section. */
  lemma MutualExclusion(p: Params, s0: State, schedule: seq<Thread>, s: State, t: Thread, u: Thread)
    requires Sensible(p) && Reaches(p, s0, schedule, s)
    requires Exists(s, t) && Exists(s, u) && InCritical(s, t) && InCritical(s, u)
    ensures t == u
  {
    ReachesInv(p, s0, schedule, s);
  }

  /** In any run, underflows included: head and tail have gone round with the removals and the additions, and
      every item added and not yet removed stands in its own slot. */
  ghost predicate Stored(p: Params, s: State)
    requires p.queueSize >= 1
  {
    && s.ring.head == Removes(s) % p.queueSize && s.ring.tail == Adds(s) % p.queueSize
    && forall n: nat | Removes(s) <= n < Adds(s) :: Keeps(p, s, n)
  }

  /** Item `n` is in the ring. */
  ghost predicate Keeps(p: Params, s: State, n: nat)
    requires p.queueSize >= 1
  {
    |s.ring.buf| == p.queueSize && s.ring.buf[n % p.queueSize] == n
  }

  lemma NextRemainder(n: nat, d: nat)
    requires d > 0
    ensures (n + 1) % d == if n % d + 1 == d then 0 else n % d + 1
  {
    var q := n / d;
    assert n == q * d + n % d;
    if n % d + 1 == d {
      assert n + 1 == (q + 1) * d + 0;
      DivModUnique(n + 1, q + 1, d, 0);
    } else {
      DivModUnique(n + 1, q, d, n % d + 1);
    }
  }

  /** Numbers less than `d` apart have different remainders. */
  lemma RemaindersDiffer(m: nat, n: nat, d: nat)
    requires m < n < m + d
    ensures m % d != n % d
  {
    var a, b := m / d, n / d;
    assert m == a * d + m % d && n == b * d + n % d;
    if a < b {
      Times(a + 1, b, d);
    } else {
      Times(b, a, d);
    }
  }

  lemma AddStores(p: Params, s: State, i: nat)
    requires Sensible(p) && Inv(p, s) && Stored(p, s) && i < |s.prods| && s.prods[i].PAdd?
    ensures Stored(p, Exec(p, s, Producer(i)))
  {
    hide Tokens, Limits, Fifo;
    var s', k := Exec(p, s, Producer(i)), Adds(s);
    assert InCritical(s, Producer(i)) && s.holder == Held(Producer(i));
    NoOverflow(p, s, i);
    assert Adds(s') == k + 1 && Removes(s') == Removes(s);
    NextRemainder(k, p.queueSize);
    forall n: nat | Removes(s') <= n < Adds(s') ensures Keeps(p, s', n) {
      if n < k {
        assert Keeps(p, s, n);
        RemaindersDiffer(n, k, p.queueSize);
      }
    }
  }

  lemma RemoveStores(p: Params, s: State, i: nat)
    requires Sensible(p) && Inv(p, s) && Stored(p, s) && i < |s.cons| && s.cons[i].CRemove?
    ensures Stored(p, Exec(p, s, Consumer(i)))
  {
    hide Tokens, Limits, Fifo;
    var s' := Exec(p, s, Consumer(i));
    assert InCritical(s, Consumer(i)) && s.holder == Held(Consumer(i));
    assert Adds(s') == Adds(s) && Removes(s') == Removes(s) + 1;
    NextRemainder(Removes(s), p.queueSize);
    forall n: nat | Removes(s') <= n < Adds(s') ensures Keeps(p, s', n) {
      assert Keeps(p, s, n);
    }
  }

  lemma OtherStepStores(p: Params, s: State, t: Thread)
    requires Sensible(p) && Inv(p, s) && Stored(p, s) && Enabled(s, t)
    requires t.Producer? ==> !s.prods[t.i].PAdd?
    requires t.Consumer? ==> !s.cons[t.i].CRemove?
    ensures Stored(p, Exec(p, s, t))
  {
    hide Tokens, Limits, Fifo;
    var s' := Exec(p, s, t);
    assert InCritical(s, t) <==> s.holder == Held(t);
    assert Adds(s') == Adds(s) && Removes(s') == Removes(s) && s'.ring == s.ring;
    forall n: nat | Removes(s') <= n < Adds(s') ensures Keeps(p, s', n) {
      assert Keeps(p, s, n);
    }
  }

  lemma {:induction false} RunStores(p: Params, s: State, schedule: seq<Thread>)
    requires Sensible(p) && Inv(p, s) && Stored(p, s) && s.ring.WellFormed() && Runs(p, s, schedule)
    ensures Stored(p, After(p, s, schedule))
    decreases |schedule|
  {
    hide Inv, Stored;
    if schedule != [] {
      var t := schedule[0];
      StepInv(p, s, t);
      if t.Producer? && s.prods[t.i].PAdd? {
        AddStores(p, s, t.i);
      } else if t.Consumer? && s.cons[t.i].CRemove? {
        RemoveStores(p, s, t.i);
      } else {
        OtherStepStores(p, s, t);
      }
      RunStores(p, Exec(p, s, t), schedule[1..]);
    }
  }

  /** The ring never overflows, in any run with any number of threads: a producer about to add carries the next
      number, and the slot it writes holds no item that is still to be removed. */
  lemma RingNeverOverflows(p: Params, s0: State, schedule: seq<Thread>, s: State, i: nat)
    requires Sensible(p) && Reaches(p, s0, schedule, s)
    requires i < |s.prods| && s.prods[i].PAdd?
    ensures Adds(s) < Removes(s) + p.queueSize
    ensures s.prods[i].item == Adds(s)
    ensures forall n: nat | Removes(s) <= n < Adds(s) :: Keeps(p, s, n) && n % p.queueSize != s.ring.tail
  {
    ReachesInv(p, s0, schedule, s);
    NoOverflow(p, s, i);
    assert InCritical(s, Producer(i));
    NothingIsLost(p, s0, schedule, s);
    forall n: nat | Removes(s) <= n < Adds(s) ensures Keeps(p, s, n) && n % p.queueSize != s.ring.tail {
      RemaindersDiffer(n, Adds(s), p.queueSize);
    }
  }

  /** In every run, whoever left and however often the ring was read when empty, each item added and not yet
      removed is in the ring, and the next removal gives the next number if that has been added. */
  lemma NothingIsLost(p: Params, s0: State, schedule: seq<Thread>, s: State)
    requires Sensible(p) && Reaches(p, s0, schedule, s)
    ensures s.ring.WellFormed() && Stored(p, s)
    ensures Removes(s) < Adds(s) ==> s.ring.Remove().1 == Removes(s)
  {
    hide Inv;
    InitInv(p, s0);
    StartStored(p, s0);
    RunStores(p, s0, schedule);
    if Removes(s) < Adds(s) {
      assert Keeps(p, s, Removes(s));
    }
  }

  lemma StartStored(p: Params, s0: State)
    requires Sensible(p) && Init(p, s0) && s0.ring.WellFormed()
    ensures Stored(p, s0)
  {
  }

  /** Until the first thread leaves, and for ever with one consumer, one slot or no work, the ring holds
      exactly the items added and not yet removed, its flags are right, and the k-th removal gave item k. */
  lemma ItemsInOrder(p: Params, s0: State, schedule: seq<Thread>, s: State)
    requires Sensible(p) && Reaches(p, s0, schedule, s)
    requires Exits(s) == 0 || SingleFile(p)
    ensures Removes(s) <= Adds(s) <= Removes(s) + p.queueSize
    ensures Represents(s.ring, Range(Removes(s), Adds(s)))
    ensures |s.taken| == Removes(s) && forall k: nat | k < |s.taken| :: s.taken[k] == k
  {
    ReachesInv(p, s0, schedule, s);
  }

  /** A single consumer takes exactly the items 0 .. workMax - 1, in order. */
  lemma SingleConsumerTakesAll(p: Params, s0: State, schedule: seq<Thread>, s: State)
    requires Sensible(p) && Reaches(p, s0, schedule, s)
    requires p.consumers == 1 == |s.cons| && s.cons[0].CDone?
    ensures s.taken == Range(0, p.workMax)
  {
    ReachesInv(p, s0, schedule, s);
    SumFacts(s);
    SumPositive(ExitC, s.cons, 0);
    assert !InCritical(s, Consumer(0));
  }

  /** A consumer is about to remove from an empty ring. */
  ghost predicate Underflows(s: State, i: nat) {
    i < |s.cons| && s.cons[i].CRemove? && Adds(s) <= Removes(s)
  }

  lemma SingleFileNeverUnderflows(p: Params, s0: State, schedule: seq<Thread>, s: State, i: nat)
    requires Sensible(p) && Reaches(p, s0, schedule, s)
    requires SingleFile(p)
    ensures !Underflows(s, i)
  {
    ReachesInv(p, s0, schedule, s);
    if i < |s.cons| && s.cons[i].CRemove? {
      NoUnderflow(p, s);
      SumPositive(PassedC, s.cons, i);
      assert InCritical(s, Consumer(i));
    }
  }

  // ---------------------------------------------------------------- every run ends

  function RankP(pc: ProducerPc): int {
    match pc
    case PUnlock => 11
    case PPost => 10
    case PWait => 9
    case PCheck => 8
    case PLock => 7
    case PItem => 6
    case PAdd(_) => 5
    case PCount => 4
    case PExitGet => 2
    case PExitPut => 1
    case PDone => 0
  }

  function RankC(pc: ConsumerPc): int {
    match pc
    case CUnlock => 9
    case CPost => 8
    case CWait => 7
    case CCheck => 6
    case CLock => 5
    case CRemove => 4
    case CCount => 3
    case CExitPut => 2
    case CExitGet => 1
    case CDone => 0
  }

  /** Eight steps for every item that may still be counted, plus what each thread has left to do. */
  function Fuel(p: Params, s: State): int {
    8 * (p.workMax + Min(p.producers, p.queueSize) - 1 - s.inserted)
    + 7 * (p.workMax + p.consumers - 1 - s.consumed)
    + Sum(RankP, s.prods) + Sum(RankC, s.cons)
  }

  lemma FuelNonNegative(p: Params, s: State)
    requires Sensible(p) && Inv(p, s)
    ensures Fuel(p, s) >= 0
  {
    SumFacts(s);
    SumNonNegative(RankP, s.prods);
    SumNonNegative(RankC, s.cons);
  }

  lemma StepBurnsFuel(p: Params, s: State, t: Thread)
    requires Shape(p, s) && Enabled(s, t)
    ensures Fuel(p, Exec(p, s, t)) < Fuel(p, s)
  {
    var s' := Exec(p, s, t);
    match t
    case Producer(i) => SumUpdate(RankP, s.prods, i, s'.prods[i]);
    case Consumer(i) => SumUpdate(RankC, s.cons, i, s'.cons[i]);
  }

  lemma {:induction false} RunBurnsFuel(p: Params, s: State, schedule: seq<Thread>)
    requires Sensible(p) && Inv(p, s) && Runs(p, s, schedule)
    ensures |schedule| <= Fuel(p, s) - Fuel(p, After(p, s, schedule))
    decreases |schedule|
  {
    if schedule != [] {
      StepBurnsFuel(p, s, schedule[0]);
      StepInv(p, s, schedule[0]);
      RunBurnsFuel(p, Exec(p, s, schedule[0]), schedule[1..]);
    }
  }

  /** Every run, however scheduled, is finite: its length has a bound that depends on the parameters
      only. */
  lemma EveryRunIsFinite(p: Params, s0: State, schedule: seq<Thread>, s: State)
    requires Sensible(p) && Reaches(p, s0, schedule, s)
    ensures |schedule| <= 8 * (p.workMax + Min(p.producers, p.queueSize) - 1)
                          + 7 * (p.workMax + p.consumers - 1)
                          + 9 * p.producers + 7 * p.consumers
  {
    InitInv(p, s0);
    RunBurnsFuel(p, s0, schedule);
    RunInv(p, s0, schedule);
    FuelNonNegative(p, s);
    SumConstant(RankP, s0.prods, 9);
    SumConstant(RankC, s0.cons, 7);
  }

  // ---------------------------------------------------------------- no thread blocks for ever

  /** Parameters under which the exit cascade always reaches every thread. */
  predicate CascadeReachesAll(p: Params) {
    p.consumers <= p.producers || p.queueSize == 1 || p.workMax == 0
  }

  /** If nothing can move, every thread waits on its semaphore or has returned. */
  lemma QuietThreads(p: Params, s: State)
    requires Shape(p, s) && Mutex(s) && forall t :: !Enabled(s, t)
    ensures forall i: nat | i < |s.prods| :: s.prods[i].PWait? || s.prods[i].PDone?
    ensures forall i: nat | i < |s.cons| :: s.cons[i].CWait? || s.cons[i].CDone?
  {
    if s.holder.Held? {
      assert InCritical(s, s.holder.thread);
      var holderMoves := Enabled(s, s.holder.thread);
    }
    forall i: nat | i < |s.prods| ensures s.prods[i].PWait? || s.prods[i].PDone? {
      assert !Enabled(s, Producer(i));
    }
    forall i: nat | i < |s.cons| ensures s.cons[i].CWait? || s.cons[i].CDone? {
      assert !Enabled(s, Consumer(i));
    }
  }

  /** The two token equations at such a moment. */
  lemma QuietTokens(p: Params, s: State)
    requires Shape(p, s) && Tokens(p, s)
    requires forall i: nat | i < |s.prods| :: s.prods[i].PWait? || s.prods[i].PDone?
    requires forall i: nat | i < |s.cons| :: s.cons[i].CWait? || s.cons[i].CDone?
    ensures s.get == s.inserted - s.consumed + Sum(ExitP, s.prods)
    ensures s.put == p.queueSize + s.consumed - s.inserted + Sum(ExitC, s.cons)
  {
    SumCongruent(GetP, ExitP, s.prods);
    SumCongruent(PutC, ExitC, s.cons);
    SumConstant(PutP, s.prods, 0);
    SumConstant(GetC, s.cons, 0);
  }

  lemma {:induction false} SumCongruent<T>(a: T -> int, b: T -> int, s: seq<T>)
    requires forall i: nat | i < |s| :: a(s[i]) == b(s[i])
    ensures Sum(a, s) == Sum(b, s)
    decreases |s|
  {
    if s != [] {
      SumCongruent(a, b, s[1..]);
    }
  }

  lemma InvNotStuck(p: Params, s: State)
    requires Sensible(p) && CascadeReachesAll(p) && Inv(p, s)
    ensures !Stuck(s)
  {
    if Stuck(s) {
      QuietThreads(p, s);
      QuietTokens(p, s);
      SumFacts(s);
      var t :| Exists(s, t) && !Returned(s, t);
      assert !Enabled(s, t);
      if i: nat :| i < |s.prods| && s.prods[i].PWait? {
        assert !Enabled(s, Producer(i));
        if j: nat :| j < |s.cons| && s.cons[j].CWait? {
          var consumerMoves := Enabled(s, Consumer(j));
          assert false;
        } else {
          SumConstant(ExitC, s.cons, 1);
          assert false;
        }
      } else {
        assert t.Consumer? && s.cons[t.i].CWait?;
        SumConstant(ExitP, s.prods, 1);
        assert false;
      }
    }
  }

  /** While any thread has not returned, some thread can move, including throughout the exit cascade. */
  lemma NeverStuck(p: Params, s0: State, schedule: seq<Thread>, s: State)
    requires Sensible(p) && Reaches(p, s0, schedule, s)
    requires CascadeReachesAll(p)
    ensures !Stuck(s)
  {
    ReachesInv(p, s0, schedule, s);
    InvNotStuck(p, s);
  }

  /** Every run that cannot be continued has brought every thread home, with the work done. */
  lemma MaximalRunsComplete(p: Params, s0: State, schedule: seq<Thread>, s: State)
    requires Sensible(p) && Reaches(p, s0, schedule, s)
    requires CascadeReachesAll(p) && forall t :: !Enabled(s, t)
    ensures forall t | Exists(s, t) :: Returned(s, t)
    ensures s.inserted >= p.workMax && s.consumed >= p.workMax
  {
    NeverStuck(p, s0, schedule, s);
    ReachesInv(p, s0, schedule, s);
    assert Returned(s, Consumer(0));
    SumFacts(s);
    SumPositive(ExitC, s.cons, 0);
  }
}
