/** The producer/consumer protocol as a step system.

    Any number of producer and consumer threads share one ring, one mutex, two counting semaphores and
    two totals. Each thread has its own program counter and every semaphore operation, unlocked read,
    lock, locked statement and unlock is a step of its own, so that threads interleave anywhere between
    them. A thread's next step is a function of the state; which thread moves is arbitrary.
 */
module BoundedBuffer {
  import opened RingQueue

  datatype Params = Params(queueSize: nat, workMax: nat, producers: nat, consumers: nat)

  datatype Thread = Producer(i: nat) | Consumer(i: nat)

  datatype Holder = Free | Held(thread: Thread)

  /** Where a producer stands: what it does next. */
  datatype ProducerPc =
    | PWait              // sem_wait(slotsToPut)
    | PCheck             // unlocked read of total_inserted
    | PLock              // acquire the mutex
    | PItem              // item = *total_inserted
    | PAdd(item: int)    // queueAdd
    | PCount             // ++(*total_inserted)
    | PUnlock            // release the mutex
    | PPost              // sem_post(slotsToGet)
    | PExitGet           // leaving: sem_post(slotsToGet)
    | PExitPut           // leaving: sem_post(slotsToPut)
    | PDone              // returned

  /** Where a consumer stands: what it does next. */
  datatype ConsumerPc =
    | CWait              // sem_wait(slotsToGet)
    | CCheck             // unlocked read of total_consumed
    | CLock              // acquire the mutex
    | CRemove            // queueRemove
    | CCount             // (*total_consumed)++
    | CUnlock            // release the mutex
    | CPost              // sem_post(slotsToPut)
    | CExitPut           // leaving: sem_post(slotsToPut)
    | CExitGet           // leaving: sem_post(slotsToGet)
    | CDone              // returned

  /** `taken` lists what queueRemove handed out, in order. */
  datatype State = State(
    put: nat, get: nat, holder: Holder, ring: Ring, inserted: nat, consumed: nat,
    prods: seq<ProducerPc>, cons: seq<ConsumerPc>, taken: seq<int>)

  /** The state `main` builds before it creates the threads; the buffer's contents are arbitrary. */
  ghost predicate Init(p: Params, s: State) {
    && s.put == p.queueSize && s.get == 0 && s.holder == Free
    && |s.ring.buf| == p.queueSize && Represents(s.ring, []) && s.ring.head == 0
    && s.inserted == 0 && s.consumed == 0 && s.taken == []
    && s.prods == seq(p.producers, i => PWait)
    && s.cons == seq(p.consumers, i => CWait)
  }

  predicate Exists(s: State, t: Thread) {
    match t
    case Producer(i) => i < |s.prods|
    case Consumer(i) => i < |s.cons|
  }

  predicate Returned(s: State, t: Thread)
    requires Exists(s, t)
  {
    match t
    case Producer(i) => s.prods[i].PDone?
    case Consumer(i) => s.cons[i].CDone?
  }

  /** A thread can move unless it has returned, waits on a zero semaphore or waits for a held mutex. */
  predicate Enabled(s: State, t: Thread) {
    && Exists(s, t)
    && match t
       case Producer(i) =>
         (match s.prods[i]
          case PWait => s.put > 0
          case PLock => s.holder.Free?
          case PDone => false
          case _ => true)
       case Consumer(i) =>
         (match s.cons[i]
          case CWait => s.get > 0
          case CLock => s.holder.Free?
          case CDone => false
          case _ => true)
  }

  function ProducerStep(p: Params, s: State, i: nat): State
    requires s.ring.WellFormed() && Enabled(s, Producer(i))
  {
    match s.prods[i]
    case PWait => s.(put := s.put - 1, prods := s.prods[i := PCheck])
    case PCheck => s.(prods := s.prods[i := if s.inserted >= p.workMax then PExitGet else PLock])
    case PLock => s.(holder := Held(Producer(i)), prods := s.prods[i := PItem])
    case PItem => s.(prods := s.prods[i := PAdd(s.inserted)])
    case PAdd(item) => s.(ring := s.ring.Add(item), prods := s.prods[i := PCount])
    case PCount => s.(inserted := s.inserted + 1, prods := s.prods[i := PUnlock])
    case PUnlock => s.(holder := Free, prods := s.prods[i := PPost])
    case PPost => s.(get := s.get + 1, prods := s.prods[i := PWait])
    case PExitGet => s.(get := s.get + 1, prods := s.prods[i := PExitPut])
    case PExitPut => s.(put := s.put + 1, prods := s.prods[i := PDone])
  }

  function ConsumerStep(p: Params, s: State, i: nat): State
    requires s.ring.WellFormed() && Enabled(s, Consumer(i))
  {
    match s.cons[i]
    case CWait => s.(get := s.get - 1, cons := s.cons[i := CCheck])
    case CCheck => s.(cons := s.cons[i := if s.consumed >= p.workMax then CExitPut else CLock])
    case CLock => s.(holder := Held(Consumer(i)), cons := s.cons[i := CRemove])
    case CRemove =>
      var (ring', item) := s.ring.Remove();
      s.(ring := ring', taken := s.taken + [item], cons := s.cons[i := CCount])
    case CCount => s.(consumed := s.consumed + 1, cons := s.cons[i := CUnlock])
    case CUnlock => s.(holder := Free, cons := s.cons[i := CPost])
    case CPost => s.(put := s.put + 1, cons := s.cons[i := CWait])
    case CExitPut => s.(put := s.put + 1, cons := s.cons[i := CExitGet])
    case CExitGet => s.(get := s.get + 1, cons := s.cons[i := CDone])
  }

  function Exec(p: Params, s: State, t: Thread): (s': State)
    requires s.ring.WellFormed() && Enabled(s, t)
    ensures s'.ring.WellFormed()
  {
    match t
    case Producer(i) => ProducerStep(p, s, i)
    case Consumer(i) => ConsumerStep(p, s, i)
  }

  /** The schedule names a thread that can move at each of its steps. */
  predicate Runs(p: Params, s: State, schedule: seq<Thread>)
    requires s.ring.WellFormed()
    decreases |schedule|
  {
    schedule == [] || (Enabled(s, schedule[0]) && Runs(p, Exec(p, s, schedule[0]), schedule[1..]))
  }

  /** The state at the end of a run. */
  function After(p: Params, s: State, schedule: seq<Thread>): (s': State)
    requires s.ring.WellFormed() && Runs(p, s, schedule)
    ensures s'.ring.WellFormed()
    decreases |schedule|
  {
    if schedule == [] then s else After(p, Exec(p, s, schedule[0]), schedule[1..])
  }

  /** No thread can move although some thread has not returned. */
  ghost predicate Stuck(s: State) {
    && (forall t :: !Enabled(s, t))
    && (exists t :: Exists(s, t) && !Returned(s, t))
  }

  lemma {:induction false} RunsConcat(p: Params, s: State, a: seq<Thread>, b: seq<Thread>)
    requires s.ring.WellFormed() && Runs(p, s, a) && Runs(p, After(p, s, a), b)
    ensures Runs(p, s, a + b) && After(p, s, a + b) == After(p, After(p, s, a), b)
    decreases |a|
  {
    hide Exec, Enabled;
    if a == [] {
      assert a + b == b;
    } else {
      RunsConcat(p, Exec(p, s, a[0]), a[1..], b);
      assert (a + b)[1..] == a[1..] + b;
    }
  }
}
