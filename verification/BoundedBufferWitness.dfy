/** Runs that go wrong, for every choice of parameters outside the safe conditions: with more consumers
    than producers the exit cascade can leave consumers blocked for ever, and with two consumers and two
    slots a consumer can remove from an empty ring. Together with the safety results this gives the exact
    conditions.
 */
module BoundedBufferWitness {
  import opened RingQueue
  import opened BoundedBuffer
  import opened BoundedBufferSafety
  import opened BoundedBufferTheorems

  ghost predicate Leads(p: Params, s: State, schedule: seq<Thread>, s': State) {
    s.ring.WellFormed() && Runs(p, s, schedule) && After(p, s, schedule) == s'
  }

  lemma Join(p: Params, s: State, a: seq<Thread>, mid: State, b: seq<Thread>, s': State)
    requires Leads(p, s, a, mid) && Leads(p, mid, b, s')
    ensures Leads(p, s, a + b, s')
  {
    RunsConcat(p, s, a, b);
  }

  lemma Extend(p: Params, s: State, a: seq<Thread>, mid: State, t: Thread) returns (b: seq<Thread>, s': State)
    requires Leads(p, s, a, mid) && Enabled(mid, t)
    ensures s' == Exec(p, mid, t) && Leads(p, s, b, s')
  {
    b, s' := a + [t], Exec(p, mid, t);
    assert [t][0] == t && [t][1..] == [];
    assert Runs(p, s', []) && After(p, s', []) == s';
    assert Runs(p, mid, [t]) && After(p, mid, [t]) == s';
    Join(p, s, a, mid, [t], s');
  }

  /** Between locked sections: the producers before `gone` have returned and the others wait; the
      consumers from `lo` up to `hi` have passed their check and the others wait. */
  ghost predicate At(p: Params, s: State, put: nat, get: nat, inserted: nat, consumed: nat,
                     gone: nat, lo: nat, hi: nat)
  {
    && Shape(p, s) && s.holder == Free
    && s.put == put && s.get == get && s.inserted == inserted && s.consumed == consumed
    && s.prods == seq(p.producers, i => if i < gone then PDone else PWait)
    && s.cons == seq(p.consumers, i => if lo <= i < hi then CLock else CWait)
  }

  /** Producer 0 inserts one item. */
  lemma Insert(p: Params, s: State, put: nat, get: nat, inserted: nat, consumed: nat)
    returns (schedule: seq<Thread>, s': State)
    requires At(p, s, put, get, inserted, consumed, 0, 0, 0)
    requires put > 0 && p.producers > 0 && inserted < p.workMax
    ensures Leads(p, s, schedule, s')
    ensures At(p, s', put - 1, get + 1, inserted + 1, consumed, 0, 0, 0)
  {
    var t := Producer(0);
    schedule, s' := [], s;
    schedule, s' := Extend(p, s, schedule, s', t);
    schedule, s' := Extend(p, s, schedule, s', t);
    schedule, s' := Extend(p, s, schedule, s', t);
    schedule, s' := Extend(p, s, schedule, s', t);
    schedule, s' := Extend(p, s, schedule, s', t);
    schedule, s' := Extend(p, s, schedule, s', t);
    schedule, s' := Extend(p, s, schedule, s', t);
    schedule, s' := Extend(p, s, schedule, s', t);
    assert s'.prods == s.prods;
  }

  /** The next producer finds the limit reached and leaves. */
  lemma Exit(p: Params, s: State, put: nat, get: nat, inserted: nat, consumed: nat, gone: nat)
    returns (schedule: seq<Thread>, s': State)
    requires At(p, s, put, get, inserted, consumed, gone, 0, 0)
    requires put > 0 && gone < p.producers && inserted >= p.workMax
    ensures Leads(p, s, schedule, s')
    ensures At(p, s', put, get + 1, inserted, consumed, gone + 1, 0, 0)
  {
    var t := Producer(gone);
    schedule, s' := [], s;
    schedule, s' := Extend(p, s, schedule, s', t);
    schedule, s' := Extend(p, s, schedule, s', t);
    schedule, s' := Extend(p, s, schedule, s', t);
    schedule, s' := Extend(p, s, schedule, s', t);
    assert s'.prods == s.prods[gone := PDone];
  }

  /** The next consumer takes a token and passes its check. */
  lemma Pass(p: Params, s: State, put: nat, get: nat, inserted: nat, consumed: nat, gone: nat, hi: nat)
    returns (schedule: seq<Thread>, s': State)
    requires At(p, s, put, get, inserted, consumed, gone, 0, hi)
    requires get > 0 && hi < p.consumers && consumed < p.workMax
    ensures Leads(p, s, schedule, s')
    ensures At(p, s', put, get - 1, inserted, consumed, gone, 0, hi + 1)
  {
    var t := Consumer(hi);
    schedule, s' := [], s;
    schedule, s' := Extend(p, s, schedule, s', t);
    schedule, s' := Extend(p, s, schedule, s', t);
    assert s'.cons == s.cons[hi := CLock];
  }

  /** The first consumer past its check removes, counts, posts and waits again. */
  lemma Finish(p: Params, s: State, put: nat, get: nat, inserted: nat, consumed: nat, gone: nat, lo: nat, hi: nat)
    returns (schedule: seq<Thread>, s': State)
    requires At(p, s, put, get, inserted, consumed, gone, lo, hi)
    requires lo < hi <= p.consumers
    ensures Leads(p, s, schedule, s')
    ensures At(p, s', put + 1, get, inserted, consumed + 1, gone, lo + 1, hi)
  {
    var t := Consumer(lo);
    schedule, s' := [], s;
    schedule, s' := Extend(p, s, schedule, s', t);
    schedule, s' := Extend(p, s, schedule, s', t);
    schedule, s' := Extend(p, s, schedule, s', t);
    schedule, s' := Extend(p, s, schedule, s', t);
    schedule, s' := Extend(p, s, schedule, s', t);
    assert s'.cons == s.cons[lo := CWait];
  }

  /** `n` items pass through the ring one at a time. */
  lemma {:induction false} Rounds(p: Params, s: State, k: nat, n: nat) returns (schedule: seq<Thread>, s': State)
    requires Sensible(p) && At(p, s, p.queueSize, 0, k, k, 0, 0, 0) && k + n <= p.workMax
    ensures Leads(p, s, schedule, s')
    ensures At(p, s', p.queueSize, 0, k + n, k + n, 0, 0, 0)
    decreases n
  {
    schedule, s' := [], s;
    if n > 0 {
      var a, s1 := Insert(p, s, p.queueSize, 0, k, k);
      var b, s2 := Pass(p, s1, p.queueSize - 1, 1, k + 1, k, 0, 0);
      var c, s3 := Finish(p, s2, p.queueSize - 1, 0, k + 1, k, 0, 0, 1);
      assert s3.cons == seq(p.consumers, i => if 0 <= i < 0 then CLock else CWait);
      var d, s4 := Rounds(p, s3, k + 1, n - 1);
      Join(p, s2, c, s3, d, s4);
      Join(p, s1, b, s2, c + d, s4);
      Join(p, s, a, s1, b + (c + d), s4);
      schedule, s' := a + (b + (c + d)), s4;
    }
  }

  lemma {:induction false} LeaveAll(p: Params, s: State, put: nat, get: nat, inserted: nat, consumed: nat, gone: nat,
    n: nat)
    returns (schedule: seq<Thread>, s': State)
    requires At(p, s, put, get, inserted, consumed, gone, 0, 0)
    requires put > 0 && gone + n <= p.producers && inserted >= p.workMax
    ensures Leads(p, s, schedule, s')
    ensures At(p, s', put, get + n, inserted, consumed, gone + n, 0, 0)
    decreases n
  {
    schedule, s' := [], s;
    if n > 0 {
      var a, s1 := Exit(p, s, put, get, inserted, consumed, gone);
      var b, s2 := LeaveAll(p, s1, put, get + 1, inserted, consumed, gone + 1, n - 1);
      Join(p, s, a, s1, b, s2);
      schedule, s' := a + b, s2;
    }
  }

  lemma {:induction false} PassAll(p: Params, s: State, put: nat, get: nat, inserted: nat, consumed: nat, gone: nat,
                                  hi: nat, n: nat)
    returns (schedule: seq<Thread>, s': State)
    requires At(p, s, put, get, inserted, consumed, gone, 0, hi)
    requires n <= get && hi + n <= p.consumers && consumed < p.workMax
    ensures Leads(p, s, schedule, s')
    ensures At(p, s', put, get - n, inserted, consumed, gone, 0, hi + n)
    decreases n
  {
    schedule, s' := [], s;
    if n > 0 {
      var a, s1 := Pass(p, s, put, get, inserted, consumed, gone, hi);
      var b, s2 := PassAll(p, s1, put, get - 1, inserted, consumed, gone, hi + 1, n - 1);
      Join(p, s, a, s1, b, s2);
      schedule, s' := a + b, s2;
    }
  }

  lemma {:induction false} FinishAll(p: Params, s: State, put: nat, get: nat, inserted: nat, consumed: nat, gone: nat,
                                    lo: nat, n: nat)
    returns (schedule: seq<Thread>, s': State)
    requires At(p, s, put, get, inserted, consumed, gone, lo, lo + n)
    requires lo + n <= p.consumers
    ensures Leads(p, s, schedule, s')
    ensures At(p, s', put + n, get, inserted, consumed + n, gone, lo + n, lo + n)
    decreases n
  {
    schedule, s' := [], s;
    if n > 0 {
      var a, s1 := Finish(p, s, put, get, inserted, consumed, gone, lo, lo + n);
      var b, s2 := FinishAll(p, s1, put + 1, get, inserted, consumed + 1, gone, lo + 1, n - 1);
      Join(p, s, a, s1, b, s2);
      schedule, s' := a + b, s2;
    }
  }

  ghost function StartState(p: Params): (s: State)
    requires p.queueSize > 0
    ensures Init(p, s)
  {
    State(p.queueSize, 0, Free, Ring(seq(p.queueSize, i => 0), 0, 0, false, true), 0, 0,
          seq(p.producers, i => PWait), seq(p.consumers, i => CWait), [])
  }

  /** All items but one have passed through, the last is in the ring, and `n` producers have left. */
  lemma LastItemInRing(p: Params, n: nat) returns (schedule: seq<Thread>, s: State)
    requires Sensible(p) && p.queueSize >= 2 && p.workMax >= 1 && n <= p.producers
    ensures Reaches(p, StartState(p), schedule, s)
    ensures At(p, s, p.queueSize - 1, 1 + n, p.workMax, p.workMax - 1, n, 0, 0)
  {
    var s0 := StartState(p);
    assert At(p, s0, p.queueSize, 0, 0, 0, 0, 0, 0);
    var a, s1 := Rounds(p, s0, 0, p.workMax - 1);
    var b, s2 := Insert(p, s1, p.queueSize, 0, p.workMax - 1, p.workMax - 1);
    var c, s3 := LeaveAll(p, s2, p.queueSize - 1, 1, p.workMax, p.workMax - 1, 0, n);
    Join(p, s1, b, s2, c, s3);
    Join(p, s0, a, s1, b + c, s3);
    schedule, s := a + (b + c), s3;
  }

  /** With more consumers than producers, one more consumer than there are producers can pass the check
      at workMax - 1; they swallow every token and all wait for ever. */
  lemma StuckRun(p: Params) returns (schedule: seq<Thread>, s: State)
    requires Sensible(p) && !CascadeReachesAll(p)
    ensures Reaches(p, StartState(p), schedule, s) && Stuck(s)
  {
    var n := p.producers;
    var a, s1 := LastItemInRing(p, n);
    var b, s2 := PassAll(p, s1, p.queueSize - 1, 1 + n, p.workMax, p.workMax - 1, n, 0, 1 + n);
    var c, s3 := FinishAll(p, s2, p.queueSize - 1, 0, p.workMax, p.workMax - 1, n, 0, 1 + n);
    Join(p, s1, b, s2, c, s3);
    Join(p, StartState(p), a, s1, b + c, s3);
    schedule, s := a + (b + c), s3;
    assert Exists(s, Consumer(0)) && !Returned(s, Consumer(0));
  }

  /** With two slots and two consumers, a leaving producer's extra token lets a second consumer in. */
  lemma UnderflowRun(p: Params) returns (schedule: seq<Thread>, s: State)
    requires Sensible(p) && !SingleFile(p)
    ensures Reaches(p, StartState(p), schedule, s) && Underflows(s, 1)
  {
    var a, s1 := LastItemInRing(p, 1);
    var b, s2 := PassAll(p, s1, p.queueSize - 1, 2, p.workMax, p.workMax - 1, 1, 0, 2);
    var c, s3 := Finish(p, s2, p.queueSize - 1, 0, p.workMax, p.workMax - 1, 1, 0, 2);
    var d, s4 := Extend(p, s2, c, s3, Consumer(1));
    Join(p, s1, b, s2, d, s4);
    Join(p, StartState(p), a, s1, b + d, s4);
    schedule, s := a + (b + d), s4;
  }

  /** The exact condition for the exit cascade: a run can block for ever if and only if there are more
      consumers than producers, at least two slots and some work. */
  lemma StuckIff(p: Params)
    requires Sensible(p)
    ensures (exists s0, schedule, s :: Reaches(p, s0, schedule, s) && Stuck(s))
       <==> p.consumers > p.producers && p.queueSize >= 2 && p.workMax >= 1
  {
    if CascadeReachesAll(p) {
      forall s0, schedule, s | Reaches(p, s0, schedule, s) ensures !Stuck(s) {
        NeverStuck(p, s0, schedule, s);
      }
    } else {
      var schedule, s := StuckRun(p);
    }
  }

  /** The exact condition for a removal from an empty ring. */
  lemma UnderflowIff(p: Params)
    requires Sensible(p)
    ensures (exists s0, schedule, s, i :: Reaches(p, s0, schedule, s) && Underflows(s, i))
       <==> p.consumers >= 2 && p.queueSize >= 2 && p.workMax >= 1
  {
    if SingleFile(p) {
      forall s0, schedule, s, i | Reaches(p, s0, schedule, s) ensures !Underflows(s, i) {
        SingleFileNeverUnderflows(p, s0, schedule, s, i);
      }
    } else {
      var schedule, s := UnderflowRun(p);
    }
  }
}
