/** `mkseq`: the terms of a sequence such as `1..10..3`. */
module BraceSequence {
  import opened Division

  function Abs(x: int): nat {
    if x < 0 then -x else x
  }

  /** The step actually taken: never zero, and towards `end`. */
  function StepOf(start: int, end: int, incr: int): (step: int)
    ensures step != 0 && Abs(step) == if incr == 0 then 1 else Abs(incr)
    ensures start > end ==> step < 0
    ensures start < end ==> step > 0
  {
    var i := if incr == 0 then 1 else incr;
    if (start > end && i > 0) || (start < end && i < 0) then -i else i
  }

  /** How many terms there are. */
  function TermCount(start: int, end: int, incr: int): (n: nat)
    ensures 1 <= n <= Abs(end - start) + 1
  {
    var d, m := Abs(end - start), if incr == 0 then 1 else Abs(incr);
    QuotientBound(d, m);
    d / m + 1
  }

  lemma QuotientBound(d: nat, m: nat)
    requires m > 0
    ensures 0 <= d / m <= d && (d / m) * m <= d < (d / m + 1) * m
  {
    var q := d / m;
    assert d == q * m + d % m;
    Times(1, m, q);
  }

  /** The terms, the k-th being `k` steps from `start`. */
  function Terms(start: int, end: int, incr: int): seq<int> {
    seq(TermCount(start, end, incr), k => start + k * StepOf(start, end, incr))
  }

  predicate Between(start: int, end: int, n: int) {
    start <= n <= end || end <= n <= start
  }

  /** A number of whole steps stays within the bounds exactly when it is less than the count. */
  lemma StepsStayInside(start: int, end: int, incr: int, k: nat)
    ensures Between(start, end, start + k * StepOf(start, end, incr)) <==> k < TermCount(start, end, incr)
    ensures var step := StepOf(start, end, incr); if step > 0 then k * step >= 0 else k * step <= 0
  {
    var d, m, step := Abs(end - start), if incr == 0 then 1 else Abs(incr), StepOf(start, end, incr);
    var q := d / m;
    QuotientBound(d, m);
    assert k * m <= d <==> k <= q by {
      if k <= q { Times(k, q, m); } else { Times(q + 1, k, m); }
    }
    assert k * step == if step > 0 then k * m else -(k * m) by {
      if step < 0 { assert k * (-m) == -(k * m); }
    }
  }

  // ---------------------------------------------------------------- the result vector

  const INT_RANGE: int := 0x1_0000_0000
  const INT_MAX: int := 0x7FFF_FFFF

  /** What the type `int`, of 32 bits, keeps of an integer. */
  function CInt(n: int): (c: int)
    ensures -INT_MAX - 1 <= c <= INT_MAX
    ensures -INT_MAX - 1 <= n <= INT_MAX ==> c == n
  {
    (n + INT_MAX + 1) % INT_RANGE - INT_MAX - 1
  }

  /** How many entries the vector gets: `abs` takes and gives an `int`, and one is added twice. */
  function Slots(start: int, end: int): int {
    CInt(CInt(CInt(Abs(CInt(end - start))) + 1) + 1)
  }

  /** The terms and the terminator fit exactly when the truncated distance leaves room for the two additions and
      is at least as large as the number of steps. */
  predicate SlotsSuffice(start: int, end: int, incr: int) {
    Abs(CInt(end - start)) <= INT_MAX - 2 && TermCount(start, end, incr) - 1 <= Abs(CInt(end - start))
  }

  lemma SlotsSufficeIff(start: int, end: int, incr: int)
    ensures TermCount(start, end, incr) + 1 <= Slots(start, end) <==> SlotsSuffice(start, end, incr)
  {
    hide CInt, TermCount;
    var a := Abs(CInt(end - start));
    if a == INT_MAX + 1 {
      Wraps(a);
    } else if a == INT_MAX {
      Wraps(a + 1);
    } else if a == INT_MAX - 1 {
      Wraps(a + 2);
    }
  }

  lemma Wraps(n: int)
    requires n == INT_MAX + 1
    ensures CInt(n) == -INT_MAX - 1
  {
  }

  /** In steps of one, that is exactly a distance of less than the largest `int` by two. */
  lemma UnitStepsSufficeIff(start: int, end: int, incr: int)
    requires incr in {-1, 0, 1}
    ensures TermCount(start, end, incr) + 1 <= Slots(start, end) <==> Abs(end - start) <= INT_MAX - 2
  {
    SlotsSufficeIff(start, end, incr);
    assert TermCount(start, end, incr) == Abs(end - start) + 1;
  }

  /** `{0..4294967296}` has two slots for 4294967297 terms; `{0..2147483646}` asks for a negative number. */
  lemma TooFewSlots()
    ensures Slots(0, 0x1_0000_0000) == 2 && TermCount(0, 0x1_0000_0000, 1) == 0x1_0000_0001
    ensures Slots(0, 0x7FFF_FFFE) < 0
  {
    Wraps(0x8000_0000);
  }

  // ---------------------------------------------------------------- in machine integers

  const MAX: int := 0x7FFF_FFFF_FFFF_FFFF

  predicate Fits(n: int) {
    -MAX - 1 <= n <= MAX
  }

  /** What an addition that overflows leaves. */
  function Wrap(n: int): int {
    if n > MAX then n - 2 * (MAX + 1) else if n < -MAX - 1 then n + 2 * (MAX + 1) else n
  }

  predicate PastEnd(n: int, end: int, step: int) {
    (step < 0 && n < end) || (step > 0 && n > end)
  }

  /** With the counter in 64 bits: no term overflows and the loop does not end before the last one; it ends there
      if and only if one more step still fits. Otherwise the counter wraps round and the loop goes on. */
  lemma LoopEndsIff(start: int, end: int, incr: int, k: nat)
    requires Fits(start) && Fits(end) && Fits(StepOf(start, end, incr)) && k <= TermCount(start, end, incr)
    ensures var step := StepOf(start, end, incr); var n := start + k * step;
      && (k < TermCount(start, end, incr) ==> Fits(n) && !PastEnd(Wrap(n), end, step))
      && (k == TermCount(start, end, incr) ==> (PastEnd(Wrap(n), end, step) <==> Fits(n)))
  {
    var step := StepOf(start, end, incr);
    StepsStayInside(start, end, incr, k);
    if k > 0 {
      StepsStayInside(start, end, incr, k - 1);
      assert start + k * step == start + (k - 1) * step + step;
    }
  }

  /** From the last number but one to the last: behind the second term the counter wraps round to the smallest
      number, and the loop goes on. */
  lemma LoopRunsOn()
    ensures TermCount(MAX - 1, MAX, 1) == 2
    ensures var n := Wrap(MAX - 1 + 2 * StepOf(MAX - 1, MAX, 1));
      n == -MAX - 1 && !PastEnd(n, MAX, StepOf(MAX - 1, MAX, 1))
  {
  }

  // ---------------------------------------------------------------- the loop

  /** The loop, with a 64-bit counter, followed for at most `limit` rounds; `ended` says that it ended by itself.
      The number of entries that the vector was allocated with counts one for the terminator. */
  method MkSeq(start: int, end: int, incr0: int, limit: nat) returns (result: seq<int>, slots: int, ended: bool)
    requires Fits(start) && Fits(end) && Abs(incr0) <= MAX && limit > 0
    ensures |result| <= limit && (!ended ==> |result| == limit)
    ensures var terms := Terms(start, end, incr0);
      && (if |result| <= |terms| then result == terms[..|result|] else result[..|terms|] == terms)
      && (ended && |result| <= |terms| ==> result == terms)
      && (ended && |result| <= |terms| <==> LastStepFits(start, end, incr0) && limit >= |terms|)
    ensures forall k: nat | k < |result| && k < TermCount(start, end, incr0) :: Between(start, end, result[k])
    ensures !Between(start, end, start + TermCount(start, end, incr0) * StepOf(start, end, incr0))
    ensures slots == Slots(start, end)
    ensures TermCount(start, end, incr0) + 1 <= slots <==> SlotsSuffice(start, end, incr0)
  {
    hide CInt, SlotsSuffice, TermCount, Wrap, Fits, Between;
    var i := CInt(CInt(Abs(CInt(end - start))) + 1);
    slots := CInt(i + 1);
    SlotsSufficeIff(start, end, incr0);
    var incr := incr0;
    if incr == 0 {
      incr := 1;
    }
    if start > end && incr > 0 {
      incr := -incr;
    } else if start < end && incr < 0 {
      incr := -incr;
    }
    ghost var terms := Terms(start, end, incr0);
    StepFits(start, end, incr0);
    result, ended := [], false;
    var n := start;
    while !ended && |result| < limit
      invariant |result| <= limit && (ended ==> result != [])
      invariant incr == StepOf(start, end, incr0)
      invariant if |result| <= |terms| then result == terms[..|result|] else result[..|terms|] == terms
      invariant |result| <= |terms| ==> n == Wrap(start + |result| * incr)
      invariant |result| <= |terms| ==> (ended <==> |result| == |terms| && LastStepFits(start, end, incr0))
      invariant |result| > |terms| ==> !LastStepFits(start, end, incr0)
      decreases !ended, limit - |result|
    {
      if |result| < |terms| {
        NextCount(start, end, incr0, |result|);
      }
      result := result + [n];
      n := Wrap(n + incr);
      if (incr < 0 && n < end) || (incr > 0 && n > end) {
        ended := true;
      }
    }
    TermsStayInside(start, end, incr0, result);
  }

  lemma TermsStayInside(start: int, end: int, incr: int, result: seq<int>)
    requires var terms := Terms(start, end, incr);
      if |result| <= |terms| then result == terms[..|result|] else result[..|terms|] == terms
    ensures forall k: nat | k < |result| && k < TermCount(start, end, incr) :: Between(start, end, result[k])
    ensures !Between(start, end, start + TermCount(start, end, incr) * StepOf(start, end, incr))
  {
    hide TermCount, Between;
    var terms := Terms(start, end, incr);
    StepsStayInside(start, end, incr, |terms|);
    forall k: nat | k < |result| && k < |terms| ensures Between(start, end, result[k]) {
      StepsStayInside(start, end, incr, k);
      assert result[k] == terms[k];
    }
  }

  /** One more step behind the last term is still a 64-bit number. */
  predicate LastStepFits(start: int, end: int, incr: int) {
    Fits(start + TermCount(start, end, incr) * StepOf(start, end, incr))
  }

  lemma StepFits(start: int, end: int, incr: int)
    requires Abs(incr) <= MAX && Fits(start)
    ensures Fits(StepOf(start, end, incr)) && TermCount(start, end, incr) >= 1
    ensures Wrap(start + 0 * StepOf(start, end, incr)) == start
  {
    hide TermCount;
  }

  /** The counter after `k` rounds is the k-th term, and whether the next round is the last is decided by the
      step behind it. */
  lemma NextCount(start: int, end: int, incr: int, k: nat)
    requires Fits(start) && Fits(end) && Fits(StepOf(start, end, incr)) && k < TermCount(start, end, incr)
    ensures var step := StepOf(start, end, incr);
      && Wrap(start + k * step) == start + k * step == Terms(start, end, incr)[k]
      && Wrap(Wrap(start + k * step) + step) == Wrap(start + (k + 1) * step)
      && (PastEnd(Wrap(start + (k + 1) * step), end, step) <==>
            k + 1 == TermCount(start, end, incr) && LastStepFits(start, end, incr))
  {
    var step := StepOf(start, end, incr);
    LoopEndsIff(start, end, incr, k);
    LoopEndsIff(start, end, incr, k + 1);
    assert (k + 1) * step == k * step + step;
  }
}
