/** The shared ring buffer: `queueInit`, `queueAdd` and `queueRemove`.

    `Ring` is the value of the structure; `Queue` is the structure itself, updated in place. The two
    operations are unguarded in the program, so they are total on every well-formed ring: adding to a
    full ring and removing from an empty one are defined, and the lemmas say what they lose.
 */
module RingQueue {

  datatype Ring = Ring(buf: seq<int>, head: nat, tail: nat, full: bool, empty: bool) {

    predicate WellFormed() {
      head < |buf| && tail < |buf|
    }

    /** The index after `i`, wrapping at the end of the buffer. */
    function Next(i: nat): nat
      requires i < |buf|
    {
      if i + 1 == |buf| then 0 else i + 1
    }

    function Add(item: int): Ring
      requires WellFormed()
    {
      var tail' := Next(tail);
      Ring(buf[tail := item], head, tail', full || tail' == head, false)
    }

    function Remove(): (Ring, int)
      requires WellFormed()
    {
      var head' := Next(head);
      (Ring(buf, head', tail, false, empty || head' == tail), buf[head])
    }
  }

  /** The slot `k` places after `head`, for `k` up to the capacity. */
  function Slot(head: nat, k: nat, capacity: nat): nat
    requires head < capacity && k <= capacity
  {
    if head + k < capacity then head + k else head + k - capacity
  }

  /** Ring `r` holds exactly the items `q`, oldest first, and its two flags tell the truth. */
  ghost predicate Represents(r: Ring, q: seq<int>) {
    && r.WellFormed()
    && |q| <= |r.buf|
    && (forall k: nat | k < |q| :: r.buf[Slot(r.head, k, |r.buf|)] == q[k])
    && r.tail == Slot(r.head, |q|, |r.buf|)
    && (r.empty <==> |q| == 0)
    && (r.full <==> |q| == |r.buf|)
  }

  /** Adding enqueues exactly when the ring is not full. */
  lemma AddEnqueues(r: Ring, q: seq<int>, item: int)
    requires Represents(r, q)
    ensures Represents(r.Add(item), q + [item]) <==> !r.full
  {
    if !r.full {
      var r', q' := r.Add(item), q + [item];
      forall k: nat | k < |q'| ensures r'.buf[Slot(r'.head, k, |r'.buf|)] == q'[k] {
        if k < |q| {
          assert r.buf[Slot(r.head, k, |r.buf|)] == q[k];
        }
      }
    }
  }

  /** Removing dequeues the oldest item, for every ring that is not empty. */
  lemma RemoveDequeues(r: Ring, q: seq<int>)
    requires Represents(r, q) && !r.empty
    ensures Represents(r.Remove().0, q[1..])
    ensures r.Remove().1 == q[0]
  {
    var (r', item) := r.Remove();
    var q' := q[1..];
    assert r.buf[Slot(r.head, 0, |r.buf|)] == q[0];
    forall k: nat | k < |q'| ensures r'.buf[Slot(r'.head, k, |r'.buf|)] == q'[k] {
      assert r.buf[Slot(r.head, k + 1, |r.buf|)] == q[k + 1];
    }
  }

  /** Removing from an empty ring with room for two leaves a ring that holds no queue of any length:
      the flags say "not full" and "empty" while head and tail differ. */
  lemma RemoveFromEmptyCorrupts(r: Ring, q: seq<int>)
    requires Represents(r, []) && |r.buf| >= 2
    ensures !Represents(r.Remove().0, q)
  {
  }

  /** A represented ring determines its contents. */
  lemma RepresentsUnique(r: Ring, q1: seq<int>, q2: seq<int>)
    requires Represents(r, q1) && Represents(r, q2)
    ensures q1 == q2
  {
    forall k: nat | k < |q1| && k < |q2| ensures q1[k] == q2[k] {
      assert r.buf[Slot(r.head, k, |r.buf|)] == q1[k];
    }
  }

  /** The structure the threads share. */
  class Queue {
    const buf: array<int>
    var head: nat
    var tail: nat
    var full: bool
    var empty: bool

    ghost function View(): Ring
      reads this, buf
    {
      Ring(buf[..], head, tail, full, empty)
    }

    constructor (capacity: nat)
      requires capacity > 0
      ensures fresh(buf) && buf.Length == capacity
      ensures Represents(View(), []) && head == 0
    {
      buf := new int[capacity];
      empty, full := true, false;
      head, tail := 0, 0;
    }

    method QueueAdd(item: int)
      requires View().WellFormed()
      modifies this, buf
      ensures View() == old(View()).Add(item)
    {
      buf[tail] := item;
      tail := tail + 1;
      if tail == buf.Length {
        tail := 0;
      }
      if tail == head {
        full := true;
      }
      empty := false;
    }

    method QueueRemove() returns (item: int)
      requires View().WellFormed()
      modifies this
      ensures (View(), item) == old(View()).Remove()
    {
      item := buf[head];
      head := head + 1;
      if head == buf.Length {
        head := 0;
      }
      if head == tail {
        empty := true;
      }
      full := false;
    }
  }
}
