/** Bash's indexed arrays as values: the entries of an array in index order, the operations on them, and
    the plain map from index to value that they stand for.
 */
module ArrayModel {
  /** A C string pointer, which may be null. */
  datatype Value = Null | Text(chars: string)

  datatype Entry = Entry(ind: int, value: Value)

  /** Indices strictly increase along the list. */
  ghost predicate Ordered(c: seq<Entry>) {
    forall j, k :: 0 <= j < k < |c| ==> c[j].ind < c[k].ind
  }

  ghost predicate NonNegative(c: seq<Entry>) {
    forall k :: 0 <= k < |c| ==> c[k].ind >= 0
  }

  /** The map an array stands for. */
  function AsMap(c: seq<Entry>): map<int, Value> {
    if c == [] then map[] else AsMap(c[1..])[c[0].ind := c[0].value]
  }

  /** What reading a map at an index gives; a missing entry and a null value look alike. */
  function Fetch(m: map<int, Value>, i: int): Value {
    if i in m then m[i] else Null
  }

  /** An insertion fails only for a negative index into an empty array. */
  predicate Accepts(c: seq<Entry>, i: int) {
    c != [] || i >= 0
  }

  function Inserted(c: seq<Entry>, i: int, v: Value): seq<Entry> {
    if c == [] || i < c[0].ind then [Entry(i, v)] + c
    else if c[0].ind == i then [Entry(i, v)] + c[1..]
    else [c[0]] + Inserted(c[1..], i, v)
  }

  function Removed(c: seq<Entry>, i: int): seq<Entry> {
    if c == [] || i < c[0].ind then c
    else if c[0].ind == i then c[1..]
    else [c[0]] + Removed(c[1..], i)
  }

  /** Every index moved by `d`. */
  function Moved(c: seq<Entry>, d: int): (r: seq<Entry>)
    ensures |r| == |c|
    ensures forall k :: 0 <= k < |c| ==> r[k] == Entry(c[k].ind + d, c[k].value)
  {
    if c == [] then [] else [Entry(c[0].ind + d, c[0].value)] + Moved(c[1..], d)
  }

  /** The indices at positions `from` to `to` moved by `d`. */
  ghost function MovedBetween(c: seq<Entry>, from: nat, to: nat, d: int): (r: seq<Entry>)
    ensures |r| == |c|
  {
    seq(|c|, j requires 0 <= j < |c| => if from <= j < to then Entry(c[j].ind + d, c[j].value) else c[j])
  }

  lemma MovedBetweenStep(c: seq<Entry>, from: nat, k: nat, d: int)
    requires from <= k < |c|
    ensures MovedBetween(c, from, k, d)[k] == c[k]
    ensures MovedBetween(c, from, k + 1, d) == MovedBetween(c, from, k, d)[k := Entry(c[k].ind + d, c[k].value)]
  {
  }

  lemma MovedBetweenEnds(c: seq<Entry>, from: nat, d: int)
    requires from <= |c|
    ensures MovedBetween(c, from, from, d) == c
    ensures MovedBetween(c, from, |c|, d) == c[..from] + Moved(c[from..], d)
  {
  }

  /** The first `n` entries dropped and `n` taken from the indices of the others. */
  function Shifted(c: seq<Entry>, n: int): seq<Entry> {
    if n <= 0 then c else if n >= |c| then [] else Moved(c[n..], -n)
  }

  /** Every index raised by `n`, with `s`, unless null, at index 0 in front. */
  function Rshifted(c: seq<Entry>, n: int, s: Value): seq<Entry> {
    if n <= 0 then c else if s.Null? then Moved(c, n) else [Entry(0, s)] + Moved(c, n)
  }

  /** Every key of the map is at least the first index. */
  lemma {:induction false} FirstIsLeast(c: seq<Entry>, i: int)
    requires Ordered(c) && i in AsMap(c)
    ensures c[0].ind <= i
  {
    if i != c[0].ind {
      FirstIsLeast(c[1..], i);
      assert c[1..][0] == c[1];
    }
  }

  /** Where a search that passes the entries below `i` stops: the map has the index there or nowhere. */
  lemma {:induction false} MapAtStop(c: seq<Entry>, i: int, k: nat)
    requires Ordered(c) && k <= |c|
    requires k > 0 ==> c[k - 1].ind < i
    requires k < |c| ==> c[k].ind >= i
    ensures i in AsMap(c) <==> k < |c| && c[k].ind == i
    ensures k < |c| && c[k].ind == i ==> AsMap(c)[i] == c[k].value
    decreases |c|
  {
    if k > 0 {
      MapAtStop(c[1..], i, k - 1);
    } else if i in AsMap(c) {
      FirstIsLeast(c, i);
    }
  }

  /** The ordered list is determined by the map it stands for. */
  lemma {:induction false} MapDeterminesEntries(c: seq<Entry>, d: seq<Entry>)
    requires Ordered(c) && Ordered(d) && AsMap(c) == AsMap(d)
    ensures c == d
    decreases |c|
  {
    assert c != [] ==> c[0].ind in AsMap(c);
    assert d != [] ==> d[0].ind in AsMap(d);
    if c != [] {
      var x, y := c[0], d[0];
      FirstIsLeast(c, y.ind);
      FirstIsLeast(d, x.ind);
      assert x == y;
      MapAtStop(c[1..], x.ind, 0);
      MapAtStop(d[1..], x.ind, 0);
      assert AsMap(c[1..]) == AsMap(c) - {x.ind} == AsMap(d[1..]);
      MapDeterminesEntries(c[1..], d[1..]);
      assert c == [x] + c[1..] && d == [y] + d[1..];
    }
  }

  lemma OrderedCons(x: Entry, c: seq<Entry>)
    requires Ordered(c) && (c != [] ==> x.ind < c[0].ind)
    ensures Ordered([x] + c)
  {
  }

  lemma OrderedTail(c: seq<Entry>)
    requires Ordered(c) && c != []
    ensures Ordered(c[1..])
    ensures |c| > 1 ==> c[0].ind < c[1].ind
  {
  }

  /** Inserting is the map update, keeps the order, and adds an entry exactly when the index was absent. */
  lemma {:induction false} InsertUpdatesMap(c: seq<Entry>, i: int, v: Value)
    requires Ordered(c)
    ensures Ordered(Inserted(c, i, v))
    ensures AsMap(Inserted(c, i, v)) == AsMap(c)[i := v]
    ensures |Inserted(c, i, v)| == |c| + (if i in AsMap(c) then 0 else 1)
    ensures Inserted(c, i, v)[0].ind == i || (c != [] && Inserted(c, i, v)[0] == c[0])
  {
    hide Ordered;
    var r := Inserted(c, i, v);
    if c == [] || i < c[0].ind {
      MapAtStop(c, i, 0);
      OrderedCons(Entry(i, v), c);
      assert r[1..] == c;
    } else {
      OrderedTail(c);
      var t := if c[0].ind == i then c[1..] else Inserted(c[1..], i, v);
      if c[0].ind < i {
        InsertUpdatesMap(c[1..], i, v);
      }
      OrderedCons(r[0], t);
      assert r[1..] == t;
    }
  }

  /** Removing deletes the key and nothing else, and keeps the order. */
  lemma {:induction false} RemoveDeletesKey(c: seq<Entry>, i: int)
    requires Ordered(c)
    ensures Ordered(Removed(c, i))
    ensures AsMap(Removed(c, i)) == AsMap(c) - {i}
    ensures |Removed(c, i)| == |c| - (if i in AsMap(c) then 1 else 0)
    ensures Removed(c, i) != [] ==> Removed(c, i)[0].ind >= c[0].ind
  {
    hide Ordered;
    if c == [] || i < c[0].ind {
      MapAtStop(c, i, 0);
    } else {
      OrderedTail(c);
      if c[0].ind == i {
        MapAtStop(c[1..], i, 0);
      } else {
        RemoveDeletesKey(c[1..], i);
        OrderedCons(c[0], Removed(c[1..], i));
        assert Removed(c, i)[1..] == Removed(c[1..], i);
      }
    }
  }

  lemma {:induction false} Absent(c: seq<Entry>, i: int)
    requires i !in AsMap(c)
    ensures Removed(c, i) == c
  {
    if c != [] {
      Absent(c[1..], i);
    }
  }

  lemma InsertedAtEnd(c: seq<Entry>, i: int, v: Value)
    requires Ordered(c) && (c != [] ==> c[|c| - 1].ind < i)
    ensures Inserted(c, i, v) == c + [Entry(i, v)]
  {
    InsertedAtStop(c, i, v, |c|);
  }

  lemma OrderedWith(c: seq<Entry>, k: nat, x: Entry)
    requires Ordered(c) && k <= |c|
    requires (k > 0 ==> c[k - 1].ind < x.ind) && (k < |c| ==> x.ind < c[k].ind)
    ensures Ordered(c[..k] + [x] + c[k..])
    ensures k == |c| ==> c[..k] + [x] + c[k..] == c + [x]
  {
  }

  lemma OrderedWithout(c: seq<Entry>, k: nat)
    requires Ordered(c) && k < |c|
    ensures Ordered(c[..k] + c[k + 1..])
    ensures forall j :: 0 <= j < k ==> c[j].ind < c[k].ind
    ensures forall j :: k < j < |c| ==> c[k].ind < c[j].ind
  {
  }

  lemma SameIndices(c: seq<Entry>, d: seq<Entry>)
    requires Ordered(c) && |c| == |d| && forall k :: 0 <= k < |c| ==> d[k].ind == c[k].ind
    ensures Ordered(d)
  {
  }

  /** Insertion at the place where a search that passes the entries below `i` stops. */
  lemma {:induction false} InsertedAtStop(c: seq<Entry>, i: int, v: Value, k: nat)
    requires k <= |c| && (forall j :: 0 <= j < k ==> c[j].ind < i)
    requires k < |c| ==> c[k].ind >= i
    ensures Inserted(c, i, v)
         == c[..k] + [Entry(i, v)] + c[if k < |c| && c[k].ind == i then k + 1 else k..]
  {
    if k > 0 {
      InsertedAtStop(c[1..], i, v, k - 1);
    }
  }

  /** Removal at that place. */
  lemma {:induction false} RemovedAtStop(c: seq<Entry>, i: int, k: nat)
    requires k <= |c| && (forall j :: 0 <= j < k ==> c[j].ind < i)
    requires k < |c| ==> c[k].ind >= i
    ensures Removed(c, i) == c[..k] + c[if k < |c| && c[k].ind == i then k + 1 else k..]
  {
    if k > 0 {
      RemovedAtStop(c[1..], i, k - 1);
    }
  }

  lemma {:induction false} OperationsKeepSign(c: seq<Entry>, i: int, v: Value)
    requires NonNegative(c)
    ensures i >= 0 ==> NonNegative(Inserted(c, i, v))
    ensures NonNegative(Removed(c, i))
  {
    if c != [] {
      OperationsKeepSign(c[1..], i, v);
    }
  }

  /** Shifting a non-negative array left keeps it ordered and non-negative: the entry at position n has an
      index of at least n. */
  lemma {:induction false} IndexAtLeastPosition(c: seq<Entry>, k: nat)
    requires Ordered(c) && NonNegative(c) && k < |c|
    ensures c[k].ind >= k
  {
    if k > 0 {
      IndexAtLeastPosition(c, k - 1);
    }
  }

  lemma ShiftKeepsOrder(c: seq<Entry>, n: int)
    requires Ordered(c)
    ensures Ordered(Shifted(c, n))
    ensures |Shifted(c, n)| == if n <= 0 then |c| else if n >= |c| then 0 else |c| - n
    ensures NonNegative(c) ==> NonNegative(Shifted(c, n))
  {
    if NonNegative(c) && 0 < n < |c| {
      IndexAtLeastPosition(c, n);
    }
  }

  /** Moving every index moves every key. */
  lemma {:induction false} MovedMap(c: seq<Entry>, d: int, i: int)
    ensures i in AsMap(Moved(c, d)) <==> i - d in AsMap(c)
    ensures i in AsMap(Moved(c, d)) ==> AsMap(Moved(c, d))[i] == AsMap(c)[i - d]
  {
    if c != [] {
      MovedMap(c[1..], d, i);
      assert Moved(c, d)[1..] == Moved(c[1..], d);
    }
  }

  lemma {:induction false} DroppedMap(c: seq<Entry>, n: nat, i: int)
    requires Ordered(c) && n < |c|
    ensures i in AsMap(c[n..]) <==> i in AsMap(c) && i >= c[n].ind
    ensures i in AsMap(c[n..]) ==> AsMap(c[n..])[i] == AsMap(c)[i]
  {
    if n == 0 {
      assert c[0..] == c;
      if i in AsMap(c) {
        FirstIsLeast(c, i);
      }
    } else {
      DroppedMap(c[1..], n - 1, i);
      assert c[1..][n - 1..] == c[n..];
    }
  }

  /** A left shift by n keeps the keys from the (n+1)st on, each n lower. */
  lemma ShiftedMap(c: seq<Entry>, n: int, i: int)
    requires Ordered(c) && 0 < n < |c|
    ensures i in AsMap(Shifted(c, n)) <==> i + n in AsMap(c) && i + n >= c[n].ind
    ensures i in AsMap(Shifted(c, n)) ==> AsMap(Shifted(c, n))[i] == AsMap(c)[i + n]
  {
    hide Ordered, AsMap, Moved;
    MovedMap(c[n..], -n, i);
    DroppedMap(c, n, i + n);
  }

  /** A right shift raises every key by n and puts the new value at 0. */
  lemma RshiftedMap(c: seq<Entry>, n: int, s: Value, i: int)
    requires n > 0
    ensures i in AsMap(Rshifted(c, n, s)) <==> i - n in AsMap(c) || (i == 0 && s.Text?)
    ensures i in AsMap(Rshifted(c, n, s)) ==>
      AsMap(Rshifted(c, n, s))[i] == if i == 0 && s.Text? then s else AsMap(c)[i - n]
  {
    MovedMap(c, n, i);
    assert ([Entry(0, s)] + Moved(c, n))[1..] == Moved(c, n);
  }

  /** Shifting right keeps the order exactly when the new first entry stays below the old one. */
  lemma RshiftKeepsOrderIff(c: seq<Entry>, n: int, s: Value)
    requires Ordered(c)
    ensures Ordered(Rshifted(c, n, s)) <==> (s.Text? && n > 0 && c != [] ==> c[0].ind + n > 0)
    ensures NonNegative(c) ==> Ordered(Rshifted(c, n, s)) && NonNegative(Rshifted(c, n, s))
  {
    var r := Rshifted(c, n, s);
    if n > 0 && s.Text? && c != [] {
      assert r[0].ind == 0 && r[1].ind == c[0].ind + n;
    }
  }

  lemma RshiftedParts(c: seq<Entry>, n: int, s: Value)
    ensures n <= 0 || (c == [] && s.Null?) ==> Rshifted(c, n, s) == c
    ensures n > 0 && s.Null? ==> Rshifted(c, n, s) == c[..0] + Moved(c[0..], n)
    ensures n > 0 && s.Text? ==>
      var d := [Entry(0, s)] + c;
      Rshifted(c, n, s) == d[..1] + Moved(d[1..], n)
  {
    assert c[0..] == c;
    assert ([Entry(0, s)] + c)[1..] == c;
  }

  /** Pushing a value in front and popping it again restores the array. */
  lemma PushThenPop(c: seq<Entry>, s: string)
    ensures Rshifted(c, 1, Text(s))[0] == Entry(0, Text(s))
    ensures Shifted(Rshifted(c, 1, Text(s)), 1) == c
  {
  }

  /** Popping and pushing the popped value back restores the array exactly when it began at index 0. */
  lemma PopThenPushIff(c: seq<Entry>, s: string)
    requires Ordered(c) && c != []
    ensures Rshifted(Shifted(c, 1), 1, Text(s)) == c <==> c[0] == Entry(0, Text(s))
  {
    var r := Rshifted(Shifted(c, 1), 1, Text(s));
    assert r[0] == Entry(0, Text(s));
    if c[0] == Entry(0, Text(s)) {
      assert |r| == |c|;
      assert forall k :: 0 <= k < |c| ==> r[k] == c[k];
    }
  }
}
