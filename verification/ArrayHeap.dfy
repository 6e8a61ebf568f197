/** One indexed array as the program keeps it: a circular doubly linked list with a sentinel, renumbered and
    relinked in place. Every operation is proved to act on the entries as ArrayModel says and to leave the
    links, the count and the largest index exact.
 */
module ArrayHeap {
  import opened ArrayModel

  ghost predicate Distinct(s: seq<Element>) {
    forall j, k :: 0 <= j < k < |s| ==> s[j] != s[k]
  }

  lemma DistinctAt(s: seq<Element>, k: nat)
    requires Distinct(s) && k < |s|
    ensures forall j :: 0 <= j < |s| && j != k ==> s[j] != s[k]
  {
  }

  lemma RemoveKeepsDistinct(s: seq<Element>, k: nat)
    requires Distinct(s) && k < |s|
    ensures Distinct(s[..k] + s[k + 1..]) && s[k] !in s[..k] + s[k + 1..]
  {
  }

  lemma InsertKeepsDistinct(s: seq<Element>, k: nat, e: Element)
    requires Distinct(s) && k <= |s| && e !in s
    ensures Distinct(s[..k] + [e] + s[k..])
  {
  }

  lemma MembersWith(s: seq<Element>, k: nat, e: Element)
    requires k <= |s|
    ensures forall x :: x in s[..k] + [e] + s[k..] <==> x in s || x == e
  {
  }

  lemma MembersWithout(s: seq<Element>, k: nat)
    requires k < |s|
    ensures forall e :: e in s[..k] + s[k + 1..] ==> e in s
  {
  }

  lemma DropKeepsDistinct(s: seq<Element>, n: nat)
    requires Distinct(s) && n <= |s|
    ensures Distinct(s[n..]) && forall e :: e in s[n..] ==> e in s
    ensures forall e :: e in s[..n] ==> e in s && e !in s[n..]
  {
  }

  /** Neighbours in `s` point at each other, except perhaps across position `gap`. */
  ghost predicate Joined(s: seq<Element>, gap: int)
    reads s`next, s`prev
  {
    forall j, k :: 0 <= j && j + 1 == k && k < |s| && k != gap ==> s[j].next == s[k] && s[k].prev == s[j]
  }

  lemma JoinedWith(s: seq<Element>, k: nat, e: Element)
    requires k <= |s| && Joined(s, k)
    requires k > 0 ==> s[k - 1].next == e && e.prev == s[k - 1]
    requires k < |s| ==> e.next == s[k] && s[k].prev == e
    ensures Joined(s[..k] + [e] + s[k..], -1)
  {
  }

  lemma JoinedParts(s: seq<Element>, n: nat)
    requires n <= |s| && forall j, k :: 0 <= j && j + 1 == k && k < |s| && k != n ==> s[j].next == s[k]
    requires forall j, k :: n <= j && j + 1 == k && k < |s| ==> s[k].prev == s[j]
    ensures Joined(s[n..], -1)
    ensures forall j, k :: 0 <= j && j + 1 == k && k < n ==> s[..n][j].next == s[..n][k]
  {
  }

  lemma JoinedWithout(s: seq<Element>, k: nat)
    requires k < |s|
    requires forall j, m :: 0 <= j && j + 1 == m && m < |s| && m != k && j != k ==>
      s[j].next == s[m] && s[m].prev == s[j]
    requires 0 < k < |s| - 1 ==> s[k - 1].next == s[k + 1] && s[k + 1].prev == s[k - 1]
    ensures Joined(s[..k] + s[k + 1..], -1)
  {
  }

  /** The elements hold the entries. */
  ghost predicate Hold(s: seq<Element>, c: seq<Entry>)
    reads s`ind, s`value
  {
    |s| == |c| && forall k :: 0 <= k < |s| ==> s[k].ind == c[k].ind && s[k].value == c[k].value
  }

  lemma HoldLength(s: seq<Element>, c: seq<Entry>)
    requires Hold(s, c)
    ensures |s| == |c|
  {
  }

  lemma HoldSplit(s: seq<Element>, c: seq<Entry>, n: nat)
    requires Hold(s, c) && n <= |s|
    ensures |s| == |c| && Hold(s[..n], c[..n]) && Hold(s[n..], c[n..])
  {
  }

  lemma HoldNothing()
    ensures Hold([], [])
  {
  }

  /** The first `n` items, or all of them. */
  ghost function Front<T>(s: seq<T>, n: int): seq<T> {
    if n <= 0 then [] else if n < |s| then s[..n] else s
  }

  lemma HoldWith(s: seq<Element>, c: seq<Entry>, k: nat, e: Element)
    requires Hold(s, c) && k <= |s|
    ensures Hold(s[..k] + [e] + s[k..], c[..k] + [Entry(e.ind, e.value)] + c[k..])
  {
  }

  lemma HoldWithout(s: seq<Element>, c: seq<Entry>, k: nat)
    requires Hold(s, c) && k < |s|
    ensures Hold(s[..k] + s[k + 1..], c[..k] + c[k + 1..])
  {
  }

  /** The chain an array gives away: the elements of `s` linked forward and ended by null. */
  ghost predicate Chain(first: Element?, s: seq<Element>)
    reads s`next
  {
    if s == [] then first == null else
    && first == s[0]
    && s[|s| - 1].next == null
    && forall j, k :: 0 <= j && j + 1 == k && k < |s| ==> s[j].next == s[k]
  }

  class Element {
    var ind: int
    var value: Value
    var next: Element?
    var prev: Element?
    ghost var owner: Array?

    constructor (i: int, v: Value)
      ensures ind == i && value == v && owner == null
    {
      ind, value, owner := i, v, null;
      next, prev := null, null;
    }
  }

  /** The macro ADD_BEFORE. */
  method Hook(ae: Element, e: Element)
    requires ae.prev != null && e != ae && e != ae.prev
    modifies ae`prev, ae.prev`next, e`prev, e`next
    ensures var p := old(ae.prev); p.next == e && e.prev == p && ae.prev == e && e.next == ae
  {
    ae.prev.next := e;
    e.prev := ae.prev;
    ae.prev := e;
    e.next := ae;
  }

  /** The two assignments that take `ae` out. */
  method Unhook(ae: Element)
    requires ae.prev != null && ae.next != null && ae != ae.prev && ae != ae.next
    modifies ae.next`prev, ae.prev`next
    ensures ae.next == old(ae.next) && ae.prev == old(ae.prev)
    ensures ae.next.prev == ae.prev && ae.prev.next == ae.next
  {
    ae.next.prev := ae.prev;
    ae.prev.next := ae.next;
  }

  class Array {
    var maxIndex: int
    var numElements: int
    const head: Element
    /** The elements in list order, and what they hold. */
    ghost var nodes: seq<Element>
    ghost var contents: seq<Entry>

    /** The nodes and the sentinel form a circle in both directions. */
    ghost predicate Linked()
      reads `nodes, head`next, head`prev, head`owner, nodes`next, nodes`prev, nodes`owner
    {
      && head !in nodes && head.owner == this
      && (forall k :: 0 <= k < |nodes| ==> nodes[k].owner == this)
      && Distinct(nodes)
      && head.next == (if nodes == [] then head else nodes[0])
      && head.prev == (if nodes == [] then head else nodes[|nodes| - 1])
      && (nodes != [] ==> nodes[0].prev == head && nodes[|nodes| - 1].next == head)
      && Joined(nodes, -1)
    }

    ghost predicate WellFormed()
      reads this, head, nodes
    {
      && Linked()
      && Hold(nodes, contents)
      && head.ind == -1
      && Ordered(contents)
      && numElements == |contents|
      && maxIndex == if contents == [] then -1 else contents[|contents| - 1].ind
    }

    twostate lemma Untouched()
      requires old(WellFormed()) && unchanged(this, head)
      requires forall k :: 0 <= k < |old(nodes)| ==> unchanged(old(nodes)[k])
      ensures WellFormed()
    {
    }

    /** Arrays share no cell. */
    lemma Apart(b: Array)
      requires WellFormed() && b.WellFormed() && b != this
      ensures b.head != head && b.head !in nodes && head !in b.nodes
      ensures forall k :: 0 <= k < |b.nodes| ==> b.nodes[k] != head && b.nodes[k] !in nodes
    {
    }

    /** What a walk along the list sees at position `k`. */
    lemma At(k: nat)
      requires WellFormed() && k < |nodes|
      ensures |contents| == |nodes| && nodes[k] != head
      ensures nodes[k].ind == contents[k].ind && nodes[k].value == contents[k].value
      ensures nodes[k].next == if k + 1 < |nodes| then nodes[k + 1] else head
      ensures k > 0 ==> contents[k - 1].ind < contents[k].ind
    {
    }

    lemma Passing(k: nat)
      requires Linked() && k < |nodes|
      ensures nodes[k] != head && nodes[k].next == if k + 1 < |nodes| then nodes[k + 1] else head
      ensures forall j :: 0 <= j < |nodes| && j != k ==> nodes[j] != nodes[k]
    {
    }

    lemma Below(k: nat)
      requires WellFormed() && k < |contents|
      ensures forall j :: 0 <= j < k ==> contents[j].ind < contents[k].ind
    {
    }

    lemma AtStart()
      requires WellFormed()
      ensures |contents| == |nodes| && numElements == |nodes| && head.owner == this && head.ind == -1
      ensures head.next == if nodes == [] then head else nodes[0]
      ensures contents != [] ==> maxIndex == contents[|contents| - 1].ind
      ensures Ordered(contents) && (contents == [] ==> AsMap(contents) == map[])
    {
    }

    constructor ()
      ensures WellFormed() && contents == [] && fresh(head) && nodes == []
    {
      head := new Element(-1, Null);
      maxIndex, numElements := -1, 0;
      nodes, contents := [], [];
      new;
      head.next, head.prev := head, head;
      head.owner := this;
    }

    /** The circle with `e` at position `k` of what were the nodes. */
    lemma LinkedWith(was: seq<Element>, k: nat, e: Element)
      requires k <= |was| && nodes == was[..k] + [e] + was[k..]
      requires head !in was && e != head && head.owner == this == e.owner
      requires forall j :: 0 <= j < |was| ==> was[j].owner == this
      requires Distinct(nodes) && Joined(nodes, -1)
      requires head.next == (if k == 0 then e else was[0]) && head.prev == (if k == |was| then e else was[|was| - 1])
      requires (if k == 0 then e else was[0]).prev == head && (if k == |was| then e else was[|was| - 1]).next == head
      ensures Linked()
    {
      hide Distinct, Joined;
    }

    /** The circle without what was the node at position `k`. */
    lemma LinkedWithout(was: seq<Element>, k: nat)
      requires k < |was| && nodes == was[..k] + was[k + 1..]
      requires head !in was && head.owner == this && forall j :: 0 <= j < |was| ==> was[j].owner == this
      requires Distinct(nodes) && Joined(nodes, -1)
      requires var n := |was|;
        var first := if k > 0 then was[0] else if n > 1 then was[1] else head;
        var last := if k + 1 < n then was[n - 1] else if n > 1 then was[n - 2] else head;
        head.next == first && head.prev == last && first.prev == head && last.next == head
      ensures Linked()
    {
      hide Distinct, Joined;
    }

    /** A new element joins the circle in front of `ae`. */
    method AddBefore(ae: Element, e: Element, ghost k: nat)
      requires Linked() && k <= |nodes| && ae == (if k < |nodes| then nodes[k] else head)
      requires e.owner == null
      modifies this`nodes, head`next, head`prev, nodes`next, nodes`prev, e`next, e`prev, e`owner
      ensures Linked() && nodes == old(nodes)[..k] + [e] + old(nodes)[k..]
    {
      hide Distinct;
      ghost var was := nodes;
      ghost var p := if k == 0 then head else was[k - 1];
      InsertKeepsDistinct(was, k, e);
      if k > 0 { DistinctAt(was, k - 1); }
      if k < |was| { DistinctAt(was, k); }
      assert ae.prev == p by {
        if 0 < k < |was| { assert was[k - 1].next == was[k]; }
      }
      Hook(ae, e);
      e.owner := this;
      nodes := nodes[..k] + [e] + nodes[k..];
      JoinedWith(was, k, e);
      LinkedWith(was, k, e);
    }

    /** Takes the node at position `k` out of the circle. */
    method Unlink(ae: Element, ghost k: nat)
      requires Linked() && k < |nodes| && ae == nodes[k]
      modifies this`nodes, head`next, head`prev, nodes`next, nodes`prev
      ensures Linked() && nodes == old(nodes)[..k] + old(nodes)[k + 1..]
      ensures ae !in nodes && ae != head
      ensures ae.prev == old(ae.prev) == if k == 0 then head else old(nodes)[k - 1]
    {
      hide Distinct;
      ghost var was := nodes;
      RemoveKeepsDistinct(was, k);
      if k > 0 { DistinctAt(was, k - 1); }
      DistinctAt(was, k);
      if k + 1 < |was| { DistinctAt(was, k + 1); }
      assert ae.prev == if k == 0 then head else was[k - 1] by {
        if 0 < k { assert was[k - 1].next == was[k]; }
      }
      assert ae.next == if k + 1 == |was| then head else was[k + 1];
      Unhook(ae);
      nodes := nodes[..k] + nodes[k + 1..];
      JoinedWithout(was, k);
      LinkedWithout(was, k);
    }

    /** Takes a node out of the list and out of the contents. */
    method Cut(ae: Element, ghost k: nat)
      requires WellFormed() && k < |nodes| && ae == nodes[k]
      modifies this, head`next, head`prev, nodes`next, nodes`prev
      ensures WellFormed() && ae !in nodes && forall e :: e in nodes ==> e in old(nodes)
      ensures contents == old(contents)[..k] + old(contents)[k + 1..]
    {
      hide Linked, Ordered, Hold;
      At(k);
      if k > 0 {
        At(k - 1);
      }
      OrderedWithout(contents, k);
      HoldWithout(nodes, contents, k);
      MembersWithout(nodes, k);
      Unlink(ae, k);
      contents := contents[..k] + contents[k + 1..];
      numElements := numElements - 1;
      if ae.ind == maxIndex {
        maxIndex := ae.prev.ind;
      }
    }

    /** The walk from `start`, the node at position `from`, to the node with index `i`. */
    method Find(start: Element, ghost from: nat, i: int) returns (ae: Element, ghost k: nat)
      requires WellFormed() && from <= |nodes|
      requires start == if from < |nodes| then nodes[from] else head
      requires from > 0 ==> contents[from - 1].ind < i
      ensures k <= |nodes| == |contents| && ae == if k < |nodes| then nodes[k] else head
      ensures k < |nodes| <==> i in AsMap(contents)
      ensures k < |nodes| ==> ae != head && contents[k] == Entry(i, AsMap(contents)[i])
      ensures k < |nodes| ==> ae.ind == i && ae.value == AsMap(contents)[i]
      ensures k < |nodes| ==> Removed(contents, i) == contents[..k] + contents[k + 1..]
    {
      hide Linked, Hold, Distinct, Joined, Ordered, AsMap, Removed;
      AtStart();
      ae, k := start, from;
      while ae != head
        invariant WellFormed() && |nodes| == |contents| && 0 <= k <= |nodes|
        invariant ae == if k < |nodes| then nodes[k] else head
        invariant (k > 0 ==> contents[k - 1].ind < i) || i !in AsMap(contents)
        decreases |nodes| - k
      {
        At(k);
        if ae.ind >= i && (k > 0 ==> contents[k - 1].ind < i) {
          MapAtStop(contents, i, k);
        }
        if ae.ind == i {
          Below(k);
          RemovedAtStop(contents, i, k);
          return;
        }
        ae := ae.next;
        k := k + 1;
      }
      if k < |nodes| {
        At(k);
      }
      if k > 0 ==> contents[k - 1].ind < i {
        MapAtStop(contents, i, k);
      }
    }

    /** The walk from the first node to the first index not below `i`. */
    method Seek(i: int) returns (ae: Element, ghost k: nat)
      requires WellFormed()
      ensures k <= |nodes| == |contents| && ae == if k < |nodes| then nodes[k] else head
      ensures k < |nodes| ==> ae != head && ae.ind == contents[k].ind >= i
      ensures forall j :: 0 <= j < k ==> contents[j].ind < i
    {
      hide Linked, Hold, Distinct, Joined, Ordered;
      AtStart();
      ae, k := head.next, 0;
      while ae != head
        invariant WellFormed() && |nodes| == |contents| && 0 <= k <= |nodes|
        invariant ae == if k < |nodes| then nodes[k] else head
        invariant forall j :: 0 <= j < k ==> contents[j].ind < i
        decreases |nodes| - k
      {
        At(k);
        if ae.ind >= i {
          return;
        }
        ae := ae.next;
        k := k + 1;
      }
      if k < |nodes| {
        At(k);
      }
    }

    /** Hooks a new element onto the end. */
    method Append(e: Element)
      requires WellFormed() && e.ind > maxIndex && e.owner == null
      modifies this, head`next, head`prev, nodes`next, nodes`prev, e`next, e`prev, e`owner
      ensures WellFormed() && forall x :: x in nodes <==> x in old(nodes) || x == e
      ensures contents == old(contents) + [Entry(e.ind, e.value)]
    {
      hide Linked, Ordered, Hold;
      AtStart();
      ghost var n := |nodes|;
      OrderedWith(contents, n, Entry(e.ind, e.value));
      HoldWith(nodes, contents, n, e);
      MembersWith(nodes, n, e);
      assert contents == contents[..n] + contents[n..];
      AddBefore(head, e, n);
      maxIndex := e.ind;
      numElements := numElements + 1;
      contents := contents + [Entry(e.ind, e.value)];
    }

    /** Puts a new element before the node at position `k`. */
    method Splice(ae: Element, e: Element, ghost k: nat)
      requires WellFormed() && k < |nodes| && ae == nodes[k] && e.owner == null
      requires (k > 0 ==> contents[k - 1].ind < e.ind) && e.ind < contents[k].ind
      modifies this, head`next, head`prev, nodes`next, nodes`prev, e`next, e`prev, e`owner
      ensures WellFormed() && forall x :: x in nodes <==> x in old(nodes) || x == e
      ensures contents == old(contents)[..k] + [Entry(e.ind, e.value)] + old(contents)[k..]
    {
      hide Linked, Ordered, Hold;
      AtStart();
      OrderedWith(contents, k, Entry(e.ind, e.value));
      HoldWith(nodes, contents, k, e);
      MembersWith(nodes, k, e);
      AddBefore(ae, e, k);
      contents := contents[..k] + [Entry(e.ind, e.value)] + contents[k..];
      numElements := numElements + 1;
    }

    method Replace(ae: Element, v: Value, ghost k: nat)
      requires WellFormed() && k < |nodes| && ae == nodes[k]
      modifies ae`value, this`contents
      ensures WellFormed() && ae.value == v
      ensures contents == old(contents)[..k] + [Entry(old(contents)[k].ind, v)] + old(contents)[k + 1..]
    {
      hide Linked, Distinct, Ordered;
      At(k);
      Passing(k);
      SameIndices(contents, contents[k := Entry(contents[k].ind, v)]);
      ae.value := v;
      contents := contents[k := Entry(contents[k].ind, v)];
    }

    method Insert(i: int, v: Value) returns (r: int, ae: Element?)
      requires WellFormed()
      modifies this, head, nodes
      ensures WellFormed() && forall e :: e in nodes ==> e in old(nodes) || fresh(e)
      ensures r == if Accepts(old(contents), i) then 0 else -1
      ensures contents == if r == 0 then Inserted(old(contents), i, v) else old(contents)
      ensures r == 0 ==> ae != null && ae in nodes && ae.ind == i && ae.value == v
    {
      hide Linked, Hold, Distinct, Ordered, Inserted;
      AtStart();
      ghost var was := contents;
      var e := new Element(i, v);
      if i > maxIndex {
        InsertedAtEnd(was, i, v);
        Append(e);
        return 0, e;
      }
      ghost var k;
      ae, k := Seek(i);
      if ae == head {
        return -1, null;
      }
      InsertedAtStop(was, i, v, k);
      if ae.ind == i {
        Replace(ae, v, k);
      } else {
        Splice(ae, e, k);
        ae := e;
      }
      r := 0;
    }

    method Remove(i: int) returns (ae: Element?)
      requires WellFormed()
      modifies this, head, nodes
      ensures WellFormed() && forall e :: e in nodes ==> e in old(nodes)
      ensures contents == Removed(old(contents), i)
      ensures ae == null <==> i !in AsMap(old(contents))
      ensures ae == null ==> nodes == old(nodes)
      ensures ae != null ==> ae.ind == i && ae.value == AsMap(old(contents))[i] && ae !in nodes
    {
      hide Linked, Hold, Distinct, Ordered, Removed, AsMap;
      AtStart();
      ghost var k;
      ae, k := Find(head.next, 0, i);
      if ae == head {
        Absent(contents, i);
        return null;
      }
      Cut(ae, k);
    }

    method Flush()
      requires head.ind == -1 && head.owner == this
      modifies this, head`next, head`prev
      ensures WellFormed() && nodes == [] && contents == []
    {
      head.next, head.prev := head, head;
      nodes, contents := [], [];
      maxIndex, numElements := -1, 0;
    }

    /** Adds `d` to the index of every element from `start`, the node at position `from`, on. */
    method Renumber(start: Element, ghost from: nat, d: int)
      requires Linked() && Hold(nodes, contents) && from <= |nodes|
      requires start == if from < |nodes| then nodes[from] else head
      modifies nodes`ind, this`contents
      ensures Linked() && Hold(nodes, contents) && head.ind == old(head.ind)
      ensures contents == old(contents)[..from] + Moved(old(contents)[from..], d)
    {
      hide Linked, Hold, Distinct, Ordered, MovedBetween, Moved;
      HoldLength(nodes, contents);
      MovedBetweenEnds(contents, from, d);
      var ae := start;
      ghost var k := from;
      ghost var was := contents;
      while ae != head
        invariant from <= k <= |nodes| && ae == if k < |nodes| then nodes[k] else head
        invariant Linked() && Hold(nodes, contents) && head.ind == old(head.ind)
        invariant contents == MovedBetween(was, from, k, d)
        decreases |nodes| - k
      {
        Passing(k);
        MovedBetweenStep(was, from, k, d);
        RenumberOne(ae, k, d);
        ae := ae.next;
        k := k + 1;
      }
      if k < |nodes| {
        Passing(k);
      }
    }

    method RenumberOne(ae: Element, ghost k: nat, d: int)
      requires Linked() && Hold(nodes, contents) && k < |nodes| && ae == nodes[k]
      modifies ae`ind, this`contents
      ensures Linked() && Hold(nodes, contents) && head.ind == old(head.ind)
      ensures contents == old(contents)[k := Entry(old(contents)[k].ind + d, old(contents)[k].value)]
    {
      Passing(k);
      hide Linked;
      ae.ind := ae.ind + d;
      contents := contents[k := Entry(contents[k].ind + d, contents[k].value)];
    }

    /** Cuts the first `n` nodes off the circle and leaves them as a null-terminated list. */
    method Detach(ae: Element, ghost n: nat)
      requires Linked() && 0 < n < |nodes| && ae == nodes[n]
      modifies this`nodes, head`next, nodes`next, nodes`prev
      ensures Linked() && nodes == old(nodes)[n..]
      ensures Chain(old(nodes)[0], old(nodes)[..n])
    {
      hide Distinct;
      ghost var was := nodes;
      DistinctAt(was, n - 1);
      DistinctAt(was, n);
      assert ae.prev == was[n - 1];
      ae.prev.next := null;
      head.next := ae;
      ae.prev := head;
      nodes := nodes[n..];
      DropKeepsDistinct(was, n);
      JoinedParts(was, n);
    }

    /** Empties the circle and leaves its nodes as a null-terminated list. */
    method Release()
      requires WellFormed() && nodes != []
      modifies this, head`next, head`prev, nodes`next
      ensures WellFormed() && nodes == [] && contents == []
      ensures Chain(old(nodes)[0], old(nodes)) && Hold(old(nodes), old(contents))
    {
      hide Distinct, Hold, Ordered;
      AtStart();
      var ae := head.next;
      ghost var k := 0;
      At(0);
      while ae.next != head
        invariant 0 <= k < |nodes| && ae == nodes[k]
        invariant ae.next == if k + 1 < |nodes| then nodes[k + 1] else head
        decreases |nodes| - k
        modifies {}
      {
        ae := ae.next;
        k := k + 1;
        At(k);
      }
      assert k == |nodes| - 1;
      DistinctAt(nodes, k);
      ae.next := null;
      Flush();
    }

    lemma Last()
      requires Linked() && Hold(nodes, contents) && nodes != []
      ensures |contents| == |nodes| && head.prev != null && head.prev.ind == contents[|contents| - 1].ind
    {
    }

    /** Renumbers from `ae` on and restores the bookkeeping; `goal` is what the array is to hold. */
    method Settle(ae: Element, ghost from: nat, d: int, ghost goal: seq<Entry>)
      requires Linked() && Hold(nodes, contents) && from <= |nodes| && nodes != []
      requires ae == if from < |nodes| then nodes[from] else head
      requires head.ind == -1 && numElements == |contents|
      requires |goal| == |contents| && Ordered(goal) && goal == contents[..from] + Moved(contents[from..], d)
      modifies this, nodes`ind
      ensures WellFormed() && contents == goal && nodes == old(nodes)
    {
      hide Linked, Hold, Distinct, Ordered, Moved;
      Renumber(ae, from, d);
      Last();
      maxIndex := head.prev.ind;
    }

    /** The same for the whole list, with a list elsewhere left as it was. */
    method SettleApart(ae: Element, d: int, ghost gone: seq<Element>, ghost held: seq<Entry>)
      requires Linked() && Hold(nodes, contents) && nodes != [] && ae == nodes[0]
      requires head.ind == -1 && numElements == |contents| && Ordered(Moved(contents, d))
      requires Hold(gone, held) && gone != [] && Chain(gone[0], gone)
      requires forall k :: 0 <= k < |gone| ==> gone[k] !in nodes
      modifies this, nodes`ind
      ensures WellFormed() && contents == Moved(old(contents), d) && nodes == old(nodes)
      ensures Hold(gone, held) && Chain(gone[0], gone)
    {
      hide Linked, Distinct, Moved, Ordered;
      assert contents[0..] == contents;
      Settle(ae, 0, d, Moved(contents, d));
    }

    /** The first `n` elements out, and `n` taken from the indices of the others. */
    method Retain(ae: Element, n: int)
      requires WellFormed() && 0 < n < |nodes| && ae == nodes[n]
      modifies this, head`next, nodes
      ensures WellFormed() && forall e :: e in nodes ==> e in old(nodes)
      ensures contents == Moved(old(contents)[n..], -n)
      ensures Chain(old(nodes)[0], old(nodes)[..n]) && Hold(old(nodes)[..n], old(contents)[..n])
    {
      hide Linked, Hold, Distinct, Ordered, Moved, Chain;
      AtStart();
      ShiftKeepsOrder(contents, n);
      HoldSplit(nodes, contents, n);
      DropApart(n);
      ghost var gone, held := nodes[..n], contents[..n];
      Detach(ae, n);
      contents := contents[n..];
      numElements := numElements - n;
      SettleApart(ae, -n, gone, held);
    }

    lemma DropApart(n: nat)
      requires Linked() && n <= |nodes|
      ensures forall e :: e in nodes[n..] ==> e in nodes
      ensures forall k :: 0 <= k < n ==> nodes[..n][k] !in nodes[n..]
    {
      DropKeepsDistinct(nodes, n);
    }

    /** The node `n` places from the first, or the sentinel. */
    method Walk(n: nat) returns (ae: Element)
      requires WellFormed()
      ensures ae == if n < |nodes| then nodes[n] else head
      ensures ae == head <==> n >= |nodes|
    {
      hide Linked, Hold, Distinct, Ordered;
      AtStart();
      ae := head.next;
      var i := 0;
      while ae != head && i < n
        invariant 0 <= i <= n && i <= |nodes| && ae == if i < |nodes| then nodes[i] else head
        decreases n - i
      {
        At(i);
        ae := ae.next;
        i := i + 1;
      }
      if i < |nodes| {
        At(i);
      }
    }

    /** Drops the first `n` elements and takes `n` from the indices of the others. The dropped ones, unless
        disposed of, come back as a list still holding what they held. */
    method Shift(n: int, dispose: bool) returns (ret: Element?)
      requires WellFormed()
      modifies this, head, nodes
      ensures WellFormed() && forall e :: e in nodes ==> e in old(nodes)
      ensures contents == Shifted(old(contents), n)
      ensures if dispose || n <= 0 then ret == null else
        Chain(ret, old(Front(nodes, n))) && Hold(old(Front(nodes, n)), old(Front(contents, n)))
    {
      hide Linked, Hold, Distinct, Ordered, Moved;
      AtStart();
      if numElements == 0 || n <= 0 {
        HoldNothing();
        return null;
      }
      var ae := Walk(n);
      ret := head.next;
      if ae == head {
        if dispose {
          Flush();
          return null;
        }
        Release();
        return;
      }
      Retain(ae, n);
      if dispose {
        return null;
      }
    }

    /** Puts a new element with index 0 in front, whatever index follows it. */
    method Prepend(ae: Element, s: Value)
      requires Linked() && Hold(nodes, contents) && ae == head.next
      modifies `nodes, `contents, `numElements, head`next, head`prev, nodes`next, nodes`prev
      ensures Linked() && Hold(nodes, contents) && contents == [Entry(0, s)] + old(contents)
      ensures numElements == old(numElements) + 1
      ensures |nodes| == |old(nodes)| + 1 && fresh(nodes[0]) && nodes[1..] == old(nodes)
    {
      hide Hold, Distinct;
      var e := new Element(0, s);
      HoldWith(nodes, contents, 0, e);
      assert nodes[..0] + [e] + nodes[0..] == [e] + nodes;
      assert contents[..0] + [Entry(0, s)] + contents[0..] == [Entry(0, s)] + contents;
      AddBefore(ae, e, 0);
      numElements := numElements + 1;
      contents := [Entry(0, s)] + contents;
    }

    /** Raises every index by `n` and puts `s`, unless null, in front at index 0. */
    method Rshift(n: int, s: Value) returns (count: int)
      requires WellFormed()
      requires s.Text? && n > 0 && contents != [] ==> contents[0].ind + n > 0
      modifies this, head, nodes
      ensures WellFormed() && forall e :: e in nodes ==> e in old(nodes) || fresh(e)
      ensures contents == Rshifted(old(contents), n, s)
      ensures count == |contents|
      ensures n <= 0 || (s.Null? && old(contents) == []) ==> nodes == old(nodes)
    {
      hide Linked, Hold, Distinct, Ordered, Moved, Rshifted;
      AtStart();
      RshiftedParts(contents, n, s);
      if numElements == 0 && s.Null? {
        return 0;
      } else if n <= 0 {
        return numElements;
      }
      RshiftKeepsOrderIff(contents, n, s);
      ghost var goal := Rshifted(contents, n, s);
      var ae: Element := head.next;
      ghost var from := 0;
      if s.Text? {
        Prepend(ae, s);
        from := 1;
        if numElements == 1 {
          maxIndex := 0;
          return 1;
        }
      }
      Settle(ae, from, n, goal);
      return numElements;
    }
  }
}
