/** Several indexed arrays and the one cursor they share: `lastarray` and `lastref` remember the element last
    touched, and reading starts from it when it can. Every operation acts on one array as ArrayModel says,
    leaves every other array alone, and leaves the cursor on a live element or nowhere, so reading always
    gives what a plain map from index to value would.
 */
module ArrayCursor {
  import opened ArrayModel
  import opened ArrayHeap

  /** The file-level state: the cursor, and every array created so far. */
  class Arrays {
    var lastarray: Array?
    var lastref: Element?
    ghost var arrays: set<Array>

    ghost predicate Valid()
      reads this, arrays, Footprint()
    {
      && (forall a :: a in arrays ==> a.WellFormed())
      && CursorLive()
    }

    ghost function Footprint(): (cells: set<Element>)
      reads this, arrays
      ensures forall a :: a in arrays ==> a.head in cells && forall e :: e in a.nodes ==> e in cells
    {
      (set a | a in arrays :: a.head) + set a, e | a in arrays && e in a.nodes :: e
    }

    /** The cursor names a live node of a live array, or nothing. */
    ghost predicate CursorLive()
      reads this, arrays
    {
      if lastarray == null then lastref == null
      else lastarray in arrays && lastref in lastarray.nodes
    }

    constructor ()
      ensures Valid() && arrays == {}
    {
      lastarray, lastref, arrays := null, null, {};
    }

    method Create() returns (a: Array)
      requires Valid()
      modifies this`arrays
      ensures Valid() && fresh(a) && arrays == old(arrays) + {a}
      ensures a.contents == [] && a.nodes == [] && fresh(a.head)
    {
      hide Array.WellFormed;
      a := new Array();
      label Made:
      arrays := arrays + {a};
      a.Untouched@Made();
      forall b | b in old(arrays) {
        b.Untouched();
      }
    }

    /** What an operation on `a` may write. */
    ghost function Reach(a: Array?): set<object>
      reads a
    {
      if a == null then {} else {a, a.head} + set e: object | e in a.nodes
    }

    method InvalidateLastref(a: Array)
      modifies this`lastarray, this`lastref
      ensures old(lastarray) == a ==> lastarray == null && lastref == null
      ensures old(lastarray) != a ==> lastarray == old(lastarray) && lastref == old(lastref)
    {
      if a == lastarray {
        lastarray, lastref := null, null;
      }
    }

    method Reference(a: Array?, i: int) returns (v: Value)
      requires Valid() && (a != null ==> a in arrays)
      modifies this`lastarray, this`lastref
      ensures Valid()
      ensures v == if a == null then Null else Fetch(AsMap(a.contents), i)
    {
      hide Array.WellFormed, Ordered, AsMap;
      if a == null {
        return Null;
      }
      a.AtStart();
      if a.numElements == 0 {
        return Null;
      }
      if i > a.maxIndex {
        MapAtStop(a.contents, i, |a.contents|);
        return Null;
      }
      var ae: Element;
      ghost var k := 0;
      if lastref != null && lastarray == a {
        if i >= lastref.ind {
          ae := lastref;
          k :| 0 <= k < |a.nodes| && a.nodes[k] == lastref;
          a.At(k);
        } else {
          ae := a.head.next;
        }
      } else {
        ae := a.head.next;
      }
      ae, k := a.Find(ae, k, i);
      if ae != a.head {
        lastarray, lastref := a, ae;
        v := ae.value;
      } else {
        lastarray, lastref := null, null;
        v := Null;
      }
      forall b | b in arrays {
        b.Untouched();
      }
    }

    method Insert(a: Array?, i: int, v: Value) returns (r: int)
      requires Valid() && (a != null ==> a in arrays)
      modifies this`lastarray, this`lastref, Reach(a)
      ensures Valid()
      ensures a != null ==> forall e :: e in a.nodes ==> e in old(a.nodes) || fresh(e)
      ensures r == if a != null && old(Accepts(a.contents, i)) then 0 else -1
      ensures r == 0 ==> a.contents == old(Inserted(a.contents, i, v))
      ensures r == 0 ==> lastarray == a && lastref != null && lastref.ind == i && lastref.value == v
      ensures r != 0 && a != null ==> a.contents == old(a.contents)
    {
      hide Array.WellFormed, Ordered, AsMap, Inserted;
      if a == null {
        return -1;
      }
      forall b | b in arrays && b != a {
        a.Apart(b);
      }
      var ae;
      r, ae := a.Insert(i, v);
      label Done:
      if r == 0 {
        lastarray, lastref := a, ae;
      } else {
        InvalidateLastref(a);
      }
      a.Untouched@Done();
      forall b | b in arrays && b != a {
        b.Untouched();
      }
    }

    method Remove(a: Array?, i: int) returns (ae: Element?)
      requires Valid() && (a != null ==> a in arrays)
      modifies this`lastarray, this`lastref, Reach(a)
      ensures Valid()
      ensures a != null ==> forall e :: e in a.nodes ==> e in old(a.nodes) || fresh(e)
      ensures a != null ==> a.contents == old(Removed(a.contents, i))
      ensures ae == null <==> a == null || i !in old(AsMap(a.contents))
      ensures ae != null ==> ae.ind == i && ae.value == old(AsMap(a.contents))[i] && ae !in a.nodes
      ensures if ae != null then lastarray != a else lastarray == old(lastarray) && lastref == old(lastref)
    {
      hide Array.WellFormed, Ordered, AsMap, Removed;
      if a == null {
        return null;
      }
      a.AtStart();
      if a.numElements == 0 {
        Absent(a.contents, i);
        return null;
      }
      forall b | b in arrays && b != a {
        a.Apart(b);
      }
      ae := a.Remove(i);
      label Done:
      if ae != null {
        InvalidateLastref(a);
      }
      a.Untouched@Done();
      forall b | b in arrays && b != a {
        b.Untouched();
      }
    }

    method Shift(a: Array?, n: int, dispose: bool) returns (ret: Element?)
      requires Valid() && (a != null ==> a in arrays)
      modifies this`lastarray, this`lastref, Reach(a)
      ensures Valid()
      ensures a != null ==> forall e :: e in a.nodes ==> e in old(a.nodes) || fresh(e)
      ensures a != null ==> a.contents == old(Shifted(a.contents, n))
      ensures a == null || dispose || n <= 0 ==> ret == null
      ensures a != null && !dispose && n > 0 ==>
        Chain(ret, old(Front(a.nodes, n))) && Hold(old(Front(a.nodes, n)), old(Front(a.contents, n)))
    {
      hide Array.WellFormed, Ordered, Moved, Hold;
      if a == null {
        return null;
      }
      a.AtStart();
      if a.numElements == 0 || n <= 0 {
        HoldNothing();
        return null;
      }
      forall b | b in arrays && b != a {
        a.Apart(b);
      }
      InvalidateLastref(a);
      a.Untouched();
      ret := a.Shift(n, dispose);
      forall b | b in arrays && b != a {
        b.Untouched();
      }
    }

    method Rshift(a: Array?, n: int, s: Value) returns (count: int)
      requires Valid() && (a != null ==> a in arrays)
      requires a != null && s.Text? && n > 0 && a.contents != [] ==> a.contents[0].ind + n > 0
      modifies this`lastarray, this`lastref, Reach(a)
      ensures Valid()
      ensures a != null ==> forall e :: e in a.nodes ==> e in old(a.nodes) || fresh(e)
      ensures a != null ==> a.contents == old(Rshifted(a.contents, n, s))
      ensures count == if a == null then 0 else |a.contents|
    {
      hide Array.WellFormed, Ordered, Moved, Rshifted;
      if a == null {
        return 0;
      }
      a.AtStart();
      var empty := a.numElements == 0;
      forall b | b in arrays && b != a {
        a.Apart(b);
      }
      count := a.Rshift(n, s);
      label Done:
      if n > 0 && !empty {
        InvalidateLastref(a);
      }
      a.Untouched@Done();
      forall b | b in arrays && b != a {
        b.Untouched();
      }
    }

    method Flush(a: Array?)
      requires Valid() && (a != null ==> a in arrays)
      modifies this`lastarray, this`lastref, Reach(a)
      ensures Valid()
      ensures a != null ==> forall e :: e in a.nodes ==> e in old(a.nodes) || fresh(e)
      ensures a != null ==> a.contents == [] && lastarray != a
    {
      hide Array.WellFormed, Ordered;
      if a == null {
        return;
      }
      a.AtStart();
      forall b | b in arrays && b != a {
        a.Apart(b);
      }
      a.Flush();
      label Done:
      InvalidateLastref(a);
      a.Untouched@Done();
      forall b | b in arrays && b != a {
        b.Untouched();
      }
    }

    /** Freeing an array flushes it first, so the cursor cannot be left on it. */
    method Dispose(a: Array?)
      requires Valid() && (a != null ==> a in arrays)
      modifies this, Reach(a)
      ensures Valid()
      ensures arrays == old(arrays) - {a}
    {
      hide Array.WellFormed, Ordered;
      if a == null {
        return;
      }
      Flush(a);
      label Flushed:
      arrays := arrays - {a};
      forall b | b in arrays {
        b.Untouched@Flushed();
      }
    }
  }
}
