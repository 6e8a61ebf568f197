/** The chained hash table: an array of singly linked lists, changed in place, that acts as a map from keys to
    items.
 */
module HashTable {
  import opened HashString
  import opened HashChains

  /** The list that starts at `first`. */
  ghost predicate Linked(first: Item?, s: seq<Item>)
    reads s`next
  {
    if s == [] then first == null else
    && first == s[0]
    && s[|s| - 1].next == null
    && forall j, k :: 0 <= j && j + 1 == k && k < |s| ==> s[j].next == s[k]
  }

  lemma LinkedAt(first: Item?, s: seq<Item>, j: nat)
    requires Linked(first, s) && j < |s|
    ensures s[j].next == if j + 1 < |s| then s[j + 1] else null
  {
  }

  lemma LinkedStart(first: Item?, s: seq<Item>)
    requires Linked(first, s)
    ensures first == if s == [] then null else s[0]
  {
  }

  lemma LinkedCons(first: Item?, s: seq<Item>, x: Item)
    requires Linked(first, s) && x.next == first
    ensures Linked(x, [x] + s)
  {
  }

  lemma LinkedTail(first: Item?, s: seq<Item>)
    requires Linked(first, s) && s != []
    ensures Linked(s[0].next, s[1..])
    ensures s[..0] + s[1..] == s[1..]
  {
  }

  /** Makes the item before position `j` skip the one there. */
  method Bypass(prev: Item, temp: Item, ghost s: seq<Item>, ghost first: Item?, ghost j: nat)
    requires Linked(first, s) && Single(s) && 0 < j < |s| && prev == s[j - 1] && temp == s[j]
    modifies prev`next
    ensures Linked(first, s[..j] + s[j + 1..])
  {
    prev.next := temp.next;
    ghost var t := s[..j] + s[j + 1..];
    forall i, k | 0 <= i && i + 1 == k && k < |t| ensures t[i].next == t[k] {
      if k < j {
        assert t[i] == s[i] && t[k] == s[k];
      } else if i >= j {
        assert t[i] == s[i + 1] && t[k] == s[k + 1];
      } else {
        assert t[i] == prev && t[k] == s[j + 1];
      }
    }
  }

  class Table {
    const nbuckets: nat
    const bucketArray: array<Item?>
    var nentries: nat
    ghost var chains: Chains
    ghost var entries: Entries
    /** Every item that is or was in a chain. */
    ghost var items: set<Item>

    ghost predicate Valid()
      reads this, bucketArray, items`next
    {
      && Filed(chains, entries, nbuckets)
      && bucketArray.Length == nbuckets
      && nentries == |entries|
      && (forall b, x :: 0 <= b < nbuckets && x in chains[b] ==> x in items)
      && (forall b :: 0 <= b < nbuckets ==> Linked(bucketArray[b], chains[b]))
    }

    constructor (buckets: nat)
      ensures Valid() && entries == map[] && nentries == 0
      ensures nbuckets == if buckets == 0 then 64 else buckets
      ensures fresh(bucketArray)
    {
      var n := if buckets == 0 then 64 else buckets;
      nbuckets := n;
      bucketArray := new Item?[n](_ => null);
      nentries, chains, entries, items := 0, seq(n, _ => []), map[], {};
      FiledNothing(seq(n, _ => []), n);
    }

    /** The walk along one chain to the item with the key, with the item before it. */
    method Walk(key: Bytes, hv: nat, b: nat) returns (prev: Item?, list: Item?, ghost j: nat)
      requires Valid() && hv == Hash(key) && b == Home(key, nbuckets)
      ensures j <= |chains[b]|
      ensures list == if j < |chains[b]| then chains[b][j] else null
      ensures prev == if j == 0 then null else chains[b][j - 1]
      ensures if key in entries then list == entries[key] else list == null
    {
      hide Hash, Home, Linked;
      LinkedStart(bucketArray[b], chains[b]);
      list := bucketArray[b];
      prev := null;
      j := 0;
      while list != null
        invariant 0 <= j <= |chains[b]|
        invariant list == if j < |chains[b]| then chains[b][j] else null
        invariant prev == if j == 0 then null else chains[b][j - 1]
        invariant forall k :: 0 <= k < j ==> chains[b][k].key != key
        decreases |chains[b]| - j
      {
        if hv == list.khash && list.key == key {
          return;
        }
        LinkedAt(bucketArray[b], chains[b], j);
        prev := list;
        list := list.next;
        j := j + 1;
      }
    }

    /** A new item at the front of its chain. */
    method Prepend(key: Bytes, hv: nat, b: nat) returns (item: Item)
      requires Valid() && hv == Hash(key) && b == Home(key, nbuckets) && key !in entries
      modifies this, bucketArray
      ensures Valid() && fresh(item) && items == old(items) + {item}
      ensures item.key == key && item.data == Missing && item.timesFound == 0
      ensures entries == old(entries)[key := item]
    {
      hide Hash, Home, Filed, Linked;
      FiledSize(chains, entries, nbuckets);
      item := new Item(key, hv, bucketArray[b]);
      FiledWith(chains, entries, nbuckets, item);
      LinkedCons(bucketArray[b], chains[b], item);
      bucketArray[b] := item;
      chains := chains[b := [item] + chains[b]];
      entries := entries[key := item];
      items := items + {item};
      nentries := nentries + 1;
    }

    /** Takes the j-th item out of its chain. */
    method Unlink(prev: Item?, temp: Item, b: nat, ghost j: nat)
      requires Valid() && b < nbuckets && j < |chains[b]| && temp == chains[b][j]
      requires prev == if j == 0 then null else chains[b][j - 1]
      modifies `nentries, `chains, `entries, bucketArray, items`next
      ensures Valid()
      ensures entries == old(entries) - {temp.key} && temp.key in old(entries) && old(entries)[temp.key] == temp
    {
      hide Hash, Home, Filed, Linked, Single;
      FiledSize(chains, entries, nbuckets);
      FiledWithout(chains, entries, nbuckets, b, j);
      Apart(b, j);
      if j > 0 { Apart(b, j - 1); }
      if prev != null {
        Bypass(prev, temp, chains[b], bucketArray[b], j);
      } else {
        LinkedTail(bucketArray[b], chains[b]);
        bucketArray[b] := temp.next;
      }
      entries := entries - {temp.key};
      chains := chains[b := chains[b][..j] + chains[b][j + 1..]];
      nentries := nentries - 1;
    }

    /** An item stands in one place only. */
    lemma Apart(b: nat, j: nat)
      requires Filed(chains, entries, nbuckets) && b < nbuckets && j < |chains[b]|
      ensures forall c :: 0 <= c < nbuckets && c != b ==> chains[b][j] !in chains[c]
      ensures Single(chains[b])
    {
      hide Hash, Home;
      assert Placed(chains[b][j], b, nbuckets, entries);
      forall c, k | 0 <= c < nbuckets && c != b && 0 <= k < |chains[c]| ensures chains[c][k] != chains[b][j] {
        assert Placed(chains[c][k], c, nbuckets, entries);
      }
    }

    /** Looking a key up, and creating an item for it when asked to. */
    method Search(key: Bytes, create: bool) returns (item: Item?)
      requires Valid()
      modifies this, bucketArray, items`timesFound
      ensures Valid()
      ensures key in old(entries) || !create ==> entries == old(entries) && items == old(items)
      ensures key in old(entries) ==> item == old(entries)[key] && item.timesFound == old(item.timesFound) + 1
      ensures key !in old(entries) && create ==>
        && item != null && fresh(item) && item.key == key && item.data == Missing
        && entries == old(entries)[key := item] && items == old(items) + {item}
      ensures key !in old(entries) && !create ==> item == null
      ensures forall x :: x in old(items) && x != item ==> x.timesFound == old(x.timesFound)
    {
      hide Hash, Home, Filed, Linked;
      FiledSize(chains, entries, nbuckets);
      if !create && nentries == 0 {
        return null;
      }
      var hv := ComputeHash(key);
      var bucket := BucketOf(key, hv, nbuckets);
      var before, list;
      ghost var j;
      before, list, j := Walk(key, hv, bucket);
      if list != null {
        list.timesFound := list.timesFound + 1;
        return list;
      }
      if create {
        item := Prepend(key, hv, bucket);
        return;
      }
      return null;
    }

    /** An item for the key; a caller who skips the search promises that there is none. */
    method Insert(key: Bytes, noSearch: bool) returns (item: Item)
      requires Valid() && (noSearch ==> key !in entries)
      modifies this, bucketArray, items`timesFound
      ensures Valid()
      ensures entries == if key in old(entries) then old(entries) else old(entries)[key := item]
      ensures if key in old(entries) then item == old(entries)[key]
              else fresh(item) && item.key == key && item.data == Missing
    {
      hide Hash, Home, Filed, Linked;
      FiledSize(chains, entries, nbuckets);
      var found: Item? := null;
      if !noSearch {
        found := Search(key, false);
      }
      if found != null {
        return found;
      }
      var hv := ComputeHash(key);
      var bucket := BucketOf(key, hv, nbuckets);
      item := Prepend(key, hv, bucket);
    }

    /** Removing a key gives the item back. */
    method Remove(key: Bytes) returns (temp: Item?)
      requires Valid()
      modifies `nentries, `chains, `entries, bucketArray, items`next
      ensures Valid() && entries == old(entries) - {key}
      ensures temp == if key in old(entries) then old(entries)[key] else null
    {
      hide Hash, Home, Filed, Linked;
      FiledSize(chains, entries, nbuckets);
      if nentries == 0 {
        return null;
      }
      var hv := ComputeHash(key);
      var bucket := BucketOf(key, hv, nbuckets);
      var prev;
      ghost var j;
      prev, temp, j := Walk(key, hv, bucket);
      if temp != null {
        KeyOf(key);
        Unlink(prev, temp, bucket, j);
      }
    }

    lemma KeyOf(key: Bytes)
      requires Filed(chains, entries, nbuckets) && key in entries
      ensures entries[key].key == key
    {
    }

    /** Emptying every bucket. */
    method Flush()
      requires Valid()
      modifies this, bucketArray
      ensures Valid() && entries == map[]
    {
      hide Hash, Home, Filed;
      FiledSize(chains, entries, nbuckets);
      if nentries == 0 {
        return;
      }
      for i := 0 to nbuckets
        invariant bucketArray.Length == nbuckets && forall b :: 0 <= b < i ==> bucketArray[b] == null
      {
        bucketArray[i] := null;
      }
      chains := seq(nbuckets, _ => []);
      entries := map[];
      nentries := 0;
      FiledNothing(chains, nbuckets);
    }

    /** The loop over the buckets. */
    method CopyChains(t: Table, copyData: Bytes -> Bytes) returns (ghost made: Chains, ghost all: set<Item>)
      requires Valid() && t.nbuckets == nbuckets == t.bucketArray.Length && t.bucketArray != bucketArray
      modifies t.bucketArray
      ensures |made| == nbuckets == |chains|
      ensures forall b :: 0 <= b < nbuckets ==>
        Linked(t.bucketArray[b], made[b]) && AllCopied(made[b], chains[b], copyData)
      ensures fresh(all) && forall b, x :: 0 <= b < nbuckets && x in made[b] ==> x in all
    {
      hide Hash, Home, Filed, Linked, Copied;
      FiledSize(chains, entries, nbuckets);
      made, all := [], {};
      for i := 0 to nbuckets
        invariant |made| == i
        invariant forall b :: 0 <= b < i ==>
          Linked(t.bucketArray[b], made[b]) && AllCopied(made[b], chains[b], copyData)
        invariant fresh(all) && forall b, x :: 0 <= b < i && x in made[b] ==> x in all
      {
        var first;
        ghost var s;
        first, s := CopyBucketArray(bucketArray[i], chains[i], copyData);
        t.bucketArray[i] := first;
        made, all := made + [s], all + set x | x in s;
      }
    }

    /** A table of its own with the same keys, in the same chains and order. */
    method Copy(copyData: Bytes -> Bytes) returns (t: Table)
      requires Valid()
      ensures t.Valid() && fresh(t) && t.nbuckets == nbuckets && t.nentries == nentries
      ensures t.entries.Keys == entries.Keys
      ensures forall k :: k in entries ==> fresh(t.entries[k]) && Copied(t.entries[k], entries[k], copyData)
    {
      hide Hash, Home, Filed, Linked, AllCopied, Copied, CopiedEntries;
      FiledSize(chains, entries, nbuckets);
      t := new Table(nbuckets);
      ghost var made, all := CopyChains(t, copyData);
      t.nentries := nentries;
      CopiedMirrors(made, chains, copyData);
      ghost var es := CopiedEntries(made, chains, entries, nbuckets);
      EntriesCopied(made, chains, entries, nbuckets, copyData);
      AllHaveThem(made, es, entries, nbuckets, all);
      t.Adopt(made, es, all, entries, copyData);
    }

    /** Takes note of chains put into the buckets from outside, whose items are copies of others. */
    ghost method Adopt(made: Chains, es: Entries, all: set<Item>, originals: Entries, copyData: Bytes -> Bytes)
      requires Filed(made, es, nbuckets) && bucketArray.Length == nbuckets && nentries == |es|
      requires forall b :: 0 <= b < nbuckets ==> Linked(bucketArray[b], made[b])
      requires forall b, x :: 0 <= b < nbuckets && x in made[b] ==> x in all
      requires originals.Keys <= es.Keys && forall k :: k in originals ==> Copied(es[k], originals[k], copyData)
      modifies `chains, `entries, `items
      ensures Valid() && chains == made && entries == es && items == all
      ensures forall k :: k in originals ==> Copied(es[k], originals[k], copyData)
    {
      hide Hash, Home, Filed, Linked;
      FiledSize(made, es, nbuckets);
      chains, entries, items := made, es, all;
    }
  }

  lemma CopiedMirrors(copy: Chains, chains: Chains, copyData: Bytes -> Bytes)
    requires |copy| == |chains| && forall b :: 0 <= b < |chains| ==> AllCopied(copy[b], chains[b], copyData)
    ensures forall b :: 0 <= b < |chains| ==> Mirrors(copy[b], chains[b])
  {
    forall b | 0 <= b < |chains| ensures Mirrors(copy[b], chains[b]) {
      assert AllCopied(copy[b], chains[b], copyData);
    }
  }

  lemma AllHaveThem(copy: Chains, es: Entries, entries: Entries, n: nat, all: set<Item>)
    requires n > 0 && |copy| == n && entries.Keys <= es.Keys
    requires forall k :: k in entries ==> es[k] in copy[Home(k, n)]
    requires forall b, x :: 0 <= b < n && x in copy[b] ==> x in all
    ensures forall k :: k in entries ==> es[k] in all
  {
    hide Hash;
  }

  lemma EntriesCopied(copy: Chains, chains: Chains, entries: Entries, n: nat, copyData: Bytes -> Bytes)
    requires Filed(chains, entries, n) && |copy| == n
    requires forall b :: 0 <= b < n ==> AllCopied(copy[b], chains[b], copyData)
    requires forall b :: 0 <= b < n ==> Mirrors(copy[b], chains[b])
    ensures var made := CopiedEntries(copy, chains, entries, n);
      && Filed(copy, made, n) && made.Keys == entries.Keys && |made| == |entries|
      && forall k :: k in entries ==> made[k] in copy[Home(k, n)] && Copied(made[k], entries[k], copyData)
  {
    hide Hash, Home, Total, CopiedEntries, Copied;
    CopyIsFiled(copy, chains, entries, n);
    forall k | k in entries
      ensures CopiedEntries(copy, chains, entries, n)[k] in copy[Home(k, n)]
      ensures Copied(CopiedEntries(copy, chains, entries, n)[k], entries[k], copyData)
    {
      var b := Home(k, n);
      var j :| 0 <= j < |chains[b]| && chains[b][j] == entries[k];
      assert AllCopied(copy[b], chains[b], copyData);
      assert CopiedEntries(copy, chains, entries, n)[chains[b][j].key] == copy[b][j];
    }
  }

  /** The same key, hash, count and, through `copyData`, data. */
  ghost predicate Copied(x: Item, original: Item, copyData: Bytes -> Bytes)
    reads x`data, x`timesFound, original`data, original`timesFound
  {
    && x.key == original.key && x.khash == original.khash && x.timesFound == original.timesFound
    && x.data == if original.data == Missing then Missing else Present(copyData(original.data.bytes))
  }

  ghost predicate AllCopied(s: seq<Item>, original: seq<Item>, copyData: Bytes -> Bytes)
    reads s`data, s`timesFound, original`data, original`timesFound
  {
    |s| == |original| && forall j :: 0 <= j < |s| ==> Copied(s[j], original[j], copyData)
  }

  /** Hooks a new last item onto a list. */
  method Append(bucket: Item?, n: Item?, next: Item, ghost s: seq<Item>) returns (newBucket: Item?)
    requires Linked(bucket, s) && n == (if s == [] then null else s[|s| - 1])
    requires next !in s && next.next == null
    modifies (if n == null then {} else {n})`next
    ensures Linked(newBucket, s + [next])
  {
    newBucket := bucket;
    if n == null {
      newBucket := next;
    } else {
      n.next := next;
    }
    ghost var t := s + [next];
    forall j, k | 0 <= j && j + 1 == k && k < |t| ensures t[j].next == t[k] {
      if k < |s| {
        assert old(s[j].next) == s[k];
      }
    }
  }

  lemma CopiedOneMore(s: seq<Item>, x: Item, original: seq<Item>, copyData: Bytes -> Bytes)
    requires |s| < |original| && AllCopied(s, original[..|s|], copyData) && Copied(x, original[|s|], copyData)
    ensures AllCopied(s + [x], original[..|s| + 1], copyData)
  {
  }

  /** A copy of one item, not linked yet. */
  method CopyItem(e: Item, copyData: Bytes -> Bytes) returns (x: Item)
    ensures fresh(x) && x.next == null && Copied(x, e, copyData)
  {
    x := new Item(e.key, e.khash, null);
    x.data := if e.data == Missing then Missing else Present(copyData(e.data.bytes));
    x.timesFound := e.timesFound;
  }

  /** Copies one chain, appending at its end. */
  method CopyBucketArray(ba: Item?, ghost original: seq<Item>, copyData: Bytes -> Bytes)
    returns (newBucket: Item?, ghost s: seq<Item>)
    requires Linked(ba, original)
    ensures Linked(newBucket, s) && AllCopied(s, original, copyData)
    ensures forall x :: x in s ==> fresh(x)
  {
    newBucket, s := null, [];
    var n: Item? := null;
    var e := ba;
    while e != null
      invariant |s| <= |original| && e == if |s| < |original| then original[|s|] else null
      invariant Linked(newBucket, s) && n == if s == [] then null else s[|s| - 1]
      invariant AllCopied(s, original[..|s|], copyData)
      invariant (forall x :: x in s ==> fresh(x)) && (n != null ==> fresh(n))
      decreases |original| - |s|
    {
      LinkedAt(ba, original, |s|);
      var next := CopyItem(e, copyData);
      newBucket := Append(newBucket, n, next, s);
      CopiedOneMore(s, next, original, copyData);
      n := next;
      s := s + [next];
      e := e.next;
    }
    assert original[..|s|] == original;
  }

  method BucketOf(key: Bytes, hv: nat, n: nat) returns (b: nat)
    requires hv == Hash(key) && n > 0
    ensures b == Home(key, n)
  {
    b := Bucket(hv, n);
  }
}
