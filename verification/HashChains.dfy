/** What the chains of a hash table hold, apart from their links: every item in the bucket its hash selects, one
    item a key, and as many items as the map has keys. Keys and hashes of an item never change.
 */
module HashChains {
  import opened HashString

  /** The data pointer of an item. */
  datatype Data = Missing | Present(bytes: Bytes)

  class Item {
    const key: Bytes
    const khash: nat
    var data: Data
    var timesFound: nat
    var next: Item?

    constructor (key: Bytes, khash: nat, next: Item?)
      ensures this.key == key && this.khash == khash && this.next == next
      ensures data == Missing && timesFound == 0
    {
      this.key, this.khash, this.next := key, khash, next;
      data, timesFound := Missing, 0;
    }
  }

  type Chains = seq<seq<Item>>

  type Entries = map<Bytes, Item>

  function Total(chains: Chains): nat {
    if chains == [] then 0 else |chains[0]| + Total(chains[1..])
  }

  /** The bucket a key belongs to. */
  function Home(key: Bytes, n: nat): (b: nat)
    requires n > 0
    ensures b < n
  {
    Bucket(Hash(key), n)
  }

  ghost predicate Single(s: seq<Item>) {
    forall j, k :: 0 <= j < k < |s| ==> s[j] != s[k]
  }

  /** Item `x` is rightly in chain `b`. */
  ghost predicate Placed(x: Item, b: nat, n: nat, entries: Entries)
    requires n > 0
  {
    x.key in entries && entries[x.key] == x && x.khash == Hash(x.key) && b == Home(x.key, n)
  }

  ghost predicate Filed(chains: Chains, entries: Entries, n: nat) {
    && n > 0 && |chains| == n
    && (forall b, j :: 0 <= b < n && 0 <= j < |chains[b]| ==> Placed(chains[b][j], b, n, entries))
    && (forall b :: 0 <= b < n ==> Single(chains[b]))
    && (forall k :: k in entries ==> entries[k].key == k && entries[k] in chains[Home(k, n)])
    && Total(chains) == |entries|
  }

  lemma FiledSize(chains: Chains, entries: Entries, n: nat)
    requires Filed(chains, entries, n)
    ensures |chains| == n > 0
  {
  }

  /** Items of a filed table in different places have different keys. */
  lemma KeysAreUnique(chains: Chains, entries: Entries, n: nat, b: nat, j: nat, c: nat, k: nat)
    requires Filed(chains, entries, n) && b < n && c < n && j < |chains[b]| && k < |chains[c]|
    requires b != c || j != k
    ensures chains[b][j].key != chains[c][k].key
  {
    hide Hash, Home;
    assert Placed(chains[b][j], b, n, entries) && Placed(chains[c][k], c, n, entries);
  }

  lemma SingleWithout(s: seq<Item>, j: nat)
    requires Single(s) && j < |s|
    ensures Single(s[..j] + s[j + 1..])
    ensures forall k :: 0 <= k < |s| && k != j ==> s[k] != s[j]
  {
  }

  lemma {:induction false} TotalUpdate(chains: Chains, b: nat, s: seq<Item>)
    requires b < |chains|
    ensures Total(chains[b := s]) == Total(chains) - |chains[b]| + |s|
  {
    if b == 0 {
      assert chains[b := s][1..] == chains[1..];
    } else {
      TotalUpdate(chains[1..], b - 1, s);
      assert chains[b := s][1..] == chains[1..][b - 1 := s];
    }
  }

  lemma {:induction false} TotalZero(chains: Chains, b: nat)
    requires Total(chains) == 0 && b < |chains|
    ensures chains[b] == []
  {
    if b > 0 {
      TotalZero(chains[1..], b - 1);
    }
  }

  /** Filing a new key at the front of its chain. */
  lemma FiledWith(chains: Chains, entries: Entries, n: nat, x: Item)
    requires Filed(chains, entries, n) && x.key !in entries && x.khash == Hash(x.key)
    ensures var b := Home(x.key, n);
      Filed(chains[b := [x] + chains[b]], entries[x.key := x], n)
  {
    hide Hash, Home, Total;
    var b := Home(x.key, n);
    TotalUpdate(chains, b, [x] + chains[b]);
    var after, map' := chains[b := [x] + chains[b]], entries[x.key := x];
    forall c, j | 0 <= c < n && 0 <= j < |after[c]| ensures Placed(after[c][j], c, n, map') {
      if c == b && j > 0 {
        assert Placed(chains[b][j - 1], b, n, entries);
      } else if c != b {
        assert Placed(chains[c][j], c, n, entries);
      }
    }
    assert forall j :: 0 <= j < |chains[b]| ==> Placed(chains[b][j], b, n, entries);
    assert |map'| == |entries| + 1;
  }

  lemma TwoOfAKey(chains: Chains, entries: Entries, n: nat, b: nat, j: nat, k: nat)
    requires b < n == |chains| && j < k < |chains[b]| && chains[b][j].key == chains[b][k].key
    requires chains[b][j] != chains[b][k]
    ensures !Filed(chains, entries, n)
  {
  }

  /** The chains with an item put in front of the one its hash selects. */
  ghost function InFront(chains: Chains, x: Item, n: nat): Chains
    requires |chains| == n > 0
  {
    chains[Home(x.key, n) := [x] + chains[Home(x.key, n)]]
  }

  /** An insertion that skips the search keeps the table filed exactly when the key is new. */
  lemma FiledIffNew(chains: Chains, entries: Entries, n: nat, x: Item)
    requires Filed(chains, entries, n) && x.khash == Hash(x.key) && x !in entries.Values
    ensures (exists es :: Filed(InFront(chains, x, n), es, n)) <==> x.key !in entries
  {
    hide Hash, Home, Total;
    var b := Home(x.key, n);
    var after := InFront(chains, x, n);
    if x.key in entries {
      var y := entries[x.key];
      var j :| 0 <= j < |chains[b]| && chains[b][j] == y;
      assert after[b][0] == x && after[b][j + 1] == y;
      forall es ensures !Filed(after, es, n) {
        TwoOfAKey(after, es, n, b, 0, j + 1);
      }
    } else {
      FiledWith(chains, entries, n, x);
      var es := entries[x.key := x];
      assert Filed(after, es, n);
    }
  }

  /** Taking the j-th item of a chain out. */
  lemma FiledWithout(chains: Chains, entries: Entries, n: nat, b: nat, j: nat)
    requires Filed(chains, entries, n) && b < n && j < |chains[b]|
    ensures Filed(chains[b := chains[b][..j] + chains[b][j + 1..]], entries - {chains[b][j].key}, n)
    ensures chains[b][j].key in entries && entries[chains[b][j].key] == chains[b][j]
  {
    hide Hash, Home, Total, Single;
    var s, x := chains[b], chains[b][j];
    var t := s[..j] + s[j + 1..];
    SingleWithout(s, j);
    TotalUpdate(chains, b, t);
    assert Placed(x, b, n, entries);
    var after, map' := chains[b := t], entries - {x.key};
    forall c, k | 0 <= c < n && 0 <= k < |after[c]| ensures Placed(after[c][k], c, n, map') {
      var old' := if c == b && k >= j then k + 1 else k;
      assert after[c][k] == chains[c][old'];
      assert Placed(chains[c][old'], c, n, entries);
    }
    forall k | k in map' ensures map'[k] in after[Home(k, n)] {
      var y := entries[k];
      var i :| 0 <= i < |chains[Home(k, n)]| && chains[Home(k, n)][i] == y;
      if Home(k, n) == b {
        assert t[if i < j then i else i - 1] == y;
      }
    }
    assert entries == map'[x.key := x];
  }

  /** Nothing filed. */
  lemma {:induction false} FiledNothing(chains: Chains, n: nat)
    requires n > 0 && |chains| == n && forall b :: 0 <= b < n ==> chains[b] == []
    ensures Filed(chains, map[], n)
  {
    TotalNothing(chains);
  }

  lemma {:induction false} TotalNothing(chains: Chains)
    requires forall b :: 0 <= b < |chains| ==> chains[b] == []
    ensures Total(chains) == 0
  {
    if chains != [] {
      TotalNothing(chains[1..]);
    }
  }

  /** Item for item the same keys and hashes, in the same places. */
  ghost predicate Mirrors(s: seq<Item>, original: seq<Item>) {
    && |s| == |original|
    && forall j :: 0 <= j < |s| ==> s[j].key == original[j].key && s[j].khash == original[j].khash
  }

  /** The item of a chain with a key. */
  ghost function Pick(s: seq<Item>, key: Bytes): (x: Item)
    requires exists j :: 0 <= j < |s| && s[j].key == key
    ensures x in s && x.key == key
  {
    var j :| 0 <= j < |s| && s[j].key == key;
    s[j]
  }

  lemma {:induction false} TotalMirrors(copy: Chains, chains: Chains)
    requires |copy| == |chains| && forall b :: 0 <= b < |chains| ==> Mirrors(copy[b], chains[b])
    ensures Total(copy) == Total(chains)
  {
    if chains != [] {
      assert Mirrors(copy[0], chains[0]);
      forall b | 0 <= b < |chains| - 1 ensures Mirrors(copy[1..][b], chains[1..][b]) {
        assert Mirrors(copy[b + 1], chains[b + 1]);
      }
      TotalMirrors(copy[1..], chains[1..]);
    }
  }

  ghost function CopiedEntries(copy: Chains, chains: Chains, entries: Entries, n: nat): Entries
    requires Filed(chains, entries, n)
    requires |copy| == n && forall b :: 0 <= b < n ==> Mirrors(copy[b], chains[b])
  {
    map k | k in entries :: (CopyHasKey(copy, chains, entries, n, k); Pick(copy[Home(k, n)], k))
  }

  lemma CopyHasKey(copy: Chains, chains: Chains, entries: Entries, n: nat, k: Bytes)
    requires Filed(chains, entries, n) && k in entries
    requires |copy| == n && forall b :: 0 <= b < n ==> Mirrors(copy[b], chains[b])
    ensures exists j :: 0 <= j < |copy[Home(k, n)]| && copy[Home(k, n)][j].key == k
  {
    hide Hash, Home, Total;
    var b := Home(k, n);
    assert Mirrors(copy[b], chains[b]);
    var j :| 0 <= j < |chains[b]| && chains[b][j] == entries[k];
    assert copy[b][j].key == k;
  }

  /** One copied item. */
  lemma CopyPlaced(copy: Chains, chains: Chains, entries: Entries, n: nat, b: nat, j: nat)
    requires Filed(chains, entries, n)
    requires |copy| == n && forall c :: 0 <= c < n ==> Mirrors(copy[c], chains[c])
    requires b < n && j < |copy[b]|
    ensures j < |chains[b]| && chains[b][j].key in entries
    ensures var copies := CopiedEntries(copy, chains, entries, n);
      Placed(copy[b][j], b, n, copies) && copies[chains[b][j].key] == copy[b][j]
  {
    hide Hash, Home, Total;
    assert Mirrors(copy[b], chains[b]);
    assert Placed(chains[b][j], b, n, entries);
    var k := copy[b][j].key;
    CopyHasKey(copy, chains, entries, n, k);
    var x := Pick(copy[b], k);
    forall i | 0 <= i < |copy[b]| && i != j ensures copy[b][i].key != k {
      KeysAreUnique(chains, entries, n, b, i, b, j);
    }
  }

  lemma CopySingle(copy: Chains, chains: Chains, entries: Entries, n: nat, b: nat)
    requires Filed(chains, entries, n)
    requires |copy| == n && forall c :: 0 <= c < n ==> Mirrors(copy[c], chains[c])
    requires b < n
    ensures Single(copy[b])
  {
    hide Hash, Home, Total, Filed;
    FiledSize(chains, entries, n);
    assert Mirrors(copy[b], chains[b]);
    forall j, k | 0 <= j < k < |copy[b]| ensures copy[b][j] != copy[b][k] {
      KeysAreUnique(chains, entries, n, b, j, b, k);
    }
  }

  lemma CopyFinds(copy: Chains, chains: Chains, entries: Entries, n: nat, k: Bytes)
    requires Filed(chains, entries, n) && k in entries
    requires |copy| == n && forall b :: 0 <= b < n ==> Mirrors(copy[b], chains[b])
    ensures var copies := CopiedEntries(copy, chains, entries, n);
      k in copies && copies[k].key == k && copies[k] in copy[Home(k, n)]
  {
    hide Hash, Home, Total, Filed, Mirrors;
    CopyHasKey(copy, chains, entries, n, k);
  }

  lemma MirrorsLength(s: seq<Item>, original: seq<Item>)
    requires Mirrors(s, original)
    ensures |s| == |original|
  {
  }

  /** A table copied item for item, in the same order, is filed under the same keys. */
  lemma CopyIsFiled(copy: Chains, chains: Chains, entries: Entries, n: nat)
    requires Filed(chains, entries, n)
    requires |copy| == n && forall b :: 0 <= b < n ==> Mirrors(copy[b], chains[b])
    ensures Filed(copy, CopiedEntries(copy, chains, entries, n), n)
    ensures CopiedEntries(copy, chains, entries, n).Keys == entries.Keys
    ensures |CopiedEntries(copy, chains, entries, n)| == |entries|
    ensures forall b, j :: 0 <= b < n && 0 <= j < |copy[b]| ==>
      chains[b][j].key in entries && CopiedEntries(copy, chains, entries, n)[chains[b][j].key] == copy[b][j]
  {
    hide Hash, Home, Total, Mirrors, Placed, Single, CopiedEntries;
    var map' := CopiedEntries(copy, chains, entries, n);
    TotalMirrors(copy, chains);
    CopyKeys(copy, chains, entries, n);
    forall b | 0 <= b < n ensures Single(copy[b]) && |copy[b]| == |chains[b]| {
      CopySingle(copy, chains, entries, n, b);
      MirrorsLength(copy[b], chains[b]);
    }
    forall b, j | 0 <= b < n && 0 <= j < |copy[b]|
      ensures Placed(copy[b][j], b, n, map')
      ensures chains[b][j].key in entries && map'[chains[b][j].key] == copy[b][j]
    {
      CopyPlaced(copy, chains, entries, n, b, j);
    }
    forall k | k in map' ensures map'[k].key == k && map'[k] in copy[Home(k, n)] {
      CopyFinds(copy, chains, entries, n, k);
    }
  }

  lemma CopyKeys(copy: Chains, chains: Chains, entries: Entries, n: nat)
    requires Filed(chains, entries, n)
    requires |copy| == n && forall b :: 0 <= b < n ==> Mirrors(copy[b], chains[b])
    ensures CopiedEntries(copy, chains, entries, n).Keys == entries.Keys
    ensures |CopiedEntries(copy, chains, entries, n)| == |entries|
  {
    hide Filed, Mirrors, Home;
    var map' := CopiedEntries(copy, chains, entries, n);
    assert map'.Keys == entries.Keys;
    assert |map'| == |map'.Keys| && |entries| == |entries.Keys|;
  }
}
