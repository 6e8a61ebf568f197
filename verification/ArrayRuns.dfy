/** Whole runs over several arrays: whatever sequence of operations is performed through the linked lists and
    the shared cursor, the answers are those of the plain model.
 */
module ArrayRuns {
  import opened ArrayModel
  import opened ArrayHeap
  import opened ArrayCursor

  /** The arrays are numbered in the order of their creation; a number not yet given stands for null. */
  datatype Command =
    | Create
    | Insert(a: nat, i: int, v: Value)
    | Remove(a: nat, i: int)
    | Reference(a: nat, i: int)
    | Shift(a: nat, n: int)
    | Rshift(a: nat, n: int, s: Value)
    | Flush(a: nat)

  datatype Answer = Silent | Status(code: int) | Found(v: Value) | Gone(entries: seq<Entry>)

  /** Callers never pass a negative subscript. */
  predicate Sane(c: Command) {
    c.Insert? ==> c.i >= 0
  }

  type Model = seq<seq<Entry>>

  /** What a command makes of the one array it names. */
  ghost function Changed(e: seq<Entry>, c: Command): seq<Entry> {
    match c
    case Insert(_, i, v) => Inserted(e, i, v)
    case Remove(_, i) => Removed(e, i)
    case Shift(_, n) => Shifted(e, n)
    case Rshift(_, n, s) => Rshifted(e, n, s)
    case Flush(_) => []
    case _ => e
  }

  /** What it answers; `live` is false for the null array. */
  ghost function Told(live: bool, e: seq<Entry>, c: Command): Answer {
    match c
    case Insert(_, i, v) => Status(if live then 0 else -1)
    case Remove(_, i) => Gone(if live && i in AsMap(e) then [Entry(i, AsMap(e)[i])] else [])
    case Reference(_, i) => Found(if live then Fetch(AsMap(e), i) else Null)
    case Rshift(_, n, s) => Status(if live then |Rshifted(e, n, s)| else 0)
    case _ => Silent
  }

  ghost function Next(m: Model, c: Command): Model {
    if c.Create? then m + [[]]
    else if c.a < |m| then m[c.a := Changed(m[c.a], c)]
    else m
  }

  ghost function Reply(m: Model, c: Command): Answer {
    if c.Create? then Silent
    else if c.a < |m| then Told(true, m[c.a], c)
    else Told(false, [], c)
  }

  ghost function ModelAfter(cs: seq<Command>): Model {
    if cs == [] then [] else Next(ModelAfter(cs[..|cs| - 1]), cs[|cs| - 1])
  }

  ghost function Replies(cs: seq<Command>): seq<Answer> {
    if cs == [] then []
    else
      var before := cs[..|cs| - 1];
      Replies(before) + [Reply(ModelAfter(before), cs[|cs| - 1])]
  }

  /** Every array of the model stays ordered and without negative indices. */
  lemma {:induction false} ModelStaysSound(cs: seq<Command>)
    requires forall k :: 0 <= k < |cs| ==> Sane(cs[k])
    ensures forall j :: 0 <= j < |ModelAfter(cs)| ==> Ordered(ModelAfter(cs)[j]) && NonNegative(ModelAfter(cs)[j])
  {
    if cs != [] {
      var before, c := cs[..|cs| - 1], cs[|cs| - 1];
      ModelStaysSound(before);
      NextStaysSound(ModelAfter(before), c);
    }
  }

  lemma NextStaysSound(m: Model, c: Command)
    requires Sane(c) && forall j :: 0 <= j < |m| ==> Ordered(m[j]) && NonNegative(m[j])
    ensures forall j :: 0 <= j < |Next(m, c)| ==> Ordered(Next(m, c)[j]) && NonNegative(Next(m, c)[j])
  {
    hide Ordered, NonNegative, Inserted, Removed, Shifted, Rshifted;
    EmptyIsSound();
    if !c.Create? && c.a < |m| {
      var e := m[c.a];
      match c
      case Insert(_, i, v) =>
        InsertUpdatesMap(e, i, v);
        OperationsKeepSign(e, i, v);
      case Remove(_, i) =>
        RemoveDeletesKey(e, i);
        OperationsKeepSign(e, i, Null);
      case Shift(_, n) => ShiftKeepsOrder(e, n);
      case Rshift(_, n, s) => RshiftKeepsOrderIff(e, n, s);
      case _ =>
    }
  }

  lemma EmptyIsSound()
    ensures Ordered([]) && NonNegative([])
  {
  }

  /** The arrays hold the model, nothing else writes them, and the store may write them all. */
  ghost predicate Represents(store: Arrays, handles: seq<Array>, m: Model)
    reads store, handles
  {
    && |handles| == |m|
    && (forall j :: 0 <= j < |m| ==> handles[j] in store.arrays && handles[j].contents == m[j])
    && (forall j, k :: 0 <= j < k < |m| ==> handles[j] != handles[k])
  }

  method Apply(store: Arrays, a: Array?, c: Command) returns (answer: Answer)
    requires store.Valid() && (a != null ==> a in store.arrays) && !c.Create?
    requires Sane(c) && (a != null ==> NonNegative(a.contents))
    modifies store`lastarray, store`lastref, store.Reach(a)
    ensures store.Valid()
    ensures a != null ==> a.contents == old(Changed(a.contents, c))
    ensures a != null ==> forall e :: e in a.nodes ==> e in old(a.nodes) || fresh(e)
    ensures answer == if a == null then Told(false, [], c) else old(Told(true, a.contents, c))
  {
    hide Ordered, AsMap, Inserted, Removed, Moved, Shifted, Rshifted, Arrays.Valid;
    answer := Silent;
    match c {
      case Insert(_, i, v) =>
        var r := store.Insert(a, i, v);
        answer := Status(r);
      case Remove(_, i) =>
        var ae := store.Remove(a, i);
        answer := Gone(if ae == null then [] else [Entry(ae.ind, ae.value)]);
      case Reference(_, i) =>
        var v := store.Reference(a, i);
        answer := Found(v);
      case Shift(_, n) =>
        var _ := store.Shift(a, n, true);
      case Rshift(_, n, s) =>
        var r := store.Rshift(a, n, s);
        answer := Status(r);
      case Flush(_) =>
        store.Flush(a);
    }
  }

  method Make(store: Arrays, handles: seq<Array>, ghost m: Model) returns (now: seq<Array>)
    requires store.Valid() && Represents(store, handles, m)
    modifies store
    ensures store.Valid() && Represents(store, now, m + [[]])
    ensures forall b :: b in store.arrays ==> b in old(store.arrays) || fresh(b)
    ensures forall e :: e in store.Footprint() ==> e in old(store.Footprint()) || fresh(e)
  {
    hide Arrays.Valid;
    var a := store.Create();
    now := handles + [a];
  }

  method ApplyTo(store: Arrays, handles: seq<Array>, ghost m: Model, c: Command) returns (answer: Answer)
    requires store.Valid() && Represents(store, handles, m) && !c.Create? && c.a < |m|
    requires Sane(c) && NonNegative(m[c.a])
    modifies store, handles, store.Footprint()
    ensures store.Valid() && Represents(store, handles, m[c.a := Changed(m[c.a], c)])
    ensures answer == Told(true, m[c.a], c) && store.arrays == old(store.arrays)
    ensures forall e :: e in store.Footprint() ==> e in old(store.Footprint()) || fresh(e)
  {
    hide Changed, Told, Arrays.Valid;
    answer := Apply(store, handles[c.a], c);
  }

  method Step(store: Arrays, handles: seq<Array>, ghost m: Model, c: Command)
    returns (now: seq<Array>, answer: Answer)
    requires store.Valid() && Represents(store, handles, m)
    requires Sane(c) && forall j :: 0 <= j < |m| ==> NonNegative(m[j])
    modifies store, handles, store.Footprint()
    ensures store.Valid() && Represents(store, now, Next(m, c))
    ensures answer == Reply(m, c)
    ensures forall b :: b in store.arrays ==> b in old(store.arrays) || fresh(b)
    ensures forall e :: e in store.Footprint() ==> e in old(store.Footprint()) || fresh(e)
  {
    hide Changed, Told, Arrays.Valid;
    now, answer := handles, Silent;
    if c.Create? {
      now := Make(store, handles, m);
    } else if c.a < |handles| {
      answer := ApplyTo(store, handles, m, c);
    } else {
      answer := Apply(store, null, c);
    }
  }

  /** Performs the commands one after another through the lists and the cursor. The answers are the model's. */
  method Perform(cs: seq<Command>) returns (answers: seq<Answer>)
    requires forall k :: 0 <= k < |cs| ==> Sane(cs[k])
    ensures answers == Replies(cs)
  {
    hide Next, Reply, Ordered, Arrays.Valid;
    var store := new Arrays();
    var handles: seq<Array> := [];
    answers := [];
    for n := 0 to |cs|
      invariant fresh(store) && fresh(store.arrays) && fresh(store.Footprint())
      invariant store.Valid() && Represents(store, handles, ModelAfter(cs[..n]))
      invariant answers == Replies(cs[..n])
    {
      ModelStaysSound(cs[..n]);
      assert cs[..n + 1][..n] == cs[..n];
      var answer;
      handles, answer := Step(store, handles, ModelAfter(cs[..n]), cs[n]);
      answers := answers + [answer];
    }
    assert cs[..|cs|] == cs;
  }
}
