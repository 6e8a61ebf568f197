/** The descriptors of a pipeline: every child starts with the shell's table, in which all pipes are open, and
    duplicates and closes its way to the two ends it needs.
 */
module PipelineWiring {
  /** What a descriptor refers to: an end of the k-th pipe, or anything else. */
  datatype End = ReadEnd(k: int) | WriteEnd(k: int) | Other(id: int)

  type Descriptors = map<int, End>

  datatype PipeFds = PipeFds(readFd: int, writeFd: int)

  /** The redirection of descriptor `to` to an open file, or to -1 when it could not be opened. */
  datatype Dup = Dup(from: int, to: int)

  function Dup2(t: Descriptors, from: int, to: int): Descriptors {
    if from in t then t[to := t[from]] else t
  }

  function Close(t: Descriptors, fd: int): Descriptors {
    t - {fd}
  }

  ghost predicate Holds(t: Descriptors, e: End) {
    exists fd :: fd in t && t[fd] == e
  }

  /** The shell's table once the pipes are made: each end at its own descriptor and nowhere else, and none of
      them a standard descriptor, which are in use. */
  predicate Opened(t: Descriptors, ipc: seq<PipeFds>) {
    && (forall k :: 0 <= k < |ipc| ==>
          && ipc[k].readFd in t && t[ipc[k].readFd] == ReadEnd(k) && ipc[k].readFd !in {0, 1}
          && ipc[k].writeFd in t && t[ipc[k].writeFd] == WriteEnd(k) && ipc[k].writeFd !in {0, 1})
    && (forall fd :: fd in t && t[fd].ReadEnd? ==> 0 <= t[fd].k < |ipc| && fd == ipc[t[fd].k].readFd)
    && (forall fd :: fd in t && t[fd].WriteEnd? ==> 0 <= t[fd].k < |ipc| && fd == ipc[t[fd].k].writeFd)
  }

  /** Redirections take files, not pipes, and replace a standard descriptor. */
  predicate FromFiles(t: Descriptors, dups: seq<Dup>) {
    forall d :: 0 <= d < |dups| ==>
      dups[d].to in {0, 1} && dups[d].from !in {0, 1} && (dups[d].from in t ==> t[dups[d].from].Other?)
  }

  /** What the table of child `i` may and must contain. */
  ghost predicate Wired(r: Descriptors, ipc: seq<PipeFds>, i: nat) {
    && (forall fd :: fd in r && r[fd].ReadEnd? ==> r[fd].k + 1 == i)
    && (forall fd :: fd in r && r[fd].WriteEnd? ==> r[fd].k == i)
    && (0 < i <= |ipc| ==> ipc[i - 1].readFd in r && r[ipc[i - 1].readFd] == ReadEnd(i - 1))
    && (i < |ipc| ==> ipc[i].writeFd in r && r[ipc[i].writeFd] == WriteEnd(i))
  }

  /** None of the first `n` redirections changes descriptor `fd`. */
  predicate Unredirected(t: Descriptors, dups: seq<Dup>, n: nat, fd: int) {
    forall d :: 0 <= d < n && d < |dups| && dups[d].to == fd ==> dups[d].from !in t
  }

  /** Redirection `d` is the last of the first `n` that changes descriptor `fd`. */
  predicate LastTo(t: Descriptors, dups: seq<Dup>, n: nat, fd: int, d: nat) {
    && d < n <= |dups| && dups[d].to == fd && dups[d].from in t
    && forall c :: d < c < n && dups[c].to == fd ==> dups[c].from !in t
  }

  /** What the first `n` redirections make of descriptor `fd`, which was as in `s`: the file of the last that
      could be opened, and no change if there is none. */
  ghost predicate Redirected(r: Descriptors, s: Descriptors, t: Descriptors, dups: seq<Dup>, n: nat, fd: int) {
    && (Unredirected(t, dups, n, fd) ==> Same(r, s, fd))
    && (forall d: nat :: LastTo(t, dups, n, fd, d) ==> fd in r && r[fd] == t[dups[d].from])
  }

  /** One of the child's standard descriptors: the last redirection to it wins, then the pipe, then the shell's
      own. */
  ghost predicate Standard(r: Descriptors, t: Descriptors, fd: int, piped: bool, e: End, dups: seq<Dup>) {
    && (Unredirected(t, dups, |dups|, fd) ==> if piped then fd in r && r[fd] == e else Same(r, t, fd))
    && (forall d: nat :: LastTo(t, dups, |dups|, fd, d) ==> fd in r && r[fd] == t[dups[d].from])
  }

  /** One of the two cases applies. */
  lemma {:induction false} RedirectedOrNot(t: Descriptors, dups: seq<Dup>, n: nat, fd: int) returns (d: nat)
    requires n <= |dups|
    ensures Unredirected(t, dups, n, fd) || LastTo(t, dups, n, fd, d)
  {
    d := 0;
    if n > 0 {
      if dups[n - 1].to == fd && dups[n - 1].from in t {
        d := n - 1;
      } else {
        d := RedirectedOrNot(t, dups, n - 1, fd);
      }
    }
  }

  /** The ends child `i` may hold. */
  predicate Own(e: End, i: nat) {
    e.Other? || e == ReadEnd(i - 1) || e == WriteEnd(i)
  }

  /** After the first `j` pipes have been dealt with: other ends are left only in pipes still to come. */
  ghost predicate Closing(r: Descriptors, t: Descriptors, i: nat, j: nat) {
    && (forall fd :: fd in r && fd in {0, 1} ==> Own(r[fd], i))
    && (forall fd :: fd !in {0, 1} ==> (fd in r <==> fd in t && (Own(t[fd], i) || t[fd].k >= j)))
    && (forall fd :: fd !in {0, 1} && fd in r ==> r[fd] == t[fd])
  }

  /** Descriptor `fd` is the same in both tables. */
  predicate Same(r: Descriptors, t: Descriptors, fd: int) {
    (fd in r <==> fd in t) && (fd in r ==> r[fd] == t[fd])
  }

  /** Closing the ends of pipe `j` that are not the child's own. */
  lemma PipeClosed(r: Descriptors, t: Descriptors, ipc: seq<PipeFds>, i: nat, j: nat)
    requires Opened(t, ipc) && i <= |ipc| && j < |ipc| && Closing(r, t, i, j)
    ensures var r' := r - ((if j == i then {} else {ipc[j].writeFd}) + (if j + 1 == i then {} else {ipc[j].readFd}));
      Closing(r', t, i, j + 1) && Same(r', r, 0) && Same(r', r, 1)
  {
  }

  /** The loop that closes every end the child does not need. */
  method CloseOthers(s: Descriptors, ghost t: Descriptors, ipc: seq<PipeFds>, i: nat) returns (r: Descriptors)
    requires Opened(t, ipc) && i <= |ipc| && Closing(s, t, i, 0)
    ensures Closing(r, t, i, |ipc|) && Same(r, s, 0) && Same(r, s, 1)
  {
    hide Opened, Closing;
    r := s;
    for j := 0 to |ipc|
      invariant Closing(r, t, i, j) && Same(r, s, 0) && Same(r, s, 1)
    {
      PipeClosed(r, t, ipc, i, j);
      ghost var was := r;
      if j == i - 1 {
        r := Close(r, ipc[j].writeFd);
        assert r == was - ({ipc[j].writeFd} + {});
      } else if j == i {
        r := Close(r, ipc[j].readFd);
        assert r == was - ({} + {ipc[j].readFd});
      } else {
        r := Close(r, ipc[j].readFd);
        r := Close(r, ipc[j].writeFd);
        assert r == was - ({ipc[j].writeFd} + {ipc[j].readFd});
      }
    }
  }

  /** The loop over the stage's redirections. */
  method Redirect(s: Descriptors, ghost t: Descriptors, ghost i: nat, ghost n: nat, dups: seq<Dup>)
    returns (r: Descriptors)
    requires FromFiles(t, dups) && Closing(s, t, i, n)
    ensures Closing(r, t, i, n)
    ensures Redirected(r, s, t, dups, |dups|, 0) && Redirected(r, s, t, dups, |dups|, 1)
  {
    hide FromFiles, Closing, Redirected, Dup2;
    r := s;
    NoRedirectionYet(s, t, dups);
    for d := 0 to |dups|
      invariant Closing(r, t, i, n)
      invariant Redirected(r, s, t, dups, d, 0) && Redirected(r, s, t, dups, d, 1)
    {
      FileStays(r, t, i, n, dups, d);
      OneMoreRedirection(r, s, t, dups, d, 0);
      OneMoreRedirection(r, s, t, dups, d, 1);
      r := Dup2(r, dups[d].from, dups[d].to);
    }
  }

  lemma NoRedirectionYet(s: Descriptors, t: Descriptors, dups: seq<Dup>)
    ensures Redirected(s, s, t, dups, 0, 0) && Redirected(s, s, t, dups, 0, 1)
  {
  }

  lemma FileStays(r: Descriptors, t: Descriptors, i: nat, n: nat, dups: seq<Dup>, d: nat)
    requires Closing(r, t, i, n) && d < |dups| && FromFiles(t, dups)
    ensures Same(r, t, dups[d].from) && Closing(Dup2(r, dups[d].from, dups[d].to), t, i, n)
  {
  }

  /** A redirection that changes `fd` is the last so far. */
  lemma LastHere(t: Descriptors, dups: seq<Dup>, n: nat, fd: int, d: nat)
    requires n < |dups| && dups[n].to == fd && dups[n].from in t
    ensures !Unredirected(t, dups, n + 1, fd)
    ensures LastTo(t, dups, n + 1, fd, d) ==> d == n
  {
  }

  /** One that does not leaves the last where it was. */
  lemma LastBefore(t: Descriptors, dups: seq<Dup>, n: nat, fd: int, d: nat)
    requires n < |dups| && !(dups[n].to == fd && dups[n].from in t)
    ensures Unredirected(t, dups, n + 1, fd) ==> Unredirected(t, dups, n, fd)
    ensures LastTo(t, dups, n + 1, fd, d) ==> LastTo(t, dups, n, fd, d)
  {
  }

  lemma Duplicated(r: Descriptors, t: Descriptors, dup: Dup, fd: int)
    requires Same(r, t, dup.from)
    ensures var r' := Dup2(r, dup.from, dup.to);
      if dup.to == fd && dup.from in t then fd in r' && r'[fd] == t[dup.from] else Same(r', r, fd)
  {
  }

  lemma OneMoreRedirection(r: Descriptors, s: Descriptors, t: Descriptors, dups: seq<Dup>, n: nat, fd: int)
    requires n < |dups| && Redirected(r, s, t, dups, n, fd)
    requires Same(r, t, dups[n].from)
    ensures Redirected(Dup2(r, dups[n].from, dups[n].to), s, t, dups, n + 1, fd)
  {
    hide Unredirected, Dup2;
    var r' := Dup2(r, dups[n].from, dups[n].to);
    Duplicated(r, t, dups[n], fd);
    if dups[n].to == fd && dups[n].from in t {
      LastHere(t, dups, n, fd, n);
      forall d: nat | LastTo(t, dups, n + 1, fd, d) ensures fd in r' && r'[fd] == t[dups[d].from] {
        LastHere(t, dups, n, fd, d);
      }
    } else {
      LastBefore(t, dups, n, fd, n);
      forall d: nat | LastTo(t, dups, n + 1, fd, d) ensures fd in r' && r'[fd] == t[dups[d].from] {
        LastBefore(t, dups, n, fd, d);
      }
    }
  }

  /** The two duplications onto the standard descriptors. */
  method Attach(t: Descriptors, ipc: seq<PipeFds>, i: nat) returns (r: Descriptors)
    requires Opened(t, ipc) && i <= |ipc|
    ensures Closing(r, t, i, 0)
    ensures if i > 0 then 0 in r && r[0] == ReadEnd(i - 1) else Same(r, t, 0)
    ensures if i < |ipc| then 1 in r && r[1] == WriteEnd(i) else Same(r, t, 1)
  {
    r := t;
    if i > 0 {
      r := Dup2(r, ipc[i - 1].readFd, 0);
    }
    if i < |ipc| {
      r := Dup2(r, ipc[i].writeFd, 1);
    }
  }

  lemma ClosedIsWired(r: Descriptors, t: Descriptors, ipc: seq<PipeFds>, i: nat)
    requires Opened(t, ipc) && i <= |ipc| && Closing(r, t, i, |ipc|)
    ensures Wired(r, ipc, i)
  {
  }

  /** What child `i` of a pipeline does before it runs its command. */
  method WireChild(t: Descriptors, ipc: seq<PipeFds>, i: nat, dups: seq<Dup>) returns (r: Descriptors)
    requires Opened(t, ipc) && FromFiles(t, dups) && i <= |ipc|
    ensures Wired(r, ipc, i)
    ensures Standard(r, t, 0, i > 0, ReadEnd(i - 1), dups)
    ensures Standard(r, t, 1, i < |ipc|, WriteEnd(i), dups)
  {
    hide Opened, FromFiles, Closing, Wired, Unredirected, LastTo;
    r := Attach(t, ipc, i);
    r := CloseOthers(r, t, ipc, i);
    r := Redirect(r, t, i, |ipc|, dups);
    ClosedIsWired(r, t, ipc, i);
  }

  /** Child `i` holds the write end of pipe i and the read end of the pipe before it, no other, and has them
      on its standard descriptors unless redirected. */
  ghost predicate Placed(r: Descriptors, t: Descriptors, ipc: seq<PipeFds>, i: nat, dups: seq<Dup>) {
    && (forall k :: 0 <= k < |ipc| ==> (Holds(r, WriteEnd(k)) <==> i == k))
    && (forall k :: 0 <= k < |ipc| ==> (Holds(r, ReadEnd(k)) <==> i == k + 1))
    && Standard(r, t, 0, i > 0, ReadEnd(i - 1), dups)
    && Standard(r, t, 1, i < |ipc|, WriteEnd(i), dups)
  }

  lemma WiredIsPlaced(r: Descriptors, t: Descriptors, ipc: seq<PipeFds>, i: nat, dups: seq<Dup>)
    requires Wired(r, ipc, i) && i <= |ipc|
    requires Standard(r, t, 0, i > 0, ReadEnd(i - 1), dups) && Standard(r, t, 1, i < |ipc|, WriteEnd(i), dups)
    ensures Placed(r, t, ipc, i, dups)
  {
  }

  /** Wires every child and closes the shell's own ends. Then the write end of each pipe is held by its
      writer alone and the read end by its reader alone. */
  method Launch(t: Descriptors, ipc: seq<PipeFds>, dups: seq<seq<Dup>>)
    returns (children: seq<Descriptors>, shell: Descriptors)
    requires Opened(t, ipc) && |dups| == |ipc| + 1 && forall i :: 0 <= i < |dups| ==> FromFiles(t, dups[i])
    ensures |children| == |ipc| + 1
    ensures forall i :: 0 <= i < |children| ==> Placed(children[i], t, ipc, i, dups[i])
    ensures forall k :: !Holds(shell, WriteEnd(k)) && !Holds(shell, ReadEnd(k))
  {
    hide Opened, Wired, Holds, Standard, FromFiles, Placed;
    children := [];
    for i := 0 to |dups|
      invariant |children| == i
      invariant forall c :: 0 <= c < i ==> Placed(children[c], t, ipc, c, dups[c])
    {
      var child := WireChild(t, ipc, i, dups[i]);
      WiredIsPlaced(child, t, ipc, i, dups[i]);
      children := children + [child];
    }
    shell := CloseAll(t, ipc);
  }

  method CloseAll(t: Descriptors, ipc: seq<PipeFds>) returns (r: Descriptors)
    requires Opened(t, ipc)
    ensures forall k :: !Holds(r, WriteEnd(k)) && !Holds(r, ReadEnd(k))
    ensures forall fd :: fd in t && t[fd].Other? ==> fd in r && r[fd] == t[fd]
  {
    r := t;
    for j := 0 to |ipc|
      invariant forall fd :: fd in r ==> fd in t && r[fd] == t[fd]
      invariant forall fd :: fd in t ==> (fd in r <==> t[fd].Other? || t[fd].k >= j)
    {
      r := Close(r, ipc[j].readFd);
      r := Close(r, ipc[j].writeFd);
    }
  }
}
