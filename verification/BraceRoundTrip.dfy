/** Printing names as a brace word and expanding the word gives the names back.

    The names may hold any characters: what comes back is each name in quoted form, and quote removal
    turns it into the name itself. Names without special characters come back unchanged.
 */
module BraceRoundTrip {
  import opened BraceScan
  import opened CStrings
  import opened BraceExpansion
  import W = BraceWords
  import opened BracePrinter

  // ---------------------------------------------------------------- the order the names are sorted by

  /** A C string: bytes other than NUL. */
  predicate CString(s: string) {
    forall k: nat | k < |s| :: 0 < s[k] as int < 256
  }

  /** strcmp, on unsigned bytes. */
  function StrCmp(a: string, b: string): int {
    if a == [] || b == [] || a[0] != b[0] then CharAt(a, 0) as int - CharAt(b, 0) as int
    else StrCmp(a[1..], b[1..])
  }

  function Signed(c: char): int {
    if c as int < 128 then c as int else c as int - 256
  }

  /** `_strcompare`: the first bytes as signed characters, then strcmp. */
  function StrCompare(a: string, b: string): int {
    if Signed(CharAt(a, 0)) != Signed(CharAt(b, 0)) then Signed(CharAt(a, 0)) - Signed(CharAt(b, 0))
    else StrCmp(a, b)
  }

  ghost predicate Sorted(names: seq<string>, start: nat, limit: nat)
    requires limit <= |names|
  {
    forall i: nat, j: nat | start <= i < j < limit :: StrCompare(names[i], names[j]) <= 0
  }

  lemma {:induction false} BetweenSharesPrefix(a: string, b: string, c: string)
    requires CString(a) && CString(b) && CString(c)
    requires StrCmp(a, b) <= 0 && StrCmp(b, c) <= 0
    ensures CommonPrefix(a, c) <= CommonPrefix(a, b)
    decreases |a|
  {
    if a != [] && c != [] && a[0] == c[0] {
      assert b != [] && b[0] == a[0];
      BetweenSharesPrefix(a[1..], b[1..], c[1..]);
    }
  }

  /** Sorted names are convex, which is all the printer needs. */
  lemma SortedIsConvex(names: seq<string>, start: nat, limit: nat)
    requires limit <= |names| && Sorted(names, start, limit)
    requires forall k: nat | start <= k < limit :: CString(names[k])
    ensures Convex(names, start, limit)
  {
    forall i: nat, j: nat, k: nat | start <= i < j < k < limit
      ensures CommonPrefix(names[i], names[k]) <= CommonPrefix(names[i], names[j])
    {
      var a, b, c := names[i], names[j], names[k];
      assert StrCompare(a, b) <= 0 && StrCompare(b, c) <= 0;
      if a != [] && c != [] && a[0] == c[0] {
        BetweenSharesPrefix(a, b, c);
      }
    }
  }

  // ---------------------------------------------------------------- quote removal

  /** Quote removal on text whose only quotes are backslashes. */
  function Unquote(s: string): string {
    if s == [] then []
    else if s[0] == '\\' && |s| >= 2 then [s[1]] + Unquote(s[2..])
    else [s[0]] + Unquote(s[1..])
  }

  lemma UnquoteStep(s: string)
    requires s != [] && W.FirstUnit(s) <= |s|
    ensures var n := W.FirstUnit(s); Unquote(s) == [s[n - 1]] + Unquote(s[n..])
  {
  }

  lemma {:induction false} QuoteFromInverse(s: string, first: bool)
    requires NUL !in s
    ensures W.Neutral(QuoteFrom(s, first)) && Unquote(QuoteFrom(s, first)) == s
    decreases |s|
  {
    if s != [] {
      var q, rest := QuoteFrom(s, first), QuoteFrom(s[1..], false);
      QuoteFromInverse(s[1..], false);
      var n := W.FirstUnit(q);
      assert q[n..] == rest && q[n - 1] == s[0];
      hide Unquote, W.Neutral, QuoteFrom;
      W.NeutralStep(q);
      UnquoteStep(q);
      assert s == [s[0]] + s[1..];
    }
  }

  lemma UnquoteNothing()
    ensures Unquote([]) == []
  {
  }

  lemma {:induction false} UnquoteConcat(a: string, b: string)
    requires W.Neutral(a)
    ensures Unquote(a + b) == Unquote(a) + Unquote(b)
    decreases |a|
  {
    hide Unquote, W.Neutral;
    if a == [] {
      UnquoteNothing();
      assert a + b == b && Unquote(a) + Unquote(b) == Unquote(b);
    } else {
      W.NeutralStep(a);
      var n := W.FirstUnit(a);
      var x, d := a[n - 1], a[n..];
      UnquoteStep(a);
      UnquoteStep(a + b);
      UnquoteConcat(d, b);
      assert (a + b)[n..] == d + b;
      assert [x] + (Unquote(d) + Unquote(b)) == ([x] + Unquote(d)) + Unquote(b);
    }
  }

  /** A name that quoting leaves alone wherever it is cut. */
  predicate PlainName(s: string) {
    forall k: nat | k < |s| :: !Special(s[k]) && s[k] != '#'
  }

  lemma {:induction false} QuotePlain(s: string, first: bool)
    requires PlainName(s)
    ensures QuoteFrom(s, first) == s
    decreases |s|
  {
    if s != [] {
      QuotePlain(s[1..], false);
      assert s == [s[0]] + s[1..];
    }
  }

  // ---------------------------------------------------------------- the word the printer writes

  ghost function TermWord(names: seq<string>, start: nat, limit: nat, skip: nat): W.Word
    requires start < limit && Ready(names, start, limit, skip)
    decreases MaxLength(names) - skip, limit - start, 0
  {
    GroupShares(names, start, limit, skip);
    var (last, gcd) := Group(names, start, limit, skip);
    if start == last then W.Text(Quote(names[start][skip..]), W.End)
    else W.Text(Quote(names[start][skip..gcd]), W.Group(TermsAlts(names, start, last + 1, gcd), W.End))
  }

  ghost function TermsAlts(names: seq<string>, start: nat, limit: nat, skip: nat): W.Alts
    requires start < limit && Ready(names, start, limit, skip)
    decreases MaxLength(names) - skip, limit - start, 1
  {
    GroupShares(names, start, limit, skip);
    var next := Group(names, start, limit, skip).0 + 1;
    if next == limit then W.Last(TermWord(names, start, limit, skip))
    else W.More(TermWord(names, start, limit, skip), TermsAlts(names, next, limit, skip))
  }

  /** A group of two or more names splits into at least two groups once its common prefix is removed. */
  lemma GroupSplits(names: seq<string>, start: nat, limit: nat, skip: nat)
    requires start < limit && Ready(names, start, limit, skip)
    requires Group(names, start, limit, skip).0 > start
    ensures var (last, gcd) := Group(names, start, limit, skip);
            Group(names, start, last + 1, gcd).0 < last
  {
  }

  lemma {:induction false} TermShown(names: seq<string>, start: nat, limit: nat, skip: nat)
    requires start < limit && Ready(names, start, limit, skip)
    ensures W.Show(TermWord(names, start, limit, skip)) == Term(names, start, limit, skip)
    decreases MaxLength(names) - skip, limit - start, 0
  {
    hide Convex, Group, Quote, CommonPrefix, CloseUp, Terms, TermsAlts, W.Show, W.ShowAlts;
    GroupShares(names, start, limit, skip);
    var (last, gcd) := Group(names, start, limit, skip);
    if start != last {
      TermsShown(names, start, last + 1, gcd);
      var alts := TermsAlts(names, start, last + 1, gcd);
      ShowOne(Quote(names[start][skip..gcd]), alts);
    } else {
      ShowText(Quote(names[start][skip..]));
    }
  }

  lemma ShowText(s: string)
    ensures W.Show(W.Text(s, W.End)) == s
  {
  }

  lemma ShowOne(s: string, alts: W.Alts)
    ensures W.Show(W.Text(s, W.Group(alts, W.End))) == s + "{" + CloseUp(W.ShowAlts(alts) + ",")
  {
    var a := W.ShowAlts(alts);
    assert (a + ",")[..|a|] == a;
    assert W.Show(W.Group(alts, W.End)) == "{" + a + "}" + W.Show(W.End);
    assert s + ("{" + a + "}" + "") == s + "{" + (a + "}");
  }

  lemma {:induction false} TermsShown(names: seq<string>, start: nat, limit: nat, skip: nat)
    requires start < limit && Ready(names, start, limit, skip)
    ensures Terms(names, start, limit, skip) == W.ShowAlts(TermsAlts(names, start, limit, skip)) + ","
    decreases MaxLength(names) - skip, limit - start, 1
  {
    hide Convex, Group, Term, TermWord;
    TermsStep(names, start, limit, skip, "");
    TermShown(names, start, limit, skip);
    var t := TermWord(names, start, limit, skip);
    var next := Group(names, start, limit, skip).0 + 1;
    if next == limit {
      assert Terms(names, next, limit, skip) == "";
      assert W.Show(t) + "," + "" == W.Show(t) + ",";
    } else {
      TermsShown(names, next, limit, skip);
      var alts := TermsAlts(names, next, limit, skip);
      assert W.Show(t) + "," + (W.ShowAlts(alts) + ",") == (W.Show(t) + "," + W.ShowAlts(alts)) + ",";
    }
  }

  // ---------------------------------------------------------------- what the word stands for

  /** `r` is a quoted form of `name` without its first `skip` characters. */
  ghost predicate Denotes(r: string, name: string, skip: nat)
    requires skip <= |name|
  {
    && W.Neutral(r) && Unquote(r) == name[skip..]
    && (PlainName(name) ==> r == name[skip..])
  }

  ghost predicate AllDenote(rs: seq<string>, names: seq<string>, start: nat, limit: nat, skip: nat)
    requires start <= limit <= |names| && forall k: nat | start <= k < limit :: skip <= |names[k]|
  {
    && |rs| == limit - start
    && forall k: nat | k < |rs| :: Denotes(rs[k], names[start + k], skip)
  }

  lemma QuoteDenotes(name: string, skip: nat)
    requires skip <= |name| && NUL !in name
    ensures Denotes(Quote(name[skip..]), name, skip)
  {
    QuoteFromInverse(name[skip..], true);
    if PlainName(name) {
      QuotePlain(name[skip..], true);
    }
  }

  /** A quoted common prefix in front of a quoted rest. */
  lemma PrefixDenotes(first: string, name: string, skip: nat, gcd: nat, r: string)
    requires skip <= gcd <= |first| && gcd <= |name| && name[..gcd] == first[..gcd]
    requires NUL !in first && Denotes(r, name, gcd)
    ensures Denotes(Quote(first[skip..gcd]) + r, name, skip)
  {
    var p := first[skip..gcd];
    assert p == name[..gcd][skip..] == name[skip..gcd];
    assert name[skip..] == p + name[gcd..];
    QuoteFromInverse(p, true);
    UnquoteConcat(Quote(p), r);
    W.NeutralConcat(Quote(p), r);
    if PlainName(name) {
      QuotePlain(p, true);
    }
  }

  lemma CrossText(s: string)
    ensures W.Cross(W.Text(s, W.End)) == [s]
  {
    assert s + "" == s;
  }

  lemma CrossOne(s: string, alts: W.Alts)
    ensures W.Cross(W.Text(s, W.Group(alts, W.End))) == Prefix(s, W.CrossAlts(alts))
  {
    ConcatUnit(W.CrossAlts(alts));
    assert W.Cross(W.Group(alts, W.End)) == Concat(W.CrossAlts(alts), W.Cross(W.End));
  }

  lemma {:induction false} ConcatUnit(xs: seq<string>)
    ensures Concat(xs, [""]) == xs
    decreases |xs|
  {
    if xs != [] {
      ConcatUnit(xs[1..]);
      assert xs[0] + "" == xs[0];
      assert Prefix(xs[0], [""]) == [xs[0]];
    }
  }

  lemma {:induction false} TermMeans(names: seq<string>, start: nat, limit: nat, skip: nat)
    requires start < limit && Ready(names, start, limit, skip)
    requires forall k: nat | start <= k < limit :: NUL !in names[k]
    ensures var w := TermWord(names, start, limit, skip);
            && W.Valid(w)
            && AllDenote(W.Cross(w), names, start, Group(names, start, limit, skip).0 + 1, skip)
    decreases MaxLength(names) - skip, limit - start, 0
  {
    hide Convex, Group, Quote, Denotes, CommonPrefix;
    GroupShares(names, start, limit, skip);
    var (last, gcd) := Group(names, start, limit, skip);
    if start == last {
      var q := Quote(names[start][skip..]);
      QuoteDenotes(names[start], skip);
      QuoteIsNeutral(names[start][skip..]);
      CrossText(q);
    } else {
      var q := Quote(names[start][skip..gcd]);
      QuoteIsNeutral(names[start][skip..gcd]);
      GroupSplits(names, start, limit, skip);
      TermsMean(names, start, last + 1, gcd);
      var alts := TermsAlts(names, start, last + 1, gcd);
      CrossOne(q, alts);
      assert W.Valid(W.Group(alts, W.End));
      var rs := W.CrossAlts(alts);
      forall k: nat | k < |rs| ensures Denotes(Prefix(q, rs)[k], names[start + k], skip) {
        PrefixDenotes(names[start], names[start + k], skip, gcd, rs[k]);
      }
    }
  }

  lemma QuoteIsNeutral(s: string)
    requires NUL !in s
    ensures W.Neutral(Quote(s))
  {
    QuoteFromInverse(s, true);
  }

  lemma {:induction false} TermsMean(names: seq<string>, start: nat, limit: nat, skip: nat)
    requires start < limit && Ready(names, start, limit, skip)
    requires forall k: nat | start <= k < limit :: NUL !in names[k]
    ensures var alts := TermsAlts(names, start, limit, skip);
            && W.ValidAlts(alts)
            && AllDenote(W.CrossAlts(alts), names, start, limit, skip)
            && (alts.More? <==> Group(names, start, limit, skip).0 + 1 < limit)
    decreases MaxLength(names) - skip, limit - start, 1
  {
    hide Convex, Group, TermWord, Denotes, CommonPrefix;
    GroupShares(names, start, limit, skip);
    TermMeans(names, start, limit, skip);
    var w := TermWord(names, start, limit, skip);
    var next := Group(names, start, limit, skip).0 + 1;
    if next < limit {
      TermsMean(names, next, limit, skip);
      var xs, ys := W.Cross(w), W.CrossAlts(TermsAlts(names, next, limit, skip));
      forall k: nat | k < |xs + ys| ensures Denotes((xs + ys)[k], names[start + k], skip) {
        if k >= |xs| {
          assert Denotes(ys[k - |xs|], names[next + (k - |xs|)], skip);
        }
      }
    }
  }

  // ---------------------------------------------------------------- the round trip

  /** The word that the outermost call prints. */
  ghost function MungeWord(names: seq<string>, start: nat, limit: nat): W.Word
    requires start < limit && Ready(names, start, limit, 0)
  {
    if Group(names, start, limit, 0).0 == limit - 1 then TermWord(names, start, limit, 0)
    else W.Group(TermsAlts(names, start, limit, 0), W.End)
  }

  lemma MungeShown(names: seq<string>, start: nat, limit: nat)
    requires start < limit && Ready(names, start, limit, 0)
    ensures Munge(names, start, limit, 0) == W.Show(MungeWord(names, start, limit))
  {
    hide Convex, Group, TermWord;
    TermsShown(names, start, limit, 0);
    var alts := TermsAlts(names, start, limit, 0);
    var terms := W.ShowAlts(alts) + ",";
    assert terms[..|terms| - 1] == W.ShowAlts(alts);
    if Group(names, start, limit, 0).0 == limit - 1 {
      assert alts == W.Last(TermWord(names, start, limit, 0));
    } else {
      assert W.Show(W.Group(alts, W.End)) == "{" + W.ShowAlts(alts) + "}" + "";
      assert "{" + CloseUp(terms) == "{" + W.ShowAlts(alts) + "}" + "";
    }
  }

  lemma MungeMeans(names: seq<string>, start: nat, limit: nat)
    requires start < limit && Ready(names, start, limit, 0)
    requires forall k: nat | start <= k < limit :: NUL !in names[k]
    ensures var w := MungeWord(names, start, limit);
            W.Valid(w) && AllDenote(W.Cross(w), names, start, limit, 0)
  {
    hide Convex, Group, TermWord, Denotes;
    TermMeans(names, start, limit, 0);
    TermsMean(names, start, limit, 0);
    ConcatUnit(W.CrossAlts(TermsAlts(names, start, limit, 0)));
  }

  /** For every sorted list of one or more names, brace-expanding the printed word gives as many strings
      as there are names, in order, each of which is the name after quote removal; plain names come back
      exactly. */
  lemma PrintThenExpand(term: SequenceTerm, names: seq<string>, start: nat, limit: nat)
    requires start < limit <= |names| && Sorted(names, start, limit)
    requires forall k: nat | start <= k < limit :: CString(names[k])
    ensures Ready(names, start, limit, 0)
    ensures var rs := Expand(term, Munge(names, start, limit, 0));
            && |rs| == limit - start
            && (forall k: nat | k < |rs| :: Unquote(rs[k]) == names[start + k])
            && (forall k: nat | k < |rs| && PlainName(names[start + k]) :: rs[k] == names[start + k])
  {
    SortedIsConvex(names, start, limit);
    forall k: nat | start <= k < limit ensures NUL !in names[k] {
      assert CString(names[k]);
    }
    MungeShown(names, start, limit);
    MungeMeans(names, start, limit);
    var w := MungeWord(names, start, limit);
    W.ExpandWord(term, w);
    forall k: nat | k < limit - start
      ensures Unquote(W.Cross(w)[k]) == names[start + k]
      ensures PlainName(names[start + k]) ==> W.Cross(w)[k] == names[start + k]
    {
      assert Denotes(W.Cross(w)[k], names[start + k], 0);
      assert names[start + k][0..] == names[start + k];
    }
  }
}
