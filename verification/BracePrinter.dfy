/** `really_munge_braces`: turning a list of names with common prefixes into one nested brace word.

    The word is built from pieces quoted by `sh_backslash_quote`, so the names may hold any characters.
    The functions are the specification; the methods are the loops.
 */
module BracePrinter {
  // ---------------------------------------------------------------- quoting

  /** The characters `sh_backslash_quote` escapes wherever they stand. */
  predicate Special(c: char) {
    c in {' ', '\t', '\n', '\'', '"', '\\', '|', '&', ';', '(', ')', '<', '>', '!', '{', '}',
          '*', '[', '?', ']', '^', '$', '`', ','}
  }

  /** The rest of a quoted string; `#` is escaped only at the start of the whole string. */
  function QuoteFrom(s: string, first: bool): string {
    if s == [] then []
    else if Special(s[0]) || (first && s[0] == '#') then ['\\', s[0]] + QuoteFrom(s[1..], false)
    else [s[0]] + QuoteFrom(s[1..], false)
  }

  function Quote(s: string): string {
    QuoteFrom(s, true)
  }

  lemma QuoteStep(s: string, i: nat, r: string)
    requires i < |s|
    ensures var escape := Special(s[i]) || (i == 0 && s[i] == '#');
            r + QuoteFrom(s[i..], i == 0)
            == (r + (if escape then ['\\'] else []) + [s[i]]) + QuoteFrom(s[i + 1..], false)
  {
    assert s[i..][1..] == s[i + 1..];
    var rest := QuoteFrom(s[i + 1..], false);
    assert r + (['\\', s[i]] + rest) == r + ['\\'] + [s[i]] + rest;
    assert r + ([s[i]] + rest) == r + [] + [s[i]] + rest;
  }

  method ShBackslashQuote(s: string) returns (r: string)
    ensures r == Quote(s)
  {
    hide QuoteFrom;
    r := [];
    assert s[0..] == s && [] + Quote(s) == Quote(s);
    for i := 0 to |s|
      invariant r + QuoteFrom(s[i..], i == 0) == Quote(s)
    {
      QuoteStep(s, i, r);
      if Special(s[i]) || (s[i] == '#' && i == 0) {
        r := r + ['\\'];
      } else {
        assert r == r + [];
      }
      r := r + [s[i]];
    }
    assert s[|s|..] == [];
    QuoteEmpty(r, |s| == 0);
  }

  lemma QuoteEmpty(r: string, first: bool)
    ensures r + QuoteFrom([], first) == r
  {
  }

  // ---------------------------------------------------------------- common prefixes

  /** The length of the longest common prefix of two strings. */
  function CommonPrefix(a: string, b: string): (n: nat)
    ensures n <= |a| && n <= |b| && a[..n] == b[..n]
    ensures n < |a| && n < |b| ==> a[n] != b[n]
  {
    if a == [] || b == [] || a[0] != b[0] then 0
    else
      var n := CommonPrefix(a[1..], b[1..]);
      assert a[..n + 1] == [a[0]] + a[1..][..n] && b[..n + 1] == [b[0]] + b[1..][..n];
      n + 1
  }

  method StringGcd(s1: string, s2: string) returns (i: nat)
    ensures i == CommonPrefix(s1, s2)
  {
    i := 0;
    while i < |s1| && i < |s2|
      invariant i <= |s1| && i <= |s2|
      invariant CommonPrefix(s1, s2) == i + CommonPrefix(s1[i..], s2[i..])
    {
      if s1[i] != s2[i] {
        break;
      }
      assert s1[i..][1..] == s1[i + 1..] && s2[i..][1..] == s2[i + 1..];
      i := i + 1;
    }
  }

  /** In a range of names, later names share no more of a name's prefix than earlier ones do. */
  ghost predicate Convex(names: seq<string>, start: nat, limit: nat)
    requires limit <= |names|
  {
    forall i: nat, j: nat, k: nat | start <= i < j < k < limit ::
      CommonPrefix(names[i], names[k]) <= CommonPrefix(names[i], names[j])
  }

  /** The call's arguments make sense: every name in the range is at least `skip` characters long. */
  ghost predicate Ready(names: seq<string>, start: nat, limit: nat, skip: nat) {
    && start <= limit <= |names|
    && Convex(names, start, limit)
    && forall k: nat | start <= k < limit :: skip <= |names[k]|
  }

  // ---------------------------------------------------------------- the printer

  /** The inner loop: the last name of the group that begins at `start`, and the prefix it shares. */
  function GroupEnd(names: seq<string>, start: nat, end: nat, limit: nat, skip: nat, gcd: nat): (r: (nat, nat))
    requires start < end <= limit <= |names|
    ensures end - 1 <= r.0 < limit
    ensures r.0 == end - 1 ==> r.1 == gcd
    ensures r.0 > end - 1 ==> r.1 == CommonPrefix(names[start], names[r.0]) > skip
    ensures r.0 + 1 < limit ==> CommonPrefix(names[start], names[r.0 + 1]) <= skip
    decreases limit - end
  {
    if end < limit && CommonPrefix(names[start], names[end]) > skip then
      GroupEnd(names, start, end + 1, limit, skip, CommonPrefix(names[start], names[end]))
    else (end - 1, gcd)
  }

  /** The first group of a range. */
  function Group(names: seq<string>, start: nat, limit: nat, skip: nat): (r: (nat, nat))
    requires start < limit <= |names|
    ensures start <= r.0 < limit
    ensures r.0 == start ==> r.1 == |names[start]|
    ensures r.0 > start ==> r.1 == CommonPrefix(names[start], names[r.0]) > skip
    ensures r.0 + 1 < limit ==> CommonPrefix(names[start], names[r.0 + 1]) <= skip
  {
    GroupEnd(names, start, start + 1, limit, skip, |names[start]|)
  }

  function MaxLength(names: seq<string>): (n: nat)
    ensures forall k: nat | k < |names| :: |names[k]| <= n
  {
    if names == [] then 0
    else
      var m := MaxLength(names[1..]);
      assert forall k: nat | 0 < k < |names| :: names[k] == names[1..][k - 1];
      if |names[0]| > m then |names[0]| else m
  }

  lemma ShorterPrefixShared(a: string, b: string, n: nat)
    requires n <= CommonPrefix(a, b)
    ensures n <= |a| && n <= |b| && a[..n] == b[..n]
  {
    var m := CommonPrefix(a, b);
    assert a[..n] == a[..m][..n] && b[..n] == b[..m][..n];
  }

  /** Every name of a group has the group's prefix. */
  lemma GroupShares(names: seq<string>, start: nat, limit: nat, skip: nat)
    requires start < limit && Ready(names, start, limit, skip)
    ensures var (last, gcd) := Group(names, start, limit, skip);
            && Ready(names, start, last + 1, gcd)
            && Ready(names, last + 1, limit, skip)
            && forall k: nat | start <= k <= last :: names[k][..gcd] == names[start][..gcd]
  {
    hide CommonPrefix, GroupEnd;
    var (last, gcd) := Group(names, start, limit, skip);
    forall k: nat | start <= k <= last
      ensures gcd <= |names[k]| && names[k][..gcd] == names[start][..gcd]
    {
      if start < k {
        ShorterPrefixShared(names[start], names[k], gcd);
      }
    }
  }

  /** Replace the trailing separator by a close brace. */
  function CloseUp(s: string): string {
    if s == [] then [] else s[..|s| - 1] + "}"
  }

  /** One group: a quoted suffix, or a quoted prefix and the group's own groups in braces. */
  ghost function Term(names: seq<string>, start: nat, limit: nat, skip: nat): string
    requires start < limit && Ready(names, start, limit, skip)
    decreases MaxLength(names) - skip, limit - start, 0
  {
    GroupShares(names, start, limit, skip);
    var (last, gcd) := Group(names, start, limit, skip);
    if start == last then Quote(names[start][skip..])
    else Quote(names[start][skip..gcd]) + "{" + CloseUp(Terms(names, start, last + 1, gcd))
  }

  /** All groups of a range, each followed by a separator. */
  ghost function Terms(names: seq<string>, start: nat, limit: nat, skip: nat): string
    requires Ready(names, start, limit, skip)
    decreases MaxLength(names) - skip, limit - start, 1
  {
    if start == limit then ""
    else
      GroupShares(names, start, limit, skip);
      Term(names, start, limit, skip) + "," + Terms(names, Group(names, start, limit, skip).0 + 1, limit, skip)
  }

  /** The outermost call wraps several groups in braces and drops the last separator. */
  ghost function Munge(names: seq<string>, start: nat, limit: nat, skip: nat): string
    requires Ready(names, start, limit, skip) && names != []
    requires start == limit ==> skip == 0
  {
    if start == limit then
      Quote(if start < |names| then names[start][skip..] else names[0])
    else if skip > 0 then
      Terms(names, start, limit, skip)
    else if Group(names, start, limit, skip).0 == limit - 1 then
      Terms(names, start, limit, skip)[..|Terms(names, start, limit, skip)| - 1]
    else
      "{" + CloseUp(Terms(names, start, limit, skip))
  }

  /** The inner loop of really_munge_braces. */
  method FindGroup(names: seq<string>, start: nat, realEnd: nat, gcdZero: nat) returns (end: nat, gcd: nat)
    requires start < realEnd <= |names|
    ensures (end, gcd) == Group(names, start, realEnd, gcdZero)
  {
    gcd := |names[start]|;
    end := start + 1;
    while end < realEnd
      invariant start < end <= realEnd
      invariant Group(names, start, realEnd, gcdZero) == GroupEnd(names, start, end, realEnd, gcdZero, gcd)
    {
      var temp := StringGcd(names[start], names[end]);
      if temp <= gcdZero {
        break;
      }
      gcd := temp;
      end := end + 1;
    }
    end := end - 1;
  }

  /** One more group, with its separator, extends what has been printed. */
  lemma TermsStep(names: seq<string>, start: nat, limit: nat, skip: nat, printed: string)
    requires start < limit && Ready(names, start, limit, skip)
    ensures var next := Group(names, start, limit, skip).0 + 1;
            && Ready(names, next, limit, skip)
            && printed + Terms(names, start, limit, skip)
               == printed + Term(names, start, limit, skip) + "," + Terms(names, next, limit, skip)
  {
    hide Convex, Group, Term;
    GroupShares(names, start, limit, skip);
    var t, next := Term(names, start, limit, skip), Group(names, start, limit, skip).0 + 1;
    assert printed + (t + "," + Terms(names, next, limit, skip)) == printed + t + "," + Terms(names, next, limit, skip);
  }

  lemma NoTerms(names: seq<string>, limit: nat, skip: nat)
    requires Ready(names, limit, limit, skip)
    ensures Terms(names, limit, limit, skip) == ""
  {
  }

  /** The last separator gives way to the closing brace. */
  lemma Closing(terms: string)
    requires terms != []
    ensures ("{" + terms)[..|terms|] + "}" == "{" + CloseUp(terms)
  {
  }

  /** What opens the word, if anything does. */
  function Brace(flag: bool): string {
    if flag then "{" else ""
  }

  lemma Braces()
    ensures Brace(true) == "{" && Brace(false) == ""
  {
  }

  method ReallyMungeBraces(names: seq<string>, realStart: nat, realEnd: nat, gcdZero: nat) returns (result: string)
    requires Ready(names, realStart, realEnd, gcdZero) && names != []
    requires realStart == realEnd ==> gcdZero == 0
    ensures result == Munge(names, realStart, realEnd, gcdZero)
    decreases MaxLength(names) - gcdZero, realEnd - realStart, 1
  {
    hide Convex, Group, Term, Terms, CloseUp, MaxLength, CommonPrefix, Quote, Brace;
    if realStart == realEnd {
      if realStart < |names| {
        result := ShBackslashQuote(names[realStart][gcdZero..]);
      } else {
        result := ShBackslashQuote(names[0]);
      }
      return;
    }
    Braces();
    var flag := false;
    result := "";
    var start := realStart;
    while start < realEnd
      invariant realStart <= start <= realEnd
      invariant Ready(names, start, realEnd, gcdZero)
      invariant start == realStart ==> !flag && result == ""
      invariant start > realStart ==>
                  && flag == (gcdZero == 0 && Group(names, realStart, realEnd, gcdZero).0 != realEnd - 1)
                  && result != []
      invariant Brace(flag) + Terms(names, realStart, realEnd, gcdZero)
             == result + Terms(names, start, realEnd, gcdZero)
    {
      var end, gcd := FindGroup(names, start, realEnd, gcdZero);
      if gcdZero == 0 && start == realStart && end != realEnd - 1 {
        result := "{";
        flag := true;
      }
      TermsStep(names, start, realEnd, gcdZero, result);
      var term := MungeTerm(names, start, realEnd, gcdZero, end, gcd);
      result := result + term;
      result := result + ",";
      start := end + 1;
    }
    ghost var terms := Terms(names, realStart, realEnd, gcdZero);
    NoTerms(names, realEnd, gcdZero);
    assert result + "" == result && "" + terms == terms;
    if gcdZero == 0 {
      TermsStep(names, realStart, realEnd, 0, "");
      Closing(terms);
      result := result[..|result| - 1] + if flag then "}" else "";
    }
  }

  /** The middle of the outer loop: print one group. */
  method MungeTerm(names: seq<string>, start: nat, realEnd: nat, gcdZero: nat, end: nat, gcd: nat)
    returns (subterm: string)
    requires start < realEnd && Ready(names, start, realEnd, gcdZero) && names != []
    requires (end, gcd) == Group(names, start, realEnd, gcdZero)
    ensures subterm == Term(names, start, realEnd, gcdZero)
    decreases MaxLength(names) - gcdZero, realEnd - start, 0
  {
    hide Convex, Group, Quote, CommonPrefix, MaxLength;
    GroupShares(names, start, realEnd, gcdZero);
    if start == end {
      subterm := ShBackslashQuote(names[start][gcdZero..]);
    } else {
      subterm := ShBackslashQuote(names[start][gcdZero..gcd]);
      var inner := ReallyMungeBraces(names, start, end + 1, gcd);
      subterm := subterm + "{" + (inner[..|inner| - 1] + "}");
    }
  }
}
