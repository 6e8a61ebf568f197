/** `brace_expand`, `expand_amble` and `array_concat`.

    Expansion of a sequence term such as `1..5` is a parameter (`SequenceTerm`), because the strings it
    accepts are a matter of number parsing; every result holds for every such expander. The terms
    themselves are the subject of module BraceSequence.
 */
module BraceExpansion {
  import opened BraceScan
  import opened CStrings

  datatype Option<+T> = None | Some(value: T)

  type SequenceTerm = string -> Option<seq<string>>

  /** Every string of `ys` with `x` in front. */
  function Prefix(x: string, ys: seq<string>): (r: seq<string>)
    ensures |r| == |ys| && forall j: nat | j < |ys| :: r[j] == x + ys[j]
  {
    seq(|ys|, j requires 0 <= j < |ys| => x + ys[j])
  }

  /** Each string of `xs` followed by each string of `ys`, the second varying fastest. */
  function Concat(xs: seq<string>, ys: seq<string>): seq<string> {
    if xs == [] then [] else Prefix(xs[0], ys) + Concat(xs[1..], ys)
  }

  /** Position of the brace that opens the first valid brace expression, or the end of the text. */
  function FindOpen(text: string, i: nat): (r: (nat, char))
    requires i <= |text|
    ensures r.1 == '{' ==> i <= r.0 < |text|
    ensures r.1 == '{' || (r.1 == NUL && r.0 == |text|)
    decreases |text| - i
  {
    var (i', c) := Gobble(text, i, '{');
    if c == NUL then (|text|, NUL)
    else if Gobble(text, i' + 1, '}').1 == NUL then FindOpen(text, i' + 1)
    else (i', c)
  }

  /** An unescaped argument separator at or after `j`. */
  predicate HasSeparator(amble: string, j: nat)
    decreases |amble| - j
  {
    j < |amble| &&
    if amble[j] == '\\' then HasSeparator(amble, j + 2)
    else amble[j] == ',' || HasSeparator(amble, j + 1)
  }

  function Expand(term: SequenceTerm, text: string): seq<string>
    decreases |text|, 0
  {
    var (i, c) := FindOpen(text, 0);
    if c != '{' then [text]
    else
      var (k, close) := Gobble(text, i + 1, '}');
      if close == NUL then [text]
      else
        var amble := text[i + 1..k];
        if HasSeparator(amble, 0) then
          Concat(Concat([text[..i]], ExpandAmble(term, amble, 0)), Expand(term, text[k + 1..]))
        else
          match term(amble)
          case None => [text]
          case Some(tack) => Concat(Concat([text[..i]], tack), Expand(term, text[k + 1..]))
  }

  /** The expansions of the pieces of `amble` from `start` on, split at separators outside braces. */
  function ExpandAmble(term: SequenceTerm, amble: string, start: nat): seq<string>
    requires start <= |amble|
    decreases |amble|, |amble| - start + 1
  {
    var (i, c) := Gobble(amble, start, ',');
    Expand(term, amble[start..i]) + if c == NUL then [] else ExpandAmble(term, amble, i + 1)
  }

  // ---------------------------------------------------------------- the loops

  lemma {:induction false} ConcatSnoc(xs: seq<string>, x: string, ys: seq<string>)
    ensures Concat(xs + [x], ys) == Concat(xs, ys) + Prefix(x, ys)
    decreases |xs|
  {
    if xs == [] {
      assert Concat([x], ys) == Prefix(x, ys) + Concat([], ys);
    } else {
      ConcatSnoc(xs[1..], x, ys);
      assert (xs + [x])[1..] == xs[1..] + [x];
    }
  }

  method ArrayConcat(arr1: seq<string>, arr2: seq<string>) returns (result: seq<string>)
    ensures result == Concat(arr1, arr2)
  {
    result := [];
    for i := 0 to |arr1|
      invariant result == Concat(arr1[..i], arr2)
    {
      for j := 0 to |arr2|
        invariant result == Concat(arr1[..i], arr2) + Prefix(arr1[i], arr2)[..j]
      {
        result := result + [arr1[i] + arr2[j]];
      }
      ConcatSnoc(arr1[..i], arr1[i], arr2);
      assert arr1[..i + 1] == arr1[..i] + [arr1[i]];
    }
    assert arr1[..|arr1|] == arr1;
  }

  /** The first loop of brace_expand: skip open braces that have no valid close. */
  method FindOpenBrace(text: string) returns (i: nat, c: char)
    ensures (i, c) == FindOpen(text, 0)
  {
    i := 0;
    while true
      invariant 0 <= i <= |text|
      invariant FindOpen(text, 0) == FindOpen(text, i)
      decreases |text| - i
    {
      i, c := BraceGobbler(text, i, '{');
      if c == NUL {
        break;
      }
      var j, close := BraceGobbler(text, i + 1, '}');
      if close != NUL {
        break;
      }
      i := i + 1;
    }
  }

  /** The second loop of brace_expand: look for an unescaped argument separator. */
  method FindSeparator(amble: string) returns (found: bool)
    ensures found == HasSeparator(amble, 0)
  {
    var j := 0;
    while j < |amble|
      invariant HasSeparator(amble, 0) == HasSeparator(amble, j)
      decreases |amble| - j
    {
      if amble[j] == '\\' {
        j := j + 2;
        continue;
      }
      if amble[j] == ',' {
        return true;
      }
      j := j + 1;
    }
    return false;
  }

  method BraceExpand(term: SequenceTerm, text: string) returns (result: seq<string>)
    ensures result == Expand(term, text)
    decreases |text|, 0
  {
    hide Concat, ExpandAmble, HasSeparator, FindOpen, Gobble;
    var i, c := FindOpenBrace(text);
    result := [text[..i]];
    if c != '{' {
      assert text[..i] == text;
      return;
    }
    i := i + 1;
    var start := i;
    i, c := BraceGobbler(text, i, '}');
    if c == NUL {
      return [text];
    }
    var amble := text[start..i];
    var tack: seq<string>;
    var separated := FindSeparator(amble);
    if separated {
      tack := ExpandAmbleLoop(term, amble);
    } else {
      match term(amble) {
        case None => return [text];
        case Some(terms) => tack := terms;
      }
    }
    result := ArrayConcat(result, tack);
    tack := BraceExpand(term, text[i + 1..]);
    result := ArrayConcat(result, tack);
  }

  /** One piece more, behind the results so far. */
  lemma OnePiece(term: SequenceTerm, amble: string, start: nat, done: seq<string>)
    requires start <= |amble|
    ensures var (i, c) := Gobble(amble, start, ',');
      var rest := if c == NUL then [] else ExpandAmble(term, amble, i + 1);
      done + ExpandAmble(term, amble, start) == (done + Expand(term, amble[start..i])) + rest
  {
    hide Expand, Gobble, FindOpen, HasSeparator;
  }

  /** Scans one piece, up to a separator or the end, and expands it; `done` are the results so far. */
  method NextPiece(term: SequenceTerm, text: string, start: nat, ghost done: seq<string>)
    returns (i: nat, c: char, partial: seq<string>)
    requires start <= |text|
    ensures start <= i <= |text| && (c != NUL ==> i < |text|)
    ensures done + ExpandAmble(term, text, start)
         == (done + partial) + if c == NUL then [] else ExpandAmble(term, text, i + 1)
    decreases |text|, 1
  {
    hide Expand, ExpandAmble, Gobble, FindOpen, HasSeparator;
    OnePiece(term, text, start, done);
    i, c := BraceGobbler(text, start, ',');
    var piece := text[start..i];
    partial := BraceExpand(term, piece);
  }

  method ExpandAmbleLoop(term: SequenceTerm, text: string) returns (result: seq<string>)
    ensures result == ExpandAmble(term, text, 0)
    decreases |text|, 2
  {
    hide Expand, ExpandAmble, Gobble, FindOpen, HasSeparator;
    result := [];
    var start, i, c := 0, 0, ',';
    while c != NUL
      invariant start == i && (c == NUL || start <= |text|)
      invariant ExpandAmble(term, text, 0) == result + if c == NUL then [] else ExpandAmble(term, text, start)
      decreases if c == NUL then 0 else 1, |text| - start
    {
      var partial;
      i, c, partial := NextPiece(term, text, start, result);
      result := result + partial;
      i := i + 1;
      start := i;
    }
  }
}
