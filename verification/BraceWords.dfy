/** Well-formed brace words and their meaning.

    A word is a sequence of quoted text and groups; a group is a list of alternative words. `Show` writes
    a word down, `Cross` lists what it stands for: the ordered cross product of its parts. The main result
    is that `Expand` of the written word is exactly that list, at every nesting depth.
 */
module BraceWords {
  import opened BraceScan
  import opened CStrings
  import opened BraceExpansion

  datatype Word = End | Text(s: string, rest: Word) | Group(alts: Alts, rest: Word)

  datatype Alts = Last(w: Word) | More(w: Word, rest: Alts)

  /** A character that means nothing to the scanner. */
  predicate Ordinary(c: char) {
    c !in {'\\', '"', '\'', '`', '$', '<', '>', '{', '}', ',', ' ', '\t', '\n', NUL}
  }

  /** Text in which every special character is escaped with a backslash. */
  predicate Neutral(s: string) {
    || s == []
    || (|s| >= 2 && s[0] == '\\' && Neutral(s[2..]))
    || (Ordinary(s[0]) && Neutral(s[1..]))
  }

  /** The first character of neutral text, with the backslash that escapes it. */
  function FirstUnit(s: string): nat
    requires s != []
  {
    if s[0] == '\\' then 2 else 1
  }

  lemma NeutralStep(s: string)
    requires s != []
    ensures Neutral(s) <==> (FirstUnit(s) <= |s| && (s[0] == '\\' || Ordinary(s[0])) && Neutral(s[FirstUnit(s)..]))
  {
  }

  /** Text is neutral, and every group offers at least two alternatives. */
  predicate Valid(w: Word) {
    match w
    case End => true
    case Text(s, rest) => Neutral(s) && Valid(rest)
    case Group(alts, rest) => alts.More? && ValidAlts(alts) && Valid(rest)
  }

  predicate ValidAlts(a: Alts) {
    match a
    case Last(w) => Valid(w)
    case More(w, rest) => Valid(w) && ValidAlts(rest)
  }

  function Show(w: Word): string {
    match w
    case End => ""
    case Text(s, rest) => s + Show(rest)
    case Group(alts, rest) => "{" + ShowAlts(alts) + "}" + Show(rest)
  }

  function ShowAlts(a: Alts): string {
    match a
    case Last(w) => Show(w)
    case More(w, rest) => Show(w) + "," + ShowAlts(rest)
  }

  function Cross(w: Word): seq<string> {
    match w
    case End => [""]
    case Text(s, rest) => Prefix(s, Cross(rest))
    case Group(alts, rest) => Concat(CrossAlts(alts), Cross(rest))
  }

  function CrossAlts(a: Alts): seq<string> {
    match a
    case Last(w) => Cross(w)
    case More(w, rest) => Cross(w) + CrossAlts(rest)
  }

  /** How many strings a word stands for: a product of sums. */
  function Count(w: Word): nat {
    match w
    case End => 1
    case Text(_, rest) => Count(rest)
    case Group(alts, rest) => CountAlts(alts) * Count(rest)
  }

  function CountAlts(a: Alts): nat {
    match a
    case Last(w) => Count(w)
    case More(w, rest) => Count(w) + CountAlts(rest)
  }

  // ---------------------------------------------------------------- cross products

  lemma {:induction false} ConcatLength(xs: seq<string>, ys: seq<string>)
    ensures |Concat(xs, ys)| == |xs| * |ys|
    decreases |xs|
  {
    if xs != [] {
      ConcatLength(xs[1..], ys);
      calc {
        |Concat(xs, ys)|;
        |ys| + (|xs| - 1) * |ys|;
        |xs| * |ys|;
      }
    }
  }

  lemma {:induction false} CrossLength(w: Word)
    ensures |Cross(w)| == Count(w)
    decreases w
  {
    match w
    case End =>
    case Text(_, rest) => CrossLength(rest);
    case Group(alts, rest) =>
      CrossAltsLength(alts);
      CrossLength(rest);
      ConcatLength(CrossAlts(alts), Cross(rest));
  }

  lemma {:induction false} CrossAltsLength(a: Alts)
    ensures |CrossAlts(a)| == CountAlts(a)
    decreases a
  {
    match a
    case Last(w) => CrossLength(w);
    case More(w, rest) => CrossLength(w); CrossAltsLength(rest);
  }

  lemma {:induction false} ConcatPrefix(x: string, xs: seq<string>, ys: seq<string>)
    ensures Concat(Prefix(x, xs), ys) == Prefix(x, Concat(xs, ys))
    decreases |xs|
  {
    if xs != [] {
      ConcatPrefix(x, xs[1..], ys);
      assert Prefix(x, xs)[1..] == Prefix(x, xs[1..]);
      assert Prefix(x + xs[0], ys) == Prefix(x, Prefix(xs[0], ys)) by {
        forall j: nat | j < |ys| ensures Prefix(x + xs[0], ys)[j] == Prefix(x, Prefix(xs[0], ys))[j] {
          assert (x + xs[0]) + ys[j] == x + (xs[0] + ys[j]);
        }
      }
    }
  }

  lemma ConcatSingle(x: string, ys: seq<string>)
    ensures Concat([x], ys) == Prefix(x, ys)
  {
    assert Concat([x], ys) == Prefix(x, ys) + Concat([], ys);
  }

  // ---------------------------------------------------------------- where a word stands in a text

  function Length(w: Word): nat {
    match w
    case End => 0
    case Text(s, rest) => |s| + Length(rest)
    case Group(alts, rest) => AltsLength(alts) + 2 + Length(rest)
  }

  function AltsLength(a: Alts): nat {
    match a
    case Last(w) => Length(w)
    case More(w, rest) => Length(w) + 1 + AltsLength(rest)
  }

  lemma {:induction false} ShowLength(w: Word)
    ensures |Show(w)| == Length(w)
    decreases w
  {
    match w
    case End =>
    case Text(_, rest) => ShowLength(rest);
    case Group(alts, rest) => ShowAltsLength(alts); ShowLength(rest);
  }

  lemma {:induction false} ShowAltsLength(a: Alts)
    ensures |ShowAlts(a)| == AltsLength(a)
    decreases a
  {
    match a
    case Last(w) => ShowLength(w);
    case More(w, rest) => ShowLength(w); ShowAltsLength(rest);
  }

  /** `s` stands in `text` at position `i`. */
  predicate Occurs(text: string, i: nat, s: string) {
    i + |s| <= |text| && forall k: nat | k < |s| :: text[i + k] == s[k]
  }

  /** The written form of `w` stands in `text` at position `i`, told part by part. */
  predicate Stands(text: string, i: nat, w: Word)
    decreases w
  {
    match w
    case End => i <= |text|
    case Text(s, rest) => Occurs(text, i, s) && Stands(text, i + |s|, rest)
    case Group(alts, rest) =>
      && i < |text| && text[i] == '{'
      && AltsStand(text, i + 1, alts)
      && i + 1 + AltsLength(alts) < |text| && text[i + 1 + AltsLength(alts)] == '}'
      && Stands(text, i + 2 + AltsLength(alts), rest)
  }

  predicate AltsStand(text: string, i: nat, a: Alts)
    decreases a
  {
    match a
    case Last(w) => Stands(text, i, w)
    case More(w, rest) =>
      && Stands(text, i, w)
      && i + Length(w) < |text| && text[i + Length(w)] == ','
      && AltsStand(text, i + Length(w) + 1, rest)
  }

  lemma OccursSplit(text: string, i: nat, a: string, b: string)
    requires Occurs(text, i, a + b)
    ensures Occurs(text, i, a) && Occurs(text, i + |a|, b)
  {
    forall k: nat | k < |a| ensures text[i + k] == a[k] {
      assert (a + b)[k] == a[k];
    }
    forall k: nat | k < |b| ensures text[i + |a| + k] == b[k] {
      assert (a + b)[|a| + k] == b[k];
    }
  }

  lemma OccursGroup(text: string, i: nat, alts: string, rest: string)
    requires Occurs(text, i, "{" + alts + "}" + rest)
    ensures i < |text| && text[i] == '{'
    ensures Occurs(text, i + 1, alts)
    ensures i + 1 + |alts| < |text| && text[i + 1 + |alts|] == '}'
    ensures Occurs(text, i + 2 + |alts|, rest)
  {
    OccursSplit(text, i, "{" + alts + "}", rest);
    OccursSplit(text, i, "{" + alts, "}");
    OccursSplit(text, i, "{", alts);
    assert text[i + 0] == "{"[0] && text[i + 1 + |alts| + 0] == "}"[0];
  }

  lemma OccursMore(text: string, i: nat, w: string, rest: string)
    requires Occurs(text, i, w + "," + rest)
    ensures Occurs(text, i, w)
    ensures i + |w| < |text| && text[i + |w|] == ','
    ensures Occurs(text, i + |w| + 1, rest)
  {
    OccursSplit(text, i, w + ",", rest);
    OccursSplit(text, i, w, ",");
    assert text[i + |w| + 0] == ","[0];
  }

  lemma {:induction false} ShownStands(text: string, i: nat, w: Word)
    requires Occurs(text, i, Show(w))
    ensures Stands(text, i, w)
    decreases w
  {
    match w
    case End =>
    case Text(s, rest) =>
      OccursSplit(text, i, s, Show(rest));
      ShownStands(text, i + |s|, rest);
    case Group(alts, rest) =>
      OccursGroup(text, i, ShowAlts(alts), Show(rest));
      ShownAltsStand(text, i + 1, alts);
      ShowAltsLength(alts);
      ShownStands(text, i + 2 + |ShowAlts(alts)|, rest);
  }

  lemma {:induction false} ShownAltsStand(text: string, i: nat, a: Alts)
    requires Occurs(text, i, ShowAlts(a))
    ensures AltsStand(text, i, a)
    decreases a
  {
    match a
    case Last(w) => ShownStands(text, i, w);
    case More(w, rest) =>
      OccursMore(text, i, Show(w), ShowAlts(rest));
      ShownStands(text, i, w);
      ShowLength(w);
      ShownAltsStand(text, i + |Show(w)| + 1, rest);
  }

  // ---------------------------------------------------------------- scanning a word

  /** The characters brace expansion scans for. */
  predicate Delimiter(c: char) {
    c == '{' || c == '}' || c == ','
  }

  function Plain(level: nat, commas: nat): Mode {
    Mode(NUL, level, commas, false)
  }

  lemma OccursEnd(text: string, i: nat, s: string)
    requires Occurs(text, i, s)
    ensures i + |s| <= |text| && (s != [] ==> text[i] == s[0])
  {
    assert s != [] ==> text[i + 0] == s[0];
  }

  /** Neutral text never stops a scan and leaves the level alone; it can only add to the separators. */
  lemma {:induction false} SkipText(text: string, i: nat, s: string, satisfy: char, level: nat, commas: nat)
    returns (commas': nat)
    requires Neutral(s) && Occurs(text, i, s) && Delimiter(satisfy)
    ensures commas' >= commas && (satisfy != '}' ==> commas' == commas)
    ensures Scan(text, i, satisfy, Plain(level, commas)) == Scan(text, i + |s|, satisfy, Plain(level, commas'))
    decreases |s|
  {
    hide Neutral, Occurs;
    commas' := commas;
    if s == [] {
      OccursEnd(text, i, s);
    } else {
      NeutralStep(s);
      var n := FirstUnit(s);
      assert s == s[..n] + s[n..];
      OccursSplit(text, i, s[..n], s[n..]);
      OccursEnd(text, i, s[..n]);
      if n == 1 {
        commas' := Advance(text, i, satisfy, Plain(level, commas)).mode.commas;
      }
      commas' := SkipText(text, i + n, s[n..], satisfy, level, commas');
    }
  }

  lemma StepOpen(text: string, i: nat, satisfy: char, level: nat, commas: nat)
    requires i < |text| && text[i] == '{' && (satisfy != '{' || level > 0)
    ensures Scan(text, i, satisfy, Plain(level, commas)) == Scan(text, i + 1, satisfy, Plain(level + 1, commas))
  {
  }

  lemma StepClose(text: string, i: nat, satisfy: char, level: nat, commas: nat)
    requires i < |text| && text[i] == '}' && level > 0
    ensures Scan(text, i, satisfy, Plain(level, commas)) == Scan(text, i + 1, satisfy, Plain(level - 1, commas))
  {
  }

  lemma StepComma(text: string, i: nat, satisfy: char, level: nat, commas: nat)
    requires i < |text| && text[i] == ',' && level > 0
    ensures Scan(text, i, satisfy, Plain(level, commas)) == Scan(text, i + 1, satisfy, Plain(level, commas))
  {
  }

  lemma StepSeparator(text: string, i: nat, commas: nat)
    requires i < |text| && text[i] == ','
    ensures Scan(text, i, '}', Plain(0, commas)) == Scan(text, i + 1, '}', Plain(0, commas + 1))
  {
  }

  /** Inside braces a word never stops a scan. */
  lemma {:induction false} SkipNested(text: string, i: nat, w: Word, satisfy: char, level: nat, commas: nat)
    returns (commas': nat)
    requires Valid(w) && Stands(text, i, w) && Delimiter(satisfy) && level > 0
    ensures commas' >= commas && (satisfy != '}' ==> commas' == commas)
    ensures i + Length(w) <= |text|
    ensures Scan(text, i, satisfy, Plain(level, commas)) == Scan(text, i + Length(w), satisfy, Plain(level, commas'))
    decreases w
  {
    hide Scan, Advance, Occurs, Neutral, Delimiter;
    match w
    case End => commas' := commas;
    case Text(s, rest) =>
      var k := SkipText(text, i, s, satisfy, level, commas);
      commas' := SkipNested(text, i + |s|, rest, satisfy, level, k);
    case Group(alts, rest) =>
      StepOpen(text, i, satisfy, level, commas);
      var k := SkipAltsNested(text, i + 1, alts, satisfy, level + 1, commas);
      StepClose(text, i + 1 + AltsLength(alts), satisfy, level + 1, k);
      commas' := SkipNested(text, i + 2 + AltsLength(alts), rest, satisfy, level, k);
  }

  lemma {:induction false} SkipAltsNested(text: string, i: nat, a: Alts, satisfy: char, level: nat, commas: nat)
    returns (commas': nat)
    requires ValidAlts(a) && AltsStand(text, i, a) && Delimiter(satisfy) && level > 0
    ensures commas' >= commas && (satisfy != '}' ==> commas' == commas)
    ensures i + AltsLength(a) <= |text|
    ensures Scan(text, i, satisfy, Plain(level, commas))
         == Scan(text, i + AltsLength(a), satisfy, Plain(level, commas'))
    decreases a
  {
    hide Scan, Advance, Occurs, Neutral, Delimiter, Valid;
    match a
    case Last(w) => commas' := SkipNested(text, i, w, satisfy, level, commas);
    case More(w, rest) =>
      var k := SkipNested(text, i, w, satisfy, level, commas);
      StepComma(text, i + Length(w), satisfy, level, k);
      commas' := SkipAltsNested(text, i + Length(w) + 1, rest, satisfy, level, k);
  }

  /** At level zero, a word does not stop a scan for a separator or a closing brace. */
  lemma {:induction false} SkipTop(text: string, i: nat, w: Word, satisfy: char, commas: nat) returns (commas': nat)
    requires Valid(w) && Stands(text, i, w) && satisfy != '{' && Delimiter(satisfy)
    ensures commas' >= commas && (satisfy != '}' ==> commas' == commas)
    ensures i + Length(w) <= |text|
    ensures Scan(text, i, satisfy, Plain(0, commas)) == Scan(text, i + Length(w), satisfy, Plain(0, commas'))
    decreases w
  {
    hide Scan, Advance, Occurs, Neutral, Delimiter;
    match w
    case End => commas' := commas;
    case Text(s, rest) =>
      var k := SkipText(text, i, s, satisfy, 0, commas);
      commas' := SkipTop(text, i + |s|, rest, satisfy, k);
    case Group(alts, rest) =>
      StepOpen(text, i, satisfy, 0, commas);
      var k := SkipAltsNested(text, i + 1, alts, satisfy, 1, commas);
      StepClose(text, i + 1 + AltsLength(alts), satisfy, 1, k);
      commas' := SkipTop(text, i + 2 + AltsLength(alts), rest, satisfy, k);
  }

  /** The alternatives of a group are skipped by a scan for its closing brace, and counted. */
  lemma {:induction false} SkipAltsTop(text: string, i: nat, a: Alts, commas: nat) returns (commas': nat)
    requires ValidAlts(a) && AltsStand(text, i, a)
    ensures commas' >= commas && (a.More? ==> commas' > 0)
    ensures i + AltsLength(a) <= |text|
    ensures Scan(text, i, '}', Plain(0, commas)) == Scan(text, i + AltsLength(a), '}', Plain(0, commas'))
    decreases a
  {
    hide Scan, Advance, Occurs, Neutral;
    match a
    case Last(w) => commas' := SkipTop(text, i, w, '}', commas);
    case More(w, rest) =>
      var k := SkipTop(text, i, w, '}', commas);
      StepSeparator(text, i + Length(w), k);
      commas' := SkipAltsTop(text, i + Length(w) + 1, rest, k + 1);
  }

  /** The closing brace of a group is found where it was written. */
  lemma CloseFound(text: string, i: nat, a: Alts)
    requires a.More? && ValidAlts(a) && AltsStand(text, i, a)
    requires i + AltsLength(a) < |text| && text[i + AltsLength(a)] == '}'
    ensures Gobble(text, i, '}') == (i + AltsLength(a), '}')
  {
    var k := SkipAltsTop(text, i, a, 0);
  }

  /** The first character inside a group is neither white space nor a closing brace. */
  lemma {:induction false} FirstInGroup(text: string, i: nat, w: Word)
    requires Valid(w) && Stands(text, i, w) && i + Length(w) < |text| && text[i + Length(w)] == ','
    ensures !BraceWhitespace(text[i]) && text[i] != '}'
    decreases w
  {
    match w
    case End =>
    case Text(s, rest) =>
      if s == [] { FirstInGroup(text, i, rest); } else { assert text[i + 0] == s[0]; }
    case Group(alts, rest) =>
  }

  /** A separator is visible behind any word. */
  lemma {:induction false} SeparatorBehind(text: string, i: nat, w: Word)
    requires Valid(w) && Stands(text, i, w) && HasSeparator(text, i + Length(w))
    ensures HasSeparator(text, i)
    decreases w
  {
    match w
    case End =>
    case Text(s, rest) =>
      SeparatorBehind(text, i + |s|, rest);
      SeparatorBehindText(text, i, s);
    case Group(alts, rest) =>
      assert HasSeparator(text, i + 1 + Length(alts.w));
      SeparatorBehind(text, i + 1, alts.w);
  }

  lemma {:induction false} SeparatorBehindText(text: string, i: nat, s: string)
    requires Neutral(s) && Occurs(text, i, s) && HasSeparator(text, i + |s|)
    ensures HasSeparator(text, i)
    decreases |s|
  {
    if s != [] {
      assert text[i + 0] == s[0];
      var n := if s[0] == '\\' then 2 else 1;
      assert s == s[..n] + s[n..];
      OccursSplit(text, i, s[..n], s[n..]);
      SeparatorBehindText(text, i + n, s[n..]);
    }
  }

  // ---------------------------------------------------------------- the first group of a word

  /** A word without a group is neutral text and stands for itself. */
  predicate Flat(w: Word) {
    match w
    case End => true
    case Text(_, rest) => Flat(rest)
    case Group(_, _) => false
  }

  lemma {:induction false} FlatWord(w: Word)
    requires Valid(w) && Flat(w)
    ensures Neutral(Show(w)) && Cross(w) == [Show(w)]
    decreases w
  {
    match w
    case End =>
    case Text(s, rest) =>
      FlatWord(rest);
      NeutralConcat(s, Show(rest));
      assert Prefix(s, [Show(rest)]) == [s + Show(rest)];
  }

  lemma {:induction false} NeutralConcat(a: string, b: string)
    requires Neutral(a) && Neutral(b)
    ensures Neutral(a + b)
    decreases |a|
  {
    if a == [] {
      assert a + b == b;
    } else {
      NeutralStep(a);
      NeutralStep(a + b);
      var n := FirstUnit(a);
      NeutralConcat(a[n..], b);
      assert (a + b)[n..] == a[n..] + b;
    }
  }

  /** The text before the first group. */
  function Lead(w: Word): string
    requires !Flat(w)
  {
    match w
    case Text(s, rest) => s + Lead(rest)
    case Group(_, _) => ""
  }

  /** The word from the first group on. */
  function Body(w: Word): (g: Word)
    requires !Flat(w)
    ensures g.Group? && (g == w || g < w)
  {
    match w
    case Text(s, rest) => Body(rest)
    case Group(_, _) => w
  }

  lemma PrefixConcat(a: string, b: string, ys: seq<string>)
    ensures Prefix(a, Prefix(b, ys)) == Prefix(a + b, ys)
  {
    forall j: nat | j < |ys| ensures Prefix(a, Prefix(b, ys))[j] == Prefix(a + b, ys)[j] {
      assert a + (b + ys[j]) == (a + b) + ys[j];
    }
  }

  lemma PrefixEmpty(ys: seq<string>)
    ensures Prefix("", ys) == ys
  {
    forall j: nat | j < |ys| ensures Prefix("", ys)[j] == ys[j] {
      assert "" + ys[j] == ys[j];
    }
  }

  lemma NeutralEmpty()
    ensures Neutral("")
  {
  }

  /** A word is its leading text and the word from the first group on. */
  lemma {:induction false} LeadAndBody(w: Word)
    requires Valid(w) && !Flat(w)
    ensures Neutral(Lead(w)) && Valid(Body(w))
    decreases w
  {
    hide Neutral, ValidAlts;
    match w
    case Text(s, rest) =>
      LeadAndBody(rest);
      NeutralConcat(s, Lead(rest));
    case Group(_, _) =>
      NeutralEmpty();
  }

  lemma {:induction false} LeadAndBodyShow(w: Word)
    requires !Flat(w)
    ensures Show(w) == Lead(w) + Show(Body(w))
    decreases w
  {
    hide ShowAlts;
    match w
    case Text(s, rest) =>
      LeadAndBodyShow(rest);
      assert s + (Lead(rest) + Show(Body(rest))) == (s + Lead(rest)) + Show(Body(rest));
    case Group(_, _) =>
      assert "" + Show(w) == Show(w);
  }

  lemma {:induction false} LeadAndBodyCross(w: Word)
    requires !Flat(w)
    ensures Cross(w) == Prefix(Lead(w), Cross(Body(w)))
    decreases w
  {
    hide Prefix, Concat, CrossAlts;
    match w
    case Text(s, rest) =>
      LeadAndBodyCross(rest);
      PrefixConcat(s, Lead(rest), Cross(Body(rest)));
    case Group(_, _) =>
      PrefixEmpty(Cross(w));
  }

  // ---------------------------------------------------------------- expansion is the cross product

  /** The expander finds no brace in neutral text, and the first group of a word where it was written. */
  lemma OpenInFlat(s: string)
    requires Neutral(s)
    ensures FindOpen(s, 0) == (|s|, NUL)
  {
    var k := SkipText(s, 0, s, '{', 0, 1);
  }

  lemma OpenFound(text: string, lead: string, alts: Alts)
    requires Neutral(lead) && alts.More? && ValidAlts(alts)
    requires Occurs(text, 0, lead) && |lead| < |text| && text[|lead|] == '{'
    requires AltsStand(text, |lead| + 1, alts)
    requires |lead| + 1 + AltsLength(alts) < |text| && text[|lead| + 1 + AltsLength(alts)] == '}'
    ensures FindOpen(text, 0) == (|lead|, '{')
    ensures Gobble(text, |lead| + 1, '}') == (|lead| + 1 + AltsLength(alts), '}')
  {
    hide Scan, Advance, Occurs, Neutral;
    CloseFound(text, |lead| + 1, alts);
    FirstInGroup(text, |lead| + 1, alts.w);
    var k := SkipText(text, 0, lead, '{', 0, 1);
    StopsAtOpen(text, |lead|);
  }

  lemma StopsAtOpen(text: string, i: nat)
    requires i < |text| && text[i] == '{' && !LoneBrace(text, i)
    ensures Scan(text, i, '{', Plain(0, 1)) == (i, '{')
  {
  }

  /** The cut that the expander makes around the first group. */
  lemma CutGroup(text: string, lead: string, alts: string, rest: string)
    requires text == lead + ("{" + alts + "}" + rest)
    ensures Occurs(text, 0, lead) && Occurs(text, |lead|, "{" + alts + "}" + rest)
    ensures |text| == |lead| + |alts| + |rest| + 2
    ensures text[..|lead|] == lead
    ensures text[|lead| + 1..|lead| + 1 + |alts|] == alts
    ensures text[|lead| + 2 + |alts|..] == rest
  {
  }

  lemma {:induction false} ExpandWord(term: SequenceTerm, w: Word)
    requires Valid(w)
    ensures Expand(term, Show(w)) == Cross(w)
    decreases w, 1
  {
    if Flat(w) {
      FlatWord(w);
      OpenInFlat(Show(w));
    } else {
      LeadAndBody(w);
      LeadAndBodyShow(w);
      LeadAndBodyCross(w);
      var lead, g := Lead(w), Body(w);
      ExpandGroup(term, lead, g.alts, g.rest);
    }
  }

  lemma {:induction false} ExpandGroup(term: SequenceTerm, lead: string, alts: Alts, rest: Word)
    requires Neutral(lead) && Valid(Group(alts, rest))
    ensures Expand(term, lead + Show(Group(alts, rest))) == Prefix(lead, Cross(Group(alts, rest)))
    decreases Group(alts, rest), 0
  {
    hide Expand, ExpandAmble, Concat, Neutral, ShowAlts, Prefix;
    var amble := ShowAlts(alts);
    ExpandCut(term, lead, alts, Show(rest));
    ExpandAlts(term, amble, 0, alts) by { ShownAltsStand(amble, 0, alts); ShowAltsLength(alts); }
    ExpandWord(term, rest);
    ConcatSingle(lead, CrossAlts(alts));
    ConcatPrefix(lead, CrossAlts(alts), Cross(rest));
  }

  /** The expander cuts a text at its first group. */
  lemma ExpandCut(term: SequenceTerm, lead: string, alts: Alts, tail: string)
    requires Neutral(lead) && alts.More? && ValidAlts(alts)
    ensures Expand(term, lead + ("{" + ShowAlts(alts) + "}" + tail))
         == Concat(Concat([lead], ExpandAmble(term, ShowAlts(alts), 0)), Expand(term, tail))
  {
    hide Expand, ExpandAmble, HasSeparator, FindOpen, Gobble, Concat, Neutral, ShowAlts, ValidAlts, Occurs;
    var amble := ShowAlts(alts);
    var text := lead + ("{" + amble + "}" + tail);
    CutGroup(text, lead, amble, tail);
    CutFound(text, lead, alts, tail);
    AmbleSeparated(alts);
    ExpandUnfolds(term, text, |lead|, |lead| + 1 + |amble|);
  }

  lemma CutFound(text: string, lead: string, alts: Alts, tail: string)
    requires Neutral(lead) && alts.More? && ValidAlts(alts)
    requires text == lead + ("{" + ShowAlts(alts) + "}" + tail)
    ensures FindOpen(text, 0) == (|lead|, '{')
    ensures Gobble(text, |lead| + 1, '}') == (|lead| + 1 + |ShowAlts(alts)|, '}')
  {
    hide FindOpen, Gobble, Neutral, ShowAlts, ValidAlts, AltsStand, Occurs;
    CutGroup(text, lead, ShowAlts(alts), tail);
    OccursGroup(text, |lead|, ShowAlts(alts), tail);
    ShownAltsStand(text, |lead| + 1, alts);
    ShowAltsLength(alts);
    OpenFound(text, lead, alts);
  }

  /** One unfolding of the expander at a group with a separator. */
  lemma ExpandUnfolds(term: SequenceTerm, text: string, i: nat, k: nat)
    requires i < k < |text| && FindOpen(text, 0) == (i, '{') && Gobble(text, i + 1, '}') == (k, '}')
    requires HasSeparator(text[i + 1..k], 0)
    ensures Expand(term, text)
         == Concat(Concat([text[..i]], ExpandAmble(term, text[i + 1..k], 0)), Expand(term, text[k + 1..]))
  {
    hide Concat, ExpandAmble, HasSeparator, FindOpen, Gobble;
  }

  lemma AmbleSeparated(alts: Alts)
    requires alts.More? && ValidAlts(alts)
    ensures HasSeparator(ShowAlts(alts), 0)
  {
    var amble := ShowAlts(alts);
    ShownAltsStand(amble, 0, alts);
    ShowAltsLength(alts);
    assert HasSeparator(amble, Length(alts.w));
    SeparatorBehind(amble, 0, alts.w);
  }

  lemma StopsAtSeparator(text: string, i: nat)
    requires i <= |text| && (i < |text| ==> text[i] == ',')
    ensures Scan(text, i, ',', Plain(0, 1)) == (i, if i < |text| then ',' else NUL)
  {
  }

  lemma OccursCut(text: string, i: nat, s: string)
    requires Occurs(text, i, s)
    ensures text[i..i + |s|] == s
  {
  }

  lemma {:induction false} ExpandAlts(term: SequenceTerm, amble: string, start: nat, a: Alts)
    requires ValidAlts(a) && AltsStand(amble, start, a) && Occurs(amble, start, ShowAlts(a))
    requires start + AltsLength(a) == |amble|
    ensures ExpandAmble(term, amble, start) == CrossAlts(a)
    decreases a, 0
  {
    hide Expand, Scan, Advance, Cross, Stands, Prefix;
    match a
    case Last(w) =>
      var k := SkipTop(amble, start, w, ',', 1);
      StopsAtSeparator(amble, start + Length(w));
      ShowLength(w);
      OccursCut(amble, start, Show(w));
      ExpandWord(term, w);
    case More(w, rest) =>
      OccursMore(amble, start, Show(w), ShowAlts(rest));
      var k := SkipTop(amble, start, w, ',', 1);
      StopsAtSeparator(amble, start + Length(w));
      ShowLength(w);
      OccursCut(amble, start, Show(w));
      ExpandWord(term, w);
      ExpandAlts(term, amble, start + Length(w) + 1, rest);
  }

  /** For every well-formed word, brace expansion returns the ordered cross product of its parts, and as
      many strings as the product of the group sums. */
  lemma ExpansionIsCrossProduct(term: SequenceTerm, w: Word)
    requires Valid(w)
    ensures Expand(term, Show(w)) == Cross(w)
    ensures |Expand(term, Show(w))| == Count(w)
  {
    ExpandWord(term, w);
    CrossLength(w);
  }
}
