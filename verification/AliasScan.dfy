/** How an input line is cut into words for alias expansion: blanks and quoted words are skipped, quotes inside
    a token are scanned whole, a backslash takes the next character with it.
 */
module AliasScan {
  import opened CStrings

  predicate Whitespace(c: char) {
    c == ' ' || c == '\t'
  }

  predicate SelfDelimiting(c: char) {
    c in {' ', '\t', '\n', '\r', ';', '|', '&', '(', ')'}
  }

  predicate CommandSeparator(c: char) {
    c in {'\r', '\n', ';', '|', '&', '('}
  }

  predicate QuoteChar(c: char) {
    c == '\'' || c == '"'
  }

  predicate Letter(c: char) {
    'a' <= c <= 'z' || 'A' <= c <= 'Z'
  }

  /** The index of the closing quote, or the end of the line. */
  function Quoted(s: string, i: nat, delimiter: char): (r: nat)
    requires i <= |s|
    ensures i <= r <= |s|
    decreases |s| - i
  {
    if i == |s| then i
    else if s[i] == '\\' then if i + 1 == |s| then i + 1 else Quoted(s, i + 2, delimiter)
    else if s[i] == delimiter then i
    else Quoted(s, i + 1, delimiter)
  }

  /** Where blanks and quoted words end, and whether a command separator was among them. */
  function Skipped(s: string, i: nat, passNext: bool, quotedWord: bool, command: bool): (r: (nat, bool))
    requires i <= |s|
    ensures i <= r.0 <= |s|
    decreases |s| - i
  {
    if i == |s| then (i, command)
    else if passNext then Skipped(s, i + 1, false, quotedWord, command)
    else if Whitespace(s[i]) then Skipped(s, i + 1, false, false, command)
    else if s[i] == '\\' then
      if i + 1 == |s| then (i, command)
      else if Letter(s[i + 1]) then Skipped(s, i + 1, false, true, command)
      else Skipped(s, i + 1, true, quotedWord, command)
    else if QuoteChar(s[i]) then
      var q := Quoted(s, i + 1, s[i]);
      if q == |s| then (q, command)
      else Skipped(s, q + 1, false, quotedWord || Letter(CharAt(s, q + 1)), command)
    else if quotedWord then Skipped(s, i + 1, false, true, command)
    else if CommandSeparator(s[i]) then Skipped(s, i + 1, false, false, true)
    else (i, command)
  }

  /** Where the token that starts at `i` ends. */
  function TokenEnd(s: string, i: nat): (r: nat)
    requires i <= |s|
    ensures i <= r <= |s|
    decreases |s| - i
  {
    if i == |s| || SelfDelimiting(s[i]) then i
    else if s[i] == '\\' then if i + 1 == |s| then i + 1 else TokenEnd(s, i + 2)
    else if QuoteChar(s[i]) then
      var q := Quoted(s, i + 1, s[i]);
      if q == |s| then q else TokenEnd(s, q + 1)
    else TokenEnd(s, i + 1)
  }

  // ---------------------------------------------------------------- what they compute

  /** How many backslashes stand directly in front of position `j`, from `i` on. */
  function Slashes(s: string, i: nat, j: nat): nat
    requires i <= j <= |s|
    decreases j
  {
    if j > i && s[j - 1] == '\\' then 1 + Slashes(s, i, j - 1) else 0
  }

  /** A delimiter that no backslash takes with it. */
  predicate Ends(s: string, i: nat, j: nat, delimiter: char)
    requires i <= j < |s|
  {
    s[j] == delimiter && Slashes(s, i, j) % 2 == 0
  }

  /** The first delimiter with an even number of backslashes in front of it, or the end of the line. */
  lemma QuotedIsFirstEnd(s: string, i: nat, delimiter: char)
    requires i <= |s| && delimiter != '\\'
    ensures var r := Quoted(s, i, delimiter);
      && (r < |s| ==> Ends(s, i, r, delimiter))
      && forall j :: i <= j < r ==> !Ends(s, i, j, delimiter)
  {
    QuotedFrom(s, i, i, delimiter);
  }

  lemma {:induction false} QuotedFrom(s: string, i: nat, k: nat, delimiter: char)
    requires i <= k <= |s| && delimiter != '\\' && Slashes(s, i, k) % 2 == 0
    ensures var r := Quoted(s, k, delimiter);
      && (r < |s| ==> Ends(s, i, r, delimiter))
      && forall j :: k <= j < r ==> !Ends(s, i, j, delimiter)
    decreases |s| - k
  {
    if k < |s| && s[k] == '\\' {
      if k + 1 < |s| {
        assert Slashes(s, i, k + 1) == 1 + Slashes(s, i, k);
        QuotedFrom(s, i, k + 2, delimiter);
      }
    } else if k < |s| && s[k] != delimiter {
      QuotedFrom(s, i, k + 1, delimiter);
    }
  }

  /** How a character stands: free, right behind a closing quote, behind a backslash, inside quotes, or behind a
      backslash inside quotes. */
  datatype Mode = Free | Closed | Escaped | In(delimiter: char) | InEscaped(delimiter: char)

  /** The mode, and whether the character belongs to a word that begins with quoted text. A letter that is
      escaped or follows a closing quote makes such a word, a blank ends it. */
  datatype Place = Place(mode: Mode, word: bool)

  function Step(p: Place, c: char): Place {
    match p.mode
    case Free => Place(FromFree(c), p.word && !Whitespace(c))
    case Closed => Place(FromFree(c), (p.word || Letter(c)) && !Whitespace(c))
    case Escaped => Place(Free, p.word || Letter(c))
    case In(d) => Place(if c == '\\' then InEscaped(d) else if c == d then Closed else In(d), p.word)
    case InEscaped(d) => Place(In(d), p.word)
  }

  function FromFree(c: char): Mode {
    if c == '\\' then Escaped else if QuoteChar(c) then In(c) else Free
  }

  /** The place of the character at `j` when reading starts free at `i`. */
  function PlaceAt(s: string, i: nat, j: nat): Place
    requires i <= j <= |s|
    decreases j
  {
    if j == i then Place(Free, false) else Step(PlaceAt(s, i, j - 1), s[j - 1])
  }

  predicate Unquoted(s: string, i: nat, j: nat)
    requires i <= j <= |s|
  {
    PlaceAt(s, i, j).mode in {Free, Closed}
  }

  /** From `k` on, the first delimiter that is not quoted is at `r`, or there is none and `r` is the end. */
  predicate FirstDelimiter(s: string, i: nat, k: nat, r: nat)
    requires i <= k <= r <= |s|
  {
    && (r < |s| ==> Unquoted(s, i, r) && SelfDelimiting(s[r]))
    && forall j :: k <= j < r && Unquoted(s, i, j) ==> !SelfDelimiting(s[j])
  }

  /** No such delimiter from `k` to `j`. */
  predicate NoDelimiter(s: string, i: nat, k: nat, j: nat)
    requires i <= k <= j <= |s|
  {
    forall m :: k <= m < j && Unquoted(s, i, m) ==> !SelfDelimiting(s[m])
  }

  /** A token ends at the first delimiter that is not quoted, or at the end of the line. */
  lemma TokenEndIsFirstDelimiter(s: string, i: nat)
    requires i <= |s|
    ensures FirstDelimiter(s, i, i, TokenEnd(s, i))
  {
    TokenEndFrom(s, i, i);
  }

  lemma DelimiterLater(s: string, i: nat, k: nat, j: nat, r: nat)
    requires i <= k <= j <= r <= |s| && NoDelimiter(s, i, k, j) && FirstDelimiter(s, i, j, r)
    ensures FirstDelimiter(s, i, k, r)
  {
    hide PlaceAt;
  }

  /** One round of the loop: over an escaped character, over a quotation, or over any other character. */
  lemma OneTokenRound(s: string, i: nat, k: nat) returns (next: nat)
    requires i <= k < |s| && Unquoted(s, i, k) && !SelfDelimiting(s[k])
    ensures k < next <= |s| && NoDelimiter(s, i, k, next) && TokenEnd(s, k) == TokenEnd(s, next)
    ensures next < |s| ==> Unquoted(s, i, next)
    ensures TokenEnd(s, |s|) == |s|
  {
    hide Quoted;
    next := k + 1;
    if s[k] == '\\' {
      assert PlaceAt(s, i, k + 1).mode == Escaped;
      if k + 1 < |s| {
        next := k + 2;
      }
    } else if QuoteChar(s[k]) {
      TokenQuotation(s, i, k);
      var q := Quoted(s, k + 1, s[k]);
      next := if q < |s| then q + 1 else q;
    }
  }

  lemma TokenQuotation(s: string, i: nat, k: nat)
    requires i <= k < |s| && Unquoted(s, i, k) && QuoteChar(s[k])
    ensures var q := Quoted(s, k + 1, s[k]);
      && NoDelimiter(s, i, k, if q < |s| then q + 1 else q)
      && (q + 1 < |s| ==> Unquoted(s, i, q + 1))
  {
    hide Quoted;
    InsideQuotes(s, i, k + 1, s[k]);
  }

  lemma {:induction false} TokenEndFrom(s: string, i: nat, k: nat)
    requires i <= k <= |s| && (k < |s| ==> Unquoted(s, i, k))
    ensures FirstDelimiter(s, i, k, TokenEnd(s, k))
    decreases |s| - k
  {
    hide PlaceAt, Quoted, NoDelimiter;
    if k < |s| && !SelfDelimiting(s[k]) {
      var next := OneTokenRound(s, i, k);
      TokenEndFrom(s, i, next);
      DelimiterLater(s, i, k, next, TokenEnd(s, k));
    }
  }

  /** Everything up to the closing quote is quoted, and belongs to the same word. */
  lemma {:induction false} InsideQuotes(s: string, i: nat, k: nat, d: char)
    requires i <= k <= |s| && PlaceAt(s, i, k).mode == In(d) && d != '\\'
    ensures var q := Quoted(s, k, d);
      && (q < |s| ==> s[q] == d && PlaceAt(s, i, q) == Place(In(d), PlaceAt(s, i, k).word))
      && forall j :: k <= j <= q ==> PlaceAt(s, i, j).mode in {In(d), InEscaped(d)}
    decreases |s| - k
  {
    if k < |s| && s[k] == '\\' {
      assert PlaceAt(s, i, k + 1) == Place(InEscaped(d), PlaceAt(s, i, k).word);
      if k + 1 < |s| {
        InsideQuotes(s, i, k + 2, d);
      }
    } else if k < |s| && s[k] != d {
      InsideQuotes(s, i, k + 1, d);
    }
  }

  /** A command separator outside quoted text and outside words that begin with quoted text. */
  predicate Separates(s: string, i: nat, j: nat)
    requires i <= j < |s|
  {
    CommandSeparator(s[j]) && Unquoted(s, i, j) && !PlaceAt(s, i, j).word
  }

  /** A character that skipping passes for itself and not as part of quoted text or of such a word. */
  predicate PassedAlone(s: string, i: nat, j: nat)
    requires i <= j < |s|
  {
    Unquoted(s, i, j) && !Step(PlaceAt(s, i, j), s[j]).word
  }

  /** Such characters are blanks, separators and the beginnings of quoted text. */
  predicate Skippable(s: string, i: nat, j: nat)
    requires i <= j < |s|
  {
    PassedAlone(s, i, j) && !PlaceAt(s, i, j).word ==>
      Whitespace(s[j]) || CommandSeparator(s[j]) || s[j] == '\\' || QuoteChar(s[j])
  }

  /** The loop's two flags describe the place of the next character. */
  predicate Describes(s: string, k: nat, p: Place, passNext: bool, quotedWord: bool)
    requires k <= |s|
  {
    match p.mode
    case Free => !passNext && quotedWord == p.word
    case Closed => !passNext && quotedWord == (p.word || Letter(CharAt(s, k)))
    case Escaped => k < |s| && if Letter(s[k]) then !passNext && quotedWord else passNext && quotedWord == p.word
    case _ => false
  }

  /** Skipping from `k` to `end` raised the flag exactly if it passed a separator, passed nothing else but blanks
      and quoted text, and stopped neither at a separator nor inside a word that begins with quoted text. */
  ghost predicate Skips(s: string, i: nat, k: nat, end: nat, flag: bool, command: bool)
    requires i <= k <= end <= |s|
  {
    && (flag <==> command || exists j :: k <= j < end && Separates(s, i, j))
    && (forall j :: k <= j < end ==> Skippable(s, i, j))
    && !CommandSeparator(CharAt(s, end))
    && (end < |s| && s[end] != '\\' ==> Unquoted(s, i, end) && !PlaceAt(s, i, end).word)
  }

  /** Characters from `k` to `j` that neither separate nor stop. */
  ghost predicate Quiet(s: string, i: nat, k: nat, j: nat)
    requires i <= k <= j <= |s|
  {
    forall m :: k <= m < j ==> Skippable(s, i, m) && !Separates(s, i, m)
  }

  lemma SkipsFurther(s: string, i: nat, k: nat, j: nat, end: nat, flag: bool, command: bool)
    requires i <= k <= j <= end <= |s| && Quiet(s, i, k, j) && Skips(s, i, j, end, flag, command)
    ensures Skips(s, i, k, end, flag, command)
  {
    hide Skippable, Separates;
  }

  lemma SkipsSeparator(s: string, i: nat, k: nat, end: nat, flag: bool, command: bool)
    requires i <= k < end <= |s| && Separates(s, i, k) && Skips(s, i, k + 1, end, flag, true)
    ensures Skips(s, i, k, end, flag, command)
  {
  }

  /** One round of the loop over a character that is no separator and opens no quotes. */
  lemma OneCharacter(s: string, i: nat, k: nat, passNext: bool, quotedWord: bool)
    requires i <= k < |s| && Describes(s, k, PlaceAt(s, i, k), passNext, quotedWord)
    requires
      || passNext || Whitespace(s[k]) || (s[k] == '\\' && k + 1 < |s|)
      || (quotedWord && !QuoteChar(s[k]) && s[k] != '\\')
    ensures Quiet(s, i, k, k + 1)
    ensures passNext ==> Describes(s, k + 1, PlaceAt(s, i, k + 1), false, quotedWord)
    ensures !passNext && Whitespace(s[k]) ==> Describes(s, k + 1, PlaceAt(s, i, k + 1), false, false)
    ensures !passNext && s[k] == '\\' && k + 1 < |s| ==>
      var letter := Letter(s[k + 1]); Describes(s, k + 1, PlaceAt(s, i, k + 1), !letter, quotedWord || letter)
    ensures !passNext && quotedWord && !Whitespace(s[k]) && s[k] != '\\' ==>
      Describes(s, k + 1, PlaceAt(s, i, k + 1), false, true)
  {
  }

  /** One round over quoted text. */
  lemma OneQuotation(s: string, i: nat, k: nat, quotedWord: bool)
    requires i <= k < |s| && Describes(s, k, PlaceAt(s, i, k), false, quotedWord) && QuoteChar(s[k])
    ensures var q := Quoted(s, k + 1, s[k]);
      && Quiet(s, i, k, if q < |s| then q + 1 else q)
      && (q < |s| ==>
            Describes(s, q + 1, PlaceAt(s, i, q + 1), false, quotedWord || Letter(CharAt(s, q + 1))))
  {
    InsideQuotes(s, i, k + 1, s[k]);
    assert !Letter(s[k]) && !Whitespace(s[k]);
  }

  lemma SkippedIff(s: string, i: nat, command: bool)
    requires i <= |s|
    ensures var (k, flag) := Skipped(s, i, false, false, command); Skips(s, i, i, k, flag, command)
  {
    SkippedFrom(s, i, i, false, false, command);
  }

  /** The loop goes on over the character at `k`. */
  predicate GoesOn(s: string, k: nat, passNext: bool, quotedWord: bool)
    requires k < |s|
  {
    || passNext || Whitespace(s[k]) || (s[k] == '\\' && k + 1 < |s|) || QuoteChar(s[k])
    || (s[k] != '\\' && (quotedWord || CommandSeparator(s[k])))
  }

  /** One round of the loop. */
  lemma OneRound(s: string, i: nat, k: nat, passNext: bool, quotedWord: bool, command: bool)
    returns (next: nat, passNext': bool, quotedWord': bool, separator: bool)
    requires i <= k < |s| && Describes(s, k, PlaceAt(s, i, k), passNext, quotedWord)
    requires GoesOn(s, k, passNext, quotedWord)
    ensures k < next <= |s|
    ensures Skipped(s, k, passNext, quotedWord, command)
         == Skipped(s, next, passNext', quotedWord', command || separator)
    ensures next < |s| ==> Describes(s, next, PlaceAt(s, i, next), passNext', quotedWord')
    ensures if separator then next == k + 1 && Separates(s, i, k) else Quiet(s, i, k, next)
  {
    hide PlaceAt, Step, Quoted, Skippable, Separates, Quiet;
    next, separator := k + 1, false;
    if QuoteChar(s[k]) && !passNext {
      OneQuotation(s, i, k, quotedWord);
      var q := Quoted(s, k + 1, s[k]);
      next, passNext' := if q < |s| then q + 1 else q, false;
      quotedWord' := quotedWord || Letter(CharAt(s, q + 1));
    } else if passNext || Whitespace(s[k]) || s[k] == '\\' || quotedWord {
      OneCharacter(s, i, k, passNext, quotedWord);
      var escape := !passNext && s[k] == '\\';
      var letter := escape && Letter(s[k + 1]);
      passNext' := escape && !letter;
      quotedWord' := if !passNext && Whitespace(s[k]) then false else quotedWord || letter;
    } else {
      OneSeparator(s, i, k);
      passNext', quotedWord', separator := false, false, true;
    }
  }

  lemma {:induction false} SkippedFrom(s: string, i: nat, k: nat, passNext: bool, quotedWord: bool, command: bool)
    requires i <= k <= |s| && (k < |s| ==> Describes(s, k, PlaceAt(s, i, k), passNext, quotedWord))
    ensures var (end, flag) := Skipped(s, k, passNext, quotedWord, command); Skips(s, i, k, end, flag, command)
    decreases |s| - k
  {
    hide PlaceAt, Skippable, Separates, Quiet, Skipped, Describes, GoesOn, Skips;
    if k < |s| && GoesOn(s, k, passNext, quotedWord) {
      var next, passNext', quotedWord', separator := OneRound(s, i, k, passNext, quotedWord, command);
      SkippedFrom(s, i, next, passNext', quotedWord', command || separator);
      var (end, flag) := Skipped(s, next, passNext', quotedWord', command || separator);
      if separator {
        SkipsSeparator(s, i, k, end, flag, command);
      } else {
        SkipsFurther(s, i, k, next, end, flag, command);
      }
    } else {
      SkipStops(s, i, k, passNext, quotedWord, command);
    }
  }

  lemma SkipStops(s: string, i: nat, k: nat, passNext: bool, quotedWord: bool, command: bool)
    requires i <= k <= |s| && (k < |s| ==> !GoesOn(s, k, passNext, quotedWord))
    requires k < |s| ==> Describes(s, k, PlaceAt(s, i, k), passNext, quotedWord)
    ensures Skipped(s, k, passNext, quotedWord, command) == (k, command) && Skips(s, i, k, k, command, command)
  {
  }

  lemma OneSeparator(s: string, i: nat, k: nat)
    requires i <= k < |s| && CommandSeparator(s[k]) && Describes(s, k, PlaceAt(s, i, k), false, false)
    ensures Separates(s, i, k) && Describes(s, k + 1, PlaceAt(s, i, k + 1), false, false)
  {
  }

  method SkipQuotes(s: string, start: nat) returns (i: nat)
    requires start < |s| && NUL !in s
    ensures i == Quoted(s, start + 1, s[start])
  {
    var delimiter := s[start];
    i := start + 1;
    while CharAt(s, i) != NUL
      invariant start < i <= |s|
      invariant Quoted(s, i, delimiter) == Quoted(s, start + 1, delimiter)
      decreases |s| - i
    {
      if s[i] == '\\' {
        i := i + 1;
        if CharAt(s, i) == NUL {
          break;
        }
      } else if s[i] == delimiter {
        return;
      }
      i := i + 1;
    }
  }

  method ReadToken(s: string, start: nat) returns (i: nat)
    requires start <= |s| && NUL !in s
    ensures i == TokenEnd(s, start)
  {
    i := start;
    while CharAt(s, i) != NUL && !SelfDelimiting(s[i])
      invariant start <= i <= |s|
      invariant TokenEnd(s, i) == TokenEnd(s, start)
      decreases |s| - i
    {
      if s[i] == '\\' {
        i := i + 1;
        if CharAt(s, i) == NUL {
          break;
        }
      } else if QuoteChar(s[i]) {
        i := SkipQuotes(s, i);
        if CharAt(s, i) == NUL {
          break;
        }
      }
      i := i + 1;
    }
  }
}
