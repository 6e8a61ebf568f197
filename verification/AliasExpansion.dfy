/** Alias expansion of an input line. Words that are due are replaced by their aliases, everything else is copied;
    expansion goes on to the next word after an alias that ends in a blank. Which words are due, and when those are
    the words in command position, is the subject of the second half.
 */
module AliasExpansion {
  import opened AliasScan
  import opened CStrings

  type Aliases = map<string, string>

  /** What was skipped, the word after it, whether that word is due to be looked up, and what stands for it in
      the output. */
  datatype Piece = Piece(skipped: string, word: string, due: bool, output: string)

  /** A word is replaced exactly when it is due and an alias. */
  predicate Justified(p: Piece, aliases: Aliases) {
    p.output == if Replaced(p, aliases) then aliases[p.word] else p.word
  }

  predicate Replaced(p: Piece, aliases: Aliases) {
    p.word != "" && p.due && p.word in aliases
  }

  predicate EndsBlank(v: string) {
    v != "" && Whitespace(v[|v| - 1])
  }

  /** A round: its piece, where the next one starts, and whether the next word may be expanded. */
  datatype Round = Round(piece: Piece, end: nat, next: bool)

  /** The word at `k`, a delimiter being a word of its own, and what becomes of it; `here` says that it stands
      where an alias may stand. */
  function AtWord(aliases: Aliases, all: bool, s: string, k: nat, here: bool): (r: Round)
    requires k <= |s|
    ensures k <= r.end <= |s| && (k < |s| ==> k < r.end)
    ensures r.piece.skipped == "" && r.piece.word == s[k..r.end] && Justified(r.piece, aliases)
    ensures r.piece.due <==> all || (here && '\\' !in r.piece.word)
    ensures r.next <==> Replaced(r.piece, aliases) && (all || EndsBlank(r.piece.output))
  {
    var e := TokenEnd(s, k);
    var end := if e == k < |s| then k + 1 else e;
    var word := s[k..end];
    var expand := here && '\\' !in word;
    if word != "" && (expand || all) && word in aliases then
      var v := aliases[word];
      Round(Piece("", word, true, v), end, (expand && EndsBlank(v)) || all)
    else Round(Piece("", word, expand || all, word), end, false)
  }

  function Read(aliases: Aliases, all: bool, s: string, i: nat, command: bool, next: bool): (r: Round)
    requires i < |s|
    ensures i < r.end <= |s| && r.piece.skipped + r.piece.word == s[i..r.end]
    ensures Justified(r.piece, aliases)
    ensures r.next <==> Replaced(r.piece, aliases) && (all || EndsBlank(r.piece.output))
    ensures var (k, flag) := Skipped(s, i, false, false, command);
      && r.piece.skipped == s[i..k]
      && (r.piece.due <==> all || ((flag || CommandSeparator(CharAt(s, k)) || next) && '\\' !in r.piece.word))
  {
    var (k, command') := Skipped(s, i, false, false, command);
    var w := AtWord(aliases, all, s, k, command' || CommandSeparator(CharAt(s, k)) || next);
    assert s[i..k] + s[k..w.end] == s[i..w.end];
    w.(piece := w.piece.(skipped := s[i..k]))
  }

  /** The rounds over the rest of the line. `command` says that the next word is the first of a command, `next`
      that the word before was replaced by an alias ending in a blank. */
  function Pieces(aliases: Aliases, all: bool, s: string, i: nat, command: bool, next: bool): seq<Piece>
    requires i <= |s|
    decreases |s| - i
  {
    if i == |s| then []
    else
      var r := Read(aliases, all, s, i, command, next);
      [r.piece] + Pieces(aliases, all, s, r.end, false, r.next)
  }

  lemma FirstPiece(aliases: Aliases, all: bool, s: string, i: nat, command: bool, next: bool)
    requires i < |s|
    ensures var r := Read(aliases, all, s, i, command, next);
      Pieces(aliases, all, s, i, command, next) == [r.piece] + Pieces(aliases, all, s, r.end, false, r.next)
  {
    hide Read;
  }

  lemma NoPiece(aliases: Aliases, all: bool, s: string, command: bool, next: bool)
    ensures Pieces(aliases, all, s, |s|, command, next) == []
  {
  }

  function Input(ps: seq<Piece>): string {
    if ps == [] then "" else ps[0].skipped + ps[0].word + Input(ps[1..])
  }

  function Output(ps: seq<Piece>): string {
    if ps == [] then "" else ps[0].skipped + ps[0].output + Output(ps[1..])
  }

  lemma Cons(p: Piece, ps: seq<Piece>)
    ensures Input([p] + ps) == p.skipped + p.word + Input(ps)
    ensures Output([p] + ps) == p.skipped + p.output + Output(ps)
  {
    assert ([p] + ps)[1..] == ps;
  }

  /** The pieces spell the input. */
  lemma {:induction false} PiecesSpellInput(aliases: Aliases, all: bool, s: string, i: nat, command: bool, next: bool)
    requires i <= |s|
    ensures Input(Pieces(aliases, all, s, i, command, next)) == s[i..]
    decreases |s| - i
  {
    hide Read, Pieces, Input, Output;
    if i == |s| {
      NoPiece(aliases, all, s, command, next);
      Nothing();
    } else {
      var r := Read(aliases, all, s, i, command, next);
      FirstPiece(aliases, all, s, i, command, next);
      PiecesSpellInput(aliases, all, s, r.end, false, r.next);
      Cons(r.piece, Pieces(aliases, all, s, r.end, false, r.next));
      assert s[i..] == s[i..r.end] + s[r.end..];
    }
  }

  /** A word is replaced exactly when it is due and an alias, and everything else is copied. */
  lemma {:induction false} ReplacementsJustified(aliases: Aliases, all: bool, s: string, i: nat, command: bool,
                                                 next: bool)
    requires i <= |s|
    ensures forall p :: p in Pieces(aliases, all, s, i, command, next) ==> Justified(p, aliases)
    decreases |s| - i
  {
    hide Read, Justified;
    if i < |s| {
      var r := Read(aliases, all, s, i, command, next);
      ReplacementsJustified(aliases, all, s, r.end, false, r.next);
    }
  }

  lemma Nothing()
    ensures Input([]) == "" && Output([]) == ""
  {
  }

  /** When no word that is due to be looked up is an alias, expansion copies the line. */
  lemma {:induction false} NoAliasNoChange(aliases: Aliases, all: bool, s: string, i: nat, command: bool, next: bool)
    requires i <= |s|
    requires forall p :: p in Pieces(aliases, all, s, i, command, next) && p.due ==> p.word !in aliases
    ensures Output(Pieces(aliases, all, s, i, command, next)) == s[i..]
    decreases |s| - i
  {
    hide Read, Pieces, Input, Output;
    if i == |s| {
      NoPiece(aliases, all, s, command, next);
      Nothing();
    } else {
      var r := Read(aliases, all, s, i, command, next);
      FirstPiece(aliases, all, s, i, command, next);
      var rest := Pieces(aliases, all, s, r.end, false, r.next);
      assert r.piece in [r.piece] + rest;
      assert forall p :: p in rest ==> p in [r.piece] + rest;
      NoAliasNoChange(aliases, all, s, r.end, false, r.next);
      Cons(r.piece, rest);
      assert s[i..] == s[i..r.end] + s[r.end..];
    }
  }

  // ---------------------------------------------------------------- which words are due

  /** The position behind the last separator among the first `n` characters, or 0 if there is none. */
  function Behind(t: string, n: nat): (b: nat)
    requires n <= |t|
    ensures b <= n && (b > 0 ==> Separates(t, 0, b - 1)) && forall j :: b <= j < n ==> !Separates(t, 0, j)
  {
    if n == 0 then 0 else if Separates(t, 0, n - 1) then n else Behind(t, n - 1)
  }

  /** What is skipped contains a separator. */
  predicate HasSeparator(t: string) {
    Behind(t, |t|) > 0
  }

  /** The round at `k` starts where the shell takes a command name: at the beginning of a command, if `first` says
      that the first round does, or behind a word replaced by an alias that ends in a blank. */
  predicate Begins(ps: seq<Piece>, k: nat, aliases: Aliases, first: bool)
    requires k < |ps|
  {
    if k == 0 then first else Replaced(ps[k - 1], aliases) && EndsBlank(ps[k - 1].output)
  }

  /** A word is due exactly if it has no backslash and its round began right or has skipped a separator. */
  predicate RightlyDue(p: Piece, begins: bool) {
    p.due <==> '\\' !in p.word && (begins || HasSeparator(p.skipped))
  }

  /** Nothing is skipped but blanks, separators and quoted text. */
  ghost predicate OnlySkippable(t: string) {
    forall j :: 0 <= j < |t| ==> Skippable(t, 0, j)
  }

  /** The word does not stand inside a word that begins with quoted text. */
  predicate Opens(p: Piece) {
    var t := p.skipped + p.word;
    p.word != "" && p.word[0] != '\\' ==>
      Unquoted(t, 0, |p.skipped|) && !PlaceAt(t, 0, |p.skipped|).word
  }

  ghost predicate AllRightlyDue(ps: seq<Piece>, aliases: Aliases, first: bool) {
    forall k :: 0 <= k < |ps| ==>
      RightlyDue(ps[k], Begins(ps, k, aliases, first)) && OnlySkippable(ps[k].skipped) && Opens(ps[k])
  }

  /** The place of a character depends on the text between the start and it only. */
  lemma {:induction false} PlaceInSlice(s: string, i: nat, k: nat, j: nat)
    requires i <= j <= k <= |s|
    ensures PlaceAt(s[i..k], 0, j - i) == PlaceAt(s, i, j)
    decreases j
  {
    if j > i {
      PlaceInSlice(s, i, k, j - 1);
    }
  }

  lemma SkippedSlice(s: string, i: nat, k: nat, flag: bool, command: bool)
    requires i <= k <= |s| && Skips(s, i, i, k, flag, command)
    ensures OnlySkippable(s[i..k]) && (flag <==> command || HasSeparator(s[i..k]))
  {
    hide PlaceAt;
    forall j | 0 <= j < k - i
      ensures Skippable(s[i..k], 0, j) && (Separates(s[i..k], 0, j) <==> Separates(s, i, i + j))
    {
      PlaceInSlice(s, i, k, i + j);
      assert s[i..k][j] == s[i + j] && Skippable(s, i, i + j);
    }
    assert forall j :: i <= j < k ==> (Separates(s, i, j) <==> Separates(s[i..k], 0, j - i));
  }

  lemma RoundIsRight(aliases: Aliases, s: string, i: nat, command: bool, next: bool)
    requires i < |s|
    ensures var p := Read(aliases, false, s, i, command, next).piece;
      RightlyDue(p, command || next) && OnlySkippable(p.skipped) && Opens(p)
  {
    hide Skipped, Skips, HasSeparator, OnlySkippable, Opens;
    var (k, flag) := Skipped(s, i, false, false, command);
    SkippedIff(s, i, command);
    StopsAtNone(s, i, k, flag, command);
    SkippedSlice(s, i, k, flag, command);
    var r := Read(aliases, false, s, i, command, next);
    OpensInSlice(s, i, k, r, flag, command);
  }

  lemma OpensInSlice(s: string, i: nat, k: nat, r: Round, flag: bool, command: bool)
    requires i <= k <= r.end <= |s| && Skips(s, i, i, k, flag, command)
    requires r.piece.skipped == s[i..k] && r.piece.skipped + r.piece.word == s[i..r.end]
    ensures Opens(r.piece)
  {
    hide PlaceAt;
    if r.piece.word != "" {
      PlaceInSlice(s, i, r.end, k);
      assert (r.piece.skipped + r.piece.word)[k - i] == r.piece.word[0];
    }
  }

  lemma StopsAtNone(s: string, i: nat, k: nat, flag: bool, command: bool)
    requires i <= k <= |s| && Skips(s, i, i, k, flag, command)
    ensures !CommandSeparator(CharAt(s, k))
  {
  }

  /** Which words are due, on every line. */
  lemma {:induction false} DueIff(aliases: Aliases, s: string, i: nat, command: bool, next: bool)
    requires i <= |s|
    ensures AllRightlyDue(Pieces(aliases, false, s, i, command, next), aliases, command || next)
    decreases |s| - i
  {
    hide Read, RightlyDue, OnlySkippable, Opens, EndsBlank, Replaced;
    if i < |s| {
      var r := Read(aliases, false, s, i, command, next);
      var rest := Pieces(aliases, false, s, r.end, false, r.next);
      RoundIsRight(aliases, s, i, command, next);
      DueIff(aliases, s, r.end, false, r.next);
      OneMoreRight(r.piece, rest, aliases, command || next, r.next);
    }
  }

  lemma OneMoreRight(p: Piece, ps: seq<Piece>, aliases: Aliases, first: bool, next: bool)
    requires AllRightlyDue(ps, aliases, next) && (next <==> Replaced(p, aliases) && EndsBlank(p.output))
    requires RightlyDue(p, first) && OnlySkippable(p.skipped) && Opens(p)
    ensures AllRightlyDue([p] + ps, aliases, first)
  {
    hide RightlyDue, OnlySkippable, Opens, EndsBlank, Replaced;
    var all := [p] + ps;
    forall k | 0 <= k < |all|
      ensures RightlyDue(all[k], Begins(all, k, aliases, first)) && OnlySkippable(all[k].skipped) && Opens(all[k])
    {
      if k > 0 {
        assert all[k] == ps[k - 1] && Begins(all, k, aliases, first) == Begins(ps, k - 1, aliases, next);
      }
    }
  }

  // ---------------------------------------------------------------- command position

  predicate BlankFrom(t: string, b: nat) {
    forall j :: b <= j < |t| ==> Whitespace(t[j])
  }

  predicate QuoteFree(t: string, b: nat) {
    forall j :: b <= j < |t| ==> t[j] != '\\' && !QuoteChar(t[j])
  }

  /** Word `k` is in command position: nothing but blanks stand between it and the last separator in front of it,
      or, if none was skipped, the place where its round began right. */
  predicate InCommandPosition(ps: seq<Piece>, k: nat, aliases: Aliases, first: bool)
    requires k < |ps|
  {
    var t := ps[k].skipped;
    BlankFrom(t, Behind(t, |t|)) && (HasSeparator(t) || Begins(ps, k, aliases, first))
  }

  /** Behind the last separator, what is skipped without a quote is blank. */
  lemma QuoteFreeIsBlank(t: string)
    requires OnlySkippable(t)
    ensures var b := Behind(t, |t|); QuoteFree(t, b) <==> BlankFrom(t, b)
  {
    hide PlaceAt;
    var b := Behind(t, |t|);
    if QuoteFree(t, b) {
      FreeBehind(t, b);
      forall j | b <= j < |t| ensures Whitespace(t[j]) {
        FreeFrom(t, b, j);
        assert Skippable(t, 0, j) && !Separates(t, 0, j);
      }
    }
  }

  lemma FreeBehind(t: string, b: nat)
    requires b <= |t| && (b > 0 ==> Separates(t, 0, b - 1))
    ensures PlaceAt(t, 0, b) == Place(Free, false)
  {
  }

  lemma {:induction false} FreeFrom(t: string, b: nat, j: nat)
    requires b <= j <= |t| && OnlySkippable(t) && QuoteFree(t, b) && PlaceAt(t, 0, b) == Place(Free, false)
    ensures PlaceAt(t, 0, j) == Place(Free, false)
    decreases j
  {
    if j > b {
      FreeFrom(t, b, j - 1);
    }
  }

  /** A word that is due is in command position if and only if no quoted text was skipped behind the last separator
      in front of it, or since its round began when there is none. */
  lemma InCommandPositionIff(aliases: Aliases, s: string, k: nat)
    requires k < |Pieces(aliases, false, s, 0, true, false)|
    ensures var ps := Pieces(aliases, false, s, 0, true, false); var t := ps[k].skipped;
      ps[k].due ==> (InCommandPosition(ps, k, aliases, true) <==> QuoteFree(t, Behind(t, |t|)))
  {
    hide BlankFrom, QuoteFree, OnlySkippable, HasSeparator;
    var ps := Pieces(aliases, false, s, 0, true, false);
    DueIff(aliases, s, 0, true, false);
    QuoteFreeIsBlank(ps[k].skipped);
  }

  /** So on a line without backslashes and quotes the words that are due are exactly those in command position. */
  lemma DueIsCommandPosition(aliases: Aliases, s: string, k: nat)
    requires QuoteFree(s, 0) && k < |Pieces(aliases, false, s, 0, true, false)|
    ensures var ps := Pieces(aliases, false, s, 0, true, false);
      ps[k].due <==> InCommandPosition(ps, k, aliases, true)
  {
    hide OnlySkippable, HasSeparator, Behind, BlankFrom;
    var ps := Pieces(aliases, false, s, 0, true, false);
    DueIff(aliases, s, 0, true, false);
    QuoteFreePieces(aliases, s, 0, true, false);
    QuoteFreeIsBlank(ps[k].skipped);
  }

  lemma {:induction false} QuoteFreePieces(aliases: Aliases, s: string, i: nat, command: bool, next: bool)
    requires i <= |s| && QuoteFree(s, 0)
    ensures forall p :: p in Pieces(aliases, false, s, i, command, next) ==>
      QuoteFree(p.skipped, 0) && '\\' !in p.word
    decreases |s| - i
  {
    hide Read;
    if i < |s| {
      var r := Read(aliases, false, s, i, command, next);
      var both := r.piece.skipped + r.piece.word;
      assert both == s[i..r.end] && QuoteFree(both, 0);
      forall j | 0 <= j < |r.piece.skipped| ensures r.piece.skipped[j] == both[j] {
      }
      forall j | 0 <= j < |r.piece.word| ensures r.piece.word[j] == both[|r.piece.skipped| + j] {
      }
      QuoteFreePieces(aliases, s, r.end, false, r.next);
    }
  }

  /** Otherwise the argument of a quoted command is replaced: `\ls foo` with an alias foo. */
  lemma QuotedCommandArgument(aliases: Aliases)
    requires "foo" in aliases
    ensures Pieces(aliases, false, "\\ls foo", 0, true, false) == [Piece("\\ls ", "foo", true, aliases["foo"])]
  {
    var s := "\\ls foo";
    assert Skipped(s, 3, false, true, true) == (4, true);
    assert Skipped(s, 1, false, true, true) == (4, true);
    assert s[..4] == "\\ls ";
    LastWord(aliases, s, 4, "foo");
  }

  /** So is the end of a word whose first character is escaped: `\1foo`. */
  lemma EscapedWordEnd(aliases: Aliases)
    requires "foo" in aliases
    ensures Pieces(aliases, false, "\\1foo", 0, true, false) == [Piece("\\1", "foo", true, aliases["foo"])]
  {
    var s := "\\1foo";
    assert Skipped(s, 1, true, false, true) == (2, true);
    assert s[..2] == "\\1";
    LastWord(aliases, s, 2, "foo");
  }

  /** A character that begins a word when it stands unquoted behind a separator. */
  predicate Ordinary(c: char) {
    !Whitespace(c) && !CommandSeparator(c) && !QuoteChar(c) && c != '\\'
  }

  /** In every round, the word behind an unquoted separator is looked at if and only if that separator does not
      stand inside a word that begins with quoted text. */
  lemma LookedAtIff(aliases: Aliases, s: string, k: nat, j: nat)
    requires k < |Pieces(aliases, false, s, 0, true, false)|
    requires var p := Pieces(aliases, false, s, 0, true, false)[k]; var t := p.skipped + p.word;
      && j < |p.skipped| && j + 1 < |t| && CommandSeparator(t[j]) && Unquoted(t, 0, j) && Ordinary(t[j + 1])
    ensures var p := Pieces(aliases, false, s, 0, true, false)[k]; var t := p.skipped + p.word;
      j + 1 == |p.skipped| <==> !PlaceAt(t, 0, j).word
  {
    hide Pieces, RightlyDue;
    DueIff(aliases, s, 0, true, false);
    BehindSeparator(Pieces(aliases, false, s, 0, true, false)[k], j);
  }

  lemma BehindSeparator(p: Piece, j: nat)
    requires OnlySkippable(p.skipped) && Opens(p)
    requires var t := p.skipped + p.word;
      && j < |p.skipped| && j + 1 < |t| && CommandSeparator(t[j]) && Unquoted(t, 0, j) && Ordinary(t[j + 1])
    ensures j + 1 == |p.skipped| <==> !PlaceAt(p.skipped + p.word, 0, j).word
  {
    var t := p.skipped + p.word;
    var place := PlaceAt(t, 0, j);
    assert PlaceAt(t, 0, j + 1) == Place(Free, place.word);
    if j + 1 < |p.skipped| {
      assert t[..|p.skipped|] == p.skipped;
      PlaceInSlice(t, 0, |p.skipped|, j + 1);
      assert Skippable(p.skipped, 0, j + 1);
    }
  }

  /** And a separator inside a word that begins with quoted text is passed over: in `a \ls;foo` the word foo is
      not even looked at. */
  lemma SeparatorInQuotedWord(aliases: Aliases)
    requires "a" !in aliases
    ensures Pieces(aliases, false, "a \\ls;foo", 0, true, false)
         == [Piece("", "a", true, "a"), Piece(" \\ls;foo", "", false, "")]
  {
    hide Read, Skipped;
    var s := "a \\ls;foo";
    FirstOfTwo(aliases);
    SecondOfTwo(aliases);
    assert Pieces(aliases, false, s, 9, false, false) == [];
  }

  lemma FirstOfTwo(aliases: Aliases)
    requires "a" !in aliases
    ensures Read(aliases, false, "a \\ls;foo", 0, true, false) == Round(Piece("", "a", true, "a"), 1, false)
  {
    var s := "a \\ls;foo";
    assert Skipped(s, 0, false, false, true) == (0, true) && TokenEnd(s, 0) == 1;
    assert s[0..0] == "" && s[0..1] == "a";
  }

  lemma SecondOfTwo(aliases: Aliases)
    ensures Read(aliases, false, "a \\ls;foo", 1, false, false) == Round(Piece(" \\ls;foo", "", false, ""), 9, false)
  {
    var s := "a \\ls;foo";
    PassedToTheEnd();
    assert s[1..9] == " \\ls;foo" && s[9..9] == "" && TokenEnd(s, 9) == 9;
  }

  lemma PassedToTheEnd()
    ensures Skipped("a \\ls;foo", 1, false, false, false) == (9, false)
  {
    var s := "a \\ls;foo";
    assert Skipped(s, 7, false, true, false) == (9, false);
    assert Skipped(s, 5, false, true, false) == (9, false);
    assert Skipped(s, 3, false, true, false) == (9, false);
  }

  lemma LastWord(aliases: Aliases, s: string, k: nat, word: string)
    requires k < |s| && s[k..] == word && |word| == 3 && word in aliases
    requires Skipped(s, 0, false, false, true) == (k, true)
    requires forall c :: c in word ==> !SelfDelimiting(c) && c != '\\' && !QuoteChar(c)
    ensures Pieces(aliases, false, s, 0, true, false) == [Piece(s[..k], word, true, aliases[word])]
  {
    assert |s| == k + 3 && s[k] == word[0] && s[k + 1] == word[1] && s[k + 2] == word[2];
    assert TokenEnd(s, k + 3) == k + 3;
    assert TokenEnd(s, k + 2) == k + 3;
    assert TokenEnd(s, k + 1) == k + 3;
    assert TokenEnd(s, k) == k + 3;
    assert s[0..k] == s[..k] && s[k..|s|] == word;
    assert Pieces(aliases, false, s, |s|, false, Read(aliases, false, s, 0, true, false).next) == [];
  }

  /** The expander with its table, its option and the flag that the skipping routine sets. */
  class Expander {
    const aliases: Aliases
    const all: bool
    var commandWord: bool

    constructor (aliases: Aliases, all: bool)
      ensures this.aliases == aliases && this.all == all
    {
      this.aliases, this.all, commandWord := aliases, all, false;
    }

    method SkipBlanks(s: string, start: nat) returns (i: nat)
      requires start <= |s| && NUL !in s
      modifies this
      ensures (i, commandWord) == Skipped(s, start, false, false, old(commandWord))
    {
      var passNext, quotedWord := false, 0;
      i := start;
      while CharAt(s, i) != NUL
        invariant start <= i <= |s|
        invariant Skipped(s, i, passNext, quotedWord > 0, commandWord)
               == Skipped(s, start, false, false, old(commandWord))
        decreases |s| - i
      {
        if passNext {
          passNext := false;
        } else if Whitespace(s[i]) {
          quotedWord := 0;
        } else if s[i] == '\\' {
          var peekc := CharAt(s, i + 1);
          if peekc == NUL {
            return;
          }
          if Letter(peekc) {
            quotedWord := quotedWord + 1;
          } else {
            passNext := true;
          }
        } else if QuoteChar(s[i]) {
          i := SkipQuotes(s, i);
          if CharAt(s, i) == NUL {
            return;
          }
          if Letter(CharAt(s, i + 1)) {
            quotedWord := quotedWord + 1;
          }
        } else if quotedWord > 0 {
        } else if CommandSeparator(s[i]) {
          commandWord := true;
        } else {
          return;
        }
        i := i + 1;
      }
    }

    /** The word at `start`, replaced or not, and whether the next one may be expanded. */
    method ExpandWord(s: string, start: nat, due: bool) returns (text: string, i: nat, expandNext: bool)
      requires start <= |s| && NUL !in s
      ensures var w := AtWord(aliases, all, s, start, due);
        text == w.piece.output && i == w.end && expandNext == w.next
    {
      hide TokenEnd;
      var expandThis := due;
      expandNext := false;
      i := ReadToken(s, start);
      if i == start && CharAt(s, i) != NUL {
        i := i + 1;
      }
      var token := s[start..i];
      if '\\' in token {
        expandThis := false;
      }
      if token != "" && (expandThis || all) && token in aliases {
        var v := aliases[token];
        text := v;
        if (expandThis && EndsBlank(v)) || all {
          expandNext := true;
        }
      } else {
        text := token;
      }
    }

    /** The expansion of a line. */
    method AliasExpand(s: string) returns (line: string)
      requires NUL !in s
      modifies this
      ensures line == Output(Pieces(aliases, all, s, 0, true, false))
    {
      hide Skipped, AtWord, Output, Pieces;
      line := "";
      var i, expandNext := 0, false;
      commandWord := true;
      while true
        invariant i <= |s|
        invariant line + Output(Pieces(aliases, all, s, i, commandWord, expandNext))
               == Output(Pieces(aliases, all, s, 0, true, false))
        decreases |s| - i, if i == |s| then 0 else 1
      {
        ghost var r := Round(Piece("", "", false, ""), i, false);
        if i < |s| {
          r := Read(aliases, all, s, i, commandWord, expandNext);
          RoundOutput(aliases, all, s, i, commandWord, expandNext, line);
        } else {
          NoMore(aliases, all, s, commandWord, expandNext, line);
          NoMore(aliases, all, s, false, false, line + "" + "");
        }
        var start := i;
        i := SkipBlanks(s, start);
        if start == i && CharAt(s, i) == NUL {
          return;
        }
        line := line + s[start..i];
        commandWord := commandWord || CommandSeparator(CharAt(s, i));
        var text;
        text, i, expandNext := ExpandWord(s, i, commandWord || expandNext);
        line := line + text;
        commandWord := false;
      }
    }
  }

  lemma RoundOutput(aliases: Aliases, all: bool, s: string, i: nat, command: bool, next: bool, line: string)
    requires i < |s|
    ensures var r := Read(aliases, all, s, i, command, next);
      line + Output(Pieces(aliases, all, s, i, command, next))
        == line + r.piece.skipped + r.piece.output + Output(Pieces(aliases, all, s, r.end, false, r.next))
  {
    hide Read, Output, Pieces;
    var r := Read(aliases, all, s, i, command, next);
    var rest := Pieces(aliases, all, s, r.end, false, r.next);
    FirstPiece(aliases, all, s, i, command, next);
    Cons(r.piece, rest);
    Joined(line, r.piece.skipped, r.piece.output, Output(rest));
  }

  lemma Joined(line: string, a: string, b: string, tail: string)
    ensures line + (a + b + tail) == line + a + b + tail
  {
  }

  lemma NoMore(aliases: Aliases, all: bool, s: string, command: bool, next: bool, line: string)
    ensures line + Output(Pieces(aliases, all, s, |s|, command, next)) == line
  {
    Nothing();
  }
}
