/** `brace_gobbler`: the scanner that finds the character ending a piece of a brace word, counting brace
    levels and skipping quoted text.

    Texts are C strings: the character past the end reads as NUL. `Scan` is the specification, one
    character at a time; `BraceGobbler` is the loop.
 */
module BraceScan {
  import opened CStrings

  predicate BraceWhitespace(c: char) {
    c == NUL || c == ' ' || c == '\t' || c == '\n'
  }

  /** The scanner's variables: the open quote or NUL, the brace level, the argument separators seen at
      level zero, and whether the next character is escaped. */
  datatype Mode = Mode(quoted: char, level: nat, commas: nat, passNext: bool)

  datatype Action = Stop | Go(mode: Mode)

  /** An open brace that does not start a brace expression: white space before it, and white space or a
      close brace after it. */
  predicate LoneBrace(text: string, i: nat)
    requires i < |text|
  {
    && text[i] == '{'
    && (i == 0 || BraceWhitespace(text[i - 1]))
    && (BraceWhitespace(CharAt(text, i + 1)) || CharAt(text, i + 1) == '}')
  }

  /** What the scanner does at one character; every action but `Stop` moves one place on. */
  function Advance(text: string, i: nat, satisfy: char, m: Mode): Action
    requires i < |text|
  {
    var c := text[i];
    if m.passNext then
      Go(m.(passNext := false))
    else if c == '\\' && (m.quoted == NUL || m.quoted == '"' || m.quoted == '`') then
      Go(m.(passNext := true))
    else if c == '$' && CharAt(text, i + 1) == '{' && m.quoted != '\'' then
      Go(m.(passNext := true, level := if m.quoted == NUL then m.level + 1 else m.level))
    else if m.quoted != NUL then
      Go(if c == m.quoted then m.(quoted := NUL) else m)
    else if c == '"' || c == '\'' || c == '`' then
      Go(m.(quoted := c))
    else if c == satisfy && m.level == 0 && m.commas > 0 then
      (if LoneBrace(text, i) then Go(m) else Stop)
    else if c == '{' then
      Go(m.(level := m.level + 1))
    else if c == '}' && m.level > 0 then
      Go(m.(level := m.level - 1))
    else if satisfy == '}' && c == ',' && m.level == 0 then
      Go(m.(commas := m.commas + 1))
    else if satisfy == '}' && m.level == 0
            && c == '.' && CharAt(text, i + 1) == '.' && CharAt(text, i + 2) != satisfy then
      Go(m.(commas := m.commas + 1))
    else
      Go(m)
  }

  /** Where the scan stops and on which character; the end of the text and NUL when nothing is found. */
  function Scan(text: string, i: nat, satisfy: char, m: Mode): (r: (nat, char))
    requires i <= |text|
    ensures i <= r.0 <= |text|
    ensures r.0 < |text| ==> r.1 == satisfy == text[r.0]
    ensures r.0 == |text| ==> r.1 == NUL
    decreases |text| - i
  {
    if i == |text| then (i, NUL)
    else
      match Advance(text, i, satisfy, m)
      case Stop => (i, text[i])
      case Go(m') => Scan(text, i + 1, satisfy, m')
  }

  function InitialMode(satisfy: char): Mode {
    Mode(NUL, 0, if satisfy == '}' then 0 else 1, false)
  }

  function Gobble(text: string, i: nat, satisfy: char): (r: (nat, char))
    requires i <= |text|
    ensures i <= r.0 <= |text|
    ensures r.0 < |text| ==> r.1 == satisfy == text[r.0]
    ensures r.0 == |text| ==> r.1 == NUL
  {
    Scan(text, i, satisfy, InitialMode(satisfy))
  }

  method BraceGobbler(text: string, start: nat, satisfy: char) returns (i: nat, c: char)
    requires start <= |text|
    ensures (i, c) == Gobble(text, start, satisfy)
  {
    var level, quoted, passNext := 0, NUL, false;
    var commas := if satisfy == '}' then 0 else 1;
    i := start;
    while i < |text|
      invariant start <= i <= |text|
      invariant Gobble(text, start, satisfy) == Scan(text, i, satisfy, Mode(quoted, level, commas, passNext))
    {
      c := text[i];
      if passNext {
        passNext := false;
        i := i + 1;
        continue;
      }
      if c == '\\' && (quoted == NUL || quoted == '"' || quoted == '`') {
        passNext := true;
        i := i + 1;
        continue;
      }
      if c == '$' && CharAt(text, i + 1) == '{' && quoted != '\'' {
        passNext := true;
        i := i + 1;
        if quoted == NUL {
          level := level + 1;
        }
        continue;
      }
      if quoted != NUL {
        if c == quoted {
          quoted := NUL;
        }
        i := i + 1;
        continue;
      }
      if c == '"' || c == '\'' || c == '`' {
        quoted := c;
        i := i + 1;
        continue;
      }
      if c == satisfy && level == 0 && commas > 0 {
        if c == '{' && (i == 0 || BraceWhitespace(text[i - 1]))
           && (BraceWhitespace(CharAt(text, i + 1)) || CharAt(text, i + 1) == '}') {
          i := i + 1;
          continue;
        }
        return;
      }
      if c == '{' {
        level := level + 1;
      } else if c == '}' && level > 0 {
        level := level - 1;
      } else if satisfy == '}' && c == ',' && level == 0 {
        commas := commas + 1;
      } else if satisfy == '}' && level == 0
                && c == '.' && CharAt(text, i + 1) == '.' && CharAt(text, i + 2) != satisfy {
        commas := commas + 1;
      }
      i := i + 1;
    }
    c := NUL;
  }
}
