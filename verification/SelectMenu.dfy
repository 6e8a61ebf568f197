/** The layout of a `select` menu: columns no wider than the terminal, filled downwards, and the padding
    between them made of tabs and spaces.
 */
module SelectMenu {
  import opened Division

  /** Where the cursor is after writing `s` from column `at`. */
  function Column(s: string, at: nat, tabsize: nat): nat
    requires tabsize > 0
  {
    if s == "" then at
    else if s[0] == '\t' then Column(s[1..], at + tabsize - at % tabsize, tabsize)
    else Column(s[1..], at + 1, tabsize)
  }

  lemma {:induction false} ColumnAppend(s: string, c: char, at: nat, tabsize: nat)
    requires tabsize > 0
    ensures Column(s + [c], at, tabsize)
         == var here := Column(s, at, tabsize); if c == '\t' then here + tabsize - here % tabsize else here + 1
  {
    if s == "" {
      assert s + [c] == [c];
    } else {
      assert (s + [c])[1..] == s[1..] + [c];
      ColumnAppend(s[1..], c, if s[0] == '\t' then at + tabsize - at % tabsize else at + 1, tabsize);
    }
  }

  /** A tab stop that lies beyond `from` and in a later cell than `from`'s is at most `to`. */
  lemma NextStop(from: nat, to: nat, tabsize: nat)
    requires tabsize > 0 && to / tabsize > from / tabsize
    ensures from < from + tabsize - from % tabsize <= to
  {
    var a, b := from / tabsize, to / tabsize;
    assert from == a * tabsize + from % tabsize && to == b * tabsize + to % tabsize;
    Times(a + 1, b, tabsize);
  }

  /** Padding ends exactly at its target, or writes nothing when already there or beyond. */
  method Indent(from: nat, to: nat, tabsize: nat) returns (out: string)
    requires tabsize > 0
    ensures Column(out, from, tabsize) == if from < to then to else from
    ensures from >= to ==> out == ""
  {
    out := "";
    var at := from;
    while at < to
      invariant at == Column(out, from, tabsize)
      invariant if from < to then at <= to else out == ""
      decreases if at < to then to - at else 0
    {
      if to / tabsize > at / tabsize {
        NextStop(at, to, tabsize);
        ColumnAppend(out, '\t', from, tabsize);
        out := out + "\t";
        at := at + tabsize - at % tabsize;
      } else {
        ColumnAppend(out, ' ', from, tabsize);
        out := out + " ";
        at := at + 1;
      }
    }
  }

  function CeilDiv(a: nat, b: nat): (q: nat)
    requires b > 0
    ensures (q - 1) * b < a <= q * b || (a == 0 && q == 0)
  {
    assert a == a / b * b + a % b;
    a / b + if a % b != 0 then 1 else 0
  }

  /** How many columns fit. */
  function Fits(columns: nat, width: nat): (c: nat)
    ensures c >= 1
  {
    var c := if width != 0 then columns / width else 1;
    if c == 0 then 1 else c
  }

  function Rows(len: nat, columns: nat, width: nat): (r: nat)
    requires len > 0
    ensures 1 <= r <= len
  {
    var rows := CeilDiv(len, Fits(columns, width));
    RowsBound(len, Fits(columns, width));
    if rows == 1 then CeilDiv(len, rows) else rows
  }

  lemma RowsBound(len: nat, cols: nat)
    requires len > 0 && cols > 0
    ensures 1 <= CeilDiv(len, cols) <= len
    ensures CeilDiv(len, 1) == len
  {
    var q := CeilDiv(len, cols);
    if q > len {
      Times(len, q - 1, cols);
      Times(1, cols, len);
    }
  }

  /** Row r lists r + 1, r + 1 + R, r + 1 + 2R and so on as far as the list goes, R being the number of rows. */
  ghost predicate Laid(menu: seq<seq<nat>>, len: nat) {
    && (forall row, k :: 0 <= row < |menu| && 0 <= k < |menu[row]| ==> menu[row][k] == row + k * |menu| + 1 <= len)
    && (forall row :: 0 <= row < |menu| ==> menu[row] != [] && row + |menu[row]| * |menu| >= len)
  }

  /** Item `n`, counting from 1, is the k-th of its row. */
  ghost predicate At(menu: seq<seq<nat>>, row: nat, k: nat, n: nat) {
    row < |menu| && k < |menu[row]| && menu[row][k] == n
  }

  /** Such a menu shows every item exactly once and nothing else. */
  lemma ShownExactlyOnce(menu: seq<seq<nat>>, len: nat, n: nat)
    requires Laid(menu, len) && menu != []
    ensures 1 <= n <= len ==> At(menu, (n - 1) % |menu|, (n - 1) / |menu|, n)
    ensures forall row: nat, k: nat :: At(menu, row, k, n) ==>
      1 <= n <= len && row == (n - 1) % |menu| && k == (n - 1) / |menu|
  {
    hide Laid;
    if 1 <= n <= len {
      Shown(menu, len, n);
    }
    forall row: nat, k: nat | At(menu, row, k, n)
      ensures 1 <= n <= len && row == (n - 1) % |menu| && k == (n - 1) / |menu|
    {
      ShownThere(menu, len, n, row, k);
    }
  }

  lemma Shown(menu: seq<seq<nat>>, len: nat, n: nat)
    requires Laid(menu, len) && menu != [] && 1 <= n <= len
    ensures At(menu, (n - 1) % |menu|, (n - 1) / |menu|, n)
  {
    var row, k := (n - 1) % |menu|, (n - 1) / |menu|;
    assert n - 1 == k * |menu| + row;
    if k >= |menu[row]| {
      Times(|menu[row]|, k, |menu|);
    }
  }

  lemma ShownThere(menu: seq<seq<nat>>, len: nat, n: nat, row: nat, k: nat)
    requires Laid(menu, len) && menu != [] && At(menu, row, k, n)
    ensures 1 <= n <= len && row == (n - 1) % |menu| && k == (n - 1) / |menu|
  {
    assert menu[row][k] == row + k * |menu| + 1;
    DivModUnique(n - 1, k, |menu|, row);
  }

  /** And no row has more columns than fit. */
  lemma NoRowTooWide(menu: seq<seq<nat>>, len: nat, columns: nat, width: nat, row: nat)
    requires len > 0 && Laid(menu, len) && |menu| == Rows(len, columns, width) && row < |menu|
    ensures |menu[row]| <= Fits(columns, width)
  {
    var c, m := Fits(columns, width), |menu[row]|;
    var q := CeilDiv(len, c);
    assert menu[row][m - 1] == row + (m - 1) * |menu| + 1 <= len;
    RowsBound(len, c);
    hide CeilDiv, Fits, Laid;
    if q == 1 {
      assert |menu| == len;
      if m > 1 {
        Times(1, m - 1, len);
      }
    } else if m > c {
      assert len <= q * c == c * q;
      Times(c, m - 1, q);
    }
  }

  // ---------------------------------------------------------------- the text

  function Digits(n: nat): (s: string)
    ensures s != "" && '\t' !in s
  {
    if n < 10 then [('0' as int + n) as char] else Digits(n / 10) + [('0' as int + n % 10) as char]
  }

  /** The width the program allows for a number: right below a million. */
  function NumberLen(n: nat): nat {
    if n < 10 then 1 else if n < 100 then 2 else if n < 1000 then 3
    else if n < 10000 then 4 else if n < 100000 then 5 else 6
  }

  lemma {:induction false} NumberLenIsLength(n: nat)
    requires n < 1000000
    ensures |Digits(n)| == NumberLen(n)
    decreases n
  {
    if n >= 10 {
      NumberLenIsLength(n / 10);
    }
  }

  function PadLeft(s: string, len: nat): (r: string)
    ensures |s| <= len ==> |r| == len
    ensures '\t' !in s ==> '\t' !in r
  {
    if |s| < len then seq(len - |s|, _ => ' ') + s else s
  }

  /** The `n`-th item as printed, its number in `len` columns. */
  function Cell(n: nat, word: string, len: nat): string {
    PadLeft(Digits(n), len) + ") " + word
  }

  lemma CellWidth(n: nat, word: string, len: nat)
    requires |Digits(n)| <= len
    ensures |Cell(n, word, len)| == len + 2 + |word|
    ensures '\t' !in word ==> '\t' !in Cell(n, word, len)
  {
  }

  lemma {:induction false} ColumnConcat(a: string, b: string, at: nat, tabsize: nat)
    requires tabsize > 0
    ensures Column(a + b, at, tabsize) == Column(b, Column(a, at, tabsize), tabsize)
    decreases |a|
  {
    if a == "" {
      assert a + b == b;
    } else {
      assert (a + b)[1..] == a[1..] + b;
      ColumnConcat(a[1..], b, if a[0] == '\t' then at + tabsize - at % tabsize else at + 1, tabsize);
    }
  }

  lemma {:induction false} ColumnOfText(s: string, at: nat, tabsize: nat)
    requires tabsize > 0 && '\t' !in s
    ensures Column(s, at, tabsize) == at + |s|
    decreases |s|
  {
    if s != "" {
      ColumnOfText(s[1..], at + 1, tabsize);
    }
  }

  /** `cell` is written in `out` from column `at` on. */
  ghost predicate Starts(out: string, cell: string, at: nat, tabsize: nat)
    requires tabsize > 0
  {
    exists p: nat :: StartsAt(out, cell, at, tabsize, p)
  }

  ghost predicate StartsAt(out: string, cell: string, at: nat, tabsize: nat, p: nat)
    requires tabsize > 0
  {
    p + |cell| <= |out| && out[p..p + |cell|] == cell && Column(out[..p], 0, tabsize) == at
  }

  lemma StartsStill(out: string, more: string, cell: string, at: nat, tabsize: nat)
    requires tabsize > 0 && Starts(out, cell, at, tabsize)
    ensures Starts(out + more, cell, at, tabsize)
  {
    var p: nat :| StartsAt(out, cell, at, tabsize, p);
    assert (out + more)[p..p + |cell|] == out[p..p + |cell|] && (out + more)[..p] == out[..p];
    assert StartsAt(out + more, cell, at, tabsize, p);
  }

  lemma StartsHere(out: string, cell: string, tabsize: nat)
    requires tabsize > 0 && '\t' !in cell
    ensures Starts(out + cell, cell, Column(out, 0, tabsize), tabsize)
    ensures Column(out + cell, 0, tabsize) == Column(out, 0, tabsize) + |cell|
  {
    ColumnConcat(out, cell, 0, tabsize);
    ColumnOfText(cell, Column(out, 0, tabsize), tabsize);
    assert (out + cell)[|out|..|out| + |cell|] == cell && (out + cell)[..|out|] == out;
    assert StartsAt(out + cell, cell, Column(out, 0, tabsize), tabsize, |out|);
  }

  /** Every item with its number fits into `width` columns. */
  ghost predicate Roomy(words: seq<string>, width: nat, indicesLen: nat) {
    && |words| < 1000000 && indicesLen == NumberLen(|words|)
    && forall i :: 0 <= i < |words| ==> '\t' !in words[i] && |words[i]| + indicesLen + 2 <= width
  }

  /** In the first column numbers are as wide as the number of rows needs. */
  function IndexLen(k: nat, rows: nat, indicesLen: nat): nat {
    if k == 0 then NumberLen(rows) else indicesLen
  }

  /** The k-th item of the row starts in column k * width. */
  ghost predicate Aligned(words: seq<string>, line: seq<nat>, out: string, rows: nat, width: nat, indicesLen: nat,
                          tabsize: nat)
    requires tabsize > 0
  {
    forall k :: 0 <= k < |line| ==>
      && 0 < line[k] <= |words|
      && Starts(out, Cell(line[k], words[line[k] - 1], IndexLen(k, rows, indicesLen)), k * width, tabsize)
  }

  lemma CellFits(words: seq<string>, ind: nat, k: nat, row: nat, rows: nat, width: nat, indicesLen: nat)
    requires Roomy(words, width, indicesLen) && row < rows <= |words| && ind == row + k * rows < |words|
    ensures var cell := Cell(ind + 1, words[ind], IndexLen(k, rows, indicesLen));
      |cell| == |words[ind]| + IndexLen(k, rows, indicesLen) + 2 <= width && '\t' !in cell
  {
    hide Cell, Digits, NumberLen;
    NumberLenIsLength(ind + 1);
    NumberLenGrows(ind + 1, |words|);
    NumberLenGrows(rows, |words|);
    if k == 0 {
      NumberLenGrows(ind + 1, rows);
    }
    CellWidth(ind + 1, words[ind], IndexLen(k, rows, indicesLen));
  }

  lemma NumberLenGrows(m: nat, n: nat)
    ensures m <= n ==> NumberLen(m) <= NumberLen(n)
  {
  }

  lemma AlignedWith(words: seq<string>, line: seq<nat>, out: string, n: nat, rows: nat, width: nat, indicesLen: nat,
                    tabsize: nat)
    requires tabsize > 0 && Aligned(words, line, out, rows, width, indicesLen, tabsize) && 0 < n <= |words|
    requires Column(out, 0, tabsize) == |line| * width
    requires '\t' !in Cell(n, words[n - 1], IndexLen(|line|, rows, indicesLen))
    ensures var cell := Cell(n, words[n - 1], IndexLen(|line|, rows, indicesLen));
      && Aligned(words, line + [n], out + cell, rows, width, indicesLen, tabsize)
      && Column(out + cell, 0, tabsize) == |line| * width + |cell|
  {
    hide Starts, Cell;
    var cell := Cell(n, words[n - 1], IndexLen(|line|, rows, indicesLen));
    StartsHere(out, cell, tabsize);
    forall k | 0 <= k < |line| + 1
      ensures Starts(out + cell, Cell((line + [n])[k], words[(line + [n])[k] - 1], IndexLen(k, rows, indicesLen)),
                     k * width, tabsize)
    {
      if k < |line| {
        StartsStill(out, cell, Cell(line[k], words[line[k] - 1], IndexLen(k, rows, indicesLen)), k * width, tabsize);
      }
    }
  }

  lemma AlignedStill(words: seq<string>, line: seq<nat>, out: string, more: string, rows: nat, width: nat,
                     indicesLen: nat, tabsize: nat)
    requires tabsize > 0 && Aligned(words, line, out, rows, width, indicesLen, tabsize)
    ensures Aligned(words, line, out + more, rows, width, indicesLen, tabsize)
  {
    hide Starts, Cell;
    forall k | 0 <= k < |line|
      ensures Starts(out + more, Cell(line[k], words[line[k] - 1], IndexLen(k, rows, indicesLen)), k * width, tabsize)
    {
      StartsStill(out, more, Cell(line[k], words[line[k] - 1], IndexLen(k, rows, indicesLen)), k * width, tabsize);
    }
  }

  /** The menu, as the numbers in each row and the text printed. When every item fits into `width` columns, the
      k-th item of each row starts in column k * width. */
  method PrintSelectList(words: seq<string>, columns: nat, width: nat, indicesLen: nat, tabsize: nat)
    returns (menu: seq<seq<nat>>, text: seq<string>)
    requires words != [] && tabsize > 0
    ensures |text| == |menu| == Rows(|words|, columns, width) && Laid(menu, |words|)
    ensures forall row :: 0 <= row < |menu| ==> |menu[row]| <= Fits(columns, width)
    ensures Roomy(words, width, indicesLen) ==> forall row :: 0 <= row < |menu| ==>
      Aligned(words, menu[row], text[row], |menu|, width, indicesLen, tabsize)
  {
    var len := |words|;
    var cols := Fits(columns, width);
    var rows := len / cols + if len % cols != 0 then 1 else 0;
    RowsBound(len, cols);
    assert rows == CeilDiv(len, cols);
    cols := len / rows + if len % rows != 0 then 1 else 0;
    assert cols == CeilDiv(len, rows);
    if rows == 1 {
      rows := cols;
      cols := 1;
    }
    hide CeilDiv, Fits, Aligned, Roomy;
    menu, text := [], [];
    for row := 0 to rows
      invariant |menu| == |text| == row
      invariant forall r :: 0 <= r < row ==> Fills(menu[r], r, rows, len)
      invariant Roomy(words, width, indicesLen) ==> forall r :: 0 <= r < row ==>
        Aligned(words, menu[r], text[r], rows, width, indicesLen, tabsize)
    {
      var line, out := PrintRow(words, row, rows, width, indicesLen, tabsize);
      menu, text := menu + [line], text + [out];
    }
    assert forall row :: 0 <= row < |menu| ==> Fills(menu[row], row, |menu|, len);
    forall row | 0 <= row < |menu| ensures |menu[row]| <= Fits(columns, width) {
      NoRowTooWide(menu, len, columns, width, row);
    }
  }

  ghost predicate Fills(line: seq<nat>, row: nat, rows: nat, len: nat) {
    && line != [] && row + |line| * rows >= len
    && forall k :: 0 <= k < |line| ==> line[k] == row + k * rows + 1 <= len
  }

  method PrintRow(words: seq<string>, row: nat, rows: nat, width: nat, indicesLen: nat, tabsize: nat)
    returns (line: seq<nat>, out: string)
    requires row < rows <= |words| && tabsize > 0
    ensures Fills(line, row, rows, |words|)
    ensures Roomy(words, width, indicesLen) ==> Aligned(words, line, out, rows, width, indicesLen, tabsize)
  {
    hide Cell, NumberLen, Aligned, Roomy, IndexLen, Column;
    line, out := [], "";
    var ind, pos := row, 0;
    EmptyRow(words, rows, width, indicesLen, tabsize);
    while true
      invariant ind == row + |line| * rows < |words| && pos == |line| * width
      invariant forall k :: 0 <= k < |line| ==> line[k] == row + k * rows + 1 <= |words|
      invariant Roomy(words, width, indicesLen) ==> Ready(words, line, out, rows, width, indicesLen, tabsize, pos)
      decreases |words| - ind
    {
      var len := if pos == 0 then NumberLen(rows) else indicesLen;
      var cell := Cell(ind + 1, words[ind], len);
      var elemLen := |words[ind]| + len + 2;
      if Roomy(words, width, indicesLen) {
        CellReady(words, line, out, row, rows, width, indicesLen, tabsize, ind, pos);
      }
      out := out + cell;
      line := line + [ind + 1];
      NextInRow(row, rows, |line|);
      ind := ind + rows;
      if ind >= |words| {
        break;
      }
      var padding := Indent(pos + elemLen, pos + width, tabsize);
      if Roomy(words, width, indicesLen) {
        PaddingReady(words, line, out, padding, rows, width, indicesLen, tabsize, pos + elemLen);
      }
      out := out + padding;
      NextInRow(0, width, |line|);
      pos := pos + width;
    }
  }

  /** The row so far, with the cursor in column `at`. */
  ghost predicate Ready(words: seq<string>, line: seq<nat>, out: string, rows: nat, width: nat, indicesLen: nat,
                        tabsize: nat, at: nat)
    requires tabsize > 0
  {
    Column(out, 0, tabsize) == at && Aligned(words, line, out, rows, width, indicesLen, tabsize)
  }

  lemma NextInRow(row: nat, rows: nat, k: nat)
    requires k > 0
    ensures row + k * rows == row + (k - 1) * rows + rows
  {
  }

  lemma CellReady(words: seq<string>, line: seq<nat>, out: string, row: nat, rows: nat, width: nat, indicesLen: nat,
                  tabsize: nat, ind: nat, pos: nat)
    requires tabsize > 0 && row < rows <= |words| && ind == row + |line| * rows < |words| && pos == |line| * width
    requires Roomy(words, width, indicesLen) && Ready(words, line, out, rows, width, indicesLen, tabsize, pos)
    ensures var len := if pos == 0 then NumberLen(rows) else indicesLen;
      && |words[ind]| + len + 2 <= width
      && Ready(words, line + [ind + 1], out + Cell(ind + 1, words[ind], len), rows, width, indicesLen, tabsize,
               pos + (|words[ind]| + len + 2))
  {
    hide Cell, NumberLen, Aligned, Roomy, IndexLen;
    LengthHere(words, width, indicesLen, |line|, rows, pos);
    CellFits(words, ind, |line|, row, rows, width, indicesLen);
    AlignedWith(words, line, out, ind + 1, rows, width, indicesLen, tabsize);
  }

  lemma PaddingReady(words: seq<string>, line: seq<nat>, out: string, padding: string, rows: nat, width: nat,
                     indicesLen: nat, tabsize: nat, at: nat)
    requires tabsize > 0 && Ready(words, line, out, rows, width, indicesLen, tabsize, at)
    ensures Ready(words, line, out + padding, rows, width, indicesLen, tabsize, Column(padding, at, tabsize))
    ensures Aligned(words, line, out, rows, width, indicesLen, tabsize)
  {
    hide Aligned;
    ColumnConcat(out, padding, 0, tabsize);
    AlignedStill(words, line, out, padding, rows, width, indicesLen, tabsize);
  }

  lemma EmptyRow(words: seq<string>, rows: nat, width: nat, indicesLen: nat, tabsize: nat)
    requires tabsize > 0
    ensures Ready(words, [], "", rows, width, indicesLen, tabsize, 0)
  {
  }

  lemma LengthHere(words: seq<string>, width: nat, indicesLen: nat, k: nat, rows: nat, pos: nat)
    requires Roomy(words, width, indicesLen) && words != [] && pos == k * width
    ensures (if pos == 0 then NumberLen(rows) else indicesLen) == IndexLen(k, rows, indicesLen)
  {
    assert |words[0]| + indicesLen + 2 <= width;
    if k > 0 {
      Times(1, k, width);
    }
  }

  /** The width the caller computes: every item then fits, and two columns are left over. */
  method ElementWidth(words: seq<string>) returns (width: nat, indicesLen: nat)
    ensures forall i :: 0 <= i < |words| ==> |words[i]| + indicesLen + 4 <= width
    ensures |words| < 1000000 && (forall i :: 0 <= i < |words| ==> '\t' !in words[i]) ==>
      Roomy(words, width, indicesLen)
  {
    width := 0;
    for i := 0 to |words|
      invariant forall j :: 0 <= j < i ==> |words[j]| <= width
    {
      if |words[i]| > width {
        width := |words[i]|;
      }
    }
    indicesLen := NumberLen(|words|);
    width := width + indicesLen + 4;
  }
}
