/**
 * The shape of the writers' texts: how many lines each format takes, how many digits the formats
 * that print empty cells as '0' hold, and how the JSON text is framed as an array of nine row
 * arrays.
 */
module WriterShape {
  import opened SudokuTraits
  import opened WriterFormats
  import Digit
  import SudokuUtil

  /** The number of characters of s that p accepts. */
  function Count(s: string, p: char -> bool): nat
    decreases |s|
  {
    if s == [] then 0 else Count(s[..|s| - 1], p) + (if p(s[|s| - 1]) then 1 else 0)
  }

  predicate IsNewline(c: char)
  {
    c == '\n'
  }

  predicate IsDigit(c: char)
  {
    '0' <= c <= '9'
  }

  lemma {:induction false} CountAppend(a: string, b: string, p: char -> bool)
    ensures Count(a + b, p) == Count(a, p) + Count(b, p)
    decreases |b|
  {
    if b == [] {
      assert a + b == a;
    } else {
      var b' := b[..|b| - 1];
      assert (a + b)[..|a + b| - 1] == a + b';
      assert (a + b)[|a + b| - 1] == b[|b| - 1];
      CountAppend(a, b', p);
    }
  }

  /** A text none of whose characters p accepts counts nothing. */
  lemma {:induction false} CountNone(s: string, p: char -> bool)
    requires forall i :: 0 <= i < |s| ==> !p(s[i])
    ensures Count(s, p) == 0
    decreases |s|
  {
    if s != [] {
      var init := s[..|s| - 1];
      assert forall i :: 0 <= i < |init| ==> init[i] == s[i];
      CountNone(init, p);
    }
  }

  /** Pieces that each count n count n per piece together. */
  lemma {:induction false} CountConcatUniform(ps: seq<string>, p: char -> bool, n: nat)
    requires forall i :: 0 <= i < |ps| ==> Count(ps[i], p) == n
    ensures Count(Concat(ps), p) == n * |ps|
    decreases |ps|
  {
    if ps != [] {
      var init := ps[..|ps| - 1];
      assert forall i :: 0 <= i < |init| ==> init[i] == ps[i];
      CountConcatUniform(init, p, n);
      var last := ps[|ps| - 1];
      assert Concat(ps) == Concat(init) + last;
      CountAppend(Concat(init), last, p);
      MulSucc(n, |init|);
    }
  }

  lemma MulSucc(n: nat, m: nat)
    ensures n * (m + 1) == n * m + n
  {
  }

  /** The count of one more piece. */
  lemma CountConcatStep(ps: seq<string>, p: char -> bool, k: nat)
    requires k < |ps|
    ensures Count(Concat(ps[..k + 1]), p) == Count(Concat(ps[..k]), p) + Count(ps[k], p)
  {
    ConcatSnoc(ps, k);
    CountAppend(Concat(ps[..k]), ps[k], p);
  }

  /** No writer prints a newline inside a row of cells: a cell is a digit, a letter, '.' or '?' among spaces, '|' and ','. */
  lemma CellHasNoNewline(fmt: Format, v: int, c: int)
    ensures Count(CellPiece(fmt, v, c), IsNewline) == 0
  {
    var s := CellPiece(fmt, v, c);
    assert forall i :: 0 <= i < |s| ==> !IsNewline(s[i]);
    CountNone(s, IsNewline);
  }

  /** The newlines a format writes around the cells of row r. */
  function RowLines(fmt: Format, r: int): nat
  {
    match fmt
    case Line | LegacyLine => 0
    case Json => 1
    case _ => if BoxStart(r) then 2 else 1
  }

  lemma RowHasLines(fmt: Format, g: Grid, r: int)
    requires IsBoard(g) && 0 <= r < BOARD_SIZE
    ensures Count(RowText(fmt, g, r), IsNewline) == RowLines(fmt, r)
  {
    var cells := CellPieces(fmt, g, r);
    forall c | 0 <= c < |cells|
      ensures Count(cells[c], IsNewline) == 0
    {
      CellHasNoNewline(fmt, g[r][c], c);
    }
    CountConcatUniform(cells, IsNewline, 0);
    CountAppend(RowHead(fmt, r), Concat(cells), IsNewline);
    CountAppend(RowHead(fmt, r) + Concat(cells), RowTail(fmt, r), IsNewline);
    FramingLines(fmt, r);
  }

  /** The newlines of a row's heading and tail. */
  lemma FramingLines(fmt: Format, r: int)
    ensures Count(RowHead(fmt, r), IsNewline) + Count(RowTail(fmt, r), IsNewline) == RowLines(fmt, r)
  {
    var head, tail := RowHead(fmt, r), RowTail(fmt, r);
    match fmt
    case Pretty =>
      if BoxStart(r) {
        CountAppend(PRETTY_RULE, "\n", IsNewline);
        CountNone(PRETTY_RULE, IsNewline);
      }
    case LegacyPretty =>
      if BoxStart(r) {
        CountAppend(LEGACY_PRETTY_RULE, "\n", IsNewline);
        CountNone(LEGACY_PRETTY_RULE, IsNewline);
      }
    case Json =>
      CountNone(head, IsNewline);
      var mark := "]" + (if r < BOARD_SIZE - 1 then "," else "");
      CountNone(mark, IsNewline);
      CountAppend(mark, "\n", IsNewline);
    case _ =>
  }

  /** The newlines of rows 0 .. k - 1. */
  function LinesBefore(fmt: Format, k: nat): nat
  {
    if k == 0 then 0 else LinesBefore(fmt, k - 1) + RowLines(fmt, k - 1)
  }

  /** Rows 0 .. k - 1 of any list of rows with RowLines newlines each hold LinesBefore newlines in all. */
  lemma {:induction false} LinesOfRows(fmt: Format, rows: seq<string>, k: nat)
    requires k <= |rows| && forall i :: 0 <= i < k ==> Count(rows[i], IsNewline) == RowLines(fmt, i)
    ensures Count(Concat(rows[..k]), IsNewline) == LinesBefore(fmt, k)
  {
    if k == 0 {
      assert rows[..0] == [];
    } else {
      LinesOfRows(fmt, rows, k - 1);
      CountConcatStep(rows, IsNewline, k - 1);
    }
  }

  lemma RowsLines(fmt: Format, g: Grid, k: nat)
    requires IsBoard(g) && k <= BOARD_SIZE
    ensures Count(Concat(RowTexts(fmt, g)[..k]), IsNewline) == LinesBefore(fmt, k)
  {
    var rows := RowTexts(fmt, g);
    forall i | 0 <= i < k ensures Count(rows[i], IsNewline) == RowLines(fmt, i) {
      RowHasLines(fmt, g, i);
    }
    LinesOfRows(fmt, rows, k);
  }

  /** Every row of a block layout has a line, and rows 3 and 6 one more for the rule or blank line before them. */
  lemma BlockRowsLines(fmt: Format)
    requires fmt != Line && fmt != LegacyLine && fmt != Json
    ensures LinesBefore(fmt, BOARD_SIZE) == 11
  {
    assert RowLines(fmt, 0) == 1 && RowLines(fmt, 3) == 2 && RowLines(fmt, 6) == 2;
    assert LinesBefore(fmt, 3) == 3;
    assert LinesBefore(fmt, 6) == 7;
  }

  /** Nine rows: one line each, two before rows 3 and 6 in the block layouts, none on one line. */
  lemma NineRowsLines(fmt: Format)
    ensures LinesBefore(fmt, BOARD_SIZE) == if fmt == Line || fmt == LegacyLine then 0 else if fmt == Json then 9 else 11
  {
    if fmt != Line && fmt != LegacyLine && fmt != Json {
      BlockRowsLines(fmt);
    }
  }

  /** Only JSON frames the rows, with a line for each bracket. */
  lemma HeadFootLines(fmt: Format)
    ensures Count(Head(fmt), IsNewline) + Count(Foot(fmt), IsNewline) == if fmt == Json then 2 else 0
  {
    if fmt == Json {
      CountAppend("[", "\n", IsNewline);
      CountAppend("]", "\n", IsNewline);
    }
  }

  /** All nine rows together. */
  lemma BodyLines(fmt: Format, g: Grid)
    requires IsBoard(g)
    ensures Count(Concat(RowTexts(fmt, g)), IsNewline) == LinesBefore(fmt, BOARD_SIZE)
  {
    var rows := RowTexts(fmt, g);
    RowsLines(fmt, g, BOARD_SIZE);
    assert rows[..BOARD_SIZE] == rows;
  }

  lemma CountFramed(head: string, body: string, foot: string, p: char -> bool)
    ensures Count(head + body + foot, p) == Count(head, p) + Count(body, p) + Count(foot, p)
  {
    CountAppend(head, body, p);
    CountAppend(head + body, foot, p);
  }

  /**
   * Every multi-line format writes 11 lines: one per row and one more before rows 3 and 6 (the
   * block and pretty layouts), or one for each bracket (JSON). The line formats write none.
   */
  lemma TextLines(fmt: Format, g: Grid)
    requires IsBoard(g)
    ensures Count(Text(fmt, g), IsNewline) == if fmt == Line || fmt == LegacyLine then 0 else 11
  {
    BodyLines(fmt, g);
    NineRowsLines(fmt);
    HeadFootLines(fmt);
    CountFramed(Head(fmt), Concat(RowTexts(fmt, g)), Foot(fmt), IsNewline);
  }

  /** The JSON text opens the outer array on a line of its own and closes it on the last line. */
  lemma JsonFramed(g: Grid)
    requires IsBoard(g)
    ensures var t := Text(Json, g); |t| >= 4 && t[..2] == "[\n" && t[|t| - 2..] == "]\n"
  {
    var body := Concat(RowTexts(Json, g));
    var t := Text(Json, g);
    assert t == "[\n" + body + "]\n";
  }

  /** Each JSON row is one inner array on its own line: indented, bracketed, comma-separated. */
  lemma JsonRow(g: Grid, r: int)
    requires IsBoard(g) && 0 <= r < BOARD_SIZE
    ensures var t := RowText(Json, g, r);
      t[..4] == "  [ " && t[|t| - 1] == '\n' && (r < BOARD_SIZE - 1 <==> t[|t| - 3..] == "],\n")
  {
    var t := RowText(Json, g, r);
    var cells := Concat(CellPieces(Json, g, r));
    assert t == "  [ " + cells + RowTail(Json, r);
    if r == BOARD_SIZE - 1 {
      assert t[|t| - 2..] == "]\n";
      assert t[|t| - 3..][1] == ']';
    }
  }

  /** The formats that print an empty cell as the digit '0' rather than as '.'. */
  predicate ZeroAsDigit(fmt: Format)
  {
    fmt != Pretty && fmt != LegacyPretty
  }

  /** A cell of value 0 .. 9 is one digit among separators. */
  lemma CellHasOneDigit(fmt: Format, v: int, c: int)
    requires ZeroAsDigit(fmt) && 0 <= v <= MAX_VALUE
    ensures Count(CellPiece(fmt, v, c), IsDigit) == 1
  {
    var sep, ch, end := CellSep(fmt, c), CellChar(fmt, v), CellEnd(fmt, c);
    Digit.ValueToDigitCases(BOARD_SIZE, v);
    SudokuUtil.ValueToCharAgrees(BOARD_SIZE, v);
    assert IsDigit(ch);
    assert Count([ch], IsDigit) == 1 by {
      assert [ch][..0] == [];
    }
    CountNone(sep, IsDigit);
    CountNone(end, IsDigit);
    CountFramed(sep, [ch], end, IsDigit);
  }

  /** A row's heading and tail hold no digit. */
  lemma FramingDigits(fmt: Format, r: int)
    requires ZeroAsDigit(fmt)
    ensures Count(RowHead(fmt, r), IsDigit) == 0 && Count(RowTail(fmt, r), IsDigit) == 0
  {
    var head, tail := RowHead(fmt, r), RowTail(fmt, r);
    CountNone(head, IsDigit);
    CountNone(tail, IsDigit);
  }

  /** A row holds the nine digits of its cells. */
  lemma RowHasDigits(fmt: Format, g: Grid, r: int)
    requires IsBoard(g) && CellsInRange(g) && ZeroAsDigit(fmt) && 0 <= r < BOARD_SIZE
    ensures Count(RowText(fmt, g, r), IsDigit) == BOARD_SIZE
  {
    var cells := CellPieces(fmt, g, r);
    forall c | 0 <= c < |cells|
      ensures Count(cells[c], IsDigit) == 1
    {
      CellHasOneDigit(fmt, g[r][c], c);
    }
    CountConcatUniform(cells, IsDigit, 1);
    FramingDigits(fmt, r);
    CountFramed(RowHead(fmt, r), Concat(cells), RowTail(fmt, r), IsDigit);
  }

  /** The nine rows hold 81 digits. */
  lemma BodyDigits(fmt: Format, g: Grid)
    requires IsBoard(g) && CellsInRange(g) && ZeroAsDigit(fmt)
    ensures Count(Concat(RowTexts(fmt, g)), IsDigit) == BOARD_SIZE * BOARD_SIZE
  {
    var rows := RowTexts(fmt, g);
    forall r | 0 <= r < |rows|
      ensures Count(rows[r], IsDigit) == BOARD_SIZE
    {
      RowHasDigits(fmt, g, r);
    }
    CountConcatUniform(rows, IsDigit, BOARD_SIZE);
  }

  /**
   * The formats that print empty cells as '0' hold exactly 81 digits, one per cell, for boards of
   * values 0 .. 9: no separator, bracket or line break is a digit.
   */
  lemma TextDigits(fmt: Format, g: Grid)
    requires IsBoard(g) && CellsInRange(g) && ZeroAsDigit(fmt)
    ensures Count(Text(fmt, g), IsDigit) == BOARD_SIZE * BOARD_SIZE
  {
    BodyDigits(fmt, g);
    CountNone(Head(fmt), IsDigit);
    CountNone(Foot(fmt), IsDigit);
    CountFramed(Head(fmt), Concat(RowTexts(fmt, g)), Foot(fmt), IsDigit);
  }
}
