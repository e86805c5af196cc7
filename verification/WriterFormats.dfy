/**
 * The text the board writers produce. Every writer walks the board row by row and cell by cell;
 * the formats differ only in what surrounds a row and what each cell prints, so the text of a
 * format is described piecewise: a head, then for every row its heading, its cells and its tail,
 * then a foot.
 */
module WriterFormats {
  import opened Wrappers
  import opened SudokuTraits
  import Digit
  import SudokuUtil
  import AsciiReader

  datatype Format =
    | Line          // src/LineWriter.cpp
    | Block         // src/BlockWriter.cpp
    | Pretty        // src/PrettyWriter.cpp
    | Json          // src/JsonWriter.cpp
    | LegacyLine    // src/SudokuLineWriter.cpp
    | LegacyBlock   // src/SudokuBlockWriter.cpp
    | LegacyPretty  // src/SudokuPrettyWriter.cpp

  /** The rules the pretty writers print between bands of boxes. */
  const PRETTY_RULE: string := "------+-------+------"
  const LEGACY_PRETTY_RULE: string := "-------+--------+------"

  /** Is column (or row) i the first of a box other than the first one? */
  predicate BoxStart(i: int)
  {
    i > 0 && i % BOX_SIZE == 0
  }

  /** The character a cell value is printed as. */
  function CellChar(fmt: Format, v: int): char
  {
    match fmt
    case LegacyLine | LegacyBlock => SudokuUtil.ValueToChar(BOARD_SIZE, v)
    case LegacyPretty =>
      var ch := SudokuUtil.ValueToChar(BOARD_SIZE, v);
      if ch == '0' then '.' else ch
    case Pretty =>
      var d := Digit.ValueToDigit(BOARD_SIZE, v);
      if d == '0' then '.' else d
    case _ => Digit.ValueToDigit(BOARD_SIZE, v)
  }

  /** What the writer emits before the cell in column c. */
  function CellSep(fmt: Format, c: int): string
  {
    match fmt
    case Line | LegacyLine | Json => ""
    case Block => if BoxStart(c) then " " else ""
    case LegacyBlock => if BoxStart(c) then "  " else ""
    case Pretty => if BoxStart(c) then "| " else ""
    case LegacyPretty => if BoxStart(c) then " | " else ""
  }

  /** What the writer emits after the cell in column c. */
  function CellEnd(fmt: Format, c: int): string
  {
    if fmt == Json && c < BOARD_SIZE - 1 then ", " else " "
  }

  /** What the writer emits for value v in column c. */
  function CellPiece(fmt: Format, v: int, c: int): string
  {
    CellSep(fmt, c) + [CellChar(fmt, v)] + CellEnd(fmt, c)
  }

  /** What the writer emits before the cells of row r. */
  function RowHead(fmt: Format, r: int): string
  {
    match fmt
    case Line | LegacyLine => ""
    case Block | LegacyBlock => if BoxStart(r) then "\n" else ""
    case Pretty => if BoxStart(r) then PRETTY_RULE + "\n" else ""
    case LegacyPretty => if BoxStart(r) then LEGACY_PRETTY_RULE + "\n" else ""
    case Json => "  [ "
  }

  /** What the writer emits after the cells of row r. */
  function RowTail(fmt: Format, r: int): string
  {
    match fmt
    case Line | LegacyLine => ""
    case Json => "]" + (if r < BOARD_SIZE - 1 then "," else "") + "\n"
    case _ => "\n"
  }

  function Head(fmt: Format): string
  {
    if fmt == Json then "[" + "\n" else ""
  }

  function Foot(fmt: Format): string
  {
    if fmt == Json then "]" + "\n" else ""
  }

  /** The strings of ps one after the other. */
  function Concat(ps: seq<string>): string
  {
    if ps == [] then "" else Concat(ps[..|ps| - 1]) + ps[|ps| - 1]
  }

  /** What the writer emits for each cell of row r. */
  function CellPieces(fmt: Format, g: Grid, r: int): (ps: seq<string>)
    requires IsBoard(g) && 0 <= r < BOARD_SIZE
    ensures |ps| == BOARD_SIZE
  {
    seq(BOARD_SIZE, c requires 0 <= c < BOARD_SIZE => CellPiece(fmt, g[r][c], c))
  }

  /** The text of row r: its heading, its cells and its tail. */
  function RowText(fmt: Format, g: Grid, r: int): string
    requires IsBoard(g) && 0 <= r < BOARD_SIZE
  {
    RowHead(fmt, r) + Concat(CellPieces(fmt, g, r)) + RowTail(fmt, r)
  }

  function RowTexts(fmt: Format, g: Grid): (ps: seq<string>)
    requires IsBoard(g)
    ensures |ps| == BOARD_SIZE
  {
    seq(BOARD_SIZE, r requires 0 <= r < BOARD_SIZE => RowText(fmt, g, r))
  }

  /** The whole text written for board g. */
  function Text(fmt: Format, g: Grid): string
    requires IsBoard(g)
  {
    Head(fmt) + Concat(RowTexts(fmt, g)) + Foot(fmt)
  }

  /** Concat of one more piece. */
  lemma ConcatSnoc(ps: seq<string>, k: nat)
    requires k < |ps|
    ensures Concat(ps[..k + 1]) == Concat(ps[..k]) + ps[k]
  {
    assert ps[..k + 1][..k] == ps[..k];
  }

  lemma Regroup(a: string, b: string, c: string, d: string)
    ensures a + (b + c + d) == a + b + c + d
  {
  }

  lemma Assoc(a: string, b: string, c: string)
    ensures a + b + c == a + (b + c)
  {
  }

  lemma AppendNothing(a: string)
    ensures a + "" == a
  {
  }

  /** Appending the next piece to a prefix of the concatenation. */
  lemma SnocStep(ps: seq<string>, k: nat, start: string, out: string)
    requires k < |ps| && out == start + Concat(ps[..k])
    ensures out + ps[k] == start + Concat(ps[..k + 1])
  {
    ConcatSnoc(ps, k);
  }

  /** Writing cell c of row r extends the row by its piece. */
  lemma CellStep(fmt: Format, g: Grid, r: int, c: nat, start: string, out: string)
    requires IsBoard(g) && 0 <= r < BOARD_SIZE && c < BOARD_SIZE
    requires out == start + Concat(CellPieces(fmt, g, r)[..c])
    ensures out + CellSep(fmt, c) + [CellChar(fmt, g[r][c])] + CellEnd(fmt, c)
         == start + Concat(CellPieces(fmt, g, r)[..c + 1])
  {
    SnocStep(CellPieces(fmt, g, r), c, start, out);
    Regroup(out, CellSep(fmt, c), [CellChar(fmt, g[r][c])], CellEnd(fmt, c));
  }

  /** Finishing row r extends the text by the row's heading, cells and tail. */
  lemma RowStep(fmt: Format, g: Grid, r: nat, start: string, out: string)
    requires IsBoard(g) && r < BOARD_SIZE
    requires out == start + Concat(RowTexts(fmt, g)[..r]) + RowHead(fmt, r) + Concat(CellPieces(fmt, g, r)[..BOARD_SIZE])
    ensures out + RowTail(fmt, r) == start + Concat(RowTexts(fmt, g)[..r + 1])
  {
    var before := start + Concat(RowTexts(fmt, g)[..r]);
    var cells := CellPieces(fmt, g, r);
    assert cells[..BOARD_SIZE] == cells;
    SnocStep(RowTexts(fmt, g), r, start, before);
    Regroup(before, RowHead(fmt, r), Concat(cells), RowTail(fmt, r));
  }

  /** The finished rows, with head and foot, are the text. */
  lemma TextDone(fmt: Format, g: Grid, start: string, out: string)
    requires IsBoard(g)
    requires out == start + Head(fmt) + Concat(RowTexts(fmt, g)[..BOARD_SIZE])
    ensures out + Foot(fmt) == start + Text(fmt, g)
  {
    var rows := RowTexts(fmt, g);
    assert rows[..BOARD_SIZE] == rows;
    Regroup(start, Head(fmt), Concat(rows), Foot(fmt));
  }

  // ---------------------------------------------------------------------------------------------
  // Reading the text back

  predicate NoValueChars(s: string)
  {
    forall i :: 0 <= i < |s| ==> AsciiReader.CharValue(s[i]) == -1
  }

  /** Text made only of separators contributes no value to the reader. */
  lemma {:induction false} NoValues(s: string)
    requires NoValueChars(s)
    ensures AsciiReader.Values(s) == []
    decreases |s|
  {
    if s != [] {
      NoValues(s[..|s| - 1]);
    }
  }

  lemma Separators()
    ensures NoValueChars(" ") && NoValueChars("  ") && NoValueChars("| ") && NoValueChars(" | ")
    ensures NoValueChars(", ") && NoValueChars("\n") && NoValueChars("  [ ") && NoValueChars("]")
    ensures NoValueChars(",") && NoValueChars("[") && NoValueChars("")
    ensures NoValueChars(PRETTY_RULE) && NoValueChars(LEGACY_PRETTY_RULE)
  {
  }

  /** Every piece of framing text is invisible to the reader. */
  lemma NoValueCharsAppend(a: string, b: string)
    requires NoValueChars(a) && NoValueChars(b)
    ensures NoValueChars(a + b)
  {
  }

  lemma FramingHasNoValues(fmt: Format, r: int)
    ensures AsciiReader.Values(RowHead(fmt, r)) == []
    ensures AsciiReader.Values(RowTail(fmt, r)) == []
    ensures AsciiReader.Values(Head(fmt)) == [] && AsciiReader.Values(Foot(fmt)) == []
  {
    Separators();
    NoValueCharsAppend(PRETTY_RULE, "\n");
    NoValueCharsAppend(LEGACY_PRETTY_RULE, "\n");
    NoValueCharsAppend("[", "\n");
    NoValueCharsAppend("]", "\n");
    NoValueCharsAppend("]", ",");
    NoValueCharsAppend("]" + ",", "\n");
    NoValueCharsAppend("]" + "", "\n");
    NoValues(RowHead(fmt, r));
    NoValues(Head(fmt));
    NoValues(Foot(fmt));
    NoValues(RowTail(fmt, r));
  }

  /** A printed cell character reads back as the cell's value. */
  lemma CellCharReadsBack(fmt: Format, v: int)
    requires 0 <= v <= MAX_VALUE
    ensures AsciiReader.CharValue(CellChar(fmt, v)) == v
  {
    Digit.DigitRoundTrip(BOARD_SIZE, v);
    SudokuUtil.ValueToCharAgrees(BOARD_SIZE, v);
  }

  /** Each cell piece reads back as exactly the cell's value. */
  lemma CellPieceReadsBack(fmt: Format, v: int, c: int)
    requires 0 <= v <= MAX_VALUE
    ensures AsciiReader.Values(CellPiece(fmt, v, c)) == [v]
  {
    var ch := CellChar(fmt, v);
    CellCharReadsBack(fmt, v);
    assert AsciiReader.Values([ch]) == [v] by {
      assert [ch][..0] == [];
    }
    Separators();
    NoValues(CellSep(fmt, c));
    NoValues(CellEnd(fmt, c));
    FramedReadsBack(CellSep(fmt, c), [ch], CellEnd(fmt, c), [v]);
  }

  /** Pieces that each read back as one value read back, together, as those values in order. */
  lemma {:induction false} ConcatReadsValues(ps: seq<string>, vs: seq<int>)
    requires |ps| == |vs|
    requires forall i :: 0 <= i < |ps| ==> AsciiReader.Values(ps[i]) == [vs[i]]
    ensures AsciiReader.Values(Concat(ps)) == vs
    decreases |ps|
  {
    if ps == [] {
      assert Concat(ps) == [];
    } else {
      var n := |ps| - 1;
      var init, rest := ps[..n], vs[..n];
      assert forall i :: 0 <= i < n ==> init[i] == ps[i] && rest[i] == vs[i];
      ConcatReadsValues(init, rest);
      assert Concat(ps) == Concat(init) + ps[n];
      AsciiReader.ValuesAppend(Concat(init), ps[n]);
      InitAndLast(vs);
    }
  }

  lemma InitAndLast(vs: seq<int>)
    requires vs != []
    ensures vs[..|vs| - 1] + [vs[|vs| - 1]] == vs
  {
  }

  /** Rows that each read back as the row of a board read back, together, as the flattened board. */
  lemma {:induction false} ConcatReadsRows(ps: seq<string>, g: Grid, k: nat)
    requires IsBoard(g) && |ps| == BOARD_SIZE && k <= BOARD_SIZE
    requires forall r :: 0 <= r < BOARD_SIZE ==> AsciiReader.Values(ps[r]) == g[r]
    ensures AsciiReader.Values(Concat(ps[..k])) == Flatten(g)[..k * BOARD_SIZE]
    decreases k
  {
    if k > 0 {
      ConcatReadsRows(ps, g, k - 1);
      ConcatSnoc(ps, k - 1);
      AsciiReader.ValuesAppend(Concat(ps[..k - 1]), ps[k - 1]);
      FlattenRows(g, k - 1);
    }
  }

  /** Each row of the text reads back as the row of the board. */
  lemma RowReadsBack(fmt: Format, g: Grid, r: int)
    requires IsBoard(g) && CellsInRange(g) && 0 <= r < BOARD_SIZE
    ensures AsciiReader.Values(RowText(fmt, g, r)) == g[r]
  {
    var ps := CellPieces(fmt, g, r);
    forall c | 0 <= c < BOARD_SIZE
      ensures AsciiReader.Values(ps[c]) == [g[r][c]]
    {
      CellPieceReadsBack(fmt, g[r][c], c);
    }
    ConcatReadsValues(ps, g[r]);
    FramingHasNoValues(fmt, r);
    FramedReadsBack(RowHead(fmt, r), Concat(ps), RowTail(fmt, r), g[r]);
  }

  /** Framing around a text that reads back as vs still reads back as vs. */
  lemma FramedReadsBack(head: string, body: string, foot: string, vs: seq<int>)
    requires AsciiReader.Values(head) == [] && AsciiReader.Values(foot) == []
    requires AsciiReader.Values(body) == vs
    ensures AsciiReader.Values(head + body + foot) == vs
  {
    AsciiReader.ValuesAppend(head, body);
    AsciiReader.ValuesAppend(head + body, foot);
  }

  /** The rows of the text read back as the flattened board. */
  lemma RowsReadBack(fmt: Format, g: Grid)
    requires IsBoard(g) && CellsInRange(g)
    ensures AsciiReader.Values(Concat(RowTexts(fmt, g))) == Flatten(g)
  {
    var ps := RowTexts(fmt, g);
    forall r | 0 <= r < BOARD_SIZE
      ensures AsciiReader.Values(ps[r]) == g[r]
    {
      RowReadsBack(fmt, g, r);
    }
    ConcatReadsRows(ps, g, BOARD_SIZE);
    assert ps[..BOARD_SIZE] == ps;
  }

  /** Every format, read back by the character reader, gives the values of the board in row-major order. */
  lemma TextReadsBack(fmt: Format, g: Grid)
    requires IsBoard(g) && CellsInRange(g)
    ensures AsciiReader.Values(Text(fmt, g)) == Flatten(g)
  {
    RowsReadBack(fmt, g);
    FramingHasNoValues(fmt, 0);
    FramedReadsBack(Head(fmt), Concat(RowTexts(fmt, g)), Foot(fmt), Flatten(g));
  }

  /** Reading what any writer wrote restores the board (for boards of values 0 .. 9). */
  lemma WriteThenRead(fmt: Format, g: Grid)
    requires IsBoard(g) && CellsInRange(g)
    ensures AsciiReader.ReadSpec(Text(fmt, g)) == Ok(g)
  {
    TextReadsBack(fmt, g);
    assert Flatten(g)[..BOARD_SIZE * BOARD_SIZE] == Flatten(g);
    UnflattenFlatten(g);
  }

  // ---------------------------------------------------------------------------------------------
  // The line format

  /** The earlier line writer prints exactly what the line writer prints. */
  lemma LegacyLineIsLine(g: Grid)
    requires IsBoard(g)
    ensures Text(LegacyLine, g) == Text(Line, g)
  {
    forall r | 0 <= r < BOARD_SIZE
      ensures CellPieces(LegacyLine, g, r) == CellPieces(Line, g, r)
    {
      forall c | 0 <= c < BOARD_SIZE
        ensures CellPiece(LegacyLine, g[r][c], c) == CellPiece(Line, g[r][c], c)
      {
        SudokuUtil.ValueToCharAgrees(BOARD_SIZE, g[r][c]);
      }
    }
    assert RowTexts(LegacyLine, g) == RowTexts(Line, g);
  }

  /** Pieces of equal length n, none of them a newline, concatenate to n * |ps| characters without a newline. */
  lemma {:induction false} ConcatUniform(ps: seq<string>, n: nat)
    requires forall i :: 0 <= i < |ps| ==> |ps[i]| == n && '\n' !in ps[i]
    ensures |Concat(ps)| == n * |ps| && '\n' !in Concat(ps)
    decreases |ps|
  {
    if ps != [] {
      var init, last := ps[..|ps| - 1], ps[|ps| - 1];
      assert forall i :: 0 <= i < |init| ==> init[i] == ps[i];
      ConcatUniform(init, n);
      assert Concat(ps) == Concat(init) + last;
      assert n * |ps| == n * |init| + n;
      assert '\n' !in last;
    }
  }

  /** The line format is a single line of 162 characters: every cell's character and a space. */
  lemma LineIsOneLine(g: Grid)
    requires IsBoard(g)
    ensures |Text(Line, g)| == 2 * BOARD_SIZE * BOARD_SIZE
    ensures '\n' !in Text(Line, g)
  {
    forall r | 0 <= r < BOARD_SIZE
      ensures |RowTexts(Line, g)[r]| == 2 * BOARD_SIZE && '\n' !in RowTexts(Line, g)[r]
    {
      var cells := CellPieces(Line, g, r);
      forall c | 0 <= c < BOARD_SIZE
        ensures |cells[c]| == 2 && '\n' !in cells[c]
      {
        var d := Digit.ValueToDigit(BOARD_SIZE, g[r][c]);
        assert cells[c] == [d, ' '];
      }
      ConcatUniform(cells, 2);
    }
    ConcatUniform(RowTexts(Line, g), 2 * BOARD_SIZE);
  }
}
