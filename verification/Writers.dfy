/**
 * The board writers. Each writer holds the text written so far to its output stream (`out`) and
 * appends the text of a board on every write; the text of each format is WriterFormats.Text.
 * The ghost lemma calls in the loops only regroup string concatenations.
 */
module Writers {
  import opened SudokuTraits
  import opened WriterFormats
  import Digit
  import SudokuUtil

  /** src/LineWriter.cpp: all 81 cells on one line, each followed by a space. */
  class LineWriter {
    var out: string

    constructor()
      ensures out == ""
    {
      out := "";
    }

    method Write(board: Grid)
      requires IsBoard(board)
      modifies this
      ensures out == old(out) + Text(Line, board)
    {
      AppendNothing(out);
      for rowIdx := 0 to BOARD_SIZE
        invariant out == old(out) + Head(Line) + Concat(RowTexts(Line, board)[..rowIdx])
      {
        ghost var start := out + RowHead(Line, rowIdx);
        AppendNothing(out);
        for colIdx := 0 to BOARD_SIZE
          invariant out == start + Concat(CellPieces(Line, board, rowIdx)[..colIdx])
        {
          CellStep(Line, board, rowIdx, colIdx, start, out);
          AppendNothing(out);
          out := out + [Digit.ValueToDigit(BOARD_SIZE, board[rowIdx][colIdx])] + " ";
        }
        RowStep(Line, board, rowIdx, old(out) + Head(Line), out);
        AppendNothing(out);
      }
      TextDone(Line, board, old(out), out);
      AppendNothing(out);
    }
  }

  /** src/BlockWriter.cpp: nine lines of nine cells, an extra space between boxes, an empty line between bands. */
  class BlockWriter {
    var out: string

    constructor()
      ensures out == ""
    {
      out := "";
    }

    method Write(board: Grid)
      requires IsBoard(board)
      modifies this
      ensures out == old(out) + Text(Block, board)
    {
      AppendNothing(out);
      for rowIdx := 0 to BOARD_SIZE
        invariant out == old(out) + Head(Block) + Concat(RowTexts(Block, board)[..rowIdx])
      {
        ghost var start := out + RowHead(Block, rowIdx);
        if rowIdx > 0 && rowIdx % BOX_SIZE == 0 {
          out := out + "\n";  // extra newline between box rows
        } else {
          AppendNothing(out);
        }
        for colIdx := 0 to BOARD_SIZE
          invariant out == start + Concat(CellPieces(Block, board, rowIdx)[..colIdx])
        {
          CellStep(Block, board, rowIdx, colIdx, start, out);
          if colIdx > 0 && colIdx % BOX_SIZE == 0 {
            out := out + " ";  // extra spacing between box columns
          } else {
            AppendNothing(out);
          }
          out := out + [Digit.ValueToDigit(BOARD_SIZE, board[rowIdx][colIdx])] + " ";
        }
        RowStep(Block, board, rowIdx, old(out) + Head(Block), out);
        out := out + "\n";
      }
      TextDone(Block, board, old(out), out);
      AppendNothing(out);
    }
  }

  /** src/PrettyWriter.cpp: the block layout with '|' between boxes, a rule between bands and '.' for empty cells. */
  class PrettyWriter {
    var out: string

    constructor()
      ensures out == ""
    {
      out := "";
    }

    method Write(board: Grid)
      requires IsBoard(board)
      modifies this
      ensures out == old(out) + Text(Pretty, board)
    {
      AppendNothing(out);
      for rowIdx := 0 to BOARD_SIZE
        invariant out == old(out) + Head(Pretty) + Concat(RowTexts(Pretty, board)[..rowIdx])
      {
        ghost var start := out + RowHead(Pretty, rowIdx);
        if rowIdx > 0 && rowIdx % BOX_SIZE == 0 {
          Assoc(out, PRETTY_RULE, "\n");
          out := out + PRETTY_RULE + "\n";
        } else {
          AppendNothing(out);
        }
        for colIdx := 0 to BOARD_SIZE
          invariant out == start + Concat(CellPieces(Pretty, board, rowIdx)[..colIdx])
        {
          CellStep(Pretty, board, rowIdx, colIdx, start, out);
          if colIdx > 0 && colIdx % BOX_SIZE == 0 {
            out := out + "| ";
          } else {
            AppendNothing(out);
          }
          var digit := Digit.ValueToDigit(BOARD_SIZE, board[rowIdx][colIdx]);
          out := out + [if digit == '0' then '.' else digit] + " ";
        }
        RowStep(Pretty, board, rowIdx, old(out) + Head(Pretty), out);
        out := out + "\n";
      }
      TextDone(Pretty, board, old(out), out);
      AppendNothing(out);
    }
  }

  /** src/JsonWriter.cpp: the board as a JSON array of nine arrays of nine numbers. */
  class JsonWriter {
    var out: string

    constructor()
      ensures out == ""
    {
      out := "";
    }

    method Write(board: Grid)
      requires IsBoard(board)
      modifies this
      ensures out == old(out) + Text(Json, board)
    {
      Assoc(out, "[", "\n");
      out := out + "[" + "\n";
      for rowIdx := 0 to BOARD_SIZE
        invariant out == old(out) + Head(Json) + Concat(RowTexts(Json, board)[..rowIdx])
      {
        ghost var start := out + RowHead(Json, rowIdx);
        out := out + "  [ ";
        for colIdx := 0 to BOARD_SIZE
          invariant out == start + Concat(CellPieces(Json, board, rowIdx)[..colIdx])
        {
          CellStep(Json, board, rowIdx, colIdx, start, out);
          AppendNothing(out);
          out := out + [Digit.ValueToDigit(BOARD_SIZE, board[rowIdx][colIdx])] + (if colIdx < BOARD_SIZE - 1 then ", " else " ");
        }
        RowStep(Json, board, rowIdx, old(out) + Head(Json), out);
        ghost var comma := if rowIdx < BOARD_SIZE - 1 then "," else "";
        Regroup(out, "]", comma, "\n");
        out := out + "]" + (if rowIdx < BOARD_SIZE - 1 then "," else "") + "\n";
      }
      TextDone(Json, board, old(out), out);
      Assoc(out, "]", "\n");
      out := out + "]" + "\n";
    }
  }

  /** src/SudokuLineWriter.cpp: the earlier line writer, printing cells with valueToChar. */
  class SudokuLineWriter {
    var out: string

    constructor()
      ensures out == ""
    {
      out := "";
    }

    method Write(board: Grid)
      requires IsBoard(board)
      modifies this
      ensures out == old(out) + Text(LegacyLine, board)
    {
      AppendNothing(out);
      for rowIdx := 0 to BOARD_SIZE
        invariant out == old(out) + Head(LegacyLine) + Concat(RowTexts(LegacyLine, board)[..rowIdx])
      {
        ghost var start := out + RowHead(LegacyLine, rowIdx);
        AppendNothing(out);
        for colIdx := 0 to BOARD_SIZE
          invariant out == start + Concat(CellPieces(LegacyLine, board, rowIdx)[..colIdx])
        {
          CellStep(LegacyLine, board, rowIdx, colIdx, start, out);
          AppendNothing(out);
          out := out + [SudokuUtil.ValueToChar(BOARD_SIZE, board[rowIdx][colIdx])] + " ";
        }
        RowStep(LegacyLine, board, rowIdx, old(out) + Head(LegacyLine), out);
        AppendNothing(out);
      }
      TextDone(LegacyLine, board, old(out), out);
      AppendNothing(out);
    }
  }

  /** src/SudokuBlockWriter.cpp: the earlier block writer, with two spaces between boxes. */
  class SudokuBlockWriter {
    var out: string

    constructor()
      ensures out == ""
    {
      out := "";
    }

    method Write(board: Grid)
      requires IsBoard(board)
      modifies this
      ensures out == old(out) + Text(LegacyBlock, board)
    {
      AppendNothing(out);
      for rowIdx := 0 to BOARD_SIZE
        invariant out == old(out) + Head(LegacyBlock) + Concat(RowTexts(LegacyBlock, board)[..rowIdx])
      {
        ghost var start := out + RowHead(LegacyBlock, rowIdx);
        if rowIdx > 0 && rowIdx % BOX_SIZE == 0 {
          out := out + "\n";  // extra newline between box rows
        } else {
          AppendNothing(out);
        }
        for colIdx := 0 to BOARD_SIZE
          invariant out == start + Concat(CellPieces(LegacyBlock, board, rowIdx)[..colIdx])
        {
          CellStep(LegacyBlock, board, rowIdx, colIdx, start, out);
          if colIdx > 0 && colIdx % BOX_SIZE == 0 {
            out := out + "  ";  // extra spacing between box columns
          } else {
            AppendNothing(out);
          }
          out := out + [SudokuUtil.ValueToChar(BOARD_SIZE, board[rowIdx][colIdx])] + " ";
        }
        RowStep(LegacyBlock, board, rowIdx, old(out) + Head(LegacyBlock), out);
        out := out + "\n";
      }
      TextDone(LegacyBlock, board, old(out), out);
      AppendNothing(out);
    }
  }

  /** src/SudokuPrettyWriter.cpp: the earlier pretty writer, with " | " between boxes and a longer rule. */
  class SudokuPrettyWriter {
    var out: string

    constructor()
      ensures out == ""
    {
      out := "";
    }

    method Write(board: Grid)
      requires IsBoard(board)
      modifies this
      ensures out == old(out) + Text(LegacyPretty, board)
    {
      AppendNothing(out);
      for rowIdx := 0 to BOARD_SIZE
        invariant out == old(out) + Head(LegacyPretty) + Concat(RowTexts(LegacyPretty, board)[..rowIdx])
      {
        ghost var start := out + RowHead(LegacyPretty, rowIdx);
        if rowIdx > 0 && rowIdx % BOX_SIZE == 0 {
          Assoc(out, LEGACY_PRETTY_RULE, "\n");
          out := out + LEGACY_PRETTY_RULE + "\n";
        } else {
          AppendNothing(out);
        }
        for colIdx := 0 to BOARD_SIZE
          invariant out == start + Concat(CellPieces(LegacyPretty, board, rowIdx)[..colIdx])
        {
          CellStep(LegacyPretty, board, rowIdx, colIdx, start, out);
          if colIdx > 0 && colIdx % BOX_SIZE == 0 {
            out := out + " | ";
          } else {
            AppendNothing(out);
          }
          var ch := SudokuUtil.ValueToChar(BOARD_SIZE, board[rowIdx][colIdx]);
          out := out + [if ch == '0' then '.' else ch] + " ";
        }
        RowStep(LegacyPretty, board, rowIdx, old(out) + Head(LegacyPretty), out);
        out := out + "\n";
      }
      TextDone(LegacyPretty, board, old(out), out);
      AppendNothing(out);
    }
  }
}
