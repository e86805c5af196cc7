/**
 * src/AsciiReader.cpp: reads a board from a character stream. Every character that reads as a
 * value ('.' and '0' .. '9' on a 9x9 board) fills the next cell in row-major order; every other
 * character is skipped; reading stops after the 81st value.
 */
module AsciiReader {
  import opened Wrappers
  import opened SudokuTraits
  import Digit

  const MAX_VALUES: int := BOARD_SIZE * BOARD_SIZE
  const NOT_ENOUGH_VALUES: string := "Not enough values to fill the Sudoku board."

  /** The value a character contributes to the board, or -1 when the reader skips it. */
  function CharValue(c: char): int
  {
    if '0' <= c <= '9' then c as int - '0' as int else if c == '.' then NO_VALUE else -1
  }

  /** CharValue is what read() computes: '.' is first turned into '0', then digitToValue<9>. */
  lemma CharValueIsDigitToValue(c: char)
    ensures CharValue(c) == Digit.DigitToValue(BOARD_SIZE, if c == '.' then '0' else c)
  {
    if c != '.' && !Digit.IsDigit(c) {
      Digit.NineBoardRejectsOthers(c);
    }
  }

  /** The values the characters of s contribute, in order. */
  function Values(s: seq<char>): (vs: seq<int>)
    ensures |vs| <= |s|
  {
    if s == [] then []
    else
      var v := CharValue(s[|s| - 1]);
      Values(s[..|s| - 1]) + (if v != -1 then [v] else [])
  }

  /** Every value read is NO_VALUE or one of VALUE_RANGE. */
  lemma {:induction false} ValuesInRange(s: seq<char>)
    ensures forall k :: 0 <= k < |Values(s)| ==> NO_VALUE <= Values(s)[k] <= MAX_VALUE
    decreases |s|
  {
    if s != [] {
      ValuesInRange(s[..|s| - 1]);
    }
  }

  /** Values distributes over concatenation. */
  lemma {:induction false} ValuesAppend(a: seq<char>, b: seq<char>)
    ensures Values(a + b) == Values(a) + Values(b)
    decreases |b|
  {
    if b == [] {
      assert a + b == a;
    } else {
      var b' := b[..|b| - 1];
      assert (a + b)[..|a + b| - 1] == a + b';
      assert (a + b)[|a + b| - 1] == b[|b| - 1];
      ValuesAppend(a, b');
    }
  }

  /** Reading one more character. */
  lemma ValuesStep(s: seq<char>, i: nat)
    requires i < |s|
    ensures Values(s[..i + 1]) == Values(s[..i]) + (if CharValue(s[i]) != -1 then [CharValue(s[i])] else [])
  {
    assert s[..i + 1][..i] == s[..i];
  }

  /** The values of a prefix are a prefix of the values. */
  lemma ValuesPrefix(s: seq<char>, i: nat)
    requires i <= |s|
    ensures Values(s[..i]) <= Values(s)
  {
    assert s == s[..i] + s[i..];
    ValuesAppend(s[..i], s[i..]);
  }

  /** How many characters read() takes from the stream: up to and including the 81st value, or all of them. */
  function Consumed(s: seq<char>): (n: nat)
    ensures n <= |s|
  {
    ConsumedFrom(s, 0)
  }

  function ConsumedFrom(s: seq<char>, i: nat): (n: nat)
    requires i <= |s|
    ensures i <= n <= |s|
    decreases |s| - i
  {
    if i == |s| || |Values(s[..i])| >= MAX_VALUES then i else ConsumedFrom(s, i + 1)
  }

  /** What read() returns for the stream contents s. */
  function ReadSpec(s: seq<char>): Result<Grid>
  {
    var vs := Values(s);
    if |vs| < MAX_VALUES then Err(NOT_ENOUGH_VALUES) else Ok(Unflatten(vs[..MAX_VALUES]))
  }

  /** The values among the consumed characters are exactly the first 81 (or all, when there are fewer). */
  lemma {:induction false} ConsumedValues(s: seq<char>, i: nat)
    requires i <= |s| && |Values(s[..i])| <= MAX_VALUES
    ensures var n := ConsumedFrom(s, i);
      |Values(s)| >= MAX_VALUES ==> Values(s[..n]) == Values(s)[..MAX_VALUES]
    decreases |s| - i
  {
    var n := ConsumedFrom(s, i);
    ValuesPrefix(s, i);
    if i == |s| {
      assert s[..i] == s;
    } else if |Values(s[..i])| >= MAX_VALUES {
    } else {
      assert s[..i + 1] == s[..i] + [s[i]];
      ValuesAppend(s[..i], [s[i]]);
      assert [s[i]][..0] == [];
      ConsumedValues(s, i + 1);
    }
  }

  /** read() succeeds exactly when the stream holds at least 81 values; cell k gets value k, row-major. */
  lemma ReadPlacement(s: seq<char>)
    ensures ReadSpec(s).Ok? <==> |Values(s)| >= MAX_VALUES
    ensures ReadSpec(s).Err? ==> ReadSpec(s).msg == NOT_ENOUGH_VALUES
    ensures ReadSpec(s).Ok? ==> IsBoard(ReadSpec(s).value) && CellsInRange(ReadSpec(s).value)
    ensures ReadSpec(s).Ok? ==> forall k :: 0 <= k < MAX_VALUES ==>
      ReadSpec(s).value[k / BOARD_SIZE][k % BOARD_SIZE] == Values(s)[k]
  {
    if |Values(s)| >= MAX_VALUES {
      ValuesInRange(s);
      var vs := Values(s)[..MAX_VALUES];
      forall k | 0 <= k < MAX_VALUES
        ensures Unflatten(vs)[k / BOARD_SIZE][k % BOARD_SIZE] == Values(s)[k]
      {
        UnflattenAt(vs, k);
      }
      forall r, c | 0 <= r < BOARD_SIZE && 0 <= c < BOARD_SIZE
        ensures 0 <= Unflatten(vs)[r][c] <= MAX_VALUE
      {
        UnflattenAt(vs, r * BOARD_SIZE + c);
      }
    }
  }

  /** Whatever follows the 81st value has no influence on the board. */
  lemma ReadIgnoresTail(a: seq<char>, b: seq<char>)
    requires |Values(a)| >= MAX_VALUES
    ensures ReadSpec(a + b) == ReadSpec(a)
  {
    ValuesAppend(a, b);
    assert (Values(a) + Values(b))[..MAX_VALUES] == Values(a)[..MAX_VALUES];
  }

  /** A character that is not a value (a space, a newline, a '|', ...) can be dropped from the input. */
  lemma SkippedCharacter(a: seq<char>, c: char, b: seq<char>)
    requires CharValue(c) == -1
    ensures ReadSpec(a + [c] + b) == ReadSpec(a + b)
  {
    ValuesAppend(a + [c], b);
    ValuesAppend(a, [c]);
    ValuesAppend(a, b);
    assert [c][..0] == [];
    assert Values([c]) == [];
    assert Values(a + [c] + b) == Values(a + b);
  }

  /** '.' and '0' both denote an empty cell. */
  lemma DotIsEmpty(a: seq<char>, b: seq<char>)
    ensures ReadSpec(a + ['.'] + b) == ReadSpec(a + ['0'] + b)
  {
    ValuesAppend(a + ['.'], b);
    ValuesAppend(a, ['.']);
    ValuesAppend(a + ['0'], b);
    ValuesAppend(a, ['0']);
    assert ['.'][..0] == [] && ['0'][..0] == [];
    assert CharValue('.') == NO_VALUE == CharValue('0');
  }

  /** The 9x9 board holds the values read so far in row-major order and NO_VALUE after them. */
  ghost predicate Filled(board: array2<int>, read: seq<int>)
    reads board
  {
    board.Length0 == BOARD_SIZE && board.Length1 == BOARD_SIZE &&
    forall r, c :: 0 <= r < BOARD_SIZE && 0 <= c < BOARD_SIZE ==>
      board[r, c] == if r * BOARD_SIZE + c < |read| then read[r * BOARD_SIZE + c] else NO_VALUE
  }

  /** board[count / 9][count % 9] = value: the next cell in row-major order. */
  method Place(board: array2<int>, ghost read: seq<int>, count: int, value: int)
    requires Filled(board, read) && count == |read| < MAX_VALUES
    modifies board
    ensures Filled(board, read + [value])
  {
    board[count / BOARD_SIZE, count % BOARD_SIZE] := value;
    forall r, c | 0 <= r < BOARD_SIZE && 0 <= c < BOARD_SIZE
      ensures board[r, c] == if r * BOARD_SIZE + c < count + 1 then (read + [value])[r * BOARD_SIZE + c] else NO_VALUE
    {
      CellNumber(count, r, c);
    }
  }

  class AsciiReader {
    /** The characters still unread in the input stream. */
    var stream: seq<char>

    constructor(input: seq<char>)
      ensures stream == input
    {
      stream := input;
    }

    /** read(): builds the board from the stream, or fails with "Not enough values ...". */
    method Read() returns (r: Result<Grid>)
      modifies this
      ensures r == ReadSpec(old(stream))
      ensures stream == old(stream)[Consumed(old(stream))..]
    {
      ghost var s := stream;
      var board := new int[BOARD_SIZE, BOARD_SIZE]((_, _) => NO_VALUE);
      var count := 0;
      ghost var i := 0;
      ghost var read: seq<int> := [];
      while count < MAX_VALUES && |stream| > 0
        invariant 0 <= i <= |s| && stream == s[i..]
        invariant read == Values(s[..i]) && count == |read| <= MAX_VALUES
        invariant ConsumedFrom(s, i) == ConsumedFrom(s, 0)
        invariant Filled(board, read)
        decreases |stream|
      {
        var digit := stream[0];
        stream := stream[1..];
        ValuesStep(s, i);
        if digit == '.' {
          digit := '0';
        }
        CharValueIsDigitToValue(s[i]);
        var value := Digit.DigitToValue(BOARD_SIZE, digit);
        if value != -1 {
          Place(board, read, count, value);
          read := read + [value];
          count := count + 1;
        }
        i := i + 1;
      }
      ConsumedValues(s, 0);
      assert s[..0] == [];
      if count != MAX_VALUES {
        assert i == |s| && s[..i] == s;
        assert |Values(s)| < MAX_VALUES;
        return Err(NOT_ENOUGH_VALUES);
      }
      ValuesPrefix(s, i);
      var g := Snapshot(board);
      UnflattenCells(g, Values(s)[..MAX_VALUES]);
      r := Ok(g);
    }
  }
}
