/** includes/SudokuTraits.hpp: the constants and the board type shared by the whole program. */
module SudokuTraits {
  import opened RangeArrays

  /** Size of the board: a 9x9 grid. */
  const BOARD_SIZE: int := 9
  /** Size of one box. */
  const BOX_SIZE: int := 3
  /** Largest value a square can hold. */
  const MAX_VALUE: int := BOARD_SIZE
  /** The value of an empty square. */
  const NO_VALUE: int := 0
  /** Row and column indices, 0 .. BOARD_SIZE - 1. */
  const INDEX_RANGE: seq<int> := RangeArray(BOARD_SIZE, 0, 1)
  /** The values a square may take, 1 .. MAX_VALUE. */
  const VALUE_RANGE: seq<int> := RangeArray(MAX_VALUE, 1, 1)

  /** A board as a value: BOARD_SIZE rows of BOARD_SIZE cells (std::array<std::array<int, 9>, 9>). */
  type Grid = seq<seq<int>>

  predicate IsBoard(g: Grid)
  {
    |g| == BOARD_SIZE && forall r :: 0 <= r < |g| ==> |g[r]| == BOARD_SIZE
  }

  /** Every cell holds NO_VALUE or a value of VALUE_RANGE. */
  predicate CellsInRange(g: Grid)
    requires IsBoard(g)
  {
    forall r, c :: 0 <= r < BOARD_SIZE && 0 <= c < BOARD_SIZE ==> 0 <= g[r][c] <= MAX_VALUE
  }

  /** A value-initialised Board (`Traits::Board board{}`). */
  function EmptyBoard(): (g: Grid)
    ensures IsBoard(g)
    ensures forall r, c :: 0 <= r < BOARD_SIZE && 0 <= c < BOARD_SIZE ==> g[r][c] == NO_VALUE
  {
    seq(BOARD_SIZE, _ => seq(BOARD_SIZE, _ => NO_VALUE))
  }

  /** The box size squared is the board size, the largest value is the board size and the empty value is 0. */
  lemma TraitsConstants()
    ensures BOX_SIZE * BOX_SIZE == BOARD_SIZE
    ensures MAX_VALUE == BOARD_SIZE && NO_VALUE == 0
  {
  }

  /** INDEX_RANGE is 0 .. BOARD_SIZE - 1 in order and VALUE_RANGE is 1 .. MAX_VALUE in order. */
  lemma TraitsRanges()
    ensures |INDEX_RANGE| == BOARD_SIZE && forall i :: 0 <= i < BOARD_SIZE ==> INDEX_RANGE[i] == i
    ensures |VALUE_RANGE| == MAX_VALUE && forall i :: 0 <= i < MAX_VALUE ==> VALUE_RANGE[i] == i + 1
  {
    NineElementRanges();
  }

  /**
   * Flattening the board row by row: cell k of the result is board[k / 9][k % 9]. An abstraction
   * function: its contract is its definition, and its use is in the round-trip lemmas below.
   */
  function Flatten(g: Grid): (cells: seq<int>)
    requires IsBoard(g)
    ensures |cells| == BOARD_SIZE * BOARD_SIZE
    ensures forall k :: 0 <= k < |cells| ==> cells[k] == g[k / BOARD_SIZE][k % BOARD_SIZE]
  {
    seq(BOARD_SIZE * BOARD_SIZE, k requires 0 <= k < BOARD_SIZE * BOARD_SIZE => g[k / BOARD_SIZE][k % BOARD_SIZE])
  }

  /** The inverse of Flatten: value k goes to row k / 9, column k % 9. */
  function Unflatten(cells: seq<int>): (g: Grid)
    requires |cells| == BOARD_SIZE * BOARD_SIZE
    ensures IsBoard(g)
  {
    seq(BOARD_SIZE, r requires 0 <= r < BOARD_SIZE => cells[r * BOARD_SIZE .. r * BOARD_SIZE + BOARD_SIZE])
  }

  lemma UnflattenAt(cells: seq<int>, k: int)
    requires |cells| == BOARD_SIZE * BOARD_SIZE && 0 <= k < |cells|
    ensures Unflatten(cells)[k / BOARD_SIZE][k % BOARD_SIZE] == cells[k]
  {
  }

  /** Unflatten undoes Flatten. */
  lemma UnflattenFlatten(g: Grid)
    requires IsBoard(g)
    ensures Unflatten(Flatten(g)) == g
  {
    var h := Unflatten(Flatten(g));
    forall r | 0 <= r < BOARD_SIZE
      ensures h[r] == g[r]
    {
      forall c | 0 <= c < BOARD_SIZE
        ensures h[r][c] == g[r][c]
      {
        assert (r * BOARD_SIZE + c) / BOARD_SIZE == r;
        assert (r * BOARD_SIZE + c) % BOARD_SIZE == c;
      }
    }
  }

  /** A board whose cell (r, c) is value r * 9 + c of cells is the unflattened cells. */
  lemma UnflattenCells(g: Grid, cells: seq<int>)
    requires IsBoard(g) && |cells| == BOARD_SIZE * BOARD_SIZE
    requires forall r, c :: 0 <= r < BOARD_SIZE && 0 <= c < BOARD_SIZE ==> g[r][c] == cells[r * BOARD_SIZE + c]
    ensures g == Unflatten(cells)
  {
    var h := Unflatten(cells);
    forall r | 0 <= r < BOARD_SIZE
      ensures h[r] == g[r]
    {
      forall c | 0 <= c < BOARD_SIZE
        ensures h[r][c] == g[r][c]
      {
      }
    }
  }

  /** A Board held as an array: BOARD_SIZE x BOARD_SIZE. */
  predicate IsNine(board: array2<int>)
  {
    board.Length0 == BOARD_SIZE && board.Length1 == BOARD_SIZE
  }

  /** The value of a 9x9 array board: the abstraction function the array-based solvers are specified by. */
  function Snapshot(board: array2<int>): (g: Grid)
    requires board.Length0 == BOARD_SIZE && board.Length1 == BOARD_SIZE
    reads board
    ensures IsBoard(g)
    ensures forall r, c :: 0 <= r < BOARD_SIZE && 0 <= c < BOARD_SIZE ==> g[r][c] == board[r, c]
  {
    seq(BOARD_SIZE, r requires 0 <= r < BOARD_SIZE reads board =>
      seq(BOARD_SIZE, c requires 0 <= c < BOARD_SIZE reads board => board[r, c]))
  }

  /** Row-major cell numbering: cell (r, c) is number k exactly when r = k / 9 and c = k % 9. */
  lemma CellNumber(k: int, r: int, c: int)
    requires 0 <= k && 0 <= r < BOARD_SIZE && 0 <= c < BOARD_SIZE
    ensures r * BOARD_SIZE + c == k <==> r == k / BOARD_SIZE && c == k % BOARD_SIZE
  {
  }

  /** The flattened board is the concatenation of its rows. */
  lemma FlattenRows(g: Grid, r: int)
    requires IsBoard(g) && 0 <= r < BOARD_SIZE
    ensures Flatten(g)[..(r + 1) * BOARD_SIZE] == Flatten(g)[..r * BOARD_SIZE] + g[r]
  {
    var flat := Flatten(g);
    forall c | 0 <= c < BOARD_SIZE
      ensures flat[r * BOARD_SIZE + c] == g[r][c]
    {
      CellNumber(r * BOARD_SIZE + c, r, c);
    }
    assert flat[r * BOARD_SIZE .. (r + 1) * BOARD_SIZE] == g[r];
    assert flat[..(r + 1) * BOARD_SIZE] == flat[..r * BOARD_SIZE] + flat[r * BOARD_SIZE .. (r + 1) * BOARD_SIZE];
  }
}
