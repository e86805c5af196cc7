/**
 * The rules of Sudoku on a 9x9 board, shared by both solvers and the board coordinator: squares
 * that share a row, a column or a 3x3 box must not hold the same value.
 */
module SudokuRules {
  import opened SudokuTraits

  /** Squares (r1, c1) and (r2, c2) lie in a common row, column or box. */
  predicate SameUnit(r1: int, c1: int, r2: int, c2: int)
  {
    r1 == r2 || c1 == c2 || (r1 / BOX_SIZE == r2 / BOX_SIZE && c1 / BOX_SIZE == c2 / BOX_SIZE)
  }

  /** No filled square shares a unit with another square holding the same value. */
  predicate NoDuplicates(g: Grid)
    requires IsBoard(g)
  {
    forall r1, c1, r2, c2 ::
      (0 <= r1 < BOARD_SIZE && 0 <= c1 < BOARD_SIZE && 0 <= r2 < BOARD_SIZE && 0 <= c2 < BOARD_SIZE &&
       (r1, c1) != (r2, c2) && SameUnit(r1, c1, r2, c2) && g[r1][c1] != NO_VALUE) ==> g[r1][c1] != g[r2][c2]
  }

  /** Every square holds one of VALUE_RANGE. */
  predicate Complete(g: Grid)
    requires IsBoard(g)
  {
    forall r, c :: 0 <= r < BOARD_SIZE && 0 <= c < BOARD_SIZE ==> 1 <= g[r][c] <= MAX_VALUE
  }

  /** A solved board: every square filled, no unit repeats a value. */
  predicate IsSolution(g: Grid)
  {
    IsBoard(g) && Complete(g) && NoDuplicates(g)
  }

  /** g keeps every given (non-empty square) of givens. */
  predicate Extends(g: Grid, givens: Grid)
    requires IsBoard(g) && IsBoard(givens)
  {
    forall r, c :: 0 <= r < BOARD_SIZE && 0 <= c < BOARD_SIZE && givens[r][c] != NO_VALUE ==> g[r][c] == givens[r][c]
  }

  /** value may go into square (r, c): no square of its row, column or box (itself included) holds it. */
  predicate Allowed(g: Grid, value: int, r: int, c: int)
    requires IsBoard(g)
  {
    forall i, j :: 0 <= i < BOARD_SIZE && 0 <= j < BOARD_SIZE && SameUnit(i, j, r, c) ==> g[i][j] != value
  }

  /** Writing an allowed value, or emptying a square, keeps a board free of duplicates. */
  lemma PlaceKeepsNoDuplicates(g: Grid, r: int, c: int, value: int)
    requires IsBoard(g) && NoDuplicates(g) && 0 <= r < BOARD_SIZE && 0 <= c < BOARD_SIZE
    requires value == NO_VALUE || Allowed(g, value, r, c)
    ensures NoDuplicates(g[r := g[r][c := value]])
  {
    var h := g[r := g[r][c := value]];
    forall r1, c1, r2, c2 |
      0 <= r1 < BOARD_SIZE && 0 <= c1 < BOARD_SIZE && 0 <= r2 < BOARD_SIZE && 0 <= c2 < BOARD_SIZE &&
      (r1, c1) != (r2, c2) && SameUnit(r1, c1, r2, c2) && h[r1][c1] != NO_VALUE
      ensures h[r1][c1] != h[r2][c2]
    {
      if (r2, c2) == (r, c) {
        assert SameUnit(r1, c1, r, c);
      }
    }
  }

  /** Writing NO_VALUE or a value of VALUE_RANGE keeps every square in range. */
  lemma PlaceKeepsInRange(g: Grid, r: int, c: int, value: int)
    requires IsBoard(g) && CellsInRange(g) && 0 <= r < BOARD_SIZE && 0 <= c < BOARD_SIZE
    requires NO_VALUE <= value <= MAX_VALUE
    ensures CellsInRange(g[r := g[r][c := value]])
  {
  }
}
