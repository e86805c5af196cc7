/**
 * src/BackTrackingSolver.cpp: a brute-force solver that works in place on the board. It finds the
 * first empty square in row-major order, tries the values 1 .. 9 in ascending order and recurses.
 * A value that passes the row, column and box checks is written into the square; a value that
 * fails them empties the square. A value is not removed again when the search below it fails.
 */
module BackTracking {
  import opened SudokuTraits
  import opened SudokuRules

  /** The number of squares on the board. */
  const SQUARES: int := BOARD_SIZE * BOARD_SIZE

  /** check(): std::all_of over the array, with "element != value" as the test. */
  function Check(value: int, arr: seq<int>): (ok: bool)
    ensures ok <==> value !in arr
  {
    arr == [] || (arr[0] != value && Check(value, arr[1..]))
  }

  /** rowConstraint(): value does not occur in the row. */
  function RowConstraint(board: array2<int>, value: int, rowPos: int): (ok: bool)
    requires IsNine(board) && 0 <= rowPos < BOARD_SIZE
    reads board
    ensures ok <==> forall c :: 0 <= c < BOARD_SIZE ==> board[rowPos, c] != value
  {
    Check(value, Snapshot(board)[rowPos])
  }

  /** columnConstraint(): value does not occur in the column (gathered with std::transform). */
  function ColumnConstraint(board: array2<int>, value: int, columnPos: int): (ok: bool)
    requires IsNine(board) && 0 <= columnPos < BOARD_SIZE
    reads board
    ensures ok <==> forall r :: 0 <= r < BOARD_SIZE ==> board[r, columnPos] != value
  {
    var columnValues := seq(BOARD_SIZE, r requires 0 <= r < BOARD_SIZE reads board => board[r, columnPos]);
    assert forall r :: 0 <= r < BOARD_SIZE ==> columnValues[r] == board[r, columnPos];
    Check(value, columnValues)
  }

  /** sectionConstraint(): the nine squares of the box are copied into an array, then checked. */
  method SectionConstraint(board: array2<int>, value: int, rowPos: int, columnPos: int) returns (ok: bool)
    requires IsNine(board) && 0 <= rowPos < BOARD_SIZE && 0 <= columnPos < BOARD_SIZE
    ensures ok <==> forall i, j :: InSameBox(i, j, rowPos, columnPos) ==> board[i, j] != value
  {
    var startRow := (rowPos / BOX_SIZE) * BOX_SIZE;
    var endRow := startRow + BOX_SIZE;
    var startCol := (columnPos / BOX_SIZE) * BOX_SIZE;
    var endCol := startCol + BOX_SIZE;
    var sectionValues := new int[BOARD_SIZE];
    var secIter := 0;
    for row := startRow to endRow
      invariant secIter == (row - startRow) * BOX_SIZE
      invariant forall k :: 0 <= k < secIter ==> sectionValues[k] == board[BoxRow(rowPos, k), BoxColumn(columnPos, k)]
    {
      for col := startCol to endCol
        invariant secIter == (row - startRow) * BOX_SIZE + (col - startCol)
        invariant forall k :: 0 <= k < secIter ==> sectionValues[k] == board[BoxRow(rowPos, k), BoxColumn(columnPos, k)]
      {
        BoxIndex(rowPos, columnPos, row, col);
        sectionValues[secIter] := board[row, col];
        secIter := secIter + 1;
      }
    }
    ok := Check(value, sectionValues[..]);
    SectionIsBox(board, sectionValues[..], value, rowPos, columnPos);
  }

  /** The nine values copied row by row from the box of (rowPos, columnPos) are that box's values. */
  lemma SectionIsBox(board: array2<int>, section: seq<int>, value: int, rowPos: int, columnPos: int)
    requires IsNine(board) && 0 <= rowPos < BOARD_SIZE && 0 <= columnPos < BOARD_SIZE
    requires |section| == BOARD_SIZE
    requires forall k :: 0 <= k < BOARD_SIZE ==> section[k] == board[BoxRow(rowPos, k), BoxColumn(columnPos, k)]
    ensures value !in section <==> forall i, j :: InSameBox(i, j, rowPos, columnPos) ==> board[i, j] != value
  {
    BoxInSection(board, section, rowPos, columnPos);
    if value in section {
      var k :| 0 <= k < BOARD_SIZE && section[k] == value;
      SectionInBox(rowPos, columnPos, k);
      assert board[BoxRow(rowPos, k), BoxColumn(columnPos, k)] == value;
    }
  }

  /** Entry k of the copied box: row-major within the box. */
  function BoxRow(rowPos: int, k: int): int
  {
    (rowPos / BOX_SIZE) * BOX_SIZE + k / BOX_SIZE
  }

  function BoxColumn(columnPos: int, k: int): int
  {
    (columnPos / BOX_SIZE) * BOX_SIZE + k % BOX_SIZE
  }

  lemma BoxInSection(board: array2<int>, section: seq<int>, rowPos: int, columnPos: int)
    requires IsNine(board) && 0 <= rowPos < BOARD_SIZE && 0 <= columnPos < BOARD_SIZE
    requires |section| == BOARD_SIZE
    requires forall k :: 0 <= k < BOARD_SIZE ==> section[k] == board[BoxRow(rowPos, k), BoxColumn(columnPos, k)]
    ensures forall i, j :: InSameBox(i, j, rowPos, columnPos) ==> board[i, j] in section
  {
    forall i, j | InSameBox(i, j, rowPos, columnPos)
      ensures board[i, j] in section
    {
      var k := (i - (rowPos / BOX_SIZE) * BOX_SIZE) * BOX_SIZE + (j - (columnPos / BOX_SIZE) * BOX_SIZE);
      assert BoxRow(rowPos, k) == i && BoxColumn(columnPos, k) == j;
      assert section[k] == board[i, j];
    }
  }

  /** Square (row, col) of the box is entry (row - startRow) * 3 + (col - startCol) of the copy. */
  lemma BoxIndex(rowPos: int, columnPos: int, row: int, col: int)
    requires 0 <= rowPos < BOARD_SIZE && 0 <= columnPos < BOARD_SIZE
    requires (rowPos / BOX_SIZE) * BOX_SIZE <= row < (rowPos / BOX_SIZE) * BOX_SIZE + BOX_SIZE
    requires (columnPos / BOX_SIZE) * BOX_SIZE <= col < (columnPos / BOX_SIZE) * BOX_SIZE + BOX_SIZE
    ensures var k := (row - (rowPos / BOX_SIZE) * BOX_SIZE) * BOX_SIZE + (col - (columnPos / BOX_SIZE) * BOX_SIZE);
      0 <= k < BOARD_SIZE && BoxRow(rowPos, k) == row && BoxColumn(columnPos, k) == col
  {
  }

  lemma SectionInBox(rowPos: int, columnPos: int, k: int)
    requires 0 <= rowPos < BOARD_SIZE && 0 <= columnPos < BOARD_SIZE && 0 <= k < BOARD_SIZE
    ensures InSameBox(BoxRow(rowPos, k), BoxColumn(columnPos, k), rowPos, columnPos)
  {
    BoxOffset(rowPos, k / BOX_SIZE);
    BoxOffset(columnPos, k % BOX_SIZE);
  }

  /** Square (i, j) lies on the board in the box of (r, c). */
  predicate InSameBox(i: int, j: int, r: int, c: int)
  {
    0 <= i < BOARD_SIZE && 0 <= j < BOARD_SIZE && i / BOX_SIZE == r / BOX_SIZE && j / BOX_SIZE == c / BOX_SIZE
  }

  lemma BoxOffset(p: int, d: int)
    requires 0 <= p < BOARD_SIZE && 0 <= d < BOX_SIZE
    ensures 0 <= (p / BOX_SIZE) * BOX_SIZE + d < BOARD_SIZE
    ensures ((p / BOX_SIZE) * BOX_SIZE + d) / BOX_SIZE == p / BOX_SIZE
  {
  }

  /** Row-major number of the first empty square at or after square k; SQUARES when there is none. */
  function FirstEmptyFrom(g: Grid, k: int): (e: int)
    requires IsBoard(g) && 0 <= k <= SQUARES
    ensures k <= e <= SQUARES
    ensures e < SQUARES ==> g[e / BOARD_SIZE][e % BOARD_SIZE] == NO_VALUE
    ensures forall j :: k <= j < e ==> g[j / BOARD_SIZE][j % BOARD_SIZE] != NO_VALUE
    decreases SQUARES - k
  {
    if k == SQUARES || g[k / BOARD_SIZE][k % BOARD_SIZE] == NO_VALUE then k else FirstEmptyFrom(g, k + 1)
  }

  /** The square solver() fills next: the first empty one in row-major order. */
  function FirstEmpty(g: Grid): int
    requires IsBoard(g)
  {
    FirstEmptyFrom(g, 0)
  }

  /** The first empty square is the empty square that every earlier square is filled before. */
  lemma FirstEmptyIs(g: Grid, k: int)
    requires IsBoard(g) && 0 <= k <= SQUARES
    requires forall j :: 0 <= j < k ==> g[j / BOARD_SIZE][j % BOARD_SIZE] != NO_VALUE
    requires k < SQUARES ==> g[k / BOARD_SIZE][k % BOARD_SIZE] == NO_VALUE
    ensures FirstEmpty(g) == k
  {
  }

  /** A board without an empty square whose values are all in range is complete. */
  lemma FilledIsComplete(g: Grid)
    requires IsBoard(g) && CellsInRange(g) && FirstEmpty(g) == SQUARES
    ensures Complete(g)
  {
    forall r, c | 0 <= r < BOARD_SIZE && 0 <= c < BOARD_SIZE
      ensures g[r][c] != NO_VALUE
    {
      CellNumber(r * BOARD_SIZE + c, r, c);
    }
  }

  /** The row-major numbers of the empty squares: what solver()'s recursion uses up. */
  ghost function Empties(g: Grid): set<int>
    requires IsBoard(g)
  {
    set k | 0 <= k < SQUARES && g[k / BOARD_SIZE][k % BOARD_SIZE] == NO_VALUE
  }

  /** Filling an empty square while keeping the filled ones leaves fewer empty squares. */
  lemma FewerEmpties(g: Grid, h: Grid, r: int, c: int)
    requires IsBoard(g) && IsBoard(h) && Extends(h, g)
    requires 0 <= r < BOARD_SIZE && 0 <= c < BOARD_SIZE && g[r][c] == NO_VALUE && h[r][c] != NO_VALUE
    ensures Empties(h) < Empties(g)
  {
    CellNumber(r * BOARD_SIZE + c, r, c);
    assert r * BOARD_SIZE + c in Empties(g) - Empties(h);
  }

  /**
   * What a run of solver() keeps of the board g0 it started from: the givens, and the absence of
   * duplicates and of values outside 0 .. 9 when g0 had them.
   */
  ghost predicate Keeps(g0: Grid, g: Grid)
    requires IsBoard(g0) && IsBoard(g)
  {
    Extends(g, g0) && (NoDuplicates(g0) ==> NoDuplicates(g)) && (CellsInRange(g0) ==> CellsInRange(g))
  }

  lemma KeepsItself(g: Grid)
    requires IsBoard(g)
    ensures Keeps(g, g)
  {
  }

  lemma KeepsTransitive(a: Grid, b: Grid, c: Grid)
    requires IsBoard(a) && IsBoard(b) && IsBoard(c) && Keeps(a, b) && Keeps(b, c)
    ensures Keeps(a, c)
  {
  }

  /** One isValid() write into a square that was empty in g0. */
  lemma KeepsPlace(g0: Grid, g: Grid, r: int, c: int, value: int)
    requires IsBoard(g0) && IsBoard(g) && Keeps(g0, g)
    requires 0 <= r < BOARD_SIZE && 0 <= c < BOARD_SIZE && g0[r][c] == NO_VALUE
    requires NO_VALUE <= value <= MAX_VALUE && (value == NO_VALUE || Allowed(g, value, r, c))
    ensures Keeps(g0, g[r := g[r][c := value]])
  {
    if NoDuplicates(g0) {
      PlaceKeepsNoDuplicates(g, r, c, value);
    }
    if CellsInRange(g0) {
      PlaceKeepsInRange(g, r, c, value);
    }
  }

  class BackTrackingSolver {
    /** mRecursions: the number of solver() calls made by this object, over all its solves. */
    var recursions: nat

    constructor()
      ensures recursions == 0
    {
      recursions := 0;
    }

    /**
     * solve(): runs solver() on the board and returns its verdict with the recursion count so far.
     * The count is never reset: it grows by the calls solver() makes on this board.
     */
    method Solve(board: array2<int>) returns (solved: bool, count: nat, ghost calls: nat)
      requires IsNine(board)
      modifies this, board
      ensures count == recursions && recursions == old(recursions) + calls && calls >= 1
      ensures old(FirstEmpty(Snapshot(board))) == SQUARES ==> calls == 1
      ensures Extends(Snapshot(board), old(Snapshot(board)))
      ensures old(NoDuplicates(Snapshot(board))) ==> NoDuplicates(Snapshot(board))
      ensures solved && old(CellsInRange(Snapshot(board)) && NoDuplicates(Snapshot(board))) ==>
        IsSolution(Snapshot(board))
      ensures old(FirstEmpty(Snapshot(board))) == SQUARES ==> solved && unchanged(board)
    {
      solved, calls := Solver(board);
      count := recursions;
      if solved && old(CellsInRange(Snapshot(board)) && NoDuplicates(Snapshot(board))) {
        FilledIsComplete(Snapshot(board));
      }
    }

    /**
     * solver(): true with every square filled, or false with the first empty square holding 0 or
     * 9 (9 when that value passed the checks but the search below it failed). Filled squares are
     * never written, and no write introduces a duplicate.
     */
    method Solver(board: array2<int>) returns (solved: bool, ghost calls: nat)
      requires IsNine(board)
      modifies this, board
      decreases Empties(Snapshot(board)), 1
      // calls counts this call and every solver() call made below it
      ensures recursions == old(recursions) + calls && calls >= 1
      ensures Keeps(old(Snapshot(board)), Snapshot(board))
      ensures solved ==> FirstEmpty(Snapshot(board)) == SQUARES
      ensures old(FirstEmpty(Snapshot(board))) == SQUARES ==>
        solved && unchanged(board) && calls == 1
      ensures !solved ==> var e := old(FirstEmpty(Snapshot(board)));
        e < SQUARES && board[e / BOARD_SIZE, e % BOARD_SIZE] in {NO_VALUE, MAX_VALUE}
    {
      ghost var g0 := Snapshot(board);
      recursions := recursions + 1;
      for rowIdx := 0 to BOARD_SIZE
        invariant unchanged(board) && recursions == old(recursions) + 1
        invariant forall j :: 0 <= j < rowIdx * BOARD_SIZE ==> board[j / BOARD_SIZE, j % BOARD_SIZE] != NO_VALUE
      {
        for colIdx := 0 to BOARD_SIZE
          invariant unchanged(board) && recursions == old(recursions) + 1
          invariant forall j :: 0 <= j < rowIdx * BOARD_SIZE + colIdx ==>
            board[j / BOARD_SIZE, j % BOARD_SIZE] != NO_VALUE
        {
          CellNumber(rowIdx * BOARD_SIZE + colIdx, rowIdx, colIdx);
          if board[rowIdx, colIdx] == NO_VALUE {
            assert Snapshot(board) == g0;
            FirstEmptyIs(g0, rowIdx * BOARD_SIZE + colIdx);
            ghost var lastTry, below;
            solved, lastTry, below := TryValues(board, rowIdx, colIdx);
            calls := 1 + below;
            return;
          }
        }
      }
      assert Snapshot(board) == g0;
      KeepsItself(g0);
      FirstEmptyIs(g0, SQUARES);
      return true, 1;
    }

    /**
     * The value loop of solver() at its first empty square: values 1 .. 9 in turn, each that
     * passes isValid() followed by a recursive solver() call; false once all nine have failed.
     */
    method TryValues(board: array2<int>, rowIdx: int, colIdx: int) returns (solved: bool, ghost lastTry: Grid, ghost calls: nat)
      requires IsNine(board) && 0 <= rowIdx < BOARD_SIZE && 0 <= colIdx < BOARD_SIZE
      requires board[rowIdx, colIdx] == NO_VALUE
      modifies this, board
      decreases Empties(Snapshot(board)), 0
      // calls counts the solver() calls made for the values tried
      ensures recursions == old(recursions) + calls
      ensures Keeps(old(Snapshot(board)), Snapshot(board))
      ensures solved ==> FirstEmpty(Snapshot(board)) == SQUARES
      ensures !solved ==> board[rowIdx, colIdx] in {NO_VALUE, MAX_VALUE}
      // lastTry is the board as the attempt with 9 found it: 9 stays exactly when it passed the checks there
      ensures !solved ==> IsBoard(lastTry) && Keeps(old(Snapshot(board)), lastTry)
      ensures !solved ==> (board[rowIdx, colIdx] == MAX_VALUE <==> Allowed(lastTry, MAX_VALUE, rowIdx, colIdx))
      ensures !solved && board[rowIdx, colIdx] == NO_VALUE ==>
        Snapshot(board) == lastTry[rowIdx := lastTry[rowIdx][colIdx := NO_VALUE]]
    {
      ghost var g0 := Snapshot(board);
      KeepsItself(g0);
      lastTry, calls := g0, 0;
      for value := 1 to MAX_VALUE + 1
        invariant recursions == old(recursions) + calls
        invariant Keeps(g0, Snapshot(board))
        invariant board[rowIdx, colIdx] == NO_VALUE || board[rowIdx, colIdx] == value - 1
        invariant value == MAX_VALUE + 1 ==> IsBoard(lastTry) && Keeps(g0, lastTry)
        invariant value == MAX_VALUE + 1 ==>
          (board[rowIdx, colIdx] == MAX_VALUE <==> Allowed(lastTry, MAX_VALUE, rowIdx, colIdx))
        invariant value == MAX_VALUE + 1 && board[rowIdx, colIdx] == NO_VALUE ==>
          Snapshot(board) == lastTry[rowIdx := lastTry[rowIdx][colIdx := NO_VALUE]]
      {
        ghost var before := Snapshot(board);
        lastTry := before;
        var ok := IsValid(board, value, rowIdx, colIdx);
        KeepsPlace(g0, before, rowIdx, colIdx, if ok then value else NO_VALUE);
        if ok {
          ghost var placed := Snapshot(board);
          FewerEmpties(g0, placed, rowIdx, colIdx);
          ghost var below;
          solved, below := Solver(board);
          calls := calls + below;
          KeepsTransitive(g0, placed, Snapshot(board));
          if solved {
            return;
          }
        }
      }
      return false, lastTry, calls;
    }

    /**
     * isValid(): value goes into (rowPos, columnPos) when no square of its row, column or box
     * holds it; otherwise the square is emptied. No other square changes.
     */
    method IsValid(board: array2<int>, value: int, rowPos: int, columnPos: int) returns (ok: bool)
      requires IsNine(board) && 0 <= rowPos < BOARD_SIZE && 0 <= columnPos < BOARD_SIZE
      modifies board
      ensures ok == Allowed(old(Snapshot(board)), value, rowPos, columnPos)
      ensures Snapshot(board) ==
        old(Snapshot(board))[rowPos := old(Snapshot(board))[rowPos][columnPos := if ok then value else NO_VALUE]]
    {
      ghost var g := Snapshot(board);
      ok := RowConstraint(board, value, rowPos) && ColumnConstraint(board, value, columnPos);
      if ok {
        ok := SectionConstraint(board, value, rowPos, columnPos);
      }
      if ok {
        board[rowPos, columnPos] := value;
      } else {
        board[rowPos, columnPos] := NO_VALUE;
      }
      ghost var h := g[rowPos := g[rowPos][columnPos := if ok then value else NO_VALUE]];
      forall r | 0 <= r < BOARD_SIZE
        ensures Snapshot(board)[r] == h[r]
      {
      }
    }
  }
}
