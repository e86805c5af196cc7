/**
 * src/SudokuBoard.cpp: the board of a program run, with the reader that fills it, the writer that
 * prints it and the list of solvers that are tried on it in turn.
 */
module SudokuBoard {
  import opened Wrappers
  import opened SudokuTraits
  import opened SudokuRules
  import opened WriterFormats
  import AsciiReader
  import Writers
  import BackTracking
  import ConstraintPropagation

  /** The solvers a SolverList can hold. */
  datatype Solver =
    | BackTrackingSolver(solver: BackTracking.BackTrackingSolver)
    | ConstraintPropagationSolver

  /** The writers an ISudokuWriter reference can denote. */
  datatype Writer =
    | LineWriter(line: Writers.LineWriter)
    | BlockWriter(block: Writers.BlockWriter)
    | PrettyWriter(pretty: Writers.PrettyWriter)
    | JsonWriter(json: Writers.JsonWriter)
    | SudokuLineWriter(legacyLine: Writers.SudokuLineWriter)
    | SudokuBlockWriter(legacyBlock: Writers.SudokuBlockWriter)
    | SudokuPrettyWriter(legacyPretty: Writers.SudokuPrettyWriter)

  /** The object behind a writer reference. */
  function Target(w: Writer): object
  {
    match w
    case LineWriter(x) => x
    case BlockWriter(x) => x
    case PrettyWriter(x) => x
    case JsonWriter(x) => x
    case SudokuLineWriter(x) => x
    case SudokuBlockWriter(x) => x
    case SudokuPrettyWriter(x) => x
  }

  /** The text format a writer produces. */
  function FormatOf(w: Writer): Format
  {
    match w
    case LineWriter(_) => Line
    case BlockWriter(_) => Block
    case PrettyWriter(_) => Pretty
    case JsonWriter(_) => Json
    case SudokuLineWriter(_) => LegacyLine
    case SudokuBlockWriter(_) => LegacyBlock
    case SudokuPrettyWriter(_) => LegacyPretty
  }

  /** The text a writer has written so far. */
  function Out(w: Writer): string
    reads Target(w)
  {
    match w
    case LineWriter(x) => x.out
    case BlockWriter(x) => x.out
    case PrettyWriter(x) => x.out
    case JsonWriter(x) => x.out
    case SudokuLineWriter(x) => x.out
    case SudokuBlockWriter(x) => x.out
    case SudokuPrettyWriter(x) => x.out
  }

  /** The back-tracking solver objects of a list: the only solver state a solve can change. */
  function BackTrackers(solvers: seq<Solver>): set<object>
  {
    set i | 0 <= i < |solvers| && solvers[i].BackTrackingSolver? :: solvers[i].solver
  }

  /** The back-tracking solvers of a list prefix grow by the next entry's solver. */
  lemma BackTrackersGrow(solvers: seq<Solver>, i: int)
    requires 0 <= i < |solvers|
    ensures BackTrackers(solvers[..i]) <= BackTrackers(solvers[..i + 1])
    ensures solvers[i].BackTrackingSolver? ==> solvers[i].solver in BackTrackers(solvers[..i + 1])
  {
    var pre, next := solvers[..i], solvers[..i + 1];
    forall o | o in BackTrackers(pre) ensures o in BackTrackers(next) {
      var k :| 0 <= k < |pre| && pre[k].BackTrackingSolver? && pre[k].solver == o;
      assert next[k] == pre[k];
    }
    if solvers[i].BackTrackingSolver? {
      assert next[i] == solvers[i];
    }
  }

  class SudokuBoard {
    var mBoard: Grid
    const mReader: AsciiReader.AsciiReader
    const mWriter: Writer
    const mSolvers: seq<Solver>

    ghost predicate Valid()
      reads this
    {
      IsBoard(mBoard)
    }

    /** The board starts value-initialised: every square empty. */
    constructor(reader: AsciiReader.AsciiReader, writer: Writer, solvers: seq<Solver>)
      ensures Valid() && mBoard == EmptyBoard()
      ensures mReader == reader && mWriter == writer && mSolvers == solvers
    {
      mBoard := EmptyBoard();
      mReader := reader;
      mWriter := writer;
      mSolvers := solvers;
    }

    /** read(): the board becomes the reader's board; a reader error leaves it as it was. */
    method Read() returns (outcome: Outcome)
      requires Valid()
      modifies this, mReader
      ensures Valid()
      ensures outcome.Pass? <==> AsciiReader.ReadSpec(old(mReader.stream)).Ok?
      ensures outcome.Pass? ==> mBoard == AsciiReader.ReadSpec(old(mReader.stream)).value
      ensures outcome.Fail? ==>
        mBoard == old(mBoard) && outcome.msg == AsciiReader.ReadSpec(old(mReader.stream)).msg
    {
      var r := mReader.Read();
      if r.Err? {
        return Fail(r.msg);
      }
      mBoard := r.value;
      return Pass;
    }

    /** write(): hands the board to the writer, which appends its text; the board is not changed. */
    method Write()
      requires Valid()
      modifies Target(mWriter)
      ensures Out(mWriter) == old(Out(mWriter)) + Text(FormatOf(mWriter), mBoard)
    {
      match mWriter
      case LineWriter(x) => x.Write(mBoard);
      case BlockWriter(x) => x.Write(mBoard);
      case PrettyWriter(x) => x.Write(mBoard);
      case JsonWriter(x) => x.Write(mBoard);
      case SudokuLineWriter(x) => x.Write(mBoard);
      case SudokuBlockWriter(x) => x.Write(mBoard);
      case SudokuPrettyWriter(x) => x.Write(mBoard);
    }

    /**
     * solve(): each solver, in list order, gets a fresh copy of the board; the first one to
     * succeed has its board kept and its verdict returned. When none succeeds, or the list is
     * empty, the board is unchanged and the result is (false, 0). On success winner is the index
     * of the solver that succeeded: the count returned is its count, and no solver after it runs.
     */
    method Solve() returns (solved: bool, recursions: int, ghost winner: int)
      requires Valid()
      modifies this, BackTrackers(mSolvers)
      ensures Valid()
      ensures !solved ==> recursions == 0 && mBoard == old(mBoard)
      ensures solved ==> recursions >= 1 && Extends(mBoard, old(mBoard))
      ensures solved && CellsInRange(old(mBoard)) && NoDuplicates(old(mBoard)) ==> IsSolution(mBoard)
      ensures solved ==> 0 <= winner < |mSolvers|
      ensures solved && mSolvers[winner].BackTrackingSolver? ==> recursions == mSolvers[winner].solver.recursions
      ensures solved ==> forall j ::
        (winner < j < |mSolvers| && mSolvers[j].BackTrackingSolver? &&
         mSolvers[j].solver !in BackTrackers(mSolvers[..winner + 1])) ==>
          mSolvers[j].solver.recursions == old(mSolvers[j].solver.recursions)
    {
      winner := 0;
      for i := 0 to |mSolvers|
        invariant Valid() && mBoard == old(mBoard)
        invariant forall j ::
          (i <= j < |mSolvers| && mSolvers[j].BackTrackingSolver? &&
           mSolvers[j].solver !in BackTrackers(mSolvers[..i])) ==>
            mSolvers[j].solver.recursions == old(mSolvers[j].solver.recursions)
      {
        BackTrackersGrow(mSolvers, i);
        var copy := mBoard;
        var board := new int[BOARD_SIZE, BOARD_SIZE]((r, c) =>
          if 0 <= r < |copy| && 0 <= c < |copy[r]| then copy[r][c] else NO_VALUE);
        assert forall r :: 0 <= r < BOARD_SIZE ==> Snapshot(board)[r] == mBoard[r];
        var result: bool, count: int;
        ghost var calls;
        match mSolvers[i] {
          case BackTrackingSolver(solver) =>
            result, count, calls := solver.Solve(board);
          case ConstraintPropagationSolver =>
            result, count, calls := ConstraintPropagation.Solve(board);
        }
        if result {
          mBoard := Snapshot(board);
          return result, count, i;
        }
      }
      return false, 0, winner;
    }
  }
}
