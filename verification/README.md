# A verified model of cppsudoku

This project models the core of cppsudoku, a C++ Sudoku solver for 9x9 boards, in Dafny and
proves what that code promises. It covers:

- **Board types and codecs.** The grid constants and the board type (`SudokuTraits`). The
  character codecs `digitToValue`/`valueToDigit` (`Digit`) and their older twins
  `charToValue`/`valueToChar` (`SudokuUtil`).
- **Reading and writing.** The 81-value ASCII reader (`AsciiReader`). The seven board writers:
  line, block, pretty and JSON, plus the three earlier ones. Each writer is a class whose `out`
  string stands for the stream; each `write` is a nested loop proved to append exactly the
  format's text (`Writers`). That text is described piece by piece in `WriterFormats` and
  `WriterShape`, together with the round trip: reading back any writer's output gives the board.
- **The solvers.**
  - Norvig's constraint-propagation solver: the board structure of squares, units and peers
    (`BoardStructure`), the candidate map and its invariants (`Candidates`), and `eliminate`,
    `assign`, `search`, `parseGrid` and `solve` (`ConstraintPropagation`). `std::to_string`,
    used in its error messages, is in `Decimal`.
  - The in-place backtracking solver over a 9x9 array (`BackTracking`, with `SudokuRules`).
  - The `SudokuBoard` coordinator, which tries each solver on a fresh copy and keeps the first
    success.
- **Utilities.** The integer Newton square root (`ConstSqrt`), `RangeArray`, `RangeView`, and
  the `join`/`subrangeView`/`IntRange` helpers of both `StreamUtil.hpp` files (`StreamUtil`).
- **Command-line handling.** The option classes, old and new, with their conversions and
  validators (`CommandOptions`, `LegacyOptions`). The argv parse loop (`CommandLine`). The
  legacy parser's static checks (`LegacyCommandLine`).
- **Logging and test helpers.** The logger's level filter (`Logging`). The shell-escaping
  helpers of the acceptance-test runner (`CliRunner`).

Several things the program does are replaced by something the model can reason about:

- A C++ stream is modelled by the text written to it or left to read.
- An exception is modelled by an `Err`/`Fail` result carrying its message.
- The candidate map, which the solver passes by reference, is passed in and returned.
- `std::set`/`std::map` iteration order is modelled explicitly where the code depends on it.

## Model

| member | source | states |
|---|---|---|
| SudokuTraits.EmptyBoard | includes/SudokuTraits.hpp:39-43 | a value-initialised Board is 9x9 and every cell is NO_VALUE |
| SudokuTraits.TraitsConstants | includes/SudokuTraits.hpp:18-28 | BOX_SIZE squared is BOARD_SIZE; MAX_VALUE is BOARD_SIZE; NO_VALUE is 0 |
| SudokuTraits.TraitsRanges | includes/SudokuTraits.hpp:30-34 | INDEX_RANGE is exactly 0..8 in order and VALUE_RANGE exactly 1..9 in order |
| SudokuTraits.Flatten | includes/SudokuTraits.hpp:39-43 | the row-major sequence of a board has 81 cells and cell k is board[k/9][k%9] |
| SudokuTraits.UnflattenFlatten | includes/SudokuTraits.hpp:39-43 | rebuilding a board from its row-major cells gives the same board |
| SudokuTraits.Snapshot | includes/SudokuTraits.hpp:39-43 | the value of a 9x9 array board agrees with the array at every cell |
| SudokuTraits.CellNumber | includes/SudokuTraits.hpp:39-43 | cell (r, c) has row-major number k exactly when r = k/9 and c = k%9 |
| SudokuTraits.FlattenRows | includes/SudokuTraits.hpp:39-43 | the row-major sequence is the rows one after another |
| RangeArrays.RangeArrayMonotone | includes/RangeArray.hpp:13-17 | a positive step gives a strictly ascending array, a negative step a strictly descending one |
| RangeArrays.NineElementRanges | includes/RangeArray.hpp:35-39 | RangeArray<9>(0,1) is 0..8 and RangeArray<9>(1,1) is 1..9 |
| RangeViews.RangeView.Elements | includes/RangeView.hpp:43-46 | iterating a view visits end - begin elements, element i being container[begin + i] |
| RangeViews.MakeRangeView | includes/RangeView.hpp:63-69 | the view built from (from, to) visits exactly container[from..to] |
| RangeViews.EmptyView | includes/RangeView.hpp:63-69 | a view from i to i visits nothing |
| RangeViews.AdjacentViews | includes/RangeView.hpp:63-69 | views [a,b) and [b,c) together visit what [a,c) visits |
| RangeViews.WholeView | includes/RangeView.hpp:63-69 | the view from 0 to the size visits the whole container |
| RangeViews.ExampleViews | includes/RangeView.hpp:16-22 | {1,...,6} viewed from 2 to 5 visits 3, 4, 5 (and two more sample views) |
| StreamUtil.Join | Sudoku/StreamUtil.hpp:23-49 | join writes the first element, then the delimiter before each further element |
| StreamUtil.JoinSnoc | Sudoko/StreamUtil.hpp:42-45 | joining one more element appends the delimiter and that element |
| StreamUtil.SplitJoin | Sudoku/StreamUtil.hpp:23-49 | splitting join's text at a delimiter no element holds gives the elements back |
| StreamUtil.JoinSplit | Sudoku/StreamUtil.hpp:23-49 | joining the pieces of a split with the delimiter gives the text back |
| StreamUtil.SubrangeView | Sudoku/StreamUtil.hpp:57-72 | subrangeView(c, from, to) visits exactly c[from..to], the same view RangeView makes |
| StreamUtil.RangeArrayFill | Sudoku/StreamUtil.hpp:81-98 | the filled array's element i is start + i * step, the same array as RangeArray |
| StreamUtil.IntIterator.Increment | Sudoko/StreamUtil.hpp:83 | operator++ adds one to the iterator's value |
| StreamUtil.Elements | Sudoko/StreamUtil.hpp:76-104 | a range-for over IntRange(begin, end) visits begin, begin+1, ..., end-1 |
| ConstSqrt.TruncDiv | includes/ConstSqrt.hpp:20 | C++ integer division truncates toward zero |
| ConstSqrt.ConstSqrt | includes/ConstSqrt.hpp:12-24 | for number >= 0 the result r is the floor square root: r*r <= number < (r+1)*(r+1); for a negative number the loop never runs and the number is returned |
| ConstSqrt.StepStaysAbove | includes/ConstSqrt.hpp:20 | the Newton step never drops below a square root from below, so the estimate never reaches 0 |
| ConstSqrt.StepAboveRoot | includes/ConstSqrt.hpp:20 | every Newton estimate is at least the floor square root |
| ConstSqrt.StepDecreases | includes/ConstSqrt.hpp:17-21 | while the estimate's square exceeds the number the step strictly decreases it, so the loop ends |
| ConstSqrt.RootOfSquare | includes/ConstSqrt.hpp:9-12 | the floor square root of k*k is k |
| Digit.StringToValue | includes/Digit.hpp:52-59 | a string of length other than 1 reads as -1; a one-character string reads as that character |
| Digit.DigitsDecode | includes/Digit.hpp:26-30 | '.' reads as 0 and each digit as its value, on every board size |
| Digit.NineBoardRejectsOthers | includes/Digit.hpp:35-43 | on a 9x9 board every character but '.' and the digits reads as -1 |
| Digit.LettersDecode | includes/Digit.hpp:35-41 | on a board above 9, a letter of either case reads as 10 plus its place in the alphabet while that is at most the size, and as -1 beyond |
| Digit.SixteenBoardLetters | includes/Digit.hpp:35-41 | on a 16x16 board 'A' is 10, 'G' and 'g' are 16, and 'H' is -1 |
| Digit.DigitToValueRange | includes/Digit.hpp:24-44 | the result is -1 or a value between 0 and the larger of 9 and the size |
| Digit.ValueToDigitCases | includes/Digit.hpp:71-89 | 0..9 become '0'..'9'; on a board larger than 9, values 10..size up to 200 become 'A' + (v - 10) (from 201 on the 8-bit char wraps); everything else becomes '?' |
| Digit.DigitRoundTrip | includes/Digit.hpp:24-89 | reading back the character of a value 0..size gives the value (boards of size 9 to 41) |
| Digit.LowerCaseClash | includes/Digit.hpp:35-41 | on a 49x49 board value 42 is written 'a', which reads back as 10: the round trip stops at size 41 |
| SudokuUtil.CharToValueDigits | includes/SudokuUtil.hpp:31-49 | digits read as their value, '.' reads as -1, and otherwise charToValue agrees with digitToValue |
| SudokuUtil.CharToValueNineBoard | includes/SudokuUtil.hpp:34-48 | on a 9x9 board every non-digit reads as -1 |
| SudokuUtil.CharToValueLetters | includes/SudokuUtil.hpp:40-46 | on a board above 9 letters of either case read as 10.. up to the size, -1 beyond |
| SudokuUtil.ValueToCharAgrees | includes/SudokuUtil.hpp:62-80 | valueToChar gives the same character as valueToDigit for every size and value |
| SudokuUtil.CharRoundTrip | includes/SudokuUtil.hpp:31-80 | charToValue(valueToChar(v)) is v for 0 <= v <= size, on boards of size 9 to 41 |
| AsciiReader.CharValueIsDigitToValue | src/AsciiReader.cpp:30-33 | the value a character contributes is digitToValue<9> of it after '.' is turned into '0' |
| AsciiReader.Values | src/AsciiReader.cpp:28-38 | the values read are never more than the characters read |
| AsciiReader.ValuesInRange | src/AsciiReader.cpp:33-35 | every value read is between NO_VALUE and MAX_VALUE |
| AsciiReader.ValuesAppend | src/AsciiReader.cpp:28-38 | the values of two texts one after another are the values of each, in order |
| AsciiReader.ValuesPrefix | src/AsciiReader.cpp:28-38 | the values of a prefix of the input are a prefix of its values |
| AsciiReader.ConsumedValues | src/AsciiReader.cpp:28 | the characters read() consumes hold exactly the first 81 values |
| AsciiReader.ReadPlacement | src/AsciiReader.cpp:35-45 | read succeeds exactly when the input holds at least 81 values, fails with "Not enough values to fill the Sudoku board." otherwise, stores value k at board[k/9][k%9], and every cell is in 0..9 |
| AsciiReader.ReadIgnoresTail | src/AsciiReader.cpp:21-28 | once 81 values have been read, whatever follows has no effect on the board |
| AsciiReader.SkippedCharacter | src/AsciiReader.cpp:33-37 | deleting a character that is not a value from anywhere in the input does not change the result |
| AsciiReader.DotIsEmpty | src/AsciiReader.cpp:30-31 | '.' and '0' give the same result wherever they stand |
| AsciiReader.Place | src/AsciiReader.cpp:35 | the next value goes into the next cell in row-major order; later cells stay empty |
| AsciiReader.AsciiReader.constructor | src/AsciiReader.cpp:13-17 | the reader reads from the given stream |
| AsciiReader.AsciiReader.Read | src/AsciiReader.cpp:19-46 | read returns the board (or the error) the read specification gives for the stream, and consumes characters only up to the 81st value |
| SudokuRules.PlaceKeepsNoDuplicates | src/BackTrackingSolver.cpp:58-74 | writing a value no square of the row, column or box holds, or emptying a square, keeps the board free of duplicates |
| SudokuRules.PlaceKeepsInRange | src/BackTrackingSolver.cpp:64-71 | writing 0 or a value of 1..9 keeps every cell in 0..9 |
| BackTracking.Check | src/BackTrackingSolver.cpp:130-138 | check is true exactly when no element of the array equals the value |
| BackTracking.RowConstraint | src/BackTrackingSolver.cpp:78-81 | true exactly when no square of the row holds the value |
| BackTracking.ColumnConstraint | src/BackTrackingSolver.cpp:85-93 | true exactly when no square of the column holds the value |
| BackTracking.SectionConstraint | src/BackTrackingSolver.cpp:97-126 | true exactly when no square of the cell's 3x3 box holds the value |
| BackTracking.SectionIsBox | src/BackTrackingSolver.cpp:111-125 | the nine values copied from the box row by row are exactly the box's values |
| BackTracking.BoxIndex | src/BackTrackingSolver.cpp:115-122 | square (row, col) of the box lands at entry (row - startRow) * 3 + (col - startCol) of the copy |
| BackTracking.FirstEmptyFrom | src/BackTrackingSolver.cpp:33-37 | the scan finds the first empty square at or after k in row-major order, or reports none |
| BackTracking.FirstEmptyIs | src/BackTrackingSolver.cpp:33-37 | an empty square preceded only by filled squares is the one the scan stops at |
| BackTracking.FilledIsComplete | src/BackTrackingSolver.cpp:53 | a board with no empty square and all cells in range is complete |
| BackTracking.FewerEmpties | src/BackTrackingSolver.cpp:37-42 | filling an empty square while keeping the filled ones strictly shrinks the set of empty squares, the measure that makes the recursion end |
| BackTracking.KeepsTransitive | src/BackTrackingSolver.cpp:41-42 | what a solver() run keeps (givens, no duplicates, cells in range) carries over through nested runs |
| BackTracking.KeepsPlace | src/BackTrackingSolver.cpp:58-74 | one isValid() write into a square that was empty keeps the givens, and keeps the board free of duplicates and in range |
| BackTracking.BackTrackingSolver.constructor | src/BackTrackingSolver.cpp:14-16 | a new solver has made no recursions |
| BackTracking.BackTrackingSolver.Solve | src/BackTrackingSolver.cpp:20-25 | the count returned is the object's running total, never reset: the old total plus the solver() calls of this solve, at least one, and exactly one for a full board; the givens are kept; a true result on a duplicate-free board in range is a solution; a full board is returned unchanged with true |
| BackTracking.BackTrackingSolver.Solver | src/BackTrackingSolver.cpp:29-54 | counts one recursion per call: the counter grows by exactly the number of solver() calls made, this one and every one below it, so by one for a full board; a true result leaves no empty square; a full board gives true at once, unchanged; a false result leaves 0 or 9 in the first empty square; givens, freedom from duplicates and the range of cells are kept |
| BackTracking.BackTrackingSolver.TryValues | src/BackTrackingSolver.cpp:39-48 | trying 1..9 in turn with a recursive call after each accepted value: the counter grows by exactly the solver() calls those recursive calls make; true leaves no empty square; false leaves the square at 9 exactly when 9 passed the row, column and section checks on the board the last attempt found (its recursive call then failed), and otherwise at 0 with that board unchanged |
| BackTracking.BackTrackingSolver.IsValid | src/BackTrackingSolver.cpp:58-74 | true exactly when no square of the row, column or box holds the value; the square then holds the value, otherwise 0; no other square changes |
| SudokuBoard.SudokuBoard.constructor | src/SudokuBoard.cpp:16-21 | the board starts value-initialised (all empty) with the given reader, writer and solvers |
| SudokuBoard.SudokuBoard.Read | src/SudokuBoard.cpp:23-26 | the board becomes the reader's board; a reader error leaves the board as it was and carries the reader's message |
| SudokuBoard.SudokuBoard.Write | src/SudokuBoard.cpp:28-31 | the writer appends the text of the board in its own format |
| SudokuBoard.SudokuBoard.Solve | src/SudokuBoard.cpp:33-49 | when no solver succeeds (the list may be empty) the result is (false, 0) and the board is unchanged; on success the board keeps its givens and, when it was valid, becomes a solution, a solver of the list is the winner, the count returned is a back-tracking winner's own running count, and no back-tracking solver after the winner (and not also listed before it) is run |
| Candidates.AllSquares | src/ConstraintPropagationSolver.cpp:43-49 | the squares of the structure, in set order: 81 of them, entry k being (k/9, k%9) |
| Candidates.AllSquaresSorted | src/ConstraintPropagationSolver.cpp:21-22 | the listed squares are in strictly increasing (row, column) order, the order a std::set of squares iterates in |
| Candidates.Remove | src/ConstraintPropagationSolver.cpp:122 | erase-remove keeps exactly the elements other than the value |
| Candidates.RemoveSubseq | src/ConstraintPropagationSolver.cpp:122 | erase-remove deletes elements and keeps the order, and shortens a list holding the value |
| Candidates.SubseqTransitive | src/ConstraintPropagationSolver.cpp:122 | deleting elements twice is deleting elements once |
| Candidates.SubseqContained | src/ConstraintPropagationSolver.cpp:122 | a list with elements deleted is no longer and holds no new value |
| Candidates.SubseqDistinct | src/ConstraintPropagationSolver.cpp:122 | deleting elements keeps a list free of repeats |
| Candidates.ShrinksTransitive | src/ConstraintPropagationSolver.cpp:173-194 | candidates deleted in two steps are deleted in one |
| Candidates.ShrinksTotal | src/ConstraintPropagationSolver.cpp:109-171 | deleting candidates never raises the total count, and shortening one list lowers it: the measure that makes eliminate and assign end |
| Candidates.ShrinksLacks | src/ConstraintPropagationSolver.cpp:109-171 | a value a square has lost never comes back |
| Candidates.OnlyValue | src/ConstraintPropagationSolver.cpp:186-192 | a nonempty list without repeats whose every element is v is exactly [v] |
| Candidates.ShrinksWithinRange | src/ConstraintPropagationSolver.cpp:250-254 | a map whose lists are drawn from 1..9 in order stays so while candidates are deleted |
| Candidates.InRangeList | src/ConstraintPropagationSolver.cpp:250-254 | such a list has no repeats, at most nine elements, and only values 1..9 |
| Candidates.SettledShrinks | src/ConstraintPropagationSolver.cpp:130-139 | a square down to one value, with no peer holding it, stays so while other lists only lose candidates |
| Candidates.SoundCompose | src/ConstraintPropagationSolver.cpp:109-195 | two steps that leave every changed list nonempty and settled make one such step |
| Candidates.ConsistentKept | src/ConstraintPropagationSolver.cpp:109-195 | such a step keeps every single-valued square free of its value among its peers |
| Candidates.SolvedSquares | src/ConstraintPropagationSolver.cpp:206-209 | the solved test holds exactly when every square of the board has one value |
| BoardStructure.UnitsShape | src/ConstraintPropagationSolver.cpp:58-93 | every square has exactly three units, each of nine different squares of the board in set order, each holding the square itself |
| BoardStructure.InBoxUnit | src/ConstraintPropagationSolver.cpp:81-91 | the box unit of s is exactly the squares of the board in s's three rows and three columns |
| BoardStructure.UnitsCover | src/ConstraintPropagationSolver.cpp:58-93 | a square is in one of the units of s exactly when it shares a row, a column or a box with s |
| BoardStructure.UnitListMembers | src/ConstraintPropagationSolver.cpp:93 | the ordered unit lists hold exactly the squares of the row, the column and the box |
| BoardStructure.PeerListMembers | src/ConstraintPropagationSolver.cpp:66-94 | the peer list in set order holds exactly the squares other than s sharing a unit with it |
| BoardStructure.PeersAreUnitsWithoutSquare | src/ConstraintPropagationSolver.cpp:66-94 | the peers are the union of the three units with the square itself removed |
| BoardStructure.PeersSymmetric | src/ConstraintPropagationSolver.cpp:66-94 | q is a peer of p exactly when p is a peer of q |
| BoardStructure.PeersInRowCount | src/ConstraintPropagationSolver.cpp:63-91 | a square has 8 peers in its own row, 3 in each other row of its band and 1 in every other row |
| BoardStructure.PeerCountClosed | src/ConstraintPropagationSolver.cpp:63-91 | the row-by-row peer count, summed from row r on, in closed form |
| BoardStructure.PeersFromRowCount | src/ConstraintPropagationSolver.cpp:63-91 | the peers in rows r..8 number as many as the row-by-row count says |
| BoardStructure.TwentyPeers | src/ConstraintPropagationSolver.cpp:66-94 | every square has exactly 20 peers |
| BoardStructure.InAllSquares | src/ConstraintPropagationSolver.cpp:43-49 | the square loop produces exactly the 81 squares of the board |
| BoardStructure.CollectUnits | src/ConstraintPropagationSolver.cpp:56-94 | one pass of the constructor's square loop collects the row, column and box of the square, and the peers once the square itself is erased |
| BoardStructure.UnitsCollected | src/ConstraintPropagationSolver.cpp:93-94 | the three sets the loops build are the square's units, and their union without the square is its peers |
| BoardStructure.Structure.constructor | src/ConstraintPropagationSolver.cpp:38-96 | mSquares holds exactly the 81 squares; mUnits and mPeers have an entry for each, holding its three units and its peers |
| ConstraintPropagation.Places | src/ConstraintPropagationSolver.cpp:146-152 | the places for v in a unit are exactly the unit's squares whose list still holds v |
| ConstraintPropagation.CollectPlaces | src/ConstraintPropagationSolver.cpp:146-152 | the loop collects the places for v in unit order |
| ConstraintPropagation.RemoveStep | src/ConstraintPropagationSolver.cpp:122 | deleting a present value shortens the square's list and lowers the total count |
| ConstraintPropagation.SoundAfterPeers | src/ConstraintPropagationSolver.cpp:122-139 | after the delete and the peer loop, every changed list is nonempty and settled |
| ConstraintPropagation.SingleSettled | src/ConstraintPropagationSolver.cpp:130-139 | when eliminate leaves s one value w and succeeds, s still holds exactly w and no peer holds w |
| ConstraintPropagation.Eliminate | src/ConstraintPropagationSolver.cpp:109-171 | only deletes candidates; a value s does not hold leaves the map unchanged with true; a list left empty gives false; when v is a candidate of s and some unit of s has no other square holding v, the result is false; on success v is gone from s, every changed list is nonempty and settled, and a single value left at s is gone from every peer |
| ConstraintPropagation.PropagateToPeers | src/ConstraintPropagationSolver.cpp:130-139 | the peer loop only deletes candidates and, on success, no peer of s holds w |
| ConstraintPropagation.CheckPlaces | src/ConstraintPropagationSolver.cpp:144-168 | the unit loop only deletes candidates; a unit of s with no square holding v gives false; on success every changed list is nonempty and settled |
| ConstraintPropagation.CheckUnit | src/ConstraintPropagationSolver.cpp:146-168 | one unit: no place for v gives false and leaves the map alone; more than one place gives true and leaves it alone; exactly one place gets v assigned, and on success that square holds only v; only deletes candidates, and on success every changed list is nonempty and settled |
| ConstraintPropagation.PlacesStayEmpty | src/ConstraintPropagationSolver.cpp:144-158 | a unit with no place for v keeps none as the candidate lists shrink, so the later check still finds it empty |
| ConstraintPropagation.OnlyPlaceLeavesNone | src/ConstraintPropagationSolver.cpp:118-158 | deleting v from the only square of a unit that held it leaves the unit with no place for v |
| ConstraintPropagation.AssignLeaves | src/ConstraintPropagationSolver.cpp:180-192 | once every other value is deleted from s, s holds only v, and exactly [v] when its list had no repeats |
| ConstraintPropagation.Assign | src/ConstraintPropagationSolver.cpp:173-195 | only deletes candidates; on success s holds only v (exactly [v] for a list without repeats that held something), and v is gone from every peer when other values were deleted |
| ConstraintPropagation.MinIndex | src/ConstraintPropagationSolver.cpp:217-226 | min_element returns the first square, in set order, of least ranked size, a single-valued square ranking as SIZE_MAX |
| ConstraintPropagation.SingleKeySolved | src/ConstraintPropagationSolver.cpp:211-226 | search never branches on a single-valued square of an unsolved map: the least square is single-valued only when all are |
| ConstraintPropagation.Search | src/ConstraintPropagationSolver.cpp:197-241 | an empty map is returned as it is, uncounted; the count grows by exactly the search() calls on nonempty maps, this one and those below it, so by one for a solved map; a solved map is returned unchanged; a nonempty result is solved, has the same squares, and was reached by sound deletions |
| ConstraintPropagation.Find | src/ConstraintPropagationSolver.cpp:265-266 | the position of the first occurrence of a character, or the length |
| ConstraintPropagation.MessageTextSplits | src/ConstraintPropagationSolver.cpp:265-266 | the contradiction message splits back into the row, column and value texts |
| ConstraintPropagation.ContradictionMessageNames | src/ConstraintPropagationSolver.cpp:265-266 | two contradiction messages are equal only for the same square and value |
| ConstraintPropagation.AllCandidatesFacts | src/ConstraintPropagationSolver.cpp:250-254 | the starting map (1..9 everywhere) is within range, consistent and nonempty at every square |
| ConstraintPropagation.FixedKept | src/ConstraintPropagationSolver.cpp:259-269 | a square fixed to one value keeps it through later sound deletions, so earlier givens stay assigned |
| ConstraintPropagation.GivensStep | src/ConstraintPropagationSolver.cpp:259-269 | assigning the given of square k keeps the givens of the squares before it fixed |
| ConstraintPropagation.GivensLegal | src/ConstraintPropagationSolver.cpp:259-269 | a consistent map that fixes every given shows the givens are in range and free of duplicates |
| ConstraintPropagation.ParseGrid | src/ConstraintPropagationSolver.cpp:243-272 | on success every square of the board has a list within 1..9, the map is consistent, every given is its square's only candidate, and the givens are therefore legal; on failure the message is the contradiction message of a given square and its value |
| ConstraintPropagation.SolutionFromMap | src/ConstraintPropagationSolver.cpp:297-300 | reading off the single values of a solved, consistent map gives a solution that keeps every given |
| ConstraintPropagation.WrittenBack | src/ConstraintPropagationSolver.cpp:297-300 | once every square's value is written back, the board reads off the map |
| ConstraintPropagation.Solve | src/ConstraintPropagationSolver.cpp:282-310 | the count starts from 0 on every solve and is exactly the number of search() calls; true leaves a solution that keeps every given and at least one counted recursion; false leaves the board untouched; an illegal board gives false with no recursion |
| Decimal.NatToString | src/ConstraintPropagationSolver.cpp:265-266 | std::to_string of a natural number: digits only, nonempty, no leading zero |
| Decimal.IntToString | src/ConstraintPropagationSolver.cpp:265-266 | std::to_string of an int starts with '-' exactly when the number is negative |
| Decimal.NatRoundTrip | src/ConstraintPropagationSolver.cpp:265-266 | reading back the decimal text of a natural number gives the number |
| Decimal.IntRoundTrip | src/ConstraintPropagationSolver.cpp:265-266 | the text of an int is well formed and reads back as the number |
| Decimal.IntToStringInjective | src/ConstraintPropagationSolver.cpp:265-266 | different numbers have different texts |
| CommandOptions.ConvertBoolExamples | includes/CommandOption.hpp:152-156 | "1", "true" and "yes" convert to true; "", "0", "false" and "TRUE" to false |
| CommandOptions.TokenEnd | includes/CommandOption.hpp:171 | one getline call from a position stops at the first ',' at or after it, or at the end of the text |
| CommandOptions.ConvertList | includes/CommandOption.hpp:164-177 | the getline loop pushes exactly the comma-separated tokens of the argument, in order |
| CommandOptions.TokensFromSplit | includes/CommandOption.hpp:164-177 | the tokens read from a position are the comma-split pieces of the unread text, less an empty last piece |
| CommandOptions.TokensSplit | includes/CommandOption.hpp:164-177 | the tokens of the whole argument are its comma-split pieces, less an empty last piece |
| CommandOptions.TokensHaveNoComma | includes/CommandOption.hpp:171-174 | no token holds a comma |
| CommandOptions.TokensOfJoin | includes/CommandOption.hpp:164-177 | comma-free items joined with "," convert back to the items, when the last item is not empty |
| CommandOptions.TokensExamples | includes/CommandOption.hpp:164-177 | "a,b,c" gives a, b, c; the empty text gives nothing; a trailing comma adds no token and a leading one an empty token |
| CommandOptions.Converted | includes/CommandOption.hpp:203-214 | the value convertValue stores always has the option's type |
| CommandOptions.ValuesInChars | includes/CommandValidators.hpp:89-98 | ValuesIn over C strings builds a validator allowing exactly the given strings, in the given order |
| CommandOptions.CommandOption.constructor | includes/CommandOption.hpp:33-50 | a new option has the given flags and default, no value and no validator |
| CommandOptions.CommandOption.SetValidator | includes/CommandOption.hpp:179-183 | the validator is replaced and the value is kept |
| CommandOptions.CommandOption.Get | includes/CommandOption.hpp:222-232 | get succeeds exactly when a value or a default exists; the value wins over the default; otherwise the error is "No value set for option " and the long flag |
| CommandOptions.CommandOption.ConvertValue | includes/CommandOption.hpp:203-214 | the option becomes set to the converted argument (true for a flag, the text for a string, the tokens for a list), and get returns it |
| CommandOptions.CommandOption.IsValid | includes/CommandOption.hpp:194-201 | true without a validator; otherwise exactly the validator's verdict on the current value |
| CommandOptions.AcceptsScalar | includes/CommandValidators.hpp:38-57 | an unset option passes; a set one passes exactly when its value is among the allowed values |
| CommandOptions.AcceptsList | includes/CommandValidators.hpp:59-81 | an unset option passes; a set one passes exactly when every item is among the allowed values |
| LegacyOptions.Option.constructor | includes/Option.hpp:25-29 | a new option has the given flags and default and no value |
| LegacyOptions.Option.Get | includes/Option.hpp:128-138 | get succeeds exactly when a value or a default exists; the value wins; otherwise the "No value set" error naming the long flag |
| LegacyOptions.Option.ConvertValue | includes/Option.hpp:88-120 | a flag becomes true whatever the argument; a string option stores the argument; get then returns it |
| LegacyCommandLine.CommandLineParser.constructor | includes/CommandLineParser.h:74-78 | the parser keeps the options in the order given |
| LegacyCommandLine.CommandLineParser.AssertNotBoth | includes/CommandLineParser.h:80-89 | fails exactly when both options are set, with the "Cannot combine" message naming both |
| LegacyCommandLine.CommandLineParser.AssertRequires | includes/CommandLineParser.h:91-100 | fails exactly when the first option is set and the second is not, with the "requires" message naming both |
| LegacyCommandLine.CommandLineParser.AssertValueIn | includes/CommandLineParser.h:102-121 | fails exactly when the option is set to a value outside the allowed set; the message names the option and the value and lists the allowed values quoted and comma-separated in set order |
| LegacyCommandLine.SetOrderDistinct | includes/CommandLineParser.h:102-121 | the allowed values, held in a std::set, are listed with no value twice |
| LegacyCommandLine.AllowedListed | includes/CommandLineParser.h:110-118 | splitting the message's list at its commas gives back every allowed value quoted, in order (when no value holds a comma) |
| CommandLine.MatchIndex | src/CommandLineParser.cpp:18-27 | the first registered option that matches the argument, -1 exactly when none does |
| CommandLine.Run | src/CommandLineParser.cpp:15-51 | every conversion the parse loop performs names a registered option |
| CommandLine.RunUnknown | src/CommandLineParser.cpp:29-33 | arguments no option matches cause no conversion and no failure |
| CommandLine.RunShift | src/CommandLineParser.cpp:15-51 | the loop from argument i depends only on the arguments from i on |
| CommandLine.RunSkipsUnknown | src/CommandLineParser.cpp:29-33 | an unknown argument where parsing resumes has no effect: conversions and outcome are those of the command line without it |
| CommandLine.RunLength | src/CommandLineParser.cpp:15-51 | each argument is handled once: at most one conversion per argument |
| CommandLine.RunAt | src/CommandLineParser.cpp:29-45 | from argument i the loop skips an unknown argument, fails with "Expected value after" when a value is missing, converts with the next argument, or converts a flag with "" |
| CommandLine.CommandLineParser.constructor | includes/CommandLineParser.hpp:44-48 | the parser keeps the options in the order given |
| CommandLine.CommandLineParser.FindOption | src/CommandLineParser.cpp:18-27 | the inner loop stops at the first matching option, or reports none |
| CommandLine.CommandLineParser.Parse | src/CommandLineParser.cpp:11-54 | the options end at the value of their last conversion (validators unchanged); the result is the missing-value error when one is missing, else true exactly when every conversion left its option valid |
| CommandLine.CommandLineParser.ParseArgument | src/CommandLineParser.cpp:17-50 | one turn of the loop performs the conversions Run prescribes for argument i and folds the validity of the converted option into the result |
| CommandLine.Convert | src/CommandLineParser.cpp:40-44 | the chosen option is set to the converted text, and every option still holds what the conversions so far, this one included, made of its initial value |
| Logging.RankOrder | includes/Logger.hpp:20-34 | Quiet < Normal < Verbose by their values, and the values are distinct |
| Logging.QuietWritesNothing | src/Logger.cpp:32-35 | a Quiet logger writes nothing, whatever is streamed into it |
| Logging.ValuesUnderOneLevel | includes/Logger.hpp:103-109 | values streamed without manipulators are all written or all dropped, by the level in force, and the level stays |
| Logging.VerboseLine | src/Logger.cpp:16-38 | a line at the verbose level is written by a Verbose logger and dropped by a Normal one; either way the level is back at the default afterwards |
| Logging.FeedAppend | includes/Logger.hpp:74-91 | streaming a chain of items is streaming its first part and then the rest |
| Logging.Logger.constructor | src/Logger.cpp:10-14 | a new logger is at its default level and has written nothing |
| Logging.Logger.Default | includes/Logger.hpp:60 | the default logger is at level Normal and has written nothing |
| Logging.Logger.PutLevel | src/Logger.cpp:16-20 | a level manipulator sets the current level and writes nothing |
| Logging.Logger.PutManipulator | src/Logger.cpp:22-30 | a standard manipulator is written when the logger should print, and the level returns to the default |
| Logging.Logger.Put | includes/Logger.hpp:103-109 | a value is written exactly when the logger should print; the level is unchanged |
| CliRunner.EscapeShellArg | tests/acceptance/CliRunner.hpp:39-49 | the argument between single quotes, each single quote inside written as '\'' |
| CliRunner.EscapeShellArgLength | tests/acceptance/CliRunner.hpp:39-49 | the result is as long as the argument plus two, plus three for each single quote |
| CliRunner.ShellReadsEscaped | tests/acceptance/CliRunner.hpp:39-49 | a POSIX shell reads the escaped argument back as the original argument, whatever it holds |
| CliRunner.EscapeQuotes | tests/acceptance/CliRunner.hpp:51-59 | every double quote gets a backslash before it; every other character is copied |
| CliRunner.EscapeCharsIdentity | tests/acceptance/CliRunner.hpp:51-59 | a text without a double quote is left as it is |
| CliRunner.UnescapeEscaped | tests/acceptance/CliRunner.hpp:51-59 | removing the backslash of every \" pair gives the input back |
| CliRunner.EscapeQuotesShellGap | tests/acceptance/CliRunner.hpp:51-59 | backslashes are not escaped: the input backslash-quote is written as backslash-backslash-quote, which a shell reads inside double quotes as a lone backslash |
| CliRunner.FindFrom | tests/acceptance/CliRunner.hpp:124-127 | std::string::find: the first index at or after the start where the pattern occurs, or -1 exactly when there is none |
| CliRunner.CliRunner.OutputContains | tests/acceptance/CliRunner.hpp:124-127 | true exactly when the text occurs somewhere in the captured output |
| WriterFormats.CellPieces | src/BlockWriter.cpp:29-37 | one piece per column of the row, nine in all, piece c being what the writer emits for cell c |
| WriterFormats.RowTexts | src/BlockWriter.cpp:22-40 | one text per row of the board, nine in all, text r being row r's heading, cells and tail |
| WriterFormats.CellCharReadsBack | includes/Digit.hpp:24-89 | the character printed for a cell value 0..9, in every format, reads back as that value |
| WriterFormats.CellPieceReadsBack | src/PrettyWriter.cpp:28-38 | the text written for one cell, separators included, reads back as exactly the cell's value |
| WriterFormats.FramingHasNoValues | src/PrettyWriter.cpp:23-26 | the row headings, row tails, box rules and JSON brackets contribute no value to the reader |
| WriterFormats.RowReadsBack | src/JsonWriter.cpp:24-34 | each row's text reads back as the row of the board |
| WriterFormats.RowsReadBack | src/BlockWriter.cpp:20-41 | the rows together read back as the board in row-major order |
| WriterFormats.TextReadsBack | src/JsonWriter.cpp:20-37 | every format's text reads back as the 81 values of the board in row-major order |
| WriterFormats.WriteThenRead | src/AsciiReader.cpp:19-46 | reading what any of the seven writers wrote gives the board back, for boards of values 0..9 |
| WriterFormats.LegacyLineIsLine | src/SudokuLineWriter.cpp:12-21 | the earlier line writer prints exactly what the line writer prints |
| WriterFormats.LineIsOneLine | src/LineWriter.cpp:18-27 | the line format is one line of 162 characters, a character and a space per cell |
| Writers.LineWriter.constructor | src/LineWriter.cpp:13-16 | a new writer has written nothing |
| Writers.LineWriter.Write | src/LineWriter.cpp:18-27 | the stream gains exactly the line text of the board |
| Writers.BlockWriter.constructor | src/BlockWriter.cpp:15-18 | a new writer has written nothing |
| Writers.BlockWriter.Write | src/BlockWriter.cpp:20-41 | the stream gains exactly the block text of the board |
| Writers.PrettyWriter.constructor | src/PrettyWriter.cpp:14-17 | a new writer has written nothing |
| Writers.PrettyWriter.Write | src/PrettyWriter.cpp:19-42 | the stream gains exactly the pretty text of the board |
| Writers.JsonWriter.constructor | src/JsonWriter.cpp:15-18 | a new writer has written nothing |
| Writers.JsonWriter.Write | src/JsonWriter.cpp:20-37 | the stream gains exactly the JSON text of the board |
| Writers.SudokuLineWriter.constructor | src/SudokuLineWriter.cpp:8-10 | a new writer has written nothing |
| Writers.SudokuLineWriter.Write | src/SudokuLineWriter.cpp:12-21 | the stream gains exactly the earlier line text of the board |
| Writers.SudokuBlockWriter.constructor | src/SudokuBlockWriter.cpp:10-12 | a new writer has written nothing |
| Writers.SudokuBlockWriter.Write | src/SudokuBlockWriter.cpp:14-35 | the stream gains exactly the earlier block text of the board |
| Writers.SudokuPrettyWriter.constructor | src/SudokuPrettyWriter.cpp:9-11 | a new writer has written nothing |
| Writers.SudokuPrettyWriter.Write | src/SudokuPrettyWriter.cpp:13-36 | the stream gains exactly the earlier pretty text of the board |
| WriterShape.CellHasNoNewline | src/BlockWriter.cpp:29-37 | no cell text, in any format, holds a newline |
| WriterShape.RowHasLines | src/PrettyWriter.cpp:21-41 | a row ends one line, and in the block and pretty layouts rows 3 and 6 also start one; JSON rows take one line, the line formats none |
| WriterShape.FramingLines | src/PrettyWriter.cpp:23-40 | the newlines of a row's heading and tail are the row's line count |
| WriterShape.RowsLines | src/BlockWriter.cpp:22-40 | the first k rows hold the sum of their line counts |
| WriterShape.NineRowsLines | src/BlockWriter.cpp:22-40 | the nine rows take 11 lines in the block and pretty layouts, 9 in JSON and none in the line formats |
| WriterShape.HeadFootLines | src/JsonWriter.cpp:22-36 | only JSON writes lines around the rows: one for each outer bracket |
| WriterShape.TextLines | src/JsonWriter.cpp:20-37 | every multi-line format writes 11 lines; the line formats write none |
| WriterShape.JsonFramed | src/JsonWriter.cpp:22-36 | the JSON text opens the outer array on its own line and closes it on the last line |
| WriterShape.JsonRow | src/JsonWriter.cpp:26-33 | each JSON row is an indented bracketed line, ending "]," exactly when it is not the last row |
| WriterShape.CellHasOneDigit | src/LineWriter.cpp:24 | in the formats that print an empty cell as '0', a cell of value 0..9 is exactly one digit among separators |
| WriterShape.FramingDigits | src/JsonWriter.cpp:26-33 | the row headings and tails of those formats hold no digit |
| WriterShape.RowHasDigits | src/JsonWriter.cpp:26-33 | a row holds exactly the nine digits of its cells |
| WriterShape.BodyDigits | src/BlockWriter.cpp:22-40 | the nine rows hold 81 digits |
| WriterShape.TextDigits | src/JsonWriter.cpp:20-37 | the line, block and JSON texts (current and earlier writers) hold exactly 81 digits for boards of values 0..9 |

## Left out

- Digit.DigitRoundTrip: stated for boards of size 9 to 41 only. From size 42 on, `valueToDigit` writes value 42 as 'a', which `digitToValue` reads back as 10. `Digit.LowerCaseClash` exhibits this, so the round trip claimed for every size does not hold as written.
- SudokuUtil.CharRoundTrip: stated for boards of size 9 to 41 only, for the same reason.
- SudokuBoard.SudokuBoard.Solve: the board kept after a success is described by what every solver guarantees (it extends the givens, and is a solution when the givens are legal). It is not stated to be literally the board of the first successful solver, nor that every solver before the winner failed; for a constraint-propagation winner the count is stated only to be at least one.
- ConstraintPropagation.Search: requires every candidate list to be drawn from 1..9 in increasing order. Every map `solve` hands it is built that way by `parseGrid`, but the C++ function accepts any map.
- ConstraintPropagation.Assign: not proved on the concrete example that assigning 1 to (0,0) leaves (8,8) with all nine candidates. The general contract is proved instead: assign only deletes candidates, and on success, when the square held other values too, v is gone from every peer.
- ConstraintPropagation.Eliminate: the rule "a unit with one place left for v assigns v there" is modelled, but the contract does not state that this place ends up holding only v; it states that eliminate deletes candidates and stays sound. ConstraintPropagation.CheckUnit states it for one unit.
- ConstraintPropagation.CheckPlaces: as for Eliminate, the contract does not state that the single place of a unit, once v is assigned there, holds only v: that fact is not carried through the later rounds of the unit loop.
- BackTracking.BackTrackingSolver.Solver: completeness is not claimed. The code leaves a stale 9 in a cell whose subtree failed, so it can miss solutions.
- `std::map::operator[]` inserting an empty list for a missing key is not modelled. Every operation keeps the map's keys, and `parseGrid` builds all 81.
- The exact texts that the writer unit tests expect for their sample board are not restated as concrete equalities. The piecewise text definition, the line counts, the digit count, the JSON framing and the read-back round trip cover what those texts check.
- Output to `std::cerr` (unknown options, validator complaints) is not modelled.
- The cancel flag, concurrency and timing are not modelled. That covers the atomic flag passed to solvers, `CallTime` and `main.cpp`.
- `JsonReader`, `FileStream` and `SudokuFileReader` are not part of this model; they are file and format I/O outside the core.
- CliRunner::run is not modelled: it starts a process through `popen`. CliRunner::countOutputMatches is not modelled either: it uses `std::regex`.
- The validators are modelled only as `ValuesIn` over strings, the one validator the program defines.
- Object identity and aliasing of `ICommandOption*` are modelled by Dafny object references. An option registered twice is not treated specially.
- `Logger::isVerbose` is declared in the header but its definition is not part of this model. It is modelled, from its documentation, as "the default level is Verbose".
- The logger's target stream (std::clog in the header default, std::cout in the constructor) is not distinguished: both are the logger's `out` text.
- The legacy `CommandLineParser::parse` of `includes/CommandLineParser.h` is declared without a definition there, so only its constructor and static checks are modelled.
- `std::set<std::string>` in `assertValueIn` is modelled as a strictly increasing sequence. Characters are compared by code point, as `std::string`'s `operator<` does for ASCII.
- `BackTrackingSolver.cpp` uses `Traits::SUBSECTION_SIZE`, which the traits header shown does not define. It is taken to be the box size, 3.
- `src/SudokuAsciiReader.cpp` has the same loop as `src/AsciiReader.cpp` and is modelled once. The two `join`/`subrangeView` copies in `Sudoku/StreamUtil.hpp` and `Sudoko/StreamUtil.hpp` are also modelled once.
- 32-bit `int` overflow is not modelled: every count, index and value stays far below 2^31 on a 9x9 board. Recursion counters are unbounded integers.
- `SIZE_MAX` is taken as 2^64 - 1, a 64-bit target.
