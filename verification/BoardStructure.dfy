/**
 * The static board topology of src/ConstraintPropagationSolver.cpp (struct BoardStructure): the
 * 81 squares, the three units (row, column, box) of every square and its peers. The solver
 * iterates std::sets of squares, whose order is the row-major order; the unit and peer lists
 * below are those sets in that order.
 */
module BoardStructure {
  import opened SudokuTraits
  import opened SudokuRules
  import opened Candidates

  /** Strictly increasing in the order of squares: how a std::set<Square> is iterated. */
  predicate Increasing(q: seq<Square>)
  {
    forall i, j :: 0 <= i < j < |q| ==> Before(q[i], q[j])
  }

  function RowUnit(s: Square): seq<Square>
  {
    seq(BOARD_SIZE, c requires 0 <= c < BOARD_SIZE => (s.0, c))
  }

  function ColumnUnit(s: Square): seq<Square>
  {
    seq(BOARD_SIZE, r requires 0 <= r < BOARD_SIZE => (r, s.1))
  }

  function BoxUnit(s: Square): seq<Square>
  {
    var boxRowStart := (s.0 / BOX_SIZE) * BOX_SIZE;
    var boxColStart := (s.1 / BOX_SIZE) * BOX_SIZE;
    seq(BOARD_SIZE, i requires 0 <= i < BOARD_SIZE => (boxRowStart + i / BOX_SIZE, boxColStart + i % BOX_SIZE))
  }

  /** mUnits[square]: the row, the column and the box of the square, in that order. */
  function UnitList(s: Square): seq<seq<Square>>
  {
    [RowUnit(s), ColumnUnit(s), BoxUnit(s)]
  }

  /** The peers (r, c') of s with c <= c' < 9, in column order. */
  function Cols(s: Square, r: int, c: int): seq<Square>
    requires 0 <= c <= BOARD_SIZE
    decreases BOARD_SIZE - c
  {
    if c == BOARD_SIZE then []
    else if IsPeer(s, (r, c)) then [(r, c)] + Cols(s, r, c + 1)
    else Cols(s, r, c + 1)
  }

  /** The peers of s in rows r .. 8, in row-major order. */
  function Rows(s: Square, r: int): seq<Square>
    requires 0 <= r <= BOARD_SIZE
    decreases BOARD_SIZE - r
  {
    if r == BOARD_SIZE then [] else Cols(s, r, 0) + Rows(s, r + 1)
  }

  /** mPeers.at(square) in iteration order. */
  function PeerList(s: Square): seq<Square>
  {
    Rows(s, 0)
  }

  /** Each unit holds nine different squares of the board, in set order, and holds s itself. */
  lemma UnitsShape(s: Square)
    requires OnBoard(s)
    ensures |UnitList(s)| == 3
    ensures forall u :: 0 <= u < 3 ==>
      (|UnitList(s)[u]| == BOARD_SIZE && Increasing(UnitList(s)[u]) && s in UnitList(s)[u] &&
       forall i :: 0 <= i < BOARD_SIZE ==> OnBoard(UnitList(s)[u][i]))
  {
    var br, bc := (s.0 / BOX_SIZE) * BOX_SIZE, (s.1 / BOX_SIZE) * BOX_SIZE;
    var k := (s.0 - br) * BOX_SIZE + (s.1 - bc);
    assert k / BOX_SIZE == s.0 - br && k % BOX_SIZE == s.1 - bc;
    assert BoxUnit(s)[k] == s;
    assert RowUnit(s)[s.1] == s && ColumnUnit(s)[s.0] == s;
    forall i, j | 0 <= i < j < BOARD_SIZE ensures Before(BoxUnit(s)[i], BoxUnit(s)[j]) {
      NumberOrderBox(i, j);
    }
  }

  lemma NumberOrderBox(i: int, j: int)
    requires 0 <= i < j
    ensures Before((i / BOX_SIZE, i % BOX_SIZE), (j / BOX_SIZE, j % BOX_SIZE))
  {
    var qi, ri, qj, rj := i / BOX_SIZE, i % BOX_SIZE, j / BOX_SIZE, j % BOX_SIZE;
    assert i == qi * BOX_SIZE + ri && j == qj * BOX_SIZE + rj;
    assert qi <= qj;
  }

  lemma InBoxUnit(s: Square, p: Square)
    requires OnBoard(s)
    ensures p in BoxUnit(s) <==> OnBoard(p) && p.0 / BOX_SIZE == s.0 / BOX_SIZE && p.1 / BOX_SIZE == s.1 / BOX_SIZE
  {
    var br, bc := (s.0 / BOX_SIZE) * BOX_SIZE, (s.1 / BOX_SIZE) * BOX_SIZE;
    if p in BoxUnit(s) {
      var i :| 0 <= i < BOARD_SIZE && BoxUnit(s)[i] == p;
      assert p == (br + i / BOX_SIZE, bc + i % BOX_SIZE);
    }
    if OnBoard(p) && p.0 / BOX_SIZE == s.0 / BOX_SIZE && p.1 / BOX_SIZE == s.1 / BOX_SIZE {
      var k := (p.0 - br) * BOX_SIZE + (p.1 - bc);
      assert k / BOX_SIZE == p.0 - br && k % BOX_SIZE == p.1 - bc;
      assert BoxUnit(s)[k] == p;
    }
  }

  /** A square of the board lies in one of the units of s exactly when it shares a unit with s. */
  lemma UnitsCover(s: Square, p: Square)
    requires OnBoard(s)
    ensures (p in RowUnit(s) || p in ColumnUnit(s) || p in BoxUnit(s)) <==> OnBoard(p) && SameUnit(s.0, s.1, p.0, p.1)
  {
    InBoxUnit(s, p);
    if OnBoard(p) && p.0 == s.0 {
      assert RowUnit(s)[p.1] == p;
    }
    if OnBoard(p) && p.1 == s.1 {
      assert ColumnUnit(s)[p.0] == p;
    }
  }

  /** The ordered unit lists hold the squares of the corresponding unit sets. */
  lemma UnitListMembers(s: Square, u: int, p: Square)
    requires OnBoard(s) && 0 <= u < 3
    ensures p in UnitList(s)[u] <==> InUnit(u, s, p)
  {
    if u == 0 {
      if InUnit(u, s, p) {
        assert RowUnit(s)[p.1] == p;
      }
    } else if u == 1 {
      if InUnit(u, s, p) {
        assert ColumnUnit(s)[p.0] == p;
      }
    } else {
      InBoxUnit(s, p);
    }
  }

  /** Every square of a comes before every square of b. */
  predicate AllBefore(a: seq<Square>, b: seq<Square>)
  {
    forall i, j :: 0 <= i < |a| && 0 <= j < |b| ==> Before(a[i], b[j])
  }

  /** Joining two lists in set order, the first wholly before the second, keeps set order. */
  lemma IncreasingConcat(a: seq<Square>, b: seq<Square>)
    requires Increasing(a) && Increasing(b)
    requires AllBefore(a, b)
    ensures Increasing(a + b)
  {
    forall i, j | 0 <= i < j < |a + b| ensures Before((a + b)[i], (a + b)[j]) {
      if j < |a| {
        assert (a + b)[i] == a[i] && (a + b)[j] == a[j];
      } else if i < |a| {
        assert (a + b)[i] == a[i] && (a + b)[j] == b[j - |a|];
      } else {
        assert (a + b)[i] == b[i - |a|] && (a + b)[j] == b[j - |a|];
      }
    }
  }

  lemma {:induction false} InCols(s: Square, r: int, c: int, p: Square)
    requires 0 <= c <= BOARD_SIZE
    ensures p in Cols(s, r, c) <==> p.0 == r && c <= p.1 < BOARD_SIZE && IsPeer(s, p)
    decreases BOARD_SIZE - c
  {
    if c < BOARD_SIZE {
      InCols(s, r, c + 1, p);
      assert Cols(s, r, c) == (if IsPeer(s, (r, c)) then [(r, c)] else []) + Cols(s, r, c + 1);
      if p == (r, c) {
        assert p in Cols(s, r, c) <==> IsPeer(s, p);
      } else {
        assert p in Cols(s, r, c) <==> p in Cols(s, r, c + 1);
      }
    } else {
      assert Cols(s, r, c) == [];
    }
  }

  lemma {:induction false} ColsIncreasing(s: Square, r: int, c: int)
    requires 0 <= c <= BOARD_SIZE
    ensures Increasing(Cols(s, r, c))
    decreases BOARD_SIZE - c
  {
    if c < BOARD_SIZE {
      ColsIncreasing(s, r, c + 1);
      var rest := Cols(s, r, c + 1);
      if IsPeer(s, (r, c)) {
        forall j | 0 <= j < |rest| ensures Before((r, c), rest[j]) {
          assert rest[j] in rest;
          InCols(s, r, c + 1, rest[j]);
        }
        IncreasingConcat([(r, c)], rest);
      }
    }
  }

  lemma {:induction false} RowsStep(s: Square, r: int, p: Square)
    requires 0 <= r < BOARD_SIZE
    ensures p in Rows(s, r) <==> p in Cols(s, r, 0) || p in Rows(s, r + 1)
  {
    assert Rows(s, r) == Cols(s, r, 0) + Rows(s, r + 1);
  }

  lemma {:induction false} InRows(s: Square, r: int, p: Square)
    requires 0 <= r <= BOARD_SIZE
    ensures p in Rows(s, r) <==> r <= p.0 < BOARD_SIZE && 0 <= p.1 < BOARD_SIZE && IsPeer(s, p)
    decreases BOARD_SIZE - r
  {
    if r < BOARD_SIZE {
      InCols(s, r, 0, p);
      InRows(s, r + 1, p);
      RowsStep(s, r, p);
    } else {
      assert Rows(s, r) == [];
    }
  }

  lemma {:induction false} RowPrecedesLaterRows(s: Square, r: int)
    requires 0 <= r < BOARD_SIZE
    ensures AllBefore(Cols(s, r, 0), Rows(s, r + 1))
  {
    var a, b := Cols(s, r, 0), Rows(s, r + 1);
    forall i, j | 0 <= i < |a| && 0 <= j < |b| ensures Before(a[i], b[j]) {
      RowBeforeLaterRow(s, r, a[i], b[j]);
    }
  }

  lemma {:induction false} RowBeforeLaterRow(s: Square, r: int, p: Square, q: Square)
    requires 0 <= r < BOARD_SIZE
    requires p in Cols(s, r, 0) && q in Rows(s, r + 1)
    ensures Before(p, q)
  {
    ColsInRow(s, r, p);
    RowsFromRow(s, r + 1, q);
  }

  lemma {:induction false} ColsInRow(s: Square, r: int, p: Square)
    requires p in Cols(s, r, 0)
    ensures p.0 == r
  {
    InCols(s, r, 0, p);
  }

  lemma {:induction false} RowsFromRow(s: Square, r: int, q: Square)
    requires 0 <= r <= BOARD_SIZE && q in Rows(s, r)
    ensures r <= q.0
  {
    InRows(s, r, q);
  }

  lemma {:induction false} RowsIncreasing(s: Square, r: int)
    requires 0 <= r <= BOARD_SIZE
    ensures Increasing(Rows(s, r))
    decreases BOARD_SIZE - r
  {
    if r < BOARD_SIZE {
      ColsIncreasing(s, r, 0);
      RowsIncreasing(s, r + 1);
      RowPrecedesLaterRows(s, r);
      IncreasingConcat(Cols(s, r, 0), Rows(s, r + 1));
      assert Rows(s, r) == Cols(s, r, 0) + Rows(s, r + 1);
    } else {
      assert Rows(s, r) == [];
    }
  }

  /** The peers of s, in set order, are exactly the squares of the board sharing a unit with s. */
  lemma PeerListMembers(s: Square)
    ensures forall p :: p in PeerList(s) <==> IsPeer(s, p)
    ensures Increasing(PeerList(s))
  {
    forall p ensures p in PeerList(s) <==> IsPeer(s, p) {
      InRows(s, 0, p);
    }
    RowsIncreasing(s, 0);
  }

  /** The peers are the union of the three units without the square itself. */
  lemma PeersAreUnitsWithoutSquare(s: Square, p: Square)
    requires OnBoard(s)
    ensures p in PeerList(s) <==> p != s && (p in RowUnit(s) || p in ColumnUnit(s) || p in BoxUnit(s))
  {
    InRows(s, 0, p);
    UnitsCover(s, p);
  }

  /** Each entry of the peer list is a peer of s. */
  lemma PeerListEntries(s: Square)
    ensures forall j :: 0 <= j < |PeerList(s)| ==> IsPeer(s, PeerList(s)[j])
  {
    PeerListMembers(s);
  }

  /** Being peers is symmetric. */
  lemma PeersSymmetric(s: Square, p: Square)
    requires p in PeerList(s)
    ensures s in PeerList(p)
  {
    InRows(s, 0, p);
    InRows(p, 0, s);
  }

  /** The number of columns from c on inside [lo, hi). */
  function Overlap(lo: int, hi: int, c: int): int
  {
    if c <= lo then hi - lo else if c < hi then hi - c else 0
  }

  /** A row whose peers of s are exactly the columns of [lo, hi). */
  lemma {:induction false} ColsCountInterval(s: Square, r: int, c: int, lo: int, hi: int)
    requires 0 <= c <= BOARD_SIZE && 0 <= lo <= hi <= BOARD_SIZE
    requires forall j :: 0 <= j < BOARD_SIZE ==> (IsPeer(s, (r, j)) <==> lo <= j < hi)
    ensures |Cols(s, r, c)| == Overlap(lo, hi, c)
    decreases BOARD_SIZE - c
  {
    if c < BOARD_SIZE {
      ColsCountInterval(s, r, c + 1, lo, hi);
    }
  }

  /** A row whose peers of s are all columns but x. */
  lemma {:induction false} ColsCountAllBut(s: Square, r: int, c: int, x: int)
    requires 0 <= c <= BOARD_SIZE && 0 <= x < BOARD_SIZE
    requires forall j :: 0 <= j < BOARD_SIZE ==> (IsPeer(s, (r, j)) <==> j != x)
    ensures |Cols(s, r, c)| == (BOARD_SIZE - c) - (if c <= x then 1 else 0)
    decreases BOARD_SIZE - c
  {
    if c < BOARD_SIZE {
      ColsCountAllBut(s, r, c + 1, x);
    }
  }

  /** How many peers of s lie in row r: 8 in its own row, 3 in the other rows of its band, 1 elsewhere. */
  function RowPeerCount(s: Square, r: int): int
  {
    if r == s.0 then BOARD_SIZE - 1 else if r / BOX_SIZE == s.0 / BOX_SIZE then BOX_SIZE else 1
  }

  lemma PeersInRowCount(s: Square, r: int)
    requires OnBoard(s) && 0 <= r < BOARD_SIZE
    ensures |Cols(s, r, 0)| == RowPeerCount(s, r)
  {
        if r == s.0 {
      ColsCountAllBut(s, r, 0, s.1);
    } else if r / BOX_SIZE == s.0 / BOX_SIZE {
      var bc := (s.1 / BOX_SIZE) * BOX_SIZE;
      forall j | 0 <= j < BOARD_SIZE ensures IsPeer(s, (r, j)) <==> bc <= j < bc + BOX_SIZE {
        SameBox(j, s.1);
      }
      ColsCountInterval(s, r, 0, bc, bc + BOX_SIZE);
    } else {
      ColsCountInterval(s, r, 0, s.1, s.1 + 1);
    }
  }

  /** Column c lies in the band of three columns holding column x. */
  lemma SameBox(c: int, x: int)
    requires 0 <= x
    ensures c / BOX_SIZE == x / BOX_SIZE <==> (x / BOX_SIZE) * BOX_SIZE <= c < (x / BOX_SIZE) * BOX_SIZE + BOX_SIZE
  {
  }

  /** How many peers of s lie in rows r .. 8, row by row. */
  function PeerCountFrom(s: Square, r: int): int
    requires 0 <= r <= BOARD_SIZE
    decreases BOARD_SIZE - r
  {
    if r == BOARD_SIZE then 0 else RowPeerCount(s, r) + PeerCountFrom(s, r + 1)
  }

  /** The row-by-row count in closed form: one per row, two more per other row of the band, five more in the row of s. */
  lemma {:induction false} PeerCountClosed(s: Square, r: int)
    requires OnBoard(s) && 0 <= r <= BOARD_SIZE
    ensures var br := (s.0 / BOX_SIZE) * BOX_SIZE;
      PeerCountFrom(s, r) == (BOARD_SIZE - r) + 2 * Overlap(br, br + BOX_SIZE, r) + (if r <= s.0 then BOARD_SIZE - 1 - BOX_SIZE else 0)
    decreases BOARD_SIZE - r
  {
    SameBox(s.0, s.0);
    if r < BOARD_SIZE {
      PeerCountClosed(s, r + 1);
      SameBox(r, s.0);
    }
  }

  lemma {:induction false} PeersFromRowCount(s: Square, r: int)
    requires OnBoard(s) && 0 <= r <= BOARD_SIZE
    ensures |Rows(s, r)| == PeerCountFrom(s, r)
    decreases BOARD_SIZE - r
  {
    if r == BOARD_SIZE {
      NoRowsLeft(s);
    } else {
      PeersFromRowCount(s, r + 1);
      PeersFromRowStep(s, r);
    }
  }

  lemma NoRowsLeft(s: Square)
    ensures |Rows(s, BOARD_SIZE)| == PeerCountFrom(s, BOARD_SIZE) == 0
  {
  }

  lemma PeersFromRowStep(s: Square, r: int)
    requires OnBoard(s) && 0 <= r < BOARD_SIZE
    requires |Rows(s, r + 1)| == PeerCountFrom(s, r + 1)
    ensures |Rows(s, r)| == PeerCountFrom(s, r)
  {
    PeersInRowCount(s, r);
    RowsLength(s, r);
  }

  lemma RowsLength(s: Square, r: int)
    requires 0 <= r < BOARD_SIZE
    ensures |Rows(s, r)| == |Cols(s, r, 0)| + |Rows(s, r + 1)|
  {
    assert Rows(s, r) == Cols(s, r, 0) + Rows(s, r + 1);
  }

  /** Every square has exactly 20 peers. */
  lemma TwentyPeers(s: Square)
    requires OnBoard(s)
    ensures |PeerList(s)| == 20
  {
    PeersFromRowCount(s, 0);
    PeerCountClosed(s, 0);
  }

  /** Square p is in the row (u = 0), column (u = 1) or box (u = 2) unit of s. */
  predicate InUnit(u: int, s: Square, p: Square)
  {
    OnBoard(p) &&
    if u == 0 then p.0 == s.0
    else if u == 1 then p.1 == s.1
    else p.0 / BOX_SIZE == s.0 / BOX_SIZE && p.1 / BOX_SIZE == s.1 / BOX_SIZE
  }

  /** us holds the row, the column and the box of s, in that order. */
  ghost predicate UnitsOf(s: Square, us: seq<set<Square>>)
  {
    |us| == 3 && forall u, p :: 0 <= u < 3 ==> (p in us[u] <==> InUnit(u, s, p))
  }

  /** ps holds exactly the peers of s. */
  ghost predicate PeersOf(s: Square, ps: set<Square>)
  {
    forall p :: p in ps <==> IsPeer(s, p)
  }

  /** The squares of the board are the ones AllSquares lists. */
  lemma InAllSquares(s: Square)
    ensures s in AllSquares() <==> OnBoard(s)
  {
    AllSquaresOnBoard();
    if OnBoard(s) {
      AllSquaresAt();
      assert AllSquares()[s.0 * BOARD_SIZE + s.1] == s;
    }
  }

  /**
   * One pass of the BoardStructure constructor's loop over the squares: the row, column and box
   * units of square, and the squares of all three, which less the square itself are its peers.
   */
  method CollectUnits(square: Square) returns (rowUnit: set<Square>, colUnit: set<Square>, boxUnit: set<Square>, squarePeers: set<Square>)
    requires OnBoard(square)
    ensures UnitsOf(square, [rowUnit, colUnit, boxUnit])
    ensures PeersOf(square, squarePeers - {square})
  {
    var (rowIdx, colIdx) := square;
    rowUnit, colUnit, boxUnit := {}, {}, {};
    squarePeers := {};
    for column := 0 to BOARD_SIZE
      invariant forall p: Square :: p in rowUnit <==> p.0 == rowIdx && 0 <= p.1 < column
      invariant squarePeers == rowUnit
    {
      rowUnit := rowUnit + {(rowIdx, column)};
      squarePeers := squarePeers + {(rowIdx, column)};
    }
    for row := 0 to BOARD_SIZE
      invariant forall p: Square :: p in colUnit <==> p.1 == colIdx && 0 <= p.0 < row
      invariant squarePeers == rowUnit + colUnit
    {
      colUnit := colUnit + {(row, colIdx)};
      squarePeers := squarePeers + {(row, colIdx)};
    }
    var boxRowStart := (rowIdx / BOX_SIZE) * BOX_SIZE;
    var boxColStart := (colIdx / BOX_SIZE) * BOX_SIZE;
    for row := boxRowStart to boxRowStart + BOX_SIZE
      invariant forall p: Square :: p in boxUnit <==> boxRowStart <= p.0 < row && boxColStart <= p.1 < boxColStart + BOX_SIZE
      invariant squarePeers == rowUnit + colUnit + boxUnit
    {
      for column := boxColStart to boxColStart + BOX_SIZE
        invariant forall p: Square :: p in boxUnit <==>
          (boxRowStart <= p.0 < row && boxColStart <= p.1 < boxColStart + BOX_SIZE) || (p.0 == row && boxColStart <= p.1 < column)
        invariant squarePeers == rowUnit + colUnit + boxUnit
      {
        boxUnit := boxUnit + {(row, column)};
        squarePeers := squarePeers + {(row, column)};
      }
    }
    UnitsCollected(square, rowUnit, colUnit, boxUnit, squarePeers);
  }

  /** The sets the three loops of the constructor collect are the units and the peers of s. */
  lemma UnitsCollected(s: Square, rowUnit: set<Square>, colUnit: set<Square>, boxUnit: set<Square>, squarePeers: set<Square>)
    requires OnBoard(s)
    requires forall p: Square :: p in rowUnit <==> p.0 == s.0 && 0 <= p.1 < BOARD_SIZE
    requires forall p: Square :: p in colUnit <==> p.1 == s.1 && 0 <= p.0 < BOARD_SIZE
    requires forall p: Square :: p in boxUnit <==>
      (s.0 / BOX_SIZE) * BOX_SIZE <= p.0 < (s.0 / BOX_SIZE) * BOX_SIZE + BOX_SIZE &&
      (s.1 / BOX_SIZE) * BOX_SIZE <= p.1 < (s.1 / BOX_SIZE) * BOX_SIZE + BOX_SIZE
    requires squarePeers == rowUnit + colUnit + boxUnit
    ensures UnitsOf(s, [rowUnit, colUnit, boxUnit])
    ensures PeersOf(s, squarePeers - {s})
  {
    forall p ensures p in boxUnit <==> InUnit(2, s, p) {
      SameBox(p.0, s.0);
      SameBox(p.1, s.1);
    }
  }

  /** The BoardStructure constructor: the set of squares, and for every square its units and its peers. */
  class Structure {
    var squares: set<Square>
    var units: map<Square, seq<set<Square>>>
    var peers: map<Square, set<Square>>

    constructor()
      ensures forall p :: p in squares <==> OnBoard(p)
      ensures forall s :: s in units <==> OnBoard(s)
      ensures forall s :: s in peers <==> OnBoard(s)
      ensures forall s :: OnBoard(s) ==> UnitsOf(s, units[s]) && PeersOf(s, peers[s])
    {
      squares := {};
      units := map[];
      peers := map[];
      new;
      for row := 0 to BOARD_SIZE
        invariant forall p: Square :: p in squares <==> 0 <= p.0 < row && 0 <= p.1 < BOARD_SIZE
        invariant units == map[] && peers == map[]
      {
        for column := 0 to BOARD_SIZE
          invariant forall p: Square :: p in squares <==> (0 <= p.0 < row && 0 <= p.1 < BOARD_SIZE) || (p.0 == row && 0 <= p.1 < column)
          invariant units == map[] && peers == map[]
        {
          squares := squares + {(row, column)};
        }
      }
      var order := AllSquares();
      for k := 0 to |order|
        invariant forall p: Square :: p in squares <==> OnBoard(p)
        invariant forall s :: s in units <==> s in order[..k]
        invariant forall s :: s in peers <==> s in order[..k]
        invariant forall s :: s in units ==> s in peers && UnitsOf(s, units[s]) && PeersOf(s, peers[s])
      {
        var square := order[k];
        InAllSquares(square);
        var rowUnit, colUnit, boxUnit, squarePeers := CollectUnits(square);
        units := units[square := [rowUnit, colUnit, boxUnit]];
        peers := peers[square := squarePeers - {square}];
        assert order[..k + 1] == order[..k] + [square];
      }
      assert order[..|order|] == order;
      forall s ensures s in order <==> OnBoard(s) {
        InAllSquares(s);
      }
    }
  }
}
