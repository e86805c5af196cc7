/**
 * The candidate lists of the constraint-propagation solver (src/ConstraintPropagationSolver.cpp):
 * a map from each square to the values it may still take, and the facts about such maps that
 * eliminate(), assign() and search() preserve.
 */
module Candidates {
  import opened SudokuTraits
  import opened SudokuRules

  /** A square as (row, column). */
  type Square = (int, int)

  /** SquareValues: each square's current list of possible values. */
  type SquareValues = map<Square, seq<int>>

  /** The number of squares on the board. */
  const SQUARE_COUNT: int := BOARD_SIZE * BOARD_SIZE

  predicate OnBoard(s: Square)
  {
    0 <= s.0 < BOARD_SIZE && 0 <= s.1 < BOARD_SIZE
  }

  /** The squares in the order a std::set<Square> holds them: row by row, column by column. */
  function AllSquares(): (q: seq<Square>)
    ensures |q| == SQUARE_COUNT
    ensures forall k :: 0 <= k < SQUARE_COUNT ==> q[k] == (k / BOARD_SIZE, k % BOARD_SIZE)
  {
    seq(SQUARE_COUNT, k requires 0 <= k < SQUARE_COUNT => (k / BOARD_SIZE, k % BOARD_SIZE))
  }

  /** AllSquares lists squares of the board only. */
  lemma AllSquaresOnBoard()
    ensures forall k :: 0 <= k < SQUARE_COUNT ==> OnBoard(AllSquares()[k])
  {
    forall k | 0 <= k < SQUARE_COUNT
      ensures OnBoard(AllSquares()[k])
    {
      var r, c := k / BOARD_SIZE, k % BOARD_SIZE;
      assert k == r * BOARD_SIZE + c;
    }
  }

  /** Square (r, c) is entry r * 9 + c of AllSquares. */
  lemma AllSquaresAt()
    ensures forall r, c :: 0 <= r < BOARD_SIZE && 0 <= c < BOARD_SIZE ==> AllSquares()[r * BOARD_SIZE + c] == (r, c)
  {
    forall r, c | 0 <= r < BOARD_SIZE && 0 <= c < BOARD_SIZE
      ensures AllSquares()[r * BOARD_SIZE + c] == (r, c)
    {
      CellNumber(r * BOARD_SIZE + c, r, c);
    }
  }

  /** AllSquares is in increasing order: the order of a std::set of squares. */
  lemma AllSquaresSorted()
    ensures forall i, j :: 0 <= i < j < SQUARE_COUNT ==> Before(AllSquares()[i], AllSquares()[j])
  {
    forall i, j | 0 <= i < j < SQUARE_COUNT
      ensures Before(AllSquares()[i], AllSquares()[j])
    {
      NumberOrder(i, j);
    }
  }

  /** Row-major numbering is lexicographic order. */
  lemma NumberOrder(i: int, j: int)
    requires 0 <= i < j
    ensures Before((i / BOARD_SIZE, i % BOARD_SIZE), (j / BOARD_SIZE, j % BOARD_SIZE))
  {
    var qi, ri, qj, rj := i / BOARD_SIZE, i % BOARD_SIZE, j / BOARD_SIZE, j % BOARD_SIZE;
    assert i == qi * BOARD_SIZE + ri && j == qj * BOARD_SIZE + rj;
    assert qi <= qj;
  }

  /** Lexicographic order of squares, the order of std::pair. */
  predicate Before(s: Square, t: Square)
  {
    s.0 < t.0 || (s.0 == t.0 && s.1 < t.1)
  }

  /** allValues[square] on a key that is present; a missing key reads as the empty list. */
  function Get(m: SquareValues, s: Square): seq<int>
  {
    if s in m then m[s] else []
  }

  /** erase(remove(list, v)): the list without v, in the same order. */
  function Remove(list: seq<int>, v: int): (r: seq<int>)
    ensures forall x :: x in r <==> x in list && x != v
  {
    if list == [] then [] else (if list[0] == v then [] else [list[0]]) + Remove(list[1..], v)
  }

  /** a is b with some elements deleted (order kept). */
  predicate Subseq(a: seq<int>, b: seq<int>)
    decreases |b|
  {
    a == [] || (b != [] && ((a[0] == b[0] && Subseq(a[1..], b[1..])) || Subseq(a, b[1..])))
  }

  lemma {:induction false} SubseqItself(a: seq<int>)
    ensures Subseq(a, a)
    decreases |a|
  {
    if a != [] {
      SubseqItself(a[1..]);
    }
  }

  lemma {:induction false} SubseqTransitive(a: seq<int>, b: seq<int>, c: seq<int>)
    requires Subseq(a, b) && Subseq(b, c)
    ensures Subseq(a, c)
    decreases |c|
  {
    if a != [] {
      if Subseq(b, c[1..]) {
        SubseqTransitive(a, b, c[1..]);
      } else if Subseq(a, b[1..]) {
        SubseqTransitive(a, b[1..], c[1..]);
      } else {
        SubseqTransitive(a[1..], b[1..], c[1..]);
      }
    }
  }

  /** A subsequence is no longer and holds no new element. */
  lemma {:induction false} SubseqContained(a: seq<int>, b: seq<int>)
    requires Subseq(a, b)
    ensures |a| <= |b|
    ensures forall x :: x in a ==> x in b
    decreases |b|
  {
    if a != [] {
      if a[0] == b[0] && Subseq(a[1..], b[1..]) {
        SubseqContained(a[1..], b[1..]);
        assert a == [a[0]] + a[1..];
      } else {
        SubseqContained(a, b[1..]);
      }
    }
  }

  /** A nonempty subsequence of [w] is [w]. */
  lemma SubseqOfSingle(a: seq<int>, w: int)
    requires Subseq(a, [w]) && a != []
    ensures a == [w]
  {
    SubseqContained(a, [w]);
  }

  /** Removing a value deletes elements and keeps the order; it shortens a list holding v. */
  lemma {:induction false} RemoveSubseq(list: seq<int>, v: int)
    ensures Subseq(Remove(list, v), list)
    ensures v in list ==> |Remove(list, v)| < |list|
    decreases |list|
  {
    if list != [] {
      var rest := Remove(list[1..], v);
      RemoveSubseq(list[1..], v);
      SubseqContained(rest, list[1..]);
      if list[0] != v {
        assert Remove(list, v) == [list[0]] + rest;
        assert Remove(list, v)[1..] == rest;
      } else {
        assert Remove(list, v) == rest;
      }
    }
  }

  predicate Distinct(a: seq<int>)
  {
    forall i, j :: 0 <= i < j < |a| ==> a[i] != a[j]
  }

  /** Deleting elements keeps a list free of repeats. */
  lemma {:induction false} SubseqDistinct(a: seq<int>, b: seq<int>)
    requires Subseq(a, b) && Distinct(b)
    ensures Distinct(a)
    decreases |b|
  {
    if a != [] {
      assert Distinct(b[1..]) by {
        forall i, j | 0 <= i < j < |b[1..]| ensures b[1..][i] != b[1..][j] {
          assert b[1..][i] == b[i + 1] && b[1..][j] == b[j + 1];
        }
      }
      if a[0] == b[0] && Subseq(a[1..], b[1..]) {
        SubseqDistinct(a[1..], b[1..]);
        SubseqContained(a[1..], b[1..]);
        forall j | 0 < j < |a| ensures a[0] != a[j] {
          assert a[j] == a[1..][j - 1];
          assert a[j] in b[1..];
        }
      } else {
        SubseqDistinct(a, b[1..]);
      }
    }
  }

  /** The sum of the list lengths over the squares of q. */
  function TotalOver(m: SquareValues, q: seq<Square>): nat
  {
    if q == [] then 0 else |Get(m, q[0])| + TotalOver(m, q[1..])
  }

  /** The number of candidates left on the board: the measure that eliminate() and assign() decrease. */
  function Total(m: SquareValues): nat
  {
    TotalOver(m, AllSquares())
  }

  /** m2 is m1 with candidates deleted: every square's list is a subsequence of its old list. */
  ghost predicate Shrinks(m1: SquareValues, m2: SquareValues)
  {
    forall s :: OnBoard(s) ==> Subseq(Get(m2, s), Get(m1, s))
  }

  lemma ShrinksItself(m: SquareValues)
    ensures Shrinks(m, m)
  {
    forall s | OnBoard(s) ensures Subseq(Get(m, s), Get(m, s)) {
      SubseqItself(Get(m, s));
    }
  }

  lemma ShrinksTransitive(m1: SquareValues, m2: SquareValues, m3: SquareValues)
    requires Shrinks(m1, m2) && Shrinks(m2, m3)
    ensures Shrinks(m1, m3)
  {
    forall s | OnBoard(s) ensures Subseq(Get(m3, s), Get(m1, s)) {
      SubseqTransitive(Get(m3, s), Get(m2, s), Get(m1, s));
    }
  }

  lemma {:induction false} TotalOverShrinks(m1: SquareValues, m2: SquareValues, q: seq<Square>)
    requires Shrinks(m1, m2) && forall i :: 0 <= i < |q| ==> OnBoard(q[i])
    ensures TotalOver(m2, q) <= TotalOver(m1, q)
    ensures (exists i :: 0 <= i < |q| && |Get(m2, q[i])| < |Get(m1, q[i])|) ==> TotalOver(m2, q) < TotalOver(m1, q)
    decreases |q|
  {
    if q != [] {
      SubseqContained(Get(m2, q[0]), Get(m1, q[0]));
      TotalOverShrinks(m1, m2, q[1..]);
      if exists i :: 0 <= i < |q| && |Get(m2, q[i])| < |Get(m1, q[i])| {
        var i :| 0 <= i < |q| && |Get(m2, q[i])| < |Get(m1, q[i])|;
        if i > 0 {
          assert q[1..][i - 1] == q[i];
        }
      }
    }
  }

  /** Deleting candidates never raises the total, and shortening one square's list lowers it. */
  lemma ShrinksTotal(m1: SquareValues, m2: SquareValues, s: Square)
    requires Shrinks(m1, m2) && OnBoard(s)
    ensures Total(m2) <= Total(m1)
    ensures |Get(m2, s)| < |Get(m1, s)| ==> Total(m2) < Total(m1)
  {
    AllSquaresOnBoard();
    AllSquaresAt();
    CellNumber(s.0 * BOARD_SIZE + s.1, s.0, s.1);
    assert AllSquares()[s.0 * BOARD_SIZE + s.1] == s;
    TotalOverShrinks(m1, m2, AllSquares());
  }

  /** A value a square has lost stays lost while candidates are only deleted. */
  lemma ShrinksLacks(m1: SquareValues, m2: SquareValues, s: Square, w: int)
    requires Shrinks(m1, m2) && OnBoard(s) && w !in Get(m1, s)
    ensures w !in Get(m2, s)
  {
    SubseqContained(Get(m2, s), Get(m1, s));
  }

  lemma FirstTwoEqual(a: seq<int>, v: int)
    requires |a| > 1 && forall x :: x in a ==> x == v
    ensures a[0] == a[1]
  {
    assert a[0] in a && a[1] in a;
  }

  /** A nonempty list without repeats whose every element is v is the list [v]. */
  lemma OnlyValue(a: seq<int>, v: int)
    requires a != [] && Distinct(a) && forall x :: x in a ==> x == v
    ensures a == [v]
  {
    assert a[0] in a;
    if |a| > 1 {
      FirstTwoEqual(a, v);
      assert false;
    } else {
      assert a[0] == v;
      assert a == [a[0]];
    }
  }

  /** Every list is a subsequence of 1 .. 9: true of every map solve() builds. */
  ghost predicate WithinRange(m: SquareValues)
  {
    forall s :: OnBoard(s) ==> Subseq(Get(m, s), VALUE_RANGE)
  }

  /** Deleting candidates keeps every list within 1 .. 9. */
  lemma ShrinksWithinRange(m1: SquareValues, m2: SquareValues)
    requires WithinRange(m1) && Shrinks(m1, m2)
    ensures WithinRange(m2)
  {
    forall s | OnBoard(s) ensures Subseq(Get(m2, s), VALUE_RANGE) {
      SubseqTransitive(Get(m2, s), Get(m1, s), VALUE_RANGE);
    }
  }

  /** A list within 1 .. 9 has no repeated value, at most nine elements, and only values 1 .. 9. */
  lemma InRangeList(m: SquareValues, s: Square)
    requires WithinRange(m) && OnBoard(s)
    ensures Distinct(Get(m, s)) && |Get(m, s)| <= MAX_VALUE
    ensures forall x :: x in Get(m, s) ==> 1 <= x <= MAX_VALUE
  {
    TraitsRanges();
    SubseqDistinct(Get(m, s), VALUE_RANGE);
    SubseqContained(Get(m, s), VALUE_RANGE);
  }

  /** s and t are peers: two different squares of the board in a common unit. */
  predicate IsPeer(s: Square, t: Square)
  {
    OnBoard(s) && OnBoard(t) && s != t && SameUnit(s.0, s.1, t.0, t.1)
  }

  /** If s is down to a single value, no peer of s still holds that value. */
  ghost predicate Settled(m: SquareValues, s: Square)
  {
    |Get(m, s)| == 1 ==> forall p :: IsPeer(s, p) ==> Get(m, s)[0] !in Get(m, p)
  }

  /** Every square whose list differs between m0 and m is nonempty and settled in m. */
  ghost predicate Sound(m0: SquareValues, m: SquareValues)
  {
    forall s :: OnBoard(s) && Get(m, s) != Get(m0, s) ==> Get(m, s) != [] && Settled(m, s)
  }

  /** Every square with a single value is settled: no two peers are fixed to the same value. */
  ghost predicate Consistent(m: SquareValues)
  {
    forall s :: OnBoard(s) ==> Settled(m, s)
  }

  lemma SoundItself(m: SquareValues)
    ensures Sound(m, m)
  {
  }

  /** A square that stays settled while its peers only lose candidates. */
  lemma SettledShrinks(m1: SquareValues, m2: SquareValues, s: Square)
    requires Shrinks(m1, m2) && OnBoard(s) && Get(m2, s) == Get(m1, s) && Settled(m1, s)
    ensures Settled(m2, s)
  {
    if |Get(m2, s)| == 1 {
      var w := Get(m2, s)[0];
      forall p | IsPeer(s, p) ensures w !in Get(m2, p) {
        assert w !in Get(m1, p);
        SubseqContained(Get(m2, p), Get(m1, p));
      }
    }
  }

  /** Two sound steps that only delete candidates make one sound step. */
  lemma SoundCompose(m0: SquareValues, m1: SquareValues, m2: SquareValues)
    requires Sound(m0, m1) && Sound(m1, m2) && Shrinks(m1, m2)
    ensures Sound(m0, m2)
  {
    forall s | OnBoard(s) && Get(m2, s) != Get(m0, s)
      ensures Get(m2, s) != [] && Settled(m2, s)
    {
      if Get(m2, s) == Get(m1, s) {
        SettledShrinks(m1, m2, s);
      }
    }
  }

  /** A sound step that deletes candidates keeps a consistent map consistent. */
  lemma ConsistentKept(m0: SquareValues, m: SquareValues)
    requires Consistent(m0) && Sound(m0, m) && Shrinks(m0, m)
    ensures Consistent(m)
  {
    forall s | OnBoard(s) ensures Settled(m, s) {
      if Get(m, s) == Get(m0, s) {
        SettledShrinks(m0, m, s);
      }
    }
  }

  /** Every square holds exactly one value: search()'s test for a solution. */
  predicate Solved(m: SquareValues)
  {
    forall k | 0 <= k < SQUARE_COUNT :: |Get(m, AllSquares()[k])| == 1
  }

  /** Solved as a statement about every square of the board. */
  lemma SolvedSquares(m: SquareValues)
    ensures Solved(m) <==> forall s :: OnBoard(s) ==> |Get(m, s)| == 1
  {
    AllSquaresOnBoard();
    AllSquaresAt();
    if Solved(m) {
      forall s | OnBoard(s) ensures |Get(m, s)| == 1 {
        assert AllSquares()[s.0 * BOARD_SIZE + s.1] == s;
      }
    }
  }
}
