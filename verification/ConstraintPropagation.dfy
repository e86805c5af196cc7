/**
 * src/ConstraintPropagationSolver.cpp: Norvig's constraint-propagation solver. Every square keeps a
 * list of the values it may still take. eliminate() deletes a value from a square and propagates
 * the consequences, assign() deletes every other value, search() picks the square with the fewest
 * candidates and tries each of them on a copy of the map, and solve() converts between the board
 * and the map.
 *
 * The map is passed by reference in the source; here a call takes the map and returns the new one.
 * The global board structure is read through UnitList and PeerList, which list each square's
 * units and peers in the order the structure's std::set containers iterate them (BoardStructure).
 */
module ConstraintPropagation {
  import opened Wrappers
  import opened SudokuTraits
  import opened SudokuRules
  import opened Candidates
  import opened BoardStructure
  import opened Decimal

  /** The squares of unit that still hold v, in unit order: the `places` vector of eliminate(). */
  function Places(m: SquareValues, unit: seq<Square>, v: int): (q: seq<Square>)
    ensures forall x :: x in q <==> x in unit && v in Get(m, x)
    ensures |q| <= |unit|
  {
    if unit == [] then []
    else
      var last := unit[|unit| - 1];
      assert unit == unit[..|unit| - 1] + [last];
      Places(m, unit[..|unit| - 1], v) + (if v in Get(m, last) then [last] else [])
  }

  /** A unit with no place left for v keeps none while the lists only shrink. */
  lemma {:induction false} PlacesStayEmpty(m: SquareValues, r: SquareValues, unit: seq<Square>, v: int)
    requires Shrinks(m, r) && forall i :: 0 <= i < |unit| ==> OnBoard(unit[i])
    requires Places(m, unit, v) == []
    ensures Places(r, unit, v) == []
  {
    if unit != [] {
      var last := unit[|unit| - 1];
      PlacesStayEmpty(m, r, unit[..|unit| - 1], v);
      ShrinksLacks(m, r, last, v);
    }
  }

  /** No square of unit other than s holds v. */
  ghost predicate OnlyPlace(m: SquareValues, unit: seq<Square>, s: Square, v: int)
  {
    forall q :: q in unit && q != s ==> v !in Get(m, q)
  }

  /** A unit none of whose squares holds v has no place for v. */
  lemma {:induction false} PlacesNone(m: SquareValues, unit: seq<Square>, v: int)
    requires forall i :: 0 <= i < |unit| ==> v !in Get(m, unit[i])
    ensures Places(m, unit, v) == []
  {
    if unit != [] {
      PlacesNone(m, unit[..|unit| - 1], v);
    }
  }

  /**
   * Once v is deleted from s, a unit of s in which s was the only square holding v has no place
   * for v left, and keeps none while the lists shrink further.
   */
  lemma OnlyPlaceLeavesNone(m: SquareValues, s: Square, v: int, u: int, m2: SquareValues)
    requires OnBoard(s) && 0 <= u < 3 && OnlyPlace(m, UnitList(s)[u], s, v)
    requires Shrinks(m[s := Remove(Get(m, s), v)], m2)
    ensures Places(m2, UnitList(s)[u], v) == []
  {
    UnitsShape(s);
    var m1 := m[s := Remove(Get(m, s), v)];
    var unit := UnitList(s)[u];
    forall i | 0 <= i < |unit| ensures v !in Get(m1, unit[i]) {
      assert unit[i] in unit;
    }
    PlacesNone(m1, unit, v);
    PlacesStayEmpty(m1, m2, unit, v);
  }

  /** Deleting v from s shortens s's list and leaves the other squares alone. */
  lemma RemoveStep(m: SquareValues, s: Square, v: int)
    requires OnBoard(s) && v in Get(m, s)
    ensures Shrinks(m, m[s := Remove(Get(m, s), v)])
    ensures Total(m[s := Remove(Get(m, s), v)]) < Total(m)
  {
    var m1 := m[s := Remove(Get(m, s), v)];
    RemoveSubseq(Get(m, s), v);
    forall t | OnBoard(t) ensures Subseq(Get(m1, t), Get(m, t)) {
      if t != s {
        SubseqItself(Get(m, t));
      }
    }
    ShrinksTotal(m, m1, s);
  }

  /**
   * After v is deleted from s and, when a single value w is left there, w is deleted from every
   * peer of s, every list that changed is nonempty and settled.
   */
  lemma SoundAfterPeers(m: SquareValues, s: Square, v: int, r: SquareValues)
    requires OnBoard(s) && v in Get(m, s) && Remove(Get(m, s), v) != []
    requires Shrinks(m[s := Remove(Get(m, s), v)], r) && Sound(m[s := Remove(Get(m, s), v)], r)
    requires |Remove(Get(m, s), v)| == 1 ==>
      forall p :: IsPeer(s, p) ==> Remove(Get(m, s), v)[0] !in Get(r, p)
    ensures Sound(m, r)
  {
    var m1 := m[s := Remove(Get(m, s), v)];
    forall t | OnBoard(t) && Get(r, t) != Get(m, t)
      ensures Get(r, t) != [] && Settled(r, t)
    {
      if Get(r, t) == Get(m1, t) {
        assert t == s;
      }
    }
  }

  /** When eliminate() leaves s a single value, that value is gone from every peer of s. */
  lemma SingleSettled(m: SquareValues, s: Square, v: int, r: SquareValues)
    requires OnBoard(s) && v in Get(m, s) && |Remove(Get(m, s), v)| == 1
    requires Sound(m, r) && Subseq(Get(r, s), Remove(Get(m, s), v))
    ensures Get(r, s) == Remove(Get(m, s), v)
    ensures forall p :: IsPeer(s, p) ==> Get(r, s)[0] !in Get(r, p)
  {
    var rest := Remove(Get(m, s), v);
    SubseqContained(Get(r, s), rest);
    assert v !in Get(r, s);
    assert Get(r, s) != Get(m, s);
    SubseqOfSingle(Get(r, s), rest[0]);
  }

  /**
   * eliminate(): delete v from s's list. A square left without candidates is a contradiction; a
   * square left with one value makes every peer lose that value (PropagateToPeers); then every
   * unit of s is checked for the places left for v (CheckPlaces).
   */
  method Eliminate(m: SquareValues, s: Square, v: int) returns (ok: bool, r: SquareValues)
    requires OnBoard(s)
    ensures r.Keys == m.Keys && Shrinks(m, r)
    ensures v !in Get(m, s) ==> ok && r == m
    ensures v in Get(m, s) ==> Subseq(Get(r, s), Remove(Get(m, s), v))
    ensures v in Get(m, s) && Remove(Get(m, s), v) == [] ==> !ok
    ensures ok ==> v !in Get(r, s) && Sound(m, r)
    ensures ok && v in Get(m, s) && |Remove(Get(m, s), v)| == 1 ==>
      Get(r, s) == Remove(Get(m, s), v) && forall p :: IsPeer(s, p) ==> Get(r, s)[0] !in Get(r, p)
    ensures v in Get(m, s) && (exists u :: 0 <= u < 3 && OnlyPlace(m, UnitList(s)[u], s, v)) ==> !ok
    decreases Total(m), 0
  {
    var values := Get(m, s);
    if v !in values {
      ShrinksItself(m);
      return true, m;
    }
    var rest := Remove(values, v);
    var m1 := m[s := rest];
    RemoveStep(m, s, v);
    if rest == [] {
      return false, m1;
    }
    r := m1;
    ShrinksItself(m1);
    if |rest| == 1 {
      var peersOk;
      peersOk, r := PropagateToPeers(m1, s, rest[0]);
      if !peersOk {
        ShrinksTransitive(m, m1, r);
        return false, r;
      }
    }
    SoundAfterPeers(m, s, v, r);
    ShrinksTotal(m1, r, s);
    var m2 := r;
    ShrinksTransitive(m, m1, m2);
    if exists u :: 0 <= u < 3 && OnlyPlace(m, UnitList(s)[u], s, v) {
      var u :| 0 <= u < 3 && OnlyPlace(m, UnitList(s)[u], s, v);
      OnlyPlaceLeavesNone(m, s, v, u, m2);
    }
    ok, r := CheckPlaces(m2, s, v);
    ShrinksTransitive(m1, m2, r);
    ShrinksTransitive(m, m1, r);
    if ok {
      SoundCompose(m, m2, r);
      SubseqContained(Get(r, s), rest);
      if |rest| == 1 {
        SingleSettled(m, s, v, r);
      }
    }
  }

  /** The peer loop of eliminate(): delete w from every peer of s, in set order. */
  method PropagateToPeers(m: SquareValues, s: Square, w: int) returns (ok: bool, r: SquareValues)
    requires OnBoard(s)
    ensures r.Keys == m.Keys && Shrinks(m, r)
    ensures ok ==> Sound(m, r) && forall p :: IsPeer(s, p) ==> w !in Get(r, p)
    decreases Total(m), 2
  {
    var peers := PeerList(s);
    PeerListEntries(s);
    r := m;
    ShrinksItself(m);
    for i := 0 to |peers|
      invariant r.Keys == m.Keys && Shrinks(m, r) && Sound(m, r)
      invariant forall j :: 0 <= j < i ==> w !in Get(r, peers[j])
    {
      var peer := peers[i];
      assert OnBoard(peer);
      ShrinksTotal(m, r, peer);
      var peerOk, r1 := Eliminate(r, peer, w);
      ShrinksTransitive(m, r, r1);
      if !peerOk {
        return false, r1;
      }
      SoundCompose(m, r, r1);
      forall j | 0 <= j < i + 1 ensures w !in Get(r1, peers[j]) {
        if j < i {
          ShrinksLacks(r, r1, peers[j], w);
        }
      }
      r := r1;
    }
    PeerListMembers(s);
    return true, r;
  }

  /**
   * The unit loop of eliminate(): for the row, the column and the box of s in turn, a unit with
   * no square left holding v is a contradiction, and a unit with one such square gets v assigned
   * there.
   */
  method CheckPlaces(m: SquareValues, s: Square, v: int) returns (ok: bool, r: SquareValues)
    requires OnBoard(s)
    ensures r.Keys == m.Keys && Shrinks(m, r)
    ensures ok ==> Sound(m, r)
    ensures (exists u :: 0 <= u < 3 && Places(m, UnitList(s)[u], v) == []) ==> !ok
    decreases Total(m), 3
  {
    var units := UnitList(s);
    UnitsShape(s);
    r := m;
    ShrinksItself(m);
    for u := 0 to 3
      invariant r.Keys == m.Keys && Shrinks(m, r) && Sound(m, r)
      invariant forall w :: 0 <= w < u ==> |Places(m, units[w], v)| > 0
    {
      ShrinksTotal(m, r, s);
      var unitOk;
      unitOk, r := CheckUnit(m, r, units[u], v);
      if !unitOk {
        return false, r;
      }
      PlacesUpTo(m, units, v, u);
    }
    return true, r;
  }

  /** Units 0 .. u - 1 and unit u each hold a place for v, so units 0 .. u do. */
  lemma PlacesUpTo(m: SquareValues, units: seq<seq<Square>>, v: int, u: int)
    requires 0 <= u < |units| && |Places(m, units[u], v)| > 0
    requires forall w :: 0 <= w < u ==> |Places(m, units[w], v)| > 0
    ensures forall w :: 0 <= w < u + 1 ==> |Places(m, units[w], v)| > 0
  {
  }

  /**
   * One round of the unit loop, on the map m reached from m0: no square of unit left holding v is
   * a contradiction, exactly one such square gets v assigned, and more than one leave m as it is.
   */
  method CheckUnit(ghost m0: SquareValues, m: SquareValues, unit: seq<Square>, v: int) returns (ok: bool, r: SquareValues)
    requires forall i :: 0 <= i < |unit| ==> OnBoard(unit[i])
    requires m.Keys == m0.Keys && Shrinks(m0, m) && Sound(m0, m)
    ensures r.Keys == m.Keys && Shrinks(m, r) && Shrinks(m0, r)
    ensures ok ==> Sound(m, r) && Sound(m0, r)
    ensures ok ==> |Places(m0, unit, v)| > 0
    ensures Places(m, unit, v) == [] ==> !ok && r == m
    ensures |Places(m, unit, v)| > 1 ==> ok && r == m
    ensures ok && |Places(m, unit, v)| == 1 ==> forall x :: x in Get(r, Places(m, unit, v)[0]) ==> x == v
    decreases Total(m), 2
  {
    if Places(m0, unit, v) == [] {
      PlacesStayEmpty(m0, m, unit, v);
    }
    var places := CollectPlaces(m, unit, v);
    ShrinksItself(m);
    ok, r := false, m;
    if places != [] {
      ok := true;
      if |places| == 1 {
        var place := places[0];
        assert place in unit;
        ok, r := Assign(m, place, v);
      }
    }
    ShrinksTransitive(m0, m, r);
    if ok {
      SoundCompose(m0, m, r);
    }
  }

  /** The squares of unit that still allow v, in the unit's order. */
  method CollectPlaces(m: SquareValues, unit: seq<Square>, v: int) returns (places: seq<Square>)
    ensures places == Places(m, unit, v)
  {
    places := [];
    for k := 0 to |unit|
      invariant places == Places(m, unit[..k], v)
    {
      if v in Get(m, unit[k]) {
        places := places + [unit[k]];
      }
      assert unit[..k + 1][..k] == unit[..k];
    }
    assert unit[..|unit|] == unit;
  }

  /** What assign() leaves at s once every other value has been deleted there. */
  lemma AssignLeaves(m: SquareValues, r: SquareValues, s: Square, v: int)
    requires OnBoard(s) && Shrinks(m, r) && Sound(m, r)
    requires forall x :: x in Remove(Get(m, s), v) ==> x !in Get(r, s)
    ensures forall x :: x in Get(r, s) ==> x == v
    ensures Get(m, s) != [] ==> v in Get(m, s) && Get(r, s) != []
    ensures Get(m, s) != [] && Distinct(Get(m, s)) ==> Get(r, s) == [v]
  {
    SubseqContained(Get(r, s), Get(m, s));
    if Get(m, s) != [] {
      if Get(r, s) != Get(m, s) {
        assert Get(r, s) != [];
      }
      assert Get(r, s)[0] in Get(r, s);
    }
    if Get(m, s) != [] && Distinct(Get(m, s)) {
      SubseqDistinct(Get(r, s), Get(m, s));
      OnlyValue(Get(r, s), v);
    }
  }

  /** assign(): fix s to v by eliminating every other value of s's list, in list order. */
  method Assign(m: SquareValues, s: Square, v: int) returns (ok: bool, r: SquareValues)
    requires OnBoard(s)
    ensures r.Keys == m.Keys && Shrinks(m, r)
    ensures ok ==> Sound(m, r) && forall x :: x in Get(r, s) ==> x == v
    ensures ok && Get(m, s) != [] ==> v in Get(m, s) && Get(r, s) != []
    ensures ok && Get(m, s) != [] && Distinct(Get(m, s)) ==> Get(r, s) == [v]
    ensures ok && Get(m, s) != [] && Distinct(Get(m, s)) && Get(m, s) != [v] ==>
      forall p :: IsPeer(s, p) ==> v !in Get(r, p)
    decreases Total(m), 1
  {
    var otherValues := Remove(Get(m, s), v);
    r := m;
    ShrinksItself(m);
    for i := 0 to |otherValues|
      invariant r.Keys == m.Keys && Shrinks(m, r) && Sound(m, r)
      invariant forall j :: 0 <= j < i ==> otherValues[j] !in Get(r, s)
    {
      ShrinksTotal(m, r, s);
      var eliminated, r1 := Eliminate(r, s, otherValues[i]);
      ShrinksTransitive(m, r, r1);
      if !eliminated {
        return false, r1;
      }
      SoundCompose(m, r, r1);
      forall j | 0 <= j < i ensures otherValues[j] !in Get(r1, s) {
        ShrinksLacks(r, r1, s, otherValues[j]);
      }
      r := r1;
    }
    AssignLeaves(m, r, s, v);
    return true, r;
  }

  /** std::numeric_limits<size_t>::max() on a 64-bit target. */
  const SIZE_MAX: int := 0xFFFF_FFFF_FFFF_FFFF

  /** The size search() ranks a square by: a square already down to one value ranks last. */
  function RankedSize(m: SquareValues, s: Square): nat
  {
    if |Get(m, s)| == 1 then SIZE_MAX else |Get(m, s)|
  }

  /**
   * std::min_element over the first n squares of the board in set order, by RankedSize: the
   * first square of least rank.
   */
  function MinIndex(m: SquareValues, n: int): (i: int)
    requires 1 <= n <= SQUARE_COUNT
    ensures 0 <= i < n
    ensures forall j :: 0 <= j < n ==> RankedSize(m, AllSquares()[i]) <= RankedSize(m, AllSquares()[j])
    ensures forall j :: 0 <= j < i ==> RankedSize(m, AllSquares()[i]) < RankedSize(m, AllSquares()[j])
  {
    if n == 1 then 0
    else
      var i := MinIndex(m, n - 1);
      if RankedSize(m, AllSquares()[n - 1]) < RankedSize(m, AllSquares()[i]) then n - 1 else i
  }

  /** The square search() branches on. */
  function SearchKey(m: SquareValues): Square
  {
    AllSquares()[MinIndex(m, SQUARE_COUNT)]
  }

  /**
   * With lists of at most nine values, the square of least rank is down to one value only when
   * every square is: search() never branches on a settled square of an unsolved map.
   */
  lemma SingleKeySolved(m: SquareValues)
    requires WithinRange(m)
    ensures OnBoard(SearchKey(m))
    ensures |Get(m, SearchKey(m))| == 1 ==> Solved(m)
  {
    AllSquaresOnBoard();
    if |Get(m, SearchKey(m))| == 1 {
      forall k | 0 <= k < SQUARE_COUNT ensures |Get(m, AllSquares()[k])| == 1 {
        InRangeList(m, AllSquares()[k]);
      }
    }
  }

  /**
   * search(): an empty map is the failure result and is returned as it is; otherwise the call is
   * counted, a solved map is returned, and each value of the key square is tried on a copy of the
   * map, in list order, returning the first copy whose search succeeds. recursions is passed by
   * reference in the source: here it goes in and comes back as count.
   */
  method Search(m: SquareValues, recursions: int) returns (r: SquareValues, count: int, ghost calls: nat)
    requires WithinRange(m)
    // calls counts the search() calls on nonempty maps, this one and those below it
    ensures count == recursions + calls && (calls == 0 <==> m == map[])
    ensures m == map[] ==> r == map[]
    ensures m != map[] && Solved(m) ==> r == m && calls == 1
    ensures r != map[] ==> Solved(r) && r.Keys == m.Keys && Shrinks(m, r) && Sound(m, r)
    decreases Total(m)
  {
    if m == map[] {
      return map[], recursions, 0;
    }
    count, calls := recursions + 1, 1;
    if Solved(m) {
      ShrinksItself(m);
      return m, count, calls;
    }
    var key := SearchKey(m);
    SingleKeySolved(m);
    InRangeList(m, key);
    var values := Get(m, key);
    for i := 0 to |values|
      invariant count == recursions + calls && calls >= 1
    {
      var valueFixed, valueClone := Assign(m, key, values[i]);
      if valueFixed {
        ShrinksTotal(m, valueClone, key);
        ShrinksWithinRange(m, valueClone);
        var result;
        ghost var below;
        result, count, below := Search(valueClone, count);
        calls := calls + below;
        if result != map[] {
          ShrinksTransitive(m, valueClone, result);
          SoundCompose(m, valueClone, result);
          return result, count, calls;
        }
      }
    }
    return map[], count, calls;
  }

  /** The message parseGrid() throws when a given cannot be assigned. */
  function ContradictionMessage(row: int, col: int, value: int): string
  {
    MessageText(IntToString(row), IntToString(col), IntToString(value))
  }

  /** The message with the texts of the row, the column and the value filled in. */
  function MessageText(row: string, col: string, value: string): string
  {
    var square := "[" + row + "," + col + "]";
    "Illegal board: contradiction at [" + square + "] for digit " + value
  }

  /** The position of the first d in text, or its length. */
  function Find(text: string, d: char): (i: nat)
    ensures i <= |text|
    ensures forall k :: 0 <= k < i ==> text[k] != d
    ensures i < |text| ==> text[i] == d
  {
    if text == [] then 0 else if text[0] == d then 0 else 1 + Find(text[1..], d)
  }

  /** A text split at its first d gives back its two parts. */
  lemma SplitAtFirst(x: string, y: string, x2: string, y2: string, d: char)
    requires d !in x && d !in x2 && x + [d] + y == x2 + [d] + y2
    ensures x == x2 && y == y2
  {
    var text := x + [d] + y;
    assert text[|x|] == d && text[|x2|] == d;
    assert forall k :: 0 <= k < |x| ==> text[k] == x[k];
    assert forall k :: 0 <= k < |x2| ==> text[k] == x2[k];
    assert Find(text, d) == |x|;
    assert Find(text, d) == |x2|;
    assert x == text[..|x|] && x2 == text[..|x2|];
    assert y == text[|x| + 1..] && y2 == text[|x2| + 1..];
  }

  /** Number texts hold no ',' and no ']'. */
  lemma NumberSymbols(i: int)
    ensures ',' !in IntToString(i) && ']' !in IntToString(i)
  {
    var t := IntToString(i);
    if i < 0 {
      assert forall k :: 1 <= k < |t| ==> t[k] == NatToString(-i)[k - 1];
    }
  }

  /** A message splits back into its row, column and value texts. */
  lemma MessageTextSplits(r1: string, c1: string, v1: string, r2: string, c2: string, v2: string)
    requires ',' !in r1 && ',' !in r2 && ']' !in c1 && ']' !in c2
    requires MessageText(r1, c1, v1) == MessageText(r2, c2, v2)
    ensures r1 == r2 && c1 == c2 && v1 == v2
  {
    var head := "Illegal board: contradiction at [[";
    var tail := "] for digit ";
    var rest1 := r1 + [','] + (c1 + [']'] + (tail + v1));
    var rest2 := r2 + [','] + (c2 + [']'] + (tail + v2));
    MessageTextParts(r1, c1, v1);
    MessageTextParts(r2, c2, v2);
    DropPrefix(head, rest1, rest2);
    SplitAtFirst(r1, c1 + [']'] + (tail + v1), r2, c2 + [']'] + (tail + v2), ',');
    SplitAtFirst(c1, tail + v1, c2, tail + v2, ']');
    DropPrefix(tail, v1, v2);
  }

  lemma MessageTextParts(r: string, c: string, v: string)
    ensures MessageText(r, c, v) == "Illegal board: contradiction at [[" + (r + [','] + (c + [']'] + ("] for digit " + v)))
  {
  }

  lemma DropPrefix(p: string, a: string, b: string)
    requires p + a == p + b
    ensures a == b
  {
    assert a == (p + a)[|p|..];
    assert b == (p + b)[|p|..];
  }

  /** The message names the square and the value: different contradictions read differently. */
  lemma ContradictionMessageNames(r1: int, c1: int, v1: int, r2: int, c2: int, v2: int)
    requires ContradictionMessage(r1, c1, v1) == ContradictionMessage(r2, c2, v2)
    ensures r1 == r2 && c1 == c2 && v1 == v2
  {
    NumberSymbols(r1);
    NumberSymbols(r2);
    NumberSymbols(c1);
    NumberSymbols(c2);
    MessageTextSplits(IntToString(r1), IntToString(c1), IntToString(v1),
      IntToString(r2), IntToString(c2), IntToString(v2));
    IntToStringInjective(r1, r2);
    IntToStringInjective(c1, c2);
    IntToStringInjective(v1, v2);
  }

  /** The map parseGrid() starts from: every square of the board with all of 1 .. 9. */
  ghost predicate AllCandidates(m: SquareValues)
  {
    (forall s :: s in m <==> OnBoard(s)) && forall s :: s in m ==> m[s] == VALUE_RANGE
  }

  /** The starting map is within range, consistent, and gives every square a candidate. */
  lemma AllCandidatesFacts(m: SquareValues)
    requires AllCandidates(m)
    ensures WithinRange(m) && Consistent(m)
    ensures forall s :: OnBoard(s) ==> Get(m, s) != []
  {
    TraitsRanges();
    SubseqItself(VALUE_RANGE);
  }

  /** A square whose list changed soundly from a nonempty list is still nonempty. */
  lemma StillNonempty(m0: SquareValues, m: SquareValues, s: Square)
    requires Sound(m0, m) && OnBoard(s) && Get(m0, s) != []
    ensures Get(m, s) != []
  {
  }

  /** A square fixed to one value keeps it while candidates are deleted soundly. */
  lemma FixedKept(m1: SquareValues, m2: SquareValues, s: Square, g: int)
    requires Shrinks(m1, m2) && Sound(m1, m2) && OnBoard(s) && Get(m1, s) == [g]
    ensures Get(m2, s) == [g]
  {
    if Get(m2, s) != Get(m1, s) {
      SubseqOfSingle(Get(m2, s), g);
    }
  }

  /** A given of board at s is s's only candidate in m. */
  predicate KeepsGiven(m: SquareValues, board: Grid, s: Square)
    requires IsBoard(board) && OnBoard(s)
  {
    board[s.0][s.1] != NO_VALUE ==> Get(m, s) == [board[s.0][s.1]]
  }

  /** The givens of the first k squares in set order are fixed in m. */
  predicate GivensFixed(m: SquareValues, board: Grid, k: int)
    requires IsBoard(board) && 0 <= k <= SQUARE_COUNT
  {
    AllSquaresOnBoard();
    forall j :: 0 <= j < k ==> KeepsGiven(m, board, AllSquares()[j])
  }

  /** Fixing the given of square k keeps the givens of the squares before it fixed. */
  lemma GivensStep(m: SquareValues, next: SquareValues, board: Grid, k: int)
    requires IsBoard(board) && 0 <= k < SQUARE_COUNT && Shrinks(m, next) && Sound(m, next)
    requires GivensFixed(m, board, k)
    requires OnBoard(AllSquares()[k]) && KeepsGiven(next, board, AllSquares()[k])
    ensures GivensFixed(next, board, k + 1)
  {
    AllSquaresOnBoard();
    forall j | 0 <= j < k ensures KeepsGiven(next, board, AllSquares()[j]) {
      var t := AllSquares()[j];
      if board[t.0][t.1] != NO_VALUE {
        FixedKept(m, next, t, board[t.0][t.1]);
      }
    }
  }

  /** A consistent map within range that fixes every given shows the givens are a legal board. */
  lemma GivensLegal(m: SquareValues, board: Grid)
    requires IsBoard(board) && WithinRange(m) && Consistent(m)
    requires forall s :: OnBoard(s) ==> KeepsGiven(m, board, s)
    ensures CellsInRange(board) && NoDuplicates(board)
  {
    forall r, c | 0 <= r < BOARD_SIZE && 0 <= c < BOARD_SIZE ensures 0 <= board[r][c] <= MAX_VALUE {
      assert KeepsGiven(m, board, (r, c));
      InRangeList(m, (r, c));
      if board[r][c] != NO_VALUE {
        assert board[r][c] in Get(m, (r, c));
      }
    }
    forall r1, c1, r2, c2 |
      0 <= r1 < BOARD_SIZE && 0 <= c1 < BOARD_SIZE && 0 <= r2 < BOARD_SIZE && 0 <= c2 < BOARD_SIZE &&
      (r1, c1) != (r2, c2) && SameUnit(r1, c1, r2, c2) && board[r1][c1] != NO_VALUE
      ensures board[r1][c1] != board[r2][c2]
    {
      assert KeepsGiven(m, board, (r1, c1)) && KeepsGiven(m, board, (r2, c2));
      assert Settled(m, (r1, c1));
      assert IsPeer((r1, c1), (r2, c2));
    }
  }

  /**
   * parseGrid(): start every square with 1 .. 9 and assign each given in set order. A given that
   * cannot be assigned raises the contradiction message (the Err result).
   */
  method ParseGrid(board: Grid) returns (res: Result<SquareValues>)
    requires IsBoard(board)
    ensures res.Ok? ==> forall s :: s in res.value <==> OnBoard(s)
    ensures res.Ok? ==> WithinRange(res.value) && Consistent(res.value)
    ensures res.Ok? ==> forall s :: OnBoard(s) ==> KeepsGiven(res.value, board, s)
    ensures res.Ok? ==> CellsInRange(board) && NoDuplicates(board)
    ensures res.Err? ==>
      exists s :: OnBoard(s) && board[s.0][s.1] != NO_VALUE && res.msg == ContradictionMessage(s.0, s.1, board[s.0][s.1])
  {
    var order := AllSquares();
    var values: SquareValues := map[];
    for k := 0 to SQUARE_COUNT
      invariant forall s :: s in values <==> s in order[..k]
      invariant forall s :: s in values ==> values[s] == VALUE_RANGE
    {
      values := values[order[k] := VALUE_RANGE];
      assert order[..k + 1] == order[..k] + [order[k]];
    }
    assert order[..SQUARE_COUNT] == order;
    forall s ensures s in values <==> OnBoard(s) {
      InAllSquares(s);
    }
    var start := values;
    AllCandidatesFacts(start);
    ShrinksItself(start);
    AllSquaresOnBoard();

    for k := 0 to SQUARE_COUNT
      invariant values.Keys == start.Keys && Shrinks(start, values) && Sound(start, values)
      invariant GivensFixed(values, board, k)
    {
      var (rowIdx, colIdx) := order[k];
      var value := board[rowIdx][colIdx];
      if value != NO_VALUE {
        var square := (rowIdx, colIdx);
        var givenFixed, next := Assign(values, square, value);
        if !givenFixed {
          return Err(ContradictionMessage(rowIdx, colIdx, value));
        }
        StillNonempty(start, values, square);
        ShrinksWithinRange(start, values);
        InRangeList(values, square);
        assert KeepsGiven(next, board, square);
        GivensStep(values, next, board, k);
        SoundCompose(start, values, next);
        ShrinksTransitive(start, values, next);
        values := next;
      } else {
        ShrinksItself(values);
        GivensStep(values, values, board, k);
      }
    }
    ShrinksWithinRange(start, values);
    ConsistentKept(start, values);
    AllSquaresAt();
    forall s | OnBoard(s) ensures KeepsGiven(values, board, s) {
      assert order[s.0 * BOARD_SIZE + s.1] == s;
      assert KeepsGiven(values, board, order[s.0 * BOARD_SIZE + s.1]);
    }
    GivensLegal(values, board);
    return Ok(values);
  }

  /** Different positions of the set order hold different squares. */
  lemma AllSquaresDistinct()
    ensures forall i, j :: 0 <= i < SQUARE_COUNT && 0 <= j < SQUARE_COUNT && i != j ==> AllSquares()[i] != AllSquares()[j]
  {
    AllSquaresSorted();
  }

  /**
   * Reading off the single value of every square of a solved, consistent map within range gives
   * a solution, and it keeps every given the map fixes.
   */
  lemma SolutionFromMap(m: SquareValues, g: Grid, givens: Grid)
    requires IsBoard(g) && IsBoard(givens) && Solved(m) && WithinRange(m) && Consistent(m)
    requires forall r, c :: 0 <= r < BOARD_SIZE && 0 <= c < BOARD_SIZE ==> Get(m, (r, c)) == [g[r][c]]
    requires forall s :: OnBoard(s) ==> KeepsGiven(m, givens, s)
    ensures IsSolution(g) && Extends(g, givens)
  {
    forall r, c | 0 <= r < BOARD_SIZE && 0 <= c < BOARD_SIZE ensures 1 <= g[r][c] <= MAX_VALUE {
      InRangeList(m, (r, c));
      assert Get(m, (r, c))[0] in Get(m, (r, c));
    }
    forall r1, c1, r2, c2 |
      0 <= r1 < BOARD_SIZE && 0 <= c1 < BOARD_SIZE && 0 <= r2 < BOARD_SIZE && 0 <= c2 < BOARD_SIZE &&
      (r1, c1) != (r2, c2) && SameUnit(r1, c1, r2, c2) && g[r1][c1] != NO_VALUE
      ensures g[r1][c1] != g[r2][c2]
    {
      assert Settled(m, (r1, c1)) && IsPeer((r1, c1), (r2, c2));
      assert Get(m, (r2, c2))[0] in Get(m, (r2, c2));
    }
    forall r, c | 0 <= r < BOARD_SIZE && 0 <= c < BOARD_SIZE && givens[r][c] != NO_VALUE
      ensures g[r][c] == givens[r][c]
    {
      assert KeepsGiven(m, givens, (r, c));
    }
  }

  /** Once every square's single value is written into the board, the board reads off the map. */
  lemma WrittenBack(m: SquareValues, board: array2<int>)
    requires IsNine(board) && Solved(m)
    requires forall j :: 0 <= j < SQUARE_COUNT ==>
      board[AllSquares()[j].0, AllSquares()[j].1] == Get(m, AllSquares()[j])[0]
    ensures forall r, c :: 0 <= r < BOARD_SIZE && 0 <= c < BOARD_SIZE ==> Get(m, (r, c)) == [Snapshot(board)[r][c]]
  {
    AllSquaresAt();
    SolvedSquares(m);
    forall r, c | 0 <= r < BOARD_SIZE && 0 <= c < BOARD_SIZE
      ensures Get(m, (r, c)) == [Snapshot(board)[r][c]]
    {
      assert AllSquares()[r * BOARD_SIZE + c] == (r, c);
      assert |Get(m, (r, c))| == 1;
    }
  }

  /**
   * ConstraintPropagationSolver::solve(): parse the board, search, and write the single value of
   * every square of a found solution back into the board. A contradiction among the givens is
   * caught and reported as a failure with no search done; a failed search writes nothing.
   */
  method Solve(board: array2<int>) returns (solved: bool, recursions: int, ghost calls: nat)
    requires IsNine(board)
    modifies board
    ensures solved ==> IsSolution(Snapshot(board)) && Extends(Snapshot(board), old(Snapshot(board)))
    ensures !solved ==> Snapshot(board) == old(Snapshot(board))
    // the count starts from 0 on every solve and counts the search() calls
    ensures recursions == calls && (solved ==> calls >= 1)
    ensures !(CellsInRange(old(Snapshot(board))) && NoDuplicates(old(Snapshot(board)))) ==> !solved && recursions == 0
  {
    recursions, calls := 0, 0;
    var givens := Snapshot(board);
    var parsed := ParseGrid(givens);
    if parsed.Err? {
      // The message goes to std::cerr; output is not modelled.
      return false, recursions, calls;
    }
    var originalValues := parsed.value;
    var resultingValues;
    resultingValues, recursions, calls := Search(originalValues, recursions);
    solved := resultingValues != map[];
    if solved {
      // The write-back loop runs over the entries of the result, whose keys are the squares of
      // the board in set order; an empty result writes nothing.
      var order := AllSquares();
      SolvedSquares(resultingValues);
      AllSquaresOnBoard();
      AllSquaresDistinct();
      for k := 0 to SQUARE_COUNT
        invariant forall j :: 0 <= j < k ==> board[order[j].0, order[j].1] == Get(resultingValues, order[j])[0]
      {
        var square := order[k];
        board[square.0, square.1] := resultingValues[square][0];
      }
      WrittenBack(resultingValues, board);
      ShrinksWithinRange(originalValues, resultingValues);
      ConsistentKept(originalValues, resultingValues);
      forall s | OnBoard(s) ensures KeepsGiven(resultingValues, givens, s) {
        if givens[s.0][s.1] != NO_VALUE {
          FixedKept(originalValues, resultingValues, s, givens[s.0][s.1]);
        }
      }
      SolutionFromMap(resultingValues, Snapshot(board), givens);
    }
  }
}
