/**
 * Sudoku/StreamUtil.hpp and Sudoko/StreamUtil.hpp: join, subrangeView, the RangeArray fill and the
 * integer range used by the earlier programs.
 */
module StreamUtil {
  import RangeViews
  import RangeArrays

  // ---------------------------------------------------------------------------------------------
  // join

  /**
   * The text join writes: the elements separated by the delimiter. The elements are given as the
   * text `operator<<` prints for them.
   */
  function JoinSpec(items: seq<string>, delimiter: string): string
  {
    if |items| == 0 then ""
    else if |items| == 1 then items[0]
    else items[0] + delimiter + JoinSpec(items[1..], delimiter)
  }

  /** Joining one more element appends the delimiter and the element. */
  lemma {:induction false} JoinSnoc(items: seq<string>, x: string, delimiter: string)
    requires |items| >= 1
    ensures JoinSpec(items + [x], delimiter) == JoinSpec(items, delimiter) + delimiter + x
    decreases |items|
  {
    if |items| > 1 {
      assert (items + [x])[1..] == items[1..] + [x];
      JoinSnoc(items[1..], x, delimiter);
    }
  }

  /** join(iterable, delimiter): the first element, then the delimiter before every further one. */
  method Join(items: seq<string>, delimiter: string) returns (s: string)
    ensures s == JoinSpec(items, delimiter)
  {
    s := "";
    var i := 0;
    if i != |items| {
      s := s + items[i];
      i := i + 1;
    }
    while i != |items|
      invariant 0 <= i <= |items| && (|items| > 0 ==> i >= 1)
      invariant s == JoinSpec(items[..i], delimiter)
      decreases |items| - i
    {
      JoinSnoc(items[..i], items[i], delimiter);
      assert items[..i + 1] == items[..i] + [items[i]];
      s := s + delimiter + items[i];
      i := i + 1;
    }
    assert items[..i] == items;
  }

  /** The position of the first d in s. */
  function IndexOf(s: string, d: char): (k: nat)
    requires d in s
    ensures k < |s| && s[k] == d && d !in s[..k]
  {
    if s[0] == d then 0 else 1 + IndexOf(s[1..], d)
  }

  /** Splitting at every d: the pieces between the delimiters, empty pieces included. */
  function Split(s: string, d: char): (parts: seq<string>)
    ensures |parts| >= 1
    decreases |s|
  {
    if d in s then
      var k := IndexOf(s, d);
      [s[..k]] + Split(s[k + 1..], d)
    else
      [s]
  }

  lemma IndexOfJoined(a: string, d: char, b: string)
    requires d !in a
    ensures d in a + [d] + b && IndexOf(a + [d] + b, d) == |a|
  {
    var s := a + [d] + b;
    assert s[|a|] == d;
    assert s[..|a|] == a;
  }

  /** Splitting a join at a delimiter none of the elements contains gives the elements back. */
  lemma {:induction false} SplitJoin(items: seq<string>, d: char)
    requires |items| >= 1
    requires forall i :: 0 <= i < |items| ==> d !in items[i]
    ensures Split(JoinSpec(items, [d]), d) == items
    decreases |items|
  {
    if |items| > 1 {
      var rest := JoinSpec(items[1..], [d]);
      IndexOfJoined(items[0], d, rest);
      var s := items[0] + [d] + rest;
      assert s[..|items[0]|] == items[0];
      assert s[|items[0]| + 1..] == rest;
      SplitJoin(items[1..], d);
    }
  }

  /** Joining the pieces of a split with the delimiter gives the text back. */
  lemma {:induction false} JoinSplit(s: string, d: char)
    ensures JoinSpec(Split(s, d), [d]) == s
    decreases |s|
  {
    if d in s {
      var k := IndexOf(s, d);
      JoinSplit(s[k + 1..], d);
      var parts := Split(s, d);
      assert parts[1..] == Split(s[k + 1..], d);
      assert s == s[..k] + [d] + s[k + 1..];
    }
  }

  // ---------------------------------------------------------------------------------------------
  // subrangeView

  /** subrangeView(c, from, to): the same view RangeView makes (an IteratorRange of two positions). */
  function SubrangeView<T>(c: seq<T>, from: nat, to: nat): (v: RangeViews.RangeView<T>)
    requires from <= to <= |c|
    ensures v.Valid() && v.Elements() == c[from..to]
    ensures v == RangeViews.MakeRangeView(c, from, to)
  {
    RangeViews.RangeView(c, from, to)
  }

  // ---------------------------------------------------------------------------------------------
  // RangeArray (Sudoku/StreamUtil.hpp): a value-initialised array whose element i is assigned start + i * step

  method RangeArrayFill(n: nat, start: int, step: int) returns (arr: array<int>)
    ensures fresh(arr)
    ensures arr[..] == RangeArrays.RangeArray(n, start, step)
  {
    arr := new int[n](_ => 0);
    for i := 0 to n
      invariant forall j :: 0 <= j < i ==> arr[j] == start + j * step
    {
      arr[i] := start + i * step;
    }
  }

  // ---------------------------------------------------------------------------------------------
  // IntIterator and IntRange (Sudoko/StreamUtil.hpp)

  class IntIterator {
    var value: int

    constructor(v: int)
      ensures value == v
    {
      value := v;
    }

    /** operator++ */
    method Increment()
      modifies this
      ensures value == old(value) + 1
    {
      value := value + 1;
    }
  }

  datatype IntRange = IntRange(begin: int, end: int)

  /**
   * The values a range-for over IntRange(begin, end) visits: it starts an iterator at begin and
   * increments it until it equals end. Starting above end it would never stop (and overflow int).
   */
  method Elements(range: IntRange) returns (vs: seq<int>)
    requires range.begin <= range.end
    ensures |vs| == range.end - range.begin
    ensures forall i :: 0 <= i < |vs| ==> vs[i] == range.begin + i
  {
    var it := new IntIterator(range.begin);
    var last := new IntIterator(range.end);
    vs := [];
    while it.value != last.value
      invariant range.begin <= it.value <= range.end && last.value == range.end
      invariant |vs| == it.value - range.begin
      invariant forall i :: 0 <= i < |vs| ==> vs[i] == range.begin + i
      decreases range.end - it.value
    {
      vs := vs + [it.value];
      it.Increment();
    }
  }
}
