/**
 * includes/RangeView.hpp: a non-owning view of the elements from index `from` (inclusive) to
 * index `to` (exclusive) of a random-access container. A view is its container and its two
 * iterator positions; iterating it visits the elements between them.
 */
module RangeViews {
  datatype RangeView<T> = RangeView(container: seq<T>, begin: nat, end: nat)
  {
    ghost predicate Valid()
    {
      begin <= end <= |container|
    }

    /** The elements a range-for over the view visits, in order: the view's abstraction function. */
    function Elements(): (es: seq<T>)
      requires Valid()
      ensures |es| == end - begin
      ensures forall i :: 0 <= i < |es| ==> es[i] == container[begin + i]
    {
      container[begin..end]
    }
  }

  /**
   * The constructor: begin = next(container.begin(), from), end = next(container.begin(), to).
   * Positions past the end of the container are undefined behaviour in C++, hence the precondition.
   */
  function MakeRangeView<T>(container: seq<T>, from: nat, to: nat): (v: RangeView<T>)
    requires from <= to <= |container|
    ensures v.Valid() && v.container == container
    ensures v.Elements() == container[from..to]
  {
    RangeView(container, from, to)
  }

  /** A view from i to i visits nothing. */
  lemma EmptyView<T>(container: seq<T>, i: nat)
    requires i <= |container|
    ensures MakeRangeView(container, i, i).Elements() == []
  {
  }

  /** Two adjacent views together visit what the view spanning both visits. */
  lemma AdjacentViews<T>(container: seq<T>, a: nat, b: nat, c: nat)
    requires a <= b <= c <= |container|
    ensures MakeRangeView(container, a, b).Elements() + MakeRangeView(container, b, c).Elements()
         == MakeRangeView(container, a, c).Elements()
  {
    assert container[a..b] + container[b..c] == container[a..c];
  }

  /** A view of the whole container visits every element. */
  lemma WholeView<T>(container: seq<T>)
    ensures MakeRangeView(container, 0, |container|).Elements() == container
  {
  }

  /** The views of the unit tests: {1,...,6} from 2 to 5 visits 3, 4, 5. */
  lemma ExampleViews()
    ensures MakeRangeView([1, 2, 3, 4, 5, 6], 2, 5).Elements() == [3, 4, 5]
    ensures MakeRangeView([10, 20, 30, 40], 1, 3).Elements() == [20, 30]
    ensures MakeRangeView([1, 4, 9, 16], 2, 4).Elements() == [9, 16]
  {
  }
}
