/** includes/RangeArray.hpp: a compile-time array holding an arithmetic progression. */
module RangeArrays {

  /** RangeArray<N>(start, step): element i is start + i * step. */
  function RangeArray(n: nat, start: int, step: int): (r: seq<int>)
  {
    seq(n, i => start + i * step)
  }

  /** A positive step gives a strictly ascending array, a negative one a strictly descending array. */
  lemma RangeArrayMonotone(n: nat, start: int, step: int, i: nat, j: nat)
    requires i < j < n
    ensures step > 0 ==> RangeArray(n, start, step)[i] < RangeArray(n, start, step)[j]
    ensures step < 0 ==> RangeArray(n, start, step)[i] > RangeArray(n, start, step)[j]
  {
    var r := RangeArray(n, start, step);
    assert r[j] - r[i] == (j - i) * step;
    if step > 0 {
      assert (j - i) * step >= step by { MulAtLeast(j - i, step); }
    } else if step < 0 {
      assert (j - i) * -step >= -step by { MulAtLeast(j - i, -step); }
      assert (j - i) * step == -((j - i) * -step);
    }
  }

  lemma MulAtLeast(k: int, s: int)
    requires k >= 1 && s > 0
    ensures k * s >= s
  {
    assert k * s == (k - 1) * s + s;
    assert (k - 1) * s >= 0;
  }

  /** The two ranges SudokuTraits builds: RangeArray<9>(0, 1) is 0..8 and RangeArray<9>(1, 1) is 1..9. */
  lemma NineElementRanges()
    ensures RangeArray(9, 0, 1) == [0, 1, 2, 3, 4, 5, 6, 7, 8]
    ensures RangeArray(9, 1, 1) == [1, 2, 3, 4, 5, 6, 7, 8, 9]
  {
  }
}
