/** Numbers as the harness reads them: Python's `int`, and values recorded to a decimal step. */
module Numbers {

  /** Python's `int` of a number. */
  function Truncate(x: real): int {
    if x >= 0.0 then x.Floor else -(-x).Floor
  }

  /** Towards zero, and less than one away. */
  lemma TruncateIs(x: real)
    ensures x >= 0.0 ==> Truncate(x) as real <= x < (Truncate(x) + 1) as real
    ensures x <= 0.0 ==> (Truncate(x) - 1) as real < x <= Truncate(x) as real
  {
    var y := -x;
    assert y.Floor as real <= y < (y.Floor + 1) as real;
  }

  /** The k-th value that can be recorded to a given step. */
  function Mark(k: int, step: real): real {
    k as real * step
  }

  /** Two recorded values are equal or further apart than any margin below the step. */
  lemma MarksApart(k: int, l: int, step: real, margin: real)
    requires 0.0 <= margin < step
    ensures k <= l ==> Mark(k, step) <= Mark(l, step)
    ensures k > l ==> Mark(k, step) > Mark(l, step) + margin
  {
    assert Mark(k, step) - Mark(l, step) == (k - l) as real * step;
    if k > l {
      assert (k - l) as real * step >= step;
    } else {
      assert (k - l) as real * step <= 0.0;
    }
  }

  lemma NonNegativeProduct(x: real, y: real)
    requires x >= 0.0 && y >= 0.0
    ensures x * y >= 0.0
  {
  }
}
