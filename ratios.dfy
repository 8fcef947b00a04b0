/** Percentages and means, stated over the reals (the source computes them in
    floating point). */
module Ratios {
  import opened Grouping

  /** `(part / whole) * 100`, and 0 when whole is 0. */
  function Percent(part: int, whole: int): real
  {
    if whole == 0 then 0.0 else (part as real / whole as real) * 100.0
  }

  /** A part of a whole is between 0 and 100 percent of it, 100 exactly when it is
      all of it and 0 exactly when it is none of it. */
  lemma PercentBounds(part: nat, whole: nat)
    requires part <= whole
    ensures 0.0 <= Percent(part, whole) <= 100.0
    ensures whole > 0 ==> (Percent(part, whole) == 100.0 <==> part == whole)
    ensures Percent(part, whole) == 0.0 <==> part == 0
  {
    if whole > 0 {
      var q := part as real / whole as real;
      assert q * whole as real == part as real;
      if part == whole {
        assert (q - 1.0) * whole as real == 0.0;
      }
      if q == 1.0 {
        assert part as real == whole as real;
      }
    }
  }

  /** `total / n`. */
  function Mean(total: int, n: int): real
    requires n > 0
  {
    total as real / n as real
  }

  /** A mean of n values, each between lo and hi, lies between lo and hi. */
  lemma MeanBetween(total: int, n: int, lo: int, hi: int)
    requires n > 0 && lo * n <= total <= hi * n
    ensures lo as real <= Mean(total, n) <= hi as real
  {
    var m := Mean(total, n);
    assert m * n as real == total as real;
    assert (lo * n) as real == lo as real * n as real;
    assert (hi * n) as real == hi as real * n as real;
  }

  /** A mean times the number of values is their total. */
  lemma MeanTimes(total: int, n: int)
    requires n > 0
    ensures Mean(total, n) * n as real == total as real
  {
  }

  /** The mean of n >= 1 values with a positive total is positive and at most
      the total. */
  lemma MeanAtMost(total: int, n: int)
    requires n > 0 && total > 0
    ensures 0.0 < Mean(total, n) <= total as real
  {
    assert total * n == total + total * (n - 1);
    assert total * (n - 1) >= 0;
    MeanBetween(total, n, 0, total);
    MeanTimes(total, n);
  }

  /** The mean of grouped positive amounts is the total over the number of
      groups, above 0 and at most the total. */
  lemma MeanOfGroups(rows: seq<(int, int)>)
    requires rows != [] && forall i :: 0 <= i < |rows| ==> rows[i].1 > 0
    ensures var g := GroupByKey(rows);
      |g| > 0 && Total(g) == Total(rows) && 0.0 < Mean(Total(g), |g|) <= Total(rows) as real
  {
    var g := GroupByKey(rows);
    GroupByKeyPositive(rows);
    MeanAtMost(Total(g), |g|);
  }
}
