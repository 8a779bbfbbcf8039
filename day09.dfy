/** Day 9: extrapolating each history one value backwards, by a binomial closed form over a
    growing cache of Pascal's triangle. */
module Day9Mirage {

  // ---------------------------------------------------------------------------
  // Binomial coefficients and the cache (day9/puzzle2.js binomial, cachedBinomials)
  // ---------------------------------------------------------------------------

  /** C(n, k) by Pascal's rule, 0 when k > n. */
  function Choose(n: nat, k: nat): nat
  {
    if k == 0 then 1 else if n == 0 then 0 else Choose(n - 1, k - 1) + Choose(n - 1, k)
  }

  lemma {:induction false} ChooseAbove(n: nat, k: nat)
    requires k > n
    ensures Choose(n, k) == 0
  {
    if n > 0 {
      ChooseAbove(n - 1, k - 1);
      ChooseAbove(n - 1, k);
    }
  }

  /** The ends of every row are 1. */
  lemma {:induction false} ChooseEnds(n: nat)
    ensures Choose(n, 0) == 1 && Choose(n, n) == 1
  {
    if n > 0 {
      ChooseEnds(n - 1);
      ChooseAbove(n - 1, n);
    }
  }

  /** Row n of Pascal's triangle: n + 1 entries. */
  function PascalRow(n: nat): (row: seq<int>)
    ensures |row| == n + 1
  {
    seq(n + 1, k requires 0 <= k <= n => Choose(n, k))
  }

  /** Row n is built from row n - 1 as the source builds `nextRow`: a 1, the sums of
      neighbouring entries, and a closing 1. */
  lemma PascalRowFromPrevious(n: nat)
    requires n >= 1
    ensures PascalRow(n) == [1] + seq(n - 1, i requires 0 <= i < n - 1 => PascalRow(n - 1)[i] + PascalRow(n - 1)[i + 1]) + [1]
  {
    var r := [1] + seq(n - 1, i requires 0 <= i < n - 1 => PascalRow(n - 1)[i] + PascalRow(n - 1)[i + 1]) + [1];
    forall k | 0 <= k <= n ensures r[k] == PascalRow(n)[k] {
      if k == n {
        ChooseEnds(n);
      } else if k > 0 {
        assert r[k] == PascalRow(n - 1)[k - 1] + PascalRow(n - 1)[k];
      }
    }
  }

  /** The body of the while loop in `binomial`: row m from row m - 1. */
  method NextRow(m: nat, previousRow: seq<int>) returns (nextRow: seq<int>)
    requires m >= 1 && previousRow == PascalRow(m - 1)
    ensures nextRow == PascalRow(m)
  {
    nextRow := [1];
    for i := 1 to |previousRow|
      invariant |nextRow| == i
      invariant nextRow[0] == 1
      invariant forall j :: 1 <= j < i ==> nextRow[j] == previousRow[j - 1] + previousRow[j]
    {
      nextRow := nextRow + [previousRow[i - 1] + previousRow[i]];
    }
    nextRow := nextRow + [1];
    PascalRowFromPrevious(m);
  }

  /** `cachedBinomials`: the rows of Pascal's triangle computed so far. */
  class BinomialCache {
    var rows: seq<seq<int>>

    /** Every cached row is the matching row of Pascal's triangle, and row 0 is there. */
    ghost predicate Valid()
      reads this
    {
      |rows| >= 1 && forall n :: 0 <= n < |rows| ==> rows[n] == PascalRow(n)
    }

    /** `const cachedBinomials = [[1]]`. */
    constructor ()
      ensures Valid() && rows == [[1]]
    {
      rows := [[1]];
      assert PascalRow(0) == [1];
    }

    /** `binomial(n, k)`: extend the cache row by row up to row n, then read entry k. */
    method Binomial(n: nat, k: nat) returns (value: int)
      requires Valid() && k <= n
      modifies this
      ensures Valid()
      ensures value == Choose(n, k)
      ensures |rows| == if n < |old(rows)| then |old(rows)| else n + 1
      ensures old(rows) <= rows
    {
      while n >= |rows|
        invariant Valid()
        invariant old(rows) <= rows
        invariant |old(rows)| <= |rows| <= if n < |old(rows)| then |old(rows)| else n + 1
        decreases n + 1 - |rows|
      {
        var nextRow := NextRow(|rows|, rows[|rows| - 1]);
        rows := rows + [nextRow];
      }
      value := rows[n][k];
    }
  }

  // ---------------------------------------------------------------------------
  // The closed form (day9/puzzle2.js getExtrapolatedValue)
  // ---------------------------------------------------------------------------

  /** `sign`, which starts at 1 and flips every step: (-1)^i. */
  function Sign(i: nat): int
  {
    if i % 2 == 0 then 1 else -1
  }

  /** The weight of history[i]: (-1)^i C(n, i + 1). */
  function Coefficients(n: nat): (c: seq<int>)
    ensures |c| == n
  {
    seq(n, i requires 0 <= i < n => Sign(i) * Choose(n, i + 1))
  }

  /** Sum of c[i] * h[i], folded from the left as the loop adds the terms. */
  function Dot(c: seq<int>, h: seq<int>): int
    requires |c| == |h|
  {
    if c == [] then 0 else Dot(c[..|c| - 1], h[..|h| - 1]) + c[|c| - 1] * h[|h| - 1]
  }

  /** What getExtrapolatedValue returns: the coefficients applied to the history. */
  function Extrapolation(history: seq<int>): int
  {
    Dot(Coefficients(|history|), history)
  }

  /** day9/puzzle2.js getExtrapolatedValue. */
  method GetExtrapolatedValue(cache: BinomialCache, history: seq<int>) returns (extrapolatedValue: int)
    requires cache.Valid()
    modifies cache
    ensures cache.Valid() && old(cache.rows) <= cache.rows
    ensures extrapolatedValue == Extrapolation(history)
  {
    var n := |history|;
    ghost var c := Coefficients(n);
    extrapolatedValue := 0;
    var sign := 1;
    for i := 0 to n
      invariant cache.Valid() && old(cache.rows) <= cache.rows
      invariant sign == Sign(i)
      invariant extrapolatedValue == Dot(c[..i], history[..i])
    {
      var b := cache.Binomial(n, i + 1);
      assert c[..i + 1][..i] == c[..i] && history[..i + 1][..i] == history[..i];
      extrapolatedValue := extrapolatedValue + sign * b * history[i];
      sign := sign * -1;
    }
    assert c[..n] == c && history[..n] == history;
  }

  // ---------------------------------------------------------------------------
  // The reference: extrapolating backwards through the table of differences
  // ---------------------------------------------------------------------------

  /** The differences between neighbouring values. */
  function Differences(h: seq<int>): (d: seq<int>)
    requires |h| >= 1
    ensures |d| == |h| - 1
  {
    seq(|h| - 1, i requires 0 <= i < |h| - 1 => h[i + 1] - h[i])
  }

  /** The value before the first: the first value minus the value before the first difference
      (an all-zero row, and the empty row, give 0). */
  function PreviousValue(h: seq<int>): int
    decreases |h|
  {
    if h == [] then 0 else h[0] - PreviousValue(Differences(h))
  }

  /** Dot is linear in the coefficients. */
  lemma {:induction false} DotCoefficients(a: seq<int>, b: seq<int>, c: seq<int>, e: seq<int>, h: seq<int>)
    requires |a| == |b| == |c| == |e| == |h|
    requires forall i :: 0 <= i < |e| ==> e[i] == a[i] - b[i] + c[i]
    ensures Dot(e, h) == Dot(a, h) - Dot(b, h) + Dot(c, h)
  {
    if h != [] {
      var n := |h| - 1;
      DotCoefficients(a[..n], b[..n], c[..n], e[..n], h[..n]);
    }
  }

  /** Dot is linear in the values. */
  lemma {:induction false} DotValues(c: seq<int>, x: seq<int>, y: seq<int>, z: seq<int>)
    requires |c| == |x| == |y| == |z|
    requires forall i :: 0 <= i < |z| ==> z[i] == x[i] - y[i]
    ensures Dot(c, z) == Dot(c, x) - Dot(c, y)
  {
    if c != [] {
      var n := |c| - 1;
      DotValues(c[..n], x[..n], y[..n], z[..n]);
    }
  }

  /** A leading pair of entries contributes its product. */
  lemma {:induction false} DotCons(a: int, c: seq<int>, b: int, h: seq<int>)
    requires |c| == |h|
    ensures Dot([a] + c, [b] + h) == a * b + Dot(c, h)
    decreases |c|
  {
    if c != [] {
      var n := |c| - 1;
      assert ([a] + c)[..n + 1] == [a] + c[..n];
      assert ([b] + h)[..n + 1] == [b] + h[..n];
      DotCons(a, c[..n], b, h[..n]);
    }
  }

  /** All-zero coefficients give 0. */
  lemma {:induction false} DotZeros(z: seq<int>, h: seq<int>)
    requires |z| == |h| && forall i :: 0 <= i < |z| ==> z[i] == 0
    ensures Dot(z, h) == 0
  {
    if z != [] {
      DotZeros(z[..|z| - 1], h[..|h| - 1]);
    }
  }

  /** Unit weight on the first entry picks out h[0]. */
  lemma UnitDot(h: seq<int>)
    requires |h| >= 1
    ensures Dot([1] + seq(|h| - 1, i => 0), h) == h[0]
  {
    assert h == [h[0]] + h[1..];
    DotCons(1, seq(|h| - 1, i => 0), h[0], h[1..]);
    DotZeros(seq(|h| - 1, i => 0), h[1..]);
  }

  /** Weights c applied to the differences: the weights shifted right by one applied to h,
      minus the weights padded at the end applied to h. */
  lemma DifferencesDot(c: seq<int>, h: seq<int>)
    requires |h| >= 1 && |c| == |h| - 1
    ensures Dot(c, Differences(h)) == Dot([0] + c, h) - Dot(c + [0], h)
  {
    var n := |h|;
    DotValues(c, h[1..], h[..n - 1], Differences(h));
    assert Dot(c, h[1..]) == Dot([0] + c, h) by {
      assert h == [h[0]] + h[1..];
      DotCons(0, c, h[0], h[1..]);
    }
    assert Dot(c, h[..n - 1]) == Dot(c + [0], h) by {
      assert (c + [0])[..n - 1] == c;
    }
  }

  /** Pascal's rule on the weights: row n is the unit vector, minus row n - 1 shifted right,
      plus row n - 1 padded at the end. */
  lemma CoefficientsStep(n: nat)
    requires n >= 1
    ensures var c1 := Coefficients(n - 1);
      forall i :: 0 <= i < n ==>
        Coefficients(n)[i] == ([1] + seq(n - 1, j => 0))[i] - ([0] + c1)[i] + (c1 + [0])[i]
  {
    var c1 := Coefficients(n - 1);
    forall i | 0 <= i < n
      ensures Coefficients(n)[i] == ([1] + seq(n - 1, j => 0))[i] - ([0] + c1)[i] + (c1 + [0])[i]
    {
      if i == 0 {
        FirstCoefficientStep(n);
      } else {
        LaterCoefficientStep(n, i);
      }
    }
  }

  /** C(n, 1) = C(n - 1, 0) + C(n - 1, 1), the first weight of row n. */
  lemma FirstCoefficientStep(n: nat)
    requires n >= 1
    ensures Coefficients(n)[0] == 1 + (Coefficients(n - 1) + [0])[0]
  {
    var c1 := Coefficients(n - 1);
    assert Coefficients(n)[0] == Sign(0) * Choose(n, 1) == Choose(n, 1);
    assert Choose(n, 1) == Choose(n - 1, 0) + Choose(n - 1, 1);
    if n >= 2 {
      assert (c1 + [0])[0] == c1[0] == Choose(n - 1, 1);
    } else {
      ChooseAbove(0, 1);
    }
  }

  /** (-1)^i C(n, i + 1) = (-1)^i C(n - 1, i + 1) - (-1)^(i - 1) C(n - 1, i) for 0 < i < n. */
  lemma LaterCoefficientStep(n: nat, i: nat)
    requires 0 < i < n
    ensures Coefficients(n)[i] == 0 - ([0] + Coefficients(n - 1))[i] + (Coefficients(n - 1) + [0])[i]
  {
    var c1 := Coefficients(n - 1);
    var a, b := Choose(n - 1, i), Choose(n - 1, i + 1);
    assert Choose(n, i + 1) == a + b;
    assert ([0] + c1)[i] == c1[i - 1] == Sign(i - 1) * a;
    if i < n - 1 {
      assert (c1 + [0])[i] == c1[i] == Sign(i) * b;
    } else {
      ChooseAbove(n - 1, n);
      assert (c1 + [0])[i] == 0 == Sign(i) * b;
    }
    if i % 2 == 0 {
      assert Sign(i) == 1 && Sign(i - 1) == -1;
    } else {
      assert Sign(i) == -1 && Sign(i - 1) == 1;
    }
  }

  /** One step of the reference is one step of the closed form. */
  lemma ExtrapolationStep(h: seq<int>)
    requires |h| >= 1
    ensures Extrapolation(h) == h[0] - Extrapolation(Differences(h))
  {
    var n := |h|;
    var c1 := Coefficients(n - 1);
    UnitDot(h);
    DifferencesDot(c1, h);
    CoefficientsStep(n);
    DotCoefficients([1] + seq(n - 1, j => 0), [0] + c1, c1 + [0], Coefficients(n), h);
  }

  /** The closed form equals extrapolation through the difference table, for every history. */
  lemma {:induction false} ExtrapolationIsPreviousValue(h: seq<int>)
    ensures Extrapolation(h) == PreviousValue(h)
    decreases |h|
  {
    if h != [] {
      ExtrapolationIsPreviousValue(Differences(h));
      ExtrapolationStep(h);
    }
  }

  /** A row of zeros extrapolates to 0. */
  lemma {:induction false} PreviousValueOfZeros(n: nat)
    ensures PreviousValue(seq(n, i => 0)) == 0
  {
    if n > 0 {
      assert Differences(seq(n, i => 0)) == seq(n - 1, i => 0);
      PreviousValueOfZeros(n - 1);
    }
  }

  /** A constant history extends backwards by the same constant. */
  lemma ConstantHistory(n: nat, v: int)
    requires n >= 1
    ensures Extrapolation(seq(n, i => v)) == v
  {
    var h := seq(n, i => v);
    assert Differences(h) == seq(n - 1, i => 0);
    PreviousValueOfZeros(n - 1);
    ExtrapolationIsPreviousValue(h);
  }

  /** Sum of the backward extrapolations, folded from the left like the reduce. */
  function SumPreviousValues(report: seq<seq<int>>): int
  {
    if report == [] then 0 else SumPreviousValues(report[..|report| - 1]) + PreviousValue(report[|report| - 1])
  }

  /** day9/puzzle2.js solve: the sum over the report of the extrapolated values. */
  method Solve(cache: BinomialCache, report: seq<seq<int>>) returns (sumExtrapolatedValues: int)
    requires cache.Valid()
    modifies cache
    ensures cache.Valid()
    ensures sumExtrapolatedValues == SumPreviousValues(report)
  {
    sumExtrapolatedValues := 0;
    for i := 0 to |report|
      invariant cache.Valid()
      invariant sumExtrapolatedValues == SumPreviousValues(report[..i])
    {
      var value := GetExtrapolatedValue(cache, report[i]);
      ExtrapolationIsPreviousValue(report[i]);
      assert report[..i + 1][..i] == report[..i];
      sumExtrapolatedValues := sumExtrapolatedValues + value;
    }
    assert report[..|report|] == report;
  }
}
