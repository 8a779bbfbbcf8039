/** Day 3: part numbers (digit runs next to a symbol) and gear ratios in an engine schematic. */
module Day3Schematic {
  import opened Common

  type Schematic = seq<string>

  /** One maximal run of digits `/\d+/` in a row: its value and its first and last column. */
  datatype Run = Run(num: int, colStart: int, colEnd: int)

  predicate AllDigits(s: string)
  {
    forall i :: 0 <= i < |s| ==> IsDigit(s[i])
  }

  /** A run that the global digit regex reports: digits from colStart to colEnd, not extendable. */
  ghost predicate MaximalRun(row: string, run: Run)
  {
    && 0 <= run.colStart <= run.colEnd < |row|
    && AllDigits(row[run.colStart..run.colEnd + 1])
    && (run.colStart == 0 || !IsDigit(row[run.colStart - 1]))
    && (run.colEnd + 1 == |row| || !IsDigit(row[run.colEnd + 1]))
    && run.num == DecimalValue(row[run.colStart..run.colEnd + 1])
  }

  /** First position at or after i that does not hold a digit. */
  function RunEnd(row: string, i: nat): (e: nat)
    requires i <= |row|
    ensures i <= e <= |row|
    ensures forall p :: i <= p < e ==> IsDigit(row[p])
    ensures e == |row| || !IsDigit(row[e])
    decreases |row| - i
  {
    if i == |row| || !IsDigit(row[i]) then i else RunEnd(row, i + 1)
  }

  /** The digit runs of row[i..], left to right, as `row.matchAll(/\d+/g)` reports them: after a
      run the search resumes past the non-digit that ends it. */
  function RunsFrom(row: string, i: nat): seq<Run>
    requires i <= |row|
    decreases |row| - i
  {
    if i == |row| then []
    else if !IsDigit(row[i]) then RunsFrom(row, i + 1)
    else
      var e := RunEnd(row, i);
      [Run(DecimalValue(row[i..e]), i, e - 1)] + (if e == |row| then [] else RunsFrom(row, e + 1))
  }

  /** Every run in `runs` is maximal and starts at or after i. */
  ghost predicate MaximalFrom(row: string, runs: seq<Run>, i: int)
  {
    forall k :: 0 <= k < |runs| ==> MaximalRun(row, runs[k]) && i <= runs[k].colStart
  }

  /** Every run reported from position i on is maximal and starts at or after i. */
  lemma {:induction false} RunsAreMaximal(row: string, i: nat)
    requires i <= |row|
    requires i == 0 || !IsDigit(row[i - 1])
    ensures MaximalFrom(row, RunsFrom(row, i), i)
    decreases |row| - i, 1
  {
    if i == |row| {
      assert RunsFrom(row, i) == [];
    } else if !IsDigit(row[i]) {
      assert RunsFrom(row, i) == RunsFrom(row, i + 1);
      RunsAreMaximal(row, i + 1);
    } else {
      RunsAreMaximalAtDigit(row, i);
    }
  }

  lemma {:induction false} RunsAreMaximalAtDigit(row: string, i: nat)
    requires i < |row| && IsDigit(row[i])
    requires i == 0 || !IsDigit(row[i - 1])
    ensures MaximalFrom(row, RunsFrom(row, i), i)
    decreases |row| - i, 0
  {
    var e := RunEnd(row, i);
    var first := Run(DecimalValue(row[i..e]), i, e - 1);
    var rest := if e == |row| then [] else RunsFrom(row, e + 1);
    assert RunsFrom(row, i) == [first] + rest;
    FirstRunMaximal(row, i);
    if e < |row| {
      RunsAreMaximal(row, e + 1);
    }
    MaximalFromCons(row, first, rest, i, e + 1);
  }

  lemma MaximalFromCons(row: string, first: Run, rest: seq<Run>, i: int, j: int)
    requires MaximalRun(row, first) && i <= first.colStart
    requires MaximalFrom(row, rest, j) && i <= j
    ensures MaximalFrom(row, [first] + rest, i)
  {
    var r := [first] + rest;
    forall k | 0 <= k < |r| ensures MaximalRun(row, r[k]) && i <= r[k].colStart {
      if k > 0 {
        assert r[k] == rest[k - 1];
      }
    }
  }

  /** The run starting at a digit that follows a non-digit is maximal. */
  lemma FirstRunMaximal(row: string, i: nat)
    requires i < |row| && IsDigit(row[i])
    requires i == 0 || !IsDigit(row[i - 1])
    ensures var e := RunEnd(row, i); MaximalRun(row, Run(DecimalValue(row[i..e]), i, e - 1))
  {
    var e := RunEnd(row, i);
    assert row[i..e - 1 + 1] == row[i..e];
    assert AllDigits(row[i..e]) by {
      forall j | 0 <= j < e - i ensures IsDigit(row[i..e][j]) {
        assert row[i..e][j] == row[i + j];
      }
    }
  }

  /** The reported runs are in increasing column order with a gap between any two. */
  lemma {:induction false} RunsAreOrdered(row: string, i: nat)
    requires i <= |row|
    ensures forall k :: 0 <= k < |RunsFrom(row, i)| ==> i <= RunsFrom(row, i)[k].colStart <= RunsFrom(row, i)[k].colEnd
    ensures forall k, l :: 0 <= k < l < |RunsFrom(row, i)| ==> RunsFrom(row, i)[k].colEnd + 1 < RunsFrom(row, i)[l].colStart
    decreases |row| - i
  {
    if i == |row| {
    } else if !IsDigit(row[i]) {
      RunsAreOrdered(row, i + 1);
    } else {
      var e := RunEnd(row, i);
      var r := RunsFrom(row, i);
      var rest := if e == |row| then [] else RunsFrom(row, e + 1);
      if e < |row| {
        RunsAreOrdered(row, e + 1);
      }
      assert forall k :: 1 <= k < |r| ==> r[k] == rest[k - 1];
    }
  }

  /** Every digit at or after i lies in one of the reported runs. */
  lemma {:induction false} RunsCoverDigits(row: string, i: nat, p: int)
    requires i <= p < |row| && IsDigit(row[p])
    ensures exists k :: 0 <= k < |RunsFrom(row, i)| && RunsFrom(row, i)[k].colStart <= p <= RunsFrom(row, i)[k].colEnd
    decreases |row| - i
  {
    var r := RunsFrom(row, i);
    if !IsDigit(row[i]) {
      RunsCoverDigits(row, i + 1, p);
    } else {
      var e := RunEnd(row, i);
      if p < e {
        assert r[0].colStart <= p <= r[0].colEnd;
      } else {
        var rest := RunsFrom(row, e + 1);
        RunsCoverDigits(row, e + 1, p);
        var k :| 0 <= k < |rest| && rest[k].colStart <= p <= rest[k].colEnd;
        assert r[k + 1] == rest[k];
      }
    }
  }

  function DigitRuns(row: string): seq<Run>
  {
    RunsFrom(row, 0)
  }

  /** `isSymbol`: a character that is present, not a digit and not `.`. */
  predicate IsSymbolAt(grid: Schematic, r: int, c: int)
  {
    0 <= r < |grid| && 0 <= c < |grid[r]| && !IsDigit(grid[r][c]) && grid[r][c] != '.'
  }

  /** Some cell of the box around the run, one row and one column wider on each side, is a symbol. */
  ghost predicate HasAdjacentSymbol(grid: Schematic, row: int, colStart: int, colEnd: int)
  {
    exists r, c :: row - 1 <= r <= row + 1 && colStart - 1 <= c <= colEnd + 1 && IsSymbolAt(grid, r, c)
  }

  /** day3/puzzle1.js isEnginePart: scan the rows above and below, then the two cells beside. */
  method IsEnginePart(row: int, colStart: int, colEnd: int, grid: Schematic) returns (b: bool)
    requires 0 <= row < |grid| && 0 <= colStart <= colEnd < |grid[row]|
    requires forall c :: colStart <= c <= colEnd ==> IsDigit(grid[row][c])
    ensures b <==> HasAdjacentSymbol(grid, row, colStart, colEnd)
  {
    var above, below := row - 1, row + 1;
    var j := colStart - 1;
    while j <= colEnd + 1
      invariant colStart - 1 <= j <= colEnd + 2
      invariant forall c :: colStart - 1 <= c < j ==> !IsSymbolAt(grid, above, c) && !IsSymbolAt(grid, below, c)
    {
      if IsSymbolAt(grid, above, j) || IsSymbolAt(grid, below, j) {
        return true;
      }
      j := j + 1;
    }
    if IsSymbolAt(grid, row, colStart - 1) || IsSymbolAt(grid, row, colEnd + 1) {
      return true;
    }
    assert forall r, c :: row - 1 <= r <= row + 1 && colStart - 1 <= c <= colEnd + 1 ==> !IsSymbolAt(grid, r, c) by {
      forall r, c | row - 1 <= r <= row + 1 && colStart - 1 <= c <= colEnd + 1 ensures !IsSymbolAt(grid, r, c) {
        if r == row && colStart <= c <= colEnd {
          assert IsDigit(grid[row][c]);
        }
      }
    }
    return false;
  }

  /** Sum of the runs of `runs` that are part numbers of row `row`. */
  ghost function RowPartSum(grid: Schematic, row: int, runs: seq<Run>): int
  {
    if runs == [] then 0
    else
      var run := runs[|runs| - 1];
      RowPartSum(grid, row, runs[..|runs| - 1])
        + (if HasAdjacentSymbol(grid, row, run.colStart, run.colEnd) then run.num else 0)
  }

  ghost function PartNumberSum(grid: Schematic, rows: nat): int
    requires rows <= |grid|
  {
    if rows == 0 then 0 else PartNumberSum(grid, rows - 1) + RowPartSum(grid, rows - 1, DigitRuns(grid[rows - 1]))
  }

  /** day3/puzzle1.js solve: add every digit run that touches a symbol. */
  method SolvePart1(grid: Schematic) returns (sumEnginePartNumbers: int)
    ensures sumEnginePartNumbers == PartNumberSum(grid, |grid|)
  {
    sumEnginePartNumbers := 0;
    for numRow := 0 to |grid|
      invariant sumEnginePartNumbers == PartNumberSum(grid, numRow)
    {
      var rowSum := RowEnginePartSum(grid, numRow);
      sumEnginePartNumbers := sumEnginePartNumbers + rowSum;
    }
  }

  /** The inner loop of solve over the digit runs of one row. */
  method RowEnginePartSum(grid: Schematic, numRow: int) returns (rowSum: int)
    requires 0 <= numRow < |grid|
    ensures rowSum == RowPartSum(grid, numRow, DigitRuns(grid[numRow]))
  {
    var numMatches := DigitRuns(grid[numRow]);
    RunsAreMaximal(grid[numRow], 0);
    rowSum := 0;
    for k := 0 to |numMatches|
      invariant rowSum == RowPartSum(grid, numRow, numMatches[..k])
    {
      var run := numMatches[k];
      RunHoldsDigits(grid[numRow], run);
      var isPart := IsEnginePart(numRow, run.colStart, run.colEnd, grid);
      assert numMatches[..k + 1][..k] == numMatches[..k];
      if isPart {
        rowSum := rowSum + run.num;
      }
    }
    assert numMatches[..|numMatches|] == numMatches;
  }

  lemma RunHoldsDigits(row: string, run: Run)
    requires MaximalRun(row, run)
    ensures 0 <= run.colStart <= run.colEnd < |row|
    ensures forall c :: run.colStart <= c <= run.colEnd ==> IsDigit(row[c])
  {
    forall c | run.colStart <= c <= run.colEnd ensures IsDigit(row[c]) {
      assert row[c] == row[run.colStart..run.colEnd + 1][c - run.colStart];
    }
  }

  /** With non-negative numbers in the runs each row adds at most the sum of its runs. */
  lemma {:induction false} RowPartSumBounded(grid: Schematic, row: int, runs: seq<Run>)
    requires forall k :: 0 <= k < |runs| ==> runs[k].num >= 0
    ensures 0 <= RowPartSum(grid, row, runs)
    ensures RowPartSum(grid, row, runs) <= Sum(seq(|runs|, k requires 0 <= k < |runs| => runs[k].num))
  {
    if runs != [] {
      var init := runs[..|runs| - 1];
      RowPartSumBounded(grid, row, init);
      var all := seq(|runs|, k requires 0 <= k < |runs| => runs[k].num);
      assert all[..|all| - 1] == seq(|init|, k requires 0 <= k < |init| => init[k].num);
    }
  }

  // ---------------------------------------------------------------------------
  // day3/puzzle2.js: gears
  // ---------------------------------------------------------------------------

  /** `arePositionsAdjacent`: Chebyshev distance at most one. */
  predicate ArePositionsAdjacent(row1: int, col1: int, row2: int, col2: int)
  {
    Abs(row1 - row2) <= 1 && Abs(col1 - col2) <= 1
  }

  /** Some cell of the run at row `row` is adjacent to (i, j). */
  ghost predicate Touches(i: int, j: int, row: int, run: Run)
  {
    exists col :: run.colStart <= col <= run.colEnd && ArePositionsAdjacent(i, j, row, col)
  }

  /** The run touches (i, j) exactly when the rows are at most one apart and j lies one column
      beyond the run's span at most. */
  lemma TouchesIff(i: int, j: int, row: int, run: Run)
    requires run.colStart <= run.colEnd
    ensures Touches(i, j, row, run) <==> Abs(i - row) <= 1 && run.colStart - 1 <= j <= run.colEnd + 1
  {
    if Abs(i - row) <= 1 && run.colStart - 1 <= j <= run.colEnd + 1 {
      var col := if j < run.colStart then run.colStart else if j > run.colEnd then run.colEnd else j;
      assert ArePositionsAdjacent(i, j, row, col);
    }
  }

  /** The inner `for col` loop with its `break`: true once some column of the run is adjacent. */
  method RunIsAdjacent(i: int, j: int, row: int, run: Run) returns (b: bool)
    ensures b <==> Touches(i, j, row, run)
  {
    b := false;
    var col := run.colStart;
    while col <= run.colEnd
      invariant col <= run.colEnd + 1 || col == run.colStart
      invariant forall c :: run.colStart <= c < col ==> !ArePositionsAdjacent(i, j, row, c)
      decreases run.colEnd + 1 - col
    {
      if ArePositionsAdjacent(i, j, row, col) {
        b := true;
        break;
      }
      col := col + 1;
    }
  }

  /** The numbers of `runs` (one row's runs) that touch (i, j), in order, each once. */
  ghost function TouchingNumbers(i: int, j: int, row: int, runs: seq<Run>): seq<int>
  {
    if runs == [] then []
    else
      var run := runs[|runs| - 1];
      TouchingNumbers(i, j, row, runs[..|runs| - 1]) + (if Touches(i, j, row, run) then [run.num] else [])
  }

  /** Rows i-1, i, i+1 in order; rows outside the schematic contribute nothing. */
  ghost function AdjacentNumbers(i: int, j: int, numsByRow: seq<seq<Run>>, upTo: int): seq<int>
    requires i - 1 <= upTo <= i + 2
    decreases upTo - (i - 1)
  {
    if upTo == i - 1 then []
    else
      var row := upTo - 1;
      AdjacentNumbers(i, j, numsByRow, upTo - 1)
        + (if 0 <= row < |numsByRow| then TouchingNumbers(i, j, row, numsByRow[row]) else [])
  }

  /** day3/puzzle2.js getNumsByRow: the digit runs of every row. */
  method GetNumsByRow(grid: Schematic) returns (numsByRow: seq<seq<Run>>)
    ensures |numsByRow| == |grid|
    ensures forall i :: 0 <= i < |grid| ==> numsByRow[i] == DigitRuns(grid[i])
  {
    numsByRow := [];
    for i := 0 to |grid|
      invariant |numsByRow| == i
      invariant forall k :: 0 <= k < i ==> numsByRow[k] == DigitRuns(grid[k])
    {
      numsByRow := numsByRow + [DigitRuns(grid[i])];
    }
  }

  /** day3/puzzle2.js getAdjacentNumbers. */
  method GetAdjacentNumbers(i: int, j: int, numsByRow: seq<seq<Run>>) returns (adjacentNumbers: seq<int>)
    ensures adjacentNumbers == AdjacentNumbers(i, j, numsByRow, i + 2)
  {
    adjacentNumbers := [];
    var row := i - 1;
    while row <= i + 1
      invariant i - 1 <= row <= i + 2
      invariant adjacentNumbers == AdjacentNumbers(i, j, numsByRow, row)
    {
      if 0 <= row < |numsByRow| {
        var runs := numsByRow[row];
        var rowNumbers: seq<int> := [];
        for k := 0 to |runs|
          invariant rowNumbers == TouchingNumbers(i, j, row, runs[..k])
        {
          var touches := RunIsAdjacent(i, j, row, runs[k]);
          assert runs[..k + 1][..k] == runs[..k];
          if touches {
            rowNumbers := rowNumbers + [runs[k].num];
          }
        }
        assert runs[..|runs|] == runs;
        adjacentNumbers := adjacentNumbers + rowNumbers;
      }
      row := row + 1;
    }
  }

  /** A `*` with exactly two adjacent numbers adds their product; any other cell adds nothing. */
  ghost function GearRatio(grid: Schematic, numsByRow: seq<seq<Run>>, i: int, j: int): int
  {
    if 0 <= i < |grid| && 0 <= j < |grid[i]| && grid[i][j] == '*' then
      var adjacent := AdjacentNumbers(i, j, numsByRow, i + 2);
      if |adjacent| == 2 then adjacent[0] * adjacent[1] else 0
    else 0
  }

  ghost function RowGearSum(grid: Schematic, numsByRow: seq<seq<Run>>, i: int, cols: nat): int
  {
    if cols == 0 then 0 else RowGearSum(grid, numsByRow, i, cols - 1) + GearRatio(grid, numsByRow, i, cols - 1)
  }

  ghost function GearSum(grid: Schematic, numsByRow: seq<seq<Run>>, rows: nat, cols: nat): int
  {
    if rows == 0 then 0 else GearSum(grid, numsByRow, rows - 1, cols) + RowGearSum(grid, numsByRow, rows - 1, cols)
  }

  /** day3/puzzle2.js solve: over every cell of the first row's width. */
  method SolvePart2(grid: Schematic) returns (sumGearRatios: int)
    requires |grid| > 0
    ensures exists numsByRow: seq<seq<Run>> ::
      && |numsByRow| == |grid|
      && (forall i :: 0 <= i < |grid| ==> numsByRow[i] == DigitRuns(grid[i]))
      && sumGearRatios == GearSum(grid, numsByRow, |grid|, |grid[0]|)
  {
    sumGearRatios := 0;
    var numsByRow := GetNumsByRow(grid);
    var rows := |grid|;
    var cols := |grid[0]|;
    for i := 0 to rows
      invariant sumGearRatios == GearSum(grid, numsByRow, i, cols)
    {
      var rowSum := 0;
      for j := 0 to cols
        invariant rowSum == RowGearSum(grid, numsByRow, i, j)
      {
        if j < |grid[i]| && grid[i][j] == '*' {
          var adjacentNumbers := GetAdjacentNumbers(i, j, numsByRow);
          if |adjacentNumbers| == 2 {
            var gearRatio := adjacentNumbers[0] * adjacentNumbers[1];
            rowSum := rowSum + gearRatio;
          }
        }
      }
      sumGearRatios := sumGearRatios + rowSum;
    }
  }
}
