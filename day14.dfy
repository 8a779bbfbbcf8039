/** Day 14: parabolic reflector dish; rounded rocks `O` roll across a platform of empty cells `.`
    and fixed cube rocks, and the load on the north beams is measured after tilting or spinning. */
module Day14ReflectorDish {
  import opened Common

  const RoundedRock: char := 'O'
  const EmptySpace: char := '.'

  /** The number of spin cycles asked for. */
  const Spins: nat := 1000000000

  // ---------------------------------------------------------------------------
  // One line of cells, tilted towards its start
  // ---------------------------------------------------------------------------

  /** Where a rock at k comes to rest: it passes every empty cell directly before it. */
  function SlideTarget(s: seq<char>, k: nat): (j: nat)
    requires k < |s|
    ensures j <= k
    ensures forall i :: j <= i < k ==> s[i] == EmptySpace
    ensures j > 0 ==> s[j - 1] != EmptySpace
  {
    if k > 0 && s[k - 1] == EmptySpace then SlideTarget(s, k - 1) else k
  }

  /** The cell k after its rock, if any, has slid: the rock takes the target and k is emptied. */
  function Slide(s: seq<char>, k: nat): (t: seq<char>)
    requires k < |s|
    ensures |t| == |s|
  {
    if s[k] == RoundedRock && SlideTarget(s, k) != k then s[SlideTarget(s, k) := RoundedRock][k := EmptySpace]
    else s
  }

  /** The line after the cells before n have been visited in order. */
  function TiltPrefix(s: seq<char>, n: nat): (t: seq<char>)
    requires n <= |s|
    ensures |t| == |s|
  {
    if n == 0 then s else Slide(TiltPrefix(s, n - 1), n - 1)
  }

  /** The line with every rounded rock rolled towards index 0. */
  function TiltLine(s: seq<char>): (t: seq<char>)
    ensures |t| == |s|
  {
    TiltPrefix(s, |s|)
  }

  /** A rock moves only over the empty cells directly before it; nothing else changes. */
  lemma SlideMovesThroughEmpty(s: seq<char>, k: nat)
    requires k < |s|
    ensures Slide(s, k) == s ||
      (s[k] == RoundedRock && SlideTarget(s, k) < k &&
       (forall i :: SlideTarget(s, k) <= i < k ==> s[i] == EmptySpace) &&
       Slide(s, k) == s[SlideTarget(s, k) := RoundedRock][k := EmptySpace])
  {
  }

  /** Cells that are neither rocks nor empty keep their symbol; rocks and empty cells stay so. */
  predicate KeepsFixedCells(s: seq<char>, t: seq<char>)
  {
    |t| == |s| &&
    forall i :: 0 <= i < |s| ==>
      (s[i] != RoundedRock && s[i] != EmptySpace ==> t[i] == s[i]) &&
      (s[i] == RoundedRock || s[i] == EmptySpace ==> t[i] == RoundedRock || t[i] == EmptySpace)
  }

  lemma SlideKeeps(s: seq<char>, k: nat)
    requires k < |s|
    ensures multiset(Slide(s, k)) == multiset(s)
    ensures KeepsFixedCells(s, Slide(s, k))
  {
    if s[k] == RoundedRock && SlideTarget(s, k) != k {
      var j := SlideTarget(s, k);
      var u := s[j := RoundedRock];
      assert multiset(u) == multiset(s) - multiset{EmptySpace} + multiset{RoundedRock};
      assert multiset(u[k := EmptySpace]) == multiset(u) - multiset{RoundedRock} + multiset{EmptySpace};
    }
  }

  lemma {:induction false} TiltPrefixKeeps(s: seq<char>, n: nat)
    requires n <= |s|
    ensures multiset(TiltPrefix(s, n)) == multiset(s)
    ensures KeepsFixedCells(s, TiltPrefix(s, n))
  {
    if n > 0 {
      TiltPrefixKeeps(s, n - 1);
      SlideKeeps(TiltPrefix(s, n - 1), n - 1);
      KeepsFixedCellsTransitive(s, TiltPrefix(s, n - 1), Slide(TiltPrefix(s, n - 1), n - 1));
    }
  }

  lemma KeepsFixedCellsTransitive(s: seq<char>, t: seq<char>, u: seq<char>)
    requires KeepsFixedCells(s, t) && KeepsFixedCells(t, u)
    ensures KeepsFixedCells(s, u)
  {
  }

  /** Tilting a line permutes its cells, moving only rocks into empty cells. */
  lemma TiltLineKeeps(s: seq<char>)
    ensures multiset(TiltLine(s)) == multiset(s)
    ensures KeepsFixedCells(s, TiltLine(s))
  {
    TiltPrefixKeeps(s, |s|);
  }

  /** Among the first n cells, no rock has an empty cell directly before it. */
  predicate Settled(t: seq<char>, n: nat)
    requires n <= |t|
  {
    forall k :: 0 < k < n && t[k] == RoundedRock ==> t[k - 1] != EmptySpace
  }

  lemma {:induction false} TiltPrefixSettled(s: seq<char>, n: nat)
    requires n <= |s|
    ensures Settled(TiltPrefix(s, n), n)
  {
    if n > 0 {
      TiltPrefixSettled(s, n - 1);
      var t := TiltPrefix(s, n - 1);
      var k := n - 1;
      if t[k] == RoundedRock && SlideTarget(t, k) != k {
        var j := SlideTarget(t, k);
        var u := Slide(t, k);
        forall i | 0 < i < n && u[i] == RoundedRock
          ensures u[i - 1] != EmptySpace
        {
          assert i <= j;
        }
      }
    }
  }

  /** After a tilt no rock has an empty cell directly before it. */
  lemma TiltLineSettled(s: seq<char>)
    ensures Settled(TiltLine(s), |s|)
  {
    TiltPrefixSettled(s, |s|);
  }

  /** The rocks among the first n cells, each weighted by its distance to the far end. */
  function PrefixWeight(t: seq<char>, n: nat): nat
    requires n <= |t|
  {
    if n == 0 then 0 else PrefixWeight(t, n - 1) + (if t[n - 1] == RoundedRock then |t| - (n - 1) else 0)
  }

  function LineWeight(t: seq<char>): nat
  {
    PrefixWeight(t, |t|)
  }

  lemma {:induction false} PrefixWeightAgree(s: seq<char>, t: seq<char>, n: nat)
    requires n <= |s| == |t| && s[..n] == t[..n]
    ensures PrefixWeight(s, n) == PrefixWeight(t, n)
  {
    if n > 0 {
      assert s[n - 1] == s[..n][n - 1];
      assert s[..n - 1] == s[..n][..n - 1];
      assert t[..n - 1] == t[..n][..n - 1];
      PrefixWeightAgree(s, t, n - 1);
    }
  }

  lemma {:induction false} PrefixWeightAddRock(t: seq<char>, j: nat, n: nat)
    requires j < n <= |t| && t[j] == EmptySpace
    ensures PrefixWeight(t[j := RoundedRock], n) == PrefixWeight(t, n) + (|t| - j)
  {
    if n - 1 == j {
      PrefixWeightAgree(t[j := RoundedRock], t, j);
    } else {
      PrefixWeightAddRock(t, j, n - 1);
    }
  }

  /** The rock visited at k adds its weight at its resting place; the cells before k keep theirs. */
  lemma WeightAfterSlide(t: seq<char>, k: nat)
    requires k < |t|
    ensures PrefixWeight(Slide(t, k), k + 1) ==
      PrefixWeight(t, k) + (if t[k] == RoundedRock then |t| - SlideTarget(t, k) else 0)
  {
    if t[k] == RoundedRock && SlideTarget(t, k) != k {
      var j := SlideTarget(t, k);
      var u := t[j := RoundedRock];
      PrefixWeightAddRock(t, j, k);
      PrefixWeightAgree(u[k := EmptySpace], u, k);
    }
  }

  // ---------------------------------------------------------------------------
  // The platform, seen as lines along a tilt direction
  // ---------------------------------------------------------------------------

  datatype Direction = North | West | South | East

  type Grid = seq<seq<char>>

  predicate Shaped(g: Grid, rows: nat, cols: nat)
  {
    |g| == rows && forall r :: 0 <= r < rows ==> |g[r]| == cols
  }

  /** Columns for a north or south tilt, rows for a west or east one. */
  function LineCount(d: Direction, rows: nat, cols: nat): nat
  {
    if d == North || d == South then cols else rows
  }

  function LineLength(d: Direction, rows: nat, cols: nat): nat
  {
    if d == North || d == South then rows else cols
  }

  /** The row of the k-th cell of line l, counted from the side the rocks roll towards. */
  function CellRow(d: Direction, rows: nat, cols: nat, l: nat, k: nat): (r: nat)
    requires l < LineCount(d, rows, cols) && k < LineLength(d, rows, cols)
    ensures r < rows
  {
    match d
    case North => k
    case South => rows - 1 - k
    case West => l
    case East => l
  }

  function CellCol(d: Direction, rows: nat, cols: nat, l: nat, k: nat): (c: nat)
    requires l < LineCount(d, rows, cols) && k < LineLength(d, rows, cols)
    ensures c < cols
  {
    match d
    case North => l
    case South => l
    case West => k
    case East => cols - 1 - k
  }

  /** The line through cell (r, c). */
  function LineOf(d: Direction, r: nat, c: nat): nat
  {
    if d == North || d == South then c else r
  }

  /** The position of cell (r, c) on its line. */
  function IndexOf(d: Direction, rows: nat, cols: nat, r: nat, c: nat): (k: nat)
    requires r < rows && c < cols
    ensures k < LineLength(d, rows, cols) && LineOf(d, r, c) < LineCount(d, rows, cols)
    ensures CellRow(d, rows, cols, LineOf(d, r, c), k) == r
    ensures CellCol(d, rows, cols, LineOf(d, r, c), k) == c
  {
    match d
    case North => r
    case South => rows - 1 - r
    case West => c
    case East => cols - 1 - c
  }

  /** Line and position are a one-to-one naming of the cells. */
  lemma CellNaming(d: Direction, rows: nat, cols: nat, l: nat, k: nat)
    requires l < LineCount(d, rows, cols) && k < LineLength(d, rows, cols)
    ensures LineOf(d, CellRow(d, rows, cols, l, k), CellCol(d, rows, cols, l, k)) == l
    ensures IndexOf(d, rows, cols, CellRow(d, rows, cols, l, k), CellCol(d, rows, cols, l, k)) == k
  {
  }

  function Line(g: Grid, d: Direction, rows: nat, cols: nat, l: nat): (s: seq<char>)
    requires Shaped(g, rows, cols) && l < LineCount(d, rows, cols)
    ensures |s| == LineLength(d, rows, cols)
  {
    seq(LineLength(d, rows, cols), k requires 0 <= k < LineLength(d, rows, cols) =>
      g[CellRow(d, rows, cols, l, k)][CellCol(d, rows, cols, l, k)])
  }

  /** The platform after a tilt: every line tilted on its own. */
  function Tilted(g: Grid, d: Direction, rows: nat, cols: nat): (t: Grid)
    requires Shaped(g, rows, cols)
    ensures Shaped(t, rows, cols)
  {
    seq(rows, r requires 0 <= r < rows =>
      seq(cols, c requires 0 <= c < cols =>
        TiltLine(Line(g, d, rows, cols, LineOf(d, r, c)))[IndexOf(d, rows, cols, r, c)]))
  }

  lemma LineOfTilted(g: Grid, d: Direction, rows: nat, cols: nat, l: nat)
    requires Shaped(g, rows, cols) && l < LineCount(d, rows, cols)
    ensures Line(Tilted(g, d, rows, cols), d, rows, cols, l) == TiltLine(Line(g, d, rows, cols, l))
  {
    var t := Tilted(g, d, rows, cols);
    forall k | 0 <= k < LineLength(d, rows, cols)
      ensures Line(t, d, rows, cols, l)[k] == TiltLine(Line(g, d, rows, cols, l))[k]
    {
      CellNaming(d, rows, cols, l, k);
    }
  }

  /** A tilt permutes the cells of each line, keeps every cube rock and every other fixed cell,
      and leaves no rounded rock with an empty cell next to it on the side it rolled towards. */
  lemma TiltedProperties(g: Grid, d: Direction, rows: nat, cols: nat, l: nat)
    requires Shaped(g, rows, cols) && l < LineCount(d, rows, cols)
    ensures multiset(Line(Tilted(g, d, rows, cols), d, rows, cols, l)) == multiset(Line(g, d, rows, cols, l))
    ensures KeepsFixedCells(Line(g, d, rows, cols, l), Line(Tilted(g, d, rows, cols), d, rows, cols, l))
    ensures Settled(Line(Tilted(g, d, rows, cols), d, rows, cols, l), LineLength(d, rows, cols))
  {
    LineOfTilted(g, d, rows, cols, l);
    TiltLineKeeps(Line(g, d, rows, cols, l));
    TiltLineSettled(Line(g, d, rows, cols, l));
  }

  /** After a north tilt no rounded rock has an empty cell directly above it. */
  lemma TiltedNorthSettled(g: Grid, rows: nat, cols: nat, r: nat, c: nat)
    requires Shaped(g, rows, cols) && 0 < r < rows && c < cols
    requires Tilted(g, North, rows, cols)[r][c] == RoundedRock
    ensures Tilted(g, North, rows, cols)[r - 1][c] != EmptySpace
  {
    TiltedProperties(g, North, rows, cols, c);
    var t := Tilted(g, North, rows, cols);
    assert Line(t, North, rows, cols, c)[r] == t[r][c];
    assert Line(t, North, rows, cols, c)[r - 1] == t[r - 1][c];
  }

  /** One spin cycle: north, west, south, east. */
  function SpinGrid(g: Grid, rows: nat, cols: nat): (t: Grid)
    requires Shaped(g, rows, cols)
    ensures Shaped(t, rows, cols)
  {
    var n := Tilted(g, North, rows, cols);
    var w := Tilted(n, West, rows, cols);
    var s := Tilted(w, South, rows, cols);
    Tilted(s, East, rows, cols)
  }

  // ---------------------------------------------------------------------------
  // The load on the north support beams
  // ---------------------------------------------------------------------------

  /** A rounded rock in row r weighs the number of rows from it to the south edge. */
  function CellLoad(g: Grid, rows: nat, cols: nat, r: nat, c: nat): nat
    requires Shaped(g, rows, cols) && r < rows && c < cols
  {
    if g[r][c] == RoundedRock then rows - r else 0
  }

  function RowLoad(g: Grid, rows: nat, cols: nat, r: nat, n: nat): nat
    requires Shaped(g, rows, cols) && r < rows && n <= cols
  {
    if n == 0 then 0 else RowLoad(g, rows, cols, r, n - 1) + CellLoad(g, rows, cols, r, n - 1)
  }

  function ColumnLoad(g: Grid, rows: nat, cols: nat, c: nat, n: nat): nat
    requires Shaped(g, rows, cols) && c < cols && n <= rows
  {
    if n == 0 then 0 else ColumnLoad(g, rows, cols, c, n - 1) + CellLoad(g, rows, cols, n - 1, c)
  }

  /** The first n rows, each summed over its first m cells. */
  function RowsLoad(g: Grid, rows: nat, cols: nat, n: nat, m: nat): nat
    requires Shaped(g, rows, cols) && n <= rows && m <= cols
  {
    if n == 0 then 0 else RowsLoad(g, rows, cols, n - 1, m) + RowLoad(g, rows, cols, n - 1, m)
  }

  /** The total load: the sum, over the rounded rocks, of their distance to the south edge. */
  function Load(g: Grid, rows: nat, cols: nat): nat
    requires Shaped(g, rows, cols)
  {
    RowsLoad(g, rows, cols, rows, cols)
  }

  /** The weights of the first m lines along a direction. */
  function LinesWeight(g: Grid, d: Direction, rows: nat, cols: nat, m: nat): nat
    requires Shaped(g, rows, cols) && m <= LineCount(d, rows, cols)
  {
    if m == 0 then 0 else LinesWeight(g, d, rows, cols, m - 1) + LineWeight(Line(g, d, rows, cols, m - 1))
  }

  /** The weights of the first m lines once each is tilted. */
  function TiltedLinesWeight(g: Grid, d: Direction, rows: nat, cols: nat, m: nat): nat
    requires Shaped(g, rows, cols) && m <= LineCount(d, rows, cols)
  {
    if m == 0 then 0 else TiltedLinesWeight(g, d, rows, cols, m - 1) + LineWeight(TiltLine(Line(g, d, rows, cols, m - 1)))
  }

  lemma {:induction false} TiltedLinesWeightIsWeight(g: Grid, d: Direction, rows: nat, cols: nat, m: nat)
    requires Shaped(g, rows, cols) && m <= LineCount(d, rows, cols)
    ensures TiltedLinesWeight(g, d, rows, cols, m) == LinesWeight(Tilted(g, d, rows, cols), d, rows, cols, m)
  {
    if m > 0 {
      TiltedLinesWeightIsWeight(g, d, rows, cols, m - 1);
      LineOfTilted(g, d, rows, cols, m - 1);
    }
  }

  /** A row weighs its distance to the south edge once per rounded rock in it. */
  lemma {:induction false} RowLoadCountsRocks(g: Grid, rows: nat, cols: nat, r: nat, n: nat)
    requires Shaped(g, rows, cols) && r < rows && n <= cols
    ensures RowLoad(g, rows, cols, r, n) == (rows - r) * Count(g[r][..n], RoundedRock)
  {
    if n > 0 {
      RowLoadCountsRocks(g, rows, cols, r, n - 1);
      assert g[r][..n][..n - 1] == g[r][..n - 1];
    }
  }

  lemma {:induction false} ColumnWeight(g: Grid, rows: nat, cols: nat, c: nat, n: nat)
    requires Shaped(g, rows, cols) && c < cols && n <= rows
    ensures PrefixWeight(Line(g, North, rows, cols, c), n) == ColumnLoad(g, rows, cols, c, n)
  {
    if n > 0 {
      ColumnWeight(g, rows, cols, c, n - 1);
    }
  }

  lemma {:induction false} RowsLoadAddColumn(g: Grid, rows: nat, cols: nat, n: nat, m: nat)
    requires Shaped(g, rows, cols) && n <= rows && m < cols
    ensures RowsLoad(g, rows, cols, n, m + 1) == RowsLoad(g, rows, cols, n, m) + ColumnLoad(g, rows, cols, m, n)
  {
    if n > 0 {
      RowsLoadAddColumn(g, rows, cols, n - 1, m);
    }
  }

  /** Summing the north-line weights column by column gives the row-by-row load. */
  lemma {:induction false} NorthWeightIsLoad(g: Grid, rows: nat, cols: nat, m: nat)
    requires Shaped(g, rows, cols) && m <= cols
    ensures LinesWeight(g, North, rows, cols, m) == RowsLoad(g, rows, cols, rows, m)
  {
    if m == 0 {
      RowsLoadNoColumns(g, rows, cols, rows);
    } else {
      NorthWeightIsLoad(g, rows, cols, m - 1);
      ColumnWeight(g, rows, cols, m - 1, rows);
      RowsLoadAddColumn(g, rows, cols, rows, m - 1);
    }
  }

  lemma {:induction false} RowsLoadNoColumns(g: Grid, rows: nat, cols: nat, n: nat)
    requires Shaped(g, rows, cols) && n <= rows
    ensures RowsLoad(g, rows, cols, n, 0) == 0
  {
    if n > 0 {
      RowsLoadNoColumns(g, rows, cols, n - 1);
    }
  }

  // ---------------------------------------------------------------------------
  // Tilting the platform in place
  // ---------------------------------------------------------------------------

  function Contents(a: array2<char>): (g: Grid)
    reads a
    ensures Shaped(g, a.Length0, a.Length1)
  {
    seq(a.Length0, r requires 0 <= r < a.Length0 reads a =>
      seq(a.Length1, c requires 0 <= c < a.Length1 reads a => a[r, c]))
  }

  function LineNow(a: array2<char>, d: Direction, l: nat): (s: seq<char>)
    reads a
    requires l < LineCount(d, a.Length0, a.Length1)
    ensures |s| == LineLength(d, a.Length0, a.Length1)
  {
    seq(LineLength(d, a.Length0, a.Length1), k requires 0 <= k < LineLength(d, a.Length0, a.Length1) reads a =>
      a[CellRow(d, a.Length0, a.Length1, l, k), CellCol(d, a.Length0, a.Length1, l, k)])
  }

  /** The inner while loop of a tilt: from k, step back over the empty cells of line l. */
  method FindRest(a: array2<char>, d: Direction, l: nat, k: nat) returns (j: nat)
    requires l < LineCount(d, a.Length0, a.Length1) && k < LineLength(d, a.Length0, a.Length1)
    ensures j == SlideTarget(LineNow(a, d, l), k)
  {
    ghost var t := LineNow(a, d, l);
    var rows, cols := a.Length0, a.Length1;
    j := k;
    while j > 0 && a[CellRow(d, rows, cols, l, j - 1), CellCol(d, rows, cols, l, j - 1)] == EmptySpace
      invariant j <= k
      invariant SlideTarget(t, j) == SlideTarget(t, k)
    {
      assert t[j - 1] == EmptySpace;
      j := j - 1;
    }
  }

  /** One rounded rock at position k of line l slides over the empty cells before it. */
  method SlideInPlace(a: array2<char>, d: Direction, l: nat, k: nat) returns (rest: nat)
    requires l < LineCount(d, a.Length0, a.Length1) && k < LineLength(d, a.Length0, a.Length1)
    modifies a
    ensures LineNow(a, d, l) == Slide(old(LineNow(a, d, l)), k)
    ensures old(LineNow(a, d, l))[k] == RoundedRock ==> rest == SlideTarget(old(LineNow(a, d, l)), k)
    ensures forall r, c :: 0 <= r < a.Length0 && 0 <= c < a.Length1 && LineOf(d, r, c) != l ==> a[r, c] == old(a[r, c])
  {
    ghost var t := LineNow(a, d, l);
    var rows, cols := a.Length0, a.Length1;
    var rock := a[CellRow(d, rows, cols, l, k), CellCol(d, rows, cols, l, k)];
    assert rock == t[k];
    rest := k;
    if rock == RoundedRock {
      rest := FindRest(a, d, l, k);
      if rest != k {
        MoveRock(a, d, l, rest, k);
      }
    }
  }

  /** The rock at position k of line l is written to position j and its old cell emptied. */
  method MoveRock(a: array2<char>, d: Direction, l: nat, j: nat, k: nat)
    requires l < LineCount(d, a.Length0, a.Length1) && j < k < LineLength(d, a.Length0, a.Length1)
    modifies a
    ensures LineNow(a, d, l) == old(LineNow(a, d, l))[j := RoundedRock][k := EmptySpace]
    ensures forall r, c :: 0 <= r < a.Length0 && 0 <= c < a.Length1 && LineOf(d, r, c) != l ==> a[r, c] == old(a[r, c])
  {
    ghost var t := LineNow(a, d, l);
    var rows, cols := a.Length0, a.Length1;
    CellNaming(d, rows, cols, l, j);
    CellNaming(d, rows, cols, l, k);
    a[CellRow(d, rows, cols, l, j), CellCol(d, rows, cols, l, j)] := RoundedRock;
    a[CellRow(d, rows, cols, l, k), CellCol(d, rows, cols, l, k)] := EmptySpace;
    forall i | 0 <= i < LineLength(d, rows, cols)
      ensures LineNow(a, d, l)[i] == t[j := RoundedRock][k := EmptySpace][i]
    {
      CellNaming(d, rows, cols, l, i);
    }
  }

  /** The inner loop of a tilt: the cells of line l are visited from the side the rocks roll
      towards, and each rounded rock slides over the empty cells before it; `weight` adds up,
      for every rock, the distance from its resting place to the far end of the line. */
  method TiltLineInPlace(a: array2<char>, d: Direction, l: nat) returns (weight: nat)
    requires l < LineCount(d, a.Length0, a.Length1)
    modifies a
    ensures LineNow(a, d, l) == TiltLine(old(LineNow(a, d, l)))
    ensures weight == LineWeight(LineNow(a, d, l))
    ensures forall r, c :: 0 <= r < a.Length0 && 0 <= c < a.Length1 && LineOf(d, r, c) != l ==> a[r, c] == old(a[r, c])
  {
    ghost var s0 := LineNow(a, d, l);
    var length := LineLength(d, a.Length0, a.Length1);
    weight := 0;
    var k := 0;
    while k < length
      invariant k <= length
      invariant LineNow(a, d, l) == TiltPrefix(s0, k)
      invariant weight == PrefixWeight(TiltPrefix(s0, k), k)
      invariant forall r, c :: 0 <= r < a.Length0 && 0 <= c < a.Length1 && LineOf(d, r, c) != l ==> a[r, c] == old(a[r, c])
    {
      ghost var t := LineNow(a, d, l);
      var rock := a[CellRow(d, a.Length0, a.Length1, l, k), CellCol(d, a.Length0, a.Length1, l, k)];
      assert rock == t[k];
      var rest := SlideInPlace(a, d, l, k);
      WeightAfterSlide(t, k);
      if rock == RoundedRock {
        weight := weight + (length - rest);
      }
      k := k + 1;
    }
  }

  /** The lines before l already hold their tilted cells t, the others still hold g. */
  predicate TiltedUpTo(a: array2<char>, d: Direction, l: nat, g: Grid, t: Grid)
    reads a
    requires Shaped(g, a.Length0, a.Length1) && Shaped(t, a.Length0, a.Length1)
  {
    forall r, c :: 0 <= r < a.Length0 && 0 <= c < a.Length1 ==>
      a[r, c] == if LineOf(d, r, c) < l then t[r][c] else g[r][c]
  }

  lemma ContentsOfCells(a: array2<char>, t: Grid)
    requires Shaped(t, a.Length0, a.Length1)
    requires forall r, c :: 0 <= r < a.Length0 && 0 <= c < a.Length1 ==> a[r, c] == t[r][c]
    ensures Contents(a) == t
  {
    forall r | 0 <= r < a.Length0
      ensures Contents(a)[r] == t[r]
    {
    }
  }

  lemma NoLineTilted(a: array2<char>, d: Direction, t: Grid)
    requires Shaped(t, a.Length0, a.Length1)
    ensures TiltedUpTo(a, d, 0, Contents(a), t)
  {
  }

  lemma AllLinesTilted(a: array2<char>, d: Direction, g: Grid, t: Grid)
    requires Shaped(g, a.Length0, a.Length1) && Shaped(t, a.Length0, a.Length1)
    requires TiltedUpTo(a, d, LineCount(d, a.Length0, a.Length1), g, t)
    ensures Contents(a) == t
  {
    forall r, c | 0 <= r < a.Length0 && 0 <= c < a.Length1
      ensures a[r, c] == t[r][c]
    {
      var _ := IndexOf(d, a.Length0, a.Length1, r, c);
    }
    ContentsOfCells(a, t);
  }

  /** Line l of the platform, still as in g, is tilted. */
  method TiltNextLine(a: array2<char>, d: Direction, l: nat, ghost g: Grid, ghost t: Grid) returns (weight: nat)
    requires Shaped(g, a.Length0, a.Length1) && t == Tilted(g, d, a.Length0, a.Length1)
    requires l < LineCount(d, a.Length0, a.Length1)
    requires TiltedUpTo(a, d, l, g, t)
    modifies a
    ensures TiltedUpTo(a, d, l + 1, g, t)
    ensures weight == LineWeight(TiltLine(Line(g, d, a.Length0, a.Length1, l)))
  {
    var rows, cols := a.Length0, a.Length1;
    forall k | 0 <= k < LineLength(d, rows, cols)
      ensures LineNow(a, d, l)[k] == Line(g, d, rows, cols, l)[k]
    {
      CellNaming(d, rows, cols, l, k);
    }
    assert LineNow(a, d, l) == Line(g, d, rows, cols, l);
    weight := TiltLineInPlace(a, d, l);
    LineOfTilted(g, d, rows, cols, l);
    forall r, c | 0 <= r < rows && 0 <= c < cols && LineOf(d, r, c) == l
      ensures a[r, c] == t[r][c]
    {
      assert a[r, c] == LineNow(a, d, l)[IndexOf(d, rows, cols, r, c)];
    }
  }

  /** The four tilts share one loop, read along the lines of their direction; `weight` adds up
      the weights of the tilted lines. */
  method Tilt(a: array2<char>, d: Direction) returns (weight: nat)
    modifies a
    ensures Contents(a) == Tilted(old(Contents(a)), d, a.Length0, a.Length1)
    ensures weight == LinesWeight(Contents(a), d, a.Length0, a.Length1, LineCount(d, a.Length0, a.Length1))
  {
    ghost var g0 := Contents(a);
    var rows, cols := a.Length0, a.Length1;
    ghost var t := Tilted(g0, d, rows, cols);
    NoLineTilted(a, d, t);
    weight := 0;
    var l := 0;
    while l < LineCount(d, rows, cols)
      invariant l <= LineCount(d, rows, cols)
      invariant TiltedUpTo(a, d, l, g0, t)
      invariant weight == TiltedLinesWeight(g0, d, rows, cols, l)
    {
      var w := TiltNextLine(a, d, l, g0, t);
      weight := weight + w;
      l := l + 1;
    }
    AllLinesTilted(a, d, g0, t);
    TiltedLinesWeightIsWeight(g0, d, rows, cols, LineCount(d, rows, cols));
  }

  method TiltNorth(a: array2<char>)
    modifies a
    ensures Contents(a) == Tilted(old(Contents(a)), North, a.Length0, a.Length1)
  {
    var _ := Tilt(a, North);
  }

  method TiltWest(a: array2<char>)
    modifies a
    ensures Contents(a) == Tilted(old(Contents(a)), West, a.Length0, a.Length1)
  {
    var _ := Tilt(a, West);
  }

  method TiltSouth(a: array2<char>)
    modifies a
    ensures Contents(a) == Tilted(old(Contents(a)), South, a.Length0, a.Length1)
  {
    var _ := Tilt(a, South);
  }

  method TiltEast(a: array2<char>)
    modifies a
    ensures Contents(a) == Tilted(old(Contents(a)), East, a.Length0, a.Length1)
  {
    var _ := Tilt(a, East);
  }

  method Spin(a: array2<char>)
    modifies a
    ensures Contents(a) == SpinGrid(old(Contents(a)), a.Length0, a.Length1)
  {
    TiltNorth(a);
    TiltWest(a);
    TiltSouth(a);
    TiltEast(a);
  }

  /** Part 1: the platform is tilted north, and each rock adds its row's distance to the south
      edge as it comes to rest. */
  method SolvePart1(a: array2<char>) returns (load: nat)
    modifies a
    ensures Contents(a) == Tilted(old(Contents(a)), North, a.Length0, a.Length1)
    ensures load == Load(Contents(a), a.Length0, a.Length1)
  {
    load := Tilt(a, North);
    NorthWeightIsLoad(Contents(a), a.Length0, a.Length1, a.Length1);
  }

  /** The load of the platform, summed row by row. */
  method PlatformLoad(a: array2<char>) returns (load: nat)
    ensures load == Load(Contents(a), a.Length0, a.Length1)
  {
    ghost var g := Contents(a);
    var rows, cols := a.Length0, a.Length1;
    load := 0;
    var r := 0;
    while r < rows
      invariant r <= rows
      invariant load == RowsLoad(g, rows, cols, r, cols)
    {
      var c := 0;
      while c < cols
        invariant c <= cols
        invariant load == RowsLoad(g, rows, cols, r, cols) + RowLoad(g, rows, cols, r, c)
      {
        if a[r, c] == RoundedRock {
          load := load + (rows - r);
        }
        c := c + 1;
      }
      r := r + 1;
    }
  }

  // ---------------------------------------------------------------------------
  // Part 2: spin cycles, fast-forwarded once a platform repeats
  // ---------------------------------------------------------------------------

  /** The platform after n spin cycles. */
  function Iterate(g: Grid, rows: nat, cols: nat, n: nat): (t: Grid)
    requires Shaped(g, rows, cols)
    ensures Shaped(t, rows, cols)
  {
    if n == 0 then g else SpinGrid(Iterate(g, rows, cols, n - 1), rows, cols)
  }

  lemma {:induction false} IterateAdd(g: Grid, rows: nat, cols: nat, m: nat, n: nat)
    requires Shaped(g, rows, cols)
    ensures Iterate(Iterate(g, rows, cols, m), rows, cols, n) == Iterate(g, rows, cols, m + n)
  {
    if n > 0 {
      IterateAdd(g, rows, cols, m, n - 1);
    }
  }

  /** Once the platform after a spins equals the one after b spins, everything after repeats. */
  lemma CycleShift(g: Grid, rows: nat, cols: nat, a: nat, b: nat, x: nat)
    requires Shaped(g, rows, cols)
    requires Iterate(g, rows, cols, a) == Iterate(g, rows, cols, b)
    ensures Iterate(g, rows, cols, a + x) == Iterate(g, rows, cols, b + x)
  {
    IterateAdd(g, rows, cols, a, x);
    IterateAdd(g, rows, cols, b, x);
  }

  lemma {:induction false} CycleRepeat(g: Grid, rows: nat, cols: nat, a: nat, b: nat, q: nat, x: nat)
    requires Shaped(g, rows, cols) && a <= b
    requires Iterate(g, rows, cols, a) == Iterate(g, rows, cols, b)
    ensures Iterate(g, rows, cols, a + q * (b - a) + x) == Iterate(g, rows, cols, a + x)
  {
    if q > 0 {
      CycleRepeat(g, rows, cols, a, b, q - 1, x);
      CycleShift(g, rows, cols, a, b, (q - 1) * (b - a) + x);
      assert a + q * (b - a) + x == b + ((q - 1) * (b - a) + x);
    }
  }

  /** With a cycle from spin a to spin b, the platform after n >= a spins is the one after
      a + (n - a) mod (b - a) spins. */
  lemma CycleSkip(g: Grid, rows: nat, cols: nat, a: nat, b: nat, n: nat)
    requires Shaped(g, rows, cols) && a < b && a <= n
    requires Iterate(g, rows, cols, a) == Iterate(g, rows, cols, b)
    ensures Iterate(g, rows, cols, n) == Iterate(g, rows, cols, a + (n - a) % (b - a))
  {
    var len := b - a;
    var q, x := (n - a) / len, (n - a) % len;
    assert n == a + q * len + x;
    CycleRepeat(g, rows, cols, a, b, q, x);
  }

  /** The platform written out row after row, as the key of the visited platforms. */
  function Encode(g: Grid): seq<char>
  {
    if g == [] then [] else Encode(g[..|g| - 1]) + g[|g| - 1]
  }

  lemma {:induction false} EncodeLength(g: Grid, rows: nat, cols: nat)
    requires Shaped(g, rows, cols)
    ensures |Encode(g)| == rows * cols
  {
    if rows > 0 {
      EncodeLength(g[..rows - 1], rows - 1, cols);
    }
  }

  /** For a fixed size, different platforms have different keys. */
  lemma {:induction false} EncodeInjective(g: Grid, h: Grid, rows: nat, cols: nat)
    requires Shaped(g, rows, cols) && Shaped(h, rows, cols)
    requires Encode(g) == Encode(h)
    ensures g == h
  {
    if rows > 0 {
      var g', h' := g[..rows - 1], h[..rows - 1];
      EncodeLength(g', rows - 1, cols);
      EncodeLength(h', rows - 1, cols);
      assert Encode(g) == Encode(g') + g[rows - 1];
      assert Encode(g') == Encode(g)[..(rows - 1) * cols];
      assert Encode(h') == Encode(h)[..(rows - 1) * cols];
      assert g[rows - 1] == Encode(g)[(rows - 1) * cols..];
      assert h[rows - 1] == Encode(h)[(rows - 1) * cols..];
      EncodeInjective(g', h', rows - 1, cols);
      assert g == g' + [g[rows - 1]];
      assert h == h' + [h[rows - 1]];
    }
  }

  /** The key of the platform after i spins. */
  function Key(g: Grid, rows: nat, cols: nat, i: nat): seq<char>
    requires Shaped(g, rows, cols)
  {
    Encode(Iterate(g, rows, cols, i))
  }

  /** The visited platforms after n spins: every key is the key after the spin count stored
      with it, every spin count up to n is stored, and no key repeated within those spins. */
  predicate VisitedFaithful(visited: map<seq<char>, nat>, g: Grid, rows: nat, cols: nat, n: nat)
    requires Shaped(g, rows, cols)
  {
    (forall e :: e in visited ==> 1 <= visited[e] <= n && Key(g, rows, cols, visited[e]) == e) &&
    (forall i :: 1 <= i <= n ==> Key(g, rows, cols, i) in visited) &&
    (forall i, j :: 1 <= i < j <= n ==> Key(g, rows, cols, i) != Key(g, rows, cols, j))
  }

  /** A key not yet stored is new, and storing it keeps the map faithful. */
  lemma VisitedExtend(visited: map<seq<char>, nat>, g: Grid, rows: nat, cols: nat, n: nat)
    requires Shaped(g, rows, cols) && n >= 1
    requires VisitedFaithful(visited, g, rows, cols, n - 1)
    requires Key(g, rows, cols, n) !in visited
    ensures VisitedFaithful(visited[Key(g, rows, cols, n) := n], g, rows, cols, n)
  {
    forall i, j | 1 <= i < j <= n
      ensures Key(g, rows, cols, i) != Key(g, rows, cols, j)
    {
      if j == n {
        assert Key(g, rows, cols, i) in visited;
      }
    }
  }

  /** A stored key found again closes a cycle from its stored spin count to n. */
  lemma VisitedRepeat(visited: map<seq<char>, nat>, g: Grid, rows: nat, cols: nat, n: nat)
    requires Shaped(g, rows, cols) && n >= 1
    requires VisitedFaithful(visited, g, rows, cols, n - 1)
    requires Key(g, rows, cols, n) in visited
    ensures 1 <= visited[Key(g, rows, cols, n)] < n
    ensures Iterate(g, rows, cols, visited[Key(g, rows, cols, n)]) == Iterate(g, rows, cols, n)
  {
    var first := visited[Key(g, rows, cols, n)];
    EncodeInjective(Iterate(g, rows, cols, first), Iterate(g, rows, cols, n), rows, cols);
  }

  /** Spinning (target - first) mod (count - first) more times after `count` spins lands on the
      platform after the target number of spins. */
  lemma FastForwardReachesTarget(g: Grid, rows: nat, cols: nat, first: nat, count: nat, x: nat)
    requires Shaped(g, rows, cols) && first < count <= Spins
    requires Iterate(g, rows, cols, first) == Iterate(g, rows, cols, count)
    requires x == (Spins - first) % (count - first)
    ensures Iterate(g, rows, cols, count + x) == Iterate(g, rows, cols, Spins)
  {
    CycleShift(g, rows, cols, first, count, x);
    CycleSkip(g, rows, cols, first, count, Spins);
  }

  /** The cycle runs from spin `first` to spin `count`: the remaining spins up to the target,
      taken modulo the cycle length, are spun and the platform is weighed. */
  method FastForward(a: array2<char>, ghost g: Grid, first: nat, count: nat) returns (load: nat)
    requires Shaped(g, a.Length0, a.Length1) && first < count <= Spins
    requires Iterate(g, a.Length0, a.Length1, first) == Iterate(g, a.Length0, a.Length1, count)
    requires Contents(a) == Iterate(g, a.Length0, a.Length1, count)
    modifies a
    ensures Contents(a) == Iterate(g, a.Length0, a.Length1, Spins)
    ensures load == Load(Contents(a), a.Length0, a.Length1)
  {
    var rows, cols := a.Length0, a.Length1;
    var cycleLength := count - first;
    var spinsAfterCycles := (Spins - first) % cycleLength;
    var i := 0;
    while i < spinsAfterCycles
      invariant i <= spinsAfterCycles
      invariant Contents(a) == Iterate(g, rows, cols, count + i)
    {
      Spin(a);
      i := i + 1;
    }
    FastForwardReachesTarget(g, rows, cols, first, count, spinsAfterCycles);
    assert Contents(a) == Iterate(g, rows, cols, count + spinsAfterCycles);
    load := PlatformLoad(a);
  }

  /** Part 2: spin until a platform repeats, remembering for each platform the first spin count
      that produced it, then fast-forward through the cycle and weigh the platform. The search
      stops after `fuel` spins. */
  method SolvePart2(a: array2<char>, fuel: nat) returns (result: Option<nat>)
    requires fuel <= Spins
    modifies a
    ensures result.Some? ==> Contents(a) == Iterate(old(Contents(a)), a.Length0, a.Length1, Spins)
    ensures result.Some? ==> result.value == Load(Iterate(old(Contents(a)), a.Length0, a.Length1, Spins), a.Length0, a.Length1)
    ensures result.None? ==> forall i, j :: 1 <= i < j <= fuel ==>
      Iterate(old(Contents(a)), a.Length0, a.Length1, i) != Iterate(old(Contents(a)), a.Length0, a.Length1, j)
  {
    ghost var g0 := Contents(a);
    var rows, cols := a.Length0, a.Length1;
    var visited: map<seq<char>, nat> := map[];
    var spinCount: nat := 0;
    while spinCount < fuel
      invariant spinCount <= fuel
      invariant Contents(a) == Iterate(g0, rows, cols, spinCount)
      invariant VisitedFaithful(visited, g0, rows, cols, spinCount)
    {
      Spin(a);
      spinCount := spinCount + 1;
      var encoded := Encode(Contents(a));
      assert encoded == Key(g0, rows, cols, spinCount);
      // Every stored count is at least 1, so the lookup is truthy exactly when the key is present.
      if encoded in visited {
        VisitedRepeat(visited, g0, rows, cols, spinCount);
        var load := FastForward(a, g0, visited[encoded], spinCount);
        return Some(load);
      }
      VisitedExtend(visited, g0, rows, cols, spinCount);
      visited := visited[encoded := spinCount];
    }
    forall i, j | 1 <= i < j <= fuel
      ensures Iterate(g0, rows, cols, i) != Iterate(g0, rows, cols, j)
    {
      assert Key(g0, rows, cols, i) != Key(g0, rows, cols, j);
    }
    return None;
  }
}
