/** Day 11: cosmic expansion; the sum of the distances between all pairs of galaxies when every
    row and column without a galaxy counts one million times. */
module Day11CosmicExpansion {
  import opened Common

  /** The image, one row of `.` and `#` per line. */
  type Image = seq<seq<char>>

  /** A galaxy's position `[r, c]`. */
  datatype Galaxy = Galaxy(r: int, c: int)

  /** What an empty row or column adds on top of its own one step. */
  const Expansion: int := 1000000 - 1

  predicate IsGalaxy(image: Image, i: int, j: int)
  {
    0 <= i < |image| && 0 <= j < |image[i]| && image[i][j] == '#'
  }

  // ---------------------------------------------------------------------------
  // Galaxy collection (the first double loop of solve)
  // ---------------------------------------------------------------------------

  /** Row i holds a galaxy among its first j columns. */
  predicate RowHasGalaxy(image: Image, i: int, j: nat)
  {
    j > 0 && (RowHasGalaxy(image, i, j - 1) || IsGalaxy(image, i, j - 1))
  }

  /** Column j holds a galaxy among the first i rows. */
  predicate ColHasGalaxy(image: Image, i: nat, j: int)
  {
    i > 0 && (ColHasGalaxy(image, i - 1, j) || IsGalaxy(image, i - 1, j))
  }

  lemma {:induction false} RowHasGalaxyIff(image: Image, i: int, j: nat)
    ensures RowHasGalaxy(image, i, j) <==> exists k :: 0 <= k < j && IsGalaxy(image, i, k)
  {
    if j > 0 {
      RowHasGalaxyIff(image, i, j - 1);
    }
  }

  lemma {:induction false} ColHasGalaxyIff(image: Image, i: nat, j: int)
    ensures ColHasGalaxy(image, i, j) <==> exists k :: 0 <= k < i && IsGalaxy(image, k, j)
  {
    if i > 0 {
      ColHasGalaxyIff(image, i - 1, j);
    }
  }

  /** The galaxies of row i among its first j columns, left to right. */
  function RowGalaxies(image: Image, i: int, j: nat): seq<Galaxy>
  {
    if j == 0 then []
    else RowGalaxies(image, i, j - 1) + (if IsGalaxy(image, i, j - 1) then [Galaxy(i, j - 1)] else [])
  }

  /** The galaxies of the first i rows in reading order, over `cols` columns. */
  function GalaxiesUpTo(image: Image, i: nat, cols: nat): seq<Galaxy>
  {
    if i == 0 then [] else GalaxiesUpTo(image, i - 1, cols) + RowGalaxies(image, i - 1, cols)
  }

  /** `galaxies` of solve: every galaxy of the image within the first row's width, in reading order. */
  function Galaxies(image: Image): seq<Galaxy>
    requires image != []
  {
    GalaxiesUpTo(image, |image|, |image[0]|)
  }

  /** Reading order of positions. */
  predicate Before(a: Galaxy, b: Galaxy)
  {
    a.r < b.r || (a.r == b.r && a.c < b.c)
  }

  lemma {:induction false} RowGalaxiesExact(image: Image, i: int, j: nat)
    ensures forall g :: g in RowGalaxies(image, i, j) <==> g.r == i && 0 <= g.c < j && IsGalaxy(image, g.r, g.c)
    ensures forall a, b :: 0 <= a < b < |RowGalaxies(image, i, j)| ==>
      Before(RowGalaxies(image, i, j)[a], RowGalaxies(image, i, j)[b])
  {
    if j > 0 {
      RowGalaxiesExact(image, i, j - 1);
    }
  }

  /** The list holds exactly the galaxies of the scanned rectangle, strictly in reading order (so no
      galaxy twice and every pair of indices a < b names two different galaxies). */
  lemma {:induction false} GalaxiesUpToExact(image: Image, i: nat, cols: nat)
    ensures forall g :: g in GalaxiesUpTo(image, i, cols) <==> 0 <= g.r < i && 0 <= g.c < cols && IsGalaxy(image, g.r, g.c)
    ensures forall a, b :: 0 <= a < b < |GalaxiesUpTo(image, i, cols)| ==>
      Before(GalaxiesUpTo(image, i, cols)[a], GalaxiesUpTo(image, i, cols)[b])
  {
    if i > 0 {
      GalaxiesUpToExact(image, i - 1, cols);
      RowGalaxiesExact(image, i - 1, cols);
      var front := GalaxiesUpTo(image, i - 1, cols);
      var row := RowGalaxies(image, i - 1, cols);
      assert GalaxiesUpTo(image, i, cols) == front + row;
      forall a, b | 0 <= a < b < |front + row|
        ensures Before((front + row)[a], (front + row)[b])
      {
        if b >= |front| && a < |front| {
          assert front[a] in front;
          assert row[b - |front|] in row;
        }
      }
    }
  }

  /** `rowsWithGalaxies` after the scan: row i is flagged iff it holds a galaxy. */
  function RowFlags(image: Image): seq<bool>
    requires image != []
  {
    seq(|image|, i requires 0 <= i < |image| => RowHasGalaxy(image, i, |image[0]|))
  }

  /** `colsWithGalaxies` after the scan: column j is flagged iff it holds a galaxy. */
  function ColFlags(image: Image): seq<bool>
    requires image != []
  {
    seq(|image[0]|, j requires 0 <= j < |image[0]| => ColHasGalaxy(image, |image|, j))
  }

  /** Every collected galaxy's row and column are flagged, so the distance between two collected
      galaxies is their Manhattan distance in the expanded universe. */
  lemma GalaxyLinesFlagged(image: Image, g: Galaxy)
    requires image != [] && g in Galaxies(image)
    ensures Flag(RowFlags(image), g.r) && Flag(ColFlags(image), g.c)
  {
    GalaxiesUpToExact(image, |image|, |image[0]|);
    RowHasGalaxyIff(image, g.r, |image[0]|);
    ColHasGalaxyIff(image, |image|, g.c);
  }

  /** The first double loop of solve: fills the flag arrays and pushes the galaxies. */
  method CollectGalaxies(image: Image) returns (rowsWithGalaxies: array<bool>, colsWithGalaxies: array<bool>, galaxies: seq<Galaxy>)
    requires image != []
    ensures fresh(rowsWithGalaxies) && fresh(colsWithGalaxies)
    ensures rowsWithGalaxies[..] == RowFlags(image) && colsWithGalaxies[..] == ColFlags(image)
    ensures galaxies == Galaxies(image)
  {
    var rows := |image|;
    var cols := |image[0]|;
    rowsWithGalaxies := new bool[rows](_ => false);
    colsWithGalaxies := new bool[cols](_ => false);
    galaxies := [];
    for i := 0 to rows
      invariant forall r :: 0 <= r < rows ==> rowsWithGalaxies[r] == (r < i && RowHasGalaxy(image, r, cols))
      invariant forall c :: 0 <= c < cols ==> colsWithGalaxies[c] == ColHasGalaxy(image, i, c)
      invariant galaxies == GalaxiesUpTo(image, i, cols)
    {
      for j := 0 to cols
        invariant forall r :: 0 <= r < rows ==> rowsWithGalaxies[r] == ((r < i && RowHasGalaxy(image, r, cols)) || (r == i && RowHasGalaxy(image, i, j)))
        invariant forall c :: 0 <= c < cols ==> colsWithGalaxies[c] == (ColHasGalaxy(image, i, c) || (c < j && IsGalaxy(image, i, c)))
        invariant galaxies == GalaxiesUpTo(image, i, cols) + RowGalaxies(image, i, j)
      {
        if 0 <= j < |image[i]| && image[i][j] == '#' {
          rowsWithGalaxies[i] := true;
          colsWithGalaxies[j] := true;
          galaxies := galaxies + [Galaxy(i, j)];
        }
      }
    }
  }

  // ---------------------------------------------------------------------------
  // Expanded distance of one pair
  // ---------------------------------------------------------------------------

  /** `flags[k]` with JavaScript's reading of a missing entry as false. */
  predicate Flag(flags: seq<bool>, k: int)
  {
    0 <= k < |flags| && flags[k]
  }

  /** Unflagged lines strictly between lo and hi. */
  function EmptyBetween(flags: seq<bool>, lo: int, hi: int): nat
    decreases hi - lo
  {
    if hi <= lo + 1 then 0
    else EmptyBetween(flags, lo, hi - 1) + (if !Flag(flags, hi - 1) then 1 else 0)
  }

  /** Manhattan distance plus `Expansion` for every empty row or column strictly between the two. */
  function ExpandedDistance(g1: Galaxy, g2: Galaxy, rowsWithGalaxies: seq<bool>, colsWithGalaxies: seq<bool>): int
  {
    Abs(g1.r - g2.r) + Abs(g1.c - g2.c)
    + Expansion * (EmptyBetween(rowsWithGalaxies, Min(g1.r, g2.r), Max(g1.r, g2.r))
                   + EmptyBetween(colsWithGalaxies, Min(g1.c, g2.c), Max(g1.c, g2.c)))
  }

  /** The distance is symmetric, zero from a galaxy to itself, and never below the Manhattan distance. */
  lemma ExpandedDistanceBasics(g1: Galaxy, g2: Galaxy, rowsWithGalaxies: seq<bool>, colsWithGalaxies: seq<bool>)
    ensures ExpandedDistance(g1, g2, rowsWithGalaxies, colsWithGalaxies) == ExpandedDistance(g2, g1, rowsWithGalaxies, colsWithGalaxies)
    ensures ExpandedDistance(g1, g1, rowsWithGalaxies, colsWithGalaxies) == 0
    ensures ExpandedDistance(g1, g2, rowsWithGalaxies, colsWithGalaxies) >= Abs(g1.r - g2.r) + Abs(g1.c - g2.c)
  {
  }

  /** Position of line x once every empty line before it has grown to one million lines. */
  function Expand(flags: seq<bool>, x: int): int
  {
    x + Expansion * EmptyBetween(flags, -1, x)
  }

  /** Empty lines before b split at a line a < b. */
  lemma {:induction false} EmptyBetweenSplit(flags: seq<bool>, lo: int, a: int, b: int)
    requires lo < a < b
    ensures EmptyBetween(flags, lo, b) == EmptyBetween(flags, lo, a) + (if !Flag(flags, a) then 1 else 0) + EmptyBetween(flags, a, b)
    decreases b - a
  {
    if b > a + 1 {
      EmptyBetweenSplit(flags, lo, a, b - 1);
    }
  }

  lemma {:induction false} ExpandGap(flags: seq<bool>, a: int, b: int)
    requires 0 <= a <= b && Flag(flags, a)
    ensures Expand(flags, b) - Expand(flags, a) == b - a + Expansion * EmptyBetween(flags, a, b)
  {
    if a < b {
      EmptyBetweenSplit(flags, -1, a, b);
    }
  }

  /** Reference: between two galaxies (whose own row and column are flagged) the distance is the
      plain Manhattan distance in the expanded universe. */
  lemma ExpandedDistanceInExpandedUniverse(g1: Galaxy, g2: Galaxy, rowsWithGalaxies: seq<bool>, colsWithGalaxies: seq<bool>)
    requires g1.r >= 0 && g2.r >= 0 && g1.c >= 0 && g2.c >= 0
    requires Flag(rowsWithGalaxies, g1.r) && Flag(rowsWithGalaxies, g2.r)
    requires Flag(colsWithGalaxies, g1.c) && Flag(colsWithGalaxies, g2.c)
    ensures ExpandedDistance(g1, g2, rowsWithGalaxies, colsWithGalaxies)
      == Abs(Expand(rowsWithGalaxies, g1.r) - Expand(rowsWithGalaxies, g2.r))
       + Abs(Expand(colsWithGalaxies, g1.c) - Expand(colsWithGalaxies, g2.c))
  {
    ExpandGap(rowsWithGalaxies, Min(g1.r, g2.r), Max(g1.r, g2.r));
    ExpandGap(colsWithGalaxies, Min(g1.c, g2.c), Max(g1.c, g2.c));
  }

  /** One pair's distance: the two counting loops over the rows and columns strictly between. */
  method PairDistance(g1: Galaxy, g2: Galaxy, rowsWithGalaxies: array<bool>, colsWithGalaxies: array<bool>)
    returns (distanceBetweenGalaxies: int)
    ensures distanceBetweenGalaxies == ExpandedDistance(g1, g2, rowsWithGalaxies[..], colsWithGalaxies[..])
  {
    distanceBetweenGalaxies := Abs(g1.r - g2.r) + Abs(g1.c - g2.c);
    var minRow := Min(g1.r, g2.r);
    var maxRow := Max(g1.r, g2.r);
    var minCol := Min(g1.c, g2.c);
    var maxCol := Max(g1.c, g2.c);
    ghost var base := distanceBetweenGalaxies;
    var r := minRow + 1;
    while r < maxRow
      invariant minRow + 1 <= r <= Max(maxRow, minRow + 1)
      invariant distanceBetweenGalaxies == base + Expansion * EmptyBetween(rowsWithGalaxies[..], minRow, r)
    {
      if !(0 <= r < rowsWithGalaxies.Length && rowsWithGalaxies[r]) {
        distanceBetweenGalaxies := distanceBetweenGalaxies + Expansion;
      }
      r := r + 1;
    }
    base := distanceBetweenGalaxies;
    var c := minCol + 1;
    while c < maxCol
      invariant minCol + 1 <= c <= Max(maxCol, minCol + 1)
      invariant distanceBetweenGalaxies == base + Expansion * EmptyBetween(colsWithGalaxies[..], minCol, c)
    {
      if !(0 <= c < colsWithGalaxies.Length && colsWithGalaxies[c]) {
        distanceBetweenGalaxies := distanceBetweenGalaxies + Expansion;
      }
      c := c + 1;
    }
  }

  // ---------------------------------------------------------------------------
  // The sum over pairs (the second double loop of solve)
  // ---------------------------------------------------------------------------

  function D(galaxies: seq<Galaxy>, rowsWithGalaxies: seq<bool>, colsWithGalaxies: seq<bool>, i: nat, j: nat): int
    requires i < |galaxies| && j < |galaxies|
  {
    ExpandedDistance(galaxies[i], galaxies[j], rowsWithGalaxies, colsWithGalaxies)
  }

  /** Distances from galaxy i to the galaxies i < j < m. */
  function Inner(galaxies: seq<Galaxy>, rowsWithGalaxies: seq<bool>, colsWithGalaxies: seq<bool>, i: nat, m: nat): int
    requires i < |galaxies| && m <= |galaxies|
  {
    if m <= i + 1 then 0
    else Inner(galaxies, rowsWithGalaxies, colsWithGalaxies, i, m - 1) + D(galaxies, rowsWithGalaxies, colsWithGalaxies, i, m - 1)
  }

  /** Inner sums of the galaxies i' < i, up to m. */
  function Outer(galaxies: seq<Galaxy>, rowsWithGalaxies: seq<bool>, colsWithGalaxies: seq<bool>, i: nat, m: nat): int
    requires i <= |galaxies| && m <= |galaxies|
  {
    if i == 0 then 0
    else Outer(galaxies, rowsWithGalaxies, colsWithGalaxies, i - 1, m) + Inner(galaxies, rowsWithGalaxies, colsWithGalaxies, i - 1, m)
  }

  /** The pair loops: for every i and every j > i add the pair's distance. */
  method SumDistances(galaxies: seq<Galaxy>, rowsWithGalaxies: array<bool>, colsWithGalaxies: array<bool>)
    returns (totalDistanceBetweenGalaxies: int)
    ensures totalDistanceBetweenGalaxies == Outer(galaxies, rowsWithGalaxies[..], colsWithGalaxies[..], |galaxies|, |galaxies|)
  {
    ghost var rf := rowsWithGalaxies[..];
    ghost var cf := colsWithGalaxies[..];
    var n := |galaxies|;
    totalDistanceBetweenGalaxies := 0;
    for i := 0 to n
      invariant totalDistanceBetweenGalaxies == Outer(galaxies, rf, cf, i, n)
    {
      for j := i + 1 to n
        invariant totalDistanceBetweenGalaxies == Outer(galaxies, rf, cf, i, n) + Inner(galaxies, rf, cf, i, j)
      {
        var distanceBetweenGalaxies := PairDistance(galaxies[i], galaxies[j], rowsWithGalaxies, colsWithGalaxies);
        totalDistanceBetweenGalaxies := totalDistanceBetweenGalaxies + distanceBetweenGalaxies;
      }
    }
  }

  /** The answer for an image. */
  function TotalDistance(image: Image): int
    requires image != []
  {
    Outer(Galaxies(image), RowFlags(image), ColFlags(image), |Galaxies(image)|, |Galaxies(image)|)
  }

  /** day11/puzzle2.js solve. */
  method Solve(image: Image) returns (totalDistanceBetweenGalaxies: int)
    requires image != []
    ensures totalDistanceBetweenGalaxies == TotalDistance(image)
  {
    var rowsWithGalaxies, colsWithGalaxies, galaxies := CollectGalaxies(image);
    totalDistanceBetweenGalaxies := SumDistances(galaxies, rowsWithGalaxies, colsWithGalaxies);
  }

  // ---------------------------------------------------------------------------
  // Each unordered pair once
  // ---------------------------------------------------------------------------

  /** Distances from the galaxies i < k to galaxy n. */
  function Column(galaxies: seq<Galaxy>, rowsWithGalaxies: seq<bool>, colsWithGalaxies: seq<bool>, k: nat, n: nat): int
    requires k <= |galaxies| && n < |galaxies|
  {
    if k == 0 then 0 else Column(galaxies, rowsWithGalaxies, colsWithGalaxies, k - 1, n) + D(galaxies, rowsWithGalaxies, colsWithGalaxies, k - 1, n)
  }

  /** Distances from galaxy i to the galaxies j < n. */
  function RowSum(galaxies: seq<Galaxy>, rowsWithGalaxies: seq<bool>, colsWithGalaxies: seq<bool>, i: nat, n: nat): int
    requires i < |galaxies| && n <= |galaxies|
  {
    if n == 0 then 0 else RowSum(galaxies, rowsWithGalaxies, colsWithGalaxies, i, n - 1) + D(galaxies, rowsWithGalaxies, colsWithGalaxies, i, n - 1)
  }

  /** Sum over all ordered pairs (i, j) with i < k and j < n. */
  function AllPairs(galaxies: seq<Galaxy>, rowsWithGalaxies: seq<bool>, colsWithGalaxies: seq<bool>, k: nat, n: nat): int
    requires k <= |galaxies| && n <= |galaxies|
  {
    if k == 0 then 0 else AllPairs(galaxies, rowsWithGalaxies, colsWithGalaxies, k - 1, n) + RowSum(galaxies, rowsWithGalaxies, colsWithGalaxies, k - 1, n)
  }

  lemma {:induction false} OuterGrows(galaxies: seq<Galaxy>, rf: seq<bool>, cf: seq<bool>, k: nat, n: nat)
    requires k <= n < |galaxies|
    ensures Outer(galaxies, rf, cf, k, n + 1) == Outer(galaxies, rf, cf, k, n) + Column(galaxies, rf, cf, k, n)
  {
    if k > 0 {
      OuterGrows(galaxies, rf, cf, k - 1, n);
    }
  }

  lemma {:induction false} AllPairsGrows(galaxies: seq<Galaxy>, rf: seq<bool>, cf: seq<bool>, k: nat, n: nat)
    requires k <= |galaxies| && n < |galaxies|
    ensures AllPairs(galaxies, rf, cf, k, n + 1) == AllPairs(galaxies, rf, cf, k, n) + Column(galaxies, rf, cf, k, n)
  {
    if k > 0 {
      AllPairsGrows(galaxies, rf, cf, k - 1, n);
    }
  }

  lemma {:induction false} RowSumIsColumn(galaxies: seq<Galaxy>, rf: seq<bool>, cf: seq<bool>, k: nat, n: nat)
    requires k <= |galaxies| && n < |galaxies|
    ensures RowSum(galaxies, rf, cf, n, k) == Column(galaxies, rf, cf, k, n)
  {
    if k > 0 {
      RowSumIsColumn(galaxies, rf, cf, k - 1, n);
      ExpandedDistanceBasics(galaxies[k - 1], galaxies[n], rf, cf);
    }
  }

  /** Each unordered pair is counted exactly once: the total is half the sum over all ordered pairs. */
  lemma {:induction false} EachPairOnce(galaxies: seq<Galaxy>, rf: seq<bool>, cf: seq<bool>, n: nat)
    requires n <= |galaxies|
    ensures 2 * Outer(galaxies, rf, cf, n, n) == AllPairs(galaxies, rf, cf, n, n)
  {
    if n > 0 {
      var m := n - 1;
      EachPairOnce(galaxies, rf, cf, m);
      OuterGrows(galaxies, rf, cf, m, m);
      assert Inner(galaxies, rf, cf, m, n) == 0;
      assert Outer(galaxies, rf, cf, n, n) == Outer(galaxies, rf, cf, m, n) + Inner(galaxies, rf, cf, m, n);
      AllPairsGrows(galaxies, rf, cf, m, m);
      assert RowSum(galaxies, rf, cf, m, n) == RowSum(galaxies, rf, cf, m, m) + D(galaxies, rf, cf, m, m);
      RowSumIsColumn(galaxies, rf, cf, m, m);
      ExpandedDistanceBasics(galaxies[m], galaxies[m], rf, cf);
    }
  }
}
