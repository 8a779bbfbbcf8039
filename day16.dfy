/** Day 16: a beam of light enters a grid of mirrors and splitters; the tiles it passes through
    are energized. */
module Day16FloorWillBeLava {
  /** A beam state: the tile it is about to enter and the unit direction it travels in. */
  datatype Beam = Beam(row: int, col: int, dr: int, dc: int)

  type Contraption = seq<seq<char>>

  predicate IsUnit(dr: int, dc: int)
  {
    -1 <= dr <= 1 && -1 <= dc <= 1 && (dr == 0) != (dc == 0)
  }

  predicate InGrid(grid: Contraption, b: Beam)
  {
    0 <= b.row < |grid| && 0 <= b.col < |grid[b.row]|
  }

  // ---------------------------------------------------------------------------
  // One step of a beam
  // ---------------------------------------------------------------------------

  function Move(b: Beam, dr: int, dc: int): (n: Beam)
    ensures n.dr == dr && n.dc == dc
  {
    Beam(b.row + dr, b.col + dc, dr, dc)
  }

  /** Every beam leaving a tile stands one step from it along its own direction, and a beam
      entering along a unit direction leaves along unit directions. */
  predicate LeavesAlong(b: Beam, next: seq<Beam>)
  {
    (forall i :: 0 <= i < |next| ==> next[i].row == b.row + next[i].dr && next[i].col == b.col + next[i].dc) &&
    (IsUnit(b.dr, b.dc) ==> forall i :: 0 <= i < |next| ==> IsUnit(next[i].dr, next[i].dc))
  }

  /** An empty tile lets the beam through in its own direction. */
  function MoveToEmptySpace(b: Beam): (next: seq<Beam>)
    ensures |next| == 1 && next[0].dr == b.dr && next[0].dc == b.dc
    ensures LeavesAlong(b, next)
  {
    [Move(b, b.dr, b.dc)]
  }

  /** The mirror `\` swaps the two components of the direction. */
  function MoveToLeftMirror(b: Beam): (next: seq<Beam>)
    ensures |next| == 1 && LeavesAlong(b, next)
  {
    [Move(b, b.dc, b.dr)]
  }

  /** The mirror `/` swaps the two components and negates them. */
  function MoveToRightMirror(b: Beam): (next: seq<Beam>)
    ensures |next| == 1 && LeavesAlong(b, next)
  {
    [Move(b, -b.dc, -b.dr)]
  }

  /** The splitter `-` passes beams moving along a row and splits the others west and east. */
  function MoveToHorizontalMirror(b: Beam): (next: seq<Beam>)
    ensures 1 <= |next| <= 2 && LeavesAlong(b, next)
    ensures |next| == 2 <==> b.dr != 0
    ensures b.dr != 0 ==> forall i :: 0 <= i < |next| ==> next[i].dr == 0
  {
    if b.dr == 0 then MoveToEmptySpace(b) else [Move(b, 0, -1), Move(b, 0, 1)]
  }

  /** The splitter `|` passes beams moving along a column and splits the others north and south. */
  function MoveToVerticalMirror(b: Beam): (next: seq<Beam>)
    ensures 1 <= |next| <= 2 && LeavesAlong(b, next)
    ensures |next| == 2 <==> b.dc != 0
    ensures b.dc != 0 ==> forall i :: 0 <= i < |next| ==> next[i].dc == 0
  {
    if b.dc == 0 then MoveToEmptySpace(b) else [Move(b, -1, 0), Move(b, 1, 0)]
  }

  /** The beams leaving the tile a beam has entered; any other symbol absorbs the beam. */
  function Successors(grid: Contraption, b: Beam): (next: seq<Beam>)
    requires InGrid(grid, b)
    ensures IsUnit(b.dr, b.dc) ==> forall i :: 0 <= i < |next| ==> IsUnit(next[i].dr, next[i].dc)
    ensures forall i :: 0 <= i < |next| ==>
      next[i].row == b.row + next[i].dr && next[i].col == b.col + next[i].dc
    ensures |next| <= 2
  {
    var tile := grid[b.row][b.col];
    if tile == '.' then MoveToEmptySpace(b)
    else if tile == '\\' then MoveToLeftMirror(b)
    else if tile == '/' then MoveToRightMirror(b)
    else if tile == '-' then MoveToHorizontalMirror(b)
    else if tile == '|' then MoveToVerticalMirror(b)
    else []
  }

  /** `\` turns east into south, south into east, west into north and north into west; `/` turns
      east into north, north into east, west into south and south into west. Applying either
      mirror twice gives back the direction. */
  lemma MirrorTable(b: Beam)
    ensures MoveToLeftMirror(b)[0].dr == b.dc && MoveToLeftMirror(b)[0].dc == b.dr
    ensures (b.dr, b.dc) == (0, 1) ==> (MoveToLeftMirror(b)[0].dr, MoveToLeftMirror(b)[0].dc) == (1, 0)
    ensures (b.dr, b.dc) == (1, 0) ==> (MoveToLeftMirror(b)[0].dr, MoveToLeftMirror(b)[0].dc) == (0, 1)
    ensures (b.dr, b.dc) == (0, -1) ==> (MoveToLeftMirror(b)[0].dr, MoveToLeftMirror(b)[0].dc) == (-1, 0)
    ensures (b.dr, b.dc) == (-1, 0) ==> (MoveToLeftMirror(b)[0].dr, MoveToLeftMirror(b)[0].dc) == (0, -1)
    ensures (b.dr, b.dc) == (0, 1) ==> (MoveToRightMirror(b)[0].dr, MoveToRightMirror(b)[0].dc) == (-1, 0)
    ensures (b.dr, b.dc) == (-1, 0) ==> (MoveToRightMirror(b)[0].dr, MoveToRightMirror(b)[0].dc) == (0, 1)
    ensures (b.dr, b.dc) == (0, -1) ==> (MoveToRightMirror(b)[0].dr, MoveToRightMirror(b)[0].dc) == (1, 0)
    ensures (b.dr, b.dc) == (1, 0) ==> (MoveToRightMirror(b)[0].dr, MoveToRightMirror(b)[0].dc) == (0, -1)
    ensures var m := MoveToLeftMirror(b)[0]; MoveToLeftMirror(m)[0].dr == b.dr && MoveToLeftMirror(m)[0].dc == b.dc
    ensures var m := MoveToRightMirror(b)[0]; MoveToRightMirror(m)[0].dr == b.dr && MoveToRightMirror(m)[0].dc == b.dc
  {
  }

  /** A splitter met side-on sends out two beams in the opposite directions across it; met
      end-on it behaves like an empty tile. */
  lemma SplitterBehaviour(b: Beam)
    requires IsUnit(b.dr, b.dc)
    ensures b.dc == 0 ==> MoveToHorizontalMirror(b) == [Move(b, 0, -1), Move(b, 0, 1)]
    ensures b.dr == 0 ==> MoveToHorizontalMirror(b) == MoveToEmptySpace(b)
    ensures b.dr == 0 ==> MoveToVerticalMirror(b) == [Move(b, -1, 0), Move(b, 1, 0)]
    ensures b.dc == 0 ==> MoveToVerticalMirror(b) == MoveToEmptySpace(b)
  {
  }

  // ---------------------------------------------------------------------------
  // The tiles a list of start beams reaches
  // ---------------------------------------------------------------------------

  /** Every in-grid beam state. */
  ghost function AllStates(grid: Contraption): set<Beam>
  {
    set r, c, dr, dc | 0 <= r < |grid| && 0 <= c < |grid[r]| && -1 <= dr <= 1 && -1 <= dc <= 1 && IsUnit(dr, dc)
      :: Beam(r, c, dr, dc)
  }

  lemma InAllStates(grid: Contraption, b: Beam)
    requires InGrid(grid, b) && IsUnit(b.dr, b.dc)
    ensures b in AllStates(grid)
  {
    assert b == Beam(b.row, b.col, b.dr, b.dc);
  }

  /** A run of beam states from a start beam, each leaving the tile of the one before, all inside
      the grid. */
  ghost predicate IsTrace(grid: Contraption, starts: seq<Beam>, p: seq<Beam>)
  {
    |p| > 0 && p[0] in starts &&
    (forall i :: 0 <= i < |p| ==> InGrid(grid, p[i])) &&
    (forall i :: 0 <= i < |p| - 1 ==> p[i + 1] in Successors(grid, p[i]))
  }

  ghost predicate Reachable(grid: Contraption, starts: seq<Beam>, b: Beam)
  {
    exists p :: IsTrace(grid, starts, p) && p[|p| - 1] == b
  }

  /** The beam states reachable from the start beams. */
  ghost function ReachSet(grid: Contraption, starts: seq<Beam>): set<Beam>
  {
    set b | b in AllStates(grid) && Reachable(grid, starts, b)
  }

  function Positions(states: set<Beam>): set<(int, int)>
  {
    set b | b in states :: (b.row, b.col)
  }

  /** The number of energized tiles: tiles some reachable beam state enters. */
  ghost function EnergizedCount(grid: Contraption, starts: seq<Beam>): nat
  {
    |Positions(ReachSet(grid, starts))|
  }

  lemma ReachableStart(grid: Contraption, starts: seq<Beam>, b: Beam)
    requires b in starts && InGrid(grid, b)
    ensures Reachable(grid, starts, b)
  {
    assert IsTrace(grid, starts, [b]);
  }

  lemma ReachableStep(grid: Contraption, starts: seq<Beam>, v: Beam, b: Beam)
    requires Reachable(grid, starts, v) && InGrid(grid, v) && InGrid(grid, b)
    requires b in Successors(grid, v)
    ensures Reachable(grid, starts, b)
  {
    var p :| IsTrace(grid, starts, p) && p[|p| - 1] == v;
    var q := p + [b];
    assert IsTrace(grid, starts, q);
  }

  /** A set of states containing the in-grid starts and closed under in-grid successors. */
  ghost predicate Closed(grid: Contraption, starts: seq<Beam>, states: set<Beam>)
  {
    (forall i :: 0 <= i < |starts| && InGrid(grid, starts[i]) ==> starts[i] in states) &&
    (forall v, j ::
      (v in states && InGrid(grid, v) && 0 <= j < |Successors(grid, v)| && InGrid(grid, Successors(grid, v)[j]))
      ==> Successors(grid, v)[j] in states)
  }

  lemma {:induction false} TraceInClosed(grid: Contraption, starts: seq<Beam>, states: set<Beam>, p: seq<Beam>, n: nat)
    requires Closed(grid, starts, states) && IsTrace(grid, starts, p) && n < |p|
    ensures p[n] in states
  {
    if n > 0 {
      TraceInClosed(grid, starts, states, p, n - 1);
      var next := Successors(grid, p[n - 1]);
      var j :| 0 <= j < |next| && next[j] == p[n];
    }
  }

  /** The reachable states form the least closed set: any closed set of in-grid states whose
      members are all reachable is exactly the reachable set. */
  lemma ClosedReachableIsReachSet(grid: Contraption, starts: seq<Beam>, states: set<Beam>)
    requires Closed(grid, starts, states)
    requires states <= AllStates(grid)
    requires forall v :: v in states ==> Reachable(grid, starts, v)
    ensures states == ReachSet(grid, starts)
  {
    ReachSetInClosed(grid, starts, states);
    forall b | b in states
      ensures b in ReachSet(grid, starts)
    {
      InReachSet(grid, starts, b);
    }
  }

  /** Every closed set contains the reachable states. */
  lemma ReachSetInClosed(grid: Contraption, starts: seq<Beam>, states: set<Beam>)
    requires Closed(grid, starts, states)
    ensures ReachSet(grid, starts) <= states
  {
    forall b | b in ReachSet(grid, starts)
      ensures b in states
    {
      InReachSet(grid, starts, b);
      var p :| IsTrace(grid, starts, p) && p[|p| - 1] == b;
      TraceInClosed(grid, starts, states, p, |p| - 1);
    }
  }

  lemma InReachSet(grid: Contraption, starts: seq<Beam>, b: Beam)
    ensures b in ReachSet(grid, starts) <==> b in AllStates(grid) && Reachable(grid, starts, b)
  {
  }

  // ---------------------------------------------------------------------------
  // The beam worklist
  // ---------------------------------------------------------------------------

  /** A beam on the worklist is a start beam or leaves the tile of a visited state. */
  ghost predicate Justified(grid: Contraption, starts: seq<Beam>, visited: set<Beam>, b: Beam)
  {
    b in starts || exists v :: v in visited && InGrid(grid, v) && b in Successors(grid, v)
  }

  /** Every in-grid start or successor of a visited state is visited or still on the worklist. */
  ghost predicate Covered(grid: Contraption, starts: seq<Beam>, visited: set<Beam>, beams: seq<Beam>)
  {
    (forall i :: 0 <= i < |starts| && InGrid(grid, starts[i]) ==> starts[i] in visited || starts[i] in beams) &&
    (forall v, j ::
      (v in visited && InGrid(grid, v) && 0 <= j < |Successors(grid, v)| && InGrid(grid, Successors(grid, v)[j]))
      ==> Successors(grid, v)[j] in visited || Successors(grid, v)[j] in beams)
  }

  /** What the worklist loop keeps: the visited states are reachable in-grid states, their tiles
      are the energized ones, every beam on the worklist is justified, and nothing reachable in
      one step from what was visited is lost. */
  ghost predicate WorklistInvariant(grid: Contraption, starts: seq<Beam>, visited: set<Beam>,
                                    energized: set<(int, int)>, beams: seq<Beam>)
  {
    visited <= AllStates(grid) &&
    energized == Positions(visited) &&
    (forall i :: 0 <= i < |beams| ==> IsUnit(beams[i].dr, beams[i].dc)) &&
    (forall v :: v in visited ==> InGrid(grid, v) && Reachable(grid, starts, v)) &&
    (forall i :: 0 <= i < |beams| ==> Justified(grid, starts, visited, beams[i])) &&
    Covered(grid, starts, visited, beams)
  }

  lemma WorklistStart(grid: Contraption, starts: seq<Beam>)
    requires forall i :: 0 <= i < |starts| ==> IsUnit(starts[i].dr, starts[i].dc)
    ensures WorklistInvariant(grid, starts, {}, {}, starts)
  {
  }

  /** Dropping a beam that is off the grid or in a visited state keeps the invariant. */
  lemma WorklistDrop(grid: Contraption, starts: seq<Beam>, visited: set<Beam>, energized: set<(int, int)>,
                     beams: seq<Beam>, beam: Beam)
    requires WorklistInvariant(grid, starts, visited, energized, beams + [beam])
    requires !InGrid(grid, beam) || beam in visited
    ensures WorklistInvariant(grid, starts, visited, energized, beams)
  {
    var all := beams + [beam];
    forall i | 0 <= i < |beams|
      ensures beams[i] == all[i]
    {
    }
    assert forall b :: b in all ==> b in beams || b == beam;
  }

  /** Visiting a new in-grid beam state energizes its tile and pushes the beams leaving it. */
  lemma WorklistVisit(grid: Contraption, starts: seq<Beam>, visited: set<Beam>, energized: set<(int, int)>,
                      beams: seq<Beam>, beam: Beam)
    requires WorklistInvariant(grid, starts, visited, energized, beams + [beam])
    requires InGrid(grid, beam) && beam !in visited
    ensures AllStates(grid) - (visited + {beam}) < AllStates(grid) - visited
    ensures WorklistInvariant(grid, starts, visited + {beam}, energized + {(beam.row, beam.col)},
                              beams + Successors(grid, beam))
  {
    var all := beams + [beam];
    assert all[|beams|] == beam;
    assert IsUnit(beam.dr, beam.dc);
    InAllStates(grid, beam);
    if beam in starts {
      ReachableStart(grid, starts, beam);
    } else {
      assert Justified(grid, starts, visited, all[|beams|]);
      var v :| v in visited && InGrid(grid, v) && beam in Successors(grid, v);
      ReachableStep(grid, starts, v, beam);
    }
    var visited' := visited + {beam};
    var next := Successors(grid, beam);
    var beams' := beams + next;
    forall i | 0 <= i < |beams'|
      ensures IsUnit(beams'[i].dr, beams'[i].dc) && Justified(grid, starts, visited', beams'[i])
    {
      if i < |beams| {
        assert beams'[i] == all[i];
        assert Justified(grid, starts, visited, all[i]);
      } else {
        assert beams'[i] == next[i - |beams|];
      }
    }
    forall b | b in all
      ensures b in visited' || b in beams'
    {
      var k :| 0 <= k < |all| && all[k] == b;
      if k < |beams| {
        assert beams'[k] == b;
      }
    }
    forall j | 0 <= j < |next|
      ensures next[j] in beams'
    {
      assert beams'[|beams| + j] == next[j];
    }
  }

  /** With the worklist empty, the visited states are exactly the reachable ones. */
  lemma WorklistDone(grid: Contraption, starts: seq<Beam>, visited: set<Beam>, energized: set<(int, int)>)
    requires WorklistInvariant(grid, starts, visited, energized, [])
    ensures |energized| == EnergizedCount(grid, starts)
  {
    assert Closed(grid, starts, visited) by {
      assert Covered(grid, starts, visited, []);
    }
    ClosedReachableIsReachSet(grid, starts, visited);
  }

  lemma SplitLast<T>(s: seq<T>)
    requires |s| > 0
    ensures s == s[..|s| - 1] + [s[|s| - 1]]
  {
  }

  /** The beams are taken from the end of the worklist; a beam off the grid or in a state seen
      before is dropped, otherwise its tile is energized and the beams leaving it are pushed. */
  method GetEnergizedTiles(grid: Contraption, starts: seq<Beam>) returns (count: nat)
    requires forall i :: 0 <= i < |starts| ==> IsUnit(starts[i].dr, starts[i].dc)
    ensures count == EnergizedCount(grid, starts)
  {
    var beams := starts;
    var visitedTiles: set<Beam> := {};
    var energizedTiles: set<(int, int)> := {};
    WorklistStart(grid, starts);
    while |beams| > 0
      invariant WorklistInvariant(grid, starts, visitedTiles, energizedTiles, beams)
      decreases AllStates(grid) - visitedTiles, |beams|
    {
      SplitLast(beams);
      var beam := beams[|beams| - 1];
      beams := beams[..|beams| - 1];
      if !InGrid(grid, beam) || beam in visitedTiles {
        WorklistDrop(grid, starts, visitedTiles, energizedTiles, beams, beam);
      } else {
        WorklistVisit(grid, starts, visitedTiles, energizedTiles, beams, beam);
        visitedTiles := visitedTiles + {beam};
        energizedTiles := energizedTiles + {(beam.row, beam.col)};
        var newBeams := Successors(grid, beam);
        beams := beams + newBeams;
      }
    }
    WorklistDone(grid, starts, visitedTiles, energizedTiles);
    count := |energizedTiles|;
  }

  /** Part 1: one beam enters the top-left tile heading east. */
  method SolvePart1(grid: Contraption) returns (count: nat)
    ensures count == EnergizedCount(grid, [Beam(0, 0, 0, 1)])
  {
    count := GetEnergizedTiles(grid, [Beam(0, 0, 0, 1)]);
  }

  // ---------------------------------------------------------------------------
  // Bounds on the count
  // ---------------------------------------------------------------------------

  function Cells(rows: nat, cols: nat): set<(int, int)>
  {
    set r, c | 0 <= r < rows && 0 <= c < cols :: (r, c)
  }

  function RowCells(r: int, cols: nat): set<(int, int)>
  {
    set c | 0 <= c < cols :: (r, c)
  }

  lemma {:induction false} RowCellsCount(r: int, cols: nat)
    ensures |RowCells(r, cols)| == cols
  {
    if cols > 0 {
      RowCellsCount(r, cols - 1);
      assert RowCells(r, cols) == RowCells(r, cols - 1) + {(r, cols - 1)};
    }
  }

  lemma {:induction false} CellsCount(rows: nat, cols: nat)
    ensures |Cells(rows, cols)| == rows * cols
  {
    if rows > 0 {
      CellsCount(rows - 1, cols);
      var rest, row := Cells(rows - 1, cols), RowCells(rows - 1, cols);
      RowCellsCount(rows - 1, cols);
      assert Cells(rows, cols) == rest + row;
      assert rest * row == {};
      assert |rest + row| == |rest| + |row| - |rest * row|;
      assert (rows - 1) * cols + cols == rows * cols;
    }
  }

  predicate Rectangular(grid: Contraption, cols: nat)
  {
    forall r :: 0 <= r < |grid| ==> |grid[r]| == cols
  }

  /** A start beam inside the grid energizes at least its own tile, and no more tiles are
      energized than the grid has. */
  lemma EnergizedBounds(grid: Contraption, starts: seq<Beam>, cols: nat)
    requires forall i :: 0 <= i < |starts| ==> IsUnit(starts[i].dr, starts[i].dc)
    requires Rectangular(grid, cols)
    ensures (exists i :: 0 <= i < |starts| && InGrid(grid, starts[i])) ==> EnergizedCount(grid, starts) >= 1
    ensures EnergizedCount(grid, starts) <= |grid| * cols
  {
    var reach := ReachSet(grid, starts);
    if i :| 0 <= i < |starts| && InGrid(grid, starts[i]) {
      ReachableStart(grid, starts, starts[i]);
      InAllStates(grid, starts[i]);
      InReachSet(grid, starts, starts[i]);
      assert (starts[i].row, starts[i].col) in Positions(reach);
    }
    forall q | q in Positions(reach)
      ensures q in Cells(|grid|, cols)
    {
      var b :| b in reach && q == (b.row, b.col);
      InReachSet(grid, starts, b);
    }
    CellsCount(|grid|, cols);
    SubsetCardinality(Positions(reach), Cells(|grid|, cols));
  }

  lemma SubsetCardinality<T>(a: set<T>, b: set<T>)
    requires a <= b
    ensures |a| <= |b|
  {
    assert b == a + (b - a);
  }

  // ---------------------------------------------------------------------------
  // Part 2: the best start along the edges
  // ---------------------------------------------------------------------------

  /** The count for a single start beam. */
  ghost function StartCount(grid: Contraption, s: Beam): nat
  {
    EnergizedCount(grid, [s])
  }

  /** A start on the left edge heading east or on the right edge heading west, in the first n rows. */
  predicate RowEdgeStart(cols: nat, n: nat, s: Beam)
  {
    0 <= s.row < n && s.dr == 0 &&
    ((s.col == 0 && s.dc == 1) || (s.col == cols - 1 && s.dc == -1))
  }

  /** A start on the top edge heading south or on the bottom edge heading north, in the first n
      columns. */
  predicate ColumnEdgeStart(rows: nat, n: nat, s: Beam)
  {
    0 <= s.col < n && s.dc == 0 &&
    ((s.row == 0 && s.dr == 1) || (s.row == rows - 1 && s.dr == -1))
  }

  predicate EdgeStart(rows: nat, cols: nat, s: Beam)
  {
    RowEdgeStart(cols, rows, s) || ColumnEdgeStart(rows, cols, s)
  }

  /** Part 2: every edge start heading into the grid is tried, and the largest count is kept. The
      running maximum starts below every count, as negative infinity does. */
  method SolvePart2(grid: Contraption) returns (best: int)
    requires |grid| > 0
    ensures forall s :: EdgeStart(|grid|, |grid[0]|, s) ==> StartCount(grid, s) <= best
    ensures exists s :: EdgeStart(|grid|, |grid[0]|, s) && StartCount(grid, s) == best
    ensures StartCount(grid, Beam(0, 0, 0, 1)) <= best
    ensures Rectangular(grid, |grid[0]|) ==> best <= |grid| * |grid[0]|
  {
    var rows, cols := |grid|, |grid[0]|;
    best := -1;
    ghost var bestStart := Beam(0, 0, 0, 1);
    for i := 0 to rows
      invariant forall s :: RowEdgeStart(cols, i, s) ==> StartCount(grid, s) <= best
      invariant i > 0 ==> EdgeStart(rows, cols, bestStart) && StartCount(grid, bestStart) == best
      invariant i == 0 ==> best == -1
    {
      var east := GetEnergizedTiles(grid, [Beam(i, 0, 0, 1)]);
      var west := GetEnergizedTiles(grid, [Beam(i, cols - 1, 0, -1)]);
      if east > best {
        best, bestStart := east, Beam(i, 0, 0, 1);
      }
      if west > best {
        best, bestStart := west, Beam(i, cols - 1, 0, -1);
      }
      forall s | RowEdgeStart(cols, i + 1, s)
        ensures StartCount(grid, s) <= best
      {
        if s.row == i {
          if s.dc == 1 {
            assert s == Beam(i, 0, 0, 1);
          } else {
            assert s == Beam(i, cols - 1, 0, -1);
          }
        }
      }
    }
    for j := 0 to cols
      invariant forall s :: RowEdgeStart(cols, rows, s) ==> StartCount(grid, s) <= best
      invariant forall s :: ColumnEdgeStart(rows, j, s) ==> StartCount(grid, s) <= best
      invariant EdgeStart(rows, cols, bestStart) && StartCount(grid, bestStart) == best
    {
      var south := GetEnergizedTiles(grid, [Beam(0, j, 1, 0)]);
      var north := GetEnergizedTiles(grid, [Beam(rows - 1, j, -1, 0)]);
      if south > best {
        best, bestStart := south, Beam(0, j, 1, 0);
      }
      if north > best {
        best, bestStart := north, Beam(rows - 1, j, -1, 0);
      }
      forall s | ColumnEdgeStart(rows, j + 1, s)
        ensures StartCount(grid, s) <= best
      {
        if s.col == j {
          if s.dr == 1 {
            assert s == Beam(0, j, 1, 0);
          } else {
            assert s == Beam(rows - 1, j, -1, 0);
          }
        }
      }
    }
    assert RowEdgeStart(cols, rows, Beam(0, 0, 0, 1));
    if Rectangular(grid, cols) {
      EnergizedBounds(grid, [bestStart], cols);
    }
  }
}
