/** Day 18: a digger follows a plan of straight trenches; the lagoon is the trench loop together
    with its interior, and its volume in cubic metres (tiles) is wanted. */
module Day18LavaductLagoon {
  import opened Common

  datatype Tile = Tile(row: int, col: int)

  /** One line of the dig plan: a direction letter, a length, and the colour code that part 2
      reads instead. */
  datatype Instruction = Instruction(direction: char, amount: nat, color: string)

  // ===========================================================================
  // Part 1: trace the trench, then flood the padded bounding box from a corner
  // ===========================================================================

  predicate IsDirectionLetter(c: char)
  {
    c == 'U' || c == 'D' || c == 'L' || c == 'R'
  }

  /** The neighbouring tile in the direction a letter names. */
  function Step(t: Tile, c: char): (n: Tile)
    requires IsDirectionLetter(c)
    ensures c == 'U' || c == 'D' ==> n.col == t.col && n.row != t.row && -1 <= n.row - t.row <= 1
    ensures c == 'L' || c == 'R' ==> n.row == t.row && n.col != t.col && -1 <= n.col - t.col <= 1
    ensures c == 'U' || c == 'L' ==> n.row + n.col == t.row + t.col - 1
    ensures c == 'D' || c == 'R' ==> n.row + n.col == t.row + t.col + 1
  {
    if c == 'U' then Tile(t.row - 1, t.col)
    else if c == 'D' then Tile(t.row + 1, t.col)
    else if c == 'L' then Tile(t.row, t.col - 1)
    else Tile(t.row, t.col + 1)
  }

  predicate ValidInstructions(instructions: seq<Instruction>)
  {
    forall i :: 0 <= i < |instructions| ==> IsDirectionLetter(instructions[i].direction)
  }

  predicate AllLetters(letters: seq<char>)
  {
    forall i :: 0 <= i < |letters| ==> IsDirectionLetter(letters[i])
  }

  function Repeat(c: char, n: nat): (r: seq<char>)
    ensures |r| == n && forall i :: 0 <= i < n ==> r[i] == c
  {
    seq(n, _ => c)
  }

  /** The single steps of a plan: each instruction's letter, as often as its amount says. */
  function Letters(instructions: seq<Instruction>): seq<char>
  {
    if instructions == [] then []
    else
      var last := instructions[|instructions| - 1];
      Letters(instructions[..|instructions| - 1]) + Repeat(last.direction, last.amount)
  }

  lemma {:induction false} LettersValid(instructions: seq<Instruction>)
    requires ValidInstructions(instructions)
    ensures AllLetters(Letters(instructions))
  {
    if instructions != [] {
      var prefix := instructions[..|instructions| - 1];
      assert ValidInstructions(prefix) by {
        assert forall i :: 0 <= i < |prefix| ==> prefix[i] == instructions[i];
      }
      LettersValid(prefix);
    }
  }

  /** The tile reached after the steps, from the origin. */
  function EndTile(letters: seq<char>): Tile
    requires AllLetters(letters)
  {
    if letters == [] then Tile(0, 0) else Step(EndTile(letters[..|letters| - 1]), letters[|letters| - 1])
  }

  /** The tiles dug: every tile entered by a step. The origin counts only when a step enters it. */
  function TrenchOf(letters: seq<char>): set<Tile>
    requires AllLetters(letters)
  {
    if letters == [] then {} else TrenchOf(letters[..|letters| - 1]) + {EndTile(letters)}
  }

  datatype Bounds = Bounds(minRow: int, maxRow: int, minCol: int, maxCol: int)

  function Widen(b: Bounds, t: Tile): Bounds
  {
    Bounds(Min(b.minRow, t.row), Max(b.maxRow, t.row), Min(b.minCol, t.col), Max(b.maxCol, t.col))
  }

  /** The bounds the trace keeps: the origin widened by every tile entered. */
  function BoundsOf(letters: seq<char>): Bounds
    requires AllLetters(letters)
  {
    if letters == [] then Bounds(0, 0, 0, 0) else Widen(BoundsOf(letters[..|letters| - 1]), EndTile(letters))
  }

  /** The bounds are the least ones holding the origin and every trench tile. */
  ghost predicate TightBounds(trench: set<Tile>, b: Bounds)
  {
    b.minRow <= 0 <= b.maxRow && b.minCol <= 0 <= b.maxCol &&
    (forall t :: t in trench ==> b.minRow <= t.row <= b.maxRow && b.minCol <= t.col <= b.maxCol) &&
    (b.minRow == 0 || exists t :: t in trench && t.row == b.minRow) &&
    (b.maxRow == 0 || exists t :: t in trench && t.row == b.maxRow) &&
    (b.minCol == 0 || exists t :: t in trench && t.col == b.minCol) &&
    (b.maxCol == 0 || exists t :: t in trench && t.col == b.maxCol)
  }

  lemma TightBoundsWiden(trench: set<Tile>, b: Bounds, t: Tile)
    requires TightBounds(trench, b)
    ensures TightBounds(trench + {t}, Widen(b, t))
  {
  }

  lemma {:induction false} BoundsOfTight(letters: seq<char>)
    requires AllLetters(letters)
    ensures TightBounds(TrenchOf(letters), BoundsOf(letters))
  {
    if letters != [] {
      BoundsOfTight(letters[..|letters| - 1]);
      TightBoundsWiden(TrenchOf(letters[..|letters| - 1]), BoundsOf(letters[..|letters| - 1]), EndTile(letters));
    }
  }

  lemma StepAppend(letters: seq<char>, c: char)
    requires AllLetters(letters) && IsDirectionLetter(c)
    ensures AllLetters(letters + [c])
    ensures EndTile(letters + [c]) == Step(EndTile(letters), c)
    ensures TrenchOf(letters + [c]) == TrenchOf(letters) + {Step(EndTile(letters), c)}
    ensures BoundsOf(letters + [c]) == Widen(BoundsOf(letters), Step(EndTile(letters), c))
  {
    assert (letters + [c])[..|letters|] == letters;
  }

  lemma LettersStep(instructions: seq<Instruction>, k: nat)
    requires k < |instructions|
    ensures Letters(instructions[..k + 1]) == Letters(instructions[..k]) + Repeat(instructions[k].direction, instructions[k].amount)
  {
    assert instructions[..k + 1][..k] == instructions[..k];
  }

  /** The trace loop: step by step along each instruction, widening the bounds and recording
      each tile entered. */
  method DigTrench(instructions: seq<Instruction>) returns (visitedTiles: set<Tile>, bounds: Bounds)
    requires ValidInstructions(instructions)
    ensures AllLetters(Letters(instructions))
    ensures visitedTiles == TrenchOf(Letters(instructions))
    ensures bounds == BoundsOf(Letters(instructions))
  {
    visitedTiles := {};
    var currentTile := Tile(0, 0);
    var minRow, maxRow, minCol, maxCol := 0, 0, 0, 0;
    ghost var done: seq<char> := [];
    var k := 0;
    while k < |instructions|
      invariant 0 <= k <= |instructions|
      invariant done == Letters(instructions[..k]) && AllLetters(done)
      invariant currentTile == EndTile(done) && visitedTiles == TrenchOf(done)
      invariant Bounds(minRow, maxRow, minCol, maxCol) == BoundsOf(done)
    {
      var direction, amount := instructions[k].direction, instructions[k].amount;
      ghost var before := done;
      var i := 1;
      while i <= amount
        invariant 1 <= i <= amount + 1
        invariant done == before + Repeat(direction, i - 1) && AllLetters(done)
        invariant currentTile == EndTile(done) && visitedTiles == TrenchOf(done)
        invariant Bounds(minRow, maxRow, minCol, maxCol) == BoundsOf(done)
      {
        StepAppend(done, direction);
        currentTile := Step(currentTile, direction);
        minRow := Min(minRow, currentTile.row);
        maxRow := Max(maxRow, currentTile.row);
        minCol := Min(minCol, currentTile.col);
        maxCol := Max(maxCol, currentTile.col);
        visitedTiles := visitedTiles + {currentTile};
        assert before + Repeat(direction, i) == (before + Repeat(direction, i - 1)) + [direction];
        done := done + [direction];
        i := i + 1;
      }
      LettersStep(instructions, k);
      k := k + 1;
    }
    assert instructions[..|instructions|] == instructions;
    bounds := Bounds(minRow, maxRow, minCol, maxCol);
  }

  // ---------------------------------------------------------------------------
  // The padded box and its tiles
  // ---------------------------------------------------------------------------

  /** The bounding box grown by one tile on every side. */
  datatype Box = Box(top: int, bottom: int, left: int, right: int)

  function PaddedBox(b: Bounds): Box
  {
    Box(b.minRow - 1, b.maxRow + 1, b.minCol - 1, b.maxCol + 1)
  }

  predicate InBox(box: Box, t: Tile)
  {
    box.top <= t.row <= box.bottom && box.left <= t.col <= box.right
  }

  function Corner(box: Box): Tile
  {
    Tile(box.top, box.left)
  }

  function RowTiles(r: int, left: int, width: nat): set<Tile>
  {
    set c | left <= c < left + width :: Tile(r, c)
  }

  function RectTiles(top: int, left: int, height: nat, width: nat): set<Tile>
  {
    set r, c | top <= r < top + height && left <= c < left + width :: Tile(r, c)
  }

  lemma {:induction false} RowTilesCount(r: int, left: int, width: nat)
    ensures |RowTiles(r, left, width)| == width
  {
    if width > 0 {
      RowTilesCount(r, left, width - 1);
      var last := Tile(r, left + width - 1);
      assert last !in RowTiles(r, left, width - 1);
      assert RowTiles(r, left, width) == RowTiles(r, left, width - 1) + {last};
    }
  }

  lemma {:induction false} RectTilesCount(top: int, left: int, height: nat, width: nat)
    ensures |RectTiles(top, left, height, width)| == height * width
  {
    if height > 0 {
      RectTilesCount(top, left, height - 1, width);
      var rest, row := RectTiles(top, left, height - 1, width), RowTiles(top + height - 1, left, width);
      RowTilesCount(top + height - 1, left, width);
      assert RectTiles(top, left, height, width) == rest + row;
      assert rest * row == {};
      assert |rest + row| == |rest| + |row| - |rest * row|;
      assert (height - 1) * width + width == height * width;
    }
  }

  /** Every tile of the box. */
  function BoxTiles(box: Box): set<Tile>
  {
    set r, c | box.top <= r <= box.bottom && box.left <= c <= box.right :: Tile(r, c)
  }

  lemma InBoxTiles(box: Box, t: Tile)
    ensures t in BoxTiles(box) <==> InBox(box, t)
  {
    if InBox(box, t) {
      assert t == Tile(t.row, t.col);
    }
  }

  /** The padded box of a trench w wide and h high has (w + 2) * (h + 2) tiles. */
  lemma PaddedBoxCount(b: Bounds)
    requires b.minRow <= b.maxRow && b.minCol <= b.maxCol
    ensures |BoxTiles(PaddedBox(b))| == (b.maxCol - b.minCol + 3) * (b.maxRow - b.minRow + 3)
  {
    var box := PaddedBox(b);
    var height, width := b.maxRow - b.minRow + 3, b.maxCol - b.minCol + 3;
    assert BoxTiles(box) == RectTiles(box.top, box.left, height, width);
    RectTilesCount(box.top, box.left, height, width);
  }

  /** The trench lies strictly inside its padded box, away from its border. */
  lemma TrenchInsidePaddedBox(trench: set<Tile>, b: Bounds, t: Tile)
    requires TightBounds(trench, b) && t in trench
    ensures InBox(PaddedBox(b), t) && t != Corner(PaddedBox(b))
  {
  }

  // ---------------------------------------------------------------------------
  // Tiles reachable from the corner without crossing the trench
  // ---------------------------------------------------------------------------

  function Neighbours(t: Tile): seq<Tile>
  {
    [Step(t, 'U'), Step(t, 'D'), Step(t, 'L'), Step(t, 'R')]
  }

  /** A walk from the corner through the box, from neighbour to neighbour, never on the trench. */
  ghost predicate IsWalk(trench: set<Tile>, box: Box, p: seq<Tile>)
  {
    |p| > 0 && p[0] == Corner(box) &&
    (forall i :: 0 <= i < |p| ==> InBox(box, p[i]) && p[i] !in trench) &&
    (forall i :: 0 <= i < |p| - 1 ==> p[i + 1] in Neighbours(p[i]))
  }

  ghost predicate Reachable(trench: set<Tile>, box: Box, t: Tile)
  {
    exists p :: IsWalk(trench, box, p) && p[|p| - 1] == t
  }

  /** The tiles of the box outside the lagoon. */
  ghost function OutsideSet(trench: set<Tile>, box: Box): set<Tile>
  {
    set t | t in BoxTiles(box) && Reachable(trench, box, t)
  }

  lemma ReachableCorner(trench: set<Tile>, box: Box)
    requires InBox(box, Corner(box)) && Corner(box) !in trench
    ensures Reachable(trench, box, Corner(box))
  {
    assert IsWalk(trench, box, [Corner(box)]);
  }

  lemma ReachableStep(trench: set<Tile>, box: Box, o: Tile, t: Tile)
    requires Reachable(trench, box, o) && t in Neighbours(o) && InBox(box, t) && t !in trench
    ensures Reachable(trench, box, t)
  {
    var p :| IsWalk(trench, box, p) && p[|p| - 1] == o;
    assert IsWalk(trench, box, p + [t]);
  }

  /** A set holding the corner and every free box neighbour of its members. */
  ghost predicate Closed(trench: set<Tile>, box: Box, s: set<Tile>)
  {
    Corner(box) in s &&
    forall o, j :: o in s && 0 <= j < 4 && InBox(box, Neighbours(o)[j]) && Neighbours(o)[j] !in trench
      ==> Neighbours(o)[j] in s
  }

  lemma {:induction false} WalkInClosed(trench: set<Tile>, box: Box, s: set<Tile>, p: seq<Tile>, n: nat)
    requires Closed(trench, box, s) && IsWalk(trench, box, p) && n < |p|
    ensures p[n] in s
  {
    if n > 0 {
      WalkInClosed(trench, box, s, p, n - 1);
      var j :| 0 <= j < 4 && Neighbours(p[n - 1])[j] == p[n];
    }
  }

  lemma ClosedHoldsOutside(trench: set<Tile>, box: Box, s: set<Tile>)
    requires Closed(trench, box, s)
    ensures OutsideSet(trench, box) <= s
  {
    forall t | t in OutsideSet(trench, box)
      ensures t in s
    {
      var p :| IsWalk(trench, box, p) && p[|p| - 1] == t;
      WalkInClosed(trench, box, s, p, |p| - 1);
    }
  }

  // ---------------------------------------------------------------------------
  // The flood-fill stack
  // ---------------------------------------------------------------------------

  /** A tile on the stack is the corner or a neighbour of a tile already counted outside. */
  ghost predicate Justified(box: Box, outside: set<Tile>, t: Tile)
  {
    t == Corner(box) || exists o :: o in outside && t in Neighbours(o)
  }

  /** The corner and every box neighbour of a counted tile are visited or still on the stack. */
  ghost predicate Covered(box: Box, visited: set<Tile>, outside: set<Tile>, stack: seq<Tile>)
  {
    (Corner(box) in visited || Corner(box) in stack) &&
    forall o, j :: o in outside && 0 <= j < 4 && InBox(box, Neighbours(o)[j])
      ==> Neighbours(o)[j] in visited || Neighbours(o)[j] in stack
  }

  /** What the flood keeps: the visited set is the trench together with the tiles counted
      outside; those are free, reachable box tiles, and the count is their number. */
  ghost predicate FloodInvariant(trench: set<Tile>, box: Box, visited: set<Tile>, outside: set<Tile>,
                                 count: nat, stack: seq<Tile>)
  {
    visited == trench + outside && outside * trench == {} &&
    outside <= BoxTiles(box) && count == |outside| &&
    (forall o :: o in outside ==> Reachable(trench, box, o)) &&
    (forall i :: 0 <= i < |stack| ==> Justified(box, outside, stack[i])) &&
    Covered(box, visited, outside, stack)
  }

  lemma FloodStart(trench: set<Tile>, box: Box)
    ensures FloodInvariant(trench, box, trench, {}, 0, [Corner(box)])
  {
  }

  /** Dropping a tile outside the box or visited before keeps the invariant. */
  lemma FloodDrop(trench: set<Tile>, box: Box, visited: set<Tile>, outside: set<Tile>, count: nat,
                  stack: seq<Tile>, t: Tile)
    requires FloodInvariant(trench, box, visited, outside, count, stack + [t])
    requires InBox(box, Corner(box))
    requires !InBox(box, t) || t in visited
    ensures FloodInvariant(trench, box, visited, outside, count, stack)
  {
    var all := stack + [t];
    forall i | 0 <= i < |stack|
      ensures stack[i] == all[i]
    {
    }
    assert forall u :: u in all ==> u in stack || u == t;
  }

  /** A tile taken from the stack that is a free box tile is reachable from the corner. */
  lemma VisitReachable(trench: set<Tile>, box: Box, outside: set<Tile>, stack: seq<Tile>, t: Tile)
    requires forall i :: 0 <= i < |stack + [t]| ==> Justified(box, outside, (stack + [t])[i])
    requires forall o :: o in outside ==> Reachable(trench, box, o)
    requires InBox(box, t) && t !in trench
    ensures Reachable(trench, box, t)
  {
    assert (stack + [t])[|stack|] == t;
    if t == Corner(box) {
      ReachableCorner(trench, box);
    } else {
      var o :| o in outside && t in Neighbours(o);
      ReachableStep(trench, box, o, t);
    }
  }

  lemma VisitJustified(box: Box, outside: set<Tile>, stack: seq<Tile>, t: Tile)
    requires forall i :: 0 <= i < |stack + [t]| ==> Justified(box, outside, (stack + [t])[i])
    ensures forall i :: 0 <= i < |stack + Neighbours(t)| ==> Justified(box, outside + {t}, (stack + Neighbours(t))[i])
  {
    var all, stack' := stack + [t], stack + Neighbours(t);
    forall i | 0 <= i < |stack'|
      ensures Justified(box, outside + {t}, stack'[i])
    {
      if i < |stack| {
        assert stack'[i] == all[i];
        assert Justified(box, outside, all[i]);
      } else {
        assert stack'[i] == Neighbours(t)[i - |stack|];
      }
    }
  }

  lemma VisitCovered(box: Box, visited: set<Tile>, outside: set<Tile>, stack: seq<Tile>, t: Tile)
    requires Covered(box, visited, outside, stack + [t])
    ensures Covered(box, visited + {t}, outside + {t}, stack + Neighbours(t))
  {
    var all, stack' := stack + [t], stack + Neighbours(t);
    forall u | u in all
      ensures u in visited + {t} || u in stack'
    {
      var k :| 0 <= k < |all| && all[k] == u;
      if k < |stack| {
        assert stack'[k] == u;
      }
    }
    forall j | 0 <= j < 4
      ensures Neighbours(t)[j] in stack'
    {
      assert stack'[|stack| + j] == Neighbours(t)[j];
    }
  }

  /** Counting a new free box tile and pushing its four neighbours keeps the invariant. */
  lemma FloodVisit(trench: set<Tile>, box: Box, visited: set<Tile>, outside: set<Tile>, count: nat,
                   stack: seq<Tile>, t: Tile)
    requires FloodInvariant(trench, box, visited, outside, count, stack + [t])
    requires InBox(box, t) && t !in visited
    ensures BoxTiles(box) - (outside + {t}) < BoxTiles(box) - outside
    ensures FloodInvariant(trench, box, visited + {t}, outside + {t}, count + 1, stack + Neighbours(t))
  {
    InBoxTiles(box, t);
    VisitReachable(trench, box, outside, stack, t);
    VisitJustified(box, outside, stack, t);
    VisitCovered(box, visited, outside, stack, t);
  }

  /** With the stack empty, the counted tiles are exactly those reachable from the corner. */
  lemma FloodDone(trench: set<Tile>, box: Box, visited: set<Tile>, outside: set<Tile>, count: nat)
    requires FloodInvariant(trench, box, visited, outside, count, [])
    requires InBox(box, Corner(box)) && Corner(box) !in trench
    ensures outside == OutsideSet(trench, box)
  {
    assert Closed(trench, box, outside);
    ClosedHoldsOutside(trench, box, outside);
  }

  /** The tiles of the box that no walk from the corner reaches: the trench and its interior. */
  ghost function LagoonTiles(instructions: seq<Instruction>): set<Tile>
    requires ValidInstructions(instructions)
  {
    LettersValid(instructions);
    var letters := Letters(instructions);
    var box := PaddedBox(BoundsOf(letters));
    BoxTiles(box) - OutsideSet(TrenchOf(letters), box)
  }

  /** The four neighbours of a tile pushed in the order up, down, left, right. */
  method PushNeighbours(stack: seq<Tile>, tile: Tile) returns (pushed: seq<Tile>)
    ensures pushed == stack + Neighbours(tile)
  {
    pushed := stack;
    var directions := "UDLR";
    for j := 0 to 4
      invariant pushed == stack + Neighbours(tile)[..j]
    {
      pushed := pushed + [Step(tile, directions[j])];
    }
  }

  /** One turn of the flood loop. */
  method FloodTurn(trench: set<Tile>, bounds: Bounds, visitedTiles: set<Tile>, ghost outside: set<Tile>,
                   count: nat, tilesOutsideTrench: seq<Tile>)
    returns (visitedTiles': set<Tile>, ghost outside': set<Tile>, count': nat, tilesOutsideTrench': seq<Tile>)
    requires TightBounds(trench, bounds) && |tilesOutsideTrench| > 0
    requires FloodInvariant(trench, PaddedBox(bounds), visitedTiles, outside, count, tilesOutsideTrench)
    ensures FloodInvariant(trench, PaddedBox(bounds), visitedTiles', outside', count', tilesOutsideTrench')
    ensures BoxTiles(PaddedBox(bounds)) - outside' < BoxTiles(PaddedBox(bounds)) - outside ||
            (outside' == outside && |tilesOutsideTrench'| < |tilesOutsideTrench|)
    ensures var tile := tilesOutsideTrench[|tilesOutsideTrench| - 1];
      var rest := tilesOutsideTrench[..|tilesOutsideTrench| - 1];
      if !InBox(PaddedBox(bounds), tile) || tile in visitedTiles then
        visitedTiles' == visitedTiles && outside' == outside && count' == count && tilesOutsideTrench' == rest
      else
        visitedTiles' == visitedTiles + {tile} && outside' == outside + {tile} && count' == count + 1 &&
        tilesOutsideTrench' == rest + Neighbours(tile)
  {
    var box := PaddedBox(bounds);
    var tile := tilesOutsideTrench[|tilesOutsideTrench| - 1];
    var rest := tilesOutsideTrench[..|tilesOutsideTrench| - 1];
    assert tilesOutsideTrench == rest + [tile];
    visitedTiles', outside', count', tilesOutsideTrench' := visitedTiles, outside, count, rest;
    if tile.row < bounds.minRow - 1 || tile.row > bounds.maxRow + 1 ||
       tile.col < bounds.minCol - 1 || tile.col > bounds.maxCol + 1 {
      FloodDrop(trench, box, visitedTiles, outside, count, rest, tile);
      return;
    }
    if tile in visitedTiles {
      FloodDrop(trench, box, visitedTiles, outside, count, rest, tile);
      return;
    }
    FloodVisit(trench, box, visitedTiles, outside, count, rest, tile);
    count' := count + 1;
    visitedTiles' := visitedTiles + {tile};
    outside' := outside + {tile};
    tilesOutsideTrench' := PushNeighbours(rest, tile);
  }

  /** The flood loop: tiles are popped from the end of the stack; one outside the padded box or
      visited before is skipped, otherwise it is counted, marked and its four neighbours pushed. */
  method CountOutside(trench: set<Tile>, bounds: Bounds) returns (count: nat)
    requires TightBounds(trench, bounds)
    ensures count == |OutsideSet(trench, PaddedBox(bounds))|
  {
    var visitedTiles := trench;
    ghost var outside: set<Tile> := {};
    var tilesOutsideTrench := [Tile(bounds.minRow - 1, bounds.minCol - 1)];
    count := 0;
    FloodStart(trench, PaddedBox(bounds));
    while |tilesOutsideTrench| > 0
      invariant FloodInvariant(trench, PaddedBox(bounds), visitedTiles, outside, count, tilesOutsideTrench)
      decreases BoxTiles(PaddedBox(bounds)) - outside, |tilesOutsideTrench|
    {
      visitedTiles, outside, count, tilesOutsideTrench := FloodTurn(trench, bounds, visitedTiles, outside, count, tilesOutsideTrench);
    }
    FloodDone(trench, PaddedBox(bounds), visitedTiles, outside, count);
  }

  /** Part 1: the padded box's tile count minus the tiles counted outside the trench. */
  method SolvePart1(instructions: seq<Instruction>) returns (volume: int)
    requires ValidInstructions(instructions)
    ensures volume == |LagoonTiles(instructions)|
  {
    var trench, bounds := DigTrench(instructions);
    var trenchWidth := bounds.maxCol - bounds.minCol + 1;
    var trenchHeight := bounds.maxRow - bounds.minRow + 1;
    var tilesCount := (trenchWidth + 2) * (trenchHeight + 2);
    BoundsOfTight(Letters(instructions));
    var outsideCount := CountOutside(trench, bounds);
    volume := tilesCount - outsideCount;
    LagoonVolume(instructions, bounds, trenchWidth, trenchHeight);
  }

  /** The lagoon is the padded box, (width + 2) by (height + 2) tiles, less the outside tiles. */
  lemma LagoonVolume(instructions: seq<Instruction>, bounds: Bounds, width: int, height: int)
    requires ValidInstructions(instructions) && AllLetters(Letters(instructions))
    requires bounds == BoundsOf(Letters(instructions))
    requires width == bounds.maxCol - bounds.minCol + 1 && height == bounds.maxRow - bounds.minRow + 1
    ensures |LagoonTiles(instructions)|
      == (width + 2) * (height + 2) - |OutsideSet(TrenchOf(Letters(instructions)), PaddedBox(bounds))|
  {
    LagoonIsBoxLessOutside(instructions, bounds);
    BoundsOfTight(Letters(instructions));
    PaddedBoxArea(bounds, width, height);
  }

  lemma LagoonIsBoxLessOutside(instructions: seq<Instruction>, bounds: Bounds)
    requires ValidInstructions(instructions) && AllLetters(Letters(instructions))
    requires bounds == BoundsOf(Letters(instructions))
    ensures |LagoonTiles(instructions)|
      == |BoxTiles(PaddedBox(bounds))| - |OutsideSet(TrenchOf(Letters(instructions)), PaddedBox(bounds))|
  {
    var trench := TrenchOf(Letters(instructions));
    var box := PaddedBox(bounds);
    assert LagoonTiles(instructions) == BoxTiles(box) - OutsideSet(trench, box);
    SubsetDifference(OutsideSet(trench, box), BoxTiles(box));
  }

  lemma PaddedBoxArea(bounds: Bounds, width: int, height: int)
    requires bounds.minRow <= bounds.maxRow && bounds.minCol <= bounds.maxCol
    requires width == bounds.maxCol - bounds.minCol + 1 && height == bounds.maxRow - bounds.minRow + 1
    ensures |BoxTiles(PaddedBox(bounds))| == (width + 2) * (height + 2)
  {
    PaddedBoxCount(bounds);
    ProductOfEquals(width + 2, height + 2, bounds.maxCol - bounds.minCol + 3, bounds.maxRow - bounds.minRow + 3);
  }

  lemma ProductOfEquals(a: int, b: int, c: int, d: int)
    requires a == c && b == d
    ensures a * b == c * d
  {
  }

  lemma SubsetDifference<T>(a: set<T>, b: set<T>)
    requires a <= b
    ensures |b - a| == |b| - |a|
  {
    assert b == a + (b - a);
  }

  /** Every trench tile belongs to the lagoon, so the volume is at least the trench length. */
  lemma TrenchInLagoon(instructions: seq<Instruction>)
    requires ValidInstructions(instructions)
    ensures AllLetters(Letters(instructions))
    ensures TrenchOf(Letters(instructions)) <= LagoonTiles(instructions)
  {
    LettersValid(instructions);
    var letters := Letters(instructions);
    var trench, bounds := TrenchOf(letters), BoundsOf(letters);
    var box := PaddedBox(bounds);
    BoundsOfTight(letters);
    forall t | t in trench
      ensures t in LagoonTiles(instructions)
    {
      TrenchInsidePaddedBox(trench, bounds, t);
      InBoxTiles(box, t);
    }
  }

  // ===========================================================================
  // Part 2: the plan hidden in the colour codes, by coordinate compression
  // ===========================================================================

  /** The four unit vectors the source keeps as [row, column] pairs. */
  datatype Heading = Right | Down | Left | Up

  /** A decoded instruction: go `amount` tiles in direction `dir`. */
  datatype Dig = Dig(dir: Heading, amount: nat)

  predicate IsHexDigit(c: char)
  {
    '0' <= c <= '9' || 'a' <= c <= 'f' || 'A' <= c <= 'F'
  }

  function HexDigitValue(c: char): (v: nat)
    requires IsHexDigit(c)
    ensures v < 16
  {
    if '0' <= c <= '9' then c as nat - '0' as nat
    else if 'a' <= c <= 'f' then c as nat - 'a' as nat + 10
    else c as nat - 'A' as nat + 10
  }

  predicate AllHex(s: string)
  {
    forall i :: 0 <= i < |s| ==> IsHexDigit(s[i])
  }

  /** The number a string of hexadecimal digits spells, most significant digit first. */
  function HexValue(s: string): nat
    requires AllHex(s)
  {
    if s == [] then 0 else 16 * HexValue(s[..|s| - 1]) + HexDigitValue(s[|s| - 1])
  }

  function Pow16(k: nat): (p: nat)
    ensures p >= 1
  {
    if k == 0 then 1 else 16 * Pow16(k - 1)
  }

  lemma {:induction false} HexValueBound(s: string)
    requires AllHex(s)
    ensures HexValue(s) < Pow16(|s|)
  {
    if s != [] {
      HexValueBound(s[..|s| - 1]);
    }
  }

  lemma HexAppend(s: string, c: char)
    requires AllHex(s) && IsHexDigit(c)
    ensures AllHex(s + [c]) && HexValue(s + [c]) == 16 * HexValue(s) + HexDigitValue(c)
  {
    assert (s + [c])[..|s|] == s;
  }

  function HexDigitChar(d: nat): (c: char)
    requires d < 16
    ensures IsHexDigit(c) && HexDigitValue(c) == d
  {
    if d < 10 then ('0' as int + d) as char else ('a' as int + d - 10) as char
  }

  /** The k lowercase hexadecimal digits of n, with leading zeros. */
  function ToHex(n: nat, k: nat): (s: string)
    ensures |s| == k && AllHex(s)
  {
    if k == 0 then [] else ToHex(n / 16, k - 1) + [HexDigitChar(n % 16)]
  }

  /** Writing a number that fits in k digits and reading it back gives the number. */
  lemma {:induction false} HexRoundTrip(n: nat, k: nat)
    requires n < Pow16(k)
    ensures HexValue(ToHex(n, k)) == n
  {
    if k > 0 {
      assert n / 16 < Pow16(k - 1);
      HexRoundTrip(n / 16, k - 1);
      HexAppend(ToHex(n / 16, k - 1), HexDigitChar(n % 16));
    }
  }

  /** A colour code as the loader gives it: hexadecimal digits, the last of them 0 to 3. */
  predicate IsColor(color: string)
  {
    |color| >= 2 && AllHex(color[..|color| - 1]) && '0' <= color[|color| - 1] <= '3'
  }

  /** The last digit selects right, down, left or up; the digits before it are the length. */
  function Decode(color: string): (d: Dig)
    requires IsColor(color)
    ensures d.amount == HexValue(color[..|color| - 1])
    ensures d.dir == [Right, Down, Left, Up][color[|color| - 1] as int - '0' as int]
  {
    var k := color[|color| - 1] as int - '0' as int;
    Dig([Right, Down, Left, Up][k], HexValue(color[..|color| - 1]))
  }

  lemma DecodeSample()
    ensures Decode("70c710") == Dig(Right, 461937)
  {
    assert "70c710"[..5] == "70c71";
    HexAppend("", '7');
    assert "" + ['7'] == "7";
    HexAppend("7", '0');
    assert "7" + ['0'] == "70";
    HexAppend("70", 'c');
    assert "70" + ['c'] == "70c";
    HexAppend("70c", '7');
    assert "70c" + ['7'] == "70c7";
    HexAppend("70c7", '1');
    assert "70c7" + ['1'] == "70c71";
  }

  function Plan(colors: seq<string>): (plan: seq<Dig>)
    requires forall i :: 0 <= i < |colors| ==> IsColor(colors[i])
    ensures |plan| == |colors| && forall i :: 0 <= i < |colors| ==> plan[i] == Decode(colors[i])
  {
    seq(|colors|, i requires 0 <= i < |colors| && IsColor(colors[i]) => Decode(colors[i]))
  }

  /** `amount` times the row and the column component of a direction's unit vector. */
  function RowOffset(dir: Heading, amount: nat): int
  {
    if dir == Down then amount else if dir == Up then -(amount as int) else 0
  }

  function ColOffset(dir: Heading, amount: nat): int
  {
    if dir == Right then amount else if dir == Left then -(amount as int) else 0
  }

  /** The tile `amount` steps away in direction `dir`. */
  function MoveBy(t: Tile, dir: Heading, amount: nat): Tile
  {
    Tile(t.row + RowOffset(dir, amount), t.col + ColOffset(dir, amount))
  }

  /** A direction whose column component is zero. */
  predicate IsVerticalDirection(dir: Heading)
  {
    dir == Down || dir == Up
  }

  /** The digger's position after a plan, from the origin. */
  function Position(plan: seq<Dig>): Tile
  {
    if plan == [] then Tile(0, 0)
    else var d := plan[|plan| - 1]; MoveBy(Position(plan[..|plan| - 1]), d.dir, d.amount)
  }

  /** An edge with its end points in order: top first for a vertical edge, left first for a
      horizontal one. */
  datatype Edge = Edge(first: Tile, second: Tile)

  function VerticalEdge(a: Tile, b: Tile): (e: Edge)
    ensures e.first.row <= e.second.row || a.row >= b.row
    ensures {e.first, e.second} == {a, b}
  {
    if a.row < b.row then Edge(a, b) else Edge(b, a)
  }

  function HorizontalEdge(a: Tile, b: Tile): (e: Edge)
    ensures e.first.col <= e.second.col || a.col >= b.col
    ensures {e.first, e.second} == {a, b}
  {
    if a.col < b.col then Edge(a, b) else Edge(b, a)
  }

  function VerticalEdges(plan: seq<Dig>): seq<Edge>
  {
    if plan == [] then []
    else
      var prefix, d := plan[..|plan| - 1], plan[|plan| - 1];
      VerticalEdges(prefix) +
      (if IsVerticalDirection(d.dir) then [VerticalEdge(Position(prefix), Position(plan))] else [])
  }

  function HorizontalEdges(plan: seq<Dig>): seq<Edge>
  {
    if plan == [] then []
    else
      var prefix, d := plan[..|plan| - 1], plan[|plan| - 1];
      HorizontalEdges(prefix) +
      (if IsVerticalDirection(d.dir) then [] else [HorizontalEdge(Position(prefix), Position(plan))])
  }

  /** A vertical edge joins two tiles of one column, top first; a horizontal edge two tiles of
      one row, left first. */
  lemma {:induction false} EdgesOrdered(plan: seq<Dig>)
    ensures forall e :: e in VerticalEdges(plan) ==> e.first.col == e.second.col && e.first.row <= e.second.row
    ensures forall e :: e in HorizontalEdges(plan) ==> e.first.row == e.second.row && e.first.col <= e.second.col
  {
    if plan != [] {
      EdgesOrdered(plan[..|plan| - 1]);
    }
  }

  /** The rows and columns the digger stops at, in order. */
  function VertexRows(plan: seq<Dig>): seq<int>
  {
    if plan == [] then [] else VertexRows(plan[..|plan| - 1]) + [Position(plan).row]
  }

  function VertexCols(plan: seq<Dig>): seq<int>
  {
    if plan == [] then [] else VertexCols(plan[..|plan| - 1]) + [Position(plan).col]
  }

  function ElementsOf(xs: seq<int>): set<int>
  {
    set x | x in xs
  }

  /** A set of numbers kept in insertion order, as a JavaScript Set iterates them. */
  function Distinct(xs: seq<int>): (d: seq<int>)
    ensures ElementsOf(d) == ElementsOf(xs)
    ensures NoDuplicates(d)
  {
    if xs == [] then []
    else
      var prefix := xs[..|xs| - 1];
      var d := Distinct(prefix);
      assert xs == prefix + [xs[|xs| - 1]];
      assert ElementsOf(xs) == ElementsOf(prefix) + {xs[|xs| - 1]};
      if xs[|xs| - 1] in d then d
      else
        assert ElementsOf(d + [xs[|xs| - 1]]) == ElementsOf(d) + {xs[|xs| - 1]};
        d + [xs[|xs| - 1]]
  }

  predicate NoDuplicates(xs: seq<int>)
  {
    forall i, j :: 0 <= i < j < |xs| ==> xs[i] != xs[j]
  }

  predicate SortedAscending(xs: seq<int>)
  {
    forall i, j :: 0 <= i < j < |xs| ==> xs[i] <= xs[j]
  }

  predicate StrictlyIncreasing(xs: seq<int>)
  {
    forall i, j :: 0 <= i < j < |xs| ==> xs[i] < xs[j]
  }

  function InsertInt(x: int, s: seq<int>): (out: seq<int>)
    requires SortedAscending(s)
    ensures SortedAscending(out)
    ensures multiset(out) == multiset(s) + multiset{x}
    ensures |out| > 0 && (out[0] == x || (|s| > 0 && out[0] == s[0]))
  {
    if s == [] || x <= s[0] then
      [x] + s
    else
      var tail := InsertInt(x, s[1..]);
      assert s == [s[0]] + s[1..];
      assert s[0] <= tail[0];
      [s[0]] + tail
  }

  /** The numbers in ascending order. */
  function SortInts(xs: seq<int>): (r: seq<int>)
    ensures SortedAscending(r)
    ensures multiset(r) == multiset(xs)
  {
    if xs == [] then []
    else
      assert xs == [xs[0]] + xs[1..];
      InsertInt(xs[0], SortInts(xs[1..]))
  }

  lemma SortedNoDuplicates(xs: seq<int>)
    requires NoDuplicates(xs)
    ensures StrictlyIncreasing(SortInts(xs))
    ensures ElementsOf(SortInts(xs)) == ElementsOf(xs)
  {
    var r := SortInts(xs);
    assert forall x :: x in r <==> x in multiset(xs);
    assert forall x :: x in xs <==> x in multiset(xs);
    forall i, j | 0 <= i < j < |r|
      ensures r[i] < r[j]
    {
      if r[i] == r[j] {
        TwoCopies(r, i, j);
        NoDuplicatesCount(xs, r[i]);
      }
    }
  }

  lemma TwoCopies(r: seq<int>, i: nat, j: nat)
    requires i < j < |r| && r[i] == r[j]
    ensures multiset(r)[r[i]] >= 2
  {
    assert r == r[..j] + [r[j]] + r[j + 1..];
    assert r[i] in r[..j];
  }

  lemma {:induction false} NoDuplicatesCount(xs: seq<int>, x: int)
    requires NoDuplicates(xs)
    ensures multiset(xs)[x] <= 1
  {
    if xs != [] {
      var prefix := xs[..|xs| - 1];
      assert xs == prefix + [xs[|xs| - 1]];
      NoDuplicatesCount(prefix, x);
      if xs[|xs| - 1] == x {
        assert x !in prefix;
      }
    }
  }

  /** The distinct vertex rows and columns, ascending. */
  function RowsWithVertices(plan: seq<Dig>): seq<int>
  {
    SortInts(Distinct(VertexRows(plan)))
  }

  function ColsWithVertices(plan: seq<Dig>): seq<int>
  {
    SortInts(Distinct(VertexCols(plan)))
  }

  lemma VertexCoordinates(plan: seq<Dig>)
    ensures StrictlyIncreasing(RowsWithVertices(plan))
    ensures ElementsOf(RowsWithVertices(plan)) == ElementsOf(VertexRows(plan))
    ensures StrictlyIncreasing(ColsWithVertices(plan))
    ensures ElementsOf(ColsWithVertices(plan)) == ElementsOf(VertexCols(plan))
  {
    SortedNoDuplicates(Distinct(VertexRows(plan)));
    SortedNoDuplicates(Distinct(VertexCols(plan)));
  }

  /** Adding a value to the set of distinct values. */
  lemma DistinctStep(xs: seq<int>, x: int)
    ensures Distinct(xs + [x]) == if x in Distinct(xs) then Distinct(xs) else Distinct(xs) + [x]
  {
    assert (xs + [x])[..|xs|] == xs;
  }

  /** `Set.prototype.add` on a set kept as its elements in insertion order. */
  method AddDistinct(elements: seq<int>, ghost xs: seq<int>, x: int) returns (elements': seq<int>)
    requires elements == Distinct(xs)
    ensures elements' == Distinct(xs + [x])
  {
    DistinctStep(xs, x);
    elements' := elements;
    if x !in elements {
      elements' := elements + [x];
    }
  }

  /** The loop of getTrenchData: each instruction is decoded, its edge stored with the ends in
      order, and the new vertex's row and column added to the sets; the sets are then sorted. */
  method GetTrenchData(colors: seq<string>)
    returns (verticalEdges: seq<Edge>, horizontalEdges: seq<Edge>, rowsWithVertices: seq<int>, colsWithVertices: seq<int>)
    requires forall i :: 0 <= i < |colors| ==> IsColor(colors[i])
    ensures verticalEdges == VerticalEdges(Plan(colors))
    ensures horizontalEdges == HorizontalEdges(Plan(colors))
    ensures rowsWithVertices == RowsWithVertices(Plan(colors))
    ensures colsWithVertices == ColsWithVertices(Plan(colors))
  {
    ghost var plan := Plan(colors);
    verticalEdges, horizontalEdges := [], [];
    var rowsSet: seq<int> := [];
    var colsSet: seq<int> := [];
    var diggerPosition := Tile(0, 0);
    ghost var done: seq<Dig> := [];
    var k := 0;
    while k < |colors|
      invariant 0 <= k <= |colors| && done == plan[..k]
      invariant diggerPosition == Position(done)
      invariant verticalEdges == VerticalEdges(done)
      invariant horizontalEdges == HorizontalEdges(done)
      invariant rowsSet == Distinct(VertexRows(done))
      invariant colsSet == Distinct(VertexCols(done))
    {
      var d := Decode(colors[k]);
      assert plan[k] == d;
      TrenchAppend(done, d);
      var newDiggerPosition := MoveBy(diggerPosition, d.dir, d.amount);
      if IsVerticalDirection(d.dir) {
        var edge := if diggerPosition.row < newDiggerPosition.row then Edge(diggerPosition, newDiggerPosition)
                    else Edge(newDiggerPosition, diggerPosition);
        verticalEdges := verticalEdges + [edge];
      } else {
        var edge := if diggerPosition.col < newDiggerPosition.col then Edge(diggerPosition, newDiggerPosition)
                    else Edge(newDiggerPosition, diggerPosition);
        horizontalEdges := horizontalEdges + [edge];
      }
      rowsSet := AddDistinct(rowsSet, VertexRows(done), newDiggerPosition.row);
      colsSet := AddDistinct(colsSet, VertexCols(done), newDiggerPosition.col);
      diggerPosition := newDiggerPosition;
      PrefixSnoc(plan, k);
      done := done + [d];
      k := k + 1;
    }
    assert plan[..|colors|] == plan;
    rowsWithVertices := SortInts(rowsSet);
    colsWithVertices := SortInts(colsSet);
  }

  /** A vertical edge that the ray from the middle of a compressed cell towards the left meets.
      Coordinates are doubled so that the middle of the cell is a whole number. */
  predicate CrossesRay(e: Edge, doubledMidRow: int, doubledMidCol: int)
  {
    2 * e.first.col < doubledMidCol && 2 * e.first.row < doubledMidRow && 2 * e.second.row > doubledMidRow
  }

  function Crossings(verticalEdges: seq<Edge>, doubledMidRow: int, doubledMidCol: int): nat
  {
    if verticalEdges == [] then 0
    else
      var e := verticalEdges[|verticalEdges| - 1];
      Crossings(verticalEdges[..|verticalEdges| - 1], doubledMidRow, doubledMidCol) +
      (if CrossesRay(e, doubledMidRow, doubledMidCol) then 1 else 0)
  }

  /** The cell between rows i-1, i and columns j-1, j lies inside the loop when the ray from its
      middle crosses an odd number of vertical edges. */
  predicate CellInside(verticalEdges: seq<Edge>, rows: seq<int>, cols: seq<int>, i: int, j: int)
    requires 1 <= i < |rows| && 1 <= j < |cols|
  {
    Crossings(verticalEdges, rows[i - 1] + rows[i], cols[j - 1] + cols[j]) % 2 == 1
  }

  function CellArea(verticalEdges: seq<Edge>, rows: seq<int>, cols: seq<int>, i: int, j: int): int
    requires 1 <= i < |rows| && 1 <= j < |cols|
  {
    if CellInside(verticalEdges, rows, cols, i, j) then (rows[i] - rows[i - 1]) * (cols[j] - cols[j - 1]) else 0
  }

  /** The inside area of the cells of band i in columns 1 to n-1. */
  function BandArea(verticalEdges: seq<Edge>, rows: seq<int>, cols: seq<int>, i: int, n: int): int
    requires 1 <= i < |rows| && (n <= |cols| || n <= 1)
  {
    if n <= 1 then 0 else BandArea(verticalEdges, rows, cols, i, n - 1) + CellArea(verticalEdges, rows, cols, i, n - 1)
  }

  /** The inside area of the bands 1 to m-1. */
  function InsideArea(verticalEdges: seq<Edge>, rows: seq<int>, cols: seq<int>, m: int): int
    requires m <= |rows| || m <= 1
  {
    if m <= 1 then 0
    else InsideArea(verticalEdges, rows, cols, m - 1) + BandArea(verticalEdges, rows, cols, m - 1, |cols|)
  }

  function VerticalLength(edges: seq<Edge>): int
  {
    if edges == [] then 0
    else var e := edges[|edges| - 1]; VerticalLength(edges[..|edges| - 1]) + (e.second.row - e.first.row)
  }

  function HorizontalLength(edges: seq<Edge>): int
  {
    if edges == [] then 0
    else var e := edges[|edges| - 1]; HorizontalLength(edges[..|edges| - 1]) + (e.second.col - e.first.col)
  }

  /** Twice the lagoon volume: twice the inside area of the compressed cells, plus the edge
      lengths (the half of the trench outside those cells), plus twice the tile that the
      corners leave over. */
  function DoubledLagoonVolume(plan: seq<Dig>): int
  {
    var rows, cols := RowsWithVertices(plan), ColsWithVertices(plan);
    var verticalEdges := VerticalEdges(plan);
    2 * InsideArea(verticalEdges, rows, cols, |rows|) + VerticalLength(verticalEdges) + HorizontalLength(HorizontalEdges(plan)) + 2
  }

  /** The nested loops over the compressed cells, adding the area of each cell found inside. */
  method CompressedInsideArea(verticalEdges: seq<Edge>, rows: seq<int>, cols: seq<int>) returns (area: int)
    ensures area == InsideArea(verticalEdges, rows, cols, |rows|)
  {
    area := 0;
    var i := 1;
    while i < |rows|
      invariant 1 <= i <= |rows| || (i == 1 && |rows| <= 1)
      invariant area == InsideArea(verticalEdges, rows, cols, i)
    {
      var band := BandInsideArea(verticalEdges, rows, cols, i);
      area := area + band;
      i := i + 1;
    }
  }

  method BandInsideArea(verticalEdges: seq<Edge>, rows: seq<int>, cols: seq<int>, i: int) returns (band: int)
    requires 1 <= i < |rows|
    ensures band == BandArea(verticalEdges, rows, cols, i, |cols|)
  {
    band := 0;
    var j := 1;
    while j < |cols|
      invariant 1 <= j <= |cols| || (j == 1 && |cols| <= 1)
      invariant band == BandArea(verticalEdges, rows, cols, i, j)
    {
      var crossings := Crossings(verticalEdges, rows[i - 1] + rows[i], cols[j - 1] + cols[j]);
      if crossings % 2 == 1 {
        band := band + (rows[i] - rows[i - 1]) * (cols[j] - cols[j - 1]);
      }
      j := j + 1;
    }
  }

  /** Each vertical edge contributes its length, that is twice its half length. */
  method VerticalLengths(edges: seq<Edge>) returns (lengths: int)
    ensures lengths == VerticalLength(edges)
  {
    lengths := 0;
    var k := 0;
    while k < |edges|
      invariant 0 <= k <= |edges|
      invariant lengths == VerticalLength(edges[..k])
    {
      assert edges[..k + 1][..k] == edges[..k];
      lengths := lengths + (edges[k].second.row - edges[k].first.row);
      k := k + 1;
    }
    assert edges[..k] == edges;
  }

  method HorizontalLengths(edges: seq<Edge>) returns (lengths: int)
    ensures lengths == HorizontalLength(edges)
  {
    lengths := 0;
    var k := 0;
    while k < |edges|
      invariant 0 <= k <= |edges|
      invariant lengths == HorizontalLength(edges[..k])
    {
      assert edges[..k + 1][..k] == edges[..k];
      lengths := lengths + (edges[k].second.col - edges[k].first.col);
      k := k + 1;
    }
    assert edges[..k] == edges;
  }

  /** Part 2. The result is twice the number the puzzle prints, which keeps the half edge
      lengths exact; for a closed plan it is even (ClosedPlanVolumeIsWhole). */
  method SolvePart2(colors: seq<string>) returns (doubledVolume: int)
    requires forall i :: 0 <= i < |colors| ==> IsColor(colors[i])
    ensures doubledVolume == DoubledLagoonVolume(Plan(colors))
  {
    var verticalEdges, horizontalEdges, rows, cols := GetTrenchData(colors);
    var area := CompressedInsideArea(verticalEdges, rows, cols);
    var verticalLengths := VerticalLengths(verticalEdges);
    var horizontalLengths := HorizontalLengths(horizontalEdges);
    doubledVolume := 2 * area + verticalLengths + horizontalLengths + 2;
  }

  lemma VerticalLengthAppend(edges: seq<Edge>, e: Edge)
    ensures VerticalLength(edges + [e]) == VerticalLength(edges) + (e.second.row - e.first.row)
  {
    assert (edges + [e])[..|edges|] == edges;
  }

  lemma HorizontalLengthAppend(edges: seq<Edge>, e: Edge)
    ensures HorizontalLength(edges + [e]) == HorizontalLength(edges) + (e.second.col - e.first.col)
  {
    assert (edges + [e])[..|edges|] == edges;
  }

  /** The vertical lengths have the parity of the final row. */
  lemma {:induction false} VerticalParity(plan: seq<Dig>)
    ensures Even(VerticalLength(VerticalEdges(plan)) - Position(plan).row)
  {
    if plan != [] {
      var prefix, d := plan[..|plan| - 1], plan[|plan| - 1];
      assert plan == prefix + [d];
      VerticalParity(prefix);
      TrenchAppend(prefix, d);
      var p, q := Position(prefix), Position(plan);
      var vl := VerticalLength(VerticalEdges(prefix));
      if IsVerticalDirection(d.dir) {
        VerticalLengthAppend(VerticalEdges(prefix), VerticalEdge(p, q));
        var shift := if d.dir == Down then 0 else d.amount;
        EvenShift(vl - p.row, shift);
        assert VerticalLength(VerticalEdges(plan)) - q.row == (vl - p.row) + 2 * shift;
      } else {
        assert VerticalEdges(plan) == VerticalEdges(prefix) && q.row == p.row;
      }
    }
  }

  /** The horizontal lengths have the parity of the final column. */
  lemma {:induction false} HorizontalParity(plan: seq<Dig>)
    ensures Even(HorizontalLength(HorizontalEdges(plan)) - Position(plan).col)
  {
    if plan != [] {
      var prefix, d := plan[..|plan| - 1], plan[|plan| - 1];
      assert plan == prefix + [d];
      HorizontalParity(prefix);
      TrenchAppend(prefix, d);
      var p, q := Position(prefix), Position(plan);
      var hl := HorizontalLength(HorizontalEdges(prefix));
      if IsVerticalDirection(d.dir) {
        assert HorizontalEdges(plan) == HorizontalEdges(prefix) && q.col == p.col;
      } else {
        HorizontalLengthAppend(HorizontalEdges(prefix), HorizontalEdge(p, q));
        var shift := if d.dir == Right then 0 else d.amount;
        EvenShift(hl - p.col, shift);
        assert HorizontalLength(HorizontalEdges(plan)) - q.col == (hl - p.col) + 2 * shift;
      }
    }
  }

  predicate Even(x: int)
  {
    x % 2 == 0
  }

  lemma EvenShift(x: int, a: int)
    requires Even(x)
    ensures Even(x + 2 * a)
  {
    assert x + 2 * a == 2 * (x / 2 + a);
  }

  lemma EvenTwice(x: int, half: int)
    requires x == 2 * half
    ensures Even(x)
  {
  }

  /** A plan that returns to where it started has a whole lagoon volume. */
  lemma ClosedPlanVolumeIsWhole(plan: seq<Dig>)
    requires Position(plan) == Tile(0, 0)
    ensures Even(DoubledLagoonVolume(plan))
  {
    var vl, hl := VerticalLength(VerticalEdges(plan)), HorizontalLength(HorizontalEdges(plan));
    assert vl == 2 * (vl / 2) && hl == 2 * (hl / 2) by {
      VerticalParity(plan);
      HorizontalParity(plan);
    }
    var rows, cols := RowsWithVertices(plan), ColsWithVertices(plan);
    var half := vl / 2 + hl / 2 + InsideArea(VerticalEdges(plan), rows, cols, |rows|) + 1;
    EvenTwice(DoubledLagoonVolume(plan), half);
  }

  function Rectangle(w: nat, h: nat): seq<Dig>
  {
    [Dig(Right, w), Dig(Down, h), Dig(Left, w), Dig(Up, h)]
  }

  /** What appending one instruction adds to each of the plan's derived sequences. */
  lemma TrenchAppend(plan: seq<Dig>, d: Dig)
    ensures Position(plan + [d]) == MoveBy(Position(plan), d.dir, d.amount)
    ensures VerticalEdges(plan + [d]) == VerticalEdges(plan) +
      (if IsVerticalDirection(d.dir) then [VerticalEdge(Position(plan), Position(plan + [d]))] else [])
    ensures HorizontalEdges(plan + [d]) == HorizontalEdges(plan) +
      (if IsVerticalDirection(d.dir) then [] else [HorizontalEdge(Position(plan), Position(plan + [d]))])
    ensures VertexRows(plan + [d]) == VertexRows(plan) + [Position(plan + [d]).row]
    ensures VertexCols(plan + [d]) == VertexCols(plan) + [Position(plan + [d]).col]
  {
    assert (plan + [d])[..|plan|] == plan;
  }

  lemma RectangleTrench(w: nat, h: nat)
    requires w > 0 && h > 0
    ensures VerticalEdges(Rectangle(w, h)) == [Edge(Tile(0, w), Tile(h, w)), Edge(Tile(0, 0), Tile(h, 0))]
    ensures HorizontalEdges(Rectangle(w, h)) == [Edge(Tile(0, 0), Tile(0, w)), Edge(Tile(h, 0), Tile(h, w))]
    ensures VertexRows(Rectangle(w, h)) == [0, h, h, 0]
    ensures VertexCols(Rectangle(w, h)) == [w, w, 0, 0]
  {
    var p0: seq<Dig> := [];
    var p1 := p0 + [Dig(Right, w)];
    var p2 := p1 + [Dig(Down, h)];
    var p3 := p2 + [Dig(Left, w)];
    var p4 := p3 + [Dig(Up, h)];
    TrenchAppend(p0, Dig(Right, w));
    assert Position(p1) == Tile(0, w);
    TrenchAppend(p1, Dig(Down, h));
    assert Position(p2) == Tile(h, w);
    TrenchAppend(p2, Dig(Left, w));
    assert Position(p3) == Tile(h, 0);
    TrenchAppend(p3, Dig(Up, h));
    assert Position(p4) == Tile(0, 0);
    assert p4 == Rectangle(w, h);
  }

  lemma DistinctPair(a: int, b: int)
    requires a != b
    ensures Distinct([a, b, b, a]) == [a, b]
  {
    assert Distinct([a]) == [a] by {
      assert [a][..0] == [];
    }
    assert Distinct([a, b]) == [a, b] by {
      assert [a, b][..1] == [a];
    }
    assert Distinct([a, b, b]) == [a, b] by {
      assert [a, b, b][..2] == [a, b];
    }
    assert [a, b, b, a][..3] == [a, b, b];
  }

  lemma DistinctRuns(a: int, b: int)
    requires a != b
    ensures Distinct([a, a, b, b]) == [a, b]
  {
    assert Distinct([a]) == [a] by {
      assert [a][..0] == [];
    }
    assert Distinct([a, a]) == [a] by {
      assert [a, a][..1] == [a];
    }
    assert Distinct([a, a, b]) == [a, b] by {
      assert [a, a, b][..2] == [a, a];
    }
    assert [a, a, b, b][..3] == [a, a, b];
  }

  lemma SortPair(a: int, b: int)
    requires a < b
    ensures SortInts([a, b]) == [a, b]
    ensures SortInts([b, a]) == [a, b]
  {
    assert [a, b][1..] == [b] && [b, a][1..] == [a];
    assert [a][1..] == [] && [b][1..] == [];
    assert SortInts([a]) == [a];
    assert InsertInt(b, [a]) == [a, b];
  }

  lemma RectangleVertices(w: nat, h: nat)
    requires w > 0 && h > 0
    ensures RowsWithVertices(Rectangle(w, h)) == [0, h]
    ensures ColsWithVertices(Rectangle(w, h)) == [0, w]
  {
    RectangleTrench(w, h);
    DistinctPair(0, h);
    DistinctRuns(w, 0);
    SortPair(0, h);
    SortPair(0, w);
  }

  lemma RectangleInside(w: nat, h: nat)
    requires w > 0 && h > 0
    ensures InsideArea([Edge(Tile(0, w), Tile(h, w)), Edge(Tile(0, 0), Tile(h, 0))], [0, h], [0, w], 2) == h * w
  {
    var ve := [Edge(Tile(0, w), Tile(h, w)), Edge(Tile(0, 0), Tile(h, 0))];
    assert ve[..1] == [ve[0]] && ve[..1][..0] == [];
    assert Crossings(ve[..1], h, w) == 0;
    assert Crossings(ve, h, w) == 1;
    assert CellInside(ve, [0, h], [0, w], 1, 1);
    assert BandArea(ve, [0, h], [0, w], 1, 2) == h * w;
    assert InsideArea(ve, [0, h], [0, w], 1) == 0;
  }

  lemma RectangleLengths(w: nat, h: nat)
    ensures VerticalLength([Edge(Tile(0, w), Tile(h, w)), Edge(Tile(0, 0), Tile(h, 0))]) == 2 * h
    ensures HorizontalLength([Edge(Tile(0, 0), Tile(0, w)), Edge(Tile(h, 0), Tile(h, w))]) == 2 * w
  {
    var ve := [Edge(Tile(0, w), Tile(h, w)), Edge(Tile(0, 0), Tile(h, 0))];
    assert ve[..1] == [ve[0]] && ve[..1][..0] == [];
    assert VerticalLength(ve[..1]) == h;
    var he := [Edge(Tile(0, 0), Tile(0, w)), Edge(Tile(h, 0), Tile(h, w))];
    assert he[..1] == [he[0]] && he[..1][..0] == [];
    assert HorizontalLength(he[..1]) == w;
  }

  lemma RectangleArithmetic(w: int, h: int)
    ensures 2 * (w + 1) * (h + 1) == 2 * (h * w) + 2 * h + 2 * w + 2
  {
  }

  /** A w by h rectangle dug right, down, left, up holds (w + 1) * (h + 1) tiles. */
  lemma RectangleVolume(w: nat, h: nat)
    requires w > 0 && h > 0
    ensures DoubledLagoonVolume(Rectangle(w, h)) == 2 * (w + 1) * (h + 1)
  {
    RectangleTrench(w, h);
    RectangleVertices(w, h);
    RectangleInside(w, h);
    RectangleLengths(w, h);
    RectangleArithmetic(w, h);
  }
}
