/** Day 10: the pipe maze; the loop through the start tile, its farthest tile and the tiles it encloses. */
module Day10PipeMaze {
  import opened Common

  /** The maze: one row of tile symbols per line (rows may be ragged; the scans use the first row's width). */
  type Grid = seq<seq<char>>

  /** A position `[r, c]`; positions next to the grid have negative or too-large coordinates. */
  datatype Tile = Tile(r: int, c: int)

  /** `maze[r]?.[c]`: the symbol at a position, absent outside the grid. */
  function SymbolAt(maze: Grid, t: Tile): Option<char>
  {
    if 0 <= t.r < |maze| && 0 <= t.c < |maze[t.r]| then Some(maze[t.r][t.c]) else None
  }

  predicate IsStart(maze: Grid, t: Tile)
  {
    SymbolAt(maze, t) == Some('S')
  }

  // TILES_CONNECTING_NORTH, _SOUTH, _WEST and _EAST; `includes(undefined)` is false.
  predicate ConnectsNorth(s: Option<char>) { s == Some('|') || s == Some('L') || s == Some('J') }
  predicate ConnectsSouth(s: Option<char>) { s == Some('|') || s == Some('7') || s == Some('F') }
  predicate ConnectsWest(s: Option<char>) { s == Some('-') || s == Some('J') || s == Some('7') }
  predicate ConnectsEast(s: Option<char>) { s == Some('-') || s == Some('L') || s == Some('F') }

  /** The six pipe symbols. */
  predicate IsPipe(s: Option<char>)
  {
    s == Some('|') || s == Some('-') || s == Some('L') || s == Some('J') || s == Some('7') || s == Some('F')
  }

  function North(t: Tile): Tile { Tile(t.r - 1, t.c) }
  function South(t: Tile): Tile { Tile(t.r + 1, t.c) }
  function West(t: Tile): Tile { Tile(t.r, t.c - 1) }
  function East(t: Tile): Tile { Tile(t.r, t.c + 1) }

  /** getTilesConnectedToTile: one neighbour per direction the symbol connects (north, south, west,
      east in that order); every pipe symbol yields exactly two, any other symbol none. */
  function ConnectedTiles(maze: Grid, t: Tile): seq<Tile>
  {
    var s := SymbolAt(maze, t);
    (if ConnectsNorth(s) then [North(t)] else [])
    + (if ConnectsSouth(s) then [South(t)] else [])
    + (if ConnectsWest(s) then [West(t)] else [])
    + (if ConnectsEast(s) then [East(t)] else [])
  }

  /** Each neighbour is listed exactly when the symbol connects in its direction. */
  lemma ConnectedTilesShape(maze: Grid, t: Tile)
    ensures North(t) in ConnectedTiles(maze, t) <==> ConnectsNorth(SymbolAt(maze, t))
    ensures South(t) in ConnectedTiles(maze, t) <==> ConnectsSouth(SymbolAt(maze, t))
    ensures West(t) in ConnectedTiles(maze, t) <==> ConnectsWest(SymbolAt(maze, t))
    ensures East(t) in ConnectedTiles(maze, t) <==> ConnectsEast(SymbolAt(maze, t))
  {
  }

  /** Only the four neighbours are ever listed; a pipe symbol lists two of them, any other symbol none. */
  lemma ConnectedTilesCount(maze: Grid, t: Tile)
    ensures forall u :: u in ConnectedTiles(maze, t) ==> u in {North(t), South(t), West(t), East(t)}
    ensures |ConnectedTiles(maze, t)| == if IsPipe(SymbolAt(maze, t)) then 2 else 0
  {
  }

  // ---------------------------------------------------------------------------
  // getStartTile
  // ---------------------------------------------------------------------------

  /** Positions the row-major scan from (i, j) visits: rows i onwards, columns below the first row's width. */
  predicate InScan(maze: Grid, i: int, j: int, t: Tile)
    requires maze != []
  {
    i <= t.r < |maze| && 0 <= t.c < |maze[0]| && (t.r > i || t.c >= j)
  }

  /** Row-major order of positions. */
  predicate Before(a: Tile, b: Tile)
  {
    a.r < b.r || (a.r == b.r && a.c < b.c)
  }

  /** The first `S` met scanning row by row from (i, j). */
  function FirstStartFrom(maze: Grid, i: nat, j: nat): Option<Tile>
    requires maze != []
    decreases |maze| - i, |maze[0]| - j
  {
    if i >= |maze| then None
    else if j >= |maze[0]| then FirstStartFrom(maze, i + 1, 0)
    else if IsStart(maze, Tile(i, j)) then Some(Tile(i, j))
    else FirstStartFrom(maze, i, j + 1)
  }

  /** The scan finds an `S` that every earlier scanned position lacks, or reports none when there is none. */
  lemma {:induction false} FirstStartFromIsFirst(maze: Grid, i: nat, j: nat)
    requires maze != []
    ensures FirstStartFrom(maze, i, j).Some? ==>
      InScan(maze, i, j, FirstStartFrom(maze, i, j).value) && IsStart(maze, FirstStartFrom(maze, i, j).value)
      && forall t :: InScan(maze, i, j, t) && Before(t, FirstStartFrom(maze, i, j).value) ==> !IsStart(maze, t)
    ensures FirstStartFrom(maze, i, j).None? ==> forall t :: InScan(maze, i, j, t) ==> !IsStart(maze, t)
    decreases |maze| - i, |maze[0]| - j
  {
    if i >= |maze| {
    } else if j >= |maze[0]| {
      FirstStartFromIsFirst(maze, i + 1, 0);
    } else if !IsStart(maze, Tile(i, j)) {
      FirstStartFromIsFirst(maze, i, j + 1);
    }
  }

  /** getStartTile (day10/puzzle1.js and day10/puzzle2.js): nested row-major scan with early return;
      `undefined` when the maze holds no `S`. */
  method GetStartTile(maze: Grid) returns (startTile: Option<Tile>)
    requires maze != []
    ensures startTile == FirstStartFrom(maze, 0, 0)
  {
    var rows := |maze|;
    var cols := |maze[0]|;
    for i := 0 to rows
      invariant FirstStartFrom(maze, 0, 0) == FirstStartFrom(maze, i, 0)
    {
      for j := 0 to cols
        invariant FirstStartFrom(maze, 0, 0) == FirstStartFrom(maze, i, j)
      {
        if SymbolAt(maze, Tile(i, j)) == Some('S') {
          return Some(Tile(i, j));
        }
      }
    }
    return None;
  }

  // ---------------------------------------------------------------------------
  // getTileConnectedToStartTile and getStartTileType
  // ---------------------------------------------------------------------------

  /** Which neighbours of `s` point back at it (the `isConnecting*` flags). */
  predicate BackNorth(maze: Grid, s: Tile) { ConnectsSouth(SymbolAt(maze, North(s))) }
  predicate BackSouth(maze: Grid, s: Tile) { ConnectsNorth(SymbolAt(maze, South(s))) }
  predicate BackWest(maze: Grid, s: Tile) { ConnectsEast(SymbolAt(maze, West(s))) }
  predicate BackEast(maze: Grid, s: Tile) { ConnectsWest(SymbolAt(maze, East(s))) }

  function BackCount(maze: Grid, s: Tile): nat
  {
    (if BackNorth(maze, s) then 1 else 0) + (if BackSouth(maze, s) then 1 else 0)
    + (if BackWest(maze, s) then 1 else 0) + (if BackEast(maze, s) then 1 else 0)
  }

  /** getTileConnectedToStartTile: north when the tile above points back, else south when the tile
      below does, else west without any check. */
  function StartNeighbour(maze: Grid, s: Tile): (t: Tile)
    ensures t in {North(s), South(s), West(s)}
    ensures t == North(s) <==> BackNorth(maze, s)
    ensures t == South(s) <==> !BackNorth(maze, s) && BackSouth(maze, s)
  {
    if BackNorth(maze, s) then North(s)
    else if BackSouth(maze, s) then South(s)
    else West(s)
  }

  /** getStartTileType: the first pipe in the order | - L J F 7 whose two directions both point back;
      absent (the source throws) when no two neighbours point back. */
  function StartTileType(maze: Grid, s: Tile): (p: Option<char>)
    ensures p.Some? ==> IsPipe(p)
    ensures p.Some? ==> ConnectsNorth(p) ==> BackNorth(maze, s)
    ensures p.Some? ==> ConnectsSouth(p) ==> BackSouth(maze, s)
    ensures p.Some? ==> ConnectsWest(p) ==> BackWest(maze, s)
    ensures p.Some? ==> ConnectsEast(p) ==> BackEast(maze, s)
    ensures p.None? <==> BackCount(maze, s) <= 1
  {
    var n := BackNorth(maze, s);
    var so := BackSouth(maze, s);
    var w := BackWest(maze, s);
    var e := BackEast(maze, s);
    if n && so then Some('|')
    else if e && w then Some('-')
    else if n && e then Some('L')
    else if n && w then Some('J')
    else if so && e then Some('F')
    else if so && w then Some('7')
    else None
  }

  /** With exactly two neighbours pointing back, the inferred pipe connects to exactly those two. */
  lemma StartTileTypeExact(maze: Grid, s: Tile)
    requires BackCount(maze, s) == 2
    ensures StartTileType(maze, s).Some?
    ensures ConnectsNorth(StartTileType(maze, s)) == BackNorth(maze, s)
    ensures ConnectsSouth(StartTileType(maze, s)) == BackSouth(maze, s)
    ensures ConnectsWest(StartTileType(maze, s)) == BackWest(maze, s)
    ensures ConnectsEast(StartTileType(maze, s)) == BackEast(maze, s)
  {
  }

  /** With exactly two neighbours pointing back, the first step of the walk enters one of the two
      tiles the inferred pipe connects S to. */
  lemma StartNeighbourFollowsPipe(maze: Grid, s: Tile)
    requires 0 <= s.r < |maze| && 0 <= s.c < |maze[s.r]|
    requires BackCount(maze, s) == 2
    ensures StartTileType(maze, s).Some?
    ensures StartNeighbour(maze, s) in ConnectedTiles(Replace(maze, s, StartTileType(maze, s).value), s)
  {
    StartTileTypeExact(maze, s);
    var p := StartTileType(maze, s).value;
    ConnectedTilesShape(Replace(maze, s, p), s);
    assert SymbolAt(Replace(maze, s, p), s) == Some(p);
  }

  /** `maze[r][c] = startTileType`. */
  function Replace(maze: Grid, s: Tile, p: char): (grid: Grid)
    requires 0 <= s.r < |maze| && 0 <= s.c < |maze[s.r]|
    ensures |grid| == |maze| && (forall i :: 0 <= i < |maze| ==> |grid[i]| == |maze[i]|)
    ensures forall t :: SymbolAt(grid, t) == if t == s then Some(p) else SymbolAt(maze, t)
  {
    maze[s.r := maze[s.r][s.c := p]]
  }

  // ---------------------------------------------------------------------------
  // The walk along the loop
  // ---------------------------------------------------------------------------

  /** The walk's state: the tile it came from and the tile it stands on. */
  datatype Position = Position(previous: Tile, current: Tile)

  /** `filter((tile) => tile is not previousTile)[0]`. */
  function FirstOther(tiles: seq<Tile>, previous: Tile): Option<Tile>
  {
    if tiles == [] then None
    else if tiles[0] != previous then Some(tiles[0])
    else FirstOther(tiles[1..], previous)
  }

  /** The filter's first element is the first tile other than `previous`; there is none exactly
      when every tile is `previous`. */
  lemma {:induction false} FirstOtherIsFirst(tiles: seq<Tile>, previous: Tile)
    ensures FirstOther(tiles, previous).Some? ==>
      exists i :: 0 <= i < |tiles| && tiles[i] == FirstOther(tiles, previous).value && tiles[i] != previous
        && forall k :: 0 <= k < i ==> tiles[k] == previous
    ensures FirstOther(tiles, previous).None? <==> forall i :: 0 <= i < |tiles| ==> tiles[i] == previous
  {
    if tiles != [] && tiles[0] == previous {
      FirstOtherIsFirst(tiles[1..], previous);
      if FirstOther(tiles, previous).Some? {
        var i :| 0 <= i < |tiles[1..]| && tiles[1..][i] == FirstOther(tiles, previous).value && tiles[1..][i] != previous
          && forall k :: 0 <= k < i ==> tiles[1..][k] == previous;
        assert tiles[i + 1] == tiles[1..][i];
        assert forall k :: 0 <= k < i + 1 ==> tiles[k] == previous by {
          forall k | 0 <= k < i + 1 ensures tiles[k] == previous {
            if k > 0 { assert tiles[k] == tiles[1..][k - 1]; }
          }
        }
      } else {
        forall i | 0 <= i < |tiles| ensures tiles[i] == previous {
          if i > 0 { assert tiles[i] == tiles[1..][i - 1]; }
        }
      }
    } else if tiles != [] {
      assert tiles[0] == FirstOther(tiles, previous).value;
    }
  }

  /** One step of the walk: to the first connection of the current tile that is not the previous
      tile. Absent where the source's next step reads `undefined` and throws (a tile off the grid or
      without pipes, or a dead end). */
  function Advance(maze: Grid, p: Position): Option<Position>
  {
    match FirstOther(ConnectedTiles(maze, p.current), p.previous)
    case None => None
    case Some(next) => Some(Position(p.current, next))
  }

  /** A step moves along a connection of the current tile and never back to the previous one. */
  lemma AdvanceFollowsPipe(maze: Grid, p: Position)
    ensures Advance(maze, p).Some? ==> Advance(maze, p).value.previous == p.current
    ensures Advance(maze, p).Some? ==>
      Advance(maze, p).value.current != p.previous && Advance(maze, p).value.current in ConnectedTiles(maze, p.current)
  {
    FirstOtherIsFirst(ConnectedTiles(maze, p.current), p.previous);
  }

  /** The maze's step as a function value; the walk below is stated for any step function, so that
      its proofs need not look inside the pipe symbols. */
  function Step(maze: Grid): Position -> Option<Position>
  {
    p => Advance(maze, p)
  }

  /** The position after k steps. */
  function After(step: Position -> Option<Position>, p: Position, k: nat): Option<Position>
    decreases k
  {
    if k == 0 then Some(p)
    else match step(p)
      case None => None
      case Some(q) => After(step, q, k - 1)
  }

  /** After k + 1 steps is one step after k steps. */
  lemma {:induction false} AfterStep(step: Position -> Option<Position>, p: Position, k: nat)
    ensures After(step, p, k + 1) == match After(step, p, k) case None => None case Some(q) => step(q)
    decreases k
  {
    if k > 0 && step(p).Some? {
      AfterStep(step, step(p).value, k - 1);
    }
  }

  /** The walk stands on an `S` after k steps. */
  predicate ArrivesAt(maze: Grid, step: Position -> Option<Position>, p: Position, k: nat)
  {
    After(step, p, k).Some? && IsStart(maze, After(step, p, k).value.current)
  }

  /** The tiles the walk stands on, from p's current tile up to and including the first `S`, taking
      at most `fuel` steps; absent when the walk fails or the fuel runs out first. */
  function Trail(maze: Grid, step: Position -> Option<Position>, p: Position, fuel: nat): (trail: Option<seq<Tile>>)
    ensures trail.Some? ==> 1 <= |trail.value| <= fuel + 1 && trail.value[0] == p.current
    decreases fuel
  {
    if IsStart(maze, p.current) then Some([p.current])
    else if fuel == 0 then None
    else match step(p)
      case None => None
      case Some(q) =>
        match Trail(maze, step, q, fuel - 1)
        case None => None
        case Some(rest) => Some([p.current] + rest)
  }

  /** The trail lists the positions of the walk step by step and stops at the first `S`. */
  lemma {:induction false} TrailFollowsWalk(maze: Grid, step: Position -> Option<Position>, p: Position, fuel: nat, trail: seq<Tile>)
    requires Trail(maze, step, p, fuel) == Some(trail)
    ensures forall j :: 0 <= j < |trail| ==> After(step, p, j).Some? && After(step, p, j).value.current == trail[j]
    ensures ArrivesAt(maze, step, p, |trail| - 1)
    ensures forall j :: 0 <= j < |trail| - 1 ==> !IsStart(maze, trail[j])
    decreases fuel
  {
    if !IsStart(maze, p.current) {
      var q := step(p).value;
      var rest := Trail(maze, step, q, fuel - 1).value;
      assert trail == [p.current] + rest;
      TrailFollowsWalk(maze, step, q, fuel - 1, rest);
      forall j | 0 <= j < |trail|
        ensures After(step, p, j).Some? && After(step, p, j).value.current == trail[j]
      {
        if j > 0 {
          assert After(step, p, j) == After(step, q, j - 1);
        }
      }
      assert After(step, p, |trail| - 1) == After(step, q, |rest| - 1);
    }
  }

  /** On the maze, consecutive trail tiles are connected by a pipe and the walk never turns back. */
  lemma TrailFollowsPipes(maze: Grid, p: Position, fuel: nat, trail: seq<Tile>)
    requires Trail(maze, Step(maze), p, fuel) == Some(trail)
    ensures forall j :: 0 <= j < |trail| - 1 ==> trail[j + 1] in ConnectedTiles(maze, trail[j])
    ensures |trail| > 1 ==> trail[1] != p.previous
    ensures forall j :: 0 <= j < |trail| - 2 ==> trail[j + 2] != trail[j]
  {
    var step := Step(maze);
    TrailFollowsWalk(maze, step, p, fuel, trail);
    forall j | 0 <= j < |trail| - 1
      ensures After(step, p, j + 1).value.previous == trail[j]
      ensures trail[j + 1] in ConnectedTiles(maze, trail[j])
      ensures trail[j + 1] != After(step, p, j).value.previous
    {
      AfterStep(step, p, j);
      AdvanceFollowsPipe(maze, After(step, p, j).value);
    }
    forall j | 0 <= j < |trail| - 2
      ensures trail[j + 2] != trail[j]
    {
      assert After(step, p, j + 1).value.previous == trail[j];
    }
  }

  /** The trail is absent exactly when the walk does not reach an `S` within `fuel` steps. */
  lemma {:induction false} TrailAbsentIffNoArrival(maze: Grid, step: Position -> Option<Position>, p: Position, fuel: nat)
    ensures Trail(maze, step, p, fuel).None? <==> forall k :: 0 <= k <= fuel ==> !ArrivesAt(maze, step, p, k)
    decreases fuel
  {
    if Trail(maze, step, p, fuel).Some? {
      TrailFollowsWalk(maze, step, p, fuel, Trail(maze, step, p, fuel).value);
    } else if IsStart(maze, p.current) {
    } else if fuel > 0 && step(p).Some? {
      var q := step(p).value;
      assert Trail(maze, step, q, fuel - 1).None?;
      TrailAbsentIffNoArrival(maze, step, q, fuel - 1);
      forall k | 0 <= k <= fuel
        ensures !ArrivesAt(maze, step, p, k)
      {
        if k > 0 {
          assert After(step, p, k) == After(step, q, k - 1);
          assert !ArrivesAt(maze, step, q, k - 1);
        }
      }
    } else {
      forall k | 0 <= k <= fuel
        ensures !ArrivesAt(maze, step, p, k)
      {
        if k > 0 {
          assert After(step, p, k) == None;
        }
      }
    }
  }

  /** More fuel never changes a trail that was found. */
  lemma {:induction false} TrailFuelIndependent(maze: Grid, step: Position -> Option<Position>, p: Position, fuel: nat, more: nat)
    requires Trail(maze, step, p, fuel).Some? && fuel <= more
    ensures Trail(maze, step, p, more) == Trail(maze, step, p, fuel)
    decreases fuel
  {
    if !IsStart(maze, p.current) {
      TrailFuelIndependent(maze, step, step(p).value, fuel - 1, more - 1);
    }
  }

  /** The elements of a trail as a set. */
  function Elements(trail: seq<Tile>): set<Tile>
  {
    set t | t in trail
  }

  lemma ElementsAppend(trail: seq<Tile>, t: Tile)
    ensures Elements(trail + [t]) == Elements(trail) + {t}
  {
    assert forall u :: u in trail + [t] <==> u in trail || u == t;
  }

  /** The tiles walked so far followed by the rest of the trail, if there is one. */
  function Prepend(walked: seq<Tile>, rest: Option<seq<Tile>>): Option<seq<Tile>>
  {
    match rest
    case None => None
    case Some(r) => Some(walked + r)
  }

  /** One step of the walk moves the current tile from the rest of the trail to the tiles walked. */
  lemma TrailStep(maze: Grid, step: Position -> Option<Position>, p: Position, q: Position, fuel: nat, walked: seq<Tile>)
    requires !IsStart(maze, p.current) && fuel > 0 && step(p) == Some(q)
    ensures Prepend(walked, Trail(maze, step, p, fuel)) == Prepend(walked + [p.current], Trail(maze, step, q, fuel - 1))
  {
    var rest := Trail(maze, step, q, fuel - 1);
    if rest.Some? {
      assert walked + ([p.current] + rest.value) == (walked + [p.current]) + rest.value;
    }
  }

  /** Where the walk stops: on an `S`, out of fuel, or at a step that cannot be taken. */
  lemma TrailEnds(maze: Grid, step: Position -> Option<Position>, p: Position, fuel: nat)
    ensures IsStart(maze, p.current) ==> Trail(maze, step, p, fuel) == Some([p.current])
    ensures !IsStart(maze, p.current) && fuel == 0 ==> Trail(maze, step, p, fuel) == None
    ensures !IsStart(maze, p.current) && step(p).None? ==> Trail(maze, step, p, fuel) == None
  {
  }

  /** The walk of both puzzles from S (`previousTile`, `currentTile` as one position): the count
      `numTilesInLoop` (S plus one per step) and the set `loopTiles`; absent when a step cannot be
      taken or `fuel` steps are not enough. */
  method WalkLoop(maze: Grid, step: Position -> Option<Position>, startTile: Tile, fuel: nat)
    returns (numTilesInLoop: nat, loopTiles: Option<set<Tile>>)
    ensures loopTiles.Some? <==> Trail(maze, step, Position(startTile, StartNeighbour(maze, startTile)), fuel).Some?
    ensures loopTiles.Some? ==>
      numTilesInLoop == |Trail(maze, step, Position(startTile, StartNeighbour(maze, startTile)), fuel).value|
      && loopTiles.value == {startTile} + Elements(Trail(maze, step, Position(startTile, StartNeighbour(maze, startTile)), fuel).value)
  {
    ghost var full := Trail(maze, step, Position(startTile, StartNeighbour(maze, startTile)), fuel);
    ghost var walked: seq<Tile> := [];
    numTilesInLoop := 1;
    var position := Position(startTile, StartNeighbour(maze, startTile));
    var tiles := {position.previous, position.current};
    var steps := 0;
    PrependNothing(full);
    assert Elements(walked) == {};
    while !IsStart(maze, position.current)
      invariant steps <= fuel && numTilesInLoop == |walked| + 1
      invariant full == Prepend(walked, Trail(maze, step, position, fuel - steps))
      invariant tiles == {startTile} + Elements(walked) + {position.current}
      decreases fuel - steps
    {
      if steps == fuel {
        TrailEnds(maze, step, position, 0);
        return numTilesInLoop, None;
      }
      var next := step(position);
      if next.None? {
        TrailEnds(maze, step, position, fuel - steps);
        return numTilesInLoop, None;
      }
      tiles := tiles + {next.value.current};
      TrailStep(maze, step, position, next.value, fuel - steps, walked);
      ElementsAppend(walked, position.current);
      walked := walked + [position.current];
      position := next.value;
      steps := steps + 1;
      numTilesInLoop := numTilesInLoop + 1;
    }
    ElementsAppend(walked, position.current);
    TrailEnds(maze, step, position, fuel - steps);
    assert full == Some(walked + [position.current]);
    return numTilesInLoop, Some(tiles);
  }

  lemma PrependNothing(trail: Option<seq<Tile>>)
    ensures trail == Prepend([], trail)
  {
    if trail.Some? {
      assert [] + trail.value == trail.value;
    }
  }

  // ---------------------------------------------------------------------------
  // day10/puzzle1.js: the farthest tile of the loop
  // ---------------------------------------------------------------------------

  /** floor(loop length / 2) for the first `S`; absent when there is none or the walk does not close. */
  function FarthestDistance(maze: Grid, fuel: nat): Option<nat>
    requires maze != []
  {
    match FirstStartFrom(maze, 0, 0)
    case None => None
    case Some(s) =>
      match Trail(maze, Step(maze), Position(s, StartNeighbour(maze, s)), fuel)
      case None => None
      case Some(trail) => Some(|trail| / 2)
  }

  /** day10/puzzle1.js solve. */
  method SolvePart1(maze: Grid, fuel: nat) returns (answer: Option<nat>)
    requires maze != []
    ensures answer == FarthestDistance(maze, fuel)
  {
    var startTile := GetStartTile(maze);
    if startTile.None? {
      return None;
    }
    var numTilesInLoop, loopTiles := WalkLoop(maze, Step(maze), startTile.value, fuel);
    if loopTiles.None? {
      return None;
    }
    return Some(numTilesInLoop / 2);
  }

  /** The loop length counted by puzzle 1 is the number of steps until the walk is back on an `S`,
      plus one; the answer is half of it, rounded down. */
  lemma FarthestDistanceIsHalfLoop(maze: Grid, fuel: nat, s: Tile, k: nat)
    requires maze != [] && FirstStartFrom(maze, 0, 0) == Some(s)
    requires k <= fuel && ArrivesAt(maze, Step(maze), Position(s, StartNeighbour(maze, s)), k)
    requires forall j :: 0 <= j < k ==> !ArrivesAt(maze, Step(maze), Position(s, StartNeighbour(maze, s)), j)
    ensures FarthestDistance(maze, fuel) == Some((k + 1) / 2)
  {
    var p0 := Position(s, StartNeighbour(maze, s));
    TrailAbsentIffNoArrival(maze, Step(maze), p0, fuel);
    var trail := Trail(maze, Step(maze), p0, fuel).value;
    TrailFollowsWalk(maze, Step(maze), p0, fuel, trail);
  }

  // ---------------------------------------------------------------------------
  // day10/puzzle2.js: the tiles enclosed by the loop
  // ---------------------------------------------------------------------------

  /** Loop tiles of row i before column j whose pipe reaches north (`| L J`): where the flag flips. */
  function Crossings(grid: Grid, loopTiles: set<Tile>, i: int, j: nat): nat
  {
    if j == 0 then 0
    else (Crossings(grid, loopTiles, i, j - 1)
      + (if Tile(i, j - 1) in loopTiles && ConnectsNorth(SymbolAt(grid, Tile(i, j - 1))) then 1 else 0))
  }

  /** Non-loop tiles of row i before column j with an odd number of crossings to their left. */
  function InsideInRow(grid: Grid, loopTiles: set<Tile>, i: int, j: nat): nat
  {
    if j == 0 then 0
    else (InsideInRow(grid, loopTiles, i, j - 1)
      + (if Tile(i, j - 1) !in loopTiles && Crossings(grid, loopTiles, i, j - 1) % 2 == 1 then 1 else 0))
  }

  /** Enclosed tiles of rows 0..i-1, over `cols` columns. */
  function InsideCount(grid: Grid, loopTiles: set<Tile>, i: nat, cols: nat): nat
  {
    if i == 0 then 0
    else InsideCount(grid, loopTiles, i - 1, cols) + InsideInRow(grid, loopTiles, i - 1, cols)
  }

  /** Non-loop tiles of row i before column j. */
  function NonLoopInRow(loopTiles: set<Tile>, i: int, j: nat): nat
  {
    if j == 0 then 0 else NonLoopInRow(loopTiles, i, j - 1) + (if Tile(i, j - 1) !in loopTiles then 1 else 0)
  }

  /** Loop tiles are never counted: a row contributes at most its non-loop tiles, and nothing at all
      before its first crossing. */
  lemma {:induction false} InsideInRowBounds(grid: Grid, loopTiles: set<Tile>, i: int, j: nat)
    ensures InsideInRow(grid, loopTiles, i, j) <= NonLoopInRow(loopTiles, i, j)
    ensures Crossings(grid, loopTiles, i, j) == 0 ==> InsideInRow(grid, loopTiles, i, j) == 0
  {
    if j > 0 {
      InsideInRowBounds(grid, loopTiles, i, j - 1);
    }
  }

  /** The double loop of solve: per row the flag starts false and flips at every loop tile reaching
      north; every non-loop tile met while it is set is counted. */
  method CountInside(grid: Grid, loopTiles: set<Tile>) returns (numTilesInsideLoop: nat)
    requires grid != []
    ensures numTilesInsideLoop == InsideCount(grid, loopTiles, |grid|, |grid[0]|)
  {
    numTilesInsideLoop := 0;
    var rows := |grid|;
    var cols := |grid[0]|;
    for i := 0 to rows
      invariant numTilesInsideLoop == InsideCount(grid, loopTiles, i, cols)
    {
      var insideLoop := false;
      for j := 0 to cols
        invariant insideLoop <==> Crossings(grid, loopTiles, i, j) % 2 == 1
        invariant numTilesInsideLoop == InsideCount(grid, loopTiles, i, cols) + InsideInRow(grid, loopTiles, i, j)
      {
        if Tile(i, j) in loopTiles {
          if ConnectsNorth(SymbolAt(grid, Tile(i, j))) {
            insideLoop := !insideLoop;
          }
        } else if insideLoop {
          numTilesInsideLoop := numTilesInsideLoop + 1;
        }
      }
    }
  }

  /** The enclosed-tile count for the first `S`: S replaced by its inferred pipe, the loop tiles
      being S and the trail; absent when there is no S, the start type cannot be inferred or the
      walk does not close within `fuel` steps. */
  function EnclosedTiles(maze: Grid, fuel: nat): Option<nat>
    requires maze != []
  {
    match FirstStartFrom(maze, 0, 0)
    case None => None
    case Some(s) =>
      FirstStartFromIsFirst(maze, 0, 0);
      match StartTileType(maze, s)
      case None => None
      case Some(startTileType) =>
        match Trail(maze, Step(maze), Position(s, StartNeighbour(maze, s)), fuel)
        case None => None
        case Some(trail) =>
          var grid := Replace(maze, s, startTileType);
          Some(InsideCount(grid, {s} + Elements(trail), |grid|, |grid[0]|))
  }

  /** day10/puzzle2.js solve. */
  method SolvePart2(maze: Grid, fuel: nat) returns (answer: Option<nat>)
    requires maze != []
    ensures answer == EnclosedTiles(maze, fuel)
  {
    var startTile := GetStartTile(maze);
    if startTile.None? {
      return None;
    }
    var s := startTile.value;
    FirstStartFromIsFirst(maze, 0, 0);
    var startTileType := StartTileType(maze, s);
    if startTileType.None? {
      return None;
    }
    var numTilesInLoop, loopTiles := WalkLoop(maze, Step(maze), s, fuel);
    if loopTiles.None? {
      return None;
    }
    var grid := Replace(maze, s, startTileType.value);
    var numTilesInsideLoop := CountInside(grid, loopTiles.value);
    return Some(numTilesInsideLoop);
  }
}
