/** Day 17: a crucible is steered from the top-left block to the bottom-right block of a city,
    turning left or right or going straight at most three blocks in a row; the least heat lost
    is wanted. */
module Day17ClumsyCrucible {
  import opened Common

  const MaxDirectionCount: nat := 3

  /** The heat loss of each city block; the puzzle input gives at least two rows and two columns
      of equal length. */
  type HeatMap = g: seq<seq<nat>> | |g| >= 2 && |g[0]| >= 2 && forall r :: 0 <= r < |g| ==> |g[r]| == |g[0]|
    witness [[0, 0], [0, 0]]

  datatype Direction = Direction(dr: int, dc: int)

  const North := Direction(-1, 0)
  const South := Direction(1, 0)
  const West := Direction(0, -1)
  const East := Direction(0, 1)

  /** A crucible on a block, having entered it moving in `dir`, after `count` blocks in that
      direction. */
  datatype State = State(row: int, col: int, dir: Direction, count: nat)

  /** A state still to be explored and the heat lost before entering its block. */
  datatype Scenario = Scenario(state: State, heatLoss: nat)

  // ---------------------------------------------------------------------------
  // Moves
  // ---------------------------------------------------------------------------

  /** Straight on while fewer than three blocks were taken in this direction, then the two turns. */
  function GetNewDirections(d: Direction, count: nat): (dirs: seq<Direction>)
    ensures IsCompass(d) ==> |dirs| == if count < MaxDirectionCount then 3 else 2
  {
    (if count < MaxDirectionCount then [d] else []) +
    (if d.dr == 0 then [North, South] else []) +
    (if d.dc == 0 then [West, East] else [])
  }

  predicate IsCompass(d: Direction)
  {
    d == North || d == South || d == West || d == East
  }

  /** For a compass direction: straight on is offered exactly when fewer than three blocks were
      taken, both turns are always offered, and reversing never is. */
  lemma NewDirectionsMeaning(d: Direction, count: nat)
    requires IsCompass(d)
    ensures d in GetNewDirections(d, count) <==> count < MaxDirectionCount
    ensures Direction(-d.dr, -d.dc) !in GetNewDirections(d, count)
    ensures Direction(d.dc, d.dr) in GetNewDirections(d, count)
    ensures Direction(-d.dc, -d.dr) in GetNewDirections(d, count)
    ensures forall e :: e in GetNewDirections(d, count) ==> IsCompass(e)
  {
  }

  /** The block one step from (row, col) in direction d. */
  function Move(row: int, col: int, d: Direction): (next: (int, int))
    ensures IsCompass(d) ==> (next.0 == row) != (next.1 == col)
    ensures IsCompass(d) ==> -1 <= next.0 - row <= 1 && -1 <= next.1 - col <= 1
  {
    (row + d.dr, col + d.dc)
  }

  predicate IsTileOutOfBounds(row: int, col: int, rows: nat, cols: nat)
  {
    row < 0 || row >= rows || col < 0 || col >= cols
  }

  predicate InBounds(grid: HeatMap, s: State)
  {
    !IsTileOutOfBounds(s.row, s.col, |grid|, |grid[0]|)
  }

  function Weight(grid: HeatMap, s: State): nat
    requires InBounds(grid, s)
  {
    grid[s.row][s.col]
  }

  /** The state after moving one block from s in direction e. */
  function Step(s: State, e: Direction): State
  {
    var (row, col) := Move(s.row, s.col, e);
    State(row, col, e, if e == s.dir then s.count + 1 else 1)
  }

  /** The in-bounds states reached from s through the first n new directions, in order. */
  function SuccessorsUpTo(grid: HeatMap, s: State, n: nat): (next: seq<State>)
    requires n <= |GetNewDirections(s.dir, s.count)|
    ensures forall i :: 0 <= i < |next| ==> InBounds(grid, next[i])
  {
    if n == 0 then []
    else
      var e := GetNewDirections(s.dir, s.count)[n - 1];
      var t := Step(s, e);
      SuccessorsUpTo(grid, s, n - 1) + (if InBounds(grid, t) then [t] else [])
  }

  function Successors(grid: HeatMap, s: State): seq<State>
  {
    SuccessorsUpTo(grid, s, |GetNewDirections(s.dir, s.count)|)
  }

  lemma {:induction false} SuccessorsUpToShape(grid: HeatMap, s: State, n: nat, t: State)
    requires n <= |GetNewDirections(s.dir, s.count)|
    requires t in SuccessorsUpTo(grid, s, n)
    ensures exists i :: 0 <= i < n && t == Step(s, GetNewDirections(s.dir, s.count)[i])
  {
    if n > 0 {
      var e := GetNewDirections(s.dir, s.count)[n - 1];
      if t != Step(s, e) {
        SuccessorsUpToShape(grid, s, n - 1, t);
      }
    }
  }

  /** A successor moves one block in a compass direction, and counts at most three blocks in a
      row. */
  lemma SuccessorShape(grid: HeatMap, s: State, t: State)
    requires IsCompass(s.dir) && 1 <= s.count <= MaxDirectionCount
    requires t in Successors(grid, s)
    ensures IsCompass(t.dir) && 1 <= t.count <= MaxDirectionCount
    ensures (t.row, t.col) == Move(s.row, s.col, t.dir)
    ensures t.count == if t.dir == s.dir then s.count + 1 else 1
  {
    SuccessorsUpToShape(grid, s, |GetNewDirections(s.dir, s.count)|, t);
    NewDirectionsMeaning(s.dir, s.count);
  }

  // ---------------------------------------------------------------------------
  // Paths and their heat loss
  // ---------------------------------------------------------------------------

  /** The two first moves from the top-left block: south and east. */
  predicate IsStart(s: State)
  {
    s == State(1, 0, South, 1) || s == State(0, 1, East, 1)
  }

  /** A run of states from a first move, each a successor of the one before. */
  ghost predicate IsPath(grid: HeatMap, p: seq<State>)
  {
    |p| > 0 && IsStart(p[0]) &&
    (forall i :: 0 <= i < |p| ==> InBounds(grid, p[i])) &&
    (forall i :: 0 <= i < |p| - 1 ==> p[i + 1] in Successors(grid, p[i]))
  }

  /** The heat lost along a run: the blocks entered, not the starting block. */
  function Cost(grid: HeatMap, p: seq<State>): nat
    requires forall i :: 0 <= i < |p| ==> InBounds(grid, p[i])
  {
    if p == [] then 0 else Cost(grid, p[..|p| - 1]) + Weight(grid, p[|p| - 1])
  }

  ghost predicate HasPath(grid: HeatMap, s: State, v: nat)
  {
    exists p :: IsPath(grid, p) && p[|p| - 1] == s && Cost(grid, p) == v
  }

  lemma {:induction false} PathStateShape(grid: HeatMap, p: seq<State>, n: nat)
    requires IsPath(grid, p) && n < |p|
    ensures IsCompass(p[n].dir) && 1 <= p[n].count <= MaxDirectionCount
  {
    if n > 0 {
      PathStateShape(grid, p, n - 1);
      SuccessorShape(grid, p[n - 1], p[n]);
    }
  }

  lemma PathExtend(grid: HeatMap, p: seq<State>, t: State)
    requires IsPath(grid, p) && InBounds(grid, t) && t in Successors(grid, p[|p| - 1])
    ensures IsPath(grid, p + [t]) && Cost(grid, p + [t]) == Cost(grid, p) + Weight(grid, t)
  {
    assert (p + [t])[..|p|] == p;
  }

  // ---------------------------------------------------------------------------
  // The worklist sort: descending by heat loss, equal heat losses kept in order
  // ---------------------------------------------------------------------------

  predicate SortedByHeatLoss(s: seq<Scenario>)
  {
    forall i, j :: 0 <= i < j < |s| ==> s[i].heatLoss >= s[j].heatLoss
  }

  function Insert(x: Scenario, r: seq<Scenario>): (out: seq<Scenario>)
    ensures multiset(out) == multiset(r) + multiset{x}
    ensures |out| == |r| + 1 && (out[0] == x || (|r| > 0 && out[0] == r[0]))
  {
    if r == [] || r[0].heatLoss <= x.heatLoss then
      [x] + r
    else
      assert r == [r[0]] + r[1..];
      [r[0]] + Insert(x, r[1..])
  }

  /** Inserting into a sorted worklist keeps it sorted. */
  lemma {:induction false} InsertKeepsSorted(x: Scenario, r: seq<Scenario>)
    requires SortedByHeatLoss(r)
    ensures SortedByHeatLoss(Insert(x, r))
  {
    if r == [] || r[0].heatLoss <= x.heatLoss {
    } else {
      var tail := Insert(x, r[1..]);
      InsertKeepsSorted(x, r[1..]);
      var out := Insert(x, r);
      assert out == [r[0]] + tail;
      assert r[0].heatLoss >= tail[0].heatLoss;
      forall i, j | 0 <= i < j < |out| ensures out[i].heatLoss >= out[j].heatLoss {
        if i > 0 {
          assert out[i] == tail[i - 1] && out[j] == tail[j - 1];
        } else {
          assert out[j] == tail[j - 1];
          assert tail[0].heatLoss >= tail[j - 1].heatLoss;
        }
      }
    }
  }

  /** The worklist in descending order of heat loss, so that the last scenario has the least. */
  function SortByHeatLoss(s: seq<Scenario>): (r: seq<Scenario>)
    ensures SortedByHeatLoss(r)
    ensures multiset(r) == multiset(s)
  {
    if s == [] then []
    else
      assert s == [s[0]] + s[1..];
      InsertKeepsSorted(s[0], SortByHeatLoss(s[1..]));
      Insert(s[0], SortByHeatLoss(s[1..]))
  }

  /** After the sort the scenario popped next is one of least heat loss. */
  lemma SortedLastIsLeast(s: seq<Scenario>)
    requires SortedByHeatLoss(s) && |s| > 0
    ensures forall sc :: sc in s ==> s[|s| - 1].heatLoss <= sc.heatLoss
  {
  }

  // ---------------------------------------------------------------------------
  // The relaxation invariant
  // ---------------------------------------------------------------------------

  /** The scenarios pushed for the successors of a state whose least heat loss so far is v. */
  function Pushes(ts: seq<State>, v: nat): (r: seq<Scenario>)
    ensures |r| == |ts|
    ensures forall i :: 0 <= i < |ts| ==> r[i] == Scenario(ts[i], v)
  {
    seq(|ts|, i requires 0 <= i < |ts| => Scenario(ts[i], v))
  }

  /** A scenario comes from a first move, or follows a run whose heat loss it carries. */
  ghost predicate Justified(grid: HeatMap, sc: Scenario)
  {
    InBounds(grid, sc.state) &&
    ((IsStart(sc.state) && sc.heatLoss == 0) ||
     exists p :: IsPath(grid, p) && Cost(grid, p) == sc.heatLoss && sc.state in Successors(grid, p[|p| - 1]))
  }

  /** Entering t after a heat loss of `bound` is already accounted for: by the table, or by a
      scenario still waiting. */
  ghost predicate Relaxed(grid: HeatMap, table: map<State, nat>, scenarios: seq<Scenario>, t: State, bound: nat)
  {
    InBounds(grid, t) &&
    ((t in table && table[t] <= bound + Weight(grid, t)) ||
     exists h: nat :: Scenario(t, h) in scenarios && h <= bound)
  }

  /** Every entry is the heat loss of a run; every scenario is justified; every first move and
      every successor of a tabled state is accounted for. */
  ghost predicate RelaxInvariant(grid: HeatMap, table: map<State, nat>, scenarios: seq<Scenario>)
  {
    TableSound(grid, table) && WorklistSound(grid, scenarios) &&
    StartsRelaxed(grid, table, scenarios) && SuccessorsRelaxed(grid, table, scenarios)
  }

  ghost predicate TableSound(grid: HeatMap, table: map<State, nat>)
  {
    forall s :: s in table ==> InBounds(grid, s) && HasPath(grid, s, table[s])
  }

  ghost predicate WorklistSound(grid: HeatMap, scenarios: seq<Scenario>)
  {
    forall sc :: sc in scenarios ==> Justified(grid, sc)
  }

  ghost predicate StartsRelaxed(grid: HeatMap, table: map<State, nat>, scenarios: seq<Scenario>)
  {
    forall s :: IsStart(s) ==> Relaxed(grid, table, scenarios, s, 0)
  }

  ghost predicate SuccessorsRelaxed(grid: HeatMap, table: map<State, nat>, scenarios: seq<Scenario>)
  {
    forall s, t :: s in table && t in Successors(grid, s) ==> Relaxed(grid, table, scenarios, t, table[s])
  }

  /** A scenario no longer waiting has been explored: the table holds at most its heat loss. */
  ghost predicate Retired(grid: HeatMap, table: map<State, nat>, scenarios: seq<Scenario>, sc: Scenario)
  {
    sc in scenarios ||
    (InBounds(grid, sc.state) && sc.state in table && table[sc.state] <= sc.heatLoss + Weight(grid, sc.state))
  }

  ghost predicate AllRetired(grid: HeatMap, scenarios: seq<Scenario>, table2: map<State, nat>, scenarios2: seq<Scenario>)
  {
    forall sc :: sc in scenarios ==> Retired(grid, table2, scenarios2, sc)
  }

  predicate NoLarger(table: map<State, nat>, table2: map<State, nat>)
  {
    forall s :: s in table ==> s in table2 && table2[s] <= table[s]
  }

  lemma RelaxedKept(grid: HeatMap, table: map<State, nat>, scenarios: seq<Scenario>,
                    table2: map<State, nat>, scenarios2: seq<Scenario>, t: State, bound: nat)
    requires Relaxed(grid, table, scenarios, t, bound)
    requires NoLarger(table, table2) && AllRetired(grid, scenarios, table2, scenarios2)
    ensures Relaxed(grid, table2, scenarios2, t, bound)
  {
    if !(t in table && table[t] <= bound + Weight(grid, t)) {
      var h: nat :| Scenario(t, h) in scenarios && h <= bound;
      assert Retired(grid, table2, scenarios2, Scenario(t, h));
    }
  }

  lemma RelaxStart(grid: HeatMap)
    ensures RelaxInvariant(grid, map[], [Scenario(State(1, 0, South, 1), 0), Scenario(State(0, 1, East, 1), 0)])
  {
    var scenarios := [Scenario(State(1, 0, South, 1), 0), Scenario(State(0, 1, East, 1), 0)];
    forall s | IsStart(s)
      ensures Relaxed(grid, map[], scenarios, s, 0)
    {
      assert Scenario(s, 0) in scenarios;
    }
  }

  /** With no entry raised and every scenario either still waiting or explored, the first moves
      stay accounted for. */
  lemma StartsKept(grid: HeatMap, table: map<State, nat>, scenarios: seq<Scenario>,
                   table2: map<State, nat>, scenarios2: seq<Scenario>)
    requires StartsRelaxed(grid, table, scenarios)
    requires NoLarger(table, table2) && AllRetired(grid, scenarios, table2, scenarios2)
    ensures StartsRelaxed(grid, table2, scenarios2)
  {
    forall s | IsStart(s)
      ensures Relaxed(grid, table2, scenarios2, s, 0)
    {
      RelaxedKept(grid, table, scenarios, table2, scenarios2, s, 0);
    }
  }

  /** The same, for the successors of the states already in the table. */
  lemma SuccessorsKept(grid: HeatMap, table: map<State, nat>, scenarios: seq<Scenario>,
                       table2: map<State, nat>, scenarios2: seq<Scenario>)
    requires SuccessorsRelaxed(grid, table, scenarios)
    requires NoLarger(table, table2) && AllRetired(grid, scenarios, table2, scenarios2)
    ensures forall s, t :: s in table && t in Successors(grid, s) ==> Relaxed(grid, table2, scenarios2, t, table[s])
  {
    forall s, t | s in table && t in Successors(grid, s)
      ensures Relaxed(grid, table2, scenarios2, t, table[s])
    {
      RelaxedKept(grid, table, scenarios, table2, scenarios2, t, table[s]);
    }
  }

  /** Popping a scenario that does not improve the table keeps the invariant. */
  lemma RelaxSkip(grid: HeatMap, table: map<State, nat>, rest: seq<Scenario>, sc: Scenario)
    requires RelaxInvariant(grid, table, rest + [sc])
    requires sc.state in table && InBounds(grid, sc.state)
    requires sc.heatLoss + Weight(grid, sc.state) >= table[sc.state]
    ensures RelaxInvariant(grid, table, rest)
  {
    var all := rest + [sc];
    assert AllRetired(grid, all, table, rest);
    StartsKept(grid, table, all, table, rest);
    SuccessorsKept(grid, table, all, table, rest);
  }

  /** A justified scenario extends a run to its own state. */
  lemma RunTo(grid: HeatMap, sc: Scenario) returns (q: seq<State>)
    requires Justified(grid, sc)
    ensures IsPath(grid, q) && q[|q| - 1] == sc.state && Cost(grid, q) == sc.heatLoss + Weight(grid, sc.state)
  {
    if IsStart(sc.state) && sc.heatLoss == 0 {
      q := [sc.state];
      assert q[..0] == [];
    } else {
      var p :| IsPath(grid, p) && Cost(grid, p) == sc.heatLoss && sc.state in Successors(grid, p[|p| - 1]);
      PathExtend(grid, p, sc.state);
      q := p + [sc.state];
    }
  }

  /** The scenarios pushed after a run to s are justified by that run. */
  lemma PushesJustified(grid: HeatMap, q: seq<State>, rest: seq<Scenario>)
    requires IsPath(grid, q)
    requires WorklistSound(grid, rest)
    ensures WorklistSound(grid, rest + Pushes(Successors(grid, q[|q| - 1]), Cost(grid, q)))
  {
    var next := Successors(grid, q[|q| - 1]);
    var pushed := Pushes(next, Cost(grid, q));
    forall x | x in rest + pushed
      ensures Justified(grid, x)
    {
      if x !in rest {
        var i :| 0 <= i < |next| && pushed[i] == x;
        assert x.state in next;
      }
    }
  }

  lemma ImproveTableSound(grid: HeatMap, table: map<State, nat>, s: State, v: nat)
    requires TableSound(grid, table) && InBounds(grid, s) && HasPath(grid, s, v)
    ensures TableSound(grid, table[s := v])
  {
  }

  /** Popping a scenario that improves the table, recording it and pushing its successors keeps
      the invariant. */
  lemma RelaxImprove(grid: HeatMap, table: map<State, nat>, rest: seq<Scenario>, sc: Scenario, v: nat)
    requires RelaxInvariant(grid, table, rest + [sc])
    requires InBounds(grid, sc.state) && v == sc.heatLoss + Weight(grid, sc.state)
    requires sc.state in table ==> v < table[sc.state]
    ensures RelaxInvariant(grid, table[sc.state := v], rest + Pushes(Successors(grid, sc.state), v))
  {
    var all := rest + [sc];
    var table2 := table[sc.state := v];
    var scenarios2 := rest + Pushes(Successors(grid, sc.state), v);
    var q := RunTo(grid, sc);
    ImproveTableSound(grid, table, sc.state, v);
    PushesJustified(grid, q, rest);
    assert NoLarger(table, table2);
    assert AllRetired(grid, all, table2, scenarios2);
    StartsKept(grid, table, all, table2, scenarios2);
    ImproveSuccessorsRelaxed(grid, table, rest, sc, v);
  }

  lemma ImproveSuccessorsRelaxed(grid: HeatMap, table: map<State, nat>, rest: seq<Scenario>, sc: Scenario, v: nat)
    requires SuccessorsRelaxed(grid, table, rest + [sc])
    requires InBounds(grid, sc.state) && v == sc.heatLoss + Weight(grid, sc.state)
    requires sc.state in table ==> v < table[sc.state]
    ensures SuccessorsRelaxed(grid, table[sc.state := v], rest + Pushes(Successors(grid, sc.state), v))
  {
    var all := rest + [sc];
    var next := Successors(grid, sc.state);
    var table2 := table[sc.state := v];
    var scenarios2 := rest + Pushes(next, v);
    assert NoLarger(table, table2);
    assert AllRetired(grid, all, table2, scenarios2);
    forall s, t | s in table2 && t in Successors(grid, s)
      ensures Relaxed(grid, table2, scenarios2, t, table2[s])
    {
      if s == sc.state {
        var i :| 0 <= i < |next| && next[i] == t;
        assert scenarios2[|rest| + i] == Scenario(t, v);
      } else {
        RelaxedKept(grid, table, all, table2, scenarios2, t, table[s]);
      }
    }
  }

  /** Reordering the worklist keeps the invariant. */
  lemma RelaxReorder(grid: HeatMap, table: map<State, nat>, scenarios: seq<Scenario>, scenarios2: seq<Scenario>)
    requires RelaxInvariant(grid, table, scenarios)
    requires multiset(scenarios2) == multiset(scenarios)
    ensures RelaxInvariant(grid, table, scenarios2)
  {
    assert forall x :: x in scenarios2 <==> x in multiset(scenarios);
    assert AllRetired(grid, scenarios, table, scenarios2);
    StartsKept(grid, table, scenarios, table, scenarios2);
    SuccessorsKept(grid, table, scenarios, table, scenarios2);
  }

  /** Once the worklist is empty, the table bounds the heat loss of every run by its last state. */
  lemma {:induction false} TableBoundsRuns(grid: HeatMap, table: map<State, nat>, p: seq<State>)
    requires RelaxInvariant(grid, table, [])
    requires IsPath(grid, p)
    ensures p[|p| - 1] in table && table[p[|p| - 1]] <= Cost(grid, p)
  {
    var last := p[|p| - 1];
    var q := p[..|p| - 1];
    if |p| == 1 {
      assert Relaxed(grid, table, [], last, 0);
    } else {
      assert IsPath(grid, q) by {
        assert forall i :: 0 <= i < |q| ==> q[i] == p[i];
      }
      TableBoundsRuns(grid, table, q);
      assert last in Successors(grid, q[|q| - 1]) by {
        assert p[|p| - 2 + 1] in Successors(grid, p[|p| - 2]);
      }
      assert Relaxed(grid, table, [], last, table[q[|q| - 1]]);
    }
  }

  // ---------------------------------------------------------------------------
  // The search
  // ---------------------------------------------------------------------------

  lemma SuccessorsUpToNext(grid: HeatMap, s: State, k: nat)
    requires k < |GetNewDirections(s.dir, s.count)|
    ensures var t := Step(s, GetNewDirections(s.dir, s.count)[k]);
      SuccessorsUpTo(grid, s, k + 1) == SuccessorsUpTo(grid, s, k) + (if InBounds(grid, t) then [t] else [])
  {
  }

  lemma PushesAppend(ts: seq<State>, extra: seq<State>, v: nat)
    ensures Pushes(ts + extra, v) == Pushes(ts, v) + Pushes(extra, v)
  {
  }

  /** Push, after `rest`, a scenario for each new direction whose next block is in bounds. */
  method PushSuccessors(grid: HeatMap, st: State, rest: seq<Scenario>, newHeatLoss: nat)
    returns (pushed: seq<Scenario>)
    ensures pushed == rest + Pushes(Successors(grid, st), newHeatLoss)
  {
    var rows, cols := |grid|, |grid[0]|;
    var newDirections := GetNewDirections(st.dir, st.count);
    pushed := rest;
    var k := 0;
    while k < |newDirections|
      invariant 0 <= k <= |newDirections|
      invariant pushed == rest + Pushes(SuccessorsUpTo(grid, st, k), newHeatLoss)
    {
      var e := newDirections[k];
      var (row, col) := Move(st.row, st.col, e);
      SuccessorsUpToNext(grid, st, k);
      PushesAppend(SuccessorsUpTo(grid, st, k), if InBounds(grid, Step(st, e)) then [Step(st, e)] else [], newHeatLoss);
      if !IsTileOutOfBounds(row, col, rows, cols) {
        pushed := pushed + [Scenario(State(row, col, e, if e == st.dir then st.count + 1 else 1), newHeatLoss)];
      }
      k := k + 1;
    }
  }

  /** One turn of the search loop: pop the last scenario; when it lowers the least heat loss
      recorded for its state, record it, push a scenario for each in-bounds next block and sort
      the worklist again. The invariant is kept, entries are only ever lowered, only the popped
      state can gain one, and a sorted worklist stays sorted. */
  method ExploreNext(grid: HeatMap, table: map<State, nat>, scenarios: seq<Scenario>)
    returns (table2: map<State, nat>, scenarios2: seq<Scenario>)
    requires |scenarios| > 0
    requires RelaxInvariant(grid, table, scenarios)
    ensures RelaxInvariant(grid, table2, scenarios2)
    ensures NoLarger(table, table2)
    ensures table2.Keys <= table.Keys + {scenarios[|scenarios| - 1].state}
    ensures SortedByHeatLoss(scenarios) ==> SortedByHeatLoss(scenarios2)
  {
    var sc := scenarios[|scenarios| - 1];
    var rest := scenarios[..|scenarios| - 1];
    assert scenarios == rest + [sc];
    assert Justified(grid, sc);
    var st := sc.state;
    var newHeatLoss := sc.heatLoss + grid[st.row][st.col];
    if st in table && newHeatLoss >= table[st] {
      RelaxSkip(grid, table, rest, sc);
      return table, rest;
    }
    table2 := table[st := newHeatLoss];
    var pushed := PushSuccessors(grid, st, rest, newHeatLoss);
    RelaxImprove(grid, table, rest, sc, newHeatLoss);
    scenarios2 := SortByHeatLoss(pushed);
    RelaxReorder(grid, table2, pushed, scenarios2);
  }

  /** The four directions and the counts one to three with which the bottom-right block can be
      entered. */
  function FactoryState(grid: HeatMap, d: Direction, c: nat): State
  {
    State(|grid| - 1, |grid[0]| - 1, d, c)
  }

  predicate AtFactory(grid: HeatMap, s: State)
  {
    s.row == |grid| - 1 && s.col == |grid[0]| - 1 && IsCompass(s.dir) && 1 <= s.count <= MaxDirectionCount
  }

  /** Heat loss as a number that may be positive infinity. */
  datatype HeatLoss = Infinite | Finite(value: nat)

  function MinHeatLoss(a: HeatLoss, b: HeatLoss): (m: HeatLoss)
    ensures m == a || m == b
    ensures m.Finite? <==> a.Finite? || b.Finite?
    ensures m.Finite? ==> (a.Finite? ==> m.value <= a.value) && (b.Finite? ==> m.value <= b.value)
  {
    match (a, b)
    case (Infinite, _) => b
    case (_, Infinite) => a
    case (Finite(x), Finite(y)) => Finite(Min(x, y))
  }

  function Entry(table: map<State, nat>, s: State): HeatLoss
  {
    if s in table then Finite(table[s]) else Infinite
  }

  /** m is the least of the entries of the states in `seen`. */
  predicate LeastEntry(table: map<State, nat>, seen: set<State>, m: HeatLoss)
  {
    (m.Infinite? ==> forall s :: s in seen ==> s !in table) &&
    (m.Finite? ==> (exists s :: s in seen && s in table && table[s] == m.value) &&
                   (forall s :: s in seen && s in table ==> m.value <= table[s]))
  }

  lemma LeastEntryAdd(table: map<State, nat>, seen: set<State>, m: HeatLoss, s: State)
    requires LeastEntry(table, seen, m)
    ensures LeastEntry(table, seen + {s}, MinHeatLoss(m, Entry(table, s)))
  {
    var m2 := MinHeatLoss(m, Entry(table, s));
    if m2.Finite? && m2 == Entry(table, s) {
      assert s in seen + {s} && s in table && table[s] == m2.value;
    }
  }

  /** The least heat loss recorded for the bottom-right block, over the four directions and the
      counts one to three. */
  method FactoryHeatLoss(grid: HeatMap, table: map<State, nat>) returns (m: HeatLoss)
    ensures m.Infinite? ==> forall s :: AtFactory(grid, s) ==> s !in table
    ensures m.Finite? ==> (exists s :: AtFactory(grid, s) && s in table && table[s] == m.value) &&
                          (forall s :: AtFactory(grid, s) && s in table ==> m.value <= table[s])
  {
    var rows, cols := |grid|, |grid[0]|;
    var directions := [North, South, West, East];
    m := Infinite;
    ghost var seen: set<State> := {};
    var d := 0;
    while d < |directions|
      invariant 0 <= d <= |directions|
      invariant LeastEntry(table, seen, m)
      invariant forall s :: s in seen ==> AtFactory(grid, s)
      invariant forall j, c :: 0 <= j < d && 1 <= c <= MaxDirectionCount ==>
        FactoryState(grid, directions[j], c) in seen
    {
      var i := 1;
      while i <= MaxDirectionCount
        invariant 1 <= i <= MaxDirectionCount + 1
        invariant LeastEntry(table, seen, m)
        invariant forall s :: s in seen ==> AtFactory(grid, s)
        invariant forall j, c :: 0 <= j < d && 1 <= c <= MaxDirectionCount ==>
          FactoryState(grid, directions[j], c) in seen
        invariant forall c :: 1 <= c < i ==> FactoryState(grid, directions[d], c) in seen
      {
        var s := FactoryState(grid, directions[d], i);
        LeastEntryAdd(table, seen, m, s);
        m := MinHeatLoss(m, Entry(table, s));
        seen := seen + {s};
        i := i + 1;
      }
      d := d + 1;
    }
    forall s | AtFactory(grid, s)
      ensures s in seen
    {
      var j := if s.dir == North then 0 else if s.dir == South then 1 else if s.dir == West then 2 else 3;
      assert s == FactoryState(grid, directions[j], s.count);
    }
  }

  /** A run that ends on the bottom-right block. */
  ghost predicate ReachesFactory(grid: HeatMap, p: seq<State>)
  {
    IsPath(grid, p) && p[|p| - 1].row == |grid| - 1 && p[|p| - 1].col == |grid[0]| - 1
  }

  /** The least heat loss over every run from the top-left to the bottom-right block; infinite
      when no run gets there. */
  ghost predicate IsLeastHeatLoss(grid: HeatMap, r: HeatLoss)
  {
    match r
    case Infinite => forall p :: ReachesFactory(grid, p) ==> false
    case Finite(v) =>
      (exists p :: ReachesFactory(grid, p) && Cost(grid, p) == v) &&
      (forall p :: ReachesFactory(grid, p) ==> v <= Cost(grid, p))
  }

  lemma LeastFromTable(grid: HeatMap, table: map<State, nat>, m: HeatLoss)
    requires RelaxInvariant(grid, table, [])
    requires m.Infinite? ==> forall s :: AtFactory(grid, s) ==> s !in table
    requires m.Finite? ==> (exists s :: AtFactory(grid, s) && s in table && table[s] == m.value) &&
                           (forall s :: AtFactory(grid, s) && s in table ==> m.value <= table[s])
    ensures IsLeastHeatLoss(grid, m)
  {
    forall p | ReachesFactory(grid, p)
      ensures AtFactory(grid, p[|p| - 1]) && p[|p| - 1] in table && table[p[|p| - 1]] <= Cost(grid, p)
    {
      PathStateShape(grid, p, |p| - 1);
      TableBoundsRuns(grid, table, p);
    }
    if m.Finite? {
      var s :| AtFactory(grid, s) && s in table && table[s] == m.value;
      assert HasPath(grid, s, table[s]);
    }
  }

  /** Part 1. The search runs until the worklist is empty, for at most `fuel` turns; the answer is
      the least heat loss with which the bottom-right block can be entered. */
  method Solve(grid: HeatMap, fuel: nat) returns (result: Option<HeatLoss>)
    ensures result.Some? ==> IsLeastHeatLoss(grid, result.value)
  {
    var table: map<State, nat> := map[];
    var scenarios := [Scenario(State(1, 0, South, 1), 0), Scenario(State(0, 1, East, 1), 0)];
    RelaxStart(grid);
    var turns := 0;
    while |scenarios| > 0
      invariant turns <= fuel
      invariant RelaxInvariant(grid, table, scenarios)
      invariant SortedByHeatLoss(scenarios)
      decreases fuel - turns
    {
      if turns == fuel {
        return None;
      }
      table, scenarios := ExploreNext(grid, table, scenarios);
      turns := turns + 1;
    }
    var m := FactoryHeatLoss(grid, table);
    LeastFromTable(grid, table, m);
    return Some(m);
  }
}
