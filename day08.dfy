/** Day 8: walking a network of left/right nodes by a repeating instruction list, and the
    least common multiple of several walks' lengths. */
module Day8Network {
  import opened Common

  type Name = string

  /** `nodes[node] = [leftNode, rightNode]`. */
  datatype Successors = Successors(left: Name, right: Name)

  type Network = map<Name, Successors>

  /** Every successor named in the network is itself a node, so `nodes[currentNode]` never
      reads a missing entry. */
  predicate Closed(nodes: Network)
  {
    forall n {:trigger nodes[n].left} :: n in nodes ==> nodes[n].left in nodes && nodes[n].right in nodes
  }

  /** `instructions[stepCount % instructions.length] === "L"`; with no instructions the index is
      NaN, the instruction `undefined`, and the right successor is taken. */
  predicate TakesLeft(instructions: seq<char>, stepCount: nat)
  {
    |instructions| > 0 && instructions[stepCount % |instructions|] == 'L'
  }

  /** One move of the while loop at step `stepCount`. */
  function Move(nodes: Network, instructions: seq<char>, node: Name, stepCount: nat): (next: Name)
    requires Closed(nodes) && node in nodes
    ensures next in nodes
    ensures next == nodes[node].left || next == nodes[node].right
    ensures TakesLeft(instructions, stepCount) ==> next == nodes[node].left
    ensures !TakesLeft(instructions, stepCount) ==> next == nodes[node].right
  {
    if TakesLeft(instructions, stepCount) then nodes[node].left else nodes[node].right
  }

  /** The node reached from `start` after k moves. */
  function NodeAfter(nodes: Network, instructions: seq<char>, start: Name, k: nat): (n: Name)
    requires Closed(nodes) && start in nodes
    ensures n in nodes
  {
    if k == 0 then start else Move(nodes, instructions, NodeAfter(nodes, instructions, start, k - 1), k - 1)
  }

  /** k is the first step count at which the walk stands on a node satisfying `goal`. */
  predicate FirstArrival(nodes: Network, instructions: seq<char>, start: Name, goal: Name -> bool, k: nat)
    requires Closed(nodes) && start in nodes
  {
    goal(NodeAfter(nodes, instructions, start, k))
    && forall j :: 0 <= j < k ==> !goal(NodeAfter(nodes, instructions, start, j))
  }

  /** The first arrival is unique. */
  lemma FirstArrivalUnique(nodes: Network, instructions: seq<char>, start: Name, goal: Name -> bool, k1: nat, k2: nat)
    requires Closed(nodes) && start in nodes
    requires FirstArrival(nodes, instructions, start, goal, k1)
    requires FirstArrival(nodes, instructions, start, goal, k2)
    ensures k1 == k2
  {
  }

  /** The while loop shared by day8/puzzle1.js solve and getStepsToReachEndNode, run for at
      most `fuel` moves: the first arrival, or None when it lies beyond `fuel`. */
  method StepsToReach(nodes: Network, instructions: seq<char>, start: Name, goal: Name -> bool, fuel: nat)
    returns (stepCount: Option<nat>)
    requires Closed(nodes) && start in nodes
    ensures stepCount.Some? ==> FirstArrival(nodes, instructions, start, goal, stepCount.value)
    ensures stepCount.None? ==> forall j :: 0 <= j <= fuel ==> !goal(NodeAfter(nodes, instructions, start, j))
  {
    var currentNode := start;
    var steps: nat := 0;
    while !goal(currentNode) && steps < fuel
      invariant steps <= fuel
      invariant currentNode == NodeAfter(nodes, instructions, start, steps)
      invariant forall j :: 0 <= j < steps ==> !goal(NodeAfter(nodes, instructions, start, j))
      decreases fuel - steps
    {
      var instructionIndex := if |instructions| > 0 then steps % |instructions| else 0;
      if |instructions| > 0 && instructions[instructionIndex] == 'L' {
        currentNode := nodes[currentNode].left;
      } else {
        currentNode := nodes[currentNode].right;
      }
      steps := steps + 1;
    }
    if goal(currentNode) {
      stepCount := Some(steps);
    } else {
      stepCount := None;
    }
  }

  /** `currentNode !== "ZZZ"` ends the walk of puzzle 1. */
  predicate IsFinal(n: Name)
  {
    n == "ZZZ"
  }

  /** day8/puzzle1.js solve: steps from AAA to ZZZ, within `fuel` moves. */
  method SolvePart1(nodes: Network, instructions: seq<char>, fuel: nat) returns (stepCount: Option<nat>)
    requires Closed(nodes) && "AAA" in nodes
    ensures stepCount.Some? ==> FirstArrival(nodes, instructions, "AAA", IsFinal, stepCount.value)
    ensures stepCount.None? ==> forall j :: 0 <= j <= fuel ==> NodeAfter(nodes, instructions, "AAA", j) != "ZZZ"
  {
    stepCount := StepsToReach(nodes, instructions, "AAA", IsFinal, fuel);
  }

  // ---------------------------------------------------------------------------
  // day8/puzzle2.js: every node ending in A walks to a node ending in Z
  // ---------------------------------------------------------------------------

  /** `n.endsWith(c)` for a one-character suffix. */
  predicate EndsWith(n: Name, c: char)
  {
    |n| > 0 && n[|n| - 1] == c
  }

  predicate EndsWithZ(n: Name)
  {
    EndsWith(n, 'Z')
  }

  /** `Object.keys(nodes).filter((n) => n.endsWith("A"))`, keeping the key order. */
  function StartNodes(keys: seq<Name>): (starts: seq<Name>)
    ensures forall n :: n in starts <==> n in keys && EndsWith(n, 'A')
  {
    if keys == [] then []
    else StartNodes(keys[..|keys| - 1]) + (if EndsWith(keys[|keys| - 1], 'A') then [keys[|keys| - 1]] else [])
  }

  /** getStepsToReachEndNode is 0 exactly when the start already ends in Z. */
  lemma ZeroStepsIffEndNode(nodes: Network, instructions: seq<char>, start: Name, k: nat)
    requires Closed(nodes) && start in nodes
    requires FirstArrival(nodes, instructions, start, EndsWithZ, k)
    ensures k == 0 <==> EndsWithZ(start)
  {
    assert NodeAfter(nodes, instructions, start, 0) == start;
  }

  // gcd and lcm (day8/puzzle2.js gcd, lcm)

  /** d divides n. */
  ghost predicate Divides(d: int, n: int)
  {
    exists k :: n == d * k
  }

  /** `gcd(a, 0) = a`, `gcd(a, b) = gcd(b, a % b)`; on non-negative numbers `%` is Euclid's. */
  function Gcd(a: nat, b: nat): (g: nat)
    ensures a > 0 || b > 0 ==> g > 0
    decreases b
  {
    if b == 0 then a else Gcd(b, a % b)
  }

  lemma DividesTimes(d: int, n: int, m: int)
    requires Divides(d, n)
    ensures Divides(d, n * m)
  {
    var k :| n == d * k;
    assert n * m == d * (k * m);
  }

  lemma DividesSum(d: int, n: int, m: int)
    requires Divides(d, n) && Divides(d, m)
    ensures Divides(d, n + m)
  {
    var k :| n == d * k;
    var l :| m == d * l;
    assert n + m == d * (k + l);
  }

  lemma DividesTransitive(a: int, b: int, c: int)
    requires Divides(a, b) && Divides(b, c)
    ensures Divides(a, c)
  {
    var k :| b == a * k;
    var l :| c == b * l;
    assert c == a * (k * l);
  }

  /** The result divides both arguments. */
  lemma {:induction false} GcdDivides(a: nat, b: nat)
    ensures Divides(Gcd(a, b), a) && Divides(Gcd(a, b), b)
    decreases b
  {
    var g := Gcd(a, b);
    if b == 0 {
      assert a == g * 1 && b == g * 0;
    } else {
      GcdDivides(b, a % b);
      assert g == Gcd(b, a % b);
      assert a == b * (a / b) + a % b;
      DividesTimes(g, b, a / b);
      DividesSum(g, b * (a / b), a % b);
    }
  }

  /** Bezout coefficients, following the same recursion. */
  lemma {:induction false} Bezout(a: nat, b: nat) returns (x: int, y: int)
    ensures Gcd(a, b) == a * x + b * y
    decreases b
  {
    if b == 0 {
      x, y := 1, 0;
    } else {
      var x1, y1 := Bezout(b, a % b);
      var q := a / b;
      assert a % b == a - b * q;
      x, y := y1, x1 - q * y1;
      assert (a - b * q) * y1 == a * y1 - b * (q * y1) by {
        MulAssoc(b, q, y1);
      }
      assert b * (x1 - q * y1) == b * x1 - b * (q * y1);
      assert Gcd(a, b) == b * x1 + (a % b) * y1;
    }
  }

  /** Every common divisor divides the gcd, so it is the greatest one. */
  lemma GcdGreatest(a: nat, b: nat, d: int)
    requires Divides(d, a) && Divides(d, b)
    ensures Divides(d, Gcd(a, b))
  {
    var x, y := Bezout(a, b);
    DividesTimes(d, a, x);
    DividesTimes(d, b, y);
    DividesSum(d, a * x, b * y);
  }

  /** `lcm(a, b) = (a * b) / gcd(a, b)`, on positive step counts. */
  function Lcm(a: nat, b: nat): (l: nat)
    requires a > 0 && b > 0
  {
    a * b / Gcd(a, b)
  }

  /** a * b is the lcm times the gcd, and the lcm is a multiple of a (the gcd divides b). */
  lemma LcmTimesGcd(a: nat, b: nat)
    requires a > 0 && b > 0
    ensures Lcm(a, b) * Gcd(a, b) == a * b
    ensures Lcm(a, b) > 0
    ensures Divides(a, Lcm(a, b)) && Divides(b, Lcm(a, b))
  {
    var g := Gcd(a, b);
    GcdDivides(a, b);
    var p :| a == g * p;
    var q :| b == g * q;
    LcmFactor(a, b, g, p);
    var l := Lcm(a, b);
    assert l == p * b;
    Rearrange(g, p, b);
    assert l * g == a * b;
    MultipleBounds(g, p);
    assert p >= 1;
    MultipleBounds(b, p);
    MulAssoc(b, p, 1);
    assert l == b * p;
    Rearrange(q, p, g);
    MulAssoc(g, q, p);
    assert l == a * q;
  }

  /** With a == g * p, the lcm (a * b) / g is p * b. */
  lemma LcmFactor(a: nat, b: nat, g: nat, p: int)
    requires a > 0 && b > 0 && g == Gcd(a, b) && a == g * p
    ensures Lcm(a, b) == p * b
  {
    MulAssoc(g, p, b);
    DivideExact(g, p * b);
  }

  lemma Rearrange(x: int, y: int, z: int)
    ensures (y * z) * x == (x * y) * z
  {
    MulAssoc(x, y, z);
    MulAssoc(y, z, x);
  }

  lemma MulAssoc(x: int, y: int, z: int)
    ensures (x * y) * z == x * (y * z)
    ensures x * y == y * x
  {
  }

  lemma DivideExact(g: int, m: int)
    requires g > 0
    ensures g * m / g == m
  {
    var r := g * m;
    var d, s := r / g, r % g;
    assert r == g * d + s && 0 <= s < g;
    assert g * (m - d) == s;
    MultipleBounds(g, m - d);
  }

  /** A non-zero multiple of g is at least g away from zero. */
  lemma MultipleBounds(g: int, k: int)
    requires g > 0
    ensures k >= 1 ==> g * k >= g
    ensures k <= -1 ==> g * k <= -g
  {
  }

  lemma CancelFactor(g: int, x: int, y: int)
    requires g > 0 && g * x == g * y
    ensures x == y
  {
    assert g * (x - y) == 0;
    MultipleBounds(g, x - y);
  }

  /** The lcm divides every common multiple of a and b: it is the least one. */
  lemma LcmLeast(a: nat, b: nat, m: int)
    requires a > 0 && b > 0
    requires Divides(a, m) && Divides(b, m)
    ensures Divides(Lcm(a, b), m)
  {
    var g, l := Gcd(a, b), Lcm(a, b);
    LcmTimesGcd(a, b);
    var x, y := Bezout(a, b);
    var s :| m == a * s;
    var t :| m == b * t;
    // m * g == m * a * x + m * b * y, and each of the two terms is a multiple of a * b
    assert m * g == (m * a) * x + (m * b) * y by {
      MulDistributes(m, a * x, b * y);
      MulAssoc(m, a, x);
      MulAssoc(m, b, y);
    }
    assert (m * a) * x == (a * b) * (t * x) by {
      MulAssoc(b, t, a);
      MulAssoc(a, b, t);
      MulAssoc(a * b, t, x);
    }
    assert (m * b) * y == (a * b) * (s * y) by {
      MulAssoc(a, s, b);
      MulAssoc(a, b, s);
      MulAssoc(a * b, s, y);
    }
    var z := t * x + s * y;
    assert m * g == (a * b) * z by {
      MulDistributes(a * b, t * x, s * y);
    }
    assert g * m == g * (l * z) by {
      MulAssoc(l, g, z);
      MulAssoc(g, l, z);
    }
    CancelFactor(g, m, l * z);
  }

  lemma MulDistributes(x: int, y: int, z: int)
    ensures x * (y + z) == x * y + x * z
  {
  }

  /** `stepsToReachEndNode.reduce(lcm)` on a non-empty list of positive counts. */
  function LcmFold(counts: seq<nat>): (l: nat)
    requires counts != [] && forall i :: 0 <= i < |counts| ==> counts[i] > 0
    ensures l > 0
  {
    if |counts| == 1 then counts[0]
    else
      var l := LcmFold(counts[..|counts| - 1]);
      LcmTimesGcd(l, counts[|counts| - 1]);
      Lcm(l, counts[|counts| - 1])
  }

  /** The fold is a common multiple of all the counts, and divides every other one. */
  lemma {:induction false} LcmFoldIsLeastCommonMultiple(counts: seq<nat>, m: int)
    requires counts != [] && forall i :: 0 <= i < |counts| ==> counts[i] > 0
    ensures forall i :: 0 <= i < |counts| ==> Divides(counts[i], LcmFold(counts))
    ensures (forall i :: 0 <= i < |counts| ==> Divides(counts[i], m)) ==> Divides(LcmFold(counts), m)
  {
    var l := LcmFold(counts);
    if |counts| == 1 {
      assert l == counts[0] * 1;
    } else {
      var init, last := counts[..|counts| - 1], counts[|counts| - 1];
      var li := LcmFold(init);
      LcmFoldIsLeastCommonMultiple(init, m);
      LcmTimesGcd(li, last);
      forall i | 0 <= i < |counts| ensures Divides(counts[i], l) {
        if i < |init| {
          assert counts[i] == init[i];
          DividesTransitive(counts[i], li, l);
        }
      }
      if forall i :: 0 <= i < |counts| ==> Divides(counts[i], m) {
        assert forall i :: 0 <= i < |init| ==> init[i] == counts[i];
        LcmLeast(li, last, m);
      }
    }
  }

  /** A walk from a node ending in A takes at least one step, so every count is positive. */
  lemma StartNodeCountPositive(nodes: Network, instructions: seq<char>, start: Name, k: nat)
    requires Closed(nodes) && start in nodes && EndsWith(start, 'A')
    requires FirstArrival(nodes, instructions, start, EndsWithZ, k)
    ensures k > 0
  {
    ZeroStepsIffEndNode(nodes, instructions, start, k);
  }

  /** day8/puzzle2.js solve: the walks from all start nodes, each within `fuel` moves, and the
      lcm of their lengths. `keys` lists the nodes of the network in `Object.keys` order. None when there is no start node (`reduce` on an empty list throws)
      or when some walk has not arrived within `fuel` moves. */
  method SolvePart2(keys: seq<Name>, nodes: Network, instructions: seq<char>, fuel: nat)
    returns (stepsToReachEndNode: seq<nat>, answer: Option<nat>)
    requires Closed(nodes) && forall n :: n in nodes <==> n in keys
    ensures forall n :: n in StartNodes(keys) <==> n in nodes && EndsWith(n, 'A')
    ensures answer.Some? ==> var starts := StartNodes(keys);
      && starts != []
      && |stepsToReachEndNode| == |starts|
      && (forall i :: 0 <= i < |starts| ==> stepsToReachEndNode[i] > 0)
      && (forall i :: 0 <= i < |starts| ==>
            FirstArrival(nodes, instructions, starts[i], EndsWithZ, stepsToReachEndNode[i]))
      && answer.value == LcmFold(stepsToReachEndNode)
    ensures answer.None? ==> var starts := StartNodes(keys);
      starts == []
      || exists i :: 0 <= i < |starts|
           && forall j :: 0 <= j <= fuel ==> !EndsWithZ(NodeAfter(nodes, instructions, starts[i], j))
  {
    var starts := StartNodes(keys);
    stepsToReachEndNode := [];
    for i := 0 to |starts|
      invariant |stepsToReachEndNode| == i
      invariant forall j :: 0 <= j < i ==> stepsToReachEndNode[j] > 0
      invariant forall j :: 0 <= j < i ==>
        FirstArrival(nodes, instructions, starts[j], EndsWithZ, stepsToReachEndNode[j])
    {
      var steps := StepsToReach(nodes, instructions, starts[i], EndsWithZ, fuel);
      if steps.None? {
        answer := None;
        return;
      }
      StartNodeCountPositive(nodes, instructions, starts[i], steps.value);
      stepsToReachEndNode := stepsToReachEndNode + [steps.value];
    }
    if starts == [] {
      answer := None;
    } else {
      answer := Some(LcmFold(stepsToReachEndNode));
    }
  }
}
