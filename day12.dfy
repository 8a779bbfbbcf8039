/** Day 12: hot springs; the number of ways to complete each unfolded condition record so that
    its runs of damaged springs match the record's group list, counted by a memoised recursion. */
module Day12HotSprings {
  import opened Common

  /** One condition record: its springs (`.`, `#` or `?`) and its damaged group sizes. */
  datatype Record = Record(springs: seq<char>, damagedGroups: seq<nat>)

  /** Every symbol is `.` (working), `#` (damaged) or `?` (unknown). */
  predicate WellFormed(s: seq<char>)
  {
    forall i :: 0 <= i < |s| ==> s[i] == '.' || s[i] == '#' || s[i] == '?'
  }

  /** The group sizes the input lists are all at least one. */
  predicate PositiveGroups(g: seq<nat>)
  {
    forall i :: 0 <= i < |g| ==> g[i] >= 1
  }

  // ---------------------------------------------------------------------------
  // Counting symbols
  // ---------------------------------------------------------------------------

  function HashCount(s: seq<char>): nat
  {
    if s == [] then 0 else (if s[0] == '#' then 1 else 0) + HashCount(s[1..])
  }

  /** The length of `springs.filter(s => s !== '.')`. */
  function NotWorkingCount(s: seq<char>): nat
  {
    if s == [] then 0 else (if s[0] != '.' then 1 else 0) + NotWorkingCount(s[1..])
  }

  function UnknownCount(s: seq<char>): nat
  {
    if s == [] then 0 else (if s[0] == '?' then 1 else 0) + UnknownCount(s[1..])
  }

  /** `damagedGroups.reduce((acc, curr) => acc + curr)`. */
  function GroupSum(g: seq<nat>): nat
  {
    if g == [] then 0 else g[0] + GroupSum(g[1..])
  }

  lemma {:induction false} HashCountAppend(a: seq<char>, b: seq<char>)
    ensures HashCount(a + b) == HashCount(a) + HashCount(b)
  {
    if a == [] {
      assert a + b == b;
    } else {
      assert (a + b)[1..] == a[1..] + b;
      HashCountAppend(a[1..], b);
    }
  }

  lemma {:induction false} HashCountZero(s: seq<char>)
    ensures HashCount(s) == 0 <==> '#' !in s
  {
    if s != [] {
      HashCountZero(s[1..]);
      assert s == [s[0]] + s[1..];
    }
  }

  lemma {:induction false} NotWorkingCountBound(s: seq<char>)
    ensures NotWorkingCount(s) <= |s|
  {
    if s != [] {
      NotWorkingCountBound(s[1..]);
    }
  }

  lemma {:induction false} UnknownCountAppend(a: seq<char>, b: seq<char>)
    ensures UnknownCount(a + b) == UnknownCount(a) + UnknownCount(b)
  {
    if a == [] {
      assert a + b == b;
    } else {
      assert (a + b)[1..] == a[1..] + b;
      UnknownCountAppend(a[1..], b);
    }
  }

  lemma {:induction false} UnknownCountSuffix(s: seq<char>, k: nat)
    requires k <= |s|
    ensures UnknownCount(s[k..]) <= UnknownCount(s)
  {
    if k > 0 {
      UnknownCountSuffix(s[1..], k - 1);
      assert s[1..][k - 1..] == s[k..];
    }
  }

  lemma {:induction false} WellFormedSuffix(s: seq<char>, k: nat)
    requires WellFormed(s) && k <= |s|
    ensures WellFormed(s[k..])
  {
    assert forall i :: 0 <= i < |s| - k ==> s[k..][i] == s[k + i];
  }

  // ---------------------------------------------------------------------------
  // Removing working springs at both ends (the shift and pop loops)
  // ---------------------------------------------------------------------------

  function DropLeadingWorking(s: seq<char>): (r: seq<char>)
    ensures |r| <= |s| && r == s[|s| - |r|..]
    ensures r == [] || r[0] != '.'
    ensures UnknownCount(r) == UnknownCount(s)
    ensures s != [] && s[0] == '.' ==> |r| < |s|
  {
    if s != [] && s[0] == '.' then DropLeadingWorking(s[1..]) else s
  }

  function DropTrailingWorking(s: seq<char>): (r: seq<char>)
    ensures |r| <= |s| && r == s[..|r|]
    ensures r == [] || r[|r| - 1] != '.'
    ensures UnknownCount(r) == UnknownCount(s)
    ensures s != [] && s[|s| - 1] == '.' ==> |r| < |s|
  {
    if s != [] && s[|s| - 1] == '.' then
      assert s == s[..|s| - 1] + ['.'];
      UnknownCountAppend(s[..|s| - 1], ['.']);
      DropTrailingWorking(s[..|s| - 1])
    else s
  }

  /** The springs once every leading and trailing `.` is removed. */
  function StripWorking(s: seq<char>): seq<char>
  {
    DropTrailingWorking(DropLeadingWorking(s))
  }

  lemma StripWorkingShape(s: seq<char>)
    requires WellFormed(s)
    ensures WellFormed(StripWorking(s))
    ensures StripWorking(s) == [] || (StripWorking(s)[0] != '.' && StripWorking(s)[|StripWorking(s)| - 1] != '.')
  {
    var l := DropLeadingWorking(s);
    WellFormedSuffix(s, |s| - |l|);
    var r := DropTrailingWorking(l);
    assert forall i :: 0 <= i < |r| ==> r[i] == l[i];
  }

  // ---------------------------------------------------------------------------
  // The memoised recursion, as a function
  // ---------------------------------------------------------------------------

  /** What `getArrangements(springs, damagedGroups)` computes, case by case in the source's order. */
  function Arrangements(springs: seq<char>, damagedGroups: seq<nat>): nat
    decreases |springs| + UnknownCount(springs)
  {
    if |springs| == 0 then
      (if |damagedGroups| == 0 then 1 else 0)
    else if |damagedGroups| == 0 then
      (if '#' !in springs then 1 else 0)
    else if NotWorkingCount(springs) < GroupSum(damagedGroups) then
      0
    else if springs[0] == '.' || springs[|springs| - 1] == '.' then
      Arrangements(StripWorking(springs), damagedGroups)
    else if springs[0] == '?' then
      assert (['#'] + springs[1..])[1..] == springs[1..];
      Arrangements(['#'] + springs[1..], damagedGroups) + Arrangements(springs[1..], damagedGroups)
    else
      var group := damagedGroups[0];
      if '.' in springs[..Min(group, |springs|)] then 0
      else if group < |springs| && springs[group] == '#' then 0
      else
        UnknownCountSuffix(springs, Min(group + 1, |springs|));
        Arrangements(springs[Min(group + 1, |springs|)..], damagedGroups[1..])
  }

  // ---------------------------------------------------------------------------
  // Damaged runs and the brute-force count
  // ---------------------------------------------------------------------------

  /** The number of `#` at the start of `p`. */
  function LeadingHashes(p: seq<char>): (k: nat)
    ensures k <= |p|
    ensures forall i :: 0 <= i < k ==> p[i] == '#'
    ensures k < |p| ==> p[k] != '#'
  {
    if p != [] && p[0] == '#' then 1 + LeadingHashes(p[1..]) else 0
  }

  /** The lengths of the maximal runs of `#` in `p`, left to right. */
  function Runs(p: seq<char>): seq<nat>
    decreases |p|
  {
    if p == [] then []
    else if p[0] != '#' then Runs(p[1..])
    else [LeadingHashes(p)] + Runs(p[LeadingHashes(p)..])
  }

  /**
    * The number of ways to complete `rest` (each `?` becoming `#` or `.`) such that the runs of
    * `done` followed by the completion are exactly `groups`: the brute-force reference count.
    */
  function BruteForce(done: seq<char>, rest: seq<char>, groups: seq<nat>): nat
    decreases |rest|
  {
    if rest == [] then (if Runs(done) == groups then 1 else 0)
    else if rest[0] == '?' then
      BruteForce(done + ['#'], rest[1..], groups) + BruteForce(done + ['.'], rest[1..], groups)
    else BruteForce(done + [rest[0]], rest[1..], groups)
  }

  /** A block of k damaged springs. */
  function Block(k: nat): (b: seq<char>)
    ensures |b| == k
    ensures forall i :: 0 <= i < k ==> b[i] == '#'
  {
    if k == 0 then [] else ['#'] + Block(k - 1)
  }

  lemma BlockGrow(k: nat)
    ensures Block(k) + ['#'] == Block(k + 1)
  {
    assert forall i :: 0 <= i < k + 1 ==> (Block(k) + ['#'])[i] == Block(k + 1)[i];
  }

  lemma {:induction false} LeadingHashesOfBlock(k: nat, x: seq<char>)
    ensures LeadingHashes(Block(k) + x) == k + LeadingHashes(x)
  {
    if k > 0 {
      assert Block(k) + x == ['#'] + (Block(k - 1) + x);
      assert (['#'] + (Block(k - 1) + x))[1..] == Block(k - 1) + x;
      LeadingHashesOfBlock(k - 1, x);
    } else {
      assert Block(k) + x == x;
    }
  }

  lemma LeadingWorkingRuns()
    ensures forall x :: Runs(['.'] + x) == Runs(x)
  {
    forall x
      ensures Runs(['.'] + x) == Runs(x)
    {
      assert (['.'] + x)[1..] == x;
    }
  }

  /** A block of k damaged springs closed by a working one contributes exactly the run k. */
  lemma ClosedBlockRuns(k: nat)
    requires k >= 1
    ensures forall x :: Runs(Block(k) + ['.'] + x) == [k] + Runs(x)
  {
    forall x
      ensures Runs(Block(k) + ['.'] + x) == [k] + Runs(x)
    {
      var p := Block(k) + ['.'] + x;
      assert p == Block(k) + (['.'] + x);
      LeadingHashesOfBlock(k, ['.'] + x);
      assert p[k..] == ['.'] + x;
      assert (['.'] + x)[1..] == x;
    }
  }

  lemma BlockRuns(k: nat)
    requires k >= 1
    ensures Runs(Block(k)) == [k]
  {
    LeadingHashesOfBlock(k, []);
    assert Block(k) + [] == Block(k);
    assert Block(k)[k..] == [];
  }

  /** Whatever follows, a block of m damaged springs opens a run of at least m. */
  lemma LongBlockRuns(m: nat)
    requires m >= 1
    ensures forall x :: Runs(Block(m) + x) != [] && Runs(Block(m) + x)[0] >= m
  {
    forall x
      ensures Runs(Block(m) + x) != [] && Runs(Block(m) + x)[0] >= m
    {
      LeadingHashesOfBlock(m, x);
    }
  }

  lemma {:induction false} LeadingHashesTrailingWorking(y: seq<char>)
    ensures LeadingHashes(y + ['.']) == LeadingHashes(y)
  {
    if y != [] {
      assert (y + ['.'])[1..] == y[1..] + ['.'];
      LeadingHashesTrailingWorking(y[1..]);
    }
  }

  lemma {:induction false} TrailingWorkingRuns(y: seq<char>)
    ensures Runs(y + ['.']) == Runs(y)
    decreases |y|
  {
    if y == [] {
      assert (y + ['.'])[1..] == [];
    } else if y[0] != '#' {
      assert (y + ['.'])[1..] == y[1..] + ['.'];
      TrailingWorkingRuns(y[1..]);
    } else {
      var k := LeadingHashes(y);
      LeadingHashesTrailingWorking(y);
      assert (y + ['.'])[k..] == y[k..] + ['.'];
      TrailingWorkingRuns(y[k..]);
    }
  }

  lemma {:induction false} HashCountOfBlockPrefix(p: seq<char>, k: nat)
    requires k <= |p|
    requires forall i :: 0 <= i < k ==> p[i] == '#'
    ensures HashCount(p) == k + HashCount(p[k..])
  {
    if k > 0 {
      HashCountOfBlockPrefix(p[1..], k - 1);
      assert p[1..][k - 1..] == p[k..];
    }
  }

  /** The runs add up to the number of damaged springs. */
  lemma {:induction false} RunsSum(p: seq<char>)
    ensures GroupSum(Runs(p)) == HashCount(p)
    decreases |p|
  {
    if p != [] {
      if p[0] != '#' {
        RunsSum(p[1..]);
      } else {
        var k := LeadingHashes(p);
        RunsSum(p[k..]);
        HashCountOfBlockPrefix(p, k);
        assert ([k] + Runs(p[k..]))[1..] == Runs(p[k..]);
      }
    }
  }

  lemma {:induction false} RunsPositive(p: seq<char>)
    ensures PositiveGroups(Runs(p))
    decreases |p|
  {
    if p != [] {
      if p[0] != '#' {
        RunsPositive(p[1..]);
      } else {
        RunsPositive(p[LeadingHashes(p)..]);
      }
    }
  }

  lemma RunsEmptyIff(p: seq<char>)
    ensures Runs(p) == [] <==> HashCount(p) == 0
  {
    RunsSum(p);
    RunsPositive(p);
  }

  lemma SeqCancel(pre: seq<nat>, a: seq<nat>, b: seq<nat>)
    ensures pre + a == pre + b <==> a == b
  {
    if pre + a == pre + b {
      assert a == (pre + a)[|pre|..];
      assert b == (pre + b)[|pre|..];
    }
  }

  // ---------------------------------------------------------------------------
  // Properties of the brute-force count
  // ---------------------------------------------------------------------------

  /** A prefix whose runs are `pre` whatever follows can be moved out of `done` and `groups`. */
  lemma {:induction false} BruteForceShift(q: seq<char>, pre: seq<nat>, d: seq<char>, r: seq<char>, gs: seq<nat>)
    requires forall x :: Runs(q + x) == pre + Runs(x)
    ensures BruteForce(q + d, r, pre + gs) == BruteForce(d, r, gs)
    decreases |r|
  {
    if r == [] {
      SeqCancel(pre, Runs(d), gs);
    } else if r[0] == '?' {
      assert (q + d) + ['#'] == q + (d + ['#']);
      assert (q + d) + ['.'] == q + (d + ['.']);
      BruteForceShift(q, pre, d + ['#'], r[1..], gs);
      BruteForceShift(q, pre, d + ['.'], r[1..], gs);
    } else {
      assert (q + d) + [r[0]] == q + (d + [r[0]]);
      BruteForceShift(q, pre, d + [r[0]], r[1..], gs);
    }
  }

  /** No completion can match when no extension of `d` has the runs `gs`. */
  lemma {:induction false} BruteForceZero(d: seq<char>, r: seq<char>, gs: seq<nat>)
    requires forall x :: Runs(d + x) != gs
    ensures BruteForce(d, r, gs) == 0
    decreases |r|
  {
    if r == [] {
      assert d + [] == d;
    } else {
      forall y, x
        ensures Runs((d + [y]) + x) != gs
      {
        assert (d + [y]) + x == d + ([y] + x);
      }
      if r[0] == '?' {
        BruteForceZero(d + ['#'], r[1..], gs);
        BruteForceZero(d + ['.'], r[1..], gs);
      } else {
        BruteForceZero(d + [r[0]], r[1..], gs);
      }
    }
  }

  lemma {:induction false} BruteForceTrailingWorking(d: seq<char>, r: seq<char>, gs: seq<nat>)
    ensures BruteForce(d, r + ['.'], gs) == BruteForce(d, r, gs)
    decreases |r|
  {
    if r == [] {
      assert r + ['.'] == ['.'];
      TrailingWorkingRuns(d);
    } else {
      assert (r + ['.'])[0] == r[0];
      assert (r + ['.'])[1..] == r[1..] + ['.'];
      if r[0] == '?' {
        BruteForceTrailingWorking(d + ['#'], r[1..], gs);
        BruteForceTrailingWorking(d + ['.'], r[1..], gs);
      } else {
        BruteForceTrailingWorking(d + [r[0]], r[1..], gs);
      }
    }
  }

  lemma BruteForceLeadingWorking(r: seq<char>, gs: seq<nat>)
    ensures BruteForce([], ['.'] + r, gs) == BruteForce([], r, gs)
  {
    assert (['.'] + r)[1..] == r;
    assert [] + ['.'] == ['.'] + [];
    LeadingWorkingRuns();
    assert forall x :: Runs(['.'] + x) == [] + Runs(x);
    BruteForceShift(['.'], [], [], r, gs);
    assert [] + gs == gs;
  }

  lemma {:induction false} BruteForceDropLeading(s: seq<char>, gs: seq<nat>)
    ensures BruteForce([], DropLeadingWorking(s), gs) == BruteForce([], s, gs)
  {
    if s != [] && s[0] == '.' {
      BruteForceDropLeading(s[1..], gs);
      assert s == ['.'] + s[1..];
      BruteForceLeadingWorking(s[1..], gs);
    }
  }

  lemma {:induction false} BruteForceDropTrailing(s: seq<char>, gs: seq<nat>)
    ensures BruteForce([], DropTrailingWorking(s), gs) == BruteForce([], s, gs)
  {
    if s != [] && s[|s| - 1] == '.' {
      var t := s[..|s| - 1];
      BruteForceDropTrailing(t, gs);
      assert s == t + ['.'];
      BruteForceTrailingWorking([], t, gs);
    }
  }

  /** With no groups left exactly one completion matches, all `?` working, unless a `#` is fixed. */
  lemma {:induction false} BruteForceNoGroups(d: seq<char>, r: seq<char>)
    ensures BruteForce(d, r, []) == (if HashCount(d) + HashCount(r) == 0 then 1 else 0)
    decreases |r|
  {
    if r == [] {
      RunsEmptyIff(d);
    } else {
      var y := r[0];
      if y == '?' {
        HashCountAppend(d, ['#']);
        HashCountAppend(d, ['.']);
        BruteForceNoGroups(d + ['#'], r[1..]);
        BruteForceNoGroups(d + ['.'], r[1..]);
      } else {
        HashCountAppend(d, [y]);
        BruteForceNoGroups(d + [y], r[1..]);
      }
    }
  }

  /** Too few springs that can be damaged for the groups: nothing matches. */
  lemma {:induction false} BruteForceInfeasible(d: seq<char>, r: seq<char>, gs: seq<nat>)
    requires HashCount(d) + NotWorkingCount(r) < GroupSum(gs)
    ensures BruteForce(d, r, gs) == 0
    decreases |r|
  {
    if r == [] {
      RunsSum(d);
    } else {
      var y := r[0];
      if y == '?' {
        HashCountAppend(d, ['#']);
        HashCountAppend(d, ['.']);
        BruteForceInfeasible(d + ['#'], r[1..], gs);
        BruteForceInfeasible(d + ['.'], r[1..], gs);
      } else {
        HashCountAppend(d, [y]);
        BruteForceInfeasible(d + [y], r[1..], gs);
      }
    }
  }

  /** What remains of the `#` branch once m more symbols of the group are to be filled from r. */
  function GroupRest(m: nat, r: seq<char>, rest: seq<nat>): nat
    requires m <= |r|
  {
    if '.' in r[..m] then 0
    else if m < |r| && r[m] == '#' then 0
    else BruteForce([], r[Min(m + 1, |r|)..], rest)
  }

  lemma GroupRestStep(m: nat, r: seq<char>, rest: seq<nat>)
    requires 1 <= m <= |r| && r[0] != '.'
    ensures GroupRest(m - 1, r[1..], rest) == GroupRest(m, r, rest)
  {
    assert r[..m] == [r[0]] + r[1..][..m - 1];
    assert r[1..][Min(m, |r| - 1)..] == r[Min(m + 1, |r|)..];
  }

  /** Filling a group that already has k damaged springs from the symbols of r. */
  lemma {:induction false} FillGroup(k: nat, group: nat, r: seq<char>, rest: seq<nat>)
    requires 1 <= k <= group && group - k <= |r|
    requires WellFormed(r)
    ensures BruteForce(Block(k), r, [group] + rest) == GroupRest(group - k, r, rest)
    decreases group - k
  {
    var closed := Block(k) + ['.'];
    ClosedBlockRuns(k);
    assert closed + [] == closed;
    if k == group {
      if r == [] {
        BlockRuns(group);
        assert [group] == [group] + rest <==> rest == [] by {
          if [group] == [group] + rest {
            assert |[group] + rest| == 1 + |rest|;
          }
        }
      } else if r[0] == '#' {
        BlockGrow(group);
        LongBlockRuns(group + 1);
        BruteForceZero(Block(group + 1), r[1..], [group] + rest);
      } else {
        BruteForceShift(closed, [group], [], r[1..], rest);
        if r[0] == '?' {
          BlockGrow(group);
          LongBlockRuns(group + 1);
          BruteForceZero(Block(group + 1), r[1..], [group] + rest);
        }
      }
    } else {
      assert forall x :: Runs(closed + x) != [group] + rest by {
        forall x
          ensures Runs(closed + x) != [group] + rest
        {
          assert ([k] + Runs(x))[0] == k;
        }
      }
      BruteForceZero(closed, r[1..], [group] + rest);
      if r[0] != '.' {
        WellFormedSuffix(r, 1);
        BlockGrow(k);
        FillGroup(k + 1, group, r[1..], rest);
        GroupRestStep(group - k, r, rest);
      }
    }
  }

  /**
    * The memoised recursion counts exactly the completions of the springs whose damaged runs are
    * the groups, in order.
    */
  lemma {:induction false} ArrangementsCountsCompletions(springs: seq<char>, groups: seq<nat>)
    requires WellFormed(springs) && PositiveGroups(groups)
    ensures Arrangements(springs, groups) == BruteForce([], springs, groups)
    decreases |springs| + UnknownCount(springs)
  {
    var s := springs;
    if |s| == 0 {
    } else if |groups| == 0 {
      BruteForceNoGroups([], s);
      HashCountZero(s);
    } else if NotWorkingCount(s) < GroupSum(groups) {
      BruteForceInfeasible([], s, groups);
    } else if s[0] == '.' || s[|s| - 1] == '.' {
      StripWorkingShape(s);
      ArrangementsCountsCompletions(StripWorking(s), groups);
      BruteForceDropLeading(s, groups);
      BruteForceDropTrailing(DropLeadingWorking(s), groups);
    } else if s[0] == '?' {
      var t := s[1..];
      WellFormedSuffix(s, 1);
      assert (['#'] + t)[1..] == t;
      assert WellFormed(['#'] + t);
      ArrangementsCountsCompletions(['#'] + t, groups);
      ArrangementsCountsCompletions(t, groups);
      assert [] + ['#'] == ['#'];
      BruteForceLeadingWorking(t, groups);
    } else {
      var group := groups[0];
      NotWorkingCountBound(s);
      assert group <= GroupSum(groups);
      WellFormedSuffix(s, 1);
      assert Block(1) == ['#'];
      assert [] + ['#'] == ['#'];
      assert groups == [group] + groups[1..];
      FillGroup(1, group, s[1..], groups[1..]);
      GroupRestStep(group, s, groups[1..]);
      if !('.' in s[..group]) && !(group < |s| && s[group] == '#') {
        WellFormedSuffix(s, Min(group + 1, |s|));
        UnknownCountSuffix(s, Min(group + 1, |s|));
        assert PositiveGroups(groups[1..]) by {
          assert forall i :: 0 <= i < |groups| - 1 ==> groups[1..][i] == groups[i + 1];
        }
        ArrangementsCountsCompletions(s[Min(group + 1, |s|)..], groups[1..]);
      }
    }
  }

  // ---------------------------------------------------------------------------
  // The cache and getArrangements
  // ---------------------------------------------------------------------------

  /** Holder of `cachedResults`, keyed by the exact pair of springs and groups. */
  class ArrangementCounter {
    var cachedResults: map<(seq<char>, seq<nat>), nat>

    /** Every cached value is the count of its own key. */
    ghost predicate Valid()
      reads this
    {
      forall key :: key in cachedResults ==> cachedResults[key] == Arrangements(key.0, key.1)
    }

    constructor()
      ensures Valid()
      ensures cachedResults == map[]
    {
      cachedResults := map[];
    }

    /** getArrangements: answers from the cache when it can, otherwise counts and stores. */
    method GetArrangements(springs: seq<char>, damagedGroups: seq<nat>) returns (result: nat)
      requires Valid()
      modifies this
      ensures Valid()
      ensures result == Arrangements(springs, damagedGroups)
      ensures (springs, damagedGroups) in cachedResults
      ensures old(cachedResults).Keys <= cachedResults.Keys
      ensures (springs, damagedGroups) in old(cachedResults) ==> cachedResults == old(cachedResults)
      decreases |springs| + UnknownCount(springs)
    {
      var key := (springs, damagedGroups);
      if key in cachedResults {
        return cachedResults[key];
      }
      if |springs| == 0 {
        result := if |damagedGroups| == 0 then 1 else 0;
      } else if |damagedGroups| == 0 {
        result := if '#' !in springs then 1 else 0;
      } else if NotWorkingCount(springs) < GroupSum(damagedGroups) {
        result := 0;
      } else if springs[0] == '.' || springs[|springs| - 1] == '.' {
        var stripped := springs;
        while |stripped| > 0 && stripped[0] == '.'
          invariant DropLeadingWorking(stripped) == DropLeadingWorking(springs)
          decreases |stripped|
        {
          stripped := stripped[1..];
        }
        while |stripped| > 0 && stripped[|stripped| - 1] == '.'
          invariant DropTrailingWorking(stripped) == StripWorking(springs)
          decreases |stripped|
        {
          stripped := stripped[..|stripped| - 1];
        }
        result := GetArrangements(stripped, damagedGroups);
      } else if springs[0] == '?' {
        var asDamagedSpring := ['#'] + springs[1..];
        var asWorkingSpring := springs[1..];
        assert asDamagedSpring[1..] == asWorkingSpring;
        var damaged := GetArrangements(asDamagedSpring, damagedGroups);
        var working := GetArrangements(asWorkingSpring, damagedGroups);
        result := damaged + working;
      } else {
        var group := damagedGroups[0];
        var groupsLeft := damagedGroups[1..];
        if '.' in springs[..Min(group, |springs|)] {
          result := 0;
        } else if group < |springs| && springs[group] == '#' {
          result := 0;
        } else {
          var springsLeft := springs[Min(group + 1, |springs|)..];
          UnknownCountSuffix(springs, Min(group + 1, |springs|));
          result := GetArrangements(springsLeft, groupsLeft);
        }
      }
      cachedResults := cachedResults[key := result];
    }
  }

  // ---------------------------------------------------------------------------
  // Unfolding and solve
  // ---------------------------------------------------------------------------

  /** n copies of x, one after the other (`Array(n).fill(x).flat()`). */
  function Repeat<T>(x: seq<T>, n: nat): (r: seq<T>)
    ensures |r| == n * |x|
  {
    if n == 0 then [] else Repeat(x, n - 1) + x
  }

  /** Four copies of the springs each followed by `?`, then the springs once more. */
  function UnfoldSprings(springs: seq<char>): seq<char>
  {
    Repeat(springs + ['?'], 4) + springs
  }

  function UnfoldGroups(groups: seq<nat>): seq<nat>
  {
    Repeat(groups, 5)
  }

  /** Unfolding gives five copies of the springs joined by `?`, and the groups five times over. */
  lemma UnfoldShape(springs: seq<char>, groups: seq<nat>)
    ensures UnfoldSprings(springs) == springs + ['?'] + springs + ['?'] + springs + ['?'] + springs + ['?'] + springs
    ensures UnfoldGroups(groups) == groups + groups + groups + groups + groups
  {
    var x := springs + ['?'];
    RepeatFour(x);
    assert x + x + x + x + springs == springs + ['?'] + springs + ['?'] + springs + ['?'] + springs + ['?'] + springs;
    RepeatFour(groups);
    assert Repeat(groups, 5) == Repeat(groups, 4) + groups;
  }

  lemma RepeatFour<T>(x: seq<T>)
    ensures Repeat(x, 4) == x + x + x + x
  {
    assert Repeat(x, 1) == x by { assert Repeat(x, 0) == []; assert [] + x == x; }
    assert Repeat(x, 2) == x + x;
    assert Repeat(x, 3) == x + x + x;
  }

  lemma WellFormedAppend(a: seq<char>, b: seq<char>)
    requires WellFormed(a) && WellFormed(b)
    ensures WellFormed(a + b)
  {
    assert forall i :: |a| <= i < |a + b| ==> (a + b)[i] == b[i - |a|];
  }

  lemma PositiveGroupsAppend(a: seq<nat>, b: seq<nat>)
    requires PositiveGroups(a) && PositiveGroups(b)
    ensures PositiveGroups(a + b)
  {
    assert forall i :: |a| <= i < |a + b| ==> (a + b)[i] == b[i - |a|];
  }

  lemma UnfoldKeepsShape(springs: seq<char>, groups: seq<nat>)
    requires WellFormed(springs) && PositiveGroups(groups)
    ensures WellFormed(UnfoldSprings(springs))
    ensures PositiveGroups(UnfoldGroups(groups))
  {
    UnfoldShape(springs, groups);
    var x := springs + ['?'];
    WellFormedAppend(springs, ['?']);
    WellFormedAppend(x, x);
    WellFormedAppend(x + x, x);
    WellFormedAppend(x + x + x, x);
    WellFormedAppend(x + x + x + x, springs);
    assert x + x + x + x + springs == springs + ['?'] + springs + ['?'] + springs + ['?'] + springs + ['?'] + springs;
    var g := groups;
    PositiveGroupsAppend(g, g);
    PositiveGroupsAppend(g + g, g);
    PositiveGroupsAppend(g + g + g, g);
    PositiveGroupsAppend(g + g + g + g, g);
  }

  function UnfoldedRecord(record: Record): Record
  {
    Record(UnfoldSprings(record.springs), UnfoldGroups(record.damagedGroups))
  }

  /** The answer: the arrangements of every unfolded record, added up. */
  function TotalArrangements(records: seq<Record>): nat
  {
    if records == [] then 0
    else
      var u := UnfoldedRecord(records[|records| - 1]);
      TotalArrangements(records[..|records| - 1]) + Arrangements(u.springs, u.damagedGroups)
  }

  function TotalCompletions(records: seq<Record>): nat
  {
    if records == [] then 0
    else
      var u := UnfoldedRecord(records[|records| - 1]);
      TotalCompletions(records[..|records| - 1]) + BruteForce([], u.springs, u.damagedGroups)
  }

  /** solve adds up, over the unfolded records, the numbers of matching completions. */
  lemma {:induction false} TotalArrangementsCountsCompletions(records: seq<Record>)
    requires forall i :: 0 <= i < |records| ==> WellFormed(records[i].springs) && PositiveGroups(records[i].damagedGroups)
    ensures TotalArrangements(records) == TotalCompletions(records)
  {
    if records != [] {
      var last := records[|records| - 1];
      TotalArrangementsCountsCompletions(records[..|records| - 1]);
      UnfoldKeepsShape(last.springs, last.damagedGroups);
      ArrangementsCountsCompletions(UnfoldSprings(last.springs), UnfoldGroups(last.damagedGroups));
    }
  }

  /** solve, against the shared cache. */
  method Solve(counter: ArrangementCounter, records: seq<Record>) returns (sumArrangements: nat)
    requires counter.Valid()
    modifies counter
    ensures counter.Valid()
    ensures sumArrangements == TotalArrangements(records)
  {
    sumArrangements := 0;
    for i := 0 to |records|
      invariant counter.Valid()
      invariant sumArrangements == TotalArrangements(records[..i])
    {
      var unfoldedSprings := UnfoldSprings(records[i].springs);
      var unfoldedDamagedGroups := UnfoldGroups(records[i].damagedGroups);
      var arrangements := counter.GetArrangements(unfoldedSprings, unfoldedDamagedGroups);
      assert records[..i + 1][..i] == records[..i];
      sumArrangements := sumArrangements + arrangements;
    }
    assert records[..|records|] == records;
  }

  // ---------------------------------------------------------------------------
  // The source's string key for the cache
  // ---------------------------------------------------------------------------

  function DigitChar(d: nat): char
    requires d < 10
  {
    ('0' as int + d) as char
  }

  /** A number's decimal text, as JavaScript's string conversion writes it. */
  function DecimalString(n: nat): (r: string)
    ensures r != []
    decreases n
  {
    if n < 10 then [DigitChar(n)] else DecimalString(n / 10) + [DigitChar(n % 10)]
  }

  /** `damagedGroups.join("")`. */
  function JoinGroups(groups: seq<nat>): string
  {
    if groups == [] then [] else DecimalString(groups[0]) + JoinGroups(groups[1..])
  }

  /** The key the source files each scenario under: `springs.join("") + ";" + damagedGroups.join("")`. */
  function SourceKey(springs: seq<char>, damagedGroups: seq<nat>): string
  {
    springs + [';'] + JoinGroups(damagedGroups)
  }

  lemma {:induction false} JoinGroupsAppend(a: seq<nat>, b: seq<nat>)
    ensures JoinGroups(a + b) == JoinGroups(a) + JoinGroups(b)
  {
    if a == [] {
      assert a + b == b;
    } else {
      assert (a + b)[1..] == a[1..] + b;
      JoinGroupsAppend(a[1..], b);
    }
  }

  lemma {:induction false} JoinGroupsSingleDigits(g: seq<nat>)
    requires forall i :: 0 <= i < |g| ==> g[i] < 10
    ensures |JoinGroups(g)| == |g|
    ensures forall i :: 0 <= i < |g| ==> JoinGroups(g)[i] == DigitChar(g[i])
  {
    if g != [] {
      JoinGroupsSingleDigits(g[1..]);
    }
  }

  function FirstIndexOf(s: string, c: char): nat
  {
    if s == [] || s[0] == c then 0 else 1 + FirstIndexOf(s[1..], c)
  }

  lemma {:induction false} FirstSemicolon(a: string, b: string)
    requires ';' !in a
    ensures FirstIndexOf(a + [';'] + b, ';') == |a|
  {
    if a != [] {
      assert (a + [';'] + b)[1..] == a[1..] + [';'] + b;
      FirstSemicolon(a[1..], b);
    }
  }

  /** When every group is below ten and no spring is `;`, the source's key identifies the scenario. */
  lemma SourceKeyInjective(s1: seq<char>, g1: seq<nat>, s2: seq<char>, g2: seq<nat>)
    requires ';' !in s1 && ';' !in s2
    requires forall i :: 0 <= i < |g1| ==> g1[i] < 10
    requires forall i :: 0 <= i < |g2| ==> g2[i] < 10
    requires SourceKey(s1, g1) == SourceKey(s2, g2)
    ensures s1 == s2 && g1 == g2
  {
    var key := SourceKey(s1, g1);
    FirstSemicolon(s1, JoinGroups(g1));
    FirstSemicolon(s2, JoinGroups(g2));
    assert s1 == key[..|s1|] == s2;
    assert JoinGroups(g1) == key[|s1| + 1..] == JoinGroups(g2);
    JoinGroupsSingleDigits(g1);
    JoinGroupsSingleDigits(g2);
    forall i | 0 <= i < |g1|
      ensures g1[i] == g2[i]
    {
      assert DigitChar(g1[i]) as int == '0' as int + g1[i];
      assert DigitChar(g2[i]) as int == '0' as int + g2[i];
    }
  }

  /** `c` is one way of completing `r`: each `?` made `#` or `.`, every other symbol kept. */
  predicate Completes(c: seq<char>, r: seq<char>)
  {
    |c| == |r| && forall i :: 0 <= i < |r| ==> (if r[i] == '?' then c[i] == '#' || c[i] == '.' else c[i] == r[i])
  }

  lemma CompletesAppend(c1: seq<char>, r1: seq<char>, c2: seq<char>, r2: seq<char>)
    requires Completes(c1, r1) && Completes(c2, r2)
    ensures Completes(c1 + c2, r1 + r2)
  {
    assert forall i :: |r1| <= i < |r1 + r2| ==> (r1 + r2)[i] == r2[i - |r1|] && (c1 + c2)[i] == c2[i - |r1|];
  }

  /** A completion whose runs match makes the brute-force count at least one. */
  lemma {:induction false} BruteForceWitness(d: seq<char>, r: seq<char>, c: seq<char>, gs: seq<nat>)
    requires Completes(c, r) && Runs(d + c) == gs
    ensures BruteForce(d, r, gs) >= 1
    decreases |r|
  {
    if r == [] {
      assert d + c == d;
    } else {
      assert d + c == (d + [c[0]]) + c[1..];
      assert Completes(c[1..], r[1..]) by {
        assert forall i :: 0 <= i < |r| - 1 ==> r[1..][i] == r[i + 1] && c[1..][i] == c[i + 1];
      }
      BruteForceWitness(d + [c[0]], r[1..], c[1..], gs);
    }
  }

  lemma JoinUnfolded(g: seq<nat>)
    ensures JoinGroups(UnfoldGroups(g)) == JoinGroups(g) + JoinGroups(g) + JoinGroups(g) + JoinGroups(g) + JoinGroups(g)
  {
    UnfoldShape([], g);
    JoinGroupsAppend(g, g);
    JoinGroupsAppend(g + g, g);
    JoinGroupsAppend(g + g + g, g);
    JoinGroupsAppend(g + g + g + g, g);
  }

  lemma CollidingKeys()
    ensures JoinGroups(UnfoldGroups([11])) == JoinGroups(UnfoldGroups([1, 1]))
  {
    JoinUnfolded([11]);
    JoinUnfolded([1, 1]);
    assert DecimalString(11) == "11";
    assert JoinGroups([11]) == "11";
    assert JoinGroups([1, 1]) == "11";
  }

  lemma UnfoldedBlockShape(k: nat)
    requires k >= 2
    ensures '.' !in UnfoldSprings(Block(k))
    ensures |UnfoldSprings(Block(k))| == 5 * k + 4
    ensures UnfoldSprings(Block(k))[0] == '#' && UnfoldSprings(Block(k))[1] == '#'
    ensures UnfoldSprings(Block(k))[5 * k + 3] == '#'
  {
    var b := Block(k);
    var x := b + ['?'];
    RepeatFour(x);
    assert '.' !in x;
    var u := UnfoldSprings(b);
    assert u == b + (['?'] + b + ['?'] + b + ['?'] + b + ['?'] + b);
    assert u[5 * k + 3] == b[k - 1];
  }

  lemma UnfoldedSingles()
    ensures UnfoldGroups([1, 1]) == [1, 1, 1, 1, 1, 1, 1, 1, 1, 1]
  {
    UnfoldShape([], [1, 1]);
  }

  /** Groups 1,1 repeated against k >= 2 damaged springs: the first group of one runs on. */
  lemma CollidingSinglesCount(k: nat)
    requires k >= 2
    ensures Arrangements(UnfoldSprings(Block(k)), UnfoldGroups([1, 1])) == 0
  {
    var u := UnfoldSprings(Block(k));
    UnfoldedBlockShape(k);
    NotWorkingNoWorking(u);
    UnfoldedSingles();
    var g := UnfoldGroups([1, 1]);
    assert GroupSum(g) == 10;
  }

  lemma ClosedBlockRunsAt(k: nat, x: seq<char>)
    requires k >= 1
    ensures Runs((Block(k) + ['.']) + x) == [k] + Runs(x)
  {
    ClosedBlockRuns(k);
  }

  lemma UnfoldedBlockRuns(k: nat)
    requires k >= 1
    ensures Runs((Block(k) + ['.']) + ((Block(k) + ['.']) + ((Block(k) + ['.']) + ((Block(k) + ['.']) + Block(k))))) == [k, k, k, k, k]
  {
    var b := Block(k);
    var w := b + ['.'];
    BlockRuns(k);
    ClosedBlockRunsAt(k, b);
    ClosedBlockRunsAt(k, w + b);
    ClosedBlockRunsAt(k, w + (w + b));
    ClosedBlockRunsAt(k, w + (w + (w + b)));
  }

  /** Making every joining `?` working completes the unfolded springs of a record without `?`. */
  lemma UnfoldedCompletion(s: seq<char>)
    requires '?' !in s
    ensures Completes((s + ['.']) + ((s + ['.']) + ((s + ['.']) + ((s + ['.']) + s))), UnfoldSprings(s))
  {
    var w := s + ['.'];
    var q := s + ['?'];
    RepeatFour(q);
    assert Completes(s, s);
    assert Completes(['.'], ['?']);
    CompletesAppend(s, s, ['.'], ['?']);
    CompletesAppend(w, q, s, s);
    CompletesAppend(w, q, w + s, q + s);
    CompletesAppend(w, q, w + (w + s), q + (q + s));
    CompletesAppend(w, q, w + (w + (w + s)), q + (q + (q + s)));
    assert q + q + q + q + s == q + (q + (q + (q + s)));
  }

  /** Groups k repeated against k damaged springs: every joining `?` working matches. */
  lemma CollidingBlocksCount(k: nat)
    requires k >= 1
    ensures Arrangements(UnfoldSprings(Block(k)), UnfoldGroups([k])) >= 1
  {
    var b := Block(k);
    var w := b + ['.'];
    var c := w + (w + (w + (w + b)));
    UnfoldedBlockRuns(k);
    UnfoldedCompletion(b);
    UnfoldShape([], [k]);
    assert [k] + [k] + [k] + [k] + [k] == [k, k, k, k, k];
    assert [] + c == c;
    BruteForceWitness([], UnfoldSprings(b), c, UnfoldGroups([k]));
    assert WellFormed(b);
    UnfoldKeepsShape(b, [k]);
    ArrangementsCountsCompletions(UnfoldSprings(b), UnfoldGroups([k]));
  }

  /**
    * Two records with springs `###########` and groups `11` and `1,1` unfold to the same key, yet
    * their counts differ: a cache keyed by the source's string answers one of them wrongly.
    */
  lemma SourceKeyCollision()
    ensures SourceKey(UnfoldSprings(Block(11)), UnfoldGroups([11])) == SourceKey(UnfoldSprings(Block(11)), UnfoldGroups([1, 1]))
    ensures Arrangements(UnfoldSprings(Block(11)), UnfoldGroups([11])) != Arrangements(UnfoldSprings(Block(11)), UnfoldGroups([1, 1]))
  {
    CollidingKeys();
    CollidingSinglesCount(11);
    CollidingBlocksCount(11);
  }

  lemma {:induction false} NotWorkingNoWorking(s: seq<char>)
    requires '.' !in s
    ensures NotWorkingCount(s) == |s|
  {
    if s != [] {
      assert s == [s[0]] + s[1..];
      NotWorkingNoWorking(s[1..]);
    }
  }
}
