/** Day 5: the almanac; seeds sent through a chain of piecewise-shift maps, point-wise (part 1)
    and as closed integer ranges by a cursor sweep (part 2). */
module Day5Almanac {
  import opened Common

  /** One map row `[targetRangeStart, sourceRangeStart, rangeLength]`. */
  datatype Entry = Entry(target: int, source: int, length: int)

  function SourceEnd(e: Entry): int
  {
    e.source + e.length - 1
  }

  function Delta(e: Entry): int
  {
    e.target - e.source
  }

  predicate Contains(e: Entry, x: int)
  {
    e.source <= x <= SourceEnd(e)
  }

  // ---------------------------------------------------------------------------
  // day5/puzzle1.js: point conversion
  // ---------------------------------------------------------------------------

  /** `convert(value, map)`: the first entry whose source interval holds the value shifts it. */
  function ConvertPoint(value: int, table: seq<Entry>): int
  {
    if table == [] then value
    else if Contains(table[0], value) then table[0].target + value - table[0].source
    else ConvertPoint(value, table[1..])
  }

  lemma {:induction false} ConvertPointFirstMatch(value: int, table: seq<Entry>, i: int)
    requires 0 <= i < |table| && Contains(table[i], value)
    requires forall k :: 0 <= k < i ==> !Contains(table[k], value)
    ensures ConvertPoint(value, table) == value + Delta(table[i])
  {
    if i > 0 {
      assert !Contains(table[0], value);
      ConvertPointFirstMatch(value, table[1..], i - 1);
    }
  }

  lemma {:induction false} ConvertPointNoMatch(value: int, table: seq<Entry>)
    requires forall k :: 0 <= k < |table| ==> !Contains(table[k], value)
    ensures ConvertPoint(value, table) == value
  {
    if table != [] {
      ConvertPointNoMatch(value, table[1..]);
    }
  }

  /** Two entries whose source intervals do not overlap. */
  predicate Apart(a: Entry, b: Entry)
  {
    SourceEnd(a) < b.source || SourceEnd(b) < a.source
  }

  /** Pairwise non-overlapping source intervals (entries at different positions). */
  predicate Disjoint(table: seq<Entry>)
  {
    forall i, k :: 0 <= i < |table| && 0 <= k < |table| && i != k ==> Apart(table[i], table[k])
  }

  predicate PositiveLengths(table: seq<Entry>)
  {
    forall i :: 0 <= i < |table| ==> table[i].length >= 1
  }

  /** With disjoint entries the value is shifted by the one entry that holds it. */
  lemma ConvertPointDisjoint(value: int, table: seq<Entry>, e: Entry)
    requires Disjoint(table) && e in table && Contains(e, value)
    ensures ConvertPoint(value, table) == value + Delta(e)
  {
    var i :| 0 <= i < |table| && table[i] == e;
    forall k | 0 <= k < i ensures !Contains(table[k], value) {
      assert Apart(table[k], table[i]);
    }
    ConvertPointFirstMatch(value, table, i);
  }

  /** With disjoint entries the order of the map entries does not matter. */
  lemma ConvertPointOrderIndependent(value: int, map1: seq<Entry>, map2: seq<Entry>)
    requires Disjoint(map1) && Disjoint(map2)
    requires forall e :: e in map1 <==> e in map2
    ensures ConvertPoint(value, map1) == ConvertPoint(value, map2)
  {
    if i :| 0 <= i < |map1| && Contains(map1[i], value) {
      ConvertPointDisjoint(value, map1, map1[i]);
      ConvertPointDisjoint(value, map2, map1[i]);
    } else {
      ConvertPointNoMatch(value, map1);
      forall k | 0 <= k < |map2| ensures !Contains(map2[k], value) {
        assert map2[k] in map1;
      }
      ConvertPointNoMatch(value, map2);
    }
  }

  /** `maps.reduce((value, map) => convert(value, map), seed)`: the maps in order. */
  function Locate(value: int, maps: seq<seq<Entry>>): int
  {
    if maps == [] then value else ConvertPoint(Locate(value, maps[..|maps| - 1]), maps[|maps| - 1])
  }

  function Locations(seeds: seq<int>, maps: seq<seq<Entry>>): seq<int>
  {
    seq(|seeds|, i requires 0 <= i < |seeds| => Locate(seeds[i], maps))
  }

  /** day5/puzzle1.js solve: `Math.min` over the seed locations (None for the Infinity that
      `Math.min()` gives without seeds). */
  function SolvePart1(seeds: seq<int>, maps: seq<seq<Entry>>): (lowest: Option<int>)
    ensures lowest.None? <==> seeds == []
    ensures lowest.Some? ==> exists i :: 0 <= i < |seeds| && lowest.value == Locate(seeds[i], maps)
    ensures lowest.Some? ==> forall i :: 0 <= i < |seeds| ==> lowest.value <= Locate(seeds[i], maps)
  {
    if seeds == [] then None
    else
      var locations := Locations(seeds, maps);
      var m := MinOf(locations);
      assert forall i :: 0 <= i < |seeds| ==> locations[i] == Locate(seeds[i], maps);
      Some(m)
  }

  // ---------------------------------------------------------------------------
  // day5/puzzle2.js: sorting a map by source start
  // ---------------------------------------------------------------------------

  predicate SortedBySource(table: seq<Entry>)
  {
    forall i, k :: 0 <= i < k < |table| ==> table[i].source <= table[k].source
  }

  function InsertBySource(e: Entry, sorted: seq<Entry>): (r: seq<Entry>)
    ensures multiset(r) == multiset(sorted) + multiset{e}
    ensures |r| == |sorted| + 1 && (r[0] == e || (|sorted| > 0 && r[0] == sorted[0]))
  {
    if sorted == [] || e.source <= sorted[0].source then [e] + sorted
    else
      assert sorted == [sorted[0]] + sorted[1..];
      [sorted[0]] + InsertBySource(e, sorted[1..])
  }

  /** Inserting into a sorted map keeps it sorted. */
  lemma {:induction false} InsertKeepsSorted(e: Entry, sorted: seq<Entry>)
    requires SortedBySource(sorted)
    ensures SortedBySource(InsertBySource(e, sorted))
  {
    if !(sorted == [] || e.source <= sorted[0].source) {
      var tail := sorted[1..];
      InsertKeepsSorted(e, tail);
      var rest := InsertBySource(e, tail);
      var r := [sorted[0]] + rest;
      assert r == InsertBySource(e, sorted);
      assert sorted[0].source <= rest[0].source;
      forall i, k | 0 <= i < k < |r| ensures r[i].source <= r[k].source {
        if i == 0 {
          assert rest[0].source <= rest[k - 1].source;
        } else {
          assert r[i] == rest[i - 1] && r[k] == rest[k - 1];
        }
      }
    }
  }

  /** `map.toSorted((r1, r2) => r1[1] - r2[1])`, as an insertion sort: the order of entries with
      equal source starts is not modelled. */
  function SortBySource(table: seq<Entry>): (r: seq<Entry>)
    ensures multiset(r) == multiset(table)
    ensures SortedBySource(r)
  {
    if table == [] then []
    else
      assert table == table[..|table| - 1] + [table[|table| - 1]];
      InsertKeepsSorted(table[|table| - 1], SortBySource(table[..|table| - 1]));
      InsertBySource(table[|table| - 1], SortBySource(table[..|table| - 1]))
  }

  /** Putting an entry apart from all others in front keeps the entries disjoint. */
  lemma PrependKeepsDisjoint(e: Entry, rest: seq<Entry>)
    requires Disjoint(rest)
    requires forall x :: x in rest ==> Apart(e, x)
    ensures Disjoint([e] + rest)
  {
    var r := [e] + rest;
    forall i, k | 0 <= i < |r| && 0 <= k < |r| && i != k ensures Apart(r[i], r[k]) {
      if i == 0 {
        assert r[k] == rest[k - 1] && r[k] in rest;
      } else if k == 0 {
        assert r[i] == rest[i - 1] && r[i] in rest;
      } else {
        assert r[i] == rest[i - 1] && r[k] == rest[k - 1];
      }
    }
  }

  lemma {:induction false} InsertKeepsDisjoint(e: Entry, sorted: seq<Entry>)
    requires Disjoint(sorted)
    requires forall x :: x in sorted ==> Apart(e, x)
    ensures Disjoint(InsertBySource(e, sorted))
  {
    if sorted == [] || e.source <= sorted[0].source {
      PrependKeepsDisjoint(e, sorted);
    } else {
      var tail := sorted[1..];
      assert Disjoint(tail) by {
        assert forall k :: 0 <= k < |tail| ==> tail[k] == sorted[k + 1];
      }
      InsertKeepsDisjoint(e, tail);
      var rest := InsertBySource(e, tail);
      forall x | x in rest ensures Apart(sorted[0], x) {
        assert x in multiset(rest);
        if x == e {
          assert sorted[0] in sorted;
        } else {
          var k :| 0 <= k < |tail| && tail[k] == x;
          assert sorted[k + 1] == x;
        }
      }
      PrependKeepsDisjoint(sorted[0], rest);
    }
  }

  lemma {:induction false} SortKeepsDisjoint(table: seq<Entry>)
    requires Disjoint(table)
    ensures Disjoint(SortBySource(table))
  {
    if table != [] {
      var init := table[..|table| - 1];
      var last := table[|table| - 1];
      assert Disjoint(init);
      SortKeepsDisjoint(init);
      forall x | x in SortBySource(init) ensures Apart(last, x) {
        assert x in multiset(SortBySource(init));
        var k :| 0 <= k < |init| && init[k] == x;
        assert table[k] == x;
      }
      InsertKeepsDisjoint(last, SortBySource(init));
    }
  }

  /** Sorting keeps exactly the entries of the map. */
  lemma SortKeepsEntries(table: seq<Entry>)
    ensures forall e :: e in SortBySource(table) <==> e in table
  {
    forall e ensures e in SortBySource(table) <==> e in table {
      assert e in SortBySource(table) <==> e in multiset(SortBySource(table));
    }
  }

  /** Sorted, disjoint and non-empty: each entry ends before the next begins. */
  predicate SortedApart(table: seq<Entry>)
  {
    forall i, k :: 0 <= i < k < |table| ==> SourceEnd(table[i]) < table[k].source
  }

  /** What a well-formed almanac map guarantees: disjoint source intervals of positive length. */
  predicate ValidMap(table: seq<Entry>)
  {
    Disjoint(table) && PositiveLengths(table)
  }

  lemma SortedMapApart(table: seq<Entry>)
    requires ValidMap(table)
    ensures PositiveLengths(SortBySource(table))
    ensures SortedApart(SortBySource(table))
    ensures Disjoint(SortBySource(table))
  {
    var s := SortBySource(table);
    SortKeepsDisjoint(table);
    SortKeepsEntries(table);
    forall i | 0 <= i < |s| ensures s[i].length >= 1 {
      assert s[i] in table;
    }
    forall i, k | 0 <= i < k < |s| ensures SourceEnd(s[i]) < s[k].source {
      assert Apart(s[i], s[k]);
    }
  }

  // ---------------------------------------------------------------------------
  // day5/puzzle2.js: range conversion
  // ---------------------------------------------------------------------------

  /** A closed interval `[left, right]`. */
  datatype Range = Range(lo: int, hi: int)

  predicate Intersects(e: Entry, left: int, right: int)
  {
    SourceEnd(e) >= left && e.source <= right
  }

  /** `map.filter(...)`: the entries whose source interval meets `[left, right]`, in map order. */
  function Intersecting(table: seq<Entry>, left: int, right: int): (r: seq<Entry>)
    ensures forall k :: 0 <= k < |r| ==> Intersects(r[k], left, right) && r[k] in table
    ensures forall e :: e in table && Intersects(e, left, right) ==> e in r
  {
    if table == [] then []
    else
      var init := table[..|table| - 1];
      var last := table[|table| - 1];
      assert table == init + [last];
      Intersecting(init, left, right) + (if Intersects(last, left, right) then [last] else [])
  }

  lemma {:induction false} IntersectingSortedApart(table: seq<Entry>, left: int, right: int)
    requires SortedApart(table)
    ensures SortedApart(Intersecting(table, left, right))
  {
    if table != [] {
      var init := table[..|table| - 1];
      var last := table[|table| - 1];
      IntersectingSortedApart(init, left, right);
      var r := Intersecting(table, left, right);
      var front := Intersecting(init, left, right);
      forall i, k | 0 <= i < k < |r| ensures SourceEnd(r[i]) < r[k].source {
        if k >= |front| {
          assert r[i] == front[i] && r[i] in init;
          var q :| 0 <= q < |init| && init[q] == r[i];
          assert table[q] == r[i] && r[k] == table[|table| - 1];
        } else {
          assert r[i] == front[i] && r[k] == front[k];
        }
      }
    }
  }

  /** The state of the forEach over the intersecting entries: ranges pushed and the cursor. */
  datatype Sweep = Sweep(out: seq<Range>, cursor: int)

  /** One entry: push the uncovered gap before it, then the shifted overlap, and move on. */
  function SweepStep(st: Sweep, e: Entry, right: int): Sweep
  {
    var gapOut := if st.cursor < e.source then st.out + [Range(st.cursor, e.source - 1)] else st.out;
    var start := if st.cursor < e.source then e.source else st.cursor;
    var intersectionEnd := Min(right, SourceEnd(e));
    Sweep(gapOut + [Range(start + Delta(e), intersectionEnd + Delta(e))], intersectionEnd + 1)
  }

  function SweepAll(entries: seq<Entry>, left: int, right: int): Sweep
  {
    if entries == [] then Sweep([], left)
    else SweepStep(SweepAll(entries[..|entries| - 1], left, right), entries[|entries| - 1], right)
  }

  /** The ranges one input range becomes: the sweep plus the uncovered trailing part. */
  function ConvertRange(range: Range, table: seq<Entry>): seq<Range>
  {
    var st := SweepAll(Intersecting(table, range.lo, range.hi), range.lo, range.hi);
    st.out + (if st.cursor <= range.hi then [Range(st.cursor, range.hi)] else [])
  }

  function ConvertRanges(ranges: seq<Range>, table: seq<Entry>): seq<Range>
  {
    if ranges == [] then []
    else ConvertRanges(ranges[..|ranges| - 1], table) + ConvertRange(ranges[|ranges| - 1], table)
  }

  /** The forEach callback of day5/puzzle2.js convert for one range: the cursor sweep. */
  method ConvertOne(range: Range, table: seq<Entry>) returns (pushed: seq<Range>)
    ensures pushed == ConvertRange(range, table)
  {
    var left, right := range.lo, range.hi;
    var intersectingMapRanges := Intersecting(table, left, right);
    pushed := [];
    var currentPosition := left;
    for j := 0 to |intersectingMapRanges|
      invariant pushed == SweepAll(intersectingMapRanges[..j], left, right).out
      invariant currentPosition == SweepAll(intersectingMapRanges[..j], left, right).cursor
    {
      var e := intersectingMapRanges[j];
      assert intersectingMapRanges[..j + 1][..j] == intersectingMapRanges[..j];
      var sourceRangeEnd := e.source + e.length - 1;
      var delta := e.target - e.source;
      if currentPosition < e.source {
        pushed := pushed + [Range(currentPosition, e.source - 1)];
        currentPosition := e.source;
      }
      var intersectionRangeStart := currentPosition;
      var intersectionRangeEnd := Min(right, sourceRangeEnd);
      pushed := pushed + [Range(intersectionRangeStart + delta, intersectionRangeEnd + delta)];
      currentPosition := intersectionRangeEnd + 1;
    }
    assert intersectingMapRanges[..|intersectingMapRanges|] == intersectingMapRanges;
    if currentPosition <= right {
      pushed := pushed + [Range(currentPosition, right)];
    }
  }

  /** day5/puzzle2.js convert: every range's pieces, in range order. */
  method Convert(ranges: seq<Range>, table: seq<Entry>) returns (convertedRanges: seq<Range>)
    ensures convertedRanges == ConvertRanges(ranges, table)
  {
    convertedRanges := [];
    for i := 0 to |ranges|
      invariant convertedRanges == ConvertRanges(ranges[..i], table)
    {
      var pushed := ConvertOne(ranges[i], table);
      convertedRanges := convertedRanges + pushed;
      assert ranges[..i + 1][..i] == ranges[..i];
    }
    assert ranges[..|ranges|] == ranges;
  }

  // ---------------------------------------------------------------------------
  // Range conversion agrees with point conversion
  // ---------------------------------------------------------------------------

  /** Some range of the list holds y. */
  ghost predicate Covers(ranges: seq<Range>, y: int)
  {
    exists k :: 0 <= k < |ranges| && ranges[k].lo <= y <= ranges[k].hi
  }

  predicate NonEmpty(ranges: seq<Range>)
  {
    forall k :: 0 <= k < |ranges| ==> ranges[k].lo <= ranges[k].hi
  }

  /** The number of integers in the ranges, counted with multiplicity. */
  function TotalLength(ranges: seq<Range>): int
  {
    if ranges == [] then 0
    else TotalLength(ranges[..|ranges| - 1]) + ranges[|ranges| - 1].hi - ranges[|ranges| - 1].lo + 1
  }

  lemma CoversAppend(ranges: seq<Range>, extra: seq<Range>, y: int)
    ensures Covers(ranges + extra, y) <==> Covers(ranges, y) || Covers(extra, y)
  {
    var all := ranges + extra;
    if Covers(all, y) {
      var k :| 0 <= k < |all| && all[k].lo <= y <= all[k].hi;
      if k >= |ranges| {
        assert extra[k - |ranges|] == all[k];
      } else {
        assert ranges[k] == all[k];
      }
    }
    if Covers(ranges, y) {
      var k :| 0 <= k < |ranges| && ranges[k].lo <= y <= ranges[k].hi;
      assert all[k] == ranges[k];
    }
    if Covers(extra, y) {
      var k :| 0 <= k < |extra| && extra[k].lo <= y <= extra[k].hi;
      assert all[k + |ranges|] == extra[k];
    }
  }

  lemma {:induction false} TotalLengthAppend(ranges: seq<Range>, extra: seq<Range>)
    ensures TotalLength(ranges + extra) == TotalLength(ranges) + TotalLength(extra)
  {
    if extra == [] {
      assert ranges + extra == ranges;
    } else {
      assert (ranges + extra)[..|ranges + extra| - 1] == ranges + extra[..|extra| - 1];
      TotalLengthAppend(ranges, extra[..|extra| - 1]);
    }
  }

  /** `left <= x < cursor`, named so that it can serve as a trigger. */
  predicate InSpan(x: int, left: int, cursor: int)
  {
    left <= x < cursor
  }

  /** The pushed ranges hold exactly the images of `[left, cursor)` under the map, once each. */
  ghost predicate ImagesOfPrefix(table: seq<Entry>, left: int, cursor: int, out: seq<Range>)
  {
    && NonEmpty(out)
    && TotalLength(out) == cursor - left
    && (forall x {:trigger InSpan(x, left, cursor)} :: InSpan(x, left, cursor) ==> Covers(out, ConvertPoint(x, table)))
    && (forall y :: Covers(out, y) ==> exists x :: left <= x < cursor && ConvertPoint(x, table) == y)
  }

  /** Pushing `[cursor, b]` shifted by d, where the map shifts each of those points by d. */
  lemma ImagesExtend(table: seq<Entry>, left: int, cursor: int, out: seq<Range>, b: int, d: int)
    requires ImagesOfPrefix(table, left, cursor, out)
    requires left <= cursor <= b
    requires forall x :: cursor <= x <= b ==> ConvertPoint(x, table) == x + d
    ensures ImagesOfPrefix(table, left, b + 1, out + [Range(cursor + d, b + d)])
  {
    var piece := [Range(cursor + d, b + d)];
    var out' := out + piece;
    TotalLengthAppend(out, piece);
    assert TotalLength(piece) == b - cursor + 1 by {
      assert piece[..0] == [];
    }
    forall k | 0 <= k < |out'| ensures out'[k].lo <= out'[k].hi {
      if k < |out| {
        assert out'[k] == out[k];
      }
    }
    forall x | InSpan(x, left, b + 1) ensures Covers(out', ConvertPoint(x, table)) {
      CoversAppend(out, piece, ConvertPoint(x, table));
      if x < cursor {
        assert InSpan(x, left, cursor);
      } else {
        assert piece[0].lo <= ConvertPoint(x, table) <= piece[0].hi;
      }
    }
    forall y | Covers(out', y) ensures exists x :: left <= x < b + 1 && ConvertPoint(x, table) == y {
      CoversAppend(out, piece, y);
      if !Covers(out, y) {
        var k :| 0 <= k < |piece| && piece[k].lo <= y <= piece[k].hi;
        assert ConvertPoint(y - d, table) == y;
      }
    }
  }

  /** A point of `[left, right]` at or after the cursor that no later entry holds lies in no
      entry of the map at all. */
  lemma UncoveredPoint(table: seq<Entry>, es: seq<Entry>, left: int, right: int, j: int, x: int)
    requires PositiveLengths(table) && es == Intersecting(table, left, right) && SortedApart(es)
    requires 0 <= j <= |es| && left <= x <= right
    requires forall k :: 0 <= k < j ==> !Contains(es[k], x)
    requires j < |es| ==> x < es[j].source
    ensures ConvertPoint(x, table) == x
  {
    forall q | 0 <= q < |table| ensures !Contains(table[q], x) {
      if Intersects(table[q], left, right) {
        var k :| 0 <= k < |es| && es[k] == table[q];
        if k > j {
          assert SourceEnd(es[j]) < es[k].source;
          assert es[j] in table;
          var p :| 0 <= p < |table| && table[p] == es[j];
          assert es[j].length >= 1;
        }
      }
    }
    ConvertPointNoMatch(x, table);
  }

  lemma SortedApartDisjoint(table: seq<Entry>)
    requires SortedApart(table)
    ensures Disjoint(table)
  {
    forall a, b | 0 <= a < |table| && 0 <= b < |table| && a != b ensures Apart(table[a], table[b]) {
      if a < b {
        assert SourceEnd(table[a]) < table[b].source;
      } else {
        assert SourceEnd(table[b]) < table[a].source;
      }
    }
  }

  /** Where the cursor stands after the sweep has handled the first j intersecting entries `es`. */
  ghost predicate CursorInvariant(es: seq<Entry>, left: int, right: int, j: int, st: Sweep)
    requires 0 <= j <= |es|
  {
    && left <= st.cursor <= right + 1
    && (j < |es| ==> st.cursor <= right && st.cursor <= SourceEnd(es[j]))
    && (forall k, x :: 0 <= k < j && st.cursor <= x <= right ==> !Contains(es[k], x))
  }

  ghost predicate SweepInvariant(table: seq<Entry>, es: seq<Entry>, left: int, right: int, j: int, st: Sweep)
    requires 0 <= j <= |es|
  {
    CursorInvariant(es, left, right, j, st) && ImagesOfPrefix(table, left, st.cursor, st.out)
  }

  /** The gap before entry i: pushed unchanged, because no entry holds any of its points. */
  lemma GapKeepsImages(table: seq<Entry>, es: seq<Entry>, left: int, right: int, i: int, st: Sweep)
    requires PositiveLengths(table) && es == Intersecting(table, left, right) && SortedApart(es)
    requires 0 <= i < |es| && SweepInvariant(table, es, left, right, i, st)
    requires st.cursor < es[i].source
    ensures ImagesOfPrefix(table, left, es[i].source, st.out + [Range(st.cursor, es[i].source - 1)])
  {
    var e := es[i];
    assert Intersects(e, left, right);
    forall x | st.cursor <= x < e.source ensures ConvertPoint(x, table) == x {
      UncoveredPoint(table, es, left, right, i, x);
    }
    ImagesExtendUnchanged(table, left, st.cursor, st.out, e.source);
  }

  /** Pushing `[cursor, hi - 1]` unchanged, where the map moves none of those points. */
  lemma ImagesExtendUnchanged(table: seq<Entry>, left: int, cursor: int, out: seq<Range>, hi: int)
    requires ImagesOfPrefix(table, left, cursor, out)
    requires left <= cursor < hi
    requires forall x :: cursor <= x < hi ==> ConvertPoint(x, table) == x
    ensures ImagesOfPrefix(table, left, hi, out + [Range(cursor, hi - 1)])
  {
    ImagesExtend(table, left, cursor, out, hi - 1, 0);
    assert [Range(cursor + 0, hi - 1 + 0)] == [Range(cursor, hi - 1)];
    ImagesTransport(table, left, hi - 1 + 1, out + [Range(cursor + 0, hi - 1 + 0)], hi, out + [Range(cursor, hi - 1)]);
  }

  /** The overlap with entry e: pushed shifted by its delta, because e holds all its points. */
  lemma OverlapKeepsImages(table: seq<Entry>, left: int, right: int, start: int, mid: seq<Range>, e: Entry)
    requires SortedApart(table) && e in table && left <= start <= right
    requires e.source <= start <= SourceEnd(e)
    requires ImagesOfPrefix(table, left, start, mid)
    ensures ImagesOfPrefix(table, left, Min(right, SourceEnd(e)) + 1,
      mid + [Range(start + Delta(e), Min(right, SourceEnd(e)) + Delta(e))])
  {
    var intersectionEnd := Min(right, SourceEnd(e));
    SortedApartDisjoint(table);
    forall x | start <= x <= intersectionEnd ensures ConvertPoint(x, table) == x + Delta(e) {
      ConvertPointDisjoint(x, table, e);
    }
    ImagesExtend(table, left, start, mid, intersectionEnd, Delta(e));
  }

  lemma SweepStepCursor(table: seq<Entry>, es: seq<Entry>, left: int, right: int, i: int, st: Sweep)
    requires PositiveLengths(table) && left <= right
    requires es == Intersecting(table, left, right) && SortedApart(es)
    requires 0 <= i < |es| && CursorInvariant(es, left, right, i, st)
    ensures CursorInvariant(es, left, right, i + 1, SweepStep(st, es[i], right))
  {
    var e := es[i];
    assert e in table && Intersects(e, left, right);
    var p :| 0 <= p < |table| && table[p] == e;
    assert e.length >= 1;
    var st' := SweepStep(st, e, right);
    if i + 1 < |es| {
      assert SourceEnd(es[i]) < es[i + 1].source;
      assert Intersects(es[i + 1], left, right);
      assert es[i + 1] in table;
      var q :| 0 <= q < |table| && table[q] == es[i + 1];
      assert st'.cursor <= SourceEnd(es[i + 1]);
    }
  }

  /** A step over a gap is the gap pushed, then a step starting at the entry's source. */
  lemma SweepStepGapSplit(st: Sweep, e: Entry, right: int)
    requires st.cursor < e.source
    ensures SweepStep(st, e, right) == SweepStep(Sweep(st.out + [Range(st.cursor, e.source - 1)], e.source), e, right)
  {
  }

  lemma SweepStepNoGap(st: Sweep, e: Entry, right: int)
    requires e.source <= st.cursor
    ensures SweepStep(st, e, right)
      == Sweep(st.out + [Range(st.cursor + Delta(e), Min(right, SourceEnd(e)) + Delta(e))], Min(right, SourceEnd(e)) + 1)
  {
  }

  lemma StepImagesWithGap(table: seq<Entry>, es: seq<Entry>, left: int, right: int, i: int, st: Sweep)
    requires SortedApart(table) && PositiveLengths(table) && left <= right
    requires es == Intersecting(table, left, right) && SortedApart(es)
    requires 0 <= i < |es| && SweepInvariant(table, es, left, right, i, st)
    requires st.cursor < es[i].source
    ensures ImagesOfPrefix(table, left, SweepStep(st, es[i], right).cursor, SweepStep(st, es[i], right).out)
  {
    assert es[i] in table && Intersects(es[i], left, right);
    var p :| 0 <= p < |table| && table[p] == es[i];
    assert es[i].length >= 1;
    GapKeepsImages(table, es, left, right, i, st);
    SweepStepGapSplit(st, es[i], right);
    OverlapImages(table, left, right, es[i].source, st.out + [Range(st.cursor, es[i].source - 1)], es[i]);
    ImagesTransport(table, left,
      SweepStep(Sweep(st.out + [Range(st.cursor, es[i].source - 1)], es[i].source), es[i], right).cursor,
      SweepStep(Sweep(st.out + [Range(st.cursor, es[i].source - 1)], es[i].source), es[i], right).out,
      SweepStep(st, es[i], right).cursor, SweepStep(st, es[i], right).out);
  }

  /** ImagesOfPrefix at equal arguments, stated so that callers need not unfold it. */
  lemma ImagesTransport(table: seq<Entry>, left: int, cursor: int, out: seq<Range>, cursor': int, out': seq<Range>)
    requires cursor == cursor' && out == out' && ImagesOfPrefix(table, left, cursor, out)
    ensures ImagesOfPrefix(table, left, cursor', out')
  {
  }

  lemma StepImagesWithoutGap(table: seq<Entry>, left: int, right: int, st: Sweep, e: Entry)
    requires SortedApart(table) && e in table
    requires left <= st.cursor <= right && e.source <= st.cursor <= SourceEnd(e)
    requires ImagesOfPrefix(table, left, st.cursor, st.out)
    ensures ImagesOfPrefix(table, left, SweepStep(st, e, right).cursor, SweepStep(st, e, right).out)
  {
    OverlapImages(table, left, right, st.cursor, st.out, e);
  }

  /** The step that starts inside entry e pushes the overlap with e shifted by its delta. */
  lemma OverlapImages(table: seq<Entry>, left: int, right: int, cursor: int, out: seq<Range>, e: Entry)
    requires SortedApart(table) && e in table
    requires left <= cursor <= right && e.source <= cursor <= SourceEnd(e)
    requires ImagesOfPrefix(table, left, cursor, out)
    ensures ImagesOfPrefix(table, left, SweepStep(Sweep(out, cursor), e, right).cursor, SweepStep(Sweep(out, cursor), e, right).out)
  {
    OverlapKeepsImages(table, left, right, cursor, out, e);
    SweepStepNoGap(Sweep(out, cursor), e, right);
    ImagesTransport(table, left,
      Min(right, SourceEnd(e)) + 1, out + [Range(cursor + Delta(e), Min(right, SourceEnd(e)) + Delta(e))],
      SweepStep(Sweep(out, cursor), e, right).cursor, SweepStep(Sweep(out, cursor), e, right).out);
  }

  lemma SweepStepKeeps(table: seq<Entry>, es: seq<Entry>, left: int, right: int, i: int, st: Sweep)
    requires SortedApart(table) && PositiveLengths(table) && left <= right
    requires es == Intersecting(table, left, right) && SortedApart(es)
    requires 0 <= i < |es| && SweepInvariant(table, es, left, right, i, st)
    ensures SweepInvariant(table, es, left, right, i + 1, SweepStep(st, es[i], right))
  {
    SweepStepCursor(table, es, left, right, i, st);
    if st.cursor < es[i].source {
      StepImagesWithGap(table, es, left, right, i, st);
    } else {
      assert es[i] in table;
      StepImagesWithoutGap(table, left, right, st, es[i]);
    }
  }

  lemma {:induction false} SweepInvariantHolds(table: seq<Entry>, es: seq<Entry>, left: int, right: int, j: int)
    requires SortedApart(table) && PositiveLengths(table) && left <= right
    requires es == Intersecting(table, left, right) && SortedApart(es)
    requires 0 <= j <= |es|
    ensures SweepInvariant(table, es, left, right, j, SweepAll(es[..j], left, right))
  {
    if j == 0 {
      assert es[..0] == [];
      if 0 < |es| {
        assert Intersects(es[0], left, right);
      }
    } else {
      SweepInvariantHolds(table, es, left, right, j - 1);
      assert es[..j][..j - 1] == es[..j - 1];
      assert es[..j][j - 1] == es[j - 1];
      SweepStepKeeps(table, es, left, right, j - 1, SweepAll(es[..j - 1], left, right));
    }
  }

  /** The uncovered trailing part: no entry holds any of its points. */
  lemma TailKeepsImages(table: seq<Entry>, es: seq<Entry>, left: int, right: int, st: Sweep)
    requires PositiveLengths(table) && es == Intersecting(table, left, right) && SortedApart(es)
    requires SweepInvariant(table, es, left, right, |es|, st) && st.cursor <= right
    ensures ImagesOfPrefix(table, left, right + 1, st.out + [Range(st.cursor, right)])
  {
    forall x | st.cursor <= x <= right ensures ConvertPoint(x, table) == x + 0 {
      UncoveredPoint(table, es, left, right, |es|, x);
    }
    ImagesExtend(table, left, st.cursor, st.out, right, 0);
  }

  /** One range with low <= high becomes ranges holding exactly the images of its points under
      the map, each once, and as many integers as it held. */
  lemma ConvertRangeImages(range: Range, table: seq<Entry>)
    requires SortedApart(table) && PositiveLengths(table) && range.lo <= range.hi
    ensures ImagesOfPrefix(table, range.lo, range.hi + 1, ConvertRange(range, table))
  {
    var left, right := range.lo, range.hi;
    var es := Intersecting(table, left, right);
    IntersectingSortedApart(table, left, right);
    SweepInvariantHolds(table, es, left, right, |es|);
    assert es[..|es|] == es;
    var st := SweepAll(es, left, right);
    if st.cursor <= right {
      assert ConvertRange(range, table) == st.out + [Range(st.cursor, right)];
      TailKeepsImages(table, es, left, right, st);
    } else {
      assert ConvertRange(range, table) == st.out;
    }
  }

  /** The whole output of one map stage for many ranges. */
  ghost predicate ImageOf(table: seq<Entry>, ranges: seq<Range>, out: seq<Range>)
  {
    && NonEmpty(out)
    && TotalLength(out) == TotalLength(ranges)
    && (forall x {:trigger Covers(ranges, x)} :: Covers(ranges, x) ==> Covers(out, ConvertPoint(x, table)))
    && (forall y :: Covers(out, y) ==> exists x, k ::
          0 <= k < |ranges| && ranges[k].lo <= x <= ranges[k].hi && ConvertPoint(x, table) == y)
  }

  lemma CoveredPointsMapped(table: seq<Entry>, init: seq<Range>, last: Range, front: seq<Range>, piece: seq<Range>)
    requires ImageOf(table, init, front) && ImagesOfPrefix(table, last.lo, last.hi + 1, piece)
    ensures forall x {:trigger Covers(init + [last], x)} :: Covers(init + [last], x) ==> Covers(front + piece, ConvertPoint(x, table))
  {
    forall x | Covers(init + [last], x) ensures Covers(front + piece, ConvertPoint(x, table)) {
      CoversAppend(init, [last], x);
      CoversAppend(front, piece, ConvertPoint(x, table));
      if !Covers(init, x) {
        assert [last][0] == last;
        assert InSpan(x, last.lo, last.hi + 1);
      }
    }
  }

  lemma MappedPointCovered(table: seq<Entry>, ranges: seq<Range>, init: seq<Range>, last: Range, front: seq<Range>, piece: seq<Range>, y: int)
    requires ranges == init + [last]
    requires ImageOf(table, init, front) && ImagesOfPrefix(table, last.lo, last.hi + 1, piece)
    requires Covers(front + piece, y)
    ensures exists x, k :: 0 <= k < |ranges| && ranges[k].lo <= x <= ranges[k].hi && ConvertPoint(x, table) == y
  {
    CoversAppend(front, piece, y);
    if Covers(front, y) {
      var x, k :| 0 <= k < |init| && init[k].lo <= x <= init[k].hi && ConvertPoint(x, table) == y;
      assert ranges[k] == init[k];
      assert 0 <= k < |ranges| && ranges[k].lo <= x <= ranges[k].hi && ConvertPoint(x, table) == y;
    } else {
      var x :| last.lo <= x < last.hi + 1 && ConvertPoint(x, table) == y;
      var k := |ranges| - 1;
      assert ranges[k] == last;
      assert 0 <= k < |ranges| && ranges[k].lo <= x <= ranges[k].hi && ConvertPoint(x, table) == y;
    }
  }

  lemma ImageOfAppend(table: seq<Entry>, init: seq<Range>, last: Range, front: seq<Range>, piece: seq<Range>)
    requires last.lo <= last.hi
    requires ImageOf(table, init, front) && ImagesOfPrefix(table, last.lo, last.hi + 1, piece)
    ensures ImageOf(table, init + [last], front + piece)
  {
    var out := front + piece;
    TotalLengthAppend(front, piece);
    assert (init + [last])[..|init|] == init;
    forall k | 0 <= k < |out| ensures out[k].lo <= out[k].hi {
      if k < |front| {
        assert out[k] == front[k];
      } else {
        assert out[k] == piece[k - |front|];
      }
    }
    CoveredPointsMapped(table, init, last, front, piece);
    forall y | Covers(out, y) ensures exists x, k ::
      0 <= k < |init + [last]| && (init + [last])[k].lo <= x <= (init + [last])[k].hi && ConvertPoint(x, table) == y
    {
      MappedPointCovered(table, init + [last], init, last, front, piece, y);
    }
  }

  lemma {:induction false} ConvertRangesImages(ranges: seq<Range>, table: seq<Entry>)
    requires SortedApart(table) && PositiveLengths(table) && NonEmpty(ranges)
    ensures ImageOf(table, ranges, ConvertRanges(ranges, table))
  {
    if ranges != [] {
      var init := ranges[..|ranges| - 1];
      var last := ranges[|ranges| - 1];
      assert ranges == init + [last];
      ConvertRangesImages(init, table);
      ConvertRangeImages(last, table);
      ImageOfAppend(table, init, last, ConvertRanges(init, table), ConvertRange(last, table));
    }
  }

  // ---------------------------------------------------------------------------
  // day5/puzzle2.js solve: seed ranges through every sorted map
  // ---------------------------------------------------------------------------

  /** Each seed pair `(start, length)` becomes `[start, start + length - 1]`; an odd trailing
      number is dropped, as `Array.from({ length: seeds.length / 2 })` does. */
  function SeedRanges(seeds: seq<int>): seq<Range>
  {
    seq(|seeds| / 2, i requires 0 <= i < |seeds| / 2 => Range(seeds[2 * i], seeds[2 * i] + seeds[2 * i + 1] - 1))
  }

  /** The seed ranges hold exactly the seeds `start <= x < start + length` of some pair. */
  lemma SeedRangesCover(seeds: seq<int>, x: int)
    ensures Covers(SeedRanges(seeds), x) <==>
      exists i :: 0 <= i < |seeds| / 2 && seeds[2 * i] <= x < seeds[2 * i] + seeds[2 * i + 1]
  {
    var r := SeedRanges(seeds);
    if i :| 0 <= i < |seeds| / 2 && seeds[2 * i] <= x < seeds[2 * i] + seeds[2 * i + 1] {
      assert r[i].lo <= x <= r[i].hi;
    }
  }

  /** `.map(toSorted).reduce(convert, seedRanges)`. */
  function Pipeline(ranges: seq<Range>, maps: seq<seq<Entry>>): seq<Range>
  {
    if maps == [] then ranges
    else ConvertRanges(Pipeline(ranges, maps[..|maps| - 1]), SortBySource(maps[|maps| - 1]))
  }

  /** `Math.min(...ranges.map((range) => range[0]))` (None for Infinity on no ranges). */
  function LowestStart(ranges: seq<Range>): Option<int>
  {
    if ranges == [] then None else Some(MinOf(seq(|ranges|, i requires 0 <= i < |ranges| => ranges[i].lo)))
  }

  /** On non-empty ranges the least lower bound is the least integer they hold. */
  lemma LowestStartIsLeast(ranges: seq<Range>)
    requires NonEmpty(ranges)
    ensures LowestStart(ranges).None? <==> ranges == []
    ensures LowestStart(ranges).Some? ==> Covers(ranges, LowestStart(ranges).value)
    ensures LowestStart(ranges).Some? ==> forall y :: Covers(ranges, y) ==> LowestStart(ranges).value <= y
  {
    if ranges != [] {
      var starts := seq(|ranges|, i requires 0 <= i < |ranges| => ranges[i].lo);
      var m := MinOf(starts);
      var k :| 0 <= k < |starts| && starts[k] == m;
      assert ranges[k].lo <= m <= ranges[k].hi;
      forall y | Covers(ranges, y) ensures m <= y {
        var q :| 0 <= q < |ranges| && ranges[q].lo <= y <= ranges[q].hi;
        assert starts[q] == ranges[q].lo;
      }
    }
  }

  lemma {:induction false} TotalLengthPositive(ranges: seq<Range>)
    requires NonEmpty(ranges)
    ensures TotalLength(ranges) >= |ranges|
  {
    if ranges != [] {
      TotalLengthPositive(ranges[..|ranges| - 1]);
    }
  }

  /** Every stage keeps the image property: the ranges after all maps hold exactly the locations
      of the integers the input ranges held, and as many of them. */
  lemma {:induction false} PipelineImages(ranges: seq<Range>, maps: seq<seq<Entry>>)
    requires NonEmpty(ranges)
    requires forall i :: 0 <= i < |maps| ==> ValidMap(maps[i])
    ensures NonEmpty(Pipeline(ranges, maps))
    ensures TotalLength(Pipeline(ranges, maps)) == TotalLength(ranges)
    ensures forall x :: Covers(ranges, x) ==> Covers(Pipeline(ranges, maps), Locate(x, maps))
    ensures forall y :: Covers(Pipeline(ranges, maps), y) ==> exists x :: Covers(ranges, x) && Locate(x, maps) == y
  {
    if maps != [] {
      var init := maps[..|maps| - 1];
      var table := maps[|maps| - 1];
      var sorted := SortBySource(table);
      PipelineImages(ranges, init);
      SortedMapApart(table);
      SortKeepsEntries(table);
      var mid := Pipeline(ranges, init);
      ConvertRangesImages(mid, sorted);
      forall x ensures ConvertPoint(x, sorted) == ConvertPoint(x, table) {
        ConvertPointOrderIndependent(x, sorted, table);
      }
      forall x | Covers(ranges, x) ensures Covers(Pipeline(ranges, maps), Locate(x, maps)) {
        assert Covers(mid, Locate(x, init));
      }
      forall y | Covers(Pipeline(ranges, maps), y) ensures exists x :: Covers(ranges, x) && Locate(x, maps) == y {
        var z :| Covers(mid, z) && ConvertPoint(z, sorted) == y;
        var x :| Covers(ranges, x) && Locate(x, init) == z;
        assert Locate(x, maps) == y;
      }
    }
  }

  /** day5/puzzle2.js solve. */
  method SolvePart2(seeds: seq<int>, maps: seq<seq<Entry>>) returns (lowest: Option<int>)
    ensures lowest == LowestStart(Pipeline(SeedRanges(seeds), maps))
  {
    var ranges := SeedRanges(seeds);
    for i := 0 to |maps|
      invariant ranges == Pipeline(SeedRanges(seeds), maps[..i])
    {
      assert maps[..i + 1][..i] == maps[..i];
      var sorted := SortBySource(maps[i]);
      ranges := Convert(ranges, sorted);
    }
    assert maps[..|maps|] == maps;
    lowest := LowestStart(ranges);
  }

  /** With positive seed lengths and well-formed maps, part 2 answers the least location of any
      seed in the seed ranges, as part 1 would for the seeds listed one by one. */
  lemma SolvePart2IsLowestLocation(seeds: seq<int>, maps: seq<seq<Entry>>)
    requires forall i :: 0 <= i < |seeds| / 2 ==> seeds[2 * i + 1] >= 1
    requires forall i :: 0 <= i < |maps| ==> ValidMap(maps[i])
    ensures var lowest := LowestStart(Pipeline(SeedRanges(seeds), maps));
      && (lowest.None? <==> |seeds| < 2)
      && (lowest.Some? ==> exists x :: Covers(SeedRanges(seeds), x) && Locate(x, maps) == lowest.value)
      && (lowest.Some? ==> forall x :: Covers(SeedRanges(seeds), x) ==> lowest.value <= Locate(x, maps))
  {
    var seedRanges := SeedRanges(seeds);
    assert NonEmpty(seedRanges);
    PipelineImages(seedRanges, maps);
    var out := Pipeline(seedRanges, maps);
    LowestStartIsLeast(out);
    PipelineEmptyIff(seedRanges, maps);
    SeedRangesEmpty(seeds);
    var lowest := LowestStart(out);
    if lowest.Some? {
      var y := lowest.value;
      var x :| Covers(seedRanges, x) && Locate(x, maps) == y;
    }
  }

  /** A lone trailing number makes no pair, so there are seed ranges exactly from two numbers on. */
  lemma SeedRangesEmpty(seeds: seq<int>)
    ensures SeedRanges(seeds) == [] <==> |seeds| < 2
  {
    assert |SeedRanges(seeds)| == |seeds| / 2;
  }

  /** The pipeline loses no range and makes none from nothing: empty exactly when its input is. */
  lemma PipelineEmptyIff(ranges: seq<Range>, maps: seq<seq<Entry>>)
    requires NonEmpty(ranges)
    requires forall i :: 0 <= i < |maps| ==> ValidMap(maps[i])
    ensures Pipeline(ranges, maps) == [] <==> ranges == []
  {
    PipelineImages(ranges, maps);
    var out := Pipeline(ranges, maps);
    TotalLengthPositive(ranges);
    TotalLengthPositive(out);
    if out == [] {
      assert TotalLength(out) == 0;
    }
    if ranges == [] {
      assert TotalLength(ranges) == 0;
    }
  }
}
