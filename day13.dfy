/** Day 13: point of incidence; the line of reflection of each pattern of ash and rocks, first as
    given and then with the one smudge that makes a new reflection line appear. */
module Day13PointOfIncidence {
  import opened Common

  /** A pattern, one string per row. */
  type Pattern = seq<seq<char>>

  /** At least one row, all rows as long as the first (`pattern[0].length` gives the width). */
  predicate Rectangular(p: Pattern)
  {
    |p| > 0 && forall i :: 0 <= i < |p| ==> |p[i]| == |p[0]|
  }

  // ---------------------------------------------------------------------------
  // Horizontal reflections
  // ---------------------------------------------------------------------------

  /** The i-th pair of rows around `row`, counted outwards, is equal. */
  predicate PairMatches(p: Pattern, row: int, i: int)
    requires 0 <= i && i < row && row + i < |p|
  {
    p[row - 1 - i] == p[row + i]
  }

  /** The first n mirrored pairs around `row` hold equal rows. */
  predicate MirroredPairs(p: Pattern, row: int, n: nat)
    requires 0 <= row <= |p| && n <= Min(row, |p| - row)
  {
    n == 0 || (MirroredPairs(p, row, n - 1) && PairMatches(p, row, n - 1))
  }

  /** The rows above `row` mirror the rows below it, as far as both sides reach. */
  predicate Reflects(p: Pattern, row: int)
    requires 0 <= row <= |p|
  {
    MirroredPairs(p, row, Min(row, |p| - row))
  }

  lemma {:induction false} MirroredPairsIff(p: Pattern, row: int, n: nat)
    requires 0 <= row <= |p| && n <= Min(row, |p| - row)
    ensures MirroredPairs(p, row, n) <==> forall i :: 0 <= i < n ==> PairMatches(p, row, i)
  {
    if n > 0 {
      MirroredPairsIff(p, row, n - 1);
    }
  }

  lemma ReflectsIff(p: Pattern, row: int)
    requires 0 <= row <= |p|
    ensures Reflects(p, row) <==> forall i :: 0 <= i < Min(row, |p| - row) ==> PairMatches(p, row, i)
  {
    MirroredPairsIff(p, row, Min(row, |p| - row));
  }

  /** hasHorizontalReflection: compares the mirrored row pairs, stopping at the first mismatch. */
  method HasHorizontalReflection(p: Pattern, row: int) returns (reflects: bool)
    requires 1 <= row < |p|
    ensures reflects == Reflects(p, row)
  {
    var numRowsToCheck := Min(row, |p| - row);
    for i := 0 to numRowsToCheck
      invariant MirroredPairs(p, row, i)
    {
      if p[row - 1 - i] != p[row + i] {
        assert !PairMatches(p, row, i);
        MirroredPairsIff(p, row, numRowsToCheck);
        return false;
      }
    }
    return true;
  }

  /** The least row in `[from, |p|)` other than `forbidden` that reflects. */
  function FirstReflection(p: Pattern, forbidden: Option<nat>, from: nat): Option<nat>
    decreases |p| - from
  {
    if from >= |p| then None
    else if forbidden != Some(from) && Reflects(p, from) then Some(from)
    else FirstReflection(p, forbidden, from + 1)
  }

  /** `row` is the least line of reflection other than `forbidden`. */
  predicate IsLeastLine(p: Pattern, forbidden: Option<nat>, row: int)
  {
    1 <= row < |p| && forbidden != Some(row) && Reflects(p, row) &&
    forall k :: 1 <= k < row && forbidden != Some(k) ==> !Reflects(p, k)
  }

  /** No line of reflection other than `forbidden`. */
  predicate NoLine(p: Pattern, forbidden: Option<nat>)
  {
    forall k :: 1 <= k < |p| && forbidden != Some(k) ==> !Reflects(p, k)
  }

  lemma {:induction false} FirstReflectionFrom(p: Pattern, forbidden: Option<nat>, from: nat)
    requires 1 <= from
    ensures match FirstReflection(p, forbidden, from)
      case Some(row) => from <= row < |p| && forbidden != Some(row) && Reflects(p, row) &&
        forall k :: from <= k < row && forbidden != Some(k) ==> !Reflects(p, k)
      case None => forall k :: from <= k < |p| && forbidden != Some(k) ==> !Reflects(p, k)
    decreases |p| - from
  {
    if from < |p| {
      FirstReflectionFrom(p, forbidden, from + 1);
    }
  }

  lemma FirstReflectionIsLeast(p: Pattern, forbidden: Option<nat>)
    ensures match FirstReflection(p, forbidden, 1)
      case Some(row) => IsLeastLine(p, forbidden, row)
      case None => NoLine(p, forbidden)
  {
    FirstReflectionFrom(p, forbidden, 1);
  }

  /** getHorizontalReflectionRow: the first row from 1 up, other than `forbiddenRow`, that reflects. */
  method GetHorizontalReflectionRow(p: Pattern, forbiddenRow: Option<nat>) returns (found: Option<nat>)
    ensures found == FirstReflection(p, forbiddenRow, 1)
  {
    var row := 1;
    while row < |p|
      invariant 1 <= row
      invariant FirstReflection(p, forbiddenRow, 1) == FirstReflection(p, forbiddenRow, row)
      decreases |p| - row
    {
      if forbiddenRow != Some(row) {
        var reflects := HasHorizontalReflection(p, row);
        if reflects {
          return Some(row);
        }
      }
      row := row + 1;
    }
    return None;
  }

  // ---------------------------------------------------------------------------
  // Rotation
  // ---------------------------------------------------------------------------

  /** Column c read from the bottom row upwards, its first n symbols. */
  function Column(p: Pattern, c: nat, n: nat): (col: seq<char>)
    requires n <= |p|
    requires forall i :: 0 <= i < |p| ==> c < |p[i]|
    ensures |col| == n
  {
    if n == 0 then [] else Column(p, c, n - 1) + [p[|p| - n][c]]
  }

  lemma {:induction false} ColumnIndex(p: Pattern, c: nat, n: nat, k: nat)
    requires n <= |p| && k < n
    requires forall i :: 0 <= i < |p| ==> c < |p[i]|
    ensures Column(p, c, n)[k] == p[|p| - 1 - k][c]
  {
    if k < n - 1 {
      ColumnIndex(p, c, n - 1, k);
    }
  }

  /** The pattern turned a quarter clockwise: column c becomes row c, bottom symbol first. */
  function Rotated(p: Pattern): Pattern
    requires Rectangular(p)
  {
    seq(|p[0]|, c requires 0 <= c < |p[0]| && Rectangular(p) => Column(p, c, |p|))
  }

  lemma RotatedShape(p: Pattern)
    requires Rectangular(p)
    ensures |Rotated(p)| == |p[0]|
    ensures forall c :: 0 <= c < |p[0]| ==> |Rotated(p)[c]| == |p|
    ensures forall c, k :: 0 <= c < |p[0]| && 0 <= k < |p| ==> Rotated(p)[c][k] == p[|p| - 1 - k][c]
  {
    forall c, k | 0 <= c < |p[0]| && 0 <= k < |p|
      ensures Rotated(p)[c][k] == p[|p| - 1 - k][c]
    {
      ColumnIndex(p, c, |p|, k);
    }
  }

  /** getRotatedPattern: appends each row's symbols to the rotated rows, bottom row first. */
  method GetRotatedPattern(p: Pattern) returns (rotated: Pattern)
    requires Rectangular(p)
    ensures rotated == Rotated(p)
  {
    var rows := |p|;
    var cols := |p[0]|;
    rotated := seq(cols, _ => []);
    var row := rows - 1;
    while row >= 0
      invariant -1 <= row <= rows - 1
      invariant |rotated| == cols
      invariant forall c :: 0 <= c < cols ==> rotated[c] == Column(p, c, rows - 1 - row)
      decreases row
    {
      for col := 0 to cols
        invariant |rotated| == cols
        invariant forall c :: 0 <= c < col ==> rotated[c] == Column(p, c, rows - row)
        invariant forall c :: col <= c < cols ==> rotated[c] == Column(p, c, rows - 1 - row)
      {
        rotated := rotated[col := rotated[col] + [p[row][col]]];
      }
      row := row - 1;
    }
  }

  /** Columns c-1-i and c+i hold the same symbols in every row. */
  predicate ColumnsMirror(p: Pattern, c: int, i: int)
    requires Rectangular(p) && 0 <= i && 0 <= c - 1 - i && c + i < |p[0]|
  {
    forall r :: 0 <= r < |p| ==> p[r][c - 1 - i] == p[r][c + i]
  }

  /** The columns left of c mirror the columns right of it, as far as both sides reach. */
  predicate VerticalReflection(p: Pattern, c: int)
    requires Rectangular(p) && 0 <= c <= |p[0]|
  {
    forall i :: 0 <= i < Min(c, |p[0]| - c) ==> ColumnsMirror(p, c, i)
  }

  lemma MirroredColumnsRotate(p: Pattern, c: int, i: int)
    requires Rectangular(p) && 0 <= i && 0 <= c - 1 - i && c + i < |p[0]|
    requires ColumnsMirror(p, c, i)
    ensures Rotated(p)[c - 1 - i] == Rotated(p)[c + i]
  {
    var a := Column(p, c - 1 - i, |p|);
    var b := Column(p, c + i, |p|);
    forall k | 0 <= k < |p|
      ensures a[k] == b[k]
    {
      ColumnIndex(p, c - 1 - i, |p|, k);
      ColumnIndex(p, c + i, |p|, k);
    }
  }

  /** A horizontal reflection of the rotated pattern is a vertical reflection of the pattern. */
  lemma RotatedReflects(p: Pattern, c: int)
    requires Rectangular(p) && 0 <= c <= |p[0]|
    ensures |Rotated(p)| == |p[0]|
    ensures Reflects(Rotated(p), c) <==> VerticalReflection(p, c)
  {
    RotatedShape(p);
    var rot := Rotated(p);
    ReflectsIff(rot, c);
    forall i | 0 <= i < Min(c, |p[0]| - c)
      ensures PairMatches(rot, c, i) <==> ColumnsMirror(p, c, i)
    {
      if ColumnsMirror(p, c, i) {
        MirroredColumnsRotate(p, c, i);
      }
      if rot[c - 1 - i] == rot[c + i] {
        forall r | 0 <= r < |p|
          ensures p[r][c - 1 - i] == p[r][c + i]
        {
          assert rot[c - 1 - i][|p| - 1 - r] == rot[c + i][|p| - 1 - r];
        }
      }
    }
  }

  /** `col` is the least vertical line of reflection other than `forbidden`. */
  predicate IsLeastColumn(p: Pattern, forbidden: Option<nat>, col: int)
    requires Rectangular(p)
  {
    1 <= col < |p[0]| && forbidden != Some(col) && VerticalReflection(p, col) &&
    forall k :: 1 <= k < col && forbidden != Some(k) ==> !VerticalReflection(p, k)
  }

  /** No vertical line of reflection other than `forbidden`. */
  predicate NoColumn(p: Pattern, forbidden: Option<nat>)
    requires Rectangular(p)
  {
    forall k :: 1 <= k < |p[0]| && forbidden != Some(k) ==> !VerticalReflection(p, k)
  }

  /** The first reflecting row of the rotated pattern is the least vertical line. */
  lemma FirstColumnIsLeast(p: Pattern, forbidden: Option<nat>)
    requires Rectangular(p)
    ensures match FirstReflection(Rotated(p), forbidden, 1)
      case Some(col) => IsLeastColumn(p, forbidden, col)
      case None => NoColumn(p, forbidden)
  {
    RotatedShape(p);
    FirstReflectionIsLeast(Rotated(p), forbidden);
    forall k | 0 <= k <= |p[0]|
      ensures Reflects(Rotated(p), k) <==> VerticalReflection(p, k)
    {
      RotatedReflects(p, k);
    }
  }

  // ---------------------------------------------------------------------------
  // Part 1: the summary of a pattern
  // ---------------------------------------------------------------------------

  /** The answer of getSummary for a horizontal line h and vertical line v, each as found or absent. */
  function Answer(h: Option<nat>, v: Option<nat>): Option<nat>
  {
    if h.Some? then Some(100 * h.value) else v
  }

  /** getSummary: 100 times the reflecting row if there is one, otherwise the reflecting column. */
  function Summary(p: Pattern): Option<nat>
    requires Rectangular(p)
  {
    Answer(FirstReflection(p, None, 1), FirstReflection(Rotated(p), None, 1))
  }

  /** The summary of a pattern whose least lines, other than the forbidden ones, are looked for. */
  lemma AnswerMeaning(q: Pattern, h: Option<nat>, v: Option<nat>)
    requires Rectangular(q)
    ensures !NoLine(q, h) ==>
      var a := Answer(FirstReflection(q, h, 1), FirstReflection(Rotated(q), v, 1));
      a.Some? && a.value % 100 == 0 && IsLeastLine(q, h, a.value / 100)
    ensures NoLine(q, h) ==>
      match Answer(FirstReflection(q, h, 1), FirstReflection(Rotated(q), v, 1))
      case Some(col) => IsLeastColumn(q, v, col)
      case None => NoColumn(q, v)
  {
    FirstReflectionIsLeast(q, h);
    FirstColumnIsLeast(q, v);
  }

  lemma SummaryMeaning(p: Pattern)
    requires Rectangular(p)
    ensures !NoLine(p, None) ==> Summary(p).Some? && Summary(p).value % 100 == 0 && IsLeastLine(p, None, Summary(p).value / 100)
    ensures NoLine(p, None) ==>
      match Summary(p)
      case Some(col) => IsLeastColumn(p, None, col)
      case None => NoColumn(p, None)
  {
    AnswerMeaning(p, None, None);
  }

  method GetSummary(p: Pattern) returns (summary: Option<nat>)
    requires Rectangular(p)
    ensures summary == Summary(p)
  {
    var horizontalReflectionRow := GetHorizontalReflectionRow(p, None);
    if horizontalReflectionRow.Some? {
      return Some(horizontalReflectionRow.value * 100);
    }
    var rotatedPattern := GetRotatedPattern(p);
    summary := GetHorizontalReflectionRow(rotatedPattern, None);
  }

  /** JavaScript addition where a missing summary (`undefined`) turns the sum into `NaN`. */
  function AddSummary(sum: Option<nat>, summary: Option<nat>): (r: Option<nat>)
    ensures r.Some? <==> sum.Some? && summary.Some?
    ensures r.Some? ==> r.value == sum.value + summary.value
  {
    if sum.Some? && summary.Some? then Some(sum.value + summary.value) else None
  }

  predicate AllRectangular(patterns: seq<Pattern>)
  {
    forall i :: 0 <= i < |patterns| ==> Rectangular(patterns[i])
  }

  function TotalSummary(patterns: seq<Pattern>): Option<nat>
    requires AllRectangular(patterns)
  {
    if patterns == [] then Some(0)
    else AddSummary(TotalSummary(patterns[..|patterns| - 1]), Summary(patterns[|patterns| - 1]))
  }

  /** The total is a number exactly when every pattern has a reflection line. */
  lemma {:induction false} TotalSummaryDefined(patterns: seq<Pattern>)
    requires AllRectangular(patterns)
    ensures TotalSummary(patterns).Some? <==> forall i :: 0 <= i < |patterns| ==> Summary(patterns[i]).Some?
  {
    if patterns != [] {
      var init := patterns[..|patterns| - 1];
      TotalSummaryDefined(init);
      assert forall i :: 0 <= i < |init| ==> init[i] == patterns[i];
    }
  }

  method Solve(patterns: seq<Pattern>) returns (sumSummaries: Option<nat>)
    requires AllRectangular(patterns)
    ensures sumSummaries == TotalSummary(patterns)
  {
    sumSummaries := Some(0);
    for i := 0 to |patterns|
      invariant sumSummaries == TotalSummary(patterns[..i])
    {
      var summary := GetSummary(patterns[i]);
      assert patterns[..i + 1][..i] == patterns[..i];
      sumSummaries := AddSummary(sumSummaries, summary);
    }
    assert patterns[..|patterns|] == patterns;
  }

  // ---------------------------------------------------------------------------
  // Part 2: the smudge
  // ---------------------------------------------------------------------------

  /** A `.` becomes `#`; any other symbol becomes `.`. */
  function Flip(symbol: char): (flipped: char)
    ensures symbol == '.' ==> flipped == '#'
    ensures symbol != '.' ==> flipped == '.'
  {
    if symbol == '.' then '#' else '.'
  }

  /** The pattern with the single cell (r, c) flipped; nothing else changes. */
  function Smudged(p: Pattern, r: nat, c: nat): (q: Pattern)
    requires r < |p| && c < |p[r]|
    ensures |q| == |p| && forall i :: 0 <= i < |p| ==> |q[i]| == |p[i]|
  {
    p[r := p[r][..c] + [Flip(p[r][c])] + p[r][c + 1..]]
  }

  /** Each attempt flips exactly the one cell and leaves every other cell as it was. */
  lemma SmudgedChangesOneCell(p: Pattern, r: nat, c: nat)
    requires r < |p| && c < |p[r]|
    ensures forall i, j :: 0 <= i < |p| && 0 <= j < |p[i]| ==>
      Smudged(p, r, c)[i][j] == if i == r && j == c then Flip(p[i][j]) else p[i][j]
  {
  }

  datatype Hit = Hit(r: nat, c: nat, summary: nat)

  /** The answer with cell (r, c) flipped: a new horizontal line, else a new vertical one. */
  function CellAnswer(p: Pattern, h: Option<nat>, v: Option<nat>, r: nat, c: nat): Option<nat>
    requires Rectangular(p) && r < |p| && c < |p[0]|
  {
    var q := Smudged(p, r, c);
    Answer(FirstReflection(q, h, 1), FirstReflection(Rotated(q), v, 1))
  }

  /** Tries the cells from (r, c) on in reading order; the first one that yields an answer. */
  function SearchFrom(p: Pattern, h: Option<nat>, v: Option<nat>, r: nat, c: nat): Option<Hit>
    requires Rectangular(p)
    decreases |p| - r, |p[0]| - c
  {
    if r >= |p| then None
    else if c >= |p[0]| then SearchFrom(p, h, v, r + 1, 0)
    else match CellAnswer(p, h, v, r, c)
      case Some(s) => Some(Hit(r, c, s))
      case None => SearchFrom(p, h, v, r, c + 1)
  }

  /** (i, j) is not before (r, c) in reading order. */
  predicate AtOrAfter(i: int, j: int, r: int, c: int)
  {
    i > r || (i == r && j >= c)
  }

  /** No flip of a cell from (r, c) up to, but not including, (r2, c2) in reading order yields an answer. */
  ghost predicate NoAnswerBetween(p: Pattern, h: Option<nat>, v: Option<nat>, r: nat, c: nat, r2: nat, c2: nat)
    requires Rectangular(p)
  {
    forall i, j :: 0 <= i < |p| && 0 <= j < |p[0]| && AtOrAfter(i, j, r, c) && !AtOrAfter(i, j, r2, c2) ==>
      CellAnswer(p, h, v, i, j).None?
  }

  /** `found` is the first cell from (r, c) on whose flip yields an answer, or none when there is none. */
  ghost predicate FirstAnswerFrom(p: Pattern, h: Option<nat>, v: Option<nat>, r: nat, c: nat, found: Option<Hit>)
    requires Rectangular(p)
  {
    match found
    case Some(hit) =>
      hit.r < |p| && hit.c < |p[0]| && AtOrAfter(hit.r, hit.c, r, c) &&
      CellAnswer(p, h, v, hit.r, hit.c) == Some(hit.summary) && NoAnswerBetween(p, h, v, r, c, hit.r, hit.c)
    case None =>
      NoAnswerBetween(p, h, v, r, c, |p|, 0)
  }

  lemma {:induction false} SearchFromIsFirst(p: Pattern, h: Option<nat>, v: Option<nat>, r: nat, c: nat)
    requires Rectangular(p)
    ensures FirstAnswerFrom(p, h, v, r, c, SearchFrom(p, h, v, r, c))
    decreases |p| - r, |p[0]| - c
  {
    if r >= |p| {
      assert NoAnswerBetween(p, h, v, r, c, |p|, 0);
    } else if c >= |p[0]| {
      SearchFromIsFirst(p, h, v, r + 1, 0);
      FirstAnswerNextRow(p, h, v, r, c, SearchFrom(p, h, v, r + 1, 0));
    } else if CellAnswer(p, h, v, r, c).None? {
      SearchFromIsFirst(p, h, v, r, c + 1);
      FirstAnswerNextCell(p, h, v, r, c, SearchFrom(p, h, v, r, c + 1));
    } else {
      assert NoAnswerBetween(p, h, v, r, c, r, c);
    }
  }

  /** Past the end of row r, the search goes on at the start of the next row. */
  lemma FirstAnswerNextRow(p: Pattern, h: Option<nat>, v: Option<nat>, r: nat, c: nat, found: Option<Hit>)
    requires Rectangular(p) && c >= |p[0]|
    requires FirstAnswerFrom(p, h, v, r + 1, 0, found)
    ensures FirstAnswerFrom(p, h, v, r, c, found)
  {
  }

  /** A cell whose flip yields no answer is passed over. */
  lemma FirstAnswerNextCell(p: Pattern, h: Option<nat>, v: Option<nat>, r: nat, c: nat, found: Option<Hit>)
    requires Rectangular(p) && r < |p| && c < |p[0]| && CellAnswer(p, h, v, r, c).None?
    requires FirstAnswerFrom(p, h, v, r, c + 1, found)
    ensures FirstAnswerFrom(p, h, v, r, c, found)
  {
  }

  /** The pattern's own horizontal line, found before any flip. */
  function OriginalRow(p: Pattern): Option<nat>
  {
    FirstReflection(p, None, 1)
  }

  /** The pattern's own vertical line, found before any flip. */
  function OriginalColumn(p: Pattern): Option<nat>
    requires Rectangular(p)
  {
    FirstReflection(Rotated(p), None, 1)
  }

  /** The part-two answer of a pattern: the first smudge that yields a line other than the original. */
  function SmudgedSummary(p: Pattern): Option<Hit>
    requires Rectangular(p)
  {
    SearchFrom(p, OriginalRow(p), OriginalColumn(p), 0, 0)
  }

  /** Flipping cell (r, c) answers with the least new line, horizontal lines first. */
  lemma CellAnswerMeaning(p: Pattern, h: Option<nat>, v: Option<nat>, r: nat, c: nat)
    requires Rectangular(p) && r < |p| && c < |p[0]|
    ensures Rectangular(Smudged(p, r, c))
    ensures CellAnswer(p, h, v, r, c).None? <==> NoLine(Smudged(p, r, c), h) && NoColumn(Smudged(p, r, c), v)
    ensures !NoLine(Smudged(p, r, c), h) ==>
      CellAnswer(p, h, v, r, c).Some? && CellAnswer(p, h, v, r, c).value % 100 == 0 &&
      IsLeastLine(Smudged(p, r, c), h, CellAnswer(p, h, v, r, c).value / 100)
    ensures NoLine(Smudged(p, r, c), h) && CellAnswer(p, h, v, r, c).Some? ==>
      IsLeastColumn(Smudged(p, r, c), v, CellAnswer(p, h, v, r, c).value)
  {
    AnswerMeaning(Smudged(p, r, c), h, v);
  }

  lemma CellAnswerNone(p: Pattern, h: Option<nat>, v: Option<nat>, r: nat, c: nat)
    requires Rectangular(p) && r < |p| && c < |p[0]|
    ensures CellAnswer(p, h, v, r, c).None? <==> NoNewLine(p, h, v, r, c)
  {
    CellAnswerMeaning(p, h, v, r, c);
  }

  /** A cell yields no answer exactly when its flip makes no line other than the original ones. */
  predicate NoNewLine(p: Pattern, h: Option<nat>, v: Option<nat>, r: nat, c: nat)
    requires Rectangular(p) && r < |p| && c < |p[0]|
  {
    NoLine(Smudged(p, r, c), h) && NoColumn(Smudged(p, r, c), v)
  }

  /**
    * The cell found is the first in reading order whose flip makes a line appear other than the
    * pattern's original ones; with no such cell there is no answer.
    */
  lemma SmudgedSummaryIsFirst(p: Pattern)
    requires Rectangular(p)
    ensures match SmudgedSummary(p)
      case Some(hit) =>
        hit.r < |p| && hit.c < |p[0]| &&
        !NoNewLine(p, OriginalRow(p), OriginalColumn(p), hit.r, hit.c) &&
        CellAnswer(p, OriginalRow(p), OriginalColumn(p), hit.r, hit.c) == Some(hit.summary) &&
        forall i, j :: 0 <= i < |p| && 0 <= j < |p[0]| && !AtOrAfter(i, j, hit.r, hit.c) ==>
          NoNewLine(p, OriginalRow(p), OriginalColumn(p), i, j)
      case None =>
        forall i, j :: 0 <= i < |p| && 0 <= j < |p[0]| ==>
          NoNewLine(p, OriginalRow(p), OriginalColumn(p), i, j)
  {
    var h := OriginalRow(p);
    var v := OriginalColumn(p);
    SearchFromIsFirst(p, h, v, 0, 0);
    forall i, j | 0 <= i < |p| && 0 <= j < |p[0]|
      ensures CellAnswer(p, h, v, i, j).None? <==> NoNewLine(p, h, v, i, j)
    {
      CellAnswerNone(p, h, v, i, j);
    }
  }

  /**
    * getSummary of part two: flips each cell in turn in the pattern itself, returns as soon as a
    * new line appears (leaving that cell flipped), and restores the row otherwise.
    */
  method GetSmudgedSummary(pattern: array<seq<char>>) returns (summary: Option<nat>)
    requires Rectangular(pattern[..])
    modifies pattern
    ensures SmudgedSummary(old(pattern[..])).None? ==> summary.None? && pattern[..] == old(pattern[..])
    ensures SmudgedSummary(old(pattern[..])).Some? ==>
      var hit := SmudgedSummary(old(pattern[..])).value;
      summary == Some(hit.summary) && hit.r < pattern.Length && hit.c < |old(pattern[..])[hit.r]| &&
      pattern[..] == Smudged(old(pattern[..]), hit.r, hit.c)
  {
    var p := pattern[..];
    var rows := pattern.Length;
    var cols := |pattern[0]|;
    var rotatedPattern := GetRotatedPattern(pattern[..]);
    var horizontalReflectionRow := GetHorizontalReflectionRow(pattern[..], None);
    var verticalReflectionCol := GetHorizontalReflectionRow(rotatedPattern, None);
    ghost var h := horizontalReflectionRow;
    ghost var v := verticalReflectionCol;
    for r := 0 to rows
      invariant pattern[..] == p
      invariant SmudgedSummary(p) == SearchFrom(p, h, v, r, 0)
    {
      for c := 0 to cols
        invariant pattern[..] == p
        invariant SmudgedSummary(p) == SearchFrom(p, h, v, r, c)
      {
        var originalRow := pattern[r];
        var newRow := originalRow[..c] + [if originalRow[c] == '.' then '#' else '.'] + originalRow[c + 1..];
        pattern[r] := newRow;
        assert pattern[..] == Smudged(p, r, c);
        var newHorizontalReflectionRow := GetHorizontalReflectionRow(pattern[..], horizontalReflectionRow);
        if newHorizontalReflectionRow.Some? {
          return Some(newHorizontalReflectionRow.value * 100);
        }
        var newRotatedPattern := GetRotatedPattern(pattern[..]);
        var newVerticalReflectionCol := GetHorizontalReflectionRow(newRotatedPattern, verticalReflectionCol);
        if newVerticalReflectionCol.Some? {
          return Some(newVerticalReflectionCol.value);
        }
        pattern[r] := originalRow;
        assert pattern[..] == p;
      }
    }
    return None;
  }

  function SmudgedAnswer(p: Pattern): Option<nat>
    requires Rectangular(p)
  {
    if SmudgedSummary(p).Some? then Some(SmudgedSummary(p).value.summary) else None
  }

  function TotalSmudgedSummary(patterns: seq<Pattern>): Option<nat>
    requires AllRectangular(patterns)
  {
    if patterns == [] then Some(0)
    else AddSummary(TotalSmudgedSummary(patterns[..|patterns| - 1]), SmudgedAnswer(patterns[|patterns| - 1]))
  }

  /** Part two's solve: each pattern goes through the search in its own array. */
  method SolveSmudged(patterns: seq<Pattern>) returns (sumSummaries: Option<nat>)
    requires AllRectangular(patterns)
    ensures sumSummaries == TotalSmudgedSummary(patterns)
  {
    sumSummaries := Some(0);
    for i := 0 to |patterns|
      invariant sumSummaries == TotalSmudgedSummary(patterns[..i])
    {
      var pattern := new seq<char>[|patterns[i]|](k requires 0 <= k < |patterns[i]| => patterns[i][k]);
      assert pattern[..] == patterns[i];
      var summary := GetSmudgedSummary(pattern);
      assert patterns[..i + 1][..i] == patterns[..i];
      sumSummaries := AddSummary(sumSummaries, summary);
    }
    assert patterns[..|patterns|] == patterns;
  }
}
