/** Day 1: calibration values built from the first and last digit (or number word) of a line. */
module Day1Calibration {
  import opened Common

  const NumberWords: seq<string> := ["one", "two", "three", "four", "five", "six", "seven", "eight", "nine"]

  /** A token: a single digit character, or (when words are allowed) one of one..nine. */
  predicate IsToken(t: string, wordsAllowed: bool)
  {
    (|t| == 1 && IsDigit(t[0])) || (wordsAllowed && t in NumberWords)
  }

  /** The first of `NumberWords[k..]` that starts `rest`, trying the words in list order. */
  function WordAt(rest: string, k: nat): (m: Option<string>)
    requires k <= |NumberWords|
    ensures m.Some? ==> m.value in NumberWords[k..] && m.value <= rest
    ensures m.None? ==> forall j :: k <= j < |NumberWords| ==> !(NumberWords[j] <= rest)
    decreases |NumberWords| - k
  {
    if k == |NumberWords| then None
    else if NumberWords[k] <= rest then Some(NumberWords[k])
    else WordAt(rest, k + 1)
  }

  /** The token the alternation `\d|one|two|...|nine` matches at position i, if any. */
  function MatchAt(line: string, i: nat, wordsAllowed: bool): (m: Option<string>)
    requires i <= |line|
    ensures m.Some? ==> IsToken(m.value, wordsAllowed)
  {
    if i < |line| && IsDigit(line[i]) then Some([line[i]])
    else if wordsAllowed then WordAt(line[i..], 0)
    else None
  }

  /** A match at position i is a token that starts there; no match means that no digit and, when
      words are allowed, no number word starts there. */
  lemma MatchAtMeaning(line: string, i: nat, wordsAllowed: bool)
    requires i <= |line|
    ensures var m := MatchAt(line, i, wordsAllowed);
      && (m.Some? ==> IsToken(m.value, wordsAllowed) && m.value <= line[i..])
      && (m.None? ==> (i == |line| || !IsDigit(line[i])))
      && (m.None? && wordsAllowed ==> forall w :: w in NumberWords ==> !(w <= line[i..]))
  {
    if !(i < |line| && IsDigit(line[i])) && wordsAllowed {
      var m := WordAt(line[i..], 0);
      if m.None? {
        forall w | w in NumberWords ensures !(w <= line[i..]) {
          var j :| 0 <= j < |NumberWords| && NumberWords[j] == w;
        }
      }
    }
  }

  /** The least position at or after `from` where a token starts (an unanchored regex search). */
  function FirstTokenIndex(line: string, from: nat, wordsAllowed: bool): (r: Option<nat>)
    requires from <= |line|
    ensures r.Some? ==> from <= r.value < |line| && MatchAt(line, r.value, wordsAllowed).Some?
    ensures r.Some? ==> forall j :: from <= j < r.value ==> MatchAt(line, j, wordsAllowed).None?
    ensures r.None? ==> forall j :: from <= j <= |line| ==> MatchAt(line, j, wordsAllowed).None?
    decreases |line| - from
  {
    if from == |line| then None
    else if MatchAt(line, from, wordsAllowed).Some? then Some(from)
    else FirstTokenIndex(line, from + 1, wordsAllowed)
  }

  /** The greatest position below `upto` where a token starts (the greedy `.*` before the group). */
  function LastTokenIndex(line: string, upto: nat, wordsAllowed: bool): (r: Option<nat>)
    requires upto <= |line|
    ensures r.Some? ==> r.value < upto && MatchAt(line, r.value, wordsAllowed).Some?
    ensures r.Some? ==> forall j :: r.value < j < upto ==> MatchAt(line, j, wordsAllowed).None?
    ensures r.None? ==> forall j :: 0 <= j < upto ==> MatchAt(line, j, wordsAllowed).None?
  {
    if upto == 0 then None
    else if MatchAt(line, upto - 1, wordsAllowed).Some? then Some(upto - 1)
    else LastTokenIndex(line, upto - 1, wordsAllowed)
  }

  /** The source's own precondition: `match` returns null, and the line throws, without a token. */
  predicate HasToken(line: string, wordsAllowed: bool)
  {
    FirstTokenIndex(line, 0, wordsAllowed).Some?
  }

  /** day1/puzzle2.js toNumber: the number words map to 1..9, a digit to its value. */
  function ToNumber(value: string): (n: nat)
    requires IsToken(value, true)
    ensures 1 <= |value| && (IsDigit(value[0]) && |value| == 1 ==> n == DigitValue(value[0]))
    ensures value in NumberWords ==> 1 <= n <= 9 && NumberWords[n - 1] == value
  {
    if value == "one" then 1
    else if value == "two" then 2
    else if value == "three" then 3
    else if value == "four" then 4
    else if value == "five" then 5
    else if value == "six" then 6
    else if value == "seven" then 7
    else if value == "eight" then 8
    else if value == "nine" then 9
    else DigitValue(value[0])
  }

  function FirstToken(line: string, wordsAllowed: bool): (t: string)
    requires HasToken(line, wordsAllowed)
    ensures IsToken(t, wordsAllowed)
  {
    MatchAt(line, FirstTokenIndex(line, 0, wordsAllowed).value, wordsAllowed).value
  }

  lemma LastTokenExists(line: string, wordsAllowed: bool)
    requires HasToken(line, wordsAllowed)
    ensures LastTokenIndex(line, |line|, wordsAllowed).Some?
    ensures FirstTokenIndex(line, 0, wordsAllowed).value <= LastTokenIndex(line, |line|, wordsAllowed).value
  {
  }

  function LastToken(line: string, wordsAllowed: bool): (t: string)
    requires HasToken(line, wordsAllowed)
    ensures IsToken(t, wordsAllowed)
  {
    LastTokenExists(line, wordsAllowed);
    MatchAt(line, LastTokenIndex(line, |line|, wordsAllowed).value, wordsAllowed).value
  }

  /** The calibration value of one line: ten times the first token plus the last token. */
  function CalibrationValue(line: string, wordsAllowed: bool): (v: int)
    requires HasToken(line, wordsAllowed)
    ensures 0 <= v <= 99
  {
    10 * ToNumber(FirstToken(line, wordsAllowed)) + ToNumber(LastToken(line, wordsAllowed))
  }

  /** The calibration value of a line, and 0 for a line the source cannot handle. */
  function LineValue(line: string, wordsAllowed: bool): int
  {
    if HasToken(line, wordsAllowed) then CalibrationValue(line, wordsAllowed) else 0
  }

  function SumCalibration(lines: seq<string>, wordsAllowed: bool): int
  {
    if lines == [] then 0
    else SumCalibration(lines[..|lines| - 1], wordsAllowed) + LineValue(lines[|lines| - 1], wordsAllowed)
  }

  lemma SumCalibrationStep(lines: seq<string>, i: nat, wordsAllowed: bool)
    requires i < |lines|
    ensures SumCalibration(lines[..i + 1], wordsAllowed) == SumCalibration(lines[..i], wordsAllowed) + LineValue(lines[i], wordsAllowed)
  {
    assert lines[..i + 1][..i] == lines[..i];
  }

  // ---------------------------------------------------------------------------
  // day1/puzzle1.js: digits only
  // ---------------------------------------------------------------------------

  /** day1/puzzle1.js solve as written: `line.match(/\d/)` without the g flag returns only the
      first digit, so `at(0)` and `at(-1)` are the same digit and a line adds 11 times it. */
  method SolvePart1AsWritten(lines: seq<string>) returns (sumValues: int)
    requires forall i :: 0 <= i < |lines| ==> HasToken(lines[i], false)
    ensures sumValues == SumFirstDigitTimesEleven(lines)
  {
    sumValues := 0;
    for i := 0 to |lines|
      invariant sumValues == SumFirstDigitTimesEleven(lines[..i])
    {
      var line := lines[i];
      var digits := [FirstToken(line, false)];
      sumValues := sumValues + ToNumber(digits[0]) * 10;
      sumValues := sumValues + ToNumber(digits[|digits| - 1]);
      assert lines[..i + 1][..i] == lines[..i];
    }
    assert lines[..|lines|] == lines;
  }

  function SumFirstDigitTimesEleven(lines: seq<string>): int
    requires forall i :: 0 <= i < |lines| ==> HasToken(lines[i], false)
  {
    if lines == [] then 0
    else SumFirstDigitTimesEleven(lines[..|lines| - 1]) + 11 * ToNumber(FirstToken(lines[|lines| - 1], false))
  }

  /** The line "12" shows the discrepancy: the source adds 11, the calibration value is 12. */
  lemma AsWrittenDropsLastDigit()
    ensures HasToken("12", false)
    ensures SumFirstDigitTimesEleven(["12"]) == 11
    ensures SumCalibration(["12"], false) == 12
  {
    assert MatchAt("12", 0, false) == Some("1");
    assert MatchAt("12", 1, false) == Some("2");
    assert FirstTokenIndex("12", 0, false) == Some(0);
    assert LastTokenIndex("12", 2, false) == Some(1);
    assert ["12"][..0] == [];
  }

  /** day1/puzzle1.js solve as intended: first digit times ten plus last digit, per line. */
  method SolvePart1(lines: seq<string>) returns (sumValues: int)
    requires forall i :: 0 <= i < |lines| ==> HasToken(lines[i], false)
    ensures sumValues == SumCalibration(lines, false)
  {
    sumValues := 0;
    for i := 0 to |lines|
      invariant sumValues == SumCalibration(lines[..i], false)
    {
      var line := lines[i];
      SumCalibrationStep(lines, i, false);
      assert LineValue(line, false) == ToNumber(FirstToken(line, false)) * 10 + ToNumber(LastToken(line, false));
      sumValues := sumValues + ToNumber(FirstToken(line, false)) * 10;
      sumValues := sumValues + ToNumber(LastToken(line, false));
    }
    assert lines[..|lines|] == lines;
  }

  // ---------------------------------------------------------------------------
  // day1/puzzle2.js: digits and number words
  // ---------------------------------------------------------------------------

  /** day1/puzzle2.js solve: the loop over the lines, using the least-index and
      greatest-index token of each line. */
  method SolvePart2(lines: seq<string>) returns (sumValues: int)
    requires forall i :: 0 <= i < |lines| ==> HasToken(lines[i], true)
    ensures sumValues == SumCalibration(lines, true)
  {
    sumValues := 0;
    for i := 0 to |lines|
      invariant sumValues == SumCalibration(lines[..i], true)
    {
      var line := lines[i];
      var firstDigit := ToNumber(FirstToken(line, true));
      var lastDigit := ToNumber(LastToken(line, true));
      SumCalibrationStep(lines, i, true);
      assert LineValue(line, true) == firstDigit * 10 + lastDigit;
      sumValues := sumValues + firstDigit * 10;
      sumValues := sumValues + lastDigit;
    }
    assert lines[..|lines|] == lines;
  }

  /** Overlapping tokens: in "twone" the last token is the "one" that shares the "o". */
  lemma OverlappingLastToken()
    ensures HasToken("twone", true)
    ensures FirstToken("twone", true) == "two" && LastToken("twone", true) == "one"
    ensures CalibrationValue("twone", true) == 21
  {
    var line := "twone";
    TwoneMatches();
    assert FirstTokenIndex(line, 0, true) == Some(0);
    assert LastTokenIndex(line, 3, true) == Some(2);
    assert LastTokenIndex(line, 4, true) == Some(2);
    assert LastTokenIndex(line, 5, true) == Some(2);
  }

  lemma TwoneMatches()
    ensures MatchAt("twone", 0, true) == Some("two")
    ensures MatchAt("twone", 2, true) == Some("one")
    ensures MatchAt("twone", 3, true) == None
    ensures MatchAt("twone", 4, true) == None
  {
    var line := "twone";
    assert line[0..] == line;
    assert !(NumberWords[0] <= line) by { assert line[0] != NumberWords[0][0]; }
    assert NumberWords[1] <= line;
    assert WordAt(line, 0) == Some("two");
    assert line[2..] == NumberWords[0];
    assert WordAt(NumberWords[0], 0) == Some("one");
    assert line[3..] == "ne" && line[4..] == "e";
    ShortHasNoWord("ne", 0);
    ShortHasNoWord("e", 0);
  }

  /** Every number word has at least three letters, so nothing shorter starts with one. */
  lemma {:induction false} ShortHasNoWord(rest: string, k: nat)
    requires |rest| < 3 && k <= |NumberWords|
    ensures WordAt(rest, k) == None
    decreases |NumberWords| - k
  {
    if k < |NumberWords| {
      assert |NumberWords[k]| >= 3;
      ShortHasNoWord(rest, k + 1);
    }
  }

  /** A line with a single token contributes eleven times its value. */
  lemma {:induction false} SingleTokenLine(line: string, i: nat, wordsAllowed: bool)
    requires i < |line| && MatchAt(line, i, wordsAllowed).Some?
    requires forall j :: 0 <= j <= |line| && j != i ==> MatchAt(line, j, wordsAllowed).None?
    ensures HasToken(line, wordsAllowed)
    ensures FirstToken(line, wordsAllowed) == LastToken(line, wordsAllowed)
    ensures CalibrationValue(line, wordsAllowed) == 11 * ToNumber(FirstToken(line, wordsAllowed))
  {
    var f := FirstTokenIndex(line, 0, wordsAllowed);
    assert f.Some? && f.value == i;
    var l := LastTokenIndex(line, |line|, wordsAllowed);
    assert l.Some? && l.value == i;
  }
}
