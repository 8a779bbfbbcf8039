# Advent of Code 2023 solutions, modelled and proved in Dafny

This project models the puzzle solvers of a JavaScript Advent of Code 2023 repository. It
covers days 1 to 5 and 7 to 19, and both puzzles of each day. Each solver takes the parsed
puzzle input and computes one number. Here, every solver is a Dafny function, or a method
with loops where the JavaScript loops or mutates. Each one is proved against a
specification of what the number means.

Layout:

- One file and one module per day: `day01.dfy` (module `Day1Calibration`) to `day19.dfy`
  (module `Day19Aplenty`).
- `common.dfy` (module `Common`) holds the shared `Option` type and list folds such as `Sum`,
  `Count` and `MinOf`.

Modelling conventions:

- A JavaScript number is an unbounded `int`.
- A string is a `seq<char>`.
- An `undefined` or `null` result the source goes on to use becomes `Option.None`.
- A loop whose termination depends on the puzzle input gets a `fuel` bound. Examples are the
  walks of days 8, 10 and 19, and the searches of days 14 and 17. Running out of fuel gives
  `None`.
- Each day's input loader (`input.js`) is not part of this model. The parsed values it
  produces are parameters instead, with the shape the loader gives them.

## Model

| member | source | states |
|---|---|---|
| Day1Calibration.WordAt | day1/puzzle2.js:8 | the number word the alternation matches at a position is a prefix of the rest of the line; none means no word in `one`..`nine` starts there |
| Day1Calibration.MatchAt | day1/puzzle2.js:8 | whatever the alternation matches at a position is a token: a digit, or a number word when words are allowed |
| Day1Calibration.MatchAtMeaning | day1/puzzle2.js:8 | a match at position i is a token that starts at i; no match means no digit and, with words allowed, no number word starts there |
| Day1Calibration.FirstTokenIndex | day1/puzzle2.js:8 | the unanchored search finds the least position where a token starts, or reports that none does |
| Day1Calibration.LastTokenIndex | day1/puzzle2.js:11 | the greedy `.*` before the group finds the greatest position where a token starts, or reports that none does |
| Day1Calibration.LastTokenExists | day1/puzzle2.js:7-12 | a line with a token has a last token, and the first token does not come after it |
| Day1Calibration.ToNumber | day1/puzzle2.js:21-33 | a digit maps to its value and each number word maps to its place (1 to 9) in `one`..`nine` |
| Day1Calibration.FirstToken | day1/puzzle2.js:7-9 | the first token of a line that has one is a token |
| Day1Calibration.LastToken | day1/puzzle2.js:10-12 | the last token of a line that has one is a token |
| Day1Calibration.CalibrationValue | day1/puzzle2.js:14-15 | the value of a line is between 0 and 99 |
| Day1Calibration.SolvePart1AsWritten | day1/puzzle1.js:3-14 | the loop as written adds 11 times the first digit of each line |
| Day1Calibration.AsWrittenDropsLastDigit | day1/puzzle1.js:7-10 | on the line "12" the code as written gives 11, but the calibration value is 12 |
| Day1Calibration.SolvePart1 | day1/puzzle1.js:3-14 | the sum over the lines of ten times the first digit plus the last digit |
| Day1Calibration.SolvePart2 | day1/puzzle2.js:3-19 | the sum over the lines of ten times the first token plus the last token, where tokens include number words |
| Day1Calibration.OverlappingLastToken | day1/puzzle2.js:11 | in "twone" the first token is "two" and the last is the overlapping "one", so the value is 21 |
| Day1Calibration.SingleTokenLine | day1/puzzle2.js:7-15 | a line with exactly one token has it as both first and last token, and has 11 times its value |
| Day2Cubes.CubesOf | day2/puzzle1.js:13 | a colour that a reveal does not name counts 0; otherwise its count is the listed one |
| Day2Cubes.SolvePart1 | day2/puzzle1.js:7-24 | the sum of the ids of the games in which every reveal fits in 12 red, 13 green and 14 blue cubes |
| Day2Cubes.PossibleIdsBounded | day2/puzzle1.js:10-21 | with non-negative ids the answer lies between 0 and the sum of all ids |
| Day2Cubes.MaxCubesIsMaximum | day2/puzzle2.js:11-15 | the fewest cubes of a colour is at least every count shown, and is shown by some reveal or is 0 |
| Day2Cubes.MissingColourGivesZeroPower | day2/puzzle2.js:7-17 | a game that never shows a colour has power 0 |
| Day2Cubes.FewestCubes | day2/puzzle2.js:7-15 | the three running maxima end up as the largest red, blue and green counts shown |
| Day2Cubes.SolvePart2 | day2/puzzle2.js:3-23 | the sum over the games of red times blue times green of the fewest cubes |
| Day3Schematic.RunEnd | day3/puzzle1.js:7 | the end of a digit run is the first non-digit position, and everything before it is a digit |
| Day3Schematic.RunsAreMaximal | day3/puzzle1.js:7-12 | every run reported by the global digit search is a maximal run of digits |
| Day3Schematic.RunsAreOrdered | day3/puzzle1.js:7-12 | the runs come in increasing column order, with a gap between any two |
| Day3Schematic.RunsCoverDigits | day3/puzzle1.js:7-12 | every digit of a row lies in one of the reported runs |
| Day3Schematic.IsEnginePart | day3/puzzle1.js:23-41 | true exactly when some cell of the box one cell around the run holds a symbol, that is, a character that is neither a digit nor `.` |
| Day3Schematic.SolvePart1 | day3/puzzle1.js:3-21 | the sum of the digit runs that touch a symbol, row by row |
| Day3Schematic.RowEnginePartSum | day3/puzzle1.js:9-17 | the loop over the matches of one row adds exactly the runs that touch a symbol |
| Day3Schematic.RunHoldsDigits | day3/puzzle1.js:7 | a maximal run lies inside its row and holds only digits |
| Day3Schematic.RowPartSumBounded | day3/puzzle1.js:9-17 | each row adds between 0 and the sum of its runs |
| Day3Schematic.TouchesIff | day3/puzzle2.js:56-72 | a run touches a cell exactly when the rows differ by at most one and the column lies within one of the run's span |
| Day3Schematic.RunIsAdjacent | day3/puzzle2.js:58-63 | the column loop with its `break` reports whether some cell of the run is adjacent |
| Day3Schematic.GetNumsByRow | day3/puzzle2.js:28-51 | one list per row holding exactly that row's digit runs |
| Day3Schematic.GetAdjacentNumbers | day3/puzzle2.js:53-68 | the numbers of the rows above, at and below that touch the cell, in row order, each once |
| Day3Schematic.SolvePart2 | day3/puzzle2.js:3-26 | the sum, over the `*` cells, of the product of the adjacent numbers where there are exactly two |
| Day4Scratchcards.WinningCardNumbers | day4/puzzle1.js:7-10 | the filter keeps only winning numbers and is no longer than the card's numbers |
| Day4Scratchcards.WinningCardNumbersMultiset | day4/puzzle1.js:8-10 | the filter keeps every occurrence of a winning number, duplicates included, and drops every other number |
| Day4Scratchcards.PointsDouble | day4/puzzle1.js:12-14 | the first match is worth 1 point and each further match doubles the score |
| Day4Scratchcards.SolvePart1 | day4/puzzle1.js:3-18 | the sum over the cards of 2^(k-1) points for k > 0 matches, and 0 otherwise |
| Day4Scratchcards.PointsBounded | day4/puzzle1.js:12-14 | a card's points are at most those of all its numbers matching |
| Day4Scratchcards.AmountIsCopies | day4/puzzle2.js:4-15 | after the loop has handled t cards, card m holds 1 plus the copies won from the first min(t, m) cards, per the independent definition `Copies` |
| Day4Scratchcards.AmountFinal | day4/puzzle2.js:6-15 | copies flow only forward, so once card m is reached its amount is final and equals `Copies` |
| Day4Scratchcards.CopiesAtLeastOne | day4/puzzle2.js:4 | every card has at least its original instance |
| Day4Scratchcards.TotalAtLeastCardCount | day4/puzzle2.js:17 | the total is at least the number of cards |
| Day4Scratchcards.SolvePart2 | day4/puzzle2.js:3-20 | the forward propagation in the array ends with the sum of every card's copies |
| Day5Almanac.ConvertPoint | day5/puzzle1.js:14-24 | the loop over the map with early return, as a recursion over its entries; its meaning is stated by ConvertPointFirstMatch, ConvertPointNoMatch and ConvertPointDisjoint |
| Day5Almanac.ConvertPointFirstMatch | day5/puzzle1.js:14-24 | a value is shifted by the delta of the first entry whose source interval holds it |
| Day5Almanac.ConvertPointNoMatch | day5/puzzle1.js:23 | a value that no entry holds is returned unchanged |
| Day5Almanac.ConvertPointDisjoint | day5/puzzle1.js:14-24 | with disjoint entries, the value is shifted by the one entry that holds it |
| Day5Almanac.ConvertPointOrderIndependent | day5/puzzle1.js:15 | with disjoint entries, the order of the map rows does not matter |
| Day5Almanac.SolvePart1 | day5/puzzle1.js:3-12 | the least location over the seeds: it is some seed's location and at most every seed's location; none for no seeds |
| Day5Almanac.InsertBySource | day5/puzzle2.js:14 | inserting adds exactly that entry, which lands in front or behind the old first entry |
| Day5Almanac.InsertKeepsSorted | day5/puzzle2.js:14 | inserting into a list sorted by source start keeps it sorted |
| Day5Almanac.SortBySource | day5/puzzle2.js:14 | a permutation of the map sorted by source start |
| Day5Almanac.SortKeepsDisjoint | day5/puzzle2.js:14 | sorting keeps the source intervals disjoint |
| Day5Almanac.SortKeepsEntries | day5/puzzle2.js:14 | sorting keeps exactly the map's entries |
| Day5Almanac.SortedMapApart | day5/puzzle2.js:14 | a sorted well-formed map has each entry end before the next begins |
| Day5Almanac.Intersecting | day5/puzzle2.js:28-34 | the filter keeps exactly the entries whose source interval meets the range |
| Day5Almanac.IntersectingSortedApart | day5/puzzle2.js:28-34 | filtering a sorted, separated map keeps it sorted and separated |
| Day5Almanac.ConvertOne | day5/puzzle2.js:24-72 | the cursor sweep over one range yields the ranges of the sweep definition |
| Day5Almanac.Convert | day5/puzzle2.js:20-76 | every range's pieces, in range order |
| Day5Almanac.ConvertRangeImages | day5/puzzle2.js:36-72 | one range becomes ranges holding exactly the images of its points under the map, each once |
| Day5Almanac.ConvertRangesImages | day5/puzzle2.js:20-76 | a map stage sends the integers of the input ranges to exactly their images, keeping the count |
| Day5Almanac.SeedRangesCover | day5/puzzle2.js:6-9 | the seed ranges hold exactly the x with start <= x < start + length of some pair; an odd trailing number is dropped |
| Day5Almanac.LowestStartIsLeast | day5/puzzle2.js:17 | on non-empty ranges the least lower bound is the least integer the ranges hold |
| Day5Almanac.PipelineImages | day5/puzzle2.js:11-15 | after all maps, the ranges hold exactly the locations of the input integers, as many as there were |
| Day5Almanac.SolvePart2 | day5/puzzle2.js:3-18 | the least start of the ranges after sorting each map and converting through all of them |
| Day5Almanac.SolvePart2IsLowestLocation | day5/puzzle2.js:3-18 | with positive lengths and well-formed maps, part 2 gives the least location of any seed in the seed ranges, as part 1 would seed by seed |
| Day7CamelCards.IndexOf | day7/puzzle1.js:20 | the position found holds the value, or it is -1 |
| Day7CamelCards.IndexOfFirst | day7/puzzle1.js:20 | -1 exactly for a missing value; otherwise no earlier position holds it |
| Day7CamelCards.IndexOfInjective | day7/puzzle1.js:42 | two listed values have the same position exactly when they are equal |
| Day7CamelCards.TallyKeys | day7/puzzle1.js:24-32 | the frequency dictionary has one key per distinct card of the hand |
| Day7CamelCards.TallyCountsOccurrences | day7/puzzle1.js:24-32 | each key's count is its number of occurrences in the hand |
| Day7CamelCards.TallySum | day7/puzzle1.js:24-32 | the counts add up to the number of cards |
| Day7CamelCards.Decimal | day7/puzzle1.js:34 | `String(n)` is a non-empty string of decimal digits |
| Day7CamelCards.DecimalRoundTrip | day7/puzzle1.js:34 | reading the digits of `String(n)` back gives n, so distinct counts have distinct strings |
| Day7CamelCards.StringAtMostTotal | day7/puzzle1.js:34 | the default `sort` order on strings relates every two strings one way or the other |
| Day7CamelCards.StringAtMostTransitive | day7/puzzle1.js:34 | the default `sort` order on strings is transitive |
| Day7CamelCards.StringAtMostAntisymmetric | day7/puzzle1.js:34 | strings related both ways are equal, so every sort in this order gives the same list |
| Day7CamelCards.SingleDigitOrder | day7/puzzle1.js:34 | for counts below 10 the string order is the numeric order, both ways |
| Day7CamelCards.InsertCount | day7/puzzle1.js:34 | insertion adds exactly that count |
| Day7CamelCards.SortCounts | day7/puzzle1.js:34 | the sorted counts are a permutation of the counts |
| Day7CamelCards.InsertCountStringSorted | day7/puzzle1.js:34 | inserting keeps the counts in string order |
| Day7CamelCards.SortCountsStringSorted | day7/puzzle1.js:34 | `.sort()` leaves the counts in the order of their decimal strings, as the default comparator does |
| Day7CamelCards.SortCountsAscending | day7/puzzle1.js:34 | counts below 10 come out in ascending numeric order |
| Day7CamelCards.Join | day7/puzzle1.js:34 | `.join("")` gives decimal digits, at least one per count |
| Day7CamelCards.JoinSingleDigits | day7/puzzle1.js:34 | counts below 10 join to exactly one digit each, in order |
| Day7CamelCards.GetHandType | day7/puzzle1.js:23-35 | the dictionary count, the string sort of its values and the join give the hand's type string |
| Day7CamelCards.OneCardTally | day7/puzzle1.js:24-32 | a hand of n copies of one card has one dictionary key, counted n times |
| Day7CamelCards.OneCardHandType | day7/puzzle1.js:23-35 | a hand of n copies of one card has the type `String(n)`, for every n |
| Day7CamelCards.IndexOfAt | day7/puzzle1.js:20 | `indexOf` gives the first position holding the value |
| Day7CamelCards.OneCardRank | day7/puzzle1.js:16-21 | a hand of n copies of one card ranks at the first listed type that spells n |
| Day7CamelCards.TwoDigitDecimal | day7/puzzle1.js:34 | a two-digit count is written as its tens digit then its units digit |
| Day7CamelCards.FourteenIsListedSecond | day7/puzzle1.js:4 | `String(14)` is the second listed type and not the first |
| Day7CamelCards.FourteenOfOneCard | day7/puzzle1.js:4 | fourteen K's have type "14", and so rank as four of a kind |
| Day7CamelCards.FiveOfOneCard | day7/puzzle1.js:4 | five A's have type "5", five of a kind |
| Day7CamelCards.FourteenKingsLoseToFiveAces | day7/puzzle1.js:12-21 | so compareHands ranks fourteen K's below five A's by type alone |
| Day7CamelCards.PartitionsOfFive | day7/puzzle1.js:4 | sorted positive counts summing to 5 form one of the partitions of 5 written out |
| Day7CamelCards.PartitionsAreHandTypes | day7/puzzle1.js:4 | every partition of 5, joined, is one of the seven listed hand types |
| Day7CamelCards.FiveCardHandTypes | day7/puzzle1.js:4 | every five-card hand's type string is one of the seven listed types, so `indexOf` never gives -1 |
| Day7CamelCards.CompareHandsByType | day7/puzzle1.js:16-21 | positive exactly when the first hand's type is listed earlier (stronger), zero exactly when the types are the same |
| Day7CamelCards.CompareHandsByCard | day7/puzzle1.js:37-49 | the loop with early return gives the difference of card ranks at the first position where the hands differ |
| Day7CamelCards.CardOrderZeroIffIdentical | day7/puzzle1.js:37-49 | on valid hands the card comparison is zero exactly when the hands are identical |
| Day7CamelCards.CompareHands | day7/puzzle1.js:12-14 | the type decides when the types differ; the cards only break ties |
| Day7CamelCards.CardOrderAntisymmetric | day7/puzzle1.js:37-49 | swapping the hands negates the card comparison, and a hand ties with itself |
| Day7CamelCards.CardOrderTransitive | day7/puzzle1.js:37-49 | the card comparison is transitive, for stronger and for at most as strong |
| Day7CamelCards.CompareAntisymmetric | day7/puzzle1.js:12-14 | compareHands(a, b) is -compareHands(b, a), and a hand ties with itself |
| Day7CamelCards.CompareTransitive | day7/puzzle1.js:12-14 | the sign of compareHands is transitive |
| Day7CamelCards.CompareZeroIffIdentical | day7/puzzle1.js:12-14 | on valid hands compareHands is zero exactly when the hands are identical |
| Day7CamelCards.CompareHandsConsistent | day7/puzzle1.js:7 | compareHands is a consistent comparator for the sort |
| Day7CamelCards.InsertPlay | day7/puzzle1.js:7 | insertion adds exactly that play |
| Day7CamelCards.SortPlays | day7/puzzle1.js:7 | the sorted game is a permutation of the game |
| Day7CamelCards.SortPlaysAscending | day7/puzzle1.js:7 | with a consistent comparator the sorted game is weakest first |
| Day7CamelCards.AscendingOrderIsUnique | day7/puzzle1.js:7 | with a comparator that ties only equal plays there is only one ascending order of the plays |
| Day7CamelCards.CompareHandsSeparates | day7/puzzle1.js:7-9 | on well-formed plays compareHands ties two plays only when they are the same play |
| Day7CamelCards.WinningsAreDetermined | day7/puzzle1.js:6-10 | the winnings do not depend on which sort produced the ascending order |
| Day7CamelCards.SortByCompareHandsAscending | day7/puzzle1.js:7 | the sort with compareHands leaves the plays weakest first |
| Day7CamelCards.SortGame | day7/puzzle1.js:7 | the in-place sort leaves the array holding the sorted plays, a permutation, ascending for a consistent comparator |
| Day7CamelCards.Score | day7/puzzle1.js:9 | the sum of each bid times its rank |
| Day7CamelCards.Solve | day7/puzzle1.js:6-10 | the game ends as the sort by compareHands of the input, weakest first and a permutation of it, and the result is its winnings |
| Day8Network.Move | day8/puzzle1.js:8-15 | one move takes the left successor exactly when the instruction at stepCount modulo the length is `L`, and the right one otherwise |
| Day8Network.NodeAfter | day8/puzzle1.js:7-18 | the node reached after k moves is a node of the network |
| Day8Network.FirstArrivalUnique | day8/puzzle1.js:7 | the first step count at which the walk stands on a goal node is unique |
| Day8Network.StepsToReach | day8/puzzle2.js:13-31 | the loop's count is the first arrival at a goal node; none means no arrival within the fuel bound |
| Day8Network.SolvePart1 | day8/puzzle1.js:3-21 | the number of steps of the first arrival from AAA at ZZZ, or none within the fuel bound |
| Day8Network.StartNodes | day8/puzzle2.js:4 | the start nodes are exactly the keys ending in A |
| Day8Network.ZeroStepsIffEndNode | day8/puzzle2.js:17 | the count is 0 exactly when the start already ends in Z |
| Day8Network.Gcd | day8/puzzle2.js:37-43 | the gcd of two numbers not both zero is positive |
| Day8Network.GcdDivides | day8/puzzle2.js:37-43 | the gcd divides both arguments |
| Day8Network.Bezout | day8/puzzle2.js:37-43 | the gcd is an integer combination of the arguments |
| Day8Network.GcdGreatest | day8/puzzle2.js:37-43 | every common divisor divides the gcd |
| Day8Network.LcmTimesGcd | day8/puzzle2.js:33-35 | the lcm times the gcd is the product, and the lcm is a positive common multiple |
| Day8Network.LcmLeast | day8/puzzle2.js:33-35 | the lcm divides every common multiple |
| Day8Network.LcmFold | day8/puzzle2.js:10 | the fold of lcm over positive counts is positive |
| Day8Network.LcmFoldIsLeastCommonMultiple | day8/puzzle2.js:10 | the fold is a common multiple of all the counts and divides every other common multiple |
| Day8Network.StartNodeCountPositive | day8/puzzle2.js:13-31 | a walk from a node ending in A takes at least one step |
| Day8Network.SolvePart2 | day8/puzzle2.js:3-11 | the start nodes are exactly the network's nodes ending in A; an answer comes with first-arrival counts for every start node, all positive, and is their lcm; none means no node ends in A, or some walk does not arrive within the fuel bound |
| Day9Mirage.ChooseAbove | day9/puzzle2.js:39 | C(n, k) is 0 for k > n |
| Day9Mirage.ChooseEnds | day9/puzzle2.js:28-35 | both ends of every row of Pascal's triangle are 1 |
| Day9Mirage.PascalRowFromPrevious | day9/puzzle2.js:28-35 | row n is a 1, the sums of neighbouring entries of row n - 1, and a closing 1 |
| Day9Mirage.NextRow | day9/puzzle2.js:28-35 | the inner loop builds row m of Pascal's triangle from row m - 1 |
| Day9Mirage.BinomialCache.constructor | day9/puzzle2.js:24 | the cache starts as the single row [1] |
| Day9Mirage.BinomialCache.Binomial | day9/puzzle2.js:26-40 | the cache is extended up to row n and stays valid, the old rows are kept, and the value is C(n, k) |
| Day9Mirage.GetExtrapolatedValue | day9/puzzle2.js:11-22 | the signed binomial sum over the history, with the cache kept valid |
| Day9Mirage.DifferencesDot | day9/puzzle2.js:15-19 | weights applied to the differences equal the shifted weights minus the padded weights applied to the values |
| Day9Mirage.CoefficientsStep | day9/puzzle2.js:15-19 | Pascal's rule on the signed binomial weights |
| Day9Mirage.ExtrapolationStep | day9/puzzle2.js:11-22 | the closed form gives the first value minus the closed form of the differences |
| Day9Mirage.ExtrapolationIsPreviousValue | day9/puzzle2.js:11-22 | the closed form equals extrapolation backwards through the difference table, for every history |
| Day9Mirage.PreviousValueOfZeros | day9/puzzle2.js:11-22 | a row of zeros extrapolates to 0 |
| Day9Mirage.ConstantHistory | day9/puzzle2.js:11-22 | a constant history extends backwards by the same constant |
| Day9Mirage.Solve | day9/puzzle2.js:3-9 | the sum over the report of the backward extrapolations |
| Day10PipeMaze.ConnectedTiles | day10/puzzle1.js:61-81 | the neighbours the tile's symbol connects to, north, south, west, east in that order; ConnectedTilesShape and ConnectedTilesCount state which are listed and how many |
| Day10PipeMaze.ConnectedTilesShape | day10/puzzle1.js:61-81 | each neighbour is listed exactly when the tile's symbol connects in its direction |
| Day10PipeMaze.ConnectedTilesCount | day10/puzzle1.js:61-81 | only the four neighbours are ever listed; a pipe symbol lists two, any other symbol none |
| Day10PipeMaze.FirstStartFromIsFirst | day10/puzzle1.js:32-43 | the row-major scan finds an `S` that no earlier scanned position holds, or reports that the scan holds none |
| Day10PipeMaze.GetStartTile | day10/puzzle1.js:32-43 | the nested loop with early return gives the first `S` in row-major order, or none |
| Day10PipeMaze.StartNeighbour | day10/puzzle1.js:45-59 | north exactly when the tile above points back, south exactly when that fails and the tile below points back, west otherwise |
| Day10PipeMaze.StartTileType | day10/puzzle2.js:74-88 | the inferred start pipe connects only to neighbours that point back; none (the throw) exactly when at most one neighbour points back |
| Day10PipeMaze.StartTileTypeExact | day10/puzzle2.js:74-88 | with exactly two neighbours pointing back, the inferred pipe connects to exactly those two |
| Day10PipeMaze.StartNeighbourFollowsPipe | day10/puzzle2.js:90-104 | with two neighbours pointing back, the first step leaves S along the inferred pipe |
| Day10PipeMaze.Replace | day10/puzzle2.js:33 | writing the start pipe changes that one tile and nothing else |
| Day10PipeMaze.FirstOtherIsFirst | day10/puzzle1.js:19-21 | the filter's first element is the first connection other than the previous tile; none exactly when every connection is the previous tile |
| Day10PipeMaze.AdvanceFollowsPipe | day10/puzzle1.js:18-27 | a step moves along a connection of the current tile and never straight back |
| Day10PipeMaze.AfterStep | day10/puzzle1.js:18-27 | after k + 1 steps is one step after k steps |
| Day10PipeMaze.Trail | day10/puzzle1.js:18-27 | a trail starts at the current tile and has at most fuel + 1 tiles |
| Day10PipeMaze.TrailFollowsWalk | day10/puzzle1.js:18-27 | the trail lists the walk's tiles step by step and stops at the first `S` |
| Day10PipeMaze.TrailFollowsPipes | day10/puzzle1.js:18-27 | consecutive trail tiles are joined by a pipe and the walk never turns back |
| Day10PipeMaze.TrailAbsentIffNoArrival | day10/puzzle1.js:18-27 | there is no trail exactly when the walk does not reach an `S` within the fuel bound |
| Day10PipeMaze.TrailFuelIndependent | day10/puzzle1.js:18-27 | more fuel never changes a trail that was found |
| Day10PipeMaze.WalkLoop | day10/puzzle2.js:14-31 | the loop's count is the trail length and its tile set is S together with the trail; none exactly when there is no trail |
| Day10PipeMaze.SolvePart1 | day10/puzzle1.js:10-30 | half the loop length rounded down, for the first `S` |
| Day10PipeMaze.FarthestDistanceIsHalfLoop | day10/puzzle1.js:10-30 | if the walk is first back on S after k steps, the answer is (k + 1) / 2 rounded down |
| Day10PipeMaze.InsideInRowBounds | day10/puzzle2.js:40-52 | loop tiles are never counted, and nothing is counted before a row's first crossing |
| Day10PipeMaze.CountInside | day10/puzzle2.js:35-52 | per row the flag flips at each loop tile reaching north, and each non-loop tile met while it is set is counted |
| Day10PipeMaze.SolvePart2 | day10/puzzle2.js:10-55 | the enclosed-tile count in the maze with S replaced by its inferred pipe; none when there is no S, no start type or no closed walk |
| Day11CosmicExpansion.RowHasGalaxyIff | day11/puzzle2.js:11-19 | a row is flagged exactly when some scanned cell of it holds `#` |
| Day11CosmicExpansion.ColHasGalaxyIff | day11/puzzle2.js:11-19 | a column is flagged exactly when some scanned cell of it holds `#` |
| Day11CosmicExpansion.RowGalaxiesExact | day11/puzzle2.js:12-18 | a row yields exactly its galaxies, left to right |
| Day11CosmicExpansion.GalaxiesUpToExact | day11/puzzle2.js:11-19 | the list holds exactly the galaxies of the scanned rectangle, strictly in reading order |
| Day11CosmicExpansion.GalaxyLinesFlagged | day11/puzzle2.js:14-16 | every collected galaxy has its row and column flagged |
| Day11CosmicExpansion.CollectGalaxies | day11/puzzle2.js:7-19 | the first double loop fills both flag arrays and lists the galaxies in reading order |
| Day11CosmicExpansion.ExpandedDistanceBasics | day11/puzzle2.js:28-45 | the distance is symmetric, 0 from a galaxy to itself, and never below the Manhattan distance |
| Day11CosmicExpansion.EmptyBetweenSplit | day11/puzzle2.js:35-45 | the empty lines strictly between two lines split at a line in between |
| Day11CosmicExpansion.ExpandGap | day11/puzzle2.js:35-45 | from a flagged line, the expanded gap is the plain gap plus 999999 per empty line in between |
| Day11CosmicExpansion.ExpandedDistanceInExpandedUniverse | day11/puzzle2.js:28-45 | between two galaxies the distance is the Manhattan distance in the universe where every empty line is a million lines |
| Day11CosmicExpansion.PairDistance | day11/puzzle2.js:25-45 | the two counting loops give the pair's expanded distance |
| Day11CosmicExpansion.SumDistances | day11/puzzle2.js:21-49 | the pair loops add the distance of every pair i < j |
| Day11CosmicExpansion.Solve | day11/puzzle2.js:3-52 | the total of the expanded distances over the pairs of galaxies |
| Day11CosmicExpansion.EachPairOnce | day11/puzzle2.js:23-24 | each unordered pair is counted once: the total is half the sum over all ordered pairs |
| Day12HotSprings.DropLeadingWorking | day12/puzzle2.js:66-68 | the shift loop leaves a suffix that does not start with `.`, with the same unknown springs, shorter when a `.` led |
| Day12HotSprings.DropTrailingWorking | day12/puzzle2.js:70-72 | the pop loop leaves a prefix that does not end with `.`, with the same unknown springs, shorter when a `.` trailed |
| Day12HotSprings.StripWorkingShape | day12/puzzle2.js:65-75 | after stripping, the springs neither start nor end with `.` |
| Day12HotSprings.RunsSum | day12/puzzle2.js:55-60 | the damaged runs add up to the number of damaged springs |
| Day12HotSprings.BruteForceNoGroups | day12/puzzle2.js:49-51 | with no groups left exactly one completion matches, unless a `#` is fixed |
| Day12HotSprings.BruteForceInfeasible | day12/puzzle2.js:55-60 | with fewer springs that can be damaged than the groups need, nothing matches |
| Day12HotSprings.BruteForceDropLeading | day12/puzzle2.js:66-68 | dropping leading working springs does not change the number of matching completions |
| Day12HotSprings.BruteForceDropTrailing | day12/puzzle2.js:70-72 | dropping trailing working springs does not change the number of matching completions |
| Day12HotSprings.FillGroup | day12/puzzle2.js:97-110 | filling the next group from the springs matches exactly when no `.` is inside it and no `#` follows it |
| Day12HotSprings.ArrangementsCountsCompletions | day12/puzzle2.js:31-115 | the recursion counts exactly the completions of the springs whose damaged runs are the groups, in order |
| Day12HotSprings.ArrangementCounter.constructor | day12/puzzle2.js:29 | the cache starts empty |
| Day12HotSprings.ArrangementCounter.GetArrangements | day12/puzzle2.js:31-115 | the result is the count for the scenario, which is then cached; every cached value stays the count of its own key |
| Day12HotSprings.UnfoldShape | day12/puzzle2.js:13-18 | unfolding gives five copies of the springs joined by `?`, and the groups five times over |
| Day12HotSprings.UnfoldKeepsShape | day12/puzzle2.js:13-18 | unfolding keeps the springs well formed and the groups positive |
| Day12HotSprings.TotalArrangementsCountsCompletions | day12/puzzle2.js:7-27 | the answer adds up, over the unfolded records, the numbers of matching completions |
| Day12HotSprings.Solve | day12/puzzle2.js:7-27 | the loop over the records with the shared cache gives the sum of the arrangements of the unfolded records |
| Day12HotSprings.SourceKeyInjective | day12/puzzle2.js:32 | with every group below ten and no `;` among the springs, the string key identifies the scenario |
| Day12HotSprings.SourceKeyCollision | day12/puzzle2.js:32-37 | the records `###########` with groups `11` and with groups `1,1` unfold to the same string key but have different counts |
| Day13PointOfIncidence.ReflectsIff | day13/puzzle1.js:35-46 | a row is a line of reflection exactly when every mirrored pair of rows, as far as both sides reach, is equal |
| Day13PointOfIncidence.HasHorizontalReflection | day13/puzzle1.js:35-46 | the pair loop with early exit reports exactly whether the row is a line of reflection |
| Day13PointOfIncidence.FirstReflectionIsLeast | day13/puzzle2.js:58-66 | the search finds the least line of reflection other than the forbidden one, or reports that there is none |
| Day13PointOfIncidence.GetHorizontalReflectionRow | day13/puzzle2.js:58-66 | the loop from row 1 with early return gives the first reflecting row other than the forbidden one |
| Day13PointOfIncidence.ColumnIndex | day13/puzzle1.js:54-58 | the k-th symbol of a rotated row is column c of the k-th row from the bottom |
| Day13PointOfIncidence.RotatedShape | day13/puzzle1.js:48-61 | the rotation has one row per column, as long as the pattern is high, read bottom to top |
| Day13PointOfIncidence.GetRotatedPattern | day13/puzzle1.js:48-61 | the double loop builds the pattern turned a quarter clockwise |
| Day13PointOfIncidence.RotatedReflects | day13/puzzle1.js:20-22 | a line of reflection of the rotated pattern is exactly a vertical line of reflection of the pattern |
| Day13PointOfIncidence.FirstColumnIsLeast | day13/puzzle1.js:20-22 | the first reflecting row of the rotation is the least vertical line of reflection |
| Day13PointOfIncidence.SummaryMeaning | day13/puzzle1.js:13-23 | with a horizontal line the summary is 100 times the least one; otherwise it is the least vertical line, or none |
| Day13PointOfIncidence.GetSummary | day13/puzzle1.js:13-23 | the summary of one pattern as defined above |
| Day13PointOfIncidence.AddSummary | day13/puzzle1.js:7 | a missing summary turns the sum into a non-number; otherwise the summaries add up |
| Day13PointOfIncidence.TotalSummaryDefined | day13/puzzle1.js:3-11 | the total is a number exactly when every pattern has a line of reflection |
| Day13PointOfIncidence.Solve | day13/puzzle1.js:3-11 | the sum of the summaries of the patterns |
| Day13PointOfIncidence.Flip | day13/puzzle2.js:28 | `.` becomes `#` and any other symbol becomes `.` |
| Day13PointOfIncidence.SmudgedChangesOneCell | day13/puzzle2.js:24-31 | each attempt flips exactly one cell and leaves every other cell unchanged |
| Day13PointOfIncidence.SearchFromIsFirst | day13/puzzle2.js:22-55 | the search returns the first cell in reading order whose flip yields an answer, or none |
| Day13PointOfIncidence.CellAnswerMeaning | day13/puzzle2.js:33-51 | a flip answers with the least new horizontal line times 100, else the least new vertical line, else nothing |
| Day13PointOfIncidence.SmudgedSummaryIsFirst | day13/puzzle2.js:13-56 | the cell found is the first in reading order whose flip makes a line appear other than the pattern's original ones |
| Day13PointOfIncidence.GetSmudgedSummary | day13/puzzle2.js:13-56 | the summary of the first successful smudge, with that cell left flipped in the pattern; with none, the pattern is restored |
| Day13PointOfIncidence.SolveSmudged | day13/puzzle2.js:3-11 | the sum of the smudged summaries |
| Day14ReflectorDish.SlideTarget | day14/puzzle2.js:52-54 | a rock comes to rest after passing every empty cell directly before it, and stops at a non-empty cell or the edge |
| Day14ReflectorDish.SlideMovesThroughEmpty | day14/puzzle2.js:49-59 | a rock moves only over empty cells, to its target, and its old cell becomes empty; otherwise the line is unchanged |
| Day14ReflectorDish.TiltLineKeeps | day14/puzzle2.js:43-63 | tilting a line permutes its cells, moving only rocks into empty cells and keeping every other symbol in place |
| Day14ReflectorDish.TiltLineSettled | day14/puzzle2.js:43-63 | after a tilt no rock has an empty cell directly before it |
| Day14ReflectorDish.WeightAfterSlide | day14/puzzle1.js:26 | the rock visited adds its distance from its resting place to the far end |
| Day14ReflectorDish.IndexOf | day14/puzzle2.js:43-129 | every cell of the platform has a line and a position on it along each direction |
| Day14ReflectorDish.CellNaming | day14/puzzle2.js:43-129 | line and position name the cells one to one |
| Day14ReflectorDish.LineOfTilted | day14/puzzle2.js:43-129 | each line of the tilted platform is that line tilted on its own |
| Day14ReflectorDish.TiltedProperties | day14/puzzle2.js:43-129 | a tilt permutes each line, keeps the cube rocks, and leaves no rock with an empty cell on the side it rolled towards |
| Day14ReflectorDish.TiltedNorthSettled | day14/puzzle2.js:43-63 | after a north tilt no rock has an empty cell directly above it |
| Day14ReflectorDish.RowLoadCountsRocks | day14/puzzle2.js:137-143 | a row weighs its distance to the south edge once per rounded rock in it |
| Day14ReflectorDish.NorthWeightIsLoad | day14/puzzle1.js:12-29 | the rocks' resting distances, summed column by column during the north tilt, equal the load summed row by row |
| Day14ReflectorDish.FindRest | day14/puzzle2.js:50-54 | the inner while loop stops at the rock's resting place |
| Day14ReflectorDish.SlideInPlace | day14/puzzle2.js:49-59 | one rock slides in the array to its resting place; the other lines are unchanged |
| Day14ReflectorDish.MoveRock | day14/puzzle2.js:56-59 | the rock is written at its resting place and its old cell emptied; nothing else changes |
| Day14ReflectorDish.TiltLineInPlace | day14/puzzle2.js:48-61 | the cells of one line are visited from the side the rocks roll towards, leaving the line tilted, and the weight is that of the tilted line |
| Day14ReflectorDish.AllLinesTilted | day14/puzzle2.js:47-62 | once every line is tilted the array holds the tilted platform |
| Day14ReflectorDish.TiltNextLine | day14/puzzle2.js:47-62 | one pass of the outer loop: line l ends tilted as that line of the tilted platform, the lines before it stay tilted and the later ones untouched, and the weight is that tilted line's |
| Day14ReflectorDish.Tilt | day14/puzzle2.js:43-129 | the array ends holding the platform tilted in the given direction, and the weight is that of its lines |
| Day14ReflectorDish.TiltNorth | day14/puzzle2.js:43-63 | the platform tilted north |
| Day14ReflectorDish.TiltSouth | day14/puzzle2.js:65-85 | the platform tilted south |
| Day14ReflectorDish.TiltWest | day14/puzzle2.js:87-107 | the platform tilted west |
| Day14ReflectorDish.TiltEast | day14/puzzle2.js:109-129 | the platform tilted east |
| Day14ReflectorDish.Spin | day14/puzzle2.js:36-41 | one spin cycle: north, west, south, east |
| Day14ReflectorDish.SolvePart1 | day14/puzzle1.js:6-32 | the platform ends tilted north and the result is its load |
| Day14ReflectorDish.PlatformLoad | day14/puzzle2.js:131-146 | the sum over the rounded rocks of their distance to the south edge |
| Day14ReflectorDish.IterateAdd | day14/puzzle2.js:13-33 | m spins followed by n spins are m + n spins |
| Day14ReflectorDish.CycleSkip | day14/puzzle2.js:20-28 | with a repeat from spin a to spin b, the platform after n >= a spins is the one after a + (n - a) mod (b - a) spins |
| Day14ReflectorDish.EncodeInjective | day14/puzzle2.js:18 | for a fixed size, different platforms have different keys |
| Day14ReflectorDish.VisitedExtend | day14/puzzle2.js:32 | storing a new key keeps every stored key mapped to the first spin count that produced it |
| Day14ReflectorDish.VisitedRepeat | day14/puzzle2.js:20-22 | a key found again closes a cycle from its stored spin count to the current one |
| Day14ReflectorDish.FastForwardReachesTarget | day14/puzzle2.js:21-27 | spinning the remaining spins modulo the cycle length lands on the platform after a billion spins |
| Day14ReflectorDish.FastForward | day14/puzzle2.js:21-29 | the array ends holding the platform after a billion spins, and the result is its load |
| Day14ReflectorDish.SolvePart2 | day14/puzzle2.js:8-34 | the load of the platform after a billion spins; none only when no platform repeats within the fuel bound |
| Day15Lenses.Hash | day15/puzzle1.js:13-25 | the running value is always one of 0..255 |
| Day15Lenses.HashIsPolynomialModulo | day15/puzzle1.js:16-22 | the value reduced at every step equals the unreduced polynomial sum of code times a power of 17, taken modulo 256 |
| Day15Lenses.HashStep | day15/puzzle1.js:17-21 | appending a character adds its code, multiplies by 17 and reduces modulo 256 |
| Day15Lenses.GetValue | day15/puzzle1.js:13-25 | the loop over the character codes computes the HASH value, which lies in 0..255 |
| Day15Lenses.GetBox | day15/puzzle2.js:37-49 | the same computation names one of the 256 boxes |
| Day15Lenses.SumHashesBounds | day15/puzzle1.js:3-11 | the sum lies between 0 and 255 times the number of steps |
| Day15Lenses.SolvePart1 | day15/puzzle1.js:3-11 | the sum of the HASH values of the steps |
| Day15Lenses.EmptyBoxes | day15/puzzle2.js:4 | 256 empty boxes |
| Day15Lenses.WithoutLabelContents | day15/puzzle2.js:11-13 | removal leaves no lens with that label, keeps every other lens and adds none |
| Day15Lenses.FindLabel | day15/puzzle2.js:19-21 | the first lens with that label, or none when no lens has it |
| Day15Lenses.ApplyStepFrame | day15/puzzle2.js:7-31 | a step changes only the box its label hashes to |
| Day15Lenses.RemoveDeletesOne | day15/puzzle2.js:11-13 | with distinct labels, removal deletes exactly the one lens with that label and keeps the others in order |
| Day15Lenses.UpsertEffect | day15/puzzle2.js:19-30 | on a present label only that lens's focal length changes; on an absent label the lens is appended |
| Day15Lenses.ApplyStepWellPlaced | day15/puzzle2.js:6-32 | every step keeps each lens in the box its label hashes to and the labels in a box distinct |
| Day15Lenses.ApplyStepsWellPlaced | day15/puzzle2.js:6-32 | the same holds after any sequence of steps |
| Day15Lenses.EmptyBoxesHaveNoPower | day15/puzzle2.js:51-61 | empty boxes have focusing power 0 |
| Day15Lenses.BoxPowerNonNegative | day15/puzzle2.js:54-58 | non-negative focal lengths give a non-negative power |
| Day15Lenses.IndexOfEquals | day15/puzzle2.js:15 | the first `=` of the step, or none |
| Day15Lenses.ParseStep | day15/puzzle2.js:7-16 | a trailing `-` removes the label before it; otherwise the label is the text before the `=` |
| Day15Lenses.ParseSteps | day15/puzzle2.js:6 | each step parsed in order |
| Day15Lenses.Facility.constructor | day15/puzzle2.js:4 | the facility starts with 256 empty boxes |
| Day15Lenses.Facility.Remove | day15/puzzle2.js:7-13 | the array ends as the removal step defines |
| Day15Lenses.Facility.Insert | day15/puzzle2.js:14-31 | the array ends as the insertion step defines |
| Day15Lenses.Facility.GetFocusingPower | day15/puzzle2.js:51-61 | the sum of (box + 1) times (slot + 1) times the focal length |
| Day15Lenses.SolvePart2 | day15/puzzle2.js:3-35 | the focusing power after every step is applied to empty boxes |
| Day16FloorWillBeLava.Move | day16/puzzle1.js:102-104 | the beam takes the new direction and steps one tile along it |
| Day16FloorWillBeLava.MoveToEmptySpace | day16/puzzle1.js:54-58 | one beam leaves, in the direction it came, one step from the tile |
| Day16FloorWillBeLava.MoveToLeftMirror | day16/puzzle1.js:60-65 | one beam leaves, one step along its new unit direction; MirrorTable gives the turn of each direction |
| Day16FloorWillBeLava.MoveToRightMirror | day16/puzzle1.js:67-72 | one beam leaves, one step along its new unit direction; MirrorTable gives the turn of each direction |
| Day16FloorWillBeLava.MoveToHorizontalMirror | day16/puzzle1.js:74-86 | two beams leave exactly when the beam moves along a column, both moving along the row; otherwise it passes; each leaves one step along its unit direction |
| Day16FloorWillBeLava.MoveToVerticalMirror | day16/puzzle1.js:88-100 | two beams leave exactly when the beam moves along a row, both moving along the column; otherwise it passes; each leaves one step along its unit direction |
| Day16FloorWillBeLava.Successors | day16/puzzle1.js:36-46 | at most two beams leave a tile, each one step away in its own unit direction |
| Day16FloorWillBeLava.MirrorTable | day16/puzzle1.js:60-72 | `\` swaps the direction components and `/` swaps and negates them; the full table of turns, and two reflections in the same mirror restore the direction |
| Day16FloorWillBeLava.SplitterBehaviour | day16/puzzle1.js:74-100 | a splitter met side-on emits the two perpendicular beams; met end-on it acts as empty space |
| Day16FloorWillBeLava.ClosedReachableIsReachSet | day16/puzzle1.js:13-49 | a closed set of in-grid states that are all reachable is exactly the reachable set |
| Day16FloorWillBeLava.ReachSetInClosed | day16/puzzle1.js:13-49 | every closed set contains every reachable state |
| Day16FloorWillBeLava.InReachSet | day16/puzzle1.js:13-49 | membership in the reachable set means an in-grid state some trace reaches |
| Day16FloorWillBeLava.WorklistStart | day16/puzzle1.js:9-11 | the start beams with nothing visited satisfy the worklist invariant |
| Day16FloorWillBeLava.WorklistDrop | day16/puzzle1.js:14-26 | dropping a beam off the grid or already visited keeps the invariant |
| Day16FloorWillBeLava.WorklistVisit | day16/puzzle1.js:28-48 | visiting a new state energizes its tile, pushes its successors, keeps the invariant and shrinks the unvisited states |
| Day16FloorWillBeLava.WorklistDone | day16/puzzle1.js:51 | with the worklist empty the number of energized tiles is the number of tiles reachable states enter |
| Day16FloorWillBeLava.GetEnergizedTiles | day16/puzzle2.js:55-101 | the loop returns the number of tiles entered by some beam state reachable from the starts |
| Day16FloorWillBeLava.SolvePart1 | day16/puzzle1.js:8-52 | the energized count for one beam entering the top-left tile heading east |
| Day16FloorWillBeLava.CellsCount | day16/puzzle2.js:9-10 | a grid of rows by columns has rows times columns tiles |
| Day16FloorWillBeLava.EnergizedBounds | day16/puzzle1.js:28-32 | an in-grid start energizes at least one tile and never more than the grid holds |
| Day16FloorWillBeLava.SolvePart2 | day16/puzzle2.js:8-53 | the result is the largest count over all edge starts heading inward: every edge start is at most it and one attains it; it is at least the part-1 count and at most the number of tiles |
| Day17ClumsyCrucible.GetNewDirections | day17/puzzle1.js:105-121 | for a compass direction, three offers while fewer than three blocks were taken in a row and two after; NewDirectionsMeaning says which |
| Day17ClumsyCrucible.Move | day17/puzzle1.js:123-125 | a compass direction moves to a neighbouring block, changing exactly one of row and column by one |
| Day17ClumsyCrucible.NewDirectionsMeaning | day17/puzzle1.js:105-121 | straight on is offered exactly when fewer than three blocks were taken in a row, both turns always are, reversing never is, and all offers are compass directions |
| Day17ClumsyCrucible.SuccessorsUpToShape | day17/puzzle1.js:63-86 | each successor is the step from the state in one of the offered directions |
| Day17ClumsyCrucible.SuccessorShape | day17/puzzle1.js:63-86 | a successor moves one block in a compass direction; its count grows by one going straight and restarts at one after a turn, staying within 1..3 |
| Day17ClumsyCrucible.PathStateShape | day17/puzzle1.js:20-36 | every state on a run has a compass direction and a count in 1..3 |
| Day17ClumsyCrucible.PathExtend | day17/puzzle1.js:71-84 | extending a run by a successor adds that block's heat loss |
| Day17ClumsyCrucible.Insert | day17/puzzle1.js:86 | inserting gives a permutation of the old worklist plus the new scenario, headed by the scenario or the old head |
| Day17ClumsyCrucible.InsertKeepsSorted | day17/puzzle1.js:86 | inserting into a worklist sorted by descending heat loss keeps it sorted |
| Day17ClumsyCrucible.SortByHeatLoss | day17/puzzle1.js:86 | the worklist sorted by descending heat loss, a permutation of the input |
| Day17ClumsyCrucible.SortedLastIsLeast | day17/puzzle1.js:47 | after the sort the popped scenario has the least heat loss on the worklist |
| Day17ClumsyCrucible.Pushes | day17/puzzle1.js:78-83 | one scenario per successor, carrying the new heat loss |
| Day17ClumsyCrucible.RelaxStart | day17/puzzle1.js:38-44 | the two first moves, south and east with no heat lost, and an empty table satisfy the search invariant |
| Day17ClumsyCrucible.RelaxSkip | day17/puzzle1.js:54-60 | popping a scenario that does not lower the recorded heat loss keeps the invariant |
| Day17ClumsyCrucible.RunTo | day17/puzzle1.js:48-52 | a justified scenario extends a run whose heat loss is the scenario's plus its block's |
| Day17ClumsyCrucible.PushesJustified | day17/puzzle1.js:71-84 | the scenarios pushed after a run are justified by it |
| Day17ClumsyCrucible.RelaxImprove | day17/puzzle1.js:54-86 | recording a lower heat loss and pushing the successors keeps the invariant |
| Day17ClumsyCrucible.RelaxReorder | day17/puzzle1.js:86 | reordering the worklist keeps the invariant |
| Day17ClumsyCrucible.TableBoundsRuns | day17/puzzle1.js:46-89 | with the worklist empty, every run's last state is tabled at no more than the run's heat loss |
| Day17ClumsyCrucible.PushSuccessors | day17/puzzle1.js:63-84 | the loop appends exactly one scenario per in-bounds successor, in the order of the offered directions |
| Day17ClumsyCrucible.ExploreNext | day17/puzzle1.js:46-88 | one turn keeps the invariant, only lowers entries, adds at most the popped state and keeps the worklist sorted |
| Day17ClumsyCrucible.MinHeatLoss | day17/puzzle1.js:91-102 | the minimum of two heat losses that may be infinite |
| Day17ClumsyCrucible.LeastEntryAdd | day17/puzzle1.js:93-99 | taking one more state into the running minimum keeps it the least entry |
| Day17ClumsyCrucible.FactoryHeatLoss | day17/puzzle1.js:91-102 | infinite exactly when no bottom-right state is tabled; otherwise the least tabled one |
| Day17ClumsyCrucible.LeastFromTable | day17/puzzle1.js:91-102 | on an empty worklist the least tabled bottom-right entry is the least heat loss over every run |
| Day17ClumsyCrucible.Solve | day17/puzzle1.js:10-103 | when the search finishes, its answer is the least heat loss of any run from the top-left to the bottom-right block, infinite when none arrives |
| Day18LavaductLagoon.Repeat | day18/puzzle1.js:16 | `amount` copies of the instruction's letter |
| Day18LavaductLagoon.LettersValid | day18/puzzle1.js:15-17 | unfolding a plan of valid instructions gives only the four direction letters |
| Day18LavaductLagoon.TightBoundsWiden | day18/puzzle1.js:19-22 | widening tight bounds by a new tile gives the tight bounds of the larger trench |
| Day18LavaductLagoon.BoundsOfTight | day18/puzzle1.js:10-28 | the bounds the trace keeps are the least ones holding the origin and every trench tile |
| Day18LavaductLagoon.StepAppend | day18/puzzle1.js:17-26 | one more step moves the digger, adds the tile entered and widens the bounds by it |
| Day18LavaductLagoon.Step | day18/puzzle1.js:75-80 | `U` and `D` change only the row by one, `L` and `R` only the column; `U` and `L` go down by one in row + column, `D` and `R` up by one |
| Day18LavaductLagoon.DigTrench | day18/puzzle1.js:4-28 | the loops record exactly the tiles the plan enters and its tight bounds |
| Day18LavaductLagoon.RectTilesCount | day18/puzzle1.js:30-33 | a rectangle of height by width holds height times width tiles |
| Day18LavaductLagoon.InBoxTiles | day18/puzzle1.js:42-47 | a tile is one of the box's tiles exactly when it lies within the padded bounds |
| Day18LavaductLagoon.PaddedBoxCount | day18/puzzle1.js:30-33 | the padded box has (width + 2) times (height + 2) tiles |
| Day18LavaductLagoon.TrenchInsidePaddedBox | day18/puzzle1.js:35 | every trench tile lies in the padded box and is not its corner, where the flood starts |
| Day18LavaductLagoon.ClosedHoldsOutside | day18/puzzle1.js:39-66 | a set holding the corner and the free neighbours of its members contains every tile reachable from the corner |
| Day18LavaductLagoon.FloodStart | day18/puzzle1.js:35-37 | the corner on the stack, nothing counted and the trench visited satisfy the flood invariant |
| Day18LavaductLagoon.FloodDrop | day18/puzzle1.js:42-55 | skipping a tile outside the box or visited keeps the invariant |
| Day18LavaductLagoon.FloodVisit | day18/puzzle1.js:57-65 | counting a new free tile and pushing its neighbours keeps the invariant and shrinks the uncounted tiles |
| Day18LavaductLagoon.FloodDone | day18/puzzle1.js:39-66 | with the stack empty the counted tiles are exactly those a walk from the corner reaches |
| Day18LavaductLagoon.PushNeighbours | day18/puzzle1.js:61-65 | the four neighbours pushed in the order up, down, left, right |
| Day18LavaductLagoon.FloodTurn | day18/puzzle1.js:40-65 | one turn pops the last tile; a tile outside the padded box or already visited is skipped with nothing else changed; otherwise it is visited, counted and its four neighbours pushed; the invariant is kept |
| Day18LavaductLagoon.CountOutside | day18/puzzle1.js:35-66 | the flood counts exactly the padded-box tiles reachable from the corner without crossing the trench |
| Day18LavaductLagoon.SolvePart1 | day18/puzzle1.js:3-69 | the volume is the number of padded-box tiles no walk from the corner reaches |
| Day18LavaductLagoon.LagoonVolume | day18/puzzle1.js:30-33 | the padded box holds (width + 2) * (height + 2) tiles, so the lagoon is that many less the outside tiles |
| Day18LavaductLagoon.TrenchInLagoon | day18/puzzle1.js:3-69 | every trench tile belongs to the lagoon |
| Day18LavaductLagoon.HexDigitValue | day18/puzzle2.js:76 | a hexadecimal digit's value is below 16 |
| Day18LavaductLagoon.HexValueBound | day18/puzzle2.js:76 | k hexadecimal digits spell a number below 16 to the k |
| Day18LavaductLagoon.HexAppend | day18/puzzle2.js:76 | one more digit multiplies the value by 16 and adds the digit |
| Day18LavaductLagoon.HexRoundTrip | day18/puzzle2.js:76 | writing a number that fits in k digits and reading it back gives the number |
| Day18LavaductLagoon.Decode | day18/puzzle2.js:76-77 | the length is the value of all digits but the last, and the last digit picks right, down, left or up |
| Day18LavaductLagoon.DecodeSample | day18/puzzle2.js:76-77 | the colour `70c710` decodes to 461937 tiles to the right |
| Day18LavaductLagoon.Plan | day18/puzzle2.js:75-77 | each colour decoded in order |
| Day18LavaductLagoon.VerticalEdge | day18/puzzle2.js:84-88 | the edge joins the two points, top first |
| Day18LavaductLagoon.HorizontalEdge | day18/puzzle2.js:94-98 | the edge joins the two points, left first |
| Day18LavaductLagoon.EdgesOrdered | day18/puzzle2.js:81-101 | every vertical edge stays in one column, top first, and every horizontal edge in one row, left first |
| Day18LavaductLagoon.Distinct | day18/puzzle2.js:103-110 | the values kept once each, in first-insertion order, with the same elements |
| Day18LavaductLagoon.InsertInt | day18/puzzle2.js:112-113 | inserting keeps the list ascending and adds exactly the new number |
| Day18LavaductLagoon.SortInts | day18/puzzle2.js:112-113 | an ascending permutation of the numbers |
| Day18LavaductLagoon.SortedNoDuplicates | day18/puzzle2.js:109-113 | sorting distinct numbers gives a strictly increasing list of the same numbers |
| Day18LavaductLagoon.VertexCoordinates | day18/puzzle2.js:103-113 | the vertex rows and columns come out strictly increasing and are exactly the rows and columns the digger stops at |
| Day18LavaductLagoon.TrenchAppend | day18/puzzle2.js:75-106 | one more instruction moves the digger, adds one edge of the right kind and one vertex row and column |
| Day18LavaductLagoon.AddDistinct | day18/puzzle2.js:103-104 | `Set.prototype.add` keeps the set equal to the distinct values added so far |
| Day18LavaductLagoon.DistinctStep | day18/puzzle2.js:103-104 | adding a value to the set leaves it as it is when present and appends it otherwise |
| Day18LavaductLagoon.GetTrenchData | day18/puzzle2.js:66-121 | the loop produces the plan's vertical and horizontal edges and its sorted distinct vertex rows and columns |
| Day18LavaductLagoon.CompressedInsideArea | day18/puzzle2.js:20-53 | the nested loops add the area of every compressed cell whose middle an odd number of vertical edges passes on the left |
| Day18LavaductLagoon.BandInsideArea | day18/puzzle2.js:21-52 | the inner loop adds the inside cells of one band of rows |
| Day18LavaductLagoon.VerticalLengths | day18/puzzle2.js:55-57 | the sum of the vertical edge lengths |
| Day18LavaductLagoon.HorizontalLengths | day18/puzzle2.js:59-61 | the sum of the horizontal edge lengths |
| Day18LavaductLagoon.SolvePart2 | day18/puzzle2.js:10-64 | twice the result: twice the inside area, plus the edge lengths, plus two |
| Day18LavaductLagoon.VerticalParity | day18/puzzle2.js:55-57 | the vertical lengths have the parity of the final row |
| Day18LavaductLagoon.HorizontalParity | day18/puzzle2.js:59-61 | the horizontal lengths have the parity of the final column |
| Day18LavaductLagoon.ClosedPlanVolumeIsWhole | day18/puzzle2.js:55-63 | for a plan that returns to its start the halved edge lengths add up to a whole volume |
| Day18LavaductLagoon.RectangleTrench | day18/puzzle2.js:66-107 | a rectangle dug right, down, left, up has its two vertical and two horizontal edges and its stopping rows and columns |
| Day18LavaductLagoon.RectangleVertices | day18/puzzle2.js:109-113 | its vertex rows are 0 then h and its columns 0 then w |
| Day18LavaductLagoon.RectangleInside | day18/puzzle2.js:20-53 | its one compressed cell is inside, with area h times w |
| Day18LavaductLagoon.RectangleVolume | day18/puzzle2.js:10-64 | a w by h rectangle holds (w + 1) times (h + 1) tiles |
| Day19Aplenty.ParseCondition | day19/puzzle2.js:75-77 | the category is named by the first character, the operator is the second, and the amount is the decimal value of the rest |
| Day19Aplenty.ParseConditionSample | day19/puzzle2.js:75-77 | `a<2006` and `m>2090` parse to their category, operator and amount |
| Day19Aplenty.FirstMatch | day19/puzzle1.js:28-39 | a destination exists exactly when some rule matches the part, and it belongs to the first rule that matches |
| Day19Aplenty.IsAcceptedPart | day19/puzzle1.js:19-40 | the walk from a workflow; NeverUnmatched, AcceptedFuelIndependent and SingleCountIsWalk state its properties |
| Day19Aplenty.AcceptedFuelIndependent | day19/puzzle1.js:19-40 | a walk that finishes within some fuel bound finishes with the same verdict under any larger bound |
| Day19Aplenty.NeverUnmatched | day19/input.js:20-23 | once the loader has made every last rule unconditional, no walk falls off the end of a workflow |
| Day19Aplenty.SumIsOverAccepted | day19/puzzle1.js:7-17 | when every walk succeeds, the result is the sum of the ratings of exactly the accepted parts |
| Day19Aplenty.GetRating | day19/puzzle1.js:42-44 | x + m + a + s; SumIsOverAccepted states the sum of exactly the accepted parts' ratings |
| Day19Aplenty.SolvePart1 | day19/puzzle1.js:7-17 | the loop adds the rating, the sum of x, m, a and s, of each part the walk from `in` accepts |
| Day19Aplenty.NoneStaysNone | day19/puzzle1.js:7-17 | a part whose walk fails makes the whole sum fail |
| Day19Aplenty.WithRange | day19/puzzle2.js:98-99 | the new box has the given range for one category and keeps the other three |
| Day19Aplenty.SplitPartition | day19/puzzle2.js:67-121 | of a non-empty box, the valid part holds exactly the parts that satisfy the condition and the invalid part exactly the others; neither part is empty when present, at least one is present, and only the tested range changes |
| Day19Aplenty.ContainsSplit | day19/puzzle2.js:79-80 | membership in a box is membership in the tested range plus in the other three |
| Day19Aplenty.SizeFactor | day19/puzzle2.js:26-29 | the size of a box is the width of one range times the widths of the other three |
| Day19Aplenty.OtherWidthsKept | day19/puzzle2.js:98-99 | replacing one range leaves the other three widths alone |
| Day19Aplenty.SplitSizes | day19/puzzle2.js:67-121 | the sizes of the two parts add up to the size of the box |
| Day19Aplenty.BoxSize | day19/puzzle2.js:24-31 | the product of the four range widths |
| Day19Aplenty.GetAcceptedPartsCount | day19/puzzle2.js:22-65 | the loop over the rules, the recursion into each destination and the stop when no part remains give the count of accepted combinations in the box |
| Day19Aplenty.SolvePart2 | day19/puzzle2.js:7-20 | the accepted combinations of ratings 1 to 4000 starting from `in` |
| Day19Aplenty.CountBounded | day19/puzzle2.js:22-65 | a non-empty box yields between zero and its size many accepted combinations |
| Day19Aplenty.RulesBounded | day19/puzzle2.js:38-64 | the same bound for the rules of one workflow |
| Day19Aplenty.SizePositive | day19/puzzle2.js:24-31 | a non-empty box holds at least one combination |
| Day19Aplenty.SplitSingle | day19/puzzle2.js:67-121 | a one-part box goes whole to the valid side when the part satisfies the condition and whole to the invalid side otherwise |
| Day19Aplenty.SingleCountIsWalk | day19/puzzle2.js:22-65 | counting the box of a single part gives 1 when the part-1 walk accepts it, 0 when it rejects it, and fails exactly when the walk fails |
| Day19Aplenty.SingleRulesIsFirstMatch | day19/puzzle2.js:38-64 | on a single part the rule loop follows the first matching rule, as the part-1 walk does |

## Left out

- The `input.js` loaders: they read `input.txt` from disk and parse it with string splits, regular expressions and `Number`. Their parsed output is a parameter instead, and the shape they guarantee becomes a precondition (for example `Day19Aplenty.LastRuleUnconditional`, or well-formed day 5 map entries).
- The `console.log(solve(input))` line of every script: output only.
- Day 6 (`day6/puzzle1.js`, `day6/puzzle2.js`): its answer is computed with `Math.sqrt`, `Math.ceil` and `Math.floor` on floating-point numbers.
- JavaScript number precision: every number is an unbounded integer. The big seeds of day 5, the products of day 8's `lcm`, the million-fold expansion of day 11 and the sums of day 9 would lose exactness above 2^53 in the source, but this model does not.
- The regular-expression engine: `/\d+/g` (day 3) is a scan for maximal digit runs, and the day 1 patterns are searches for the least and the greatest position where a token starts.
- `Array.prototype.sort` and `toSorted` (days 5, 7, 17, 18): each is replaced by a sort of the model's own, proved sorted and a permutation of its input. V8's algorithm and its handling of ties are not modelled. For day 7's `.sort()` of the counts this loses nothing: the default string order is total and antisymmetric, so every sort gives the same list.
- The string encodings that serve as set and map keys (the beams of day 16, the tiles of day 18, the platforms of day 14, the states of day 17) become the tuples or sequences they encode. Day 12's memo key is the exception: it is modelled as written, because it is not injective (see Findings).
- Termination that depends on the puzzle input: the walks of days 8, 10 and 19, the cycle search of day 14 and the relaxation loop of day 17 take a `fuel` bound, and running out of fuel gives `None`.
- Dead code: the unused `beams` at day16/puzzle2.js:50 and the unused counter `tilesInTrenchCount` at day18/puzzle1.js:24.
- Day1Calibration.SolvePart1, Day1Calibration.SolvePart2: require every line to hold a digit (or a number word in part 2). On a line without one, the source's `match` returns `null` and the script crashes.
- Day3Schematic.SolvePart2: requires a non-empty schematic, because the source reads the width of the first row.
- Day4Scratchcards.SolvePart2: requires every card's wins to stay inside the table. Past the end, the source would write `NaN` into new array slots.
- Day5Almanac.SolvePart2IsLowestLocation: the lowest-location property is stated for maps whose source intervals are disjoint and of positive length, and for positive seed-range lengths, as the puzzle input provides them. SolvePart2 itself carries no such precondition.
- Day8Network.SolvePart1, Day8Network.SolvePart2: require every successor named in the network to be a node. A missing node would make the source read `undefined` and crash.
- Day8Network.SolvePart1: requires `AAA` to be a node of the network. Without it the source's first move reads `nodes["AAA"][0]` on `undefined` and crashes.
- Day8Network.SolvePart2: requires `keys` to list exactly the nodes of the network, as `Object.keys(nodes)` does. A Dafny map has no key order, so the order comes in as a parameter.
- Day9Mirage.BinomialCache.Binomial: requires k ≤ n. Beyond that, the source's cache lookup reads `undefined`. Floating-point sums are modelled as exact integers.
- Day10PipeMaze: every crash path of the source's walk becomes `None`: an undefined tile, a dead end, or a row off the grid. The overwrite of the start tile assumes the loader gives rows as arrays of characters. With string rows the assignment would silently do nothing.
- Day11CosmicExpansion.Solve: requires a non-empty image, because the source reads the width of the first row.
- Day12HotSprings.ArrangementCounter.GetArrangements: the source shifts and pops the `springs` array in place. The model drops the leading and trailing characters of a sequence instead, so aliasing with the caller's array is not modelled. The cache is keyed by the exact (springs, groups) pair.
- Day13PointOfIncidence: a pattern without a reflection line makes the source add `NaN`, which is `None` here. Patterns are required to be rectangular, as the puzzle guarantees.
- Day14ReflectorDish.SolvePart2: requires `fuel` to be at most the number of spins, 10^9. The model's search then stops no later than the source's.
- Day14ReflectorDish.SolvePart1, Day14ReflectorDish.SolvePart2, Day14ReflectorDish.Tilt: accept an empty platform and leave it as it is, with load 0. On an empty platform the source's tilts crash reading `platform[0].length`.
- Day15Lenses.Hash, Day15Lenses.GetValue: a character's code is its Unicode scalar value, while the source's `charCodeAt` reads UTF-16 code units. The two agree on every character of the Basic Multilingual Plane, which holds the puzzle's ASCII steps. A character beyond it is one code in the model and two in the source.
- Day15Lenses.SolvePart2: requires every step to be `label-`, or a label, one `=` and a decimal focal length. Other text would make the source's `Number` give `NaN`.
- Day16FloorWillBeLava.SolvePart2: negative infinity, the start of the running maximum, is -1. The precondition of a non-empty grid matches the source's read of `map[0].length`.
- Day17ClumsyCrucible.Solve: states the least heat loss only when the search finishes within `fuel` turns. That the search finishes is not proved. The source's initial table of `Infinity` entries is the empty map, where an absent state stands for positive infinity. The heat map is at least two by two and rectangular, because the source indexes `map[1][0]`, `map[0][1]` and `map[0].length` unconditionally.
- Day18LavaductLagoon.SolvePart2: returns twice the source's answer, so that the half edge lengths stay whole numbers. ClosedPlanVolumeIsWhole shows that this is even for a plan that returns to its start. Colour codes are required to be hexadecimal digits whose last digit is 0 to 3. Otherwise the source's `parseInt` or its direction lookup gives `NaN` or `undefined`. JavaScript `Set`s are duplicate-free sequences in insertion order.
- Day18LavaductLagoon.SolvePart1: requires every direction letter to be `U`, `D`, `L` or `R`. The source's `move` returns `undefined` for any other letter.
- Day19Aplenty.IsAcceptedPart: `eval(condition)` is replaced by the condition parsed as `day19/puzzle2.js` parses it. `<` is a strict less-than and any other operator a strict greater-than. A walk into a missing workflow or past `fuel` workflows gives `None`. The source would then throw, or recurse without end on a cyclic set of workflows.

## Findings

| source | as written | input that shows it | evidently intended | confidence | as-written member | corrected member |
|---|---|---|---|---|---|---|
| day1/puzzle1.js:7-10 | `line.match(/\d/)` has no `g` flag, so `digits.at(0)` and `digits.at(-1)` are both the first digit, and each line adds 11 times its first digit | the line `12` adds 11 | 10 times the first digit plus the last digit, 12 for `12` | not executed | Day1Calibration.AsWrittenDropsLastDigit | Day1Calibration.SolvePart1 |
| day12/puzzle2.js:32-37 | the memo key joins the group lengths without a separator, and the cache is shared by all records | the records `###########` with groups `11` and with groups `1,1` unfold to the same key but have different arrangement counts, so the second record reads the first one's cached count | a key that identifies the pair of springs and groups | not executed | Day12HotSprings.SourceKeyCollision | Day12HotSprings.ArrangementCounter.GetArrangements |
