/** Day 2: games of cubes drawn from a bag; possibility checks and the minimal bag's power. */
module Day2Cubes {
  import opened Common

  /** One reveal: the colour names shown and how many cubes of each (the loader's object). */
  type Reveal = map<string, int>

  /** A game: its id and its reveals (`reveals` is a reserved word in Dafny). */
  datatype Game = Game(id: int, shown: seq<Reveal>)

  const NumRedCubes := 12
  const NumGreenCubes := 13
  const NumBlueCubes := 14

  /** The destructuring default `{ red = 0, ... }`: a colour the reveal does not name counts 0. */
  function CubesOf(draw: Reveal, colour: string): (n: int)
    ensures colour !in draw ==> n == 0
    ensures colour in draw ==> n == draw[colour]
  {
    if colour in draw then draw[colour] else 0
  }

  predicate WithinLimits(draw: Reveal)
  {
    && CubesOf(draw, "red") <= NumRedCubes
    && CubesOf(draw, "blue") <= NumBlueCubes
    && CubesOf(draw, "green") <= NumGreenCubes
  }

  /** `reveals.every(...)`: true on a game with no reveals. */
  predicate IsPossible(game: Game)
  {
    forall i :: 0 <= i < |game.shown| ==> WithinLimits(game.shown[i])
  }

  function SumPossibleIds(games: seq<Game>): int
  {
    if games == [] then 0
    else SumPossibleIds(games[..|games| - 1]) + (if IsPossible(games[|games| - 1]) then games[|games| - 1].id else 0)
  }

  function SumIds(games: seq<Game>): int
  {
    if games == [] then 0 else SumIds(games[..|games| - 1]) + games[|games| - 1].id
  }

  /** day2/puzzle1.js solve: add the id of each game every reveal of which fits the bag. */
  method SolvePart1(games: seq<Game>) returns (sumValidGameIds: int)
    ensures sumValidGameIds == SumPossibleIds(games)
  {
    sumValidGameIds := 0;
    for i := 0 to |games|
      invariant sumValidGameIds == SumPossibleIds(games[..i])
    {
      var game := games[i];
      assert games[..i + 1][..i] == games[..i];
      if forall k :: 0 <= k < |game.shown| ==> WithinLimits(game.shown[k]) {
        sumValidGameIds := sumValidGameIds + game.id;
      }
    }
    assert games[..|games|] == games;
  }

  /** With non-negative ids the answer is between 0 and the sum of all ids. */
  lemma {:induction false} PossibleIdsBounded(games: seq<Game>)
    requires forall i :: 0 <= i < |games| ==> games[i].id >= 0
    ensures 0 <= SumPossibleIds(games) <= SumIds(games)
  {
    if games != [] {
      PossibleIdsBounded(games[..|games| - 1]);
    }
  }

  // ---------------------------------------------------------------------------
  // day2/puzzle2.js: the fewest cubes of each colour and their power
  // ---------------------------------------------------------------------------

  /** The largest count of `colour` over the reveals, starting from 0. */
  function MaxCubes(shown: seq<Reveal>, colour: string): int
  {
    if shown == [] then 0 else Max(MaxCubes(shown[..|shown| - 1], colour), CubesOf(shown[|shown| - 1], colour))
  }

  /** The maximum bounds every reveal and is attained by one of them (or is the initial 0). */
  lemma {:induction false} MaxCubesIsMaximum(shown: seq<Reveal>, colour: string)
    ensures MaxCubes(shown, colour) >= 0
    ensures forall i :: 0 <= i < |shown| ==> CubesOf(shown[i], colour) <= MaxCubes(shown, colour)
    ensures MaxCubes(shown, colour) == 0 || exists i :: 0 <= i < |shown| && CubesOf(shown[i], colour) == MaxCubes(shown, colour)
  {
    if shown != [] {
      var init := shown[..|shown| - 1];
      MaxCubesIsMaximum(init, colour);
      if MaxCubes(shown, colour) != 0 && MaxCubes(shown, colour) == MaxCubes(init, colour) {
        var i :| 0 <= i < |init| && CubesOf(init[i], colour) == MaxCubes(init, colour);
        assert shown[i] == init[i];
      }
      forall i | 0 <= i < |shown| ensures CubesOf(shown[i], colour) <= MaxCubes(shown, colour) {
        if i < |init| {
          assert shown[i] == init[i];
        }
      }
    }
  }

  function Power(game: Game): int
  {
    MaxCubes(game.shown, "red") * MaxCubes(game.shown, "blue") * MaxCubes(game.shown, "green")
  }

  function SumPowers(games: seq<Game>): int
  {
    if games == [] then 0 else SumPowers(games[..|games| - 1]) + Power(games[|games| - 1])
  }

  /** A game that never shows some colour has power 0. */
  lemma {:induction false} MissingColourGivesZeroPower(game: Game, colour: string)
    requires colour == "red" || colour == "blue" || colour == "green"
    requires forall i :: 0 <= i < |game.shown| ==> colour !in game.shown[i]
    ensures Power(game) == 0
  {
    MaxCubesIsMaximum(game.shown, colour);
  }

  /** The forEach over the reveals of one game, updating three running maxima. */
  method FewestCubes(shown: seq<Reveal>) returns (numRedCubes: int, numBlueCubes: int, numGreenCubes: int)
    ensures numRedCubes == MaxCubes(shown, "red")
    ensures numBlueCubes == MaxCubes(shown, "blue")
    ensures numGreenCubes == MaxCubes(shown, "green")
  {
    numRedCubes, numBlueCubes, numGreenCubes := 0, 0, 0;
    for i := 0 to |shown|
      invariant numRedCubes == MaxCubes(shown[..i], "red")
      invariant numBlueCubes == MaxCubes(shown[..i], "blue")
      invariant numGreenCubes == MaxCubes(shown[..i], "green")
    {
      assert shown[..i + 1][..i] == shown[..i];
      numRedCubes := Max(numRedCubes, CubesOf(shown[i], "red"));
      numBlueCubes := Max(numBlueCubes, CubesOf(shown[i], "blue"));
      numGreenCubes := Max(numGreenCubes, CubesOf(shown[i], "green"));
    }
    assert shown[..|shown|] == shown;
  }

  /** day2/puzzle2.js solve: the sum over games of red * blue * green of the fewest cubes. */
  method SolvePart2(games: seq<Game>) returns (sumCubesPower: int)
    ensures sumCubesPower == SumPowers(games)
  {
    sumCubesPower := 0;
    for i := 0 to |games|
      invariant sumCubesPower == SumPowers(games[..i])
    {
      assert games[..i + 1][..i] == games[..i];
      var numRed, numBlue, numGreen := FewestCubes(games[i].shown);
      var cubesPower := numRed * numBlue * numGreen;
      sumCubesPower := sumCubesPower + cubesPower;
    }
    assert games[..|games|] == games;
  }
}
