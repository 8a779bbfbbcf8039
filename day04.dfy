/** Day 4: scratchcards; points from the matching numbers and won copies of later cards. */
module Day4Scratchcards {
  import opened Common

  datatype Card = Card(winningNumbers: seq<int>, cardNumbers: seq<int>)

  /** `cardNumbers.filter((num) => winningNumbersSet.has(num))`: duplicates on the card are kept. */
  function WinningCardNumbers(winningNumbersSet: set<int>, cardNumbers: seq<int>): (r: seq<int>)
    ensures |r| <= |cardNumbers|
    ensures forall i :: 0 <= i < |r| ==> r[i] in winningNumbersSet
  {
    if cardNumbers == [] then []
    else
      var last := cardNumbers[|cardNumbers| - 1];
      WinningCardNumbers(winningNumbersSet, cardNumbers[..|cardNumbers| - 1])
        + (if last in winningNumbersSet then [last] else [])
  }

  /** The filter keeps every occurrence of a winning number and drops every other number. */
  lemma {:induction false} WinningCardNumbersMultiset(winningNumbersSet: set<int>, cardNumbers: seq<int>, x: int)
    ensures multiset(WinningCardNumbers(winningNumbersSet, cardNumbers))[x]
      == if x in winningNumbersSet then multiset(cardNumbers)[x] else 0
  {
    if cardNumbers != [] {
      var init := cardNumbers[..|cardNumbers| - 1];
      WinningCardNumbersMultiset(winningNumbersSet, init, x);
      assert cardNumbers == init + [cardNumbers[|cardNumbers| - 1]];
    }
  }

  /** k: how many of the card's numbers are winning numbers. */
  function Matches(card: Card): nat
  {
    |WinningCardNumbers((set x | x in card.winningNumbers :: x), card.cardNumbers)|
  }

  function Pow2(n: nat): (p: nat)
    ensures p >= 1
  {
    if n == 0 then 1 else 2 * Pow2(n - 1)
  }

  /** `2^(k-1)` points for k > 0 matches, none otherwise. */
  function Points(k: nat): nat
  {
    if k > 0 then Pow2(k - 1) else 0
  }

  /** The first match is worth one point and every further match doubles the score. */
  lemma PointsDouble(k: nat)
    ensures Points(1) == 1
    ensures k >= 1 ==> Points(k + 1) == 2 * Points(k)
  {
  }

  function SumPoints(cards: seq<Card>): int
  {
    if cards == [] then 0 else SumPoints(cards[..|cards| - 1]) + Points(Matches(cards[|cards| - 1]))
  }

  /** day4/puzzle1.js solve. */
  method SolvePart1(cards: seq<Card>) returns (sumPoints: int)
    ensures sumPoints == SumPoints(cards)
  {
    sumPoints := 0;
    for i := 0 to |cards|
      invariant sumPoints == SumPoints(cards[..i])
    {
      var card := cards[i];
      var winningNumbersSet := set x | x in card.winningNumbers :: x;
      var winningCardNumbers := WinningCardNumbers(winningNumbersSet, card.cardNumbers);
      assert cards[..i + 1][..i] == cards[..i];
      if |winningCardNumbers| > 0 {
        sumPoints := sumPoints + Pow2(|winningCardNumbers| - 1);
      }
    }
    assert cards[..|cards|] == cards;
  }

  /** A card's points are at most 2^(n-1) for its n numbers. */
  lemma PointsBounded(card: Card)
    ensures Points(Matches(card)) <= Points(|card.cardNumbers|)
  {
    var k := Matches(card);
    var n := |card.cardNumbers|;
    if k > 0 {
      Pow2Monotone(k - 1, n - 1);
    }
  }

  lemma {:induction false} Pow2Monotone(a: nat, b: nat)
    requires a <= b
    ensures Pow2(a) <= Pow2(b)
    decreases b
  {
    if a < b {
      Pow2Monotone(a, b - 1);
    }
  }

  // ---------------------------------------------------------------------------
  // day4/puzzle2.js: won copies
  // ---------------------------------------------------------------------------

  /** The source indexes `amountOfCards[i + j + 1]` for j < k: that card must exist. */
  predicate WinsStayInside(cards: seq<Card>)
  {
    forall i :: 0 <= i < |cards| ==> i + Matches(cards[i]) < |cards|
  }

  /** The amount of card m after the forEach has processed cards 0..t-1. */
  function Amount(cards: seq<Card>, t: nat, m: nat): int
    requires t <= |cards|
  {
    if t == 0 then 1
    else
      var i := t - 1;
      Amount(cards, i, m) + (if i < m <= i + Matches(cards[i]) then Amount(cards, i, i) else 0)
  }

  /** Independent reference: card m has its original plus one copy for each copy of every earlier
      card j whose matches reach it (m <= j + k_j). */
  function Copies(cards: seq<Card>, m: nat): int
    requires m < |cards|
    decreases m, 1
  {
    1 + Contributions(cards, m, m)
  }

  /** Copies of card m won from cards 0..j-1. */
  function Contributions(cards: seq<Card>, m: nat, j: nat): int
    requires j <= m < |cards|
    decreases j, 0
  {
    if j == 0 then 0
    else Contributions(cards, m, j - 1) + (if m <= j - 1 + Matches(cards[j - 1]) then Copies(cards, j - 1) else 0)
  }

  /** The running amounts agree with the reference: after t cards, card m holds 1 plus the
      copies won from the first min(t, m) cards. */
  lemma {:induction false} AmountIsCopies(cards: seq<Card>, t: nat, m: nat)
    requires t <= |cards| && m < |cards|
    ensures Amount(cards, t, m) == 1 + Contributions(cards, m, Min(t, m))
  {
    if t > 0 {
      var i := t - 1;
      AmountIsCopies(cards, i, m);
      if i < m {
        AmountIsCopies(cards, i, i);
      }
    }
  }

  /** Copies flow only forward: once card m has been reached its amount no longer changes. */
  lemma AmountFinal(cards: seq<Card>, t: nat, m: nat)
    requires m < |cards| && m <= t <= |cards|
    ensures Amount(cards, t, m) == Amount(cards, m, m) == Copies(cards, m)
  {
    AmountIsCopies(cards, t, m);
    AmountIsCopies(cards, m, m);
  }

  lemma {:induction false} CopiesAtLeastOne(cards: seq<Card>, m: nat)
    requires m < |cards|
    ensures Copies(cards, m) >= 1
    decreases m, 1
  {
    ContributionsNonNegative(cards, m, m);
  }

  lemma {:induction false} ContributionsNonNegative(cards: seq<Card>, m: nat, j: nat)
    requires j <= m < |cards|
    ensures Contributions(cards, m, j) >= 0
    decreases j, 0
  {
    if j > 0 {
      ContributionsNonNegative(cards, m, j - 1);
      CopiesAtLeastOne(cards, j - 1);
    }
  }

  function FinalCopies(cards: seq<Card>): seq<int>
  {
    seq(|cards|, m requires 0 <= m < |cards| => Copies(cards, m))
  }

  /** Every card ends with at least one instance, so the total is at least the number of cards. */
  lemma TotalAtLeastCardCount(cards: seq<Card>)
    ensures Sum(FinalCopies(cards)) >= |cards|
  {
    var s := FinalCopies(cards);
    forall m | 0 <= m < |cards| ensures s[m] >= 1 {
      CopiesAtLeastOne(cards, m);
    }
    SumAtLeastLength(s);
  }

  /** day4/puzzle2.js solve: propagate copies forward in an array, then add them up. */
  method SolvePart2(cards: seq<Card>) returns (totalCards: int)
    requires WinsStayInside(cards)
    ensures totalCards == Sum(FinalCopies(cards))
  {
    var n := |cards|;
    var amountOfCards := new int[n](_ => 1);
    for i := 0 to n
      invariant forall m :: 0 <= m < n ==> amountOfCards[m] == Amount(cards, i, m)
    {
      var card := cards[i];
      var winningNumbersSet := set x | x in card.winningNumbers :: x;
      var winningCardNumbers := WinningCardNumbers(winningNumbersSet, card.cardNumbers);
      var won := amountOfCards[i];
      for j := 0 to |winningCardNumbers|
        invariant amountOfCards[i] == won == Amount(cards, i, i)
        invariant forall m :: 0 <= m < n ==>
          amountOfCards[m] == Amount(cards, i, m) + (if i < m <= i + j then won else 0)
      {
        amountOfCards[i + j + 1] := amountOfCards[i + j + 1] + amountOfCards[i];
      }
    }
    forall m | 0 <= m < n ensures amountOfCards[m] == Copies(cards, m) {
      AmountFinal(cards, n, m);
    }
    ghost var finalAmounts := amountOfCards[..];
    assert finalAmounts == FinalCopies(cards);
    totalCards := 0;
    for m := 0 to n
      invariant amountOfCards[..] == finalAmounts
      invariant totalCards == Sum(finalAmounts[..m])
    {
      SumPrefixStep(finalAmounts, m);
      totalCards := totalCards + amountOfCards[m];
    }
    assert finalAmounts[..n] == finalAmounts;
  }
}
