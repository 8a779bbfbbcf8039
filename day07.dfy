/** Day 7: Camel Cards; hands ordered by type, then card by card, and winnings by rank. */
module Day7CamelCards {
  import opened Common

  /** `CARDS`, strongest first. */
  const Cards: seq<char> := ['A', 'K', 'Q', 'J', 'T', '9', '8', '7', '6', '5', '4', '3', '2']

  /** `HAND_TYPES`, strongest first: each is the string of card multiplicities, sorted and
      joined ("5" is five of a kind, "11111" high card). */
  const HandTypes: seq<string> := ["5", "14", "23", "113", "122", "1112", "11111"]

  /** One line of the game: a hand (the loader splits it into characters) and its bid. */
  datatype Play = Play(hand: seq<char>, bid: int)

  /** A hand as the puzzle gives it: five cards, each one of `Cards`. */
  predicate ValidHand(hand: seq<char>)
  {
    |hand| == 5 && forall i :: 0 <= i < 5 ==> hand[i] in Cards
  }

  /** `Array.prototype.indexOf`: the first position holding x, or -1. */
  function IndexOf<T(==)>(s: seq<T>, x: T): (r: int)
    ensures -1 <= r < |s|
    ensures r >= 0 ==> s[r] == x
  {
    if s == [] then -1
    else if s[0] == x then 0
    else
      var r := IndexOf(s[1..], x);
      if r == -1 then -1 else r + 1
  }

  /** -1 exactly for a missing value; otherwise no earlier position holds it. */
  lemma {:induction false} IndexOfFirst<T>(s: seq<T>, x: T)
    ensures IndexOf(s, x) == -1 <==> x !in s
    ensures forall j :: 0 <= j < IndexOf(s, x) ==> s[j] != x
  {
    if s != [] && s[0] != x {
      IndexOfFirst(s[1..], x);
      assert s == [s[0]] + s[1..];
    }
  }

  /** Two members of a list with the same position are the same value. */
  lemma IndexOfInjective<T>(s: seq<T>, x: T, y: T)
    requires x in s && y in s
    ensures IndexOf(s, x) == IndexOf(s, y) <==> x == y
  {
    IndexOfFirst(s, x);
    IndexOfFirst(s, y);
  }

  // ---------------------------------------------------------------------------
  // getHandType: card frequencies, sorted
  // ---------------------------------------------------------------------------

  /** The dictionary `cardFrequencies` as its keys in insertion order and their counts. */
  datatype Tally = Tally(keys: seq<char>, counts: seq<nat>)

  /** The forEach over the cards, folded from the front. */
  function TallyOf(hand: seq<char>): (t: Tally)
    ensures |t.keys| == |t.counts|
  {
    if hand == [] then Tally([], [])
    else
      var t := TallyOf(hand[..|hand| - 1]);
      var card := hand[|hand| - 1];
      var p := IndexOf(t.keys, card);
      if p >= 0 then Tally(t.keys, t.counts[p := t.counts[p] + 1])
      else Tally(t.keys + [card], t.counts + [1])
  }

  /** No value occurs twice. */
  predicate Distinct<T(==)>(s: seq<T>)
  {
    forall i, j :: 0 <= i < j < |s| ==> s[i] != s[j]
  }

  lemma DistinctAppend<T>(s: seq<T>, x: T)
    requires Distinct(s) && x !in s
    ensures Distinct(s + [x])
  {
    var r := s + [x];
    forall i, j | 0 <= i < j < |r| ensures r[i] != r[j] {
      assert r[i] == s[i];
      if j < |s| {
        assert r[j] == s[j];
      }
    }
  }

  /** The tally has one key per distinct card of the hand, each key once. */
  lemma {:induction false} TallyKeys(hand: seq<char>)
    ensures Distinct(TallyOf(hand).keys)
    ensures forall c :: c in TallyOf(hand).keys <==> c in hand
  {
    if hand != [] {
      var init := hand[..|hand| - 1];
      var card := hand[|hand| - 1];
      TallyKeys(init);
      var t := TallyOf(init);
      assert hand == init + [card];
      IndexOfFirst(t.keys, card);
      if IndexOf(t.keys, card) < 0 {
        DistinctAppend(t.keys, card);
      }
    }
  }

  /** Each key's count is its number of occurrences in the hand. */
  lemma {:induction false} TallyCountsOccurrences(hand: seq<char>)
    ensures forall i :: 0 <= i < |TallyOf(hand).keys| ==> TallyOf(hand).counts[i] == Count(hand, TallyOf(hand).keys[i])
  {
    if hand != [] {
      var init := hand[..|hand| - 1];
      var card := hand[|hand| - 1];
      TallyCountsOccurrences(init);
      TallyKeys(init);
      var t := TallyOf(init);
      var p := IndexOf(t.keys, card);
      IndexOfFirst(t.keys, card);
      var r := TallyOf(hand);
      forall i | 0 <= i < |r.keys| ensures r.counts[i] == Count(hand, r.keys[i]) {
        if p >= 0 {
          if i != p {
            assert t.keys[i] != t.keys[p];
          }
        } else if i < |t.keys| {
          assert r.keys[i] == t.keys[i] && t.keys[i] in t.keys;
        } else {
          CountBound(init, card);
        }
      }
    }
  }

  /** The counts add up to the number of cards. */
  lemma {:induction false} TallySum(hand: seq<char>)
    ensures Sum(TallyOf(hand).counts) == |hand|
  {
    if hand != [] {
      var init := hand[..|hand| - 1];
      TallySum(init);
      var t := TallyOf(init);
      CountStepSum(t.counts, IndexOf(t.keys, hand[|hand| - 1]));
    }
  }

  /** One more card adds one to the total, whether it bumps a count or starts a new one. */
  lemma CountStepSum(counts: seq<nat>, p: int)
    requires -1 <= p < |counts|
    ensures Sum(if p >= 0 then counts[p := counts[p] + 1] else counts + [1]) == Sum(counts) + 1
  {
    if p >= 0 {
      SumUpdate(counts, p, counts[p] + 1);
    } else {
      assert (counts + [1])[..|counts|] == counts;
    }
  }

  // ---------------------------------------------------------------------------
  // `.sort().join("")`: the counts as decimal strings
  // ---------------------------------------------------------------------------

  function DigitChar(d: nat): char
    requires d < 10
  {
    ('0' as int + d) as char
  }

  predicate IsDecimal(s: string)
  {
    forall i :: 0 <= i < |s| ==> '0' <= s[i] <= '9'
  }

  /** `String(n)`: the decimal digits of n, without leading zeros. */
  function Decimal(n: nat): (s: string)
    ensures 1 <= |s| && IsDecimal(s)
  {
    if n < 10 then [DigitChar(n)] else Decimal(n / 10) + [DigitChar(n % 10)]
  }

  /** The number a string of decimal digits spells. */
  function DecimalValue(s: string): nat
    requires IsDecimal(s)
  {
    if s == [] then 0 else DecimalValue(s[..|s| - 1]) * 10 + (s[|s| - 1] as int - '0' as int)
  }

  /** Reading back the digits of n gives n, so distinct counts have distinct strings. */
  lemma {:induction false} DecimalRoundTrip(n: nat)
    ensures DecimalValue(Decimal(n)) == n
  {
    if n >= 10 {
      DecimalRoundTrip(n / 10);
      var s := Decimal(n);
      assert s[..|s| - 1] == Decimal(n / 10);
    }
  }

  /** The order of the default `sort`: strings compared character by character, a proper
      prefix first; equal strings are related both ways. */
  predicate StringAtMost(a: string, b: string)
  {
    a == [] || (b != [] && (a[0] < b[0] || (a[0] == b[0] && StringAtMost(a[1..], b[1..]))))
  }

  lemma {:induction false} StringAtMostTotal(a: string, b: string)
    ensures StringAtMost(a, b) || StringAtMost(b, a)
  {
    if a != [] && b != [] && a[0] == b[0] {
      StringAtMostTotal(a[1..], b[1..]);
    }
  }

  lemma {:induction false} StringAtMostTransitive(a: string, b: string, c: string)
    requires StringAtMost(a, b) && StringAtMost(b, c)
    ensures StringAtMost(a, c)
  {
    if a != [] && a[0] == b[0] && b[0] == c[0] {
      StringAtMostTransitive(a[1..], b[1..], c[1..]);
    }
  }

  /** Strings related both ways are equal, so any sort in this order gives the same list. */
  lemma {:induction false} StringAtMostAntisymmetric(a: string, b: string)
    requires StringAtMost(a, b) && StringAtMost(b, a)
    ensures a == b
  {
    if a != [] {
      StringAtMostAntisymmetric(a[1..], b[1..]);
      assert a == [a[0]] + a[1..] && b == [b[0]] + b[1..];
    }
  }

  /** The order the default `sort` puts two counts in: by their decimal strings. */
  predicate CountAtMost(x: nat, y: nat)
  {
    StringAtMost(Decimal(x), Decimal(y))
  }

  /** For counts below 10 the string order is the numeric order. */
  lemma SingleDigitOrder(x: nat, y: nat)
    requires x < 10 && y < 10
    ensures CountAtMost(x, y) <==> x <= y
  {
    var a, b := DigitChar(x), DigitChar(y);
    assert a as int == '0' as int + x && b as int == '0' as int + y;
    assert Decimal(x) == [a] && Decimal(y) == [b];
    assert [a][1..] == [] && [b][1..] == [];
    assert StringAtMost([a], [b]) <==> a < b || (a == b && StringAtMost([], []));
  }

  /** Insertion into a list of counts ordered by their strings. */
  function InsertCount(x: nat, s: seq<nat>): (r: seq<nat>)
    ensures multiset(r) == multiset(s) + multiset{x}
  {
    if s == [] || CountAtMost(x, s[0]) then [x] + s
    else
      assert s == [s[0]] + s[1..];
      [s[0]] + InsertCount(x, s[1..])
  }

  /** `.sort()` on the counts, which compares them as strings. */
  function SortCounts(s: seq<nat>): (r: seq<nat>)
    ensures multiset(r) == multiset(s)
  {
    if s == [] then []
    else
      assert s == s[..|s| - 1] + [s[|s| - 1]];
      InsertCount(s[|s| - 1], SortCounts(s[..|s| - 1]))
  }

  predicate StringSorted(s: seq<nat>)
  {
    forall i, j :: 0 <= i < j < |s| ==> CountAtMost(s[i], s[j])
  }

  lemma {:induction false} InsertCountStringSorted(x: nat, s: seq<nat>)
    requires StringSorted(s)
    ensures StringSorted(InsertCount(x, s))
  {
    if s != [] && CountAtMost(x, s[0]) {
      forall k | 0 <= k < |s| ensures CountAtMost(x, s[k]) {
        if k > 0 {
          StringAtMostTransitive(Decimal(x), Decimal(s[0]), Decimal(s[k]));
        }
      }
    } else if s != [] {
      var rest := InsertCount(x, s[1..]);
      InsertCountStringSorted(x, s[1..]);
      StringAtMostTotal(Decimal(x), Decimal(s[0]));
      forall k | 0 <= k < |rest| ensures CountAtMost(s[0], rest[k]) {
        assert rest[k] in multiset(s[1..]) + multiset{x};
        if rest[k] != x {
          assert rest[k] in s[1..];
        }
      }
    }
  }

  /** The sorted counts are in the string order of the default `sort`. */
  lemma {:induction false} SortCountsStringSorted(s: seq<nat>)
    ensures StringSorted(SortCounts(s))
  {
    if s != [] {
      SortCountsStringSorted(s[..|s| - 1]);
      InsertCountStringSorted(s[|s| - 1], SortCounts(s[..|s| - 1]));
    }
  }

  predicate AscendingCounts(s: seq<nat>)
  {
    forall i, j :: 0 <= i < j < |s| ==> s[i] <= s[j]
  }

  predicate BelowTen(s: seq<nat>)
  {
    forall i :: 0 <= i < |s| ==> s[i] < 10
  }

  /** Counts below 10 come out in ascending numeric order. */
  lemma SortCountsAscending(s: seq<nat>)
    requires BelowTen(s)
    ensures AscendingCounts(SortCounts(s))
  {
    var r := SortCounts(s);
    SortCountsStringSorted(s);
    forall i, j | 0 <= i < j < |r| ensures r[i] <= r[j] {
      assert r[i] in multiset(s) && r[j] in multiset(s);
      SingleDigitOrder(r[i], r[j]);
    }
  }

  /** `.join("")`: the decimal strings of the counts, one after the other. */
  function Join(s: seq<nat>): (j: string)
    ensures IsDecimal(j) && |j| >= |s|
  {
    if s == [] then [] else Join(s[..|s| - 1]) + Decimal(s[|s| - 1])
  }

  /** Counts below 10 join to one digit each. */
  lemma {:induction false} JoinSingleDigits(s: seq<nat>)
    requires BelowTen(s)
    ensures |Join(s)| == |s|
    ensures forall i :: 0 <= i < |s| ==> Join(s)[i] == DigitChar(s[i])
  {
    if s != [] {
      JoinSingleDigits(s[..|s| - 1]);
    }
  }

  /** The hand type: the multiplicities of its distinct cards, sorted as strings and joined. */
  function HandTypeOf(hand: seq<char>): string
  {
    Join(SortCounts(TallyOf(hand).counts))
  }

  /** day7/puzzle1.js getHandType: count the cards in a dictionary, then sort its values. */
  method GetHandType(hand: seq<char>) returns (handType: string)
    ensures handType == HandTypeOf(hand)
  {
    var cardFrequencies: map<char, nat> := map[];
    var keys: seq<char> := [];
    for i := 0 to |hand|
      invariant keys == TallyOf(hand[..i]).keys
      invariant forall c :: c in cardFrequencies <==> c in keys
      invariant forall j :: 0 <= j < |keys| ==> cardFrequencies[keys[j]] == TallyOf(hand[..i]).counts[j]
    {
      var card := hand[i];
      assert hand[..i + 1][..i] == hand[..i];
      TallyKeys(hand[..i]);
      IndexOfFirst(keys, card);
      if card !in cardFrequencies {
        cardFrequencies := cardFrequencies[card := 0];
        keys := keys + [card];
      }
      cardFrequencies := cardFrequencies[card := cardFrequencies[card] + 1];
    }
    assert hand[..|hand|] == hand;
    var values := seq(|keys|, j requires 0 <= j < |keys| => cardFrequencies[keys[j]]);
    assert values == TallyOf(hand).counts;
    handType := Join(SortCounts(values));
  }

  /** The ascending lists of positive counts summing to 5, element by element. */
  predicate PartitionOfFive(t: seq<nat>)
  {
    || (|t| == 1 && t[0] == 5)
    || (|t| == 2 && t[0] == 1 && t[1] == 4)
    || (|t| == 2 && t[0] == 2 && t[1] == 3)
    || (|t| == 3 && t[0] == 1 && t[1] == 1 && t[2] == 3)
    || (|t| == 3 && t[0] == 1 && t[1] == 2 && t[2] == 2)
    || (|t| == 4 && t[0] == 1 && t[1] == 1 && t[2] == 1 && t[3] == 2)
    || (|t| == 5 && t[0] == 1 && t[1] == 1 && t[2] == 1 && t[3] == 1 && t[4] == 1)
  }

  /** Sorted positive counts summing to 5 form one of the seven partitions of 5. */
  lemma PartitionsOfFive(t: seq<nat>)
    requires AscendingCounts(t)
    requires forall i :: 0 <= i < |t| ==> t[i] >= 1
    requires Sum(t) == 5
    ensures PartitionOfFive(t)
  {
    SumAtLeastLength(t);
    var n := |t|;
    SumFirstFive(t);
    if n == 2 {
      TwoParts(t[0], t[1]);
    } else if n == 3 {
      ThreeParts(t[0], t[1], t[2]);
    } else if n == 4 {
      assert t[2] <= t[3];
    }
  }

  /** The sum of a list of one to five integers, written out. */
  lemma SumFirstFive(t: seq<int>)
    requires 1 <= |t| <= 5
    ensures Sum(t) == t[0] + (if |t| > 1 then t[1] else 0) + (if |t| > 2 then t[2] else 0)
      + (if |t| > 3 then t[3] else 0) + (if |t| > 4 then t[4] else 0)
  {
    assert t[..|t|] == t;
    assert Sum(t[..1]) == t[0] by { assert t[..0] == []; SumPrefixStep(t, 0); }
    if |t| > 1 { SumPrefixStep(t, 1); }
    if |t| > 2 { SumPrefixStep(t, 2); }
    if |t| > 3 { SumPrefixStep(t, 3); }
    if |t| > 4 { SumPrefixStep(t, 4); }
  }

  lemma TwoParts(a: int, b: int)
    requires 1 <= a <= b && a + b == 5
    ensures (a == 1 && b == 4) || (a == 2 && b == 3)
  {
  }

  lemma ThreeParts(a: int, b: int, c: int)
    requires 1 <= a <= b <= c && a + b + c == 5
    ensures (a == 1 && b == 1 && c == 3) || (a == 1 && b == 2 && c == 2)
  {
  }

  /** Single-digit counts join to the string of their digits. */
  lemma JoinIs(t: seq<nat>, w: string)
    requires BelowTen(t) && |w| == |t|
    requires forall i :: 0 <= i < |t| ==> w[i] == DigitChar(t[i])
    ensures Join(t) == w
  {
    JoinSingleDigits(t);
  }

  /** The seven partitions of 5, joined, are exactly the listed hand types. */
  lemma PartitionsAreHandTypes(t: seq<nat>)
    requires PartitionOfFive(t)
    ensures Join(t) in HandTypes
  {
    if |t| == 1 {
      JoinIs(t, HandTypes[0]);
    } else if |t| == 2 && t[0] == 1 {
      JoinIs(t, HandTypes[1]);
    } else if |t| == 2 {
      JoinIs(t, HandTypes[2]);
    } else if |t| == 3 && t[1] == 1 {
      JoinIs(t, HandTypes[3]);
    } else if |t| == 3 {
      JoinIs(t, HandTypes[4]);
    } else if |t| == 4 {
      JoinIs(t, HandTypes[5]);
    } else {
      JoinIs(t, HandTypes[6]);
    }
  }

  /** Every five-card hand has one of the seven listed types. */
  lemma FiveCardHandTypes(hand: seq<char>)
    requires |hand| == 5
    ensures HandTypeOf(hand) in HandTypes
  {
    var t := TallyOf(hand);
    TallyKeys(hand);
    TallyCountsOccurrences(hand);
    TallySum(hand);
    var sorted := SortCounts(t.counts);
    SumPermutation(t.counts, sorted);
    forall k | 0 <= k < |t.counts| ensures 1 <= t.counts[k] <= 5 {
      CountBound(hand, t.keys[k]);
    }
    SortCountsAscending(t.counts);
    forall i | 0 <= i < |sorted| ensures sorted[i] >= 1 {
      assert sorted[i] in multiset(t.counts);
      var k :| 0 <= k < |t.counts| && t.counts[k] == sorted[i];
    }
    PartitionsOfFive(sorted);
    PartitionsAreHandTypes(sorted);
  }

  // ---------------------------------------------------------------------------
  // The comparators
  // ---------------------------------------------------------------------------

  /** Position of the type in `HandTypes`; a smaller rank is a stronger type. */
  function TypeRank(hand: seq<char>): int
  {
    IndexOf(HandTypes, HandTypeOf(hand))
  }

  /** day7/puzzle1.js compareHandsByType: positive when hand1's type is listed earlier. */
  function CompareHandsByType(hand1: seq<char>, hand2: seq<char>): (r: int)
    ensures r > 0 <==> TypeRank(hand1) < TypeRank(hand2)
    ensures r == 0 <==> TypeRank(hand1) == TypeRank(hand2)
  {
    TypeRank(hand2) - TypeRank(hand1)
  }

  /** `CARDS.indexOf(hand[i])`, where a missing position reads `undefined` and gives -1. */
  function CardRank(hand: seq<char>, i: nat): int
  {
    if i < |hand| then IndexOf(Cards, hand[i]) else -1
  }

  /** The card-by-card comparison from position i on: the first of positions i..4 where the
      cards differ decides, a stronger (earlier) card giving a positive result. */
  function CardOrderFrom(hand1: seq<char>, hand2: seq<char>, i: nat): int
    decreases 5 - i
  {
    if i >= 5 then 0
    else
      var compareValue := CardRank(hand2, i) - CardRank(hand1, i);
      if compareValue != 0 then compareValue else CardOrderFrom(hand1, hand2, i + 1)
  }

  function CardOrder(hand1: seq<char>, hand2: seq<char>): int
  {
    CardOrderFrom(hand1, hand2, 0)
  }

  /** day7/puzzle1.js compareHandsByCard: the loop over the five positions with early return. */
  method CompareHandsByCard(hand1: seq<char>, hand2: seq<char>) returns (compareValue: int)
    ensures compareValue == CardOrder(hand1, hand2)
  {
    for i := 0 to 5
      invariant CardOrderFrom(hand1, hand2, 0) == CardOrderFrom(hand1, hand2, i)
    {
      compareValue := CardRank(hand2, i) - CardRank(hand1, i);
      if compareValue != 0 {
        return;
      }
    }
    compareValue := 0;
  }

  /** On valid hands the card order is zero exactly when the hands are identical. */
  lemma {:induction false} CardOrderZeroIffIdentical(hand1: seq<char>, hand2: seq<char>, i: nat)
    requires ValidHand(hand1) && ValidHand(hand2) && i <= 5
    ensures CardOrderFrom(hand1, hand2, i) == 0 <==> hand1[i..] == hand2[i..]
    decreases 5 - i
  {
    if i < 5 {
      var r1, r2 := CardRank(hand1, i), CardRank(hand2, i);
      assert r1 == r2 <==> hand1[i] == hand2[i] by {
        IndexOfInjective(Cards, hand1[i], hand2[i]);
      }
      assert CardOrderFrom(hand1, hand2, i) == if r2 - r1 != 0 then r2 - r1 else CardOrderFrom(hand1, hand2, i + 1);
      CardOrderZeroIffIdentical(hand1, hand2, i + 1);
      SuffixEquality(hand1, hand2, i);
    }
  }

  lemma SuffixEquality<T>(x: seq<T>, y: seq<T>, i: nat)
    requires i < |x| == |y|
    ensures x[i..] == y[i..] <==> x[i] == y[i] && x[i + 1..] == y[i + 1..]
  {
    assert x[i..] == [x[i]] + x[i + 1..];
    assert y[i..] == [y[i]] + y[i + 1..];
    if x[i..] == y[i..] {
      assert x[i + 1..] == x[i..][1..] && y[i + 1..] == y[i..][1..];
    }
  }

  /** A hand of n copies of one card has one key, counted n times. */
  lemma {:induction false} OneCardTally(c: char, n: nat)
    requires n >= 1
    ensures TallyOf(seq(n, _ => c)) == Tally([c], [n])
  {
    var hand := seq(n, _ => c);
    if n == 1 {
      assert hand[..0] == [];
    } else {
      assert hand[..n - 1] == seq(n - 1, _ => c);
      OneCardTally(c, n - 1);
    }
  }

  /** The type of a hand of n copies of one card is the decimal string of n, whatever n is. */
  lemma OneCardHandType(c: char, n: nat)
    requires n >= 1
    ensures HandTypeOf(seq(n, _ => c)) == Decimal(n)
  {
    OneCardTally(c, n);
    assert SortCounts([n]) == [n] by {
      assert [n][..0] == [];
    }
    assert Join([n]) == Decimal(n) by {
      assert [n][..0] == [];
    }
  }

  /** A listed value's position is the first index holding it. */
  lemma IndexOfAt<T>(s: seq<T>, x: T, k: nat)
    requires k < |s| && s[k] == x && forall j :: 0 <= j < k ==> s[j] != x
    ensures IndexOf(s, x) == k
  {
    IndexOfFirst(s, x);
  }

  /** A hand of n copies of one card ranks at the first listed type spelling n. */
  lemma OneCardRank(c: char, n: nat, k: nat)
    requires n >= 1 && k < |HandTypes| && HandTypes[k] == Decimal(n)
    requires forall j :: 0 <= j < k ==> HandTypes[j] != Decimal(n)
    ensures TypeRank(seq(n, _ => c)) == k
  {
    OneCardHandType(c, n);
    IndexOfAt(HandTypes, Decimal(n), k);
  }

  lemma TwoDigitDecimal(n: nat)
    requires 10 <= n < 100
    ensures Decimal(n) == [DigitChar(n / 10), DigitChar(n % 10)]
  {
    assert Decimal(n / 10) == [DigitChar(n / 10)];
  }

  lemma FourteenIsListedSecond()
    ensures HandTypes[1] == Decimal(14) && HandTypes[0] != Decimal(14)
  {
    TwoDigitDecimal(14);
  }

  /** Fourteen K's give the type "14", the second listed type, four of a kind. */
  lemma FourteenOfOneCard()
    ensures TypeRank(seq(14, _ => 'K')) == 1
  {
    FourteenIsListedSecond();
    OneCardRank('K', 14, 1);
  }

  /** Five A's give the type "5", the first listed type, five of a kind. */
  lemma FiveOfOneCard()
    ensures TypeRank("AAAAA") == 0
  {
    assert "AAAAA" == seq(5, _ => 'A');
    assert HandTypes[0] == Decimal(5);
    OneCardRank('A', 5, 0);
  }

  /** So fourteen K's lose to five A's on type alone. */
  lemma FourteenKingsLoseToFiveAces()
    ensures CompareHands(seq(14, _ => 'K'), "AAAAA") == -1
  {
    FourteenOfOneCard();
    FiveOfOneCard();
  }

  /** day7/puzzle1.js compareHands: the type decides, and the cards only break ties. */
  function CompareHands(hand1: seq<char>, hand2: seq<char>): (r: int)
    ensures TypeRank(hand1) != TypeRank(hand2) ==> r == TypeRank(hand2) - TypeRank(hand1)
    ensures TypeRank(hand1) < TypeRank(hand2) ==> r > 0
    ensures TypeRank(hand1) == TypeRank(hand2) ==> r == CardOrder(hand1, hand2)
  {
    var byType := CompareHandsByType(hand1, hand2);
    if byType != 0 then byType else CardOrder(hand1, hand2)
  }

  /** Swapping the hands negates the card order, and a hand ties with itself. */
  lemma {:induction false} CardOrderAntisymmetric(hand1: seq<char>, hand2: seq<char>, i: nat)
    ensures CardOrderFrom(hand1, hand2, i) == -CardOrderFrom(hand2, hand1, i)
    ensures CardOrderFrom(hand1, hand1, i) == 0
    decreases 5 - i
  {
    if i < 5 {
      CardOrderAntisymmetric(hand1, hand2, i + 1);
    }
  }

  /** The card order is transitive, for "stronger" and for "at most as strong". */
  lemma {:induction false} CardOrderTransitive(hand1: seq<char>, hand2: seq<char>, hand3: seq<char>, i: nat)
    ensures CardOrderFrom(hand1, hand2, i) > 0 && CardOrderFrom(hand2, hand3, i) > 0 ==> CardOrderFrom(hand1, hand3, i) > 0
    ensures CardOrderFrom(hand1, hand2, i) <= 0 && CardOrderFrom(hand2, hand3, i) <= 0 ==> CardOrderFrom(hand1, hand3, i) <= 0
    decreases 5 - i
  {
    if i < 5 {
      CardOrderTransitive(hand1, hand2, hand3, i + 1);
    }
  }

  /** compareHands(a, b) == -compareHands(b, a), and a hand ties with itself. */
  lemma CompareAntisymmetric(hand1: seq<char>, hand2: seq<char>)
    ensures CompareHands(hand1, hand2) == -CompareHands(hand2, hand1)
    ensures CompareHands(hand1, hand1) == 0
  {
    CardOrderAntisymmetric(hand1, hand2, 0);
  }

  /** The sign of compareHands is transitive, for "stronger" and for "at most as strong". */
  lemma CompareTransitive(hand1: seq<char>, hand2: seq<char>, hand3: seq<char>)
    ensures CompareHands(hand1, hand2) > 0 && CompareHands(hand2, hand3) > 0 ==> CompareHands(hand1, hand3) > 0
    ensures CompareHands(hand1, hand2) <= 0 && CompareHands(hand2, hand3) <= 0 ==> CompareHands(hand1, hand3) <= 0
  {
    CardOrderTransitive(hand1, hand2, hand3, 0);
  }

  /** On valid hands compareHands is zero exactly when the hands are identical. */
  lemma CompareZeroIffIdentical(hand1: seq<char>, hand2: seq<char>)
    requires ValidHand(hand1) && ValidHand(hand2)
    ensures CompareHands(hand1, hand2) == 0 <==> hand1 == hand2
  {
    CardOrderZeroIffIdentical(hand1, hand2, 0);
    assert hand1[0..] == hand1 && hand2[0..] == hand2;
  }

  // ---------------------------------------------------------------------------
  // day7/puzzle1.js solve: sort ascending, then rank-weighted bids
  // ---------------------------------------------------------------------------

  /** A comparator as `Array.prototype.sort` takes it: negative puts the first argument first. */
  type Comparator = (seq<char>, seq<char>) -> int

  /** What a consistent comparator guarantees: antisymmetry and transitivity of "not after". */
  ghost predicate Consistent(cmp: Comparator)
  {
    && (forall a, b :: cmp(a, b) == -cmp(b, a))
    && (forall a, b, c :: cmp(a, b) <= 0 && cmp(b, c) <= 0 ==> cmp(a, c) <= 0)
  }

  /** compareHands is a consistent comparator. */
  lemma CompareHandsConsistent()
    ensures Consistent(CompareHands)
  {
    forall a, b ensures CompareHands(a, b) == -CompareHands(b, a) {
      CompareAntisymmetric(a, b);
    }
    forall a, b, c ensures CompareHands(a, b) <= 0 && CompareHands(b, c) <= 0 ==> CompareHands(a, c) <= 0 {
      CompareTransitive(a, b, c);
    }
  }

  /** Ordered as `game.sort` leaves it with the comparator: weakest hand first. */
  predicate Ascending(cmp: Comparator, s: seq<Play>)
  {
    forall i, j :: 0 <= i < j < |s| ==> cmp(s[i].hand, s[j].hand) <= 0
  }

  /** Insert after every play that is not stronger, which keeps the sort stable. */
  function InsertPlay(cmp: Comparator, p: Play, s: seq<Play>): (r: seq<Play>)
    ensures |r| == |s| + 1
    ensures multiset(r) == multiset(s) + multiset{p}
  {
    if s == [] || cmp(p.hand, s[0].hand) < 0 then [p] + s
    else
      assert s == [s[0]] + s[1..];
      [s[0]] + InsertPlay(cmp, p, s[1..])
  }

  lemma {:induction false} InsertPlayAscending(cmp: Comparator, p: Play, s: seq<Play>)
    requires Consistent(cmp) && Ascending(cmp, s)
    ensures Ascending(cmp, InsertPlay(cmp, p, s))
  {
    if s == [] {
    } else if cmp(p.hand, s[0].hand) < 0 {
      PrependAscending(cmp, p, s);
    } else {
      var rest := InsertPlay(cmp, p, s[1..]);
      AscendingTail(cmp, s);
      InsertPlayAscending(cmp, p, s[1..]);
      forall k | 0 <= k < |rest| ensures cmp(s[0].hand, rest[k].hand) <= 0 {
        HeadBeforeInserted(cmp, p, s, k);
      }
      ConsAscending(cmp, s[0], rest);
    }
  }

  /** The head of an ascending list is not after anything inserted behind it. */
  lemma HeadBeforeInserted(cmp: Comparator, p: Play, s: seq<Play>, k: int)
    requires Consistent(cmp) && Ascending(cmp, s) && s != [] && cmp(p.hand, s[0].hand) >= 0
    requires 0 <= k < |InsertPlay(cmp, p, s[1..])|
    ensures cmp(s[0].hand, InsertPlay(cmp, p, s[1..])[k].hand) <= 0
  {
    var x := InsertPlay(cmp, p, s[1..])[k];
    InsertedFrom(cmp, p, s[1..], k);
    if x == p {
      assert cmp(s[0].hand, p.hand) == -cmp(p.hand, s[0].hand);
    } else {
      var m :| 0 <= m < |s[1..]| && s[1..][m] == x;
      assert s[m + 1] == x;
    }
  }

  lemma InsertedFrom(cmp: Comparator, p: Play, s: seq<Play>, k: int)
    requires 0 <= k < |InsertPlay(cmp, p, s)|
    ensures InsertPlay(cmp, p, s)[k] == p || InsertPlay(cmp, p, s)[k] in s
  {
    var r := InsertPlay(cmp, p, s);
    assert r[k] in multiset(r);
  }

  /** A play not stronger than the first of an ascending list can go in front of it. */
  lemma PrependAscending(cmp: Comparator, p: Play, s: seq<Play>)
    requires Consistent(cmp) && Ascending(cmp, s) && s != [] && cmp(p.hand, s[0].hand) <= 0
    ensures Ascending(cmp, [p] + s)
  {
    forall j | 0 <= j < |s| ensures cmp(p.hand, s[j].hand) <= 0 {
      if j > 0 {
        assert cmp(s[0].hand, s[j].hand) <= 0;
      }
    }
    ConsAscending(cmp, p, s);
  }

  lemma ConsAscending(cmp: Comparator, p: Play, s: seq<Play>)
    requires Ascending(cmp, s)
    requires forall k :: 0 <= k < |s| ==> cmp(p.hand, s[k].hand) <= 0
    ensures Ascending(cmp, [p] + s)
  {
    var r := [p] + s;
    forall i, j | 0 <= i < j < |r| ensures cmp(r[i].hand, r[j].hand) <= 0 {
      if i == 0 {
        assert r[j] == s[j - 1];
      } else {
        assert r[i] == s[i - 1] && r[j] == s[j - 1];
      }
    }
  }

  /** A stable insertion sort standing for `Array.prototype.sort` with a comparator. */
  function SortPlays(cmp: Comparator, s: seq<Play>): (r: seq<Play>)
    ensures |r| == |s|
    ensures multiset(r) == multiset(s)
  {
    if s == [] then []
    else
      assert s == s[..|s| - 1] + [s[|s| - 1]];
      InsertPlay(cmp, s[|s| - 1], SortPlays(cmp, s[..|s| - 1]))
  }

  lemma {:induction false} SortPlaysAscending(cmp: Comparator, s: seq<Play>)
    requires Consistent(cmp)
    ensures Ascending(cmp, SortPlays(cmp, s))
  {
    if s != [] {
      SortPlaysAscending(cmp, s[..|s| - 1]);
      InsertPlayAscending(cmp, s[|s| - 1], SortPlays(cmp, s[..|s| - 1]));
    }
  }

  /** `game.reduce((winnings, { bid }, i) => winnings + bid * (i + 1), 0)`. */
  function Winnings(s: seq<Play>): int
  {
    if s == [] then 0 else Winnings(s[..|s| - 1]) + s[|s| - 1].bid * |s|
  }

  /** A comparator that ties two of the plays only when they are the same play. */
  ghost predicate Separates(cmp: Comparator, plays: multiset<Play>)
  {
    forall p, q :: p in plays && q in plays && cmp(p.hand, q.hand) == 0 ==> p == q
  }

  /** With a separating comparator only one order is ascending, whatever sort produced it. */
  lemma {:induction false} AscendingOrderIsUnique(cmp: Comparator, a: seq<Play>, b: seq<Play>)
    requires Consistent(cmp) && multiset(a) == multiset(b) && Separates(cmp, multiset(a))
    requires Ascending(cmp, a) && Ascending(cmp, b)
    ensures a == b
    decreases |a|
  {
    if a == [] {
      assert |b| == |multiset(b)| == 0;
    } else {
      HeadsEqual(cmp, a, b);
      TailMultisets(a, b);
      AscendingTail(cmp, a);
      AscendingTail(cmp, b);
      SeparatesTail(cmp, a);
      AscendingOrderIsUnique(cmp, a[1..], b[1..]);
      ConsEqual(a, b);
    }
  }

  /** Both orders start with the same play: each head is at most as strong as the other. */
  lemma HeadsEqual(cmp: Comparator, a: seq<Play>, b: seq<Play>)
    requires Consistent(cmp) && multiset(a) == multiset(b) && Separates(cmp, multiset(a))
    requires Ascending(cmp, a) && Ascending(cmp, b) && a != []
    ensures b != [] && a[0] == b[0]
  {
    assert a[0] in multiset(b);
    var j :| 0 <= j < |b| && b[j] == a[0];
    assert b[0] in multiset(a);
    var k :| 0 <= k < |a| && a[k] == b[0];
    assert cmp(a[0].hand, b[0].hand) <= 0 by {
      if k > 0 {
        assert cmp(a[0].hand, a[k].hand) <= 0;
      }
    }
    assert cmp(b[0].hand, a[0].hand) <= 0 by {
      if j > 0 {
        assert cmp(b[0].hand, b[j].hand) <= 0;
      }
    }
  }

  lemma AscendingTail(cmp: Comparator, a: seq<Play>)
    requires Ascending(cmp, a) && a != []
    ensures Ascending(cmp, a[1..])
  {
    forall i, j | 0 <= i < j < |a| - 1 ensures cmp(a[1..][i].hand, a[1..][j].hand) <= 0 {
      assert a[1..][i] == a[i + 1] && a[1..][j] == a[j + 1];
    }
  }

  lemma SeparatesTail(cmp: Comparator, a: seq<Play>)
    requires Separates(cmp, multiset(a)) && a != []
    ensures Separates(cmp, multiset(a[1..]))
  {
    assert a == [a[0]] + a[1..];
    assert multiset(a[1..]) <= multiset(a);
  }

  lemma TailMultisets<T>(a: seq<T>, b: seq<T>)
    requires a != [] && b != [] && a[0] == b[0] && multiset(a) == multiset(b)
    ensures multiset(a[1..]) == multiset(b[1..])
  {
    assert multiset(a[1..]) == multiset(a) - multiset{a[0]} by { assert a == [a[0]] + a[1..]; }
    assert multiset(b[1..]) == multiset(b) - multiset{b[0]} by { assert b == [b[0]] + b[1..]; }
  }

  lemma ConsEqual<T>(a: seq<T>, b: seq<T>)
    requires a != [] && b != [] && a[0] == b[0] && a[1..] == b[1..]
    ensures a == b
  {
    assert a == [a[0]] + a[1..] && b == [b[0]] + b[1..];
  }

  /** The puzzle's plays: valid hands, and a hand identifies its play. */
  ghost predicate WellFormedGame(plays: multiset<Play>)
  {
    && (forall p :: p in plays ==> ValidHand(p.hand))
    && (forall p, q :: p in plays && q in plays && p.hand == q.hand ==> p == q)
  }

  lemma CompareHandsSeparates(plays: multiset<Play>)
    requires WellFormedGame(plays)
    ensures Separates(CompareHands, plays)
  {
    forall p, q | p in plays && q in plays && CompareHands(p.hand, q.hand) == 0 ensures p == q {
      CompareZeroIffIdentical(p.hand, q.hand);
    }
  }

  /** The winnings do not depend on how the plays were sorted, only on the plays. */
  lemma WinningsAreDetermined(game: seq<Play>, sorted: seq<Play>)
    requires WellFormedGame(multiset(game))
    requires multiset(sorted) == multiset(game) && Ascending(CompareHands, sorted)
    ensures Winnings(sorted) == Winnings(SortPlays(CompareHands, game))
  {
    CompareHandsConsistent();
    CompareHandsSeparates(multiset(game));
    SortPlaysAscending(CompareHands, game);
    AscendingOrderIsUnique(CompareHands, sorted, SortPlays(CompareHands, game));
  }

  /** The sort with compareHands leaves the plays weakest first. */
  lemma SortByCompareHandsAscending(s: seq<Play>)
    ensures Ascending(CompareHands, SortPlays(CompareHands, s))
  {
    CompareHandsConsistent();
    SortPlaysAscending(CompareHands, s);
  }

  /** `game.sort(cmp)`: the array ends holding the sorted plays. */
  method SortGame(cmp: Comparator, game: array<Play>)
    modifies game
    ensures game[..] == SortPlays(cmp, old(game[..]))
    ensures multiset(game[..]) == multiset(old(game[..]))
    ensures Consistent(cmp) ==> Ascending(cmp, game[..])
  {
    var sorted := SortPlays(cmp, game[..]);
    if Consistent(cmp) {
      SortPlaysAscending(cmp, game[..]);
    }
    for i := 0 to game.Length
      invariant forall k :: 0 <= k < i ==> game[k] == sorted[k]
    {
      game[i] := sorted[i];
    }
    assert game[..] == sorted;
  }

  /** `game.reduce(...)` over the sorted game: bid times rank, added up. */
  method Score(game: array<Play>) returns (winnings: int)
    ensures winnings == Winnings(game[..])
  {
    winnings := 0;
    for i := 0 to game.Length
      invariant winnings == Winnings(game[..i])
    {
      assert game[..i + 1][..i] == game[..i];
      winnings := winnings + game[i].bid * (i + 1);
    }
    assert game[..game.Length] == game[..];
  }

  /** day7/puzzle1.js solve: sort the game in place with compareHands, then score it. */
  method Solve(game: array<Play>) returns (winnings: int)
    modifies game
    ensures multiset(game[..]) == multiset(old(game[..]))
    ensures Ascending(CompareHands, game[..])
    ensures game[..] == SortPlays(CompareHands, old(game[..]))
    ensures winnings == Winnings(game[..])
  {
    CompareHandsConsistent();
    SortGame(CompareHands, game);
    winnings := Score(game);
  }
}
