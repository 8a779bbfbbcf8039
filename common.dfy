/** Small value types and list folds shared by the puzzle models. */
module Common {

  /** A value that may be absent; stands for JavaScript's `undefined` results. */
  datatype Option<T> = None | Some(value: T)

  /** Sum of a list of integers, folded from the left (last element added last). */
  function Sum(s: seq<int>): int
  {
    if s == [] then 0 else Sum(s[..|s| - 1]) + s[|s| - 1]
  }

  /** The prefix of length k + 1 is the prefix of length k followed by element k. */
  lemma PrefixSnoc<T>(s: seq<T>, k: nat)
    requires k < |s|
    ensures s[..k + 1] == s[..k] + [s[k]]
  {
  }

  lemma {:induction false} SumAppend(s: seq<int>, t: seq<int>)
    ensures Sum(s + t) == Sum(s) + Sum(t)
  {
    if t == [] {
      assert s + t == s;
    } else {
      assert (s + t)[..|s + t| - 1] == s + t[..|t| - 1];
      SumAppend(s, t[..|t| - 1]);
    }
  }

  lemma {:induction false} SumNonNegative(s: seq<int>)
    requires forall i :: 0 <= i < |s| ==> s[i] >= 0
    ensures Sum(s) >= 0
  {
    if s != [] {
      SumNonNegative(s[..|s| - 1]);
    }
  }

  /** One more element of the prefix form Sum(s[..i + 1]) used by loop invariants. */
  lemma SumPrefixStep(s: seq<int>, i: nat)
    requires i < |s|
    ensures Sum(s[..i + 1]) == Sum(s[..i]) + s[i]
  {
    assert s[..i + 1][..i] == s[..i];
  }

  /** Changing one element changes the sum by the difference. */
  lemma {:induction false} SumUpdate(s: seq<int>, p: nat, v: int)
    requires p < |s|
    ensures Sum(s[p := v]) == Sum(s) - s[p] + v
  {
    var n := |s| - 1;
    if p < n {
      assert s[p := v][..n] == s[..n][p := v];
      SumUpdate(s[..n], p, v);
    } else {
      assert s[p := v][..n] == s[..n];
    }
  }

  /** Taking out the element at k lowers the sum by that element. */
  lemma SumRemove(t: seq<int>, k: nat)
    requires k < |t|
    ensures Sum(t) == Sum(t[..k] + t[k + 1..]) + t[k]
  {
    assert t == t[..k] + [t[k]] + t[k + 1..];
    SumAppend(t[..k] + [t[k]], t[k + 1..]);
    SumAppend(t[..k], [t[k]]);
    SumAppend(t[..k], t[k + 1..]);
    assert Sum([t[k]]) == t[k] by { assert [t[k]][..0] == []; }
  }

  /** Taking out the element at k removes one occurrence of it from the multiset. */
  lemma MultisetRemove<T>(t: seq<T>, k: nat)
    requires k < |t|
    ensures multiset(t[..k] + t[k + 1..]) == multiset(t) - multiset{t[k]}
  {
    assert t == t[..k] + [t[k]] + t[k + 1..];
  }

  /** The sum depends only on the multiset of the elements. */
  lemma {:induction false} SumPermutation(s: seq<int>, t: seq<int>)
    requires multiset(s) == multiset(t)
    ensures Sum(s) == Sum(t)
    decreases |s|
  {
    if s == [] {
      assert |t| == |multiset(t)| == 0;
    } else {
      var n := |s| - 1;
      var x := s[n];
      assert x in multiset(t) by { assert s == s[..n] + [x]; }
      var k :| 0 <= k < |t| && t[k] == x;
      MultisetRemove(s, n);
      MultisetRemove(t, k);
      assert s[..n] + s[n + 1..] == s[..n];
      SumPermutation(s[..n], t[..k] + t[k + 1..]);
      SumRemove(t, k);
    }
  }

  /** A list of integers that are all at least 1 sums to at least its length. */
  lemma {:induction false} SumAtLeastLength(s: seq<int>)
    requires forall i :: 0 <= i < |s| ==> s[i] >= 1
    ensures Sum(s) >= |s|
  {
    if s != [] {
      SumAtLeastLength(s[..|s| - 1]);
    }
  }

  /** Number of positions of `s` holding `x`. */
  function Count<T(==)>(s: seq<T>, x: T): nat
  {
    if s == [] then 0 else Count(s[..|s| - 1], x) + (if s[|s| - 1] == x then 1 else 0)
  }

  lemma {:induction false} CountAppend<T>(s: seq<T>, t: seq<T>, x: T)
    ensures Count(s + t, x) == Count(s, x) + Count(t, x)
  {
    if t == [] {
      assert s + t == s;
    } else {
      assert (s + t)[..|s + t| - 1] == s + t[..|t| - 1];
      CountAppend(s, t[..|t| - 1], x);
    }
  }

  lemma {:induction false} CountBound<T>(s: seq<T>, x: T)
    ensures Count(s, x) <= |s|
    ensures Count(s, x) == 0 <==> x !in s
  {
    if s != [] {
      CountBound(s[..|s| - 1], x);
      assert s == s[..|s| - 1] + [s[|s| - 1]];
    }
  }

  /** The largest of two integers (JavaScript's Math.max on two finite numbers). */
  function Max(a: int, b: int): (m: int)
    ensures m >= a && m >= b && (m == a || m == b)
  {
    if a >= b then a else b
  }

  /** The smallest of two integers (JavaScript's Math.min on two finite numbers). */
  function Min(a: int, b: int): (m: int)
    ensures m <= a && m <= b && (m == a || m == b)
  {
    if a <= b then a else b
  }

  /** Absolute value (JavaScript's Math.abs). */
  function Abs(a: int): (r: nat)
    ensures r == a || r == -a
  {
    if a >= 0 then a else -a
  }

  /** Minimum of a non-empty list (JavaScript's Math.min(...s)). */
  function MinOf(s: seq<int>): (m: int)
    requires s != []
    ensures m in s
    ensures forall i :: 0 <= i < |s| ==> m <= s[i]
  {
    if |s| == 1 then s[0] else Min(MinOf(s[..|s| - 1]), s[|s| - 1])
  }

  /** `true` for the ten decimal digit characters. */
  predicate IsDigit(c: char)
  {
    '0' <= c <= '9'
  }

  /** Value of a decimal digit character. */
  function DigitValue(c: char): (d: nat)
    requires IsDigit(c)
    ensures d <= 9
  {
    c as int - '0' as int
  }

  /** Value of a string of decimal digits (JavaScript's Number on such a string). */
  function DecimalValue(s: string): (v: nat)
    requires forall i :: 0 <= i < |s| ==> IsDigit(s[i])
  {
    if s == [] then 0 else DecimalValue(s[..|s| - 1]) * 10 + DigitValue(s[|s| - 1])
  }
}
