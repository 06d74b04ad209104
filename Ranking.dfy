/**
 * Python's `max(d, key=d.get)` over an insertion-ordered dictionary: the
 * first key, in iteration order, whose value is largest. The dictionary's
 * values are given here as a sequence in iteration order.
 */
module Ranking {

  function FirstMax(s: seq<nat>): (k: nat)
    requires |s| > 0
    ensures k < |s|
    ensures forall j :: 0 <= j < |s| ==> s[j] <= s[k]
    ensures forall j :: 0 <= j < k ==> s[j] < s[k]
  {
    if |s| == 1 then 0
    else
      var k' := FirstMax(s[..|s| - 1]);
      if s[|s| - 1] > s[k'] then |s| - 1 else k'
  }

  /** Appending `x` moves the first maximum to `x` exactly when `x` beats it. */
  lemma FirstMaxSnoc(s: seq<nat>, x: nat)
    requires |s| > 0
    ensures FirstMax(s + [x]) == if x > s[FirstMax(s)] then |s| else FirstMax(s)
  {
    assert (s + [x])[..|s|] == s;
  }

  function Sum(s: seq<nat>): nat
  {
    if s == [] then 0 else Sum(s[..|s| - 1]) + s[|s| - 1]
  }

  /** No element exceeds the sum of all of them. */
  lemma {:induction false} ElementAtMostSum(s: seq<nat>, k: nat)
    requires k < |s|
    ensures s[k] <= Sum(s)
  {
    if k < |s| - 1 {
      ElementAtMostSum(s[..|s| - 1], k);
    }
  }

  /** The sum is at most the maximum times the number of elements. */
  lemma {:induction false} SumAtMostMaxTimesLength(s: seq<nat>, m: nat)
    requires forall j :: 0 <= j < |s| ==> s[j] <= m
    ensures Sum(s) <= |s| * m
  {
    if s != [] {
      SumAtMostMaxTimesLength(s[..|s| - 1], m);
    }
  }

  /** A sum is zero exactly when every element is zero. */
  lemma {:induction false} SumZeroIff(s: seq<nat>)
    ensures Sum(s) == 0 <==> forall j :: 0 <= j < |s| ==> s[j] == 0
  {
    if s != [] {
      SumZeroIff(s[..|s| - 1]);
      assert forall j :: 0 <= j < |s| - 1 ==> s[..|s| - 1][j] == s[j];
    }
  }

  lemma SumOfThree(s: seq<nat>)
    requires |s| == 3
    ensures Sum(s) == s[0] + s[1] + s[2]
  {
    assert s[..2][..1] == s[..1];
    assert s[..1][..0] == [];
    assert Sum(s) == Sum(s[..2]) + s[2];
    assert Sum(s[..2]) == Sum(s[..1]) + s[1];
    assert Sum(s[..1]) == Sum([]) + s[0];
  }

  /** The largest element is at most the sum, and the sum at most |s| times the largest element. */
  lemma MaxBounds(s: seq<nat>)
    requires |s| > 0
    ensures s[FirstMax(s)] <= Sum(s) <= |s| * s[FirstMax(s)]
  {
    ElementAtMostSum(s, FirstMax(s));
    SumAtMostMaxTimesLength(s, s[FirstMax(s)]);
  }

  /** A share `c / t` with `c <= t <= n * c` lies between `1 / n` and 1. */
  lemma RatioBounds(c: real, t: real, n: real)
    requires 0.0 < t && 0.0 < n
    requires c <= t && t <= n * c
    ensures 1.0 / n <= c / t <= 1.0
  {
    assert c / t <= t / t;
    assert 1.0 / n == t / (n * t);
    assert c / t == (n * c) / (n * t);
    assert t / (n * t) <= (n * c) / (n * t);
  }

  /** Among three counts with a positive sum, the first maximum's share lies between 1/3 and 1. */
  lemma FirstMaxShareOfThree(s: seq<nat>)
    requires |s| == 3 && Sum(s) > 0
    ensures 1.0 / 3.0 <= (s[FirstMax(s)] as real) / (Sum(s) as real) <= 1.0
  {
    MaxBounds(s);
    var c, t := s[FirstMax(s)], Sum(s);
    assert c <= t <= 3 * c;
    RatioBounds(c as real, t as real, 3.0);
  }

  /** Three shares of a positive total add up to 1. */
  lemma SharesSumToOne(a: real, b: real, c: real, t: real)
    requires t > 0.0 && a + b + c == t
    ensures a / t + b / t + c / t == 1.0
  {
    assert a / t + b / t == (a + b) / t;
    assert (a + b) / t + c / t == (a + b + c) / t;
  }
}
