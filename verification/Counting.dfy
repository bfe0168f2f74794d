/** Sums over the processes of a system, as one process takes a step. */
module Counting {

  /** The sum of the weights of the elements. */
  function Sum<T>(s: seq<T>, weight: T -> int): int {
    if s == [] then 0 else Sum(s[..|s| - 1], weight) + weight(s[|s| - 1])
  }

  function Bit(b: bool): int {
    if b then 1 else 0
  }

  lemma {:induction false} SumUpdate<T>(s: seq<T>, i: nat, x: T, weight: T -> int)
    requires i < |s|
    ensures Sum(s[i := x], weight) == Sum(s, weight) - weight(s[i]) + weight(x)
  {
    var n := |s| - 1;
    if i < n {
      SumUpdate(s[..n], i, x, weight);
      assert s[i := x][..n] == s[..n][i := x];
    } else {
      assert s[i := x][..n] == s[..n];
    }
  }

  /** A sum of non-negative weights is at least any one of them. */
  lemma {:induction false} SumAtLeast<T>(s: seq<T>, i: nat, weight: T -> int)
    requires i < |s| && forall j | 0 <= j < |s| :: weight(s[j]) >= 0
    ensures Sum(s, weight) >= weight(s[i])
  {
    var n := |s| - 1;
    if i < n {
      SumAtLeast(s[..n], i, weight);
    } else {
      SumNonNegative(s[..n], weight);
    }
  }

  lemma {:induction false} SumNonNegative<T>(s: seq<T>, weight: T -> int)
    requires forall j | 0 <= j < |s| :: weight(s[j]) >= 0
    ensures Sum(s, weight) >= 0
  {
    if s != [] {
      SumNonNegative(s[..|s| - 1], weight);
    }
  }

  /** Weights known element by element. */
  lemma {:induction false} SumOfConstant<T>(s: seq<T>, weight: T -> int, c: int)
    requires forall j | 0 <= j < |s| :: weight(s[j]) == c
    ensures Sum(s, weight) == c * |s|
  {
    if s != [] {
      SumOfConstant(s[..|s| - 1], weight, c);
    }
  }

  lemma {:induction false} SumAtMost<T>(s: seq<T>, weight: T -> int, c: int)
    requires forall j | 0 <= j < |s| :: weight(s[j]) <= c
    ensures Sum(s, weight) <= c * |s|
  {
    if s != [] {
      SumAtMost(s[..|s| - 1], weight, c);
    }
  }

  lemma {:induction false} SumAtLeastEach<T>(s: seq<T>, weight: T -> int, c: int)
    requires forall j | 0 <= j < |s| :: weight(s[j]) >= c
    ensures Sum(s, weight) >= c * |s|
  {
    if s != [] {
      SumAtLeastEach(s[..|s| - 1], weight, c);
    }
  }

  /** If every element has weight at most 1 and the sum is the length, all have weight 1. */
  lemma {:induction false} SumIsFull<T>(s: seq<T>, weight: T -> int, i: nat)
    requires forall j | 0 <= j < |s| :: weight(s[j]) <= 1
    requires Sum(s, weight) == |s| && i < |s|
    ensures weight(s[i]) == 1
  {
    var n := |s| - 1;
    SumAtMost(s[..n], weight, 1);
    if i < n {
      SumIsFull(s[..n], weight, i);
    }
  }

  /** A positive sum has a positive term. */
  lemma {:induction false} SumHasTerm<T>(s: seq<T>, weight: T -> int) returns (i: nat)
    requires Sum(s, weight) > 0
    ensures i < |s| && weight(s[i]) > 0
  {
    var n := |s| - 1;
    if weight(s[n]) > 0 {
      i := n;
    } else {
      i := SumHasTerm(s[..n], weight);
    }
  }

  /** Appending adds the last weight. */
  lemma SumSnoc<T>(s: seq<T>, x: T, weight: T -> int)
    ensures Sum(s + [x], weight) == Sum(s, weight) + weight(x)
  {
    assert (s + [x])[..|s|] == s;
  }

  /** A prefix of non-negative weights weighs no more than the whole. */
  lemma {:induction false} SumPrefix<T>(s: seq<T>, m: nat, weight: T -> int)
    requires m <= |s| && forall j | 0 <= j < |s| :: weight(s[j]) >= 0
    ensures Sum(s[..m], weight) <= Sum(s, weight)
  {
    if m < |s| {
      SumPrefix(s[..|s| - 1], m, weight);
      assert s[..|s| - 1][..m] == s[..m];
    } else {
      assert s[..m] == s;
    }
  }
}
