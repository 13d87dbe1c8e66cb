/** Sums of a natural-valued weight over a sequence. */
module Sums {

  function Sum<T>(s: seq<T>, f: T -> nat): nat {
    if s == [] then 0 else f(s[0]) + Sum(s[1..], f)
  }

  /** The sum of g over 0, 1, ..., n - 1. */
  function RangeSum(n: nat, g: nat -> nat): nat {
    if n == 0 then 0 else RangeSum(n - 1, g) + g(n - 1)
  }

  lemma SumHead<T>(s: seq<T>, f: T -> nat)
    requires s != []
    ensures Sum(s, f) == f(s[0]) + Sum(s[1..], f)
  {
  }

  lemma {:induction false} SumUpdate<T>(s: seq<T>, i: nat, x: T, f: T -> nat)
    requires i < |s|
    ensures Sum(s[i := x], f) + f(s[i]) == Sum(s, f) + f(x)
  {
    if i == 0 {
      assert s[i := x][1..] == s[1..];
    } else {
      assert s[i := x][1..] == s[1..][i - 1 := x];
      SumUpdate(s[1..], i - 1, x, f);
    }
  }

  lemma {:induction false} SumAppend<T>(s: seq<T>, x: T, f: T -> nat)
    ensures Sum(s + [x], f) == Sum(s, f) + f(x)
  {
    if s == [] {
      assert s + [x] == [x];
    } else {
      assert (s + [x])[1..] == s[1..] + [x];
      SumAppend(s[1..], x, f);
    }
  }

  lemma {:induction false} SumAtLeast<T>(s: seq<T>, i: nat, f: T -> nat)
    requires i < |s|
    ensures Sum(s, f) >= f(s[i])
  {
    if i > 0 {
      SumAtLeast(s[1..], i - 1, f);
    }
  }

  lemma {:induction false} SumAtLeastTwo<T>(s: seq<T>, i: nat, j: nat, f: T -> nat)
    requires i < j < |s|
    ensures Sum(s, f) >= f(s[i]) + f(s[j])
  {
    if i == 0 {
      SumAtLeast(s[1..], j - 1, f);
    } else {
      SumAtLeastTwo(s[1..], i - 1, j - 1, f);
    }
  }

  /** A positive sum has a positive term. */
  lemma {:induction false} SumWitness<T>(s: seq<T>, f: T -> nat) returns (i: nat)
    requires Sum(s, f) > 0
    ensures i < |s| && f(s[i]) > 0
  {
    if f(s[0]) > 0 {
      i := 0;
    } else {
      i := SumWitness(s[1..], f);
      i := i + 1;
    }
  }

  /** A sum of at least two, whose terms are at most one, has two positive terms. */
  lemma {:induction false} SumTwoWitnesses<T>(s: seq<T>, f: T -> nat) returns (i: nat, j: nat)
    requires Sum(s, f) >= 2
    requires forall k :: 0 <= k < |s| ==> f(s[k]) <= 1
    ensures i < j < |s| && f(s[i]) > 0 && f(s[j]) > 0
  {
    if f(s[0]) > 0 {
      j := SumWitness(s[1..], f);
      i, j := 0, j + 1;
    } else {
      i, j := SumTwoWitnesses(s[1..], f);
      i, j := i + 1, j + 1;
    }
  }

  /** Two weights that agree on every element have equal sums. */
  lemma {:induction false} SumCong<T>(s: seq<T>, f: T -> nat, g: T -> nat)
    requires forall k :: 0 <= k < |s| ==> f(s[k]) == g(s[k])
    ensures Sum(s, f) == Sum(s, g)
  {
    if s != [] {
      assert f(s[0]) == g(s[0]);
      SumCong(s[1..], f, g);
    }
  }

  lemma {:induction false} SumAdd<T>(s: seq<T>, f: T -> nat, g: T -> nat, h: T -> nat)
    requires forall k :: 0 <= k < |s| ==> f(s[k]) + g(s[k]) == h(s[k])
    ensures Sum(s, f) + Sum(s, g) == Sum(s, h)
  {
    if s != [] {
      assert f(s[0]) + g(s[0]) == h(s[0]);
      SumAdd(s[1..], f, g, h);
    }
  }

  /** A weight of at most one per element sums to at most the length, and to exactly
      the length only when it is one everywhere. */
  lemma {:induction false} SumBound<T>(s: seq<T>, f: T -> nat)
    requires forall k :: 0 <= k < |s| ==> f(s[k]) <= 1
    ensures Sum(s, f) <= |s|
    ensures Sum(s, f) == |s| <==> forall k :: 0 <= k < |s| ==> f(s[k]) == 1
  {
    if s != [] {
      assert f(s[0]) <= 1;
      SumBound(s[1..], f);
      assert forall k :: 0 <= k < |s[1..]| ==> s[1..][k] == s[k + 1];
      assert (forall k :: 0 <= k < |s| ==> f(s[k]) == 1) ==> forall k :: 0 <= k < |s[1..]| ==> f(s[1..][k]) == 1;
    }
  }

  lemma {:induction false} RangeSumIndicator(n: nat, k: nat, g: nat -> nat)
    requires forall m: nat :: g(m) == if m == k then 1 else 0
    ensures RangeSum(n, g) == if k < n then 1 else 0
  {
    if n > 0 {
      RangeSumIndicator(n - 1, k, g);
    }
  }

  lemma {:induction false} RangeSumOnes(n: nat, g: nat -> nat)
    requires forall m: nat :: g(m) == 1
    ensures RangeSum(n, g) == n
  {
    if n > 0 {
      RangeSumOnes(n - 1, g);
    }
  }
}
