/** Finite sums over sequences of integers: the arithmetic every flow argument rests on. */
module Sums {

  ghost function Sum(s: seq<int>): int {
    if s == [] then 0 else Sum(s[..|s| - 1]) + s[|s| - 1]
  }

  lemma {:induction false} SumConcat(a: seq<int>, b: seq<int>)
    ensures Sum(a + b) == Sum(a) + Sum(b)
  {
    if b == [] {
      assert a + b == a;
    } else {
      var c := b[..|b| - 1];
      assert (a + b)[..|a + b| - 1] == a + c;
      SumConcat(a, c);
    }
  }

  lemma {:induction false} SumUpdate(s: seq<int>, i: nat, x: int)
    requires i < |s|
    ensures Sum(s[i := x]) == Sum(s) - s[i] + x
  {
    var n := |s| - 1;
    if i == n {
      assert s[i := x][..n] == s[..n];
    } else {
      assert s[i := x][..n] == s[..n][i := x];
      SumUpdate(s[..n], i, x);
    }
  }

  /** Sums are additive: if c is the pointwise sum of a and b, so is its total. */
  lemma {:induction false} SumAdd(a: seq<int>, b: seq<int>, c: seq<int>)
    requires |a| == |b| == |c|
    requires forall k | 0 <= k < |c| :: c[k] == a[k] + b[k]
    ensures Sum(c) == Sum(a) + Sum(b)
  {
    if c != [] {
      var n := |c| - 1;
      SumAdd(a[..n], b[..n], c[..n]);
    }
  }

  lemma {:induction false} SumAtMost(a: seq<int>, b: seq<int>)
    requires |a| == |b|
    requires forall k | 0 <= k < |a| :: a[k] <= b[k]
    ensures Sum(a) <= Sum(b)
    ensures Sum(a) == Sum(b) ==> a == b
  {
    if a != [] {
      var n := |a| - 1;
      SumAtMost(a[..n], b[..n]);
      assert a == a[..n] + [a[n]] && b == b[..n] + [b[n]];
    }
  }

  lemma {:induction false} SumZero(s: seq<int>)
    requires forall k | 0 <= k < |s| :: s[k] == 0
    ensures Sum(s) == 0
  {
    if s != [] {
      SumZero(s[..|s| - 1]);
    }
  }

  lemma {:induction false} SumSingle(s: seq<int>, i: nat)
    requires i < |s|
    requires forall k | 0 <= k < |s| && k != i :: s[k] == 0
    ensures Sum(s) == s[i]
  {
    SumUpdate(s, i, 0);
    SumZero(s[i := 0]);
  }

  lemma SumPair(s: seq<int>, i: nat, j: nat)
    requires i < |s| && j < |s| && i != j
    requires forall k | 0 <= k < |s| && k != i && k != j :: s[k] == 0
    ensures Sum(s) == s[i] + s[j]
  {
    SumUpdate(s, i, 0);
    SumSingle(s[i := 0], j);
  }

  lemma SumNonNegative(s: seq<int>)
    requires forall k | 0 <= k < |s| :: s[k] >= 0
    ensures Sum(s) >= 0
    ensures forall k | 0 <= k < |s| :: s[k] <= Sum(s)
  {
    var zero := seq(|s|, _ => 0);
    SumZero(zero);
    SumAtMost(zero, s);
    forall k | 0 <= k < |s| ensures s[k] <= Sum(s) {
      SumSingle(zero[k := s[k]], k);
      SumAtMost(zero[k := s[k]], s);
    }
  }
}
