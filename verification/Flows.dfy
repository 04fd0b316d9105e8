/** Flows on a directed network: conservation, and the two classical optimality certificates. */
module Flows {
  import opened Sums

  /** One edge of the network; a flow assigns every edge an amount between 0 and `cap`. */
  datatype Edge = Edge(tail: nat, head: nat, cap: int, cost: int)

  ghost predicate Network(es: seq<Edge>, n: nat) {
    forall k | 0 <= k < |es| :: es[k].tail < n && es[k].head < n
  }

  /** What one edge carrying x adds to the net outflow of v. */
  function OutTerm(e: Edge, x: int, v: nat): int {
    (if e.tail == v then x else 0) - (if e.head == v then x else 0)
  }

  ghost function OutTerms(es: seq<Edge>, f: seq<int>, v: nat): (r: seq<int>)
    requires |es| == |f|
    ensures |r| == |es|
    ensures forall k | 0 <= k < |r| :: r[k] == OutTerm(es[k], f[k], v)
  {
    seq(|es|, k requires 0 <= k < |es| => OutTerm(es[k], f[k], v))
  }

  /** Flow leaving v minus flow entering v. */
  ghost function NetOut(es: seq<Edge>, f: seq<int>, v: nat): int
    requires |es| == |f|
  {
    Sum(OutTerms(es, f, v))
  }

  ghost predicate WithinCaps(es: seq<Edge>, f: seq<int>) {
    |es| == |f| && forall k | 0 <= k < |es| :: 0 <= f[k] <= es[k].cap
  }

  /** f respects capacities and is conserved everywhere but at s and t. */
  ghost predicate IsFlow(es: seq<Edge>, f: seq<int>, n: nat, s: nat, t: nat) {
    && WithinCaps(es, f)
    && forall v: nat | v < n && v != s && v != t :: NetOut(es, f, v) == 0
  }

  ghost function CostTerms(es: seq<Edge>, f: seq<int>): (r: seq<int>)
    requires |es| == |f|
    ensures |r| == |es|
    ensures forall k | 0 <= k < |r| :: r[k] == es[k].cost * f[k]
  {
    seq(|es|, k requires 0 <= k < |es| => es[k].cost * f[k])
  }

  ghost function Cost(es: seq<Edge>, f: seq<int>): int
    requires |es| == |f|
  {
    Sum(CostTerms(es, f))
  }

  lemma CostConcat(es: seq<Edge>, f: seq<int>, es': seq<Edge>, f': seq<int>)
    requires |es| == |f| && |es'| == |f'|
    ensures Cost(es + es', f + f') == Cost(es, f) + Cost(es', f')
  {
    assert CostTerms(es + es', f + f') == CostTerms(es, f) + CostTerms(es', f');
    SumConcat(CostTerms(es, f), CostTerms(es', f'));
  }

  lemma FreeCost(es: seq<Edge>, f: seq<int>)
    requires |es| == |f| && forall k | 0 <= k < |es| :: es[k].cost == 0
    ensures Cost(es, f) == 0
  {
    SumZero(CostTerms(es, f));
  }

  ghost function DropTerms(es: seq<Edge>, f: seq<int>, pi: seq<int>): (r: seq<int>)
    requires |es| == |f| && Network(es, |pi|)
    ensures |r| == |es|
    ensures forall k | 0 <= k < |r| :: r[k] == f[k] * (pi[es[k].tail] - pi[es[k].head])
  {
    seq(|es|, k requires 0 <= k < |es| => f[k] * (pi[es[k].tail] - pi[es[k].head]))
  }

  /** Total drop of the potential pi along the flow. */
  ghost function Drop(es: seq<Edge>, f: seq<int>, pi: seq<int>): int
    requires |es| == |f| && Network(es, |pi|)
  {
    Sum(DropTerms(es, f, pi))
  }

  ghost function WeightedNet(es: seq<Edge>, f: seq<int>, pi: seq<int>): (r: seq<int>)
    requires |es| == |f|
    ensures |r| == |pi|
    ensures forall v | 0 <= v < |r| :: r[v] == pi[v] * NetOut(es, f, v)
  {
    seq(|pi|, v requires 0 <= v < |pi| => pi[v] * NetOut(es, f, v))
  }

  lemma NetOutSplit(es: seq<Edge>, f: seq<int>, v: nat)
    requires |es| == |f| > 0
    ensures NetOut(es, f, v) ==
            NetOut(es[..|es| - 1], f[..|es| - 1], v) + OutTerm(es[|es| - 1], f[|es| - 1], v)
  {
    var m := |es| - 1;
    assert OutTerms(es, f, v)[..m] == OutTerms(es[..m], f[..m], v);
  }

  lemma NetOutConcat(es: seq<Edge>, f: seq<int>, es': seq<Edge>, f': seq<int>, v: nat)
    requires |es| == |f| && |es'| == |f'|
    ensures NetOut(es + es', f + f', v) == NetOut(es, f, v) + NetOut(es', f', v)
  {
    assert OutTerms(es + es', f + f', v) == OutTerms(es, f, v) + OutTerms(es', f', v);
    SumConcat(OutTerms(es, f, v), OutTerms(es', f', v));
  }

  /** The two nonzero entries one edge contributes to the weighted net outflows. */
  ghost function EndTerms(e: Edge, x: int, pi: seq<int>): (r: seq<int>)
    ensures |r| == |pi|
    ensures forall v | 0 <= v < |r| :: r[v] == pi[v] * OutTerm(e, x, v)
  {
    seq(|pi|, v requires 0 <= v < |pi| => pi[v] * OutTerm(e, x, v))
  }

  lemma EndTermsSum(e: Edge, x: int, pi: seq<int>)
    requires e.tail < |pi| && e.head < |pi|
    ensures Sum(EndTerms(e, x, pi)) == x * (pi[e.tail] - pi[e.head])
  {
    var zero := seq(|pi|, _ => 0);
    var atTail := zero[e.tail := pi[e.tail] * x];
    var atHead := zero[e.head := -(pi[e.head] * x)];
    SumSingle(atTail, e.tail);
    SumSingle(atHead, e.head);
    forall v | 0 <= v < |pi| ensures EndTerms(e, x, pi)[v] == atTail[v] + atHead[v] {
      WeightTerm(pi[v], 0, e, x, v);
    }
    SumAdd(atTail, atHead, EndTerms(e, x, pi));
  }

  lemma WeightedNetSplit(es: seq<Edge>, f: seq<int>, pi: seq<int>)
    requires |es| == |f| > 0 && Network(es, |pi|)
    ensures Sum(WeightedNet(es, f, pi)) ==
            Sum(WeightedNet(es[..|es| - 1], f[..|es| - 1], pi)) +
            Sum(EndTerms(es[|es| - 1], f[|es| - 1], pi))
  {
    var m := |es| - 1;
    var rest, ends := WeightedNet(es[..m], f[..m], pi), EndTerms(es[m], f[m], pi);
    forall v | 0 <= v < |pi|
      ensures WeightedNet(es, f, pi)[v] == rest[v] + ends[v]
    {
      NetOutSplit(es, f, v);
      Distribute(pi[v], NetOut(es[..m], f[..m], v), OutTerm(es[m], f[m], v));
    }
    SumAdd(rest, ends, WeightedNet(es, f, pi));
  }

  lemma DropSplit(es: seq<Edge>, f: seq<int>, pi: seq<int>)
    requires |es| == |f| > 0 && Network(es, |pi|)
    ensures Drop(es, f, pi) == Drop(es[..|es| - 1], f[..|es| - 1], pi) +
                               f[|es| - 1] * (pi[es[|es| - 1].tail] - pi[es[|es| - 1].head])
  {
    var m := |es| - 1;
    assert DropTerms(es, f, pi)[..m] == DropTerms(es[..m], f[..m], pi);
  }

  lemma WeightedNetEmpty(es: seq<Edge>, f: seq<int>, pi: seq<int>)
    requires es == [] && f == []
    ensures Sum(WeightedNet(es, f, pi)) == 0
  {
    forall v | 0 <= v < |pi| ensures WeightedNet(es, f, pi)[v] == 0 {
      assert OutTerms(es, f, v) == [];
    }
    SumZero(WeightedNet(es, f, pi));
  }

  /** Summation by parts: the drop along the edges is the potential weighted by the net outflows. */
  lemma {:induction false} SummationByParts(es: seq<Edge>, f: seq<int>, pi: seq<int>)
    requires |es| == |f| && Network(es, |pi|)
    ensures Drop(es, f, pi) == Sum(WeightedNet(es, f, pi))
  {
    if es == [] {
      WeightedNetEmpty(es, f, pi);
    } else {
      var m := |es| - 1;
      var rest := Drop(es[..m], f[..m], pi);
      var last := Sum(EndTerms(es[m], f[m], pi));
      assert Drop(es, f, pi) == rest + last by {
        DropSplit(es, f, pi);
        EndTermsSum(es[m], f[m], pi);
      }
      assert Sum(WeightedNet(es, f, pi)) == rest + last by {
        SummationByParts(es[..m], f[..m], pi);
        WeightedNetSplit(es, f, pi);
      }
    }
  }

  lemma WeightTerm(p: int, net: int, e: Edge, x: int, v: nat)
    ensures p * (net + OutTerm(e, x, v)) ==
            p * net + (if e.tail == v then x * p else 0) + (if e.head == v then -(x * p) else 0)
  {
  }

  /** For a conserved flow only the two terminals contribute to the drop. */
  lemma DropOfFlow(es: seq<Edge>, f: seq<int>, pi: seq<int>, s: nat, t: nat)
    requires |es| == |f| && Network(es, |pi|)
    requires s < |pi| && t < |pi| && s != t
    requires forall v: nat | v < |pi| && v != s && v != t :: NetOut(es, f, v) == 0
    ensures Drop(es, f, pi) == pi[s] * NetOut(es, f, s) + pi[t] * NetOut(es, f, t)
  {
    assert Sum(WeightedNet(es, f, pi)) == pi[s] * NetOut(es, f, s) + pi[t] * NetOut(es, f, t) by {
      SumPair(WeightedNet(es, f, pi), s, t);
    }
    SummationByParts(es, f, pi);
  }

  /** What leaves the source arrives at the sink. */
  lemma SourceEqualsSink(es: seq<Edge>, f: seq<int>, n: nat, s: nat, t: nat)
    requires |es| == |f| && Network(es, n) && s < n && t < n && s != t
    requires forall v: nat | v < n && v != s && v != t :: NetOut(es, f, v) == 0
    ensures NetOut(es, f, s) == -NetOut(es, f, t)
  {
    var one := seq(n, _ => 1);
    DropOfFlow(es, f, one, s, t);
    SumZero(DropTerms(es, f, one));
  }

  /** pi certifies f: no residual edge has negative reduced cost. */
  ghost predicate Certifies(es: seq<Edge>, f: seq<int>, pi: seq<int>) {
    && |es| == |f| && Network(es, |pi|)
    && forall k | 0 <= k < |es| ::
         && (f[k] < es[k].cap ==> es[k].cost + pi[es[k].tail] - pi[es[k].head] >= 0)
         && (f[k] > 0 ==> es[k].cost + pi[es[k].tail] - pi[es[k].head] <= 0)
  }

  lemma GainTerm(e: Edge, x: int, y: int, c: int)
    requires 0 <= x <= e.cap && 0 <= y <= e.cap
    requires x < e.cap ==> c >= 0
    requires x > 0 ==> c <= 0
    ensures x * c <= y * c
  {
    if y > x {
      assert (y - x) * c >= 0;
    } else if y < x {
      assert (x - y) * c <= 0;
    }
  }

  /** Duality: a certified flow is cheapest among the flows that ship the same amount. */
  lemma CertifiedIsCheapest(es: seq<Edge>, f: seq<int>, g: seq<int>, pi: seq<int>, s: nat, t: nat)
    requires s < |pi| && t < |pi| && s != t
    requires IsFlow(es, f, |pi|, s, t) && IsFlow(es, g, |pi|, s, t)
    requires NetOut(es, f, s) == NetOut(es, g, s)
    requires Certifies(es, f, pi)
    ensures Cost(es, f) <= Cost(es, g)
  {
    DropOfFlow(es, f, pi, s, t);
    DropOfFlow(es, g, pi, s, t);
    SourceEqualsSink(es, f, |pi|, s, t);
    SourceEqualsSink(es, g, |pi|, s, t);
    var a := ReducedCosts(es, f, pi);
    var b := ReducedCosts(es, g, pi);
    forall k | 0 <= k < |es| ensures a[k] <= b[k] {
      GainTerm(es[k], f[k], g[k], es[k].cost + pi[es[k].tail] - pi[es[k].head]);
    }
    SumAtMost(a, b);
    ReducedCostSum(es, f, pi);
    ReducedCostSum(es, g, pi);
  }

  ghost function ReducedCosts(es: seq<Edge>, f: seq<int>, pi: seq<int>): (r: seq<int>)
    requires |es| == |f| && Network(es, |pi|)
    ensures |r| == |es|
    ensures forall k | 0 <= k < |r| :: r[k] == f[k] * (es[k].cost + pi[es[k].tail] - pi[es[k].head])
  {
    seq(|es|, k requires 0 <= k < |es| => f[k] * (es[k].cost + pi[es[k].tail] - pi[es[k].head]))
  }

  lemma ReducedCostSum(es: seq<Edge>, f: seq<int>, pi: seq<int>)
    requires |es| == |f| && Network(es, |pi|)
    ensures Sum(ReducedCosts(es, f, pi)) == Cost(es, f) + Drop(es, f, pi)
  {
    forall k | 0 <= k < |es|
      ensures ReducedCosts(es, f, pi)[k] == CostTerms(es, f)[k] + DropTerms(es, f, pi)[k]
    {
      Distribute(f[k], es[k].cost, pi[es[k].tail] - pi[es[k].head]);
    }
    SumAdd(CostTerms(es, f), DropTerms(es, f, pi), ReducedCosts(es, f, pi));
  }

  lemma Distribute(x: int, a: int, b: int)
    ensures x * (a + b) == a * x + x * b
  {
  }

  /** R is closed under residual edges: forward while there is room, backward while there is flow. */
  ghost predicate ClosedUnderResidual(es: seq<Edge>, f: seq<int>, R: set<nat>)
    requires |es| == |f|
  {
    forall k | 0 <= k < |es| ::
      && (f[k] < es[k].cap && es[k].tail in R ==> es[k].head in R)
      && (f[k] > 0 && es[k].head in R ==> es[k].tail in R)
  }

  /** Max-flow/min-cut: if residual edges cannot leave R, no flow ships more than f. */
  lemma ClosedCutIsMaximal(es: seq<Edge>, f: seq<int>, g: seq<int>, n: nat, s: nat, t: nat, R: set<nat>)
    requires Network(es, n) && s < n && t < n && s != t
    requires IsFlow(es, f, n, s, t) && IsFlow(es, g, n, s, t)
    requires s in R && t !in R && ClosedUnderResidual(es, f, R)
    ensures NetOut(es, f, s) >= NetOut(es, g, s)
  {
    var chi := seq(n, v => if v in R then 1 else 0);
    DropOfFlow(es, f, chi, s, t);
    DropOfFlow(es, g, chi, s, t);
    SumAtMost(DropTerms(es, g, chi), DropTerms(es, f, chi));
  }
}
