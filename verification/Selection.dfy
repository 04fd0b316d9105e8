/** Live-range selection as a flow problem: what a selection is, the compressed network that
    stands for it, and the correspondence between the two. */
module Selection {
  import opened Sums
  import opened Flows
  import opened FlowNets

  /** A live range occupies the half-open segment interval [start, end). */
  datatype Span = Span(start: nat, end: nat, vreg: int, weight: nat)

  // ---------------------------------------------------------------------
  // the problem
  // ---------------------------------------------------------------------

  ghost function CoverTerms(spans: seq<Span>, x: seq<int>, p: int): (r: seq<int>)
    requires |spans| == |x|
    ensures |r| == |spans|
    ensures forall k | 0 <= k < |r| :: r[k] == if spans[k].start <= p < spans[k].end then x[k] else 0
  {
    seq(|spans|, k requires 0 <= k < |spans| => if spans[k].start <= p < spans[k].end then x[k] else 0)
  }

  /** How much of x lies on segment p. */
  ghost function Covered(spans: seq<Span>, x: seq<int>, p: int): int
    requires |spans| == |x|
  {
    Sum(CoverTerms(spans, x, p))
  }

  ghost function WeightTerms(spans: seq<Span>, x: seq<int>): (r: seq<int>)
    requires |spans| == |x|
    ensures |r| == |spans|
    ensures forall k | 0 <= k < |r| :: r[k] == spans[k].weight * x[k]
  {
    seq(|spans|, k requires 0 <= k < |spans| => spans[k].weight * x[k])
  }

  ghost function TotalWeight(spans: seq<Span>, x: seq<int>): int
    requires |spans| == |x|
  {
    Sum(WeightTerms(spans, x))
  }

  /** x marks a set of spans: 1 for chosen, 0 for spilled. */
  ghost predicate Marks(spans: seq<Span>, x: seq<int>) {
    |x| == |spans| && forall k | 0 <= k < |x| :: x[k] == 0 || x[k] == 1
  }

  /** A span takes part when it is non-empty and starts inside the segment chain. */
  predicate InModel(sp: Span, S: nat) {
    sp.start < sp.end && sp.start < S
  }

  /** A choice of spans that respects the capacity of every segment. */
  ghost predicate Feasible(spans: seq<Span>, caps: seq<nat>, x: seq<int>) {
    && Marks(spans, x)
    && (forall k | 0 <= k < |x| && x[k] == 1 :: InModel(spans[k], |caps|))
    && (forall p | 0 <= p < |caps| :: Covered(spans, x, p) <= caps[p])
  }

  ghost predicate Optimal(spans: seq<Span>, caps: seq<nat>, x: seq<int>) {
    && Feasible(spans, caps, x)
    && forall y | Feasible(spans, caps, y) :: TotalWeight(spans, y) <= TotalWeight(spans, x)
  }

  // ---------------------------------------------------------------------
  // the compressed chain
  // ---------------------------------------------------------------------

  ghost predicate Increasing(s: seq<nat>) {
    forall i, j | 0 <= i < j < |s| :: s[i] < s[j]
  }

  /** Chain nodes: both ends, every span endpoint, and every capacity change. */
  ghost predicate Boundaries(bs: seq<nat>, spans: seq<Span>, caps: seq<nat>) {
    && |caps| > 0 && |bs| >= 2 && Increasing(bs) && bs[0] == 0 && bs[|bs| - 1] == |caps|
    && (forall k | 0 <= k < |spans| :: spans[k].start < spans[k].end && spans[k].start in bs && spans[k].end in bs)
    && (forall i, p | 0 <= i < |bs| - 1 && bs[i] <= p < bs[i + 1] :: caps[p] == caps[bs[i]])
  }

  ghost function IndexOf(bs: seq<nat>, b: nat): (i: nat)
    requires b in bs
    ensures i < |bs| && bs[i] == b
  {
    var i: nat :| i < |bs| && bs[i] == b;
    i
  }

  /** Capacity of the i-th compressed segment, 0 past the right end. */
  ghost function CapAt(bs: seq<nat>, caps: seq<nat>, i: int): nat
    requires Increasing(bs) && |bs| >= 2 && bs[|bs| - 1] == |caps|
  {
    if 0 <= i < |bs| - 1 then caps[bs[i]] else 0
  }

  ghost function SlackEdges(bs: seq<nat>, caps: seq<nat>, m: nat): (r: seq<Edge>)
    requires Increasing(bs) && |bs| >= 2 && bs[|bs| - 1] == |caps|
    ensures |r| == m && forall i | 0 <= i < m :: r[i] == Edge(i + 1, i, CapAt(bs, caps, i), 0)
  {
    seq(m, i requires 0 <= i < m => Edge(i + 1, i, CapAt(bs, caps, i), 0))
  }

  ghost function SpanEdges(bs: seq<nat>, spans: seq<Span>): (r: seq<Edge>)
    requires forall k | 0 <= k < |spans| :: spans[k].start in bs && spans[k].end in bs
    ensures |r| == |spans|
    ensures forall k | 0 <= k < |r| ::
              r[k] == Edge(IndexOf(bs, spans[k].end), IndexOf(bs, spans[k].start), 1, 0 - spans[k].weight)
  {
    seq(|spans|, k requires 0 <= k < |spans| =>
      Edge(IndexOf(bs, spans[k].end), IndexOf(bs, spans[k].start), 1, 0 - spans[k].weight))
  }

  /** A node absorbs flow where capacity grows to its right and supplies it where capacity shrinks. */
  ghost function Supply(bs: seq<nat>, caps: seq<nat>, i: int): int
    requires Increasing(bs) && |bs| >= 2 && bs[|bs| - 1] == |caps|
  {
    CapAt(bs, caps, i - 1) - CapAt(bs, caps, i)
  }

  /** Terminal edges of the first m chain nodes; the source is node |bs|, the sink |bs| + 1. */
  ghost function SupplyEdges(bs: seq<nat>, caps: seq<nat>, m: nat): (r: seq<Edge>)
    requires Increasing(bs) && |bs| >= 2 && bs[|bs| - 1] == |caps|
    ensures forall k | 0 <= k < |r| :: r[k].cap > 0 && r[k].cost == 0
              && ((r[k].tail == |bs| && r[k].head < m) || (r[k].head == |bs| + 1 && r[k].tail < m))
  {
    if m == 0 then []
    else SupplyEdges(bs, caps, m - 1) + SupplyEdge(bs, caps, m - 1)
  }

  ghost function SupplyEdge(bs: seq<nat>, caps: seq<nat>, i: nat): seq<Edge>
    requires Increasing(bs) && |bs| >= 2 && bs[|bs| - 1] == |caps|
  {
    var s := Supply(bs, caps, i);
    if s > 0 then [Edge(|bs|, i, s, 0)]
    else if s < 0 then [Edge(i, |bs| + 1, -s, 0)]
    else []
  }

  ghost function NetEdges(bs: seq<nat>, spans: seq<Span>, caps: seq<nat>): seq<Edge>
    requires Boundaries(bs, spans, caps)
  {
    SlackEdges(bs, caps, |bs| - 1) + SpanEdges(bs, spans) + SupplyEdges(bs, caps, |bs|)
  }

  ghost function Full(es: seq<Edge>): (r: seq<int>)
    ensures |r| == |es| && forall k | 0 <= k < |r| :: r[k] == es[k].cap
  {
    seq(|es|, k requires 0 <= k < |es| => es[k].cap)
  }

  /** A flow given in three parts: idle registers per segment, spans, and terminals. */
  ghost predicate Parts(bs: seq<nat>, spans: seq<Span>, caps: seq<nat>, f: seq<int>,
                        idle: seq<int>, x: seq<int>, terminals: seq<int>)
    requires Boundaries(bs, spans, caps)
  {
    && f == idle + x + terminals
    && |idle| == |bs| - 1 && |x| == |spans| && |terminals| == |SupplyEdges(bs, caps, |bs|)|
  }

  // ---------------------------------------------------------------------
  // balance at a chain node
  // ---------------------------------------------------------------------

  ghost function At(s: seq<int>, i: int): int {
    if 0 <= i < |s| then s[i] else 0
  }

  lemma SlackBalance(bs: seq<nat>, caps: seq<nat>, m: nat, idle: seq<int>, v: nat)
    requires Increasing(bs) && |bs| >= 2 && bs[|bs| - 1] == |caps| && |idle| == m
    ensures NetOut(SlackEdges(bs, caps, m), idle, v) == At(idle, v - 1) - At(idle, v)
  {
    var t := OutTerms(SlackEdges(bs, caps, m), idle, v);
    if 1 <= v < m {
      SumPair(t, v - 1, v);
    } else if v == 0 && m > 0 {
      SumSingle(t, 0);
    } else if v == m > 0 {
      SumSingle(t, v - 1);
    } else {
      SumZero(t);
    }
  }

  /** A span's edge leaves the node of its end and enters the node of its start: at v it accounts for
      the span covering the segment before v but not the one after. */
  lemma OneSpanBalance(bs: seq<nat>, sp: Span, x: int, v: nat)
    requires Increasing(bs) && sp.start in bs && sp.end in bs && sp.start < sp.end && v < |bs|
    ensures var e := Edge(IndexOf(bs, sp.end), IndexOf(bs, sp.start), 1, 0 - sp.weight);
            OutTerm(e, x, v) == (if v > 0 && sp.start <= bs[v - 1] < sp.end then x else 0) - (if sp.start <= bs[v] < sp.end then x else 0)
  {
    var s, e := IndexOf(bs, sp.start), IndexOf(bs, sp.end);
    OrderKept(bs, s, v);
    OrderKept(bs, e, v);
    OrderKept(bs, s, e);
    if v > 0 {
      OrderKept(bs, s, v - 1);
      OrderKept(bs, e, v - 1);
    }
  }

  lemma OrderKept(bs: seq<nat>, i: nat, j: nat)
    requires Increasing(bs) && i < |bs| && j < |bs|
    ensures i < j <==> bs[i] < bs[j]
    ensures j < i <==> bs[j] < bs[i]
  {
  }

  lemma SpanBalance(bs: seq<nat>, spans: seq<Span>, caps: seq<nat>, x: seq<int>, v: nat)
    requires Boundaries(bs, spans, caps) && |x| == |spans| && v < |bs|
    ensures NetOut(SpanEdges(bs, spans), x, v) ==
            (if v > 0 then Covered(spans, x, bs[v - 1]) else 0) - Covered(spans, x, bs[v])
  {
    var before := if v > 0 then CoverTerms(spans, x, bs[v - 1]) else seq(|x|, _ => 0);
    if v == 0 {
      SumZero(before);
    }
    var t := OutTerms(SpanEdges(bs, spans), x, v);
    forall k | 0 <= k < |spans|
      ensures before[k] == t[k] + CoverTerms(spans, x, bs[v])[k]
    {
      OneSpanBalance(bs, spans[k], x[k], v);
    }
    SumAdd(t, CoverTerms(spans, x, bs[v]), before);
  }

  lemma OneSupplyBalance(bs: seq<nat>, caps: seq<nat>, i: nat, v: nat)
    requires Increasing(bs) && |bs| >= 2 && bs[|bs| - 1] == |caps| && v < |bs| && i < |bs|
    ensures NetOut(SupplyEdge(bs, caps, i), Full(SupplyEdge(bs, caps, i)), v) == if v == i then -Supply(bs, caps, v) else 0
  {
    var e := SupplyEdge(bs, caps, i);
    if e == [] {
      SumZero(OutTerms(e, Full(e), v));
    } else {
      SumSingle(OutTerms(e, Full(e), v), 0);
    }
  }

  lemma {:induction false} SupplyBalance(bs: seq<nat>, caps: seq<nat>, m: nat, v: nat)
    requires Increasing(bs) && |bs| >= 2 && bs[|bs| - 1] == |caps| && v < |bs| && m <= |bs|
    ensures NetOut(SupplyEdges(bs, caps, m), Full(SupplyEdges(bs, caps, m)), v) ==
            if v < m then -Supply(bs, caps, v) else 0
  {
    hide NetOut, Supply, SupplyEdge;
    var es := SupplyEdges(bs, caps, m);
    if m == 0 {
      EmptyBalance(es, Full(es), v);
    } else {
      SupplyBalance(bs, caps, m - 1, v);
      OneSupplyBalance(bs, caps, m - 1, v);
      var rest, last := SupplyEdges(bs, caps, m - 1), SupplyEdge(bs, caps, m - 1);
      assert Full(es) == Full(rest) + Full(last);
      NetOutConcat(rest, Full(rest), last, Full(last), v);
    }
  }

  lemma EmptyBalance(es: seq<Edge>, f: seq<int>, v: nat)
    requires es == [] && f == []
    ensures NetOut(es, f, v) == 0
  {
  }

  lemma NetOutParts(bs: seq<nat>, spans: seq<Span>, caps: seq<nat>, f: seq<int>,
                    idle: seq<int>, x: seq<int>, terminals: seq<int>, v: nat)
    requires Boundaries(bs, spans, caps) && Parts(bs, spans, caps, f, idle, x, terminals)
    ensures |f| == |NetEdges(bs, spans, caps)|
    ensures NetOut(NetEdges(bs, spans, caps), f, v) ==
            NetOut(SlackEdges(bs, caps, |bs| - 1), idle, v) + NetOut(SpanEdges(bs, spans), x, v)
            + NetOut(SupplyEdges(bs, caps, |bs|), terminals, v)
  {
    var a, b, c := SlackEdges(bs, caps, |bs| - 1), SpanEdges(bs, spans), SupplyEdges(bs, caps, |bs|);
    NetOutConcat(a + b, idle + x, c, terminals, v);
    NetOutConcat(a, idle, b, x, v);
  }

  /** With saturated terminals, node v balances exactly when slack plus coverage
      exceeds its capacity by the same amount on both sides. */
  lemma ChainBalance(bs: seq<nat>, spans: seq<Span>, caps: seq<nat>, f: seq<int>,
                     idle: seq<int>, x: seq<int>, terminals: seq<int>, v: nat)
    requires Boundaries(bs, spans, caps) && Parts(bs, spans, caps, f, idle, x, terminals)
    requires terminals == Full(SupplyEdges(bs, caps, |bs|)) && v < |bs|
    ensures |f| == |NetEdges(bs, spans, caps)|
    ensures NetOut(NetEdges(bs, spans, caps), f, v) ==
            (At(idle, v - 1) + (if v > 0 then Covered(spans, x, bs[v - 1]) else 0) - CapAt(bs, caps, v - 1))
            - (At(idle, v) + Covered(spans, x, bs[v]) - CapAt(bs, caps, v))
  {
    NetOutParts(bs, spans, caps, f, idle, x, terminals, v);
    SlackBalance(bs, caps, |bs| - 1, idle, v);
    SpanBalance(bs, spans, caps, x, v);
    SupplyBalance(bs, caps, |bs|, v);
  }

  // ---------------------------------------------------------------------
  // selections and flows
  // ---------------------------------------------------------------------

  lemma NetworkInRange(bs: seq<nat>, spans: seq<Span>, caps: seq<nat>)
    requires Boundaries(bs, spans, caps)
    ensures Network(NetEdges(bs, spans, caps), |bs| + 2)
  {
  }

  /** Idle registers left by a choice of spans. */
  ghost function Idle(bs: seq<nat>, spans: seq<Span>, caps: seq<nat>, x: seq<int>): (r: seq<int>)
    requires Boundaries(bs, spans, caps) && |x| == |spans|
    ensures |r| == |bs| - 1
    ensures forall i | 0 <= i < |r| :: r[i] == CapAt(bs, caps, i) - Covered(spans, x, bs[i])
  {
    seq(|bs| - 1, i requires 0 <= i < |bs| - 1 => CapAt(bs, caps, i) - Covered(spans, x, bs[i]))
  }

  ghost function SelectionFlow(bs: seq<nat>, spans: seq<Span>, caps: seq<nat>, x: seq<int>): seq<int>
    requires Boundaries(bs, spans, caps) && |x| == |spans|
  {
    Idle(bs, spans, caps, x) + x + Full(SupplyEdges(bs, caps, |bs|))
  }

  /** No span covers the right end of the chain. */
  lemma NothingPastTheEnd(bs: seq<nat>, spans: seq<Span>, caps: seq<nat>, x: seq<int>)
    requires Boundaries(bs, spans, caps) && |x| == |spans|
    ensures Covered(spans, x, bs[|bs| - 1]) == 0
  {
    forall k | 0 <= k < |spans| ensures spans[k].end <= bs[|bs| - 1] {
      var e := IndexOf(bs, spans[k].end);
      assert e < |bs| - 1 ==> bs[e] < bs[|bs| - 1];
    }
    SumZero(CoverTerms(spans, x, bs[|bs| - 1]));
  }

  lemma CoverageNonNegative(spans: seq<Span>, x: seq<int>, p: int)
    requires |x| == |spans| && forall k | 0 <= k < |x| :: x[k] >= 0
    ensures Covered(spans, x, p) >= 0
  {
    SumNonNegative(CoverTerms(spans, x, p));
  }

  lemma IdleWithinCaps(bs: seq<nat>, spans: seq<Span>, caps: seq<nat>, x: seq<int>, i: nat)
    requires Boundaries(bs, spans, caps) && Feasible(spans, caps, x) && i < |bs| - 1
    ensures 0 <= Idle(bs, spans, caps, x)[i] <= CapAt(bs, caps, i)
  {
    CoverageNonNegative(spans, x, bs[i]);
    assert bs[i] < bs[|bs| - 1];
  }

  lemma SelectionWithinCaps(bs: seq<nat>, spans: seq<Span>, caps: seq<nat>, x: seq<int>)
    requires Boundaries(bs, spans, caps) && Feasible(spans, caps, x)
    ensures WithinCaps(NetEdges(bs, spans, caps), SelectionFlow(bs, spans, caps, x))
  {
    hide Boundaries, Sum;
    forall i: nat | i < |bs| - 1 {
      IdleWithinCaps(bs, spans, caps, x, i);
    }
  }

  lemma SelectionConserved(bs: seq<nat>, spans: seq<Span>, caps: seq<nat>, x: seq<int>, v: nat)
    requires Boundaries(bs, spans, caps) && |x| == |spans| && v < |bs|
    ensures |SelectionFlow(bs, spans, caps, x)| == |NetEdges(bs, spans, caps)|
    ensures NetOut(NetEdges(bs, spans, caps), SelectionFlow(bs, spans, caps, x), v) == 0
  {
    var idle, full := Idle(bs, spans, caps, x), Full(SupplyEdges(bs, caps, |bs|));
    ChainBalance(bs, spans, caps, SelectionFlow(bs, spans, caps, x), idle, x, full, v);
    if v == |bs| - 1 {
      NothingPastTheEnd(bs, spans, caps, x);
    }
  }

  /** Every feasible selection is a flow that saturates the terminals. */
  lemma SelectionIsFlow(bs: seq<nat>, spans: seq<Span>, caps: seq<nat>, x: seq<int>)
    requires Boundaries(bs, spans, caps) && Feasible(spans, caps, x)
    ensures IsFlow(NetEdges(bs, spans, caps), SelectionFlow(bs, spans, caps, x), |bs| + 2, |bs|, |bs| + 1)
  {
    hide Boundaries, Feasible, SelectionFlow, NetEdges, NetOut;
    SelectionWithinCaps(bs, spans, caps, x);
    assert |x| == |spans| by { MarksLength(spans, caps, x); }
    forall v: nat | v < |bs| {
      SelectionConserved(bs, spans, caps, x, v);
    }
  }

  lemma MarksLength(spans: seq<Span>, caps: seq<nat>, x: seq<int>)
    requires Feasible(spans, caps, x)
    ensures |x| == |spans|
  {
  }

  /** Conversely, where the terminals are saturated, slack plus coverage is the capacity. */
  lemma {:induction false} SlackPlusCoverage(bs: seq<nat>, spans: seq<Span>, caps: seq<nat>, f: seq<int>,
                           idle: seq<int>, x: seq<int>, i: nat)
    requires Boundaries(bs, spans, caps)
    requires Parts(bs, spans, caps, f, idle, x, Full(SupplyEdges(bs, caps, |bs|)))
    requires IsFlow(NetEdges(bs, spans, caps), f, |bs| + 2, |bs|, |bs| + 1)
    requires i < |bs| - 1
    ensures idle[i] + Covered(spans, x, bs[i]) == CapAt(bs, caps, i)
  {
    if i > 0 {
      SlackPlusCoverage(bs, spans, caps, f, idle, x, i - 1);
    }
    ChainBalance(bs, spans, caps, f, idle, x, Full(SupplyEdges(bs, caps, |bs|)), i);
  }

  // ---------------------------------------------------------------------
  // from the optimal flow back to the optimal selection
  // ---------------------------------------------------------------------

  lemma UntouchedNode(es: seq<Edge>, f: seq<int>, v: nat)
    requires |es| == |f| && forall k | 0 <= k < |es| :: es[k].tail != v && es[k].head != v
    ensures NetOut(es, f, v) == 0
  {
    SumZero(OutTerms(es, f, v));
  }

  /** Only terminal edges touch the source and the sink. */
  lemma TerminalBalance(bs: seq<nat>, spans: seq<Span>, caps: seq<nat>, f: seq<int>,
                        idle: seq<int>, x: seq<int>, terminals: seq<int>, v: nat)
    requires Boundaries(bs, spans, caps) && Parts(bs, spans, caps, f, idle, x, terminals)
    requires v == |bs| || v == |bs| + 1
    ensures |f| == |NetEdges(bs, spans, caps)|
    ensures NetOut(NetEdges(bs, spans, caps), f, v) == NetOut(SupplyEdges(bs, caps, |bs|), terminals, v)
  {
    hide NetOut;
    NetOutParts(bs, spans, caps, f, idle, x, terminals, v);
    UntouchedNode(SlackEdges(bs, caps, |bs| - 1), idle, v);
    UntouchedNode(SpanEdges(bs, spans), x, v);
  }

  /** Terminal flow that is within capacity but sends and receives as much as full terminals is full. */
  lemma SameTotalIsFull(es: seq<Edge>, t: seq<int>, s: nat, d: nat)
    requires |t| == |es| && s != d
    requires forall k | 0 <= k < |es| :: 0 <= t[k] <= es[k].cap
    requires forall k | 0 <= k < |es| :: (es[k].tail == s && es[k].head != s) || (es[k].head == d && es[k].tail != d)
    requires NetOut(es, t, s) >= NetOut(es, Full(es), s) && NetOut(es, t, d) <= NetOut(es, Full(es), d)
    requires forall k | 0 <= k < |es| :: es[k].head != s && es[k].tail != d
    ensures t == Full(es)
  {
    SumAtMost(OutTerms(es, t, s), OutTerms(es, Full(es), s));
    SumAtMost(OutTerms(es, Full(es), d), OutTerms(es, t, d));
    forall k | 0 <= k < |es| ensures t[k] == Full(es)[k] {
      assert OutTerms(es, t, s)[k] == OutTerms(es, Full(es), s)[k];
      assert OutTerms(es, t, d)[k] == OutTerms(es, Full(es), d)[k];
    }
  }

  ghost function NoSpans(spans: seq<Span>): (x: seq<int>)
    ensures |x| == |spans| && forall k | 0 <= k < |x| :: x[k] == 0
  {
    seq(|spans|, _ => 0)
  }

  lemma NothingIsFeasible(spans: seq<Span>, caps: seq<nat>)
    ensures Feasible(spans, caps, NoSpans(spans))
  {
    forall p | 0 <= p < |caps| ensures Covered(spans, NoSpans(spans), p) == 0 {
      SumZero(CoverTerms(spans, NoSpans(spans), p));
    }
  }

  lemma TerminalsWithinCaps(bs: seq<nat>, spans: seq<Span>, caps: seq<nat>, f: seq<int>,
                            idle: seq<int>, x: seq<int>, terminals: seq<int>)
    requires Boundaries(bs, spans, caps) && Parts(bs, spans, caps, f, idle, x, terminals)
    requires WithinCaps(NetEdges(bs, spans, caps), f)
    ensures forall k | 0 <= k < |terminals| :: 0 <= terminals[k] <= SupplyEdges(bs, caps, |bs|)[k].cap
  {
    var es, m := NetEdges(bs, spans, caps), |idle| + |x|;
    assert forall k | 0 <= k < |terminals| ::
        terminals[k] == f[m + k] && SupplyEdges(bs, caps, |bs|)[k] == es[m + k];
  }

  /** A flow that ships as much as the empty selection does saturates every supply and every demand. */
  lemma BigFlowSaturates(bs: seq<nat>, spans: seq<Span>, caps: seq<nat>, f: seq<int>,
                         idle: seq<int>, x: seq<int>, terminals: seq<int>)
    requires Boundaries(bs, spans, caps) && Parts(bs, spans, caps, f, idle, x, terminals)
    requires IsFlow(NetEdges(bs, spans, caps), f, |bs| + 2, |bs|, |bs| + 1)
    requires NetOut(SupplyEdges(bs, caps, |bs|), terminals, |bs|) >=
             NetOut(SupplyEdges(bs, caps, |bs|), Full(SupplyEdges(bs, caps, |bs|)), |bs|)
    requires NetOut(SupplyEdges(bs, caps, |bs|), terminals, |bs| + 1) <=
             NetOut(SupplyEdges(bs, caps, |bs|), Full(SupplyEdges(bs, caps, |bs|)), |bs| + 1)
    ensures terminals == Full(SupplyEdges(bs, caps, |bs|))
  {
    hide NetOut, NetEdges, Full;
    TerminalsWithinCaps(bs, spans, caps, f, idle, x, terminals);
    SameTotalIsFull(SupplyEdges(bs, caps, |bs|), terminals, |bs|, |bs| + 1);
  }

  /** A maximum flow saturates every supply and every demand. */
  lemma MaxFlowSaturates(bs: seq<nat>, spans: seq<Span>, caps: seq<nat>, f: seq<int>,
                         idle: seq<int>, x: seq<int>, terminals: seq<int>)
    requires Boundaries(bs, spans, caps) && Parts(bs, spans, caps, f, idle, x, terminals)
    requires MinCostMaxFlow(NetEdges(bs, spans, caps), f, |bs| + 2, |bs|, |bs| + 1)
    ensures terminals == Full(SupplyEdges(bs, caps, |bs|))
  {
    hide NetOut, NetEdges, Full, Feasible, SupplyEdges, NoSpans, Idle, Increasing;
    var es, s, d := NetEdges(bs, spans, caps), |bs|, |bs| + 1;
    var none := NoSpans(spans);
    var g, full := SelectionFlow(bs, spans, caps, none), Full(SupplyEdges(bs, caps, |bs|));
    NothingIsFeasible(spans, caps);
    SelectionIsFlow(bs, spans, caps, none);
    NetworkInRange(bs, spans, caps);
    SourceEqualsSink(es, f, |bs| + 2, s, d);
    SourceEqualsSink(es, g, |bs| + 2, s, d);
    TerminalBalance(bs, spans, caps, f, idle, x, terminals, s);
    TerminalBalance(bs, spans, caps, f, idle, x, terminals, d);
    TerminalBalance(bs, spans, caps, g, Idle(bs, spans, caps, none), none, full, s);
    TerminalBalance(bs, spans, caps, g, Idle(bs, spans, caps, none), none, full, d);
    BigFlowSaturates(bs, spans, caps, f, idle, x, terminals);
  }

  lemma SpanCost(bs: seq<nat>, spans: seq<Span>, x: seq<int>)
    requires forall k | 0 <= k < |spans| :: spans[k].start in bs && spans[k].end in bs
    requires |x| == |spans|
    ensures Cost(SpanEdges(bs, spans), x) == -TotalWeight(spans, x)
  {
    var zero := seq(|x|, _ => 0);
    SumZero(zero);
    SumAdd(CostTerms(SpanEdges(bs, spans), x), WeightTerms(spans, x), zero);
  }

  lemma CostIsLostWeight(bs: seq<nat>, spans: seq<Span>, caps: seq<nat>, f: seq<int>,
                         idle: seq<int>, x: seq<int>, terminals: seq<int>)
    requires Boundaries(bs, spans, caps) && Parts(bs, spans, caps, f, idle, x, terminals)
    ensures |f| == |NetEdges(bs, spans, caps)|
    ensures Cost(NetEdges(bs, spans, caps), f) == -TotalWeight(spans, x)
  {
    hide Cost, TotalWeight;
    var a, b, c := SlackEdges(bs, caps, |bs| - 1), SpanEdges(bs, spans), SupplyEdges(bs, caps, |bs|);
    CostConcat(a + b, idle + x, c, terminals);
    CostConcat(a, idle, b, x);
    FreeCost(a, idle);
    FreeCost(c, terminals);
    SpanCost(bs, spans, x);
  }

  /** Coverage only changes at boundaries. */
  lemma CoverageConstant(bs: seq<nat>, spans: seq<Span>, caps: seq<nat>, x: seq<int>, i: nat, p: nat)
    requires Boundaries(bs, spans, caps) && |x| == |spans| && i < |bs| - 1 && bs[i] <= p < bs[i + 1]
    ensures Covered(spans, x, p) == Covered(spans, x, bs[i])
  {
    forall k | 0 <= k < |spans|
      ensures CoverTerms(spans, x, p)[k] == CoverTerms(spans, x, bs[i])[k]
    {
      var s, e := IndexOf(bs, spans[k].start), IndexOf(bs, spans[k].end);
      assert s < i ==> bs[s] < bs[i];
      assert s > i + 1 ==> bs[i + 1] < bs[s];
      assert e < i ==> bs[e] < bs[i];
      assert e > i + 1 ==> bs[i + 1] < bs[e];
    }
    assert CoverTerms(spans, x, p) == CoverTerms(spans, x, bs[i]);
  }

  lemma {:induction false} Locate(bs: seq<nat>, p: nat, m: nat) returns (i: nat)
    requires Increasing(bs) && 0 < m < |bs| && bs[0] <= p < bs[m]
    ensures i < m && bs[i] <= p < bs[i + 1]
  {
    if bs[m - 1] <= p {
      i := m - 1;
    } else {
      i := Locate(bs, p, m - 1);
    }
  }

  /** Compression loses nothing: on every segment, idle registers plus selected spans make the capacity. */
  lemma EverySegmentIsFull(bs: seq<nat>, spans: seq<Span>, caps: seq<nat>, f: seq<int>,
                           idle: seq<int>, x: seq<int>, p: nat) returns (i: nat)
    requires Boundaries(bs, spans, caps) && p < |caps|
    requires Parts(bs, spans, caps, f, idle, x, Full(SupplyEdges(bs, caps, |bs|)))
    requires IsFlow(NetEdges(bs, spans, caps), f, |bs| + 2, |bs|, |bs| + 1)
    ensures i < |idle| && bs[i] <= p < bs[i + 1]
    ensures idle[i] >= 0 && idle[i] + Covered(spans, x, p) == caps[p]
  {
    i := Locate(bs, p, |bs| - 1);
    SlackPlusCoverage(bs, spans, caps, f, idle, x, i);
    CoverageConstant(bs, spans, caps, x, i, p);
    assert f[i] == idle[i];
  }

  lemma FlowIsSelection(bs: seq<nat>, spans: seq<Span>, caps: seq<nat>, f: seq<int>,
                        idle: seq<int>, x: seq<int>)
    requires Boundaries(bs, spans, caps)
    requires Parts(bs, spans, caps, f, idle, x, Full(SupplyEdges(bs, caps, |bs|)))
    requires IsFlow(NetEdges(bs, spans, caps), f, |bs| + 2, |bs|, |bs| + 1)
    ensures Feasible(spans, caps, x)
  {
    var es := NetEdges(bs, spans, caps);
    forall k | 0 <= k < |x|
      ensures x[k] == 0 || x[k] == 1
      ensures InModel(spans[k], |caps|)
    {
      assert f[|idle| + k] == x[k] && es[|idle| + k] == SpanEdges(bs, spans)[k];
      var s, e := IndexOf(bs, spans[k].start), IndexOf(bs, spans[k].end);
      assert e < |bs| - 1 ==> bs[e] < bs[|bs| - 1];
    }
    forall p: nat | p < |caps| ensures Covered(spans, x, p) <= caps[p] {
      var i := EverySegmentIsFull(bs, spans, caps, f, idle, x, p);
    }
  }

  /** The min-cost max-flow of the compressed network is a maximum-weight feasible selection. */
  lemma OptimalFlowIsOptimalSelection(bs: seq<nat>, spans: seq<Span>, caps: seq<nat>, f: seq<int>,
                                      idle: seq<int>, x: seq<int>, terminals: seq<int>)
    requires Boundaries(bs, spans, caps) && Parts(bs, spans, caps, f, idle, x, terminals)
    requires MinCostMaxFlow(NetEdges(bs, spans, caps), f, |bs| + 2, |bs|, |bs| + 1)
    ensures Optimal(spans, caps, x)
  {
    var es, s, d, full := NetEdges(bs, spans, caps), |bs|, |bs| + 1, Full(SupplyEdges(bs, caps, |bs|));
    MaxFlowSaturates(bs, spans, caps, f, idle, x, terminals);
    FlowIsSelection(bs, spans, caps, f, idle, x);
    CostIsLostWeight(bs, spans, caps, f, idle, x, full);
    TerminalBalance(bs, spans, caps, f, idle, x, full, s);
    forall y | Feasible(spans, caps, y)
      ensures TotalWeight(spans, y) <= TotalWeight(spans, x)
    {
      var g := SelectionFlow(bs, spans, caps, y);
      SelectionIsFlow(bs, spans, caps, y);
      CostIsLostWeight(bs, spans, caps, g, Idle(bs, spans, caps, y), y, full);
      TerminalBalance(bs, spans, caps, g, Idle(bs, spans, caps, y), y, full, s);
    }
  }
}
