/** Exact selection of the live ranges that keep registers: builds the compressed network,
    ships the maximum flow at minimum cost, and reads the selection off the span arcs. */
module FlowSelect {
  import opened Sums
  import opened Flows
  import opened FlowNets
  import opened Selection

  // ---------------------------------------------------------------------
  // sorting
  // ---------------------------------------------------------------------

  /** Inserts b into a strictly increasing list unless it is there already. */
  function InsertUnique(s: seq<nat>, b: nat): (r: seq<nat>)
    requires Increasing(s)
    ensures Increasing(r) && |r| > 0
    ensures forall y :: y in r <==> y in s || y == b
  {
    if s == [] then [b]
    else if b < s[0] then
      assert forall y :: y in [b] + s <==> y in s || y == b;
      [b] + s
    else if b == s[0] then s
    else
      var rest := InsertUnique(s[1..], b);
      assert forall y :: y in s <==> y == s[0] || y in s[1..];
      assert forall i | 0 <= i < |rest| :: rest[i] in rest;
      [s[0]] + rest
  }

  /** Sorted, duplicates removed. */
  function SortUnique(s: seq<nat>): (r: seq<nat>)
    ensures Increasing(r)
    ensures forall y :: y in r <==> y in s
  {
    if s == [] then []
    else
      assert forall y :: y in s <==> y == s[0] || y in s[1..];
      InsertUnique(SortUnique(s[1..]), s[0])
  }

  predicate Sorted(s: seq<int>) {
    forall i, j | 0 <= i < j < |s| :: s[i] <= s[j]
  }

  function Insert(s: seq<int>, v: int): (r: seq<int>)
    requires Sorted(s)
    ensures Sorted(r) && multiset(r) == multiset(s) + multiset{v}
  {
    if s == [] then [v]
    else if v <= s[0] then [v] + s
    else
      var rest := Insert(s[1..], v);
      InsertedBehind(s, v, rest);
      [s[0]] + rest
  }

  lemma InsertedBehind(s: seq<int>, v: int, rest: seq<int>)
    requires s != [] && Sorted(s) && s[0] < v && Sorted(rest) && multiset(rest) == multiset(s[1..]) + multiset{v}
    ensures Sorted([s[0]] + rest) && multiset([s[0]] + rest) == multiset(s) + multiset{v}
  {
    assert s == [s[0]] + s[1..];
    forall i | 0 <= i < |rest| ensures s[0] <= rest[i] {
      assert rest[i] in multiset(rest);
    }
  }

  function Sort(s: seq<int>): (r: seq<int>)
    ensures Sorted(r) && multiset(r) == multiset(s)
  {
    if s == [] then []
    else
      assert s == [s[0]] + s[1..];
      Insert(Sort(s[1..]), s[0])
  }

  // ---------------------------------------------------------------------
  // spans that take part
  // ---------------------------------------------------------------------

  function Min(a: nat, b: nat): nat {
    if a < b then a else b
  }

  /** The spans inside the chain, ends clipped to it, in their original order. */
  function Clip(spans: seq<Span>, S: nat): (r: seq<Span>)
    ensures forall k | 0 <= k < |r| :: InModel(r[k], S) && r[k].end <= S
  {
    if spans == [] then []
    else
      var sp := spans[|spans| - 1];
      Clip(spans[..|spans| - 1], S) + if InModel(sp, S) then [sp.(end := Min(sp.end, S))] else []
  }

  /** A choice of spans, seen on the clipped list. */
  ghost function Project(spans: seq<Span>, S: nat, x: seq<int>): (r: seq<int>)
    requires |x| == |spans|
    ensures |r| == |Clip(spans, S)|
  {
    if spans == [] then []
    else
      var m := |spans| - 1;
      Project(spans[..m], S, x[..m]) + if InModel(spans[m], S) then [x[m]] else []
  }

  /** A choice on the clipped list, spread back over the original one. */
  ghost function Spread(spans: seq<Span>, S: nat, y: seq<int>): (r: seq<int>)
    requires |y| == |Clip(spans, S)|
    ensures |r| == |spans|
  {
    if spans == [] then []
    else
      var m := |spans| - 1;
      if InModel(spans[m], S) then Spread(spans[..m], S, y[..|y| - 1]) + [y[|y| - 1]]
      else Spread(spans[..m], S, y) + [0]
  }

  /** Chosen spans are in the model, so clipping changes neither coverage nor weight. */
  lemma {:induction false} ClipKeeps(spans: seq<Span>, S: nat, x: seq<int>, p: nat)
    requires Marks(spans, x) && p < S
    requires forall k | 0 <= k < |x| && x[k] == 1 :: InModel(spans[k], S)
    ensures Marks(Clip(spans, S), Project(spans, S, x))
    ensures Covered(Clip(spans, S), Project(spans, S, x), p) == Covered(spans, x, p)
    ensures TotalWeight(Clip(spans, S), Project(spans, S, x)) == TotalWeight(spans, x)
  {
    hide Covered, TotalWeight;
    if spans == [] {
      assert Clip(spans, S) == [] && Project(spans, S, x) == x == [];
      assert Covered(Clip(spans, S), Project(spans, S, x), p) == Covered(spans, x, p);
    } else {
      var m := |spans| - 1;
      var sp, rest, y := spans[m], Clip(spans[..m], S), Project(spans[..m], S, x[..m]);
      ClipKeeps(spans[..m], S, x[..m], p);
      assert spans == spans[..m] + [sp] && x == x[..m] + [x[m]];
      AppendOne(spans[..m], x[..m], sp, x[m], p);
      if InModel(sp, S) {
        AppendOne(rest, y, sp.(end := Min(sp.end, S)), x[m], p);
      } else {
        assert x[m] == 0;
        assert Clip(spans, S) == rest && Project(spans, S, x) == y;
      }
    }
  }

  lemma AppendOne(spans: seq<Span>, x: seq<int>, sp: Span, v: int, p: int)
    requires |x| == |spans|
    ensures Covered(spans + [sp], x + [v], p) == Covered(spans, x, p) + if sp.start <= p < sp.end then v else 0
    ensures TotalWeight(spans + [sp], x + [v]) == TotalWeight(spans, x) + sp.weight * v
  {
    assert CoverTerms(spans + [sp], x + [v], p)[..|x|] == CoverTerms(spans, x, p);
    assert WeightTerms(spans + [sp], x + [v])[..|x|] == WeightTerms(spans, x);
  }

  lemma {:induction false} SpreadProject(spans: seq<Span>, S: nat, y: seq<int>)
    requires Marks(Clip(spans, S), y)
    ensures Marks(spans, Spread(spans, S, y)) && ChosenInModel(spans, S, Spread(spans, S, y))
    ensures Project(spans, S, Spread(spans, S, y)) == y
  {
    if spans != [] {
      var m := |spans| - 1;
      var rest, last := SpreadStep(spans, S, y);
      hide Spread, Project, Clip;
      SpreadProject(spans[..m], S, rest);
      MarksAppend(spans, S, Spread(spans[..m], S, rest), last);
    }
  }

  /** The last span takes the last mark if it is in the model, and none otherwise. */
  lemma SpreadStep(spans: seq<Span>, S: nat, y: seq<int>) returns (rest: seq<int>, last: int)
    requires spans != [] && Marks(Clip(spans, S), y)
    ensures var m := |spans| - 1;
            && Marks(Clip(spans[..m], S), rest)
            && var x0 := Spread(spans[..m], S, rest);
            && Spread(spans, S, y) == x0 + [last]
            && (last == 0 || (last == 1 && InModel(spans[m], S)))
            && (Project(spans[..m], S, x0) == rest ==> Project(spans, S, x0 + [last]) == y)
  {
    var m := |spans| - 1;
    if InModel(spans[m], S) {
      rest, last := y[..|y| - 1], y[|y| - 1];
      assert y == rest + [last];
    } else {
      rest, last := y, 0;
    }
    var x0 := Spread(spans[..m], S, rest);
    assert (x0 + [last])[..m] == x0;
  }

  ghost predicate ChosenInModel(spans: seq<Span>, S: nat, x: seq<int>) {
    |x| == |spans| && forall k | 0 <= k < |spans| && x[k] == 1 :: InModel(spans[k], S)
  }

  lemma MarksAppend(spans: seq<Span>, S: nat, x0: seq<int>, last: int)
    requires spans != [] && var m := |spans| - 1; Marks(spans[..m], x0) && ChosenInModel(spans[..m], S, x0)
    requires last == 0 || (last == 1 && InModel(spans[|spans| - 1], S))
    ensures Marks(spans, x0 + [last]) && ChosenInModel(spans, S, x0 + [last])
  {
    forall k | 0 <= k < |spans| && (x0 + [last])[k] == 1 ensures InModel(spans[k], S) {
      if k < |spans| - 1 {
        assert spans[..|spans| - 1][k] == spans[k];
      }
    }
  }

  /** An optimal choice on the clipped spans is an optimal choice on the original ones. */
  lemma OptimalSpreads(spans: seq<Span>, caps: seq<nat>, y: seq<int>)
    requires |caps| > 0 && Optimal(Clip(spans, |caps|), caps, y)
    ensures Optimal(spans, caps, Spread(spans, |caps|, y))
  {
    var S, ks := |caps|, Clip(spans, |caps|);
    var x := Spread(spans, S, y);
    SpreadProject(spans, S, y);
    forall p: nat | p < S ensures Covered(spans, x, p) == Covered(ks, y, p) {
      ClipKeeps(spans, S, x, p);
    }
    ClipKeeps(spans, S, x, 0);
    forall z | Feasible(spans, caps, z)
      ensures TotalWeight(spans, z) <= TotalWeight(spans, x)
    {
      forall p: nat | p < S
        ensures Covered(ks, Project(spans, S, z), p) == Covered(spans, z, p)
      {
        ClipKeeps(spans, S, z, p);
      }
      ClipKeeps(spans, S, z, 0);
      assert Feasible(ks, caps, Project(spans, S, z));
    }
  }

  // ---------------------------------------------------------------------
  // building the network
  // ---------------------------------------------------------------------

  /** Chain nodes: both ends, the endpoints of the spans in the model, the capacity changes. */
  method CollectBounds(spans: seq<Span>, caps: seq<nat>) returns (bounds: seq<nat>)
    requires |caps| > 0
    ensures Boundaries(bounds, Clip(spans, |caps|), caps)
  {
    var S := |caps|;
    var bs: seq<nat> := [0, S];
    for k := 0 to |spans|
      invariant 0 in bs && S in bs
      invariant forall b | b in bs :: 0 <= b <= S
      invariant forall j | 0 <= j < |Clip(spans[..k], S)| ::
                  Clip(spans[..k], S)[j].start in bs && Clip(spans[..k], S)[j].end in bs
    {
      var sp := spans[k];
      assert spans[..k + 1][..k] == spans[..k];
      ghost var old_bs := bs;
      if InModel(sp, S) {
        bs := bs + [sp.start, Min(sp.end, S)];
        assert bs[|old_bs|] == sp.start && bs[|old_bs| + 1] == Min(sp.end, S);
      }
      assert forall b | b in old_bs :: b in bs;
    }
    assert spans[..|spans|] == spans;
    ghost var withSpans := bs;
    for p := 0 to S
      invariant forall b | b in withSpans :: b in bs
      invariant forall b | b in bs :: 0 <= b <= S
      invariant forall q | 0 < q < p && caps[q] != caps[q - 1] :: q in bs
    {
      ghost var old_bs := bs;
      if caps[p] != (if p > 0 then caps[p - 1] else 0) {
        bs := bs + [p];
        assert bs[|old_bs|] == p;
      }
      assert forall b | b in old_bs :: b in bs;
    }
    bounds := SortUnique(bs);
    BoundsAreBoundaries(bounds, Clip(spans, S), caps);
  }

  lemma BoundsAreBoundaries(bounds: seq<nat>, ks: seq<Span>, caps: seq<nat>)
    requires |caps| > 0 && Increasing(bounds)
    requires 0 in bounds && |caps| in bounds && forall b | b in bounds :: b <= |caps|
    requires forall k | 0 <= k < |ks| :: ks[k].start < ks[k].end && ks[k].start in bounds && ks[k].end in bounds
    requires forall q | 0 < q < |caps| && caps[q] != caps[q - 1] :: q in bounds
    ensures Boundaries(bounds, ks, caps)
  {
    var z, e := IndexOf(bounds, 0), IndexOf(bounds, |caps|);
    assert bounds[|bounds| - 1] in bounds;
    forall i, p | 0 <= i < |bounds| - 1 && bounds[i] <= p < bounds[i + 1]
      ensures caps[p] == caps[bounds[i]]
    {
      ConstantBetween(bounds, caps, i, p);
    }
  }

  lemma {:induction false} ConstantBetween(bounds: seq<nat>, caps: seq<nat>, i: nat, p: nat)
    requires Increasing(bounds) && i < |bounds| - 1 && bounds[i] <= p < bounds[i + 1] <= |caps|
    requires forall q | 0 < q < |caps| && caps[q] != caps[q - 1] :: q in bounds
    ensures caps[p] == caps[bounds[i]]
  {
    if p > bounds[i] {
      ConstantBetween(bounds, caps, i, p - 1);
      if p in bounds {
        var j := IndexOf(bounds, p);
        assert j <= i || j >= i + 1;
      }
    }
  }

  /** node index of every boundary, -1 elsewhere */
  method IndexNodes(bounds: seq<nat>, S: nat) returns (nodeOf: seq<int>)
    requires Increasing(bounds) && forall i | 0 <= i < |bounds| :: bounds[i] <= S
    ensures |nodeOf| == S + 1
    ensures forall i | 0 <= i < |bounds| :: nodeOf[bounds[i]] == i
    ensures forall p | 0 <= p <= S && p !in bounds :: nodeOf[p] == -1
  {
    nodeOf := seq(S + 1, _ => -1);
    for i := 0 to |bounds|
      invariant |nodeOf| == S + 1
      invariant forall j | 0 <= j < i :: nodeOf[bounds[j]] == j
      invariant forall p | 0 <= p <= S && p !in bounds :: nodeOf[p] == -1
    {
      nodeOf := nodeOf[bounds[i] := i];
    }
  }

  /** The least capacity of a compressed segment, which is the capacity of all of it. */
  method SegCap(bounds: seq<nat>, ghost ks: seq<Span>, caps: seq<nat>, i: nat) returns (c: nat)
    requires Boundaries(bounds, ks, caps) && i < |bounds| - 1
    ensures c == CapAt(bounds, caps, i)
    ensures forall p | bounds[i] <= p < bounds[i + 1] :: p < |caps| && caps[p] == c
  {
    var lo, hi := bounds[i], bounds[i + 1];
    assert hi <= bounds[|bounds| - 1];
    c := caps[lo];
    for p := lo + 1 to hi
      invariant c == caps[lo]
    {
      c := Min(c, caps[p]);
    }
  }

  /** What the source node at boundary q supplies; negative when it absorbs. */
  function SupplyAt(caps: seq<nat>, q: nat): int
    requires |caps| > 0
  {
    if q == 0 then -(caps[0] as int)
    else if q >= |caps| then caps[|caps| - 1]
    else caps[q - 1] as int - caps[q] as int
  }

  lemma SupplyAtIsSupply(bounds: seq<nat>, ks: seq<Span>, caps: seq<nat>, i: nat)
    requires Boundaries(bounds, ks, caps) && i < |bounds|
    ensures SupplyAt(caps, bounds[i]) == Supply(bounds, caps, i)
  {
    if i > 0 {
      assert bounds[i - 1] < bounds[i];
      assert bounds[i - 1] <= bounds[i] - 1 < bounds[(i - 1) + 1];
    }
    assert i < |bounds| - 1 ==> bounds[i] < bounds[|bounds| - 1];
    assert i > 0 ==> bounds[0] < bounds[i];
  }

  ghost function Zeros(m: nat): (r: seq<int>)
    ensures |r| == m && forall k | 0 <= k < m :: r[k] == 0
  {
    seq(m, _ => 0)
  }

  /** One idle arc per compressed segment. */
  method AddSlackArcs(net: FlowNet, ghost ks: seq<Span>, caps: seq<nat>, bounds: seq<nat>)
    requires Boundaries(bounds, ks, caps) && net.Valid() && net.n == |bounds| + 2 && net.arcs == []
    modifies net
    ensures net.Valid()
    ensures EdgesOf(net.arcs) == SlackEdges(bounds, caps, |bounds| - 1)
    ensures FlowOf(net.arcs) == Zeros(|bounds| - 1)
  {
    for i := 0 to |bounds| - 1
      invariant net.Valid()
      invariant EdgesOf(net.arcs) == SlackEdges(bounds, caps, i)
      invariant FlowOf(net.arcs) == Zeros(i)
    {
      var c := SegCap(bounds, ks, caps, i);
      var _ := net.AddArc(i + 1, i, c, 0);
    }
  }

  /** One arc of capacity 1 per span in the model, its cost the weight that spilling it loses. */
  method AddSpanArcs(net: FlowNet, spans: seq<Span>, S: nat, bounds: seq<nat>, nodeOf: seq<int>)
    returns (spanArc: seq<nat>, kept: seq<Span>)
    requires net.Valid() && net.n == |bounds| + 2 && Increasing(bounds)
    requires forall k | 0 <= k < |Clip(spans, S)| :: Clip(spans, S)[k].start in bounds && Clip(spans, S)[k].end in bounds
    requires |nodeOf| == S + 1 && forall i | 0 <= i < |bounds| :: bounds[i] <= S && nodeOf[bounds[i]] == i
    modifies net
    ensures net.Valid()
    ensures kept == Clip(spans, S) && |spanArc| == |kept|
    ensures EdgesOf(net.arcs) == old(EdgesOf(net.arcs)) + SpanEdges(bounds, kept)
    ensures FlowOf(net.arcs) == old(FlowOf(net.arcs)) + Zeros(|kept|)
    ensures forall k | 0 <= k < |kept| :: spanArc[k] == |old(net.arcs)| + 2 * k
  {
    hide SpanEdges, Zeros, Clip, Adjacency, EdgesOf, FlowOf, IndexOf;
    ghost var ks := Clip(spans, S);
    spanArc, kept := [], [];
    NoneYet(spans, S, bounds);
    for k := 0 to |spans|
      invariant net.Valid()
      invariant kept == Clip(spans[..k], S) && |spanArc| == |kept| && kept <= ks
      invariant |net.arcs| == |old(net.arcs)| + 2 * |kept|
      invariant EdgesOf(net.arcs) == old(EdgesOf(net.arcs)) + SpanEdges(bounds, kept)
      invariant FlowOf(net.arcs) == old(FlowOf(net.arcs)) + Zeros(|kept|)
      invariant forall j | 0 <= j < |kept| :: spanArc[j] == |old(net.arcs)| + 2 * j
    {
      var sp := spans[k];
      ClipStep(spans, S, k);
      if InModel(sp, S) {
        var e := Min(sp.end, S);
        ghost var clipped := sp.(end := e);
        assert clipped == ks[|kept|];
        NodeIsIndex(bounds, S, nodeOf, sp.start);
        NodeIsIndex(bounds, S, nodeOf, e);
        SpanEdgesAppend(bounds, kept, clipped);
        var id := net.AddArc(nodeOf[e], nodeOf[sp.start], 1, 0 - sp.weight);
        spanArc := spanArc + [id];
        kept := kept + [sp.(end := e)];
      }
    }
    assert spans[..|spans|] == spans;
  }

  lemma NodeIsIndex(bounds: seq<nat>, S: nat, nodeOf: seq<int>, b: nat)
    requires Increasing(bounds) && b in bounds
    requires |nodeOf| == S + 1 && forall i | 0 <= i < |bounds| :: bounds[i] <= S && nodeOf[bounds[i]] == i
    ensures b <= S && nodeOf[b] == IndexOf(bounds, b) && 0 <= nodeOf[b] < |bounds|
  {
    IndexUnique(bounds, b, nodeOf[b]);
  }

  lemma NoneYet(spans: seq<Span>, S: nat, bounds: seq<nat>)
    ensures Clip(spans[..0], S) == [] && SpanEdges(bounds, []) == [] && Zeros(0) == []
  {
  }

  lemma ClipStep(spans: seq<Span>, S: nat, k: nat)
    requires k < |spans|
    ensures Clip(spans[..k + 1], S) ==
            Clip(spans[..k], S) + if InModel(spans[k], S) then [spans[k].(end := Min(spans[k].end, S))] else []
    ensures Clip(spans[..k + 1], S) <= Clip(spans, S)
  {
    assert spans[..k + 1][..k] == spans[..k];
    ClipPrefix(spans, S, k + 1);
  }

  lemma SpanEdgesAppend(bounds: seq<nat>, ks: seq<Span>, sp: Span)
    requires forall k | 0 <= k < |ks| :: ks[k].start in bounds && ks[k].end in bounds
    requires sp.start in bounds && sp.end in bounds
    ensures SpanEdges(bounds, ks + [sp]) ==
            SpanEdges(bounds, ks) + [Edge(IndexOf(bounds, sp.end), IndexOf(bounds, sp.start), 1, 0 - sp.weight)]
    ensures Zeros(|ks| + 1) == Zeros(|ks|) + [0]
  {
  }

  /** The terminal arc of one chain node, if it has a supply or a demand. */
  method AddTerminal(net: FlowNet, ghost ks: seq<Span>, caps: seq<nat>, bounds: seq<nat>, i: nat)
    requires Boundaries(bounds, ks, caps) && net.Valid() && net.n == |bounds| + 2 && i < |bounds|
    modifies net
    ensures net.Valid()
    ensures EdgesOf(net.arcs) == old(EdgesOf(net.arcs)) + SupplyEdge(bounds, caps, i)
    ensures FlowOf(net.arcs) == old(FlowOf(net.arcs)) + Zeros(|SupplyEdge(bounds, caps, i)|)
  {
    SupplyAtIsSupply(bounds, ks, caps, i);
    hide Supply, SupplyAt, Adjacency, Paired;
    var supply := SupplyAt(caps, bounds[i]);
    if supply > 0 {
      var _ := net.AddArc(|bounds|, i, supply, 0);
    } else if supply < 0 {
      var _ := net.AddArc(i, |bounds| + 1, -supply, 0);
    }
  }

  /** Supplies where capacity shrinks to the right, demands where it grows. */
  method AddTerminals(net: FlowNet, ghost ks: seq<Span>, caps: seq<nat>, bounds: seq<nat>)
    requires Boundaries(bounds, ks, caps) && net.Valid() && net.n == |bounds| + 2
    modifies net
    ensures net.Valid()
    ensures EdgesOf(net.arcs) == old(EdgesOf(net.arcs)) + SupplyEdges(bounds, caps, |bounds|)
    ensures FlowOf(net.arcs) == old(FlowOf(net.arcs)) + Zeros(|SupplyEdges(bounds, caps, |bounds|)|)
  {
    hide SupplyEdge, Adjacency, OppositeCost;
    for i := 0 to |bounds|
      invariant net.Valid()
      invariant EdgesOf(net.arcs) == old(EdgesOf(net.arcs)) + SupplyEdges(bounds, caps, i)
      invariant FlowOf(net.arcs) == old(FlowOf(net.arcs)) + Zeros(|SupplyEdges(bounds, caps, i)|)
    {
      AddTerminal(net, ks, caps, bounds, i);
    }
  }

  /** Slack arcs, one span arc per kept span, then the terminals: no flow on any of them yet. */
  method BuildNetwork(spans: seq<Span>, caps: seq<nat>, bounds: seq<nat>) returns (net: FlowNet, spanArc: seq<nat>, kept: seq<Span>)
    requires |caps| > 0 && Boundaries(bounds, Clip(spans, |caps|), caps)
    ensures fresh(net) && net.Valid() && net.n == |bounds| + 2
    ensures kept == Clip(spans, |caps|) && |spanArc| == |kept|
    ensures EdgesOf(net.arcs) == NetEdges(bounds, kept, caps)
    ensures FlowOf(net.arcs) == Zeros(|NetEdges(bounds, kept, caps)|)
    ensures forall k | 0 <= k < |kept| :: spanArc[k] == 2 * (|bounds| - 1 + k)
  {
    hide SlackEdges, SpanEdges, SupplyEdges, Zeros, Clip;
    var S, nn := |caps|, |bounds|;
    ghost var ks := Clip(spans, S);
    BoundsWithin(bounds, ks, caps);
    var nodeOf := IndexNodes(bounds, S);
    net := new FlowNet(nn + 2);
    AddSlackArcs(net, ks, caps, bounds);
    NetworkParts(bounds, ks, caps);
    assert |net.arcs| == 2 * (nn - 1);
    hide EdgesOf, FlowOf, NetEdges;
    spanArc, kept := AddSpanArcs(net, spans, S, bounds, nodeOf);
    AddTerminals(net, ks, caps, bounds);
  }

  lemma BoundsWithin(bounds: seq<nat>, ks: seq<Span>, caps: seq<nat>)
    requires Boundaries(bounds, ks, caps)
    ensures forall i | 0 <= i < |bounds| :: bounds[i] <= |caps|
  {
    forall i | 0 <= i < |bounds| - 1 ensures bounds[i] < |caps| {
      assert bounds[i] < bounds[|bounds| - 1];
    }
  }

  lemma {:induction false} ClipPrefix(spans: seq<Span>, S: nat, k: nat)
    requires k <= |spans|
    ensures Clip(spans[..k], S) <= Clip(spans, S)
    decreases |spans| - k
  {
    if k < |spans| {
      ClipPrefix(spans, S, k + 1);
      assert spans[..k + 1][..k] == spans[..k];
    } else {
      assert spans[..k] == spans;
    }
  }

  lemma IndexUnique(bounds: seq<nat>, b: nat, i: int)
    requires Increasing(bounds) && b in bounds && 0 <= i < |bounds| && bounds[i] == b
    ensures IndexOf(bounds, b) == i
  {
  }

  // ---------------------------------------------------------------------
  // selection
  // ---------------------------------------------------------------------

  /** Before any flow is shipped the network is acyclic, so prices exist. */
  lemma FreshNetworkIsPriceable(bs: seq<nat>, ks: seq<Span>, caps: seq<nat>, arcs: seq<Arc>)
    requires Boundaries(bs, ks, caps) && Paired(arcs, |bs| + 2)
    requires EdgesOf(arcs) == NetEdges(bs, ks, caps) && FlowOf(arcs) == Zeros(|NetEdges(bs, ks, caps)|)
    ensures Priceable(arcs, |bs| + 2)
  {
    var W := HeaviestBound(ks);
    var pi := seq(|bs| + 2, i requires 0 <= i < |bs| + 2 => ChainPrice(W, |bs|, i));
    forall id: nat | id < |arcs| && arcs[id].cap > 0
      ensures ReducedCost(arcs, id, pi) >= 0
    {
      var k := id / 2;
      assert FlowOf(arcs)[k] == 0;
      assert id == 2 * k || id == 2 * k + 1;
      var e := EdgesOf(arcs)[k];
      EdgePrice(bs, ks, caps, W, k);
    }
    assert Priced(arcs, |bs| + 2, pi);
  }

  ghost function ChainPrice(W: nat, nn: nat, i: nat): int {
    if i == nn + 1 then 0 else W * i
  }

  lemma HeaviestBound(ks: seq<Span>) returns (W: nat)
    ensures forall k | 0 <= k < |ks| :: ks[k].weight <= W
  {
    var ws := seq(|ks|, k requires 0 <= k < |ks| => ks[k].weight as int);
    SumNonNegative(ws);
    W := Sum(ws);
    forall k | 0 <= k < |ks| ensures ks[k].weight <= W {
      assert ws[k] <= W;
    }
  }

  lemma EdgePrice(bs: seq<nat>, ks: seq<Span>, caps: seq<nat>, W: nat, k: nat)
    requires Boundaries(bs, ks, caps) && k < |NetEdges(bs, ks, caps)|
    requires forall j | 0 <= j < |ks| :: ks[j].weight <= W
    ensures var e := NetEdges(bs, ks, caps)[k];
            e.cost + ChainPrice(W, |bs|, e.tail) - ChainPrice(W, |bs|, e.head) >= 0
  {
    var e := NetEdges(bs, ks, caps)[k];
    var a, b := |bs| - 1, |ks|;
    if k < a {
      assert e == SlackEdges(bs, caps, a)[k];
      Steps(W, k, k + 1);
    } else if k < a + b {
      assert e == SpanEdges(bs, ks)[k - a];
      var s, t := IndexOf(bs, ks[k - a].start), IndexOf(bs, ks[k - a].end);
      Steps(W, s, t);
    } else {
      assert e == SupplyEdges(bs, caps, |bs|)[k - a - b];
      if e.tail == |bs| {
        Steps(W, e.head, |bs|);
      }
    }
  }

  lemma Steps(W: nat, i: nat, j: nat)
    requires i < j
    ensures W * j >= W * i + W
  {
    var d := j - i - 1;
    assert W * d >= 0;
    assert W * j == W * i + W + W * d by {
      assert j == i + 1 + d;
      MulSplit(W, i, d);
    }
  }

  lemma MulSplit(W: int, i: int, d: int)
    ensures W * (i + 1 + d) == W * i + W + W * d
  {
  }

  lemma ZeroIsFlow(es: seq<Edge>, n: nat, s: nat, t: nat)
    requires forall k | 0 <= k < |es| :: es[k].cap >= 0
    ensures IsFlow(es, Zeros(|es|), n, s, t)
  {
    forall v: nat | v < n ensures NetOut(es, Zeros(|es|), v) == 0 {
      SumZero(OutTerms(es, Zeros(|es|), v));
    }
  }

  /** Ids of the chosen spans, in the order of the spans. */
  function Chosen(spans: seq<Span>, x: seq<int>): (r: seq<int>)
    requires |x| == |spans|
    decreases |spans|
  {
    if spans == [] then []
    else
      var m := |spans| - 1;
      Chosen(spans[..m], x[..m]) + if x[m] > 0 then [spans[m].vreg] else []
  }

  lemma {:induction false} SpreadChosen(spans: seq<Span>, S: nat, y: seq<int>)
    requires |y| == |Clip(spans, S)|
    ensures Chosen(spans, Spread(spans, S, y)) == Chosen(Clip(spans, S), y)
  {
    if spans != [] {
      var m := |spans| - 1;
      var x, ks := Spread(spans, S, y), Clip(spans, S);
      if InModel(spans[m], S) {
        SpreadChosen(spans[..m], S, y[..|y| - 1]);
        assert x[..m] == Spread(spans[..m], S, y[..|y| - 1]);
        assert ks[..|ks| - 1] == Clip(spans[..m], S);
      } else {
        SpreadChosen(spans[..m], S, y);
        assert x[..m] == Spread(spans[..m], S, y);
        assert ks == Clip(spans[..m], S);
      }
    }
  }

  /** A span is selected when its arc carries flow, that is when the reverse arc has room. */
  method Extract(net: FlowNet, spanArc: seq<nat>, kept: seq<Span>, ghost y: seq<int>) returns (ids: seq<int>)
    requires |spanArc| == |kept| == |y|
    requires forall k | 0 <= k < |kept| :: Twin(spanArc[k]) < |net.arcs| && net.arcs[Twin(spanArc[k])].cap == y[k]
    ensures ids == Chosen(kept, y)
  {
    ids := [];
    for k := 0 to |kept|
      invariant ids == Chosen(kept[..k], y[..k])
    {
      assert kept[..k + 1][..k] == kept[..k] && y[..k + 1][..k] == y[..k];
      if net.arcs[Twin(spanArc[k])].cap > 0 {
        ids := ids + [kept[k].vreg];
      }
    }
    assert kept[..|kept|] == kept && y[..|kept|] == y;
  }

  /** The final flow, cut into its three parts, is an optimal selection of the clipped spans. */
  lemma ReadOff(bs: seq<nat>, ks: seq<Span>, caps: seq<nat>, f: seq<int>) returns (y: seq<int>)
    requires Boundaries(bs, ks, caps)
    requires MinCostMaxFlow(NetEdges(bs, ks, caps), f, |bs| + 2, |bs|, |bs| + 1)
    ensures |y| == |ks| && |f| >= |bs| - 1 + |ks| && Optimal(ks, caps, y)
    ensures forall k | 0 <= k < |ks| :: f[|bs| - 1 + k] == y[k]
  {
    hide Optimal, NetOut, Cost, MinCostMaxFlow, Parts, Boundaries, NetEdges;
    var a, b := |bs| - 1, |bs| - 1 + |ks|;
    FlowSize(NetEdges(bs, ks, caps), f, |bs| + 2, |bs|, |bs| + 1);
    CutsIntoParts(bs, ks, caps, f);
    y := f[a..b];
    OptimalFlowIsOptimalSelection(bs, ks, caps, f, f[..a], y, f[b..]);
  }

  lemma CutsIntoParts(bs: seq<nat>, ks: seq<Span>, caps: seq<nat>, f: seq<int>)
    requires Boundaries(bs, ks, caps) && |f| == |NetEdges(bs, ks, caps)|
    ensures |bs| > 0 && |f| >= |bs| - 1 + |ks|
    ensures Parts(bs, ks, caps, f, f[..|bs| - 1], f[|bs| - 1..|bs| - 1 + |ks|], f[|bs| - 1 + |ks|..])
  {
    NetworkParts(bs, ks, caps);
    ThreeParts(f, |bs| - 1, |bs| - 1 + |ks|);
    hide NetEdges, SlackEdges, SpanEdges, SupplyEdges, Zeros, Increasing, Boundaries;
  }

  lemma ThreeParts(f: seq<int>, a: nat, b: nat)
    requires a <= b <= |f|
    ensures f == f[..a] + f[a..b] + f[b..]
  {
  }

  lemma FlowSize(es: seq<Edge>, f: seq<int>, n: nat, s: nat, t: nat)
    requires MinCostMaxFlow(es, f, n, s, t)
    ensures |f| == |es|
  {
    hide NetOut, Cost;
  }

  lemma NetworkParts(bs: seq<nat>, ks: seq<Span>, caps: seq<nat>)
    requires Boundaries(bs, ks, caps)
    ensures |bs| > 0
    ensures NetEdges(bs, ks, caps) == SlackEdges(bs, caps, |bs| - 1) + SpanEdges(bs, ks) + SupplyEdges(bs, caps, |bs|)
    ensures |NetEdges(bs, ks, caps)| == |bs| - 1 + |ks| + |SupplyEdges(bs, caps, |bs|)|
    ensures Zeros(|NetEdges(bs, ks, caps)|) == Zeros(|bs| - 1) + Zeros(|ks|) + Zeros(|SupplyEdges(bs, caps, |bs|)|)
  {
  }

  /** The ids, sorted, of a maximum-weight set of spans whose overlap respects every capacity. */
  method RallocFlowSelect(spans: seq<Span>, caps: seq<nat>) returns (selected: seq<int>)
    ensures exists x :: |x| == |spans| && Optimal(spans, caps, x) && selected == Sort(Chosen(spans, x))
  {
    hide Optimal, MinCostMaxFlow, Zeros, NetEdges, Boundaries, Clip, Spread, IsFlow, Chosen, Sort, Priceable;
    if spans == [] || caps == [] {
      selected := [];
      NothingToSelect(spans, caps);
      return;
    }
    var bounds := CollectBounds(spans, caps);
    var net, spanArc, kept := BuildNetwork(spans, caps, bounds);
    FreshNetworkIsPriceable(bounds, kept, caps, net.arcs);
    assert IsFlow(EdgesOf(net.arcs), FlowOf(net.arcs), net.n, |bounds|, |bounds| + 1) by {
      NetworkOf(net.arcs, net.n);
      ZeroIsFlow(EdgesOf(net.arcs), net.n, |bounds|, |bounds| + 1);
    }
    ShipAll(net, |bounds|, |bounds| + 1);
    ghost var y := ReadOff(bounds, kept, caps, FlowOf(net.arcs));
    selected := Extract(net, spanArc, kept, y);
    OptimalSpreads(spans, caps, y);
    SpreadChosen(spans, |caps|, y);
    selected := Sort(selected);
  }

  lemma NothingToSelect(spans: seq<Span>, caps: seq<nat>)
    requires spans == [] || caps == []
    ensures |NoSpans(spans)| == |spans| && Optimal(spans, caps, NoSpans(spans))
    ensures [] == Sort(Chosen(spans, NoSpans(spans)))
  {
    NothingIsFeasible(spans, caps);
    forall y | Feasible(spans, caps, y)
      ensures TotalWeight(spans, y) <= TotalWeight(spans, NoSpans(spans))
    {
      SumZero(WeightTerms(spans, y));
      SumZero(WeightTerms(spans, NoSpans(spans)));
    }
    NothingChosen(spans);
  }

  lemma {:induction false} NothingChosen(spans: seq<Span>)
    ensures Chosen(spans, NoSpans(spans)) == []
  {
    if spans != [] {
      var m := |spans| - 1;
      NothingChosen(spans[..m]);
      assert NoSpans(spans)[..m] == NoSpans(spans[..m]);
    }
  }
}
