/** The residual network of the live-range selection: arcs stored in pairs, shortest
    augmenting paths found with a queue, flow pushed by successive shortest paths. */
module FlowNets {
  import opened Sums
  import opened Flows
  import opened Options

  /** A residual arc; its reverse is stored at the twin index. */
  datatype Arc = Arc(to: nat, cap: int, cost: int)

  function Twin(id: nat): nat {
    if id % 2 == 0 then id + 1 else id - 1
  }

  ghost predicate Paired(arcs: seq<Arc>, n: nat) {
    && |arcs| % 2 == 0
    && (forall id: nat | id < |arcs| :: arcs[id].to < n && arcs[id].cap >= 0)
    && (forall id: nat | id < |arcs| :: OppositeCost(arcs, id))
  }

  ghost predicate OppositeCost(arcs: seq<Arc>, id: nat)
    requires |arcs| % 2 == 0 && id < |arcs|
  {
    arcs[Twin(id)].cost == -arcs[id].cost
  }

  function Tail(arcs: seq<Arc>, id: nat): nat
    requires |arcs| % 2 == 0 && id < |arcs|
  {
    arcs[Twin(id)].to
  }

  /** adj[u] holds exactly the arcs leaving u. */
  ghost predicate Adjacency(arcs: seq<Arc>, adj: seq<seq<nat>>, n: nat)
    requires Paired(arcs, n)
  {
    && |adj| == n
    && (forall u, j | 0 <= u < n && 0 <= j < |adj[u]| :: adj[u][j] < |arcs| && Tail(arcs, adj[u][j]) == u)
    && (forall id: nat {:trigger Tail(arcs, id)} | id < |arcs| :: id in adj[Tail(arcs, id)])
  }

  /** The network and the flow that a residual arc list stands for. */
  ghost function EdgesOf(arcs: seq<Arc>): (es: seq<Edge>)
    requires |arcs| % 2 == 0
    ensures |es| == |arcs| / 2
    ensures forall k | 0 <= k < |es| ::
              es[k] == Edge(arcs[2 * k + 1].to, arcs[2 * k].to, arcs[2 * k].cap + arcs[2 * k + 1].cap, arcs[2 * k].cost)
  {
    seq(|arcs| / 2, k requires 0 <= k < |arcs| / 2 =>
      Edge(arcs[2 * k + 1].to, arcs[2 * k].to, arcs[2 * k].cap + arcs[2 * k + 1].cap, arcs[2 * k].cost))
  }

  ghost function FlowOf(arcs: seq<Arc>): (f: seq<int>)
    requires |arcs| % 2 == 0
    ensures |f| == |arcs| / 2
    ensures forall k | 0 <= k < |f| :: f[k] == arcs[2 * k + 1].cap
  {
    seq(|arcs| / 2, k requires 0 <= k < |arcs| / 2 => arcs[2 * k + 1].cap)
  }

  ghost function ReducedCost(arcs: seq<Arc>, id: nat, pi: seq<int>): int
    requires Paired(arcs, |pi|) && id < |arcs|
  {
    arcs[id].cost + pi[Tail(arcs, id)] - pi[arcs[id].to]
  }

  /** No residual arc has negative reduced cost under pi; such a pi rules out negative cycles. */
  ghost predicate Priced(arcs: seq<Arc>, n: nat, pi: seq<int>) {
    && Paired(arcs, n) && |pi| == n
    && forall id: nat {:trigger ReducedCost(arcs, id, pi)} | id < |arcs| && arcs[id].cap > 0 :: ReducedCost(arcs, id, pi) >= 0
  }

  ghost predicate Priceable(arcs: seq<Arc>, n: nat) {
    exists pi :: Priced(arcs, n, pi)
  }

  /** w is a sequence of arcs with spare capacity leading from u to v. */
  ghost predicate IsWalk(arcs: seq<Arc>, w: seq<nat>, u: nat, v: nat)
    requires |arcs| % 2 == 0
  {
    if w == [] then u == v
    else w[0] < |arcs| && arcs[w[0]].cap > 0 && Tail(arcs, w[0]) == u && IsWalk(arcs, w[1..], arcs[w[0]].to, v)
  }

  ghost function WalkCost(arcs: seq<Arc>, w: seq<nat>): int
  {
    if w == [] || w[0] >= |arcs| then 0 else arcs[w[0]].cost + WalkCost(arcs, w[1..])
  }

  lemma {:induction false} WalkInRange(arcs: seq<Arc>, w: seq<nat>, u: nat, v: nat)
    requires |arcs| % 2 == 0 && IsWalk(arcs, w, u, v)
    ensures forall k | 0 <= k < |w| :: w[k] < |arcs| && arcs[w[k]].cap > 0
  {
    if w != [] {
      WalkInRange(arcs, w[1..], arcs[w[0]].to, v);
      assert forall k | 1 <= k < |w| :: w[k] == w[1..][k - 1];
    }
  }

  /** A priced network bounds the cost of every walk from below. */
  lemma {:induction false} WalkCostBound(arcs: seq<Arc>, n: nat, pi: seq<int>, w: seq<nat>, u: nat, v: nat)
    requires Priced(arcs, n, pi) && u < n && IsWalk(arcs, w, u, v)
    ensures v < n && WalkCost(arcs, w) >= pi[v] - pi[u]
  {
    if w != [] {
      WalkCostBound(arcs, n, pi, w[1..], arcs[w[0]].to, v);
      assert ReducedCost(arcs, w[0], pi) >= 0;
    }
  }

  lemma {:induction false} TightWalkCost(arcs: seq<Arc>, n: nat, pi: seq<int>, w: seq<nat>, u: nat, v: nat)
    requires Priced(arcs, n, pi) && u < n && IsWalk(arcs, w, u, v)
    requires forall k | 0 <= k < |w| :: w[k] < |arcs| && ReducedCost(arcs, w[k], pi) == 0
    ensures v < n && WalkCost(arcs, w) == pi[v] - pi[u]
  {
    if w != [] {
      assert ReducedCost(arcs, w[0], pi) == 0;
      assert forall k | 0 <= k < |w[1..]| :: w[1..][k] == w[k + 1];
      TightWalkCost(arcs, n, pi, w[1..], arcs[w[0]].to, v);
    }
  }

  /** The invariant of successive shortest paths in its usual words. */
  lemma NoNegativeCycle(arcs: seq<Arc>, n: nat, w: seq<nat>, u: nat)
    requires Priceable(arcs, n) && u < n && IsWalk(arcs, w, u, u)
    ensures WalkCost(arcs, w) >= 0
  {
    var pi :| Priced(arcs, n, pi);
    WalkCostBound(arcs, n, pi, w, u, u);
  }

  lemma {:induction false} WalkAppend(arcs: seq<Arc>, w: seq<nat>, u: nat, v: nat, id: nat)
    requires |arcs| % 2 == 0 && IsWalk(arcs, w, u, v)
    requires id < |arcs| && arcs[id].cap > 0 && Tail(arcs, id) == v
    ensures IsWalk(arcs, w + [id], u, arcs[id].to)
  {
    if w != [] {
      WalkAppend(arcs, w[1..], arcs[w[0]].to, v, id);
      assert (w + [id])[1..] == w[1..] + [id];
    }
  }

  // ---------------------------------------------------------------------
  // shortest augmenting path
  // ---------------------------------------------------------------------

  /** Search state after some relaxations. `stamp` records when a distance last changed; together
      with the reduced distance it orders every node strictly after its parent, so the parent
      pointers can never close a cycle, not even one of cost zero. */
  ghost predicate SearchTree(arcs: seq<Arc>, pi: seq<int>, src: nat,
                             dist: seq<Option<int>>, parent: seq<int>, stamp: seq<int>, clock: int)
    requires Priced(arcs, |pi|, pi) && src < |pi|
  {
    && |dist| == |parent| == |stamp| == |pi|
    && dist[src] == Some(0) && parent[src] == -1
    && (forall v | 0 <= v < |pi| && dist[v].Some? :: dist[v].value >= pi[v] - pi[src])
    && (forall v | 0 <= v < |pi| && v != src :: dist[v].Some? <==> parent[v] >= 0)
    && clock >= 0 && (forall v | 0 <= v < |pi| :: 0 <= stamp[v] < clock)
    && (forall v | 0 <= v < |pi| && parent[v] >= 0 :: GoodParent(arcs, pi, dist, parent[v], stamp, v))
  }

  ghost predicate GoodParent(arcs: seq<Arc>, pi: seq<int>, dist: seq<Option<int>>, id: int, stamp: seq<int>, v: nat)
    requires Paired(arcs, |pi|) && |dist| == |stamp| == |pi| && v < |pi|
  {
    && 0 <= id < |arcs| && arcs[id].to == v && arcs[id].cap > 0
    && var u := Tail(arcs, id);
    && dist[u].Some? && dist[v].Some? && dist[u].value + arcs[id].cost <= dist[v].value
    && Precedes(pi, dist, stamp, u, v)
  }

  ghost predicate Precedes(pi: seq<int>, dist: seq<Option<int>>, stamp: seq<int>, u: nat, v: nat)
    requires |dist| == |stamp| == |pi| && u < |pi| && v < |pi|
    requires dist[u].Some? && dist[v].Some?
  {
    var a, b := dist[u].value - pi[u], dist[v].value - pi[v];
    a < b || (a == b && stamp[u] < stamp[v])
  }

  ghost predicate Improves(dist: seq<Option<int>>, v: nat, nd: int)
    requires v < |dist|
  {
    dist[v].None? || nd < dist[v].value
  }

  lemma RelaxKeepsTree(arcs: seq<Arc>, pi: seq<int>, src: nat,
                       dist: seq<Option<int>>, parent: seq<int>, stamp: seq<int>, clock: int, id: nat)
    requires Priced(arcs, |pi|, pi) && src < |pi|
    requires SearchTree(arcs, pi, src, dist, parent, stamp, clock)
    requires id < |arcs| && arcs[id].cap > 0 && dist[Tail(arcs, id)].Some?
    requires Improves(dist, arcs[id].to, dist[Tail(arcs, id)].value + arcs[id].cost)
    ensures arcs[id].to != src && arcs[id].to != Tail(arcs, id)
    ensures var v, nd := arcs[id].to, dist[Tail(arcs, id)].value + arcs[id].cost;
            SearchTree(arcs, pi, src, dist[v := Some(nd)], parent[v := id], stamp[v := clock], clock + 1)
  {
    var u, v := Tail(arcs, id), arcs[id].to;
    var nd := dist[u].value + arcs[id].cost;
    assert ReducedCost(arcs, id, pi) >= 0;
    var dist', parent', stamp' := dist[v := Some(nd)], parent[v := id], stamp[v := clock];
    forall x | 0 <= x < |pi| && parent'[x] >= 0
      ensures GoodParent(arcs, pi, dist', parent'[x], stamp', x)
    {
      if x != v {
        assert GoodParent(arcs, pi, dist, parent[x], stamp, x);
      }
    }
  }

  /** Every arc with room out of a settled node obeys the triangle inequality. */
  ghost predicate Settled(arcs: seq<Arc>, dist: seq<Option<int>>, id: nat)
    requires |arcs| % 2 == 0 && id < |arcs|
    requires arcs[id].to < |dist| && Tail(arcs, id) < |dist|
  {
    arcs[id].cap > 0 && dist[Tail(arcs, id)].Some? ==>
      dist[arcs[id].to].Some? && dist[arcs[id].to].value <= dist[Tail(arcs, id)].value + arcs[id].cost
  }

  ghost function Unreached(dist: seq<Option<int>>): (r: seq<int>)
    ensures |r| == |dist|
    ensures forall v | 0 <= v < |r| :: r[v] == if dist[v].None? then 1 else 0
  {
    seq(|dist|, v requires 0 <= v < |dist| => if dist[v].None? then 1 else 0)
  }

  ghost function Slacks(dist: seq<Option<int>>, pi: seq<int>, src: nat): (r: seq<int>)
    requires |dist| == |pi| && src < |pi|
    ensures |r| == |dist|
    ensures forall v | 0 <= v < |r| :: r[v] == if dist[v].None? then 0 else dist[v].value - pi[v] + pi[src]
  {
    seq(|dist|, v requires 0 <= v < |dist| => if dist[v].None? then 0 else dist[v].value - pi[v] + pi[src])
  }

  /** Progress of the search, in the lexicographic order that makes it terminate. */
  ghost predicate Advanced(pi: seq<int>, src: nat, from: seq<Option<int>>, to: seq<Option<int>>)
    requires |from| == |to| == |pi| && src < |pi|
  {
    && 0 <= Sum(Unreached(to)) && 0 <= Sum(Slacks(to, pi, src))
    && (Sum(Unreached(to)) < Sum(Unreached(from))
        || (Sum(Unreached(to)) == Sum(Unreached(from)) && Sum(Slacks(to, pi, src)) < Sum(Slacks(from, pi, src))))
  }

  /** A relaxation lowers first the number of unreached nodes, then the total reduced distance. */
  lemma RelaxDecreases(dist: seq<Option<int>>, pi: seq<int>, src: nat, v: nat, nd: int)
    requires |dist| == |pi| && src < |pi| && v < |pi| && Improves(dist, v, nd)
    requires nd >= pi[v] - pi[src]
    requires forall x | 0 <= x < |pi| && dist[x].Some? :: dist[x].value >= pi[x] - pi[src]
    ensures Advanced(pi, src, dist, dist[v := Some(nd)])
  {
    var d := dist[v := Some(nd)];
    SumNonNegative(Unreached(d));
    SumNonNegative(Slacks(d, pi, src));
    assert Unreached(d) == Unreached(dist)[v := 0];
    SumUpdate(Unreached(dist), v, 0);
    assert Slacks(d, pi, src) == Slacks(dist, pi, src)[v := nd - pi[v] + pi[src]];
    SumUpdate(Slacks(dist, pi, src), v, nd - pi[v] + pi[src]);
  }

  lemma PairAppended(arcs: seq<Arc>, adj: seq<seq<nat>>, n: nat, u: nat, v: nat, cap: int, cost: int)
    requires Paired(arcs, n) && Adjacency(arcs, adj, n) && u < n && v < n && cap >= 0
    ensures var arcs' := arcs + [Arc(v, cap, cost), Arc(u, 0, -cost)];
            var adj' := adj[u := adj[u] + [|arcs|]];
            Paired(arcs', n) && Adjacency(arcs', adj'[v := adj'[v] + [|arcs| + 1]], n)
  {
    var m := |arcs|;
    var arcs' := arcs + [Arc(v, cap, cost), Arc(u, 0, -cost)];
    forall x: nat | x < m + 2
      ensures OppositeCost(arcs', x) && (x < m ==> Tail(arcs', x) == Tail(arcs, x))
    {
      assert x < m ==> OppositeCost(arcs, x);
    }
    assert Tail(arcs', m) == u && Tail(arcs', m + 1) == v;
    PairListed(arcs, arcs', adj, n, u, v);
  }

  lemma PairListed(arcs: seq<Arc>, arcs': seq<Arc>, adj: seq<seq<nat>>, n: nat, u: nat, v: nat)
    requires Paired(arcs, n) && Adjacency(arcs, adj, n) && u < n && v < n && Paired(arcs', n)
    requires |arcs'| == |arcs| + 2 && (forall x: nat | x < |arcs| :: Tail(arcs', x) == Tail(arcs, x))
    requires Tail(arcs', |arcs|) == u && Tail(arcs', |arcs| + 1) == v
    ensures var adj' := adj[u := adj[u] + [|arcs|]];
            Adjacency(arcs', adj'[v := adj'[v] + [|arcs| + 1]], n)
  {
    var mid := adj[u := adj[u] + [|arcs|]];
    var adj' := mid[v := mid[v] + [|arcs| + 1]];
    forall x: nat | x < |arcs'| ensures x in adj'[Tail(arcs', x)] {
      if x < |arcs| {
        assert x in adj[Tail(arcs, x)];
      }
    }
  }

  class FlowNet {
    const n: nat
    var arcs: seq<Arc>
    var adj: seq<seq<nat>>

    ghost predicate Valid()
      reads this
    {
      Paired(arcs, n) && Adjacency(arcs, adj, n)
    }

    constructor (nodes: nat)
      ensures Valid() && n == nodes && arcs == []
    {
      n := nodes;
      arcs := [];
      adj := seq(nodes, _ => []);
    }

    method AddArc(u: nat, v: nat, cap: int, cost: int) returns (id: nat)
      requires Valid() && u < n && v < n && cap >= 0
      modifies this
      ensures Valid() && id == |old(arcs)|
      ensures arcs == old(arcs) + [Arc(v, cap, cost), Arc(u, 0, -cost)]
      ensures EdgesOf(arcs) == old(EdgesOf(arcs)) + [Edge(u, v, cap, cost)]
      ensures FlowOf(arcs) == old(FlowOf(arcs)) + [0]
    {
      id := |arcs|;
      PairAppended(arcs, adj, n, u, v, cap, cost);
      arcs := arcs + [Arc(v, cap, cost), Arc(u, 0, -cost)];
      adj := adj[u := adj[u] + [id]];
      adj := adj[v := adj[v] + [id + 1]];
    }
  }

  // ---------------------------------------------------------------------
  // what the search returns
  // ---------------------------------------------------------------------

  /** The prices the search leaves behind: old price plus reduced distance, capped at the sink's. */
  ghost function NewPrices(pi: seq<int>, dist: seq<Option<int>>, src: nat, dst: nat): (r: seq<int>)
    requires |dist| == |pi| && src < |pi| && dst < |pi| && dist[dst].Some?
    ensures |r| == |pi|
    ensures forall v | 0 <= v < |pi| :: r[v] == pi[v] + CappedSlack(pi, dist, src, dst, v)
  {
    seq(|pi|, v requires 0 <= v < |pi| => pi[v] + CappedSlack(pi, dist, src, dst, v))
  }

  ghost function CappedSlack(pi: seq<int>, dist: seq<Option<int>>, src: nat, dst: nat, v: nat): int
    requires |dist| == |pi| && src < |pi| && dst < |pi| && dist[dst].Some? && v < |pi|
  {
    var top := dist[dst].value - pi[dst] + pi[src];
    if dist[v].None? || dist[v].value - pi[v] + pi[src] > top then top
    else dist[v].value - pi[v] + pi[src]
  }

  lemma NewPricesArePrices(arcs: seq<Arc>, pi: seq<int>, dist: seq<Option<int>>, src: nat, dst: nat)
    requires Priced(arcs, |pi|, pi) && |dist| == |pi| && src < |pi| && dst < |pi| && dist[dst].Some?
    requires forall id: nat {:trigger Settled(arcs, dist, id)} | id < |arcs| :: Settled(arcs, dist, id)
    ensures Priced(arcs, |pi|, NewPrices(pi, dist, src, dst))
  {
    var pi' := NewPrices(pi, dist, src, dst);
    forall id: nat | id < |arcs| && arcs[id].cap > 0
      ensures ReducedCost(arcs, id, pi') >= 0
    {
      assert Settled(arcs, dist, id);
      assert ReducedCost(arcs, id, pi) >= 0;
    }
  }

  ghost predicate Distinct(s: seq<nat>) {
    forall i, j | 0 <= i < j < |s| :: s[i] != s[j]
  }

  /** Every arc of the path costs exactly the price difference of its ends. */
  ghost predicate Tight(arcs: seq<Arc>, n: nat, pi: seq<int>, path: seq<nat>) {
    && Priced(arcs, n, pi)
    && forall k | 0 <= k < |path| :: path[k] < |arcs| && ReducedCost(arcs, path[k], pi) == 0
  }

  /** R holds the source but not the sink, and no arc with spare capacity leaves R. */
  ghost predicate Separates(arcs: seq<Arc>, R: set<nat>, src: nat, dst: nat)
    requires |arcs| % 2 == 0
  {
    && src in R && dst !in R
    && forall id: nat | id < |arcs| && arcs[id].cap > 0 && Tail(arcs, id) in R :: arcs[id].to in R
  }

  lemma {:induction false} SeparatedMeansNoWalk(arcs: seq<Arc>, R: set<nat>, u: nat, dst: nat, w: seq<nat>)
    requires |arcs| % 2 == 0 && u in R && Separates(arcs, R, u, dst)
    ensures !IsWalk(arcs, w, u, dst)
    decreases |w|
  {
    if w != [] && IsWalk(arcs, w, u, dst) {
      SeparatedMeansNoWalk(arcs, R, arcs[w[0]].to, dst, w[1..]);
    }
  }

  function Reverse(s: seq<nat>): (r: seq<nat>)
    ensures |r| == |s| && forall k | 0 <= k < |s| :: r[k] == s[|s| - 1 - k]
  {
    if s == [] then [] else Reverse(s[1..]) + [s[0]]
  }

  /** The arrays and the work list of one search. */
  datatype Search = Search(dist: seq<Option<int>>, parentArc: seq<int>, inQueue: seq<bool>, queue: seq<nat>)

  /** The work list holds reached nodes only, and every node flagged as queued is on it. */
  ghost predicate QueueOk(dist: seq<Option<int>>, inQueue: seq<bool>, queue: seq<nat>) {
    && |inQueue| == |dist|
    && (forall k | 0 <= k < |queue| :: queue[k] < |dist| && dist[queue[k]].Some?)
    && (forall x | 0 <= x < |inQueue| && inQueue[x] :: x in queue)
  }

  /** Arcs out of nodes that are neither queued nor being scanned obey the triangle inequality. */
  ghost predicate SettledOutside(arcs: seq<Arc>, n: nat, dist: seq<Option<int>>, inQueue: seq<bool>, busy: int)
    requires Paired(arcs, n) && |dist| == |inQueue| == n
  {
    forall id: nat {:trigger Settled(arcs, dist, id)} | id < |arcs| && !inQueue[Tail(arcs, id)] && Tail(arcs, id) != busy ::
      Settled(arcs, dist, id)
  }

  ghost predicate KeepsSettled(arcs: seq<Arc>, n: nat, dist: seq<Option<int>>, dist': seq<Option<int>>, u: nat)
    requires Paired(arcs, n) && |dist| == |dist'| == n
  {
    forall k: nat {:trigger Settled(arcs, dist', k)} | k < |arcs| && Tail(arcs, k) == u && Settled(arcs, dist, k) ::
      Settled(arcs, dist', k)
  }

  /** Loop invariant of the search; `busy` is the node whose arcs are being scanned, if any. */
  ghost predicate Searching(arcs: seq<Arc>, pi: seq<int>, src: nat, st: Search, stamp: seq<int>, clock: int, busy: int)
    requires Priced(arcs, |pi|, pi) && src < |pi|
  {
    && |st.dist| == |st.parentArc| == |st.inQueue| == |stamp| == |pi|
    && SearchTree(arcs, pi, src, st.dist, st.parentArc, stamp, clock)
    && QueueOk(st.dist, st.inQueue, st.queue)
    && SettledOutside(arcs, |pi|, st.dist, st.inQueue, busy)
  }

  /** The search after arc `id` lowered the distance of its head v to nd. */
  function Lowered(st: Search, v: nat, nd: int, id: nat): Search
    requires v < |st.dist| == |st.parentArc| == |st.inQueue|
  {
    Search(st.dist[v := Some(nd)], st.parentArc[v := id], st.inQueue[v := true],
           if st.inQueue[v] then st.queue else st.queue + [v])
  }

  lemma LoweredKeepsQueue(st: Search, v: nat, nd: int, id: nat)
    requires v < |st.dist| == |st.parentArc| && QueueOk(st.dist, st.inQueue, st.queue)
    ensures var s := Lowered(st, v, nd, id); QueueOk(s.dist, s.inQueue, s.queue)
  {
    var s := Lowered(st, v, nd, id);
    if !st.inQueue[v] {
      assert s.queue[|st.queue|] == v;
      forall x | 0 <= x < |s.inQueue| && s.inQueue[x] ensures x in s.queue {
        assert x == v || x in st.queue;
      }
    }
  }

  lemma LoweredSettles(arcs: seq<Arc>, n: nat, st: Search, u: nat, id: nat)
    requires Paired(arcs, n) && |st.dist| == |st.parentArc| == |st.inQueue| == n
    requires SettledOutside(arcs, n, st.dist, st.inQueue, u)
    requires id < |arcs| && Tail(arcs, id) == u && st.dist[u].Some? && arcs[id].to != u
    requires Improves(st.dist, arcs[id].to, st.dist[u].value + arcs[id].cost)
    ensures var s := Lowered(st, arcs[id].to, st.dist[u].value + arcs[id].cost, id);
            && Settled(arcs, s.dist, id)
            && SettledOutside(arcs, n, s.dist, s.inQueue, u)
            && KeepsSettled(arcs, n, st.dist, s.dist, u)
  {
    var s := Lowered(st, arcs[id].to, st.dist[u].value + arcs[id].cost, id);
    forall k: nat | k < |arcs| && Tail(arcs, k) != arcs[id].to && Settled(arcs, st.dist, k)
      ensures Settled(arcs, s.dist, k)
    {
    }
  }

  lemma LoweredIsSearching(arcs: seq<Arc>, pi: seq<int>, src: nat, st: Search, stamp: seq<int>, clock: int, u: nat, id: nat)
    requires src < |pi| && Priced(arcs, |pi|, pi) && Searching(arcs, pi, src, st, stamp, clock, u)
    requires id < |arcs| && arcs[id].cap > 0 && Tail(arcs, id) == u && st.dist[u].Some?
    requires Improves(st.dist, arcs[id].to, st.dist[u].value + arcs[id].cost)
    ensures var s := Lowered(st, arcs[id].to, st.dist[u].value + arcs[id].cost, id);
            && Searching(arcs, pi, src, s, stamp[arcs[id].to := clock], clock + 1, u)
            && s.dist[u] == st.dist[u] && Settled(arcs, s.dist, id)
            && KeepsSettled(arcs, |pi|, st.dist, s.dist, u)
            && Advanced(pi, src, st.dist, s.dist)
  {
    hide Sum, GoodParent;
    var nd := st.dist[u].value + arcs[id].cost;
    RelaxKeepsTree(arcs, pi, src, st.dist, st.parentArc, stamp, clock, id);
    LoweredKeepsQueue(st, arcs[id].to, nd, id);
    LoweredSettles(arcs, |pi|, st, u, id);
    assert nd >= pi[arcs[id].to] - pi[src] by {
      assert ReducedCost(arcs, id, pi) >= 0;
    }
    RelaxDecreases(st.dist, pi, src, arcs[id].to, nd);
  }

  /** Relaxes one arc out of the node u that was just taken from the queue. */
  method Relax(net: FlowNet, st: Search, u: nat, id: nat, ghost pi: seq<int>, ghost src: nat, ghost stamp: seq<int>, ghost clock: int)
    returns (st': Search, ghost stamp': seq<int>, ghost clock': int)
    requires net.Valid() && |pi| == net.n && src < net.n && Priced(net.arcs, net.n, pi)
    requires Searching(net.arcs, pi, src, st, stamp, clock, u)
    requires id < |net.arcs| && Tail(net.arcs, id) == u && st.dist[u].Some?
    ensures Searching(net.arcs, pi, src, st', stamp', clock', u)
    ensures st'.dist[u] == st.dist[u] && Settled(net.arcs, st'.dist, id)
    ensures KeepsSettled(net.arcs, net.n, st.dist, st'.dist, u)
    ensures st' == st || Advanced(pi, src, st.dist, st'.dist)
  {
    hide Sum, SearchTree, QueueOk;
    st', stamp', clock' := st, stamp, clock;
    var a := net.arcs[id];
    if a.cap > 0 {
      var nd := st.dist[u].value + a.cost;
      if st.dist[a.to].None? || nd < st.dist[a.to].value {
        LoweredIsSearching(net.arcs, pi, src, st, stamp, clock, u, id);
        st' := Lowered(st, a.to, nd, id);
        stamp', clock' := stamp[a.to := clock], clock + 1;
      }
    }
  }

  lemma StartIsSearching(arcs: seq<Arc>, pi: seq<int>, src: nat, st: Search, stamp: seq<int>)
    requires src < |pi| && Priced(arcs, |pi|, pi)
    requires st == Search(seq(|pi|, _ => None)[src := Some(0)], seq(|pi|, _ => -1), seq(|pi|, _ => false)[src := true], [src])
    requires stamp == seq(|pi|, _ => 0)
    ensures Searching(arcs, pi, src, st, stamp, 1, -1)
  {
    assert st.queue[0] == src;
  }

  /** Label-correcting search from src: ends with every arc obeying the triangle inequality. */
  method Label(net: FlowNet, src: nat, ghost pi: seq<int>) returns (st: Search, ghost stamp: seq<int>, ghost clock: int)
    requires net.Valid() && |pi| == net.n && src < net.n && Priced(net.arcs, net.n, pi)
    ensures SearchTree(net.arcs, pi, src, st.dist, st.parentArc, stamp, clock)
    ensures forall id: nat {:trigger Settled(net.arcs, st.dist, id)} | id < |net.arcs| :: Settled(net.arcs, st.dist, id)
  {
    hide Sum, SearchTree, Settled;
    var n := net.n;
    stamp, clock := seq(n, _ => 0), 1;
    st := Search(seq(n, _ => None)[src := Some(0)], seq(n, _ => -1), seq(n, _ => false)[src := true], [src]);
    StartIsSearching(net.arcs, pi, src, st, stamp);
    while st.queue != []
      invariant Searching(net.arcs, pi, src, st, stamp, clock, -1)
      decreases Sum(Unreached(st.dist)), Sum(Slacks(st.dist, pi, src)), |st.queue|
    {
      var u := st.queue[0];
      ghost var before := st;
      st := st.(queue := st.queue[1..], inQueue := st.inQueue[u := false]);
      ghost var popped := st;
      var j := 0;
      while j < |net.adj[u]|
        invariant 0 <= j <= |net.adj[u]|
        invariant Searching(net.arcs, pi, src, st, stamp, clock, u) && st.dist[u].Some?
        invariant forall k | 0 <= k < j :: Settled(net.arcs, st.dist, net.adj[u][k])
        invariant st == popped || Advanced(pi, src, before.dist, st.dist)
      {
        st, stamp, clock := Relax(net, st, u, net.adj[u][j], pi, src, stamp, clock);
        j := j + 1;
      }
      forall id: nat | id < |net.arcs| && Tail(net.arcs, id) == u
        ensures Settled(net.arcs, st.dist, id)
      {
        assert id in net.adj[u];
      }
    }
  }

  /** Stepping from v to a predecessor u keeps u before every node already on the path, and v is new. */
  lemma StepBack(arcs: seq<Arc>, pi: seq<int>, dist: seq<Option<int>>, stamp: seq<int>, path: seq<nat>, v: nat, u: nat)
    requires |arcs| % 2 == 0 && |dist| == |stamp| == |pi| && v < |pi| && u < |pi|
    requires dist[u].Some? && dist[v].Some? && Precedes(pi, dist, stamp, u, v)
    requires forall k | 0 <= k < |path| ::
               path[k] < |arcs| && arcs[path[k]].to < |pi| && dist[arcs[path[k]].to].Some?
               && Precedes(pi, dist, stamp, v, arcs[path[k]].to)
    ensures forall k | 0 <= k < |path| :: Precedes(pi, dist, stamp, u, arcs[path[k]].to) && arcs[path[k]].to != v
  {
  }

  /** One step from a reached node to its parent, once every arc is settled. */
  lemma ParentStep(arcs: seq<Arc>, pi: seq<int>, src: nat, dst: nat,
                   dist: seq<Option<int>>, parent: seq<int>, stamp: seq<int>, clock: int, v: nat)
    requires Priced(arcs, |pi|, pi) && src < |pi| && dst < |pi| && v < |pi| && v != src
    requires SearchTree(arcs, pi, src, dist, parent, stamp, clock)
    requires forall id: nat {:trigger Settled(arcs, dist, id)} | id < |arcs| :: Settled(arcs, dist, id)
    requires dist[v].Some? && dist[dst].Some? && (v == dst || Precedes(pi, dist, stamp, v, dst))
    ensures 0 <= parent[v] < |arcs| && arcs[parent[v]].to == v && arcs[parent[v]].cap > 0
    ensures var u := Tail(arcs, parent[v]);
            && u < |pi| && dist[u].Some? && Precedes(pi, dist, stamp, u, v) && Precedes(pi, dist, stamp, u, dst)
            && dist[u].value - pi[u] + pi[src] >= 0
            && (dist[u].value - pi[u] < dist[v].value - pi[v]
                || (dist[u].value - pi[u] == dist[v].value - pi[v] && stamp[u] < stamp[v]))
            && ReducedCost(arcs, parent[v], NewPrices(pi, dist, src, dst)) == 0
  {
    assert GoodParent(arcs, pi, dist, parent[v], stamp, v);
    assert Settled(arcs, dist, parent[v]);
  }

  /** The parent pointers, followed back from dst, spell a walk from src whose arcs are distinct and tight. */
  method TracePath(net: FlowNet, src: nat, dst: nat, st: Search, ghost pi: seq<int>, ghost stamp: seq<int>, ghost clock: int)
    returns (path: seq<nat>)
    requires net.Valid() && |pi| == net.n && src < net.n && dst < net.n && src != dst && Priced(net.arcs, net.n, pi)
    requires SearchTree(net.arcs, pi, src, st.dist, st.parentArc, stamp, clock)
    requires forall id: nat {:trigger Settled(net.arcs, st.dist, id)} | id < |net.arcs| :: Settled(net.arcs, st.dist, id)
    requires st.parentArc[dst] >= 0
    ensures path != [] && IsWalk(net.arcs, path, src, dst) && Distinct(path)
    ensures st.dist[dst].Some? && Tight(net.arcs, net.n, NewPrices(pi, st.dist, src, dst), path)
  {
    hide GoodParent, CappedSlack, ReducedCost, Settled, Precedes, Reverse;
    path := [];
    ghost var pi' := NewPrices(pi, st.dist, src, dst);
    NewPricesArePrices(net.arcs, pi, st.dist, src, dst);
    ghost var walk: seq<nat> := [];
    var v: nat := dst;
    while v != src
      invariant v < net.n && st.dist[v].Some?
      invariant v == dst || (path != [] && Precedes(pi, st.dist, stamp, v, dst))
      invariant walk == Reverse(path) && IsWalk(net.arcs, walk, v, dst)
      invariant forall k | 0 <= k < |path| :: path[k] < |net.arcs| && st.dist[net.arcs[path[k]].to].Some?
      invariant forall k | 0 <= k < |path| :: Precedes(pi, st.dist, stamp, v, net.arcs[path[k]].to)
      invariant forall k | 0 <= k < |path| :: ReducedCost(net.arcs, path[k], pi') == 0
      invariant Distinct(path)
      decreases st.dist[v].value - pi[v] + pi[src], stamp[v]
    {
      ParentStep(net.arcs, pi, src, dst, st.dist, st.parentArc, stamp, clock, v);
      var id := st.parentArc[v];
      StepBack(net.arcs, pi, st.dist, stamp, path, v, Tail(net.arcs, id));
      ReverseAppend(path, id);
      path := path + [id];
      walk := [id] + walk;
      v := Tail(net.arcs, id);
    }
    TightReversed(net.arcs, net.n, pi', path);
    path := Reverse(path);
  }

  lemma TightReversed(arcs: seq<Arc>, n: nat, pi: seq<int>, path: seq<nat>)
    requires Tight(arcs, n, pi, path) && Distinct(path)
    ensures Tight(arcs, n, pi, Reverse(path)) && Distinct(Reverse(path))
  {
  }

  lemma {:induction false} ReverseAppend(s: seq<nat>, x: nat)
    ensures Reverse(s + [x]) == [x] + Reverse(s)
  {
    assert |Reverse(s + [x])| == |s| + 1;
  }

  /** Shortest augmenting path from src to dst, empty when there is none. */
  method SpfaPath(net: FlowNet, src: nat, dst: nat) returns (path: seq<nat>)
    requires net.Valid() && src < net.n && dst < net.n && src != dst
    requires Priceable(net.arcs, net.n)
    ensures path == [] ==> exists R :: Separates(net.arcs, R, src, dst)
    ensures path == [] ==> forall w :: !IsWalk(net.arcs, w, src, dst)
    ensures path != [] ==> IsWalk(net.arcs, path, src, dst) && Distinct(path)
    ensures path != [] ==> exists pi :: Tight(net.arcs, net.n, pi, path)
    ensures path != [] ==> forall w | IsWalk(net.arcs, w, src, dst) :: WalkCost(net.arcs, path) <= WalkCost(net.arcs, w)
  {
    ghost var pi :| Priced(net.arcs, net.n, pi);
    var st, stamp, clock := Label(net, src, pi);
    if st.parentArc[dst] < 0 {
      path := [];
      ghost var R := set v: nat | v < net.n && st.dist[v].Some?;
      forall id: nat | id < |net.arcs| && net.arcs[id].cap > 0 && Tail(net.arcs, id) in R
        ensures net.arcs[id].to in R
      {
        assert Settled(net.arcs, st.dist, id);
      }
      assert Separates(net.arcs, R, src, dst);
      forall w ensures !IsWalk(net.arcs, w, src, dst) {
        SeparatedMeansNoWalk(net.arcs, R, src, dst, w);
      }
    } else {
      path := TracePath(net, src, dst, st, pi, stamp, clock);
      ghost var pi' := NewPrices(pi, st.dist, src, dst);
      TightWalkCost(net.arcs, net.n, pi', path, src, dst);
      forall w | IsWalk(net.arcs, w, src, dst)
        ensures WalkCost(net.arcs, path) <= WalkCost(net.arcs, w)
      {
        WalkCostBound(net.arcs, net.n, pi', w, src, dst);
      }
    }
  }

  // ---------------------------------------------------------------------
  // successive shortest paths
  // ---------------------------------------------------------------------

  /** Pushing b units over arc id: its room shrinks, its twin's grows. */
  function Pushed(arcs: seq<Arc>, id: nat, b: int): seq<Arc>
    requires |arcs| % 2 == 0 && id < |arcs|
  {
    arcs[id := arcs[id].(cap := arcs[id].cap - b)][Twin(id) := arcs[Twin(id)].(cap := arcs[Twin(id)].cap + b)]
  }

  ghost predicate SameShape(arcs: seq<Arc>, arcs': seq<Arc>)
    requires |arcs| % 2 == 0
  {
    && |arcs'| == |arcs|
    && (forall x: nat | x < |arcs| :: arcs'[x].to == arcs[x].to)
    && (forall x: nat | x < |arcs| :: arcs'[x].cost == arcs[x].cost)
  }

  lemma SameShapeKeeps(arcs: seq<Arc>, arcs': seq<Arc>, adj: seq<seq<nat>>, n: nat)
    requires Paired(arcs, n) && SameShape(arcs, arcs') && forall x: nat | x < |arcs'| :: arcs'[x].cap >= 0
    ensures Paired(arcs', n) && forall x: nat {:trigger Tail(arcs', x)} | x < |arcs| :: Tail(arcs', x) == Tail(arcs, x)
    ensures Adjacency(arcs, adj, n) ==> Adjacency(arcs', adj, n)
  {
    forall x: nat | x < |arcs| ensures OppositeCost(arcs', x) {
      assert OppositeCost(arcs, x);
    }
    forall x: nat | x < |arcs| ensures Tail(arcs', x) == Tail(arcs, x) {
    }
  }

  lemma PushedKeepsNetwork(arcs: seq<Arc>, n: nat, id: nat, b: int)
    requires Paired(arcs, n) && id < |arcs| && 0 <= b <= arcs[id].cap
    ensures SameShape(arcs, Pushed(arcs, id, b)) && forall x: nat | x < |arcs| :: Pushed(arcs, id, b)[x].cap >= 0
    ensures EdgesOf(Pushed(arcs, id, b)) == EdgesOf(arcs)
  {
    var arcs' := Pushed(arcs, id, b);
    forall k | 0 <= k < |arcs| / 2
      ensures EdgesOf(arcs')[k] == EdgesOf(arcs)[k]
    {
      assert id == 2 * k || id == 2 * k + 1 || (id != 2 * k && id != 2 * k + 1);
    }
  }

  /** A push moves b units of net outflow from the head of the arc to its tail. */
  lemma PushedNetOut(arcs: seq<Arc>, n: nat, id: nat, b: int, v: nat)
    requires Paired(arcs, n) && id < |arcs| && 0 <= b <= arcs[id].cap
    requires EdgesOf(Pushed(arcs, id, b)) == EdgesOf(arcs)
    ensures NetOut(EdgesOf(arcs), FlowOf(Pushed(arcs, id, b)), v) ==
            NetOut(EdgesOf(arcs), FlowOf(arcs), v)
            + (if Tail(arcs, id) == v then b else 0) - (if arcs[id].to == v then b else 0)
  {
    var k := id / 2;
    var es, f, f' := EdgesOf(arcs), FlowOf(arcs), FlowOf(Pushed(arcs, id, b));
    var moved := if id % 2 == 0 then b else -b;
    assert f' == f[k := f[k] + moved] by {
      forall j | 0 <= j < |f| ensures f'[j] == f[k := f[k] + moved][j] {
        assert id == 2 * j || id == 2 * j + 1 || j != k;
      }
    }
    assert OutTerms(es, f', v) == OutTerms(es, f, v)[k := OutTerm(es[k], f[k] + moved, v)];
    SumUpdate(OutTerms(es, f, v), k, OutTerm(es[k], f[k] + moved, v));
    assert id == 2 * k || id == 2 * k + 1;
  }

  /** f' sends b more units from u to v than f does, and changes no other node's balance. */
  ghost predicate Moved(es: seq<Edge>, f: seq<int>, f': seq<int>, u: nat, v: nat, b: int) {
    && |f| == |f'| == |es|
    && forall x: nat :: NetOut(es, f', x) == NetOut(es, f, x) + (if x == u then b else 0) - (if x == v then b else 0)
  }

  lemma MovedNowhere(es: seq<Edge>, f: seq<int>, u: nat, b: int)
    requires |f| == |es|
    ensures Moved(es, f, f, u, u, b)
  {
  }

  lemma MovedOnward(es: seq<Edge>, f: seq<int>, g: seq<int>, h: seq<int>, u: nat, v: nat, w: nat, b: int)
    requires Moved(es, f, g, u, v, b) && Moved(es, g, h, v, w, b)
    ensures Moved(es, f, h, u, w, b)
  {
    hide NetOut;
  }

  lemma PushedMoves(arcs: seq<Arc>, n: nat, id: nat, b: int)
    requires Paired(arcs, n) && id < |arcs| && 0 <= b <= arcs[id].cap
    requires EdgesOf(Pushed(arcs, id, b)) == EdgesOf(arcs)
    ensures Moved(EdgesOf(arcs), FlowOf(arcs), FlowOf(Pushed(arcs, id, b)), Tail(arcs, id), arcs[id].to, b)
  {
    forall v: nat {
      PushedNetOut(arcs, n, id, b, v);
    }
  }

  lemma PushedKeepsPrices(arcs: seq<Arc>, n: nat, pi: seq<int>, id: nat, b: int)
    requires Priced(arcs, n, pi) && id < |arcs| && 0 <= b <= arcs[id].cap
    requires Paired(Pushed(arcs, id, b), n)
    requires ReducedCost(arcs, id, pi) == 0
    ensures Priced(Pushed(arcs, id, b), n, pi)
    ensures forall x: nat {:trigger ReducedCost(Pushed(arcs, id, b), x, pi)} | x < |arcs| ::
              ReducedCost(Pushed(arcs, id, b), x, pi) == ReducedCost(arcs, x, pi)
  {
    var arcs' := Pushed(arcs, id, b);
    forall x: nat | x < |arcs|
      ensures ReducedCost(arcs', x, pi) == ReducedCost(arcs, x, pi)
      ensures arcs'[x].cap > 0 ==> ReducedCost(arcs', x, pi) >= 0
    {
      if x == Twin(id) {
        assert OppositeCost(arcs, id);
      }
    }
  }

  /** What the source sends is bounded by the capacities. */
  lemma OutflowBound(es: seq<Edge>, f: seq<int>, v: nat)
    requires WithinCaps(es, f)
    ensures NetOut(es, f, v) <= Sum(Caps(es))
  {
    SumAtMost(OutTerms(es, f, v), Caps(es));
  }

  ghost function Caps(es: seq<Edge>): (r: seq<int>)
    ensures |r| == |es| && forall k | 0 <= k < |es| :: r[k] == es[k].cap
  {
    seq(|es|, k requires 0 <= k < |es| => es[k].cap)
  }

  /** The least room on the path. */
  method Bottleneck(net: FlowNet, path: seq<nat>) returns (b: int)
    requires path != [] && forall k | 0 <= k < |path| :: path[k] < |net.arcs|
    ensures forall k | 0 <= k < |path| :: b <= net.arcs[path[k]].cap
    ensures exists k :: 0 <= k < |path| && b == net.arcs[path[k]].cap
  {
    b := net.arcs[path[0]].cap;
    for i := 1 to |path|
      invariant forall k | 0 <= k < i :: b <= net.arcs[path[k]].cap
      invariant exists k :: 0 <= k < i && b == net.arcs[path[k]].cap
    {
      if net.arcs[path[i]].cap < b {
        b := net.arcs[path[i]].cap;
      }
    }
  }

  /** Pushes b units along a tight path: the net outflow moves from dst to src and prices survive. */
  method Augment(net: FlowNet, path: seq<nat>, src: nat, dst: nat, b: int, ghost pi: seq<int>)
    requires net.Valid() && src < net.n && IsWalk(net.arcs, path, src, dst) && Distinct(path)
    requires Tight(net.arcs, net.n, pi, path) && b > 0
    requires forall k | 0 <= k < |path| :: b <= net.arcs[path[k]].cap
    modifies net`arcs
    ensures net.Valid() && Priced(net.arcs, net.n, pi) && |net.arcs| == |old(net.arcs)|
    ensures EdgesOf(net.arcs) == old(EdgesOf(net.arcs))
    ensures Moved(EdgesOf(net.arcs), old(FlowOf(net.arcs)), FlowOf(net.arcs), src, dst, b)
  {
    hide Moved, ReducedCost;
    ghost var start := net.arcs;
    assert Moved(EdgesOf(start), FlowOf(start), FlowOf(start), src, src, b) by {
      MovedNowhere(EdgesOf(start), FlowOf(start), src, b);
    }
    ghost var cur := src;
    assert path[0..] == path;
    for i := 0 to |path|
      invariant net.Valid() && Priced(net.arcs, net.n, pi) && |net.arcs| == |start|
      invariant EdgesOf(net.arcs) == EdgesOf(start)
      invariant SameShape(start, net.arcs)
      invariant IsWalk(start, path[i..], cur, dst)
      invariant forall k | i <= k < |path| :: b <= net.arcs[path[k]].cap && ReducedCost(net.arcs, path[k], pi) == 0
      invariant Moved(EdgesOf(start), FlowOf(start), FlowOf(net.arcs), src, cur, b)
    {
      var id := path[i];
      assert path[i..][0] == id && path[i..][1..] == path[i + 1..];
      PushedKeepsNetwork(net.arcs, net.n, id, b);
      SameShapeKeeps(net.arcs, Pushed(net.arcs, id, b), net.adj, net.n);
      SameShapeKeeps(start, net.arcs, net.adj, net.n);
      PushedKeepsPrices(net.arcs, net.n, pi, id, b);
      PushedMoves(net.arcs, net.n, id, b);
      MovedOnward(EdgesOf(start), FlowOf(start), FlowOf(net.arcs), FlowOf(Pushed(net.arcs, id, b)), src, cur, start[id].to, b);
      net.arcs := Pushed(net.arcs, id, b);
      cur := start[id].to;
    }
  }

  /** f is a flow of maximum value, and the cheapest of those. */
  ghost predicate MinCostMaxFlow(es: seq<Edge>, f: seq<int>, n: nat, s: nat, t: nat) {
    && IsFlow(es, f, n, s, t)
    && forall g | IsFlow(es, g, n, s, t) ::
         && NetOut(es, g, s) <= NetOut(es, f, s)
         && (NetOut(es, g, s) == NetOut(es, f, s) ==> Cost(es, f) <= Cost(es, g))
  }

  lemma NetworkOf(arcs: seq<Arc>, n: nat)
    requires Paired(arcs, n)
    ensures Network(EdgesOf(arcs), n) && WithinCaps(EdgesOf(arcs), FlowOf(arcs))
  {
  }

  /** A priced, saturated residual network carries a min-cost max-flow. */
  lemma CertifiedFlow(arcs: seq<Arc>, n: nat, s: nat, t: nat, R: set<nat>)
    requires s < n && t < n && s != t && Priceable(arcs, n) && Separates(arcs, R, s, t)
    requires IsFlow(EdgesOf(arcs), FlowOf(arcs), n, s, t)
    ensures MinCostMaxFlow(EdgesOf(arcs), FlowOf(arcs), n, s, t)
  {
    var es, f := EdgesOf(arcs), FlowOf(arcs);
    NetworkOf(arcs, n);
    var pi :| Priced(arcs, n, pi);
    forall k | 0 <= k < |es|
      ensures f[k] < es[k].cap ==> es[k].cost + pi[es[k].tail] - pi[es[k].head] >= 0
      ensures f[k] > 0 ==> es[k].cost + pi[es[k].tail] - pi[es[k].head] <= 0
      ensures f[k] < es[k].cap && es[k].tail in R ==> es[k].head in R
      ensures f[k] > 0 && es[k].head in R ==> es[k].tail in R
    {
      assert arcs[2 * k].cap > 0 ==> ReducedCost(arcs, 2 * k, pi) >= 0;
      assert arcs[2 * k + 1].cap > 0 ==> ReducedCost(arcs, 2 * k + 1, pi) >= 0;
      assert OppositeCost(arcs, 2 * k);
      assert Tail(arcs, 2 * k) == es[k].tail && Tail(arcs, 2 * k + 1) == es[k].head;
    }
    forall g | IsFlow(es, g, n, s, t)
      ensures NetOut(es, g, s) <= NetOut(es, f, s)
      ensures NetOut(es, g, s) == NetOut(es, f, s) ==> Cost(es, f) <= Cost(es, g)
    {
      ClosedCutIsMaximal(es, f, g, n, s, t, R);
      if NetOut(es, g, s) == NetOut(es, f, s) {
        CertifiedIsCheapest(es, f, g, pi, s, t);
      }
    }
  }

  /** Successive shortest paths: from any priced flow to a min-cost max-flow on the same network. */
  method ShipAll(net: FlowNet, src: nat, dst: nat)
    requires net.Valid() && src < net.n && dst < net.n && src != dst
    requires Priceable(net.arcs, net.n)
    requires IsFlow(EdgesOf(net.arcs), FlowOf(net.arcs), net.n, src, dst)
    modifies net`arcs
    ensures net.Valid() && EdgesOf(net.arcs) == old(EdgesOf(net.arcs))
    ensures MinCostMaxFlow(EdgesOf(net.arcs), FlowOf(net.arcs), net.n, src, dst)
  {
    hide NetOut, MinCostMaxFlow, Sum;
    var path := SpfaPath(net, src, dst);
    ghost var es := EdgesOf(net.arcs);
    NetworkOf(net.arcs, net.n);
    OutflowBound(es, FlowOf(net.arcs), src);
    while path != []
      invariant net.Valid() && EdgesOf(net.arcs) == es && |net.arcs| == |old(net.arcs)|
      invariant Priceable(net.arcs, net.n)
      invariant IsFlow(es, FlowOf(net.arcs), net.n, src, dst)
      invariant NetOut(es, FlowOf(net.arcs), src) <= Sum(Caps(es))
      invariant path == [] ==> exists R :: Separates(net.arcs, R, src, dst)
      invariant path != [] ==> IsWalk(net.arcs, path, src, dst) && Distinct(path)
      invariant path != [] ==> exists pi :: Tight(net.arcs, net.n, pi, path)
      decreases Sum(Caps(es)) - NetOut(es, FlowOf(net.arcs), src)
    {
      WalkInRange(net.arcs, path, src, dst);
      var bottleneck := Bottleneck(net, path);
      ghost var pi :| Tight(net.arcs, net.n, pi, path);
      Augment(net, path, src, dst, bottleneck, pi);
      NetworkOf(net.arcs, net.n);
      OutflowBound(es, FlowOf(net.arcs), src);
      path := SpfaPath(net, src, dst);
    }
    ghost var R :| Separates(net.arcs, R, src, dst);
    CertifiedFlow(net.arcs, net.n, src, dst, R);
  }
}
