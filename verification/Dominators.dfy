/** Loop nesting of a control-flow graph: reachability, dominators by iteration, loop bodies from backedges. */
module Dominators {

  /** Blocks are numbered, the entry is block 0; each edge is recorded at both ends. */
  datatype Cfg = Cfg(succs: seq<seq<nat>>, preds: seq<seq<nat>>)

  ghost predicate CfgOk(g: Cfg) {
    && |g.succs| == |g.preds| > 0
    && (forall a: nat, b: nat | Edge(g, a, b) :: b < |g.succs| && Back(g, a, b))
    && (forall a: nat, b: nat | Back(g, a, b) :: a < |g.succs| && Edge(g, a, b))
  }

  ghost predicate Edge(g: Cfg, a: nat, b: nat) {
    a < |g.succs| && b in g.succs[a]
  }

  /** The edge as recorded at its target. */
  ghost predicate Back(g: Cfg, a: nat, b: nat) {
    b < |g.preds| && a in g.preds[b]
  }

  ghost predicate IsPath(g: Cfg, path: seq<nat>, a: nat, b: nat) {
    && path != [] && path[0] == a && path[|path| - 1] == b && (forall i | 0 <= i < |path| :: path[i] < |g.succs|)
    && forall i | 0 <= i < |path| - 1 :: Edge(g, path[i], path[i + 1])
  }

  ghost predicate Reachable(g: Cfg, b: nat) {
    exists path :: IsPath(g, path, 0, b)
  }

  /** Every way from the entry to b passes through k. */
  ghost predicate Dominates(g: Cfg, k: nat, b: nat) {
    forall path | IsPath(g, path, 0, b) :: k in path
  }

  lemma PathGrows(g: Cfg, path: seq<nat>, a: nat, b: nat, c: nat)
    requires CfgOk(g) && IsPath(g, path, a, b) && Edge(g, b, c)
    ensures IsPath(g, path + [c], a, c)
  {
    var more := path + [c];
    forall i | 0 <= i < |more| - 1 ensures Edge(g, more[i], more[i + 1]) {
      if i < |path| - 1 {
        assert Edge(g, path[i], path[i + 1]);
      } else {
        assert more[i] == b && more[i + 1] == c;
      }
    }
  }

  lemma PathShrinks(g: Cfg, path: seq<nat>, a: nat, b: nat)
    requires IsPath(g, path, a, b) && |path| > 1
    ensures IsPath(g, path[..|path| - 1], a, path[|path| - 2]) && Edge(g, path[|path| - 2], b)
  {
    var less := path[..|path| - 1];
    forall i | 0 <= i < |less| - 1 ensures Edge(g, less[i], less[i + 1]) {
      assert Edge(g, path[i], path[i + 1]);
    }
    assert Edge(g, path[|path| - 2], path[|path| - 1]);
  }

  // ---------------------------------------------------------------------
  // reachability
  // ---------------------------------------------------------------------

  ghost function Blocks(g: Cfg): (r: set<nat>)
    ensures forall b: nat :: b in r <==> b < |g.succs|
  {
    UpTo(|g.succs|)
  }

  ghost function UpTo(n: nat): (r: set<nat>)
    ensures forall b: nat :: b in r <==> b < n
    ensures |r| == n
  {
    if n == 0 then {} else UpTo(n - 1) + {n - 1}
  }

  /** Everything marked is reachable; what a marked block leads to is marked, or the block is still to be visited. */
  ghost predicate Marking(g: Cfg, reach: set<nat>, work: seq<nat>) {
    && 0 in reach && (forall b | b in reach :: b < |g.succs| && Reachable(g, b)) && (forall b | b in work :: b in reach)
    && forall b, s | b in reach && b !in work && Edge(g, b, s) :: s in reach
  }

  lemma {:induction false} MarkingComplete(g: Cfg, reach: set<nat>, path: seq<nat>, b: nat)
    requires Marking(g, reach, []) && IsPath(g, path, 0, b)
    ensures b in reach
    decreases |path|
  {
    if |path| > 1 {
      PathShrinks(g, path, 0, b);
      MarkingComplete(g, reach, path[..|path| - 1], path[|path| - 2]);
    }
  }

  /** As Marking, with block b being visited: its first j edges are done. */
  ghost predicate Visiting(g: Cfg, reach: set<nat>, work: seq<nat>, b: nat, j: nat) {
    && 0 in reach && b in reach && (forall c | c in reach :: c < |g.succs| && Reachable(g, c)) && (forall c | c in work :: c in reach)
    && (forall c, s | c in reach && c !in work && c != b && Edge(g, c, s) :: s in reach)
    && b < |g.succs| && forall i | 0 <= i < j && i < |g.succs[b]| :: g.succs[b][i] in reach
  }

  lemma VisitMarks(g: Cfg, reach: set<nat>, work: seq<nat>, b: nat, j: nat)
    requires CfgOk(g) && Visiting(g, reach, work, b, j) && j < |g.succs[b]| && g.succs[b][j] !in reach
    ensures Visiting(g, reach + {g.succs[b][j]}, work + [g.succs[b][j]], b, j + 1)
  {
    var s := g.succs[b][j];
    assert Edge(g, b, s);
    var path :| IsPath(g, path, 0, b);
    PathGrows(g, path, 0, b, s);
  }

  /** Marks the successors of a block taken from the work list. */
  method Visit(g: Cfg, b: nat, reach0: set<nat>, work0: seq<nat>) returns (reach: set<nat>, work: seq<nat>)
    requires CfgOk(g) && Marking(g, reach0, work0 + [b])
    ensures Marking(g, reach, work) && reach0 <= reach && (reach == reach0 ==> work == work0)
  {
    reach, work := reach0, work0;
    var j := 0;
    assert Visiting(g, reach, work, b, 0) by {
      assert b in work0 + [b];
      assert forall c | c in work0 :: c in work0 + [b];
    }
    hide Visiting;
    while j < Degree(g, b)
      invariant 0 <= j <= Degree(g, b) && b < |g.succs| && Visiting(g, reach, work, b, j)
      invariant reach0 <= reach && (reach == reach0 ==> work == work0)
    {
      var s := g.succs[b][j];
      if s !in reach {
        VisitMarks(g, reach, work, b, j);
        reach := reach + {s};
        work := work + [s];
      } else {
        VisitSkips(g, reach, work, b, j);
      }
      j := j + 1;
    }
    VisitDone(g, reach, work, b, j);
  }

  function Degree(g: Cfg, b: nat): nat {
    if b < |g.succs| then |g.succs[b]| else 0
  }

  lemma VisitSkips(g: Cfg, reach: set<nat>, work: seq<nat>, b: nat, j: nat)
    requires Visiting(g, reach, work, b, j) && j < |g.succs[b]| && g.succs[b][j] in reach
    ensures Visiting(g, reach, work, b, j + 1)
  {
  }

  lemma VisitDone(g: Cfg, reach: set<nat>, work: seq<nat>, b: nat, j: nat)
    requires Visiting(g, reach, work, b, j) && j == Degree(g, b)
    ensures Marking(g, reach, work)
  {
  }

  method Reach(g: Cfg) returns (reach: set<nat>)
    requires CfgOk(g)
    ensures forall b: nat :: b in reach <==> Reachable(g, b)
  {
    var work: seq<nat> := [0];
    reach := {0};
    assert IsPath(g, [0], 0, 0);
    while work != []
      invariant Marking(g, reach, work)
      decreases |Blocks(g) - reach|, |work|
    {
      var b := work[|work| - 1];
      assert work == work[..|work| - 1] + [b];
      ghost var before := reach;
      reach, work := Visit(g, b, reach, work[..|work| - 1]);
      FewerLeft(g, before, reach);
    }
    forall b: nat | Reachable(g, b) ensures b in reach {
      var path :| IsPath(g, path, 0, b);
      MarkingComplete(g, reach, path, b);
    }
  }

  lemma FewerLeft(g: Cfg, before: set<nat>, reach: set<nat>)
    requires before <= reach && forall b | b in reach :: b < |g.succs|
    ensures |Blocks(g) - reach| <= |Blocks(g) - before|
    ensures reach != before ==> |Blocks(g) - reach| < |Blocks(g) - before|
  {
    var all := Blocks(g);
    assert all - before == (all - reach) + (reach - before);
    if reach != before {
      assert reach - before != {};
    }
  }

  // ---------------------------------------------------------------------
  // dominators
  // ---------------------------------------------------------------------

  /** What all reachable predecessors have, among the first n of them. */
  function Meet(dom: seq<set<nat>>, preds: seq<nat>, reach: set<nat>, all: set<nat>): (r: set<nat>)
    requires forall p: nat | p in preds :: p < |dom|
    ensures forall k :: k in r <==> k in all && forall p: nat | p in preds && p in reach :: k in dom[p]
  {
    if preds == [] then all
    else
      assert preds == [preds[0]] + preds[1..];
      assert preds[0] in preds && forall p: nat | p in preds[1..] :: p in preds;
      var rest := Meet(dom, preds[1..], reach, all);
      if preds[0] in reach then rest * dom[preds[0]] else rest
  }

  /** The sets hold every dominator, and still hold what their equations give. */
  ghost predicate Shrinking(g: Cfg, reach: set<nat>, dom: seq<set<nat>>) {
    && CfgOk(g) && |dom| == |g.succs| && (forall b: nat | b < |dom| :: dom[b] <= Blocks(g))
    && forall b: nat | b in reach && b < |dom| :: ShrinkingAt(g, reach, dom, b)
  }

  ghost predicate ShrinkingAt(g: Cfg, reach: set<nat>, dom: seq<set<nat>>, b: nat)
    requires CfgOk(g) && |dom| == |g.succs| && b < |dom|
  {
    && (forall k: nat | k < |dom| && Dominates(g, k, b) :: k in dom[b])
    && (if b == 0 then dom[b] == {0} else NewSet(g, reach, dom, b) <= dom[b])
  }

  lemma PredsBelow(g: Cfg, b: nat)
    requires CfgOk(g) && b < |g.preds|
    ensures forall p: nat | p in g.preds[b] :: p < |g.succs| && Edge(g, p, b)
  {
    forall p: nat | p in g.preds[b] ensures p < |g.succs| && Edge(g, p, b) {
      assert Back(g, p, b);
    }
  }

  /** b itself, and what all its reachable predecessors share. */
  ghost function NewSet(g: Cfg, reach: set<nat>, dom: seq<set<nat>>, b: nat): set<nat>
    requires CfgOk(g) && |dom| == |g.succs| && b < |dom|
  {
    PredsBelow(g, b);
    Meet(dom, g.preds[b], reach, Blocks(g)) + {b}
  }

  /** A dominator of b other than b dominates every reachable predecessor. */
  lemma DominatesPred(g: Cfg, k: nat, b: nat, p: nat)
    requires CfgOk(g) && Dominates(g, k, b) && k != b && Edge(g, p, b)
    ensures Dominates(g, k, p)
  {
    forall path | IsPath(g, path, 0, p) ensures k in path {
      PathGrows(g, path, 0, p, b);
      assert k in path + [b];
    }
  }

  /** One update: nothing grows, no dominator is lost, everything stays above its equation. */
  lemma UpdateShrinks(g: Cfg, reach: set<nat>, dom: seq<set<nat>>, b: nat)
    requires Shrinking(g, reach, dom) && b in reach && 0 < b < |dom|
    ensures NewSet(g, reach, dom, b) <= dom[b] && Shrinking(g, reach, dom[b := NewSet(g, reach, dom, b)])
  {
    var nd := NewSet(g, reach, dom, b);
    var dom' := dom[b := nd];
    assert ShrinkingAt(g, reach, dom, b);
    forall k: nat | k < |dom| && Dominates(g, k, b) ensures k in nd {
      KeptByUpdate(g, reach, dom, b, k);
    }
    forall c: nat | c in reach && c < |dom'| ensures ShrinkingAt(g, reach, dom', c) {
      assert ShrinkingAt(g, reach, dom, c);
      if c != 0 {
        NewSetFalls(g, reach, dom, b, nd, c);
      }
    }
  }

  lemma KeptByUpdate(g: Cfg, reach: set<nat>, dom: seq<set<nat>>, b: nat, k: nat)
    requires Shrinking(g, reach, dom) && b in reach && b < |dom| && k < |dom| && Dominates(g, k, b)
    ensures k in NewSet(g, reach, dom, b)
  {
    PredsBelow(g, b);
    if k != b {
      forall p: nat | p in g.preds[b] && p in reach ensures k in dom[p] {
        DominatesPred(g, k, b, p);
        assert ShrinkingAt(g, reach, dom, p);
      }
    }
  }

  /** Smaller sets give smaller sets. */
  lemma NewSetFalls(g: Cfg, reach: set<nat>, dom: seq<set<nat>>, b: nat, nd: set<nat>, c: nat)
    requires CfgOk(g) && |dom| == |g.succs| && b < |dom| && c < |dom| && nd <= dom[b]
    ensures NewSet(g, reach, dom[b := nd], c) <= NewSet(g, reach, dom, c)
  {
    PredsBelow(g, c);
  }

  /** Every set meets its equation. */
  ghost predicate DomSolved(g: Cfg, reach: set<nat>, dom: seq<set<nat>>) {
    && CfgOk(g) && |dom| == |g.succs|
    && forall b: nat | b in reach && 0 < b < |dom| :: dom[b] == NewSet(g, reach, dom, b)
  }

  /** A solution holds only dominators: along any path the set can only lose what the path has passed. */
  lemma {:induction false} SolvedOnlyDominators(g: Cfg, reach: set<nat>, dom: seq<set<nat>>, k: nat, b: nat, path: seq<nat>)
    requires DomSolved(g, reach, dom) && (forall c: nat :: c in reach <==> Reachable(g, c)) && dom[0] == {0}
    requires IsPath(g, path, 0, b) && k in dom[b]
    ensures k in path
    decreases |path|
  {
    if b != 0 && k != b {
      PathShrinks(g, path, 0, b);
      var p := path[|path| - 2];
      assert p in reach && b in reach && p in g.preds[b];
      assert k in NewSet(g, reach, dom, b);
      SolvedOnlyDominators(g, reach, dom, k, p, path[..|path| - 1]);
    }
  }

  ghost function Size(dom: seq<set<nat>>): nat {
    if dom == [] then 0 else Size(dom[..|dom| - 1]) + |dom[|dom| - 1]|
  }

  lemma {:induction false} SizeUpdate(dom: seq<set<nat>>, b: nat, s: set<nat>)
    requires b < |dom|
    ensures Size(dom[b := s]) + |dom[b]| == Size(dom) + |s|
  {
    var m := |dom| - 1;
    if b == m {
      assert dom[b := s][..m] == dom[..m];
    } else {
      assert dom[b := s][..m] == dom[..m][b := s];
      SizeUpdate(dom[..m], b, s);
    }
  }

  lemma ProperSubset(a: set<nat>, b: set<nat>)
    requires a <= b && a != b
    ensures |a| < |b|
  {
    assert b == a + (b - a);
    assert b - a != {};
  }

  /** One sweep over the blocks but the entry. */
  method Sweep(g: Cfg, reach: set<nat>, dom0: seq<set<nat>>, all: set<nat>) returns (dom: seq<set<nat>>, changed: bool)
    requires Shrinking(g, reach, dom0) && all == Blocks(g)
    ensures Shrinking(g, reach, dom) && |dom| == |dom0| && forall b: nat | b < |dom| && b !in reach :: dom[b] == dom0[b]
    ensures changed ==> Size(dom) < Size(dom0)
    ensures !changed ==> dom == dom0 && DomSolved(g, reach, dom)
  {
    hide ShrinkingAt, Meet, Size;
    dom, changed := dom0, false;
    for b := 1 to |g.succs|
      invariant Shrinking(g, reach, dom) && |dom| == |dom0| && (forall c: nat | c < |dom| && c !in reach :: dom[c] == dom0[c])
      invariant if changed then Size(dom) < Size(dom0) else dom == dom0
      invariant !changed ==> forall c: nat | c in reach && 0 < c < b :: dom[c] == NewSet(g, reach, dom, c)
    {
      if b in reach {
        PredsBelow(g, b);
        var nd := Meet(dom, g.preds[b], reach, all) + {b};
        UpdateShrinks(g, reach, dom, b);
        if nd != dom[b] {
          ProperSubset(nd, dom[b]);
          SizeUpdate(dom, b, nd);
          dom := dom[b := nd];
          changed := true;
        }
      }
    }
  }

  /** Iterates sweeps until nothing changes: for reachable blocks exactly the dominators. */
  method ComputeDominators(g: Cfg) returns (reach: set<nat>, dom: seq<set<nat>>)
    requires CfgOk(g)
    ensures (forall b: nat :: b in reach <==> Reachable(g, b)) && |dom| == |g.succs|
    ensures forall b: nat, k: nat | b in reach && b < |dom| && k < |dom| :: k in dom[b] <==> Dominates(g, k, b)
    ensures forall b: nat, k | b < |dom| && k in dom[b] :: k < |dom|
  {
    reach := Reach(g);
    var all := AllBlocks(|g.succs|);
    dom := seq(|g.succs|, b => if b == 0 then {0} else all);
    StartsAbove(g, reach, dom, all);
    var changed := true;
    while changed
      invariant Shrinking(g, reach, dom) && (!changed ==> DomSolved(g, reach, dom))
      decreases Size(dom), changed
    {
      dom, changed := Sweep(g, reach, dom, all);
    }
    forall b: nat, k: nat | b in reach && b < |dom| && k < |dom| ensures k in dom[b] <==> Dominates(g, k, b) {
      ExactDominators(g, reach, dom, k, b);
    }
  }

  lemma ExactDominators(g: Cfg, reach: set<nat>, dom: seq<set<nat>>, k: nat, b: nat)
    requires Shrinking(g, reach, dom) && DomSolved(g, reach, dom) && (forall c: nat :: c in reach <==> Reachable(g, c))
    requires b in reach && b < |dom| && k < |dom|
    ensures k in dom[b] <==> Dominates(g, k, b)
  {
    assert ShrinkingAt(g, reach, dom, b);
    assert IsPath(g, [0], 0, 0);
    assert ShrinkingAt(g, reach, dom, 0);
    if k in dom[b] {
      forall path | IsPath(g, path, 0, b) ensures k in path {
        SolvedOnlyDominators(g, reach, dom, k, b, path);
      }
    }
  }

  function AllBlocks(n: nat): (r: set<nat>)
    ensures forall b: nat :: b in r <==> b < n
  {
    if n == 0 then {} else AllBlocks(n - 1) + {n - 1}
  }

  lemma StartsAbove(g: Cfg, reach: set<nat>, dom: seq<set<nat>>, all: set<nat>)
    requires CfgOk(g) && |dom| == |g.succs| && (forall b: nat :: b in all <==> b < |dom|)
    requires forall b: nat | b < |dom| :: dom[b] == if b == 0 then {0} else all
    ensures Shrinking(g, reach, dom)
  {
    forall b: nat | b in reach && b < |dom| ensures ShrinkingAt(g, reach, dom, b) {
      if b == 0 {
        assert IsPath(g, [0], 0, 0);
      }
    }
  }

  // ---------------------------------------------------------------------
  // loop bodies
  // ---------------------------------------------------------------------

  /** A way from b to p that meets h at its end at most. */
  ghost predicate ReachesLatch(g: Cfg, b: nat, p: nat, h: nat) {
    exists path :: IsPath(g, path, b, p) && forall i | 0 <= i < |path| - 1 :: path[i] != h
  }

  /** A way from b to the latch p that avoids the header h altogether. */
  ghost predicate InNaturalLoop(g: Cfg, b: nat, p: nat, h: nat) {
    b == h || exists path :: IsPath(g, path, b, p) && h !in path
  }

  /** Everything marked belongs; what leads to a marked block is marked, except into the header. */
  ghost predicate BodyMarking(g: Cfg, p: nat, h: nat, body: set<nat>, work: seq<nat>) {
    && h in body && p in body && (forall b | b in body :: b < |g.succs| && (b == h || ReachesLatch(g, b, p, h)))
    && (forall b | b in work :: b in body && (b != h || p == h))
    && forall b, q | b in body && b !in work && (b != h || p == h) && Back(g, q, b) :: q in body
  }

  ghost predicate BodyVisiting(g: Cfg, p: nat, h: nat, body: set<nat>, work: seq<nat>, b: nat, j: nat) {
    && h in body && p in body && b in body && b < |g.preds| && (b != h || p == h)
    && (forall c | c in body :: c < |g.succs| && (c == h || ReachesLatch(g, c, p, h)))
    && (forall c | c in work :: c in body && (c != h || p == h))
    && (forall c, q | c in body && c !in work && c != b && (c != h || p == h) && Back(g, q, c) :: q in body)
    && forall i | 0 <= i < j && i < |g.preds[b]| :: g.preds[b][i] in body
  }

  lemma ExtendBack(g: Cfg, q: nat, b: nat, p: nat, h: nat)
    requires CfgOk(g) && Back(g, q, b) && q != h && (b == h ==> p == h) && (b == p || (b != h && ReachesLatch(g, b, p, h)))
    ensures ReachesLatch(g, q, p, h)
  {
    assert Edge(g, q, b);
    var path := [b];
    if b == p {
      assert IsPath(g, path, b, p);
    } else {
      path :| IsPath(g, path, b, p) && forall i | 0 <= i < |path| - 1 :: path[i] != h;
    }
    var more := [q] + path;
    forall i | 0 <= i < |more| - 1 ensures Edge(g, more[i], more[i + 1]) && more[i] != h {
      if i > 0 {
        assert more[i] == path[i - 1] && more[i + 1] == path[i];
        assert Edge(g, path[i - 1], path[i]);
      }
    }
    assert IsPath(g, more, q, p);
  }

  lemma BodyMarks(g: Cfg, p: nat, h: nat, body: set<nat>, work: seq<nat>, b: nat, j: nat)
    requires CfgOk(g) && BodyVisiting(g, p, h, body, work, b, j) && j < |g.preds[b]| && g.preds[b][j] !in body
    ensures BodyVisiting(g, p, h, body + {g.preds[b][j]}, work + [g.preds[b][j]], b, j + 1)
  {
    var q := g.preds[b][j];
    assert Back(g, q, b);
    ExtendBack(g, q, b, p, h);
  }

  method VisitBack(g: Cfg, p: nat, h: nat, b: nat, body0: set<nat>, work0: seq<nat>) returns (body: set<nat>, work: seq<nat>)
    requires CfgOk(g) && BodyMarking(g, p, h, body0, work0 + [b])
    ensures BodyMarking(g, p, h, body, work) && body0 <= body && (body == body0 ==> work == work0)
  {
    body, work := body0, work0;
    var j := 0;
    assert BodyVisiting(g, p, h, body, work, b, 0) by {
      assert b in work0 + [b];
      assert forall c | c in work0 :: c in work0 + [b];
    }
    while j < |g.preds[b]|
      invariant b < |g.preds| && 0 <= j <= |g.preds[b]| && BodyVisiting(g, p, h, body, work, b, j)
      invariant body0 <= body && (body == body0 ==> work == work0)
    {
      var q := g.preds[b][j];
      if q !in body {
        BodyMarks(g, p, h, body, work, b, j);
        body := body + {q};
        work := work + [q];
      }
      j := j + 1;
    }
  }

  lemma {:induction false} BodyComplete(g: Cfg, p: nat, h: nat, body: set<nat>, path: seq<nat>, b: nat)
    requires CfgOk(g) && BodyMarking(g, p, h, body, []) && IsPath(g, path, b, p) && forall i | 0 <= i < |path| - 1 :: path[i] != h
    ensures b in body
    decreases |path|
  {
    if |path| > 1 {
      var rest := path[1..];
      assert Edge(g, path[0], path[1]);
      forall i | 0 <= i < |rest| - 1 ensures Edge(g, rest[i], rest[i + 1]) && rest[i] != h {
        assert rest[i] == path[i + 1] && rest[i + 1] == path[i + 2];
        assert Edge(g, path[i + 1], path[i + 2]);
      }
      BodyComplete(g, p, h, body, rest, path[1]);
      assert |path| > 2 ==> path[1] != h;
      assert Back(g, b, path[1]);
    }
  }

  /** The blocks marked for a backedge from p to h: those that reach p without passing h on the way. */
  method LoopBody(g: Cfg, p: nat, h: nat) returns (body: set<nat>)
    requires CfgOk(g) && p < |g.succs| && h < |g.succs|
    ensures forall b: nat :: b in body <==> b == h || ReachesLatch(g, b, p, h)
  {
    var work: seq<nat> := [p];
    body := {h, p};
    assert IsPath(g, [p], p, p);
    while work != []
      invariant BodyMarking(g, p, h, body, work)
      decreases |Blocks(g) - body|, |work|
    {
      var b := work[|work| - 1];
      assert work == work[..|work| - 1] + [b];
      ghost var before := body;
      body, work := VisitBack(g, p, h, b, body, work[..|work| - 1]);
      FewerLeft(g, before, body);
    }
    forall b: nat | ReachesLatch(g, b, p, h) ensures b in body {
      var path :| IsPath(g, path, b, p) && forall i | 0 <= i < |path| - 1 :: path[i] != h;
      BodyComplete(g, p, h, body, path, b);
    }
  }

  /** For a latch other than the header that is the natural loop ... */
  lemma BodyIsNaturalLoop(g: Cfg, b: nat, p: nat, h: nat)
    requires p != h
    ensures b == h || ReachesLatch(g, b, p, h) <==> InNaturalLoop(g, b, p, h)
  {
    if path :| IsPath(g, path, b, p) && forall i | 0 <= i < |path| - 1 :: path[i] != h {
      assert h !in path;
    }
  }

  /** ... and for a block that loops to itself it is exactly when nothing else leads to the block: the body
      takes in every block on the way there, though the loop is the block alone. */
  lemma SelfLoopBody(g: Cfg, h: nat)
    requires CfgOk(g) && h < |g.succs|
    ensures (forall b: nat :: b == h || ReachesLatch(g, b, h, h) <==> InNaturalLoop(g, b, h, h)) <==> (forall q: nat | Back(g, q, h) :: q == h)
  {
    forall b: nat ensures InNaturalLoop(g, b, h, h) <==> b == h {
    }
    forall q: nat | Back(g, q, h) && q != h ensures ReachesLatch(g, q, h, h) {
      ExtendBack(g, q, h, h, h);
    }
    if forall q: nat | Back(g, q, h) :: q == h {
      forall b: nat | ReachesLatch(g, b, h, h) ensures b == h {
        var path :| IsPath(g, path, b, h) && forall i | 0 <= i < |path| - 1 :: path[i] != h;
        if |path| > 1 {
          PathShrinks(g, path, b, h);
        }
      }
    }
  }

  // ---------------------------------------------------------------------
  // nesting depth
  // ---------------------------------------------------------------------

  /** The edge, the j-th out of p, goes back to a dominator of p. */
  ghost predicate IsBackedge(g: Cfg, p: nat, j: nat) {
    p < |g.succs| && Reachable(g, p) && j < |g.succs[p]| && Dominates(g, g.succs[p][j], p)
  }

  /** Backedges out of the blocks below n, and the first j of block n, whose body holds b. */
  ghost function Around(g: Cfg, b: nat, n: nat, j: nat): (r: set<(nat, nat)>)
  {
    set p: nat, i: nat | p < |g.succs| && i < |g.succs[p]| && (p < n || (p == n && i < j)) && IsBackedge(g, p, i)
      && (b == g.succs[p][i] || ReachesLatch(g, b, p, g.succs[p][i])) :: (p, i)
  }

  lemma AroundStep(g: Cfg, b: nat, n: nat, j: nat)
    requires n < |g.succs| && j < |g.succs[n]|
    ensures var h := g.succs[n][j];
            |Around(g, b, n, j + 1)| == |Around(g, b, n, j)| +
              if IsBackedge(g, n, j) && (b == h || ReachesLatch(g, b, n, h)) then 1 else 0
  {
    var h := g.succs[n][j];
    if IsBackedge(g, n, j) && (b == h || ReachesLatch(g, b, n, h)) {
      assert Around(g, b, n, j + 1) == Around(g, b, n, j) + {(n, j)};
    } else {
      assert Around(g, b, n, j + 1) == Around(g, b, n, j);
    }
  }

  /** Each block's depth is the number of backedges whose body holds it. */
  method ComputeLoops(g: Cfg) returns (depth: seq<nat>)
    requires CfgOk(g)
    ensures |depth| == |g.succs| && forall b: nat | b < |depth| :: depth[b] == |Around(g, b, |g.succs|, 0)|
  {
    var reach, dom := ComputeDominators(g);
    depth := seq(|g.succs|, _ => 0);
    for p := 0 to |g.succs|
      invariant |depth| == |g.succs| && forall b: nat | b < |depth| :: depth[b] == |Around(g, b, p, 0)|
    {
      var j := 0;
      while j < |g.succs[p]|
        invariant 0 <= j <= |g.succs[p]| && |depth| == |g.succs|
        invariant forall b: nat | b < |depth| :: depth[b] == |Around(g, b, p, j)|
      {
        var h := g.succs[p][j];
        assert Edge(g, p, h);
        forall b: nat | b < |depth| ensures |Around(g, b, p, j + 1)| == |Around(g, b, p, j)| +
              if IsBackedge(g, p, j) && (b == h || ReachesLatch(g, b, p, h)) then 1 else 0 {
          AroundStep(g, b, p, j);
        }
        if p in reach && h in dom[p] {
          var body := LoopBody(g, p, h);
          depth := AddBody(depth, body);
        }
        j := j + 1;
      }
      forall b: nat | b < |depth| ensures Around(g, b, p, |g.succs[p]|) == Around(g, b, p + 1, 0) {
      }
    }
  }

  method AddBody(depth0: seq<nat>, body: set<nat>) returns (depth: seq<nat>)
    ensures |depth| == |depth0| && forall b: nat | b < |depth| :: depth[b] == depth0[b] + if b in body then 1 else 0
  {
    depth := depth0;
    for b := 0 to |depth|
      invariant |depth| == |depth0|
      invariant forall c: nat | c < |depth| :: depth[c] == depth0[c] + if c < b && c in body then 1 else 0
    {
      if b in body {
        depth := depth[b := depth[b] + 1];
      }
    }
  }
}
