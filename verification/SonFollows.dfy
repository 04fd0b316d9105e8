/** What it means for a graph to follow a structured run, and how such facts compose. */
module SonFollows {
  import opened DeferLang
  import opened SonGraph
  import opened SonBuilder

  // ---------------------------------------------------------------------
  // steps along emitted edges
  // ---------------------------------------------------------------------

  lemma GoTo(G: Graph, o: Oracle, a: Cfg, y: nat)
    requires a.at < |G| && y < |G| && Restable(G[a.at]) && TakesControl(G, a.at, y)
    ensures Step(G, o, a, Cfg(y, a.env)) && Reaches(G, o, a, Cfg(y, a.env))
  {
    StepReaches(G, o, a, Cfg(y, a.env));
  }

  lemma GoMerge(G: Graph, o: Oracle, a: Cfg, y: nat, m: nat)
    requires a.at < |G| && y < |G| && Restable(G[a.at]) && G[y].Merge? && (a.at, m) in G[y].ins
    ensures var b := Cfg(y, a.env[y := Eval(G, a.env, m)]);
            Step(G, o, a, b) && Reaches(G, o, a, b)
  {
    var b := Cfg(y, a.env[y := Eval(G, a.env, m)]);
    var i: nat :| i < |G[y].ins| && G[y].ins[i] == (a.at, m);
    assert Enters(G, a, b, i);
    StepReaches(G, o, a, b);
  }

  lemma GoBranch(G: Graph, o: Oracle, a: Cfg)
    requires WellBuilt(G) && a.at < |G| && G[a.at].Branch?
    ensures var b := Cfg(if Truth(G, o, a.env, G[a.at].cond) then a.at + 1 else a.at + 2, a.env);
            Step(G, o, a, b) && Reaches(G, o, a, b)
  {
    assert NodeOk(G, a.at);
    StepReaches(G, o, a, Cfg(if Truth(G, o, a.env, G[a.at].cond) then a.at + 1 else a.at + 2, a.env));
  }

  /** G is the finished graph, as far as builder b is concerned. */
  ghost predicate Final(b: Builder, G: Graph) {
    WellBuilt(G) && Extends(b.g, G, OpenMerges(b.loops))
  }

  lemma FinalEarlier(b: Builder, b': Builder, G: Graph)
    requires Emitted(b, b') && Final(b', G)
    ensures Final(b, G)
  {
    ExtendsTrans(b.g, b'.g, G, OpenMerges(b.loops), OpenMerges(b.loops), OpenMerges(b.loops));
  }

  /** Nodes other than merges are in the finished graph as they were emitted. */
  lemma FinalNode(b: Builder, G: Graph, k: nat)
    requires Final(b, G) && k < |b.g|
    ensures k < |G| && (!b.g[k].Merge? ==> G[k] == b.g[k])
    ensures b.g[k].Merge? ==> G[k].Merge? && b.g[k].ins <= G[k].ins
    ensures b.g[k].Merge? && k !in OpenMerges(b.loops) ==> G[k] == b.g[k]
    ensures Restable(b.g[k]) ==> Restable(G[k])
  {
    assert Grows(b.g, G, k, OpenMerges(b.loops));
  }

  // ---------------------------------------------------------------------
  // what it means for the graph to follow a result
  // ---------------------------------------------------------------------

  /** Control arrives at node c, where memory node m reads tr. */
  ghost predicate Arrives(G: Graph, o: Oracle, a: Cfg, c: nat, m: nat, tr: Trace, bound: nat) {
    exists env :: Reaches(G, o, a, Cfg(c, env)) && Eval(G, env, m) == tr && SameBelow(a.env, env, bound)
  }

  /** Control enters merge t bringing memory tr. */
  ghost predicate Joins(G: Graph, o: Oracle, a: Cfg, t: nat, tr: Trace, bound: nat) {
    && t < |G| && G[t].Merge? && G[t].ins != []
    && exists env :: Reaches(G, o, a, Cfg(t, env)) && t in env && env[t] == tr && SameBelow(a.env, env, bound)
  }

  /** Control reaches a return whose memory reads tr and that answers w. */
  ghost predicate Returns(G: Graph, o: Oracle, a: Cfg, tr: Trace, w: Answer) {
    exists y: nat, env :: y < |G| && Reaches(G, o, a, Cfg(y, env)) && ReturnsAt(G, env, y, tr, w)
  }

  ghost predicate ReturnsAt(G: Graph, env: Env, y: nat, tr: Trace, w: Answer)
    requires y < |G|
  {
    G[y].Ret? && Eval(G, env, G[y].mem) == tr && AnswerAt(G, env, G[y].value) == w
  }

  ghost predicate LeavesBy(G: Graph, o: Oracle, a: Cfg, t: nat, f: Result, k: nat, bound: nat) {
    if f.Timeout? then CanRun(G, o, a, k) else Joins(G, o, a, t, f.tr, bound)
  }

  ghost predicate ReturnsBy(G: Graph, o: Oracle, a: Cfg, f: Result, w: Answer, k: nat) {
    if f.Timeout? then CanRun(G, o, a, k) else Returns(G, o, a, f.tr, w)
  }

  /** From a, the graph does what the structured run did with the given fuel. A statement that leaves
      its scopes has, in the graph, already run the pending defers `ds` of those it leaves. */
  ghost predicate Follows(G: Graph, o: Oracle, a: Cfg, r: Result, ds: seq<(nat, seq<Stmt>)>, ls: seq<Loop>,
                          c: Ctrl, m: nat, fuel: nat, bound: nat) {
    if r.Timeout? then CanRun(G, o, a, fuel)
    else match r.how
      case Normal => c.At? && Arrives(G, o, a, c.node, m, r.tr, bound)
      case Broke =>
        ls != [] && var l := ls[|ls| - 1];
        forall k: nat | k >= fuel :: LeavesBy(G, o, a, l.exit, RunDefers(o, Pending(ds, l.bodyDepth), r, k), k, l.header)
      case Continued =>
        ls != [] && var l := ls[|ls| - 1];
        forall k: nat | k >= fuel :: LeavesBy(G, o, a, l.cont, RunDefers(o, Pending(ds, l.bodyDepth), r, k), k, l.header)
      case Returned(w) =>
        forall k: nat | k >= fuel :: ReturnsBy(G, o, a, RunDefers(o, Pending(ds, 0), r, k), w, k)
  }

  lemma LeavesAfter(G: Graph, o: Oracle, a: Cfg, a': Cfg, t: nat, f: Result, k: nat, bound: nat)
    requires Reaches(G, o, a, a') && SameBelow(a.env, a'.env, bound) && LeavesBy(G, o, a', t, f, k, bound)
    ensures LeavesBy(G, o, a, t, f, k, bound)
  {
    if f.Timeout? {
      ReachesThenRuns(G, o, a, a', k);
    } else {
      var env :| Reaches(G, o, a', Cfg(t, env)) && t in env && env[t] == f.tr && SameBelow(a'.env, env, bound);
      ReachesTrans(G, o, a, a', Cfg(t, env));
    }
  }

  lemma ReturnsAfter(G: Graph, o: Oracle, a: Cfg, a': Cfg, f: Result, w: Answer, k: nat)
    requires Reaches(G, o, a, a') && ReturnsBy(G, o, a', f, w, k)
    ensures ReturnsBy(G, o, a, f, w, k)
  {
    if f.Timeout? {
      ReachesThenRuns(G, o, a, a', k);
    } else {
      var y: nat, env :| y < |G| && Reaches(G, o, a', Cfg(y, env)) && ReturnsAt(G, env, y, f.tr, w);
      ReachesTrans(G, o, a, a', Cfg(y, env));
    }
  }

  lemma ArrivesAfter(G: Graph, o: Oracle, a: Cfg, a': Cfg, c: nat, m: nat, tr: Trace, bound: nat, bound': nat)
    requires Reaches(G, o, a, a') && SameBelow(a.env, a'.env, bound) && bound <= bound' && Arrives(G, o, a', c, m, tr, bound')
    ensures Arrives(G, o, a, c, m, tr, bound)
  {
    var env :| Reaches(G, o, a', Cfg(c, env)) && Eval(G, env, m) == tr && SameBelow(a'.env, env, bound');
    ReachesTrans(G, o, a, a', Cfg(c, env));
  }

  /** Following from a later point is following from here. */
  lemma FollowsAfter(G: Graph, o: Oracle, a: Cfg, a': Cfg, r: Result, ds: seq<(nat, seq<Stmt>)>, ls: seq<Loop>,
                     c: Ctrl, m: nat, fuel: nat, bound: nat, bound': nat)
    requires Reaches(G, o, a, a') && SameBelow(a.env, a'.env, bound) && bound <= bound'
    requires ls != [] ==> ls[|ls| - 1].header <= bound
    requires Follows(G, o, a', r, ds, ls, c, m, fuel, bound')
    ensures Follows(G, o, a, r, ds, ls, c, m, fuel, bound)
  {
    if r.Timeout? {
      ReachesThenRuns(G, o, a, a', fuel);
    } else {
      match r.how
      case Normal => ArrivesAfter(G, o, a, a', c.node, m, r.tr, bound, bound');
      case Broke =>
        var l := ls[|ls| - 1];
        forall k: nat | k >= fuel
          ensures LeavesBy(G, o, a, l.exit, RunDefers(o, Pending(ds, l.bodyDepth), r, k), k, l.header)
        {
          LeavesAfter(G, o, a, a', l.exit, RunDefers(o, Pending(ds, l.bodyDepth), r, k), k, l.header);
        }
      case Continued =>
        var l := ls[|ls| - 1];
        forall k: nat | k >= fuel
          ensures LeavesBy(G, o, a, l.cont, RunDefers(o, Pending(ds, l.bodyDepth), r, k), k, l.header)
        {
          LeavesAfter(G, o, a, a', l.cont, RunDefers(o, Pending(ds, l.bodyDepth), r, k), k, l.header);
        }
      case Returned(w) =>
        forall k: nat | k >= fuel
          ensures ReturnsBy(G, o, a, RunDefers(o, Pending(ds, 0), r, k), w, k)
        {
          ReturnsAfter(G, o, a, a', RunDefers(o, Pending(ds, 0), r, k), w, k);
        }
    }
  }

  /** One more iteration: a step, a stretch, and a run with one unit of fuel less. */
  lemma FollowsIteration(G: Graph, o: Oracle, a: Cfg, a1: Cfg, a': Cfg, r: Result, ds: seq<(nat, seq<Stmt>)>, ls: seq<Loop>,
                         c: Ctrl, m: nat, fuel: nat, bound: nat, bound': nat)
    requires fuel > 0 && Step(G, o, a, a1) && Reaches(G, o, a1, a') && SameBelow(a.env, a'.env, bound) && bound <= bound'
    requires ls != [] ==> ls[|ls| - 1].header <= bound
    requires Follows(G, o, a', r, ds, ls, c, m, fuel - 1, bound')
    ensures Follows(G, o, a, r, ds, ls, c, m, fuel, bound)
  {
    StepReaches(G, o, a, a1);
    ReachesTrans(G, o, a, a1, a');
    if r.Timeout? {
      ReachesThenRuns(G, o, a1, a', fuel - 1);
      StepThenRuns(G, o, a, a1, fuel - 1);
    } else {
      FollowsAfter(G, o, a, a', r, ds, ls, c, m, fuel - 1, bound, bound');
    }
  }

  /** Leaving the current scope as well: its defers have run first, the enclosing ones' after them. */
  lemma FollowsOutward(G: Graph, o: Oracle, a: Cfg, r: Result, outer: seq<(nat, seq<Stmt>)>, ds: seq<(nat, seq<Stmt>)>, d: nat,
                       ls: seq<Loop>, c: Ctrl, m: nat, c': Ctrl, m': nat, fuel: nat, bound: nat)
    requires Local(outer, ds, d) && forall i | 0 <= i < |outer| :: outer[i].0 < d
    requires ls != [] ==> ls[|ls| - 1].bodyDepth <= d
    requires r.Done? ==> !r.how.Normal?
    requires Follows(G, o, a, r, ds, ls, c, m, fuel, bound)
    ensures Follows(G, o, a, RunDefers(o, Pending(ds, d), r, fuel), outer, ls, c', m', fuel, bound)
  {
    var p := Pending(ds, d);
    var f := RunDefers(o, p, r, fuel);
    if r.Done? {
      DefersKeepExit(o, p, r, fuel);
      var e := if r.how.Returned? then 0 else ls[|ls| - 1].bodyDepth;
      PendingSplits(outer, ds, d, e);
      forall k: nat | k >= fuel
        ensures f.Done? ==> RunDefers(o, Pending(ds, e), r, k) == RunDefers(o, Pending(outer, e), f, k)
      {
        RunDefersConcat(o, p, Pending(outer, e), r, k);
        if f.Done? {
          DefersMore(o, p, r, fuel, k);
        }
      }
      if f.Timeout? {
        RunDefersConcat(o, p, Pending(outer, e), r, fuel);
        assert RunDefers(o, Pending(ds, e), r, fuel).Timeout?;
      }
    }
  }

  lemma {:induction false} DefersKeepExit(o: Oracle, p: seq<seq<Stmt>>, r: Result, fuel: nat)
    requires r.Done?
    ensures RunDefers(o, p, r, fuel).Done? ==> RunDefers(o, p, r, fuel).how == r.how
    decreases |p|
  {
    if p != [] {
      var d := ExecScope(o, p[0], r.tr, [], true, fuel);
      if d.Done? {
        DefersKeepExit(o, p[1..], Done(d.tr, r.how), fuel);
      }
    }
  }
}
