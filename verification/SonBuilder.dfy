/** Lowering of structured statements to the graph: the emission rules as functions on the builder's state. */
module SonBuilder {
  import opened DeferLang
  import opened SonGraph
  import opened Options

  /** Current control, or none once control cannot reach this point. */
  datatype Ctrl = Dead | At(node: nat)

  /** An open loop: its merges, and the scope depth inside its body. */
  datatype Loop = Loop(header: nat, exit: nat, cont: nat, bodyDepth: nat)

  /** Builder state. `defers` is in registration order, each entry with the scope depth it belongs to. */
  datatype Builder = Builder(g: Graph, ctrl: Ctrl, mem: nat, depth: nat,
                             defers: seq<(nat, seq<Stmt>)>, loops: seq<Loop>, rets: seq<nat>)

  /** Bodies a scope exit down to depth d runs: latest first, up to the first older than d. */
  function Pending(ds: seq<(nat, seq<Stmt>)>, d: nat): seq<seq<Stmt>> {
    if ds == [] || ds[|ds| - 1].0 < d then [] else [ds[|ds| - 1].1] + Pending(ds[..|ds| - 1], d)
  }

  /** Entries of scopes outside depth d. */
  function Keep(ds: seq<(nat, seq<Stmt>)>, d: nat): seq<(nat, seq<Stmt>)> {
    if ds == [] then []
    else Keep(ds[..|ds| - 1], d) + if ds[|ds| - 1].0 < d then [ds[|ds| - 1]] else []
  }

  /** Appends a control and a memory input to a merge. */
  function AddInput(g: Graph, r: nat, c: nat, m: nat): Graph {
    if r < |g| && g[r].Merge? then g[r := Merge(g[r].ins + [(c, m)])] else g
  }

  function EmitStmt(b: Builder, s: Stmt, inDefer: bool): Builder
    decreases if inDefer then 0 else 2, s, 0
  {
    if b.ctrl.Dead? then b
    else match s
      case Effect(id) => b.(g := b.g + [Store(b.mem, Did(id))], mem := |b.g|)
      case If(cond, thn, els) =>
        var bt := EmitScope(OpenIf(b, cond), thn, inDefer);
        var be := EmitScope(ElseOf(b, bt), els, inDefer);
        CloseIf(bt, be)
      case While(cond, body) => CloseWhile(b, EmitScope(OpenWhile(b, cond), body, inDefer))
      case For(id, body) => CloseFor(b, id, EmitScope(OpenFor(b, id), body, inDefer))
      case Block(body) => EmitScope(b, body, inDefer)
      case Defer(body) => b.(defers := b.defers + [(b.depth, body)])
      case Break =>
        if b.loops == [] || inDefer then b
        else
          var l := b.loops[|b.loops| - 1];
          LeaveTo(EmitBodies(b, Pending(b.defers, l.bodyDepth)), l.exit)
      case Continue =>
        if b.loops == [] || inDefer then b
        else
          var l := b.loops[|b.loops| - 1];
          LeaveTo(EmitBodies(b, Pending(b.defers, l.bodyDepth)), l.cont)
      case Return(value) =>
        if inDefer then b
        else CloseReturn(EmitBodies(OpenReturn(b, value), Pending(b.defers, 0)), ValueOf(b, value))
  }

  function EmitList(b: Builder, ss: seq<Stmt>, inDefer: bool): Builder
    decreases if inDefer then 0 else 2, ss, 1
  {
    if ss == [] then b else EmitList(EmitStmt(b, ss[0], inDefer), ss[1..], inDefer)
  }

  /** A nested scope: one level deeper, its statements, its defers, and back. */
  function EmitScope(b: Builder, ss: seq<Stmt>, inDefer: bool): Builder
    decreases if inDefer then 0 else 2, ss, 2
  {
    var b1 := EmitList(b.(depth := b.depth + 1), ss, inDefer);
    var b2 := if inDefer then DropDefers(b1, b.depth + 1) else CloseDefers(b1, b.depth + 1);
    b2.(depth := b.depth)
  }

  /** Emits the pending defers at depth d or deeper, then drops them. (Inside a deferred body there are none.) */
  function CloseDefers(b: Builder, d: nat): Builder
    decreases 1, 1, 0
  {
    DropDefers(EmitBodies(b, Pending(b.defers, d)), d)
  }

  function DropDefers(b: Builder, d: nat): Builder {
    b.(defers := Keep(b.defers, d))
  }

  /** Emits deferred bodies one after the other. */
  function EmitBodies(b: Builder, bodies: seq<seq<Stmt>>): Builder
    decreases 1, 0, |bodies|
  {
    if bodies == [] || b.ctrl.Dead? then b
    else EmitBodies(EmitList(b, bodies[0], true), bodies[1..])
  }

  /** Condition, branch and its projections; emission continues on the taken side. */
  function OpenIf(b: Builder, cond: int): Builder
    requires b.ctrl.At?
  {
    var n := |b.g|;
    b.(g := b.g + [Load(b.mem, cond), Branch(b.ctrl.node, n), IfTrue(n + 1), IfFalse(n + 1)], ctrl := At(n + 2))
  }

  /** The other side, with the memory of the branch. */
  function ElseOf(b: Builder, bt: Builder): Builder {
    bt.(ctrl := At(|b.g| + 3), mem := b.mem)
  }

  /** Joins the two ends; a dead end contributes nothing. */
  function CloseIf(bt: Builder, be: Builder): Builder {
    if bt.ctrl.Dead? then be
    else if be.ctrl.Dead? then be.(ctrl := bt.ctrl, mem := bt.mem)
    else be.(g := be.g + [Merge([(bt.ctrl.node, bt.mem), (be.ctrl.node, be.mem)])], ctrl := At(|be.g|), mem := |be.g|)
  }

  function OpenWhile(b: Builder, cond: int): Builder
    requires b.ctrl.At?
  {
    var n := |b.g|;
    b.(g := b.g + WhileNodes(b, cond), ctrl := At(n + 3), mem := n, loops := b.loops + [Loop(n, n + 5, n, b.depth + 1)])
  }

  /** Header, condition, branch with its projections, exit. */
  function WhileNodes(b: Builder, cond: int): (r: seq<Node>)
    requires b.ctrl.At?
    ensures |r| == 6
  {
    var n := |b.g|;
    [Merge([(b.ctrl.node, b.mem)]), Load(n, cond), Branch(n, n + 1), IfTrue(n + 2), IfFalse(n + 2), Merge([(n + 4, n)])]
  }

  /** The natural backedge, if the end of the body is reachable; then the exit. */
  function CloseWhile(b: Builder, body: Builder): Builder {
    var n := |b.g|;
    var g := if body.ctrl.At? then AddInput(body.g, n, body.ctrl.node, body.mem) else body.g;
    body.(g := g, ctrl := At(n + 5), mem := n + 5, loops := b.loops)
  }

  function OpenFor(b: Builder, id: int): Builder
    requires b.ctrl.At?
  {
    var n := |b.g|;
    b.(g := b.g + ForNodes(b, id), ctrl := At(n + 6), mem := n + 2, loops := b.loops + [Loop(n + 2, n + 8, n + 9, b.depth + 1)])
  }

  /** Bound, counter initialisation, header with the comparison, branch with its projections, exit,
      the merge before the increment and the increment's own control. */
  function ForNodes(b: Builder, id: int): (r: seq<Node>)
    requires b.ctrl.At?
    ensures |r| == 11
  {
    var n := |b.g|;
    [Load(b.mem, id), Store(b.mem, LoopInit(id)), Merge([(b.ctrl.node, n + 1)]), Load(n + 2, id),
     Compare(n + 3, n, id), Branch(n + 2, n + 4), IfTrue(n + 5), IfFalse(n + 5),
     Merge([(n + 7, n + 2)]), Merge([]), Jump(n + 9)]
  }

  /** The end of the body joins the continues. */
  function JoinFor(b: Builder, body: Builder): Graph {
    if body.ctrl.At? then AddInput(body.g, |b.g| + 9, body.ctrl.node, body.mem) else body.g
  }

  /** If anything arrives before the increment: the increment and the backedge. */
  function BumpFor(b: Builder, id: int, g: Graph): Graph {
    var n := |b.g|;
    if n + 9 < |g| && g[n + 9].Merge? && g[n + 9].ins != [] then
      AddInput(g + [Store(n + 9, LoopBump(id))], n + 2, n + 10, |g|)
    else g
  }

  function CloseFor(b: Builder, id: int, body: Builder): Builder {
    var n := |b.g|;
    body.(g := BumpFor(b, id, JoinFor(b, body)), ctrl := At(n + 8), mem := n + 8, loops := b.loops)
  }

  /** After the defers, control goes to a loop's merge. */
  function LeaveTo(b: Builder, target: nat): Builder {
    if b.ctrl.Dead? then b
    else b.(g := AddInput(b.g, target, b.ctrl.node, b.mem), ctrl := Dead)
  }

  /** The returned value, if there is one, is computed first. */
  function OpenReturn(b: Builder, value: Option<int>): Builder {
    if value.None? then b else b.(g := b.g + [Load(b.mem, value.value)])
  }

  function ValueOf(b: Builder, value: Option<int>): Option<nat> {
    if value.None? then None else Some(|b.g|)
  }

  /** After the defers, the return node with the value computed before them. */
  function CloseReturn(b: Builder, value: Option<nat>): Builder {
    if b.ctrl.Dead? then b
    else b.(g := b.g + [Ret(b.ctrl.node, b.mem, value)], ctrl := Dead, rets := b.rets + [|b.g|])
  }

  // ---------------------------------------------------------------------
  // what every emission keeps
  // ---------------------------------------------------------------------

  /** A node control can rest on: anything but a branch or a return. */
  ghost predicate Restable(n: Node) {
    n.Start? || n.IfTrue? || n.IfFalse? || n.Merge? || n.Jump?
  }

  ghost predicate LoopOk(g: Graph, l: Loop, depth: nat) {
    && l.header < l.exit < |g| && l.header <= l.cont < |g|
    && g[l.header].Merge? && g[l.exit].Merge? && g[l.cont].Merge?
    && l.bodyDepth <= depth
  }

  ghost predicate SortedDefers(ds: seq<(nat, seq<Stmt>)>, depth: nat) {
    && (forall i | 0 <= i < |ds| :: ds[i].0 <= depth)
    && (forall i, j | 0 <= i < j < |ds| :: ds[i].0 <= ds[j].0)
    && (forall i | 0 <= i < |ds| :: AllAllowed(ds[i].1, false, true))
  }

  ghost predicate BuilderOk(b: Builder) {
    && WellBuilt(b.g) && b.mem < |b.g|
    && (b.ctrl.At? ==> b.ctrl.node < |b.g| && Restable(b.g[b.ctrl.node]))
    && SortedDefers(b.defers, b.depth)
    && (forall i | 0 <= i < |b.loops| :: LoopOk(b.g, b.loops[i], b.depth))
  }

  /** The merges that may still receive inputs: those of the open loops. */
  ghost function OpenMerges(ls: seq<Loop>): (r: set<nat>)
  {
    set i, k: nat | 0 <= i < |ls| && k in LoopMerges(ls[i]) :: k
  }

  ghost function LoopMerges(l: Loop): set<nat> {
    {l.header, l.exit, l.cont}
  }

  /** Emission from b to b' left the scope context alone and only grew the graph. */
  ghost predicate Emitted(b: Builder, b': Builder) {
    && b'.depth == b.depth && b'.loops == b.loops
    && BuilderOk(b') && Extends(b.g, b'.g, OpenMerges(b.loops))
  }

  lemma NodeOkAppend(g: Graph, ns: seq<Node>, k: nat)
    requires k < |g| && NodeOk(g, k)
    ensures NodeOk(g + ns, k)
  {
    assert (g + ns)[k] == g[k];
    assert forall j: nat | j < |g| :: (g + ns)[j] == g[j];
  }

  lemma AppendKeeps(g: Graph, ns: seq<Node>, open: set<nat>)
    requires WellBuilt(g)
    requires forall k: nat | |g| <= k < |g| + |ns| :: NodeOk(g + ns, k)
    ensures WellBuilt(g + ns) && Extends(g, g + ns, open)
  {
    forall k: nat | k < |g| ensures NodeOk(g + ns, k) && Grows(g, g + ns, k, open) {
      NodeOkAppend(g, ns, k);
    }
  }

  lemma AddInputKeeps(g: Graph, r: nat, c: nat, m: nat, open: set<nat>)
    requires WellBuilt(g) && c < |g| && m < |g| && r in open
    ensures WellBuilt(AddInput(g, r, c, m)) && Extends(g, AddInput(g, r, c, m), open)
    ensures r < |g| && g[r].Merge? ==> AddInput(g, r, c, m)[r].Merge? && AddInput(g, r, c, m)[r].ins == g[r].ins + [(c, m)]
  {
    var h := AddInput(g, r, c, m);
    forall k: nat | k < |h| ensures NodeOk(h, k) && Grows(g, h, k, open) {
      assert NodeOk(g, k);
    }
  }

  lemma ExtendsSelf(g: Graph, open: set<nat>)
    ensures Extends(g, g, open)
  {
  }

  /** Growth keeps every node's kind. */
  lemma SameKind(g: Graph, h: Graph, open: set<nat>, k: nat)
    requires Extends(g, h, open) && k < |g|
    ensures g[k].Merge? ==> h[k].Merge?
    ensures !g[k].Merge? ==> h[k] == g[k]
    ensures Restable(g[k]) ==> Restable(h[k])
  {
    assert Grows(g, h, k, open);
  }

  lemma LoopsSurvive(g: Graph, h: Graph, open: set<nat>, ls: seq<Loop>, depth: nat, depth': nat)
    requires Extends(g, h, open) && depth <= depth'
    requires forall i | 0 <= i < |ls| :: LoopOk(g, ls[i], depth)
    ensures forall i | 0 <= i < |ls| :: LoopOk(h, ls[i], depth')
  {
    forall i | 0 <= i < |ls| ensures LoopOk(h, ls[i], depth') {
      assert LoopOk(g, ls[i], depth);
      SameKind(g, h, open, ls[i].header);
      SameKind(g, h, open, ls[i].exit);
      SameKind(g, h, open, ls[i].cont);
    }
  }

  lemma OpenMergesExist(b: Builder, k: nat)
    requires BuilderOk(b) && k in OpenMerges(b.loops)
    ensures k < |b.g| && b.g[k].Merge?
  {
    var i :| 0 <= i < |b.loops| && k in LoopMerges(b.loops[i]);
    assert LoopOk(b.g, b.loops[i], b.depth);
  }

  lemma OpenMergesAppend(ls: seq<Loop>, l: Loop)
    ensures OpenMerges(ls + [l]) == OpenMerges(ls) + LoopMerges(l)
  {
    var ls' := ls + [l];
    forall k: nat | k in OpenMerges(ls) + LoopMerges(l) ensures k in OpenMerges(ls') {
      if k in LoopMerges(l) {
        assert ls'[|ls|] == l;
      } else {
        var i :| 0 <= i < |ls| && k in LoopMerges(ls[i]);
        assert ls'[i] == ls[i];
      }
    }
    forall k: nat | k in OpenMerges(ls') ensures k in OpenMerges(ls) + LoopMerges(l) {
      var i :| 0 <= i < |ls'| && k in LoopMerges(ls'[i]);
      assert i < |ls| ==> ls[i] == ls'[i];
    }
  }

  /** Growth seen from before some nodes were appended: merges opened since do not matter. */
  lemma ExtendsFrom(g: Graph, g1: Graph, h: Graph, open: set<nat>, open1: set<nat>)
    requires |g| <= |g1| && g1[..|g|] == g && Extends(g1, h, open1)
    requires forall k | k in open1 && k < |g| :: k in open
    ensures Extends(g, h, open)
  {
    forall k: nat | k < |g| ensures Grows(g, h, k, open) {
      assert g1[..|g|][k] == g[k];
      assert Grows(g1, h, k, open1);
    }
  }

  lemma EmittedTrans(b: Builder, b1: Builder, b2: Builder)
    requires Emitted(b, b1) && Emitted(b1, b2)
    ensures Emitted(b, b2)
  {
    ExtendsTrans(b.g, b1.g, b2.g, OpenMerges(b.loops), OpenMerges(b.loops), OpenMerges(b.loops));
  }

  // ---------------------------------------------------------------------
  // pending defers
  // ---------------------------------------------------------------------

  lemma {:induction false} PendingAllowed(ds: seq<(nat, seq<Stmt>)>, depth: nat, d: nat)
    requires SortedDefers(ds, depth)
    ensures forall i | 0 <= i < |Pending(ds, d)| :: AllAllowed(Pending(ds, d)[i], false, true)
  {
    if ds != [] {
      PendingAllowed(ds[..|ds| - 1], depth, d);
    }
  }

  lemma {:induction false} KeepAll(ds: seq<(nat, seq<Stmt>)>, d: nat)
    requires forall i | 0 <= i < |ds| :: ds[i].0 < d
    ensures Keep(ds, d) == ds
  {
    if ds != [] {
      var rest, last := ds[..|ds| - 1], ds[|ds| - 1];
      assert forall i | 0 <= i < |rest| :: rest[i] == ds[i];
      KeepAll(rest, d);
      assert ds == rest + [last];
    }
  }

  /** The defers of the current scope, on top of those of the enclosing ones. */
  ghost predicate Local(outer: seq<(nat, seq<Stmt>)>, ds: seq<(nat, seq<Stmt>)>, d: nat) {
    outer <= ds && forall i | |outer| <= i < |ds| :: ds[i].0 == d
  }

  /** Dropping the current scope's defers leaves the enclosing scopes'. */
  lemma {:induction false} KeepOuter(outer: seq<(nat, seq<Stmt>)>, ds: seq<(nat, seq<Stmt>)>, d: nat)
    requires Local(outer, ds, d) && forall i | 0 <= i < |outer| :: outer[i].0 < d
    ensures Keep(ds, d) == outer
    decreases |ds|
  {
    if |ds| == |outer| {
      assert ds == outer;
      KeepAll(ds, d);
    } else {
      KeepOuter(outer, ds[..|ds| - 1], d);
    }
  }

  /** Leaving several scopes at once runs the current scope's defers, then the enclosing ones'. */
  lemma {:induction false} PendingSplits(outer: seq<(nat, seq<Stmt>)>, ds: seq<(nat, seq<Stmt>)>, d: nat, e: nat)
    requires Local(outer, ds, d) && (forall i | 0 <= i < |outer| :: outer[i].0 < d) && e <= d
    ensures Pending(ds, e) == Pending(ds, d) + Pending(outer, e)
    decreases |ds|
  {
    if |ds| == |outer| {
      assert ds == outer;
      assert Pending(ds, d) == [];
      assert Pending(ds, e) == [] + Pending(outer, e);
    } else {
      PendingSplits(outer, ds[..|ds| - 1], d, e);
    }
  }

  lemma SortedPush(ds: seq<(nat, seq<Stmt>)>, depth: nat, body: seq<Stmt>)
    requires SortedDefers(ds, depth) && AllAllowed(body, false, true)
    ensures SortedDefers(ds + [(depth, body)], depth)
    ensures Pending(ds + [(depth, body)], depth) == [body] + Pending(ds, depth)
  {
    assert (ds + [(depth, body)])[..|ds|] == ds;
  }

  // ---------------------------------------------------------------------
  // the pieces of a compound statement
  // ---------------------------------------------------------------------

  /** A piece emitted at depth + 1 inside loops ls', seen as a builder of its own. */
  lemma OpenIfKeeps(b: Builder, cond: int)
    requires BuilderOk(b) && b.ctrl.At?
    ensures BuilderOk(OpenIf(b, cond)) && Extends(b.g, OpenIf(b, cond).g, OpenMerges(b.loops))
    ensures |OpenIf(b, cond).g| == |b.g| + 4 && OpenIf(b, cond).g[..|b.g|] == b.g
  {
    var b1 := OpenIf(b, cond);
    var ns := [Load(b.mem, cond), Branch(b.ctrl.node, |b.g|), IfTrue(|b.g| + 1), IfFalse(|b.g| + 1)];
    assert b1.g == b.g + ns;
    AppendKeeps(b.g, ns, OpenMerges(b.loops));
    LoopsSurvive(b.g, b1.g, OpenMerges(b.loops), b.loops, b.depth, b.depth);
  }

  lemma WhileNodesOk(b: Builder, cond: int)
    requires b.ctrl.At? && b.ctrl.node < |b.g| && b.mem < |b.g|
    ensures var g := b.g + WhileNodes(b, cond); forall k: nat | |b.g| <= k < |g| :: NodeOk(g, k)
  {
  }

  lemma ForNodesOk(b: Builder, id: int)
    requires b.ctrl.At? && b.ctrl.node < |b.g| && b.mem < |b.g|
    ensures var g := b.g + ForNodes(b, id); forall k: nat | |b.g| <= k < |g| :: NodeOk(g, k)
  {
  }

  lemma OpenWhileKeeps(b: Builder, cond: int)
    requires BuilderOk(b) && b.ctrl.At?
    ensures BuilderOk(OpenWhile(b, cond).(depth := b.depth + 1))
    ensures |OpenWhile(b, cond).g| == |b.g| + 6 && OpenWhile(b, cond).g[..|b.g|] == b.g
    ensures OpenMerges(OpenWhile(b, cond).loops) == OpenMerges(b.loops) + {|b.g|, |b.g| + 5}
  {
    hide Extends, WellBuilt;
    var b1, n := OpenWhile(b, cond), |b.g|;
    assert WellBuilt(b1.g) && Extends(b.g, b1.g, OpenMerges(b.loops)) by {
      WhileNodesOk(b, cond);
      AppendKeeps(b.g, WhileNodes(b, cond), OpenMerges(b.loops));
    }
    LoopsSurvive(b.g, b1.g, OpenMerges(b.loops), b.loops, b.depth, b.depth + 1);
    OpenMergesAppend(b.loops, Loop(n, n + 5, n, b.depth + 1));
  }

  lemma OpenForKeeps(b: Builder, id: int)
    requires BuilderOk(b) && b.ctrl.At?
    ensures BuilderOk(OpenFor(b, id).(depth := b.depth + 1))
    ensures |OpenFor(b, id).g| == |b.g| + 11 && OpenFor(b, id).g[..|b.g|] == b.g
    ensures OpenMerges(OpenFor(b, id).loops) == OpenMerges(b.loops) + {|b.g| + 2, |b.g| + 8, |b.g| + 9}
  {
    hide Extends;
    var b1, n := OpenFor(b, id), |b.g|;
    ForNodesOk(b, id);
    AppendKeeps(b.g, ForNodes(b, id), OpenMerges(b.loops));
    LoopsSurvive(b.g, b1.g, OpenMerges(b.loops), b.loops, b.depth, b.depth + 1);
    OpenMergesAppend(b.loops, Loop(n + 2, n + 8, n + 9, b.depth + 1));
  }

  lemma ElseKeeps(b: Builder, cond: int, bt: Builder)
    requires BuilderOk(b) && b.ctrl.At? && Emitted(OpenIf(b, cond), bt) && bt.defers == b.defers
    ensures BuilderOk(ElseOf(b, bt)) && |b.g| + 3 < |bt.g| && bt.g[|b.g| + 3] == IfFalse(|b.g| + 1)
  {
    var b1 := OpenIf(b, cond);
    OpenIfKeeps(b, cond);
    SameKind(b1.g, bt.g, OpenMerges(b.loops), |b.g| + 3);
  }

  lemma CloseIfKeeps(b: Builder, cond: int, bt: Builder, be: Builder)
    requires BuilderOk(b) && b.ctrl.At? && Emitted(OpenIf(b, cond), bt) && bt.defers == b.defers
    requires Emitted(ElseOf(b, bt), be) && be.defers == b.defers
    ensures Emitted(b, CloseIf(bt, be)) && CloseIf(bt, be).defers == b.defers
    ensures Extends(be.g, CloseIf(bt, be).g, {}) && Extends(bt.g, be.g, OpenMerges(b.loops))
  {
    var b', open := CloseIf(bt, be), OpenMerges(b.loops);
    OpenIfKeeps(b, cond);
    ExtendsTrans(b.g, OpenIf(b, cond).g, bt.g, open, open, open);
    ExtendsTrans(b.g, bt.g, be.g, open, open, open);
    if bt.ctrl.At? {
      SameKind(bt.g, be.g, open, bt.ctrl.node);
    }
    if bt.ctrl.At? && be.ctrl.At? {
      AppendKeeps(be.g, [Merge([(bt.ctrl.node, bt.mem), (be.ctrl.node, be.mem)])], {});
    } else {
      ExtendsSelf(be.g, {});
    }
    ExtendsTrans(b.g, be.g, b'.g, open, {}, open);
    LoopsSurvive(b.g, b'.g, open, b.loops, b.depth, b.depth);
  }

  lemma CloseWhileKeeps(b: Builder, cond: int, body: Builder)
    requires BuilderOk(b) && b.ctrl.At? && body.defers == b.defers && body.depth == b.depth
    requires Emitted(OpenWhile(b, cond).(depth := b.depth + 1), body.(depth := b.depth + 1))
    ensures Emitted(b, CloseWhile(b, body)) && CloseWhile(b, body).defers == b.defers
    ensures Extends(body.g, CloseWhile(b, body).g, {|b.g|})
  {
    var b1, n, b' := OpenWhile(b, cond), |b.g|, CloseWhile(b, body);
    var open1 := OpenMerges(b1.loops);
    OpenWhileKeeps(b, cond);
    SameKind(b1.g, body.g, open1, n);
    SameKind(b1.g, body.g, open1, n + 5);
    if body.ctrl.At? {
      AddInputKeeps(body.g, n, body.ctrl.node, body.mem, {n});
    } else {
      ExtendsSelf(body.g, {n});
    }
    SameKind(body.g, b'.g, {n}, n + 5);
    ExtendsTrans(b1.g, body.g, b'.g, open1, {n}, open1);
    ExtendsFrom(b.g, b1.g, b'.g, OpenMerges(b.loops), open1);
    LoopsSurvive(b.g, b'.g, OpenMerges(b.loops), b.loops, b.depth, b.depth);
  }

  lemma JoinForKeeps(b: Builder, body: Builder)
    requires BuilderOk(body)
    ensures WellBuilt(JoinFor(b, body)) && Extends(body.g, JoinFor(b, body), {|b.g| + 2, |b.g| + 9})
  {
    if body.ctrl.At? {
      AddInputKeeps(body.g, |b.g| + 9, body.ctrl.node, body.mem, {|b.g| + 2, |b.g| + 9});
    } else {
      ExtendsSelf(body.g, {|b.g| + 2, |b.g| + 9});
    }
  }

  lemma BumpForKeeps(b: Builder, id: int, g: Graph)
    requires WellBuilt(g) && |b.g| + 10 < |g|
    ensures WellBuilt(BumpFor(b, id, g)) && Extends(g, BumpFor(b, id, g), {|b.g| + 2, |b.g| + 9})
  {
    var n, two := |b.g|, {|b.g| + 2, |b.g| + 9};
    if g[n + 9].Merge? && g[n + 9].ins != [] {
      var ns := [Store(n + 9, LoopBump(id))];
      AppendKeeps(g, ns, two);
      AddInputKeeps(g + ns, n + 2, n + 10, |g|, two);
      ExtendsTrans(g, g + ns, BumpFor(b, id, g), two, two, two);
    } else {
      ExtendsSelf(g, two);
    }
  }

  lemma CloseForKeeps(b: Builder, id: int, body: Builder)
    requires BuilderOk(b) && b.ctrl.At? && body.defers == b.defers && body.depth == b.depth
    requires Emitted(OpenFor(b, id).(depth := b.depth + 1), body.(depth := b.depth + 1))
    ensures Emitted(b, CloseFor(b, id, body)) && CloseFor(b, id, body).defers == b.defers
    ensures Extends(body.g, CloseFor(b, id, body).g, {|b.g| + 2, |b.g| + 9})
    ensures Extends(body.g, JoinFor(b, body), {|b.g| + 2, |b.g| + 9})
    ensures Extends(JoinFor(b, body), CloseFor(b, id, body).g, {|b.g| + 2, |b.g| + 9})
  {
    var b1, n, b' := OpenFor(b, id), |b.g|, CloseFor(b, id, body);
    var open1, two := OpenMerges(b1.loops), {n + 2, n + 9};
    OpenForKeeps(b, id);
    JoinForKeeps(b, body.(depth := b.depth + 1));
    BumpForKeeps(b, id, JoinFor(b, body));
    ExtendsTrans(body.g, JoinFor(b, body), b'.g, two, two, two);
    assert b1.g[n + 8].Merge?;
    SameKind(b1.g, body.g, open1, n + 8);
    SameKind(body.g, b'.g, two, n + 8);
    ExtendsTrans(b1.g, body.g, b'.g, open1, two, open1);
    ExtendsFrom(b.g, b1.g, b'.g, OpenMerges(b.loops), open1);
    LoopsSurvive(b.g, b'.g, OpenMerges(b.loops), b.loops, b.depth, b.depth);
  }

  // ---------------------------------------------------------------------
  // every emission keeps the invariants
  // ---------------------------------------------------------------------

  lemma {:induction false} StmtEmitted(b: Builder, s: Stmt, inLoop: bool, inDefer: bool)
    requires BuilderOk(b) && Allowed(s, inLoop, inDefer) && (inLoop ==> b.loops != [])
    ensures Emitted(b, EmitStmt(b, s, inDefer))
    ensures EmitStmt(b, s, inDefer).defers == if s.Defer? && b.ctrl.At? then b.defers + [(b.depth, s.body)] else b.defers
    ensures inDefer && b.ctrl.At? ==> EmitStmt(b, s, inDefer).ctrl.At?
    decreases if inDefer then 0 else 2, s, 1
  {
    var open := OpenMerges(b.loops);
    if b.ctrl.Dead? {
      ExtendsSelf(b.g, open);
      return;
    }
    hide BuilderOk, Extends;
    match s
    case Effect(id) => EffectEmitted(b, id);
    case If(cond, thn, els) => IfEmitted(b, cond, thn, els, inLoop, inDefer);
    case While(cond, body) => WhileEmitted(b, cond, body, inDefer);
    case For(id, body) => ForEmitted(b, id, body, inDefer);
    case Block(body) => ScopeEmitted(b, body, inLoop, inDefer);
    case Defer(body) => DeferEmitted(b, body);
    case Break => LeaveEmitted(b, b.loops[|b.loops| - 1].exit);
    case Continue => LeaveEmitted(b, b.loops[|b.loops| - 1].cont);
    case Return(value) => ReturnEmitted(b, value);
  }

  lemma {:induction false} IfEmitted(b: Builder, cond: int, thn: seq<Stmt>, els: seq<Stmt>, inLoop: bool, inDefer: bool)
    requires BuilderOk(b) && b.ctrl.At? && AllAllowed(thn, inLoop, inDefer) && AllAllowed(els, inLoop, inDefer)
    requires inLoop ==> b.loops != []
    ensures var bt := EmitScope(OpenIf(b, cond), thn, inDefer);
            var be := EmitScope(ElseOf(b, bt), els, inDefer);
            && Emitted(OpenIf(b, cond), bt) && bt.defers == b.defers
            && BuilderOk(ElseOf(b, bt)) && Emitted(ElseOf(b, bt), be) && be.defers == b.defers
            && Emitted(b, CloseIf(bt, be)) && CloseIf(bt, be).defers == b.defers
            && (inDefer ==> CloseIf(bt, be).ctrl.At?)
    decreases if inDefer then 0 else 2, If(cond, thn, els), 0
  {
    OpenIfKeeps(b, cond);
    ScopeEmitted(OpenIf(b, cond), thn, inLoop, inDefer);
    var bt := EmitScope(OpenIf(b, cond), thn, inDefer);
    ElseKeeps(b, cond, bt);
    ScopeEmitted(ElseOf(b, bt), els, inLoop, inDefer);
    CloseIfKeeps(b, cond, bt, EmitScope(ElseOf(b, bt), els, inDefer));
  }

  lemma {:induction false} WhileEmitted(b: Builder, cond: int, body: seq<Stmt>, inDefer: bool)
    requires BuilderOk(b) && b.ctrl.At? && AllAllowed(body, true, inDefer)
    ensures Emitted(b, CloseWhile(b, EmitScope(OpenWhile(b, cond), body, inDefer)))
    ensures EmitScope(OpenWhile(b, cond), body, inDefer).defers == b.defers
    decreases if inDefer then 0 else 2, body, 4
  {
    OpenWhileKeeps(b, cond);
    InnerScope(OpenWhile(b, cond), body, true, inDefer);
    CloseWhileKeeps(b, cond, EmitScope(OpenWhile(b, cond), body, inDefer));
  }

  lemma {:induction false} ForEmitted(b: Builder, id: int, body: seq<Stmt>, inDefer: bool)
    requires BuilderOk(b) && b.ctrl.At? && AllAllowed(body, true, inDefer)
    ensures Emitted(b, CloseFor(b, id, EmitScope(OpenFor(b, id), body, inDefer)))
    ensures EmitScope(OpenFor(b, id), body, inDefer).defers == b.defers
    decreases if inDefer then 0 else 2, body, 4
  {
    OpenForKeeps(b, id);
    InnerScope(OpenFor(b, id), body, true, inDefer);
    CloseForKeeps(b, id, EmitScope(OpenFor(b, id), body, inDefer));
  }

  lemma EffectEmitted(b: Builder, id: int)
    requires BuilderOk(b) && b.ctrl.At?
    ensures Emitted(b, b.(g := b.g + [Store(b.mem, Did(id))], mem := |b.g|))
  {
    var ns := [Store(b.mem, Did(id))];
    AppendKeeps(b.g, ns, OpenMerges(b.loops));
    LoopsSurvive(b.g, b.g + ns, OpenMerges(b.loops), b.loops, b.depth, b.depth);
  }

  lemma DeferEmitted(b: Builder, body: seq<Stmt>)
    requires BuilderOk(b) && AllAllowed(body, false, true)
    ensures Emitted(b, b.(defers := b.defers + [(b.depth, body)]))
  {
    SortedPush(b.defers, b.depth, body);
    ExtendsSelf(b.g, OpenMerges(b.loops));
  }

  lemma LeaveEmitted(b: Builder, target: nat)
    requires BuilderOk(b) && b.ctrl.At? && b.loops != []
    requires target == b.loops[|b.loops| - 1].exit || target == b.loops[|b.loops| - 1].cont
    ensures var bodies := EmitBodies(b, Pending(b.defers, b.loops[|b.loops| - 1].bodyDepth));
            && Emitted(b, bodies) && bodies.ctrl.At? && Emitted(bodies, LeaveTo(bodies, target))
            && Emitted(b, LeaveTo(bodies, target)) && bodies.defers == b.defers
            && target < |LeaveTo(bodies, target).g| && LeaveTo(bodies, target).g[target].Merge?
            && (bodies.ctrl.node, bodies.mem) in LeaveTo(bodies, target).g[target].ins
    decreases 1, 2, 0
  {
    var l := b.loops[|b.loops| - 1];
    var open := OpenMerges(b.loops);
    PendingAllowed(b.defers, b.depth, l.bodyDepth);
    BodiesEmitted(b, Pending(b.defers, l.bodyDepth));
    var b1 := EmitBodies(b, Pending(b.defers, l.bodyDepth));
    assert target in open by {
      assert target in LoopMerges(l);
    }
    assert LoopOk(b1.g, l, b1.depth);
    AddInputKeeps(b1.g, target, b1.ctrl.node, b1.mem, open);
    var b2 := LeaveTo(b1, target);
    assert b2.g[target].ins[|b1.g[target].ins|] == (b1.ctrl.node, b1.mem);
    LoopsSurvive(b1.g, b2.g, open, b.loops, b.depth, b.depth);
    EmittedTrans(b, b1, b2);
  }

  lemma ReturnEmitted(b: Builder, value: Option<int>)
    requires BuilderOk(b) && b.ctrl.At?
    ensures var start := OpenReturn(b, value);
            var bodies := EmitBodies(start, Pending(b.defers, 0));
            && Emitted(b, start) && Emitted(start, bodies) && bodies.ctrl.At? && bodies.defers == b.defers
            && Emitted(b, CloseReturn(bodies, ValueOf(b, value))) && Extends(bodies.g, CloseReturn(bodies, ValueOf(b, value)).g, {})
    decreases 1, 2, 0
  {
    var open := OpenMerges(b.loops);
    var start := OpenReturn(b, value);
    if value.Some? {
      AppendKeeps(b.g, [Load(b.mem, value.value)], open);
    } else {
      ExtendsSelf(b.g, open);
    }
    LoopsSurvive(b.g, start.g, open, b.loops, b.depth, b.depth);
    if b.ctrl.At? {
      SameKind(b.g, start.g, open, b.ctrl.node);
    }
    PendingAllowed(b.defers, b.depth, 0);
    BodiesEmitted(start, Pending(b.defers, 0));
    var bodies := EmitBodies(start, Pending(b.defers, 0));
    var b' := CloseReturn(bodies, ValueOf(b, value));
    AppendKeeps(bodies.g, [Ret(bodies.ctrl.node, bodies.mem, ValueOf(b, value))], open);
    AppendKeeps(bodies.g, [Ret(bodies.ctrl.node, bodies.mem, ValueOf(b, value))], {});
    LoopsSurvive(bodies.g, b'.g, open, b.loops, b.depth, b.depth);
    EmittedTrans(b, start, bodies);
    EmittedTrans(b, bodies, b');
  }

  lemma {:induction false} ScopeEmitted(b: Builder, ss: seq<Stmt>, inLoop: bool, inDefer: bool)
    requires BuilderOk(b) && AllAllowed(ss, inLoop, inDefer) && (inLoop ==> b.loops != [])
    ensures Emitted(b, EmitScope(b, ss, inDefer)) && EmitScope(b, ss, inDefer).defers == b.defers
    ensures inDefer && b.ctrl.At? ==> EmitScope(b, ss, inDefer).ctrl.At?
    decreases if inDefer then 0 else 2, ss, 3
  {
    LoopsSurviveDeeper(b);
    InnerScope(b, ss, inLoop, inDefer);
    LoopsSurvive(b.g, EmitScope(b, ss, inDefer).g, OpenMerges(b.loops), b.loops, b.depth, b.depth);
  }

  lemma LoopsSurviveDeeper(b: Builder)
    requires BuilderOk(b)
    ensures BuilderOk(b.(depth := b.depth + 1))
  {
    ExtendsSelf(b.g, {});
    LoopsSurvive(b.g, b.g, {}, b.loops, b.depth, b.depth + 1);
  }

  lemma {:induction false} InnerScope(b: Builder, ss: seq<Stmt>, inLoop: bool, inDefer: bool)
    requires BuilderOk(b.(depth := b.depth + 1)) && AllAllowed(ss, inLoop, inDefer) && (inLoop ==> b.loops != [])
    requires SortedDefers(b.defers, b.depth)
    ensures Emitted(b.(depth := b.depth + 1), EmitScope(b, ss, inDefer).(depth := b.depth + 1))
    ensures EmitScope(b, ss, inDefer).defers == b.defers && EmitScope(b, ss, inDefer).depth == b.depth
    ensures inDefer && b.ctrl.At? ==> EmitScope(b, ss, inDefer).ctrl.At?
    decreases if inDefer then 0 else 2, ss, 2
  {
    hide Extends, WellBuilt;
    var d := b.depth + 1;
    var inner := b.(depth := d);
    ListEmitted(inner, ss, inLoop, inDefer);
    var b1 := EmitList(inner, ss, inDefer);
    KeepOuter(b.defers, b1.defers, d);
    if !inDefer {
      PendingAllowed(b1.defers, d, d);
      BodiesEmitted(b1, Pending(b1.defers, d));
      EmittedTrans(inner, b1, EmitBodies(b1, Pending(b1.defers, d)));
    }
  }

  lemma {:induction false} ListEmitted(b: Builder, ss: seq<Stmt>, inLoop: bool, inDefer: bool)
    requires BuilderOk(b) && AllAllowed(ss, inLoop, inDefer) && (inLoop ==> b.loops != [])
    ensures Emitted(b, EmitList(b, ss, inDefer)) && Local(b.defers, EmitList(b, ss, inDefer).defers, b.depth)
    ensures inDefer ==> EmitList(b, ss, inDefer).defers == b.defers
    ensures inDefer && b.ctrl.At? ==> EmitList(b, ss, inDefer).ctrl.At?
    decreases if inDefer then 0 else 2, ss, 1
  {
    if ss == [] {
      ExtendsSelf(b.g, OpenMerges(b.loops));
    } else {
      StmtEmitted(b, ss[0], inLoop, inDefer);
      var b1 := EmitStmt(b, ss[0], inDefer);
      ListEmitted(b1, ss[1..], inLoop, inDefer);
      EmittedTrans(b, b1, EmitList(b1, ss[1..], inDefer));
    }
  }

  lemma {:induction false} BodiesEmitted(b: Builder, bodies: seq<seq<Stmt>>)
    requires BuilderOk(b) && forall i | 0 <= i < |bodies| :: AllAllowed(bodies[i], false, true)
    ensures Emitted(b, EmitBodies(b, bodies)) && EmitBodies(b, bodies).defers == b.defers
    ensures b.ctrl.At? ==> EmitBodies(b, bodies).ctrl.At?
    decreases 1, 0, |bodies|
  {
    if bodies == [] || b.ctrl.Dead? {
      ExtendsSelf(b.g, OpenMerges(b.loops));
    } else {
      ListEmitted(b, bodies[0], false, true);
      var b1 := EmitList(b, bodies[0], true);
      BodiesEmitted(b1, bodies[1..]);
      EmittedTrans(b, b1, EmitBodies(b1, bodies[1..]));
    }
  }
}
