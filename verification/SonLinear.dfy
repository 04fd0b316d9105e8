/** Emission threads control: every control node feeds at most one input, so the graph runs deterministically. */
module SonLinear {
  import opened DeferLang
  import opened SonGraph
  import opened SonBuilder
  import opened Options

  /** Input i of node y takes control from x. */
  ghost predicate Uses(g: Graph, x: nat, y: nat, i: nat) {
    y < |g| && if g[y].Merge? then i < |g[y].ins| && g[y].ins[i].0 == x else i == 0 && TakesControl(g, x, y)
  }

  ghost predicate Unused(g: Graph, x: nat) {
    forall y: nat, i: nat :: !Uses(g, x, y, i)
  }

  ghost predicate UsedOnce(g: Graph) {
    forall x: nat, y: nat, i: nat, y': nat, i': nat :: Uses(g, x, y, i) && Uses(g, x, y', i') ==> y == y' && i == i'
  }

  // ---------------------------------------------------------------------
  // runs are deterministic
  // ---------------------------------------------------------------------

  lemma StepUses(g: Graph, o: Oracle, a: Cfg, b: Cfg) returns (i: nat)
    requires Step(g, o, a, b) && !g[a.at].Branch?
    ensures Uses(g, a.at, b.at, i)
    ensures b == Cfg(b.at, if g[b.at].Merge? && i < |g[b.at].ins| then a.env[b.at := Eval(g, a.env, g[b.at].ins[i].1)] else a.env)
  {
    if g[b.at].Merge? {
      i :| i < |g[b.at].ins| && Enters(g, a, b, i);
    } else {
      i := 0;
    }
  }

  lemma StepOnce(g: Graph, o: Oracle, a: Cfg, b: Cfg, c: Cfg)
    requires UsedOnce(g) && Step(g, o, a, b) && Step(g, o, a, c)
    ensures b == c
  {
    if !g[a.at].Branch? {
      var i := StepUses(g, o, a, b);
      var j := StepUses(g, o, a, c);
    }
  }

  /** Of two runs from one place the shorter is a prefix of the longer. */
  lemma {:induction false} RunsAgree(g: Graph, o: Oracle, a: Cfg, n: nat, b: Cfg, k: nat, c: Cfg)
    requires UsedOnce(g) && Steps(g, o, a, n, b) && Steps(g, o, a, k, c) && n <= k
    ensures Steps(g, o, b, k - n, c)
    decreases n
  {
    if n > 0 {
      var m :| Step(g, o, a, m) && Steps(g, o, m, n - 1, b);
      var m' :| Step(g, o, a, m') && Steps(g, o, m', k - 1, c);
      StepOnce(g, o, a, m, m');
      RunsAgree(g, o, m, n - 1, b, k - 1, c);
    }
  }

  /** Control cannot go on from here. */
  ghost predicate Stuck(g: Graph, o: Oracle, a: Cfg) {
    forall b :: !Step(g, o, a, b)
  }

  /** Where a run ends, every run ends. */
  lemma EndsAgree(g: Graph, o: Oracle, a: Cfg, b: Cfg, c: Cfg)
    requires UsedOnce(g) && Reaches(g, o, a, b) && Reaches(g, o, a, c) && Stuck(g, o, b) && Stuck(g, o, c)
    ensures b == c
  {
    var n: nat :| Steps(g, o, a, n, b);
    var k: nat :| Steps(g, o, a, k, c);
    if n <= k {
      RunsAgree(g, o, a, n, b, k, c);
    } else {
      RunsAgree(g, o, a, k, c, n, b);
    }
  }

  /** A run that ends cannot be continued for ever. */
  lemma EndsThenBounded(g: Graph, o: Oracle, a: Cfg, b: Cfg) returns (n: nat)
    requires UsedOnce(g) && Reaches(g, o, a, b) && Stuck(g, o, b)
    ensures !CanRun(g, o, a, n)
  {
    var k: nat :| Steps(g, o, a, k, b);
    n := k + 1;
    forall c ensures !Steps(g, o, a, n, c) {
      if Steps(g, o, a, n, c) {
        RunsAgree(g, o, a, k, b, n, c);
      }
    }
  }

  lemma ReturnIsStuck(g: Graph, o: Oracle, a: Cfg)
    requires a.at < |g| && g[a.at].Ret?
    ensures Stuck(g, o, a)
  {
  }

  lemma UnusedIsStuck(g: Graph, o: Oracle, a: Cfg)
    requires a.at < |g| && !g[a.at].Branch? && Unused(g, a.at)
    ensures Stuck(g, o, a)
  {
    forall b ensures !Step(g, o, a, b) {
      if Step(g, o, a, b) {
        var i := StepUses(g, o, a, b);
        assert false;
      }
    }
  }

  // ---------------------------------------------------------------------
  // the two ways a graph grows
  // ---------------------------------------------------------------------

  lemma UnusedBeyond(g: Graph, x: nat)
    requires WellBuilt(g) && x >= |g|
    ensures Unused(g, x)
  {
    forall y: nat, i: nat ensures !Uses(g, x, y, i) {
      if y < |g| {
        assert NodeOk(g, y);
      }
    }
  }

  /** The appended nodes take control from unused nodes, no two from one. */
  ghost predicate FreshUses(g: Graph, h: Graph) {
    && |g| <= |h| && h[..|g|] == g
    && (forall x: nat, y: nat, i: nat | y >= |g| && Uses(h, x, y, i) :: Unused(g, x))
    && (forall x: nat, y: nat, i: nat, y': nat, i': nat | y >= |g| && y' >= |g| && Uses(h, x, y, i) && Uses(h, x, y', i') :: y == y' && i == i')
  }

  lemma OldUse(g: Graph, h: Graph, x: nat, y: nat, i: nat)
    requires |g| <= |h| && h[..|g|] == g && y < |g|
    ensures Uses(h, x, y, i) <==> Uses(g, x, y, i)
  {
    assert h[y] == h[..|g|][y];
  }

  lemma AppendThreads(g: Graph, h: Graph)
    requires UsedOnce(g) && FreshUses(g, h)
    ensures UsedOnce(h)
  {
    forall x: nat, y: nat, i: nat, y': nat, i': nat | Uses(h, x, y, i) && Uses(h, x, y', i') ensures y == y' && i == i' {
      if y < |g| {
        OldUse(g, h, x, y, i);
      }
      if y' < |g| {
        OldUse(g, h, x, y', i');
      }
    }
  }

  lemma StaysUnused(g: Graph, h: Graph, x: nat)
    requires |g| <= |h| && h[..|g|] == g && Unused(g, x)
    requires forall y: nat, i: nat | y >= |g| :: !Uses(h, x, y, i)
    ensures Unused(h, x)
  {
    forall y: nat, i: nat ensures !Uses(h, x, y, i) {
      if y < |g| {
        OldUse(g, h, x, y, i);
      }
    }
  }

  lemma InputUse(g: Graph, r: nat, c: nat, m: nat, x: nat, y: nat, i: nat)
    requires r < |g| && g[r].Merge? && Uses(AddInput(g, r, c, m), x, y, i)
    ensures Uses(g, x, y, i) || (x == c && y == r && i == |g[r].ins|)
  {
  }

  lemma InputThreads(g: Graph, r: nat, c: nat, m: nat)
    requires r < |g| && g[r].Merge? && UsedOnce(g) && Unused(g, c)
    ensures UsedOnce(AddInput(g, r, c, m))
    ensures forall x: nat | x != c && Unused(g, x) :: Unused(AddInput(g, r, c, m), x)
  {
    var h := AddInput(g, r, c, m);
    forall x: nat, y: nat, i: nat, y': nat, i': nat | Uses(h, x, y, i) && Uses(h, x, y', i') ensures y == y' && i == i' {
      InputUse(g, r, c, m, x, y, i);
      InputUse(g, r, c, m, x, y', i');
    }
    forall x: nat | x != c && Unused(g, x) ensures Unused(h, x) {
      forall y: nat, i: nat ensures !Uses(h, x, y, i) {
        if Uses(h, x, y, i) {
          InputUse(g, r, c, m, x, y, i);
          assert false;
        }
      }
    }
  }

  // ---------------------------------------------------------------------
  // what every emission keeps
  // ---------------------------------------------------------------------

  /** Control is single-threaded so far, and its current end is unused. */
  ghost predicate Threadable(b: Builder) {
    UsedOnce(b.g) && (b.ctrl.At? ==> Unused(b.g, b.ctrl.node))
  }

  /** Emission used the current control or nodes of its own: everything else that was unused still is. */
  ghost predicate Threaded(b: Builder, b': Builder) {
    && |b.g| <= |b'.g|
    && (b'.ctrl.At? ==> b'.ctrl == b.ctrl || b'.ctrl.node >= |b.g|)
    && (forall x: nat | x < |b.g| && b.ctrl != At(x) && Unused(b.g, x) :: Unused(b'.g, x))
  }

  lemma ThreadedTrans(b: Builder, b1: Builder, b2: Builder)
    requires Threaded(b, b1) && Threaded(b1, b2)
    ensures Threaded(b, b2)
  {
    hide Unused;
  }

  lemma EffectThreads(b: Builder, node: Node)
    requires BuilderOk(b) && Threadable(b) && (node.Store? || node.Load? || node.Const?)
    ensures forall m: nat :: Threadable(b.(g := b.g + [node], mem := m)) && Threaded(b, b.(g := b.g + [node], mem := m))
  {
    var h := b.g + [node];
    AppendThreads(b.g, h);
    forall x: nat | Unused(b.g, x) ensures Unused(h, x) {
      StaysUnused(b.g, h, x);
    }
  }

  lemma LeaveThreads(b: Builder, target: nat)
    requires BuilderOk(b) && b.ctrl.At? && Threadable(b) && target < |b.g| && b.g[target].Merge?
    ensures Threadable(LeaveTo(b, target)) && Threaded(b, LeaveTo(b, target))
  {
    InputThreads(b.g, target, b.ctrl.node, b.mem);
  }

  lemma ReturnThreads(b: Builder, value: Option<nat>)
    requires BuilderOk(b) && b.ctrl.At? && Threadable(b)
    ensures Threadable(CloseReturn(b, value)) && Threaded(b, CloseReturn(b, value))
  {
    var h := b.g + [Ret(b.ctrl.node, b.mem, value)];
    AppendThreads(b.g, h);
    forall x: nat | Unused(b.g, x) && x != b.ctrl.node ensures Unused(h, x) {
      StaysUnused(b.g, h, x);
    }
  }

  lemma OpenIfThreads(b: Builder, cond: int)
    requires BuilderOk(b) && b.ctrl.At? && Threadable(b)
    ensures Threadable(OpenIf(b, cond)) && Threaded(b, OpenIf(b, cond)) && Unused(OpenIf(b, cond).g, |b.g| + 3)
  {
    var n, h := |b.g|, OpenIf(b, cond).g;
    assert forall x: nat, y: nat, i: nat | y >= n && Uses(h, x, y, i) :: x == b.ctrl.node && y == n + 1;
    AppendThreads(b.g, h);
    UnusedBeyond(b.g, n + 2);
    UnusedBeyond(b.g, n + 3);
    forall x: nat | Unused(b.g, x) && x != b.ctrl.node ensures Unused(h, x) {
      StaysUnused(b.g, h, x);
    }
  }

  lemma CloseIfThreads(b: Builder, cond: int, bt: Builder, be: Builder)
    requires BuilderOk(b) && b.ctrl.At? && BuilderOk(bt) && BuilderOk(be)
    requires Threaded(b, OpenIf(b, cond)) && Threaded(OpenIf(b, cond), bt) && Threadable(bt)
    requires Threaded(ElseOf(b, bt), be) && Threadable(be) && bt.ctrl != At(|b.g| + 3)
    ensures Threadable(CloseIf(bt, be)) && Threaded(b, CloseIf(bt, be))
  {
    var n := |b.g|;
    assert bt.ctrl.At? ==> Unused(be.g, bt.ctrl.node);
    assert forall x: nat | x < n && x != b.ctrl.node && Unused(b.g, x) :: Unused(be.g, x);
    if bt.ctrl.At? && be.ctrl.At? {
      var h := CloseIf(bt, be).g;
      assert forall x: nat, y: nat, i: nat | y >= |be.g| && Uses(h, x, y, i) ::
          y == |be.g| && ((i == 0 && x == bt.ctrl.node) || (i == 1 && x == be.ctrl.node));
      AppendThreads(be.g, h);
      UnusedBeyond(be.g, |be.g|);
      forall x: nat | Unused(be.g, x) && x != bt.ctrl.node && x != be.ctrl.node ensures Unused(h, x) {
        StaysUnused(be.g, h, x);
      }
    }
  }

  lemma OpenWhileThreads(b: Builder, cond: int)
    requires BuilderOk(b) && b.ctrl.At? && Threadable(b)
    ensures Threadable(OpenWhile(b, cond)) && Threaded(b, OpenWhile(b, cond)) && Unused(OpenWhile(b, cond).g, |b.g| + 5)
  {
    var n, h := |b.g|, OpenWhile(b, cond).g;
    assert forall x: nat, y: nat, i: nat | y >= n && Uses(h, x, y, i) ::
        i == 0 && ((y == n && x == b.ctrl.node) || (y == n + 2 && x == n) || (y == n + 5 && x == n + 4));
    UnusedBeyond(b.g, n);
    UnusedBeyond(b.g, n + 3);
    UnusedBeyond(b.g, n + 4);
    UnusedBeyond(b.g, n + 5);
    AppendThreads(b.g, h);
    forall x: nat | Unused(b.g, x) && x != b.ctrl.node && x != n && x != n + 4 ensures Unused(h, x) {
      StaysUnused(b.g, h, x);
    }
  }

  lemma CloseWhileThreads(b: Builder, cond: int, body: Builder)
    requires BuilderOk(b) && b.ctrl.At? && |b.g| + 6 <= |body.g| && body.g[|b.g|].Merge?
    requires Threaded(b, OpenWhile(b, cond)) && Unused(OpenWhile(b, cond).g, |b.g| + 5)
    requires Threaded(OpenWhile(b, cond), body) && Threadable(body)
    ensures Threadable(CloseWhile(b, body)) && Threaded(b, CloseWhile(b, body))
  {
    if body.ctrl.At? {
      InputThreads(body.g, |b.g|, body.ctrl.node, body.mem);
    }
  }

  lemma ForUses(b: Builder, id: int)
    requires b.ctrl.At?
    ensures var n, h := |b.g|, OpenFor(b, id).g;
            forall x: nat, y: nat, i: nat | y >= n && Uses(h, x, y, i) ::
              i == 0 && ((y == n + 2 && x == b.ctrl.node) || (y == n + 5 && x == n + 2) || (y == n + 8 && x == n + 7) || (y == n + 10 && x == n + 9))
  {
  }

  lemma OpenForThreads(b: Builder, id: int)
    requires BuilderOk(b) && b.ctrl.At? && Threadable(b)
    ensures Threadable(OpenFor(b, id)) && Threaded(b, OpenFor(b, id))
    ensures Unused(OpenFor(b, id).g, |b.g| + 8) && Unused(OpenFor(b, id).g, |b.g| + 10)
  {
    var n, h := |b.g|, OpenFor(b, id).g;
    assert h[..n] == b.g;
    ForUses(b, id);
    hide OpenFor, Uses, WellBuilt, SortedDefers, LoopOk;
    UnusedBeyond(b.g, n + 2);
    UnusedBeyond(b.g, n + 6);
    UnusedBeyond(b.g, n + 7);
    UnusedBeyond(b.g, n + 8);
    UnusedBeyond(b.g, n + 9);
    UnusedBeyond(b.g, n + 10);
    AppendThreads(b.g, h);
    forall x: nat | Unused(b.g, x) && x != b.ctrl.node && x != n + 2 && x != n + 7 && x != n + 9 ensures Unused(h, x) {
      StaysUnused(b.g, h, x);
    }
  }

  lemma CloseForThreads(b: Builder, id: int, body: Builder)
    requires BuilderOk(b) && b.ctrl.At? && |b.g| + 11 <= |body.g| && body.g[|b.g| + 2].Merge? && body.g[|b.g| + 9].Merge?
    requires Threaded(b, OpenFor(b, id)) && Unused(OpenFor(b, id).g, |b.g| + 8) && Unused(OpenFor(b, id).g, |b.g| + 10)
    requires Threaded(OpenFor(b, id), body) && Threadable(body)
    ensures Threadable(CloseFor(b, id, body)) && Threaded(b, CloseFor(b, id, body))
  {
    var n := |b.g|;
    var g := JoinFor(b, body);
    if body.ctrl.At? {
      InputThreads(body.g, n + 9, body.ctrl.node, body.mem);
    }
    var b1 := body.(g := g, ctrl := At(n + 8));
    assert Threadable(b1) && Threaded(b, b1) && Unused(g, n + 10);
    if g[n + 9].ins != [] {
      var h := g + [Store(n + 9, LoopBump(id))];
      AppendThreads(g, h);
      forall x: nat | Unused(g, x) ensures Unused(h, x) {
        StaysUnused(g, h, x);
      }
      InputThreads(h, n + 2, n + 10, |g|);
    }
  }

  lemma {:induction false} StmtThreads(b: Builder, s: Stmt, inLoop: bool, inDefer: bool)
    requires BuilderOk(b) && Allowed(s, inLoop, inDefer) && (inLoop ==> b.loops != []) && Threadable(b)
    ensures Threadable(EmitStmt(b, s, inDefer)) && Threaded(b, EmitStmt(b, s, inDefer))
    decreases if inDefer then 0 else 2, s, 1
  {
    if b.ctrl.Dead? {
      return;
    }
    assert SortedDefers(b.defers, b.depth);
    hide BuilderOk, Threadable, Threaded;
    match s
    case Effect(id) => EffectThreads(b, Store(b.mem, Did(id)));
    case If(cond, thn, els) => IfThreads(b, cond, thn, els, inLoop, inDefer);
    case While(cond, body) => WhileThreads(b, cond, body, inDefer);
    case For(id, body) => ForThreads(b, id, body, inDefer);
    case Block(body) =>
      LoopsSurviveDeeper(b);
      ScopeThreads(b, body, inLoop, inDefer);
    case Defer(body) => DeferThreads(b, body);
    case Break => ExitThreads(b, b.loops[|b.loops| - 1].exit);
    case Continue => ExitThreads(b, b.loops[|b.loops| - 1].cont);
    case Return(value) => AnswerThreads(b, value);
  }

  lemma DeferThreads(b: Builder, body: seq<Stmt>)
    requires BuilderOk(b) && Threadable(b)
    ensures Threadable(b.(defers := b.defers + [(b.depth, body)])) && Threaded(b, b.(defers := b.defers + [(b.depth, body)]))
  {
  }

  lemma {:induction false} ExitThreads(b: Builder, target: nat)
    requires BuilderOk(b) && b.ctrl.At? && b.loops != [] && Threadable(b)
    requires target == b.loops[|b.loops| - 1].exit || target == b.loops[|b.loops| - 1].cont
    ensures var b' := LeaveTo(EmitBodies(b, Pending(b.defers, b.loops[|b.loops| - 1].bodyDepth)), target);
            Threadable(b') && Threaded(b, b')
    decreases 1, 2, 0
  {
    hide Threadable, Threaded, Extends, WellBuilt;
    var l := b.loops[|b.loops| - 1];
    var bodies := EmitBodies(b, Pending(b.defers, l.bodyDepth));
    PendingAllowed(b.defers, b.depth, l.bodyDepth);
    LeaveEmitted(b, target);
    BodiesThread(b, Pending(b.defers, l.bodyDepth));
    assert LoopOk(bodies.g, l, bodies.depth);
    LeaveThreads(bodies, target);
    ThreadedTrans(b, bodies, LeaveTo(bodies, target));
  }

  lemma {:induction false} AnswerThreads(b: Builder, value: Option<int>)
    requires BuilderOk(b) && b.ctrl.At? && Threadable(b)
    ensures var b' := CloseReturn(EmitBodies(OpenReturn(b, value), Pending(b.defers, 0)), ValueOf(b, value));
            Threadable(b') && Threaded(b, b')
    decreases 1, 2, 0
  {
    hide Unused, UsedOnce, Extends, WellBuilt;
    var start := OpenReturn(b, value);
    var bodies := EmitBodies(start, Pending(b.defers, 0));
    PendingAllowed(b.defers, b.depth, 0);
    ReturnEmitted(b, value);
    if value.Some? {
      EffectThreads(b, Load(b.mem, value.value));
      assert start == b.(g := b.g + [Load(b.mem, value.value)], mem := b.mem);
    }
    BodiesThread(start, Pending(b.defers, 0));
    ReturnThreads(bodies, ValueOf(b, value));
    ThreadedTrans(b, start, bodies);
    ThreadedTrans(b, bodies, CloseReturn(bodies, ValueOf(b, value)));
  }

  lemma {:induction false} IfThreads(b: Builder, cond: int, thn: seq<Stmt>, els: seq<Stmt>, inLoop: bool, inDefer: bool)
    requires BuilderOk(b) && b.ctrl.At? && AllAllowed(thn, inLoop, inDefer) && AllAllowed(els, inLoop, inDefer)
    requires (inLoop ==> b.loops != []) && Threadable(b)
    ensures var bt := EmitScope(OpenIf(b, cond), thn, inDefer);
            var b' := CloseIf(bt, EmitScope(ElseOf(b, bt), els, inDefer));
            Threadable(b') && Threaded(b, b')
    decreases if inDefer then 0 else 2, If(cond, thn, els), 0
  {
    hide UsedOnce, Extends, WellBuilt, LoopOk;
    var b1 := OpenIf(b, cond);
    var bt := EmitScope(b1, thn, inDefer);
    var b2 := ElseOf(b, bt);
    IfEmitted(b, cond, thn, els, inLoop, inDefer);
    OpenIfKeeps(b, cond);
    OpenIfThreads(b, cond);
    LoopsSurviveDeeper(b1);
    ScopeThreads(b1, thn, inLoop, inDefer);
    LoopsSurviveDeeper(b2);
    assert Unused(bt.g, |b.g| + 3);
    ScopeThreads(b2, els, inLoop, inDefer);
    CloseIfThreads(b, cond, bt, EmitScope(b2, els, inDefer));
  }

  lemma {:induction false} WhileThreads(b: Builder, cond: int, body: seq<Stmt>, inDefer: bool)
    requires BuilderOk(b) && b.ctrl.At? && AllAllowed(body, true, inDefer) && Threadable(b)
    ensures var b' := CloseWhile(b, EmitScope(OpenWhile(b, cond), body, inDefer)); Threadable(b') && Threaded(b, b')
    decreases if inDefer then 0 else 2, body, 4
  {
    hide Threadable, Threaded, Unused, WellBuilt, LoopOk;
    var b1 := OpenWhile(b, cond);
    var bt := EmitScope(b1, body, inDefer);
    OpenWhileKeeps(b, cond);
    OpenWhileThreads(b, cond);
    InnerScope(b1, body, true, inDefer);
    ScopeThreads(b1, body, true, inDefer);
    SameKind(b1.g, bt.g, OpenMerges(b1.loops), |b.g|);
    CloseWhileThreads(b, cond, bt);
  }

  lemma {:induction false} ForThreads(b: Builder, id: int, body: seq<Stmt>, inDefer: bool)
    requires BuilderOk(b) && b.ctrl.At? && AllAllowed(body, true, inDefer) && Threadable(b)
    ensures var b' := CloseFor(b, id, EmitScope(OpenFor(b, id), body, inDefer)); Threadable(b') && Threaded(b, b')
    decreases if inDefer then 0 else 2, body, 4
  {
    hide Threadable, Threaded, Unused, WellBuilt, LoopOk;
    var b1 := OpenFor(b, id);
    var bt := EmitScope(b1, body, inDefer);
    OpenForKeeps(b, id);
    OpenForThreads(b, id);
    InnerScope(b1, body, true, inDefer);
    ScopeThreads(b1, body, true, inDefer);
    assert b1.g[|b.g| + 2].Merge? && b1.g[|b.g| + 9].Merge?;
    SameKind(b1.g, bt.g, OpenMerges(b1.loops), |b.g| + 2);
    SameKind(b1.g, bt.g, OpenMerges(b1.loops), |b.g| + 9);
    CloseForThreads(b, id, bt);
  }

  lemma {:induction false} ScopeThreads(b: Builder, ss: seq<Stmt>, inLoop: bool, inDefer: bool)
    requires BuilderOk(b.(depth := b.depth + 1)) && AllAllowed(ss, inLoop, inDefer) && (inLoop ==> b.loops != [])
    requires Threadable(b)
    ensures Threadable(EmitScope(b, ss, inDefer)) && Threaded(b, EmitScope(b, ss, inDefer))
    decreases if inDefer then 0 else 2, ss, 2
  {
    hide Unused, UsedOnce, Extends, WellBuilt;
    var d := b.depth + 1;
    var inner := b.(depth := d);
    var b1 := EmitList(inner, ss, inDefer);
    ListEmitted(inner, ss, inLoop, inDefer);
    ListThreads(inner, ss, inLoop, inDefer);
    if !inDefer {
      PendingAllowed(b1.defers, d, d);
      BodiesThread(b1, Pending(b1.defers, d));
      ThreadedTrans(inner, b1, EmitBodies(b1, Pending(b1.defers, d)));
    }
  }

  lemma {:induction false} ListThreads(b: Builder, ss: seq<Stmt>, inLoop: bool, inDefer: bool)
    requires BuilderOk(b) && AllAllowed(ss, inLoop, inDefer) && (inLoop ==> b.loops != []) && Threadable(b)
    ensures Threadable(EmitList(b, ss, inDefer)) && Threaded(b, EmitList(b, ss, inDefer))
    decreases if inDefer then 0 else 2, ss, 1
  {
    if ss != [] {
      var b1 := EmitStmt(b, ss[0], inDefer);
      StmtEmitted(b, ss[0], inLoop, inDefer);
      StmtThreads(b, ss[0], inLoop, inDefer);
      ListThreads(b1, ss[1..], inLoop, inDefer);
      ThreadedTrans(b, b1, EmitList(b1, ss[1..], inDefer));
    }
  }

  lemma {:induction false} BodiesThread(b: Builder, bodies: seq<seq<Stmt>>)
    requires BuilderOk(b) && (forall i | 0 <= i < |bodies| :: AllAllowed(bodies[i], false, true)) && Threadable(b)
    ensures Threadable(EmitBodies(b, bodies)) && Threaded(b, EmitBodies(b, bodies))
    decreases 1, 0, |bodies|
  {
    if bodies != [] && b.ctrl.At? {
      var b1 := EmitList(b, bodies[0], true);
      ListEmitted(b, bodies[0], false, true);
      ListThreads(b, bodies[0], false, true);
      BodiesThread(b1, bodies[1..]);
      ThreadedTrans(b, b1, EmitBodies(b1, bodies[1..]));
    }
  }
}
