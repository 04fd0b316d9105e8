/** The returns gathered for the graph's stop node. */
module SonStops {
  import opened DeferLang
  import opened SonGraph
  import opened SonBuilder
  import opened SonFunction
  import opened Options

  /** Where the graph has return nodes, in order. */
  ghost function Returns(g: Graph): seq<nat> {
    if g == [] then []
    else
      var n := |g| - 1;
      Returns(g[..n]) + if g[n].Ret? then [n] else []
  }

  lemma {:induction false} ReturnsAreThere(g: Graph)
    ensures forall k: nat :: k in Returns(g) <==> k < |g| && g[k].Ret?
    ensures forall i, j | 0 <= i < j < |Returns(g)| :: Returns(g)[i] < Returns(g)[j]
  {
    if g != [] {
      var n := |g| - 1;
      ReturnsAreThere(g[..n]);
      assert forall i | 0 <= i < |Returns(g[..n])| :: Returns(g[..n])[i] in Returns(g[..n]);
    }
  }

  lemma {:induction false} MoreNodes(g: Graph, ns: seq<Node>)
    requires forall i | 0 <= i < |ns| :: !ns[i].Ret?
    ensures Returns(g + ns) == Returns(g)
    decreases |ns|
  {
    hide Returns;
    if ns == [] {
      assert g + ns == g;
    } else {
      MoreNodes(g, ns[..|ns| - 1]);
      LastNode(g + ns[..|ns| - 1], ns[|ns| - 1]);
      assert g + ns == g + ns[..|ns| - 1] + [ns[|ns| - 1]];
    }
  }

  lemma LastNode(g: Graph, r: Node)
    ensures Returns(g + [r]) == Returns(g) + if r.Ret? then [|g|] else []
  {
    assert (g + [r])[..|g|] == g;
  }

  lemma OneReturn(g: Graph, ns: seq<Node>, r: Node)
    requires r.Ret? && forall i | 0 <= i < |ns| :: !ns[i].Ret?
    ensures Returns(g + ns + [r]) == Returns(g) + [|g| + |ns|]
  {
    hide Returns;
    MoreNodes(g, ns);
    LastNode(g + ns, r);
  }

  lemma {:induction false} SameKinds(g: Graph, h: Graph)
    requires |g| == |h| && forall k | 0 <= k < |g| :: g[k].Ret? == h[k].Ret?
    ensures Returns(g) == Returns(h)
    decreases |g|
  {
    if g != [] {
      SameKinds(g[..|g| - 1], h[..|g| - 1]);
    }
  }

  lemma InputKeeps(g: Graph, r: nat, c: nat, m: nat)
    ensures Returns(AddInput(g, r, c, m)) == Returns(g)
  {
    SameKinds(g, AddInput(g, r, c, m));
  }

  /** The builder has gathered exactly the returns it has made. */
  ghost predicate Gathered(b: Builder) {
    b.rets == Returns(b.g)
  }

  lemma {:induction false} StmtGathers(b: Builder, s: Stmt, inDefer: bool)
    requires Gathered(b)
    ensures Gathered(EmitStmt(b, s, inDefer))
    decreases if inDefer then 0 else 2, s, 1
  {
    hide Gathered;
    if b.ctrl.At? {
      match s
      case Effect(id) => NodesGather(b, [Store(b.mem, Did(id))]);
      case If(cond, thn, els) => IfGathers(b, cond, thn, els, inDefer);
      case While(cond, body) =>
        NodesGather(b, WhileNodes(b, cond));
        ScopeGathers(OpenWhile(b, cond), body, inDefer);
        WhileCloses(b, EmitScope(OpenWhile(b, cond), body, inDefer));
      case For(id, body) =>
        NodesGather(b, ForNodes(b, id));
        ScopeGathers(OpenFor(b, id), body, inDefer);
        ForCloses(b, id, EmitScope(OpenFor(b, id), body, inDefer));
      case Block(body) => ScopeGathers(b, body, inDefer);
      case Defer(_) => NodesGather(b, []);
      case Return(value) =>
        if !inDefer {
          ReturnGathers(b, value);
        }
      case _ =>
        if b.loops != [] && !inDefer {
          var l := b.loops[|b.loops| - 1];
          BodiesGather(b, Pending(b.defers, l.bodyDepth));
          LeaveGathers(EmitBodies(b, Pending(b.defers, l.bodyDepth)), if s.Break? then l.exit else l.cont);
        }
    }
  }

  lemma NodesGather(b: Builder, ns: seq<Node>)
    requires Gathered(b) && forall i | 0 <= i < |ns| :: !ns[i].Ret?
    ensures forall b': Builder | b'.g == b.g + ns && b'.rets == b.rets :: Gathered(b')
    ensures forall b': Builder | b'.g == b.g && b'.rets == b.rets :: Gathered(b')
  {
    MoreNodes(b.g, ns);
  }

  lemma {:induction false} IfGathers(b: Builder, cond: int, thn: seq<Stmt>, els: seq<Stmt>, inDefer: bool)
    requires Gathered(b) && b.ctrl.At?
    ensures var bt := EmitScope(OpenIf(b, cond), thn, inDefer); Gathered(CloseIf(bt, EmitScope(ElseOf(b, bt), els, inDefer)))
    decreases if inDefer then 0 else 2, If(cond, thn, els), 0
  {
    var b1 := OpenIf(b, cond);
    NodesGather(b, [Load(b.mem, cond), Branch(b.ctrl.node, |b.g|), IfTrue(|b.g| + 1), IfFalse(|b.g| + 1)]);
    hide EmitScope;
    ScopeGathers(b1, thn, inDefer);
    var bt := EmitScope(b1, thn, inDefer);
    NodesGather(bt, []);
    ScopeGathers(ElseOf(b, bt), els, inDefer);
    var be := EmitScope(ElseOf(b, bt), els, inDefer);
    NodesGather(be, if bt.ctrl.At? && be.ctrl.At? then [Merge([(bt.ctrl.node, bt.mem), (be.ctrl.node, be.mem)])] else []);
  }

  lemma WhileCloses(b: Builder, body: Builder)
    requires Gathered(body)
    ensures Gathered(CloseWhile(b, body))
  {
    if body.ctrl.At? {
      InputKeeps(body.g, |b.g|, body.ctrl.node, body.mem);
    }
  }

  lemma ForCloses(b: Builder, id: int, body: Builder)
    requires Gathered(body)
    ensures Gathered(CloseFor(b, id, body))
  {
    var n, g := |b.g|, JoinFor(b, body);
    if body.ctrl.At? {
      InputKeeps(body.g, n + 9, body.ctrl.node, body.mem);
    }
    var bump := [Store(n + 9, LoopBump(id))];
    MoreNodes(g, bump);
    InputKeeps(g + bump, n + 2, n + 10, |g|);
  }

  lemma LeaveGathers(b: Builder, target: nat)
    requires Gathered(b)
    ensures Gathered(LeaveTo(b, target))
  {
    if b.ctrl.At? {
      InputKeeps(b.g, target, b.ctrl.node, b.mem);
    }
  }

  lemma CloseGathers(b: Builder, value: Option<nat>)
    requires Gathered(b)
    ensures Gathered(CloseReturn(b, value))
  {
    if b.ctrl.At? {
      OneReturn(b.g, [], Ret(b.ctrl.node, b.mem, value));
      assert b.g + [] == b.g;
    }
  }

  lemma {:induction false} ReturnGathers(b: Builder, value: Option<int>)
    requires Gathered(b)
    ensures Gathered(CloseReturn(EmitBodies(OpenReturn(b, value), Pending(b.defers, 0)), ValueOf(b, value)))
    decreases 1, 2, 0
  {
    NodesGather(b, if value.None? then [] else [Load(b.mem, value.value)]);
    hide Gathered;
    BodiesGather(OpenReturn(b, value), Pending(b.defers, 0));
    CloseGathers(EmitBodies(OpenReturn(b, value), Pending(b.defers, 0)), ValueOf(b, value));
  }

  lemma {:induction false} ListGathers(b: Builder, ss: seq<Stmt>, inDefer: bool)
    requires Gathered(b)
    ensures Gathered(EmitList(b, ss, inDefer))
    decreases if inDefer then 0 else 2, ss, 1
  {
    hide Gathered, EmitStmt;
    if ss != [] {
      StmtGathers(b, ss[0], inDefer);
      ListGathers(EmitStmt(b, ss[0], inDefer), ss[1..], inDefer);
    }
  }

  lemma {:induction false} ScopeGathers(b: Builder, ss: seq<Stmt>, inDefer: bool)
    requires Gathered(b)
    ensures Gathered(EmitScope(b, ss, inDefer))
    decreases if inDefer then 0 else 2, ss, 2
  {
    hide EmitList, EmitBodies;
    var b0 := b.(depth := b.depth + 1);
    assert Gathered(b0);
    ListGathers(b0, ss, inDefer);
    var b1 := EmitList(b0, ss, inDefer);
    if !inDefer {
      BodiesGather(b1, Pending(b1.defers, b.depth + 1));
    }
  }

  lemma {:induction false} BodiesGather(b: Builder, bodies: seq<seq<Stmt>>)
    requires Gathered(b)
    ensures Gathered(EmitBodies(b, bodies))
    decreases 1, 0, |bodies|
  {
    hide Gathered, EmitList;
    if bodies != [] && b.ctrl.At? {
      ListGathers(b, bodies[0], true);
      BodiesGather(EmitList(b, bodies[0], true), bodies[1..]);
    }
  }

  /** The finished function's stop node gathers every return of the graph once, and there is one. */
  lemma StopGathersReturns(body: seq<Stmt>, isVoid: bool)
    ensures var b := CloseFunction(EmitBody(body), isVoid);
            && b.g == Lowered(body, isVoid) && b.rets != []
            && (forall k: nat :: k in b.rets <==> k < |b.g| && b.g[k].Ret?)
            && (forall i, j | 0 <= i < j < |b.rets| :: b.rets[i] < b.rets[j])
  {
    hide EmitList, EmitBodies;
    assert Gathered(Blank()) by {
      assert [Start][..0] == [];
    }
    ListGathers(Blank(), body, false);
    var b0 := EmitList(Blank(), body, false);
    BodiesGather(b0, Pending(b0.defers, 0));
    var e := EmitBody(body);
    var b := CloseFunction(e, isVoid);
    if isVoid && e.ctrl.At? {
      CloseGathers(e, None);
    } else if e.rets == [] {
      var pin, mem := if e.ctrl.At? then e.ctrl.node else 0, if e.ctrl.At? then e.mem else 0;
      if isVoid {
        OneReturn(e.g, [], Ret(pin, mem, None));
        assert e.g + [] == e.g;
      } else {
        OneReturn(e.g, [Const], Ret(pin, mem, Some(|e.g|)));
        assert e.g + [Const] + [Ret(pin, mem, Some(|e.g|))] == e.g + [Const, Ret(pin, mem, Some(|e.g|))];
      }
    }
    ReturnsAreThere(b.g);
  }
}
