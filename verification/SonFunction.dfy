/** A whole function: the graph the builder finishes with runs exactly as the structured body does. */
module SonFunction {
  import opened DeferLang
  import opened SonGraph
  import opened SonBuilder
  import opened SonFollows
  import opened SonCorrect
  import opened SonLinear
  import opened Options

  function Blank(): Builder {
    Builder([Start], At(0), 0, 0, [], [], [])
  }

  /** The body and, where its end is reachable, the function scope's defers. */
  function EmitBody(body: seq<Stmt>): Builder {
    var b := EmitList(Blank(), body, false);
    EmitBodies(b, Pending(b.defers, 0))
  }

  /** The implicit return of a void function; a default one when there is no other. */
  function CloseFunction(b: Builder, isVoid: bool): Builder {
    if isVoid && b.ctrl.At? then CloseReturn(b, None)
    else if b.rets == [] then
      var pin, mem := if b.ctrl.At? then b.ctrl.node else 0, if b.ctrl.At? then b.mem else 0;
      if isVoid then b.(g := b.g + [Ret(pin, mem, None)], rets := [|b.g|])
      else b.(g := b.g + [Const, Ret(pin, mem, Some(|b.g|))], rets := [|b.g| + 1])
    else b
  }

  function Lowered(body: seq<Stmt>, isVoid: bool): Graph {
    CloseFunction(EmitBody(body), isVoid).g
  }

  /** Control can leave the statement at its end, taking conditions and loops to go either way. */
  predicate Falls(s: Stmt)
    decreases s, 0
  {
    match s
    case If(_, thn, els) => AllFall(thn) || AllFall(els)
    case Block(body) => AllFall(body)
    case Break => false
    case Continue => false
    case Return(_) => false
    case _ => true
  }

  predicate AllFall(ss: seq<Stmt>)
    decreases ss, 1
  {
    ss == [] || (Falls(ss[0]) && AllFall(ss[1..]))
  }

  /** The statement has a return that control can come to. */
  predicate MayReturn(s: Stmt)
    decreases s, 0
  {
    match s
    case If(_, thn, els) => SomeReturns(thn) || SomeReturns(els)
    case While(_, body) => SomeReturns(body)
    case For(_, body) => SomeReturns(body)
    case Block(body) => SomeReturns(body)
    case Return(_) => true
    case _ => false
  }

  predicate SomeReturns(ss: seq<Stmt>)
    decreases ss, 1
  {
    ss != [] && (MayReturn(ss[0]) || (Falls(ss[0]) && SomeReturns(ss[1..])))
  }

  /** A reachable end that gets no return: the function is not void and returns elsewhere. */
  predicate Dangling(body: seq<Stmt>, isVoid: bool) {
    !isVoid && AllFall(body) && SomeReturns(body)
  }

  /** Outside loops only a return keeps control from the end; a deferred body always gets there, and never returns. */
  lemma {:induction false} OnlyReturnsEnd(s: Stmt, inLoop: bool, inDefer: bool)
    requires Allowed(s, inLoop, inDefer)
    ensures !inLoop && !Falls(s) ==> MayReturn(s)
    ensures inDefer ==> Falls(s) && !MayReturn(s)
    decreases s, 0
  {
    match s
    case If(_, thn, els) =>
      OnlyReturnsEndList(thn, inLoop, inDefer);
      OnlyReturnsEndList(els, inLoop, inDefer);
    case While(_, body) => OnlyReturnsEndList(body, true, inDefer);
    case For(_, body) => OnlyReturnsEndList(body, true, inDefer);
    case Block(body) => OnlyReturnsEndList(body, inLoop, inDefer);
    case _ =>
  }

  lemma {:induction false} OnlyReturnsEndList(ss: seq<Stmt>, inLoop: bool, inDefer: bool)
    requires AllAllowed(ss, inLoop, inDefer)
    ensures !inLoop && !AllFall(ss) ==> SomeReturns(ss)
    ensures inDefer ==> AllFall(ss) && !SomeReturns(ss)
    decreases ss, 1
  {
    if ss != [] {
      OnlyReturnsEnd(ss[0], inLoop, inDefer);
      OnlyReturnsEndList(ss[1..], inLoop, inDefer);
    }
  }

  /** The structured run. */
  ghost function Run(o: Oracle, body: seq<Stmt>, fuel: nat): Result {
    ExecScope(o, body, [], [], false, fuel)
  }

  ghost predicate Finishes(o: Oracle, body: seq<Stmt>, isVoid: bool, fuel: nat, tr: Trace, w: Answer) {
    var r := Run(o, body, fuel);
    && r.Done? && r.tr == tr && (r.how.Normal? || r.how.Returned?)
    && (r.how.Returned? ==> r.how.answer == w)
    && (r.how.Normal? ==> w == (if isVoid then Nothing else Zero))
  }

  const ENTRY: Cfg := Cfg(0, map[])

  // ---------------------------------------------------------------------
  // the function's own scope
  // ---------------------------------------------------------------------

  lemma StartOk()
    ensures BuilderOk(Blank()) && Threadable(Blank())
  {
  }

  /** Emission loses control, and adds returns, just where the source says. */
  ghost predicate AsWritten(b: Builder, b': Builder, falls: bool, gives: bool) {
    && (b'.ctrl.At? <==> b.ctrl.At? && falls)
    && (b'.rets != [] <==> b.rets != [] || (b.ctrl.At? && gives))
  }

  lemma {:induction false} StmtAsWritten(b: Builder, s: Stmt, inLoop: bool, inDefer: bool)
    requires BuilderOk(b) && Allowed(s, inLoop, inDefer) && (inLoop ==> b.loops != [])
    ensures AsWritten(b, EmitStmt(b, s, inDefer), Falls(s), MayReturn(s))
    decreases if inDefer then 0 else 2, s, 1
  {
    if b.ctrl.Dead? {
      return;
    }
    assert SortedDefers(b.defers, b.depth);
    hide BuilderOk;
    match s
    case Effect(id) =>
    case If(cond, thn, els) => IfAsWritten(b, cond, thn, els, inLoop, inDefer);
    case While(cond, body) => WhileAsWritten(b, cond, body, inDefer);
    case For(id, body) => ForAsWritten(b, id, body, inDefer);
    case Block(body) =>
      LoopsSurviveDeeper(b);
      ScopeAsWritten(b, body, inLoop, inDefer);
    case Defer(body) =>
    case Break => ExitAsWritten(b);
    case Continue => ExitAsWritten(b);
    case Return(value) => ReturnEmitted(b, value);
  }

  lemma {:induction false} WhileAsWritten(b: Builder, cond: int, body: seq<Stmt>, inDefer: bool)
    requires BuilderOk(b) && b.ctrl.At? && AllAllowed(body, true, inDefer)
    ensures AsWritten(b, CloseWhile(b, EmitScope(OpenWhile(b, cond), body, inDefer)), true, SomeReturns(body))
    decreases if inDefer then 0 else 2, body, 4
  {
    hide BuilderOk;
    OpenWhileKeeps(b, cond);
    ScopeAsWritten(OpenWhile(b, cond), body, true, inDefer);
  }

  lemma {:induction false} ForAsWritten(b: Builder, id: int, body: seq<Stmt>, inDefer: bool)
    requires BuilderOk(b) && b.ctrl.At? && AllAllowed(body, true, inDefer)
    ensures AsWritten(b, CloseFor(b, id, EmitScope(OpenFor(b, id), body, inDefer)), true, SomeReturns(body))
    decreases if inDefer then 0 else 2, body, 4
  {
    hide BuilderOk;
    OpenForKeeps(b, id);
    ScopeAsWritten(OpenFor(b, id), body, true, inDefer);
  }

  lemma {:induction false} ExitAsWritten(b: Builder)
    requires BuilderOk(b) && b.loops != []
    ensures var l := b.loops[|b.loops| - 1];
            AsWritten(b, EmitBodies(b, Pending(b.defers, l.bodyDepth)), true, false)
    decreases 1, 1, 0
  {
    PendingAllowed(b.defers, b.depth, b.loops[|b.loops| - 1].bodyDepth);
    BodiesAsWritten(b, Pending(b.defers, b.loops[|b.loops| - 1].bodyDepth));
  }

  lemma {:induction false} IfAsWritten(b: Builder, cond: int, thn: seq<Stmt>, els: seq<Stmt>, inLoop: bool, inDefer: bool)
    requires BuilderOk(b) && b.ctrl.At? && AllAllowed(thn, inLoop, inDefer) && AllAllowed(els, inLoop, inDefer)
    requires inLoop ==> b.loops != []
    ensures var bt := EmitScope(OpenIf(b, cond), thn, inDefer);
            AsWritten(b, CloseIf(bt, EmitScope(ElseOf(b, bt), els, inDefer)), AllFall(thn) || AllFall(els), SomeReturns(thn) || SomeReturns(els))
    decreases if inDefer then 0 else 2, If(cond, thn, els), 0
  {
    hide WellBuilt, Extends, LoopOk;
    var b1 := OpenIf(b, cond);
    var bt := EmitScope(b1, thn, inDefer);
    OpenIfKeeps(b, cond);
    IfEmitted(b, cond, thn, els, inLoop, inDefer);
    LoopsSurviveDeeper(b1);
    ScopeAsWritten(b1, thn, inLoop, inDefer);
    LoopsSurviveDeeper(ElseOf(b, bt));
    ScopeAsWritten(ElseOf(b, bt), els, inLoop, inDefer);
  }

  lemma {:induction false} ScopeAsWritten(b: Builder, ss: seq<Stmt>, inLoop: bool, inDefer: bool)
    requires BuilderOk(b.(depth := b.depth + 1)) && AllAllowed(ss, inLoop, inDefer) && (inLoop ==> b.loops != [])
    ensures AsWritten(b, EmitScope(b, ss, inDefer), AllFall(ss), SomeReturns(ss))
    decreases if inDefer then 0 else 2, ss, 2
  {
    hide WellBuilt, Extends, LoopOk;
    var d := b.depth + 1;
    var b1 := EmitList(b.(depth := d), ss, inDefer);
    ListEmitted(b.(depth := d), ss, inLoop, inDefer);
    ListAsWritten(b.(depth := d), ss, inLoop, inDefer);
    if !inDefer {
      PendingAllowed(b1.defers, d, d);
      BodiesAsWritten(b1, Pending(b1.defers, d));
    }
  }

  lemma {:induction false} ListAsWritten(b: Builder, ss: seq<Stmt>, inLoop: bool, inDefer: bool)
    requires BuilderOk(b) && AllAllowed(ss, inLoop, inDefer) && (inLoop ==> b.loops != [])
    ensures AsWritten(b, EmitList(b, ss, inDefer), AllFall(ss), SomeReturns(ss))
    decreases if inDefer then 0 else 2, ss, 1
  {
    if ss != [] {
      StmtEmitted(b, ss[0], inLoop, inDefer);
      StmtAsWritten(b, ss[0], inLoop, inDefer);
      ListAsWritten(EmitStmt(b, ss[0], inDefer), ss[1..], inLoop, inDefer);
    }
  }

  lemma {:induction false} BodiesAsWritten(b: Builder, bodies: seq<seq<Stmt>>)
    requires BuilderOk(b) && forall i | 0 <= i < |bodies| :: AllAllowed(bodies[i], false, true)
    ensures AsWritten(b, EmitBodies(b, bodies), true, false)
    decreases 1, 0, |bodies|
  {
    if bodies != [] && b.ctrl.At? {
      OnlyReturnsEndList(bodies[0], false, true);
      ListEmitted(b, bodies[0], false, true);
      ListAsWritten(b, bodies[0], false, true);
      BodiesAsWritten(EmitList(b, bodies[0], true), bodies[1..]);
    }
  }

  /** The builder leaves the end without a return exactly where the source says. */
  lemma DanglingExactly(body: seq<Stmt>, isVoid: bool)
    requires AllAllowed(body, false, false)
    ensures Dangling(body, isVoid) <==> var b := EmitBody(body); !isVoid && b.ctrl.At? && b.rets != []
    ensures var b := EmitBody(body); b.ctrl.Dead? ==> b.rets != []
  {
    StartOk();
    var b := EmitList(Blank(), body, false);
    ListEmitted(Blank(), body, false, false);
    ListAsWritten(Blank(), body, false, false);
    OnlyReturnsEndList(body, false, false);
    PendingAllowed(b.defers, 0, 0);
    BodiesAsWritten(b, Pending(b.defers, 0));
  }

  // ---------------------------------------------------------------------
  // the finished graph
  // ---------------------------------------------------------------------

  lemma BodyReady(body: seq<Stmt>)
    requires AllAllowed(body, false, false)
    ensures var b := EmitBody(body); BuilderOk(b) && Threadable(b) && b.loops == [] && (b.ctrl.Dead? ==> b.rets != [])
    ensures EmitBody(body) == TailOf(Blank(), body)
  {
    StartOk();
    var b := EmitList(Blank(), body, false);
    ListEmitted(Blank(), body, false, false);
    ListThreads(Blank(), body, false, false);
    DanglingExactly(body, false);
    PendingAllowed(b.defers, 0, 0);
    BodiesEmitted(b, Pending(b.defers, 0));
    BodiesThread(b, Pending(b.defers, 0));
  }

  /** The return a function gets at its reachable end. */
  ghost predicate EndsIn(b: Builder, G: Graph, isVoid: bool) {
    && |G| > 0 && var y := |G| - 1;
    && b.ctrl.At? && G[y].Ret? && G[y].ctrl == b.ctrl.node && G[y].mem == b.mem
    && forall env: Env :: AnswerAt(G, env, G[y].value) == if isVoid then Nothing else Zero
  }

  lemma ClosedVoid(b: Builder)
    requires BuilderOk(b) && Threadable(b) && b.ctrl.At? && b.loops == []
    ensures var G := CloseReturn(b, None).g; Final(b, G) && UsedOnce(G) && EndsIn(b, G, true)
  {
    assert OpenMerges(b.loops) == {};
    AppendKeeps(b.g, [Ret(b.ctrl.node, b.mem, None)], {});
    ReturnThreads(b, None);
  }

  lemma ClosedDefault(b: Builder)
    requires BuilderOk(b) && Threadable(b) && b.ctrl.At? && b.loops == []
    ensures var G := b.g + [Const, Ret(b.ctrl.node, b.mem, Some(|b.g|))];
            Final(b, G) && UsedOnce(G) && EndsIn(b, G, false)
  {
    hide Threadable, Threaded;
    var b1 := b.(g := b.g + [Const]);
    assert OpenMerges(b.loops) == {};
    AppendKeeps(b.g, [Const], {});
    EffectThreads(b, Const);
    assert b1 == b.(g := b.g + [Const], mem := b.mem);
    SameKind(b.g, b1.g, {}, b.ctrl.node);
    LastReturn(b1, |b.g|);
    var G := CloseReturn(b1, Some(|b.g|)).g;
    assert G == b.g + [Const, Ret(b.ctrl.node, b.mem, Some(|b.g|))];
    ExtendsTrans(b.g, b1.g, G, {}, {}, {});
  }

  lemma LastReturn(b: Builder, value: nat)
    requires BuilderOk(b) && Threadable(b) && b.ctrl.At? && value < |b.g| && b.g[value].Const?
    ensures var G := CloseReturn(b, Some(value)).g; WellBuilt(G) && Extends(b.g, G, {}) && UsedOnce(G) && EndsIn(b, G, false)
  {
    AppendKeeps(b.g, [Ret(b.ctrl.node, b.mem, Some(value))], {});
    ReturnThreads(b, Some(value));
  }

  /** Closing the function adds at most the return at its end. */
  lemma Closed(body: seq<Stmt>, isVoid: bool)
    requires AllAllowed(body, false, false)
    ensures var b, G := EmitBody(body), Lowered(body, isVoid);
            && Final(b, G) && UsedOnce(G)
            && (b.ctrl.At? ==> b.ctrl.node < |G| && Restable(G[b.ctrl.node]) && b.mem < |b.g|)
            && (Dangling(body, isVoid) ==> b.ctrl.At? && Unused(G, b.ctrl.node))
            && (b.ctrl.At? && !Dangling(body, isVoid) ==> EndsIn(b, G, isVoid))
  {
    var b, G := EmitBody(body), Lowered(body, isVoid);
    BodyReady(body);
    DanglingExactly(body, isVoid);
    hide Emitted, WellBuilt, UsedOnce, Unused;
    if b.ctrl.Dead? || Dangling(body, isVoid) {
      ExtendsSelf(b.g, OpenMerges(b.loops));
    } else if isVoid {
      ClosedVoid(b);
    } else {
      ClosedDefault(b);
    }
    if b.ctrl.At? {
      FinalNode(b, G, b.ctrl.node);
    }
  }

  /** One direction: with enough fuel for the structured run to end, the graph's run ends the same way. */
  lemma RunIsFollowed(o: Oracle, body: seq<Stmt>, isVoid: bool, fuel: nat)
    requires AllAllowed(body, false, false)
    ensures var r, G := Run(o, body, fuel), Lowered(body, isVoid);
            && (r.Timeout? ==> CanRun(G, o, ENTRY, fuel))
            && (r.Done? ==> r.how.Normal? || r.how.Returned?)
            && (r.Done? && r.how.Returned? ==> Returns(G, o, ENTRY, r.tr, r.how.answer))
            && (r.Done? && r.how.Normal? ==> var b := EmitBody(body); b.ctrl.At? && Arrives(G, o, ENTRY, b.ctrl.node, b.mem, r.tr, 0))
  {
    var b, G, r := EmitBody(body), Lowered(body, isVoid), Run(o, body, fuel);
    StartOk();
    BodyReady(body);
    Closed(body, isVoid);
    assert Eval(G, map[], 0) == [] by {
      StartIsFirst(body, isVoid);
    }
    SimTail(G, o, [], Blank(), body, ENTRY, [], false, fuel);
    if r.Done? && r.how.Returned? {
      assert RunDefers(o, Pending([], 0), r, fuel) == r;
      assert ReturnsBy(G, o, ENTRY, r, r.how.answer, fuel);
    }
  }

  lemma StartIsFirst(body: seq<Stmt>, isVoid: bool)
    requires AllAllowed(body, false, false)
    ensures |Lowered(body, isVoid)| > 0 && Lowered(body, isVoid)[0] == Start
  {
    StartOk();
    TailEmitted(Blank(), body, false);
    BodyReady(body);
    Closed(body, isVoid);
    FinalNode(Blank().(g := [Start]), EmitBody(body).g, 0);
    FinalNode(EmitBody(body), Lowered(body, isVoid), 0);
  }

  /** The run ended normally: the graph's run reaches the return at the end, or stops at the dangling end. */
  lemma EndIsReached(o: Oracle, body: seq<Stmt>, isVoid: bool, tr: Trace)
    requires AllAllowed(body, false, false)
    requires var b := EmitBody(body); b.ctrl.At? && Arrives(Lowered(body, isVoid), o, ENTRY, b.ctrl.node, b.mem, tr, 0)
    ensures !Dangling(body, isVoid) ==> Returns(Lowered(body, isVoid), o, ENTRY, tr, if isVoid then Nothing else Zero)
    ensures Dangling(body, isVoid) ==>
              exists c :: Reaches(Lowered(body, isVoid), o, ENTRY, c) && Stuck(Lowered(body, isVoid), o, c)
                          && c.at < |Lowered(body, isVoid)| && !Lowered(body, isVoid)[c.at].Ret?
  {
    hide UsedOnce, Unused, Stuck, WellBuilt, Extends, EmitBody, EmitBodies, EmitList, CloseFunction;
    var b, G := EmitBody(body), Lowered(body, isVoid);
    Closed(body, isVoid);
    var a := Landed(G, o, ENTRY, b, tr, 0);
    if Dangling(body, isVoid) {
      UnusedIsStuck(G, o, a);
    } else {
      var y := |G| - 1;
      GoTo(G, o, a, y);
      ReachesTrans(G, o, ENTRY, a, Cfg(y, a.env));
      assert ReturnsAt(G, a.env, y, tr, if isVoid then Nothing else Zero);
    }
  }

  /** A return is where the graph's run ends, whatever the trace and answer claimed of it. */
  lemma ReturnEnds(G: Graph, o: Oracle, tr: Trace, w: Answer, tr': Trace, w': Answer)
    requires UsedOnce(G) && Returns(G, o, ENTRY, tr, w) && Returns(G, o, ENTRY, tr', w')
    ensures tr == tr' && w == w'
  {
    var y: nat, env :| y < |G| && Reaches(G, o, ENTRY, Cfg(y, env)) && ReturnsAt(G, env, y, tr, w);
    var y': nat, env' :| y' < |G| && Reaches(G, o, ENTRY, Cfg(y', env')) && ReturnsAt(G, env', y', tr', w');
    ReturnIsStuck(G, o, Cfg(y, env));
    ReturnIsStuck(G, o, Cfg(y', env'));
    EndsAgree(G, o, ENTRY, Cfg(y, env), Cfg(y', env'));
  }

  /** The graph's run ends exactly when the structured one does. */
  lemma EndsTogether(o: Oracle, body: seq<Stmt>, isVoid: bool)
    requires AllAllowed(body, false, false)
    ensures (forall fuel: nat :: Run(o, body, fuel).Timeout?) <==> (forall n: nat :: CanRun(Lowered(body, isVoid), o, ENTRY, n))
  {
    hide UsedOnce, Unused, Stuck, EmitBody, Lowered, CloseFunction, Run;
    var G := Lowered(body, isVoid);
    if forall fuel: nat :: Run(o, body, fuel).Timeout? {
      forall n: nat ensures CanRun(G, o, ENTRY, n) {
        RunIsFollowed(o, body, isVoid, n);
      }
    } else {
      var fuel: nat :| Run(o, body, fuel).Done?;
      var c := WhereItEnds(o, body, isVoid, fuel);
      Closed(body, isVoid);
      var n := EndsThenBounded(G, o, ENTRY, c);
    }
  }

  /** The point where the graph's run ends. */
  lemma WhereItEnds(o: Oracle, body: seq<Stmt>, isVoid: bool, fuel: nat) returns (c: Cfg)
    requires AllAllowed(body, false, false) && Run(o, body, fuel).Done?
    ensures Reaches(Lowered(body, isVoid), o, ENTRY, c) && Stuck(Lowered(body, isVoid), o, c)
  {
    hide UsedOnce, Unused, Stuck, EmitBody, Lowered, CloseFunction, Run;
    var G, r := Lowered(body, isVoid), Run(o, body, fuel);
    RunIsFollowed(o, body, isVoid, fuel);
    if r.how.Normal? && Dangling(body, isVoid) {
      EndIsReached(o, body, isVoid, r.tr);
      c :| Reaches(G, o, ENTRY, c) && Stuck(G, o, c);
    } else {
      var w := if r.how.Returned? then r.how.answer else if isVoid then Nothing else Zero;
      if r.how.Normal? {
        EndIsReached(o, body, isVoid, r.tr);
      }
      var y: nat, env :| y < |G| && Reaches(G, o, ENTRY, Cfg(y, env)) && ReturnsAt(G, env, y, r.tr, w);
      c := Cfg(y, env);
      ReturnIsStuck(G, o, c);
    }
  }

  /** The lowering is correct: the graph reaches a return with a trace and an answer exactly when the
      structured body finishes with them, the one exception being a dangling end. */
  lemma LoweringIsCorrect(o: Oracle, body: seq<Stmt>, isVoid: bool, tr: Trace, w: Answer)
    requires AllAllowed(body, false, false)
    ensures Returns(Lowered(body, isVoid), o, ENTRY, tr, w) <==>
            exists fuel: nat :: Finishes(o, body, isVoid, fuel, tr, w) && (Dangling(body, isVoid) ==> Run(o, body, fuel).how.Returned?)
  {
    hide UsedOnce, Unused, Stuck, EmitBody, Lowered, CloseFunction, Run, Dangling;
    var G := Lowered(body, isVoid);
    Closed(body, isVoid);
    if fuel: nat :| Finishes(o, body, isVoid, fuel, tr, w) && (Dangling(body, isVoid) ==> Run(o, body, fuel).how.Returned?) {
      RunIsFollowed(o, body, isVoid, fuel);
      if Run(o, body, fuel).how.Normal? {
        EndIsReached(o, body, isVoid, tr);
      }
    }
    if Returns(G, o, ENTRY, tr, w) {
      ReturnComesFromRun(o, body, isVoid, tr, w);
    }
  }

  lemma ReturnComesFromRun(o: Oracle, body: seq<Stmt>, isVoid: bool, tr: Trace, w: Answer)
    requires AllAllowed(body, false, false) && Returns(Lowered(body, isVoid), o, ENTRY, tr, w)
    ensures exists fuel: nat :: Finishes(o, body, isVoid, fuel, tr, w) && (Dangling(body, isVoid) ==> Run(o, body, fuel).how.Returned?)
  {
    hide UsedOnce, Unused, Stuck, EmitBody, Lowered, CloseFunction, Run, Dangling;
    var G := Lowered(body, isVoid);
    Closed(body, isVoid);
    var y: nat, env :| y < |G| && Reaches(G, o, ENTRY, Cfg(y, env)) && ReturnsAt(G, env, y, tr, w);
    var end := Cfg(y, env);
    ReturnIsStuck(G, o, end);
    var fuel := EndsThenBounded(G, o, ENTRY, end);
    RunIsFollowed(o, body, isVoid, fuel);
    var r := Run(o, body, fuel);
    if r.how.Returned? {
      ReturnEnds(G, o, tr, w, r.tr, r.how.answer);
    } else {
      EndIsReached(o, body, isVoid, r.tr);
      if Dangling(body, isVoid) {
        var c :| Reaches(G, o, ENTRY, c) && Stuck(G, o, c) && c.at < |G| && !G[c.at].Ret?;
        EndsAgree(G, o, ENTRY, end, c);
        assert false;
      }
      ReturnEnds(G, o, tr, w, r.tr, if isVoid then Nothing else Zero);
    }
    assert Finishes(o, body, isVoid, fuel, tr, w);
  }

  /** A scope that returns a value in a function without defers. */
  lemma ReturningScope(b: Builder)
    requires b.ctrl.At? && b.defers == []
    ensures var b' := EmitScope(b, [Return(Some(1))], false); b'.ctrl.Dead? && b'.rets != [] && b'.defers == []
  {
    var ss := [Return(Some(1))];
    var b1 := b.(depth := b.depth + 1);
    assert ss[1..] == [];
    assert EmitList(b1, ss, false) == EmitStmt(b1, ss[0], false);
    assert EmitStmt(b1, ss[0], false) == CloseReturn(OpenReturn(b1, Some(1)), Some(|b1.g|));
  }

  lemma EmptyScope(b: Builder)
    requires b.ctrl.At? && b.defers == []
    ensures EmitScope(b, [], false) == b
  {
    var b1 := b.(depth := b.depth + 1);
    assert EmitList(b1, [], false) == b1;
    assert Pending(b1.defers, b1.depth) == [];
    assert EmitBodies(b1, []) == b1;
  }

  lemma DanglingBody()
    ensures var body := [If(0, [Return(Some(1))], [])]; AllAllowed(body, false, false) && Dangling(body, false)
  {
    var ret, b := [Return(Some(1))], Blank();
    var body := [If(0, ret, [])];
    assert body[1..] == [] && ret[1..] == [];
    ReturningScope(OpenIf(b, 0));
    var bt := EmitScope(OpenIf(b, 0), ret, false);
    var be := EmitScope(ElseOf(b, bt), [], false);
    EmptyScope(ElseOf(b, bt));
    assert EmitStmt(b, body[0], false) == CloseIf(bt, be);
    assert EmitList(b, body, false) == be;
    assert AllAllowed(ret, false, false);
  }

  /** A dangling end: a non-void function that returns on one side of a test only. Falling off the other
      side, the run stops short of any return. */
  lemma DanglingHappens(o: Oracle, tr: Trace, w: Answer)
    requires !o.test([], 0)
    ensures var body := [If(0, [Return(Some(1))], [])];
            && AllAllowed(body, false, false) && Dangling(body, false)
            && Run(o, body, 0) == Done([], Normal)
            && !Returns(Lowered(body, false), o, ENTRY, tr, w)
  {
    var body := [If(0, [Return(Some(1))], [])];
    DanglingBody();
    hide Dangling, Lowered;
    assert body[1..] == [];
    assert Run(o, body, 0) == Done([], Normal);
    if Returns(Lowered(body, false), o, ENTRY, tr, w) {
      LoweringIsCorrect(o, body, false, tr, w);
      var fuel: nat :| Finishes(o, body, false, fuel, tr, w) && Run(o, body, fuel).how.Returned?;
      ScopeMore(o, body, [], [], false, 0, fuel);
    }
  }
}
