/** The lowering is correct: the graph makes the effects of the structured program, in the same order,
    on every path and for every kind of exit. */
module SonCorrect {
  import opened DeferLang
  import opened SonGraph
  import opened SonBuilder
  import opened SonFollows
  import opened Options

  /** Control is where the builder emits next, and its memory node reads tr. */
  ghost predicate Here(G: Graph, b: Builder, a: Cfg, tr: Trace) {
    b.ctrl.At? && a.at == b.ctrl.node && Eval(G, a.env, b.mem) == tr
  }

  // ---------------------------------------------------------------------
  // deferred bodies always end normally
  // ---------------------------------------------------------------------

  lemma {:induction false} DeferredStmtEnds(o: Oracle, s: Stmt, tr: Trace, inLoop: bool, fuel: nat)
    requires Allowed(s, inLoop, true)
    ensures var r := Exec(o, s, tr, true, fuel); r.Done? ==> r.how.Normal?
    decreases fuel, s, 0
  {
    match s
    case If(cond, thn, els) => DeferredEnds(o, if o.test(tr, cond) then thn else els, tr, inLoop, fuel);
    case While(cond, body) => DeferredWhileEnds(o, cond, body, tr, fuel);
    case For(id, body) => DeferredForEnds(o, id, body, tr + [LoopInit(id)], tr, fuel);
    case Block(body) => DeferredEnds(o, body, tr, inLoop, fuel);
    case _ =>
  }

  lemma {:induction false} DeferredEnds(o: Oracle, ss: seq<Stmt>, tr: Trace, inLoop: bool, fuel: nat)
    requires AllAllowed(ss, inLoop, true)
    ensures var r := ExecScope(o, ss, tr, [], true, fuel); r.Done? ==> r.how.Normal?
    decreases fuel, ss, 1
  {
    if ss != [] {
      DeferredStmtEnds(o, ss[0], tr, inLoop, fuel);
      var r := Exec(o, ss[0], tr, true, fuel);
      if r.Done? {
        DeferredEnds(o, ss[1..], r.tr, inLoop, fuel);
      }
    }
  }

  lemma {:induction false} DeferredWhileEnds(o: Oracle, cond: int, body: seq<Stmt>, tr: Trace, fuel: nat)
    requires AllAllowed(body, true, true)
    ensures var r := ExecWhile(o, cond, body, tr, true, fuel); r.Done? ==> r.how.Normal?
    decreases fuel, body, 2
  {
    if fuel > 0 && o.test(tr, cond) {
      DeferredEnds(o, body, tr, true, fuel - 1);
      var r := ExecScope(o, body, tr, [], true, fuel - 1);
      if r.Done? {
        DeferredWhileEnds(o, cond, body, r.tr, fuel - 1);
      }
    }
  }

  lemma {:induction false} DeferredForEnds(o: Oracle, id: int, body: seq<Stmt>, tr: Trace, entry: Trace, fuel: nat)
    requires AllAllowed(body, true, true)
    ensures var r := ExecFor(o, id, body, tr, entry, true, fuel); r.Done? ==> r.how.Normal?
    decreases fuel, body, 2
  {
    if fuel > 0 && o.less(tr, entry, id) {
      DeferredEnds(o, body, tr, true, fuel - 1);
      var r := ExecScope(o, body, tr, [], true, fuel - 1);
      if r.Done? {
        DeferredForEnds(o, id, body, r.tr + [LoopBump(id)], entry, fuel - 1);
      }
    }
  }

  // ---------------------------------------------------------------------
  // small facts about the state at hand
  // ---------------------------------------------------------------------

  lemma NoneLocal(ds: seq<(nat, seq<Stmt>)>, depth: nat)
    requires SortedDefers(ds, depth)
    ensures Pending(ds, depth + 1) == [] && Local(ds, ds, depth + 1)
    ensures forall i | 0 <= i < |ds| :: ds[i].0 < depth + 1
  {
  }

  lemma InnermostLoop(b: Builder)
    requires BuilderOk(b) && b.loops != []
    ensures var l := b.loops[|b.loops| - 1];
            l.header < |b.g| && l.bodyDepth <= b.depth && l.header < l.exit < |b.g| && l.header <= l.cont < |b.g|
  {
    assert LoopOk(b.g, b.loops[|b.loops| - 1], b.depth);
  }

  /** The structured run reaches the point the builder is at. */
  lemma Landed(G: Graph, o: Oracle, a: Cfg, b: Builder, tr: Trace, bound: nat) returns (a': Cfg)
    requires b.ctrl.At? && Arrives(G, o, a, b.ctrl.node, b.mem, tr, bound)
    ensures Reaches(G, o, a, a') && Here(G, b, a', tr) && SameBelow(a.env, a'.env, bound)
  {
    var env :| Reaches(G, o, a, Cfg(b.ctrl.node, env)) && Eval(G, env, b.mem) == tr && SameBelow(a.env, env, bound);
    a' := Cfg(b.ctrl.node, env);
  }

  /** Entering a merge from the end of a piece. */
  lemma LandedInMerge(G: Graph, o: Oracle, a: Cfg, c: nat, m: nat, tr: Trace, y: nat, bound: nat, bound': nat) returns (a': Cfg)
    requires Arrives(G, o, a, c, m, tr, bound') && bound <= bound' && bound <= y < |G|
    requires c < |G| && Restable(G[c]) && G[y].Merge? && (c, m) in G[y].ins
    ensures Reaches(G, o, a, a') && a'.at == y && y in a'.env && a'.env[y] == tr && SameBelow(a.env, a'.env, bound)
  {
    var env :| Reaches(G, o, a, Cfg(c, env)) && Eval(G, env, m) == tr && SameBelow(a.env, env, bound');
    GoMerge(G, o, Cfg(c, env), y, m);
    a' := Cfg(y, env[y := Eval(G, env, m)]);
    ReachesTrans(G, o, a, Cfg(c, env), a');
  }

  lemma FollowsInto(G: Graph, o: Oracle, a: Cfg, r: Result, ds: seq<(nat, seq<Stmt>)>, ls: seq<Loop>,
                    c: Ctrl, m: nat, y: nat, fuel: nat, bound: nat)
    requires Follows(G, o, a, r, ds, ls, c, m, fuel, bound)
    requires bound <= y < |G| && G[y].Merge?
    requires c.At? ==> c.node < |G| && Restable(G[c.node]) && (c.node, m) in G[y].ins
    ensures Follows(G, o, a, r, ds, ls, At(y), y, fuel, bound)
  {
    if r.Done? && r.how.Normal? {
      var a' := LandedInMerge(G, o, a, c.node, m, r.tr, y, bound, bound);
      assert Eval(G, a'.env, y) == r.tr;
      assert a' == Cfg(y, a'.env);
    }
  }

  // ---------------------------------------------------------------------
  // the simulation
  // ---------------------------------------------------------------------

  /** Each kind of statement, anywhere: the finished graph follows the structured run. */
  lemma {:induction false} SimStmt(G: Graph, o: Oracle, b: Builder, s: Stmt, a: Cfg, tr: Trace, inLoop: bool, inDefer: bool, fuel: nat)
    requires BuilderOk(b) && Allowed(s, inLoop, inDefer) && (inLoop ==> b.loops != []) && !s.Defer?
    requires Here(G, b, a, tr) && Final(EmitStmt(b, s, inDefer), G)
    ensures var b' := EmitStmt(b, s, inDefer);
            Follows(G, o, a, Exec(o, s, tr, inDefer, fuel), b.defers, b.loops, b'.ctrl, b'.mem, fuel, |b.g|)
    decreases if inDefer then 0 else 3, fuel, s, 1
  {
    assert SortedDefers(b.defers, b.depth);
    hide Follows, BuilderOk, Final, Eval, Extends;
    match s
    case Effect(id) => SimEffect(G, o, b, id, a, tr, inDefer, fuel);
    case If(cond, thn, els) => SimIf(G, o, b, cond, thn, els, a, tr, inLoop, inDefer, fuel);
    case While(cond, body) => SimWhile(G, o, b, cond, body, a, tr, inDefer, fuel);
    case For(id, body) => SimFor(G, o, b, id, body, a, tr, inDefer, fuel);
    case Block(body) =>
      LoopsSurviveDeeper(b);
      SimScope(G, o, b, body, a, tr, inLoop, inDefer, fuel);
    case Break => SimLeave(G, o, b, a, tr, Broke, fuel);
    case Continue => SimLeave(G, o, b, a, tr, Continued, fuel);
    case Return(value) => SimReturn(G, o, b, value, a, tr, fuel);
  }

  lemma SimEffect(G: Graph, o: Oracle, b: Builder, id: int, a: Cfg, tr: Trace, inDefer: bool, fuel: nat)
    requires BuilderOk(b) && Here(G, b, a, tr) && Final(EmitStmt(b, Effect(id), inDefer), G)
    ensures Follows(G, o, a, Done(tr + [Did(id)], Normal), b.defers, b.loops, b.ctrl, |b.g|, fuel, |b.g|)
  {
    FinalNode(EmitStmt(b, Effect(id), inDefer), G, |b.g|);
    ReachesSelf(G, o, a);
    assert a == Cfg(b.ctrl.node, a.env) && Eval(G, a.env, |b.g|) == tr + [Did(id)];
  }

  /** Break and continue: the defers of every scope left, then the loop's merge. */
  lemma {:induction false} SimLeave(G: Graph, o: Oracle, b: Builder, a: Cfg, tr: Trace, how: Exit, fuel: nat)
    requires BuilderOk(b) && b.loops != [] && Here(G, b, a, tr) && (how.Broke? || how.Continued?)
    requires var l := b.loops[|b.loops| - 1];
             Final(LeaveTo(EmitBodies(b, Pending(b.defers, l.bodyDepth)), if how.Broke? then l.exit else l.cont), G)
    ensures Follows(G, o, a, Done(tr, how), b.defers, b.loops, Dead, b.mem, fuel, |b.g|)
    decreases 2, fuel, Break, 0
  {
    var l := b.loops[|b.loops| - 1];
    var target := if how.Broke? then l.exit else l.cont;
    var bodies := EmitBodies(b, Pending(b.defers, l.bodyDepth));
    InnermostLoop(b);
    LeaveEmitted(b, target);
    PendingAllowed(b.defers, b.depth, l.bodyDepth);
    FinalEarlier(bodies, LeaveTo(bodies, target), G);
    FinalNode(LeaveTo(bodies, target), G, target);
    FinalNode(bodies, G, bodies.ctrl.node);
    forall k: nat | k >= fuel
      ensures LeavesBy(G, o, a, target, RunDefers(o, Pending(b.defers, l.bodyDepth), Done(tr, how), k), k, l.header)
    {
      SimBodies(G, o, b, Pending(b.defers, l.bodyDepth), a, Done(tr, how), k);
      var f := RunDefers(o, Pending(b.defers, l.bodyDepth), Done(tr, how), k);
      if f.Done? {
        var a' := LandedInMerge(G, o, a, bodies.ctrl.node, bodies.mem, f.tr, target, l.header, |b.g|);
        assert a' == Cfg(target, a'.env);
      }
    }
  }

  /** Return: the value, then the defers of every scope, then the return. */
  lemma {:induction false} SimReturn(G: Graph, o: Oracle, b: Builder, value: Option<int>, a: Cfg, tr: Trace, fuel: nat)
    requires BuilderOk(b) && Here(G, b, a, tr)
    requires Final(CloseReturn(EmitBodies(OpenReturn(b, value), Pending(b.defers, 0)), ValueOf(b, value)), G)
    ensures Follows(G, o, a, Done(tr, Returned(if value.None? then Nothing else Gave(value.value, tr))), b.defers, b.loops, Dead, b.mem, fuel, |b.g|)
    decreases 2, fuel, Break, 0
  {
    var start := OpenReturn(b, value);
    var bodies := EmitBodies(start, Pending(b.defers, 0));
    var b' := CloseReturn(bodies, ValueOf(b, value));
    ReturnEmitted(b, value);
    PendingAllowed(b.defers, b.depth, 0);
    FinalEmptyEarlier(bodies, b', G);
    FinalEarlier(start, bodies, G);
    if value.Some? {
      FinalNode(start, G, |b.g|);
    }
    FinalNode(b', G, |bodies.g|);
    FinalNode(bodies, G, bodies.ctrl.node);
    var r := Done(tr, Returned(if value.None? then Nothing else Gave(value.value, tr)));
    forall k: nat | k >= fuel
      ensures ReturnsBy(G, o, a, RunDefers(o, Pending(b.defers, 0), r, k), r.how.answer, k)
    {
      SimBodies(G, o, start, Pending(b.defers, 0), a, r, k);
      var f := RunDefers(o, Pending(b.defers, 0), r, k);
      if f.Done? {
        var a' := Landed(G, o, a, bodies, f.tr, |start.g|);
        EvalFrame(G, a.env, a'.env, b.mem, |start.g|);
        GoTo(G, o, a', |bodies.g|);
        ReachesTrans(G, o, a, a', Cfg(|bodies.g|, a'.env));
        assert ReturnsAt(G, a'.env, |bodies.g|, f.tr, r.how.answer);
      }
    }
  }

  lemma FinalEmptyEarlier(b: Builder, b': Builder, G: Graph)
    requires Extends(b.g, b'.g, {}) && b'.loops == b.loops && Final(b', G)
    ensures Final(b, G)
  {
    ExtendsTrans(b.g, b'.g, G, {}, OpenMerges(b.loops), OpenMerges(b.loops));
  }

  /** Deferred bodies, one after the other. */
  lemma {:induction false} SimBodies(G: Graph, o: Oracle, b: Builder, bodies: seq<seq<Stmt>>, a: Cfg, r: Result, fuel: nat)
    requires BuilderOk(b) && forall i | 0 <= i < |bodies| :: AllAllowed(bodies[i], false, true)
    requires r.Done? && Here(G, b, a, r.tr) && Final(EmitBodies(b, bodies), G)
    ensures var b', f := EmitBodies(b, bodies), RunDefers(o, bodies, r, fuel);
            if f.Timeout? then CanRun(G, o, a, fuel)
            else f.how == r.how && b'.ctrl.At? && Arrives(G, o, a, b'.ctrl.node, b'.mem, f.tr, |b.g|)
    decreases 1, fuel, Break, |bodies|
  {
    if bodies == [] {
      ReachesSelf(G, o, a);
      assert a == Cfg(b.ctrl.node, a.env);
    } else {
      var b1 := EmitList(b, bodies[0], true);
      ListEmitted(b, bodies[0], false, true);
      BodiesEmitted(b1, bodies[1..]);
      FinalEarlier(b1, EmitBodies(b1, bodies[1..]), G);
      SimList(G, o, b, bodies[0], a, r.tr, false, fuel);
      var d := ExecScope(o, bodies[0], r.tr, [], true, fuel);
      if d.Done? {
        var a1 := Landed(G, o, a, b1, d.tr, |b.g|);
        SimBodies(G, o, b1, bodies[1..], a1, Done(d.tr, r.how), fuel);
        var f := RunDefers(o, bodies, r, fuel);
        var b' := EmitBodies(b, bodies);
        if f.Timeout? {
          ReachesThenRuns(G, o, a, a1, fuel);
        } else {
          ArrivesAfter(G, o, a, a1, b'.ctrl.node, b'.mem, f.tr, |b.g|, |b1.g|);
        }
      }
    }
  }

  /** The statements of a deferred body, or of a scope inside one. */
  lemma {:induction false} SimList(G: Graph, o: Oracle, b: Builder, ss: seq<Stmt>, a: Cfg, tr: Trace, inLoop: bool, fuel: nat)
    requires BuilderOk(b) && AllAllowed(ss, inLoop, true) && (inLoop ==> b.loops != [])
    requires Here(G, b, a, tr) && Final(EmitList(b, ss, true), G)
    ensures var b', r := EmitList(b, ss, true), ExecScope(o, ss, tr, [], true, fuel);
            if r.Timeout? then CanRun(G, o, a, fuel)
            else r.how.Normal? && b'.ctrl.At? && Arrives(G, o, a, b'.ctrl.node, b'.mem, r.tr, |b.g|)
    decreases 0, fuel, ss, 3
  {
    if ss == [] {
      ReachesSelf(G, o, a);
      assert a == Cfg(b.ctrl.node, a.env);
    } else {
      var b1 := EmitStmt(b, ss[0], true);
      StmtEmitted(b, ss[0], inLoop, true);
      ListEmitted(b1, ss[1..], inLoop, true);
      FinalEarlier(b1, EmitList(b1, ss[1..], true), G);
      SimStmt(G, o, b, ss[0], a, tr, inLoop, true, fuel);
      DeferredStmtEnds(o, ss[0], tr, inLoop, fuel);
      var d := Exec(o, ss[0], tr, true, fuel);
      if d.Done? {
        var a1 := Landed(G, o, a, b1, d.tr, |b.g|);
        SimList(G, o, b1, ss[1..], a1, d.tr, inLoop, fuel);
        var r := ExecScope(o, ss, tr, [], true, fuel);
        var b' := EmitList(b, ss, true);
        if r.Timeout? {
          ReachesThenRuns(G, o, a, a1, fuel);
        } else {
          ArrivesAfter(G, o, a, a1, b'.ctrl.node, b'.mem, r.tr, |b.g|, |b1.g|);
        }
      }
    }
  }

  /** A nested scope. */
  lemma {:induction false} SimScope(G: Graph, o: Oracle, b: Builder, ss: seq<Stmt>, a: Cfg, tr: Trace, inLoop: bool, inDefer: bool, fuel: nat)
    requires BuilderOk(b.(depth := b.depth + 1)) && SortedDefers(b.defers, b.depth)
    requires AllAllowed(ss, inLoop, inDefer) && (inLoop ==> b.loops != [])
    requires Here(G, b, a, tr) && Final(EmitScope(b, ss, inDefer), G)
    ensures var b' := EmitScope(b, ss, inDefer);
            Follows(G, o, a, ExecScope(o, ss, tr, [], inDefer, fuel), b.defers, b.loops, b'.ctrl, b'.mem, fuel, |b.g|)
    decreases if inDefer then 0 else 3, fuel, ss, 5
  {
    var inner := b.(depth := b.depth + 1);
    NoneLocal(b.defers, b.depth);
    if inDefer {
      SimList(G, o, inner, ss, a, tr, inLoop, fuel);
    } else {
      assert EmitScope(b, ss, false) == DropDefers(TailOf(inner, ss), b.depth + 1).(depth := b.depth);
      SimTail(G, o, b.defers, inner, ss, a, tr, inLoop, fuel);
    }
  }

  /** The rest of a scope: its statements, then its defers, whichever way it is left. */
  lemma {:induction false} SimTail(G: Graph, o: Oracle, outer: seq<(nat, seq<Stmt>)>, b: Builder, ss: seq<Stmt>,
                                   a: Cfg, tr: Trace, inLoop: bool, fuel: nat)
    requires BuilderOk(b) && AllAllowed(ss, inLoop, false) && (inLoop ==> b.loops != [])
    requires Local(outer, b.defers, b.depth) && forall i | 0 <= i < |outer| :: outer[i].0 < b.depth
    requires Here(G, b, a, tr) && Final(TailOf(b, ss), G)
    ensures var b' := TailOf(b, ss);
            Follows(G, o, a, ExecScope(o, ss, tr, Pending(b.defers, b.depth), false, fuel), outer, b.loops, b'.ctrl, b'.mem, fuel, |b.g|)
    decreases 3, fuel, ss, 3
  {
    var pend := Pending(b.defers, b.depth);
    if ss == [] {
      PendingAllowed(b.defers, b.depth, b.depth);
      SimBodies(G, o, b, pend, a, Done(tr, Normal), fuel);
    } else if ss[0].Defer? {
      SortedPush(b.defers, b.depth, ss[0].body);
      DeferEmitted(b, ss[0].body);
      SimTail(G, o, outer, EmitStmt(b, ss[0], false), ss[1..], a, tr, inLoop, fuel);
    } else {
      var b1, r := EmitStmt(b, ss[0], false), Exec(o, ss[0], tr, false, fuel);
      StmtEmitted(b, ss[0], inLoop, false);
      TailEmitted(b1, ss[1..], inLoop);
      assert TailOf(b1, ss[1..]) == TailOf(b, ss);
      FinalEarlier(b1, TailOf(b1, ss[1..]), G);
      SimStmt(G, o, b, ss[0], a, tr, inLoop, false, fuel);
      if r.Done? && r.how.Normal? {
        var a1 := Landed(G, o, a, b1, r.tr, |b.g|);
        SimTail(G, o, outer, b1, ss[1..], a1, r.tr, inLoop, fuel);
        TailAfter(G, o, outer, b, b1, a, a1, ExecScope(o, ss[1..], r.tr, pend, false, fuel), TailOf(b, ss), fuel);
      } else {
        TailLeft(G, o, outer, b, b1, a, r, TailOf(b, ss), fuel);
      }
    }
  }

  lemma TailAfter(G: Graph, o: Oracle, outer: seq<(nat, seq<Stmt>)>, b: Builder, b1: Builder, a: Cfg, a1: Cfg, r: Result,
                  b': Builder, fuel: nat)
    requires BuilderOk(b) && Emitted(b, b1) && Reaches(G, o, a, a1) && SameBelow(a.env, a1.env, |b.g|)
    requires Follows(G, o, a1, r, outer, b.loops, b'.ctrl, b'.mem, fuel, |b1.g|)
    ensures Follows(G, o, a, r, outer, b.loops, b'.ctrl, b'.mem, fuel, |b.g|)
  {
    if b.loops != [] {
      InnermostLoop(b);
    }
    FollowsAfter(G, o, a, a1, r, outer, b.loops, b'.ctrl, b'.mem, fuel, |b.g|, |b1.g|);
  }

  lemma TailLeft(G: Graph, o: Oracle, outer: seq<(nat, seq<Stmt>)>, b: Builder, b1: Builder, a: Cfg, r: Result, b': Builder, fuel: nat)
    requires BuilderOk(b) && Local(outer, b.defers, b.depth) && forall i | 0 <= i < |outer| :: outer[i].0 < b.depth
    requires (r.Done? ==> !r.how.Normal?) && Follows(G, o, a, r, b.defers, b.loops, b1.ctrl, b1.mem, fuel, |b.g|)
    ensures Follows(G, o, a, RunDefers(o, Pending(b.defers, b.depth), r, fuel), outer, b.loops, b'.ctrl, b'.mem, fuel, |b.g|)
  {
    if b.loops != [] {
      InnermostLoop(b);
    }
    FollowsOutward(G, o, a, r, outer, b.defers, b.depth, b.loops, b1.ctrl, b1.mem, b'.ctrl, b'.mem, fuel, |b.g|);
  }

  /** The builder after the rest of a scope and its defers. */
  ghost function TailOf(b: Builder, ss: seq<Stmt>): Builder {
    var b1 := EmitList(b, ss, false);
    EmitBodies(b1, Pending(b1.defers, b.depth))
  }

  lemma TailEmitted(b: Builder, ss: seq<Stmt>, inLoop: bool)
    requires BuilderOk(b) && AllAllowed(ss, inLoop, false) && (inLoop ==> b.loops != [])
    ensures Emitted(b, TailOf(b, ss))
  {
    ListEmitted(b, ss, inLoop, false);
    var b1 := EmitList(b, ss, false);
    PendingAllowed(b1.defers, b.depth, b.depth);
    BodiesEmitted(b1, Pending(b1.defers, b.depth));
    EmittedTrans(b, b1, TailOf(b, ss));
  }

  // ---------------------------------------------------------------------
  // if
  // ---------------------------------------------------------------------

  lemma {:induction false} SimIf(G: Graph, o: Oracle, b: Builder, cond: int, thn: seq<Stmt>, els: seq<Stmt>, a: Cfg, tr: Trace,
                                 inLoop: bool, inDefer: bool, fuel: nat)
    requires BuilderOk(b) && AllAllowed(thn, inLoop, inDefer) && AllAllowed(els, inLoop, inDefer) && (inLoop ==> b.loops != [])
    requires Here(G, b, a, tr) && Final(EmitStmt(b, If(cond, thn, els), inDefer), G)
    ensures var b' := EmitStmt(b, If(cond, thn, els), inDefer);
            Follows(G, o, a, ExecScope(o, if o.test(tr, cond) then thn else els, tr, [], inDefer, fuel), b.defers, b.loops, b'.ctrl, b'.mem, fuel, |b.g|)
    decreases if inDefer then 0 else 3, fuel, If(cond, thn, els), 0
  {
    hide Follows, Extends, LoopOk, WellBuilt;
    var n := |b.g|;
    var b1 := OpenIf(b, cond);
    var bt := EmitScope(b1, thn, inDefer);
    var b2 := ElseOf(b, bt);
    var be := EmitScope(b2, els, inDefer);
    IfEmitted(b, cond, thn, els, inLoop, inDefer);
    OpenIfKeeps(b, cond);
    CloseIfKeeps(b, cond, bt, be);
    IfFinal(b, cond, bt, be, G);
    if b.loops != [] {
      InnermostLoop(b);
    }
    var a1 := IfBranches(G, o, b, cond, a, tr);
    if o.test(tr, cond) {
      LoopsSurviveDeeper(b1);
      SimScope(G, o, b1, thn, a1, tr, inLoop, inDefer, fuel);
      IfJoins(G, o, a1, ExecScope(o, thn, tr, [], inDefer, fuel), b, bt, be, true, fuel);
      FollowsAfter(G, o, a, a1, ExecScope(o, thn, tr, [], inDefer, fuel), b.defers, b.loops, CloseIf(bt, be).ctrl, CloseIf(bt, be).mem, fuel, n, |b1.g|);
    } else {
      LoopsSurviveDeeper(b2);
      SimScope(G, o, b2, els, a1, tr, inLoop, inDefer, fuel);
      IfJoins(G, o, a1, ExecScope(o, els, tr, [], inDefer, fuel), b, bt, be, false, fuel);
      FollowsAfter(G, o, a, a1, ExecScope(o, els, tr, [], inDefer, fuel), b.defers, b.loops, CloseIf(bt, be).ctrl, CloseIf(bt, be).mem, fuel, n, |b1.g|);
    }
  }

  /** Every stage of the conditional is part of the finished graph. */
  lemma IfFinal(b: Builder, cond: int, bt: Builder, be: Builder, G: Graph)
    requires BuilderOk(b) && b.ctrl.At?
    requires Emitted(OpenIf(b, cond), bt) && Emitted(ElseOf(b, bt), be)
    requires Extends(be.g, CloseIf(bt, be).g, {}) && Final(CloseIf(bt, be), G)
    ensures Final(OpenIf(b, cond), G) && Final(bt, G) && Final(be, G) && Final(ElseOf(b, bt), G)
    ensures bt.ctrl.At? && be.ctrl.At? ==>
              && |be.g| < |G| && G[|be.g|] == Merge([(bt.ctrl.node, bt.mem), (be.ctrl.node, be.mem)])
              && bt.ctrl.node < |G| && Restable(G[bt.ctrl.node]) && be.ctrl.node < |G| && Restable(G[be.ctrl.node])
  {
    FinalEmptyEarlier(be, CloseIf(bt, be).(loops := be.loops), G);
    FinalEarlier(ElseOf(b, bt), be, G);
    FinalEarlier(OpenIf(b, cond), bt, G);
    if bt.ctrl.At? && be.ctrl.At? {
      FinalMergeHere(CloseIf(bt, be), G, |be.g|);
      FinalNode(bt, G, bt.ctrl.node);
      FinalNode(be, G, be.ctrl.node);
    }
  }

  /** A merge that no open loop owns is in the finished graph as it was emitted. */
  lemma FinalMergeHere(b: Builder, G: Graph, k: nat)
    requires Final(b, G) && k < |b.g| && k !in OpenMerges(b.loops)
    ensures k < |G| && G[k] == b.g[k]
  {
    assert Grows(b.g, G, k, OpenMerges(b.loops));
  }

  lemma IfBranches(G: Graph, o: Oracle, b: Builder, cond: int, a: Cfg, tr: Trace) returns (a1: Cfg)
    requires BuilderOk(b) && Here(G, b, a, tr) && Final(OpenIf(b, cond), G)
    ensures Reaches(G, o, a, a1) && a1 == Cfg(if o.test(tr, cond) then |b.g| + 2 else |b.g| + 3, a.env)
  {
    var b1, n := OpenIf(b, cond), |b.g|;
    FinalNode(b1, G, b.ctrl.node);
    FinalNode(b1, G, n);
    FinalNode(b1, G, n + 1);
    GoTo(G, o, a, n + 1);
    GoBranch(G, o, Cfg(n + 1, a.env));
    a1 := Cfg(if o.test(tr, cond) then n + 2 else n + 3, a.env);
    ReachesTrans(G, o, a, Cfg(n + 1, a.env), a1);
  }

  /** From the end of either side to the join. */
  lemma IfJoins(G: Graph, o: Oracle, a: Cfg, r: Result, b: Builder, bt: Builder, be: Builder, left: bool, fuel: nat)
    requires |b.g| + 4 <= |bt.g| <= |be.g|
    requires var side := if left then bt else be;
             Follows(G, o, a, r, b.defers, b.loops, side.ctrl, side.mem, fuel, if left then |b.g| + 4 else |bt.g|)
    requires b.loops != [] ==> b.loops[|b.loops| - 1].header <= |b.g|
    requires bt.ctrl.At? && be.ctrl.At? ==>
               && |be.g| < |G| && G[|be.g|] == Merge([(bt.ctrl.node, bt.mem), (be.ctrl.node, be.mem)])
               && bt.ctrl.node < |G| && Restable(G[bt.ctrl.node]) && be.ctrl.node < |G| && Restable(G[be.ctrl.node])
    ensures Follows(G, o, a, r, b.defers, b.loops, CloseIf(bt, be).ctrl, CloseIf(bt, be).mem, fuel, |b.g| + 4)
  {
    var side := if left then bt else be;
    ReachesSelf(G, o, a);
    FollowsAfter(G, o, a, a, r, b.defers, b.loops, side.ctrl, side.mem, fuel, |b.g| + 4, if left then |b.g| + 4 else |bt.g|);
    if bt.ctrl.At? && be.ctrl.At? {
      assert G[|be.g|].ins[0] == (bt.ctrl.node, bt.mem) && G[|be.g|].ins[1] == (be.ctrl.node, be.mem);
      FollowsInto(G, o, a, r, b.defers, b.loops, side.ctrl, side.mem, |be.g|, fuel, |b.g| + 4);
    }
  }

  // ---------------------------------------------------------------------
  // while
  // ---------------------------------------------------------------------

  /** What the finished graph holds of a while loop. */
  ghost predicate WhileIn(G: Graph, b: Builder, cond: int, body: Builder) {
    var n := |b.g|;
    && n + 6 <= |body.g| && n + 6 <= |G| && b.mem < n && WellBuilt(G)
    && G[n].Merge? && G[n + 1] == Load(n, cond) && G[n + 2] == Branch(n, n + 1)
    && G[n + 3] == IfTrue(n + 2) && G[n + 4] == IfFalse(n + 2) && G[n + 5].Merge? && (n + 4, n) in G[n + 5].ins
    && (body.ctrl.At? ==> body.ctrl.node < |G| && Restable(G[body.ctrl.node]) && (body.ctrl.node, body.mem) in G[n].ins)
  }

  lemma WhileFinal(b: Builder, cond: int, body: Builder, G: Graph)
    requires BuilderOk(b) && b.ctrl.At? && body.defers == b.defers && body.depth == b.depth
    requires Emitted(OpenWhile(b, cond).(depth := b.depth + 1), body.(depth := b.depth + 1))
    requires Final(CloseWhile(b, body), G)
    ensures Final(body, G) && Final(OpenWhile(b, cond), G) && WhileIn(G, b, cond, body)
    ensures b.ctrl.node < |G| && Restable(G[b.ctrl.node]) && (b.ctrl.node, b.mem) in G[|b.g|].ins
  {
    hide LoopOk, SortedDefers, WellBuilt, NodeOk;
    var b1, n, b' := OpenWhile(b, cond), |b.g|, CloseWhile(b, body);
    OpenWhileKeeps(b, cond);
    CloseWhileKeeps(b, cond, body);
    ExtendsTrans(body.g, b'.g, G, {n}, OpenMerges(b.loops), OpenMerges(b1.loops));
    FinalEarlier(b1.(depth := b.depth + 1), body.(depth := b.depth + 1), G);
    assert Final(b1, G);
    assert b1.g[n].ins[0] == (b.ctrl.node, b.mem) && b1.g[n + 5].ins[0] == (n + 4, n);
    assert b1.g[b.ctrl.node] == b.g[b.ctrl.node];
    FinalNode(b1, G, b.ctrl.node);
    FinalNode(b1, G, n);
    FinalNode(b1, G, n + 1);
    FinalNode(b1, G, n + 2);
    FinalNode(b1, G, n + 3);
    FinalNode(b1, G, n + 4);
    FinalNode(b1, G, n + 5);
    if body.ctrl.At? {
      FinalNode(body, G, body.ctrl.node);
      SameKind(b1.g, body.g, OpenMerges(b1.loops), n);
      FinalNode(b', G, n);
      assert b'.g[n].ins[|body.g[n].ins|] == (body.ctrl.node, body.mem);
    }
  }

  lemma WhileReady(b: Builder, cond: int, body: seq<Stmt>, inDefer: bool, G: Graph)
    requires BuilderOk(b) && b.ctrl.At? && AllAllowed(body, true, inDefer) && Final(EmitStmt(b, While(cond, body), inDefer), G)
    ensures var bt := EmitScope(OpenWhile(b, cond), body, inDefer);
            BuilderOk(OpenWhile(b, cond).(depth := b.depth + 1)) && Final(bt, G) && WhileIn(G, b, cond, bt)
    ensures b.ctrl.node < |G| && Restable(G[b.ctrl.node]) && (b.ctrl.node, b.mem) in G[|b.g|].ins
  {
    hide LoopOk, WellBuilt, Extends;
    OpenWhileKeeps(b, cond);
    InnerScope(OpenWhile(b, cond), body, true, inDefer);
    WhileFinal(b, cond, EmitScope(OpenWhile(b, cond), body, inDefer), G);
  }

  lemma {:induction false} SimWhile(G: Graph, o: Oracle, b: Builder, cond: int, body: seq<Stmt>, a: Cfg, tr: Trace, inDefer: bool, fuel: nat)
    requires BuilderOk(b) && AllAllowed(body, true, inDefer)
    requires Here(G, b, a, tr) && Final(EmitStmt(b, While(cond, body), inDefer), G)
    ensures var b' := EmitStmt(b, While(cond, body), inDefer);
            Follows(G, o, a, ExecWhile(o, cond, body, tr, inDefer, fuel), b.defers, b.loops, b'.ctrl, b'.mem, fuel, |b.g|)
    decreases if inDefer then 0 else 3, fuel, body, 8
  {
    hide Follows, BuilderOk, Extends, Reaches;
    var bt := EmitScope(OpenWhile(b, cond), body, inDefer);
    WhileReady(b, cond, body, inDefer, G);
    GoMerge(G, o, a, |b.g|, b.mem);
    var a1 := Cfg(|b.g|, a.env[|b.g| := tr]);
    SimWhileAt(G, o, b, cond, body, bt, a1, tr, inDefer, fuel);
    if b.loops != [] {
      InnermostLoop(b);
    }
    FollowsAfter(G, o, a, a1, ExecWhile(o, cond, body, tr, inDefer, fuel), b.defers, b.loops, At(|b.g| + 5), |b.g| + 5, fuel, |b.g|, |b.g|);
  }

  /** From the header on. */
  lemma {:induction false} SimWhileAt(G: Graph, o: Oracle, b: Builder, cond: int, body: seq<Stmt>, bt: Builder, a: Cfg, tr: Trace, inDefer: bool, fuel: nat)
    requires BuilderOk(b) && b.ctrl.At? && AllAllowed(body, true, inDefer) && BuilderOk(OpenWhile(b, cond).(depth := b.depth + 1))
    requires bt == EmitScope(OpenWhile(b, cond), body, inDefer) && Final(bt, G) && WhileIn(G, b, cond, bt)
    requires a.at == |b.g| && a.at in a.env && a.env[a.at] == tr
    ensures Follows(G, o, a, ExecWhile(o, cond, body, tr, inDefer, fuel), b.defers, b.loops, At(|b.g| + 5), |b.g| + 5, fuel, |b.g|)
    decreases if inDefer then 0 else 3, fuel, body, 7
  {
    hide Follows, LoopOk, WellBuilt, Extends, Reaches;
    var n := |b.g|;
    if fuel == 0 {
      StartsRun(G, o, a, b, n + 5);
      return;
    }
    var a1 := Cfg(n + 2, a.env);
    GoTo(G, o, a, n + 2);
    GoBranch(G, o, a1);
    if b.loops != [] {
      InnermostLoop(b);
    }
    if !o.test(tr, cond) {
      var a2 := Cfg(n + 4, a.env);
      ReachesTrans(G, o, a, a1, a2);
      LoopExits(G, o, a, a2, b, n, tr, n + 5, fuel);
    } else {
      var a2 := Cfg(n + 3, a.env);
      var b1 := OpenWhile(b, cond);
      var r := ExecScope(o, body, tr, [], inDefer, fuel - 1);
      assert b1.loops[|b1.loops| - 1] == Loop(n, n + 5, n, b.depth + 1);
      SimScope(G, o, b1, body, a2, tr, true, inDefer, fuel - 1);
      var next := WhileBodyEnds(G, o, b, cond, bt, a2, r, fuel - 1);
      if r.Done? && (r.how.Normal? || r.how.Continued?) {
        SimWhileAt(G, o, b, cond, body, bt, next, r.tr, inDefer, fuel - 1);
        ReachesTrans(G, o, a1, a2, next);
        FollowsIteration(G, o, a, a1, next, ExecWhile(o, cond, body, r.tr, inDefer, fuel - 1), b.defers, b.loops, At(n + 5), n + 5, fuel, n, n);
      } else {
        var r' := if r.Done? && r.how.Broke? then Done(r.tr, Normal) else r;
        FollowsIteration(G, o, a, a1, a2, r', b.defers, b.loops, At(n + 5), n + 5, fuel, n, n);
      }
    }
  }

  lemma StartsRun(G: Graph, o: Oracle, a: Cfg, b: Builder, c: nat)
    ensures Follows(G, o, a, Timeout, b.defers, b.loops, At(c), c, 0, |b.g|)
  {
    assert Steps(G, o, a, 0, a);
  }

  /** The loop's test fails: out through its exit merge. */
  lemma LoopExits(G: Graph, o: Oracle, a: Cfg, a2: Cfg, b: Builder, m: nat, tr: Trace, exit: nat, fuel: nat)
    requires Reaches(G, o, a, a2) && a2.env == a.env && Eval(G, a.env, m) == tr
    requires a2.at < |G| && Restable(G[a2.at]) && |b.g| <= exit < |G| && G[exit].Merge? && (a2.at, m) in G[exit].ins
    ensures Follows(G, o, a, Done(tr, Normal), b.defers, b.loops, At(exit), exit, fuel, |b.g|)
  {
    GoMerge(G, o, a2, exit, m);
    var a3 := Cfg(exit, a.env[exit := tr]);
    ReachesTrans(G, o, a, a2, a3);
  }

  /** One run of the body: back to the header, out through the exit, or returned. */
  lemma WhileBodyEnds(G: Graph, o: Oracle, b: Builder, cond: int, bt: Builder, a: Cfg, r: Result, fuel: nat) returns (next: Cfg)
    requires BuilderOk(b) && b.ctrl.At? && WhileIn(G, b, cond, bt)
    requires var b1 := OpenWhile(b, cond); Follows(G, o, a, r, b.defers, b1.loops, bt.ctrl, bt.mem, fuel, |b1.g|)
    ensures r.Done? && (r.how.Normal? || r.how.Continued?) ==>
              && Reaches(G, o, a, next) && SameBelow(a.env, next.env, |b.g|)
              && next.at == |b.g| && next.at in next.env && next.env[next.at] == r.tr
    ensures !(r.Done? && (r.how.Normal? || r.how.Continued?)) ==>
              Follows(G, o, a, if r.Done? && r.how.Broke? then Done(r.tr, Normal) else r, b.defers, b.loops, At(|b.g| + 5), |b.g| + 5, fuel, |b.g|)
  {
    hide WellBuilt, LoopOk, Reaches, CanRun;
    var n := |b.g|;
    var b1 := OpenWhile(b, cond);
    var l := Loop(n, n + 5, n, b.depth + 1);
    assert b1.loops[|b1.loops| - 1] == l;
    NoneLocal(b.defers, b.depth);
    next := a;
    if r.Done? && r.how.Normal? {
      next := LandedInMerge(G, o, a, bt.ctrl.node, bt.mem, r.tr, n, n, |b1.g|);
    } else if r.Done? && !r.how.Returned? {
      var t: nat := if r.how.Broke? then n + 5 else n;
      assert RunDefers(o, Pending(b.defers, b.depth + 1), r, fuel) == r;
      assert LeavesBy(G, o, a, t, r, fuel, n);
      var env :| Reaches(G, o, a, Cfg(t, env)) && t in env && env[t] == r.tr && SameBelow(a.env, env, n);
      next := Cfg(t, env);
    }
  }

  // ---------------------------------------------------------------------
  // for
  // ---------------------------------------------------------------------

  /** What the finished graph holds of a for loop; the increment is there if anything leads to it. */
  ghost predicate ForIn(G: Graph, b: Builder, id: int, body: Builder) {
    var n := |b.g|;
    && n + 11 <= |body.g| && n + 11 <= |G| && b.mem < n && WellBuilt(G)
    && G[n] == Load(b.mem, id) && G[n + 1] == Store(b.mem, LoopInit(id)) && G[n + 2].Merge?
    && G[n + 3] == Load(n + 2, id) && G[n + 4] == Compare(n + 3, n, id) && G[n + 5] == Branch(n + 2, n + 4)
    && G[n + 6] == IfTrue(n + 5) && G[n + 7] == IfFalse(n + 5) && G[n + 8].Merge? && (n + 7, n + 2) in G[n + 8].ins
    && G[n + 9].Merge? && G[n + 10] == Jump(n + 9)
    && (body.ctrl.At? ==> body.ctrl.node < |G| && Restable(G[body.ctrl.node]) && (body.ctrl.node, body.mem) in G[n + 9].ins)
    && (G[n + 9].ins != [] ==> |body.g| < |G| && G[|body.g|] == Store(n + 9, LoopBump(id)) && (n + 10, |body.g|) in G[n + 2].ins)
  }

  lemma ForStages(b: Builder, id: int, body: Builder, G: Graph)
    requires BuilderOk(b) && b.ctrl.At? && body.defers == b.defers && body.depth == b.depth
    requires Emitted(OpenFor(b, id).(depth := b.depth + 1), body.(depth := b.depth + 1))
    requires Final(CloseFor(b, id, body), G)
    ensures Final(body, G) && Final(OpenFor(b, id), G)
    ensures CloseFor(b, id, body).loops == b.loops && BuilderOk(CloseFor(b, id, body))
    ensures |JoinFor(b, body)| == |body.g| && |b.g| + 11 <= |body.g| <= |CloseFor(b, id, body).g| <= |G|
    ensures body.g[|b.g| + 2].Merge? && body.g[|b.g| + 9].Merge?
  {
    hide LoopOk, SortedDefers, WellBuilt, NodeOk;
    var b1, n, b' := OpenFor(b, id), |b.g|, CloseFor(b, id, body);
    OpenForKeeps(b, id);
    CloseForKeeps(b, id, body);
    ExtendsTrans(body.g, b'.g, G, {n + 2, n + 9}, OpenMerges(b.loops), OpenMerges(b1.loops));
    FinalEarlier(b1.(depth := b.depth + 1), body.(depth := b.depth + 1), G);
    assert b1.g[n + 2].Merge? && b1.g[n + 9].Merge?;
    SameKind(b1.g, body.g, OpenMerges(b1.loops), n + 2);
    SameKind(b1.g, body.g, OpenMerges(b1.loops), n + 9);
  }

  /** The increment merge is complete once the loop is closed, and so is the increment behind it. */
  lemma ForIncrement(b: Builder, id: int, body: Builder, G: Graph)
    requires BuilderOk(b) && b.ctrl.At? && body.defers == b.defers && body.depth == b.depth
    requires Emitted(OpenFor(b, id).(depth := b.depth + 1), body.(depth := b.depth + 1))
    requires Final(CloseFor(b, id, body), G)
    ensures |b.g| + 11 <= |body.g| && |b.g| + 11 <= |G| && G[|b.g| + 2].Merge? && G[|b.g| + 9].Merge?
    ensures body.ctrl.At? ==> body.ctrl.node < |G| && Restable(G[body.ctrl.node]) && (body.ctrl.node, body.mem) in G[|b.g| + 9].ins
    ensures G[|b.g| + 9].ins != [] ==>
              |body.g| < |G| && G[|body.g|] == Store(|b.g| + 9, LoopBump(id)) && (|b.g| + 10, |body.g|) in G[|b.g| + 2].ins
  {
    hide LoopOk, SortedDefers, WellBuilt, NodeOk, Extends;
    var n, b' := |b.g|, CloseFor(b, id, body);
    ForStages(b, id, body, G);
    var g := JoinFor(b, body);
    assert n + 9 !in OpenMerges(b.loops) by {
      if n + 9 in OpenMerges(b.loops) {
        OpenMergesExist(b, n + 9);
      }
    }
    FinalMergeHere(b', G, n + 9);
    FinalNode(b', G, n + 2);
    if body.ctrl.At? {
      FinalNode(body, G, body.ctrl.node);
      assert g[n + 9].ins[|body.g[n + 9].ins|] == (body.ctrl.node, body.mem);
    }
    if g[n + 9].ins != [] {
      FinalNode(b', G, |g|);
      assert b'.g[n + 2].ins[|g[n + 2].ins|] == (n + 10, |g|);
    }
  }

  lemma ForFinal(b: Builder, id: int, body: Builder, G: Graph)
    requires BuilderOk(b) && b.ctrl.At? && body.defers == b.defers && body.depth == b.depth
    requires Emitted(OpenFor(b, id).(depth := b.depth + 1), body.(depth := b.depth + 1))
    requires Final(CloseFor(b, id, body), G)
    ensures Final(body, G) && Final(OpenFor(b, id), G) && ForIn(G, b, id, body)
    ensures b.ctrl.node < |G| && Restable(G[b.ctrl.node]) && (b.ctrl.node, |b.g| + 1) in G[|b.g| + 2].ins
  {
    hide LoopOk, SortedDefers, WellBuilt, NodeOk, Extends;
    var b1, n := OpenFor(b, id), |b.g|;
    ForStages(b, id, body, G);
    ForIncrement(b, id, body, G);
    assert b1.g[n + 2].ins[0] == (b.ctrl.node, n + 1) && b1.g[n + 8].ins[0] == (n + 7, n + 2);
    assert b1.g[b.ctrl.node] == b.g[b.ctrl.node];
    FinalNode(b1, G, b.ctrl.node);
    FinalNode(b1, G, n);
    FinalNode(b1, G, n + 1);
    FinalNode(b1, G, n + 2);
    FinalNode(b1, G, n + 3);
    FinalNode(b1, G, n + 4);
    FinalNode(b1, G, n + 5);
    FinalNode(b1, G, n + 6);
    FinalNode(b1, G, n + 7);
    FinalNode(b1, G, n + 8);
    FinalNode(b1, G, n + 10);
  }

  lemma ForReady(b: Builder, id: int, body: seq<Stmt>, inDefer: bool, G: Graph)
    requires BuilderOk(b) && b.ctrl.At? && AllAllowed(body, true, inDefer) && Final(EmitStmt(b, For(id, body), inDefer), G)
    ensures var bt := EmitScope(OpenFor(b, id), body, inDefer);
            BuilderOk(OpenFor(b, id).(depth := b.depth + 1)) && Final(bt, G) && ForIn(G, b, id, bt)
    ensures b.ctrl.node < |G| && Restable(G[b.ctrl.node]) && (b.ctrl.node, |b.g| + 1) in G[|b.g| + 2].ins
  {
    hide LoopOk, WellBuilt, Extends;
    OpenForKeeps(b, id);
    InnerScope(OpenFor(b, id), body, true, inDefer);
    ForFinal(b, id, EmitScope(OpenFor(b, id), body, inDefer), G);
  }

  lemma {:induction false} SimFor(G: Graph, o: Oracle, b: Builder, id: int, body: seq<Stmt>, a: Cfg, tr: Trace, inDefer: bool, fuel: nat)
    requires BuilderOk(b) && AllAllowed(body, true, inDefer)
    requires Here(G, b, a, tr) && Final(EmitStmt(b, For(id, body), inDefer), G)
    ensures var b' := EmitStmt(b, For(id, body), inDefer);
            Follows(G, o, a, ExecFor(o, id, body, tr + [LoopInit(id)], tr, inDefer, fuel), b.defers, b.loops, b'.ctrl, b'.mem, fuel, |b.g|)
    decreases if inDefer then 0 else 3, fuel, body, 8
  {
    hide Follows, BuilderOk, Extends, Reaches;
    var n := |b.g|;
    var bt := EmitScope(OpenFor(b, id), body, inDefer);
    ForReady(b, id, body, inDefer, G);
    GoMerge(G, o, a, n + 2, n + 1);
    assert Eval(G, a.env, n + 1) == tr + [LoopInit(id)];
    var a1 := Cfg(n + 2, a.env[n + 2 := tr + [LoopInit(id)]]);
    EvalFrame(G, a.env, a1.env, b.mem, n);
    SimForAt(G, o, b, id, body, bt, a1, tr + [LoopInit(id)], tr, inDefer, fuel);
    if b.loops != [] {
      InnermostLoop(b);
    }
    FollowsAfter(G, o, a, a1, ExecFor(o, id, body, tr + [LoopInit(id)], tr, inDefer, fuel), b.defers, b.loops, At(n + 8), n + 8, fuel, n, n);
  }

  /** From the header on; `entry` is what the bound was computed from. */
  lemma {:induction false} SimForAt(G: Graph, o: Oracle, b: Builder, id: int, body: seq<Stmt>, bt: Builder, a: Cfg, tr: Trace, entry: Trace, inDefer: bool, fuel: nat)
    requires BuilderOk(b) && b.ctrl.At? && AllAllowed(body, true, inDefer) && BuilderOk(OpenFor(b, id).(depth := b.depth + 1))
    requires bt == EmitScope(OpenFor(b, id), body, inDefer) && Final(bt, G) && ForIn(G, b, id, bt)
    requires a.at == |b.g| + 2 && a.at in a.env && a.env[a.at] == tr && Eval(G, a.env, b.mem) == entry
    ensures Follows(G, o, a, ExecFor(o, id, body, tr, entry, inDefer, fuel), b.defers, b.loops, At(|b.g| + 8), |b.g| + 8, fuel, |b.g|)
    decreases if inDefer then 0 else 3, fuel, body, 7
  {
    hide Follows, LoopOk, WellBuilt, Extends, Reaches, Step;
    var n := |b.g|;
    if fuel == 0 {
      StartsRun(G, o, a, b, n + 8);
      return;
    }
    var a1 := Cfg(n + 5, a.env);
    ForTested(G, o, b, id, bt, a, tr, entry);
    if b.loops != [] {
      InnermostLoop(b);
    }
    if !o.less(tr, entry, id) {
      var a2 := Cfg(n + 7, a.env);
      ReachesTrans(G, o, a, a1, a2);
      LoopExits(G, o, a, a2, b, n + 2, tr, n + 8, fuel);
    } else {
      var a2 := Cfg(n + 6, a.env);
      var b1 := OpenFor(b, id);
      var r := ExecScope(o, body, tr, [], inDefer, fuel - 1);
      SimScope(G, o, b1, body, a2, tr, true, inDefer, fuel - 1);
      var next := ForBodyEnds(G, o, b, id, bt, a2, r, entry, fuel - 1);
      if r.Done? && (r.how.Normal? || r.how.Continued?) {
        SimForAt(G, o, b, id, body, bt, next, r.tr + [LoopBump(id)], entry, inDefer, fuel - 1);
        ReachesTrans(G, o, a1, a2, next);
        FollowsIteration(G, o, a, a1, next, ExecFor(o, id, body, r.tr + [LoopBump(id)], entry, inDefer, fuel - 1), b.defers, b.loops, At(n + 8), n + 8, fuel, n, n);
      } else {
        var r' := if r.Done? && r.how.Broke? then Done(r.tr, Normal) else r;
        FollowsIteration(G, o, a, a1, a2, r', b.defers, b.loops, At(n + 8), n + 8, fuel, n, n);
      }
    }
  }

  /** From the header the loop's test decides between the body and the exit. */
  lemma ForTested(G: Graph, o: Oracle, b: Builder, id: int, bt: Builder, a: Cfg, tr: Trace, entry: Trace)
    requires ForIn(G, b, id, bt) && a.at == |b.g| + 2 && a.at in a.env && a.env[a.at] == tr && Eval(G, a.env, b.mem) == entry
    ensures var a1, a2 := Cfg(|b.g| + 5, a.env), Cfg(if o.less(tr, entry, id) then |b.g| + 6 else |b.g| + 7, a.env);
            Step(G, o, a, a1) && Reaches(G, o, a, a1) && Step(G, o, a1, a2) && Reaches(G, o, a1, a2)
  {
    hide WellBuilt, Reaches;
    var n := |b.g|;
    GoTo(G, o, a, n + 5);
    GoBranch(G, o, Cfg(n + 5, a.env));
    assert Truth(G, o, a.env, n + 4) == o.less(tr, entry, id);
  }

  /** One run of the body: through the increment to the header, out through the exit, or returned. */
  lemma ForBodyEnds(G: Graph, o: Oracle, b: Builder, id: int, bt: Builder, a: Cfg, r: Result, entry: Trace, fuel: nat) returns (next: Cfg)
    requires BuilderOk(b) && b.ctrl.At? && ForIn(G, b, id, bt) && Eval(G, a.env, b.mem) == entry
    requires var b1 := OpenFor(b, id); Follows(G, o, a, r, b.defers, b1.loops, bt.ctrl, bt.mem, fuel, |b1.g|)
    ensures r.Done? && (r.how.Normal? || r.how.Continued?) ==>
              && Reaches(G, o, a, next) && SameBelow(a.env, next.env, |b.g|) && Eval(G, next.env, b.mem) == entry
              && next.at == |b.g| + 2 && next.at in next.env && next.env[next.at] == r.tr + [LoopBump(id)]
    ensures !(r.Done? && (r.how.Normal? || r.how.Continued?)) ==>
              Follows(G, o, a, if r.Done? && r.how.Broke? then Done(r.tr, Normal) else r, b.defers, b.loops, At(|b.g| + 8), |b.g| + 8, fuel, |b.g|)
  {
    hide WellBuilt, LoopOk, Reaches, CanRun;
    var n := |b.g|;
    var b1 := OpenFor(b, id);
    var l := Loop(n + 2, n + 8, n + 9, b.depth + 1);
    assert b1.loops[|b1.loops| - 1] == l;
    NoneLocal(b.defers, b.depth);
    next := a;
    if r.Done? && r.how.Normal? {
      var a1 := LandedInMerge(G, o, a, bt.ctrl.node, bt.mem, r.tr, n + 9, n, |b1.g|);
      next := Increment(G, o, b, id, bt, a, a1, r.tr, entry);
    } else if r.Done? && !r.how.Returned? {
      var t: nat := if r.how.Broke? then n + 8 else n + 9;
      assert RunDefers(o, Pending(b.defers, b.depth + 1), r, fuel) == r;
      assert LeavesBy(G, o, a, t, r, fuel, n + 2);
      var env :| Reaches(G, o, a, Cfg(t, env)) && t in env && env[t] == r.tr && SameBelow(a.env, env, n + 2);
      if r.how.Continued? {
        next := Increment(G, o, b, id, bt, a, Cfg(t, env), r.tr, entry);
      }
    }
  }

  lemma Increment(G: Graph, o: Oracle, b: Builder, id: int, bt: Builder, a: Cfg, a1: Cfg, tr: Trace, entry: Trace) returns (next: Cfg)
    requires ForIn(G, b, id, bt) && Eval(G, a.env, b.mem) == entry
    requires Reaches(G, o, a, a1) && SameBelow(a.env, a1.env, |b.g|)
    requires a1.at == |b.g| + 9 && a1.at in a1.env && a1.env[a1.at] == tr && G[a1.at].ins != []
    ensures Reaches(G, o, a, next) && SameBelow(a.env, next.env, |b.g|) && Eval(G, next.env, b.mem) == entry
    ensures next.at == |b.g| + 2 && next.at in next.env && next.env[next.at] == tr + [LoopBump(id)]
  {
    hide WellBuilt, Reaches;
    var n := |b.g|;
    var a2 := Cfg(n + 10, a1.env);
    GoTo(G, o, a1, n + 10);
    GoMerge(G, o, a2, n + 2, |bt.g|);
    assert Eval(G, a1.env, |bt.g|) == tr + [LoopBump(id)];
    next := Cfg(n + 2, a1.env[n + 2 := tr + [LoopBump(id)]]);
    ReachesTrans(G, o, a, a1, a2);
    ReachesTrans(G, o, a, a2, next);
    EvalFrame(G, a.env, next.env, b.mem, n);
  }
}
