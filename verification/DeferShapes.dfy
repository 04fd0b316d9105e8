/** What the rules for defers and loops come to on programs of a known shape, in the structured language and,
    by the lowering's correctness, in the graph. */
module DeferShapes {
  import opened DeferLang
  import opened SonGraph
  import opened SonFollows
  import opened SonFunction
  import opened Options

  /** One defer after another, each of a plain effect. */
  function Registering(xs: seq<int>): (r: seq<Stmt>)
    ensures |r| == |xs| && forall k | 0 <= k < |xs| :: r[k] == Defer([Effect(xs[k])])
  {
    seq(|xs|, k requires 0 <= k < |xs| => Defer([Effect(xs[k])]))
  }

  /** Their effects, latest first. */
  function Backwards(xs: seq<int>): (r: Trace)
    ensures |r| == |xs| && forall k | 0 <= k < |xs| :: r[k] == Did(xs[|xs| - 1 - k])
  {
    seq(|xs|, k requires 0 <= k < |xs| => Did(xs[|xs| - 1 - k]))
  }

  /** The deferred bodies, latest first. */
  function Bodies(xs: seq<int>): (r: seq<seq<Stmt>>)
    ensures |r| == |xs| && forall k | 0 <= k < |xs| :: r[k] == [Effect(xs[|xs| - 1 - k])]
  {
    seq(|xs|, k requires 0 <= k < |xs| => [Effect(xs[|xs| - 1 - k])])
  }

  lemma {:induction false} Registers(o: Oracle, xs: seq<int>, ss: seq<Stmt>, tr: Trace, pend: seq<seq<Stmt>>, fuel: nat)
    ensures ExecScope(o, Registering(xs) + ss, tr, pend, false, fuel) == ExecScope(o, ss, tr, Bodies(xs) + pend, false, fuel)
    decreases |xs|
  {
    if xs == [] {
      assert Registering(xs) + ss == ss && Bodies(xs) + pend == pend;
    } else {
      assert (Registering(xs) + ss)[1..] == Registering(xs[1..]) + ss;
      Registers(o, xs[1..], ss, tr, [[Effect(xs[0])]] + pend, fuel);
      assert Bodies(xs[1..]) + ([[Effect(xs[0])]] + pend) == Bodies(xs) + pend;
    }
  }

  lemma {:induction false} Unwinds(o: Oracle, xs: seq<int>, tr: Trace, how: Exit, fuel: nat)
    ensures RunDefers(o, Bodies(xs), Done(tr, how), fuel) == Done(tr + Backwards(xs), how)
    decreases |xs|
  {
    if xs == [] {
      assert tr + Backwards(xs) == tr;
    } else {
      var m := |xs| - 1;
      assert Bodies(xs)[1..] == Bodies(xs[..m]) && Bodies(xs)[0] == [Effect(xs[m])];
      OneEffect(o, xs[m], tr, fuel);
      Unwinds(o, xs[..m], tr + [Did(xs[m])], how, fuel);
      assert tr + [Did(xs[m])] + Backwards(xs[..m]) == tr + Backwards(xs);
    }
  }

  lemma OneEffect(o: Oracle, x: int, tr: Trace, fuel: nat)
    ensures ExecScope(o, [Effect(x)], tr, [], true, fuel) == Done(tr + [Did(x)], Normal)
  {
    assert [Effect(x)][1..] == [];
  }

  /** How a jump or a return leaves: a return reads its value first. */
  function LeavesBy(e: Stmt, tr: Trace): Exit
    requires e.Break? || e.Continue? || e.Return?
  {
    match e
    case Break => Broke
    case Continue => Continued
    case Return(value) => Returned(if value.None? then Nothing else Gave(value.value, tr))
  }

  /** Whichever way a scope is left, the defers registered by then run, latest first, and nothing behind the
      exit does; what a return answers was computed before them. */
  lemma ScopeUnwinds(o: Oracle, xs: seq<int>, e: Stmt, rest: seq<Stmt>, tr: Trace, fuel: nat)
    requires e.Break? || e.Continue? || e.Return?
    ensures ExecScope(o, Registering(xs) + ([e] + rest), tr, [], false, fuel) == Done(tr + Backwards(xs), LeavesBy(e, tr))
    ensures ExecScope(o, Registering(xs), tr, [], false, fuel) == Done(tr + Backwards(xs), Normal)
  {
    Registers(o, xs, [e] + rest, tr, [], fuel);
    Registers(o, xs, [], tr, [], fuel);
    assert Registering(xs) + [] == Registering(xs) && Bodies(xs) + [] == Bodies(xs);
    Unwinds(o, xs, tr, LeavesBy(e, tr), fuel);
    Unwinds(o, xs, tr, Normal, fuel);
  }

  /** Leaving two scopes at once runs the inner one's defers before the outer one's. */
  lemma NestedUnwinds(o: Oracle, xs: seq<int>, ys: seq<int>, e: Stmt, rest: seq<Stmt>, behind: seq<Stmt>, tr: Trace, fuel: nat)
    requires e.Break? || e.Continue? || e.Return?
    ensures ExecScope(o, Registering(xs) + ([Block(Registering(ys) + ([e] + rest))] + behind), tr, [], false, fuel) ==
            Done(tr + Backwards(ys) + Backwards(xs), LeavesBy(e, tr))
  {
    var inner := Block(Registering(ys) + ([e] + rest));
    Registers(o, xs, [inner] + behind, tr, [], fuel);
    assert Bodies(xs) + [] == Bodies(xs);
    ScopeUnwinds(o, ys, e, rest, tr, fuel);
    Unwinds(o, xs, tr + Backwards(ys), LeavesBy(e, tr), fuel);
  }

  /** What n rounds of a counted loop leave behind. */
  function Rounds(x: int, ys: seq<int>, id: int, n: nat): Trace {
    if n == 0 then [] else [Did(x)] + Backwards(ys) + [LoopBump(id)] + Rounds(x, ys, id, n - 1)
  }

  /** An effect, then a scope with defers, left by continue. */
  function Round(x: int, ys: seq<int>, rest: seq<Stmt>): seq<Stmt> {
    [Effect(x)] + (Registering(ys) + ([Continue] + rest))
  }

  lemma RoundRuns(o: Oracle, x: int, ys: seq<int>, rest: seq<Stmt>, tr: Trace, fuel: nat)
    ensures ExecScope(o, Round(x, ys, rest), tr, [], false, fuel) == Done(tr + [Did(x)] + Backwards(ys), Continued)
  {
    assert Round(x, ys, rest)[1..] == Registering(ys) + ([Continue] + rest);
    ScopeUnwinds(o, ys, Continue, rest, tr + [Did(x)], fuel);
  }

  /** The loop goes on while fewer than `limit` things have happened since its counter was set, on entry. */
  ghost predicate GoesOnFor(o: Oracle, id: int, limit: nat) {
    forall t, e :: o.less(t, e, id) <==> |t| < |e| + 1 + limit
  }

  lemma GoesOn(o: Oracle, id: int, limit: nat, tr: Trace, entry: Trace)
    requires GoesOnFor(o, id, limit)
    ensures o.less(tr, entry, id) <==> |tr| < |entry| + 1 + limit
  {
  }

  /** A counted loop left by continue in every round still bumps its counter, once a round, after the round's
      defers; its bound is the one on entry. */
  lemma CountedLoop(o: Oracle, id: int, x: int, ys: seq<int>, rest: seq<Stmt>, tr: Trace, n: nat, fuel: nat)
    requires GoesOnFor(o, id, (|ys| + 2) * n) && fuel > n
    ensures Exec(o, For(id, Round(x, ys, rest)), tr, false, fuel) == Done(tr + [LoopInit(id)] + Rounds(x, ys, id, n), Normal)
  {
    hide GoesOnFor, ExecFor, Rounds, Round;
    RoundsLeft(o, id, x, ys, rest, tr + [LoopInit(id)], tr, (|ys| + 2) * n, n, fuel);
  }

  lemma {:induction false} RoundsLeft(o: Oracle, id: int, x: int, ys: seq<int>, rest: seq<Stmt>, tr: Trace, entry: Trace, limit: nat, k: nat, fuel: nat)
    requires GoesOnFor(o, id, limit) && |tr| + (|ys| + 2) * k == |entry| + 1 + limit && fuel > k
    ensures ExecFor(o, id, Round(x, ys, rest), tr, entry, false, fuel) == Done(tr + Rounds(x, ys, id, k), Normal)
    decreases k
  {
    hide Round, GoesOnFor;
    GoesOn(o, id, limit, tr, entry);
    if k == 0 {
      assert tr + Rounds(x, ys, id, k) == tr;
    } else {
      var next := tr + [Did(x)] + Backwards(ys) + [LoopBump(id)];
      assert (|ys| + 2) * k == (|ys| + 2) * (k - 1) + |ys| + 2;
      assert o.less(tr, entry, id);
      hide ExecFor;
      OneRound(o, id, x, ys, rest, tr, entry, fuel);
      RoundsLeft(o, id, x, ys, rest, next, entry, limit, k - 1, fuel - 1);
      assert next + Rounds(x, ys, id, k - 1) == tr + Rounds(x, ys, id, k);
    }
  }

  lemma OneRound(o: Oracle, id: int, x: int, ys: seq<int>, rest: seq<Stmt>, tr: Trace, entry: Trace, fuel: nat)
    requires fuel > 0 && o.less(tr, entry, id)
    ensures ExecFor(o, id, Round(x, ys, rest), tr, entry, false, fuel) ==
            ExecFor(o, id, Round(x, ys, rest), tr + [Did(x)] + Backwards(ys) + [LoopBump(id)], entry, false, fuel - 1)
  {
    hide Round;
    RoundRuns(o, x, ys, rest, tr, fuel - 1);
  }

  /** A break ends a loop in its first round, after the round's defers and without a bump. */
  lemma BreakEnds(o: Oracle, id: int, xs: seq<int>, rest: seq<Stmt>, tr: Trace, fuel: nat)
    requires fuel > 0
    ensures o.less(tr + [LoopInit(id)], tr, id) ==>
              Exec(o, For(id, Registering(xs) + ([Break] + rest)), tr, false, fuel) == Done(tr + [LoopInit(id)] + Backwards(xs), Normal)
    ensures o.test(tr, id) ==>
              Exec(o, While(id, Registering(xs) + ([Break] + rest)), tr, false, fuel) == Done(tr + Backwards(xs), Normal)
    ensures !o.test(tr, id) ==> Exec(o, While(id, rest), tr, false, fuel) == Done(tr, Normal)
  {
    ScopeUnwinds(o, xs, Break, rest, tr + [LoopInit(id)], fuel - 1);
    ScopeUnwinds(o, xs, Break, rest, tr, fuel - 1);
  }

  /** A conditional runs the side its test says, with that side's defers. */
  lemma SideRuns(o: Oracle, c: int, xs: seq<int>, ys: seq<int>, tr: Trace, fuel: nat)
    ensures Exec(o, If(c, Registering(xs), Registering(ys)), tr, false, fuel) == Done(tr + Backwards(if o.test(tr, c) then xs else ys), Normal)
  {
    ScopeUnwinds(o, xs, Break, [], tr, fuel);
    ScopeUnwinds(o, ys, Break, [], tr, fuel);
  }

  // ---------------------------------------------------------------------
  // what is admitted
  // ---------------------------------------------------------------------

  /** t occurs in s, with these answers to whether it stands in a loop and in a deferred body; a deferred
      body stands in no loop but its own. */
  ghost predicate Occurs(s: Stmt, inLoop: bool, inDefer: bool, t: Stmt, loop: bool, deferred: bool)
    decreases s, 0
  {
    || (t == s && loop == inLoop && deferred == inDefer)
    || match s
       case If(_, thn, els) => OccursIn(thn, inLoop, inDefer, t, loop, deferred) || OccursIn(els, inLoop, inDefer, t, loop, deferred)
       case While(_, body) => OccursIn(body, true, inDefer, t, loop, deferred)
       case For(_, body) => OccursIn(body, true, inDefer, t, loop, deferred)
       case Block(body) => OccursIn(body, inLoop, inDefer, t, loop, deferred)
       case Defer(body) => OccursIn(body, false, true, t, loop, deferred)
       case _ => false
  }

  ghost predicate OccursIn(ss: seq<Stmt>, inLoop: bool, inDefer: bool, t: Stmt, loop: bool, deferred: bool)
    decreases ss, 1
  {
    ss != [] && (Occurs(ss[0], inLoop, inDefer, t, loop, deferred) || OccursIn(ss[1..], inLoop, inDefer, t, loop, deferred))
  }

  /** A jump outside a loop, or a jump, a return or a defer inside a deferred body. */
  predicate Misplaced(t: Stmt, loop: bool, deferred: bool) {
    || ((t.Break? || t.Continue?) && (!loop || deferred))
    || ((t.Return? || t.Defer?) && deferred)
  }

  /** A body is admitted exactly when nothing misplaced occurs in it. */
  lemma {:induction false} AdmittedExactly(ss: seq<Stmt>, inLoop: bool, inDefer: bool)
    ensures AllAllowed(ss, inLoop, inDefer) <==>
            forall t, loop, deferred :: OccursIn(ss, inLoop, inDefer, t, loop, deferred) ==> !Misplaced(t, loop, deferred)
    decreases ss, 1
  {
    if ss != [] {
      StmtAdmitted(ss[0], inLoop, inDefer);
      AdmittedExactly(ss[1..], inLoop, inDefer);
      forall t, loop, deferred
        ensures OccursIn(ss, inLoop, inDefer, t, loop, deferred) <==>
                Occurs(ss[0], inLoop, inDefer, t, loop, deferred) || OccursIn(ss[1..], inLoop, inDefer, t, loop, deferred)
      {
      }
    }
  }

  lemma {:induction false} StmtAdmitted(s: Stmt, inLoop: bool, inDefer: bool)
    ensures Allowed(s, inLoop, inDefer) <==>
            forall t, loop, deferred :: Occurs(s, inLoop, inDefer, t, loop, deferred) ==> !Misplaced(t, loop, deferred)
    decreases s, 0
  {
    assert Occurs(s, inLoop, inDefer, s, inLoop, inDefer);
    match s
    case If(_, thn, els) =>
      AdmittedExactly(thn, inLoop, inDefer);
      AdmittedExactly(els, inLoop, inDefer);
    case While(_, body) => AdmittedExactly(body, true, inDefer);
    case For(_, body) => AdmittedExactly(body, true, inDefer);
    case Block(body) => AdmittedExactly(body, inLoop, inDefer);
    case Defer(body) =>
      AdmittedExactly(body, false, true);
      assert !Misplaced(s, inLoop, inDefer) <==> !inDefer;
      forall t, loop, deferred
        ensures Occurs(s, inLoop, inDefer, t, loop, deferred) <==>
                (t == s && loop == inLoop && deferred == inDefer) || OccursIn(body, false, true, t, loop, deferred)
      {
      }
    case _ =>
      assert forall t, loop, deferred :: Occurs(s, inLoop, inDefer, t, loop, deferred) ==> t == s && loop == inLoop && deferred == inDefer;
      assert Allowed(s, inLoop, inDefer) <==> !Misplaced(s, inLoop, inDefer);
  }

  // ---------------------------------------------------------------------
  // in the graph
  // ---------------------------------------------------------------------

  /** Control leaves a branch by the projection its condition says. */
  lemma BranchGoesByTest(g: Graph, o: Oracle, a: Cfg, b: Cfg)
    requires WellBuilt(g) && Step(g, o, a, b) && g[a.at].Branch?
    ensures g[b.at] == if Truth(g, o, a.env, g[a.at].cond) then IfTrue(a.at) else IfFalse(a.at)
  {
    assert NodeOk(g, a.at);
  }

  /** A return out of two scopes in the graph: the inner defers, the outer defers, and the value from before. */
  lemma GraphUnwinds(o: Oracle, xs: seq<int>, ys: seq<int>, v: int, isVoid: bool, tr: Trace, w: Answer)
    ensures var body := Registering(xs) + ([Block(Registering(ys) + ([Return(Some(v))] + []))] + []);
            Returns(Lowered(body, isVoid), o, ENTRY, tr, w) <==> tr == Backwards(ys) + Backwards(xs) && w == Gave(v, [])
  {
    var body := Registering(xs) + ([Block(Registering(ys) + ([Return(Some(v))] + []))] + []);
    BothAdmitted(xs, ys, v);
    LoweringIsCorrect(o, body, isVoid, tr, w);
    forall fuel: nat ensures Run(o, body, fuel) == Done(Backwards(ys) + Backwards(xs), Returned(Gave(v, []))) {
      NestedUnwinds(o, xs, ys, Return(Some(v)), [], [], [], fuel);
      assert [] + Backwards(ys) + Backwards(xs) == Backwards(ys) + Backwards(xs);
    }
    assert Run(o, body, 0).Done?;
  }

  lemma BothAdmitted(xs: seq<int>, ys: seq<int>, v: int)
    ensures AllAllowed(Registering(xs) + ([Block(Registering(ys) + ([Return(Some(v))] + []))] + []), false, false)
  {
    var back := [Return(Some(v))] + [];
    assert back[1..] == [];
    RegisteringAdmitted(ys, back);
    var scope := [Block(Registering(ys) + back)] + [];
    assert scope[1..] == [];
    RegisteringAdmitted(xs, scope);
  }

  lemma {:induction false} RegisteringAdmitted(xs: seq<int>, ss: seq<Stmt>)
    requires AllAllowed(ss, false, false)
    ensures AllAllowed(Registering(xs) + ss, false, false)
    decreases |xs|
  {
    if xs == [] {
      assert Registering(xs) + ss == ss;
    } else {
      RegisteringAdmitted(xs[1..], ss);
      assert (Registering(xs) + ss)[1..] == Registering(xs[1..]) + ss;
      assert [Effect(xs[0])][1..] == [] && Allowed(Effect(xs[0]), false, true);
      assert Allowed(Defer([Effect(xs[0])]), false, false);
    }
  }
}
