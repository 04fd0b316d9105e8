/** The builder itself: an object whose graph, control, memory, scopes and loops change as it walks the
    statements. Its state is always the one the emission functions give. */
module SonFnBuilder {
  import opened DeferLang
  import opened SonGraph
  import opened SonBuilder
  import opened SonFunction
  import opened Options

  /** Inside a deferred body nothing is pending at its own scopes: closing one emits nothing. */
  lemma NothingPendingDeeper(b: Builder, d: nat)
    requires SortedDefers(b.defers, b.depth) && b.depth < d
    ensures Pending(b.defers, d) == [] && CloseDefers(b, d) == DropDefers(b, d)
  {
  }

  /** Reading the defers from the back, as far as the bound allows. */
  lemma {:induction false} PendingFrom(ds: seq<(nat, seq<Stmt>)>, i: nat, d: nat, run: seq<seq<Stmt>>)
    requires i <= |ds| && Pending(ds, d) == run + Pending(ds[..i], d)
    ensures i == 0 || ds[i - 1].0 < d ==> run == Pending(ds, d)
    ensures i > 0 && ds[i - 1].0 >= d ==> Pending(ds, d) == run + [ds[i - 1].1] + Pending(ds[..i - 1], d)
  {
    if i > 0 {
      assert ds[..i][..i - 1] == ds[..i - 1];
    }
  }

  /** What the body of a loop needs and leaves alone. */
  ghost predicate BodyOf(b: Builder, b1: Builder, body: seq<Stmt>, inDefer: bool) {
    && SortedDefers(b.defers, b.depth) && b1.depth == b.depth && b1.defers == b.defers && b1.loops != []
    && BuilderOk(b1.(depth := b.depth + 1))
    && var ls := EmitScope(b1, body, inDefer).loops; ls != [] && ls[..|ls| - 1] == b.loops
  }

  lemma IfSides(b: Builder, cond: int, thn: seq<Stmt>, els: seq<Stmt>, inLoop: bool, inDefer: bool)
    requires BuilderOk(b) && b.ctrl.At? && AllAllowed(thn, inLoop, inDefer) && AllAllowed(els, inLoop, inDefer)
    requires inLoop ==> b.loops != []
    ensures var b1 := OpenIf(b, cond);
            var bt := EmitScope(b1, thn, inDefer);
            && SortedDefers(b.defers, b.depth) && BuilderOk(b1.(depth := b.depth + 1))
            && bt.depth == b.depth && bt.defers == b.defers && bt.loops == b.loops && BuilderOk(ElseOf(b, bt).(depth := b.depth + 1))
  {
    IfEmitted(b, cond, thn, els, inLoop, inDefer);
    OpenIfKeeps(b, cond);
    LoopsSurviveDeeper(OpenIf(b, cond));
    LoopsSurviveDeeper(ElseOf(b, EmitScope(OpenIf(b, cond), thn, inDefer)));
  }

  lemma WhileBody(b: Builder, cond: int, body: seq<Stmt>, inDefer: bool)
    requires BuilderOk(b) && b.ctrl.At? && AllAllowed(body, true, inDefer)
    ensures BodyOf(b, OpenWhile(b, cond), body, inDefer)
  {
    OpenWhileKeeps(b, cond);
    InnerScope(OpenWhile(b, cond), body, true, inDefer);
  }

  lemma ForBody(b: Builder, id: int, body: seq<Stmt>, inDefer: bool)
    requires BuilderOk(b) && b.ctrl.At? && AllAllowed(body, true, inDefer)
    ensures BodyOf(b, OpenFor(b, id), body, inDefer)
  {
    OpenForKeeps(b, id);
    InnerScope(OpenFor(b, id), body, true, inDefer);
  }

  lemma BuildReady(body: seq<Stmt>)
    requires AllAllowed(body, false, false)
    ensures BuilderOk(Blank()) && BuilderOk(EmitList(Blank(), body, false))
    ensures EmitBody(body).ctrl.Dead? ==> EmitBody(body).rets != []
    ensures EmitList(Blank(), body, false).ctrl.Dead? ==> EmitBody(body) == EmitList(Blank(), body, false)
  {
    StartOk();
    BodyReady(body);
    ListEmitted(Blank(), body, false, false);
  }

  class FnBuilder {
    var g: Graph
    var ctrl: Ctrl
    var mem: nat
    var depth: nat
    var defers: seq<(nat, seq<Stmt>)>
    var loops: seq<Loop>
    var rets: seq<nat>

    function State(): Builder
      reads this
    {
      Builder(g, ctrl, mem, depth, defers, loops, rets)
    }

    constructor ()
      ensures State() == Blank()
    {
      g, ctrl, mem, depth, defers, loops, rets := [Start], At(0), 0, 0, [], [], [];
    }

    method Make(n: Node) returns (id: nat)
      modifies this`g
      ensures id == |old(g)| && g == old(g) + [n]
    {
      id := |g|;
      g := g + [n];
    }

    method AppendInput(r: nat, c: nat, m: nat)
      modifies this`g
      ensures g == AddInput(old(g), r, c, m)
    {
      if r < |g| && g[r].Merge? {
        g := g[r := Merge(g[r].ins + [(c, m)])];
      }
    }

    /** The bodies an exit down to the given depth runs, read from the back. */
    method Snapshot(min: nat) returns (run: seq<seq<Stmt>>)
      ensures run == Pending(defers, min)
    {
      run := [];
      var i := |defers|;
      assert defers[..i] == defers;
      while i > 0 && defers[i - 1].0 >= min
        invariant 0 <= i <= |defers|
        invariant Pending(defers, min) == run + Pending(defers[..i], min)
      {
        PendingFrom(defers, i, min, run);
        run := run + [defers[i - 1].1];
        i := i - 1;
      }
      PendingFrom(defers, i, min, run);
    }

    /** Emits the pending defers down to the given depth, last registered first. */
    method EmitDefersFrom(min: nat, ghost inDefer: bool, ghost within: seq<Stmt>)
      requires BuilderOk(State()) && (inDefer ==> Pending(defers, min) == [])
      modifies this
      ensures State() == EmitBodies(old(State()), Pending(old(defers), min))
      ensures Emitted(old(State()), State())
      decreases if inDefer then 0 else 1, within, 0
    {
      ghost var b0 := State();
      var run := Snapshot(min);
      hide Pending;
      PendingAllowed(defers, depth, min);
      ExtendsSelf(g, OpenMerges(loops));
      var k := 0;
      while k < |run|
        invariant 0 <= k <= |run|
        invariant forall j | 0 <= j < |run| :: AllAllowed(run[j], false, true)
        invariant Emitted(b0, State()) && defers == b0.defers
        invariant EmitBodies(b0, run) == EmitBodies(State(), run[k..])
      {
        if ctrl.Dead? {
          return;
        }
        ghost var b1 := State();
        ListEmitted(b1, run[k], false, true);
        LowerStmts(run[k], false, true);
        EmittedTrans(b0, b1, State());
        assert run[k..][1..] == run[k + 1..];
        k := k + 1;
      }
    }

    method CloseDefersAt(d: nat, ghost inDefer: bool, ghost within: seq<Stmt>)
      requires BuilderOk(State()) && (inDefer ==> Pending(defers, d) == [])
      modifies this
      ensures State() == CloseDefers(old(State()), d) && depth == old(depth)
      decreases if inDefer then 0 else 1, within, 1
    {
      EmitDefersFrom(d, inDefer, within);
      var keep := [];
      var i := 0;
      while i < |defers|
        invariant 0 <= i <= |defers| && keep == Keep(defers[..i], d)
        invariant State() == EmitBodies(old(State()), Pending(old(defers), d)) && depth == old(depth)
      {
        assert defers[..i + 1][..i] == defers[..i];
        if defers[i].0 < d {
          keep := keep + [defers[i]];
        }
        i := i + 1;
      }
      assert defers[..i] == defers;
      defers := keep;
    }

    method LowerStmts(ss: seq<Stmt>, ghost inLoop: bool, ghost inDefer: bool)
      requires BuilderOk(State()) && AllAllowed(ss, inLoop, inDefer) && (inLoop ==> loops != [])
      modifies this
      ensures State() == EmitList(old(State()), ss, inDefer)
      decreases if inDefer then 0 else 2, ss, 1
    {
      ghost var b0 := State();
      var i := 0;
      while i < |ss|
        invariant 0 <= i <= |ss| && BuilderOk(State()) && loops == b0.loops
        invariant AllAllowed(ss[i..], inLoop, inDefer)
        invariant EmitList(b0, ss, inDefer) == EmitList(State(), ss[i..], inDefer)
      {
        StmtEmitted(State(), ss[i], inLoop, inDefer);
        LowerStmt(ss[i], inLoop, inDefer);
        assert ss[i..][1..] == ss[i + 1..];
        i := i + 1;
      }
    }

    /** One level deeper, the statements, the defers registered there, and back. */
    method LowerScope(ss: seq<Stmt>, ghost inLoop: bool, ghost inDefer: bool)
      requires BuilderOk(State().(depth := depth + 1)) && SortedDefers(defers, depth)
      requires AllAllowed(ss, inLoop, inDefer) && (inLoop ==> loops != [])
      modifies this
      ensures State() == EmitScope(old(State()), ss, inDefer)
      decreases if inDefer then 0 else 2, ss, 2
    {
      ghost var b0 := State();
      depth := depth + 1;
      ListEmitted(State(), ss, inLoop, inDefer);
      LowerStmts(ss, inLoop, inDefer);
      if inDefer {
        NothingPendingDeeper(State().(depth := b0.depth), depth);
      }
      CloseDefersAt(depth, inDefer, ss);
      depth := depth - 1;
    }

    method LowerStmt(s: Stmt, ghost inLoop: bool, ghost inDefer: bool)
      requires BuilderOk(State()) && Allowed(s, inLoop, inDefer) && (inLoop ==> loops != [])
      modifies this
      ensures State() == EmitStmt(old(State()), s, inDefer)
      decreases if inDefer then 0 else 2, s, 1
    {
      if ctrl.Dead? {
        return;
      }
      match s
      case Effect(id) => mem := Make(Store(mem, Did(id)));
      case If(cond, thn, els) => LowerIf(cond, thn, els, inLoop, inDefer);
      case While(cond, body) => LowerWhile(cond, body, inDefer);
      case For(id, body) => LowerFor(id, body, inDefer);
      case Block(body) =>
        LoopsSurviveDeeper(State());
        LowerScope(body, inLoop, inDefer);
      case Defer(body) => defers := defers + [(depth, body)];
      case Break =>
        var l := loops[|loops| - 1];
        LowerLeave(l.bodyDepth, l.exit);
      case Continue =>
        var l := loops[|loops| - 1];
        LowerLeave(l.bodyDepth, l.cont);
      case Return(value) => LowerReturn(value);
    }

    method LowerLeave(bodyDepth: nat, target: nat)
      requires BuilderOk(State()) && ctrl.At?
      modifies this
      ensures State() == LeaveTo(EmitBodies(old(State()), Pending(old(defers), bodyDepth)), target)
      decreases 1, [Break], 2
    {
      PendingAllowed(defers, depth, bodyDepth);
      BodiesEmitted(State(), Pending(defers, bodyDepth));
      EmitDefersFrom(bodyDepth, false, [Break]);
      AppendInput(target, ctrl.node, mem);
      ctrl := Dead;
    }

    /** The value first, then every pending defer, then the return. */
    method LowerReturn(value: Option<int>)
      requires BuilderOk(State()) && ctrl.At?
      modifies this
      ensures State() == CloseReturn(EmitBodies(OpenReturn(old(State()), value), Pending(old(defers), 0)), ValueOf(old(State()), value))
      decreases 1, [Break], 2
    {
      ReturnEmitted(State(), value);
      var v: Option<nat> := None;
      if value.Some? {
        var id := Make(Load(mem, value.value));
        v := Some(id);
      }
      EmitDefersFrom(0, false, [Break]);
      var r := Make(Ret(ctrl.node, mem, v));
      rets := rets + [r];
      ctrl := Dead;
    }

    /** Condition, branch and projections. */
    method Fork(cond: int) returns (onTrue: nat, onFalse: nat)
      requires ctrl.At?
      modifies this`g
      ensures var n := |old(g)|;
              && onTrue == n + 2 && onFalse == n + 3
              && g == old(g) + [Load(mem, cond), Branch(ctrl.node, n), IfTrue(n + 1), IfFalse(n + 1)]
    {
      var c := Make(Load(mem, cond));
      var branch := Make(Branch(ctrl.node, c));
      onTrue := Make(IfTrue(branch));
      onFalse := Make(IfFalse(branch));
    }

    method LowerIf(cond: int, thn: seq<Stmt>, els: seq<Stmt>, ghost inLoop: bool, ghost inDefer: bool)
      requires BuilderOk(State()) && ctrl.At? && AllAllowed(thn, inLoop, inDefer) && AllAllowed(els, inLoop, inDefer)
      requires inLoop ==> loops != []
      modifies this
      ensures var b := old(State());
              var bt := EmitScope(OpenIf(b, cond), thn, inDefer);
              State() == CloseIf(bt, EmitScope(ElseOf(b, bt), els, inDefer))
      decreases if inDefer then 0 else 2, If(cond, thn, els), 0
    {
      ghost var b := State();
      hide BuilderOk, EmitScope, SortedDefers, AllAllowed;
      IfSides(b, cond, thn, els, inLoop, inDefer);
      var memAtIf := mem;
      var onTrue, onFalse := Fork(cond);
      ctrl := At(onTrue);
      assert State() == OpenIf(b, cond);
      LowerScope(thn, inLoop, inDefer);
      var thenEnd, thenMem := ctrl, mem;
      ctrl, mem := At(onFalse), memAtIf;
      LowerScope(els, inLoop, inDefer);
      if thenEnd.Dead? {
        return;
      }
      if ctrl.Dead? {
        ctrl, mem := thenEnd, thenMem;
        return;
      }
      var region := Make(Merge([(thenEnd.node, thenMem), (ctrl.node, mem)]));
      ctrl, mem := At(region), region;
    }

    /** Header, test and exit of a `while`; its body comes next. */
    method EnterWhile(cond: int) returns (header: nat, exit: nat)
      requires ctrl.At?
      modifies this
      ensures State() == OpenWhile(old(State()), cond)
      ensures header == |old(g)| && exit == |old(g)| + 5
    {
      ghost var b := State();
      header := Make(Merge([(ctrl.node, mem)]));
      ctrl, mem := At(header), header;
      var onTrue, onFalse := Fork(cond);
      exit := Make(Merge([(onFalse, mem)]));
      loops := loops + [Loop(header, exit, header, depth + 1)];
      ctrl := At(onTrue);
      assert g == b.g + WhileNodes(b, cond);
    }

    method LowerWhile(cond: int, body: seq<Stmt>, ghost inDefer: bool)
      requires BuilderOk(State()) && ctrl.At? && AllAllowed(body, true, inDefer)
      modifies this
      ensures State() == CloseWhile(old(State()), EmitScope(OpenWhile(old(State()), cond), body, inDefer))
      decreases if inDefer then 0 else 2, body, 4
    {
      ghost var b := State();
      hide BuilderOk, EmitScope, OpenWhile, SortedDefers, AllAllowed;
      WhileBody(b, cond, body, inDefer);
      var header, exit := EnterWhile(cond);
      LowerScope(body, true, inDefer);
      ghost var bt := State();
      if ctrl.At? {
        AppendInput(header, ctrl.node, mem);
      }
      loops := loops[..|loops| - 1];
      assert loops == b.loops;
      ctrl, mem := At(exit), exit;
      assert State() == CloseWhile(b, bt);
    }

    /** Bound, counter, header, test, exit and increment merge of a `for`; its body comes next. */
    method EnterFor(id: int) returns (header: nat, exit: nat, incMerge: nat, inc: nat)
      requires ctrl.At?
      modifies this
      ensures State() == OpenFor(old(State()), id)
      ensures var n := |old(g)|; header == n + 2 && exit == n + 8 && incMerge == n + 9 && inc == n + 10
    {
      ghost var b := State();
      var bound := Make(Load(mem, id));
      mem := Make(Store(mem, LoopInit(id)));
      header := Make(Merge([(ctrl.node, mem)]));
      ctrl, mem := At(header), header;
      var counter := Make(Load(mem, id));
      var c := Make(Compare(counter, bound, id));
      var branch := Make(Branch(ctrl.node, c));
      var onTrue := Make(IfTrue(branch));
      var onFalse := Make(IfFalse(branch));
      exit := Make(Merge([(onFalse, mem)]));
      incMerge := Make(Merge([]));
      inc := Make(Jump(incMerge));
      loops := loops + [Loop(header, exit, incMerge, depth + 1)];
      ctrl := At(onTrue);
      assert g == b.g + ForNodes(b, id);
    }

    method LowerFor(id: int, body: seq<Stmt>, ghost inDefer: bool)
      requires BuilderOk(State()) && ctrl.At? && AllAllowed(body, true, inDefer)
      modifies this
      ensures State() == CloseFor(old(State()), id, EmitScope(OpenFor(old(State()), id), body, inDefer))
      decreases if inDefer then 0 else 2, body, 4
    {
      ghost var b := State();
      hide BuilderOk, EmitScope, OpenFor, SortedDefers, AllAllowed;
      ForBody(b, id, body, inDefer);
      var header, exit, incMerge, inc := EnterFor(id);
      LowerScope(body, true, inDefer);
      ghost var bt := State();
      if ctrl.At? {
        AppendInput(incMerge, ctrl.node, mem);
      }
      assert g == JoinFor(b, bt);
      loops := loops[..|loops| - 1];
      assert loops == b.loops;
      ctrl, mem := At(inc), incMerge;
      if incMerge < |g| && g[incMerge].Merge? && g[incMerge].ins != [] {
        mem := Make(Store(mem, LoopBump(id)));
        AppendInput(header, inc, mem);
      }
      assert g == BumpFor(b, id, JoinFor(b, bt));
      ctrl, mem := At(exit), exit;
    }

    /** The whole function; `isVoid` says whether it returns a value. */
    method Build(body: seq<Stmt>, isVoid: bool)
      requires State() == Blank() && AllAllowed(body, false, false)
      modifies this
      ensures g == Lowered(body, isVoid) && rets == CloseFunction(EmitBody(body), isVoid).rets
    {
      BuildReady(body);
      hide EmitList, EmitBodies, BuilderOk, AllAllowed;
      LowerStmts(body, false, false);
      if ctrl.At? {
        EmitDefersFrom(0, false, [Break]);
      }
      if isVoid && ctrl.At? {
        var r := Make(Ret(ctrl.node, mem, None));
        rets := rets + [r];
      } else if rets == [] {
        var pin, m := if ctrl.At? then ctrl.node else 0, if ctrl.At? then mem else 0;
        if isVoid {
          assert false;
        }
        var v := Make(Const);
        var r := Make(Ret(pin, m, Some(v)));
        rets := [r];
      }
    }
  }
}
