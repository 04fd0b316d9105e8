/** Structured statements with `defer`, and what running them means: every scope runs the defers it
    registered, last in first out, on every kind of exit. */
module DeferLang {
  import opened Options


  /** Statements; conditions, values and effects are opaque and named by a number. */
  datatype Stmt =
    | Effect(id: int)
    | If(cond: int, thn: seq<Stmt>, els: seq<Stmt>)
    | While(cond: int, body: seq<Stmt>)
    | For(id: int, body: seq<Stmt>)
    | Block(body: seq<Stmt>)
    | Defer(body: seq<Stmt>)
    | Break
    | Continue
    | Return(value: Option<int>)

  /** A `for` loop initialises and bumps its counter; everything else observable is a plain effect. */
  datatype Event = Did(id: int) | LoopInit(id: int) | LoopBump(id: int)

  type Trace = seq<Event>

  /** Outcomes of conditions: of a test, given what happened so far, and of a loop's comparison of its
      counter now with the bound computed when the loop was entered. */
  datatype Oracle = Oracle(test: (Trace, int) -> bool, less: (Trace, Trace, int) -> bool)

  /** What a function answers: nothing, the default zero, or a value read from memory as it was then. */
  datatype Answer = Nothing | Zero | Gave(value: int, at: Trace)

  /** How control leaves a statement. */
  datatype Exit = Normal | Broke | Continued | Returned(answer: Answer)

  /** Timeout: the fuel, one unit per loop iteration, ran out. */
  datatype Result = Timeout | Done(tr: Trace, how: Exit)

  /** What the semantic analysis admits: break and continue only in loops, and a deferred body free of
      break, continue, return and nested defers. */
  predicate Allowed(s: Stmt, inLoop: bool, inDefer: bool)
    decreases s, 0
  {
    match s
    case Effect(_) => true
    case If(_, thn, els) => AllAllowed(thn, inLoop, inDefer) && AllAllowed(els, inLoop, inDefer)
    case While(_, body) => AllAllowed(body, true, inDefer)
    case For(_, body) => AllAllowed(body, true, inDefer)
    case Block(body) => AllAllowed(body, inLoop, inDefer)
    case Defer(body) => !inDefer && AllAllowed(body, false, true)
    case Break => inLoop && !inDefer
    case Continue => inLoop && !inDefer
    case Return(_) => !inDefer
  }

  predicate AllAllowed(ss: seq<Stmt>, inLoop: bool, inDefer: bool)
    decreases ss, 1
  {
    ss == [] || (Allowed(ss[0], inLoop, inDefer) && AllAllowed(ss[1..], inLoop, inDefer))
  }

  /** Runs one statement. */
  ghost function Exec(o: Oracle, s: Stmt, tr: Trace, inDefer: bool, fuel: nat): Result
    decreases fuel, if inDefer then 0 else 2, s, 0
  {
    match s
    case Effect(id) => Done(tr + [Did(id)], Normal)
    case If(cond, thn, els) => ExecScope(o, if o.test(tr, cond) then thn else els, tr, [], inDefer, fuel)
    case While(cond, body) => ExecWhile(o, cond, body, tr, inDefer, fuel)
    case For(id, body) => ExecFor(o, id, body, tr + [LoopInit(id)], tr, inDefer, fuel)
    case Block(body) => ExecScope(o, body, tr, [], inDefer, fuel)
    case Defer(_) => Done(tr, Normal)
    case Break => Done(tr, Broke)
    case Continue => Done(tr, Continued)
    case Return(value) => Done(tr, Returned(if value.None? then Nothing else Gave(value.value, tr)))
  }

  /** Runs the rest of a scope; `pend` holds the defers registered in it so far, latest first. They run
      whichever way the scope is left. (Inside a deferred body there are none.) */
  ghost function ExecScope(o: Oracle, ss: seq<Stmt>, tr: Trace, pend: seq<seq<Stmt>>, inDefer: bool, fuel: nat): Result
    decreases fuel, if inDefer then 0 else 2, ss, 1
  {
    if ss == [] then
      if inDefer then Done(tr, Normal) else RunDefers(o, pend, Done(tr, Normal), fuel)
    else if ss[0].Defer? && !inDefer then ExecScope(o, ss[1..], tr, [ss[0].body] + pend, inDefer, fuel)
    else
      var r := Exec(o, ss[0], tr, inDefer, fuel);
      if r.Done? && r.how.Normal? then ExecScope(o, ss[1..], r.tr, pend, inDefer, fuel)
      else if inDefer then r else RunDefers(o, pend, r, fuel)
  }

  /** Runs the bodies in order, keeping the way the scope is left. */
  ghost function RunDefers(o: Oracle, pend: seq<seq<Stmt>>, r: Result, fuel: nat): Result
    decreases fuel, 1, 0, |pend|
  {
    if r.Timeout? || pend == [] then r
    else
      var d := ExecScope(o, pend[0], r.tr, [], true, fuel);
      if d.Timeout? then Timeout else RunDefers(o, pend[1..], Done(d.tr, r.how), fuel)
  }

  ghost function ExecWhile(o: Oracle, cond: int, body: seq<Stmt>, tr: Trace, inDefer: bool, fuel: nat): Result
    decreases fuel, if inDefer then 0 else 2, body, 2
  {
    if fuel == 0 then Timeout
    else if !o.test(tr, cond) then Done(tr, Normal)
    else
      var r := ExecScope(o, body, tr, [], inDefer, fuel - 1);
      if r.Timeout? then Timeout
      else match r.how
        case Normal => ExecWhile(o, cond, body, r.tr, inDefer, fuel - 1)
        case Continued => ExecWhile(o, cond, body, r.tr, inDefer, fuel - 1)
        case Broke => Done(r.tr, Normal)
        case Returned(_) => r
  }

  /** `entry` is the trace when the loop's bound was computed. */
  ghost function ExecFor(o: Oracle, id: int, body: seq<Stmt>, tr: Trace, entry: Trace, inDefer: bool, fuel: nat): Result
    decreases fuel, if inDefer then 0 else 2, body, 2
  {
    if fuel == 0 then Timeout
    else if !o.less(tr, entry, id) then Done(tr, Normal)
    else
      var r := ExecScope(o, body, tr, [], inDefer, fuel - 1);
      if r.Timeout? then Timeout
      else match r.how
        case Normal => ExecFor(o, id, body, r.tr + [LoopBump(id)], entry, inDefer, fuel - 1)
        case Continued => ExecFor(o, id, body, r.tr + [LoopBump(id)], entry, inDefer, fuel - 1)
        case Broke => Done(r.tr, Normal)
        case Returned(_) => r
  }

  lemma {:induction false} RunDefersConcat(o: Oracle, p: seq<seq<Stmt>>, q: seq<seq<Stmt>>, r: Result, fuel: nat)
    ensures RunDefers(o, p + q, r, fuel) == RunDefers(o, q, RunDefers(o, p, r, fuel), fuel)
    decreases |p|
  {
    if p == [] || r.Timeout? {
      assert p == [] ==> p + q == q;
    } else {
      assert (p + q)[1..] == p[1..] + q && (p + q)[0] == p[0];
      var d := ExecScope(o, p[0], r.tr, [], true, fuel);
      if d.Done? {
        RunDefersConcat(o, p[1..], q, Done(d.tr, r.how), fuel);
      }
    }
  }

  // ---------------------------------------------------------------------
  // more fuel changes no finished run
  // ---------------------------------------------------------------------

  lemma {:induction false} ExecMore(o: Oracle, s: Stmt, tr: Trace, inDefer: bool, fuel: nat, k: nat)
    requires k >= fuel && Exec(o, s, tr, inDefer, fuel).Done?
    ensures Exec(o, s, tr, inDefer, k) == Exec(o, s, tr, inDefer, fuel)
    decreases fuel, if inDefer then 0 else 2, s, 0
  {
    match s
    case If(cond, thn, els) => ScopeMore(o, if o.test(tr, cond) then thn else els, tr, [], inDefer, fuel, k);
    case While(cond, body) => WhileMore(o, cond, body, tr, inDefer, fuel, k);
    case For(id, body) => ForMore(o, id, body, tr + [LoopInit(id)], tr, inDefer, fuel, k);
    case Block(body) => ScopeMore(o, body, tr, [], inDefer, fuel, k);
    case _ =>
  }

  lemma {:induction false} ScopeMore(o: Oracle, ss: seq<Stmt>, tr: Trace, pend: seq<seq<Stmt>>, inDefer: bool, fuel: nat, k: nat)
    requires k >= fuel && ExecScope(o, ss, tr, pend, inDefer, fuel).Done?
    ensures ExecScope(o, ss, tr, pend, inDefer, k) == ExecScope(o, ss, tr, pend, inDefer, fuel)
    decreases fuel, if inDefer then 0 else 2, ss, 1
  {
    if ss == [] {
      if !inDefer {
        DefersMore(o, pend, Done(tr, Normal), fuel, k);
      }
    } else if ss[0].Defer? && !inDefer {
      ScopeMore(o, ss[1..], tr, [ss[0].body] + pend, inDefer, fuel, k);
    } else {
      var r := Exec(o, ss[0], tr, inDefer, fuel);
      if r.Done? {
        ExecMore(o, ss[0], tr, inDefer, fuel, k);
        if r.how.Normal? {
          ScopeMore(o, ss[1..], r.tr, pend, inDefer, fuel, k);
        } else if !inDefer {
          DefersMore(o, pend, r, fuel, k);
        }
      }
    }
  }

  lemma {:induction false} DefersMore(o: Oracle, pend: seq<seq<Stmt>>, r: Result, fuel: nat, k: nat)
    requires k >= fuel && RunDefers(o, pend, r, fuel).Done?
    ensures RunDefers(o, pend, r, k) == RunDefers(o, pend, r, fuel)
    decreases fuel, 1, 0, |pend|
  {
    if r.Done? && pend != [] {
      var d := ExecScope(o, pend[0], r.tr, [], true, fuel);
      if d.Done? {
        ScopeMore(o, pend[0], r.tr, [], true, fuel, k);
        DefersMore(o, pend[1..], Done(d.tr, r.how), fuel, k);
      }
    }
  }

  lemma {:induction false} WhileMore(o: Oracle, cond: int, body: seq<Stmt>, tr: Trace, inDefer: bool, fuel: nat, k: nat)
    requires k >= fuel && ExecWhile(o, cond, body, tr, inDefer, fuel).Done?
    ensures ExecWhile(o, cond, body, tr, inDefer, k) == ExecWhile(o, cond, body, tr, inDefer, fuel)
    decreases fuel, if inDefer then 0 else 2, body, 2
  {
    if o.test(tr, cond) {
      ScopeMore(o, body, tr, [], inDefer, fuel - 1, k - 1);
      var r := ExecScope(o, body, tr, [], inDefer, fuel - 1);
      if r.how.Normal? || r.how.Continued? {
        WhileMore(o, cond, body, r.tr, inDefer, fuel - 1, k - 1);
      }
    }
  }

  lemma {:induction false} ForMore(o: Oracle, id: int, body: seq<Stmt>, tr: Trace, entry: Trace, inDefer: bool, fuel: nat, k: nat)
    requires k >= fuel && ExecFor(o, id, body, tr, entry, inDefer, fuel).Done?
    ensures ExecFor(o, id, body, tr, entry, inDefer, k) == ExecFor(o, id, body, tr, entry, inDefer, fuel)
    decreases fuel, if inDefer then 0 else 2, body, 2
  {
    if o.less(tr, entry, id) {
      ScopeMore(o, body, tr, [], inDefer, fuel - 1, k - 1);
      var r := ExecScope(o, body, tr, [], inDefer, fuel - 1);
      if r.how.Normal? || r.how.Continued? {
        ForMore(o, id, body, r.tr + [LoopBump(id)], entry, inDefer, fuel - 1, k - 1);
      }
    }
  }
}
