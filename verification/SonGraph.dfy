/** The control and memory skeleton of a sea-of-nodes graph, and what running it means. */
module SonGraph {
  import opened DeferLang
  import opened Options

  /** A node's id is its position; `Const` is the zero a function returns by default. `Merge` is a Region together with its memory Phi: the i-th input pair
      is a control predecessor and the memory it brings. A branch's two projections follow it. */
  datatype Node =
    | Start
    | Store(mem: nat, ev: Event)
    | Load(mem: nat, id: int)
    | Compare(counter: nat, bound: nat, id: int)
    | Branch(ctrl: nat, cond: nat)
    | IfTrue(branch: nat)
    | IfFalse(branch: nat)
    | Merge(ins: seq<(nat, nat)>)
    | Jump(region: nat)
    | Const
    | Ret(ctrl: nat, mem: nat, value: Option<nat>)

  type Graph = seq<Node>

  /** Memory and values refer to earlier nodes only; a branch is followed by its projections. */
  ghost predicate WellBuilt(g: Graph) {
    forall k | 0 <= k < |g| :: NodeOk(g, k)
  }

  ghost predicate NodeOk(g: Graph, k: nat)
    requires k < |g|
  {
    match g[k]
    case Start => k == 0
    case Store(mem, _) => mem < k
    case Load(mem, _) => mem < k
    case Compare(counter, bound, _) => counter < k && bound < k && g[counter].Load? && g[bound].Load?
    case Branch(ctrl, cond) => ctrl < k && cond < k && k + 2 < |g| && g[k + 1] == IfTrue(k) && g[k + 2] == IfFalse(k)
    case IfTrue(b) => b < k
    case IfFalse(b) => b < k
    case Merge(ins) => forall i | 0 <= i < |ins| :: ins[i].0 < |g| && ins[i].1 < |g|
    case Jump(region) => region < k
    case Const => true
    case Ret(ctrl, mem, value) => ctrl < k && mem < k && (value.Some? ==> value.value < k)
  }

  /** Memory contents carried by the merges, by the last entry to each. */
  type Env = map<nat, Trace>

  /** The effects a memory node stands for. */
  ghost function Eval(g: Graph, env: Env, m: nat): Trace
    decreases m
  {
    if m >= |g| then []
    else match g[m]
      case Store(mem, ev) => if mem < m then Eval(g, env, mem) + [ev] else []
      case Merge(_) => if m in env then env[m] else []
      case _ => []
  }

  /** The outcome of a condition node. */
  ghost function Truth(g: Graph, o: Oracle, env: Env, v: nat): bool {
    if v >= |g| then false
    else match g[v]
      case Load(mem, id) => o.test(Eval(g, env, mem), id)
      case Compare(c, b, id) =>
        c < |g| && b < |g| && g[c].Load? && g[b].Load? && o.less(Eval(g, env, g[c].mem), Eval(g, env, g[b].mem), id)
      case _ => false
  }

  /** What a return's value input stands for. */
  ghost function AnswerAt(g: Graph, env: Env, value: Option<nat>): Answer {
    if value.None? || value.value >= |g| then Nothing
    else match g[value.value]
      case Load(mem, id) => Gave(id, Eval(g, env, mem))
      case _ => Zero
  }

  /** Where control is, and the memory the merges hold. */
  datatype Cfg = Cfg(at: nat, env: Env)

  /** y takes control directly from x: it names x as its control input. */
  ghost predicate TakesControl(g: Graph, x: nat, y: nat)
    requires y < |g|
  {
    match g[y]
    case Branch(ctrl, _) => ctrl == x
    case Jump(region) => region == x
    case Ret(ctrl, _, _) => ctrl == x
    case _ => false
  }

  /** One step of control; a return ends the run. */
  ghost predicate Step(g: Graph, o: Oracle, a: Cfg, b: Cfg) {
    && a.at < |g| && b.at < |g| && !g[a.at].Ret?
    && if g[a.at].Branch? then
         b == Cfg(if Truth(g, o, a.env, g[a.at].cond) then a.at + 1 else a.at + 2, a.env)
       else
         || (TakesControl(g, a.at, b.at) && b.env == a.env)
         || (g[b.at].Merge? && exists i :: 0 <= i < |g[b.at].ins| && Enters(g, a, b, i))
  }

  ghost predicate Enters(g: Graph, a: Cfg, b: Cfg, i: nat)
    requires b.at < |g| && g[b.at].Merge? && i < |g[b.at].ins|
  {
    g[b.at].ins[i].0 == a.at && b.env == a.env[b.at := Eval(g, a.env, g[b.at].ins[i].1)]
  }

  /** n steps lead from a to b. */
  ghost predicate Steps(g: Graph, o: Oracle, a: Cfg, n: nat, b: Cfg)
    decreases n
  {
    if n == 0 then a == b
    else exists m :: Step(g, o, a, m) && Steps(g, o, m, n - 1, b)
  }

  ghost predicate Reaches(g: Graph, o: Oracle, a: Cfg, b: Cfg) {
    exists n: nat :: Steps(g, o, a, n, b)
  }

  /** A run of at least n steps is possible. */
  ghost predicate CanRun(g: Graph, o: Oracle, a: Cfg, n: nat) {
    exists b :: Steps(g, o, a, n, b)
  }

  lemma {:induction false} StepsConcat(g: Graph, o: Oracle, a: Cfg, n: nat, b: Cfg, k: nat, c: Cfg)
    requires Steps(g, o, a, n, b) && Steps(g, o, b, k, c)
    ensures Steps(g, o, a, n + k, c)
    decreases n
  {
    if n > 0 {
      var m :| Step(g, o, a, m) && Steps(g, o, m, n - 1, b);
      StepsConcat(g, o, m, n - 1, b, k, c);
    }
  }

  lemma ReachesTrans(g: Graph, o: Oracle, a: Cfg, b: Cfg, c: Cfg)
    requires Reaches(g, o, a, b) && Reaches(g, o, b, c)
    ensures Reaches(g, o, a, c)
  {
    var n: nat :| Steps(g, o, a, n, b);
    var k: nat :| Steps(g, o, b, k, c);
    StepsConcat(g, o, a, n, b, k, c);
  }

  lemma ReachesSelf(g: Graph, o: Oracle, a: Cfg)
    ensures Reaches(g, o, a, a)
  {
    assert Steps(g, o, a, 0, a);
  }

  lemma StepReaches(g: Graph, o: Oracle, a: Cfg, b: Cfg)
    requires Step(g, o, a, b)
    ensures Reaches(g, o, a, b)
  {
    assert Steps(g, o, b, 0, b);
    assert Steps(g, o, a, 1, b);
  }

  /** A prefix of a run is a run. */
  lemma {:induction false} CanRunLess(g: Graph, o: Oracle, a: Cfg, n: nat, k: nat)
    requires CanRun(g, o, a, n) && k <= n
    ensures CanRun(g, o, a, k)
    decreases k
  {
    if k == 0 {
      assert Steps(g, o, a, 0, a);
    } else {
      var b :| Steps(g, o, a, n, b);
      var m :| Step(g, o, a, m) && Steps(g, o, m, n - 1, b);
      CanRunLess(g, o, m, n - 1, k - 1);
      var c :| Steps(g, o, m, k - 1, c);
      assert Steps(g, o, a, k, c);
    }
  }

  lemma ReachesThenRuns(g: Graph, o: Oracle, a: Cfg, b: Cfg, n: nat)
    requires Reaches(g, o, a, b) && CanRun(g, o, b, n)
    ensures CanRun(g, o, a, n)
  {
    var k: nat :| Steps(g, o, a, k, b);
    var c :| Steps(g, o, b, n, c);
    StepsConcat(g, o, a, k, b, n, c);
    CanRunLess(g, o, a, k + n, n);
  }

  lemma StepThenRuns(g: Graph, o: Oracle, a: Cfg, b: Cfg, n: nat)
    requires Step(g, o, a, b) && CanRun(g, o, b, n)
    ensures CanRun(g, o, a, n + 1)
  {
    var c :| Steps(g, o, b, n, c);
    assert Steps(g, o, a, n + 1, c);
  }

  // ---------------------------------------------------------------------
  // memory seen by earlier nodes does not change
  // ---------------------------------------------------------------------

  /** The merges below `bound` hold the same memory. */
  ghost predicate SameBelow(env: Env, env': Env, bound: nat) {
    forall k: nat | k < bound :: (k in env <==> k in env') && (k in env ==> env[k] == env'[k])
  }

  /** A memory node sees only merges at or below itself. */
  lemma {:induction false} EvalFrame(g: Graph, env: Env, env': Env, m: nat, bound: nat)
    requires SameBelow(env, env', bound) && m < bound
    ensures Eval(g, env, m) == Eval(g, env', m)
    decreases m
  {
    if m < |g| && g[m].Store? && g[m].mem < m {
      EvalFrame(g, env, env', g[m].mem, bound);
    }
  }

  // ---------------------------------------------------------------------
  // extension
  // ---------------------------------------------------------------------

  /** h extends g: new nodes at the end, and more inputs on the merges in `open` only. */
  ghost predicate Extends(g: Graph, h: Graph, open: set<nat>) {
    && |g| <= |h|
    && forall k: nat | k < |g| :: Grows(g, h, k, open)
  }

  ghost predicate Grows(g: Graph, h: Graph, k: nat, open: set<nat>)
    requires k < |g| <= |h|
  {
    if k in open && g[k].Merge? then h[k].Merge? && g[k].ins <= h[k].ins else h[k] == g[k]
  }

  lemma ExtendsTrans(g: Graph, h: Graph, f: Graph, open: set<nat>, open': set<nat>, all: set<nat>)
    requires Extends(g, h, open) && Extends(h, f, open') && open <= all && (forall k | k in open' && k < |g| :: k in all)
    ensures Extends(g, f, all)
  {
    forall k: nat | k < |g| ensures Grows(g, f, k, all) {
      assert Grows(g, h, k, open) && Grows(h, f, k, open');
    }
  }

  lemma {:induction false} EvalExtends(g: Graph, h: Graph, open: set<nat>, env: Env, m: nat)
    requires Extends(g, h, open) && m < |g|
    ensures Eval(g, env, m) == Eval(h, env, m)
    decreases m
  {
    assert Grows(g, h, m, open);
    if g[m].Store? && g[m].mem < m {
      EvalExtends(g, h, open, env, g[m].mem);
    }
  }
}
