/** Backward liveness over a graph of code regions: facts flow against the edges, each region adding
    what it uses and hiding what it defines. */
module Dataflow {

  /** Region graph with what each region uses before defining it, and what it defines. */
  datatype Flow = Flow(succs: seq<seq<nat>>, uses: seq<set<nat>>, defs: seq<set<nat>>)

  ghost predicate FlowOk(f: Flow) {
    && |f.uses| == |f.succs| == |f.defs|
    && forall k, j | 0 <= k < |f.succs| && 0 <= j < |f.succs[k]| :: f.succs[k][j] < |f.succs|
  }

  /** A fact is live into the first region of the path: used in the last, not defined on the way. */
  ghost predicate LivePath(f: Flow, path: seq<nat>, s: nat) {
    && path != [] && (forall i | 0 <= i < |path| :: path[i] < |f.succs| && path[i] < |f.uses| && path[i] < |f.defs|)
    && (forall i | 0 <= i < |path| - 1 :: Linked(f, path[i], path[i + 1]) && s !in f.defs[path[i]])
    && s in f.uses[path[|path| - 1]]
  }

  ghost predicate Linked(f: Flow, a: nat, b: nat) {
    a < |f.succs| && b in f.succs[a]
  }

  /** Some run from the region's start uses the fact before defining it. */
  ghost predicate LiveIn(f: Flow, k: nat, s: nat) {
    exists path :: LivePath(f, path, s) && path[0] == k
  }

  /** ... with at most n regions on the way. */
  ghost predicate LiveWithin(f: Flow, k: nat, s: nat, n: nat) {
    exists path :: LivePath(f, path, s) && path[0] == k && |path| <= n
  }

  /** The facts some successor needs. */
  function OutOf(succ: seq<nat>, ins: seq<set<nat>>): (r: set<nat>)
    requires forall j | 0 <= j < |succ| :: succ[j] < |ins|
    ensures forall s :: s in r <==> exists j :: 0 <= j < |succ| && s in ins[succ[j]]
  {
    if succ == [] then {}
    else
      var rest := OutOf(succ[1..], ins);
      ins[succ[0]] + rest
  }

  function InOf(f: Flow, k: nat, live: set<nat>): (r: set<nat>)
    requires k < |f.uses| && k < |f.defs|
    ensures forall s :: s in r <==> s in f.uses[k] || (s in live && s !in f.defs[k])
  {
    f.uses[k] + (live - f.defs[k])
  }

  /** The equations every solution meets. */
  ghost predicate Solves(f: Flow, ins: seq<set<nat>>, outs: seq<set<nat>>) {
    && FlowOk(f) && |ins| == |outs| == |f.succs|
    && forall k | 0 <= k < |f.succs| :: outs[k] == OutOf(f.succs[k], ins) && ins[k] == InOf(f, k, outs[k])
  }

  /** Nothing more than what some run needs. */
  ghost predicate Sound(f: Flow, ins: seq<set<nat>>) {
    |ins| == |f.succs| && forall k, s | 0 <= k < |ins| && s in ins[k] :: LiveIn(f, k, s)
  }

  // ---------------------------------------------------------------------
  // paths
  // ---------------------------------------------------------------------

  lemma UsedIsLive(f: Flow, k: nat, s: nat)
    requires FlowOk(f) && k < |f.succs| && s in f.uses[k]
    ensures LiveWithin(f, k, s, 1)
  {
    assert LivePath(f, [k], s);
  }

  lemma LiveThrough(f: Flow, k: nat, next: nat, s: nat, n: nat)
    requires FlowOk(f) && k < |f.succs| && next in f.succs[k] && s !in f.defs[k] && LiveWithin(f, next, s, n)
    ensures LiveWithin(f, k, s, n + 1)
  {
    var path :| LivePath(f, path, s) && path[0] == next && |path| <= n;
    var longer := [k] + path;
    forall i | 0 <= i < |longer| - 1 ensures Linked(f, longer[i], longer[i + 1]) && s !in f.defs[longer[i]] {
      if i > 0 {
        assert longer[i] == path[i - 1] && longer[i + 1] == path[i];
      }
    }
    assert longer[|longer| - 1] == path[|path| - 1];
    assert LivePath(f, longer, s);
  }

  /** A live fact is used at once or live through some successor, nearer its use. */
  lemma LiveSplits(f: Flow, k: nat, s: nat, n: nat)
    requires FlowOk(f) && LiveWithin(f, k, s, n)
    ensures k < |f.succs| && n > 0
    ensures s in f.uses[k] || (s !in f.defs[k] && exists j :: 0 <= j < |f.succs[k]| && LiveWithin(f, f.succs[k][j], s, n - 1))
  {
    var path :| LivePath(f, path, s) && path[0] == k && |path| <= n;
    if |path| > 1 {
      var rest := path[1..];
      assert Linked(f, path[0], path[1]);
      var j :| 0 <= j < |f.succs[k]| && f.succs[k][j] == path[1];
      forall i | 0 <= i < |rest| - 1 ensures Linked(f, rest[i], rest[i + 1]) && s !in f.defs[rest[i]] {
        assert rest[i] == path[i + 1] && rest[i + 1] == path[i + 2];
      }
      assert LivePath(f, rest, s);
    }
  }

  /** A fact needs no more regions than there are: a shortest path repeats none. */
  lemma {:induction false} ShortEnough(f: Flow, path: seq<nat>, s: nat)
    requires FlowOk(f) && LivePath(f, path, s)
    ensures LiveWithin(f, path[0], s, |f.succs|)
    decreases |path|
  {
    if i, j :| 0 <= i < j < |path| && path[i] == path[j] {
      var shorter := path[..i] + path[j..];
      assert shorter[0] == path[0];
      forall k | 0 <= k < |shorter| - 1 ensures Linked(f, shorter[k], shorter[k + 1]) && s !in f.defs[shorter[k]] {
        var at := if k < i then k else k - i + j;
        assert shorter[k] == path[at] && Linked(f, path[at], path[at + 1]);
        assert shorter[k + 1] == path[at + 1];
      }
      assert shorter[|shorter| - 1] == path[|path| - 1];
      assert LivePath(f, shorter, s);
      ShortEnough(f, shorter, s);
    } else {
      DistinctFit(path, |f.succs|);
    }
  }

  /** At most n distinct numbers lie below n. */
  lemma {:induction false} DistinctFit(q: seq<nat>, n: nat)
    requires forall i | 0 <= i < |q| :: q[i] < n
    requires forall i, j | 0 <= i < j < |q| :: q[i] != q[j]
    ensures |q| <= n
    decreases n
  {
    if q != [] {
      assert q[0] < n;
      if i :| 0 <= i < |q| && q[i] == n - 1 {
        var rest := q[..i] + q[i + 1..];
        DistinctFit(rest, n - 1);
      } else {
        var rest := q[1..];
        DistinctFit(rest, n - 1);
      }
    }
  }

  lemma WithinGrows(f: Flow, k: nat, s: nat, n: nat, m: nat)
    requires LiveWithin(f, k, s, n) && n <= m
    ensures LiveWithin(f, k, s, m) && LiveIn(f, k, s)
  {
  }

  lemma LiveIsWithin(f: Flow, k: nat, s: nat)
    requires FlowOk(f) && LiveIn(f, k, s)
    ensures LiveWithin(f, k, s, |f.succs|)
  {
    var path :| LivePath(f, path, s) && path[0] == k;
    ShortEnough(f, path, s);
  }

  // ---------------------------------------------------------------------
  // solutions and paths agree
  // ---------------------------------------------------------------------

  /** Every solution holds at least what some run needs ... */
  lemma {:induction false} SolutionCovers(f: Flow, ins: seq<set<nat>>, outs: seq<set<nat>>, k: nat, s: nat, n: nat)
    requires Solves(f, ins, outs) && LiveWithin(f, k, s, n)
    ensures k < |ins| && s in ins[k]
    decreases n
  {
    LiveSplits(f, k, s, n);
    if s !in f.uses[k] {
      var j :| 0 <= j < |f.succs[k]| && LiveWithin(f, f.succs[k][j], s, n - 1);
      SolutionCovers(f, ins, outs, f.succs[k][j], s, n - 1);
      assert s in OutOf(f.succs[k], ins);
    }
  }

  /** ... so one that holds nothing more is the least: the live facts exactly. */
  lemma LeastIsLive(f: Flow, ins: seq<set<nat>>, outs: seq<set<nat>>)
    requires Solves(f, ins, outs) && Sound(f, ins)
    ensures forall k, s | 0 <= k < |ins| :: s in ins[k] <==> LiveIn(f, k, s)
    ensures forall ins', outs', k | Solves(f, ins', outs') && 0 <= k < |ins| :: ins[k] <= ins'[k]
  {
    forall k, s | 0 <= k < |ins| && LiveIn(f, k, s) ensures s in ins[k] {
      LiveIsWithin(f, k, s);
      SolutionCovers(f, ins, outs, k, s, |f.succs|);
    }
    forall ins', outs', k | Solves(f, ins', outs') && 0 <= k < |ins| ensures ins[k] <= ins'[k] {
      forall s | s in ins[k] ensures s in ins'[k] {
        LiveIsWithin(f, k, s);
        SolutionCovers(f, ins', outs', k, s, |f.succs|);
      }
    }
  }

  /** What one region's equations give from sound inputs is sound. */
  lemma UpdateSound(f: Flow, ins: seq<set<nat>>, k: nat)
    requires FlowOk(f) && Sound(f, ins) && k < |ins|
    ensures Sound(f, ins[k := InOf(f, k, OutOf(f.succs[k], ins))])
  {
    var live := OutOf(f.succs[k], ins);
    forall s | s in InOf(f, k, live) ensures LiveIn(f, k, s) {
      if s in f.uses[k] {
        UsedIsLive(f, k, s);
        WithinGrows(f, k, s, 1, 1);
      } else {
        var j :| 0 <= j < |f.succs[k]| && s in ins[f.succs[k][j]];
        var next := f.succs[k][j];
        LiveIsWithin(f, next, s);
        LiveThrough(f, k, next, s, |f.succs|);
        WithinGrows(f, k, s, |f.succs| + 1, |f.succs| + 1);
      }
    }
  }

  // ---------------------------------------------------------------------
  // iterating until the sizes stand still
  // ---------------------------------------------------------------------

  /** Every set is within what its equation gives: iterating can only add. */
  ghost predicate Rising(f: Flow, ins: seq<set<nat>>, outs: seq<set<nat>>) {
    && FlowOk(f) && |ins| == |outs| == |f.succs|
    && forall k | 0 <= k < |ins| :: RisingAt(f, ins, outs, k)
  }

  ghost predicate RisingAt(f: Flow, ins: seq<set<nat>>, outs: seq<set<nat>>, k: nat)
    requires FlowOk(f) && |ins| == |outs| == |f.succs| && k < |ins|
  {
    outs[k] <= OutOf(f.succs[k], ins) && ins[k] <= InOf(f, k, outs[k])
  }

  lemma OutGrows(succ: seq<nat>, ins: seq<set<nat>>, ins': seq<set<nat>>)
    requires |ins| == |ins'| && (forall j | 0 <= j < |succ| :: succ[j] < |ins|)
    requires forall k | 0 <= k < |ins| :: ins[k] <= ins'[k]
    ensures OutOf(succ, ins) <= OutOf(succ, ins')
  {
  }

  /** Updating one region keeps everything rising. */
  lemma UpdateRises(f: Flow, ins: seq<set<nat>>, outs: seq<set<nat>>, k: nat)
    requires Rising(f, ins, outs) && k < |ins|
    ensures var lo := OutOf(f.succs[k], ins);
            var li := InOf(f, k, lo);
            outs[k] <= lo && ins[k] <= li && Rising(f, ins[k := li], outs[k := lo])
  {
    var lo := OutOf(f.succs[k], ins);
    var li := InOf(f, k, lo);
    assert RisingAt(f, ins, outs, k);
    var ins', outs' := ins[k := li], outs[k := lo];
    forall m: nat | m < |ins| ensures RisingAt(f, ins', outs', m) {
      assert RisingAt(f, ins, outs, m);
      OutGrows(f.succs[m], ins, ins');
    }
  }

  /** All facts there are. */
  ghost function Facts(uses: seq<set<nat>>): (r: set<nat>)
    ensures forall k | 0 <= k < |uses| :: uses[k] <= r
  {
    if uses == [] then {} else Facts(uses[..|uses| - 1]) + uses[|uses| - 1]
  }

  /** How many facts can still be added. */
  ghost function Room(all: set<nat>, sets: seq<set<nat>>): int {
    if sets == [] then 0 else |all| - |sets[|sets| - 1]| + Room(all, sets[..|sets| - 1])
  }

  lemma {:induction false} RoomNonNegative(all: set<nat>, sets: seq<set<nat>>)
    requires forall k | 0 <= k < |sets| :: sets[k] <= all
    ensures Room(all, sets) >= 0
  {
    if sets != [] {
      SmallerSet(sets[|sets| - 1], all);
      RoomNonNegative(all, sets[..|sets| - 1]);
    }
  }

  lemma {:induction false} RoomUpdate(all: set<nat>, sets: seq<set<nat>>, k: nat, s: set<nat>)
    requires k < |sets|
    ensures Room(all, sets[k := s]) == Room(all, sets) + |sets[k]| - |s|
  {
    var m := |sets| - 1;
    if k == m {
      assert sets[k := s][..m] == sets[..m];
    } else {
      assert sets[k := s][..m] == sets[..m][k := s];
      RoomUpdate(all, sets[..m], k, s);
    }
  }

  lemma SmallerSet(a: set<nat>, b: set<nat>)
    requires a <= b
    ensures |a| <= |b| && (|a| == |b| ==> a == b)
  {
    assert b == a + (b - a);
    if a != b {
      assert b - a != {};
    }
  }

  lemma WithinFacts(f: Flow, ins: seq<set<nat>>, outs: seq<set<nat>>, all: set<nat>, k: nat)
    requires FlowOk(f) && |ins| == |f.succs| && k < |ins| && all == Facts(f.uses)
    requires forall m | 0 <= m < |ins| :: ins[m] <= all
    ensures OutOf(f.succs[k], ins) <= all && InOf(f, k, OutOf(f.succs[k], ins)) <= all
  {
  }

  lemma UpdateStep(f: Flow, ins: seq<set<nat>>, outs: seq<set<nat>>, all: set<nat>, k: nat)
    requires Rising(f, ins, outs) && Sound(f, ins) && k < |ins| && all == Facts(f.uses)
    requires forall m | 0 <= m < |ins| :: ins[m] <= all && outs[m] <= all
    ensures var lo := OutOf(f.succs[k], ins);
            var li := InOf(f, k, lo);
            && Rising(f, ins[k := li], outs[k := lo]) && Sound(f, ins[k := li]) && lo <= all && li <= all
            && |outs[k]| <= |lo| && |ins[k]| <= |li|
            && (|outs[k]| == |lo| ==> outs[k] == lo) && (|ins[k]| == |li| ==> ins[k] == li)
            && Room(all, ins[k := li]) == Room(all, ins) + |ins[k]| - |li|
            && Room(all, outs[k := lo]) == Room(all, outs) + |outs[k]| - |lo|
  {
    var lo := OutOf(f.succs[k], ins);
    var li := InOf(f, k, lo);
    UpdateRises(f, ins, outs, k);
    UpdateSound(f, ins, k);
    WithinFacts(f, ins, outs, all, k);
    SmallerSet(outs[k], lo);
    SmallerSet(ins[k], li);
    RoomUpdate(all, ins, k, li);
    RoomUpdate(all, outs, k, lo);
  }

  /** One pass, last region first; `changed` reports whether any set got bigger. */
  method Pass(f: Flow, ins0: seq<set<nat>>, outs0: seq<set<nat>>) returns (ins: seq<set<nat>>, outs: seq<set<nat>>, changed: bool)
    requires Rising(f, ins0, outs0) && Sound(f, ins0)
    requires forall k | 0 <= k < |ins0| :: ins0[k] <= Facts(f.uses) && outs0[k] <= Facts(f.uses)
    ensures Rising(f, ins, outs) && Sound(f, ins)
    ensures forall k | 0 <= k < |ins| :: ins[k] <= Facts(f.uses) && outs[k] <= Facts(f.uses)
    ensures changed ==> Room(Facts(f.uses), ins) + Room(Facts(f.uses), outs) < Room(Facts(f.uses), ins0) + Room(Facts(f.uses), outs0)
    ensures !changed ==> ins == ins0 && outs == outs0 && Solves(f, ins, outs)
  {
    hide RisingAt, Sound, Room, Facts, OutOf, InOf;
    ghost var all := Facts(f.uses);
    ins, outs, changed := ins0, outs0, false;
    var k := |f.succs|;
    while k > 0
      invariant 0 <= k <= |f.succs|
      invariant Rising(f, ins, outs) && Sound(f, ins)
      invariant forall m | 0 <= m < |ins| :: ins[m] <= all && outs[m] <= all
      invariant Room(all, ins) + Room(all, outs) <= Room(all, ins0) + Room(all, outs0)
      invariant changed ==> Room(all, ins) + Room(all, outs) < Room(all, ins0) + Room(all, outs0)
      invariant !changed ==> ins == ins0 && outs == outs0
      invariant !changed ==> forall m | k <= m < |ins| :: outs[m] == OutOf(f.succs[m], ins) && ins[m] == InOf(f, m, outs[m])
    {
      k := k - 1;
      var lo := OutOf(f.succs[k], ins);
      var li := InOf(f, k, lo);
      UpdateStep(f, ins, outs, all, k);
      if |lo| != |outs[k]| || |li| != |ins[k]| {
        changed := true;
      }
      outs := outs[k := lo];
      ins := ins[k := li];
    }
  }

  /** Iterates passes until one changes no size: the live facts of every region, exactly. */
  method Fixpoint(f: Flow) returns (ins: seq<set<nat>>, outs: seq<set<nat>>)
    requires FlowOk(f)
    ensures Solves(f, ins, outs)
    ensures forall k, s | 0 <= k < |ins| :: s in ins[k] <==> LiveIn(f, k, s)
  {
    ins := seq(|f.succs|, _ => {});
    outs := seq(|f.succs|, _ => {});
    ghost var all := Facts(f.uses);
    forall k | 0 <= k < |ins| ensures RisingAt(f, ins, outs, k) {
    }
    var changed := true;
    while changed
      invariant Rising(f, ins, outs) && Sound(f, ins)
      invariant forall k | 0 <= k < |ins| :: ins[k] <= all && outs[k] <= all
      invariant !changed ==> Solves(f, ins, outs)
      decreases Room(all, ins) + Room(all, outs), changed
    {
      RoomNonNegative(all, ins);
      RoomNonNegative(all, outs);
      ins, outs, changed := Pass(f, ins, outs);
      RoomNonNegative(all, ins);
      RoomNonNegative(all, outs);
    }
    LeastIsLive(f, ins, outs);
  }
}
