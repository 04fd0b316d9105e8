/** The superoptimizer's liveness measured against what runs need: an exact condition for when it holds enough. */
module SuperNeeds {
  import opened Options
  import opened Dataflow
  import opened SlotCode
  import opened CodeNeeds
  import opened SlotLiveness
  import opened SuperLiveness

  // ---------------------------------------------------------------------
  // running code over numbered locations
  // ---------------------------------------------------------------------

  datatype Point = Point(pc: nat, st: seq<int>)

  predicate Plain(i: Inst) {
    !IsLabel(i) && !IsBranch(i) && !IsReturn(i)
  }

  ghost function Next1(isa: Isa, code: seq<Inst>, c: Point): Option<Point> {
    if c.pc >= |code| || IsReturn(code[c.pc]) then None
    else
      var i := code[c.pc];
      if i.op.Jmp? || (i.op.Jcc? && isa.taken(i, c.st)) then
        var t := Target(code, i);
        if t.Some? then Some(Point(t.value, c.st)) else None
      else if !Plain(i) then Some(Point(c.pc + 1, c.st))
      else
        var s := isa.exec(i, c.st);
        if s.Some? then Some(Point(c.pc + 1, s.value)) else None
  }

  /** n instructions lead from c to d. */
  ghost predicate Leads(isa: Isa, code: seq<Inst>, c: Point, n: nat, d: Point)
    decreases n
  {
    if n == 0 then c == d
    else
      var m := Next1(isa, code, c);
      m.Some? && Leads(isa, code, m.value, n - 1, d)
  }

  lemma {:induction false} LeadsOn(isa: Isa, code: seq<Inst>, c: Point, n: nat, d: Point, k: nat, e: Point)
    requires Leads(isa, code, c, n, d) && Leads(isa, code, d, k, e)
    ensures Leads(isa, code, c, n + k, e)
    decreases n
  {
    if n > 0 {
      LeadsOn(isa, code, Next1(isa, code, c).value, n - 1, d, k, e);
    }
  }

  /** Straight-line execution; none on a fault. */
  ghost function RunAll(isa: Isa, prog: seq<Inst>, st: seq<int>): Option<seq<int>> {
    if prog == [] then Some(st)
    else
      var s := isa.exec(prog[0], st);
      if s.Some? then RunAll(isa, prog[1..], s.value) else None
  }

  ghost predicate Agree(a: seq<int>, b: seq<int>, on: set<nat>) {
    |a| == |b| && forall l | l in on && l < |a| :: a[l] == b[l]
  }

  /** The table is honest: whether an instruction faults or branches, and what it leaves in a location, depend
      only on its declared inputs and, where it does not certainly overwrite, on what was there. */
  ghost predicate Honest(isa: Isa) {
    && (forall i: Inst, a: seq<int>, b: seq<int> | |a| == isa.locs && Agree(a, b, Gen(isa, i)) :: HonestOn(isa, i, a, b))
    && (forall i: Inst | !Plain(i) :: Kill(isa, i) == {})
  }

  ghost predicate HonestOn(isa: Isa, i: Inst, a: seq<int>, b: seq<int>) {
    && isa.taken(i, a) == isa.taken(i, b)
    && isa.exec(i, a).Some? == isa.exec(i, b).Some?
    && (isa.exec(i, a).Some? ==>
          && |isa.exec(i, a).value| == |isa.exec(i, b).value| == isa.locs
          && forall l: nat | l < isa.locs && l < |a| == |b| && (l in Kill(isa, i) || a[l] == b[l]) :: isa.exec(i, a).value[l] == isa.exec(i, b).value[l])
  }

  lemma HonestStep(isa: Isa, i: Inst, a: seq<int>, b: seq<int>, after: set<nat>)
    requires Honest(isa) && |a| == isa.locs && Agree(a, b, TransferInst(isa, i, after))
    ensures isa.taken(i, a) == isa.taken(i, b) && isa.exec(i, a).Some? == isa.exec(i, b).Some?
    ensures isa.exec(i, a).Some? ==> |isa.exec(i, a).value| == isa.locs && Agree(isa.exec(i, a).value, isa.exec(i, b).value, after)
  {
    assert Agree(a, b, Gen(isa, i));
    assert HonestOn(isa, i, a, b);
  }

  /** Two runs of one straight stretch that agree on what is live before it agree on what is live after. */
  lemma {:induction false} HonestRun(isa: Isa, code: seq<Inst>, lo: nat, hi: nat, a: seq<int>, b: seq<int>, after: set<nat>)
    requires Honest(isa) && lo <= hi <= |code| && |a| == isa.locs && Agree(a, b, Backward(isa, code, lo, hi, after))
    ensures RunAll(isa, code[lo..hi], a).Some? == RunAll(isa, code[lo..hi], b).Some?
    ensures RunAll(isa, code[lo..hi], a).Some? ==>
              |RunAll(isa, code[lo..hi], a).value| == isa.locs && Agree(RunAll(isa, code[lo..hi], a).value, RunAll(isa, code[lo..hi], b).value, after)
    decreases hi - lo
  {
    if lo < hi {
      BackwardStep(isa, code, lo, hi, after);
      HonestStep(isa, code[lo], a, b, Backward(isa, code, lo + 1, hi, after));
      assert code[lo..hi][1..] == code[lo + 1..hi];
      if isa.exec(code[lo], a).Some? {
        HonestRun(isa, code, lo + 1, hi, isa.exec(code[lo], a).value, isa.exec(code[lo], b).value, after);
      }
    }
  }

  // ---------------------------------------------------------------------
  // live sets by position
  // ---------------------------------------------------------------------

  /** The liveness the engine works with. */
  datatype Liveness = Liveness(rg: Regions, f: Flow, ins: seq<set<nat>>, outs: seq<set<nat>>)

  ghost predicate LivenessOk(isa: Isa, code: seq<Inst>, lv: Liveness) {
    FlowOf(isa, code, lv.rg, lv.f) && Solves(lv.f, lv.ins, lv.outs)
  }

  /** Regions, successors up to the first branch, then the capped passes. */
  method AnalyseBlocks(isa: Isa, code: seq<Inst>) returns (lv: Liveness)
    requires code != [] && forall i | 0 <= i < |code| && IsLabel(code[i]) :: code[i].a.Lab?
    ensures LivenessOk(isa, code, lv)
    ensures forall k, l | 0 <= k < |lv.ins| :: l in lv.ins[k] <==> LiveIn(lv.f, k, l)
  {
    hide RegionsOk, Solves, LiveIn, RegionGen, RegionKill, BlockSuccs;
    var rg := BuildRegions(code);
    var R := RegionCount(code, rg);
    var f := Flow([], [], []);
    for k := 0 to R
      invariant |f.succs| == |f.uses| == |f.defs| == k
      invariant forall m: nat | m < k :: FlowPart(isa, code, rg, f.succs[m], f.uses[m], f.defs[m], m)
    {
      RegionBounds(code, rg, k);
      var s := BlockSuccessors(code, rg, k);
      BlockSuccsExist(code, rg, k, rg.begins[k], rg.ends[k]);
      f := Flow(f.succs + [s], f.uses + [RegionGen(isa, code, rg.begins[k], rg.ends[k])],
                f.defs + [RegionKill(isa, code, rg.begins[k], rg.ends[k])]);
    }
    forall k: nat | k < R ensures FlowAt(isa, code, rg, f, k) {
      assert FlowPart(isa, code, rg, f.succs[k], f.uses[k], f.defs[k], k);
    }
    var ins, outs := ComputeLiveness(isa, code, rg, f);
    lv := Liveness(rg, f, ins, outs);
  }

  ghost predicate FlowPart(isa: Isa, code: seq<Inst>, rg: Regions, succ: seq<nat>, uses: set<nat>, defs: set<nat>, k: nat) {
    && k < |rg.begins| == |rg.ends| && rg.begins[k] <= rg.ends[k] <= |code|
    && succ == BlockSuccs(code, rg.labelRegion, rg.begins[k], rg.ends[k], Next(rg, k))
    && (forall j | 0 <= j < |succ| :: succ[j] < |rg.begins|)
    && uses == RegionGen(isa, code, rg.begins[k], rg.ends[k]) && defs == RegionKill(isa, code, rg.begins[k], rg.ends[k])
  }

  /** What is live before position p. */
  ghost function LiveHere(isa: Isa, code: seq<Inst>, lv: Liveness, p: nat): set<nat>
    requires LivenessOk(isa, code, lv)
  {
    if p >= |code| then {}
    else if p < lv.rg.start then lv.ins[0]
    else
      assert InRegion(code, lv.rg.begins, lv.rg.ends, p, lv.rg.regionOf[p]);
      if IsLabel(code[p]) then lv.ins[lv.rg.regionOf[p]] else LiveFrom(isa, code, lv, lv.rg.regionOf[p], p)
  }

  /** Live before position p of region k, walking back from the region's end. */
  ghost function LiveFrom(isa: Isa, code: seq<Inst>, lv: Liveness, k: nat, p: nat): set<nat>
    requires LivenessOk(isa, code, lv) && k < |lv.rg.begins|
  {
    assert FlowAt(isa, code, lv.rg, lv.f, k);
    Backward(isa, code, p, lv.rg.ends[k], lv.outs[k])
  }

  lemma RegionEquations(isa: Isa, code: seq<Inst>, lv: Liveness, k: nat)
    requires LivenessOk(isa, code, lv) && k < |lv.rg.begins|
    ensures |lv.ins| == |lv.outs| == |lv.rg.begins| && lv.ins[k] == LiveFrom(isa, code, lv, k, lv.rg.begins[k])
    ensures k < |lv.rg.ends| && lv.rg.begins[k] <= lv.rg.ends[k] <= |code|
    ensures lv.f.succs[k] == BlockSuccs(code, lv.rg.labelRegion, lv.rg.begins[k], lv.rg.ends[k], Next(lv.rg, k))
    ensures forall t | t in lv.f.succs[k] :: t < |lv.ins| && lv.ins[t] <= lv.outs[k]
  {
    assert FlowAt(isa, code, lv.rg, lv.f, k);
    BackwardIsSummary(isa, code, lv.rg.begins[k], lv.rg.ends[k], lv.outs[k]);
    forall t | t in lv.f.succs[k] ensures t < |lv.ins| && lv.ins[t] <= lv.outs[k] {
      var j :| 0 <= j < |lv.f.succs[k]| && lv.f.succs[k][j] == t;
    }
  }

  lemma {:induction false} FallsToNext(code: seq<Inst>, rg: Regions, k: nat, i: nat, hi: nat)
    requires hi <= |code| && k + 1 < |rg.begins| && forall j | i <= j < hi :: !code[j].op.Jmp? && !IsReturn(code[j])
    ensures k + 1 in BlockSuccs(code, rg.labelRegion, i, hi, Next(rg, k))
    decreases hi - i
  {
    if i < hi && !code[i].op.Jcc? {
      FallsToNext(code, rg, k, i + 1, hi);
    }
  }

  /** Falling out of a region: everything live at the label behind it was live at its end. */
  lemma RegionFalls(isa: Isa, code: seq<Inst>, lv: Liveness, k: nat)
    requires LivenessOk(isa, code, lv) && k < |lv.rg.begins| && k < |lv.rg.ends| && lv.rg.ends[k] <= |code|
    requires forall j | lv.rg.begins[k] <= j < lv.rg.ends[k] :: !code[j].op.Jmp? && !IsReturn(code[j])
    ensures LiveHere(isa, code, lv, lv.rg.ends[k]) <= lv.outs[k]
  {
    RegionBounds(code, lv.rg, k);
    if k + 1 < |lv.rg.begins| {
      RegionEquations(isa, code, lv, k);
      FallsToNext(code, lv.rg, k, lv.rg.begins[k], lv.rg.ends[k]);
      StartsFirst(code, lv.rg, k);
      SameRegion(code, lv.rg, lv.rg.ends[k], k + 1);
    }
  }

  lemma LiveAtRegionStart(isa: Isa, code: seq<Inst>, lv: Liveness, k: nat)
    requires LivenessOk(isa, code, lv) && k < |lv.rg.begins|
    ensures LiveHere(isa, code, lv, lv.rg.begins[k]) <= lv.ins[k]
  {
    RegionEquations(isa, code, lv, k);
    RegionBounds(code, lv.rg, k);
    if lv.rg.begins[k] < lv.rg.ends[k] {
      StartsFirst(code, lv.rg, k);
      SameRegion(code, lv.rg, lv.rg.begins[k], k);
    } else {
      RegionFalls(isa, code, lv, k);
    }
  }

  /** Going on from a position inside region k. */
  lemma GoingOn(isa: Isa, code: seq<Inst>, lv: Liveness, k: nat, p: nat)
    requires LivenessOk(isa, code, lv) && k < |lv.rg.begins| && k < |lv.rg.ends| && lv.rg.begins[k] <= p <= lv.rg.ends[k] <= |code|
    requires forall j | lv.rg.begins[k] <= j < p :: !code[j].op.Jmp? && !IsReturn(code[j])
    ensures LiveHere(isa, code, lv, p) <= LiveFrom(isa, code, lv, k, p)
  {
    RegionBounds(code, lv.rg, k);
    StartsFirst(code, lv.rg, k);
    if p < lv.rg.ends[k] {
      SameRegion(code, lv.rg, p, k);
    } else {
      RegionFalls(isa, code, lv, k);
    }
  }

  /** The region a label opens. */
  lemma RegionAfter(isa: Isa, code: seq<Inst>, lv: Liveness, p: nat) returns (k: nat)
    requires LivenessOk(isa, code, lv) && p < |code| && IsLabel(code[p])
    ensures k < |lv.rg.begins| == |lv.ins| && lv.rg.begins[k] == p + 1 && LiveHere(isa, code, lv, p) == lv.ins[k]
  {
    k := if p < lv.rg.start then 0 else lv.rg.regionOf[p];
    if p >= lv.rg.start {
      assert InRegion(code, lv.rg.begins, lv.rg.ends, p, k);
    }
  }

  lemma RegionOfPoint(isa: Isa, code: seq<Inst>, lv: Liveness, p: nat) returns (k: nat)
    requires LivenessOk(isa, code, lv) && p < |code| && !IsLabel(code[p])
    ensures k < |lv.rg.begins| && k < |lv.rg.ends| && lv.rg.begins[k] <= p < lv.rg.ends[k] <= |code| && k == lv.rg.regionOf[p]
    ensures LiveHere(isa, code, lv, p) == TransferInst(isa, code[p], LiveFrom(isa, code, lv, k, p + 1))
  {
    k := lv.rg.regionOf[p];
    assert InRegion(code, lv.rg.begins, lv.rg.ends, p, k);
    RegionBounds(code, lv.rg, k);
    BackwardStep(isa, code, p, lv.rg.ends[k], lv.outs[k]);
  }

  // ---------------------------------------------------------------------
  // when the live sets hold everything that is needed
  // ---------------------------------------------------------------------

  function TableUses(isa: Isa): Uses {
    Uses((i: Inst) => Gen(isa, i), (i: Inst) => Kill(isa, i))
  }

  /** The locations some path from p reads before overwriting. */
  ghost function NeededLocs(isa: Isa, code: seq<Inst>, p: nat): set<nat> {
    NeededAt(TableUses(isa), code, p, isa.locs)
  }

  /** Whatever is needed where control can be, is in the live set there. */
  ghost predicate HoldsNeeds(isa: Isa, code: seq<Inst>, lv: Liveness)
    requires LivenessOk(isa, code, lv)
  {
    forall p: nat, l: nat | Inside(code, p) && Needed(TableUses(isa), code, p, l) :: l in LiveHere(isa, code, lv, p)
  }

  /** What is live behind an instruction in its region, and what the instruction itself reads. */
  ghost function LiveBehind(isa: Isa, code: seq<Inst>, lv: Liveness, p: nat): set<nat>
    requires LivenessOk(isa, code, lv) && p < |code| && !IsLabel(code[p])
  {
    assert InRegion(code, lv.rg.begins, lv.rg.ends, p, lv.rg.regionOf[p]);
    LiveFrom(isa, code, lv, lv.rg.regionOf[p], p + 1) + Gen(isa, code[p])
  }

  /** Where a branch leads, nothing is needed that is not live behind the branch. */
  ghost predicate BranchesCovered(isa: Isa, code: seq<Inst>, lv: Liveness)
    requires LivenessOk(isa, code, lv)
  {
    forall p: nat, t: nat, l: nat | BranchNeeds(TableUses(isa), code, p, t, l) :: l in LiveBehind(isa, code, lv, p)
  }

  /** The live sets hold everything needed exactly when they do so at the branches. */
  lemma HoldsNeedsIff(isa: Isa, code: seq<Inst>, lv: Liveness)
    requires Honest(isa) && LivenessOk(isa, code, lv)
    ensures HoldsNeeds(isa, code, lv) <==> BranchesCovered(isa, code, lv)
  {
    hide LivenessOk, Honest, LiveHere, LiveBehind, Inside, Needed, TableUses;
    if HoldsNeeds(isa, code, lv) {
      forall p: nat, t: nat, l: nat | BranchNeeds(TableUses(isa), code, p, t, l) ensures l in LiveBehind(isa, code, lv, p) {
        NeedOfBranch(isa, code, lv, p, t, l);
      }
    }
    if BranchesCovered(isa, code, lv) {
      forall p: nat, l: nat | Inside(code, p) && Needed(TableUses(isa), code, p, l) ensures l in LiveHere(isa, code, lv, p) {
        NeedHeld(isa, code, lv, p, l);
      }
    }
  }

  lemma NeedOfBranch(isa: Isa, code: seq<Inst>, lv: Liveness, p: nat, t: nat, l: nat)
    requires Honest(isa) && LivenessOk(isa, code, lv) && HoldsNeeds(isa, code, lv) && BranchNeeds(TableUses(isa), code, p, t, l)
    ensures l in LiveBehind(isa, code, lv, p)
  {
    NeedsBefore(TableUses(isa), code, p, l);
    assert Succeeds(code, p, t);
    assert !Plain(code[p]) && Kill(isa, code[p]) == {};
    assert l in LiveHere(isa, code, lv, p);
    var k := RegionOfPoint(isa, code, lv, p);
  }

  lemma NeedHeld(isa: Isa, code: seq<Inst>, lv: Liveness, p: nat, l: nat)
    requires Honest(isa) && LivenessOk(isa, code, lv) && BranchesCovered(isa, code, lv)
    requires Inside(code, p) && Needed(TableUses(isa), code, p, l)
    ensures l in LiveHere(isa, code, lv, p)
  {
    var n: nat :| NeededWithin(TableUses(isa), code, p, l, n);
    NeedIsHeld(isa, code, lv, p, l, n);
  }

  lemma {:induction false} NeedIsHeld(isa: Isa, code: seq<Inst>, lv: Liveness, p: nat, l: nat, n: nat)
    requires Honest(isa) && LivenessOk(isa, code, lv) && BranchesCovered(isa, code, lv)
    requires Inside(code, p) && NeededWithin(TableUses(isa), code, p, l, n)
    ensures l in LiveHere(isa, code, lv, p)
    decreases n
  {
    hide LivenessOk, Honest, LiveHere, LiveFrom, Inside, BranchesCovered;
    if IsLabel(code[p]) || l !in Gen(isa, code[p]) {
      var q :| Succeeds(code, p, q) && NeededWithin(TableUses(isa), code, q, l, n - 1);
      InsideStays(code, p, q);
      NeedIsHeld(isa, code, lv, q, l, n - 1);
      if IsLabel(code[p]) {
        LabelLive(isa, code, lv, p);
      } else if q == p + 1 && !code[p].op.Jmp? {
        StayLive(isa, code, lv, p);
      } else {
        assert BranchNeeds(TableUses(isa), code, p, q, l);
        BranchHolds(isa, code, lv, p, q, l);
      }
    } else {
      var k := RegionOfPoint(isa, code, lv, p);
    }
  }

  lemma BranchHolds(isa: Isa, code: seq<Inst>, lv: Liveness, p: nat, t: nat, l: nat)
    requires Honest(isa) && LivenessOk(isa, code, lv) && BranchesCovered(isa, code, lv) && BranchNeeds(TableUses(isa), code, p, t, l)
    ensures l in LiveHere(isa, code, lv, p)
  {
    assert l in LiveBehind(isa, code, lv, p);
    assert !Plain(code[p]) && Kill(isa, code[p]) == {};
    var k := RegionOfPoint(isa, code, lv, p);
  }

  lemma LabelLive(isa: Isa, code: seq<Inst>, lv: Liveness, p: nat)
    requires LivenessOk(isa, code, lv) && p < |code| && IsLabel(code[p])
    ensures LiveHere(isa, code, lv, p + 1) <= LiveHere(isa, code, lv, p)
  {
    hide LivenessOk, LiveHere;
    var k := RegionAfter(isa, code, lv, p);
    LiveAtRegionStart(isa, code, lv, k);
  }

  lemma StayLive(isa: Isa, code: seq<Inst>, lv: Liveness, p: nat)
    requires LivenessOk(isa, code, lv) && p < |code| && !IsLabel(code[p]) && Inside(code, p)
    requires !code[p].op.Jmp? && !IsReturn(code[p])
    ensures LiveHere(isa, code, lv, p + 1) - Kill(isa, code[p]) <= LiveHere(isa, code, lv, p)
  {
    var k := RegionOfPoint(isa, code, lv, p);
    NoLabelsIn(isa, code, lv, k);
    hide LivenessOk, LiveHere, LiveFrom, Inside;
    InsideBack(code, lv.rg.begins[k], p);
    GoingOn(isa, code, lv, k, p + 1);
  }

  lemma NoLabelsIn(isa: Isa, code: seq<Inst>, lv: Liveness, k: nat)
    requires LivenessOk(isa, code, lv) && k < |lv.rg.begins|
    ensures k < |lv.rg.ends| && lv.rg.ends[k] <= |code| && forall j | lv.rg.begins[k] <= j < lv.rg.ends[k] :: !IsLabel(code[j])
  {
    RegionBounds(code, lv.rg, k);
  }

  // ---------------------------------------------------------------------
  // branches that end their regions
  // ---------------------------------------------------------------------

  /** Branches end their regions and have targets; labels are named and distinct. */
  ghost predicate BlocksOk(code: seq<Inst>) {
    && (forall p: nat {:trigger EndsBlock(code, p)} | p < |code| && IsBranch(code[p]) :: EndsBlock(code, p))
    && (forall p | 0 <= p < |code| && IsLabel(code[p]) :: code[p].a.Lab?)
    && (forall p, q | 0 <= p < q < |code| && IsLabel(code[p]) && IsLabel(code[q]) :: code[p].a != code[q].a)
  }

  ghost predicate EndsBlock(code: seq<Inst>, p: nat)
    requires p < |code|
  {
    Target(code, code[p]).Some? && (p + 1 == |code| || IsLabel(code[p + 1]))
  }

  lemma {:induction false} JumpsTo(code: seq<Inst>, rg: Regions, k: nat, i: nat, p: nat, hi: nat)
    requires i <= p < hi <= |code| && IsBranch(code[p]) && RegionOfTarget(code[p], rg.labelRegion).Some?
    requires forall j | i <= j < p :: !IsBranch(code[j]) && !IsReturn(code[j])
    ensures RegionOfTarget(code[p], rg.labelRegion).value in BlockSuccs(code, rg.labelRegion, i, hi, Next(rg, k))
    decreases p - i
  {
    if i < p {
      JumpsTo(code, rg, k, i + 1, p, hi);
    }
  }

  lemma BranchIsLast(code: seq<Inst>, rg: Regions, k: nat, p: nat)
    requires RegionsOk(code, rg) && BlocksOk(code) && k < |rg.begins| && rg.begins[k] <= p < rg.ends[k] && p < |code| && IsBranch(code[p])
    ensures p + 1 == rg.ends[k]
  {
    RegionBounds(code, rg, k);
    assert EndsBlock(code, p);
  }

  /** The branch's label opens the target region. */
  lemma TargetRegion(code: seq<Inst>, rg: Regions, p: nat)
    requires RegionsOk(code, rg) && BlocksOk(code) && p < |code| && IsBranch(code[p])
    ensures var m := RegionOfTarget(code[p], rg.labelRegion);
            m.Some? && m.value < |rg.begins| && Target(code, code[p]) == Some(rg.begins[m.value] - 1)
  {
    assert EndsBlock(code, p);
    var t := Target(code, code[p]).value;
    assert code[t].a.l in rg.labelRegion;
    var m := RegionOfTarget(code[p], rg.labelRegion).value;
    assert Opens(code, rg.begins, code[p].a.l, m);
  }

  lemma StartRegion(code: seq<Inst>, rg: Regions, m: nat)
    requires RegionsOk(code, rg) && m < |rg.begins| && rg.begins[m] - 1 < rg.start
    ensures m == 0
  {
    if m > 0 {
      RegionsApart(code, rg, 0, m);
      RegionBounds(code, rg, 0);
    }
  }

  /** What is live at a branch's target was live behind the branch. */
  lemma JumpLive(isa: Isa, code: seq<Inst>, lv: Liveness, p: nat)
    requires LivenessOk(isa, code, lv) && BlocksOk(code) && p < |code| && IsBranch(code[p]) && Inside(code, p)
    ensures Target(code, code[p]).Some?
    ensures LiveHere(isa, code, lv, Target(code, code[p]).value) <= LiveBehind(isa, code, lv, p)
  {
    var k := lv.rg.regionOf[p];
    assert InRegion(code, lv.rg.begins, lv.rg.ends, p, k);
    RegionBounds(code, lv.rg, k);
    RegionEquations(isa, code, lv, k);
    assert EndsBlock(code, p);
    var t := Target(code, code[p]).value;
    BranchIsLast(code, lv.rg, k, p);
    TargetRegion(code, lv.rg, p);
    InsideBack(code, lv.rg.begins[k], p);
    NoEarlierBranch(code, lv.rg, k, p);
    var m := RegionOfTarget(code[p], lv.rg.labelRegion).value;
    JumpsTo(code, lv.rg, k, lv.rg.begins[k], p, lv.rg.ends[k]);
    if t >= lv.rg.start {
      SameRegion(code, lv.rg, t, m);
    } else {
      StartRegion(code, lv.rg, m);
    }
  }

  lemma NoEarlierBranch(code: seq<Inst>, rg: Regions, k: nat, p: nat)
    requires RegionsOk(code, rg) && BlocksOk(code) && k < |rg.begins| && rg.begins[k] <= p < rg.ends[k] && p < |code|
    ensures forall j | rg.begins[k] <= j < p :: !IsBranch(code[j])
  {
    forall j: nat | rg.begins[k] <= j < p ensures !IsBranch(code[j]) {
      if IsBranch(code[j]) {
        BranchIsLast(code, rg, k, j);
      }
    }
  }

  /** Where every branch ends its region, the live sets hold everything needed. */
  lemma BlocksHoldNeeds(isa: Isa, code: seq<Inst>, lv: Liveness)
    requires Honest(isa) && LivenessOk(isa, code, lv) && BlocksOk(code)
    ensures HoldsNeeds(isa, code, lv) && BranchesCovered(isa, code, lv)
  {
    hide LivenessOk, Honest, LiveHere, Inside, Needed, TableUses, BranchesCovered, BlocksOk;
    forall p: nat, l: nat | Inside(code, p) && Needed(TableUses(isa), code, p, l) ensures l in LiveHere(isa, code, lv, p) {
      NeedLive(isa, code, lv, p, l);
    }
    HoldsNeedsIff(isa, code, lv);
  }

  lemma NeedLive(isa: Isa, code: seq<Inst>, lv: Liveness, p: nat, l: nat)
    requires Honest(isa) && LivenessOk(isa, code, lv) && BlocksOk(code)
    requires Inside(code, p) && Needed(TableUses(isa), code, p, l)
    ensures l in LiveHere(isa, code, lv, p)
  {
    var n: nat :| NeededWithin(TableUses(isa), code, p, l, n);
    NeedIsLive(isa, code, lv, p, l, n);
  }

  lemma {:induction false} NeedIsLive(isa: Isa, code: seq<Inst>, lv: Liveness, p: nat, l: nat, n: nat)
    requires Honest(isa) && LivenessOk(isa, code, lv) && BlocksOk(code)
    requires Inside(code, p) && NeededWithin(TableUses(isa), code, p, l, n)
    ensures l in LiveHere(isa, code, lv, p)
    decreases n
  {
    hide LivenessOk, Honest, LiveHere, LiveFrom, Inside, BlocksOk;
    if IsLabel(code[p]) || l !in Gen(isa, code[p]) {
      var q :| Succeeds(code, p, q) && NeededWithin(TableUses(isa), code, q, l, n - 1);
      InsideStays(code, p, q);
      NeedIsLive(isa, code, lv, q, l, n - 1);
      if IsLabel(code[p]) {
        LabelLive(isa, code, lv, p);
      } else if q == p + 1 && !code[p].op.Jmp? {
        StayLive(isa, code, lv, p);
      } else {
        JumpLive(isa, code, lv, p);
        BehindBranch(isa, code, lv, p);
      }
    } else {
      var k := RegionOfPoint(isa, code, lv, p);
    }
  }

  lemma BehindBranch(isa: Isa, code: seq<Inst>, lv: Liveness, p: nat)
    requires Honest(isa) && LivenessOk(isa, code, lv) && p < |code| && IsBranch(code[p])
    ensures LiveBehind(isa, code, lv, p) == LiveHere(isa, code, lv, p)
  {
    assert !Plain(code[p]) && Kill(isa, code[p]) == {};
    var k := RegionOfPoint(isa, code, lv, p);
  }
}
