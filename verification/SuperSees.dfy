/** What the superoptimizer's liveness sees, read off the code: regions run through, left by their first branch or
    falling into the next label. */
module SuperSees {
  import opened Options
  import opened Dataflow
  import opened SlotCode
  import opened CodeNeeds
  import opened SlotLiveness
  import opened SuperLiveness
  import opened SuperNeeds

  /** Where the region that p is in, or closes, begins. */
  function Opening(code: seq<Inst>, p: nat): nat
    requires p <= |code|
  {
    if p == 0 || IsLabel(code[p - 1]) then p else Opening(code, p - 1)
  }

  /** The next label, or the end. */
  function Closing(code: seq<Inst>, p: nat): nat
    decreases |code| - p
  {
    if p >= |code| || IsLabel(code[p]) then p else Closing(code, p + 1)
  }

  /** Going through a region from p, the first branch or the label behind it leads to q. */
  predicate ExitsTo(code: seq<Inst>, p: nat, q: nat)
    decreases |code| - p
  {
    p < |code|
    && if IsLabel(code[p]) then q == p
       else if code[p].op.Jmp? then Target(code, code[p]) == Some(q)
       else if code[p].op.Jcc? then Target(code, code[p]) == Some(q) || (q == Closing(code, p + 1) && q < |code|)
       else !IsReturn(code[p]) && ExitsTo(code, p + 1, q)
  }

  predicate LastOfRegion(code: seq<Inst>, p: nat) {
    p + 1 >= |code| || IsLabel(code[p + 1])
  }

  /** Going so from p, n positions at most, location l is read before it is overwritten. */
  ghost predicate SeesWithin(isa: Isa, code: seq<Inst>, p: nat, l: nat, n: nat)
    decreases n, 1
  {
    && n > 0 && p < |code|
    && if IsLabel(code[p]) then SeesWithin(isa, code, p + 1, l, n - 1)
       else l in Gen(isa, code[p]) || (l !in Kill(isa, code[p]) && BehindWithin(isa, code, p, l, n - 1))
  }

  ghost predicate BehindWithin(isa: Isa, code: seq<Inst>, p: nat, l: nat, n: nat)
    requires p < |code|
    decreases n, 2
  {
    if LastOfRegion(code, p) then exists q :: ExitsTo(code, Opening(code, p), q) && SeesWithin(isa, code, q, l, n)
    else SeesWithin(isa, code, p + 1, l, n)
  }

  ghost predicate Sees(isa: Isa, code: seq<Inst>, p: nat, l: nat) {
    exists n: nat :: SeesWithin(isa, code, p, l, n)
  }

  ghost predicate SeesBehind(isa: Isa, code: seq<Inst>, p: nat, l: nat)
    requires p < |code|
  {
    exists n: nat :: BehindWithin(isa, code, p, l, n)
  }

  /** Where a branch leads, nothing is needed but what is seen behind the branch, or read by it. */
  ghost predicate CoveredOnCode(isa: Isa, code: seq<Inst>) {
    forall p: nat, t: nat, l: nat | BranchNeeds(TableUses(isa), code, p, t, l) :: l in Gen(isa, code[p]) || SeesBehind(isa, code, p, l)
  }

  /** The engine's solution: what the passes from empty sets find. */
  ghost predicate LeastLiveness(isa: Isa, code: seq<Inst>, lv: Liveness) {
    LivenessOk(isa, code, lv) && forall k: nat, l: nat | k < |lv.ins| && l in lv.ins[k] :: LiveIn(lv.f, k, l)
  }

  // ---------------------------------------------------------------------
  // exits are successors
  // ---------------------------------------------------------------------

  lemma {:induction false} OpeningIs(code: seq<Inst>, lo: nat, p: nat)
    requires lo <= p <= |code| && (lo == 0 || IsLabel(code[lo - 1])) && forall j | lo <= j < p :: !IsLabel(code[j])
    ensures Opening(code, p) == lo
  {
    if lo < p {
      OpeningIs(code, lo, p - 1);
    }
  }

  lemma {:induction false} ClosingIs(code: seq<Inst>, p: nat, hi: nat)
    requires p <= hi <= |code| && (hi == |code| || IsLabel(code[hi])) && forall j | p <= j < hi :: !IsLabel(code[j])
    ensures Closing(code, p) == hi
    decreases hi - p
  {
    if p < hi {
      ClosingIs(code, p + 1, hi);
    }
  }

  /** A region begins at the start or behind a label. */
  lemma BeginsOpen(code: seq<Inst>, rg: Regions, k: nat)
    requires RegionsOk(code, rg) && k < |rg.begins|
    ensures rg.begins[k] <= |code| && (rg.begins[k] == 0 || IsLabel(code[rg.begins[k] - 1]))
  {
    if k > 0 {
      RegionBounds(code, rg, k - 1);
    }
    RegionBounds(code, rg, k);
  }

  lemma TargetIsRegion(code: seq<Inst>, rg: Regions, i: Inst, q: nat)
    requires RegionsOk(code, rg) && LabelsDistinct(code)
    ensures var t := RegionOfTarget(i, rg.labelRegion);
            Target(code, i) == Some(q) <==> t.Some? && t.value < |rg.begins| && rg.begins[t.value] == q + 1
  {
    if i.a.Lab? {
      var l, t := i.a.l, RegionOfTarget(i, rg.labelRegion);
      var at := LabelAt(code, l, 0);
      if t.Some? {
        assert Opens(code, rg.begins, l, t.value);
        assert at.Some? && at.value == rg.begins[t.value] - 1;
      }
    }
  }

  lemma {:induction false} ExitIsSucc(code: seq<Inst>, rg: Regions, k: nat, i: nat, q: nat)
    requires RegionsOk(code, rg) && LabelsDistinct(code) && k < |rg.begins| && rg.begins[k] <= i <= rg.ends[k] && rg.ends[k] <= |code| && ExitsTo(code, i, q)
    ensures q < |code| && IsLabel(code[q])
    ensures exists t :: t in BlockSuccs(code, rg.labelRegion, i, rg.ends[k], Next(rg, k)) && t < |rg.begins| && rg.begins[t] == q + 1
    decreases rg.ends[k] - i
  {
    RegionBounds(code, rg, k);
    hide RegionsOk, LabelsDistinct;
    if i < rg.ends[k] {
      if IsBranch(code[i]) {
        TargetIsRegion(code, rg, code[i], q);
        ClosingIs(code, i + 1, rg.ends[k]);
        if Target(code, code[i]) == Some(q) {
          assert RegionOfTarget(code[i], rg.labelRegion).value in BlockSuccs(code, rg.labelRegion, i, rg.ends[k], Next(rg, k));
        } else {
          assert k + 1 in BlockSuccs(code, rg.labelRegion, i, rg.ends[k], Next(rg, k));
        }
      } else {
        ExitIsSucc(code, rg, k, i + 1, q);
      }
    } else {
      assert k + 1 in BlockSuccs(code, rg.labelRegion, i, rg.ends[k], Next(rg, k));
    }
  }

  lemma {:induction false} SuccIsExit(code: seq<Inst>, rg: Regions, k: nat, i: nat, t: nat) returns (q: nat)
    requires RegionsOk(code, rg) && LabelsDistinct(code) && k < |rg.begins| && rg.begins[k] <= i <= rg.ends[k] && rg.ends[k] <= |code|
    requires t in BlockSuccs(code, rg.labelRegion, i, rg.ends[k], Next(rg, k)) && t < |rg.begins|
    ensures rg.begins[t] == q + 1 && q < |code| && IsLabel(code[q]) && ExitsTo(code, i, q)
    decreases rg.ends[k] - i
  {
    RegionBounds(code, rg, k);
    BeginsOpen(code, rg, t);
    if i < rg.ends[k] && !IsBranch(code[i]) {
      q := SuccIsExit(code, rg, k, i + 1, t);
    } else {
      OpensBehindLabel(code, rg, k, i, t);
      q := rg.begins[t] - 1;
      if i < rg.ends[k] {
        TargetIsRegion(code, rg, code[i], q);
        ClosingIs(code, i + 1, rg.ends[k]);
      }
    }
  }

  lemma OpensBehindLabel(code: seq<Inst>, rg: Regions, k: nat, i: nat, t: nat)
    requires RegionsOk(code, rg) && k < |rg.begins| && i <= rg.ends[k] <= |code| && (i < rg.ends[k] ==> IsBranch(code[i]))
    requires t in BlockSuccs(code, rg.labelRegion, i, rg.ends[k], Next(rg, k)) && t < |rg.begins|
    ensures rg.begins[t] > 0 && (t == k + 1 ==> rg.begins[t] == rg.ends[k] + 1)
  {
    RegionBounds(code, rg, k);
    if i < rg.ends[k] && RegionOfTarget(code[i], rg.labelRegion) == Some(t) {
      assert Opens(code, rg.begins, code[i].a.l, t);
    }
  }

  // ---------------------------------------------------------------------
  // what is seen is live
  // ---------------------------------------------------------------------

  lemma {:induction false} SeesIsLive(isa: Isa, code: seq<Inst>, lv: Liveness, p: nat, l: nat, n: nat)
    requires LivenessOk(isa, code, lv) && LabelsDistinct(code) && SeesWithin(isa, code, p, l, n)
    ensures l in LiveHere(isa, code, lv, p)
    decreases n, 1
  {
    hide LivenessOk, LabelsDistinct, LiveHere, LiveFrom;
    if IsLabel(code[p]) {
      SeesIsLive(isa, code, lv, p + 1, l, n - 1);
      LabelLive(isa, code, lv, p);
    } else {
      var k := RegionOfPoint(isa, code, lv, p);
      if l !in Gen(isa, code[p]) {
        BehindIsLive(isa, code, lv, k, p, l, n - 1);
      }
    }
  }

  lemma {:induction false} BehindIsLive(isa: Isa, code: seq<Inst>, lv: Liveness, k: nat, p: nat, l: nat, n: nat)
    requires LivenessOk(isa, code, lv) && LabelsDistinct(code) && p < |code| && !IsLabel(code[p]) && BehindWithin(isa, code, p, l, n)
    requires k < |lv.rg.begins| && k < |lv.rg.ends| && lv.rg.begins[k] <= p < lv.rg.ends[k] <= |code|
    ensures l in LiveFrom(isa, code, lv, k, p + 1)
    decreases n, 2
  {
    RegionBounds(code, lv.rg, k);
    if LastOfRegion(code, p) {
      var q :| ExitsTo(code, Opening(code, p), q) && SeesWithin(isa, code, q, l, n);
      BeginsOpen(code, lv.rg, k);
      OpeningIs(code, lv.rg.begins[k], p);
      SeesIsLive(isa, code, lv, q, l, n);
      ExitIsLive(isa, code, lv, k, q, l);
      assert p + 1 == lv.rg.ends[k];
    } else {
      SeesIsLive(isa, code, lv, p + 1, l, n);
      StartsFirst(code, lv.rg, k);
      SameRegion(code, lv.rg, p + 1, k);
    }
  }

  /** What is live at an exit was live at the region's end. */
  lemma ExitIsLive(isa: Isa, code: seq<Inst>, lv: Liveness, k: nat, q: nat, l: nat)
    requires LivenessOk(isa, code, lv) && LabelsDistinct(code) && k < |lv.rg.begins|
    requires lv.rg.begins[k] <= |code| && ExitsTo(code, lv.rg.begins[k], q) && l in LiveHere(isa, code, lv, q)
    ensures k < |lv.outs| && l in lv.outs[k]
  {
    RegionBounds(code, lv.rg, k);
    ExitIsSucc(code, lv.rg, k, lv.rg.begins[k], q);
    RegionEquations(isa, code, lv, k);
    var t :| t in BlockSuccs(code, lv.rg.labelRegion, lv.rg.begins[k], lv.rg.ends[k], Next(lv.rg, k)) && t < |lv.rg.begins| && lv.rg.begins[t] == q + 1;
    OpenedBy(isa, code, lv, t, q);
  }

  /** What is live at the label that opens a region is what is live into the region. */
  lemma OpenedBy(isa: Isa, code: seq<Inst>, lv: Liveness, t: nat, q: nat)
    requires LivenessOk(isa, code, lv) && t < |lv.rg.begins| && lv.rg.begins[t] == q + 1 && q < |code| && IsLabel(code[q])
    ensures t < |lv.ins| && LiveHere(isa, code, lv, q) == lv.ins[t]
  {
    if q >= lv.rg.start {
      SameRegion(code, lv.rg, q, t);
    } else {
      StartRegion(code, lv.rg, t);
    }
  }

  // ---------------------------------------------------------------------
  // what is live is seen
  // ---------------------------------------------------------------------

  lemma {:induction false} GenIsSeen(isa: Isa, code: seq<Inst>, rg: Regions, k: nat, i: nat, l: nat)
    requires RegionsOk(code, rg) && k < |rg.begins| && rg.begins[k] <= i && rg.ends[k] <= |code| && l in RegionGen(isa, code, i, rg.ends[k])
    ensures Sees(isa, code, i, l)
    decreases rg.ends[k] - i
  {
    RegionBounds(code, rg, k);
    if i < rg.ends[k] {
      if l in Gen(isa, code[i]) {
        assert SeesWithin(isa, code, i, l, 1);
      } else {
        GenIsSeen(isa, code, rg, k, i + 1, l);
        var n: nat :| SeesWithin(isa, code, i + 1, l, n);
        GenEnds(isa, code, rg, k, i, l);
        assert BehindWithin(isa, code, i, l, n);
        assert SeesWithin(isa, code, i, l, n + 1);
      }
    }
  }

  lemma GenEnds(isa: Isa, code: seq<Inst>, rg: Regions, k: nat, i: nat, l: nat)
    requires RegionsOk(code, rg) && k < |rg.begins| && rg.begins[k] <= i < rg.ends[k] <= |code|
    requires l in RegionGen(isa, code, i + 1, rg.ends[k])
    ensures !LastOfRegion(code, i)
  {
    RegionBounds(code, rg, k);
    assert i + 1 < rg.ends[k];
  }

  /** What is seen at an exit is seen from wherever the rest of the region leaves it alone. */
  lemma {:induction false} ThroughIsSeen(isa: Isa, code: seq<Inst>, rg: Regions, k: nat, i: nat, q: nat, l: nat, n: nat)
    requires RegionsOk(code, rg) && k < |rg.begins| && rg.begins[k] <= i < rg.ends[k] <= |code|
    requires l !in RegionKill(isa, code, i, rg.ends[k]) && ExitsTo(code, rg.begins[k], q) && SeesWithin(isa, code, q, l, n)
    ensures Sees(isa, code, i, l)
    decreases rg.ends[k] - i
  {
    RegionBounds(code, rg, k);
    if i + 1 < rg.ends[k] {
      ThroughIsSeen(isa, code, rg, k, i + 1, q, l, n);
      var m: nat :| SeesWithin(isa, code, i + 1, l, m);
      assert BehindWithin(isa, code, i, l, m);
      assert SeesWithin(isa, code, i, l, m + 1);
    } else {
      BeginsOpen(code, rg, k);
      OpeningIs(code, rg.begins[k], i);
      assert BehindWithin(isa, code, i, l, n);
      assert SeesWithin(isa, code, i, l, n + 1);
    }
  }

  lemma LabelSees(isa: Isa, code: seq<Inst>, q: nat, l: nat)
    requires q < |code| && IsLabel(code[q]) && Sees(isa, code, q + 1, l)
    ensures Sees(isa, code, q, l)
  {
    var n: nat :| SeesWithin(isa, code, q + 1, l, n);
    assert SeesWithin(isa, code, q, l, n + 1);
  }

  /** What some path of regions uses is seen where the first begins. */
  lemma {:induction false} PathIsSeen(isa: Isa, code: seq<Inst>, lv: Liveness, k: nat, l: nat, n: nat)
    requires LivenessOk(isa, code, lv) && LabelsDistinct(code) && LiveWithin(lv.f, k, l, n)
    ensures k < |lv.rg.begins| && Sees(isa, code, lv.rg.begins[k], l)
    decreases n
  {
    hide *;
    var used, t := FirstOfPath(isa, code, lv, k, l, n);
    var lo, hi := lv.rg.begins[k], lv.rg.ends[k];
    if used {
      GenIsSeen(isa, code, lv.rg, k, lo, l);
    } else {
      PathIsSeen(isa, code, lv, t, l, n - 1);
      var q := SuccIsExit(code, lv.rg, k, lo, t);
      LabelSees(isa, code, q, l);
      SeenThrough(isa, code, lv.rg, k, q, l);
    }
  }

  /** The first region of a path uses the location, or leaves it alone and goes on. */
  lemma FirstOfPath(isa: Isa, code: seq<Inst>, lv: Liveness, k: nat, l: nat, n: nat) returns (used: bool, t: nat)
    requires LivenessOk(isa, code, lv) && LiveWithin(lv.f, k, l, n)
    ensures RegionsOk(code, lv.rg) && k < |lv.rg.begins| && k < |lv.rg.ends| && lv.rg.begins[k] <= lv.rg.ends[k] <= |code| && n > 0
    ensures used ==> l in RegionGen(isa, code, lv.rg.begins[k], lv.rg.ends[k])
    ensures !used ==> t < |lv.rg.begins| && l !in RegionKill(isa, code, lv.rg.begins[k], lv.rg.ends[k]) && LiveWithin(lv.f, t, l, n - 1)
                      && t in BlockSuccs(code, lv.rg.labelRegion, lv.rg.begins[k], lv.rg.ends[k], Next(lv.rg, k))
  {
    hide LiveWithin, BlockSuccs;
    LiveSplits(lv.f, k, l, n);
    assert FlowAt(isa, code, lv.rg, lv.f, k);
    used := l in lv.f.uses[k];
    t := 0;
    if !used {
      var j :| 0 <= j < |lv.f.succs[k]| && LiveWithin(lv.f, lv.f.succs[k][j], l, n - 1);
      t := lv.f.succs[k][j];
    }
  }

  lemma SeenThrough(isa: Isa, code: seq<Inst>, rg: Regions, k: nat, q: nat, l: nat)
    requires RegionsOk(code, rg) && k < |rg.begins| && k < |rg.ends| && rg.begins[k] <= rg.ends[k] <= |code|
    requires l !in RegionKill(isa, code, rg.begins[k], rg.ends[k]) && ExitsTo(code, rg.begins[k], q) && Sees(isa, code, q, l)
    ensures Sees(isa, code, rg.begins[k], l)
  {
    RegionBounds(code, rg, k);
    if rg.begins[k] < rg.ends[k] {
      var m: nat :| SeesWithin(isa, code, q, l, m);
      hide RegionsOk, ExitsTo;
      ThroughIsSeen(isa, code, rg, k, rg.begins[k], q, l, m);
    }
  }

  lemma LiveInIsSeen(isa: Isa, code: seq<Inst>, lv: Liveness, k: nat, l: nat)
    requires LeastLiveness(isa, code, lv) && LabelsDistinct(code) && k < |lv.ins| && l in lv.ins[k]
    ensures k < |lv.rg.begins| && Sees(isa, code, lv.rg.begins[k], l)
  {
    var path :| LivePath(lv.f, path, l) && path[0] == k;
    assert LiveWithin(lv.f, k, l, |path|);
    PathIsSeen(isa, code, lv, k, l, |path|);
  }

  /** What is live out of a region is seen at one of its exits. */
  lemma LiveOutIsSeen(isa: Isa, code: seq<Inst>, lv: Liveness, k: nat, l: nat) returns (q: nat)
    requires LeastLiveness(isa, code, lv) && LabelsDistinct(code) && k < |lv.outs| && l in lv.outs[k]
    ensures k < |lv.rg.begins| && lv.rg.begins[k] <= |code| && ExitsTo(code, lv.rg.begins[k], q) && Sees(isa, code, q, l)
  {
    hide *;
    LeastIsOk(isa, code, lv);
    var t := LiveAtSucc(isa, code, lv, k, l);
    LiveInIsSeen(isa, code, lv, t, l);
    q := SuccIsExit(code, lv.rg, k, lv.rg.begins[k], t);
    LabelSees(isa, code, q, l);
  }

  lemma LeastIsOk(isa: Isa, code: seq<Inst>, lv: Liveness)
    requires LeastLiveness(isa, code, lv)
    ensures LivenessOk(isa, code, lv)
  {
  }

  lemma LiveAtSucc(isa: Isa, code: seq<Inst>, lv: Liveness, k: nat, l: nat) returns (t: nat)
    requires LivenessOk(isa, code, lv) && k < |lv.outs| && l in lv.outs[k]
    ensures RegionsOk(code, lv.rg) && k < |lv.rg.begins| && lv.rg.begins[k] <= lv.rg.ends[k] <= |code|
    ensures t < |lv.ins| == |lv.rg.begins| && l in lv.ins[t]
    ensures t in BlockSuccs(code, lv.rg.labelRegion, lv.rg.begins[k], lv.rg.ends[k], Next(lv.rg, k))
  {
    assert FlowAt(isa, code, lv.rg, lv.f, k);
    var j :| 0 <= j < |lv.f.succs[k]| && l in lv.ins[lv.f.succs[k][j]];
    t := lv.f.succs[k][j];
  }

  lemma LiveIsSeen(isa: Isa, code: seq<Inst>, lv: Liveness, p: nat, l: nat)
    requires LeastLiveness(isa, code, lv) && LabelsDistinct(code) && l in LiveHere(isa, code, lv, p)
    ensures Sees(isa, code, p, l)
  {
    assert p < |code|;
    if IsLabel(code[p]) {
      var k := RegionAfter(isa, code, lv, p);
      LiveInIsSeen(isa, code, lv, k, l);
      LabelSees(isa, code, p, l);
    } else {
      var k := RegionOfPoint(isa, code, lv, p);
      LiveFromIsSeen(isa, code, lv, k, p, l);
    }
  }

  lemma LiveFromIsSeen(isa: Isa, code: seq<Inst>, lv: Liveness, k: nat, p: nat, l: nat)
    requires LeastLiveness(isa, code, lv) && LabelsDistinct(code) && k < |lv.rg.begins| && k < |lv.rg.ends|
    requires lv.rg.begins[k] <= p < lv.rg.ends[k] <= |code| && l in LiveFrom(isa, code, lv, k, p)
    ensures Sees(isa, code, p, l)
  {
    RegionEquations(isa, code, lv, k);
    BackwardIsSummary(isa, code, p, lv.rg.ends[k], lv.outs[k]);
    if l in RegionGen(isa, code, p, lv.rg.ends[k]) {
      GenIsSeen(isa, code, lv.rg, k, p, l);
    } else {
      var q := LiveOutIsSeen(isa, code, lv, k, l);
      var n: nat :| SeesWithin(isa, code, q, l, n);
      ThroughIsSeen(isa, code, lv.rg, k, p, q, l, n);
    }
  }

  /** The engine's live sets are what is seen. */
  lemma SeesExactly(isa: Isa, code: seq<Inst>, lv: Liveness, p: nat, l: nat)
    requires LeastLiveness(isa, code, lv) && LabelsDistinct(code)
    ensures l in LiveHere(isa, code, lv, p) <==> Sees(isa, code, p, l)
  {
    if l in LiveHere(isa, code, lv, p) {
      LiveIsSeen(isa, code, lv, p, l);
    }
    if Sees(isa, code, p, l) {
      var n: nat :| SeesWithin(isa, code, p, l, n);
      SeesIsLive(isa, code, lv, p, l, n);
    }
  }

  lemma BehindExactly(isa: Isa, code: seq<Inst>, lv: Liveness, p: nat, l: nat)
    requires LeastLiveness(isa, code, lv) && LabelsDistinct(code) && p < |code| && !IsLabel(code[p])
    ensures l in LiveBehind(isa, code, lv, p) <==> l in Gen(isa, code[p]) || SeesBehind(isa, code, p, l)
  {
    var k := RegionOfPoint(isa, code, lv, p);
    RegionBounds(code, lv.rg, k);
    hide LivenessOk, LabelsDistinct, LiveFrom;
    if SeesBehind(isa, code, p, l) {
      var n: nat :| BehindWithin(isa, code, p, l, n);
      BehindIsLive(isa, code, lv, k, p, l, n);
    }
    if l in LiveFrom(isa, code, lv, k, p + 1) {
      LiveBehindIsSeen(isa, code, lv, k, p, l);
    }
  }

  lemma LiveBehindIsSeen(isa: Isa, code: seq<Inst>, lv: Liveness, k: nat, p: nat, l: nat)
    requires LeastLiveness(isa, code, lv) && LabelsDistinct(code) && k < |lv.rg.begins| && k < |lv.rg.ends|
    requires lv.rg.begins[k] <= p < lv.rg.ends[k] <= |code| && l in LiveFrom(isa, code, lv, k, p + 1)
    ensures SeesBehind(isa, code, p, l)
  {
    hide SeesBehind, Sees, SeesWithin, LiveFrom, LabelsDistinct;
    RegionEnds(isa, code, lv, k, p);
    if p + 1 < lv.rg.ends[k] {
      LiveFromIsSeen(isa, code, lv, k, p + 1, l);
      NextIsBehind(isa, code, p, l);
    } else {
      EndOfRegion(isa, code, lv, k, l);
      var q := LiveOutIsSeen(isa, code, lv, k, l);
      ExitIsBehind(isa, code, p, q, l);
    }
  }

  lemma RegionEnds(isa: Isa, code: seq<Inst>, lv: Liveness, k: nat, p: nat)
    requires LivenessOk(isa, code, lv) && k < |lv.rg.begins| && k < |lv.rg.ends| && lv.rg.begins[k] <= p < lv.rg.ends[k] <= |code|
    ensures (LastOfRegion(code, p) <==> p + 1 == lv.rg.ends[k]) && Opening(code, p) == lv.rg.begins[k]
  {
    RegionBounds(code, lv.rg, k);
    BeginsOpen(code, lv.rg, k);
    OpeningIs(code, lv.rg.begins[k], p);
  }

  lemma EndOfRegion(isa: Isa, code: seq<Inst>, lv: Liveness, k: nat, l: nat)
    requires LivenessOk(isa, code, lv) && k < |lv.rg.begins| && k < |lv.rg.ends| && l in LiveFrom(isa, code, lv, k, lv.rg.ends[k])
    ensures l in lv.outs[k]
  {
    RegionEquations(isa, code, lv, k);
  }

  lemma ExitIsBehind(isa: Isa, code: seq<Inst>, p: nat, q: nat, l: nat)
    requires p < |code| && LastOfRegion(code, p) && ExitsTo(code, Opening(code, p), q) && Sees(isa, code, q, l)
    ensures SeesBehind(isa, code, p, l)
  {
    var n: nat :| SeesWithin(isa, code, q, l, n);
    assert BehindWithin(isa, code, p, l, n);
  }

  lemma NextIsBehind(isa: Isa, code: seq<Inst>, p: nat, l: nat)
    requires p < |code| && !LastOfRegion(code, p) && Sees(isa, code, p + 1, l)
    ensures SeesBehind(isa, code, p, l)
  {
    var n: nat :| SeesWithin(isa, code, p + 1, l, n);
    assert BehindWithin(isa, code, p, l, n);
  }

  /** Whether the engine's live sets hold everything needed is a matter of the code alone: they do exactly when no
      branch leads to a need that is not seen behind the branch. */
  lemma CoverageOnCode(isa: Isa, code: seq<Inst>, lv: Liveness)
    requires Honest(isa) && LeastLiveness(isa, code, lv) && LabelsDistinct(code)
    ensures BranchesCovered(isa, code, lv) <==> CoveredOnCode(isa, code)
    ensures HoldsNeeds(isa, code, lv) <==> CoveredOnCode(isa, code)
  {
    HoldsNeedsIff(isa, code, lv);
    hide LeastLiveness, LabelsDistinct, Honest, LiveBehind, SeesBehind, HoldsNeeds;
    forall p: nat, t: nat, l: nat | BranchNeeds(TableUses(isa), code, p, t, l)
      ensures l in LiveBehind(isa, code, lv, p) <==> l in Gen(isa, code[p]) || SeesBehind(isa, code, p, l)
    {
      BehindExactly(isa, code, lv, p, l);
    }
  }
}
