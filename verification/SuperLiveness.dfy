/** Liveness for the superoptimizer: a capped number of passes over the regions, and why the cap never binds. */
module SuperLiveness {
  import opened Options
  import opened Dataflow
  import opened SlotCode
  import opened SlotLiveness

  /** What the instruction table declares: locations whose values matter, and locations certainly overwritten. */
  datatype Effects = Effects(inputs: set<nat>, kills: set<nat>)

  /** The instruction table. Locations are numbered: registers, the flags as one, slots, everything else. */
  datatype Isa = Isa(
    locs: nat,
    effects: Inst -> Option<Effects>,
    exec: (Inst, seq<int>) -> Option<seq<int>>,
    taken: (Inst, seq<int>) -> bool)

  function AllLocs(n: nat): (r: set<nat>)
    ensures forall l: nat :: l in r <==> l < n
  {
    if n == 0 then {} else AllLocs(n - 1) + {n - 1}
  }

  /** An instruction the table does not know keeps everything live. */
  function Gen(isa: Isa, i: Inst): set<nat> {
    var e := isa.effects(i);
    if e.None? then AllLocs(isa.locs) else e.value.inputs
  }

  function Kill(isa: Isa, i: Inst): set<nat> {
    var e := isa.effects(i);
    if e.None? then {} else e.value.kills
  }

  function TransferInst(isa: Isa, i: Inst, live: set<nat>): set<nat> {
    (live - Kill(isa, i)) + Gen(isa, i)
  }

  /** What an instruction known to the table reads is live before it, and what was live behind it and is not certainly
      overwritten; before one unknown to it, everything is. */
  lemma TransferSays(isa: Isa, i: Inst, live: set<nat>, l: nat)
    requires l < isa.locs
    ensures match isa.effects(i)
            case Some(e) => l in TransferInst(isa, i, live) <==> l in e.inputs || (l in live && l !in e.kills)
            case None => l in TransferInst(isa, i, live)
  {
  }

  /** The live set before position lo, walking back from hi. */
  function Backward(isa: Isa, code: seq<Inst>, lo: nat, hi: nat, live: set<nat>): set<nat>
    requires hi <= |code|
    decreases hi
  {
    if lo >= hi then live else Backward(isa, code, lo, hi - 1, TransferInst(isa, code[hi - 1], live))
  }

  lemma {:induction false} BackwardStep(isa: Isa, code: seq<Inst>, lo: nat, hi: nat, live: set<nat>)
    requires lo < hi <= |code|
    ensures Backward(isa, code, lo, hi, live) == TransferInst(isa, code[lo], Backward(isa, code, lo + 1, hi, live))
    decreases hi
  {
    if lo + 1 < hi {
      BackwardStep(isa, code, lo, hi - 1, TransferInst(isa, code[hi - 1], live));
    }
  }

  /** What a whole region adds, and what it hides. */
  function RegionGen(isa: Isa, code: seq<Inst>, lo: nat, hi: nat): set<nat>
    requires hi <= |code|
    decreases hi - lo
  {
    if lo >= hi then {} else (RegionGen(isa, code, lo + 1, hi) - Kill(isa, code[lo])) + Gen(isa, code[lo])
  }

  function RegionKill(isa: Isa, code: seq<Inst>, lo: nat, hi: nat): set<nat>
    requires hi <= |code|
    decreases hi - lo
  {
    if lo >= hi then {} else RegionKill(isa, code, lo + 1, hi) + Kill(isa, code[lo])
  }

  lemma {:induction false} BackwardIsSummary(isa: Isa, code: seq<Inst>, lo: nat, hi: nat, live: set<nat>)
    requires hi <= |code|
    ensures Backward(isa, code, lo, hi, live) == RegionGen(isa, code, lo, hi) + (live - RegionKill(isa, code, lo, hi))
    decreases hi - lo
  {
    if lo < hi {
      BackwardStep(isa, code, lo, hi, live);
      BackwardIsSummary(isa, code, lo + 1, hi, live);
    }
  }

  // ---------------------------------------------------------------------
  // successors: up to the first branch
  // ---------------------------------------------------------------------

  /** Control leaves a region at its first branch or terminator; an unknown target gives no edge. */
  function BlockSuccs(code: seq<Inst>, lr: map<int, nat>, i: nat, hi: nat, next: Option<nat>): seq<nat>
    requires hi <= |code|
    decreases hi - i
  {
    var onward := if next.Some? then [next.value] else [];
    if i >= hi then onward
    else
      var t := RegionOfTarget(code[i], lr);
      var jump := if t.Some? then [t.value] else [];
      if code[i].op.Jmp? then jump
      else if code[i].op.Jcc? then jump + onward
      else if IsReturn(code[i]) then []
      else BlockSuccs(code, lr, i + 1, hi, next)
  }

  /** The region graph of the code. */
  ghost predicate FlowOf(isa: Isa, code: seq<Inst>, rg: Regions, f: Flow) {
    && RegionsOk(code, rg) && |f.succs| == |f.uses| == |f.defs| == |rg.begins|
    && forall k: nat | k < |rg.begins| :: FlowAt(isa, code, rg, f, k)
  }

  ghost predicate FlowAt(isa: Isa, code: seq<Inst>, rg: Regions, f: Flow, k: nat)
    requires k < |rg.begins| && |f.succs| == |f.uses| == |f.defs| == |rg.begins|
  {
    && k < |rg.ends| && rg.begins[k] <= rg.ends[k] <= |code|
    && f.succs[k] == BlockSuccs(code, rg.labelRegion, rg.begins[k], rg.ends[k], Next(rg, k))
    && (forall j | 0 <= j < |f.succs[k]| :: f.succs[k][j] < |rg.begins|)
    && f.uses[k] == RegionGen(isa, code, rg.begins[k], rg.ends[k])
    && f.defs[k] == RegionKill(isa, code, rg.begins[k], rg.ends[k])
  }

  lemma {:induction false} BlockSuccsBelow(code: seq<Inst>, lr: map<int, nat>, i: nat, hi: nat, next: Option<nat>, n: nat)
    requires hi <= |code| && (forall l | l in lr :: lr[l] < n) && (next.Some? ==> next.value < n)
    ensures forall t | t in BlockSuccs(code, lr, i, hi, next) :: t < n
    decreases hi - i
  {
    if i < hi {
      BlockSuccsBelow(code, lr, i + 1, hi, next, n);
    }
  }

  lemma BlockSuccsExist(code: seq<Inst>, rg: Regions, k: nat, i: nat, hi: nat)
    requires RegionsOk(code, rg) && k < |rg.begins| && hi <= |code|
    ensures var s := BlockSuccs(code, rg.labelRegion, i, hi, Next(rg, k)); forall j | 0 <= j < |s| :: s[j] < |rg.begins|
  {
    forall l | l in rg.labelRegion ensures rg.labelRegion[l] < |rg.begins| {
      assert Opens(code, rg.begins, l, rg.labelRegion[l]);
    }
    hide RegionsOk, BlockSuccs;
    BlockSuccsBelow(code, rg.labelRegion, i, hi, Next(rg, k), |rg.begins|);
    var s := BlockSuccs(code, rg.labelRegion, i, hi, Next(rg, k));
    forall j | 0 <= j < |s| ensures s[j] < |rg.begins| {
      assert s[j] in s;
    }
  }

  method BlockSuccessors(code: seq<Inst>, rg: Regions, k: nat) returns (s: seq<nat>)
    requires RegionsOk(code, rg) && k < |rg.begins| && rg.begins[k] <= rg.ends[k] <= |code|
    ensures s == BlockSuccs(code, rg.labelRegion, rg.begins[k], rg.ends[k], Next(rg, k))
  {
    var i := rg.begins[k];
    while i < rg.ends[k]
      invariant rg.begins[k] <= i <= rg.ends[k]
      invariant BlockSuccs(code, rg.labelRegion, rg.begins[k], rg.ends[k], Next(rg, k)) == BlockSuccs(code, rg.labelRegion, i, rg.ends[k], Next(rg, k))
    {
      var t := RegionOfTarget(code[i], rg.labelRegion);
      if code[i].op.Jmp? {
        return if t.Some? then [t.value] else [];
      }
      if code[i].op.Jcc? {
        s := if t.Some? then [t.value] else [];
        if k + 1 < |rg.begins| {
          s := s + [k + 1];
        }
        return;
      }
      if IsReturn(code[i]) {
        return [];
      }
      i := i + 1;
    }
    s := if k + 1 < |rg.begins| then [k + 1] else [];
  }

  // ---------------------------------------------------------------------
  // capped passes
  // ---------------------------------------------------------------------

  /** Everything that is live over at most n regions is found. */
  ghost predicate Found(f: Flow, ins: seq<set<nat>>, n: nat) {
    |ins| == |f.succs| && forall k: nat, s: nat | k < |ins| :: FoundAt(f, ins, k, s, n)
  }

  ghost predicate FoundAt(f: Flow, ins: seq<set<nat>>, k: nat, s: nat, n: nat)
    requires k < |ins|
  {
    LiveWithin(f, k, s, n) ==> s in ins[k]
  }

  /** The regions from k on are found over n + 1 regions already, the others over n. */
  ghost predicate FoundFrom(f: Flow, ins: seq<set<nat>>, n: nat, k: nat) {
    |ins| == |f.succs| && forall m: nat, s: nat | m < |ins| :: FoundPast(f, ins, m, s, n, k)
  }

  ghost predicate FoundPast(f: Flow, ins: seq<set<nat>>, m: nat, s: nat, n: nat, k: nat)
    requires m < |ins|
  {
    LiveWithin(f, m, s, if m >= k then n + 1 else n) ==> s in ins[m]
  }

  lemma NothingFound(f: Flow, ins: seq<set<nat>>)
    requires |ins| == |f.succs|
    ensures Found(f, ins, 0)
  {
  }

  /** One update finds one region further. */
  lemma UpdateFinds(f: Flow, ins: seq<set<nat>>, n: nat, k: nat)
    requires FlowOk(f) && k < |ins| && FoundFrom(f, ins, n, k + 1)
    requires ins[k] <= InOf(f, k, OutOf(f.succs[k], ins))
    ensures FoundFrom(f, ins[k := InOf(f, k, OutOf(f.succs[k], ins))], n, k)
  {
    var li := InOf(f, k, OutOf(f.succs[k], ins));
    var ins' := ins[k := li];
    forall m: nat, s: nat | m < |ins'| ensures FoundPast(f, ins', m, s, n, k) {
      assert FoundPast(f, ins, m, s, n, k + 1);
      if m == k && LiveWithin(f, k, s, n + 1) {
        FoundHere(f, ins, n, k, s);
      }
    }
  }

  lemma FoundHere(f: Flow, ins: seq<set<nat>>, n: nat, k: nat, s: nat)
    requires FlowOk(f) && k < |ins| && FoundFrom(f, ins, n, k + 1) && LiveWithin(f, k, s, n + 1)
    ensures s in InOf(f, k, OutOf(f.succs[k], ins))
  {
    LiveSplits(f, k, s, n + 1);
    if s !in f.uses[k] {
      var j :| 0 <= j < |f.succs[k]| && LiveWithin(f, f.succs[k][j], s, n);
      var next := f.succs[k][j];
      WithinGrows(f, next, s, n, n + 1);
      assert FoundPast(f, ins, next, s, n, k + 1);
    }
  }

  /** Once n passes have been made on no more than n regions the live-in sets are final. */
  lemma FoundIsAll(f: Flow, ins: seq<set<nat>>, n: nat)
    requires FlowOk(f) && Found(f, ins, n) && Sound(f, ins) && n >= |f.succs|
    ensures forall k: nat, s: nat | k < |ins| :: s in ins[k] <==> LiveIn(f, k, s)
  {
    forall k: nat, s: nat | k < |ins| && LiveIn(f, k, s) ensures s in ins[k] {
      LiveIsWithin(f, k, s);
      WithinGrows(f, k, s, |f.succs|, n);
      assert FoundAt(f, ins, k, s, n);
    }
  }

  /** Final live-in sets: no update changes them. */
  ghost predicate Final(f: Flow, ins: seq<set<nat>>) {
    |ins| == |f.succs| && forall k: nat, s: nat | k < |ins| :: s in ins[k] <==> LiveIn(f, k, s)
  }

  lemma FinalStays(f: Flow, ins: seq<set<nat>>, outs: seq<set<nat>>, k: nat)
    requires Rising(f, ins, outs) && Sound(f, ins) && Final(f, ins) && k < |ins|
    ensures InOf(f, k, OutOf(f.succs[k], ins)) == ins[k]
  {
    var li := InOf(f, k, OutOf(f.succs[k], ins));
    UpdateRises(f, ins, outs, k);
    UpdateSound(f, ins, k);
    forall s | s in li ensures s in ins[k] {
      assert s in ins[k := li][k];
    }
  }

  /** How far the iteration is after `rounds` passes over R regions. */
  ghost predicate Progress(f: Flow, ins: seq<set<nat>>, outs: seq<set<nat>>, changed: bool, rounds: nat) {
    && Rising(f, ins, outs) && Sound(f, ins) && Found(f, ins, rounds)
    && (rounds > |f.succs| ==> Settled(f, ins, outs))
    && (rounds > |f.succs| + 1 ==> !changed)
    && (!changed ==> Solves(f, ins, outs))
  }

  ghost predicate Settled(f: Flow, ins: seq<set<nat>>, outs: seq<set<nat>>) {
    && FlowOk(f) && |ins| == |outs| == |f.succs|
    && forall k: nat | k < |outs| :: outs[k] == OutOf(f.succs[k], ins)
  }

  /** One region: the union of its successors' sets, then its instructions from the last to the first. */
  method UpdateRegion(isa: Isa, code: seq<Inst>, rg: Regions, f: Flow, k: nat, ins: seq<set<nat>>) returns (lo: set<nat>, li: set<nat>)
    requires FlowOf(isa, code, rg, f) && FlowOk(f) && k < |ins| == |f.succs|
    ensures lo == OutOf(f.succs[k], ins) && li == InOf(f, k, lo)
  {
    assert FlowAt(isa, code, rg, f, k);
    lo := {};
    var succ := f.succs[k];
    for j := 0 to |succ|
      invariant forall s :: s in lo <==> exists m :: 0 <= m < j && s in ins[succ[m]]
    {
      lo := lo + ins[succ[j]];
    }
    li := lo;
    var i := rg.ends[k];
    while i > rg.begins[k]
      invariant rg.begins[k] <= i <= rg.ends[k]
      invariant Backward(isa, code, rg.begins[k], rg.ends[k], lo) == Backward(isa, code, rg.begins[k], i, li)
    {
      i := i - 1;
      li := TransferInst(isa, code[i], li);
    }
    BackwardIsSummary(isa, code, rg.begins[k], rg.ends[k], lo);
  }

  /** One pass over the regions, last first. */
  method Round(isa: Isa, code: seq<Inst>, rg: Regions, f: Flow, ins0: seq<set<nat>>, outs0: seq<set<nat>>, ghost rounds: nat)
    returns (ins: seq<set<nat>>, outs: seq<set<nat>>, changed: bool)
    requires FlowOf(isa, code, rg, f) && Progress(f, ins0, outs0, true, rounds)
    ensures Progress(f, ins, outs, changed, rounds + 1)
  {
    hide RegionsOk, FlowOf, FlowAt, LiveIn, LiveWithin, RisingAt, FoundAt;
    ins, outs, changed := ins0, outs0, false;
    ghost var done := rounds >= |f.succs|;
    if done {
      FoundIsAll(f, ins, rounds);
    }
    FoundToFrom(f, ins, rounds);
    var k := |f.succs|;
    while k > 0
      invariant 0 <= k <= |f.succs| && FlowOk(f)
      invariant Rising(f, ins, outs) && Sound(f, ins) && FoundFrom(f, ins, rounds, k)
      invariant done ==> Final(f, ins) && ins == ins0
      invariant forall m: nat | k <= m < |ins| && done :: outs[m] == OutOf(f.succs[m], ins)
      invariant rounds > |f.succs| ==> !changed && outs == outs0
      invariant !changed ==> ins == ins0 && outs == outs0
      invariant !changed ==> forall m: nat | k <= m < |ins| :: outs[m] == OutOf(f.succs[m], ins) && ins[m] == InOf(f, m, outs[m])
    {
      k := k - 1;
      var lo, li := UpdateRegion(isa, code, rg, f, k, ins);
      UpdateRises(f, ins, outs, k);
      UpdateSound(f, ins, k);
      UpdateFinds(f, ins, rounds, k);
      if done {
        FinalStays(f, ins, outs, k);
      }
      if lo != outs[k] || li != ins[k] {
        changed := true;
      }
      outs := outs[k := lo];
      ins := ins[k := li];
    }
    FromToFound(f, ins, rounds);
  }

  lemma FoundToFrom(f: Flow, ins: seq<set<nat>>, n: nat)
    requires Found(f, ins, n)
    ensures FoundFrom(f, ins, n, |ins|)
  {
    forall m: nat, s: nat | m < |ins| ensures FoundPast(f, ins, m, s, n, |ins|) {
      assert FoundAt(f, ins, m, s, n);
    }
  }

  lemma FromToFound(f: Flow, ins: seq<set<nat>>, n: nat)
    requires FoundFrom(f, ins, n, 0)
    ensures Found(f, ins, n + 1)
  {
    var ins', n' := ins, n + 1;
    forall m: nat, s: nat | m < |ins'| ensures FoundAt(f, ins', m, s, n') {
      assert FoundPast(f, ins, m, s, n, 0);
    }
  }

  /** At most R + 8 passes over R regions, and that is always enough: the result is the live sets exactly,
      not a truncation of them. */
  method ComputeLiveness(isa: Isa, code: seq<Inst>, rg: Regions, f: Flow) returns (ins: seq<set<nat>>, outs: seq<set<nat>>)
    requires FlowOf(isa, code, rg, f) && FlowOk(f)
    ensures Solves(f, ins, outs)
    ensures forall k, s | 0 <= k < |ins| :: s in ins[k] <==> LiveIn(f, k, s)
  {
    ins := seq(|f.succs|, _ => {});
    outs := seq(|f.succs|, _ => {});
    forall k: nat | k < |ins| ensures RisingAt(f, ins, outs, k) {
    }
    NothingFound(f, ins);
    var changed, guard := true, 0;
    RegionsMatch(isa, code, rg, f);
    assert Progress(f, ins, outs, changed, guard);
    hide Progress, FlowOf;
    while changed && guard < |rg.begins| + 8
      invariant Progress(f, ins, outs, changed, guard) && guard <= |rg.begins| + 8
      decreases |rg.begins| + 8 - guard
    {
      ins, outs, changed := Round(isa, code, rg, f, ins, outs, guard);
      guard := guard + 1;
    }
    Exhausted(f, ins, outs, changed, guard);
    LeastIsLive(f, ins, outs);
  }

  lemma RegionsMatch(isa: Isa, code: seq<Inst>, rg: Regions, f: Flow)
    requires FlowOf(isa, code, rg, f)
    ensures |f.succs| == |rg.begins|
  {
  }

  /** The loop cannot have stopped at the cap with work left. */
  lemma Exhausted(f: Flow, ins: seq<set<nat>>, outs: seq<set<nat>>, changed: bool, guard: nat)
    requires Progress(f, ins, outs, changed, guard) && (!changed || guard >= |f.succs| + 8)
    ensures Solves(f, ins, outs) && Sound(f, ins)
  {
  }
}
