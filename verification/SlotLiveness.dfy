/** Stream liveness of stack slots: regions between labels, their successors, live sets, and the exact
    positions at which each slot is active. */
module SlotLiveness {
  import opened Options
  import opened Dataflow
  import opened SlotCode
  import opened CodeNeeds

  /** Regions between labels; `start` is 1 if the stream opens with a label. */
  datatype Regions = Regions(start: nat, begins: seq<nat>, ends: seq<nat>, regionOf: seq<nat>, labelRegion: map<int, nat>)

  /** Region k runs up to a label, after which the next one begins. */
  ghost predicate Closed(code: seq<Inst>, begins: seq<nat>, ends: seq<nat>, k: nat) {
    && k < |ends| && k + 1 < |begins| && begins[k] <= ends[k] < |code| && IsLabel(code[ends[k]]) && begins[k + 1] == ends[k] + 1
    && forall j | begins[k] <= j < ends[k] :: !IsLabel(code[j])
  }

  /** Position j belongs to region k; a label belongs to the region it opens. */
  ghost predicate InRegion(code: seq<Inst>, begins: seq<nat>, ends: seq<nat>, j: nat, k: nat) {
    && j < |code| && k < |begins|
    && if IsLabel(code[j]) then begins[k] == j + 1 else begins[k] <= j && (k < |ends| ==> j < ends[k])
  }

  /** Region k begins right after label l. */
  ghost predicate Opens(code: seq<Inst>, begins: seq<nat>, l: int, k: nat) {
    && k < |begins| && 0 < begins[k] <= |code| && IsLabel(code[begins[k] - 1]) && code[begins[k] - 1].a == Lab(l)
  }

  ghost predicate RegionsOk(code: seq<Inst>, rg: Regions) {
    && code != [] && |rg.begins| == |rg.ends| > 0 && |rg.regionOf| == |code|
    && rg.start == (if IsLabel(code[0]) then 1 else 0) && rg.begins[0] == rg.start
    && var last := |rg.begins| - 1;
    && rg.begins[last] <= rg.ends[last] == |code| && (forall j | rg.begins[last] <= j < |code| :: !IsLabel(code[j]))
    && (forall k: nat | k < last :: Closed(code, rg.begins, rg.ends, k))
    && (forall j: nat | rg.start <= j < |code| :: InRegion(code, rg.begins, rg.ends, j, rg.regionOf[j]))
    && (forall l | l in rg.labelRegion :: Opens(code, rg.begins, l, rg.labelRegion[l]))
    && (forall j: nat | j < |code| && IsLabel(code[j]) :: code[j].a.Lab? && code[j].a.l in rg.labelRegion)
  }

  /** Closing the last region and opening the next leaves what was known. */
  lemma NextRegion(code: seq<Inst>, begins: seq<nat>, ends: seq<nat>, i: nat)
    requires |begins| == |ends| + 1 && begins[|ends|] <= i < |code| && IsLabel(code[i])
    requires forall j | begins[|ends|] <= j < i :: !IsLabel(code[j])
    ensures var begins', ends' := begins + [i + 1], ends + [i];
            && (forall k: nat | Closed(code, begins, ends, k) :: Closed(code, begins', ends', k))
            && Closed(code, begins', ends', |ends|)
            && (forall j: nat, k: nat | j < i && InRegion(code, begins, ends, j, k) :: InRegion(code, begins', ends', j, k))
            && InRegion(code, begins', ends', i, |begins|)
            && (forall l, k: nat | Opens(code, begins, l, k) :: Opens(code, begins', l, k))
  {
  }

  method BuildRegions(code: seq<Inst>) returns (rg: Regions)
    requires code != [] && forall i | 0 <= i < |code| && IsLabel(code[i]) :: code[i].a.Lab?
    ensures RegionsOk(code, rg)
  {
    var start: nat := 0;
    var labelRegion: map<int, nat> := map[];
    if IsLabel(code[0]) {
      labelRegion := labelRegion[code[0].a.l := 0];
      start := 1;
    }
    var begins: seq<nat>, ends: seq<nat> := [start], [];
    var regionOf: seq<nat> := if start == 1 then [0] else [];
    var r: nat := 0;
    for i := start to |code|
      invariant |begins| == r + 1 && |ends| == r && |regionOf| == i && begins[0] == start
      invariant begins[r] <= i && forall j | begins[r] <= j < i :: !IsLabel(code[j])
      invariant forall k: nat | k < r :: Closed(code, begins, ends, k)
      invariant forall j: nat | start <= j < i :: InRegion(code, begins, ends, j, regionOf[j])
      invariant forall l | l in labelRegion :: Opens(code, begins, l, labelRegion[l])
      invariant forall j: nat | j < i && IsLabel(code[j]) :: code[j].a.l in labelRegion
    {
      if IsLabel(code[i]) {
        NextRegion(code, begins, ends, i);
        ends := ends + [i];
        begins := begins + [i + 1];
        r := r + 1;
        labelRegion := labelRegion[code[i].a.l := r];
        assert Opens(code, begins, code[i].a.l, r);
      }
      regionOf := regionOf + [r];
    }
    ghost var ends0 := ends;
    ends := ends + [|code|];
    rg := Regions(start, begins, ends, regionOf, labelRegion);
    forall j: nat | start <= j < |code| ensures InRegion(code, begins, ends, j, regionOf[j]) {
      assert InRegion(code, begins, ends0, j, regionOf[j]);
    }
    forall k: nat | k < r ensures Closed(code, begins, ends, k) {
      assert Closed(code, begins, ends0, k);
    }
  }

  // ---------------------------------------------------------------------
  // successors
  // ---------------------------------------------------------------------

  function RegionOfTarget(i: Inst, labelRegion: map<int, nat>): Option<nat> {
    if i.a.Lab? && i.a.l in labelRegion then Some(labelRegion[i.a.l]) else None
  }

  /** Where control can go from position i of a region ending at hi; none if a target is unknown.
      Conditional branches add a target each, the first terminator ends the region. */
  function SuccFrom(code: seq<Inst>, lr: map<int, nat>, i: nat, hi: nat, next: Option<nat>): Option<seq<nat>>
    requires hi <= |code|
    decreases hi - i
  {
    if i >= hi then Some(if next.Some? then [next.value] else [])
    else if code[i].op.Jmp? then
      var t := RegionOfTarget(code[i], lr);
      if t.Some? then Some([t.value]) else None
    else if code[i].op.Jcc? then
      var t, rest := RegionOfTarget(code[i], lr), SuccFrom(code, lr, i + 1, hi, next);
      if t.Some? && rest.Some? then Some([t.value] + rest.value) else None
    else if IsReturn(code[i]) then Some([])
    else SuccFrom(code, lr, i + 1, hi, next)
  }

  function Next(rg: Regions, k: nat): Option<nat> {
    if k + 1 < |rg.begins| then Some(k + 1) else None
  }

  /** Prepends the targets found so far. */
  function Prefixed(found: seq<nat>, rest: Option<seq<nat>>): Option<seq<nat>> {
    if rest.Some? then Some(found + rest.value) else None
  }

  method RegionSuccessors(code: seq<Inst>, rg: Regions, k: nat) returns (r: Option<seq<nat>>)
    requires RegionsOk(code, rg) && k < |rg.begins|
    requires rg.begins[k] <= rg.ends[k] <= |code|
    ensures r == SuccFrom(code, rg.labelRegion, rg.begins[k], rg.ends[k], Next(rg, k))
  {
    ghost var whole := SuccFrom(code, rg.labelRegion, rg.begins[k], rg.ends[k], Next(rg, k));
    var found: seq<nat> := [];
    var i := rg.begins[k];
    assert whole.Some? ==> [] + whole.value == whole.value;
    while i < rg.ends[k]
      invariant rg.begins[k] <= i <= rg.ends[k]
      invariant whole == Prefixed(found, SuccFrom(code, rg.labelRegion, i, rg.ends[k], Next(rg, k)))
    {
      if code[i].op.Jmp? {
        var t := RegionOfTarget(code[i], rg.labelRegion);
        return if t.Some? then Some(found + [t.value]) else None;
      }
      if code[i].op.Jcc? {
        var t := RegionOfTarget(code[i], rg.labelRegion);
        if t.None? {
          return None;
        }
        ghost var rest := SuccFrom(code, rg.labelRegion, i + 1, rg.ends[k], Next(rg, k));
        assert rest.Some? ==> found + ([t.value] + rest.value) == found + [t.value] + rest.value;
        found := found + [t.value];
      } else if IsReturn(code[i]) {
        assert found + [] == found;
        return Some(found);
      }
      i := i + 1;
    }
    assert found + [] == found;
    r := Some(if k + 1 < |rg.begins| then found + [k + 1] else found);
  }

  // ---------------------------------------------------------------------
  // live sets inside a region
  // ---------------------------------------------------------------------

  function Transfer(i: Inst, live: set<nat>): set<nat> {
    if SlotDef(i).Some? then live - {SlotDef(i).value}
    else if SlotUse(i).Some? then live + {SlotUse(i).value}
    else live
  }

  /** The live set before position lo, from the one after position hi - 1. */
  function Before(code: seq<Inst>, lo: nat, hi: nat, live: set<nat>): set<nat>
    requires hi <= |code|
    decreases hi
  {
    if lo >= hi then live else Before(code, lo, hi - 1, Transfer(code[hi - 1], live))
  }

  lemma {:induction false} BeforeStep(code: seq<Inst>, lo: nat, hi: nat, live: set<nat>)
    requires lo < hi <= |code|
    ensures Before(code, lo, hi, live) == Transfer(code[lo], Before(code, lo + 1, hi, live))
    decreases hi
  {
    if lo + 1 < hi {
      BeforeStep(code, lo, hi - 1, Transfer(code[hi - 1], live));
    }
  }

  function RegionDefs(code: seq<Inst>, lo: nat, hi: nat): set<nat>
    requires hi <= |code|
  {
    if lo >= hi then {}
    else RegionDefs(code, lo, hi - 1) + if SlotDef(code[hi - 1]).Some? then {SlotDef(code[hi - 1]).value} else {}
  }

  /** Slots read before the region defines them. */
  function RegionUses(code: seq<Inst>, lo: nat, hi: nat): set<nat>
    requires hi <= |code|
  {
    if lo >= hi then {}
    else
      var u := SlotUse(code[hi - 1]);
      RegionUses(code, lo, hi - 1) + if SlotDef(code[hi - 1]).None? && u.Some? && u.value !in RegionDefs(code, lo, hi - 1) then {u.value} else {}
  }

  /** A region acts on live sets through its uses and definitions. */
  lemma {:induction false} BeforeIsSummary(code: seq<Inst>, lo: nat, hi: nat, live: set<nat>)
    requires hi <= |code|
    ensures Before(code, lo, hi, live) == RegionUses(code, lo, hi) + (live - RegionDefs(code, lo, hi))
    decreases hi
  {
    if lo < hi {
      BeforeIsSummary(code, lo, hi - 1, Transfer(code[hi - 1], live));
    }
  }

  function Clamp(i: nat, lo: nat, hi: nat): nat {
    if i < lo then lo else if i > hi then hi else i
  }

  /** Uses and definitions of the regions, as far as position i. */
  ghost predicate Gathered(code: seq<Inst>, rg: Regions, i: nat, uses: seq<set<nat>>, defs: seq<set<nat>>) {
    && |uses| == |defs| == |rg.begins| + 1 && |rg.begins| == |rg.ends|
    && uses[|rg.begins|] == {} && defs[|rg.begins|] == {}
    && forall k: nat | k < |rg.begins| :: GatheredAt(code, rg, i, uses[k], defs[k], k)
  }

  ghost predicate GatheredAt(code: seq<Inst>, rg: Regions, i: nat, uses: set<nat>, defs: set<nat>, k: nat)
    requires k < |rg.begins| == |rg.ends|
  {
    && rg.begins[k] <= rg.ends[k] <= |code|
    && var hi := Clamp(i, rg.begins[k], rg.ends[k]);
    uses == RegionUses(code, rg.begins[k], hi) && defs == RegionDefs(code, rg.begins[k], hi)
  }

  /** Region bounds from the shape of the list. */
  lemma RegionBounds(code: seq<Inst>, rg: Regions, k: nat)
    requires RegionsOk(code, rg) && k < |rg.begins|
    ensures rg.begins[k] <= rg.ends[k] <= |code|
    ensures forall j | rg.begins[k] <= j < rg.ends[k] :: !IsLabel(code[j])
    ensures k + 1 < |rg.begins| ==> rg.ends[k] < |code| && IsLabel(code[rg.ends[k]]) && rg.begins[k + 1] == rg.ends[k] + 1
    ensures k + 1 == |rg.begins| ==> rg.ends[k] == |code|
  {
    if k + 1 < |rg.begins| {
      assert Closed(code, rg.begins, rg.ends, k);
    }
  }

  /** Regions do not overlap. */
  lemma {:induction false} RegionsApart(code: seq<Inst>, rg: Regions, k: nat, m: nat)
    requires RegionsOk(code, rg) && k < m < |rg.begins|
    ensures rg.ends[k] < rg.begins[m]
    decreases m
  {
    RegionBounds(code, rg, k);
    RegionBounds(code, rg, m - 1);
    if k < m - 1 {
      RegionsApart(code, rg, k, m - 1);
    }
  }

  method UsesAndDefs(code: seq<Inst>, rg: Regions) returns (uses: seq<set<nat>>, defs: seq<set<nat>>)
    requires RegionsOk(code, rg)
    ensures Gathered(code, rg, |code|, uses, defs)
  {
    var nb := |rg.begins| + 1;
    uses, defs := seq(nb, _ => {}), seq(nb, _ => {});
    forall k: nat | k < |rg.begins| ensures GatheredAt(code, rg, 0, uses[k], defs[k], k) {
      RegionBounds(code, rg, k);
    }
    for i := 0 to |code|
      invariant Gathered(code, rg, i, uses, defs)
    {
      var b := if i < rg.start then |rg.begins| else rg.regionOf[i];
      if i >= rg.start {
        assert InRegion(code, rg.begins, rg.ends, i, rg.regionOf[i]);
      }
      ghost var uses0, defs0 := uses, defs;
      if SlotDef(code[i]).Some? {
        defs := defs[b := defs[b] + {SlotDef(code[i]).value}];
      } else if SlotUse(code[i]).Some? {
        if SlotUse(code[i]).value !in defs[b] {
          uses := uses[b := uses[b] + {SlotUse(code[i]).value}];
        }
      }
      forall k: nat | k < |rg.begins| ensures GatheredAt(code, rg, i + 1, uses[k], defs[k], k) {
        assert GatheredAt(code, rg, i, uses0[k], defs0[k], k);
        GatherStep(code, rg, i, k);
      }
    }
    forall k: nat | k < |rg.begins| ensures GatheredAt(code, rg, |code|, uses[k], defs[k], k) {
    }
  }

  /** Only the region a position belongs to grows by it. */
  lemma GatherStep(code: seq<Inst>, rg: Regions, i: nat, k: nat)
    requires RegionsOk(code, rg) && i < |code| && k < |rg.begins|
    ensures var lo, hi := rg.begins[k], rg.ends[k];
            if !IsLabel(code[i]) && rg.regionOf[i] == k then Clamp(i, lo, hi) == i && Clamp(i + 1, lo, hi) == i + 1
            else Clamp(i, lo, hi) == Clamp(i + 1, lo, hi)
    ensures IsLabel(code[i]) ==> SlotDef(code[i]).None? && SlotUse(code[i]).None?
  {
    RegionBounds(code, rg, k);
    if i >= rg.start {
      var m := rg.regionOf[i];
      assert InRegion(code, rg.begins, rg.ends, i, m);
      RegionBounds(code, rg, m);
      if m < k {
        RegionsApart(code, rg, m, k);
      } else if k < m {
        RegionsApart(code, rg, k, m);
      }
    }
  }

  // ---------------------------------------------------------------------
  // the analysis as a whole
  // ---------------------------------------------------------------------

  /** Regions, live sets at their ends: what the fixpoint settles on. */
  datatype Analysis = Analysis(rg: Regions, succs: seq<seq<nat>>, ins: seq<set<nat>>, outs: seq<set<nat>>)

  ghost predicate Analysed(code: seq<Inst>, an: Analysis) {
    && RegionsOk(code, an.rg)
    && |an.succs| == |an.ins| == |an.outs| == |an.rg.begins| + 1
    && forall k: nat | k < |an.rg.begins| :: SolvedAt(code, an, k)
  }

  /** The equations of one region. */
  ghost predicate SolvedAt(code: seq<Inst>, an: Analysis, k: nat)
    requires k < |an.rg.begins| && |an.succs| == |an.ins| == |an.outs| == |an.rg.begins| + 1
  {
    && k < |an.rg.ends| && an.rg.begins[k] <= an.rg.ends[k] <= |code|
    && SuccFrom(code, an.rg.labelRegion, an.rg.begins[k], an.rg.ends[k], Next(an.rg, k)) == Some(an.succs[k])
    && (forall j | 0 <= j < |an.succs[k]| :: an.succs[k][j] < |an.ins|)
    && an.outs[k] == OutOf(an.succs[k], an.ins)
    && an.ins[k] == Before(code, an.rg.begins[k], an.rg.ends[k], an.outs[k])
  }

  /** The region of the first instruction that is no label; the prologue falls into it. */
  method FirstRegion(code: seq<Inst>, rg: Regions) returns (first: nat)
    requires RegionsOk(code, rg)
    ensures first < |rg.begins|
  {
    first := 0;
    for i := 0 to |code|
      invariant first == 0
    {
      if !IsLabel(code[i]) {
        assert InRegion(code, rg.begins, rg.ends, i, rg.regionOf[i]);
        return rg.regionOf[i];
      }
    }
  }

  lemma {:induction false} SuccessorsExist(code: seq<Inst>, rg: Regions, k: nat, i: nat, hi: nat)
    requires RegionsOk(code, rg) && k < |rg.begins| && hi <= |code|
    requires SuccFrom(code, rg.labelRegion, i, hi, Next(rg, k)).Some?
    ensures var r := SuccFrom(code, rg.labelRegion, i, hi, Next(rg, k)).value;
            forall j | 0 <= j < |r| :: r[j] < |rg.begins|
    decreases hi - i
  {
    if i < hi {
      if code[i].a.Lab? && code[i].a.l in rg.labelRegion {
        assert Opens(code, rg.begins, code[i].a.l, rg.labelRegion[code[i].a.l]);
      }
      if !code[i].op.Jmp? && !IsReturn(code[i]) {
        SuccessorsExist(code, rg, k, i + 1, hi);
      }
    }
  }

  /** The live-in sets are the least solution: what some run from the region on uses before defining it. */
  ghost predicate LeastLive(code: seq<Inst>, an: Analysis) {
    exists f: Flow :: f.succs == an.succs && Gathered(code, an.rg, |code|, f.uses, f.defs) && LiveExactly(f, an.ins)
  }

  ghost predicate LiveExactly(f: Flow, ins: seq<set<nat>>) {
    forall k, s | 0 <= k < |ins| :: s in ins[k] <==> LiveIn(f, k, s)
  }

  ghost predicate UnknownTarget(code: seq<Inst>) {
    exists p: nat :: p < |code| && IsBranch(code[p]) && Target(code, code[p]).None?
  }

  lemma {:induction false} NoSuccessors(code: seq<Inst>, rg: Regions, i: nat, hi: nat, next: Option<nat>)
    requires RegionsOk(code, rg) && hi <= |code| && SuccFrom(code, rg.labelRegion, i, hi, next).None?
    ensures UnknownTarget(code)
    decreases hi - i
  {
    if i < hi {
      if IsBranch(code[i]) && RegionOfTarget(code[i], rg.labelRegion).None? {
        if code[i].a.Lab? {
          NotALabel(code, rg, code[i].a.l, 0);
        }
        assert Target(code, code[i]).None?;
      } else {
        NoSuccessors(code, rg, i + 1, hi, next);
      }
    }
  }

  lemma {:induction false} NotALabel(code: seq<Inst>, rg: Regions, l: int, from: nat)
    requires RegionsOk(code, rg) && l !in rg.labelRegion
    ensures LabelAt(code, l, from).None?
    decreases |code| - from
  {
    if from < |code| {
      NotALabel(code, rg, l, from + 1);
    }
  }

  /** Regions, successors, uses and definitions, fixpoint; none only when a branch target is unknown. */
  method Analyse(code: seq<Inst>) returns (r: Option<Analysis>)
    requires code != [] && forall i | 0 <= i < |code| && IsLabel(code[i]) :: code[i].a.Lab?
    ensures r.Some? ==> Analysed(code, r.value) && LeastLive(code, r.value)
    ensures r.None? ==> UnknownTarget(code)
  {
    hide RegionsOk, Gathered, LiveIn, Solves;
    var rg := BuildRegions(code);
    var R := RegionCount(code, rg);
    var succs: seq<seq<nat>> := [];
    for k := 0 to R
      invariant |succs| == k
      invariant forall m: nat | m < k :: SuccsAt(code, rg, m, succs[m])
    {
      RegionBounds(code, rg, k);
      var s := RegionSuccessors(code, rg, k);
      if s.None? {
        NoSuccessors(code, rg, rg.begins[k], rg.ends[k], Next(rg, k));
        return None;
      }
      SuccessorsExist(code, rg, k, rg.begins[k], rg.ends[k]);
      succs := succs + [s.value];
    }
    var first := FirstRegion(code, rg);
    succs := succs + [[first]];
    var uses, defs := UsesAndDefs(code, rg);
    var f := Flow(succs, uses, defs);
    StreamFlowOk(code, rg, f);
    var ins, outs := Fixpoint(f);
    AnalysisSolved(code, rg, f, ins, outs);
    assert LiveExactly(f, ins);
    r := Some(Analysis(rg, succs, ins, outs));
  }

  method RegionCount(code: seq<Inst>, rg: Regions) returns (n: nat)
    requires RegionsOk(code, rg)
    ensures n == |rg.begins| == |rg.ends|
  {
    n := |rg.begins|;
  }

  ghost predicate SuccsAt(code: seq<Inst>, rg: Regions, k: nat, succ: seq<nat>) {
    && k < |rg.begins| == |rg.ends| && rg.begins[k] <= rg.ends[k] <= |code|
    && SuccFrom(code, rg.labelRegion, rg.begins[k], rg.ends[k], Next(rg, k)) == Some(succ)
    && forall j | 0 <= j < |succ| :: succ[j] < |rg.begins|
  }

  lemma StreamFlowOk(code: seq<Inst>, rg: Regions, f: Flow)
    requires RegionsOk(code, rg) && Gathered(code, rg, |code|, f.uses, f.defs)
    requires |f.succs| == |rg.begins| + 1 && (forall m: nat | m < |rg.begins| :: SuccsAt(code, rg, m, f.succs[m]))
    requires exists first: nat :: first < |rg.begins| && f.succs[|rg.begins|] == [first]
    ensures FlowOk(f)
  {
    forall k, j | 0 <= k < |f.succs| && 0 <= j < |f.succs[k]| ensures f.succs[k][j] < |f.succs| {
      if k < |rg.begins| {
        assert SuccsAt(code, rg, k, f.succs[k]);
      }
    }
  }

  lemma AnalysisSolved(code: seq<Inst>, rg: Regions, f: Flow, ins: seq<set<nat>>, outs: seq<set<nat>>)
    requires RegionsOk(code, rg) && Gathered(code, rg, |code|, f.uses, f.defs) && Solves(f, ins, outs)
    requires |f.succs| == |rg.begins| + 1 && (forall m: nat | m < |rg.begins| :: SuccsAt(code, rg, m, f.succs[m]))
    ensures Analysed(code, Analysis(rg, f.succs, ins, outs))
  {
    hide Before, OutOf, SuccFrom, Gathered, InOf;
    var an := Analysis(rg, f.succs, ins, outs);
    assert |ins| == |outs| == |f.succs| && |rg.begins| == |rg.ends|;
    forall k: nat | k < |rg.begins| ensures SolvedAt(code, an, k) {
      assert SuccsAt(code, rg, k, f.succs[k]);
      RegionSolved(code, rg, f, ins, outs, k);
    }
  }

  lemma RegionSolved(code: seq<Inst>, rg: Regions, f: Flow, ins: seq<set<nat>>, outs: seq<set<nat>>, k: nat)
    requires Gathered(code, rg, |code|, f.uses, f.defs) && Solves(f, ins, outs)
    requires k < |rg.begins| && |f.succs| == |rg.begins| + 1
    ensures rg.begins[k] <= rg.ends[k] <= |code| && |ins| == |outs| == |f.succs|
    ensures (forall j | 0 <= j < |f.succs[k]| :: f.succs[k][j] < |ins|) && outs[k] == OutOf(f.succs[k], ins)
    ensures ins[k] == Before(code, rg.begins[k], rg.ends[k], outs[k])
  {
    assert GatheredAt(code, rg, |code|, f.uses[k], f.defs[k], k);
    BeforeIsSummary(code, rg.begins[k], rg.ends[k], outs[k]);
  }

  // ---------------------------------------------------------------------
  // live sets along runs
  // ---------------------------------------------------------------------

  /** What is live before position p. */
  ghost function LiveAt(code: seq<Inst>, an: Analysis, p: nat): set<nat>
    requires Analysed(code, an)
  {
    if p >= |code| then {}
    else if p < an.rg.start then an.ins[0]
    else
      assert InRegion(code, an.rg.begins, an.rg.ends, p, an.rg.regionOf[p]);
      if IsLabel(code[p]) then an.ins[an.rg.regionOf[p]]
      else Before(code, p, RegionEnd(code, an, p), an.outs[an.rg.regionOf[p]])
  }

  ghost function RegionEnd(code: seq<Inst>, an: Analysis, p: nat): (r: nat)
    requires Analysed(code, an) && an.rg.start <= p < |code|
    ensures r <= |code|
  {
    assert InRegion(code, an.rg.begins, an.rg.ends, p, an.rg.regionOf[p]);
    assert SolvedAt(code, an, an.rg.regionOf[p]);
    an.rg.ends[an.rg.regionOf[p]]
  }

  /** What is live after position p, on whichever way control goes on. */
  ghost function LiveAfter(code: seq<Inst>, an: Analysis, p: nat): set<nat>
    requires Analysed(code, an) && p < |code|
  {
    if p < an.rg.start || IsLabel(code[p]) then LiveAt(code, an, p)
    else
      assert InRegion(code, an.rg.begins, an.rg.ends, p, an.rg.regionOf[p]);
      Before(code, p + 1, RegionEnd(code, an, p), an.outs[an.rg.regionOf[p]])
  }

  /** A position determines the region it is in. */
  lemma SameRegion(code: seq<Inst>, rg: Regions, p: nat, k: nat)
    requires RegionsOk(code, rg) && rg.start <= p < |code| && k < |rg.begins|
    requires if IsLabel(code[p]) then rg.begins[k] == p + 1 else rg.begins[k] <= p < rg.ends[k]
    ensures rg.regionOf[p] == k
  {
    var m := rg.regionOf[p];
    assert InRegion(code, rg.begins, rg.ends, p, m);
    RegionBounds(code, rg, k);
    RegionBounds(code, rg, m);
    if m < k {
      RegionsApart(code, rg, m, k);
    } else if k < m {
      RegionsApart(code, rg, k, m);
    }
  }

  /** Code has one division into regions. */
  lemma {:induction false} SameBounds(code: seq<Inst>, r1: Regions, r2: Regions, k: nat)
    requires RegionsOk(code, r1) && RegionsOk(code, r2) && k < |r1.begins|
    ensures k < |r2.begins| && r1.begins[k] == r2.begins[k] && r1.ends[k] == r2.ends[k]
    ensures k + 1 < |r1.begins| <==> k + 1 < |r2.begins|
  {
    if k > 0 {
      SameBounds(code, r1, r2, k - 1);
      RegionBounds(code, r1, k - 1);
      RegionBounds(code, r2, k - 1);
    }
    RegionBounds(code, r1, k);
    RegionBounds(code, r2, k);
  }

  lemma SameRegions(code: seq<Inst>, r1: Regions, r2: Regions)
    requires RegionsOk(code, r1) && RegionsOk(code, r2) && LabelsDistinct(code)
    ensures r1.start == r2.start && r1.begins == r2.begins && r1.ends == r2.ends
    ensures forall j: nat | r1.start <= j < |code| :: r1.regionOf[j] == r2.regionOf[j]
    ensures SameLookup(r1.labelRegion, r2.labelRegion)
  {
    hide RegionsOk;
    SameLength(code, r1, r2);
    forall k: nat | k < |r1.begins| ensures r1.begins[k] == r2.begins[k] && r1.ends[k] == r2.ends[k] {
      SameBounds(code, r1, r2, k);
    }
    forall j: nat | r1.start <= j < |code| ensures r1.regionOf[j] == r2.regionOf[j] {
      SameRegionOf(code, r1, r2, j);
    }
    SameLabels(code, r1, r2);
    SameLabels(code, r2, r1);
  }

  /** Both know the same labels, and where they lead. */
  ghost predicate SameLookup(lr1: map<int, nat>, lr2: map<int, nat>) {
    && (forall l: int | l in lr1 :: l in lr2 && lr1[l] == lr2[l])
    && (forall l: int | l in lr2 :: l in lr1 && lr2[l] == lr1[l])
  }

  lemma {:induction false} SameSuccessors(code: seq<Inst>, lr1: map<int, nat>, lr2: map<int, nat>, i: nat, hi: nat, next: Option<nat>)
    requires hi <= |code| && SameLookup(lr1, lr2)
    ensures SuccFrom(code, lr1, i, hi, next) == SuccFrom(code, lr2, i, hi, next)
    decreases hi - i
  {
    if i < hi {
      SameSuccessors(code, lr1, lr2, i + 1, hi, next);
    }
  }

  lemma SameLength(code: seq<Inst>, r1: Regions, r2: Regions)
    requires RegionsOk(code, r1) && RegionsOk(code, r2)
    ensures r1.start == r2.start && |r1.begins| == |r2.begins| == |r1.ends| == |r2.ends|
    ensures |r1.regionOf| == |r2.regionOf| == |code|
  {
    SameBounds(code, r1, r2, |r1.begins| - 1);
  }

  lemma SameRegionOf(code: seq<Inst>, r1: Regions, r2: Regions, j: nat)
    requires RegionsOk(code, r1) && RegionsOk(code, r2) && r1.begins == r2.begins && r1.ends == r2.ends && r1.start <= j < |code|
    ensures r1.regionOf[j] == r2.regionOf[j]
  {
    assert InRegion(code, r2.begins, r2.ends, j, r2.regionOf[j]);
    SameRegion(code, r1, j, r2.regionOf[j]);
  }

  lemma SameLabels(code: seq<Inst>, r1: Regions, r2: Regions)
    requires RegionsOk(code, r1) && RegionsOk(code, r2) && r1.begins == r2.begins && LabelsDistinct(code)
    ensures forall l: int | l in r1.labelRegion :: l in r2.labelRegion && r1.labelRegion[l] == r2.labelRegion[l]
  {
    forall l | l in r1.labelRegion ensures l in r2.labelRegion && r1.labelRegion[l] == r2.labelRegion[l] {
      var k := r1.labelRegion[l];
      assert Opens(code, r1.begins, l, k);
      var j := r1.begins[k] - 1;
      assert IsLabel(code[j]) && code[j].a == Lab(l);
      assert l in r2.labelRegion;
      var m := r2.labelRegion[l];
      assert Opens(code, r2.begins, l, m);
      assert r2.begins[m] - 1 == j;
      if k < m {
        RegionsApart(code, r1, k, m);
        RegionBounds(code, r1, k);
      } else if m < k {
        RegionsApart(code, r1, m, k);
        RegionBounds(code, r1, m);
      }
    }
  }

  /** Before a region's first instruction exactly its live-in set is live. */
  lemma LiveAtBegin(code: seq<Inst>, an: Analysis, k: nat)
    requires Analysed(code, an) && k < |an.rg.begins|
    ensures LiveAt(code, an, an.rg.begins[k]) <= an.ins[k]
  {
    var p := an.rg.begins[k];
    RegionBounds(code, an.rg, k);
    assert SolvedAt(code, an, k);
    if p < an.rg.ends[k] {
      StartsFirst(code, an.rg, k);
      SameRegion(code, an.rg, p, k);
    } else if k + 1 < |an.rg.begins| {
      FallsIntoNext(code, an, k);
    }
  }

  lemma StartsFirst(code: seq<Inst>, rg: Regions, k: nat)
    requires RegionsOk(code, rg) && k < |rg.begins|
    ensures rg.start <= rg.begins[k]
  {
    if k > 0 {
      RegionsApart(code, rg, 0, k);
      RegionBounds(code, rg, 0);
    }
  }

  /** The end of a region that control can fall through: the label there and what is live at it. */
  lemma FallsIntoNext(code: seq<Inst>, an: Analysis, k: nat)
    requires Analysed(code, an) && k + 1 < |an.rg.begins|
    requires var lo := an.rg.begins[k]; forall j | lo <= j < an.rg.ends[k] && j < |code| :: !code[j].op.Jmp? && !IsReturn(code[j])
    ensures an.rg.ends[k] < |code| && LiveAt(code, an, an.rg.ends[k]) <= an.outs[k]
  {
    RegionBounds(code, an.rg, k);
    assert SolvedAt(code, an, k);
    NextIsSucc(code, an.rg, k, an.rg.begins[k], an.rg.ends[k]);
    StartsFirst(code, an.rg, k);
    SameRegion(code, an.rg, an.rg.ends[k], k + 1);
    InsWithinOuts(code, an, k, k + 1);
  }

  lemma InsWithinOuts(code: seq<Inst>, an: Analysis, k: nat, t: nat)
    requires Analysed(code, an) && k < |an.rg.begins| && t in an.succs[k]
    ensures t < |an.ins| && an.ins[t] <= an.outs[k]
  {
    assert SolvedAt(code, an, k);
    var j :| 0 <= j < |an.succs[k]| && an.succs[k][j] == t;
  }

  lemma {:induction false} NextIsSucc(code: seq<Inst>, rg: Regions, k: nat, i: nat, hi: nat)
    requires hi <= |code| && k + 1 < |rg.begins| && SuccFrom(code, rg.labelRegion, i, hi, Next(rg, k)).Some?
    requires forall j | i <= j < hi :: !code[j].op.Jmp? && !IsReturn(code[j])
    ensures k + 1 in SuccFrom(code, rg.labelRegion, i, hi, Next(rg, k)).value
    decreases hi - i
  {
    if i < hi {
      NextIsSucc(code, rg, k, i + 1, hi);
    }
  }

  lemma {:induction false} TargetIsSucc(code: seq<Inst>, rg: Regions, k: nat, i: nat, p: nat, hi: nat)
    requires i <= p < hi <= |code| && SuccFrom(code, rg.labelRegion, i, hi, Next(rg, k)).Some? && IsBranch(code[p])
    requires forall j | i <= j < p :: !code[j].op.Jmp? && !IsReturn(code[j])
    ensures RegionOfTarget(code[p], rg.labelRegion).Some?
    ensures RegionOfTarget(code[p], rg.labelRegion).value in SuccFrom(code, rg.labelRegion, i, hi, Next(rg, k)).value
    decreases p - i
  {
    if i < p {
      TargetIsSucc(code, rg, k, i + 1, p, hi);
    }
  }

  /** Falling through an instruction. */
  lemma FallThrough(code: seq<Inst>, an: Analysis, p: nat)
    requires Analysed(code, an) && p < |code| && Inside(code, p) && !code[p].op.Jmp? && !IsReturn(code[p])
    ensures LiveAt(code, an, p + 1) <= LiveAfter(code, an, p)
  {
    if p < an.rg.start {
      LiveAtBegin(code, an, 0);
    } else {
      var k := an.rg.regionOf[p];
      assert InRegion(code, an.rg.begins, an.rg.ends, p, k);
      RegionBounds(code, an.rg, k);
      if IsLabel(code[p]) {
        LiveAtBegin(code, an, k);
      } else if p + 1 < an.rg.ends[k] {
        SameRegion(code, an.rg, p + 1, k);
      } else {
        EndFalls(code, an, p, k);
      }
    }
  }

  lemma EndFalls(code: seq<Inst>, an: Analysis, p: nat, k: nat)
    requires Analysed(code, an) && p < |code| && Inside(code, p) && !code[p].op.Jmp? && !IsReturn(code[p])
    requires k < |an.rg.begins| && k < |an.rg.ends| && k < |an.outs| && an.rg.begins[k] <= p < an.rg.ends[k] == p + 1
    ensures LiveAt(code, an, p + 1) <= an.outs[k]
  {
    hide LiveAt, Inside, Analysed;
    RegionBoundsOf(code, an, k);
    if k + 1 < |an.rg.begins| {
      InsideBack(code, an.rg.begins[k], p);
      FallsIntoNext(code, an, k);
    } else {
      NothingBehind(code, an, p + 1);
    }
  }

  lemma NothingBehind(code: seq<Inst>, an: Analysis, p: nat)
    requires Analysed(code, an) && p >= |code|
    ensures LiveAt(code, an, p) == {}
  {
  }

  lemma RegionBoundsOf(code: seq<Inst>, an: Analysis, k: nat)
    requires Analysed(code, an) && k < |an.rg.begins|
    ensures |an.rg.ends| == |an.rg.begins| && an.rg.begins[k] <= an.rg.ends[k] <= |code|
    ensures forall j | an.rg.begins[k] <= j < an.rg.ends[k] :: !IsLabel(code[j])
    ensures k + 1 == |an.rg.begins| ==> an.rg.ends[k] == |code|
  {
    RegionBounds(code, an.rg, k);
  }

  /** Taking a branch: what is live at its target was live at the end of its region. */
  lemma BranchTo(code: seq<Inst>, an: Analysis, p: nat) returns (k: nat)
    requires Analysed(code, an) && LabelsDistinct(code) && p < |code| && Inside(code, p) && IsBranch(code[p])
    requires Target(code, code[p]).Some?
    ensures k < |an.rg.begins| && k < |an.rg.ends| && k < |an.outs| && an.rg.begins[k] <= p < an.rg.ends[k] <= |code|
    ensures LiveAt(code, an, Target(code, code[p]).value) <= an.outs[k]
    ensures LiveAfter(code, an, p) == Before(code, p + 1, an.rg.ends[k], an.outs[k])
  {
    StartsWithLabel(code, an.rg);
    k := an.rg.regionOf[p];
    assert InRegion(code, an.rg.begins, an.rg.ends, p, k);
    RegionBounds(code, an.rg, k);
    assert SolvedAt(code, an, k);
    InsideBack(code, an.rg.begins[k], p);
    TargetIsSucc(code, an.rg, k, an.rg.begins[k], p, an.rg.ends[k]);
    var m := RegionOfTarget(code[p], an.rg.labelRegion).value;
    assert Opens(code, an.rg.begins, code[p].a.l, m);
    var t := Target(code, code[p]).value;
    assert t == an.rg.begins[m] - 1;
    if t < an.rg.start {
      StartsFirst(code, an.rg, m);
      if m > 0 {
        RegionsApart(code, an.rg, 0, m);
        RegionBounds(code, an.rg, 0);
      }
    } else {
      SameRegion(code, an.rg, t, m);
    }
    InsWithinOuts(code, an, k, m);
  }

  lemma StartsWithLabel(code: seq<Inst>, rg: Regions)
    requires RegionsOk(code, rg)
    ensures forall p | 0 <= p < rg.start && p < |code| :: IsLabel(code[p])
  {
  }

  // ---------------------------------------------------------------------
  // when the analysis finds everything that is needed
  // ---------------------------------------------------------------------

  function SlotUses(): Uses {
    Uses((i: Inst) => if SlotDef(i).None? && SlotUse(i).Some? then {SlotUse(i).value} else {},
         (i: Inst) => if SlotDef(i).Some? then {SlotDef(i).value} else {})
  }

  /** Every slot some path needs is in the live set. */
  ghost predicate FindsNeeds(code: seq<Inst>, an: Analysis)
    requires Analysed(code, an)
  {
    forall p: nat, s: nat | Inside(code, p) && Needed(SlotUses(), code, p, s) :: s in LiveAt(code, an, p)
  }

  /** From `from` to the next label, s is stored before it is read. */
  predicate StoredFirst(code: seq<Inst>, from: nat, s: nat)
    decreases |code| - from
  {
    from < |code| && !IsLabel(code[from])
    && (SlotDef(code[from]) == Some(s) || (SlotUse(code[from]) != Some(s) && StoredFirst(code, from + 1, s)))
  }

  /** No branch leads to where a slot is needed that the rest of the branch's region stores first. */
  ghost predicate HarmlessStores(code: seq<Inst>) {
    forall p: nat, t: nat, s: nat | BranchNeeds(SlotUses(), code, p, t, s) :: !StoredFirst(code, p + 1, s)
  }

  /** A slot live at the end of a region is live inside it unless the rest of the region stores it first. */
  lemma {:induction false} LiveUnlessStored(code: seq<Inst>, lo: nat, hi: nat, out: set<nat>, s: nat)
    requires lo <= hi <= |code| && (forall j | lo <= j < hi :: !IsLabel(code[j])) && (hi < |code| ==> IsLabel(code[hi]))
    ensures StoredFirst(code, lo, s) ==> s !in Before(code, lo, hi, out)
    ensures s in out && !StoredFirst(code, lo, s) ==> s in Before(code, lo, hi, out)
    decreases hi - lo
  {
    if lo < hi {
      BeforeStep(code, lo, hi, out);
      LiveUnlessStored(code, lo + 1, hi, out, s);
    }
  }

  /** The live sets hold everything needed exactly when no store after a branch hides a need from it. */
  lemma FindsNeedsIff(code: seq<Inst>, an: Analysis)
    requires Analysed(code, an) && LabelsDistinct(code)
    ensures FindsNeeds(code, an) <==> HarmlessStores(code)
  {
    hide Analysed, LiveAt, LiveAfter, Inside, Needed, StoredFirst, SlotUses;
    if FindsNeeds(code, an) {
      forall p: nat, t: nat, s: nat | BranchNeeds(SlotUses(), code, p, t, s) ensures !StoredFirst(code, p + 1, s) {
        NeedOfBranch(code, an, p, t, s);
      }
    }
    if HarmlessStores(code) {
      forall p: nat, s: nat | Inside(code, p) && Needed(SlotUses(), code, p, s) ensures s in LiveAt(code, an, p) {
        NeedIsFound(code, an, p, s);
      }
    }
  }

  lemma NeedOfBranch(code: seq<Inst>, an: Analysis, p: nat, t: nat, s: nat)
    requires Analysed(code, an) && LabelsDistinct(code) && FindsNeeds(code, an) && BranchNeeds(SlotUses(), code, p, t, s)
    ensures !StoredFirst(code, p + 1, s)
  {
    NeedsBefore(SlotUses(), code, p, s);
    assert Succeeds(code, p, t);
    assert s in LiveAt(code, an, p);
    var k := BranchTo(code, an, p);
    RegionBounds(code, an.rg, k);
    AtInstruction(code, an, p);
    LiveUnlessStored(code, p + 1, an.rg.ends[k], an.outs[k], s);
  }

  lemma NeedIsFound(code: seq<Inst>, an: Analysis, p: nat, s: nat)
    requires Analysed(code, an) && LabelsDistinct(code) && HarmlessStores(code)
    requires Inside(code, p) && Needed(SlotUses(), code, p, s)
    ensures s in LiveAt(code, an, p)
  {
    var n: nat :| NeededWithin(SlotUses(), code, p, s, n);
    NeedWithinIsFound(code, an, p, s, n);
  }

  lemma {:induction false} NeedWithinIsFound(code: seq<Inst>, an: Analysis, p: nat, s: nat, n: nat)
    requires Analysed(code, an) && LabelsDistinct(code) && HarmlessStores(code)
    requires Inside(code, p) && NeededWithin(SlotUses(), code, p, s, n)
    ensures s in LiveAt(code, an, p)
    decreases n
  {
    if !IsLabel(code[p]) {
      AtInstruction(code, an, p);
    }
    if IsLabel(code[p]) || s !in SlotUses().reading(code[p]) {
      var q :| Succeeds(code, p, q) && NeededWithin(SlotUses(), code, q, s, n - 1);
      InsideStays(code, p, q);
      NeedWithinIsFound(code, an, q, s, n - 1);
      if q == p + 1 && !code[p].op.Jmp? {
        FallThrough(code, an, p);
      } else {
        assert BranchNeeds(SlotUses(), code, p, q, s);
        var k := BranchTo(code, an, p);
        RegionBounds(code, an.rg, k);
        LiveUnlessStored(code, p + 1, an.rg.ends[k], an.outs[k], s);
      }
    }
  }

  /** Inside a region one instruction's transfer separates the live sets around it. */
  lemma AtInstruction(code: seq<Inst>, an: Analysis, p: nat)
    requires Analysed(code, an) && p < |code| && !IsLabel(code[p])
    ensures an.rg.start <= p && LiveAt(code, an, p) == Transfer(code[p], LiveAfter(code, an, p))
  {
    var k := an.rg.regionOf[p];
    assert InRegion(code, an.rg.begins, an.rg.ends, p, k);
    assert SolvedAt(code, an, k);
    BeforeStep(code, p, an.rg.ends[k], an.outs[k]);
  }

  /** No slot is defined after a branch before the next label. */
  ghost predicate NoDefAfterBranch(code: seq<Inst>) {
    forall p, q | 0 <= p < q < |code| && IsBranch(code[p]) && SlotDef(code[q]).Some? ::
      exists l :: p < l < q && IsLabel(code[l])
  }

  /** In particular, stores only before branches are harmless. */
  lemma NoDefIsHarmless(code: seq<Inst>)
    requires NoDefAfterBranch(code)
    ensures HarmlessStores(code)
  {
    forall p: nat, t: nat, s: nat | BranchNeeds(SlotUses(), code, p, t, s) ensures !StoredFirst(code, p + 1, s) {
      NothingStored(code, p, p + 1, s);
    }
  }

  lemma {:induction false} NothingStored(code: seq<Inst>, p: nat, from: nat, s: nat)
    requires NoDefAfterBranch(code) && p < from && p < |code| && IsBranch(code[p]) && forall l | p < l < from && l < |code| :: !IsLabel(code[l])
    ensures !StoredFirst(code, from, s)
    decreases |code| - from
  {
    if from < |code| && !IsLabel(code[from]) {
      NothingStored(code, p, from + 1, s);
    }
  }
}
