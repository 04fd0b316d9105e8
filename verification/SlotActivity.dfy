/** The exact positions at which each slot is active, and the intervals they make up. */
module SlotActivity {
  import opened Options
  import opened SlotCode
  import opened SlotLiveness

  /** Slots that carry a value across position p, or are touched there. */
  ghost function Busy(code: seq<Inst>, an: Analysis, p: nat): set<nat>
    requires Analysed(code, an) && p < |code|
  {
    LiveAfter(code, an, p) + LiveAt(code, an, p) + Touched(code[p])
  }

  /** The record agrees with the analysis at every instruction, and at labels nothing is active. */
  ghost predicate Recorded(code: seq<Inst>, an: Analysis, busy: seq<set<nat>>) {
    && Analysed(code, an) && |busy| == |code|
    && (forall p: nat | an.rg.start <= p < |code| && !IsLabel(code[p]) :: busy[p] == Busy(code, an, p))
    && QuietLabels(code, an.rg, busy)
  }

  ghost predicate QuietLabels(code: seq<Inst>, rg: Regions, busy: seq<set<nat>>) {
    forall p: nat | rg.start <= p < |code| && p < |busy| && IsLabel(code[p]) :: busy[p] == {}
  }

  /** Every slot's first and last activity, where it has any. */
  ghost predicate Hulls(busy: seq<set<nat>>, first: seq<Option<nat>>, last: seq<nat>) {
    |first| == |last| && forall s: nat | s < |first| :: HullOf(busy, first[s], last[s], s)
  }

  ghost predicate HullOf(busy: seq<set<nat>>, first: Option<nat>, last: nat, s: nat) {
    && (forall p: nat | p < |busy| && s in busy[p] :: first.Some? && first.value <= p <= last)
    && (if first.Some? then first.value < |busy| && last < |busy| && s in busy[first.value] && s in busy[last] else last == 0)
  }

  function Raise(last: seq<nat>, live: set<nat>, i: nat): (r: seq<nat>)
    ensures |r| == |last| && forall s | 0 <= s < |last| :: r[s] == if s in live && last[s] < i then i else last[s]
  {
    seq(|last|, s requires 0 <= s < |last| => if s in live && last[s] < i then i else last[s])
  }

  function Lower(first: seq<Option<nat>>, live: set<nat>, i: nat): (r: seq<Option<nat>>)
    ensures |r| == |first|
    ensures forall s | 0 <= s < |first| :: r[s] == if s in live && (first[s].None? || first[s].value > i) then Some(i) else first[s]
  {
    seq(|first|, s requires 0 <= s < |first| => if s in live && (first[s].None? || first[s].value > i) then Some(i) else first[s])
  }

  function Single(s: Option<nat>): set<nat> {
    if s.Some? then {s.value} else {}
  }

  /** What the walk marks at position i, from the live set after it. */
  function Marked(inst: Inst, live: set<nat>): set<nat> {
    live + Touched(inst) + Transfer(inst, live)
  }

  lemma MarkedHulls(busy: seq<set<nat>>, first: seq<Option<nat>>, last: seq<nat>, i: nat, inst: Inst, live: set<nat>)
    requires Hulls(busy, first, last) && i < |busy|
    ensures var defs := if SlotDef(inst).Some? then Single(SlotDef(inst)) else {};
            Hulls(busy[i := busy[i] + Marked(inst, live)],
                  Lower(Lower(first, defs, i), Transfer(inst, live), i),
                  Raise(Raise(last, live, i), Touched(inst), i))
  {
    var defs := if SlotDef(inst).Some? then Single(SlotDef(inst)) else {};
    var busy' := busy[i := busy[i] + Marked(inst, live)];
    var first' := Lower(Lower(first, defs, i), Transfer(inst, live), i);
    var last' := Raise(Raise(last, live, i), Touched(inst), i);
    forall s: nat | s < |first'| ensures HullOf(busy', first'[s], last'[s], s) {
      assert HullOf(busy, first[s], last[s], s);
      forall p: nat | p < |busy'| && s in busy'[p] ensures first'[s].Some? && first'[s].value <= p <= last'[s] {
        assert p != i ==> s in busy[p];
      }
    }
  }

  /** What the walk of lo..hi marks at p. */
  function Walked(code: seq<Inst>, lo: nat, hi: nat, out: set<nat>, p: nat): set<nat>
    requires hi <= |code|
  {
    if lo <= p < hi then Marked(code[p], Before(code, p + 1, hi, out)) else {}
  }

  ghost predicate WalkedTo(code: seq<Inst>, lo: nat, hi: nat, out: set<nat>, busy0: seq<set<nat>>, busy: seq<set<nat>>)
    requires hi <= |code|
  {
    |busy| == |busy0| && forall p: nat | p < |busy| :: busy[p] == busy0[p] + Walked(code, lo, hi, out, p)
  }

  lemma WalkStep(code: seq<Inst>, i: nat, hi: nat, out: set<nat>, busy0: seq<set<nat>>, busy: seq<set<nat>>)
    requires i < hi <= |code| == |busy0| && WalkedTo(code, i + 1, hi, out, busy0, busy)
    ensures WalkedTo(code, i, hi, out, busy0, busy[i := busy[i] + Marked(code[i], Before(code, i + 1, hi, out))])
  {
    hide Marked, Before;
  }

  /** Walks one region backwards from its live-out set. */
  method WalkRegion(code: seq<Inst>, lo: nat, hi: nat, out: set<nat>, busy0: seq<set<nat>>, first0: seq<Option<nat>>, last0: seq<nat>)
    returns (busy: seq<set<nat>>, first: seq<Option<nat>>, last: seq<nat>)
    requires lo <= hi <= |code| == |busy0| && Hulls(busy0, first0, last0)
    ensures |busy| == |busy0| && |first| == |first0| && Hulls(busy, first, last)
    ensures WalkedTo(code, lo, hi, out, busy0, busy)
  {
    busy, first, last := busy0, first0, last0;
    assert WalkedTo(code, hi, hi, out, busy0, busy);
    assert Before(code, hi, hi, out) == out;
    hide Hulls, Marked, Before, Transfer, Touched, WalkedTo;
    var live := out;
    var i := hi;
    while i > lo
      invariant lo <= i <= hi && |busy| == |busy0| && |first| == |first0| && Hulls(busy, first, last)
      invariant live == Before(code, i, hi, out) && WalkedTo(code, i, hi, out, busy0, busy)
    {
      i := i - 1;
      BeforeStep(code, i, hi, out);
      MarkedHulls(busy, first, last, i, code[i], live);
      WalkStep(code, i, hi, out, busy0, busy);
      busy := busy[i := busy[i] + Marked(code[i], live)];
      last := Raise(Raise(last, live, i), Touched(code[i]), i);
      live := Transfer(code[i], live);
      first := Lower(Lower(first, Single(SlotDef(code[i])), i), live, i);
    }
  }

  /** The record of regions from k on. */
  ghost predicate RecordedFrom(code: seq<Inst>, an: Analysis, busy: seq<set<nat>>, k: nat) {
    && Analysed(code, an) && |busy| == |code|
    && (forall p: nat | an.rg.start <= p < |code| && !IsLabel(code[p]) :: RecordedAt(code, an, busy[p], p, k))
    && QuietLabels(code, an.rg, busy)
  }

  ghost predicate RecordedAt(code: seq<Inst>, an: Analysis, busy: set<nat>, p: nat, k: nat)
    requires Analysed(code, an) && an.rg.start <= p < |code|
  {
    busy == if an.rg.regionOf[p] >= k then Busy(code, an, p) else {}
  }

  lemma RegionRecorded(code: seq<Inst>, an: Analysis, busy: seq<set<nat>>, busy': seq<set<nat>>, k: nat)
    requires RecordedFrom(code, an, busy, k + 1) && k < |an.rg.begins| && k < |an.rg.ends| && |busy'| == |busy|
    requires an.rg.begins[k] <= an.rg.ends[k] <= |code|
    requires forall p: nat | p < |busy| ::
               busy'[p] == busy[p] + if an.rg.begins[k] <= p < an.rg.ends[k] then Marked(code[p], Before(code, p + 1, an.rg.ends[k], an.outs[k])) else {}
    ensures RecordedFrom(code, an, busy', k)
  {
    hide Busy, Marked, Before, Analysed;
    LabelsStayQuiet(code, an, busy, busy', k);
    forall p: nat | an.rg.start <= p < |code| && !IsLabel(code[p]) ensures RecordedAt(code, an, busy'[p], p, k) {
      PositionRecorded(code, an, busy[p], busy'[p], p, k);
    }
  }

  lemma LabelsStayQuiet(code: seq<Inst>, an: Analysis, busy: seq<set<nat>>, busy': seq<set<nat>>, k: nat)
    requires Analysed(code, an) && |busy| == |busy'| == |code| && QuietLabels(code, an.rg, busy)
    requires k < |an.rg.begins| && k < |an.rg.ends| && an.rg.begins[k] <= an.rg.ends[k] <= |code|
    requires forall p: nat | p < |busy| && !(an.rg.begins[k] <= p < an.rg.ends[k]) :: busy'[p] == busy[p]
    ensures QuietLabels(code, an.rg, busy')
  {
    RegionBounds(code, an.rg, k);
    hide RegionsOk;
  }

  lemma PositionRecorded(code: seq<Inst>, an: Analysis, was: set<nat>, now: set<nat>, p: nat, k: nat)
    requires Analysed(code, an) && an.rg.start <= p < |code| && !IsLabel(code[p]) && RecordedAt(code, an, was, p, k + 1)
    requires k < |an.rg.begins| && k < |an.rg.ends| && an.rg.begins[k] <= an.rg.ends[k] <= |code|
    requires now == was + if an.rg.begins[k] <= p < an.rg.ends[k] then Marked(code[p], Before(code, p + 1, an.rg.ends[k], an.outs[k])) else {}
    ensures RecordedAt(code, an, now, p, k)
  {
    hide Busy, Marked, Before;
    if an.rg.begins[k] <= p < an.rg.ends[k] {
      MarkedIsBusy(code, an, p, k);
    } else {
      ElsewhereIsOther(code, an, p, k);
    }
  }

  /** Inside its region the walk marks exactly what is active. */
  lemma MarkedIsBusy(code: seq<Inst>, an: Analysis, p: nat, k: nat)
    requires Analysed(code, an) && an.rg.start <= p < |code| && !IsLabel(code[p])
    requires k < |an.rg.begins| && k < |an.rg.ends| && an.rg.begins[k] <= p < an.rg.ends[k] <= |code|
    ensures an.rg.regionOf[p] == k && Marked(code[p], Before(code, p + 1, an.rg.ends[k], an.outs[k])) == Busy(code, an, p)
  {
    SameRegion(code, an.rg, p, k);
    BeforeStep(code, p, an.rg.ends[k], an.outs[k]);
  }

  lemma ElsewhereIsOther(code: seq<Inst>, an: Analysis, p: nat, k: nat)
    requires Analysed(code, an) && an.rg.start <= p < |code| && !IsLabel(code[p])
    requires k < |an.rg.begins| && k < |an.rg.ends| && !(an.rg.begins[k] <= p < an.rg.ends[k])
    ensures an.rg.regionOf[p] != k
  {
    assert InRegion(code, an.rg.begins, an.rg.ends, p, an.rg.regionOf[p]);
  }

  /** The whole record, last region first. (The opening label, if any, forms a region of its own.) */
  method Activity(code: seq<Inst>, an: Analysis, slots: nat)
    returns (busy: seq<set<nat>>, first: seq<Option<nat>>, last: seq<nat>)
    requires Analysed(code, an)
    ensures Recorded(code, an, busy) && Hulls(busy, first, last) && |first| == slots
  {
    hide Analysed, LiveAt, LiveAfter, Hulls;
    busy, first, last := NothingRecorded(code, slots);
    var R := Regions(code, an);
    busy, first, last := WalkPrologue(code, an, busy, first, last);
    var k := R;
    while k > 0
      invariant 0 <= k <= R == |an.rg.begins| == |an.rg.ends| && |an.outs| == R + 1
      invariant RecordedFrom(code, an, busy, k) && Hulls(busy, first, last) && |first| == slots
    {
      k := k - 1;
      Bounds(code, an, k);
      ghost var busy0 := busy;
      busy, first, last := WalkRegion(code, an.rg.begins[k], an.rg.ends[k], an.outs[k], busy, first, last);
      RegionRecorded(code, an, busy0, busy, k);
    }
    AllRecorded(code, an, busy);
  }

  lemma Bounds(code: seq<Inst>, an: Analysis, k: nat)
    requires Analysed(code, an) && k < |an.rg.begins|
    ensures k < |an.rg.ends| && an.rg.begins[k] <= an.rg.ends[k] <= |code|
  {
    RegionBounds(code, an.rg, k);
  }

  lemma AllRecorded(code: seq<Inst>, an: Analysis, busy: seq<set<nat>>)
    requires RecordedFrom(code, an, busy, 0)
    ensures Recorded(code, an, busy)
  {
    forall p: nat | an.rg.start <= p < |code| && !IsLabel(code[p]) ensures busy[p] == Busy(code, an, p) {
      assert RecordedAt(code, an, busy[p], p, 0);
    }
  }

  method Regions(code: seq<Inst>, an: Analysis) returns (n: nat)
    requires Analysed(code, an)
    ensures n == |an.rg.begins| == |an.rg.ends| && |an.outs| == n + 1
  {
    n := |an.rg.begins|;
  }

  method NothingRecorded(code: seq<Inst>, slots: nat) returns (busy: seq<set<nat>>, first: seq<Option<nat>>, last: seq<nat>)
    ensures |busy| == |code| && (forall p: nat | p < |busy| :: busy[p] == {})
    ensures Hulls(busy, first, last) && |first| == slots
  {
    busy, first, last := seq(|code|, _ => {}), seq(slots, _ => None), seq(slots, _ => 0);
  }

  method WalkPrologue(code: seq<Inst>, an: Analysis, busy0: seq<set<nat>>, first0: seq<Option<nat>>, last0: seq<nat>)
    returns (busy: seq<set<nat>>, first: seq<Option<nat>>, last: seq<nat>)
    requires Analysed(code, an) && |busy0| == |code| && (forall p: nat | p < |busy0| :: busy0[p] == {}) && Hulls(busy0, first0, last0)
    ensures RecordedFrom(code, an, busy, |an.rg.begins|) && Hulls(busy, first, last) && |first| == |first0|
  {
    busy, first, last := WalkRegion(code, 0, an.rg.start, an.outs[|an.rg.begins|], busy0, first0, last0);
    forall p: nat | an.rg.start <= p < |code| && !IsLabel(code[p]) ensures RecordedAt(code, an, busy[p], p, |an.rg.begins|) {
      assert InRegion(code, an.rg.begins, an.rg.ends, p, an.rg.regionOf[p]);
    }
  }

  // ---------------------------------------------------------------------
  // intervals
  // ---------------------------------------------------------------------

  ghost predicate In(ivs: seq<(nat, nat)>, p: nat) {
    exists i :: 0 <= i < |ivs| && ivs[i].0 <= p <= ivs[i].1
  }

  /** The maximal runs of positions at which the slot is active: exactly those, in order, with gaps. */
  method Runs(busy: seq<set<nat>>, s: nat) returns (gens: seq<(nat, nat)>)
    ensures forall p: nat :: In(gens, p) <==> p < |busy| && s in busy[p]
    ensures forall i | 0 <= i < |gens| - 1 :: gens[i].1 + 1 < gens[i + 1].0
    ensures forall i | 0 <= i < |gens| :: gens[i].0 <= gens[i].1
  {
    gens := [];
    var i := 0;
    while i < |busy|
      invariant 0 <= i <= |busy|
      invariant forall p: nat :: In(gens, p) <==> p < i && s in busy[p]
      invariant forall j | 0 <= j < |gens| - 1 :: gens[j].1 + 1 < gens[j + 1].0
      invariant forall j | 0 <= j < |gens| :: gens[j].0 <= gens[j].1 < i && (gens[j].1 + 1 == i ==> i == |busy| || s !in busy[i])
    {
      if s !in busy[i] {
        i := i + 1;
        continue;
      }
      var lo := i;
      while i < |busy| && s in busy[i]
        invariant lo <= i <= |busy| && forall p | lo <= p < i :: s in busy[p]
        decreases |busy| - i
      {
        i := i + 1;
      }
      RunAdded(gens, lo, i - 1);
      gens := gens + [(lo, i - 1)];
    }
  }

  lemma RunAdded(gens: seq<(nat, nat)>, lo: nat, hi: nat)
    ensures forall p: nat :: In(gens + [(lo, hi)], p) <==> In(gens, p) || lo <= p <= hi
  {
    var more := gens + [(lo, hi)];
    forall p: nat ensures In(more, p) <==> In(gens, p) || lo <= p <= hi {
      if lo <= p <= hi {
        assert more[|gens|].0 <= p <= more[|gens|].1;
      }
      if In(gens, p) {
        var i :| 0 <= i < |gens| && gens[i].0 <= p <= gens[i].1;
        assert more[i].0 <= p <= more[i].1;
      }
    }
  }

  /** Room for the position bitmap; beyond it the hull stands in for the runs. */
  const BITMAP_BUDGET: nat := 0x800000

  /** Every active position of the slot is in one of the intervals. */
  ghost predicate Covers(ivs: seq<(nat, nat)>, busy: seq<set<nat>>, s: nat) {
    forall p: nat | p < |busy| && s in busy[p] :: In(ivs, p)
  }

  ghost predicate Active(busy: seq<set<nat>>, s: nat) {
    exists p: nat :: p < |busy| && s in busy[p]
  }

  /** The intervals are the active positions of the slot, no more and no less. */
  ghost predicate Exact(ivs: seq<(nat, nat)>, busy: seq<set<nat>>, s: nat) {
    && (forall i | 0 <= i < |ivs| :: ivs[i].0 <= ivs[i].1)
    && forall p: nat :: In(ivs, p) <==> p < |busy| && s in busy[p]
  }

  method Intervals(busy: seq<set<nat>>, first: seq<Option<nat>>, last: seq<nat>, s: nat) returns (ivs: seq<(nat, nat)>)
    requires Hulls(busy, first, last) && s < |first|
    ensures Covers(ivs, busy, s)
    ensures |first| * |busy| <= BITMAP_BUDGET && Active(busy, s) ==> Exact(ivs, busy, s)
  {
    if |first| * |busy| <= BITMAP_BUDGET {
      ivs := Runs(busy, s);
      if ivs != [] {
        return;
      }
      forall p: nat | p < |busy| ensures s !in busy[p] {
        assert !In(ivs, p);
      }
    }
    var from := if first[s].Some? then first[s].value else last[s];
    ivs := [(from, last[s])];
    assert HullOf(busy, first[s], last[s], s);
    forall p: nat | p < |busy| && s in busy[p] ensures In(ivs, p) {
      assert ivs[0].0 <= p <= ivs[0].1;
    }
  }
}
