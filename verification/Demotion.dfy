/** Selected ranges that the allocator demotes after all: one that crosses a call, and one of no length; and when a
    range that crosses a call is safe. */
module Demotion {
  import opened Options
  import opened Sums
  import opened Selection
  import opened Ralloc
  import opened Hybrid

  // ---------------------------------------------------------------------
  // where everything fits, everything is selected
  // ---------------------------------------------------------------------

  function Ones(n: nat): (r: seq<int>)
    ensures |r| == n && forall k | 0 <= k < n :: r[k] == 1
  {
    seq(n, _ => 1)
  }

  lemma {:induction false} PickAll(vs: seq<VReg>, x: seq<int>)
    requires x == Ones(|vs|)
    ensures Pick(vs, x) == vs
  {
    if vs != [] {
      var m := |vs| - 1;
      assert x[..m] == Ones(m);
      PickAll(vs[..m], x[..m]);
      assert vs == vs[..m] + [vs[m]];
    }
  }

  lemma AllFit(vs: seq<VReg>, lo: nat, hi: nat, caps: seq<nat>, sel: seq<VReg>)
    requires InWindow(vs, lo, hi) && lo <= hi && |caps| == hi - lo + 1 && forall k | 0 <= k < |vs| :: lo <= StartOf(vs[k])
    requires (forall k | 0 <= k < |vs| :: vs[k].weight > 0) && forall i | 0 <= i < |caps| :: Occ(vs, lo + i) <= caps[i]
    requires ExactSelection(vs, lo, caps, sel)
    ensures sel == vs
  {
    var spans, y := SpansOf(vs, lo), Ones(|vs|);
    PickAll(vs, y);
    AllFeasible(vs, lo, hi, caps);
    hide Feasible, InWindow, Occ, SpansOf, TotalWeight, Pick;
    var x :| |x| == |vs| && Optimal(spans, caps, x) && sel == Pick(vs, x);
    AllMarked(vs, lo, caps, x);
  }

  lemma AllFeasible(vs: seq<VReg>, lo: nat, hi: nat, caps: seq<nat>)
    requires InWindow(vs, lo, hi) && lo <= hi && |caps| == hi - lo + 1 && forall k | 0 <= k < |vs| :: lo <= StartOf(vs[k])
    requires forall i | 0 <= i < |caps| :: Occ(vs, lo + i) <= caps[i]
    ensures Feasible(SpansOf(vs, lo), caps, Ones(|vs|))
  {
    var spans, y := SpansOf(vs, lo), Ones(|vs|);
    AllInModel(vs, lo, hi);
    hide Occ, Pick, InWindow, SpansOf, Covered, InModel;
    forall p | 0 <= p < |caps| ensures Covered(spans, y, p) <= caps[p] {
      CoveredByAll(vs, lo, p + lo);
    }
  }

  lemma CoveredByAll(vs: seq<VReg>, lo: nat, p: int)
    requires forall k | 0 <= k < |vs| :: lo <= StartOf(vs[k])
    ensures Covered(SpansOf(vs, lo), Ones(|vs|), p - lo) == Occ(vs, p)
  {
    PickAll(vs, Ones(|vs|));
    PickOccupies(vs, lo, Ones(|vs|), p);
  }

  lemma AllInModel(vs: seq<VReg>, lo: nat, hi: nat)
    requires InWindow(vs, lo, hi) && lo <= hi && forall k | 0 <= k < |vs| :: lo <= StartOf(vs[k])
    ensures forall k | 0 <= k < |vs| :: InModel(SpansOf(vs, lo)[k], hi - lo + 1)
  {
  }

  lemma AllMarked(vs: seq<VReg>, lo: nat, caps: seq<nat>, x: seq<int>)
    requires (forall k | 0 <= k < |vs| :: lo <= StartOf(vs[k])) && |x| == |vs| && Optimal(SpansOf(vs, lo), caps, x)
    requires (forall k | 0 <= k < |vs| :: vs[k].weight > 0) && Feasible(SpansOf(vs, lo), caps, Ones(|vs|))
    ensures x == Ones(|vs|)
  {
    var spans, y := SpansOf(vs, lo), Ones(|vs|);
    var wx, wy := WeightTerms(spans, x), WeightTerms(spans, y);
    assert TotalWeight(spans, y) <= TotalWeight(spans, x);
    forall k | 0 <= k < |wx| ensures wx[k] <= wy[k] {
      assert x[k] == 0 || x[k] == 1;
    }
    SumAtMost(wx, wy);
    forall k | 0 <= k < |x| ensures x[k] == y[k] {
      assert wx[k] == wy[k] && (x[k] == 0 || x[k] == 1);
    }
  }

  lemma OccOne(v: VReg, p: int)
    ensures Occ([v], p) == if Occupies(v, p) then 1 else 0
  {
    assert [v][..0] == [];
  }

  lemma OccTwo(v: VReg, w: VReg, p: int)
    ensures Occ([v, w], p) == (if Occupies(v, p) then 1 else 0) + if Occupies(w, p) then 1 else 0
  {
    assert [v, w][..1] == [v];
    OccOne(v, p);
  }

  // ---------------------------------------------------------------------
  // a range that crosses a call
  // ---------------------------------------------------------------------

  /** One callee-saved and one caller-saved register, a long range that crosses no call and a short one that does. */
  function CrossingProblem(): Problem {
    Problem([Long(), Crossing()], [], [TwoBanks()], false)
  }

  function TwoBanks(): seq<Bank> {
    [Bank([0], true), Bank([1], false)]
  }

  function Long(): VReg {
    VReg(0, 0, 1, false, 0, 10, true, [])
  }

  function Crossing(): VReg {
    VReg(1, 0, 1, true, 1, 5, true, [])
  }

  lemma TwoBankCounts()
    ensures CountRegs(TwoBanks(), true) == 1 && CountRegs(TwoBanks(), false) == 2
  {
    var banks := TwoBanks();
    var one := banks[..1];
    assert banks[..|banks| - 1] == one && one[0] == banks[0] && one[..|one| - 1] == [];
    assert CountRegs(one, true) == 1 && CountRegs(one, false) == 1;
  }

  lemma CrossingLists()
    ensures CrossingRanges(CrossingProblem(), 0) == [Crossing()] && ClassRanges(CrossingProblem().vregs, 0, false) == [Long()]
  {
    TwoBankCounts();
    ClassOfTwo(Long(), Crossing(), true);
    ClassOfTwo(Long(), Crossing(), false);
  }

  lemma ClassOfTwo(v: VReg, w: VReg, crossing: bool)
    requires v.cls == w.cls == 0
    ensures ClassRanges([v, w], 0, crossing) == (if v.crossesCall == crossing then [v] else []) + if w.crossesCall == crossing then [w] else []
  {
    var vs := [v, w];
    assert vs[..1] == [v] && [v][..0] == [];
    assert ClassRanges([v], 0, crossing) == if v.crossesCall == crossing then [v] else [];
  }

  lemma CrossingIsWellFormed()
    ensures WellFormed(CrossingProblem()) && ProperClass(CrossingProblem(), 0)
  {
  }

  /** Both stages select their range, and the repair has nothing to add. */
  lemma BothSelected(st: Stages)
    requires Staged(CrossingProblem(), 0, st)
    ensures st.kept == [Crossing()] && st.b == [Long()]
  {
    CrossingLists();
    TwoBankCounts();
    StagesAlone(st.lo, st.hi, st.a, st.b);
    OnlyOne(st.kept, Crossing());
  }

  lemma StagesAlone(lo: nat, hi: nat, a: seq<VReg>, b: seq<VReg>)
    requires lo <= hi && InWindow([Crossing()], lo, hi) && InWindow([Long()], lo, hi)
    requires ExactSelection([Crossing()], lo, Constant(hi - lo + 1, 1), a)
    requires ExactSelection([Long()], lo, Residual(2, a, lo, hi), b)
    ensures a == [Crossing()] && b == [Long()]
  {
    hide ExactSelection;
    forall p ensures Occ([Crossing()], p) <= 1 && Occ([Long()], p) <= 1 {
      OccOne(Crossing(), p);
      OccOne(Long(), p);
    }
    AllFit([Crossing()], lo, hi, Constant(hi - lo + 1, 1), a);
    AllFit([Long()], lo, hi, Residual(2, a, lo, hi), b);
  }

  lemma OnlyOne(vs: seq<VReg>, v: VReg)
    requires [v] <= vs && DistinctIds(vs) && forall w | w in vs :: w == v
    ensures vs == [v]
  {
    forall k | 0 <= k < |vs| ensures vs[k] == v {
      assert vs[k] in vs;
    }
    assert |vs| > 1 ==> vs[0].id != vs[1].id;
  }

  /** The scan meets the long range first, which takes the callee-saved register. */
  lemma ScanDemotes()
    ensures var board := Scan(TwoBanks(), false, map[], [Long(), Crossing()]);
            Long().id in board.regOf && Crossing().id !in board.regOf
  {
    var banks, vs := TwoBanks(), [Long(), Crossing()];
    LongTakesTheCalleeSaved();
    var first := Scan(banks, false, map[], [Long()]);
    hide Scan;
    var slots: Slots := Expire(first.slots, Crossing());
    assert slots[0][0].active;
    assert FindSlot(slots, BankOrder(banks, false, Crossing())).None?;
    ScanOfTwo(banks, Long(), Crossing());
  }

  lemma ScanOfTwo(banks: seq<Bank>, v: VReg, w: VReg)
    ensures Scan(banks, false, map[], [v, w]) == Step(banks, false, Scan(banks, false, map[], [v]), w)
  {
    assert [v, w][..1] == [v];
    hide Step;
  }

  lemma SortTwo(v: VReg, w: VReg)
    requires ScanBefore(v, w) && !ScanBefore(w, v)
    ensures SortBy(ScanBefore, [v, w]) == [v, w] && SortBy(ScanBefore, [w, v]) == [v, w]
  {
    hide Occ, DistinctIds;
    SortOne(v);
    SortOne(w);
    assert [v, w][..1] == [v] && [w, v][..1] == [w];
    assert InsertBy(ScanBefore, [v][1..], w) == [w];
  }

  lemma SortOne(v: VReg)
    ensures SortBy(ScanBefore, [v]) == [v]
  {
    hide Occ, DistinctIds;
    assert [v][..0] == [];
  }

  lemma LongTakesTheCalleeSaved()
    ensures var board := Scan(TwoBanks(), false, map[], [Long()]);
            Shaped(TwoBanks(), board.slots) && board.slots[0][0] == RegUse(0, 10, true) && board.regOf == map[0 := 0]
  {
    var banks := TwoBanks();
    assert [Long()][..0] == [];
    var slots: Slots := Expire(FreshSlots(banks), Long());
    assert slots[0][0] == RegUse(0, 0, false);
    var order := BankOrder(banks, false, Long());
    assert order == [0, 1];
    assert FirstFree(slots[0]) == 0;
    assert FindSlot(slots, order) == Some((0, 0));
    assert Scan(banks, false, map[], [Long()]) == Step(banks, false, Board(FreshSlots(banks), map[]), Long());
  }

  lemma CrossingScanned(st: Stages, regOf: map<int, nat>)
    requires st.kept == [Crossing()] && st.b == [Long()] && Scanned(CrossingProblem(), 0, regOf, st)
    ensures Long().id in regOf && Crossing().id !in regOf
  {
    ScanDemotes();
    SortTwo(Long(), Crossing());
    assert [Crossing()] + [Long()] == [Crossing(), Long()];
    hide Scan, SortBy, ScanBefore;
    assert Long() in CrossingProblem().vregs && Crossing() in CrossingProblem().vregs;
  }

  /** However this problem's class is done, both ranges are selected and the crossing one is demoted. */
  lemma CrossingIsDemoted(regOf: map<int, nat>)
    requires ClassDone(CrossingProblem(), 0, regOf)
    ensures exists st :: Staged(CrossingProblem(), 0, st) && Crossing() in st.kept && Long() in st.b
    ensures Long().id in regOf && Crossing().id !in regOf
  {
    var p := CrossingProblem();
    CrossingLists();
    TwoBankCounts();
    hide Staged, Placed, Scanned, CrossingRanges, ClassRanges, CountRegs;
    var st :| Staged(p, 0, st) && Placed(p, 0, regOf, st) && Scanned(p, 0, regOf, st);
    BothSelected(st);
    CrossingScanned(st, regOf);
  }

  /** So the allocator itself demotes it. */
  method AllocatorDemotes() returns (sol: Solution)
    ensures |sol.vregs| == 2 && sol.vregs[0].promoted && !sol.vregs[1].promoted
    ensures sol.promotedCount == 1 && sol.spilledCount == 1
  {
    CrossingIsWellFormed();
    ghost var rounds;
    sol, rounds := RallocHybrid(CrossingProblem());
    hide Reports, Sound, Outcome, ClassDone, CountPromoted;
    forall regOf | ClassDone(CrossingProblem(), 0, regOf) ensures Long().id in regOf && Crossing().id !in regOf {
      CrossingIsDemoted(regOf);
    }
    FirstOnly(CrossingProblem(), sol, rounds);
  }

  /** If every way to do the one class places the first of two ranges and not the second, so does the report. */
  lemma FirstOnly(p: Problem, sol: Solution, rounds: nat)
    requires |p.vregs| == 2 && |p.classes| == 1
    requires exists start, regOf :: Reports(p, sol, regOf) && Sound(p, regOf) && Outcome(p, start, regOf, sol.coalescedMoves, rounds)
    requires forall regOf | ClassDone(p, 0, regOf) :: p.vregs[0].id in regOf && p.vregs[1].id !in regOf
    ensures |sol.vregs| == 2 && sol.vregs[0].promoted && !sol.vregs[1].promoted && CountPromoted(sol.vregs) == 1
  {
    hide Sound, Settled, RoundsOf, ClassDone;
    var start, regOf :| Reports(p, sol, regOf) && Sound(p, regOf) && Outcome(p, start, regOf, sol.coalescedMoves, rounds);
    assert ClassDone(p, 0, regOf);
    assert sol.vregs[..1] == [sol.vregs[0]] && sol.vregs[..1][..0] == [];
    assert CountPromoted(sol.vregs[..1]) == 1;
  }

  // ---------------------------------------------------------------------
  // a range that begins with a use and ends at once
  // ---------------------------------------------------------------------

  /** One register, and at one position a range that begins with a definition and one that begins with a use: they
      occupy different segments, and neither crosses a call. */
  function ImproperProblem(): Problem {
    Problem([Defined(), Used()], [], [OneBank()], false)
  }

  function OneBank(): seq<Bank> {
    [Bank([0], false)]
  }

  function Defined(): VReg {
    VReg(0, 0, 1, false, 5, 5, true, [])
  }

  function Used(): VReg {
    VReg(1, 0, 1, false, 5, 5, false, [])
  }

  lemma OneBankCounts()
    ensures CountRegs(OneBank(), true) == 0 && CountRegs(OneBank(), false) == 1
  {
    assert OneBank()[..0] == [];
  }

  lemma ImproperIsWellFormed()
    ensures WellFormed(ImproperProblem()) && !ProperClass(ImproperProblem(), 0)
  {
    assert Used() in ImproperProblem().vregs && Defined() in ImproperProblem().vregs;
  }

  lemma ImproperLists()
    ensures CrossingRanges(ImproperProblem(), 0) == [] && ClassRanges(ImproperProblem().vregs, 0, false) == [Defined(), Used()]
  {
    OneBankCounts();
    ClassOfTwo(Defined(), Used(), false);
  }

  lemma WithNone(vs: seq<VReg>)
    ensures (forall v :: v !in vs) ==> vs == []
  {
    assert vs != [] ==> vs[0] in vs;
  }

  lemma BothUsable(st: Stages)
    requires Staged(ImproperProblem(), 0, st)
    ensures st.kept == [] && st.b == [Defined(), Used()]
  {
    OneBankCounts();
    ImproperLists();
    hide InWindow, ExactSelection, CountRegs, CrossingRanges, ClassRanges, WithinBanks, Repaired, DistinctIds;
    WithNone(st.kept);
    StageBAlone(st.lo, st.hi, st.b);
  }

  lemma StageBAlone(lo: nat, hi: nat, b: seq<VReg>)
    requires lo <= hi && InWindow([Defined(), Used()], lo, hi) && ExactSelection([Defined(), Used()], lo, Residual(1, [], lo, hi), b)
    ensures b == [Defined(), Used()]
  {
    hide ExactSelection;
    forall p ensures Occ([Defined(), Used()], p) <= 1 {
      OccTwo(Defined(), Used(), p);
    }
    AllFit([Defined(), Used()], lo, hi, Residual(1, [], lo, hi), b);
  }

  /** The scan meets the defined range first; it holds the register at its end, where the other begins. */
  lemma ScanDemotesUsed()
    ensures var board := Scan(OneBank(), false, map[], [Defined(), Used()]);
            Defined().id in board.regOf && Used().id !in board.regOf
  {
    var banks, vs := OneBank(), [Defined(), Used()];
    DefinedTakesTheRegister();
    var first := Scan(banks, false, map[], [Defined()]);
    hide Scan;
    var slots: Slots := Expire(first.slots, Used());
    assert slots[0][0].active;
    assert FindSlot(slots, BankOrder(banks, false, Used())).None?;
    ScanOfTwo(banks, Defined(), Used());
  }

  lemma DefinedTakesTheRegister()
    ensures var board := Scan(OneBank(), false, map[], [Defined()]);
            Shaped(OneBank(), board.slots) && board.slots[0][0] == RegUse(0, 5, true) && board.regOf == map[0 := 0]
  {
    var banks := OneBank();
    assert [Defined()][..0] == [];
    var slots: Slots := Expire(FreshSlots(banks), Defined());
    assert slots[0][0] == RegUse(0, 0, false);
    var order := BankOrder(banks, false, Defined());
    assert order == [0];
    assert FirstFree(slots[0]) == 0;
    assert FindSlot(slots, order) == Some((0, 0));
    assert Scan(banks, false, map[], [Defined()]) == Step(banks, false, Board(FreshSlots(banks), map[]), Defined());
  }

  lemma UsedScanned(st: Stages, regOf: map<int, nat>)
    requires st.kept == [] && st.b == [Defined(), Used()] && Scanned(ImproperProblem(), 0, regOf, st)
    ensures Defined().id in regOf && Used().id !in regOf
  {
    ScanDemotesUsed();
    SortTwo(Defined(), Used());
    assert [] + [Defined(), Used()] == [Defined(), Used()];
    hide Scan, SortBy, ScanBefore;
    assert Defined() in ImproperProblem().vregs && Used() in ImproperProblem().vregs;
  }

  /** However the class is done, both ranges are selected under the bounds and the second is demoted: a class that is
      not proper can lose a range that crosses no call. */
  lemma UsedIsDemoted(regOf: map<int, nat>)
    requires ClassDone(ImproperProblem(), 0, regOf)
    ensures exists st :: Staged(ImproperProblem(), 0, st) && st.b == [Defined(), Used()]
    ensures Defined().id in regOf && Used().id !in regOf
  {
    var p := ImproperProblem();
    ImproperLists();
    OneBankCounts();
    hide Staged, Placed, Scanned, CrossingRanges, ClassRanges, CountRegs;
    var st :| Staged(p, 0, st) && Placed(p, 0, regOf, st) && Scanned(p, 0, regOf, st);
    BothUsable(st);
    UsedScanned(st, regOf);
  }

  method AllocatorDemotesUsed() returns (sol: Solution)
    ensures |sol.vregs| == 2 && sol.vregs[0].promoted && !sol.vregs[1].promoted
    ensures sol.promotedCount == 1 && sol.spilledCount == 1
  {
    ImproperIsWellFormed();
    ghost var rounds;
    sol, rounds := RallocHybrid(ImproperProblem());
    hide Reports, Sound, Outcome, ClassDone, CountPromoted;
    forall regOf | ClassDone(ImproperProblem(), 0, regOf) ensures Defined().id in regOf && Used().id !in regOf {
      UsedIsDemoted(regOf);
    }
    FirstOnly(ImproperProblem(), sol, rounds);
  }

  // ---------------------------------------------------------------------
  // a range that crosses a call and has room
  // ---------------------------------------------------------------------

  /** How many ranges of the class occupy segment q. */
  ghost function Crowd(p: Problem, ci: nat, q: int): nat {
    Occ(ClassRanges(p.vregs, ci, true), q) + Occ(ClassRanges(p.vregs, ci, false), q)
  }

  /** Nowhere on v do more ranges of the class overlap than it has callee-saved registers. */
  ghost predicate HasRoom(p: Problem, ci: nat, v: VReg)
    requires ci < |p.classes|
  {
    forall q | Occupies(v, q) :: Crowd(p, ci, q) <= CountRegs(p.classes[ci], true)
  }

  ghost function At(vs: seq<VReg>, q: int): (r: set<VReg>)
    ensures forall v :: v in r <==> v in vs && Occupies(v, q)
  {
    set v | v in vs && Occupies(v, q)
  }

  lemma {:induction false} AtMostOcc(vs: seq<VReg>, q: int)
    ensures |At(vs, q)| <= Occ(vs, q)
  {
    if vs == [] {
      assert At(vs, q) == {};
    } else {
      AtMostOcc(vs[..|vs| - 1], q);
      LastAt(vs, q);
    }
  }

  lemma {:induction false} DistinctOcc(vs: seq<VReg>, q: int)
    requires DistinctIds(vs)
    ensures |At(vs, q)| == Occ(vs, q)
  {
    if vs == [] {
      assert At(vs, q) == {};
    } else {
      var m := |vs| - 1;
      assert DistinctIds(vs[..m]) && vs[m] !in vs[..m];
      hide DistinctIds;
      DistinctOcc(vs[..m], q);
      LastAt(vs, q);
    }
  }

  lemma LastAt(vs: seq<VReg>, q: int)
    requires vs != []
    ensures var m := |vs| - 1; At(vs, q) == if Occupies(vs[m], q) then At(vs[..m], q) + {vs[m]} else At(vs[..m], q)
  {
    assert vs == vs[..|vs| - 1] + [vs[|vs| - 1]];
  }

  /** A list of distinct ranges out of another overlaps no more than that. */
  lemma OccWithin(a: seq<VReg>, b: seq<VReg>, q: int)
    requires DistinctIds(a) && forall v | v in a :: v in b
    ensures Occ(a, q) <= Occ(b, q)
  {
    DistinctOcc(a, q);
    AtMostOcc(b, q);
    SubsetSize(At(a, q), At(b, q));
  }

  lemma DistinctWith(a: seq<VReg>, v: VReg, p: Problem, crossing: seq<VReg>)
    requires DistinctIds(a) && v !in a && v in crossing && DistinctIds(p.vregs)
    requires (forall w | w in a :: w in crossing) && forall w | w in crossing :: w in p.vregs
    ensures DistinctIds(a + [v])
  {
    forall i | 0 <= i < |a| ensures a[i].id != v.id {
      assert a[i] in a;
    }
  }

  /** With room everywhere on it, a crossing range is selected: nothing can have turned it away. */
  lemma RoomyIsSelected(p: Problem, ci: nat, st: Stages, v: VReg)
    requires WellFormed(p) && ci < |p.classes| && Staged(p, ci, st)
    requires v in p.vregs && v.cls == ci && v.crossesCall && HasRoom(p, ci, v)
    ensures v in st.kept
  {
    hide WellFormed, Staged, HasRoom, CountRegs, TurnedAway;
    SomeCalleeSaved(p, ci, v);
    if v !in st.kept {
      LeftOutIsTurnedAway(p, ci, st, v);
      NothingTurnsAway(p, ci, st, v);
      assert false;
    }
  }

  lemma NothingTurnsAway(p: Problem, ci: nat, st: Stages, v: VReg)
    requires WellFormed(p) && ci < |p.classes| && Staged(p, ci, st) && v in p.vregs && v.cls == ci && v.crossesCall
    requires HasRoom(p, ci, v) && v !in st.kept && CountRegs(p.classes[ci], true) > 0
    ensures !TurnedAway(st.a, st.kept, st.b, v, CountRegs(p.classes[ci], true), CountRegs(p.classes[ci], false))
  {
    hide WellFormed, Staged, HasRoom, Occ;
    CalleeSavedAreSome(p.classes[ci]);
    hide CountRegs;
    forall n: nat | n <= |st.kept|
      ensures !FullFor(st.kept[..n], st.b, v, CountRegs(p.classes[ci], true), CountRegs(p.classes[ci], false))
    {
      forall q: nat | Occupies(v, q) ensures Occ(st.kept[..n], q) + Occ(st.b, q) < CountRegs(p.classes[ci], true) {
        RoomLeft(p, ci, st, v, n, q);
      }
    }
  }

  lemma LeftOutIsTurnedAway(p: Problem, ci: nat, st: Stages, v: VReg)
    requires ci < |p.classes| && Staged(p, ci, st) && CountRegs(p.classes[ci], true) > 0
    requires v in p.vregs && v.cls == ci && v.crossesCall && v !in st.kept
    ensures TurnedAway(st.a, st.kept, st.b, v, CountRegs(p.classes[ci], true), CountRegs(p.classes[ci], false))
  {
    hide ExactSelection, InWindow, WithinBanks, TurnedAway, CountRegs;
    assert v in CrossingRanges(p, ci);
  }

  lemma SomeCalleeSaved(p: Problem, ci: nat, v: VReg)
    requires ci < |p.classes| && v in p.vregs && v.cls == ci && v.crossesCall && HasRoom(p, ci, v)
    ensures CountRegs(p.classes[ci], true) > 0
  {
    var crossing, q := ClassRanges(p.vregs, ci, true), StartOf(v);
    assert Occupies(v, q) && v in crossing;
    AtMostOcc(crossing, q);
    assert v in At(crossing, q);
    assert Crowd(p, ci, q) > 0;
  }

  lemma RoomLeft(p: Problem, ci: nat, st: Stages, v: VReg, n: nat, q: nat)
    requires WellFormed(p) && ci < |p.classes| && Staged(p, ci, st) && v in p.vregs && v.cls == ci && v.crossesCall
    requires HasRoom(p, ci, v) && v !in st.kept && n <= |st.kept| && Occupies(v, q) && CountRegs(p.classes[ci], true) > 0
    ensures Occ(st.kept[..n], q) + Occ(st.b, q) < CountRegs(p.classes[ci], true)
  {
    var crossing, others, sel := ClassRanges(p.vregs, ci, true), ClassRanges(p.vregs, ci, false), st.kept[..n];
    hide Occ, ExactSelection, InWindow, WithinBanks, Repaired, CountRegs, ClassRanges;
    assert DistinctIds(sel) && (forall w | w in sel :: w in st.kept) && v in crossing;
    DistinctWith(sel, v, p, crossing);
    OccWithin(sel + [v], crossing, q);
    OccConcat(sel, [v], q);
    OccOne(v, q);
    OccWithin(st.b, others, q);
    assert Crowd(p, ci, q) <= CountRegs(p.classes[ci], true);
  }

  /** A crossing range with room everywhere on it gets a register, whatever the weights and the order, if the class
      is proper. */
  lemma RoomyIsPlaced(p: Problem, ci: nat, regOf: map<int, nat>, v: VReg)
    requires WellFormed(p) && ci < |p.classes| && ClassDone(p, ci, regOf) && ProperClass(p, ci)
    requires v in p.vregs && v.cls == ci && v.crossesCall && HasRoom(p, ci, v)
    ensures v.id in regOf
  {
    SomeCalleeSaved(p, ci, v);
    CalleeSavedAreSome(p.classes[ci]);
    assert v in CrossingRanges(p, ci);
    hide Staged, Scanned, Placed, CrossingRanges, ClassRanges, HasRoom, WellFormed, ProperClass, CountRegs;
    var st :| Staged(p, ci, st) && Placed(p, ci, regOf, st) && Scanned(p, ci, regOf, st);
    RoomyIsSelected(p, ci, st, v);
    SelectedIsScanned(p, ci, regOf, st, v);
  }

  lemma SelectedIsScanned(p: Problem, ci: nat, regOf: map<int, nat>, st: Stages, v: VReg)
    requires WellFormed(p) && ci < |p.classes| && Staged(p, ci, st) && Scanned(p, ci, regOf, st) && ProperClass(p, ci)
    requires v in p.vregs && v.cls == ci && v.crossesCall && HasRoom(p, ci, v) && v in st.kept
    ensures v.id in regOf
  {
    var banks, ordered := p.classes[ci], SortBy(ScanBefore, st.kept + st.b);
    assert DistinctRegs(banks) && DistinctIds(p.vregs);
    StagesOfClass(p, ci, st);
    OrderedIsReady(st.kept, st.b, p.vregs, ci, ordered);
    hide Scan, SortBy, Staged, ByFirst, DistinctIds, DistinctRegs, ProperHulls, WellFormed, HasRoom, Occ;
    OrderedProper(p, ci, ordered);
    assert v in ordered;
    RoomyIsUncrowded(p, ci, st, v, ordered);
    UncrowdedScanPlaces(banks, p.preferCalleeSaved, map[], ordered);
    var i :| 0 <= i < |ordered| && ordered[i] == v;
  }

  lemma StagesOfClass(p: Problem, ci: nat, st: Stages)
    requires ci < |p.classes| && Staged(p, ci, st)
    ensures forall w | w in st.kept :: w in p.vregs && w.cls == ci && w.crossesCall
    ensures forall w | w in st.b :: w in p.vregs && w.cls == ci && !w.crossesCall
    ensures DistinctIds(st.kept) && DistinctIds(st.b)
  {
    hide ExactSelection, InWindow, WithinBanks, Repaired, CountRegs;
  }

  lemma RoomyIsUncrowded(p: Problem, ci: nat, st: Stages, v: VReg, ordered: seq<VReg>)
    requires ci < |p.classes| && Staged(p, ci, st) && HasRoom(p, ci, v) && v.crossesCall
    requires forall q :: Occ(ordered, q) == Occ(st.kept, q) + Occ(st.b, q)
    ensures Uncrowded(p.classes[ci], ordered, v)
  {
    StagesOfClass(p, ci, st);
    hide Occ, Staged, ClassRanges;
    forall q | Occupies(v, q) ensures Occ(ordered, q) <= CountRegs(p.classes[ci], true) {
      OccWithin(st.kept, ClassRanges(p.vregs, ci, true), q);
      OccWithin(st.b, ClassRanges(p.vregs, ci, false), q);
      assert Crowd(p, ci, q) <= CountRegs(p.classes[ci], true);
    }
  }

  // ---------------------------------------------------------------------
  // everything fits
  // ---------------------------------------------------------------------

  /** Nowhere do more of the class's ranges overlap than there are registers for them. */
  ghost predicate EverythingFits(p: Problem, ci: nat)
    requires ci < |p.classes|
  {
    && (forall q :: Occ(CrossingRanges(p, ci), q) <= CountRegs(p.classes[ci], true))
    && (forall q :: Occ(CrossingRanges(p, ci), q) + Occ(ClassRanges(p.vregs, ci, false), q) <= CountRegs(p.classes[ci], false))
  }

  /** Then every range of the class that crosses no call is promoted, if it has a weight and the class is proper. */
  lemma FittingAreAllPromoted(p: Problem, ci: nat, regOf: map<int, nat>)
    requires WellFormed(p) && ci < |p.classes| && ClassDone(p, ci, regOf) && ProperClass(p, ci) && EverythingFits(p, ci)
    requires forall v | v in p.vregs && v.cls == ci && !v.crossesCall :: v.weight > 0
    ensures forall v | v in p.vregs && v.cls == ci && !v.crossesCall :: v.id in regOf
  {
    forall v | v in p.vregs && v.cls == ci && !v.crossesCall ensures v.id in regOf {
      assert v in ClassRanges(p.vregs, ci, false);
      SomeRegister(p, ci, v);
      hide Staged, Placed, Scanned, WellFormed, ProperClass, EverythingFits, CrossingRanges, ClassRanges, CountRegs;
      var st :| Staged(p, ci, st) && Placed(p, ci, regOf, st) && Scanned(p, ci, regOf, st);
      OthersAllSelected(p, ci, st);
      PlacedOne(p, ci, regOf, st, v);
    }
  }

  lemma PlacedOne(p: Problem, ci: nat, regOf: map<int, nat>, st: Stages, v: VReg)
    requires Placed(p, ci, regOf, st) && ProperClass(p, ci) && v in st.b
    ensures v.id in regOf
  {
  }

  lemma SomeRegister(p: Problem, ci: nat, v: VReg)
    requires ci < |p.classes| && EverythingFits(p, ci) && v in ClassRanges(p.vregs, ci, false)
    ensures CountRegs(p.classes[ci], false) > 0
  {
    var others, q := ClassRanges(p.vregs, ci, false), StartOf(v);
    assert Occupies(v, q);
    AtMostOcc(others, q);
    assert v in At(others, q);
    assert Occ(CrossingRanges(p, ci), q) + Occ(others, q) <= CountRegs(p.classes[ci], false);
  }

  lemma OthersAllSelected(p: Problem, ci: nat, st: Stages)
    requires WellFormed(p) && ci < |p.classes| && Staged(p, ci, st) && EverythingFits(p, ci)
    requires forall v | v in p.vregs && v.cls == ci && !v.crossesCall :: v.weight > 0
    ensures st.b == ClassRanges(p.vregs, ci, false)
  {
    hide *;
    var others, total := ClassRanges(p.vregs, ci, false), CountRegs(p.classes[ci], false);
    SecondStage(p, ci, st);
    OthersHaveWeight(p, ci);
    var caps := Residual(total, st.a, st.lo, st.hi);
    forall i | 0 <= i < |caps| ensures Occ(others, st.lo + i) <= caps[i] {
      RoomBehindFirst(p, ci, st, st.lo + i);
    }
    AllFit(others, st.lo, st.hi, caps, st.b);
  }

  lemma OthersHaveWeight(p: Problem, ci: nat)
    requires forall v | v in p.vregs && v.cls == ci && !v.crossesCall :: v.weight > 0
    ensures var others := ClassRanges(p.vregs, ci, false); forall k | 0 <= k < |others| :: others[k].weight > 0
  {
    var others := ClassRanges(p.vregs, ci, false);
    forall k | 0 <= k < |others| ensures others[k].weight > 0 {
      assert others[k] in others;
    }
  }

  lemma SecondStage(p: Problem, ci: nat, st: Stages)
    requires ci < |p.classes| && Staged(p, ci, st)
    ensures var others := ClassRanges(p.vregs, ci, false);
            && st.lo <= st.hi && InWindow(others, st.lo, st.hi) && (forall k | 0 <= k < |others| :: st.lo <= StartOf(others[k]))
            && ExactSelection(others, st.lo, Residual(CountRegs(p.classes[ci], false), st.a, st.lo, st.hi), st.b)
  {
    hide ExactSelection, WithinBanks, Repaired, CountRegs, CrossingRanges, ClassRanges, Occ;
  }

  lemma RoomBehindFirst(p: Problem, ci: nat, st: Stages, q: int)
    requires ci < |p.classes| && Staged(p, ci, st) && EverythingFits(p, ci)
    ensures Occ(ClassRanges(p.vregs, ci, false), q) <= Left(CountRegs(p.classes[ci], false), Occ(st.a, q))
  {
    FirstStageWithin(p, ci, st);
    hide Staged, Occ, CountRegs, CrossingRanges, ClassRanges, DistinctIds;
    OccWithin(st.a, CrossingRanges(p, ci), q);
    assert Occ(CrossingRanges(p, ci), q) + Occ(ClassRanges(p.vregs, ci, false), q) <= CountRegs(p.classes[ci], false);
  }

  /** The first stage's selection is part of the repaired one. */
  lemma FirstStageWithin(p: Problem, ci: nat, st: Stages)
    requires ci < |p.classes| && Staged(p, ci, st)
    ensures DistinctIds(st.a) && forall v | v in st.a :: v in CrossingRanges(p, ci)
  {
    hide ExactSelection, WithinBanks, Repaired, CountRegs, CrossingRanges;
    assert forall k | 0 <= k < |st.a| :: st.a[k] == st.kept[k];
  }

  /** Two ranges of which the second begins with a definition where the first ends, and a single register. */
  function HandoverProblem(): Problem {
    Problem([Former(), Latter()], [], [OneBank()], false)
  }

  function Former(): VReg {
    VReg(0, 0, 1, false, 0, 5, true, [])
  }

  function Latter(): VReg {
    VReg(1, 0, 1, false, 5, 9, true, [])
  }

  lemma HandoverIsWellFormed()
    ensures WellFormed(HandoverProblem()) && ProperClass(HandoverProblem(), 0)
  {
  }

  lemma HandoverFits()
    ensures EverythingFits(HandoverProblem(), 0)
  {
    OneBankCounts();
    ClassOfTwo(Former(), Latter(), false);
    forall q ensures Occ([Former(), Latter()], q) <= 1 {
      OccTwo(Former(), Latter(), q);
    }
    var p := HandoverProblem();
    NoneOccupy();
    hide Occ, CountRegs, ClassRanges;
    var none: seq<VReg> := [];
    assert p.classes[0] == OneBank() && CrossingRanges(p, 0) == none && ClassRanges(p.vregs, 0, false) == [Former(), Latter()];
    forall q ensures Occ(CrossingRanges(p, 0), q) == 0 {
    }
  }

  lemma NoneOccupy()
    ensures forall q :: Occ([], q) == 0
  {
  }

  lemma HandedOver(regOf: map<int, nat>)
    requires ClassDone(HandoverProblem(), 0, regOf)
    ensures Former().id in regOf && Latter().id in regOf
  {
    HandoverIsWellFormed();
    HandoverFits();
    hide ClassDone, EverythingFits, ProperClass, WellFormed;
    var p := HandoverProblem();
    assert p.vregs[0] in p.vregs && p.vregs[1] in p.vregs;
    FittingAreAllPromoted(p, 0, regOf);
  }

  /** Both are promoted: the register is handed over. */
  method AllocatorHandsOver() returns (sol: Solution)
    ensures |sol.vregs| == 2 && sol.vregs[0].promoted && sol.vregs[1].promoted
    ensures sol.promotedCount == 2 && sol.spilledCount == 0
  {
    HandoverIsWellFormed();
    hide Reports, Sound, Outcome, ClassDone, CountPromoted, WellFormed, ProperClass;
    ghost var rounds;
    sol, rounds := RallocHybrid(HandoverProblem());
    forall regOf | ClassDone(HandoverProblem(), 0, regOf) ensures Former().id in regOf && Latter().id in regOf {
      HandedOver(regOf);
    }
    BothReported(HandoverProblem(), sol, rounds);
  }

  lemma BothReported(p: Problem, sol: Solution, rounds: nat)
    requires |p.vregs| == 2 && |p.classes| == 1
    requires exists start, regOf :: Reports(p, sol, regOf) && Sound(p, regOf) && Outcome(p, start, regOf, sol.coalescedMoves, rounds)
    requires forall regOf | ClassDone(p, 0, regOf) :: p.vregs[0].id in regOf && p.vregs[1].id in regOf
    ensures |sol.vregs| == 2 && sol.vregs[0].promoted && sol.vregs[1].promoted && CountPromoted(sol.vregs) == 2
  {
    hide Sound, Settled, RoundsOf, ClassDone;
    var start, regOf :| Reports(p, sol, regOf) && Sound(p, regOf) && Outcome(p, start, regOf, sol.coalescedMoves, rounds);
    assert ClassDone(p, 0, regOf);
    assert sol.vregs[..1] == [sol.vregs[0]] && sol.vregs[..1][..0] == [];
    assert CountPromoted(sol.vregs[..1]) == 1;
  }
}
