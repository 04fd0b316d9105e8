/** Why a branch must be covered: a replacement that every contract allows and that changes what is returned. */
module SuperCounter {
  import opened Options
  import opened Dataflow
  import opened SlotCode
  import opened CodeNeeds
  import opened SlotLiveness
  import opened SuperLiveness
  import opened SuperNeeds
  import opened SuperCommits

  /** Location 0 is written; then two conditional branches in one region, the second to a return that reads it. */
  function TwoBranches(): (r: seq<Inst>)
    ensures |r| == 8
  {
    [Inst(Other, 1, Absent, Absent),
     Inst(Jcc, 0, Lab(1), Absent),
     Inst(Jcc, 0, Lab(2), Absent),
     Inst(Ret, 0, Absent, Absent),
     Inst(Label, 0, Lab(1), Absent),
     Inst(Ret, 0, Absent, Absent),
     Inst(Label, 0, Lab(2), Absent),
     Inst(Ret, 2, Absent, Absent)]
  }

  /** One location: tag 1 writes it, tag 2 reads it; only branches to label 2 are taken. */
  function TagTable(): Isa {
    Isa(1,
        (i: Inst) => Some(Effects(if i.tag == 2 then {0} else {}, if Plain(i) && i.tag == 1 then {0} else {})),
        (i: Inst, s: seq<int>) => if Plain(i) && i.tag == 1 then Some([1]) else Some(s),
        (i: Inst, s) => i.a == Lab(2))
  }

  lemma TableIsHonest()
    ensures Honest(TagTable())
  {
    var isa := TagTable();
    forall i: Inst, a: seq<int>, b: seq<int> | |a| == isa.locs && Agree(a, b, Gen(isa, i)) ensures HonestOn(isa, i, a, b) {
    }
  }

  function FoundRegions(): Regions {
    Regions(0, [0, 5, 7], [4, 6, 8], [0, 0, 0, 0, 1, 1, 2, 2], map[1 := 1, 2 := 2])
  }

  lemma CodeRegions()
    ensures RegionsOk(TwoBranches(), FoundRegions()) && LabelsDistinct(TwoBranches())
  {
    var code, rg := TwoBranches(), FoundRegions();
    assert Closed(code, rg.begins, rg.ends, 0) && Closed(code, rg.begins, rg.ends, 1);
  }

  lemma CodeSuccessors()
    ensures BlockSuccs(TwoBranches(), map[1 := 1, 2 := 2], 0, 4, Some(1)) == [1, 1]
    ensures BlockSuccs(TwoBranches(), map[1 := 1, 2 := 2], 5, 6, Some(2)) == []
  {
    var one: seq<nat> := [1];
    assert one + one == [1, 1];
    assert BlockSuccs(TwoBranches(), map[1 := 1, 2 := 2], 1, 4, Some(1)) == [1, 1];
  }

  lemma {:induction false} SameBlockSuccs(code: seq<Inst>, lr1: map<int, nat>, lr2: map<int, nat>, i: nat, hi: nat, next: Option<nat>)
    requires hi <= |code| && SameLookup(lr1, lr2)
    ensures BlockSuccs(code, lr1, i, hi, next) == BlockSuccs(code, lr2, i, hi, next)
    decreases hi - i
  {
    if i < hi {
      SameBlockSuccs(code, lr1, lr2, i + 1, hi, next);
    }
  }

  lemma CodeBackward()
    ensures Backward(TagTable(), TwoBranches(), 1, 4, {}) == {} && Backward(TagTable(), TwoBranches(), 3, 4, {}) == {}
    ensures RegionGen(TagTable(), TwoBranches(), 5, 6) == {}
  {
    var code, isa := TwoBranches(), TagTable();
    BackwardStep(isa, code, 3, 4, {});
    BackwardStep(isa, code, 2, 4, {});
    BackwardStep(isa, code, 1, 4, {});
    assert Backward(isa, code, 4, 4, {}) == {};
    assert Backward(isa, code, 3, 4, {}) == {};
    assert Backward(isa, code, 2, 4, {}) == {};
  }

  /** Whatever solves the engine's equations finds nothing live behind the write. */
  lemma NothingLive(lv: Liveness)
    requires LivenessOk(TagTable(), TwoBranches(), lv)
    ensures lv.rg.start == 0 && lv.rg.begins == [0, 5, 7] && lv.rg.ends == [4, 6, 8]
    ensures forall j: nat | j < 8 :: lv.rg.regionOf[j] == FoundRegions().regionOf[j]
    ensures lv.outs[0] == {}
  {
    var code, isa := TwoBranches(), TagTable();
    CodeRegions();
    SameRegions(code, lv.rg, FoundRegions());
    SameBlockSuccs(code, lv.rg.labelRegion, map[1 := 1, 2 := 2], 0, 4, Some(1));
    SameBlockSuccs(code, lv.rg.labelRegion, map[1 := 1, 2 := 2], 5, 6, Some(2));
    CodeSuccessors();
    CodeBackward();
    hide RegionsOk, BlockSuccs, SameLookup, RegionGen, RegionKill, TwoBranches, TagTable, LabelsDistinct;
    assert FlowAt(isa, code, lv.rg, lv.f, 0) && FlowAt(isa, code, lv.rg, lv.f, 1);
    assert lv.outs[1] == OutOf([], lv.ins) == {};
    assert lv.ins[1] == {};
    assert lv.outs[0] == OutOf([1, 1], lv.ins) == {};
  }

  /** The one window: the write, replaced by nothing. */
  function DropTheWrite(): seq<Commit> {
    [Commit(0, 1, [])]
  }

  lemma CommitAllowed(lv: Liveness)
    requires LivenessOk(TagTable(), TwoBranches(), lv)
    ensures CommitsOk(TwoBranches(), DropTheWrite(), 0) && AllEquivalent(TagTable(), TwoBranches(), lv, DropTheWrite())
    ensures Build(TwoBranches(), DropTheWrite(), 0) == TwoBranches()[1..]
  {
    var code, isa, c := TwoBranches(), TagTable(), Commit(0, 1, []);
    NothingLive(lv);
    CodeBackward();
    assert DropTheWrite()[1..] == [];
    assert CommitsOk(code, [], 1);
    assert Build(code, [], 1) == code[1..];
    assert code[0..0] + [] + code[1..] == code[1..];
    assert Contract(isa, code, lv, c) == {};
    forall st: seq<int> | |st| == isa.locs ensures EquivalentOn(isa, code[0..1], [], {}, st) {
      assert code[0..1] == [code[0]];
    }
  }

  lemma OldReturns()
    ensures Leads(TagTable(), TwoBranches(), Point(0, [0]), 4, Point(7, [1]))
  {
    var code, isa := TwoBranches(), TagTable();
    LabelIn(code);
    assert Next1(isa, code, Point(0, [0])) == Some(Point(1, [1]));
    assert Next1(isa, code, Point(1, [1])) == Some(Point(2, [1]));
    assert Next1(isa, code, Point(2, [1])) == Some(Point(6, [1]));
    assert Next1(isa, code, Point(6, [1])) == Some(Point(7, [1]));
    hide Next1, TwoBranches;
    assert Leads(isa, code, Point(6, [1]), 1, Point(7, [1]));
    assert Leads(isa, code, Point(2, [1]), 2, Point(7, [1]));
    assert Leads(isa, code, Point(1, [1]), 3, Point(7, [1]));
  }

  lemma LabelIn(code: seq<Inst>)
    requires code == TwoBranches()
    ensures LabelAt(code, 2, 0) == Some(6)
  {
    assert LabelAt(code, 2, 6) == Some(6);
    assert LabelAt(code, 2, 5) == Some(6);
    assert LabelAt(code, 2, 4) == Some(6);
    assert LabelAt(code, 2, 3) == Some(6);
    assert LabelAt(code, 2, 2) == Some(6);
    assert LabelAt(code, 2, 1) == Some(6);
  }

  lemma NewReturns()
    ensures Leads(TagTable(), TwoBranches()[1..], Point(0, [0]), 3, Point(6, [0]))
  {
    var code, isa := TwoBranches()[1..], TagTable();
    assert LabelAt(code, 2, 5) == Some(5);
    assert LabelAt(code, 2, 4) == Some(5);
    assert LabelAt(code, 2, 3) == Some(5);
    assert LabelAt(code, 2, 2) == Some(5);
    assert LabelAt(code, 2, 1) == Some(5);
    assert LabelAt(code, 2, 0) == Some(5);
    assert Next1(isa, code, Point(0, [0])) == Some(Point(1, [0]));
    assert Next1(isa, code, Point(1, [0])) == Some(Point(5, [0]));
    assert Next1(isa, code, Point(5, [0])) == Some(Point(6, [0]));
    hide Next1, TwoBranches;
    assert Leads(isa, code, Point(5, [0]), 1, Point(6, [0]));
    assert Leads(isa, code, Point(1, [0]), 2, Point(6, [0]));
  }

  /** With an honest table and any liveness the engine can compute, dropping the write is an equivalent
      program for its window; yet the code then returns 0 where it returned 1. */
  lemma SecondBranchBreaks(lv: Liveness)
    requires LivenessOk(TagTable(), TwoBranches(), lv)
    ensures var code, isa, cs := TwoBranches(), TagTable(), DropTheWrite();
            && Honest(isa) && LabelsDistinct(code) && CommitsOk(code, cs, 0) && AllEquivalent(isa, code, lv, cs)
            && Leads(isa, code, Point(0, [0]), 4, Point(7, [1])) && IsReturn(code[7]) && Gen(isa, code[7]) == {0}
            && Leads(isa, Build(code, cs, 0), Point(0, [0]), 3, Point(6, [0])) && Build(code, cs, 0)[6] == code[7]
    ensures !BranchesCovered(TagTable(), TwoBranches(), lv)
  {
    LastReads();
    hide LivenessOk, Honest, Leads, AllEquivalent, CommitsOk, BranchesCovered, RegionsOk, TagTable, TwoBranches, LabelsDistinct, Build, DropTheWrite;
    TableIsHonest();
    CodeRegions();
    CommitAllowed(lv);
    OldReturns();
    NewReturns();
    NotCovered(lv);
  }

  lemma LastReads()
    ensures IsReturn(TwoBranches()[7]) && Gen(TagTable(), TwoBranches()[7]) == {0}
  {
  }

  lemma NotCovered(lv: Liveness)
    requires LivenessOk(TagTable(), TwoBranches(), lv)
    ensures !BranchesCovered(TagTable(), TwoBranches(), lv)
  {
    var code, isa := TwoBranches(), TagTable();
    NothingLive(lv);
    CodeBackward();
    LabelIn(code);
    NeedsBefore(TableUses(isa), code, 7, 0);
    NeedsBefore(TableUses(isa), code, 6, 0);
    assert Succeeds(code, 6, 7);
    assert BranchNeeds(TableUses(isa), code, 2, 6, 0);
    assert LiveBehind(isa, code, lv, 2) == {};
  }
}
