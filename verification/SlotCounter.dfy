/** Why a slot that a branch's target needs must not be stored after the branch in its region. */
module SlotCounter {
  import opened Options
  import opened Dataflow
  import opened SlotCode
  import opened CodeNeeds
  import opened SlotLiveness
  import opened SlotActivity
  import opened SlotGroups
  import opened SlotRecolor

  /** Slot 0 is stored, the branch may skip its second store, and slot 1 lives in between. */
  function Stream(): (r: seq<Inst>)
    ensures |r| == 8
  {
    [Inst(MovRS, 7, Reg(0), Slot(0)),
     Inst(MovRS, 9, Reg(0), Slot(1)),
     Inst(MovSR, 0, Reg(0), Slot(1)),
     Inst(Jcc, 0, Lab(5), Absent),
     Inst(MovRS, 8, Reg(0), Slot(0)),
     Inst(Label, 0, Lab(5), Absent),
     Inst(MovSR, 0, Reg(0), Slot(0)),
     Inst(Ret, 0, Absent, Absent)]
  }

  function Found(): Analysis {
    Analysis(Regions(0, [0, 6], [5, 8], [0, 0, 0, 0, 0, 1, 1, 1], map[5 := 1]), [[1, 1], [], [0]], [{}, {0}, {}], [{0}, {}, {}])
  }

  function Record(): seq<set<nat>> {
    [{0}, {1}, {1}, {}, {0}, {}, {0}, {}]
  }

  /** A store puts the instruction's tag; a load makes it the state; the branch is taken. */
  ghost function Plain(): Machine {
    Machine((i: Inst, s) => i.tag, (i: Inst, s, v) => v, (i: Inst, s, a) => s, (i: Inst, s, w) => (s, map[]), (i: Inst, s) => true)
  }

  lemma FoundIsAnalysis()
    ensures Analysed(Stream(), Found())
  {
    var code, an := Stream(), Found();
    var rg := an.rg;
    StreamRegions();
    hide RegionsOk, SuccFrom, Before, Stream;
    StreamSuccessors();
    StreamTransfer();
    assert SolvedAt(code, an, 0) by {
      assert OutOf([1, 1], an.ins) == {0};
    }
    assert SolvedAt(code, an, 1);
  }

  lemma StreamRegions()
    ensures RegionsOk(Stream(), Found().rg)
  {
    assert Closed(Stream(), Found().rg.begins, Found().rg.ends, 0);
  }

  lemma StreamSuccessors()
    ensures SuccFrom(Stream(), map[5 := 1], 0, 5, Some(1)) == Some([1, 1])
    ensures SuccFrom(Stream(), map[5 := 1], 6, 8, None) == Some([])
  {
    var code, lr := Stream(), map[5 := 1];
    assert SuccFrom(code, lr, 5, 5, Some(1)) == Some([1]);
    assert SuccFrom(code, lr, 4, 5, Some(1)) == Some([1]);
    var one: seq<nat> := [1];
    assert one + one == [1, 1];
    assert SuccFrom(code, lr, 3, 5, Some(1)) == Some(one + one);
    assert SuccFrom(code, lr, 2, 5, Some(1)) == Some([1, 1]);
    assert SuccFrom(code, lr, 1, 5, Some(1)) == Some([1, 1]);
    assert SuccFrom(code, lr, 7, 8, None) == Some([]);
  }

  lemma StreamTransfer()
    ensures forall lo: nat | lo <= 5 :: Before(Stream(), lo, 5, {0}) == [{}, {}, {1}, {}, {}, {0}][lo]
    ensures forall lo: nat | 6 <= lo <= 8 :: Before(Stream(), lo, 8, {}) == [{0}, {}, {}][lo - 6]
  {
    var code := Stream();
    BeforeStep(code, 4, 5, {0});
    BeforeStep(code, 3, 5, {0});
    BeforeStep(code, 2, 5, {0});
    BeforeStep(code, 1, 5, {0});
    BeforeStep(code, 0, 5, {0});
    BeforeStep(code, 7, 8, {});
    BeforeStep(code, 6, 8, {});
    assert Before(code, 5, 5, {0}) == {0} && Before(code, 8, 8, {}) == {};
    assert Before(code, 4, 5, {0}) == {};
    assert Before(code, 3, 5, {0}) == {};
    assert Before(code, 2, 5, {0}) == {1};
    assert Before(code, 1, 5, {0}) == {};
    assert Before(code, 0, 5, {0}) == {};
    assert Before(code, 7, 8, {}) == {};
    assert Before(code, 6, 8, {}) == {0};
  }

  /** Any analysis of the stream records just this activity. */
  lemma RecordIsUnique(an: Analysis, busy: seq<set<nat>>)
    requires Recorded(Stream(), an, busy)
    ensures busy == Record()
  {
    var code := Stream();
    StreamShape();
    FoundIsAnalysis();
    StreamRecorded();
    SameRegions(code, an.rg, Found().rg);
    SameSolution(an);
    forall p: nat | p < 8 ensures busy[p] == Record()[p] {
      if IsLabel(code[p]) {
        assert p == 5;
      } else {
        SameBusy(an, p);
      }
    }
  }

  lemma SameSolution(an: Analysis)
    requires Analysed(Stream(), an) && an.rg.begins == [0, 6] && an.rg.ends == [5, 8] && SameLookup(an.rg.labelRegion, map[5 := 1])
    ensures an.outs[0] == {0} && an.outs[1] == {}
  {
    hide RegionsOk, SuccFrom, Before, Stream, SameLookup;
    SameSuccessors(Stream(), an.rg.labelRegion, map[5 := 1], 0, 5, Some(1));
    SameSuccessors(Stream(), an.rg.labelRegion, map[5 := 1], 6, 8, None);
    StreamSuccessors();
    StreamTransfer();
    assert SolvedAt(Stream(), an, 0) && SolvedAt(Stream(), an, 1);
    assert an.outs[0] == OutOf([1, 1], an.ins);
  }

  lemma SameBusy(an: Analysis, p: nat)
    requires Analysed(Stream(), an) && an.rg.start == 0 && an.rg.begins == [0, 6] && an.rg.ends == [5, 8]
    requires forall j: nat | j < 8 :: an.rg.regionOf[j] == Found().rg.regionOf[j]
    requires an.outs[0] == {0} && an.outs[1] == {} && p < 8 && !IsLabel(Stream()[p])
    requires Analysed(Stream(), Found())
    ensures Busy(Stream(), an, p) == Busy(Stream(), Found(), p)
  {
    hide RegionsOk, Before, SolvedAt, Touched;
  }

  /** The pass finds the two slots never active together, so it gives them one id; the renamed stream then
      computes something else. */
  method RecolorBreaksTheStream() returns (saved: nat, code': seq<Inst>, rep: map<nat, nat>)
    ensures saved == 1 && rep == map[1 := 0] && code' == Renamed(Stream(), rep)
    ensures !HarmlessStores(Stream()) && !SameRuns(Stream(), rep, 2)
  {
    hide HarmlessStores, SameRuns, NoneSpare, Recorded, LeastLive, UnknownTarget, Candidate, Stream, Record, Renamed;
    ghost var busy;
    StreamShape();
    var nodes;
    saved, code', nodes, rep, busy := Recolor(Stream(), 2, map[], {}, {});
    EveryTargetKnown();
    ghost var an :| Recorded(Stream(), an, busy);
    RecordIsUnique(an, busy);
    MustShare(rep, busy);
    RunsDiffer();
  }

  lemma EveryTargetKnown()
    ensures !UnknownTarget(Stream())
  {
    StreamLabel();
  }

  lemma MustShare(rep: map<nat, nat>, busy: seq<set<nat>>)
    requires NoneSpare(Stream(), busy, rep, 2, {}, {}) && NeverBoth(busy, 0, 1)
    requires forall s | s in rep :: rep[s] < s < 2
    ensures rep == map[1 := 0]
  {
    var code := Stream();
    assert 0 in Touched(code[0]) && 1 in Touched(code[1]);
    assert Escaped(code) == {};
    assert Candidate(code, {}, {}, 0) && Candidate(code, {}, {}, 1);
    assert 0 !in rep;
    if 1 !in rep {
      assert Remap(rep, 0) == 0 && Remap(rep, 1) == 1;
      hide Candidate, Stream, NeverBoth;
      NeverTogether(busy);
      assert false;
    }
  }

  lemma NeverTogether(busy: seq<set<nat>>)
    requires NeverBoth(busy, 0, 1)
    ensures NeverBoth(busy, 1, 0)
  {
  }

  lemma RunsDiffer()
    ensures !SameRuns(Stream(), map[1 := 0], 2) && !HarmlessStores(Stream())
  {
    StreamNeeds();
    StreamRuns();
    var code, rep, c := Stream(), map[1 := 0], Cfg(0, 0, [0, 0]);
    NothingEscapes();
    hide Stream, Renamed, Run, Plain, HarmlessStores, Escaped, SameRuns;
    StartMatches(c);
    if SameRuns(code, rep, 2) {
      RunsEndAlike(code, rep, 2, Plain(), c, 6);
      assert false;
    }
  }

  lemma RunsEndAlike(code: seq<Inst>, rep: map<nat, nat>, slots: nat, m: Machine, c: Cfg, n: nat)
    requires SameRuns(code, rep, slots) && Matching(code, rep, slots, c, c)
    ensures SameEnd(Escaped(code), Run(code, m, Escaped(code), c, n), Run(Renamed(code, rep), m, Escaped(code), c, n))
  {
  }

  lemma NothingEscapes()
    ensures Escaped(Stream()) == {}
  {
  }

  /** A frame that holds one value everywhere agrees with itself under any names. */
  lemma StartMatches(c: Cfg)
    requires c == Cfg(0, 0, [0, 0])
    ensures Matching(Stream(), map[1 := 0], 2, c, c)
  {
    hide NeededSlots, Escaped, Stream;
  }

  /** The branch at 3 leads to 5, where slot 0 is needed; the rest of its region stores slot 0. */
  lemma StreamNeeds()
    ensures !HarmlessStores(Stream())
  {
    var code := Stream();
    StreamLabel();
    NeedsBefore(SlotUses(), code, 6, 0);
    NeedsBefore(SlotUses(), code, 5, 0);
    assert Succeeds(code, 5, 6);
    assert BranchNeeds(SlotUses(), code, 3, 5, 0);
    assert StoredFirst(code, 4, 0);
  }

  lemma StreamShape()
    ensures CodeOk(Stream(), 2) && LabelsDistinct(Stream()) && NeverBoth(Record(), 0, 1)
  {
    forall p: nat | p < 8 ensures !(0 in Record()[p] && 1 in Record()[p]) {
      assert p in {0, 1, 2, 3, 4, 5, 6, 7};
    }
  }

  lemma StreamRecorded()
    requires Analysed(Stream(), Found())
    ensures Recorded(Stream(), Found(), Record())
  {
    var code, an := Stream(), Found();
    StreamTransfer();
    hide Before, RegionsOk;
    forall p: nat | p < 8 && !IsLabel(code[p]) ensures Record()[p] == Busy(code, an, p) {
      assert p in {0, 1, 2, 3, 4, 6, 7};
    }
  }

  lemma StreamRuns()
    ensures Run(Stream(), Plain(), {}, Cfg(0, 0, [0, 0]), 6).state == 7
    ensures Run(Renamed(Stream(), map[1 := 0]), Plain(), {}, Cfg(0, 0, [0, 0]), 6).state == 9
  {
    var code := Stream();
    var code', m := Renamed(code, map[1 := 0]), Plain();
    RenamedLabels(code, map[1 := 0], 5, 0);
    StreamLabel();
    assert [0, 0][0 := 7] == [7, 0] && [7, 0][1 := 9] == [7, 9] && [7, 0][0 := 9] == [9, 0];
    assert Step(code, m, {}, Cfg(0, 0, [0, 0])) == Some(Cfg(1, 0, [7, 0]));
    assert Step(code, m, {}, Cfg(1, 0, [7, 0])) == Some(Cfg(2, 0, [7, 9]));
    assert Step(code, m, {}, Cfg(2, 0, [7, 9])) == Some(Cfg(3, 9, [7, 9]));
    assert Step(code, m, {}, Cfg(3, 9, [7, 9])) == Some(Cfg(5, 9, [7, 9]));
    assert Step(code, m, {}, Cfg(5, 9, [7, 9])) == Some(Cfg(6, 9, [7, 9]));
    assert Step(code, m, {}, Cfg(6, 9, [7, 9])) == Some(Cfg(7, 7, [7, 9]));
    assert Step(code', m, {}, Cfg(0, 0, [0, 0])) == Some(Cfg(1, 0, [7, 0]));
    assert Step(code', m, {}, Cfg(1, 0, [7, 0])) == Some(Cfg(2, 0, [9, 0]));
    assert Step(code', m, {}, Cfg(2, 0, [9, 0])) == Some(Cfg(3, 9, [9, 0]));
    assert Step(code', m, {}, Cfg(3, 9, [9, 0])) == Some(Cfg(5, 9, [9, 0]));
    assert Step(code', m, {}, Cfg(5, 9, [9, 0])) == Some(Cfg(6, 9, [9, 0]));
    assert Step(code', m, {}, Cfg(6, 9, [9, 0])) == Some(Cfg(7, 9, [9, 0]));
    hide Step, Stream, Renamed;
    SixSteps(code, m, Cfg(0, 0, [0, 0]), Cfg(1, 0, [7, 0]), Cfg(2, 0, [7, 9]), Cfg(3, 9, [7, 9]), Cfg(5, 9, [7, 9]), Cfg(6, 9, [7, 9]), Cfg(7, 7, [7, 9]));
    SixSteps(code', m, Cfg(0, 0, [0, 0]), Cfg(1, 0, [7, 0]), Cfg(2, 0, [9, 0]), Cfg(3, 9, [9, 0]), Cfg(5, 9, [9, 0]), Cfg(6, 9, [9, 0]), Cfg(7, 9, [9, 0]));
  }

  lemma StreamLabel()
    ensures LabelAt(Stream(), 5, 0) == Some(5)
  {
    var code := Stream();
    assert LabelAt(code, 5, 5) == Some(5);
    assert LabelAt(code, 5, 4) == Some(5);
    assert LabelAt(code, 5, 3) == Some(5);
    assert LabelAt(code, 5, 2) == Some(5);
    assert LabelAt(code, 5, 1) == Some(5);
  }

  lemma SixSteps(code: seq<Inst>, m: Machine, c0: Cfg, c1: Cfg, c2: Cfg, c3: Cfg, c4: Cfg, c5: Cfg, c6: Cfg)
    requires Step(code, m, {}, c0) == Some(c1) && Step(code, m, {}, c1) == Some(c2) && Step(code, m, {}, c2) == Some(c3)
    requires Step(code, m, {}, c3) == Some(c4) && Step(code, m, {}, c4) == Some(c5) && Step(code, m, {}, c5) == Some(c6)
    ensures Run(code, m, {}, c0, 6) == c6
  {
    hide Step;
    assert Run(code, m, {}, c5, 1) == Run(code, m, {}, c6, 0) == c6;
    assert Run(code, m, {}, c4, 2) == c6;
    assert Run(code, m, {}, c3, 3) == c6;
    assert Run(code, m, {}, c2, 4) == c6;
    assert Run(code, m, {}, c1, 5) == c6;
  }
}
