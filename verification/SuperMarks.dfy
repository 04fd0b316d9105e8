/** What a contract that misses a needed location costs: some honest table with the same effects, and some program
    equivalent on the contract, after which the function does not return as before. */
module SuperMarks {
  import opened Options
  import opened SlotCode
  import opened CodeNeeds
  import opened SuperLiveness
  import opened SuperNeeds
  import opened SuperCommits

  // ---------------------------------------------------------------------
  // a table on doubled values, where odd ones are marks
  // ---------------------------------------------------------------------

  function Half(st: seq<int>): (r: seq<int>)
    ensures |r| == |st| && forall k | 0 <= k < |st| :: r[k] == st[k] / 2
  {
    seq(|st|, k requires 0 <= k < |st| => st[k] / 2)
  }

  function Twice(st: seq<int>): (r: seq<int>)
    ensures |r| == |st| && forall k | 0 <= k < |st| :: r[k] == 2 * st[k]
  {
    seq(|st|, k requires 0 <= k < |st| => 2 * st[k])
  }

  /** The instruction reads a marked location. */
  ghost predicate ReadsMark(isa: Isa, i: Inst, st: seq<int>) {
    exists k :: k in Gen(isa, i) && k < |st| && st[k] % 2 == 1
  }

  /** Marks stay where the instruction does not certainly overwrite. */
  ghost function Carried(isa: Isa, i: Inst, st: seq<int>, v: seq<int>): (r: seq<int>)
    ensures |r| == |v|
    ensures forall k: nat | k < |v| :: r[k] == 2 * v[k] + if k < |st| && k !in Kill(isa, i) then st[k] % 2 else 0
  {
    seq(|v|, k requires 0 <= k < |v| => 2 * v[k] + if k < |st| && k !in Kill(isa, i) then st[k] % 2 else 0)
  }

  ghost function MarkedExec(isa: Isa, i: Inst, st: seq<int>): Option<seq<int>> {
    if ReadsMark(isa, i, st) then None
    else
      var v := isa.exec(i, Half(st));
      if v.Some? then Some(Carried(isa, i, st, v.value)) else None
  }

  function Mark(st: seq<int>, l: nat): (r: seq<int>)
    ensures |r| == |st| && forall k | 0 <= k < |st| :: r[k] == if k == l then 2 * (st[k] / 2) + 1 else st[k]
  {
    if l < |st| then st[l := 2 * (st[l] / 2) + 1] else st
  }

  /** The table on doubled values. Reading a mark is a fault, branches do not look at marks; `s`, of which nothing is
      declared, marks location l. */
  ghost function Marking(isa: Isa, s: Inst, l: nat): Isa {
    Isa(isa.locs,
        (i: Inst) => if i == s then None else isa.effects(i),
        (i: Inst, st: seq<int>) => if i == s then Some(Mark(st, l)) else MarkedExec(isa, i, st),
        (i: Inst, st: seq<int>) => isa.taken(i, Half(st)))
  }

  lemma MarkedHonest(isa: Isa, i: Inst, a: seq<int>, b: seq<int>)
    requires Honest(isa) && |a| == isa.locs && Agree(a, b, Gen(isa, i))
    ensures isa.taken(i, Half(a)) == isa.taken(i, Half(b)) && MarkedExec(isa, i, a).Some? == MarkedExec(isa, i, b).Some?
    ensures MarkedExec(isa, i, a).Some? ==>
              var v, w := MarkedExec(isa, i, a).value, MarkedExec(isa, i, b).value;
              && |v| == |w| == isa.locs
              && forall k: nat | k < isa.locs && (k in Kill(isa, i) || a[k] == b[k]) :: v[k] == w[k]
  {
    assert Agree(Half(a), Half(b), Gen(isa, i));
    assert HonestOn(isa, i, Half(a), Half(b));
    if ReadsMark(isa, i, a) {
      var k :| k in Gen(isa, i) && k < |a| && a[k] % 2 == 1;
      assert b[k] == a[k];
    }
    if ReadsMark(isa, i, b) {
      var k :| k in Gen(isa, i) && k < |b| && b[k] % 2 == 1;
      assert a[k] == b[k];
    }
  }

  lemma MarkingHonest(isa: Isa, s: Inst, l: nat)
    requires Honest(isa) && Plain(s)
    ensures Honest(Marking(isa, s, l))
  {
    var mk := Marking(isa, s, l);
    forall i: Inst, a: seq<int>, b: seq<int> | |a| == mk.locs && Agree(a, b, Gen(mk, i)) ensures HonestOn(mk, i, a, b) {
      if i == s {
        assert Gen(mk, s) == AllLocs(isa.locs);
        assert a == b;
        assert mk.exec(s, a) == Some(Mark(a, l));
      } else {
        assert Gen(mk, i) == Gen(isa, i) && Kill(mk, i) == Kill(isa, i);
        assert mk.exec(i, a) == MarkedExec(isa, i, a) && mk.exec(i, b) == MarkedExec(isa, i, b);
        MarkedHonest(isa, i, a, b);
      }
    }
    forall i: Inst | !Plain(i) ensures Kill(mk, i) == {} {
      assert Kill(mk, i) == Kill(isa, i);
    }
  }

  // ---------------------------------------------------------------------
  // the analysis does not see the difference
  // ---------------------------------------------------------------------

  ghost predicate Fresh(code: seq<Inst>, s: Inst) {
    Plain(s) && s !in code
  }

  lemma {:induction false} SameBackward(isa: Isa, code: seq<Inst>, s: Inst, l: nat, lo: nat, hi: nat, live: set<nat>)
    requires Fresh(code, s) && hi <= |code|
    ensures Backward(Marking(isa, s, l), code, lo, hi, live) == Backward(isa, code, lo, hi, live)
    decreases hi
  {
    if lo < hi {
      assert code[hi - 1] in code;
      SameBackward(isa, code, s, l, lo, hi - 1, TransferInst(isa, code[hi - 1], live));
    }
  }

  lemma {:induction false} SameRegion1(isa: Isa, code: seq<Inst>, s: Inst, l: nat, lo: nat, hi: nat)
    requires Fresh(code, s) && hi <= |code|
    ensures RegionGen(Marking(isa, s, l), code, lo, hi) == RegionGen(isa, code, lo, hi)
    ensures RegionKill(Marking(isa, s, l), code, lo, hi) == RegionKill(isa, code, lo, hi)
    decreases hi - lo
  {
    if lo < hi {
      assert code[lo] in code;
      SameRegion1(isa, code, s, l, lo + 1, hi);
    }
  }

  lemma SameLiveness(isa: Isa, code: seq<Inst>, lv: Liveness, s: Inst, l: nat, c: Commit)
    requires Fresh(code, s) && LivenessOk(isa, code, lv) && c.w1 <= |code|
    ensures LivenessOk(Marking(isa, s, l), code, lv) && Contract(Marking(isa, s, l), code, lv, c) == Contract(isa, code, lv, c)
  {
    var mk := Marking(isa, s, l);
    forall k: nat | k < |lv.rg.begins| ensures FlowAt(mk, code, lv.rg, lv.f, k) {
      assert FlowAt(isa, code, lv.rg, lv.f, k);
      SameRegion1(isa, code, s, l, lv.rg.begins[k], lv.rg.ends[k]);
    }
    assert LivenessOk(mk, code, lv);
    if c.w0 < |code| && lv.rg.start <= c.w0 && lv.rg.regionOf[c.w0] < |lv.rg.begins| {
      var k := lv.rg.regionOf[c.w0];
      assert FlowAt(isa, code, lv.rg, lv.f, k);
      SameBackward(isa, code, s, l, c.w1, lv.rg.ends[k], lv.outs[k]);
    }
  }

  // ---------------------------------------------------------------------
  // the program: the window, and a mark
  // ---------------------------------------------------------------------

  function MarkCommit(code: seq<Inst>, w0: nat, w1: nat, s: Inst): Commit
    requires w0 < w1 <= |code|
  {
    Commit(w0, w1, code[w0..w1] + [s])
  }

  lemma {:induction false} RunAllSnoc(isa: Isa, prog: seq<Inst>, s: Inst, st: seq<int>)
    ensures RunAll(isa, prog + [s], st) == var m := RunAll(isa, prog, st); if m.Some? then isa.exec(s, m.value) else None
    decreases |prog|
  {
    if prog == [] {
      assert [s][1..] == [];
      assert prog + [s] == [s];
      if isa.exec(s, st).Some? {
        assert RunAll(isa, [], isa.exec(s, st).value) == isa.exec(s, st);
      }
    } else {
      assert (prog + [s])[0] == prog[0] && (prog + [s])[1..] == prog[1..] + [s];
      if isa.exec(prog[0], st).Some? {
        RunAllSnoc(isa, prog[1..], s, isa.exec(prog[0], st).value);
      }
    }
  }

  lemma MarkEquivalent(isa: Isa, window: seq<Inst>, s: Inst, l: nat, contract: set<nat>)
    requires l !in contract
    ensures Equivalent(Marking(isa, s, l), window, window + [s], contract)
  {
    var mk := Marking(isa, s, l);
    forall st: seq<int> | |st| == mk.locs ensures EquivalentOn(mk, window, window + [s], contract, st) {
      RunAllSnoc(mk, window, s, st);
      var w := RunAll(mk, window, st);
      if w.Some? {
        assert mk.exec(s, w.value) == Some(Mark(w.value, l));
      }
    }
  }

  // ---------------------------------------------------------------------
  // runs of both
  // ---------------------------------------------------------------------

  lemma PlainExec(isa: Isa, i: Inst, a: seq<int>)
    requires Honest(isa) && |a| == isa.locs && isa.exec(i, a).Some?
    ensures |isa.exec(i, a).value| == isa.locs
  {
    assert Agree(a, a, Gen(isa, i));
    assert HonestOn(isa, i, a, a);
  }

  /** One instruction on doubled values: the same place, the same halves; marks stay unless overwritten. */
  lemma StepHalf(isa: Isa, code: seq<Inst>, s: Inst, l: nat, p: nat, a: seq<int>, b: seq<int>)
    requires Honest(isa) && Fresh(code, s) && p < |code| && |a| == isa.locs && Half(b) == a && Next1(isa, code, Point(p, a)).Some?
    requires Plain(code[p]) ==> Marking(isa, s, l).exec(code[p], b).Some?
    ensures var c, d := Next1(isa, code, Point(p, a)).value, Next1(Marking(isa, s, l), code, Point(p, b));
            && d.Some? && d.value.pc == c.pc && Half(d.value.st) == c.st && |c.st| == isa.locs
            && (l < isa.locs && b[l] % 2 == 1 && l !in Kill(isa, code[p]) ==> d.value.st[l] % 2 == 1)
  {
    assert code[p] in code;
    if Plain(code[p]) {
      PlainExec(isa, code[p], a);
      var v := isa.exec(code[p], a).value;
      assert MarkedExec(isa, code[p], b) == Some(Carried(isa, code[p], b, v));
      assert Half(Carried(isa, code[p], b, v)) == v;
    }
  }

  lemma {:induction false} StretchHalf(isa: Isa, s: Inst, l: nat, prog: seq<Inst>, a: seq<int>, b: seq<int>)
    requires Honest(isa) && s !in prog && |a| == isa.locs && Half(b) == a
    requires RunAll(isa, prog, a).Some? && RunAll(Marking(isa, s, l), prog, b).Some?
    ensures Half(RunAll(Marking(isa, s, l), prog, b).value) == RunAll(isa, prog, a).value && |RunAll(isa, prog, a).value| == isa.locs
    decreases |prog|
  {
    if prog != [] {
      var v := isa.exec(prog[0], a).value;
      PlainExec(isa, prog[0], a);
      assert MarkedExec(isa, prog[0], b) == Some(Carried(isa, prog[0], b, v));
      assert Half(Carried(isa, prog[0], b, v)) == v;
      StretchHalf(isa, s, l, prog[1..], v, Carried(isa, prog[0], b, v));
    }
  }

  lemma EvenExec(isa: Isa, i: Inst, st: seq<int>)
    ensures Half(Twice(st)) == st
    ensures MarkedExec(isa, i, Twice(st)) == var v := isa.exec(i, st); if v.Some? then Some(Twice(v.value)) else None
  {
    assert Half(Twice(st)) == st;
    if isa.exec(i, st).Some? {
      assert Carried(isa, i, Twice(st), isa.exec(i, st).value) == Twice(isa.exec(i, st).value);
    }
  }

  /** Without marks nothing changes. */
  lemma {:induction false} EvenRun(isa: Isa, code: seq<Inst>, s: Inst, l: nat, c: Point, n: nat, d: Point)
    requires Fresh(code, s) && Leads(isa, code, c, n, d)
    ensures Leads(Marking(isa, s, l), code, Point(c.pc, Twice(c.st)), n, Point(d.pc, Twice(d.st)))
    decreases n
  {
    if n > 0 {
      assert code[c.pc] in code;
      EvenExec(isa, code[c.pc], c.st);
      EvenRun(isa, code, s, l, Next1(isa, code, c).value, n - 1, d);
    }
  }

  /** None of the next n instructions certainly overwrites l. */
  ghost predicate Keeps(isa: Isa, code: seq<Inst>, c: Point, n: nat, l: nat)
    decreases n
  {
    n == 0 || (c.pc < |code| && l !in Kill(isa, code[c.pc])
               && Next1(isa, code, c).Some? && Keeps(isa, code, Next1(isa, code, c).value, n - 1, l))
  }

  /** The setting: one window, its program the window and a mark. */
  ghost predicate Setting(isa: Isa, code: seq<Inst>, s: Inst, l: nat, w0: nat, w1: nat) {
    && Honest(isa) && LabelsDistinct(code) && Fresh(code, s) && l < isa.locs
    && w0 < w1 <= |code| && CommitsOk(code, [MarkCommit(code, w0, w1, s)], 0)
  }

  /** The new code's run from a place that returns in the end. */
  ghost predicate Returning(isa: Isa, F: seq<Inst>, from: Point, k: nat, e: Point) {
    Leads(isa, F, from, k, e) && e.pc < |F| && IsReturn(F[e.pc])
  }

  lemma LeadsSplit(isa: Isa, F: seq<Inst>, c: Point, k: nat, e: Point)
    requires Returning(isa, F, c, k, e) && (c.pc >= |F| || !IsReturn(F[c.pc]))
    ensures k > 0 && Next1(isa, F, c).Some? && Returning(isa, F, Next1(isa, F, c).value, k - 1, e)
  {
  }

  lemma SettingMoves(isa: Isa, code: seq<Inst>, s: Inst, l: nat, w0: nat, w1: nat)
    requires Setting(isa, code, s, l, w0, w1)
    ensures var cs := [MarkCommit(code, w0, w1, s)]; var F := Build(code, cs, 0);
            && Moved(cs, 0, w0) + (w1 - w0) + 1 <= |F| && Moved(cs, 0, w1) == Moved(cs, 0, w0) + (w1 - w0) + 1
            && F[Moved(cs, 0, w0)..Moved(cs, 0, w1)] == code[w0..w1] + [s]
            && (forall q | w0 <= q < w1 :: Plain(code[q])) && Clear(cs, w1)
  {
    WindowMoves(code, [MarkCommit(code, w0, w1, s)], 0, 0);
  }

  /** Through the window: the new code comes out of it with l marked. */
  lemma CrossMarked(isa: Isa, code: seq<Inst>, s: Inst, l: nat, w0: nat, w1: nat, a: seq<int>, b: seq<int>, k: nat, e: Point)
    returns (j: nat, t: seq<int>)
    requires Setting(isa, code, s, l, w0, w1) && |a| == isa.locs && Half(b) == a && RunAll(isa, code[w0..w1], a).Some?
    requires var cs := [MarkCommit(code, w0, w1, s)];
             Returning(Marking(isa, s, l), Build(code, cs, 0), Point(Moved(cs, 0, w0), b), k, e)
    ensures Half(t) == RunAll(isa, code[w0..w1], a).value && |t| == isa.locs && t[l] % 2 == 1
    ensures var cs := [MarkCommit(code, w0, w1, s)];
            Moved(cs, 0, w1) >= 0 && j <= k && Returning(Marking(isa, s, l), Build(code, cs, 0), Point(Moved(cs, 0, w1), t), k - j, e)
  {
    var mk, cs := Marking(isa, s, l), [MarkCommit(code, w0, w1, s)];
    var F := Build(code, cs, 0);
    SettingMoves(isa, code, s, l, w0, w1);
    var at, to := Moved(cs, 0, w0), Moved(cs, 0, w1);
    forall q | at <= q < to ensures Plain(F[q]) {
      assert F[q] == F[at..to][q - at];
    }
    hide Build, Moved, Setting, Next1;
    ThroughWindow(mk, F, at, to, b, k, e);
    RunAllSnoc(mk, code[w0..w1], s, b);
    var m := RunAll(mk, code[w0..w1], b).value;
    HalfThrough(isa, code, s, l, w0, w1, a, b);
    j, t := to - at, Mark(m, l);
    assert Half(t) == Half(m);
  }

  lemma HalfThrough(isa: Isa, code: seq<Inst>, s: Inst, l: nat, w0: nat, w1: nat, a: seq<int>, b: seq<int>)
    requires Setting(isa, code, s, l, w0, w1) && |a| == isa.locs && Half(b) == a
    requires RunAll(isa, code[w0..w1], a).Some? && RunAll(Marking(isa, s, l), code[w0..w1], b).Some?
    ensures var m := RunAll(Marking(isa, s, l), code[w0..w1], b).value;
            Half(m) == RunAll(isa, code[w0..w1], a).value && |m| == isa.locs > l
  {
    forall q | 0 <= q < |code[w0..w1]| ensures code[w0..w1][q] != s {
      assert code[w0..w1][q] in code;
    }
    StretchHalf(isa, s, l, code[w0..w1], a, b);
  }

  /** Outside the window: one instruction in each. */
  lemma StepMarked(isa: Isa, code: seq<Inst>, s: Inst, l: nat, w0: nat, w1: nat, p: nat, a: seq<int>, b: seq<int>, k: nat, e: Point)
    returns (t: seq<int>)
    requires Setting(isa, code, s, l, w0, w1) && p < |code| && Outside([MarkCommit(code, w0, w1, s)], p)
    requires |a| == isa.locs && Half(b) == a && Next1(isa, code, Point(p, a)).Some?
    requires var cs := [MarkCommit(code, w0, w1, s)];
             Returning(Marking(isa, s, l), Build(code, cs, 0), Point(Moved(cs, 0, p), b), k, e)
    ensures var c, cs := Next1(isa, code, Point(p, a)).value, [MarkCommit(code, w0, w1, s)];
            && Half(t) == c.st && |t| == isa.locs && Clear(cs, c.pc) && k > 0
            && Returning(Marking(isa, s, l), Build(code, cs, 0), Point(Moved(cs, 0, c.pc), t), k - 1, e)
            && (b[l] % 2 == 1 && l !in Kill(isa, code[p]) ==> t[l] % 2 == 1)
  {
    var mk, cs := Marking(isa, s, l), [MarkCommit(code, w0, w1, s)];
    var F := Build(code, cs, 0);
    OutsideMoves(code, cs, 0, p);
    hide Build, Moved, Outside, LabelsDistinct, CommitsOk, Honest, Returning, Clear;
    LeadsSplit(mk, F, Point(Moved(cs, 0, p), b), k, e);
    StepHalf(isa, code, s, l, p, a, b);
    StepMoves(mk, code, cs, p, b);
    t := Next1(mk, code, Point(p, b)).value.st;
  }

  /** As long as the new code is to return, it goes where the old one goes, marks apart; and a mark on l stays while
      nothing overwrites it. */
  lemma {:induction false} FollowMarked(isa: Isa, code: seq<Inst>, s: Inst, l: nat, w0: nat, w1: nat, p: nat, a: seq<int>, b: seq<int>,
                                        n: nat, d: Point, k: nat, e: Point, marked: bool)
    returns (j: nat, t: seq<int>)
    requires Setting(isa, code, s, l, w0, w1) && Clear([MarkCommit(code, w0, w1, s)], p) && !(w0 < d.pc < w1)
    requires |a| == isa.locs && Half(b) == a && Leads(isa, code, Point(p, a), n, d)
    requires marked ==> b[l] % 2 == 1 && Keeps(isa, code, Point(p, a), n, l)
    requires var cs := [MarkCommit(code, w0, w1, s)];
             Returning(Marking(isa, s, l), Build(code, cs, 0), Point(Moved(cs, 0, p), b), k, e)
    ensures Half(t) == d.st && |t| == isa.locs && (marked ==> t[l] % 2 == 1) && j <= k
    ensures var cs := [MarkCommit(code, w0, w1, s)];
            Returning(Marking(isa, s, l), Build(code, cs, 0), Point(Moved(cs, 0, d.pc), t), k - j, e)
    decreases n
  {
    hide Build, Moved, Next1, RunAll, Marking, Clear, Returning;
    var cs := [MarkCommit(code, w0, w1, s)];
    if n == 0 {
      j, t := 0, b;
    } else if p == w0 {
      PassWindow(isa, code, s, l, w0, w1, a, n, d, marked);
      var i, u := CrossMarked(isa, code, s, l, w0, w1, a, b, k, e);
      SettingMoves(isa, code, s, l, w0, w1);
      j, t := FollowMarked(isa, code, s, l, w0, w1, w1, RunAll(isa, code[w0..w1], a).value, u, n - (w1 - w0), d, k - i, e, marked);
      j := j + i;
    } else {
      LeadsFirst(isa, code, Point(p, a), n, d);
      InBounds(isa, code, Point(p, a));
      var next := Next1(isa, code, Point(p, a)).value;
      ClearNotAt(code, s, w0, w1, p);
      var u := StepMarked(isa, code, s, l, w0, w1, p, a, b, k, e);
      j, t := FollowMarked(isa, code, s, l, w0, w1, next.pc, next.st, u, n - 1, d, k - 1, e, marked);
      j := j + 1;
    }
  }

  lemma ClearNotAt(code: seq<Inst>, s: Inst, w0: nat, w1: nat, p: nat)
    requires w0 < w1 <= |code| && Clear([MarkCommit(code, w0, w1, s)], p) && p != w0
    ensures Outside([MarkCommit(code, w0, w1, s)], p)
  {
    var cs := [MarkCommit(code, w0, w1, s)];
    assert !(cs[0].w0 < p < cs[0].w1);
  }

  /** A run from the window's start to a place not in it has passed it. */
  lemma PassWindow(isa: Isa, code: seq<Inst>, s: Inst, l: nat, w0: nat, w1: nat, a: seq<int>, n: nat, d: Point, marked: bool)
    requires Setting(isa, code, s, l, w0, w1) && |a| == isa.locs && n > 0 && Leads(isa, code, Point(w0, a), n, d) && !(w0 < d.pc < w1)
    requires marked ==> Keeps(isa, code, Point(w0, a), n, l)
    ensures RunAll(isa, code[w0..w1], a).Some? && n >= w1 - w0 && |RunAll(isa, code[w0..w1], a).value| == isa.locs
    ensures Leads(isa, code, Point(w1, RunAll(isa, code[w0..w1], a).value), n - (w1 - w0), d)
    ensures marked ==> Keeps(isa, code, Point(w1, RunAll(isa, code[w0..w1], a).value), n - (w1 - w0), l)
  {
    SettingMoves(isa, code, s, l, w0, w1);
    var next := Next1(isa, code, Point(w0, a)).value;
    assert code[w0..w1][1..] == code[w0 + 1..w1];
    PlainExec(isa, code[w0], a);
    hide Setting;
    PassStretch(isa, code, w0 + 1, w1, next.st, n - 1, d, l, marked);
  }

  lemma {:induction false} PassStretch(isa: Isa, code: seq<Inst>, q: nat, w1: nat, a: seq<int>, n: nat, d: Point, l: nat, marked: bool)
    requires Honest(isa) && q <= w1 <= |code| && (forall p | q <= p < w1 :: Plain(code[p])) && |a| == isa.locs
    requires Leads(isa, code, Point(q, a), n, d) && !(q <= d.pc < w1) && (marked ==> Keeps(isa, code, Point(q, a), n, l))
    ensures RunAll(isa, code[q..w1], a).Some? && n >= w1 - q && |RunAll(isa, code[q..w1], a).value| == isa.locs
    ensures Leads(isa, code, Point(w1, RunAll(isa, code[q..w1], a).value), n - (w1 - q), d)
    ensures marked ==> Keeps(isa, code, Point(w1, RunAll(isa, code[q..w1], a).value), n - (w1 - q), l)
    decreases w1 - q
  {
    if q < w1 {
      assert code[q..w1][1..] == code[q + 1..w1];
      PlainExec(isa, code[q], a);
      PassStretch(isa, code, q + 1, w1, Next1(isa, code, Point(q, a)).value.st, n - 1, d, l, marked);
    }
  }

  // ---------------------------------------------------------------------
  // a contract that misses a need
  // ---------------------------------------------------------------------

  /** A run that goes through the window to r, where location l is read as it came out of the window, and on to a
      return at d. */
  ghost predicate ReadsBehind(isa: Isa, code: seq<Inst>, w0: nat, w1: nat, l: nat, a: seq<int>, s0: seq<int>, n: nat, k: nat, r: Point, j: nat, d: Point)
    requires w0 < w1 <= |code|
  {
    && |a| == isa.locs && Leads(isa, code, Point(0, a), n, Point(w0, s0))
    && var m := RunAll(isa, code[w0..w1], s0);
    && m.Some? && Leads(isa, code, Point(w1, m.value), k, r) && Keeps(isa, code, Point(w1, m.value), k, l)
    && r.pc < |code| && !(w0 <= r.pc < w1) && l in Gen(isa, code[r.pc]) && (Plain(code[r.pc]) || IsReturn(code[r.pc]))
    && Leads(isa, code, r, j, d) && d.pc < |code| && IsReturn(code[d.pc])
  }

  /** An instruction that is not in the code. */
  function Unused(code: seq<Inst>): (s: Inst)
    ensures Fresh(code, s)
  {
    var s := Inst(Other, AboveTags(code), Absent, Absent);
    TagsBelow(code);
    s
  }

  function AboveTags(code: seq<Inst>): int {
    if code == [] then 0
    else
      var rest := AboveTags(code[1..]);
      if code[0].tag >= rest then code[0].tag + 1 else rest
  }

  lemma {:induction false} TagsBelow(code: seq<Inst>)
    ensures forall i | i in code :: i.tag < AboveTags(code)
  {
    if code != [] {
      TagsBelow(code[1..]);
      assert code == [code[0]] + code[1..];
    }
  }

  /** The allowed replacement of the window by itself and a mark. */
  lemma MarkAllowed(isa: Isa, code: seq<Inst>, lv: Liveness, w0: nat, w1: nat, l: nat, s: Inst)
    requires Honest(isa) && LabelsDistinct(code) && LivenessOk(isa, code, lv) && Fresh(code, s) && l < isa.locs
    requires w0 < w1 <= |code| && (forall p | w0 <= p < w1 :: Plain(code[p])) && l !in Contract(isa, code, lv, MarkCommit(code, w0, w1, s))
    ensures Setting(isa, code, s, l, w0, w1) && Honest(Marking(isa, s, l)) && LivenessOk(Marking(isa, s, l), code, lv)
    ensures AllEquivalent(Marking(isa, s, l), code, lv, [MarkCommit(code, w0, w1, s)])
  {
    var c := MarkCommit(code, w0, w1, s);
    assert CommitsOk(code, [c], 0) by {
      assert [c][1..] == [];
    }
    MarkingHonest(isa, s, l);
    SameLiveness(isa, code, lv, s, l, c);
    MarkEquivalent(isa, code[w0..w1], s, l, Contract(isa, code, lv, c));
  }

  /** If a contract misses a location that a run reads behind the window on its way to a return, then under some honest
      table that declares the same of all the code, with the same liveness, a program equivalent to the window on the
      contract changes the function: the original still returns, at the same place, and the new code never does so
      with the same values. */
  lemma MissedNeedBreaks(isa: Isa, code: seq<Inst>, lv: Liveness, w0: nat, w1: nat, l: nat,
                         a: seq<int>, s0: seq<int>, n: nat, k: nat, r: Point, j: nat, d: Point) returns (isa': Isa, c: Commit)
    requires Honest(isa) && LabelsDistinct(code) && LivenessOk(isa, code, lv) && l < isa.locs
    requires w0 < w1 <= |code| && (forall p | w0 <= p < w1 :: Plain(code[p])) && l !in Contract(isa, code, lv, Commit(w0, w1, []))
    requires ReadsBehind(isa, code, w0, w1, l, a, s0, n, k, r, j, d)
    ensures Honest(isa') && isa'.locs == isa.locs && (forall i | i in code :: isa'.effects(i) == isa.effects(i)) && LivenessOk(isa', code, lv)
    ensures c.w0 == w0 && c.w1 == w1 && CommitsOk(code, [c], 0) && AllEquivalent(isa', code, lv, [c])
    ensures exists m: nat :: Leads(isa', code, Point(0, Twice(a)), m, Point(d.pc, Twice(d.st)))
    ensures forall m: nat, e: Point :: !ReturnsLike(isa', code, Build(code, [c], 0), Twice(a), Point(d.pc, Twice(d.st)), m, e)
  {
    var s := Unused(code);
    isa', c := Marking(isa, s, l), MarkCommit(code, w0, w1, s);
    assert Contract(isa, code, lv, c) == Contract(isa, code, lv, Commit(w0, w1, []));
    MarkAllowed(isa, code, lv, w0, w1, l, s);
    WholeRun(isa, code, w0, w1, l, a, s0, n, k, r, j, d);
    EvenRun(isa, code, s, l, Point(0, a), n + (w1 - w0) + k + j, d);
    forall m: nat, e: Point ensures !ReturnsLike(isa', code, Build(code, [c], 0), Twice(a), Point(d.pc, Twice(d.st)), m, e) {
      NoLikeReturn(isa, code, s, w0, w1, l, a, s0, n, k, r, j, d, m, e);
    }
  }

  lemma WholeRun(isa: Isa, code: seq<Inst>, w0: nat, w1: nat, l: nat, a: seq<int>, s0: seq<int>, n: nat, k: nat, r: Point, j: nat, d: Point)
    requires w0 < w1 <= |code| && (forall p | w0 <= p < w1 :: Plain(code[p])) && ReadsBehind(isa, code, w0, w1, l, a, s0, n, k, r, j, d)
    ensures Leads(isa, code, Point(0, a), n + (w1 - w0) + k + j, d)
  {
    var window := code[w0..w1];
    StraightLeads(isa, code, w0, window, s0);
    var mid := Point(w1, RunAll(isa, window, s0).value);
    LeadsOn(isa, code, Point(0, a), n, Point(w0, s0), w1 - w0, mid);
    LeadsOn(isa, code, Point(0, a), n + (w1 - w0), mid, k, r);
    LeadsOn(isa, code, Point(0, a), n + (w1 - w0) + k, r, j, d);
  }

  lemma NoLikeReturn(isa: Isa, code: seq<Inst>, s: Inst, w0: nat, w1: nat, l: nat, a: seq<int>, s0: seq<int>, n: nat, k: nat, r: Point, j: nat, d: Point, m: nat, e: Point)
    requires Setting(isa, code, s, l, w0, w1) && ReadsBehind(isa, code, w0, w1, l, a, s0, n, k, r, j, d)
    ensures !ReturnsLike(Marking(isa, s, l), code, Build(code, [MarkCommit(code, w0, w1, s)], 0), Twice(a), Point(d.pc, Twice(d.st)), m, e)
  {
    var mk, cs := Marking(isa, s, l), [MarkCommit(code, w0, w1, s)];
    var F, d2 := Build(code, cs, 0), Point(d.pc, Twice(d.st));
    if ReturnsLike(mk, code, F, Twice(a), d2, m, e) {
      var k', t := ReachesReader(isa, code, s, w0, w1, l, a, s0, n, k, r, j, d, m, e);
      ReaderTells(isa, code, s, w0, w1, l, r, t, j, d, k', e);
      assert false;
    }
  }

  /** A new run that returns gets to the reader with l marked. */
  lemma ReachesReader(isa: Isa, code: seq<Inst>, s: Inst, w0: nat, w1: nat, l: nat, a: seq<int>, s0: seq<int>, n: nat, k: nat, r: Point, j: nat, d: Point, m: nat, e: Point)
    returns (k': nat, t: seq<int>)
    requires Setting(isa, code, s, l, w0, w1) && ReadsBehind(isa, code, w0, w1, l, a, s0, n, k, r, j, d)
    requires Returning(Marking(isa, s, l), Build(code, [MarkCommit(code, w0, w1, s)], 0), Point(0, Twice(a)), m, e)
    ensures Half(t) == r.st && |t| == isa.locs && t[l] % 2 == 1
    ensures var cs := [MarkCommit(code, w0, w1, s)];
            Returning(Marking(isa, s, l), Build(code, cs, 0), Point(Moved(cs, 0, r.pc), t), k', e)
  {
    hide Build, Leads, Keeps, RunAll, Marking, Clear, Returning;
    var cs := [MarkCommit(code, w0, w1, s)];
    assert Half(Twice(a)) == a;
    FromTheStart(code, cs);
    SettingMoves(isa, code, s, l, w0, w1);
    var j1, t1 := FollowMarked(isa, code, s, l, w0, w1, 0, a, Twice(a), n, Point(w0, s0), m, e, false);
    var j2, t2 := CrossMarked(isa, code, s, l, w0, w1, s0, t1, m - j1, e);
    var mid := RunAll(isa, code[w0..w1], s0).value;
    var j3;
    j3, t := FollowMarked(isa, code, s, l, w0, w1, w1, mid, t2, k, r, m - j1 - j2, e, true);
    k' := m - j1 - j2 - j3;
  }

  /** There it faults, or returns with another value. */
  lemma ReaderTells(isa: Isa, code: seq<Inst>, s: Inst, w0: nat, w1: nat, l: nat, r: Point, t: seq<int>, j: nat, d: Point, k: nat, e: Point)
    requires Setting(isa, code, s, l, w0, w1) && |t| == isa.locs && t[l] % 2 == 1 && r.pc < |code| && !(w0 <= r.pc < w1) && l in Gen(isa, code[r.pc])
    requires (Plain(code[r.pc]) || IsReturn(code[r.pc])) && Leads(isa, code, r, j, d) && d.pc < |code| && IsReturn(code[d.pc])
    requires var cs := [MarkCommit(code, w0, w1, s)];
             Returning(Marking(isa, s, l), Build(code, cs, 0), Point(Moved(cs, 0, r.pc), t), k, e)
    ensures !(|e.st| == |d.st| && ReadsAlike(Marking(isa, s, l), code[d.pc], Twice(d.st), e.st))
  {
    var mk, cs := Marking(isa, s, l), [MarkCommit(code, w0, w1, s)];
    var F := Build(code, cs, 0);
    assert Outside(cs, r.pc);
    OutsideMoves(code, cs, 0, r.pc);
    assert code[r.pc] in code;
    hide Build, Moved, Setting;
    if Plain(code[r.pc]) {
      assert ReadsMark(isa, code[r.pc], t);
      LeadsSplit(mk, F, Point(Moved(cs, 0, r.pc), t), k, e);
      assert false;
    } else {
      assert d == r && e.st == t;
      assert l in Gen(mk, code[d.pc]) && (|t| == |d.st| ==> Twice(d.st)[l] != t[l]);
    }
  }
}
