/** Replacing windows by equivalent programs: the new code simulates the old on everything that is needed. */
module SuperCommits {
  import opened Options
  import opened SlotCode
  import opened CodeNeeds
  import opened SlotLiveness
  import opened SuperLiveness
  import opened SuperNeeds

  // ---------------------------------------------------------------------
  // windows and their replacements
  // ---------------------------------------------------------------------

  datatype Commit = Commit(w0: nat, w1: nat, prog: seq<Inst>)

  /** Windows in order, apart, inside the code from `from` on; only plain instructions in them and in the programs. */
  ghost predicate CommitsOk(code: seq<Inst>, cs: seq<Commit>, from: nat)
    decreases |cs|
  {
    if cs == [] then from <= |code|
    else
      var c := cs[0];
      && from <= c.w0 < c.w1 <= |code|
      && (forall p | c.w0 <= p < c.w1 :: Plain(code[p])) && (forall j | 0 <= j < |c.prog| :: Plain(c.prog[j]))
      && CommitsOk(code, cs[1..], c.w1)
  }

  /** The code from `from` on with every window replaced. */
  function Build(code: seq<Inst>, cs: seq<Commit>, from: nat): seq<Inst>
    requires CommitsOk(code, cs, from)
    decreases |cs|
  {
    if cs == [] then code[from..] else code[from..cs[0].w0] + cs[0].prog + Build(code, cs[1..], cs[0].w1)
  }

  /** Where position p ends up; a position inside a window ends up where its program starts. */
  function Moved(cs: seq<Commit>, from: nat, p: nat): nat
    requires from <= p
    decreases |cs|
  {
    if cs == [] || p <= cs[0].w0 || cs[0].w0 < from then p - from
    else cs[0].w0 - from + if p < cs[0].w1 then 0 else |cs[0].prog| + Moved(cs[1..], cs[0].w1, p)
  }

  ghost predicate Outside(cs: seq<Commit>, p: nat) {
    forall i | 0 <= i < |cs| :: !(cs[i].w0 <= p < cs[i].w1)
  }

  /** Not past the start of a window still open: a place where the two codes can be compared. */
  ghost predicate Clear(cs: seq<Commit>, p: nat) {
    forall i | 0 <= i < |cs| :: !(cs[i].w0 < p < cs[i].w1)
  }

  lemma OutsideLater(cs: seq<Commit>, p: nat)
    requires cs != [] && Outside(cs, p)
    ensures Outside(cs[1..], p) && !(cs[0].w0 <= p < cs[0].w1)
  {
    forall i | 0 <= i < |cs[1..]| ensures !(cs[1..][i].w0 <= p < cs[1..][i].w1) {
      assert cs[1..][i] == cs[i + 1];
    }
  }

  lemma {:induction false} CommitsLater(code: seq<Inst>, cs: seq<Commit>, from: nat, i: nat)
    requires CommitsOk(code, cs, from) && i < |cs|
    ensures from <= cs[i].w0 < cs[i].w1 <= |code|
    ensures (forall p | cs[i].w0 <= p < cs[i].w1 :: Plain(code[p])) && (forall j | 0 <= j < |cs[i].prog| :: Plain(cs[i].prog[j]))
    decreases |cs|
  {
    if i > 0 {
      CommitsLater(code, cs[1..], cs[0].w1, i - 1);
    }
  }

  /** Outside the windows the new code has the old instructions, in order. */
  lemma {:induction false} OutsideMoves(code: seq<Inst>, cs: seq<Commit>, from: nat, p: nat)
    requires CommitsOk(code, cs, from) && from <= p < |code| && Outside(cs, p)
    ensures Moved(cs, from, p) < |Build(code, cs, from)| && Build(code, cs, from)[Moved(cs, from, p)] == code[p]
    ensures Moved(cs, from, p + 1) == Moved(cs, from, p) + 1
    decreases |cs|
  {
    if cs != [] {
      OutsideLater(cs, p);
      if p >= cs[0].w1 {
        OutsideMoves(code, cs[1..], cs[0].w1, p);
      }
    }
  }

  /** A window's program stands where the window stood, and what follows it follows. */
  lemma {:induction false} WindowMoves(code: seq<Inst>, cs: seq<Commit>, from: nat, i: nat)
    requires CommitsOk(code, cs, from) && i < |cs|
    ensures cs[i].w0 >= from && cs[i].w1 >= from
    ensures var at, F := Moved(cs, from, cs[i].w0), Build(code, cs, from);
            at + |cs[i].prog| <= |F| && F[at..at + |cs[i].prog|] == cs[i].prog && Moved(cs, from, cs[i].w1) == at + |cs[i].prog|
    decreases |cs|
  {
    CommitsLater(code, cs, from, i);
    if i > 0 {
      hide Plain;
      WindowMoves(code, cs[1..], cs[0].w1, i - 1);
      var F1 := Build(code, cs[1..], cs[0].w1);
      WindowsOrdered(code, cs, from, 0, i);
      SliceShifts(code[from..cs[0].w0] + cs[0].prog, F1, Moved(cs[1..], cs[0].w1, cs[i].w0), |cs[i].prog|);
    } else {
      StartOfNext(cs[1..], cs[0].w1);
    }
  }

  lemma SliceShifts(front: seq<Inst>, back: seq<Inst>, at: nat, n: nat)
    requires at + n <= |back|
    ensures (front + back)[|front| + at..|front| + at + n] == back[at..at + n]
  {
  }

  /** Every instruction of the new code is from a program or from outside the windows. */
  lemma {:induction false} Origin(code: seq<Inst>, cs: seq<Commit>, from: nat, x: nat) returns (q: nat)
    requires CommitsOk(code, cs, from) && x < |Build(code, cs, from)|
    ensures Plain(Build(code, cs, from)[x]) ||
            (from <= q < |code| && Outside(cs, q) && Moved(cs, from, q) == x && Build(code, cs, from)[x] == code[q])
    decreases |cs|
  {
    q := from + x;
    if cs != [] {
      var gap, size := cs[0].w0 - from, |cs[0].prog|;
      if x >= gap + size {
        q := Origin(code, cs[1..], cs[0].w1, x - gap - size);
        if !Plain(Build(code, cs, from)[x]) {
          OutsideEarlier(cs, q);
        }
      } else if x < gap {
        BeforeWindows(code, cs, from, q);
      }
    }
  }

  lemma OutsideEarlier(cs: seq<Commit>, q: nat)
    requires cs != [] && Outside(cs[1..], q) && q >= cs[0].w1
    ensures Outside(cs, q)
  {
    forall i | 0 <= i < |cs| ensures !(cs[i].w0 <= q < cs[i].w1) {
      assert i > 0 ==> cs[i] == cs[1..][i - 1];
    }
  }

  lemma {:induction false} BeforeWindows(code: seq<Inst>, cs: seq<Commit>, from: nat, q: nat)
    requires CommitsOk(code, cs, from) && cs != [] && q < cs[0].w0
    ensures Outside(cs, q)
    decreases |cs|
  {
    if |cs| > 1 {
      BeforeWindows(code, cs[1..], cs[0].w1, q);
    }
    forall i | 0 <= i < |cs| ensures !(cs[i].w0 <= q < cs[i].w1) {
      assert i > 0 ==> cs[i] == cs[1..][i - 1];
    }
  }

  lemma StartOfNext(cs: seq<Commit>, from: nat)
    ensures Moved(cs, from, from) == 0
  {
  }

  /** Past the last window and the code's end. */
  lemma {:induction false} EndMoves(code: seq<Inst>, cs: seq<Commit>, from: nat)
    requires CommitsOk(code, cs, from)
    ensures from <= |code| && Moved(cs, from, |code|) == |Build(code, cs, from)|
    decreases |cs|
  {
    if cs != [] {
      EndMoves(code, cs[1..], cs[0].w1);
    }
  }

  // ---------------------------------------------------------------------
  // committing back to front
  // ---------------------------------------------------------------------

  lemma {:induction false} BuildPrefix(code: seq<Inst>, cs: seq<Commit>, from: nat, x: nat)
    requires CommitsOk(code, cs, x) && from <= x
    ensures CommitsOk(code, cs, from) && Build(code, cs, from) == code[from..x] + Build(code, cs, x)
    decreases |cs|
  {
    if cs == [] {
      assert code[from..] == code[from..x] + code[x..];
    } else {
      var rest := Build(code, cs[1..], cs[0].w1);
      assert Build(code, cs, from) == code[from..cs[0].w0] + cs[0].prog + rest;
      assert Build(code, cs, x) == code[x..cs[0].w0] + cs[0].prog + rest;
      hide Build, CommitsOk;
      assert code[from..cs[0].w0] == code[from..x] + code[x..cs[0].w0];
      Regrouped(code[from..x], code[x..cs[0].w0], cs[0].prog, rest);
    }
  }

  lemma Regrouped(a: seq<Inst>, b: seq<Inst>, c: seq<Inst>, d: seq<Inst>)
    ensures (a + b) + c + d == a + (b + c + d)
  {
  }

  lemma {:induction false} CommitsSuffix(code: seq<Inst>, cs: seq<Commit>, from: nat, i: nat)
    requires CommitsOk(code, cs, from) && i <= |cs|
    ensures CommitsOk(code, cs[i..], if i == 0 then from else cs[i - 1].w1)
    decreases |cs|
  {
    if i == 0 {
      assert cs[0..] == cs;
    } else {
      CommitsSuffix(code, cs[1..], cs[0].w1, i - 1);
      assert cs[1..][i - 1..] == cs[i..];
    }
  }

  lemma CommitsUnder(code: seq<Inst>, cs: seq<Commit>, x: nat)
    requires CommitsOk(code, cs, x)
    ensures CommitsOk(code, cs, 0)
  {
  }

  /** Erases each window and inserts its program, last window first; positions of the earlier ones stay valid. */
  method ApplyCommits(code: seq<Inst>, cs: seq<Commit>) returns (r: seq<Inst>)
    requires CommitsOk(code, cs, 0)
    ensures r == Build(code, cs, 0)
  {
    r := code;
    var i := |cs|;
    assert cs[i..] == [];
    while i > 0
      invariant 0 <= i <= |cs| && CommitsOk(code, cs[i..], 0) && r == Build(code, cs[i..], 0)
    {
      i := i - 1;
      CommitsSuffix(code, cs, 0, i);
      CommitsSuffix(code, cs, 0, i + 1);
      CommitsLater(code, cs, 0, i);
      CommitsUnder(code, cs[i..], if i == 0 then 0 else cs[i - 1].w1);
      SpliceOne(code, cs[i..], r);
      r := r[..cs[i].w0] + cs[i].prog + r[cs[i].w1..];
    }
    assert cs[0..] == cs;
  }

  lemma SpliceOne(code: seq<Inst>, cs: seq<Commit>, r: seq<Inst>)
    requires cs != [] && CommitsOk(code, cs, 0) && CommitsOk(code, cs[1..], 0) && r == Build(code, cs[1..], 0)
    ensures cs[0].w1 <= |r| && r[..cs[0].w0] + cs[0].prog + r[cs[0].w1..] == Build(code, cs, 0)
  {
    var c := cs[0];
    BuildPrefix(code, cs[1..], 0, c.w1);
    assert r == code[0..c.w1] + Build(code, cs[1..], c.w1);
    assert r[..c.w0] == code[0..c.w0];
  }

  // ---------------------------------------------------------------------
  // the new code simulates the old
  // ---------------------------------------------------------------------

  /** From every state where the window does not fault neither does the program, and the two agree on the contract. */
  ghost predicate Equivalent(isa: Isa, window: seq<Inst>, prog: seq<Inst>, contract: set<nat>) {
    forall st: seq<int> | |st| == isa.locs :: EquivalentOn(isa, window, prog, contract, st)
  }

  ghost predicate EquivalentOn(isa: Isa, window: seq<Inst>, prog: seq<Inst>, contract: set<nat>, st: seq<int>) {
    var w, r := RunAll(isa, window, st), RunAll(isa, prog, st);
    w.Some? ==> r.Some? && Agree(w.value, r.value, contract)
  }

  /** The contract of a window: what is live where it ends. */
  ghost function Contract(isa: Isa, code: seq<Inst>, lv: Liveness, c: Commit): set<nat>
    requires LivenessOk(isa, code, lv)
  {
    if c.w0 < |code| && lv.rg.start <= c.w0 && lv.rg.regionOf[c.w0] < |lv.rg.begins| then LiveFrom(isa, code, lv, lv.rg.regionOf[c.w0], c.w1) else {}
  }

  ghost predicate AllEquivalent(isa: Isa, code: seq<Inst>, lv: Liveness, cs: seq<Commit>)
    requires LivenessOk(isa, code, lv)
  {
    forall i | 0 <= i < |cs| && cs[i].w0 <= cs[i].w1 <= |code| ::
      Equivalent(isa, code[cs[i].w0..cs[i].w1], cs[i].prog, Contract(isa, code, lv, cs[i]))
  }

  /** A stretch of plain instructions runs through. */
  lemma {:induction false} StraightLeads(isa: Isa, F: seq<Inst>, at: nat, prog: seq<Inst>, st: seq<int>)
    requires at + |prog| <= |F| && F[at..at + |prog|] == prog && (forall j | 0 <= j < |prog| :: Plain(prog[j]))
    requires RunAll(isa, prog, st).Some?
    ensures Leads(isa, F, Point(at, st), |prog|, Point(at + |prog|, RunAll(isa, prog, st).value))
    decreases |prog|
  {
    if prog != [] {
      assert F[at] == F[at..at + |prog|][0] == prog[0];
      assert F[at + 1..at + 1 + |prog[1..]|] == prog[1..];
      StraightLeads(isa, F, at + 1, prog[1..], isa.exec(prog[0], st).value);
    }
  }

  /** A run that ends clear of a window it is in has run through it. */
  lemma {:induction false} ThroughWindow(isa: Isa, code: seq<Inst>, q: nat, w1: nat, a: seq<int>, n: nat, d: Point)
    requires q <= w1 <= |code| && (forall p | q <= p < w1 :: Plain(code[p]))
    requires Leads(isa, code, Point(q, a), n, d) && !(q <= d.pc < w1)
    ensures RunAll(isa, code[q..w1], a).Some? && n >= w1 - q
    ensures Leads(isa, code, Point(w1, RunAll(isa, code[q..w1], a).value), n - (w1 - q), d)
    decreases w1 - q
  {
    if q < w1 {
      assert code[q..w1][1..] == code[q + 1..w1];
      ThroughWindow(isa, code, q + 1, w1, Next1(isa, code, Point(q, a)).value.st, n - 1, d);
    }
  }

  /** The window is a stretch of one region, and its contract is what is live behind it. */
  lemma WindowInRegion(isa: Isa, code: seq<Inst>, lv: Liveness, c: Commit)
    requires LivenessOk(isa, code, lv) && c.w0 < c.w1 <= |code| && (forall p | c.w0 <= p < c.w1 :: Plain(code[p])) && Inside(code, c.w0)
    ensures LiveHere(isa, code, lv, c.w1) <= Contract(isa, code, lv, c) && Inside(code, c.w1)
  {
    var k := RegionOfPoint(isa, code, lv, c.w0);
    RegionBounds(code, lv.rg, k);
    assert c.w1 <= lv.rg.ends[k];
    InsideBack(code, lv.rg.begins[k], c.w0);
    InsideFrom(code, c.w0, c.w1);
    hide Inside, LiveFrom, LiveHere;
    GoingOn(isa, code, lv, k, c.w1);
    assert Contract(isa, code, lv, c) == LiveFrom(isa, code, lv, k, c.w1);
  }

  /** The contracts of windows that control can reach hold whatever is needed behind them. */
  ghost predicate ContractsCover(isa: Isa, code: seq<Inst>, lv: Liveness, cs: seq<Commit>)
    requires LivenessOk(isa, code, lv)
  {
    forall i | 0 <= i < |cs| && Inside(code, cs[i].w0) :: NeededLocs(isa, code, cs[i].w1) <= Contract(isa, code, lv, cs[i])
  }

  /** They do if the branches are covered, whatever the windows. */
  lemma CoveredContracts(isa: Isa, code: seq<Inst>, lv: Liveness, cs: seq<Commit>)
    requires Honest(isa) && LivenessOk(isa, code, lv) && BranchesCovered(isa, code, lv) && CommitsOk(code, cs, 0)
    ensures ContractsCover(isa, code, lv, cs)
  {
    HoldsNeedsIff(isa, code, lv);
    hide LivenessOk, Honest, BranchesCovered, LiveHere, Contract, Inside, CommitsOk, Needed;
    forall i | 0 <= i < |cs| && Inside(code, cs[i].w0) ensures NeededLocs(isa, code, cs[i].w1) <= Contract(isa, code, lv, cs[i]) {
      CommitsLater(code, cs, 0, i);
      WindowInRegion(isa, code, lv, cs[i]);
    }
  }

  lemma AgreeTrans(a: seq<int>, b: seq<int>, c: seq<int>, on: set<nat>, less: set<nat>)
    requires Agree(a, b, on) && Agree(b, c, on) && less <= on
    ensures Agree(a, c, less)
  {
  }

  /** What a stretch of plain instructions reads, and what is needed behind it and not overwritten, is needed before it. */
  lemma {:induction false} StretchNeeds(isa: Isa, code: seq<Inst>, lo: nat, hi: nat, l: nat)
    requires lo <= hi <= |code| && (forall p | lo <= p < hi :: Plain(code[p])) && l < isa.locs
    requires l in Backward(isa, code, lo, hi, NeededLocs(isa, code, hi))
    ensures l in NeededLocs(isa, code, lo)
    decreases hi - lo
  {
    if lo < hi {
      BackwardStep(isa, code, lo, hi, NeededLocs(isa, code, hi));
      NeedsBefore(TableUses(isa), code, lo, l);
      if l !in Gen(isa, code[lo]) {
        StretchNeeds(isa, code, lo + 1, hi, l);
        assert Succeeds(code, lo, lo + 1);
      }
    }
  }

  lemma StretchAgrees(isa: Isa, code: seq<Inst>, lo: nat, hi: nat, a: seq<int>, b: seq<int>)
    requires lo <= hi <= |code| && (forall p | lo <= p < hi :: Plain(code[p])) && |a| == isa.locs
    requires Agree(a, b, NeededLocs(isa, code, lo))
    ensures Agree(a, b, Backward(isa, code, lo, hi, NeededLocs(isa, code, hi)))
  {
    hide NeededLocs, Backward, Plain;
    forall l | l in Backward(isa, code, lo, hi, NeededLocs(isa, code, hi)) && l < |a| ensures a[l] == b[l] {
      StretchNeeds(isa, code, lo, hi, l);
    }
  }

  /** Running a window in the original and its program in the new code, from states that agree on what is
      needed: both run through, and agree on what is needed behind the window. */
  lemma WindowTwin(isa: Isa, code: seq<Inst>, c: Commit, contract: set<nat>, a: seq<int>, b: seq<int>)
    requires Honest(isa) && c.w0 < c.w1 <= |code| && (forall p | c.w0 <= p < c.w1 :: Plain(code[p]))
    requires Equivalent(isa, code[c.w0..c.w1], c.prog, contract) && NeededLocs(isa, code, c.w1) <= contract
    requires |a| == isa.locs && Agree(a, b, NeededLocs(isa, code, c.w0)) && RunAll(isa, code[c.w0..c.w1], a).Some?
    ensures var r, t := RunAll(isa, code[c.w0..c.w1], a).value, RunAll(isa, c.prog, b);
            t.Some? && |r| == isa.locs && Agree(r, t.value, NeededLocs(isa, code, c.w1))
  {
    hide Honest, NeededLocs, Plain;
    var after := NeededLocs(isa, code, c.w1);
    StretchAgrees(isa, code, c.w0, c.w1, a, b);
    HonestRun(isa, code, c.w0, c.w1, a, b, after);
    assert EquivalentOn(isa, code[c.w0..c.w1], c.prog, contract, b);
    var r', t := RunAll(isa, code[c.w0..c.w1], b).value, RunAll(isa, c.prog, b).value;
    AgreeLess(r', t, contract, after);
    AgreeTrans(RunAll(isa, code[c.w0..c.w1], a).value, r', t, after, after);
  }

  /** One instruction of the original, from two states that agree on what is needed: both take it, to one
      place, and agree on what is needed there. */
  lemma TwinStep(isa: Isa, code: seq<Inst>, p: nat, a: seq<int>, b: seq<int>)
    requires Honest(isa) && p < |code| && |a| == isa.locs && Agree(a, b, NeededLocs(isa, code, p)) && Inside(code, p)
    ensures var c, d := Next1(isa, code, Point(p, a)), Next1(isa, code, Point(p, b));
            c.Some? ==> && d.Some? && c.value.pc == d.value.pc && |c.value.st| == isa.locs && Inside(code, c.value.pc)
                        && Agree(c.value.st, d.value.st, NeededLocs(isa, code, c.value.pc))
  {
    hide Honest, NeededLocs, Target, Inside, Agree;
    if !IsReturn(code[p]) {
      var c := Next1(isa, code, Point(p, a));
      if IsLabel(code[p]) {
        assert Succeeds(code, p, p + 1);
        InsideStays(code, p, p + 1);
        NeedsPass(isa, code, p, p + 1, a, b);
      } else {
        NeedsRead(isa, code, p, a, b);
        if c.Some? {
          var q := c.value.pc;
          assert Succeeds(code, p, q);
          InsideStays(code, p, q);
          NeedsPass(isa, code, p, q, a, b);
          HonestStep(isa, code[p], a, b, NeededLocs(isa, code, q));
        }
      }
    }
  }

  /** The two states agree on what the instruction reads, so it branches and faults alike. */
  lemma NeedsRead(isa: Isa, code: seq<Inst>, p: nat, a: seq<int>, b: seq<int>)
    requires Honest(isa) && p < |code| && !IsLabel(code[p]) && |a| == isa.locs && Agree(a, b, NeededLocs(isa, code, p))
    ensures isa.taken(code[p], a) == isa.taken(code[p], b) && isa.exec(code[p], a).Some? == isa.exec(code[p], b).Some?
  {
    forall l | l in Gen(isa, code[p]) && l < |a| ensures a[l] == b[l] {
      NeedsBefore(TableUses(isa), code, p, l);
      assert l in NeededLocs(isa, code, p);
    }
    hide Needed, NeededLocs;
    assert Agree(a, b, Gen(isa, code[p]));
    assert HonestOn(isa, code[p], a, b);
  }

  lemma NeedsPass(isa: Isa, code: seq<Inst>, p: nat, q: nat, a: seq<int>, b: seq<int>)
    requires Honest(isa) && p < |code| && Succeeds(code, p, q) && |a| == isa.locs && Agree(a, b, NeededLocs(isa, code, p))
    ensures !IsLabel(code[p]) ==> Agree(a, b, TransferInst(isa, code[p], NeededLocs(isa, code, q)))
    ensures !Plain(code[p]) ==> Agree(a, b, NeededLocs(isa, code, q))
  {
    assert !Plain(code[p]) ==> Kill(isa, code[p]) == {};
    hide Honest, Succeeds, Needed;
    forall l: nat | l < |a| && !IsLabel(code[p]) && l in TransferInst(isa, code[p], NeededLocs(isa, code, q)) ensures a[l] == b[l] {
      NeedsBefore(TableUses(isa), code, p, l);
      assert l in NeededLocs(isa, code, p);
    }
    forall l: nat | l < |a| && !Plain(code[p]) && l in NeededLocs(isa, code, q) ensures a[l] == b[l] {
      NeedsBefore(TableUses(isa), code, p, l);
      assert l in NeededLocs(isa, code, p);
    }
  }

  /** Labels keep their place relative to what surrounds them. */
  lemma LabelMoves(code: seq<Inst>, cs: seq<Commit>, p: nat)
    requires CommitsOk(code, cs, 0) && LabelsDistinct(code) && p < |code| && IsBranch(code[p]) && Target(code, code[p]).Some?
    ensures var t := Target(code, code[p]).value; Outside(cs, t) && Target(Build(code, cs, 0), code[p]) == Some(Moved(cs, 0, t))
  {
    var t := Target(code, code[p]).value;
    LabelOutside(code, cs, t);
    OutsideMoves(code, cs, 0, t);
    var F := Build(code, cs, 0);
    var x := LabelAt(F, code[p].a.l, 0);
    if x.Some? {
      var q := Origin(code, cs, 0, x.value);
      assert code[q].a == code[t].a && IsLabel(code[q]);
      assert q == t;
    }
  }

  lemma LabelOutside(code: seq<Inst>, cs: seq<Commit>, t: nat)
    requires CommitsOk(code, cs, 0) && t < |code| && !Plain(code[t])
    ensures Outside(cs, t)
  {
    forall i | 0 <= i < |cs| ensures !(cs[i].w0 <= t < cs[i].w1) {
      CommitsLater(code, cs, 0, i);
    }
  }

  /** Outside the windows one instruction of the old code is one of the new. */
  lemma StepMoves(isa: Isa, code: seq<Inst>, cs: seq<Commit>, p: nat, b: seq<int>)
    requires CommitsOk(code, cs, 0) && LabelsDistinct(code) && p < |code| && Outside(cs, p)
    ensures var c, d := Next1(isa, code, Point(p, b)), Next1(isa, Build(code, cs, 0), Point(Moved(cs, 0, p), b));
            c.Some? ==> d.Some? && d.value == Point(Moved(cs, 0, c.value.pc), c.value.st) && Clear(cs, c.value.pc)
  {
    hide LabelsDistinct, CommitsOk, Build, Target, Moved;
    OutsideMoves(code, cs, 0, p);
    if IsBranch(code[p]) && Target(code, code[p]).Some? {
      LabelMoves(code, cs, p);
    }
    OutsideIsClear(cs, p);
  }

  lemma OutsideIsClear(cs: seq<Commit>, p: nat)
    requires Outside(cs, p)
    ensures Clear(cs, p + 1) && Clear(cs, p)
  {
  }

  /** The new code gets, from agreeing states, wherever the old one does. */
  ghost predicate Arrives(isa: Isa, code: seq<Inst>, F: seq<Inst>, cs: seq<Commit>, from: Point, d: Point) {
    exists n: nat, t: seq<int> ::
      Leads(isa, F, from, n, Point(Moved(cs, 0, d.pc), t)) && Agree(d.st, t, NeededLocs(isa, code, d.pc))
  }

  /** What the replacements have to meet: distinct labels, windows in order, programs equivalent on contracts
      that cover what is needed. */
  ghost predicate Replaces(isa: Isa, code: seq<Inst>, lv: Liveness, cs: seq<Commit>) {
    && Honest(isa) && LabelsDistinct(code) && CommitsOk(code, cs, 0) && LivenessOk(isa, code, lv)
    && AllEquivalent(isa, code, lv, cs) && ContractsCover(isa, code, lv, cs)
  }

  /** Two points to compare: the same place outside windows, agreeing on what is needed there. */
  ghost predicate Comparable(isa: Isa, code: seq<Inst>, cs: seq<Commit>, p: nat, a: seq<int>, b: seq<int>) {
    |a| == isa.locs && Inside(code, p) && Clear(cs, p) && Agree(a, b, NeededLocs(isa, code, p))
  }

  /** Every run of the old code to a place outside windows has its counterpart in the new, with the same
      values in everything needed there. */
  lemma {:induction false} CommitsSimulate(isa: Isa, code: seq<Inst>, lv: Liveness, cs: seq<Commit>, p: nat, a: seq<int>, b: seq<int>, n: nat, d: Point)
    requires Replaces(isa, code, lv, cs) && Comparable(isa, code, cs, p, a, b)
    requires Clear(cs, d.pc) && Leads(isa, code, Point(p, a), n, d)
    ensures Arrives(isa, code, Build(code, cs, 0), cs, Point(Moved(cs, 0, p), b), d)
    decreases n
  {
    hide Replaces, Comparable, Next1, Build, Leads, Arrives, Outside, Clear, Moved, CommitsOk;
    ReplacesCommits(isa, code, lv, cs);
    if n == 0 {
      ArrivesAtOnce(isa, code, Build(code, cs, 0), cs, p, a, b, d);
    } else if Outside(cs, p) {
      var next, t := StepArrives(isa, code, lv, cs, p, a, b, n, d);
      CommitsSimulate(isa, code, lv, cs, next.pc, next.st, t, n - 1, d);
    } else {
      var next, t, k := WindowArrives(isa, code, lv, cs, p, a, b, n, d);
      CommitsSimulate(isa, code, lv, cs, next.pc, next.st, t, n - k, d);
    }
  }

  lemma StepArrives(isa: Isa, code: seq<Inst>, lv: Liveness, cs: seq<Commit>, p: nat, a: seq<int>, b: seq<int>, n: nat, d: Point)
    returns (next: Point, t: seq<int>)
    requires Replaces(isa, code, lv, cs) && Comparable(isa, code, cs, p, a, b) && Outside(cs, p) && n > 0 && Leads(isa, code, Point(p, a), n, d)
    ensures CommitsOk(code, cs, 0) && Comparable(isa, code, cs, next.pc, next.st, t) && Leads(isa, code, next, n - 1, d)
    ensures Arrives(isa, code, Build(code, cs, 0), cs, Point(Moved(cs, 0, next.pc), t), d) ==>
              Arrives(isa, code, Build(code, cs, 0), cs, Point(Moved(cs, 0, p), b), d)
  {
    var F := Build(code, cs, 0);
    hide Replaces, Comparable, Next1, Build, Leads, Arrives, Outside, Moved;
    LeadsFirst(isa, code, Point(p, a), n, d);
    next := Next1(isa, code, Point(p, a)).value;
    t := StepAdvance(isa, code, lv, cs, p, a, b);
    ArrivesAfter(isa, code, F, cs, Point(Moved(cs, 0, p), b), 1, Point(Moved(cs, 0, next.pc), t), d);
  }

  lemma WindowArrives(isa: Isa, code: seq<Inst>, lv: Liveness, cs: seq<Commit>, p: nat, a: seq<int>, b: seq<int>, n: nat, d: Point)
    returns (next: Point, t: seq<int>, k: nat)
    requires Replaces(isa, code, lv, cs) && Comparable(isa, code, cs, p, a, b) && !Outside(cs, p) && Clear(cs, d.pc)
    requires n > 0 && Leads(isa, code, Point(p, a), n, d)
    ensures CommitsOk(code, cs, 0) && Comparable(isa, code, cs, next.pc, next.st, t) && 0 < k <= n && Leads(isa, code, next, n - k, d)
    ensures Arrives(isa, code, Build(code, cs, 0), cs, Point(Moved(cs, 0, next.pc), t), d) ==>
              Arrives(isa, code, Build(code, cs, 0), cs, Point(Moved(cs, 0, p), b), d)
  {
    hide Replaces, Comparable, Build, Leads, Arrives, Outside, Clear, Moved, CommitsOk;
    var j;
    next, t, k, j := WindowCrossed(isa, code, lv, cs, p, a, b, n, d);
    ArrivesAfter(isa, code, Build(code, cs, 0), cs, Point(Moved(cs, 0, p), b), j, Point(Moved(cs, 0, next.pc), t), d);
  }

  lemma WindowCrossed(isa: Isa, code: seq<Inst>, lv: Liveness, cs: seq<Commit>, p: nat, a: seq<int>, b: seq<int>, n: nat, d: Point)
    returns (next: Point, t: seq<int>, k: nat, j: nat)
    requires Replaces(isa, code, lv, cs) && Comparable(isa, code, cs, p, a, b) && !Outside(cs, p) && Clear(cs, d.pc)
    requires n > 0 && Leads(isa, code, Point(p, a), n, d)
    ensures CommitsOk(code, cs, 0) && Comparable(isa, code, cs, next.pc, next.st, t) && 0 < k <= n && Leads(isa, code, next, n - k, d)
    ensures Leads(isa, Build(code, cs, 0), Point(Moved(cs, 0, p), b), j, Point(Moved(cs, 0, next.pc), t))
  {
    hide Replaces, Comparable, Next1, Build, Leads, Outside, Clear, Moved, RunAll, PlainStretch, CommitsOk;
    var i := AtWindow(isa, code, lv, cs, p, a, b);
    WindowPassed(isa, code, cs, i, a, n, d);
    t := WindowAdvance(isa, code, lv, cs, i, a, b);
    next := Point(cs[i].w1, RunAll(isa, code[cs[i].w0..cs[i].w1], a).value);
    k, j := cs[i].w1 - cs[i].w0, |cs[i].prog|;
  }

  lemma ReplacesCommits(isa: Isa, code: seq<Inst>, lv: Liveness, cs: seq<Commit>)
    requires Replaces(isa, code, lv, cs)
    ensures CommitsOk(code, cs, 0)
  {
  }

  lemma ArrivesAtOnce(isa: Isa, code: seq<Inst>, F: seq<Inst>, cs: seq<Commit>, p: nat, a: seq<int>, b: seq<int>, d: Point)
    requires Comparable(isa, code, cs, p, a, b) && Leads(isa, code, Point(p, a), 0, d)
    ensures Arrives(isa, code, F, cs, Point(Moved(cs, 0, p), b), d)
  {
    assert Leads(isa, F, Point(Moved(cs, 0, p), b), 0, Point(Moved(cs, 0, d.pc), b));
  }

  lemma LeadsFirst(isa: Isa, code: seq<Inst>, c: Point, n: nat, d: Point)
    requires n > 0 && Leads(isa, code, c, n, d)
    ensures Next1(isa, code, c).Some? && Leads(isa, code, Next1(isa, code, c).value, n - 1, d)
  {
  }

  /** A stretch of plain instructions inside the code. */
  ghost predicate PlainStretch(code: seq<Inst>, lo: nat, hi: nat) {
    lo < hi <= |code| && forall q | lo <= q < hi :: Plain(code[q])
  }

  /** A place to compare that is not outside the windows is where one starts. */
  lemma AtWindow(isa: Isa, code: seq<Inst>, lv: Liveness, cs: seq<Commit>, p: nat, a: seq<int>, b: seq<int>) returns (i: nat)
    requires Replaces(isa, code, lv, cs) && Comparable(isa, code, cs, p, a, b) && !Outside(cs, p)
    ensures i < |cs| && p == cs[i].w0 < cs[i].w1 <= |code| && CommitsOk(code, cs, 0) && PlainStretch(code, cs[i].w0, cs[i].w1)
  {
    i :| 0 <= i < |cs| && cs[i].w0 <= p < cs[i].w1;
    CommitsLater(code, cs, 0, i);
  }

  /** Outside windows: one instruction in each code. */
  lemma StepAdvance(isa: Isa, code: seq<Inst>, lv: Liveness, cs: seq<Commit>, p: nat, a: seq<int>, b: seq<int>) returns (t: seq<int>)
    requires Replaces(isa, code, lv, cs) && Comparable(isa, code, cs, p, a, b) && Outside(cs, p)
    requires Next1(isa, code, Point(p, a)).Some?
    ensures var next := Next1(isa, code, Point(p, a)).value;
            && Comparable(isa, code, cs, next.pc, next.st, t)
            && Leads(isa, Build(code, cs, 0), Point(Moved(cs, 0, p), b), 1, Point(Moved(cs, 0, next.pc), t))
  {
    hide LivenessOk, Honest, LabelsDistinct, CommitsOk, NeededLocs, Inside, Agree, Next1, Build, Clear, Outside, Moved, AllEquivalent, ContractsCover;
    var next := Next1(isa, code, Point(p, a)).value;
    InBounds(isa, code, Point(p, a));
    TwinStep(isa, code, p, a, b);
    StepMoves(isa, code, cs, p, b);
    t := Next1(isa, code, Point(p, b)).value.st;
    assert Leads(isa, Build(code, cs, 0), Point(Moved(cs, 0, next.pc), t), 0, Point(Moved(cs, 0, next.pc), t));
  }

  /** At a window: its whole run in the old code, its program's in the new. */
  lemma WindowAdvance(isa: Isa, code: seq<Inst>, lv: Liveness, cs: seq<Commit>, i: nat, a: seq<int>, b: seq<int>) returns (t: seq<int>)
    requires Replaces(isa, code, lv, cs) && i < |cs| && Comparable(isa, code, cs, cs[i].w0, a, b)
    requires cs[i].w0 < cs[i].w1 <= |code| && RunAll(isa, code[cs[i].w0..cs[i].w1], a).Some?
    ensures Comparable(isa, code, cs, cs[i].w1, RunAll(isa, code[cs[i].w0..cs[i].w1], a).value, t)
    ensures Leads(isa, Build(code, cs, 0), Point(Moved(cs, 0, cs[i].w0), b), |cs[i].prog|, Point(Moved(cs, 0, cs[i].w1), t))
  {
    hide LivenessOk, Honest, LabelsDistinct, CommitsOk, NeededLocs, Inside, Agree, Next1, Build, Clear, Moved, Leads, RunAll, Equivalent, Contract;
    var c := cs[i];
    CommitsLater(code, cs, 0, i);
    WindowMoves(code, cs, 0, i);
    InsideFrom(code, c.w0, c.w1);
    WindowTwin(isa, code, c, Contract(isa, code, lv, c), a, b);
    t := RunAll(isa, c.prog, b).value;
    StraightLeads(isa, Build(code, cs, 0), Moved(cs, 0, c.w0), c.prog, b);
    ClearAfter(code, cs, i);
  }

  /** A run of the old code that returns is matched by one of the new, which returns by the same instruction
      with the same values in everything it reads. */
  lemma ReturnsAgree(isa: Isa, code: seq<Inst>, lv: Liveness, cs: seq<Commit>, a: seq<int>, b: seq<int>, n: nat, d: Point)
    requires Replaces(isa, code, lv, cs)
    requires |a| == isa.locs && Agree(a, b, NeededLocs(isa, code, 0)) && Leads(isa, code, Point(0, a), n, d)
    requires d.pc < |code| && IsReturn(code[d.pc])
    ensures exists k: nat, q: nat, t: seq<int> :: ReturnsLike(isa, code, Build(code, cs, 0), b, d, k, Point(q, t))
  {
    hide Honest, LabelsDistinct, CommitsOk, LivenessOk, Agree, Next1, Build, Leads, AllEquivalent, ContractsCover, NeededLocs;
    LabelOutside(code, cs, d.pc);
    OutsideMoves(code, cs, 0, d.pc);
    FromTheStart(code, cs);
    OutsideIsClear(cs, d.pc);
    CommitsSimulate(isa, code, lv, cs, 0, a, b, n, d);
    var F := Build(code, cs, 0);
    var k: nat, t: seq<int> :| Leads(isa, F, Point(0, b), k, Point(Moved(cs, 0, d.pc), t)) && Agree(d.st, t, NeededLocs(isa, code, d.pc));
    ReturnReads(isa, code, d, t);
    assert ReturnsLike(isa, code, F, b, d, k, Point(Moved(cs, 0, d.pc), t));
  }

  /** After k steps F is at the return that d is at in the code, with the same values in all it reads. */
  ghost predicate ReturnsLike(isa: Isa, code: seq<Inst>, F: seq<Inst>, b: seq<int>, d: Point, k: nat, e: Point)
    requires d.pc < |code|
  {
    Leads(isa, F, Point(0, b), k, e) && e.pc < |F| && F[e.pc] == code[d.pc] && |e.st| == |d.st| && ReadsAlike(isa, code[d.pc], d.st, e.st)
  }

  ghost predicate ReadsAlike(isa: Isa, i: Inst, a: seq<int>, b: seq<int>) {
    forall l: nat | l in Gen(isa, i) && l < isa.locs && l < |a| && l < |b| :: a[l] == b[l]
  }

  lemma ReturnReads(isa: Isa, code: seq<Inst>, d: Point, t: seq<int>)
    requires d.pc < |code| && IsReturn(code[d.pc]) && Agree(d.st, t, NeededLocs(isa, code, d.pc))
    ensures |d.st| == |t| && ReadsAlike(isa, code[d.pc], d.st, t)
  {
    forall l: nat | l in Gen(isa, code[d.pc]) && l < isa.locs && l < |d.st| ensures d.st[l] == t[l] {
      NeedsBefore(TableUses(isa), code, d.pc, l);
      assert l in NeededLocs(isa, code, d.pc);
    }
  }

  /** With the branches covered by the liveness the engine computed, every choice of equivalent programs is
      sound. */
  lemma CoveredIsSound(isa: Isa, code: seq<Inst>, lv: Liveness, cs: seq<Commit>)
    requires Honest(isa) && LabelsDistinct(code) && LivenessOk(isa, code, lv) && BranchesCovered(isa, code, lv)
    requires CommitsOk(code, cs, 0) && AllEquivalent(isa, code, lv, cs)
    ensures Replaces(isa, code, lv, cs)
  {
    CoveredContracts(isa, code, lv, cs);
  }

  lemma AgreeLess(a: seq<int>, b: seq<int>, on: set<nat>, less: set<nat>)
    requires Agree(a, b, on) && less <= on
    ensures Agree(a, b, less)
  {
  }

  lemma FromTheStart(code: seq<Inst>, cs: seq<Commit>)
    ensures Inside(code, 0) && Clear(cs, 0) && Moved(cs, 0, 0) == 0
  {
  }

  lemma InBounds(isa: Isa, code: seq<Inst>, c: Point)
    requires Next1(isa, code, c).Some?
    ensures c.pc < |code|
  {
  }

  lemma ArrivesAfter(isa: Isa, code: seq<Inst>, F: seq<Inst>, cs: seq<Commit>, from: Point, n: nat, mid: Point, d: Point)
    requires Leads(isa, F, from, n, mid)
    ensures Arrives(isa, code, F, cs, mid, d) ==> Arrives(isa, code, F, cs, from, d)
  {
    if Arrives(isa, code, F, cs, mid, d) {
      var k: nat, t: seq<int> :| Leads(isa, F, mid, k, Point(Moved(cs, 0, d.pc), t)) && Agree(d.st, t, NeededLocs(isa, code, d.pc));
      LeadsOn(isa, F, from, n, mid, k, Point(Moved(cs, 0, d.pc), t));
    }
  }

  /** Starting at a window and ending clear of it. */
  lemma WindowPassed(isa: Isa, code: seq<Inst>, cs: seq<Commit>, i: nat, a: seq<int>, n: nat, d: Point)
    requires CommitsOk(code, cs, 0) && i < |cs| && n > 0 && Clear(cs, d.pc) && Leads(isa, code, Point(cs[i].w0, a), n, d)
    ensures cs[i].w0 < cs[i].w1 <= |code| && RunAll(isa, code[cs[i].w0..cs[i].w1], a).Some? && n >= cs[i].w1 - cs[i].w0
    ensures Leads(isa, code, Point(cs[i].w1, RunAll(isa, code[cs[i].w0..cs[i].w1], a).value), n - (cs[i].w1 - cs[i].w0), d)
  {
    var c := cs[i];
    CommitsLater(code, cs, 0, i);
    assert code[c.w0..c.w1][1..] == code[c.w0 + 1..c.w1];
    ThroughWindow(isa, code, c.w0 + 1, c.w1, Next1(isa, code, Point(c.w0, a)).value.st, n - 1, d);
  }

  lemma {:induction false} ClearAfter(code: seq<Inst>, cs: seq<Commit>, i: nat)
    requires CommitsOk(code, cs, 0) && i < |cs|
    ensures Clear(cs, cs[i].w1)
  {
    CommitsLater(code, cs, 0, i);
    forall j | 0 <= j < |cs| ensures !(cs[j].w0 < cs[i].w1 < cs[j].w1) {
      WindowsOrdered(code, cs, 0, if i < j then i else j, if i < j then j else i);
    }
  }

  lemma {:induction false} WindowsOrdered(code: seq<Inst>, cs: seq<Commit>, from: nat, i: nat, j: nat)
    requires CommitsOk(code, cs, from) && i <= j < |cs|
    ensures i < j ==> cs[i].w1 <= cs[j].w0
    decreases |cs|
  {
    if i > 0 {
      WindowsOrdered(code, cs[1..], cs[0].w1, i - 1, j - 1);
    } else if j > 0 {
      CommitsLater(code, cs[1..], cs[0].w1, j - 1);
    }
  }

  // ---------------------------------------------------------------------
  // ... and nothing else
  // ---------------------------------------------------------------------

  ghost predicate CanRun(isa: Isa, code: seq<Inst>, c: Point, n: nat) {
    exists d :: Leads(isa, code, c, n, d)
  }

  ghost predicate Diverges(isa: Isa, code: seq<Inst>, c: Point) {
    forall n: nat :: CanRun(isa, code, c, n)
  }

  lemma DivergesOn(isa: Isa, code: seq<Inst>, c: Point)
    requires Diverges(isa, code, c)
    ensures c.pc < |code| && Next1(isa, code, c).Some? && Diverges(isa, code, Next1(isa, code, c).value)
  {
    assert CanRun(isa, code, c, 1);
    hide Next1;
    var next := Next1(isa, code, c).value;
    forall n: nat ensures CanRun(isa, code, next, n) {
      assert CanRun(isa, code, c, n + 1);
      var d :| Leads(isa, code, c, n + 1, d);
      assert Leads(isa, code, next, n, d);
    }
    InBounds(isa, code, c);
  }

  /** A run for ever gets through a stretch of plain instructions. */
  lemma {:induction false} DivergesThrough(isa: Isa, code: seq<Inst>, q: nat, w1: nat, a: seq<int>)
    requires (q == w1 <= |code| || PlainStretch(code, q, w1)) && Diverges(isa, code, Point(q, a))
    ensures q <= w1 <= |code| && RunAll(isa, code[q..w1], a).Some? && Diverges(isa, code, Point(w1, RunAll(isa, code[q..w1], a).value))
    decreases w1 - q
  {
    if q < w1 {
      DivergesOn(isa, code, Point(q, a));
      assert code[q..w1][1..] == code[q + 1..w1];
      DivergesThrough(isa, code, q + 1, w1, isa.exec(code[q], a).value);
    }
  }

  /** Where the old code runs for ever, so does the new. */
  lemma {:induction false} KeepsRunning(isa: Isa, code: seq<Inst>, lv: Liveness, cs: seq<Commit>, p: nat, a: seq<int>, b: seq<int>, m: nat)
    requires Replaces(isa, code, lv, cs) && Comparable(isa, code, cs, p, a, b) && Diverges(isa, code, Point(p, a))
    ensures CanRun(isa, Build(code, cs, 0), Point(Moved(cs, 0, p), b), m)
    decreases m, |code| - p
  {
    ReplacesCommits(isa, code, lv, cs);
    hide Replaces, Comparable, Next1, Build, Outside, Diverges, Moved, CanRun, CommitsOk;
    if m == 0 {
      RunsAtOnce(isa, Build(code, cs, 0), Point(Moved(cs, 0, p), b));
    } else if Outside(cs, p) {
      var next, t := StepRuns(isa, code, lv, cs, p, a, b, m);
      KeepsRunning(isa, code, lv, cs, next.pc, next.st, t, m - 1);
    } else {
      var next, t := WindowRuns(isa, code, lv, cs, p, a, b, m);
      KeepsRunning(isa, code, lv, cs, next.pc, next.st, t, m);
    }
  }

  lemma StepRuns(isa: Isa, code: seq<Inst>, lv: Liveness, cs: seq<Commit>, p: nat, a: seq<int>, b: seq<int>, m: nat)
    returns (next: Point, t: seq<int>)
    requires Replaces(isa, code, lv, cs) && Comparable(isa, code, cs, p, a, b) && Diverges(isa, code, Point(p, a)) && Outside(cs, p) && m > 0
    ensures CommitsOk(code, cs, 0) && Comparable(isa, code, cs, next.pc, next.st, t) && Diverges(isa, code, next)
    ensures CanRun(isa, Build(code, cs, 0), Point(Moved(cs, 0, next.pc), t), m - 1) ==>
              CanRun(isa, Build(code, cs, 0), Point(Moved(cs, 0, p), b), m)
  {
    var F := Build(code, cs, 0);
    hide Replaces, Comparable, Next1, Build, Outside, Diverges, Moved, CanRun;
    DivergesOn(isa, code, Point(p, a));
    next := Next1(isa, code, Point(p, a)).value;
    t := StepAdvance(isa, code, lv, cs, p, a, b);
    if CanRun(isa, F, Point(Moved(cs, 0, next.pc), t), m - 1) {
      RunsFurther(isa, F, Point(Moved(cs, 0, p), b), 1, Point(Moved(cs, 0, next.pc), t), m - 1);
    }
  }

  lemma WindowRuns(isa: Isa, code: seq<Inst>, lv: Liveness, cs: seq<Commit>, p: nat, a: seq<int>, b: seq<int>, m: nat)
    returns (next: Point, t: seq<int>)
    requires Replaces(isa, code, lv, cs) && Comparable(isa, code, cs, p, a, b) && Diverges(isa, code, Point(p, a)) && !Outside(cs, p)
    ensures CommitsOk(code, cs, 0) && Comparable(isa, code, cs, next.pc, next.st, t) && Diverges(isa, code, next) && p < next.pc <= |code|
    ensures CanRun(isa, Build(code, cs, 0), Point(Moved(cs, 0, next.pc), t), m) ==>
              CanRun(isa, Build(code, cs, 0), Point(Moved(cs, 0, p), b), m)
  {
    var F := Build(code, cs, 0);
    hide Replaces, Comparable, Next1, Build, Outside, Diverges, Moved, CanRun, RunAll, PlainStretch, CommitsOk;
    var i := AtWindow(isa, code, lv, cs, p, a, b);
    DivergesThrough(isa, code, cs[i].w0, cs[i].w1, a);
    t := WindowAdvance(isa, code, lv, cs, i, a, b);
    next := Point(cs[i].w1, RunAll(isa, code[cs[i].w0..cs[i].w1], a).value);
    hide Leads, Clear;
    RunsPast(isa, F, Point(Moved(cs, 0, p), b), |cs[i].prog|, Point(Moved(cs, 0, next.pc), t), m);
  }

  lemma RunsPast(isa: Isa, F: seq<Inst>, c: Point, n: nat, mid: Point, m: nat)
    requires Leads(isa, F, c, n, mid)
    ensures CanRun(isa, F, mid, m) ==> CanRun(isa, F, c, m)
  {
    if CanRun(isa, F, mid, m) {
      RunsFurther(isa, F, c, n, mid, m);
      RunsLess(isa, F, c, n + m, m);
    }
  }

  lemma RunsAtOnce(isa: Isa, F: seq<Inst>, c: Point)
    ensures CanRun(isa, F, c, 0)
  {
    assert Leads(isa, F, c, 0, c);
  }

  lemma RunsFurther(isa: Isa, F: seq<Inst>, c: Point, n: nat, mid: Point, m: nat)
    requires Leads(isa, F, c, n, mid) && CanRun(isa, F, mid, m)
    ensures CanRun(isa, F, c, n + m)
  {
    var d :| Leads(isa, F, mid, m, d);
    LeadsOn(isa, F, c, n, mid, m, d);
  }

  lemma {:induction false} RunsLess(isa: Isa, F: seq<Inst>, c: Point, n: nat, m: nat)
    requires CanRun(isa, F, c, n) && m <= n
    ensures CanRun(isa, F, c, m)
    decreases m
  {
    var d :| Leads(isa, F, c, n, d);
    if m == 0 {
      assert Leads(isa, F, c, 0, c);
    } else {
      var next := Next1(isa, F, c).value;
      assert Leads(isa, F, next, n - 1, d);
      RunsLess(isa, F, next, n - 1, m - 1);
      var e :| Leads(isa, F, next, m - 1, e);
      assert Leads(isa, F, c, m, e);
    }
  }

  /** A run that does not go on for ever stops somewhere. */
  lemma {:induction false} StopsSomewhere(isa: Isa, code: seq<Inst>, c: Point, m: nat) returns (n: nat, d: Point)
    requires !CanRun(isa, code, c, m)
    ensures Leads(isa, code, c, n, d) && Next1(isa, code, d).None?
    decreases m
  {
    assert Leads(isa, code, c, 0, c);
    n, d := 0, c;
    if Next1(isa, code, c).Some? {
      var next := Next1(isa, code, c).value;
      NoFurther(isa, code, c, m);
      n, d := StopsSomewhere(isa, code, next, m - 1);
      n := n + 1;
    }
  }

  lemma NoFurther(isa: Isa, code: seq<Inst>, c: Point, m: nat)
    requires !CanRun(isa, code, c, m) && Next1(isa, code, c).Some?
    ensures m > 0 && !CanRun(isa, code, Next1(isa, code, c).value, m - 1)
  {
    assert Leads(isa, code, c, 0, c);
    if m > 0 && CanRun(isa, code, Next1(isa, code, c).value, m - 1) {
      var d :| Leads(isa, code, Next1(isa, code, c).value, m - 1, d);
      assert Leads(isa, code, c, m, d);
    }
  }

  /** A run has one end. */
  lemma {:induction false} OneEnd(isa: Isa, F: seq<Inst>, c: Point, n: nat, d: Point, m: nat, e: Point)
    requires Leads(isa, F, c, n, d) && Next1(isa, F, d).None? && Leads(isa, F, c, m, e) && Next1(isa, F, e).None?
    ensures n == m && d == e
    decreases n
  {
    if n > 0 && m > 0 {
      var next := Next1(isa, F, c).value;
      OneEnd(isa, F, next, n - 1, d, m - 1, e);
    }
  }

  /** The new code returns only where the old one would: if it returns at e, the old code stops too, and if
      it stops at a return rather than on a fault, that is the return e is at, with the same values in all it reads. */
  lemma ReturnsBack(isa: Isa, code: seq<Inst>, lv: Liveness, cs: seq<Commit>, a: seq<int>, b: seq<int>, k: nat, e: Point) returns (n: nat, d: Point)
    requires Replaces(isa, code, lv, cs) && |a| == isa.locs && Agree(a, b, NeededLocs(isa, code, 0))
    requires var F := Build(code, cs, 0); Leads(isa, F, Point(0, b), k, e) && e.pc < |F| && IsReturn(F[e.pc])
    ensures Leads(isa, code, Point(0, a), n, d) && Next1(isa, code, d).None?
    ensures d.pc < |code| && IsReturn(code[d.pc]) ==> ReturnsLike(isa, code, Build(code, cs, 0), b, d, k, e)
  {
    var F := Build(code, cs, 0);
    assert Next1(isa, F, e).None?;
    hide Replaces, Agree, NeededLocs, Build, Next1, Leads;
    StartsComparable(isa, code, lv, cs, a, b);
    if Diverges(isa, code, Point(0, a)) {
      KeepsRunning(isa, code, lv, cs, 0, a, b, k + 1);
      CannotGoOn(isa, F, Point(0, b), k, e);
      assert false;
    }
    var m: nat :| !CanRun(isa, code, Point(0, a), m);
    n, d := StopsSomewhere(isa, code, Point(0, a), m);
    if d.pc < |code| && IsReturn(code[d.pc]) {
      ReturnsAgree(isa, code, lv, cs, a, b, n, d);
      var k': nat, q: nat, t: seq<int> :| ReturnsLike(isa, code, F, b, d, k', Point(q, t));
      AtReturn(isa, F, Point(q, t));
      OneEnd(isa, F, Point(0, b), k, e, k', Point(q, t));
    }
  }

  lemma AtReturn(isa: Isa, F: seq<Inst>, c: Point)
    requires c.pc < |F| && IsReturn(F[c.pc])
    ensures Next1(isa, F, c).None?
  {
  }

  lemma StartsComparable(isa: Isa, code: seq<Inst>, lv: Liveness, cs: seq<Commit>, a: seq<int>, b: seq<int>)
    requires Replaces(isa, code, lv, cs) && |a| == isa.locs && Agree(a, b, NeededLocs(isa, code, 0))
    ensures Comparable(isa, code, cs, 0, a, b) && Moved(cs, 0, 0) == 0
  {
    FromTheStart(code, cs);
  }

  lemma {:induction false} CannotGoOn(isa: Isa, F: seq<Inst>, c: Point, k: nat, e: Point)
    requires Leads(isa, F, c, k, e) && Next1(isa, F, e).None?
    ensures !CanRun(isa, F, c, k + 1)
    decreases k
  {
    if k > 0 {
      CannotGoOn(isa, F, Next1(isa, F, c).value, k - 1, e);
    }
    if CanRun(isa, F, c, k + 1) {
      var d :| Leads(isa, F, c, k + 1, d);
      var next := Next1(isa, F, c);
      assert k > 0 && Leads(isa, F, next.value, k, d);
      assert CanRun(isa, F, next.value, k);
      assert false;
    }
  }
}
