/** The allocator driver: per class two exact selections and a repair, then the greedy scan;
    afterwards, rounds of conservative move coalescing over all classes. */
module Hybrid {
  import opened Options
  import opened Sums
  import opened Selection
  import opened FlowSelect
  import opened Ralloc

  // ---------------------------------------------------------------------
  // lists of ranges
  // ---------------------------------------------------------------------

  lemma {:induction false} OccConcat(a: seq<VReg>, b: seq<VReg>, p: int)
    ensures Occ(a + b, p) == Occ(a, p) + Occ(b, p)
  {
    if b == [] {
      assert a + b == a;
    } else {
      OccConcat(a, b[..|b| - 1], p);
      assert (a + b)[..|a + b| - 1] == a + b[..|b| - 1];
    }
  }

  /** v belongs before w in the scan. */
  predicate ScanBefore(v: VReg, w: VReg) {
    v.first < w.first || (v.first == w.first && v.id <= w.id)
  }

  /** v is tried before w in the repair. */
  predicate RepairBefore(v: VReg, w: VReg) {
    v.weight > w.weight || (v.weight == w.weight && v.id <= w.id)
  }

  function InsertBy(before: (VReg, VReg) -> bool, s: seq<VReg>, v: VReg): (r: seq<VReg>)
    ensures forall w :: w in r <==> w in s || w == v
    ensures forall p :: Occ(r, p) == Occ(s, p) + if Occupies(v, p) then 1 else 0
    ensures DistinctIds(s) && (forall w | w in s :: w.id != v.id) ==> DistinctIds(r)
  {
    if s == [] || before(v, s[0]) then
      InsertFront(s, v);
      [v] + s
    else
      var rest := InsertBy(before, s[1..], v);
      InsertRest(s, v, rest);
      [s[0]] + rest
  }

  lemma InsertFront(s: seq<VReg>, v: VReg)
    ensures forall w :: w in [v] + s <==> w in s || w == v
    ensures forall p :: Occ([v] + s, p) == Occ(s, p) + if Occupies(v, p) then 1 else 0
    ensures DistinctIds(s) && (forall w | w in s :: w.id != v.id) ==> DistinctIds([v] + s)
  {
    forall p ensures Occ([v] + s, p) == Occ(s, p) + if Occupies(v, p) then 1 else 0 {
      OccConcat([v], s, p);
      assert [v][..0] == [];
    }
  }

  lemma InsertRest(s: seq<VReg>, v: VReg, rest: seq<VReg>)
    requires s != []
    requires forall w :: w in rest <==> w in s[1..] || w == v
    requires forall p :: Occ(rest, p) == Occ(s[1..], p) + if Occupies(v, p) then 1 else 0
    requires DistinctIds(s[1..]) && (forall w | w in s[1..] :: w.id != v.id) ==> DistinctIds(rest)
    ensures forall w :: w in [s[0]] + rest <==> w in s || w == v
    ensures forall p :: Occ([s[0]] + rest, p) == Occ(s, p) + if Occupies(v, p) then 1 else 0
    ensures DistinctIds(s) && (forall w | w in s :: w.id != v.id) ==> DistinctIds([s[0]] + rest)
  {
    hide Occ, Occupies;
    assert s == [s[0]] + s[1..];
    forall p ensures Occ([s[0]] + rest, p) == Occ(s, p) + if Occupies(v, p) then 1 else 0 {
      OccConcat([s[0]], rest, p);
      OccConcat([s[0]], s[1..], p);
    }
    if DistinctIds(s) && (forall w | w in s :: w.id != v.id) {
      DistinctBehind(s, v, rest);
    }
  }

  lemma DistinctBehind(s: seq<VReg>, v: VReg, rest: seq<VReg>)
    requires s != [] && DistinctIds(s) && (forall w | w in s :: w.id != v.id)
    requires DistinctIds(s[1..]) && (forall w | w in s[1..] :: w.id != v.id) ==> DistinctIds(rest)
    requires forall w | w in rest :: w in s[1..] || w == v
    ensures DistinctIds([s[0]] + rest)
  {
    forall k | 0 <= k < |rest| ensures rest[k].id != s[0].id {
      assert rest[k] in rest;
    }
  }

  function SortBy(before: (VReg, VReg) -> bool, s: seq<VReg>): (r: seq<VReg>)
    ensures forall w :: w in r <==> w in s
    ensures forall p :: Occ(r, p) == Occ(s, p)
    ensures DistinctIds(s) ==> DistinctIds(r)
  {
    if s == [] then []
    else
      var m := |s| - 1;
      var rest := SortBy(before, s[..m]);
      assert s == s[..m] + [s[m]];
      InsertBy(before, rest, s[m])
  }

  /** By first position, lower ids first among equals. */
  ghost predicate ByScan(s: seq<VReg>) {
    forall i, j | 0 <= i < j < |s| :: s[i].first < s[j].first || (s[i].first == s[j].first && s[i].id <= s[j].id)
  }

  lemma {:induction false} InsertKeepsOrder(s: seq<VReg>, v: VReg)
    requires ByScan(s)
    ensures ByScan(InsertBy(ScanBefore, s, v))
  {
    if s != [] && !ScanBefore(v, s[0]) {
      InsertKeepsOrder(s[1..], v);
      var rest := InsertBy(ScanBefore, s[1..], v);
      forall k | 0 <= k < |rest| ensures s[0].first < rest[k].first || (s[0].first == rest[k].first && s[0].id <= rest[k].id) {
        assert rest[k] in rest;
      }
    }
  }

  lemma {:induction false} InsertAddsOne(before: (VReg, VReg) -> bool, s: seq<VReg>, v: VReg)
    ensures multiset(InsertBy(before, s, v)) == multiset(s) + multiset{v}
  {
    if s != [] && !before(v, s[0]) {
      InsertAddsOne(before, s[1..], v);
      assert s == [s[0]] + s[1..];
    }
  }

  /** The scan takes the ranges in that order, each as often as it was given. */
  lemma {:induction false} ScanOrder(s: seq<VReg>)
    ensures ByScan(SortBy(ScanBefore, s)) && multiset(SortBy(ScanBefore, s)) == multiset(s)
  {
    if s != [] {
      hide ByScan, InsertBy, ScanBefore;
      var m := |s| - 1;
      ScanOrder(s[..m]);
      InsertKeepsOrder(SortBy(ScanBefore, s[..m]), s[m]);
      InsertAddsOne(ScanBefore, SortBy(ScanBefore, s[..m]), s[m]);
      assert s == s[..m] + [s[m]];
    }
  }

  lemma SortedByFirst(s: seq<VReg>)
    ensures ByFirst(SortBy(ScanBefore, s))
  {
    ScanOrder(s);
  }

  /** Heaviest first, lower ids first among equals. */
  ghost predicate ByRepair(s: seq<VReg>) {
    forall i, j | 0 <= i < j < |s| :: RepairBefore(s[i], s[j])
  }

  lemma {:induction false} InsertKeepsRepairOrder(s: seq<VReg>, v: VReg)
    requires ByRepair(s) && forall w | w in s :: w.id != v.id
    ensures ByRepair(InsertBy(RepairBefore, s, v))
  {
    if s != [] && !RepairBefore(v, s[0]) {
      InsertKeepsRepairOrder(s[1..], v);
      var rest := InsertBy(RepairBefore, s[1..], v);
      forall k | 0 <= k < |rest| ensures RepairBefore(s[0], rest[k]) {
        assert rest[k] in rest && s[0] in s;
      }
    }
  }

  lemma {:induction false} SortedByRepair(s: seq<VReg>)
    requires DistinctIds(s)
    ensures ByRepair(SortBy(RepairBefore, s))
  {
    if s != [] {
      var m := |s| - 1;
      SortedByRepair(s[..m]);
      var rest := SortBy(RepairBefore, s[..m]);
      forall w | w in rest ensures w.id != s[m].id {
        var i :| 0 <= i < m && s[i] == w;
      }
      InsertKeepsRepairOrder(rest, s[m]);
    }
  }

  // ---------------------------------------------------------------------
  // exact selection of ranges
  // ---------------------------------------------------------------------

  /** All ranges lie between segments lo and hi. */
  ghost predicate InWindow(vs: seq<VReg>, lo: nat, hi: int) {
    forall k | 0 <= k < |vs| :: lo <= StartOf(vs[k]) && EndOf(vs[k]) <= hi + 1
  }

  function SpansOf(vs: seq<VReg>, lo: nat): (r: seq<Span>)
    requires forall k | 0 <= k < |vs| :: lo <= StartOf(vs[k])
    ensures |r| == |vs|
    ensures forall k | 0 <= k < |r| :: r[k] == Span(StartOf(vs[k]) - lo, EndOf(vs[k]) - lo, vs[k].id, vs[k].weight)
  {
    seq(|vs|, k requires 0 <= k < |vs| => Span(StartOf(vs[k]) - lo, EndOf(vs[k]) - lo, vs[k].id, vs[k].weight))
  }

  /** The ranges marked by x. */
  ghost function Pick(vs: seq<VReg>, x: seq<int>): (r: seq<VReg>)
    requires |x| == |vs|
    ensures forall v | v in r :: v in vs
    decreases |vs|
  {
    if vs == [] then []
    else
      var m := |vs| - 1;
      Pick(vs[..m], x[..m]) + if x[m] > 0 then [vs[m]] else []
  }

  lemma PickStep(vs: seq<VReg>, x: seq<int>)
    requires |x| == |vs| > 0
    ensures var m := |vs| - 1;
            Pick(vs, x) == if x[m] > 0 then Pick(vs[..m], x[..m]) + [vs[m]] else Pick(vs[..m], x[..m])
  {
  }

  lemma OccAppend(vs: seq<VReg>, v: VReg, p: int)
    ensures Occ(vs + [v], p) == Occ(vs, p) + if Occupies(v, p) then 1 else 0
  {
    assert (vs + [v])[..|vs|] == vs;
  }

  lemma {:induction false} PickOccupies(vs: seq<VReg>, lo: nat, x: seq<int>, p: int)
    requires forall k | 0 <= k < |vs| :: lo <= StartOf(vs[k])
    requires Marks(SpansOf(vs, lo), x)
    ensures Occ(Pick(vs, x), p) == Covered(SpansOf(vs, lo), x, p - lo)
  {
    if vs == [] {
      assert Covered(SpansOf(vs, lo), x, p - lo) == 0;
    } else {
      var m := |vs| - 1;
      PickOccupies(vs[..m], lo, x[..m], p);
      CoveredStep(vs, lo, x, p);
      OccPickStep(vs, x, p);
    }
  }

  lemma CoveredStep(vs: seq<VReg>, lo: nat, x: seq<int>, p: int)
    requires |x| == |vs| > 0 && forall k | 0 <= k < |vs| :: lo <= StartOf(vs[k])
    ensures var m := |vs| - 1;
            Covered(SpansOf(vs, lo), x, p - lo) ==
            Covered(SpansOf(vs[..m], lo), x[..m], p - lo) + if Occupies(vs[m], p) then x[m] else 0
  {
    hide Covered, TotalWeight;
    var m := |vs| - 1;
    var spans := SpansOf(vs, lo);
    assert spans == SpansOf(vs[..m], lo) + [spans[m]] && x == x[..m] + [x[m]];
    AppendOne(SpansOf(vs[..m], lo), x[..m], spans[m], x[m], p - lo);
  }

  lemma OccPickStep(vs: seq<VReg>, x: seq<int>, p: int)
    requires |x| == |vs| > 0 && (x[|x| - 1] == 0 || x[|x| - 1] == 1)
    ensures var m := |vs| - 1;
            Occ(Pick(vs, x), p) == Occ(Pick(vs[..m], x[..m]), p) + if Occupies(vs[m], p) then x[m] else 0
  {
    hide Occ, Occupies;
    var m := |vs| - 1;
    PickStep(vs, x);
    OccAppend(Pick(vs[..m], x[..m]), vs[m], p);
  }

  lemma {:induction false} PickDistinct(vs: seq<VReg>, x: seq<int>)
    requires DistinctIds(vs) && |x| == |vs|
    ensures DistinctIds(Pick(vs, x))
  {
    if vs != [] {
      var m := |vs| - 1;
      PickDistinct(vs[..m], x[..m]);
      var rest := Pick(vs[..m], x[..m]);
      forall k | 0 <= k < |rest| ensures rest[k].id != vs[m].id {
        assert rest[k] in rest && rest[k] in vs[..m];
      }
    }
  }

  lemma {:induction false} ChosenIds(vs: seq<VReg>, lo: nat, x: seq<int>, k: nat)
    requires forall k | 0 <= k < |vs| :: lo <= StartOf(vs[k])
    requires DistinctIds(vs) && |x| == |vs| && k < |vs|
    ensures vs[k].id in Chosen(SpansOf(vs, lo), x) <==> x[k] > 0
    ensures forall id | id in Chosen(SpansOf(vs, lo), x) :: exists j :: 0 <= j < |vs| && vs[j].id == id
    decreases |vs|
  {
    var m := |vs| - 1;
    var rest := Chosen(SpansOf(vs[..m], lo), x[..m]);
    ChosenLast(vs, lo, x);
    assert DistinctIds(vs[..m]) && (forall j | 0 <= j < m :: vs[j].id != vs[m].id);
    hide Chosen, SpansOf, DistinctIds;
    if m > 0 {
      ChosenIds(vs[..m], lo, x[..m], if k < m then k else 0);
      RestById(vs, m, rest);
    } else {
      NoneChosen(vs[..m], lo, x[..m]);
    }
  }

  lemma ChosenLast(vs: seq<VReg>, lo: nat, x: seq<int>)
    requires (forall k | 0 <= k < |vs| :: lo <= StartOf(vs[k])) && |x| == |vs| && vs != []
    ensures var m := |vs| - 1;
            Chosen(SpansOf(vs, lo), x) == Chosen(SpansOf(vs[..m], lo), x[..m]) + if x[m] > 0 then [vs[m].id] else []
  {
    var m := |vs| - 1;
    assert SpansOf(vs, lo)[..m] == SpansOf(vs[..m], lo);
  }

  lemma RestById(vs: seq<VReg>, m: nat, rest: seq<int>)
    requires m < |vs| && forall id | id in rest :: exists j :: 0 <= j < m && vs[..m][j].id == id
    ensures forall id | id in rest :: exists j :: 0 <= j < m && vs[j].id == id
  {
    forall id | id in rest ensures exists j :: 0 <= j < m && vs[j].id == id {
      var j :| 0 <= j < m && vs[..m][j].id == id;
      assert vs[j].id == id;
    }
  }

  lemma NoneChosen(vs: seq<VReg>, lo: nat, x: seq<int>)
    requires vs == [] && x == []
    ensures Chosen(SpansOf(vs, lo), x) == []
  {
  }

  /** sel is an exact optimum: the marked ranges of a maximum-weight feasible selection. */
  ghost predicate ExactSelection(vs: seq<VReg>, lo: nat, caps: seq<nat>, sel: seq<VReg>)
    requires forall k | 0 <= k < |vs| :: lo <= StartOf(vs[k])
  {
    exists x :: |x| == |vs| && Optimal(SpansOf(vs, lo), caps, x) && sel == Pick(vs, x)
  }

  lemma SelectedById(vs: seq<VReg>, lo: nat, x: seq<int>, ids: seq<int>, k: nat)
    requires DistinctIds(vs) && forall k | 0 <= k < |vs| :: lo <= StartOf(vs[k])
    requires |x| == |vs| && k < |vs| && ids == Sort(Chosen(SpansOf(vs, lo), x))
    ensures vs[k].id in ids <==> x[k] > 0
  {
    var c := Chosen(SpansOf(vs, lo), x);
    ChosenIds(vs, lo, x, k);
    assert vs[k].id in multiset(ids) <==> vs[k].id in multiset(c);
  }

  /** Runs the flow on the ranges of one stage and keeps those whose ids it returns. */
  method SelectRanges(vs: seq<VReg>, lo: nat, caps: seq<nat>) returns (sel: seq<VReg>)
    requires DistinctIds(vs) && forall k | 0 <= k < |vs| :: lo <= StartOf(vs[k])
    ensures ExactSelection(vs, lo, caps, sel)
  {
    hide Optimal, Chosen, Sort, DistinctIds, StartOf, EndOf;
    var ids := RallocFlowSelect(SpansOf(vs, lo), caps);
    ghost var x :| |x| == |vs| && Optimal(SpansOf(vs, lo), caps, x) && ids == Sort(Chosen(SpansOf(vs, lo), x));
    sel := [];
    for k := 0 to |vs|
      invariant sel == Pick(vs[..k], x[..k])
    {
      SelectedById(vs, lo, x, ids, k);
      assert vs[..k + 1][..k] == vs[..k] && x[..k + 1][..k] == x[..k];
      if vs[k].id in ids {
        sel := sel + [vs[k]];
      }
    }
    assert vs[..|vs|] == vs && x[..|vs|] == x;
  }

  lemma SelectionFits(vs: seq<VReg>, lo: nat, hi: int, caps: seq<nat>, sel: seq<VReg>, p: int)
    requires InWindow(vs, lo, hi) && |caps| == hi - lo + 1 && DistinctIds(vs)
    requires ExactSelection(vs, lo, caps, sel)
    ensures Occ(sel, p) <= if lo <= p <= hi then caps[p - lo] else 0
    ensures DistinctIds(sel) && forall v | v in sel :: v in vs
  {
    var x :| |x| == |vs| && Optimal(SpansOf(vs, lo), caps, x) && sel == Pick(vs, x);
    hide Occ, Pick, DistinctIds;
    PickOccupies(vs, lo, x, p);
    PickDistinct(vs, x);
    if !(lo <= p <= hi) {
      SumZero(CoverTerms(SpansOf(vs, lo), x, p - lo));
    }
  }

  // ---------------------------------------------------------------------
  // occupancy and repair
  // ---------------------------------------------------------------------

  /** occ[i] counts the ranges of the list on segment lo + i. */
  ghost predicate Profile(occ: seq<nat>, vs: seq<VReg>, lo: nat, hi: nat) {
    && lo <= hi && |occ| == hi - lo + 1
    && forall p | lo <= p <= hi :: occ[p - lo] == Occ(vs, p)
  }

  /** Adds one range to a profile. */
  method Bump(occ: seq<nat>, v: VReg, lo: nat, hi: nat, ghost vs: seq<VReg>) returns (r: seq<nat>)
    requires Profile(occ, vs, lo, hi)
    ensures Profile(r, vs + [v], lo, hi)
  {
    r := occ;
    for p := StartOf(v) to EndOf(v)
      invariant |r| == |occ|
      invariant forall q | lo <= q <= hi :: r[q - lo] == Occ(vs, q) + if StartOf(v) <= q < p then 1 else 0
    {
      if lo <= p <= hi {
        r := r[p - lo := r[p - lo] + 1];
      }
    }
    forall q | lo <= q <= hi ensures r[q - lo] == Occ(vs + [v], q) {
      OccAppend(vs, v, q);
    }
  }

  method Occupancy(vs: seq<VReg>, lo: nat, hi: nat) returns (occ: seq<nat>)
    requires lo <= hi
    ensures Profile(occ, vs, lo, hi)
  {
    occ := seq(hi - lo + 1, _ => 0);
    assert vs[..0] == [];
    for k := 0 to |vs|
      invariant Profile(occ, vs[..k], lo, hi)
    {
      assert vs[..k + 1] == vs[..k] + [vs[k]];
      occ := Bump(occ, vs[k], lo, hi, vs[..k]);
    }
    assert vs[..|vs|] == vs;
  }

  predicate RoomAt(xa: seq<nat>, xb: seq<nat>, lo: nat, p: nat, callee: nat, total: nat)
    requires lo <= p < lo + |xa| && |xa| == |xb|
  {
    xa[p - lo] < callee && xa[p - lo] + xb[p - lo] < total
  }

  /** v fits when both the callee-saved registers and all registers have room on each of its segments. */
  method Fits(v: VReg, xa: seq<nat>, xb: seq<nat>, lo: nat, hi: nat, callee: nat, total: nat) returns (fits: bool)
    requires lo <= hi && |xa| == |xb| == hi - lo + 1 && lo <= StartOf(v) && EndOf(v) <= hi + 1
    ensures fits <==> forall p: nat | StartOf(v) <= p < EndOf(v) :: RoomAt(xa, xb, lo, p, callee, total)
  {
    fits := true;
    var p := StartOf(v);
    while p < EndOf(v) && fits
      invariant StartOf(v) <= p <= EndOf(v)
      invariant fits ==> forall q: nat | StartOf(v) <= q < p :: RoomAt(xa, xb, lo, q, callee, total)
      invariant !fits ==> exists q: nat :: StartOf(v) <= q < EndOf(v) && !RoomAt(xa, xb, lo, q, callee, total)
    {
      if xa[p - lo] >= callee || xa[p - lo] + xb[p - lo] >= total {
        assert !RoomAt(xa, xb, lo, p, callee, total);
        fits := false;
      }
      p := p + 1;
    }
  }

  /** Both bounds of the two-bank model hold on every segment. */
  ghost predicate WithinBanks(a: seq<VReg>, b: seq<VReg>, callee: nat, total: nat) {
    forall p :: Occ(a, p) <= callee && Occ(a, p) + Occ(b, p) <= total
  }

  /** Somewhere on v's range one of the two bounds is reached. */
  ghost predicate FullFor(a: seq<VReg>, b: seq<VReg>, v: VReg, callee: nat, total: nat) {
    exists q: nat :: StartOf(v) <= q < EndOf(v) && (Occ(a, q) >= callee || Occ(a, q) + Occ(b, q) >= total)
  }

  /** v was left out for a reason: the exact selection and added ranges that are heavier, or as heavy with a lower id,
      left it no room. */
  ghost predicate TurnedAway(selA: seq<VReg>, sel: seq<VReg>, selB: seq<VReg>, v: VReg, callee: nat, total: nat) {
    exists n: nat :: |selA| <= n <= |sel| && AreHeavier(sel[|selA|..n], v) && FullFor(sel[..n], selB, v, callee, total)
  }

  ghost predicate AreHeavier(s: seq<VReg>, v: VReg) {
    forall w | w in s :: w.weight > v.weight || (w.weight == v.weight && w.id <= v.id)
  }

  ghost predicate Repaired(crossing: seq<VReg>, selA: seq<VReg>, sel: seq<VReg>, selB: seq<VReg>, callee: nat, total: nat) {
    forall v | v in crossing && v !in sel :: TurnedAway(selA, sel, selB, v, callee, total)
  }

  lemma TurnedAwayStays(selA: seq<VReg>, sel: seq<VReg>, selB: seq<VReg>, v: VReg, w: VReg, callee: nat, total: nat)
    requires TurnedAway(selA, sel, selB, v, callee, total)
    ensures TurnedAway(selA, sel + [w], selB, v, callee, total)
  {
    var n: nat :| |selA| <= n <= |sel| && AreHeavier(sel[|selA|..n], v) && FullFor(sel[..n], selB, v, callee, total);
    assert (sel + [w])[..n] == sel[..n] && (sel + [w])[|selA|..n] == sel[|selA|..n];
  }

  lemma TurnsAway(selA: seq<VReg>, sel: seq<VReg>, selB: seq<VReg>, v: VReg, callee: nat, total: nat, xa: seq<nat>, xb: seq<nat>, lo: nat, hi: nat, q: nat)
    requires Profile(xa, sel, lo, hi) && Profile(xb, selB, lo, hi) && lo <= StartOf(v) <= q < EndOf(v) <= hi + 1
    requires !RoomAt(xa, xb, lo, q, callee, total)
    requires |selA| <= |sel| && forall j | |selA| <= j < |sel| :: RepairBefore(sel[j], v)
    ensures TurnedAway(selA, sel, selB, v, callee, total)
  {
    assert sel[..|sel|] == sel;
    forall w | w in sel[|selA|..|sel|] ensures w.weight > v.weight || (w.weight == v.weight && w.id <= v.id) {
      var j :| |selA| <= j < |sel| && sel[j] == w;
    }
    assert xa[q - lo] == Occ(sel, q) && xb[q - lo] == Occ(selB, q);
    hide Occ, Profile;
    assert FullFor(sel, selB, v, callee, total);
  }

  lemma FittingKeepsBanks(a: seq<VReg>, b: seq<VReg>, v: VReg, callee: nat, total: nat)
    requires WithinBanks(a, b, callee, total)
    requires forall p | StartOf(v) <= p < EndOf(v) :: Occ(a, p) < callee && Occ(a, p) + Occ(b, p) < total
    ensures WithinBanks(a + [v], b, callee, total)
  {
    forall p ensures Occ(a + [v], p) <= callee && Occ(a + [v], p) + Occ(b, p) <= total {
      OccAppend(a, v, p);
      assert Occ(a, p) <= callee;
    }
  }

  /** The deselected crossing ranges, heaviest first. */
  method Rejected(crossing: seq<VReg>, selA: seq<VReg>) returns (rejected: seq<VReg>)
    requires DistinctIds(crossing)
    ensures forall v :: v in rejected <==> v in crossing && v !in selA
    ensures DistinctIds(rejected) && ByRepair(rejected)
  {
    rejected := [];
    for k := 0 to |crossing|
      invariant forall v :: v in rejected <==> v in crossing[..k] && v !in selA
      invariant DistinctIds(rejected)
    {
      if crossing[k] !in selA {
        forall j | 0 <= j < |rejected| ensures rejected[j].id != crossing[k].id {
          assert rejected[j] in rejected;
        }
        rejected := rejected + [crossing[k]];
      }
    }
    assert crossing[..|crossing|] == crossing;
    SortedByRepair(rejected);
    rejected := SortBy(RepairBefore, rejected);
  }

  /** Adds deselected crossing ranges back, heaviest first, wherever both banks still have room. */
  method Repair(crossing: seq<VReg>, selA: seq<VReg>, selB: seq<VReg>, lo: nat, hi: nat, callee: nat, total: nat)
    returns (sel: seq<VReg>)
    requires lo <= hi && DistinctIds(crossing) && InWindow(crossing, lo, hi)
    requires DistinctIds(selA) && forall v | v in selA :: v in crossing
    requires WithinBanks(selA, selB, callee, total)
    ensures DistinctIds(sel) && forall v | v in sel :: v in crossing
    ensures selA <= sel
    ensures WithinBanks(sel, selB, callee, total)
    ensures Repaired(crossing, selA, sel, selB, callee, total)
  {
    hide WithinBanks, TurnedAway, Occ, ByRepair, RepairBefore;
    var xa := Occupancy(selA, lo, hi);
    var xb := Occupancy(selB, lo, hi);
    var rejected := Rejected(crossing, selA);
    sel := selA;
    for k := 0 to |rejected|
      invariant DistinctIds(sel) && selA <= sel
      invariant forall v | v in sel :: v in crossing
      invariant forall j | |selA| <= j < |sel| :: sel[j] in rejected[..k]
      invariant WithinBanks(sel, selB, callee, total)
      invariant Profile(xa, sel, lo, hi) && Profile(xb, selB, lo, hi)
      invariant forall j | 0 <= j < k && rejected[j] !in sel :: TurnedAway(selA, sel, selB, rejected[j], callee, total)
    {
      var v := rejected[k];
      assert v in rejected && v in crossing;
      var fits := Fits(v, xa, xb, lo, hi, callee, total);
      if fits {
        RoomToFit(sel, selB, v, callee, total, xa, xb, lo, hi);
        FittingKeepsBanks(sel, selB, v, callee, total);
        NewcomerIsDistinct(crossing, selA, rejected, sel, k);
        forall j | 0 <= j < k && rejected[j] !in sel ensures TurnedAway(selA, sel + [v], selB, rejected[j], callee, total) {
          TurnedAwayStays(selA, sel, selB, rejected[j], v, callee, total);
        }
        xa := Bump(xa, v, lo, hi, sel);
        sel := sel + [v];
      } else {
        var q: nat :| StartOf(v) <= q < EndOf(v) && !RoomAt(xa, xb, lo, q, callee, total);
        AddedBefore(rejected, sel, |selA|, k);
        TurnsAway(selA, sel, selB, v, callee, total, xa, xb, lo, hi, q);
      }
    }
  }

  lemma RoomToFit(sel: seq<VReg>, selB: seq<VReg>, v: VReg, callee: nat, total: nat, xa: seq<nat>, xb: seq<nat>, lo: nat, hi: nat)
    requires Profile(xa, sel, lo, hi) && Profile(xb, selB, lo, hi) && lo <= StartOf(v) && EndOf(v) <= hi + 1
    requires forall p: nat | StartOf(v) <= p < EndOf(v) :: RoomAt(xa, xb, lo, p, callee, total)
    ensures forall p | StartOf(v) <= p < EndOf(v) :: Occ(sel, p) < callee && Occ(sel, p) + Occ(selB, p) < total
  {
    hide Occ;
    forall p | StartOf(v) <= p < EndOf(v) ensures Occ(sel, p) < callee && Occ(sel, p) + Occ(selB, p) < total {
      var q: nat := p;
      assert RoomAt(xa, xb, lo, q, callee, total) && xa[q - lo] == Occ(sel, q);
    }
  }

  lemma AddedBefore(rejected: seq<VReg>, sel: seq<VReg>, n: nat, k: nat)
    requires ByRepair(rejected) && k < |rejected| && forall j | n <= j < |sel| :: sel[j] in rejected[..k]
    ensures forall j | n <= j < |sel| :: RepairBefore(sel[j], rejected[k])
  {
  }

  lemma NewcomerIsDistinct(crossing: seq<VReg>, selA: seq<VReg>, rejected: seq<VReg>, sel: seq<VReg>, k: nat)
    requires DistinctIds(crossing) && DistinctIds(rejected) && k < |rejected|
    requires forall v | v in rejected :: v in crossing && v !in selA
    requires selA <= sel && (forall v | v in sel :: v in crossing) && forall j | |selA| <= j < |sel| :: sel[j] in rejected[..k]
    ensures forall j | 0 <= j < |sel| :: sel[j].id != rejected[k].id
  {
    forall j | 0 <= j < |sel| ensures sel[j].id != rejected[k].id {
      assert sel[j] in sel && rejected[k] in rejected;
      assert sel[j] in crossing && rejected[k] in crossing;
      if j < |selA| {
        assert sel[j] in selA;
      } else {
        var i :| 0 <= i < k && rejected[i] == sel[j];
      }
    }
  }

  // ---------------------------------------------------------------------
  // the greedy scan
  // ---------------------------------------------------------------------

  /** Expires, register by register, the holders that ended before v. */
  method ExpireAll(slots: Slots, v: VReg) returns (r: Slots)
    ensures r == Expire(slots, v)
  {
    r := slots;
    for b := 0 to |slots|
      invariant |r| == |slots|
      invariant forall c | 0 <= c < |slots| :: r[c] == if c < b then Expire(slots, v)[c] else slots[c]
    {
      for j := 0 to |slots[b]|
        invariant |r| == |slots| && |r[b]| == |slots[b]|
        invariant forall c | 0 <= c < |slots| && c != b :: r[c] == if c < b then Expire(slots, v)[c] else slots[c]
        invariant forall i | 0 <= i < |slots[b]| :: r[b][i] == if i < j then ExpireOne(slots[b][i], v) else slots[b][i]
      {
        if r[b][j].active && (r[b][j].last < v.first || (r[b][j].last == v.first && v.startsAtDef)) {
          r := r[b := r[b][j := r[b][j].(active := false)]];
        }
      }
    }
  }

  /** First free register of the bank, scanning left to right. */
  method ScanBank(bank: seq<RegUse>) returns (j: nat)
    ensures j == FirstFree(bank)
  {
    j := 0;
    assert bank[0..] == bank;
    while j < |bank| && bank[j].active
      invariant 0 <= j <= |bank|
      invariant FirstFree(bank) == j + FirstFree(bank[j..])
    {
      assert bank[j..][1..] == bank[j + 1..];
      j := j + 1;
    }
  }

  /** First bank of the order with a free register. */
  method PickRegister(slots: Slots, order: seq<nat>) returns (r: Option<(nat, nat)>)
    requires forall b | b in order :: b < |slots|
    ensures r == FindSlot(slots, order)
  {
    r := None;
    var k := 0;
    assert order[0..] == order;
    while k < |order| && r.None?
      invariant 0 <= k <= |order|
      invariant r.None? ==> FindSlot(slots, order) == FindSlot(slots, order[k..])
      invariant r.Some? ==> r == FindSlot(slots, order)
    {
      assert order[k] in order;
      assert order[k..][1..] == order[k + 1..];
      var j := ScanBank(slots[order[k]]);
      if j < |slots[order[k]]| {
        r := Some((order[k], j));
      }
      k := k + 1;
    }
  }

  /** The greedy assignment of one class. */
  method AssignRegisters(banks: seq<Bank>, preferCallee: bool, start: map<int, nat>, ordered: seq<VReg>) returns (board: Board)
    ensures board == Scan(banks, preferCallee, start, ordered)
  {
    board := Board(FreshSlots(banks), start);
    for k := 0 to |ordered|
      invariant board == Scan(banks, preferCallee, start, ordered[..k])
      invariant |board.slots| == |banks|
    {
      var v := ordered[k];
      assert ordered[..k + 1][..k] == ordered[..k];
      var slots := ExpireAll(board.slots, v);
      var choice := PickRegister(slots, BankOrder(banks, preferCallee, v));
      match choice
      case None =>
        board := Board(slots, board.regOf);
      case Some((b, j)) =>
        board := Board(Hold(slots, b, j, v), board.regOf[v.id := slots[b][j].reg]);
    }
    assert ordered[..|ordered|] == ordered;
  }

  // ---------------------------------------------------------------------
  // soundness of an assignment
  // ---------------------------------------------------------------------

  /** Exact live sub-intervals, the hull when the target did not refine them. */
  function GensOf(v: VReg): seq<Gen> {
    if v.gens != [] then v.gens else [Gen(v.first, v.last)]
  }

  predicate Touch(x: Gen, y: Gen) {
    x.start <= y.end && y.start <= x.end
  }

  /** One ends exactly where the other begins. */
  predicate Handover(x: Gen, y: Gen) {
    x.end == y.start || y.end == x.start
  }

  /** Two ranges may share a register: live sub-intervals that touch only hand over. */
  ghost predicate Compatible(v: VReg, w: VReg) {
    forall i, j | 0 <= i < |GensOf(v)| && 0 <= j < |GensOf(w)| && Touch(GensOf(v)[i], GensOf(w)[j]) ::
      Handover(GensOf(v)[i], GensOf(w)[j])
  }

  /** Compatible ranges are live together at one position at most, which ends one and starts the other. */
  lemma CompatibleMeansHandover(v: VReg, w: VReg, i: nat, j: nat, p: nat)
    requires Compatible(v, w) && i < |GensOf(v)| && j < |GensOf(w)|
    requires GensOf(v)[i].start <= p <= GensOf(v)[i].end && GensOf(w)[j].start <= p <= GensOf(w)[j].end
    ensures (p == GensOf(v)[i].end && p == GensOf(w)[j].start) || (p == GensOf(w)[j].end && p == GensOf(v)[i].start)
  {
    assert Touch(GensOf(v)[i], GensOf(w)[j]);
  }

  ghost predicate GensInside(v: VReg) {
    forall k | 0 <= k < |v.gens| :: v.first <= v.gens[k].start <= v.gens[k].end <= v.last
  }

  /** What the target owes the allocator. */
  ghost predicate WellFormed(p: Problem) {
    && DistinctIds(p.vregs)
    && (forall k | 0 <= k < |p.vregs| :: GensInside(p.vregs[k]))
    && (forall c | 0 <= c < |p.classes| :: DistinctRegs(p.classes[c]))
  }

  ghost predicate SameRegister(p: Problem, regOf: map<int, nat>, i: nat, j: nat)
    requires i < |p.vregs| && j < |p.vregs|
  {
    var v, w := p.vregs[i], p.vregs[j];
    v.cls == w.cls && v.id in regOf && w.id in regOf && regOf[v.id] == regOf[w.id]
  }

  ghost predicate WellPlaced(p: Problem, regOf: map<int, nat>, v: VReg) {
    v.id in regOf ==> v.cls < |p.classes| && EligibleFor(p.classes[v.cls], regOf[v.id], v)
  }

  /** Every promoted range sits in an eligible register, and ranges that share one are compatible. */
  ghost predicate Sound(p: Problem, regOf: map<int, nat>) {
    && (forall k | 0 <= k < |p.vregs| :: WellPlaced(p, regOf, p.vregs[k]))
    && (forall i: nat, j: nat | i < j < |p.vregs| && SameRegister(p, regOf, i, j) :: Compatible(p.vregs[i], p.vregs[j]))
  }

  lemma ApartIsCompatible(v: VReg, w: VReg)
    requires GensInside(v) && GensInside(w) && (v.last <= w.first || w.last <= v.first)
    ensures Compatible(v, w) && Compatible(w, v)
  {
  }

  /** A register's callee-savedness, as the bank lists say it. */
  function RegCallee(banks: seq<Bank>, reg: nat): bool {
    if banks == [] then false
    else if reg in banks[|banks| - 1].regs then banks[|banks| - 1].calleeSaved
    else RegCallee(banks[..|banks| - 1], reg)
  }

  lemma {:induction false} RegCalleeFinds(banks: seq<Bank>, reg: nat)
    requires RegCallee(banks, reg)
    ensures exists b, j :: 0 <= b < |banks| && 0 <= j < |banks[b].regs| && banks[b].regs[j] == reg && banks[b].calleeSaved
  {
    var m := |banks| - 1;
    if reg in banks[m].regs {
      var j :| 0 <= j < |banks[m].regs| && banks[m].regs[j] == reg;
    } else {
      RegCalleeFinds(banks[..m], reg);
      var b, j :| 0 <= b < m && 0 <= j < |banks[..m][b].regs| && banks[..m][b].regs[j] == reg && banks[..m][b].calleeSaved;
      assert banks[b] == banks[..m][b];
    }
  }

  // ---------------------------------------------------------------------
  // coalescing
  // ---------------------------------------------------------------------

  predicate HullsOverlap(v: VReg, w: VReg) {
    v.first <= w.last && w.first <= v.last
  }

  predicate InHull(v: VReg, p: nat) {
    v.first <= p <= v.last
  }

  /** Hulls overlap when they have a position in common. */
  lemma HullsMeet(v: VReg, w: VReg)
    requires v.first <= v.last && w.first <= w.last
    ensures HullsOverlap(v, w) <==> exists p: nat :: InHull(v, p) && InHull(w, p)
  {
    if HullsOverlap(v, w) {
      var p := if v.first < w.first then w.first else v.first;
      assert InHull(v, p) && InHull(w, p);
    }
  }

  /** A third range of the mover's class that already lives on the register within the mover's hull. */
  predicate Blocks(regOf: map<int, nat>, u: VReg, mover: VReg, other: VReg, reg: nat) {
    && u.id != mover.id && u.id != other.id && u.cls == mover.cls
    && u.id in regOf && regOf[u.id] == reg && HullsOverlap(u, mover)
  }

  /** The conservative test: the mover may join `other` on register `reg`. */
  ghost predicate MayMove(p: Problem, regOf: map<int, nat>, mover: VReg, other: VReg, reg: nat) {
    && mover.cls < |p.classes|
    && (mover.crossesCall ==> RegCallee(p.classes[mover.cls], reg))
    && Compatible(mover, other)
    && (forall k | 0 <= k < |p.vregs| :: !Blocks(regOf, p.vregs[k], mover, other, reg))
  }

  method GensClear(gm: seq<Gen>, go: seq<Gen>) returns (ok: bool)
    ensures ok <==> forall i, j | 0 <= i < |gm| && 0 <= j < |go| && Touch(gm[i], go[j]) :: Handover(gm[i], go[j])
  {
    for i := 0 to |gm|
      invariant forall k, j | 0 <= k < i && 0 <= j < |go| && Touch(gm[k], go[j]) :: Handover(gm[k], go[j])
    {
      for j := 0 to |go|
        invariant forall l | 0 <= l < j && Touch(gm[i], go[l]) :: Handover(gm[i], go[l])
      {
        if Touch(gm[i], go[j]) && !Handover(gm[i], go[j]) {
          return false;
        }
      }
    }
    return true;
  }

  method Attempt(p: Problem, regOf: map<int, nat>, mover: VReg, other: VReg, reg: nat) returns (ok: bool)
    requires mover.cls < |p.classes|
    ensures ok <==> MayMove(p, regOf, mover, other, reg)
  {
    if mover.crossesCall && !RegCallee(p.classes[mover.cls], reg) {
      return false;
    }
    var clear := GensClear(GensOf(mover), GensOf(other));
    if !clear {
      return false;
    }
    for k := 0 to |p.vregs|
      invariant forall i | 0 <= i < k :: !Blocks(regOf, p.vregs[i], mover, other, reg)
    {
      if Blocks(regOf, p.vregs[k], mover, other, reg) {
        return false;
      }
    }
    return true;
  }

  /** Moving one range under the test keeps the assignment sound. */
  lemma MoveKeepsSound(p: Problem, regOf: map<int, nat>, m: nat, o: nat)
    requires WellFormed(p) && Sound(p, regOf) && m < |p.vregs| && o < |p.vregs| && m != o
    requires p.vregs[m].cls == p.vregs[o].cls && p.vregs[m].id in regOf && p.vregs[o].id in regOf
    requires MayMove(p, regOf, p.vregs[m], p.vregs[o], regOf[p.vregs[o].id])
    ensures Sound(p, regOf[p.vregs[m].id := regOf[p.vregs[o].id]])
  {
    var mover, other := p.vregs[m], p.vregs[o];
    var reg := regOf[other.id];
    var regOf' := regOf[mover.id := reg];
    forall k | 0 <= k < |p.vregs| ensures WellPlaced(p, regOf', p.vregs[k]) {
      assert WellPlaced(p, regOf, p.vregs[k]) && WellPlaced(p, regOf, other);
      if k == m && mover.crossesCall {
        RegCalleeFinds(p.classes[mover.cls], reg);
      }
    }
    forall i: nat, j: nat | i < j < |p.vregs| && SameRegister(p, regOf', i, j)
      ensures Compatible(p.vregs[i], p.vregs[j])
    {
      if i == m || j == m {
        var u := if i == m then j else i;
        if u == o {
          CompatibleSymmetric(mover, other);
        } else {
          assert !Blocks(regOf, p.vregs[u], mover, other, reg);
          HullsApart(p.vregs[u], mover);
        }
      } else {
        assert SameRegister(p, regOf, i, j);
      }
    }
  }

  lemma CompatibleSymmetric(v: VReg, w: VReg)
    requires Compatible(v, w)
    ensures Compatible(w, v)
  {
    forall i, j | 0 <= i < |GensOf(w)| && 0 <= j < |GensOf(v)| && Touch(GensOf(w)[i], GensOf(v)[j])
      ensures Handover(GensOf(w)[i], GensOf(v)[j])
    {
      assert Touch(GensOf(v)[j], GensOf(w)[i]);
    }
  }

  lemma HullsApart(v: VReg, w: VReg)
    requires GensInside(v) && GensInside(w) && !HullsOverlap(v, w)
    ensures Compatible(v, w) && Compatible(w, v)
  {
  }

  /** Index of a range by id. */
  function IndexOfId(vs: seq<VReg>, id: int): (r: Option<nat>)
    ensures r.Some? ==> r.value < |vs| && vs[r.value].id == id
    ensures r.None? ==> forall k | 0 <= k < |vs| :: vs[k].id != id
  {
    if vs == [] then None
    else if vs[|vs| - 1].id == id then Some(|vs| - 1)
    else IndexOfId(vs[..|vs| - 1], id)
  }

  /** The ends of a move are promoted ranges of one class on different registers. */
  ghost predicate Joinable(p: Problem, regOf: map<int, nat>, mv: Move) {
    var a, b := IndexOfId(p.vregs, mv.a), IndexOfId(p.vregs, mv.b);
    && a.Some? && b.Some? && p.vregs[a.value].cls == p.vregs[b.value].cls
    && mv.a in regOf && mv.b in regOf && regOf[mv.a] != regOf[mv.b]
  }

  /** One end of a joinable move may move over to the other's register. */
  ghost predicate MayJoin(p: Problem, regOf: map<int, nat>, mover: int, other: int) {
    var m, o := IndexOfId(p.vregs, mover), IndexOfId(p.vregs, other);
    m.Some? && o.Some? && other in regOf && MayMove(p, regOf, p.vregs[m.value], p.vregs[o.value], regOf[other])
  }

  ghost predicate CanUnify(p: Problem, regOf: map<int, nat>, mv: Move) {
    Joinable(p, regOf, mv) && (MayJoin(p, regOf, mv.a, mv.b) || MayJoin(p, regOf, mv.b, mv.a))
  }

  /** What trying one move makes of an assignment. */
  ghost function Joined(p: Problem, regOf: map<int, nat>, mv: Move): map<int, nat> {
    if !CanUnify(p, regOf, mv) then regOf
    else if MayJoin(p, regOf, mv.a, mv.b) then regOf[mv.a := regOf[mv.b]]
    else regOf[mv.b := regOf[mv.a]]
  }

  /** The assignment after trying the first k moves in turn, and how many were unified. */
  ghost function RoundOf(p: Problem, regOf: map<int, nat>, k: nat): (map<int, nat>, nat)
    requires k <= |p.moves|
  {
    if k == 0 then (regOf, 0)
    else
      var (before, n) := RoundOf(p, regOf, k - 1);
      (Joined(p, before, p.moves[k - 1]), n + if CanUnify(p, before, p.moves[k - 1]) then 1 else 0)
  }

  /** The assignment after n rounds over all moves, and how many were unified in them. */
  ghost function RoundsOf(p: Problem, regOf: map<int, nat>, n: nat): (map<int, nat>, nat) {
    if n == 0 then (regOf, 0)
    else
      var (before, c) := RoundsOf(p, regOf, n - 1);
      var (after, d) := RoundOf(p, before, |p.moves|);
      (after, c + d)
  }

  /** No move can be unified any more. */
  ghost predicate Settled(p: Problem, regOf: map<int, nat>) {
    forall k | 0 <= k < |p.moves| :: !CanUnify(p, regOf, p.moves[k])
  }

  /** Tries to unify the two ends of one move, either way round. */
  method CoalesceMove(p: Problem, regOf: map<int, nat>, mv: Move) returns (regOf': map<int, nat>, moved: bool)
    requires WellFormed(p) && Sound(p, regOf)
    ensures Sound(p, regOf') && regOf'.Keys == regOf.Keys
    ensures regOf' == Joined(p, regOf, mv) && (moved <==> CanUnify(p, regOf, mv))
  {
    regOf', moved := regOf, false;
    var a, b := IndexOfId(p.vregs, mv.a), IndexOfId(p.vregs, mv.b);
    if a.None? || b.None? || p.vregs[a.value].cls != p.vregs[b.value].cls {
      return;
    }
    if mv.a !in regOf || mv.b !in regOf || regOf[mv.a] == regOf[mv.b] {
      return;
    }
    var va, vb := p.vregs[a.value], p.vregs[b.value];
    assert WellPlaced(p, regOf, va) && WellPlaced(p, regOf, vb);
    var ok := Attempt(p, regOf, va, vb, regOf[mv.b]);
    if ok {
      MoveKeepsSound(p, regOf, a.value, b.value);
      regOf', moved := regOf[mv.a := regOf[mv.b]], true;
    } else {
      ok := Attempt(p, regOf, vb, va, regOf[mv.a]);
      if ok {
        MoveKeepsSound(p, regOf, b.value, a.value);
        regOf', moved := regOf[mv.b := regOf[mv.a]], true;
      }
    }
  }

  /** Up to six rounds over the move list, until a round changes nothing. */
  method Coalesce(p: Problem, regOf: map<int, nat>) returns (regOf': map<int, nat>, coalesced: nat, rounds: nat)
    requires WellFormed(p) && Sound(p, regOf)
    ensures Sound(p, regOf') && regOf'.Keys == regOf.Keys
    ensures (regOf', coalesced) == RoundsOf(p, regOf, rounds)
    ensures rounds <= 6 && (rounds < 6 || coalesced == 0 ==> Settled(p, regOf'))
  {
    hide Sound, CanUnify, WellFormed, Joined;
    regOf', coalesced, rounds := regOf, 0, 0;
    var any := true;
    while rounds < 6 && any
      invariant Sound(p, regOf') && regOf'.Keys == regOf.Keys && rounds <= 6
      invariant (regOf', coalesced) == RoundsOf(p, regOf, rounds)
      invariant if any then rounds == 0 || coalesced > 0 else Settled(p, regOf')
      decreases 6 - rounds
    {
      any := false;
      ghost var start, before := regOf', coalesced;
      for k := 0 to |p.moves|
        invariant Sound(p, regOf') && regOf'.Keys == regOf.Keys && coalesced >= before
        invariant (regOf', coalesced - before) == RoundOf(p, start, k)
        invariant if any then coalesced > 0 else regOf' == start && forall j | 0 <= j < k :: !CanUnify(p, start, p.moves[j])
      {
        var moved;
        ghost var was := regOf';
        regOf', moved := CoalesceMove(p, regOf', p.moves[k]);
        NothingJoined(p, was, p.moves[k]);
        if moved {
          coalesced, any := coalesced + 1, true;
        }
      }
      rounds := rounds + 1;
    }
  }

  lemma NothingJoined(p: Problem, regOf: map<int, nat>, mv: Move)
    ensures !CanUnify(p, regOf, mv) ==> Joined(p, regOf, mv) == regOf
  {
  }

  // ---------------------------------------------------------------------
  // one class, and all of them
  // ---------------------------------------------------------------------

  /** The ranges of class ci that do, or do not, cross a call, in problem order. */
  function ClassRanges(vregs: seq<VReg>, ci: nat, crossing: bool): (r: seq<VReg>)
    ensures forall v :: v in r <==> v in vregs && v.cls == ci && v.crossesCall == crossing
  {
    if vregs == [] then []
    else
      var m := |vregs| - 1;
      assert vregs == vregs[..m] + [vregs[m]];
      ClassRanges(vregs[..m], ci, crossing)
        + if vregs[m].cls == ci && vregs[m].crossesCall == crossing then [vregs[m]] else []
  }

  lemma {:induction false} ClassRangesDistinct(vregs: seq<VReg>, ci: nat, crossing: bool)
    requires DistinctIds(vregs)
    ensures DistinctIds(ClassRanges(vregs, ci, crossing))
  {
    if vregs != [] {
      var m := |vregs| - 1;
      ClassRangesDistinct(vregs[..m], ci, crossing);
      var rest := ClassRanges(vregs[..m], ci, crossing);
      forall k | 0 <= k < |rest| ensures rest[k].id != vregs[m].id {
        assert rest[k] in rest && rest[k] in vregs[..m];
      }
    }
  }

  /** First and last segment any of the ranges occupies. */
  method Window(vs: seq<VReg>) returns (lo: nat, hi: nat)
    requires vs != []
    ensures lo <= hi && InWindow(vs, lo, hi)
    ensures (exists k :: 0 <= k < |vs| && StartOf(vs[k]) == lo) && exists k :: 0 <= k < |vs| && EndOf(vs[k]) == hi + 1
  {
    lo, hi := StartOf(vs[0]), EndOf(vs[0]) - 1;
    for k := 1 to |vs|
      invariant lo <= hi && InWindow(vs[..k], lo, hi)
      invariant (exists m :: 0 <= m < k && StartOf(vs[m]) == lo) && exists m :: 0 <= m < k && EndOf(vs[m]) == hi + 1
    {
      lo := Min(lo, StartOf(vs[k]));
      hi := if hi < EndOf(vs[k]) - 1 then EndOf(vs[k]) - 1 else hi;
      assert vs[..k + 1] == vs[..k] + [vs[k]];
    }
    assert vs[..|vs|] == vs;
  }

  /** What stage A leaves of the registers on one segment. */
  function Left(total: nat, used: nat): nat {
    total - Min(used, total)
  }

  /** Residual capacity of stage B. */
  ghost function Residual(total: nat, a: seq<VReg>, lo: nat, hi: nat): (r: seq<nat>)
    requires lo <= hi
    ensures |r| == hi - lo + 1 && forall i | 0 <= i < |r| :: r[i] == Left(total, Occ(a, lo + i))
  {
    seq<nat>(hi - lo + 1, i requires 0 <= i < hi - lo + 1 => Left(total, Occ(a, lo + i)))
  }

  function Constant(m: nat, c: nat): (r: seq<nat>)
    ensures |r| == m && forall i | 0 <= i < m :: r[i] == c
  {
    seq(m, _ => c)
  }

  /** The three lists of one class: stage A, stage A after the repair, stage B, on segments [lo, hi]. */
  datatype Stages = Stages(lo: nat, hi: nat, a: seq<VReg>, kept: seq<VReg>, b: seq<VReg>)

  /** Crossing ranges of the class that have an eligible bank at all. */
  function CrossingRanges(p: Problem, ci: nat): seq<VReg>
    requires ci < |p.classes|
  {
    if CountRegs(p.classes[ci], true) == 0 then [] else ClassRanges(p.vregs, ci, true)
  }

  /** How the ranges of one class were chosen: stage A is an exact optimum of the crossing ranges
      under the callee-saved capacity, stage B an exact optimum of the others under what is left,
      the repair adds just the crossing ranges that still had room when their turn came, and both banks'
      bounds hold everywhere. */
  ghost predicate Staged(p: Problem, ci: nat, st: Stages)
    requires ci < |p.classes|
  {
    var callee, total := CountRegs(p.classes[ci], true), CountRegs(p.classes[ci], false);
    var crossing, others := CrossingRanges(p, ci), ClassRanges(p.vregs, ci, false);
    && st.lo <= st.hi && InWindow(crossing, st.lo, st.hi) && InWindow(others, st.lo, st.hi)
    && ExactSelection(crossing, st.lo, Constant(st.hi - st.lo + 1, callee), st.a)
    && ExactSelection(others, st.lo, Residual(total, st.a, st.lo, st.hi), st.b)
    && st.a <= st.kept && (forall v | v in st.kept :: v in crossing) && (forall v | v in st.b :: v in others)
    && DistinctIds(st.kept) && DistinctIds(st.b)
    && WithinBanks(st.kept, st.b, callee, total) && Repaired(crossing, st.a, st.kept, st.b, callee, total)
  }

  /** The ranges of the class meet what the segment model takes for granted: none ends before it begins, and where
      one begins with a definition none begins with a use and ends at once. */
  ghost predicate ProperClass(p: Problem, ci: nat) {
    && (forall v | v in p.vregs && v.cls == ci :: v.first <= v.last)
    && (forall v, w | v in p.vregs && w in p.vregs && v.cls == w.cls == ci && !v.startsAtDef && w.startsAtDef && v.first == v.last ::
          w.first != v.first)
  }

  /** Selected ranges that cross no call all have registers, provided the class is proper; and no range outside
      the two selections has one. */
  ghost predicate Placed(p: Problem, ci: nat, regOf: map<int, nat>, st: Stages) {
    && (ProperClass(p, ci) ==> forall v | v in st.b :: v.id in regOf)
    && (forall v | v in p.vregs && v.cls == ci && v.id in regOf :: v in st.kept || v in st.b)
  }

  /** The ranges promoted are those the scan places, over the two selections by first position and id. */
  ghost predicate Scanned(p: Problem, ci: nat, regOf: map<int, nat>, st: Stages)
    requires ci < |p.classes|
  {
    forall v | v in p.vregs && v.cls == ci ::
      v.id in regOf <==> v.id in Scan(p.classes[ci], p.preferCalleeSaved, map[], SortBy(ScanBefore, st.kept + st.b)).regOf
  }

  /** The outcome of one class: nothing promoted for want of registers or ranges, or the staged selection placed. */
  ghost predicate ClassDone(p: Problem, ci: nat, regOf: map<int, nat>)
    requires ci < |p.classes|
  {
    if CountRegs(p.classes[ci], false) == 0 || CrossingRanges(p, ci) + ClassRanges(p.vregs, ci, false) == [] then
      forall v | v in p.vregs && v.cls == ci :: v.id !in regOf
    else
      exists st :: Staged(p, ci, st) && Placed(p, ci, regOf, st) && Scanned(p, ci, regOf, st)
  }

  /** Only ranges of classes below `bound` are promoted. */
  ghost predicate PromotedBelow(p: Problem, regOf: map<int, nat>, bound: nat) {
    forall id | id in regOf :: exists k :: 0 <= k < |p.vregs| && p.vregs[k].id == id && p.vregs[k].cls < bound
  }

  lemma StageABound(lo: nat, hi: nat, crossing: seq<VReg>, a: seq<VReg>, callee: nat, p: int)
    requires lo <= hi && InWindow(crossing, lo, hi) && DistinctIds(crossing)
    requires ExactSelection(crossing, lo, Constant(hi - lo + 1, callee), a)
    ensures Occ(a, p) <= callee
    ensures DistinctIds(a) && forall v | v in a :: v in crossing
  {
    SelectionFits(crossing, lo, hi, Constant(hi - lo + 1, callee), a, p);
  }

  lemma StageBBound(lo: nat, hi: nat, others: seq<VReg>, a: seq<VReg>, b: seq<VReg>, total: nat, p: int)
    requires lo <= hi && InWindow(others, lo, hi) && DistinctIds(others)
    requires ExactSelection(others, lo, Residual(total, a, lo, hi), b)
    requires Occ(a, p) <= total
    ensures Occ(a, p) + Occ(b, p) <= total
    ensures DistinctIds(b) && forall v | v in b :: v in others
  {
    SelectionFits(others, lo, hi, Residual(total, a, lo, hi), b, p);
    if lo <= p <= hi {
      assert Residual(total, a, lo, hi)[p - lo] == Left(total, Occ(a, lo + (p - lo)));
    }
  }

  /** The two selections respect both banks' bounds on every segment. */
  lemma StageBounds(lo: nat, hi: nat, crossing: seq<VReg>, others: seq<VReg>, a: seq<VReg>, b: seq<VReg>, callee: nat, total: nat)
    requires lo <= hi && InWindow(crossing, lo, hi) && InWindow(others, lo, hi) && callee <= total
    requires DistinctIds(crossing) && DistinctIds(others)
    requires ExactSelection(crossing, lo, Constant(hi - lo + 1, callee), a)
    requires ExactSelection(others, lo, Residual(total, a, lo, hi), b)
    ensures WithinBanks(a, b, callee, total)
    ensures DistinctIds(a) && DistinctIds(b) && (forall v | v in a :: v in crossing) && (forall v | v in b :: v in others)
  {
    hide ExactSelection, InWindow, DistinctIds, Occ;
    StageABound(lo, hi, crossing, a, callee, 0);
    StageBBound(lo, hi, others, a, b, total, 0);
    forall p ensures Occ(a, p) <= callee && Occ(a, p) + Occ(b, p) <= total {
      StageABound(lo, hi, crossing, a, callee, p);
      StageBBound(lo, hi, others, a, b, total, p);
    }
  }

  /** The list the scan runs over: the kept crossing ranges and the others, by first position. */
  lemma OrderedIsReady(kept: seq<VReg>, b: seq<VReg>, vregs: seq<VReg>, ci: nat, ordered: seq<VReg>)
    requires DistinctIds(vregs) && DistinctIds(kept) && DistinctIds(b)
    requires forall v | v in kept :: v in ClassRanges(vregs, ci, true)
    requires forall v | v in b :: v in ClassRanges(vregs, ci, false)
    requires ordered == SortBy(ScanBefore, kept + b)
    ensures ByFirst(ordered) && DistinctIds(ordered)
    ensures forall v :: v in ordered <==> v in kept || v in b
    ensures forall p :: Occ(ordered, p) == Occ(kept, p) + Occ(b, p)
  {
    SortedByFirst(kept + b);
    forall i, j | 0 <= i < |kept| && 0 <= j < |b| ensures kept[i].id != b[j].id {
      assert kept[i] in kept && b[j] in b;
      assert kept[i] in vregs && b[j] in vregs && kept[i] != b[j];
    }
    assert DistinctIds(kept + b);
    forall p ensures Occ(ordered, p) == Occ(kept, p) + Occ(b, p) {
      OccConcat(kept, b, p);
    }
  }

  lemma ScannedPairIsCompatible(p: Problem, ci: nat, regOf: map<int, nat>, ordered: seq<VReg>, i: nat, j: nat)
    requires WellFormed(p) && i < |p.vregs| && j < |p.vregs| && i != j && Sequential(regOf, ordered)
    requires p.vregs[i] in ordered && p.vregs[j] in ordered && SameRegister(p, regOf, i, j)
    ensures Compatible(p.vregs[i], p.vregs[j])
  {
    var x: nat :| x < |ordered| && ordered[x] == p.vregs[i];
    var y: nat :| y < |ordered| && ordered[y] == p.vregs[j];
    var r := regOf[p.vregs[i].id];
    assert On(regOf, ordered, x, r) && On(regOf, ordered, y, r);
    ApartIsCompatible(p.vregs[i], p.vregs[j]);
  }

  /** The scan of one class extends a sound assignment soundly. */
  lemma ScanIsSound(p: Problem, ci: nat, regOf: map<int, nat>, ordered: seq<VReg>)
    requires WellFormed(p) && Sound(p, regOf) && ci < |p.classes| && PromotedBelow(p, regOf, ci)
    requires ByFirst(ordered) && DistinctIds(ordered)
    requires forall v | v in ordered :: v in p.vregs && v.cls == ci
    ensures Sound(p, Scan(p.classes[ci], p.preferCalleeSaved, regOf, ordered).regOf)
    ensures PromotedBelow(p, Scan(p.classes[ci], p.preferCalleeSaved, regOf, ordered).regOf, ci + 1)
  {
    hide GensInside, DistinctRegs, Compatible, EligibleFor, AllSlotsOk, Scan;
    var banks := p.classes[ci];
    var after := Scan(banks, p.preferCalleeSaved, regOf, ordered).regOf;
    NoneScannedYet(p, ci, regOf, ordered);
    ScanKeeps(banks, p.preferCalleeSaved, regOf, ordered);
    assert PromotedBelow(p, after, ci + 1) by {
      ScanIds(banks, p.preferCalleeSaved, regOf, ordered);
    }
    forall k | 0 <= k < |p.vregs| ensures WellPlaced(p, after, p.vregs[k]) {
      ScannedOrBefore(p, ci, regOf, ordered, k);
      assert WellPlaced(p, regOf, p.vregs[k]);
    }
    forall i: nat, j: nat | i < j < |p.vregs| && SameRegister(p, after, i, j)
      ensures Compatible(p.vregs[i], p.vregs[j])
    {
      ScannedOrBefore(p, ci, regOf, ordered, i);
      ScannedOrBefore(p, ci, regOf, ordered, j);
      if p.vregs[i].cls == ci {
        ScannedPairIsCompatible(p, ci, after, ordered, i, j);
      } else {
        assert SameRegister(p, regOf, i, j);
      }
    }
  }

  lemma NoneScannedYet(p: Problem, ci: nat, regOf: map<int, nat>, ordered: seq<VReg>)
    requires DistinctIds(p.vregs) && PromotedBelow(p, regOf, ci)
    requires forall v | v in ordered :: v in p.vregs && v.cls == ci
    ensures forall i | 0 <= i < |ordered| :: ordered[i].id !in regOf
  {
    forall i | 0 <= i < |ordered| ensures ordered[i].id !in regOf {
      assert ordered[i] in ordered;
    }
  }

  /** After the scan, a promoted range of the class was scanned; the rest of the assignment is as before. */
  lemma ScannedOrBefore(p: Problem, ci: nat, regOf: map<int, nat>, ordered: seq<VReg>, k: nat)
    requires DistinctIds(p.vregs) && ci < |p.classes| && PromotedBelow(p, regOf, ci) && k < |p.vregs|
    requires forall v | v in ordered :: v in p.vregs && v.cls == ci
    ensures var after := Scan(p.classes[ci], p.preferCalleeSaved, regOf, ordered).regOf;
            var v := p.vregs[k];
            && (v.cls == ci && v.id in after ==> v in ordered)
            && (v.cls != ci ==> (v.id in after <==> v.id in regOf) && (v.id in regOf ==> after[v.id] == regOf[v.id]))
  {
    var v := p.vregs[k];
    ScanIds(p.classes[ci], p.preferCalleeSaved, regOf, ordered);
    forall i | 0 <= i < |ordered| && ordered[i].id == v.id ensures ordered[i] == v {
      assert ordered[i] in ordered;
    }
  }

  /** The bounds of both stages leave every selected range that crosses no call uncrowded. */
  lemma OthersUncrowded(p: Problem, ci: nat, st: Stages, ordered: seq<VReg>)
    requires ci < |p.classes| && Staged(p, ci, st)
    requires forall q :: Occ(ordered, q) == Occ(st.kept, q) + Occ(st.b, q)
    ensures forall v | v in st.b :: Uncrowded(p.classes[ci], ordered, v)
  {
    hide Occ, CountRegs, ExactSelection;
    forall v | v in st.b ensures Uncrowded(p.classes[ci], ordered, v) {
      forall q | 0 <= q ensures Occ(ordered, q) <= CountRegs(p.classes[ci], v.crossesCall) {
        assert Occ(ordered, q) == Occ(st.kept, q) + Occ(st.b, q);
      }
    }
  }

  lemma OrderedOfClass(p: Problem, ci: nat, st: Stages, ordered: seq<VReg>)
    requires ci < |p.classes| && Staged(p, ci, st)
    requires forall v :: v in ordered <==> v in st.kept || v in st.b
    ensures forall v | v in ordered :: v in p.vregs && v.cls == ci
  {
  }

  /** Whatever the scan promotes was selected. */
  lemma OnlySelectedArePromoted(p: Problem, ci: nat, regOf: map<int, nat>, ordered: seq<VReg>)
    requires DistinctIds(p.vregs) && ci < |p.classes| && PromotedBelow(p, regOf, ci)
    requires forall v | v in ordered :: v in p.vregs && v.cls == ci
    ensures forall v | v in p.vregs && v.cls == ci && v.id in Scan(p.classes[ci], p.preferCalleeSaved, regOf, ordered).regOf :: v in ordered
  {
    hide Scan, DistinctIds, PromotedBelow;
    var after := Scan(p.classes[ci], p.preferCalleeSaved, regOf, ordered).regOf;
    forall v | v in p.vregs && v.cls == ci && v.id in after ensures v in ordered {
      var k :| 0 <= k < |p.vregs| && p.vregs[k] == v;
      ScannedOrBefore(p, ci, regOf, ordered, k);
    }
  }

  lemma OrderedProper(p: Problem, ci: nat, ordered: seq<VReg>)
    requires forall v | v in ordered :: v in p.vregs && v.cls == ci
    requires ProperClass(p, ci)
    ensures ProperHulls(ordered)
  {
    assert forall i | 0 <= i < |ordered| :: ordered[i] in ordered;
  }

  /** A range crossing no call that was selected is placed by the scan. */
  lemma SelectedArePlaced(p: Problem, ci: nat, regOf: map<int, nat>, st: Stages, ordered: seq<VReg>)
    requires WellFormed(p) && ci < |p.classes| && PromotedBelow(p, regOf, ci) && Staged(p, ci, st)
    requires ByFirst(ordered) && DistinctIds(ordered)
    requires forall v :: v in ordered <==> v in st.kept || v in st.b
    requires forall q :: Occ(ordered, q) == Occ(st.kept, q) + Occ(st.b, q)
    ensures Placed(p, ci, Scan(p.classes[ci], p.preferCalleeSaved, regOf, ordered).regOf, st)
  {
    var banks := p.classes[ci];
    assert DistinctIds(p.vregs) && DistinctRegs(banks);
    hide Scan, Occ, Staged, Uncrowded, ByFirst, DistinctIds, DistinctRegs, WellFormed, PromotedBelow, ProperHulls, ProperClass;
    OrderedOfClass(p, ci, st, ordered);
    OnlySelectedArePromoted(p, ci, regOf, ordered);
    if ProperClass(p, ci) {
      NoneScannedYet(p, ci, regOf, ordered);
      OrderedProper(p, ci, ordered);
      OthersUncrowded(p, ci, st, ordered);
      UncrowdedArePlaced(banks, p.preferCalleeSaved, regOf, ordered, st.b);
    }
  }

  lemma UncrowdedArePlaced(banks: seq<Bank>, preferCallee: bool, regOf: map<int, nat>, ordered: seq<VReg>, b: seq<VReg>)
    requires DistinctRegs(banks) && DistinctIds(ordered) && ByFirst(ordered) && ProperHulls(ordered)
    requires forall i | 0 <= i < |ordered| :: ordered[i].id !in regOf
    requires forall v | v in b :: v in ordered && Uncrowded(banks, ordered, v)
    ensures forall v | v in b :: v.id in Scan(banks, preferCallee, regOf, ordered).regOf
  {
    hide Scan, Uncrowded;
    UncrowdedScanPlaces(banks, preferCallee, regOf, ordered);
    forall v | v in b ensures v.id in Scan(banks, preferCallee, regOf, ordered).regOf {
      var i :| 0 <= i < |ordered| && ordered[i] == v;
    }
  }

  /** Stage B's capacities, from the profile of stage A. */
  method ResidualCaps(a: seq<VReg>, lo: nat, hi: nat, total: nat) returns (caps: seq<nat>)
    requires lo <= hi
    ensures caps == Residual(total, a, lo, hi)
  {
    var xp := Occupancy(a, lo, hi);
    caps := [];
    for i := 0 to hi - lo + 1
      invariant |caps| == i && forall j | 0 <= j < i :: caps[j] == Left(total, Occ(a, lo + j))
    {
      assert xp[(lo + i) - lo] == Occ(a, lo + i);
      caps := caps + [Left(total, xp[i])];
    }
  }

  /** Both exact stages and the repair for one class. */
  method SelectClass(p: Problem, ci: nat) returns (st: Stages)
    requires WellFormed(p) && ci < |p.classes|
    requires CrossingRanges(p, ci) + ClassRanges(p.vregs, ci, false) != []
    ensures Staged(p, ci, st)
  {
    hide ExactSelection, InWindow, Occ, DistinctRegs, GensInside;
    var banks := p.classes[ci];
    var total, callee := CountRegs(banks, false), CountRegs(banks, true);
    var crossing, others := CrossingRanges(p, ci), ClassRanges(p.vregs, ci, false);
    CalleeSavedAreSome(banks);
    ClassRangesDistinct(p.vregs, ci, true);
    ClassRangesDistinct(p.vregs, ci, false);
    var lo, hi := Window(crossing + others);
    WindowOfBoth(crossing, others, lo, hi);
    StartsInWindow(crossing, lo, hi);
    StartsInWindow(others, lo, hi);
    var a := SelectRanges(crossing, lo, Constant(hi - lo + 1, callee));
    var caps := ResidualCaps(a, lo, hi, total);
    var b := SelectRanges(others, lo, caps);
    StageBounds(lo, hi, crossing, others, a, b, callee, total);
    var kept := Repair(crossing, a, b, lo, hi, callee, total);
    st := Stages(lo, hi, a, kept, b);
  }

  lemma StartsInWindow(vs: seq<VReg>, lo: nat, hi: nat)
    requires InWindow(vs, lo, hi)
    ensures forall k | 0 <= k < |vs| :: lo <= StartOf(vs[k])
  {
  }

  lemma NoneOfClassYet(p: Problem, ci: nat, regOf: map<int, nat>)
    requires DistinctIds(p.vregs) && PromotedBelow(p, regOf, ci)
    ensures forall v | v in p.vregs && v.cls == ci :: v.id !in regOf
    ensures PromotedBelow(p, regOf, ci + 1)
  {
  }

  lemma OtherClassesKeep(p: Problem, ci: nat, regOf: map<int, nat>, ordered: seq<VReg>)
    requires DistinctIds(p.vregs) && ci < |p.classes| && PromotedBelow(p, regOf, ci)
    requires forall v | v in ordered :: v in p.vregs && v.cls == ci
    ensures forall v | v in p.vregs && v.cls != ci ::
              v.id in Scan(p.classes[ci], p.preferCalleeSaved, regOf, ordered).regOf <==> v.id in regOf
  {
    forall v | v in p.vregs && v.cls != ci
      ensures v.id in Scan(p.classes[ci], p.preferCalleeSaved, regOf, ordered).regOf <==> v.id in regOf
    {
      var k :| 0 <= k < |p.vregs| && p.vregs[k] == v;
      ScannedOrBefore(p, ci, regOf, ordered, k);
    }
  }

  /** Both stages, the repair and the scan for one class. */
  method AllocateClass(p: Problem, ci: nat, regOf: map<int, nat>) returns (regOf': map<int, nat>)
    requires WellFormed(p) && Sound(p, regOf) && ci < |p.classes| && PromotedBelow(p, regOf, ci)
    ensures Sound(p, regOf') && PromotedBelow(p, regOf', ci + 1) && ClassDone(p, ci, regOf')
    ensures forall v | v in p.vregs && v.cls != ci :: v.id in regOf' <==> v.id in regOf
  {
    hide Sound, ByFirst, ExactSelection, InWindow, WithinBanks, Placed, PromotedBelow, Scan, Occ, DistinctIds;
    if CountRegs(p.classes[ci], false) == 0 || CrossingRanges(p, ci) + ClassRanges(p.vregs, ci, false) == [] {
      NoneOfClassYet(p, ci, regOf);
      return regOf;
    }
    var st := SelectClass(p, ci);
    var ordered := SortBy(ScanBefore, st.kept + st.b);
    OrderedIsReady(st.kept, st.b, p.vregs, ci, ordered);
    var board := AssignRegisters(p.classes[ci], p.preferCalleeSaved, regOf, ordered);
    ScanIsSound(p, ci, regOf, ordered);
    SelectedArePlaced(p, ci, regOf, st, ordered);
    AsScanned(p, ci, regOf, st);
    hide Scanned;
    OtherClassesKeep(p, ci, regOf, ordered);
    return board.regOf;
  }

  lemma AsScanned(p: Problem, ci: nat, regOf: map<int, nat>, st: Stages)
    requires WellFormed(p) && ci < |p.classes| && PromotedBelow(p, regOf, ci)
    ensures Scanned(p, ci, Scan(p.classes[ci], p.preferCalleeSaved, regOf, SortBy(ScanBefore, st.kept + st.b)).regOf, st)
  {
    NoneOfClassYet(p, ci, regOf);
    hide Scan, SortBy, WellFormed, PromotedBelow;
    ScanAlike(p.classes[ci], p.preferCalleeSaved, regOf, SortBy(ScanBefore, st.kept + st.b));
  }

  lemma WindowOfBoth(a: seq<VReg>, b: seq<VReg>, lo: nat, hi: nat)
    requires InWindow(a + b, lo, hi)
    ensures InWindow(a, lo, hi) && InWindow(b, lo, hi)
  {
    assert forall k | 0 <= k < |a| :: (a + b)[k] == a[k];
    assert forall k | 0 <= k < |b| :: (a + b)[|a| + k] == b[k];
  }

  /** An assignment, in problem order, with the allocator's counters. */
  datatype Assignment = Assignment(id: int, reg: nat, promoted: bool)
  datatype Solution = Solution(vregs: seq<Assignment>, promotedCount: nat, spilledCount: nat, coalescedMoves: nat)

  function CountPromoted(out: seq<Assignment>): nat {
    if out == [] then 0 else CountPromoted(out[..|out| - 1]) + if out[|out| - 1].promoted then 1 else 0
  }

  /** The assignment a solution stands for. */
  ghost predicate Reports(p: Problem, sol: Solution, regOf: map<int, nat>) {
    && |sol.vregs| == |p.vregs|
    && forall k | 0 <= k < |p.vregs| ::
         && sol.vregs[k].id == p.vregs[k].id
         && (sol.vregs[k].promoted <==> p.vregs[k].id in regOf)
         && (sol.vregs[k].promoted ==> sol.vregs[k].reg == regOf[p.vregs[k].id])
  }

  /** Every class was done, then moves were coalesced in rounds, `coalesced` of them, as long as any could be and
      at most six rounds long. */
  ghost predicate Outcome(p: Problem, start: map<int, nat>, regOf: map<int, nat>, coalesced: nat, rounds: nat) {
    && Sound(p, start) && (regOf, coalesced) == RoundsOf(p, start, rounds) && rounds <= 6 && (rounds < 6 ==> Settled(p, regOf))
    && forall ci: nat | ci < |p.classes| :: ClassDone(p, ci, start) && ClassDone(p, ci, regOf)
  }

  /** The allocator: every class in turn, then coalescing. */
  method RallocHybrid(p: Problem) returns (sol: Solution, ghost rounds: nat)
    requires WellFormed(p)
    ensures exists start, regOf :: Reports(p, sol, regOf) && Sound(p, regOf) && Outcome(p, start, regOf, sol.coalescedMoves, rounds)
    ensures sol.promotedCount == CountPromoted(sol.vregs) && sol.spilledCount == |p.vregs| - CountPromoted(sol.vregs)
  {
    hide Sound, ClassDone, PromotedBelow, WellFormed, Settled, RoundsOf;
    var regOf: map<int, nat> := map[];
    assert Sound(p, regOf) && PromotedBelow(p, regOf, 0) by {
      NothingPromoted(p);
    }
    for ci := 0 to |p.classes|
      invariant Sound(p, regOf) && PromotedBelow(p, regOf, ci)
      invariant forall c: nat | c < ci :: ClassDone(p, c, regOf)
    {
      var next := AllocateClass(p, ci, regOf);
      forall c: nat | c < ci ensures ClassDone(p, c, next) {
        SamePromotions(p, c, regOf, next);
      }
      regOf := next;
    }
    var coloured, coalesced, n := Coalesce(p, regOf);
    rounds := n;
    forall c: nat | c < |p.classes| ensures ClassDone(p, c, coloured) {
      SamePromotions(p, c, regOf, coloured);
    }
    var out: seq<Assignment> := [];
    var promoted, spilled := 0, 0;
    for k := 0 to |p.vregs|
      invariant |out| == k && promoted == CountPromoted(out) && spilled == k - promoted
      invariant forall i | 0 <= i < k ::
                  && out[i].id == p.vregs[i].id
                  && (out[i].promoted <==> p.vregs[i].id in coloured)
                  && (out[i].promoted ==> out[i].reg == coloured[p.vregs[i].id])
    {
      var id := p.vregs[k].id;
      if id in coloured {
        out, promoted := out + [Assignment(id, coloured[id], true)], promoted + 1;
      } else {
        out, spilled := out + [Assignment(id, 0, false)], spilled + 1;
      }
    }
    sol := Solution(out, promoted, spilled, coalesced);
    assert Reports(p, sol, coloured) && Outcome(p, regOf, coloured, coalesced, rounds);
  }

  lemma NothingPromoted(p: Problem)
    ensures Sound(p, map[]) && PromotedBelow(p, map[], 0)
  {
  }

  /** A class's outcome depends only on which of its ranges are promoted. */
  lemma SamePromotions(p: Problem, ci: nat, regOf: map<int, nat>, regOf': map<int, nat>)
    requires ci < |p.classes| && ClassDone(p, ci, regOf)
    requires forall v | v in p.vregs && v.cls == ci :: v.id in regOf' <==> v.id in regOf
    ensures ClassDone(p, ci, regOf')
  {
    if !(CountRegs(p.classes[ci], false) == 0 || CrossingRanges(p, ci) + ClassRanges(p.vregs, ci, false) == []) {
      var st :| Staged(p, ci, st) && Placed(p, ci, regOf, st) && Scanned(p, ci, regOf, st);
      assert Placed(p, ci, regOf', st) && Scanned(p, ci, regOf', st);
    }
  }
}
