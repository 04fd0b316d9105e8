/** Register assignment: interval greedy over register banks, then move coalescing.
    The problem, the assignment rules as functions, and what every run of them keeps. */
module Ralloc {
  import opened Options

  // ---------------------------------------------------------------------
  // the problem
  // ---------------------------------------------------------------------

  /** One live sub-interval, both ends included. */
  datatype Gen = Gen(start: nat, end: nat)

  /** A live range: hull [first, last], exact sub-intervals in `gens` (empty: the hull itself). */
  datatype VReg = VReg(id: int, cls: nat, weight: nat, crossesCall: bool,
                       first: nat, last: nat, startsAtDef: bool, gens: seq<Gen>)

  datatype Bank = Bank(regs: seq<nat>, calleeSaved: bool)

  datatype Move = Move(a: int, b: int)

  datatype Problem = Problem(vregs: seq<VReg>, moves: seq<Move>, classes: seq<seq<Bank>>, preferCalleeSaved: bool)

  /** Registers of the class; with `calleeOnly`, those of its callee-saved banks. */
  function CountRegs(banks: seq<Bank>, calleeOnly: bool): nat {
    if banks == [] then 0
    else CountRegs(banks[..|banks| - 1], calleeOnly)
         + if !calleeOnly || banks[|banks| - 1].calleeSaved then |banks[|banks| - 1].regs| else 0
  }

  /** Segments a range occupies: a range that starts with a use also occupies the segment before it. */
  function StartOf(v: VReg): nat {
    if v.startsAtDef then v.first else if v.first > 0 then v.first - 1 else 0
  }

  function EndOf(v: VReg): nat {
    if v.last > StartOf(v) then v.last else StartOf(v) + 1
  }

  predicate Occupies(v: VReg, p: int) {
    StartOf(v) <= p < EndOf(v)
  }

  /** How many ranges of the list occupy segment p. */
  ghost function Occ(vs: seq<VReg>, p: int): nat {
    if vs == [] then 0
    else Occ(vs[..|vs| - 1], p) + if Occupies(vs[|vs| - 1], p) then 1 else 0
  }

  /** The segments between two positions of a range are the ones it occupies; a range that begins with a use occupies
      the one before as well, if there is one, and a range of no length the one behind, if it begins with a
      definition or there is none before. */
  lemma SegmentsOf(v: VReg, q: int)
    requires v.first <= v.last
    ensures Occupies(v, q) <==>
            || v.first <= q < v.last
            || (!v.startsAtDef && v.first > 0 && q == v.first - 1)
            || (v.first == v.last && (v.startsAtDef || v.first == 0) && q == v.first)
  {
  }

  /** w begins where v has ended, or with a definition exactly where v ends: their lives do not overlap. */
  predicate Follows(v: VReg, w: VReg) {
    v.last < w.first || (v.last == w.first && w.startsAtDef)
  }

  /** Ranges with a length share a segment exactly when neither follows the other; the rule by which the scan hands
      registers over. */
  lemma ShareUnlessFollowing(v: VReg, w: VReg)
    requires v.first < v.last && w.first < w.last && v.first <= w.first
    ensures (exists q :: Occupies(v, q) && Occupies(w, q)) <==> !Follows(v, w)
  {
    if !Follows(v, w) {
      var q := if w.startsAtDef || v.first == w.first then w.first else w.first - 1;
      assert Occupies(v, q) && Occupies(w, q);
    }
  }

  /** Where one of them has no length, they share a segment exactly when it stands inside the other, at the other's
      beginning alike, or at its end if it begins with a use; and two of no length do at one position if they begin
      alike, or at neighbouring ones if the later begins with a use and the earlier with a definition. */
  lemma PointShares(v: VReg, w: VReg)
    requires v.first == v.last && v.first > 0 && w.first <= w.last && w.first > 0
    ensures (exists q :: Occupies(v, q) && Occupies(w, q)) <==>
            if w.first == w.last then
              (v.startsAtDef == w.startsAtDef && v.first == w.first)
              || (v.startsAtDef && !w.startsAtDef && v.first + 1 == w.first) || (w.startsAtDef && !v.startsAtDef && w.first + 1 == v.first)
            else if v.startsAtDef then
              w.first <= v.first < w.last || (!w.startsAtDef && v.first + 1 == w.first)
            else
              w.first < v.first <= w.last || (!w.startsAtDef && v.first == w.first)
  {
    var q := if v.startsAtDef then v.first else v.first - 1;
    assert forall p | Occupies(v, p) :: p == q;
    assert Occupies(v, q);
  }

  // ---------------------------------------------------------------------
  // greedy assignment
  // ---------------------------------------------------------------------

  /** One register of a bank and the range that holds it. */
  datatype RegUse = RegUse(reg: nat, last: nat, active: bool)

  type Slots = seq<seq<RegUse>>

  /** Registers and the ids promoted to them so far. */
  datatype Board = Board(slots: Slots, regOf: map<int, nat>)

  function FreshSlots(banks: seq<Bank>): (r: Slots)
    ensures |r| == |banks|
    ensures forall b | 0 <= b < |r| :: |r[b]| == |banks[b].regs|
    ensures forall b, j | 0 <= b < |r| && 0 <= j < |r[b]| :: r[b][j] == RegUse(banks[b].regs[j], 0, false)
  {
    seq(|banks|, b requires 0 <= b < |banks| =>
      seq(|banks[b].regs|, j requires 0 <= j < |banks[b].regs| => RegUse(banks[b].regs[j], 0, false)))
  }

  /** A holder gives its register up when it ended before v begins, or ends exactly where a
      range that starts with a definition begins. */
  predicate Expires(u: RegUse, v: VReg) {
    u.active && (u.last < v.first || (u.last == v.first && v.startsAtDef))
  }

  function ExpireOne(u: RegUse, v: VReg): RegUse {
    if Expires(u, v) then u.(active := false) else u
  }

  function Expire(slots: Slots, v: VReg): (r: Slots)
    ensures |r| == |slots|
    ensures forall b | 0 <= b < |r| :: |r[b]| == |slots[b]|
    ensures forall b, j | 0 <= b < |r| && 0 <= j < |r[b]| :: r[b][j] == ExpireOne(slots[b][j], v)
  {
    seq(|slots|, b requires 0 <= b < |slots| =>
      seq(|slots[b]|, j requires 0 <= j < |slots[b]| => ExpireOne(slots[b][j], v)))
  }

  /** Index of the first register of the bank nobody holds; the bank's size when there is none. */
  function FirstFree(bank: seq<RegUse>): (j: nat)
    ensures j <= |bank|
    ensures j < |bank| ==> !bank[j].active
    ensures forall i | 0 <= i < j :: bank[i].active
  {
    if bank == [] || !bank[0].active then 0 else 1 + FirstFree(bank[1..])
  }

  /** First bank of the list with a free register. */
  function FindSlot(slots: Slots, order: seq<nat>): (r: Option<(nat, nat)>)
    ensures r.Some? ==> r.value.0 in order && r.value.0 < |slots| && r.value.1 < |slots[r.value.0]|
                        && !slots[r.value.0][r.value.1].active
    ensures r.None? ==> forall b, j | b in order && b < |slots| && 0 <= j < |slots[b]| :: slots[b][j].active
  {
    if order == [] then None
    else if order[0] < |slots| && FirstFree(slots[order[0]]) < |slots[order[0]]| then
      Some((order[0], FirstFree(slots[order[0]])))
    else FindSlot(slots, order[1..])
  }

  /** Bank indices [0, m) that do, or do not, save their registers across calls. */
  function BanksWhere(banks: seq<Bank>, m: nat, callee: bool): (r: seq<nat>)
    requires m <= |banks|
    ensures forall b :: b in r <==> 0 <= b < m && banks[b].calleeSaved == callee
  {
    if m == 0 then [] else BanksWhere(banks, m - 1, callee) + if banks[m - 1].calleeSaved == callee then [m - 1] else []
  }

  function Natural(m: nat): (r: seq<nat>)
    ensures |r| == m && forall b | 0 <= b < m :: r[b] == b && b in r
  {
    if m == 0 then [] else Natural(m - 1) + [m - 1]
  }

  /** Banks in the order a range tries them: callee-saved only for ranges that cross a call;
      otherwise all, the callee-saved ones moved to the front under the size-biased profile. */
  function BankOrder(banks: seq<Bank>, preferCallee: bool, v: VReg): (r: seq<nat>)
    ensures forall b | b in r :: b < |banks| && (v.crossesCall ==> banks[b].calleeSaved)
    ensures !v.crossesCall ==> forall b | 0 <= b < |banks| :: b in r
  {
    if v.crossesCall then BanksWhere(banks, |banks|, true)
    else if preferCallee then
      var callee, rest := BanksWhere(banks, |banks|, true), BanksWhere(banks, |banks|, false);
      assert forall b | 0 <= b < |banks| :: b in callee || b in rest;
      callee + rest
    else
      Natural(|banks|)
  }

  function Hold(slots: Slots, b: nat, j: nat, v: VReg): (r: Slots)
    requires b < |slots| && j < |slots[b]|
  {
    slots[b := slots[b][j := slots[b][j].(last := v.last, active := true)]]
  }

  /** One step of the greedy scan: expire, then take the first eligible free register, if any. */
  function Step(banks: seq<Bank>, preferCallee: bool, board: Board, v: VReg): Board {
    var slots := Expire(board.slots, v);
    match FindSlot(slots, BankOrder(banks, preferCallee, v))
    case None => Board(slots, board.regOf)
    case Some((b, j)) => Board(Hold(slots, b, j, v), board.regOf[v.id := slots[b][j].reg])
  }

  /** The greedy scan of a list of ranges from an empty board. */
  function Scan(banks: seq<Bank>, preferCallee: bool, start: map<int, nat>, vs: seq<VReg>): Board {
    if vs == [] then Board(FreshSlots(banks), start)
    else Step(banks, preferCallee, Scan(banks, preferCallee, start, vs[..|vs| - 1]), vs[|vs| - 1])
  }

  // ---------------------------------------------------------------------
  // what the scan keeps
  // ---------------------------------------------------------------------

  ghost predicate DistinctIds(vs: seq<VReg>) {
    forall i, j | 0 <= i < j < |vs| :: vs[i].id != vs[j].id
  }

  /** The scan order: by first position. */
  ghost predicate ByFirst(vs: seq<VReg>) {
    forall i, j | 0 <= i < j < |vs| :: vs[i].first <= vs[j].first
  }

  ghost predicate DistinctRegs(banks: seq<Bank>) {
    forall b, j, b', j' | 0 <= b < |banks| && 0 <= j < |banks[b].regs| && 0 <= b' < |banks| && 0 <= j' < |banks[b'].regs|
      && banks[b].regs[j] == banks[b'].regs[j'] :: b == b' && j == j'
  }

  ghost predicate Shaped(banks: seq<Bank>, slots: Slots) {
    && |slots| == |banks|
    && (forall b | 0 <= b < |slots| :: |slots[b]| == |banks[b].regs|)
    && (forall b, j | 0 <= b < |slots| && 0 <= j < |slots[b]| :: slots[b][j].reg == banks[b].regs[j])
  }

  /** Range i of the list was given register r. */
  ghost predicate On(regOf: map<int, nat>, vs: seq<VReg>, i: nat, r: nat)
    requires i < |vs|
  {
    vs[i].id in regOf && regOf[vs[i].id] == r
  }

  /** The scan's invariant for one register: a held register has a holder that comes after all
      its other ranges; a free one has only ranges that ended by the current position `now`. */
  ghost predicate SlotOk(regOf: map<int, nat>, vs: seq<VReg>, u: RegUse, now: nat) {
    if u.active then
      exists h :: 0 <= h < |vs| && Holder(regOf, vs, u, h)
    else
      forall i | 0 <= i < |vs| && On(regOf, vs, i, u.reg) :: vs[i].last <= now
  }

  ghost predicate Holder(regOf: map<int, nat>, vs: seq<VReg>, u: RegUse, h: nat)
    requires h < |vs|
  {
    && On(regOf, vs, h, u.reg) && vs[h].last == u.last
    && forall i | 0 <= i < |vs| && i != h && On(regOf, vs, i, u.reg) :: vs[i].last <= vs[h].first
  }

  ghost predicate AllSlotsOk(slots: Slots, regOf: map<int, nat>, vs: seq<VReg>, now: nat) {
    forall b, j | 0 <= b < |slots| && 0 <= j < |slots[b]| :: SlotOk(regOf, vs, slots[b][j], now)
  }

  /** Ranges on one register follow one another: the earlier ends no later than the later begins. */
  ghost predicate Sequential(regOf: map<int, nat>, vs: seq<VReg>) {
    forall i: nat, j: nat, r: nat | i < j < |vs| && On(regOf, vs, i, r) && On(regOf, vs, j, r) :: vs[i].last <= vs[j].first
  }

  /** Register r may hold v: it is in a bank of the class, a callee-saved one if v crosses a call. */
  ghost predicate EligibleFor(banks: seq<Bank>, r: nat, v: VReg) {
    exists b, j :: 0 <= b < |banks| && 0 <= j < |banks[b].regs| && banks[b].regs[j] == r
                   && (v.crossesCall ==> banks[b].calleeSaved)
  }

  ghost predicate AllEligible(banks: seq<Bank>, regOf: map<int, nat>, vs: seq<VReg>) {
    forall i | 0 <= i < |vs| && vs[i].id in regOf :: EligibleFor(banks, regOf[vs[i].id], vs[i])
  }

  ghost predicate ScanInv(banks: seq<Bank>, board: Board, vs: seq<VReg>, now: nat) {
    && Shaped(banks, board.slots)
    && AllSlotsOk(board.slots, board.regOf, vs, now)
    && Sequential(board.regOf, vs)
    && AllEligible(banks, board.regOf, vs)
  }

  lemma ExpireKeepsSlot(regOf: map<int, nat>, vs: seq<VReg>, now: nat, v: VReg, u: RegUse)
    requires SlotOk(regOf, vs, u, now) && now <= v.first
    requires forall i | 0 <= i < |vs| :: vs[i].first <= v.first
    ensures SlotOk(regOf, vs, ExpireOne(u, v), v.first)
  {
    if u.active {
      var h :| 0 <= h < |vs| && Holder(regOf, vs, u, h);
      if Expires(u, v) {
        forall i | 0 <= i < |vs| && On(regOf, vs, i, u.reg) ensures vs[i].last <= v.first {
        }
      }
    }
  }

  lemma ExpireKeeps(banks: seq<Bank>, board: Board, vs: seq<VReg>, now: nat, v: VReg)
    requires ScanInv(banks, board, vs, now) && now <= v.first
    requires forall i | 0 <= i < |vs| :: vs[i].first <= v.first
    ensures ScanInv(banks, Board(Expire(board.slots, v), board.regOf), vs, v.first)
  {
    var slots := Expire(board.slots, v);
    forall b, j | 0 <= b < |slots| && 0 <= j < |slots[b]|
      ensures SlotOk(board.regOf, vs, slots[b][j], v.first)
    {
      ExpireKeepsSlot(board.regOf, vs, now, v, board.slots[b][j]);
    }
  }

  /** regOf' agrees with regOf on the ranges of vs and gives v nothing but register r, if that. */
  ghost predicate Extends(regOf: map<int, nat>, regOf': map<int, nat>, vs: seq<VReg>, v: VReg) {
    forall i: nat, q: nat | i < |vs| :: On(regOf', vs + [v], i, q) <==> On(regOf, vs, i, q)
  }

  /** Appending a range that is not on this register leaves the register's invariant alone. */
  lemma AppendElsewhere(regOf: map<int, nat>, regOf': map<int, nat>, vs: seq<VReg>, v: VReg, u: RegUse, now: nat)
    requires SlotOk(regOf, vs, u, now) && Extends(regOf, regOf', vs, v)
    requires !On(regOf', vs + [v], |vs|, u.reg)
    ensures SlotOk(regOf', vs + [v], u, now)
  {
    if u.active {
      var h :| 0 <= h < |vs| && Holder(regOf, vs, u, h);
      assert Holder(regOf', vs + [v], u, h);
    }
  }

  lemma PlaceKeepsSlots(banks: seq<Bank>, board: Board, vs: seq<VReg>, v: VReg, b: nat, j: nat)
    requires Shaped(banks, board.slots) && AllSlotsOk(board.slots, board.regOf, vs, v.first) && DistinctRegs(banks)
    requires b < |board.slots| && j < |board.slots[b]| && !board.slots[b][j].active
    requires v.id !in board.regOf && forall i | 0 <= i < |vs| :: vs[i].id != v.id
    ensures AllSlotsOk(Hold(board.slots, b, j, v), board.regOf[v.id := board.slots[b][j].reg], vs + [v], v.first)
  {
    var r := board.slots[b][j].reg;
    var slots, regOf' := Hold(board.slots, b, j, v), board.regOf[v.id := r];
    assert SlotOk(board.regOf, vs, board.slots[b][j], v.first);
    assert Extends(board.regOf, regOf', vs, v);
    forall b', j' | 0 <= b' < |slots| && 0 <= j' < |slots[b']|
      ensures SlotOk(regOf', vs + [v], slots[b'][j'], v.first)
    {
      if b' == b && j' == j {
        assert Holder(regOf', vs + [v], slots[b][j], |vs|);
      } else {
        assert slots[b'][j'] == board.slots[b'][j'];
        assert banks[b'].regs[j'] != banks[b].regs[j];
        AppendElsewhere(board.regOf, regOf', vs, v, board.slots[b'][j'], v.first);
      }
    }
  }

  /** Putting v on a free register keeps the invariant. */
  lemma PlaceKeeps(banks: seq<Bank>, board: Board, vs: seq<VReg>, v: VReg, b: nat, j: nat)
    requires ScanInv(banks, board, vs, v.first) && DistinctRegs(banks)
    requires b < |board.slots| && j < |board.slots[b]| && !board.slots[b][j].active
    requires v.crossesCall ==> banks[b].calleeSaved
    requires v.id !in board.regOf && forall i | 0 <= i < |vs| :: vs[i].id != v.id
    ensures ScanInv(banks, Board(Hold(board.slots, b, j, v), board.regOf[v.id := board.slots[b][j].reg]), vs + [v], v.first)
  {
    var r := board.slots[b][j].reg;
    var regOf' := board.regOf[v.id := r];
    PlaceKeepsSlots(banks, board, vs, v, b, j);
    assert SlotOk(board.regOf, vs, board.slots[b][j], v.first);
    assert Extends(board.regOf, regOf', vs, v);
    assert EligibleFor(banks, r, v) by {
      assert banks[b].regs[j] == r;
    }
    forall i: nat, k: nat, q: nat | i < k < |vs| + 1 && On(regOf', vs + [v], i, q) && On(regOf', vs + [v], k, q)
      ensures (vs + [v])[i].last <= (vs + [v])[k].first
    {
      assert On(board.regOf, vs, i, q);
      if k < |vs| {
        assert On(board.regOf, vs, k, q);
      }
    }
  }

  /** Leaving v in memory keeps the invariant. */
  lemma SpillKeeps(banks: seq<Bank>, board: Board, vs: seq<VReg>, v: VReg)
    requires ScanInv(banks, board, vs, v.first) && v.id !in board.regOf
    ensures ScanInv(banks, board, vs + [v], v.first)
  {
    assert Extends(board.regOf, board.regOf, vs, v);
    forall b, j | 0 <= b < |board.slots| && 0 <= j < |board.slots[b]|
      ensures SlotOk(board.regOf, vs + [v], board.slots[b][j], v.first)
    {
      AppendElsewhere(board.regOf, board.regOf, vs, v, board.slots[b][j], v.first);
    }
    forall i: nat, k: nat, q: nat | i < k < |vs| + 1 && On(board.regOf, vs + [v], i, q) && On(board.regOf, vs + [v], k, q)
      ensures (vs + [v])[i].last <= (vs + [v])[k].first
    {
      assert On(board.regOf, vs, i, q) && On(board.regOf, vs, k, q);
    }
  }

  lemma StepKeeps(banks: seq<Bank>, preferCallee: bool, board: Board, vs: seq<VReg>, now: nat, v: VReg)
    requires ScanInv(banks, board, vs, now) && DistinctRegs(banks) && now <= v.first
    requires forall i | 0 <= i < |vs| :: vs[i].first <= v.first && vs[i].id != v.id
    requires v.id !in board.regOf
    ensures ScanInv(banks, Step(banks, preferCallee, board, v), vs + [v], v.first)
  {
    ExpireKeeps(banks, board, vs, now, v);
    var expired := Board(Expire(board.slots, v), board.regOf);
    match FindSlot(expired.slots, BankOrder(banks, preferCallee, v))
    case None => SpillKeeps(banks, expired, vs, v);
    case Some((b, j)) => PlaceKeeps(banks, expired, vs, v, b, j);
  }

  /** Position of the last range scanned. */
  ghost function Now(vs: seq<VReg>): nat {
    if vs == [] then 0 else vs[|vs| - 1].first
  }

  lemma {:induction false} ScanIds(banks: seq<Bank>, preferCallee: bool, start: map<int, nat>, vs: seq<VReg>)
    ensures forall id | id in Scan(banks, preferCallee, start, vs).regOf ::
              id in start || exists i :: 0 <= i < |vs| && vs[i].id == id
    ensures forall id | id in start && (forall i | 0 <= i < |vs| :: vs[i].id != id) ::
              id in Scan(banks, preferCallee, start, vs).regOf && Scan(banks, preferCallee, start, vs).regOf[id] == start[id]
  {
    if vs != [] {
      ScanIds(banks, preferCallee, start, vs[..|vs| - 1]);
    }
  }

  /** Which ranges the scan places does not depend on what was assigned before. */
  lemma {:induction false} ScanAlike(banks: seq<Bank>, preferCallee: bool, start: map<int, nat>, vs: seq<VReg>)
    ensures Scan(banks, preferCallee, start, vs).slots == Scan(banks, preferCallee, map[], vs).slots
    ensures forall id | id !in start :: id in Scan(banks, preferCallee, start, vs).regOf <==> id in Scan(banks, preferCallee, map[], vs).regOf
  {
    if vs != [] {
      ScanAlike(banks, preferCallee, start, vs[..|vs| - 1]);
    }
  }

  lemma NotYetAssigned(banks: seq<Bank>, preferCallee: bool, start: map<int, nat>, vs: seq<VReg>)
    requires vs != [] && DistinctIds(vs) && vs[|vs| - 1].id !in start
    ensures vs[|vs| - 1].id !in Scan(banks, preferCallee, start, vs[..|vs| - 1]).regOf
    ensures var m := |vs| - 1; forall i | 0 <= i < m :: vs[..m][i].id != vs[m].id
  {
    ScanIds(banks, preferCallee, start, vs[..|vs| - 1]);
  }

  lemma PrefixInOrder(vs: seq<VReg>)
    requires vs != [] && DistinctIds(vs) && ByFirst(vs)
    ensures var m := |vs| - 1;
            && DistinctIds(vs[..m]) && ByFirst(vs[..m]) && Now(vs[..m]) <= vs[m].first
            && forall i | 0 <= i < m :: vs[..m][i].first <= vs[m].first
  {
  }

  lemma {:induction false} ScanKeeps(banks: seq<Bank>, preferCallee: bool, start: map<int, nat>, vs: seq<VReg>)
    requires DistinctRegs(banks) && DistinctIds(vs) && ByFirst(vs)
    requires forall i | 0 <= i < |vs| :: vs[i].id !in start
    ensures ScanInv(banks, Scan(banks, preferCallee, start, vs), vs, Now(vs))
  {
    if vs != [] {
      hide ScanInv, Step, DistinctIds, DistinctRegs, ByFirst;
      var m := |vs| - 1;
      PrefixInOrder(vs);
      assert forall i | 0 <= i < m :: vs[..m][i].id !in start;
      ScanKeeps(banks, preferCallee, start, vs[..m]);
      NotYetAssigned(banks, preferCallee, start, vs);
      assert vs == vs[..m] + [vs[m]];
      StepKeeps(banks, preferCallee, Scan(banks, preferCallee, start, vs[..m]), vs[..m], Now(vs[..m]), vs[m]);
    }
  }

  // ---------------------------------------------------------------------
  // colourability
  // ---------------------------------------------------------------------

  /** No range ends before it begins, and where one begins with a definition none begins with a use and ends
      at once. */
  ghost predicate ProperHulls(vs: seq<VReg>) {
    && (forall i | 0 <= i < |vs| :: vs[i].first <= vs[i].last)
    && (forall i, j | 0 <= i < |vs| && 0 <= j < |vs| && !vs[i].startsAtDef && vs[j].startsAtDef && vs[i].first == vs[i].last ::
          vs[j].first != vs[i].first)
  }

  /** A range that starts with a definition at p was given the register. */
  ghost predicate HeldFromDef(regOf: map<int, nat>, vs: seq<VReg>, r: nat, p: nat) {
    exists h :: 0 <= h < |vs| && On(regOf, vs, h, r) && vs[h].startsAtDef && vs[h].first == p
  }

  ghost predicate PastDef(regOf: map<int, nat>, vs: seq<VReg>, u: RegUse, p: nat) {
    u.last > p || HeldFromDef(regOf, vs, u.reg, p)
  }

  /** Held registers are held past every definition point scanned so far, or from it. */
  ghost predicate HeldPastDefs(board: Board, vs: seq<VReg>) {
    forall b, j, i | 0 <= b < |board.slots| && 0 <= j < |board.slots[b]| && 0 <= i < |vs| && board.slots[b][j].active && vs[i].startsAtDef ::
      PastDef(board.regOf, vs, board.slots[b][j], vs[i].first)
  }

  lemma StepHoldsPastDefs(banks: seq<Bank>, preferCallee: bool, board: Board, vs: seq<VReg>, v: VReg)
    requires HeldPastDefs(board, vs) && ProperHulls(vs + [v]) && forall i | 0 <= i < |vs| :: vs[i].first <= v.first
    requires v.id !in board.regOf && forall i | 0 <= i < |vs| :: vs[i].id != v.id
    ensures HeldPastDefs(Step(banks, preferCallee, board, v), vs + [v])
  {
    var expired := Board(Expire(board.slots, v), board.regOf);
    ExpireHoldsPastDefs(board, vs, v);
    hide ProperHulls, HeldPastDefs;
    match FindSlot(expired.slots, BankOrder(banks, preferCallee, v))
    case None =>
    case Some((b, j)) => HoldKeepsPastDefs(expired, vs, v, b, j);
  }

  lemma ExpireHoldsPastDefs(board: Board, vs: seq<VReg>, v: VReg)
    requires HeldPastDefs(board, vs) && v.id !in board.regOf
    ensures HeldPastDefs(Board(Expire(board.slots, v), board.regOf), vs + [v])
  {
    var slots: Slots := Expire(board.slots, v);
    var w := vs + [v];
    forall b, j, i | 0 <= b < |slots| && 0 <= j < |slots[b]| && 0 <= i < |w| && slots[b][j].active && w[i].startsAtDef
      ensures PastDef(board.regOf, w, slots[b][j], w[i].first)
    {
      assert slots[b][j] == ExpireOne(board.slots[b][j], v);
      if i < |vs| {
        assert PastDef(board.regOf, vs, board.slots[b][j], vs[i].first);
        PastDefStays(board.regOf, board.regOf, vs, v, board.slots[b][j], vs[i].first);
      }
    }
  }

  lemma PastDefStays(regOf: map<int, nat>, regOf': map<int, nat>, vs: seq<VReg>, v: VReg, u: RegUse, p: nat)
    requires PastDef(regOf, vs, u, p) && forall i | 0 <= i < |vs| && vs[i].id in regOf :: vs[i].id in regOf' && regOf'[vs[i].id] == regOf[vs[i].id]
    ensures PastDef(regOf', vs + [v], u, p)
  {
    if u.last <= p {
      var h :| 0 <= h < |vs| && On(regOf, vs, h, u.reg) && vs[h].startsAtDef && vs[h].first == p;
      assert On(regOf', vs + [v], h, u.reg);
    }
  }

  lemma HoldKeepsPastDefs(board: Board, vs: seq<VReg>, v: VReg, b: nat, j: nat)
    requires HeldPastDefs(board, vs + [v]) && ProperHulls(vs + [v]) && forall i | 0 <= i < |vs| :: vs[i].first <= v.first
    requires v.id !in board.regOf && forall i | 0 <= i < |vs| :: vs[i].id != v.id
    requires b < |board.slots| && j < |board.slots[b]|
    ensures HeldPastDefs(Board(Hold(board.slots, b, j, v), board.regOf[v.id := board.slots[b][j].reg]), vs + [v])
  {
    var slots: Slots := Hold(board.slots, b, j, v);
    var regOf' := board.regOf[v.id := board.slots[b][j].reg];
    var w := vs + [v];
    forall b', j', i | 0 <= b' < |slots| && 0 <= j' < |slots[b']| && 0 <= i < |w| && slots[b'][j'].active && w[i].startsAtDef
      ensures PastDef(regOf', w, slots[b'][j'], w[i].first)
    {
      if b' == b && j' == j {
        NewHolderPastDef(regOf', vs, v, slots[b][j], i);
      } else {
        assert slots[b'][j'] == board.slots[b'][j'];
        assert PastDef(board.regOf, w, board.slots[b'][j'], w[i].first);
        HeldFromDefStays(board.regOf, regOf', vs, v, slots[b'][j'], w[i].first);
      }
    }
  }

  lemma HeldFromDefStays(regOf: map<int, nat>, regOf': map<int, nat>, vs: seq<VReg>, v: VReg, u: RegUse, p: nat)
    requires PastDef(regOf, vs + [v], u, p) && v.id !in regOf && forall i | 0 <= i < |vs| && vs[i].id in regOf :: vs[i].id in regOf' && regOf'[vs[i].id] == regOf[vs[i].id]
    ensures PastDef(regOf', vs + [v], u, p)
  {
    var w := vs + [v];
    if u.last <= p {
      var h :| 0 <= h < |w| && On(regOf, w, h, u.reg) && w[h].startsAtDef && w[h].first == p;
      assert On(regOf', w, h, u.reg);
    }
  }

  lemma NewHolderPastDef(regOf: map<int, nat>, vs: seq<VReg>, v: VReg, u: RegUse, i: nat)
    requires ProperHulls(vs + [v]) && (forall i | 0 <= i < |vs| :: vs[i].first <= v.first) && u.last == v.last
    requires v.id in regOf && regOf[v.id] == u.reg && i <= |vs| && (vs + [v])[i].startsAtDef
    ensures PastDef(regOf, vs + [v], u, (vs + [v])[i].first)
  {
    var w := vs + [v];
    assert w[|vs|] == v && On(regOf, w, |vs|, u.reg);
    if u.last <= w[i].first {
      assert w[i].first == v.first == v.last;
    }
  }

  lemma {:induction false} ScanHoldsPastDefs(banks: seq<Bank>, preferCallee: bool, start: map<int, nat>, vs: seq<VReg>)
    requires ByFirst(vs) && ProperHulls(vs) && DistinctIds(vs) && forall i | 0 <= i < |vs| :: vs[i].id !in start
    ensures HeldPastDefs(Scan(banks, preferCallee, start, vs), vs)
  {
    hide Step, HeldPastDefs, ProperHulls, DistinctIds, ByFirst;
    if vs == [] {
      NoneHeldYet(banks, start);
    } else {
      var m := |vs| - 1;
      PrefixInOrder(vs);
      PrefixProper(vs);
      NotYetAssigned(banks, preferCallee, start, vs);
      assert forall i | 0 <= i < m :: vs[..m][i].id !in start;
      ScanHoldsPastDefs(banks, preferCallee, start, vs[..m]);
      assert vs == vs[..m] + [vs[m]];
      StepHoldsPastDefs(banks, preferCallee, Scan(banks, preferCallee, start, vs[..m]), vs[..m], vs[m]);
    }
  }

  lemma NoneHeldYet(banks: seq<Bank>, start: map<int, nat>)
    ensures HeldPastDefs(Board(FreshSlots(banks), start), [])
  {
  }

  lemma PrefixProper(vs: seq<VReg>)
    requires vs != [] && ProperHulls(vs)
    ensures ProperHulls(vs[..|vs| - 1])
  {
  }

  /** A segment that v and every register held when v is scanned have in common. */
  ghost function MeetingPoint(vs: seq<VReg>, v: VReg): nat {
    if v.startsAtDef || exists i :: 0 <= i < |vs| && vs[i].startsAtDef && vs[i].first == v.first then v.first
    else StartOf(v)
  }

  ghost predicate HeldAt(regOf: map<int, nat>, vs: seq<VReg>, r: nat, p: nat) {
    exists h :: 0 <= h < |vs| && On(regOf, vs, h, r) && Occupies(vs[h], p)
  }

  lemma HeldRegisterMeets(regOf: map<int, nat>, vs: seq<VReg>, v: VReg, u: RegUse, now: nat)
    requires ProperHulls(vs + [v]) && forall i | 0 <= i < |vs| :: vs[i].first <= v.first
    requires u.active && SlotOk(regOf, vs, u, now) && !Expires(u, v)
    requires forall i | 0 <= i < |vs| && vs[i].startsAtDef :: PastDef(regOf, vs, u, vs[i].first)
    ensures HeldAt(regOf, vs, u.reg, MeetingPoint(vs, v))
  {
    var h :| 0 <= h < |vs| && Holder(regOf, vs, u, h);
    if i :| 0 <= i < |vs| && !v.startsAtDef && vs[i].startsAtDef && vs[i].first == v.first && u.last <= v.first {
      assert PastDef(regOf, vs, u, vs[i].first);
      var d :| 0 <= d < |vs| && On(regOf, vs, d, u.reg) && vs[d].startsAtDef && vs[d].first == v.first;
      assert Occupies(vs[d], v.first);
    } else {
      assert Occupies(vs[h], MeetingPoint(vs, v));
    }
  }

  lemma MeetsItself(vs: seq<VReg>, v: VReg)
    requires ProperHulls(vs + [v])
    ensures Occupies(v, MeetingPoint(vs, v))
  {
    var w := vs + [v];
    assert w[|vs|] == v && forall i | 0 <= i < |vs| :: w[i] == vs[i];
  }

  /** If the first m registers of bank b are all held at p, m different ranges occupy p. */
  lemma {:induction false} BankHolders(banks: seq<Bank>, regOf: map<int, nat>, vs: seq<VReg>, p: nat, b: nat, m: nat)
    returns (H: set<nat>)
    requires DistinctRegs(banks) && b < |banks| && m <= |banks[b].regs|
    requires forall j | 0 <= j < m :: HeldAt(regOf, vs, banks[b].regs[j], p)
    ensures |H| == m
    ensures forall i | i in H :: i < |vs| && Occupies(vs[i], p) && exists j :: 0 <= j < m && On(regOf, vs, i, banks[b].regs[j])
  {
    if m == 0 {
      H := {};
    } else {
      var rest := BankHolders(banks, regOf, vs, p, b, m - 1);
      var h :| 0 <= h < |vs| && On(regOf, vs, h, banks[b].regs[m - 1]) && Occupies(vs[h], p);
      assert h !in rest;
      H := rest + {h};
    }
  }

  /** A range holding a register of an earlier bank holds none of this one. */
  lemma HoldsElsewhere(banks: seq<Bank>, regOf: map<int, nat>, vs: seq<VReg>, i: nat, m: nat)
    requires DistinctRegs(banks) && m < |banks| && i < |vs|
    requires exists b, j :: 0 <= b < m && 0 <= j < |banks[b].regs| && On(regOf, vs, i, banks[b].regs[j])
    ensures !exists j :: 0 <= j < |banks[m].regs| && On(regOf, vs, i, banks[m].regs[j])
  {
  }

  lemma {:induction false} AllHolders(banks: seq<Bank>, calleeOnly: bool, regOf: map<int, nat>, vs: seq<VReg>, p: nat, m: nat)
    returns (H: set<nat>)
    requires DistinctRegs(banks) && m <= |banks|
    requires forall b, j | 0 <= b < m && 0 <= j < |banks[b].regs| && (!calleeOnly || banks[b].calleeSaved) ::
               HeldAt(regOf, vs, banks[b].regs[j], p)
    ensures |H| == CountRegs(banks[..m], calleeOnly)
    ensures forall i | i in H :: i < |vs| && Occupies(vs[i], p)
              && exists b, j :: 0 <= b < m && 0 <= j < |banks[b].regs| && On(regOf, vs, i, banks[b].regs[j])
  {
    hide HeldAt, Occupies, DistinctRegs, On;
    if m == 0 {
      H := {};
    } else {
      H := AllHolders(banks, calleeOnly, regOf, vs, p, m - 1);
      assert banks[..m][..m - 1] == banks[..m - 1];
      if !calleeOnly || banks[m - 1].calleeSaved {
        var last := BankHolders(banks, regOf, vs, p, m - 1, |banks[m - 1].regs|);
        forall i | i in H ensures i !in last {
          HoldsElsewhere(banks, regOf, vs, i, m - 1);
        }
        assert H * last == {};
        H := H + last;
      }
    }
  }

  ghost function Occupants(vs: seq<VReg>, p: int): (r: set<nat>)
  {
    set i: nat | i < |vs| && Occupies(vs[i], p)
  }

  lemma {:induction false} OccIsCount(vs: seq<VReg>, p: int)
    ensures Occ(vs, p) == |Occupants(vs, p)|
  {
    if vs == [] {
      assert Occupants(vs, p) == {};
    } else {
      var m := |vs| - 1;
      OccIsCount(vs[..m], p);
      if Occupies(vs[m], p) {
        assert Occupants(vs, p) == Occupants(vs[..m], p) + {m};
      } else {
        assert Occupants(vs, p) == Occupants(vs[..m], p);
      }
    }
  }

  lemma SubsetSize<T>(a: set<T>, b: set<T>)
    requires a <= b
    ensures |a| <= |b|
  {
    assert b == a + (b - a);
  }

  /** If every register v could use is held at p, and v occupies p too, more ranges occupy p than v has registers. */
  lemma Crowded(banks: seq<Bank>, regOf: map<int, nat>, vs: seq<VReg>, v: VReg, p: nat)
    requires DistinctRegs(banks)
    requires forall b, j | 0 <= b < |banks| && 0 <= j < |banks[b].regs| && (v.crossesCall ==> banks[b].calleeSaved) ::
               HeldAt(regOf, vs, banks[b].regs[j], p)
    requires Occupies(v, p)
    ensures Occ(vs + [v], p) > CountRegs(banks, v.crossesCall)
  {
    assert banks[..|banks|] == banks;
    var H := AllHolders(banks, v.crossesCall, regOf, vs, p, |banks|);
    OccIsCount(vs + [v], p);
    var O := Occupants(vs + [v], p);
    assert H + {|vs|} <= O;
    SubsetSize(H + {|vs|}, O);
  }

  /** No segment of v is occupied by more of the ranges than v has registers to choose from. */
  ghost predicate Uncrowded(banks: seq<Bank>, vs: seq<VReg>, v: VReg) {
    forall p | Occupies(v, p) :: Occ(vs, p) <= CountRegs(banks, v.crossesCall)
  }

  /** A range finds a register as long as nowhere on it more ranges overlap than it has registers to choose from. */
  lemma UncrowdedIsPlaced(banks: seq<Bank>, preferCallee: bool, start: map<int, nat>, vs: seq<VReg>, v: VReg)
    requires DistinctRegs(banks) && DistinctIds(vs) && ByFirst(vs + [v]) && ProperHulls(vs + [v])
    requires forall i | 0 <= i < |vs| :: vs[i].id !in start
    requires Uncrowded(banks, vs + [v], v)
    ensures v.id in Step(banks, preferCallee, Scan(banks, preferCallee, start, vs), v).regOf
  {
    hide Occ;
    var w := vs + [v];
    assert forall i | 0 <= i < |vs| :: w[i] == vs[i];
    assert w[|vs|] == v;
    var board := Scan(banks, preferCallee, start, vs);
    var slots := Expire(board.slots, v);
    if FindSlot(slots, BankOrder(banks, preferCallee, v)).None? {
      ScanKeeps(banks, preferCallee, start, vs);
      PrefixProper(w);
      assert w[..|w| - 1] == vs;
      ScanHoldsPastDefs(banks, preferCallee, start, vs);
      var p := MeetingPoint(vs, v);
      forall b, j | 0 <= b < |banks| && 0 <= j < |banks[b].regs| && (v.crossesCall ==> banks[b].calleeSaved)
        ensures HeldAt(board.regOf, vs, banks[b].regs[j], p)
      {
        assert slots[b][j].active;
        forall i | 0 <= i < |vs| && vs[i].startsAtDef ensures PastDef(board.regOf, vs, board.slots[b][j], vs[i].first) {
        }
        HeldRegisterMeets(board.regOf, vs, v, board.slots[b][j], Now(vs));
      }
      MeetsItself(vs, v);
      Crowded(banks, board.regOf, vs, v, p);
      assert false;
    }
  }

  lemma CalleeSavedAreSome(banks: seq<Bank>)
    ensures CountRegs(banks, true) <= CountRegs(banks, false)
  {
  }

  /** Every uncrowded range is placed; in particular, with occupancy within the register count,
      every range that crosses no call. */
  lemma {:induction false} UncrowdedScanPlaces(banks: seq<Bank>, preferCallee: bool, start: map<int, nat>, vs: seq<VReg>)
    requires DistinctRegs(banks) && DistinctIds(vs) && ByFirst(vs) && ProperHulls(vs)
    requires forall i | 0 <= i < |vs| :: vs[i].id !in start
    ensures forall i | 0 <= i < |vs| && Uncrowded(banks, vs, vs[i]) :: vs[i].id in Scan(banks, preferCallee, start, vs).regOf
  {
    if vs != [] {
      var m := |vs| - 1;
      assert vs == vs[..m] + [vs[m]];
      UncrowdedScanPlaces(banks, preferCallee, start, vs[..m]);
      forall i | 0 <= i < |vs| && Uncrowded(banks, vs, vs[i])
        ensures vs[i].id in Scan(banks, preferCallee, start, vs).regOf
      {
        if i == m {
          UncrowdedIsPlaced(banks, preferCallee, start, vs[..m], vs[m]);
        } else {
          assert vs[..m][i] == vs[i];
          forall p | Occupies(vs[i], p) ensures Occ(vs[..m], p) <= CountRegs(banks, vs[i].crossesCall) {
            assert Occ(vs, p) <= CountRegs(banks, vs[i].crossesCall);
          }
          assert Uncrowded(banks, vs[..m], vs[..m][i]);
        }
      }
    }
  }

  /** The exact guard of the demote valve. */
  lemma PlacedIff(banks: seq<Bank>, preferCallee: bool, board: Board, v: VReg)
    requires Shaped(banks, board.slots) && v.id !in board.regOf
    ensures v.id in Step(banks, preferCallee, board, v).regOf <==>
            exists b, j :: 0 <= b < |banks| && 0 <= j < |banks[b].regs| && (v.crossesCall ==> banks[b].calleeSaved)
                           && !Expire(board.slots, v)[b][j].active
  {
    var order := BankOrder(banks, preferCallee, v);
    assert forall b | 0 <= b < |banks| && (v.crossesCall ==> banks[b].calleeSaved) :: b in order;
  }

  /** Bank b is tried before bank c: for a range that crosses a call both save their registers and b is listed first;
      for others, under the size-biased profile, a bank that saves its registers comes before one that does not. */
  predicate TriedBefore(banks: seq<Bank>, preferCallee: bool, v: VReg, b: nat, c: nat)
    requires b < |banks| && c < |banks|
  {
    if v.crossesCall then banks[b].calleeSaved && banks[c].calleeSaved && b < c
    else if preferCallee && banks[b].calleeSaved != banks[c].calleeSaved then banks[b].calleeSaved
    else b < c
  }

  /** Rising indices below m of banks that do, or do not, save their registers. */
  predicate RisingBanks(banks: seq<Bank>, m: nat, callee: bool, r: seq<nat>)
    requires m <= |banks|
  {
    && (forall i | 0 <= i < |r| :: r[i] < m && banks[r[i]].calleeSaved == callee)
    && (forall i, k | 0 <= i < k < |r| :: r[i] < r[k])
  }

  lemma {:induction false} BanksInOrder(banks: seq<Bank>, m: nat, callee: bool)
    requires m <= |banks|
    ensures RisingBanks(banks, m, callee, BanksWhere(banks, m, callee))
  {
    if m > 0 {
      BanksInOrder(banks, m - 1, callee);
      var rest, all := BanksWhere(banks, m - 1, callee), BanksWhere(banks, m, callee);
      assert all == if banks[m - 1].calleeSaved == callee then rest + [m - 1] else rest;
    }
  }

  lemma {:induction false} NaturalInOrder(m: nat)
    ensures forall i, k | 0 <= i < k < m :: Natural(m)[i] < Natural(m)[k]
  {
  }

  /** Each bank of the list is tried before those behind it. */
  predicate TriedInOrder(banks: seq<Bank>, preferCallee: bool, v: VReg, order: seq<nat>) {
    && (forall i | 0 <= i < |order| :: order[i] < |banks|)
    && (forall i, k | 0 <= i < k < |order| :: TriedBefore(banks, preferCallee, v, order[i], order[k]))
  }

  lemma OrderIsTried(banks: seq<Bank>, preferCallee: bool, v: VReg)
    ensures TriedInOrder(banks, preferCallee, v, BankOrder(banks, preferCallee, v))
  {
    BanksInOrder(banks, |banks|, true);
    BanksInOrder(banks, |banks|, false);
    NaturalInOrder(|banks|);
    var callee, rest := BanksWhere(banks, |banks|, true), BanksWhere(banks, |banks|, false);
    hide BanksWhere, Natural;
    if !v.crossesCall && preferCallee {
      CalleeThenRest(banks, v, callee, rest);
    }
  }

  lemma CalleeThenRest(banks: seq<Bank>, v: VReg, callee: seq<nat>, rest: seq<nat>)
    requires !v.crossesCall && RisingBanks(banks, |banks|, true, callee) && RisingBanks(banks, |banks|, false, rest)
    ensures TriedInOrder(banks, true, v, callee + rest)
  {
    var order := callee + rest;
    forall i | 0 <= i < |order| ensures order[i] == if i < |callee| then callee[i] else rest[i - |callee|] {
    }
  }

  /** Banks before the one found have nothing free, and neither do registers before the one found in it. */
  lemma {:induction false} FoundFirst(slots: Slots, order: seq<nat>) returns (k: nat)
    requires FindSlot(slots, order).Some?
    ensures k < |order| && FindSlot(slots, order).value.0 == order[k]
    ensures forall i, j | 0 <= i < k && order[i] < |slots| && 0 <= j < |slots[order[i]]| :: slots[order[i]][j].active
    ensures var (b, j) := FindSlot(slots, order).value; b < |slots| && j < |slots[b]| && forall i | 0 <= i < j :: slots[b][i].active
  {
    if order[0] < |slots| && FirstFree(slots[order[0]]) < |slots[order[0]]| {
      k := 0;
    } else {
      k := FoundFirst(slots, order[1..]);
      k := k + 1;
    }
  }

  /** A range takes the first free register of the first bank it tries that has one: of no bank tried before, and of
      no lower number in its own bank, is a register free. */
  lemma TakesFirst(banks: seq<Bank>, preferCallee: bool, board: Board, v: VReg) returns (b: nat, j: nat)
    requires Shaped(banks, board.slots) && v.id !in board.regOf && v.id in Step(banks, preferCallee, board, v).regOf
    ensures b < |banks| && j < |banks[b].regs| && (v.crossesCall ==> banks[b].calleeSaved)
    ensures Step(banks, preferCallee, board, v).regOf[v.id] == banks[b].regs[j] && !Expire(board.slots, v)[b][j].active
    ensures forall c, i | 0 <= c < |banks| && 0 <= i < |banks[c].regs| && !Expire(board.slots, v)[c][i].active ::
              !TriedBefore(banks, preferCallee, v, c, b) && (c == b ==> j <= i)
  {
    var slots, order := Expire(board.slots, v), BankOrder(banks, preferCallee, v);
    OrderIsTried(banks, preferCallee, v);
    var k := FoundFirst(slots, order);
    b, j := FindSlot(slots, order).value.0, FindSlot(slots, order).value.1;
    assert b in order;
    forall c, i | 0 <= c < |banks| && 0 <= i < |banks[c].regs| && !slots[c][i].active
      ensures !TriedBefore(banks, preferCallee, v, c, b) && (c == b ==> j <= i)
    {
      if TriedBefore(banks, preferCallee, v, c, b) {
        TriedIsEarlier(banks, preferCallee, v, order, k, c);
        assert false;
      }
    }
  }

  lemma TriedIsEarlier(banks: seq<Bank>, preferCallee: bool, v: VReg, order: seq<nat>, k: nat, c: nat)
    requires order == BankOrder(banks, preferCallee, v) && k < |order| && c < |banks| && order[k] < |banks|
    requires TriedBefore(banks, preferCallee, v, c, order[k])
    ensures exists i :: 0 <= i < k && order[i] == c
  {
    OrderIsTried(banks, preferCallee, v);
    if v.crossesCall {
      assert c in BanksWhere(banks, |banks|, true);
    }
    assert c in order;
    var i :| 0 <= i < |order| && order[i] == c;
    assert i > k ==> TriedBefore(banks, preferCallee, v, order[k], order[i]);
  }

  // ---------------------------------------------------------------------
  // who holds a register, read off the list
  // ---------------------------------------------------------------------

  /** Range h gives its register up when w is scanned. */
  ghost predicate Ends(h: VReg, w: VReg) {
    h.last < w.first || (h.last == w.first && w.startsAtDef)
  }

  /** Some later range of the list made range i give its register up. */
  ghost predicate GivenUp(vs: seq<VReg>, i: nat)
    requires i < |vs|
  {
    exists j :: i < j < |vs| && Ends(vs[i], vs[j])
  }

  ghost predicate LastHolder(regOf: map<int, nat>, vs: seq<VReg>, u: RegUse, h: nat)
    requires h < |vs|
  {
    && On(regOf, vs, h, u.reg) && vs[h].last == u.last && !GivenUp(vs, h)
    && forall i | 0 <= i < |vs| && i != h && On(regOf, vs, i, u.reg) :: GivenUp(vs, i)
  }

  /** A register is held exactly when one range placed on it has not given it up. */
  ghost predicate SlotExact(regOf: map<int, nat>, vs: seq<VReg>, u: RegUse) {
    if u.active then exists h :: 0 <= h < |vs| && LastHolder(regOf, vs, u, h)
    else forall i | 0 <= i < |vs| && On(regOf, vs, i, u.reg) :: GivenUp(vs, i)
  }

  ghost predicate BoardExact(board: Board, vs: seq<VReg>) {
    forall b, j | 0 <= b < |board.slots| && 0 <= j < |board.slots[b]| :: SlotExact(board.regOf, vs, board.slots[b][j])
  }

  lemma GivenUpAppend(vs: seq<VReg>, v: VReg, i: nat)
    requires i < |vs|
    ensures GivenUp(vs + [v], i) <==> GivenUp(vs, i) || Ends(vs[i], v)
  {
    var w := vs + [v];
    if GivenUp(vs, i) {
      var j :| i < j < |vs| && Ends(vs[i], vs[j]);
      assert Ends(w[i], w[j]);
    }
    if Ends(vs[i], v) {
      assert Ends(w[i], w[|vs|]);
    }
    if GivenUp(w, i) {
      var j :| i < j < |w| && Ends(w[i], w[j]);
      assert j < |vs| ==> Ends(vs[i], vs[j]);
    }
  }

  lemma ExpireExact(regOf: map<int, nat>, vs: seq<VReg>, u: RegUse, v: VReg)
    requires SlotExact(regOf, vs, u) && v.id !in regOf
    ensures SlotExact(regOf, vs + [v], ExpireOne(u, v))
  {
    var w, u' := vs + [v], ExpireOne(u, v);
    forall i | 0 <= i < |vs| ensures GivenUp(w, i) <==> GivenUp(vs, i) || Ends(vs[i], v) {
      GivenUpAppend(vs, v, i);
    }
    forall i: nat | i < |w| && On(regOf, w, i, u.reg) ensures i < |vs| && On(regOf, vs, i, u.reg) {
    }
    hide GivenUp;
    if u.active {
      var h :| 0 <= h < |vs| && LastHolder(regOf, vs, u, h);
      if u'.active {
        assert LastHolder(regOf, w, u', h);
      }
    }
  }

  lemma ExpireAllExact(board: Board, vs: seq<VReg>, v: VReg)
    requires BoardExact(board, vs) && v.id !in board.regOf
    ensures BoardExact(Board(Expire(board.slots, v), board.regOf), vs + [v])
  {
    hide SlotExact;
    var slots: Slots := Expire(board.slots, v);
    forall b, j | 0 <= b < |slots| && 0 <= j < |slots[b]| ensures SlotExact(board.regOf, vs + [v], slots[b][j]) {
      ExpireExact(board.regOf, vs, board.slots[b][j], v);
    }
  }

  /** Putting the last range of the list on a free register. */
  lemma HoldExact(banks: seq<Bank>, board: Board, vs: seq<VReg>, v: VReg, b: nat, j: nat)
    requires Shaped(banks, board.slots) && DistinctRegs(banks) && BoardExact(board, vs + [v])
    requires v.id !in board.regOf && forall i | 0 <= i < |vs| :: vs[i].id != v.id
    requires b < |board.slots| && j < |board.slots[b]| && !board.slots[b][j].active
    ensures BoardExact(Board(Hold(board.slots, b, j, v), board.regOf[v.id := board.slots[b][j].reg]), vs + [v])
  {
    var slots: Slots := Hold(board.slots, b, j, v);
    var r, w := board.slots[b][j].reg, vs + [v];
    var regOf' := board.regOf[v.id := r];
    assert SlotExact(board.regOf, w, board.slots[b][j]);
    forall b', j' | 0 <= b' < |slots| && 0 <= j' < |slots[b']| ensures SlotExact(regOf', w, slots[b'][j']) {
      if b' == b && j' == j {
        NewLastHolder(board.regOf, regOf', vs, v, board.slots[b][j], slots[b][j]);
      } else {
        assert slots[b'][j'] == board.slots[b'][j'];
        assert banks[b'].regs[j'] != banks[b].regs[j];
        assert SlotExact(board.regOf, w, board.slots[b'][j']);
        OthersExact(board.regOf, regOf', vs, v, slots[b'][j'], r);
      }
    }
  }

  lemma NewLastHolder(regOf: map<int, nat>, regOf': map<int, nat>, vs: seq<VReg>, v: VReg, u: RegUse, u': RegUse)
    requires SlotExact(regOf, vs + [v], u) && !u.active && u' == RegUse(u.reg, v.last, true)
    requires v.id !in regOf && regOf' == regOf[v.id := u.reg] && forall i | 0 <= i < |vs| :: vs[i].id != v.id
    ensures SlotExact(regOf', vs + [v], u')
  {
    var w := vs + [v];
    assert !GivenUp(w, |vs|);
    forall i | 0 <= i < |w| && i != |vs| && On(regOf', w, i, u.reg) ensures GivenUp(w, i) {
      assert On(regOf, w, i, u.reg);
    }
    assert LastHolder(regOf', w, u', |vs|);
  }

  lemma OthersExact(regOf: map<int, nat>, regOf': map<int, nat>, vs: seq<VReg>, v: VReg, u: RegUse, r: nat)
    requires SlotExact(regOf, vs + [v], u) && u.reg != r && v.id !in regOf && regOf' == regOf[v.id := r]
    requires forall i | 0 <= i < |vs| :: vs[i].id != v.id
    ensures SlotExact(regOf', vs + [v], u)
  {
    var w := vs + [v];
    hide GivenUp;
    forall i | 0 <= i < |w| ensures On(regOf', w, i, u.reg) <==> On(regOf, w, i, u.reg) {
    }
    if u.active {
      var h :| 0 <= h < |w| && LastHolder(regOf, w, u, h);
      assert LastHolder(regOf', w, u, h);
    }
  }

  lemma {:induction false} ScanExact(banks: seq<Bank>, preferCallee: bool, start: map<int, nat>, vs: seq<VReg>)
    requires DistinctRegs(banks) && DistinctIds(vs) && forall i | 0 <= i < |vs| :: vs[i].id !in start
    ensures BoardExact(Scan(banks, preferCallee, start, vs), vs) && Shaped(banks, Scan(banks, preferCallee, start, vs).slots)
  {
    hide BoardExact, DistinctRegs, Shaped, Step;
    if vs == [] {
      NothingHeld(banks, start);
    } else {
      var m := |vs| - 1;
      NotYetAssigned(banks, preferCallee, start, vs);
      assert forall i | 0 <= i < m :: vs[..m][i].id !in start;
      ScanExact(banks, preferCallee, start, vs[..m]);
      assert vs == vs[..m] + [vs[m]];
      StepExact(banks, preferCallee, Scan(banks, preferCallee, start, vs[..m]), vs[..m], vs[m]);
    }
  }

  lemma NothingHeld(banks: seq<Bank>, start: map<int, nat>)
    ensures BoardExact(Board(FreshSlots(banks), start), []) && Shaped(banks, FreshSlots(banks))
  {
  }

  lemma StepExact(banks: seq<Bank>, preferCallee: bool, board: Board, vs: seq<VReg>, v: VReg)
    requires Shaped(banks, board.slots) && DistinctRegs(banks) && BoardExact(board, vs)
    requires v.id !in board.regOf && forall i | 0 <= i < |vs| :: vs[i].id != v.id
    ensures BoardExact(Step(banks, preferCallee, board, v), vs + [v]) && Shaped(banks, Step(banks, preferCallee, board, v).slots)
  {
    var expired := Board(Expire(board.slots, v), board.regOf);
    ExpireAllExact(board, vs, v);
    assert Shaped(banks, expired.slots);
    hide BoardExact, DistinctRegs;
    match FindSlot(expired.slots, BankOrder(banks, preferCallee, v))
    case None =>
    case Some((b, j)) => HoldExact(banks, expired, vs, v, b, j);
  }

  /** Among the earlier ranges of the list, all that were placed on register r have given it up when the
      last one is scanned. */
  ghost predicate FreeForLast(regOf: map<int, nat>, vs: seq<VReg>, r: nat) {
    forall i | 0 <= i < |vs| - 1 && On(regOf, vs, i, r) :: GivenUp(vs, i)
  }

  lemma StepPlaces(banks: seq<Bank>, preferCallee: bool, board: Board, vs: seq<VReg>, v: VReg)
    requires Shaped(banks, board.slots) && BoardExact(board, vs) && v.id !in board.regOf
    ensures v.id in Step(banks, preferCallee, board, v).regOf <==> SomeFreeFor(banks, board.regOf, vs + [v], v.crossesCall)
  {
    var slots: Slots := Expire(board.slots, v);
    assert Shaped(banks, slots);
    ExpireAllExact(board, vs, v);
    PlacedIff(banks, preferCallee, board, v);
    hide BoardExact, Shaped, Step, SomeFreeFor;
    SomeSlotIsFree(banks, board.regOf, slots, vs + [v], v.crossesCall);
  }

  /** Some register, a callee-saved one if asked for, was given up by all earlier ranges on it. */
  ghost predicate SomeFreeFor(banks: seq<Bank>, regOf: map<int, nat>, vs: seq<VReg>, calleeOnly: bool) {
    exists b, j :: 0 <= b < |banks| && 0 <= j < |banks[b].regs| && (calleeOnly ==> banks[b].calleeSaved)
                   && FreeForLast(regOf, vs, banks[b].regs[j])
  }

  lemma LastPlacedExactly(banks: seq<Bank>, preferCallee: bool, start: map<int, nat>, vs: seq<VReg>)
    requires DistinctRegs(banks) && DistinctIds(vs) && vs != [] && forall i | 0 <= i < |vs| :: vs[i].id !in start
    ensures var v := vs[|vs| - 1];
            v.id in Scan(banks, preferCallee, start, vs).regOf <==>
            SomeFreeFor(banks, Scan(banks, preferCallee, start, vs[..|vs| - 1]).regOf, vs, v.crossesCall)
  {
    hide BoardExact, Shaped, DistinctRegs, SomeFreeFor, Step;
    var m := |vs| - 1;
    NotYetAssigned(banks, preferCallee, start, vs);
    assert forall i | 0 <= i < m :: vs[..m][i].id !in start;
    ScanExact(banks, preferCallee, start, vs[..m]);
    assert vs[..m] + [vs[m]] == vs;
    StepPlaces(banks, preferCallee, Scan(banks, preferCallee, start, vs[..m]), vs[..m], vs[m]);
  }

  ghost predicate AgreeOn(regOf: map<int, nat>, regOf': map<int, nat>, id: int) {
    (id in regOf <==> id in regOf') && (id in regOf ==> regOf[id] == regOf'[id])
  }

  lemma StepElsewhere(banks: seq<Bank>, preferCallee: bool, board: Board, v: VReg, id: int)
    requires id != v.id
    ensures AgreeOn(board.regOf, Step(banks, preferCallee, board, v).regOf, id)
  {
  }

  /** What happens to a range is settled when it is scanned. */
  lemma {:induction false} ScanKeepsEarlier(banks: seq<Bank>, preferCallee: bool, start: map<int, nat>, vs: seq<VReg>, k: nat, i: nat)
    requires DistinctIds(vs) && i < k <= |vs|
    ensures AgreeOn(Scan(banks, preferCallee, start, vs[..k]).regOf, Scan(banks, preferCallee, start, vs).regOf, vs[i].id)
    decreases |vs|
  {
    hide Step;
    if k == |vs| {
      assert vs[..k] == vs;
    } else {
      var m := |vs| - 1;
      assert vs[..m][..k] == vs[..k] && vs[..m][i] == vs[i];
      ScanKeepsEarlier(banks, preferCallee, start, vs[..m], k, i);
      StepElsewhere(banks, preferCallee, Scan(banks, preferCallee, start, vs[..m]), vs[m], vs[i].id);
    }
  }

  /** When a range of the sorted list is placed, read off the list and where the ranges before it ended up: exactly
      when some register it may use was given up by all ranges placed there before. */
  lemma PlacedExactly(banks: seq<Bank>, preferCallee: bool, start: map<int, nat>, vs: seq<VReg>, k: nat)
    requires DistinctRegs(banks) && DistinctIds(vs) && k < |vs| && forall i | 0 <= i < |vs| :: vs[i].id !in start
    ensures var regOf := Scan(banks, preferCallee, start, vs).regOf;
            vs[k].id in regOf <==> SomeFreeFor(banks, regOf, vs[..k + 1], vs[k].crossesCall)
  {
    var upTo := vs[..k + 1];
    assert upTo[..k] == vs[..k] && (forall i | 0 <= i < |upTo| :: upTo[i] == vs[i]);
    LastPlacedExactly(banks, preferCallee, start, upTo);
    ScanKeepsEarlier(banks, preferCallee, start, vs, k + 1, k);
    var before, regOf := Scan(banks, preferCallee, start, vs[..k]).regOf, Scan(banks, preferCallee, start, vs).regOf;
    forall i | 0 <= i < k ensures AgreeOn(before, regOf, upTo[i].id) {
      ScanKeepsEarlier(banks, preferCallee, start, vs, k, i);
    }
    hide Scan, SomeFreeFor, DistinctRegs, DistinctIds;
    SameFree(banks, before, regOf, upTo, vs[k].crossesCall);
  }

  lemma SameFree(banks: seq<Bank>, regOf: map<int, nat>, regOf': map<int, nat>, vs: seq<VReg>, calleeOnly: bool)
    requires vs != [] && forall i | 0 <= i < |vs| - 1 :: AgreeOn(regOf, regOf', vs[i].id)
    ensures SomeFreeFor(banks, regOf, vs, calleeOnly) <==> SomeFreeFor(banks, regOf', vs, calleeOnly)
  {
    hide GivenUp;
    forall b: nat, j: nat | b < |banks| && j < |banks[b].regs|
      ensures FreeForLast(regOf, vs, banks[b].regs[j]) <==> FreeForLast(regOf', vs, banks[b].regs[j])
    {
      forall i | 0 <= i < |vs| - 1 ensures On(regOf, vs, i, banks[b].regs[j]) <==> On(regOf', vs, i, banks[b].regs[j]) {
        assert AgreeOn(regOf, regOf', vs[i].id);
      }
    }
  }

  lemma SomeSlotIsFree(banks: seq<Bank>, regOf: map<int, nat>, slots: Slots, vs: seq<VReg>, calleeOnly: bool)
    requires Shaped(banks, slots) && BoardExact(Board(slots, regOf), vs) && vs != [] && vs[|vs| - 1].id !in regOf
    ensures (exists b, j :: 0 <= b < |banks| && 0 <= j < |banks[b].regs| && (calleeOnly ==> banks[b].calleeSaved) && !slots[b][j].active)
            <==> SomeFreeFor(banks, regOf, vs, calleeOnly)
  {
    hide BoardExact, FreeForLast;
    forall b: nat, j: nat | b < |banks| && j < |banks[b].regs|
      ensures !slots[b][j].active <==> FreeForLast(regOf, vs, banks[b].regs[j])
    {
      SlotIsFree(regOf, slots, vs, b, j);
    }
  }

  lemma SlotIsFree(regOf: map<int, nat>, slots: Slots, vs: seq<VReg>, b: nat, j: nat)
    requires BoardExact(Board(slots, regOf), vs) && vs != [] && vs[|vs| - 1].id !in regOf && b < |slots| && j < |slots[b]|
    ensures !slots[b][j].active <==> FreeForLast(regOf, vs, slots[b][j].reg)
  {
    var board := Board(slots, regOf);
    assert SlotExact(board.regOf, vs, board.slots[b][j]);
  }
}
