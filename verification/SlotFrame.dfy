/** Frame layout after recolouring: a cell for every slot id left in the code. */
module SlotFrame {

  function Align16(x: nat): (r: nat)
    ensures x <= r < x + 16 && r % 16 == 0
  {
    (x + 15) / 16 * 16
  }

  /** The slots of a function: which are 16 bytes wide, which still have operands in memory, and which were renamed. */
  datatype Slots = Slots(n: nat, wide: set<nat>, inMemory: set<nat>, rep: map<nat, nat>)

  /** The slot goes without a cell: an earlier alias goes by the same id. */
  ghost predicate Aliased(rep: map<nat, nat>, s: nat) {
    exists t :: t in rep && t < s && rep[t] == if s in rep then rep[s] else s
  }

  ghost predicate IsScalar(f: Slots, s: nat) {
    s < f.n && s in f.inMemory && s !in f.wide && !Aliased(f.rep, s)
  }

  ghost predicate IsWide(f: Slots, s: nat) {
    s < f.n && s in f.inMemory && s in f.wide
  }

  /** Scalar and wide slots with a cell below slot k. */
  ghost function Scalars(f: Slots, k: nat): nat {
    if k == 0 then 0 else Scalars(f, k - 1) + if IsScalar(f, k - 1) then 1 else 0
  }

  ghost function Wides(f: Slots, k: nat): nat {
    if k == 0 then 0 else Wides(f, k - 1) + if IsWide(f, k - 1) then 1 else 0
  }

  /** Where the wide cells start, counted down from the frame pointer. */
  ghost function WideBase(f: Slots, callee: nat): int {
    Align16(callee + 8 * Scalars(f, f.n))
  }

  ghost function FrameSize(f: Slots, callee: nat): int {
    Align16(WideBase(f, callee) + 16 * Wides(f, f.n))
  }

  /** The cell of a slot: the next one down within its area. */
  ghost function Cell(f: Slots, callee: nat, s: nat): int {
    if s in f.wide then -(WideBase(f, callee) + 16 * (Wides(f, s) + 1)) else -(callee + 8 * (Scalars(f, s) + 1))
  }

  function Bytes(f: Slots, s: nat): nat {
    if s in f.wide then 16 else 8
  }

  ghost predicate HasCell(f: Slots, s: nat) {
    IsScalar(f, s) || IsWide(f, s)
  }

  lemma {:induction false} CountsGrow(f: Slots, s: nat, t: nat)
    requires s < t
    ensures Scalars(f, s) + (if IsScalar(f, s) then 1 else 0) <= Scalars(f, t)
    ensures Wides(f, s) + (if IsWide(f, s) then 1 else 0) <= Wides(f, t)
    decreases t
  {
    hide IsScalar, IsWide;
    if s < t - 1 {
      CountsGrow(f, s, t - 1);
    }
  }

  /** Every cell lies inside the frame, clear of the callee-saved area; wide cells are 16-byte aligned. */
  lemma CellInside(f: Slots, callee: nat, s: nat)
    requires HasCell(f, s)
    ensures 0 - FrameSize(f, callee) <= Cell(f, callee, s) && Cell(f, callee, s) + Bytes(f, s) <= 0 - callee
    ensures s in f.wide ==> Cell(f, callee, s) % 16 == 0
  {
    CountsGrow(f, s, f.n);
    hide Scalars, Wides;
    assert callee + 8 * Scalars(f, f.n) <= WideBase(f, callee) && WideBase(f, callee) % 16 == 0;
    assert WideBase(f, callee) + 16 * Wides(f, f.n) <= FrameSize(f, callee);
  }

  /** No two cells overlap. */
  lemma CellsApart(f: Slots, callee: nat, s: nat, t: nat)
    requires HasCell(f, s) && HasCell(f, t) && s < t
    ensures Cell(f, callee, s) + Bytes(f, s) <= Cell(f, callee, t) || Cell(f, callee, t) + Bytes(f, t) <= Cell(f, callee, s)
  {
    CountsGrow(f, s, t);
    CountsGrow(f, s, f.n);
    CountsGrow(f, t, f.n);
    hide Scalars, Wides;
    assert callee + 8 * Scalars(f, f.n) <= WideBase(f, callee);
  }

  /** The frame reaches from the frame pointer past the saved registers and every cell. */
  ghost predicate Holds(f: Slots, callee: nat, frame: int) {
    frame >= callee && forall s | HasCell(f, s) :: 0 - frame <= Cell(f, callee, s)
  }

  /** The smallest frame that holds everything and keeps the stack pointer on a multiple of 16. */
  ghost predicate LeastFrame(f: Slots, callee: nat, frame: int) {
    frame % 16 == 0 && Holds(f, callee, frame) && forall g | g % 16 == 0 && Holds(f, callee, g) :: frame <= g
  }

  /** No cell is left out between the saved registers and the last one: the j-th cell of its kind is where the cells
      before it end. */
  lemma {:induction false} NthScalar(f: Slots, k: nat, j: nat) returns (s: nat)
    requires j < Scalars(f, k) && k <= f.n
    ensures s < k && IsScalar(f, s) && Scalars(f, s) == j
    decreases k
  {
    if j == Scalars(f, k - 1) {
      s := k - 1;
    } else {
      s := NthScalar(f, k - 1, j);
    }
  }

  lemma {:induction false} NthWide(f: Slots, k: nat, j: nat) returns (s: nat)
    requires j < Wides(f, k) && k <= f.n
    ensures s < k && IsWide(f, s) && Wides(f, s) == j
    decreases k
  {
    if j == Wides(f, k - 1) {
      s := k - 1;
    } else {
      s := NthWide(f, k - 1, j);
    }
  }

  /** Some scalar, or wide, slot's cell ends right below the offset `top`. */
  ghost predicate ScalarUnder(f: Slots, callee: nat, top: int) {
    exists s: nat :: IsScalar(f, s) && Cell(f, callee, s) + 8 == top
  }

  ghost predicate WideUnder(f: Slots, callee: nat, top: int) {
    exists s: nat :: IsWide(f, s) && Cell(f, callee, s) + 16 == top
  }

  lemma NoGaps(f: Slots, callee: nat, base: int)
    requires base % 16 == 0 && callee + 8 * Scalars(f, f.n) <= base < callee + 8 * Scalars(f, f.n) + 16
    ensures forall j: nat | j < Scalars(f, f.n) :: ScalarUnder(f, callee, 0 - callee - 8 * j)
    ensures forall j: nat | j < Wides(f, f.n) :: WideUnder(f, callee, 0 - base - 16 * j)
  {
    forall j: nat | j < Scalars(f, f.n) ensures ScalarUnder(f, callee, 0 - callee - 8 * j) {
      var s := NthScalar(f, f.n, j);
      assert IsScalar(f, s) && Cell(f, callee, s) + 8 == 0 - callee - 8 * j;
    }
    assert base == WideBase(f, callee);
    forall j: nat | j < Wides(f, f.n) ensures WideUnder(f, callee, 0 - base - 16 * j) {
      var s := NthWide(f, f.n, j);
      assert IsWide(f, s) && Cell(f, callee, s) + 16 == 0 - base - 16 * j;
    }
  }

  /** Cells go down in the order of their slots, wide ones below the others. */
  lemma CellsInOrder(f: Slots, callee: nat, s: nat, t: nat)
    requires HasCell(f, s) && HasCell(f, t)
    ensures s < t && (s in f.wide <==> t in f.wide) ==> Cell(f, callee, t) < Cell(f, callee, s)
    ensures s !in f.wide && t in f.wide ==> Cell(f, callee, t) < Cell(f, callee, s)
  {
    if s < t {
      CountsGrow(f, s, t);
    }
    CountsGrow(f, s, f.n);
    hide Scalars, Wides;
    assert callee + 8 * Scalars(f, f.n) <= WideBase(f, callee);
  }

  lemma LeastIsFrameSize(f: Slots, callee: nat)
    ensures LeastFrame(f, callee, FrameSize(f, callee))
  {
    hide IsScalar, IsWide;
    forall s | HasCell(f, s) ensures 0 - FrameSize(f, callee) <= Cell(f, callee, s) {
      CellInside(f, callee, s);
    }
    assert callee + 8 * Scalars(f, f.n) <= WideBase(f, callee) <= FrameSize(f, callee);
    forall g: int | g % 16 == 0 && Holds(f, callee, g) ensures FrameSize(f, callee) <= g {
      NoSmaller(f, callee, g);
    }
  }

  lemma NoSmaller(f: Slots, callee: nat, g: int)
    requires g % 16 == 0 && Holds(f, callee, g)
    ensures FrameSize(f, callee) <= g
  {
    if Wides(f, f.n) > 0 {
      var s := NthWide(f, f.n, Wides(f, f.n) - 1);
      assert HasCell(f, s) && s in f.wide;
      assert 0 - g <= Cell(f, callee, s);
    } else if Scalars(f, f.n) > 0 {
      var s := NthScalar(f, f.n, Scalars(f, f.n) - 1);
      assert HasCell(f, s) && s !in f.wide;
      assert 0 - g <= Cell(f, callee, s);
    }
  }

  method IsAliased(rep: map<nat, nat>, s: nat) returns (r: bool)
    ensures r == Aliased(rep, s)
  {
    var id := if s in rep then rep[s] else s;
    for t := 0 to s
      invariant forall u | 0 <= u < t :: !(u in rep && rep[u] == id)
    {
      if t in rep && rep[t] == id {
        return true;
      }
    }
    r := false;
  }

  /** Instructions that lower the stack pointer by a constant, and all others. */
  datatype Inst = FrameSub(imm: int) | Other(id: int)

  /** Every adjustment now makes room for the frame below the saved registers. */
  ghost predicate Adjusted(code: seq<Inst>, code': seq<Inst>, below: int) {
    |code'| == |code| && forall i | 0 <= i < |code| :: code'[i] == if code[i].FrameSub? then FrameSub(below) else code[i]
  }

  /** Cells for the scalar slots, then 16-byte aligned cells for the wide ones; the code's frame adjustments follow. */
  method Layout(f: Slots, callee: nat, code: seq<Inst>) returns (offset: map<nat, int>, frame: int, code': seq<Inst>)
    ensures Adjusted(code, code', frame - callee)
    ensures forall s: nat :: s in offset <==> HasCell(f, s)
    ensures forall s | s in offset :: offset[s] == Cell(f, callee, s)
    ensures frame == FrameSize(f, callee) && LeastFrame(f, callee, frame)
  {
    hide Aliased;
    LeastIsFrameSize(f, callee);
    offset := map[];
    var distinct := 0;
    for s := 0 to f.n
      invariant distinct == Scalars(f, s)
      invariant forall t: nat :: t in offset <==> t < s && IsScalar(f, t)
      invariant forall t | t in offset :: offset[t] == Cell(f, callee, t)
    {
      var aliased := IsAliased(f.rep, s);
      if s !in f.wide && s in f.inMemory && !aliased {
        offset := offset[s := -(callee + 8 * (distinct + 1))];
        distinct := distinct + 1;
      }
    }
    var base: int := Align16(callee + 8 * distinct);
    var count := 0;
    for s := 0 to f.n
      invariant count == Wides(f, s)
      invariant forall t: nat :: t in offset <==> IsScalar(f, t) || (t < s && IsWide(f, t))
      invariant forall t | t in offset :: offset[t] == Cell(f, callee, t)
    {
      if s in f.wide && s in f.inMemory {
        offset := offset[s := -(base + 16 * (count + 1))];
        count := count + 1;
      }
    }
    frame := Align16(base + 16 * count);
    code' := [];
    for i := 0 to |code|
      invariant Adjusted(code[..i], code', frame - callee)
    {
      code' := code' + [if code[i].FrameSub? then FrameSub(frame - callee) else code[i]];
      assert code[..i + 1] == code[..i] + [code[i]];
    }
    assert code[..|code|] == code;
  }

  /** What recolouring guarantees of the renaming. */
  ghost predicate ToLeast(rep: map<nat, nat>) {
    forall s | s in rep :: rep[s] < s && rep[s] !in rep
  }

  /** Ids left in the code are never aliased, so each has its own cell ... */
  lemma NamedHasCell(f: Slots, s: nat)
    requires ToLeast(f.rep) && s !in f.rep && s < f.n && s in f.inMemory
    ensures HasCell(f, s)
  {
    forall t | t in f.rep && t < s ensures f.rep[t] != s {
      assert f.rep[t] < t;
    }
  }

  /** ... but so has the first of the slots renamed to an id, though nothing names it any more. */
  lemma FirstAliasHasCell(f: Slots, s: nat)
    requires s in f.rep && s < f.n && s in f.inMemory && forall t | t in f.rep && f.rep[t] == f.rep[s] :: s <= t
    ensures HasCell(f, s)
  {
  }

  /** The renaming is about scalar slots in memory. */
  ghost predicate OnScalars(f: Slots) {
    forall s | s in f.rep :: s < f.n && s in f.inMemory && s !in f.wide
  }

  /** Scalar ids below k left in the code. */
  ghost function NamedIds(f: Slots, k: nat): set<nat> {
    set s: nat | s < k && s in f.inMemory && s !in f.wide && s !in f.rep
  }

  /** Ids that slots below k were renamed to. */
  ghost function SharedIds(f: Slots, k: nat): set<nat> {
    set s: nat | s < k && s in f.rep :: f.rep[s]
  }

  ghost function RenamedSlots(f: Slots, k: nat): set<nat> {
    set s: nat | s < k && s in f.rep
  }

  function Unrenamed(f: Slots): Slots {
    f.(rep := map[])
  }

  lemma RenamedSlotCell(f: Slots, s: nat)
    requires OnScalars(f) && s in f.rep
    ensures IsScalar(f, s) <==> f.rep[s] !in SharedIds(f, s)
    ensures NamedIds(f, s + 1) == NamedIds(f, s) && SharedIds(f, s + 1) == SharedIds(f, s) + {f.rep[s]}
    ensures RenamedSlots(f, s + 1) == RenamedSlots(f, s) + {s} && s !in RenamedSlots(f, s)
  {
  }

  lemma NamedSlotCell(f: Slots, s: nat)
    requires ToLeast(f.rep) && s !in f.rep && s < f.n
    ensures IsScalar(f, s) <==> s in f.inMemory && s !in f.wide
    ensures NamedIds(f, s + 1) == (if IsScalar(f, s) then NamedIds(f, s) + {s} else NamedIds(f, s)) && s !in NamedIds(f, s)
    ensures SharedIds(f, s + 1) == SharedIds(f, s) && RenamedSlots(f, s + 1) == RenamedSlots(f, s)
  {
    forall t | t in f.rep && t < s ensures f.rep[t] != s {
      assert f.rep[t] < t;
    }
  }

  lemma {:induction false} CellCounts(f: Slots, k: nat)
    requires ToLeast(f.rep) && OnScalars(f) && k <= f.n
    ensures Scalars(f, k) == |NamedIds(f, k)| + |SharedIds(f, k)|
  {
    if k > 0 {
      var s := k - 1;
      CellCounts(f, s);
      hide NamedIds, RenamedSlots, IsScalar, SharedIds;
      if s in f.rep {
        RenamedSlotCell(f, s);
        assert f.rep[s] in SharedIds(f, s) ==> SharedIds(f, s) + {f.rep[s]} == SharedIds(f, s);
      } else {
        NamedSlotCell(f, s);
      }
    }
  }

  lemma {:induction false} CellsWithoutRenaming(f: Slots, k: nat)
    requires ToLeast(f.rep) && OnScalars(f) && k <= f.n
    ensures Scalars(Unrenamed(f), k) == |NamedIds(f, k)| + |RenamedSlots(f, k)|
  {
    if k > 0 {
      var s, g := k - 1, Unrenamed(f);
      CellsWithoutRenaming(f, s);
      NamedSlotCell(g, s);
      hide NamedIds, RenamedSlots, IsScalar, SharedIds;
      if s in f.rep {
        RenamedSlotCell(f, s);
      } else {
        NamedSlotCell(f, s);
        assert IsScalar(g, s) <==> IsScalar(f, s);
      }
    }
  }

  /** The layout wastes one cell for every shared id: it makes one for each scalar id left in the code and another for
      each id some slot was renamed to. So a renaming saves as many cells as it renames slots, less the ids it
      renames them to; sharing between just two slots saves nothing. */
  lemma SharedIdsWasteCells(f: Slots)
    requires ToLeast(f.rep) && OnScalars(f)
    ensures Scalars(f, f.n) == |NamedIds(f, f.n)| + |f.rep.Values|
    ensures Scalars(f, f.n) == Scalars(Unrenamed(f), f.n) - |f.rep| + |f.rep.Values|
  {
    CellCounts(f, f.n);
    CellsWithoutRenaming(f, f.n);
    assert RenamedSlots(f, f.n) == f.rep.Keys && SharedIds(f, f.n) == f.rep.Values;
    assert |f.rep| == |f.rep.Keys|;
  }
}
