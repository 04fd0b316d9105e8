/** Machine code over numbered stack slots, and what running it means. */
module SlotCode {
  import opened Options

  datatype Op = MovRS | MovFpS | MovSImm | MovSR | MovFpR | LeaSlot | CmpRImm
              | Label | Jmp | Jcc | Ret | RetNaked | TailCallFn | TailCallNaked | Other

  datatype Operand = Absent | Reg(r: int) | Imm(v: int) | Slot(s: nat) | Lab(l: int)

  /** `tag` stands for everything else an instruction says: size, condition, arithmetic. */
  datatype Inst = Inst(op: Op, tag: int, a: Operand, b: Operand)

  /** The slot an instruction stores to. */
  function SlotDef(i: Inst): Option<nat> {
    if (i.op.MovRS? || i.op.MovFpS?) && i.b.Slot? then Some(i.b.s)
    else if i.op.MovSImm? && i.a.Slot? then Some(i.a.s)
    else None
  }

  /** The slot an instruction reads or takes the address of, a compare folded with its load included. */
  function SlotUse(i: Inst): Option<nat> {
    if (i.op.MovSR? || i.op.MovFpR?) && i.b.Slot? then Some(i.b.s)
    else if i.op.LeaSlot? && i.b.Slot? then Some(i.b.s)
    else if i.op.CmpRImm? && i.a.Slot? then Some(i.a.s)
    else None
  }

  predicate TakesAddress(i: Inst) {
    i.op.LeaSlot? && i.b.Slot?
  }

  /** The slots the instruction touches. */
  function Touched(i: Inst): (r: set<nat>)
    ensures forall s :: s in r <==> SlotDef(i) == Some(s) || SlotUse(i) == Some(s)
  {
    (if SlotDef(i).Some? then {SlotDef(i).value} else {}) + (if SlotUse(i).Some? then {SlotUse(i).value} else {})
  }

  predicate IsLabel(i: Inst) {
    i.op.Label?
  }

  predicate IsReturn(i: Inst) {
    i.op.Ret? || i.op.RetNaked? || i.op.TailCallFn? || i.op.TailCallNaked?
  }

  predicate IsBranch(i: Inst) {
    i.op.Jmp? || i.op.Jcc?
  }

  /** Every slot operand is one the slot analysis sees, and labels name themselves. */
  predicate InstOk(i: Inst, slots: nat) {
    && (i.a.Slot? ==> i.a.s < slots && (i.op.MovSImm? || i.op.CmpRImm?))
    && (i.b.Slot? ==> i.b.s < slots && (i.op.MovRS? || i.op.MovFpS? || i.op.MovSR? || i.op.MovFpR? || i.op.LeaSlot?))
    && (IsLabel(i) ==> i.a.Lab?)
  }

  /** Moves into and out of slots, and taking an address, name their slot second, a store of an immediate and a
      compare first; nothing else names one. */
  lemma FormsAdmitted(op: Op, tag: int, s: nat, slots: nat, x: Operand)
    requires s < slots && !x.Slot? && (op.Label? ==> x.Lab?)
    ensures InstOk(Inst(op, tag, x, Slot(s)), slots) <==> op in {MovRS, MovFpS, MovSR, MovFpR, LeaSlot}
    ensures InstOk(Inst(op, tag, Slot(s), x), slots) <==> op in {MovSImm, CmpRImm}
    ensures InstOk(Inst(op, tag, x, x), slots)
  {
  }

  ghost predicate CodeOk(code: seq<Inst>, slots: nat) {
    && (forall i | 0 <= i < |code| :: InstOk(code[i], slots))
    && (forall i, j | 0 <= i < j < |code| && IsLabel(code[i]) && IsLabel(code[j]) :: code[i].a != code[j].a)
  }

  /** Slots whose address is taken somewhere: memory operations may reach them. */
  ghost function Escaped(code: seq<Inst>): (r: set<nat>)
    ensures forall s :: s in r <==> exists i :: 0 <= i < |code| && TakesAddress(code[i]) && code[i].b.s == s
  {
    set i | 0 <= i < |code| && TakesAddress(code[i]) :: code[i].b.s
  }

  // ---------------------------------------------------------------------
  // running
  // ---------------------------------------------------------------------

  /** What instructions do apart from naming slots; the rest of the machine is an opaque state. An
      instruction that names no slot may still read and write the slots whose address was taken. */
  datatype Machine = Machine(
    stored: (Inst, int) -> int,
    loaded: (Inst, int, int) -> int,
    addressed: (Inst, int, nat) -> int,
    other: (Inst, int, map<nat, int>) -> (int, map<nat, int>),
    taken: (Inst, int) -> bool)

  datatype Cfg = Cfg(pc: nat, state: int, mem: seq<int>)

  /** The instruction with its slot operands blanked. */
  function Bare(i: Inst): Inst {
    i.(a := if i.a.Slot? then Slot(0) else i.a, b := if i.b.Slot? then Slot(0) else i.b)
  }

  ghost function View(mem: seq<int>, esc: set<nat>): map<nat, int> {
    map s | s in esc && s < |mem| :: mem[s]
  }

  ghost function Written(mem: seq<int>, esc: set<nat>, w: map<nat, int>): (r: seq<int>)
    ensures |r| == |mem|
    ensures forall s: nat | s < |mem| :: r[s] == if s in esc && s in w then w[s] else mem[s]
  {
    seq(|mem|, s requires 0 <= s < |mem| => if s in esc && s in w then w[s] else mem[s])
  }

  /** Where a label stands. */
  function LabelAt(code: seq<Inst>, l: int, from: nat): (r: Option<nat>)
    ensures r.Some? ==> from <= r.value < |code| && IsLabel(code[r.value]) && code[r.value].a == Lab(l)
    ensures r.None? ==> forall i | from <= i < |code| && IsLabel(code[i]) :: code[i].a != Lab(l)
    decreases |code| - from
  {
    if from >= |code| then None
    else if IsLabel(code[from]) && code[from].a == Lab(l) then Some(from)
    else LabelAt(code, l, from + 1)
  }

  function Target(code: seq<Inst>, i: Inst): Option<nat> {
    if i.a.Lab? then LabelAt(code, i.a.l, 0) else None
  }

  ghost function StoreTo(i: Inst, s: nat, m: Machine, state: int, mem: seq<int>): Option<(int, seq<int>)> {
    if s < |mem| then Some((state, mem[s := m.stored(Bare(i), state)])) else None
  }

  ghost function LoadFrom(i: Inst, s: nat, m: Machine, state: int, mem: seq<int>): Option<(int, seq<int>)> {
    if s < |mem| then Some((m.loaded(Bare(i), state, mem[s]), mem)) else None
  }

  ghost function DoOther(i: Inst, m: Machine, esc: set<nat>, state: int, mem: seq<int>): Option<(int, seq<int>)> {
    var (after, w) := m.other(Bare(i), state, View(mem, esc));
    Some((after, Written(mem, esc, w)))
  }

  /** What an instruction that is no taken branch and no return does to state and slots: a register or an
      immediate is moved into a slot, a slot is moved into a register or compared with an immediate, the
      address of a slot is taken, control goes on, or something is done that names no slot. */
  ghost function Effect(i: Inst, m: Machine, esc: set<nat>, state: int, mem: seq<int>): Option<(int, seq<int>)> {
    match (i.op, i.a, i.b)
    case (MovRS, _, Slot(s)) => StoreTo(i, s, m, state, mem)
    case (MovFpS, _, Slot(s)) => StoreTo(i, s, m, state, mem)
    case (MovSImm, Slot(s), _) => StoreTo(i, s, m, state, mem)
    case (MovSR, _, Slot(s)) => LoadFrom(i, s, m, state, mem)
    case (MovFpR, _, Slot(s)) => LoadFrom(i, s, m, state, mem)
    case (CmpRImm, Slot(s), _) => LoadFrom(i, s, m, state, mem)
    case (LeaSlot, _, Slot(s)) => Some((m.addressed(Bare(i), state, s), mem))
    case (Label, _, _) => Some((state, mem))
    case (Jcc, _, _) => Some((state, mem))
    case (_, _, _) => DoOther(i, m, esc, state, mem)
  }

  /** The slots recognised as defined, used and addressed are those the instruction stores to, loads and
      takes the address of. */
  lemma EffectBySlots(i: Inst, m: Machine, esc: set<nat>, state: int, mem: seq<int>)
    ensures Effect(i, m, esc, state, mem) ==
            if SlotDef(i).Some? then StoreTo(i, SlotDef(i).value, m, state, mem)
            else if TakesAddress(i) then Some((m.addressed(Bare(i), state, i.b.s), mem))
            else if SlotUse(i).Some? then LoadFrom(i, SlotUse(i).value, m, state, mem)
            else if i.op.Jcc? || IsLabel(i) then Some((state, mem))
            else DoOther(i, m, esc, state, mem)
  {
  }

  predicate Jumps(m: Machine, i: Inst, state: int) {
    i.op.Jmp? || (i.op.Jcc? && m.taken(Bare(i), state))
  }

  /** One instruction; none when the function is left. */
  ghost function Step(code: seq<Inst>, m: Machine, esc: set<nat>, c: Cfg): Option<Cfg> {
    if c.pc >= |code| || IsReturn(code[c.pc]) then None
    else if Jumps(m, code[c.pc], c.state) then
      var t := Target(code, code[c.pc]);
      if t.Some? then Some(c.(pc := t.value)) else None
    else
      var e := Effect(code[c.pc], m, esc, c.state, c.mem);
      if e.Some? then Some(Cfg(c.pc + 1, e.value.0, e.value.1)) else None
  }

  /** Where control goes: a return and a tail call leave the function, a branch taken goes to the label it
      names, or leaves where there is none, and everything else goes on. */
  lemma StepByKind(code: seq<Inst>, slots: nat, m: Machine, esc: set<nat>, c: Cfg)
    requires CodeOk(code, slots) && |c.mem| == slots && c.pc < |code|
    ensures var i, d := code[c.pc], Step(code, m, esc, c);
            var leaves := i.op in {Ret, RetNaked, TailCallFn, TailCallNaked};
            var goes := i.op == Jmp || (i.op == Jcc && m.taken(Bare(i), c.state));
            && (d.None? <==> leaves || (goes && forall p | 0 <= p < |code| && code[p].op == Label :: !i.a.Lab? || code[p].a != i.a))
            && (d.Some? && !goes ==> d.value.pc == c.pc + 1)
            && (d.Some? && goes ==> code[d.value.pc].op == Label && code[d.value.pc].a == i.a && d.value == c.(pc := d.value.pc))
  {
    var i := code[c.pc];
    assert InstOk(i, slots);
    EffectBySlots(i, m, esc, c.state, c.mem);
    hide Effect, InstOk, CodeOk;
  }

  /** n instructions, or fewer if the function is left: then the configuration it was left in. */
  ghost function Run(code: seq<Inst>, m: Machine, esc: set<nat>, c: Cfg, n: nat): Cfg
    decreases n
  {
    if n == 0 then c
    else
      var d := Step(code, m, esc, c);
      if d.None? then c else Run(code, m, esc, d.value, n - 1)
  }

  // ---------------------------------------------------------------------
  // renaming slots
  // ---------------------------------------------------------------------

  function Remap(rep: map<nat, nat>, s: nat): nat {
    if s in rep then rep[s] else s
  }

  function RemapOperand(rep: map<nat, nat>, o: Operand): Operand {
    if o.Slot? then Slot(Remap(rep, o.s)) else o
  }

  function RemapInst(rep: map<nat, nat>, i: Inst): (r: Inst)
    ensures r.op == i.op && Bare(r) == Bare(i)
    ensures SlotDef(r) == if SlotDef(i).Some? then Some(Remap(rep, SlotDef(i).value)) else None
    ensures SlotUse(r) == if SlotUse(i).Some? then Some(Remap(rep, SlotUse(i).value)) else None
  {
    i.(a := RemapOperand(rep, i.a), b := RemapOperand(rep, i.b))
  }

  function Renamed(code: seq<Inst>, rep: map<nat, nat>): (r: seq<Inst>)
    ensures |r| == |code| && forall i | 0 <= i < |code| :: r[i] == RemapInst(rep, code[i])
  {
    seq(|code|, i requires 0 <= i < |code| => RemapInst(rep, code[i]))
  }

  lemma {:induction false} RenamedLabels(code: seq<Inst>, rep: map<nat, nat>, l: int, from: nat)
    ensures LabelAt(Renamed(code, rep), l, from) == LabelAt(code, l, from)
    decreases |code| - from
  {
    if from < |code| {
      RenamedLabels(code, rep, l, from + 1);
    }
  }
}
