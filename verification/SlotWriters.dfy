/** When, exactly, a renaming of slots preserves all runs: at every load, the last store under the loaded slot's new
    name stored what the last store to the slot itself did. */
module SlotWriters {
  import opened Options
  import opened SlotCode
  import opened CodeNeeds
  import opened SlotLiveness
  import opened SlotRecolor

  /** Where the contents of a slot come from: the frame at the start, or a store by this instruction in this state. */
  datatype Writer = Start | By(i: Inst, state: int)

  /** Who wrote last under each name, n instructions into the run. */
  ghost function Writers(code: seq<Inst>, rep: map<nat, nat>, m: Machine, esc: set<nat>, c: Cfg, n: nat): (r: seq<Writer>)
    ensures |r| == |c.mem|
  {
    if n == 0 then seq(|c.mem|, _ => Start)
    else Written1(code, rep, Run(code, m, esc, c, n - 1), Writers(code, rep, m, esc, c, n - 1))
  }

  /** One instruction's effect on the record. */
  ghost function Written1(code: seq<Inst>, rep: map<nat, nat>, d: Cfg, w: seq<Writer>): (r: seq<Writer>)
    ensures |r| == |w|
  {
    if d.pc < |code| && SlotDef(code[d.pc]).Some? && Remap(rep, SlotDef(code[d.pc]).value) < |w| then
      w[Remap(rep, SlotDef(code[d.pc]).value) := By(Bare(code[d.pc]), d.state)]
    else w
  }

  /** A load of slot t, whose address nobody takes. */
  predicate Loads(code: seq<Inst>, p: nat, t: nat) {
    p < |code| && SlotDef(code[p]).None? && !TakesAddress(code[p]) && SlotUse(code[p]) == Some(t)
  }

  ghost predicate SameWriterAt(code: seq<Inst>, rep: map<nat, nat>, m: Machine, c: Cfg, n: nat, t: nat) {
    var d := Run(code, m, Escaped(code), c, n);
    Loads(code, d.pc, t) && t !in Escaped(code) && t < |c.mem| && Remap(rep, t) < |c.mem| ==>
      Writers(code, map[], m, Escaped(code), c, n)[t] == Writers(code, rep, m, Escaped(code), c, n)[Remap(rep, t)]
  }

  /** In every run of the code, from any frame that can be renamed, every load finds under the new name what the last
      store to the slot left. */
  ghost predicate SameWriters(code: seq<Inst>, rep: map<nat, nat>, slots: nat) {
    forall m: Machine, c: Cfg, c': Cfg, n: nat, t: nat | Matching(code, rep, slots, c, c') :: SameWriterAt(code, rep, m, c, n, t)
  }

  /** A renaming within the frame that leaves slots reachable through addresses to themselves. */
  ghost predicate Renames(code: seq<Inst>, rep: map<nat, nat>, slots: nat) {
    && CodeOk(code, slots) && KeepsEscaped(rep, Escaped(code))
    && (forall s: nat | s < slots :: Remap(rep, s) < slots)
  }

  lemma {:induction false} RunSnoc(code: seq<Inst>, m: Machine, esc: set<nat>, c: Cfg, n: nat)
    ensures var d := Run(code, m, esc, c, n);
            Run(code, m, esc, c, n + 1) == if Step(code, m, esc, d).Some? then Step(code, m, esc, d).value else d
    decreases n
  {
    hide Step;
    var d := Step(code, m, esc, c);
    if d.Some? {
      if n > 0 {
        RunSnoc(code, m, esc, d.value, n - 1);
      } else {
        assert Run(code, m, esc, d.value, 0) == d.value;
      }
    }
  }

  // ---------------------------------------------------------------------
  // same writers, same runs
  // ---------------------------------------------------------------------

  /** v is what the writer left in a cell that held `start` at first. */
  ghost predicate LeftBy(m: Machine, start: int, w: Writer, v: int) {
    v == if w.Start? then start else m.stored(w.i, w.state)
  }

  ghost predicate AllLeftBy(m: Machine, esc: set<nat>, start: seq<int>, w: seq<Writer>, mem: seq<int>) {
    |start| == |w| == |mem| && forall t: nat | t < |mem| && t !in esc :: LeftBy(m, start[t], w[t], mem[t])
  }

  ghost predicate EscapedSame(esc: set<nat>, mem: seq<int>, mem': seq<int>) {
    |mem| == |mem'| && forall s | s in esc && s < |mem| :: mem[s] == mem'[s]
  }

  /** What is needed and still as it was at the start, was needed at the start. */
  ghost predicate FromStart(code: seq<Inst>, esc: set<nat>, w: seq<Writer>, p: nat) {
    forall t: nat | t < |w| && t !in esc && w[t].Start? && Needed(SlotUses(), code, p, t) :: Needed(SlotUses(), code, 0, t)
  }

  /** Two runs side by side, with the record of who wrote what. */
  ghost predicate Together(code: seq<Inst>, rep: map<nat, nat>, m: Machine, c: Cfg, c': Cfg, d: Cfg, d': Cfg, w: seq<Writer>, w': seq<Writer>) {
    && d'.pc == d.pc && d'.state == d.state
    && AllLeftBy(m, Escaped(code), c.mem, w, d.mem) && AllLeftBy(m, Escaped(code), c'.mem, w', d'.mem)
    && EscapedSame(Escaped(code), d.mem, d'.mem) && FromStart(code, Escaped(code), w, d.pc)
  }

  lemma StoreTogether(esc: set<nat>, rep: map<nat, nat>, s: nat, i: Inst, state: int, m: Machine, start: seq<int>, w: seq<Writer>, mem: seq<int>)
    requires AllLeftBy(m, esc, start, w, mem) && s < |mem|
    ensures AllLeftBy(m, esc, start, w[s := By(i, state)], mem[s := m.stored(i, state)])
  {
  }

  lemma OtherTogether(esc: set<nat>, m: Machine, start: seq<int>, w: seq<Writer>, mem: seq<int>, out: map<nat, int>)
    requires AllLeftBy(m, esc, start, w, mem)
    ensures AllLeftBy(m, esc, start, w, Written(mem, esc, out))
  {
  }

  lemma SameView(esc: set<nat>, mem: seq<int>, mem': seq<int>, out: map<nat, int>)
    requires EscapedSame(esc, mem, mem')
    ensures View(mem, esc) == View(mem', esc) && EscapedSame(esc, Written(mem, esc, out), Written(mem', esc, out))
  {
  }

  /** The value loaded is the same under both names. */
  lemma LoadTogether(code: seq<Inst>, rep: map<nat, nat>, slots: nat, m: Machine, c: Cfg, c': Cfg, d: Cfg, d': Cfg, w: seq<Writer>, w': seq<Writer>, t: nat)
    requires Renames(code, rep, slots) && Matching(code, rep, slots, c, c') && Together(code, rep, m, c, c', d, d', w, w')
    requires Loads(code, d.pc, t) && t < slots && |d.mem| == slots && |d'.mem| == slots
    requires t !in Escaped(code) ==> w[t] == w'[Remap(rep, t)]
    ensures d'.mem[Remap(rep, t)] == d.mem[t]
  {
    var esc, r := Escaped(code), Remap(rep, t);
    if t in esc {
      assert r == t;
    } else {
      assert r !in esc;
      assert LeftBy(m, c.mem[t], w[t], d.mem[t]) && LeftBy(m, c'.mem[r], w'[r], d'.mem[r]);
      if w[t].Start? {
        NeedsBefore(SlotUses(), code, d.pc, t);
        assert !IsLabel(code[d.pc]);
        assert t in NeededSlots(code, 0, slots);
        AgreesOn(rep, NeededSlots(code, 0, slots) + esc, c.mem, c'.mem, t);
      }
    }
  }

  lemma NeedsLinger(code: seq<Inst>, esc: set<nat>, w: seq<Writer>, d: Cfg, q: nat)
    requires FromStart(code, esc, w, d.pc) && d.pc < |code| && Succeeds(code, d.pc, q)
    requires SlotDef(code[d.pc]).Some? ==> SlotDef(code[d.pc]).value < |w|
    ensures FromStart(code, esc, Written1(code, map[], d, w), q)
  {
    var w1 := Written1(code, map[], d, w);
    forall t: nat | t < |w1| && t !in esc && w1[t].Start? && Needed(SlotUses(), code, q, t) ensures Needed(SlotUses(), code, 0, t) {
      assert SlotDef(code[d.pc]) != Some(t) && w[t].Start?;
      NeedsBefore(SlotUses(), code, d.pc, t);
    }
  }

  /** One instruction keeps the two runs together. */
  lemma StepTogether(code: seq<Inst>, rep: map<nat, nat>, slots: nat, m: Machine, c: Cfg, c': Cfg, d: Cfg, d': Cfg, w: seq<Writer>, w': seq<Writer>)
    requires Renames(code, rep, slots) && Matching(code, rep, slots, c, c') && Together(code, rep, m, c, c', d, d', w, w') && |c.mem| == slots
    requires forall t: nat | Loads(code, d.pc, t) && t !in Escaped(code) && t < slots :: w[t] == w'[Remap(rep, t)]
    ensures var e, e' := Step(code, m, Escaped(code), d), Step(Renamed(code, rep), m, Escaped(code), d');
            && e.Some? == e'.Some?
            && Together(code, rep, m, c, c', if e.Some? then e.value else d, if e'.Some? then e'.value else d',
                        Written1(code, map[], d, w), Written1(code, rep, d, w'))
  {
    hide Together, Matching, Agrees, Effect, Target, Written1, CodeOk, KeepsEscaped;
    TogetherSizes(code, rep, slots, m, c, c', d, d', w, w');
    if d.pc >= |code| || IsReturn(code[d.pc]) {
      NothingWritten(code, map[], d, w);
      NothingWritten(code, rep, d, w');
    } else {
      if Jumps(m, code[d.pc], d.state) {
        RenamedTarget(code, rep, d.pc);
        JumpTogether(code, rep, slots, m, c, c', d, d', w, w');
      } else {
        EffectTogether(code, rep, slots, m, c, c', d, d', w, w');
      }
    }
  }

  lemma NothingWritten(code: seq<Inst>, rep: map<nat, nat>, d: Cfg, w: seq<Writer>)
    requires d.pc >= |code| || IsReturn(code[d.pc])
    ensures Written1(code, rep, d, w) == w
  {
  }

  lemma TogetherSizes(code: seq<Inst>, rep: map<nat, nat>, slots: nat, m: Machine, c: Cfg, c': Cfg, d: Cfg, d': Cfg, w: seq<Writer>, w': seq<Writer>)
    requires Together(code, rep, m, c, c', d, d', w, w') && |c.mem| == slots
    ensures d'.pc == d.pc && d'.state == d.state && |d.mem| == |d'.mem| == |w| == |w'| == slots
  {
  }

  lemma JumpTogether(code: seq<Inst>, rep: map<nat, nat>, slots: nat, m: Machine, c: Cfg, c': Cfg, d: Cfg, d': Cfg, w: seq<Writer>, w': seq<Writer>)
    requires Together(code, rep, m, c, c', d, d', w, w') && d.pc < |code| && IsBranch(code[d.pc])
    ensures Written1(code, map[], d, w) == w && Written1(code, rep, d, w') == w'
    ensures var t := Target(code, code[d.pc]);
            t.Some? ==> Together(code, rep, m, c, c', d.(pc := t.value), d'.(pc := t.value), w, w')
  {
    if Target(code, code[d.pc]).Some? {
      assert Succeeds(code, d.pc, Target(code, code[d.pc]).value);
      NeedsLinger(code, Escaped(code), w, d, Target(code, code[d.pc]).value);
    }
  }

  lemma EffectTogether(code: seq<Inst>, rep: map<nat, nat>, slots: nat, m: Machine, c: Cfg, c': Cfg, d: Cfg, d': Cfg, w: seq<Writer>, w': seq<Writer>)
    requires Renames(code, rep, slots) && Matching(code, rep, slots, c, c') && Together(code, rep, m, c, c', d, d', w, w')
    requires |d.mem| == |d'.mem| == |w| == |w'| == slots && d'.state == d.state
    requires d.pc < |code| && !IsReturn(code[d.pc]) && !Jumps(m, code[d.pc], d.state)
    requires forall t: nat | Loads(code, d.pc, t) && t !in Escaped(code) && t < slots :: w[t] == w'[Remap(rep, t)]
    ensures var i, esc := code[d.pc], Escaped(code);
            var e, e' := Effect(i, m, esc, d.state, d.mem), Effect(RemapInst(rep, i), m, esc, d.state, d'.mem);
            && e.Some? && e'.Some?
            && Together(code, rep, m, c, c', Cfg(d.pc + 1, e.value.0, e.value.1), Cfg(d.pc + 1, e'.value.0, e'.value.1),
                        Written1(code, map[], d, w), Written1(code, rep, d, w'))
  {
    var i, esc := code[d.pc], Escaped(code);
    assert InstOk(i, slots);
    assert Succeeds(code, d.pc, d.pc + 1);
    NeedsLinger(code, esc, w, d, d.pc + 1);
    EffectBySlots(i, m, esc, d.state, d.mem);
    EffectBySlots(RemapInst(rep, i), m, esc, d.state, d'.mem);
    hide FromStart, Matching, Agrees, CodeOk, Effect;
    if SlotDef(i).Some? {
      var s := SlotDef(i).value;
      StoreTogether(esc, rep, s, Bare(i), d.state, m, c.mem, w, d.mem);
      StoreTogether(esc, rep, Remap(rep, s), Bare(i), d.state, m, c'.mem, w', d'.mem);
    } else if TakesAddress(i) {
      assert i.b.s in esc;
    } else if SlotUse(i).Some? {
      LoadTogether(code, rep, slots, m, c, c', d, d', w, w', SlotUse(i).value);
    } else if !i.op.Jcc? && !IsLabel(i) {
      var (s1, out) := m.other(Bare(i), d.state, View(d.mem, esc));
      SameView(esc, d.mem, d'.mem, out);
      OtherTogether(esc, m, c.mem, w, d.mem, out);
      OtherTogether(esc, m, c'.mem, w', d'.mem, out);
    }
  }

  lemma {:induction false} RunsTogether(code: seq<Inst>, rep: map<nat, nat>, slots: nat, m: Machine, c: Cfg, c': Cfg, n: nat)
    requires Renames(code, rep, slots) && SameWriters(code, rep, slots) && Matching(code, rep, slots, c, c')
    ensures Together(code, rep, m, c, c', Run(code, m, Escaped(code), c, n), Run(Renamed(code, rep), m, Escaped(code), c', n),
                     Writers(code, map[], m, Escaped(code), c, n), Writers(code, rep, m, Escaped(code), c, n))
    decreases n
  {
    var esc := Escaped(code);
    hide Together, Step, Matching, SameWriters, Renames, Run, Written1;
    if n == 0 {
      StartTogether(code, rep, slots, m, c, c');
    } else {
      RunsTogether(code, rep, slots, m, c, c', n - 1);
      RunSnoc(code, m, esc, c, n - 1);
      RunSnoc(Renamed(code, rep), m, esc, c', n - 1);
      WritersAgree(code, rep, slots, m, c, c', n - 1);
      StepTogether(code, rep, slots, m, c, c', Run(code, m, esc, c, n - 1), Run(Renamed(code, rep), m, esc, c', n - 1),
                   Writers(code, map[], m, esc, c, n - 1), Writers(code, rep, m, esc, c, n - 1));
    }
  }

  lemma WritersAgree(code: seq<Inst>, rep: map<nat, nat>, slots: nat, m: Machine, c: Cfg, c': Cfg, n: nat)
    requires Renames(code, rep, slots) && SameWriters(code, rep, slots) && Matching(code, rep, slots, c, c')
    ensures |c.mem| == slots && forall t: nat | t < slots :: Remap(rep, t) < slots
    ensures forall t: nat | Loads(code, Run(code, m, Escaped(code), c, n).pc, t) && t !in Escaped(code) && t < slots ::
              Writers(code, map[], m, Escaped(code), c, n)[t] == Writers(code, rep, m, Escaped(code), c, n)[Remap(rep, t)]
  {
    hide Run, Agrees, CodeOk, Loads;
    forall t: nat | Loads(code, Run(code, m, Escaped(code), c, n).pc, t) && t !in Escaped(code) && t < slots
      ensures Writers(code, map[], m, Escaped(code), c, n)[t] == Writers(code, rep, m, Escaped(code), c, n)[Remap(rep, t)]
    {
      assert SameWriterAt(code, rep, m, c, n, t);
    }
  }

  lemma StartTogether(code: seq<Inst>, rep: map<nat, nat>, slots: nat, m: Machine, c: Cfg, c': Cfg)
    requires Renames(code, rep, slots) && Matching(code, rep, slots, c, c')
    ensures Together(code, rep, m, c, c', Run(code, m, Escaped(code), c, 0), Run(Renamed(code, rep), m, Escaped(code), c', 0),
                     Writers(code, map[], m, Escaped(code), c, 0), Writers(code, rep, m, Escaped(code), c, 0))
  {
    forall s | s in Escaped(code) && s < |c.mem| ensures c.mem[s] == c'.mem[s] {
      AgreesOn(rep, NeededSlots(code, 0, slots) + Escaped(code), c.mem, c'.mem, s);
    }
  }

  lemma TogetherEnds(code: seq<Inst>, rep: map<nat, nat>, m: Machine, c: Cfg, c': Cfg, d: Cfg, d': Cfg, w: seq<Writer>, w': seq<Writer>)
    requires Together(code, rep, m, c, c', d, d', w, w')
    ensures SameEnd(Escaped(code), d, d')
  {
  }

  lemma SameWritersRunSame(code: seq<Inst>, rep: map<nat, nat>, slots: nat)
    requires Renames(code, rep, slots) && SameWriters(code, rep, slots)
    ensures SameRuns(code, rep, slots)
  {
    hide Run, Matching, SameWriters, Together, SameEnd, Renames;
    forall m: Machine, c: Cfg, c': Cfg, n: nat | Matching(code, rep, slots, c, c')
      ensures SameEnd(Escaped(code), Run(code, m, Escaped(code), c, n), Run(Renamed(code, rep), m, Escaped(code), c', n))
    {
      RunsTogether(code, rep, slots, m, c, c', n);
      TogetherEnds(code, rep, m, c, c', Run(code, m, Escaped(code), c, n), Run(Renamed(code, rep), m, Escaped(code), c', n),
                   Writers(code, map[], m, Escaped(code), c, n), Writers(code, rep, m, Escaped(code), c, n));
    }
  }

  // ---------------------------------------------------------------------
  // same runs, same writers: a machine that marks what one writer stores
  // ---------------------------------------------------------------------

  function Halves(w: map<nat, int>): map<nat, int> {
    map s | s in w :: w[s] / 2
  }

  function Doubles(w: map<nat, int>): map<nat, int> {
    map s | s in w :: 2 * w[s]
  }

  /** The machine m on doubled values. What `who` stores is odd, everything else even; the state's parity is that of
      the last value loaded. */
  ghost function Marking(m: Machine, who: Writer): Machine
    requires who.By?
  {
    Machine((i: Inst, s: int) => 2 * m.stored(i, s / 2) + if By(i, s / 2) == who then 1 else 0,
            (i: Inst, s: int, v: int) => 2 * m.loaded(i, s / 2, v / 2) + v % 2,
            (i: Inst, s: int, a: nat) => 2 * m.addressed(i, s / 2, a),
            (i: Inst, s: int, w: map<nat, int>) => var (s1, out) := m.other(i, s / 2, Halves(w)); (2 * s1, Doubles(out)),
            (i: Inst, s: int) => m.taken(i, s / 2))
  }

  function Doubled(mem: seq<int>): (r: seq<int>)
    ensures |r| == |mem| && forall t | 0 <= t < |r| :: r[t] == 2 * mem[t]
  {
    seq(|mem|, t requires 0 <= t < |mem| => 2 * mem[t])
  }

  function DoubledCfg(c: Cfg): Cfg {
    Cfg(c.pc, 2 * c.state, Doubled(c.mem))
  }

  /** e is d on doubled values, odd just where `who` wrote. */
  ghost predicate Marks(esc: set<nat>, who: Writer, d: Cfg, e: Cfg, w: seq<Writer>) {
    && e.pc == d.pc && e.state / 2 == d.state && |e.mem| == |d.mem| == |w|
    && (forall t: nat | t < |w| :: e.mem[t] / 2 == d.mem[t])
    && (forall t: nat | t < |w| && t !in esc :: e.mem[t] % 2 == 1 <==> w[t] == who)
  }

  lemma HalvedView(esc: set<nat>, who: Writer, d: Cfg, e: Cfg, w: seq<Writer>)
    requires Marks(esc, who, d, e, w)
    ensures Halves(View(e.mem, esc)) == View(d.mem, esc)
  {
    var a, b := Halves(View(e.mem, esc)), View(d.mem, esc);
    forall s | s in a || s in b ensures s in a && s in b && a[s] == b[s] {
    }
    assert a.Keys == b.Keys;
  }

  lemma MarkedOther(esc: set<nat>, who: Writer, d: Cfg, e: Cfg, w: seq<Writer>, out: map<nat, int>, s1: int)
    requires Marks(esc, who, d, e, w)
    ensures Marks(esc, who, Cfg(d.pc + 1, s1, Written(d.mem, esc, out)), Cfg(e.pc + 1, 2 * s1, Written(e.mem, esc, Doubles(out))), w)
  {
  }

  lemma StepMarks(X: seq<Inst>, m: Machine, esc: set<nat>, who: Writer, d: Cfg, e: Cfg, w: seq<Writer>)
    requires who.By? && Marks(esc, who, d, e, w)
    requires d.pc < |X| && SlotDef(X[d.pc]).Some? ==> SlotDef(X[d.pc]).value < |w|
    ensures var d1, e1 := Step(X, m, esc, d), Step(X, Marking(m, who), esc, e);
            && d1.Some? == e1.Some?
            && Marks(esc, who, if d1.Some? then d1.value else d, if e1.Some? then e1.value else e, Written1(X, map[], d, w))
  {
    hide Marks, Effect, Target, Written1;
    assert e.pc == d.pc && e.state / 2 == d.state by {
      MarksAt(esc, who, d, e, w);
    }
    if d.pc >= |X| || IsReturn(X[d.pc]) {
      NothingWritten(X, map[], d, w);
    } else {
      var i, mm := X[d.pc], Marking(m, who);
      assert Jumps(mm, i, e.state) == Jumps(m, i, d.state);
      if Jumps(m, i, d.state) {
        MarkedJump(X, esc, who, d, e, w);
      } else {
        MarkedEffect(X, m, esc, who, d, e, w);
      }
    }
  }

  lemma MarksAt(esc: set<nat>, who: Writer, d: Cfg, e: Cfg, w: seq<Writer>)
    requires Marks(esc, who, d, e, w)
    ensures e.pc == d.pc && e.state / 2 == d.state && |e.mem| == |d.mem| == |w|
  {
  }

  lemma MarkedJump(X: seq<Inst>, esc: set<nat>, who: Writer, d: Cfg, e: Cfg, w: seq<Writer>)
    requires Marks(esc, who, d, e, w) && d.pc < |X| && IsBranch(X[d.pc])
    ensures Written1(X, map[], d, w) == w && forall q: nat :: Marks(esc, who, d.(pc := q), e.(pc := q), w)
  {
  }

  lemma MarkedEffect(X: seq<Inst>, m: Machine, esc: set<nat>, who: Writer, d: Cfg, e: Cfg, w: seq<Writer>)
    requires who.By? && Marks(esc, who, d, e, w) && d.pc < |X|
    requires SlotDef(X[d.pc]).Some? ==> SlotDef(X[d.pc]).value < |w|
    ensures var d1, e1 := Effect(X[d.pc], m, esc, d.state, d.mem), Effect(X[d.pc], Marking(m, who), esc, e.state, e.mem);
            && d1.Some? == e1.Some?
            && (d1.None? ==> Written1(X, map[], d, w) == w)
            && (d1.Some? ==> Marks(esc, who, Cfg(d.pc + 1, d1.value.0, d1.value.1), Cfg(e.pc + 1, e1.value.0, e1.value.1), Written1(X, map[], d, w)))
  {
    var i := X[d.pc];
    EffectBySlots(i, m, esc, d.state, d.mem);
    EffectBySlots(i, Marking(m, who), esc, e.state, e.mem);
    hide Effect;
    if SlotDef(i).None? && !TakesAddress(i) && SlotUse(i).None? && !i.op.Jcc? && !IsLabel(i) {
      HalvedView(esc, who, d, e, w);
      var (s1, out) := m.other(Bare(i), d.state, View(d.mem, esc));
      MarkedOther(esc, who, d, e, w, out, s1);
    }
  }

  lemma StartMarks(esc: set<nat>, who: Writer, c: Cfg)
    requires who.By?
    ensures Marks(esc, who, c, DoubledCfg(c), seq(|c.mem|, _ => Start))
  {
  }

  /** The marking machine runs as the other does and marks what `who` wrote. */
  lemma {:induction false} RunMarks(X: seq<Inst>, m: Machine, esc: set<nat>, who: Writer, c: Cfg, n: nat)
    requires who.By? && forall p | 0 <= p < |X| && SlotDef(X[p]).Some? :: SlotDef(X[p]).value < |c.mem|
    ensures Marks(esc, who, Run(X, m, esc, c, n), Run(X, Marking(m, who), esc, DoubledCfg(c), n), Writers(X, map[], m, esc, c, n))
    decreases n
  {
    if n == 0 {
      StartMarks(esc, who, c);
    } else {
      hide Step, Marks, Marking, Run, Written1, DoubledCfg;
      RunMarks(X, m, esc, who, c, n - 1);
      RunSnoc(X, m, esc, c, n - 1);
      RunSnoc(X, Marking(m, who), esc, DoubledCfg(c), n - 1);
      StepMarks(X, m, esc, who, Run(X, m, esc, c, n - 1), Run(X, Marking(m, who), esc, DoubledCfg(c), n - 1), Writers(X, map[], m, esc, c, n - 1));
    }
  }

  /** While the renamed code runs as the original, its own record is the original's under the new names. */
  lemma {:induction false} RenamedWriters(code: seq<Inst>, rep: map<nat, nat>, slots: nat, m: Machine, c: Cfg, c': Cfg, n: nat)
    requires SameRuns(code, rep, slots) && Matching(code, rep, slots, c, c')
    ensures Writers(Renamed(code, rep), map[], m, Escaped(code), c', n) == Writers(code, rep, m, Escaped(code), c, n)
    decreases n
  {
    hide Run, Written1, SameRuns, Matching, Renamed;
    if n == 0 {
      MatchedSizes(code, rep, slots, c, c');
    } else {
      RenamedWriters(code, rep, slots, m, c, c', n - 1);
      EndsMatch(code, rep, slots, m, c, c', n - 1);
      RenamedWritten(code, rep, Escaped(code), Run(code, m, Escaped(code), c, n - 1), Run(Renamed(code, rep), m, Escaped(code), c', n - 1),
                     Writers(code, rep, m, Escaped(code), c, n - 1));
    }
  }

  lemma MatchedSizes(code: seq<Inst>, rep: map<nat, nat>, slots: nat, c: Cfg, c': Cfg)
    requires Matching(code, rep, slots, c, c')
    ensures |c.mem| == |c'.mem|
  {
  }

  lemma EndsMatch(code: seq<Inst>, rep: map<nat, nat>, slots: nat, m: Machine, c: Cfg, c': Cfg, n: nat)
    requires SameRuns(code, rep, slots) && Matching(code, rep, slots, c, c')
    ensures SameEnd(Escaped(code), Run(code, m, Escaped(code), c, n), Run(Renamed(code, rep), m, Escaped(code), c', n))
  {
    hide Run, Renamed;
  }

  lemma RenamedWritten(code: seq<Inst>, rep: map<nat, nat>, esc: set<nat>, d: Cfg, d': Cfg, w: seq<Writer>)
    requires SameEnd(esc, d, d')
    ensures Written1(Renamed(code, rep), map[], d', w) == Written1(code, rep, d, w)
  {
  }

  /** If nothing was stored under a slot's name, nothing was stored to the slot. */
  lemma {:induction false} NameCovers(code: seq<Inst>, rep: map<nat, nat>, m: Machine, esc: set<nat>, c: Cfg, n: nat, t: nat)
    requires t < |c.mem| && Remap(rep, t) < |c.mem|
    ensures Writers(code, rep, m, esc, c, n)[Remap(rep, t)].Start? ==> Writers(code, map[], m, esc, c, n)[t].Start?
    decreases n
  {
    if n > 0 {
      hide Run;
      NameCovers(code, rep, m, esc, c, n - 1, t);
    }
  }

  lemma DoubledMatching(code: seq<Inst>, rep: map<nat, nat>, slots: nat, c: Cfg, c': Cfg)
    requires Matching(code, rep, slots, c, c')
    ensures Matching(code, rep, slots, DoubledCfg(c), DoubledCfg(c'))
  {
    hide NeededSlots;
    var live := NeededSlots(code, 0, slots) + Escaped(code);
    forall s | s in live && s < |c.mem| ensures AgreesAt(rep, Doubled(c.mem), Doubled(c'.mem), s) {
      assert AgreesAt(rep, c.mem, c'.mem, s);
    }
  }

  /** Right after the load, the parity of the state is that of the cell. */
  lemma LoadShows(X: seq<Inst>, m: Machine, esc: set<nat>, who: Writer, e: Cfg, t: nat)
    requires who.By? && Loads(X, e.pc, t) && t < |e.mem|
    ensures var e1 := Step(X, Marking(m, who), esc, e); e1.Some? && e1.value.state % 2 == e.mem[t] % 2
  {
  }

  lemma RunsSameWriterSame(code: seq<Inst>, rep: map<nat, nat>, slots: nat, m: Machine, c: Cfg, c': Cfg, n: nat, t: nat)
    requires Renames(code, rep, slots) && SameRuns(code, rep, slots) && Matching(code, rep, slots, c, c')
    ensures SameWriterAt(code, rep, m, c, n, t)
  {
    var esc, code' := Escaped(code), Renamed(code, rep);
    var d, r := Run(code, m, esc, c, n), Remap(rep, t);
    var who := if r < |c.mem| then Writers(code, rep, m, esc, c, n)[r] else Start;
    if who.By? && Loads(code, d.pc, t) && t !in esc && t < slots {
      var mm := Marking(m, who);
      StoresInFrame(code, rep, slots);
      RunMarks(code, m, esc, who, c, n);
      RunMarks(code', m, esc, who, c', n);
      RenamedWriters(code, rep, slots, m, c, c', n);
      DoubledMatching(code, rep, slots, c, c');
      ParitySeen(code, rep, slots, m, c, c', n, t, who);
    } else if r < |c.mem| && t < |c.mem| {
      NameCovers(code, rep, m, esc, c, n, t);
    }
  }

  lemma StoresInFrame(code: seq<Inst>, rep: map<nat, nat>, slots: nat)
    requires Renames(code, rep, slots)
    ensures forall p | 0 <= p < |code| && SlotDef(code[p]).Some? :: SlotDef(code[p]).value < slots
    ensures forall p | 0 <= p < |code| && SlotDef(Renamed(code, rep)[p]).Some? :: SlotDef(Renamed(code, rep)[p]).value < slots
  {
    forall p | 0 <= p < |code| ensures InstOk(code[p], slots) {
    }
  }

  /** Both runs of the marking machine see the same parity in the cell, so `who` wrote both or neither. */
  lemma ParitySeen(code: seq<Inst>, rep: map<nat, nat>, slots: nat, m: Machine, c: Cfg, c': Cfg, n: nat, t: nat, who: Writer)
    requires Renames(code, rep, slots) && SameRuns(code, rep, slots) && who.By? && |c.mem| == |c'.mem| == slots
    requires Matching(code, rep, slots, DoubledCfg(c), DoubledCfg(c'))
    requires var d, esc := Run(code, m, Escaped(code), c, n), Escaped(code);
             && Loads(code, d.pc, t) && t !in esc && t < slots
             && Marks(esc, who, d, Run(code, Marking(m, who), esc, DoubledCfg(c), n), Writers(code, map[], m, esc, c, n))
             && Marks(esc, who, Run(Renamed(code, rep), m, esc, c', n), Run(Renamed(code, rep), Marking(m, who), esc, DoubledCfg(c'), n),
                      Writers(code, rep, m, esc, c, n))
    ensures Writers(code, map[], m, Escaped(code), c, n)[t] == who <==> Writers(code, rep, m, Escaped(code), c, n)[Remap(rep, t)] == who
  {
    var esc, code', mm, r := Escaped(code), Renamed(code, rep), Marking(m, who), Remap(rep, t);
    var e, e' := Run(code, mm, esc, DoubledCfg(c), n), Run(code', mm, esc, DoubledCfg(c'), n);
    assert SameEnd(esc, e, e');
    RunSnoc(code, mm, esc, DoubledCfg(c), n);
    RunSnoc(code', mm, esc, DoubledCfg(c'), n);
    assert SameEnd(esc, Run(code, mm, esc, DoubledCfg(c), n + 1), Run(code', mm, esc, DoubledCfg(c'), n + 1));
    assert r !in esc && r < slots;
    hide SameRuns, Run, Step, Matching, Marking;
    assert Loads(code', e'.pc, r);
    LoadShows(code, m, esc, who, e, t);
    LoadShows(code', m, esc, who, e', r);
  }

  /** The renaming preserves all runs of all machines exactly when every load finds the same writer's value. */
  lemma RenamedRunsIff(code: seq<Inst>, rep: map<nat, nat>, slots: nat)
    requires Renames(code, rep, slots)
    ensures SameRuns(code, rep, slots) <==> SameWriters(code, rep, slots)
  {
    hide SameRuns, Renames, Matching, SameWriterAt;
    if SameWriters(code, rep, slots) {
      SameWritersRunSame(code, rep, slots);
    }
    if SameRuns(code, rep, slots) {
      forall m: Machine, c: Cfg, c': Cfg, n: nat, t: nat | Matching(code, rep, slots, c, c') ensures SameWriterAt(code, rep, m, c, n, t) {
        RunsSameWriterSame(code, rep, slots, m, c, c', n, t);
      }
    }
  }

  /** So it is for what the pass finds: its renaming is within the frame and keeps escaped slots to themselves. */
  lemma RecoloredRunsIff(code: seq<Inst>, slots: nat, wide: set<nat>, promoted: set<nat>, rep: map<nat, nat>)
    requires CodeOk(code, slots)
    requires forall s | s in rep :: Candidate(code, wide, promoted, s) && Candidate(code, wide, promoted, rep[s]) && rep[s] < s < slots
    ensures SameRuns(code, rep, slots) <==> SameWriters(code, rep, slots)
  {
    assert Renames(code, rep, slots) by {
      hide CodeOk;
      forall e, t: nat | e in Escaped(code) && t != e ensures Remap(rep, e) == e && Remap(rep, t) != e {
        assert e in rep ==> Candidate(code, wide, promoted, e);
        assert t in rep ==> Candidate(code, wide, promoted, rep[t]);
      }
    }
    hide SameRuns, SameWriters, Renames;
    RenamedRunsIff(code, rep, slots);
  }

  // ---------------------------------------------------------------------
  // a store under a needed name that harms no run
  // ---------------------------------------------------------------------

  /** One instruction stores the same register to two slots, and the first is loaded. */
  function Twice(): (r: seq<Inst>)
    ensures |r| == 4
  {
    [Inst(MovRS, 7, Reg(0), Slot(0)), Inst(MovRS, 7, Reg(0), Slot(1)), Inst(MovSR, 0, Reg(0), Slot(0)), Inst(Ret, 0, Absent, Absent)]
  }

  /** Where a run of it is. */
  lemma {:induction false} TwiceRuns(m: Machine, c: Cfg, n: nat)
    requires c.pc == 0 && |c.mem| == 2
    ensures var d := Run(Twice(), m, {}, c, n); d.pc == (if n < 3 then n else 3) && (n < 3 ==> d.state == c.state) && |d.mem| == 2
    decreases n
  {
    if n > 0 {
      TwiceRuns(m, c, n - 1);
      RunSnoc(Twice(), m, {}, c, n - 1);
      hide Run;
    }
  }

  lemma TwiceWriters(m: Machine, c: Cfg)
    requires c.pc == 0 && |c.mem| == 2
    ensures Writers(Twice(), map[], m, {}, c, 2)[0] == Writers(Twice(), map[1 := 0], m, {}, c, 2)[0] == By(Bare(Twice()[0]), c.state)
  {
    TwiceRuns(m, c, 0);
    TwiceRuns(m, c, 1);
    var d0, d1 := Run(Twice(), m, {}, c, 0), Run(Twice(), m, {}, c, 1);
    hide Run;
    assert Writers(Twice(), map[], m, {}, c, 1) == Written1(Twice(), map[], d0, Writers(Twice(), map[], m, {}, c, 0));
    assert Writers(Twice(), map[1 := 0], m, {}, c, 1) == Written1(Twice(), map[1 := 0], d0, Writers(Twice(), map[1 := 0], m, {}, c, 0));
  }

  /** The second store overwrites, under its new name, a slot still needed, and yet no run of any machine changes: no
      condition on names and needs alone is exact. */
  lemma EqualStoresHarmNothing()
    ensures var code, rep := Twice(), map[1 := 0]; CodeOk(code, 2) && !StoresAlone(code, rep, 2) && SameRuns(code, rep, 2)
  {
    var code, rep := Twice(), map[1 := 0];
    assert Escaped(code) == {};
    assert 0 in NeededSlots(code, 2, 2) by {
      NeedsBefore(SlotUses(), code, 2, 0);
    }
    assert Inside(code, 1) && SlotDef(code[1]) == Some(1) && !Alone(rep, NeededSlots(code, 2, 2) + Escaped(code), 1);
    forall m: Machine, c: Cfg, n: nat, t: nat | c.pc == 0 && |c.mem| == 2 ensures SameWriterAt(code, rep, m, c, n, t) {
      TwiceRuns(m, c, n);
      if n == 2 {
        TwiceWriters(m, c);
      }
    }
    hide SameRuns, SameWriterAt, StoresAlone;
    RenamedRunsIff(code, rep, 2);
  }
}
