/** The search for a cheaper program: every queued entry describes what its program does, and any winner
    meets the contract and is smaller than the original. */
module SuperSearch {
  import opened Options
  import opened Fingerprint
  import opened ProbeTables
  import opened SuperSeed

  // ---------------------------------------------------------------------
  // the instruction table
  // ---------------------------------------------------------------------

  /** What an instruction declares; slots are absolute ids. */
  datatype Decl = Decl(reads_: set<nat>, writes: set<nat>, slotRead: Option<int>, slotWrite: Option<int>, readsFlags: bool, writesFlags: bool)

  /** The table over an abstract alphabet of numbered instructions: simulation gives whether it went without
      fault, and the rows it leaves. */
  datatype Table = Table(
    decl: int -> Decl,
    latency: int -> int,
    valid: int -> bool,
    sim: (seq<Row>, int) -> (bool, seq<Row>))

  function Writes(d: Decl): Effects {
    Effects(d.writes, d.slotWrite, d.writesFlags)
  }

  /** Simulation writes only what is declared, four registers at most. */
  ghost predicate TableHonest(t: Table, wslots: seq<int>)
    requires |wslots| <= SLOTS
  {
    forall i: int, rows: seq<Row> | RowsOk(rows) :: HonestAt(t, wslots, i, rows)
  }

  ghost predicate HonestAt(t: Table, wslots: seq<int>, i: int, rows: seq<Row>)
    requires |wslots| <= SLOTS && RowsOk(rows)
  {
    var after := t.sim(rows, i).1;
    RowsOk(after) && SameOutside(rows, after, Covered(Writes(t.decl(i)), wslots)) && |GprsUpTo(t.decl(i).writes, GPRS)| <= 4
  }

  /** Two lanes hold the same in every location. */
  ghost predicate SameColumn(rows: seq<Row>, v: nat, w: nat)
    requires RowsOk(rows) && v < PAD && w < PAD
  {
    forall p | 0 <= p < POSITIONS :: rows[p][v] == rows[p][w]
  }

  ghost predicate PadsAlike(before: seq<Row>, after: seq<Row>)
    requires RowsOk(before) && RowsOk(after)
  {
    forall v, w | LANES <= v < PAD && LANES <= w < PAD && SameColumn(before, v, w) :: SameColumn(after, v, w)
  }

  /** Simulation treats all pad lanes alike. */
  ghost predicate LaneUniform(t: Table) {
    forall i: int, rows: seq<Row> | RowsOk(rows) && RowsOk(t.sim(rows, i).1) :: PadsAlike(rows, t.sim(rows, i).1)
  }

  /** What the vector kernel needs of the table and of the rows it starts from. */
  ghost predicate VectorOk(t: Table, start: seq<Row>) {
    RowsOk(start) && PadsUniform(start) && LaneUniform(t)
  }

  lemma PadsStayUniform(t: Table, rows: seq<Row>, i: int)
    requires LaneUniform(t) && RowsOk(rows) && PadsUniform(rows) && RowsOk(t.sim(rows, i).1)
    ensures PadsUniform(t.sim(rows, i).1)
  {
    var after := t.sim(rows, i).1;
    assert PadsAlike(rows, after);
    forall v, w | LANES <= v < PAD && LANES <= w < PAD ensures SameColumn(after, v, w) {
      assert SameColumn(rows, v, w);
    }
    forall p, v, w | 0 <= p < POSITIONS && LANES <= v < PAD && LANES <= w < PAD ensures after[p][v] == after[p][w] {
      assert SameColumn(after, v, w);
    }
  }

  /** So every state reached has uniform pads. */
  lemma {:induction false} RunKeepsPads(t: Table, wslots: seq<int>, start: seq<Row>, prog: seq<int>)
    requires |wslots| <= SLOTS && TableHonest(t, wslots) && VectorOk(t, start) && RunProg(t, start, prog).Some?
    ensures var rows := RunProg(t, start, prog).value; RowsOk(rows) && PadsUniform(rows)
  {
    hide PadsUniform, LaneUniform;
    if prog != [] {
      var before := prog[..|prog| - 1];
      RunKeepsPads(t, wslots, start, before);
      assert HonestAt(t, wslots, prog[|prog| - 1], RunProg(t, start, before).value);
      PadsStayUniform(t, RunProg(t, start, before).value, prog[|prog| - 1]);
    }
  }

  // ---------------------------------------------------------------------
  // programs
  // ---------------------------------------------------------------------

  /** Runs a program; none on a fault. */
  ghost function RunProg(t: Table, rows: seq<Row>, prog: seq<int>): Option<seq<Row>> {
    if prog == [] then Some(rows)
    else
      var before := RunProg(t, rows, prog[..|prog| - 1]);
      if before.None? then None
      else
        var (ok, after) := t.sim(before.value, prog[|prog| - 1]);
        if ok then Some(after) else None
  }

  ghost function Cost(t: Table, prog: seq<int>): int {
    if prog == [] then 0 else Cost(t, prog[..|prog| - 1]) + t.latency(prog[|prog| - 1])
  }

  /** What holds a defined value after a program. */
  datatype Avail = Avail(gprs: set<nat>, slots: set<int>, flags: bool)

  function Defines(a: Avail, d: Decl, wslots: seq<int>): Avail {
    Avail(a.gprs + d.writes, a.slots + (if d.slotWrite.Some? && d.slotWrite.value in wslots then {d.slotWrite.value} else {}), a.flags || d.writesFlags)
  }

  ghost function AvailAfter(t: Table, wslots: seq<int>, start: Avail, prog: seq<int>): Avail {
    if prog == [] then start
    else Defines(AvailAfter(t, wslots, start, prog[..|prog| - 1]), t.decl(prog[|prog| - 1]), wslots)
  }

  /** The instruction reads only what is defined. */
  predicate ReadsDefined(a: Avail, d: Decl) {
    && d.reads_ <= a.gprs && (d.readsFlags ==> a.flags)
    && (d.slotRead.Some? ==> d.slotRead.value in a.slots)
  }

  /** The definedness rule: no instruction of the program reads an undefined register, slot or flag. */
  ghost predicate Obeys(t: Table, wslots: seq<int>, start: Avail, prog: seq<int>) {
    forall k | 0 <= k < |prog| :: ReadsDefined(AvailAfter(t, wslots, start, prog[..k]), t.decl(prog[k]))
  }

  /** Some instruction of the program writes the register. */
  ghost predicate WritesReg(t: Table, prog: seq<int>, g: nat) {
    exists j :: 0 <= j < |prog| && g in t.decl(prog[j]).writes
  }

  ghost predicate WritesSlot(t: Table, prog: seq<int>, s: int) {
    exists j :: 0 <= j < |prog| && t.decl(prog[j]).slotWrite == Some(s)
  }

  ghost predicate WritesFlags(t: Table, prog: seq<int>) {
    exists j :: 0 <= j < |prog| && t.decl(prog[j]).writesFlags
  }

  /** After a program just that is available which was at the start or which it has written. */
  lemma {:induction false} AvailIs(t: Table, wslots: seq<int>, start: Avail, prog: seq<int>)
    ensures var a := AvailAfter(t, wslots, start, prog);
            && (forall g :: g in a.gprs <==> g in start.gprs || WritesReg(t, prog, g))
            && (forall s :: s in a.slots <==> s in start.slots || (s in wslots && WritesSlot(t, prog, s)))
            && (a.flags <==> start.flags || WritesFlags(t, prog))
  {
    if prog != [] {
      var m := |prog| - 1;
      AvailIs(t, wslots, start, prog[..m]);
      assert prog == prog[..m] + [prog[m]];
      WritesLast(t, prog[..m], prog[m]);
    }
  }

  lemma WritesLast(t: Table, prog: seq<int>, i: int)
    ensures forall g :: WritesReg(t, prog + [i], g) <==> WritesReg(t, prog, g) || g in t.decl(i).writes
    ensures forall s :: WritesSlot(t, prog + [i], s) <==> WritesSlot(t, prog, s) || t.decl(i).slotWrite == Some(s)
    ensures WritesFlags(t, prog + [i]) <==> WritesFlags(t, prog) || t.decl(i).writesFlags
  {
    var more := prog + [i];
    forall g ensures WritesReg(t, more, g) <==> WritesReg(t, prog, g) || g in t.decl(i).writes {
      if WritesReg(t, prog, g) {
        var j :| 0 <= j < |prog| && g in t.decl(prog[j]).writes;
        assert more[j] == prog[j];
      }
      assert more[|prog|] == i;
    }
    forall s ensures WritesSlot(t, more, s) <==> WritesSlot(t, prog, s) || t.decl(i).slotWrite == Some(s) {
      if WritesSlot(t, prog, s) {
        var j :| 0 <= j < |prog| && t.decl(prog[j]).slotWrite == Some(s);
        assert more[j] == prog[j];
      }
      assert more[|prog|] == i;
    }
    if WritesFlags(t, prog) {
      var j :| 0 <= j < |prog| && t.decl(prog[j]).writesFlags;
      assert more[j] == prog[j];
    }
    assert more[|prog|] == i;
  }

  /** What a program that obeys the rule reads was there at the start or written before. */
  lemma ObeysMeans(t: Table, wslots: seq<int>, start: Avail, prog: seq<int>)
    ensures Obeys(t, wslots, start, prog) <==> forall k | 0 <= k < |prog| :: ReadsGiven(t, wslots, start, prog, k)
  {
    forall k | 0 <= k < |prog|
      ensures ReadsDefined(AvailAfter(t, wslots, start, prog[..k]), t.decl(prog[k])) <==> ReadsGiven(t, wslots, start, prog, k)
    {
      ReadsGivenAt(t, wslots, start, prog, k);
    }
  }

  lemma ReadsGivenAt(t: Table, wslots: seq<int>, start: Avail, prog: seq<int>, k: nat)
    requires k < |prog|
    ensures ReadsDefined(AvailAfter(t, wslots, start, prog[..k]), t.decl(prog[k])) <==> ReadsGiven(t, wslots, start, prog, k)
  {
    hide AvailAfter, WritesReg, WritesSlot, WritesFlags;
    AvailIs(t, wslots, start, prog[..k]);
    var a, d := AvailAfter(t, wslots, start, prog[..k]), t.decl(prog[k]);
    assert d.reads_ <= a.gprs <==> forall g | g in d.reads_ :: g in start.gprs || WritesReg(t, prog[..k], g) by {
      forall g ensures g in a.gprs <==> g in start.gprs || WritesReg(t, prog[..k], g) {
      }
    }
    if d.slotRead.Some? {
      var s := d.slotRead.value;
      assert s in a.slots <==> s in start.slots || (s in wslots && WritesSlot(t, prog[..k], s));
    }
    assert a.flags <==> start.flags || WritesFlags(t, prog[..k]);
  }

  ghost predicate ReadsGiven(t: Table, wslots: seq<int>, start: Avail, prog: seq<int>, k: nat)
    requires k < |prog|
  {
    var d := t.decl(prog[k]);
    && (forall g | g in d.reads_ :: g in start.gprs || WritesReg(t, prog[..k], g))
    && (d.slotRead.Some? ==> d.slotRead.value in start.slots || (d.slotRead.value in wslots && WritesSlot(t, prog[..k], d.slotRead.value)))
    && (d.readsFlags ==> start.flags || WritesFlags(t, prog[..k]))
  }

  lemma ObeysLonger(t: Table, wslots: seq<int>, start: Avail, prog: seq<int>, i: int)
    requires Obeys(t, wslots, start, prog) && ReadsDefined(AvailAfter(t, wslots, start, prog), t.decl(i))
    ensures Obeys(t, wslots, start, prog + [i])
  {
    var more := prog + [i];
    forall k | 0 <= k < |more| ensures ReadsDefined(AvailAfter(t, wslots, start, more[..k]), t.decl(more[k])) {
      if k < |prog| {
        assert more[..k] == prog[..k];
      } else {
        assert more[..k] == prog;
      }
    }
  }

  // ---------------------------------------------------------------------
  // contracts
  // ---------------------------------------------------------------------

  /** Locations that must match at the window's end: positions of registers and slots, and the flags together. */
  datatype Contract = Contract(rows: seq<nat>, flags: bool)

  ghost predicate ContractWf(c: Contract) {
    forall i | 0 <= i < |c.rows| :: c.rows[i] < 21
  }

  predicate RowMatches(a: Row, b: Row, n: nat)
    requires n <= |a| && n <= |b|
  {
    forall v | 0 <= v < n :: a[v] == b[v]
  }

  predicate FlagsMatch(a: seq<Row>, b: seq<Row>)
    requires |a| == |b| == POSITIONS && forall p | 0 <= p < POSITIONS :: |a[p]| == |b[p]| == PAD
  {
    forall p | 21 <= p < POSITIONS :: RowMatches(a[p], b[p], LANES)
  }

  /** The goal test. */
  predicate ContractOk(a: seq<Row>, b: seq<Row>, c: Contract)
    requires |a| == |b| == POSITIONS && (forall p | 0 <= p < POSITIONS :: |a[p]| == |b[p]| == PAD)
    requires forall i | 0 <= i < |c.rows| :: c.rows[i] < 21
  {
    (forall i | 0 <= i < |c.rows| :: RowMatches(a[c.rows[i]], b[c.rows[i]], LANES)) && (c.flags ==> FlagsMatch(a, b))
  }

  /** How many of the contract's locations match already. */
  function RowsMatched(a: seq<Row>, b: seq<Row>, rows: seq<nat>): nat
    requires |a| == |b| == POSITIONS && (forall p | 0 <= p < POSITIONS :: |a[p]| == |b[p]| == PAD)
    requires forall i | 0 <= i < |rows| :: rows[i] < 21
  {
    if rows == [] then 0
    else RowsMatched(a, b, rows[..|rows| - 1]) + if RowMatches(a[rows[|rows| - 1]], b[rows[|rows| - 1]], LANES) then 1 else 0
  }

  function ContractMatches(a: seq<Row>, b: seq<Row>, c: Contract): nat
    requires |a| == |b| == POSITIONS && (forall p | 0 <= p < POSITIONS :: |a[p]| == |b[p]| == PAD)
    requires forall i | 0 <= i < |c.rows| :: c.rows[i] < 21
  {
    RowsMatched(a, b, c.rows) + if c.flags && FlagsMatch(a, b) then 1 else 0
  }

  /** A state that matches all locations is a goal, and only such a state. */
  lemma FullMatchIsGoal(a: seq<Row>, b: seq<Row>, c: Contract)
    requires RowsOk(a) && RowsOk(b) && ContractWf(c)
    ensures ContractMatches(a, b, c) <= |c.rows| + (if c.flags then 1 else 0)
    ensures ContractOk(a, b, c) <==> ContractMatches(a, b, c) == |c.rows| + if c.flags then 1 else 0
  {
    AllRowsMatched(a, b, c.rows);
  }

  lemma {:induction false} AllRowsMatched(a: seq<Row>, b: seq<Row>, rows: seq<nat>)
    requires RowsOk(a) && RowsOk(b) && forall i | 0 <= i < |rows| :: rows[i] < 21
    ensures RowsMatched(a, b, rows) <= |rows|
    ensures RowsMatched(a, b, rows) == |rows| <==> forall i | 0 <= i < |rows| :: RowMatches(a[rows[i]], b[rows[i]], LANES)
  {
    if rows != [] {
      var m := |rows| - 1;
      AllRowsMatched(a, b, rows[..m]);
      assert forall i | 0 <= i < m :: rows[..m][i] == rows[i];
    }
  }

  // ---------------------------------------------------------------------
  // the window and the search state
  // ---------------------------------------------------------------------

  /** One window to improve, and the budgets. */
  datatype Window = Window(table: Table, z: seq<Row>, wslots: seq<int>, seed: seq<Row>, goal: seq<Row>, contract: Contract,
                           start: Avail, origCost: int, origLen: nat, maxGrowth: nat, states: nat, pops: nat, perPop: nat, perWindow: nat)

  ghost predicate WindowOk(w: Window) {
    && |w.wslots| <= SLOTS && TableOk(w.z) && RowsOk(w.seed) && RowsOk(w.goal) && ContractWf(w.contract)
    && TableHonest(w.table, w.wslots) && w.origLen + w.maxGrowth + 1 <= 40 && w.states + 8 < TWO32
  }

  /** A program is stored as its last instruction and the node of the rest; node 0 is the empty program. */
  datatype Node = Node(inst: int, parent: nat)

  ghost predicate ArenaOk(arena: seq<Node>) {
    arena != [] && forall k | 0 < k < |arena| :: arena[k].parent < k
  }

  ghost function ProgramOf(arena: seq<Node>, node: nat): seq<int>
    requires ArenaOk(arena) && node < |arena|
    decreases node
  {
    if node == 0 then [] else ProgramOf(arena, arena[node].parent) + [arena[node].inst]
  }

  lemma {:induction false} ProgramStays(arena: seq<Node>, n: Node, node: nat)
    requires ArenaOk(arena) && ArenaOk(arena + [n]) && node < |arena|
    ensures ProgramOf(arena + [n], node) == ProgramOf(arena, node)
    decreases node
  {
    if node > 0 {
      ProgramStays(arena, n, arena[node].parent);
    }
  }

  datatype Entry = Entry(cost: int, len: nat, seq_: nat, node: nat, avail: Avail, matched: nat, fp: bv64)

  /** The entry tells the truth about its program: everything in it is what replaying the program from the
      seed gives, and the program is within the limits. */
  ghost predicate EntryOk(w: Window, arena: seq<Node>, e: Entry)
    requires WindowOk(w) && ArenaOk(arena)
  {
    && e.node < |arena| && e.seq_ == e.node
    && var prog := ProgramOf(arena, e.node);
    && Describes(w, prog, e)
  }

  ghost predicate Describes(w: Window, prog: seq<int>, e: Entry)
    requires WindowOk(w)
  {
    var st := RunProg(w.table, w.seed, prog);
    && st.Some? && RowsOk(st.value) && e.fp == Fp(w.z, st.value, Hashed(|w.wslots|))
    && e.matched == ContractMatches(st.value, w.goal, w.contract)
    && e.cost == Cost(w.table, prog) && e.len == |prog| && e.avail == AvailAfter(w.table, w.wslots, w.start, prog)
    && Obeys(w.table, w.wslots, w.start, prog)
    && (prog != [] ==> e.cost <= w.origCost) && e.len <= w.origLen + w.maxGrowth
  }

  ghost predicate QueueOk(w: Window, arena: seq<Node>, queue: seq<Entry>)
    requires WindowOk(w) && ArenaOk(arena)
  {
    forall k | 0 <= k < |queue| :: EntryOk(w, arena, queue[k])
  }

  lemma EntryStays(w: Window, arena: seq<Node>, n: Node, e: Entry)
    requires WindowOk(w) && ArenaOk(arena) && ArenaOk(arena + [n]) && EntryOk(w, arena, e)
    ensures EntryOk(w, arena + [n], e)
  {
    ProgramStays(arena, n, e.node);
  }

  /** Pop order: most matches, then lowest cost, shortest, oldest. */
  predicate Before(a: Entry, b: Entry) {
    if a.matched != b.matched then a.matched > b.matched
    else if a.cost != b.cost then a.cost < b.cost
    else if a.len != b.len then a.len < b.len
    else a.seq_ < b.seq_
  }

  /** Takes an entry with the most matches, of those one of lowest cost, of those one of the shortest, of those
      the oldest. */
  method Pop(queue: seq<Entry>) returns (e: Entry, rest: seq<Entry>)
    requires queue != []
    ensures e in queue && forall q | q in queue :: q.matched <= e.matched
    ensures forall q | q in queue && q.matched == e.matched :: e.cost <= q.cost
    ensures forall q | q in queue && q.matched == e.matched && q.cost == e.cost :: e.len <= q.len
    ensures forall q | q in queue && q.matched == e.matched && q.cost == e.cost && q.len == e.len :: e.seq_ <= q.seq_
    ensures multiset(queue) == multiset(rest) + multiset{e}
  {
    var best := 0;
    for i := 1 to |queue|
      invariant 0 <= best < |queue| && forall k | 0 <= k < i :: !Before(queue[k], queue[best])
    {
      if Before(queue[i], queue[best]) {
        best := i;
      }
    }
    e, rest := queue[best], queue[..best] + queue[best + 1..];
    assert queue == queue[..best] + [queue[best]] + queue[best + 1..];
  }

  /** The program of a node, read off parent by parent into a fixed buffer of forty and turned round. */
  method Rebuild(arena: seq<Node>, node: nat) returns (prog: seq<int>)
    requires ArenaOk(arena) && node < |arena| && |ProgramOf(arena, node)| <= 40
    ensures prog == ProgramOf(arena, node)
  {
    ghost var p := ProgramOf(arena, node);
    var buf := new int[40];
    var n := 0;
    var at: nat := node;
    while at != 0 && n < 40
      invariant 0 <= n <= 40 && at < |arena| && n <= |p| && ProgramOf(arena, at) == p[..|p| - n]
      invariant forall j | 0 <= j < n :: buf[j] == p[|p| - 1 - j]
      decreases at
    {
      buf[n] := arena[at].inst;
      n := n + 1;
      at := arena[at].parent;
    }
    assert n == |p|;
    var a := 0;
    while a < n / 2
      invariant 0 <= a <= n / 2
      invariant forall j | 0 <= j < a || n - a <= j < n :: buf[j] == p[j]
      invariant forall j | a <= j < n - a :: buf[j] == p[n - 1 - j]
    {
      buf[a], buf[n - 1 - a] := buf[n - 1 - a], buf[a];
      a := a + 1;
    }
    prog := buf[..n];
  }

  /** Replays a program from the seed. */
  method Replay(w: Window, prog: seq<int>) returns (rows: seq<Row>)
    requires WindowOk(w) && RunProg(w.table, w.seed, prog).Some?
    ensures RunProg(w.table, w.seed, prog) == Some(rows) && RowsOk(rows)
  {
    rows := w.seed;
    for k := 0 to |prog|
      invariant RunProg(w.table, w.seed, prog[..k]) == Some(rows) && RowsOk(rows)
    {
      PrefixRuns(w.table, w.seed, prog, k + 1);
      assert prog[..k + 1][..k] == prog[..k];
      assert HonestAt(w.table, w.wslots, prog[k], rows);
      rows := w.table.sim(rows, prog[k]).1;
    }
    assert prog[..|prog|] == prog;
  }

  lemma {:induction false} PrefixRuns(t: Table, rows: seq<Row>, prog: seq<int>, k: nat)
    requires k <= |prog| && RunProg(t, rows, prog).Some?
    ensures RunProg(t, rows, prog[..k]).Some?
    decreases |prog|
  {
    if k == |prog| {
      assert prog[..k] == prog;
    } else {
      PrefixRuns(t, rows, prog[..|prog| - 1], k);
      assert prog[..|prog| - 1][..k] == prog[..k];
    }
  }

  /** Writes whole rows into the simulated machine. */
  method Load(st: array2<bv64>, rows: seq<Row>)
    requires st.Length0 == POSITIONS && st.Length1 == PAD && RowsOk(rows)
    modifies st
    ensures RowsOf(st) == rows
  {
    for p := 0 to POSITIONS
      invariant forall q | 0 <= q < p :: RowsOf(st)[q] == rows[q]
    {
      WriteRow(st, p, rows[p]);
    }
  }

  /** What one more instruction makes of an entry. */
  function Child(w: Window, e: Entry, i: int, node: nat, seq_: nat, matched: nat, fp: bv64): Entry {
    Entry(e.cost + w.table.latency(i), e.len + 1, seq_, node, Defines(e.avail, w.table.decl(i), w.wslots), matched, fp)
  }

  /** The child tells the truth about the longer program. */
  lemma ChildDescribes(w: Window, prog: seq<int>, e: Entry, i: int, node: nat, seq_: nat, rows: seq<Row>, fp: bv64)
    requires WindowOk(w) && Describes(w, prog, e) && RunProg(w.table, w.seed, prog) == Some(rows) && RowsOk(rows)
    requires ReadsDefined(e.avail, w.table.decl(i)) && w.table.sim(rows, i).0
    requires e.cost + w.table.latency(i) <= w.origCost && e.len + 1 <= w.origLen + w.maxGrowth
    requires RowsOk(w.table.sim(rows, i).1) && fp == Fp(w.z, w.table.sim(rows, i).1, Hashed(|w.wslots|))
    ensures Describes(w, prog + [i], Child(w, e, i, node, seq_, ContractMatches(w.table.sim(rows, i).1, w.goal, w.contract), fp))
  {
    hide Fp, Hashed, ContractMatches;
    var more := prog + [i];
    assert more[..|more| - 1] == prog;
    ObeysLonger(w.table, w.wslots, w.start, prog, i);
  }

  /** The candidate is an instruction that reads only defined values and keeps within the limits. */
  predicate Admissible(w: Window, e: Entry, i: int) {
    && w.table.valid(i) && ReadsDefined(e.avail, w.table.decl(i))
    && e.cost + w.table.latency(i) <= w.origCost && e.len + 1 <= w.origLen + w.maxGrowth
  }

  /** What a construction leaves of arena, queue and recorded costs, given the state it started from. The
      child's fingerprint is that of the whole new state. */
  ghost predicate Constructed(w: Window, e: Entry, i: int, seq_: nat, rows: seq<Row>, arena: seq<Node>, queue: seq<Entry>, costs: map<nat, int>,
                              arena': seq<Node>, queue': seq<Entry>, costs': map<nat, int>, count: nat, full: bool)
    requires WindowOk(w) && RowsOk(rows)
  {
    var (ok, after) := w.table.sim(rows, i);
    && RowsOk(after)
    && var fp := Fp(w.z, after, Hashed(|w.wslots|));
    var cost := e.cost + w.table.latency(i);
    var better := Admissible(w, e, i) && ok && (fp as nat !in costs || cost < costs[fp as nat]);
    var child := Child(w, e, i, |arena|, seq_, ContractMatches(after, w.goal, w.contract), fp);
    && costs' == (if better then costs[fp as nat := cost] else costs)
    && full == (better && count > w.states)
    && arena' == (if better && !full then arena + [Node(i, e.node)] else arena)
    && queue' == (if better && !full then queue + [child] else queue)
  }

  /** One construction: definedness, budget, simulation in place, fingerprint, table, queue. */
  method TryCandidate(w: Window, st: array2<bv64>, arena: seq<Node>, queue: seq<Entry>, best: FlatMap, e: Entry, i: int, seq_: nat, vector: bool)
    returns (arena': seq<Node>, queue': seq<Entry>, full: bool)
    requires WindowOk(w) && ArenaOk(arena) && QueueOk(w, arena, queue) && EntryOk(w, arena, e)
    requires st.Length0 == POSITIONS && st.Length1 == PAD && RunProg(w.table, w.seed, ProgramOf(arena, e.node)) == Some(RowsOf(st))
    requires best.Valid() && best.fps.Length >= 2 * (w.states + 8) && best.count <= w.states + 1
    requires seq_ == |arena| && (vector ==> VectorOk(w.table, w.seed))
    modifies st, best, best.fps, best.costs, best.used
    ensures RowsOf(st) == old(RowsOf(st)) && arena <= arena' && ArenaOk(arena') && QueueOk(w, arena', queue') && EntryOk(w, arena', e)
    ensures ProgramOf(arena', e.node) == ProgramOf(arena, e.node)
    ensures best.Valid() && best.fps == old(best.fps) && best.costs == old(best.costs) && best.used == old(best.used)
    ensures (full ==> best.count > w.states) && (!full ==> best.count <= w.states + 1)
    ensures Constructed(w, e, i, seq_, old(RowsOf(st)), arena, queue, old(best.contents), arena', queue', best.contents, best.count, full)
  {
    hide Fp, Hashed, ContractMatches, RunProg, Obeys, AvailAfter, Cost, Covered, TableHonest, TableOk, ReadsDefined, Constructed, FlatMap.Valid, SameOutside, VectorOk, PadDrift;
    arena', queue', full := arena, queue, false;
    ghost var was := best.contents;
    var rows := ReadAll(st);
    SimWithin(w, i, rows);
    if !Admissible(w, e, i) {
      NothingPushed(w, e, i, seq_, rows, arena, queue, was, best.count);
      return;
    }
    var (ok, after) := w.table.sim(rows, i);
    if vector {
      VectorFingerprint(w, ProgramOf(arena, e.node), rows, i);
    }
    var saved, fp := Construct(w.z, st, Writes(w.table.decl(i)), w.wslots, after, e.fp, vector);
    if !ok {
      NothingPushed(w, e, i, seq_, rows, arena, queue, was, best.count);
      return;
    }
    // the table is sized so that its load gate is out of reach here
    assert 2 * best.count < best.fps.Length;
    var better := best.Improve(fp as int, e.cost + w.table.latency(i));
    if !better {
      NothingPushed(w, e, i, seq_, rows, arena, queue, was, best.count);
      return;
    }
    if best.count > w.states {
      full := true;
      SomethingPushed(w, e, i, seq_, rows, arena, queue, was, best.count);
      return;
    }
    var n := Node(i, e.node);
    var child := Child(w, e, i, |arena|, seq_, ContractMatches(after, w.goal, w.contract), fp);
    ChildDescribes(w, ProgramOf(arena, e.node), e, i, |arena|, seq_, rows, fp);
    arena' := arena + [n];
    queue' := queue + [child];
    ChildQueued(w, arena, queue, e, n, child);
    SomethingPushed(w, e, i, seq_, rows, arena, queue, was, best.count);
  }

  /** Under uniform pads the vector kernel folds what the scalar one does. */
  lemma VectorFingerprint(w: Window, prog: seq<int>, rows: seq<Row>, i: int)
    requires WindowOk(w) && VectorOk(w.table, w.seed) && RunProg(w.table, w.seed, prog) == Some(rows) && RowsOk(rows) && RowsOk(w.table.sim(rows, i).1)
    ensures PadDrift(rows, w.table.sim(rows, i).1, Covered(Writes(w.table.decl(i)), w.wslots)) == 0
  {
    hide PadsUniform, LaneUniform, PadDrift, Covered, TableHonest;
    RunKeepsPads(w.table, w.wslots, w.seed, prog);
    PadsStayUniform(w.table, rows, i);
    UniformPadsAgree(rows, w.table.sim(rows, i).1, Covered(Writes(w.table.decl(i)), w.wslots));
  }

  lemma NothingPushed(w: Window, e: Entry, i: int, seq_: nat, rows: seq<Row>, arena: seq<Node>, queue: seq<Entry>, costs: map<nat, int>, count: nat)
    requires WindowOk(w) && RowsOk(rows) && RowsOk(w.table.sim(rows, i).1)
    requires var fp := Fp(w.z, w.table.sim(rows, i).1, Hashed(|w.wslots|));
             Admissible(w, e, i) && w.table.sim(rows, i).0 ==> fp as nat in costs && costs[fp as nat] <= e.cost + w.table.latency(i)
    ensures Constructed(w, e, i, seq_, rows, arena, queue, costs, arena, queue, costs, count, false)
  {
    hide Fp, Hashed, ContractMatches;
  }

  lemma SomethingPushed(w: Window, e: Entry, i: int, seq_: nat, rows: seq<Row>, arena: seq<Node>, queue: seq<Entry>, costs: map<nat, int>, count: nat)
    requires WindowOk(w) && RowsOk(rows) && RowsOk(w.table.sim(rows, i).1) && Admissible(w, e, i) && w.table.sim(rows, i).0
    requires var fp := Fp(w.z, w.table.sim(rows, i).1, Hashed(|w.wslots|));
             fp as nat in costs ==> e.cost + w.table.latency(i) < costs[fp as nat]
    ensures var after := w.table.sim(rows, i).1;
            var fp := Fp(w.z, after, Hashed(|w.wslots|));
            var child := Child(w, e, i, |arena|, seq_, ContractMatches(after, w.goal, w.contract), fp);
            var costs' := costs[fp as nat := e.cost + w.table.latency(i)];
            if count > w.states then Constructed(w, e, i, seq_, rows, arena, queue, costs, arena, queue, costs', count, true)
            else Constructed(w, e, i, seq_, rows, arena, queue, costs, arena + [Node(i, e.node)], queue + [child], costs', count, false)
  {
    hide Fp, Hashed, ContractMatches;
  }

  lemma SimWithin(w: Window, i: int, rows: seq<Row>)
    requires WindowOk(w) && RowsOk(rows)
    ensures var after := w.table.sim(rows, i).1;
            && RowsOk(after) && SameOutside(rows, after, Covered(Writes(w.table.decl(i)), w.wslots))
            && |GprsUpTo(w.table.decl(i).writes, GPRS)| <= 4
  {
    assert HonestAt(w.table, w.wslots, i, rows);
  }

  method ReadAll(st: array2<bv64>) returns (rows: seq<Row>)
    requires st.Length0 == POSITIONS && st.Length1 == PAD
    ensures rows == RowsOf(st)
  {
    rows := [];
    for p := 0 to POSITIONS
      invariant |rows| == p && forall q | 0 <= q < p :: rows[q] == RowsOf(st)[q]
    {
      var row := ReadRow(st, p);
      rows := rows + [row];
    }
  }

  lemma ChildQueued(w: Window, arena: seq<Node>, queue: seq<Entry>, e: Entry, n: Node, child: Entry)
    requires WindowOk(w) && ArenaOk(arena) && QueueOk(w, arena, queue) && EntryOk(w, arena, e) && n == Node(n.inst, e.node)
    requires child.node == child.seq_ == |arena| && Describes(w, ProgramOf(arena, e.node) + [n.inst], child)
    ensures ArenaOk(arena + [n]) && QueueOk(w, arena + [n], queue + [child]) && EntryOk(w, arena + [n], e)
    ensures ProgramOf(arena + [n], e.node) == ProgramOf(arena, e.node)
  {
    hide Describes;
    var more := arena + [n];
    ProgramStays(arena, n, e.node);
    EntryStays(w, arena, n, e);
    assert ProgramOf(more, |arena|) == ProgramOf(more, e.node) + [n.inst];
    forall k | 0 <= k < |queue| ensures EntryOk(w, more, queue[k]) {
      EntryStays(w, arena, n, queue[k]);
    }
  }

  /** What the search promises of a winner. */
  ghost predicate Wins(w: Window, prog: seq<int>)
    requires WindowOk(w)
  {
    var st := RunProg(w.table, w.seed, prog);
    && st.Some? && RowsOk(st.value) && ContractOk(st.value, w.goal, w.contract)
    && Obeys(w.table, w.wslots, w.start, prog) && |prog| <= w.origLen + w.maxGrowth
    && Smaller(w, prog)
  }

  ghost predicate Smaller(w: Window, prog: seq<int>) {
    Cost(w.table, prog) < w.origCost || (Cost(w.table, prog) == w.origCost && |prog| < w.origLen)
  }

  /** A program that meets the contract ends the search; it wins exactly when it is smaller. */
  ghost predicate GoalFound(w: Window, prog: seq<int>, winner: Option<seq<int>>)
    requires WindowOk(w)
  {
    var st := RunProg(w.table, w.seed, prog);
    && st.Some? && RowsOk(st.value) && ContractOk(st.value, w.goal, w.contract)
    && winner == if Smaller(w, prog) then Some(prog) else None
  }

  lemma EntryFound(w: Window, arena: seq<Node>, e: Entry, rows: seq<Row>, winner: Option<seq<int>>)
    requires WindowOk(w) && ArenaOk(arena) && EntryOk(w, arena, e) && RowsOk(rows)
    requires RunProg(w.table, w.seed, ProgramOf(arena, e.node)) == Some(rows) && GoalTest(w, rows)
    requires winner == if e.cost < w.origCost || (e.cost == w.origCost && e.len < w.origLen) then Some(ProgramOf(arena, e.node)) else None
    ensures GoalFound(w, ProgramOf(arena, e.node), winner)
  {
  }

  /** Why a search ended. */
  datatype Stop = Drained | OutOfPops | TableFull | Found

  // ---------------------------------------------------------------------
  // nothing is passed over
  // ---------------------------------------------------------------------

  /** If candidate i is admissible at e, whose state is `rows`, and does not fault there, its state is on record at no
      more than its cost. */
  ghost predicate OnRecord(w: Window, e: Entry, i: int, rows: seq<Row>, costs: map<nat, int>)
    requires WindowOk(w) && RowsOk(rows)
  {
    var (ok, after) := w.table.sim(rows, i);
    RowsOk(after) && (Admissible(w, e, i) && ok ==>
      var f := Fp(w.z, after, Hashed(|w.wslots|)) as nat;
      f in costs && costs[f] <= e.cost + w.table.latency(i))
  }

  /** Records only grow, and recorded costs only fall. */
  ghost predicate CostsFall(costs: map<nat, int>, costs': map<nat, int>) {
    forall f | f in costs :: f in costs' && costs'[f] <= costs[f]
  }

  /** Whatever is recorded for the first time, or at a lower cost, is queued at that cost. */
  ghost predicate NewQueued(costs: map<nat, int>, costs': map<nat, int>, queue: seq<Entry>, queue': seq<Entry>) {
    && queue <= queue'
    && forall f | f in costs' :: (f in costs && costs'[f] == costs[f]) || QueuedFrom(queue', |queue|, f, costs'[f])
  }

  ghost predicate QueuedFrom(queue: seq<Entry>, from: nat, f: nat, cost: int) {
    exists k :: from <= k < |queue| && queue[k].fp as nat == f && queue[k].cost == cost
  }

  lemma ConstructedRecords(w: Window, e: Entry, i: int, seq_: nat, rows: seq<Row>, arena: seq<Node>, queue: seq<Entry>, costs: map<nat, int>,
                           arena': seq<Node>, queue': seq<Entry>, costs': map<nat, int>, count: nat)
    requires WindowOk(w) && RowsOk(rows) && Constructed(w, e, i, seq_, rows, arena, queue, costs, arena', queue', costs', count, false)
    ensures OnRecord(w, e, i, rows, costs') && CostsFall(costs, costs') && NewQueued(costs, costs', queue, queue')
  {
    hide Fp, Hashed, ContractMatches, Admissible, TableHonest;
    var after := w.table.sim(rows, i).1;
    var f := Fp(w.z, after, Hashed(|w.wslots|)) as nat;
    if queue' != queue {
      assert queue'[|queue|].fp as nat == f;
      assert QueuedFrom(queue', |queue|, f, queue'[|queue|].cost);
    }
  }

  lemma RecordStays(w: Window, e: Entry, i: int, rows: seq<Row>, costs: map<nat, int>, costs': map<nat, int>)
    requires WindowOk(w) && RowsOk(rows) && OnRecord(w, e, i, rows, costs) && CostsFall(costs, costs')
    ensures OnRecord(w, e, i, rows, costs')
  {
    hide Fp, Hashed, WindowOk, Admissible;
  }

  lemma NewQueuedTrans(a: map<nat, int>, b: map<nat, int>, c: map<nat, int>, q0: seq<Entry>, q1: seq<Entry>, q2: seq<Entry>)
    requires NewQueued(a, b, q0, q1) && NewQueued(b, c, q1, q2) && CostsFall(a, b) && CostsFall(b, c)
    ensures NewQueued(a, c, q0, q2) && CostsFall(a, c)
  {
    forall f | f in c && !(f in a && c[f] == a[f]) ensures QueuedFrom(q2, |q0|, f, c[f]) {
      if f in b && c[f] == b[f] {
        var k :| |q0| <= k < |q1| && q1[k].fp as nat == f && q1[k].cost == b[f];
        assert q2[k] == q1[k];
      } else {
        var k :| |q1| <= k < |q2| && q2[k].fp as nat == f && q2[k].cost == c[f];
      }
    }
  }

  /** An entry that was popped and expanded, with its program. */
  datatype Seen = Seen(prog: seq<int>, e: Entry)

  ghost predicate SeenOk(w: Window, alphabet: seq<int>, s: Seen, costs: map<nat, int>)
    requires WindowOk(w)
  {
    && Describes(w, s.prog, s.e)
    && var rows := RunProg(w.table, w.seed, s.prog).value;
    && !GoalTest(w, rows) && forall k | 0 <= k < |alphabet| && k < w.perPop :: OnRecord(w, s.e, alphabet[k], rows, costs)
  }

  ghost predicate SeenAt(seen: set<Seen>, f: nat) {
    exists s :: s in seen && s.e.fp as nat == f
  }

  ghost predicate QueuedAt(queue: seq<Entry>, f: nat) {
    exists k :: 0 <= k < |queue| && queue[k].fp as nat == f
  }

  /** Every recorded state has been expanded or is queued; every expanded state has had its candidates recorded; and
      nothing else passes for expanded. */
  ghost predicate Progress(w: Window, alphabet: seq<int>, queue: seq<Entry>, costs: map<nat, int>, expanded: set<nat>, seen: set<Seen>)
    requires WindowOk(w)
  {
    && (forall s | s in seen :: SeenOk(w, alphabet, s, costs))
    && (forall f | f in costs :: SeenAt(seen, f) || QueuedAt(queue, f))
    && (forall f | f in expanded :: SeenAt(seen, f))
  }

  lemma StaleDropped(w: Window, alphabet: seq<int>, queue: seq<Entry>, rest: seq<Entry>, e: Entry, costs: map<nat, int>, expanded: set<nat>, seen: set<Seen>)
    requires WindowOk(w) && Progress(w, alphabet, queue, costs, expanded, seen) && multiset(queue) == multiset(rest) + multiset{e}
    requires SeenAt(seen, e.fp as nat)
    ensures Progress(w, alphabet, rest, costs, expanded, seen)
  {
    hide SeenOk, WindowOk;
    forall f | f in costs && !SeenAt(seen, f) ensures QueuedAt(rest, f) {
      var k :| 0 <= k < |queue| && queue[k].fp as nat == f;
      StillQueued(queue, rest, e, k);
    }
  }

  lemma StillQueued(queue: seq<Entry>, rest: seq<Entry>, e: Entry, k: nat)
    requires multiset(queue) == multiset(rest) + multiset{e} && k < |queue| && queue[k] != e
    ensures queue[k] in rest
  {
    assert queue[k] in multiset(queue);
    assert queue[k] in multiset(rest);
  }

  /** An expansion that ran into no limit. */
  lemma ExpandedSeen(w: Window, alphabet: seq<int>, queue: seq<Entry>, rest: seq<Entry>, queue': seq<Entry>, s: Seen,
                     costs: map<nat, int>, costs': map<nat, int>, expanded: set<nat>, expanded': set<nat>, seen: set<Seen>)
    requires WindowOk(w) && Progress(w, alphabet, queue, costs, expanded, seen) && multiset(queue) == multiset(rest) + multiset{s.e}
    requires SeenOk(w, alphabet, s, costs') && CostsFall(costs, costs') && NewQueued(costs, costs', rest, queue')
    requires expanded' <= expanded + {s.e.fp as nat}
    ensures Progress(w, alphabet, queue', costs', expanded', seen + {s})
  {
    var seen' := seen + {s};
    SeenGrows(seen, s);
    hide SeenOk, WindowOk, SeenAt, NewQueued, CostsFall;
    forall t | t in seen' ensures SeenOk(w, alphabet, t, costs') {
      if t != s {
        SeenStays(w, alphabet, t, costs, costs');
      }
    }
    forall f | f in costs' && !SeenAt(seen', f) ensures QueuedAt(queue', f) {
      ReachedOn(w, alphabet, queue, rest, queue', s, costs, costs', expanded, seen, f);
    }
  }

  lemma ReachedOn(w: Window, alphabet: seq<int>, queue: seq<Entry>, rest: seq<Entry>, queue': seq<Entry>, s: Seen,
                  costs: map<nat, int>, costs': map<nat, int>, expanded: set<nat>, seen: set<Seen>, f: nat)
    requires WindowOk(w) && Progress(w, alphabet, queue, costs, expanded, seen) && multiset(queue) == multiset(rest) + multiset{s.e}
    requires NewQueued(costs, costs', rest, queue') && f in costs' && !SeenAt(seen, f) && f != s.e.fp as nat
    ensures QueuedAt(queue', f)
  {
    hide SeenOk, WindowOk, SeenAt, NewQueued;
    OnwardQueued(queue, rest, queue', s.e, costs, costs', f);
  }

  lemma OnwardQueued(queue: seq<Entry>, rest: seq<Entry>, queue': seq<Entry>, e: Entry, costs: map<nat, int>, costs': map<nat, int>, f: nat)
    requires multiset(queue) == multiset(rest) + multiset{e} && NewQueued(costs, costs', rest, queue') && f in costs' && e.fp as nat != f
    requires f in costs ==> QueuedAt(queue, f)
    ensures QueuedAt(queue', f)
  {
    if f in costs && costs'[f] == costs[f] {
      var k :| 0 <= k < |queue| && queue[k].fp as nat == f;
      StillQueued(queue, rest, e, k);
      var j :| 0 <= j < |rest| && rest[j] == queue[k];
      assert queue'[j] == rest[j];
    } else {
      var k :| |rest| <= k < |queue'| && queue'[k].fp as nat == f && queue'[k].cost == costs'[f];
    }
  }

  lemma SeenGrows(seen: set<Seen>, s: Seen)
    ensures SeenAt(seen + {s}, s.e.fp as nat) && forall f | SeenAt(seen, f) :: SeenAt(seen + {s}, f)
  {
    var seen' := seen + {s};
    assert s in seen';
    forall f | SeenAt(seen, f) ensures SeenAt(seen', f) {
      var t :| t in seen && t.e.fp as nat == f;
      assert t in seen';
    }
  }

  lemma SeenStays(w: Window, alphabet: seq<int>, s: Seen, costs: map<nat, int>, costs': map<nat, int>)
    requires WindowOk(w) && SeenOk(w, alphabet, s, costs) && CostsFall(costs, costs')
    ensures SeenOk(w, alphabet, s, costs')
  {
    var rows := RunProg(w.table, w.seed, s.prog).value;
    hide Describes, GoalTest, OnRecord, CostsFall, WindowOk;
    forall k | 0 <= k < |alphabet| && k < w.perPop ensures OnRecord(w, s.e, alphabet[k], rows, costs') {
      RecordStays(w, s.e, alphabet[k], rows, costs, costs');
    }
  }

  /** What a search that drained its queue within its limits has done: it expanded the empty program, and wherever an
      expanded state has an admissible candidate that does not fault, a state with the fingerprint of what that makes
      was expanded too; none of them is a goal. */
  ghost predicate Exhausted(w: Window, alphabet: seq<int>, seen: set<Seen>)
    requires WindowOk(w)
  {
    && (exists s :: s in seen && s.prog == [])
    && forall s | s in seen ::
         && Describes(w, s.prog, s.e) && !GoalTest(w, RunProg(w.table, w.seed, s.prog).value)
         && forall k | 0 <= k < |alphabet| && k < w.perPop :: FollowedUp(w, s, alphabet[k], seen)
  }

  ghost predicate FollowedUp(w: Window, s: Seen, i: int, seen: set<Seen>)
    requires WindowOk(w) && Describes(w, s.prog, s.e)
  {
    var (ok, after) := w.table.sim(RunProg(w.table, w.seed, s.prog).value, i);
    RowsOk(after) && (Admissible(w, s.e, i) && ok ==> SeenAt(seen, Fp(w.z, after, Hashed(|w.wslots|)) as nat))
  }

  lemma DrainedIsExhausted(w: Window, alphabet: seq<int>, costs: map<nat, int>, expanded: set<nat>, seen: set<Seen>)
    requires WindowOk(w) && Progress(w, alphabet, [], costs, expanded, seen) && exists s :: s in seen && s.prog == []
    ensures Exhausted(w, alphabet, seen)
  {
    hide Fp, Hashed, GoalTest, Admissible, SeenAt, WindowOk;
    forall s | s in seen
      ensures Describes(w, s.prog, s.e) && !GoalTest(w, RunProg(w.table, w.seed, s.prog).value)
      ensures forall k | 0 <= k < |alphabet| && k < w.perPop :: FollowedUp(w, s, alphabet[k], seen)
    {
      assert SeenOk(w, alphabet, s, costs);
      var rows := RunProg(w.table, w.seed, s.prog).value;
      forall k | 0 <= k < |alphabet| && k < w.perPop ensures FollowedUp(w, s, alphabet[k], seen) {
        assert OnRecord(w, s.e, alphabet[k], rows, costs);
      }
    }
  }

  /** Equal fingerprints of states that programs reach mean equal real lanes. */
  ghost predicate NoCollisions(w: Window)
    requires WindowOk(w)
  {
    forall p: seq<int>, q: seq<int> | RunProg(w.table, w.seed, p).Some? && RunProg(w.table, w.seed, q).Some? :: Apart(w, p, q)
  }

  ghost predicate Apart(w: Window, p: seq<int>, q: seq<int>)
    requires WindowOk(w) && RunProg(w.table, w.seed, p).Some? && RunProg(w.table, w.seed, q).Some?
  {
    var a, b := RunProg(w.table, w.seed, p).value, RunProg(w.table, w.seed, q).value;
    RowsOk(a) && RowsOk(b) && (Fp(w.z, a, Hashed(|w.wslots|)) == Fp(w.z, b, Hashed(|w.wslots|)) ==> SameLanes(a, b))
  }

  ghost predicate SameLanes(a: seq<Row>, b: seq<Row>)
    requires RowsOk(a) && RowsOk(b)
  {
    forall p, v | 0 <= p < POSITIONS && 0 <= v < LANES :: a[p][v] == b[p][v]
  }

  lemma SameLanesSameGoal(w: Window, a: seq<Row>, b: seq<Row>)
    requires WindowOk(w) && RowsOk(a) && RowsOk(b) && SameLanes(a, b)
    ensures GoalTest(w, a) == GoalTest(w, b)
  {
    forall p | 0 <= p < POSITIONS ensures RowMatches(a[p], w.goal[p], LANES) == RowMatches(b[p], w.goal[p], LANES) {
    }
  }

  /** Unless fingerprints collide, such a search leaves no valid instruction of the alphabet behind that would have won
      by itself. */
  lemma NoWinnerMissed(w: Window, alphabet: seq<int>, seen: set<Seen>, k: nat)
    requires WindowOk(w) && Exhausted(w, alphabet, seen) && NoCollisions(w)
    requires k < |alphabet| && k < w.perPop && w.table.valid(alphabet[k])
    ensures !Wins(w, [alphabet[k]])
  {
    hide *;
    if Wins(w, [alphabet[k]]) {
      var t := SeenTwin(w, alphabet, seen, k);
      SeenIsNoGoal(w, alphabet, seen, t);
      TwinsAlike(w, [alphabet[k]], t.prog);
      assert false;
    }
  }

  /** The winner's state has a fingerprint that was expanded. */
  lemma SeenTwin(w: Window, alphabet: seq<int>, seen: set<Seen>, k: nat) returns (t: Seen)
    requires WindowOk(w) && Exhausted(w, alphabet, seen) && k < |alphabet| && k < w.perPop && w.table.valid(alphabet[k]) && Wins(w, [alphabet[k]])
    ensures t in seen && RunProg(w.table, w.seed, [alphabet[k]]).Some?
    ensures var st := RunProg(w.table, w.seed, [alphabet[k]]).value;
            RowsOk(st) && GoalTest(w, st) && |w.wslots| <= SLOTS && RowsOk(w.z) && t.e.fp == Fp(w.z, st, Hashed(|w.wslots|))
  {
    hide Fp, Hashed, Wins, Admissible, Describes, GoalTest;
    var root :| root in seen && root.prog == [];
    assert FollowedUp(w, root, alphabet[k], seen);
    OneByItself(w, alphabet[k], root.e);
    assert RunProg(w.table, w.seed, []) == Some(w.seed);
    var f := Fp(w.z, w.table.sim(w.seed, alphabet[k]).1, Hashed(|w.wslots|));
    t :| t in seen && t.e.fp as nat == f as nat;
    SameWord(t.e.fp, f);
  }

  lemma SameWord(a: bv64, b: bv64)
    requires a as nat == b as nat
    ensures a == b
  {
    WordBack(a);
    WordBack(b);
  }

  lemma WordBack(a: bv64)
    ensures (a as nat) as bv64 == a
  {
  }

  /** Without collisions equal fingerprints mean the same goal test. */
  lemma TwinsAlike(w: Window, p: seq<int>, q: seq<int>)
    requires WindowOk(w) && NoCollisions(w) && RunProg(w.table, w.seed, p).Some? && RunProg(w.table, w.seed, q).Some?
    ensures var a, b := RunProg(w.table, w.seed, p).value, RunProg(w.table, w.seed, q).value;
            RowsOk(a) && RowsOk(b) && |w.wslots| <= SLOTS && RowsOk(w.z)
            && (Fp(w.z, a, Hashed(|w.wslots|)) == Fp(w.z, b, Hashed(|w.wslots|)) ==> GoalTest(w, a) == GoalTest(w, b))
  {
    hide Fp, Hashed, GoalTest, SameLanes;
    assert Apart(w, p, q);
    var a, b := RunProg(w.table, w.seed, p).value, RunProg(w.table, w.seed, q).value;
    if Fp(w.z, a, Hashed(|w.wslots|)) == Fp(w.z, b, Hashed(|w.wslots|)) {
      SameLanesSameGoal(w, a, b);
    }
  }

  lemma OneByItself(w: Window, i: int, e: Entry)
    requires WindowOk(w) && Describes(w, [], e) && Wins(w, [i]) && w.table.valid(i)
    ensures Admissible(w, e, i) && w.table.sim(w.seed, i).0 && RunProg(w.table, w.seed, [i]) == Some(w.table.sim(w.seed, i).1)
    ensures RowsOk(w.table.sim(w.seed, i).1) && GoalTest(w, w.table.sim(w.seed, i).1)
  {
    hide Fp, Hashed, ContractMatches;
    assert [i][..0] == [];
    assert RunProg(w.table, w.seed, []) == Some(w.seed);
    assert AvailAfter(w.table, w.wslots, w.start, []) == w.start;
    assert ReadsDefined(AvailAfter(w.table, w.wslots, w.start, [i][..0]), w.table.decl([i][0]));
    assert Cost(w.table, [i]) == w.table.latency(i);
  }

  lemma SeenIsNoGoal(w: Window, alphabet: seq<int>, seen: set<Seen>, t: Seen)
    requires WindowOk(w) && Exhausted(w, alphabet, seen) && t in seen
    ensures var st := RunProg(w.table, w.seed, t.prog);
            st.Some? && RowsOk(st.value) && t.e.fp == Fp(w.z, st.value, Hashed(|w.wslots|)) && !GoalTest(w, st.value)
  {
    hide Fp, Hashed, ContractMatches, FollowedUp;
  }

  /** Tries one candidate; those recorded before stay on record. */
  method TryNext(w: Window, alphabet: seq<int>, k: nat, st: array2<bv64>, arena0: seq<Node>, queue0: seq<Entry>, best: FlatMap, e: Entry, seq0: nat, vector: bool,
                 ghost costs0: map<nat, int>, ghost queue1: seq<Entry>)
    returns (arena: seq<Node>, queue: seq<Entry>, seq_: nat, full: bool)
    requires WindowOk(w) && ArenaOk(arena0) && QueueOk(w, arena0, queue0) && EntryOk(w, arena0, e) && e.node < |arena0| && k < |alphabet|
    requires st.Length0 == POSITIONS && st.Length1 == PAD && RunProg(w.table, w.seed, ProgramOf(arena0, e.node)) == Some(RowsOf(st))
    requires best.Valid() && best.fps.Length >= 2 * (w.states + 8) && best.count <= w.states + 1
    requires seq0 == |arena0| && (vector ==> VectorOk(w.table, w.seed))
    requires CostsFall(costs0, best.contents) && NewQueued(costs0, best.contents, queue1, queue0)
    requires forall m | 0 <= m < k :: OnRecord(w, e, alphabet[m], RowsOf(st), best.contents)
    modifies st, best, best.fps, best.costs, best.used
    ensures ArenaOk(arena) && QueueOk(w, arena, queue) && EntryOk(w, arena, e) && seq_ == |arena| && RowsOf(st) == old(RowsOf(st))
    ensures e.node < |arena| && RunProg(w.table, w.seed, ProgramOf(arena, e.node)) == Some(RowsOf(st))
    ensures best.Valid() && best.fps == old(best.fps) && best.costs == old(best.costs) && best.used == old(best.used)
    ensures (full ==> best.count > w.states) && (!full ==> best.count <= w.states + 1)
    ensures !full ==> CostsFall(costs0, best.contents) && NewQueued(costs0, best.contents, queue1, queue)
    ensures !full ==> forall m | 0 <= m < k + 1 :: OnRecord(w, e, alphabet[m], RowsOf(st), best.contents)
  {
    hide WindowOk, ArenaOk, QueueOk, EntryOk, RunProg, ProgramOf, VectorOk, OnRecord, CostsFall, NewQueued, Constructed, FlatMap.Valid;
    ghost var costs := best.contents;
    arena, queue, full := TryCandidate(w, st, arena0, queue0, best, e, alphabet[k], seq0, vector);
    if !full {
      OneMore(w, alphabet, k, e, seq0, RowsOf(st), arena0, queue0, costs, arena, queue, best.contents, best.count, costs0, queue1);
    }
    seq_ := seq0 + |arena| - |arena0|;
  }

  /** Enumerates the alphabet over one popped state, within the construction budgets. */
  method Expand(w: Window, alphabet: seq<int>, st: array2<bv64>, arena0: seq<Node>, queue0: seq<Entry>, best: FlatMap, e: Entry, seq0: nat, made0: nat, vector: bool)
    returns (arena: seq<Node>, queue: seq<Entry>, seq_: nat, made: nat, full: bool, spent: bool)
    requires WindowOk(w) && ArenaOk(arena0) && QueueOk(w, arena0, queue0) && EntryOk(w, arena0, e)
    requires st.Length0 == POSITIONS && st.Length1 == PAD && RunProg(w.table, w.seed, ProgramOf(arena0, e.node)) == Some(RowsOf(st))
    requires best.Valid() && best.fps.Length >= 2 * (w.states + 8) && best.count <= w.states + 1
    requires seq0 == |arena0| && (vector ==> VectorOk(w.table, w.seed))
    modifies st, best, best.fps, best.costs, best.used
    ensures ArenaOk(arena) && QueueOk(w, arena, queue)
    ensures best.Valid() && best.fps == old(best.fps) && best.costs == old(best.costs) && best.used == old(best.used)
    ensures (full ==> best.count > w.states) && (!full ==> best.count <= w.states + 1)
    ensures seq_ == |arena| && made0 <= made && (spent ==> made >= w.perWindow) && (made0 <= w.perWindow ==> made <= w.perWindow)
    ensures !full && !spent ==> made == made0 + if |alphabet| < w.perPop then |alphabet| else w.perPop
    ensures RowsOf(st) == old(RowsOf(st)) && (!full ==> CostsFall(old(best.contents), best.contents) && NewQueued(old(best.contents), best.contents, queue0, queue))
    ensures !full && !spent ==>
              forall k | 0 <= k < |alphabet| && k < w.perPop :: OnRecord(w, e, alphabet[k], old(RowsOf(st)), best.contents)
  {
    hide WindowOk, ArenaOk, QueueOk, EntryOk, RunProg, ProgramOf, VectorOk, OnRecord, CostsFall, NewQueued, Constructed, FlatMap.Valid;
    ghost var rows := RowsOf(st);
    NothingNew(best.contents, queue0);
    EntryFits(w, arena0, e);
    arena, queue, seq_, made, full, spent := arena0, queue0, seq0, made0, false, false;
    var k, here := 0, 0;
    while k < |alphabet| && here < w.perPop && !full && !spent
      invariant 0 <= k <= |alphabet| && 0 <= here <= w.perPop && seq_ == |arena| && (!full && !spent ==> here == k && made == made0 + k)
      invariant made0 <= made && (made0 <= w.perWindow ==> made <= w.perWindow) && (spent ==> made >= w.perWindow) && (full ==> best.count > w.states)
      invariant RowsOf(st) == rows && (!full ==> CostsFall(old(best.contents), best.contents) && NewQueued(old(best.contents), best.contents, queue0, queue))
      invariant !full && !spent ==> forall m | 0 <= m < k :: OnRecord(w, e, alphabet[m], rows, best.contents)
      invariant WindowOk(w) && ArenaOk(arena) && QueueOk(w, arena, queue) && EntryOk(w, arena, e)
      invariant e.node < |arena| && RunProg(w.table, w.seed, ProgramOf(arena, e.node)) == Some(RowsOf(st))
      invariant best.Valid() && best.fps == old(best.fps) && best.costs == old(best.costs) && best.used == old(best.used)
      invariant !full ==> best.count <= w.states + 1
      decreases |alphabet| - k
    {
      here := here + 1;
      if made >= w.perWindow {
        spent := true;
      } else {
        made := made + 1;
        arena, queue, seq_, full := TryNext(w, alphabet, k, st, arena, queue, best, e, seq_, vector, old(best.contents), queue0);
      }
      k := k + 1;
    }
  }

  lemma NothingNew(costs: map<nat, int>, queue: seq<Entry>)
    ensures CostsFall(costs, costs) && NewQueued(costs, costs, queue, queue)
  {
  }

  /** One more candidate on record, and those before it still are. */
  lemma OneMore(w: Window, alphabet: seq<int>, k: nat, e: Entry, seq_: nat, rows: seq<Row>, arena: seq<Node>, queue: seq<Entry>, costs: map<nat, int>,
                arena': seq<Node>, queue': seq<Entry>, costs': map<nat, int>, count: nat, costs0: map<nat, int>, queue0: seq<Entry>)
    requires WindowOk(w) && RowsOk(rows) && k < |alphabet| && CostsFall(costs0, costs) && NewQueued(costs0, costs, queue0, queue)
    requires Constructed(w, e, alphabet[k], seq_, rows, arena, queue, costs, arena', queue', costs', count, false)
    requires forall m | 0 <= m < k :: OnRecord(w, e, alphabet[m], rows, costs)
    ensures CostsFall(costs0, costs') && NewQueued(costs0, costs', queue0, queue')
    ensures forall m | 0 <= m < k + 1 :: OnRecord(w, e, alphabet[m], rows, costs')
  {
    hide WindowOk, OnRecord, CostsFall, NewQueued, Constructed;
    ConstructedRecords(w, e, alphabet[k], seq_, rows, arena, queue, costs, arena', queue', costs', count);
    NewQueuedTrans(costs0, costs, costs', queue0, queue, queue');
    forall m | 0 <= m < k + 1 ensures OnRecord(w, e, alphabet[m], rows, costs') {
      if m < k {
        RecordStays(w, e, alphabet[m], rows, costs, costs');
      }
    }
  }

  lemma StalePopped(w: Window, alphabet: seq<int>, queue: seq<Entry>, rest: seq<Entry>, e: Entry, costs: map<nat, int>, expanded: set<nat>, seen: set<Seen>)
    requires WindowOk(w) && Progress(w, alphabet, queue, costs, expanded, seen) && multiset(queue) == multiset(rest) + multiset{e}
    requires e.fp as nat in expanded
    ensures Progress(w, alphabet, rest, costs, expanded, seen)
  {
    StaleDropped(w, alphabet, queue, rest, e, costs, expanded, seen);
  }

  lemma StateSeen(w: Window, alphabet: seq<int>, arena: seq<Node>, e: Entry, prog: seq<int>, rows: seq<Row>, costs: map<nat, int>)
    requires WindowOk(w) && ArenaOk(arena) && EntryOk(w, arena, e) && prog == ProgramOf(arena, e.node)
    requires RunProg(w.table, w.seed, prog) == Some(rows) && RowsOk(rows) && !GoalTest(w, rows)
    requires forall k | 0 <= k < |alphabet| && k < w.perPop :: OnRecord(w, e, alphabet[k], rows, costs)
    ensures SeenOk(w, alphabet, Seen(prog, e), costs)
  {
  }

  /** Expands a popped state that is no goal, and puts it on the record of expanded ones. */
  method Visit(w: Window, alphabet: seq<int>, st: array2<bv64>, best: FlatMap, arena0: seq<Node>, ghost whole: seq<Entry>, queue0: seq<Entry>,
               e: Entry, prog: seq<int>, rows: seq<Row>, seq0: nat, made0: nat, vector: bool,
               ghost expanded: set<nat>, ghost expanded': set<nat>, ghost seen0: set<Seen>)
    returns (arena: seq<Node>, queue: seq<Entry>, seq_: nat, made: nat, full: bool, spent: bool, ghost seen: set<Seen>)
    requires WindowOk(w) && ArenaOk(arena0) && QueueOk(w, arena0, queue0) && EntryOk(w, arena0, e) && e.node < |arena0|
    requires prog == ProgramOf(arena0, e.node) && RunProg(w.table, w.seed, prog) == Some(rows) && RowsOk(rows) && !GoalTest(w, rows)
    requires multiset(whole) == multiset(queue0) + multiset{e} && Progress(w, alphabet, whole, best.contents, expanded, seen0)
    requires expanded' <= expanded + {e.fp as nat} && st.Length0 == POSITIONS && st.Length1 == PAD
    requires best.Valid() && best.fps.Length >= 2 * (w.states + 8) && best.count <= w.states + 1
    requires seq0 == |arena0| && (vector ==> VectorOk(w.table, w.seed))
    modifies st, best, best.fps, best.costs, best.used
    ensures ArenaOk(arena) && QueueOk(w, arena, queue)
    ensures best.Valid() && best.fps == old(best.fps) && best.costs == old(best.costs) && best.used == old(best.used)
    ensures (full ==> best.count > w.states) && (!full ==> best.count <= w.states + 1)
    ensures seq_ == |arena| && made0 <= made && (spent ==> made >= w.perWindow) && (made0 <= w.perWindow ==> made <= w.perWindow)
    ensures !full && !spent ==> Progress(w, alphabet, queue, best.contents, expanded', seen) && seen == seen0 + {Seen(prog, e)}
  {
    hide WindowOk, ArenaOk, QueueOk, EntryOk, RunProg, ProgramOf, RowsOk, GoalTest, FlatMap.Valid, VectorOk;
    hide Progress, SeenOk, SeenAt, CostsFall, NewQueued, OnRecord;
    ghost var costs := best.contents;
    Load(st, rows);
    arena, queue, seq_, made, full, spent := Expand(w, alphabet, st, arena0, queue0, best, e, seq0, made0, vector);
    seen := seen0 + {Seen(prog, e)};
    if !full && !spent {
      StateSeen(w, alphabet, arena0, e, prog, rows, best.contents);
      ExpandedSeen(w, alphabet, whole, queue0, queue, Seen(prog, e), costs, best.contents, expanded, expanded', seen0);
    }
  }

  lemma OnlyOneQueued(queue: seq<Entry>, e: Entry)
    requires e in queue
    ensures |queue| == 1 ==> e == queue[0]
  {
  }

  /** Pops the next entry and marks its fingerprint. */
  method Take(w: Window, arena: seq<Node>, queue0: seq<Entry>, expanded: FlatSet) returns (e: Entry, queue: seq<Entry>, isNew: bool)
    requires WindowOk(w) && ArenaOk(arena) && QueueOk(w, arena, queue0) && queue0 != [] && expanded.Valid()
    modifies expanded, expanded.fps, expanded.used
    ensures expanded.Valid() && expanded.fps == old(expanded.fps) && expanded.used == old(expanded.used)
    ensures multiset(queue0) == multiset(queue) + multiset{e} && QueueOk(w, arena, queue) && EntryOk(w, arena, e)
    ensures isNew == (e.fp as nat !in old(expanded.contents)) && (|queue0| == 1 ==> e == queue0[0])
    ensures if isNew then expanded.contents <= old(expanded.contents) + {e.fp as nat} else expanded.contents == old(expanded.contents)
  {
    hide WindowOk, ArenaOk, QueueOk, EntryOk, FlatSet.Valid;
    e, queue := Pop(queue0);
    OnlyOneQueued(queue0, e);
    Popped(w, arena, queue0, queue, e);
    isNew := expanded.Insert(e.fp as int);
  }

  /** The program of an entry, and its state. */
  method Materialize(w: Window, arena: seq<Node>, e: Entry) returns (prog: seq<int>, rows: seq<Row>)
    requires WindowOk(w) && ArenaOk(arena) && EntryOk(w, arena, e)
    ensures e.node < |arena| && prog == ProgramOf(arena, e.node) && RunProg(w.table, w.seed, prog) == Some(rows) && RowsOk(rows)
  {
    EntryFits(w, arena, e);
    hide EntryOk, RunProg;
    prog := Rebuild(arena, e.node);
    rows := Replay(w, prog);
  }

  /** The goal test of a popped state: it wins if it is smaller than the original. */
  method Judge(w: Window, arena: seq<Node>, e: Entry, prog: seq<int>, rows: seq<Row>) returns (goal: bool, winner: Option<seq<int>>)
    requires WindowOk(w) && ArenaOk(arena) && EntryOk(w, arena, e) && e.node < |arena| && prog == ProgramOf(arena, e.node)
    requires RunProg(w.table, w.seed, prog) == Some(rows) && RowsOk(rows)
    ensures goal == GoalTest(w, rows) && (winner.Some? ==> Wins(w, winner.value))
    ensures if goal then exists p :: GoalFound(w, p, winner) else winner.None?
  {
    hide WindowOk, ArenaOk, EntryOk, RunProg, ProgramOf, Wins, RowsOk, GoalTest, GoalFound;
    goal, winner := GoalTest(w, rows), None;
    if goal {
      if e.cost < w.origCost || (e.cost == w.origCost && e.len < w.origLen) {
        EntryWins(w, arena, e, rows);
        winner := Some(prog);
      }
      EntryFound(w, arena, e, rows, winner);
    }
  }

  /** A popped state not seen before: a goal ends the search; otherwise it is expanded, unless the candidates are used up. */
  method Handle(w: Window, alphabet: seq<int>, st: array2<bv64>, best: FlatMap, arena0: seq<Node>, ghost whole: seq<Entry>, queue0: seq<Entry>,
                e: Entry, seq0: nat, made0: nat, spent0: bool, vector: bool, ghost expanded: set<nat>, ghost expanded': set<nat>, ghost seen0: set<Seen>)
    returns (arena: seq<Node>, queue: seq<Entry>, seq_: nat, made: nat, full: bool, spent: bool, goal: bool, winner: Option<seq<int>>, ghost seen: set<Seen>)
    requires WindowOk(w) && ArenaOk(arena0) && QueueOk(w, arena0, queue0) && EntryOk(w, arena0, e)
    requires multiset(whole) == multiset(queue0) + multiset{e} && (!spent0 ==> Progress(w, alphabet, whole, best.contents, expanded, seen0))
    requires expanded' <= expanded + {e.fp as nat} && st.Length0 == POSITIONS && st.Length1 == PAD
    requires best.Valid() && best.fps.Length >= 2 * (w.states + 8) && best.count <= w.states + 1
    requires seq0 == |arena0| && (vector ==> VectorOk(w.table, w.seed))
    modifies st, best, best.fps, best.costs, best.used
    ensures ArenaOk(arena) && QueueOk(w, arena, queue)
    ensures best.Valid() && best.fps == old(best.fps) && best.costs == old(best.costs) && best.used == old(best.used)
    ensures (full ==> best.count > w.states) && (!full ==> best.count <= w.states + 1) && (winner.Some? ==> Wins(w, winner.value))
    ensures seq_ == |arena| && made0 <= made && (spent && !spent0 ==> made >= w.perWindow) && (made0 <= w.perWindow ==> made <= w.perWindow)
    ensures if goal then exists prog :: GoalFound(w, prog, winner) else winner.None?
    ensures !full && !spent && !goal ==>
              !spent0 && Progress(w, alphabet, queue, best.contents, expanded', seen)
              && e.node < |arena0| && seen == seen0 + {Seen(ProgramOf(arena0, e.node), e)}
  {
    hide WindowOk, ArenaOk, QueueOk, EntryOk, RunProg, ProgramOf, Wins, RowsOk, GoalTest, FlatMap.Valid, GoalFound, VectorOk, Progress;
    arena, queue, seq_, made, full, spent, seen := arena0, queue0, seq0, made0, false, spent0, seen0;
    var prog, rows := Materialize(w, arena, e);
    goal, winner := Judge(w, arena, e, prog, rows);
    if !goal && !spent {
      arena, queue, seq_, made, full, spent, seen := Visit(w, alphabet, st, best, arena, whole, queue, e, prog, rows, seq_, made, vector,
                                                           expanded, expanded', seen0);
    }
  }

  /** One pop: a state seen before is skipped, a goal ends the search, any other state is expanded. `seen` records the
      entries expanded; as long as no limit was met it leaves nothing out. */
  method PopStep(w: Window, alphabet: seq<int>, st: array2<bv64>, best: FlatMap, expanded: FlatSet, arena0: seq<Node>, queue0: seq<Entry>,
                 seq0: nat, made0: nat, spent0: bool, vector: bool, ghost seen0: set<Seen>)
    returns (arena: seq<Node>, queue: seq<Entry>, seq_: nat, made: nat, full: bool, spent: bool, goal: bool, winner: Option<seq<int>>, ghost seen: set<Seen>)
    requires WindowOk(w) && ArenaOk(arena0) && QueueOk(w, arena0, queue0) && queue0 != []
    requires !spent0 ==> Progress(w, alphabet, queue0, best.contents, expanded.contents, seen0)
    requires st.Length0 == POSITIONS && st.Length1 == PAD && expanded.Valid()
    requires best.Valid() && best.fps.Length >= 2 * (w.states + 8) && best.count <= w.states + 1
    requires best.fps != expanded.fps && best.used != expanded.used && seq0 == |arena0| && (vector ==> VectorOk(w.table, w.seed))
    modifies st, best, best.fps, best.costs, best.used, expanded, expanded.fps, expanded.used
    ensures ArenaOk(arena) && QueueOk(w, arena, queue)
    ensures expanded.Valid() && expanded.fps == old(expanded.fps) && expanded.used == old(expanded.used)
    ensures best.Valid() && best.fps == old(best.fps) && best.costs == old(best.costs) && best.used == old(best.used)
    ensures (full ==> best.count > w.states) && (!full ==> best.count <= w.states + 1)
    ensures seq_ == |arena| && made0 <= made && (spent && !spent0 ==> made >= w.perWindow) && (made0 <= w.perWindow ==> made <= w.perWindow)
    ensures winner.Some? ==> Wins(w, winner.value)
    ensures if goal then exists prog :: GoalFound(w, prog, winner) else winner.None?
    ensures !full && !spent && !goal ==> !spent0 && Progress(w, alphabet, queue, best.contents, expanded.contents, seen) && seen0 <= seen
    ensures !full && !spent && !goal && old(expanded.contents) == {} && |queue0| == 1 ==>
              queue0[0].node < |arena0| && Seen(ProgramOf(arena0, queue0[0].node), queue0[0]) in seen
  {
    seen := seen0;
    ghost var expanded0 := expanded.contents;
    hide Progress, SeenOk, SeenAt, CostsFall, NewQueued, OnRecord;
    hide WindowOk, ArenaOk, QueueOk, EntryOk, RunProg, ProgramOf, Wins, RowsOk, GoalTest, FlatMap.Valid, FlatSet.Valid, GoalFound, VectorOk;
    arena, seq_, made, full, spent, goal, winner := arena0, seq0, made0, false, spent0, false, None;
    var e: Entry;
    var isNew;
    e, queue, isNew := Take(w, arena, queue0, expanded);
    if !isNew {
      if !spent {
        StalePopped(w, alphabet, queue0, queue, e, best.contents, expanded.contents, seen);
      }
      return;
    }
    arena, queue, seq_, made, full, spent, goal, winner, seen :=
      Handle(w, alphabet, st, best, arena0, queue0, queue, e, seq0, made0, spent0, vector, expanded0, expanded.contents, seen0);
  }

  /** Best-first search from the empty program. Every entry ever queued describes its program exactly; a
      winner meets the contract on the sampled lanes, obeys the definedness rule and is strictly smaller
      than the original in cost, then length. `fnPops` is what the function's budget of pops has left. */
  method Search(w: Window, alphabet: seq<int>, fnPops: nat, vector: bool)
    returns (winner: Option<seq<int>>, pops: nat, made: nat, states: nat, why: Stop, spent: bool, ghost seen: set<Seen>)
    requires WindowOk(w) && (vector ==> VectorOk(w.table, w.seed))
    ensures winner.Some? ==> Wins(w, winner.value)
    ensures pops <= w.pops && pops <= fnPops && (why.OutOfPops? ==> pops == w.pops || pops == fnPops)
    ensures if why.Found? then exists prog :: GoalFound(w, prog, winner) else winner.None?
    ensures made <= w.perWindow && (spent ==> made == w.perWindow) && (why.TableFull? ==> states > w.states)
    ensures why.Drained? && !spent ==> Exhausted(w, alphabet, seen)
  {
    hide WindowOk, ArenaOk, QueueOk, Wins, FlatMap.Valid, FlatSet.Valid, GoalFound, VectorOk, Progress, Exhausted;
    winner, pops, seen := None, 0, {};
    var arena, queue := Root(w);
    StatesFit(w);
    var best := new FlatMap(w.states + 8);
    var expanded := new FlatSet((if w.pops < 500000 then w.pops else 500000) + 8);
    var st := new bv64[POSITIONS, PAD];
    var added := best.Improve(queue[0].fp as int, 0);
    var seq_, full, goal := 1, false, false;
    made, spent := 0, false;
    NoProgressYet(w, alphabet, queue, best.contents);
    ghost var root := queue[0];
    while queue != [] && pops < w.pops && pops < fnPops && !full && !goal
      invariant pops <= w.pops && pops <= fnPops && (winner.Some? ==> Wins(w, winner.value))
      invariant if goal then exists prog :: GoalFound(w, prog, winner) else winner.None?
      invariant ArenaOk(arena) && QueueOk(w, arena, queue) && seq_ == |arena|
      invariant made <= w.perWindow && (spent ==> made == w.perWindow) && (full ==> best.count > w.states)
      invariant !full && !spent && !goal ==> Progress(w, alphabet, queue, best.contents, expanded.contents, seen)
      invariant if pops == 0 then queue == [root] && root.node == 0 && expanded.contents == {} && !full && !spent && !goal
                else !full && !spent && !goal ==> Seen([], root) in seen
      invariant best.Valid() && best.fps.Length >= 2 * (w.states + 8) && (!full ==> best.count <= w.states + 1)
      invariant fresh({best, best.fps, best.costs, best.used, expanded, expanded.fps, expanded.used, st})
      invariant expanded.Valid() && best.fps != expanded.fps && best.used != expanded.used
      decreases w.pops - pops
    {
      pops := pops + 1;
      EmptyProgram(arena);
      arena, queue, seq_, made, full, spent, goal, winner, seen := PopStep(w, alphabet, st, best, expanded, arena, queue, seq_, made, spent, vector, seen);
    }
    if !goal && !full && queue == [] && !spent {
      assert Seen([], root) in seen;
      DrainedIsExhausted(w, alphabet, best.contents, expanded.contents, seen);
    }
    states := best.count;
    why := if goal then Found else if full then TableFull else if queue == [] then Drained else OutOfPops;
  }

  lemma EmptyProgram(arena: seq<Node>)
    requires ArenaOk(arena)
    ensures 0 < |arena| && ProgramOf(arena, 0) == []
  {
  }

  lemma NoProgressYet(w: Window, alphabet: seq<int>, queue: seq<Entry>, costs: map<nat, int>)
    requires WindowOk(w) && |queue| == 1 && forall f | f in costs :: f == queue[0].fp as nat
    ensures Progress(w, alphabet, queue, costs, {}, {})
  {
  }

  lemma StatesFit(w: Window)
    requires WindowOk(w)
    ensures w.states + 8 < TWO32
  {
  }

  /** The empty program, queued. */
  method Root(w: Window) returns (arena: seq<Node>, queue: seq<Entry>)
    requires WindowOk(w)
    ensures ArenaOk(arena) && QueueOk(w, arena, queue) && |arena| == |queue| == 1 && queue[0].node == 0
  {
    var rootFp := FpOfSeed(w);
    arena := [Node(0, 0)];
    queue := [Entry(0, 0, 0, 0, w.start, MatchesOf(w), rootFp)];
    RootDescribes(w, arena, queue[0]);
  }

  method FpOfSeed(w: Window) returns (fp: bv64)
    requires WindowOk(w)
    ensures fp == Fp(w.z, w.seed, Hashed(|w.wslots|))
  {
    fp := FpFull(w.z, w.seed, |w.wslots|);
  }

  function MatchesOf(w: Window): nat
    requires WindowOk(w)
  {
    ContractMatches(w.seed, w.goal, w.contract)
  }

  predicate GoalTest(w: Window, rows: seq<Row>)
    requires WindowOk(w) && RowsOk(rows)
  {
    ContractOk(rows, w.goal, w.contract)
  }

  lemma RootDescribes(w: Window, arena: seq<Node>, root: Entry)
    requires WindowOk(w) && arena == [Node(0, 0)] && root == Entry(0, 0, 0, 0, w.start, MatchesOf(w), root.fp)
    requires root.fp == Fp(w.z, w.seed, Hashed(|w.wslots|))
    ensures ArenaOk(arena) && QueueOk(w, arena, [root])
  {
    assert ProgramOf(arena, 0) == [];
    assert EntryOk(w, arena, root);
  }

  lemma Popped(w: Window, arena: seq<Node>, queue: seq<Entry>, rest: seq<Entry>, e: Entry)
    requires WindowOk(w) && ArenaOk(arena) && QueueOk(w, arena, queue) && e in queue && multiset(queue) == multiset(rest) + multiset{e}
    ensures QueueOk(w, arena, rest) && EntryOk(w, arena, e)
  {
    forall k | 0 <= k < |rest| ensures EntryOk(w, arena, rest[k]) {
      assert rest[k] in multiset(rest);
      assert rest[k] in multiset(queue);
    }
  }

  /** Every entry's program fits the rebuild buffer and replays without a fault. */
  lemma EntryFits(w: Window, arena: seq<Node>, e: Entry)
    requires WindowOk(w) && ArenaOk(arena) && EntryOk(w, arena, e)
    ensures e.node < |arena| && |ProgramOf(arena, e.node)| <= 40 && RunProg(w.table, w.seed, ProgramOf(arena, e.node)).Some?
  {
  }

  lemma EntryWins(w: Window, arena: seq<Node>, e: Entry, rows: seq<Row>)
    requires WindowOk(w) && ArenaOk(arena) && EntryOk(w, arena, e) && RowsOk(rows)
    requires RunProg(w.table, w.seed, ProgramOf(arena, e.node)) == Some(rows) && GoalTest(w, rows)
    requires e.cost < w.origCost || (e.cost == w.origCost && e.len < w.origLen)
    ensures Wins(w, ProgramOf(arena, e.node))
  {
  }

  // ---------------------------------------------------------------------
  // one window from end to end
  // ---------------------------------------------------------------------

  /** What a solver says of a program: the same as the window on all inputs, not the same, or nothing. */
  datatype Verdict = Proven | Refuted | Unknown

  /** A window of the program under work: its own instructions, the constants its inputs are seeded with, the
      solver, if there is one, and the budgets. */
  datatype Job = Job(table: Table, z: seq<Row>, wslots: seq<int>, imms: seq<bv64>, orig: seq<int>, contract: Contract,
                     start: Avail, solver: Option<seq<int> -> Verdict>, proofRequired: bool,
                     maxGrowth: nat, states: nat, pops: nat, perPop: nat, perWindow: nat)

  /** The search uses batch 0, certification the others. */
  const BATCHES: nat := 8

  ghost predicate JobOk(j: Job) {
    && |j.wslots| <= SLOTS && TableOk(j.z) && ContractWf(j.contract) && TableHonest(j.table, j.wslots)
    && |j.orig| + j.maxGrowth + 1 <= 40 && j.states + 8 < TWO32
  }

  function BatchOf(j: Job, b: nat): (r: seq<Row>)
    requires b < BATCHES
    ensures RowsOk(r) && PadsUniform(r)
  {
    SeedPads(b as bv64, |j.wslots|, j.imms);
    Seed(b as bv64, |j.wslots|, j.imms)
  }

  /** On batch b neither program faults, and they agree on everything the contract names. */
  ghost predicate SameOnBatch(j: Job, prog: seq<int>, b: nat)
    requires JobOk(j) && b < BATCHES
  {
    var was, now := RunProg(j.table, BatchOf(j, b), j.orig), RunProg(j.table, BatchOf(j, b), prog);
    was.Some? && now.Some? && RowsOk(was.value) && RowsOk(now.value) && ContractOk(now.value, was.value, j.contract)
  }

  /** The solver's say: a refutation rejects, and so does silence where a proof is required. */
  predicate SolverAgrees(j: Job, prog: seq<int>) {
    j.solver.None? || match j.solver.value(prog)
                      case Proven => true
                      case Refuted => false
                      case Unknown => !j.proofRequired
  }

  /** What a program must show to be committed. */
  ghost predicate Certified(j: Job, prog: seq<int>)
    requires JobOk(j)
  {
    (forall b | 0 <= b < BATCHES :: SameOnBatch(j, prog, b)) && SolverAgrees(j, prog)
  }

  /** What the search promises of a program it finds: it matches the original on the batch searched, reads nothing
      undefined, and is smaller. */
  ghost predicate Improves(j: Job, prog: seq<int>)
    requires JobOk(j)
  {
    && SameOnBatch(j, prog, 0) && Obeys(j.table, j.wslots, j.start, prog) && |prog| <= |j.orig| + j.maxGrowth
    && (Cost(j.table, prog) < Cost(j.table, j.orig) || (Cost(j.table, prog) == Cost(j.table, j.orig) && |prog| < |j.orig|))
  }

  /** Runs a program from a seeded batch; none on a fault. */
  method Simulate(j: Job, b: nat, prog: seq<int>) returns (r: Option<seq<Row>>)
    requires JobOk(j) && b < BATCHES
    ensures r == RunProg(j.table, BatchOf(j, b), prog) && (r.Some? ==> RowsOk(r.value))
  {
    hide TableHonest;
    var st := new bv64[POSITIONS, PAD];
    SeedState(st, b as bv64, |j.wslots|, j.imms);
    var start := ReadAll(st);
    assert start == BatchOf(j, b);
    var rows := start;
    for k := 0 to |prog|
      invariant RunProg(j.table, start, prog[..k]) == Some(rows) && RowsOk(rows)
    {
      assert prog[..k + 1][..k] == prog[..k];
      assert HonestAt(j.table, j.wslots, prog[k], rows) by {
        AllHonest(j.table, j.wslots, prog[k], rows);
      }
      var (ok, after) := j.table.sim(rows, prog[k]);
      if !ok {
        FaultStays(j.table, start, prog, k + 1);
        return None;
      }
      rows := after;
    }
    assert prog[..|prog|] == prog;
    r := Some(rows);
  }

  lemma AllHonest(t: Table, wslots: seq<int>, i: int, rows: seq<Row>)
    requires |wslots| <= SLOTS && TableHonest(t, wslots) && RowsOk(rows)
    ensures HonestAt(t, wslots, i, rows)
  {
  }

  lemma FaultStays(t: Table, rows: seq<Row>, prog: seq<int>, k: nat)
    requires k <= |prog| && RunProg(t, rows, prog[..k]).None?
    ensures RunProg(t, rows, prog).None?
  {
    if RunProg(t, rows, prog).Some? {
      PrefixRuns(t, rows, prog, k);
    }
  }

  method TotalLatency(t: Table, prog: seq<int>) returns (cost: int)
    ensures cost == Cost(t, prog)
  {
    cost := 0;
    for k := 0 to |prog|
      invariant cost == Cost(t, prog[..k])
    {
      assert prog[..k + 1][..k] == prog[..k];
      cost := cost + t.latency(prog[k]);
    }
    assert prog[..|prog|] == prog;
  }

  /** Searches the window, with the original's own final rows as the goal; a window that faults on the first batch is
      skipped, and a program found is kept just if it matches the original on every other batch too and the solver
      does not object. */
  method Improve(j: Job, alphabet: seq<int>, fnPops: nat, vector: bool)
    returns (winner: Option<seq<int>>, skipped: bool, pops: nat, ghost found: Option<seq<int>>)
    requires JobOk(j) && (vector ==> LaneUniform(j.table))
    ensures skipped <==> RunProg(j.table, BatchOf(j, 0), j.orig).None?
    ensures found.Some? ==> !skipped && Improves(j, found.value)
    ensures winner == if found.Some? && Certified(j, found.value) then found else None
    ensures winner.Some? && j.solver.Some? ==>
              j.solver.value(winner.value) != Refuted && (j.proofRequired ==> j.solver.value(winner.value) == Proven)
    ensures (found.Some? && (forall b | 0 <= b < BATCHES :: SameOnBatch(j, found.value, b))
            && (j.solver.Some? ==> j.solver.value(found.value) == Proven || (j.solver.value(found.value) == Unknown && !j.proofRequired))) ==>
              winner == found
    ensures pops <= j.pops && pops <= fnPops
  {
    hide RunProg, Cost, TableHonest, ContractOk, RowsOk, Obeys, Wins, GoalFound, SameOnBatch, LaneUniform;
    found, pops := None, 0;
    var goal := Simulate(j, 0, j.orig);
    if goal.None? {
      return None, true, 0, None;
    }
    var cost := TotalLatency(j.table, j.orig);
    var w := Window(j.table, j.z, j.wslots, BatchOf(j, 0), goal.value, j.contract, j.start, cost, |j.orig|, j.maxGrowth,
                    j.states, j.pops, j.perPop, j.perWindow);
    ghost var seen;
    var prog, used, made, states, why, spent;
    prog, used, made, states, why, spent, seen := Search(w, alphabet, fnPops, vector);
    if prog.None? {
      return None, false, used, None;
    }
    WinsImproves(j, w, prog.value);
    var same := Certify(j, prog.value);
    return if same && SolverAgrees(j, prog.value) then prog else None, false, used, prog;
  }

  lemma WinsImproves(j: Job, w: Window, prog: seq<int>)
    requires JobOk(j) && WindowOk(w) && Wins(w, prog) && RunProg(j.table, BatchOf(j, 0), j.orig) == Some(w.goal)
    requires w.table == j.table && w.wslots == j.wslots && w.seed == BatchOf(j, 0) && w.contract == j.contract && w.start == j.start
    requires w.origCost == Cost(j.table, j.orig) && w.origLen == |j.orig| && w.maxGrowth == j.maxGrowth
    ensures Improves(j, prog)
  {
    hide Cost, Obeys;
  }

  /** Runs both programs on the batches after the first. */
  method Certify(j: Job, prog: seq<int>) returns (same: bool)
    requires JobOk(j) && SameOnBatch(j, prog, 0)
    ensures same == forall b | 0 <= b < BATCHES :: SameOnBatch(j, prog, b)
  {
    hide RunProg, TableHonest, BatchOf;
    for b := 1 to BATCHES
      invariant forall a | 0 <= a < b :: SameOnBatch(j, prog, a)
    {
      var was := Simulate(j, b, j.orig);
      if was.None? {
        assert !SameOnBatch(j, prog, b);
        return false;
      }
      var now := Simulate(j, b, prog);
      if now.None? || !ContractOk(now.value, was.value, j.contract) {
        assert !SameOnBatch(j, prog, b);
        return false;
      }
    }
    same := true;
  }

  // ---------------------------------------------------------------------
  // all windows of a function
  // ---------------------------------------------------------------------

  /** A window's place among the jobs, and the program to put there. */
  datatype Choice = Choice(job: nat, prog: seq<int>)

  /** Every choice is certified and improves its window, at most one for a window, in order. */
  ghost predicate ChoicesOk(jobs: seq<Job>, choices: seq<Choice>, n: nat)
    requires n <= |jobs| && forall i | 0 <= i < |jobs| :: JobOk(jobs[i])
  {
    && (forall c | 0 <= c < |choices| :: choices[c].job < n && Improves(jobs[choices[c].job], choices[c].prog)
                                         && Certified(jobs[choices[c].job], choices[c].prog))
    && (forall c, d | 0 <= c < d < |choices| :: choices[c].job < choices[d].job)
  }

  /** Works through the windows until the function's pops are used up; those left over are not looked at. */
  method ImproveAll(jobs: seq<Job>, alphabets: seq<seq<int>>, popsPerFn: nat, vector: bool)
    returns (choices: seq<Choice>, done: nat, left: nat)
    requires |alphabets| == |jobs| && forall i | 0 <= i < |jobs| :: JobOk(jobs[i]) && (vector ==> LaneUniform(jobs[i].table))
    ensures done <= |jobs| && left <= popsPerFn && (done < |jobs| ==> left == 0)
    ensures ChoicesOk(jobs, choices, done)
  {
    hide JobOk, Improves, Certified, LaneUniform;
    choices, left, done := [], popsPerFn, 0;
    while done < |jobs| && left > 0
      invariant done <= |jobs| && left <= popsPerFn && ChoicesOk(jobs, choices, done)
      decreases |jobs| - done
    {
      ghost var found;
      var winner, skipped, pops;
      winner, skipped, pops, found := Improve(jobs[done], alphabets[done], left, vector);
      left := left - pops;
      if winner.Some? {
        choices := choices + [Choice(done, winner.value)];
      }
      done := done + 1;
    }
  }
}
