/** Slots of one group share one id, and the renamed code runs as the original does. */
module SlotRecolor {
  import opened Options
  import opened SlotCode
  import opened CodeNeeds
  import opened SlotLiveness
  import opened SlotActivity
  import opened SlotGroups

  // ---------------------------------------------------------------------
  // representatives
  // ---------------------------------------------------------------------

  /** Members of groups with company go by the group's smallest id. */
  ghost predicate Represents(groups: seq<Group>, rep: map<nat, nat>, n: nat) {
    forall s | s in rep :: exists g :: 0 <= g < n <= |groups| && RepIn(groups[g], s, rep[s])
  }

  ghost predicate RepIn(g: Group, s: nat, r: nat) {
    s in g.slots && r in g.slots && s != r && forall t | t in g.slots :: r <= t
  }

  /** Within the first n groups only smallest ids stand for themselves. */
  ghost predicate AllRepresented(groups: seq<Group>, rep: map<nat, nat>, n: nat) {
    forall g, s | 0 <= g < n <= |groups| && s in groups[g].slots :: s in rep || forall t | t in groups[g].slots :: s <= t
  }

  function Least(slots: seq<nat>): (r: nat)
    requires slots != []
    ensures r in slots && forall t | t in slots :: r <= t
  {
    if |slots| == 1 then slots[0]
    else
      var m := Least(slots[1..]);
      assert slots == [slots[0]] + slots[1..];
      if slots[0] < m then slots[0] else m
  }

  lemma NameOne(groups: seq<Group>, rep: map<nat, nat>, n: nat, s: nat, r: nat)
    requires n < |groups| && Represents(groups, rep, n + 1) && RepIn(groups[n], s, r)
    ensures Represents(groups, rep[s := r], n + 1)
  {
    var rep' := rep[s := r];
    forall t | t in rep' ensures exists g :: 0 <= g < n + 1 <= |groups| && RepIn(groups[g], t, rep'[t]) {
      if t != s {
        var g :| 0 <= g < n + 1 && RepIn(groups[g], t, rep[t]);
        assert RepIn(groups[g], t, rep'[t]);
      }
    }
  }

  lemma RepresentsMore(groups: seq<Group>, rep: map<nat, nat>, n: nat)
    requires n < |groups| && Represents(groups, rep, n)
    ensures Represents(groups, rep, n + 1)
  {
    forall s | s in rep ensures exists g :: 0 <= g < n + 1 <= |groups| && RepIn(groups[g], s, rep[s]) {
      var g :| 0 <= g < n && RepIn(groups[g], s, rep[s]);
      assert RepIn(groups[g], s, rep[s]);
    }
  }

  /** With group n named, n + 1 groups are. */
  lemma AllRepresentedMore(groups: seq<Group>, rep0: map<nat, nat>, rep: map<nat, nat>, n: nat)
    requires n < |groups| && AllRepresented(groups, rep0, n) && rep0.Keys <= rep.Keys
    requires forall s | s in groups[n].slots :: s in rep || forall t | t in groups[n].slots :: s <= t
    ensures AllRepresented(groups, rep, n + 1)
  {
  }

  lemma NotNamed(groups: seq<Group>, rep: map<nat, nat>, n: nat, s: nat)
    requires n < |groups| && Represents(groups, rep, n) && s in groups[n].slots && Separate(groups)
    ensures s !in rep
  {
    forall g | 0 <= g < n ensures s !in groups[g].slots {
      assert Apart(groups[g], groups[n]);
    }
  }

  lemma SingleNamed(groups: seq<Group>, rep: map<nat, nat>, n: nat)
    requires n < |groups| && |groups[n].slots| == 1 && Represents(groups, rep, n) && AllRepresented(groups, rep, n)
    ensures Represents(groups, rep, n + 1) && AllRepresented(groups, rep, n + 1)
  {
    RepresentsMore(groups, rep, n);
    AllRepresentedMore(groups, rep, rep, n);
  }

  method Representatives(groups: seq<Group>) returns (rep: map<nat, nat>, saved: nat)
    requires forall g | 0 <= g < |groups| :: groups[g].slots != [] && DistinctSlots(groups[g].slots)
    requires Separate(groups)
    ensures Represents(groups, rep, |groups|) && AllRepresented(groups, rep, |groups|) && saved == |rep| == Members(groups) - |groups|
  {
    rep, saved := map[], 0;
    assert Represents(groups, rep, 0) && AllRepresented(groups, rep, 0);
    hide Represents, AllRepresented, DistinctSlots, Separate, Least;
    assert groups[..0] == [];
    for n := 0 to |groups|
      invariant Represents(groups, rep, n) && AllRepresented(groups, rep, n) && saved == |rep| == Members(groups[..n]) - n
    {
      assert groups[..n + 1][..n] == groups[..n];
      var slots := groups[n].slots;
      if |slots| >= 2 {
        saved := saved + |slots| - 1;
        rep := NameGroup(groups, rep, n, Least(slots));
      } else {
        SingleNamed(groups, rep, n);
      }
    }
    assert groups[..|groups|] == groups;
  }

  lemma AddKey(m: map<nat, nat>, k: nat, v: nat)
    requires k !in m
    ensures |m[k := v]| == |m| + 1
  {
    assert m[k := v].Keys == m.Keys + {k};
    assert m[k := v] - {k} == m;
  }

  /** Of the slots, those before i have names, except the one at `at`. */
  ghost predicate Naming(slots: seq<nat>, rep0: map<nat, nat>, rep: map<nat, nat>, i: nat, at: nat) {
    && (forall s | s in rep0 :: s in rep) && at < |slots|
    && (forall j | i <= j < |slots| :: slots[j] !in rep)
    && (forall j | 0 <= j < i && j < |slots| :: slots[j] in rep || j == at)
    && |rep| == |rep0| + i - (if at < i then 1 else 0)
  }

  lemma NamingStep(slots: seq<nat>, rep0: map<nat, nat>, rep: map<nat, nat>, i: nat, at: nat)
    requires DistinctSlots(slots) && Naming(slots, rep0, rep, i, at) && i < |slots|
    ensures Naming(slots, rep0, if slots[i] != slots[at] then rep[slots[i] := slots[at]] else rep, i + 1, at)
  {
    if slots[i] != slots[at] {
      AddKey(rep, slots[i], slots[at]);
      assert slots[i] !in rep;
    } else {
      assert i == at;
    }
  }

  lemma NamingDone(slots: seq<nat>, rep0: map<nat, nat>, rep: map<nat, nat>, at: nat)
    requires Naming(slots, rep0, rep, |slots|, at) && forall t | t in slots :: slots[at] <= t
    ensures rep0.Keys <= rep.Keys && |rep| == |rep0| + |slots| - 1
    ensures forall s | s in slots :: s in rep || forall t | t in slots :: s <= t
  {
  }

  ghost predicate DistinctSlots(s: seq<nat>) {
    forall i, j | 0 <= i < j < |s| :: s[i] != s[j]
  }

  /** Every member of group n but the least goes by the least. */
  method NameGroup(groups: seq<Group>, rep0: map<nat, nat>, n: nat, r: nat) returns (rep: map<nat, nat>)
    requires n < |groups| && DistinctSlots(groups[n].slots) && r in groups[n].slots && forall t | t in groups[n].slots :: r <= t
    requires Separate(groups) && Represents(groups, rep0, n) && AllRepresented(groups, rep0, n)
    ensures Represents(groups, rep, n + 1) && AllRepresented(groups, rep, n + 1)
    ensures |rep| == |rep0| + |groups[n].slots| - 1
  {
    hide Represents, AllRepresented, Separate;
    var slots := groups[n].slots;
    rep := rep0;
    RepresentsMore(groups, rep, n);
    ghost var at: nat :| at < |slots| && slots[at] == r;
    forall j | 0 <= j < |slots| ensures slots[j] !in rep {
      NotNamed(groups, rep0, n, slots[j]);
    }
    assert Naming(slots, rep0, rep, 0, at);
    hide Naming, DistinctSlots;
    for i := 0 to |slots|
      invariant Represents(groups, rep, n + 1) && Naming(slots, rep0, rep, i, at)
    {
      NamingStep(slots, rep0, rep, i, at);
      if slots[i] != r {
        NameOne(groups, rep, n, slots[i], r);
        rep := rep[slots[i] := r];
      }
    }
    NamingDone(slots, rep0, rep, at);
    AllRepresentedMore(groups, rep0, rep, n);
  }

  /** Two slots that go by one name are never active together, and nothing takes a name that is not its group's. */
  ghost predicate Shares(busy: seq<set<nat>>, cands: seq<nat>, rep: map<nat, nat>) {
    && (forall s: nat, t: nat | s != t && Remap(rep, s) == Remap(rep, t) :: NeverBoth(busy, s, t))
    && (forall s: nat | Remap(rep, s) != s :: s in cands && Remap(rep, s) in cands)
  }

  lemma RepresentativesShare(busy: seq<set<nat>>, groups: seq<Group>, cands: seq<nat>, rep: map<nat, nat>)
    requires Placed(busy, groups, cands) && Represents(groups, rep, |groups|)
    ensures Shares(busy, cands, rep)
  {
    forall s: nat, t: nat | s != t && Remap(rep, s) == Remap(rep, t) ensures NeverBoth(busy, s, t) {
      SameGroup(groups, cands, busy, rep, s, t);
    }
    forall s: nat | Remap(rep, s) != s ensures s in cands && Remap(rep, s) in cands {
      var g :| 0 <= g < |groups| && RepIn(groups[g], s, rep[s]);
    }
  }

  lemma SameGroup(groups: seq<Group>, cands: seq<nat>, busy: seq<set<nat>>, rep: map<nat, nat>, s: nat, t: nat)
    requires Placed(busy, groups, cands) && Represents(groups, rep, |groups|) && s != t && Remap(rep, s) == Remap(rep, t)
    ensures NeverBoth(busy, s, t)
  {
    var r := Remap(rep, s);
    var g: nat :| g < |groups| && RepIn(groups[g], if s in rep then s else t, r);
    if s in rep && t in rep {
      var h: nat :| h < |groups| && RepIn(groups[h], t, r);
      OneGroup(groups, g, h, r);
    }
    assert GroupOk(busy, groups[g]);
    Companions(busy, groups[g], s, t);
  }

  lemma Companions(busy: seq<set<nat>>, g: Group, s: nat, t: nat)
    requires GroupOk(busy, g) && s in g.slots && t in g.slots && s != t
    ensures NeverBoth(busy, s, t)
  {
    var i, j :| 0 <= i < |g.slots| && g.slots[i] == s && 0 <= j < |g.slots| && g.slots[j] == t;
    if i < j {
      assert NeverBoth(busy, s, t);
    } else {
      assert NeverBoth(busy, t, s);
    }
  }

  // ---------------------------------------------------------------------
  // candidates
  // ---------------------------------------------------------------------

  /** Slots that may share: still in memory, scalar, not promoted, address never taken. */
  ghost predicate Candidate(code: seq<Inst>, wide: set<nat>, promoted: set<nat>, s: nat) {
    s !in wide && s !in promoted && s !in Escaped(code) && exists i :: 0 <= i < |code| && s in Touched(code[i])
  }

  /** What instructions touch, and what they take the address of. */
  method ScanSlots(code: seq<Inst>) returns (touched: set<nat>, taken: set<nat>)
    ensures forall s :: s in touched <==> exists i :: 0 <= i < |code| && s in Touched(code[i])
    ensures taken == Escaped(code)
  {
    touched, taken := {}, {};
    for i := 0 to |code|
      invariant forall s :: s in touched <==> exists j :: 0 <= j < i && s in Touched(code[j])
      invariant forall s :: s in taken <==> exists j :: 0 <= j < i && TakesAddress(code[j]) && code[j].b.s == s
    {
      touched := touched + Touched(code[i]);
      if TakesAddress(code[i]) {
        taken := taken + {code[i].b.s};
      }
    }
  }

  predicate Earlier(first: seq<Option<nat>>, x: nat, y: nat)
    requires x < |first| && y < |first|
  {
    var fx, fy := if first[x].Some? then first[x].value else 0, if first[y].Some? then first[y].value else 0;
    fx < fy || (fx == fy && x < y)
  }

  /** The list goes by first activity, then id. */
  predicate InOrder(first: seq<Option<nat>>, s: seq<nat>)
    requires forall i | 0 <= i < |s| :: s[i] < |first|
  {
    forall i, j | 0 <= i < j < |s| :: Earlier(first, s[i], s[j])
  }

  /** Inserts a slot into the list. */
  function InsertSlot(first: seq<Option<nat>>, s: seq<nat>, x: nat): (r: seq<nat>)
    requires x < |first| && (forall i | 0 <= i < |s| :: s[i] < |first|)
    ensures multiset(r) == multiset(s) + multiset{x} && forall i | 0 <= i < |r| :: r[i] < |first|
  {
    if s == [] then [x]
    else if Earlier(first, x, s[0]) then [x] + s
    else
      assert s == [s[0]] + s[1..];
      [s[0]] + InsertSlot(first, s[1..], x)
  }

  lemma {:induction false} InsertInOrder(first: seq<Option<nat>>, s: seq<nat>, x: nat)
    requires x < |first| && (forall i | 0 <= i < |s| :: s[i] < |first|) && InOrder(first, s) && x !in s
    ensures InOrder(first, InsertSlot(first, s, x)) && forall t :: t in InsertSlot(first, s, x) <==> t in s || t == x
  {
    hide Earlier;
    if s == [] {
    } else if Earlier(first, x, s[0]) {
      FrontInOrder(first, s, x);
    } else {
      assert s == [s[0]] + s[1..];
      InsertInOrder(first, s[1..], x);
      EitherFirst(first, s[0], x);
      RestInOrder(first, s, x, InsertSlot(first, s[1..], x));
    }
  }

  lemma EitherFirst(first: seq<Option<nat>>, x: nat, y: nat)
    requires x < |first| && y < |first| && x != y
    ensures Earlier(first, x, y) || Earlier(first, y, x)
  {
  }

  lemma FrontInOrder(first: seq<Option<nat>>, s: seq<nat>, x: nat)
    requires s != [] && x < |first| && (forall i | 0 <= i < |s| :: s[i] < |first|) && InOrder(first, s) && Earlier(first, x, s[0])
    ensures InOrder(first, [x] + s)
  {
    var r := [x] + s;
    forall i, j | 0 <= i < j < |r| ensures Earlier(first, r[i], r[j]) {
      if j > 1 {
        assert Earlier(first, s[0], s[j - 1]);
      }
      if i > 0 {
        assert Earlier(first, s[i - 1], s[j - 1]);
      }
    }
  }

  lemma RestInOrder(first: seq<Option<nat>>, s: seq<nat>, x: nat, rest: seq<nat>)
    requires s != [] && x < |first| && (forall i | 0 <= i < |s| :: s[i] < |first|) && InOrder(first, s) && Earlier(first, s[0], x)
    requires (forall i | 0 <= i < |rest| :: rest[i] < |first|) && InOrder(first, rest) && forall t :: t in rest <==> t in s[1..] || t == x
    ensures InOrder(first, [s[0]] + rest)
  {
    var r := [s[0]] + rest;
    hide Earlier;
    forall i, j | 0 <= i < j < |r| ensures Earlier(first, r[i], r[j]) {
      if i > 0 {
        assert Earlier(first, rest[i - 1], rest[j - 1]);
      } else {
        assert rest[j - 1] in rest;
        if rest[j - 1] != x {
          var m :| 0 <= m < |s[1..]| && s[1..][m] == rest[j - 1];
          assert Earlier(first, s[0], s[m + 1]);
        }
      }
    }
  }

  /** The list holds each chosen slot below n once. */
  ghost predicate Listed(cands: seq<nat>, chosen: set<nat>, n: nat) {
    forall t: nat :: multiset(cands)[t] == if t < n && t in chosen then 1 else 0
  }

  method Candidates(code: seq<Inst>, slots: nat, wide: set<nat>, promoted: set<nat>, first: seq<Option<nat>>) returns (cands: seq<nat>)
    requires |first| == slots
    ensures forall s: nat :: s in cands <==> s < slots && Candidate(code, wide, promoted, s)
    ensures forall i, j | 0 <= i < j < |cands| :: cands[i] != cands[j]
    ensures (forall i | 0 <= i < |cands| :: cands[i] < slots) && InOrder(first, cands)
  {
    hide InOrder;
    var touched, taken := ScanSlots(code);
    var chosen := touched - wide - promoted - taken;
    cands := Order(slots, chosen, first);
    forall s: nat ensures s in cands <==> s < slots && Candidate(code, wide, promoted, s) {
      assert s in cands <==> s in multiset(cands);
    }
    forall i, j | 0 <= i < j < |cands| ensures cands[i] != cands[j] {
      OnceOnly(cands, i, j);
    }
  }

  method Order(slots: nat, chosen: set<nat>, first: seq<Option<nat>>) returns (cands: seq<nat>)
    requires |first| == slots
    ensures Listed(cands, chosen, slots) && (forall i | 0 <= i < |cands| :: cands[i] < slots) && InOrder(first, cands)
  {
    hide InsertSlot;
    cands := [];
    for s := 0 to slots
      invariant forall i | 0 <= i < |cands| :: cands[i] < slots
      invariant Listed(cands, chosen, s) && InOrder(first, cands)
    {
      if s in chosen {
        assert s !in cands by {
          assert multiset(cands)[s] == 0;
        }
        InsertInOrder(first, cands, s);
        cands := InsertSlot(first, cands, s);
      }
    }
  }

  lemma OnceOnly(s: seq<nat>, i: nat, j: nat)
    requires i < j < |s| && forall t :: multiset(s)[t] <= 1
    ensures s[i] != s[j]
  {
    var a, b := s[..j], s[j..];
    assert s == a + b && a[i] == s[i] && b[0] == s[j];
    assert multiset(s) == multiset(a) + multiset(b);
    assert s[i] in multiset(a) && s[j] in multiset(b);
    assert multiset(s)[s[j]] == multiset(a)[s[j]] + multiset(b)[s[j]];
  }

  // ---------------------------------------------------------------------
  // the renamed code runs as the original
  // ---------------------------------------------------------------------

  /** Live slots, and those reachable through addresses, hold the same values under their new names. */
  ghost predicate Agrees(rep: map<nat, nat>, live: set<nat>, mem: seq<int>, mem': seq<int>) {
    |mem| == |mem'| && forall s | s in live && s < |mem| :: AgreesAt(rep, mem, mem', s)
  }

  ghost predicate AgreesAt(rep: map<nat, nat>, mem: seq<int>, mem': seq<int>, s: nat)
    requires s < |mem|
  {
    Remap(rep, s) < |mem'| && mem'[Remap(rep, s)] == mem[s]
  }

  /** The slots some path from p reads before storing. */
  ghost function NeededSlots(code: seq<Inst>, p: nat, slots: nat): set<nat> {
    NeededAt(SlotUses(), code, p, slots)
  }

  /** The two runs are at one place, in one state, with memory that agrees on what is needed from there. */
  ghost predicate Matches(code: seq<Inst>, rep: map<nat, nat>, slots: nat, c: Cfg, c': Cfg) {
    && c'.pc == c.pc && c'.state == c.state && Inside(code, c.pc) && |c.mem| == slots
    && Agrees(rep, NeededSlots(code, c.pc, slots) + Escaped(code), c.mem, c'.mem)
  }

  /** No store overwrites, under its new name, what is needed behind it. */
  ghost predicate StoresAlone(code: seq<Inst>, rep: map<nat, nat>, slots: nat) {
    forall p: nat | p < |code| && SlotDef(code[p]).Some? && Inside(code, p) ::
      Alone(rep, NeededSlots(code, p + 1, slots) + Escaped(code), SlotDef(code[p]).value)
  }

  /** What makes a renaming fit the code. */
  ghost predicate Fits(code: seq<Inst>, rep: map<nat, nat>, slots: nat) {
    && CodeOk(code, slots) && StoresAlone(code, rep, slots) && KeepsEscaped(rep, Escaped(code))
    && (forall s: nat | s < slots :: Remap(rep, s) < slots)
  }

  lemma AgreesLess(rep: map<nat, nat>, live: set<nat>, less: set<nat>, mem: seq<int>, mem': seq<int>)
    requires Agrees(rep, live, mem, mem') && less <= live
    ensures Agrees(rep, less, mem, mem')
  {
  }

  /** Slots reachable through addresses keep their names to themselves. */
  ghost predicate KeepsEscaped(rep: map<nat, nat>, esc: set<nat>) {
    forall s | s in esc :: Remap(rep, s) == s && forall t: nat | t != s :: Remap(rep, t) != s
  }

  /** No live slot but s itself goes by the name of s. */
  ghost predicate Alone(rep: map<nat, nat>, live: set<nat>, s: nat) {
    forall t | t in live && t != s :: Remap(rep, t) != Remap(rep, s)
  }

  lemma EscapedAgrees(rep: map<nat, nat>, live: set<nat>, esc: set<nat>, w: map<nat, int>, mem: seq<int>, mem': seq<int>)
    requires Agrees(rep, live + esc, mem, mem') && KeepsEscaped(rep, esc)
    ensures View(mem, esc) == View(mem', esc)
    ensures Agrees(rep, live + esc, Written(mem, esc, w), Written(mem', esc, w))
  {
    forall s | s in esc && s < |mem| ensures mem[s] == mem'[s] {
      assert AgreesAt(rep, mem, mem', s);
    }
    var m1, m2 := Written(mem, esc, w), Written(mem', esc, w);
    forall s | s in live + esc && s < |m1| ensures AgreesAt(rep, m1, m2, s) {
      assert AgreesAt(rep, mem, mem', s);
    }
  }

  lemma StoreAgrees(rep: map<nat, nat>, before: set<nat>, after: set<nat>, s: nat, v: int, mem: seq<int>, mem': seq<int>)
    requires Agrees(rep, before, mem, mem') && after <= before + {s} && Alone(rep, after, s)
    requires s < |mem| && Remap(rep, s) < |mem|
    ensures Agrees(rep, after, mem[s := v], mem'[Remap(rep, s) := v])
  {
    var m1, m2 := mem[s := v], mem'[Remap(rep, s) := v];
    forall t | t in after && t < |m1| ensures AgreesAt(rep, m1, m2, t) {
      if t != s {
        assert AgreesAt(rep, mem, mem', t);
      }
    }
  }

  /** The renaming suits an instruction with these live sets around it. */
  ghost predicate Suits(i: Inst, rep: map<nat, nat>, esc: set<nat>, before: set<nat>, after: set<nat>) {
    && (TakesAddress(i) ==> i.b.s in esc)
    && (SlotDef(i).None? ==> after <= before && (SlotUse(i).Some? ==> SlotUse(i).value in before))
    && (SlotDef(i).Some? ==> after <= before + {SlotDef(i).value} && Alone(rep, after + esc, SlotDef(i).value))
  }

  /** One instruction, under both names: the same state, and memory that still agrees. */
  lemma EffectAgrees(i: Inst, rep: map<nat, nat>, esc: set<nat>, before: set<nat>, after: set<nat>, slots: nat,
                     m: Machine, state: int, mem: seq<int>, mem': seq<int>)
    requires InstOk(i, slots) && |mem| == slots && (forall s: nat | s < slots :: Remap(rep, s) < slots)
    requires Agrees(rep, before + esc, mem, mem') && KeepsEscaped(rep, esc) && Suits(i, rep, esc, before, after)
    ensures var e, e' := Effect(i, m, esc, state, mem), Effect(RemapInst(rep, i), m, esc, state, mem');
            && e.Some? && e'.Some? && e'.value.0 == e.value.0 && |e.value.1| == slots
            && Agrees(rep, after + esc, e.value.1, e'.value.1)
  {
    EffectBySlots(i, m, esc, state, mem);
    EffectBySlots(RemapInst(rep, i), m, esc, state, mem');
    hide Agrees, Effect;
    AgreesSized(rep, before + esc, mem, mem');
    if SlotDef(i).Some? {
      var s := SlotDef(i).value;
      StoreAgrees(rep, before + esc, after + esc, s, m.stored(Bare(i), state), mem, mem');
    } else {
      AgreesLess(rep, before + esc, after + esc, mem, mem');
      if TakesAddress(i) {
      } else if SlotUse(i).Some? {
        AgreesOn(rep, before + esc, mem, mem', SlotUse(i).value);
      } else if !i.op.Jcc? && !IsLabel(i) {
        var (s1, w) := m.other(Bare(i), state, View(mem, esc));
        EscapedAgrees(rep, after, esc, w, mem, mem');
      }
    }
  }

  lemma AgreesSized(rep: map<nat, nat>, live: set<nat>, mem: seq<int>, mem': seq<int>)
    requires Agrees(rep, live, mem, mem')
    ensures |mem'| == |mem|
  {
  }

  lemma AgreesOn(rep: map<nat, nat>, live: set<nat>, mem: seq<int>, mem': seq<int>, s: nat)
    requires Agrees(rep, live, mem, mem') && s in live && s < |mem|
    ensures Remap(rep, s) < |mem'| && mem'[Remap(rep, s)] == mem[s]
  {
    assert AgreesAt(rep, mem, mem', s);
  }

  // ---------------------------------------------------------------------
  // along the run
  // ---------------------------------------------------------------------

  /** What is needed next was needed before, or is stored now. */
  lemma NeedsOnward(code: seq<Inst>, p: nat, q: nat, slots: nat)
    requires CodeOk(code, slots) && p < |code|
    ensures var before, after := NeededSlots(code, p, slots), NeededSlots(code, q, slots);
            && (SlotDef(code[p]).None? && SlotUse(code[p]).Some? ==> SlotUse(code[p]).value in before)
            && (Succeeds(code, p, q) ==>
                  if SlotDef(code[p]).Some? then after <= before + {SlotDef(code[p]).value} else after <= before)
  {
    assert InstOk(code[p], slots);
    if SlotUse(code[p]).Some? {
      NeedsBefore(SlotUses(), code, p, SlotUse(code[p]).value);
    }
    hide Succeeds, Needed;
    forall s | s in NeededSlots(code, q, slots) && Succeeds(code, p, q) && SlotDef(code[p]) != Some(s)
      ensures s in NeededSlots(code, p, slots)
    {
      NeedsBefore(SlotUses(), code, p, s);
    }
  }

  /** A stored slot shares its name with nothing needed after the store. */
  lemma StoredAlone(code: seq<Inst>, an: Analysis, busy: seq<set<nat>>, cands: seq<nat>, rep: map<nat, nat>, slots: nat, p: nat)
    requires Recorded(code, an, busy) && FindsNeeds(code, an) && Shares(busy, cands, rep) && KeepsEscaped(rep, Escaped(code))
    requires p < |code| && SlotDef(code[p]).Some? && Inside(code, p)
    ensures Alone(rep, NeededSlots(code, p + 1, slots) + Escaped(code), SlotDef(code[p]).value)
  {
    var s := SlotDef(code[p]).value;
    AtInstruction(code, an, p);
    FallThrough(code, an, p);
    InsideStays(code, p, p + 1);
    hide Inside, LiveAt, LiveAfter, Needed;
    forall t | t in NeededSlots(code, p + 1, slots) + Escaped(code) && t != s ensures Remap(rep, t) != Remap(rep, s) {
      if t !in Escaped(code) {
        assert t in LiveAt(code, an, p + 1);
        assert s in busy[p] && t in busy[p];
        assert !NeverBoth(busy, s, t);
      }
    }
  }

  lemma RenamedTarget(code: seq<Inst>, rep: map<nat, nat>, p: nat)
    requires p < |code|
    ensures Target(Renamed(code, rep), Renamed(code, rep)[p]) == Target(code, code[p])
  {
    if code[p].a.Lab? {
      RenamedLabels(code, rep, code[p].a.l, 0);
    }
  }

  /** Both runs take the next instruction, or neither does, and stay together. */
  ghost predicate StepsTogether(code: seq<Inst>, rep: map<nat, nat>, slots: nat, m: Machine, c: Cfg, c': Cfg) {
    var d, d' := Step(code, m, Escaped(code), c), Step(Renamed(code, rep), m, Escaped(code), c');
    d.Some? == d'.Some? && (d.Some? ==> Matches(code, rep, slots, d.value, d'.value))
  }

  /** One instruction keeps the two runs together. */
  lemma StepMatches(code: seq<Inst>, rep: map<nat, nat>, slots: nat, m: Machine, c: Cfg, c': Cfg)
    requires Fits(code, rep, slots) && Matches(code, rep, slots, c, c')
    ensures StepsTogether(code, rep, slots, m, c, c')
  {
    hide StoresAlone, KeepsEscaped, Inside, Agrees, CodeOk, Effect, Target, NeededSlots;
    if c.pc < |code| && !IsReturn(code[c.pc]) {
      if Jumps(m, code[c.pc], c.state) {
        RenamedTarget(code, rep, c.pc);
        JumpAgrees(code, rep, slots, c.pc, c.mem, c'.mem);
      } else {
        OnwardAgrees(code, rep, slots, m, c, c'.mem);
      }
    }
  }

  lemma JumpAgrees(code: seq<Inst>, rep: map<nat, nat>, slots: nat, p: nat, mem: seq<int>, mem': seq<int>)
    requires CodeOk(code, slots) && p < |code| && IsBranch(code[p]) && Inside(code, p)
    requires Agrees(rep, NeededSlots(code, p, slots) + Escaped(code), mem, mem')
    ensures var t := Target(code, code[p]);
            t.Some? ==> Inside(code, t.value) && Agrees(rep, NeededSlots(code, t.value, slots) + Escaped(code), mem, mem')
  {
    if Target(code, code[p]).Some? {
      var t := Target(code, code[p]).value;
      assert Succeeds(code, p, t);
      InsideStays(code, p, t);
      NeedsOnward(code, p, t, slots);
      hide NeededSlots;
      AgreesLess(rep, NeededSlots(code, p, slots) + Escaped(code), NeededSlots(code, t, slots) + Escaped(code), mem, mem');
    }
  }

  lemma OnwardAgrees(code: seq<Inst>, rep: map<nat, nat>, slots: nat, m: Machine, c: Cfg, mem': seq<int>)
    requires Fits(code, rep, slots) && c.pc < |code| && !Jumps(m, code[c.pc], c.state) && !IsReturn(code[c.pc])
    requires |c.mem| == slots && Inside(code, c.pc) && Agrees(rep, NeededSlots(code, c.pc, slots) + Escaped(code), c.mem, mem')
    ensures var e := Effect(code[c.pc], m, Escaped(code), c.state, c.mem);
            var e' := Effect(RemapInst(rep, code[c.pc]), m, Escaped(code), c.state, mem');
            && e.Some? && e'.Some? && e'.value.0 == e.value.0 && |e.value.1| == slots && Inside(code, c.pc + 1)
            && Agrees(rep, NeededSlots(code, c.pc + 1, slots) + Escaped(code), e.value.1, e'.value.1)
  {
    assert InstOk(code[c.pc], slots);
    assert Succeeds(code, c.pc, c.pc + 1);
    InsideStays(code, c.pc, c.pc + 1);
    hide Inside, StoresAlone, Agrees, CodeOk, Effect, Suits, KeepsEscaped, InstOk, NeededSlots, Succeeds;
    OnwardSuits(code, rep, slots, c.pc);
    EffectAgrees(code[c.pc], rep, Escaped(code), NeededSlots(code, c.pc, slots), NeededSlots(code, c.pc + 1, slots), slots, m, c.state, c.mem, mem');
  }

  lemma OnwardSuits(code: seq<Inst>, rep: map<nat, nat>, slots: nat, p: nat)
    requires Fits(code, rep, slots) && p < |code| && Succeeds(code, p, p + 1) && Inside(code, p)
    ensures Suits(code[p], rep, Escaped(code), NeededSlots(code, p, slots), NeededSlots(code, p + 1, slots))
  {
    hide Inside, CodeOk, KeepsEscaped, NeededSlots, Alone;
    NeedsOnward(code, p, p + 1, slots);
  }

  /** Whole runs stay together. */
  lemma {:induction false} RunMatches(code: seq<Inst>, rep: map<nat, nat>, slots: nat, m: Machine, c: Cfg, c': Cfg, n: nat)
    requires Fits(code, rep, slots) && Matches(code, rep, slots, c, c')
    ensures Matches(code, rep, slots, Run(code, m, Escaped(code), c, n), Run(Renamed(code, rep), m, Escaped(code), c', n))
    decreases n
  {
    hide Step, Matches, Fits;
    if n > 0 {
      StepMatches(code, rep, slots, m, c, c');
      var d, d' := Step(code, m, Escaped(code), c), Step(Renamed(code, rep), m, Escaped(code), c');
      if d.Some? {
        RunMatches(code, rep, slots, m, d.value, d'.value, n - 1);
      }
    }
  }

  // ---------------------------------------------------------------------
  // the pass
  // ---------------------------------------------------------------------

  /** The renamed code behaves as the original from matching frames: after any number of instructions both are
      at the same place, in the same state, with the same contents in every slot an address can reach. */
  ghost predicate SameRuns(code: seq<Inst>, rep: map<nat, nat>, slots: nat) {
    forall m: Machine, c: Cfg, c': Cfg, n: nat | Matching(code, rep, slots, c, c') ::
      SameEnd(Escaped(code), Run(code, m, Escaped(code), c, n), Run(Renamed(code, rep), m, Escaped(code), c', n))
  }

  /** Two starts of the function in one state, whose frames agree on what it needs. */
  ghost predicate Matching(code: seq<Inst>, rep: map<nat, nat>, slots: nat, c: Cfg, c': Cfg) {
    && c.pc == c'.pc == 0 && c.state == c'.state && |c.mem| == slots
    && Agrees(rep, NeededSlots(code, 0, slots) + Escaped(code), c.mem, c'.mem)
  }

  ghost predicate SameEnd(esc: set<nat>, d: Cfg, d': Cfg) {
    d'.pc == d.pc && d'.state == d.state && |d'.mem| == |d.mem| && forall s | s in esc && s < |d.mem| :: d'.mem[s] == d.mem[s]
  }

  lemma FitsRunsSame(code: seq<Inst>, rep: map<nat, nat>, slots: nat)
    requires Fits(code, rep, slots)
    ensures SameRuns(code, rep, slots)
  {
    hide Run, Agrees, CodeOk, StoresAlone;
    forall m: Machine, c: Cfg, c': Cfg, n: nat | Matching(code, rep, slots, c, c')
      ensures SameEnd(Escaped(code), Run(code, m, Escaped(code), c, n), Run(Renamed(code, rep), m, Escaped(code), c', n))
    {
      RunMatches(code, rep, slots, m, c, c', n);
      var d, d' := Run(code, m, Escaped(code), c, n), Run(Renamed(code, rep), m, Escaped(code), c', n);
      EndAgrees(code, rep, slots, d, d');
    }
  }

  lemma EndAgrees(code: seq<Inst>, rep: map<nat, nat>, slots: nat, d: Cfg, d': Cfg)
    requires KeepsEscaped(rep, Escaped(code)) && Matches(code, rep, slots, d, d')
    ensures SameEnd(Escaped(code), d, d')
  {
    forall s | s in Escaped(code) && s < |d.mem| ensures d'.mem[s] == d.mem[s] {
      AgreesOn(rep, NeededSlots(code, d.pc, slots) + Escaped(code), d.mem, d'.mem, s);
    }
  }

  /** The renaming fits the code it was made for. */
  lemma RenamingFits(code: seq<Inst>, an: Analysis, busy: seq<set<nat>>, cands: seq<nat>, rep: map<nat, nat>, slots: nat, wide: set<nat>, promoted: set<nat>)
    requires Recorded(code, an, busy) && CodeOk(code, slots) && HarmlessStores(code) && Shares(busy, cands, rep)
    requires forall s: nat :: s in cands <==> s < slots && Candidate(code, wide, promoted, s)
    ensures Fits(code, rep, slots)
  {
    FindsNeedsIff(code, an);
    hide HarmlessStores, FindsNeeds, Recorded;
    forall s | s in Escaped(code) ensures Remap(rep, s) == s && forall t: nat | t != s :: Remap(rep, t) != s {
      assert s !in cands;
    }
    hide Candidate, Escaped, Alone, Inside;
    forall p: nat | p < |code| && SlotDef(code[p]).Some? && Inside(code, p)
      ensures Alone(rep, NeededSlots(code, p + 1, slots) + Escaped(code), SlotDef(code[p]).value)
    {
      StoredAlone(code, an, busy, cands, rep, slots, p);
    }
  }

  /** The renaming: activity, candidates, groups and their names. */
  method ChooseNames(code: seq<Inst>, an: Analysis, slots: nat, wide: set<nat>, promoted: set<nat>)
    returns (saved: nat, rep: map<nat, nat>, ghost busy: seq<set<nat>>)
    requires Analysed(code, an) && CodeOk(code, slots)
    ensures saved == |rep| && Recorded(code, an, busy)
    ensures forall s | s in rep :: Candidate(code, wide, promoted, s) && Candidate(code, wide, promoted, rep[s]) && rep[s] < s < slots
    ensures forall s | s in rep :: rep[s] !in rep
    ensures HarmlessStores(code) ==> Fits(code, rep, slots)
    ensures slots * |code| <= BITMAP_BUDGET ==>
              NoneSpare(code, busy, rep, slots, wide, promoted) && SavesMost(busy, CandidateSet(code, slots, wide, promoted), saved)
  {
    hide HarmlessStores, CodeOk, Recorded, Hulls, Placed, Represents, AllRepresented, Shares, Candidate, Fits, Analysed, NoneSpare, FirstFit, Active, InOrder, ByStart, SavesMost, Members;
    var record, first, last := Activity(code, an, slots);
    busy := record;
    var cands := Candidates(code, slots, wide, promoted, first);
    assert forall i | 0 <= i < |cands| :: cands[i] in cands;
    if slots * |code| <= BITMAP_BUDGET {
      assert |busy| == |code| by { RecordedLength(code, an, busy); }
      CandidatesActive(code, an, busy, slots, wide, promoted, cands);
      OrderIsByStart(busy, first, last, cands);
    }
    var groups := Colour(record, first, last, cands);
    GroupsProper(busy, groups, cands);
    rep, saved := Representatives(groups);
    RepresentativesShare(busy, groups, cands, rep);
    LeastNames(busy, groups, cands, rep);
    if slots * |code| <= BITMAP_BUDGET {
      FirstFitSpares(code, busy, groups, cands, rep, slots, wide, promoted);
      GroupsAreFewest(code, busy, groups, cands, slots, wide, promoted, saved);
    }
    if HarmlessStores(code) {
      RenamingFits(code, an, busy, cands, rep, slots, wide, promoted);
    }
  }

  /** By the recorded first activities is by the first activities there are. */
  lemma OrderIsByStart(busy: seq<set<nat>>, first: seq<Option<nat>>, last: seq<nat>, cands: seq<nat>)
    requires Hulls(busy, first, last) && (forall i | 0 <= i < |cands| :: cands[i] < |first| && Active(busy, cands[i])) && InOrder(first, cands)
    ensures ByStart(busy, cands)
  {
    hide Hulls, Active;
    forall i, j | 0 <= i < j < |cands| ensures ComesBefore(busy, cands[i], cands[j]) {
      FirstIsStart(busy, first, last, cands[i]);
      FirstIsStart(busy, first, last, cands[j]);
      assert Earlier(first, cands[i], cands[j]);
    }
  }

  lemma FirstIsStart(busy: seq<set<nat>>, first: seq<Option<nat>>, last: seq<nat>, s: nat)
    requires Hulls(busy, first, last) && s < |first| && Active(busy, s)
    ensures first[s].Some? && StartsAt(busy, s, first[s].value)
  {
    assert HullOf(busy, first[s], last[s], s);
  }

  lemma GroupsAreFewest(code: seq<Inst>, busy: seq<set<nat>>, groups: seq<Group>, cands: seq<nat>, slots: nat, wide: set<nat>, promoted: set<nat>, saved: nat)
    requires Placed(busy, groups, cands) && FirstFit(busy, groups) && saved == Members(groups) - |groups| && Members(groups) == |cands|
    requires (forall i, j | 0 <= i < j < |cands| :: cands[i] != cands[j]) && forall i | 0 <= i < |cands| :: Active(busy, cands[i])
    requires forall s: nat :: s in cands <==> s < slots && Candidate(code, wide, promoted, s)
    ensures SavesMost(busy, CandidateSet(code, slots, wide, promoted), saved)
  {
    hide Placed, FirstFit, Candidate, Busiest, OneRun, Active, Members;
    assert CandidateSet(code, slots, wide, promoted) == Elements(cands);
    ElementsCount(cands);
    if forall s | s in cands :: OneRun(busy, s) {
      FirstFitIsTight(busy, groups, cands);
    }
  }

  lemma {:induction false} ElementsCount(cands: seq<nat>)
    requires forall i, j | 0 <= i < j < |cands| :: cands[i] != cands[j]
    ensures |Elements(cands)| == |cands|
  {
    if cands == [] {
      assert Elements(cands) == {};
    } else {
      var m := |cands| - 1;
      ElementsCount(cands[..m]);
      assert cands == cands[..m] + [cands[m]];
      assert Elements(cands) == Elements(cands[..m]) + {cands[m]};
    }
  }

  lemma RecordedLength(code: seq<Inst>, an: Analysis, busy: seq<set<nat>>)
    requires Recorded(code, an, busy)
    ensures |busy| == |code|
  {
  }

  /** The slots of graph nodes, renamed. */
  function RemapNodes(slotOf: map<int, nat>, rep: map<nat, nat>): (r: map<int, nat>)
    ensures forall k :: k in r <==> k in slotOf
    ensures forall k | k in r :: r[k] == Remap(rep, slotOf[k])
  {
    map k | k in slotOf :: Remap(rep, slotOf[k])
  }

  /** Slots never active together get one id, in the stream and for the graph nodes; only a stream with an unknown
      branch target is left alone. */
  method Recolor(code: seq<Inst>, slots: nat, slotOf: map<int, nat>, wide: set<nat>, promoted: set<nat>)
    returns (saved: nat, code': seq<Inst>, slotOf': map<int, nat>, rep: map<nat, nat>, ghost busy: seq<set<nat>>)
    requires CodeOk(code, slots)
    ensures code' == Renamed(code, rep) && slotOf' == RemapNodes(slotOf, rep) && saved == |rep|
    ensures forall s | s in rep :: Candidate(code, wide, promoted, s) && Candidate(code, wide, promoted, rep[s]) && rep[s] < s < slots
    ensures forall s | s in rep :: rep[s] !in rep
    ensures HarmlessStores(code) ==> SameRuns(code, rep, slots)
    ensures code == [] || slots == 0 || UnknownTarget(code) || exists an :: Recorded(code, an, busy) && LeastLive(code, an)
    ensures code == [] || slots == 0 || UnknownTarget(code) || slots * |code| > BITMAP_BUDGET ||
              (NoneSpare(code, busy, rep, slots, wide, promoted) && SavesMost(busy, CandidateSet(code, slots, wide, promoted), saved))
  {
    hide SameRuns, HarmlessStores, CodeOk, Recorded, Candidate, Fits, Analysed, UnknownTarget, LeastLive, NoneSpare, SavesMost;
    busy := [];
    if code == [] || slots == 0 {
      saved, code', rep := 0, code, map[];
      slotOf' := RemapNodes(slotOf, rep);
      UnchangedIsRenamed(code, slots);
      return;
    }
    LabelsNamed(code, slots);
    var a := Analyse(code);
    if a.None? {
      saved, code', rep := 0, code, map[];
      slotOf' := RemapNodes(slotOf, rep);
      UnchangedIsRenamed(code, slots);
      return;
    }
    saved, rep, busy := ChooseNames(code, a.value, slots, wide, promoted);
    code' := Rewrite(code, rep);
    slotOf' := RemapNodes(slotOf, rep);
    if HarmlessStores(code) {
      FitsRunsSame(code, rep, slots);
    }
  }

  /** s and t have ids of their own for a reason: a slot that goes by s's id comes before t and is active together
      with it. */
  ghost predicate Meets(busy: seq<set<nat>>, rep: map<nat, nat>, slots: nat, s: nat, t: nat) {
    exists u: nat :: u < slots && Remap(rep, u) == Remap(rep, s) && ComesBefore(busy, u, t) && !NeverBoth(busy, u, t)
  }

  /** All slots that may share. */
  ghost function CandidateSet(code: seq<Inst>, slots: nat, wide: set<nat>, promoted: set<nat>): (r: set<nat>)
    ensures forall s: nat :: s in r <==> s < slots && Candidate(code, wide, promoted, s)
  {
    set s: nat | s < slots && Candidate(code, wide, promoted, s)
  }

  /** Where every candidate's activity is one run, as many ids are left for the candidates as are active together at
      the busiest position: no renaming saves more. */
  ghost predicate SavesMost(busy: seq<set<nat>>, cands: set<nat>, saved: nat) {
    saved <= |cands| && ((forall s | s in cands :: OneRun(busy, s)) ==> Busiest(busy, cands, |cands| - saved))
  }

  ghost predicate NoneSpare(code: seq<Inst>, busy: seq<set<nat>>, rep: map<nat, nat>, slots: nat, wide: set<nat>, promoted: set<nat>) {
    forall s: nat, t: nat | s < slots && t < slots && Candidate(code, wide, promoted, s) && Candidate(code, wide, promoted, t)
                            && Remap(rep, s) != Remap(rep, t) ::
      Meets(busy, rep, slots, s, t) || Meets(busy, rep, slots, t, s)
  }

  /** Every slot of a group goes by its least id. */
  lemma GroupName(groups: seq<Group>, rep: map<nat, nat>, g: nat, s: nat, t: nat)
    requires Separate(groups) && Represents(groups, rep, |groups|) && AllRepresented(groups, rep, |groups|)
    requires g < |groups| && s in groups[g].slots && t in groups[g].slots
    ensures Remap(rep, s) == Remap(rep, t)
  {
    NameIsLeast(groups, rep, g, s);
    NameIsLeast(groups, rep, g, t);
  }

  lemma NameIsLeast(groups: seq<Group>, rep: map<nat, nat>, g: nat, s: nat)
    requires Separate(groups) && Represents(groups, rep, |groups|) && AllRepresented(groups, rep, |groups|)
    requires g < |groups| && s in groups[g].slots
    ensures Remap(rep, s) in groups[g].slots && forall t | t in groups[g].slots :: Remap(rep, s) <= t
  {
    if s in rep {
      var h: nat :| h < |groups| && RepIn(groups[h], s, rep[s]);
      OneGroup(groups, g, h, s);
    }
  }

  lemma FirstFitMeets(busy: seq<set<nat>>, groups: seq<Group>, cands: seq<nat>, rep: map<nat, nat>, slots: nat, g: nat, h: nat, s: nat, t: nat)
    requires Placed(busy, groups, cands) && Represents(groups, rep, |groups|) && AllRepresented(groups, rep, |groups|)
    requires FirstFit(busy, groups) && (forall c | c in cands :: c < slots)
    requires g < h < |groups| && s in groups[g].slots && t in groups[h].slots
    ensures Meets(busy, rep, slots, s, t)
  {
    assert Clash(busy, groups[g], t);
    var u: nat :| u in groups[g].slots && ComesBefore(busy, u, t) && !NeverBoth(busy, u, t);
    assert u in cands;
    GroupName(groups, rep, g, u, s);
  }

  lemma FirstFitSpares(code: seq<Inst>, busy: seq<set<nat>>, groups: seq<Group>, cands: seq<nat>, rep: map<nat, nat>, slots: nat, wide: set<nat>, promoted: set<nat>)
    requires Placed(busy, groups, cands) && Represents(groups, rep, |groups|) && AllRepresented(groups, rep, |groups|) && FirstFit(busy, groups)
    requires forall s: nat :: s in cands <==> s < slots && Candidate(code, wide, promoted, s)
    ensures NoneSpare(code, busy, rep, slots, wide, promoted)
  {
    forall s: nat, t: nat | s < slots && t < slots && Candidate(code, wide, promoted, s) && Candidate(code, wide, promoted, t)
                            && Remap(rep, s) != Remap(rep, t)
      ensures Meets(busy, rep, slots, s, t) || Meets(busy, rep, slots, t, s)
    {
      assert s in cands && t in cands;
      var g: nat :| g < |groups| && s in groups[g].slots;
      var h: nat :| h < |groups| && t in groups[h].slots;
      hide FirstFit, Represents, AllRepresented, Candidate, Meets;
      if g == h {
        GroupName(groups, rep, g, s, t);
      } else if g < h {
        FirstFitMeets(busy, groups, cands, rep, slots, g, h, s, t);
      } else {
        FirstFitMeets(busy, groups, cands, rep, slots, h, g, t, s);
      }
    }
  }

  lemma TouchedIsActive(code: seq<Inst>, an: Analysis, busy: seq<set<nat>>, p: nat, s: nat)
    requires Recorded(code, an, busy) && p < |code| && s in Touched(code[p])
    ensures Active(busy, s)
  {
    AtInstruction(code, an, p);
    assert s in busy[p];
  }

  /** A slot some instruction touches is active there. */
  lemma CandidatesActive(code: seq<Inst>, an: Analysis, busy: seq<set<nat>>, slots: nat, wide: set<nat>, promoted: set<nat>, cands: seq<nat>)
    requires Recorded(code, an, busy) && forall s: nat :: s in cands <==> s < slots && Candidate(code, wide, promoted, s)
    ensures forall i | 0 <= i < |cands| :: Active(busy, cands[i])
  {
    hide Recorded, Active;
    forall i | 0 <= i < |cands| ensures Active(busy, cands[i]) {
      assert cands[i] in cands;
      var p: nat :| p < |code| && cands[i] in Touched(code[p]);
      TouchedIsActive(code, an, busy, p, cands[i]);
    }
  }

  lemma LabelsNamed(code: seq<Inst>, slots: nat)
    requires CodeOk(code, slots)
    ensures forall i | 0 <= i < |code| && IsLabel(code[i]) :: code[i].a.Lab?
  {
    forall i | 0 <= i < |code| && IsLabel(code[i]) ensures code[i].a.Lab? {
      assert InstOk(code[i], slots);
    }
  }

  lemma GroupsProper(busy: seq<set<nat>>, groups: seq<Group>, cands: seq<nat>)
    requires Placed(busy, groups, cands)
    ensures Separate(groups) && forall g | 0 <= g < |groups| :: groups[g].slots != [] && DistinctSlots(groups[g].slots)
  {
    forall g | 0 <= g < |groups| ensures groups[g].slots != [] && DistinctSlots(groups[g].slots) {
      assert GroupOk(busy, groups[g]);
    }
  }

  lemma LeastNames(busy: seq<set<nat>>, groups: seq<Group>, cands: seq<nat>, rep: map<nat, nat>)
    requires Placed(busy, groups, cands) && Represents(groups, rep, |groups|)
    ensures forall s | s in rep :: rep[s] < s && rep[s] !in rep && s in cands && rep[s] in cands
  {
    forall s | s in rep ensures rep[s] < s && rep[s] !in rep && s in cands && rep[s] in cands {
      var g :| 0 <= g < |groups| && RepIn(groups[g], s, rep[s]);
      forall h: nat | h < |groups| && rep[s] in groups[h].slots ensures h == g {
        OneGroup(groups, g, h, rep[s]);
      }
    }
  }

  lemma OneGroup(groups: seq<Group>, g: nat, h: nat, s: nat)
    requires Separate(groups) && g < |groups| && h < |groups| && s in groups[g].slots && s in groups[h].slots
    ensures g == h
  {
    assert !Apart(groups[g], groups[h]) && !Apart(groups[h], groups[g]);
  }

  method Rewrite(code: seq<Inst>, rep: map<nat, nat>) returns (code': seq<Inst>)
    ensures code' == Renamed(code, rep)
  {
    code' := code;
    for i := 0 to |code|
      invariant |code'| == |code|
      invariant forall j | 0 <= j < |code| :: code'[j] == if j < i then RemapInst(rep, code[j]) else code[j]
    {
      code' := code'[i := RemapInst(rep, code'[i])];
    }
  }

  /** With no renaming the runs are the same runs. */
  lemma UnchangedIsRenamed(code: seq<Inst>, slots: nat)
    requires CodeOk(code, slots)
    ensures Renamed(code, map[]) == code
    ensures SameRuns(code, map[], slots)
  {
    forall i | 0 <= i < |code| ensures RemapInst(map[], code[i]) == code[i] {
    }
    assert Renamed(code, map[]) == code;
    FitsRunsSame(code, map[], slots);
  }
}
