/** What code needs: values some path of instructions reads before overwriting them. Nothing here depends on
    any analysis; analyses are measured against it. */
module CodeNeeds {
  import opened Options
  import opened SlotCode

  /** What an instruction reads, and what it certainly overwrites. */
  datatype Uses = Uses(reading: Inst -> set<nat>, hiding: Inst -> set<nat>)

  /** Control can go from p to q in one instruction. */
  predicate Succeeds(code: seq<Inst>, p: nat, q: nat) {
    && p < |code| && !IsReturn(code[p])
    && ((q == p + 1 && !code[p].op.Jmp?) || (IsBranch(code[p]) && Target(code, code[p]) == Some(q)))
  }

  /** Some path of at most n instructions from p on reads s before overwriting it. Labels do nothing. */
  ghost predicate NeededWithin(u: Uses, code: seq<Inst>, p: nat, s: nat, n: nat)
    decreases n
  {
    && n > 0 && p < |code|
    && ((!IsLabel(code[p]) && s in u.reading(code[p])) ||
        ((IsLabel(code[p]) || s !in u.hiding(code[p])) && exists q :: Succeeds(code, p, q) && NeededWithin(u, code, q, s, n - 1)))
  }

  ghost predicate Needed(u: Uses, code: seq<Inst>, p: nat, s: nat) {
    exists n: nat :: NeededWithin(u, code, p, s, n)
  }

  /** What is needed at p, among the first `bound` values. */
  ghost function NeededAt(u: Uses, code: seq<Inst>, p: nat, bound: nat): (r: set<nat>)
    ensures forall s: nat :: s in r <==> s < bound && Needed(u, code, p, s)
  {
    set s: nat | s < bound && Needed(u, code, p, s)
  }

  /** Reading makes a need, and a need behind an instruction that does not overwrite is one before it. */
  lemma NeedsBefore(u: Uses, code: seq<Inst>, p: nat, s: nat)
    requires p < |code|
    ensures !IsLabel(code[p]) && s in u.reading(code[p]) ==> Needed(u, code, p, s)
    ensures forall q | Succeeds(code, p, q) && Needed(u, code, q, s) && (IsLabel(code[p]) || s !in u.hiding(code[p])) ::
              Needed(u, code, p, s)
  {
    if !IsLabel(code[p]) && s in u.reading(code[p]) {
      assert NeededWithin(u, code, p, s, 1);
    }
    forall q | Succeeds(code, p, q) && Needed(u, code, q, s) && (IsLabel(code[p]) || s !in u.hiding(code[p]))
      ensures Needed(u, code, p, s)
    {
      var n: nat :| NeededWithin(u, code, q, s, n);
      assert NeededWithin(u, code, p, s, n + 1);
    }
  }

  /** There is no other way to come to a need. */
  lemma NeedsExactly(u: Uses, code: seq<Inst>, p: nat, s: nat)
    ensures Needed(u, code, p, s) <==>
            && p < |code|
            && ((!IsLabel(code[p]) && s in u.reading(code[p])) ||
                ((IsLabel(code[p]) || s !in u.hiding(code[p])) && exists q :: Succeeds(code, p, q) && Needed(u, code, q, s)))
  {
    if Needed(u, code, p, s) {
      var n: nat :| NeededWithin(u, code, p, s, n);
      if IsLabel(code[p]) || s !in u.reading(code[p]) {
        var q: nat :| Succeeds(code, p, q) && NeededWithin(u, code, q, s, n - 1);
        assert Needed(u, code, q, s);
      }
    }
    if p < |code| {
      NeedsBefore(u, code, p, s);
    }
  }

  /** Control can be at p: nothing between the label before it and p leaves for good. */
  predicate Inside(code: seq<Inst>, p: nat) {
    p == 0 || p >= |code| || IsLabel(code[p]) || IsLabel(code[p - 1])
    || (!code[p - 1].op.Jmp? && !IsReturn(code[p - 1]) && Inside(code, p - 1))
  }

  /** Control stays where it can be. */
  lemma InsideStays(code: seq<Inst>, p: nat, q: nat)
    requires Inside(code, p) && Succeeds(code, p, q)
    ensures Inside(code, q)
  {
  }

  /** Between the label before it and p nothing leaves for good. */
  lemma {:induction false} InsideBack(code: seq<Inst>, lo: nat, p: nat)
    requires lo <= p < |code| && Inside(code, p) && forall j | lo <= j <= p :: !IsLabel(code[j])
    ensures forall j | lo <= j < p :: !code[j].op.Jmp? && !IsReturn(code[j])
    decreases p
  {
    if lo < p {
      InsideBack(code, lo, p - 1);
    }
  }

  lemma {:induction false} InsideFrom(code: seq<Inst>, lo: nat, p: nat)
    requires lo <= p && Inside(code, lo) && forall j | lo <= j < p && j < |code| :: !code[j].op.Jmp? && !IsReturn(code[j])
    ensures Inside(code, p)
    decreases p
  {
    if lo < p {
      InsideFrom(code, lo, p - 1);
    }
  }

  /** Control can be at the branch p, and where it leads, s is needed. */
  ghost predicate BranchNeeds(u: Uses, code: seq<Inst>, p: nat, t: nat, s: nat) {
    p < |code| && Inside(code, p) && IsBranch(code[p]) && Target(code, code[p]) == Some(t) && Needed(u, code, t, s)
  }

  predicate LabelsDistinct(code: seq<Inst>) {
    forall i, j | 0 <= i < j < |code| && IsLabel(code[i]) && IsLabel(code[j]) :: code[i].a != code[j].a
  }
}
