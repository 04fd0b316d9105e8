/** First-fit groups of slots never active together, and how few there are. */
module SlotGroups {
  import opened Options
  import opened Dataflow
  import opened SlotActivity

  // ---------------------------------------------------------------------
  // groups
  // ---------------------------------------------------------------------

  /** Slots of one colour, and all their intervals. */
  datatype Group = Group(live: seq<(nat, nat)>, slots: seq<nat>)

  predicate Overlap(a: (nat, nat), b: (nat, nat)) {
    a.0 <= b.1 && b.0 <= a.1
  }

  ghost predicate NeverBoth(busy: seq<set<nat>>, s: nat, t: nat) {
    forall p: nat | p < |busy| :: !(s in busy[p] && t in busy[p])
  }

  ghost predicate Disjoint(a: seq<(nat, nat)>, b: seq<(nat, nat)>) {
    forall i, j | 0 <= i < |a| && 0 <= j < |b| :: !Overlap(a[i], b[j])
  }

  lemma DisjointNeverBoth(busy: seq<set<nat>>, a: seq<(nat, nat)>, s: nat, b: seq<(nat, nat)>, t: nat)
    requires Covers(a, busy, s) && Covers(b, busy, t) && Disjoint(a, b)
    ensures NeverBoth(busy, s, t)
  {
    forall p: nat | p < |busy| ensures !(s in busy[p] && t in busy[p]) {
      DisjointApart(a, b, p);
    }
  }

  lemma DisjointApart(a: seq<(nat, nat)>, b: seq<(nat, nat)>, p: nat)
    requires Disjoint(a, b)
    ensures !(In(a, p) && In(b, p))
  {
    if In(a, p) {
      var i :| 0 <= i < |a| && a[i].0 <= p <= a[i].1;
      forall j | 0 <= j < |b| ensures !(b[j].0 <= p <= b[j].1) {
        assert !Overlap(a[i], b[j]);
      }
    }
  }

  method Conflicts(live: seq<(nat, nat)>, ivs: seq<(nat, nat)>) returns (clash: bool)
    ensures clash <==> !Disjoint(live, ivs)
  {
    for i := 0 to |live|
      invariant Disjoint(live[..i], ivs)
    {
      for j := 0 to |ivs|
        invariant forall m | 0 <= m < j :: !Overlap(live[i], ivs[m])
      {
        if Overlap(live[i], ivs[j]) {
          return true;
        }
      }
      assert live[..i + 1] == live[..i] + [live[i]];
    }
    assert live[..|live|] == live;
    clash := false;
  }

  /** A group's intervals cover its slots; no two of them are ever active together. */
  ghost predicate GroupOk(busy: seq<set<nat>>, g: Group) {
    && g.slots != []
    && (forall i | 0 <= i < |g.slots| :: Covers(g.live, busy, g.slots[i]))
    && (forall i, j | 0 <= i < j < |g.slots| :: g.slots[i] != g.slots[j] && NeverBoth(busy, g.slots[i], g.slots[j]))
  }

  lemma CoversMore(busy: seq<set<nat>>, a: seq<(nat, nat)>, b: seq<(nat, nat)>, s: nat)
    requires Covers(a, busy, s) || Covers(b, busy, s)
    ensures Covers(a + b, busy, s)
  {
    forall p: nat | p < |busy| && s in busy[p] ensures In(a + b, p) {
      if In(a, p) {
        var i :| 0 <= i < |a| && a[i].0 <= p <= a[i].1;
        assert (a + b)[i].0 <= p <= (a + b)[i].1;
      } else {
        var i :| 0 <= i < |b| && b[i].0 <= p <= b[i].1;
        assert (a + b)[|a| + i].0 <= p <= (a + b)[|a| + i].1;
      }
    }
  }

  /** A slot whose intervals miss the group's joins it. */
  lemma GroupGrows(busy: seq<set<nat>>, g: Group, s: nat, ivs: seq<(nat, nat)>)
    requires GroupOk(busy, g) && Covers(ivs, busy, s) && Disjoint(g.live, ivs) && s !in g.slots
    ensures GroupOk(busy, Group(g.live + ivs, g.slots + [s]))
  {
    var g' := Group(g.live + ivs, g.slots + [s]);
    forall i | 0 <= i < |g'.slots| ensures Covers(g'.live, busy, g'.slots[i]) {
      CoversMore(busy, g.live, ivs, g'.slots[i]);
    }
    forall i | 0 <= i < |g.slots| ensures NeverBoth(busy, g.slots[i], s) {
      DisjointNeverBoth(busy, g.live, g.slots[i], ivs, s);
    }
  }

  /** No slot is in two groups. */
  ghost predicate Separate(groups: seq<Group>) {
    forall g, h | 0 <= g < h < |groups| :: Apart(groups[g], groups[h])
  }

  ghost predicate Apart(g: Group, h: Group) {
    forall s | s in g.slots :: s !in h.slots
  }

  /** The slots placed so far, group by group. */
  ghost predicate Placed(busy: seq<set<nat>>, groups: seq<Group>, done: seq<nat>) {
    && (forall g | 0 <= g < |groups| :: GroupOk(busy, groups[g]))
    && (forall s :: s in done <==> exists g :: 0 <= g < |groups| && s in groups[g].slots)
    && Separate(groups)
  }

  lemma JoinPlaces(busy: seq<set<nat>>, groups: seq<Group>, done: seq<nat>, g: nat, s: nat, ivs: seq<(nat, nat)>)
    requires Placed(busy, groups, done) && g < |groups| && s !in done && Covers(ivs, busy, s) && Disjoint(groups[g].live, ivs)
    ensures Placed(busy, groups[g := Group(groups[g].live + ivs, groups[g].slots + [s])], done + [s])
  {
    var g' := Group(groups[g].live + ivs, groups[g].slots + [s]);
    var groups' := groups[g := g'];
    GroupGrows(busy, groups[g], s, ivs);
    forall t ensures t in done + [s] <==> exists h :: 0 <= h < |groups'| && t in groups'[h].slots {
      if t == s {
        assert t in groups'[g].slots;
      } else if t in done {
        var h :| 0 <= h < |groups| && t in groups[h].slots;
        assert t in groups'[h].slots;
      }
    }
  }

  lemma OpenPlaces(busy: seq<set<nat>>, groups: seq<Group>, done: seq<nat>, s: nat, ivs: seq<(nat, nat)>)
    requires Placed(busy, groups, done) && s !in done && Covers(ivs, busy, s)
    ensures Placed(busy, groups + [Group(ivs, [s])], done + [s])
  {
    var groups' := groups + [Group(ivs, [s])];
    forall t ensures t in done + [s] <==> exists h :: 0 <= h < |groups'| && t in groups'[h].slots {
      if t == s {
        assert t in groups'[|groups|].slots;
      } else if t in done {
        var h :| 0 <= h < |groups| && t in groups[h].slots;
        assert t in groups'[h].slots;
      }
    }
  }

  /** The slot becomes active at p. */
  ghost predicate StartsAt(busy: seq<set<nat>>, s: nat, p: nat) {
    p < |busy| && s in busy[p] && forall q | 0 <= q < p :: s !in busy[q]
  }

  /** s becomes active before t, or at once and has the smaller id. */
  ghost predicate ComesBefore(busy: seq<set<nat>>, s: nat, t: nat) {
    exists p: nat, q: nat :: StartsAt(busy, s, p) && StartsAt(busy, t, q) && (p < q || (p == q && s < t))
  }

  /** Some slot of the group that comes before s is active together with it. */
  ghost predicate Clash(busy: seq<set<nat>>, g: Group, s: nat) {
    exists t: nat :: t in g.slots && ComesBefore(busy, t, s) && !NeverBoth(busy, t, s)
  }

  /** No group claims more than its slots' activity. */
  ghost predicate Honest(busy: seq<set<nat>>, g: Group) {
    && (forall i | 0 <= i < |g.live| :: g.live[i].0 <= g.live[i].1)
    && forall p: nat | In(g.live, p) :: p < |busy| && exists t: nat :: t in g.slots && t in busy[p]
  }

  /** First fit: whatever is in a later group clashes with some earlier slot of each earlier one. */
  ghost predicate FirstFit(busy: seq<set<nat>>, groups: seq<Group>) {
    && (forall g | 0 <= g < |groups| :: Honest(busy, groups[g]))
    && forall g, h, s: nat | 0 <= g < h < |groups| && s in groups[h].slots :: Clash(busy, groups[g], s)
  }

  /** The list goes by first activity, then id. */
  ghost predicate ByStart(busy: seq<set<nat>>, cands: seq<nat>) {
    forall i, j | 0 <= i < j < |cands| :: ComesBefore(busy, cands[i], cands[j])
  }

  /** The runs of every candidate were recorded and are not empty. */
  ghost predicate RunsKnown(busy: seq<set<nat>>, slots: nat, cands: seq<nat>) {
    slots * |busy| <= BITMAP_BUDGET && (forall i | 0 <= i < |cands| :: Active(busy, cands[i])) && ByStart(busy, cands)
  }

  lemma ConflictIsClash(busy: seq<set<nat>>, g: Group, s: nat, ivs: seq<(nat, nat)>)
    requires Honest(busy, g) && Exact(ivs, busy, s) && !Disjoint(g.live, ivs)
    requires forall t | t in g.slots :: ComesBefore(busy, t, s)
    ensures Clash(busy, g, s)
  {
    var i, j :| 0 <= i < |g.live| && 0 <= j < |ivs| && Overlap(g.live[i], ivs[j]);
    var p: nat := if g.live[i].0 <= ivs[j].0 then ivs[j].0 else g.live[i].0;
    assert g.live[i].0 <= p <= g.live[i].1 && ivs[j].0 <= p <= ivs[j].1;
    assert In(g.live, p) && In(ivs, p);
    var t: nat :| t in g.slots && t in busy[p];
    assert !NeverBoth(busy, t, s);
  }

  lemma HonestGrows(busy: seq<set<nat>>, g: Group, s: nat, ivs: seq<(nat, nat)>)
    requires Honest(busy, g) && Exact(ivs, busy, s)
    ensures Honest(busy, Group(g.live + ivs, g.slots + [s]))
  {
    var more := g.live + ivs;
    forall p: nat | In(more, p) ensures p < |busy| && exists t: nat :: t in g.slots + [s] && t in busy[p] {
      var i :| 0 <= i < |more| && more[i].0 <= p <= more[i].1;
      if i < |g.live| {
        assert In(g.live, p);
        var t: nat :| t in g.slots && t in busy[p];
        assert t in g.slots + [s];
      } else {
        assert ivs[i - |g.live|].0 <= p <= ivs[i - |g.live|].1;
        assert In(ivs, p) && s in g.slots + [s];
      }
    }
  }

  lemma JoinFits(busy: seq<set<nat>>, groups: seq<Group>, g: nat, s: nat, ivs: seq<(nat, nat)>)
    requires FirstFit(busy, groups) && g < |groups| && Exact(ivs, busy, s)
    requires forall h | 0 <= h < g :: Clash(busy, groups[h], s)
    ensures FirstFit(busy, groups[g := Group(groups[g].live + ivs, groups[g].slots + [s])])
  {
    var g' := Group(groups[g].live + ivs, groups[g].slots + [s]);
    var groups' := groups[g := g'];
    HonestGrows(busy, groups[g], s, ivs);
    hide Honest, Exact;
    forall a, b, t: nat | 0 <= a < b < |groups'| && t in groups'[b].slots ensures Clash(busy, groups'[a], t) {
      if b == g && t == s {
        assert Clash(busy, groups[a], s);
      } else {
        assert t in groups[b].slots && Clash(busy, groups[a], t);
        var u: nat :| u in groups[a].slots && ComesBefore(busy, u, t) && !NeverBoth(busy, u, t);
        assert u in groups'[a].slots;
      }
    }
  }

  lemma OpenFits(busy: seq<set<nat>>, groups: seq<Group>, s: nat, ivs: seq<(nat, nat)>)
    requires FirstFit(busy, groups) && Exact(ivs, busy, s) && forall h | 0 <= h < |groups| :: Clash(busy, groups[h], s)
    ensures FirstFit(busy, groups + [Group(ivs, [s])])
  {
    assert Honest(busy, Group(ivs, [s])) by {
      forall p: nat | In(ivs, p) ensures p < |busy| && exists t: nat :: t in [s] && t in busy[p] {
        assert s in [s];
      }
    }
  }

  /** Greedy colouring: each candidate joins the first group it does not conflict with. */
  method Colour(busy: seq<set<nat>>, first: seq<Option<nat>>, last: seq<nat>, cands: seq<nat>) returns (groups: seq<Group>)
    requires Hulls(busy, first, last) && forall i | 0 <= i < |cands| :: cands[i] < |first|
    requires forall i, j | 0 <= i < j < |cands| :: cands[i] != cands[j]
    ensures Placed(busy, groups, cands) && Members(groups) == |cands|
    ensures RunsKnown(busy, |first|, cands) ==> FirstFit(busy, groups)
  {
    hide Placed, Hulls, Covers, Disjoint, FirstFit, Clash, Exact, Members, ByStart, ComesBefore;
    groups := [];
    NonePlaced(busy);
    assert Members([]) == 0 by { NoMembers(); }
    ghost var known := RunsKnown(busy, |first|, cands);
    for k := 0 to |cands|
      invariant Placed(busy, groups, cands[..k]) && Members(groups) == k && (known ==> FirstFit(busy, groups))
    {
      var s := cands[k];
      var ivs := Intervals(busy, first, last, s);
      assert cands[..k + 1] == cands[..k] + [s] && s !in cands[..k];
      var placed := false;
      var g := 0;
      while g < |groups| && !placed
        invariant 0 <= g <= |groups| && (known ==> FirstFit(busy, groups))
        invariant Placed(busy, groups, if placed then cands[..k + 1] else cands[..k]) && Members(groups) == if placed then k + 1 else k
        invariant known && !placed ==> forall h | 0 <= h < g :: Clash(busy, groups[h], s)
        decreases |groups| - g
      {
        var clash := Conflicts(groups[g].live, ivs);
        if !clash {
          JoinPlaces(busy, groups, cands[..k], g, s, ivs);
          if known {
            JoinFits(busy, groups, g, s, ivs);
          }
          MembersJoin(groups, g, Group(groups[g].live + ivs, groups[g].slots + [s]));
          groups := groups[g := Group(groups[g].live + ivs, groups[g].slots + [s])];
          placed := true;
        } else if known {
          FitsHonest(busy, groups, g);
          PlacedBefore(busy, groups, cands, k, g);
          ConflictIsClash(busy, groups[g], s, ivs);
        }
        g := g + 1;
      }
      if !placed {
        OpenPlaces(busy, groups, cands[..k], s, ivs);
        if known {
          OpenFits(busy, groups, s, ivs);
        }
        MembersOpen(groups, Group(ivs, [s]));
        groups := groups + [Group(ivs, [s])];
      }
    }
    assert cands[..|cands|] == cands;
  }

  lemma FitsHonest(busy: seq<set<nat>>, groups: seq<Group>, g: nat)
    requires FirstFit(busy, groups) && g < |groups|
    ensures Honest(busy, groups[g])
  {
  }

  lemma NonePlaced(busy: seq<set<nat>>)
    ensures Placed(busy, [], []) && FirstFit(busy, [])
  {
  }

  /** How many slots the groups hold. */
  ghost function Members(groups: seq<Group>): nat {
    if groups == [] then 0 else Members(groups[..|groups| - 1]) + |groups[|groups| - 1].slots|
  }

  lemma NoMembers()
    ensures Members([]) == 0
  {
  }

  lemma MembersOpen(groups: seq<Group>, g: Group)
    ensures Members(groups + [g]) == Members(groups) + |g.slots|
  {
    assert (groups + [g])[..|groups|] == groups;
  }

  lemma {:induction false} MembersJoin(groups: seq<Group>, g: nat, g': Group)
    requires g < |groups|
    ensures Members(groups[g := g']) == Members(groups) - |groups[g].slots| + |g'.slots|
  {
    var m := |groups| - 1;
    if g == m {
      assert groups[g := g'][..m] == groups[..m];
    } else {
      assert groups[g := g'][..m] == groups[..m][g := g'];
      MembersJoin(groups[..m], g, g');
    }
  }

  /** Whatever has been placed comes before the next candidate. */
  lemma PlacedBefore(busy: seq<set<nat>>, groups: seq<Group>, cands: seq<nat>, k: nat, g: nat)
    requires k < |cands| && Placed(busy, groups, cands[..k]) && ByStart(busy, cands) && g < |groups|
    ensures forall t | t in groups[g].slots :: ComesBefore(busy, t, cands[k])
  {
    hide ComesBefore;
    forall t | t in groups[g].slots ensures ComesBefore(busy, t, cands[k]) {
      assert t in cands[..k];
      var i :| 0 <= i < k && cands[..k][i] == t;
      assert cands[i] == t;
    }
  }

  // ---------------------------------------------------------------------
  // as few groups as can be
  // ---------------------------------------------------------------------

  /** The slot is active from its first position to its last without a break. */
  ghost predicate OneRun(busy: seq<set<nat>>, s: nat) {
    forall p: nat, q: nat, r: nat | p <= q <= r < |busy| && s in busy[p] && s in busy[r] :: s in busy[q]
  }

  function Elements(cands: seq<nat>): set<nat> {
    set s | s in cands
  }

  ghost function ActiveAt(busy: seq<set<nat>>, cands: set<nat>, p: nat): set<nat>
    requires p < |busy|
  {
    cands * busy[p]
  }

  /** n candidates are active together at some position, and nowhere more. */
  ghost predicate Busiest(busy: seq<set<nat>>, cands: set<nat>, n: nat) {
    && (forall p: nat | p < |busy| :: |ActiveAt(busy, cands, p)| <= n)
    && (n > 0 ==> exists p: nat :: p < |busy| && |ActiveAt(busy, cands, p)| == n)
  }

  /** Members of the first n groups active at p: one for each group at most. */
  ghost function InGroups(groups: seq<Group>, n: nat, at: set<nat>): set<nat>
    requires n <= |groups|
  {
    set s | s in at && exists g :: 0 <= g < n && s in groups[g].slots
  }

  lemma {:induction false} OneOfEach(busy: seq<set<nat>>, groups: seq<Group>, n: nat, at: set<nat>, p: nat)
    requires n <= |groups| && p < |busy| && at <= busy[p] && forall g | 0 <= g < |groups| :: GroupOk(busy, groups[g])
    ensures |InGroups(groups, n, at)| <= n
    decreases n
  {
    if n == 0 {
      assert InGroups(groups, 0, at) == {};
    } else {
      OneOfEach(busy, groups, n - 1, at, p);
      var rest, all, g := InGroups(groups, n - 1, at), InGroups(groups, n, at), groups[n - 1];
      if s :| s in all && s !in rest {
        forall t | t in all && t !in rest ensures t == s {
          TogetherIsSame(busy, g, s, t, p);
        }
        assert all == rest + {s};
      } else {
        assert all == rest;
      }
    }
  }

  lemma TogetherIsSame(busy: seq<set<nat>>, g: Group, s: nat, t: nat, p: nat)
    requires GroupOk(busy, g) && s in g.slots && t in g.slots && p < |busy| && s in busy[p] && t in busy[p]
    ensures s == t
  {
    var i :| 0 <= i < |g.slots| && g.slots[i] == s;
    var j :| 0 <= j < |g.slots| && g.slots[j] == t;
    assert !NeverBoth(busy, s, t) && !NeverBoth(busy, t, s);
  }

  lemma NoMoreThanGroups(busy: seq<set<nat>>, groups: seq<Group>, cands: seq<nat>, p: nat)
    requires Placed(busy, groups, cands) && p < |busy|
    ensures |ActiveAt(busy, Elements(cands), p)| <= |groups|
  {
    var at := ActiveAt(busy, Elements(cands), p);
    OneOfEach(busy, groups, |groups|, at, p);
    assert InGroups(groups, |groups|, at) == at;
  }

  /** A slot that clashes with s and comes before it is active where s starts, if its activity is one run. */
  lemma ActiveAtStart(busy: seq<set<nat>>, t: nat, s: nat, p: nat)
    requires ComesBefore(busy, t, s) && !NeverBoth(busy, t, s) && OneRun(busy, t) && StartsAt(busy, s, p)
    ensures t in busy[p]
  {
    var a: nat, b: nat :| StartsAt(busy, t, a) && StartsAt(busy, s, b) && (a < b || (a == b && t < s));
    assert b == p;
    var q: nat :| q < |busy| && t in busy[q] && s in busy[q];
    assert a <= p <= q;
  }

  /** Where a slot of a later group starts, one slot of each earlier group is active. */
  lemma {:induction false} EachHasOne(busy: seq<set<nat>>, groups: seq<Group>, n: nat, h: nat, s: nat, p: nat)
    returns (at: set<nat>)
    requires n <= h < |groups| && s in groups[h].slots && StartsAt(busy, s, p) && FirstFit(busy, groups) && Separate(groups)
    requires forall g, t | 0 <= g < |groups| && t in groups[g].slots :: OneRun(busy, t)
    ensures |at| == n && forall t | t in at :: t in busy[p] && exists g :: 0 <= g < n && t in groups[g].slots
    decreases n
  {
    hide OneRun, Honest;
    if n == 0 {
      at := {};
    } else {
      var rest := EachHasOne(busy, groups, n - 1, h, s, p);
      assert Clash(busy, groups[n - 1], s);
      var t: nat :| t in groups[n - 1].slots && ComesBefore(busy, t, s) && !NeverBoth(busy, t, s);
      ActiveAtStart(busy, t, s, p);
      forall g | 0 <= g < n - 1 ensures t !in groups[g].slots {
        assert Apart(groups[g], groups[n - 1]);
      }
      assert t !in rest;
      at := rest + {t};
    }
  }

  /** Where every candidate's activity is one run, first fit needs just as many groups as candidates are active
      together at the busiest position. */
  lemma FirstFitIsTight(busy: seq<set<nat>>, groups: seq<Group>, cands: seq<nat>)
    requires Placed(busy, groups, cands) && FirstFit(busy, groups)
    requires forall s | s in cands :: OneRun(busy, s) && Active(busy, s)
    ensures Busiest(busy, Elements(cands), |groups|)
  {
    var C := Elements(cands);
    forall p: nat | p < |busy| ensures |ActiveAt(busy, C, p)| <= |groups| {
      NoMoreThanGroups(busy, groups, cands, p);
    }
    if groups != [] {
      var p := LastGroupIsNeeded(busy, groups, cands);
      NoMoreThanGroups(busy, groups, cands, p);
    }
  }

  /** Where the first slot of the last group starts, as many candidates are active as there are groups. */
  lemma LastGroupIsNeeded(busy: seq<set<nat>>, groups: seq<Group>, cands: seq<nat>) returns (p: nat)
    requires Placed(busy, groups, cands) && FirstFit(busy, groups) && groups != []
    requires forall s | s in cands :: OneRun(busy, s) && Active(busy, s)
    ensures p < |busy| && |ActiveAt(busy, Elements(cands), p)| >= |groups|
  {
    hide OneRun, FirstFit, GroupOk, Clash, ComesBefore, NeverBoth;
    var h, C := |groups| - 1, Elements(cands);
    var s := FirstOf(busy, groups[h]);
    assert s in cands;
    p := StartOfActive(busy, s);
    var at := EachHasOne(busy, groups, h, h, s, p);
    forall t | t in at ensures t != s && t in C {
      var g :| 0 <= g < h && t in groups[g].slots;
      assert Apart(groups[g], groups[h]);
    }
    assert at + {s} <= ActiveAt(busy, C, p);
    SmallerSet(at + {s}, ActiveAt(busy, C, p));
  }

  lemma FirstOf(busy: seq<set<nat>>, g: Group) returns (s: nat)
    requires GroupOk(busy, g)
    ensures s in g.slots
  {
    s := g.slots[0];
  }

  lemma StartOfActive(busy: seq<set<nat>>, s: nat) returns (p: nat)
    requires Active(busy, s)
    ensures StartsAt(busy, s, p)
  {
    var q: nat :| q < |busy| && s in busy[q];
    p := StartUpTo(busy, s, q);
  }

  lemma {:induction false} StartUpTo(busy: seq<set<nat>>, s: nat, q: nat) returns (p: nat)
    requires q < |busy| && s in busy[q]
    ensures StartsAt(busy, s, p)
    decreases q
  {
    if r: nat :| r < q && s in busy[r] {
      p := StartUpTo(busy, s, r);
    } else {
      p := q;
    }
  }
}
