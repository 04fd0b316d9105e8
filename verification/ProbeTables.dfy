/** The search's open-addressing tables: linear probing over a fixed number of cells, no deletion. */
module ProbeTables {

  // ---------------------------------------------------------------------
  // probing
  // ---------------------------------------------------------------------

  /** The cell d steps after cell h, around the table. */
  function Around(h: nat, d: nat, n: nat): (r: nat)
    requires h < n && d <= n
    ensures r < n
  {
    if h + d < n then h + d else h + d - n
  }

  /** Steps from cell h to cell j. */
  function Steps(h: nat, j: nat, n: nat): (r: nat)
    requires h < n && j < n
    ensures r < n && Around(h, r, n) == j
  {
    if h <= j then j - h else j + n - h
  }

  function Home(fp: nat, n: nat): (r: nat)
    requires n > 0
    ensures r < n
  {
    fp % n
  }

  /** Every cell from the key's home to the cell holding it is in use. */
  ghost predicate Reachable(fps: seq<nat>, used: seq<bool>, j: nat)
    requires |fps| == |used| && j < |fps|
  {
    var n := |fps|;
    forall d: nat | d <= Steps(Home(fps[j], n), j, n) :: used[Around(Home(fps[j], n), d, n)]
  }

  ghost predicate Probes(fps: seq<nat>, used: seq<bool>) {
    && |fps| == |used| > 0
    && (forall j: nat | j < |fps| && used[j] :: Reachable(fps, used, j))
    && (forall i, j | 0 <= i < j < |fps| && used[i] && used[j] :: fps[i] != fps[j])
  }

  /** Keys are the used cells' fingerprints. */
  ghost predicate Holds(fps: seq<nat>, used: seq<bool>, keys: set<nat>) {
    && |fps| == |used|
    && (forall i | 0 <= i < |fps| && used[i] :: fps[i] in keys)
    && (forall k | k in keys :: exists i :: 0 <= i < |fps| && used[i] && fps[i] == k)
  }

  function CountUsed(used: seq<bool>): (r: nat)
    ensures r <= |used|
  {
    if used == [] then 0 else CountUsed(used[..|used| - 1]) + if used[|used| - 1] then 1 else 0
  }

  lemma {:induction false} CountSet(used: seq<bool>, i: nat)
    requires i < |used| && !used[i]
    ensures CountUsed(used[i := true]) == CountUsed(used) + 1
  {
    var m := |used| - 1;
    if i < m {
      assert used[i := true][..m] == used[..m][i := true];
      CountSet(used[..m], i);
    } else {
      assert used[i := true][..m] == used[..m];
    }
  }

  lemma {:induction false} FreeCell(used: seq<bool>) returns (q: nat)
    requires CountUsed(used) < |used|
    ensures q < |used| && !used[q]
  {
    var m := |used| - 1;
    if used[m] {
      q := FreeCell(used[..m]);
    } else {
      q := m;
    }
  }

  lemma {:induction false} NoneUsed(n: nat)
    ensures CountUsed(seq(n, _ => false)) == 0
  {
    if n > 0 {
      assert seq(n, _ => false)[..n - 1] == seq(n - 1, _ => false);
      NoneUsed(n - 1);
    }
  }

  /** The probe has seen d used cells, none with the key. */
  ghost predicate Passed(fps: seq<nat>, used: seq<bool>, fp: nat, d: nat)
    requires |fps| == |used| > 0 && d <= |fps|
  {
    var n := |fps|;
    forall e: nat | e < d :: used[Around(Home(fp, n), e, n)] && fps[Around(Home(fp, n), e, n)] != fp
  }

  /** Reaching an unused cell means the key is nowhere. */
  lemma MissIsAbsent(fps: seq<nat>, used: seq<bool>, keys: set<nat>, fp: nat, d: nat)
    requires Probes(fps, used) && Holds(fps, used, keys) && d < |fps|
    requires Passed(fps, used, fp, d) && !used[Around(Home(fp, |fps|), d, |fps|)]
    ensures fp !in keys && forall j | 0 <= j < |fps| && used[j] :: fps[j] in keys && fps[j] != fp
  {
    var n := |fps|;
    forall j: nat | j < n && used[j] ensures fps[j] != fp {
      assert Reachable(fps, used, j);
      var h := Home(fps[j], n);
      var steps := Steps(h, j, n);
      assert d <= steps ==> used[Around(h, d, n)];
      assert Around(h, steps, n) == j;
    }
  }

  /** Filling the first unused cell of a key's probe keeps every probe intact. */
  lemma FillKeeps(fps: seq<nat>, used: seq<bool>, keys: set<nat>, fp: nat, d: nat)
    requires Probes(fps, used) && Holds(fps, used, keys) && d < |fps|
    requires Passed(fps, used, fp, d) && !used[Around(Home(fp, |fps|), d, |fps|)]
    ensures var i := Around(Home(fp, |fps|), d, |fps|);
            && Probes(fps[i := fp], used[i := true]) && Holds(fps[i := fp], used[i := true], keys + {fp})
            && CountUsed(used[i := true]) == CountUsed(used) + 1
  {
    var n := |fps|;
    var i := Around(Home(fp, n), d, n);
    var fps', used' := fps[i := fp], used[i := true];
    MissIsAbsent(fps, used, keys, fp, d);
    CountSet(used, i);
    forall j: nat | j < n && used'[j] ensures Reachable(fps', used', j) {
      if j != i {
        assert Reachable(fps, used, j);
      } else {
        assert Steps(Home(fp, n), i, n) == d;
      }
    }
    forall k | k in keys + {fp} ensures exists j :: 0 <= j < n && used'[j] && fps'[j] == k {
      if k == fp {
        assert used'[i] && fps'[i] == fp;
      } else {
        var j :| 0 <= j < n && used[j] && fps[j] == k;
        assert used'[j] && fps'[j] == k;
      }
    }
  }

  /** The free cell bounds the probe. */
  lemma ProbeBounded(fps: seq<nat>, used: seq<bool>, fp: nat, d: nat, q: nat)
    requires |fps| == |used| && d < |fps| && q < |fps| && !used[q]
    requires Passed(fps, used, fp, d) && used[Around(Home(fp, |fps|), d, |fps|)] && d <= Steps(Home(fp, |fps|), q, |fps|)
    ensures d + 1 <= Steps(Home(fp, |fps|), q, |fps|)
  {
  }

  /** Where a key is, or the unused cell where its probe ends. */
  method Probe(fps: array<nat>, used: array<bool>, fp: nat) returns (i: nat, ghost d: nat)
    requires fps.Length == used.Length > 0 && CountUsed(used[..]) < used.Length
    ensures i < fps.Length && d < fps.Length && i == Around(Home(fp, fps.Length), d, fps.Length)
    ensures Passed(fps[..], used[..], fp, d) && (used[i] ==> fps[i] == fp)
  {
    ghost var n := fps.Length;
    ghost var q := FreeCell(used[..]);
    i, d := Home(fp, fps.Length), 0;
    while used[i] && fps[i] != fp
      invariant i < n && d < n && i == Around(Home(fp, n), d, n)
      invariant Passed(fps[..], used[..], fp, d) && d <= Steps(Home(fp, n), q, n)
      decreases n - d
    {
      ProbeBounded(fps[..], used[..], fp, d, q);
      i := if i + 1 == fps.Length then 0 else i + 1;
      d := d + 1;
    }
  }

  // ---------------------------------------------------------------------
  // capacities
  // ---------------------------------------------------------------------

  ghost predicate PowerOf2(n: nat) {
    exists k: nat :: n == Doubled(k)
  }

  function Doubled(k: nat): (r: nat)
    ensures r > k
  {
    if k == 0 then 1 else 2 * Doubled(k - 1)
  }

  const TWO32: nat := 0x1_0000_0000
  const TWO64: nat := 0x1_0000_0000_0000_0000

  /** The table size for a wanted number of entries: a power of two, at least twice as many, at least 16. Budgets are
      32 bits wide, so that neither the doubling of the request nor that of the size wraps at 64 bits: the size is
      never zero. */
  method Capacity(want: nat) returns (n: nat)
    requires want < TWO32
    ensures n >= 16 && n >= 2 * want && PowerOf2(n)
    ensures n > 16 ==> n < 4 * want
  {
    n := 16;
    assert Doubled(0) == 1 && Doubled(1) == 2 && Doubled(2) == 4 && Doubled(3) == 8 && Doubled(4) == 16;
    ghost var k := 4;
    while n < want * 2 % TWO64
      invariant n == Doubled(k) && n >= 16 && (n > 16 ==> n < 4 * want)
      decreases 2 * want - n
    {
      n := n * 2 % TWO64;
      k := k + 1;
    }
  }

  // ---------------------------------------------------------------------
  // the map from fingerprints to costs
  // ---------------------------------------------------------------------

  class FlatMap {
    var fps: array<nat>
    var costs: array<int>
    var used: array<bool>
    var count: nat
    ghost var contents: map<nat, int>

    ghost predicate Valid()
      reads this, fps, costs, used
    {
      && fps as object != costs as object && fps.Length == costs.Length == used.Length >= 16
      && Probes(fps[..], used[..]) && Holds(fps[..], used[..], contents.Keys)
      && (forall i | 0 <= i < fps.Length && used[i] :: contents[fps[i]] == costs[i])
      && count == CountUsed(used[..]) == |contents| && 2 * count <= fps.Length + 1
    }

    constructor (want: nat)
      requires want < TWO32
      ensures Valid() && fresh(fps) && fresh(costs) && fresh(used)
      ensures contents == map[] && count == 0 && fps.Length >= 2 * want
    {
      var n := Capacity(want);
      fps := new nat[n](_ => 0);
      costs := new int[n](_ => 0);
      used := new bool[n](_ => false);
      count := 0;
      contents := map[];
      new;
      NoneUsed(n);
      assert used[..] == seq(n, _ => false);
    }

    /** Whether the fingerprint is new or the cost lower than the recorded one; then it is recorded.
        Only a table half full refuses a new fingerprint. */
    method Improve(fp: nat, cost: int) returns (better: bool)
      requires Valid()
      modifies this, fps, costs, used
      ensures Valid() && fps == old(fps) && costs == old(costs) && used == old(used)
      ensures better == if fp in old(contents) then cost < old(contents)[fp] else 2 * old(count) < fps.Length
      ensures contents == if better then old(contents)[fp := cost] else old(contents)
      ensures count == if better && fp !in old(contents) then old(count) + 1 else old(count)
    {
      hide Probes, Holds, Passed, CountUsed;
      ghost var d;
      var i: nat;
      i, d := Probe(fps, used, fp);
      if used[i] {
        OneCell(fps[..], used[..], contents.Keys, i);
        if costs[i] <= cost {
          return false;
        }
        costs[i] := cost;
        KeyKept(contents, fp, cost);
        contents := contents[fp := cost];
        return true;
      }
      MissIsAbsent(fps[..], used[..], contents.Keys, fp, d);
      if count * 2 >= fps.Length {
        return false;
      }
      FillKeeps(fps[..], used[..], contents.Keys, fp, d);
      used[i] := true;
      fps[i] := fp;
      costs[i] := cost;
      count := count + 1;
      KeyAdded(contents, fp, cost);
      contents := contents[fp := cost];
      assert fps[..] == old(fps[..])[i := fp] && used[..] == old(used[..])[i := true];
      better := true;
    }
  }

  lemma KeyKept(m: map<nat, int>, k: nat, v: int)
    requires k in m
    ensures |m[k := v]| == |m| && m[k := v].Keys == m.Keys
  {
    assert m[k := v].Keys == m.Keys;
    assert |m.Keys| == |m| && |m[k := v].Keys| == |m[k := v]|;
  }

  lemma KeyAdded(m: map<nat, int>, k: nat, v: int)
    requires k !in m
    ensures |m[k := v]| == |m| + 1 && m[k := v].Keys == m.Keys + {k}
  {
    assert m[k := v] - {k} == m;
  }

  /** A key sits in one cell only. */
  lemma OneCell(fps: seq<nat>, used: seq<bool>, keys: set<nat>, i: nat)
    requires Probes(fps, used) && Holds(fps, used, keys) && i < |fps| && used[i]
    ensures fps[i] in keys
    ensures forall j | 0 <= j < |fps| && used[j] && j != i :: fps[j] != fps[i]
  {
  }

  // ---------------------------------------------------------------------
  // the set of expanded states
  // ---------------------------------------------------------------------

  class FlatSet {
    var fps: array<nat>
    var used: array<bool>
    var count: nat
    ghost var contents: set<nat>

    ghost predicate Valid()
      reads this, fps, used
    {
      && fps.Length == used.Length >= 16
      && Probes(fps[..], used[..]) && Holds(fps[..], used[..], contents)
      && count == CountUsed(used[..]) == |contents| && 2 * count <= fps.Length + 1
    }

    constructor (want: nat)
      requires want < TWO32
      ensures Valid() && fresh(fps) && fresh(used)
      ensures contents == {} && fps.Length >= 2 * want
    {
      var n := Capacity(want);
      fps := new nat[n](_ => 0);
      used := new bool[n](_ => false);
      count := 0;
      contents := {};
      new;
      NoneUsed(n);
      assert used[..] == seq(n, _ => false);
    }

    /** Whether the fingerprint is new; a table half full calls every unseen fingerprint new and forgets it. */
    method Insert(fp: nat) returns (isNew: bool)
      requires Valid()
      modifies this, fps, used
      ensures Valid() && fps == old(fps) && used == old(used)
      ensures isNew == (fp !in old(contents))
      ensures contents == if isNew && 2 * old(count) < fps.Length then old(contents) + {fp} else old(contents)
    {
      ghost var d;
      var i: nat;
      i, d := Probe(fps, used, fp);
      if used[i] {
        return false;
      }
      MissIsAbsent(fps[..], used[..], contents, fp, d);
      if count * 2 >= fps.Length {
        return true;
      }
      FillKeeps(fps[..], used[..], contents, fp, d);
      used[i] := true;
      fps[i] := fp;
      count := count + 1;
      contents := contents + {fp};
      assert fps[..] == old(fps[..])[i := fp] && used[..] == old(used[..])[i := true];
      isNew := true;
    }
  }
}
