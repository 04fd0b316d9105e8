/** Fingerprints of simulated machine states: a XOR over all hashed positions and lanes, kept up to date
    through a journal of the rows an instruction writes. */
module Fingerprint {
  import opened Options

  const GPRS: nat := 15
  const SLOTS: nat := 6
  const FLAGS: nat := 5
  const POSITIONS: nat := 26
  const LANES: nat := 12
  const PAD: nat := 16

  type Row = seq<bv64>

  function Product(x: bv64): bv64 {
    x * 0x9E37_79B9_7F4A_7C15
  }

  function Smear(t: bv64): bv64 {
    t ^ (t >> 31)
  }

  /** One term of the fold. */
  function Term64(z: bv64, x: bv64): bv64 {
    Smear(Product(Xor(z, x)))
  }

  /** Exclusive or, kept as a name so that its laws are applied one at a time. */
  function Xor(a: bv64, b: bv64): bv64 {
    a ^ b
  }

  lemma XorAssoc(a: bv64, b: bv64, c: bv64)
    ensures Xor(Xor(a, b), c) == Xor(a, Xor(b, c))
  {
  }

  lemma XorComm(a: bv64, b: bv64)
    ensures Xor(a, b) == Xor(b, a)
  {
  }

  lemma XorZero(a: bv64)
    ensures Xor(a, 0) == a && Xor(0, a) == a && Xor(a, a) == 0
  {
  }

  lemma XorLast(a: bv64, b: bv64, c: bv64)
    ensures Xor(Xor(a, b), c) == Xor(Xor(a, c), b)
  {
    hide Xor;
    XorAssoc(a, b, c);
    XorComm(b, c);
    XorAssoc(a, c, b);
  }

  lemma XorMedial(a: bv64, b: bv64, c: bv64, d: bv64)
    ensures Xor(Xor(a, b), Xor(c, d)) == Xor(Xor(a, c), Xor(b, d))
  {
    hide Xor;
    XorAssoc(Xor(a, b), c, d);
    XorLast(a, b, c);
    XorAssoc(Xor(a, c), b, d);
  }

  lemma XorReplace(a: bv64, b: bv64, c: bv64)
    ensures Xor(Xor(a, b), Xor(b, c)) == Xor(a, c)
  {
    hide Xor;
    XorAssoc(a, b, Xor(b, c));
    XorAssoc(b, b, c);
    XorZero(b);
    XorZero(c);
  }

  lemma TermOfOne()
    ensures Term64(0, 1) == 0x9E37_79B8_4324_8F67
  {
  }

  /** What takes the two steps of a term back. */
  function Quotient(x: bv64): bv64 {
    x * 0xF1DE_83E1_9937_733D
  }

  function Sharpen(t: bv64): bv64 {
    t ^ (t >> 31) ^ (t >> 62)
  }

  lemma ProductIs(x: bv64)
    ensures Product(x) == x * 0x9E37_79B9_7F4A_7C15
  {
  }

  lemma QuotientOf(x: bv64)
    ensures Quotient(x * 0x9E37_79B9_7F4A_7C15) == x
  {
  }

  lemma SmearIs(t: bv64)
    ensures Smear(t) == t ^ (t >> 31)
  {
  }

  lemma SharpenOf(t: bv64)
    ensures Sharpen(t ^ (t >> 31)) == t
  {
  }

  lemma XorUndone(a: bv64, b: bv64)
    ensures Xor(a, Xor(a, b)) == b
  {
  }

  lemma TermUndone(z: bv64, x: bv64)
    ensures Xor(z, Quotient(Sharpen(Term64(z, x)))) == x
  {
    hide Xor, Product, Smear, Quotient, Sharpen;
    var p := Product(Xor(z, x));
    SmearIs(p);
    SharpenOf(p);
    ProductIs(Xor(z, x));
    QuotientOf(Xor(z, x));
    XorUndone(z, x);
  }

  /** Different values have different terms. */
  lemma TermsDiffer(z: bv64, x: bv64, y: bv64)
    requires x != y
    ensures Term64(z, x) != Term64(z, y)
  {
    hide *;
    TermUndone(z, x);
    TermUndone(z, y);
  }

  lemma TermZero()
    ensures Term64(0, 0) == 0
  {
  }

  /** Rows of registers, then window slots, then flags, sixteen lanes each of which twelve are real. */
  ghost predicate RowsOk(rows: seq<Row>) {
    |rows| == POSITIONS && forall p | 0 <= p < |rows| :: |rows[p]| == PAD
  }

  /** The random table: its pad lanes are zero. */
  ghost predicate TableOk(z: seq<Row>) {
    RowsOk(z) && forall p, v | 0 <= p < POSITIONS && LANES <= v < PAD :: z[p][v] == 0
  }

  /** The positions that count when the window has n slots. */
  function Hashed(n: nat): (r: seq<nat>)
    requires n <= SLOTS
    ensures |r| == GPRS + n + FLAGS
    ensures forall i | 0 <= i < |r| :: r[i] == if i < GPRS + n then i else i - n + SLOTS
  {
    seq(GPRS + n + FLAGS, i requires 0 <= i < GPRS + n + FLAGS => if i < GPRS + n then i else i - n + SLOTS)
  }

  /** XOR of a row's terms over its first n lanes. */
  function RowFold(z: Row, row: Row, n: nat): bv64
    requires n <= |z| && n <= |row|
  {
    if n == 0 then 0 else Xor(RowFold(z, row, n - 1), Term64(z[n - 1], row[n - 1]))
  }

  /** The fingerprint, position by position. */
  function Fp(z: seq<Row>, rows: seq<Row>, ps: seq<nat>): bv64
    requires RowsOk(z) && RowsOk(rows) && forall i | 0 <= i < |ps| :: ps[i] < POSITIONS
  {
    if ps == [] then 0
    else Xor(Fp(z, rows, ps[..|ps| - 1]), RowFold(z[ps[|ps| - 1]], rows[ps[|ps| - 1]], LANES))
  }

  // ---------------------------------------------------------------------
  // the full fold goes lane by lane
  // ---------------------------------------------------------------------

  function LaneFold(z: seq<Row>, rows: seq<Row>, ps: seq<nat>, v: nat): bv64
    requires RowsOk(z) && RowsOk(rows) && v < PAD && forall i | 0 <= i < |ps| :: ps[i] < POSITIONS
  {
    if ps == [] then 0
    else Xor(LaneFold(z, rows, ps[..|ps| - 1], v), Term64(z[ps[|ps| - 1]][v], rows[ps[|ps| - 1]][v]))
  }

  function LaneMajor(z: seq<Row>, rows: seq<Row>, ps: seq<nat>, n: nat): bv64
    requires RowsOk(z) && RowsOk(rows) && n <= PAD && forall i | 0 <= i < |ps| :: ps[i] < POSITIONS
  {
    if n == 0 then 0 else Xor(LaneMajor(z, rows, ps, n - 1), LaneFold(z, rows, ps, n - 1))
  }

  /** Folding lane by lane or position by position is the same. */
  lemma {:induction false} OrderFree(z: seq<Row>, rows: seq<Row>, ps: seq<nat>, n: nat)
    requires RowsOk(z) && RowsOk(rows) && n <= PAD && ps != [] && forall i | 0 <= i < |ps| :: ps[i] < POSITIONS
    ensures var p := ps[|ps| - 1];
            LaneMajor(z, rows, ps, n) == Xor(LaneMajor(z, rows, ps[..|ps| - 1], n), RowFold(z[p], rows[p], n))
    decreases n
  {
    hide Xor, Term64;
    var p, rest := ps[|ps| - 1], ps[..|ps| - 1];
    if n > 0 {
      OrderFree(z, rows, ps, n - 1);
      XorMedial(LaneMajor(z, rows, rest, n - 1), RowFold(z[p], rows[p], n - 1),
                LaneFold(z, rows, rest, n - 1), Term64(z[p][n - 1], rows[p][n - 1]));
    } else {
      XorZero(0);
    }
  }

  lemma {:induction false} LaneMajorIsFp(z: seq<Row>, rows: seq<Row>, ps: seq<nat>)
    requires RowsOk(z) && RowsOk(rows) && forall i | 0 <= i < |ps| :: ps[i] < POSITIONS
    ensures LaneMajor(z, rows, ps, LANES) == Fp(z, rows, ps)
    decreases |ps|
  {
    hide Xor, Term64, RowFold, LaneMajor;
    if ps == [] {
      NoPositions(z, rows, LANES);
    } else {
      OrderFree(z, rows, ps, LANES);
      LaneMajorIsFp(z, rows, ps[..|ps| - 1]);
    }
  }

  lemma {:induction false} NoPositions(z: seq<Row>, rows: seq<Row>, n: nat)
    requires RowsOk(z) && RowsOk(rows) && n <= PAD
    ensures LaneMajor(z, rows, [], n) == 0
  {
    if n > 0 {
      NoPositions(z, rows, n - 1);
      XorZero(0);
    }
  }

  method FoldLane(z: seq<Row>, rows: seq<Row>, ps: seq<nat>, v: nat, h0: bv64) returns (h: bv64)
    requires RowsOk(z) && RowsOk(rows) && v < PAD && forall i | 0 <= i < |ps| :: ps[i] < POSITIONS
    ensures h == Xor(h0, LaneFold(z, rows, ps, v))
  {
    hide Xor, Term64;
    h := h0;
    XorZero(h0);
    for i := 0 to |ps|
      invariant h == Xor(h0, LaneFold(z, rows, ps[..i], v))
    {
      assert ps[..i + 1][..i] == ps[..i];
      XorAssoc(h0, LaneFold(z, rows, ps[..i], v), Term64(z[ps[i]][v], rows[ps[i]][v]));
      h := Xor(h, Term64(z[ps[i]][v], rows[ps[i]][v]));
    }
    assert ps[..|ps|] == ps;
  }

  /** The fingerprint from scratch, in the order the lanes and positions are visited. */
  method FpFull(z: seq<Row>, rows: seq<Row>, nslots: nat) returns (h: bv64)
    requires RowsOk(z) && RowsOk(rows) && nslots <= SLOTS
    ensures h == Fp(z, rows, Hashed(nslots))
  {
    hide Xor, Term64;
    var ps := Hashed(nslots);
    h := 0;
    for v := 0 to LANES
      invariant h == LaneMajor(z, rows, ps, v)
    {
      h := FoldLane(z, rows, ps, v, h);
    }
    LaneMajorIsFp(z, rows, ps);
  }

  // ---------------------------------------------------------------------
  // updating rows updates the fold
  // ---------------------------------------------------------------------

  /** The scalar fold of a row, over its real lanes. */
  function RowDelta(z: Row, old_: Row, new_: Row): bv64
    requires |z| == |old_| == |new_| == PAD
  {
    Xor(RowFold(z, old_, LANES), RowFold(z, new_, LANES))
  }

  /** XOR, over the positions, of the terms going out and those coming in. */
  function Delta(z: seq<Row>, before: seq<Row>, after: seq<Row>, js: seq<nat>): bv64
    requires RowsOk(z) && RowsOk(before) && RowsOk(after) && forall i | 0 <= i < |js| :: js[i] < POSITIONS
  {
    if js == [] then 0
    else
      var p := js[|js| - 1];
      Xor(Delta(z, before, after, js[..|js| - 1]), RowDelta(z[p], before[p], after[p]))
  }

  ghost predicate Distinct(s: seq<nat>) {
    forall i, j | 0 <= i < j < |s| :: s[i] != s[j]
  }

  /** Rows agree outside the given positions. */
  ghost predicate SameOutside(before: seq<Row>, after: seq<Row>, js: seq<nat>) {
    |before| == |after| && forall p | 0 <= p < |before| && p !in js :: after[p] == before[p]
  }

  lemma {:induction false} FpUntouched(z: seq<Row>, rows: seq<Row>, p: nat, row: Row, ps: seq<nat>)
    requires RowsOk(z) && RowsOk(rows) && p < POSITIONS && |row| == PAD && p !in ps
    requires forall i | 0 <= i < |ps| :: ps[i] < POSITIONS
    ensures Fp(z, rows[p := row], ps) == Fp(z, rows, ps)
    decreases |ps|
  {
    hide Xor, Term64, RowFold;
    if ps != [] {
      FpUntouched(z, rows, p, row, ps[..|ps| - 1]);
    }
  }

  lemma {:induction false} FpOneRow(z: seq<Row>, rows: seq<Row>, p: nat, row: Row, ps: seq<nat>)
    requires RowsOk(z) && RowsOk(rows) && p < POSITIONS && |row| == PAD && p in ps && Distinct(ps)
    requires forall i | 0 <= i < |ps| :: ps[i] < POSITIONS
    ensures Fp(z, rows[p := row], ps) == Xor(Fp(z, rows, ps), RowDelta(z[p], rows[p], row))
    decreases |ps|
  {
    hide Xor, Term64, RowFold;
    var m := |ps| - 1;
    var out, in_ := RowFold(z[p], rows[p], LANES), RowFold(z[p], row, LANES);
    if ps[m] == p {
      assert p !in ps[..m];
      FpUntouched(z, rows, p, row, ps[..m]);
      XorReplace(Fp(z, rows, ps[..m]), out, in_);
    } else {
      assert p in ps[..m];
      FpOneRow(z, rows, p, row, ps[..m]);
      XorLast(Fp(z, rows, ps[..m]), Xor(out, in_), RowFold(z[ps[m]], rows[ps[m]], LANES));
    }
  }

  /** Changing one lane of a row changes its fold by that lane's terms. */
  lemma {:induction false} RowOneLane(z: Row, row: Row, v: nat, x: bv64, n: nat)
    requires |z| == |row| == PAD && v < n <= PAD
    ensures RowFold(z, row[v := x], n) == Xor(RowFold(z, row, n), Xor(Term64(z[v], row[v]), Term64(z[v], x)))
  {
    hide Xor, Term64;
    if v == n - 1 {
      SameRealLanes(z, row[v := x], row, n - 1);
      XorReplace(RowFold(z, row, n - 1), Term64(z[v], row[v]), Term64(z[v], x));
    } else {
      RowOneLane(z, row, v, x, n - 1);
      XorLast(RowFold(z, row, n - 1), Xor(Term64(z[v], row[v]), Term64(z[v], x)), Term64(z[n - 1], row[n - 1]));
    }
  }

  /** States that differ in one hashed cell have different fingerprints. */
  lemma OneCellTells(z: seq<Row>, rows: seq<Row>, ps: seq<nat>, p: nat, v: nat, x: bv64)
    requires RowsOk(z) && RowsOk(rows) && Distinct(ps) && p in ps && p < POSITIONS && v < LANES && rows[p][v] != x
    requires forall i | 0 <= i < |ps| :: ps[i] < POSITIONS
    ensures Fp(z, rows[p := rows[p][v := x]], ps) != Fp(z, rows, ps)
  {
    hide Xor, Term64, Fp, RowFold;
    var row := rows[p][v := x];
    FpOneRow(z, rows, p, row, ps);
    RowOneLane(z[p], rows[p], v, x, LANES);
    TermsDiffer(z[p][v], rows[p][v], x);
    var f, d := RowFold(z[p], rows[p], LANES), Xor(Term64(z[p][v], rows[p][v]), Term64(z[p][v], x));
    XorIsZero(Term64(z[p][v], rows[p][v]), Term64(z[p][v], x));
    XorIsZero(f, d);
    XorIsZero(f, Xor(f, d));
    XorIsZero(Fp(z, rows, ps), RowDelta(z[p], rows[p], row));
  }

  /** The incremental fingerprint is the fingerprint. */
  lemma {:induction false} DeltaUpdates(z: seq<Row>, before: seq<Row>, after: seq<Row>, js: seq<nat>, ps: seq<nat>)
    requires RowsOk(z) && RowsOk(before) && RowsOk(after) && Distinct(js) && Distinct(ps)
    requires (forall i | 0 <= i < |ps| :: ps[i] < POSITIONS) && (forall i | 0 <= i < |js| :: js[i] < POSITIONS && js[i] in ps)
    requires SameOutside(before, after, js)
    ensures Fp(z, after, ps) == Xor(Fp(z, before, ps), Delta(z, before, after, js))
    decreases |js|
  {
    hide Xor, Term64, RowFold, Fp;
    if js == [] {
      assert after == before;
      XorZero(Fp(z, before, ps));
    } else {
      var m := |js| - 1;
      var p := js[m];
      var mid := after[p := before[p]];
      assert p !in js[..m];
      assert mid[p := after[p]] == after;
      DeltaUpdates(z, before, mid, js[..m], ps);
      DeltaOtherRows(z, before, mid, after, js[..m]);
      FpOneRow(z, mid, p, after[p], ps);
      XorAssoc(Fp(z, before, ps), Delta(z, before, after, js[..m]), RowDelta(z[p], before[p], after[p]));
    }
  }

  lemma {:induction false} DeltaOtherRows(z: seq<Row>, before: seq<Row>, mid: seq<Row>, after: seq<Row>, js: seq<nat>)
    requires RowsOk(z) && RowsOk(before) && RowsOk(mid) && RowsOk(after)
    requires forall i | 0 <= i < |js| :: js[i] < POSITIONS && mid[js[i]] == after[js[i]]
    ensures Delta(z, before, mid, js) == Delta(z, before, after, js)
    decreases |js|
  {
    hide Xor, Term64, RowFold;
    if js != [] {
      DeltaOtherRows(z, before, mid, after, js[..|js| - 1]);
    }
  }

  // ---------------------------------------------------------------------
  // whole padded rows at once
  // ---------------------------------------------------------------------

  const ALL_ONES: bv64 := 0xFFFF_FFFF_FFFF_FFFF

  /** Ones on the real lanes, zeros on the pad. */
  function RealLaneMask(): (r: Row)
    ensures |r| == PAD && forall v | 0 <= v < PAD :: r[v] == if v < LANES then ALL_ONES else 0
  {
    seq(PAD, v requires 0 <= v < PAD => if v < LANES then ALL_ONES else 0)
  }

  /** A lane of both rows, masked, out and in. */
  function MaskedTerms(z: bv64, o: bv64, n: bv64, mask: bv64): bv64 {
    Xor(Term64(z, o & mask), Term64(z, n & mask))
  }

  function LaneDelta(z: Row, old_: Row, new_: Row, v: nat): bv64
    requires |z| == |old_| == |new_| == PAD && v < PAD
  {
    Xor(Term64(z[v], old_[v]), Term64(z[v], new_[v]))
  }

  lemma MaskedByOnes(z: bv64, o: bv64, n: bv64)
    ensures MaskedTerms(z, o, n, ALL_ONES) == Xor(Term64(z, o), Term64(z, n))
  {
    hide Xor, Term64;
  }

  function XorUpTo(d: Row, n: nat): bv64
    requires n <= |d|
  {
    if n == 0 then 0 else Xor(XorUpTo(d, n - 1), d[n - 1])
  }

  /** Lanes b to b + n. */
  function BlockDelta(z: Row, old_: Row, new_: Row, b: nat, n: nat): bv64
    requires |z| == |old_| == |new_| == PAD && b + n <= PAD
  {
    if n == 0 then 0 else Xor(BlockDelta(z, old_, new_, b, n - 1), LaneDelta(z, old_, new_, b + n - 1))
  }

  lemma {:induction false} BlocksJoin(z: Row, old_: Row, new_: Row, b: nat, n: nat)
    requires |z| == |old_| == |new_| == PAD && b + n <= PAD
    ensures BlockDelta(z, old_, new_, 0, b + n) == Xor(BlockDelta(z, old_, new_, 0, b), BlockDelta(z, old_, new_, b, n))
    decreases n
  {
    hide Xor, Term64, LaneDelta;
    if n > 0 {
      BlocksJoin(z, old_, new_, b, n - 1);
      XorAssoc(BlockDelta(z, old_, new_, 0, b), BlockDelta(z, old_, new_, b, n - 1), LaneDelta(z, old_, new_, b + n - 1));
    } else {
      XorZero(BlockDelta(z, old_, new_, 0, b));
    }
  }

  /** One block of eight lanes, into the eight accumulators, under the eight lanes of mask loaded. */
  method FoldBlock(z: Row, old_: Row, new_: Row, mask: Row, b: nat, d0: Row) returns (d: Row)
    requires |z| == |old_| == |new_| == PAD && b + 8 <= PAD && |d0| == 8
    requires |mask| == 8 && forall i | 0 <= i < 8 :: mask[i] == ALL_ONES
    ensures |d| == 8 && XorUpTo(d, 8) == Xor(XorUpTo(d0, 8), BlockDelta(z, old_, new_, b, 8))
  {
    hide Xor, Term64, MaskedTerms;
    d := d0;
    XorZero(0);
    for i := 0 to 8
      invariant |d| == 8 && forall k | i <= k < 8 :: d[k] == d0[k]
      invariant XorUpTo(d, i) == Xor(XorUpTo(d0, i), BlockDelta(z, old_, new_, b, i))
    {
      ghost var d1 := d;
      XorMedial(XorUpTo(d0, i), BlockDelta(z, old_, new_, b, i), d0[i], LaneDelta(z, old_, new_, b + i));
      MaskedByOnes(z[b + i], old_[b + i], new_[b + i]);
      d := d[i := Xor(d[i], MaskedTerms(z[b + i], old_[b + i], new_[b + i], mask[i]))];
      XorPrefix(d1, d, i);
    }
  }

  lemma {:induction false} XorPrefix(d: Row, d': Row, n: nat)
    requires n <= |d| && n <= |d'| && forall k | 0 <= k < n :: d[k] == d'[k]
    ensures XorUpTo(d, n) == XorUpTo(d', n)
  {
    hide Xor;
    if n > 0 {
      XorPrefix(d, d', n - 1);
    }
  }

  /** What the pad lanes of a row contribute. */
  function PadTerms(row: Row): bv64
    requires |row| == PAD
  {
    Xor(Xor(Term64(0, row[12]), Term64(0, row[13])), Xor(Term64(0, row[14]), Term64(0, row[15])))
  }

  /** By how much the vector fold of a row misses the scalar one. */
  function PadDelta(old_: Row, new_: Row): bv64
    requires |old_| == |new_| == PAD
  {
    Xor(PadTerms(old_), PadTerms(new_))
  }

  /** The sixteen-lane fold of a row, eight lanes at a time. The mask is loaded once, from its front, so that both
      blocks run under eight real lanes of it and the pad is folded in as it is. */
  method FoldRow(z: Row, old_: Row, new_: Row, d0: Row) returns (d: Row)
    requires |z| == |old_| == |new_| == PAD && |d0| == 8 && forall v | LANES <= v < PAD :: z[v] == 0
    ensures |d| == 8 && XorUpTo(d, 8) == Xor(XorUpTo(d0, 8), Xor(RowDelta(z, old_, new_), PadDelta(old_, new_)))
  {
    hide Xor, Term64, LaneDelta, XorUpTo, BlockDelta, RowDelta, PadDelta;
    var mask := RealLaneMask()[..8];
    d := FoldBlock(z, old_, new_, mask, 0, d0);
    d := FoldBlock(z, old_, new_, mask, 8, d);
    XorAssoc(XorUpTo(d0, 8), BlockDelta(z, old_, new_, 0, 8), BlockDelta(z, old_, new_, 8, 8));
    BlocksJoin(z, old_, new_, 8, 8);
    WholeRow(z, old_, new_);
  }

  /** Sixteen lanes are the twelve real ones and the pad. */
  lemma WholeRow(z: Row, old_: Row, new_: Row)
    requires |z| == |old_| == |new_| == PAD && forall v | LANES <= v < PAD :: z[v] == 0
    ensures BlockDelta(z, old_, new_, 0, PAD) == Xor(RowDelta(z, old_, new_), PadDelta(old_, new_))
  {
    hide Xor, Term64, RowFold, BlockDelta, PadTerms;
    BlocksJoin(z, old_, new_, LANES, 4);
    RealLanesAgree(z, old_, new_, LANES);
    PadLanes(z, old_, new_);
  }

  lemma PadLanes(z: Row, old_: Row, new_: Row)
    requires |z| == |old_| == |new_| == PAD && forall v | LANES <= v < PAD :: z[v] == 0
    ensures BlockDelta(z, old_, new_, LANES, 4) == PadDelta(old_, new_)
  {
    hide Xor, Term64;
    var d: seq<bv64> := seq(4, i requires 0 <= i < 4 => LaneDelta(z, old_, new_, LANES + i));
    var o: seq<bv64> := seq(4, i requires 0 <= i < 4 => Term64(0, old_[LANES + i]));
    var n: seq<bv64> := seq(4, i requires 0 <= i < 4 => Term64(0, new_[LANES + i]));
    XorZero(d[0]);
    assert BlockDelta(z, old_, new_, LANES, 1) == Xor(0, d[0]);
    assert BlockDelta(z, old_, new_, LANES, 2) == Xor(d[0], d[1]);
    assert BlockDelta(z, old_, new_, LANES, 3) == Xor(Xor(d[0], d[1]), d[2]);
    XorAssoc(Xor(d[0], d[1]), d[2], d[3]);
    XorMedial(o[0], n[0], o[1], n[1]);
    XorMedial(o[2], n[2], o[3], n[3]);
    XorMedial(Xor(o[0], o[1]), Xor(n[0], n[1]), Xor(o[2], o[3]), Xor(n[2], n[3]));
  }

  lemma XorIsZero(a: bv64, b: bv64)
    ensures Xor(a, b) == a <==> b == 0
    ensures Xor(a, b) == 0 <==> a == b
  {
  }

  /** The vector fold of a row is the scalar one exactly when the pads contribute as much before as after. */
  lemma VectorIsScalarIff(z: Row, old_: Row, new_: Row)
    requires |z| == |old_| == |new_| == PAD && forall v | LANES <= v < PAD :: z[v] == 0
    ensures BlockDelta(z, old_, new_, 0, PAD) == RowDelta(z, old_, new_) <==> PadTerms(old_) == PadTerms(new_)
  {
    hide Xor, Term64, RowDelta, BlockDelta, PadTerms;
    WholeRow(z, old_, new_);
    XorIsZero(RowDelta(z, old_, new_), PadDelta(old_, new_));
    XorIsZero(PadTerms(old_), PadTerms(new_));
  }

  /** All pad lanes of the row hold one value. */
  predicate UniformPad(row: Row)
    requires |row| == PAD
  {
    forall v, w | LANES <= v < PAD && LANES <= w < PAD :: row[v] == row[w]
  }

  /** Four equal terms cancel. */
  lemma UniformPadIsSilent(row: Row)
    requires |row| == PAD && UniformPad(row)
    ensures PadTerms(row) == 0
  {
    hide Xor, Term64;
    var t := Term64(0, row[12]);
    assert row[12] == row[13] == row[14] == row[15];
    XorZero(t);
    XorZero(0);
  }

  lemma OneIsNoZero()
    ensures Term64(0, 1) != 0
  {
  }

  /** A pad lane alone is enough to tell the kernels apart: rows of zeros but for one pad lane. */
  lemma PadLeaks(z: Row, old_: Row, new_: Row)
    requires |z| == |old_| == |new_| == PAD && forall v | LANES <= v < PAD :: z[v] == 0
    requires (forall v | 0 <= v < PAD :: old_[v] == 0) && new_ == old_[LANES := 1]
    ensures RowDelta(z, old_, new_) == 0 && BlockDelta(z, old_, new_, 0, PAD) != 0
  {
    hide Xor, Term64, BlockDelta;
    SameRealLanes(z, old_, new_, LANES);
    XorZero(RowFold(z, old_, LANES));
    UniformPadIsSilent(old_);
    assert PadTerms(new_) == Term64(0, 1) by {
      TermZero();
      XorZero(Term64(0, 1));
      XorZero(0);
    }
    OneIsNoZero();
    VectorIsScalarIff(z, old_, new_);
  }

  lemma {:induction false} SameRealLanes(z: Row, a: Row, b: Row, n: nat)
    requires |z| == |a| == |b| == PAD && n <= PAD && forall v | 0 <= v < n :: a[v] == b[v]
    ensures RowFold(z, a, n) == RowFold(z, b, n)
  {
    hide Xor, Term64;
    if n > 0 {
      SameRealLanes(z, a, b, n - 1);
    }
  }

  lemma {:induction false} RealLanesAgree(z: Row, old_: Row, new_: Row, n: nat)
    requires |z| == |old_| == |new_| == PAD && n <= LANES
    ensures BlockDelta(z, old_, new_, 0, n) == Xor(RowFold(z, old_, n), RowFold(z, new_, n))
  {
    hide Xor, Term64;
    if n > 0 {
      RealLanesAgree(z, old_, new_, n - 1);
      XorMedial(RowFold(z, old_, n - 1), RowFold(z, new_, n - 1), Term64(z[n - 1], old_[n - 1]), Term64(z[n - 1], new_[n - 1]));
    } else {
      XorZero(0);
    }
  }

  // ---------------------------------------------------------------------
  // the journal
  // ---------------------------------------------------------------------

  /** What an instruction declares it may write; `slot` is an absolute slot id. */
  datatype Effects = Effects(gprs: set<nat>, slot: Option<int>, flags: bool)

  function GprsUpTo(gprs: set<nat>, n: nat): (r: seq<nat>)
    ensures forall g :: g in r <==> g < n && g in gprs
    ensures Distinct(r) && forall i | 0 <= i < |r| :: r[i] < n
  {
    if n == 0 then [] else GprsUpTo(gprs, n - 1) + if n - 1 in gprs then [n - 1] else []
  }

  /** The window index of a slot, if the window has it. */
  function SlotIndex(wslots: seq<int>, s: int): (r: Option<nat>)
    ensures r.Some? ==> r.value < |wslots| && wslots[r.value] == s
    ensures r.None? ==> s !in wslots
    decreases |wslots|
  {
    if wslots == [] then None
    else if wslots[0] == s then Some(0)
    else
      var rest := SlotIndex(wslots[1..], s);
      assert wslots == [wslots[0]] + wslots[1..];
      if rest.Some? then Some(rest.value + 1) else None
  }

  /** The positions the declared writes cover, in journal order. */
  function Covered(e: Effects, wslots: seq<int>): (r: seq<nat>)
    requires |wslots| <= SLOTS
    ensures forall i | 0 <= i < |r| :: r[i] < POSITIONS && r[i] in Hashed(|wslots|)
    ensures Distinct(r)
  {
    var k := if e.slot.Some? then SlotIndex(wslots, e.slot.value) else None;
    var gr := GprsUpTo(e.gprs, GPRS);
    var sl := if k.Some? then [GPRS + k.value] else [];
    var fl := if e.flags then [21, 22, 23, 24, 25] else [];
    CoveredHashed(gr, sl, fl, |wslots|);
    gr + sl + fl
  }

  /** Every register declared, the slot where the window has it, and all flags if any are written. */
  lemma CoveredExactly(e: Effects, wslots: seq<int>, p: nat)
    requires |wslots| <= SLOTS && forall i, j | 0 <= i < j < |wslots| :: wslots[i] != wslots[j]
    ensures p in Covered(e, wslots) <==>
            || (p < GPRS && p in e.gprs)
            || (GPRS <= p < GPRS + |wslots| && e.slot == Some(wslots[p - GPRS]))
            || (GPRS + SLOTS <= p < POSITIONS && e.flags)
  {
  }

  lemma CoveredHashed(gr: seq<nat>, sl: seq<nat>, fl: seq<nat>, n: nat)
    requires n <= SLOTS && Distinct(gr) && (forall i | 0 <= i < |gr| :: gr[i] < GPRS)
    requires |sl| <= 1 && (forall i | 0 <= i < |sl| :: GPRS <= sl[i] < GPRS + n) && (fl == [] || fl == [21, 22, 23, 24, 25])
    ensures forall i | 0 <= i < |gr + sl + fl| :: (gr + sl + fl)[i] < POSITIONS && (gr + sl + fl)[i] in Hashed(n)
    ensures Distinct(gr + sl + fl)
  {
    var h := Hashed(n);
    forall p: nat | p < GPRS + n || GPRS + SLOTS <= p < POSITIONS ensures p in h {
      assert h[if p < GPRS + n then p else p + n - SLOTS] == p;
    }
  }

  ghost function RowsOf(st: array2<bv64>): (r: seq<Row>)
    requires st.Length0 == POSITIONS && st.Length1 == PAD
    reads st
    ensures RowsOk(r) && forall p, v | 0 <= p < POSITIONS && 0 <= v < PAD :: r[p][v] == st[p, v]
  {
    seq(POSITIONS, p requires 0 <= p < POSITIONS reads st => seq(PAD, v requires 0 <= v < PAD reads st => st[p, v]))
  }

  method ReadRow(st: array2<bv64>, p: nat) returns (row: Row)
    requires st.Length0 == POSITIONS && st.Length1 == PAD && p < POSITIONS
    ensures row == RowsOf(st)[p]
  {
    row := [];
    for v := 0 to PAD
      invariant |row| == v && forall k | 0 <= k < v :: row[k] == st[p, k]
    {
      row := row + [st[p, v]];
    }
  }

  method WriteRow(st: array2<bv64>, p: nat, row: Row)
    requires st.Length0 == POSITIONS && st.Length1 == PAD && p < POSITIONS && |row| == PAD
    modifies st
    ensures RowsOf(st) == old(RowsOf(st))[p := row]
  {
    for v := 0 to PAD
      invariant forall q, k | 0 <= q < POSITIONS && 0 <= k < PAD :: st[q, k] == if q == p && k < v then row[k] else old(st[q, k])
    {
      st[p, v] := row[v];
    }
    assert RowsOf(st)[p] == row;
    forall q | 0 <= q < POSITIONS && q != p ensures RowsOf(st)[q] == old(RowsOf(st))[q] {
    }
  }

  /** A row's terms out and in, one real lane at a time. */
  method FoldScalar(z: Row, old_: Row, new_: Row, d0: bv64) returns (d: bv64)
    requires |z| == |old_| == |new_| == PAD
    ensures d == Xor(d0, RowDelta(z, old_, new_))
  {
    hide Xor, Term64;
    d := d0;
    XorZero(0);
    XorZero(d0);
    for v := 0 to LANES
      invariant d == Xor(d0, Xor(RowFold(z, old_, v), RowFold(z, new_, v)))
    {
      var out, in_ := Term64(z[v], old_[v]), Term64(z[v], new_[v]);
      XorAssoc(d0, Xor(RowFold(z, old_, v), RowFold(z, new_, v)), Xor(out, in_));
      XorMedial(RowFold(z, old_, v), RowFold(z, new_, v), out, in_);
      d := Xor(d, Xor(out, in_));
    }
  }

  method FoldLanes(d: Row) returns (h: bv64)
    requires |d| == 8
    ensures h == XorUpTo(d, 8)
  {
    h := 0;
    for i := 0 to 8
      invariant h == XorUpTo(d, i)
    {
      h := Xor(h, d[i]);
    }
  }

  class Journal {
    var at: seq<nat>
    var saved: seq<Row>

    ghost predicate Holds(rows: seq<Row>)
      reads this
    {
      |saved| == |at| && forall i | 0 <= i < |at| :: at[i] < |rows| && saved[i] == rows[at[i]]
    }

    constructor ()
      ensures at == [] && saved == []
    {
      at, saved := [], [];
    }

    /** Saves the rows the instruction may write; refuses more than four registers. */
    method Save(st: array2<bv64>, e: Effects, wslots: seq<int>) returns (ok: bool)
      requires st.Length0 == POSITIONS && st.Length1 == PAD && |wslots| <= SLOTS
      modifies this
      ensures ok == (|GprsUpTo(e.gprs, GPRS)| <= 4)
      ensures ok ==> at == Covered(e, wslots) && Holds(RowsOf(st))
    {
      if |GprsUpTo(e.gprs, GPRS)| > 4 {
        return false;
      }
      at, saved := Covered(e, wslots), [];
      for i := 0 to |at|
        invariant at == Covered(e, wslots) && |saved| == i && forall k | 0 <= k < i :: saved[k] == RowsOf(st)[at[k]]
      {
        var row := ReadRow(st, at[i]);
        saved := saved + [row];
      }
      ok := true;
    }

    /** Writes the saved rows back: the state of the save, whatever was written inside them. */
    method Restore(st: array2<bv64>, ghost rows: seq<Row>)
      requires st.Length0 == POSITIONS && st.Length1 == PAD && RowsOk(rows) && Holds(rows) && SameOutside(rows, RowsOf(st), at)
      modifies st
      ensures RowsOf(st) == rows
    {
      for i := 0 to |at|
        invariant forall p: nat | p < POSITIONS && p !in at :: RowsOf(st)[p] == rows[p]
        invariant forall k | 0 <= k < i :: RowsOf(st)[at[k]] == rows[at[k]]
      {
        WriteRow(st, at[i], saved[i]);
      }
      forall p: nat | p < POSITIONS ensures RowsOf(st)[p] == rows[p] {
        if p in at {
          var k :| 0 <= k < |at| && at[k] == p;
        }
      }
    }

    /** Terms out, terms in, lane by lane over the real lanes. */
    method DeltaScalar(z: seq<Row>, st: array2<bv64>, ghost rows: seq<Row>) returns (d: bv64)
      requires st.Length0 == POSITIONS && st.Length1 == PAD && RowsOk(z) && RowsOk(rows) && Holds(rows)
      ensures (forall i | 0 <= i < |at| :: at[i] < POSITIONS) && d == Delta(z, rows, RowsOf(st), at)
    {
      hide Xor, Term64, RowFold;
      d := 0;
      for i := 0 to |at|
        invariant d == Delta(z, rows, RowsOf(st), at[..i])
      {
        assert at[..i + 1][..i] == at[..i];
        var now := ReadRow(st, at[i]);
        d := FoldScalar(z[at[i]], saved[i], now, d);
      }
      assert at[..|at|] == at;
    }

    /** The same over whole padded rows, eight lanes at a time: off by what the pads contribute. */
    method DeltaVector(z: seq<Row>, st: array2<bv64>, ghost rows: seq<Row>) returns (h: bv64)
      requires st.Length0 == POSITIONS && st.Length1 == PAD && TableOk(z) && RowsOk(rows) && Holds(rows)
      ensures (forall i | 0 <= i < |at| :: at[i] < POSITIONS) && h == Xor(Delta(z, rows, RowsOf(st), at), PadDrift(rows, RowsOf(st), at))
    {
      hide Xor, Term64, RowFold, XorUpTo, RowDelta, PadDelta;
      var d: Row := [0, 0, 0, 0, 0, 0, 0, 0];
      ZerosFold(d, 8);
      XorZero(0);
      for i := 0 to |at|
        invariant |d| == 8 && XorUpTo(d, 8) == Xor(Delta(z, rows, RowsOf(st), at[..i]), PadDrift(rows, RowsOf(st), at[..i]))
      {
        assert at[..i + 1][..i] == at[..i];
        var now := ReadRow(st, at[i]);
        XorMedial(Delta(z, rows, RowsOf(st), at[..i]), PadDrift(rows, RowsOf(st), at[..i]), RowDelta(z[at[i]], saved[i], now), PadDelta(saved[i], now));
        d := FoldRow(z[at[i]], saved[i], now, d);
      }
      assert at[..|at|] == at;
      h := FoldLanes(d);
    }
  }

  /** By how much the vector fold over the positions misses the scalar one. */
  function PadDrift(before: seq<Row>, after: seq<Row>, js: seq<nat>): bv64
    requires RowsOk(before) && RowsOk(after) && forall i | 0 <= i < |js| :: js[i] < POSITIONS
  {
    if js == [] then 0
    else
      var p := js[|js| - 1];
      Xor(PadDrift(before, after, js[..|js| - 1]), PadDelta(before[p], after[p]))
  }

  /** Every location's pad lanes hold one value. */
  ghost predicate PadsUniform(rows: seq<Row>)
    requires RowsOk(rows)
  {
    forall p | 0 <= p < POSITIONS :: UniformPad(rows[p])
  }

  /** Uniform pads do not drift. */
  lemma {:induction false} UniformPadsAgree(before: seq<Row>, after: seq<Row>, js: seq<nat>)
    requires RowsOk(before) && RowsOk(after) && PadsUniform(before) && PadsUniform(after) && forall i | 0 <= i < |js| :: js[i] < POSITIONS
    ensures PadDrift(before, after, js) == 0
  {
    hide Xor, PadTerms;
    if js != [] {
      UniformPadsAgree(before, after, js[..|js| - 1]);
      UniformPadIsSilent(before[js[|js| - 1]]);
      UniformPadIsSilent(after[js[|js| - 1]]);
      XorZero(0);
    }
  }

  lemma {:induction false} ZerosFold(d: Row, n: nat)
    requires n <= |d| && forall k | 0 <= k < n :: d[k] == 0
    ensures XorUpTo(d, n) == 0
  {
    if n > 0 {
      ZerosFold(d, n - 1);
      XorZero(0);
    }
  }

  lemma HashedDistinct(n: nat)
    requires n <= SLOTS
    ensures Distinct(Hashed(n)) && forall i | 0 <= i < |Hashed(n)| :: Hashed(n)[i] < POSITIONS
  {
  }

  /** One construction of the search: save, simulate in place, fold the difference, restore. `after` is what
      the simulation leaves, faulting or not; it may differ from the parent only where the effects say. The
      parent is left as it was. The scalar kernel gives the child's fingerprint; the vector kernel gives it exactly
      when the pads of the rows written do not drift. */
  method Construct(z: seq<Row>, st: array2<bv64>, e: Effects, wslots: seq<int>, after: seq<Row>, fp: bv64, vector: bool)
    returns (ok: bool, childFp: bv64)
    requires st.Length0 == POSITIONS && st.Length1 == PAD && |wslots| <= SLOTS && TableOk(z) && RowsOk(after)
    requires SameOutside(RowsOf(st), after, Covered(e, wslots)) && fp == Fp(z, RowsOf(st), Hashed(|wslots|))
    modifies st
    ensures RowsOf(st) == old(RowsOf(st))
    ensures ok == (|GprsUpTo(e.gprs, GPRS)| <= 4)
    ensures ok && !vector ==> childFp == Fp(z, after, Hashed(|wslots|))
    ensures ok && vector ==> (childFp == Fp(z, after, Hashed(|wslots|)) <==> PadDrift(old(RowsOf(st)), after, Covered(e, wslots)) == 0)
  {
    hide Xor, Term64, RowFold, Fp, Delta, Hashed, Covered, Distinct, PadDrift, PadDelta, RowDelta;
    ghost var rows := RowsOf(st);
    var j := new Journal();
    ok := j.Save(st, e, wslots);
    childFp := fp;
    if !ok {
      return;
    }
    Simulate(st, after, j.at);
    assert RowsOf(st) == after;
    var d;
    if vector {
      d := j.DeltaVector(z, st, rows);
    } else {
      d := j.DeltaScalar(z, st, rows);
    }
    HashedDistinct(|wslots|);
    DeltaUpdates(z, rows, after, j.at, Hashed(|wslots|));
    childFp := Xor(fp, d);
    if vector {
      XorAssoc(fp, Delta(z, rows, after, j.at), PadDrift(rows, after, j.at));
      XorIsZero(Fp(z, after, Hashed(|wslots|)), PadDrift(rows, after, j.at));
    }
    j.Restore(st, rows);
  }

  /** The simulation's writes, within the declared positions. */
  method Simulate(st: array2<bv64>, after: seq<Row>, at: seq<nat>)
    requires st.Length0 == POSITIONS && st.Length1 == PAD && RowsOk(after) && SameOutside(RowsOf(st), after, at)
    requires forall i | 0 <= i < |at| :: at[i] < POSITIONS
    modifies st
    ensures RowsOf(st) == after
  {
    for i := 0 to |at|
      invariant forall p: nat | p < POSITIONS && p !in at :: RowsOf(st)[p] == after[p]
      invariant forall k | 0 <= k < i :: RowsOf(st)[at[k]] == after[at[k]]
    {
      WriteRow(st, at[i], after[at[i]]);
    }
    forall p: nat | p < POSITIONS ensures RowsOf(st)[p] == after[p] {
      if p in at {
        var k :| 0 <= k < |at| && at[k] == p;
      }
    }
  }
}
