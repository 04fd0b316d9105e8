/** The inputs a window is sampled on: twelve lanes a batch, half of them hashed, half one window constant everywhere. */
module SuperSeed {
  import opened Fingerprint

  /** Lanes from here on sweep the window's constants. */
  const SWEEP: nat := 6

  function SplitMix64(x: bv64): bv64 {
    var a := x + 0x9E37_79B9_7F4A_7C15;
    var b := (a ^ (a >> 30)) * 0xBF58_476D_1CE4_E5B9;
    var c := (b ^ (b >> 27)) * 0x94D0_49BB_1331_11EB;
    c ^ (c >> 31)
  }

  /** The mixer's first two outputs from the seed zero. */
  lemma MixerVectors()
    ensures SplitMix64(0) == 0xE220_A839_7B1D_CDAF && SplitMix64(0x9E37_79B9_7F4A_7C15) == 0x6E78_9E6A_A1B9_65F4
  {
  }

  /** Boundary integers, powers of two and alternating bits. */
  function Corners(): (r: seq<bv64>)
    ensures |r| == 23
  {
    [0, 1, 0xFFFF_FFFF_FFFF_FFFF, 2, 0xFFFF_FFFF_FFFF_FFFE, 3, 7, 15, 16, 0xFFFF_FFFF_FFFF_FFF0, 31, 32,
     0x7F, 0xFFFF_FFFF_FFFF_FF80, 0x7FFF, 0xFFFF_FFFF_FFFF_8000,
     0x7FFF_FFFF, 0xFFFF_FFFF_8000_0000, 0xFFFF_FFFF, 4294967295,
     0x5555_5555_5555_5555, 0xAAAA_AAAA_AAAA_AAAA, 0x9E37_79B9_7F4A_7C15]
  }

  /** What the hashed lanes start from: corners in the first batch, mixed batch and lane numbers in the others. */
  function LaneBase(batch: bv64, v: nat): bv64
    requires v < SWEEP
  {
    if batch == 0 then Corners()[v * 23 / SWEEP]
    else SplitMix64(0xC0F_FEE1_2345_6789 ^ (0xAB_CDEF * batch) ^ (0x2545_F491_4F6C_DD1D * v as bv64))
  }

  function Hashed64(batch: bv64, v: nat, p: nat): bv64
    requires p < POSITIONS
  {
    SplitMix64(SplitMix64(LaneBase(batch, v % SWEEP)) ^ (0x9E37_79B9 * (p + 1) as bv64))
  }

  /** The first batch starts from these corners, the others from values like these. */
  lemma FirstBases()
    ensures LaneBase(0, 0) == 0 && LaneBase(0, 1) == 2 && LaneBase(0, 2) == 15 && LaneBase(0, 3) == 32
    ensures LaneBase(0, 4) == 0xFFFF_FFFF_FFFF_8000 && LaneBase(0, 5) == 0xFFFF_FFFF
  {
  }

  /** Registers 0 and 7 of the first lane. */
  lemma FirstHashed()
    ensures Hashed64(0, 0, 0) == 0xFB91_A703_F08E_B2CD && Hashed64(0, 0, 7) == 0xB3A1_EFB5_DD71_C30C
  {
    FirstBases();
    MixerVectors();
    MixedForZero();
    MixedForSeven();
    hide SplitMix64, LaneBase;
    assert (0x9E37_79B9 * (0 + 1) as bv64) == 0x9E37_79B9;
    assert (0x9E37_79B9 * (7 + 1) as bv64) == 0x9E37_79B9 * 8;
  }

  lemma MixedForZero()
    ensures SplitMix64(0xE220_A839_7B1D_CDAF ^ 0x9E37_79B9) == 0xFB91_A703_F08E_B2CD
  {
  }

  lemma MixedForSeven()
    ensures SplitMix64(0xE220_A839_7B1D_CDAF ^ (0x9E37_79B9 * 8)) == 0xB3A1_EFB5_DD71_C30C
  {
  }

  lemma LaneOfBatchOne()
    ensures LaneBase(1, 0) == 0x11C0_7D9A_DA93_C360
  {
  }

  lemma LaneOfBatchSeven()
    ensures LaneBase(7, 5) == 0xAF5F_E0E8_AD5A_1E56
  {
  }

  /** One cell of the seed: registers, then slots, then flags. */
  function Cell(batch: bv64, nslots: nat, imms: seq<bv64>, p: nat, v: nat): bv64
    requires p < POSITIONS && v < PAD
  {
    if v >= LANES then 0
    else if v >= SWEEP && imms != [] then
      var c := imms[(v - SWEEP) % |imms|];
      if p < GPRS + SLOTS then c else c & 1
    else if p < GPRS then Hashed64(batch, v, p)
    else if p < GPRS + SLOTS then if p - GPRS < nslots then Hashed64(batch, v, p) else 0
    else Hashed64(batch, v, p) & 1
  }

  function Seed(batch: bv64, nslots: nat, imms: seq<bv64>): (r: seq<Row>)
    ensures |r| == POSITIONS
    ensures forall p | 0 <= p < POSITIONS :: |r[p]| == PAD && forall v | 0 <= v < PAD :: r[p][v] == Cell(batch, nslots, imms, p, v)
  {
    seq(POSITIONS, p requires 0 <= p < POSITIONS => seq(PAD, v requires 0 <= v < PAD => Cell(batch, nslots, imms, p, v)))
  }

  /** Lanes [from, to) of the seed have been written. */
  ghost predicate Written(st: array2<bv64>, batch: bv64, nslots: nat, imms: seq<bv64>, from: nat, to: nat)
    requires st.Length0 == POSITIONS && st.Length1 == PAD && to <= PAD
    reads st
  {
    forall p: nat, v: nat | p < POSITIONS && from <= v < to :: st[p, v] == Cell(batch, nslots, imms, p, v)
  }

  /** Seeds the simulated machine, lane by lane: the real lanes, then zeros in the pad. */
  method SeedState(st: array2<bv64>, batch: bv64, nslots: nat, imms: seq<bv64>)
    requires st.Length0 == POSITIONS && st.Length1 == PAD && nslots <= SLOTS
    modifies st
    ensures RowsOf(st) == Seed(batch, nslots, imms)
  {
    hide Cell;
    for v := 0 to LANES
      invariant Written(st, batch, nslots, imms, 0, v)
    {
      SeedLane(st, batch, nslots, imms, v);
    }
    for v := LANES to PAD
      invariant Written(st, batch, nslots, imms, 0, v)
    {
      ZeroLane(st, batch, nslots, imms, v);
    }
    forall p: nat | p < POSITIONS ensures RowsOf(st)[p] == Seed(batch, nslots, imms)[p] {
    }
  }

  /** One real lane, location by location; the others stay. */
  method SeedLane(st: array2<bv64>, batch: bv64, nslots: nat, imms: seq<bv64>, v: nat)
    requires st.Length0 == POSITIONS && st.Length1 == PAD && nslots <= SLOTS && v < LANES
    modifies st
    ensures Written(st, batch, nslots, imms, v, v + 1)
    ensures forall p: nat, w: nat | p < POSITIONS && w < PAD && w != v :: st[p, w] == old(st[p, w])
  {
    hide Hashed64;
    var sweep := v >= SWEEP && imms != [];
    for g := 0 to GPRS
      invariant forall p: nat | p < g :: st[p, v] == Cell(batch, nslots, imms, p, v)
      invariant forall p: nat, w: nat | p < POSITIONS && w < PAD && w != v :: st[p, w] == old(st[p, w])
    {
      st[g, v] := if sweep then imms[(v - SWEEP) % |imms|] else Hashed64(batch, v, g);
    }
    for k := 0 to SLOTS
      invariant forall p: nat | p < GPRS + k :: st[p, v] == Cell(batch, nslots, imms, p, v)
      invariant forall p: nat, w: nat | p < POSITIONS && w < PAD && w != v :: st[p, w] == old(st[p, w])
    {
      st[GPRS + k, v] := if sweep then imms[(v - SWEEP) % |imms|] else if k < nslots then Hashed64(batch, v, GPRS + k) else 0;
    }
    for f := 0 to FLAGS
      invariant forall p: nat | p < GPRS + SLOTS + f :: st[p, v] == Cell(batch, nslots, imms, p, v)
      invariant forall p: nat, w: nat | p < POSITIONS && w < PAD && w != v :: st[p, w] == old(st[p, w])
    {
      var p := GPRS + SLOTS + f;
      st[p, v] := (if sweep then imms[(v - SWEEP) % |imms|] else Hashed64(batch, v, p)) & 1;
    }
  }

  method ZeroLane(st: array2<bv64>, batch: bv64, nslots: nat, imms: seq<bv64>, v: nat)
    requires st.Length0 == POSITIONS && st.Length1 == PAD && LANES <= v < PAD
    modifies st
    ensures Written(st, batch, nslots, imms, v, v + 1)
    ensures forall p: nat, w: nat | p < POSITIONS && w < PAD && w != v :: st[p, w] == old(st[p, w])
  {
    for p := 0 to POSITIONS
      invariant forall q: nat | q < p :: st[q, v] == 0
      invariant forall q: nat, w: nat | q < POSITIONS && w < PAD && w != v :: st[q, w] == old(st[q, w])
    {
      st[p, v] := 0;
    }
  }

  /** Seeds are rows with uniform pads, so the vector kernel starts right. */
  lemma SeedPads(batch: bv64, nslots: nat, imms: seq<bv64>)
    ensures RowsOk(Seed(batch, nslots, imms)) && PadsUniform(Seed(batch, nslots, imms))
  {
  }

  /** Lane v of the rows holds c in every register and slot. */
  ghost predicate Everywhere(rows: seq<Row>, v: nat, c: bv64)
    requires RowsOk(rows) && v < PAD
  {
    forall p | 0 <= p < GPRS + SLOTS :: rows[p][v] == c
  }

  /** In every batch, the constants that hold everywhere on some sweep lane are the first six of the window's: with at
      most six, every comparison of any location with a constant of the window comes out equal on some lane. */
  lemma SweepCovers(batch: bv64, nslots: nat, imms: seq<bv64>, c: bv64)
    requires imms != []
    ensures RowsOk(Seed(batch, nslots, imms))
    ensures (exists v :: SWEEP <= v < LANES && Everywhere(Seed(batch, nslots, imms), v, c))
            <==> c in imms[..if |imms| < SWEEP then |imms| else SWEEP]
  {
    hide Hashed64, SplitMix64;
    var rows, m := Seed(batch, nslots, imms), if |imms| < SWEEP then |imms| else SWEEP;
    forall v | SWEEP <= v < LANES && Everywhere(rows, v, c) ensures c in imms[..m] {
      assert rows[0][v] == imms[(v - SWEEP) % |imms|];
      assert imms[..m][(v - SWEEP) % |imms|] == imms[(v - SWEEP) % |imms|];
    }
    if c in imms[..m] {
      var j :| 0 <= j < m && imms[..m][j] == c;
      assert j % |imms| == j;
      assert Everywhere(rows, SWEEP + j, c);
    }
  }
}
