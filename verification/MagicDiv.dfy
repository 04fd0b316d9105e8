/** Division by a constant through a multiply-high: deriving the multiplier, and what the recipe computes. */
module MagicDiv {
  import opened Options

  newtype u64 = x: int | 0 <= x < 0x1_0000_0000_0000_0000
  newtype u128 = x: int | 0 <= x < 0x1_0000_0000_0000_0000_0000_0000_0000_0000
  newtype i64 = x: int | -0x8000_0000_0000_0000 <= x < 0x8000_0000_0000_0000

  const TWO63: int := 0x8000_0000_0000_0000
  const TWO64: int := 0x1_0000_0000_0000_0000
  const TWO128: int := 0x1_0000_0000_0000_0000_0000_0000_0000_0000

  /** Multiplier, shift, and whether the 65-bit multiplier needs the increment form. */
  datatype Magic = Magic(m: u64, s: nat, formB: bool)

  // ---------------------------------------------------------------------
  // powers of two
  // ---------------------------------------------------------------------

  function Pow2(n: nat): (r: int)
    ensures r > 0
  {
    if n == 0 then 1 else 2 * Pow2(n - 1)
  }

  lemma {:induction false} Pow2Add(a: nat, b: nat)
    ensures Pow2(a + b) == Pow2(a) * Pow2(b)
  {
    if b > 0 {
      Pow2Add(a, b - 1);
      MulTwice(Pow2(a), Pow2(b - 1));
    }
  }

  lemma MulTwice(a: int, b: int)
    ensures a * (2 * b) == 2 * (a * b)
  {
  }

  lemma {:induction false} Pow2Mono(a: nat, b: nat)
    requires a <= b
    ensures Pow2(a) <= Pow2(b)
  {
    if a < b {
      Pow2Mono(a, b - 1);
    }
  }

  lemma Pow2Values()
    ensures Pow2(63) == TWO63 && Pow2(64) == TWO64 && Pow2(127) == TWO63 * TWO64 && Pow2(128) == TWO128
  {
    assert Pow2(4) == 16 && Pow2(3) == 8;
    Pow2Add(4, 4);
    Pow2Add(8, 8);
    Pow2Add(16, 16);
    Pow2Add(4, 3);
    Pow2Add(8, 7);
    Pow2Add(16, 15);
    Pow2Add(32, 31);
    Pow2Add(32, 32);
    Pow2Add(64, 63);
    Pow2Add(64, 64);
  }

  /** Bitwise and, bit by bit. */
  function And(a: nat, b: nat): nat {
    if a == 0 || b == 0 then 0
    else 2 * And(a / 2, b / 2) + (if a % 2 == 1 && b % 2 == 1 then 1 else 0)
  }

  lemma {:induction false} AndSelf(a: nat)
    ensures And(a, a) == a
  {
    if a > 0 {
      AndSelf(a / 2);
    }
  }

  /** The bit trick the code uses. */
  function IsPow2(v: nat): bool {
    v != 0 && And(v, v - 1) == 0
  }

  ghost predicate PowerOfTwo(v: int) {
    exists k: nat :: v == Pow2(k)
  }

  lemma HalfPower(u: nat)
    ensures PowerOfTwo(2 * u) <==> PowerOfTwo(u)
  {
    if PowerOfTwo(u) {
      var k: nat :| u == Pow2(k);
      assert 2 * u == Pow2(k + 1);
    }
    if PowerOfTwo(2 * u) {
      var k: nat :| 2 * u == Pow2(k);
      assert u == Pow2(k - 1);
    }
  }

  lemma OddPower(v: nat)
    requires v % 2 == 1 && v > 1
    ensures !PowerOfTwo(v)
  {
    forall k: nat ensures v != Pow2(k) {
      assert k > 0 ==> Pow2(k) == 2 * Pow2(k - 1);
    }
  }

  /** The trick recognises exactly the powers of two. */
  lemma {:induction false} IsPow2Exactly(v: nat)
    ensures IsPow2(v) <==> PowerOfTwo(v)
  {
    if v == 1 {
      assert v == Pow2(0);
    } else if v % 2 == 1 {
      AndSelf(v / 2);
      OddPower(v);
    } else if v > 0 {
      HalfPower(v / 2);
      IsPow2Exactly(v / 2);
    }
  }

  // ---------------------------------------------------------------------
  // the multiplier
  // ---------------------------------------------------------------------

  /** ceil(2^(64+s) / d). */
  function Multiplier(d: nat, s: nat): int
    requires d > 0
  {
    (Pow2(64 + s) + d - 1) / d
  }

  /** How far the multiplier overshoots: Multiplier * d - 2^(64+s). */
  function Excess(d: nat, s: nat): int
    requires d > 0
  {
    Multiplier(d, s) * d - Pow2(64 + s)
  }

  lemma CeilBounds(p: int, d: int)
    requires d > 0 && p >= 0
    ensures var m := (p + d - 1) / d;
            0 <= m * d - p < d && m >= 0
  {
    var m := (p + d - 1) / d;
    assert p + d - 1 == m * d + (p + d - 1) % d;
    assert m >= 0;
  }

  lemma ExcessRange(d: nat, s: nat)
    requires d > 0
    ensures 0 <= Excess(d, s) < d && Multiplier(d, s) >= 0
    ensures Multiplier(d, s) * d == Pow2(64 + s) + Excess(d, s)
  {
    CeilBounds(Pow2(64 + s), d);
  }

  /** Ordering by a common factor. */
  lemma MulLess(a: int, b: int, d: int)
    requires d > 0 && a * d < b * d
    ensures a < b
  {
    if a >= b {
      MulAtMost(b, a, d);
    }
  }

  lemma MulAtMost(a: int, b: int, d: int)
    requires d >= 0 && a <= b
    ensures a * d <= b * d
  {
    assert (b - a) * d >= 0;
  }

  /** The multiplier needs 65 bits exactly when 2^s has reached the divisor. */
  lemma MultiplierFits(d: nat, s: nat)
    requires 0 < d < TWO64
    ensures Multiplier(d, s) >= TWO64 <==> Pow2(s) >= d
  {
    ExcessRange(d, s);
    Pow2Values();
    Pow2Add(64, s);
    var m := Multiplier(d, s);
    if Pow2(s) >= d {
      MulAtMost(d, Pow2(s), TWO64);
      if m < TWO64 {
        MulAtMost(m, TWO64 - 1, d);
      }
    } else if m >= TWO64 {
      MulAtMost(TWO64, m, d);
      MulAtMost(Pow2(s), d - 1, TWO64);
    }
  }

  /** Doubling the scale at most doubles the excess. */
  lemma ExcessDoubles(d: nat, s: nat)
    requires d > 0
    ensures Excess(d, s + 1) <= 2 * Excess(d, s)
    ensures Multiplier(d, s + 1) <= 2 * Multiplier(d, s)
  {
    ExcessRange(d, s);
    ExcessRange(d, s + 1);
    var m, m' := Multiplier(d, s), Multiplier(d, s + 1);
    assert Pow2(64 + (s + 1)) == 2 * Pow2(64 + s);
    assert (2 * m + 1) * d == 2 * (m * d) + d;
    if m' > 2 * m {
      MulAtMost(2 * m + 1, m', d);
    }
    MulAtMost(m', 2 * m, d);
    assert (2 * m) * d == 2 * (m * d);
  }

  /** Once the excess is within 2^s it stays within it as s grows. */
  lemma {:induction false} ExcessStaysSmall(d: nat, s: nat, t: nat)
    requires d > 0 && s <= t && Excess(d, s) <= Pow2(s)
    ensures Excess(d, t) <= Pow2(t)
  {
    if s < t {
      ExcessStaysSmall(d, s, t - 1);
      ExcessDoubles(d, t - 1);
    }
  }

  // ---------------------------------------------------------------------
  // what the recipe computes
  // ---------------------------------------------------------------------

  /** A multiplier whose excess is at most 2^s divides every 64-bit number exactly. */
  lemma MultiplierDivides(d: nat, s: nat, x: nat)
    requires d > 0 && x < TWO64 && Excess(d, s) <= Pow2(s)
    ensures (x * Multiplier(d, s)) / Pow2(64 + s) == x / d
  {
    ExcessRange(d, s);
    Pow2Values();
    Pow2Add(64, s);
    CeilDivides(d, Pow2(64 + s), Multiplier(d, s), Excess(d, s), x, Pow2(s));
  }

  lemma CeilDivides(d: int, p: int, m: int, e: int, x: int, h: int)
    requires d > 0 && p > 0 && h > 0 && 0 <= x < TWO64 && 0 <= e <= h
    requires m * d == p + e && p == TWO64 * h
    ensures (x * m) / p == x / d
  {
    var q, r := x / d, x % d;
    assert (x * m) * d == x * p + x * e by {
      Regroup(x, m, d, p, e);
    }
    ProductBelow(x, e, TWO64, h);
    assert x * p == (q * p) * d + r * p by {
      Regroup2(q, d, r, p);
    }
    MulAtMost(r, d - 1, p);
    MulAtMost(0, r, p);
    Sandwich(x * m, q, p, d, r, x * e);
    QuotientIs(x * m, p, q);
  }

  lemma Regroup(x: int, m: int, d: int, p: int, e: int)
    requires m * d == p + e
    ensures (x * m) * d == x * p + x * e
  {
    assert (x * m) * d == x * (m * d);
  }

  lemma Regroup2(q: int, d: int, r: int, p: int)
    ensures (q * d + r) * p == (q * p) * d + r * p
  {
  }

  lemma ProductBelow(x: int, e: int, a: int, b: int)
    requires 0 <= x < a && 0 <= e <= b && b > 0
    ensures 0 <= x * e < a * b
  {
    MulAtMost(e, b, x);
    assert e * x == x * e;
    MulAtMost(x, a - 1, b);
    assert x * b == b * x;
    assert (a - 1) * b == a * b - b;
  }

  lemma Sandwich(y: int, q: int, p: int, d: int, r: int, xe: int)
    requires d > 0 && p > 0 && 0 <= r && r * p <= (d - 1) * p && 0 <= r * p && 0 <= xe < p
    requires y * d == (q * p) * d + r * p + xe
    ensures q * p <= y < (q + 1) * p
  {
    assert (q * p - 1) * d == (q * p) * d - d;
    if y < q * p {
      MulAtMost(y, q * p - 1, d);
    }
    assert (q * p) * d + (d - 1) * p + p == ((q + 1) * p) * d by {
      assert (d - 1) * p + p == p * d;
      assert ((q + 1) * p) * d == (q * p + p) * d;
      assert (q * p + p) * d == (q * p) * d + p * d;
    }
    MulLess(y, (q + 1) * p, d);
  }

  lemma QuotientIs(y: int, p: int, q: int)
    requires p > 0 && q * p <= y < (q + 1) * p
    ensures y / p == q
  {
    var k := y / p;
    assert y == k * p + y % p;
    assert (q + 1) * p == q * p + p && (k + 1) * p == k * p + p;
    if k < q {
      MulAtMost(k + 1, q, p);
    } else if k > q {
      MulAtMost(q + 1, k, p);
    }
  }

  /** Shifting twice is shifting once. */
  lemma DivDiv(y: int, a: int, b: int)
    requires y >= 0 && a > 0 && b > 0
    ensures a * b > 0 && (y / a) / b == y / (a * b)
  {
    assert a * b > 0;
    var u, r := y / a, y % a;
    var v, t := u / b, u % b;
    assert y == u * a + r && u == v * b + t;
    assert y == v * (a * b) + (t * a + r) by {
      assert (v * b + t) * a == v * (a * b) + t * a;
    }
    assert 0 <= t * a + r < a * b by {
      MulAtMost(t, b - 1, a);
      assert (b - 1) * a == a * b - a;
      assert t * a >= 0;
    }
    assert (v + 1) * (a * b) == v * (a * b) + a * b;
    QuotientIs(y, a * b, v);
  }

  /** mg is a correct recipe for d: the first form multiplies by the multiplier itself, the second
      by the multiplier less 2^64. */
  ghost predicate RecipeFor(d: nat, mg: Magic) {
    && d > 1 && mg.s < 64 && Excess(d, mg.s) <= Pow2(mg.s)
    && Multiplier(d, mg.s) == mg.m as int + (if mg.formB then TWO64 else 0)
    && (mg.formB ==> mg.s > 0)
  }

  lemma HighHalfFits(a: int, b: int)
    requires 0 <= a < TWO64 && 0 <= b < TWO64
    ensures 0 <= (a * b) / TWO64 < TWO64
  {
    ProductBelow(a, b, TWO64, TWO64);
  }

  lemma ShiftedFits(a: int, p: int)
    requires 0 <= a && p > 0
    ensures 0 <= a / p <= a
  {
    var q := a / p;
    assert a == q * p + a % p;
    if q >= 0 {
      MulAtMost(1, p, q);
    }
  }

  /** High half of the 128-bit product. */
  function MulHi(a: u64, b: u64): (r: u64)
    ensures r as int == (a as int * b as int) / TWO64
  {
    HighHalfFits(a as int, b as int);
    ((a as int * b as int) / TWO64) as u64
  }

  /** Logical shift right. */
  function Shr(a: u64, s: nat): (r: u64)
    requires s < 64
    ensures r as int == a as int / Pow2(s)
  {
    ShiftedFits(a as int, Pow2(s));
    (a as int / Pow2(s)) as u64
  }

  /** Unsigned division by the recipe. Every intermediate value fits 64 bits without wrapping. */
  method UMagicDiv(x: u64, ghost d: nat, mg: Magic) returns (q: u64)
    requires RecipeFor(d, mg)
    ensures q as int == x as int / d
  {
    if !mg.formB {
      var t := MulHi(x, mg.m);
      q := Shr(t, mg.s);
      FittingForm(d, mg, x as int);
    } else {
      var t := MulHi(x, mg.m);
      IncrementForm(d, mg, x as int);
      var h := t + Shr(x - t, 1);
      q := Shr(h, mg.s - 1);
    }
  }

  lemma FittingForm(d: nat, mg: Magic, x: int)
    requires RecipeFor(d, mg) && !mg.formB && 0 <= x < TWO64
    ensures ((x * mg.m as int) / TWO64) / Pow2(mg.s) == x / d
  {
    MultiplierDivides(d, mg.s, x);
    Pow2Values();
    Pow2Add(64, mg.s);
    assert x * mg.m as int >= 0;
    DivDiv(x * mg.m as int, TWO64, Pow2(mg.s));
  }

  /** The high half t of x * m is at most x, and adding the bit of weight 2^64 to m adds x to it. */
  lemma HighHalf(x: int, m: int)
    requires 0 <= x < TWO64 && 0 <= m < TWO64
    ensures 0 <= (x * m) / TWO64 <= x && (x * (m + TWO64)) / TWO64 == (x * m) / TWO64 + x
  {
    assert 0 <= x * m <= x * TWO64 by {
      MulAtMost(m, TWO64, x);
    }
    assert x * (m + TWO64) == x * m + x * TWO64;
  }

  /** The increment form: with t the high half of x * (M - 2^64), t <= x and
      (t + (x - t) / 2) / 2^(s-1) is the quotient. */
  lemma IncrementForm(d: nat, mg: Magic, x: int)
    requires RecipeFor(d, mg) && mg.formB && 0 <= x < TWO64
    ensures var t := (x * mg.m as int) / TWO64;
            && 0 <= t <= x && t + (x - t) / 2 < TWO64
            && (t + (x - t) / 2) / Pow2(mg.s - 1) == x / d
            && Pow2(1) == 2
  {
    var t, y := (x * mg.m as int) / TWO64, x * Multiplier(d, mg.s);
    HighHalf(x, mg.m as int);
    assert (t + x) / Pow2(mg.s) == x / d by {
      Pow2Values();
      Pow2Add(64, mg.s);
      assert y >= 0;
      DivDiv(y, TWO64, Pow2(mg.s));
      MultiplierDivides(d, mg.s, x);
    }
    assert t + (x - t) / 2 == (t + x) / 2;
    DivDiv(t + x, 2, Pow2(mg.s - 1));
  }

  // ---------------------------------------------------------------------
  // deriving the recipe
  // ---------------------------------------------------------------------

  /** When the derivation finds a recipe. */
  ghost predicate Derivable(d: nat) {
    d >= 3 && !PowerOfTwo(d) && Excess(d, 63) <= TWO63
  }

  /** No shift below n works: the multiplier fits 64 bits but overshoots too far. */
  ghost predicate NoneBelow(d: nat, n: nat)
    requires d > 0
  {
    forall s: nat | s < n :: Multiplier(d, s) < TWO64 && Excess(d, s) > Pow2(s)
  }

  lemma ShiftFacts(d: nat, s: nat)
    requires 3 <= d < TWO64 && s < 64 && NoneBelow(d, s)
    ensures Pow2(64 + s) <= TWO63 * TWO64 && Pow2(s) <= TWO63
    ensures 0 <= Multiplier(d, s) && Multiplier(d, s) - TWO64 < TWO64
    ensures 0 <= Excess(d, s) < d
    ensures Multiplier(d, s) >= TWO64 ==> s > 0 && Excess(d, s) <= Pow2(s)
  {
    Pow2Values();
    Pow2Mono(64 + s, 127);
    Pow2Mono(s, 63);
    ExcessRange(d, s);
    MultiplierFits(d, s);
    if s > 0 {
      assert Multiplier(d, s - 1) < TWO64;
      ExcessDoubles(d, s - 1);
    } else {
      assert Pow2(0) == 1;
    }
  }

  /** (pw + d - 1) / d in 128-bit arithmetic. */
  function CeilDiv(pw: u128, d: u64): (num: u128)
    requires d > 0 && pw as int <= TWO63 * TWO64
    ensures num as int == (pw as int + d as int - 1) / d as int
  {
    ShiftedFits(pw as int + d as int - 1, d as int);
    (pw + d as u128 - 1) / d as u128
  }

  /** num * d - pw in 128-bit arithmetic. */
  function Overshoot(num: u128, d: u64, pw: u128): (e: u128)
    requires d > 0 && pw as int <= TWO63 * TWO64 && num as int == (pw as int + d as int - 1) / d as int
    ensures e as int == num as int * d as int - pw as int
  {
    CeilBounds(pw as int, d as int);
    assert 0 <= num as int * d as int < TWO128;
    num * d as u128 - pw
  }

  lemma MultiplierIs(d: nat, s: nat)
    requires d > 0
    ensures Multiplier(d, s) == (Pow2(64 + s) + d - 1) / d
    ensures Excess(d, s) == Multiplier(d, s) * d - Pow2(64 + s)
  {
  }

  /** Searches the shifts 0..63 for the first that works. The 128-bit arithmetic never overflows. */
  method DeriveMagic(d: u64) returns (r: Option<Magic>)
    ensures r.Some? <==> Derivable(d as int)
    ensures r.Some? ==> RecipeFor(d as int, r.value)
  {
    hide Multiplier, Excess, Pow2, And;
    IsPow2Exactly(d as int);
    if d < 3 || IsPow2(d as int) {
      return None;
    }
    for s := 0 to 64
      invariant NoneBelow(d as int, s)
    {
      ShiftFacts(d as int, s);
      var pw := Pow2(64 + s) as u128;
      var num := CeilDiv(pw, d);
      var e := Overshoot(num, d, pw);
      assert num as int == Multiplier(d as int, s) && e as int == Excess(d as int, s) by {
        MultiplierIs(d as int, s);
      }
      if (num as int) < TWO64 {
        if e as int <= Pow2(s) {
          FoundMeansDerivable(d as int, s);
          assert Derivable(d as int);
          return Some(Magic(num as u64, s, false));
        }
      } else {
        FoundMeansDerivable(d as int, s);
        return Some(Magic((num as int - TWO64) as u64, s, true));
      }
    }
    Pow2Values();
    assert Excess(d as int, 63) > Pow2(63);
    return None;
  }

  lemma FoundMeansDerivable(d: nat, s: nat)
    requires 3 <= d && s < 64 && Excess(d, s) <= Pow2(s)
    ensures Excess(d, 63) <= TWO63
  {
    Pow2Values();
    ExcessStaysSmall(d, s, 63);
  }

  /** Every divisor below 2^63 that is no power of two is served. */
  lemma BelowTwo63IsDerivable(d: nat)
    requires 3 <= d < TWO63 && !PowerOfTwo(d)
    ensures Derivable(d)
  {
    ExcessRange(d, 63);
  }

  /** Divisors far below 2^64 are refused too: 7 * 2^61 is one. */
  lemma RefusedWellBelowTwo64()
    ensures !Derivable(0xE000_0000_0000_0000)
  {
    var d := 0xE000_0000_0000_0000;
    Pow2Values();
    assert Multiplier(d, 63) == 10540996613548315210;
  }

  /** ... and the divisor right below 2^64 is not. */
  lemma LargestDivisorIsDerivable()
    ensures Derivable(0xFFFF_FFFF_FFFF_FFFF)
  {
    Pow2Values();
    OddPower(0xFFFF_FFFF_FFFF_FFFF);
  }

  // ---------------------------------------------------------------------
  // signed division and remainders
  // ---------------------------------------------------------------------

  /** Bitwise exclusive or, bit by bit. */
  function Xor(a: nat, b: nat): nat {
    if a == 0 && b == 0 then 0
    else 2 * Xor(a / 2, b / 2) + (if a % 2 == b % 2 then 0 else 1)
  }

  lemma {:induction false} XorZero(a: nat)
    ensures Xor(a, 0) == a
  {
    if a > 0 {
      XorZero(a / 2);
    }
  }

  lemma {:induction false} XorOnes(a: nat, n: nat)
    requires a < Pow2(n)
    ensures Xor(a, Pow2(n) - 1) == Pow2(n) - 1 - a
  {
    if n > 0 {
      XorOnes(a / 2, n - 1);
      assert (Pow2(n) - 1) / 2 == Pow2(n - 1) - 1;
      assert (Pow2(n) - 1) % 2 == 1;
    } else {
      assert Xor(0, 0) == 0;
    }
  }

  /** Reduction to 64 bits. */
  function Wrap(v: int): (r: nat)
    ensures r < TWO64
  {
    v % TWO64
  }

  /** The signed reading of 64 bits. */
  function Signed(u: nat): (r: int)
    requires u < TWO64
    ensures -TWO63 <= r < TWO63
    ensures Wrap(r) == u
  {
    if u >= TWO63 then u - TWO64 else u
  }

  lemma SignedOfWrap(v: int)
    requires -TWO63 <= v < TWO63
    ensures Signed(Wrap(v)) == v
  {
  }

  function Abs(x: int): nat {
    if x < 0 then -x else x
  }

  /** Division truncating toward zero. */
  function TruncDiv(x: int, d: int): int
    requires d != 0
  {
    var q := Abs(x) / Abs(d);
    if (x < 0) != (d < 0) then -q else q
  }

  /** All ones or all zeros. */
  function SignMask(negative: bool): nat {
    if negative then TWO64 - 1 else 0
  }

  /** ((u xor s) - s) modulo 2^64. */
  function Transfer(u: nat, s: nat): (r: nat)
    ensures r < TWO64
  {
    Wrap(Xor(u, s) - s)
  }

  /** The identity for the mask of zeros, negation modulo 2^64 for the mask of ones. */
  lemma TransferIs(u: nat, negative: bool)
    requires u < TWO64
    ensures Transfer(u, SignMask(negative)) == if negative then Wrap(-(u as int)) else u
  {
    Pow2Values();
    if negative {
      XorOnes(u, 64);
    } else {
      XorZero(u);
    }
  }

  /** Transferring the sign of x onto x itself gives its magnitude, 2^63 included. */
  lemma MagnitudeByTransfer(x: int)
    requires -TWO63 <= x < TWO63
    ensures Transfer(Wrap(x), SignMask(x < 0)) == Abs(x)
  {
    TransferIs(Wrap(x), x < 0);
    hide Transfer, SignMask;
    assert Wrap(x) == if x < 0 then x + TWO64 else x;
    assert x < 0 ==> Wrap(-(x + TWO64)) == -x;
  }

  /** Transferring the sign of x onto a quotient, then negating for a negative divisor. */
  lemma SignsRestored(q: nat, xNegative: bool, dNegative: bool)
    requires q < TWO63
    ensures var q1 := Signed(Transfer(q, SignMask(xNegative)));
            (if dNegative then Signed(Wrap(-q1)) else q1) == if xNegative != dNegative then -(q as int) else q
  {
    TransferIs(q, xNegative);
    SignedOfWrap(q);
    SignedOfWrap(-(q as int));
  }

  lemma QuotientBound(a: nat, d: nat)
    requires d >= 2 && a <= TWO63
    ensures 0 <= a / d && 2 * (a / d) <= a
  {
    MulAtMost(2, d, a / d);
    assert a == (a / d) * d + a % d;
  }

  lemma SignedDerivable(d: int)
    requires -TWO63 <= d < TWO63 && (d > 1 || d < -1)
    ensures Derivable(Abs(d)) <==> !PowerOfTwo(Abs(d))
  {
    Pow2Values();
    assert PowerOfTwo(TWO63) by {
      assert TWO63 == Pow2(63);
    }
    assert PowerOfTwo(2) by {
      assert 2 == Pow2(1);
    }
    if !PowerOfTwo(Abs(d)) {
      BelowTwo63IsDerivable(Abs(d));
    }
  }

  /** Signed division through the absolute value, signs restored by masks; absent when |d| is a power of two. */
  method SMagicDiv(x: i64, d: i64) returns (r: Option<i64>)
    requires d > 1 || d < -1
    ensures r.Some? <==> !PowerOfTwo(Abs(d as int))
    ensures r.Some? ==> r.value as int == TruncDiv(x as int, d as int)
  {
    SignedDerivable(d as int);
    hide Pow2, Derivable, RecipeFor, Transfer, Wrap, PowerOfTwo, Signed;
    var ad: u64 := if d < 0 then (-(d + 1)) as u64 + 1 else d as u64;
    assert ad as int == Abs(d as int);
    var mg := DeriveMagic(ad);
    if mg.None? {
      return None;
    }
    var s: nat := SignMask(x < 0);
    var t: nat := Transfer(Wrap(x as int), s);
    MagnitudeByTransfer(x as int);
    var qu := UMagicDiv(t as u64, ad as int, mg.value);
    QuotientBound(t, ad as int);
    SignsRestored(qu as int, x < 0, d < 0);
    var q := Signed(Transfer(qu as int, s));
    if d < 0 {
      q := Signed(Wrap(-q));
    }
    return Some(q as i64);
  }

  /** The remainder recombined from the quotient, modulo 2^64. */
  method SMagicMod(x: i64, d: i64) returns (r: Option<i64>)
    requires d > 1 || d < -1
    ensures r.Some? <==> !PowerOfTwo(Abs(d as int))
    ensures r.Some? ==> r.value as int == x as int - TruncDiv(x as int, d as int) * d as int
    ensures r.Some? ==> Abs(r.value as int) < Abs(d as int) && (r.value == 0 || (r.value < 0 <==> x < 0))
  {
    hide PowerOfTwo;
    var q := SMagicDiv(x, d);
    if q.None? {
      return None;
    }
    RemainderFacts(x as int, d as int);
    return Some(Signed(Wrap(x as int - q.value as int * d as int)) as i64);
  }

  lemma RemainderFacts(x: int, d: int)
    requires d != 0 && -TWO63 <= x < TWO63 && -TWO63 <= d < TWO63
    ensures var r := x - TruncDiv(x, d) * d;
            Abs(r) < Abs(d) && (r == 0 || (r < 0 <==> x < 0)) && Signed(Wrap(r)) == r
  {
    var q, m := Abs(x) / Abs(d), Abs(x) % Abs(d);
    var p := q * Abs(d);
    assert Abs(x) == p + m;
    SignedProduct(q, d, x < 0);
    RemainderSigns(x, d, p, m, TruncDiv(x, d) * d);
  }

  lemma RemainderSigns(x: int, d: int, p: int, m: int, back: int)
    requires d != 0 && -TWO63 <= x < TWO63 && -TWO63 <= d < TWO63
    requires Abs(x) == p + m && 0 <= m < Abs(d) && back == if x < 0 then -p else p
    ensures var r := x - back;
            Abs(r) < Abs(d) && (r == 0 || (r < 0 <==> x < 0)) && Signed(Wrap(r)) == r
  {
    SignedOfWrap(x - back);
  }

  lemma SignedProduct(q: int, d: int, negative: bool)
    ensures (if negative != (d < 0) then -q else q) * d == if negative then -(q * Abs(d)) else q * Abs(d)
  {
  }

  /** Unsigned remainder recombined from the quotient. */
  method UMagicMod(x: u64, ghost d: nat, du: u64, mg: Magic) returns (r: u64)
    requires RecipeFor(d, mg) && du as int == d
    ensures r as int == x as int % d
  {
    var q := UMagicDiv(x, d, mg);
    assert x as int == (x as int / d) * d + x as int % d;
    r := Wrap(x as int - q as int * du as int) as u64;
  }
}
