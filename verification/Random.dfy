/** The split-multiplication generators of bomp/benchmark/c_randdp.c and is.c on binary64 values.

    Floating point is represented by real numbers and one rounding function `fl` applied after every
    operation.  All that is asked of `fl` is that it returns a value unchanged when binary64 holds
    that value exactly, so what is proved holds whatever the rounding does to other values. */
module Random {
  import opened Arith
  import opened Lcg

  // ---------- Binary64 values ----------

  ghost predicate Dyadic(x: real, m: int, k: nat) {
    x * (Pow(2, k) as real) == m as real
  }

  /** An integer of at most 53 bits divided by a power of two: held exactly by binary64 (section 3.3
      of IEEE 754-2008). */
  ghost predicate Representable(x: real) {
    exists m: int, k: nat :: k <= 46 && -0x20_0000_0000_0000 < m < 0x20_0000_0000_0000 && Dyadic(x, m, k)
  }

  ghost predicate Rounding(fl: real -> real) {
    forall x {:trigger fl(x)} :: Representable(x) ==> fl(x) == x
  }

  /** The C conversion (int)x, defined only when the truncated value fits in 32 bits. */
  function CInt(x: real): int
    requires -2147483649.0 < x < 2147483648.0
  {
    if x >= 0.0 then x.Floor else -((-x).Floor)
  }

  /** A value the generator accepts as seed or multiplier: an integer in [0, 2^46). */
  ghost predicate IsState(x: real) {
    x.Floor as real == x && 0 <= x.Floor < T46
  }

  /** The normalized result that goes with a state. */
  function Unit(state: int): real {
    state as real / 70368744177664.0
  }

  const R23: real := 1.0 / 8388608.0
  const R46: real := 1.0 / 70368744177664.0

  class Cell {
    var v: real

    constructor (v: real)
      ensures this.v == v
    {
      this.v := v;
    }
  }

  lemma FlInt(fl: real -> real, n: int)
    requires Rounding(fl) && -0x20_0000_0000_0000 < n < 0x20_0000_0000_0000
    ensures fl(n as real) == n as real
  {
    assert Pow(2, 0) == 1;
    assert Dyadic(n as real, n, 0);
  }

  lemma FlScaled(fl: real -> real, n: int)
    requires Rounding(fl) && -0x20_0000_0000_0000 < n < 0x20_0000_0000_0000
    ensures fl(R23 * (n as real)) == R23 * (n as real)
    ensures fl(R46 * (n as real)) == R46 * (n as real)
  {
    PowAdd(2, 23, 23);
    Powers();
    assert Pow(2, 23) == 0x80_0000 by {
      PowAdd(2, 11, 12);
      assert Pow(2, 11) == 2048 && Pow(2, 12) == 4096;
    }
    assert Dyadic(R23 * (n as real), n, 23);
    assert Dyadic(R46 * (n as real), n, 46);
  }

  /** Scaling down and converting to int is integer division, and the result fits in an int. */
  lemma IntQuotient(n: int)
    requires 0 <= n < 0x8000_0000_0000
    ensures 0.0 <= R23 * (n as real) < 16777216.0 && CInt(R23 * (n as real)) == n / 0x80_0000
    ensures 0.0 <= R46 * (n as real) < 2.0 && CInt(R46 * (n as real)) == n / 0x4000_0000_0000
  {
    FloorOf(R23 * (n as real), n / 0x80_0000);
    FloorOf(R46 * (n as real), n / 0x4000_0000_0000);
  }

  lemma FloorOf(x: real, n: int)
    requires n as real <= x < n as real + 1.0
    ensures x.Floor == n
  {
  }

  lemma RealMul(m: int, n: int)
    ensures (m * n) as real == (m as real) * (n as real)
  {
  }

  lemma SameProduct(x: real, y: real, u: real, v: real)
    requires x == u && y == v
    ensures x * y == u * v
  {
  }

  lemma MulBound(p: int, q: int)
    requires 0 <= p < 0x80_0000 && 0 <= q < 0x80_0000
    ensures 0 <= p * q < T46
  {
    ProductNonNegative(p, q);
    ProductNonNegative(0x80_0000 - p, q);
    var n := p * q;
    assert (0x80_0000 - p) * q == 0x80_0000 * q - n;
  }

  // ---------- One step ----------

  /** The integer that the split multiplication computes from the halves of a and x. */
  function SplitProduct(a: int, x: int): int {
    var a1, a2, x1, x2 := a / 0x80_0000, a % 0x80_0000, x / 0x80_0000, x % 0x80_0000;
    Mod46(0x80_0000 * ((a1 * x2 + a2 * x1) % 0x80_0000) + a2 * x2)
  }

  /** Dropping the multiples of 2^46 from the split product loses nothing. */
  lemma SplitIsExact(a: int, x: int)
    ensures SplitProduct(a, x) == Next(a, x)
  {
    var a1, a2, x1, x2 := a / 0x80_0000, a % 0x80_0000, x / 0x80_0000, x % 0x80_0000;
    var m, l, h := a1 * x2 + a2 * x1, a2 * x2, a1 * x1;
    assert a * x == T46 * h + 0x80_0000 * m + l by {
      assert a == 0x80_0000 * a1 + a2 && x == 0x80_0000 * x1 + x2;
      Expand(a1, a2, x1, x2);
    }
    var z := m % 0x80_0000;
    assert m == 0x80_0000 * (m / 0x80_0000) + z;
    ModShift(0x80_0000 * z + l, h + m / 0x80_0000);
  }

  lemma Expand(a1: int, a2: int, x1: int, x2: int)
    ensures (0x80_0000 * a1 + a2) * (0x80_0000 * x1 + x2)
         == T46 * (a1 * x1) + 0x80_0000 * (a1 * x2 + a2 * x1) + a2 * x2
  {
    assert (0x80_0000 * a1 + a2) * (0x80_0000 * x1 + x2)
        == (0x80_0000 * a1) * (0x80_0000 * x1) + (0x80_0000 * a1) * x2 + a2 * (0x80_0000 * x1) + a2 * x2;
  }

  /** The product of two 23-bit halves is exact. */
  lemma FlMul(fl: real -> real, p: int, q: int, x: real, y: real)
    requires Rounding(fl) && 0 <= p < 0x80_0000 && 0 <= q < 0x80_0000 && x == p as real && y == q as real
    ensures 0 <= p * q < T46 && fl(x * y) == (p * q) as real
  {
    MulBound(p, q);
    RealMul(p, q);
    SameProduct(x, y, p as real, q as real);
    var n := p * q;
    FlInt(fl, n);
    assert x * y == n as real;
  }

  /** The 23-bit split t = 2^23*high + low, used for a, for x and for the middle sum. */
  method Split(fl: real -> real, t: real, ghost n: int) returns (high: real, low: real)
    requires Rounding(fl) && 0 <= n < 0x8000_0000_0000 && t == n as real
    ensures high == (n / 0x80_0000) as real && low == (n % 0x80_0000) as real
  {
    hide Rounding;
    FlScaled(fl, n);
    IntQuotient(n);
    FlInt(fl, 0x80_0000 * (n / 0x80_0000));
    FlInt(fl, n % 0x80_0000);
    high := CInt(fl(R23 * t)) as real;
    low := fl(t - fl(8388608.0 * high));
  }

  /** The reduction of t mod 2^46. */
  method Reduce(fl: real -> real, t: real, ghost n: int) returns (next: real)
    requires Rounding(fl) && 0 <= n < 0x8000_0000_0000 && t == n as real
    ensures next == Mod46(n) as real
  {
    hide Rounding;
    FlScaled(fl, n);
    IntQuotient(n);
    FlInt(fl, 0x4000_0000_0000 * (n / 0x4000_0000_0000));
    FlInt(fl, n % 0x4000_0000_0000);
    var t4 := CInt(fl(R46 * t)) as real;
    next := fl(t - fl(70368744177664.0 * t4));
  }

  /** The shared body of randlc, vranlc and is_randlc after a has been split: every operation is
      exact, every conversion to int is defined, and the result is the next state. */
  method SplitStep(fl: real -> real, a1: real, a2: real, x: real, ghost a: int) returns (next: real)
    requires Rounding(fl) && IsState(x) && 0 <= a < T46
    requires a1 == (a / 0x80_0000) as real && a2 == (a % 0x80_0000) as real
    ensures next == Next(a, x.Floor) as real
  {
    hide Rounding;
    ghost var n1, n2, m1, m2 := a / 0x80_0000, a % 0x80_0000, x.Floor / 0x80_0000, x.Floor % 0x80_0000;
    var x1, x2 := Split(fl, x, x.Floor);
    FlMul(fl, n1, m2, a1, x2);
    FlMul(fl, n2, m1, a2, x1);
    FlMul(fl, n2, m2, a2, x2);
    ghost var u := n1 * m2 + n2 * m1;
    ghost var w := 0x80_0000 * (u % 0x80_0000) + n2 * m2;
    FlInt(fl, u);
    FlInt(fl, 0x80_0000 * (u % 0x80_0000));
    FlInt(fl, w);
    var t1 := fl(fl(a1 * x2) + fl(a2 * x1));
    var t2, z := Split(fl, t1, u);
    var t3 := fl(fl(8388608.0 * z) + fl(a2 * x2));
    next := Reduce(fl, t3, w);
    SplitIsExact(a, x.Floor);
  }

  /** randlc, and is_randlc, which computes the same with its constants held in static variables. */
  method Randlc(fl: real -> real, x: Cell, a: real) returns (result: real)
    requires Rounding(fl) && IsState(x.v) && IsState(a)
    modifies x
    ensures IsState(x.v) && x.v == Next(a.Floor, old(x.v).Floor) as real
    ensures result == Unit(Next(a.Floor, old(x.v).Floor))
  {
    var a1, a2 := Split(fl, a, a.Floor);
    x.v := SplitStep(fl, a1, a2, x.v, a.Floor);
    FlScaled(fl, x.v.Floor);
    result := fl(R46 * x.v);
  }

  /** vranlc: fills y[off+1 .. off+n] and advances the seed by n states. */
  method Vranlc(fl: real -> real, n: nat, seed: Cell, a: real, y: array<real>, off: int)
    requires Rounding(fl) && IsState(seed.v) && IsState(a)
    requires 0 <= off + 1 && off + n < y.Length
    modifies seed, y
    ensures IsState(seed.v) && seed.v == Iterate(a.Floor, old(seed.v).Floor, n) as real
    ensures forall i {:trigger y[i]} :: 0 <= i < y.Length ==>
              y[i] == if off < i <= off + n then Unit(Iterate(a.Floor, old(seed.v).Floor, i - off)) else old(y[i])
  {
    var a1, a2 := Split(fl, a, a.Floor);
    var x := seed.v;
    for k := 1 to n + 1
      invariant seed.v == old(seed.v)
      invariant IsState(x) && x == Iterate(a.Floor, seed.v.Floor, k - 1) as real
      invariant forall i {:trigger y[i]} :: 0 <= i < y.Length ==>
                  y[i] == if off < i < off + k then Unit(Iterate(a.Floor, seed.v.Floor, i - off)) else old(y[i])
    {
      x := SplitStep(fl, a1, a2, x, a.Floor);
      FlScaled(fl, x.Floor);
      y[off + k] := fl(R46 * x);
    }
    seed.v := x;
  }
}
