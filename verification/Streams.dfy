/** The users of the generator: jump-ahead by repeated squaring (ft.c, ep.c), the batches of EP, the
    planes of FT and the keys of IS.  Each is shown to read one and the same uninterrupted stream. */
module Streams {
  import opened Arith
  import opened ComplexNumbers
  import opened Lcg
  import opened Random

  // ---------- FT: powers and planes ----------

  /** ipow46: a^exponent mod 2^46 by repeated squaring. */
  method Ipow46(fl: real -> real, a: real, exponent: nat) returns (result: real)
    requires Rounding(fl) && IsState(a)
    ensures IsState(result) && result == Mod46(Pow(a.Floor, exponent)) as real
  {
    hide Rounding, Pow, Mod46;
    ghost var b := a.Floor;
    PowSmall(b);
    result := 1.0;
    if exponent == 0 { return; }
    var q := new Cell(a);
    var r := new Cell(1.0);
    var n := exponent;
    ghost var eq, er := 1, 0;
    while n > 1
      invariant 1 <= n && q != r && fresh(q) && fresh(r)
      invariant eq >= 0 && er >= 0 && eq * n + er == exponent
      invariant IsState(q.v) && q.v == Mod46(Pow(b, eq)) as real
      invariant IsState(r.v) && r.v == Mod46(Pow(b, er)) as real
    {
      var n2 := n / 2;
      if n2 * 2 == n {
        NextPow(b, eq, eq);
        var _ := Randlc(fl, q, q.v);
        assert (eq + eq) * n2 == eq * n;
        eq, n := eq + eq, n2;
      } else {
        NextPow(b, eq, er);
        var _ := Randlc(fl, r, q.v);
        assert eq * (n - 1) + (eq + er) == eq * n + er;
        er, n := eq + er, n - 1;
      }
    }
    NextPow(b, eq, er);
    var _ := Randlc(fl, r, q.v);
    result := r.v;
  }

  lemma PowSmall(b: int)
    requires 0 <= b < T46
    ensures Mod46(Pow(b, 0)) == 1 && Mod46(Pow(b, 1)) == b
  {
    assert Pow(b, 1) == b * Pow(b, 0) == b;
  }

  /** The stream position of the real part at row j, column i of plane k; the imaginary part follows. */
  function Position(nx: nat, ny: nat, k: nat, j: nat, i: nat): nat {
    2 * ((k * ny + j) * nx + i) + 1
  }

  function StreamPair(a: int, s: int, t: nat): Complex
    requires 0 <= s < T46
  {
    Complex(Unit(Iterate(a, s, t)), Unit(Iterate(a, s, t + 1)))
  }

  /** Where the copy loop's counter t stands when it reaches row j, column i. */
  function Slot(nx: nat, j: nat, i: nat): nat {
    1 + 2 * (j * nx + i)
  }

  lemma RowEnd(nx: nat, d1: nat, j: nat)
    requires j < d1
    ensures (j + 1) * nx == j * nx + nx <= d1 * nx && nx * 2 * d1 == 2 * (d1 * nx) == 2 * nx * d1
  {
    RowGap(j, d1, nx);
  }

  lemma SlotBound(nx: nat, d1: nat, j: nat, i: nat)
    requires j < d1 && i <= nx
    ensures 1 <= Slot(nx, j, i)
    ensures i < nx ==> Slot(nx, j, i) + 2 == Slot(nx, j, i + 1) && Slot(nx, j, i) + 1 <= nx * 2 * d1 == 2 * nx * d1
    ensures i == nx ==> Slot(nx, j, i) == Slot(nx, j + 1, 0)
  {
    ProductNonNegative(j, nx);
    RowEnd(nx, d1, j);
  }

  function PairAt(tmp: seq<real>, t: int): Complex {
    if 0 <= t < |tmp| - 1 then Complex(tmp[t], tmp[t + 1]) else ZERO
  }

  /** The copy of one plane's random numbers into the cube. */
  method FillPlane(tmp: array<real>, nx: nat, d1: nat, k: nat, u0: array3<Complex>)
    requires tmp.Length == nx * 2 * d1 + 1 && k < u0.Length0 && d1 <= u0.Length1 && nx <= u0.Length2
    modifies u0
    ensures forall k', j, i {:trigger u0[k', j, i]} ::
              0 <= k' < u0.Length0 && 0 <= j < u0.Length1 && 0 <= i < u0.Length2 ==>
              u0[k', j, i] == if k' == k && j < d1 && i < nx then PairAt(tmp[..], Slot(nx, j, i)) else old(u0[k', j, i])
  {
    hide Slot;
    ghost var src := tmp[..];
    var t := 1;
    assert t == Slot(nx, 0, 0) by { SlotZero(nx); }
    for j := 0 to d1
      invariant t == Slot(nx, j, 0)
      invariant forall k', j', i {:trigger u0[k', j', i]} ::
                  0 <= k' < u0.Length0 && 0 <= j' < u0.Length1 && 0 <= i < u0.Length2 ==>
                  u0[k', j', i] ==
                    if k' == k && j' < j && i < nx then PairAt(src, Slot(nx, j', i)) else old(u0[k', j', i])
    {
      for i := 0 to nx
        invariant t == Slot(nx, j, i)
        invariant forall k', j', i' {:trigger u0[k', j', i']} ::
                    0 <= k' < u0.Length0 && 0 <= j' < u0.Length1 && 0 <= i' < u0.Length2 ==>
                    u0[k', j', i'] == if k' == k && ((j' < j && i' < nx) || (j' == j && i' < i))
                                      then PairAt(src, Slot(nx, j', i')) else old(u0[k', j', i'])
      {
        SlotBound(nx, d1, j, i);
        assert PairAt(src, t) == Complex(tmp[t], tmp[t + 1]);
        u0[k, j, i] := Complex(tmp[t], tmp[t + 1]);
        t := t + 2;
      }
      SlotBound(nx, d1, j, nx);
    }
  }

  lemma SlotZero(nx: nat)
    ensures Slot(nx, 0, 0) == 1
  {
  }

  /** The random numbers of one plane, drawn from its own starting state. */
  method DrawPlane(fl: real -> real, nx: nat, d1: nat, k: nat, start: real, a: real, u0: array3<Complex>)
    requires Rounding(fl) && IsState(start) && IsState(a)
    requires k < u0.Length0 && d1 <= u0.Length1 && nx <= u0.Length2
    modifies u0
    ensures forall k': nat, j: nat, i: nat {:trigger u0[k', j, i]} :: k' < u0.Length0 && j < d1 && i < nx ==>
              u0[k', j, i] == if k' == k then StreamPair(a.Floor, start.Floor, Slot(nx, j, i)) else old(u0[k', j, i])
  {
    hide Rounding, Iterate, Slot;
    var tmp := new real[nx * 2 * d1 + 1];
    var x0 := new Cell(start);
    var n := 2 * nx * d1;
    Vranlc(fl, n, x0, a, tmp, 0);
    assert forall t {:trigger tmp[t]} :: 0 < t <= n ==> tmp[t] == Unit(Iterate(a.Floor, start.Floor, t));
    FillPlane(tmp, nx, d1, k, u0);
    forall j: nat, i: nat | j < d1 && i < nx
      ensures PairAt(tmp[..], Slot(nx, j, i)) == StreamPair(a.Floor, start.Floor, Slot(nx, j, i))
    {
      SlotBound(nx, d1, j, i);
      var t := Slot(nx, j, i);
      assert tmp[t] == Unit(Iterate(a.Floor, start.Floor, t))
          && tmp[t + 1] == Unit(Iterate(a.Floor, start.Floor, t + 1));
    }
  }

  lemma StreamPairAdd(a: int, s: int, m: nat, n: nat)
    requires 0 <= s < T46
    ensures StreamPair(a, Iterate(a, s, m), n) == StreamPair(a, s, m + n)
  {
    IterateAdd(a, s, m, n);
    IterateAdd(a, s, m, n + 1);
  }

  /** The exponent of the first jump. */
  function PlaneOffset(nx: nat, ny: nat, z: nat, y: nat): nat {
    z * 2 * nx * ny + y * 2 * nx
  }

  /** Real and imaginary part of an element are two numbers of the stream, one after the other: those at its own place
      when the planes z, the rows y and the columns x of the whole cube are written down in order. */
  ghost predicate InOrder(v: Complex, a: int, s: int, nx: nat, ny: nat, z: nat, y: nat, x: nat)
    requires 0 <= s < T46
  {
    exists p: nat :: p == 2 * (z * (ny * nx) + y * nx + x) + 1
                  && v.re == Unit(Iterate(a, s, p)) && v.im == Unit(Iterate(a, s, p + 1))
  }

  lemma PairInOrder(a: int, s: int, nx: nat, ny: nat, z: nat, y: nat, x: nat)
    requires 0 <= s < T46
    ensures InOrder(StreamPair(a, s, Position(nx, ny, z, y, x)), a, s, nx, ny, z, y, x)
  {
    hide Iterate, Unit;
    var p := Position(nx, ny, z, y, x);
    assert (z * ny + y) * nx == z * (ny * nx) + y * nx;
    assert Iterate(a, s, p) == Iterate(a, s, p);
  }

  /** compute_initial_conditions: plane by plane, with one jump of 2*NX*NY states per plane, the cube is
      the uninterrupted stream from the seed, starting at plane zstart-1, row ystart-1. */
  method ComputeInitialConditions(fl: real -> real, nx: nat, ny: nat, d1: nat, d2: nat, ystart: nat, zstart: nat,
                                  seed: real, a: real, u0: array3<Complex>)
    requires Rounding(fl) && IsState(seed) && IsState(a) && ystart >= 1 && zstart >= 1
    requires u0.Length0 >= d2 && u0.Length1 >= d1 && u0.Length2 >= nx
    modifies u0
    ensures forall k: nat, j: nat, i: nat {:trigger u0[k, j, i]} :: k < d2 && j < d1 && i < nx ==>
              u0[k, j, i] == StreamPair(a.Floor, seed.Floor, Position(nx, ny, zstart - 1 + k, ystart - 1 + j, i))
    ensures forall k: nat, j: nat, i: nat {:trigger u0[k, j, i]} :: k < d2 && j < d1 && i < nx ==>
              InOrder(u0[k, j, i], a.Floor, seed.Floor, nx, ny, zstart - 1 + k, ystart - 1 + j, i)
  {
    hide Rounding, Iterate, Pow, Position, PlaneOffset, Slot, StreamPair, InOrder;
    ghost var b, s := a.Floor, seed.Floor;
    var start := new Cell(seed);
    var offset := PlaneOffset(nx, ny, zstart - 1, ystart - 1);
    var plane := 2 * nx * ny;
    var an := Ipow46(fl, a, offset);
    JumpAhead(b, s, offset);
    var _ := Randlc(fl, start, an);
    an := Ipow46(fl, a, plane);
    ghost var at := offset;
    for k := 0 to d2
      invariant fresh(start) && IsState(start.v)
      invariant at == offset + k * plane && start.v == Iterate(b, s, at) as real
      invariant forall k': nat, j: nat, i: nat {:trigger u0[k', j, i]} :: k' < k && j < d1 && i < nx ==>
                  u0[k', j, i] == StreamPair(b, s, Position(nx, ny, zstart - 1 + k', ystart - 1 + j, i))
    {
      DrawPlane(fl, nx, d1, k, start.v, a, u0);
      forall j: nat, i: nat {:trigger u0[k, j, i]} | j < d1 && i < nx
        ensures u0[k, j, i] == StreamPair(b, s, Position(nx, ny, zstart - 1 + k, ystart - 1 + j, i))
      {
        PositionInPlane(nx, ny, zstart - 1, ystart - 1, k, j, i);
        StreamPairAdd(b, s, at, Slot(nx, j, i));
      }
      JumpAhead(b, Iterate(b, s, at), plane);
      IterateAdd(b, s, at, plane);
      var _ := Randlc(fl, start, an);
      at := at + plane;
    }
    forall k: nat, j: nat, i: nat {:trigger u0[k, j, i]} | k < d2 && j < d1 && i < nx
      ensures InOrder(u0[k, j, i], a.Floor, seed.Floor, nx, ny, zstart - 1 + k, ystart - 1 + j, i)
    {
      PairInOrder(b, s, nx, ny, zstart - 1 + k, ystart - 1 + j, i);
    }
  }

  lemma PositionInPlane(nx: nat, ny: nat, z: nat, y: nat, k: nat, j: nat, i: nat)
    ensures PlaneOffset(nx, ny, z, y) + k * (2 * nx * ny) + Slot(nx, j, i) == Position(nx, ny, z + k, y + j, i)
  {
    var p, q := z * ny, k * ny;
    assert ((z + k) * ny + (y + j)) * nx == p * nx + q * nx + y * nx + j * nx;
    assert z * 2 * nx * ny == 2 * (p * nx) && k * (2 * nx * ny) == 2 * (q * nx);
  }

  // ---------- EP: batches ----------

  /** The loop that leaves A^(2*NK) mod 2^46, with NK = 2^mk. */
  method BatchMultiplier(fl: real -> real, mk: nat, a: real) returns (an: real)
    requires Rounding(fl) && IsState(a)
    ensures Pow(2, mk + 1) >= 0 && IsState(an) && an == Mod46(Pow(a.Floor, Pow(2, mk + 1))) as real
  {
    hide Rounding, Mod46;
    var t1 := new Cell(a);
    ghost var b := a.Floor;
    PowSmall(b);
    for i := 0 to mk + 1
      invariant fresh(t1) && Pow(2, i) >= 1
      invariant IsState(t1.v) && t1.v == Mod46(Pow(b, Pow(2, i))) as real
    {
      NextPow(b, Pow(2, i), Pow(2, i));
      var _ := Randlc(fl, t1, t1.v);
    }
    an := t1.v;
  }

  lemma IterateZero(a: int, x: int)
    requires 0 <= x < T46
    ensures Iterate(a, x, 0) == x
  {
  }

  lemma DoubleStep(e: int, ik: int, bit: int)
    ensures e * (2 * ik + bit) == 2 * e * ik + bit * e
  {
  }

  lemma HalvingBound(i: nat)
    requires 1 <= i <= 31
    ensures Pow(2, 32 - i) == 2 * Pow(2, 31 - i) && Pow(2, 31) == 0x8000_0000
    ensures i == 31 ==> Pow(2, 32 - i) == 2
  {
    PowAdd(2, 10, 21);
    PowAdd(2, 10, 11);
    assert Pow(2, 10) == 1024 && Pow(2, 11) == 2048;
    assert Pow(2, 1) == 2 * Pow(2, 0);
  }

  /** The seed search of one batch: binary powering of an on the seed s. */
  method BatchSeed(fl: real -> real, s: real, an: real, batch: nat, ghost b: int, ghost step: nat) returns (seed: real)
    requires Rounding(fl) && IsState(s) && IsState(an) && batch < 0x8000_0000
    requires an == Mod46(Pow(b, step)) as real
    ensures step * batch >= 0 && IsState(seed) && seed == Iterate(b, s.Floor, step * batch) as real
  {
    hide Rounding, Iterate, Pow, Mod46;
    var kk := batch;
    var t1 := new Cell(s);
    var t2 := new Cell(an);
    ghost var e1: nat, e2: nat := 0, step;
    IterateZero(b, s.Floor);
    HalvingBound(1);
    for i := 1 to 101
      invariant i <= 31 && 0 <= kk < Pow(2, 32 - i) && t1 != t2 && fresh(t1) && fresh(t2)
      invariant IsState(t1.v) && t1.v == Iterate(b, s.Floor, e1) as real
      invariant IsState(t2.v) && t2.v == Mod46(Pow(b, e2)) as real
      invariant e1 + e2 * kk == step * batch
    {
      HalvingBound(i);
      var ik := kk / 2;
      if 2 * ik != kk {
        JumpAhead(b, Iterate(b, s.Floor, e1), e2);
        IterateAdd(b, s.Floor, e1, e2);
        var _ := Randlc(fl, t1, t2.v);
        DoubleStep(e2, ik, 1);
        e1 := e1 + e2;
      }
      if ik == 0 { break; }
      DoubleStep(e2, ik, 0);
      NextPow(b, e2, e2);
      var _ := Randlc(fl, t2, t2.v);
      e2, kk := 2 * e2, ik;
    }
    seed := t1.v;
  }

  /** One iteration of the batch loop: batch kk holds the 2*NK results of the one stream from s that
      start at position 2*NK*kk. */
  method Batch(fl: real -> real, mk: nat, batch: nat, s: real, a: real, x: array<real>)
    requires Rounding(fl) && IsState(s) && IsState(a) && batch < 0x8000_0000
    requires x.Length == Pow(2, mk + 1)
    modifies x
    ensures forall j: nat {:trigger x[j]} :: j < x.Length ==>
              x.Length * batch + j + 1 >= 0 && x[j] == Unit(Iterate(a.Floor, s.Floor, x.Length * batch + j + 1))
  {
    hide Rounding, Unit, Iterate;
    var an := BatchMultiplier(fl, mk, a);
    var seed := BatchSeed(fl, s, an, batch, a.Floor, x.Length);
    var t1 := new Cell(seed);
    Vranlc(fl, x.Length, t1, a, x, -1);
    forall j: nat | j < x.Length
      ensures x.Length * batch + j + 1 >= 0 && x[j] == Unit(Iterate(a.Floor, s.Floor, x.Length * batch + j + 1))
    {
      IterateAdd(a.Floor, s.Floor, x.Length * batch, j + 1);
    }
  }

  // ---------- IS: keys ----------

  /** The sum of the four states that make up key i. */
  function FourStates(a: int, s: int, i: nat): int
    requires 0 <= s < T46
  {
    Iterate(a, s, 4 * i + 1) + Iterate(a, s, 4 * i + 2) + Iterate(a, s, 4 * i + 3) + Iterate(a, s, 4 * i + 4)
  }

  lemma FourStatesRange(a: int, s: int, i: nat)
    requires 0 <= s < T46
    ensures 0 <= FourStates(a, s, i) < 4 * T46
  {
  }

  /** Key i as the source draws it: MAX_KEY/4 = 2^e times the sum of four unit values, truncated. */
  function Key(a: int, s: int, e: nat, i: nat): int
    requires 0 <= s < T46
  {
    (Pow(2, e) * FourStates(a, s, i)) / 0x4000_0000_0000
  }

  lemma KeyInRange(a: int, s: int, e: nat, i: nat)
    requires 0 <= s < T46
    ensures 0 <= Key(a, s, e, i) < Pow(2, e + 2)
  {
    hide Iterate;
    var f, p := FourStates(a, s, i), Pow(2, e);
    PowPositive(e);
    PowAdd(2, e, 2);
    assert Pow(2, 2) == 4;
    ProductNonNegative(p, f);
    ProductNonNegative(p, 4 * T46 - 1 - f);
    assert p * (4 * T46 - 1 - f) == (4 * T46) * p - p - p * f;
  }

  function ScaledSum(e: nat, f: int): real {
    (Pow(2, e) as real) * (R46 * (f as real))
  }

  lemma ScaledSumDyadic(e: nat, f: int)
    requires e <= 46
    ensures Dyadic(ScaledSum(e, f), f, 46 - e)
  {
    hide Pow;
    PowAdd(2, e, 46 - e);
    Powers();
    RealMul(Pow(2, e), Pow(2, 46 - e));
    ScaledBack(Pow(2, e) as real, Pow(2, 46 - e) as real, R46 * (f as real), f as real);
  }

  lemma ScaledBack(p: real, q: real, r: real, f: real)
    requires p * q == 70368744177664.0 && r == R46 * f
    ensures (p * r) * q == f
  {
    Regroup(p, r, q);
    SameProduct(p * q, r, 70368744177664.0, r);
  }

  lemma Regroup(x: real, y: real, z: real)
    ensures (x * y) * z == (x * z) * y
  {
  }

  lemma ScaledSumValue(e: nat, f: int)
    ensures ScaledSum(e, f) == R46 * ((Pow(2, e) * f) as real)
  {
    hide Pow;
    RealMul(Pow(2, e), f);
    Swap(Pow(2, e) as real, R46, f as real);
  }

  lemma Swap(x: real, y: real, z: real)
    ensures x * (y * z) == y * (x * z)
  {
  }

  lemma ScaledBound(e: nat, f: int)
    requires e <= 28 && 0 <= f < 4 * T46
    ensures 0 <= Pow(2, e) * f < 0x4000_0000 * T46
  {
    var p := Pow(2, e);
    PowPositive(e);
    PowMonotone(e, 28);
    PowAdd(2, 14, 14);
    assert Pow(2, 14) == 16384;
    Between(p, f);
  }

  lemma Between(p: int, f: int)
    requires 0 <= p <= 0x1000_0000 && 0 <= f < 4 * T46
    ensures 0 <= p * f < 0x4000_0000 * T46
  {
    ProductNonNegative(p, f);
    ProductNonNegative(0x1000_0000 - p, f);
    var n := p * f;
    assert (0x1000_0000 - p) * f == 0x1000_0000 * f - n;
  }

  /** The scaled sum is held exactly, so its truncation is an integer division. */
  lemma FlKey(fl: real -> real, e: nat, f: int)
    requires Rounding(fl) && e <= 28 && 0 <= f < 4 * T46
    ensures fl(ScaledSum(e, f)) == ScaledSum(e, f) && 0.0 <= ScaledSum(e, f) < 1073741824.0
    ensures CInt(ScaledSum(e, f)) == (Pow(2, e) * f) / 0x4000_0000_0000
  {
    hide Rounding, Dyadic, Pow;
    ScaledSumDyadic(e, f);
    FlDyadic(fl, ScaledSum(e, f), f, 46 - e);
    ScaledSumValue(e, f);
    ScaledBound(e, f);
    hide ScaledSum;
    var n := Pow(2, e) * f;
    FloorOf(R46 * (n as real), n / 0x4000_0000_0000);
  }

  lemma FlDyadic(fl: real -> real, x: real, m: int, k: nat)
    requires Rounding(fl) && k <= 46 && -0x20_0000_0000_0000 < m < 0x20_0000_0000_0000 && Dyadic(x, m, k)
    ensures fl(x) == x
  {
  }

  lemma {:induction false} PowMonotone(m: nat, n: nat)
    requires m <= n
    ensures Pow(2, m) <= Pow(2, n)
  {
    if m < n {
      PowMonotone(m, n - 1);
      PowPositive(n - 1);
    }
  }

  /** The key drawn i-th: 2^e times the sum of four numbers of the stream, chopped. */
  ghost predicate KeyDrawn(key: int, a: int, s: int, e: nat, i: nat)
    requires 0 <= s < T46
  {
    key == (Pow(2, e) as real * (Unit(Iterate(a, s, 4 * i + 1)) + Unit(Iterate(a, s, 4 * i + 2))
                                 + Unit(Iterate(a, s, 4 * i + 3)) + Unit(Iterate(a, s, 4 * i + 4)))).Floor
  }

  lemma FourUnitsSum(w: int, x: int, y: int, z: int)
    ensures Unit(w) + Unit(x) + Unit(y) + Unit(z) == R46 * ((w + x + y + z) as real)
  {
  }

  lemma KeyIsDrawn(a: int, s: int, e: nat, i: nat)
    requires 0 <= s < T46 && e <= 28
    ensures KeyDrawn(Key(a, s, e, i), a, s, e, i)
  {
    hide Iterate, Unit, Pow;
    var f := FourStates(a, s, i);
    FourUnitsSum(Iterate(a, s, 4 * i + 1), Iterate(a, s, 4 * i + 2), Iterate(a, s, 4 * i + 3),
                 Iterate(a, s, 4 * i + 4));
    FourStatesRange(a, s, i);
    ScaledSumValue(e, f);
    ScaledBound(e, f);
    var n := Pow(2, e) * f;
    FloorOf(R46 * (n as real), n / 0x4000_0000_0000);
  }

  /** create_seq: every key is in [0, MAX_KEY), and key i is read from stream positions 4i+1 .. 4i+4. */
  method CreateSeq(fl: real -> real, seed: real, a: real, e: nat, keys: array<int>)
    requires Rounding(fl) && IsState(seed) && IsState(a) && e <= 28
    modifies keys
    ensures forall i: nat {:trigger keys[i]} :: i < keys.Length ==>
              keys[i] == Key(a.Floor, seed.Floor, e, i) && 0 <= keys[i] < Pow(2, e + 2)
    ensures forall i: nat {:trigger keys[i]} :: i < keys.Length ==> KeyDrawn(keys[i], a.Floor, seed.Floor, e, i)
  {
    hide Rounding, Iterate, FourStates, KeyDrawn;
    var cell := new Cell(seed);
    var k := Pow(2, e) as real;
    ghost var b, s := a.Floor, seed.Floor;
    IterateZero(b, s);
    for i := 0 to keys.Length
      invariant fresh(cell) && IsState(cell.v) && cell.v == Iterate(b, s, 4 * i) as real
      invariant forall j: nat {:trigger keys[j]} :: j < i ==> keys[j] == Key(b, s, e, j) && 0 <= keys[j] < Pow(2, e + 2)
    {
      var f := FourUnits(fl, cell, a, i, s);
      FourStatesRange(b, s, i);
      FlKey(fl, e, FourStates(b, s, i));
      KeyInRange(b, s, e, i);
      SameProduct(k, f, Pow(2, e) as real, R46 * (FourStates(b, s, i) as real));
      assert k * f == ScaledSum(e, FourStates(b, s, i));
      keys[i] := CInt(fl(k * f));
    }
    forall i: nat {:trigger keys[i]} | i < keys.Length
      ensures KeyDrawn(keys[i], a.Floor, seed.Floor, e, i)
    {
      KeyIsDrawn(b, s, e, i);
    }
  }

  lemma IterateNext(a: int, s: int, n: nat)
    requires 0 <= s < T46
    ensures Next(a, Iterate(a, s, n)) == Iterate(a, s, n + 1)
  {
  }

  lemma FlUnitsAdd(fl: real -> real, p: int, q: int)
    requires Rounding(fl) && 0 <= p + q < 4 * T46
    ensures fl(Unit(p) + Unit(q)) == Unit(p + q)
  {
    FlScaled(fl, p + q);
    hide Rounding;
  }

  lemma UnitIs(n: int)
    ensures Unit(n) == R46 * (n as real)
  {
  }

  /** The four draws of one key, summed: the sum is exact. */
  method FourUnits(fl: real -> real, cell: Cell, a: real, ghost i: nat, ghost s: int) returns (x: real)
    requires Rounding(fl) && IsState(cell.v) && IsState(a) && 0 <= s < T46
    requires cell.v == Iterate(a.Floor, s, 4 * i) as real
    modifies cell
    ensures IsState(cell.v) && cell.v == Iterate(a.Floor, s, 4 * (i + 1)) as real
    ensures x == R46 * (FourStates(a.Floor, s, i) as real)
  {
    hide Rounding, Iterate, Unit, Next;
    ghost var b := a.Floor;
    ghost var sum := Iterate(b, s, 4 * i + 1);
    IterateNext(b, s, 4 * i);
    x := Randlc(fl, cell, a);
    for j := 1 to 4
      invariant IsState(cell.v) && cell.v == Iterate(b, s, 4 * i + j) as real
      invariant x == Unit(sum) && 0 <= sum < j * T46
      invariant j >= 1 ==> sum == Iterate(b, s, 4 * i + 1) + (if j >= 2 then Iterate(b, s, 4 * i + 2) else 0)
                                + (if j >= 3 then Iterate(b, s, 4 * i + 3) else 0)
                                + (if j >= 4 then Iterate(b, s, 4 * i + 4) else 0)
    {
      IterateNext(b, s, 4 * i + j);
      var r := Randlc(fl, cell, a);
      FlUnitsAdd(fl, sum, Iterate(b, s, 4 * i + j + 1));
      sum := sum + Iterate(b, s, 4 * i + j + 1);
      x := fl(x + r);
    }
    UnitIs(sum);
  }
}
