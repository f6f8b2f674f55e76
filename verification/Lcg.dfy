/** The generator x' = a*x mod 2^46 of bomp/benchmark/c_randdp.c over the integers: its stream, the
    closed form behind every jump-ahead, and its exact period. */
module Lcg {
  import opened Arith

  const T46: int := 0x4000_0000_0000

  function Mod46(n: int): (r: int)
    ensures 0 <= r < T46
  {
    n % 0x4000_0000_0000
  }

  function Pow(b: int, e: nat): int {
    if e == 0 then 1 else b * Pow(b, e - 1)
  }

  function Next(a: int, x: int): int {
    Mod46(a * x)
  }

  /** The state k steps after x. */
  function Iterate(a: int, x: int, k: nat): (r: int)
    requires 0 <= x < T46
    ensures 0 <= r < T46
  {
    if k == 0 then x else Next(a, Iterate(a, x, k - 1))
  }

  // ---------- Arithmetic ----------

  lemma ModShift(n: int, q: int)
    ensures Mod46(q * T46 + n) == Mod46(n)
  {
    var r := Mod46(n);
    assert n == (n / 0x4000_0000_0000) * 0x4000_0000_0000 + r;
    QuotientUnique(q * T46 + n, 0x4000_0000_0000, q + n / 0x4000_0000_0000, r);
  }

  lemma MulModRight(a: int, b: int)
    ensures Mod46(a * Mod46(b)) == Mod46(a * b)
  {
    var q := b / 0x4000_0000_0000;
    assert b == q * T46 + Mod46(b);
    assert a * b == (a * q) * T46 + a * Mod46(b);
    ModShift(a * Mod46(b), a * q);
  }

  lemma {:induction false} PowAdd(b: int, m: nat, n: nat)
    ensures Pow(b, m + n) == Pow(b, m) * Pow(b, n)
  {
    if m > 0 {
      PowAdd(b, m - 1, n);
      assert b * (Pow(b, m - 1) * Pow(b, n)) == (b * Pow(b, m - 1)) * Pow(b, n);
    }
  }

  lemma {:induction false} PowMul(b: int, m: nat, n: nat)
    ensures m * n >= 0 && Pow(b, m * n) == Pow(Pow(b, m), n)
  {
    if n > 0 {
      PowMul(b, m, n - 1);
      assert m * n == m + m * (n - 1);
      PowAdd(b, m, m * (n - 1));
    }
  }

  // ---------- Jump-ahead ----------

  lemma {:induction false} IterateAdd(a: int, x: int, m: nat, n: nat)
    requires 0 <= x < T46
    ensures Iterate(a, Iterate(a, x, m), n) == Iterate(a, x, m + n)
  {
    if n > 0 {
      IterateAdd(a, x, m, n - 1);
    }
  }

  /** The closed form: k steps multiply by a^k. */
  lemma {:induction false} IteratePow(a: int, x: int, k: nat)
    requires 0 <= x < T46
    ensures Iterate(a, x, k) == Mod46(Pow(a, k) * x)
  {
    if k > 0 {
      IteratePow(a, x, k - 1);
      MulModRight(a, Pow(a, k - 1) * x);
      assert a * (Pow(a, k - 1) * x) == Pow(a, k) * x;
    }
  }

  /** One multiplication by a^k mod 2^46 jumps k steps ahead in the stream. */
  lemma JumpAhead(a: int, x: int, k: nat)
    requires 0 <= x < T46
    ensures Next(Mod46(Pow(a, k)), x) == Iterate(a, x, k)
  {
    IteratePow(a, x, k);
    MulModRight(x, Pow(a, k));
    assert x * Pow(a, k) == Pow(a, k) * x && Mod46(Pow(a, k)) * x == x * Mod46(Pow(a, k));
  }

  /** Powers multiply, reduced or not. */
  lemma NextPow(a: int, m: nat, n: nat)
    ensures Next(Mod46(Pow(a, m)), Mod46(Pow(a, n))) == Mod46(Pow(a, m + n))
  {
    var p, q := Pow(a, m), Pow(a, n);
    MulModRight(Mod46(p), q);
    MulModRight(q, p);
    PowAdd(a, m, n);
    assert Mod46(p) * q == q * Mod46(p) && q * p == p * q;
  }

  // ---------- The period ----------

  predicate Odd(n: int) { n % 2 == 1 }

  lemma OddShift(v: int, e: int)
    ensures Odd(v + 2 * e) <==> Odd(v)
  {
  }

  lemma OddMul(a: int, b: int)
    ensures Odd(a * b) <==> Odd(a) && Odd(b)
  {
    var j := b / 2;
    if b == 2 * j {
      TwiceProduct(a, j, 0);
      OddShift(0, a * j);
    } else {
      TwiceProduct(a, j, 1);
      OddShift(a, a * j);
    }
  }

  lemma TwiceProduct(a: int, j: int, s: int)
    ensures a * (2 * j + s) == a * s + 2 * (a * j)
  {
  }

  /** (1 + g*u)(1 + g*v) is 1 plus a multiple of g; for g = 2*h the cofactor is u + v + 2*(h*(u*v)). */
  lemma ProductShape(g: int, h: int, u: int, v: int)
    requires g == 2 * h
    ensures (1 + g * u) * (1 + g * v) == 1 + g * (u + v + 2 * (h * (u * v)))
  {
    var p, q := g * u, g * v;
    assert (1 + p) * (1 + q) == 1 + p + q + p * q;
    assert p * q == g * (g * (u * v));
    assert g * (u * v) == 2 * (h * (u * v));
    Distribute(g, u, v, 2 * (h * (u * v)));
  }

  lemma Distribute(g: int, u: int, v: int, e: int)
    ensures g * (u + v + e) == g * u + g * v + g * e
  {
  }

  /** For a = 5 mod 8, a^(2^k) is 1 plus an odd multiple of 2^(k+2). */
  lemma {:induction false} LiftSquare(a: int, k: nat) returns (u: int)
    requires a % 8 == 5
    ensures Pow(2, k) >= 1 && Odd(u) && Pow(a, Pow(2, k)) == 1 + Pow(2, k + 2) * u
  {
    if k == 0 {
      u := a / 4;
      assert Pow(2, 2) == 4 && Pow(2, 0) == 1;
      assert Pow(a, 1) == a * Pow(a, 0) == a;
    } else {
      hide Odd, Pow;
      var v := LiftSquare(a, k - 1);
      var n, g := Pow(2, k - 1), Pow(2, k + 1);
      PowDouble(k - 1);
      PowDouble(k);
      PowDouble(k + 1);
      PowAdd(a, n, n);
      SquareShape(Pow(a, n), g, n, v);
      u := v + 2 * (n * (v * v));
      OddShift(v, n * (v * v));
    }
  }

  lemma PowDouble(k: nat)
    ensures Pow(2, k + 1) == 2 * Pow(2, k)
  {
  }

  lemma SquareShape(p: int, g: int, n: int, v: int)
    requires p == 1 + g * v && g == 4 * n
    ensures p * p == 1 + (2 * g) * (v + 2 * (n * (v * v)))
  {
    ProductShape(g, 2 * n, v, v);
    Halve(g, n, v);
  }

  lemma Halve(g: int, n: int, v: int)
    ensures g * (v + v + 2 * ((2 * n) * (v * v))) == (2 * g) * (v + 2 * (n * (v * v)))
  {
    var e := n * (v * v);
    assert (2 * n) * (v * v) == 2 * e;
    assert g * (2 * (v + 2 * e)) == (2 * g) * (v + 2 * e);
  }

  /** Raising 1 + 2^j*u to the s-th power keeps the shape; the new cofactor has the parity of s. */
  lemma {:induction false} LiftPower(j: nat, u: int, s: nat) returns (w: int)
    requires j >= 1 && Odd(u)
    ensures Pow(1 + Pow(2, j) * u, s) == 1 + Pow(2, j) * w && (Odd(w) <==> Odd(s))
  {
    hide Odd;
    if s == 0 {
      w := 0;
      assert Pow(2, j) * 0 == 0;
      ParityStep(0, 0, 0, 0);
    } else {
      var v := LiftPower(j, u, s - 1);
      var e := Pow(2, j - 1) * (u * v);
      ProductShape(Pow(2, j), Pow(2, j - 1), u, v);
      ParityStep(u, v, e, s - 1);
      w := u + v + 2 * e;
    }
  }

  lemma ParityStep(u: int, v: int, e: int, s: int)
    ensures Odd(u) && (Odd(v) <==> Odd(s)) ==> (Odd(u + v + 2 * e) <==> Odd(s + 1))
    ensures !Odd(0)
  {
  }

  /** Every positive number is a power of two times an odd number. */
  lemma {:induction false} SplitTwos(t: nat) returns (k: nat, s: nat)
    requires t > 0
    ensures Odd(s) && t == Pow(2, k) * s
  {
    if Odd(t) {
      k, s := 0, t;
    } else {
      k, s := SplitTwos(t / 2);
      k := k + 1;
      assert Pow(2, k) * s == 2 * (Pow(2, k - 1) * s);
    }
  }

  /** 2^j times an odd number is a multiple of 2^m exactly when j >= m. */
  lemma PowerDivides(j: nat, w: int, m: nat, q: int)
    requires Odd(w)
    ensures Pow(2, j) * w == Pow(2, m) * q ==> j >= m
    ensures j >= m ==> Pow(2, j) * w == Pow(2, m) * (Pow(2, j - m) * w)
  {
    if j >= m {
      PowAdd(2, m, j - m);
    } else if Pow(2, j) * w == Pow(2, m) * q {
      var f := Pow(2, m - j - 1);
      PowAdd(2, j, m - j);
      assert Pow(2, m - j) == 2 * f;
      assert Pow(2, m) * q == Pow(2, j) * (2 * (f * q)) by {
        assert Pow(2, m) * q == (Pow(2, j) * (2 * f)) * q;
      }
      PowPositive(j);
      Cancel(Pow(2, j), w, 2 * (f * q));
    }
  }

  lemma {:induction false} PowPositive(j: nat)
    ensures Pow(2, j) > 0
  {
    if j > 0 {
      PowPositive(j - 1);
    }
  }

  lemma Cancel(h: int, w: int, v: int)
    requires h > 0 && h * w == h * v
    ensures w == v
  {
    assert h * (w - v) == 0;
  }

  lemma Powers()
    ensures Pow(2, 46) == T46 && Pow(2, 44) == 0x1000_0000_0000
  {
    PowAdd(2, 22, 22);
    PowAdd(2, 11, 11);
    PowAdd(2, 44, 2);
    assert Pow(2, 11) == 2048;
    assert Pow(2, 2) == 4;
  }

  /** How far t steps move an odd seed: by 2^(k+2) times an odd number, where 2^k is the largest
      power of two dividing t. */
  lemma Displacement(a: int, x: int, t: nat) returns (k: nat, s: nat, w: int)
    requires a % 8 == 5 && Odd(x) && t > 0
    ensures Odd(s) && t == Pow(2, k) * s
    ensures Odd(w) && Pow(a, t) * x == x + Pow(2, k + 2) * w
  {
    hide Pow, Odd;
    k, s := SplitTwos(t);
    var u := LiftSquare(a, k);
    var v := LiftPower(k + 2, u, s);
    PowMul(a, Pow(2, k), s);
    OddMul(v, x);
    w := v * x;
    MoveShape(Pow(a, t), Pow(2, k + 2), v, x);
  }

  lemma MoveShape(p: int, g: int, v: int, x: int)
    requires p == 1 + g * v
    ensures p * x == x + g * (v * x)
  {
    assert (1 + g * v) * x == x + g * (v * x);
  }

  lemma Divides46(j: nat, w: int)
    requires Odd(w)
    ensures (Pow(2, j) * w) % 0x4000_0000_0000 == 0 <==> j >= 46
  {
    hide Odd, Pow;
    Powers();
    var d := Pow(2, j) * w;
    PowerDivides(j, w, 46, d / 0x4000_0000_0000);
  }

  lemma Divides44(j: nat, w: int)
    requires Odd(w)
    ensures (Pow(2, j) * w) % 0x1000_0000_0000 == 0 <==> j >= 44
  {
    hide Odd, Pow;
    Powers();
    var d := Pow(2, j) * w;
    PowerDivides(j, w, 44, d / 0x1000_0000_0000);
  }

  lemma ReturnsIff(x: int, d: int)
    requires 0 <= x < T46
    ensures Mod46(x + d) == x <==> d % 0x4000_0000_0000 == 0
  {
  }

  /** The exact period: from an odd seed, with a multiplier that is 5 mod 8, the stream is back at
      the seed after t steps exactly when t is a multiple of 2^44. */
  lemma {:induction false} Period(a: int, x: int, t: nat)
    requires a % 8 == 5 && 0 <= x < T46 && Odd(x)
    ensures Iterate(a, x, t) == x <==> t % 0x1000_0000_0000 == 0
  {
    hide Odd, Pow, Mod46;
    if t > 0 {
      var k, s, w := Displacement(a, x, t);
      IteratePow(a, x, t);
      Divides46(k + 2, w);
      Divides44(k, s);
      ReturnsIff(x, Pow(2, k + 2) * w);
    }
  }

  lemma OddMod(p: int)
    requires Odd(p)
    ensures Odd(Mod46(p)) && 0 < Mod46(p)
  {
  }

  /** From an odd seed with an odd multiplier every state is odd, hence never 0. */
  lemma {:induction false} StatesOdd(a: int, x: int, k: nat)
    requires Odd(a) && 0 <= x < T46 && Odd(x)
    ensures Odd(Iterate(a, x, k)) && 0 < Iterate(a, x, k)
  {
    if k > 0 {
      StatesOdd(a, x, k - 1);
      OddMul(a, Iterate(a, x, k - 1));
      OddMod(a * Iterate(a, x, k - 1));
    }
  }
}
