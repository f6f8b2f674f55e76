/** makea, sprnvc and vecset in bomp/benchmark/cg.c: the matrix of the CG benchmark as a weighted sum of
    outer products of random sparse vectors plus a multiple of the identity.  The random numbers are a
    parameter: a stream of values in [0, 1), as randlc delivers them. */
module MakeA {
  import opened Arith
  import opened Sparse
  import Lcg

  ghost predicate UnitStream(rnd: nat -> real) {
    forall k {:trigger rnd(k)} :: 0.0 <= rnd(k) < 1.0
  }

  /** The sparse vector held in iv[1..nzv], v[1..nzv]. */
  ghost function Vector(iv: seq<int>, v: seq<real>, nzv: nat): (vec: seq<Entry>)
    requires nzv < |iv| && nzv < |v|
    ensures |vec| == nzv
  {
    Slice(iv, v, 1, nzv + 1)
  }

  /** Distinct indices in 1..n. */
  ghost predicate ProperVector(vec: seq<Entry>, n: nat) {
    && (forall p {:trigger vec[p]} :: 0 <= p < |vec| ==> 1 <= vec[p].col <= n)
    && (forall p, q {:trigger vec[p], vec[q]} :: 0 <= p < q < |vec| ==> vec[p].col != vec[q].col)
  }

  ghost predicate HasCol(vec: seq<Entry>, c: int) {
    exists p :: 0 <= p < |vec| && vec[p].col == c
  }

  lemma HasColAppend(vec: seq<Entry>, e: Entry, c: int)
    ensures HasCol(vec + [e], c) <==> HasCol(vec, c) || c == e.col
  {
    if HasCol(vec, c) {
      var p :| 0 <= p < |vec| && vec[p].col == c;
      assert (vec + [e])[p].col == c;
    }
    assert (vec + [e])[|vec|] == e;
  }

  lemma ProperBound(vec: seq<Entry>, n: nat)
    requires ProperVector(vec, n)
    ensures |vec| <= n
  {
    var cols := seq(|vec|, p requires 0 <= p < |vec| => vec[p].col);
    DistinctBound(cols, n);
  }

  // ---------- sprnvc ----------

  /** The marks are clear: mark is work[n+1..2n]. */
  ghost predicate Unmarked(work: seq<int>, n: nat) {
    |work| > 2 * n && forall k {:trigger work[k]} :: n < k <= 2 * n ==> work[k] == 0
  }

  /** During the rejection loop: the vector so far is proper, nzloc repeats its indices, and exactly those
      are marked. */
  ghost predicate Drawing(work: seq<int>, n: nat, vec: seq<Entry>) {
    && |work| > 2 * n && ProperVector(vec, n) && |vec| <= n
    && (forall p {:trigger vec[p]} :: 0 <= p < |vec| ==> work[p + 1] == vec[p].col)
    && (forall k {:trigger work[k]} :: n < k <= 2 * n ==> (work[k] != 0 <==> HasCol(vec, k - n)))
  }

  lemma DrawStep(work: seq<int>, n: nat, vec: seq<Entry>, e: Entry)
    requires Drawing(work, n, vec) && 1 <= e.col <= n && work[n + e.col] == 0
    ensures |vec| < n && Drawing(work[n + e.col := 1][|vec| + 1 := e.col], n, vec + [e])
  {
    var vec', work' := vec + [e], work[n + e.col := 1][|vec| + 1 := e.col];
    assert !HasCol(vec, e.col);
    ProperBound(vec', n);
    forall k {:trigger work'[k]} | n < k <= 2 * n
      ensures work'[k] != 0 <==> HasCol(vec', k - n)
    {
      HasColAppend(vec, e, k - n);
      assert k != n + e.col ==> work'[k] == work[k];
    }
  }

  /** The first of p, 2*p, 4*p, ... that is not below n. */
  function Doubled(n: nat, p: nat): nat
    requires p > 0
    decreases n - p
  {
    if p >= n then p else Doubled(n, 2 * p)
  }

  /** The smallest power of two, at least 2, that is not below n. */
  method PowerAbove(n: nat) returns (nn1: nat)
    ensures nn1 == Doubled(n, 2) && nn1 >= n && nn1 >= 2 && (nn1 == 2 || nn1 / 2 < n)
  {
    nn1 := 2;
    while nn1 < n
      invariant nn1 >= 2 && nn1 % 2 == 0 && (nn1 == 2 || nn1 / 2 < n) && Doubled(n, nn1) == Doubled(n, 2)
    {
      nn1 := 2 * nn1;
    }
  }

  /** icnvrt: scales a number in [0, 1) and chops it. */
  function Icnvrt(x: real, ipwr2: nat): int { (ipwr2 as real * x).Floor }

  lemma IcnvrtBelow(x: real, ipwr2: nat)
    requires 0.0 <= x < 1.0
    ensures 0 <= Icnvrt(x, ipwr2)
  {
    assert ipwr2 as real * x >= 0.0;
  }

  /** The index that a random number y stands for. */
  function Index(n: nat, y: real): int { Icnvrt(y, Doubled(n, 2)) + 1 }

  /** One draw: the value x at the index that y stands for is accepted unless the index is too large or there. */
  ghost function Accept(vec: seq<Entry>, n: nat, x: real, y: real): seq<Entry> {
    if Index(n, y) <= n && !HasCol(vec, Index(n, y)) then vec + [Entry(Index(n, y), x)] else vec
  }

  /** What k draws from position pos of the stream accept. */
  ghost function Drawn(rnd: nat -> real, n: nat, pos: nat, k: nat): seq<Entry> {
    if k == 0 then [] else Accept(Drawn(rnd, n, pos, k - 1), n, rnd(pos + 2 * (k - 1)), rnd(pos + 2 * (k - 1) + 1))
  }

  /** The k draws from pos on accept nz entries, and no fewer draws do. */
  ghost predicate JustFills(rnd: nat -> real, n: nat, nz: nat, pos: nat, k: nat) {
    |Drawn(rnd, n, pos, k)| == nz && (k > 0 ==> |Drawn(rnd, n, pos, k - 1)| < nz)
  }

  // ---------- What the draws are ----------

  /** q is the least power of two that is at least 2 and not below n. */
  ghost predicate LeastPower(n: nat, q: nat) {
    exists e: nat :: e >= 1 && q == Lcg.Pow(2, e) && q >= n && (e > 1 ==> Lcg.Pow(2, e - 1) < n)
  }

  lemma {:induction false} DoubledIsPower(n: nat, p: nat, e: nat)
    requires e >= 1 && p == Lcg.Pow(2, e) && (e > 1 ==> Lcg.Pow(2, e - 1) < n)
    ensures p > 0 && LeastPower(n, Doubled(n, p))
    decreases n - p
  {
    Lcg.PowPositive(e);
    if p < n {
      assert Lcg.Pow(2, e + 1) == 2 * p && Lcg.Pow(2, e + 1 - 1) == p;
      DoubledIsPower(n, 2 * p, e + 1);
    }
  }

  /** The number y in [0, 1) stands for index i: y scaled by that power lies in [i - 1, i). */
  ghost predicate IsIndex(n: nat, y: real, i: int) {
    exists q: nat :: LeastPower(n, q) && (i - 1) as real <= q as real * y < i as real
  }

  lemma IndexIs(n: nat, y: real)
    requires 0.0 <= y < 1.0
    ensures IsIndex(n, y, Index(n, y)) && Index(n, y) >= 1
  {
    assert Lcg.Pow(2, 1) == 2 * Lcg.Pow(2, 0);
    DoubledIsPower(n, 2, 1);
    IcnvrtBelow(y, Doubled(n, 2));
    hide LeastPower, Doubled;
    var q := Doubled(n, 2);
    assert LeastPower(n, q) && (Index(n, y) - 1) as real <= q as real * y < Index(n, y) as real;
  }

  /** The index that y stands for is too large, or that of an entry drawn before draw t. */
  ghost predicate Refused(n: nat, y: real, vec: seq<Entry>, at: seq<nat>, t: nat)
    requires |at| == |vec|
  {
    exists i :: IsIndex(n, y, i) && (i > n || exists p :: 0 <= p < |at| && at[p] < t && vec[p].col == i)
  }

  /** Draw t is not taken. */
  ghost predicate Rejected(rnd: nat -> real, n: nat, pos: nat, vec: seq<Entry>, at: seq<nat>, t: nat)
    requires |at| == |vec|
  {
    Refused(n, rnd(pos + 2 * t + 1), vec, at, t)
  }

  /** Entry p of the vector is draw at[p]: the first number is its value, the second one stands for its index. */
  ghost predicate Taken(rnd: nat -> real, n: nat, pos: nat, e: Entry, t: nat) {
    e.val == rnd(pos + 2 * t) && 1 <= e.col <= n && IsIndex(n, rnd(pos + 2 * t + 1), e.col)
  }

  /** The vector is what the first k draws from pos on yield: the draws at[..] in order, all others being rejected. */
  ghost predicate Accepted(rnd: nat -> real, n: nat, pos: nat, k: nat, vec: seq<Entry>, at: seq<nat>) {
    && |at| == |vec|
    && (forall p {:trigger at[p]} {:trigger vec[p]} :: 0 <= p < |at| ==> at[p] < k && Taken(rnd, n, pos, vec[p], at[p]))
    && (forall p, q {:trigger at[p], at[q]} :: 0 <= p < q < |at| ==> at[p] < at[q] && vec[p].col != vec[q].col)
    && (forall t: nat {:trigger Rejected(rnd, n, pos, vec, at, t)} :: t < k && t !in at ==>
          Rejected(rnd, n, pos, vec, at, t))
  }

  ghost predicate FromDraws(rnd: nat -> real, n: nat, pos: nat, k: nat, vec: seq<Entry>) {
    exists at :: Accepted(rnd, n, pos, k, vec, at)
  }

  lemma RejectedLater(rnd: nat -> real, n: nat, pos: nat, vec: seq<Entry>, at: seq<nat>, t: nat, e: Entry, u: nat)
    requires |at| == |vec| && Rejected(rnd, n, pos, vec, at, t)
    ensures Rejected(rnd, n, pos, vec + [e], at + [u], t)
  {
    hide IsIndex;
    var y := rnd(pos + 2 * t + 1);
    var i :| IsIndex(n, y, i) && (i > n || exists p :: 0 <= p < |at| && at[p] < t && vec[p].col == i);
    if i <= n {
      var p :| 0 <= p < |at| && at[p] < t && vec[p].col == i;
      assert (at + [u])[p] == at[p] && (vec + [e])[p] == vec[p];
    }
  }

  lemma OneMoreAccepted(rnd: nat -> real, n: nat, pos: nat, k: nat, vec: seq<Entry>, at: seq<nat>)
    requires UnitStream(rnd) && Accepted(rnd, n, pos, k, vec, at)
    ensures FromDraws(rnd, n, pos, k + 1, Accept(vec, n, rnd(pos + 2 * k), rnd(pos + 2 * k + 1)))
  {
    var x, y := rnd(pos + 2 * k), rnd(pos + 2 * k + 1);
    var i := Index(n, y);
    IndexIs(n, y);
    hide IsIndex, Index;
    if i <= n && !HasCol(vec, i) {
      var vec', at' := vec + [Entry(i, x)], at + [k];
      forall t: nat {:trigger Rejected(rnd, n, pos, vec', at', t)} | t < k + 1 && t !in at'
        ensures Rejected(rnd, n, pos, vec', at', t)
      {
        assert at'[|at|] == k;
        assert t !in at;
        assert Rejected(rnd, n, pos, vec, at, t);
        RejectedLater(rnd, n, pos, vec, at, t, Entry(i, x), k);
      }
      hide Taken, Rejected;
      assert Taken(rnd, n, pos, Entry(i, x), k) by { assert IsIndex(n, y, i); }
      assert Accepted(rnd, n, pos, k + 1, vec', at');
    } else {
      assert Rejected(rnd, n, pos, vec, at, k);
      assert Accepted(rnd, n, pos, k + 1, vec, at);
    }
  }

  /** What the draws accept is what they yield. */
  lemma {:induction false} DrawnAccepted(rnd: nat -> real, n: nat, pos: nat, k: nat)
    requires UnitStream(rnd)
    ensures FromDraws(rnd, n, pos, k, Drawn(rnd, n, pos, k))
  {
    if k == 0 {
      assert Accepted(rnd, n, pos, 0, [], []);
    } else {
      DrawnAccepted(rnd, n, pos, k - 1);
      hide UnitStream, Accepted, Accept;
      var at :| Accepted(rnd, n, pos, k - 1, Drawn(rnd, n, pos, k - 1), at);
      OneMoreAccepted(rnd, n, pos, k - 1, Drawn(rnd, n, pos, k - 1), at);
    }
  }

  /** sprnvc: the first nz entries that the stream from pos on yields; the indices are distinct and in 1..n, and the
      marks are clear again. The loop is cut off after `fuel` draws, which the result false reports. */
  method Sprnvc(n: nat, nz: nat, v: array<real>, iv: array<int>, work: array<int>, rnd: nat -> real, pos: nat,
                fuel: nat)
    returns (ok: bool, next: nat, ghost draws: nat)
    requires UnitStream(rnd) && n >= 1 && v.Length > n && iv.Length > n && iv != work
    requires Unmarked(work[..], n)
    modifies v, iv, work
    ensures next == pos + 2 * draws && draws <= fuel
    ensures ok ==> nz <= n && Unmarked(work[..], n) && ProperVector(Vector(iv[..], v[..], nz), n)
    ensures ok ==> JustFills(rnd, n, nz, pos, draws) && Vector(iv[..], v[..], nz) == Drawn(rnd, n, pos, draws)
    ensures ok ==> FromDraws(rnd, n, pos, draws, Vector(iv[..], v[..], nz))
    ensures !ok ==> draws == fuel && |Drawn(rnd, n, pos, fuel)| < nz
  {
    NothingDrawn(work[..], iv[..], v[..], n, rnd, pos);
    hide Slice, Doubled, Vector, Drawing, Drawn, HasCol, ProperVector, FromDraws;
    var nzv := 0;
    var nn1 := PowerAbove(n);
    next, draws := pos, 0;
    var left := fuel;
    while nzv < nz && left > 0
      invariant nzv == |Drawn(rnd, n, pos, draws)| <= n && nzv <= nz && next == pos + 2 * draws && draws + left == fuel
      invariant Drawing(work[..], n, Drawn(rnd, n, pos, draws))
      invariant Vector(iv[..], v[..], nzv) == Drawn(rnd, n, pos, draws)
      invariant draws > 0 ==> |Drawn(rnd, n, pos, draws - 1)| < nz
      decreases left
    {
      left := left - 1;
      nzv := DrawNumber(n, nn1, nzv, v, iv, work, rnd, pos, next, draws);
      next, draws := next + 2, draws + 1;
    }
    ok := nzv >= nz;
    if ok {
      DrawingProper(work[..], n, Drawn(rnd, n, pos, draws));
      DrawnAccepted(rnd, n, pos, draws);
      Unmark(n, nzv, work, Drawn(rnd, n, pos, draws));
    }
  }

  /** The body of the rejection loop: one more draw. */
  method DrawNumber(n: nat, nn1: nat, nzv: nat, v: array<real>, iv: array<int>, work: array<int>, rnd: nat -> real,
                    ghost pos: nat, next: nat, ghost k: nat)
    returns (count: nat)
    requires UnitStream(rnd) && v.Length > n && iv.Length > n && iv != work && nn1 == Doubled(n, 2)
    requires next == pos + 2 * k
    requires nzv == |Drawn(rnd, n, pos, k)| <= n && Vector(iv[..], v[..], nzv) == Drawn(rnd, n, pos, k)
    requires Drawing(work[..], n, Drawn(rnd, n, pos, k))
    modifies v, iv, work
    ensures nzv <= count <= nzv + 1 && count == |Drawn(rnd, n, pos, k + 1)| <= n
    ensures Vector(iv[..], v[..], count) == Drawn(rnd, n, pos, k + 1) && Drawing(work[..], n, Drawn(rnd, n, pos, k + 1))
  {
    hide Icnvrt, Slice, Doubled, Vector, Drawing, Drawn, HasCol, ProperVector;
    ghost var vec := Drawn(rnd, n, pos, k);
    var vecelt, vecloc := rnd(next), rnd(next + 1);
    var i := Icnvrt(vecloc, nn1) + 1;
    IcnvrtBelow(vecloc, nn1);
    DrawnNext(rnd, n, pos, k + 1);
    count := nzv;
    if i <= n {
      MarkedIs(work[..], n, vec, i);
      if work[n + i] == 0 {
        ghost var more := DrawOne(n, nzv, i, vecelt, v, iv, work, vec);
        count := count + 1;
      }
    }
  }

  lemma NothingDrawn(work: seq<int>, iv: seq<int>, v: seq<real>, n: nat, rnd: nat -> real, pos: nat)
    requires Unmarked(work, n) && |iv| > 0 && |v| > 0
    ensures Drawing(work, n, []) && Vector(iv, v, 0) == [] == Drawn(rnd, n, pos, 0)
  {
    SliceNothing(iv, v);
  }

  lemma DrawnNext(rnd: nat -> real, n: nat, pos: nat, k: nat)
    requires k > 0
    ensures var vec, i := Drawn(rnd, n, pos, k - 1), Index(n, rnd(pos + 2 * (k - 1) + 1));
            Drawn(rnd, n, pos, k) == if i <= n && !HasCol(vec, i) then vec + [Entry(i, rnd(pos + 2 * (k - 1)))] else vec
  {
  }

  lemma DrawingProper(work: seq<int>, n: nat, vec: seq<Entry>)
    requires Drawing(work, n, vec)
    ensures ProperVector(vec, n)
  {
  }

  lemma MarkedIs(work: seq<int>, n: nat, vec: seq<Entry>, i: int)
    requires Drawing(work, n, vec) && 1 <= i <= n
    ensures |work| > 2 * n && (work[n + i] == 0 <==> !HasCol(vec, i))
  {
    assert HasCol(vec, (n + i) - n) <==> HasCol(vec, i);
  }

  /** A drawn index that is not marked yet: marked, and noted with its value. */
  method DrawOne(n: nat, nzv: nat, i: int, vecelt: real, v: array<real>, iv: array<int>, work: array<int>,
                 ghost vec: seq<Entry>)
    returns (ghost vec': seq<Entry>)
    requires v.Length > n && iv.Length > n && iv != work && nzv == |vec| && 1 <= i <= n
    requires Drawing(work[..], n, vec) && Vector(iv[..], v[..], nzv) == vec && work[n + i] == 0
    modifies v, iv, work
    ensures vec' == vec + [Entry(i, vecelt)] && |vec'| == nzv + 1 <= n
    ensures Drawing(work[..], n, vec') && Vector(iv[..], v[..], nzv + 1) == vec'
  {
    DrawStep(work[..], n, vec, Entry(i, vecelt));
    ghost var w, c, x := work[..], iv[..], v[..];
    vec' := vec + [Entry(i, vecelt)];
    SliceAppend(c, x, 1, nzv + 1, i, vecelt);
    hide Drawing, Slice;
    work[n + i] := 1;
    work[nzv + 1] := i;
    v[nzv + 1] := vecelt;
    iv[nzv + 1] := i;
    assert work[..] == w[n + i := 1][nzv + 1 := i];
    assert iv[..] == c[nzv + 1 := i] && v[..] == x[nzv + 1 := vecelt];
  }

  lemma SliceNothing(c: seq<int>, x: seq<real>)
    requires |c| >= 1 && |x| >= 1
    ensures Slice(c, x, 1, 1) == []
  {
  }

  /** The closing loop of sprnvc. */
  method Unmark(n: nat, nzrow: nat, work: array<int>, ghost vec: seq<Entry>)
    requires |vec| == nzrow && Drawing(work[..], n, vec)
    modifies work
    ensures Unmarked(work[..], n)
  {
    ghost var w := work[..];
    assert vec[0..] == vec;
    for ii := 1 to nzrow + 1
      invariant work.Length == |w| && forall k {:trigger work[k]} :: 0 <= k <= n ==> work[k] == w[k]
      invariant forall k {:trigger work[k]} :: n < k <= 2 * n && work[k] != 0 ==> HasCol(vec[ii - 1..], k - n)
    {
      var i := work[ii];
      assert i == vec[ii - 1].col && vec[ii - 1..] == [vec[ii - 1]] + vec[ii..];
      work[n + i] := 0;
    }
  }

  // ---------- vecset ----------

  /** The vector with the value at index i set, by overwriting or by one new entry. */
  ghost function SetEntry(vec: seq<Entry>, i: int, val: real): seq<Entry> {
    if HasCol(vec, i) then seq(|vec|, p requires 0 <= p < |vec| => if vec[p].col == i then Entry(i, val) else vec[p])
    else vec + [Entry(i, val)]
  }

  /** vecset: the vector gets value val at index i, by overwriting or by one new entry. */
  method Vecset(n: nat, v: array<real>, iv: array<int>, nzv: nat, i: int, val: real, ghost vec: seq<Entry>)
    returns (count: nat)
    requires 1 <= i <= n && nzv + 1 < v.Length && nzv + 1 < iv.Length && nzv == |vec|
    requires Vector(iv[..], v[..], nzv) == vec && ProperVector(vec, n)
    modifies v, iv
    ensures nzv <= count <= nzv + 1 && Vector(iv[..], v[..], count) == SetEntry(vec, i, val)
    ensures ProperVector(Vector(iv[..], v[..], count), n)
    ensures forall c {:trigger ColSum(Vector(iv[..], v[..], count), c)} ::
              ColSum(Vector(iv[..], v[..], count), c) == if c == i then val else ColSum(vec, c)
  {
    hide Slice, SetEntry, HasCol, ColSum, ProperVector;
    var found := false;
    ghost var at := 0;
    for k := 1 to nzv + 1
      invariant found ==> 1 <= at < k && vec[at - 1].col == i
      invariant !found ==> forall p {:trigger vec[p]} :: 0 <= p < k - 1 ==> vec[p].col != i
      invariant iv[..] == old(iv[..]) && v[..] == if found then old(v[..])[at := val] else old(v[..])
    {
      SliceAt(old(iv[..]), old(v[..]), 1, nzv + 1, k);
      OneEntryEach(vec, n);
      if iv[k] == i {
        v[k] := val;
        found, at := true, k;
      }
    }
    count := nzv;
    if !found {
      count := count + 1;
      v[count] := val;
      iv[count] := i;
      SliceAppend(old(iv[..]), old(v[..]), 1, count, i, val);
      assert iv[..] == old(iv[..])[count := i] && v[..] == old(v[..])[count := val];
      SetByAppending(vec, Entry(i, val), n);
    } else {
      VectorUpdate(iv[..], old(v[..]), nzv, at, val);
      SetInPlace(vec, at - 1, Entry(i, val), n);
    }
  }

  lemma OneEntryEach(vec: seq<Entry>, n: nat)
    requires ProperVector(vec, n)
    ensures forall p, q {:trigger vec[p], vec[q]} :: 0 <= p < q < |vec| ==> vec[p].col != vec[q].col
  {
  }

  lemma VectorUpdate(iv: seq<int>, v: seq<real>, nzv: nat, k: nat, val: real)
    requires nzv < |iv| && nzv < |v| && 1 <= k <= nzv
    ensures Vector(iv, v[k := val], nzv) == Vector(iv, v, nzv)[k - 1 := Entry(Vector(iv, v, nzv)[k - 1].col, val)]
  {
  }

  lemma SetByAppending(vec: seq<Entry>, e: Entry, n: nat)
    requires ProperVector(vec, n) && 1 <= e.col <= n
    requires forall p {:trigger vec[p]} :: 0 <= p < |vec| ==> vec[p].col != e.col
    ensures ProperVector(vec + [e], n) && SetEntry(vec, e.col, e.val) == vec + [e]
    ensures forall c {:trigger ColSum(vec + [e], c)} ::
              ColSum(vec + [e], c) == if c == e.col then e.val else ColSum(vec, c)
  {
    forall c {:trigger ColSum(vec + [e], c)}
      ensures ColSum(vec + [e], c) == if c == e.col then e.val else ColSum(vec, c)
    {
      ColSumAppend(vec, e, c);
      if c == e.col {
        OtherColumn(vec, c);
      }
    }
  }

  lemma SetInPlace(vec: seq<Entry>, at: nat, e: Entry, n: nat)
    requires ProperVector(vec, n) && at < |vec| && vec[at].col == e.col
    ensures ProperVector(vec[at := e], n) && SetEntry(vec, e.col, e.val) == vec[at := e]
    ensures forall c {:trigger ColSum(vec[at := e], c)} ::
              ColSum(vec[at := e], c) == if c == e.col then e.val else ColSum(vec, c)
  {
    var w := vec[at := e];
    assert forall p {:trigger w[p]} :: 0 <= p < |w| ==> w[p].col == vec[p].col;
    forall c {:trigger ColSum(w, c)}
      ensures ColSum(w, c) == if c == e.col then e.val else ColSum(vec, c)
    {
      SumOfDistinct(w, c);
      SumOfDistinct(vec, c);
      if c == e.col {
        assert w[at].col == c;
      } else if exists p :: 0 <= p < |vec| && vec[p].col == c {
        var p :| 0 <= p < |vec| && vec[p].col == c;
        assert w[p] == vec[p];
      }
    }
  }

  // ---------- The matrix ----------

  /** Row and column windows of the part that is built. */
  datatype Window = Window(firstrow: int, lastrow: int, firstcol: int, lastcol: int)
  {
    predicate HasRow(r: int) { firstrow <= r <= lastrow }
    predicate HasColumn(c: int) { firstcol <= c <= lastcol }
  }

  lemma {:induction false} TripleSumAppend(a: seq<Triple>, b: seq<Triple>, r: int, c: int)
    ensures TripleSum(a + b, r, c) == TripleSum(a, r, c) + TripleSum(b, r, c)
  {
    if b == [] {
      assert a + b == a;
    } else {
      var b0 := b[..|b| - 1];
      assert (a + b)[..|a + b| - 1] == a + b0;
      TripleSumAppend(a, b0, r, c);
    }
  }

  function Times(x: real, y: real): real { x * y }

  /** The triples one column entry contributes with the first p entries as rows. */
  ghost function ColumnTriples(vec: seq<Entry>, p: nat, col: int, scale: real, win: Window): seq<Triple>
    requires p <= |vec|
  {
    if p == 0 then [] else
      var e, pre := vec[p - 1], ColumnTriples(vec, p - 1, col, scale, win);
      if win.HasRow(e.col) then pre + [Triple(e.col, col, Times(e.val, scale))] else pre
  }

  lemma EmptySums(vec: seq<Entry>, r: int, c: int)
    ensures TripleSum([], r, c) == 0.0 && ColSum(vec[..0], c) == 0.0
  {
  }

  lemma {:induction false} ColumnTriplesSum(vec: seq<Entry>, p: nat, col: int, scale: real, win: Window, r: int, c: int)
    requires p <= |vec| && win.HasRow(r)
    ensures TripleSum(ColumnTriples(vec, p, col, scale, win), r, c) ==
              if c == col then ColSum(vec[..p], r) * scale else 0.0
  {
    hide TripleSum, ColSum;
    if p == 0 {
      EmptySums(vec, r, c);
      EmptySums(vec, r, r);
      assert 0.0 * scale == 0.0;
    } else {
      ColumnTriplesSum(vec, p - 1, col, scale, win, r, c);
      var e, pre := vec[p - 1], ColumnTriples(vec, p - 1, col, scale, win);
      assert vec[..p] == vec[..p - 1] + [e];
      ColSumAppend(vec[..p - 1], e, r);
      TripleSumOne(pre, Triple(e.col, col, Times(e.val, scale)), r, c);
      ScaleStep(ColSum(vec[..p - 1], r), if e.col == r then e.val else 0.0, ColSum(vec[..p], r), scale);
    }
  }

  lemma TripleSumOne(ts: seq<Triple>, t: Triple, r: int, c: int)
    ensures TripleSum(ts + [t], r, c) == TripleSum(ts, r, c) + if t.row == r && t.col == c then t.val else 0.0
  {
    assert (ts + [t])[..|ts|] == ts;
  }

  /** The triples of one vector: one column entry after the other, for the columns in the window. */
  ghost function VectorTriples(vec: seq<Entry>, q: nat, size: real, win: Window): seq<Triple>
    requires q <= |vec|
  {
    if q == 0 then [] else
      var e, pre := vec[q - 1], VectorTriples(vec, q - 1, size, win);
      if win.HasColumn(e.col) then pre + ColumnTriples(vec, |vec|, e.col, Times(size, e.val), win) else pre
  }

  /** They sum to the outer product of the vector with itself. */
  lemma {:induction false} VectorTriplesSum(vec: seq<Entry>, q: nat, size: real, win: Window, r: int, c: int)
    requires q <= |vec| && win.HasRow(r) && win.HasColumn(c)
    ensures TripleSum(VectorTriples(vec, q, size, win), r, c) == size * (ColSum(vec, r) * ColSum(vec[..q], c))
  {
    hide TripleSum, ColSum, ColumnTriples;
    var x := ColSum(vec, r);
    if q == 0 {
      EmptySums(vec, r, c);
      assert size * (x * 0.0) == 0.0;
    } else {
      VectorTriplesSum(vec, q - 1, size, win, r, c);
      var e, pre := vec[q - 1], VectorTriples(vec, q - 1, size, win);
      var more := ColumnTriples(vec, |vec|, e.col, Times(size, e.val), win);
      assert vec[..q] == vec[..q - 1] + [e] && vec[..|vec|] == vec;
      ColSumAppend(vec[..q - 1], e, c);
      ColumnTriplesSum(vec, |vec|, e.col, Times(size, e.val), win, r, c);
      TripleSumAppend(pre, more, r, c);
      OuterStep(size, x, ColSum(vec[..q - 1], c), if e.col == c then e.val else 0.0, ColSum(vec[..q], c));
    }
  }

  lemma OuterStep(size: real, x: real, y: real, e: real, y': real)
    requires y' == y + e
    ensures size * (x * y') == size * (x * y) + x * (size * e) && x * (size * 0.0) == 0.0
  {
    assert x * y' == x * y + x * e;
    assert size * (x * y + x * e) == size * (x * y) + size * (x * e);
    assert size * (x * e) == x * (size * e);
  }

  /** The weighted sum of outer products: the weight of vector t is ratio^t. */
  ghost function OuterSum(vecs: seq<seq<Entry>>, ratio: real, r: int, c: int): real {
    if vecs == [] then 0.0 else
      var t := |vecs| - 1;
      OuterSum(vecs[..t], ratio, r, c) + RealPower(ratio, t) * (ColSum(vecs[t], r) * ColSum(vecs[t], c))
  }

  ghost function RealPower(x: real, k: nat): real {
    if k == 0 then 1.0 else RealPower(x, k - 1) * x
  }

  /** The weights are the powers of the ratio. */
  lemma {:induction false} WeightLaws(x: real, m: nat, n: nat)
    ensures RealPower(x, 0) == 1.0 && RealPower(x, 1) == x && RealPower(x, m + n) == RealPower(x, m) * RealPower(x, n)
  {
    assert RealPower(x, 1) == RealPower(x, 0) * x;
    if n > 0 {
      WeightLaws(x, m, n - 1);
      WeightStep(RealPower(x, m), RealPower(x, n - 1), x);
    }
  }

  /** A vector put in front of the others: its own weight is 1, and all others are taken times the ratio. */
  lemma {:induction false} OuterHorner(v: seq<Entry>, vecs: seq<seq<Entry>>, ratio: real, r: int, c: int)
    ensures OuterSum([v] + vecs, ratio, r, c) == ColSum(v, r) * ColSum(v, c) + ratio * OuterSum(vecs, ratio, r, c)
  {
    hide ColSum;
    if vecs == [] {
      assert ([v] + vecs)[..0] == [] && ([v] + vecs)[0] == v;
      assert OuterSum([], ratio, r, c) == 0.0 && ratio * 0.0 == 0.0;
      FirstWeight(v, ratio, r, c);
      assert [v] + vecs == [v];
    } else {
      var t := |vecs| - 1;
      var all := [v] + vecs;
      assert all[..t + 1] == [v] + vecs[..t] && all[t + 1] == vecs[t];
      OuterHorner(v, vecs[..t], ratio, r, c);
      HornerStep(ratio, OuterSum(vecs[..t], ratio, r, c), RealPower(ratio, t), ColSum(vecs[t], r) * ColSum(vecs[t], c));
    }
  }

  lemma FirstWeight(v: seq<Entry>, ratio: real, r: int, c: int)
    ensures OuterSum([v], ratio, r, c) == ColSum(v, r) * ColSum(v, c)
  {
    hide ColSum;
    assert [v][..0] == [];
    var p := ColSum(v, r) * ColSum(v, c);
    assert 1.0 * p == p;
  }

  lemma HornerStep(x: real, s: real, w: real, p: real)
    ensures x * s + (w * x) * p == x * (s + w * p)
  {
    assert (w * x) * p == x * (w * p);
  }

  lemma WeightStep(a: real, b: real, x: real)
    ensures (a * b) * x == a * (b * x)
  {
  }

  /** The matrix entry makea promises at (r, c). */
  ghost function MatrixEntry(vecs: seq<seq<Entry>>, ratio: real, diagonal: real, r: int, c: int): real {
    OuterSum(vecs, ratio, r, c) + if r == c then diagonal else 0.0
  }

  /** The matrix is symmetric. */
  lemma {:induction false} MatrixSymmetric(vecs: seq<seq<Entry>>, ratio: real, diagonal: real, r: int, c: int)
    ensures MatrixEntry(vecs, ratio, diagonal, r, c) == MatrixEntry(vecs, ratio, diagonal, c, r)
  {
    if vecs != [] {
      var v := vecs[|vecs| - 1];
      MatrixSymmetric(vecs[..|vecs| - 1], ratio, diagonal, r, c);
      assert ColSum(v, r) * ColSum(v, c) == ColSum(v, c) * ColSum(v, r);
    }
  }

  /** Every triple so far is within the windows, the list sums to the matrix built from vecs, and it is no
      longer than the bound on which the size of the arrays rests. */
  ghost predicate Built(ts: seq<Triple>, vecs: seq<seq<Entry>>, ratio: real, win: Window, n: nat, nonzer: nat) {
    && (forall k {:trigger ts[k]} :: 0 <= k < |ts| ==>
         win.HasRow(ts[k].row) && win.HasColumn(ts[k].col) && 1 <= ts[k].col <= n)
    && (forall r, c {:trigger TripleSum(ts, r, c)} :: win.HasRow(r) && win.HasColumn(c) ==>
         TripleSum(ts, r, c) == OuterSum(vecs, ratio, r, c))
    && |ts| <= |vecs| * ((nonzer + 1) * (nonzer + 1))
  }

  lemma {:induction false} ColumnTriplesRange(vec: seq<Entry>, p: nat, col: int, scale: real, win: Window)
    requires p <= |vec|
    ensures |ColumnTriples(vec, p, col, scale, win)| <= p
    ensures forall k {:trigger ColumnTriples(vec, p, col, scale, win)[k]} ::
              0 <= k < |ColumnTriples(vec, p, col, scale, win)| ==>
              win.HasRow(ColumnTriples(vec, p, col, scale, win)[k].row)
                  && ColumnTriples(vec, p, col, scale, win)[k].col == col
  {
    if p > 0 {
      ColumnTriplesRange(vec, p - 1, col, scale, win);
    }
  }

  lemma {:induction false} VectorTriplesRange(vec: seq<Entry>, q: nat, size: real, win: Window, n: nat)
    requires q <= |vec| && ProperVector(vec, n)
    ensures 0 <= q * |vec| && |VectorTriples(vec, q, size, win)| <= q * |vec|
    ensures forall k {:trigger VectorTriples(vec, q, size, win)[k]} :: 0 <= k < |VectorTriples(vec, q, size, win)| ==>
              var t := VectorTriples(vec, q, size, win)[k]; win.HasRow(t.row) && win.HasColumn(t.col) && 1 <= t.col <= n
  {
    if q > 0 {
      VectorTriplesRange(vec, q - 1, size, win, n);
      ColumnTriplesRange(vec, |vec|, vec[q - 1].col, Times(size, vec[q - 1].val), win);
      AddMul(q - 1, 1, |vec|);
    }
  }

  /** Adding the triples of one more vector. */
  lemma BuiltStep(ts: seq<Triple>, vecs: seq<seq<Entry>>, ratio: real, win: Window, n: nat, nonzer: nat,
                  vec: seq<Entry>)
    requires Built(ts, vecs, ratio, win, n, nonzer) && ProperVector(vec, n) && |vec| <= nonzer + 1
    ensures Built(ts + VectorTriples(vec, |vec|, RealPower(ratio, |vecs|), win), vecs + [vec], ratio, win, n, nonzer)
  {
    hide TripleSum, ColSum, VectorTriples;
    var size := RealPower(ratio, |vecs|);
    var more := VectorTriples(vec, |vec|, size, win);
    VectorTriplesRange(vec, |vec|, size, win, n);
    BuiltSum(ts, vecs, ratio, win, vec);
    SquareBound(|vec|, nonzer + 1);
    var sq := (nonzer + 1) * (nonzer + 1);
    AddMul(|vecs|, 1, sq);
  }

  lemma BuiltSum(ts: seq<Triple>, vecs: seq<seq<Entry>>, ratio: real, win: Window, vec: seq<Entry>)
    requires forall r, c {:trigger TripleSum(ts, r, c)} :: win.HasRow(r) && win.HasColumn(c) ==>
               TripleSum(ts, r, c) == OuterSum(vecs, ratio, r, c)
    ensures var ts' := ts + VectorTriples(vec, |vec|, RealPower(ratio, |vecs|), win);
            forall r, c {:trigger TripleSum(ts', r, c)} :: win.HasRow(r) && win.HasColumn(c) ==>
                 TripleSum(ts', r, c) == OuterSum(vecs + [vec], ratio, r, c)
  {
    hide TripleSum, ColSum, VectorTriples, RealPower;
    var size := RealPower(ratio, |vecs|);
    var more := VectorTriples(vec, |vec|, size, win);
    assert vec[..|vec|] == vec && (vecs + [vec])[..|vecs|] == vecs;
    forall r, c {:trigger TripleSum(ts + more, r, c)} | win.HasRow(r) && win.HasColumn(c)
      ensures TripleSum(ts + more, r, c) == OuterSum(vecs + [vec], ratio, r, c)
    {
      TripleSumAppend(ts, more, r, c);
      VectorTriplesSum(vec, |vec|, size, win, r, c);
    }
  }

  lemma SquareBound(a: nat, b: nat)
    requires a <= b
    ensures a * a <= b * b
  {
    ProductNonNegative(b - a, b + a);
    assert (b - a) * (b + a) == b * b - a * a;
  }

  // ---------- The arrays ----------

  /** arow, acol, aelt hold the list ts from position 1 on. */
  ghost predicate Listed(arow: array<int>, acol: array<int>, aelt: array<real>, ts: seq<Triple>)
    reads arow, acol, aelt
  {
    && |ts| < arow.Length && |ts| < acol.Length && |ts| < aelt.Length
    && forall k {:trigger ts[k]} :: 0 <= k < |ts| ==> ts[k] == Triple(arow[k + 1], acol[k + 1], aelt[k + 1])
  }

  ghost predicate Separate(arow: array<int>, acol: array<int>, aelt: array<real>, iv: array<int>, v: array<real>) {
    arow != acol && arow != iv && acol != iv && aelt != v
  }

  /** One triple more, or the exit for lack of space. */
  method Append(arow: array<int>, acol: array<int>, aelt: array<real>, nnza: nat, nz: nat, row: int, col: int,
                val: real, ghost ts: seq<Triple>)
    returns (count: nat, full: bool)
    requires Listed(arow, acol, aelt, ts) && |ts| == nnza <= nz < arow.Length && nz < acol.Length && nz < aelt.Length
    requires arow != acol
    modifies arow, acol, aelt
    ensures full <==> nnza + 1 > nz
    ensures !full ==> count == nnza + 1 && Listed(arow, acol, aelt, ts + [Triple(row, col, val)])
  {
    count := nnza + 1;
    full := count > nz;
    if !full {
      acol[count] := col;
      arow[count] := row;
      aelt[count] := val;
    }
  }

  /** The innermost loop of makea: one column entry against all rows in the window. */
  method AppendColumn(arow: array<int>, acol: array<int>, aelt: array<real>, nnza: nat, nz: nat, iv: array<int>,
                      v: array<real>, nzv: nat, jcol: int, scale: real, win: Window, ghost ts: seq<Triple>,
                      ghost vec: seq<Entry>)
    returns (count: nat, full: bool)
    requires Listed(arow, acol, aelt, ts) && |ts| == nnza <= nz < arow.Length && nz < acol.Length && nz < aelt.Length
    requires Separate(arow, acol, aelt, iv, v) && nzv < iv.Length && nzv < v.Length && Vector(iv[..], v[..], nzv) == vec
    modifies arow, acol, aelt
    ensures full ==> nnza + |ColumnTriples(vec, nzv, jcol, scale, win)| > nz
    ensures !full ==> Listed(arow, acol, aelt, ts + ColumnTriples(vec, nzv, jcol, scale, win))
    ensures !full ==> count == nnza + |ColumnTriples(vec, nzv, jcol, scale, win)| <= nz
  {
    hide Vector, Times;
    count, full := nnza, false;
    ghost var c, x := iv[..], v[..];
    assert ts + [] == ts;
    for ivelt1 := 1 to nzv + 1
      invariant Listed(arow, acol, aelt, ts + ColumnTriples(vec, ivelt1 - 1, jcol, scale, win))
      invariant count == nnza + |ColumnTriples(vec, ivelt1 - 1, jcol, scale, win)| <= nz
    {
      VectorAt(c, x, nzv, vec, ivelt1);
      ColumnTriplesGrow(vec, ivelt1, nzv, jcol, scale, win);
      var irow := iv[ivelt1];
      if win.HasRow(irow) {
        ghost var more := ColumnTriples(vec, ivelt1 - 1, jcol, scale, win);
        assert ts + (more + [Triple(irow, jcol, Times(v[ivelt1], scale))])
            == ts + more + [Triple(irow, jcol, Times(v[ivelt1], scale))];
        count, full := Append(arow, acol, aelt, count, nz, irow, jcol, Times(v[ivelt1], scale), ts + more);
        if full { return; }
      }
    }
  }

  lemma VectorAt(iv: seq<int>, v: seq<real>, nzv: nat, vec: seq<Entry>, k: nat)
    requires nzv < |iv| && nzv < |v| && Vector(iv, v, nzv) == vec && 1 <= k <= nzv
    ensures |vec| == nzv && vec[k - 1] == Entry(iv[k], v[k])
  {
    SliceAt(iv, v, 1, nzv + 1, k);
  }

  lemma {:induction false} ColumnTriplesGrow(vec: seq<Entry>, p: nat, q: nat, col: int, scale: real, win: Window)
    requires p <= q <= |vec|
    ensures |ColumnTriples(vec, p, col, scale, win)| <= |ColumnTriples(vec, q, col, scale, win)|
  {
    if p < q {
      ColumnTriplesGrow(vec, p, q - 1, col, scale, win);
    }
  }

  lemma {:induction false} VectorTriplesGrow(vec: seq<Entry>, p: nat, q: nat, size: real, win: Window)
    requires p <= q <= |vec|
    ensures |VectorTriples(vec, p, size, win)| <= |VectorTriples(vec, q, size, win)|
  {
    if p < q {
      VectorTriplesGrow(vec, p, q - 1, size, win);
    }
  }

  /** The two loops over one vector. */
  method AppendVector(arow: array<int>, acol: array<int>, aelt: array<real>, nnza: nat, nz: nat, iv: array<int>,
                      v: array<real>, nzv: nat, size: real, win: Window, ghost ts: seq<Triple>, ghost vec: seq<Entry>)
    returns (count: nat, full: bool)
    requires Listed(arow, acol, aelt, ts) && |ts| == nnza <= nz < arow.Length && nz < acol.Length && nz < aelt.Length
    requires Separate(arow, acol, aelt, iv, v) && nzv < iv.Length && nzv < v.Length && Vector(iv[..], v[..], nzv) == vec
    modifies arow, acol, aelt
    ensures full ==> nnza + |VectorTriples(vec, |vec|, size, win)| > nz
    ensures !full ==> Listed(arow, acol, aelt, ts + VectorTriples(vec, |vec|, size, win))
    ensures !full ==> count == nnza + |VectorTriples(vec, |vec|, size, win)| <= nz
  {
    hide Vector, Times, ColumnTriples;
    count, full := nnza, false;
    ghost var c, x := iv[..], v[..];
    assert ts + [] == ts;
    for ivelt := 1 to nzv + 1
      invariant iv[..] == c && v[..] == x && |vec| == nzv
      invariant Listed(arow, acol, aelt, ts + VectorTriples(vec, ivelt - 1, size, win))
      invariant count == nnza + |VectorTriples(vec, ivelt - 1, size, win)| <= nz
    {
      VectorAt(c, x, nzv, vec, ivelt);
      VectorTriplesGrow(vec, ivelt, nzv, size, win);
      var jcol := iv[ivelt];
      if win.HasColumn(jcol) {
        var scale := Times(size, v[ivelt]);
        ghost var pre, more := VectorTriples(vec, ivelt - 1, size, win), ColumnTriples(vec, nzv, jcol, scale, win);
        assert ts + (pre + more) == ts + pre + more;
        count, full := AppendColumn(arow, acol, aelt, count, nz, iv, v, nzv, jcol, scale, win, ts + pre, vec);
        if full { return; }
      }
    }
  }

  /** The closing loop: the diagonal where the windows meet. */
  ghost function DiagonalTriples(win: Window, i: int, diagonal: real): seq<Triple>
    decreases i - win.firstrow
  {
    if i <= win.firstrow then [] else
      var pre := DiagonalTriples(win, i - 1, diagonal);
      if win.HasColumn(i - 1) then pre + [Triple(i - 1, i - 1, diagonal)] else pre
  }

  lemma {:induction false} DiagonalSum(win: Window, i: int, diagonal: real, r: int, c: int)
    requires win.HasRow(r) && win.HasColumn(c) && i <= win.lastrow + 1
    ensures TripleSum(DiagonalTriples(win, i, diagonal), r, c) == if r == c && r < i then diagonal else 0.0
    decreases i - win.firstrow
  {
    if i > win.firstrow {
      DiagonalSum(win, i - 1, diagonal, r, c);
      TripleSumOne(DiagonalTriples(win, i - 1, diagonal), Triple(i - 1, i - 1, diagonal), r, c);
    }
  }

  lemma {:induction false} DiagonalRange(win: Window, i: int, diagonal: real)
    requires i <= win.lastrow + 1
    ensures forall k {:trigger DiagonalTriples(win, i, diagonal)[k]} :: 0 <= k < |DiagonalTriples(win, i, diagonal)| ==>
              var t := DiagonalTriples(win, i, diagonal)[k]; win.HasRow(t.row) && win.HasColumn(t.col)
    ensures |DiagonalTriples(win, i, diagonal)| <= if i > win.firstrow then i - win.firstrow else 0
    decreases i - win.firstrow
  {
    if i > win.firstrow {
      DiagonalRange(win, i - 1, diagonal);
    }
  }

  method AppendDiagonal(arow: array<int>, acol: array<int>, aelt: array<real>, nnza: nat, nz: nat, win: Window,
                        diagonal: real, ghost ts: seq<Triple>)
    returns (count: nat, full: bool)
    requires Listed(arow, acol, aelt, ts) && |ts| == nnza <= nz < arow.Length && nz < acol.Length && nz < aelt.Length
    requires arow != acol
    requires win.firstrow <= win.lastrow + 1
    modifies arow, acol, aelt
    ensures full ==> nnza + (win.lastrow - win.firstrow + 1) > nz
    ensures !full ==> Listed(arow, acol, aelt, ts + DiagonalTriples(win, win.lastrow + 1, diagonal))
    ensures !full ==> count == nnza + |DiagonalTriples(win, win.lastrow + 1, diagonal)| <= nz
  {
    count, full := nnza, false;
    assert ts + [] == ts;
    for i := win.firstrow to win.lastrow + 1
      invariant Listed(arow, acol, aelt, ts + DiagonalTriples(win, i, diagonal))
      invariant count == nnza + |DiagonalTriples(win, i, diagonal)| <= nnza + (i - win.firstrow) && count <= nz
    {
      if win.HasColumn(i) {
        ghost var pre := DiagonalTriples(win, i, diagonal);
        assert ts + (pre + [Triple(i, i, diagonal)]) == ts + pre + [Triple(i, i, diagonal)];
        count, full := Append(arow, acol, aelt, count, nz, i, i, diagonal, ts + pre);
        if full { return; }
      }
    }
  }

  // ---------- makea ----------

  datatype Outcome = Done | OutOfSpace | OutOfDraws

  /** A vector as it is made from the stream between two positions: filled by draws, then set to 1/2 at index i. */
  ghost predicate FromStream(rnd: nat -> real, n: nat, nonzer: nat, from: nat, to: nat, vec: seq<Entry>, i: int) {
    exists k: nat :: to == from + 2 * k && JustFills(rnd, n, nonzer, from, k)
        && FromDraws(rnd, n, from, k, Drawn(rnd, n, from, k)) && vec == SetEntry(Drawn(rnd, n, from, k), i, 0.5)
  }

  /** The vectors are made one after the other from the stream, vector t between positions at[t] and at[t+1]. */
  ghost predicate AllFromStream(rnd: nat -> real, n: nat, nonzer: nat, at: seq<nat>, vecs: seq<seq<Entry>>) {
    && |at| == |vecs| + 1 && at[0] == 0
    && forall t {:trigger vecs[t]} :: 0 <= t < |vecs| ==> FromStream(rnd, n, nonzer, at[t], at[t + 1], vecs[t], t + 1)
  }

  lemma OneMoreFromStream(rnd: nat -> real, n: nat, nonzer: nat, at: seq<nat>, vecs: seq<seq<Entry>>, to: nat, k: nat,
                          vec: seq<Entry>)
    requires UnitStream(rnd) && AllFromStream(rnd, n, nonzer, at, vecs) && to == at[|vecs|] + 2 * k
    requires JustFills(rnd, n, nonzer, at[|vecs|], k)
    requires vec == SetEntry(Drawn(rnd, n, at[|vecs|], k), |vecs| + 1, 0.5)
    ensures AllFromStream(rnd, n, nonzer, at + [to], vecs + [vec])
  {
    hide JustFills, Drawn, SetEntry, FromDraws, UnitStream;
    var at', vecs' := at + [to], vecs + [vec];
    DrawnAccepted(rnd, n, at[|vecs|], k);
    forall t {:trigger vecs'[t]} | 0 <= t < |vecs'|
      ensures FromStream(rnd, n, nonzer, at'[t], at'[t + 1], vecs'[t], t + 1)
    {
      if t < |vecs| {
        assert FromStream(rnd, n, nonzer, at[t], at[t + 1], vecs[t], t + 1);
      }
    }
  }

  /** The vectors in use: vector t is proper, short, and 1/2 at index t+1. */
  ghost predicate Vectors(vecs: seq<seq<Entry>>, n: nat, nonzer: nat) {
    forall t {:trigger vecs[t]} :: 0 <= t < |vecs| ==>
      ProperVector(vecs[t], n) && |vecs[t]| <= nonzer + 1 && ColSum(vecs[t], t + 1) == 0.5
  }

  /** The loop over the vectors. */
  method MakeTriples(n: nat, nz: nat, nonzer: nat, win: Window, ratio: real, arow: array<int>, acol: array<int>,
                     aelt: array<real>, v: array<real>, iv: array<int>, work: array<int>, rnd: nat -> real, fuel: nat)
    returns (outcome: Outcome, nnza: nat, ghost ts: seq<Triple>, ghost vecs: seq<seq<Entry>>, ghost at: seq<nat>)
    requires UnitStream(rnd) && n >= 1 && nz < arow.Length && nz < acol.Length && nz < aelt.Length
    requires v.Length > n + 1 && iv.Length > n + 1 && Unmarked(work[..], n)
    requires Separate(arow, acol, aelt, iv, v) && work != iv && work != arow && work != acol
    modifies arow, acol, aelt, v, iv, work
    ensures outcome.Done? ==> Listed(arow, acol, aelt, ts) && |ts| == nnza <= nz && |vecs| == n
    ensures outcome.Done? ==> Vectors(vecs, n, nonzer) && AllFromStream(rnd, n, nonzer, at, vecs)
    ensures outcome.Done? ==> Built(ts, vecs, ratio, win, n, nonzer)
    ensures outcome.OutOfSpace? ==> nz < n * ((nonzer + 1) * (nonzer + 1))
  {
    hide VectorTriples, Built, Vector, AllFromStream, JustFills, Drawn, SetEntry;
    ts, vecs, at := [], [], [0];
    NoneFromStream(rnd, n, nonzer);
    BuiltEmpty(ratio, win, n, nonzer);
    nnza, outcome := 0, Done;
    var size, pos := 1.0, 0;
    for iouter := 1 to n + 1
      invariant Unmarked(work[..], n) && Listed(arow, acol, aelt, ts) && |ts| == nnza <= nz
      invariant |vecs| == iouter - 1 && Vectors(vecs, n, nonzer) && Built(ts, vecs, ratio, win, n, nonzer)
      invariant size == RealPower(ratio, iouter - 1) && outcome == Done
      invariant AllFromStream(rnd, n, nonzer, at, vecs) && |at| == iouter && at[iouter - 1] == pos
    {
      var ok;
      ghost var draws;
      ok, pos, draws := Sprnvc(n, nonzer, v, iv, work, rnd, pos, fuel);
      if !ok { outcome := OutOfDraws; return; }
      var nzv := Vecset(n, v, iv, nonzer, iouter, 0.5, Vector(iv[..], v[..], nonzer));
      ghost var vec := Vector(iv[..], v[..], nzv);
      var full;
      ghost var more := VectorTriples(vec, |vec|, size, win);
      OneMoreFromStream(rnd, n, nonzer, at, vecs, pos, draws, vec);
      BuiltStep(ts, vecs, ratio, win, n, nonzer, vec);
      BuiltLength(ts + more, vecs + [vec], ratio, win, n, nonzer);
      nnza, full := AppendVector(arow, acol, aelt, nnza, nz, iv, v, nzv, size, win, ts, vec);
      if full { outcome := OutOfSpace; return; }
      ts, vecs, at := ts + more, vecs + [vec], at + [pos];
      size := size * ratio;
    }
  }

  lemma NoneFromStream(rnd: nat -> real, n: nat, nonzer: nat)
    ensures AllFromStream(rnd, n, nonzer, [0], [])
  {
  }

  lemma BuiltEmpty(ratio: real, win: Window, n: nat, nonzer: nat)
    ensures Built([], [], ratio, win, n, nonzer)
  {
  }

  lemma BuiltLength(ts: seq<Triple>, vecs: seq<seq<Entry>>, ratio: real, win: Window, n: nat, nonzer: nat)
    requires Built(ts, vecs, ratio, win, n, nonzer) && |vecs| <= n
    ensures |ts| <= n * ((nonzer + 1) * (nonzer + 1))
  {
    var sq := (nonzer + 1) * (nonzer + 1);
    ProductNonNegative(n - |vecs|, sq);
    assert (n - |vecs|) * sq == n * sq - |vecs| * sq;
  }

  /** makea: the compressed matrix of the vectors that the stream yields has, within the windows, exactly the promised
      entries, and none outside the column window; with nz as in line 51 the lack of space is never reported. */
  method MakeMatrix(n: nat, nz: nat, a: array<real>, colidx: array<int>, rowstr: array<int>, nonzer: nat, win: Window,
                    rcond: real, ratio: real, arow: array<int>, acol: array<int>, aelt: array<real>, v: array<real>,
                    iv: array<int>, shift: real, rnd: nat -> real, fuel: nat)
    returns (outcome: Outcome, ghost ts: seq<Triple>, ghost vecs: seq<seq<Entry>>, ghost at: seq<nat>)
    requires UnitStream(rnd) && n >= 1 && 1 <= win.firstrow <= win.lastrow + 1 <= n + 1 && 1 <= win.firstcol
    requires win.lastcol <= n
    requires nz < arow.Length && nz < acol.Length && nz < aelt.Length && nz < a.Length && nz < colidx.Length
    requires 2 * n < colidx.Length
    requires v.Length > n + 1 && iv.Length > 2 * n + 1 && rowstr.Length > n + 1
    requires Separate(arow, acol, aelt, iv, v) && colidx != iv && colidx != arow && colidx != acol && rowstr != colidx
    requires rowstr != iv
    requires rowstr != arow && rowstr != acol && a != v && a != aelt
    modifies a, colidx, rowstr, arow, acol, aelt, v, iv
    ensures outcome.Done? ==>
              && |vecs| == n && Vectors(vecs, n, nonzer) && AllFromStream(rnd, n, nonzer, at, vecs)
              && Csr(colidx[..], a[..], rowstr[..], win.lastrow - win.firstrow + 1, ts, win.firstrow)
              && (forall k {:trigger ts[k]} :: 0 <= k < |ts| ==>
                   win.HasRow(ts[k].row) && win.HasColumn(ts[k].col) && 1 <= ts[k].col <= n)
              && forall r, c {:trigger TripleSum(ts, r, c)} :: win.HasRow(r) ==>
                   TripleSum(ts, r, c) ==
                     if win.HasColumn(c) then MatrixEntry(vecs, ratio, rcond - shift, r, c) else 0.0
    ensures n * ((nonzer + 1) * (nonzer + 1)) + n * (nonzer + 2) <= nz ==> outcome != OutOfSpace
  {
    hide Built, TripleSum, OuterSum, AllFromStream;
    for i := 1 to n + 1
      invariant forall k {:trigger colidx[k]} :: n < k < n + i ==> colidx[k] == 0
    {
      colidx[n + i] := 0;
    }
    var nnza;
    ghost var us;
    outcome, nnza, us, vecs, at := MakeTriples(n, nz, nonzer, win, ratio, arow, acol, aelt, v, iv, colidx, rnd, fuel);
    ts := us;
    SpaceSuffices(n, nonzer);
    if outcome != Done { return; }
    BuiltLength(us, vecs, ratio, win, n, nonzer);
    var full;
    nnza, full := AppendDiagonal(arow, acol, aelt, nnza, nz, win, rcond - shift, us);
    if full { outcome := OutOfSpace; return; }
    ts := us + DiagonalTriples(win, win.lastrow + 1, rcond - shift);
    WithDiagonal(us, vecs, ratio, win, n, nonzer, rcond - shift);
    NoOtherColumns(ts, win);
    SparseMatrix(a, colidx, rowstr, n, arow, acol, aelt, win.firstrow, win.lastrow, v, iv, nnza, ts);
  }

  lemma SpaceSuffices(n: nat, nonzer: nat)
    ensures n * (nonzer + 2) >= n
  {
    ProductNonNegative(n, nonzer + 1);
    assert n * (nonzer + 2) == n * (nonzer + 1) + n;
  }

  lemma WithDiagonal(us: seq<Triple>, vecs: seq<seq<Entry>>, ratio: real, win: Window, n: nat, nonzer: nat,
                     diagonal: real)
    requires Built(us, vecs, ratio, win, n, nonzer) && win.lastcol <= n && 1 <= win.firstcol
    ensures var ts := us + DiagonalTriples(win, win.lastrow + 1, diagonal);
            && (forall k {:trigger ts[k]} :: 0 <= k < |ts| ==>
                 win.HasRow(ts[k].row) && win.HasColumn(ts[k].col) && 1 <= ts[k].col <= n)
            && (forall r, c {:trigger TripleSum(ts, r, c)} :: win.HasRow(r) && win.HasColumn(c) ==>
                  TripleSum(ts, r, c) == MatrixEntry(vecs, ratio, diagonal, r, c))
  {
    hide TripleSum, OuterSum, DiagonalTriples;
    var more := DiagonalTriples(win, win.lastrow + 1, diagonal);
    var ts := us + more;
    DiagonalRange(win, win.lastrow + 1, diagonal);
    forall r, c {:trigger TripleSum(ts, r, c)} | win.HasRow(r) && win.HasColumn(c)
      ensures TripleSum(ts, r, c) == MatrixEntry(vecs, ratio, diagonal, r, c)
    {
      TripleSumAppend(us, more, r, c);
      DiagonalSum(win, win.lastrow + 1, diagonal, r, c);
    }
  }

  lemma NoOtherColumns(ts: seq<Triple>, win: Window)
    requires forall k {:trigger ts[k]} :: 0 <= k < |ts| ==> win.HasColumn(ts[k].col)
    ensures forall r, c {:trigger TripleSum(ts, r, c)} :: !win.HasColumn(c) ==> TripleSum(ts, r, c) == 0.0
  {
    forall r, c {:trigger TripleSum(ts, r, c)} | !win.HasColumn(c)
      ensures TripleSum(ts, r, c) == 0.0
    {
      NoTriple(ts, r, c);
    }
  }

  lemma {:induction false} NoTriple(ts: seq<Triple>, r: int, c: int)
    requires forall k {:trigger ts[k]} :: 0 <= k < |ts| ==> ts[k].col != c
    ensures TripleSum(ts, r, c) == 0.0
  {
    if ts != [] {
      NoTriple(ts[..|ts| - 1], r, c);
    }
  }
}
