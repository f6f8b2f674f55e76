/** lib/bits.c: CPU masks of several 64-bit words, and the loop of mpart.c that walks one. CPU c is bit c % 64 of
    word c / 64. */
module CpuMask {
  import opened Bitmask

  // ---------- Bits of one word ----------

  /** The operations on words that the proofs below hide. */
  predicate Meets(a: bv64, b: bv64) { a & b != 0 }
  function Twice(a: bv64): bv64 { a << 1 }
  function Half(a: bv64): bv64 { a >> 1 }
  function Without(a: bv64, b: bv64): bv64 { a & !b }

  /** 1 << k. */
  function OneBit(k: nat): bv64 {
    if k == 0 then 1 else Twice(OneBit(k - 1))
  }

  predicate Bit(w: bv64, k: nat) { Meets(w, OneBit(k)) }

  lemma BitShift(w: bv64, k: nat)
    ensures Bit(w >> 1, k) <==> Bit(w, k + 1)
    ensures Bit(w, 0) <==> w & 1 == 1
  {
    ShiftMask(w, OneBit(k));
    LowBit(w);
    hide Meets, Twice, Half;
  }

  lemma ShiftMask(w: bv64, m: bv64)
    ensures Meets(Half(w), m) <==> Meets(w, Twice(m))
    ensures Half(w) == w >> 1
  {
  }

  lemma LowBit(w: bv64)
    ensures Meets(w, 1) <==> w & 1 == 1
  {
    assert w & 1 == 0 || w & 1 == 1;
  }

  lemma ZeroHasNoBit(k: nat)
    ensures !Bit(0, k)
  {
    assert !Meets(0, OneBit(k));
  }

  lemma {:induction false} BitsDiffer(j: nat, k: nat)
    requires j != k
    ensures !Meets(OneBit(j), OneBit(k))
  {
    hide Meets, Twice;
    if j > 0 && k > 0 {
      BitsDiffer(j - 1, k - 1);
      ShiftBoth(OneBit(j - 1), OneBit(k - 1));
    } else if j == 0 {
      LowBitClear(OneBit(k - 1));
    } else {
      LowBitClear(OneBit(j - 1));
    }
  }

  lemma ShiftBoth(a: bv64, b: bv64)
    ensures Meets(Twice(a), Twice(b)) ==> Meets(a, b)
  {
  }

  lemma LowBitClear(a: bv64)
    ensures !Meets(1, Twice(a)) && !Meets(Twice(a), 1)
  {
  }

  /** Clearing one bit clears that bit alone. */
  lemma ClearedBit(w: bv64, k: nat, j: nat)
    ensures Bit(Without(w, OneBit(k)), j) <==> Bit(w, j) && j != k
  {
    hide Meets, Without, OneBit;
    if j != k {
      BitsDiffer(j, k);
      ClearOther(w, OneBit(k), OneBit(j));
    } else {
      ClearSame(w, OneBit(k));
    }
  }

  lemma ClearOther(w: bv64, m: bv64, n: bv64)
    requires !Meets(n, m)
    ensures Meets(Without(w, m), n) <==> Meets(w, n)
  {
  }

  lemma ClearSame(w: bv64, m: bv64)
    ensures !Meets(Without(w, m), m)
  {
  }

  /** All bits from k on. */
  function Rest(k: nat): bv64 {
    if k == 0 then 0xffff_ffff_ffff_ffff else Twice(Rest(k - 1))
  }

  lemma NoRest()
    ensures Rest(64) == 0
  {
    assert Rest(8) == 0xffff_ffff_ffff_ff00;
    assert Rest(16) == 0xffff_ffff_ffff_0000;
    assert Rest(24) == 0xffff_ffff_ff00_0000;
    assert Rest(32) == 0xffff_ffff_0000_0000;
    assert Rest(40) == 0xffff_ff00_0000_0000;
    assert Rest(48) == 0xffff_0000_0000_0000;
    assert Rest(56) == 0xff00_0000_0000_0000;
  }

  // ---------- ffsll ----------

  /** ffsll of the C library: 0 for 0, and otherwise one more than the index of the least bit set. */
  function Ffsll(w: bv64): nat { if w == 0 then 0 else 1 + LeastBit(w, 64) }

  function LeastBit(w: bv64, n: nat): nat {
    if n == 0 || w & 1 == 1 then 0 else 1 + LeastBit(w >> 1, n - 1)
  }

  lemma FfsllFindsLeast(w: bv64)
    ensures Ffsll(w) == 0 ==> forall j: nat :: !Bit(w, j)
    ensures Ffsll(w) > 0 ==> Ffsll(w) <= 64 && Bit(w, Ffsll(w) - 1) && forall j: nat :: j < Ffsll(w) - 1 ==> !Bit(w, j)
  {
    hide Bit, LeastBit;
    if w == 0 {
      forall j: nat
        ensures !Bit(w, j)
      {
        ZeroHasNoBit(j);
      }
    } else {
      NoRest();
      MeetsNone(w);
      LeastBitIsSet(w, 64);
    }
  }

  lemma MeetsNone(w: bv64)
    ensures !Meets(w, 0) && (Meets(w, 0xffff_ffff_ffff_ffff) <==> w != 0)
  {
  }

  lemma {:induction false} LeastBitIsSet(w: bv64, n: nat)
    requires w != 0 && !Meets(w, Rest(n))
    ensures LeastBit(w, n) < n && Bit(w, LeastBit(w, n)) && forall j: nat :: j < LeastBit(w, n) ==> !Bit(w, j)
  {
    hide Bit, Meets, Twice, Half;
    MeetsNone(w);
    BitShift(w, 0);
    if n > 0 && w & 1 != 1 {
      ShiftMask(w, Rest(n - 1));
      ShiftDown(w);
      LeastBitIsSet(w >> 1, n - 1);
      BitShift(w, LeastBit(w >> 1, n - 1));
      forall j: nat | j < LeastBit(w, n)
        ensures !Bit(w, j)
      {
        if j > 0 {
          BitShift(w, j - 1);
        }
      }
    }
  }

  lemma ShiftDown(w: bv64)
    requires w != 0 && w & 1 != 1
    ensures w >> 1 != 0
  {
  }

  // ---------- Masks ----------

  predicate Has(m: seq<bv64>, c: nat)
    requires c < 64 * |m|
  {
    Bit(m[c / 64], c % 64)
  }

  /** The CPUs below n of a mask, in ascending order. */
  function Cpus(m: seq<bv64>, n: nat): seq<nat>
    requires n <= 64 * |m|
  {
    if n == 0 then [] else Cpus(m, n - 1) + if Has(m, n - 1) then [n - 1] else []
  }

  function AllCpus(m: seq<bv64>): seq<nat> { Cpus(m, 64 * |m|) }

  /** AllCpus lists exactly the CPUs of the mask, ascending and each once. */
  lemma {:induction false} CpusAreMembers(m: seq<bv64>, n: nat)
    requires n <= 64 * |m|
    ensures forall c: nat :: c in Cpus(m, n) <==> c < n && Has(m, c)
    ensures forall i, j :: 0 <= i < j < |Cpus(m, n)| ==> Cpus(m, n)[i] < Cpus(m, n)[j]
  {
    hide Has;
    if n > 0 {
      CpusAreMembers(m, n - 1);
      var s := Cpus(m, n - 1);
      assert forall i :: 0 <= i < |s| ==> s[i] in s;
    }
  }

  /** The number of ones of a word, counted from the top. */
  function Count(w: bv64, n: nat): nat {
    if n == 0 then 0 else Count(w, n - 1) + if Bit(w, n - 1) then 1 else 0
  }

  lemma {:induction false} CountShift(w: bv64, n: nat)
    ensures Count(w, n + 1) == (if Bit(w, 0) then 1 else 0) + Count(w >> 1, n)
  {
    hide Bit;
    if n > 0 {
      CountShift(w, n - 1);
      BitShift(w, n - 1);
    }
  }

  lemma {:induction false} OnesCounted(w: bv64, n: nat)
    ensures Ones(w, n) == Count(w, n)
  {
    hide Bit;
    if n > 0 {
      OnesCounted(w >> 1, n - 1);
      CountShift(w, n - 1);
      BitShift(w, 0);
    }
  }

  /** The CPUs of one more word. */
  lemma {:induction false} WordCpus(m: seq<bv64>, i: nat, k: nat)
    requires i < |m| && k <= 64
    ensures |Cpus(m, 64 * i + k)| == |Cpus(m, 64 * i)| + Count(m[i], k)
  {
    hide Bit;
    if k > 0 {
      WordCpus(m, i, k - 1);
      assert (64 * i + k - 1) / 64 == i && (64 * i + k - 1) % 64 == k - 1;
    }
  }

  /** bit_weight_bitmask: the number of CPUs in the mask. */
  method BitWeightBitmask(mask: array<bv64>) returns (c: nat)
    ensures c == |AllCpus(mask[..])|
  {
    hide BitWeight, Ones, Count, Val;
    c := 0;
    var i := 0;
    while i < mask.Length
      invariant i <= mask.Length
      invariant c == |Cpus(mask[..], 64 * i)|
    {
      BitWeightCounts(mask[i]);
      OnesCounted(mask[i], 64);
      WordCpus(mask[..], i, 64);
      c := c + Val(BitWeight(mask[i]));
      i := i + 1;
    }
  }

  /** Nothing is listed below the least CPU. */
  lemma {:induction false} NoneBelow(m: seq<bv64>, n: nat)
    requires n <= 64 * |m| && forall c: nat :: c < n ==> !Has(m, c)
    ensures Cpus(m, n) == []
  {
    hide Has;
    if n > 0 {
      NoneBelow(m, n - 1);
    }
  }

  /** c is the least CPU of the mask. */
  ghost predicate Least(m: seq<bv64>, c: nat) {
    c < 64 * |m| && Has(m, c) && forall d: nat :: d < c ==> !Has(m, d)
  }

  lemma {:induction false} LeastIsFirst(m: seq<bv64>, c: nat, n: nat)
    requires Least(m, c) && c < n <= 64 * |m|
    ensures |Cpus(m, n)| > 0 && Cpus(m, n)[0] == c
  {
    hide Has;
    if n == c + 1 {
      NoneBelow(m, c);
    } else {
      LeastIsFirst(m, c, n - 1);
    }
  }

  /** ffsll_bitmask: 0 for an empty mask, and otherwise one more than the number of the least CPU. */
  method FfsllBitmask(mask: array<bv64>) returns (r: nat)
    ensures r == 0 <==> AllCpus(mask[..]) == []
    ensures r > 0 ==> r - 1 == AllCpus(mask[..])[0] && Least(mask[..], r - 1)
  {
    hide Ffsll, Bit;
    var c, d, i := 0, 0, 0;
    while i < mask.Length
      invariant i <= mask.Length && c == 64 * i && d == 0
      invariant forall k: nat :: k < 64 * i ==> !Has(mask[..], k)
    {
      d := Ffsll(mask[i]);
      FfsllFindsLeast(mask[i]);
      if d != 0 {
        break;
      }
      c := c + 64;
      i := i + 1;
    }
    if d == 0 {
      NoneBelow(mask[..], 64 * mask.Length);
      r := 0;
    } else {
      assert (c + d - 1) / 64 == i && (c + d - 1) % 64 == d - 1;
      assert Has(mask[..], c + d - 1);
      assert Least(mask[..], c + d - 1);
      LeastIsFirst(mask[..], c + d - 1, 64 * mask.Length);
      r := c + d;
    }
  }

  /** clearcpu_bitmask: takes one CPU out of the mask, and changes no other. */
  method ClearCpu(mask: array<bv64>, cpu: nat)
    requires cpu < 64 * mask.Length
    modifies mask
    ensures forall c: nat :: c < 64 * mask.Length ==> (Has(mask[..], c) <==> Has(old(mask[..]), c) && c != cpu)
  {
    hide Bit, OneBit, Without;
    mask[cpu / 64] := Without(mask[cpu / 64], OneBit(cpu % 64));
    forall c: nat | c < 64 * mask.Length
      ensures Has(mask[..], c) <==> Has(old(mask[..]), c) && c != cpu
    {
      ClearedBit(old(mask[cpu / 64]), cpu % 64, c % 64);
    }
  }

  /** Clearing the least CPU takes the first one off the list. */
  lemma {:induction false} ClearLeast(m: seq<bv64>, m': seq<bv64>, c: nat, n: nat)
    requires Least(m, c) && |m'| == |m| && c < n <= 64 * |m|
    requires forall d: nat :: d < 64 * |m| ==> (Has(m', d) <==> Has(m, d) && d != c)
    ensures |Cpus(m, n)| > 0 && Cpus(m', n) == Cpus(m, n)[1..]
  {
    hide Has;
    if n == c + 1 {
      NoneBelow(m, c);
      NoneBelow(m', n);
    } else {
      ClearLeast(m, m', c, n - 1);
    }
  }

  /** The mask-walking loop of mpart.c: counts the CPUs of a node's map, and then as many times finds and clears the
      least one in a copy. It visits exactly the CPUs of the map, in ascending order, and leaves the copy empty and
      the map as it was. */
  method WalkMask(cpus: array<bv64>) returns (visited: seq<nat>, mask: array<bv64>)
    ensures visited == AllCpus(cpus[..])
    ensures fresh(mask) && mask.Length == cpus.Length && forall i :: 0 <= i < mask.Length ==> mask[i] == 0
  {
    hide Has, Cpus;
    var cpuNum := BitWeightBitmask(cpus);
    mask := new bv64[cpus.Length]((i: int) requires 0 <= i < cpus.Length reads cpus => cpus[i]);
    assert mask[..] == cpus[..];
    visited := [];
    var l := 0;
    while l < cpuNum
      invariant l <= cpuNum && fresh(mask) && mask.Length == cpus.Length && cpus[..] == old(cpus[..])
      invariant l == |visited|
      invariant AllCpus(cpus[..]) == visited + AllCpus(mask[..])
    {
      var f := FfsllBitmask(mask);
      ghost var before := mask[..];
      assert f > 0;
      visited := visited + [f - 1];
      ClearCpu(mask, f - 1);
      ClearLeast(before, mask[..], f - 1, 64 * |before|);
      l := l + 1;
    }
    EmptyWords(mask[..]);
  }

  lemma BitIsMember(m: seq<bv64>, i: nat, k: nat)
    requires i < |m| && k < 64 && Bit(m[i], k)
    ensures Has(m, 64 * i + k)
  {
    assert (64 * i + k) / 64 == i && (64 * i + k) % 64 == k;
  }

  /** A mask that lists no CPU has no bit set. */
  lemma EmptyWords(m: seq<bv64>)
    requires AllCpus(m) == []
    ensures forall i :: 0 <= i < |m| ==> m[i] == 0
  {
    hide Bit, Cpus;
    CpusAreMembers(m, 64 * |m|);
    forall i | 0 <= i < |m|
      ensures m[i] == 0
    {
      FfsllFindsLeast(m[i]);
      if m[i] != 0 {
        BitIsMember(m, i, Ffsll(m[i]) - 1);
      }
    }
  }
}
