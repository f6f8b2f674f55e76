/** bomp/benchmark/is.c: counts of keys, their running sums, and the final sort of full_verify. */
module KeyCounts {

  /** How many of the first n keys are v; and at most v. */
  function Equal(keys: seq<int>, v: int, n: nat): nat
    requires n <= |keys|
  {
    if n == 0 then 0 else Equal(keys, v, n - 1) + if keys[n - 1] == v then 1 else 0
  }

  function AtMost(keys: seq<int>, v: int, n: nat): nat
    requires n <= |keys|
  {
    if n == 0 then 0 else AtMost(keys, v, n - 1) + if keys[n - 1] <= v then 1 else 0
  }

  function Rank(keys: seq<int>, v: int): nat { AtMost(keys, v, |keys|) }

  ghost function PlacesAtMost(keys: seq<int>, v: int, n: nat): set<int>
    requires n <= |keys|
  {
    set i | 0 <= i < n && keys[i] <= v
  }

  /** The rank of v is the number of places that hold a key of at most v. */
  lemma RankIsCardinality(keys: seq<int>, v: int)
    ensures Rank(keys, v) == |PlacesAtMost(keys, v, |keys|)|
  {
    AtMostIsCardinality(keys, v, |keys|);
  }

  lemma {:induction false} AtMostIsCardinality(keys: seq<int>, v: int, n: nat)
    requires n <= |keys|
    ensures AtMost(keys, v, n) == |PlacesAtMost(keys, v, n)|
  {
    if n > 0 {
      AtMostIsCardinality(keys, v, n - 1);
      if keys[n - 1] <= v {
        assert PlacesAtMost(keys, v, n) == PlacesAtMost(keys, v, n - 1) + {n - 1};
      } else {
        assert PlacesAtMost(keys, v, n) == PlacesAtMost(keys, v, n - 1);
      }
    }
  }

  /** The same for the keys that thread j owns. */
  function OwnEqual(keys: seq<int>, owner: seq<nat>, j: nat, v: int, n: nat): nat
    requires n <= |keys| == |owner|
  {
    if n == 0 then 0 else OwnEqual(keys, owner, j, v, n - 1) + if owner[n - 1] == j && keys[n - 1] == v then 1 else 0
  }

  function OwnAtMost(keys: seq<int>, owner: seq<nat>, j: nat, v: int, n: nat): nat
    requires n <= |keys| == |owner|
  {
    if n == 0 then 0 else OwnAtMost(keys, owner, j, v, n - 1) + if owner[n - 1] == j && keys[n - 1] <= v then 1 else 0
  }

  /** The sum over threads 0 to m - 1 of their counts. */
  function AllAtMost(keys: seq<int>, owner: seq<nat>, m: nat, v: int): nat
    requires |keys| == |owner|
  {
    if m == 0 then 0 else AllAtMost(keys, owner, m - 1, v) + OwnAtMost(keys, owner, m - 1, v, |keys|)
  }

  /** Whatever the partition of the keys, the threads' counts add up to the count of all keys. */
  lemma {:induction false} PartsAddUp(keys: seq<int>, owner: seq<nat>, m: nat, v: int)
    requires |keys| == |owner| && forall i :: 0 <= i < |owner| ==> owner[i] < m
    ensures AllAtMost(keys, owner, m, v) == Rank(keys, v)
  {
    FirstParts(keys, owner, m, v);
    OwnersBelow(keys, owner, m, v, |keys|);
  }

  /** How many of the first n keys are at most v and owned by a thread below m. */
  function OwnedBelow(keys: seq<int>, owner: seq<nat>, m: nat, v: int, n: nat): nat
    requires n <= |keys| == |owner|
  {
    if n == 0 then 0 else OwnedBelow(keys, owner, m, v, n - 1) + if owner[n - 1] < m && keys[n - 1] <= v then 1 else 0
  }

  lemma {:induction false} FirstParts(keys: seq<int>, owner: seq<nat>, m: nat, v: int)
    requires |keys| == |owner|
    ensures AllAtMost(keys, owner, m, v) == OwnedBelow(keys, owner, m, v, |keys|)
  {
    if m > 0 {
      FirstParts(keys, owner, m - 1, v);
      OneMoreOwner(keys, owner, m - 1, v, |keys|);
    } else {
      NoOwner(keys, owner, v, |keys|);
    }
  }

  lemma {:induction false} NoOwner(keys: seq<int>, owner: seq<nat>, v: int, n: nat)
    requires n <= |keys| == |owner|
    ensures OwnedBelow(keys, owner, 0, v, n) == 0
  {
    if n > 0 {
      NoOwner(keys, owner, v, n - 1);
    }
  }

  lemma {:induction false} OneMoreOwner(keys: seq<int>, owner: seq<nat>, m: nat, v: int, n: nat)
    requires n <= |keys| == |owner|
    ensures OwnedBelow(keys, owner, m + 1, v, n) == OwnedBelow(keys, owner, m, v, n) + OwnAtMost(keys, owner, m, v, n)
  {
    if n > 0 {
      OneMoreOwner(keys, owner, m, v, n - 1);
    }
  }

  lemma {:induction false} OwnersBelow(keys: seq<int>, owner: seq<nat>, m: nat, v: int, n: nat)
    requires n <= |keys| == |owner| && forall i :: 0 <= i < |owner| ==> owner[i] < m
    ensures OwnedBelow(keys, owner, m, v, n) == AtMost(keys, v, n)
  {
    if n > 0 {
      OwnersBelow(keys, owner, m, v, n - 1);
    }
  }

  // ---------- Running sums ----------

  function Total(a: seq<int>, k: nat): int
    requires k <= |a|
  {
    if k == 0 then 0 else Total(a, k - 1) + a[k - 1]
  }

  function RunningSums(a: seq<int>): (r: seq<int>)
    ensures |r| == |a|
  {
    seq(|a|, v requires 0 <= v < |a| => Total(a, v + 1))
  }

  /** The in-place loop of rank over a thread's private counts. */
  method AccumulateInPlace(prv: array<int>)
    modifies prv
    ensures prv[..] == RunningSums(old(prv[..]))
  {
    ghost var a := prv[..];
    var i := 0;
    while i < prv.Length - 1
      invariant 0 <= i && (prv.Length > 0 ==> i < prv.Length)
      invariant forall k :: 0 <= k < prv.Length ==> prv[k] == if k <= i then Total(a, k + 1) else a[k]
    {
      prv[i + 1] := prv[i + 1] + prv[i];
      i := i + 1;
    }
  }

  lemma {:induction false} AtMostSplits(keys: seq<int>, owner: seq<nat>, j: nat, v: int, n: nat)
    requires n <= |keys| == |owner|
    ensures OwnAtMost(keys, owner, j, v, n) == OwnAtMost(keys, owner, j, v - 1, n) + OwnEqual(keys, owner, j, v, n)
  {
    if n > 0 {
      AtMostSplits(keys, owner, j, v, n - 1);
    }
  }

  lemma {:induction false} NoneBelowZero(keys: seq<int>, owner: seq<nat>, j: nat, n: nat)
    requires n <= |keys| == |owner| && forall i :: 0 <= i < |keys| ==> keys[i] >= 0
    ensures OwnAtMost(keys, owner, j, -1, n) == 0
  {
    if n > 0 {
      NoneBelowZero(keys, owner, j, n - 1);
    }
  }

  /** Running sums turn the counts of each key into the counts of the keys up to it. */
  lemma {:induction false} SumsOfCounts(a: seq<int>, keys: seq<int>, owner: seq<nat>, j: nat, k: nat)
    requires k <= |a| && |keys| == |owner| && forall i :: 0 <= i < |keys| ==> keys[i] >= 0
    requires forall v :: 0 <= v < |a| ==> a[v] == OwnEqual(keys, owner, j, v, |keys|)
    ensures Total(a, k) == OwnAtMost(keys, owner, j, k - 1, |keys|)
  {
    if k > 0 {
      SumsOfCounts(a, keys, owner, j, k - 1);
      AtMostSplits(keys, owner, j, k - 1, |keys|);
    } else {
      NoneBelowZero(keys, owner, j, |keys|);
    }
  }

  // ---------- The final sort ----------

  predicate KeysBelow(keys: seq<int>, maxKey: nat) { forall i :: 0 <= i < |keys| ==> 0 <= keys[i] < maxKey }

  lemma {:induction false} RankSplits(keys: seq<int>, v: int, n: nat)
    requires n <= |keys|
    ensures AtMost(keys, v, n) == AtMost(keys, v - 1, n) + Equal(keys, v, n)
  {
    if n > 0 {
      RankSplits(keys, v, n - 1);
    }
  }

  lemma {:induction false} EqualGrows(keys: seq<int>, v: int, m: nat, n: nat)
    requires m <= n <= |keys|
    ensures Equal(keys, v, m) <= Equal(keys, v, n)
    ensures m < n && keys[m] == v ==> Equal(keys, v, m) < Equal(keys, v, n)
  {
    if m < n {
      EqualGrows(keys, v, m, n - 1);
    }
  }

  lemma {:induction false} RankEnds(keys: seq<int>, maxKey: nat, n: nat)
    requires n <= |keys| && KeysBelow(keys, maxKey)
    ensures AtMost(keys, -1, n) == 0 && AtMost(keys, maxKey - 1, n) == n
  {
    if n > 0 {
      RankEnds(keys, maxKey, n - 1);
    }
  }

  lemma {:induction false} RankMonotone(keys: seq<int>, u: int, v: int, n: nat)
    requires n <= |keys| && u <= v
    ensures AtMost(keys, u, n) <= AtMost(keys, v, n) <= n
  {
    if n > 0 {
      RankMonotone(keys, u, v, n - 1);
    }
  }

  /** The slot that full_verify gives to key i. */
  function Slot(keys: seq<int>, i: nat): int
    requires i < |keys|
  {
    Rank(keys, keys[i]) - Equal(keys, keys[i], i) - 1
  }

  /** Key i lies among the slots of its value. */
  lemma SlotInBlock(keys: seq<int>, i: nat)
    requires i < |keys|
    ensures Rank(keys, keys[i] - 1) <= Slot(keys, i) < Rank(keys, keys[i]) <= |keys|
  {
    RankSplits(keys, keys[i], |keys|);
    EqualGrows(keys, keys[i], i, |keys|);
    RankMonotone(keys, keys[i], keys[i], |keys|);
  }

  /** No slot is written twice. */
  lemma SlotsDistinct(keys: seq<int>, i: nat, j: nat)
    requires i < j < |keys|
    ensures Slot(keys, i) != Slot(keys, j)
  {
    SlotInBlock(keys, i);
    SlotInBlock(keys, j);
    if keys[i] == keys[j] {
      EqualGrows(keys, keys[i], i, j);
    } else if keys[i] < keys[j] {
      RankMonotone(keys, keys[i], keys[j] - 1, |keys|);
    } else {
      RankMonotone(keys, keys[j], keys[i] - 1, |keys|);
    }
  }

  /** Every slot belongs to the block of one value. */
  lemma {:induction false} BlockOf(keys: seq<int>, p: nat, w: nat) returns (v: nat)
    requires p < Rank(keys, w - 1) && Rank(keys, -1) == 0
    ensures v < w && Rank(keys, v - 1) <= p < Rank(keys, v)
  {
    if p < Rank(keys, w - 2) {
      v := BlockOf(keys, p, w - 1);
    } else {
      v := w - 1;
    }
  }

  /** The last slots of the block of v hold v: as many as v occurs among the first i keys. */
  ghost predicate Placed(a: seq<int>, keys: seq<int>, v: int, i: nat)
    requires i <= |keys| && |a| >= |keys|
  {
    forall p :: 0 <= p < |keys| && Rank(keys, v) - Equal(keys, v, i) <= p < Rank(keys, v) ==> a[p] == v
  }

  ghost predicate Sorted(a: seq<int>) { forall p, q :: 0 <= p < q < |a| ==> a[p] <= a[q] }

  lemma PlacedStep(a: seq<int>, keys: seq<int>, i: nat, v: int)
    requires i < |keys| && |a| >= |keys| && 0 <= Slot(keys, i) < |keys| && Placed(a, keys, v, i)
    ensures Placed(a[Slot(keys, i) := keys[i]], keys, v, i + 1)
  {
    var p := Slot(keys, i);
    if v != keys[i] {
      SlotInBlock(keys, i);
      EqualGrows(keys, v, i, |keys|);
      RankSplits(keys, v, |keys|);
      if v < keys[i] {
        RankMonotone(keys, v, keys[i] - 1, |keys|);
      } else {
        RankMonotone(keys, keys[i], v - 1, |keys|);
      }
    }
  }

  /** When all keys are placed, the array is in order and has the same keys. */
  lemma PlacedSorts(a: seq<int>, keys: seq<int>, maxKey: nat)
    requires |a| == |keys| && KeysBelow(keys, maxKey) && forall v :: 0 <= v < maxKey ==> Placed(a, keys, v, |keys|)
    ensures Sorted(a) && multiset(a) == multiset(keys)
  {
    RankEnds(keys, maxKey, |keys|);
    forall p, q | 0 <= p < q < |a|
      ensures a[p] <= a[q]
    {
      var u := ValueAt(a, keys, maxKey, p);
      var v := ValueAt(a, keys, maxKey, q);
      if v < u {
        RankMonotone(keys, v, u - 1, |keys|);
      }
    }
    forall v
      ensures multiset(a)[v] == multiset(keys)[v]
    {
      SameCount(a, keys, maxKey, v, |keys|);
      CountIsMultiplicity(a, v, |a|);
      CountIsMultiplicity(keys, v, |keys|);
      assert a[..|a|] == a && keys[..|keys|] == keys;
    }
  }

  lemma ValueAt(a: seq<int>, keys: seq<int>, maxKey: nat, p: nat) returns (v: nat)
    requires p < |a| == |keys| && KeysBelow(keys, maxKey) && forall v :: 0 <= v < maxKey ==> Placed(a, keys, v, |keys|)
    ensures v < maxKey && a[p] == v && Rank(keys, v - 1) <= p < Rank(keys, v)
  {
    RankEnds(keys, maxKey, |keys|);
    v := BlockOf(keys, p, maxKey);
    RankSplits(keys, v, |keys|);
    assert Placed(a, keys, v, |keys|);
  }

  lemma {:induction false} CountIsMultiplicity(s: seq<int>, v: int, n: nat)
    requires n <= |s|
    ensures multiset(s[..n])[v] == Equal(s, v, n)
  {
    if n > 0 {
      CountIsMultiplicity(s, v, n - 1);
      assert s[..n] == s[..n - 1] + [s[n - 1]];
    }
  }

  /** Up to slot n, the array has v as often as the block of v has slots there. */
  lemma {:induction false} SameCount(a: seq<int>, keys: seq<int>, maxKey: nat, v: int, n: nat)
    requires n <= |a| == |keys| && KeysBelow(keys, maxKey) && forall v :: 0 <= v < maxKey ==> Placed(a, keys, v, |keys|)
    ensures Equal(a, v, n) ==
              if n <= Rank(keys, v - 1) then 0
              else if n <= Rank(keys, v) then n - Rank(keys, v - 1)
              else Equal(keys, v, |keys|)
    ensures n == |keys| ==> Equal(a, v, n) == Equal(keys, v, |keys|)
  {
    RankSplits(keys, v, |keys|);
    RankMonotone(keys, v, v, |keys|);
    if n > 0 {
      SameCount(a, keys, maxKey, v, n - 1);
      var u := ValueAt(a, keys, maxKey, n - 1);
      if u < v {
        RankMonotone(keys, u, v - 1, |keys|);
      } else if v < u {
        RankMonotone(keys, v, u - 1, |keys|);
      }
    }
  }

  /** full_verify: with the ranks in keyBuff1, sorts the keys of keyBuff2 into keyArray, each into a slot of its own,
      and then finds no pair out of order. */
  method FullVerify(keyArray: array<int>, keyBuff1: array<int>, keyBuff2: array<int>) returns (passed: bool)
    requires keyArray != keyBuff1 && keyArray != keyBuff2 && keyBuff1 != keyBuff2 && keyArray.Length == keyBuff2.Length
    requires KeysBelow(keyBuff2[..], keyBuff1.Length)
    requires forall v :: 0 <= v < keyBuff1.Length ==> keyBuff1[v] == Rank(keyBuff2[..], v)
    modifies keyArray, keyBuff1
    ensures passed && Sorted(keyArray[..]) && multiset(keyArray[..]) == multiset(keyBuff2[..])
  {
    ghost var keys, maxKey := keyBuff2[..], keyBuff1.Length;
    hide Equal, Rank, Slot;
    assert forall v :: 0 <= v < maxKey ==> Equal(keys, v, 0) == 0 && Placed(keyArray[..], keys, v, 0) by {
      NonePlaced(keyArray[..], keys);
    }
    var i := 0;
    while i < keyBuff2.Length
      invariant 0 <= i <= keyBuff2.Length && keyBuff2[..] == keys
      invariant forall v :: 0 <= v < maxKey ==> keyBuff1[v] == Rank(keys, v) - Equal(keys, v, i)
      invariant forall v :: 0 <= v < maxKey ==> Placed(keyArray[..], keys, v, i)
    {
      var k := keyBuff2[i];
      assert k == keys[i];
      SlotInBlock(keys, i);
      SlotIs(keys, i);
      ghost var before := keyArray[..];
      keyBuff1[k] := keyBuff1[k] - 1;
      keyArray[keyBuff1[k]] := k;
      assert keyArray[..] == before[Slot(keys, i) := keys[i]];
      ghost var sorted, done := keyArray[..], i + 1;
      forall v | 0 <= v < maxKey
        ensures Placed(sorted, keys, v, done)
      {
        PlacedStep(before, keys, i, v);
      }
      i := i + 1;
    }
    PlacedSorts(keyArray[..], keys, maxKey);
    var j, p := 0, 1;
    while p < keyArray.Length
      invariant 1 <= p && j == 0
    {
      assert keyArray[..][p - 1] <= keyArray[..][p];
      if keyArray[p - 1] > keyArray[p] {
        j := j + 1;
      }
      p := p + 1;
    }
    passed := j == 0;
  }

  lemma NonePlaced(a: seq<int>, keys: seq<int>)
    requires |a| >= |keys|
    ensures forall v :: Equal(keys, v, 0) == 0 && Placed(a, keys, v, 0)
  {
  }

  lemma SlotIs(keys: seq<int>, i: nat)
    requires i < |keys|
    ensures Slot(keys, i) == Rank(keys, keys[i]) - Equal(keys, keys[i], i) - 1
    ensures forall v :: Equal(keys, v, i + 1) == Equal(keys, v, i) + if v == keys[i] then 1 else 0
    ensures 0 <= Slot(keys, i) < |keys|
  {
    SlotInBlock(keys, i);
  }
}
