/** bomp/benchmark/is.c: the parallel part of rank, with the lock of bomp/lib/spin.h, as a transition system with one
    step for each shared access. The team's barrier is a state of module Barrier. */
module Ranking {
  import B = Barrier
  import opened KeyCounts

  /** What a team ranks: owner[i] is the thread to which the work-sharing loop gives key i. */
  datatype Setup = Setup(n: nat, owner: seq<nat>, maxKey: nat, iterations: nat)

  datatype Pc =
    | PutLow                     // master: the store to key_array[iteration]
    | PutHigh                    // master: the store to key_array[iteration + MAX_ITERATIONS]
    | Clear(k: nat)              // master: key_buff1[k] = 0
    | Bar1
    | Copy(i: nat)               // reads key_array[i], when key i is this thread's
    | Store(i: nat, key: int)    // key_buff2[i] = key_array[i]
    | CountKey(i: nat)           // prv_buff1[key_buff2[i]]++
    | Test                       // bomp_lock: compares the lock word with 0
    | Claim                      // bomp_lock: sets the lock word and looks at what it was
    | Read(v: nat)               // reads key_buff1[v]
    | Write(v: nat, seen: int)   // stores the sum there
    | Release                    // bomp_unlock
    | Bar2
    | Check                      // master: past both barriers, the ranks of this iteration are in key_buff1
    | Done
  {
    predicate Mastered() { PutLow? || PutHigh? || Clear? }
    predicate Holds() { Read? || Write? || Release? }
    predicate Works() { Copy? || Store? || CountKey? || Test? || Claim? || Holds() }
  }

  datatype Thread = Thread(pc: Pc, it: nat, prv: seq<int>)

  datatype State = State(
    keys: seq<int>,
    buff1: seq<int>,
    buff2: seq<int>,
    lock: bool,
    bar: B.State,
    threads: seq<Thread>)
  {
    function Goto(j: nat, pc: Pc): State
      requires j < |threads|
    {
      this.(threads := threads[j := threads[j].(pc := pc)])
    }
  }

  ghost predicate Valid(c: Setup) {
    && c.n > 0 && c.maxKey > 10 && |c.owner| > 20 && 1 <= c.iterations <= 10
    && forall i :: 0 <= i < |c.owner| ==> c.owner[i] < c.n
  }

  /** The arrays hold what they happen to hold, but the keys are keys. */
  ghost predicate Begins(c: Setup, s: State) {
    && |s.keys| == |s.buff2| == |c.owner| && |s.buff1| == c.maxKey && KeysBelow(s.keys, c.maxKey) && !s.lock
    && s.bar == B.Init(c.n)
    && s.threads == seq(c.n, j => Thread(if j == 0 then PutLow else Bar1, 1, []))
  }

  function At(a: seq<int>, i: int): int { if 0 <= i < |a| then a[i] else 0 }
  function Put(a: seq<int>, i: int, x: int): seq<int> { if 0 <= i < |a| then a[i := x] else a }

  predicate Sized(s: State) { |s.threads| == s.bar.N() }

  /** One shared access by thread j; steps on private memory are joined with one. */
  function Step(c: Setup, s: State, j: nat): State
    requires Sized(s) && j < |s.threads|
  {
    var t := s.threads[j];
    match t.pc
    case PutLow => s.(keys := Put(s.keys, t.it, t.it)).Goto(j, PutHigh)
    case PutHigh => s.(keys := Put(s.keys, t.it + 10, c.maxKey - t.it)).Goto(j, Clear(0))
    case Clear(k) => if k < c.maxKey then s.(buff1 := Put(s.buff1, k, 0)).Goto(j, Clear(k + 1)) else s.Goto(j, Bar1)
    case Bar1 =>
      var b := B.Step(s.bar, j);
      var t' := if B.Returned(s.bar, b, j) then Thread(Copy(0), t.it, seq(c.maxKey, _ => 0)) else t;
      s.(bar := b, threads := s.threads[j := t'])
    case Copy(i) =>
      if i >= |c.owner| then s.(threads := s.threads[j := Thread(Test, t.it, RunningSums(t.prv))])
      else if c.owner[i] != j then s.Goto(j, Copy(i + 1))
      else s.Goto(j, Store(i, At(s.keys, i)))
    case Store(i, key) => s.(buff2 := Put(s.buff2, i, key)).Goto(j, CountKey(i))
    case CountKey(i) =>
      var k := At(s.buff2, i);
      s.(threads := s.threads[j := Thread(Copy(i + 1), t.it, Put(t.prv, k, At(t.prv, k) + 1))])
    case Test => if s.lock then s else s.Goto(j, Claim)
    case Claim => if s.lock then s.Goto(j, Test) else s.(lock := true).Goto(j, Read(0))
    case Read(v) => if v < c.maxKey then s.Goto(j, Write(v, At(s.buff1, v))) else s.Goto(j, Release)
    case Write(v, x) => s.(buff1 := Put(s.buff1, v, x + At(t.prv, v))).Goto(j, Read(v + 1))
    case Release => s.(lock := false).Goto(j, Bar2)
    case Bar2 =>
      var b := B.Step(s.bar, j);
      var t' := if !B.Returned(s.bar, b, j) then t else if j == 0 then t.(pc := Check) else Next(c, t, j);
      s.(bar := b, threads := s.threads[j := t'])
    case Check => s.(threads := s.threads[j := Next(c, t, j)])
    case Done => s
  }

  /** The next call of rank, if there is one. */
  function Next(c: Setup, t: Thread, j: nat): Thread {
    if t.it < c.iterations then Thread(if j == 0 then PutLow else Bar1, t.it + 1, t.prv) else t.(pc := Done)
  }

  // ---------- The invariant ----------

  /** The iteration the master is in. */
  function Epoch(s: State): nat
    requires |s.threads| > 0
  {
    s.threads[0].it
  }

  /** The place of thread j agrees with how often it has left the barrier. */
  ghost predicate PlaceInv(c: Setup, t: Thread, b: B.Thread, j: nat) {
    && 1 <= t.it <= c.iterations
    && (t.pc.Mastered() ==> j == 0 && b.left == 2 * t.it - 2 && b.phase.Idle?)
    && (t.pc.Bar1? ==> b.left == 2 * t.it - 2)
    && (t.pc.Works() ==> b.left == 2 * t.it - 1 && b.phase.Idle?)
    && (t.pc.Bar2? ==> b.left == 2 * t.it - 1)
    && (t.pc.Check? ==> j == 0 && b.left == 2 * t.it && b.phase.Idle?)
    && (t.pc.Done? ==> b.left == 2 * t.it && b.phase.Idle? && t.it == c.iterations)
  }

  /** Thread t has copied key i in iteration e; has merged its count for v. */
  predicate Copied(t: Thread, e: nat, i: nat) {
    t.it > e || (t.it == e && match t.pc
                              case Copy(w) => i < w
                              case Store(w, _) => i < w
                              case CountKey(w) => i <= w
                              case _ => !t.pc.Mastered() && !t.pc.Bar1?)
  }

  predicate Merged(t: Thread, e: nat, v: int) {
    t.it > e || (t.it == e && match t.pc
                              case Read(w) => v < w
                              case Write(w, _) => v < w
                              case _ => t.pc.Release? || t.pc.Bar2? || t.pc.Check? || t.pc.Done?)
  }

  /** What thread j has computed so far agrees with the keys. */
  ghost predicate DataInv(c: Setup, keys: seq<int>, buff1: seq<int>, buff2: seq<int>, e: nat, t: Thread, j: nat)
    requires |keys| == |buff2| == |c.owner| && |buff1| == c.maxKey
  {
    && (forall i :: 0 <= i < |keys| && c.owner[i] == j && Copied(t, e, i) ==> buff2[i] == keys[i])
    && (t.pc.Works() ==> |t.prv| == c.maxKey)
    && (match t.pc
        case Copy(i) => i <= |keys| && forall v :: 0 <= v < c.maxKey ==> t.prv[v] == OwnEqual(keys, c.owner, j, v, i)
        case Store(i, key) =>
          && i < |keys| && c.owner[i] == j && key == keys[i]
          && forall v :: 0 <= v < c.maxKey ==> t.prv[v] == OwnEqual(keys, c.owner, j, v, i)
        case CountKey(i) =>
          && i < |keys| && c.owner[i] == j
          && forall v :: 0 <= v < c.maxKey ==> t.prv[v] == OwnEqual(keys, c.owner, j, v, i)
        case Clear(k) => k <= c.maxKey
        case Read(v) => v <= c.maxKey
        case Write(v, x) => v < c.maxKey && x == buff1[v]
        case _ => true)
    && (t.pc.Test? || t.pc.Claim? || t.pc.Holds() ==>
          forall v :: 0 <= v < c.maxKey ==> t.prv[v] == OwnAtMost(keys, c.owner, j, v, |keys|))
  }

  /** The counts for v that the first n threads have merged. */
  function Sum(c: Setup, keys: seq<int>, threads: seq<Thread>, e: nat, v: int, n: nat): nat
    requires |keys| == |c.owner| && n <= |threads|
  {
    if n == 0 then 0
    else
      Sum(c, keys, threads, e, v, n - 1)
      + if Merged(threads[n - 1], e, v) then OwnAtMost(keys, c.owner, n - 1, v, |keys|) else 0
  }

  /** key_buff1 has been cleared below this value for the master's iteration. */
  function Cleared(c: Setup, t: Thread): nat {
    if t.pc.PutLow? || t.pc.PutHigh? then 0 else if t.pc.Clear? then t.pc.k else c.maxKey
  }

  ghost predicate Shapes(c: Setup, s: State) {
    && |s.keys| == |s.buff2| == |c.owner| && |s.buff1| == c.maxKey && |s.threads| == s.bar.N() == c.n
    && B.Inv(s.bar) && KeysBelow(s.keys, c.maxKey)
  }

  ghost predicate ThreadInv(c: Setup, s: State, j: nat)
    requires Valid(c) && Shapes(c, s) && j < c.n
  {
    && PlaceInv(c, s.threads[j], s.bar.threads[j], j)
    && DataInv(c, s.keys, s.buff1, s.buff2, Epoch(s), s.threads[j], j)
  }

  ghost predicate LockInv(s: State) {
    && (forall j :: 0 <= j < |s.threads| && s.threads[j].pc.Holds() ==> s.lock)
    && (forall j, k ::
          0 <= j < |s.threads| && 0 <= k < |s.threads| && s.threads[j].pc.Holds() && s.threads[k].pc.Holds() ==>
            j == k)
  }

  ghost predicate SumInv(c: Setup, s: State)
    requires Valid(c) && Shapes(c, s)
  {
    forall v :: 0 <= v < c.maxKey && v < Cleared(c, s.threads[0]) ==>
         s.buff1[v] == Sum(c, s.keys, s.threads, Epoch(s), v, c.n)
  }

  ghost predicate Inv(c: Setup, s: State) {
    Valid(c) && Shapes(c, s) && LockInv(s) && SumInv(c, s) && forall j :: 0 <= j < c.n ==> ThreadInv(c, s, j)
  }

  /** How far thread j can be from the master. */
  ghost predicate Near(c: Setup, s: State, j: nat)
    requires Valid(c) && Shapes(c, s) && j < c.n
  {
    var t, m := s.threads[j], s.threads[0];
    && (t.it == m.it || (t.it == m.it + 1 && t.pc.Bar1?) || (t.it + 1 == m.it && t.pc.Bar2?))
    && (m.pc.Mastered() && j > 0 ==> t.pc.Bar1? || t.pc.Bar2?)
    && (m.pc.Mastered() && j > 0 ==> (t.pc.Bar1? <==> t.it == m.it))
    && (t.pc.Works() ==> !m.pc.Check? && !m.pc.Done?)
    && (m.pc.Check? && j > 0 ==> (t.it == m.it && (t.pc.Bar2? || t.pc.Done?)) || (t.it == m.it + 1 && t.pc.Bar1?))
  }

  /** This is where the barrier's safety comes in. */
  lemma Nearness(c: Setup, s: State, j: nat)
    requires Inv(c, s) && j < c.n
    ensures Near(c, s, j)
  {
    B.InvIsSafe(s.bar);
    assert ThreadInv(c, s, j) && ThreadInv(c, s, 0);
    var b, b0 := s.bar.threads[j], s.bar.threads[0];
    assert B.ThreadOk(b, s.bar.flips, s.bar.cycle) && B.ThreadOk(b0, s.bar.flips, s.bar.cycle);
    assert b.left <= b0.arrived && b0.left <= b.arrived && b.left <= b0.left + 1 && b0.left <= b.left + 1;
    hide DataInv, LockInv, SumInv, B.Inv;
  }

  // ---------- Sums ----------

  lemma {:induction false} SumSame(c: Setup, keys: seq<int>, ts: seq<Thread>, ts': seq<Thread>, e: nat, v: int, n: nat)
    requires |keys| == |c.owner| && n <= |ts| == |ts'|
    requires forall k :: 0 <= k < n ==> (Merged(ts[k], e, v) <==> Merged(ts'[k], e, v))
    ensures Sum(c, keys, ts, e, v, n) == Sum(c, keys, ts', e, v, n)
  {
    hide Merged;
    if n > 0 {
      SumSame(c, keys, ts, ts', e, v, n - 1);
    }
  }

  lemma {:induction false} SumAdds(c: Setup, keys: seq<int>, ts: seq<Thread>, ts': seq<Thread>, e: nat, v: int,
                                   n: nat, j: nat)
    requires |keys| == |c.owner| && j < n <= |ts| == |ts'|
    requires forall k :: 0 <= k < n && k != j ==> (Merged(ts[k], e, v) <==> Merged(ts'[k], e, v))
    requires !Merged(ts[j], e, v) && Merged(ts'[j], e, v)
    ensures Sum(c, keys, ts', e, v, n) == Sum(c, keys, ts, e, v, n) + OwnAtMost(keys, c.owner, j, v, |keys|)
  {
    hide Merged;
    if n - 1 == j {
      SumSame(c, keys, ts, ts', e, v, n - 1);
    } else {
      SumAdds(c, keys, ts, ts', e, v, n - 1, j);
    }
  }

  lemma {:induction false} SumNone(c: Setup, keys: seq<int>, ts: seq<Thread>, e: nat, v: int, n: nat)
    requires |keys| == |c.owner| && n <= |ts| && forall k :: 0 <= k < n ==> !Merged(ts[k], e, v)
    ensures Sum(c, keys, ts, e, v, n) == 0
  {
    hide Merged;
    if n > 0 {
      SumNone(c, keys, ts, e, v, n - 1);
    }
  }

  lemma {:induction false} SumAll(c: Setup, keys: seq<int>, ts: seq<Thread>, e: nat, v: int, n: nat)
    requires |keys| == |c.owner| && n <= |ts| && forall k :: 0 <= k < n ==> Merged(ts[k], e, v)
    ensures Sum(c, keys, ts, e, v, n) == AllAtMost(keys, c.owner, n, v)
  {
    hide Merged;
    if n > 0 {
      SumAll(c, keys, ts, e, v, n - 1);
    }
  }

  // ---------- Each kind of step keeps the invariant ----------

  /** Thread j may go on as t' without touching shared data other than the barrier. */
  ghost predicate MayGo(c: Setup, s: State, j: nat, b: B.State, t': Thread)
    requires Valid(c) && Shapes(c, s) && j < c.n
  {
    && B.Inv(b) && b.N() == c.n && (forall k :: 0 <= k < c.n && k != j ==> b.threads[k] == s.bar.threads[k])
    && PlaceInv(c, t', b.threads[j], j) && DataInv(c, s.keys, s.buff1, s.buff2, Epoch(s), t', j)
    && (t'.pc.Holds() ==> s.threads[j].pc.Holds())
    && (j == 0 ==> t'.it == s.threads[0].it && Cleared(c, t') == Cleared(c, s.threads[0]))
    && forall v :: 0 <= v < c.maxKey ==> (Merged(t', Epoch(s), v) <==> Merged(s.threads[j], Epoch(s), v))
  }

  lemma Goes(c: Setup, s: State, j: nat, b: B.State, t': Thread)
    requires Inv(c, s) && j < c.n && MayGo(c, s, j, b, t')
    ensures Inv(c, s.(bar := b, threads := s.threads[j := t']))
  {
    hide PlaceInv, DataInv, Merged, B.Inv, Cleared;
    var s' := s.(bar := b, threads := s.threads[j := t']);
    forall k | 0 <= k < c.n
      ensures ThreadInv(c, s', k)
    {
      assert ThreadInv(c, s, k);
    }
    forall v | 0 <= v < c.maxKey && v < Cleared(c, s'.threads[0])
      ensures s'.buff1[v] == Sum(c, s'.keys, s'.threads, Epoch(s'), v, c.n)
    {
      SumSame(c, s.keys, s.threads, s'.threads, Epoch(s), v, c.n);
    }
  }

  /** Steps that touch no shared data: the thread's own counting, testing the lock, reading. */
  lemma PrivateStep(c: Setup, s: State, j: nat)
    requires Inv(c, s) && j < c.n
    requires match s.threads[j].pc
             case Copy(_) => true
             case CountKey(_) => true
             case Test => true
             case Claim => s.lock
             case Read(_) => true
             case Clear(k) => k >= c.maxKey
             case _ => false
    ensures Inv(c, Step(c, s, j))
  {
    var t' := Step(c, s, j).threads[j];
    assert Step(c, s, j) == s.(bar := s.bar, threads := s.threads[j := t']) by { hide Inv, RunningSums; }
    if s.threads[j].pc.Copy? {
      if s.threads[j].pc.i < |c.owner| {
        CopyMayGo(c, s, j);
      } else {
        SumMayGo(c, s, j);
      }
    } else if s.threads[j].pc.CountKey? {
      CountMayGo(c, s, j);
    } else {
      OtherMayGo(c, s, j);
    }
    hide MayGo, Inv, Step;
    Goes(c, s, j, s.bar, t');
  }

  lemma CountMayGo(c: Setup, s: State, j: nat)
    requires Inv(c, s) && j < c.n && s.threads[j].pc.CountKey?
    ensures MayGo(c, s, j, s.bar, Step(c, s, j).threads[j])
  {
    assert ThreadInv(c, s, j);
    KeyCounted(c, s, j);
    hide B.Inv, LockInv, SumInv, OwnEqual, OwnAtMost, RunningSums, Put, At;
  }

  /** A thread passes over a key, or reads one of its own. */
  lemma CopyMayGo(c: Setup, s: State, j: nat)
    requires Inv(c, s) && j < c.n && s.threads[j].pc.Copy? && s.threads[j].pc.i < |c.owner|
    ensures MayGo(c, s, j, s.bar, Step(c, s, j).threads[j])
  {
    assert ThreadInv(c, s, j);
    hide B.Inv, LockInv, SumInv, OwnAtMost, RunningSums, Put;
  }

  lemma SumMayGo(c: Setup, s: State, j: nat)
    requires Inv(c, s) && j < c.n && s.threads[j].pc.Copy? && s.threads[j].pc.i >= |c.owner|
    ensures MayGo(c, s, j, s.bar, Step(c, s, j).threads[j])
  {
    assert ThreadInv(c, s, j);
    CountsSummed(c, s, j);
    hide B.Inv, LockInv, SumInv, OwnAtMost, OwnEqual, RunningSums, Put, At;
  }

  lemma OtherMayGo(c: Setup, s: State, j: nat)
    requires Inv(c, s) && j < c.n
    requires match s.threads[j].pc
             case Test => true
             case Claim => s.lock
             case Read(_) => true
             case Clear(k) => k >= c.maxKey
             case _ => false
    ensures MayGo(c, s, j, s.bar, Step(c, s, j).threads[j])
  {
    assert ThreadInv(c, s, j);
    hide B.Inv, LockInv, SumInv, OwnEqual, OwnAtMost;
  }

  lemma CountsSummed(c: Setup, s: State, j: nat)
    requires Inv(c, s) && j < c.n && s.threads[j].pc.Copy? && s.threads[j].pc.i >= |c.owner|
    ensures |s.threads[j].prv| == c.maxKey
    ensures forall v :: 0 <= v < c.maxKey ==>
              RunningSums(s.threads[j].prv)[v] == OwnAtMost(s.keys, c.owner, j, v, |s.keys|)
  {
    assert ThreadInv(c, s, j);
    forall v | 0 <= v < c.maxKey
      ensures RunningSums(s.threads[j].prv)[v] == OwnAtMost(s.keys, c.owner, j, v, |s.keys|)
    {
      SumsOfCounts(s.threads[j].prv, s.keys, c.owner, j, v + 1);
    }
  }

  lemma KeyCounted(c: Setup, s: State, j: nat)
    requires Inv(c, s) && j < c.n && s.threads[j].pc.CountKey?
    ensures s.threads[j].pc.i < |s.keys| && |Step(c, s, j).threads[j].prv| == c.maxKey
    ensures forall v :: 0 <= v < c.maxKey ==>
              Step(c, s, j).threads[j].prv[v] == OwnEqual(s.keys, c.owner, j, v, s.threads[j].pc.i + 1)
  {
    assert ThreadInv(c, s, j);
    var i := s.threads[j].pc.i;
    Nearness(c, s, j);
    assert Copied(s.threads[j], Epoch(s), i);
  }

  lemma BarrierStep(c: Setup, s: State, j: nat)
    requires Inv(c, s) && j < c.n && (s.threads[j].pc.Bar1? || s.threads[j].pc.Bar2?)
    ensures Inv(c, Step(c, s, j))
  {
    assert ThreadInv(c, s, j);
    B.StepEffect(s.bar, j);
    var b := B.Step(s.bar, j);
    var t, t' := s.threads[j], Step(c, s, j).threads[j];
    if B.Returned(s.bar, b, j) {
      if t.pc.Bar1? {
        LeavesBar1(c, s, j);
      } else {
        LeavesBar2(c, s, j);
      }
    } else {
      assert MayGo(c, s, j, b, t) by { hide DataInv, B.Inv, LockInv, SumInv, Merged; }
    }
    assert Step(c, s, j) == s.(bar := b, threads := s.threads[j := t']) by {
      hide B.Step, B.Returned, Inv, ThreadInv, MayGo;
    }
    hide MayGo, Inv, Step, B.Step, B.Returned;
    Goes(c, s, j, b, t');
  }

  lemma LeavesBar1(c: Setup, s: State, j: nat)
    requires Inv(c, s) && j < c.n && s.threads[j].pc.Bar1? && B.Returned(s.bar, B.Step(s.bar, j), j)
    ensures MayGo(c, s, j, B.Step(s.bar, j), Step(c, s, j).threads[j])
  {
    assert ThreadInv(c, s, j);
    B.StepEffect(s.bar, j);
    var b := B.Step(s.bar, j);
    hide B.Inv, B.Step, LockInv, SumInv;
  }

  lemma LeavesBar2(c: Setup, s: State, j: nat)
    requires Inv(c, s) && j < c.n && s.threads[j].pc.Bar2? && B.Returned(s.bar, B.Step(s.bar, j), j)
    ensures MayGo(c, s, j, B.Step(s.bar, j), Step(c, s, j).threads[j])
  {
    NextPlace(c, s, j);
    assert ThreadInv(c, s, j);
    B.StepEffect(s.bar, j);
    hide B.Inv, B.Step, LockInv, SumInv, OwnAtMost, OwnEqual, Step, Next;
  }

  /** After the second barrier the master looks at the ranks, and the others start the next call, if any. */
  lemma NextPlace(c: Setup, s: State, j: nat)
    requires Inv(c, s) && j < c.n && s.threads[j].pc.Bar2? && B.Returned(s.bar, B.Step(s.bar, j), j)
    ensures var t, t' := s.threads[j], Step(c, s, j).threads[j];
            if j == 0 then t' == t.(pc := Check)
            else if t.it < c.iterations then t' == Thread(Bar1, t.it + 1, t.prv) else t' == t.(pc := Done)
    ensures s.threads[j].it == Epoch(s) || s.threads[j].it + 1 == Epoch(s) <= c.iterations
  {
    assert ThreadInv(c, s, j) && ThreadInv(c, s, 0);
    Nearness(c, s, j);
    hide B.Inv, B.Step, LockInv, SumInv, DataInv, Merged, Copied;
  }

  /** The lock is free, so nobody holds it: this thread may. */
  lemma ClaimStep(c: Setup, s: State, j: nat)
    requires Inv(c, s) && j < c.n && s.threads[j].pc.Claim? && !s.lock
    ensures Inv(c, Step(c, s, j))
  {
    var s' := Step(c, s, j);
    forall k | 0 <= k < c.n
      ensures ThreadInv(c, s', k)
    {
      assert ThreadInv(c, s, k);
    }
    forall v | 0 <= v < c.maxKey && v < Cleared(c, s'.threads[0])
      ensures s'.buff1[v] == Sum(c, s'.keys, s'.threads, Epoch(s'), v, c.n)
    {
      SumSame(c, s.keys, s.threads, s'.threads, Epoch(s), v, c.n);
    }
  }

  /** Only the holder releases it. */
  lemma ReleaseStep(c: Setup, s: State, j: nat)
    requires Inv(c, s) && j < c.n && s.threads[j].pc.Release?
    ensures Inv(c, Step(c, s, j))
  {
    var s' := Step(c, s, j);
    assert s.threads[j].pc.Holds();
    forall k | 0 <= k < c.n
      ensures ThreadInv(c, s', k)
    {
      assert ThreadInv(c, s, k);
    }
    forall v | 0 <= v < c.maxKey && v < Cleared(c, s'.threads[0])
      ensures s'.buff1[v] == Sum(c, s'.keys, s'.threads, Epoch(s'), v, c.n)
    {
      SumSame(c, s.keys, s.threads, s'.threads, Epoch(s), v, c.n);
    }
  }

  /** A thread stores only keys that are its own, and the key has not been replaced since it was read. */
  lemma StoreStep(c: Setup, s: State, j: nat)
    requires Inv(c, s) && j < c.n && s.threads[j].pc.Store?
    ensures Inv(c, Step(c, s, j))
  {
    var s' := Step(c, s, j);
    assert ThreadInv(c, s, j);
    forall k | 0 <= k < c.n
      ensures ThreadInv(c, s', k)
    {
      assert ThreadInv(c, s, k);
    }
    forall v | 0 <= v < c.maxKey && v < Cleared(c, s'.threads[0])
      ensures s'.buff1[v] == Sum(c, s'.keys, s'.threads, Epoch(s'), v, c.n)
    {
      SumSame(c, s.keys, s.threads, s'.threads, Epoch(s), v, c.n);
    }
  }

  /** A thread adds its count for one value; nobody else writes to key_buff1 meanwhile. */
  lemma WriteStep(c: Setup, s: State, j: nat)
    requires Inv(c, s) && j < c.n && s.threads[j].pc.Write?
    ensures Inv(c, Step(c, s, j))
  {
    var s' := Step(c, s, j);
    var w := s.threads[j].pc.v;
    assert s.threads[j].pc.Holds() && ThreadInv(c, s, j);
    Nearness(c, s, j);
    forall k | 0 <= k < c.n
      ensures ThreadInv(c, s', k)
    {
      assert ThreadInv(c, s, k);
    }
    forall v | 0 <= v < c.maxKey && v < Cleared(c, s'.threads[0])
      ensures s'.buff1[v] == Sum(c, s'.keys, s'.threads, Epoch(s'), v, c.n)
    {
      if v == w && s.threads[j].it == Epoch(s) {
        SumAdds(c, s.keys, s.threads, s'.threads, Epoch(s), v, c.n, j);
      } else {
        SumSame(c, s.keys, s.threads, s'.threads, Epoch(s), v, c.n);
      }
    }
  }

  /** While the master prepares an iteration, no other thread has begun it or is still at the last one. */
  lemma OthersWait(c: Setup, s: State, j: nat)
    requires Inv(c, s) && s.threads[0].pc.Mastered() && 0 < j < c.n
    ensures !s.threads[j].pc.Works() && !s.threads[j].pc.Mastered() && !s.threads[j].pc.Check? && !s.threads[j].pc.Done?
    ensures forall i :: !Copied(s.threads[j], Epoch(s), i)
    ensures forall v :: !Merged(s.threads[j], Epoch(s), v)
  {
    Nearness(c, s, j);
  }

  /** The master stores a new key. */
  lemma PutStep(c: Setup, s: State, j: nat)
    requires Inv(c, s) && j < c.n && (s.threads[j].pc.PutLow? || s.threads[j].pc.PutHigh?)
    ensures Inv(c, Step(c, s, j))
  {
    var s' := Step(c, s, j);
    assert ThreadInv(c, s, j);
    forall k | 0 <= k < c.n
      ensures ThreadInv(c, s', k)
    {
      assert ThreadInv(c, s, k);
      if k > 0 {
        OthersWait(c, s, k);
      }
    }
  }

  /** The master clears one element of key_buff1. */
  lemma ClearStep(c: Setup, s: State, j: nat)
    requires Inv(c, s) && j < c.n && s.threads[j].pc.Clear? && s.threads[j].pc.k < c.maxKey
    ensures Inv(c, Step(c, s, j))
  {
    var s' := Step(c, s, j);
    assert ThreadInv(c, s, j);
    forall k | 0 <= k < c.n
      ensures ThreadInv(c, s', k)
    {
      assert ThreadInv(c, s, k);
      if k > 0 {
        OthersWait(c, s, k);
      }
    }
    forall v | 0 <= v < c.maxKey && v < Cleared(c, s'.threads[0])
      ensures s'.buff1[v] == Sum(c, s'.keys, s'.threads, Epoch(s'), v, c.n)
    {
      forall k | 0 <= k < c.n
        ensures !Merged(s.threads[k], Epoch(s), v)
      {
        if k > 0 {
          OthersWait(c, s, k);
        }
      }
      SumSame(c, s.keys, s.threads, s'.threads, Epoch(s), v, c.n);
      SumNone(c, s.keys, s.threads, Epoch(s), v, c.n);
    }
  }

  /** The master goes on to the next iteration, in which nobody has copied or merged anything yet. */
  lemma CheckStep(c: Setup, s: State, j: nat)
    requires Inv(c, s) && j < c.n && s.threads[j].pc.Check?
    ensures Inv(c, Step(c, s, j))
  {
    var s' := Step(c, s, j);
    assert ThreadInv(c, s, j);
    forall k | 0 <= k < c.n
      ensures ThreadInv(c, s', k)
    {
      assert ThreadInv(c, s, k);
      Nearness(c, s, k);
    }
    forall v | 0 <= v < c.maxKey && v < Cleared(c, s'.threads[0])
      ensures s'.buff1[v] == Sum(c, s'.keys, s'.threads, Epoch(s'), v, c.n)
    {
      SumSame(c, s.keys, s.threads, s'.threads, Epoch(s), v, c.n);
    }
  }

  lemma StepInv(c: Setup, s: State, j: nat)
    requires Inv(c, s) && j < c.n
    ensures Inv(c, Step(c, s, j))
  {
    hide Step, ThreadInv, LockInv, SumInv;
    match s.threads[j].pc
    case PutLow => PutStep(c, s, j);
    case PutHigh => PutStep(c, s, j);
    case Clear(k) => if k < c.maxKey { ClearStep(c, s, j); } else { PrivateStep(c, s, j); }
    case Bar1 => BarrierStep(c, s, j);
    case Bar2 => BarrierStep(c, s, j);
    case Copy(_) => PrivateStep(c, s, j);
    case Store(_, _) => StoreStep(c, s, j);
    case CountKey(_) => PrivateStep(c, s, j);
    case Test => PrivateStep(c, s, j);
    case Claim => if s.lock { PrivateStep(c, s, j); } else { ClaimStep(c, s, j); }
    case Read(_) => PrivateStep(c, s, j);
    case Write(_, _) => WriteStep(c, s, j);
    case Release => ReleaseStep(c, s, j);
    case Check => CheckStep(c, s, j);
    case Done => DoneStays(c, s, j);
  }

  lemma DoneStays(c: Setup, s: State, j: nat)
    requires Sized(s) && j < |s.threads| && s.threads[j].pc.Done?
    ensures Step(c, s, j) == s
  {
  }

  // ---------- All runs ----------

  lemma SizedStep(c: Setup, s: State, j: nat)
    requires Sized(s) && j < |s.threads|
    ensures Sized(Step(c, s, j)) && |Step(c, s, j).threads| == |s.threads|
  {
  }

  function Run(c: Setup, s: State, sched: seq<nat>): (r: State)
    requires Sized(s) && B.IsSchedule(|s.threads|, sched)
    ensures Sized(r) && |r.threads| == |s.threads|
  {
    if sched == [] then s
    else
      var before := Run(c, s, sched[..|sched| - 1]);
      SizedStep(c, before, sched[|sched| - 1]);
      Step(c, before, sched[|sched| - 1])
  }

  lemma InitInv(c: Setup, s: State)
    requires Valid(c) && Begins(c, s)
    ensures Inv(c, s)
  {
    B.InitInv(c.n);
  }

  lemma {:induction false} RunInv(c: Setup, s: State, sched: seq<nat>)
    requires Inv(c, s) && B.IsSchedule(|s.threads|, sched)
    ensures Inv(c, Run(c, s, sched))
  {
    assert Sized(s);
    hide Inv, Step;
    if sched != [] {
      RunInv(c, s, sched[..|sched| - 1]);
      SameSize(c, s, Run(c, s, sched[..|sched| - 1]));
      StepInv(c, Run(c, s, sched[..|sched| - 1]), sched[|sched| - 1]);
    }
  }

  lemma SameSize(c: Setup, s: State, s': State)
    requires Inv(c, s) && Inv(c, s')
    ensures |s.threads| == |s'.threads| == c.n
  {
  }

  /** The keys at iteration e: each iteration has replaced two of them. */
  function KeysAt(c: Setup, keys: seq<int>, e: nat): seq<int> {
    if e == 0 then keys else Put(Put(KeysAt(c, keys, e - 1), e, e), e + 10, c.maxKey - e)
  }

  /** The keys as the master has them at its place. */
  function KeysNow(c: Setup, keys: seq<int>, m: Thread): seq<int> {
    if m.it == 0 then keys
    else if m.pc.PutLow? then KeysAt(c, keys, m.it - 1)
    else if m.pc.PutHigh? then Put(KeysAt(c, keys, m.it - 1), m.it, m.it)
    else KeysAt(c, keys, m.it)
  }

  lemma KeysStep(c: Setup, keys: seq<int>, s: State, j: nat)
    requires Inv(c, s) && j < c.n && s.keys == KeysNow(c, keys, s.threads[0])
    ensures Step(c, s, j).keys == KeysNow(c, keys, Step(c, s, j).threads[0])
  {
    assert ThreadInv(c, s, j) && s.threads[0].it >= 1 by { assert ThreadInv(c, s, 0); }
    assert j > 0 ==> !s.threads[j].pc.Mastered();
    hide Inv, ThreadInv;
    if j == 0 {
      MasterKeys(c, keys, s);
    } else {
      WorkerKeys(c, s, j);
    }
  }

  lemma MasterKeys(c: Setup, keys: seq<int>, s: State)
    requires Sized(s) && |s.threads| > 0 && s.threads[0].it >= 1 && s.keys == KeysNow(c, keys, s.threads[0])
    ensures Step(c, s, 0).keys == KeysNow(c, keys, Step(c, s, 0).threads[0])
  {
    hide B.Step, Put, At, RunningSums;
  }

  lemma WorkerKeys(c: Setup, s: State, j: nat)
    requires Sized(s) && 0 < j < |s.threads| && !s.threads[j].pc.Mastered()
    ensures Step(c, s, j).keys == s.keys && Step(c, s, j).threads[0] == s.threads[0]
  {
    hide B.Step, Put, At, RunningSums;
  }

  lemma {:induction false} RunKeys(c: Setup, s: State, sched: seq<nat>)
    requires Valid(c) && Begins(c, s) && B.IsSchedule(|s.threads|, sched)
    ensures Run(c, s, sched).keys == KeysNow(c, s.keys, Run(c, s, sched).threads[0])
  {
    InitInv(c, s);
    if sched != [] {
      var before := Run(c, s, sched[..|sched| - 1]);
      RunInv(c, s, sched[..|sched| - 1]);
      RunKeys(c, s, sched[..|sched| - 1]);
      hide Inv, Step, Begins;
      SameSize(c, s, before);
      KeysStep(c, s.keys, before, sched[|sched| - 1]);
    }
  }

  /** The keys in iteration e of sequential execution, from the ones at first: places 1 to e hold their own numbers,
      places 11 to 10 + e hold maxKey - 1 to maxKey - e. */
  ghost predicate SequentialKeys(c: Setup, keys: seq<int>, now: seq<int>, e: nat) {
    && |now| == |keys|
    && forall i :: 0 <= i < |keys| ==>
         now[i] == if 1 <= i <= e then i else if 11 <= i <= 10 + e then c.maxKey - (i - 10) else keys[i]
  }

  lemma {:induction false} KeysAtIsSequential(c: Setup, keys: seq<int>, e: nat)
    requires |keys| > 20 && e <= 10
    ensures SequentialKeys(c, keys, KeysAt(c, keys, e), e)
  {
    if e > 0 {
      KeysAtIsSequential(c, keys, e - 1);
    }
  }

  /** The sequential result: the ranks of the keys of this iteration, and a copy of the keys. */
  ghost predicate Ranked(c: Setup, s: State, keys: seq<int>) {
    && s.buff2 == s.keys == keys && KeysBelow(keys, c.maxKey) && |s.buff1| == c.maxKey
    && forall v :: 0 <= v < c.maxKey ==> s.buff1[v] == Rank(keys, v)
  }

  /** Past the second barrier every thread has merged its counts and copied its keys. */
  lemma CheckedIsRanked(c: Setup, s: State)
    requires Inv(c, s) && (s.threads[0].pc.Check? || s.threads[0].pc.Done?)
    ensures Ranked(c, s, s.keys)
  {
    forall k | 0 <= k < c.n
      ensures forall i :: 0 <= i < |s.keys| ==> Copied(s.threads[k], Epoch(s), i)
      ensures forall v :: Merged(s.threads[k], Epoch(s), v)
    {
      AllDone(c, s, k);
    }
    forall i | 0 <= i < |s.keys|
      ensures s.buff2[i] == s.keys[i]
    {
      assert ThreadInv(c, s, c.owner[i]) && Copied(s.threads[c.owner[i]], Epoch(s), i);
    }
    forall v | 0 <= v < c.maxKey
      ensures s.buff1[v] == Rank(s.keys, v)
    {
      SumAll(c, s.keys, s.threads, Epoch(s), v, c.n);
      PartsAddUp(s.keys, c.owner, c.n, v);
    }
  }

  lemma AllDone(c: Setup, s: State, k: nat)
    requires Inv(c, s) && (s.threads[0].pc.Check? || s.threads[0].pc.Done?) && k < c.n
    ensures forall i :: Copied(s.threads[k], Epoch(s), i)
    ensures forall v :: Merged(s.threads[k], Epoch(s), v)
  {
    B.InvIsSafe(s.bar);
    assert ThreadInv(c, s, k) && ThreadInv(c, s, 0);
    Nearness(c, s, k);
    assert s.bar.threads[0].left <= s.bar.threads[k].arrived <= s.bar.threads[k].left + 1 by {
      assert B.ThreadOk(s.bar.threads[k], s.bar.flips, s.bar.cycle);
    }
    hide B.Inv, DataInv, LockInv, SumInv;
  }

  /** For every number of threads, every partition of the keys and every interleaving: whenever the master is past the
      second barrier, and when it has finished, key_buff1 holds the ranks that sequential counting gives for the keys
      of that iteration; at most one thread is in the critical section; and while the master prepares an iteration no
      other thread is between the barriers. */
  ghost predicate Good(c: Setup, keys: seq<int>, s: State)
    requires |s.threads| > 0
  {
    && (s.threads[0].pc.Check? || s.threads[0].pc.Done? ==>
          Ranked(c, s, KeysAt(c, keys, s.threads[0].it)) && SequentialKeys(c, keys, s.keys, s.threads[0].it)
          && forall v :: 0 <= v < c.maxKey ==> s.buff1[v] == |PlacesAtMost(s.keys, v, |s.keys|)|)
    && (s.threads[0].pc.Done? ==> s.threads[0].it == c.iterations)
    && (forall j, k ::
          0 <= j < |s.threads| && 0 <= k < |s.threads| && s.threads[j].pc.Holds() && s.threads[k].pc.Holds() ==>
            j == k)
    && (forall j :: 0 <= j < |s.threads| && s.threads[0].pc.Mastered() ==> !s.threads[j].pc.Works())
  }

  lemma {:induction false} RankingRefines(c: Setup, s: State, sched: seq<nat>)
    requires Valid(c) && Begins(c, s) && B.IsSchedule(|s.threads|, sched)
    ensures |s.threads| > 0 && Good(c, s.keys, Run(c, s, sched))
  {
    InitInv(c, s);
    RunInv(c, s, sched);
    RunKeys(c, s, sched);
    var r := Run(c, s, sched);
    SameSize(c, s, r);
    assert ThreadInv(c, r, 0);
    if r.threads[0].pc.Check? || r.threads[0].pc.Done? {
      CheckedIsRanked(c, r);
      KeysAtIsSequential(c, s.keys, r.threads[0].it);
      forall v | 0 <= v < c.maxKey
        ensures r.buff1[v] == |PlacesAtMost(r.keys, v, |r.keys|)|
      {
        RankIsCardinality(r.keys, v);
      }
    }
    forall j | 0 <= j < c.n && r.threads[0].pc.Mastered()
      ensures !r.threads[j].pc.Works()
    {
      if j > 0 {
        OthersWait(c, r, j);
      }
    }
    hide Begins, Shapes, SumInv, DataInv, PlaceInv, Ranked;
  }
}
