/** bomp/benchmark/is.c: every call of rank finishes. Whatever the schedule, as long as every thread keeps getting
    steps, all threads leave all barriers, get the lock, and complete all iterations. */
module RankingProgress {
  import B = Barrier
  import opened Arith
  import opened KeyCounts
  import opened Ranking

  // ---------- How much a thread has left to do ----------

  function Lap(c: Setup): nat { 20 + 3 * c.maxKey + 3 * |c.owner| }

  /** The iterations after this one. */
  function Laps(c: Setup, it: nat): nat
    decreases Minus(c.iterations, it)
  {
    if it >= c.iterations then 0 else Lap(c) + Laps(c, it + 1)
  }

  /** What is left of this iteration. */
  function InLap(c: Setup, pc: Pc, p: B.Phase): nat {
    var merge, count := 2 * c.maxKey, 3 * |c.owner|;
    match pc
    case Done => 0
    case Check => 1
    case Bar2 => 1 + B.Wait(p)
    case Release => 7
    case Read(v) => 8 + 2 * Minus(c.maxKey, v)
    case Write(v, _) => 7 + 2 * Minus(c.maxKey, v)
    case Claim => 9 + merge
    case Test => 9 + merge
    case Copy(i) => 10 + merge + 3 * Minus(|c.owner|, i)
    case Store(i, _) => 9 + merge + 3 * Minus(|c.owner|, i)
    case CountKey(i) => 8 + merge + 3 * Minus(|c.owner|, i)
    case Bar1 => 10 + merge + count + B.Wait(p)
    case Clear(k) => 16 + merge + count + Minus(c.maxKey, k)
    case PutHigh => 17 + merge + count + c.maxKey
    case PutLow => 18 + merge + count + c.maxKey
  }

  function Left(c: Setup, s: State, j: nat): nat
    requires Sized(s) && j < |s.threads|
  {
    Laps(c, s.threads[j].it) + InLap(c, s.threads[j].pc, s.bar.threads[j].phase)
  }

  function Measure(c: Setup, s: State, n: nat): nat
    requires Sized(s) && n <= |s.threads|
  {
    if n == 0 then 0 else Measure(c, s, n - 1) + Left(c, s, n - 1)
  }

  function Total(c: Setup, s: State): nat
    requires Sized(s)
  {
    Measure(c, s, |s.threads|)
  }

  lemma {:induction false} MeasureChange(c: Setup, s: State, s': State, n: nat, j: nat)
    requires Sized(s) && Sized(s') && n <= |s.threads| == |s'.threads| && j < |s.threads|
    requires forall k :: 0 <= k < |s.threads| && k != j ==> Left(c, s', k) == Left(c, s, k)
    ensures Measure(c, s', n) == Measure(c, s, n) + if j < n then Left(c, s', j) - Left(c, s, j) else 0
  {
    hide Left;
    if n > 0 {
      MeasureChange(c, s, s', n - 1, j);
    }
  }

  // ---------- What a step does ----------

  predicate AtLock(pc: Pc) { pc.Test? || pc.Claim? }

  /** Nothing happens, or a thread looks at the lock in vain. */
  predicate Idles(s: State, s': State, j: nat)
    requires j < |s.threads|
  {
    s' == s || (AtLock(s.threads[j].pc) && (s' == s.Goto(j, Test) || s' == s.Goto(j, Claim)))
  }

  /** The thread cannot go on by itself. */
  predicate Stuck(s: State, j: nat)
    requires Sized(s) && j < |s.threads|
  {
    var t := s.threads[j];
    t.pc.Done? || AtLock(t.pc) || ((t.pc.Bar1? || t.pc.Bar2?) && s.bar.threads[j].phase == B.Spinning(s.bar.cycle))
  }

  lemma OthersSame(c: Setup, s: State, j: nat)
    requires Inv(c, s) && j < c.n
    ensures Sized(Step(c, s, j)) && |Step(c, s, j).threads| == c.n
    ensures forall k :: 0 <= k < c.n && k != j ==>
              Step(c, s, j).threads[k] == s.threads[k] && Step(c, s, j).bar.threads[k] == s.bar.threads[k]
  {
    if s.threads[j].pc.Bar1? || s.threads[j].pc.Bar2? {
      B.StepEffect(s.bar, j);
      hide B.Step, B.Inv, LockInv, SumInv, ThreadInv, B.Returned, Next;
    } else {
      SameOutside(c, s, j);
    }
  }

  lemma SameOutside(c: Setup, s: State, j: nat)
    requires Sized(s) && j < |s.threads| && !s.threads[j].pc.Bar1? && !s.threads[j].pc.Bar2?
    ensures Step(c, s, j).bar == s.bar && |Step(c, s, j).threads| == |s.threads|
    ensures forall k :: 0 <= k < |s.threads| && k != j ==> Step(c, s, j).threads[k] == s.threads[k]
  {
    hide B.Step, RunningSums, Put, At, Next;
  }

  lemma LapDown(c: Setup, it: nat)
    ensures it < c.iterations ==> Laps(c, it) == Lap(c) + Laps(c, it + 1)
  {
  }

  /** In a barrier. */
  lemma BarrierLess(c: Setup, s: State, j: nat)
    requires Inv(c, s) && j < c.n && (s.threads[j].pc.Bar1? || s.threads[j].pc.Bar2?)
    ensures if Stuck(s, j) then Step(c, s, j) == s else Left(c, Step(c, s, j), j) < Left(c, s, j)
  {
    B.WaitLess(s.bar, j);
    LapDown(c, s.threads[j].it);
    hide B.Step, B.Inv, B.Returned, LockInv, SumInv, ThreadInv, Laps, B.Wait;
    B.WaitIdle();
  }

  /** At the lock. */
  lemma LockLess(c: Setup, s: State, j: nat)
    requires Sized(s) && j < |s.threads| && AtLock(s.threads[j].pc)
    ensures Sized(Step(c, s, j)) && |Step(c, s, j).threads| == |s.threads|
    ensures Left(c, Step(c, s, j), j) < Left(c, s, j) || Idles(s, Step(c, s, j), j)
    ensures s.threads[j].pc.Claim? && !s.lock ==> Left(c, Step(c, s, j), j) < Left(c, s, j)
    ensures s.threads[j].pc.Test? && !s.lock ==> Step(c, s, j) == s.Goto(j, Claim)
  {
    hide Laps;
  }

  /** The master's own steps. */
  lemma MasterLess(c: Setup, s: State, j: nat)
    requires Sized(s) && j < |s.threads| && (s.threads[j].pc.Mastered() || s.threads[j].pc.Check?)
    requires s.threads[j].it <= c.iterations && (s.threads[j].pc.Clear? ==> s.threads[j].pc.k <= c.maxKey)
    ensures Sized(Step(c, s, j)) && Left(c, Step(c, s, j), j) < Left(c, s, j)
  {
    LapDown(c, s.threads[j].it);
    B.WaitIdle();
    hide Laps, Put, At, B.Wait, B.Step, RunningSums;
  }

  /** Counting and merging. */
  lemma MergeLess(c: Setup, s: State, j: nat)
    requires Sized(s) && j < |s.threads| && s.threads[j].pc.Works() && !AtLock(s.threads[j].pc)
    requires match s.threads[j].pc
             case CountKey(i) => i < |c.owner|
             case Write(v, _) => v < c.maxKey
             case _ => true
    ensures Sized(Step(c, s, j)) && Left(c, Step(c, s, j), j) < Left(c, s, j)
  {
    B.WaitIdle();
    hide Laps, Put, At, B.Wait, B.Step, RunningSums;
  }

  /** Elsewhere. */
  lemma WorkLess(c: Setup, s: State, j: nat)
    requires Inv(c, s) && j < c.n && !s.threads[j].pc.Bar1? && !s.threads[j].pc.Bar2? && !AtLock(s.threads[j].pc)
    ensures Sized(Step(c, s, j)) && |Step(c, s, j).threads| == c.n
    ensures if s.threads[j].pc.Done? then Step(c, s, j) == s else Left(c, Step(c, s, j), j) < Left(c, s, j)
  {
    assert ThreadInv(c, s, j);
    SameOutside(c, s, j);
    if s.threads[j].pc.Done? {
      DoneStays(c, s, j);
    } else if s.threads[j].pc.Works() {
      MergeLess(c, s, j);
    } else {
      MasterLess(c, s, j);
    }
    hide Left, Step, LockInv, SumInv, B.Inv;
  }

  /** A step never adds to what is left in all, and changes nothing of weight only if it idles. */
  lemma StepLess(c: Setup, s: State, j: nat)
    requires Inv(c, s) && j < c.n
    ensures Sized(Step(c, s, j)) && Total(c, Step(c, s, j)) <= Total(c, s)
    ensures Total(c, Step(c, s, j)) == Total(c, s) ==> Idles(s, Step(c, s, j), j)
    ensures !Stuck(s, j) || (s.threads[j].pc.Claim? && !s.lock) ==> Total(c, Step(c, s, j)) < Total(c, s)
    ensures s.threads[j].pc.Test? && !s.lock ==> Step(c, s, j) == s.Goto(j, Claim)
  {
    OthersSame(c, s, j);
    if s.threads[j].pc.Bar1? || s.threads[j].pc.Bar2? {
      BarrierLess(c, s, j);
    } else if AtLock(s.threads[j].pc) {
      LockLess(c, s, j);
    } else {
      WorkLess(c, s, j);
    }
    hide Inv, Step, Stuck, InLap, Laps;
    MeasureChange(c, s, Step(c, s, j), c.n, j);
    if Idles(s, Step(c, s, j), j) {
      IdleLeft(c, s, Step(c, s, j), j);
    }
  }

  lemma IdleLeft(c: Setup, s: State, s': State, j: nat)
    requires Sized(s) && Sized(s') && j < |s.threads| && Idles(s, s', j)
    ensures |s'.threads| == |s.threads| && Left(c, s', j) == Left(c, s, j)
  {
    hide Laps;
  }

  // ---------- A held lock has a holder ----------

  ghost predicate HolderInv(s: State) {
    s.lock ==> exists j :: 0 <= j < |s.threads| && s.threads[j].pc.Holds()
  }

  lemma HolderStep(c: Setup, s: State, j: nat)
    requires Inv(c, s) && HolderInv(s) && j < c.n
    ensures HolderInv(Step(c, s, j))
  {
    OthersSame(c, s, j);
    var s' := Step(c, s, j);
    if s'.lock {
      if s.threads[j].pc.Claim? && !s.lock {
        assert s'.threads[j].pc.Holds();
      } else {
        LockKept(c, s, j);
        var k :| 0 <= k < |s.threads| && s.threads[k].pc.Holds();
        assert s'.threads[k].pc.Holds();
      }
    }
  }

  lemma LockKept(c: Setup, s: State, j: nat)
    requires Sized(s) && j < |s.threads| && Step(c, s, j).lock && !(s.threads[j].pc.Claim? && !s.lock)
    ensures s.lock && |Step(c, s, j).threads| == |s.threads|
    ensures s.threads[j].pc.Holds() ==> Step(c, s, j).threads[j].pc.Holds()
  {
    hide B.Step, RunningSums, Put, At;
  }

  // ---------- Schedules ----------

  lemma {:induction false} RunLess(c: Setup, s: State, sched: seq<nat>)
    requires Inv(c, s) && HolderInv(s) && B.IsSchedule(|s.threads|, sched)
    ensures Inv(c, Run(c, s, sched)) && HolderInv(Run(c, s, sched)) && Total(c, Run(c, s, sched)) <= Total(c, s)
  {
    SameSize(c, s, s);
    assert Sized(s);
    hide Inv, Step, Total, HolderInv;
    if sched != [] {
      var pre, i := sched[..|sched| - 1], sched[|sched| - 1];
      RunLess(c, s, pre);
      SameSize(c, s, Run(c, s, pre));
      StepLess(c, Run(c, s, pre), i);
      HolderStep(c, Run(c, s, pre), i);
      StepInv(c, Run(c, s, pre), i);
    }
  }

  /** The states differ only in which threads at the lock test and which claim. */
  ghost predicate Alike(s: State, s': State) {
    && |s'.threads| == |s.threads| && s'.lock == s.lock && s'.bar == s.bar
    && forall k {:trigger s'.threads[k]} :: 0 <= k < |s.threads| ==>
         s'.threads[k].pc == s.threads[k].pc || (AtLock(s.threads[k].pc) && AtLock(s'.threads[k].pc))
  }

  lemma AlikeStep(s: State, u: State, u': State, i: nat)
    requires Alike(s, u) && i < |u.threads| && Idles(u, u', i)
    ensures Alike(s, u')
  {
  }

  lemma AlikeStuck(s: State, u: State, j: nat)
    requires Alike(s, u) && Sized(s) && Sized(u) && j < |s.threads|
    ensures Stuck(u, j) <==> Stuck(s, j)
  {
    assert u.threads[j].pc == s.threads[j].pc || (AtLock(s.threads[j].pc) && AtLock(u.threads[j].pc));
  }

  /** In a schedule over which nothing of weight happens, a thread that is named is stuck; and at a free lock it is
      named but once, and comes to claim it. */
  lemma {:induction false} IdleRun(c: Setup, s: State, sched: seq<nat>, j: nat)
    requires Inv(c, s) && HolderInv(s) && B.IsSchedule(|s.threads|, sched) && j < c.n == |s.threads|
    requires Total(c, Run(c, s, sched)) == Total(c, s)
    ensures Alike(s, Run(c, s, sched)) && (j in sched ==> Stuck(s, j))
    ensures !s.lock && AtLock(s.threads[j].pc) ==>
              if j in sched then s.threads[j].pc.Test? && Run(c, s, sched).threads[j].pc.Claim?
              else Run(c, s, sched).threads[j].pc == s.threads[j].pc
  {
    if sched != [] {
      var pre, i := sched[..|sched| - 1], sched[|sched| - 1];
      var u := Run(c, s, pre);
      RunLess(c, s, pre);
      SameSize(c, s, u);
      StepLess(c, u, i);
      IdleRun(c, s, pre, j);
      hide Inv, Step, Total, HolderInv, Stuck;
      AlikeStep(s, u, Step(c, u, i), i);
      AlikeStuck(s, u, i);
      assert j in sched <==> j in pre || j == i;
      if i == j && !s.lock && AtLock(s.threads[j].pc) {
        assert AtLock(u.threads[j].pc);
      }
    }
  }

  // ---------- No deadlock ----------

  ghost predicate Finished(s: State) { forall j :: 0 <= j < |s.threads| ==> s.threads[j].pc.Done? }

  /** If one thread waits in the barrier and another cannot go on either, that one has arrived, too. */
  lemma BothArrived(c: Setup, s: State, j: nat, k: nat)
    requires Inv(c, s) && j < c.n && k < c.n && Stuck(s, j) && Stuck(s, k) && !AtLock(s.threads[j].pc)
    requires !AtLock(s.threads[k].pc)
    requires !s.threads[j].pc.Done?
    ensures s.bar.threads[k].arrived == s.bar.flips + 1
    ensures s.bar.threads[k].phase.Idle? || s.bar.threads[k].phase.Spinning?
  {
    assert ThreadInv(c, s, j) && ThreadInv(c, s, k);
    var b := s.bar;
    assert B.ThreadOk(b.threads[j], b.flips, b.cycle) && B.ThreadOk(b.threads[k], b.flips, b.cycle);
    hide B.Inv, DataInv, LockInv, SumInv;
  }

  /** All threads cannot wait in the barrier at the same time. */
  lemma NoDeadlock(c: Setup, s: State)
    requires Inv(c, s) && forall j: nat :: j < c.n ==> Stuck(s, j) && !AtLock(s.threads[j].pc)
    ensures Finished(s)
  {
    if !Finished(s) {
      var j: nat :| j < c.n && !s.threads[j].pc.Done?;
      assert Stuck(s, j);
      forall k: nat {:trigger s.bar.threads[k]} | k < c.n
        ensures s.bar.threads[k].arrived == s.bar.flips + 1
        ensures s.bar.threads[k].phase.Idle? || s.bar.threads[k].phase.Spinning?
      {
        BothArrived(c, s, j, k);
      }
      B.SomeoneMissing(s.bar, j);
      assert false;
    }
  }

  lemma HolderMoves(s: State)
    requires Sized(s) && HolderInv(s) && s.lock
    ensures exists j: nat :: j < |s.threads| && !Stuck(s, j)
  {
    var k :| 0 <= k < |s.threads| && s.threads[k].pc.Holds();
    assert !Stuck(s, k);
  }

  /** Two blocks in which every thread gets a step get something done. */
  lemma TwoBlocks(c: Setup, s: State, b1: seq<nat>, b2: seq<nat>)
    requires Inv(c, s) && HolderInv(s) && |s.threads| == c.n && B.FairBlock(c.n, b1) && B.FairBlock(c.n, b2)
    requires !Finished(s)
    ensures |Run(c, s, b1).threads| == c.n && Total(c, Run(c, Run(c, s, b1), b2)) < Total(c, s)
  {
    var u := Run(c, s, b1);
    RunLess(c, s, b1);
    RunLess(c, u, b2);
    if Total(c, Run(c, u, b2)) == Total(c, s) {
      forall j: nat | j < c.n
        ensures Stuck(s, j) && !(AtLock(s.threads[j].pc) && !s.lock)
      {
        IdleRun(c, s, b1, j);
        IdleRun(c, u, b2, j);
      }
      hide Inv, Total, B.FairBlock;
      if s.lock {
        HolderMoves(s);
        assert false;
      } else {
        NoDeadlock(c, s);
        assert false;
      }
    }
  }

  // ---------- Every call of rank finishes ----------

  lemma FinishedStays(c: Setup, s: State, j: nat)
    requires Sized(s) && j < |s.threads| && Finished(s)
    ensures Step(c, s, j) == s
  {
    DoneStays(c, s, j);
  }

  lemma {:induction false} RunStays(c: Setup, s: State, sched: seq<nat>)
    requires Sized(s) && B.IsSchedule(|s.threads|, sched) && Finished(s)
    ensures Run(c, s, sched) == s
  {
    hide Step;
    if sched != [] {
      RunStays(c, s, sched[..|sched| - 1]);
      FinishedStays(c, s, sched[|sched| - 1]);
    }
  }

  function RunBlocks(c: Setup, s: State, blocks: seq<seq<nat>>): (r: State)
    requires Sized(s) && B.FairBlocks(|s.threads|, blocks)
    ensures Sized(r) && |r.threads| == |s.threads|
    decreases |blocks|
  {
    if blocks == [] then s else RunBlocks(c, Run(c, s, blocks[0]), blocks[1..])
  }

  lemma {:induction false} BlocksStay(c: Setup, s: State, blocks: seq<seq<nat>>)
    requires Sized(s) && B.FairBlocks(|s.threads|, blocks) && Finished(s)
    ensures RunBlocks(c, s, blocks) == s
    decreases |blocks|
  {
    if blocks != [] {
      RunStays(c, s, blocks[0]);
      BlocksStay(c, s, blocks[1..]);
    }
  }

  /** Twice as many blocks as there are steps left in all finish everything. */
  lemma {:induction false} BlocksFinish(c: Setup, s: State, blocks: seq<seq<nat>>)
    requires Inv(c, s) && HolderInv(s) && B.FairBlocks(|s.threads|, blocks) && |blocks| >= 2 * Total(c, s) + 2
    ensures Finished(RunBlocks(c, s, blocks)) && Inv(c, RunBlocks(c, s, blocks))
    decreases |blocks|
  {
    SameSize(c, s, s);
    if Finished(s) {
      BlocksStay(c, s, blocks);
    } else {
      hide Inv, HolderInv, Total, Finished;
      var u := Run(c, s, blocks[0]);
      var v := Run(c, u, blocks[1]);
      assert blocks[1..][0] == blocks[1] && blocks[1..][1..] == blocks[2..];
      RunLess(c, s, blocks[0]);
      RunLess(c, u, blocks[1]);
      TwoBlocks(c, s, blocks[0], blocks[1]);
      BlocksFinish(c, v, blocks[2..]);
    }
  }

  lemma {:induction false} RunInvBoth(c: Setup, s: State, sched: seq<nat>)
    requires Valid(c) && Begins(c, s) && B.IsSchedule(|s.threads|, sched)
    ensures Inv(c, Run(c, s, sched)) && HolderInv(Run(c, s, sched))
  {
    InitInv(c, s);
    RunLess(c, s, sched);
  }

  /** The keys go on as the master's place says. */
  ghost predicate KeysOk(c: Setup, keys: seq<int>, s: State) {
    |s.threads| > 0 && s.keys == KeysNow(c, keys, s.threads[0])
  }

  lemma {:induction false} RunKeysOk(c: Setup, keys: seq<int>, s: State, sched: seq<nat>)
    requires Inv(c, s) && B.IsSchedule(|s.threads|, sched) && KeysOk(c, keys, s)
    ensures Inv(c, Run(c, s, sched)) && KeysOk(c, keys, Run(c, s, sched))
  {
    SameSize(c, s, s);
    assert Sized(s);
    hide Inv, Step, KeysNow;
    if sched != [] {
      var pre, i := sched[..|sched| - 1], sched[|sched| - 1];
      RunKeysOk(c, keys, s, pre);
      SameSize(c, s, Run(c, s, pre));
      KeysStep(c, keys, Run(c, s, pre), i);
      StepInv(c, Run(c, s, pre), i);
    }
  }

  lemma {:induction false} BlocksKeysOk(c: Setup, keys: seq<int>, s: State, blocks: seq<seq<nat>>)
    requires Inv(c, s) && B.FairBlocks(|s.threads|, blocks) && KeysOk(c, keys, s)
    ensures KeysOk(c, keys, RunBlocks(c, s, blocks))
    decreases |blocks|
  {
    SameSize(c, s, s);
    hide Inv, KeysOk;
    if blocks != [] {
      RunKeysOk(c, keys, s, blocks[0]);
      BlocksKeysOk(c, keys, Run(c, s, blocks[0]), blocks[1..]);
    }
  }

  /** From every reachable state, every fair continuation that is long enough finishes all iterations in all threads,
      and key_buff1 then holds the ranks of the keys, which are those of sequential execution. */
  lemma {:induction false} RankingTerminates(c: Setup, s: State, sched: seq<nat>, blocks: seq<seq<nat>>)
    requires Valid(c) && Begins(c, s) && B.IsSchedule(|s.threads|, sched) && B.FairBlocks(|s.threads|, blocks)
    requires |blocks| >= 2 * Total(c, Run(c, s, sched)) + 2
    ensures var r := RunBlocks(c, Run(c, s, sched), blocks);
            Finished(r) && Ranked(c, r, r.keys) && SequentialKeys(c, s.keys, r.keys, c.iterations)
  {
    RunInvBoth(c, s, sched);
    RunKeys(c, s, sched);
    var u := Run(c, s, sched);
    SameSize(c, u, u);
    BlocksKeysOk(c, s.keys, u, blocks);
    BlocksFinish(c, u, blocks);
    var r := RunBlocks(c, u, blocks);
    SameSize(c, r, r);
    CheckedIsRanked(c, r);
    assert ThreadInv(c, r, 0) && r.threads[0].pc.Done?;
    hide Inv, Run, RunBlocks, KeysAt, Ranked;
    KeysAtIsSequential(c, s.keys, c.iterations);
  }
}
