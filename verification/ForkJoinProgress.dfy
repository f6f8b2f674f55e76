/** bomp/lib/processing.c and parallel.c: every parallel region is joined. As long as every thread keeps getting steps,
    the main thread comes to the end of its program and all workers come to the end of theirs. */
module ForkJoinProgress {
  import B = Barrier
  import opened Arith
  import opened ForkJoin

  // ---------- How much is left to do ----------

  /** The steps that thread i of a region has left. */
  function ThreadLeft(x: Region, i: nat): nat
    requires x.Sized() && i < |x.pcs|
  {
    match x.pcs[i]
    case Finished => 0
    case Waiting => B.Wait(x.bar.threads[i].phase)
    case Running(k) => 1 + 6 * Minus(x.barriers, k) + B.Wait(x.bar.threads[i].phase)
    case Have(_) => 8 + 6 * x.barriers
    case Start => 9 + 6 * x.barriers
    case NotCreated => 10 + 6 * x.barriers
  }

  function ThreadsLeft(x: Region, n: nat): nat
    requires x.Sized() && n <= |x.pcs|
  {
    if n == 0 then 0 else ThreadsLeft(x, n - 1) + ThreadLeft(x, n - 1)
  }

  function RegionLeft(x: Region): nat
    requires x.Sized()
  {
    ThreadsLeft(x, |x.pcs|)
  }

  function RegionsLeft(xs: seq<Region>): nat
    requires forall r :: 0 <= r < |xs| ==> xs[r].Sized()
  {
    if xs == [] then 0 else RegionsLeft(xs[..|xs| - 1]) + RegionLeft(xs[|xs| - 1])
  }

  /** What a region costs from its beginning to its end. */
  function Cost(p: Program, j: Job): nat {
    20 + 2 * Threads(p, j) + RegionLeft(NewRegion(Threads(p, j), j.barriers))
  }

  function Future(p: Program, job: nat): nat
    decreases Minus(|p.jobs|, job)
  {
    if job >= |p.jobs| then 0 else Cost(p, p.jobs[job]) + Future(p, job + 1)
  }

  /** What the main thread has left beyond its steps as a thread of its region, which has n threads. */
  function MainLeft(p: Program, main: Main, job: nat, n: nat): nat {
    match main
    case Enter => Future(p, job)
    case SetCount(_) => Minus(Future(p, job), 1)
    case SetArray(_) => Minus(Future(p, job), 2)
    case OwnTls => Future(p, job + 1) + 16 + n
    case Create(i) => Future(p, job + 1) + 15 + Minus(n, i)
    case CountIn => Future(p, job + 1) + 12
    case Body => Future(p, job + 1) + 11
    case EndTest => Future(p, job + 1) + 10
    case Join => Future(p, job + 1) + 9
    case ClearArray => Future(p, job + 1) + 8
    case ResetCount => Future(p, job + 1) + 7
    case CountOut => Future(p, job + 1) + 6
  }

  function Current(s: State): nat { if s.job < |s.regions| then |s.regions[s.job].pcs| else 0 }

  function Total(p: Program, s: State): nat
    requires WellSized(s)
  {
    MainLeft(p, s.main, s.job, Current(s)) + RegionsLeft(s.regions)
  }

  lemma {:induction false} ThreadsChange(x: Region, y: Region, n: nat, i: nat)
    requires x.Sized() && y.Sized() && n <= |x.pcs| == |y.pcs| && i < |x.pcs|
    requires forall k :: 0 <= k < |x.pcs| && k != i ==> ThreadLeft(y, k) == ThreadLeft(x, k)
    ensures ThreadsLeft(y, n) == ThreadsLeft(x, n) + if i < n then ThreadLeft(y, i) - ThreadLeft(x, i) else 0
  {
    hide ThreadLeft;
    if n > 0 {
      ThreadsChange(x, y, n - 1, i);
    }
  }

  lemma {:induction false} RegionsChange(xs: seq<Region>, r: nat, x: Region)
    requires (forall k :: 0 <= k < |xs| ==> xs[k].Sized()) && r < |xs| && x.Sized()
    ensures RegionsLeft(xs[r := x]) == RegionsLeft(xs) + RegionLeft(x) - RegionLeft(xs[r])
  {
    hide RegionLeft;
    var n := |xs| - 1;
    if r == n {
      assert xs[r := x][..n] == xs[..n];
    } else {
      assert xs[r := x][..n] == xs[..n][r := x];
      RegionsChange(xs[..n], r, x);
    }
  }

  lemma RegionsAppend(xs: seq<Region>, x: Region)
    requires (forall k :: 0 <= k < |xs| ==> xs[k].Sized()) && x.Sized()
    ensures RegionsLeft(xs + [x]) == RegionsLeft(xs) + RegionLeft(x)
  {
    assert (xs + [x])[..|xs|] == xs;
  }

  // ---------- Steps of one thread ----------

  predicate Spins(x: Region, i: nat)
    requires x.Sized() && i < |x.pcs|
  {
    (x.pcs[i].Running? || x.pcs[i].Waiting?) && x.bar.threads[i].phase == B.Spinning(x.bar.cycle)
  }

  /** A thread in its function or final barrier gets nearer to its end, unless it tests the cycle in vain. */
  lemma OwnThreadLess(x: Region, i: nat)
    requires RegionInv(x) && i < |x.pcs| && (x.pcs[i].Running? || x.pcs[i].Waiting?)
    ensures if Spins(x, i) then ThreadStep(x, i) == x else ThreadLeft(ThreadStep(x, i), i) < ThreadLeft(x, i)
  {
    assert ThreadInv(x, i);
    B.WaitLess(x.bar, i);
    B.WaitIdle();
    hide B.Step, B.Inv, B.Returned, B.Wait, RegionInv;
  }

  lemma OtherThreads(x: Region, i: nat, k: nat)
    requires RegionInv(x) && i < |x.pcs| && k < |x.pcs| && k != i
    ensures ThreadLeft(ThreadStep(x, i), k) == ThreadLeft(x, k)
  {
    B.StepEffect(x.bar, i);
    hide B.Step, B.Inv, B.Returned, B.Wait, ThreadInv;
  }

  lemma ThreadLess(x: Region, i: nat)
    requires RegionInv(x) && i < |x.pcs| && (x.pcs[i].Running? || x.pcs[i].Waiting?)
    ensures if Spins(x, i) then ThreadStep(x, i) == x else RegionLeft(ThreadStep(x, i)) < RegionLeft(x)
  {
    OwnThreadLess(x, i);
    forall k | 0 <= k < |x.pcs| && k != i
      ensures ThreadLeft(ThreadStep(x, i), k) == ThreadLeft(x, k)
    {
      OtherThreads(x, i, k);
    }
    ThreadsChange(x, ThreadStep(x, i), |x.pcs|, i);
    hide ThreadStep, ThreadLeft, ThreadsLeft, Spins, ThreadInv;
  }

  /** A change to what one thread is at makes a region's rest less when it makes the thread's rest less. */
  lemma GotoLess(x: Region, i: nat, pc: Pc, slots: seq<bool>)
    requires x.Sized() && i < |x.pcs| && |slots| == |x.slots|
    requires ThreadLeft(x.(slots := slots).Goto(i, pc), i) < ThreadLeft(x, i)
    ensures RegionLeft(x.(slots := slots).Goto(i, pc)) < RegionLeft(x)
  {
    var y := x.(slots := slots).Goto(i, pc);
    forall k | 0 <= k < |x.pcs| && k != i
      ensures ThreadLeft(y, k) == ThreadLeft(x, k)
    {
    }
    ThreadsChange(x, y, |x.pcs|, i);
  }

  /** Setting thread-local data, in the region's terms. */
  lemma TlsLess(p: Program, s: State, r: nat, i: nat)
    requires Inv(p, s) && r < |s.regions| && i < |s.regions[r].pcs|
    requires s.regions[r].pcs[i].Start? || s.regions[r].pcs[i].Have?
    ensures |TlsStep(s, r, i).regions| == |s.regions|
    ensures RegionLeft(TlsStep(s, r, i).regions[r]) < RegionLeft(s.regions[r])
    ensures TlsStep(s, r, i) == s.(regions := s.regions[r := TlsStep(s, r, i).regions[r]])
  {
    PointerIsOwn(p, s, r, i);
    var x := s.regions[r];
    assert RegionGood(p, s.job, r, x);
    assert ThreadInv(x, i);
    B.WaitIdle();
    if x.pcs[i].Start? {
      GotoLess(x, i, Have(s.table), x.slots);
    } else {
      GotoLess(x, i, Running(0), x.slots[i := true]);
    }
    hide RegionInv, B.Wait, RegionLeft;
  }

  // ---------- Every step gets nearer to the end ----------

  /** The step of the thread named in m changes nothing. */
  predicate Stuck(p: Program, s: State, m: Move)
    requires WellSized(s)
  {
    match m
    case MainMoves =>
      || (s.main.Enter? && s.job >= |p.jobs|)
      || ((s.main.Body? || s.main.Join?) && s.job < |s.regions| && |s.regions[s.job].pcs| > 0
          && Spins(s.regions[s.job], 0))
    case WorkerMoves(r, i) => WorkerStuck(s, r, i)
  }

  predicate WorkerStuck(s: State, r: nat, i: nat)
    requires WellSized(s)
  {
    if r < |s.regions| && 0 < i < |s.regions[r].pcs| then
      s.regions[r].pcs[i].NotCreated? || s.regions[r].pcs[i].Finished? || Spins(s.regions[r], i)
    else true
  }

  /** A change to one region only. */
  lemma RegionLess(p: Program, s: State, r: nat, x: Region)
    requires WellSized(s) && r < |s.regions| && x.Sized() && |x.pcs| == |s.regions[r].pcs|
    requires RegionLeft(x) < RegionLeft(s.regions[r])
    ensures var s' := s.(regions := s.regions[r := x]);
            WellSized(s') && Current(s') == Current(s) && RegionsLeft(s'.regions) < RegionsLeft(s.regions)
                && Total(p, s') < Total(p, s)
  {
    RegionsChange(s.regions, r, x);
    hide RegionLeft, RegionsLeft, MainLeft;
  }

  lemma WorkerLess(p: Program, s: State, r: nat, i: nat)
    requires Inv(p, s)
    ensures WellSized(WorkerStep(s, r, i))
    ensures if WorkerStuck(s, r, i) then WorkerStep(s, r, i) == s else Total(p, WorkerStep(s, r, i)) < Total(p, s)
  {
    SizedStep(p, s, WorkerMoves(r, i));
    if r < |s.regions| && 0 < i < |s.regions[r].pcs| {
      var x := s.regions[r];
      assert RegionGood(p, s.job, r, x);
      if x.pcs[i].Start? || x.pcs[i].Have? {
        TlsLess(p, s, r, i);
        hide TlsStep, Total, RegionLeft, RegionInv, MainGood;
        RegionLess(p, s, r, TlsStep(s, r, i).regions[r]);
      } else if x.pcs[i].NotCreated? || x.pcs[i].Finished? {
        assert s.regions[r := x] == s.regions;
      } else {
        ThreadLess(x, i);
        hide ThreadStep, Total, RegionLeft, RegionInv, MainGood, Spins;
        if Spins(x, i) {
          assert s.regions[r := x] == s.regions;
        } else {
          RegionLess(p, s, r, ThreadStep(x, i));
        }
      }
    }
  }

  /** The main thread moves on, the regions stay. */
  lemma NextPlace(p: Program, s: State, main: Main)
    requires WellSized(s) && s.job < |s.regions|
    requires MainLeft(p, main, s.job, |s.regions[s.job].pcs|) <= MainLeft(p, s.main, s.job, |s.regions[s.job].pcs|)
    ensures Total(p, s.(main := main)) <= Total(p, s)
  {
    hide MainLeft, RegionsLeft;
  }

  /** The main thread's step as thread 0 of its region. */
  lemma OwnLess(p: Program, s: State)
    requires Inv(p, s) && (s.main.Body? || s.main.Join?)
    ensures var s' := s.(regions := s.regions[s.job := ThreadStep(s.regions[s.job], 0)]);
            WellSized(s') && Current(s') == Current(s)
            && if Spins(s.regions[s.job], 0) then s' == s else Total(p, s') < Total(p, s)
    ensures Spins(s.regions[s.job], 0) ==> ThreadStep(s.regions[s.job], 0) == s.regions[s.job]
  {
    var x := s.regions[s.job];
    assert RegionGood(p, s.job, s.job, x);
    ThreadLess(x, 0);
    hide ThreadStep, Total, RegionLeft, RegionsLeft, RegionInv, RegionsGood, RegionGood, Spins;
    if Spins(x, 0) {
      assert s.regions[s.job := x] == s.regions;
    } else {
      RegionLess(p, s, s.job, ThreadStep(x, 0));
    }
  }

  lemma BodyLess(p: Program, s: State)
    requires Inv(p, s) && s.main.Body?
    ensures WellSized(MainStep(p, s))
    ensures if Stuck(p, s, MainMoves) then MainStep(p, s) == s else Total(p, MainStep(p, s)) < Total(p, s)
  {
    SizedStep(p, s, MainMoves);
    OwnLess(p, s);
    hide ThreadStep, RegionsLeft, RegionsGood, Spins, Future, TlsStep, NewRegion;
  }

  lemma JoinLess(p: Program, s: State)
    requires Inv(p, s) && s.main.Join?
    ensures WellSized(MainStep(p, s))
    ensures if Stuck(p, s, MainMoves) then MainStep(p, s) == s else Total(p, MainStep(p, s)) < Total(p, s)
  {
    SizedStep(p, s, MainMoves);
    SlotSet(p, s);
    OwnLess(p, s);
    hide Total, MainLeft, RegionInv, B.Step, ThreadStep, RegionsLeft, RegionsGood, Spins, Future, TlsStep, NewRegion;
    MainLeftDown(p, s);
    if !Spins(s.regions[s.job], 0) {
      NextPlace(p, s.(regions := s.regions[s.job := ThreadStep(s.regions[s.job], 0)]), MainStep(p, s).main);
    }
  }

  lemma MainLeftDown(p: Program, s: State)
    requires s.main.Join?
    ensures forall n: nat :: MainLeft(p, ClearArray, s.job, n) <= MainLeft(p, Join, s.job, n)
  {
  }

  /** Elsewhere the main thread only sets counters and pointers. */
  lemma CounterLess(p: Program, s: State)
    requires Inv(p, s) && !s.main.Body? && !s.main.Join? && !s.main.SetArray? && !s.main.OwnTls? && !s.main.Create?
    ensures WellSized(MainStep(p, s)) && MainStep(p, s).regions == s.regions
    ensures if Stuck(p, s, MainMoves) then MainStep(p, s) == s else Total(p, MainStep(p, s)) < Total(p, s)
  {
    hide RegionsLeft, RegionLeft, ThreadStep, TlsStep, RegionsGood, NewRegion, Spins, MainPcGood, Threads;
  }

  /** The main thread sets up a region. */
  lemma ArrayLess(p: Program, s: State)
    requires Inv(p, s) && s.main.SetArray?
    ensures WellSized(MainStep(p, s)) && Total(p, MainStep(p, s)) < Total(p, s)
  {
    SizedStep(p, s, MainMoves);
    RegionsAppend(s.regions, NewRegion(s.main.n, p.jobs[s.job].barriers));
    hide RegionLeft, RegionsLeft, NewRegion, Threads, RegionsGood, TlsStep, ThreadStep;
  }

  lemma OwnTlsLess(p: Program, s: State)
    requires Inv(p, s) && s.main.OwnTls?
    ensures WellSized(MainStep(p, s)) && Total(p, MainStep(p, s)) < Total(p, s)
  {
    SizedStep(p, s, MainMoves);
    TlsLess(p, s, s.job, 0);
    hide TlsStep, RegionLeft, RegionsLeft, RegionsGood, Future, ThreadStep;
    RegionLess(p, s, s.job, TlsStep(s, s.job, 0).regions[s.job]);
  }

  lemma CreateLess(p: Program, s: State)
    requires Inv(p, s) && s.main.Create?
    ensures WellSized(MainStep(p, s)) && Total(p, MainStep(p, s)) < Total(p, s)
  {
    SizedStep(p, s, MainMoves);
    var x, i := s.regions[s.job], s.main.i;
    if i < |x.pcs| {
      GotoLess(x, i, Start, x.slots);
      assert x.(slots := x.slots) == x;
      hide RegionLeft, RegionsLeft, RegionsGood, Future, TlsStep, ThreadStep, Total;
      RegionLess(p, s, s.job, x.Goto(i, Start));
      NextPlace(p, s.(regions := s.regions[s.job := x.Goto(i, Start)]), Create(i + 1));
    }
  }

  lemma MainLess(p: Program, s: State)
    requires Inv(p, s)
    ensures WellSized(MainStep(p, s))
    ensures if Stuck(p, s, MainMoves) then MainStep(p, s) == s else Total(p, MainStep(p, s)) < Total(p, s)
  {
    SizedInv(p, s);
    hide Inv, MainStep, Total;
    match s.main
    case Body => BodyLess(p, s);
    case Join => JoinLess(p, s);
    case SetArray(_) => ArrayLess(p, s);
    case OwnTls => OwnTlsLess(p, s);
    case Create(_) => CreateLess(p, s);
    case _ => CounterLess(p, s);
  }

  /** A step either changes nothing, because its thread can only wait or has finished, or leaves less to do. */
  lemma StepLess(p: Program, s: State, m: Move)
    requires Inv(p, s)
    ensures WellSized(Step(p, s, m))
    ensures if Stuck(p, s, m) then Step(p, s, m) == s else Total(p, Step(p, s, m)) < Total(p, s)
  {
    hide Inv, Total, MainStep, WorkerStep, WorkerStuck;
    match m
    case MainMoves => MainLess(p, s);
    case WorkerMoves(r, i) => WorkerLess(p, s, r, i);
  }

  // ---------- Who has been started ----------

  ghost predicate CreatedTo(x: Region, n: nat) { forall j :: 0 <= j < |x.pcs| && j < n ==> !x.pcs[j].NotCreated? }

  /** The main thread leaves no region before its own part of it is finished, and starts its threads one by one. */
  ghost predicate Started(s: State) {
    && (forall r :: 0 <= r < |s.regions| && r < s.job ==> |s.regions[r].pcs| > 0 && s.regions[r].pcs[0].Finished?)
    && (s.job < |s.regions| ==>
          CreatedTo(s.regions[s.job],
                    if s.main.Create? then s.main.i else if s.main.OwnTls? then 1 else |s.regions[s.job].pcs|))
  }

  /** A thread's step starts no other thread. */
  lemma WorkerPcs(s: State, r: nat, i: nat, q: nat)
    requires WellSized(s) && q < |s.regions|
    ensures WellSized(WorkerStep(s, r, i)) && |WorkerStep(s, r, i).regions| == |s.regions|
    ensures var x, y := s.regions[q], WorkerStep(s, r, i).regions[q];
            && |y.pcs| == |x.pcs|
            && (|x.pcs| > 0 ==> y.pcs[0] == x.pcs[0])
            && forall j :: 0 <= j < |x.pcs| && !x.pcs[j].NotCreated? ==> !y.pcs[j].NotCreated?
  {
    hide B.Step, B.Returned;
  }

  lemma StartedWorker(p: Program, s: State, r: nat, i: nat)
    requires WellSized(s) && Started(s)
    ensures WellSized(WorkerStep(s, r, i)) && Started(WorkerStep(s, r, i))
  {
    SizedStep(p, s, WorkerMoves(r, i));
    var s' := WorkerStep(s, r, i);
    assert s'.main == s.main && s'.job == s.job && |s'.regions| == |s.regions|;
    hide WorkerStep;
    forall q | 0 <= q < |s.regions|
      ensures |s'.regions[q].pcs| == |s.regions[q].pcs|
      ensures q < s.job ==> |s'.regions[q].pcs| > 0 && s'.regions[q].pcs[0].Finished?
      ensures forall n: nat :: CreatedTo(s.regions[q], n) ==> CreatedTo(s'.regions[q], n)
    {
      WorkerPcs(s, r, i, q);
    }
  }

  lemma StartedMain(p: Program, s: State)
    requires Inv(p, s) && Started(s)
    ensures WellSized(MainStep(p, s)) && Started(MainStep(p, s))
  {
    SizedStep(p, s, MainMoves);
    hide RegionsGood, B.Step, B.Returned;
    match s.main
    case SetArray(n) =>
      NewRegionStarted(n, p.jobs[s.job].barriers);
      hide NewRegion;
    case OwnTls =>
      TlsPcs(s, s.job);
      hide TlsStep;
    case Create(i) =>
    case Body => OwnPcs(s.regions[s.job]); hide ThreadStep;
    case Join => SlotSet(p, s); OwnPcs(s.regions[s.job]); hide ThreadStep;
    case _ =>
  }

  lemma NewRegionStarted(n: nat, barriers: nat)
    ensures CreatedTo(NewRegion(n, barriers), 1)
  {
  }

  lemma OwnPcs(x: Region)
    requires x.Sized() && |x.pcs| > 0
    ensures forall n: nat :: CreatedTo(x, n) ==> CreatedTo(ThreadStep(x, 0), n)
  {
  }

  lemma TlsPcs(s: State, r: nat)
    requires WellSized(s) && r < |s.regions| && |s.regions[r].pcs| > 0
    ensures WellSized(TlsStep(s, r, 0)) && |TlsStep(s, r, 0).regions| == |s.regions|
    ensures TlsStep(s, r, 0).job == s.job && TlsStep(s, r, 0).main == s.main
    ensures forall q :: 0 <= q < |s.regions| && q != r ==> TlsStep(s, r, 0).regions[q].pcs == s.regions[q].pcs
    ensures CreatedTo(s.regions[r], 1) ==> CreatedTo(TlsStep(s, r, 0).regions[r], 1)
  {
  }

  // ---------- No deadlock ----------

  /** The program is at its end and all threads of all its regions have finished. */
  ghost predicate AllDone(p: Program, s: State) {
    && s.main.Enter? && s.job == |s.regions| == |p.jobs|
    && forall r, i :: 0 <= r < |s.regions| && 0 <= i < |s.regions[r].pcs| ==> s.regions[r].pcs[i].Finished?
  }

  ghost predicate AllStuck(p: Program, s: State)
    requires WellSized(s)
  {
    Stuck(p, s, MainMoves) && forall r: nat, i: nat :: r < |s.regions| && 0 < i < |s.regions[r].pcs| ==>
         WorkerStuck(s, r, i)
  }

  /** No thread waits at a final barrier that all have reached. */
  lemma ArrivedGoOn(x: Region, i: nat)
    requires RegionInv(x) && AllArrived(x) && i < |x.pcs|
    ensures !Spins(x, i)
  {
    assert ThreadInv(x, i) && B.ThreadOk(x.bar.threads[i], x.bar.flips, x.bar.cycle);
  }

  /** Not all threads of a region wait for each other. */
  lemma SomeoneGoesOn(x: Region)
    requires RegionInv(x) && Spins(x, 0)
    ensures exists i :: 0 < i < |x.pcs| && !x.pcs[i].Finished? && !Spins(x, i)
  {
    if forall i :: 0 < i < |x.pcs| ==> x.pcs[i].Finished? || Spins(x, i) {
      forall i: nat {:trigger x.bar.threads[i]} | i < |x.pcs|
        ensures x.bar.threads[i].phase.Spinning? && x.bar.threads[i].arrived == x.bar.flips + 1
      {
        assert B.ThreadOk(x.bar.threads[i], x.bar.flips, x.bar.cycle);
        if x.pcs[i].Finished? {
          FinishedMeansArrived(x, i);
          ArrivedGoOn(x, 0);
          assert false;
        }
        assert Spins(x, i);
      }
      B.SomeoneMissing(x.bar, 0);
      assert false;
    }
  }

  lemma NoDeadlock(p: Program, s: State)
    requires Inv(p, s) && Started(s) && AllStuck(p, s)
    ensures AllDone(p, s)
  {
    hide RegionInv, Spins, AllArrived;
    if s.main.Enter? {
      forall r: nat, i: nat | r < |s.regions| && i < |s.regions[r].pcs|
        ensures s.regions[r].pcs[i].Finished?
      {
        assert RegionGood(p, s.job, r, s.regions[r]);
        ArrivedGoOn(s.regions[r], i);
        if i > 0 {
          assert WorkerStuck(s, r, i);
          ArrivedPcs(s.regions[r], i);
        }
      }
    } else {
      var x := s.regions[s.job];
      assert RegionGood(p, s.job, s.job, x);
      SomeoneGoesOn(x);
      var i: nat :| 0 < i < |x.pcs| && !x.pcs[i].Finished? && !Spins(x, i);
      StuckWaits(s, s.job, i);
      assert false;
    }
  }

  lemma StuckWaits(s: State, r: nat, i: nat)
    requires WellSized(s) && r < |s.regions| && 0 < i < |s.regions[r].pcs| && WorkerStuck(s, r, i)
    ensures s.regions[r].pcs[i].NotCreated? || s.regions[r].pcs[i].Finished? || Spins(s.regions[r], i)
  {
  }

  lemma ArrivedPcs(x: Region, i: nat)
    requires RegionInv(x) && AllArrived(x) && i < |x.pcs|
    ensures x.pcs[i].AfterFn()
  {
  }

  // ---------- Fair rounds ----------

  /** A part of a schedule in which every thread of every region is given a step. */
  ghost predicate FairRound(p: Program, moves: seq<Move>) {
    && MainMoves in moves
    && forall r: nat, i: nat :: r < |p.jobs| && 0 < i < Threads(p, p.jobs[r]) ==> WorkerMoves(r, i) in moves
  }

  function RunFrom(p: Program, s: State, moves: seq<Move>): (r: State)
    requires WellSized(s)
    ensures WellSized(r)
  {
    if moves == [] then s
    else
      SizedStep(p, RunFrom(p, s, moves[..|moves| - 1]), moves[|moves| - 1]);
      Step(p, RunFrom(p, s, moves[..|moves| - 1]), moves[|moves| - 1])
  }

  lemma {:induction false} RunIsFrom(p: Program, moves: seq<Move>)
    ensures Run(p, moves) == RunFrom(p, Init(), moves)
  {
    hide Step;
    if moves != [] {
      RunIsFrom(p, moves[..|moves| - 1]);
    }
  }

  lemma StepKeeps(p: Program, s: State, m: Move)
    requires Valid(p) && Inv(p, s) && Started(s)
    ensures Inv(p, Step(p, s, m)) && Started(Step(p, s, m))
  {
    hide MainStep, WorkerStep, Started, RegionsGood, MainGood;
    match m
    case MainMoves => MainKeeps(p, s); StartedMain(p, s);
    case WorkerMoves(r, i) => WorkerKeeps(p, s, r, i); StartedWorker(p, s, r, i);
  }

  /** All threads named in a schedule are stuck. */
  ghost predicate AllNamedStuck(p: Program, s: State, moves: seq<Move>)
    requires WellSized(s)
  {
    forall m :: m in moves ==> Stuck(p, s, m)
  }

  lemma OneMoreNamed(p: Program, s: State, moves: seq<Move>)
    requires WellSized(s)
    ensures moves == [] ==> AllNamedStuck(p, s, moves)
    ensures moves != [] && AllNamedStuck(p, s, moves[..|moves| - 1]) && Stuck(p, s, moves[|moves| - 1]) ==>
              AllNamedStuck(p, s, moves)
  {
    hide Stuck;
    if moves != [] {
      assert moves == moves[..|moves| - 1] + [moves[|moves| - 1]];
    }
  }

  /** One more step after a part of a schedule that leads from s to u. */
  lemma StepFromLess(p: Program, s: State, moves: seq<Move>, u: State)
    requires Valid(p) && Inv(p, u) && Started(u) && WellSized(s) && WellSized(u) && moves != []
    requires Total(p, u) <= Total(p, s)
    requires Total(p, u) == Total(p, s) ==> u == s && AllNamedStuck(p, s, moves[..|moves| - 1])
    ensures var v := Step(p, u, moves[|moves| - 1]);
            && Inv(p, v) && Started(v) && WellSized(v) && Total(p, v) <= Total(p, s)
            && (Total(p, v) == Total(p, s) ==> v == s && AllNamedStuck(p, s, moves))
  {
    hide Inv, Started, Total, Step, Stuck, WellSized, AllNamedStuck;
    var m := moves[|moves| - 1];
    StepLess(p, u, m);
    StepKeeps(p, u, m);
    if Total(p, Step(p, u, m)) == Total(p, s) {
      OneMoreNamed(p, s, moves);
    }
  }

  lemma RunLast(p: Program, s: State, moves: seq<Move>)
    requires WellSized(s)
    ensures RunFrom(p, s, []) == s
    ensures moves != [] ==> RunFrom(p, s, moves) == Step(p, RunFrom(p, s, moves[..|moves| - 1]), moves[|moves| - 1])
  {
    hide Step;
  }

  /** Over a schedule what is left goes down; if it does not, nothing happens and all threads named are stuck. */
  lemma {:induction false} FromLess(p: Program, s: State, moves: seq<Move>)
    requires Valid(p) && Inv(p, s) && Started(s)
    ensures Inv(p, RunFrom(p, s, moves)) && Started(RunFrom(p, s, moves))
    ensures Total(p, RunFrom(p, s, moves)) <= Total(p, s)
    ensures Total(p, RunFrom(p, s, moves)) == Total(p, s) ==> RunFrom(p, s, moves) == s && AllNamedStuck(p, s, moves)
  {
    SizedInv(p, s);
    hide Inv, Started, Total, Step, Stuck, RunFrom, WellSized, AllNamedStuck;
    RunLast(p, s, moves);
    OneMoreNamed(p, s, moves);
    if moves != [] {
      FromLess(p, s, moves[..|moves| - 1]);
      StepFromLess(p, s, moves, RunFrom(p, s, moves[..|moves| - 1]));
    }
  }

  lemma SizedInv(p: Program, s: State)
    requires Inv(p, s)
    ensures WellSized(s)
  {
  }

  lemma RoundStuck(p: Program, s: State, moves: seq<Move>)
    requires Inv(p, s) && FairRound(p, moves) && AllNamedStuck(p, s, moves)
    ensures AllStuck(p, s)
  {
    hide Spins, RegionInv, Threads;
    forall r: nat, i: nat | r < |s.regions| && 0 < i < |s.regions[r].pcs|
      ensures WorkerStuck(s, r, i)
    {
      assert RegionGood(p, s.job, r, s.regions[r]);
      assert Stuck(p, s, WorkerMoves(r, i));
    }
  }

  lemma DoneStuck(p: Program, s: State, m: Move)
    requires WellSized(s) && AllDone(p, s)
    ensures Stuck(p, s, m)
  {
    hide Spins;
  }

  /** At the end nothing happens any more. */
  lemma {:induction false} DoneStays(p: Program, s: State, moves: seq<Move>)
    requires Inv(p, s) && AllDone(p, s)
    ensures RunFrom(p, s, moves) == s
  {
    if moves != [] {
      var m := moves[|moves| - 1];
      SizedInv(p, s);
      DoneStuck(p, s, m);
      hide Inv, Step, AllDone, Stuck;
      DoneStays(p, s, moves[..|moves| - 1]);
      StepLess(p, s, m);
    }
  }

  function RunRounds(p: Program, s: State, rounds: seq<seq<Move>>): (r: State)
    requires WellSized(s)
    ensures WellSized(r)
    decreases |rounds|
  {
    if rounds == [] then s else RunRounds(p, RunFrom(p, s, rounds[0]), rounds[1..])
  }

  ghost predicate FairRounds(p: Program, rounds: seq<seq<Move>>) {
    forall k :: 0 <= k < |rounds| ==> FairRound(p, rounds[k])
  }

  /** As many fair rounds as there are steps left bring the program to its end. */
  lemma {:induction false} RoundsFinish(p: Program, s: State, rounds: seq<seq<Move>>)
    requires Valid(p) && Inv(p, s) && Started(s) && FairRounds(p, rounds)
    requires WellSized(s) && |rounds| > Total(p, s)
    ensures AllDone(p, RunRounds(p, s, rounds)) && Inv(p, RunRounds(p, s, rounds))
    decreases |rounds|
  {
    hide Inv, Started, Total, FairRound, AllDone;
    var u := RunFrom(p, s, rounds[0]);
    FromLess(p, s, rounds[0]);
    if Total(p, u) == Total(p, s) {
      RoundStuck(p, s, rounds[0]);
      NoDeadlock(p, s);
      RoundsStay(p, s, rounds);
    } else {
      RoundsFinish(p, u, rounds[1..]);
    }
  }

  lemma {:induction false} RoundsStay(p: Program, s: State, rounds: seq<seq<Move>>)
    requires Inv(p, s) && AllDone(p, s)
    ensures RunRounds(p, s, rounds) == s
    decreases |rounds|
  {
    hide AllDone, RegionsGood, MainGood;
    if rounds != [] {
      DoneStays(p, s, rounds[0]);
      RoundsStay(p, s, rounds[1..]);
    }
  }

  /** From every reachable state of every program, every fair continuation that is long enough brings the main thread
      to the end of the program, all threads of all regions to their ends, and every region's function to exactly one
      complete run in each of its threads. */
  lemma {:induction false} ForkJoinTerminates(p: Program, moves: seq<Move>, rounds: seq<seq<Move>>)
    requires Valid(p) && FairRounds(p, rounds) && |rounds| > Total(p, Run(p, moves))
    ensures var s := RunRounds(p, Run(p, moves), rounds);
            AllDone(p, s) && forall r :: 0 <= r < |p.jobs| ==> Joined(p, p.jobs[r], s.regions[r])
  {
    InitGood(p);
    RunIsFrom(p, moves);
    FromLess(p, Init(), moves);
    var s := RunRounds(p, Run(p, moves), rounds);
    RoundsFinish(p, Run(p, moves), rounds);
    forall r | 0 <= r < |p.jobs|
      ensures Joined(p, p.jobs[r], s.regions[r])
    {
      assert RegionGood(p, s.job, r, s.regions[r]);
      ArrivedIsJoined(p, s.job, r, s.regions[r]);
    }
  }

  lemma InitGood(p: Program)
    requires Valid(p)
    ensures Inv(p, Init()) && Started(Init())
  {
    RunInv(p, []);
  }
}
