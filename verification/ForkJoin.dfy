/** bomp/lib/processing.c and parallel.c: a program that executes one parallel region after the other, as a transition
    system with one step for each shared access. Every region has a barrier of its own, a state of module Barrier. */
module ForkJoin {
  import B = Barrier

  datatype Option<T> = None | Some(value: T)

  /** One parallel region: the number of threads asked for (0: not stated), and how often its function calls
      GOMP_barrier. */
  datatype Job = Job(request: nat, barriers: nat)

  /** The program, with bomp_num_threads and bomp_dynamic_behaviour. */
  datatype Program = Program(jobs: seq<Job>, num: nat, dynamic: bool)

  /** Where a thread of a region stands. */
  datatype Pc =
    | NotCreated
    | Start                     // bomp_set_tls: the read of the global array pointer comes next
    | Have(table: Option<nat>)  // has read it; the store of its slot comes next
    | Running(passed: nat)      // in the region's function, past so many barriers
    | Waiting                   // its function has returned; in the final barrier
    | Finished
  {
    predicate BeforeFn() { NotCreated? || Start? || Have? }
    predicate AfterFn() { Waiting? || Finished? }
  }

  /** A region's memory: its barrier and its slots (set or not), and for each thread where it stands and how often
      it has run the function to its end. */
  datatype Region = Region(barriers: nat, bar: B.State, slots: seq<bool>, pcs: seq<Pc>, runs: seq<nat>)
  {
    function Goto(i: nat, pc: Pc): Region
      requires i < |pcs|
    {
      this.(pcs := pcs[i := pc])
    }

    predicate Sized() { |slots| == |pcs| == |runs| == bar.N() }
  }

  /** Where the main thread stands; it is thread 0 of each region. */
  datatype Main =
    | Enter                     // GOMP_parallel_start: the test of omp_in_parallel
    | SetCount(n: nat)          // the store of g_thread_numbers
    | SetArray(n: nat)          // the store of the pointer to new memory
    | OwnTls                    // bomp_set_tls for itself
    | Create(i: nat)            // starts thread i
    | CountIn                   // nested++
    | Body                      // the region's function
    | EndTest                   // GOMP_parallel_end: nested == 1
    | Join                      // bomp_end_processing: the final barrier
    | ClearArray                // the store of NULL
    | ResetCount                // g_thread_numbers = 1
    | CountOut                  // nested--

  /** job counts the regions left behind; work is the main thread's work record, given by its region; lost is set when
      a null or foreign pointer is used, or the path of a nested region taken. */
  datatype State = State(
    main: Main,
    job: nat,
    count: nat,
    table: Option<nat>,
    nested: int,
    work: Option<nat>,
    regions: seq<Region>,
    lost: bool)

  datatype Move = MainMoves | WorkerMoves(region: nat, id: nat)

  function Init(): State { State(Enter, 0, 1, None, 0, None, [], false) }

  /** GOMP_parallel_start: how many threads a region gets. */
  function Threads(p: Program, j: Job): nat {
    if j.request == 0 || (p.dynamic && p.num < j.request) then p.num else j.request
  }

  function NewRegion(n: nat, barriers: nat): (r: Region)
    ensures r.Sized() && |r.pcs| == n
  {
    Region(barriers, B.Init(n), seq(n, _ => false), seq(n, i => if i == 0 then Start else NotCreated), seq(n, _ => 0))
  }

  /** One step of thread i in its function or its final barrier: a step of the region's barrier, or the return of the
      function. */
  function ThreadStep(r: Region, i: nat): (r': Region)
    requires r.Sized() && i < |r.pcs|
    ensures r'.Sized() && |r'.pcs| == |r.pcs| && r'.slots == r.slots && r'.barriers == r.barriers
    ensures forall j :: 0 <= j < |r.pcs| && j != i ==> r'.pcs[j] == r.pcs[j] && r'.runs[j] == r.runs[j]
  {
    match r.pcs[i]
    case Running(k) =>
      if k < r.barriers then
        var b := B.Step(r.bar, i);
        r.(bar := b, pcs := r.pcs[i := Running(if B.Returned(r.bar, b, i) then k + 1 else k)])
      else
        r.(pcs := r.pcs[i := Waiting], runs := r.runs[i := r.runs[i] + 1])
    case Waiting =>
      var b := B.Step(r.bar, i);
      r.(bar := b, pcs := r.pcs[i := if B.Returned(r.bar, b, i) then Finished else Waiting])
    case _ => r
  }

  predicate WellSized(s: State) { forall r :: 0 <= r < |s.regions| ==> s.regions[r].Sized() }

  /** bomp_set_tls of thread i of region r: reads the global pointer, then stores through it. */
  function TlsStep(s: State, r: nat, i: nat): (s': State)
    requires WellSized(s) && r < |s.regions| && i < |s.regions[r].pcs|
    ensures WellSized(s') && |s'.regions| == |s.regions| && |s'.regions[r].pcs| == |s.regions[r].pcs|
  {
    match s.regions[r].pcs[i]
    case Start => s.(regions := s.regions[r := s.regions[r].Goto(i, Have(s.table))])
    case Have(Some(q)) =>
      if q < |s.regions| && i < |s.regions[q].slots| then
        var stored := s.regions[q := s.regions[q].(slots := s.regions[q].slots[i := true])];
        s.(regions := stored[r := stored[r].Goto(i, Running(0))])
      else s.(lost := true)
    case _ => s.(lost := true)
  }

  function WorkerStep(s: State, r: nat, i: nat): State
    requires WellSized(s)
  {
    if !(r < |s.regions| && 0 < i < |s.regions[r].pcs|) then s
    else if s.regions[r].pcs[i].Start? || s.regions[r].pcs[i].Have? then TlsStep(s, r, i)
    else s.(regions := s.regions[r := ThreadStep(s.regions[r], i)])
  }

  /** The region of the main thread's own work record. */
  predicate HasOwn(s: State) {
    s.work.Some? && s.work.value < |s.regions| && |s.regions[s.work.value].pcs| > 0
  }

  function MainStep(p: Program, s: State): State
    requires WellSized(s)
  {
    match s.main
    case Enter =>
      if s.job >= |p.jobs| then s
      else if s.count == 1 then s.(main := SetCount(Threads(p, p.jobs[s.job])))
      else s.(lost := true)
    case SetCount(n) => s.(count := n, main := SetArray(n))
    case SetArray(n) =>
      if s.job >= |p.jobs| then s.(lost := true)
      else s.(regions := s.regions + [NewRegion(n, p.jobs[s.job].barriers)], table := Some(|s.regions|),
                  work := Some(|s.regions|), main := OwnTls)
    case OwnTls =>
      if !HasOwn(s) then s.(lost := true)
      else
        var s' := TlsStep(s, s.work.value, 0);
        if s'.regions[s.work.value].pcs[0].Running? then s'.(main := Create(1)) else s'
    case Create(i) =>
      if !HasOwn(s) then s.(lost := true)
      else if i < |s.regions[s.work.value].pcs| then
        s.(regions := s.regions[s.work.value := s.regions[s.work.value].Goto(i, Start)], main := Create(i + 1))
      else s.(main := CountIn)
    case CountIn => s.(nested := s.nested + 1, main := Body)
    case Body =>
      if !HasOwn(s) then s.(lost := true)
      else
        var r := ThreadStep(s.regions[s.work.value], 0);
        s.(regions := s.regions[s.work.value := r], main := if r.pcs[0].Waiting? then EndTest else Body)
    case EndTest => if s.nested == 1 then s.(main := Join) else s.(lost := true)
    case Join =>
      if s.table == None || s.table.value >= |s.regions| || |s.regions[s.table.value].pcs| == 0
         || !s.regions[s.table.value].slots[0]
      then
        s.(lost := true)
      else
        var r := ThreadStep(s.regions[s.table.value], 0);
        s.(regions := s.regions[s.table.value := r], main := if r.pcs[0].Finished? then ClearArray else Join)
    case ClearArray => s.(table := None, main := ResetCount)
    case ResetCount => s.(count := 1, main := CountOut)
    case CountOut => s.(nested := s.nested - 1, job := s.job + 1, main := Enter)
  }

  function Step(p: Program, s: State, m: Move): State
    requires WellSized(s)
  {
    match m
    case MainMoves => MainStep(p, s)
    case WorkerMoves(r, i) => WorkerStep(s, r, i)
  }

  lemma SizedStep(p: Program, s: State, m: Move)
    requires WellSized(s)
    ensures WellSized(Step(p, s, m))
  {
    hide ThreadStep, TlsStep, NewRegion;
  }

  function Run(p: Program, moves: seq<Move>): (s: State)
    ensures WellSized(s)
  {
    if moves == [] then Init()
    else
      SizedStep(p, Run(p, moves[..|moves| - 1]), moves[|moves| - 1]);
      Step(p, Run(p, moves[..|moves| - 1]), moves[|moves| - 1])
  }

  // ---------- The invariant ----------

  /** Where thread i of a region stands agrees with what it has done in the barrier, its slot and its runs. */
  ghost predicate ThreadInv(r: Region, i: nat)
    requires r.Sized() && i < |r.pcs|
  {
    var t := r.bar.threads[i];
    match r.pcs[i]
    case Running(k) =>
      && t.left == k <= r.barriers && r.runs[i] == 0 && r.slots[i]
      && (k == r.barriers ==> t.phase.Idle?)
    case Waiting => t.left == r.barriers && r.runs[i] == 1 && r.slots[i]
    case Finished => t.left == r.barriers + 1 && t.phase.Idle? && r.runs[i] == 1 && r.slots[i]
    case _ => t == B.Thread(B.Idle, 0, 0) && r.runs[i] == 0 && !r.slots[i]
  }

  ghost predicate RegionInv(r: Region) {
    r.Sized() && |r.pcs| > 0 && B.Inv(r.bar) && forall i :: 0 <= i < |r.pcs| ==> ThreadInv(r, i)
  }

  /** All threads have arrived at the final barrier, and none can do more there than leave. */
  ghost predicate AllArrived(r: Region)
    requires r.Sized()
  {
    r.bar.flips == r.barriers + 1 && forall i :: 0 <= i < |r.pcs| ==> r.pcs[i].AfterFn()
  }

  /** A thread's step in its function or final barrier keeps its region's invariant. */
  lemma RegionStep(r: Region, i: nat)
    requires RegionInv(r) && i < |r.pcs| && !r.pcs[i].BeforeFn()
    ensures RegionInv(ThreadStep(r, i)) && !ThreadStep(r, i).pcs[i].BeforeFn()
    ensures AllArrived(r) ==> AllArrived(ThreadStep(r, i))
    ensures ThreadStep(r, i).pcs[i].Finished? ==> AllArrived(ThreadStep(r, i))
  {
    assert ThreadInv(r, i);
    B.StepEffect(r.bar, i);
    var r' := ThreadStep(r, i);
    forall j | 0 <= j < |r.pcs|
      ensures ThreadInv(r', j)
    {
      assert ThreadInv(r, j);
    }
    if r'.pcs[i].Finished? {
      FinishedMeansArrived(r', i);
    }
  }

  /** When one thread has left the final barrier, all have arrived at it: this is the barrier's safety. */
  lemma FinishedMeansArrived(r: Region, i: nat)
    requires RegionInv(r) && i < |r.pcs| && r.pcs[i].Finished?
    ensures AllArrived(r)
  {
    B.InvIsSafe(r.bar);
    assert ThreadInv(r, i) && B.ThreadOk(r.bar.threads[i], r.bar.flips, r.bar.cycle);
    forall j | 0 <= j < |r.pcs|
      ensures r.pcs[j].AfterFn()
    {
      assert ThreadInv(r, j) && B.ThreadOk(r.bar.threads[j], r.bar.flips, r.bar.cycle);
      assert r.bar.threads[i].left <= r.bar.threads[j].arrived;
    }
  }

  /** What holds of region r, of which there are job left behind. */
  ghost predicate RegionGood(p: Program, job: nat, r: nat, x: Region) {
    && r < |p.jobs| && RegionInv(x) && x.barriers == p.jobs[r].barriers && |x.pcs| == Threads(p, p.jobs[r])
    && (r < job ==> AllArrived(x))
    && forall i :: 0 <= i < |x.pcs| && x.pcs[i].Have? ==> x.pcs[i].table == Some(r)
  }

  ghost predicate RegionsGood(p: Program, s: State) {
    forall r :: 0 <= r < |s.regions| ==> RegionGood(p, s.job, r, s.regions[r])
  }

  /** The threads from i on have not been started. */
  predicate Uncreated(x: Region, i: nat) { forall j :: i <= j < |x.pcs| ==> x.pcs[j].NotCreated? }

  /** The global pointer and counters fit the place of the main thread. */
  ghost predicate MainGood(p: Program, s: State) {
    if s.main.Enter? || s.main.SetCount? || s.main.SetArray? then
      && |s.regions| == s.job <= |p.jobs| && s.table == None && s.nested == 0
      && (s.main.Enter? ==> s.count == 1)
      && (s.main.SetCount? ==> s.job < |p.jobs| && s.main.n == Threads(p, p.jobs[s.job]))
      && (s.main.SetArray? ==> s.job < |p.jobs| && s.count == s.main.n == Threads(p, p.jobs[s.job]))
    else
      && s.work == Some(s.job) && |s.regions| == s.job + 1 <= |p.jobs| && |s.regions[s.job].pcs| > 0
      && s.table == (if s.main.ResetCount? || s.main.CountOut? then None else Some(s.job))
      && s.nested == (if s.main.OwnTls? || s.main.Create? || s.main.CountIn? then 0 else 1)
      && s.count == (if s.main.CountOut? then 1 else |s.regions[s.job].pcs|)
      && MainPcGood(s.main, s.regions[s.job])
  }

  ghost predicate MainPcGood(main: Main, x: Region)
    requires |x.pcs| > 0
  {
    match main
    case OwnTls => (x.pcs[0].Start? || x.pcs[0].Have?) && Uncreated(x, 1)
    case Create(i) => x.pcs[0].Running? && 1 <= i && Uncreated(x, i)
    case CountIn => x.pcs[0].Running?
    case Body => x.pcs[0].Running?
    case EndTest => x.pcs[0].Waiting?
    case Join => x.pcs[0].Waiting?
    case _ => x.pcs[0].Finished?
  }

  ghost predicate Inv(p: Program, s: State) {
    !s.lost && WellSized(s) && RegionsGood(p, s) && MainGood(p, s)
  }

  /** A region after a change that keeps its invariant, in its place among the others. */
  lemma Replace(p: Program, s: State, r: nat, x: Region)
    requires RegionsGood(p, s) && r < |s.regions| && RegionGood(p, s.job, r, x)
    ensures RegionsGood(p, s.(regions := s.regions[r := x]))
  {
    hide RegionGood;
  }

  /** A region in which a thread takes a step of its own. */
  lemma GoodStep(p: Program, job: nat, r: nat, x: Region, i: nat)
    requires RegionGood(p, job, r, x) && i < |x.pcs| && !x.pcs[i].BeforeFn()
    ensures RegionGood(p, job, r, ThreadStep(x, i)) && !ThreadStep(x, i).pcs[i].BeforeFn()
  {
    RegionStep(x, i);
    hide RegionInv, AllArrived;
  }

  /** A worker in bomp_set_tls belongs to the region under way, and the global pointer points to that region. */
  lemma PointerIsOwn(p: Program, s: State, r: nat, i: nat)
    requires Inv(p, s) && r < |s.regions| && i < |s.regions[r].pcs|
    requires s.regions[r].pcs[i].Start? || s.regions[r].pcs[i].Have?
    ensures r == s.job && s.table == Some(r)
  {
    var x := s.regions[r];
    assert RegionGood(p, s.job, r, x);
    assert !AllArrived(x) by {
      assert !x.pcs[i].AfterFn();
    }
    if x.pcs[0].Finished? {
      FinishedMeansArrived(x, 0);
      assert false;
    }
  }

  /** Setting thread-local data: through the pointer of the thread's own region, into a slot not set before. */
  lemma TlsKeeps(p: Program, s: State, r: nat, i: nat)
    requires Inv(p, s) && r < |s.regions| && i < |s.regions[r].pcs|
    requires s.regions[r].pcs[i].Start? || s.regions[r].pcs[i].Have?
    ensures var s' := TlsStep(s, r, i);
            s' == s.(regions := s'.regions) && RegionsGood(p, s') && s'.regions == s.regions[r := s'.regions[r]]
            && s'.regions[r].pcs ==
                 s.regions[r].pcs[i := if s.regions[r].pcs[i].Start? then Have(Some(r)) else Running(0)]
  {
    PointerIsOwn(p, s, r, i);
    var x := s.regions[r];
    assert RegionGood(p, s.job, r, x);
    var y := if x.pcs[i].Start? then x.Goto(i, Have(Some(r))) else x.(slots := x.slots[i := true]).Goto(i, Running(0));
    assert ThreadInv(x, i);
    forall j | 0 <= j < |y.pcs|
      ensures ThreadInv(y, j)
    {
      assert ThreadInv(x, j);
    }
    assert !AllArrived(x) by { assert !x.pcs[i].AfterFn(); }
    Replace(p, s, r, y);
    assert TlsStep(s, r, i).regions == s.regions[r := y];
  }

  lemma WorkerKeeps(p: Program, s: State, r: nat, i: nat)
    requires Inv(p, s)
    ensures Inv(p, WorkerStep(s, r, i))
  {
    hide ThreadStep, RegionGood, TlsStep;
    if r < |s.regions| && 0 < i < |s.regions[r].pcs| {
      var x := s.regions[r];
      assert RegionGood(p, s.job, r, x);
      if x.pcs[i].Start? || x.pcs[i].Have? {
        TlsKeeps(p, s, r, i);
      } else if x.pcs[i].NotCreated? {
        assert ThreadStep(x, i) == x by { NotStarted(x, i); }
      } else {
        GoodStep(p, s.job, r, x, i);
        Replace(p, s, r, ThreadStep(x, i));
      }
    }
  }

  lemma NotStarted(x: Region, i: nat)
    requires x.Sized() && i < |x.pcs| && x.pcs[i].NotCreated?
    ensures ThreadStep(x, i) == x
  {
  }

  lemma NewRegionGood(p: Program, job: nat, n: nat)
    requires job < |p.jobs| && n == Threads(p, p.jobs[job]) > 0
    ensures RegionGood(p, job, job, NewRegion(n, p.jobs[job].barriers))
  {
    var x := NewRegion(n, p.jobs[job].barriers);
    B.InitInv(n);
  }

  /** Starting thread i. */
  lemma CreateGood(p: Program, job: nat, r: nat, x: Region, i: nat)
    requires RegionGood(p, job, r, x) && 0 < i < |x.pcs| && Uncreated(x, i)
    ensures RegionGood(p, job, r, x.Goto(i, Start)) && Uncreated(x.Goto(i, Start), i + 1)
  {
    var y := x.Goto(i, Start);
    assert ThreadInv(x, i);
    assert !AllArrived(x) by {
      assert !x.pcs[i].AfterFn();
    }
    forall j | 0 <= j < |y.pcs|
      ensures ThreadInv(y, j)
    {
      assert ThreadInv(x, j);
    }
  }

  /** Once the main thread has left the final barrier, its region can be left behind. */
  lemma LeaveBehind(p: Program, s: State)
    requires Inv(p, s) && s.main.CountOut?
    ensures RegionsGood(p, s.(job := s.job + 1))
  {
    var s' := s.(job := s.job + 1);
    forall r | 0 <= r < |s.regions|
      ensures RegionGood(p, s'.job, r, s'.regions[r])
    {
      assert RegionGood(p, s.job, r, s.regions[r]);
      if r == s.job {
        FinishedMeansArrived(s.regions[r], 0);
      }
    }
  }

  predicate Valid(p: Program) { p.num > 0 }

  /** The main thread in its function, and in the final barrier. */
  lemma OwnStep(x: Region, i: nat)
    requires x.Sized() && i < |x.pcs|
    ensures x.pcs[i].Running? ==> ThreadStep(x, i).pcs[i].Running? || ThreadStep(x, i).pcs[i].Waiting?
    ensures x.pcs[i].Waiting? ==> ThreadStep(x, i).pcs[i].Waiting? || ThreadStep(x, i).pcs[i].Finished?
  {
  }

  lemma MainKeeps(p: Program, s: State)
    requires Valid(p) && Inv(p, s)
    ensures Inv(p, MainStep(p, s))
  {
    hide ThreadStep, RegionGood, TlsStep, NewRegion, Threads;
    match s.main
    case OwnTls =>
      TlsKeeps(p, s, s.job, 0);
    case Create(i) =>
      var x := s.regions[s.job];
      if i < |x.pcs| {
        assert RegionGood(p, s.job, s.job, x);
        CreateGood(p, s.job, s.job, x, i);
        Replace(p, s, s.job, x.Goto(i, Start));
      }
    case SetArray(n) =>
      ThreadsPositive(p, p.jobs[s.job]);
      NewRegionGood(p, s.job, n);
      NewRegionPcs(n, p.jobs[s.job].barriers);
    case CountOut =>
      LeaveBehind(p, s);
    case Body =>
      MainOwnStep(p, s);
    case Join =>
      SlotSet(p, s);
      MainOwnStep(p, s);
    case _ =>
  }

  lemma ThreadsPositive(p: Program, j: Job)
    requires Valid(p)
    ensures Threads(p, j) > 0
  {
  }

  lemma NewRegionPcs(n: nat, barriers: nat)
    requires n > 0
    ensures NewRegion(n, barriers).pcs[0] == Start && Uncreated(NewRegion(n, barriers), 1)
  {
  }

  lemma SlotSet(p: Program, s: State)
    requires Inv(p, s) && s.main.Join?
    ensures |s.regions[s.job].slots| > 0 && s.regions[s.job].slots[0]
  {
    assert RegionGood(p, s.job, s.job, s.regions[s.job]);
    assert ThreadInv(s.regions[s.job], 0);
  }

  lemma MainOwnStep(p: Program, s: State)
    requires Inv(p, s) && (s.main.Body? || s.main.Join?)
    ensures RegionsGood(p, s.(regions := s.regions[s.job := ThreadStep(s.regions[s.job], 0)]))
    ensures s.main.Body? ==>
              ThreadStep(s.regions[s.job], 0).pcs[0].Running? || ThreadStep(s.regions[s.job], 0).pcs[0].Waiting?
    ensures s.main.Join? ==>
              ThreadStep(s.regions[s.job], 0).pcs[0].Waiting? || ThreadStep(s.regions[s.job], 0).pcs[0].Finished?
  {
    hide ThreadStep, RegionGood;
    var x := s.regions[s.job];
    assert RegionGood(p, s.job, s.job, x);
    GoodStep(p, s.job, s.job, x, 0);
    Replace(p, s, s.job, ThreadStep(x, 0));
    OwnStep(x, 0);
  }

  lemma {:induction false} RunInv(p: Program, moves: seq<Move>)
    requires Valid(p)
    ensures Inv(p, Run(p, moves))
  {
    if moves != [] {
      var pre, m := moves[..|moves| - 1], moves[|moves| - 1];
      RunInv(p, pre);
      match m
      case MainMoves => MainKeeps(p, Run(p, pre));
      case WorkerMoves(r, i) => WorkerKeeps(p, Run(p, pre), r, i);
    }
  }

  // ---------- Fork and join ----------

  /** How many threads a region has: as many as asked for, unless there is a bound and that is more; if none are asked
      for, as many as there may be. */
  predicate TeamSize(p: Program, j: Job, n: nat) {
    && (j.request > 0 && (!p.dynamic || j.request <= p.num) ==> n == j.request)
    && (j.request == 0 || (p.dynamic && j.request > p.num) ==> n == p.num)
  }

  lemma ThreadsIsTeamSize(p: Program, j: Job)
    ensures TeamSize(p, j, Threads(p, j))
  {
  }

  /** Every thread of a region has run the function exactly once and to its end, has passed each of its barriers, and
      has had its thread-local data set. */
  ghost predicate Joined(p: Program, j: Job, x: Region) {
    && x.Sized() && |x.pcs| == Threads(p, j) && TeamSize(p, j, |x.pcs|)
    && forall i :: 0 <= i < |x.pcs| ==> x.runs[i] == 1 && x.slots[i] && x.bar.threads[i].left >= j.barriers
  }

  /** The main thread has returned from the final barrier of its region. */
  predicate AfterJoin(m: Main) { m.ClearArray? || m.ResetCount? || m.CountOut? }

  /** Between the fork and the end of the join. */
  predicate InRegion(m: Main) { !m.Enter? && !m.SetCount? && !m.SetArray? && !m.CountOut? }

  /** For all programs and all schedules: no null or foreign pointer is ever used; whoever holds the global pointer to
      store through it holds that of its own region, which is still the current one; every region's barrier is safe;
      and every region that the main thread has joined is complete. */
  ghost predicate Good(p: Program, s: State) {
    && !s.lost
    && (forall r, i :: 0 <= r < |s.regions| && 0 <= i < |s.regions[r].pcs| && s.regions[r].pcs[i].Have? ==>
          s.regions[r].pcs[i].table == s.table == Some(r))
    && |s.regions| >= s.job && |p.jobs| >= |s.regions|
    && (forall r :: 0 <= r < |s.regions| ==> B.Safe(s.regions[r].bar))
    && (forall r :: 0 <= r < s.job ==> Joined(p, p.jobs[r], s.regions[r]))
    && (AfterJoin(s.main) ==> |s.regions| == s.job + 1 && Joined(p, p.jobs[s.job], s.regions[s.job]))
    && (InRegion(s.main) ==>
          |s.regions| == s.job + 1 && s.count == |s.regions[s.job].pcs| && TeamSize(p, p.jobs[s.job], s.count))
    && (s.main.Enter? ==> s.count == 1)
  }

  lemma ArrivedIsJoined(p: Program, job: nat, r: nat, x: Region)
    requires RegionGood(p, job, r, x) && AllArrived(x)
    ensures Joined(p, p.jobs[r], x)
  {
    ThreadsIsTeamSize(p, p.jobs[r]);
    forall i | 0 <= i < |x.pcs|
      ensures x.runs[i] == 1 && x.slots[i] && x.bar.threads[i].left >= x.barriers
    {
      assert ThreadInv(x, i);
    }
  }

  lemma {:induction false} ForkJoinSafety(p: Program, moves: seq<Move>)
    requires Valid(p)
    ensures Good(p, Run(p, moves))
  {
    RunInv(p, moves);
    var s := Run(p, moves);
    forall r | 0 <= r < |s.regions| && (r < s.job || (r == s.job && AfterJoin(s.main)))
      ensures Joined(p, p.jobs[r], s.regions[r])
    {
      assert RegionGood(p, s.job, r, s.regions[r]);
      if r == s.job {
        FinishedMeansArrived(s.regions[r], 0);
      }
      ArrivedIsJoined(p, s.job, r, s.regions[r]);
    }
    if InRegion(s.main) {
      assert RegionGood(p, s.job, s.job, s.regions[s.job]);
      ThreadsIsTeamSize(p, p.jobs[s.job]);
    }
    forall r | 0 <= r < |s.regions|
      ensures B.Safe(s.regions[r].bar)
    {
      assert RegionGood(p, s.job, r, s.regions[r]);
      B.InvIsSafe(s.regions[r].bar);
    }
    forall r, i | 0 <= r < |s.regions| && 0 <= i < |s.regions[r].pcs| && s.regions[r].pcs[i].Have?
      ensures s.regions[r].pcs[i].table == s.table == Some(r)
    {
      assert RegionGood(p, s.job, r, s.regions[r]);
      PointerIsOwn(p, s, r, i);
    }
  }

  lemma LateStep(x: Region, i: nat)
    requires RegionInv(x) && AllArrived(x) && i < |x.pcs|
    ensures x.pcs[i].AfterFn()
    ensures ThreadStep(x, i) == x || (x.pcs[i].Waiting?
              && ThreadStep(x, i) == x.(bar := x.bar.Leave(i)).Goto(i, Finished))
  {
    assert ThreadInv(x, i);
    B.StepEffect(x.bar, i);
  }

  /** A thread that is late in leaving the final barrier of a joined region changes nothing there or elsewhere: not
      the barrier's cycle or counter, no slot and no global. It only returns. */
  lemma {:induction false} LateSpinners(p: Program, moves: seq<Move>, r: nat, i: nat)
    requires Valid(p) && r < |Run(p, moves).regions| && i < |Run(p, moves).regions[r].pcs| && i > 0
    requires r < Run(p, moves).job || AfterJoin(Run(p, moves).main)
    ensures var s := Run(p, moves);
            var x := s.regions[r];
            var s' := Step(p, s, WorkerMoves(r, i));
            s' == s || (x.pcs[i].Waiting?
                && s' == s.(regions := s.regions[r := x.(bar := x.bar.Leave(i)).Goto(i, Finished)]))
  {
    RunInv(p, moves);
    var s := Run(p, moves);
    var x := s.regions[r];
    assert RegionGood(p, s.job, r, x);
    if r >= s.job {
      FinishedMeansArrived(x, 0);
    }
    LateStep(x, i);
    hide ThreadStep, Run, RegionInv, AllArrived, TlsStep, RegionsGood, MainGood;
    assert s.regions[r := x] == s.regions;
  }
}
