/** The reusable cycle-flipping barrier of bomp/lib/spin.h as a transition system with one step
    per shared access, under sequential consistency.  `arrived`, `left` and `flips` are auxiliary:
    they count what has happened and no step's choice depends on them. */
module Barrier {

  /** Where a thread stands inside bomp_barrier_wait. */
  datatype Phase =
    | Idle                   // outside the call
    | Entered(seen: bool)    // has read cycle; the fetch-and-add comes next
    | Resetting              // arrived last; the store of 0 to counter comes next
    | Reading                // the read of cycle that feeds the flip comes next
    | Flipping(next: bool)   // the store of the negated cycle comes next
    | Spinning(seen: bool)   // tests seen == cycle on every step
  {
    predicate IsLast() { Resetting? || Reading? || Flipping? }
  }

  /** `arrived` counts fetch-and-adds, `left` counts returns from the call. */
  datatype Thread = Thread(phase: Phase, arrived: nat, left: nat)

  datatype State = State(cycle: bool, counter: nat, threads: seq<Thread>, flips: nat)
  {
    function N(): nat { |threads| }

    /** The state after thread i has moved on to phase p, the rest unchanged. */
    function Goto(i: nat, p: Phase): State
      requires i < N()
    {
      this.(threads := threads[i := threads[i].(phase := p)])
    }

    /** Thread i returns from the call. */
    function Leave(i: nat): State
      requires i < N()
    {
      this.(threads := threads[i := threads[i].(phase := Idle, left := threads[i].left + 1)])
    }
  }

  function Init(n: nat): State {
    State(false, 0, seq(n, _ => Thread(Idle, 0, 0)), 0)
  }

  /** One shared access by thread i.  A step from Idle is a call of bomp_barrier_wait. */
  function Step(s: State, i: nat): State
    requires i < s.N()
  {
    match s.threads[i].phase
    case Idle => s.Goto(i, Entered(s.cycle))
    case Entered(c) =>
      var t := s.threads[i].(arrived := s.threads[i].arrived + 1,
                             phase := if s.counter == s.N() - 1 then Resetting else Spinning(c));
      s.(counter := s.counter + 1, threads := s.threads[i := t])
    case Resetting => s.Goto(i, Reading).(counter := 0)
    case Reading => s.Goto(i, Flipping(!s.cycle))
    case Flipping(v) => s.Leave(i).(cycle := v, flips := s.flips + 1)
    case Spinning(c) => if c == s.cycle then s else s.Leave(i)
  }

  ghost predicate IsSchedule(n: nat, sched: seq<nat>) {
    forall k :: 0 <= k < |sched| ==> sched[k] < n
  }

  /** The state after the threads named in sched have stepped in that order. */
  function Run(s: State, sched: seq<nat>): (r: State)
    requires IsSchedule(s.N(), sched)
    ensures r.N() == s.N()
  {
    if sched == [] then s else Step(Run(s, sched[..|sched| - 1]), sched[|sched| - 1])
  }

  // ---------- The invariant ----------

  /** How many threads have performed exactly r fetch-and-adds. */
  ghost function Count(ts: seq<Thread>, r: nat): nat {
    if ts == [] then 0 else Count(ts[1..], r) + if ts[0].arrived == r then 1 else 0
  }

  ghost predicate ThreadOk(t: Thread, flips: nat, cycle: bool) {
    match t.phase
    case Idle => t.arrived == t.left == flips
    case Entered(c) => t.arrived == t.left == flips && c == cycle
    case Resetting => t.arrived == flips + 1 && t.left == flips
    case Reading => t.arrived == flips + 1 && t.left == flips
    case Flipping(v) => t.arrived == flips + 1 && t.left == flips && v == !cycle
    case Spinning(c) => t.arrived == t.left + 1 && t.arrived == if c == cycle then flips + 1 else flips
  }

  ghost predicate LastOk(s: State, i: nat)
    requires i < s.N()
  {
    s.threads[i].phase.IsLast() ==>
      && s.counter == (if s.threads[i].phase.Resetting? then s.N() else 0)
      && forall j {:trigger s.threads[j]} :: 0 <= j < s.N() ==>
           s.threads[j].arrived == s.flips + 1 && (j != i ==> !s.threads[j].phase.IsLast())
  }

  ghost predicate NoLast(s: State) {
    forall i {:trigger s.threads[i]} :: 0 <= i < s.N() ==> !s.threads[i].phase.IsLast()
  }

  ghost predicate Inv(s: State) {
    && s.N() >= 1
    && s.cycle == (s.flips % 2 == 1)
    && (forall i {:trigger s.threads[i]} :: 0 <= i < s.N() ==> ThreadOk(s.threads[i], s.flips, s.cycle))
    && (forall i {:trigger LastOk(s, i)} :: 0 <= i < s.N() ==> LastOk(s, i))
    && (NoLast(s) ==> s.counter == Count(s.threads, s.flips + 1) < s.N())
  }

  lemma {:induction false} CountUpdate(ts: seq<Thread>, i: nat, t: Thread, r: nat)
    requires i < |ts|
    ensures Count(ts[i := t], r)
         == Count(ts, r) - (if ts[i].arrived == r then 1 else 0) + (if t.arrived == r then 1 else 0)
  {
    if i > 0 {
      assert ts[i := t][1..] == ts[1..][i - 1 := t];
      CountUpdate(ts[1..], i - 1, t, r);
    } else {
      assert ts[0 := t][1..] == ts[1..];
    }
  }

  /** The count is between 0 and |ts|; it is |ts| exactly when all threads are counted. */
  lemma {:induction false} CountExtremes(ts: seq<Thread>, r: nat)
    ensures Count(ts, r) <= |ts|
    ensures Count(ts, r) == |ts| <==> forall i {:trigger ts[i]} :: 0 <= i < |ts| ==> ts[i].arrived == r
    ensures Count(ts, r) == 0 <==> forall i {:trigger ts[i]} :: 0 <= i < |ts| ==> ts[i].arrived != r
  {
    if ts != [] {
      CountExtremes(ts[1..], r);
      assert forall i {:trigger ts[i]} :: 1 <= i < |ts| ==> ts[i] == ts[1..][i - 1];
      assert forall i {:trigger ts[1..][i]} :: 0 <= i < |ts| - 1 ==> ts[i + 1] == ts[1..][i];
    }
  }

  lemma InitInv(n: nat)
    requires n >= 1
    ensures Inv(Init(n))
  {
    CountExtremes(Init(n).threads, 1);
  }

  /** The last arriver's own steps: reset, read, flip. */
  lemma LastStepInv(s: State, i: nat)
    requires i < s.N() && Inv(s) && s.threads[i].phase.IsLast()
    ensures Inv(Step(s, i))
  {
    var s' := Step(s, i);
    assert LastOk(s, i) && ThreadOk(s.threads[i], s.flips, s.cycle);
    CountExtremes(s'.threads, s'.flips + 1);
    forall j | 0 <= j < s.N()
      ensures LastOk(s', j) && ThreadOk(s'.threads[j], s'.flips, s'.cycle)
    {
      assert LastOk(s, j) && ThreadOk(s.threads[j], s.flips, s.cycle);
    }
    if NoLast(s') {
      assert !s'.threads[i].phase.IsLast();
    }
  }

  /** The fetch-and-add: the arriving thread is chosen to be last exactly when all have arrived. */
  lemma ArriveInv(s: State, i: nat)
    requires i < s.N() && Inv(s) && NoLast(s) && s.threads[i].phase.Entered?
    ensures Inv(Step(s, i))
  {
    var s' := Step(s, i);
    assert ThreadOk(s.threads[i], s.flips, s.cycle);
    CountUpdate(s.threads, i, s'.threads[i], s.flips + 1);
    CountExtremes(s'.threads, s.flips + 1);
    forall j | 0 <= j < s.N()
      ensures LastOk(s', j) && ThreadOk(s'.threads[j], s'.flips, s'.cycle)
    {
      assert ThreadOk(s.threads[j], s.flips, s.cycle);
    }
    if NoLast(s') {
      assert !s'.threads[i].phase.IsLast();
    }
  }

  lemma StepInv(s: State, i: nat)
    requires i < s.N() && Inv(s)
    ensures Inv(Step(s, i))
    ensures s.flips <= Step(s, i).flips <= s.flips + 1
  {
    var s' := Step(s, i);
    if s.threads[i].phase.IsLast() {
      LastStepInv(s, i);
    } else if s' != s {
      assert ThreadOk(s.threads[i], s.flips, s.cycle);
      forall j | 0 <= j < s.N()
        ensures !s.threads[j].phase.IsLast()
      {
        assert LastOk(s, j);
      }
      if s.threads[i].phase.Entered? {
        ArriveInv(s, i);
      } else {
        CountUpdate(s.threads, i, s'.threads[i], s.flips + 1);
        forall j | 0 <= j < s.N()
          ensures LastOk(s', j) && ThreadOk(s'.threads[j], s'.flips, s'.cycle)
        {
          assert ThreadOk(s.threads[j], s.flips, s.cycle);
        }
      }
    }
  }

  lemma {:induction false} RunInv(s: State, sched: seq<nat>)
    requires Inv(s) && IsSchedule(s.N(), sched)
    ensures Inv(Run(s, sched)) && s.flips <= Run(s, sched).flips
  {
    if sched != [] {
      RunInv(s, sched[..|sched| - 1]);
      StepInv(Run(s, sched[..|sched| - 1]), sched[|sched| - 1]);
    }
  }

  /** The step from b to b' takes thread i out of bomp_barrier_wait. */
  predicate Returned(b: State, b': State, i: nat)
    requires i < b.N() && i < b'.N()
  {
    !b.threads[i].phase.Idle? && b'.threads[i].phase.Idle?
  }

  /** A step in the barrier: the other threads' records stay, and the thread's own count of returns goes up exactly
      when it returns. */
  lemma StepEffect(b: State, i: nat)
    requires Inv(b) && i < b.N()
    ensures Inv(Step(b, i)) && Step(b, i).N() == b.N()
    ensures forall j :: 0 <= j < b.N() && j != i ==> Step(b, i).threads[j] == b.threads[j]
    ensures Step(b, i).threads[i].left == b.threads[i].left + if Returned(b, Step(b, i), i) then 1 else 0
    ensures b.threads[i].left <= b.flips
    ensures b.threads[i].phase.Idle? ==> b.threads[i].left == b.threads[i].arrived == b.flips
    ensures b.threads[i].left < b.flips ==> b.threads[i].phase == Spinning(!b.cycle) && Step(b, i) == b.Leave(i)
  {
    assert ThreadOk(b.threads[i], b.flips, b.cycle);
    StepInv(b, i);
  }

  // ---------- Safety over all runs ----------

  ghost predicate Safe(s: State) {
    && s.counter <= s.N()
    && forall i, j {:trigger s.threads[i], s.threads[j]} :: 0 <= i < s.N() && 0 <= j < s.N() ==>
         && s.threads[i].left <= s.threads[j].arrived
         && s.threads[i].left <= s.threads[j].left + 1
         && s.threads[i].arrived <= s.threads[j].arrived + 1
         && (s.threads[i].phase.IsLast() && j != i ==> s.threads[j].phase == Spinning(s.cycle))
  }

  lemma InvIsSafe(s: State)
    requires Inv(s)
    ensures Safe(s)
  {
    CountExtremes(s.threads, s.flips + 1);
    if !NoLast(s) {
      var k :| 0 <= k < s.N() && s.threads[k].phase.IsLast();
      assert LastOk(s, k);
    }
    forall i, j | 0 <= i < s.N() && 0 <= j < s.N()
      ensures s.threads[i].left <= s.threads[j].arrived
      ensures s.threads[i].left <= s.threads[j].left + 1
      ensures s.threads[i].arrived <= s.threads[j].arrived + 1
      ensures s.threads[i].phase.IsLast() && j != i ==> s.threads[j].phase == Spinning(s.cycle)
    {
      assert LastOk(s, i);
      assert ThreadOk(s.threads[i], s.flips, s.cycle) && ThreadOk(s.threads[j], s.flips, s.cycle);
    }
  }

  /** In every run of every number of threads: a thread has returned from its k-th wait only if all
      have arrived at theirs, any two threads are within one round of each other, the counter never
      exceeds N, and while one thread resets and flips, all others spin on the old cycle. */
  lemma {:induction false} BarrierSafety(n: nat, sched: seq<nat>)
    requires n >= 1 && IsSchedule(n, sched)
    ensures Safe(Run(Init(n), sched))
  {
    InitInv(n);
    RunInv(Init(n), sched);
    InvIsSafe(Run(Init(n), sched));
  }

  // ---------- Progress under every fair schedule ----------

  /** Steps a thread still has to take before the current round's flip; 0 when it can only wait. */
  ghost function Remaining(t: Thread, cycle: bool): nat {
    match t.phase
    case Spinning(c) => if c == cycle then 0 else 6
    case Idle => 5
    case Entered(_) => 4
    case Resetting => 3
    case Reading => 2
    case Flipping(_) => 1
  }

  /** A block of a schedule in which every thread is given a step. */
  ghost predicate FairBlock(n: nat, block: seq<nat>) {
    IsSchedule(n, block) && forall i: nat :: i < n ==> i in block
  }

  ghost predicate FairBlocks(n: nat, blocks: seq<seq<nat>>) {
    forall k :: 0 <= k < |blocks| ==> FairBlock(n, blocks[k])
  }

  function RunBlocks(s: State, blocks: seq<seq<nat>>): (r: State)
    requires FairBlocks(s.N(), blocks)
    ensures r.N() == s.N()
  {
    if blocks == [] then s else Run(RunBlocks(s, blocks[..|blocks| - 1]), blocks[|blocks| - 1])
  }

  /** Within a round a step brings its own thread closer and leaves the others where they are. */
  lemma StepRemaining(s: State, i: nat, j: nat)
    requires i < s.N() && j < s.N() && Inv(s) && Step(s, i).flips == s.flips
    ensures Step(s, i).cycle == s.cycle
    ensures j != i ==> Step(s, i).threads[j] == s.threads[j]
    ensures var before, after := Remaining(s.threads[i], s.cycle), Remaining(Step(s, i).threads[i], s.cycle);
            after < before || after == before == 0
  {
    assert ThreadOk(s.threads[i], s.flips, s.cycle);
  }

  /** Across a schedule without a flip no thread falls back, and one that is named gets closer. */
  lemma {:induction false} ScheduleRemaining(s: State, sched: seq<nat>, j: nat)
    requires Inv(s) && IsSchedule(s.N(), sched) && j < s.N()
    requires Run(s, sched).flips == s.flips
    ensures Run(s, sched).cycle == s.cycle
    ensures var before, after := Remaining(s.threads[j], s.cycle), Remaining(Run(s, sched).threads[j], s.cycle);
            after <= before && (j in sched ==> after < before || after == 0)
  {
    if sched != [] {
      var pre, i := sched[..|sched| - 1], sched[|sched| - 1];
      var u := Run(s, pre);
      RunInv(s, pre);
      StepInv(u, i);
      ScheduleRemaining(s, pre, j);
      StepRemaining(u, i, j);
      assert j in sched ==> j in pre || j == i;
    }
  }

  lemma {:induction false} BlocksInv(s: State, blocks: seq<seq<nat>>)
    requires Inv(s) && FairBlocks(s.N(), blocks)
    ensures Inv(RunBlocks(s, blocks)) && s.flips <= RunBlocks(s, blocks).flips
  {
    if blocks != [] {
      BlocksInv(s, blocks[..|blocks| - 1]);
      RunInv(RunBlocks(s, blocks[..|blocks| - 1]), blocks[|blocks| - 1]);
    }
  }

  /** As long as no flip has happened, b fair blocks take every thread to within 6 - b steps of it. */
  lemma {:induction false} BlocksRemaining(s: State, blocks: seq<seq<nat>>, j: nat)
    requires Inv(s) && FairBlocks(s.N(), blocks) && |blocks| <= 6 && j < s.N()
    requires RunBlocks(s, blocks).flips == s.flips
    ensures Remaining(RunBlocks(s, blocks).threads[j], RunBlocks(s, blocks).cycle) <= 6 - |blocks|
  {
    if blocks != [] {
      var pre, last := blocks[..|blocks| - 1], blocks[|blocks| - 1];
      var u := RunBlocks(s, pre);
      BlocksInv(s, pre);
      RunInv(u, last);
      BlocksRemaining(s, pre, j);
      ScheduleRemaining(u, last, j);
    }
  }

  /** Six fair blocks always complete the round that is under way. */
  lemma SixBlocksFlip(s: State, blocks: seq<seq<nat>>)
    requires Inv(s) && FairBlocks(s.N(), blocks) && |blocks| == 6
    ensures RunBlocks(s, blocks).flips > s.flips
  {
    BlocksInv(s, blocks);
    var u := RunBlocks(s, blocks);
    if u.flips == s.flips {
      CountExtremes(u.threads, u.flips + 1);
      forall i | 0 <= i < u.N()
        ensures u.threads[i].arrived == u.flips + 1 && !u.threads[i].phase.IsLast()
      {
        BlocksRemaining(s, blocks, i);
        assert ThreadOk(u.threads[i], u.flips, u.cycle);
      }
      assert NoLast(u);
      assert false;
    }
  }

  /** Once the flip is done, a thread that gets a step has left. */
  lemma {:induction false} PrefixLeaves(s: State, block: seq<nat>, round: nat)
    requires Inv(s) && IsSchedule(s.N(), block) && round <= s.flips
    ensures forall i {:trigger Run(s, block).threads[i]} :: 0 <= i < s.N() ==>
              && s.threads[i].left <= Run(s, block).threads[i].left
              && (i in block ==> round <= Run(s, block).threads[i].left)
  {
    if block != [] {
      var pre, i := block[..|block| - 1], block[|block| - 1];
      var u := Run(s, pre);
      RunInv(s, pre);
      PrefixLeaves(s, pre, round);
      assert ThreadOk(u.threads[i], u.flips, u.cycle);
      assert block == pre + [i];
    }
  }

  /** From every reachable state, every fair continuation finishes the round: after seven blocks in
      each of which every thread gets a step, all threads have returned from the wait under way. */
  lemma {:induction false} BarrierProgress(n: nat, sched: seq<nat>, blocks: seq<seq<nat>>)
    requires n >= 1 && IsSchedule(n, sched) && FairBlocks(n, blocks) && |blocks| == 7
    ensures var s := Run(Init(n), sched);
            forall i {:trigger s.threads[i]} :: 0 <= i < n ==>
              RunBlocks(s, blocks).threads[i].left >= s.flips + 1 && s.flips + 1 >= s.threads[i].arrived
  {
    InitInv(n);
    RunInv(Init(n), sched);
    var s := Run(Init(n), sched);
    var u := RunBlocks(s, blocks[..6]);
    BlocksInv(s, blocks[..6]);
    SixBlocksFlip(s, blocks[..6]);
    PrefixLeaves(u, blocks[6], s.flips + 1);
    assert RunBlocks(s, blocks) == Run(u, blocks[6]);
    forall i | 0 <= i < n
      ensures RunBlocks(s, blocks).threads[i].left >= s.flips + 1 && s.flips + 1 >= s.threads[i].arrived
    {
      assert ThreadOk(s.threads[i], s.flips, s.cycle);
    }
  }

  // ---------- What is left of a wait ----------

  /** Steps left in a barrier, at least 1. */
  function Wait(p: Phase): nat {
    match p
    case Idle => 5
    case Entered(_) => 4
    case Resetting => 3
    case Reading => 2
    case Flipping(_) => 1
    case Spinning(_) => 1
  }

  /** A step in the barrier gets nearer to its end, unless it is a test in vain. */
  lemma WaitLess(b: State, j: nat)
    requires Inv(b) && j < b.N()
    ensures Step(b, j).N() == b.N()
    ensures b.threads[j].phase == Spinning(b.cycle) ==> Step(b, j) == b
    ensures b.threads[j].phase != Spinning(b.cycle) && !Returned(b, Step(b, j), j) ==>
              Wait(Step(b, j).threads[j].phase) < Wait(b.threads[j].phase)
    ensures b.threads[j].phase == Spinning(b.cycle) ==> !Returned(b, Step(b, j), j)
    ensures Returned(b, Step(b, j), j) ==> Step(b, j).threads[j].phase.Idle?
  {
    assert ThreadOk(b.threads[j], b.flips, b.cycle);
  }

  lemma WaitIdle()
    ensures forall p: Phase :: 1 <= Wait(p) <= 5
    ensures Wait(Idle) == 5
  {
  }

  /** While nobody is resetting or flipping, not all threads have arrived. */
  lemma SomeoneMissing(b: State, j: nat)
    requires Inv(b) && j < b.N() && b.threads[j].phase == Spinning(b.cycle)
    requires forall i {:trigger b.threads[i]} :: 0 <= i < b.N() ==>
               b.threads[i].phase.Idle? || b.threads[i].phase.Spinning?
    ensures exists k: nat :: k < b.N() && b.threads[k].arrived != b.flips + 1
  {
    assert NoLast(b);
    CountExtremes(b.threads, b.flips + 1);
  }
}
