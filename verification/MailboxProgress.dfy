/** tunnel.c: with one sender and a receiver that is not stopped, every packet that the sender has taken is delivered,
    as long as both keep getting steps, however many further packets are offered meanwhile. */
module MailboxProgress {
  import opened Arith
  import opened Mailbox

  // ---------- How far the next delivery is ----------

  /** A run in which the receiver has not been told to stop. */
  ghost predicate Running(s: State) { Inv(s) && !s.receiver.Stopped? && s.magic }

  function SenderLeft(a: Sender): nat {
    match a
    case Testing(_) => MAX_BUFFER + 4
    case Locking(_) => MAX_BUFFER + 3
    case Copying(_, c) => 2 + Minus(MAX_BUFFER, c)
    case Publishing(_) => 1
    case _ => 0
  }

  function ReceiverLeft(r: Receiver): nat {
    match r
    case Polling => MAX_BUFFER + 3
    case Reading => MAX_BUFFER + 2
    case Writing(_, out) => 1 + Minus(MAX_BUFFER, |out|)
    case _ => 0
  }

  /** All published packets have been delivered, so that the sender has to publish the next one. */
  predicate UpToSender(s: State) { s.i == 0 || s.receiver.Clearing? }

  /** The steps to the next delivery: of the sender and then the receiver, or of the receiver alone. */
  function ToNext(s: State): nat
    requires |s.senders| == 1
  {
    if UpToSender(s) then
      MAX_BUFFER + 4 + SenderLeft(s.senders[0]) + if s.receiver.Clearing? then 1 else 0
    else ReceiverLeft(s.receiver)
  }

  /** The steps until that many packets have been delivered. */
  function Left(s: State, target: nat): nat
    requires |s.senders| == 1
  {
    if |s.delivered| >= target then 0 else Minus(target - 1, |s.delivered|) * (3 * MAX_BUFFER) + ToNext(s)
  }

  /** Whose step the next delivery waits for. */
  predicate WaitsForSender(s: State) { s.i == 0 && !s.receiver.Clearing? }

  lemma Outstanding(s: State, target: nat)
    requires Running(s) && |s.delivered| < target <= |s.taken|
    ensures target <= |s.delivered| + 2 && ToNext(s) < 3 * MAX_BUFFER && Left(s, target) < 6 * MAX_BUFFER
    ensures UpToSender(s) ==> !s.senders[0].Ready? && !s.senders[0].Unlocking?
  {
  }

  // ---------- Steps ----------

  lemma SendLess(s: State, target: nat)
    requires Running(s) && target <= |s.taken|
    ensures var t := SendStep(s, 0);
            && Running(t) && t.taken == s.taken && t.delivered == s.delivered && Left(t, target) <= Left(s, target)
            && (Left(t, target) == Left(s, target) && |s.delivered| < target ==> WaitsForSender(t) == WaitsForSender(s))
            && (|s.delivered| < target && WaitsForSender(s) ==> Left(t, target) < Left(s, target))
  {
    SendKeeps(s);
    if |s.delivered| < target {
      Outstanding(s, target);
    }
  }

  lemma ReceiveLess(s: State, target: nat)
    requires Running(s) && target <= |s.taken|
    ensures var t := ReceiveStep(s);
            && Running(t) && t.taken == s.taken && |t.delivered| >= |s.delivered| && Left(t, target) <= Left(s, target)
            && (Left(t, target) == Left(s, target) && |s.delivered| < target ==> WaitsForSender(t) == WaitsForSender(s))
            && (|s.delivered| < target && !WaitsForSender(s) ==> Left(t, target) < Left(s, target))
  {
    ReceiveKeeps(s);
    if |s.delivered| < target {
      Outstanding(s, target);
    }
  }

  lemma OfferSame(s: State, pkt: Packet, target: nat)
    requires Running(s) && target <= |s.taken| && 1 <= |pkt| <= MAX_BUFFER
    ensures var t := Step(s, Offer(0, pkt));
            && Running(t) && s.taken <= t.taken && t.delivered == s.delivered && Left(t, target) == Left(s, target)
            && WaitsForSender(t) == WaitsForSender(s)
  {
    if |s.delivered| < target {
      Outstanding(s, target);
    }
  }

  /** No step takes the delivery further away; the step that it waits for brings it nearer. */
  lemma StepLess(s: State, e: Event, target: nat)
    requires Running(s) && target <= |s.taken| && Possible(1, e) && !e.Stop?
    ensures var t := Step(s, e);
            && Running(t) && s.taken <= t.taken && Left(t, target) <= Left(s, target)
            && (Left(t, target) == Left(s, target) && Left(s, target) > 0 ==> WaitsForSender(t) == WaitsForSender(s))
            && (Left(s, target) > 0 && e == (if WaitsForSender(s) then Send(0) else Receive) ==>
                  Left(t, target) < Left(s, target))
  {
    match e
    case Offer(_, pkt) => OfferSame(s, pkt, target);
    case Send(_) => SendLess(s, target);
    case Receive => ReceiveLess(s, target);
  }

  // ---------- Schedules ----------

  predicate NoStop(es: seq<Event>) { forall k :: 0 <= k < |es| ==> !es[k].Stop? }

  lemma {:induction false} RunLess(s: State, es: seq<Event>, target: nat)
    requires Running(s) && target <= |s.taken| && AllPossible(1, es) && NoStop(es)
    ensures Running(Run(s, es)) && s.taken <= Run(s, es).taken && Left(Run(s, es), target) <= Left(s, target)
    ensures Left(Run(s, es), target) == Left(s, target) > 0 ==>
              && WaitsForSender(Run(s, es)) == WaitsForSender(s)
              && (if WaitsForSender(s) then Send(0) else Receive) !in es
  {
    hide Running, Left, WaitsForSender, Step;
    assert |s.senders| == 1 by { OneSender(s); }
    if es != [] {
      var pre, e := es[..|es| - 1], es[|es| - 1];
      RunLess(s, pre, target);
      StepLess(Run(s, pre), e, target);
      assert es == pre + [e];
    }
  }

  lemma OneSender(s: State)
    requires Running(s)
    ensures |s.senders| == 1
  {
  }

  /** A part of a run in which sender and receiver both get a step and the receiver is not stopped. */
  ghost predicate FairBlock(es: seq<Event>) {
    AllPossible(1, es) && NoStop(es) && Send(0) in es && Receive in es
  }

  ghost predicate FairBlocks(blocks: seq<seq<Event>>) {
    forall k :: 0 <= k < |blocks| ==> FairBlock(blocks[k])
  }

  function RunBlocks(s: State, blocks: seq<seq<Event>>): (r: State)
    requires |s.senders| == 1 && FairBlocks(blocks)
    ensures |r.senders| == 1
    decreases |blocks|
  {
    if blocks == [] then s else RunBlocks(Run(s, blocks[0]), blocks[1..])
  }

  lemma {:induction false} BlocksDeliver(s: State, blocks: seq<seq<Event>>, target: nat)
    requires Running(s) && target <= |s.taken| && FairBlocks(blocks) && |blocks| >= Left(s, target)
    ensures Running(RunBlocks(s, blocks)) && s.taken <= RunBlocks(s, blocks).taken
    ensures Left(RunBlocks(s, blocks), target) == 0
    decreases |blocks|
  {
    OneSender(s);
    hide Running, Left, WaitsForSender, Step, Run;
    if blocks != [] {
      RunLess(s, blocks[0], target);
      BlocksDeliver(Run(s, blocks[0]), blocks[1..], target);
    }
  }

  lemma {:induction false} ReachedRuns(es: seq<Event>)
    requires AllPossible(1, es) && NoStop(es)
    ensures Running(Run(Init(1), es))
  {
    assert Running(Init(1));
    RunLess(Init(1), es, 0);
  }

  lemma LeftIsDelivered(s: State, target: nat)
    requires Running(s) && target <= |s.taken|
    ensures Left(s, target) == 0 ==> |s.delivered| >= target
    ensures Left(s, target) < 6 * MAX_BUFFER
    ensures s.delivered <= s.taken
  {
    if |s.delivered| < target {
      Outstanding(s, target);
      assert ToNext(s) > 0;
    }
  }

  /** From every state that one sender and a receiver reach without a stop, after 6 * MAX_BUFFER parts in each of which
      both get a step, everything that had been taken is delivered, in order and unmodified. */
  lemma {:induction false} EverythingArrives(es: seq<Event>, blocks: seq<seq<Event>>)
    requires AllPossible(1, es) && NoStop(es) && FairBlocks(blocks) && |blocks| >= 6 * MAX_BUFFER
    ensures Run(Init(1), es).taken <= RunBlocks(Run(Init(1), es), blocks).delivered
  {
    var s := Run(Init(1), es);
    ReachedRuns(es);
    var target := |s.taken|;
    hide Running, Left, Run, Init;
    LeftIsDelivered(s, target);
    OneSender(s);
    BlocksDeliver(s, blocks, target);
    LeftIsDelivered(RunBlocks(s, blocks), target);
  }
}
