/** The one-slot mailbox of tunnel.c: senders (pop_send) and one receiver (pop_recv) interleave on the shared
    fields of a slot, one shared access per step.  `taken`, `published` and `delivered` record what has
    happened and influence nothing. */
module Mailbox {

  const MAX_BUFFER: nat := 0x1000

  type Packet = seq<bv8>

  /** Where a sender stands; pkt is the packet in its private buffer. */
  datatype Sender =
    | Ready                           // reading the next packet from the tunnel device
    | Testing(pkt: Packet)            // spinning on i == 0
    | Locking(pkt: Packet)            // has seen i == 0; the test-and-set comes next
    | Copying(pkt: Packet, c: nat)    // memcpy, c bytes done
    | Publishing(pkt: Packet)         // the store i = byte comes next
    | Unlocking                       // the store lock = 0 comes next

  datatype Receiver =
    | Polling                                // spinning on i != 0
    | Reading                                // the read byte = i comes next
    | Writing(len: nat, out: Packet)         // tun_write out of the shared buffer, |out| bytes done
    | Clearing                               // the store i = 0 comes next
    | Stopped

  datatype State = State(magic: bool, lock: bool, i: nat, buffer: seq<bv8>, senders: seq<Sender>, receiver: Receiver,
                         taken: seq<Packet>, published: seq<Packet>, delivered: seq<Packet>)

  datatype Event =
    | Offer(s: nat, pkt: Packet)   // the device hands sender s a packet for this slot
    | Send(s: nat)                 // the next shared access of sender s
    | Receive                      // the next shared access of the receiver
    | Stop                         // the receiver leaves its loop

  /** A slot as open_shm leaves it, with n senders attached. */
  function Init(n: nat): State {
    State(true, false, 0, seq(MAX_BUFFER, _ => 0), seq(n, _ => Ready), Polling, [], [], [])
  }

  /** Events name existing senders and carry packets the device can deliver. */
  predicate Possible(n: nat, e: Event) {
    match e
    case Offer(s, pkt) => s < n && 1 <= |pkt| <= MAX_BUFFER
    case Send(s) => s < n
    case Receive => true
    case Stop => true
  }

  function SendStep(s: State, k: nat): State
    requires k < |s.senders|
  {
    match s.senders[k]
    case Ready => s
    case Testing(pkt) => if s.i == 0 then s.(senders := s.senders[k := Locking(pkt)]) else s
    case Locking(pkt) => s.(lock := true, senders := s.senders[k := if s.lock then Testing(pkt) else Copying(pkt, 0)])
    case Copying(pkt, c) =>
      if c < |pkt| && c < |s.buffer| then
        s.(buffer := s.buffer[c := pkt[c]], senders := s.senders[k := Copying(pkt, c + 1)])
      else s.(senders := s.senders[k := Publishing(pkt)])
    case Publishing(pkt) => s.(i := |pkt|, published := s.published + [pkt], senders := s.senders[k := Unlocking])
    case Unlocking => s.(lock := false, senders := s.senders[k := Ready])
  }

  function ReceiveStep(s: State): State {
    match s.receiver
    case Polling => if s.i != 0 then s.(receiver := Reading) else s
    case Reading => s.(receiver := Writing(s.i, []))
    case Writing(len, out) =>
      if |out| < len && |out| < |s.buffer| then s.(receiver := Writing(len, out + [s.buffer[|out|]]))
      else s.(receiver := Clearing, delivered := s.delivered + [out])
    case Clearing => s.(i := 0, receiver := Polling)
    case Stopped => s
  }

  function Step(s: State, e: Event): (t: State)
    requires Possible(|s.senders|, e)
    ensures |t.senders| == |s.senders|
  {
    match e
    case Offer(k, pkt) =>
      // a packet is dropped when the slot's magic number is gone
      if s.senders[k].Ready? && s.magic then s.(senders := s.senders[k := Testing(pkt)], taken := s.taken + [pkt])
      else s
    case Send(k) => SendStep(s, k)
    case Receive => ReceiveStep(s)
    case Stop => if s.receiver.Polling? then s.(magic := false, receiver := Stopped) else s
  }

  predicate AllPossible(n: nat, es: seq<Event>) {
    forall k :: 0 <= k < |es| ==> Possible(n, es[k])
  }

  function Run(s: State, es: seq<Event>): (r: State)
    requires AllPossible(|s.senders|, es)
    ensures |r.senders| == |s.senders|
  {
    if es == [] then s else Step(Run(s, es[..|es| - 1]), es[|es| - 1])
  }

  // ---------- One sender ----------

  /** The packet a single sender is busy with has been taken but not yet published. */
  ghost function InHand(s: Sender): seq<Packet> {
    if s.Ready? || s.Unlocking? then [] else [s.pkt]
  }

  ghost predicate SenderOk(s: State, a: Sender) {
    && |s.buffer| == MAX_BUFFER
    && (s.lock <==> a.Copying? || a.Publishing? || a.Unlocking?)
    && (a.Locking? || a.Copying? || a.Publishing? ==> s.i == 0)
    && (!a.Ready? && !a.Unlocking? ==> 1 <= |a.pkt| <= MAX_BUFFER)
    && (a.Copying? ==> a.c <= |a.pkt| <= MAX_BUFFER && s.buffer[..a.c] == a.pkt[..a.c])
    && (a.Publishing? ==> |a.pkt| <= MAX_BUFFER && s.buffer[..|a.pkt|] == a.pkt)
    && s.taken == s.published + InHand(a)
  }

  /** Exactly one published packet is undelivered while it lies in the slot, none otherwise. */
  ghost predicate ReceiverOk(s: State) {
    if s.i == 0 || s.receiver.Clearing? then
      s.published == s.delivered && (s.i == 0 ==> s.receiver.Polling? || s.receiver.Stopped?)
    else
      && s.i <= MAX_BUFFER == |s.buffer| && s.published == s.delivered + [s.buffer[..s.i]]
      && (s.receiver.Writing? ==>
            s.receiver.len == s.i && |s.receiver.out| <= s.i && s.receiver.out == s.buffer[..|s.receiver.out|])
  }

  ghost predicate Inv(s: State) {
    |s.senders| == 1 && SenderOk(s, s.senders[0]) && ReceiverOk(s)
  }

  lemma SendKeeps(s: State)
    requires Inv(s)
    ensures Inv(SendStep(s, 0))
  {
    var a, t := s.senders[0], SendStep(s, 0);
    if a.Copying? && a.c < |a.pkt| {
      assert t.buffer[..a.c + 1] == s.buffer[..a.c] + [a.pkt[a.c]];
      assert a.pkt[..a.c + 1] == a.pkt[..a.c] + [a.pkt[a.c]];
    } else if a.Copying? {
      assert a.pkt[..a.c] == a.pkt;
    } else if a.Publishing? {
      assert t.published + [] == s.published + [a.pkt];
    }
  }

  lemma ReceiveKeeps(s: State)
    requires Inv(s)
    ensures Inv(ReceiveStep(s))
  {
    if s.receiver.Writing? {
      var n := |s.receiver.out|;
      if n < s.i {
        assert s.buffer[..n + 1] == s.buffer[..n] + [s.buffer[n]];
      }
    }
  }

  lemma {:induction false} RunKeeps(es: seq<Event>)
    requires AllPossible(1, es)
    ensures Inv(Run(Init(1), es))
  {
    if es != [] {
      var e, u := es[|es| - 1], Run(Init(1), es[..|es| - 1]);
      RunKeeps(es[..|es| - 1]);
      match e
      case Offer(k, pkt) => assert Inv(Step(u, e));
      case Send(k) => SendKeeps(u);
      case Receive => ReceiveKeeps(u);
      case Stop =>
    }
  }

  /** First in, first out: what the receiver has written out is a prefix of what senders have published, which
      is a prefix of what they took on. */
  ghost predicate Fifo(s: State) {
    s.delivered <= s.published && s.published <= s.taken
  }

  /** With one sender every interleaving is first in, first out, unmodified, with at most one packet in the slot
      and at most one more in the sender's hand. */
  lemma {:induction false} OneSenderFifo(es: seq<Event>)
    requires AllPossible(1, es)
    ensures var s := Run(Init(1), es);
            Fifo(s) && |s.published| <= |s.delivered| + 1 && |s.taken| <= |s.published| + 1
  {
    RunKeeps(es);
  }

  // ---------- Several senders ----------

  lemma RunStep(s: State, es: seq<Event>, e: Event)
    requires AllPossible(|s.senders|, es) && Possible(|s.senders|, e)
    ensures AllPossible(|s.senders|, es + [e]) && Run(s, es + [e]) == Step(Run(s, es), e)
  {
    assert (es + [e])[..|es|] == es;
  }

  function Repeat(e: Event, n: nat): seq<Event> {
    seq(n, _ => e)
  }

  lemma {:induction false} RunAppend(s: State, es: seq<Event>, fs: seq<Event>)
    requires AllPossible(|s.senders|, es) && AllPossible(|s.senders|, fs)
    ensures AllPossible(|s.senders|, es + fs) && Run(s, es + fs) == Run(Run(s, es), fs)
  {
    if fs == [] {
      assert es + fs == es;
    } else {
      var pre, e := fs[..|fs| - 1], fs[|fs| - 1];
      RunAppend(s, es, pre);
      assert es + fs == es + pre + [e];
      RunStep(s, es + pre, e);
    }
  }

  /** A sender that has won the test of i puts a one-byte packet into the slot in five accesses. */
  lemma PushThrough(s: State, k: nat, b: bv8)
    requires k < |s.senders| && s.senders[k] == Locking([b]) && !s.lock && |s.buffer| == MAX_BUFFER
    ensures var t := Run(s, Repeat(Send(k), 5));
            && t == s.(i := 1, buffer := s.buffer[0 := b], senders := s.senders[k := Ready],
                       published := s.published + [[b]])
  {
    var e := Send(k);
    var s1 := Step(s, e);
    assert s1.senders[k] == Copying([b], 0) && s1.lock;
    var s2 := Step(s1, e);
    assert s2.senders[k] == Copying([b], 1);
    var s3 := Step(s2, e);
    assert s3.senders[k] == Publishing([b]);
    var s4 := Step(s3, e);
    assert s4.senders[k] == Unlocking;
    var s5 := Step(s4, e);
    assert s5.senders == s.senders[k := Ready];
    RunFive(s, e);
  }

  lemma RunFive(s: State, e: Event)
    requires Possible(|s.senders|, e)
    ensures Run(s, Repeat(e, 5)) == Step(Step(Step(Step(Step(s, e), e), e), e), e)
    ensures Run(s, Repeat(e, 4)) == Step(Step(Step(Step(s, e), e), e), e)
  {
    hide Step;
    var r := Repeat(e, 0);
    assert r == [];
    RunStep(s, r, e);
    assert r + [e] == Repeat(e, 1);
    RunStep(s, Repeat(e, 1), e);
    assert Repeat(e, 1) + [e] == Repeat(e, 2);
    RunStep(s, Repeat(e, 2), e);
    assert Repeat(e, 2) + [e] == Repeat(e, 3);
    RunStep(s, Repeat(e, 3), e);
    assert Repeat(e, 3) + [e] == Repeat(e, 4);
    RunStep(s, Repeat(e, 4), e);
    assert Repeat(e, 4) + [e] == Repeat(e, 5);
  }

  /** Both senders see the empty slot before either takes the lock. */
  const BOTH_TEST: seq<Event> := [Offer(0, [1]), Offer(1, [2]), Send(0), Send(1)]

  lemma BothTestRun(n: nat)
    requires n >= 2
    ensures AllPossible(n, BOTH_TEST)
    ensures Run(Init(n), BOTH_TEST)
              == Init(n).(senders := Init(n).senders[0 := Locking([1])][1 := Locking([2])], taken := [[1], [2]])
  {
    var s := Init(n);
    RunStep(s, [], Offer(0, [1]));
    var s1 := Step(s, Offer(0, [1]));
    RunStep(s, [Offer(0, [1])], Offer(1, [2]));
    var s2 := Step(s1, Offer(1, [2]));
    assert s2.senders[0] == Testing([1]) && s2.senders[1] == Testing([2]);
    RunStep(s, [Offer(0, [1]), Offer(1, [2])], Send(0));
    var s3 := Step(s2, Send(0));
    assert s3.senders[1] == Testing([2]);
    RunStep(s, [Offer(0, [1]), Offer(1, [2]), Send(0)], Send(1));
    var s4 := Step(s3, Send(1));
    assert s4.senders == s.senders[0 := Locking([1])][1 := Locking([2])];
    assert [] + [Offer(0, [1])] == [Offer(0, [1])];
    assert [Offer(0, [1])] + [Offer(1, [2])] == [Offer(0, [1]), Offer(1, [2])];
    assert [Offer(0, [1]), Offer(1, [2])] + [Send(0)] == [Offer(0, [1]), Offer(1, [2]), Send(0)];
    assert [Offer(0, [1]), Offer(1, [2]), Send(0)] + [Send(1)] == BOTH_TEST;
  }

  /** The emptiness test is not repeated under the lock, so the second packet overwrites the first. */
  const RACE: seq<Event> := BOTH_TEST + Repeat(Send(0), 5) + Repeat(Send(1), 5) + Repeat(Receive, 4)

  lemma LostPacket(n: nat)
    requires n >= 2
    ensures AllPossible(n, RACE)
    ensures Run(Init(n), RACE).published == [[1], [2]] && Run(Init(n), RACE).delivered == [[2]]
    ensures !Fifo(Run(Init(n), RACE))
  {
    var s0 := Init(n);
    BothTestRun(n);
    var s1 := Run(s0, BOTH_TEST);
    PushThrough(s1, 0, 1);
    RunAppend(s0, BOTH_TEST, Repeat(Send(0), 5));
    var s2 := Run(s1, Repeat(Send(0), 5));
    assert s2.senders[1] == Locking([2]);
    PushThrough(s2, 1, 2);
    RunAppend(s0, BOTH_TEST + Repeat(Send(0), 5), Repeat(Send(1), 5));
    var s3 := Run(s2, Repeat(Send(1), 5));
    RunFive(s3, Receive);
    var r1 := Step(s3, Receive);
    var r2 := Step(r1, Receive);
    var r3 := Step(r2, Receive);
    assert r3.receiver == Writing(1, [2]);
    RunAppend(s0, BOTH_TEST + Repeat(Send(0), 5) + Repeat(Send(1), 5), Repeat(Receive, 4));
    var t := Run(s0, RACE);
    assert t.published == [[1], [2]] && t.delivered == [[2]];
    assert t.delivered[0] != t.published[0];
  }

  /** The exact condition: every interleaving is first in, first out if and only if the slot has at most one
      sender. */
  lemma {:induction false} FifoIffOneSender(n: nat)
    ensures (forall es :: AllPossible(n, es) ==> Fifo(Run(Init(n), es))) <==> n <= 1
  {
    if n == 0 {
      forall es | AllPossible(0, es)
        ensures Fifo(Run(Init(0), es))
      {
        NoSender(es);
      }
    } else if n == 1 {
      forall es | AllPossible(1, es)
        ensures Fifo(Run(Init(1), es))
      {
        OneSenderFifo(es);
      }
    } else {
      LostPacket(n);
    }
  }

  lemma {:induction false} NoSender(es: seq<Event>)
    requires AllPossible(0, es)
    ensures var s := Run(Init(0), es);
            s.i == 0 && (s.receiver.Polling? || s.receiver.Stopped?) && s.delivered == [] == s.published == s.taken
  {
    if es != [] {
      NoSender(es[..|es| - 1]);
    }
  }
}
