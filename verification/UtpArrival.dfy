/**
  What is delivered arrives: with room, once every packet number below n has been delivered at
  least once, in any order, the receiver's stream holds all of their payloads.
*/
module UtpArrival {
  import opened Common
  import opened UtpStep
  import opened UtpPair

  /** The receiver has packet number `num`: in its stream, or held back under its own number. */
  ghost predicate Here(rx: Rx, c: Chan, num: nat) {
    num < c.got || (SeqOf(c, num) in rx.oob && Slot(c, SeqOf(c, num)) == num)
  }

  /** A live socket with room for one more payload, in the buffer and among those held back. */
  predicate Welcoming(s: Sock) {
    !s.life.Closed? && |s.rx.recvBuf| + |s.rx.oob| < RECV_WINDOW && |s.rx.oob| < OOB_CAP
  }

  // ----- one delivery

  /** One packet joining the stream takes only its own payload out of those held back. */
  lemma AdvanceHere(rx: Rx, c: Chan, rx': Rx, num: nat)
    requires Here(rx, c, num) && rx'.oob == rx.oob - {SeqOf(c, c.got)}
    ensures Here(rx', c.(got := c.got + 1), num)
  {
    var c' := c.(got := c.got + 1);
    if num > c.got {
      var key := SeqOf(c, num);
      if key == SeqOf(c, c.got) {
        SlotOfNumber(c, c.got);
      }
      SlotStays(c, key);
    }
    hide Wrap;
  }

  lemma {:induction false} DrainHere(tx: Tx, rx: Rx, c: Chan, num: nat)
    requires ChanOk(tx, rx, c) && Here(rx, c, num)
    ensures Here(Drain(rx), c.(got := c.got + DrainCount(rx)), num)
    decreases |rx.oob|
  {
    hide Wrap, ChanOk, Here;
    var next := Wrap(rx.ackNr + 1);
    if next in rx.oob {
      var rx' := Rx(next, rx.recvBuf + rx.oob[next], rx.oob - {next});
      var c' := c.(got := c.got + 1);
      HeldIsNext(tx, rx, c);
      AdvanceOne(tx, rx, c, rx');
      NextIs(tx, rx, c);
      AdvanceHere(rx, c, rx', num);
      DrainHere(tx, rx', c', num);
      assert c.(got := c.got + DrainCount(rx)) == c'.(got := c'.got + DrainCount(rx'));
    } else {
      assert c.(got := c.got + 0) == c;
    }
  }

  lemma NextIs(tx: Tx, rx: Rx, c: Chan)
    requires ChanOk(tx, rx, c)
    ensures Wrap(rx.ackNr + 1) == SeqOf(c, c.got)
  {
    NextSeqOf(c, c.got - 1);
    hide Wrap;
  }

  lemma AppendHere(tx: Tx, rx: Rx, c: Chan, payload: Bytes, num: nat)
    requires ChanOk(tx, rx, c) && Drained(rx) && c.got < |c.hist| && c.hist[c.got] == Some(payload)
    requires Here(rx, c, num) || num == c.got
    ensures var rx' := Append(rx, SeqOf(c, c.got), payload);
      Here(Drain(rx'), c.(got := c.got + 1 + DrainCount(rx')), num)
  {
    NextIs(tx, rx, c);
    var rx' := Append(rx, SeqOf(c, c.got), payload);
    var c' := c.(got := c.got + 1);
    assert rx'.oob == rx.oob - {SeqOf(c, c.got)};
    AdvanceOne(tx, rx, c, rx');
    if num != c.got {
      AdvanceHere(rx, c, rx', num);
    }
    DrainHere(tx, rx', c', num);
    hide Wrap, ChanOk, Drain, DrainCount;
    assert c'.(got := c'.got + DrainCount(rx')) == c.(got := c.got + 1 + DrainCount(rx'));
  }

  /** A delivery loses nothing that was there. */
  lemma DataKeepsHere(s: Sock, tx: Tx, c: Chan, num: nat, payload: Bytes, other: nat)
    requires ChanOk(tx, s.rx, c) && Drained(s.rx) && Here(s.rx, c, other)
    requires num < |c.hist| && c.hist[num] == Some(payload) && Timely(c, num)
    ensures var seqNr := SeqOf(c, num);
      Here(OnData(s, seqNr, payload).rx, c.(got := c.got + Absorbed(s, seqNr, payload)), other)
  {
    hide Wrap, Drain, DrainCount, ChanOk, SeqLe;
    var seqNr := SeqOf(c, num);
    NextIs(tx, s.rx, c);
    assert c.(got := c.got + 0) == c;
    if Takes(s, seqNr, payload) && InOrder(s.rx, seqNr) {
      InOrderIsNext(s, tx, c, num, payload);
      AppendHere(tx, s.rx, c, payload, other);
    }
  }

  lemma InOrderIsNext(s: Sock, tx: Tx, c: Chan, num: nat, payload: Bytes)
    requires ChanOk(tx, s.rx, c) && num < |c.hist| && Timely(c, num)
    requires Takes(s, SeqOf(c, num), payload) && InOrder(s.rx, SeqOf(c, num))
    ensures num == c.got
  {
    NextIs(tx, s.rx, c);
    TimelyIsExact(c, num);
    SlotOfNumber(c, c.got);
    if num > c.got {
      SlotOfNumber(c, num);
    }
    hide Wrap;
  }

  /** A welcome delivery puts its own packet there: next in line into the stream, ahead of it among those held back. */
  lemma DataArrives(s: Sock, tx: Tx, c: Chan, num: nat, payload: Bytes)
    requires ChanOk(tx, s.rx, c) && Drained(s.rx)
    requires num < |c.hist| && c.hist[num] == Some(payload) && Timely(c, num)
    requires Welcoming(s) && payload != []
    ensures var seqNr := SeqOf(c, num);
      var s', got' := OnData(s, seqNr, payload), c.got + Absorbed(s, seqNr, payload);
      && Here(s'.rx, c.(got := got'), num)
      && (num == c.got ==> got' >= c.got + 1)
      && (num > c.got ==> seqNr in s'.rx.oob && s'.rx.oob[seqNr] == payload)
  {
    var seqNr := SeqOf(c, num);
    TimelyIsExact(c, num);
    NextIs(tx, s.rx, c);
    hide Wrap, Drain, DrainCount, ChanOk, SeqLe;
    assert c.(got := c.got + 0) == c;
    if num == c.got {
      AppendHere(tx, s.rx, c, payload, num);
    } else if num > c.got {
      SlotOfNumber(c, num);
      SlotOfNumber(c, c.got);
    }
  }

  // ----- steps, seen from one receiver

  /** The pair with this side in front. */
  function Facing(p: Pair, side: Side): Pair {
    if side.SideA? then p else Swap(p)
  }

  /** No packet goes out empty. */
  ghost predicate Filled(c: Chan) {
    forall i :: 0 <= i < |c.hist| && c.hist[i].Some? ==> c.hist[i].value != []
  }

  ghost predicate Gathered(p: Pair, nums: set<nat>) {
    && Filled(p.ab) && Filled(p.ba)
    && forall num :: num in nums ==> Here(p.a.rx, p.ba, num)
  }

  predicate IsDelivery(op: Op) {
    op.DoReceive? && op.f.pkt.kind.Data?
  }

  /** A delivery finds the socket, once it has taken the ack that comes with it, welcoming. */
  predicate Received(p: Pair, op: Op) {
    IsDelivery(op) ==> Welcoming(OnAck(p.a, op.f.pkt.ackNr, op.f.pkt.wnd, op.ledbat))
  }

  function New(op: Op): set<nat> {
    if IsDelivery(op) then {op.f.num} else {}
  }

  lemma FilledApply(p: Pair, op: Op)
    requires Filled(p.ab) && Filled(p.ba)
    ensures Filled(Apply(p, op).ab) && Filled(Apply(p, op).ba)
  {
    hide OnAck, OnData, OnPacket, Resend, Absorbed, Wrap, Build, AdvertisedWindow;
    if op.DoSend? && CanTransmit(p.a) {
      assert Chunk(p.a) != [];
    }
  }

  /** Steps of the receiver itself. */
  lemma OwnStep(p: Pair, op: Op, nums: set<nat>)
    requires Aligned(p) && Enabled(p, op) && Gathered(p, nums) && Received(p, op)
    ensures Gathered(Apply(p, op), nums + New(op))
  {
    hide Apply, Aligned, Filled, Here, Welcoming, Timely;
    FilledApply(p, op);
    var q := Apply(p, op);
    if IsDelivery(op) {
      DeliveryStep(p, op.f, op.ledbat, nums);
      assert q == PairReceive(p, op.f, op.ledbat) by { DeliveryIs(p, op); }
    } else {
      OtherOps(p, op);
      forall num | num in nums
        ensures Here(q.a.rx, q.ba, num)
      {
        HereSame(p.a.rx, p.ba, q.a.rx, q.ba, num);
      }
    }
  }

  lemma DeliveryIs(p: Pair, op: Op)
    requires op.DoReceive?
    ensures Apply(p, op) == PairReceive(p, op.f, op.ledbat)
  {
    hide PairReceive;
  }

  lemma HereSame(rx: Rx, c: Chan, rx': Rx, c': Chan, num: nat)
    requires Here(rx, c, num) && rx'.oob == rx.oob && c'.got == c.got && c'.base == c.base
    ensures Here(rx', c', num)
  {
  }

  /** A step that delivers no data leaves what is held back and how far the stream has come. */
  lemma OtherOps(p: Pair, op: Op)
    requires !IsDelivery(op) && Enabled(p, op)
    ensures var q := Apply(p, op);
      q.a.rx.oob == p.a.rx.oob && q.ba.got == p.ba.got && q.ba.base == p.ba.base
  {
    hide OnAck, Resend, Wrap, CanTransmit, Build;
    if op.DoReceive? {
      OnAckFrame(p.a, op.f.pkt.ackNr, op.f.pkt.wnd, op.ledbat);
    }
    if op.DoTick? {
      ResendFrame(p.a, op.expired);
    }
  }

  lemma DeliveryStep(p: Pair, f: Flying, ledbat: Option<int>, nums: set<nat>)
    requires Aligned(p) && f in p.baNet && f.pkt.kind.Data? && Timely(p.ba, f.num) && Gathered(p, nums)
    requires Welcoming(OnAck(p.a, f.pkt.ackNr, f.pkt.wnd, ledbat))
    ensures var q := PairReceive(p, f, ledbat);
      forall num :: num in nums + {f.num} ==> Here(q.a.rx, q.ba, num)
  {
    hide OnAck, OnData, Absorbed, ChanOk, Wrap, Here, Welcoming, Drained, Timely;
    OnAckFrame(p.a, f.pkt.ackNr, f.pkt.wnd, ledbat);
    assert FlyingOk(f, p.ba, p.ab);
    var s := OnAck(p.a, f.pkt.ackNr, f.pkt.wnd, ledbat);
    DataArrives(s, p.b.tx, p.ba, f.num, f.pkt.payload);
    forall num | num in nums
      ensures Here(PairReceive(p, f, ledbat).a.rx, PairReceive(p, f, ledbat).ba, num)
    {
      DataKeepsHere(s, p.b.tx, p.ba, f.num, f.pkt.payload, num);
    }
  }

  /** Steps of the other end. */
  lemma OtherStep(p: Pair, op: Op, nums: set<nat>)
    requires Gathered(p, nums)
    ensures Gathered(Swap(Apply(Swap(p), op)), nums)
  {
    FilledApply(Swap(p), op);
    OtherFrame(p, op);
    var q := Swap(Apply(Swap(p), op));
    hide Apply, Wrap, Filled;
    forall num | num in nums
      ensures Here(q.a.rx, q.ba, num)
    {
      assert Here(p.a.rx, p.ba, num);
    }
  }

  lemma OtherFrame(p: Pair, op: Op)
    ensures var q := Swap(Apply(Swap(p), op));
      q.a.rx == p.a.rx && q.ba.got == p.ba.got && q.ba.base == p.ba.base
  {
    hide OnAck, OnData, OnPacket, Resend, Absorbed, Wrap, CanTransmit, Build;
  }

  // ----- runs

  /** The packet numbers delivered to one side along a run. */
  function Deliveries(side: Side, acts: seq<Action>): set<nat>
    decreases |acts|
  {
    if acts == [] then {}
    else (if acts[0].side == side then New(acts[0].op) else {}) + Deliveries(side, acts[1..])
  }

  /** Every delivery to that side is welcome. */
  predicate WelcomeRun(side: Side, p: Pair, acts: seq<Action>)
    decreases |acts|
  {
    acts == [] ||
    ((acts[0].side == side ==> Received(Facing(p, side), acts[0].op)) && WelcomeRun(side, Step(p, acts[0]), acts[1..]))
  }

  lemma StepGathers(side: Side, p: Pair, act: Action, nums: set<nat>)
    requires Safe(p) && CanStep(p, act) && Gathered(Facing(p, side), nums)
    requires act.side == side ==> Received(Facing(p, side), act.op)
    ensures Gathered(Facing(Step(p, act), side), nums + if act.side == side then New(act.op) else {})
  {
    hide Apply, Gathered, Enabled, ChanOk, NetOk, Received, Known;
    var v := Facing(p, side);
    if act.side == side {
      assert Aligned(v);
      OwnStep(v, act.op, nums);
      assert Facing(Step(p, act), side) == Apply(v, act.op);
    } else {
      OtherStep(v, act.op, nums);
      assert Facing(Step(p, act), side) == Swap(Apply(Swap(v), act.op));
      assert nums + {} == nums;
    }
  }

  lemma {:induction false} RunGathers(side: Side, p: Pair, acts: seq<Action>, nums: set<nat>)
    requires Safe(p) && CanRun(p, acts) && WelcomeRun(side, p, acts) && Gathered(Facing(p, side), nums)
    ensures Gathered(Facing(Run(p, acts), side), nums + Deliveries(side, acts))
    decreases |acts|
  {
    hide Safe, Step, CanStep, Gathered, Received, Facing;
    if acts == [] {
      assert nums + {} == nums;
    } else {
      var more := if acts[0].side == side then New(acts[0].op) else {};
      StepKeeps(p, acts[0]);
      StepGathers(side, p, acts[0], nums);
      RunGathers(side, Step(p, acts[0]), acts[1..], nums + more);
      assert nums + more + Deliveries(side, acts[1..]) == nums + Deliveries(side, acts);
    }
  }

  lemma FreshIsFilled(p: Pair, side: Side)
    requires Fresh(p)
    ensures Gathered(Facing(p, side), {})
  {
  }

  /** With everything below n there and nothing left to drain, the stream has come to n. */
  lemma GatheredIsGot(p: Pair, nums: set<nat>, n: nat)
    requires Aligned(p) && Gathered(p, nums) && forall i: nat :: i < n ==> i in nums
    ensures n <= p.ba.got <= |p.ba.hist| && Concat(p.ba.hist[..n]) <= Reassembled(p.a.rx, p.ba)
  {
    assert ChanOk(p.b.tx, p.a.rx, p.ba) && Drained(p.a.rx);
    NextIs(p.b.tx, p.a.rx, p.ba);
    assert p.ba.got in nums ==> Here(p.a.rx, p.ba, p.ba.got);
    assert n <= p.ba.got;
    hide Concat, Wrap;
    var got := p.ba.hist[..p.ba.got];
    ConcatPrefix(got, n);
    assert got[..n] == p.ba.hist[..n];
  }

  /**
    On every run whose deliveries to one side find room, once all packets numbered below n have
    been delivered to it, in any order and any number of times, its stream holds all their payloads.
  */
  lemma DeliveredArrives(side: Side, p: Pair, acts: seq<Action>, n: nat)
    requires Fresh(p) && CanRun(p, acts) && WelcomeRun(side, p, acts)
    requires forall i: nat :: i < n ==> i in Deliveries(side, acts)
    ensures var v := Facing(Run(p, acts), side);
      n <= v.ba.got <= |v.ba.hist| && Concat(v.ba.hist[..n]) <= Reassembled(v.a.rx, v.ba)
  {
    hide Run, CanRun, WelcomeRun, Deliveries, Gathered, ChanOk, NetOk, Known, Fresh;
    FreshIsAligned(p);
    FreshIsKnown(p);
    FreshIsFilled(p, side);
    RunKeeps(p, acts);
    RunGathers(side, p, acts, {});
    var nums := {} + Deliveries(side, acts);
    assert nums == Deliveries(side, acts);
    var v := Facing(Run(p, acts), side);
    assert Aligned(v);
    GatheredIsGot(v, nums, n);
  }
}
